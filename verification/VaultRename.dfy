// The pass over a vault after a note was renamed: note by note, previewed or
// written (crates/gpty-core/src/vault.rs, `rewrite_links`).
//
// A note is what a read of it gives: its text, or nothing when it cannot be
// read, and whether the read cap cut it. Whether a write lands is a parameter.
module VaultRename {
  import opened Wrappers
  import opened Bytes
  import opened LinkScanner
  import opened LinkTargets
  import opened LinkRewrite
  import opened LinkReadback
  import opened RenamePass
  import Notes = NoteIndex

  datatype Note = Note(path: Str, body: Option<Str>, cut: bool)

  // Notes changed and mentions respelled, notes passed over, and the renamed
  // note's own new text.
  datatype Tally = Tally(files: nat, mentions: nat, skipped: nat, adopted: Option<Str>)

  const NOTHING := Tally(0, 0, 0, None)

  datatype Mode = Mode(write: bool, includeRenamed: bool)

  // ── One note ───────────────────────────────────────────────────────────

  ghost predicate Examined(r: Rename, mode: Mode, note: Note) {
    note.body.Some? && (note.path != r.newPath || mode.includeRenamed)
  }

  // The note has a mention that cannot be spelled: the pass ends here.
  ghost predicate Halts(r: Rename, mode: Mode, note: Note) {
    Examined(r, mode, note) && Renamed(r, note.body.value).Refused?
  }

  // The note has mentions to respell, and can be written back.
  ghost predicate Changes(r: Rename, mode: Mode, note: Note) {
    Examined(r, mode, note) && Renamed(r, note.body.value).Written? && !note.cut
  }

  ghost function NoteTurn(r: Rename, mode: Mode, note: Note, lands: bool, t: Tally): (Note, Tally)
    requires !Halts(r, mode, note)
  {
    if !Examined(r, mode, note) || Renamed(r, note.body.value).Unchanged? then (note, t)
    else
      var (body, mentions) := (Renamed(r, note.body.value).body, Renamed(r, note.body.value).mentions);
      if note.cut then (note, t.(skipped := t.skipped + 1))
      else if !mode.write then (note, t.(files := t.files + 1, mentions := t.mentions + mentions))
      else if !lands then (note, t.(skipped := t.skipped + 1))
      else (note.(body := Some(body)),
            t.(files := t.files + 1, mentions := t.mentions + mentions,
               adopted := if note.path == r.newPath then Some(body) else t.adopted))
  }

  // ── The pass ───────────────────────────────────────────────────────────

  datatype Pass = Pass(notes: seq<Note>, tally: Tally, halted: bool)

  // The pass after the first `n` notes.
  ghost function PassTo(r: Rename, mode: Mode, notes: seq<Note>, lands: seq<bool>, n: nat): (p: Pass)
    requires |lands| == |notes| && n <= |notes|
    ensures |p.notes| == |notes|
    ensures forall k :: n <= k < |notes| ==> p.notes[k] == notes[k]
  {
    if n == 0 then Pass(notes, NOTHING, false)
    else
      var p := PassTo(r, mode, notes, lands, n - 1);
      if p.halted then p
      else if Halts(r, mode, notes[n - 1]) then p.(halted := true)
      else
        var (note, t) := NoteTurn(r, mode, notes[n - 1], lands[n - 1], p.tally);
        Pass(p.notes[n - 1 := note], t, false)
  }

  // The note paths before the rename.
  function OldPaths(notes: seq<Note>, oldPath: Str, newPath: Str): seq<Str> {
    seq(|notes|, k requires 0 <= k < |notes| => if notes[k].path == newPath then oldPath else notes[k].path)
  }

  // Renaming the old path to the new one in the paths before gives the paths
  // there are, and no path before was the new one.
  lemma OldPathsRenamed(notes: seq<Note>, oldPath: Str, newPath: Str, k: nat)
    requires k < |notes| && oldPath != newPath && forall j :: 0 <= j < |notes| ==> notes[j].path != oldPath
    ensures var paths := OldPaths(notes, oldPath, newPath);
            |paths| == |notes| && paths[k] != newPath && notes[k].path == if paths[k] == oldPath then newPath else paths[k]
  {
  }

  const NOTE: Str := [0x6e, 0x6f, 0x74, 0x65]

  datatype Error = BadName | OldNameTaken | NoSuchNote

  datatype Answer = Failed(error: Error) | Done(tally: Tally)

  class Vault {
    var notes: seq<Note>

    constructor (notes: seq<Note>)
      ensures this.notes == notes
    {
      this.notes := notes;
    }

    // The paths of the notes as they were, unless one has the old name again;
    // and whether one has the new name.
    method CollectPaths(oldPath: Str, newPath: Str) returns (paths: Option<seq<Str>>, found: bool)
      ensures paths.None? <==> exists k :: 0 <= k < |notes| && notes[k].path == oldPath
      ensures paths.Some? ==> paths == Some(OldPaths(notes, oldPath, newPath))
      ensures paths.Some? ==> (found <==> exists k :: 0 <= k < |notes| && notes[k].path == newPath)
    {
      var out: seq<Str> := [];
      found := false;
      for i := 0 to |notes|
        invariant forall k :: 0 <= k < i ==> notes[k].path != oldPath
        invariant found <==> exists k :: 0 <= k < i && notes[k].path == newPath
        invariant out == OldPaths(notes[..i], oldPath, newPath)
      {
        if notes[i].path == oldPath {
          return None, found;
        }
        if notes[i].path == newPath {
          found := true;
          out := out + [oldPath];
        } else {
          out := out + [notes[i].path];
        }
      }
      assert notes[..|notes|] == notes;
      paths := Some(out);
    }

    method RewriteLinks(lower: Str -> Str, oldPath: Str, newPath: Str, mode: Mode, lands: seq<bool>) returns (answer: Answer)
      requires |lands| == |notes|
      modifies this
      ensures Retarget(NOTE, newPath).None? ==> answer == Failed(BadName) && notes == old(notes)
      ensures Retarget(NOTE, newPath).Some? && (exists k :: 0 <= k < |old(notes)| && old(notes)[k].path == oldPath) ==>
                answer == Failed(OldNameTaken) && notes == old(notes)
      ensures Retarget(NOTE, newPath).Some? && (forall k :: 0 <= k < |old(notes)| ==> old(notes)[k].path != oldPath) ==>
                if forall k :: 0 <= k < |old(notes)| ==> old(notes)[k].path != newPath then
                  answer == Failed(NoSuchNote) && notes == old(notes)
                else
                  var r := Rename(OldPaths(old(notes), oldPath, newPath), lower, oldPath, newPath);
                  var p := PassTo(r, mode, old(notes), lands, |lands|);
                  notes == p.notes && answer == if p.halted then Failed(BadName) else Done(p.tally)
    {
      hide Retarget, Renamed, OldPaths;
      if Retarget(NOTE, newPath).None? {
        return Failed(BadName);
      }
      var paths, found := CollectPaths(oldPath, newPath);
      if paths.None? {
        return Failed(OldNameTaken);
      }
      if !found {
        return Failed(NoSuchNote);
      }
      var index := new Notes.NoteIndex(paths.value, lower);
      answer := WalkNotes(Rename(paths.value, lower, oldPath, newPath), index, mode, lands);
    }

    // The loop over the notes.
    method WalkNotes(r: Rename, index: Notes.NoteIndex, mode: Mode, lands: seq<bool>) returns (answer: Answer)
      requires |lands| == |notes| && index.Valid() && index.notes == r.notes && index.lower == r.lower
      modifies this
      ensures var p := PassTo(r, mode, old(notes), lands, |lands|);
              notes == p.notes && answer == if p.halted then Failed(BadName) else Done(p.tally)
    {
      hide Renamed;
      var t := NOTHING;
      for i := 0 to |lands|
        invariant |notes| == |lands|
        invariant Pass(notes, t, false) == PassTo(r, mode, old(notes), lands, i)
      {
        var note := notes[i];
        PassNext(r, mode, old(notes), lands, i);
        if note.path == r.newPath && !mode.includeRenamed {
          continue;
        }
        if note.body.None? {
          continue;
        }
        var outcome := RespellMentions(r, index, note.body.value);
        match outcome {
          case Refused =>
            HaltedStays(r, mode, old(notes), lands, i + 1, |lands|);
            return Failed(BadName);
          case Unchanged =>
          case Written(body, mentions) =>
            if note.cut {
              t := t.(skipped := t.skipped + 1);
            } else if !mode.write {
              t := t.(files := t.files + 1, mentions := t.mentions + mentions);
            } else if !lands[i] {
              t := t.(skipped := t.skipped + 1);
            } else {
              notes := notes[i := note.(body := Some(body))];
              t := t.(files := t.files + 1, mentions := t.mentions + mentions);
              if note.path == r.newPath {
                t := t.(adopted := Some(body));
              }
            }
        }
      }
      answer := Done(t);
    }
  }

  lemma PassNext(r: Rename, mode: Mode, notes: seq<Note>, lands: seq<bool>, n: nat)
    requires |lands| == |notes| && n < |notes|
    ensures var p := PassTo(r, mode, notes, lands, n);
            PassTo(r, mode, notes, lands, n + 1)
            == if p.halted then p
               else if Halts(r, mode, notes[n]) then p.(halted := true)
               else var (note, t) := NoteTurn(r, mode, notes[n], lands[n], p.tally); Pass(p.notes[n := note], t, false)
  {
    hide Halts, NoteTurn;
  }

  lemma {:induction false} HaltedStays(r: Rename, mode: Mode, notes: seq<Note>, lands: seq<bool>, n: nat, m: nat)
    requires |lands| == |notes| && n <= m <= |notes| && PassTo(r, mode, notes, lands, n).halted
    ensures PassTo(r, mode, notes, lands, m) == PassTo(r, mode, notes, lands, n)
    decreases m
  {
    hide PassTo, Halts, NoteTurn;
    if n < m {
      HaltedStays(r, mode, notes, lands, n, m - 1);
      PassNext(r, mode, notes, lands, m - 1);
    }
  }

  // ── What a pass leaves ─────────────────────────────────────────────────

  // No note up to `k` ends the pass.
  ghost predicate Reaches(r: Rename, mode: Mode, notes: seq<Note>, k: nat)
    requires k < |notes|
  {
    forall j :: 0 <= j <= k ==> !Halts(r, mode, notes[j])
  }

  lemma NothingPassed(r: Rename, mode: Mode, notes: seq<Note>, lands: seq<bool>)
    requires |lands| == |notes|
    ensures PassTo(r, mode, notes, lands, 0) == Pass(notes, NOTHING, false)
  {
  }

  lemma TurnIsWhole(r: Rename, mode: Mode, note: Note, lands: bool, t: Tally)
    requires !Halts(r, mode, note)
    ensures NoteTurn(r, mode, note, lands, t).0
         == if mode.write && lands && Changes(r, mode, note) then note.(body := Some(After(r, note.body.value))) else note
  {
    hide Renamed;
  }

  // A pass ends early at the first note with a mention it cannot spell, and
  // only there. Every note it got past that changes and whose write landed is
  // its whole respelt body; every other note is as it was.
  lemma {:induction false} EveryNoteIsWhole(r: Rename, mode: Mode, notes: seq<Note>, lands: seq<bool>, n: nat)
    requires |lands| == |notes| && n <= |notes|
    ensures var p := PassTo(r, mode, notes, lands, n);
            && (p.halted <==> exists k :: 0 <= k < n && Halts(r, mode, notes[k]))
            && forall k :: 0 <= k < |notes| ==>
                 p.notes[k] == if k < n && mode.write && lands[k] && Changes(r, mode, notes[k]) && Reaches(r, mode, notes, k)
                               then notes[k].(body := Some(After(r, notes[k].body.value))) else notes[k]
  {
    hide PassTo, Halts, Changes, After, NoteTurn;
    if n == 0 {
      NothingPassed(r, mode, notes, lands);
    } else {
      EveryNoteIsWhole(r, mode, notes, lands, n - 1);
      PassNext(r, mode, notes, lands, n - 1);
      var p := PassTo(r, mode, notes, lands, n - 1);
      if !p.halted && !Halts(r, mode, notes[n - 1]) {
        TurnIsWhole(r, mode, notes[n - 1], lands[n - 1], p.tally);
      }
    }
  }

  // One note's turn in the preview and in the pass.
  lemma TurnForeseen(r: Rename, included: bool, note: Note, lands: bool, s: Tally, t: Tally)
    requires !Halts(r, Mode(false, included), note) && !Halts(r, Mode(true, included), note)
    ensures var (plan, done) := (NoteTurn(r, Mode(false, included), note, lands, s), NoteTurn(r, Mode(true, included), note, lands, t));
            && plan.0 == note && plan.1.adopted == s.adopted
            && plan.1.files + plan.1.skipped - s.files - s.skipped == done.1.files + done.1.skipped - t.files - t.skipped
            && done.1.files - t.files <= plan.1.files - s.files && done.1.mentions - t.mentions <= plan.1.mentions - s.mentions
            && (lands && t.(adopted := None) == s.(adopted := None) ==> done.1.(adopted := None) == plan.1.(adopted := None))
  {
    hide Renamed;
  }

  lemma HaltsEither(r: Rename, included: bool, note: Note)
    ensures Halts(r, Mode(false, included), note) <==> Halts(r, Mode(true, included), note)
  {
  }

  // The preview is the pass without its writes: it leaves every note alone,
  // is refused exactly when the pass is, and counts what the pass counts; a
  // note whose write does not land moves from the files to the skipped.
  lemma {:induction false} PreviewForesees(r: Rename, included: bool, notes: seq<Note>, lands: seq<bool>, n: nat)
    requires |lands| == |notes| && n <= |notes|
    ensures var (plan, done) := (PassTo(r, Mode(false, included), notes, lands, n), PassTo(r, Mode(true, included), notes, lands, n));
            && plan.notes == notes && plan.halted == done.halted && plan.tally.adopted == None
            && plan.tally.files + plan.tally.skipped == done.tally.files + done.tally.skipped
            && done.tally.files <= plan.tally.files && done.tally.mentions <= plan.tally.mentions
            && ((forall k :: 0 <= k < n ==> lands[k]) ==> done.tally.(adopted := None) == plan.tally)
  {
    hide PassTo, Halts, NoteTurn;
    if n == 0 {
      NothingPassed(r, Mode(false, included), notes, lands);
      NothingPassed(r, Mode(true, included), notes, lands);
    } else {
      PreviewForesees(r, included, notes, lands, n - 1);
      PassNext(r, Mode(false, included), notes, lands, n - 1);
      PassNext(r, Mode(true, included), notes, lands, n - 1);
      var (s, t) := (PassTo(r, Mode(false, included), notes, lands, n - 1), PassTo(r, Mode(true, included), notes, lands, n - 1));
      HaltsEither(r, included, notes[n - 1]);
      if !s.halted && !Halts(r, Mode(true, included), notes[n - 1]) {
        TurnForeseen(r, included, notes[n - 1], lands[n - 1], s.tally, t.tally);
      }
    }
  }

  // The mentions of a body whose target the rename changes.
  ghost function Changed(r: Rename, body: Str): set<nat> {
    set k: nat | k < |Parsed(body)| && k < |Parsed(After(r, body))| && Parsed(After(r, body))[k].target != Parsed(body)[k].target
  }

  lemma {:induction false} CountIsCard(choices: seq<Option<Str>>)
    ensures Count(choices) == |set k: nat | k < |choices| && choices[k].Some?|
  {
    var all := set k: nat | k < |choices| && choices[k].Some?;
    if choices == [] {
      assert all == {};
    } else {
      var n: nat := |choices| - 1;
      CountIsCard(choices[..n]);
      var before := set k: nat | k < |choices[..n]| && choices[..n][k].Some?;
      assert forall k: nat :: k < n ==> choices[..n][k] == choices[k];
      assert all == if choices[n].Some? then before + {n} else before;
    }
  }

  // What a body's rename counts are its mentions that changed.
  lemma MentionsAreChanged(r: Rename, body: Str)
    requires Renamed(r, body).Written?
    ensures Renamed(r, body).mentions == |Changed(r, body)|
  {
    hide Parsed, CopiedTo, Retarget, Laid, Notes.Resolve;
    var choices := Choices(r, Parsed(body));
    RenameRespellsEveryMention(r, body);
    CountIsCard(choices);
    assert Renamed(r, body).mentions == Count(choices);
    hide Count, Renamed, After;
    assert (set k: nat | k < |choices| && choices[k].Some?) == Changed(r, body);
  }

  // Note `k` is reached, changes, and is written if anything is.
  ghost predicate Counted(r: Rename, mode: Mode, notes: seq<Note>, lands: seq<bool>, k: nat)
    requires k < |notes| == |lands|
  {
    Reaches(r, mode, notes, k) && Changes(r, mode, notes[k]) && (mode.write ==> lands[k])
  }

  // Note `k` is reached and has mentions to respell, but is cut, or its write
  // does not land.
  ghost predicate Passed(r: Rename, mode: Mode, notes: seq<Note>, lands: seq<bool>, k: nat)
    requires k < |notes| == |lands|
  {
    && Reaches(r, mode, notes, k) && Examined(r, mode, notes[k]) && Renamed(r, notes[k].body.value).Written?
    && (notes[k].cut || (mode.write && !lands[k]))
  }

  ghost function MentionsTo(r: Rename, mode: Mode, notes: seq<Note>, lands: seq<bool>, n: nat): nat
    requires |lands| == |notes| && n <= |notes|
  {
    if n == 0 then 0
    else
      MentionsTo(r, mode, notes, lands, n - 1)
      + (if Counted(r, mode, notes, lands, n - 1) then |Changed(r, notes[n - 1].body.value)| else 0)
  }

  // One note's part in the counts.
  lemma TurnCounts(r: Rename, mode: Mode, notes: seq<Note>, lands: seq<bool>, k: nat, t: Tally)
    requires k < |notes| == |lands| && Reaches(r, mode, notes, k)
    ensures var u := NoteTurn(r, mode, notes[k], lands[k], t).1;
            && u.files == t.files + (if Counted(r, mode, notes, lands, k) then 1 else 0)
            && u.skipped == t.skipped + (if Passed(r, mode, notes, lands, k) then 1 else 0)
            && u.mentions == t.mentions + (if Counted(r, mode, notes, lands, k) then |Changed(r, notes[k].body.value)| else 0)
            && u.adopted == if mode.write && notes[k].path == r.newPath && Counted(r, mode, notes, lands, k)
                            then Some(After(r, notes[k].body.value)) else t.adopted
  {
    hide Renamed, Changed;
    assert !Halts(r, mode, notes[k]);
    if Changes(r, mode, notes[k]) {
      MentionsAreChanged(r, notes[k].body.value);
    }
  }

  ghost function CountedTo(r: Rename, mode: Mode, notes: seq<Note>, lands: seq<bool>, n: nat): set<nat>
    requires |lands| == |notes| && n <= |notes|
  {
    set k: nat | k < n && Counted(r, mode, notes, lands, k)
  }

  ghost function PassedTo(r: Rename, mode: Mode, notes: seq<Note>, lands: seq<bool>, n: nat): set<nat>
    requires |lands| == |notes| && n <= |notes|
  {
    set k: nat | k < n && Passed(r, mode, notes, lands, k)
  }

  lemma OneMore(r: Rename, mode: Mode, notes: seq<Note>, lands: seq<bool>, n: nat)
    requires n < |notes| == |lands|
    ensures |CountedTo(r, mode, notes, lands, n + 1)| == |CountedTo(r, mode, notes, lands, n)| + (if Counted(r, mode, notes, lands, n) then 1 else 0)
    ensures |PassedTo(r, mode, notes, lands, n + 1)| == |PassedTo(r, mode, notes, lands, n)| + (if Passed(r, mode, notes, lands, n) then 1 else 0)
  {
    hide Counted, Passed;
    var (a, b) := (CountedTo(r, mode, notes, lands, n), PassedTo(r, mode, notes, lands, n));
    assert CountedTo(r, mode, notes, lands, n + 1) == if Counted(r, mode, notes, lands, n) then a + {n} else a;
    assert PassedTo(r, mode, notes, lands, n + 1) == if Passed(r, mode, notes, lands, n) then b + {n} else b;
  }

  lemma NotReached(r: Rename, mode: Mode, notes: seq<Note>, lands: seq<bool>, k: nat)
    requires k < |notes| == |lands| && !Reaches(r, mode, notes, k)
    ensures !Counted(r, mode, notes, lands, k) && !Passed(r, mode, notes, lands, k)
  {
  }

  // The counts of a pass are exact: the files are the notes reached that
  // change and, when anything is written, whose writes landed; the mentions
  // are those of theirs whose target changed; the skipped are the notes with
  // mentions to respell that are cut or whose write did not land; and the text
  // handed back is the renamed note's own, when it was written.
  lemma {:induction false} TallyIsExact(r: Rename, mode: Mode, notes: seq<Note>, lands: seq<bool>, n: nat)
    requires |lands| == |notes| && n <= |notes|
    ensures var t := PassTo(r, mode, notes, lands, n).tally;
            && t.files == |CountedTo(r, mode, notes, lands, n)| && t.skipped == |PassedTo(r, mode, notes, lands, n)|
            && t.mentions == MentionsTo(r, mode, notes, lands, n)
            && (t.adopted.None? <==> forall k: nat :: k < n && mode.write && notes[k].path == r.newPath ==> !Counted(r, mode, notes, lands, k))
            && (t.adopted.Some? ==> exists k: nat :: k < n && notes[k].path == r.newPath && Counted(r, mode, notes, lands, k)
                                                    && t.adopted == Some(After(r, notes[k].body.value)))
  {
    hide PassTo, Halts, Changes, Counted, Passed, CountedTo, PassedTo, Changed, NoteTurn, After, Reaches;
    if n == 0 {
      NothingPassed(r, mode, notes, lands);
      NobodyCounted(r, mode, notes, lands);
    } else {
      TallyIsExact(r, mode, notes, lands, n - 1);
      OneMore(r, mode, notes, lands, n - 1);
      PassNext(r, mode, notes, lands, n - 1);
      HaltedIff(r, mode, notes, lands, n - 1);
      var p := PassTo(r, mode, notes, lands, n - 1);
      if Reaches(r, mode, notes, n - 1) {
        TurnCounts(r, mode, notes, lands, n - 1, p.tally);
      } else {
        NotReached(r, mode, notes, lands, n - 1);
      }
    }
  }

  lemma NobodyCounted(r: Rename, mode: Mode, notes: seq<Note>, lands: seq<bool>)
    requires |lands| == |notes|
    ensures CountedTo(r, mode, notes, lands, 0) == {} && PassedTo(r, mode, notes, lands, 0) == {}
  {
  }

  lemma HaltedIff(r: Rename, mode: Mode, notes: seq<Note>, lands: seq<bool>, n: nat)
    requires n < |notes| == |lands|
    ensures Reaches(r, mode, notes, n) <==> !PassTo(r, mode, notes, lands, n).halted && !Halts(r, mode, notes[n])
  {
    hide PassTo, Halts, Changes, After;
    EveryNoteIsWhole(r, mode, notes, lands, n);
  }

  // Notes that cannot be read are not counted anywhere: only a cut one or a
  // write that did not land is skipped.
  lemma {:induction false} OnlyCutOrRefusedIsSkipped(r: Rename, mode: Mode, notes: seq<Note>, lands: seq<bool>, n: nat)
    requires |lands| == |notes| && n <= |notes|
    requires forall k :: 0 <= k < n ==> lands[k] && (notes[k].body.Some? ==> !notes[k].cut)
    ensures PassTo(r, mode, notes, lands, n).tally.skipped == 0
  {
    hide PassTo, Halts, Renamed;
    if n == 0 {
      NothingPassed(r, mode, notes, lands);
    } else {
      OnlyCutOrRefusedIsSkipped(r, mode, notes, lands, n - 1);
      PassNext(r, mode, notes, lands, n - 1);
    }
  }

  // ── A name that cannot be spelled ──────────────────────────────────────

  // The check before the pass looks at the new stem alone. A pass it lets
  // through can still meet a mention it cannot spell exactly when the whole
  // path cannot be spelled, and then only a path mention.
  lemma StemCheckMissesIff(newPath: Str)
    requires Retarget(NOTE, newPath).Some?
    ensures (exists target :: Retarget(target, newPath).None?) <==> !Spellable(newPath)
    ensures forall target :: Retarget(target, newPath).None? ==> SLASH in target
  {
    hide NoteStem, Spellable;
    assert SLASH !in NOTE;
    var path := [SLASH] + MD;
    assert path[1..] == MD && path[0] in path;
    assert Retarget(path, newPath).Some? <==> Spellable(newPath);
    if Spellable(newPath) {
      StemsOfSpellable(newPath);
      forall target ensures Retarget(target, newPath).Some? {
        assert Respelled(target, newPath) in [newPath, WithoutMd(newPath), NoteStem(newPath)];
      }
    }
  }

  lemma MdHasNoStem()
    ensures NoteStem(MD) == []
  {
    FileNameAtRoot(MD);
    hide FileName;
    assert MD[0..] == MD;
  }

  lemma StemsOfSpellable(path: Str)
    requires Spellable(path) && Spellable(NoteStem(path))
    ensures Spellable(WithoutMd(path))
  {
    MdHasNoStem();
    hide NoteStem;
    var stem := WithoutMd(path);
    if stem != path {
      assert path == stem + MD;
      assert path != MD;
      assert [] + MD == MD;
      PrefixSpellable(path, stem);
    }
  }

  lemma PrefixSpellable(s: Str, a: Str)
    requires Spellable(s) && a <= s && a != []
    ensures Spellable(a)
  {
    assert forall i :: 0 <= i < |a| ==> a[i] == s[i] && (ControlAt(a, i) ==> ControlAt(s, i));
  }

  // Then the pass ends in the middle, with notes written before it. Here one
  // mentions the renamed note by its stem, the next by its path.
  lemma RefusedHalfWay(r: Rename, first: Note, second: Note, s: Str, t: Str, path: Str)
    requires first.path != r.newPath && second.path != r.newPath
    requires first == Note(first.path, Some(Mention(s)), false) && second == Note(second.path, Some(Mention(path)), false)
    requires Readable(s) && Names(r, s) && Retarget(s, r.newPath) == Some(t) && t != s
    requires Readable(path) && Refuses(r, path)
    ensures PassTo(r, Mode(true, false), [first, second], [true, true], 2).halted
    ensures PassTo(r, Mode(true, false), [first, second], [true, true], 2).notes == [first.(body := Some(Mention(t))), second]
  {
    hide Readable, Mention, Names, Parsed, PassTo, Retarget, Renamed;
    OneMentionRespelt(r, s, t);
    OneMentionRefused(r, path);
    hide Refuses;
    var (notes, mode) := ([first, second], Mode(true, false));
    assert Reaches(r, mode, notes, 0);
    EveryNoteIsWhole(r, mode, notes, [true, true], 2);
    assert Halts(r, mode, notes[1]);
  }

  lemma OneMentionRefused(r: Rename, t: Str)
    requires Readable(t) && Refuses(r, t)
    ensures Renamed(r, Mention(t)).Refused?
  {
    hide Readable, Mention, Parsed, Refuses;
    ReadableIff(t);
    assert Refuses(r, Parsed(Mention(t))[0].target);
  }

  lemma OneMentionRespelt(r: Rename, s: Str, t: Str)
    requires Readable(s) && Names(r, s) && Retarget(s, r.newPath) == Some(t) && t != s
    ensures Renamed(r, Mention(s)).Written? && After(r, Mention(s)) == Mention(t)
  {
    hide Readable, Parsed, Names, Retarget;
    ReadableIff(s);
    var body := Mention(s);
    ParsedIsLaid(body);
    var links := Parsed(body);
    var choices := Choices(r, links);
    assert links == [Link(0, 1, s, None, None, 0, |s| + 4)];
    assert choices == [Some(t)];
    hide *;
    NoneCounted(choices);
    OneSplice(s, t, links, choices);
  }

  lemma OneSplice(s: Str, t: Str, links: seq<Link>, choices: seq<Option<Str>>)
    requires links == [Link(0, 1, s, None, None, 0, |s| + 4)] && choices == [Some(t)]
    ensures Laid(Mention(s), links) && CopiedTo(Mention(s), links, choices, 1) == Mention(t)
  {
    NothingRespelt(Mention(s), links, choices);
    CopyStep(Mention(s), links, choices, 0);
    hide CopiedTo;
    assert Moved(links, choices, 0) == 0;
    assert Mention(s)[..2] == [OPENER, OPENER] && Mention(s)[2 + |s|..] == [CLOSER, CLOSER];
  }
}
