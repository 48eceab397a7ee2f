// Resolving a link target against a vault's notes
// (crates/gpty-core/src/links.rs, `NoteIndex`). The index answers by hash
// lookup; `Resolve` below answers by scanning the notes.
//
// Unicode lower-casing is a parameter, `lower`.
module NoteIndex {
  import opened Wrappers
  import opened Bytes
  import opened LinkTargets

  datatype Resolution = Resolved(note: Str) | Ambiguous(notes: seq<Str>) | Missing

  // The three ways a note is filed besides its own path.
  datatype Shelf = ByPathCi | ByStem | ByStemCi

  function KeyOf(shelf: Shelf, lower: Str -> Str, note: Str): Str {
    match shelf
    case ByPathCi => lower(note)
    case ByStem => NoteStem(note)
    case ByStemCi => lower(NoteStem(note))
  }

  // The notes filed under `key`, in order.
  function Matching(notes: seq<Str>, shelf: Shelf, lower: Str -> Str, key: Str): seq<Str> {
    if notes == [] then []
    else
      var n := |notes| - 1;
      Matching(notes[..n], shelf, lower, key) + (if KeyOf(shelf, lower, notes[n]) == key then [notes[n]] else [])
  }

  // ── Byte order ─────────────────────────────────────────────────────────

  predicate AtMost(a: Str, b: Str) {
    a == [] || (b != [] && (a[0] < b[0] || (a[0] == b[0] && AtMost(a[1..], b[1..]))))
  }

  ghost predicate Ordered(xs: seq<Str>) {
    forall i, j :: 0 <= i < j < |xs| ==> AtMost(xs[i], xs[j])
  }

  lemma {:induction false} AtMostTotal(a: Str, b: Str)
    ensures AtMost(a, b) || AtMost(b, a)
    ensures AtMost(a, b) && AtMost(b, a) ==> a == b
  {
    if a != [] && b != [] && a[0] == b[0] {
      AtMostTotal(a[1..], b[1..]);
      assert a == [a[0]] + a[1..] && b == [b[0]] + b[1..];
    }
  }

  lemma {:induction false} AtMostTransitive(a: Str, b: Str, c: Str)
    requires AtMost(a, b) && AtMost(b, c)
    ensures AtMost(a, c)
  {
    if a != [] && a[0] == b[0] == c[0] {
      AtMostTransitive(a[1..], b[1..], c[1..]);
    }
  }

  function Insert(x: Str, xs: seq<Str>): (r: seq<Str>)
    ensures multiset(r) == multiset(xs) + multiset{x}
  {
    if xs == [] || AtMost(x, xs[0]) then [x] + xs
    else
      assert xs == [xs[0]] + xs[1..];
      [xs[0]] + Insert(x, xs[1..])
  }

  function Sorted(xs: seq<Str>): (r: seq<Str>)
    ensures multiset(r) == multiset(xs)
  {
    if xs == [] then []
    else
      assert xs == [xs[0]] + xs[1..];
      Insert(xs[0], Sorted(xs[1..]))
  }

  lemma {:induction false} InsertOrdered(x: Str, xs: seq<Str>)
    requires Ordered(xs)
    ensures Ordered(Insert(x, xs))
  {
    if xs == [] {
    } else if AtMost(x, xs[0]) {
      forall j | 0 <= j < |xs|
        ensures AtMost(x, xs[j])
      {
        if j > 0 { AtMostTransitive(x, xs[0], xs[j]); }
      }
    } else {
      AtMostTotal(x, xs[0]);
      InsertOrdered(x, xs[1..]);
      var rest := Insert(x, xs[1..]);
      forall j | 0 <= j < |rest|
        ensures AtMost(xs[0], rest[j])
      {
        assert rest[j] in multiset(rest);
        assert rest[j] == x || rest[j] in xs[1..];
      }
    }
  }

  // `Sorted` is an ordered arrangement of the same notes.
  lemma {:induction false} SortedIsOrdered(xs: seq<Str>)
    ensures Ordered(Sorted(xs)) && multiset(Sorted(xs)) == multiset(xs)
  {
    if xs != [] {
      SortedIsOrdered(xs[1..]);
      InsertOrdered(xs[0], Sorted(xs[1..]));
    }
  }

  // There is one ordered arrangement of a bag of notes.
  lemma {:induction false} OrderedIsUnique(a: seq<Str>, b: seq<Str>)
    requires Ordered(a) && Ordered(b) && multiset(a) == multiset(b)
    ensures a == b
  {
    hide AtMost;
    assert |multiset(a)| == |a| && |multiset(b)| == |b|;
    if a != [] {
      FirstIsLeast(a, b);
      FirstIsLeast(b, a);
      AtMostTotal(a[0], b[0]);
      WithoutFirst(a);
      WithoutFirst(b);
      OrderedIsUnique(a[1..], b[1..]);
    }
  }

  lemma WithoutFirst(a: seq<Str>)
    requires a != []
    ensures a == [a[0]] + a[1..] && multiset(a[1..]) == multiset(a) - multiset{a[0]}
  {
    assert a == [a[0]] + a[1..];
  }

  lemma FirstIsLeast(a: seq<Str>, b: seq<Str>)
    requires Ordered(a) && a != [] && b != [] && multiset(a) == multiset(b)
    ensures AtMost(a[0], b[0])
  {
    assert b[0] in multiset(b);
    assert b[0] in a;
    AtMostTotal(a[0], a[0]);
  }

  // ── The rules, as a scan ───────────────────────────────────────────────

  function WithMd(target: Str): Str {
    if EndsWith(target, MD) then target else target + MD
  }

  function Pick(matches: seq<Str>): Resolution {
    if |matches| == 0 then Missing
    else if |matches| == 1 then Resolved(matches[0])
    else Ambiguous(Sorted(matches))
  }

  // A path target names a path, exactly or else uniquely up to case; a bare
  // one names a stem, by a unique exact match or else uniquely up to case.
  function Resolve(notes: seq<Str>, lower: Str -> Str, target: Str): Resolution {
    if SLASH in target then
      if WithMd(target) in notes then Resolved(WithMd(target))
      else Pick(Matching(notes, ByPathCi, lower, lower(WithMd(target))))
    else
      var exact := Matching(notes, ByStem, lower, target);
      if |exact| == 1 then Resolved(exact[0])
      else Pick(Matching(notes, ByStemCi, lower, lower(target)))
  }

  // ── The index ──────────────────────────────────────────────────────────

  // The notes an index holds under `key`.
  function Row(index: map<Str, seq<Str>>, key: Str): seq<Str> {
    if key in index then index[key] else []
  }

  ghost predicate FilesKey(index: map<Str, seq<Str>>, notes: seq<Str>, shelf: Shelf, lower: Str -> Str, key: Str) {
    Row(index, key) == Matching(notes, shelf, lower, key)
  }

  ghost predicate Files(index: map<Str, seq<Str>>, notes: seq<Str>, shelf: Shelf, lower: Str -> Str) {
    forall key :: FilesKey(index, notes, shelf, lower, key)
  }

  ghost predicate FilesPaths(paths: map<Str, Str>, notes: seq<Str>) {
    forall key :: (key in paths <==> key in notes) && (key in paths ==> paths[key] == key)
  }

  function Filed(index: map<Str, seq<Str>>, key: Str, note: Str): map<Str, seq<Str>> {
    index[key := Row(index, key) + [note]]
  }

  lemma MatchingSnoc(notes: seq<Str>, note: Str, shelf: Shelf, lower: Str -> Str, key: Str)
    ensures Matching(notes + [note], shelf, lower, key)
         == Matching(notes, shelf, lower, key) + (if KeyOf(shelf, lower, note) == key then [note] else [])
  {
    hide KeyOf;
    assert (notes + [note])[..|notes|] == notes;
  }

  lemma FiledKeepsFiles(index: map<Str, seq<Str>>, notes: seq<Str>, note: Str, shelf: Shelf, lower: Str -> Str)
    requires Files(index, notes, shelf, lower)
    ensures Files(Filed(index, KeyOf(shelf, lower, note), note), notes + [note], shelf, lower)
  {
    hide KeyOf, Matching;
    var filed := Filed(index, KeyOf(shelf, lower, note), note);
    forall key
      ensures FilesKey(filed, notes + [note], shelf, lower, key)
    {
      assert FilesKey(index, notes, shelf, lower, key);
      MatchingSnoc(notes, note, shelf, lower, key);
    }
  }

  lemma FiledPath(paths: map<Str, Str>, notes: seq<Str>, note: Str)
    requires FilesPaths(paths, notes)
    ensures FilesPaths(paths[note := note], notes + [note])
  {
  }

  class NoteIndex {
    const lower: Str -> Str
    ghost var notes: seq<Str>
    var paths: map<Str, Str>
    var pathsCi: map<Str, seq<Str>>
    var stems: map<Str, seq<Str>>
    var stemsCi: map<Str, seq<Str>>

    ghost predicate Valid()
      reads this
    {
      && FilesPaths(paths, notes)
      && Files(pathsCi, notes, ByPathCi, lower)
      && Files(stems, notes, ByStem, lower)
      && Files(stemsCi, notes, ByStemCi, lower)
    }

    constructor (notes: seq<Str>, lower: Str -> Str)
      ensures Valid() && this.notes == notes && this.lower == lower
    {
      hide KeyOf, Files, FilesPaths, Filed;
      this.lower := lower;
      this.notes := [];
      paths, pathsCi, stems, stemsCi := map[], map[], map[], map[];
      new;
      NothingFiled(lower);
      for i := 0 to |notes|
        invariant Valid() && this.notes == notes[..i]
      {
        var note := notes[i];
        FiledPath(paths, notes[..i], note);
        FiledKeepsFiles(pathsCi, notes[..i], note, ByPathCi, lower);
        FiledKeepsFiles(stems, notes[..i], note, ByStem, lower);
        FiledKeepsFiles(stemsCi, notes[..i], note, ByStemCi, lower);
        paths := paths[note := note];
        pathsCi := Filed(pathsCi, KeyOf(ByPathCi, lower, note), note);
        stems := Filed(stems, KeyOf(ByStem, lower, note), note);
        stemsCi := Filed(stemsCi, KeyOf(ByStemCi, lower, note), note);
        assert notes[..i + 1] == notes[..i] + [note];
        this.notes := notes[..i + 1];
      }
      assert notes[..|notes|] == notes;
    }

    // The hash lookups agree with the scan.
    method Lookup(target: Str) returns (r: Resolution)
      requires Valid()
      ensures r == Resolve(notes, lower, target)
    {
      hide KeyOf, Matching, Sorted;
      var exact: Option<Str>;
      var ci: seq<Str>;
      assert FilesKey(pathsCi, notes, ByPathCi, lower, lower(WithMd(target)));
      assert FilesKey(stems, notes, ByStem, lower, target);
      assert FilesKey(stemsCi, notes, ByStemCi, lower, lower(target));
      if SLASH in target {
        var path := WithMd(target);
        exact := if path in paths then Some(paths[path]) else None;
        ci := Row(pathsCi, lower(path));
      } else {
        exact := if target in stems && |stems[target]| == 1 then Some(stems[target][0]) else None;
        ci := Row(stemsCi, lower(target));
      }
      if exact.Some? {
        return Resolved(exact.value);
      }
      if ci == [] {
        return Missing;
      }
      return if |ci| == 1 then Resolved(ci[0]) else Ambiguous(Sorted(ci));
    }
  }

  lemma NothingFiled(lower: Str -> Str)
    ensures forall shelf :: Files(map[], [], shelf, lower)
    ensures FilesPaths(map[], [])
  {
  }

  // ── What resolution promises ───────────────────────────────────────────

  lemma {:induction false} MatchingCounts(notes: seq<Str>, shelf: Shelf, lower: Str -> Str, key: Str, x: Str)
    ensures multiset(Matching(notes, shelf, lower, key))[x]
         == if KeyOf(shelf, lower, x) == key then multiset(notes)[x] else 0
  {
    hide KeyOf;
    if notes != [] {
      hide Matching;
      var n := |notes| - 1;
      assert notes == notes[..n] + [notes[n]];
      MatchingSnoc(notes[..n], notes[n], shelf, lower, key);
      MatchingCounts(notes[..n], shelf, lower, key, x);
    }
  }

  lemma MatchingMembers(notes: seq<Str>, shelf: Shelf, lower: Str -> Str, key: Str, x: Str)
    ensures x in Matching(notes, shelf, lower, key) <==> x in notes && KeyOf(shelf, lower, x) == key
  {
    hide KeyOf, Matching;
    MatchingCounts(notes, shelf, lower, key, x);
    var found := Matching(notes, shelf, lower, key);
    assert x in found <==> multiset(found)[x] > 0;
    assert x in notes <==> multiset(notes)[x] > 0;
  }

  lemma MatchingPermutes(notes: seq<Str>, notes': seq<Str>, shelf: Shelf, lower: Str -> Str, key: Str)
    requires multiset(notes) == multiset(notes')
    ensures multiset(Matching(notes, shelf, lower, key)) == multiset(Matching(notes', shelf, lower, key))
  {
    hide KeyOf, Matching;
    forall x: Str
      ensures multiset(Matching(notes, shelf, lower, key))[x] == multiset(Matching(notes', shelf, lower, key))[x]
    {
      MatchingCounts(notes, shelf, lower, key, x);
      MatchingCounts(notes', shelf, lower, key, x);
    }
  }

  lemma PickPermutes(a: seq<Str>, b: seq<Str>)
    requires multiset(a) == multiset(b)
    ensures Pick(a) == Pick(b) && |a| == |b| && (|a| == 1 ==> a[0] == b[0])
  {
    assert |multiset(a)| == |a| && |multiset(b)| == |b|;
    if |a| == 1 {
      assert a[0] in multiset(b);
    } else if |a| > 1 {
      SortedIsOrdered(a);
      SortedIsOrdered(b);
      OrderedIsUnique(Sorted(a), Sorted(b));
    }
  }

  // The order in which the notes are listed does not matter.
  lemma ResolveIgnoresOrder(notes: seq<Str>, notes': seq<Str>, lower: Str -> Str, target: Str)
    requires multiset(notes) == multiset(notes')
    ensures Resolve(notes, lower, target) == Resolve(notes', lower, target)
  {
    hide Matching, Pick;
    if SLASH in target {
      var path := WithMd(target);
      assert path in notes <==> path in multiset(notes);
      assert path in notes' <==> path in multiset(notes');
      MatchingPermutes(notes, notes', ByPathCi, lower, lower(path));
      PickPermutes(Matching(notes, ByPathCi, lower, lower(path)), Matching(notes', ByPathCi, lower, lower(path)));
    } else {
      MatchingPermutes(notes, notes', ByStem, lower, target);
      PickPermutes(Matching(notes, ByStem, lower, target), Matching(notes', ByStem, lower, target));
      MatchingPermutes(notes, notes', ByStemCi, lower, lower(target));
      PickPermutes(Matching(notes, ByStemCi, lower, lower(target)), Matching(notes', ByStemCi, lower, lower(target)));
    }
  }

  lemma {:induction false} StemMatchesFoldTogether(notes: seq<Str>, lower: Str -> Str, target: Str)
    ensures |Matching(notes, ByStem, lower, target)| <= |Matching(notes, ByStemCi, lower, lower(target))|
  {
    if notes != [] {
      StemMatchesFoldTogether(notes[..|notes| - 1], lower, target);
    }
  }

  // A stem that two notes share names neither.
  lemma SharedStemIsAmbiguous(notes: seq<Str>, lower: Str -> Str, target: Str)
    requires SLASH !in target && |Matching(notes, ByStem, lower, target)| >= 2
    ensures Resolve(notes, lower, target).Ambiguous?
  {
    StemMatchesFoldTogether(notes, lower, target);
  }

  // ── After a rename ─────────────────────────────────────────────────────

  // The stem of a note holds a slash only when it is the whole path of a note
  // in a folder whose name does not end in `.md` as spelled.
  lemma StemHoldsSlashIff(note: Str)
    ensures EndsWith(FileName(note), MD) <==> EndsWith(note, MD)
    ensures SLASH in NoteStem(note) <==> SLASH in note && !EndsWith(note, MD)
  {
    FileNameIsTail(note);
    hide FileName;
    EndOfTail(note, FileName(note));
    hide EndsWith;
    if EndsWith(FileName(note), MD) {
      assert SLASH !in FileName(note);
    }
  }

  lemma EndOfTail(path: Str, name: Str)
    requires |name| <= |path| && path[|path| - |name|..] == name && SLASH !in name
    requires |name| < |path| ==> path[|path| - |name| - 1] == SLASH
    ensures EndsWith(name, MD) <==> EndsWith(path, MD)
    ensures EndsWith(name, MD) ==> SLASH !in name[..|name| - |MD|]
  {
    if |name| >= 3 {
      assert path[|path| - 3..] == name[|name| - 3..];
    } else if |path| >= 3 {
      assert path[|path| - 3..][2 - |name|] == SLASH;
    }
  }

  lemma {:induction false} FileNameIsTail(path: Str)
    ensures |FileName(path)| <= |path| && path[|path| - |FileName(path)|..] == FileName(path)
    ensures |FileName(path)| < |path| ==> path[|path| - |FileName(path)| - 1] == SLASH
    ensures SLASH !in path ==> FileName(path) == path
  {
    if path != [] && path[|path| - 1] != SLASH {
      FileNameIsTail(path[..|path| - 1]);
    }
  }

  // Lower-casing does not make a path the same path with or without `.md`.
  predicate KeepsExtension(lower: Str -> Str, path: Str) {
    lower(path + MD) != lower(path) && (EndsWith(path, MD) ==> lower(WithoutMd(path)) != lower(path))
  }

  // A note's stem names it if and only if no other note shares the stem, and
  // the note is at the root or its name ends in `.md` as spelled: the vault
  // also lists `.MD`, whose stem is its whole path.
  lemma StemResolvesIff(notes: seq<Str>, lower: Str -> Str, note: Str)
    requires note in notes && KeepsExtension(lower, note)
    ensures Resolve(notes, lower, NoteStem(note)) == Resolved(note) <==>
            (SLASH !in note || EndsWith(note, MD)) && Matching(notes, ByStem, lower, NoteStem(note)) == [note]
  {
    hide Matching, NoteStem;
    var t := NoteStem(note);
    StemHoldsSlashIff(note);
    if SLASH in t {
      StemIsPath(note);
      PickIsFiled(notes, ByPathCi, lower, lower(note + MD), note);
      assert note + MD != note;
    } else {
      MatchingMembers(notes, ByStem, lower, t, note);
      if |Matching(notes, ByStem, lower, t)| >= 2 {
        SharedStemIsAmbiguous(notes, lower, t);
      }
    }
  }

  lemma StemIsPath(note: Str)
    requires !EndsWith(note, MD)
    ensures NoteStem(note) == note
  {
    StemHoldsSlashIff(note);
  }

  // So does a bare target rewritten for a moved note.
  lemma RetargetedStemResolvesIff(notes: seq<Str>, lower: Str -> Str, target: Str, newPath: Str)
    requires newPath in notes && KeepsExtension(lower, newPath) && SLASH !in target
    requires Retarget(target, newPath).Some?
    ensures Resolve(notes, lower, Retarget(target, newPath).value) == Resolved(newPath) <==>
            (SLASH !in newPath || EndsWith(newPath, MD)) && Matching(notes, ByStem, lower, NoteStem(newPath)) == [newPath]
  {
    StemResolvesIff(notes, lower, newPath);
  }

  // The extension holds no slash.
  lemma SlashBeforeMd(path: Str)
    requires EndsWith(path, MD)
    ensures SLASH in path <==> SLASH in WithoutMd(path)
    ensures path == WithoutMd(path) + MD
  {
    assert path == path[..|path| - 3] + path[|path| - 3..];
  }

  // A path target rewritten for a moved note names exactly that note if and
  // only if the note is in a folder, its name ends in `.md` as spelled, and
  // the spelling keeps that or leaves no second one; or it is at the root, the
  // spelling has no `.md` to be looked up as part of a stem, and its stem is
  // unique.
  lemma RetargetedPathResolvesIff(notes: seq<Str>, lower: Str -> Str, target: Str, newPath: Str)
    requires newPath in notes && KeepsExtension(lower, newPath) && SLASH in target
    requires Retarget(target, newPath).Some?
    ensures Resolve(notes, lower, Retarget(target, newPath).value) == Resolved(newPath) <==>
            if SLASH in newPath then EndsWith(newPath, MD) && (EndsWith(target, MD) || !EndsWith(WithoutMd(newPath), MD))
            else !(EndsWith(target, MD) && EndsWith(newPath, MD)) && Matching(notes, ByStem, lower, NoteStem(newPath)) == [newPath]
  {
    hide Spellable, Matching;
    var t := Retarget(target, newPath).value;
    if !EndsWith(newPath, MD) {
      StemIsPath(newPath);
      assert t == NoteStem(newPath);
      StemResolvesIff(notes, lower, newPath);
    } else {
      SlashBeforeMd(newPath);
      if SLASH in newPath {
        if !EndsWith(target, MD) && EndsWith(t, MD) {
          PickIsFiled(notes, ByPathCi, lower, lower(t), newPath);
        }
      } else if EndsWith(target, MD) {
        FileNameAtRoot(newPath);
        PickIsFiled(notes, ByStem, lower, t, newPath);
        PickIsFiled(notes, ByStemCi, lower, lower(t), newPath);
      } else {
        FileNameAtRoot(newPath);
        StemResolvesIff(notes, lower, newPath);
      }
    }
  }

  // The vault accepts `d/Q.MD`; a bare target rewritten for it is looked up as
  // the path `d/Q.MD.md`, and misses.
  lemma UpperCaseExtensionIsMissed()
    ensures var note := [0x64, SLASH, 0x51, 0x2e, 0x4d, 0x44]; // d/Q.MD
            Retarget([0x6e], note) == Some(note) && Resolve([note], Identity, note) == Missing
            && Matching([note], ByStem, Identity, NoteStem(note)) == [note]
  {
    var note := [0x64, SLASH, 0x51, 0x2e, 0x4d, 0x44];
    assert note[1] == SLASH && !EndsWith(note, MD);
    StemIsPath(note);
    hide NoteStem, Resolve;
    assert [note][..0] == [];
    assert Matching([note], ByStem, Identity, note) == Matching([], ByStem, Identity, note) + [note];
    var path := note + MD;
    assert Matching([note], ByPathCi, Identity, path) == Matching([], ByPathCi, Identity, path);
  }

  // Only a note filed under the key can be picked.
  lemma PickIsFiled(notes: seq<Str>, shelf: Shelf, lower: Str -> Str, key: Str, note: Str)
    ensures var matches := Matching(notes, shelf, lower, key);
            Pick(matches) == Resolved(note) || (|matches| == 1 && matches[0] == note) ==> KeyOf(shelf, lower, note) == key
  {
    hide Matching, KeyOf;
    MatchingMembers(notes, shelf, lower, key, note);
  }

  // A path target that spelled the extension, after a move to the root: the
  // bare `p.md` is looked up as a stem and misses the note.
  lemma RetargetToRootCanMiss()
    ensures var note := [0x70] + MD; // p.md
            var target := [0x73, SLASH, 0x6e] + MD; // s/n.md
            Retarget(target, note) == Some(note) && Resolve([note], Identity, note) != Resolved(note)
  {
    hide Resolve;
    var note := [0x70] + MD;
    var target := [0x73, SLASH, 0x6e] + MD;
    assert target[1] == SLASH && EndsWith(target, MD);
    assert WithoutMd(note) == [0x70];
    RetargetedPathResolvesIff([note], Identity, target, note);
  }

  function Identity(s: Str): Str {
    s
  }
}
