// Which note a link target names, said of the notes themselves
// (crates/gpty-core/src/links.rs, `NoteIndex::resolve` and `note_stem`).
module NoteResolution {
  import opened Wrappers
  import opened Bytes
  import opened LinkTargets
  import opened NoteIndex

  // ── Notes with a key ───────────────────────────────────────────────────

  ghost predicate OneAt(notes: seq<Str>, key: Str -> Str, k: Str, i: nat) {
    i < |notes| && key(notes[i]) == k && forall j :: 0 <= j < |notes| && key(notes[j]) == k ==> j == i
  }

  // `note` is the only entry with that key.
  ghost predicate Only(notes: seq<Str>, key: Str -> Str, k: Str, note: Str) {
    exists i: nat :: OneAt(notes, key, k, i) && notes[i] == note
  }

  ghost predicate Nobody(notes: seq<Str>, key: Str -> Str, k: Str) {
    forall i :: 0 <= i < |notes| ==> key(notes[i]) != k
  }

  ghost predicate Several(notes: seq<Str>, key: Str -> Str, k: Str) {
    exists i, j :: 0 <= i < j < |notes| && key(notes[i]) == k && key(notes[j]) == k
  }

  // All of them, each as often as it is listed, in order.
  ghost predicate AllInOrder(notes: seq<Str>, key: Str -> Str, k: Str, found: seq<Str>) {
    Ordered(found) && forall x :: multiset(found)[x] == if key(x) == k then multiset(notes)[x] else 0
  }

  ghost predicate Keyed(shelf: Shelf, lower: Str -> Str, key: Str -> Str) {
    forall x :: KeyOf(shelf, lower, x) == key(x)
  }

  // What is filed under a key, counted.
  lemma {:induction false} MatchingIff(notes: seq<Str>, shelf: Shelf, lower: Str -> Str, key: Str -> Str, k: Str)
    requires Keyed(shelf, lower, key)
    ensures var found := Matching(notes, shelf, lower, k);
            && (found == [] <==> Nobody(notes, key, k))
            && (forall n :: found == [n] <==> Only(notes, key, k, n))
            && (|found| >= 2 <==> Several(notes, key, k))
  {
    hide KeyOf;
    if notes == [] {
      assert Nobody(notes, key, k);
    } else {
      var n := |notes| - 1;
      var (before, found) := (notes[..n], Matching(notes[..n], shelf, lower, k));
      MatchingIff(before, shelf, lower, key, k);
      assert Matching(notes, shelf, lower, k) == found + (if key(notes[n]) == k then [notes[n]] else []);
      hide Matching;
      if key(notes[n]) == k {
        LastMatches(notes, key, k, found);
      } else {
        LastMisses(notes, key, k);
      }
    }
  }

  lemma LastMisses(notes: seq<Str>, key: Str -> Str, k: Str)
    requires notes != [] && key(notes[|notes| - 1]) != k
    ensures var before := notes[..|notes| - 1];
            && (Nobody(notes, key, k) <==> Nobody(before, key, k))
            && (forall n :: Only(notes, key, k, n) <==> Only(before, key, k, n))
            && (Several(notes, key, k) <==> Several(before, key, k))
  {
    var before := notes[..|notes| - 1];
    assert forall i :: 0 <= i < |before| ==> before[i] == notes[i];
    assert forall i: nat :: OneAt(notes, key, k, i) <==> OneAt(before, key, k, i);
    hide OneAt;
    forall n ensures Only(notes, key, k, n) <==> Only(before, key, k, n) {
      if Only(notes, key, k, n) {
        var i: nat :| OneAt(notes, key, k, i) && notes[i] == n;
        OneIsInside(before, key, k, i);
        assert before[i] == n;
      }
      if Only(before, key, k, n) {
        var i: nat :| OneAt(before, key, k, i) && before[i] == n;
        OneIsInside(before, key, k, i);
        assert notes[i] == n;
      }
    }
  }

  lemma OneIsInside(notes: seq<Str>, key: Str -> Str, k: Str, i: nat)
    requires OneAt(notes, key, k, i)
    ensures i < |notes|
  {
  }

  lemma LastMatches(notes: seq<Str>, key: Str -> Str, k: Str, found: seq<Str>)
    requires notes != [] && key(notes[|notes| - 1]) == k
    requires found == [] <==> Nobody(notes[..|notes| - 1], key, k)
    ensures var now := found + [notes[|notes| - 1]];
            && (now == [] <==> Nobody(notes, key, k))
            && (forall n :: now == [n] <==> Only(notes, key, k, n))
            && (|now| >= 2 <==> Several(notes, key, k))
  {
    var last := |notes| - 1;
    var before := notes[..last];
    assert forall i :: 0 <= i < last ==> before[i] == notes[i];
    if Nobody(before, key, k) {
      assert OneAt(notes, key, k, last);
      assert [] + [notes[last]] == [notes[last]];
    } else {
      var i :| 0 <= i < last && key(before[i]) == k;
      assert key(notes[i]) == k;
    }
  }

  lemma MatchingInOrder(notes: seq<Str>, shelf: Shelf, lower: Str -> Str, key: Str -> Str, k: Str)
    requires Keyed(shelf, lower, key)
    ensures AllInOrder(notes, key, k, Sorted(Matching(notes, shelf, lower, k)))
  {
    hide Matching, KeyOf;
    var found := Matching(notes, shelf, lower, k);
    SortedIsOrdered(found);
    forall x ensures multiset(found)[x] == if key(x) == k then multiset(notes)[x] else 0 {
      MatchingCounts(notes, shelf, lower, k, x);
    }
  }

  // Picking from what is filed under a key.
  lemma PickIff(notes: seq<Str>, shelf: Shelf, lower: Str -> Str, key: Str -> Str, k: Str)
    requires Keyed(shelf, lower, key)
    ensures var r := Pick(Matching(notes, shelf, lower, k));
            && (forall n :: r == Resolved(n) <==> Only(notes, key, k, n))
            && (r == Missing <==> Nobody(notes, key, k))
            && (r.Ambiguous? <==> Several(notes, key, k))
            && (r.Ambiguous? ==> AllInOrder(notes, key, k, r.notes))
  {
    hide Matching, Keyed, KeyOf, Sorted, Only, Several, Nobody, AllInOrder;
    MatchingIff(notes, shelf, lower, key, k);
    MatchingInOrder(notes, shelf, lower, key, k);
    var found := Matching(notes, shelf, lower, k);
    if |found| == 1 {
      assert found == [found[0]];
    }
  }

  // ── Resolution ─────────────────────────────────────────────────────────

  // A path target names the note of that path, with `.md` supplied when it is
  // not spelled, or else the only one that is that path up to case.
  lemma PathResolvesIff(notes: seq<Str>, lower: Str -> Str, target: Str)
    requires SLASH in target
    ensures var path := if |target| >= 3 && target[|target| - 3..] == MD then target else target + MD;
            var r := Resolve(notes, lower, target);
            && (forall n :: r == Resolved(n) <==> if path in notes then n == path else Only(notes, lower, lower(path), n))
            && (r == Missing <==> Nobody(notes, lower, lower(path)))
            && (r.Ambiguous? <==> path !in notes && Several(notes, lower, lower(path)))
            && (r.Ambiguous? ==> AllInOrder(notes, lower, lower(path), r.notes))
  {
    var path := if |target| >= 3 && target[|target| - 3..] == MD then target else target + MD;
    assert path == WithMd(target);
    assert Keyed(ByPathCi, lower, lower);
    hide Matching, Keyed, Pick, Only, Several, AllInOrder, WithMd;
    PickIff(notes, ByPathCi, lower, lower, lower(path));
    if path in notes {
      var i :| 0 <= i < |notes| && notes[i] == path;
      assert lower(notes[i]) == lower(path);
    }
  }

  // A bare target names the only note with that stem, or else the only one
  // with that stem up to case.
  lemma StemResolvesToIff(notes: seq<Str>, lower: Str -> Str, target: Str)
    requires SLASH !in target
    ensures var (stem, stemCi) := ((x: Str) => NoteStem(x), (x: Str) => lower(NoteStem(x)));
            var r := Resolve(notes, lower, target);
            && (forall n :: r == Resolved(n) <==>
                  Only(notes, stem, target, n)
                  || ((forall m :: !Only(notes, stem, target, m)) && Only(notes, stemCi, lower(target), n)))
            && (r == Missing <==> Nobody(notes, stemCi, lower(target)))
            && (r.Ambiguous? <==> (forall m :: !Only(notes, stem, target, m)) && Several(notes, stemCi, lower(target)))
            && (r.Ambiguous? ==> AllInOrder(notes, stemCi, lower(target), r.notes))
  {
    var (stem, stemCi) := ((x: Str) => NoteStem(x), (x: Str) => lower(NoteStem(x)));
    assert Keyed(ByStem, lower, stem) && Keyed(ByStemCi, lower, stemCi);
    hide NoteStem;
    var exact := Matching(notes, ByStem, lower, target);
    MatchingIff(notes, ByStem, lower, stem, target);
    PickIff(notes, ByStemCi, lower, stemCi, lower(target));
    if |exact| == 1 {
      hide Matching, Keyed, Pick, Several, AllInOrder, Nobody;
      OnlyOne(notes, stem, target, exact);
      OnlyIsSomebody(notes, stem, target, exact[0]);
      var i: nat :| i < |notes| && notes[i] == exact[0] && stem(notes[i]) == target;
      SomebodyElse(notes, stemCi, lower(target), i);
    } else {
      hide *;
      StemFallsBack(notes, lower, target);
    }
  }

  lemma StemFallsBack(notes: seq<Str>, lower: Str -> Str, target: Str)
    requires SLASH !in target && |Matching(notes, ByStem, lower, target)| != 1
    ensures Resolve(notes, lower, target) == Pick(Matching(notes, ByStemCi, lower, lower(target)))
  {
    hide Matching, Pick;
  }

  lemma OnlyOne(notes: seq<Str>, key: Str -> Str, k: Str, found: seq<Str>)
    requires |found| == 1 && forall n :: found == [n] <==> Only(notes, key, k, n)
    ensures forall n :: Only(notes, key, k, n) <==> n == found[0]
  {
    hide Only;
    assert found == [found[0]];
  }

  lemma OnlyIsSomebody(notes: seq<Str>, key: Str -> Str, k: Str, n: Str)
    requires Only(notes, key, k, n)
    ensures exists i: nat :: i < |notes| && notes[i] == n && key(notes[i]) == k
  {
  }

  lemma SomebodyElse(notes: seq<Str>, key: Str -> Str, k: Str, i: nat)
    requires i < |notes| && key(notes[i]) == k
    ensures !Nobody(notes, key, k)
  {
  }

  // The stem of a note is its file name without `.md`, in a folder or not; a
  // path that does not end so is its own stem.
  lemma StemIsFileName(dir: Str, name: Str)
    requires SLASH !in name
    ensures NoteStem(name + MD) == name && NoteStem(dir + [SLASH] + name + MD) == name
    ensures var other := dir + [SLASH] + name; !EndsWith(other, MD) ==> NoteStem(other) == other
  {
    var file := name + MD;
    FileNameAtRoot(file);
    FileNameBehind(dir, file);
    assert dir + [SLASH] + name + MD == dir + [SLASH] + file;
    assert file[|file| - 3..] == MD && file[..|file| - 3] == name;
    var other := dir + [SLASH] + name;
    if !EndsWith(other, MD) {
      StemIsPath(other);
    }
    hide FileName;
  }

  lemma {:induction false} FileNameBehind(dir: Str, file: Str)
    requires SLASH !in file
    ensures FileName(dir + [SLASH] + file) == file
  {
    var path := dir + [SLASH] + file;
    if file != [] {
      var n := |file| - 1;
      assert path[..|path| - 1] == dir + [SLASH] + file[..n];
      FileNameBehind(dir, file[..n]);
    }
  }
}
