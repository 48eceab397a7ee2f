// Which lines open and close a fenced block of a note, said of the bytes
// (crates/gpty-core/src/links.rs, `opens_fence` and `closes_fence`).
module LinkFences {
  import opened Wrappers
  import opened Bytes
  import opened Utf8Text
  import opened LinkScanner

  // ── White space ────────────────────────────────────────────────────────

  // `s` encodes white space characters only.
  ghost predicate White(s: Str) {
    exists text: string :: AllWhite(text) && Utf8(text) == s
  }

  ghost predicate AllWhite(text: string) {
    forall i :: 0 <= i < |text| ==> IsWhite(text[i])
  }

  predicate IsSpace(e: Str) {
    || (|e| == 1 && (9 <= e[0] <= 13 || e[0] == 0x20))
    || (|e| == 2 && e[0] == 0xC2 && (e[1] == 0x85 || e[1] == 0xA0))
    || (|e| == 3 && WideSpace(e[0], e[1], e[2]))
  }

  // The encodings of the white space characters.
  lemma EncodedWhite(c: char)
    requires IsWhite(c)
    ensures IsSpace(Encoded(c))
  {
  }

  // The white space character of such an encoding.
  function Decoded(e: Str): (c: char)
    requires IsSpace(e)
    ensures IsWhite(c) && Encoded(c) == e
  {
    if |e| == 1 then e[0] as char
    else if |e| == 2 then e[1] as char
    else
      var (x: int, y: int, z: int) := (e[0], e[1], e[2]);
      (0x1000 * (x - 0xE0) + 0x40 * (y - 0x80) + (z - 0x80)) as char
  }

  lemma {:induction false} Utf8Concat(a: string, b: string)
    ensures Utf8(a + b) == Utf8(a) + Utf8(b)
    decreases |b|
  {
    hide Encoded;
    if b == "" {
      assert a + b == a;
    } else {
      var n := |b| - 1;
      assert (a + b)[..|a + b| - 1] == a + b[..n];
      Utf8Concat(a, b[..n]);
    }
  }

  lemma Utf8One(c: char)
    ensures Utf8([c]) == Encoded(c)
  {
    hide Encoded;
    assert [c][..0] == "" && Utf8("") == [];
  }

  lemma NothingIsWhite()
    ensures White([])
  {
    assert AllWhite("") && Utf8("") == [];
  }

  lemma WhiteCons(c: char, s: Str)
    requires IsWhite(c) && White(s)
    ensures White(Encoded(c) + s) && White(s + Encoded(c))
  {
    hide Encoded, IsWhite, Utf8;
    var text: string :| AllWhite(text) && Utf8(text) == s;
    Utf8Concat([c], text);
    Utf8Concat(text, [c]);
    Utf8One(c);
    assert AllWhite([c] + text) && AllWhite(text + [c]);
    hide AllWhite;
  }

  lemma LeadingIsSpace(s: Str)
    ensures LeadingSpace(s) > 0 ==> IsSpace(s[..LeadingSpace(s)])
  {
    hide WideSpace;
    var e := s[..LeadingSpace(s)];
    assert forall i :: 0 <= i < |e| ==> e[i] == s[i];
  }

  lemma TrailingIsSpace(s: Str)
    ensures TrailingSpace(s) > 0 ==> IsSpace(s[|s| - TrailingSpace(s)..])
  {
    hide WideSpace;
    var k := |s| - TrailingSpace(s);
    var e := s[k..];
    assert forall i :: 0 <= i < |e| ==> e[i] == s[k + i];
  }

  lemma LeadingOf(e: Str, rest: Str)
    requires IsSpace(e)
    ensures LeadingSpace(e + rest) == |e| && (e + rest)[|e|..] == rest
  {
  }

  lemma TrailingOf(front: Str, e: Str)
    requires IsSpace(e)
    ensures TrailingSpace(front + e) == |e| && (front + e)[..|front|] == front
  {
    var s := front + e;
    assert s[|s| - 1] == e[|e| - 1] && (|e| > 1 ==> s[|s| - 2] == e[|e| - 2]) && (|e| > 2 ==> s[|s| - 3] == e[|e| - 3]);
  }

  lemma {:induction false} TrimStartSplits(s: Str)
    ensures |TrimStart(s)| <= |s| && s[|s| - |TrimStart(s)|..] == TrimStart(s) && White(s[..|s| - |TrimStart(s)|])
    decreases |s|
  {
    var n := LeadingSpace(s);
    LeadingIsSpace(s);
    NothingIsWhite();
    hide White, LeadingSpace, IsWhite, Encoded, IsSpace;
    if n > 0 {
      var c := Decoded(s[..n]);
      TrimStartSplits(s[n..]);
      var k := |s| - |TrimStart(s)|;
      WhiteCons(c, s[n..][..k - n]);
      assert s[..k] == s[..n] + s[n..][..k - n];
      assert s[k..] == s[n..][k - n..];
    } else {
      assert s[..0] == [];
    }
  }

  lemma {:induction false} TrimEndSplits(s: Str)
    ensures TrimEnd(s) <= s && White(s[|TrimEnd(s)|..])
    decreases |s|
  {
    var n := TrailingSpace(s);
    TrailingIsSpace(s);
    NothingIsWhite();
    hide White, TrailingSpace, IsWhite, Encoded, IsSpace;
    if n > 0 {
      var c := Decoded(s[|s| - n..]);
      var rest := s[..|s| - n];
      TrimEndSplits(rest);
      var k := |TrimEnd(rest)|;
      WhiteCons(c, rest[k..]);
      assert s[k..] == rest[k..] + s[|s| - n..];
    } else {
      assert s[|s|..] == [];
    }
  }

  predicate StartsVisible(s: Str) {
    s == [] || s[0] == BACKTICK || s[0] == TILDE
  }

  lemma VisibleStays(s: Str)
    ensures StartsVisible(s) ==> LeadingSpace(s) == 0
    ensures s == [] || s[|s| - 1] == BACKTICK || s[|s| - 1] == TILDE ==> TrailingSpace(s) == 0
  {
  }

  // White space in front of a visible byte goes, and so does white space
  // behind one.
  lemma {:induction false} TrimStartStops(text: string, rest: Str)
    requires AllWhite(text) && StartsVisible(rest)
    ensures TrimStart(Utf8(text) + rest) == rest
    decreases |text|
  {
    hide Encoded, IsWhite, Utf8, LeadingSpace, IsSpace;
    VisibleStays(rest);
    if text == "" {
      NothingEncoded();
      assert [] + rest == rest;
    } else {
      var (e, later) := (Encoded(text[0]), Utf8(text[1..]) + rest);
      EncodedWhite(text[0]);
      Utf8One(text[0]);
      Utf8Concat([text[0]], text[1..]);
      assert text == [text[0]] + text[1..];
      assert Utf8(text) + rest == e + later;
      LeadingOf(e, later);
      TrimStartStops(text[1..], rest);
    }
  }

  lemma NothingEncoded()
    ensures Utf8("") == []
  {
  }

  lemma {:induction false} TrimEndStops(front: Str, text: string)
    requires AllWhite(text) && (front == [] || front[|front| - 1] == BACKTICK || front[|front| - 1] == TILDE)
    ensures TrimEnd(front + Utf8(text)) == front
    decreases |text|
  {
    hide Encoded, IsWhite, Utf8, TrailingSpace, IsSpace;
    VisibleStays(front);
    if text == "" {
      NothingEncoded();
      assert front + [] == front;
    } else {
      var n := |text| - 1;
      var (e, before) := (Encoded(text[n]), front + Utf8(text[..n]));
      EncodedWhite(text[n]);
      Utf8One(text[n]);
      Utf8Concat(text[..n], [text[n]]);
      assert text == text[..n] + [text[n]];
      assert front + Utf8(text) == before + e;
      TrailingOf(before, e);
      TrimEndStops(front, text[..n]);
    }
  }

  // ── Fences ─────────────────────────────────────────────────────────────

  // Backticks or tildes at `k`, three at least and all that stand there.
  ghost predicate FenceAt(line: Str, k: nat, f: Fence) {
    && (f.marker == 0x60 || f.marker == 0x7e) && f.length >= 3 && k + f.length <= |line|
    && (forall i :: k <= i < k + f.length ==> line[i] == f.marker)
    && (k + f.length < |line| ==> line[k + f.length] != f.marker)
  }

  // The line opens a block: behind white space it starts with such a run.
  ghost predicate Opens(line: Str, f: Fence) {
    exists k: nat :: k <= |line| && White(line[..k]) && FenceAt(line, k, f)
  }

  // The line closes the block: between white space it is the marker alone, at
  // least as often.
  ghost predicate Closes(line: Str, f: Fence) {
    exists i: nat, j: nat :: IsBar(line, i, j, f) && White(line[..i]) && White(line[j..])
  }

  ghost predicate IsBar(line: Str, i: nat, j: nat, f: Fence) {
    i < j <= |line| && j - i >= f.length && forall k :: i <= k < j ==> line[k] == f.marker
  }

  // What a line is trimmed to behind its white space is unique once it starts
  // with something visible.
  lemma TrimStartIs(line: Str, k: nat)
    requires k <= |line| && White(line[..k]) && StartsVisible(line[k..])
    ensures TrimStart(line) == line[k..]
  {
    var text: string :| AllWhite(text) && Utf8(text) == line[..k];
    TrimStartStops(text, line[k..]);
    assert line == line[..k] + line[k..];
  }

  lemma OpensFenceIff(line: Str, f: Fence)
    ensures OpensFence(line) == Some(f) <==> Opens(line, f)
    ensures OpensFence(line).Some? ==> Opens(line, OpensFence(line).value)
  {
    hide White, TrimStart, RunLength;
    var t := TrimStart(line);
    TrimStartSplits(line);
    if OpensFence(line).Some? {
      var (k, g) := (|line| - |t|, OpensFence(line).value);
      RunLengthIsMaximal(t, 0, g.marker);
      assert forall i :: k <= i < k + g.length ==> line[i] == t[i - k];
      assert FenceAt(line, k, g);
    }
    if Opens(line, f) {
      var k: nat :| k <= |line| && White(line[..k]) && FenceAt(line, k, f);
      TrimStartIs(line, k);
      RunLengthIsMaximal(t, 0, f.marker);
      assert t == line[k..];
      RunIsUnique(t, f.marker, RunLength(t, 0, f.marker), f.length);
    }
  }

  lemma RunIsUnique(s: Str, marker: Byte, m: nat, n: nat)
    requires m <= |s| && (forall i :: 0 <= i < m ==> s[i] == marker) && (m < |s| ==> s[m] != marker)
    requires n <= |s| && (forall i :: 0 <= i < n ==> s[i] == marker) && (n < |s| ==> s[n] != marker)
    ensures m == n
  {
  }

  lemma ClosesFenceIff(line: Str, f: Fence)
    requires f.marker == BACKTICK || f.marker == TILDE
    ensures ClosesFence(line, f) <==> Closes(line, f)
  {
    hide White, TrimStart, TrimEnd;
    var s := TrimStart(line);
    var t := TrimEnd(s);
    TrimStartSplits(line);
    TrimEndSplits(s);
    if ClosesFence(line, f) {
      var i: nat := |line| - |s|;
      var j: nat := i + |t|;
      assert forall k :: i <= k < j ==> line[k] == s[k - i] == t[k - i];
      assert line[j..] == s[|t|..];
      assert IsBar(line, i, j, f);
    }
    if Closes(line, f) {
      var i: nat, j: nat :| IsBar(line, i, j, f) && White(line[..i]) && White(line[j..]);
      TrimStartIs(line, i);
      BarIsTrimmed(line, i, j, f);
    }
  }

  lemma BarIsTrimmed(line: Str, i: nat, j: nat, f: Fence)
    requires (f.marker == BACKTICK || f.marker == TILDE) && IsBar(line, i, j, f) && White(line[j..])
    ensures TrimEnd(line[i..]) == line[i..j]
  {
    var text: string :| AllWhite(text) && Utf8(text) == line[j..];
    assert line[i..] == line[i..j] + line[j..];
    TrimEndStops(line[i..j], text);
  }
}
