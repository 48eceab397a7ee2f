// Rewriting one link target and parsing again: only that target changes.
module LinkRewrite {
  import opened Wrappers
  import opened Bytes
  import opened LinkScanner
  import opened LinkTargets

  // `s` with the `len` bytes at `at` replaced by `fill`.
  function Splice(s: Str, at: nat, len: nat, fill: Str): Str
    requires at + len <= |s|
  {
    s[..at] + fill + s[at + len..]
  }

  function Shift(links: seq<Link>, d: int): seq<Link> {
    seq(|links|, i requires 0 <= i < |links| => links[i].(start := links[i].start + d, end := links[i].end + d))
  }

  // The links after occurrence `k` got the target `t`: nothing else changes
  // but the spans behind it.
  function Rewritten(links: seq<Link>, k: nat, t: Str): seq<Link>
    requires k < |links|
  {
    var d := |t| - |links[k].target|;
    links[..k] + [links[k].(target := t, end := links[k].end + d)] + Shift(links[k + 1..], d)
  }

  // ── Finding a byte ─────────────────────────────────────────────────────

  lemma {:induction false} FindConcat(a: Str, r: Str, b: Byte)
    requires b !in a
    ensures Find(a + r, b) == |a| + Find(r, b)
  {
    if a == [] {
      assert a + r == r;
    } else {
      assert (a + r)[1..] == a[1..] + r;
      FindConcat(a[1..], r, b);
    }
  }

  lemma {:induction false} FindIsFirst(s: Str, b: Byte)
    ensures b !in s[..Find(s, b)] && (Find(s, b) < |s| ==> s[Find(s, b)] == b)
  {
    if s != [] && s[0] != b {
      FindIsFirst(s[1..], b);
      assert s[..Find(s, b)] == [s[0]] + s[1..][..Find(s[1..], b)];
    }
  }

  lemma SplitOnceConcat(a: Str, r: Str, b: Byte)
    requires b !in a
    ensures SplitOnce(a + r, b) == (a + SplitOnce(r, b).0, SplitOnce(r, b).1)
  {
    FindConcat(a, r, b);
    var i := Find(r, b);
    assert (a + r)[..|a| + i] == a + r[..i];
    if i < |r| {
      assert (a + r)[|a| + i + 1..] == r[i + 1..];
    }
  }

  // ── One pair of brackets ───────────────────────────────────────────────

  // The target is what the content starts with, up to the first separator.
  lemma TargetIsPrefix(content: Str, line: nat, occurrence: nat)
    requires LinkFrom(content, line, occurrence).Some?
    ensures var t := LinkFrom(content, line, occurrence).value.target;
            t <= content && PIPE !in t && HASH !in t
  {
    FindIsFirst(content, PIPE);
    var left := SplitOnce(content, PIPE).0;
    FindIsFirst(left, HASH);
    var t := SplitOnce(left, HASH).0;
    assert t == content[..|t|];
  }

  // Another spellable target in the same content is read back as written.
  lemma ContentRewritten(content: Str, line: nat, occurrence: nat, t: Str)
    requires LinkFrom(content, line, occurrence).Some? && Spellable(t)
    ensures var link := LinkFrom(content, line, occurrence).value;
            && link.target <= content
            && LinkFrom(t + content[|link.target|..], line, occurrence) == Some(link.(target := t))
  {
    TargetIsPrefix(content, line, occurrence);
    var old' := LinkFrom(content, line, occurrence).value.target;
    var rest := content[|old'|..];
    assert content == old' + rest;
    SplitOnceConcat(old', rest, PIPE);
    SplitOnceConcat(t, rest, PIPE);
    var left := SplitOnce(rest, PIPE).0;
    SplitOnceConcat(old', left, HASH);
    SplitOnceConcat(t, left, HASH);
    var more := SplitOnce(left, HASH).0;
    assert old' + more == old';
    assert more == [];
    assert t + more == t;
  }

  // ── The scanner reads locally ──────────────────────────────────────────

  lemma {:induction false} FindCloseSkip(s: Str, a: nat, b: nat)
    requires a <= b && FindClose(s, a).Some? && b <= FindClose(s, a).value
    ensures FindClose(s, b) == FindClose(s, a)
    decreases b - a
  {
    if a < b {
      FindCloseSkip(s, a + 1, b);
    }
  }

  lemma {:induction false} FindCloseThrough(s: Str, a: nat, b: nat)
    requires a <= b && b + 1 < |s|
    requires forall k :: a <= k < b ==> s[k] != OPENER && s[k] != CLOSER
    ensures FindClose(s, a) == FindClose(s, b)
    decreases b - a
  {
    if a < b {
      FindCloseThrough(s, a + 1, b);
    }
  }

  // Equal suffixes close at the same distance from their end.
  lemma {:induction false} FindCloseSuffix(s: Str, a: nat, s': Str, a': nat)
    requires a <= |s| && a' <= |s'| && s[a..] == s'[a'..]
    ensures FindClose(s, a).Some? <==> FindClose(s', a').Some?
    ensures FindClose(s, a).Some? ==> FindClose(s', a').value - a' == FindClose(s, a).value - a
    decreases |s| - a
  {
    assert |s| - a == |s'| - a';
    assert forall k :: 0 <= k < |s| - a ==> s[a + k] == s[a..][k] == s'[a'..][k] == s'[a' + k];
    if a + 1 < |s| && s[a + 0] != OPENER && !ClosesAt(s, a) {
      assert s[a + 1..] == s[a..][1..] == s'[a' + 1..];
      FindCloseSuffix(s, a + 1, s', a' + 1);
    }
  }

  // Both strings have a `[[` at `o`, and agree up to it.
  ghost predicate SameUpTo(s: Str, s': Str, o: nat) {
    o + 2 <= |s| && o + 2 <= |s'| && s[..o + 2] == s'[..o + 2] && s[o] == OPENER && s[o + 1] == OPENER
  }

  lemma SameByte(s: Str, s': Str, o: nat, i: nat)
    requires SameUpTo(s, s', o) && i < o + 2
    ensures s[i] == s'[i]
  {
    assert s[i] == s[..o + 2][i] == s'[..o + 2][i];
  }

  lemma {:induction false} FindCloseLocal(s: Str, s': Str, o: nat, from: nat)
    requires SameUpTo(s, s', o) && from <= o + 1
    ensures FindClose(s, from) == FindClose(s', from)
    ensures FindClose(s, from).Some? ==> FindClose(s, from).value + 2 <= o
    decreases o + 1 - from
  {
    SameByte(s, s', o, from);
    if from < o {
      SameByte(s, s', o, from + 1);
      FindCloseLocal(s, s', o, from + 1);
    }
  }

  lemma {:induction false} RunLengthLocal(s: Str, s': Str, o: nat, i: nat, marker: Byte)
    requires SameUpTo(s, s', o) && i <= o && marker != OPENER
    ensures RunLength(s, i, marker) == RunLength(s', i, marker)
    ensures i + RunLength(s, i, marker) <= o
    decreases o - i
  {
    SameByte(s, s', o, i);
    if i < o {
      RunLengthLocal(s, s', o, i + 1, marker);
    }
  }

  lemma {:induction false} BackslashesLocal(s: Str, s': Str, o: nat, i: nat)
    requires SameUpTo(s, s', o) && i <= o
    ensures Backslashes(s, i) == Backslashes(s', i)
  {
    if i > 0 {
      SameByte(s, s', o, i - 1);
      BackslashesLocal(s, s', o, i - 1);
    }
  }

  // A turn of the scan before the `[[` cannot see past it.
  lemma TurnLocal(s: Str, s': Str, o: nat, i: nat, code: Option<nat>)
    requires SameUpTo(s, s', o) && i < o
    ensures ScanTurn(s, i, code) == ScanTurn(s', i, code)
    ensures ScanTurn(s, i, code).next <= o
  {
    hide RunLength, FindClose, Backslashes;
    SameByte(s, s', o, i);
    SameByte(s, s', o, i + 1);
    RunLengthLocal(s, s', o, i, BACKTICK);
    BackslashesLocal(s, s', o, i);
    FindCloseLocal(s, s', o, if i + 2 <= o + 1 then i + 2 else o + 1);
  }

  // ── Behind the rewritten pair the scanner sees the same bytes ──────────

  // Both scans stand before the same bytes, equally escaped.
  ghost predicate SameFrom(s: Str, i: nat, s': Str, i': nat) {
    i <= |s| && i' <= |s'| && s[i..] == s'[i'..] && Backslashes(s, i) == Backslashes(s', i')
  }

  lemma SuffixByte(s: Str, i: nat, s': Str, i': nat, k: nat)
    requires i <= |s| && i' <= |s'| && s[i..] == s'[i'..] && k < |s| - i
    ensures |s| - i == |s'| - i' && s[i + k] == s'[i' + k]
  {
    assert |s[i..]| == |s'[i'..]|;
    assert s[i..][k] == s'[i'..][k];
  }

  lemma SuffixDrop(s: Str, i: nat, s': Str, i': nat, k: nat)
    requires i <= |s| && i' <= |s'| && s[i..] == s'[i'..] && k <= |s| - i
    ensures |s| - i == |s'| - i' && s[i + k..] == s'[i' + k..]
  {
    assert |s[i..]| == |s'[i'..]|;
    assert s[i + k..] == s[i..][k..] && s'[i' + k..] == s'[i'..][k..];
  }

  lemma {:induction false} RunLengthSuffix(s: Str, i: nat, s': Str, i': nat, marker: Byte)
    requires i <= |s| && i' <= |s'| && s[i..] == s'[i'..]
    ensures RunLength(s, i, marker) == RunLength(s', i', marker)
    decreases |s| - i
  {
    assert |s[i..]| == |s'[i'..]|;
    if i < |s| {
      SuffixByte(s, i, s', i', 0);
      SuffixDrop(s, i, s', i', 1);
      RunLengthSuffix(s, i + 1, s', i' + 1, marker);
    }
  }

  lemma TurnSuffix(s: Str, i: nat, s': Str, i': nat, code: Option<nat>)
    requires SameFrom(s, i, s', i') && i < |s|
    ensures i' < |s'|
    ensures var (t, t') := (ScanTurn(s, i, code), ScanTurn(s', i', code));
            && t'.next - i' == t.next - i && t'.code == t.code
            && (t'.accepted.Some? <==> t.accepted.Some?)
            && (t.accepted.Some? ==> t'.accepted.value.close - i' == t.accepted.value.close - i)
  {
    hide RunLength, FindClose, Backslashes;
    SuffixByte(s, i, s', i', 0);
    RunLengthSuffix(s, i, s', i', BACKTICK);
    if i + 1 < |s| {
      SuffixByte(s, i, s', i', 1);
      SuffixDrop(s, i, s', i', 2);
      FindCloseSuffix(s, i + 2, s', i' + 2);
    }
  }

  // The turn leaves both scans before the same bytes again.
  lemma TurnKeepsSame(s: Str, i: nat, s': Str, i': nat, code: Option<nat>)
    requires SameFrom(s, i, s', i') && i < |s|
    ensures i' < |s'| && SameFrom(s, ScanTurn(s, i, code).next, s', ScanTurn(s', i', code).next)
  {
    TurnSuffix(s, i, s', i', code);
    var k := ScanTurn(s, i, code).next - i;
    SuffixDrop(s, i, s', i', k);
    SuffixByte(s, i, s', i', k - 1);
    LastByteOfTurn(s, i, code);
    LastByteOfTurn(s', i', code);
    BackslashStep(s, i + k);
    BackslashStep(s', i' + k);
  }

  lemma BackslashStep(s: Str, i: nat)
    requires 0 < i <= |s|
    ensures Backslashes(s, i) == if s[i - 1] == BACKSLASH then 1 + Backslashes(s, i - 1) else 0
  {
  }

  // A turn of more than one byte does not end in a backslash.
  lemma LastByteOfTurn(s: Str, i: nat, code: Option<nat>)
    requires i < |s|
    ensures var t := ScanTurn(s, i, code); t.next == i + 1 || s[t.next - 1] != BACKSLASH
  {
    var t := ScanTurn(s, i, code);
    if s[i] == BACKTICK {
      RunLengthIsMaximal(s, i, BACKTICK);
    } else if t.accepted.Some? {
      FindCloseIff(s, i + 2, t.accepted.value.close);
    }
  }

  ghost predicate ShiftedSpans(a: seq<Span>, b: seq<Span>, d: int) {
    |a| == |b| && forall k :: 0 <= k < |a| ==> b[k].open == a[k].open + d && b[k].close == a[k].close + d
  }

  lemma NoSpansLeft(s: Str, code: Option<nat>)
    ensures Spans(s, |s|, code) == []
  {
  }

  lemma ShiftedConcat(a: seq<Span>, b: seq<Span>, a': seq<Span>, b': seq<Span>, d: int)
    ensures ShiftedSpans(a, a', d) && ShiftedSpans(b, b', d) ==> ShiftedSpans(a + b, a' + b', d)
  {
  }

  lemma {:induction false} SpansSuffix(s: Str, i: nat, s': Str, i': nat, code: Option<nat>)
    requires SameFrom(s, i, s', i')
    ensures ShiftedSpans(Spans(s, i, code), Spans(s', i', code), i' - i)
    decreases |s| - i
  {
    hide Spans, ScanTurn, Backslashes, IsPair;
    assert |s[i..]| == |s'[i'..]|;
    if i == |s| {
      NoSpansLeft(s, code);
      NoSpansLeft(s', code);
    } else {
      TurnSuffix(s, i, s', i', code);
      TurnKeepsSame(s, i, s', i', code);
      var (t, t') := (ScanTurn(s, i, code), ScanTurn(s', i', code));
      SpansSuffix(s, t.next, s', t'.next, t.code);
      SpansTurn(s, i, code);
      SpansTurn(s', i', code);
      ShiftedConcat(Accepted(t), Spans(s, t.next, t.code), Accepted(t'), Spans(s', t'.next, t.code), i' - i);
    }
  }

  // ── The pairs of a rewritten line ──────────────────────────────────────

  // `s'` is `s` with other content in the pair opened at `o`, which now
  // closes at `c'` instead of `c`.
  ghost predicate PairRewritten(s: Str, s': Str, o: nat, c: nat, c': nat) {
    && SameUpTo(s, s', o)
    && FindClose(s, o + 2) == Some(c) && FindClose(s', o + 2) == Some(c')
    && s[c..] == s'[c'..]
  }

  // Pair `m` of `a` moved its end by `d`; the later ones moved whole.
  ghost predicate SpansRewritten(a: seq<Span>, b: seq<Span>, m: nat, d: int) {
    && m < |a| && |a| == |b| && a[..m] == b[..m]
    && b[m].open == a[m].open && b[m].close == a[m].close + d
    && ShiftedSpans(a[m + 1..], b[m + 1..], d)
  }

  lemma BehindPair(s: Str, s': Str, o: nat, c: nat, c': nat)
    requires PairRewritten(s, s', o, c, c')
    ensures SameFrom(s, c + 2, s', c' + 2)
  {
    SuffixDrop(s, c, s', c', 2);
    FindCloseIff(s, o + 2, c);
    FindCloseIff(s', o + 2, c');
    BackslashStep(s, c + 2);
    BackslashStep(s', c' + 2);
  }

  lemma RewrittenBehind(pre: seq<Span>, a: seq<Span>, b: seq<Span>, m: nat, d: int)
    requires SpansRewritten(a, b, m, d)
    ensures SpansRewritten(pre + a, pre + b, |pre| + m, d)
  {
    assert (pre + a)[..|pre| + m] == pre + a[..m] && (pre + b)[..|pre| + m] == pre + b[..m];
    assert (pre + a)[|pre| + m + 1..] == a[m + 1..] && (pre + b)[|pre| + m + 1..] == b[m + 1..];
  }

  lemma PairInRange(s: Str, s': Str, o: nat, c: nat, c': nat)
    requires PairRewritten(s, s', o, c, c')
    ensures o + 2 <= |s| && o + 2 <= |s'|
  {
  }

  lemma TurnBeforePair(s: Str, s': Str, o: nat, c: nat, c': nat, i: nat, code: Option<nat>)
    requires PairRewritten(s, s', o, c, c') && i < o
    ensures i < |s| && i < |s'| && ScanTurn(s, i, code) == ScanTurn(s', i, code)
    ensures ScanTurn(s, i, code).next <= o
  {
    hide ScanTurn, FindClose;
    TurnLocal(s, s', o, i, code);
  }

  lemma {:induction false} RewrittenPairs(s: Str, s': Str, i: nat, code: Option<nat>, m: nat, c': nat)
    requires i <= |s| && m < |Spans(s, i, code)|
    requires PairRewritten(s, s', Spans(s, i, code)[m].open, Spans(s, i, code)[m].close, c')
    ensures i <= |s'|
    ensures SpansRewritten(Spans(s, i, code), Spans(s', i, code), m, c' - Spans(s, i, code)[m].close)
    decreases |s| - i
  {
    hide Spans, ScanTurn, IsPair, SpansRewritten, PairRewritten;
    var (o, c) := (Spans(s, i, code)[m].open, Spans(s, i, code)[m].close);
    PairInRange(s, s', o, c, c');
    if i == o {
      OpensHere(s, s', i, code, m, c');
    } else {
      TurnBeforePair(s, s', o, c, c', i, code);
      var t := ScanTurn(s, i, code);
      var skip := |Accepted(t)|;
      SpansTurn(s, i, code);
      SpansTurn(s', i, code);
      assert m >= skip;
      RewrittenPairs(s, s', t.next, t.code, m - skip, c');
      RewrittenBehind(Accepted(t), Spans(s, t.next, t.code), Spans(s', t.next, t.code), m - skip, c' - c);
    }
  }

  // The scan has reached the pair: this turn accepts it.
  lemma TurnAtPair(s: Str, i: nat, code: Option<nat>, m: nat)
    requires i < |s| && m < |Spans(s, i, code)| && Spans(s, i, code)[m].open == i
    ensures m == 0 && code.None? && s[i] != BACKTICK && OpensAt(s, i)
    ensures var c := Spans(s, i, code)[0].close;
            FindClose(s, i + 2) == Some(c) && Spans(s, i, code) == [Span(i, c)] + Spans(s, c + 2, None)
  {
    hide FindClose, Backslashes, RunLength;
    var t := ScanTurn(s, i, code);
    SpansTurn(s, i, code);
    var rest := Spans(s, t.next, t.code);
  }

  lemma FirstRewritten(x: Span, y: Span, a: seq<Span>, b: seq<Span>, d: int)
    requires y.open == x.open && y.close == x.close + d && ShiftedSpans(a, b, d)
    ensures SpansRewritten([x] + a, [y] + b, 0, d)
  {
    assert ([x] + a)[1..] == a && ([y] + b)[1..] == b;
  }

  lemma OpensHere(s: Str, s': Str, i: nat, code: Option<nat>, m: nat, c': nat)
    requires i < |s| && m < |Spans(s, i, code)| && Spans(s, i, code)[m].open == i
    requires PairRewritten(s, s', i, Spans(s, i, code)[m].close, c')
    ensures i < |s'| && m == 0
    ensures SpansRewritten(Spans(s, i, code), Spans(s', i, code), 0, c' - Spans(s, i, code)[0].close)
  {
    hide *;
    TurnAtPair(s, i, code, m);
    var c := Spans(s, i, code)[0].close;
    SpansBehind(s, s', i, c, c');
    SpansFromPair(s, s', i, c, c');
    FirstRewritten(Span(i, c), Span(i, c'), Spans(s, c + 2, None), Spans(s', c' + 2, None), c' - c);
  }

  // Behind the pair both scans find the same pairs.
  lemma SpansBehind(s: Str, s': Str, i: nat, c: nat, c': nat)
    requires PairRewritten(s, s', i, c, c')
    ensures c + 2 <= |s| && c' + 2 <= |s'|
    ensures ShiftedSpans(Spans(s, c + 2, None), Spans(s', c' + 2, None), c' - c)
  {
    hide Spans, IsPair, ScanTurn, FindClose, SameFrom, ShiftedSpans;
    BehindPair(s, s', i, c, c');
    hide PairRewritten;
    SpansSuffix(s, c + 2, s', c' + 2, None);
  }

  // The turn at the pair in the rewritten line.
  lemma SpansFromPair(s: Str, s': Str, i: nat, c: nat, c': nat)
    requires PairRewritten(s, s', i, c, c') && OpensAt(s, i)
    ensures i < |s'| && c' + 2 <= |s'| && Spans(s', i, None) == [Span(i, c')] + Spans(s', c' + 2, None)
  {
    hide Spans, ScanTurn, OpensAt, FindClose, IsPair;
    AcceptsToo(s, s', i, c, c');
    hide PairRewritten;
    SpansTurn(s', i, None);
  }

  lemma AcceptsToo(s: Str, s': Str, i: nat, c: nat, c': nat)
    requires PairRewritten(s, s', i, c, c') && OpensAt(s, i)
    ensures i < |s'| && ScanTurn(s', i, None) == Turn(c' + 2, None, Some(Span(i, c')))
  {
    hide FindClose, Backslashes, RunLength;
    SameByte(s, s', i, i);
    SameByte(s, s', i, i + 1);
    BackslashesLocal(s, s', i, i);
  }

  // ── The links of a rewritten line ──────────────────────────────────────

  ghost predicate AllPairs(s: Str, spans: seq<Span>) {
    forall k :: 0 <= k < |spans| ==> IsPair(s, spans[k])
  }

  function Content(s: Str, p: Span): Str
    requires IsPair(s, p)
  {
    s[p.open + 2..p.close]
  }

  lemma LinksOfHead(s: Str, spans: seq<Span>, number: nat, offset: nat, next: nat)
    requires AllPairs(s, spans) && spans != []
    ensures var first := LinkAt(s, spans[0], number, offset, next);
            LinksOf(s, spans, number, offset, next) == first + LinksOf(s, spans[1..], number, offset, next + |first|)
  {
    hide LinkAt, IsPair;
  }

  lemma NoLinksOf(s: Str, spans: seq<Span>, number: nat, offset: nat, next: nat)
    ensures spans == [] ==> LinksOf(s, spans, number, offset, next) == []
  {
  }

  lemma {:induction false} LinksOfConcat(s: Str, a: seq<Span>, b: seq<Span>, number: nat, offset: nat, next: nat)
    requires AllPairs(s, a) && AllPairs(s, b)
    ensures var first := LinksOf(s, a, number, offset, next);
            LinksOf(s, a + b, number, offset, next) == first + LinksOf(s, b, number, offset, next + |first|)
  {
    hide LinkAt, IsPair, LinksOf;
    if a == [] {
      assert a + b == b;
      NoLinksOf(s, a, number, offset, next);
    } else {
      var first := LinkAt(s, a[0], number, offset, next);
      LinksOfHead(s, a, number, offset, next);
      LinksOfHead(s, a + b, number, offset, next);
      assert (a + b)[1..] == a[1..] + b;
      LinksOfConcat(s, a[1..], b, number, offset, next + |first|);
    }
  }

  // The pair occurrence `k` came from, and the links around it.
  lemma {:induction false} PairOfLink(s: Str, spans: seq<Span>, number: nat, offset: nat, next: nat, k: nat) returns (m: nat)
    requires AllPairs(s, spans) && k < |LinksOf(s, spans, number, offset, next)|
    ensures m < |spans|
    ensures var links := LinksOf(s, spans, number, offset, next);
            && LinksOf(s, spans[..m], number, offset, next) == links[..k]
            && LinkAt(s, spans[m], number, offset, next + k) == [links[k]]
            && LinksOf(s, spans[m + 1..], number, offset, next + k + 1) == links[k + 1..]
  {
    hide LinkAt, IsPair, LinksOf;
    if spans == [] {
      NoLinksOf(s, spans, number, offset, next);
    }
    LinksOfHead(s, spans, number, offset, next);
    var links := LinksOf(s, spans, number, offset, next);
    var first := LinkAt(s, spans[0], number, offset, next);
    if k < |first| {
      m := 0;
      NoLinksOf(s, spans[..0], number, offset, next);
      assert first == [links[0]];
    } else {
      var m' := PairOfLink(s, spans[1..], number, offset, next + |first|, k - |first|);
      m := m' + 1;
      BehindHead(spans, m');
      LinksOfHead(s, spans[..m], number, offset, next);
    }
  }

  lemma BehindHead<T>(xs: seq<T>, n: nat)
    requires n + 1 < |xs|
    ensures xs[..n + 1][1..] == xs[1..][..n] && xs[..n + 1][0] == xs[0] && xs[1..][n] == xs[n + 1]
    ensures xs[1..][n + 1..] == xs[n + 2..]
  {
  }

  lemma LinkAtMoved(s: Str, p: Span, s': Str, p': Span, number: nat, offset: nat, next: nat, d: int)
    requires IsPair(s, p) && IsPair(s', p') && Content(s, p) == Content(s', p')
    requires p'.open == p.open + d && p'.close == p.close + d
    ensures LinkAt(s', p', number, offset, next) == Shift(LinkAt(s, p, number, offset, next), d)
  {
    hide IsPair, LinkFrom;
  }

  // The same contents elsewhere are the same links, moved.
  lemma {:induction false} LinksOfMoved(s: Str, spans: seq<Span>, s': Str, spans': seq<Span>, number: nat, offset: nat, next: nat, d: int)
    requires AllPairs(s, spans) && AllPairs(s', spans') && ShiftedSpans(spans, spans', d)
    requires forall k :: 0 <= k < |spans| ==> Content(s, spans[k]) == Content(s', spans'[k])
    ensures LinksOf(s', spans', number, offset, next) == Shift(LinksOf(s, spans, number, offset, next), d)
  {
    hide LinkAt, IsPair, LinksOf, Content;
    if spans == [] {
      NoLinksOf(s, spans, number, offset, next);
      NoLinksOf(s', spans', number, offset, next);
    } else {
      LinksOfHead(s, spans, number, offset, next);
      LinksOfHead(s', spans', number, offset, next);
      var first := LinkAt(s, spans[0], number, offset, next);
      LinkAtMoved(s, spans[0], s', spans'[0], number, offset, next, d);
      LinksOfMoved(s, spans[1..], s', spans'[1..], number, offset, next + |first|, d);
      ShiftConcat(first, LinksOf(s, spans[1..], number, offset, next + |first|), d);
    }
  }

  lemma ShiftConcat(a: seq<Link>, b: seq<Link>, d: int)
    ensures Shift(a + b, d) == Shift(a, d) + Shift(b, d)
  {
  }

  lemma ShiftByNothing(a: seq<Link>)
    ensures Shift(a, 0) == a
  {
  }

  lemma SpliceParts(s: Str, at: nat, len: nat, t: Str)
    requires at + len <= |s|
    ensures var s' := Splice(s, at, len, t);
            && |s'| == |s| + |t| - len
            && s'[..at] == s[..at] && s'[at + |t|..] == s[at + len..]
            && forall k :: at <= k < at + |t| ==> s'[k] == t[k - at]
  {
  }

  lemma SpellableBytes(t: Str)
    ensures Spellable(t) ==> PIPE !in t && HASH !in t && LF !in t && OPENER !in t && CLOSER !in t
    ensures Spellable(t) ==> t != [] && |t| <= MAX_LINK_TARGET_BYTES
  {
  }

  // Replacing the target inside the pair opened at `o` leaves it a pair.
  lemma SplicedPair(s: Str, o: nat, c: nat, len: nat, t: Str)
    requires o + 2 <= |s| && s[o] == OPENER && s[o + 1] == OPENER
    requires FindClose(s, o + 2) == Some(c) && o + 2 + len <= c && Spellable(t)
    ensures PairRewritten(s, Splice(s, o + 2, len, t), o, c, c + |t| - len)
  {
    hide FindClose, Splice, Spellable;
    var (at, s') := (o + 2, Splice(s, o + 2, len, t));
    SpliceParts(s, at, len, t);
    SpellableBytes(t);
    FindCloseSkip(s, at, at + len);
    FindCloseSuffix(s, at + len, s', at + |t|);
    FindCloseThrough(s', at, at + |t|);
    SuffixDrop(s, at + len, s', at + |t|, c - at - len);
  }

  // The contents of pairs before the rewritten one are untouched, and so are
  // those of the pairs behind it.
  lemma OtherContents(s: Str, s': Str, o: nat, c: nat, c': nat, p: Span, p': Span)
    requires PairRewritten(s, s', o, c, c') && IsPair(s, p) && IsPair(s', p')
    requires (p' == p && p.close + 2 <= o)
             || (c + 2 <= p.open && p'.open == p.open + c' - c && p'.close == p.close + c' - c)
    ensures Content(s, p) == Content(s', p')
  {
    hide FindClose, IsEscaped;
    if p' == p && p.close + 2 <= o {
      assert s[p.open + 2..p.close] == s[..o + 2][p.open + 2..p.close];
      assert s'[p.open + 2..p.close] == s'[..o + 2][p.open + 2..p.close];
    } else {
      var k := p.open + 2 - c;
      SuffixDrop(s, c, s', c', k);
      assert s[p.open + 2..][..p.close - p.open - 2] == s[p.open + 2..p.close];
      assert s'[p'.open + 2..][..p'.close - p'.open - 2] == s'[p'.open + 2..p'.close];
    }
  }

  lemma PairsOfSpans(s: Str, i: nat, code: Option<nat>)
    requires i <= |s|
    ensures AllPairs(s, Spans(s, i, code)) && Disjoint(Spans(s, i, code))
  {
    SpansAreDisjoint(s, i, code);
  }

  // The link in the rewritten pair.
  lemma RewrittenLink(s: Str, p: Span, number: nat, offset: nat, next: nat, t: Str)
    requires IsPair(s, p) && LinkAt(s, p, number, offset, next) != [] && Spellable(t)
    ensures var link := LinkAt(s, p, number, offset, next)[0];
            var d := |t| - |link.target|;
            && link.start == offset + p.open && p.open + 2 + |link.target| <= p.close
            && var s' := Splice(s, p.open + 2, |link.target|, t);
               var p' := Span(p.open, p.close + d);
               && PairRewritten(s, s', p.open, p.close, p'.close)
               && (IsPair(s', p') ==> LinkAt(s', p', number, offset, next) == [link.(target := t, end := link.end + d)])
  {
    hide LinkFrom, IsPair, PairRewritten, FindClose, Spellable, LinkAt, Splice, Content;
    TargetWithinPair(s, p, number, offset, next);
    var len := |LinkAt(s, p, number, offset, next)[0].target|;
    PairBounds(s, p);
    SplicedPair(s, p.open, p.close, len, t);
    if IsPair(Splice(s, p.open + 2, len, t), Span(p.open, p.close + |t| - len)) {
      LinkInSplicedPair(s, p, number, offset, next, t);
    }
  }

  lemma TargetWithinPair(s: Str, p: Span, number: nat, offset: nat, next: nat)
    requires IsPair(s, p) && LinkAt(s, p, number, offset, next) != []
    ensures var link := LinkAt(s, p, number, offset, next)[0];
            && link.start == offset + p.open && link.end == offset + p.close + 2
            && p.open + 2 + |link.target| <= p.close <= |s|
  {
    LinkAtContent(s, p, number, offset, next);
    TargetIsPrefix(Content(s, p), number, next);
    PairBounds(s, p);
  }

  lemma LinkInSplicedPair(s: Str, p: Span, number: nat, offset: nat, next: nat, t: Str)
    requires IsPair(s, p) && LinkAt(s, p, number, offset, next) != [] && Spellable(t)
    requires var len := |LinkAt(s, p, number, offset, next)[0].target|;
             && p.open + 2 + len <= p.close <= |s|
             && IsPair(Splice(s, p.open + 2, len, t), Span(p.open, p.close + |t| - len))
    ensures var link := LinkAt(s, p, number, offset, next)[0];
            var d := |t| - |link.target|;
            LinkAt(Splice(s, p.open + 2, |link.target|, t), Span(p.open, p.close + d), number, offset, next)
            == [link.(target := t, end := link.end + d)]
  {
    hide LinkFrom, IsPair, Spellable, LinkAt, Splice, Content;
    LinkAtContent(s, p, number, offset, next);
    ContentRewritten(Content(s, p), number, next, t);
    var len := |LinkAt(s, p, number, offset, next)[0].target|;
    ContentSpliced(s, p, len, t);
    LinkAtContent(Splice(s, p.open + 2, len, t), Span(p.open, p.close + |t| - len), number, offset, next);
  }

  lemma ContentSpliced(s: Str, p: Span, len: nat, t: Str)
    requires IsPair(s, p) && p.open + 2 + len <= p.close && p.close + |t| - len >= 0
    requires IsPair(Splice(s, p.open + 2, len, t), Span(p.open, p.close + |t| - len))
    ensures Content(Splice(s, p.open + 2, len, t), Span(p.open, p.close + |t| - len)) == t + Content(s, p)[len..]
  {
    PairBounds(s, p);
  }

  lemma LinkAtContent(s: Str, p: Span, number: nat, offset: nat, next: nat)
    requires IsPair(s, p)
    ensures LinkAt(s, p, number, offset, next)
         == match LinkFrom(Content(s, p), number, next)
            case Some(link) => [link.(start := offset + p.open, end := offset + p.close + 2)]
            case None => []
  {
  }

  // ── A rewritten line ───────────────────────────────────────────────────

  lemma LineRewritten(s: Str, number: nat, offset: nat, next: nat, k: nat, t: Str)
    requires k < |LineLinks(s, number, offset, next)| && Spellable(t)
    ensures var links := LineLinks(s, number, offset, next);
            var (at, len) := (links[k].start - offset + 2, |links[k].target|);
            && 0 <= at && at + len + 2 <= |s|
            && 2 <= at && s[at - 2] == OPENER && s[at - 1] == OPENER
            && LineLinks(Splice(s, at, len, t), number, offset, next) == Rewritten(links, k, t)
  {
    hide Spans, IsPair, LinkAt, LinksOf, PairRewritten, SpansRewritten, Splice, Spellable, Shift, Content;
    var spans := Spans(s, 0, None);
    var links := LineLinks(s, number, offset, next);
    PairsOfSpans(s, 0, None);
    var m := PairOfLink(s, spans, number, offset, next, k);
    RewrittenLink(s, spans[m], number, offset, next + k, t);
    PairBounds(s, spans[m]);
    var s' := Splice(s, spans[m].open + 2, |links[k].target|, t);
    var d := |t| - |links[k].target|;
    RewrittenPairs(s, s', 0, None, m, spans[m].close + d);
    var spans' := Spans(s', 0, None);
    PairsOfSpans(s', 0, None);
    RewrittenSpanParts(spans, spans', m, d);
    LinksBefore(s, s', spans, spans', m, d, number, offset, next);
    LinksBehind(s, s', spans, spans', m, d, number, offset, next + k + 1);
    LinksOfConcat(s', spans'[..m], spans'[m..], number, offset, next);
    LinksOfHead(s', spans'[m..], number, offset, next + k);
    assert spans'[..m] + spans'[m..] == spans' && spans'[m..][1..] == spans'[m + 1..];
  }

  lemma PairBounds(s: Str, p: Span)
    requires IsPair(s, p)
    ensures p.open + 2 <= p.close && p.close + 2 <= |s| && s[p.open] == OPENER && s[p.open + 1] == OPENER
    ensures FindClose(s, p.open + 2) == Some(p.close)
  {
  }

  lemma RewrittenSpanParts(a: seq<Span>, b: seq<Span>, m: nat, d: int)
    requires SpansRewritten(a, b, m, d)
    ensures m < |a| && m < |b| && a[..m] == b[..m] && ShiftedSpans(a[m + 1..], b[m + 1..], d)
    ensures a[m].close + d >= 0 && b[m] == Span(a[m].open, a[m].close + d)
  {
  }

  lemma LinksBefore(s: Str, s': Str, spans: seq<Span>, spans': seq<Span>, m: nat, d: int, number: nat, offset: nat, next: nat)
    requires AllPairs(s, spans) && AllPairs(s', spans') && Disjoint(spans)
    requires m < |spans| && m < |spans'| && spans[..m] == spans'[..m] && spans[m].close + d >= 0
    requires PairRewritten(s, s', spans[m].open, spans[m].close, spans[m].close + d)
    ensures LinksOf(s', spans'[..m], number, offset, next) == LinksOf(s, spans[..m], number, offset, next)
  {
    hide IsPair, LinksOf, PairRewritten, Content;
    forall j | 0 <= j < m
      ensures Content(s, spans[..m][j]) == Content(s', spans'[..m][j])
    {
      assert spans[..m][j] == spans[j] && spans'[..m][j] == spans'[j];
      OtherContents(s, s', spans[m].open, spans[m].close, spans[m].close + d, spans[j], spans'[j]);
    }
    LinksOfMoved(s, spans[..m], s', spans'[..m], number, offset, next, 0);
    ShiftByNothing(LinksOf(s, spans[..m], number, offset, next));
  }

  lemma LinksBehind(s: Str, s': Str, spans: seq<Span>, spans': seq<Span>, m: nat, d: int, number: nat, offset: nat, next: nat)
    requires AllPairs(s, spans) && AllPairs(s', spans') && Disjoint(spans)
    requires m < |spans| && m < |spans'| && ShiftedSpans(spans[m + 1..], spans'[m + 1..], d) && spans[m].close + d >= 0
    requires PairRewritten(s, s', spans[m].open, spans[m].close, spans[m].close + d)
    ensures LinksOf(s', spans'[m + 1..], number, offset, next)
         == Shift(LinksOf(s, spans[m + 1..], number, offset, next), d)
  {
    hide IsPair, LinksOf, PairRewritten, Content;
    var (a, b) := (spans[m + 1..], spans'[m + 1..]);
    forall j | 0 <= j < |a|
      ensures Content(s, a[j]) == Content(s', b[j])
    {
      assert a[j] == spans[m + 1 + j] && b[j] == spans'[m + 1 + j];
      OtherContents(s, s', spans[m].open, spans[m].close, spans[m].close + d, a[j], b[j]);
    }
    LinksOfMoved(s, a, s', b, number, offset, next, d);
  }

  // ── A rewritten body ───────────────────────────────────────────────────

  // A line that holds a `[[` at `o` opens a fence or not whatever follows it.
  lemma {:induction false} TrimStartLocal(s: Str, s': Str, o: nat) returns (o': nat)
    requires SameUpTo(s, s', o)
    ensures SameUpTo(TrimStart(s), TrimStart(s'), o')
    decreases |s|
  {
    LeadingSpaceLocal(s, s', o);
    hide LeadingSpace;
    var n := LeadingSpace(s);
    if n == 0 {
      o' := o;
    } else {
      assert s[n..][..o - n + 2] == s[..o + 2][n..] && s'[n..][..o - n + 2] == s'[..o + 2][n..];
      o' := TrimStartLocal(s[n..], s'[n..], o - n);
    }
  }

  lemma LeadingSpaceLocal(s: Str, s': Str, o: nat)
    requires SameUpTo(s, s', o)
    ensures LeadingSpace(s) == LeadingSpace(s') <= o
  {
    SameByte(s, s', o, 0);
    SameByte(s, s', o, 1);
    if o >= 1 { SameByte(s, s', o, 2); }
  }

  lemma OpensFenceLocal(s: Str, s': Str, o: nat)
    requires SameUpTo(s, s', o)
    ensures OpensFence(s) == OpensFence(s')
  {
    hide TrimStart, RunLength;
    var o' := TrimStartLocal(s, s', o);
    var (u, u') := (TrimStart(s), TrimStart(s'));
    SameByte(u, u', o', 0);
    if u[0] == BACKTICK || u[0] == TILDE {
      RunLengthLocal(u, u', o', 0, u[0]);
    }
  }

  // The first line of a body and where the next one starts.
  lemma FirstLineOf(line: Str, eol: Str, rest: Str)
    requires line + eol + rest != [] && LF !in line
    requires eol == [LF] || eol == [CR, LF] || (rest == [] && (eol == [] || eol == [CR]))
    requires eol == [LF] || eol == [] ==> line == [] || line[|line| - 1] != CR
    ensures var body := line + eol + rest;
            && ChunkLen(body) == |line| + |eol| && FirstLine(body) == line
            && body[ChunkLen(body)..] == rest
  {
    var body := line + eol + rest;
    assert body == line + (eol + rest);
    FindConcat(line, eol + rest, LF);
    assert ChunkLen(body) == |line| + |eol|;
    assert body[..|line| + |eol|] == line + eol;
    StripEol(line, eol);
  }

  lemma StripEol(line: Str, eol: Str)
    requires eol == [] || eol == [LF] || eol == [CR, LF] || eol == [CR]
    requires LF !in line && (eol == [LF] || eol == [] ==> line == [] || line[|line| - 1] != CR)
    ensures StripLast(StripLast(line + eol, LF), CR) == line
  {
    if eol == [] {
      assert line + eol == line;
    } else if eol == [CR, LF] {
      assert (line + eol)[..|line| + 1] == line + [CR];
      assert (line + [CR])[..|line|] == line;
    } else {
      assert (line + eol)[..|line|] == line;
    }
  }

  lemma StripLastParts(s: Str, b: Byte)
    ensures var r := StripLast(s, b);
            && s == r + s[|r|..]
            && (s[|r|..] == [b] || (s[|r|..] == [] && (r == [] || r[|r| - 1] != b)))
  {
  }

  // The first chunk without its line feed holds no line feed.
  lemma RawLine(body: Str)
    requires body != []
    ensures LF !in StripLast(body[..ChunkLen(body)], LF)
    ensures StripLast(body[..ChunkLen(body)], LF) == body[..ChunkLen(body)] ==> ChunkLen(body) == |body|
  {
    FindIsFirst(body, LF);
    var i := Find(body, LF);
    hide Find;
    if i < |body| {
      assert body[..i + 1][..i] == body[..i];
    } else {
      assert body[..i] == body;
      assert LF !in body;
      assert body[|body| - 1] in body;
    }
  }

  // Every non-empty body splits that way.
  lemma SplitBody(body: Str) returns (eol: Str)
    requires body != []
    ensures var (line, rest) := (FirstLine(body), body[ChunkLen(body)..]);
            && body == line + eol + rest && LF !in line
            && (eol == [LF] || eol == [CR, LF] || (rest == [] && (eol == [] || eol == [CR])))
            && (eol == [LF] || eol == [] ==> line == [] || line[|line| - 1] != CR)
  {
    var chunk := body[..ChunkLen(body)];
    var raw := StripLast(chunk, LF);
    var line := StripLast(raw, CR);
    StripLastParts(chunk, LF);
    StripLastParts(raw, CR);
    RawLine(body);
    hide ChunkLen, StripLast;
    eol := raw[|line|..] + chunk[|raw|..];
    assert chunk == line + eol;
    assert body == chunk + body[ChunkLen(body)..];
  }

  // The first line of a body with bytes inside that line replaced.
  lemma FirstLineSpliced(body: Str, at: nat, len: nat, t: Str)
    requires body != [] && at + len < |FirstLine(body)| && LF !in t
    ensures at + len <= |body|
    ensures var body' := Splice(body, at, len, t);
            && body' != [] && FirstLine(body') == Splice(FirstLine(body), at, len, t)
            && ChunkLen(body') == ChunkLen(body) + |t| - len
            && body'[ChunkLen(body')..] == body[ChunkLen(body)..]
  {
    hide ChunkLen, FirstLine;
    var eol := SplitBody(body);
    var (line, rest) := (FirstLine(body), body[ChunkLen(body)..]);
    var line' := Splice(line, at, len, t);
    SpliceParts(line, at, len, t);
    assert Splice(body, at, len, t) == line' + eol + rest;
    assert line'[|line'| - 1] == line'[at + |t|..][|line| - at - len - 1] == line[|line| - 1];
    assert LF !in line';
    FirstLineOf(line', eol, rest);
    FirstLineOf(line, eol, rest);
  }

  // Parsing from another offset moves every span.
  lemma {:induction false} LinksFromOffset(body: Str, fence: Option<Fence>, number: nat, offset: nat, offset': nat, next: nat)
    ensures LinksFrom(body, fence, number, offset', next) == Shift(LinksFrom(body, fence, number, offset, next), offset' - offset)
    decreases |body|
  {
    hide LineTurn, ChunkLen, FirstLine;
    if body != [] {
      var n := ChunkLen(body);
      var line := FirstLine(body);
      LineTurnOffset(line, fence, number, offset, offset', next);
      var (fence', found) := LineTurn(line, fence, number, offset, next);
      LinksFromOffset(body[n..], fence', number + 1, offset + n, offset' + n, next + |found|);
      ShiftConcat(found, LinksFrom(body[n..], fence', number + 1, offset + n, next + |found|), offset' - offset);
    }
  }

  lemma LineTurnOffset(line: Str, fence: Option<Fence>, number: nat, offset: nat, offset': nat, next: nat)
    ensures LineTurn(line, fence, number, offset', next)
         == (LineTurn(line, fence, number, offset, next).0, Shift(LineTurn(line, fence, number, offset, next).1, offset' - offset))
  {
    hide OpensFence, ClosesFence, Spans, LinksOf;
    PairsOfSpans(line, 0, None);
    assert Shift([], offset' - offset) == [];
    LinksOfOffset(line, Spans(line, 0, None), number, offset, offset', next);
  }

  lemma {:induction false} LinksOfOffset(s: Str, spans: seq<Span>, number: nat, offset: nat, offset': nat, next: nat)
    requires AllPairs(s, spans)
    ensures LinksOf(s, spans, number, offset', next) == Shift(LinksOf(s, spans, number, offset, next), offset' - offset)
  {
    hide LinkFrom, IsPair, LinksOf;
    if spans == [] {
      NoLinksOf(s, spans, number, offset, next);
      NoLinksOf(s, spans, number, offset', next);
    } else {
      var first := LinkAt(s, spans[0], number, offset, next);
      LinksOfHead(s, spans, number, offset, next);
      LinksOfHead(s, spans, number, offset', next);
      LinksOfOffset(s, spans[1..], number, offset, offset', next + |first|);
      ShiftConcat(first, LinksOf(s, spans[1..], number, offset, next + |first|), offset' - offset);
    }
  }

  lemma RewrittenConcat(a: seq<Link>, b: seq<Link>, k: nat, t: Str)
    requires k < |a| + |b|
    ensures Rewritten(a + b, k, t) == if k < |a| then Rewritten(a, k, t) + Shift(b, |t| - |a[k].target|)
                                      else a + Rewritten(b, k - |a|, t)
  {
    if k < |a| {
      assert (a + b)[k + 1..] == a[k + 1..] + b;
      ShiftConcat(a[k + 1..], b, |t| - |a[k].target|);
      assert (a + b)[..k] == a[..k];
    } else {
      assert (a + b)[..k] == a + b[..k - |a|];
      assert (a + b)[k + 1..] == b[k - |a| + 1..];
    }
  }

  // A line's turn when the target in question is one of its own links.
  lemma TurnRewritten(line: Str, fence: Option<Fence>, number: nat, offset: nat, next: nat, k: nat, t: Str)
    requires k < |LineTurn(line, fence, number, offset, next).1| && Spellable(t)
    ensures var (fence', found) := LineTurn(line, fence, number, offset, next);
            var (at, len) := (found[k].start - offset + 2, |found[k].target|);
            && 2 <= at && at + len + 2 <= |line|
            && LineTurn(Splice(line, at, len, t), fence, number, offset, next) == (fence', Rewritten(found, k, t))
  {
    var found := LineTurn(line, fence, number, offset, next).1;
    var (at, len) := (found[k].start - offset + 2, |found[k].target|);
    LinesOwnLinks(line, fence, number, offset, next);
    hide OpensFence, Rewritten, Spellable, LineLinks, Splice, SameUpTo, ClosesFence, LinkFrom, FindClose;
    LineRewritten(line, number, offset, next, k, t);
    SplicedSameUpTo(line, at, len, t);
    OpensFenceLocal(line, Splice(line, at, len, t), at - 2);
  }

  // A line with links of its own opens no fence and is in none.
  lemma LinesOwnLinks(line: Str, fence: Option<Fence>, number: nat, offset: nat, next: nat)
    ensures LineTurn(line, fence, number, offset, next).1 != [] ==>
              fence.None? && OpensFence(line).None? && LineTurn(line, fence, number, offset, next) == (None, LineLinks(line, number, offset, next))
  {
    hide OpensFence, LineLinks;
  }

  lemma SplicedSameUpTo(s: Str, at: nat, len: nat, t: Str)
    requires 2 <= at && at + len <= |s| && s[at - 2] == OPENER && s[at - 1] == OPENER
    ensures SameUpTo(s, Splice(s, at, len, t), at - 2)
  {
    assert Splice(s, at, len, t)[..at] == s[..at];
  }

  // Bytes behind the first line are no part of it.
  lemma FirstLineKept(body: Str, rest': Str)
    requires body != [] && body[ChunkLen(body)..] != []
    ensures var body' := body[..ChunkLen(body)] + rest';
            ChunkLen(body') == ChunkLen(body) && FirstLine(body') == FirstLine(body) && body'[ChunkLen(body)..] == rest'
  {
    hide ChunkLen, FirstLine;
    var eol := SplitBody(body);
    var (line, rest) := (FirstLine(body), body[ChunkLen(body)..]);
    FirstLineOf(line, eol, rest);
    FirstLineOf(line, eol, rest');
    assert body[..ChunkLen(body)] == line + eol;
  }

  lemma LinksFromStep(body: Str, fence: Option<Fence>, number: nat, offset: nat, next: nat)
    requires body != []
    ensures var n := ChunkLen(body);
            var (fence', found) := LineTurn(FirstLine(body), fence, number, offset, next);
            LinksFrom(body, fence, number, offset, next)
            == found + LinksFrom(body[n..], fence', number + 1, offset + n, next + |found|)
  {
    hide LineTurn, ChunkLen, FirstLine;
  }

  lemma {:induction false} BodyRewritten(body: Str, fence: Option<Fence>, number: nat, offset: nat, next: nat, k: nat, t: Str)
    requires k < |LinksFrom(body, fence, number, offset, next)| && Spellable(t)
    ensures var links := LinksFrom(body, fence, number, offset, next);
            var (at, len) := (links[k].start - offset + 2, |links[k].target|);
            && 2 <= at && at + len + 2 <= |body|
            && LinksFrom(Splice(body, at, len, t), fence, number, offset, next) == Rewritten(links, k, t)
    decreases |body|
  {
    hide LineTurn, ChunkLen, FirstLine, LinksFrom, Rewritten, Spellable, Splice;
    if body == [] {
      NoLinksAtEnd(body, fence, number, offset, next);
    }
    var (n, line) := (ChunkLen(body), FirstLine(body));
    LinksFromStep(body, fence, number, offset, next);
    var (fence', found) := LineTurn(line, fence, number, offset, next);
    var later := LinksFrom(body[n..], fence', number + 1, offset + n, next + |found|);
    RewrittenConcat(found, later, k, t);
    if k < |found| {
      var (at, len) := (found[k].start - offset + 2, |found[k].target|);
      TurnRewritten(line, fence, number, offset, next, k, t);
      RewrittenLength(found, k, t);
      SpellableBytes(t);
      FirstLineSpliced(body, at, len, t);
      LinksFromStep(Splice(body, at, len, t), fence, number, offset, next);
      LinksFromOffset(body[n..], fence', number + 1, offset + n, offset + n + |t| - len, next + |found|);
    } else {
      var rest := body[n..];
      BodyRewritten(rest, fence', number + 1, offset + n, next + |found|, k - |found|, t);
      var (at, len) := (later[k - |found|].start - (offset + n) + 2, |later[k - |found|].target|);
      SpliceBehind(body, n, at, len, t);
      FirstLineKept(body, Splice(rest, at, len, t));
      LinksFromStep(Splice(body, n + at, len, t), fence, number, offset, next);
    }
  }

  lemma RewrittenLength(links: seq<Link>, k: nat, t: Str)
    requires k < |links|
    ensures |Rewritten(links, k, t)| == |links|
  {
  }

  lemma SpliceBehind(s: Str, n: nat, at: nat, len: nat, t: Str)
    requires n <= |s| && at + len <= |s[n..]|
    ensures Splice(s, n + at, len, t) == s[..n] + Splice(s[n..], at, len, t)
  {
    assert s[n..][..at] == s[n..n + at];
    assert s[..n + at] == s[..n] + s[n..n + at];
    assert s[n + at + len..] == s[n..][at + len..];
  }

  // ── What an occurrence says about the text ─────────────────────────────

  // `link`, read from `s` where position `offset` is its first byte, is the
  // content of the brackets its span names.
  ghost predicate Describes(s: Str, offset: nat, link: Link) {
    var (o, e) := (link.start - offset, link.end - offset);
    && 0 <= o && o + 4 <= e <= |s|
    && s[o] == OPENER && s[o + 1] == OPENER && s[e - 2] == CLOSER && s[e - 1] == CLOSER
    && LinkFrom(s[o + 2..e - 2], link.line, link.occurrence) == Some(link.(start := 0, end := 0))
  }

  lemma LineLinkAt(s: Str, number: nat, offset: nat, next: nat, k: nat)
    requires k < |LineLinks(s, number, offset, next)|
    ensures var link := LineLinks(s, number, offset, next)[k];
            Describes(s, offset, link) && link.line == number && link.occurrence == next + k
  {
    hide Spans, LinksOf, IsPair, LinkAt, Describes;
    var spans := Spans(s, 0, None);
    PairsOfSpans(s, 0, None);
    var m := PairOfLink(s, spans, number, offset, next, k);
    PairDescribes(s, spans[m], number, offset, next + k);
  }

  lemma PairDescribes(s: Str, p: Span, number: nat, offset: nat, next: nat)
    requires IsPair(s, p) && LinkAt(s, p, number, offset, next) != []
    ensures var link := LinkAt(s, p, number, offset, next)[0];
            Describes(s, offset, link) && link.line == number && link.occurrence == next
  {
    PairCloses(s, p);
    hide IsPair;
    LinkKeepsPlace(s[p.open + 2..p.close], number, next);
    hide LinkFrom;
  }

  lemma PairCloses(s: Str, p: Span)
    requires IsPair(s, p)
    ensures p.open + 2 <= p.close && ClosesAt(s, p.close) && s[p.open] == OPENER && s[p.open + 1] == OPENER
  {
    FindCloseIff(s, p.open + 2, p.close);
  }

  lemma LinkKeepsPlace(content: Str, line: nat, occurrence: nat)
    requires LinkFrom(content, line, occurrence).Some?
    ensures var link := LinkFrom(content, line, occurrence).value;
            link.line == line && link.occurrence == occurrence && link.start == 0 && link.end == 0
  {
  }

  lemma SliceOfSlice(s: Str, i: nat, j: nat, k: nat, l: nat)
    requires i <= j <= |s| && k <= l <= j - i
    ensures s[i..j][k..l] == s[i + k..i + l]
  {
    var (a, b) := (s[i..j][k..l], s[i + k..i + l]);
    forall m | 0 <= m < l - k
      ensures a[m] == b[m]
    {
      assert a[m] == s[i..j][k + m];
    }
  }

  lemma DescribesWhole(s: Str, offset: nat, whole: Str, at: nat, link: Link)
    requires Describes(s, offset, link) && at <= offset && at + |s| <= |whole| && whole[at..at + |s|] == s
    ensures Describes(whole, offset - at, link)
  {
    var (o, e) := (link.start - offset, link.end - offset);
    hide LinkFrom;
    var part := whole[at..at + |s|];
    assert part[o] == whole[at + o] && part[o + 1] == whole[at + o + 1];
    assert part[e - 2] == whole[at + e - 2] && part[e - 1] == whole[at + e - 1];
    SliceOfSlice(whole, at, at + |s|, o + 2, e - 2);
  }

  lemma {:induction false} BodyLinkAt(body: Str, fence: Option<Fence>, number: nat, offset: nat, next: nat, k: nat)
    requires k < |LinksFrom(body, fence, number, offset, next)|
    ensures var link := LinksFrom(body, fence, number, offset, next)[k];
            Describes(body, offset, link) && link.line >= number && link.occurrence == next + k
    decreases |body|
  {
    hide LineLinks, ChunkLen, FirstLine, LinksFrom, Describes;
    if body == [] {
      NoLinksAtEnd(body, fence, number, offset, next);
    }
    var (n, line) := (ChunkLen(body), FirstLine(body));
    LinksFromStep(body, fence, number, offset, next);
    var (fence', found) := LineTurn(line, fence, number, offset, next);
    if k < |found| {
      LineLinkAt(line, number, offset, next, k);
      assert body[0..0 + |line|] == line;
      DescribesWhole(line, offset, body, 0, found[k]);
    } else {
      BodyLinkAt(body[n..], fence', number + 1, offset + n, next + |found|, k - |found|);
      var later := LinksFrom(body[n..], fence', number + 1, offset + n, next + |found|);
      DescribesWhole(body[n..], offset + n, body, n, later[k - |found|]);
    }
  }

  // Occurrence `k` is numbered `k`, and its span is the pair of brackets whose
  // content it was read from.
  lemma OccurrenceIsWhereItSays(body: Str, k: nat)
    requires k < |Parsed(body)|
    ensures Parsed(body)[k].occurrence == k && Describes(body, 0, Parsed(body)[k])
  {
    BodyLinkAt(body, None, 1, 0, 0, k);
  }

  // ── Rewriting commutes with parsing ────────────────────────────────────

  // Give occurrence `k` another spellable target and parse again: the links,
  // their lines, numbers, aliases and fragments are the same, target `k` is
  // the new one, and the spans behind it have moved by the difference.
  lemma RewritingCommutesWithParsing(body: Str, k: nat, t: Str)
    requires k < |Parsed(body)| && Spellable(t)
    ensures var link := Parsed(body)[k];
            && 0 <= link.start && link.start + 2 + |link.target| <= |body|
            && Parsed(Splice(body, link.start + 2, |link.target|, t)) == Rewritten(Parsed(body), k, t)
  {
    hide LinksFrom, Splice, Spellable, Rewritten, Shift;
    BodyRewritten(body, None, 1, 0, 0, k, t);
    var all := AllLinks(body);
    RewrittenLength(all, k, t);
    if |all| > MAX_LINK_OCCURRENCES {
      var kept := all[..MAX_LINK_OCCURRENCES];
      assert all == kept + all[MAX_LINK_OCCURRENCES..];
      RewrittenConcat(kept, all[MAX_LINK_OCCURRENCES..], k, t);
      RewrittenLength(kept, k, t);
    }
  }

  // So a rename that `retarget` can spell rewrites exactly one mention.
  lemma RetargetedMentionParses(body: Str, k: nat, newPath: Str)
    requires k < |Parsed(body)| && Retarget(Parsed(body)[k].target, newPath).Some?
    ensures var link := Parsed(body)[k];
            var t := Retarget(link.target, newPath).value;
            && 0 <= link.start && link.start + 2 + |link.target| <= |body|
            && Parsed(Splice(body, link.start + 2, |link.target|, t)) == Rewritten(Parsed(body), k, t)
  {
    RewritingCommutesWithParsing(body, k, Retarget(Parsed(body)[k].target, newPath).value);
  }
}
