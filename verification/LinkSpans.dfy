// Which pairs of brackets on a line are mentions, said of the bytes: those in
// no code span, not escaped, and closed (crates/gpty-core/src/links.rs,
// `scan_line`).
module LinkSpans {
  import opened Wrappers
  import opened Bytes
  import opened LinkScanner
  import opened LinkRewrite

  // ── What a code span and a mention are ─────────────────────────────────

  // All the backticks side by side at `j`.
  ghost predicate TickRun(line: Str, j: nat, n: nat) {
    && n >= 1 && j + n <= |line| && (forall k :: j <= k < j + n ==> line[k] == 0x60)
    && (j > 0 ==> line[j - 1] != 0x60) && (j + n < |line| ==> line[j + n] != 0x60)
  }

  // Position `i` is in a code span that `n` backticks opened.
  ghost predicate InCode(line: Str, i: nat, n: nat)
    decreases i, 1
  {
    exists j: nat :: CodeFrom(line, i, n, j)
  }

  // The span is opened by the run at `j`, itself in no span and no mention,
  // and no run of that length has closed it since.
  ghost predicate CodeFrom(line: Str, i: nat, n: nat, j: nat)
    decreases i, 0
  {
    && TickRun(line, j, n) && j + n <= i && Free(line, j)
    && forall k: nat :: j + n <= k && k + n <= i ==> !TickRun(line, k, n)
  }

  // Position `j` is in no code span and inside no mention.
  ghost predicate Free(line: Str, j: nat)
    decreases j, 2
  {
    && (forall n: nat :: !InCode(line, j, n))
    && forall o: nat, c: nat :: o < j && Pair(line, o, c) ==> c + 2 <= j
  }

  // An odd number of backslashes stands directly before `o`.
  ghost predicate Escaped(line: Str, o: nat)
    requires o <= |line|
  {
    exists n: nat :: OddRun(line, o, n)
  }

  ghost predicate OddRun(line: Str, o: nat, n: nat)
    requires o <= |line|
  {
    && n % 2 == 1 && n <= o && (forall k :: o - n <= k < o ==> line[k] == 0x5c)
    && (n < o ==> line[o - n - 1] != 0x5c)
  }

  // `[[` at `o` and `]]` at `c` are a pair: neither in code nor in another
  // pair nor escaped, with no `[` and no earlier `]]` between.
  ghost predicate Pair(line: Str, o: nat, c: nat)
    decreases o, 3
  {
    && o + 2 <= c && c + 2 <= |line|
    && line[o] == 0x5b && line[o + 1] == 0x5b && line[c] == 0x5d && line[c + 1] == 0x5d
    && (forall k :: o + 2 <= k < c ==> line[k] != 0x5b && !(line[k] == 0x5d && line[k + 1] == 0x5d))
    && !Escaped(line, o) && Free(line, o)
  }

  // ── Single bytes ───────────────────────────────────────────────────────

  lemma EscapedIff(line: Str, o: nat)
    requires o <= |line|
    ensures IsEscaped(line, o) <==> Escaped(line, o)
  {
    BackslashesIsMaximal(line, o);
    var m := Backslashes(line, o);
    if IsEscaped(line, o) {
      assert OddRun(line, o, m);
    }
    if Escaped(line, o) {
      var n: nat :| OddRun(line, o, n);
      assert m == n;
    }
  }

  // An unused pair of brackets at a free position is what the scanner opens.
  lemma OpensIff(line: Str, o: nat, c: nat)
    requires Free(line, o) && o < |line|
    ensures Pair(line, o, c) <==> OpensAt(line, o) && FindClose(line, o + 2) == Some(c)
  {
    hide Free, FindClose, IsEscaped, Escaped;
    EscapedIff(line, o);
    FindCloseIff(line, o + 2, c);
  }

  lemma RunHere(line: Str, i: nat)
    requires i < |line| && line[i] == BACKTICK && (i > 0 ==> line[i - 1] != BACKTICK)
    ensures TickRun(line, i, RunLength(line, i, BACKTICK))
  {
    RunLengthIsMaximal(line, i, BACKTICK);
  }

  // Runs do not overlap.
  lemma RunsApart(line: Str, i: nat, r: nat, j: nat, n: nat)
    requires TickRun(line, i, r) && TickRun(line, j, n)
    ensures j + n <= i || i + r <= j || (j == i && n == r)
  {
  }

  lemma TicksInRun(line: Str, j: nat, n: nat, i: nat)
    ensures TickRun(line, j, n) && j <= i < j + n ==> i < |line| && line[i] == 0x60
  {
  }

  // ── The scan ───────────────────────────────────────────────────────────

  // The scan stands at `i` with the code span it is in.
  ghost predicate At(line: Str, i: nat, code: Option<nat>) {
    && i <= |line|
    && (forall n: nat :: InCode(line, i, n) <==> code == Some(n))
    && (forall o: nat, c: nat :: o < i && Pair(line, o, c) ==> c + 2 <= i)
    && (0 < i < |line| && line[i - 1] == 0x60 ==> line[i] != 0x60)
  }

  lemma AtIsFree(line: Str, i: nat, code: Option<nat>)
    requires At(line, i, code)
    ensures Free(line, i) <==> code.None?
  {
    hide InCode, Pair;
    if code.Some? {
      assert InCode(line, i, code.value);
    }
  }

  lemma StartsFree(line: Str)
    ensures At(line, 0, None)
  {
    assert forall n: nat, j: nat :: !CodeFrom(line, 0, n, j);
  }

  // A span stays open over a stretch that holds no run of its length.
  lemma CodeGoesOn(line: Str, i: nat, i': nat, n: nat)
    requires i <= i' && InCode(line, i, n) && forall k: nat :: k + n <= i' && TickRun(line, k, n) ==> k + n <= i
    ensures InCode(line, i', n)
  {
    hide Free, TickRun;
    var j: nat :| CodeFrom(line, i, n, j);
    assert CodeFrom(line, i', n, j);
  }

  // And a span that was opened before the stretch was open at its start.
  lemma CodeWasOpen(line: Str, i: nat, i': nat, n: nat, j: nat)
    requires i <= i'
    ensures CodeFrom(line, i', n, j) && j + n <= i ==> InCode(line, i, n)
  {
    hide Free, TickRun;
    assert CodeFrom(line, i', n, j) && j + n <= i ==> CodeFrom(line, i, n, j);
  }

  // Inside a pair nothing is free.
  lemma PairBlocks(line: Str, o: nat, c: nat, j: nat)
    ensures Pair(line, o, c) && o < j < c + 2 ==> !Free(line, j)
  {
  }

  // A byte that is no backtick and starts no pair.
  lemma PlainTurn(line: Str, i: nat, code: Option<nat>)
    requires At(line, i, code) && i < |line| && line[i] != 0x60 && (forall c: nat :: !Pair(line, i, c))
    ensures At(line, i + 1, code)
  {
    hide Pair, Free;
    forall n: nat ensures InCode(line, i + 1, n) <==> code == Some(n) {
      if InCode(line, i + 1, n) {
        var j: nat :| CodeFrom(line, i + 1, n, j);
        TicksInRun(line, j, n, i);
        CodeWasOpen(line, i, i + 1, n, j);
      }
      if InCode(line, i, n) {
        forall k: nat | TickRun(line, k, n) ensures k + n != i + 1 {
          TicksInRun(line, k, n, i);
        }
        CodeGoesOn(line, i, i + 1, n);
      }
    }
  }

  // A pair is skipped whole.
  lemma PairTurn(line: Str, i: nat, c: nat)
    requires At(line, i, None) && i < |line| && Pair(line, i, c)
    ensures At(line, c + 2, None)
    ensures forall o: nat, c': nat :: i < o < c + 2 ==> !Pair(line, o, c')
  {
    forall o: nat, c': nat | i < o < c + 2 ensures !Pair(line, o, c') {
      PairBlocks(line, i, c, o);
    }
    PairsCloseOnce(line, i, c);
    var next: nat := c + 2;
    forall n: nat, j: nat ensures !CodeFrom(line, next, n, j) {
      CodeWasOpen(line, i, next, n, j);
      TicksInRun(line, j, n, i);
      PairBlocks(line, i, c, j);
    }
    assert forall n: nat :: !InCode(line, next, n);
    assert forall o: nat, c': nat :: o < next && Pair(line, o, c') ==> c' + 2 <= next;
    assert line[c + 1] == 0x5d;
    hide Free, InCode, Pair;
  }

  lemma PairsCloseOnce(line: Str, o: nat, c: nat)
    ensures Pair(line, o, c) ==> forall c': nat :: Pair(line, o, c') ==> c' == c
  {
    hide Free, Escaped;
  }

  // A run of backticks opens a span, closes the one it is as long as, or
  // stands inside another.
  lemma TickTurn(line: Str, i: nat, code: Option<nat>, r: nat)
    requires At(line, i, code) && TickRun(line, i, r)
    ensures At(line, i + r, if code == Some(r) then None else if code.None? then Some(r) else code)
    ensures forall o: nat, c: nat :: i <= o < i + r ==> !Pair(line, o, c)
  {
    var after := if code == Some(r) then None else if code.None? then Some(r) else code;
    hide Pair;
    forall o: nat, c: nat | i <= o < i + r ensures !Pair(line, o, c) {
      TicksInRun(line, i, r, o);
      PairOpens(line, o, c);
    }
    AtIsFree(line, i, code);
    forall n: nat ensures InCode(line, i + r, n) <==> after == Some(n) {
      CodeAfterRun(line, i, code, r, n);
    }
  }

  lemma PairOpens(line: Str, o: nat, c: nat)
    ensures Pair(line, o, c) ==> o < |line| && line[o] == 0x5b
  {
  }

  lemma CodeAfterRun(line: Str, i: nat, code: Option<nat>, r: nat, n: nat)
    requires At(line, i, code) && TickRun(line, i, r) && (Free(line, i) <==> code.None?)
    ensures InCode(line, i + r, n) <==> (if code == Some(r) then false else if code.None? then n == r else code == Some(n))
  {
    hide Free, Pair;
    assert forall j: nat, m: nat :: TickRun(line, j, m) ==> j + m <= i || i + r <= j || (j == i && m == r) by {
      forall j: nat, m: nat | TickRun(line, j, m) ensures j + m <= i || i + r <= j || (j == i && m == r) {
        RunsApart(line, i, r, j, m);
      }
    }
    hide TickRun;
    if n != r {
      var next: nat := i + r;
      forall j: nat ensures CodeFrom(line, next, n, j) ==> InCode(line, i, n) {
        CodeWasOpen(line, i, next, n, j);
      }
      if InCode(line, i, n) {
        CodeGoesOn(line, i, i + r, n);
      }
    } else {
      OwnRun(line, i, code, r);
    }
  }

  // Spans of the length of the run itself.
  lemma OwnRun(line: Str, i: nat, code: Option<nat>, r: nat)
    requires At(line, i, code) && TickRun(line, i, r) && (Free(line, i) <==> code.None?)
    requires forall j: nat, m: nat :: TickRun(line, j, m) ==> j + m <= i || i + r <= j || (j == i && m == r)
    ensures InCode(line, i + r, r) <==> code.None?
  {
    hide Free, Pair;
    var next: nat := i + r;
    assert forall j: nat :: CodeFrom(line, next, r, j) ==> j == i;
    if code.None? {
      assert CodeFrom(line, i + r, r, i);
    }
  }

  // ── The pairs of a line ────────────────────────────────────────────────

  ghost predicate Found(spans: seq<Span>, o: nat, c: nat) {
    exists k :: 0 <= k < |spans| && spans[k] == Span(o, c)
  }

  lemma FoundConcat(a: seq<Span>, b: seq<Span>, o: nat, c: nat)
    ensures Found(a + b, o, c) <==> Found(a, o, c) || Found(b, o, c)
  {
    if k :| 0 <= k < |a| && a[k] == Span(o, c) {
      assert (a + b)[k] == Span(o, c);
    }
    if k :| 0 <= k < |b| && b[k] == Span(o, c) {
      assert (a + b)[|a| + k] == Span(o, c);
    }
  }

  // From wherever the scan stands it finds exactly the pairs from there on.
  lemma {:induction false} ScanFinds(line: Str, i: nat, code: Option<nat>)
    requires i <= |line| && At(line, i, code)
    ensures forall o: nat, c: nat :: Found(Spans(line, i, code), o, c) <==> i <= o && Pair(line, o, c)
    decreases |line| - i
  {
    hide At, Pair, Free, InCode, Spans, ScanTurn, Found, IsPair;
    AtWithin(line, i, code);
    if i == |line| {
      NoSpansLeft(line, code);
      NothingFound();
      forall o: nat, c: nat | i <= o ensures !Pair(line, o, c) {
        PairOpens(line, o, c);
      }
    } else {
      SpansTurn(line, i, code);
      TurnFinds(line, i, code);
      var t := ScanTurn(line, i, code);
      ScanFinds(line, t.next, t.code);
      forall o: nat, c: nat ensures Found(Spans(line, i, code), o, c) <==> i <= o && Pair(line, o, c) {
        FoundConcat(Accepted(t), Spans(line, t.next, t.code), o, c);
      }
    }
  }

  lemma NothingFound()
    ensures forall o: nat, c: nat :: !Found([], o, c)
  {
  }

  // One turn finds the pairs that start before the next.
  lemma TurnFinds(line: Str, i: nat, code: Option<nat>)
    requires At(line, i, code) && i < |line|
    ensures var t := ScanTurn(line, i, code);
            && At(line, t.next, t.code)
            && forall o: nat, c: nat :: Found(Accepted(t), o, c) <==> i <= o < t.next && Pair(line, o, c)
  {
    hide At, Pair, Free, RunLength, OpensAt, FindClose;
    AtIsFree(line, i, code);
    NothingFound();
    var t := ScanTurn(line, i, code);
    if line[i] == BACKTICK {
      AtBoundary(line, i, code);
      RunHere(line, i);
      TickTurn(line, i, code, RunLength(line, i, BACKTICK));
    } else if code.None? && OpensAt(line, i) {
      var close := FindClose(line, i + 2).value;
      OpensIff(line, i, close);
      PairTurn(line, i, close);
      PairsCloseOnce(line, i, close);
      OneFound(i, close);
    } else {
      forall c: nat ensures !Pair(line, i, c) {
        if code.None? {
          OpensIff(line, i, c);
        } else {
          PairIsFree(line, i, c);
        }
      }
      PlainTurn(line, i, code);
    }
  }

  lemma AtWithin(line: Str, i: nat, code: Option<nat>)
    ensures At(line, i, code) ==> i <= |line|
  {
  }

  lemma AtBoundary(line: Str, i: nat, code: Option<nat>)
    requires At(line, i, code) && i < |line| && line[i] == 0x60
    ensures i > 0 ==> line[i - 1] != 0x60
  {
  }

  lemma PairIsFree(line: Str, o: nat, c: nat)
    ensures Pair(line, o, c) ==> Free(line, o)
  {
  }

  lemma OneFound(o: nat, c: nat)
    ensures forall o': nat, c': nat :: Found([Span(o, c)], o', c') <==> o' == o && c' == c
  {
    assert [Span(o, c)][0] == Span(o, c);
  }

  // The scanner accepts exactly the pairs of the line.
  lemma SpansArePairs(line: Str, o: nat, c: nat)
    ensures Found(Spans(line, 0, None), o, c) <==> Pair(line, o, c)
  {
    StartsFree(line);
    hide At, Pair, Found;
    ScanFinds(line, 0, None);
  }
}
