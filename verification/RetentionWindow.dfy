// The retention window against the store's two caps: what a queue drop and a
// trim each delete, and how far the store can grow
// (crates/gpty-core/src/history.rs, `retention_window` and `enforce_cap`).
module RetentionWindow {
  import opened HistoryQueue
  import opened Retention
  import opened ScrollbackWriter
  import opened Utf8Text

  // ── The trim of ordered rows ───────────────────────────────────────────

  // One byte trim deletes one row at most.
  lemma OneRowByteTrim(rows: seq<Line>, byteCap: nat)
    requires Ascending(rows)
    ensures ByteTrim(rows, byteCap) == if byteCap > 0 && Chars(rows) > byteCap then rows[1..] else rows
    ensures Chars(rows) > 0 ==> rows != []
  {
    if byteCap > 0 && Chars(rows) > byteCap {
      ByteTrimDropsOldest(rows, byteCap);
      var oldest := Oldest(rows);
      assert rows[0] in rows;
      hide MinNum, ByteTrim;
      assert rows[0].num == oldest.num;
      assert rows == [rows[0]] + rows[1..];
      AfterKeepsAll(rows[1..], rows[0].num);
    }
  }

  ghost predicate Consecutive(rows: seq<Line>) {
    forall i :: 0 <= i < |rows| ==> rows[i].num == rows[0].num + i
  }

  lemma RowTrimOfRun(rows: seq<Line>, cap: nat)
    requires Consecutive(rows)
    ensures RowTrim(rows, cap) == if cap > 0 && |rows| > cap then rows[|rows| - cap..] else rows
  {
    if cap > 0 && rows != [] {
      hide MaxNum, After;
      LastIsNewest(rows);
      var last := rows[|rows| - 1];
      hide Consecutive;
      var k := AfterIsSuffix(rows, last.num - cap);
      var cut := if |rows| > cap then |rows| - cap else 0;
      assert rows[cut].num > last.num - cap && (cut > 0 ==> rows[cut - 1].num <= last.num - cap);
    }
  }

  lemma LastIsNewest(rows: seq<Line>)
    requires Consecutive(rows) && rows != []
    ensures MaxNum(rows) == rows[|rows| - 1].num && Ascending(rows)
    ensures forall i :: 0 <= i < |rows| ==> rows[i].num == rows[|rows| - 1].num - (|rows| - 1 - i)
  {
    hide MaxNum;
    var newest := Newest(rows);
    assert rows[|rows| - 1] in rows;
  }

  lemma TrimCut(rows: seq<Line>, caps: Caps)
    requires Ascending(rows)
    ensures var left := RowTrim(rows, caps.cap);
            var over := if caps.byteCap > 0 && Chars(left) > caps.byteCap then 1 else 0;
            && over <= |left| <= |rows|
            && Trimmed(rows, caps) == rows[|rows| - |left| + over..]
  {
    hide After, OverBudget, Chars, MinNum, MaxNum;
    var left := RowTrim(rows, caps.cap);
    if left != rows {
      var k := AfterIsSuffix(rows, MaxNum(rows) - caps.cap);
    }
    assert left == rows[|rows| - |left|..];
    OneRowByteTrim(left, caps.byteCap);
  }

  // ── What the queue drops ───────────────────────────────────────────────

  // The lines a push gives up are rows the next trim would delete, whatever
  // the store holds, if and only if the row cap leaves few enough: none of
  // them, or one when the store is over its byte cap and that one is its
  // oldest row.
  lemma DropsAreTrimmedIff(stored: seq<Line>, q: Queue, line: Line, caps: Caps)
    requires |q.lines| <= q.pending && !q.closed && Ascending(stored + (q.lines + [line]))
    ensures var all := q.lines + [line];
            var dropped := |all| - |Pushed(q, line, caps.WindowRows(), caps.byteCap).lines|;
            var left := RowTrim(stored + all, caps.cap);
            var over := if caps.byteCap > 0 && Chars(left) > caps.byteCap then 1 else 0;
            && 0 <= dropped <= |all|
            && ((forall i :: 0 <= i < dropped ==> all[i] !in Trimmed(stored + all, caps))
                <==> dropped == 0 || |left| + dropped <= |all| + over)
  {
    hide NewestFitting, RowTrim, ByteTrim, Chars, TextBytes;
    var all := q.lines + [line];
    var rows := stored + all;
    NewestFittingIsLongest(all, caps.WindowRows(), caps.byteCap);
    var dropped := |all| - |Pushed(q, line, caps.WindowRows(), caps.byteCap).lines|;
    TrimCut(rows, caps);
    var left := RowTrim(rows, caps.cap);
    var cut := |rows| - |Trimmed(rows, caps)|;
    forall i | 0 <= i < |all| ensures all[i] in Trimmed(rows, caps) <==> |stored| + i >= cut {
      assert rows[|stored| + i] == all[i];
      if |stored| + i >= cut {
        assert rows[cut..][|stored| + i - cut] == all[i];
      }
    }
    if dropped > 0 {
      assert all[dropped - 1] in Trimmed(rows, caps) <==> |stored| + dropped - 1 >= cut;
    }
  }

  // ── Where a drop goes further than the trim ────────────────────────────

  function Repeated(c: char, n: nat): string {
    seq(n, _ => c)
  }

  lemma {:induction false} RepeatedBytes(c: char, n: nat)
    ensures ByteLen(Repeated(c, n)) == CharLen(c) * n
  {
    if n > 0 {
      RepeatedBytes(c, n - 1);
      assert Repeated(c, n)[..n - 1] == Repeated(c, n - 1);
    }
  }

  // At every pair of caps, those that are off included: one line of two-byte
  // characters is too much for the queue in bytes and not for the store in
  // characters.
  lemma QueueOutdropsTheTrim(caps: Caps)
    ensures var line := Line(0, Repeated('\U{e9}', if caps.byteCap == 0 then 1 else caps.byteCap));
            && Pushed(EMPTY, line, caps.WindowRows(), caps.byteCap).lines == []
            && Trimmed([line], caps) == [line]
  {
    var n := if caps.byteCap == 0 then 1 else caps.byteCap;
    var line := Line(0, Repeated('\U{e9}', n));
    RepeatedBytes('\U{e9}', n);
    assert EMPTY.lines + [line] == [line];
    OneText(line);
    NewestFittingIsLongest([line], caps.WindowRows(), caps.byteCap);
    hide NewestFitting, TextBytes;
    RowTrimOfRun([line], caps.cap);
    hide Repeated, OverBudget;
  }

  // A push that a store and queue numbered in order can see, and one that
  // drops a line the next trim keeps.
  ghost predicate Pushable(stored: seq<Line>, q: Queue, line: Line) {
    |q.lines| <= q.pending && !q.closed && Ascending(stored + (q.lines + [line]))
  }

  ghost predicate Outdrops(stored: seq<Line>, q: Queue, line: Line, caps: Caps)
    requires Pushable(stored, q, line)
  {
    var all := q.lines + [line];
    exists i :: 0 <= i < |all| - |Pushed(q, line, caps.WindowRows(), caps.byteCap).lines| && all[i] in Trimmed(stored + all, caps)
  }

  ghost predicate OneByteEach(rows: seq<Line>) {
    forall i :: 0 <= i < |rows| ==> ByteLen(rows[i].text) == |rows[i].text|
  }

  // A store and a push of one-byte characters alone that break the claim.
  ghost predicate PlainOutdrops(stored: seq<Line>, q: Queue, line: Line, caps: Caps) {
    Pushable(stored, q, line) && OneByteEach(stored + (q.lines + [line])) && Outdrops(stored, q, line, caps)
  }

  // Where bytes are characters the two measures agree, and still the drop goes
  // further, because the trim deletes one row only; a row cap of 1 with the
  // byte cap on is the one exception.
  lemma PlainTextOutdropsIff(caps: Caps)
    ensures (exists stored, q, line :: PlainOutdrops(stored, q, line, caps)) <==> caps.cap != 1 || caps.byteCap == 0
  {
    if caps.cap != 1 || caps.byteCap == 0 {
      var q, line := PlainTextOutdrops(caps);
    }
    forall stored, q, line | PlainOutdrops(stored, q, line, caps) ensures caps.cap != 1 || caps.byteCap == 0 {
      if caps.cap == 1 && caps.byteCap > 0 {
        SingleRowKeepsUp(stored, q, line, caps);
      }
    }
  }

  lemma PlainTextOutdrops(caps: Caps) returns (q: Queue, line: Line)
    requires caps.cap != 1 || caps.byteCap == 0
    ensures PlainOutdrops([], q, line, caps)
  {
    line := Line(1, Repeated('x', caps.byteCap + 1));
    q := Queue([Line(0, "")], 1, false);
    TwoPlainLines([Line(0, ""), line], caps);
    assert q.lines + [line] == [] + (q.lines + [line]) == [Line(0, ""), line];
    hide Repeated, NewestFitting, OneByteEach, Outdrops;
    assert Consecutive(q.lines + [line]);
    hide Consecutive;
    PushableAlone(q, line);
    hide Pushable;
    LosingBothOutdrops(q, line, caps);
  }

  lemma PushableAlone(q: Queue, line: Line)
    requires |q.lines| <= q.pending && !q.closed && Consecutive(q.lines + [line])
    ensures Pushable([], q, line)
  {
    assert [] + (q.lines + [line]) == q.lines + [line];
  }

  // Two rows dropped, and one of them left by the trim.
  lemma LosingBothOutdrops(q: Queue, line: Line, caps: Caps)
    requires Pushable([], q, line) && |q.lines| == 1 && Consecutive(q.lines + [line])
    requires caps.cap != 1 || caps.byteCap == 0
    requires NewestFitting(q.lines + [line], caps.WindowRows(), caps.byteCap) == []
    ensures Outdrops([], q, line, caps)
  {
    hide Consecutive, Ascending, RowTrim, ByteTrim, Chars, NewestFitting;
    var all := q.lines + [line];
    assert [] + all == all;
    RowTrimOfRun(all, caps.cap);
    DropsAreTrimmedIff([], q, line, caps);
    assert Pushed(q, line, caps.WindowRows(), caps.byteCap).lines == [];
    hide Pushed, Trimmed;
  }

  lemma TwoPlainLines(all: seq<Line>, caps: Caps)
    requires all == [Line(0, ""), Line(1, Repeated('x', caps.byteCap + 1))]
    ensures OneByteEach(all) && NewestFitting(all, caps.WindowRows(), caps.byteCap) == []
  {
    RepeatedBytes('x', caps.byteCap + 1);
    assert all[0..] == all && all[1..] == [all[1]];
    OneText(all[1]);
    assert TextBytes(all) == caps.byteCap + 1;
    NewestFittingIsLongest(all, caps.WindowRows(), caps.byteCap);
    hide NewestFitting, Repeated, TextBytes;
  }

  lemma OneText(line: Line)
    ensures TextBytes([line]) == ByteLen(line.text) && Chars([line]) == |line.text|
  {
    assert [line][1..] == [];
  }

  lemma SingleRowKeepsUp(stored: seq<Line>, q: Queue, line: Line, caps: Caps)
    requires Pushable(stored, q, line) && OneByteEach(stored + (q.lines + [line]))
    requires caps.cap == 1 && caps.byteCap > 0
    ensures !Outdrops(stored, q, line, caps)
  {
    var all := q.lines + [line];
    var rows := stored + all;
    DropsAreTrimmedIff(stored, q, line, caps);
    RowTrimIsCapped(rows, 1);
    NewestFittingIsLongest(all, caps.WindowRows(), caps.byteCap);
    hide NewestFitting, ByteTrim, ByteLen;
    assert rows[|rows| - 1] == line;
    NewestSurvives(rows);
    assert all[|all| - 1..] == [line];
    assert RowTrim(rows, 1) == [line];
    OneText(line);
  }

  // A row cap never reaches the newest row.
  lemma NewestSurvives(rows: seq<Line>)
    requires Ascending(rows) && rows != []
    ensures |RowTrim(rows, 1)| <= 1 ==> RowTrim(rows, 1) == [rows[|rows| - 1]]
  {
    hide MaxNum, After;
    var newest := Newest(rows);
    var last := rows[|rows| - 1];
    assert last in rows;
    var k := AfterIsSuffix(rows, MaxNum(rows) - 1);
    RowTrimKeeps(rows, 1, last);
  }

  // With the byte cap off, whatever the row cap: an empty window to the queue,
  // no cap to the store.
  lemma ZeroByteCapDropsLines(cap: nat, line: Line)
    requires line.text != ""
    ensures Pushed(EMPTY, line, Caps(cap, 0).WindowRows(), 0).lines == []
    ensures Trimmed([line], Caps(cap, 0)) == [line]
  {
    CharsWithinBytes(line.text);
    assert EMPTY.lines + [line] == [line] && [line][1..] == [];
    assert TextBytes([line]) > 0;
    NewestFittingIsLongest([line], Caps(cap, 0).WindowRows(), 0);
    hide NewestFitting, TextBytes;
    RowTrimOfRun([line], cap);
  }

  // ── Against the documented cutoff ──────────────────────────────────────

  // `enforce_cap` with the documented cutoff; a byte cap of 0 is no cap.
  function DocumentedCaps(rows: seq<Line>, caps: Caps): seq<Line> {
    if caps.byteCap == 0 then RowTrim(rows, caps.cap) else DocumentedTrim(RowTrim(rows, caps.cap), caps.byteCap)
  }

  lemma DocumentedCutsAscending(rows: seq<Line>, byteCap: nat) returns (k: nat)
    requires Ascending(rows)
    ensures k <= |rows| && DocumentedTrim(rows, byteCap) == rows[k..]
  {
    hide OverBudget, After, MaxNum, Ascending;
    var over := OverBudget(rows, rows, byteCap);
    if over == [] {
      k := 0;
    } else {
      k := AfterIsSuffix(rows, MaxNum(over));
    }
  }

  lemma RowTrimCutsRun(rows: seq<Line>, cap: nat) returns (k: nat)
    requires Consecutive(rows)
    ensures k <= |rows| && RowTrim(rows, cap) == rows[k..] && Ascending(rows[k..]) && (cap > 0 ==> |rows| - k <= cap)
  {
    RowTrimOfRun(rows, cap);
    hide RowTrim;
    k := if cap > 0 && |rows| > cap then |rows| - cap else 0;
  }

  lemma DocumentedIsSuffix(rows: seq<Line>, caps: Caps)
    requires Consecutive(rows)
    ensures var left := DocumentedCaps(rows, caps);
            |left| <= |rows| && left == rows[|rows| - |left|..] && (caps.cap > 0 ==> |left| <= caps.cap)
  {
    var j := RowTrimCutsRun(rows, caps.cap);
    hide Consecutive, Ascending, RowTrim, DocumentedTrim;
    if caps.byteCap > 0 {
      var k := DocumentedCutsAscending(rows[j..], caps.byteCap);
    }
  }

  // With the documented cutoff the queue keeps a suffix of what the trim
  // keeps, and all of it if and only if that fits the cap in bytes as well.
  lemma WindowIsDocumentedTrimIff(all: seq<Line>, caps: Caps)
    requires Consecutive(all) && |all| <= USIZE_MAX
    ensures var kept := NewestFitting(all, caps.WindowRows(), caps.byteCap);
            var left := DocumentedCaps(all, caps);
            && |kept| <= |left| && kept == left[|left| - |kept|..]
            && (kept == left <==> TextBytes(left) <= caps.byteCap)
  {
    hide NewestFitting, DocumentedCaps, TextBytes;
    NewestFittingIsLongest(all, caps.WindowRows(), caps.byteCap);
    DocumentedIsSuffix(all, caps);
    var kept := NewestFitting(all, caps.WindowRows(), caps.byteCap);
    var left := DocumentedCaps(all, caps);
    WindowIsSpared(all, caps, |all| - |kept|);
    if TextBytes(left) <= caps.byteCap {
      assert Fits(left, caps.WindowRows(), caps.byteCap);
    }
  }

  // A suffix that fits the window survives the documented trim.
  lemma WindowIsSpared(all: seq<Line>, caps: Caps, first: nat)
    requires Consecutive(all) && first <= |all| && Fits(all[first..], caps.WindowRows(), caps.byteCap)
    ensures |all| - first <= |DocumentedCaps(all, caps)|
  {
    if first < |all| {
      FirstIsSpared(all, caps, first);
      hide DocumentedCaps, Fits;
      DocumentedIsSuffix(all, caps);
      var left := DocumentedCaps(all, caps);
      var k :| 0 <= k < |left| && left[k] == all[first];
      assert all[|all| - |left| + k] == left[k];
    }
  }

  lemma FirstIsSpared(all: seq<Line>, caps: Caps, first: nat)
    requires Consecutive(all) && first < |all| && Fits(all[first..], caps.WindowRows(), caps.byteCap)
    ensures all[first] in DocumentedCaps(all, caps)
  {
    RowTrimOfRun(all, caps.cap);
    hide RowTrim, DocumentedTrim, Running, TextBytes;
    var ys := RowTrim(all, caps.cap);
    var at := first - (|all| - |ys|);
    assert ys[at] == all[first] && ys[at..] == all[first..];
    CharsWithinText(all[first..]);
    RunningOfRun(ys, at);
    DocumentedTrimKeeps(ys, caps.byteCap, ys[at]);
  }

  lemma RunningOfRun(rows: seq<Line>, at: nat)
    requires Ascending(rows) && at < |rows|
    ensures Running(rows, rows[at].num) == Chars(rows[at..])
  {
    var k := AfterIsSuffix(rows, rows[at].num - 1);
    hide After, Chars;
    var j := if k < at then k else at;
    assert j >= k;
    assert rows[j].num > rows[at].num - 1;
  }

  lemma {:induction false} CharsWithinText(rows: seq<Line>)
    ensures Chars(rows) <= TextBytes(rows)
  {
    if rows != [] {
      CharsWithinBytes(rows[0].text);
      CharsWithinText(rows[1..]);
    }
  }

  // So for texts of one byte a character, the documented trim and the queue
  // keep exactly the same lines, unless the byte cap is off; then they do if
  // and only if the row cap leaves nothing but empty lines.
  lemma WindowIsDocumentedTrim(all: seq<Line>, caps: Caps)
    requires Consecutive(all) && |all| <= USIZE_MAX && OneByteEach(all)
    ensures NewestFitting(all, caps.WindowRows(), caps.byteCap) == DocumentedCaps(all, caps)
            <==> caps.byteCap > 0 || Chars(RowTrim(all, caps.cap)) == 0
  {
    hide NewestFitting, ByteLen, RowTrim, DocumentedTrim, Chars, TextBytes, Consecutive;
    WindowIsDocumentedTrimIff(all, caps);
    DocumentedIsSuffix(all, caps);
    OneMeasure(DocumentedCaps(all, caps));
    DocumentedTrimFits(RowTrim(all, caps.cap), caps.byteCap);
  }

  lemma {:induction false} OneMeasure(rows: seq<Line>)
    requires OneByteEach(rows)
    ensures Chars(rows) == TextBytes(rows)
  {
    if rows != [] {
      OneMeasure(rows[1..]);
    }
  }

  // ── What the caps leave stored ─────────────────────────────────────────

  ghost predicate AllTrimmed(actions: seq<Action>) {
    forall i :: 0 <= i < |actions| && actions[i].Write? ==> actions[i].trim != TrimSkipped
  }

  // Over every run in which the row trim succeeds the store holds at most
  // `cap` rows, even if commits fail.
  lemma {:induction false} RowsStayCapped(caps: Caps, h: History, actions: seq<Action>)
    requires Inv(caps, h) && caps.cap > 0 && AllTrimmed(actions) && |h.pane.rows| <= caps.cap
    ensures |Run(caps, h, actions).pane.rows| <= caps.cap
    decreases |actions|
  {
    if actions != [] {
      assert AllTrimmed(actions[1..]) by {
        assert forall i :: 0 <= i < |actions[1..]| ==> actions[1..][i] == actions[i + 1];
      }
      NextKeepsInv(caps, h, actions[0]);
      if actions[0].Write? && h.pane.pc == Committing {
        CommitIsCapped(caps, h, actions[0].committed, actions[0].trim);
      }
      hide Inv, TrimmedBy;
      RowsStayCapped(caps, Next(caps, h, actions[0]), actions[1..]);
    }
  }

  lemma CommitIsCapped(caps: Caps, h: History, committed: bool, trim: Trim)
    requires Inv(caps, h) && h.pane.pc == Committing && caps.cap > 0 && trim != TrimSkipped
    ensures |Next(caps, h, Write(committed, trim)).pane.rows| <= caps.cap
  {
    StoredIsAscending(caps, h, committed);
    hide RowTrim, ByteTrim, Chars, Inv, Ascending;
    var stored := Stored(h.pane, committed);
    RowTrimIsCapped(stored, caps.cap);
    TrimCut(stored, caps);
  }

  // Without a row cap a trim deletes one row at most, so a commit of two lines
  // or more grows the store, over its byte cap or not.
  lemma CommitGrowsTheStore(caps: Caps, h: History, trim: Trim)
    requires Inv(caps, h) && h.pane.pc == Committing && caps.cap == 0
    ensures var stored := h.pane.rows + h.pane.batch;
            var over := trim == TrimAll && caps.byteCap > 0 && Chars(stored) > caps.byteCap;
            stored != [] && Next(caps, h, Write(true, trim)).pane.rows == if over then stored[1..] else stored
  {
    StoredIsAscending(caps, h, true);
    var stored := Stored(h.pane, true);
    hide Inv, ByteTrim, Chars, Ascending;
    OneRowByteTrim(stored, caps.byteCap);
  }

  lemma StoredIsAscending(caps: Caps, h: History, committed: bool)
    requires Inv(caps, h) && h.pane.pc == Committing
    ensures Ascending(Stored(h.pane, committed)) && h.pane.batch != []
  {
    hide Numbered, QueueIsNewest, WindowSurvives, FromLog;
    var stored := Stored(h.pane, committed);
    assert stored == Everything(h.pane)[..|stored|];
  }

  // Two lines pushed, taken, committed with a full trim, and acknowledged.
  function Cycles(n: nat): seq<Action> {
    var w := Write(true, TrimAll);
    if n == 0 then [] else [Push("x")] + ([Push("x")] + ([w] + ([w] + ([w] + ([w] + Cycles(n - 1))))))
  }

  ghost predicate AtRest(h: History) {
    && h.pane.pc == Draining && h.pane.batch == [] && h.pane.queue.lines == [] && !h.pane.queue.closed
    && OneCharEach(h.pane.rows)
  }

  predicate OneCharEach(rows: seq<Line>) {
    forall i :: 0 <= i < |rows| ==> |rows[i].text| == 1
  }

  lemma RunCons(caps: Caps, h: History, a: Action, rest: seq<Action>)
    requires Inv(caps, h)
    ensures Inv(caps, Next(caps, h, a)) && Run(caps, h, [a] + rest) == Run(caps, Next(caps, h, a), rest)
    ensures |Next(caps, h, a).pane.queue.lines| <= Next(caps, h, a).pane.queue.pending
  {
    NextKeepsInv(caps, h, a);
    hide Next;
    assert ([a] + rest)[1..] == rest;
  }

  lemma PushFits(caps: Caps, h: History)
    requires |h.pane.queue.lines| <= h.pane.queue.pending
    requires !h.pane.queue.closed && |h.pane.queue.lines| <= 1 && TextBytes(h.pane.queue.lines) <= 1
    requires caps.cap == 0 && caps.byteCap >= 2
    ensures var q := h.pane.queue;
            var all := q.lines + [Line(h.base + |h.log|, "x")];
            Next(caps, h, Push("x")).pane == h.pane.(queue := Queue(all, q.pending + 1, false)) && TextBytes(all) == TextBytes(q.lines) + 1
  {
    var line := Line(h.base + |h.log|, "x");
    TextBytesSplit(h.pane.queue.lines, [line]);
    assert [line][1..] == [] && "x"[..0] == "" && ByteLen("x") == 1;
    assert TextBytes([line]) == 1;
    assert Fits(h.pane.queue.lines + [line], caps.WindowRows(), caps.byteCap);
  }

  lemma TwoPushes(caps: Caps, h: History, rest: seq<Action>) returns (h': History)
    requires Inv(caps, h) && AtRest(h) && caps.cap == 0 && caps.byteCap >= 2
    ensures Inv(caps, h') && Run(caps, h, [Push("x")] + ([Push("x")] + rest)) == Run(caps, h', rest)
    ensures var q := h'.pane.queue;
            h'.pane == h.pane.(queue := q) && |q.lines| == 2 == q.pending && !q.closed && OneCharEach(q.lines)
  {
    assert h.pane.queue.pending == 0 && TextBytes([]) == 0 && h.pane.queue.lines == [] && !h.pane.queue.closed;
    hide Inv, AtRest, NewestFitting, TextBytes, Run, Next;
    PushFits(caps, h);
    RunCons(caps, h, Push("x"), [Push("x")] + rest);
    var h1 := Next(caps, h, Push("x"));
    PushFits(caps, h1);
    RunCons(caps, h1, Push("x"), rest);
    h' := Next(caps, h1, Push("x"));
  }

  // The writer takes the queued lines and is ready to commit them.
  lemma TakeSteps(caps: Caps, h: History)
    requires h.pane.pc == Draining && h.pane.batch == [] && 0 < |h.pane.queue.lines| < FLUSH_ROWS
    requires |h.pane.queue.lines| <= h.pane.queue.pending
    ensures var w := Write(true, TrimAll);
            var h' := Next(caps, Next(caps, h, w), w);
            h'.pane == Pane(h.pane.queue.(lines := []), h.pane.rows, h.pane.queue.lines, Committing)
  {
    assert [] + h.pane.queue.lines == h.pane.queue.lines;
  }

  // Commits and acknowledges.
  lemma CommitSteps(caps: Caps, h: History)
    requires h.pane.pc == Committing && h.pane.queue.lines == [] && |h.pane.batch| == h.pane.queue.pending
    ensures var w := Write(true, TrimAll);
            var h' := Next(caps, h, w);
            Next(caps, h', w).pane == Pane(Queue([], 0, h.pane.queue.closed), h'.pane.rows, [], Draining)
  {
    hide RowTrim, ByteTrim;
  }

  // The writer's four steps over two queued lines.
  lemma FourWrites(caps: Caps, h: History, rest: seq<Action>) returns (h': History)
    requires Inv(caps, h) && h.pane.pc == Draining && h.pane.batch == [] && caps.cap == 0
    requires |h.pane.queue.lines| == 2 == h.pane.queue.pending && !h.pane.queue.closed
    ensures var w := Write(true, TrimAll);
            Inv(caps, h') && Run(caps, h, [w] + ([w] + ([w] + ([w] + rest)))) == Run(caps, h', rest)
    ensures var stored := h.pane.rows + h.pane.queue.lines;
            h'.pane == Pane(Queue([], 0, false), h'.pane.rows, [], Draining) && (h'.pane.rows == stored || h'.pane.rows == stored[1..])
  {
    var w := Write(true, TrimAll);
    hide Inv, Run, Next;
    TakeSteps(caps, h);
    RunCons(caps, h, w, [w] + ([w] + ([w] + rest)));
    var h1 := Next(caps, h, w);
    RunCons(caps, h1, w, [w] + ([w] + rest));
    var h2 := Next(caps, h1, w);
    CommitSteps(caps, h2);
    RunCons(caps, h2, w, [w] + rest);
    CommitGrowsTheStore(caps, h2, TrimAll);
    var h3 := Next(caps, h2, w);
    RunCons(caps, h3, w, rest);
    h' := Next(caps, h3, w);
  }

  // After a cycle the store holds at least one row more.
  lemma CycleGrows(caps: Caps, h: History, n: nat) returns (h': History)
    requires Inv(caps, h) && AtRest(h) && caps.cap == 0 && caps.byteCap >= 2 && n > 0
    ensures Inv(caps, h') && Run(caps, h, Cycles(n)) == Run(caps, h', Cycles(n - 1))
    ensures AtRest(h') && |h'.pane.rows| > |h.pane.rows|
  {
    var w := Write(true, TrimAll);
    var tail := Cycles(n - 1);
    hide Inv, Run, Next;
    var h2 := TwoPushes(caps, h, [w] + ([w] + ([w] + ([w] + tail))));
    h' := FourWrites(caps, h2, tail);
    var stored := h2.pane.rows + h2.pane.queue.lines;
    assert OneCharEach(stored) && OneCharEach(stored[1..]);
  }

  // Any number of lines over the byte cap, after commits and trims that all
  // succeeded.
  lemma {:induction false} StoreOutgrowsItsByteCap(caps: Caps, h: History, n: nat)
    requires Inv(caps, h) && AtRest(h) && caps.cap == 0 && caps.byteCap >= 2
    ensures AtRest(Run(caps, h, Cycles(n))) && |Run(caps, h, Cycles(n)).pane.rows| >= |h.pane.rows| + n
    decreases n
  {
    hide Inv, AtRest, Next, Cycles;
    if n == 0 {
      NoCycles(caps, h);
    } else {
      var h' := CycleGrows(caps, h, n);
      StoreOutgrowsItsByteCap(caps, h', n - 1);
    }
  }

  lemma NoCycles(caps: Caps, h: History)
    requires Inv(caps, h)
    ensures Run(caps, h, Cycles(0)) == h
  {
    hide Inv;
  }

  lemma {:induction false} CharsOfOneEach(rows: seq<Line>)
    requires OneCharEach(rows)
    ensures Chars(rows) == |rows|
  {
    if rows != [] {
      CharsOfOneEach(rows[1..]);
    }
  }

  // The caps a pane is opened with: the byte cap is never off, and without a
  // row cap it does not bound the store.
  lemma OpenedByteCapIsOn(cap: nat)
    ensures OpenCaps(cap).cap == cap && OpenCaps(cap).byteCap >= 1024 * 1024
    ensures OpenCaps(cap).byteCap == 1024 * if cap < 1024 then 1024 else cap
  {
  }

  lemma UncappedPaneGrows(n: nat)
    ensures Chars(Session(OpenCaps(0), 0, [], Cycles(n)).pane.rows) >= n
  {
    OpenedByteCapIsOn(0);
    hide OpenCaps, Session, Cycles;
    UncappedStoreGrows(OpenCaps(0), n);
  }

  lemma UncappedStoreGrows(caps: Caps, n: nat)
    requires caps.cap == 0 && caps.byteCap >= 2
    ensures Chars(Session(caps, 0, [], Cycles(n)).pane.rows) >= n
  {
    RestingSession(caps, Cycles(n));
    hide *;
    StoreOutgrowsItsByteCap(caps, Opened(0, []), n);
    CharsOfRest(Run(caps, Opened(0, []), Cycles(n)));
  }

  lemma RestingSession(caps: Caps, actions: seq<Action>)
    ensures Restored(0, []) && Inv(caps, Opened(0, [])) && AtRest(Opened(0, []))
    ensures Session(caps, 0, [], actions) == Run(caps, Opened(0, []), actions)
  {
    hide Run, Inv;
    OpenedIsFine(caps, 0, []);
  }

  lemma CharsOfRest(h: History)
    requires AtRest(h)
    ensures Chars(h.pane.rows) == |h.pane.rows|
  {
    CharsOfOneEach(h.pane.rows);
  }
}
