// A pane's scrollback write path: the queue, the writer thread and the store,
// over every interleaving (crates/gpty-core/src/history.rs, `PaneHistory` and
// `spawn_writer`).
//
// Each queue method is one atomic step, a commit with its trim is one step,
// and the writer is a program counter over its loop. The simple thing all of
// it stands for is the log of every line accepted so far.
module ScrollbackWriter {
  import opened Wrappers
  import opened HistoryQueue
  import opened Retention
  import opened Utf8Text

  const FLUSH_ROWS: nat := 512

  datatype Pc = Draining | CheckingClosed | LastTake | Waiting | Committing | Acknowledging | Exited

  // How much of `enforce_cap` went through after a commit.
  datatype Trim = TrimSkipped | TrimRows | TrimAll

  datatype Pane = Pane(queue: Queue, rows: seq<Line>, batch: seq<Line>, pc: Pc)

  // ── The steps ──────────────────────────────────────────────────────────

  function Drained(s: Pane): Pane {
    s.(batch := s.batch + s.queue.lines, queue := Taken(s.queue))
  }

  // What a commit leaves in the store before its trim.
  function Stored(s: Pane, committed: bool): seq<Line> {
    if committed then s.rows + s.batch else s.rows
  }

  function TrimmedBy(rows: seq<Line>, caps: Caps, trim: Trim): seq<Line> {
    match trim
    case TrimSkipped => rows
    case TrimRows => RowTrim(rows, caps.cap)
    case TrimAll => Trimmed(rows, caps)
  }

  // One step of the writer; `committed` and `trim` matter only to a commit.
  function WriterStep(caps: Caps, s: Pane, committed: bool, trim: Trim): Pane {
    match s.pc
    case Draining =>
      var t := Drained(s);
      t.(pc := if |t.batch| >= FLUSH_ROWS then Committing else if t.batch == [] then CheckingClosed else Waiting)
    case CheckingClosed => s.(pc := if s.queue.closed then LastTake else Waiting)
    case LastTake =>
      var t := Drained(s);
      t.(pc := if t.batch == [] then Exited else Waiting)
    case Waiting =>
      s.(pc := if s.queue.lines != [] || s.batch == [] then Draining else Committing)
    case Committing =>
      s.(rows := TrimmedBy(Stored(s, committed), caps, trim), pc := Acknowledging)
    case Acknowledging =>
      s.(queue := Acknowledged(s.queue, |s.batch|), batch := [], pc := Draining)
    case Exited => s
  }

  // The pane together with what it stands for: `log` holds every accepted
  // line, numbered from `base`; `lost` holds the batches whose commit failed.
  datatype History = History(base: int, log: seq<Line>, lost: seq<Line>, pane: Pane)

  datatype Action = Push(text: string) | Close | Write(committed: bool, trim: Trim)

  function Next(caps: Caps, h: History, a: Action): History
    requires |h.pane.queue.lines| <= h.pane.queue.pending
  {
    if a.Push? then
      var line := Line(h.base + |h.log|, a.text);
      h.(log := if h.pane.queue.closed then h.log else h.log + [line],
         pane := h.pane.(queue := Pushed(h.pane.queue, line, caps.WindowRows(), caps.byteCap)))
    else if a.Close? then h.(pane := h.pane.(queue := h.pane.queue.(closed := true)))
    else
      h.(lost := if h.pane.pc == Committing && !a.committed then h.lost + h.pane.batch else h.lost,
         pane := WriterStep(caps, h.pane, a.committed, a.trim))
  }

  // A pane opened over `rows` left by an earlier session.
  function Opened(base: int, rows: seq<Line>): History {
    History(base, [], [], Pane(EMPTY, rows, [], Draining))
  }

  // ── What holds after every step ────────────────────────────────────────

  ghost predicate FromLog(xs: seq<Line>, base: int, log: seq<Line>) {
    forall i :: 0 <= i < |xs| && base <= xs[i].num ==>
      xs[i].num < base + |log| && xs[i] == log[xs[i].num - base]
  }

  // The batch, unless its commit has already happened.
  function Held(s: Pane): seq<Line> {
    if s.pc == Acknowledging then [] else s.batch
  }

  function Everything(s: Pane): seq<Line> {
    s.rows + Held(s) + s.queue.lines
  }

  ghost predicate Accounted(h: History, x: Line) {
    x in h.pane.rows || x in Held(h.pane) || x in h.pane.queue.lines || x in h.lost
  }

  // The newest lines of the log that fit the pane's caps.
  predicate InWindow(caps: Caps, log: seq<Line>, i: nat)
    requires i < |log|
  {
    Fits(log[i..], caps.WindowRows(), caps.byteCap)
  }

  ghost predicate WindowSurvives(caps: Caps, h: History) {
    forall i :: 0 <= i < |h.log| && InWindow(caps, h.log, i) ==> Accounted(h, h.log[i])
  }

  ghost predicate Numbered(h: History) {
    forall i :: 0 <= i < |h.log| ==> h.log[i].num == h.base + i
  }

  ghost predicate QueueIsNewest(caps: Caps, h: History) {
    var q := h.pane.queue.lines;
    |q| <= |h.log| && q == h.log[|h.log| - |q|..] && Fits(q, caps.WindowRows(), caps.byteCap)
  }

  // Pending counts queued and in-flight lines, and the writer's batch stays
  // small, at every program point.
  ghost predicate Counted(caps: Caps, s: Pane) {
    && s.queue.pending == |s.queue.lines| + |s.batch|
    && |s.batch| <= FLUSH_ROWS - 1 + caps.WindowRows()
    && match s.pc
       case Draining => |s.batch| < FLUSH_ROWS
       case CheckingClosed => s.batch == []
       case LastTake => s.batch == [] && s.queue.closed
       case Waiting => |s.batch| < FLUSH_ROWS || (s.queue.closed && s.queue.lines == [])
       case Committing => s.batch != []
       case Acknowledging => s.batch != []
       case Exited => s.queue.closed && s.batch == [] && s.queue.lines == []
  }

  ghost predicate Ordered(h: History) {
    Ascending(Everything(h.pane)) && FromLog(Everything(h.pane), h.base, h.log)
  }

  ghost predicate Inv(caps: Caps, h: History) {
    && Numbered(h)
    && QueueIsNewest(caps, h)
    && Counted(caps, h.pane)
    && Ordered(h)
    && WindowSurvives(caps, h)
  }

  // ── A push loses nothing inside the window ─────────────────────────────

  lemma PushKeepsInv(caps: Caps, h: History, text: string)
    requires Inv(caps, h) && !h.pane.queue.closed
    ensures Inv(caps, Next(caps, h, Push(text)))
  {
    var h' := Next(caps, h, Push(text));
    PushedQueueIsNewest(caps, h, text);
    NewestFittingIsLongest(h.pane.queue.lines + [h'.log[|h.log|]], caps.WindowRows(), caps.byteCap);
    PushKeepsOrder(h, h', |h.pane.queue.lines| + 1 - |h'.pane.queue.lines|);
    forall i | 0 <= i < |h'.log| && InWindow(caps, h'.log, i)
      ensures Accounted(h', h'.log[i])
    {
      PushKeepsLine(caps, h, text, i);
    }
  }

  // The newest lines that fit, seen inside the log they end.
  lemma NewestOfLog(caps: Caps, log: seq<Line>, start: nat) returns (first: nat)
    requires start <= |log|
    ensures start <= first <= |log|
    ensures NewestFitting(log[start..], caps.WindowRows(), caps.byteCap) == log[first..]
    ensures Fits(log[first..], caps.WindowRows(), caps.byteCap)
    ensures forall i :: start <= i < first ==> !InWindow(caps, log, i)
  {
    hide NewestFitting, TextBytes;
    var all := log[start..];
    NewestFittingIsLongest(all, caps.WindowRows(), caps.byteCap);
    var kept := NewestFitting(all, caps.WindowRows(), caps.byteCap);
    first := |log| - |kept|;
    forall i | start <= i < first
      ensures !InWindow(caps, log, i)
    {
      assert log[i..] == all[i - start..];
    }
  }

  // The queue after a push is the newest lines that fit, and no more.
  lemma PushedQueueIsNewest(caps: Caps, h: History, text: string)
    requires Numbered(h) && QueueIsNewest(caps, h) && Counted(caps, h.pane) && !h.pane.queue.closed
    ensures var h' := Next(caps, h, Push(text));
            var start := |h.log| - |h.pane.queue.lines|;
            && Numbered(h') && QueueIsNewest(caps, h') && Counted(caps, h'.pane)
            && |h'.pane.queue.lines| <= |h.pane.queue.lines| + 1
            && forall i :: start <= i < |h'.log| - |h'.pane.queue.lines| ==> !InWindow(caps, h'.log, i)
  {
    hide NewestFitting, TextBytes;
    var log' := h.log + [Line(h.base + |h.log|, text)];
    var start := |h.log| - |h.pane.queue.lines|;
    assert log'[start..] == h.pane.queue.lines + [log'[|h.log|]];
    var first := NewestOfLog(caps, log', start);
  }

  lemma PushKeepsLine(caps: Caps, h: History, text: string, i: nat)
    requires Inv(caps, h) && !h.pane.queue.closed
    requires i <= |h.log| && InWindow(caps, Next(caps, h, Push(text)).log, i)
    ensures var h' := Next(caps, h, Push(text)); Accounted(h', h'.log[i])
  {
    var h' := Next(caps, h, Push(text));
    PushedQueueIsNewest(caps, h, text);
    var first := |h'.log| - |h'.pane.queue.lines|;
    if i >= first {
      assert h'.log[i] == h'.pane.queue.lines[i - first];
    } else {
      OlderLineWasInWindow(caps, h.log, h'.log[|h.log|], i);
      assert Accounted(h, h.log[i]);
    }
  }

  // The window only ever shrinks at its old end.
  lemma OlderLineWasInWindow(caps: Caps, log: seq<Line>, line: Line, i: nat)
    requires i < |log| && InWindow(caps, log + [line], i)
    ensures InWindow(caps, log, i)
  {
    TextBytesSplit(log[i..], [line]);
    assert (log + [line])[i..] == log[i..] + [line];
  }

  // Dropping `k` lines from the front and adding the newest keeps the order.
  lemma PushKeepsOrder(h: History, h': History, k: nat)
    requires Numbered(h) && Ordered(h)
    requires |h'.log| == |h.log| + 1 && h'.log[..|h.log|] == h.log && h'.log[|h.log|].num == h.base + |h.log|
    requires h'.base == h.base && h'.pane.rows == h.pane.rows && Held(h'.pane) == Held(h.pane)
    requires k <= |h.pane.queue.lines| + 1
    requires h'.pane.queue.lines == (h.pane.queue.lines + [h'.log[|h.log|]])[k..]
    ensures Ordered(h')
  {
    var xs := Everything(h.pane);
    var all := xs + [h'.log[|h.log|]];
    var m := |h.pane.rows + Held(h.pane)|;
    DropKeepsOrder(all, m, m + k, h.base, h'.log);
    assert all[..m] + all[m + k..] == Everything(h'.pane);
  }

  // Leaving out `all[i..j]` keeps the order of the rest.
  lemma DropKeepsOrder(all: seq<Line>, i: nat, j: nat, base: int, log: seq<Line>)
    requires Ascending(all) && FromLog(all, base, log) && i <= j <= |all|
    ensures Ascending(all[..i] + all[j..]) && FromLog(all[..i] + all[j..], base, log)
  {
    var ys := all[..i] + all[j..];
    assert forall p :: 0 <= p < |ys| ==> ys[p] == if p < i then all[p] else all[p + j - i];
  }

  // ── A trim loses nothing inside the window ─────────────────────────────

  // Rows picked from the log are no larger than the log they come from.
  lemma {:induction false} PickedRowsAreSmaller(xs: seq<Line>, base: int, log: seq<Line>)
    requires Ascending(xs) && FromLog(xs, base, log)
    requires forall i :: 0 <= i < |xs| ==> base <= xs[i].num
    ensures Chars(xs) <= TextBytes(log)
  {
    if xs != [] {
      var i := xs[0].num - base;
      var rest := log[i + 1..];
      assert forall j :: 0 <= j < |xs[1..]| ==> xs[1..][j] == xs[j + 1];
      PickedRowsAreSmaller(xs[1..], base + i + 1, rest);
      CharsWithinBytes(xs[0].text);
      assert log[i..][1..] == rest;
      TextBytesOfSuffix(log, 0, i);
      assert log[0..] == log;
    }
  }

  lemma TrimIsSuffix(xs: seq<Line>, caps: Caps, trim: Trim) returns (k: nat)
    requires Ascending(xs)
    ensures k <= |xs| && TrimmedBy(xs, caps, trim) == xs[k..]
  {
    hide After, OverBudget, Chars, MinNum, MaxNum;
    k := 0;
    var ys := RowTrim(xs, caps.cap);
    if trim != TrimSkipped && ys != xs {
      k := AfterIsSuffix(xs, MaxNum(xs) - caps.cap);
    }
    if trim == TrimAll && ByteTrim(ys, caps.byteCap) != ys {
      assert Ascending(ys);
      var j := AfterIsSuffix(ys, MinNum(OverBudget(ys, ys, caps.byteCap)));
      assert xs[k..][j..] == xs[k + j..];
      k := k + j;
    }
  }

  lemma RowTrimSparesWindow(caps: Caps, xs: seq<Line>, base: int, log: seq<Line>, i: nat)
    requires FromLog(xs, base, log) && i < |log| && log[i].num == base + i
    requires log[i] in xs && InWindow(caps, log, i)
    ensures log[i] in RowTrim(xs, caps.cap)
  {
    if caps.cap != 0 {
      var newest := Newest(xs);
      AfterMembers(xs, newest.num - caps.cap);
    }
  }

  lemma ByteTrimSparesWindow(caps: Caps, xs: seq<Line>, base: int, log: seq<Line>, i: nat)
    requires Ascending(xs) && FromLog(xs, base, log) && i < |log| && log[i].num == base + i
    requires log[i] in xs && InWindow(caps, log, i)
    ensures log[i] in ByteTrim(xs, caps.byteCap)
  {
    hide After, OverBudget, MinNum, TextBytes, Chars;
    if caps.byteCap != 0 && Chars(xs) > caps.byteCap {
      ByteTrimDropsOldest(xs, caps.byteCap);
      var oldest := Oldest(xs);
      AfterMembers(xs, oldest.num);
      if log[i].num <= oldest.num {
        var suffix := log[i..];
        assert FromLog(xs, base + i, suffix);
        assert forall j :: 0 <= j < |xs| ==> xs[j] in xs;
        PickedRowsAreSmaller(xs, base + i, suffix);
        assert false;
      }
    }
  }

  lemma TrimSparesWindow(caps: Caps, xs: seq<Line>, trim: Trim, base: int, log: seq<Line>, i: nat)
    requires Ascending(xs) && FromLog(xs, base, log) && i < |log| && log[i].num == base + i
    requires log[i] in xs && InWindow(caps, log, i)
    ensures log[i] in TrimmedBy(xs, caps, trim)
  {
    hide After, OverBudget, Chars, MinNum, MaxNum, TextBytes;
    if trim != TrimSkipped {
      RowTrimSparesWindow(caps, xs, base, log, i);
      var k := TrimIsSuffix(xs, caps, TrimRows);
      if trim == TrimAll {
        ByteTrimSparesWindow(caps, xs[k..], base, log, i);
      }
    }
  }

  // ── The writer's steps ─────────────────────────────────────────────────

  lemma CommitKeepsOrder(caps: Caps, h: History, committed: bool, trim: Trim)
    requires Ordered(h) && h.pane.pc == Committing
    ensures Ordered(h.(pane := WriterStep(caps, h.pane, committed, trim)))
  {
    hide TrimmedBy;
    var s := h.pane;
    var xs := Stored(s, committed);
    StoredPart(xs, s, h.base, h.log);
    var k := TrimIsSuffix(xs, caps, trim);
    assert Everything(WriterStep(caps, s, committed, trim)) == xs[k..] + s.queue.lines;
    CutKeepsOrder(Everything(s), xs, k, s.queue.lines, h.base, h.log);
  }

  lemma CommitKeepsLine(caps: Caps, h: History, committed: bool, trim: Trim, i: nat)
    requires Inv(caps, h) && h.pane.pc == Committing && i < |h.log| && InWindow(caps, h.log, i)
    ensures Accounted(Next(caps, h, Write(committed, trim)), h.log[i])
  {
    hide TrimmedBy, TextBytes;
    var xs := Stored(h.pane, committed);
    StoredPart(xs, h.pane, h.base, h.log);
    assert Accounted(h, h.log[i]);
    if h.log[i] in xs {
      TrimSparesWindow(caps, xs, trim, h.base, h.log, i);
    }
  }

  // What a commit leaves stored before its trim is ordered like the rest.
  lemma StoredPart(xs: seq<Line>, s: Pane, base: int, log: seq<Line>)
    requires Ascending(Everything(s)) && FromLog(Everything(s), base, log)
    requires xs <= s.rows + Held(s)
    ensures Ascending(xs) && FromLog(xs, base, log)
  {
    assert forall i :: 0 <= i < |xs| ==> xs[i] == Everything(s)[i];
  }

  // What survives a trim, followed by the queue, is still in order.
  lemma CutKeepsOrder(all: seq<Line>, xs: seq<Line>, k: nat, tail: seq<Line>, base: int, log: seq<Line>)
    requires Ascending(all) && FromLog(all, base, log)
    requires k <= |xs| && |xs| + |tail| <= |all| && xs <= all && tail == all[|all| - |tail|..]
    ensures Ascending(xs[k..] + tail) && FromLog(xs[k..] + tail, base, log)
  {
    DropKeepsOrder(all, |xs|, |all| - |tail|, base, log);
    var ys := all[..|xs|] + all[|all| - |tail|..];
    DropKeepsOrder(ys, 0, k, base, log);
    assert ys[..0] + ys[k..] == xs[k..] + tail;
  }

  // The steps that only move lines between the queue and the batch.
  lemma MoveKeepsInv(caps: Caps, h: History, committed: bool, trim: Trim)
    requires Inv(caps, h) && h.pane.pc != Committing
    ensures Inv(caps, Next(caps, h, Write(committed, trim)))
  {
    hide TextBytes;
    var h' := Next(caps, h, Write(committed, trim));
    MoveKeepsEverything(caps, h.pane, committed, trim);
    NothingFits(caps);
    assert h.log[|h.log|..] == [];
    forall i | 0 <= i < |h.log| && InWindow(caps, h.log, i)
      ensures Accounted(h', h.log[i])
    {
      assert Accounted(h, h.log[i]);
    }
  }

  lemma NothingFits(caps: Caps)
    ensures Fits([], caps.WindowRows(), caps.byteCap)
  {
  }

  lemma MoveKeepsEverything(caps: Caps, s: Pane, committed: bool, trim: Trim)
    requires Counted(caps, s) && s.pc != Committing && |s.queue.lines| <= caps.WindowRows()
    ensures var s' := WriterStep(caps, s, committed, trim);
            && Everything(s') == Everything(s) && Counted(caps, s')
            && (s'.queue.lines == s.queue.lines || s'.queue.lines == [])
  {
    assert s.rows + (s.batch + s.queue.lines) + [] == s.rows + s.batch + s.queue.lines;
    assert s.rows + [] + s.queue.lines == s.rows + s.queue.lines;
  }

  lemma WriterStepKeepsInv(caps: Caps, h: History, committed: bool, trim: Trim)
    requires Inv(caps, h)
    ensures Inv(caps, Next(caps, h, Write(committed, trim)))
  {
    if h.pane.pc == Committing {
      hide TrimmedBy, TextBytes;
      var h' := Next(caps, h, Write(committed, trim));
      CommitKeepsOrder(caps, h, committed, trim);
      forall i | 0 <= i < |h.log| && InWindow(caps, h.log, i)
        ensures Accounted(h', h.log[i])
      {
        CommitKeepsLine(caps, h, committed, trim, i);
      }
    } else {
      MoveKeepsInv(caps, h, committed, trim);
    }
  }

  lemma NextKeepsInv(caps: Caps, h: History, a: Action)
    requires Inv(caps, h)
    ensures Inv(caps, Next(caps, h, a))
  {
    match a
    case Push(text) =>
      if !h.pane.queue.closed {
        PushKeepsInv(caps, h, text);
      }
    case Close =>
      var h' := Next(caps, h, a);
      assert Everything(h'.pane) == Everything(h.pane);
      assert forall i :: 0 <= i < |h.log| && InWindow(caps, h.log, i) ==> Accounted(h, h.log[i]);
    case Write(committed, trim) => WriterStepKeepsInv(caps, h, committed, trim);
  }

  // ── Whole runs ─────────────────────────────────────────────────────────

  // Rows of an earlier session: ordered, and numbered below the new ones.
  ghost predicate Restored(base: int, rows: seq<Line>) {
    Ascending(rows) && forall i :: 0 <= i < |rows| ==> rows[i].num < base
  }

  // The state after `actions`, in the order they interleaved.
  ghost function Run(caps: Caps, h: History, actions: seq<Action>): (h': History)
    requires Inv(caps, h)
    ensures Inv(caps, h')
    decreases |actions|
  {
    if actions == [] then h
    else
      NextKeepsInv(caps, h, actions[0]);
      Run(caps, Next(caps, h, actions[0]), actions[1..])
  }

  lemma OpenedIsFine(caps: Caps, base: int, rows: seq<Line>)
    requires Restored(base, rows)
    ensures Inv(caps, Opened(base, rows))
  {
    assert Everything(Opened(base, rows).pane) == rows;
  }

  ghost predicate AllCommitted(actions: seq<Action>) {
    forall i :: 0 <= i < |actions| && actions[i].Write? ==> actions[i].committed
  }

  lemma {:induction false} NothingLostWhenCommitted(caps: Caps, h: History, actions: seq<Action>)
    requires Inv(caps, h) && AllCommitted(actions)
    ensures Run(caps, h, actions).lost == h.lost
    decreases |actions|
  {
    if actions != [] {
      NextKeepsInv(caps, h, actions[0]);
      assert AllCommitted(actions[1..]) by {
        assert forall i :: 0 <= i < |actions[1..]| ==> actions[1..][i] == actions[i + 1];
      }
      NothingLostWhenCommitted(caps, Next(caps, h, actions[0]), actions[1..]);
    }
  }

  // A pane opened over restored rows, after `actions`.
  ghost function Session(caps: Caps, base: int, rows: seq<Line>, actions: seq<Action>): (h: History)
    requires Restored(base, rows)
    ensures Inv(caps, h)
  {
    OpenedIsFine(caps, base, rows);
    Run(caps, Opened(base, rows), actions)
  }

  // Over every interleaving a line inside the newest-rows, newest-bytes window
  // of everything accepted so far is in the store, the batch or the queue,
  // unless the commit that carried it failed.
  lemma WindowNeverLost(caps: Caps, base: int, rows: seq<Line>, actions: seq<Action>, i: nat)
    requires Restored(base, rows)
    requires i < |Session(caps, base, rows, actions).log|
    requires InWindow(caps, Session(caps, base, rows, actions).log, i)
    ensures var h := Session(caps, base, rows, actions);
            && (h.log[i] in h.pane.rows || h.log[i] in h.pane.batch || h.log[i] in h.pane.queue.lines || h.log[i] in h.lost)
            && (AllCommitted(actions) ==> h.lost == [])
  {
    var h := Session(caps, base, rows, actions);
    assert Accounted(h, h.log[i]);
    if AllCommitted(actions) {
      OpenedIsFine(caps, base, rows);
      NothingLostWhenCommitted(caps, Opened(base, rows), actions);
    }
  }

  // A flush that returns true has nothing left in memory: every window line is
  // in the store or went down with a failed commit.
  lemma FlushIsLossless(caps: Caps, base: int, rows: seq<Line>, actions: seq<Action>, i: nat)
    requires Restored(base, rows)
    requires Session(caps, base, rows, actions).pane.queue.pending == 0
    ensures var h := Session(caps, base, rows, actions);
            && h.pane.queue.lines == [] && h.pane.batch == []
            && (i < |h.log| && InWindow(caps, h.log, i) ==> h.log[i] in h.pane.rows || h.log[i] in h.lost)
  {
    var h := Session(caps, base, rows, actions);
    hide Session;
    if i < |h.log| && InWindow(caps, h.log, i) {
      assert Accounted(h, h.log[i]);
    }
  }

  // Over every interleaving the pending count is what is queued and in
  // flight, so an acknowledgement never has to saturate.
  lemma AcknowledgementIsExact(caps: Caps, base: int, rows: seq<Line>, actions: seq<Action>)
    requires Restored(base, rows)
    ensures var s := Session(caps, base, rows, actions).pane;
            && s.queue.pending == |s.queue.lines| + |s.batch|
            && (s.pc == Acknowledging ==> Acknowledged(s.queue, |s.batch|).pending == |s.queue.lines|)
  {
    hide Session;
  }

  // Over every interleaving, what the write path holds in memory at once.
  lemma MemoryIsBounded(caps: Caps, base: int, rows: seq<Line>, actions: seq<Action>)
    requires Restored(base, rows)
    ensures var s := Session(caps, base, rows, actions).pane;
            && |s.queue.lines| + |s.batch| <= 511 + 2 * caps.WindowRows()
            && TextBytes(s.queue.lines) <= caps.byteCap
  {
    hide Session;
  }

  // ── Closing ────────────────────────────────────────────────────────────

  // How far a writer on a closed queue is from its exit, in its own steps.
  function StepsLeft(s: Pane): nat {
    if s.queue.lines == [] then
      match s.pc
      case Exited => 0
      case LastTake => 1
      case CheckingClosed => 2
      case Draining => if s.batch == [] then 3 else 7
      case Waiting => if s.batch == [] then 4 else 6
      case Acknowledging => 4
      case Committing => 5
    else
      match s.pc
      case Exited => 0
      case LastTake => 7
      case CheckingClosed => 8
      case Draining => 7
      case Waiting => 8
      case Acknowledging => 8
      case Committing => 9
  }

  function WritesIn(actions: seq<Action>): nat {
    if actions == [] then 0 else (if actions[0].Write? then 1 else 0) + WritesIn(actions[1..])
  }

  lemma ClosedStepCountsDown(caps: Caps, h: History, a: Action)
    requires Inv(caps, h) && h.pane.queue.closed
    ensures var h' := Next(caps, h, a);
            && h'.pane.queue.closed && h'.log == h.log
            && (a.Write? && h.pane.pc != Exited ==> StepsLeft(h'.pane) < StepsLeft(h.pane))
            && (!a.Write? || h.pane.pc == Exited ==> h'.pane == h.pane)
  {
  }

  // Once the queue is closed the writer exits within nine of its own steps,
  // whatever is interleaved; then nothing is queued or in flight, so every
  // window line reached a commit, a push that raced the close included.
  lemma {:induction false} ClosedWriterExits(caps: Caps, h: History, actions: seq<Action>)
    requires Inv(caps, h) && h.pane.queue.closed
    requires WritesIn(actions) >= StepsLeft(h.pane)
    ensures StepsLeft(h.pane) <= 9
    ensures var h' := Run(caps, h, actions);
            && h'.pane.pc == Exited && h'.pane.queue.lines == [] && h'.pane.batch == []
            && h'.log == h.log
            && forall i :: 0 <= i < |h.log| && InWindow(caps, h.log, i) ==> h.log[i] in h'.pane.rows || h.log[i] in h'.lost
    decreases |actions|
  {
    if actions == [] {
      assert forall i :: 0 <= i < |h.log| && InWindow(caps, h.log, i) ==> Accounted(h, h.log[i]);
    } else {
      ClosedStepCountsDown(caps, h, actions[0]);
      NextKeepsInv(caps, h, actions[0]);
      assert StepsLeft(h.pane) <= 9;
      hide Inv, Next, StepsLeft, InWindow;
      ClosedWriterExits(caps, Next(caps, h, actions[0]), actions[1..]);
    }
  }

  // ── The pane and its writer ────────────────────────────────────────────

  class PaneHistory {
    const queue: LineQueue
    const store: HistoryStore
    // The writer thread's own state.
    var batch: seq<Line>
    var pc: Pc

    ghost predicate Valid()
      reads this, queue, store
    {
      && queue.Valid()
      && queue.windowRows == store.caps.WindowRows() && queue.windowBytes == store.caps.byteCap
      && queue.pending == |queue.lines| + |batch|
    }

    function View(): Pane
      reads this, queue, store
    {
      Pane(queue.View(), store.rows, batch, pc)
    }

    constructor (caps: Caps, rows: seq<Line>)
      ensures Valid() && fresh(queue) && fresh(store)
      ensures store.caps == caps && View() == Opened(0, rows).pane
    {
      queue := new LineQueue(caps.WindowRows(), caps.byteCap);
      store := new HistoryStore(caps, rows);
      batch, pc := [], Draining;
    }

    method Push(num: int, text: string)
      requires Valid()
      modifies queue
      ensures Valid()
      ensures View() == old(View()).(queue := Pushed(old(queue.View()), Line(num, text), store.caps.WindowRows(), store.caps.byteCap))
    {
      NewestFittingIsLongest(queue.lines + [Line(num, text)], queue.windowRows, queue.windowBytes);
      queue.Push(num, text);
    }

    // Commits the batch and, whether that worked or not, trims the store.
    method Commit(failure: Option<nat>, trim: Trim)
      modifies store
      ensures var committed := failure.None? || failure.value > |batch|;
              store.rows == TrimmedBy(if committed then old(store.rows) + batch else old(store.rows), store.caps, trim)
    {
      hide RowTrim, ByteTrim;
      ghost var was := store.rows;
      var committed := store.AppendBatch(batch, failure);
      assert was + [] == was;
      if trim != TrimSkipped {
        store.EnforceRowCap();
      }
      if trim == TrimAll {
        store.EnforceByteCap();
      }
    }

    // One step of the writer thread's loop.
    method Step(failure: Option<nat>, trim: Trim)
      requires Valid()
      modifies this, queue, store
      ensures Valid()
      ensures View() == WriterStep(store.caps, old(View()), failure.None? || failure.value > |old(batch)|, trim)
    {
      hide RowTrim, ByteTrim, TextBytes;
      match pc
      case Draining =>
        var taken := queue.Take();
        batch := batch + taken;
        pc := if |batch| >= FLUSH_ROWS then Committing else if batch == [] then CheckingClosed else Waiting;
      case CheckingClosed =>
        pc := if queue.closed then LastTake else Waiting;
      case LastTake =>
        var taken := queue.Take();
        batch := batch + taken;
        pc := if batch == [] then Exited else Waiting;
      case Waiting =>
        pc := if queue.lines != [] then Draining else if batch == [] then Draining else Committing;
      case Committing =>
        Commit(failure, trim);
        pc := Acknowledging;
      case Acknowledging =>
        queue.Flushed(|batch|);
        batch := [];
        pc := Draining;
      case Exited =>
    }

    // What `flush` answers once it stops waiting.
    method Committed() returns (drained: bool)
      requires Valid()
      ensures drained <==> queue.lines == [] && batch == []
    {
      drained := queue.pending == 0;
    }
  }
}
