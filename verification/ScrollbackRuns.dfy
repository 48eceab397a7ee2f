// What a failed commit and a close mean over whole runs of a pane's write path
// (crates/gpty-core/src/history.rs, `spawn_writer`).
module ScrollbackRuns {
  import opened HistoryQueue
  import opened Retention
  import opened ScrollbackWriter

  // ── Failed commits ─────────────────────────────────────────────────────

  // A line that went down with a failed commit is nowhere in the write path.
  ghost predicate Gone(h: History) {
    Apart(h.lost, Everything(h.pane))
  }

  ghost predicate Apart(xs: seq<Line>, ys: seq<Line>) {
    forall i, j :: 0 <= i < |xs| && 0 <= j < |ys| ==> xs[i].num != ys[j].num
  }

  ghost predicate LostIsPast(h: History) {
    forall i :: 0 <= i < |h.lost| ==> h.lost[i].num < h.base + |h.log|
  }

  // Everything the write path holds is part of what it held, but for the line
  // just pushed.
  ghost predicate Within(xs: seq<Line>, ys: seq<Line>) {
    forall i :: 0 <= i < |xs| ==> xs[i] in ys
  }

  lemma LessIsGone(h: History, h': History)
    requires Gone(h) && LostIsPast(h) && h'.lost == h.lost && h'.base == h.base && |h'.log| >= |h.log|
    requires Within(Everything(h'.pane), Everything(h.pane) + h'.log[|h.log|..])
    requires forall i :: |h.log| <= i < |h'.log| ==> h'.log[i].num == h.base + i
    ensures Gone(h') && LostIsPast(h')
  {
    hide Everything;
    var (xs, ys) := (Everything(h'.pane), Everything(h.pane) + h'.log[|h.log|..]);
    forall i, j | 0 <= i < |h'.lost| && 0 <= j < |xs| ensures h'.lost[i].num != xs[j].num {
      assert xs[j] in ys;
      var k :| 0 <= k < |ys| && ys[k] == xs[j];
      if k >= |Everything(h.pane)| {
        var m := |h.log| + (k - |Everything(h.pane)|);
        assert ys[k] == h'.log[m];
      }
    }
  }

  // A push keeps what it does not drop.
  lemma PushWithin(caps: Caps, h: History, text: string)
    requires Inv(caps, h)
    ensures var h' := Next(caps, h, Push(text)); Within(Everything(h'.pane), Everything(h.pane) + h'.log[|h.log|..])
  {
    var line := Line(h.base + |h.log|, text);
    assert |h.pane.queue.lines| <= h.pane.queue.pending;
    var h' := Next(caps, h, Push(text));
    hide Inv, Within, Pushed, Everything;
    PushedPart(h.pane.queue, line, caps.WindowRows(), caps.byteCap);
    if h.pane.queue.closed {
      SameIsWithin(h);
      assert h' == h;
    } else {
      assert h'.log[|h.log|..] == [line];
      KeptWithin(h.pane, line, h'.pane);
    }
  }

  lemma PushedPart(q: Queue, line: Line, rows: nat, bytes: nat)
    requires |q.lines| <= q.pending
    ensures var (all, kept) := (q.lines + [line], Pushed(q, line, rows, bytes).lines);
            if q.closed then Pushed(q, line, rows, bytes) == q else |kept| <= |all| && kept == all[|all| - |kept|..]
  {
    hide NewestFitting;
    NewestFittingIsLongest(q.lines + [line], rows, bytes);
  }

  lemma KeptWithin(s: Pane, line: Line, s': Pane)
    requires s'.rows == s.rows && s'.batch == s.batch && s'.pc == s.pc
    requires var all := s.queue.lines + [line];
             |s'.queue.lines| <= |all| && s'.queue.lines == all[|all| - |s'.queue.lines|..]
    ensures Within(Everything(s'), Everything(s) + [line])
  {
    var (front, all, kept) := (s.rows + Held(s), s.queue.lines + [line], s'.queue.lines);
    assert Held(s') == Held(s);
    hide Held;
    assert Everything(s) + [line] == front + all && Everything(s') == front + kept;
    var cut := |all| - |kept|;
    assert forall i :: 0 <= i < |front + kept| ==> (front + kept)[i] == (front + all)[if i < |front| then i else i + cut];
  }

  // A step of the writer takes nothing in, and a commit that fails leaves the
  // batch nowhere.
  lemma WriteGone(caps: Caps, h: History, committed: bool, trim: Trim)
    requires Inv(caps, h) && Gone(h) && LostIsPast(h)
    ensures var h' := Next(caps, h, Write(committed, trim)); Gone(h') && LostIsPast(h')
  {
    var h' := Next(caps, h, Write(committed, trim));
    assert h'.log == h.log && |h.pane.queue.lines| <= caps.WindowRows() && Counted(caps, h.pane);
    SameIsWithin(h);
    if h.pane.pc == Committing {
      CommitGone(caps, h, committed, trim);
    } else {
      hide Inv, TrimmedBy, Gone, LostIsPast, Within;
      MoveKeepsEverything(caps, h.pane, committed, trim);
      hide Everything, Counted, WriterStep;
      LessIsGone(h, h');
    }
  }

  lemma SameIsWithin(h: History)
    ensures Within(Everything(h.pane), Everything(h.pane) + h.log[|h.log|..])
  {
    hide Everything;
    assert Everything(h.pane) + h.log[|h.log|..] == Everything(h.pane);
  }

  lemma CommitGone(caps: Caps, h: History, committed: bool, trim: Trim)
    requires Ordered(h) && h.pane.pc == Committing && |h.pane.queue.lines| <= h.pane.queue.pending && Gone(h) && LostIsPast(h)
    ensures var h' := Next(caps, h, Write(committed, trim)); Gone(h') && LostIsPast(h')
  {
    var h' := Next(caps, h, Write(committed, trim));
    var xs := Stored(h.pane, committed);
    AroundCommit(caps, h.pane, committed, trim);
    AscendingPart(Everything(h.pane), |xs|);
    hide TrimmedBy, FromLog, Gone, LostIsPast, Within, Stored, Everything, Ascending;
    var k := TrimIsSuffix(xs, caps, trim);
    if committed {
      CutWithin(h, xs, k, h');
      LessIsGone(h, h');
    } else {
      StoredWhenFailed(h.pane);
      BatchGone(h, k, h');
    }
  }

  lemma AroundCommit(caps: Caps, s: Pane, committed: bool, trim: Trim)
    requires s.pc == Committing
    ensures var (xs, t) := (Stored(s, committed), WriterStep(caps, s, committed, trim));
            && |xs| <= |Everything(s)| && xs == Everything(s)[..|xs|]
            && (committed ==> Everything(s) == xs + s.queue.lines)
            && Everything(t) == TrimmedBy(xs, caps, trim) + s.queue.lines
  {
    hide TrimmedBy;
  }

  lemma AscendingPart(xs: seq<Line>, n: nat)
    requires Ascending(xs) && n <= |xs|
    ensures Ascending(xs[..n])
  {
  }

  lemma StoredWhenFailed(s: Pane)
    ensures Stored(s, false) == s.rows
  {
  }

  lemma CutWithin(h: History, xs: seq<Line>, k: nat, h': History)
    requires k <= |xs| && Everything(h.pane) == xs + h.pane.queue.lines && h'.log == h.log
    requires Everything(h'.pane) == xs[k..] + h.pane.queue.lines
    ensures Within(Everything(h'.pane), Everything(h.pane) + h'.log[|h.log|..])
  {
    var (a, b) := (Everything(h.pane), Everything(h'.pane));
    hide Everything;
    assert a + h'.log[|h.log|..] == a;
    assert forall i :: 0 <= i < |b| ==> b[i] == a[i + k];
  }

  lemma BatchGone(h: History, k: nat, h': History)
    requires Ordered(h) && Gone(h) && LostIsPast(h) && h.pane.pc == Committing && k <= |h.pane.rows|
    requires h'.lost == h.lost + h.pane.batch && h'.base == h.base && h'.log == h.log
    requires Everything(h'.pane) == h.pane.rows[k..] + h.pane.queue.lines
    ensures Gone(h') && LostIsPast(h')
  {
    var (rows, batch, queued) := (h.pane.rows, h.pane.batch, h.pane.queue.lines);
    BatchIsPast(h);
    assert Everything(h.pane) == rows + batch + queued;
    hide Everything, FromLog, Apart, Ascending;
    MiddleIsApart(rows, batch, queued);
    ApartFromParts(h.lost, rows + batch, queued);
    ApartFromParts(h.lost, rows, batch);
    ApartFromBoth(h.lost, batch, rows);
    ApartFromBoth(h.lost, batch, queued);
    assert rows == rows[..k] + rows[k..];
    ApartFromParts(h'.lost, rows[..k], rows[k..]);
    ApartFromConcat(h'.lost, rows[k..], queued);
  }

  lemma MiddleIsApart(a: seq<Line>, b: seq<Line>, c: seq<Line>)
    requires Ascending(a + b + c)
    ensures Apart(b, a) && Apart(b, c)
  {
    var all := a + b + c;
    assert forall i :: 0 <= i < |b| ==> all[|a| + i] == b[i];
    assert forall i :: 0 <= i < |a| ==> all[i] == a[i];
    assert forall i :: 0 <= i < |c| ==> all[|a| + |b| + i] == c[i];
  }

  lemma ApartFromParts(xs: seq<Line>, a: seq<Line>, b: seq<Line>)
    requires Apart(xs, a + b)
    ensures Apart(xs, a) && Apart(xs, b)
  {
    assert forall i :: 0 <= i < |a| ==> (a + b)[i] == a[i];
    assert forall i :: 0 <= i < |b| ==> (a + b)[|a| + i] == b[i];
  }

  lemma ApartFromConcat(xs: seq<Line>, a: seq<Line>, b: seq<Line>)
    requires Apart(xs, a) && Apart(xs, b)
    ensures Apart(xs, a + b)
  {
  }

  lemma ApartFromBoth(xs: seq<Line>, ys: seq<Line>, a: seq<Line>)
    requires Apart(xs, a) && Apart(ys, a)
    ensures Apart(xs + ys, a)
  {
  }

  lemma BatchIsPast(h: History)
    requires Ordered(h) && h.pane.pc == Committing
    ensures forall i :: 0 <= i < |h.pane.batch| ==> h.pane.batch[i].num < h.base + |h.log|
  {
    var (n, all) := (|h.pane.rows|, Everything(h.pane));
    assert all == h.pane.rows + h.pane.batch + h.pane.queue.lines;
    hide Everything, Ascending;
    assert forall i :: 0 <= i < |h.pane.batch| ==> h.pane.batch[i] == all[n + i];
  }

  lemma NextKeepsGone(caps: Caps, h: History, a: Action)
    requires Inv(caps, h) && Gone(h) && LostIsPast(h)
    ensures Gone(Next(caps, h, a)) && LostIsPast(Next(caps, h, a))
  {
    match a
    case Push(text) =>
      PushWithin(caps, h, text);
      NextKeepsInv(caps, h, a);
      hide QueueIsNewest, WindowSurvives, Counted, Ordered, Gone, LostIsPast, Everything, Within;
      LessIsGone(h, Next(caps, h, a));
    case Close =>
    case Write(committed, trim) =>
      hide Inv, Gone, LostIsPast;
      WriteGone(caps, h, committed, trim);
  }

  lemma {:induction false} RunKeepsGone(caps: Caps, h: History, actions: seq<Action>)
    requires Inv(caps, h) && Gone(h) && LostIsPast(h)
    ensures Gone(Run(caps, h, actions)) && LostIsPast(Run(caps, h, actions))
    decreases |actions|
  {
    assert |h.pane.queue.lines| <= h.pane.queue.pending;
    hide Inv, Next, Gone, LostIsPast;
    if actions != [] {
      NextKeepsInv(caps, h, actions[0]);
      NextKeepsGone(caps, h, actions[0]);
      RunKeepsGone(caps, Next(caps, h, actions[0]), actions[1..]);
    }
  }

  // Over every interleaving what went down with a failed commit is neither
  // stored nor held: the store has only lines whose commit went through.
  lemma LostIsNotStored(caps: Caps, base: int, rows: seq<Line>, actions: seq<Action>, x: Line)
    requires Restored(base, rows) && x in Session(caps, base, rows, actions).lost
    ensures var s := Session(caps, base, rows, actions).pane;
            x !in s.rows && x !in s.queue.lines && (s.pc != Acknowledging ==> x !in s.batch)
  {
    OpenedIsFine(caps, base, rows);
    RunKeepsGone(caps, Opened(base, rows), actions);
    var h := Session(caps, base, rows, actions);
    hide Run, Inv;
    var i :| 0 <= i < |h.lost| && h.lost[i] == x;
    assert x !in Everything(h.pane);
  }

  // ── Closing ────────────────────────────────────────────────────────────

  // Over every interleaving a close is for good, and nothing is accepted after.
  lemma {:induction false} ClosedForGood(caps: Caps, h: History, actions: seq<Action>)
    requires Inv(caps, h) && (h.pane.queue.closed || Close in actions)
    ensures Run(caps, h, actions).pane.queue.closed
    ensures h.pane.queue.closed ==> Run(caps, h, actions).log == h.log
    decreases |actions|
  {
    if actions != [] {
      NextKeepsInv(caps, h, actions[0]);
      CloseCloses(caps, h, actions[0]);
      assert |h.pane.queue.lines| <= h.pane.queue.pending;
      assert Close in actions ==> actions[0] == Close || Close in actions[1..];
      hide Inv, Next;
      ClosedForGood(caps, Next(caps, h, actions[0]), actions[1..]);
    }
  }

  lemma CloseCloses(caps: Caps, h: History, a: Action)
    requires Inv(caps, h)
    ensures var h' := Next(caps, h, a);
            && (a.Close? || h.pane.queue.closed ==> h'.pane.queue.closed)
            && (h.pane.queue.closed ==> h'.log == h.log)
            && (a.Close? ==> h'.log == h.log && h'.pane.queue.lines == h.pane.queue.lines && h'.pane.rows == h.pane.rows && h'.pane.batch == h.pane.batch)
  {
    assert |h.pane.queue.lines| <= h.pane.queue.pending;
    hide Inv, TrimmedBy, NewestFitting;
  }
}
