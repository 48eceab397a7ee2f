// What holds of one pane over whole runs of its event loop: the captures, the
// chunks and the timer (crates/gpty-core/src/engine.rs).
module PaneRuns {
  import opened Bytes
  import opened Wrappers
  import opened Capture
  import opened TerminalTask

  // ── What a disciplined consumer keeps ──────────────────────────────────

  // A consumer flushes or acknowledges only what it has drained.
  predicate Disciplined(t: Task, e: Event) {
    match e
    case Flush(id) => id in t.drained
    case Acknowledge(id) => id in t.drained
    case _ => true
  }

  ghost predicate DrainedIsPast(t: Task) {
    forall id :: id in t.drained ==> id < t.capture.nextId - |t.capture.sink|
  }

  // What holds besides while the consumer keeps its discipline.
  ghost predicate Linked(t: Task) {
    Coupled(t.capture) && DrainedIsPast(t)
  }

  ghost predicate SameQueue(c: Capture, d: Capture) {
    c.sink == d.sink && c.buffers == d.buffers && c.nextId == d.nextId
  }

  // Matching touches neither the queue nor the store.
  lemma {:induction false} MatchingKeepsQueue(t: Task, matches: seq<Option<Match>>)
    ensures SameQueue(AppliedAll(t, matches).capture, t.capture) && AppliedAll(t, matches).drained == t.drained
    decreases |matches|
  {
    if matches != [] {
      MatchingKeepsQueue(Applied(t, matches[0]), matches[1..]);
    }
  }

  // Apart from the takes an event at most finalizes a capture.
  lemma LinkedThroughFinalize(t: Task, c: Capture, u: Task)
    requires Linked(t) && SameQueue(c, t.capture) && u.drained == t.drained
    requires u.capture == c || u.capture == Finalized(c)
    ensures Linked(u)
  {
    FinalizeKeepsCoupled(c);
    hide Oldest, IsOldest;
  }

  lemma TakeKeepsLinked(t: Task, id: nat, u: Task)
    requires Linked(t) && id in t.drained && id in t.capture.buffers
    requires u.drained == t.drained && u.capture == t.capture.(buffers := t.capture.buffers - {id})
    ensures Linked(u)
  {
    TakeKeepsCoupledIff(t.capture, id);
  }

  lemma OutputKeepsLinked(t: Task, bytes: Str, matches: seq<Option<Match>>, altScreen: bool)
    requires Linked(t)
    ensures Linked(Received(t, bytes, matches, altScreen))
  {
    hide Linked, Finalized;
    var u := Received(t, bytes, matches, altScreen);
    MatchingKeepsQueue(t, matches);
    hide AppliedAll;
    if t.capture.activeName.Some? && !Suppressed(t) {
      LinkedThroughFinalize(t, Buffered(t.capture, Chunk(|t.received|, bytes)), u);
    } else {
      LinkedThroughFinalize(t, u.capture, u);
    }
  }

  lemma LineKeepsLinked(t: Task, stops: bool, matched: Option<Match>)
    requires Linked(t)
    ensures Linked(Applied(t, matched)) && Linked(Stopped(t, t.capture)) && Linked(Applied(Stopped(t, t.capture), matched))
  {
    hide Linked, Finalized;
    var v := Stopped(t, t.capture);
    LinkedThroughFinalize(t, t.capture, v);
    LinkedThroughFinalize(t, Applied(t, matched).capture, Applied(t, matched));
    LinkedThroughFinalize(v, Applied(v, matched).capture, Applied(v, matched));
  }

  // A consumer that takes only what it drained keeps the two structures
  // coupled.
  lemma NextKeepsLinked(t: Task, e: Event)
    requires Linked(t) && Disciplined(t, e)
    ensures Linked(Next(t, e))
  {
    if e.Drain? {
      hide Oldest;
    } else if !t.ended {
      hide Linked, Received, Applied, Finalized, Fed, PromptOf;
      match e
      case Output(dt, bytes, matches, altScreen) =>
        LinkedThroughFinalize(t, t.capture, Waited(t, dt));
        OutputKeepsLinked(Waited(t, dt), bytes, matches, altScreen);
      case Typed(dt, stops, matched) =>
        LinkedThroughFinalize(t, t.capture, Waited(t, dt));
        LineKeepsLinked(Waited(t, dt), stops, matched);
      case Flush(id) =>
        if id in t.capture.buffers { TakeKeepsLinked(t, id, Next(t, e)); }
      case Acknowledge(id) =>
        if id in t.capture.buffers { TakeKeepsLinked(t, id, Next(t, e)); }
      case _ =>
        LinkedThroughFinalize(t, t.capture, Next(t, e));
    }
  }

  // ── A capture has no gaps ──────────────────────────────────────────────

  // Every chunk received between the first and the last of `chunks` is one of
  // them, or was dropped after a resize.
  ghost predicate NoGap(chunks: seq<Chunk>, received: seq<Chunk>, dropped: seq<Chunk>) {
    chunks != [] ==>
      && chunks[|chunks| - 1].serial < |received|
      && forall i :: chunks[0].serial <= i <= chunks[|chunks| - 1].serial ==> received[i] in chunks || received[i] in dropped
  }

  // And every chunk received since the first of `buffer`.
  ghost predicate OpenEnded(buffer: seq<Chunk>, received: seq<Chunk>, dropped: seq<Chunk>) {
    buffer != [] ==> forall i :: buffer[0].serial <= i < |received| ==> received[i] in buffer || received[i] in dropped
  }

  ghost predicate AllGapless(buffers: map<nat, seq<Chunk>>, received: seq<Chunk>, dropped: seq<Chunk>) {
    forall id :: id in buffers ==> NoGap(buffers[id], received, dropped)
  }

  ghost predicate Gapless(t: Task) {
    OpenEnded(t.capture.buffer, t.received, t.dropped) && AllGapless(t.capture.buffers, t.received, t.dropped)
  }

  lemma ReceivingKeepsGapless(buffers: map<nat, seq<Chunk>>, received: seq<Chunk>, dropped: seq<Chunk>, chunk: Chunk)
    requires AllGapless(buffers, received, dropped)
    ensures AllGapless(buffers, received + [chunk], dropped) && AllGapless(buffers, received + [chunk], dropped + [chunk])
  {
    forall id | id in buffers
      ensures NoGap(buffers[id], received + [chunk], dropped) && NoGap(buffers[id], received + [chunk], dropped + [chunk])
    {
      assert NoGap(buffers[id], received, dropped);
    }
  }

  lemma BufferingKeepsOpenEnded(buffer: seq<Chunk>, received: seq<Chunk>, dropped: seq<Chunk>, chunk: Chunk)
    requires OpenEnded(buffer, received, dropped) && chunk.serial == |received|
    ensures OpenEnded(buffer + [chunk], received + [chunk], dropped) && OpenEnded(buffer, received + [chunk], dropped + [chunk])
  {
  }

  lemma FinalizeKeepsGapless(c: Capture, received: seq<Chunk>, dropped: seq<Chunk>)
    requires OpenEnded(c.buffer, received, dropped) && AllGapless(c.buffers, received, dropped)
    requires forall i :: 0 <= i < |c.buffer| ==> c.buffer[i].serial < |received|
    requires c.activeName.None? ==> c.buffer == []
    ensures OpenEnded(Finalized(c).buffer, received, dropped) && AllGapless(Finalized(c).buffers, received, dropped)
  {
    hide Oldest, IsOldest;
  }

  // Matching leaves the buffer alone.
  lemma {:induction false} MatchingKeepsBuffer(t: Task, matches: seq<Option<Match>>)
    ensures AppliedAll(t, matches).capture.buffer == t.capture.buffer && AppliedAll(t, matches).dropped == t.dropped
    decreases |matches|
  {
    if matches != [] {
      MatchingKeepsBuffer(Applied(t, matches[0]), matches[1..]);
    }
  }

  lemma OutputKeepsGapless(t: Task, bytes: Str, matches: seq<Option<Match>>, altScreen: bool)
    requires Sound(t) && Gapless(t)
    ensures Gapless(Received(t, bytes, matches, altScreen))
  {
    var chunk := Chunk(|t.received|, bytes);
    assert Framed(t.capture) && Serialised(t);
    hide Sound, AllGapless, OpenEnded, Finalized, Entry, AppliedAll;
    ReceivingKeepsGapless(t.capture.buffers, t.received, t.dropped, chunk);
    BufferingKeepsOpenEnded(t.capture.buffer, t.received, t.dropped, chunk);
    if t.capture.activeName.Some? {
      if !Suppressed(t) {
        var c := Buffered(t.capture, chunk);
        FinalizeKeepsGapless(c, t.received + [chunk], t.dropped);
      }
    } else {
      MatchingKeepsBuffer(t, matches);
      MatchingKeepsQueue(t, matches);
      ApplyAllKeepsBooks(t, matches);
      NothingIsOpenEnded(t.received + [chunk], t.dropped);
    }
  }

  lemma NothingIsOpenEnded(received: seq<Chunk>, dropped: seq<Chunk>)
    ensures OpenEnded([], received, dropped)
  {
  }

  lemma TakingKeepsGapless(buffers: map<nat, seq<Chunk>>, received: seq<Chunk>, dropped: seq<Chunk>, id: nat)
    requires AllGapless(buffers, received, dropped)
    ensures AllGapless(buffers - {id}, received, dropped)
  {
    hide NoGap;
  }

  // Apart from output and the takes an event at most finalizes a capture.
  lemma GaplessThroughFinalize(t: Task, u: Task)
    requires Sound(t) && Gapless(t) && u.received == t.received && u.dropped == t.dropped
    requires var (c, d) := (u.capture, Finalized(t.capture));
             (c.buffer == t.capture.buffer && c.buffers == t.capture.buffers) || (c.buffer == d.buffer && c.buffers == d.buffers)
    ensures Gapless(u)
  {
    assert Framed(t.capture) && Serialised(t);
    FinalizeKeepsGapless(t.capture, t.received, t.dropped);
    hide Sound, OpenEnded, AllGapless, Finalized, Serialised, Framed;
  }

  lemma MatchKeepsBuffer(t: Task, m: Option<Match>)
    ensures var u := Applied(t, m);
            u.capture.buffer == t.capture.buffer && u.capture.buffers == t.capture.buffers && u.received == t.received && u.dropped == t.dropped
  {
  }

  // What the other events leave alone.
  lemma QuietEvent(t: Task, e: Event)
    requires t.ended || !(e.Output? || e.Flush? || e.Acknowledge?)
    ensures var (u, d) := (Next(t, e), Finalized(t.capture));
            && u.received == t.received && u.dropped == t.dropped
            && ((u.capture.buffer == t.capture.buffer && u.capture.buffers == t.capture.buffers)
                || (u.capture.buffer == d.buffer && u.capture.buffers == d.buffers))
  {
    hide Finalized, Evicted, Published, Fed, PromptOf, Received;
    if e.Typed? {
      MatchKeepsBuffer(Waited(t, e.dt), e.matched);
      MatchKeepsBuffer(Stopped(Waited(t, e.dt), t.capture), e.matched);
      hide Applied;
    }
  }

  lemma NextKeepsGapless(t: Task, e: Event)
    requires Sound(t) && Gapless(t)
    ensures Gapless(Next(t, e))
  {
    if e.Output? && !t.ended {
      WaitKeepsSound(t, e.dt);
      hide Sound, Received;
      OutputKeepsGapless(Waited(t, e.dt), e.bytes, e.matches, e.altScreen);
    } else if (e.Flush? || e.Acknowledge?) && !t.ended {
      hide Sound, OpenEnded, AllGapless, Fed, PromptOf;
      TakingKeepsGapless(t.capture.buffers, t.received, t.dropped, e.id);
    } else {
      hide Sound, Gapless, Finalized, Next;
      QuietEvent(t, e);
      GaplessThroughFinalize(t, Next(t, e));
    }
  }

  lemma OpenedIsGapless(clock: int, parse: Parser)
    ensures Gapless(Opened(clock, parse)) && Booked(Opened(clock, parse))
  {
  }

  lemma {:induction false} RunIsGapless(t: Task, events: seq<Event>)
    requires Sound(t) && Gapless(t)
    ensures Gapless(Run(t, events))
    decreases |events|
  {
    hide Sound, Gapless, Next;
    if events != [] {
      NextKeepsSound(t, events[0]);
      NextKeepsGapless(t, events[0]);
      RunIsGapless(Next(t, events[0]), events[1..]);
    }
  }

  // ── Every event ever queued ────────────────────────────────────────────

  // Events are numbered as they are queued, the queue holds the last of them,
  // and each one's lines are those of the chunks stored under its number, for
  // as long as they are, drained or not.
  ghost predicate Booked(t: Task) {
    var c := t.capture;
    && |t.finished| == c.nextId && (forall i :: 0 <= i < |t.finished| ==> t.finished[i].id == i)
    && |c.sink| <= |t.finished| && c.sink == t.finished[|t.finished| - |c.sink|..]
    && (forall id :: id in c.buffers ==> id < |t.finished| && t.finished[id].lines == Lines(c.parse, c.buffers[id]))
  }

  lemma BookedThroughFinalize(t: Task, c: Capture, u: Task)
    requires Booked(t) && SameQueue(c, t.capture) && c.parse == t.capture.parse && u.capture.parse == c.parse
    requires (SameQueue(u.capture, c) && u.finished == t.finished)
             || (SameQueue(u.capture, Finalized(c)) && u.finished == t.finished + Published(c))
    ensures Booked(u)
  {
    hide Lines, PushBounded, Oldest, IsOldest;
    if c.activeName.Some? {
      PushKeepsEnd(c.sink, t.finished, EventOf(c));
      RoomyKeeps(c.buffers);
      hide Roomy;
    }
  }

  lemma PushKeepsEnd(sink: seq<CapturedOutput>, finished: seq<CapturedOutput>, event: CapturedOutput)
    requires |sink| <= |finished| && sink == finished[|finished| - |sink|..]
    ensures var (sink', finished') := (PushBounded(sink, event), finished + [event]);
            |sink'| <= |finished'| && sink' == finished'[|finished'| - |sink'|..]
  {
    var n := |finished| - |sink|;
    assert (finished + [event])[n..] == sink + [event];
    assert sink != [] ==> (finished + [event])[n + 1..] == sink[1..] + [event];
  }

  lemma RoomyKeeps(m: map<nat, seq<Chunk>>)
    ensures forall id :: id in Roomy(m) ==> id in m && Roomy(m)[id] == m[id]
  {
  }

  lemma MatchKeepsBook(t: Task, m: Option<Match>)
    ensures var u := Applied(t, m);
            SameQueue(u.capture, t.capture) && u.capture.parse == t.capture.parse && u.finished == t.finished
  {
  }

  lemma {:induction false} MatchingKeepsBook(t: Task, matches: seq<Option<Match>>)
    ensures var u := AppliedAll(t, matches);
            SameQueue(u.capture, t.capture) && u.capture.parse == t.capture.parse && u.finished == t.finished
    decreases |matches|
  {
    hide Applied;
    if matches != [] {
      MatchKeepsBook(t, matches[0]);
      MatchingKeepsBook(Applied(t, matches[0]), matches[1..]);
    }
  }

  lemma OutputKeepsBook(t: Task, bytes: Str, matches: seq<Option<Match>>, altScreen: bool)
    requires Booked(t)
    ensures Booked(Received(t, bytes, matches, altScreen))
  {
    var u := Received(t, bytes, matches, altScreen);
    FinalizedKeepsParser(Buffered(t.capture, Chunk(|t.received|, bytes)));
    MatchingKeepsBook(t, matches);
    hide Booked, Finalized, Published, Entry, AppliedAll, Evicted;
    if t.capture.activeName.Some? && !Suppressed(t) {
      BookedThroughFinalize(t, Buffered(t.capture, Chunk(|t.received|, bytes)), u);
    } else {
      BookedThroughFinalize(t, t.capture, u);
    }
  }

  lemma FinalizedKeepsParser(c: Capture)
    ensures Finalized(c).parse == c.parse
  {
    hide Oldest, Lines;
  }

  lemma TypedKeepsBook(t: Task, matched: Option<Match>)
    requires Booked(t)
    ensures Booked(Applied(t, matched)) && Booked(Stopped(t, t.capture)) && Booked(Applied(Stopped(t, t.capture), matched))
  {
    var v := Stopped(t, t.capture);
    FinalizedKeepsParser(t.capture);
    hide Booked, Finalized, Published, Evicted;
    BookedThroughFinalize(t, t.capture, v);
    MatchKeepsBook(t, matched);
    MatchKeepsBook(v, matched);
    hide Applied;
    BookedThroughFinalize(t, t.capture, Applied(t, matched));
    BookedThroughFinalize(v, v.capture, Applied(v, matched));
  }

  lemma NextKeepsBooked(t: Task, e: Event)
    requires Booked(t)
    ensures Booked(Next(t, e))
  {
    FinalizedKeepsParser(t.capture);
    hide Finalized, Published, Evicted, Received, Applied, Fed, PromptOf, Lines;
    if t.ended || e.Drain? || e.Flush? || e.Acknowledge? {
    } else {
      hide Booked;
      match e
      case Output(dt, bytes, matches, altScreen) =>
        BookedThroughFinalize(t, t.capture, Waited(t, dt));
        OutputKeepsBook(Waited(t, dt), bytes, matches, altScreen);
      case Typed(dt, stops, matched) =>
        BookedThroughFinalize(t, t.capture, Waited(t, dt));
        TypedKeepsBook(Waited(t, dt), matched);
      case _ =>
        BookedThroughFinalize(t, t.capture, Next(t, e));
    }
  }

  lemma {:induction false} RunIsBooked(t: Task, events: seq<Event>)
    requires Booked(t)
    ensures Booked(Run(t, events))
    decreases |events|
  {
    hide Booked, Next;
    if events != [] {
      NextKeepsBooked(t, events[0]);
      RunIsBooked(Next(t, events[0]), events[1..]);
    }
  }

  // ── Whole runs ─────────────────────────────────────────────────────────

  lemma OpenedIsSound(clock: int, parse: Parser)
    ensures Sound(Opened(clock, parse)) && Linked(Opened(clock, parse))
  {
    assert Size([]) == 0 by { SizeOfNothing(); }
  }

  // The task after `events`.
  ghost function Run(t: Task, events: seq<Event>): Task
    decreases |events|
  {
    if events == [] then t else Run(Next(t, events[0]), events[1..])
  }

  // Whether the consumer kept its discipline throughout.
  ghost predicate DisciplinedRun(t: Task, events: seq<Event>)
    decreases |events|
  {
    events == [] || (Disciplined(t, events[0]) && DisciplinedRun(Next(t, events[0]), events[1..]))
  }

  lemma {:induction false} RunIsSound(t: Task, events: seq<Event>)
    requires Sound(t)
    ensures Sound(Run(t, events))
    ensures Linked(t) && DisciplinedRun(t, events) ==> Linked(Run(t, events))
    decreases |events|
  {
    hide Sound, Linked, Next, Disciplined;
    if events != [] {
      NextKeepsSound(t, events[0]);
      RunIsSound(Next(t, events[0]), events[1..]);
      if Linked(t) && DisciplinedRun(t, events) {
        NextKeepsLinked(t, events[0]);
      }
    }
  }

  // Over every run both structures stay bounded and the pane queue holds
  // exactly the most recent finished ids; and while the consumer flushes and
  // acknowledges only what it drained, each of those still has its raw chunks.
  lemma QueueAndStoreStayCoupled(clock: int, parse: Parser, events: seq<Event>)
    ensures var c := Run(Opened(clock, parse), events).capture;
            && |c.sink| <= MAX_BUFFERED_CAPTURES && |c.buffers| <= MAX_BUFFERED_CAPTURES && |c.sink| <= c.nextId
            && (forall i :: 0 <= i < |c.sink| ==> c.sink[i].id == c.nextId - |c.sink| + i)
            && (DisciplinedRun(Opened(clock, parse), events) ==> forall i :: 0 <= i < |c.sink| ==> c.sink[i].id in c.buffers)
  {
    OpenedIsSound(clock, parse);
    RunIsSound(Opened(clock, parse), events);
    hide Run, DisciplinedRun, Conserved, Opened, Stored;
  }

  // How often `chunk` was shown, is stored or buffered, was acknowledged,
  // dropped after a resize, or evicted.
  function Fates(t: Task, chunk: Chunk): nat {
    Shown(t.grid)[chunk] + Content(t.capture)[chunk] + multiset(t.acknowledged)[chunk]
    + multiset(t.dropped)[chunk] + multiset(t.evicted)[chunk]
  }

  // Over every run each chunk received has exactly one fate.
  lemma EveryChunkHasOneFate(clock: int, parse: Parser, events: seq<Event>, i: nat)
    requires i < |Run(Opened(clock, parse), events).received|
    ensures var t := Run(Opened(clock, parse), events); Fates(t, t.received[i]) == 1
  {
    OpenedIsSound(clock, parse);
    RunIsSound(Opened(clock, parse), events);
    var t := Run(Opened(clock, parse), events);
    hide Run, Inv, Shown, Content;
    SerialsAreUnique(t.received, i);
  }

  lemma SerialsAreUnique(chunks: seq<Chunk>, i: nat)
    requires i < |chunks| && forall j :: 0 <= j < |chunks| ==> chunks[j].serial == j
    ensures multiset(chunks)[chunks[i]] == 1
  {
    assert chunks == chunks[..i] + [chunks[i]] + chunks[i + 1..];
    assert chunks[i] !in chunks[..i] && chunks[i] !in chunks[i + 1..];
  }

  // Over every run a flush puts the whole capture on the grid, in the order
  // it arrived: of the chunks received between its first and its last, it
  // lacks only those dropped after a resize. The lines it stores are those of
  // the one event queued under that number, whether it was drained or not.
  lemma FlushShowsTheCapture(clock: int, parse: Parser, events: seq<Event>, id: nat)
    requires !Run(Opened(clock, parse), events).ended && id in Run(Opened(clock, parse), events).capture.buffers
    ensures var t := Run(Opened(clock, parse), events);
            var chunks := t.capture.buffers[id];
            var shown := Fed(t.capture.parse, chunks);
            && Next(t, Flush(id)).grid == t.grid + shown
            && Shown(shown) == multiset(chunks) && NoGap(chunks, t.received, t.dropped)
            && Ascending(chunks) && Sized(chunks)
            && (forall k :: 0 <= k < |chunks| ==> chunks[k] in multiset(t.received))
            && id < |t.finished| && t.finished[id].id == id && History(shown) == t.finished[id].lines
  {
    OpenedIsSound(clock, parse);
    OpenedIsGapless(clock, parse);
    hide Run, Opened, Sound, Gapless, Booked, Next, Fed, Shown, History, NoGap, Ascending, Sized;
    RunIsSound(Opened(clock, parse), events);
    RunIsGapless(Opened(clock, parse), events);
    RunIsBooked(Opened(clock, parse), events);
    StoredCaptureIsWhole(Run(Opened(clock, parse), events), id);
  }

  lemma StoredCaptureIsWhole(t: Task, id: nat)
    requires Sound(t) && Gapless(t) && Booked(t) && !t.ended && id in t.capture.buffers
    ensures var chunks := t.capture.buffers[id];
            var shown := Fed(t.capture.parse, chunks);
            && Next(t, Flush(id)).grid == t.grid + shown
            && Shown(shown) == multiset(chunks) && NoGap(chunks, t.received, t.dropped)
            && Ascending(chunks) && Sized(chunks)
            && (forall k :: 0 <= k < |chunks| ==> chunks[k] in multiset(t.received))
            && id < |t.finished| && t.finished[id].id == id && History(shown) == t.finished[id].lines
  {
    hide Sound, Gapless, Fed, Shown, History, NoGap, Lines, Sized, Ascending;
    ShownFed(t.capture.parse, t.capture.buffers[id]);
    StoredFacts(t, id);
  }

  lemma StoredFacts(t: Task, id: nat)
    requires Sound(t) && Gapless(t) && id in t.capture.buffers
    ensures var chunks := t.capture.buffers[id];
            && NoGap(chunks, t.received, t.dropped) && Ascending(chunks) && Sized(chunks)
            && (forall k :: 0 <= k < |chunks| ==> chunks[k] in multiset(t.received))
  {
    hide Conserved, Sized, Ascending, NoGap, OpenEnded, Lines, Bounded, Framed, Timed, Serialised;
    StoredWereReceived(t, id);
  }

  // Over every run the pane queue is the end of that book, so the event a
  // drain hands out under a number is the one the book has under it.
  lemma QueueEndsTheBook(clock: int, parse: Parser, events: seq<Event>)
    ensures var t := Run(Opened(clock, parse), events);
            && (forall i :: 0 <= i < |t.finished| ==> t.finished[i].id == i)
            && |t.capture.sink| <= |t.finished| && t.capture.sink == t.finished[|t.finished| - |t.capture.sink|..]
            && (forall i :: 0 <= i < |t.capture.sink| ==>
                  t.capture.sink[i].id < |t.finished| && t.capture.sink[i] == t.finished[t.capture.sink[i].id])
  {
    OpenedIsGapless(clock, parse);
    hide Run, Opened, Lines;
    RunIsBooked(Opened(clock, parse), events);
  }

  // Over every run an active capture is the one the timer is armed for; an
  // inactive session has nothing buffered and no deadline; and no finished
  // capture passes the cap by more than its last chunk.
  lemma TimerIsArmedForTheCapture(clock: int, parse: Parser, events: seq<Event>)
    ensures var t := Run(Opened(clock, parse), events);
            var c := t.capture;
            && (c.activeName.Some? && !t.ended ==> c.deadline == Some(t.timer) && c.bytes <= MAX_CAPTURE_BYTES)
            && (c.activeName.None? ==> c.buffer == [] && c.bytes == 0 && c.deadline.None?)
            && c.bytes == Size(c.buffer)
            && (forall id :: id in c.buffers ==> Sized(c.buffers[id]) && Ascending(c.buffers[id]))
  {
    OpenedIsSound(clock, parse);
    RunIsSound(Opened(clock, parse), events);
    hide Run, Opened, Conserved, Bounded;
    SizeOfNothing();
  }

  lemma StoredWereReceived(t: Task, id: nat)
    requires Conserved(t) && Bounded(t.capture) && id in t.capture.buffers
    ensures forall k :: 0 <= k < |t.capture.buffers[id]| ==> t.capture.buffers[id][k] in multiset(t.received)
  {
    hide Shown, Content;
    var chunks := t.capture.buffers[id];
    TakeKeepsContent(t.capture, id);
    forall k | 0 <= k < |chunks|
      ensures chunks[k] in multiset(t.received)
    {
      assert chunks[k] in multiset(chunks);
      assert chunks[k] in Content(t.capture);
    }
  }
}
