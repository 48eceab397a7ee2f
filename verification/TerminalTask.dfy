// The event loop that drives one pane's capture
// (crates/gpty-core/src/engine.rs, `run_terminal_task`, `apply_match` and
// `handle_command`), one arm of its select per event.
//
// Time is an integer in milliseconds; an event says how much of it passes
// before the arm runs. Concept matching, the alternate-screen test and the
// grid are the interface: an event carries the match verdicts, and what the
// grid is fed and given to store is a log. The line parser is the parameter of
// module Capture; the pane's own parser reads every chunk received.
module TerminalTask {
  import opened Wrappers
  import opened Bytes
  import opened Capture

  const INACTIVE_DURATION: nat := 86400 * 365 * 1000
  const POST_RESIZE_CONCEPT_SUPPRESS_MS: nat := 750
  const MAX_NOTICES: nat := 64

  datatype Match = Notify(name: string) | UntilStop(name: string, target: string, timeoutMs: nat)

  // What the grid was fed: a whole PTY chunk, or bytes of the task's own; and
  // the lines it was given for its history.
  datatype GridOp = Whole(chunk: Chunk) | Raw(bytes: Str) | Line(line: string)

  datatype Event =
    | Timeout(dt: nat)
    | Output(dt: nat, bytes: Str, matches: seq<Option<Match>>, altScreen: bool)
    | Typed(dt: nat, stops: bool, matched: Option<Match>)
    | Keys(dt: nat, stops: bool)
    | Resize(dt: nat)
    | Flush(id: nat)
    | Acknowledge(id: nat)
    | Drain
    | Exit

  // The task, with the books the model keeps: every chunk received, and the
  // chunks acknowledged, dropped after a resize, or evicted; and every capture
  // event ever queued.
  datatype Task = Task(
    capture: Capture, clock: int, timer: int, suppressUntil: Option<int>, notices: seq<string>, grid: seq<GridOp>,
    ended: bool, drained: set<nat>,
    received: seq<Chunk>, acknowledged: seq<Chunk>, dropped: seq<Chunk>, evicted: seq<Chunk>,
    finished: seq<CapturedOutput>)

  function Opened(clock: int, parse: Parser): Task {
    Task(Empty(parse), clock, clock + INACTIVE_DURATION, None, [], [], false, {}, [], [], [], [], [])
  }

  function Waited(t: Task, dt: nat): Task {
    t.(clock := t.clock + dt)
  }

  predicate Suppressed(t: Task) {
    t.suppressUntil.Some? && t.clock < t.suppressUntil.value
  }

  // `finalize`, with the timer put out of the way.
  ghost function Stopped(t: Task, c: Capture): Task {
    t.(capture := Finalized(c), evicted := t.evicted + Evicted(c), finished := t.finished + Published(c),
       timer := t.clock + INACTIVE_DURATION)
  }

  function Noticed(notices: seq<string>, name: string): seq<string> {
    (if |notices| >= MAX_NOTICES then notices[1..] else notices) + [name]
  }

  // `apply_match` and the timer reset its caller does.
  function Applied(t: Task, m: Option<Match>): Task {
    if m.None? then t
    else
      match m.value
      case Notify(name) => t.(notices := Noticed(t.notices, name))
      case UntilStop(name, target, timeoutMs) =>
        if t.capture.activeName.Some? then t
        else
          var deadline := t.clock + timeoutMs;
          t.(capture := Begun(t.capture, name, target, deadline), timer := deadline)
  }

  function AppliedAll(t: Task, matches: seq<Option<Match>>): Task
    decreases |matches|
  {
    if matches == [] then t else AppliedAll(Applied(t, matches[0]), matches[1..])
  }

  // One PTY chunk.
  ghost function Received(t: Task, bytes: Str, matches: seq<Option<Match>>, altScreen: bool): Task {
    var chunk := Chunk(|t.received|, bytes);
    var u := t.(received := t.received + [chunk]);
    if t.capture.activeName.Some? then
      if Suppressed(t) then u.(dropped := u.dropped + [chunk])
      else
        var c := Buffered(t.capture, chunk);
        if IsOver(c, t.clock) then Stopped(u, c)
        else u.(capture := c, timer := if c.deadline.Some? then c.deadline.value else u.timer)
    else
      var v := if altScreen || Suppressed(t) then t else AppliedAll(t, matches);
      v.(grid := v.grid + Entry(t.capture.parse, t.received, chunk), received := v.received + [chunk])
  }

  function Kept(lines: seq<string>): seq<GridOp> {
    seq(|lines|, i requires 0 <= i < |lines| => Line(lines[i]))
  }

  // One chunk shown, and the lines it completes stored.
  function Entry(parse: Parser, before: seq<Chunk>, chunk: Chunk): seq<GridOp> {
    [Whole(chunk)] + Kept(parse(before, chunk))
  }

  // A capture shown through a parser of its own.
  function Fed(parse: Parser, chunks: seq<Chunk>): seq<GridOp> {
    if chunks == [] then []
    else var n := |chunks| - 1; Fed(parse, chunks[..n]) + Entry(parse, chunks[..n], chunks[n])
  }

  // The lines the grid was given, in order.
  function History(grid: seq<GridOp>): seq<string> {
    if grid == [] then []
    else History(grid[..|grid| - 1]) + (if grid[|grid| - 1].Line? then [grid[|grid| - 1].line] else [])
  }

  function AllBytes(chunks: seq<Chunk>): Str {
    if chunks == [] then [] else AllBytes(chunks[..|chunks| - 1]) + chunks[|chunks| - 1].bytes
  }

  // The position after the last line feed, or nothing when there is none.
  function AfterLastFeed(s: Str): Option<nat> {
    if s == [] then None
    else if s[|s| - 1] == LF then Some(|s|)
    else AfterLastFeed(s[..|s| - 1])
  }

  // Discarding a capture still shows the prompt it ended with.
  function PromptOf(chunks: seq<Chunk>): seq<GridOp> {
    var bytes := AllBytes(chunks);
    match AfterLastFeed(bytes)
    case Some(at) => if at <= |bytes| && bytes[at..] != [] then [Raw([CR, LF]), Raw(bytes[at..])] else []
    case None => [Raw([CR, LF]), Raw(bytes)]
  }

  ghost function Next(t: Task, e: Event): Task {
    if e.Drain? then
      t.(capture := t.capture.(sink := []), drained := t.drained + set i | 0 <= i < |t.capture.sink| :: t.capture.sink[i].id)
    else if t.ended then t
    else
      match e
      case Timeout(dt) =>
        var u := Waited(t, dt);
        if u.clock < u.timer then u else Stopped(u, u.capture)
      case Output(dt, bytes, matches, altScreen) => Received(Waited(t, dt), bytes, matches, altScreen)
      case Typed(dt, stops, matched) =>
        var u := Waited(t, dt);
        var v := if u.capture.activeName.Some? && stops then Stopped(u, u.capture) else u;
        if v.capture.activeName.None? then Applied(v, matched) else v
      case Keys(dt, stops) =>
        var u := Waited(t, dt);
        if u.capture.activeName.Some? && stops then Stopped(u, u.capture) else u
      case Resize(dt) =>
        var u := Waited(t, dt);
        u.(suppressUntil := Some(u.clock + POST_RESIZE_CONCEPT_SUPPRESS_MS))
      case Flush(id) =>
        if id !in t.capture.buffers then t
        else t.(grid := t.grid + Fed(t.capture.parse, t.capture.buffers[id]), capture := t.capture.(buffers := t.capture.buffers - {id}))
      case Acknowledge(id) =>
        if id !in t.capture.buffers then t
        else t.(grid := t.grid + PromptOf(t.capture.buffers[id]),
                acknowledged := t.acknowledged + t.capture.buffers[id],
                capture := t.capture.(buffers := t.capture.buffers - {id}))
      case Exit =>
        t.(ended := true, capture := Finalized(t.capture), evicted := t.evicted + Evicted(t.capture),
           finished := t.finished + Published(t.capture))
  }

  // ── What holds after every event ───────────────────────────────────────

  // While a capture is active the timer is armed at that capture's deadline,
  // and the capture has not outgrown its cap.
  ghost predicate Timed(t: Task) {
    t.capture.activeName.Some? && !t.ended ==>
      t.capture.deadline == Some(t.timer) && t.capture.bytes <= MAX_CAPTURE_BYTES
  }

  ghost predicate Serialised(t: Task) {
    && (forall i :: 0 <= i < |t.received| ==> t.received[i].serial == i)
    && (forall i :: 0 <= i < |t.capture.buffer| ==> t.capture.buffer[i].serial < |t.received|)
  }

  // The chunks the grid was fed whole.
  function Shown(grid: seq<GridOp>): multiset<Chunk> {
    if grid == [] then multiset{}
    else Shown(grid[..|grid| - 1]) + (if grid[|grid| - 1].Whole? then multiset{grid[|grid| - 1].chunk} else multiset{})
  }

  // Every chunk received is in exactly one place.
  ghost predicate Conserved(t: Task) {
    multiset(t.received)
    == Shown(t.grid) + Content(t.capture) + multiset(t.acknowledged) + multiset(t.dropped) + multiset(t.evicted)
  }

  ghost predicate Sound(t: Task) {
    Inv(t.capture) && Timed(t) && Serialised(t) && Conserved(t)
  }

  lemma {:induction false} ShownConcat(a: seq<GridOp>, b: seq<GridOp>)
    ensures Shown(a + b) == Shown(a) + Shown(b)
  {
    if b == [] {
      assert a + b == a;
    } else {
      assert (a + b)[..|a + b| - 1] == a + b[..|b| - 1];
      ShownConcat(a, b[..|b| - 1]);
    }
  }

  lemma {:induction false} HistoryConcat(a: seq<GridOp>, b: seq<GridOp>)
    ensures History(a + b) == History(a) + History(b)
  {
    if b == [] {
      assert a + b == a;
    } else {
      assert (a + b)[..|a + b| - 1] == a + b[..|b| - 1];
      HistoryConcat(a, b[..|b| - 1]);
    }
  }

  lemma {:induction false} KeptLines(lines: seq<string>)
    ensures Shown(Kept(lines)) == multiset{} && History(Kept(lines)) == lines
  {
    if lines != [] {
      var n := |lines| - 1;
      assert Kept(lines)[..n] == Kept(lines[..n]);
      KeptLines(lines[..n]);
    }
  }

  lemma OneShown(chunk: Chunk)
    ensures Shown([Whole(chunk)]) == multiset{chunk} && History([Whole(chunk)]) == []
  {
    var ops: seq<GridOp> := [Whole(chunk)];
    assert ops[..|ops| - 1] == [];
    assert History(ops) == History(ops[..|ops| - 1]) + [];
  }

  // One entry shows its chunk once and stores its lines.
  lemma EntryShows(parse: Parser, before: seq<Chunk>, chunk: Chunk)
    ensures Shown(Entry(parse, before, chunk)) == multiset{chunk}
    ensures History(Entry(parse, before, chunk)) == parse(before, chunk)
  {
    var lines := parse(before, chunk);
    KeptLines(lines);
    OneShown(chunk);
    hide Shown, History, Kept;
    ShownConcat([Whole(chunk)], Kept(lines));
    HistoryConcat([Whole(chunk)], Kept(lines));
  }

  lemma {:induction false} ShownFed(parse: Parser, chunks: seq<Chunk>)
    ensures Shown(Fed(parse, chunks)) == multiset(chunks)
    ensures History(Fed(parse, chunks)) == Lines(parse, chunks)
  {
    if chunks != [] {
      var n := |chunks| - 1;
      assert Fed(parse, chunks) == Fed(parse, chunks[..n]) + Entry(parse, chunks[..n], chunks[n]);
      assert Lines(parse, chunks) == Lines(parse, chunks[..n]) + parse(chunks[..n], chunks[n]);
      hide Entry, Fed, Lines;
      ShownFed(parse, chunks[..n]);
      EntryShows(parse, chunks[..n], chunks[n]);
      hide Shown, History;
      ShownConcat(Fed(parse, chunks[..n]), Entry(parse, chunks[..n], chunks[n]));
      HistoryConcat(Fed(parse, chunks[..n]), Entry(parse, chunks[..n], chunks[n]));
      assert chunks == chunks[..n] + [chunks[n]];
    }
  }

  lemma ShownPrompt(chunks: seq<Chunk>)
    ensures Shown(PromptOf(chunks)) == multiset{}
  {
    hide AllBytes, AfterLastFeed;
    var ops := PromptOf(chunks);
    if ops != [] {
      assert ops[..1][..0] == [];
      assert Shown(ops[..1]) == multiset{};
    }
  }

  // Ending a capture, by whichever arm.
  lemma StopKeepsSound(t: Task, c: Capture)
    requires Inv(c) && Serialised(t) && c.activeName.Some?
    requires Conserved(t.(capture := c))
    ensures Sound(Stopped(t, c))
  {
    hide Oldest, Stored, Content, Shown;
    FinalizeKeepsInv(c);
    FinalizeKeepsContent(c);
  }

  lemma BeginKeepsSound(t: Task, m: Option<Match>)
    requires Sound(t) && !t.ended
    ensures Sound(Applied(t, m)) && !Applied(t, m).ended
    ensures Applied(t, m).grid == t.grid && Applied(t, m).received == t.received && Applied(t, m).capture.parse == t.capture.parse
  {
    if m.Some? && m.value.UntilStop? && t.capture.activeName.None? {
      BegunKeepsInv(t.capture, m.value.name, m.value.target, t.clock + m.value.timeoutMs);
    }
    hide Inv, Content, Shown;
  }

  lemma BegunKeepsInv(c: Capture, name: string, target: string, deadline: int)
    requires Inv(c) && c.activeName.None?
    ensures var d := Begun(c, name, target, deadline);
            && Inv(d) && Content(d) == Content(c) && d.buffer == c.buffer && c.bytes == 0
  {
    SizeOfNothing();
    hide Size, ChunksBelow, Lines;
  }

  lemma {:induction false} BeginAllKeepsSound(t: Task, matches: seq<Option<Match>>)
    requires Sound(t) && !t.ended
    ensures Sound(AppliedAll(t, matches)) && !AppliedAll(t, matches).ended
    ensures AppliedAll(t, matches).grid == t.grid && AppliedAll(t, matches).received == t.received
    ensures AppliedAll(t, matches).capture.parse == t.capture.parse
    decreases |matches|
  {
    hide Sound, Applied;
    if matches != [] {
      BeginKeepsSound(t, matches[0]);
      BeginAllKeepsSound(Applied(t, matches[0]), matches[1..]);
    }
  }

  lemma BufferedConserves(t: Task, chunk: Chunk)
    requires Conserved(t)
    ensures Conserved(t.(received := t.received + [chunk], capture := Buffered(t.capture, chunk)))
  {
    hide Shown, ChunksBelow;
    var c := t.capture;
    assert multiset(c.buffer + [chunk]) == multiset(c.buffer) + multiset{chunk};
    assert Content(Buffered(c, chunk)) == Content(c) + multiset{chunk};
    hide Content;
    assert multiset(t.received + [chunk]) == multiset(t.received) + multiset{chunk};
  }

  lemma BufferedStaysSerialised(t: Task, bytes: Str)
    requires Serialised(t)
    ensures var chunk := Chunk(|t.received|, bytes);
            Serialised(t.(received := t.received + [chunk], capture := Buffered(t.capture, chunk)))
  {
  }

  // A chunk the capture buffers.
  lemma BufferedKeepsSound(t: Task, bytes: Str)
    requires Sound(t) && !t.ended && t.capture.activeName.Some? && !Suppressed(t)
    ensures Sound(Received(t, bytes, [], false)) && !Received(t, bytes, [], false).ended
  {
    var chunk := Chunk(|t.received|, bytes);
    var c := Buffered(t.capture, chunk);
    var u := t.(received := t.received + [chunk]);
    BufferKeepsInv(t.capture, chunk);
    BufferedConserves(t, chunk);
    BufferedStaysSerialised(t, bytes);
    assert c.deadline == Some(t.timer);
    hide Inv, Conserved, Serialised;
    if IsOver(c, t.clock) {
      StopKeepsSound(u, c);
    } else {
      KeepRunningIsSound(u.(capture := c, timer := t.timer));
    }
  }

  lemma KeepRunningIsSound(t: Task)
    requires Inv(t.capture) && Conserved(t) && Serialised(t)
    requires t.capture.deadline == Some(t.timer) && t.capture.bytes <= MAX_CAPTURE_BYTES
    ensures Sound(t)
  {
    hide Inv, Conserved, Serialised;
  }

  // A chunk that goes straight to the grid, or is dropped.
  lemma PlacedKeepsSound(t: Task, chunk: Chunk)
    requires Sound(t) && chunk.serial == |t.received|
    ensures Sound(t.(received := t.received + [chunk], grid := t.grid + Entry(t.capture.parse, t.received, chunk)))
    ensures Sound(t.(received := t.received + [chunk], dropped := t.dropped + [chunk]))
  {
    hide Inv, Entry;
    PlacedConserves(t, chunk);
    PlacedStaysSerialised(t, chunk);
    hide Conserved, Serialised;
  }

  lemma PlacedStaysSerialised(t: Task, chunk: Chunk)
    requires Serialised(t) && chunk.serial == |t.received|
    ensures Serialised(t.(received := t.received + [chunk]))
  {
  }

  lemma PlacedConserves(t: Task, chunk: Chunk)
    requires Conserved(t)
    ensures Conserved(t.(received := t.received + [chunk], grid := t.grid + Entry(t.capture.parse, t.received, chunk)))
    ensures Conserved(t.(received := t.received + [chunk], dropped := t.dropped + [chunk]))
  {
    hide Shown, Content, Entry;
    EntryShows(t.capture.parse, t.received, chunk);
    ShownConcat(t.grid, Entry(t.capture.parse, t.received, chunk));
    assert multiset(t.received + [chunk]) == multiset(t.received) + multiset{chunk};
    assert multiset(t.dropped + [chunk]) == multiset(t.dropped) + multiset{chunk};
  }

  lemma ReceivedKeepsSound(t: Task, bytes: Str, matches: seq<Option<Match>>, altScreen: bool)
    requires Sound(t) && !t.ended
    ensures Sound(Received(t, bytes, matches, altScreen)) && !Received(t, bytes, matches, altScreen).ended
  {
    hide Sound, AppliedAll;
    var chunk := Chunk(|t.received|, bytes);
    if t.capture.activeName.Some? {
      if Suppressed(t) {
        PlacedKeepsSound(t, chunk);
      } else {
        BufferedKeepsSound(t, bytes);
      }
    } else if altScreen || Suppressed(t) {
      PlacedKeepsSound(t, chunk);
    } else {
      BeginAllKeepsSound(t, matches);
      PlacedKeepsSound(AppliedAll(t, matches), chunk);
    }
  }

  // A capture leaving the chunk store, by a flush or an acknowledgement.
  lemma TakenKeepsInv(c: Capture, id: nat)
    requires Inv(c) && id in c.buffers
    ensures Inv(c.(buffers := c.buffers - {id}))
  {
    RemovalShrinks(c.buffers, id);
    hide Size;
  }

  // Taking out a capture whose chunks are shown whole, or acknowledged.
  lemma TakeConserves(t: Task, id: nat, ops: seq<GridOp>, acknowledged: seq<Chunk>)
    requires Conserved(t) && Bounded(t.capture) && id in t.capture.buffers
    requires Shown(ops) + multiset(acknowledged) == multiset(t.capture.buffers[id])
    ensures Conserved(t.(grid := t.grid + ops, acknowledged := t.acknowledged + acknowledged,
                         capture := t.capture.(buffers := t.capture.buffers - {id})))
  {
    hide Shown, Content;
    TakeKeepsContent(t.capture, id);
    ShownConcat(t.grid, ops);
    assert multiset(t.acknowledged + acknowledged) == multiset(t.acknowledged) + multiset(acknowledged);
  }

  lemma TakeKeepsSound(t: Task, id: nat, ops: seq<GridOp>, acknowledged: seq<Chunk>)
    requires Sound(t) && id in t.capture.buffers
    requires Shown(ops) + multiset(acknowledged) == multiset(t.capture.buffers[id])
    ensures Sound(t.(grid := t.grid + ops, acknowledged := t.acknowledged + acknowledged,
                     capture := t.capture.(buffers := t.capture.buffers - {id})))
  {
    hide Shown, Conserved;
    TakeConserves(t, id, ops, acknowledged);
    TakenKeepsInv(t.capture, id);
    hide Inv;
  }

  lemma FlushKeepsSound(t: Task, id: nat)
    requires Sound(t) && id in t.capture.buffers
    ensures Sound(t.(grid := t.grid + Fed(t.capture.parse, t.capture.buffers[id]), capture := t.capture.(buffers := t.capture.buffers - {id})))
  {
    hide Sound, Shown, Fed;
    ShownFed(t.capture.parse, t.capture.buffers[id]);
    TakeKeepsSound(t, id, Fed(t.capture.parse, t.capture.buffers[id]), []);
    assert t.acknowledged + [] == t.acknowledged;
  }

  lemma AcknowledgeKeepsSound(t: Task, id: nat)
    requires Sound(t) && id in t.capture.buffers
    ensures Sound(t.(grid := t.grid + PromptOf(t.capture.buffers[id]),
                     acknowledged := t.acknowledged + t.capture.buffers[id],
                     capture := t.capture.(buffers := t.capture.buffers - {id})))
  {
    hide Sound, Shown, PromptOf;
    ShownPrompt(t.capture.buffers[id]);
    TakeKeepsSound(t, id, PromptOf(t.capture.buffers[id]), t.capture.buffers[id]);
  }

  lemma DrainKeepsSound(t: Task)
    requires Sound(t)
    ensures Sound(Next(t, Drain))
  {
    hide Shown, Oldest, ChunksBelow, Size;
  }

  lemma ExitKeepsSound(t: Task)
    requires Sound(t) && !t.ended
    ensures Sound(Next(t, Exit))
  {
    hide Shown, Oldest, ChunksBelow, Content, Stored;
    FinalizeKeepsInv(t.capture);
    FinalizeKeepsContent(t.capture);
  }

  lemma WaitKeepsSound(t: Task, dt: nat)
    requires Sound(t)
    ensures Sound(Waited(t, dt))
  {
    hide Inv, Shown, Content;
  }

  // The timer re-armed far away while nothing is captured.
  lemma IdleStopKeepsSound(t: Task)
    requires Sound(t)
    ensures Sound(Stopped(t, t.capture))
  {
    if t.capture.activeName.Some? {
      StopKeepsSound(t, t.capture);
    } else {
      hide Inv, Shown, Content;
      assert t.evicted + [] == t.evicted;
    }
  }

  lemma LineKeepsSound(t: Task, stops: bool, matched: Option<Match>)
    requires Sound(t) && !t.ended
    ensures Sound(Next(t, Typed(0, stops, matched)))
  {
    hide Sound, Applied, Finalized, Evicted;
    WaitKeepsSound(t, 0);
    var u := Waited(t, 0);
    IdleStopKeepsSound(u);
    BeginKeepsSound(u, matched);
    BeginKeepsSound(Stopped(u, u.capture), matched);
  }

  lemma NextKeepsSound(t: Task, e: Event)
    requires Sound(t)
    ensures Sound(Next(t, e))
  {
    hide Sound, Received, Applied, Stopped, Fed, PromptOf, Finalized, Evicted;
    if e.Drain? {
      DrainKeepsSound(t);
    } else if !t.ended {
      match e
      case Timeout(dt) =>
        WaitKeepsSound(t, dt);
        IdleStopKeepsSound(Waited(t, dt));
      case Output(dt, bytes, matches, altScreen) =>
        WaitKeepsSound(t, dt);
        ReceivedKeepsSound(Waited(t, dt), bytes, matches, altScreen);
      case Typed(dt, stops, matched) =>
        WaitKeepsSound(t, dt);
        LineKeepsSound(Waited(t, dt), stops, matched);
      case Keys(dt, stops) =>
        WaitKeepsSound(t, dt);
        IdleStopKeepsSound(Waited(t, dt));
      case Resize(dt) =>
        WaitKeepsSound(t, dt);
        SuppressKeepsSound(Waited(t, dt));
      case Flush(id) =>
        if id in t.capture.buffers { FlushKeepsSound(t, id); }
      case Acknowledge(id) =>
        if id in t.capture.buffers { AcknowledgeKeepsSound(t, id); }
      case Exit => ExitKeepsSound(t);
    }
  }

  lemma SuppressKeepsSound(t: Task)
    requires Sound(t)
    ensures Sound(t.(suppressUntil := Some(t.clock + POST_RESIZE_CONCEPT_SUPPRESS_MS)))
  {
    hide Inv, Shown, Content;
  }

  lemma {:induction false} ApplyAllKeepsBooks(t: Task, matches: seq<Option<Match>>)
    ensures AppliedAll(t, matches).received == t.received && AppliedAll(t, matches).grid == t.grid
    ensures AppliedAll(t, matches).capture.parse == t.capture.parse
    decreases |matches|
  {
    if matches != [] {
      ApplyAllKeepsBooks(Applied(t, matches[0]), matches[1..]);
    }
  }

  // ── The task itself ────────────────────────────────────────────────────

  class TerminalTask {
    const session: CaptureState
    var clock: int
    var timer: int
    var suppressUntil: Option<int>
    var notices: seq<string>
    var grid: seq<GridOp>
    var ended: bool
    ghost var drained: set<nat>
    // What the pane's own line parser has read.
    var received: seq<Chunk>
    ghost var acknowledged: seq<Chunk>
    ghost var dropped: seq<Chunk>
    ghost var evicted: seq<Chunk>
    ghost var finished: seq<CapturedOutput>

    constructor (clock: int, parse: Parser)
      ensures View() == Opened(clock, parse) && fresh(session)
    {
      session := new CaptureState(parse);
      this.clock, timer, suppressUntil := clock, clock + INACTIVE_DURATION, None;
      notices, grid, ended := [], [], false;
      drained, received, acknowledged, dropped, evicted, finished := {}, [], [], [], [], [];
    }

    ghost function View(): Task
      reads this, session
    {
      Task(session.View(), clock, timer, suppressUntil, notices, grid, ended, drained, received, acknowledged, dropped, evicted, finished)
    }

    method Stop()
      modifies this`timer, this`evicted, this`finished, session
      ensures View() == Stopped(old(View()), old(View()).capture)
    {
      hide Finalized, Evicted, Published;
      evicted, finished := evicted + Evicted(session.View()), finished + Published(session.View());
      session.Finalize();
      timer := clock + INACTIVE_DURATION;
    }

    method Apply(m: Option<Match>)
      modifies this`timer, this`notices, session
      ensures View() == Applied(old(View()), m)
    {
      if m.Some? {
        match m.value
        case Notify(name) =>
          notices := Noticed(notices, name);
        case UntilStop(name, target, timeoutMs) =>
          if session.activeName.None? {
            var deadline := clock + timeoutMs;
            session.Begin(name, target, deadline);
            timer := deadline;
          }
      }
    }

    method OnTimeout(dt: nat)
      requires !ended
      modifies this, session
      ensures View() == Next(old(View()), Timeout(dt))
    {
      hide Stopped;
      clock := clock + dt;
      if clock >= timer {
        Stop();
      }
    }

    method OnOutput(dt: nat, bytes: Str, matches: seq<Option<Match>>, altScreen: bool)
      requires !ended
      modifies this, session
      ensures View() == Next(old(View()), Output(dt, bytes, matches, altScreen))
    {
      hide Received;
      clock := clock + dt;
      if session.activeName.Some? {
        Withhold(bytes, matches, altScreen);
      } else {
        Show(bytes, matches, altScreen);
      }
    }

    // Output while a capture is active: it is kept from the grid.
    method Withhold(bytes: Str, matches: seq<Option<Match>>, altScreen: bool)
      requires session.activeName.Some?
      modifies this, session
      ensures View() == Received(old(View()), bytes, matches, altScreen)
    {
      hide Stopped, AppliedAll, IsOver;
      var chunk := Chunk(|received|, bytes);
      received := received + [chunk];
      if suppressUntil.Some? && clock < suppressUntil.value {
        dropped := dropped + [chunk];
      } else {
        Buffer(chunk);
      }
    }

    // Output in normal mode: match it, then show it.
    method Show(bytes: Str, matches: seq<Option<Match>>, altScreen: bool)
      requires session.activeName.None?
      modifies this, session
      ensures View() == Received(old(View()), bytes, matches, altScreen)
    {
      hide Stopped, AppliedAll;
      var chunk := Chunk(|received|, bytes);
      var lines := session.parse(received, chunk);
      if !altScreen && !(suppressUntil.Some? && clock < suppressUntil.value) {
        ApplyAll(matches);
      }
      ApplyAllKeepsBooks(old(View()), matches);
      received := received + [chunk];
      FeedGrid(chunk, lines);
    }

    // Shows a chunk and stores the lines it completed.
    method FeedGrid(chunk: Chunk, lines: seq<string>)
      modifies this`grid
      ensures grid == old(grid) + ([Whole(chunk)] + Kept(lines))
    {
      grid := grid + [Whole(chunk)];
      assert Kept(lines[..0]) == [];
      for i := 0 to |lines|
        invariant grid == old(grid) + ([Whole(chunk)] + Kept(lines[..i]))
      {
        assert Kept(lines[..i + 1]) == Kept(lines[..i]) + [Line(lines[i])];
        grid := grid + [Line(lines[i])];
      }
      assert lines[..|lines|] == lines;
    }

    method Buffer(chunk: Chunk)
      requires session.activeName.Some?
      modifies this`timer, this`evicted, this`finished, session
      ensures var c := Buffered(old(View()).capture, chunk);
              View() == if IsOver(c, clock) then Stopped(old(View()), c)
                        else old(View()).(capture := c, timer := if c.deadline.Some? then c.deadline.value else old(timer))
    {
      hide Finalized, Evicted, Published;
      ghost var c := Buffered(session.View(), chunk);
      var finalized := session.FeedOutput(chunk, clock);
      if finalized {
        evicted, finished := evicted + Evicted(c), finished + Published(c);
        timer := clock + INACTIVE_DURATION;
      } else if session.deadline.Some? {
        timer := session.deadline.value;
      }
    }

    method ApplyAll(matches: seq<Option<Match>>)
      modifies this`timer, this`notices, session
      ensures View() == AppliedAll(old(View()), matches)
    {
      hide Applied;
      assert matches[0..] == matches;
      for i := 0 to |matches|
        invariant AppliedAll(View(), matches[i..]) == AppliedAll(old(View()), matches)
        invariant clock == old(clock) && suppressUntil == old(suppressUntil) && grid == old(grid) && ended == old(ended)
        invariant drained == old(drained) && received == old(received) && acknowledged == old(acknowledged)
        invariant dropped == old(dropped) && evicted == old(evicted) && finished == old(finished)
      {
        assert matches[i..][1..] == matches[i + 1..];
        Apply(matches[i]);
      }
    }

    method OnLine(dt: nat, stops: bool, matched: Option<Match>)
      requires !ended
      modifies this, session
      ensures View() == Next(old(View()), Typed(dt, stops, matched))
    {
      hide Stopped, Applied;
      clock := clock + dt;
      if session.activeName.Some? && stops {
        Stop();
      }
      if session.activeName.None? {
        Apply(matched);
      }
    }

    method OnKeys(dt: nat, stops: bool)
      requires !ended
      modifies this, session
      ensures View() == Next(old(View()), Keys(dt, stops))
    {
      hide Stopped;
      clock := clock + dt;
      if session.activeName.Some? && stops {
        Stop();
      }
    }

    method OnResize(dt: nat)
      requires !ended
      modifies this
      ensures View() == Next(old(View()), Resize(dt))
    {
      clock := clock + dt;
      suppressUntil := Some(clock + POST_RESIZE_CONCEPT_SUPPRESS_MS);
    }

    method OnFlush(id: nat)
      requires !ended
      modifies this, session
      ensures View() == Next(old(View()), Flush(id))
    {
      hide Finalized, Entry;
      var chunks := session.TakeChunks(id);
      if chunks.Some? {
        Replay(chunks.value);
      } else {
        assert old(session.buffers) - {id} == old(session.buffers);
      }
    }

    // Shows a capture through a parser of its own.
    method Replay(chunks: seq<Chunk>)
      modifies this`grid
      ensures grid == old(grid) + Fed(session.parse, chunks)
    {
      assert chunks[..0] == [];
      for i := 0 to |chunks|
        invariant grid == old(grid) + Fed(session.parse, chunks[..i])
      {
        assert chunks[..i + 1][..i] == chunks[..i];
        FeedGrid(chunks[i], session.parse(chunks[..i], chunks[i]));
      }
      assert chunks[..|chunks|] == chunks;
    }

    method OnAcknowledge(id: nat)
      requires !ended
      modifies this, session
      ensures View() == Next(old(View()), Acknowledge(id))
    {
      hide Finalized, PromptOf;
      var chunks := session.TakeChunks(id);
      if chunks.Some? {
        grid := grid + PromptOf(chunks.value);
        acknowledged := acknowledged + chunks.value;
      } else {
        assert old(session.buffers) - {id} == old(session.buffers);
      }
    }

    // The loop is over: whatever is still captured is finished.
    method OnExit()
      requires !ended
      modifies this, session
      ensures View() == Next(old(View()), Exit)
    {
      hide Finalized, Evicted, Published;
      ended := true;
      evicted, finished := evicted + Evicted(session.View()), finished + Published(session.View());
      session.Finalize();
    }
  }
}
