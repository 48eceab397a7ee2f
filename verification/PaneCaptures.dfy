// When a capture begins and ends over whole runs of one pane's event loop,
// what it is called meanwhile, and what is told of it
// (crates/gpty-core/src/engine.rs).
//
// The conditions speak of the events of the run and of the time that passed,
// not of the arms that handle them.
module PaneCaptures {
  import opened Bytes
  import opened Wrappers
  import opened Capture
  import opened TerminalTask
  import opened PaneRuns

  // ── Time and resizes, from the events alone ────────────────────────────

  // The time that passes before the event's arm runs.
  function Wait(e: Event): nat {
    match e
    case Timeout(dt) => dt
    case Output(dt, _, _, _) => dt
    case Typed(dt, _, _) => dt
    case Keys(dt, _) => dt
    case Resize(dt) => dt
    case _ => 0
  }

  function Elapsed(events: seq<Event>): nat {
    if events == [] then 0 else Elapsed(events[..|events| - 1]) + Wait(events[|events| - 1])
  }

  // `wait` later some resize of the run is less than 750 ms past.
  ghost predicate Repainting(events: seq<Event>, wait: nat) {
    exists i :: 0 <= i < |events| && events[i].Resize? && Elapsed(events) + wait < Elapsed(events[..i + 1]) + 750
  }

  // The task after `events`, and where its last resize left it.
  ghost predicate Clocked(clock: int, events: seq<Event>, t: Task) {
    && t.clock == clock + Elapsed(events)
    && (t.suppressUntil.None? ==> forall i :: 0 <= i < |events| ==> !events[i].Resize?)
    && (t.suppressUntil.Some? ==> exists i: nat :: LastResize(clock, events, t.suppressUntil.value, i))
  }

  ghost predicate LastResize(clock: int, events: seq<Event>, until: int, i: nat) {
    && i < |events| && events[i].Resize? && until == clock + Elapsed(events[..i + 1]) + 750
    && forall j :: i < j < |events| ==> !events[j].Resize?
  }

  lemma ElapsedSnoc(events: seq<Event>, e: Event)
    ensures Elapsed(events + [e]) == Elapsed(events) + Wait(e)
    ensures forall i :: 0 <= i <= |events| ==> (events + [e])[..i] == events[..i]
  {
    assert (events + [e])[..|events|] == events;
  }

  lemma {:induction false} ElapsedGrows(events: seq<Event>, i: nat, j: nat)
    requires i <= j <= |events|
    ensures Elapsed(events[..i]) <= Elapsed(events[..j])
    decreases j
  {
    if i < j {
      ElapsedGrows(events, i, j - 1);
      assert events[..j][..j - 1] == events[..j - 1];
    }
  }

  lemma {:induction false} RunSnoc(t: Task, events: seq<Event>, e: Event)
    ensures Run(t, events + [e]) == Next(Run(t, events), e)
    decreases |events|
  {
    hide Next;
    if events == [] {
      assert [] + [e] == [e] && [e][1..] == [];
    } else {
      assert (events + [e])[1..] == events[1..] + [e];
      RunSnoc(Next(t, events[0]), events[1..], e);
    }
  }

  // An event moves the clock by its wait, and only a resize opens a window.
  lemma EventTakesItsTime(t: Task, e: Event)
    requires !t.ended
    ensures Next(t, e).clock == t.clock + Wait(e)
    ensures Next(t, e).suppressUntil == if e.Resize? then Some(t.clock + Wait(e) + 750) else t.suppressUntil
  {
    hide Finalized, Evicted, Published, Fed, PromptOf, Entry, AppliedAll, IsOver;
    if e.Output? {
      MatchingTakesNoTime(Waited(t, e.dt), e.matches);
    }
  }

  lemma {:induction false} MatchingTakesNoTime(t: Task, matches: seq<Option<Match>>)
    ensures AppliedAll(t, matches).clock == t.clock && AppliedAll(t, matches).suppressUntil == t.suppressUntil
    decreases |matches|
  {
    if matches != [] {
      MatchingTakesNoTime(Applied(t, matches[0]), matches[1..]);
    }
  }

  lemma EndedStays(t: Task, e: Event)
    requires t.ended
    ensures Next(t, e).ended
  {
  }

  lemma {:induction false} RunIsClocked(clock: int, parse: Parser, events: seq<Event>)
    requires !Run(Opened(clock, parse), events).ended
    ensures Clocked(clock, events, Run(Opened(clock, parse), events))
    decreases |events|
  {
    var t0 := Opened(clock, parse);
    if events != [] {
      var n := |events| - 1;
      var (before, e) := (events[..n], events[n]);
      assert events == before + [e];
      RunSnoc(t0, before, e);
      hide Run, Next;
      var t := Run(t0, before);
      if t.ended { EndedStays(t, e); }
      RunIsClocked(clock, parse, before);
      EventTakesItsTime(t, e);
      ElapsedSnoc(before, e);
      ResizeIsLast(clock, before, t, e, Next(t, e));
    }
  }

  lemma ResizeIsLast(clock: int, before: seq<Event>, t: Task, e: Event, u: Task)
    requires Clocked(clock, before, t) && u.clock == t.clock + Wait(e)
    requires u.suppressUntil == if e.Resize? then Some(t.clock + Wait(e) + 750) else t.suppressUntil
    ensures Clocked(clock, before + [e], u)
  {
    var events := before + [e];
    ElapsedSnoc(before, e);
    hide Elapsed, Wait;
    if e.Resize? {
      assert events[..|before| + 1] == events;
      assert LastResize(clock, events, u.suppressUntil.value, |before|);
    } else if t.suppressUntil.Some? {
      var i: nat :| LastResize(clock, before, t.suppressUntil.value, i);
      assert LastResize(clock, events, u.suppressUntil.value, i);
    }
  }

  // The window is open exactly while the run says so.
  lemma SuppressedIff(clock: int, events: seq<Event>, t: Task, wait: nat)
    requires Clocked(clock, events, t)
    ensures Suppressed(Waited(t, wait)) <==> Repainting(events, wait)
  {
    hide Elapsed;
    if t.suppressUntil.Some? {
      var i: nat :| LastResize(clock, events, t.suppressUntil.value, i);
      if j :| 0 <= j < |events| && events[j].Resize? && Elapsed(events) + wait < Elapsed(events[..j + 1]) + 750 {
        ElapsedGrows(events, j + 1, i + 1);
      }
    }
  }

  // A drain marks every event it takes as drained.
  lemma DrainMarksAll(t: Task, id: nat)
    ensures id in Next(t, Drain).drained <==> id in t.drained || exists e :: e in t.capture.sink && e.id == id
  {
    if e :| e in t.capture.sink && e.id == id {
      var i :| 0 <= i < |t.capture.sink| && t.capture.sink[i] == e;
      assert t.capture.sink[i].id in Next(t, Drain).drained;
    }
  }

  // ── What a capture begins and ends with ────────────────────────────────

  // The verdicts an event brings in: those of a typed line while nothing is
  // captured or once it has stopped the capture, and those of output that is
  // shown, neither on the alternate screen nor right after a resize.
  ghost function Verdicts(active: bool, events: seq<Event>, e: Event): seq<Option<Match>> {
    match e
    case Typed(_, stops, matched) => if active && !stops then [] else [matched]
    case Output(dt, _, matches, altScreen) => if active || altScreen || Repainting(events, dt) then [] else matches
    case _ => []
  }

  // Verdict `k` is the first that starts a capture.
  predicate Begins(verdicts: seq<Option<Match>>, k: nat) {
    && k < |verdicts| && verdicts[k].Some? && verdicts[k].value.UntilStop?
    && forall j :: 0 <= j < k ==> !(verdicts[j].Some? && verdicts[j].value.UntilStop?)
  }

  // The names the verdicts give notice of, in order.
  function Named(verdicts: seq<Option<Match>>): seq<string> {
    if verdicts == [] then []
    else
      var n := |verdicts| - 1;
      Named(verdicts[..n]) + (if verdicts[n].Some? && verdicts[n].value.Notify? then [verdicts[n].value.name] else [])
  }

  // The last 64.
  function Latest<T>(names: seq<T>): seq<T> {
    if |names| <= 64 then names else names[|names| - 64..]
  }

  // What ends the active capture: its own deadline, its cap, a keystroke that
  // stops it, or the end of the task.
  ghost predicate EndsCapture(t: Task, events: seq<Event>, e: Event) {
    && t.capture.activeName.Some?
    && match e
       case Timeout(dt) => t.capture.deadline.Some? && t.clock + dt >= t.capture.deadline.value
       case Output(dt, bytes, _, _) =>
         && !Repainting(events, dt)
         && (Size(t.capture.buffer) + |bytes| > 4 * 1024 * 1024 || (t.capture.deadline.Some? && t.clock + dt >= t.capture.deadline.value))
       case Typed(_, stops, _) => stops
       case Keys(_, stops) => stops
       case Exit => true
       case _ => false
  }

  // The capture under way, if any: its name, its target and its deadline.
  ghost predicate Under(c: Capture, name: string, target: string, deadline: int) {
    c.activeName == Some(name) && c.activeTarget == Some(target) && c.deadline == Some(deadline)
  }

  ghost predicate Idle(c: Capture) {
    c.activeName.None? && c.activeTarget.None? && c.deadline.None?
  }

  ghost predicate SameCapture(c: Capture, d: Capture) {
    c.activeName == d.activeName && c.activeTarget == d.activeTarget && c.deadline == d.deadline
  }

  // The verdicts were heard at `now` with nothing captured before.
  ghost predicate Started(verdicts: seq<Option<Match>>, now: int, u: Task) {
    && (u.capture.activeName.Some? <==> exists k: nat :: Begins(verdicts, k))
    && (u.capture.activeName.None? ==> Idle(u.capture))
    && (forall k: nat :: Begins(verdicts, k) ==>
          var (m, at) := (verdicts[k].value, now + verdicts[k].value.timeoutMs);
          Under(u.capture, m.name, m.target, at) && u.timer == at)
  }

  lemma {:induction false} NamedConcat(a: seq<Option<Match>>, b: seq<Option<Match>>)
    ensures Named(a + b) == Named(a) + Named(b)
  {
    if b == [] {
      assert a + b == a;
    } else {
      assert (a + b)[..|a + b| - 1] == a + b[..|b| - 1];
      NamedConcat(a, b[..|b| - 1]);
    }
  }

  lemma NamedOne(m: Option<Match>)
    ensures Named([m]) == if m.Some? && m.value.Notify? then [m.value.name] else []
  {
    assert [m][..0] == [];
  }

  lemma LatestOfLatest(a: seq<string>, b: seq<string>)
    ensures Latest(Latest(a) + b) == Latest(a + b)
  {
    if |a| > 64 {
      assert (a[|a| - 64..] + b)[|b|..] == (a + b)[|a + b| - 64..];
    }
  }

  // A match adds its notice, whatever is captured.
  lemma MatchNotices(t: Task, m: Option<Match>)
    requires |t.notices| <= 64
    ensures Applied(t, m).notices == Latest(t.notices + Named([m])) && |Applied(t, m).notices| <= 64
  {
    NamedOne(m);
    hide Named;
    assert t.notices + [] == t.notices;
  }

  lemma {:induction false} MatchesNotice(t: Task, matches: seq<Option<Match>>)
    requires |t.notices| <= 64
    ensures AppliedAll(t, matches).notices == Latest(t.notices + Named(matches))
    decreases |matches|
  {
    hide Applied, Named, Latest;
    if matches == [] {
      NothingNamed(t.notices);
    } else {
      MatchNotices(t, matches[0]);
      MatchesNotice(Applied(t, matches[0]), matches[1..]);
      assert matches == [matches[0]] + matches[1..];
      NamedConcat([matches[0]], matches[1..]);
      LatestOfLatest(t.notices + Named([matches[0]]), Named(matches[1..]));
      assert t.notices + Named([matches[0]]) + Named(matches[1..]) == t.notices + Named(matches);
    }
  }

  lemma NothingNamed(notices: seq<string>)
    requires |notices| <= 64
    ensures Latest(notices + Named([])) == notices
  {
    assert notices + [] == notices;
  }

  // A capture under way is left alone.
  lemma {:induction false} MatchesKeepCapture(t: Task, matches: seq<Option<Match>>)
    requires t.capture.activeName.Some?
    ensures AppliedAll(t, matches).capture == t.capture && AppliedAll(t, matches).timer == t.timer
    decreases |matches|
  {
    if matches != [] {
      MatchesKeepCapture(Applied(t, matches[0]), matches[1..]);
    }
  }

  // While nothing is captured the first verdict that can starts a capture.
  lemma {:induction false} MatchesBegin(t: Task, matches: seq<Option<Match>>)
    requires Idle(t.capture)
    ensures Started(matches, t.clock, AppliedAll(t, matches))
    ensures AppliedAll(t, matches).capture.activeName.None? ==> AppliedAll(t, matches).timer == t.timer
    decreases |matches|
  {
    if matches != [] {
      var (m, rest) := (matches[0], matches[1..]);
      var u := Applied(t, m);
      if m.Some? && m.value.UntilStop? {
        MatchesKeepCapture(u, rest);
        hide AppliedAll;
        BeginsFirst(matches, t.clock, AppliedAll(t, matches));
      } else {
        MatchesBegin(u, rest);
        hide Started;
        BeginsLater(matches, t.clock, AppliedAll(t, matches));
      }
    }
  }

  lemma BeginsFirst(matches: seq<Option<Match>>, now: int, u: Task)
    requires matches != [] && matches[0].Some? && matches[0].value.UntilStop?
    requires var (m, at) := (matches[0].value, now + matches[0].value.timeoutMs);
             Under(u.capture, m.name, m.target, at) && u.timer == at
    ensures Started(matches, now, u)
  {
    assert Begins(matches, 0);
    assert forall k: nat :: Begins(matches, k) ==> k == 0;
  }

  lemma BeginsLater(matches: seq<Option<Match>>, now: int, u: Task)
    requires matches != [] && !(matches[0].Some? && matches[0].value.UntilStop?) && Started(matches[1..], now, u)
    ensures Started(matches, now, u)
  {
    var rest := matches[1..];
    assert forall k: nat :: Begins(rest, k) ==> Begins(matches, k + 1);
    assert forall k: nat :: Begins(matches, k) ==> k > 0 && Begins(rest, k - 1);
  }

  lemma OneMatchBegins(t: Task, m: Option<Match>)
    ensures AppliedAll(t, [m]) == Applied(t, m)
  {
    hide Applied;
    assert [m][1..] == [];
  }

  // ── One event ──────────────────────────────────────────────────────────

  lemma MatchingHears(t: Task, matches: seq<Option<Match>>)
    requires |t.notices| <= 64
    ensures AppliedAll(t, matches).notices == Latest(t.notices + Named(matches))
    ensures Idle(t.capture) ==> Started(matches, t.clock, AppliedAll(t, matches))
    ensures t.capture.activeName.Some? ==> AppliedAll(t, matches).capture == t.capture
    ensures AppliedAll(t, matches).finished == t.finished
  {
    MatchesNotice(t, matches);
    MatchingKeepsBook(t, matches);
    if t.capture.activeName.Some? {
      MatchesKeepCapture(t, matches);
    } else if Idle(t.capture) {
      MatchesBegin(t, matches);
    }
  }

  lemma NothingHeard(t: Task, now: int)
    ensures |t.notices| <= 64 ==> Latest(t.notices + Named([])) == t.notices
    ensures Idle(t.capture) ==> Started([], now, t)
  {
    if |t.notices| <= 64 {
      NothingNamed(t.notices);
    }
  }

  // The chunks of a capture that the event ends.
  function EndedChunks(t: Task, e: Event): seq<Chunk> {
    t.capture.buffer + (if e.Output? then [Chunk(|t.received|, e.bytes)] else [])
  }

  // What is told of a capture that `e` ends: its own number, name and target,
  // the lines of its chunks, and those chunks in the store.
  ghost predicate Told(t: Task, e: Event, u: Task) {
    var (c, chunks) := (t.capture, EndedChunks(t, e));
    && c.activeName.Some? && c.activeTarget.Some?
    && u.capture.nextId == c.nextId + 1
    && Keeps(c.buffers, c.nextId, chunks, u.capture.buffers)
    && var event := CapturedOutput(c.nextId, c.activeName.value, Lines(c.parse, chunks), c.activeTarget.value);
       u.finished == t.finished + [event] && u.capture.sink == Latest(c.sink + [event])
  }

  // The store with one capture more, the oldest given up when it held 64.
  ghost predicate Keeps(m: map<nat, seq<Chunk>>, id: nat, chunks: seq<Chunk>, kept: map<nat, seq<Chunk>>) {
    && id in kept && kept[id] == chunks
    && (forall k: nat :: k != id && k in kept ==> k in m && kept[k] == m[k])
    && (forall k: nat :: k in m && k != id ==> (k !in kept <==> |m| >= 64 && forall j: nat :: j in m ==> k <= j))
  }

  ghost predicate Untold(t: Task, u: Task) {
    u.finished == t.finished && u.capture.nextId == t.capture.nextId
  }

  lemma StoreKeeps(m: map<nat, seq<Chunk>>, id: nat, chunks: seq<Chunk>)
    ensures Keeps(m, id, chunks, Roomy(m)[id := chunks])
  {
    hide Oldest;
    if |m| >= MAX_BUFFERED_CAPTURES {
      assert IsOldest(m, Oldest(m));
    }
  }

  lemma QueueKeeps(queue: seq<CapturedOutput>, event: CapturedOutput)
    requires |queue| <= 64
    ensures PushBounded(queue, event) == Latest(queue + [event])
  {
  }

  // What an event does to the capture, the notices and the book.
  ghost predicate Follows(t: Task, events: seq<Event>, e: Event, u: Task) {
    var verdicts := Verdicts(t.capture.activeName.Some?, events, e);
    && u.notices == Latest(t.notices + Named(verdicts))
    && (if t.capture.activeName.None? || EndsCapture(t, events, e) then Started(verdicts, t.clock + Wait(e), u)
        else SameCapture(u.capture, t.capture))
    && (if EndsCapture(t, events, e) then Told(t, e, u) else Untold(t, u))
    && (!EndsCapture(t, events, e) ==> u.capture.sink == if e.Drain? then [] else t.capture.sink)
    && (EndsCapture(t, events, e) && !e.Exit? && u.capture.activeName.None? ==> u.timer == t.clock + Wait(e) + YEAR)
  }

  // 365 days, in milliseconds.
  const YEAR: nat := 31_536_000_000

  // A capture that ends is told of, and leaves the task idle with the notices
  // it had.
  lemma StoppedIsTold(t: Task, e: Event, c: Capture)
    requires t.capture.activeName.Some? && t.capture.activeTarget.Some? && |t.capture.sink| <= 64
    requires c == t.capture.(buffer := EndedChunks(t, e), bytes := c.bytes)
    ensures var u := Stopped(t, c);
            Idle(u.capture) && u.notices == t.notices && u.clock == t.clock && Told(t, e, u) && u.timer == t.clock + YEAR
  {
    hide PushBounded, Evicted, Lines, Roomy, EndedChunks, Keeps, Latest;
    StoreKeeps(c.buffers, c.nextId, c.buffer);
    QueueKeeps(c.sink, EventOf(c));
  }

  // A match neither ends a capture nor tells of one.
  lemma MatchingTells(t: Task, matches: seq<Option<Match>>)
    requires |t.notices| <= 64
    ensures var u := AppliedAll(t, matches);
            && u.notices == Latest(t.notices + Named(matches))
            && (Idle(t.capture) ==> Started(matches, t.clock, u) && (u.capture.activeName.None? ==> u.timer == t.timer))
            && (t.capture.activeName.Some? ==> u.capture == t.capture)
            && Untold(t, u) && SameQueue(u.capture, t.capture)
  {
    MatchesNotice(t, matches);
    MatchingKeepsBook(t, matches);
    if t.capture.activeName.Some? {
      MatchesKeepCapture(t, matches);
    } else if Idle(t.capture) {
      MatchesBegin(t, matches);
    }
  }

  // The capture's own state: what the arms below rely on.
  ghost predicate Ready(t: Task) {
    && !t.ended && |t.notices| <= 64 && |t.capture.sink| <= 64 && t.capture.bytes == Size(t.capture.buffer)
    && (t.capture.activeName.None? ==> Idle(t.capture))
    && (t.capture.activeName.Some? ==> t.capture.activeTarget.Some? && t.capture.deadline == Some(t.timer))
  }

  lemma TypedFollows(t: Task, events: seq<Event>, e: Event)
    requires Ready(t) && e.Typed?
    ensures Follows(t, events, e, Next(t, e))
  {
    hide Finalized, Evicted, Published, Started, Named, Latest, AppliedAll, Applied, Lines;
    var u := Waited(t, e.dt);
    NothingHeard(u, u.clock);
    if t.capture.activeName.Some? {
      assert EndedChunks(u, e) == t.capture.buffer;
      StoppedIsTold(u, e, t.capture);
    }
    var v := if t.capture.activeName.Some? && e.stops then Stopped(u, t.capture) else u;
    OneMatchBegins(v, e.matched);
    MatchingTells(v, [e.matched]);
    hide Stopped;
  }

  lemma OutputFollows(t: Task, events: seq<Event>, e: Event)
    requires Ready(t) && e.Output?
    requires Suppressed(Waited(t, e.dt)) <==> Repainting(events, e.dt)
    ensures Follows(t, events, e, Next(t, e))
  {
    hide Finalized, Evicted, Published, Started, Named, Latest, AppliedAll, Repainting, Entry, Lines, Size, Suppressed;
    var u := Waited(t, e.dt);
    NothingHeard(u, u.clock);
    if t.capture.activeName.Some? {
      WithheldFollows(t, events, e);
    } else {
      MatchingTells(u, e.matches);
      var shown := Received(u, e.bytes, e.matches, e.altScreen);
      var v := if e.altScreen || Suppressed(u) then u else AppliedAll(u, e.matches);
      assert shown.capture == v.capture && shown.notices == v.notices && shown.timer == v.timer && shown.finished == v.finished;
      hide Received;
      StartedShown(Verdicts(false, events, e), u.clock, v, shown);
    }
  }

  lemma StartedShown(verdicts: seq<Option<Match>>, now: int, v: Task, u: Task)
    requires Started(verdicts, now, v) && u.capture == v.capture && u.timer == v.timer
    ensures Started(verdicts, now, u)
  {
  }

  lemma WithheldFollows(t: Task, events: seq<Event>, e: Event)
    requires Ready(t) && e.Output? && t.capture.activeName.Some?
    requires Suppressed(Waited(t, e.dt)) <==> Repainting(events, e.dt)
    ensures Follows(t, events, e, Next(t, e))
  {
    hide Finalized, Evicted, Published, Started, Named, Latest, AppliedAll, Repainting, Entry, Lines, Size, Suppressed;
    var chunk := Chunk(|t.received|, e.bytes);
    var w := Waited(t, e.dt);
    var u := w.(received := t.received + [chunk]);
    var c := Buffered(t.capture, chunk);
    NothingHeard(u, u.clock);
    if !Suppressed(w) && IsOver(c, w.clock) {
      StoppedIsTold(w, e, c);
      var (s, r) := (Stopped(w, c), Stopped(u, c));
      assert r == s.(received := r.received);
      assert Next(t, e) == r;
      NothingHeard(r, r.clock);
      hide Stopped, Next, Received;
    }
  }

  // The arms without verdicts.
  lemma OtherFollows(t: Task, events: seq<Event>, e: Event)
    requires Ready(t) && !e.Typed? && !e.Output?
    ensures Follows(t, events, e, Next(t, e))
  {
    hide Finalized, Evicted, Published, Started, Named, Latest, Fed, PromptOf, Lines, Repainting;
    var (u, r) := (t.(clock := t.clock + Wait(e)), Next(t, e));
    NothingHeard(t, u.clock);
    NothingHeard(r, u.clock);
    assert EndedChunks(u, e) == t.capture.buffer;
    if t.capture.activeName.Some? {
      StoppedIsTold(u, e, t.capture);
      if e.Exit? {
        ExitIsStop(t);
      }
    } else {
      IdleFinalizes(t.capture);
    }
  }

  lemma IdleFinalizes(c: Capture)
    requires c.activeName.None?
    ensures Finalized(c) == c && Published(c) == []
  {
  }

  lemma ExitIsStop(t: Task)
    requires !t.ended
    ensures Next(t, Exit) == Stopped(t, t.capture).(ended := true, timer := t.timer)
  {
    hide Finalized, Evicted, Published;
  }

  lemma EventFollows(clock: int, t: Task, events: seq<Event>, e: Event)
    requires Clocked(clock, events, t) && Ready(t)
    ensures Follows(t, events, e, Next(t, e))
  {
    hide Follows, Next, Ready;
    if e.Typed? {
      TypedFollows(t, events, e);
    } else if e.Output? {
      SuppressedIff(clock, events, t, e.dt);
      OutputFollows(t, events, e);
    } else {
      OtherFollows(t, events, e);
    }
  }

  // ── Whole runs ─────────────────────────────────────────────────────────

  // Every name a run gives notice of, in order.
  ghost function Announced(t: Task, events: seq<Event>): seq<string> {
    if events == [] then []
    else
      var n := |events| - 1;
      var s := Run(t, events[..n]);
      Announced(t, events[..n])
      + (if s.ended then [] else Named(Verdicts(s.capture.activeName.Some?, events[..n], events[n])))
  }

  // Over every run the notices waiting are the last 64 given.
  lemma {:induction false} NoticesAreTheLatest(clock: int, parse: Parser, events: seq<Event>)
    ensures Run(Opened(clock, parse), events).notices == Latest(Announced(Opened(clock, parse), events))
    decreases |events|
  {
    var t0 := Opened(clock, parse);
    if events == [] {
      assert Announced(t0, []) == [];
    } else {
      var n := |events| - 1;
      var (before, e) := (events[..n], events[n]);
      var t := Run(t0, before);
      assert events == before + [e];
      RunSnoc(t0, before, e);
      NoticesAreTheLatest(clock, parse, before);
      if t.ended {
        EndedIsQuiet(t, e);
        assert Announced(t0, before) + [] == Announced(t0, before);
      } else {
        RunFollows(clock, parse, before, e);
        LatestOfLatest(Announced(t0, before), Named(Verdicts(t.capture.activeName.Some?, before, e)));
      }
    }
  }

  lemma EndedIsQuiet(t: Task, e: Event)
    requires t.ended
    ensures Next(t, e).notices == t.notices
  {
  }

  lemma SoundIsReady(t: Task)
    requires Sound(t) && !t.ended && |t.notices| <= 64
    ensures Ready(t)
  {
    hide Conserved, Serialised, Stored, Described, Size;
  }

  lemma RunFollows(clock: int, parse: Parser, events: seq<Event>, e: Event)
    requires !Run(Opened(clock, parse), events).ended && |Run(Opened(clock, parse), events).notices| <= 64
    ensures var t := Run(Opened(clock, parse), events); Follows(t, events, e, Next(t, e))
  {
    hide Run, Next, Follows, Sound, Clocked, Opened;
    OpenedIsSound(clock, parse);
    RunIsSound(Opened(clock, parse), events);
    RunIsClocked(clock, parse, events);
    SoundIsReady(Run(Opened(clock, parse), events));
    hide Ready;
    EventFollows(clock, Run(Opened(clock, parse), events), events, e);
  }

  // Over every run an idle task captures after the next event if and only if
  // that is a typed line, or output neither on the alternate screen nor within
  // 750 ms of a resize, with a verdict to capture; the first such verdict gives
  // the name and the target, and its timeout the deadline the timer is set to.
  lemma CaptureBeginsIff(clock: int, parse: Parser, events: seq<Event>, e: Event)
    requires !Run(Opened(clock, parse), events).ended && Run(Opened(clock, parse), events).capture.activeName.None?
    ensures var t := Run(Opened(clock, parse), events);
            var u := Next(t, e);
            var verdicts := match e case Typed(_, _, matched) => [matched] case Output(_, _, matches, _) => matches case _ => [];
            var heard := e.Typed? || (e.Output? && !e.altScreen && !Repainting(events, e.dt));
            && (u.capture.activeName.Some? <==> heard && exists k: nat :: Begins(verdicts, k))
            && forall k: nat :: heard && Begins(verdicts, k) ==>
                 var (m, at) := (verdicts[k].value, clock + Elapsed(events) + Wait(e) + verdicts[k].value.timeoutMs);
                 u.capture.activeName == Some(m.name) && u.capture.activeTarget == Some(m.target)
                 && u.capture.deadline == Some(at) && u.timer == at
  {
    hide *;
    RunFollowsEvents(clock, parse, events, e);
    FollowsToBegin(Run(Opened(clock, parse), events), events, e, Next(Run(Opened(clock, parse), events), e));
  }

  lemma RunFollowsEvents(clock: int, parse: Parser, events: seq<Event>, e: Event)
    requires !Run(Opened(clock, parse), events).ended
    ensures var t := Run(Opened(clock, parse), events);
            Follows(t, events, e, Next(t, e)) && t.clock == clock + Elapsed(events)
  {
    hide Run, Next, Opened, Follows, Announced, Elapsed;
    NoticesAreTheLatest(clock, parse, events);
    RunFollows(clock, parse, events, e);
    RunIsClocked(clock, parse, events);
  }

  lemma FollowsToBegin(t: Task, events: seq<Event>, e: Event, u: Task)
    requires Follows(t, events, e, u) && t.capture.activeName.None?
    ensures var verdicts := match e case Typed(_, _, matched) => [matched] case Output(_, _, matches, _) => matches case _ => [];
            var heard := e.Typed? || (e.Output? && !e.altScreen && !Repainting(events, e.dt));
            && (u.capture.activeName.Some? <==> heard && exists k: nat :: Begins(verdicts, k))
            && forall k: nat :: heard && Begins(verdicts, k) ==>
                 var (m, at) := (verdicts[k].value, t.clock + Wait(e) + verdicts[k].value.timeoutMs);
                 u.capture.activeName == Some(m.name) && u.capture.activeTarget == Some(m.target)
                 && u.capture.deadline == Some(at) && u.timer == at
  {
    hide Repainting, Wait, Named, Latest;
  }

  // An active capture ends for its own reasons only; a timer left from an
  // earlier capture never ends a later one. Until then it keeps its name, its
  // target and its deadline. When it ends, the one event told of it has its
  // number, its name and target and the lines of its chunks; the pane queue is
  // the last 64 of those it held and that one, and the store holds the chunks
  // under that number, giving up the oldest when it held 64; the timer goes a year off. Only a typed line
  // that ends it can start the next at once.
  lemma CaptureEndsForCause(clock: int, parse: Parser, events: seq<Event>, e: Event)
    requires !Run(Opened(clock, parse), events).ended && Run(Opened(clock, parse), events).capture.activeName.Some?
    ensures var t := Run(Opened(clock, parse), events);
            var u := Next(t, e);
            && (u.capture.nextId != t.capture.nextId <==> EndsCapture(t, events, e))
            && (!EndsCapture(t, events, e) ==> SameCapture(u.capture, t.capture) && u.finished == t.finished)
            && (!EndsCapture(t, events, e) && !e.Drain? ==> u.capture.sink == t.capture.sink)
            && (EndsCapture(t, events, e) ==> Told(t, e, u))
            && (EndsCapture(t, events, e) && !e.Exit? && u.capture.activeName.None? ==> u.timer == clock + Elapsed(events) + Wait(e) + YEAR)
            && (EndsCapture(t, events, e) ==>
                  if e.Typed? && e.matched.Some? && e.matched.value.UntilStop? then
                    Under(u.capture, e.matched.value.name, e.matched.value.target, clock + Elapsed(events) + e.dt + e.matched.value.timeoutMs)
                  else Idle(u.capture))
  {
    hide *;
    RunFollowsEvents(clock, parse, events, e);
    FollowsToEnd(Run(Opened(clock, parse), events), events, e, Next(Run(Opened(clock, parse), events), e));
  }

  lemma FollowsToEnd(t: Task, events: seq<Event>, e: Event, u: Task)
    requires Follows(t, events, e, u) && t.capture.activeName.Some?
    ensures u.capture.nextId != t.capture.nextId <==> EndsCapture(t, events, e)
    ensures !EndsCapture(t, events, e) ==> SameCapture(u.capture, t.capture) && u.finished == t.finished
    ensures !EndsCapture(t, events, e) && !e.Drain? ==> u.capture.sink == t.capture.sink
    ensures EndsCapture(t, events, e) ==> Told(t, e, u)
    ensures EndsCapture(t, events, e) && !e.Exit? && u.capture.activeName.None? ==> u.timer == t.clock + Wait(e) + YEAR
    ensures EndsCapture(t, events, e) ==>
              if e.Typed? && e.matched.Some? && e.matched.value.UntilStop? then
                Under(u.capture, e.matched.value.name, e.matched.value.target, t.clock + e.dt + e.matched.value.timeoutMs)
              else Idle(u.capture)
  {
    hide EndsCapture, Started, Verdicts, Named, Latest, Lines;
    if EndsCapture(t, events, e) {
      EndedThenStarted(t, events, e, u);
    }
  }

  lemma EndedThenStarted(t: Task, events: seq<Event>, e: Event, u: Task)
    requires EndsCapture(t, events, e) && Started(Verdicts(true, events, e), t.clock + Wait(e), u)
    ensures if e.Typed? && e.matched.Some? && e.matched.value.UntilStop? then
              Under(u.capture, e.matched.value.name, e.matched.value.target, t.clock + e.dt + e.matched.value.timeoutMs)
            else Idle(u.capture)
  {
    var verdicts := Verdicts(true, events, e);
    assert verdicts != [] ==> e.Typed? && verdicts == [e.matched];
    if e.Typed? && e.matched.Some? && e.matched.value.UntilStop? {
      assert Begins(verdicts, 0);
    }
  }
}
