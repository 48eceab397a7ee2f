// Where a pane's output goes, and what reaches its grid, over whole runs of
// the event loop (crates/gpty-core/src/engine.rs).
module PaneGrid {
  import opened Bytes
  import opened Wrappers
  import opened Capture
  import opened TerminalTask
  import opened PaneRuns
  import opened PaneCaptures

  // ── Output ─────────────────────────────────────────────────────────────

  // One chunk shown, with the lines it completed behind it.
  ghost predicate ShownWith(before: seq<GridOp>, chunk: Chunk, lines: seq<string>, after: seq<GridOp>) {
    && |after| == |before| + 1 + |lines| && after[..|before|] == before && after[|before|] == Whole(chunk)
    && forall i :: 0 <= i < |lines| ==> after[|before| + 1 + i] == Line(lines[i])
  }

  // Over every run output while nothing is captured is shown at once, with the
  // lines the pane's own parser completes with it after all it has read; while
  // something is, the grid sees nothing of it: within 750 ms of a resize it is
  // dropped, and otherwise it is the capture's.
  lemma OutputIsPlaced(clock: int, parse: Parser, events: seq<Event>, e: Event)
    requires !Run(Opened(clock, parse), events).ended && e.Output?
    ensures var t := Run(Opened(clock, parse), events);
            var (u, chunk) := (Next(t, e), Chunk(|t.received|, e.bytes));
            && u.received == t.received + [chunk]
            && (t.capture.activeName.None? ==> ShownWith(t.grid, chunk, t.capture.parse(t.received, chunk), u.grid) && u.dropped == t.dropped)
            && (t.capture.activeName.Some? ==> u.grid == t.grid)
            && (t.capture.activeName.Some? && Repainting(events, e.dt) ==>
                  u.dropped == t.dropped + [chunk] && u.capture == t.capture)
            && (t.capture.activeName.Some? && !Repainting(events, e.dt) ==>
                  && u.dropped == t.dropped
                  && if EndsCapture(t, events, e) then t.capture.nextId in u.capture.buffers && u.capture.buffers[t.capture.nextId] == t.capture.buffer + [chunk]
                     else u.capture.buffer == t.capture.buffer + [chunk])
  {
    var t := Run(Opened(clock, parse), events);
    NoticesAreTheLatest(clock, parse, events);
    RunFollows(clock, parse, events, e);
    RunIsClocked(clock, parse, events);
    RunIsReady(clock, parse, events);
    hide Run, Opened, Repainting, Announced, Follows;
    SuppressedIff(clock, events, t, e.dt);
    OutputPlaces(t, events, e);
  }

  lemma RunIsReady(clock: int, parse: Parser, events: seq<Event>)
    requires !Run(Opened(clock, parse), events).ended && |Run(Opened(clock, parse), events).notices| <= 64
    ensures Ready(Run(Opened(clock, parse), events))
  {
    hide Run, Opened, Sound, Ready;
    OpenedIsSound(clock, parse);
    RunIsSound(Opened(clock, parse), events);
    SoundIsReady(Run(Opened(clock, parse), events));
  }

  lemma OutputPlaces(t: Task, events: seq<Event>, e: Event)
    requires Ready(t) && e.Output? && Follows(t, events, e, Next(t, e))
    requires Suppressed(Waited(t, e.dt)) <==> Repainting(events, e.dt)
    ensures var (u, chunk) := (Next(t, e), Chunk(|t.received|, e.bytes));
            && u.received == t.received + [chunk]
            && (t.capture.activeName.None? ==> ShownWith(t.grid, chunk, t.capture.parse(t.received, chunk), u.grid) && u.dropped == t.dropped)
            && (t.capture.activeName.Some? ==> u.grid == t.grid)
            && (t.capture.activeName.Some? && Repainting(events, e.dt) ==>
                  u.dropped == t.dropped + [chunk] && u.capture == t.capture)
            && (t.capture.activeName.Some? && !Repainting(events, e.dt) ==>
                  && u.dropped == t.dropped
                  && if EndsCapture(t, events, e) then t.capture.nextId in u.capture.buffers && u.capture.buffers[t.capture.nextId] == t.capture.buffer + [chunk]
                     else u.capture.buffer == t.capture.buffer + [chunk])
  {
    hide Finalized, Evicted, Published, Started, Named, Latest, AppliedAll, Repainting, Lines, Size, Suppressed;
    var w := Waited(t, e.dt);
    if t.capture.activeName.None? {
      ApplyAllKeepsBooks(w, e.matches);
      MatchingKeepsBuffer(w, e.matches);
      EntryIsShown(t.grid, t.capture.parse, t.received, Chunk(|t.received|, e.bytes));
      hide Entry;
    }
  }

  lemma EntryIsShown(grid: seq<GridOp>, parse: Parser, before: seq<Chunk>, chunk: Chunk)
    ensures ShownWith(grid, chunk, parse(before, chunk), grid + Entry(parse, before, chunk))
  {
  }

  // ── Acknowledging a capture ────────────────────────────────────────────

  function BytesOf(chunks: seq<Chunk>): seq<Str> {
    seq(|chunks|, i requires 0 <= i < |chunks| => chunks[i].bytes)
  }

  // `tail` is all of `text` behind its last line feed.
  ghost predicate IsTail(text: Str, tail: Str) {
    && |tail| <= |text| && text[|text| - |tail|..] == tail && LF !in tail
    && (|tail| < |text| ==> text[|text| - |tail| - 1] == LF)
  }

  lemma {:induction false} AllBytesAreFlat(chunks: seq<Chunk>)
    ensures AllBytes(chunks) == Flatten(BytesOf(chunks))
  {
    if chunks != [] {
      var n := |chunks| - 1;
      AllBytesAreFlat(chunks[..n]);
      assert BytesOf(chunks)[..n] == BytesOf(chunks[..n]);
    }
  }

  lemma {:induction false} FeedIsLast(s: Str)
    ensures AfterLastFeed(s).None? ==> LF !in s
    ensures AfterLastFeed(s).Some? ==>
              var at := AfterLastFeed(s).value; 0 < at <= |s| && s[at - 1] == LF && LF !in s[at..]
  {
    if s != [] && s[|s| - 1] != LF {
      var n := |s| - 1;
      FeedIsLast(s[..n]);
      assert s == s[..n] + [s[n]];
      if AfterLastFeed(s).Some? {
        assert s[AfterLastFeed(s).value..] == s[..n][AfterLastFeed(s).value..] + [s[n]];
      }
    }
  }

  // Acknowledging a capture takes it out and shows what stands behind its last
  // line feed, on a line of its own, and nothing when nothing does; without a
  // line feed that is all of it.
  lemma AcknowledgeShowsThePrompt(t: Task, id: nat, tail: Str)
    requires !t.ended && id in t.capture.buffers && IsTail(Flatten(BytesOf(t.capture.buffers[id])), tail)
    ensures var u := Next(t, Acknowledge(id));
            && u.grid == t.grid + (if tail == [] && Flatten(BytesOf(t.capture.buffers[id])) != [] then [] else [Raw([CR, LF]), Raw(tail)])
            && u.capture.buffers == t.capture.buffers - {id}
  {
    hide PromptOf, IsTail, Flatten, BytesOf, Finalized;
    PromptIsTheTail(t.capture.buffers[id], tail);
  }

  lemma PromptIsTheTail(chunks: seq<Chunk>, tail: Str)
    requires IsTail(Flatten(BytesOf(chunks)), tail)
    ensures PromptOf(chunks) == if tail == [] && Flatten(BytesOf(chunks)) != [] then [] else [Raw([CR, LF]), Raw(tail)]
  {
    var text := Flatten(BytesOf(chunks));
    AllBytesAreFlat(chunks);
    FeedIsLast(text);
    hide AllBytes, AfterLastFeed, Flatten, BytesOf;
    if AfterLastFeed(text).Some? {
      TailIsUnique(text, tail, text[AfterLastFeed(text).value..]);
    } else {
      TailIsUnique(text, tail, text);
    }
  }

  lemma TailIsLongest(text: Str, a: Str, b: Str)
    requires IsTail(text, a) && IsTail(text, b)
    ensures |b| <= |a|
  {
    var n := |text| - |b|;
    assert forall k :: n <= k < |text| ==> text[k] == text[n..][k - n];
    assert forall k :: n <= k < |text| ==> text[k] != LF;
  }

  lemma TailIsUnique(text: Str, a: Str, b: Str)
    requires IsTail(text, a) && IsTail(text, b)
    ensures a == b
  {
    TailIsLongest(text, a, b);
    TailIsLongest(text, b, a);
  }
}
