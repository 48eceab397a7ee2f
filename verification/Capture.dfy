// One pane's capture: the buffer, the queue of finished captures and the
// store of their raw chunks (crates/gpty-core/src/engine.rs, `CaptureState`
// and `CaptureSession`).
//
// A chunk carries the serial number of its arrival; the code has no such
// number, it is how the model tells two equal chunks apart. The line parser is
// a parameter: what a fresh one yields on a chunk after the chunks before it.
module Capture {
  import opened Wrappers
  import opened Bytes

  const MAX_CAPTURE_BYTES: nat := 4 * 1024 * 1024
  const MAX_BUFFERED_CAPTURES: nat := 64

  datatype Chunk = Chunk(serial: nat, bytes: Str)

  type Parser = (seq<Chunk>, Chunk) -> seq<string>

  datatype CapturedOutput = CapturedOutput(id: nat, conceptName: string, lines: seq<string>, target: string)

  // The state behind the lock, queues included.
  datatype Capture = Capture(
    buffer: seq<Chunk>, bytes: nat, activeName: Option<string>, activeTarget: Option<string>, deadline: Option<int>,
    nextId: nat, sink: seq<CapturedOutput>, buffers: map<nat, seq<Chunk>>,
    parse: Parser)

  function Empty(parse: Parser): Capture {
    Capture([], 0, None, None, None, 0, [], map[], parse)
  }

  // The lines a fresh parser yields on `chunks`.
  function Lines(parse: Parser, chunks: seq<Chunk>): seq<string> {
    if chunks == [] then []
    else var n := |chunks| - 1; Lines(parse, chunks[..n]) + parse(chunks[..n], chunks[n])
  }

  function Size(chunks: seq<Chunk>): nat {
    if chunks == [] then 0 else Size(chunks[..|chunks| - 1]) + |chunks[|chunks| - 1].bytes|
  }

  // ── The operations ─────────────────────────────────────────────────────

  function PushBounded(queue: seq<CapturedOutput>, event: CapturedOutput): seq<CapturedOutput> {
    (if |queue| >= MAX_BUFFERED_CAPTURES then queue[1..] else queue) + [event]
  }

  ghost predicate IsOldest(m: map<nat, seq<Chunk>>, id: nat) {
    id in m && forall k :: k in m ==> id <= k
  }

  lemma OldestFrom(m: map<nat, seq<Chunk>>, k: nat)
    requires k in m
    ensures exists id :: IsOldest(m, id)
  {
    if j :| j in m && j < k {
      OldestFrom(m, j);
    } else {
      assert IsOldest(m, k);
    }
  }

  // The least key of the chunk store.
  ghost function Oldest(m: map<nat, seq<Chunk>>): (id: nat)
    requires m != map[]
    ensures IsOldest(m, id)
  {
    var k :| k in m;
    OldestFrom(m, k);
    var id :| IsOldest(m, id);
    id
  }

  ghost predicate StoreIsFull(c: Capture) {
    |c.buffers| >= MAX_BUFFERED_CAPTURES
  }

  // What a finalize pushes out of the full chunk store.
  ghost function Evicted(c: Capture): seq<Chunk> {
    if c.activeName.None? || !StoreIsFull(c) then [] else c.buffers[Oldest(c.buffers)]
  }

  // The chunk store with room for one more.
  ghost function Roomy(m: map<nat, seq<Chunk>>): map<nat, seq<Chunk>> {
    if |m| >= MAX_BUFFERED_CAPTURES then m - {Oldest(m)} else m
  }

  // The event a finalize publishes.
  function EventOf(c: Capture): CapturedOutput
    requires c.activeName.Some?
  {
    var target := if c.activeTarget.Some? then c.activeTarget.value else "";
    CapturedOutput(c.nextId, c.activeName.value, Lines(c.parse, c.buffer), target)
  }

  function Published(c: Capture): seq<CapturedOutput> {
    if c.activeName.None? then [] else [EventOf(c)]
  }

  // Ending the capture: its chunks go to the store, its event to the queue.
  ghost function Finalized(c: Capture): Capture {
    if c.activeName.None? then c
    else
      Capture([], 0, None, None, None, c.nextId + 1,
              PushBounded(c.sink, EventOf(c)),
              Roomy(c.buffers)[c.nextId := c.buffer], c.parse)
  }

  function Begun(c: Capture, name: string, target: string, deadline: int): Capture {
    c.(activeName := Some(name), activeTarget := Some(target), deadline := Some(deadline))
  }

  function Buffered(c: Capture, chunk: Chunk): Capture {
    c.(bytes := c.bytes + |chunk.bytes|, buffer := c.buffer + [chunk])
  }

  // Whether the output just buffered ends the capture.
  predicate IsOver(c: Capture, now: int) {
    c.bytes > MAX_CAPTURE_BYTES || (c.deadline.Some? && now >= c.deadline.value)
  }

  class CaptureState {
    const parse: Parser
    var buffer: seq<Chunk>
    var bytes: nat
    var activeName: Option<string>
    var activeTarget: Option<string>
    var deadline: Option<int>
    var nextEventId: nat
    var sink: seq<CapturedOutput>
    var buffers: map<nat, seq<Chunk>>

    constructor (parse: Parser)
      ensures View() == Empty(parse) && this.parse == parse
    {
      this.parse := parse;
      buffer, bytes, activeName, activeTarget, deadline := [], 0, None, None, None;
      nextEventId, sink, buffers := 0, [], map[];
    }

    function View(): Capture
      reads this
    {
      Capture(buffer, bytes, activeName, activeTarget, deadline, nextEventId, sink, buffers, parse)
    }

    method Begin(name: string, target: string, deadline: int)
      modifies this
      ensures View() == Begun(old(View()), name, target, deadline)
    {
      activeName, activeTarget, this.deadline := Some(name), Some(target), Some(deadline);
    }

    // Keeps a finished capture's chunks, giving up the oldest when full.
    method Store(id: nat, chunks: seq<Chunk>)
      modifies this`buffers
      ensures buffers == Roomy(old(buffers))[id := chunks]
    {
      if |buffers| >= MAX_BUFFERED_CAPTURES {
        ghost var k := Oldest(buffers);
        var oldest :| oldest in buffers && forall j :: j in buffers ==> oldest <= j;
        assert oldest == k;
        buffers := buffers - {oldest};
      }
      buffers := buffers[id := chunks];
    }

    // The buffered chunks through a fresh parser.
    method ParsedLines() returns (lines: seq<string>)
      ensures lines == Lines(parse, buffer)
    {
      lines := [];
      assert buffer[..0] == [];
      for i := 0 to |buffer|
        invariant lines == Lines(parse, buffer[..i])
      {
        assert buffer[..i + 1][..i] == buffer[..i];
        lines := lines + parse(buffer[..i], buffer[i]);
      }
      assert buffer[..|buffer|] == buffer;
    }

    method Finalize()
      modifies this
      ensures View() == Finalized(old(View()))
    {
      hide PushBounded, Roomy, Lines;
      if activeName.None? {
        return;
      }
      var id, name := nextEventId, activeName.value;
      var target := if activeTarget.Some? then activeTarget.value else "";
      var lines := ParsedLines();
      var rawBytes := buffer;
      nextEventId, activeName, activeTarget := id + 1, None, None;
      buffer, bytes, deadline := [], 0, None;
      Store(id, rawBytes);
      sink := PushBounded(sink, CapturedOutput(id, name, lines, target));
    }

    method FeedOutput(chunk: Chunk, now: int) returns (finalized: bool)
      modifies this
      ensures old(activeName).None? ==> !finalized && View() == old(View())
      ensures old(activeName).Some? ==>
                && finalized == IsOver(Buffered(old(View()), chunk), now)
                && View() == if finalized then Finalized(Buffered(old(View()), chunk)) else Buffered(old(View()), chunk)
    {
      if activeName.None? {
        return false;
      }
      bytes := bytes + |chunk.bytes|;
      buffer := buffer + [chunk];
      finalized := bytes > MAX_CAPTURE_BYTES || (deadline.Some? && now >= deadline.value);
      if finalized {
        Finalize();
      }
    }

    method TakeChunks(id: nat) returns (chunks: Option<seq<Chunk>>)
      modifies this
      ensures chunks == if id in old(buffers) then Some(old(buffers)[id]) else None
      ensures View() == old(View()).(buffers := old(buffers) - {id})
    {
      chunks := if id in buffers then Some(buffers[id]) else None;
      buffers := buffers - {id};
    }

    // The consumer takes every finished capture.
    method Drain() returns (events: seq<CapturedOutput>)
      modifies this
      ensures events == old(sink) && View() == old(View()).(sink := [])
    {
      events := sink;
      sink := [];
    }
  }

  // ── What every operation keeps ─────────────────────────────────────────

  ghost predicate Ascending(chunks: seq<Chunk>) {
    forall i, j :: 0 <= i < j < |chunks| ==> chunks[i].serial < chunks[j].serial
  }

  // A capture passes the byte cap by at most its last chunk.
  ghost predicate Sized(chunks: seq<Chunk>) {
    chunks == [] || Size(chunks[..|chunks| - 1]) <= MAX_CAPTURE_BYTES
  }

  // Both structures are bounded, and the queue holds the most recent ids
  // without a gap.
  ghost predicate Bounded(c: Capture) {
    && |c.sink| <= MAX_BUFFERED_CAPTURES && |c.buffers| <= MAX_BUFFERED_CAPTURES && |c.sink| <= c.nextId
    && (forall i :: 0 <= i < |c.sink| ==> c.sink[i].id == c.nextId - |c.sink| + i)
    && (forall id :: id in c.buffers ==> id < c.nextId)
  }

  // Everything in the queue is still stored.
  ghost predicate Coupled(c: Capture) {
    Bounded(c) && forall id :: c.nextId - |c.sink| <= id < c.nextId ==> id in c.buffers
  }

  // Inactive means nothing is buffered and no deadline is set.
  ghost predicate Framed(c: Capture) {
    && (c.activeName.Some? <==> c.deadline.Some?) && (c.activeName.Some? <==> c.activeTarget.Some?)
    && (c.activeName.None? ==> c.buffer == [])
    && c.bytes == Size(c.buffer)
  }

  ghost predicate Stored(c: Capture) {
    && Sized(c.buffer) && Ascending(c.buffer)
    && forall id :: id in c.buffers ==> Sized(c.buffers[id]) && Ascending(c.buffers[id])
  }

  // A queued event's lines are those of the chunks stored under its id.
  ghost predicate Described(c: Capture) {
    forall i :: 0 <= i < |c.sink| && c.sink[i].id in c.buffers ==> c.sink[i].lines == Lines(c.parse, c.buffers[c.sink[i].id])
  }

  ghost predicate Inv(c: Capture) {
    Bounded(c) && Framed(c) && Stored(c) && Described(c)
  }

  lemma RemovalShrinks(m: map<nat, seq<Chunk>>, id: nat)
    requires id in m
    ensures |m - {id}| == |m| - 1
  {
    assert (m - {id}).Keys == m.Keys - {id};
    assert |m.Keys| == |m| && |(m - {id}).Keys| == |m - {id}|;
  }

  lemma InsertionGrows(m: map<nat, seq<Chunk>>, id: nat, chunks: seq<Chunk>)
    requires id !in m
    ensures |m[id := chunks]| == |m| + 1
  {
    assert m[id := chunks].Keys == m.Keys + {id};
    assert |m[id := chunks].Keys| == |m[id := chunks]|;
  }

  // Keys confined to an interval are no more than its length.
  lemma {:induction false} KeysWithin(keys: set<nat>, low: nat, high: nat)
    requires low <= high && forall k :: k in keys ==> low <= k < high
    ensures |keys| <= high - low
    decreases high - low
  {
    if low == high {
      assert keys == {};
    } else {
      KeysWithin(keys - {high - 1}, low, high - 1);
      assert |keys| <= |keys - {high - 1}| + 1 by {
        assert keys <= (keys - {high - 1}) + {high - 1};
        SubsetSize(keys, (keys - {high - 1}) + {high - 1});
      }
    }
  }

  lemma {:induction false} SubsetSize(a: set<nat>, b: set<nat>)
    requires a <= b
    ensures |a| <= |b|
  {
    assert b == a + (b - a);
  }

  // When a full store gives up its oldest capture and that one is still
  // queued, the queue is full as well and gives up the same one.
  lemma EvictionIsQueueHead(c: Capture)
    requires Coupled(c) && |c.buffers| >= MAX_BUFFERED_CAPTURES
    ensures c.buffers != map[]
    ensures Oldest(c.buffers) >= c.nextId - |c.sink| ==>
              |c.sink| == MAX_BUFFERED_CAPTURES && c.sink[0].id == Oldest(c.buffers)
  {
    assert c.buffers != map[];
    var oldest := Oldest(c.buffers);
    if oldest >= c.nextId - |c.sink| {
      KeysWithin(c.buffers.Keys, oldest, c.nextId);
      assert |c.buffers.Keys| == |c.buffers|;
    }
  }

  lemma FinalizeKeepsBounded(c: Capture)
    requires Bounded(c)
    ensures Bounded(Finalized(c))
  {
    if c.activeName.Some? {
      var kept := if StoreIsFull(c) then c.buffers - {Oldest(c.buffers)} else c.buffers;
      if StoreIsFull(c) {
        RemovalShrinks(c.buffers, Oldest(c.buffers));
      }
      InsertionGrows(kept, c.nextId, c.buffer);
    }
  }

  lemma FinalizeKeepsCoupled(c: Capture)
    requires Coupled(c)
    ensures Coupled(Finalized(c))
  {
    FinalizeKeepsBounded(c);
    if c.activeName.Some? {
      var d := Finalized(c);
      if StoreIsFull(c) {
        EvictionIsQueueHead(c);
      }
      forall id | d.nextId - |d.sink| <= id < d.nextId
        ensures id in d.buffers
      {
      }
    }
  }

  lemma FinalizeKeepsInv(c: Capture)
    requires Inv(c)
    ensures Inv(Finalized(c))
  {
    FinalizeKeepsBounded(c);
    FinalizeKeepsDescribed(c);
    hide Oldest, Bounded, Size, Described, Lines;
    assert Size([]) == 0 by { SizeOfNothing(); }
  }

  lemma FinalizeKeepsDescribed(c: Capture)
    requires Bounded(c) && Described(c)
    ensures Described(Finalized(c))
  {
    hide Oldest, IsOldest, Lines;
  }

  lemma SizeOfNothing()
    ensures Size([]) == 0
  {
  }

  // Buffering a chunk newer than the rest keeps everything, as long as the
  // cap was not passed before.
  lemma BufferKeepsInv(c: Capture, chunk: Chunk)
    requires Inv(c) && c.activeName.Some? && c.bytes <= MAX_CAPTURE_BYTES
    requires forall i :: 0 <= i < |c.buffer| ==> c.buffer[i].serial < chunk.serial
    ensures Inv(Buffered(c, chunk))
  {
    assert (c.buffer + [chunk])[..|c.buffer|] == c.buffer;
  }

  // Taking a capture out keeps the two coupled exactly when the queue no
  // longer names it.
  lemma TakeKeepsCoupledIff(c: Capture, id: nat)
    requires Coupled(c) && id in c.buffers
    ensures Coupled(c.(buffers := c.buffers - {id})) <==> forall i :: 0 <= i < |c.sink| ==> c.sink[i].id != id
  {
    RemovalShrinks(c.buffers, id);
    if id >= c.nextId - |c.sink| {
      assert c.sink[id - (c.nextId - |c.sink|)].id == id;
    }
  }

  // ── Where the chunks are ───────────────────────────────────────────────

  // The chunks stored under the ids below `n`.
  function ChunksBelow(m: map<nat, seq<Chunk>>, n: nat): multiset<Chunk> {
    if n == 0 then multiset{}
    else ChunksBelow(m, n - 1) + (if n - 1 in m then multiset(m[n - 1]) else multiset{})
  }

  function Content(c: Capture): multiset<Chunk> {
    multiset(c.buffer) + ChunksBelow(c.buffers, c.nextId)
  }

  lemma {:induction false} ChunksBelowWithout(m: map<nat, seq<Chunk>>, id: nat, n: nat)
    requires id in m
    ensures ChunksBelow(m - {id}, n) + (if id < n then multiset(m[id]) else multiset{}) == ChunksBelow(m, n)
  {
    if n > 0 {
      ChunksBelowWithout(m, id, n - 1);
    }
  }

  lemma {:induction false} ChunksBelowBefore(m: map<nat, seq<Chunk>>, id: nat, chunks: seq<Chunk>, n: nat)
    requires n <= id
    ensures ChunksBelow(m[id := chunks], n) == ChunksBelow(m, n)
  {
    if n > 0 {
      ChunksBelowBefore(m, id, chunks, n - 1);
    }
  }

  lemma ChunksBelowNext(m: map<nat, seq<Chunk>>, n: nat)
    ensures n in m ==> ChunksBelow(m, n + 1) == ChunksBelow(m, n) + multiset(m[n])
  {
  }

  // A finalize moves chunks; only an eviction takes any out.
  lemma FinalizeKeepsContent(c: Capture)
    requires Bounded(c)
    ensures Content(Finalized(c)) + multiset(Evicted(c)) == Content(c)
  {
    if c.activeName.Some? {
      var kept := if StoreIsFull(c) then c.buffers - {Oldest(c.buffers)} else c.buffers;
      if StoreIsFull(c) {
        assert Oldest(c.buffers) < c.nextId;
        ChunksBelowWithout(c.buffers, Oldest(c.buffers), c.nextId);
      }
      hide Bounded, ChunksBelow, Oldest, PushBounded;
      var stored := kept[c.nextId := c.buffer];
      ChunksBelowBefore(kept, c.nextId, c.buffer, c.nextId);
      ChunksBelowNext(stored, c.nextId);
      assert stored[c.nextId] == c.buffer;
    }
  }

  // Taking a capture out takes exactly its chunks.
  lemma TakeKeepsContent(c: Capture, id: nat)
    requires Bounded(c) && id in c.buffers
    ensures Content(c.(buffers := c.buffers - {id})) + multiset(c.buffers[id]) == Content(c)
  {
    ChunksBelowWithout(c.buffers, id, c.nextId);
  }
}
