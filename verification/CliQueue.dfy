// The line queue two pipe readers share with the pane that shows their
// lines (crates/gpty-core/src/cli.rs, `LineQueue`), over every interleaving.
//
// A push holds the lock from line to line and gives it up only to wait, so a
// step below is one turn of its loop. A reader that found the queue full is
// asleep until something notifies it.
module CliQueue {
  import opened Bytes

  const QUEUE_LINES: nat := 512

  // A queued line and the reader it came from.
  datatype Item = Item(reader: nat, line: Str)

  // A reader: the lines of its current push still to go, and whether it waits.
  datatype Reader = Reader(batch: seq<Str>, asleep: bool)

  // The queue, its readers, what the pane has drained, and everything each
  // reader was ever given to push.
  datatype Shared = Shared(queue: seq<Item>, closed: bool, readers: seq<Reader>, drained: seq<Item>, offered: seq<seq<Str>>)

  datatype Action = Read(r: nat, lines: seq<Str>) | Turn(r: nat) | Wake(r: nat) | Drain | Close

  function AllAwake(readers: seq<Reader>): seq<Reader> {
    seq(|readers|, i requires 0 <= i < |readers| => readers[i].(asleep := false))
  }

  // One turn of the push loop for a reader that is awake with a line to push.
  function PushTurn(s: Shared, r: nat): Shared
    requires r < |s.readers| && s.readers[r].batch != []
  {
    var batch := s.readers[r].batch;
    if |s.queue| >= QUEUE_LINES && !s.closed then s.(readers := s.readers[r := Reader(batch, true)])
    else if s.closed then s.(readers := s.readers[r := Reader([], false)])
    else s.(queue := s.queue + [Item(r, batch[0])], readers := s.readers[r := Reader(batch[1..], false)])
  }

  function Next(s: Shared, a: Action): Shared
    requires |s.offered| == |s.readers|
  {
    match a
    case Read(r, lines) =>
      if r < |s.readers| && s.readers[r].batch == [] && !s.readers[r].asleep then
        s.(readers := s.readers[r := Reader(lines, false)], offered := s.offered[r := s.offered[r] + lines])
      else s
    case Turn(r) =>
      if r < |s.readers| && s.readers[r].batch != [] && !s.readers[r].asleep then PushTurn(s, r) else s
    case Wake(r) =>
      if r < |s.readers| then s.(readers := s.readers[r := s.readers[r].(asleep := false)]) else s
    case Drain =>
      s.(queue := [], drained := s.drained + s.queue, readers := if s.queue != [] then AllAwake(s.readers) else s.readers)
    case Close => s.(closed := true, readers := AllAwake(s.readers))
  }

  function Opened(readers: nat): Shared {
    Shared([], false, seq(readers, _ => Reader([], false)), [], seq(readers, _ => []))
  }

  // ── What holds after every step ────────────────────────────────────────

  // The lines of reader `r` among `items`, in order.
  function Of(items: seq<Item>, r: nat): seq<Str> {
    if items == [] then []
    else Of(items[..|items| - 1], r) + (if items[|items| - 1].reader == r then [items[|items| - 1].line] else [])
  }

  // What reader `r` got through: drained first, then still queued.
  function Accepted(s: Shared, r: nat): seq<Str> {
    Of(s.drained, r) + Of(s.queue, r)
  }

  // Until the close a reader's lines are all there, in its order, each once;
  // afterwards what got through is how they began.
  ghost predicate Lossless(s: Shared, r: nat)
    requires r < |s.readers| && r < |s.offered|
  {
    if s.closed then Accepted(s, r) <= s.offered[r]
    else Accepted(s, r) + s.readers[r].batch == s.offered[r]
  }

  ghost predicate Inv(s: Shared) {
    && |s.offered| == |s.readers|
    && |s.queue| <= QUEUE_LINES
    && (forall r :: 0 <= r < |s.readers| ==> Lossless(s, r))
    && (forall r :: 0 <= r < |s.readers| && s.readers[r].asleep ==>
          !s.closed && |s.queue| >= QUEUE_LINES && s.readers[r].batch != [])
  }

  lemma {:induction false} OfConcat(a: seq<Item>, b: seq<Item>, r: nat)
    ensures Of(a + b, r) == Of(a, r) + Of(b, r)
  {
    if b == [] {
      assert a + b == a;
      assert Of(a, r) + [] == Of(a, r);
    } else {
      assert (a + b)[..|a + b| - 1] == a + b[..|b| - 1];
      OfConcat(a, b[..|b| - 1], r);
    }
  }

  lemma OfOne(item: Item, r: nat)
    ensures Of([item], r) == if item.reader == r then [item.line] else []
    ensures Of([], r) == []
  {
    assert [item][..0] == [];
  }

  lemma ReadKeepsInv(s: Shared, r: nat, lines: seq<Str>)
    requires Inv(s)
    ensures Inv(Next(s, Read(r, lines)))
  {
    hide Of;
    var t := Next(s, Read(r, lines));
    forall q | 0 <= q < |t.readers|
      ensures Lossless(t, q)
    {
      assert Lossless(s, q);
    }
  }

  lemma TurnKeepsInv(s: Shared, r: nat)
    requires Inv(s)
    ensures Inv(Next(s, Turn(r)))
  {
    hide Of;
    var t := Next(s, Turn(r));
    forall q | 0 <= q < |t.readers|
      ensures Lossless(t, q)
    {
      assert Lossless(s, q);
      if t.queue != s.queue {
        var item := Item(r, s.readers[r].batch[0]);
        OfConcat(s.queue, [item], q);
        OfOne(item, q);
        if q == r {
          assert s.readers[r].batch == [item.line] + s.readers[r].batch[1..];
        }
      }
    }
  }

  lemma DrainKeepsInv(s: Shared)
    requires Inv(s)
    ensures Inv(Next(s, Drain))
  {
    hide Of;
    var t := Next(s, Drain);
    forall q | 0 <= q < |t.readers|
      ensures Lossless(t, q)
    {
      assert Lossless(s, q);
      OfConcat(s.drained, s.queue, q);
      OfOne(Item(0, []), q);
      assert Accepted(t, q) == Accepted(s, q);
    }
  }

  lemma NextKeepsInv(s: Shared, a: Action)
    requires Inv(s)
    ensures Inv(Next(s, a))
  {
    match a
    case Read(r, lines) => ReadKeepsInv(s, r, lines);
    case Turn(r) => TurnKeepsInv(s, r);
    case Drain => DrainKeepsInv(s);
    case _ =>
      hide Of;
      var t := Next(s, a);
      forall q | 0 <= q < |t.readers|
        ensures Lossless(t, q)
      {
        assert Lossless(s, q);
      }
  }

  // ── Whole runs ─────────────────────────────────────────────────────────

  ghost function Run(s: Shared, actions: seq<Action>): (t: Shared)
    requires Inv(s)
    ensures Inv(t) && |t.readers| == |s.readers|
    decreases |actions|
  {
    if actions == [] then s
    else
      NextKeepsInv(s, actions[0]);
      Run(Next(s, actions[0]), actions[1..])
  }

  lemma OpenedIsFine(readers: nat)
    ensures Inv(Opened(readers))
  {
    OfOne(Item(0, []), 0);
  }

  ghost function Session(readers: nat, actions: seq<Action>): (t: Shared)
    ensures Inv(t) && |t.readers| == readers
  {
    OpenedIsFine(readers);
    Run(Opened(readers), actions)
  }

  // Whatever the interleaving, the queue stays bounded and, until the close,
  // drained and queued lines hold each reader's lines exactly once and in its
  // order, but for those it has yet to push.
  lemma BackpressureLosesNothing(readers: nat, actions: seq<Action>, r: nat)
    requires r < readers
    ensures var s := Session(readers, actions);
            && |s.queue| <= 512
            && (!s.closed ==> Of(s.drained + s.queue, r) + s.readers[r].batch == s.offered[r])
            && (s.closed ==> Of(s.drained + s.queue, r) <= s.offered[r])
  {
    var s := Session(readers, actions);
    OfConcat(s.drained, s.queue, r);
    assert Lossless(s, r);
  }

  lemma {:induction false} RunSnoc(s: Shared, actions: seq<Action>, a: Action)
    requires Inv(s)
    ensures Run(s, actions + [a]) == Next(Run(s, actions), a)
    decreases |actions|
  {
    assert |s.offered| == |s.readers|;
    hide Next, Inv;
    if actions == [] {
      assert [] + [a] == [a] && [a][1..] == [];
      NextKeepsInv(s, a);
    } else {
      assert (actions + [a])[1..] == actions[1..] + [a];
      NextKeepsInv(s, actions[0]);
      RunSnoc(Next(s, actions[0]), actions[1..], a);
    }
  }

  // Everything reader `r` read in a run: a read counts when it had pushed all
  // it read before.
  ghost function AllRead(readers: nat, actions: seq<Action>, r: nat): seq<Str>
    requires r < readers
  {
    if actions == [] then []
    else
      var n := |actions| - 1;
      AllRead(readers, actions[..n], r)
      + (match actions[n]
         case Read(q, lines) => if q == r && Session(readers, actions[..n]).readers[r].batch == [] then lines else []
         case _ => [])
  }

  // What a reader has to push is what it read, in every interleaving.
  lemma {:induction false} OfferedIsRead(readers: nat, actions: seq<Action>, r: nat)
    requires r < readers
    ensures Session(readers, actions).offered[r] == AllRead(readers, actions, r)
    decreases |actions|
  {
    if actions != [] {
      var n := |actions| - 1;
      OpenedIsFine(readers);
      assert actions == actions[..n] + [actions[n]];
      RunSnoc(Opened(readers), actions[..n], actions[n]);
      OfferedIsRead(readers, actions[..n], r);
      hide Of, Run, Opened;
      var s := Session(readers, actions[..n]);
      assert s.offered[r] + [] == s.offered[r];
    }
  }

  // A close ends every push, in every interleaving: no reader is left asleep,
  // and the next turn of each gives up what it had to push and queues nothing.
  lemma CloseReleasesReaders(readers: nat, actions: seq<Action>, r: nat)
    requires r < readers
    ensures var s := Session(readers, actions);
            var t := Next(s, Close);
            && t.closed && t.queue == s.queue && t.drained == s.drained && !t.readers[r].asleep
            && t.readers[r].batch == s.readers[r].batch
            && Next(t, Turn(r)).readers[r].batch == [] && Next(t, Turn(r)).queue == t.queue
  {
    hide Of, Session;
  }

  // A notified reader is awake again, with all it had to push.
  lemma WakeKeepsBatch(s: Shared, r: nat)
    requires Inv(s) && r < |s.readers|
    ensures Next(s, Wake(r)) == s.(readers := s.readers[r := Reader(s.readers[r].batch, false)])
  {
  }

  // No wake-up is lost: a reader sleeps only while the queue is open and
  // full, so never after a close; then one turn ends its push.
  lemma SleepersHaveReason(readers: nat, actions: seq<Action>, r: nat)
    requires r < readers
    ensures var s := Session(readers, actions);
            && (s.readers[r].asleep ==> !s.closed && |s.queue| == 512)
            && (s.closed ==> !s.readers[r].asleep && Next(s, Turn(r)).readers[r].batch == [])
  {
  }

  // Where the queue has room no reader is asleep, and the turns of any one of
  // them push as many of its lines as there is room for, and no more.
  lemma RoomLetsReadersOn(s: Shared, r: nat)
    requires Inv(s) && r < |s.readers| && !s.closed && |s.queue| < QUEUE_LINES
    ensures var (batch, room) := (s.readers[r].batch, QUEUE_LINES - |s.queue|);
            var n := if |batch| < room then |batch| else room;
            var t := Turns(s, r, n);
            && (forall q :: 0 <= q < |s.readers| ==> !s.readers[q].asleep)
            && t.queue == s.queue + Tagged(r, batch[..n]) && t.readers == s.readers[r := Reader(batch[n..], false)]
            && (batch[n..] != [] ==> Next(t, Turn(r)) == t.(readers := t.readers[r := Reader(batch[n..], true)]))
  {
    hide Of, Tagged, Turns;
    var (batch, room) := (s.readers[r].batch, QUEUE_LINES - |s.queue|);
    var n := if |batch| < room then |batch| else room;
    PushIsTurns(s, r, n);
    TaggedLength(r, batch[..n]);
  }

  // Backpressure is lifted by one drain, in every interleaving: no reader is
  // left asleep, whether or not the drain found anything and so told anyone,
  // and the turns of any one of them then push what it was holding back, as
  // far as the queue is long, and no further.
  lemma DrainLetsReadersOn(readers: nat, actions: seq<Action>, r: nat)
    requires r < readers && !Session(readers, actions).closed
    ensures var t := Next(Session(readers, actions), Drain);
            var batch := t.readers[r].batch;
            var n := if |batch| < QUEUE_LINES then |batch| else QUEUE_LINES;
            var u := Turns(t, r, n);
            && batch == Session(readers, actions).readers[r].batch
            && (forall q :: 0 <= q < readers ==> !t.readers[q].asleep)
            && u.queue == Tagged(r, batch[..n]) && Of(u.queue, r) == batch[..n]
            && u.readers == t.readers[r := Reader(batch[n..], false)]
            && (batch[n..] != [] ==> Next(u, Turn(r)) == u.(readers := u.readers[r := Reader(batch[n..], true)]))
  {
    var s := Session(readers, actions);
    var t := Next(s, Drain);
    DrainKeepsInv(s);
    hide Of, Tagged, Turns, Session, Run, PushTurn, Inv;
    RoomLetsReadersOn(t, r);
    var batch := t.readers[r].batch;
    OfTagged(r, batch[..if |batch| < QUEUE_LINES then |batch| else QUEUE_LINES], r);
  }

  lemma TaggedLength(r: nat, lines: seq<Str>)
    ensures |Tagged(r, lines)| == |lines|
  {
  }

  // ── The queue ──────────────────────────────────────────────────────────

  datatype Outcome = Queued | Full | Refused

  class LineQueue {
    var lines: seq<Item>
    var closed: bool

    constructor ()
      ensures lines == [] && !closed
    {
      lines, closed := [], false;
    }

    // The push loop up to the first line that has to wait; `rest` is what is
    // still to push, and `blocked` says that it waits for space.
    method Push(r: nat, batch: seq<Str>) returns (rest: seq<Str>, blocked: bool)
      requires |lines| <= QUEUE_LINES
      modifies this`lines
      ensures |lines| <= QUEUE_LINES
      ensures closed ==> rest == [] && !blocked && lines == old(lines)
      ensures !closed ==>
                && |rest| <= |batch| && rest == batch[|batch| - |rest|..]
                && lines == old(lines) + Tagged(r, batch[..|batch| - |rest|])
                && blocked == (rest != []) && (blocked ==> |lines| == QUEUE_LINES)
    {
      var i := 0;
      blocked := false;
      while i < |batch|
        invariant i <= |batch| && |lines| <= QUEUE_LINES && !blocked
        invariant closed ==> lines == old(lines)
        invariant !closed ==> lines == old(lines) + Tagged(r, batch[..i])
      {
        if |lines| >= QUEUE_LINES && !closed {
          return batch[i..], true;
        }
        if closed {
          return [], false;
        }
        TaggedNext(r, batch, i);
        lines := lines + [Item(r, batch[i])];
        i := i + 1;
      }
      assert batch[..i] == batch;
      rest := [];
    }

    // Takes everything queued; a waiting reader is told when that made room.
    method Drain() returns (out: seq<Item>, notify: bool)
      modifies this`lines
      ensures out == old(lines) && lines == [] && notify == (old(lines) != [])
    {
      out := lines;
      lines := [];
      notify := out != [];
    }

    method Close()
      modifies this`closed
      ensures closed
    {
      closed := true;
    }
  }

  function Tagged(r: nat, lines: seq<Str>): seq<Item> {
    seq(|lines|, i requires 0 <= i < |lines| => Item(r, lines[i]))
  }

  lemma TaggedNext(r: nat, batch: seq<Str>, i: nat)
    requires i < |batch|
    ensures Tagged(r, batch[..i + 1]) == Tagged(r, batch[..i]) + [Item(r, batch[i])]
  {
  }

  // Pushing a batch queues it for its reader, and for no other.
  lemma {:induction false} OfTagged(r: nat, lines: seq<Str>, q: nat)
    ensures Of(Tagged(r, lines), q) == if q == r then lines else []
  {
    if lines != [] {
      hide Of, Tagged;
      var n := |lines| - 1;
      OfTagged(r, lines[..n], q);
      assert lines[..n + 1] == lines == lines[..n] + [lines[n]];
      TaggedNext(r, lines, n);
      OfConcat(Tagged(r, lines[..n]), [Item(r, lines[n])], q);
      OfOne(Item(r, lines[n]), q);
    }
  }

  // The loop of a push is its turns: until it waits, each queues one line.
  lemma {:induction false} PushIsTurns(s: Shared, r: nat, n: nat)
    requires r < |s.readers| && |s.offered| == |s.readers| && !s.closed && !s.readers[r].asleep
    requires n <= |s.readers[r].batch| && |s.queue| + n <= QUEUE_LINES
    ensures var batch := s.readers[r].batch;
            Turns(s, r, n) == s.(queue := s.queue + Tagged(r, batch[..n]), readers := s.readers[r := Reader(batch[n..], false)])
  {
    var batch := s.readers[r].batch;
    if n == 0 {
      assert s.readers[r := Reader(batch[0..], false)] == s.readers;
      assert Tagged(r, batch[..0]) == [] && s.queue + [] == s.queue;
    } else {
      PushIsTurns(s, r, n - 1);
      TaggedNext(r, batch, n - 1);
      var t := Turns(s, r, n - 1);
      assert s.queue + Tagged(r, batch[..n - 1]) + [Item(r, batch[n - 1])] == s.queue + Tagged(r, batch[..n]);
      assert t.readers[r := Reader(batch[n..], false)] == s.readers[r := Reader(batch[n..], false)];
      assert batch[n - 1..][1..] == batch[n..];
    }
  }

  function Turns(s: Shared, r: nat, n: nat): (t: Shared)
    requires |s.offered| == |s.readers|
    ensures |t.offered| == |t.readers|
  {
    if n == 0 then s else Next(Turns(s, r, n - 1), Turn(r))
  }
}
