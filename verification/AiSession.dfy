// One AI session: its bounded event queue and its turns, over every
// interleaving (crates/gpty-ai/src/registry.rs).
//
// A turn's run id is its number: the code spells it "session-turn" and the
// session is fixed. An emission takes its sequence number, queues its event
// and clears the active turn in three separate steps, and the model lets any
// number of emissions be under way at once; the workers keep to one.
module AiSession {
  import opened Wrappers

  const MAX_QUEUED_EVENTS: nat := 2048

  datatype Event = Progress(text: string) | Done(text: string) | Dropped(count: nat)

  datatype Envelope = Envelope(turn: nat, sequence: nat, event: Event)

  // ── The queue ──────────────────────────────────────────────────────────

  datatype Queue = Queue(events: seq<Envelope>, dropped: nat)

  function Pushed(q: Queue, e: Envelope): Queue {
    if |q.events| == MAX_QUEUED_EVENTS then Queue(q.events[1..] + [e], q.dropped + 1)
    else Queue(q.events + [e], q.dropped)
  }

  // How many events a drain takes.
  function Taken(q: Queue, max: nat): (n: nat)
    ensures n <= |q.events|
  {
    var wanted := if max < 1 then 1 else if max > MAX_QUEUED_EVENTS then MAX_QUEUED_EVENTS else max;
    if wanted < |q.events| then wanted else |q.events|
  }

  function Notice(count: nat, sequence: nat): Envelope {
    Envelope(0, sequence, Dropped(count))
  }

  // What a drain hands out: a notice of the drops, if any, and the oldest
  // events.
  function Handed(q: Queue, max: nat, sequence: nat): seq<Envelope> {
    (if q.dropped > 0 then [Notice(q.dropped, sequence)] else []) + q.events[..Taken(q, max)]
  }

  class EventQueue {
    var events: seq<Envelope>
    var dropped: nat

    constructor ()
      ensures View() == Queue([], 0)
    {
      events, dropped := [], 0;
    }

    function View(): Queue
      reads this
    {
      Queue(events, dropped)
    }

    method Push(e: Envelope)
      modifies this
      ensures View() == Pushed(old(View()), e)
    {
      if |events| == MAX_QUEUED_EVENTS {
        events := events[1..];
        dropped := dropped + 1;
      }
      events := events + [e];
    }

    // Up to `max` events, after a notice when earlier ones were dropped; the
    // notice takes the next sequence number.
    method Drain(max: nat, sequence: nat) returns (out: seq<Envelope>, sequence': nat)
      modifies this
      ensures View() == Queue(old(events)[Taken(old(View()), max)..], 0)
      ensures out == Handed(old(View()), max, sequence)
      ensures sequence' == if old(dropped) > 0 then sequence + 1 else sequence
    {
      var count := Taken(View(), max);
      var lost := dropped;
      dropped := 0;
      out := events[..count];
      events := events[count..];
      sequence' := sequence;
      if lost > 0 {
        out := [Notice(lost, sequence)] + out;
        sequence' := sequence + 1;
      }
    }
  }

  // ── The session ────────────────────────────────────────────────────────

  // An emission under way: its envelope, and whether that is queued yet.
  datatype Emission = Emission(envelope: Envelope, queued: bool)

  // The session, and the books: the turns begun, every envelope queued, those
  // delivered, how many drops were announced, and how many events evicted.
  // `admitted` counts the prompts that saw the session open and have not
  // taken the turn's lock yet.
  datatype Session = Session(
    active: Option<nat>, nextTurn: nat, nextSequence: nat, closed: bool, admitted: nat, queue: Queue, underway: seq<Emission>,
    turns: seq<nat>, emitted: seq<Envelope>, delivered: seq<Envelope>, announced: nat, evicted: nat)

  datatype Action =
    | Admit
    | Prompt(accepted: bool)
    | Emit(turn: nat, event: Event)
    | Enqueue(k: nat)
    | Finish(k: nat)
    | Poll(max: nat)
    | Close

  const OPENED := Session(None, 1, 1, false, 0, Queue([], 0), [], [], [], [], 0, 0)

  function Without(xs: seq<Emission>, k: nat): seq<Emission>
    requires k < |xs|
  {
    xs[..k] + xs[k + 1..]
  }

  function Next(s: Session, a: Action): Session {
    match a
    case Admit => if s.closed then s else s.(admitted := s.admitted + 1)
    case Prompt(accepted) =>
      if s.admitted == 0 then s
      else
        var t := s.(admitted := s.admitted - 1);
        if s.active.Some? then t
        else t.(nextTurn := s.nextTurn + 1, active := if accepted then Some(s.nextTurn) else None, turns := s.turns + [s.nextTurn])
    case Emit(turn, event) =>
      if turn == 0 || turn >= s.nextTurn || event.Dropped? then s
      else s.(nextSequence := s.nextSequence + 1,
              underway := s.underway + [Emission(Envelope(turn, s.nextSequence, event), false)])
    case Enqueue(k) =>
      if k >= |s.underway| || s.underway[k].queued then s
      else
        var e := s.underway[k].envelope;
        s.(queue := Pushed(s.queue, e), emitted := s.emitted + [e],
           evicted := s.evicted + (if |s.queue.events| == MAX_QUEUED_EVENTS then 1 else 0),
           underway := s.underway[k := Emission(e, true)])
    case Finish(k) =>
      if k >= |s.underway| || !s.underway[k].queued then s
      else
        var e := s.underway[k].envelope;
        s.(active := if e.event.Done? && s.active == Some(e.turn) then None else s.active, underway := Without(s.underway, k))
    case Poll(max) =>
      var n := Taken(s.queue, max);
      s.(queue := Queue(s.queue.events[n..], 0), delivered := s.delivered + s.queue.events[..n],
         announced := s.announced + s.queue.dropped,
         nextSequence := if s.queue.dropped > 0 then s.nextSequence + 1 else s.nextSequence)
    case Close => s.(closed := true)
  }

  // What a poll hands to the consumer.
  function Polled(s: Session, max: nat): seq<Envelope> {
    Handed(s.queue, max, s.nextSequence)
  }

  // ── The books balance ──────────────────────────────────────────────────

  // `kept` are the positions in `emitted` of what was delivered or is queued.
  ghost predicate Kept(s: Session, kept: seq<nat>) {
    && |kept| == |s.delivered| + |s.queue.events|
    && |s.emitted| == |kept| + s.evicted
    && (forall i :: 0 <= i < |kept| ==> kept[i] < |s.emitted| && s.emitted[kept[i]] == (s.delivered + s.queue.events)[i])
    && (forall i, j :: 0 <= i < j < |kept| ==> kept[i] < kept[j])
  }

  // The events delivered, followed by those queued, are the emitted ones in
  // order, less the evicted; and every eviction is announced or about to be.
  ghost predicate Balanced(s: Session) {
    && s.announced + s.queue.dropped == s.evicted
    && |s.queue.events| <= MAX_QUEUED_EVENTS
    && exists kept: seq<nat> :: Kept(s, kept)
  }

  // The active turn is the latest one, and no number was used twice.
  ghost predicate OneTurn(s: Session) {
    && s.nextTurn == |s.turns| + 1
    && (forall i :: 0 <= i < |s.turns| ==> s.turns[i] == i + 1)
    && (s.active.Some? ==> s.active.value == s.nextTurn - 1 && s.active.value >= 1)
    && forall k :: 0 <= k < |s.underway| ==> 1 <= s.underway[k].envelope.turn < s.nextTurn
  }

  ghost predicate Below(es: seq<Envelope>, n: nat) {
    forall i :: 0 <= i < |es| ==> es[i].sequence < n
  }

  ghost predicate Waiting(us: seq<Emission>, n: nat) {
    && (forall k :: 0 <= k < |us| ==> us[k].envelope.sequence < n)
    && (forall j, k :: 0 <= j < k < |us| ==> us[j].envelope.sequence < us[k].envelope.sequence)
  }

  // Every number taken is below the next one, and emissions under way hold
  // theirs in the order they took them.
  ghost predicate Numbered(s: Session) {
    Below(s.emitted, s.nextSequence) && Waiting(s.underway, s.nextSequence)
  }

  lemma EnqueueKeepsKept(s: Session, k: nat, kept: seq<nat>) returns (kept': seq<nat>)
    requires k < |s.underway| && !s.underway[k].queued && |s.queue.events| <= MAX_QUEUED_EVENTS && Kept(s, kept)
    ensures Kept(Next(s, Enqueue(k)), kept')
  {
    var t := Next(s, Enqueue(k));
    var d := |s.delivered|;
    var last := |s.emitted|;
    if |s.queue.events| == MAX_QUEUED_EVENTS {
      var room := s.(queue := Queue(s.queue.events[1..], s.queue.dropped + 1), evicted := s.evicted + 1);
      var left := EvictionKeepsKept(s, kept);
      kept' := left + [last];
      KeptSnoc(room, left, t);
    } else {
      kept' := kept + [last];
      KeptSnoc(s, kept, t);
    }
  }

  lemma EvictionKeepsKept(s: Session, kept: seq<nat>) returns (left: seq<nat>)
    requires Kept(s, kept) && s.queue.events != []
    ensures Kept(s.(queue := Queue(s.queue.events[1..], s.queue.dropped + 1), evicted := s.evicted + 1), left)
  {
    var d := |s.delivered|;
    left := kept[..d] + kept[d + 1..];
    assert forall i :: 0 <= i < |left| ==> left[i] == kept[if i < d then i else i + 1];
    assert forall i :: 0 <= i < |left| ==>
      (s.delivered + s.queue.events[1..])[i] == (s.delivered + s.queue.events)[if i < d then i else i + 1];
  }

  lemma KeptSnoc(s: Session, kept: seq<nat>, t: Session)
    requires Kept(s, kept) && |t.emitted| == |s.emitted| + 1 && t.emitted[..|s.emitted|] == s.emitted
    requires t.delivered == s.delivered && t.evicted == s.evicted && t.queue.events == s.queue.events + [t.emitted[|s.emitted|]]
    ensures Kept(t, kept + [|s.emitted|])
  {
    assert t.delivered + t.queue.events == (s.delivered + s.queue.events) + [t.emitted[|s.emitted|]];
    assert forall i :: 0 <= i < |s.emitted| ==> t.emitted[i] == s.emitted[i];
  }

  lemma NextKeepsBalance(s: Session, a: Action)
    requires Balanced(s)
    ensures Balanced(Next(s, a))
  {
    var kept :| Kept(s, kept);
    if a.Enqueue? && a.k < |s.underway| && !s.underway[a.k].queued {
      var kept' := EnqueueKeepsKept(s, a.k, kept);
    } else {
      var t := Next(s, a);
      assert t.delivered + t.queue.events == s.delivered + s.queue.events;
      assert Kept(t, kept);
    }
  }

  lemma NextKeepsOneTurn(s: Session, a: Action)
    requires OneTurn(s)
    ensures OneTurn(Next(s, a))
  {
  }

  lemma QueueingKeepsWaiting(us: seq<Emission>, k: nat, es: seq<Envelope>, n: nat)
    requires Waiting(us, n) && Below(es, n) && k < |us|
    ensures Waiting(us[k := Emission(us[k].envelope, true)], n) && Below(es + [us[k].envelope], n)
  {
  }

  lemma FinishingKeepsWaiting(us: seq<Emission>, k: nat, n: nat)
    requires Waiting(us, n) && k < |us|
    ensures Waiting(Without(us, k), n)
  {
    var left := Without(us, k);
    assert forall i :: 0 <= i < |left| ==> left[i] == us[if i < k then i else i + 1];
  }

  lemma TakingANumber(us: seq<Emission>, es: seq<Envelope>, u: Emission, n: nat)
    requires Waiting(us, n) && Below(es, n) && u.envelope.sequence == n
    ensures Waiting(us + [u], n + 1) && Waiting(us, n + 1) && Below(es, n + 1)
  {
  }

  lemma NextKeepsNumbered(s: Session, a: Action)
    requires Numbered(s)
    ensures Numbered(Next(s, a)) && Next(s, a).nextSequence >= s.nextSequence
  {
    hide Pushed, Taken, Without, Waiting, Below;
    TakingANumber(s.underway, s.emitted, Emission(Envelope(0, s.nextSequence, Done("")), false), s.nextSequence);
    match a
    case Emit(turn, event) =>
      TakingANumber(s.underway, s.emitted, Emission(Envelope(turn, s.nextSequence, event), false), s.nextSequence);
    case Enqueue(k) =>
      if k < |s.underway| { QueueingKeepsWaiting(s.underway, k, s.emitted, s.nextSequence); }
    case Finish(k) =>
      if k < |s.underway| { FinishingKeepsWaiting(s.underway, k, s.nextSequence); }
    case _ =>
  }

  ghost predicate Sound(s: Session) {
    Balanced(s) && OneTurn(s) && Numbered(s)
  }

  function Run(s: Session, actions: seq<Action>): Session {
    if actions == [] then s else Next(Run(s, actions[..|actions| - 1]), actions[|actions| - 1])
  }

  lemma RunLast(s: Session, actions: seq<Action>, a: Action)
    ensures Run(s, actions + [a]) == Next(Run(s, actions), a)
  {
    hide Next;
    assert (actions + [a])[..|actions|] == actions;
  }

  lemma {:induction false} RunIsSound(actions: seq<Action>)
    ensures Sound(Run(OPENED, actions))
  {
    if actions == [] {
      assert Kept(OPENED, []);
    } else {
      hide Next, Balanced, OneTurn, Numbered;
      RunIsSound(actions[..|actions| - 1]);
      NextKeepsBalance(Run(OPENED, actions[..|actions| - 1]), actions[|actions| - 1]);
      NextKeepsOneTurn(Run(OPENED, actions[..|actions| - 1]), actions[|actions| - 1]);
      NextKeepsNumbered(Run(OPENED, actions[..|actions| - 1]), actions[|actions| - 1]);
    }
  }

  // ── What the polls hand out ────────────────────────────────────────────

  // The envelopes of every poll of a run, in order.
  function HandedOut(s: Session, actions: seq<Action>): seq<Envelope> {
    if actions == [] then []
    else
      var n := |actions| - 1;
      HandedOut(s, actions[..n]) + (if actions[n].Poll? then Polled(Run(s, actions[..n]), actions[n].max) else [])
  }

  // The drops that the notices among `es` own up to, and the other envelopes.
  function Announced(es: seq<Envelope>): nat {
    if es == [] then 0
    else Announced(es[..|es| - 1]) + (match es[|es| - 1].event case Dropped(count) => count case _ => 0)
  }

  function Others(es: seq<Envelope>): seq<Envelope> {
    if es == [] then []
    else Others(es[..|es| - 1]) + (if es[|es| - 1].event.Dropped? then [] else [es[|es| - 1]])
  }

  ghost predicate NoNotice(es: seq<Envelope>) {
    forall i :: 0 <= i < |es| ==> !es[i].event.Dropped?
  }

  lemma {:induction false} ConcatCounts(a: seq<Envelope>, b: seq<Envelope>)
    ensures Announced(a + b) == Announced(a) + Announced(b) && Others(a + b) == Others(a) + Others(b)
  {
    if b == [] {
      assert a + b == a;
    } else {
      assert (a + b)[..|a + b| - 1] == a + b[..|b| - 1];
      ConcatCounts(a, b[..|b| - 1]);
    }
  }

  lemma {:induction false} EventsCount(es: seq<Envelope>)
    requires NoNotice(es)
    ensures Announced(es) == 0 && Others(es) == es
  {
    if es != [] {
      EventsCount(es[..|es| - 1]);
    }
  }

  lemma NoticeCounts(count: nat, sequence: nat)
    ensures var n := Notice(count, sequence); Announced([n]) == count && Others([n]) == []
  {
    var es := [Notice(count, sequence)];
    assert es[..|es| - 1] == [];
  }

  // A notice leads what is handed out exactly when something was dropped, and
  // owns up to all of it.
  lemma HandedCounts(q: Queue, max: nat, sequence: nat)
    requires NoNotice(q.events)
    ensures var out := Handed(q, max, sequence);
            && Announced(out) == q.dropped && Others(out) == q.events[..Taken(q, max)]
            && forall i :: 0 <= i < |out| ==>
                 (out[i].event.Dropped? <==> i == 0 && q.dropped > 0)
                 && (i == 0 && q.dropped > 0 ==> out[i] == Envelope(0, sequence, Dropped(q.dropped)))
  {
    var events := q.events[..Taken(q, max)];
    EventsCount(events);
    EventsCount([]);
    NoticeCounts(q.dropped, sequence);
    ConcatCounts([Notice(q.dropped, sequence)], events);
    ConcatCounts([], events);
  }

  // Nothing under way or queued is a notice.
  ghost predicate Genuine(s: Session) {
    NoNotice(s.queue.events) && forall k :: 0 <= k < |s.underway| ==> !s.underway[k].envelope.event.Dropped?
  }

  lemma NextKeepsGenuine(s: Session, a: Action)
    requires Genuine(s)
    ensures Genuine(Next(s, a))
  {
    hide Taken;
  }

  // The books of a step: only a poll delivers and announces, and without one
  // what is dropped is evicted.
  lemma StepBooks(s: Session, a: Action)
    ensures var t := Next(s, a);
            if a.Poll? then
              t.delivered == s.delivered + s.queue.events[..Taken(s.queue, a.max)] && t.announced == s.announced + s.queue.dropped
              && t.queue.dropped == 0 && t.evicted == s.evicted
            else
              t.delivered == s.delivered && t.announced == s.announced && t.queue.dropped - s.queue.dropped == t.evicted - s.evicted
  {
    hide Taken;
  }

  // Over every run: what was handed out is what was delivered, and the books'
  // announced drops are those the notices named.
  lemma {:induction false} HandedOutIsBooked(actions: seq<Action>)
    ensures var (s, out) := (Run(OPENED, actions), HandedOut(OPENED, actions));
            Genuine(s) && Others(out) == s.delivered && Announced(out) == s.announced
  {
    if actions != [] {
      var n := |actions| - 1;
      var (s, a) := (Run(OPENED, actions[..n]), actions[n]);
      hide Taken, Handed, Others, Announced, Genuine, Next;
      HandedOutIsBooked(actions[..n]);
      NextKeepsGenuine(s, a);
      StepBooks(s, a);
      if a.Poll? {
        GenuineQueue(s);
        HandedCounts(s.queue, a.max, s.nextSequence);
        ConcatCounts(HandedOut(OPENED, actions[..n]), Polled(s, a.max));
      } else {
        assert HandedOut(OPENED, actions) == HandedOut(OPENED, actions[..n]);
      }
    }
  }

  lemma GenuineQueue(s: Session)
    requires Genuine(s)
    ensures NoNotice(s.queue.events)
  {
  }

  // Over every interleaving the drops that the polls' notices name, and those
  // not named yet, are all the events that were queued and are neither handed
  // out nor queued still; and what the consumer has or will get is in the
  // order it was queued.
  lemma AccountingIsExact(actions: seq<Action>)
    ensures var (s, out) := (Run(OPENED, actions), HandedOut(OPENED, actions));
            && Announced(out) + s.queue.dropped == s.evicted
            && |s.emitted| == |Others(out)| + |s.queue.events| + s.evicted
            && Others(out) == s.delivered
            && exists kept: seq<nat> :: Kept(s, kept)
  {
    HandedOutIsBooked(actions);
    hide HandedOut, Others, Announced;
    RunIsSound(actions);
    var s := Run(OPENED, actions);
    var kept :| Kept(s, kept);
  }

  // Over every interleaving a poll begins with a notice if and only if events
  // were evicted since the last poll, or the start; it says how many, and it
  // is the only one. Behind it come the oldest events, as many as were asked
  // for, at least one.
  lemma NoticeIffEvicted(actions: seq<Action>, i: nat, max: nat)
    requires i <= |actions| && (i > 0 ==> actions[i - 1].Poll?)
    requires forall j :: i <= j < |actions| ==> !actions[j].Poll?
    ensures var s := Run(OPENED, actions);
            var (out, lost) := (Polled(s, max), s.evicted - Run(OPENED, actions[..i]).evicted);
            && (forall k :: 0 <= k < |out| ==> (out[k].event.Dropped? <==> k == 0 && lost > 0))
            && (lost > 0 ==> out != [] && out[0] == Envelope(0, s.nextSequence, Dropped(lost)))
            && Others(out) == s.queue.events[..Least(|s.queue.events|, if max == 0 then 1 else max)]
  {
    hide Run;
    HandedOutIsBooked(actions);
    RunIsSound(actions);
    DroppedSincePoll(actions, i);
    HandedCounts(Run(OPENED, actions).queue, max, Run(OPENED, actions).nextSequence);
  }

  function Least(a: nat, b: nat): nat {
    if a < b then a else b
  }

  lemma {:induction false} DroppedSincePoll(actions: seq<Action>, i: nat)
    requires i <= |actions| && (i > 0 ==> actions[i - 1].Poll?)
    requires forall j :: i <= j < |actions| ==> !actions[j].Poll?
    ensures Run(OPENED, actions).queue.dropped == Run(OPENED, actions).evicted - Run(OPENED, actions[..i]).evicted
  {
    var n := |actions| - 1;
    if i == |actions| {
      assert actions[..i] == actions;
      if i > 0 { StepBooks(Run(OPENED, actions[..n]), actions[n]); }
      hide Next;
    } else {
      hide Next;
      DroppedSincePoll(actions[..n], i);
      StepBooks(Run(OPENED, actions[..n]), actions[n]);
      assert actions[..n][..i] == actions[..i];
    }
  }

  // ── Turns ──────────────────────────────────────────────────────────────

  // In every interleaving only a terminal event of the active turn itself
  // clears it; one of an older turn never does.
  lemma OldTurnNeverClearsNewer(actions: seq<Action>, a: Action)
    ensures var s := Run(OPENED, actions);
            s.active.Some? && Next(s, a).active != s.active <==>
            a.Finish? && a.k < |s.underway| && s.underway[a.k].queued && s.underway[a.k].envelope.event.Done?
            && s.underway[a.k].envelope.turn == s.nextTurn - 1 && s.active.Some?
  {
    RunIsSound(actions);
    hide Run, Balanced, Numbered;
  }

  // A turn becomes active only while none is, and only for a prompt that saw
  // the session open.
  lemma TurnBeginsIff(s: Session, a: Action)
    ensures var t := Next(s, a);
            && (t.active.Some? && t.active != s.active <==> a == Prompt(true) && s.admitted > 0 && s.active.None?)
            && (t.admitted > s.admitted ==> !s.closed)
  {
  }

  function At(actions: seq<Action>, i: nat): Session
    requires i <= |actions|
  {
    Run(OPENED, actions[..i])
  }

  // Action `i` of the run begins turn `m`, which is refused again unless the
  // worker's command queue took it.
  ghost predicate BeginsAt(actions: seq<Action>, i: nat, m: nat) {
    && i < |actions| && actions[i].Prompt?
    && At(actions, i).admitted > 0 && At(actions, i).active.None? && At(actions, i).nextTurn == m
  }

  // Action `j` of the run clears turn `m`, on a terminal event of its own.
  ghost predicate ClearsAt(actions: seq<Action>, j: nat, m: nat) {
    && j < |actions| && actions[j].Finish? && actions[j].k < |At(actions, j).underway|
    && At(actions, j).active == Some(m)
    && At(actions, j).underway[actions[j].k].queued
    && At(actions, j).underway[actions[j].k].envelope.turn == m
    && At(actions, j).underway[actions[j].k].envelope.event.Done?
  }

  lemma AtStep(actions: seq<Action>, i: nat)
    requires i < |actions|
    ensures At(actions, i + 1) == Next(At(actions, i), actions[i])
  {
    hide Next;
    assert actions[..i + 1][..i] == actions[..i];
  }

  // Two turns of one run never overlap: before a later one begins, the earlier
  // was refused, or a terminal event of its own cleared it.
  lemma TurnsDoNotOverlap(actions: seq<Action>, i: nat, i': nat, m: nat, n: nat)
    requires i < i' && BeginsAt(actions, i, m) && BeginsAt(actions, i', n)
    ensures m < n
    ensures actions[i] == Prompt(false) || exists j :: i < j < i' && ClearsAt(actions, j, m)
  {
    TurnNumbersGrow(actions, i + 1, i');
    AtStep(actions, i);
    if actions[i].accepted {
      StaysActive(actions, i, i', m);
    }
  }

  lemma {:induction false} TurnNumbersGrow(actions: seq<Action>, i: nat, i': nat)
    requires i <= i' <= |actions|
    ensures At(actions, i).nextTurn <= At(actions, i').nextTurn
    decreases i'
  {
    if i < i' {
      TurnNumbersGrow(actions, i, i' - 1);
      AtStep(actions, i' - 1);
    }
  }

  lemma {:induction false} StaysActive(actions: seq<Action>, i: nat, p: nat, m: nat)
    requires i < p <= |actions| && BeginsAt(actions, i, m) && actions[i].accepted
    ensures At(actions, p).active == Some(m) || exists j :: i < j < p && ClearsAt(actions, j, m)
    decreases p
  {
    hide At;
    AtStep(actions, p - 1);
    if i < p - 1 {
      StaysActive(actions, i, p - 1, m);
      if At(actions, p - 1).active == Some(m) && At(actions, p).active != Some(m) {
        ActiveEndsIff(At(actions, p - 1), actions[p - 1]);
        assert ClearsAt(actions, p - 1, m);
      }
    }
  }

  lemma ActiveEndsIff(s: Session, a: Action)
    ensures s.active.Some? && Next(s, a).active != s.active <==>
            a.Finish? && a.k < |s.underway| && s.underway[a.k].queued && s.underway[a.k].envelope.event.Done?
            && s.active == Some(s.underway[a.k].envelope.turn)
  {
  }

  ghost predicate UnderWay(actions: seq<Action>, i: nat, p: nat, m: nat) {
    && i < p <= |actions| && BeginsAt(actions, i, m) && actions[i].accepted
    && forall j :: i < j < p ==> !ClearsAt(actions, j, m)
  }

  // The active turn is the one that began, was not refused, and has not been
  // cleared since.
  lemma {:induction false} ActiveIff(actions: seq<Action>, p: nat, m: nat)
    requires p <= |actions|
    ensures At(actions, p).active == Some(m) <==> exists i :: UnderWay(actions, i, p, m)
    decreases p
  {
    hide At, ClearsAt, BeginsAt;
    NothingActiveAtFirst(actions);
    if At(actions, p).active == Some(m) {
      AtStep(actions, p - 1);
      TurnBeginsIff(At(actions, p - 1), actions[p - 1]);
      if At(actions, p - 1).active == Some(m) {
        ActiveIff(actions, p - 1, m);
        var i :| UnderWay(actions, i, p - 1, m);
        if ClearsAt(actions, p - 1, m) {
          ClearingIsSeen(actions, p - 1, m);
        }
        assert UnderWay(actions, i, p, m);
      } else {
        BeginningIsSeen(actions, p - 1);
        assert UnderWay(actions, p - 1, p, m);
      }
    } else if i :| UnderWay(actions, i, p, m) {
      StaysActive(actions, i, p, m);
    }
  }

  lemma NothingActiveAtFirst(actions: seq<Action>)
    ensures At(actions, 0).active == None && At(actions, 0).turns == []
  {
  }

  lemma ClearingIsSeen(actions: seq<Action>, j: nat, m: nat)
    requires j < |actions| && ClearsAt(actions, j, m)
    ensures At(actions, j + 1).active == None
  {
    AtStep(actions, j);
    hide At;
  }

  lemma BeginningIsSeen(actions: seq<Action>, i: nat)
    requires i < |actions| && actions[i] == Prompt(true) && At(actions, i).admitted > 0 && At(actions, i).active.None?
    ensures BeginsAt(actions, i, At(actions, i).nextTurn) && At(actions, i + 1).active == Some(At(actions, i).nextTurn)
  {
    AtStep(actions, i);
    hide At;
  }

  // Every turn on the books began at one place of the run.
  lemma {:induction false} EveryTurnBegan(actions: seq<Action>, m: nat)
    requires m in Run(OPENED, actions).turns
    ensures exists i :: BeginsAt(actions, i, m) && forall i' :: BeginsAt(actions, i', m) ==> i' == i
  {
    assert actions[..|actions|] == actions;
    var i := TurnBegan(actions, |actions|, m);
    forall i' | BeginsAt(actions, i', m) ensures i' == i {
      if i' < i {
        TurnsDoNotOverlap(actions, i', i, m, m);
      } else if i < i' {
        TurnsDoNotOverlap(actions, i, i', m, m);
      }
    }
  }

  lemma {:induction false} TurnBegan(actions: seq<Action>, p: nat, m: nat) returns (i: nat)
    requires p <= |actions| && m in At(actions, p).turns
    ensures BeginsAt(actions, i, m)
    decreases p
  {
    assert p > 0;
    AtStep(actions, p - 1);
    hide At;
    if m in At(actions, p - 1).turns {
      i := TurnBegan(actions, p - 1, m);
    } else {
      i := p - 1;
    }
  }

  // No number is given twice: the turns begun are numbered in order, and the
  // active one is the last of them.
  lemma TurnNumbersAreFresh(actions: seq<Action>)
    ensures var s := Run(OPENED, actions);
            && (forall i, j :: 0 <= i < j < |s.turns| ==> s.turns[i] < s.turns[j])
            && (s.active.Some? ==> s.turns != [] && s.active.value == s.turns[|s.turns| - 1])
  {
    RunIsSound(actions);
    hide Run, Balanced, Numbered;
  }

  // The session need not be open any more by then: the flag is read before
  // the lock is taken, and `close` sets it without the lock.
  lemma TurnCanBeginOnAClosedSession()
    ensures var s := Run(OPENED, [Admit, Close, Prompt(true)]);
            s.closed && s.active == Some(1)
  {
    assert [Admit, Close, Prompt(true)] == (([] + [Admit]) + [Close]) + [Prompt(true)];
    RunLast(OPENED, [], Admit);
    RunLast(OPENED, [] + [Admit], Close);
    RunLast(OPENED, ([] + [Admit]) + [Close], Prompt(true));
  }

  // After a close at most the prompts admitted before it can still begin one.
  lemma {:induction false} ClosedSessionAdmitsNoMore(s: Session, actions: seq<Action>)
    requires s.closed
    ensures var t := Run(s, actions);
            t.closed && t.admitted <= s.admitted && |t.turns| + t.admitted <= |s.turns| + s.admitted
  {
    if actions != [] {
      ClosedSessionAdmitsNoMore(s, actions[..|actions| - 1]);
    }
  }

  // ── Sequence numbers ───────────────────────────────────────────────────

  ghost predicate Increasing(es: seq<Envelope>) {
    forall i, j :: 0 <= i < j < |es| ==> es[i].sequence < es[j].sequence
  }

  // In every interleaving every number taken is below the next one, so what a
  // poll hands out is in increasing order if and only if the events in it are
  // and no notice stands before any of them.
  lemma PolledIncreasesIff(actions: seq<Action>, max: nat)
    ensures var s := Run(OPENED, actions);
            var events := s.queue.events[..Taken(s.queue, max)];
            && (forall i :: 0 <= i < |s.queue.events| ==> s.queue.events[i].sequence < s.nextSequence)
            && (Increasing(Polled(s, max)) <==> Increasing(events) && (s.queue.dropped == 0 || events == []))
  {
    RunIsSound(actions);
    var s := Run(OPENED, actions);
    hide Run;
    QueuedBelowNext(s);
    var events := s.queue.events[..Taken(s.queue, max)];
    var out := Polled(s, max);
    if s.queue.dropped > 0 {
      assert forall i :: 0 <= i < |events| ==> out[i + 1] == events[i];
      if events != [] {
        assert out[0].sequence > out[1].sequence;
      }
    } else {
      assert out == events;
    }
  }

  lemma QueuedBelowNext(s: Session)
    requires Sound(s)
    ensures forall i :: 0 <= i < |s.queue.events| ==> s.queue.events[i].sequence < s.nextSequence
  {
    var kept :| Kept(s, kept);
    forall i | 0 <= i < |s.queue.events| ensures s.queue.events[i].sequence < s.nextSequence {
      var d := |s.delivered|;
      assert (s.delivered + s.queue.events)[d + i] == s.queue.events[i];
      assert s.emitted[kept[d + i]].sequence < s.nextSequence;
    }
  }

  // ── No number twice ────────────────────────────────────────────────────

  function Unqueued(us: seq<Emission>): nat {
    if us == [] then 0 else Unqueued(us[..|us| - 1]) + (if us[|us| - 1].queued then 0 else 1)
  }

  function Notices(es: seq<Envelope>): seq<Envelope> {
    if es == [] then []
    else Notices(es[..|es| - 1]) + (if es[|es| - 1].event.Dropped? then [es[|es| - 1]] else [])
  }

  lemma {:induction false} NoticesConcat(a: seq<Envelope>, b: seq<Envelope>)
    ensures Notices(a + b) == Notices(a) + Notices(b)
  {
    if b == [] {
      assert a + b == a;
    } else {
      assert (a + b)[..|a + b| - 1] == a + b[..|b| - 1];
      NoticesConcat(a, b[..|b| - 1]);
    }
  }

  lemma {:induction false} EventsHaveNoNotices(es: seq<Envelope>)
    requires NoNotice(es)
    ensures Notices(es) == []
  {
    if es != [] {
      EventsHaveNoNotices(es[..|es| - 1]);
    }
  }

  lemma HandedNotices(q: Queue, max: nat, sequence: nat)
    requires NoNotice(q.events)
    ensures Notices(Handed(q, max, sequence)) == if q.dropped > 0 then [Notice(q.dropped, sequence)] else []
  {
    var events := q.events[..Taken(q, max)];
    EventsHaveNoNotices(events);
    var es := [Notice(q.dropped, sequence)];
    assert es[..|es| - 1] == [] && Notices([]) == [] && Notices(es) == es;
    NoticesConcat(es, events);
    NoticesConcat([], events);
  }

  lemma {:induction false} UnqueuedConcat(a: seq<Emission>, b: seq<Emission>)
    ensures Unqueued(a + b) == Unqueued(a) + Unqueued(b)
  {
    if b == [] {
      assert a + b == a;
    } else {
      assert (a + b)[..|a + b| - 1] == a + b[..|b| - 1];
      UnqueuedConcat(a, b[..|b| - 1]);
    }
  }

  lemma UnqueuedOne(u: Emission)
    ensures Unqueued([u]) == if u.queued then 0 else 1
  {
    assert [u][..0] == [];
  }

  lemma UnqueuedAt(us: seq<Emission>, k: nat, u: Emission)
    requires k < |us|
    ensures Unqueued(us) == Unqueued(Without(us, k)) + (if us[k].queued then 0 else 1)
    ensures Unqueued(us[k := u]) == Unqueued(Without(us, k)) + (if u.queued then 0 else 1)
  {
    var (a, b) := (us[..k], us[k + 1..]);
    UnqueuedOne(us[k]);
    UnqueuedOne(u);
    hide Unqueued;
    UnqueuedConcat(a, b);
    UnqueuedConcat(a + [us[k]], b);
    UnqueuedConcat(a, [us[k]]);
    UnqueuedConcat(a + [u], b);
    UnqueuedConcat(a, [u]);
    assert us == a + [us[k]] + b && us[k := u] == a + [u] + b;
  }

  ghost predicate Distinct(es: seq<Envelope>) {
    forall i, j :: 0 <= i < j < |es| ==> es[i].sequence != es[j].sequence
  }

  // No envelope of `es` has the number of one of the emissions still to be
  // queued.
  ghost predicate Clear(es: seq<Envelope>, us: seq<Emission>) {
    forall i, k :: 0 <= i < |es| && 0 <= k < |us| && !us[k].queued ==> es[i].sequence != us[k].envelope.sequence
  }

  ghost predicate Unique(s: Session, notices: seq<Envelope>) {
    && Distinct(s.emitted + notices) && Below(s.emitted + notices, s.nextSequence)
    && Clear(s.emitted + notices, s.underway)
  }

  lemma NoticeIsUnique(s: Session, notices: seq<Envelope>, n: Envelope, t: Session)
    requires Unique(s, notices) && Numbered(s) && n.sequence == s.nextSequence
    requires t.emitted == s.emitted && t.underway == s.underway && t.nextSequence == s.nextSequence + 1
    ensures Unique(t, notices + [n])
  {
    var es := s.emitted + notices;
    assert t.emitted + (notices + [n]) == es + [n];
    NewNumber(es, s.underway, n, s.nextSequence);
  }

  lemma NewNumber(es: seq<Envelope>, us: seq<Emission>, n: Envelope, next: nat)
    requires Distinct(es) && Below(es, next) && Clear(es, us) && Waiting(us, next) && n.sequence == next
    ensures Distinct(es + [n]) && Below(es + [n], next + 1) && Clear(es + [n], us)
    ensures Clear(es, us + [Emission(n, false)])
  {
  }

  // Queueing a number moves it from those waiting to those used.
  lemma QueuedNumber(emitted: seq<Envelope>, notices: seq<Envelope>, us: seq<Emission>, k: nat, next: nat)
    requires Distinct(emitted + notices) && Below(emitted + notices, next) && Clear(emitted + notices, us) && Waiting(us, next)
    requires k < |us| && !us[k].queued
    ensures var (es, us') := (emitted + [us[k].envelope] + notices, us[k := Emission(us[k].envelope, true)]);
            Distinct(es) && Below(es, next) && Clear(es, us')
  {
    var (before, e) := (emitted + notices, us[k].envelope);
    var (es, m) := (emitted + [e] + notices, |emitted|);
    assert forall i :: 0 <= i < |before| ==> before[i].sequence != e.sequence;
    Inserted(emitted, e, notices);
    assert Distinct(es);
    hide Distinct;
    assert forall i :: 0 <= i < |es| ==> es[i] == e || es[i] in before;
  }

  lemma Inserted(a: seq<Envelope>, e: Envelope, b: seq<Envelope>)
    requires Distinct(a + b) && forall i :: 0 <= i < |a + b| ==> (a + b)[i].sequence != e.sequence
    ensures Distinct(a + [e] + b)
  {
    var (before, es, m) := (a + b, a + [e] + b, |a|);
    assert forall i :: 0 <= i < m ==> es[i] == before[i];
    assert forall i :: m < i < |es| ==> es[i] == before[i - 1];
    assert es[m] == e;
  }

  lemma NextKeepsUnique(s: Session, a: Action, notices: seq<Envelope>)
    requires Unique(s, notices) && Numbered(s)
    ensures Unique(Next(s, a), if a.Poll? && s.queue.dropped > 0 then notices + [Notice(s.queue.dropped, s.nextSequence)] else notices)
  {
    hide Pushed, Taken, Without, Distinct, Below, Clear, Waiting;
    var t := Next(s, a);
    match a
    case Emit(turn, event) =>
      NewNumber(s.emitted + notices, s.underway, Envelope(turn, s.nextSequence, event), s.nextSequence);
      BelowGrows(s.emitted + notices, s.nextSequence);
    case Enqueue(k) =>
      if k < |s.underway| && !s.underway[k].queued {
        QueuedNumber(s.emitted, notices, s.underway, k, s.nextSequence);
      }
    case Finish(k) =>
      if k < |s.underway| { ClearWithout(s.emitted + notices, s.underway, k); }
    case Poll(_) =>
      if s.queue.dropped > 0 {
        NoticeIsUnique(s, notices, Notice(s.queue.dropped, s.nextSequence), t);
      }
    case _ =>
  }

  lemma BelowGrows(es: seq<Envelope>, n: nat)
    requires Below(es, n)
    ensures Below(es, n + 1)
  {
  }

  lemma ClearWithout(es: seq<Envelope>, us: seq<Emission>, k: nat)
    requires Clear(es, us) && k < |us|
    ensures Clear(es, Without(us, k))
  {
    assert forall i :: 0 <= i < |Without(us, k)| ==> Without(us, k)[i] == us[if i < k then i else i + 1];
  }

  // The numbers a step takes are those of what it queues, leaves waiting or
  // announces.
  lemma StepNumbers(s: Session, a: Action)
    ensures var t := Next(s, a);
            t.nextSequence - |t.emitted| - Unqueued(t.underway)
            == s.nextSequence - |s.emitted| - Unqueued(s.underway) + (if a.Poll? && s.queue.dropped > 0 then 1 else 0)
  {
    hide Pushed, Taken, Without, Unqueued;
    match a
    case Emit(turn, event) =>
      var u := Emission(Envelope(turn, s.nextSequence, event), false);
      UnqueuedConcat(s.underway, [u]);
      UnqueuedOne(u);
    case Enqueue(k) =>
      if k < |s.underway| { UnqueuedAt(s.underway, k, Emission(s.underway[k].envelope, true)); }
    case Finish(k) =>
      if k < |s.underway| { UnqueuedAt(s.underway, k, s.underway[k]); }
    case _ =>
  }

  // Over every interleaving every sequence number taken is that of an event
  // queued, an emission still under way, or a notice handed out; and no event
  // queued or notice handed out has the number of another.
  lemma {:induction false} NumbersAreUsedOnce(actions: seq<Action>)
    ensures var (s, notices) := (Run(OPENED, actions), Notices(HandedOut(OPENED, actions)));
            && s.nextSequence - 1 == |s.emitted| + Unqueued(s.underway) + |notices|
            && Unique(s, notices) && Distinct(s.emitted + notices)
  {
    if actions != [] {
      var n := |actions| - 1;
      var (s, a) := (Run(OPENED, actions[..n]), actions[n]);
      hide Polled, Notices, Unique, Numbered, Next, Distinct, Unqueued, Sound, Genuine;
      NumbersAreUsedOnce(actions[..n]);
      RunIsSound(actions[..n]);
      HandedOutIsBooked(actions[..n]);
      var out := HandedOut(OPENED, actions[..n]);
      assert out + [] == out;
      NumbersStep(s, a, out);
      UniqueIsDistinct(Next(s, a), Notices(HandedOut(OPENED, actions)));
    }
  }

  lemma NumbersStep(s: Session, a: Action, out: seq<Envelope>)
    requires Sound(s) && Genuine(s) && Unique(s, Notices(out))
    ensures var (t, out') := (Next(s, a), out + (if a.Poll? then Polled(s, a.max) else []));
            && Unique(t, Notices(out'))
            && t.nextSequence - |t.emitted| - Unqueued(t.underway) - |Notices(out')|
               == s.nextSequence - |s.emitted| - Unqueued(s.underway) - |Notices(out)|
  {
    GenuineQueue(s);
    hide Handed, Notices, Unique, Numbered, Next, Unqueued, Balanced, OneTurn, Genuine;
    NextKeepsUnique(s, a, Notices(out));
    StepNumbers(s, a);
    if a.Poll? {
      HandedNotices(s.queue, a.max, s.nextSequence);
      NoticesConcat(out, Polled(s, a.max));
      assert Notices(out) + [] == Notices(out);
    } else {
      assert out + [] == out;
    }
  }

  lemma UniqueIsDistinct(s: Session, notices: seq<Envelope>)
    ensures Unique(s, notices) ==> Distinct(s.emitted + notices)
  {
  }

  // Finishing ends that emission and no other.
  lemma FinishEndsOne(s: Session, k: nat)
    requires k < |s.underway| && s.underway[k].queued
    ensures var us := Next(s, Finish(k)).underway;
            && |us| == |s.underway| - 1
            && (forall i :: 0 <= i < k ==> us[i] == s.underway[i])
            && (forall i :: k <= i < |us| ==> us[i] == s.underway[i + 1])
  {
  }

  // An event is evicted only by one that finds 2048 queued, and then always.
  lemma EvictsIffFull(actions: seq<Action>, a: Action)
    ensures var (s, t) := (Run(OPENED, actions), Next(Run(OPENED, actions), a));
            && |s.queue.events| <= 2048
            && (t.evicted != s.evicted <==> t.emitted != s.emitted && |s.queue.events| == 2048)
  {
    RunIsSound(actions);
    hide Run, Pushed, Taken;
  }

  function Admits(actions: seq<Action>): nat {
    if actions == [] then 0 else Admits(actions[..|actions| - 1]) + (if actions[|actions| - 1].Admit? then 1 else 0)
  }

  // The prompts bound the turns begun: each begins one at most.
  lemma {:induction false} TurnsWereAdmitted(actions: seq<Action>)
    ensures var s := Run(OPENED, actions); |s.turns| + s.admitted <= Admits(actions)
  {
    if actions != [] {
      TurnsWereAdmitted(actions[..|actions| - 1]);
      hide Pushed, Taken, Without;
    }
  }

  // Each emission is queued before any that took its number later.
  ghost predicate QueuedInTurn(s: Session, actions: seq<Action>) {
    forall i :: 0 <= i < |actions| ==>
      var t := Run(s, actions[..i]);
      match actions[i]
      case Enqueue(k) => k < |t.underway| ==> forall j :: 0 <= j < k ==> t.underway[j].queued
      case _ => true
  }

  // Queued events increase, and stay below those still to be queued.
  ghost predicate InOrder(s: Session) {
    && Increasing(s.emitted)
    && forall i, k :: 0 <= i < |s.emitted| && 0 <= k < |s.underway| && !s.underway[k].queued ==>
         s.emitted[i].sequence < s.underway[k].envelope.sequence
  }

  lemma NextKeepsInOrder(s: Session, a: Action)
    requires Numbered(s) && InOrder(s)
    requires a.Enqueue? && a.k < |s.underway| ==> forall j :: 0 <= j < a.k ==> s.underway[j].queued
    ensures InOrder(Next(s, a))
  {
    hide Pushed, Taken;
    match a
    case Emit(_, _) =>
    case Enqueue(_) =>
    case _ =>
  }

  lemma {:induction false} RunIsInOrder(actions: seq<Action>)
    requires QueuedInTurn(OPENED, actions)
    ensures InOrder(Run(OPENED, actions))
  {
    if actions != [] {
      var n := |actions| - 1;
      assert QueuedInTurn(OPENED, actions[..n]) by {
        assert forall i :: 0 <= i <= n ==> actions[..n][..i] == actions[..i];
      }
      RunIsInOrder(actions[..n]);
      RunIsSound(actions[..n]);
      hide InOrder, Numbered, Balanced, OneTurn, Next;
      NextKeepsInOrder(Run(OPENED, actions[..n]), actions[n]);
    }
  }

  lemma KeptIncreases(s: Session, kept: seq<nat>)
    ensures Kept(s, kept) && Increasing(s.emitted) ==> Increasing(s.delivered + s.queue.events)
  {
  }

  // When emissions are queued in the order they took their numbers, the
  // events delivered and queued increase, and a poll's output does if and
  // only if nothing was dropped or it takes nothing.
  lemma OnlyTheNoticeIsOutOfOrder(actions: seq<Action>, max: nat)
    requires QueuedInTurn(OPENED, actions)
    ensures var s := Run(OPENED, actions);
            && Increasing(s.delivered + s.queue.events)
            && (Increasing(Polled(s, max)) <==> s.queue.dropped == 0 || Taken(s.queue, max) == 0)
  {
    hide Run, Polled, QueuedInTurn;
    RunIsInOrder(actions);
    RunIsSound(actions);
    PolledIncreasesIff(actions, max);
    var s := Run(OPENED, actions);
    hide Numbered, OneTurn, Kept;
    var kept :| Kept(s, kept);
    KeptIncreases(s, kept);
    StretchIncreases(s.delivered, s.queue.events, Taken(s.queue, max));
    hide Increasing;
  }

  lemma StretchIncreases(a: seq<Envelope>, b: seq<Envelope>, n: nat)
    requires Increasing(a + b) && n <= |b|
    ensures Increasing(b[..n])
  {
    assert forall i :: 0 <= i < n ==> b[..n][i] == (a + b)[|a| + i];
  }

  // One turn that emits `n` events, each queued at once.
  function Flood(n: nat): seq<Action> {
    if n == 0 then [Admit, Prompt(true)]
    else (Flood(n - 1) + [Emit(1, Progress(""))]) + [Enqueue(n - 1)]
  }

  ghost predicate Flooded(s: Session, n: nat) {
    && s.nextTurn == 2 && s.nextSequence == n + 1 && |s.underway| == n
    && (forall k :: 0 <= k < n ==> s.underway[k].queued)
    && |s.queue.events| == (if n <= MAX_QUEUED_EVENTS then n else MAX_QUEUED_EVENTS)
    && s.queue.dropped == n - |s.queue.events|
  }

  lemma FloodStep(s: Session, n: nat)
    requires Flooded(s, n)
    ensures Flooded(Next(Next(s, Emit(1, Progress(""))), Enqueue(n)), n + 1)
  {
    var t := Next(s, Emit(1, Progress("")));
    assert t.underway == s.underway + [Emission(Envelope(1, n + 1, Progress("")), false)] && !t.underway[n].queued;
  }

  lemma QueuedInTurnLast(s: Session, actions: seq<Action>, a: Action)
    requires QueuedInTurn(s, actions)
    requires var t := Run(s, actions);
             a.Enqueue? && a.k < |t.underway| ==> forall j :: 0 <= j < a.k ==> t.underway[j].queued
    ensures QueuedInTurn(s, actions + [a])
  {
    hide Run;
    assert forall i :: 0 <= i <= |actions| ==> (actions + [a])[..i] == actions[..i];
    assert actions[..|actions|] == actions;
  }

  lemma FloodStart()
    ensures Run(OPENED, Flood(0)) == Next(Next(OPENED, Admit), Prompt(true))
    ensures QueuedInTurn(OPENED, Flood(0))
  {
    NothingRun(OPENED);
    hide Run, Next;
    assert [Admit, Prompt(true)] == ([] + [Admit]) + [Prompt(true)];
    RunLast(OPENED, [], Admit);
    RunLast(OPENED, [] + [Admit], Prompt(true));
    QueuedInTurnLast(OPENED, [], Admit);
    QueuedInTurnLast(OPENED, [] + [Admit], Prompt(true));
  }

  lemma NothingRun(s: Session)
    ensures Run(s, []) == s && QueuedInTurn(s, [])
  {
  }

  lemma {:induction false} FloodFills(n: nat)
    ensures Flooded(Run(OPENED, Flood(n)), n)
  {
    hide Run;
    if n == 0 {
      FloodStart();
    } else {
      FloodFills(n - 1);
      FloodLast(n);
      hide Next, Flooded, Flood;
      FloodStep(Run(OPENED, Flood(n - 1)), n - 1);
    }
  }

  lemma FloodLast(n: nat)
    requires n > 0
    ensures var e := Emit(1, Progress(""));
            && Flood(n) == (Flood(n - 1) + [e]) + [Enqueue(n - 1)]
            && Run(OPENED, Flood(n - 1) + [e]) == Next(Run(OPENED, Flood(n - 1)), e)
            && Run(OPENED, Flood(n)) == Next(Next(Run(OPENED, Flood(n - 1)), e), Enqueue(n - 1))
  {
    hide Run, Next;
    RunLast(OPENED, Flood(n - 1), Emit(1, Progress("")));
    RunLast(OPENED, Flood(n - 1) + [Emit(1, Progress(""))], Enqueue(n - 1));
  }

  lemma {:induction false} FloodIsInTurn(n: nat)
    ensures QueuedInTurn(OPENED, Flood(n))
  {
    hide Run, QueuedInTurn;
    if n == 0 {
      FloodStart();
    } else {
      FloodIsInTurn(n - 1);
      FloodFills(n - 1);
      FloodLast(n);
      hide Flood;
      var (before, e) := (Flood(n - 1), Emit(1, Progress("")));
      QueuedInTurnLast(OPENED, before, e);
      FirstsAreQueued(Run(OPENED, before), n - 1);
      hide Next, Flooded;
      QueuedInTurnLast(OPENED, before + [e], Enqueue(n - 1));
    }
  }

  lemma FirstsAreQueued(s: Session, n: nat)
    requires Flooded(s, n)
    ensures var t := Next(s, Emit(1, Progress("")));
            n < |t.underway| && forall j :: 0 <= j < n ==> t.underway[j].queued
  {
  }

  // One event more than the queue holds, and the notice of the drop comes out
  // in front of events with smaller numbers.
  lemma NoticeIsNumberedLast(max: nat)
    ensures var actions := Flood(MAX_QUEUED_EVENTS + 1);
            QueuedInTurn(OPENED, actions) && !Increasing(Polled(Run(OPENED, actions), max))
  {
    hide Run, Flood, QueuedInTurn, Polled;
    FloodFills(MAX_QUEUED_EVENTS + 1);
    FloodIsInTurn(MAX_QUEUED_EVENTS + 1);
    OnlyTheNoticeIsOutOfOrder(Flood(MAX_QUEUED_EVENTS + 1), max);
  }

  // No worker has two emissions under way, because each session's events come
  // from one task; what the queue itself would allow is this run, in which two
  // are queued the other way round and a poll is out of order with nothing
  // dropped.
  lemma EmissionsCanOvertake()
    ensures var s := Run(OPENED, [Admit, Prompt(true), Emit(1, Progress("")), Emit(1, Progress("")), Enqueue(1), Enqueue(0)]);
            s.queue.dropped == 0 && !Increasing(Polled(s, 2))
  {
    var e := Emit(1, Progress(""));
    var two := ([] + [Admit]) + [Prompt(true)];
    assert [Admit, Prompt(true), e, e, Enqueue(1), Enqueue(0)] == (((two + [e]) + [e]) + [Enqueue(1)]) + [Enqueue(0)];
    var s := TwoEmissions();
    hide Run;
    RunLast(OPENED, (two + [e]) + [e], Enqueue(1));
    RunLast(OPENED, ((two + [e]) + [e]) + [Enqueue(1)], Enqueue(0));
    var s1 := Next(s, Enqueue(1));
    var s2 := Next(s1, Enqueue(0));
    assert s2.queue.events == [Envelope(1, 2, Progress("")), Envelope(1, 1, Progress(""))];
    assert Polled(s2, 2)[0].sequence > Polled(s2, 2)[1].sequence;
  }

  lemma TwoEmissions() returns (s: Session)
    ensures var e := Emit(1, Progress(""));
            s == Run(OPENED, ((([] + [Admit]) + [Prompt(true)]) + [e]) + [e])
    ensures s.queue == Queue([], 0)
    ensures s.underway == [Emission(Envelope(1, 1, Progress("")), false), Emission(Envelope(1, 2, Progress("")), false)]
  {
    var e := Emit(1, Progress(""));
    var two := ([] + [Admit]) + [Prompt(true)];
    NothingRun(OPENED);
    hide Run, QueuedInTurn;
    RunLast(OPENED, [], Admit);
    RunLast(OPENED, [] + [Admit], Prompt(true));
    RunLast(OPENED, two, e);
    RunLast(OPENED, two + [e], e);
    s := Next(Next(Next(Next(OPENED, Admit), Prompt(true)), e), e);
  }
}
