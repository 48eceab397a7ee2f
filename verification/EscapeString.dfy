// The guard that bounds how much OSC payload a PTY byte stream can make the
// parser behind it buffer (crates/gpty-core/src/escstring.rs).
//
// `Run` is the guard one byte at a time; the class feeds whole buffers and
// emits slices of them. `Recognise` is the framing of the parser behind the
// guard: it has no budget and never injects anything.
module EscapeString {
  import opened Wrappers
  import opened Bytes

  const MAX_ESCAPE_STRING_BYTES: nat := 64 * 1024

  const TERMINATOR: Byte := BEL

  // ── The guard, one byte at a time ──────────────────────────────────────

  datatype State = State(oscLen: Option<nat>, pendingEsc: bool)

  const INITIAL := State(None, false)

  // An output byte together with where it came from.
  datatype Emitted = Passed(byte: Byte) | Injected

  function Step(s: State, byte: Byte, budget: nat): (State, seq<Emitted>) {
    match s.oscLen
    case Some(len) =>
      if byte == BEL || byte == CAN || byte == SUB then (State(None, s.pendingEsc), [Passed(byte)])
      else if byte == ESC then (State(None, true), [Passed(byte)])
      else if len + 1 > budget then (State(None, false), [Passed(byte), Injected])
      else (State(Some(len + 1), s.pendingEsc), [Passed(byte)])
    case None =>
      if s.pendingEsc then
        (State(if byte == CLOSE_BRACKET then Some(0) else None, false), [Passed(byte)])
      else
        (State(None, byte == ESC), [Passed(byte)])
  }

  function Run(s: State, input: Str, budget: nat): (State, seq<Emitted>) {
    if input == [] then (s, [])
    else
      var n := |input| - 1;
      var (s', out) := Run(s, input[..n], budget);
      var (s'', more) := Step(s', input[n], budget);
      (s'', out + more)
  }

  // The bytes the sink sees.
  function Plain(out: seq<Emitted>): (bytes: Str)
    ensures |bytes| == |out|
  {
    seq(|out|, i requires 0 <= i < |out| => match out[i] case Passed(b) => b case Injected => TERMINATOR)
  }

  // The output with the injected bytes deleted.
  function Erase(out: seq<Emitted>): Str {
    if out == [] then []
    else
      var n := |out| - 1;
      match out[n]
      case Passed(b) => Erase(out[..n]) + [b]
      case Injected => Erase(out[..n])
  }

  // A state the guard can rest in between two bytes, under one budget.
  ghost predicate Resting(s: State, budget: nat) {
    s.oscLen.Some? ==> !s.pendingEsc && s.oscLen.value <= budget
  }

  // ── The framing of the parser behind the guard ─────────────────────────

  datatype Framing = Ground | Escape | Inside(payload: nat)

  function Advance(f: Framing, byte: Byte): Framing {
    match f
    case Ground => if byte == ESC then Escape else Ground
    case Escape => if byte == CLOSE_BRACKET then Inside(0) else Ground
    case Inside(n) =>
      if byte == BEL || byte == CAN || byte == SUB then Ground
      else if byte == ESC then Escape
      else Inside(n + 1)
  }

  function Recognise(f: Framing, input: Str): Framing {
    if input == [] then f else Advance(Recognise(f, input[..|input| - 1]), input[|input| - 1])
  }

  function Payload(f: Framing): nat {
    if f.Inside? then f.payload else 0
  }

  // The largest payload held open at any point of the run.
  function Peak(f: Framing, input: Str): nat {
    if input == [] then Payload(f)
    else Max(Peak(f, input[..|input| - 1]), Payload(Recognise(f, input)))
  }

  // The framing the guard believes the stream is in.
  function Belief(s: State): Framing {
    match s.oscLen
    case Some(n) => Inside(n)
    case None => if s.pendingEsc then Escape else Ground
  }

  lemma {:induction false} RecogniseSplit(f: Framing, a: Str, b: Str)
    ensures Recognise(f, a + b) == Recognise(Recognise(f, a), b)
    ensures Peak(f, a + b) == Max(Peak(f, a), Peak(Recognise(f, a), b))
  {
    if b == [] {
      assert a + b == a;
      PeakHoldsLast(f, a);
    } else {
      var n := |b| - 1;
      assert (a + b)[..|a + b| - 1] == a + b[..n];
      RecogniseSplit(f, a, b[..n]);
    }
  }

  lemma PeakHoldsLast(f: Framing, a: Str)
    ensures Payload(Recognise(f, a)) <= Peak(f, a)
  {
  }

  lemma PlainConcat(a: seq<Emitted>, b: seq<Emitted>)
    ensures Plain(a + b) == Plain(a) + Plain(b)
  {
  }

  lemma {:induction false} EraseConcat(a: seq<Emitted>, b: seq<Emitted>)
    ensures Erase(a + b) == Erase(a) + Erase(b)
  {
    if b == [] {
      assert a + b == a;
    } else {
      assert (a + b)[..|a + b| - 1] == a + b[..|b| - 1];
      EraseConcat(a, b[..|b| - 1]);
    }
  }

  // ── What the guard promises ────────────────────────────────────────────

  // Feeding `a` and then `b` is feeding `a + b`: the cut is invisible.
  lemma {:induction false} RunSplit(s: State, a: Str, b: Str, budget: nat)
    ensures var (s1, o1) := Run(s, a, budget);
            var (s2, o2) := Run(s1, b, budget);
            Run(s, a + b, budget) == (s2, o1 + o2)
  {
    if b == [] {
      assert a + b == a;
      assert Run(s, a, budget).1 + [] == Run(s, a, budget).1;
    } else {
      var n := |b| - 1;
      assert (a + b)[..|a + b| - 1] == a + b[..n];
      RunSplit(s, a, b[..n], budget);
      var (s1, o1) := Run(s, a, budget);
      var (s2, o2) := Run(s1, b[..n], budget);
      var more := Step(s2, b[n], budget).1;
      assert o1 + o2 + more == o1 + (o2 + more);
    }
  }

  lemma EraseStep(s: State, byte: Byte, budget: nat)
    ensures Erase([]) == [] && Erase(Step(s, byte, budget).1) == [byte]
  {
    var more := Step(s, byte, budget).1;
    assert more[..1] == [Passed(byte)] && more[..1][..0] == [];
  }

  // Deleting the injected terminators gives back the input.
  lemma {:induction false} EraseRestoresInput(s: State, input: Str, budget: nat)
    ensures Erase(Run(s, input, budget).1) == input
  {
    hide Erase, Step;
    if input == [] {
      EraseStep(s, 0, budget);
    } else {
      var n := |input| - 1;
      EraseRestoresInput(s, input[..n], budget);
      var (s', out) := Run(s, input[..n], budget);
      EraseConcat(out, Step(s', input[n], budget).1);
      EraseStep(s', input[n], budget);
    }
  }

  // One guard step against the recogniser reading what that step emitted.
  lemma StepTracks(s: State, byte: Byte, budget: nat)
    requires Resting(s, budget)
    ensures var (s', out) := Step(s, byte, budget);
            && Resting(s', budget)
            && Recognise(Belief(s), Plain(out)) == Belief(s')
            && Peak(Belief(s), Plain(out)) <= budget + 1
  {
    var (s', out) := Step(s, byte, budget);
    var seen := Plain(out);
    assert seen[..1] == [byte];
    assert Recognise(Belief(s), [byte]) == Advance(Belief(s), byte) by { assert [byte][..0] == []; }
    assert Peak(Belief(s), [byte]) == Max(Payload(Belief(s)), Payload(Advance(Belief(s), byte)));
    if |seen| == 2 {
      assert seen[..|seen| - 1] == [byte];
      assert Recognise(Belief(s), seen) == Advance(Recognise(Belief(s), [byte]), TERMINATOR);
    } else {
      assert seen == [byte];
    }
  }

  lemma PeakAtRest(s: State, budget: nat)
    ensures Resting(s, budget) ==> Peak(Belief(s), []) <= budget
  {
  }

  // The parser behind the guard never holds more than `budget + 1` payload
  // bytes, and the guard's belief about it is right after every byte fed.
  lemma {:induction false} GuardedStreamIsBounded(s: State, input: Str, budget: nat)
    requires Resting(s, budget)
    ensures var (s', out) := Run(s, input, budget);
            && Resting(s', budget)
            && Recognise(Belief(s), Plain(out)) == Belief(s')
            && Peak(Belief(s), Plain(out)) <= budget + 1
    ensures forall k :: 0 <= k <= |input| ==>
              && Plain(Run(s, input[..k], budget).1) <= Plain(Run(s, input, budget).1)
              && Recognise(Belief(s), Plain(Run(s, input[..k], budget).1)) == Belief(Run(s, input[..k], budget).0)
  {
    hide Step, Advance, Plain, Belief;
    if input == [] {
      assert Plain([]) == [];
      PeakAtRest(s, budget);
    } else {
      var n := |input| - 1;
      GuardedStreamIsBounded(s, input[..n], budget);
      var (s', out) := Run(s, input[..n], budget);
      var (s'', more) := Step(s', input[n], budget);
      StepTracks(s', input[n], budget);
      PlainConcat(out, more);
      RecogniseSplit(Belief(s), Plain(out), Plain(more));
      forall k | 0 <= k <= |input|
        ensures Plain(Run(s, input[..k], budget).1) <= Plain(Run(s, input, budget).1)
        ensures Recognise(Belief(s), Plain(Run(s, input[..k], budget).1)) == Belief(Run(s, input[..k], budget).0)
      {
        if k <= n {
          assert input[..n][..k] == input[..k];
        } else {
          assert input[..k] == input;
        }
      }
    }
  }

  // One guard step against the recogniser reading the byte unguarded.
  lemma StepUntouched(s: State, byte: Byte, budget: nat)
    requires Resting(s, budget)
    ensures var (s', out) := Step(s, byte, budget);
            && |out| >= 1 && Plain(out)[0] == byte
            && (|out| == 1 <==> Payload(Advance(Belief(s), byte)) <= budget)
            && (|out| == 1 ==> Belief(s') == Advance(Belief(s), byte))
  {
  }

  // Nothing is injected exactly when the unguarded stream never holds a
  // payload above the budget; then the recogniser sees the input itself.
  lemma {:induction false} UntouchedIffWithinBudget(s: State, input: Str, budget: nat)
    requires Resting(s, budget)
    ensures var (s', out) := Run(s, input, budget);
            && |out| >= |input|
            && (Plain(out) == input <==> Peak(Belief(s), input) <= budget)
            && (Plain(out) == input ==> Belief(s') == Recognise(Belief(s), input))
  {
    hide Step, Advance, Plain, Belief;
    if input == [] {
      assert Plain([]) == [];
      PeakAtRest(s, budget);
    } else {
      var n := |input| - 1;
      UntouchedIffWithinBudget(s, input[..n], budget);
      GuardedStreamIsBounded(s, input[..n], budget);
      var (s', out) := Run(s, input[..n], budget);
      var more := Step(s', input[n], budget).1;
      StepUntouched(s', input[n], budget);
      PlainConcat(out, more);
    }
  }

  // A second guard with one byte more of budget never touches the output of
  // the first.
  lemma SecondGuardIsIdle(input: Str, budget: nat)
    ensures var guarded := Plain(Run(INITIAL, input, budget).1);
            Plain(Run(INITIAL, guarded, budget + 1).1) == guarded
  {
    GuardedStreamIsBounded(INITIAL, input, budget);
    UntouchedIffWithinBudget(INITIAL, Plain(Run(INITIAL, input, budget).1), budget + 1);
  }

  // ── A parser that stays in its escape state ────────────────────────────

  // Like `Advance`, but ESC always starts a new sequence, and `ignored` bytes
  // leave the escape state as it was. The guard forgets a pending ESC at any
  // byte but `]`.
  function AdvanceLingering(f: Framing, byte: Byte, ignored: Byte -> bool): Framing {
    if f == Escape && byte != CLOSE_BRACKET && (byte == ESC || ignored(byte)) then Escape else Advance(f, byte)
  }

  function RecogniseLingering(f: Framing, input: Str, ignored: Byte -> bool): Framing {
    if input == [] then f
    else AdvanceLingering(RecogniseLingering(f, input[..|input| - 1], ignored), input[|input| - 1], ignored)
  }

  // The usual ANSI state diagram executes C0 controls in its escape state and
  // ignores DEL there; CAN and SUB cancel.
  predicate ControlOrDel(byte: Byte) {
    (byte < 0x20 && byte != CAN && byte != SUB) || byte == 0x7f
  }

  ghost predicate AgreeOnStrings(input: Str, ignored: Byte -> bool) {
    forall k :: 0 <= k <= |input| ==>
      Recognise(Ground, input[..k]).Inside? == RecogniseLingering(Ground, input[..k], ignored).Inside?
  }

  // How many ESC the input ends with.
  function EscRun(input: Str): nat {
    if input != [] && input[|input| - 1] == ESC then 1 + EscRun(input[..|input| - 1]) else 0
  }

  // The lingering parser opens a string at byte `k`.
  ghost predicate OpensAt(input: Str, k: nat, ignored: Byte -> bool) {
    k < |input| && RecogniseLingering(Ground, input[..k], ignored) == Escape && input[k] == CLOSE_BRACKET
  }

  ghost predicate OpensAfterOddRuns(input: Str, ignored: Byte -> bool) {
    forall k :: 0 <= k < |input| && OpensAt(input, k, ignored) ==> EscRun(input[..k]) % 2 == 1
  }

  // The guard has an ESC pending exactly behind an odd run of them; a
  // lingering parser is then in its escape state, and perhaps also elsewhere.
  lemma {:induction false} PendingBehindOddRuns(input: Str, ignored: Byte -> bool)
    ensures Recognise(Ground, input) == Escape <==> EscRun(input) % 2 == 1
    ensures EscRun(input) > 0 ==> RecogniseLingering(Ground, input, ignored) == Escape
  {
    if input != [] {
      PendingBehindOddRuns(input[..|input| - 1], ignored);
    }
  }

  // The two agree about being inside a string, after every byte, if and only
  // if an odd run of ESC directly precedes the `]` that opens each string,
  // whatever bytes the parser ignores. One ESC immediately followed by `]` is
  // the ordinary case; two of them, or an ignored byte in between, break it.
  lemma {:induction false} AgreesIffOddRunsOpen(input: Str, ignored: Byte -> bool)
    ensures AgreeOnStrings(input, ignored) <==> OpensAfterOddRuns(input, ignored)
    ensures AgreeOnStrings(input, ignored) ==>
              var (g, r) := (Recognise(Ground, input), RecogniseLingering(Ground, input, ignored));
              g == r || (g == Ground && r == Escape)
  {
    if input != [] {
      var n := |input| - 1;
      var before := input[..n];
      AgreesIffOddRunsOpen(before, ignored);
      PendingBehindOddRuns(before, ignored);
      hide Recognise, RecogniseLingering, EscRun;
      assert forall k :: 0 <= k <= n ==> before[..k] == input[..k];
      assert input[..n + 1] == input;
      assert forall k :: 0 <= k < n ==> OpensAt(before, k, ignored) == OpensAt(input, k, ignored);
      LastStep(input, ignored);
      var agreeNow := Recognise(Ground, input).Inside? == RecogniseLingering(Ground, input, ignored).Inside?;
      assert AgreeOnStrings(input, ignored) <==> AgreeOnStrings(before, ignored) && agreeNow;
      var oddNow := OpensAt(input, n, ignored) ==> EscRun(before) % 2 == 1;
      assert OpensAfterOddRuns(input, ignored) <==> OpensAfterOddRuns(before, ignored) && oddNow;
    }
  }

  lemma LastStep(input: Str, ignored: Byte -> bool)
    requires input != []
    ensures var n := |input| - 1;
            && Recognise(Ground, input) == Advance(Recognise(Ground, input[..n]), input[n])
            && RecogniseLingering(Ground, input, ignored)
               == AdvanceLingering(RecogniseLingering(Ground, input[..n], ignored), input[n], ignored)
  {
  }

  // A run of `n` copies of `byte`.
  function Repeat(byte: Byte, n: nat): Str {
    seq(n, _ => byte)
  }

  // Where the two disagree the bound is lost: with no ESC pending in the guard
  // and the parser behind it still in its escape state, `]` opens a string
  // that grows without limit while the guard injects nothing.
  lemma {:induction false} LateOpeningEscapesTheBound(before: Str, n: nat, budget: nat, ignored: Byte -> bool)
    requires Run(INITIAL, before, budget).0 == INITIAL
    requires RecogniseLingering(Ground, Plain(Run(INITIAL, before, budget).1), ignored) == Escape
    ensures var (s, out) := Run(INITIAL, before + [CLOSE_BRACKET] + Repeat(0x78, n), budget);
            && s == INITIAL
            && Plain(out) == Plain(Run(INITIAL, before, budget).1) + [CLOSE_BRACKET] + Repeat(0x78, n)
            && RecogniseLingering(Ground, Plain(out), ignored) == Inside(n)
  {
    hide Run, RecogniseLingering, Plain;
    var begun := before + [CLOSE_BRACKET];
    if n == 0 {
      SnocSteps(before, CLOSE_BRACKET, budget, ignored);
      assert begun + Repeat(0x78, 0) == begun;
      var plain := Plain(Run(INITIAL, before, budget).1) + [CLOSE_BRACKET];
      assert plain + Repeat(0x78, 0) == plain;
    } else {
      LateOpeningEscapesTheBound(before, n - 1, budget, ignored);
      var longer := begun + Repeat(0x78, n - 1);
      SnocSteps(longer, 0x78, budget, ignored);
      assert begun + Repeat(0x78, n) == longer + [0x78];
      var plain := Plain(Run(INITIAL, before, budget).1) + [CLOSE_BRACKET];
      assert plain + Repeat(0x78, n) == plain + Repeat(0x78, n - 1) + [0x78];
    }
  }

  // So a second ESC, or any control the parser executes, between the ESC and
  // the `]` is enough.
  lemma LateOpening(byte: Byte, n: nat, budget: nat)
    requires byte == 0x1b || (byte < 0x20 && byte != 0x18 && byte != 0x1a) || byte == 0x7f
    ensures var input := [ESC, byte] + [CLOSE_BRACKET] + Repeat(0x78, n);
            var (s, out) := Run(INITIAL, input, budget);
            && s == INITIAL && Plain(out) == input
            && RecogniseLingering(Ground, input, ControlOrDel) == Inside(n)
            && !AgreeOnStrings(input, ControlOrDel)
  {
    NothingReadYet(budget, ControlOrDel);
    SnocSteps([], ESC, budget, ControlOrDel);
    SnocSteps([ESC], byte, budget, ControlOrDel);
    hide Run, RecogniseLingering, Plain;
    assert [] + [ESC] == [ESC] && [ESC] + [byte] == [ESC, byte];
    LateOpeningEscapesTheBound([ESC, byte], n, budget, ControlOrDel);
    var input := [ESC, byte] + [CLOSE_BRACKET] + Repeat(0x78, n);
    assert input[..2] == [ESC, byte];
    assert OpensAt(input, 2, ControlOrDel);
    EvenRun(byte);
    AgreesIffOddRunsOpen(input, ControlOrDel);
  }

  lemma EvenRun(byte: Byte)
    ensures EscRun([ESC, byte]) % 2 == 0
  {
    assert [ESC, byte][..1] == [ESC] && [ESC][..0] == [];
    assert EscRun([ESC]) == 1;
  }

  lemma NothingReadYet(budget: nat, ignored: Byte -> bool)
    ensures Run(INITIAL, [], budget) == (INITIAL, []) && Plain([]) == [] && RecogniseLingering(Ground, [], ignored) == Ground
  {
  }

  // A byte the guard reads outside a string, seen on both of its sides.
  lemma SnocSteps(before: Str, byte: Byte, budget: nat, ignored: Byte -> bool)
    requires Run(INITIAL, before, budget).0.oscLen.None?
    ensures var (s, out) := Run(INITIAL, before, budget);
            var (s', out') := Run(INITIAL, before + [byte], budget);
            && s' == Step(s, byte, budget).0 && Plain(out') == Plain(out) + [byte]
            && RecogniseLingering(Ground, Plain(out'), ignored)
               == AdvanceLingering(RecogniseLingering(Ground, Plain(out), ignored), byte, ignored)
  {
    assert (before + [byte])[..|before|] == before;
    var plain := Plain(Run(INITIAL, before, budget).1);
    assert Plain(Run(INITIAL, before + [byte], budget).1) == plain + [byte];
    assert (plain + [byte])[..|plain|] == plain;
  }

  lemma RunPrefix(s: State, input: Str, i: nat, budget: nat)
    requires i <= |input|
    ensures Run(s, [], budget) == (s, []) && Plain([]) == []
    ensures i < |input| ==>
              var (s', out) := Run(s, input[..i], budget);
              var (s'', more) := Step(s', input[i], budget);
              && Run(s, input[..i + 1], budget).0 == s''
              && Plain(Run(s, input[..i + 1], budget).1) == Plain(out) + Plain(more)
  {
    assert i < |input| ==> input[..i + 1][..i] == input[..i];
  }

  lemma PlainOf(byte: Byte)
    ensures Plain([Passed(byte)]) == [byte] && Plain([Passed(byte), Injected]) == [byte, TERMINATOR]
  {
  }

  lemma FlattenTwo(slices: seq<Str>, a: Str, b: Str)
    ensures Flatten(slices + [a] + [b]) == Flatten(slices) + a + b
  {
    FlattenSnoc(slices, a);
    FlattenSnoc(slices + [a], b);
  }

  // ── The guard itself ───────────────────────────────────────────────────

  class EscapeStringGuard {
    // The length of the open OSC payload; none outside a string.
    var oscLen: Option<nat>
    // The byte before was an ESC outside a string, or one that may end it.
    var pendingEsc: bool

    constructor ()
      ensures View() == INITIAL
    {
      oscLen, pendingEsc := None, false;
    }

    function View(): State
      reads this
    {
      State(oscLen, pendingEsc)
    }

    // The guard's reaction to one byte; `over` asks for a terminator.
    method Consume(byte: Byte, budget: nat) returns (over: bool)
      modifies this
      ensures View() == Step(old(View()), byte, budget).0
      ensures Step(old(View()), byte, budget).1 == if over then [Passed(byte), Injected] else [Passed(byte)]
    {
      over := false;
      if oscLen.Some? {
        oscLen := Some(oscLen.value + 1);
        if byte == BEL || byte == CAN || byte == SUB {
          oscLen := None;
        } else if byte == ESC {
          oscLen := None;
          pendingEsc := true;
        }
        if oscLen.Some? && oscLen.value > budget {
          over := true;
          oscLen := None;
          pendingEsc := false;
        }
      } else if pendingEsc {
        pendingEsc := false;
        if byte == CLOSE_BRACKET {
          oscLen := Some(0);
        }
      } else if byte == ESC {
        pendingEsc := true;
      }
    }

    // Hands `bytes` on as the slices the sink receives, in order.
    method Feed(bytes: Str, budget: nat) returns (slices: seq<Str>)
      modifies this
      ensures View() == Run(old(View()), bytes, budget).0
      ensures Flatten(slices) == Plain(Run(old(View()), bytes, budget).1)
      ensures forall k :: 0 <= k < |slices| ==> slices[k] != []
    {
      hide Run, Step, Flatten, Plain;
      slices := [];
      FlattenEmpty<Byte>();
      RunPrefix(View(), bytes, 0, budget);
      var start := 0;
      for i := 0 to |bytes|
        invariant 0 <= start <= i
        invariant View() == Run(old(View()), bytes[..i], budget).0
        invariant Flatten(slices) + bytes[start..i] == Plain(Run(old(View()), bytes[..i], budget).1)
        invariant forall k :: 0 <= k < |slices| ==> slices[k] != []
      {
        RunPrefix(old(View()), bytes, i, budget);
        var over := Consume(bytes[i], budget);
        PlainOf(bytes[i]);
        assert bytes[start..i + 1] == bytes[start..i] + [bytes[i]];
        if over {
          FlattenTwo(slices, bytes[start..i + 1], [TERMINATOR]);
          slices := slices + [bytes[start..i + 1]] + [[TERMINATOR]];
          start := i + 1;
        }
      }
      assert bytes[..|bytes|] == bytes;
      if start < |bytes| {
        FlattenSnoc(slices, bytes[start..]);
        slices := slices + [bytes[start..]];
      }
    }
  }
}
