// Plain-text lines out of a PTY byte stream (crates/gpty-core/src/parser.rs).
//
// `vte` is not part of this model: it is a parameter, a state machine that
// turns each byte into events. `Handler` is what reacts to the events.
module LineParser {
  import opened Wrappers
  import opened Bytes
  import opened Utf8Text
  import Guard = EscapeString

  const MAX_LINE_LEN: nat := 16 * 1024
  const USIZE_MAX: nat := 0xFFFF_FFFF_FFFF_FFFF

  // What `vte` reports; `first` is a CSI's first parameter when it has one.
  datatype Event = Print(c: char) | Execute(byte: Byte) | Csi(ignore: bool, first: Option<nat>, action: char) | Other

  // ── The handler, one event at a time ───────────────────────────────────

  datatype State = State(line: string, stash: Option<string>, row: nat)

  function Parameter(first: Option<nat>): nat {
    if first.Some? && first.value != 0 then first.value else 1
  }

  function SaturatingAdd(a: nat, b: nat): nat {
    if a + b > USIZE_MAX then USIZE_MAX else a + b
  }

  // Committing the pending line unless it is blank.
  function CommitNonEmpty(s: State): (State, seq<string>) {
    match s.stash
    case Some(text) => (s.(stash := None), if text == "" then [] else [text])
    case None => (s.(line := ""), if s.line == "" then [] else [s.line])
  }

  function Step(s: State, e: Event): (State, seq<string>) {
    match e
    case Print(c) =>
      var line := if s.stash.Some? then "" else s.line;
      (s.(stash := None, line := if ByteLen(line) < MAX_LINE_LEN then line + [c] else line), [])
    case Execute(byte) =>
      if byte == LF then
        if s.stash.Some? then (s.(stash := None), [s.stash.value]) else (s.(line := ""), [s.line])
      else if byte == CR && s.stash.None? then (s.(stash := Some(s.line), line := ""), [])
      else (s, [])
    case Csi(ignore, first, action) =>
      if ignore then (s, [])
      else if action == 'H' || action == 'f' then
        var (t, lines) := CommitNonEmpty(s);
        if Parameter(first) != s.row then (t.(row := Parameter(first)), lines) else (s, [])
      else if action == 'B' || action == 'E' then
        var (t, lines) := CommitNonEmpty(s);
        (t.(row := SaturatingAdd(s.row, Parameter(first))), lines)
      else (s, [])
    case Other => (s, [])
  }

  function Run(s: State, events: seq<Event>): (State, seq<string>) {
    if events == [] then (s, [])
    else
      var n := |events| - 1;
      var (t, lines) := Run(s, events[..n]);
      var (u, more) := Step(t, events[n]);
      (u, lines + more)
  }

  // ── The lines of a stream, said without a machine ──────────────────────

  datatype Cut = NoCut | LineFeed | RowMove(row: nat)

  // Whether an event ends the line, the cursor being on `row`.
  function CutOf(e: Event, row: nat): Cut {
    if e.Execute? && e.byte == LF then LineFeed
    else if e.Csi? && !e.ignore && (e.action == 'H' || e.action == 'f') && Parameter(e.first) != row then
      RowMove(Parameter(e.first))
    else if e.Csi? && !e.ignore && (e.action == 'B' || e.action == 'E') then
      RowMove(SaturatingAdd(row, Parameter(e.first)))
    else NoCut
  }

  // The runs of printables between carriage returns.
  function Runs(events: seq<Event>): (runs: seq<string>)
    ensures |runs| >= 1
  {
    if events == [] then [""]
    else
      var n := |events| - 1;
      var runs := Runs(events[..n]);
      match events[n]
      case Print(c) => runs[|runs| - 1 := runs[|runs| - 1] + [c]]
      case Execute(byte) => if byte == CR then runs + [""] else runs
      case _ => runs
  }

  function LastNonEmpty(runs: seq<string>): string {
    if runs == [] then ""
    else if runs[|runs| - 1] != "" then runs[|runs| - 1]
    else LastNonEmpty(runs[..|runs| - 1])
  }

  // What the length cap keeps of a run: it stops at the first character that
  // finds the buffer full.
  function Clip(run: string): string {
    if run == "" then ""
    else
      var before := Clip(run[..|run| - 1]);
      if ByteLen(before) < MAX_LINE_LEN then before + [run[|run| - 1]] else before
  }

  // The text of a stretch of events: its last non-empty run.
  function Text(events: seq<Event>): string {
    Clip(LastNonEmpty(Runs(events)))
  }

  function FirstCut(events: seq<Event>, row: nat): (k: nat)
    ensures k <= |events| && (forall i :: 0 <= i < k ==> CutOf(events[i], row).NoCut?)
    ensures k < |events| ==> !CutOf(events[k], row).NoCut?
  {
    if events == [] || !CutOf(events[0], row).NoCut? then 0 else 1 + FirstCut(events[1..], row)
  }

  // A line feed commits its stretch blank or not; a row move drops blanks.
  function Committed(cut: Cut, text: string): seq<string> {
    if cut.LineFeed? || text != "" then [text] else []
  }

  function RowAfter(cut: Cut, row: nat): nat {
    if cut.RowMove? then cut.row else row
  }

  // The committed lines of a stream that starts on `row`.
  function Lines(events: seq<Event>, row: nat): seq<string>
    decreases |events|
  {
    var k := FirstCut(events, row);
    if k == |events| then []
    else
      var cut := CutOf(events[k], row);
      Committed(cut, Text(events[..k])) + Lines(events[k + 1..], RowAfter(cut, row))
  }

  // A line feed, and nothing else, is a line feed; a cursor position moves the
  // row to the one it names, when that is another, and a move down by as many
  // rows as it names, where a missing or zero parameter is one.
  lemma CutIff(e: Event, row: nat)
    ensures CutOf(e, row).LineFeed? <==> e == Execute(0x0a)
    ensures forall r: nat :: CutOf(e, row) == RowMove(r) <==>
              && e.Csi? && !e.ignore
              && var n := match e.first case None => 1 case Some(k) => if k == 0 then 1 else k;
                 || ((e.action == 'H' || e.action == 'f') && n != row && r == n)
                 || ((e.action == 'B' || e.action == 'E') && r == if row + n < 0x1_0000_0000_0000_0000 then row + n else 0xFFFF_FFFF_FFFF_FFFF)
  {
  }

  // ── The two agree ──────────────────────────────────────────────────────

  // The handler in the middle of a line that began blank on `row`.
  ghost predicate MidLine(s: State, events: seq<Event>, row: nat) {
    var runs := Runs(events);
    var last := runs[|runs| - 1];
    && s.row == row
    && (if last == "" && |runs| > 1 then s.line == "" && s.stash == Some(Text(events))
        else s.stash == None && s.line == Clip(last))
  }

  function Fresh(row: nat): State {
    State("", None, row)
  }

  lemma ClipOfPrinted(run: string, c: char)
    ensures Clip(run + [c]) == if ByteLen(Clip(run)) < MAX_LINE_LEN then Clip(run) + [c] else Clip(run)
    ensures Clip("") == "" && Clip([c]) == [c]
  {
    assert (run + [c])[..|run|] == run;
    assert [c][..0] == "";
  }

  lemma {:induction false} LastNonEmptyOfOne(runs: seq<string>)
    requires |runs| >= 1
    ensures runs[|runs| - 1] != "" || |runs| == 1 ==> LastNonEmpty(runs) == runs[|runs| - 1]
    ensures LastNonEmpty(runs + [""]) == LastNonEmpty(runs)
  {
    assert (runs + [""])[..|runs|] == runs;
  }

  lemma RunsStep(events: seq<Event>, e: Event)
    ensures var runs := Runs(events);
            Runs(events + [e]) == match e
                                  case Print(c) => runs[|runs| - 1 := runs[|runs| - 1] + [c]]
                                  case Execute(byte) => if byte == CR then runs + [""] else runs
                                  case _ => runs
  {
    assert (events + [e])[..|events|] == events;
  }

  lemma PrintedMidLine(s: State, events: seq<Event>, row: nat, c: char)
    requires MidLine(s, events, row)
    ensures MidLine(Step(s, Print(c)).0, events + [Print(c)], row) && Step(s, Print(c)).1 == []
  {
    hide Runs, LastNonEmpty, Clip, ByteLen;
    RunsStep(events, Print(c));
    ClipOfPrinted(Runs(events)[|Runs(events)| - 1], c);
  }

  lemma ReturnedMidLine(s: State, events: seq<Event>, row: nat)
    requires MidLine(s, events, row)
    ensures MidLine(Step(s, Execute(CR)).0, events + [Execute(CR)], row) && Step(s, Execute(CR)).1 == []
  {
    hide Runs, LastNonEmpty, Clip, ByteLen;
    RunsStep(events, Execute(CR));
    LastNonEmptyOfOne(Runs(events));
  }

  lemma MidLineStep(s: State, events: seq<Event>, row: nat, e: Event)
    requires MidLine(s, events, row) && CutOf(e, row).NoCut?
    ensures MidLine(Step(s, e).0, events + [e], row) && Step(s, e).1 == []
  {
    hide Runs, LastNonEmpty, Clip, ByteLen, CommitNonEmpty;
    if e.Print? {
      PrintedMidLine(s, events, row, e.c);
    } else if e == Execute(CR) {
      ReturnedMidLine(s, events, row);
    } else {
      RunsStep(events, e);
      assert Step(s, e) == (s, []);
    }
  }

  // What a cut commits is the text of its stretch, and the handler starts
  // the next line afresh.
  lemma CutCommitsText(s: State, events: seq<Event>, row: nat, e: Event)
    requires MidLine(s, events, row) && !CutOf(e, row).NoCut?
    ensures var cut := CutOf(e, row);
            Step(s, e) == (Fresh(RowAfter(cut, row)), Committed(cut, Text(events)))
  {
    LastNonEmptyOfOne(Runs(events));
    hide Runs, LastNonEmpty, Clip;
  }

  lemma {:induction false} RunSplit(s: State, a: seq<Event>, b: seq<Event>)
    ensures Run(s, a + b) == (Run(Run(s, a).0, b).0, Run(s, a).1 + Run(Run(s, a).0, b).1)
  {
    hide Step;
    if b == [] {
      assert a + b == a;
      assert Run(s, a).1 + [] == Run(s, a).1;
    } else {
      var n := |b| - 1;
      assert (a + b)[..|a + b| - 1] == a + b[..n];
      RunSplit(s, a, b[..n]);
      var (l1, l2) := (Run(s, a).1, Run(Run(s, a).0, b[..n]).1);
      var more := Step(Run(Run(s, a).0, b[..n]).0, b[n]).1;
      assert l1 + l2 + more == l1 + (l2 + more);
    }
  }

  lemma RunStep(s: State, events: seq<Event>, e: Event)
    ensures Run(s, events + [e]) == (Step(Run(s, events).0, e).0, Run(s, events).1 + Step(Run(s, events).0, e).1)
    ensures Run(s, []) == (s, [])
  {
    hide Step;
    assert (events + [e])[..|events|] == events;
  }

  // Between cuts nothing is committed.
  lemma {:induction false} UncutStretch(events: seq<Event>, row: nat)
    requires forall i :: 0 <= i < |events| ==> CutOf(events[i], row).NoCut?
    ensures MidLine(Run(Fresh(row), events).0, events, row) && Run(Fresh(row), events).1 == []
  {
    hide Step, CutOf, Run;
    if events == [] {
      RunStep(Fresh(row), [], Other);
    } else {
      var n := |events| - 1;
      UncutStretch(events[..n], row);
      MidLineStep(Run(Fresh(row), events[..n]).0, events[..n], row, events[n]);
      RunStep(Fresh(row), events[..n], events[n]);
      assert events == events[..n] + [events[n]];
      hide MidLine;
    }
  }

  // The handler commits exactly the lines of the stream.
  lemma {:induction false} HandlerCommitsLines(events: seq<Event>, row: nat)
    ensures Run(Fresh(row), events).1 == Lines(events, row)
    ensures Run(Fresh(row), events).0.stash.Some? ==> Run(Fresh(row), events).0.line == ""
    decreases |events|
  {
    hide Step, Run, CutOf, Text, Committed, RowAfter, FirstCut;
    var k := FirstCut(events, row);
    FirstCutIsFirst(events, row);
    UncutStretch(events[..k], row);
    if k < |events| {
      var (e, cut) := (events[k], CutOf(events[k], row));
      var (head, tail) := (events[..k] + [e], events[k + 1..]);
      assert events == head + tail;
      CutCommitsText(Run(Fresh(row), events[..k]).0, events[..k], row, e);
      RunStep(Fresh(row), events[..k], e);
      RunSplit(Fresh(row), head, tail);
      HandlerCommitsLines(tail, RowAfter(cut, row));
      assert [] + Committed(cut, Text(events[..k])) == Committed(cut, Text(events[..k]));
    } else {
      assert events[..k] == events;
    }
  }

  lemma FirstCutIsFirst(events: seq<Event>, row: nat)
    ensures var k := FirstCut(events, row);
            && (forall i :: 0 <= i < |events[..k]| ==> CutOf(events[..k][i], row).NoCut?)
            && (k < |events| ==> !CutOf(events[k], row).NoCut?)
  {
  }

  lemma ByteLenSnoc(text: string, c: char)
    ensures ByteLen(text + [c]) == ByteLen(text) + CharLen(c)
  {
    assert (text + [c])[..|text|] == text;
  }

  // A committed line holds at most one character past the cap, and all of its
  // run unless the cap was reached.
  lemma {:induction false} ClipKeepsPrefix(run: string)
    ensures Clip(run) <= run && ByteLen(Clip(run)) < MAX_LINE_LEN + 4
    ensures Clip(run) == run || ByteLen(Clip(run)) >= MAX_LINE_LEN
  {
    if run != "" {
      var n := |run| - 1;
      ClipKeepsPrefix(run[..n]);
      assert run == run[..n] + [run[n]];
      ClipOfPrinted(run[..n], run[n]);
      hide ByteLen, Clip;
      ByteLenSnoc(Clip(run[..n]), run[n]);
    }
  }

  // ── The handler and the parser ─────────────────────────────────────────

  class Handler {
    var currentLine: string
    var completedLines: seq<string>
    var crStash: Option<string>
    var cursorRow: nat

    constructor ()
      ensures View() == Fresh(1) && completedLines == []
    {
      currentLine, completedLines, crStash, cursorRow := "", [], None, 1;
    }

    function View(): State
      reads this
    {
      State(currentLine, crStash, cursorRow)
    }

    method CommitIfNonEmpty()
      modifies this
      ensures View() == CommitNonEmpty(old(View())).0
      ensures completedLines == old(completedLines) + CommitNonEmpty(old(View())).1
    {
      if crStash.Some? {
        if crStash.value != "" {
          completedLines := completedLines + [crStash.value];
        }
        crStash := None;
      } else if currentLine != "" {
        completedLines := completedLines + [currentLine];
        currentLine := "";
      }
    }

    method Handle(e: Event)
      modifies this
      ensures View() == Step(old(View()), e).0
      ensures completedLines == old(completedLines) + Step(old(View()), e).1
    {
      match e
      case Print(c) =>
        if crStash.Some? {
          crStash := None;
          currentLine := "";
        }
        if ByteLen(currentLine) < MAX_LINE_LEN {
          currentLine := currentLine + [c];
        }
      case Execute(byte) =>
        if byte == LF {
          if crStash.Some? {
            completedLines := completedLines + [crStash.value];
            crStash := None;
          } else {
            completedLines := completedLines + [currentLine];
            currentLine := "";
          }
        } else if byte == CR && crStash.None? {
          crStash := Some(currentLine);
          currentLine := "";
        }
      case Csi(ignore, first, action) =>
        if !ignore && (action == 'H' || action == 'f') {
          var row := Parameter(first);
          if row != cursorRow {
            CommitIfNonEmpty();
            cursorRow := row;
          }
        } else if !ignore && (action == 'B' || action == 'E') {
          CommitIfNonEmpty();
          cursorRow := SaturatingAdd(cursorRow, Parameter(first));
        }
      case Other =>
    }
  }

  // The state of the whole parser: the guard, `vte`, and the handler.
  datatype Pipe<V> = Pipe(guard: Guard.State, vte: V, handler: State)

  function Opened<V>(vte: V): Pipe<V> {
    Pipe(Guard.INITIAL, vte, Fresh(1))
  }

  // The events `vte` reports for `bytes`.
  function Reported<V>(parse: (V, Byte) -> (V, seq<Event>), vte: V, bytes: Str): (V, seq<Event>) {
    if bytes == [] then (vte, [])
    else
      var (v, events) := Reported(parse, vte, bytes[..|bytes| - 1]);
      var (w, more) := parse(v, bytes[|bytes| - 1]);
      (w, events + more)
  }

  function Fed<V>(parse: (V, Byte) -> (V, seq<Event>), p: Pipe<V>, bytes: Str): (Pipe<V>, seq<string>) {
    var (guard, out) := Guard.Run(p.guard, bytes, Guard.MAX_ESCAPE_STRING_BYTES);
    var (vte, events) := Reported(parse, p.vte, Guard.Plain(out));
    var (handler, lines) := Run(p.handler, events);
    (Pipe(guard, vte, handler), lines)
  }

  lemma {:induction false} ReportedSplit<V>(parse: (V, Byte) -> (V, seq<Event>), vte: V, a: Str, b: Str)
    ensures var (v, events) := Reported(parse, vte, a);
            Reported(parse, vte, a + b) == (Reported(parse, v, b).0, events + Reported(parse, v, b).1)
  {
    if b == [] {
      assert a + b == a;
      assert Reported(parse, vte, a).1 + [] == Reported(parse, vte, a).1;
    } else {
      var n := |b| - 1;
      assert (a + b)[..|a + b| - 1] == a + b[..n];
      ReportedSplit(parse, vte, a, b[..n]);
      var (v, events) := Reported(parse, vte, a);
      var (w, later) := Reported(parse, v, b[..n]);
      assert events + later + parse(w, b[n]).1 == events + (later + parse(w, b[n]).1);
    }
  }

  // How the stream is cut into feeds is invisible in the lines.
  lemma FeedsCompose<V>(parse: (V, Byte) -> (V, seq<Event>), p: Pipe<V>, a: Str, b: Str)
    ensures var (q, lines) := Fed(parse, p, a);
            Fed(parse, p, a + b) == (Fed(parse, q, b).0, lines + Fed(parse, q, b).1)
  {
    hide Guard.Run, Guard.Plain, Reported, Run;
    var budget := Guard.MAX_ESCAPE_STRING_BYTES;
    Guard.RunSplit(p.guard, a, b, budget);
    var (g, out) := Guard.Run(p.guard, a, budget);
    var more := Guard.Run(g, b, budget).1;
    Guard.PlainConcat(out, more);
    ReportedSplit(parse, p.vte, Guard.Plain(out), Guard.Plain(more));
    var (v, events) := Reported(parse, p.vte, Guard.Plain(out));
    RunSplit(p.handler, events, Reported(parse, v, Guard.Plain(more)).1);
  }

  // From a new parser, any cutting of the stream yields the lines of what
  // `vte` reports for the guarded stream.
  lemma {:induction false} FeedsYieldLines<V>(parse: (V, Byte) -> (V, seq<Event>), vte: V, chunks: seq<Str>)
    ensures var bytes := Guard.Plain(Guard.Run(Guard.INITIAL, Flatten(chunks), Guard.MAX_ESCAPE_STRING_BYTES).1);
            FedAll(parse, Opened(vte), chunks).1 == Lines(Reported(parse, vte, bytes).1, 1)
  {
    hide Lines, Run, Reported, Guard.Run, Guard.Plain;
    FedAllIsFed(parse, Opened(vte), chunks);
    HandlerCommitsLines(
      Reported(parse, vte, Guard.Plain(Guard.Run(Guard.INITIAL, Flatten(chunks), Guard.MAX_ESCAPE_STRING_BYTES).1)).1, 1);
  }

  function FedAll<V>(parse: (V, Byte) -> (V, seq<Event>), p: Pipe<V>, chunks: seq<Str>): (Pipe<V>, seq<string>) {
    if chunks == [] then (p, [])
    else
      var (q, lines) := FedAll(parse, p, chunks[..|chunks| - 1]);
      var (r, more) := Fed(parse, q, chunks[|chunks| - 1]);
      (r, lines + more)
  }

  lemma {:induction false} FedAllIsFed<V>(parse: (V, Byte) -> (V, seq<Event>), p: Pipe<V>, chunks: seq<Str>)
    ensures FedAll(parse, p, chunks) == Fed(parse, p, Flatten(chunks))
  {
    if chunks == [] {
      assert Guard.Plain([]) == [];
    } else {
      hide Fed;
      var n := |chunks| - 1;
      FedAllIsFed(parse, p, chunks[..n]);
      FeedsCompose(parse, p, Flatten(chunks[..n]), chunks[n]);
    }
  }

  class LineParser<V> {
    const parse: (V, Byte) -> (V, seq<Event>)
    const strings: Guard.EscapeStringGuard
    const handler: Handler
    var vte: V

    constructor (parse: (V, Byte) -> (V, seq<Event>), vte: V)
      ensures this.parse == parse && View() == Opened(vte) && handler.completedLines == []
      ensures fresh(strings) && fresh(handler)
    {
      this.parse, this.vte := parse, vte;
      strings := new Guard.EscapeStringGuard();
      handler := new Handler();
    }

    function View(): Pipe<V>
      reads this, strings, handler
    {
      Pipe(strings.View(), vte, handler.View())
    }

    // Hands one byte to `vte` and its events to the handler.
    method Advance(byte: Byte)
      modifies this, handler
      ensures vte == parse(old(vte), byte).0
      ensures handler.View() == Run(old(handler.View()), parse(old(vte), byte).1).0
      ensures handler.completedLines == old(handler.completedLines) + Run(old(handler.View()), parse(old(vte), byte).1).1
    {
      hide Step, Run;
      var (v, events) := parse(vte, byte);
      vte := v;
      RunStep(handler.View(), [], Other);
      for i := 0 to |events|
        invariant handler.View() == Run(old(handler.View()), events[..i]).0
        invariant handler.completedLines == old(handler.completedLines) + Run(old(handler.View()), events[..i]).1
        invariant vte == v
      {
        RunStep(old(handler.View()), events[..i], events[i]);
        assert events[..i + 1] == events[..i] + [events[i]];
        handler.Handle(events[i]);
      }
      assert events[..|events|] == events;
    }

    method Feed(bytes: Str) returns (lines: seq<string>)
      requires handler.completedLines == []
      modifies this, strings, handler
      ensures View() == Fed(parse, old(View()), bytes).0
      ensures lines == Fed(parse, old(View()), bytes).1 && handler.completedLines == []
    {
      hide Run, Guard.Run, Guard.Plain, Reported;
      var slices := strings.Feed(bytes, Guard.MAX_ESCAPE_STRING_BYTES);
      ghost var seen := Guard.Plain(Guard.Run(old(strings.View()), bytes, Guard.MAX_ESCAPE_STRING_BYTES).1);
      NothingReported(old(vte), old(handler.View()));
      for i := 0 to |slices|
        invariant strings.View() == Guard.Run(old(strings.View()), bytes, Guard.MAX_ESCAPE_STRING_BYTES).0
        invariant Reads(Flatten(slices[..i]), old(vte), old(handler.View()))
      {
        SliceStart(slices, i);
        for j := 0 to |slices[i]|
          invariant strings.View() == Guard.Run(old(strings.View()), bytes, Guard.MAX_ESCAPE_STRING_BYTES).0
          invariant Reads(Flatten(slices[..i]) + slices[i][..j], old(vte), old(handler.View()))
        {
          var before := Flatten(slices[..i]) + slices[i][..j];
          NextReported(before, slices[i][j], old(vte), old(handler.View()));
          assert before + [slices[i][j]] == Flatten(slices[..i]) + slices[i][..j + 1];
          Advance(slices[i][j]);
        }
        assert slices[i][..|slices[i]|] == slices[i];
      }
      assert slices[..|slices|] == slices;
      lines := handler.completedLines;
      handler.completedLines := [];
    }

    // `vte` and the handler have read `bytes` since the feed began.
    ghost predicate Reads(bytes: Str, vte0: V, handler0: State)
      reads this, handler
    {
      && vte == Reported(parse, vte0, bytes).0
      && handler.View() == Run(handler0, Reported(parse, vte0, bytes).1).0
      && handler.completedLines == Run(handler0, Reported(parse, vte0, bytes).1).1
    }

    lemma NothingReported(vte0: V, handler0: State)
      ensures Reported(parse, vte0, []) == (vte0, []) && Run(handler0, []) == (handler0, [])
      ensures Flatten<Byte>([]) == []
    {
    }

    lemma SliceStart(slices: seq<Str>, i: nat)
      requires i < |slices|
      ensures Flatten(slices[..i]) + slices[i][..0] == Flatten(slices[..i])
      ensures Flatten(slices[..i + 1]) == Flatten(slices[..i]) + slices[i]
    {
      assert slices[..i + 1] == slices[..i] + [slices[i]];
      FlattenSnoc(slices[..i], slices[i]);
    }

    lemma NextReported(bytes: Str, byte: Byte, vte0: V, handler0: State)
      ensures var (v, events) := Reported(parse, vte0, bytes);
              var (w, more) := parse(v, byte);
              var (h, lines) := Run(handler0, events);
              && Reported(parse, vte0, bytes + [byte]) == (w, events + more)
              && Run(handler0, events + more) == (Run(h, more).0, lines + Run(h, more).1)
    {
      hide Run;
      assert (bytes + [byte])[..|bytes|] == bytes;
      RunSplit(handler0, Reported(parse, vte0, bytes).1, parse(Reported(parse, vte0, bytes).0, byte).1);
    }
  }
}
