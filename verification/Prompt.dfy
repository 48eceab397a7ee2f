// The user message an inspector backend receives
// (crates/gpty-ai/src/prompt.rs): untrusted terminal output, cut to a byte
// budget and quoted in a backtick fence.
module Prompt {
  import opened Wrappers
  import opened Utf8Text
  import opened FencedCode

  // ── Truncation ─────────────────────────────────────────────────────────

  const MARKER := "\n\n[truncated]"
  const MARKER_LEN: nat := 13
  const MAX_CAPTURE_BYTES: nat := 64 * 1024

  function Truncated(input: string, max: nat): string {
    if ByteLen(input) <= max then input
    else if max < MARKER_LEN then MARKER[..max]
    else Kept(input, max - MARKER_LEN) + MARKER
  }

  method TruncateUtf8(input: string, max: nat) returns (out: string)
    ensures out == Truncated(input, max)
  {
    var bytes := Utf8(input);
    if |bytes| <= max {
      return input;
    }
    if max < MARKER_LEN {
      return MARKER[..max];
    }
    var budget := max - MARKER_LEN;
    var end := if budget < |bytes| then budget else |bytes|;
    while end > 0 && !IsCharBoundary(bytes, end)
      invariant 0 <= end <= |bytes|
      invariant Kept(input, end) == Kept(input, budget)
    {
      CutInsideACharacter(input, end);
      end := end - 1;
    }
    BoundaryCutsBytes(input, end);
    out := Kept(input, end) + MARKER;
  }

  lemma {:induction false} ByteLenSplit(a: string, b: string)
    ensures ByteLen(a + b) == ByteLen(a) + ByteLen(b)
    decreases |b|
  {
    if b == "" {
      assert a + b == a;
    } else {
      assert (a + b)[..|a + b| - 1] == a + b[..|b| - 1];
      ByteLenSplit(a, b[..|b| - 1]);
    }
  }

  lemma {:induction false} AsciiLen(text: string)
    requires forall k :: 0 <= k < |text| ==> text[k] < '\U{80}'
    ensures ByteLen(text) == |text|
  {
    if text != "" {
      AsciiLen(text[..|text| - 1]);
    }
  }

  // The cap always holds, and the text survives exactly when within it.
  lemma TruncationFitsTheCap(input: string, max: nat)
    ensures ByteLen(Truncated(input, max)) <= max
    ensures Truncated(input, max) == input <==> ByteLen(input) <= max
  {
    if ByteLen(input) > max {
      if max < MARKER_LEN {
        AsciiLen(MARKER[..max]);
      } else {
        KeptIsLongest(input, max - MARKER_LEN);
        hide Kept, ByteLen;
        ByteLenSplit(Kept(input, max - MARKER_LEN), MARKER);
        AsciiLen(MARKER);
      }
    }
  }

  // Of a longer text as many characters are kept as fit with the marker.
  lemma TruncationKeepsWhatFits(input: string, max: nat) returns (k: nat)
    requires ByteLen(input) > max >= 13
    ensures k <= |input| && Truncated(input, max) == input[..k] + "\n\n[truncated]"
    ensures forall j :: k < j <= |input| ==> ByteLen(input[..j]) + 13 > max
  {
    KeptIsLongest(input, max - MARKER_LEN);
    k := |Kept(input, max - MARKER_LEN)|;
  }

  // Below that, as much of the marker as fits.
  lemma TruncationMarksTheCut(input: string, max: nat)
    requires max < 13 && ByteLen(input) > max
    ensures |"\n\n[truncated]"| == 13 && Truncated(input, max) == "\n\n[truncated]"[..max]
  {
  }

  // ── The fence ──────────────────────────────────────────────────────────

  const MIN_FENCE: nat := 3
  const MAX_FENCE: nat := 32

  // How many backticks the text ends with, and the most it has in a row.
  function TrailingRun(text: string): (n: nat)
    ensures n <= |text|
  {
    if text != "" && text[|text| - 1] == '`' then 1 + TrailingRun(text[..|text| - 1]) else 0
  }

  function LongestRun(text: string): nat {
    if text == "" then 0
    else
      var before, here := LongestRun(text[..|text| - 1]), TrailingRun(text);
      if before < here then here else before
  }

  function FenceLen(capture: string): (n: nat)
    ensures MIN_FENCE <= n <= MAX_FENCE
  {
    var n := LongestRun(capture) + 1;
    if n < MIN_FENCE then MIN_FENCE else if n > MAX_FENCE then MAX_FENCE else n
  }

  ghost predicate IsRun(text: string, i: nat, j: nat) {
    i <= j <= |text| && forall k :: i <= k < j ==> text[k] == '`'
  }

  lemma {:induction false} TrailingRunIsLongest(text: string, i: nat)
    requires IsRun(text, i, |text|)
    ensures |text| - i <= TrailingRun(text)
  {
    if i < |text| {
      TrailingRunIsLongest(text[..|text| - 1], i);
    }
  }

  lemma {:induction false} TrailingRunOccurs(text: string)
    ensures IsRun(text, |text| - TrailingRun(text), |text|)
  {
    if text != "" && text[|text| - 1] == '`' {
      TrailingRunOccurs(text[..|text| - 1]);
    }
  }

  // No stretch of backticks is longer, and one is that long.
  lemma {:induction false} LongestRunIsLongest(text: string) returns (at: nat)
    ensures forall i: nat, j: nat :: IsRun(text, i, j) ==> j - i <= LongestRun(text)
    ensures IsRun(text, at, at + LongestRun(text))
  {
    if text == "" {
      at := 0;
    } else {
      var before := text[..|text| - 1];
      at := LongestRunIsLongest(before);
      TrailingRunOccurs(text);
      forall i: nat, j: nat | IsRun(text, i, j) ensures j - i <= LongestRun(text) {
        if j == |text| {
          TrailingRunIsLongest(text, i);
        } else {
          assert IsRun(before, i, j);
        }
      }
      if LongestRun(text) == TrailingRun(text) {
        at := |text| - TrailingRun(text);
      }
    }
  }

  // ── Metadata ───────────────────────────────────────────────────────────

  predicate IsControl(c: char) {
    c < ' ' || '\U{7f}' <= c < '\U{a0}'
  }

  function Trim(text: string): string
    decreases |text|
  {
    if text == "" then ""
    else if IsWhite(text[0]) then Trim(text[1..])
    else if IsWhite(text[|text| - 1]) then Trim(text[..|text| - 1])
    else text
  }

  function SingleLine(value: string): string {
    Trim(seq(|value|, i requires 0 <= i < |value| => if IsControl(value[i]) then ' ' else value[i]))
  }

  // Trimming takes a stretch, and leaves white space only at its outside.
  lemma {:induction false} TrimIsAStretch(text: string) returns (i: nat, j: nat)
    ensures i <= j <= |text| && Trim(text) == text[i..j]
    ensures forall k :: 0 <= k < i || j <= k < |text| ==> IsWhite(text[k])
    ensures i < j ==> !IsWhite(text[i]) && !IsWhite(text[j - 1])
    decreases |text|
  {
    hide IsWhite;
    if text == "" {
      i, j := 0, 0;
    } else if IsWhite(text[0]) {
      i, j := TrimIsAStretch(text[1..]);
      assert text[1..][i..j] == text[i + 1..j + 1];
      assert forall k :: 1 <= k < |text| ==> text[k] == text[1..][k - 1];
      i, j := i + 1, j + 1;
    } else if IsWhite(text[|text| - 1]) {
      i, j := TrimIsAStretch(text[..|text| - 1]);
      assert text[..|text| - 1][i..j] == text[i..j];
    } else {
      i, j := 0, |text|;
    }
  }

  // A metadata value stays on its line whatever it contains.
  lemma MetadataStaysOnItsLine(value: string)
    ensures forall c :: c in SingleLine(value) ==> !IsControl(c) && !IsEnding(c)
  {
    var spaced := seq(|value|, i requires 0 <= i < |value| => if IsControl(value[i]) then ' ' else value[i]);
    var i, j := TrimIsAStretch(spaced);
    assert forall c :: c in spaced ==> !IsControl(c);
  }

  // And it keeps all its text: what is cut off at its ends is white space or a
  // control character, and inside only control characters become spaces.
  lemma MetadataKeepsItsText(value: string) returns (i: nat, j: nat)
    ensures i <= j <= |value| && |SingleLine(value)| == j - i
    ensures forall k :: i <= k < j ==> SingleLine(value)[k - i] == if value[k] < '\U{20}' || '\U{7f}' <= value[k] <= '\U{9f}' then ' ' else value[k]
    ensures forall k :: 0 <= k < i || j <= k < |value| ==> IsWhite(value[k]) || IsControl(value[k])
    ensures i < j ==> !IsWhite(value[i]) && !IsWhite(value[j - 1]) && !IsControl(value[i]) && !IsControl(value[j - 1])
  {
    var spaced := seq(|value|, i requires 0 <= i < |value| => if IsControl(value[i]) then ' ' else value[i]);
    i, j := TrimIsAStretch(spaced);
    assert IsWhite(' ');
    assert forall k :: 0 <= k < |value| ==> spaced[k] == if IsControl(value[k]) then ' ' else value[k];
  }

  // ── The message ────────────────────────────────────────────────────────

  datatype Request = Request(conceptName: string, sourcePane: string, capture: string)

  function Field(name: string, value: string): string {
    if value == "" then "" else name + ": " + SingleLine(value) + "\n"
  }

  function Quoted(capture: string): string {
    var fence := Ticks('`', FenceLen(capture));
    fence + "text" + "\n" + (capture + ("\n" + fence))
  }

  function Message(req: Request): string {
    Field("Concept", req.conceptName) + (Field("Source pane", req.sourcePane) +
    ("Captured output:" + "\n" + Quoted(Truncated(req.capture, MAX_CAPTURE_BYTES))))
  }

  function Join(parts: seq<string>): string {
    if parts == [] then ""
    else if |parts| == 1 then parts[0]
    else parts[0] + "\n" + Join(parts[1..])
  }

  lemma JoinHead(part: string, rest: seq<string>)
    requires rest != []
    ensures Join([part] + rest) == part + "\n" + Join(rest)
  {
    assert ([part] + rest)[1..] == rest;
  }

  method BuildUserMessage(req: Request) returns (message: string)
    ensures message == Message(req)
  {
    var capture := TruncateUtf8(req.capture, MAX_CAPTURE_BYTES);
    var fence := Ticks('`', FenceLen(capture));
    var parts: seq<string> := [];
    if req.conceptName != "" {
      parts := parts + ["Concept: " + SingleLine(req.conceptName)];
    }
    if req.sourcePane != "" {
      parts := parts + ["Source pane: " + SingleLine(req.sourcePane)];
    }
    parts := parts + ["Captured output:"];
    parts := parts + [fence + "text"];
    parts := parts + [capture];
    parts := parts + [fence];
    message := Join(parts);
    assert "Concept: " == "Concept" + ": " && "Source pane: " == "Source pane" + ": ";
    assert parts == FieldPart("Concept", req.conceptName) + (FieldPart("Source pane", req.sourcePane)
      + ["Captured output:", fence + "text", capture, fence]);
    JoinedIsMessage(req, capture, fence);
  }

  lemma QuotedJoins(capture: string, fence: string)
    requires fence == Ticks('`', FenceLen(capture))
    ensures Join(["Captured output:", fence + "text", capture, fence]) == "Captured output:" + "\n" + Quoted(capture)
  {
    hide Ticks, FenceLen, Join;
    JoinOne(fence);
    JoinHead(capture, [fence]);
    JoinHead(fence + "text", [capture, fence]);
    JoinHead("Captured output:", [fence + "text", capture, fence]);
    assert [capture] + [fence] == [capture, fence];
    assert [fence + "text"] + [capture, fence] == [fence + "text", capture, fence];
    assert ["Captured output:"] + [fence + "text", capture, fence] == ["Captured output:", fence + "text", capture, fence];
  }

  function FieldPart(name: string, value: string): seq<string> {
    if value == "" then [] else [name + ": " + SingleLine(value)]
  }

  lemma JoinedIsMessage(req: Request, capture: string, fence: string)
    requires capture == Truncated(req.capture, MAX_CAPTURE_BYTES) && fence == Ticks('`', FenceLen(capture))
    ensures Join(FieldPart("Concept", req.conceptName) + (FieldPart("Source pane", req.sourcePane)
              + ["Captured output:", fence + "text", capture, fence])) == Message(req)
  {
    hide Truncated, SingleLine, Ticks, FenceLen, Join, FieldPart;
    var body := ["Captured output:", fence + "text", capture, fence];
    QuotedJoins(capture, fence);
    FieldJoins("Source pane", req.sourcePane, body);
    FieldJoins("Concept", req.conceptName, FieldPart("Source pane", req.sourcePane) + body);
  }

  lemma JoinOne(part: string)
    ensures Join([part]) == part
  {
  }

  lemma FieldJoins(name: string, value: string, rest: seq<string>)
    requires rest != []
    ensures Join(FieldPart(name, value) + rest) == Field(name, value) + Join(rest)
  {
    hide SingleLine, Join;
    if value == "" {
      assert [] + rest == rest && "" + Join(rest) == Join(rest);
    } else {
      JoinHead(name + ": " + SingleLine(value), rest);
    }
  }

  // Each value that is given is on the line that names it.
  lemma MessageIsLabelled(req: Request)
    ensures Message(req)
         == (if req.conceptName == "" then "" else "Concept: " + SingleLine(req.conceptName) + "\n")
            + (if req.sourcePane == "" then "" else "Source pane: " + SingleLine(req.sourcePane) + "\n")
            + "Captured output:\n" + Quoted(Truncated(req.capture, MAX_CAPTURE_BYTES))
  {
    hide Quoted, Truncated, SingleLine;
    assert "Concept" + ": " == "Concept: " && "Source pane" + ": " == "Source pane: ";
    assert "Captured output:\n" == "Captured output:" + "\n";
  }

  // ── What a reader of the message sees ──────────────────────────────────

  lemma SkipField(name: string, value: string, rest: string)
    requires name != "" && name[0] !in " `~" && forall c :: c in name ==> !IsEnding(c)
    ensures FirstBlock(Field(name, value) + rest) == FirstBlock(rest)
  {
    hide FirstBlock, SingleLine;
    if value == "" {
      assert "" + rest == rest;
    } else {
      MetadataStaysOnItsLine(value);
      var line := name + ": " + SingleLine(value);
      SkipLine(line, rest);
      assert Field(name, value) + rest == line + "\n" + rest;
    }
  }

  lemma NothingToStrip(text: string)
    requires text != "" && text[0] !in " \t" && text[|text| - 1] !in " \t"
    ensures Stripped(text) == text
  {
    assert text[0] in text[..1] && text[|text| - 1] in text[|text| - 1..];
  }

  lemma OpeningLine(n: nat)
    requires n >= 3
    ensures Opening(Ticks('`', n) + "text") == Some(Fence(0, '`', n, "text"))
  {
    hide Stripped;
    NothingToStrip("text");
    var line := Ticks('`', n) + "text";
    assert Lead(line, ' ') == 0 && line[0..] == line;
    assert line[n] == 't';
    assert Lead(line, '`') == n;
    assert line[n..] == "text";
    assert FenceOf(line, '`') == Some(Fence(0, '`', n, "text"));
  }

  lemma QuotedOpens(capture: string)
    ensures var fence := Fence(0, '`', FenceLen(capture), "text");
            var (content, closed) := Body(capture + ("\n" + Ticks('`', fence.length)), fence);
            FirstBlock(Quoted(capture)) == Some(Block("text", content, closed))
  {
    var n := FenceLen(capture);
    hide Body, Opening, FenceLen, LineLen;
    var line := Ticks('`', n) + "text";
    var rest := capture + ("\n" + Ticks('`', n));
    var doc := Quoted(capture);
    assert doc == line + ("\n" + rest);
    LineOf(line, "\n" + rest);
    OpeningLine(n);
    assert doc[..|line|] == line && doc[|line| + 1..] == rest;
  }

  // Only the quoted capture is a block: the lines before it open none.
  lemma MessageOpensAtTheCapture(req: Request)
    ensures FirstBlock(Message(req)) == FirstBlock(Quoted(Truncated(req.capture, MAX_CAPTURE_BYTES)))
  {
    hide FirstBlock, Quoted, Truncated, Field;
    var quoted := Quoted(Truncated(req.capture, MAX_CAPTURE_BYTES));
    var body := "Captured output:" + "\n" + quoted;
    SkipField("Concept", req.conceptName, Field("Source pane", req.sourcePane) + body);
    SkipField("Source pane", req.sourcePane, body);
    SkipLine("Captured output:", quoted);
  }

  // Reading the message back gives exactly the truncated capture, whatever
  // the metadata says, if and only if no line of it is itself a closing fence.
  lemma CaptureIsRecovered(req: Request)
    ensures var capture := Truncated(req.capture, MAX_CAPTURE_BYTES);
            (FirstBlock(Message(req)) == Some(Block("text", capture + "\n", true)))
            <==> !ClosedInside(capture, '`', FenceLen(capture))
  {
    var capture := Truncated(req.capture, MAX_CAPTURE_BYTES);
    var n := FenceLen(capture);
    var fence := Fence(0, '`', n, "text");
    hide Body, FirstBlock, FenceLen, Message, Quoted, Truncated;
    MessageOpensAtTheCapture(req);
    QuotedOpens(capture);
    if ClosedInside(capture, '`', n) {
      var i: nat, j: nat :| ClosesAt(capture, i, j, '`', n);
      ClosesBeforeTail(capture, "\n" + Ticks('`', n), i, j, n);
      ClosedEarly(capture + ("\n" + Ticks('`', n)), i, j, fence);
    } else {
      QuotedReadsBack(capture, fence);
    }
  }

  lemma ClosesBeforeTail(text: string, tail: string, i: nat, j: nat, n: nat)
    requires ClosesAt(text, i, j, '`', n) && tail != "" && IsEnding(tail[0])
    ensures ClosesAt(text + tail, i, j, '`', n)
  {
    hide Closes;
    assert (text + tail)[i..j] == text[i..j];
  }

  // A closing line has a run at least as long as the fence.
  lemma ClosingLineHasARun(text: string, i: nat, j: nat, n: nat) returns (a: nat, b: nat)
    requires ClosesAt(text, i, j, '`', n)
    ensures IsRun(text, a, b) && b - a >= n
  {
    hide IsBlank, IsEnding;
    var line := text[i..j];
    var indent := Lead(line, ' ');
    assert line[indent..] == text[i + indent..j];
    a, b := i + indent, i + indent + Lead(text[i + indent..j], '`');
    assert forall k :: a <= k < b ==> text[k] == text[a..j][k - a];
  }

  // Below the cap the fence outgrows every run, so nothing can close it.
  lemma ShortRunsNeverClose(capture: string)
    requires LongestRun(capture) < 32
    ensures !ClosedInside(capture, '`', FenceLen(capture))
  {
    hide ClosesAt, LongestRun, IsRun;
    var at := LongestRunIsLongest(capture);
    if ClosedInside(capture, '`', FenceLen(capture)) {
      var i: nat, j: nat :| ClosesAt(capture, i, j, '`', FenceLen(capture));
      var a, b := ClosingLineHasARun(capture, i, j, FenceLen(capture));
    }
  }

  // And it is no longer than that takes: a fence above the least has a run one
  // shorter inside.
  lemma FenceIsNoLonger(capture: string) returns (at: nat)
    ensures FenceLen(capture) > 3 ==> IsRun(capture, at, at + FenceLen(capture) - 1)
  {
    at := LongestRunIsLongest(capture);
  }

  lemma ShortRunsAreRecovered(req: Request)
    requires LongestRun(Truncated(req.capture, MAX_CAPTURE_BYTES)) < 32
    ensures FirstBlock(Message(req)) == Some(Block("text", Truncated(req.capture, MAX_CAPTURE_BYTES) + "\n", true))
  {
    ShortRunsNeverClose(Truncated(req.capture, MAX_CAPTURE_BYTES));
    CaptureIsRecovered(req);
  }

  // At the cap it no longer does: a line of 32 backticks ends the quotation.
  lemma LongRunEndsTheQuotation(req: Request)
    requires req.capture == Ticks('`', 32)
    ensures FirstBlock(Message(req)) == Some(Block("text", "", true))
  {
    hide FirstBlock, Message;
    var capture := req.capture;
    AsciiLen(capture);
    var at := LongestRunIsLongest(capture);
    assert IsRun(capture, 0, MAX_FENCE);
    assert Truncated(capture, MAX_CAPTURE_BYTES) == capture && FenceLen(capture) == MAX_FENCE;
    MessageOpensAtTheCapture(req);
    QuotedOpens(capture);
    TicksClose('`', MAX_FENCE);
    var tail := "\n" + Ticks('`', MAX_FENCE);
    LineOf(capture, tail);
    assert (capture + tail)[..MAX_FENCE] == capture;
  }
}
