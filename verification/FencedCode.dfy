// A reader of fenced code blocks, as section 4.5 of the CommonMark
// specification (version 0.31.2) describes them, with the line endings of its
// section 2.1. Content is kept as it was written, line endings included.
module FencedCode {
  import opened Wrappers

  datatype Block = Block(info: string, content: string, closed: bool)

  // ── Lines ──────────────────────────────────────────────────────────────

  predicate IsEnding(c: char) {
    c == '\n' || c == '\r'
  }

  // The characters before the first line ending.
  function LineLen(text: string): (n: nat)
    ensures n <= |text| && (n < |text| ==> IsEnding(text[n]))
  {
    if text == "" || IsEnding(text[0]) then 0 else 1 + LineLen(text[1..])
  }

  lemma {:induction false} LineIsPlain(text: string)
    ensures forall k :: 0 <= k < LineLen(text) ==> !IsEnding(text[k])
  {
    if text != "" && !IsEnding(text[0]) {
      LineIsPlain(text[1..]);
      assert forall k :: 0 < k < |text| ==> text[k] == text[1..][k - 1];
    }
  }

  // The first line's characters with its ending: a line feed, a carriage
  // return, or the two together.
  function WholeLen(text: string): (n: nat)
    ensures LineLen(text) <= n <= |text| && (text != "" ==> n > 0)
  {
    var n := LineLen(text);
    if n == |text| then n
    else if text[n] == '\r' && n + 1 < |text| && text[n + 1] == '\n' then n + 2
    else n + 1
  }

  // ── Fences ─────────────────────────────────────────────────────────────

  // How many of `c` the line starts with.
  function Lead(line: string, c: char): (n: nat)
    ensures n <= |line| && (n < |line| ==> line[n] != c)
    ensures forall k :: 0 <= k < n ==> line[k] == c
  {
    if line != "" && line[0] == c then 1 + Lead(line[1..], c) else 0
  }

  predicate IsBlank(text: string) {
    forall c :: c in text ==> c == ' ' || c == '\t'
  }

  function Stripped(text: string): string
    decreases |text|
  {
    if text == "" then ""
    else if IsBlank(text[..1]) then Stripped(text[1..])
    else if IsBlank(text[|text| - 1..]) then Stripped(text[..|text| - 1])
    else text
  }

  // The opening fence's indentation, character, length and info string.
  datatype Fence = Fence(indent: nat, tick: char, length: nat, info: string)

  function FenceOf(line: string, tick: char): Option<Fence> {
    var indent := Lead(line, ' ');
    var length := Lead(line[indent..], tick);
    var info := line[indent + length..];
    if indent > 3 || length < 3 || (tick == '`' && '`' in info) then None
    else Some(Fence(indent, tick, length, Stripped(info)))
  }

  function Opening(line: string): Option<Fence> {
    var ticks := FenceOf(line, '`');
    if ticks.Some? then ticks else FenceOf(line, '~')
  }

  function Ticks(tick: char, length: nat): string {
    seq(length, _ => tick)
  }

  predicate Closes(line: string, tick: char, length: nat) {
    var indent := Lead(line, ' ');
    var run := Lead(line[indent..], tick);
    indent <= 3 && run >= length && IsBlank(line[indent + run..])
  }

  // ── The reader ─────────────────────────────────────────────────────────

  // A content line, without the indentation it shares with its fence.
  function Dedented(line: string, indent: nat): string {
    var own := Lead(line, ' ');
    line[if own < indent then own else indent..]
  }

  // Everything up to the closing fence or the end of the document, and
  // whether there was a closing fence.
  function Body(text: string, fence: Fence): (string, bool)
    decreases |text|
  {
    if text == "" then ("", false)
    else if Closes(text[..LineLen(text)], fence.tick, fence.length) then ("", true)
    else
      var n := WholeLen(text);
      var (more, closed) := Body(text[n..], fence);
      (Dedented(text[..n], fence.indent) + more, closed)
  }

  // The first fenced code block of a document.
  function FirstBlock(doc: string): Option<Block>
    decreases |doc|
  {
    if doc == "" then None
    else
      var fence := Opening(doc[..LineLen(doc)]);
      var rest := doc[WholeLen(doc)..];
      if fence.None? then FirstBlock(rest)
      else
        var (content, closed) := Body(rest, fence.value);
        Some(Block(fence.value.info, content, closed))
  }

  // ── Lines of a concatenation ───────────────────────────────────────────

  lemma {:induction false} LineOf(line: string, rest: string)
    requires forall c :: c in line ==> !IsEnding(c)
    requires rest != "" ==> IsEnding(rest[0])
    ensures LineLen(line + rest) == |line|
  {
    if line == "" {
      assert line + rest == rest;
    } else {
      assert (line + rest)[1..] == line[1..] + rest;
      LineOf(line[1..], rest);
    }
  }

  // A line that opens nothing is passed over.
  lemma SkipLine(line: string, rest: string)
    requires line != "" && line[0] !in " `~" && forall c :: c in line ==> !IsEnding(c)
    ensures FirstBlock(line + "\n" + rest) == FirstBlock(rest)
  {
    var doc := line + "\n" + rest;
    assert doc == line + ("\n" + rest);
    LineOf(line, "\n" + rest);
    assert doc[..LineLen(doc)] == line && doc[WholeLen(doc)..] == rest;
    assert line[0..] == line;
  }

  // ── What closes a block early ──────────────────────────────────────────

  // A stretch of `text` between line endings that is a closing fence.
  ghost predicate ClosesAt(text: string, i: nat, j: nat, tick: char, length: nat) {
    && i <= j <= |text|
    && (i == 0 || IsEnding(text[i - 1]))
    && (j == |text| || IsEnding(text[j]))
    && Closes(text[i..j], tick, length)
  }

  ghost predicate ClosedInside(text: string, tick: char, length: nat) {
    exists i: nat, j: nat :: ClosesAt(text, i, j, tick, length)
  }

  lemma ClosingLineIsPlain(line: string, tick: char, length: nat)
    requires Closes(line, tick, length) && !IsEnding(tick)
    ensures forall c :: c in line ==> !IsEnding(c)
  {
    var indent := Lead(line, ' ');
    var run := Lead(line[indent..], tick);
    forall k | 0 <= k < |line| ensures !IsEnding(line[k]) {
      if indent <= k < indent + run {
        assert line[indent..][k - indent] == tick;
      } else if indent + run <= k {
        assert line[indent + run..][k - indent - run] in line[indent + run..];
      }
    }
  }

  lemma TicksClose(tick: char, length: nat)
    requires tick != ' '
    ensures Closes(Ticks(tick, length), tick, length)
  {
    var line := Ticks(tick, length);
    assert Lead(line, ' ') == 0;
    assert line[0..] == line;
    assert Lead(line, tick) == length;
    assert line[length..] == "";
  }

  lemma {:induction false} LineEndsInText(text: string, tail: string)
    requires tail != "" && IsEnding(tail[0])
    ensures LineLen(text + tail) == LineLen(text)
  {
    if text == "" {
      assert text + tail == tail;
    } else if !IsEnding(text[0]) {
      assert (text + tail)[1..] == text[1..] + tail;
      LineEndsInText(text[1..], tail);
    }
  }

  // The first line of a text that a line ending follows.
  lemma FirstLineKept(text: string, tail: string)
    requires tail != "" && IsEnding(tail[0])
    ensures LineLen(text + tail) == LineLen(text) < WholeLen(text + tail)
    ensures (text + tail)[..LineLen(text)] == text[..LineLen(text)]
  {
    LineEndsInText(text, tail);
    hide *;
  }

  // One content line of an unindented block.
  lemma BodyStep(text: string, fence: Fence)
    requires text != "" && fence.indent == 0
    requires !Closes(text[..LineLen(text)], fence.tick, fence.length)
    ensures WholeLen(text) > 0
    ensures Body(text, fence) ==
      (text[..WholeLen(text)] + Body(text[WholeLen(text)..], fence).0, Body(text[WholeLen(text)..], fence).1)
  {
    hide Closes, Lead, LineLen;
    var m := WholeLen(text);
    assert Dedented(text[..m], 0) == text[..m];
  }

  // The closing fence on the last line.
  lemma BodyEnd(fence: Fence)
    requires fence.tick in "`~" && fence.length > 0
    ensures Body(Ticks(fence.tick, fence.length), fence) == ("", true)
  {
    var end := Ticks(fence.tick, fence.length);
    LineOf(end, "");
    assert end + "" == end;
    TicksClose(fence.tick, fence.length);
    assert end[..|end|] == end;
  }

  lemma TailCloses(text: string, m: nat, i: nat, j: nat, tick: char, length: nat)
    requires m <= |text| && (m == 0 || IsEnding(text[m - 1]))
    requires ClosesAt(text[m..], i, j, tick, length)
    ensures ClosesAt(text, m + i, m + j, tick, length)
  {
    hide Closes;
    assert text[m..][i..j] == text[m + i..m + j];
  }

  // Quoting: text with no closing line of its own, then a line feed and the
  // closing fence, reads back as it was.
  lemma {:induction false} QuotedReadsBack(text: string, fence: Fence)
    requires fence.indent == 0 && fence.tick in "`~" && fence.length > 0
    requires !ClosedInside(text, fence.tick, fence.length)
    ensures Body(text + ("\n" + Ticks(fence.tick, fence.length)), fence) == (text + "\n", true)
    decreases |text|
  {
    hide Closes, Body, LineLen, Lead;
    var end := Ticks(fence.tick, fence.length);
    var tail := "\n" + end;
    var doc := text + tail;
    FirstLineKept(text, tail);
    var n, m := LineLen(text), WholeLen(doc);
    assert text[0..n] == text[..n];
    assert !ClosesAt(text, 0, n, fence.tick, fence.length);
    BodyStep(doc, fence);
    if m > |text| {
      assert m == |text| + 1;
      assert doc[m..] == end && doc[..m] == text + "\n" == text + "\n" + "";
      BodyEnd(fence);
    } else {
      if ClosedInside(text[m..], fence.tick, fence.length) {
        var i: nat, j: nat :| ClosesAt(text[m..], i, j, fence.tick, fence.length);
        TailCloses(text, m, i, j, fence.tick, fence.length);
      }
      QuotedReadsBack(text[m..], fence);
      assert doc[m..] == text[m..] + tail && doc[..m] == text[..m];
      assert text[..m] + (text[m..] + "\n") == text + "\n";
    }
  }

  // A stretch that closes starts a line of its own: it is not the empty
  // stretch inside a CRLF.
  lemma ClosingStartsALine(doc: string, i: nat, j: nat, fence: Fence)
    requires fence.tick in "`~" && fence.length > 0
    requires 0 < i && ClosesAt(doc, i, j, fence.tick, fence.length)
    ensures LineLen(doc) < WholeLen(doc) <= i
  {
    ClosingLineIsPlain(doc[i..j], fence.tick, fence.length);
    LineIsPlain(doc);
    hide Closes, LineLen;
    assert i < j;
    assert doc[i] == doc[i..j][0] && doc[i] in doc[i..j];
  }

  lemma TailSlice(text: string, m: nat, i: nat, j: nat)
    ensures m <= i <= j <= |text| ==> text[m..][i - m..j - m] == text[i..j]
  {
  }

  // A closing line inside the text ends the block there, or earlier.
  lemma {:induction false} ClosedEarly(doc: string, i: nat, j: nat, fence: Fence)
    requires fence.indent == 0 && fence.tick in "`~" && fence.length > 0
    requires ClosesAt(doc, i, j, fence.tick, fence.length)
    ensures |Body(doc, fence).0| <= i
    decreases |doc|
  {
    hide Closes, LineLen, Lead, WholeLen, Dedented;
    if doc == "" {
    } else if Closes(doc[..LineLen(doc)], fence.tick, fence.length) {
    } else if i == 0 {
      LineAt(doc, j, fence);
    } else {
      ClosingStartsALine(doc, i, j, fence);
      BodyStep(doc, fence);
      hide Body;
      var m := WholeLen(doc);
      TailSlice(doc, m, i, j);
      ClosedEarly(doc[m..], i - m, j - m, fence);
    }
  }

  lemma LineAt(doc: string, j: nat, fence: Fence)
    requires fence.tick in "`~" && ClosesAt(doc, 0, j, fence.tick, fence.length)
    ensures LineLen(doc) == j && Closes(doc[..j], fence.tick, fence.length)
  {
    ClosingLineIsPlain(doc[0..j], fence.tick, fence.length);
    hide Closes;
    LineOf(doc[0..j], doc[j..]);
    assert doc[0..j] + doc[j..] == doc;
    assert doc[0..j] == doc[..j];
  }
}
