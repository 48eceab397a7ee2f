// Assembling a child's output into bounded lines
// (crates/gpty-core/src/cli.rs, `push_chunk`, `take_line`, `flush_pending`
// and the loop of `read_lines`). Lines are their bytes; the lossy UTF-8
// decoding of each finished piece is not part of this model.
module CliLines {
  import opened Bytes

  const MAX_LINE_BYTES: nat := 16 * 1024

  // ── One byte at a time ─────────────────────────────────────────────────

  function Step(pending: Str, byte: Byte, max: nat): (Str, seq<Str>) {
    if byte == LF then ([], [WithoutCr(pending)])
    else if |pending| >= max then ([byte], [pending])
    else (pending + [byte], [])
  }

  function Run(pending: Str, input: Str, max: nat): (Str, seq<Str>) {
    if input == [] then (pending, [])
    else
      var n := |input| - 1;
      var (p, out) := Run(pending, input[..n], max);
      var (q, more) := Step(p, input[n], max);
      (q, out + more)
  }

  function Flushed(pending: Str): seq<Str> {
    if pending == [] then [] else [WithoutCr(pending)]
  }

  // ── The loops ──────────────────────────────────────────────────────────

  method PushChunk(pending0: Str, chunk: Str, out0: seq<Str>, max: nat) returns (pending: Str, out: seq<Str>)
    ensures pending == Run(pending0, chunk, max).0
    ensures out == out0 + Run(pending0, chunk, max).1
  {
    pending, out := pending0, out0;
    for i := 0 to |chunk|
      invariant pending == Run(pending0, chunk[..i], max).0
      invariant out == out0 + Run(pending0, chunk[..i], max).1
    {
      assert chunk[..i + 1][..i] == chunk[..i];
      var byte := chunk[i];
      if byte == LF {
        out := out + [WithoutCr(pending)];
        pending := [];
        continue;
      }
      if |pending| >= max {
        out := out + [pending];
        pending := [];
      }
      pending := pending + [byte];
    }
    assert chunk[..|chunk|] == chunk;
  }

  // Reads a stream that arrives as `parts`, to its end.
  method ReadLines(parts: seq<Str>) returns (lines: seq<Str>)
    ensures lines == AllLines(Flatten(parts), MAX_LINE_BYTES)
  {
    hide Run, Split, Step;
    var pending: Str := [];
    lines := [];
    NothingRead();
    for i := 0 to |parts|
      invariant pending == Run([], Flatten(parts[..i]), MAX_LINE_BYTES).0
      invariant lines == Run([], Flatten(parts[..i]), MAX_LINE_BYTES).1
    {
      assert parts[..i + 1] == parts[..i] + [parts[i]];
      FlattenSnoc(parts[..i], parts[i]);
      RunSplit([], Flatten(parts[..i]), parts[i], MAX_LINE_BYTES);
      pending, lines := PushChunk(pending, parts[i], lines, MAX_LINE_BYTES);
    }
    assert parts[..|parts|] == parts;
    RunIsSplit(Flatten(parts), MAX_LINE_BYTES);
    lines := lines + Flushed(pending);
  }

  lemma NothingRead()
    ensures Flatten<Byte>([]) == [] && Run([], [], MAX_LINE_BYTES) == ([], [])
  {
  }

  // How the bytes are cut into reads does not matter.
  lemma {:induction false} RunSplit(pending: Str, a: Str, b: Str, max: nat)
    ensures var (p, out) := Run(pending, a, max);
            Run(pending, a + b, max) == (Run(p, b, max).0, out + Run(p, b, max).1)
  {
    hide Step;
    if b == [] {
      assert a + b == a;
      assert Run(pending, a, max).1 + [] == Run(pending, a, max).1;
    } else {
      var n := |b| - 1;
      assert (a + b)[..|a + b| - 1] == a + b[..n];
      RunSplit(pending, a, b[..n], max);
      var (p, out) := Run(pending, a, max);
      var (q, later) := Run(p, b[..n], max);
      assert out + later + Step(q, b[n], max).1 == out + (later + Step(q, b[n], max).1);
    }
  }

  // ── What the lines are ─────────────────────────────────────────────────

  // A stretch without line feeds, cut into full pieces, and what is left.
  function Pieces(line: Str, max: nat): seq<Str>
    requires max > 0
  {
    if |line| <= max then [] else [line[..max]] + Pieces(line[max..], max)
  }

  function Rest(line: Str, max: nat): (rest: Str)
    requires max > 0
    ensures |rest| <= max && (line != [] ==> rest != [])
  {
    if |line| <= max then line else Rest(line[max..], max)
  }

  // What one terminated line is shown as.
  function LineOf(line: Str, max: nat): seq<Str>
    requires max > 0
  {
    Pieces(line, max) + [WithoutCr(Rest(line, max))]
  }

  // The pending tail and the lines of a text.
  function Split(text: Str, max: nat): (Str, seq<Str>)
    requires max > 0
    decreases |text|
  {
    var i := FirstFeed(text);
    if i == |text| then (Rest(text, max), Pieces(text, max))
    else
      var (tail, lines) := Split(text[i + 1..], max);
      (tail, LineOf(text[..i], max) + lines)
  }

  function AllLines(text: Str, max: nat): seq<Str>
    requires max > 0
  {
    Split(text, max).1 + Flushed(Split(text, max).0)
  }

  function Concat(pieces: seq<Str>): Str {
    if pieces == [] then [] else pieces[0] + Concat(pieces[1..])
  }

  lemma ConcatCons(first: Str, later: seq<Str>)
    ensures Concat([first] + later) == first + Concat(later) && Concat([]) == []
  {
    assert ([first] + later)[1..] == later;
  }

  // Nothing is lost in the cutting.
  lemma {:induction false} PiecesAreTheLine(line: Str, max: nat)
    requires max > 0
    ensures Concat(Pieces(line, max)) + Rest(line, max) == line
  {
    if |line| > max {
      hide Concat;
      PiecesAreTheLine(line[max..], max);
      var (first, later, rest) := (line[..max], Pieces(line[max..], max), Rest(line[max..], max));
      assert Pieces(line, max) == [first] + later && Rest(line, max) == rest;
      hide Pieces, Rest;
      ConcatCons(first, later);
      assert first + Concat(later) + rest == first + (Concat(later) + rest);
      assert line == first + line[max..];
    }
  }

  lemma {:induction false} ConcatSnoc(pieces: seq<Str>, last: Str)
    ensures Concat(pieces + [last]) == Concat(pieces) + last
  {
    if pieces == [] {
      assert [] + [last] == [last] && [last][1..] == [] && Concat([]) == [];
    } else {
      assert (pieces + [last])[1..] == pieces[1..] + [last];
      ConcatSnoc(pieces[1..], last);
      assert pieces[0] + (Concat(pieces[1..]) + last) == pieces[0] + Concat(pieces[1..]) + last;
    }
  }

  // What a line is shown as is the line, but for the CR of a CRLF.
  lemma LineIsShownWhole(line: Str, max: nat)
    requires max > 0
    ensures Concat(LineOf(line, max)) == if line != [] && line[|line| - 1] == CR then line[..|line| - 1] else line
    ensures LineOf(line, max) != [] && forall k :: 0 <= k < |LineOf(line, max)| ==> |LineOf(line, max)[k]| <= max
  {
    PiecesAreTheLine(line, max);
    if line != [] { RestKeepsLast(line, max); }
    forall k | 0 <= k < |Pieces(line, max)| ensures |Pieces(line, max)[k]| == max {
      PiecesAreFull(line, max, k);
    }
    hide Pieces, Rest, Concat;
    ConcatSnoc(Pieces(line, max), WithoutCr(Rest(line, max)));
  }

  // Terminated lines, and what stands behind the last of them.
  function Text(lines: seq<Str>, tail: Str): Str {
    if lines == [] then tail else lines[0] + [LF] + Text(lines[1..], tail)
  }

  // Each shown in turn, an unterminated last one like the others.
  function ShownLines(lines: seq<Str>, tail: Str, max: nat): seq<Str>
    requires max > 0
  {
    if lines != [] then LineOf(lines[0], max) + ShownLines(lines[1..], tail, max)
    else if tail == [] then [] else LineOf(tail, max)
  }

  lemma FeedBehindLine(line: Str, rest: Str)
    requires LF !in line
    ensures FirstFeed(line + [LF] + rest) == |line|
    ensures (line + [LF] + rest)[..|line|] == line && (line + [LF] + rest)[|line| + 1..] == rest
  {
    FirstFeedIsFirst(line);
    FirstFeedConcat(line, [LF] + rest);
    assert line + [LF] + rest == line + ([LF] + rest);
    NoFeed(line);
  }

  lemma NoFeed(line: Str)
    requires LF !in line
    ensures FirstFeed(line) == |line|
  {
  }

  // Every text is lines and a tail, and all of them are shown, in order.
  lemma {:induction false} AllLinesAreShown(lines: seq<Str>, tail: Str, max: nat)
    requires max > 0 && LF !in tail && forall i :: 0 <= i < |lines| ==> LF !in lines[i]
    ensures AllLines(Text(lines, tail), max) == ShownLines(lines, tail, max)
  {
    if lines == [] {
      NoFeed(tail);
      hide Pieces;
    } else {
      var (line, rest) := (lines[0], Text(lines[1..], tail));
      FeedBehindLine(line, rest);
      AllLinesAreShown(lines[1..], tail, max);
      SplitBehind(line, rest, max);
      var (left, later) := (Split(rest, max).0, Split(rest, max).1);
      assert LineOf(line, max) + later + Flushed(left) == LineOf(line, max) + (later + Flushed(left));
    }
  }

  lemma SplitBehind(line: Str, rest: Str, max: nat)
    requires max > 0 && FirstFeed(line + [LF] + rest) == |line|
    requires (line + [LF] + rest)[..|line|] == line && (line + [LF] + rest)[|line| + 1..] == rest
    ensures Split(line + [LF] + rest, max) == (Split(rest, max).0, LineOf(line, max) + Split(rest, max).1)
  {
    hide FirstFeed, LineOf, Rest, Pieces;
  }

  lemma {:induction false} EveryTextIsLines(text: Str) returns (lines: seq<Str>, tail: Str)
    ensures text == Text(lines, tail) && LF !in tail && forall i :: 0 <= i < |lines| ==> LF !in lines[i]
    decreases |text|
  {
    var i := FirstFeed(text);
    FirstFeedIsFirst(text);
    if i == |text| {
      lines, tail := [], text;
      assert text[..i] == text;
    } else {
      var later;
      later, tail := EveryTextIsLines(text[i + 1..]);
      lines := [text[..i]] + later;
      assert lines[1..] == later;
      assert text == text[..i] + [LF] + text[i + 1..];
    }
  }

  lemma {:induction false} TerminatedText(lines: seq<Str>, tail: Str)
    ensures Text(lines + [tail], []) == Text(lines, tail) + [LF]
  {
    if lines == [] {
      assert [] + [tail] == [tail] && [tail][1..] == [] && tail + [LF] + [] == tail + [LF];
    } else {
      assert (lines + [tail])[1..] == lines[1..] + [tail];
      TerminatedText(lines[1..], tail);
      assert lines[0] + [LF] + (Text(lines[1..], tail) + [LF]) == lines[0] + [LF] + Text(lines[1..], tail) + [LF];
    }
  }

  lemma {:induction false} ShownTerminated(lines: seq<Str>, tail: Str, max: nat)
    requires max > 0 && tail != []
    ensures ShownLines(lines + [tail], [], max) == ShownLines(lines, tail, max)
  {
    hide LineOf;
    if lines == [] {
      assert [] + [tail] == [tail] && [tail][1..] == [];
    } else {
      assert (lines + [tail])[1..] == lines[1..] + [tail];
      ShownTerminated(lines[1..], tail, max);
    }
  }

  // A last line without its line feed is shown like one with it.
  lemma UnterminatedLineIsShown(text: Str, max: nat)
    requires max > 0 && text != [] && text[|text| - 1] != LF
    ensures AllLines(text, max) == AllLines(text + [LF], max) && AllLines(text, max) != []
  {
    var lines, tail := EveryTextIsLines(text);
    if tail == [] { EndsInFeed(lines); }
    hide AllLines, ShownLines, Text;
    AllLinesAreShown(lines, tail, max);
    TerminatedText(lines, tail);
    AllLinesAreShown(lines + [tail], [], max);
    ShownTerminated(lines, tail, max);
    SomethingIsShown(lines, tail, max);
  }

  lemma SomethingIsShown(lines: seq<Str>, tail: Str, max: nat)
    requires max > 0 && tail != []
    ensures ShownLines(lines, tail, max) != []
  {
  }

  lemma {:induction false} EndsInFeed(lines: seq<Str>)
    ensures Text(lines, []) != [] ==> Text(lines, [])[|Text(lines, [])| - 1] == LF
  {
    if lines != [] {
      EndsInFeed(lines[1..]);
    }
  }

  // A piece cut off early is exactly full.
  lemma {:induction false} PiecesAreFull(line: Str, max: nat, k: nat)
    requires max > 0 && k < |Pieces(line, max)|
    ensures |Pieces(line, max)[k]| == max
  {
    if k > 0 {
      PiecesAreFull(line[max..], max, k - 1);
    }
  }

  lemma {:induction false} PiecesSnoc(line: Str, byte: Byte, max: nat)
    requires max > 0
    ensures (Rest(line + [byte], max), Pieces(line + [byte], max))
         == if |Rest(line, max)| >= max then ([byte], Pieces(line, max) + [Rest(line, max)])
            else (Rest(line, max) + [byte], Pieces(line, max))
  {
    var longer := line + [byte];
    if |line| > max {
      PiecesSnoc(line[max..], byte, max);
      assert longer[max..] == line[max..] + [byte] && longer[..max] == line[..max];
      var later := Pieces(line[max..], max);
      assert [line[..max]] + (later + [Rest(line, max)]) == [line[..max]] + later + [Rest(line, max)];
    } else if |line| == max {
      assert longer[..max] == line && longer[max..] == [byte];
      assert Pieces([byte], max) == [] && [line] + [] == [] + [line];
    }
  }

  lemma {:induction false} RunOfLine(line: Str, max: nat)
    requires max > 0 && LF !in line
    ensures Run([], line, max) == (Rest(line, max), Pieces(line, max))
  {
    if line != [] {
      var n := |line| - 1;
      RunOfLine(line[..n], max);
      PiecesSnoc(line[..n], line[n], max);
      assert line == line[..n] + [line[n]];
      assert Pieces(line[..n], max) + [] == Pieces(line[..n], max);
      hide Pieces, Rest;
    }
  }

  lemma RunOfTerminatedLine(line: Str, max: nat)
    requires max > 0 && LF !in line
    ensures Run([], line + [LF], max) == ([], LineOf(line, max))
  {
    RunOfLine(line, max);
    assert (line + [LF])[..|line|] == line;
  }

  // The assembly computes the split.
  lemma {:induction false} RunIsSplit(text: Str, max: nat)
    requires max > 0
    ensures Run([], text, max) == Split(text, max)
    decreases |text|
  {
    hide Run, Pieces, Rest, LineOf, FirstFeed;
    var i := FirstFeed(text);
    var line := text[..i];
    FirstFeedIsFirst(text);
    if i == |text| {
      assert line == text;
      RunOfLine(text, max);
    } else {
      assert text == (line + [LF]) + text[i + 1..];
      RunOfTerminatedLine(line, max);
      RunSplit([], line + [LF], text[i + 1..], max);
      RunIsSplit(text[i + 1..], max);
    }
  }

  // The pending line never outgrows the bound.
  lemma {:induction false} PendingIsBounded(text: Str, max: nat)
    requires max > 0
    ensures |Run([], text, max).0| <= max
  {
    if text != [] {
      PendingIsBounded(text[..|text| - 1], max);
    }
  }

  // ── CRLF ───────────────────────────────────────────────────────────────

  lemma {:induction false} RestIsFullIff(line: Str, max: nat)
    requires max > 0
    ensures |Rest(line, max)| == max <==> line != [] && |line| % max == 0
  {
    if |line| > max {
      RestIsFullIff(line[max..], max);
      ModShift(|line|, max);
    } else if |line| < max {
      SmallMod(|line|, max);
    } else {
      SelfMod(max);
    }
  }

  lemma ModShift(n: nat, max: nat)
    requires n > max > 0
    ensures (n - max) % max == n % max
  {
    var (a, s) := ((n - max) / max, (n - max) % max);
    var (b, r) := (n / max, n % max);
    assert n - max == a * max + s && n == b * max + r;
    assert (b - a - 1) * max == s - r by {
      assert (b - a - 1) * max == b * max - a * max - max;
    }
    SmallMultipleIsZero(b - a - 1, max, s - r);
  }

  lemma SmallMultipleIsZero(k: int, max: int, d: int)
    requires max > 0 && k * max == d && -max < d < max
    ensures d == 0
  {
    assert k >= 1 ==> k * max >= max;
    assert k <= -1 ==> k * max <= -max;
  }

  lemma SmallMod(n: nat, max: nat)
    ensures n < max ==> n % max == n
  {
  }

  lemma SelfMod(max: nat)
    requires max > 0
    ensures max % max == 0
  {
  }

  // A CRLF line is shown like the same LF line, except that one whose length
  // is a multiple of the bound gets a blank line after it.
  lemma CrlfLineIsLfLineUnlessFull(line: Str, max: nat)
    requires max > 0 && WithoutCr(line) == line
    ensures LineOf(line + [CR], max)
         == LineOf(line, max) + (if line != [] && |line| % max == 0 then [[]] else [])
  {
    PiecesSnoc(line, CR, max);
    RestIsFullIff(line, max);
    if line != [] { RestKeepsLast(line, max); }
    hide Pieces, Rest;
    var rest := Rest(line, max);
    assert WithoutCr(rest) == rest;
    assert (rest + [CR])[..|rest|] == rest;
    assert [CR][..0] == [];
  }

  lemma {:induction false} RestKeepsLast(line: Str, max: nat)
    requires max > 0 && line != []
    ensures Rest(line, max)[|Rest(line, max)| - 1] == line[|line| - 1]
  {
    if |line| > max {
      RestKeepsLast(line[max..], max);
    }
  }
}
