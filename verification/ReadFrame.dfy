// Reading one bounded frame from a backend's output
// (crates/gpty-ai/src/frame.rs). The reader hands out its bytes in buffers of
// any sizes; read errors are not part of this model, and whether a line is
// valid UTF-8 is a parameter.
module ReadFrame {
  import opened Bytes

  datatype Outcome = Eof | Frame(line: Str) | TooLong | NotUtf8

  // ── One call, on the bytes themselves ──────────────────────────────────

  // The bytes of the first line, its line feed included.
  function FrameLen(text: Str): (n: nat)
    ensures n <= |text| && (text != [] ==> n > 0)
  {
    var i := FirstFeed(text);
    if i < |text| then i + 1 else i
  }

  function Decoded(line: Str, valid: Str -> bool): Outcome {
    if valid(line) then Frame(line) else NotUtf8
  }

  // The first line of `text` as a call reports it: too long when its content
  // is over the limit, else without its line ending; the tail that has none
  // is reported as it is.
  function First(text: Str, limit: nat, valid: Str -> bool): Outcome {
    var i := FirstFeed(text);
    if text == [] then Eof
    else if i > limit then TooLong
    else if i < |text| then Decoded(WithoutCr(text[..i]), valid)
    else Decoded(text, valid)
  }

  // What a call reports, said of the bytes: nothing when there are none; too
  // long exactly when more than `limit` of them come before the first line
  // feed, or before the end without one; else the content without its line
  // feed and a carriage return before that, if it is valid.
  lemma FirstIs(text: Str, limit: nat, valid: Str -> bool) returns (n: nat)
    ensures n <= |text| && (forall k :: 0 <= k < n ==> text[k] != 0x0a) && (n < |text| ==> text[n] == 0x0a)
    ensures var content := if n == |text| then text else if n > 0 && text[n - 1] == 0x0d then text[..n - 1] else text[..n];
            First(text, limit, valid)
            == if |text| == 0 then Eof else if n > limit then TooLong else if valid(content) then Frame(content) else NotUtf8
  {
    n := FirstFeed(text);
    FirstFeedIsFirst(text);
    assert forall k :: 0 <= k < n ==> text[k] == text[..n][k];
    assert n > 0 ==> text[..n][..n - 1] == text[..n - 1];
  }

  // ── The reader and the call ────────────────────────────────────────────

  class ChunkReader {
    var chunks: seq<Str>

    ghost predicate Valid()
      reads this
    {
      forall k :: 0 <= k < |chunks| ==> chunks[k] != []
    }

    // What is still to be read.
    ghost function Text(): Str
      reads this
    {
      Joined(chunks)
    }

    constructor (chunks: seq<Str>)
      requires forall k :: 0 <= k < |chunks| ==> chunks[k] != []
      ensures Valid() && Text() == Joined(chunks)
    {
      this.chunks := chunks;
    }

    // The current buffer: empty only at the end.
    method FillBuf() returns (chunk: Str)
      requires Valid()
      ensures chunk <= Text() && (chunk == [] <==> Text() == [])
      ensures chunks == [] ==> chunk == []
      ensures chunks != [] ==> chunk == chunks[0]
    {
      chunk := if chunks == [] then [] else chunks[0];
    }

    method Consume(n: nat)
      requires Valid() && chunks != [] && n <= |chunks[0]|
      modifies this
      ensures Valid() && Text() == old(Text())[n..]
    {
      var first := chunks[0];
      if n == |first| {
        chunks := chunks[1..];
      } else {
        chunks := [first[n..]] + chunks[1..];
      }
    }
  }

  lemma {:induction false} JoinedIsFlat(chunks: seq<Str>)
    ensures Joined(chunks) == Flatten(chunks)
  {
    if chunks != [] {
      JoinedIsFlat(chunks[1..]);
      FlattenCons(chunks[0], chunks[1..]);
      assert chunks == [chunks[0]] + chunks[1..];
    }
  }

  lemma {:induction false} FlattenCons(first: Str, rest: seq<Str>)
    ensures Flatten([first] + rest) == first + Flatten(rest)
  {
    if rest == [] {
      assert [first] + rest == [] + [first];
      FlattenSnoc([], first);
    } else {
      var n := |rest| - 1;
      FlattenCons(first, rest[..n]);
      FlattenSnoc([first] + rest[..n], rest[n]);
      assert [first] + rest[..n] + [rest[n]] == [first] + rest;
      assert first + (Flatten(rest[..n]) + rest[n]) == first + Flatten(rest[..n]) + rest[n];
    }
  }

  function Joined(chunks: seq<Str>): Str {
    if chunks == [] then [] else chunks[0] + Joined(chunks[1..])
  }

  // What the loop has read, as the call reports it.
  function Finished(line: Str, valid: Str -> bool): Outcome {
    if line == [] then Eof
    else if line[|line| - 1] == LF then Decoded(WithoutCr(line[..|line| - 1]), valid)
    else Decoded(line, valid)
  }

  lemma FinishedIsFirst(text: Str, limit: nat, valid: Str -> bool)
    requires FirstFeed(text) <= limit
    ensures Finished(text[..FrameLen(text)], valid) == First(text, limit, valid)
  {
    var i := FirstFeed(text);
    FirstFeedIsFirst(text);
    if i < |text| {
      assert text[..i + 1][..i] == text[..i];
    } else {
      assert text[..i] == text;
      if text != [] {
        assert text[|text| - 1] in text;
      }
    }
  }

  // Reading `take` bytes of the next buffer keeps to the text.
  lemma NextPart(text: Str, before: Str, chunk: Str, take: nat)
    requires |before| <= |text| && before == text[..|before|] && chunk <= text[|before|..] && take <= |chunk|
    ensures |before| + take <= |text| && before + chunk[..take] == text[..|before| + take]
    ensures text[|before|..][take..] == text[|before| + take..]
  {
    assert chunk[..take] == text[|before|..][..take];
    assert text[|before|..][..take] == text[|before|..|before| + take];
  }

  // Where the text's first line feed is, seen from the next buffer.
  lemma FeedFrom(text: Str, before: Str, chunk: Str)
    requires |before| <= |text| && before == text[..|before|] && chunk <= text[|before|..] && FirstFeed(before) == |before|
    ensures FirstFeed(chunk) < |chunk| ==> FirstFeed(text) == |before| + FirstFeed(chunk)
    ensures FirstFeed(chunk) == |chunk| ==> FirstFeed(before + chunk) == |before| + |chunk| <= FirstFeed(text)
  {
    var rest := text[|before|..];
    assert text == before + rest && rest == chunk + rest[|chunk|..];
    FirstFeedConcat(before, rest);
    FirstFeedConcat(chunk, rest[|chunk|..]);
    FirstFeedConcat(before, chunk);
  }

  // Reads one frame, filling and consuming in bounded steps. What it reports
  // depends on the bytes alone, not on how they were buffered.
  method Read(reader: ChunkReader, limit: nat, valid: Str -> bool) returns (r: Outcome)
    requires reader.Valid()
    modifies reader
    ensures reader.Valid()
    ensures r == First(old(reader.Text()), limit, valid)
    ensures r != TooLong ==> reader.Text() == old(reader.Text())[FrameLen(old(reader.Text()))..]
    ensures r == TooLong ==> exists k :: 0 <= k <= |old(reader.Text())| && reader.Text() == old(reader.Text())[k..]
  {
    hide FirstFeed, Joined, Decoded, WithoutCr, Finished;
    ghost var text := reader.Text();
    var line: Str := [];
    assert text[0..] == text;
    NothingJoined();
    while true
      invariant reader.Valid()
      invariant |line| <= |text| && line == text[..|line|] && reader.Text() == text[|line|..]
      invariant FirstFeed(line) == |line| <= limit
      decreases |text| - |line|
    {
      var chunk := reader.FillBuf();
      if chunk == [] {
        assert line == text;
        break;
      }
      var i := FirstFeed(chunk);
      var take := if i < |chunk| then i + 1 else |chunk|;
      FeedFrom(text, line, chunk);
      NextPart(text, line, chunk, take);
      assert i == |chunk| ==> chunk[..take] == chunk;
      line := line + chunk[..take];
      reader.Consume(take);
      var content := |line| - (if line[|line| - 1] == LF then 1 else 0);
      LastIsFeed(chunk);
      if content > limit {
        r := TooLong;
        return;
      }
      if line[|line| - 1] == LF {
        break;
      }
    }
    FinishedIsFirst(text, limit, valid);
    r := Finish(line, valid);
    FinishedIsNotTooLong(line, valid);
  }

  lemma NothingJoined()
    ensures FirstFeed([]) == 0 && Joined([]) == []
  {
  }

  lemma {:induction false} LastIsFeed(chunk: Str)
    ensures chunk != [] && FirstFeed(chunk) == |chunk| ==> chunk[|chunk| - 1] != LF
  {
    FirstFeedIsFirst(chunk);
    if chunk != [] && FirstFeed(chunk) == |chunk| {
      assert chunk[..|chunk|] == chunk;
      assert chunk[|chunk| - 1] in chunk;
    }
  }

  lemma FinishedIsNotTooLong(line: Str, valid: Str -> bool)
    ensures Finished(line, valid) != TooLong
  {
  }

  method Finish(line0: Str, valid: Str -> bool) returns (r: Outcome)
    ensures r == Finished(line0, valid)
  {
    var line := line0;
    if line == [] {
      return Eof;
    }
    if line[|line| - 1] == LF {
      line := line[..|line| - 1];
      if line != [] && line[|line| - 1] == CR {
        line := line[..|line| - 1];
      }
    }
    return if valid(line) then Frame(line) else NotUtf8;
  }

  // ── Calling it until the end ───────────────────────────────────────────

  // Every outcome of repeated calls; a line over the limit ends the reading.
  function Frames(text: Str, limit: nat, valid: Str -> bool): seq<Outcome>
    decreases |text|
  {
    if text == [] then []
    else
      [First(text, limit, valid)]
      + (if First(text, limit, valid) == TooLong then [] else Frames(text[FrameLen(text)..], limit, valid))
  }

  lemma FramesStep(text: Str, limit: nat, valid: Str -> bool)
    requires text != [] && First(text, limit, valid) != TooLong
    ensures Frames(text, limit, valid) == [First(text, limit, valid)] + Frames(text[FrameLen(text)..], limit, valid)
  {
    hide First, FrameLen;
  }

  lemma FramesEnd(text: Str, limit: nat, valid: Str -> bool)
    ensures text == [] ==> Frames(text, limit, valid) == []
    ensures text != [] && First(text, limit, valid) == TooLong ==> Frames(text, limit, valid) == [TooLong]
    ensures First(text, limit, valid) == Eof <==> text == []
  {
  }

  method ReadAll(reader: ChunkReader, limit: nat, valid: Str -> bool) returns (outcomes: seq<Outcome>)
    requires reader.Valid()
    modifies reader
    ensures outcomes == Frames(old(reader.Text()), limit, valid)
  {
    hide Frames, First, FrameLen, Joined;
    outcomes := [];
    while true
      invariant reader.Valid()
      invariant outcomes + Frames(reader.Text(), limit, valid) == Frames(old(reader.Text()), limit, valid)
      decreases |reader.Text()|
    {
      ghost var text := reader.Text();
      FramesEnd(text, limit, valid);
      var r := Read(reader, limit, valid);
      if r == Eof {
        return;
      }
      if r != TooLong {
        FramesStep(text, limit, valid);
        assert outcomes + ([r] + Frames(reader.Text(), limit, valid)) == outcomes + [r] + Frames(reader.Text(), limit, valid);
      }
      outcomes := outcomes + [r];
      if r == TooLong {
        return;
      }
    }
  }

  // A line as a backend writes it.
  datatype Written = Written(line: Str, crlf: bool)

  predicate Plain(w: Written, limit: nat) {
    LF !in w.line && |w.line| + (if w.crlf then 1 else 0) <= limit && (!w.crlf ==> WithoutCr(w.line) == w.line)
  }

  function Ended(w: Written): Str {
    w.line + (if w.crlf then [CR, LF] else [LF])
  }

  function Sent(lines: seq<Written>): Str {
    if lines == [] then [] else Ended(lines[0]) + Sent(lines[1..])
  }

  lemma FirstOfSent(w: Written, rest: Str, limit: nat, valid: Str -> bool)
    requires Plain(w, limit)
    ensures var text := Ended(w) + rest;
            text != [] && First(text, limit, valid) == Decoded(w.line, valid) && text[FrameLen(text)..] == rest
  {
    var content := if w.crlf then w.line + [CR] else w.line;
    assert content + [LF] == Ended(w);
    var text := Ended(w) + rest;
    assert text == content + ([LF] + rest);
    FirstFeedConcat(content, [LF] + rest);
    assert text[..|content|] == content;
    assert w.crlf ==> content[..|w.line|] == w.line;
  }

  // Lines written with either ending are read back one by one, and so is a
  // tail that was never terminated.
  lemma {:induction false} FramesOfSent(lines: seq<Written>, tail: Str, limit: nat, valid: Str -> bool)
    requires forall k :: 0 <= k < |lines| ==> Plain(lines[k], limit)
    requires LF !in tail && |tail| <= limit
    ensures Frames(Sent(lines) + tail, limit, valid) == Outcomes(lines, valid) + (if tail == [] then [] else [Decoded(tail, valid)])
  {
    hide First, FrameLen, Plain, Ended, Frames;
    if lines == [] {
      assert Sent(lines) + tail == tail;
      FramesOfTail(tail, limit, valid);
    } else {
      FramesOfSent(lines[1..], tail, limit, valid);
      var rest := Sent(lines[1..]) + tail;
      assert Sent(lines) + tail == Ended(lines[0]) + rest;
      FirstOfSent(lines[0], rest, limit, valid);
      FramesStep(Ended(lines[0]) + rest, limit, valid);
      assert Outcomes(lines, valid) == [Decoded(lines[0].line, valid)] + Outcomes(lines[1..], valid);
    }
  }

  function Outcomes(lines: seq<Written>, valid: Str -> bool): seq<Outcome> {
    seq(|lines|, k requires 0 <= k < |lines| => Decoded(lines[k].line, valid))
  }

  lemma FramesOfTail(tail: Str, limit: nat, valid: Str -> bool)
    requires LF !in tail && |tail| <= limit
    ensures Frames(tail, limit, valid) == if tail == [] then [] else [Decoded(tail, valid)]
  {
    if tail != [] {
      FramesStep(tail, limit, valid);
      FramesEnd([], limit, valid);
      assert tail[FrameLen(tail)..] == [];
    }
  }
}
