// Reassembling a logical RPC frame from its chunks
// (crates/gpty-ai/src/omp.rs, `RpcFrameDecoder`).
//
// A frame arrives as parsed JSON: either a frame of its own or a chunk whose
// fields may be missing. The payload of a completed sequence is handed on to
// UTF-8 and JSON decoding, which are outside the model.
module RpcChunks {
  import opened Wrappers
  import opened Bytes
  import opened Base64

  const MAX_CHUNKS: nat := 4096
  const MAX_REASSEMBLED_FRAME_BYTES: nat := 64 * 1024 * 1024

  datatype Frame<V> = Logical(value: V)
                    | Chunk(id: Option<string>, index: Option<nat>, count: Option<nat>, byteLength: Option<nat>, data: Option<seq<Octet>>)

  datatype Reply<V> = Incomplete | Whole(value: V) | Payload(bytes: seq<Octet>)

  datatype Failure = Interrupted | MissingField | BadMetadata | NotAtStart | Interleaved | BadBase64(error: DecodeError) | LengthMismatch

  datatype Pending = Pending(id: string, count: nat, byteLength: nat, nextIndex: nat, bytes: seq<Octet>)

  predicate Complete(f: Frame) {
    f.Chunk? && f.id.Some? && f.index.Some? && f.count.Some? && f.byteLength.Some? && f.data.Some?
  }

  predicate BadNumbers(f: Frame)
    requires Complete(f)
  {
    var (count, length) := (f.count.value, f.byteLength.value);
    count == 0 || count > MAX_CHUNKS || length == 0 || length > MAX_REASSEMBLED_FRAME_BYTES || f.index.value >= count
  }

  predicate Continues(p: Pending, f: Frame)
    requires Complete(f)
  {
    p.id == f.id.value && p.count == f.count.value && p.byteLength == f.byteLength.value && p.nextIndex == f.index.value
  }

  function Started(f: Frame): Pending
    requires Complete(f)
  {
    Pending(f.id.value, f.count.value, f.byteLength.value, 0, [])
  }

  // One push: the decoder's state after it, and the answer.
  function Pushed<V>(pending: Option<Pending>, f: Frame<V>): (Option<Pending>, Result<Reply<V>, Failure>) {
    if f.Logical? then
      (pending, if pending.Some? then Err(Interrupted) else Ok(Whole(f.value)))
    else if !Complete(f) then (pending, Err(MissingField))
    else if BadNumbers(f) then (pending, Err(BadMetadata))
    else if pending.None? && f.index.value != 0 then (None, Err(NotAtStart))
    else
      var p := if pending.Some? then pending.value else Started(f);
      if !Continues(p, f) then (None, Err(Interleaved)) else Appended(p, f.data.value)
  }

  // The data of a chunk that continues `p`.
  function Appended<V>(p: Pending, data: seq<Octet>): (Option<Pending>, Result<Reply<V>, Failure>) {
    var r := DecodeInto(data, p.bytes, p.byteLength);
    if r.error.Some? then (Some(p.(bytes := r.output)), Err(BadBase64(r.error.value)))
    else if p.nextIndex + 1 != p.count then (Some(p.(bytes := r.output, nextIndex := p.nextIndex + 1)), Ok(Incomplete))
    else if |r.output| != p.byteLength then (None, Err(LengthMismatch))
    else (None, Ok(Payload(r.output)))
  }

  class RpcFrameDecoder<V> {
    var pending: Option<Pending>

    constructor ()
      ensures pending == None
    {
      pending := None;
    }

    method Push(f: Frame<V>) returns (reply: Result<Reply<V>, Failure>)
      modifies this
      ensures (pending, reply) == Pushed(old(pending), f)
    {
      if f.Logical? {
        return if pending.Some? then Err(Interrupted) else Ok(Whole(f.value));
      }
      if !Complete(f) {
        return Err(MissingField);
      }
      if BadNumbers(f) {
        return Err(BadMetadata);
      }
      if pending.None? {
        if f.index.value != 0 {
          return Err(NotAtStart);
        }
        pending := Some(Started(f));
      }
      if !Continues(pending.value, f) {
        pending := None;
        return Err(Interleaved);
      }
      var output, error := AppendDecoded(f.data.value, pending.value.bytes, pending.value.byteLength);
      pending := Some(pending.value.(bytes := output));
      if error.Some? {
        return Err(BadBase64(error.value));
      }
      pending := Some(pending.value.(nextIndex := pending.value.nextIndex + 1));
      if pending.value.nextIndex != pending.value.count {
        return Ok(Incomplete);
      }
      var p := pending.value;
      pending := None;
      return if |p.bytes| != p.byteLength then Err(LengthMismatch) else Ok(Payload(p.bytes));
    }
  }

  // ── Over every sequence of pushes ──────────────────────────────────────

  // The state after pushing `frames`, and every answer.
  function Run<V>(pending: Option<Pending>, frames: seq<Frame<V>>): (r: (Option<Pending>, seq<Result<Reply<V>, Failure>>))
    ensures |r.1| == |frames|
  {
    if frames == [] then (pending, [])
    else
      var n := |frames| - 1;
      var (before, replies) := Run(pending, frames[..n]);
      var (after, reply) := Pushed(before, frames[n]);
      (after, replies + [reply])
  }

  lemma NothingRun<V>()
    ensures Run<V>(None, []) == (None, [])
  {
  }

  lemma RunLast<V>(frames: seq<Frame<V>>)
    requires frames != []
    ensures var n := |frames| - 1;
            var (before, replies) := Run(None, frames[..n]);
            var (after, reply) := Pushed(before, frames[n]);
            Run(None, frames) == (after, replies + [reply])
  {
    hide Pushed;
  }

  ghost predicate Bounded(pending: Option<Pending>) {
    pending.Some? ==>
      var p := pending.value;
      && p.nextIndex < p.count <= MAX_CHUNKS
      && |p.bytes| <= p.byteLength <= MAX_REASSEMBLED_FRAME_BYTES && p.byteLength > 0
  }

  lemma PushKeepsBounded<V>(pending: Option<Pending>, f: Frame<V>)
    requires Bounded(pending)
    ensures Bounded(Pushed(pending, f).0)
    ensures Pushed(pending, f).1.Ok? && Pushed(pending, f).1.value.Payload? ==>
              0 < |Pushed(pending, f).1.value.bytes| <= MAX_REASSEMBLED_FRAME_BYTES
  {
    hide DecodeInto, Decoded;
    if Complete(f) && !BadNumbers(f) {
      var p := if pending.Some? then pending.value else Started(f);
      DecodeIntoIff(f.data.value, p.bytes, p.byteLength);
    }
  }

  // Failures included, the decoder never holds more than it was promised.
  lemma {:induction false} RunStaysBounded<V>(frames: seq<Frame<V>>)
    ensures Bounded(Run(None, frames).0)
  {
    hide Pushed, Bounded;
    if frames == [] {
      NothingPendingIsBounded();
    } else {
      RunStaysBounded(frames[..|frames| - 1]);
      PushKeepsBounded(Run(None, frames[..|frames| - 1]).0, frames[|frames| - 1]);
    }
  }

  lemma NothingPendingIsBounded()
    ensures Bounded(None)
  {
  }

  // ── The round trip ─────────────────────────────────────────────────────

  // The chunk that carries `pieces[i]`.
  function ChunkOf<V>(id: string, pieces: seq<seq<Octet>>, i: nat): Frame<V>
    requires i < |pieces|
  {
    Chunk(Some(id), Some(i), Some(|pieces|), Some(|Flatten(pieces)|), Some(Encode(pieces[i])))
  }

  function Chunked<V>(id: string, pieces: seq<seq<Octet>>, n: nat): seq<Frame<V>>
    requires n <= |pieces|
  {
    seq(n, i requires 0 <= i < n => ChunkOf(id, pieces, i))
  }

  lemma {:induction false} FlattenPrefix<T>(pieces: seq<seq<T>>, n: nat)
    requires n <= |pieces|
    ensures |Flatten(pieces[..n])| <= |Flatten(pieces)|
    ensures n < |pieces| ==> Flatten(pieces[..n + 1]) == Flatten(pieces[..n]) + pieces[n]
    decreases |pieces| - n
  {
    if n == |pieces| {
      assert pieces[..n] == pieces;
    } else {
      assert pieces[..n + 1] == pieces[..n] + [pieces[n]];
      FlattenSnoc(pieces[..n], pieces[n]);
      FlattenPrefix(pieces, n + 1);
    }
  }

  // Pushing the chunks in order answers nothing until the last one, which
  // answers the payload and leaves the decoder empty.
  lemma {:induction false} ChunksReassemble<V>(id: string, pieces: seq<seq<Octet>>, n: nat)
    requires 0 < |pieces| <= MAX_CHUNKS && 0 < |Flatten(pieces)| <= MAX_REASSEMBLED_FRAME_BYTES
    requires n <= |pieces|
    ensures var (pending, replies) := Run<V>(None, Chunked(id, pieces, n));
            && (forall i :: 0 <= i < n && i < |pieces| - 1 ==> replies[i] == Ok(Incomplete))
            && (0 < n < |pieces| ==>
                  pending == Some(Pending(id, |pieces|, |Flatten(pieces)|, n, Flatten(pieces[..n]))))
            && (n == 0 ==> pending == None)
            && (n == |pieces| ==> pending == None && replies[n - 1] == Ok(Payload(Flatten(pieces))))
  {
    hide Pushed, Flatten, Run, ChunkOf;
    if n == 0 {
      NothingRun<V>();
      assert Chunked<V>(id, pieces, 0) == [];
    } else {
      ChunksReassemble<V>(id, pieces, n - 1);
      var frames := Chunked<V>(id, pieces, n);
      assert frames[..n - 1] == Chunked(id, pieces, n - 1);
      RunLast(frames);
      NextPiece<V>(id, pieces, n - 1);
    }
  }

  lemma NextPiece<V>(id: string, pieces: seq<seq<Octet>>, i: nat)
    requires i < |pieces| <= MAX_CHUNKS && 0 < |Flatten(pieces)| <= MAX_REASSEMBLED_FRAME_BYTES
    ensures var before := Pending(id, |pieces|, |Flatten(pieces)|, i, Flatten(pieces[..i]));
            Pushed<V>(if i == 0 then None else Some(before), ChunkOf(id, pieces, i))
            == if i + 1 == |pieces| then (None, Ok(Payload(Flatten(pieces))))
               else (Some(before.(nextIndex := i + 1, bytes := Flatten(pieces[..i + 1]))), Ok(Incomplete))
  {
    FlattenPrefix(pieces, i);
    FlattenPrefix(pieces, i + 1);
    EncodeRoundTrip(pieces[i]);
    assert pieces[..|pieces|] == pieces;
    assert Flatten<Octet>([]) == [] && pieces[..0] == [];
    hide Flatten, DecodeInto, Decoded, Encode;
    DecodeIntoIff(Encode(pieces[i]), Flatten(pieces[..i]), |Flatten(pieces)|);
    var before := Pending(id, |pieces|, |Flatten(pieces)|, i, Flatten(pieces[..i]));
    ContinuingPush<V>(if i == 0 then None else Some(before), before, ChunkOf(id, pieces, i));
    hide Pushed;
  }

  lemma ContinuingPush<V>(pending: Option<Pending>, p: Pending, f: Frame<V>)
    requires Complete(f) && !BadNumbers(f) && Continues(p, f)
    requires if pending.None? then f.index == Some(0) && p == Started(f) else pending == Some(p)
    ensures Pushed(pending, f) == Appended(p, f.data.value)
  {
    hide Appended;
  }

  // ── What a reassembled payload was made of ─────────────────────────────

  // Chunks 0, 1, ... of one sequence, whose data all decodes.
  ghost predicate InOrder<V>(chunks: seq<Frame<V>>, id: string, count: nat, byteLength: nat) {
    forall i :: 0 <= i < |chunks| ==>
      && Complete(chunks[i])
      && chunks[i].id == Some(id) && chunks[i].index == Some(i) && chunks[i].count == Some(count)
      && chunks[i].byteLength == Some(byteLength) && Decoded(chunks[i].data.value).Some?
  }

  function Carried<V>(chunks: seq<Frame<V>>): seq<Octet> {
    if chunks == [] then []
    else
      var f := chunks[|chunks| - 1];
      Carried(chunks[..|chunks| - 1])
      + (if f.Chunk? && f.data.Some? && Decoded(f.data.value).Some? then Decoded(f.data.value).value else [])
  }

  lemma CarriedLast<V>(chunks: seq<Frame<V>>, f: Frame<V>)
    requires Complete(f) && Decoded(f.data.value).Some?
    ensures Carried(chunks + [f]) == Carried(chunks) + Decoded(f.data.value).value
  {
    hide Decoded;
    assert (chunks + [f])[..|chunks|] == chunks;
  }

  lemma CarriedNothing<V>()
    ensures Carried<V>([]) == []
  {
  }

  // The books of the sequence under way: the chunks accepted since it began,
  // and how many octets its failed pushes left behind.
  datatype Book<V> = Book(chunks: seq<Frame<V>>, residue: nat)

  function Noted<V>(book: Book<V>, before: Option<Pending>, f: Frame<V>): Book<V> {
    var (after, reply) := Pushed(before, f);
    var current := if before.None? then Book([], 0) else book;
    if reply.Ok? && !reply.value.Whole? then current.(chunks := current.chunks + [f])
    else if reply.Err? && reply.error.BadBase64? then current.(residue := current.residue + LeftBehind(before, after))
    else current
  }

  // The octets a push added to what the decoder holds.
  function LeftBehind(before: Option<Pending>, after: Option<Pending>): nat {
    var (old', new') := (if before.Some? then |before.value.bytes| else 0, if after.Some? then |after.value.bytes| else 0);
    if new' > old' then new' - old' else 0
  }

  function Books<V>(frames: seq<Frame<V>>): Book<V> {
    if frames == [] then Book([], 0)
    else
      var n := |frames| - 1;
      Noted(Books(frames[..n]), Run(None, frames[..n]).0, frames[n])
  }

  // The decoder holds what the accepted chunks carried, and besides it only
  // what failed pushes left.
  ghost predicate Holds<V>(p: Pending, book: Book<V>) {
    && InOrder(book.chunks, p.id, p.count, p.byteLength) && p.nextIndex == |book.chunks|
    && |p.bytes| == |Carried(book.chunks)| + book.residue
    && (book.residue == 0 ==> p.bytes == Carried(book.chunks))
  }

  // A push that is not an error continues the sequence with decodable data.
  lemma GoodPush<V>(pending: Option<Pending>, f: Frame<V>)
    requires Bounded(pending) && Pushed(pending, f).1.Ok? && !Pushed(pending, f).1.value.Whole?
    ensures Complete(f) && !BadNumbers(f) && (pending.None? ==> f.index == Some(0))
    ensures var p := if pending.Some? then pending.value else Started(f);
            var (after, reply) := Pushed(pending, f);
            && Continues(p, f) && Decoded(f.data.value).Some?
            && var bytes := p.bytes + Decoded(f.data.value).value;
               && (reply.value.Incomplete? ==> after == Some(p.(bytes := bytes, nextIndex := p.nextIndex + 1)))
               && (reply.value.Payload? ==> after == None && p.nextIndex + 1 == p.count && bytes == reply.value.bytes && |bytes| == p.byteLength)
  {
    hide DecodeInto, Decoded;
    var p := if pending.Some? then pending.value else Started(f);
    DecodeIntoIff(f.data.value, p.bytes, p.byteLength);
  }

  // A failing push either ends the sequence, or leaves the decoder as it was
  // but for octets decoded before the error.
  lemma BadPush<V>(pending: Option<Pending>, f: Frame<V>)
    requires Bounded(pending) && Pushed(pending, f).1.Err?
    ensures var (after, reply) := Pushed(pending, f);
            && (!reply.error.BadBase64? ==> after == None || after == pending)
            && (reply.error.BadBase64? ==>
                  && Complete(f)
                  && var p := if pending.Some? then pending.value else Started(f);
                     && after.Some? && p.bytes <= after.value.bytes && after == Some(p.(bytes := after.value.bytes))
                     && Continues(p, f))
  {
    hide DecodeInto, Decoded;
    if Complete(f) && !BadNumbers(f) {
      var p := if pending.Some? then pending.value else Started(f);
      DecodeIntoIff(f.data.value, p.bytes, p.byteLength);
    }
  }

  // A chunk with every field, and numbers within the bounds.
  predicate WellFormed<V>(f: Frame<V>) {
    && f.Chunk? && f.id.Some? && f.index.Some? && f.count.Some? && f.byteLength.Some? && f.data.Some?
    && 1 <= f.count.value <= 4096 && 1 <= f.byteLength.value <= 0x400_0000 && f.index.value < f.count.value
  }

  // What a push answers: a frame of its own is handed on, unless a sequence is
  // under way; a malformed chunk is refused; and a well-formed one fails for
  // its place in the sequence exactly when it is not the next.
  lemma PushAnswers<V>(pending: Option<Pending>, f: Frame<V>)
    ensures var (after, reply) := Pushed(pending, f);
            && (f.Logical? ==> after == pending && reply == if pending.Some? then Err(Interrupted) else Ok(Whole(f.value)))
            && (f.Chunk? && !WellFormed(f) ==>
                  after == pending && reply == if Complete(f) then Err(BadMetadata) else Err(MissingField))
            && (WellFormed(f) ==>
                  && (reply == Err(NotAtStart) <==> pending.None? && f.index.value > 0)
                  && (reply == Err(Interleaved) <==>
                        pending.Some? && !(pending.value.id == f.id.value && pending.value.count == f.count.value
                                           && pending.value.byteLength == f.byteLength.value && pending.value.nextIndex == f.index.value))
                  && (reply == Err(NotAtStart) || reply == Err(Interleaved) ==> after == None))
  {
    hide DecodeInto;
  }

  // The well-formed chunks of a run, and what they were answered.
  function Effective<V>(frames: seq<Frame<V>>): seq<Frame<V>> {
    if frames == [] then []
    else
      var f := frames[|frames| - 1];
      Effective(frames[..|frames| - 1]) + (if WellFormed(f) then [f] else [])
  }

  function AnswersTo<V>(frames: seq<Frame<V>>, replies: seq<Result<Reply<V>, Failure>>): seq<Result<Reply<V>, Failure>>
    requires |replies| == |frames|
  {
    if frames == [] then []
    else
      var n := |frames| - 1;
      AnswersTo(frames[..n], replies[..n]) + (if WellFormed(frames[n]) then [replies[n]] else [])
  }

  // Whatever else arrives in between, the chunks of a run are answered as if
  // nothing had.
  lemma {:induction false} InterruptionsDoNoHarm<V>(frames: seq<Frame<V>>)
    ensures var (pending, replies) := Run(None, frames);
            Run(None, Effective(frames)) == (pending, AnswersTo(frames, replies))
  {
    if frames != [] {
      var n := |frames| - 1;
      var f := frames[n];
      var (before, replies) := Run(None, frames[..n]);
      InterruptionsDoNoHarm(frames[..n]);
      RunLast(frames);
      PushAnswers(before, f);
      assert (replies + [Pushed(before, f).1])[..n] == replies;
      hide Pushed, Run, WellFormed;
      var chunks := Effective(frames[..n]);
      assert AnswersTo(frames[..n], replies) + [] == AnswersTo(frames[..n], replies) && chunks + [] == chunks;
      if WellFormed(f) {
        assert (chunks + [f])[..|chunks|] == chunks;
        RunLast(chunks + [f]);
      }
    }
  }

  // An error leaves octets behind exactly when the first group decodes and
  // fits.
  lemma LeavesOctetsIff(data: seq<Octet>, bytes: seq<Octet>, limit: nat)
    requires |bytes| <= limit && DecodeInto(data, bytes, limit).error.Some?
    ensures DecodeInto(data, bytes, limit).output != bytes <==>
            && |data| % 4 == 0 && data != [] && DecodeGroup(data[..4]).Ok?
            && |bytes| + |DecodeGroup(data[..4]).value| <= limit
  {
    hide DecodeGroup;
    if |data| % 4 == 0 && data != [] && DecodeGroup(data[..4]).Ok? {
      var first := DecodeGroup(data[..4]).value;
      if |bytes| + |first| <= limit {
        GroupsIff(data[4..], bytes + first, limit);
      }
    }
  }

  // The sequence a frame continues, and its books.
  lemma StartHolds<V>(f: Frame<V>)
    requires Complete(f)
    ensures Holds<V>(Started(f), Book([], 0))
  {
    CarriedNothing<V>();
  }

  lemma AcceptedHolds<V>(p: Pending, book: Book<V>, f: Frame<V>)
    requires Holds(p, book) && Complete(f) && Continues(p, f) && Decoded(f.data.value).Some?
    ensures Holds(p.(bytes := p.bytes + Decoded(f.data.value).value, nextIndex := p.nextIndex + 1), book.(chunks := book.chunks + [f]))
  {
    hide Decoded, Carried;
    CarriedLast(book.chunks, f);
  }

  lemma NotedHolds<V>(book: Book<V>, before: Option<Pending>, f: Frame<V>)
    requires Bounded(before) && (before.Some? ==> Holds(before.value, book))
    ensures Pushed(before, f).0.Some? ==> Holds(Pushed(before, f).0.value, Noted(book, before, f))
    ensures Pushed(before, f).1.Ok? && Pushed(before, f).1.value.Payload? ==>
              var payload := Pushed(before, f).1.value.bytes;
              var chunks := Noted(book, before, f).chunks;
              && Complete(f) && InOrder(chunks, f.id.value, |chunks|, |payload|)
              && (payload == Carried(chunks) <==> Noted(book, before, f).residue == 0)
  {
    hide Holds, Pushed, Decoded, Carried, BadNumbers;
    var (after, reply) := Pushed(before, f);
    var current := if before.None? then Book([], 0) else book;
    if reply.Ok? && !reply.value.Whole? {
      GoodPush(before, f);
      if before.None? { StartHolds(f); }
      var p := if before.Some? then before.value else Started(f);
      AcceptedHolds(p, current, f);
      if reply.value.Payload? {
        HeldIsCarriedIff(p.(bytes := reply.value.bytes, nextIndex := p.nextIndex + 1), current.(chunks := current.chunks + [f]));
      }
    } else if reply.Err? {
      BadPush(before, f);
      if reply.error.BadBase64? {
        if before.None? { StartHolds(f); }
        ResidueHolds(if before.Some? then before.value else Started(f), current, after.value.bytes);
      }
    } else {
      WholeKeepsPending(before, f);
    }
  }

  lemma WholeKeepsPending<V>(before: Option<Pending>, f: Frame<V>)
    requires Pushed(before, f).1.Ok? && Pushed(before, f).1.value.Whole?
    ensures Pushed(before, f).0 == before == None
  {
  }

  lemma HeldIsCarriedIff<V>(p: Pending, book: Book<V>)
    requires Holds(p, book)
    ensures p.bytes == Carried(book.chunks) <==> book.residue == 0
    ensures InOrder(book.chunks, p.id, p.count, p.byteLength) && p.nextIndex == |book.chunks|
  {
    hide Carried, InOrder;
  }

  lemma ResidueHolds<V>(p: Pending, book: Book<V>, bytes: seq<Octet>)
    requires Holds(p, book) && p.bytes <= bytes
    ensures Holds(p.(bytes := bytes), book.(residue := book.residue + |bytes| - |p.bytes|))
  {
    hide Carried, InOrder;
  }

  // In every run, errors included, the decoder's state is accounted for.
  lemma {:induction false} PendingIsCarried<V>(frames: seq<Frame<V>>)
    ensures var p := Run(None, frames).0;
            p.Some? ==> Holds(p.value, Books(frames))
  {
    hide Pushed, Run, Holds, Noted;
    if frames == [] {
      NothingRun<V>();
    } else {
      var n := |frames| - 1;
      PendingIsCarried(frames[..n]);
      RunStaysBounded(frames[..n]);
      RunLast(frames);
      NotedHolds(Books(frames[..n]), Run(None, frames[..n]).0, frames[n]);
    }
  }

  lemma {:induction false} RepliesOfPrefix<V>(frames: seq<Frame<V>>, k: nat)
    requires k < |frames|
    ensures Run(None, frames).1[k] == Run(None, frames[..k + 1]).1[k]
  {
    hide Pushed, Run;
    if k + 1 == |frames| {
      assert frames[..k + 1] == frames;
    } else {
      RunLast(frames);
      RepliesOfPrefix(frames[..|frames| - 1], k);
      assert frames[..|frames| - 1][..k + 1] == frames[..k + 1];
    }
  }

  // A payload answered anywhere in any run, errors included, completes one
  // uninterrupted sequence of accepted chunks, in order, with one id, count
  // and length; and it is what they carried if and only if no failed push
  // since the sequence began left octets behind.
  lemma PayloadIsWhatWasSent<V>(frames: seq<Frame<V>>, k: nat)
    requires k < |frames|
    requires Run(None, frames).1[k].Ok? && Run(None, frames).1[k].value.Payload?
    ensures var payload := Run(None, frames).1[k].value.bytes;
            var book := Books(frames[..k + 1]);
            && frames[k].Chunk? && frames[k].id.Some?
            && InOrder(book.chunks, frames[k].id.value, |book.chunks|, |payload|)
            && (payload == Carried(book.chunks) <==> book.residue == 0)
  {
    hide Pushed, Run, Holds, Noted, InOrder;
    RepliesOfPrefix(frames, k);
    var upTo := frames[..k + 1];
    assert upTo[..k] == frames[..k];
    RunLast(upTo);
    PendingIsCarried(frames[..k]);
    RunStaysBounded(frames[..k]);
    NotedHolds(Books(frames[..k]), Run(None, frames[..k]).0, frames[k]);
  }

  // Such octets are real: data decoded before an error stays, and the same
  // index may be sent again.
  lemma FailedPushLeavesItsOctets()
    ensures var abc: seq<Octet> := [0x51, 0x55, 0x4a, 0x44]; // "QUJD" for "ABC"
            var bad: seq<Octet> := [0x21, 0x21, 0x21, 0x21];
            var first := Frame<int>.Chunk(Some("c"), Some(0), Some(1), Some(6), Some(abc + bad));
            var again := Frame<int>.Chunk(Some("c"), Some(0), Some(1), Some(6), Some(abc));
            var (pending, reply) := Pushed(None, first);
            && reply == Err(BadBase64(BadCharacter))
            && Decoded(abc) == Some([0x41, 0x42, 0x43])
            && Pushed(pending, again).1 == Ok(Payload([0x41, 0x42, 0x43, 0x41, 0x42, 0x43]))
  {
    var abc: seq<Octet> := [0x51, 0x55, 0x4a, 0x44];
    var bad: seq<Octet> := [0x21, 0x21, 0x21, 0x21];
    var text: seq<Octet> := [0x41, 0x42, 0x43];
    assert (abc + bad)[..4] == abc && (abc + bad)[4..] == bad && bad[..4] == bad && abc[..4] == abc && abc[4..] == [];
    assert DecodeGroup(abc) == Ok(text) && DecodeGroup(bad) == Err(BadCharacter);
    hide DecodeGroup;
    assert text + [] == text;
    assert Decoded(abc) == Some(text) by { assert Decoded([]) == Some([]); }
    assert Groups(abc + bad, [], 6) == Decoding(text, Some(BadCharacter)) by { assert [] + text == text; }
    assert Groups(abc, text, 6) == Decoding(text + text, None);
    assert text + text == [0x41, 0x42, 0x43, 0x41, 0x42, 0x43];
    hide Groups, Decoded;
    var sent := Pending("c", 1, 6, 0, []);
    assert Appended<int>(sent, abc + bad) == (Some(sent.(bytes := text)), Err(BadBase64(BadCharacter)));
    assert Appended<int>(sent.(bytes := text), abc) == (None, Ok(Payload(text + text)));
  }
}
