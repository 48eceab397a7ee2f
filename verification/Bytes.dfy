// Bytes, byte strings, and the few sequence folds several modules share.
module Bytes {
  type Byte = b: int | 0 <= b < 256

  type Str = seq<Byte>

  const BEL: Byte := 0x07
  const LF: Byte := 0x0a
  const CR: Byte := 0x0d
  const CAN: Byte := 0x18
  const SUB: Byte := 0x1a
  const ESC: Byte := 0x1b
  const CLOSE_BRACKET: Byte := 0x5d

  // The concatenation of `pieces`, in order.
  function Flatten<T>(pieces: seq<seq<T>>): seq<T> {
    if pieces == [] then [] else Flatten(pieces[..|pieces| - 1]) + pieces[|pieces| - 1]
  }

  lemma FlattenEmpty<T>()
    ensures Flatten<T>([]) == []
  {
  }

  lemma FlattenSnoc<T>(pieces: seq<seq<T>>, piece: seq<T>)
    ensures Flatten(pieces + [piece]) == Flatten(pieces) + piece
  {
    assert (pieces + [piece])[..|pieces|] == pieces;
  }

  // A line without the carriage return a CRLF left behind.
  function WithoutCr(line: Str): Str {
    if line != [] && line[|line| - 1] == CR then line[..|line| - 1] else line
  }

  // The index of the first line feed, or the length when there is none.
  function FirstFeed(text: Str): (i: nat)
    ensures i <= |text| && (i < |text| ==> text[i] == LF)
  {
    if text == [] || text[0] == LF then 0 else 1 + FirstFeed(text[1..])
  }

  lemma {:induction false} FirstFeedIsFirst(text: Str)
    ensures LF !in text[..FirstFeed(text)]
  {
    if text != [] && text[0] != LF {
      FirstFeedIsFirst(text[1..]);
      var i := FirstFeed(text[1..]);
      assert text[..i + 1] == [text[0]] + text[1..][..i];
    }
  }

  lemma {:induction false} FirstFeedConcat(a: Str, b: Str)
    ensures FirstFeed(a + b) == if FirstFeed(a) < |a| then FirstFeed(a) else |a| + FirstFeed(b)
  {
    if a == [] {
      assert a + b == b;
    } else if a[0] != LF {
      assert (a + b)[1..] == a[1..] + b;
      FirstFeedConcat(a[1..], b);
    }
  }

  function Max(a: nat, b: nat): nat {
    if a < b then b else a
  }
}
