// Byte lengths of Rust strings: text is a sequence of scalar values, and
// `len()` counts the bytes of its UTF-8 form (section 3 of RFC 3629).
module Utf8Text {
  import opened Bytes

  function CharLen(c: char): (n: nat)
    ensures 1 <= n <= 4
  {
    if c < '\U{80}' then 1 else if c < '\U{800}' then 2 else if c < '\U{10000}' then 3 else 4
  }

  function ByteLen(text: string): nat {
    if text == "" then 0 else ByteLen(text[..|text| - 1]) + CharLen(text[|text| - 1])
  }

  lemma {:induction false} CharsWithinBytes(text: string)
    ensures |text| <= ByteLen(text) <= 4 * |text|
  {
    if text != "" {
      CharsWithinBytes(text[..|text| - 1]);
    }
  }

  // ── The bytes themselves ───────────────────────────────────────────────

  predicate IsContinuation(b: Byte) {
    0x80 <= b < 0xc0
  }

  function Encoded(c: char): (bytes: Str)
    ensures |bytes| == CharLen(c) && !IsContinuation(bytes[0])
    ensures forall k :: 0 < k < |bytes| ==> IsContinuation(bytes[k])
  {
    var n := c as int;
    if n < 0x80 then [n]
    else if n < 0x800 then [0xc0 + n / 0x40, 0x80 + n % 0x40]
    else if n < 0x10000 then [0xe0 + n / 0x1000, 0x80 + n / 0x40 % 0x40, 0x80 + n % 0x40]
    else [0xf0 + n / 0x40000, 0x80 + n / 0x1000 % 0x40, 0x80 + n / 0x40 % 0x40, 0x80 + n % 0x40]
  }

  function Utf8(text: string): (bytes: Str)
    ensures |bytes| == ByteLen(text)
  {
    if text == "" then [] else Utf8(text[..|text| - 1]) + Encoded(text[|text| - 1])
  }

  // `char::is_whitespace`: the Unicode property White_Space.
  predicate IsWhite(c: char) {
    || '\t' <= c <= '\r' || c in " \U{85}\U{a0}\U{1680}\U{2028}\U{2029}\U{202f}\U{205f}\U{3000}"
    || '\U{2000}' <= c <= '\U{200a}'
  }

  // `str::is_char_boundary`, for an index within the string.
  predicate IsCharBoundary(bytes: Str, i: nat)
    requires i <= |bytes|
  {
    i == 0 || i == |bytes| || !IsContinuation(bytes[i])
  }

  // ── Cutting to a budget of bytes ───────────────────────────────────────

  // The longest prefix within `budget` bytes.
  function Kept(text: string, budget: nat): string {
    if ByteLen(text) <= budget then text else Kept(text[..|text| - 1], budget)
  }

  lemma {:induction false} KeptIsLongest(text: string, budget: nat)
    ensures var kept := Kept(text, budget);
            && kept <= text
            && ByteLen(kept) <= budget
            && forall k :: |kept| < k <= |text| ==> ByteLen(text[..k]) > budget
  {
    if ByteLen(text) > budget {
      var shorter := text[..|text| - 1];
      KeptIsLongest(shorter, budget);
      forall k | |Kept(text, budget)| < k <= |text| ensures ByteLen(text[..k]) > budget {
        assert text[..k] == if k == |text| then text else shorter[..k];
      }
    }
  }

  // At a character boundary the prefix is exactly the bytes before it.
  lemma {:induction false} BoundaryCutsBytes(text: string, end: nat)
    requires end <= |Utf8(text)| && IsCharBoundary(Utf8(text), end)
    ensures Utf8(Kept(text, end)) == Utf8(text)[..end]
  {
    if end < |Utf8(text)| {
      var before, last := text[..|text| - 1], Encoded(text[|text| - 1]);
      assert end <= |Utf8(before)|;
      assert Utf8(before)[..end] == Utf8(text)[..end];
      BoundaryCutsBytes(before, end);
    }
  }

  // Anywhere else the cut can move back a byte.
  lemma {:induction false} CutInsideACharacter(text: string, end: nat)
    requires end <= |Utf8(text)| && !IsCharBoundary(Utf8(text), end)
    ensures end > 0 && Kept(text, end) == Kept(text, end - 1)
  {
    var before := text[..|text| - 1];
    if end <= |Utf8(before)| {
      assert end < |Utf8(before)|;
      CutInsideACharacter(before, end);
    }
  }
}
