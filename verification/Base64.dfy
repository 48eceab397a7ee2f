// The base64 decoder behind chunk reassembly (crates/gpty-ai/src/omp.rs,
// `decode_base64_into` and `base64_value`), against the encoder of section 4
// of RFC 4648. Octets are bit vectors: both sides are shifts and masks.
module Base64 {
  import opened Wrappers

  type Octet = bv8

  const PAD: Octet := 0x3d

  datatype DecodeError = BadLength | BadCharacter | BadPadding | BeyondLimit

  // ── The encoder of RFC 4648 ────────────────────────────────────────────

  // Table 1: the character for a six-bit value.
  function Alphabet(v: Octet): Octet {
    if v < 26 then v + 0x41
    else if v < 52 then v - 26 + 0x61
    else if v < 62 then v - 52 + 0x30
    else if v == 62 then 0x2b
    else 0x2f
  }

  // Three octets as four six-bit values.
  function Sextets(b0: Octet, b1: Octet, b2: Octet): (Octet, Octet, Octet, Octet) {
    (b0 >> 2, ((b0 & 0x03) << 4) | (b1 >> 4), ((b1 & 0x0f) << 2) | (b2 >> 6), b2 & 0x3f)
  }

  // One group of one, two or three octets as four characters.
  function EncodeGroup(b: seq<Octet>): (g: seq<Octet>)
    requires 1 <= |b| <= 3
    ensures |g| == 4
  {
    var s := Sextets(b[0], if |b| > 1 then b[1] else 0, if |b| > 2 then b[2] else 0);
    [Alphabet(s.0), Alphabet(s.1), if |b| > 1 then Alphabet(s.2) else PAD, if |b| > 2 then Alphabet(s.3) else PAD]
  }

  function Encode(b: seq<Octet>): (s: seq<Octet>)
    ensures |s| % 4 == 0
  {
    if b == [] then []
    else if |b| <= 3 then EncodeGroup(b)
    else EncodeGroup(b[..3]) + Encode(b[3..])
  }

  // ── The decoder ────────────────────────────────────────────────────────

  function Value(c: Octet): Option<Octet> {
    if 0x41 <= c <= 0x5a then Some(c - 0x41)
    else if 0x61 <= c <= 0x7a then Some(c - 0x61 + 26)
    else if 0x30 <= c <= 0x39 then Some(c - 0x30 + 52)
    else if c == 0x2b then Some(62)
    else if c == 0x2f then Some(63)
    else None
  }

  function Octets(a: Octet, b: Octet, c: Octet, d: Octet): (Octet, Octet, Octet) {
    ((a << 2) | (b >> 4), (b << 4) | (c >> 2), (c << 6) | d)
  }

  // The octets four characters stand for.
  function DecodeGroup(g: seq<Octet>): (r: Result<seq<Octet>, DecodeError>)
    requires |g| == 4
    ensures r.Ok? ==> 1 <= |r.value| <= 3
  {
    var (cPad, dPad) := (g[2] == PAD, g[3] == PAD);
    if Value(g[0]).None? || Value(g[1]).None? then Err(BadCharacter)
    else if cPad && !dPad then Err(BadPadding)
    else if (!cPad && Value(g[2]).None?) || (!dPad && Value(g[3]).None?) then Err(BadCharacter)
    else
      var (a, b) := (Value(g[0]).value, Value(g[1]).value);
      var c := if cPad then 0 else Value(g[2]).value;
      var d := if dPad then 0 else Value(g[3]).value;
      var (x, y, z) := Octets(a, b, c, d);
      Ok(if cPad then [x] else if dPad then [x, y] else [x, y, z])
  }

  datatype Decoding = Decoding(output: seq<Octet>, error: Option<DecodeError>)

  // Appending the groups of `input` to `output` until one does not decode or
  // does not fit; what was appended before stays.
  function Groups(input: seq<Octet>, output: seq<Octet>, limit: nat): Decoding
    requires |input| % 4 == 0
  {
    if input == [] then Decoding(output, None)
    else
      match DecodeGroup(input[..4])
      case Err(e) => Decoding(output, Some(e))
      case Ok(octets) =>
        if |output| + |octets| > limit then Decoding(output, Some(BeyondLimit))
        else Groups(input[4..], output + octets, limit)
  }

  function DecodeInto(input: seq<Octet>, output: seq<Octet>, limit: nat): Decoding {
    if |input| % 4 != 0 then Decoding(output, Some(BadLength)) else Groups(input, output, limit)
  }

  method AppendDecoded(input: seq<Octet>, buffer: seq<Octet>, limit: nat) returns (output: seq<Octet>, error: Option<DecodeError>)
    ensures Decoding(output, error) == DecodeInto(input, buffer, limit)
  {
    hide DecodeGroup;
    output, error := buffer, None;
    if |input| % 4 != 0 {
      error := Some(BadLength);
      return;
    }
    var i := 0;
    assert input[0..] == input;
    while i < |input|
      invariant i <= |input| && i % 4 == 0
      invariant Groups(input[i..], output, limit) == Groups(input, buffer, limit)
      decreases |input| - i
    {
      var group := DecodeGroup(input[i..i + 4]);
      assert input[i..][..4] == input[i..i + 4] && input[i..][4..] == input[i + 4..];
      if group.Err? {
        error := Some(group.error);
        return;
      }
      if |output| + |group.value| > limit {
        error := Some(BeyondLimit);
        return;
      }
      output := output + group.value;
      i := i + 4;
    }
  }

  // ── Decoding without a budget ──────────────────────────────────────────

  // The octets of a whole input, if every group decodes.
  function Decoded(input: seq<Octet>): Option<seq<Octet>> {
    if |input| % 4 != 0 then None
    else if input == [] then Some([])
    else
      var (first, rest) := (DecodeGroup(input[..4]), Decoded(input[4..]));
      if first.Err? || rest.None? then None else Some(first.value + rest.value)
  }

  // The append succeeds exactly when the whole input decodes and fits, and
  // then it appends that; otherwise it keeps to the limit all the same.
  lemma {:induction false} GroupsIff(input: seq<Octet>, output: seq<Octet>, limit: nat)
    requires |input| % 4 == 0
    ensures var r := Groups(input, output, limit);
            && (r.error == None <==> Decoded(input).Some? && (input == [] || |output| + |Decoded(input).value| <= limit))
            && (r.error == None ==> r.output == output + Decoded(input).value)
            && output <= r.output && (|output| <= limit ==> |r.output| <= limit)
    decreases |input|
  {
    hide DecodeGroup;
    if input == [] {
      assert output + [] == output;
    } else {
      var first := DecodeGroup(input[..4]);
      if first.Ok? && |output| + |first.value| <= limit {
        GroupsIff(input[4..], output + first.value, limit);
        if Decoded(input).Some? {
          assert output + first.value + Decoded(input[4..]).value == output + Decoded(input).value;
        }
      }
    }
  }

  lemma DecodeIntoIff(input: seq<Octet>, output: seq<Octet>, limit: nat)
    requires |output| <= limit
    ensures var r := DecodeInto(input, output, limit);
            && (r.error == None <==> Decoded(input).Some? && |output| + |Decoded(input).value| <= limit)
            && (r.error == None ==> r.output == output + Decoded(input).value)
            && output <= r.output && |r.output| <= limit
  {
    if |input| % 4 == 0 {
      GroupsIff(input, output, limit);
    }
  }

  // ── The round trip ─────────────────────────────────────────────────────

  lemma ValueOfAlphabet(v: Octet)
    ensures v < 64 ==> Value(Alphabet(v)) == Some(v) && Alphabet(v) != PAD
  {
  }

  lemma SextetsAreSixBits(b0: Octet, b1: Octet, b2: Octet)
    ensures var s := Sextets(b0, b1, b2); s.0 < 64 && s.1 < 64 && s.2 < 64 && s.3 < 64
    ensures Sextets(b0, 0, 0).2 == 0 && Sextets(b0, b1, 0).3 == 0
  {
  }

  lemma OctetsOfSextets(b0: Octet, b1: Octet, b2: Octet)
    ensures var s := Sextets(b0, b1, b2); Octets(s.0, s.1, s.2, s.3) == (b0, b1, b2)
  {
  }

  lemma GroupRoundTrip(b: seq<Octet>)
    requires 1 <= |b| <= 3
    ensures DecodeGroup(EncodeGroup(b)) == Ok(b)
  {
    hide Value, Alphabet, Sextets, Octets;
    var (b1, b2) := (if |b| > 1 then b[1] else 0, if |b| > 2 then b[2] else 0);
    var s := Sextets(b[0], b1, b2);
    SextetsAreSixBits(b[0], b1, b2);
    OctetsOfSextets(b[0], b1, b2);
    ValueOfAlphabet(s.0);
    ValueOfAlphabet(s.1);
    ValueOfAlphabet(s.2);
    ValueOfAlphabet(s.3);
    assert b == if |b| == 1 then [b[0]] else if |b| == 2 then [b[0], b1] else [b[0], b1, b2];
  }

  lemma {:induction false} EncodeRoundTrip(b: seq<Octet>)
    ensures Decoded(Encode(b)) == Some(b)
  {
    hide DecodeGroup, EncodeGroup;
    if b == [] {
    } else if |b| <= 3 {
      GroupRoundTrip(b);
      assert EncodeGroup(b)[..4] == EncodeGroup(b) && EncodeGroup(b)[4..] == [];
      assert b + [] == b;
    } else {
      GroupRoundTrip(b[..3]);
      EncodeRoundTrip(b[3..]);
      var s := Encode(b);
      assert s[..4] == EncodeGroup(b[..3]) && s[4..] == Encode(b[3..]);
      assert b == b[..3] + b[3..];
    }
  }

  // ── What the decoder accepts besides ───────────────────────────────────

  // The bits of a padded group that stand for no octet are zero.
  predicate ZeroTail(g: seq<Octet>)
    requires |g| == 4
  {
    && (g[2] == PAD && Value(g[1]).Some? ==> Value(g[1]).value & 0x0f == 0)
    && (g[2] != PAD && g[3] == PAD && Value(g[2]).Some? ==> Value(g[2]).value & 0x03 == 0)
  }

  // Padding in the last group only, over zero bits.
  predicate Canonical(s: seq<Octet>)
    requires |s| % 4 == 0
  {
    s != [] ==> (forall i :: 0 <= i < |s| - 4 ==> s[i] != PAD) && ZeroTail(s[|s| - 4..])
  }

  lemma AlphabetOfValue(c: Octet)
    requires Value(c).Some?
    ensures Value(c).value < 64 && Alphabet(Value(c).value) == c && c != PAD
  {
  }

  lemma SextetsOfOctets(a: Octet, b: Octet, c: Octet, d: Octet)
    ensures var o := Octets(a, b, c, d);
            a < 64 && b < 64 && c < 64 && d < 64 ==> Sextets(o.0, o.1, o.2) == (a, b, c, d)
  {
  }

  lemma MaskedTwo(a: Octet, b: Octet, c: Octet)
    ensures var o := Octets(a, b, c, 0);
            var s := Sextets(o.0, o.1, 0);
            a < 64 && b < 64 && c < 64 ==> s.0 == a && s.1 == b && (s.2 == c <==> c & 0x03 == 0)
  {
  }

  lemma MaskedOne(a: Octet, b: Octet)
    ensures var s := Sextets(Octets(a, b, 0, 0).0, 0, 0);
            a < 64 && b < 64 ==> s.0 == a && (s.1 == b <==> b & 0x0f == 0)
  {
  }

  lemma DistinctCharacters(a: Octet, b: Octet)
    ensures a < 64 && b < 64 && Alphabet(a) == Alphabet(b) ==> a == b
  {
  }

  // What the encoder writes for the octets of a group, in each of its shapes.
  lemma FullGroup(g: seq<Octet>)
    requires |g| == 4 && DecodeGroup(g).Ok? && g[3] != PAD
    ensures |DecodeGroup(g).value| == 3 && EncodeGroup(DecodeGroup(g).value) == g && PAD !in g
  {
    forall i | 0 <= i < 4 ensures Value(g[i]).value < 64 && Alphabet(Value(g[i]).value) == g[i] && g[i] != PAD {
      AlphabetOfValue(g[i]);
    }
    SextetsOfOctets(Value(g[0]).value, Value(g[1]).value, Value(g[2]).value, Value(g[3]).value);
    hide Value, Alphabet, Sextets, Octets;
  }

  lemma ThreeCharacters(g: seq<Octet>)
    requires |g| == 4 && DecodeGroup(g).Ok? && g[3] == PAD && g[2] != PAD
    ensures |DecodeGroup(g).value| == 2
    ensures EncodeGroup(DecodeGroup(g).value) == g <==> Value(g[2]).value & 0x03 == 0
  {
    forall i | 0 <= i < 3 ensures Value(g[i]).value < 64 && Alphabet(Value(g[i]).value) == g[i] {
      AlphabetOfValue(g[i]);
    }
    var (a, b, c) := (Value(g[0]).value, Value(g[1]).value, Value(g[2]).value);
    MaskedTwo(a, b, c);
    hide Value, Alphabet, Sextets, Octets;
    var octets := DecodeGroup(g).value;
    assert octets == [Octets(a, b, c, 0).0, Octets(a, b, c, 0).1];
    SextetsAreSixBits(octets[0], octets[1], 0);
    if EncodeGroup(octets) == g {
      DistinctCharacters(Sextets(octets[0], octets[1], 0).2, c);
    }
  }

  lemma TwoCharacters(g: seq<Octet>)
    requires |g| == 4 && DecodeGroup(g).Ok? && g[3] == PAD && g[2] == PAD
    ensures |DecodeGroup(g).value| == 1
    ensures EncodeGroup(DecodeGroup(g).value) == g <==> Value(g[1]).value & 0x0f == 0
  {
    forall i | 0 <= i < 2 ensures Value(g[i]).value < 64 && Alphabet(Value(g[i]).value) == g[i] {
      AlphabetOfValue(g[i]);
    }
    var (a, b) := (Value(g[0]).value, Value(g[1]).value);
    MaskedOne(a, b);
    hide Value, Alphabet, Sextets, Octets;
    var octets := DecodeGroup(g).value;
    assert octets == [Octets(a, b, 0, 0).0];
    SextetsAreSixBits(octets[0], 0, 0);
    if EncodeGroup(octets) == g {
      DistinctCharacters(Sextets(octets[0], 0, 0).1, b);
    }
  }

  // A group that decodes is what the encoder writes exactly when its unused
  // bits are zero.
  lemma GroupIsCanonicalIff(g: seq<Octet>)
    requires |g| == 4 && DecodeGroup(g).Ok?
    ensures EncodeGroup(DecodeGroup(g).value) == g <==> ZeroTail(g)
    ensures |DecodeGroup(g).value| == 3 <==> g[3] != PAD
    ensures |DecodeGroup(g).value| == 3 ==> PAD !in g && ZeroTail(g)
  {
    assert Value(g[0]).Some? && Value(g[1]).Some? && (g[3] == PAD && g[2] != PAD ==> Value(g[2]).Some?);
    assert g[2] == PAD ==> g[3] == PAD;
    hide DecodeGroup, EncodeGroup, Value;
    if g[3] != PAD {
      FullGroup(g);
    } else if g[2] != PAD {
      ThreeCharacters(g);
    } else {
      TwoCharacters(g);
    }
  }

  // Among the inputs that decode, the encoder writes exactly those with
  // padding only at the end, over zero bits.
  lemma {:induction false} EncodedIffCanonical(s: seq<Octet>)
    requires |s| % 4 == 0 && Decoded(s).Some?
    ensures Encode(Decoded(s).value) == s <==> Canonical(s)
  {
    hide DecodeGroup, EncodeGroup, ZeroTail;
    if s != [] {
      var (g, rest) := (s[..4], s[4..]);
      var (x, y) := (DecodeGroup(g).value, Decoded(rest).value);
      GroupIsCanonicalIff(g);
      EncodedIffCanonical(rest);
      assert s == g + rest;
      if rest == [] {
        assert x + y == x;
        assert s[|s| - 4..] == g;
      } else {
        DecodedIsNonEmpty(rest);
        assert s[|s| - 4..] == rest[|rest| - 4..];
        if |x| == 3 {
          assert (x + y)[..3] == x && (x + y)[3..] == y;
          assert forall i :: 0 <= i < 4 ==> s[i] == g[i];
          assert forall i :: 4 <= i < |s| ==> s[i] == rest[i - 4];
        } else {
          assert s[3] == PAD;
          PaddedStart(x + y, s);
        }
      }
    }
  }

  lemma DecodedIsNonEmpty(s: seq<Octet>)
    requires s != [] && Decoded(s).Some?
    ensures Decoded(s).value != []
  {
    hide DecodeGroup;
  }

  // The encoder writes no padding into the first of several groups.
  lemma PaddedStart(b: seq<Octet>, s: seq<Octet>)
    requires |s| > 4 && s[3] == PAD
    ensures Encode(b) != s
  {
    if |b| > 3 {
      var x := b[..3];
      SextetsAreSixBits(x[0], x[1], x[2]);
      ValueOfAlphabet(Sextets(x[0], x[1], x[2]).3);
      hide Alphabet, Sextets, Value;
      assert Encode(b)[3] == EncodeGroup(x)[3] != PAD;
    }
  }

  // The decoder does accept others: padding before the end, for one.
  lemma AcceptsInnerPadding()
    ensures var input: seq<Octet> := [0x51, 0x51, PAD, PAD, 0x51, 0x51, PAD, PAD];
            Decoded(input) == Some([0x41, 0x41]) && Encode([0x41, 0x41]) != input
  {
    var half: seq<Octet> := [0x51, 0x51, PAD, PAD];
    var input := half + half;
    assert input[..4] == half && input[4..] == half && half[..4] == half && half[4..] == [];
    assert DecodeGroup(half) == Ok([0x41]);
    var a: seq<Octet> := [0x41];
    assert a + [] == a && a + a == [0x41, 0x41];
    assert Decoded(half) == Some(a) by { assert Decoded([]) == Some([]); }
    assert Encode([0x41, 0x41])[3] == PAD;
    assert Encode([0x41, 0x41])[2] != PAD;
  }
}
