// Reading a written mention back: which targets survive it, and what
// `retarget` refuses besides (crates/gpty-core/src/links.rs).
module LinkReadback {
  import opened Wrappers
  import opened Bytes
  import opened LinkScanner
  import opened LinkTargets
  import opened LinkRewrite
  import opened Utf8Text

  // What the scanner needs to read `t` back from the mention `[[t]]`: one
  // line, no bracket opened or alias or fragment started inside, and no `]`
  // that closes early.
  predicate Readable(t: Str) {
    && t != [] && |t| <= MAX_LINK_TARGET_BYTES
    && OPENER !in t && PIPE !in t && HASH !in t && LF !in t
    && forall i :: 0 <= i < |t| && t[i] == CLOSER ==> i + 1 < |t| && t[i + 1] != CLOSER
  }

  const TAB: Byte := 0x09

  function Mention(t: Str): Str {
    [OPENER, OPENER] + t + [CLOSER, CLOSER]
  }

  // Parsing the mention finds the target and nothing else.
  predicate ReadsBack(t: Str) {
    Parsed(Mention(t)) == [Link(0, 1, t, None, None, 0, |t| + 4)]
  }

  lemma ContentReadsBackIff(t: Str)
    ensures LinkFrom(t, 1, 0) == Some(Link(0, 1, t, None, None, 0, 0)) <==>
            t != [] && |t| <= MAX_LINK_TARGET_BYTES && PIPE !in t && HASH !in t
  {
    var i := Find(t, PIPE);
    FindIff(t, PIPE);
    if i == |t| {
      FindIff(t, HASH);
      assert t[..|t|] == t;
    } else {
      FindIff(t[..i], HASH);
      assert |t[..i]| < |t|;
    }
  }

  lemma ClosesAtTheEndIff(t: Str)
    ensures IsPair(Mention(t), Span(0, |t| + 2)) <==>
            OPENER !in t && forall i :: 0 <= i < |t| && t[i] == CLOSER ==> i + 1 < |t| && t[i + 1] != CLOSER
  {
    var m := Mention(t);
    FindCloseIff(m, 2, |t| + 2);
    assert forall i :: 0 <= i < |t| ==> m[i + 2] == t[i];
    assert m[|t| + 2] == CLOSER && m[|t| + 3] == CLOSER;
    assert Backslashes(m, 0) == 0;
    if OPENER in t {
      var i :| 0 <= i < |t| && t[i] == OPENER;
      assert m[i + 2] == OPENER;
    }
    assert IsPair(m, Span(0, |t| + 2)) <==> IsFirstClose(m, 2, |t| + 2);
  }

  // The mention is one line with one pair of brackets: that is the whole of
  // what the parser makes of it.
  lemma OneLineParses(m: Str, link: Link)
    requires |m| >= 2 && LF !in m && IsPair(m, Span(0, |m| - 2)) && LinkAt(m, Span(0, |m| - 2), 1, 0, 0) == [link]
    ensures Parsed(m) == [link]
  {
    PairCloses(m, Span(0, |m| - 2));
    assert m + [] + [] == m;
    FirstLineOf(m, [], []);
    hide FirstLine, ChunkLen, LinkAt, FindClose, RunLength, Backslashes;
    var t := ScanTurn(m, 0, None);
    SpansTurn(m, 0, None);
    NoSpansLeft(m, None);
    assert Spans(m, 0, None) == [Span(0, |m| - 2)];
    hide Spans, ScanTurn, IsPair;
    OneLinkOf(m, Span(0, |m| - 2));
    assert OpensFence(m).None?;
    LinksFromStep(m, None, 1, 0, 0);
    NoLinksAtEnd([], None, 2, |m|, 1);
  }

  lemma OneLinkOf(s: Str, p: Span)
    requires IsPair(s, p)
    ensures LinksOf(s, [p], 1, 0, 0) == LinkAt(s, p, 1, 0, 0)
  {
    hide LinkAt, IsPair;
    assert [p][1..] == [];
    LinksOfHead(s, [p], 1, 0, 0);
    NoLinksOf(s, [p][1..], 1, 0, |LinkAt(s, p, 1, 0, 0)|);
  }

  // A link of line 1 that spans the whole text: the text is one line, and
  // its outer brackets are a pair.
  lemma WholeTextIsOnePair(m: Str)
    requires Parsed(m) != [] && Parsed(m)[0].line == 1 && Parsed(m)[0].start == 0 && Parsed(m)[0].end == |m|
    ensures LF !in m && |m| >= 4 && IsPair(m, Span(0, |m| - 2))
    ensures LinkAt(m, Span(0, |m| - 2), 1, 0, 0) == [Parsed(m)[0]]
  {
    hide LineLinks, ChunkLen, FirstLine, LinksFrom;
    if m == [] {
      NoLinksAtEnd(m, None, 1, 0, 0);
    }
    var link := Parsed(m)[0];
    var (n, line) := (ChunkLen(m), FirstLine(m));
    LinksFromStep(m, None, 1, 0, 0);
    var (fence, found) := LineTurn(line, None, 1, 0, 0);
    if found == [] {
      BodyLinkAt(m[n..], fence, 2, n, 0, 0);
    }
    hide LinksFrom;
    LineLinkAt(line, 1, 0, 0, 0);
    var eol := SplitBody(m);
    assert line == m;
    hide *;
    OuterPair(m, link);
  }

  lemma OuterPair(s: Str, link: Link)
    requires LineLinks(s, 1, 0, 0) != [] && LineLinks(s, 1, 0, 0)[0] == link && link.start == 0 && link.end == |s|
    ensures |s| >= 4 && IsPair(s, Span(0, |s| - 2)) && LinkAt(s, Span(0, |s| - 2), 1, 0, 0) == [link]
  {
    hide Spans, LinksOf, IsPair, LinkAt;
    var spans := Spans(s, 0, None);
    PairsOfSpans(s, 0, None);
    var k := PairOfLink(s, spans, 1, 0, 0, 0);
    TargetWithinPair(s, spans[k], 1, 0, 0);
  }

  // The mention reads back exactly when its outer brackets are a pair on one
  // line around the bare target.
  lemma ReadsBackIffPair(t: Str)
    ensures ReadsBack(t) <==>
            && LF !in Mention(t) && IsPair(Mention(t), Span(0, |t| + 2))
            && LinkFrom(t, 1, 0) == Some(Link(0, 1, t, None, None, 0, 0))
  {
    var (m, p) := (Mention(t), Span(0, |t| + 2));
    assert m[2..|t| + 2] == t;
    hide Parsed, IsPair, LinkFrom, Mention;
    if ReadsBack(t) {
      WholeTextIsOnePair(m);
      LinkAtContent(m, p, 1, 0, 0);
    } else if LF !in m && IsPair(m, p) && LinkFrom(t, 1, 0) == Some(Link(0, 1, t, None, None, 0, 0)) {
      LinkAtContent(m, p, 1, 0, 0);
      OneLineParses(m, Link(0, 1, t, None, None, 0, |t| + 4));
    }
  }

  lemma ReadableIff(t: Str)
    ensures Parsed(Mention(t)) == [Link(0, 1, t, None, None, 0, |t| + 4)] <==> Readable(t)
  {
    hide LinkFrom, IsPair, Parsed;
    ReadsBackIffPair(t);
    ContentReadsBackIff(t);
    ClosesAtTheEndIff(t);
    assert LF in Mention(t) <==> LF in t;
  }

  lemma ReadsBackIffReadable(t: Str)
    ensures ReadsBack(t) <==> Readable(t)
  {
    hide Parsed, Mention, Readable;
    ReadableIff(t);
  }

  // The guard is on the safe side: what `retarget` returns reads back, and
  // what it refuses would have read back exactly when it is readable but for
  // a lone `]` or a control character other than a line feed.
  lemma RetargetReadsBackIff(target: Str, newPath: Str)
    ensures var t := Respelled(target, newPath);
            && (Retarget(target, newPath).Some? ==> Retarget(target, newPath) == Some(t) && ReadsBack(t))
            && (Retarget(target, newPath).None? ==>
                  (ReadsBack(t) <==> Readable(t) && (CLOSER in t || exists i :: 0 <= i < |t| && ControlAt(t, i))))
  {
    var t := Respelled(target, newPath);
    hide ReadsBack, Respelled;
    ReadsBackIffReadable(t);
    if Spellable(t) {
      assert forall i :: 0 <= i < |t| ==> t[i] != OPENER && !ControlAt(t, i);
    } else if Readable(t) {
      var i :| 0 <= i < |t| && (t[i] == CLOSER || t[i] == OPENER || t[i] == PIPE || t[i] == HASH || ControlAt(t, i));
      assert t[i] in t;
    }
  }

  lemma StemAtRoot(target: Str, stem: Str)
    requires SLASH !in target && SLASH !in stem
    ensures Respelled(target, stem + MD) == stem
  {
    hide FileName;
    FileNameAtRoot(stem + MD);
    assert (stem + MD)[..|stem|] == stem && (stem + MD)[|stem|..] == MD;
  }

  // A note moved to `a<TAB>b.md` at the root, for any two spellable halves:
  // refused, and readable.
  lemma RefusedThoughReadable(target: Str, a: Str, b: Str)
    requires SLASH !in target && SLASH !in a && SLASH !in b && Spellable(a) && Spellable(b)
    requires |a| + 1 + |b| <= MAX_LINK_TARGET_BYTES
    ensures var stem := a + [TAB] + b;
            Respelled(target, stem + MD) == stem && Retarget(target, stem + MD) == None && ReadsBack(stem)
  {
    var stem := a + [TAB] + b;
    hide ReadsBack, Respelled;
    StemAtRoot(target, stem);
    assert stem[|a|] == TAB && ControlAt(stem, |a|);
    assert forall c :: c in stem ==> c in a || c == TAB || c in b;
    ReadsBackIffReadable(stem);
  }

  lemma {:induction false} FindIff(s: Str, b: Byte)
    ensures Find(s, b) == |s| <==> b !in s
  {
    if s != [] {
      FindIff(s[1..], b);
      assert s == [s[0]] + s[1..];
    }
  }

  // ── The guard, said of characters ──────────────────────────────────────

  // A bracket, a bar, a hash sign or a control character.
  predicate Bars(c: char) {
    c in "[]|#" || c < '\U{20}' || '\U{7f}' <= c <= '\U{9f}'
  }

  predicate BarsAt(s: Str, i: nat)
    requires i < |s|
  {
    s[i] == OPENER || s[i] == CLOSER || s[i] == PIPE || s[i] == HASH || ControlAt(s, i)
  }

  ghost predicate AnyBars(s: Str) {
    exists i :: 0 <= i < |s| && BarsAt(s, i)
  }

  // One character bars exactly at its first byte.
  lemma EncodedBarsIff(c: char)
    ensures AnyBars(Encoded(c)) <==> Bars(c)
    ensures Encoded(c)[|Encoded(c)| - 1] != 0xC2
  {
    assert Bars(c) ==> BarsAt(Encoded(c), 0);
  }

  lemma BarsBehind(a: Str, e: Str)
    requires (a == [] || a[|a| - 1] != 0xC2)
    ensures AnyBars(a + e) <==> AnyBars(a) || AnyBars(e)
  {
    var s := a + e;
    assert forall i :: 0 <= i < |a| ==> (BarsAt(s, i) <==> BarsAt(a, i));
    assert forall i :: 0 <= i < |e| ==> (BarsAt(s, |a| + i) <==> BarsAt(e, i));
    if i :| 0 <= i < |s| && BarsAt(s, i) {
      assert if i < |a| then BarsAt(a, i) else BarsAt(e, i - |a|);
    }
  }

  lemma {:induction false} TextBarsIff(text: string)
    ensures AnyBars(Utf8(text)) <==> exists i :: 0 <= i < |text| && Bars(text[i])
    ensures text != "" ==> Utf8(text)[|Utf8(text)| - 1] != 0xC2
  {
    if text != "" {
      var n := |text| - 1;
      hide Encoded, AnyBars, Bars;
      TextBarsIff(text[..n]);
      EncodedBarsIff(text[n]);
      BarsBehind(Utf8(text[..n]), Encoded(text[n]));
      assert forall i :: 0 <= i < n ==> text[..n][i] == text[i];
    }
  }

  // A name is refused exactly for being empty, over 1024 bytes long, or for a
  // character that bars it.
  lemma SpellableIff(text: string)
    ensures Spellable(Utf8(text)) <==> text != "" && ByteLen(text) <= 1024 && forall i :: 0 <= i < |text| ==> !Bars(text[i])
  {
    hide Bars, AnyBars, Spellable;
    TextBarsIff(text);
    CharsWithinBytes(text);
    SpellableBytesIff(Utf8(text));
  }

  lemma SpellableBytesIff(s: Str)
    ensures Spellable(s) <==> s != [] && |s| <= 1024 && !AnyBars(s)
  {
    hide ControlAt;
    if !AnyBars(s) {
      forall i | 0 <= i < |s|
        ensures s[i] != OPENER && s[i] != CLOSER && s[i] != PIPE && s[i] != HASH && !ControlAt(s, i)
      {
        assert !BarsAt(s, i);
      }
    }
    if Spellable(s) {
      assert forall i :: 0 <= i < |s| ==> !BarsAt(s, i);
    }
  }
}
