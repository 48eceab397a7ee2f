// Which mentions a note holds, said of its bytes: where they stand, in which
// line, and what is written in them (crates/gpty-core/src/links.rs,
// `parse_links` and `link_from`).
module NoteLinks {
  import opened Wrappers
  import opened Bytes
  import opened LinkScanner
  import opened LinkTargets
  import opened LinkRewrite
  import opened LinkFences
  import opened LinkSpans
  import RenamePass

  // ── What is written in a pair of brackets ──────────────────────────────

  // `target`, then possibly `#` and a heading, then possibly a bar and an alias.
  ghost predicate Written(content: Str, target: Str, heading: Option<Str>, alias: Option<Str>) {
    && (forall k :: 0 <= k < |target| ==> target[k] != 0x23 && target[k] != 0x7c)
    && (heading.Some? ==> 0x7c !in heading.value)
    && content == target + (if heading.Some? then [0x23] + heading.value else []) + (if alias.Some? then [0x7c] + alias.value else [])
  }

  // An empty heading or alias counts for none.
  function Given(part: Option<Str>): Option<Str> {
    match part
    case Some(text) => if |text| == 0 then None else part
    case None => None
  }

  // The content names `target`, which is neither empty nor over-long.
  ghost predicate Names(content: Str, target: Str, heading: Option<Str>, alias: Option<Str>) {
    && 1 <= |target| <= 1024
    && exists h, l :: Written(content, target, h, l) && heading == Given(h) && alias == Given(l)
  }

  lemma SplitOnceParts(s: Str, b: Byte)
    ensures var (left, right) := SplitOnce(s, b);
            b !in left && s == left + (if right.Some? then [b] + right.value else [])
  {
    FindIsFirst(s, b);
    var i := Find(s, b);
    if i < |s| {
      assert s == s[..i] + [b] + s[i + 1..];
    } else {
      assert s[..i] == s;
    }
  }

  lemma SplitOnceOf(left: Str, b: Byte, right: Option<Str>)
    requires b !in left
    ensures SplitOnce(left + (if right.Some? then [b] + right.value else []), b) == (left, right)
  {
    var rest := if right.Some? then [b] + right.value else [];
    SplitOnceConcat(left, rest, b);
    assert left + [] == left;
    if right.Some? {
      assert Find(rest, b) == 0 && rest[1..] == right.value && rest[..0] == [];
    }
  }

  // The brackets' content is a link exactly when it names a target.
  lemma LinkFromIff(content: Str, line: nat, next: nat, target: Str, heading: Option<Str>, alias: Option<Str>)
    ensures LinkFrom(content, line, next) == Some(Link(next, line, target, alias, heading, 0, 0))
            <==> Names(content, target, heading, alias)
  {
    hide SplitOnce;
    var (left, l) := SplitOnce(content, PIPE);
    var (t, h) := SplitOnce(left, HASH);
    SplitOnceParts(content, PIPE);
    SplitOnceParts(left, HASH);
    if LinkFrom(content, line, next) == Some(Link(next, line, target, alias, heading, 0, 0)) {
      assert Written(content, t, h, l) by {
        assert forall k :: 0 <= k < |t| ==> t[k] == left[k] && left[k] in left;
      }
      assert heading == Given(h) && alias == Given(l);
    }
    if Names(content, target, heading, alias) {
      var h', l' :| Written(content, target, h', l') && heading == Given(h') && alias == Given(l');
      var left' := target + (if h'.Some? then [HASH] + h'.value else []);
      SplitOnceOf(left', PIPE, l');
      SplitOnceOf(target, HASH, h');
    }
  }

  // ── The mentions of a line ─────────────────────────────────────────────

  // Two links that differ at most in their number.
  ghost predicate Same(a: Link, b: Link) {
    a.(occurrence := b.occurrence) == b
  }

  ghost predicate Has(links: seq<Link>, l: Link) {
    exists k :: 0 <= k < |links| && Same(links[k], l)
  }

  lemma HasConcat(a: seq<Link>, b: seq<Link>, l: Link)
    ensures Has(a + b, l) <==> Has(a, l) || Has(b, l)
  {
    hide Same;
    if k :| 0 <= k < |a| && Same(a[k], l) {
      assert (a + b)[k] == a[k];
    }
    if k :| 0 <= k < |b| && Same(b[k], l) {
      assert (a + b)[|a| + k] == b[k];
    }
  }

  // `l` is what is written between `[[` at `o` and `]]` at `c` of a line.
  ghost predicate Between(text: Str, number: nat, offset: nat, l: Link, o: nat, c: nat) {
    && o + 2 <= c <= |text| && l.line == number && l.start == offset + o && l.end == offset + c + 2
    && Names(text[o + 2..c], l.target, l.fragment, l.alias)
  }

  lemma LinkAtIff(text: Str, p: Span, number: nat, offset: nat, next: nat, l: Link)
    requires IsPair(text, p)
    ensures Has(LinkAt(text, p, number, offset, next), l) <==> Between(text, number, offset, l, p.open, p.close)
  {
    PairBounds(text, p);
    LinkAtContent(text, p, number, offset, next);
    LinkFromIff(Content(text, p), number, next, l.target, l.fragment, l.alias);
    hide IsPair, LinkAt, Names;
    var links := LinkAt(text, p, number, offset, next);
    match LinkFrom(Content(text, p), number, next)
    case Some(link) =>
      LinkKeepsPlace(Content(text, p), number, next);
      hide LinkFrom;
      assert links == [link.(start := offset + p.open, end := offset + p.close + 2)];
      assert Has(links, l) <==> Same(links[0], l);
    case None =>
      hide LinkFrom;
  }

  lemma {:induction false} LinksOfIff(text: Str, spans: seq<Span>, number: nat, offset: nat, next: nat, l: Link)
    requires AllPairs(text, spans)
    ensures Has(LinksOf(text, spans, number, offset, next), l)
            <==> exists k :: 0 <= k < |spans| && Between(text, number, offset, l, spans[k].open, spans[k].close)
  {
    hide LinkAt, IsPair, LinksOf, Between;
    if spans == [] {
      NoLinksOf(text, spans, number, offset, next);
    } else {
      LinksOfHead(text, spans, number, offset, next);
      var first := LinkAt(text, spans[0], number, offset, next);
      LinkAtIff(text, spans[0], number, offset, next, l);
      LinksOfIff(text, spans[1..], number, offset, next + |first|, l);
      HasConcat(first, LinksOf(text, spans[1..], number, offset, next + |first|), l);
      hide Has;
      if k :| 0 <= k < |spans| && Between(text, number, offset, l, spans[k].open, spans[k].close) {
        assert k > 0 ==> spans[1..][k - 1] == spans[k];
      }
    }
  }

  ghost predicate OnLine(text: Str, number: nat, offset: nat, l: Link) {
    exists o: nat, c: nat :: Pair(text, o, c) && Between(text, number, offset, l, o, c)
  }

  lemma LineLinksIff(text: Str, number: nat, offset: nat, next: nat, l: Link)
    ensures Has(LineLinks(text, number, offset, next), l) <==> OnLine(text, number, offset, l)
  {
    hide Spans, LinksOf, Between, Pair, IsPair, Has;
    var spans := Spans(text, 0, None);
    PairsOfSpans(text, 0, None);
    LinksOfIff(text, spans, number, offset, next, l);
    if k :| 0 <= k < |spans| && Between(text, number, offset, l, spans[k].open, spans[k].close) {
      assert Found(spans, spans[k].open, spans[k].close);
      SpansArePairs(text, spans[k].open, spans[k].close);
    }
    if OnLine(text, number, offset, l) {
      var o: nat, c: nat :| Pair(text, o, c) && Between(text, number, offset, l, o, c);
      SpansArePairs(text, o, c);
    }
  }

  // ── The lines of a note ────────────────────────────────────────────────

  // `a` to `b` is one line of the body, its ending included.
  ghost predicate LineAt(body: Str, a: nat, b: nat) {
    && a < b <= |body| && (a > 0 ==> body[a - 1] == 0x0a) && (b < |body| ==> body[b - 1] == 0x0a)
    && forall k :: a <= k < b - 1 ==> body[k] != 0x0a
  }

  // Its text, without a line feed or a carriage return before that.
  function TextOf(body: Str, a: nat, b: nat): Str
    requires a < b <= |body|
  {
    var e := if body[b - 1] == 0x0a then b - 1 else b;
    body[a..if e > a && body[e - 1] == 0x0d then e - 1 else e]
  }

  // At the line start `a` a block is open that `f` began.
  ghost predicate Fenced(body: Str, a: nat, f: Fence)
    decreases a, 1
  {
    exists j: nat, j': nat :: FencedFrom(body, a, f, j, j')
  }

  // The line `j` to `j'` opened it, in no block itself, and no line closed it.
  ghost predicate FencedFrom(body: Str, a: nat, f: Fence, j: nat, j': nat)
    decreases a, 0
  {
    && LineAt(body, j, j') && j' <= a && Unfenced(body, j) && Opens(TextOf(body, j, j'), f)
    && forall k: nat, k': nat :: LineAt(body, k, k') && j' <= k && k' <= a ==> !Closes(TextOf(body, k, k'), f)
  }

  ghost predicate Unfenced(body: Str, a: nat)
    decreases a, 2
  {
    forall f :: !Fenced(body, a, f)
  }

  function LineNumber(body: Str, a: nat): nat
    requires a <= |body|
  {
    if a == 0 then 1 else LineNumber(body, a - 1) + (if body[a - 1] == 0x0a then 1 else 0)
  }

  // `l` is a mention of the line `a` to `b`, which is in no fenced block and
  // opens none.
  ghost predicate MentionIn(body: Str, l: Link, a: nat, b: nat) {
    && LineAt(body, a, b) && Unfenced(body, a) && (forall f :: !Opens(TextOf(body, a, b), f))
    && OnLine(TextOf(body, a, b), LineNumber(body, a), a, l)
  }

  ghost predicate IsMention(body: Str, l: Link) {
    exists a: nat, b: nat :: MentionIn(body, l, a, b)
  }

  // ── Line by line ───────────────────────────────────────────────────────

  ghost predicate LineStart(body: Str, a: nat) {
    a <= |body| && (0 < a < |body| ==> body[a - 1] == 0x0a)
  }

  lemma FirstLineIs(body: Str, a: nat)
    requires LineStart(body, a) && a < |body|
    ensures var b := a + ChunkLen(body[a..]);
            && LineAt(body, a, b) && FirstLine(body[a..]) == TextOf(body, a, b) && LineStart(body, b)
            && body[b..] == body[a..][b - a..]
  {
    var rest := body[a..];
    var b := a + ChunkLen(rest);
    FirstFeedAt(body, a);
    assert rest[..b - a] == body[a..b];
    StrippedText(body, a, b);
    hide ChunkLen, TextOf, StripLast;
  }

  lemma FirstFeedAt(body: Str, a: nat)
    requires a < |body|
    ensures var b := a + ChunkLen(body[a..]);
            (forall k :: a <= k < b - 1 ==> body[k] != 0x0a) && (b < |body| ==> body[b - 1] == 0x0a)
  {
    var rest := body[a..];
    var i := Find(rest, LF);
    FindIsFirst(rest, LF);
    hide Find;
    forall k | a <= k < a + i ensures body[k] != 0x0a {
      assert rest[..i][k - a] == body[k];
    }
  }

  lemma StrippedText(body: Str, a: nat, b: nat)
    requires a < b <= |body|
    ensures StripLast(StripLast(body[a..b], LF), CR) == TextOf(body, a, b)
  {
    var e := if body[b - 1] == LF then b - 1 else b;
    assert StripLast(body[a..b], LF) == body[a..e];
  }

  // Lines do not overlap.
  lemma LinesApart(body: Str, a: nat, b: nat, k: nat, k': nat)
    requires LineAt(body, a, b) && LineAt(body, k, k')
    ensures k' <= a || b <= k || (k == a && k' == b)
  {
  }

  // The block a line starts in, said both ways.
  ghost predicate Stands(body: Str, a: nat, fence: Option<Fence>) {
    forall f :: Fenced(body, a, f) <==> fence == Some(f)
  }

  lemma StandsUnfenced(body: Str, a: nat, fence: Option<Fence>)
    requires Stands(body, a, fence)
    ensures Unfenced(body, a) <==> fence.None?
  {
    hide Fenced;
    if fence.Some? {
      assert Fenced(body, a, fence.value);
    }
  }

  // What was open before the line and is not closed by it stays open.
  lemma FencedEarlier(body: Str, a: nat, b: nat, f: Fence, j: nat, j': nat)
    requires LineAt(body, a, b) && j' <= a
    ensures FencedFrom(body, b, f, j, j') <==> FencedFrom(body, a, f, j, j') && !Closes(TextOf(body, a, b), f)
  {
    hide Opens, Closes, Unfenced, LineAt, TextOf;
    forall k: nat, k': nat | LineAt(body, k, k') ensures LineInside(body, a, b, k, k') {
      LinesApart(body, a, b, k, k');
      LineBounds(body, k, k');
    }
  }

  ghost predicate LineInside(body: Str, a: nat, b: nat, k: nat, k': nat) {
    k < k' <= |body| && (k' <= a || b <= k || (k == a && k' == b))
  }

  lemma LineBounds(body: Str, k: nat, k': nat)
    ensures LineAt(body, k, k') ==> k < k' <= |body|
  {
  }

  // What a line itself opens.
  lemma FencedHere(body: Str, a: nat, b: nat, f: Fence)
    requires LineAt(body, a, b)
    ensures FencedFrom(body, b, f, a, b) <==> Unfenced(body, a) && Opens(TextOf(body, a, b), f)
  {
    hide Opens, Closes, Unfenced, TextOf;
  }

  lemma Opener(body: Str, a: nat, f: Fence) returns (j: nat, j': nat)
    requires Fenced(body, a, f)
    ensures FencedFrom(body, a, f, j, j')
  {
    j, j' :| FencedFrom(body, a, f, j, j');
  }

  lemma IsOpener(body: Str, a: nat, f: Fence, j: nat, j': nat)
    requires FencedFrom(body, a, f, j, j')
    ensures Fenced(body, a, f)
  {
  }

  // A block open behind a line was opened by it, or before it.
  lemma FencedBehindIff(body: Str, a: nat, b: nat, f: Fence)
    requires LineAt(body, a, b)
    ensures Fenced(body, b, f) <==>
            (Unfenced(body, a) && Opens(TextOf(body, a, b), f)) || (Fenced(body, a, f) && !Closes(TextOf(body, a, b), f))
  {
    hide Opens, Closes, Unfenced, TextOf, LineAt, FencedFrom, Fenced;
    FencedHere(body, a, b, f);
    if Fenced(body, b, f) {
      var j, j' := Opener(body, b, f);
      OpenerIsLine(body, b, f, j, j');
      LinesApart(body, a, b, j, j');
      if j' <= a {
        FencedEarlier(body, a, b, f, j, j');
        IsOpener(body, a, f, j, j');
      }
    }
    if Fenced(body, a, f) {
      var j, j' := Opener(body, a, f);
      OpenerIsLine(body, a, f, j, j');
      FencedEarlier(body, a, b, f, j, j');
      if FencedFrom(body, b, f, j, j') { IsOpener(body, b, f, j, j'); }
    }
    if FencedFrom(body, b, f, a, b) { IsOpener(body, b, f, a, b); }
  }

  lemma OpenerIsLine(body: Str, a: nat, f: Fence, j: nat, j': nat)
    requires FencedFrom(body, a, f, j, j')
    ensures LineAt(body, j, j') && j < j' <= a && (f.marker == 0x60 || f.marker == 0x7e)
  {
    hide White, Unfenced;
  }

  // The scanner's fence follows.
  lemma FenceFollows(body: Str, a: nat, b: nat, fence: Option<Fence>)
    requires LineAt(body, a, b) && Stands(body, a, fence)
    ensures var text := TextOf(body, a, b);
            Stands(body, b, if fence.None? then OpensFence(text) else if ClosesFence(text, fence.value) then None else fence)
  {
    var text := TextOf(body, a, b);
    StandsUnfenced(body, a, fence);
    hide Fenced, Unfenced, Opens, Closes, OpensFence, ClosesFence, TextOf, LineAt;
    if fence.Some? {
      MarkerOf(body, a, fence.value);
      ClosesFenceIff(text, fence.value);
    }
    forall f ensures Fenced(body, b, f) <==> (if fence.None? then OpensFence(text) == Some(f) else fence == Some(f) && !ClosesFence(text, f)) {
      FencedBehindIff(body, a, b, f);
      OpensFenceIff(text, f);
    }
  }

  lemma MarkerOf(body: Str, a: nat, f: Fence)
    requires Fenced(body, a, f)
    ensures f.marker == BACKTICK || f.marker == TILDE
  {
    var j: nat, j': nat :| FencedFrom(body, a, f, j, j');
    OpenerIsLine(body, a, f, j, j');
  }

  // The mentions of one line.
  lemma TurnIff(body: Str, a: nat, b: nat, fence: Option<Fence>, next: nat, l: Link)
    requires LineAt(body, a, b) && Stands(body, a, fence)
    ensures Has(LineTurn(TextOf(body, a, b), fence, LineNumber(body, a), a, next).1, l) <==> MentionIn(body, l, a, b)
  {
    var text := TextOf(body, a, b);
    StandsUnfenced(body, a, fence);
    LineLinksIff(text, LineNumber(body, a), a, next, l);
    NothingHas(l);
    hide Fenced, Unfenced, Opens, OpensFence, TextOf, LineAt, LineLinks, OnLine, Has, ClosesFence;
    forall f ensures OpensFence(text) == Some(f) <==> Opens(text, f) {
      OpensFenceIff(text, f);
    }
    if OpensFence(text).Some? {
      assert Opens(text, OpensFence(text).value);
    }
  }

  lemma NothingHas(l: Link)
    ensures !Has([], l)
  {
  }

  // The mentions from a line start on.
  ghost predicate MentionFrom(body: Str, a: nat, l: Link) {
    exists j: nat, j': nat :: a <= j && MentionIn(body, l, j, j')
  }

  lemma MentionFromLine(body: Str, a: nat, b: nat, l: Link)
    requires LineAt(body, a, b)
    ensures MentionFrom(body, a, l) <==> MentionIn(body, l, a, b) || MentionFrom(body, b, l)
  {
    hide MentionIn, LineAt;
    LineBounds(body, a, b);
    if MentionFrom(body, a, l) {
      var j: nat, j': nat :| a <= j && MentionIn(body, l, j, j');
      MentionIsOnLine(body, l, j, j');
      LinesApart(body, a, b, j, j');
      LineBounds(body, j, j');
    }
  }

  lemma MentionIsOnLine(body: Str, l: Link, a: nat, b: nat)
    requires MentionIn(body, l, a, b)
    ensures LineAt(body, a, b)
  {
  }

  lemma NumberBehind(body: Str, a: nat, b: nat)
    requires LineAt(body, a, b) && b < |body|
    ensures LineNumber(body, b) == LineNumber(body, a) + 1
  {
    SameNumber(body, a, b - 1);
  }

  lemma {:induction false} SameNumber(body: Str, a: nat, k: nat)
    requires a <= k <= |body| && forall i :: a <= i < k ==> body[i] != 0x0a
    ensures LineNumber(body, k) == LineNumber(body, a)
  {
    if a < k {
      SameNumber(body, a, k - 1);
    }
  }

  lemma {:induction false} MentionsFrom(body: Str, a: nat, fence: Option<Fence>, number: nat, next: nat, l: Link)
    requires LineStart(body, a) && Stands(body, a, fence) && (a < |body| ==> number == LineNumber(body, a))
    ensures Has(LinksFrom(body[a..], fence, number, a, next), l) <==> MentionFrom(body, a, l)
    decreases |body| - a
  {
    hide LineTurn, ChunkLen, FirstLine, LinksFrom, Stands, Has, MentionFrom, TextOf, OpensFence, ClosesFence;
    if a == |body| {
      NoLinksAtEnd(body[a..], fence, number, a, next);
      NothingHas(l);
      NothingBehind(body, l);
    } else {
      var rest := body[a..];
      var b: nat := a + ChunkLen(rest);
      FirstLineIs(body, a);
      LinksFromStep(rest, fence, number, a, next);
      var (fence', found) := LineTurn(FirstLine(rest), fence, number, a, next);
      TurnIff(body, a, b, fence, next, l);
      FenceFollows(body, a, b, fence);
      FenceOfTurn(TextOf(body, a, b), fence, number, a, next);
      if b < |body| { NumberBehind(body, a, b); }
      MentionsFrom(body, b, fence', number + 1, next + |found|, l);
      HasConcat(found, LinksFrom(rest[b - a..], fence', number + 1, b, next + |found|), l);
      MentionFromLine(body, a, b, l);
    }
  }

  lemma FenceOfTurn(text: Str, fence: Option<Fence>, number: nat, offset: nat, next: nat)
    ensures LineTurn(text, fence, number, offset, next).0
         == if fence.None? then OpensFence(text) else if ClosesFence(text, fence.value) then None else fence
  {
    hide OpensFence, ClosesFence;
  }

  lemma NothingBehind(body: Str, l: Link)
    ensures !MentionFrom(body, |body|, l)
  {
    forall j: nat, j': nat | |body| <= j ensures !MentionIn(body, l, j, j') {
      LineBounds(body, j, j');
    }
  }

  // ── The mentions of a note ─────────────────────────────────────────────

  // The links of a note are exactly its mentions: pairs of brackets on a line
  // that is in no fenced block and opens none, in no code span and not
  // escaped, with a target that is neither empty nor over-long; each at its
  // place and in its line, with the target, heading and label written there.
  lemma LinksAreMentions(body: Str, l: Link)
    ensures Has(AllLinks(body), l) <==> IsMention(body, l)
  {
    hide LinksFrom, Has, MentionIn, Stands, LineNumber;
    StartsUnfenced(body);
    FirstNumber(body);
    MentionsFrom(body, 0, None, 1, 0, l);
    assert body[0..] == body;
  }

  lemma FirstNumber(body: Str)
    ensures LineNumber(body, 0) == 1
  {
  }

  lemma StartsUnfenced(body: Str)
    ensures Stands(body, 0, None)
  {
    forall f ensures !Fenced(body, 0, f) {
      NoneFenced(body, f);
    }
  }

  lemma NoneFenced(body: Str, f: Fence)
    ensures !Fenced(body, 0, f)
  {
    hide Opens, Closes, Unfenced, TextOf;
    assert forall j: nat, j': nat :: LineAt(body, j, j') ==> j' > 0;
  }

  // They are numbered from 0 in the order they stand in, and the first 512
  // are kept.
  lemma LinksAreInOrder(body: Str)
    ensures var all := AllLinks(body);
            && (forall k :: 0 <= k < |all| ==> all[k].occurrence == k)
            && (forall j, k :: 0 <= j < k < |all| ==> all[j].end <= all[k].start)
            && Parsed(body) == (if |all| <= 512 then all else all[..512])
  {
    hide LinksFrom;
    forall k | 0 <= k < |AllLinks(body)| ensures AllLinks(body)[k].occurrence == k {
      BodyLinkAt(body, None, 1, 0, 0, k);
    }
    RenamePass.BodyLinksApart(body, None, 1, 0, 0);
  }
}
