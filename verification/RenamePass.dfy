// Following a renamed note: every mention of it in a body is respelled in one
// copy of that body (crates/gpty-core/src/vault.rs, `rewrite_links`).
module RenamePass {
  import opened Wrappers
  import opened Bytes
  import opened LinkScanner
  import opened LinkTargets
  import opened LinkRewrite
  import Notes = NoteIndex

  // ── Where the mentions of a body lie ───────────────────────────────────

  ghost predicate Apart(links: seq<Link>) {
    forall j, k :: 0 <= j < k < |links| ==> links[j].end <= links[k].start
  }

  // Brackets with the target behind the opening ones, inside `body` and one
  // behind the other.
  ghost predicate Laid(body: Str, links: seq<Link>) {
    && (forall k :: 0 <= k < |links| ==> 0 <= links[k].start && links[k].start + |links[k].target| + 4 <= links[k].end <= |body|)
    && Apart(links)
  }

  lemma {:induction false} LinksOfApart(s: Str, spans: seq<Span>, number: nat, offset: nat, next: nat, from: nat)
    requires AllPairs(s, spans) && Disjoint(spans) && forall k :: 0 <= k < |spans| ==> from <= spans[k].open
    ensures var links := LinksOf(s, spans, number, offset, next);
            Apart(links) && forall k :: 0 <= k < |links| ==> offset + from <= links[k].start
  {
    hide LinkAt, IsPair, LinksOf, Apart;
    if spans == [] {
      NoLinksOf(s, spans, number, offset, next);
      OneIsApart([]);
    } else {
      LinksOfHead(s, spans, number, offset, next);
      var (first, behind) := (LinkAt(s, spans[0], number, offset, next), spans[0].close + 2);
      assert forall k :: 0 <= k < |spans[1..]| ==> behind <= spans[1..][k].open;
      LinksOfApart(s, spans[1..], number, offset, next + |first|, behind);
      PairBounds(s, spans[0]);
      if first != [] {
        TargetWithinPair(s, spans[0], number, offset, next);
      }
      OneIsApart(first);
      ApartConcat(first, LinksOf(s, spans[1..], number, offset, next + |first|), offset + behind);
    }
  }

  lemma OneIsApart(links: seq<Link>)
    requires |links| <= 1
    ensures Apart(links)
  {
  }

  lemma ApartConcat(a: seq<Link>, b: seq<Link>, border: int)
    requires Apart(a) && Apart(b)
    requires forall k :: 0 <= k < |a| ==> a[k].end <= border
    requires forall k :: 0 <= k < |b| ==> border <= b[k].start
    ensures Apart(a + b)
  {
  }

  lemma {:induction false} BodyLinksApart(body: Str, fence: Option<Fence>, number: nat, offset: nat, next: nat)
    ensures Apart(LinksFrom(body, fence, number, offset, next))
    decreases |body|
  {
    hide LineTurn, ChunkLen, FirstLine, LinksFrom, Apart;
    if body == [] {
      NoLinksAtEnd(body, fence, number, offset, next);
      OneIsApart([]);
    } else {
      LinksFromStep(body, fence, number, offset, next);
      var (n, line) := (ChunkLen(body), FirstLine(body));
      var (fence', found) := LineTurn(line, fence, number, offset, next);
      var later := LinksFrom(body[n..], fence', number + 1, offset + n, next + |found|);
      BodyLinksApart(body[n..], fence', number + 1, offset + n, next + |found|);
      LineLinksApart(line, fence, number, offset, next);
      forall k | 0 <= k < |later| ensures offset + n <= later[k].start {
        BodyLinkAt(body[n..], fence', number + 1, offset + n, next + |found|, k);
      }
      ApartConcat(found, later, offset + n);
    }
  }

  lemma LineLinksApart(line: Str, fence: Option<Fence>, number: nat, offset: nat, next: nat)
    ensures var found := LineTurn(line, fence, number, offset, next).1;
            Apart(found) && forall k :: 0 <= k < |found| ==> found[k].end <= offset + |line|
  {
    hide OpensFence, LinksOf, Spans, Apart, LinkFrom;
    OneIsApart([]);
    var links := LineLinks(line, number, offset, next);
    PairsOfSpans(line, 0, None);
    LinksOfApart(line, Spans(line, 0, None), number, offset, next, 0);
    forall k | 0 <= k < |links| ensures links[k].end <= offset + |line| {
      LineLinkAt(line, number, offset, next, k);
    }
  }

  lemma ParsedIsLaid(body: Str)
    ensures Laid(body, Parsed(body))
  {
    hide LinksFrom;
    var links := Parsed(body);
    BodyLinksApart(body, None, 1, 0, 0);
    forall k | 0 <= k < |links|
      ensures 0 <= links[k].start && links[k].start + |links[k].target| + 4 <= links[k].end <= |body|
    {
      OccurrenceIsWhereItSays(body, k);
      TargetWithinText(body, links[k]);
    }
  }

  lemma TargetWithinText(s: Str, link: Link)
    requires Describes(s, 0, link)
    ensures link.start + |link.target| + 4 <= link.end
  {
    TargetIsPrefix(s[link.start + 2..link.end - 2], link.line, link.occurrence);
    hide LinkFrom;
  }

  // ── The copy ───────────────────────────────────────────────────────────

  // The new body so far, and how far the old one has been copied.
  datatype Copy = Copy(text: Str, cursor: nat)

  // How far respelling the first `n` targets moves what is behind them.
  function Moved(links: seq<Link>, choices: seq<Option<Str>>, n: nat): int
    requires |choices| == |links| && n <= |links|
  {
    if n == 0 then 0
    else Moved(links, choices, n - 1) + (if choices[n - 1].Some? then |choices[n - 1].value| - |links[n - 1].target| else 0)
  }

  // After the first `n` mentions; `choices[k]` is the new target of mention
  // `k`, if it gets one.
  function CopyTo(body: Str, links: seq<Link>, choices: seq<Option<Str>>, n: nat): (c: Copy)
    requires Laid(body, links) && |choices| == |links| && n <= |links|
    ensures c.cursor <= |body| && forall k :: n <= k < |links| ==> c.cursor <= links[k].start
    ensures |c.text| == c.cursor + Moved(links, choices, n)
  {
    if n == 0 then Copy([], 0)
    else
      var (c, link) := (CopyTo(body, links, choices, n - 1), links[n - 1]);
      if choices[n - 1].None? then c
      else Copy(c.text + body[c.cursor..link.start + 2] + choices[n - 1].value, link.start + 2 + |link.target|)
  }

  function CopiedTo(body: Str, links: seq<Link>, choices: seq<Option<Str>>, n: nat): Str
    requires Laid(body, links) && |choices| == |links| && n <= |links|
  {
    var c := CopyTo(body, links, choices, n);
    c.text + body[c.cursor..]
  }

  // The links with the first `n` choices made: those targets replaced, every
  // span moved by what changed in front of it.
  function RespeltTo(links: seq<Link>, choices: seq<Option<Str>>, n: nat): seq<Link>
    requires |choices| == |links| && n <= |links|
  {
    seq(|links|, k requires 0 <= k < |links| => RespeltLink(links, choices, n, k))
  }

  function RespeltLink(links: seq<Link>, choices: seq<Option<Str>>, n: nat, k: nat): Link
    requires |choices| == |links| && n <= |links| && k < |links|
  {
    links[k].(target := if k < n && choices[k].Some? then choices[k].value else links[k].target,
              start := links[k].start + Moved(links, choices, if k < n then k else n),
              end := links[k].end + Moved(links, choices, if k < n then k + 1 else n))
  }

  ghost predicate AllSpellable(choices: seq<Option<Str>>) {
    forall k :: 0 <= k < |choices| && choices[k].Some? ==> Spellable(choices[k].value)
  }

  // A step of the copy is one splice of the body copied so far.
  lemma CopyStep(body: Str, links: seq<Link>, choices: seq<Option<Str>>, n: nat)
    requires Laid(body, links) && |choices| == |links| && n < |links| && choices[n].Some?
    ensures var (b, at, len) := (CopiedTo(body, links, choices, n), links[n].start + 2 + Moved(links, choices, n), |links[n].target|);
            0 <= at && at + len <= |b| && CopiedTo(body, links, choices, n + 1) == Splice(b, at, len, choices[n].value)
  {
    hide Moved;
    var c := CopyTo(body, links, choices, n);
    var b := c.text + body[c.cursor..];
    var at := links[n].start + 2 + Moved(links, choices, n);
    var s := links[n].start + 2;
    assert b[..at] == c.text + body[c.cursor..s];
    assert b[at + |links[n].target|..] == body[s + |links[n].target|..];
  }

  lemma RespeltStep(links: seq<Link>, choices: seq<Option<Str>>, n: nat)
    requires |choices| == |links| && n < |links|
    ensures RespeltTo(links, choices, n + 1)
         == if choices[n].Some? then Rewritten(RespeltTo(links, choices, n), n, choices[n].value) else RespeltTo(links, choices, n)
  {
    var (a, b) := (RespeltTo(links, choices, n), RespeltTo(links, choices, n + 1));
    assert Moved(links, choices, n + 1) == Moved(links, choices, n) + if choices[n].Some? then |choices[n].value| - |links[n].target| else 0;
    hide Moved;
    if choices[n].Some? {
      var r := Rewritten(a, n, choices[n].value);
      forall k | 0 <= k < |links| ensures b[k] == r[k] {
      }
      assert b == r;
    } else {
      assert forall k :: 0 <= k < |links| ==> b[k] == a[k];
    }
  }

  lemma NothingRespelt(body: Str, links: seq<Link>, choices: seq<Option<Str>>)
    requires Laid(body, links) && |choices| == |links|
    ensures CopiedTo(body, links, choices, 0) == body && RespeltTo(links, choices, 0) == links
  {
    assert [] + body[0..] == body;
  }

  // Whatever targets are chosen, for whichever mentions: the copied body
  // parses to the same links with exactly those targets.
  lemma {:induction false} CopyCommutesWithParsing(body: Str, choices: seq<Option<Str>>, n: nat)
    requires |choices| == |Parsed(body)| && AllSpellable(choices) && n <= |choices|
    ensures Laid(body, Parsed(body))
    ensures Parsed(CopiedTo(body, Parsed(body), choices, n)) == RespeltTo(Parsed(body), choices, n)
  {
    hide Parsed, CopiedTo, Laid, Spellable, Splice, Rewritten, Moved;
    ParsedIsLaid(body);
    var links := Parsed(body);
    if n == 0 {
      NothingRespelt(body, links, choices);
    } else {
      CopyCommutesWithParsing(body, choices, n - 1);
      RespeltStep(links, choices, n - 1);
      if choices[n - 1].Some? {
        var b := CopiedTo(body, links, choices, n - 1);
        CopyStep(body, links, choices, n - 1);
        RewritingCommutesWithParsing(b, n - 1, choices[n - 1].value);
      } else {
        CopySkips(body, links, choices, n - 1);
      }
    }
  }

  lemma CopySkips(body: Str, links: seq<Link>, choices: seq<Option<Str>>, n: nat)
    requires Laid(body, links) && |choices| == |links| && n < |links| && choices[n].None?
    ensures CopiedTo(body, links, choices, n + 1) == CopiedTo(body, links, choices, n)
  {
  }

  // ── Every other byte ───────────────────────────────────────────────────

  // The text in front of target `k`, back to the target before it; behind the
  // last target, the rest.
  function Gap(body: Str, links: seq<Link>, k: nat): Str
    requires Laid(body, links) && k <= |links|
  {
    GapIsInside(body, links, k);
    body[GapStart(links, k)..GapEnd(body, links, k)]
  }

  function GapStart(links: seq<Link>, k: nat): int
    requires k <= |links|
  {
    if k == 0 then 0 else links[k - 1].start + 2 + |links[k - 1].target|
  }

  function GapEnd(body: Str, links: seq<Link>, k: nat): int
    requires k <= |links|
  {
    if k < |links| then links[k].start + 2 else |body|
  }

  lemma GapIsInside(body: Str, links: seq<Link>, k: nat)
    requires Laid(body, links) && k <= |links|
    ensures 0 <= GapStart(links, k) <= GapEnd(body, links, k) <= |body|
  {
  }

  // A body is its gaps with its targets between them.
  function Woven(body: Str, links: seq<Link>, n: nat): Str
    requires Laid(body, links) && n <= |links|
  {
    if n == 0 then Gap(body, links, 0) else Woven(body, links, n - 1) + links[n - 1].target + Gap(body, links, n)
  }

  ghost predicate InPlace(body: Str, links: seq<Link>)
    requires Laid(body, links)
  {
    forall k :: 0 <= k < |links| ==> body[links[k].start + 2..][..|links[k].target|] == links[k].target
  }

  lemma {:induction false} WovenPrefix(body: Str, links: seq<Link>, n: nat)
    requires Laid(body, links) && InPlace(body, links) && n <= |links|
    ensures 0 <= GapEnd(body, links, n) <= |body| && Woven(body, links, n) == body[..GapEnd(body, links, n)]
  {
    GapIsInside(body, links, n);
    if n > 0 {
      GapIsInside(body, links, n - 1);
      WovenPrefix(body, links, n - 1);
      var (a, b, e) := (GapEnd(body, links, n - 1), GapStart(links, n), GapEnd(body, links, n));
      TargetBetweenGaps(body, links, n - 1, n - 1);
      var target := links[n - 1].target;
      hide Laid, Woven;
      assert body[a..][..|target|] == target;
      hide InPlace, GapEnd, GapStart;
      Slices(body, a, b, e);
      WovenStep(body, links, n);
    }
  }

  lemma Slices(s: Str, a: nat, b: nat, e: nat)
    requires a <= b <= e <= |s|
    ensures s[..e] == s[..a] + s[a..b] + s[b..e] && s[a..b] == s[a..][..b - a]
  {
  }

  lemma WovenStep(body: Str, links: seq<Link>, n: nat)
    requires Laid(body, links) && 0 < n <= |links|
    ensures Woven(body, links, n) == Woven(body, links, n - 1) + links[n - 1].target + Gap(body, links, n)
  {
  }

  // So the gaps and the targets of its links make up the whole body.
  lemma BodyIsWoven(body: Str)
    ensures Laid(body, Parsed(body)) && Woven(body, Parsed(body), |Parsed(body)|) == body
  {
    ParsedIsLaid(body);
    var links := Parsed(body);
    hide Parsed;
    forall k | 0 <= k < |links| ensures body[links[k].start + 2..][..|links[k].target|] == links[k].target {
      OccurrenceIsWhereItSays(body, k);
      TargetInText(body, links[k]);
    }
    WovenPrefix(body, links, |links|);
  }

  lemma TargetInText(s: Str, link: Link)
    requires Describes(s, 0, link) && 0 <= link.start && link.start + |link.target| + 4 <= link.end <= |s|
    ensures s[link.start + 2..][..|link.target|] == link.target
  {
    var content := s[link.start + 2..link.end - 2];
    TargetIsPrefix(content, link.line, link.occurrence);
    hide LinkFrom;
    assert s[link.start + 2..][..|link.target|] == content[..|link.target|];
  }

  lemma SliceBeforeSplice(s: Str, at: nat, len: nat, t: Str, a: nat, b: nat)
    requires at + len <= |s| && a <= b <= at
    ensures Splice(s, at, len, t)[a..b] == s[a..b]
  {
    assert Splice(s, at, len, t)[..at] == s[..at];
    assert s[a..b] == s[..at][a..b] && Splice(s, at, len, t)[a..b] == Splice(s, at, len, t)[..at][a..b];
  }

  lemma SliceBehindSplice(s: Str, at: nat, len: nat, t: Str, a: nat, b: nat)
    requires at + len <= a <= b <= |s|
    ensures var d := |t| - len;
            b + d <= |Splice(s, at, len, t)| && Splice(s, at, len, t)[a + d..b + d] == s[a..b]
  {
    SpliceParts(s, at, len, t);
    var (s', d) := (Splice(s, at, len, t), |t| - len);
    hide Splice;
    SliceOfTail(s, at + len, a, b);
    SliceOfTail(s', at + |t|, a + d, b + d);
  }

  lemma SliceOfTail(s: Str, k: nat, a: nat, b: nat)
    requires k <= a <= b <= |s|
    ensures s[a..b] == s[k..][a - k..b - k]
  {
  }

  // Where gap `k` starts and ends once target `n` is `t`.
  lemma GapOfRewritten(body: Str, links: seq<Link>, n: nat, t: Str, body': Str, k: nat)
    requires n < |links| && k <= |links| && |body'| == |body| + |t| - |links[n].target|
    ensures var (links', d) := (Rewritten(links, n, t), |t| - |links[n].target|);
            && |links'| == |links|
            && GapStart(links', k) == GapStart(links, k) + (if k > n then d else 0)
            && GapEnd(body', links', k) == GapEnd(body, links, k) + (if k > n then d else 0)
  {
  }

  lemma SpliceKeepsGap(body: Str, links: seq<Link>, n: nat, t: Str, k: nat)
    requires Laid(body, links) && n < |links| && k <= |links|
    ensures var (at, len) := (links[n].start + 2, |links[n].target|);
            0 <= at && at + len <= |body|
            && (Laid(Splice(body, at, len, t), Rewritten(links, n, t)) ==>
                  |Rewritten(links, n, t)| == |links| && Gap(Splice(body, at, len, t), Rewritten(links, n, t), k) == Gap(body, links, k))
  {
    GapIsInside(body, links, k);
    TargetBetweenGaps(body, links, n, k);
    var (at, len) := (links[n].start + 2, |links[n].target|);
    var body' := Splice(body, at, len, t);
    SpliceParts(body, at, len, t);
    hide Laid, Splice, GapStart, GapEnd, Rewritten;
    GapOfRewritten(body, links, n, t, body', k);
    if k <= n {
      SliceBeforeSplice(body, at, len, t, GapStart(links, k), GapEnd(body, links, k));
    } else {
      SliceBehindSplice(body, at, len, t, GapStart(links, k), GapEnd(body, links, k));
    }
  }

  lemma TargetBetweenGaps(body: Str, links: seq<Link>, n: nat, k: nat)
    requires Laid(body, links) && n < |links| && k <= |links|
    ensures 0 <= links[n].start + 2 && links[n].start + 2 + |links[n].target| <= |body|
    ensures k <= n ==> GapEnd(body, links, k) <= links[n].start + 2
    ensures k > n ==> GapStart(links, k) >= links[n].start + 2 + |links[n].target|
  {
  }

  // Every byte outside the targets is where it was between its neighbours.
  lemma {:induction false} CopyKeepsGaps(body: Str, choices: seq<Option<Str>>, n: nat, k: nat)
    requires |choices| == |Parsed(body)| && AllSpellable(choices) && n <= |choices| && k <= |choices|
    ensures Laid(body, Parsed(body))
    ensures var body' := CopiedTo(body, Parsed(body), choices, n);
            && Laid(body', Parsed(body')) && |Parsed(body')| == |Parsed(body)|
            && Gap(body', Parsed(body'), k) == Gap(body, Parsed(body), k)
  {
    hide Parsed, CopiedTo, Laid, Spellable, Splice, Rewritten, Moved, Gap;
    ParsedIsLaid(body);
    var links := Parsed(body);
    CopyCommutesWithParsing(body, choices, n);
    ParsedIsLaid(CopiedTo(body, links, choices, n));
    if n == 0 {
      NothingRespelt(body, links, choices);
    } else {
      CopyKeepsGaps(body, choices, n - 1, k);
      CopyCommutesWithParsing(body, choices, n - 1);
      if choices[n - 1].Some? {
        var b := CopiedTo(body, links, choices, n - 1);
        RespeltStep(links, choices, n - 1);
        CopyStep(body, links, choices, n - 1);
        SpliceKeepsGap(b, Parsed(b), n - 1, choices[n - 1].value, k);
      } else {
        CopySkips(body, links, choices, n - 1);
      }
    }
  }

  // ── One body ───────────────────────────────────────────────────────────

  // A rename: the note paths there were before it, their lower-casing, and
  // the path that became another.
  datatype Rename = Rename(notes: seq<Str>, lower: Str -> Str, oldPath: Str, newPath: Str)

  // The target is a mention of the renamed note.
  predicate Names(r: Rename, target: Str) {
    Notes.Resolve(r.notes, r.lower, target) == Notes.Resolved(r.oldPath)
  }

  predicate Refuses(r: Rename, target: Str) {
    Names(r, target) && Retarget(target, r.newPath).None?
  }

  // The new spelling of a target, when it gets one and that is another.
  function Choice(r: Rename, target: Str): Option<Str> {
    if Names(r, target) && Retarget(target, r.newPath) != Some(target) then Retarget(target, r.newPath) else None
  }

  function Choices(r: Rename, links: seq<Link>): seq<Option<Str>> {
    seq(|links|, k requires 0 <= k < |links| => Choice(r, links[k].target))
  }

  function Count(choices: seq<Option<Str>>): nat {
    if choices == [] then 0
    else Count(choices[..|choices| - 1]) + (if choices[|choices| - 1].Some? then 1 else 0)
  }

  datatype Outcome = Refused | Unchanged | Written(body: Str, mentions: nat)

  ghost predicate AnyRefused(r: Rename, links: seq<Link>) {
    exists k :: 0 <= k < |links| && Refuses(r, links[k].target)
  }

  ghost function Renamed(r: Rename, body: Str): Outcome {
    ParsedIsLaid(body);
    var links := Parsed(body);
    var choices := Choices(r, links);
    if AnyRefused(r, links) then Refused
    else if Count(choices) == 0 then Unchanged
    else Written(CopiedTo(body, links, choices, |links|), Count(choices))
  }

  lemma NothingCopied(body: Str, links: seq<Link>, choices: seq<Option<Str>>)
    requires Laid(body, links) && |choices| == |links|
    ensures CopyTo(body, links, choices, 0) == Copy([], 0)
  {
  }

  lemma CopyNext(body: Str, links: seq<Link>, choices: seq<Option<Str>>, n: nat)
    requires Laid(body, links) && |choices| == |links| && n < |links|
    ensures var (c, link) := (CopyTo(body, links, choices, n), links[n]);
            && 0 <= c.cursor <= link.start + 2 <= |body|
            && CopyTo(body, links, choices, n + 1)
               == if choices[n].None? then c
                  else Copy(c.text + body[c.cursor..link.start + 2] + choices[n].value, link.start + 2 + |link.target|)
    ensures Count(choices[..n + 1]) == Count(choices[..n]) + if choices[n].Some? then 1 else 0
  {
    assert choices[..n + 1][..n] == choices[..n];
  }

  // The loop over a body's mentions: what was copied, if anything was to be
  // respelled, and how far.
  method RespellMentions(r: Rename, index: Notes.NoteIndex, body: Str) returns (outcome: Outcome)
    requires index.Valid() && index.notes == r.notes && index.lower == r.lower
    ensures outcome == Renamed(r, body)
  {
    hide Parsed, CopyTo, Count, Retarget, Notes.Resolve;
    ParsedIsLaid(body);
    var links := ParseLinks(body);
    ghost var choices := Choices(r, links);
    hide Laid;
    NothingCopied(body, links, choices);
    NothingCounted();
    var out: Option<Str> := None;
    var cursor: nat, mentions: nat := 0, 0;
    assert choices[..0] == [];
    for i := 0 to |links|
      invariant forall k :: 0 <= k < i ==> !Refuses(r, links[k].target)
      invariant CopyTo(body, links, choices, i) == Copy(if out.Some? then out.value else [], cursor)
      invariant mentions == Count(choices[..i])
      invariant out.None? <==> mentions == 0
      invariant out.None? ==> cursor == 0
    {
      CopyNext(body, links, choices, i);
      var target := links[i].target;
      var found := index.Lookup(target);
      if found != Notes.Resolved(r.oldPath) {
        continue;
      }
      var spelled := Retarget(target, r.newPath);
      if spelled.None? {
        return Refused;
      }
      if spelled.value == target {
        continue;
      }
      var at := links[i].start + 2;
      var text := if out.Some? then out.value else [];
      out := Some(text + body[cursor..at] + spelled.value);
      cursor := at + |target|;
      mentions := mentions + 1;
    }
    assert choices[..|links|] == choices;
    if out.None? {
      return Unchanged;
    }
    outcome := Written(out.value + body[cursor..], mentions);
  }

  lemma NothingCounted()
    ensures Count([]) == 0
  {
  }

  // The body as the rename leaves it.
  ghost function After(r: Rename, body: Str): Str {
    match Renamed(r, body)
    case Written(body', _) => body'
    case _ => body
  }

  lemma AfterIsTheCopy(r: Rename, body: Str)
    requires !Renamed(r, body).Refused?
    ensures var (links, choices) := (Parsed(body), Choices(r, Parsed(body)));
            && Laid(body, links) && AllSpellable(choices) && !AnyRefused(r, links)
            && After(r, body) == CopiedTo(body, links, choices, |links|)
  {
    hide Parsed, Choice, CopiedTo, Laid, AllSpellable, AnyRefused;
    var (links, choices) := (Parsed(body), Choices(r, Parsed(body)));
    ParsedIsLaid(body);
    ChoicesSpellable(r, links);
    NoneCounted(choices);
    if Count(choices) == 0 {
      NothingChosen(body, links, choices, |links|);
    }
  }

  lemma {:induction false} NothingChosen(body: Str, links: seq<Link>, choices: seq<Option<Str>>, n: nat)
    requires Laid(body, links) && |choices| == |links| && n <= |links| && forall k :: 0 <= k < |choices| ==> choices[k].None?
    ensures CopiedTo(body, links, choices, n) == body
  {
    hide Laid, CopiedTo;
    if n == 0 {
      NothingRespelt(body, links, choices);
    } else {
      NothingChosen(body, links, choices, n - 1);
      CopySkips(body, links, choices, n - 1);
    }
  }

  // A rename respells exactly the mentions of the renamed note. Unless one of
  // them cannot be spelled, the body parses to the same links in the same
  // lines with the same aliases and fragments; those that named the note have
  // the new spelling and the others the target they had.
  lemma RenameRespellsEveryMention(r: Rename, body: Str)
    requires !Renamed(r, body).Refused?
    ensures var (links, links') := (Parsed(body), Parsed(After(r, body)));
            && |links'| == |links|
            && (forall k :: 0 <= k < |links| ==>
                  && links'[k] == links[k].(target := links'[k].target, start := links'[k].start, end := links'[k].end)
                  && if Notes.Resolve(r.notes, r.lower, links[k].target) == Notes.Resolved(r.oldPath) then Retarget(links[k].target, r.newPath) == Some(links'[k].target)
                     else links'[k].target == links[k].target)
  {
    hide Parsed, Retarget, CopiedTo, Laid, Moved, After, AllSpellable, Notes.Resolve;
    AfterIsTheCopy(r, body);
    CopyCommutesWithParsing(body, Choices(r, Parsed(body)), |Parsed(body)|);
  }

  // A body is refused exactly when one of those cannot be spelled, and not
  // written exactly when each of them is spelled that way already.
  lemma RefusedIff(r: Rename, body: Str)
    ensures Renamed(r, body).Refused? <==>
            exists k :: 0 <= k < |Parsed(body)| && Notes.Resolve(r.notes, r.lower, Parsed(body)[k].target) == Notes.Resolved(r.oldPath)
                        && Retarget(Parsed(body)[k].target, r.newPath).None?
    ensures Renamed(r, body).Unchanged? <==>
            forall k :: 0 <= k < |Parsed(body)| && Notes.Resolve(r.notes, r.lower, Parsed(body)[k].target) == Notes.Resolved(r.oldPath) ==>
                        Retarget(Parsed(body)[k].target, r.newPath) == Some(Parsed(body)[k].target)
  {
    hide Parsed, Retarget, Notes.Resolve, CopiedTo, Count, Laid;
    var (links, choices) := (Parsed(body), Choices(r, Parsed(body)));
    NoneCounted(choices);
    assert forall k :: 0 <= k < |links| ==> choices[k] == Choice(r, links[k].target);
  }

  // And every byte outside the targets stays where it was between its
  // neighbours.
  lemma RenameKeepsEveryOtherByte(r: Rename, body: Str, k: nat)
    requires !Renamed(r, body).Refused? && k <= |Parsed(body)|
    ensures var (links, links') := (Parsed(body), Parsed(After(r, body)));
            && Laid(body, links) && Laid(After(r, body), links') && |links'| == |links|
            && Gap(After(r, body), links', k) == Gap(body, links, k)
  {
    hide Parsed, CopiedTo, Laid, Gap, After, AllSpellable, Choice;
    AfterIsTheCopy(r, body);
    CopyKeepsGaps(body, Choices(r, Parsed(body)), |Parsed(body)|, k);
  }

  // What a respelt mention names among the notes there are now.
  ghost predicate StillNames(notes: seq<Str>, lower: Str -> Str, target: Str, newPath: Str) {
    if SLASH in target && SLASH in newPath then
      EndsWith(newPath, MD) && (EndsWith(target, MD) || !EndsWith(WithoutMd(newPath), MD))
    else
      && (if SLASH in target then !(EndsWith(target, MD) && EndsWith(newPath, MD)) else SLASH !in newPath || EndsWith(newPath, MD))
      && Notes.Matching(notes, Notes.ByStem, lower, NoteStem(newPath)) == [newPath]
  }

  // A mention of the renamed note follows it if and only if the new spelling
  // can: a path to a path of its own kind, and else by a unique stem.
  lemma RespeltMentionResolvesIff(r: Rename, body: Str, notes: seq<Str>, k: nat)
    requires !Renamed(r, body).Refused? && k < |Parsed(body)| && Names(r, Parsed(body)[k].target)
    requires r.newPath in notes && Notes.KeepsExtension(r.lower, r.newPath)
    ensures |Parsed(After(r, body))| == |Parsed(body)|
    ensures Notes.Resolve(notes, r.lower, Parsed(After(r, body))[k].target) == Notes.Resolved(r.newPath) <==>
            StillNames(notes, r.lower, Parsed(body)[k].target, r.newPath)
  {
    hide Parsed, Retarget, After, Renamed, Notes.Resolve, Notes.Matching, Notes.KeepsExtension;
    RenameRespellsEveryMention(r, body);
    var target := Parsed(body)[k].target;
    if SLASH in target {
      Notes.RetargetedPathResolvesIff(notes, r.lower, target, r.newPath);
    } else {
      Notes.RetargetedStemResolvesIff(notes, r.lower, target, r.newPath);
    }
  }

  lemma ChoicesSpellable(r: Rename, links: seq<Link>)
    ensures AllSpellable(Choices(r, links))
  {
    hide Spellable, Respelled, Notes.Resolve;
  }

  lemma {:induction false} NoneCounted(choices: seq<Option<Str>>)
    ensures Count(choices) == 0 <==> forall k :: 0 <= k < |choices| ==> choices[k].None?
  {
    if choices != [] {
      NoneCounted(choices[..|choices| - 1]);
      assert forall k :: 0 <= k < |choices| - 1 ==> choices[..|choices| - 1][k] == choices[k];
    }
  }
}
