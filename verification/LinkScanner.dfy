// Finding the wikilinks in a note's body (crates/gpty-core/src/links.rs,
// `parse_links` and what it calls), on the body's UTF-8 bytes.
//
// The functions say what the scanner finds; the methods below are its loops.
module LinkScanner {
  import opened Wrappers
  import opened Bytes

  const MAX_LINK_OCCURRENCES: nat := 512
  const MAX_LINK_TARGET_BYTES: nat := 1024

  const HASH: Byte := 0x23
  const OPENER: Byte := 0x5b
  const BACKSLASH: Byte := 0x5c
  const CLOSER: Byte := 0x5d
  const BACKTICK: Byte := 0x60
  const PIPE: Byte := 0x7c
  const TILDE: Byte := 0x7e

  datatype Link = Link(occurrence: nat, line: nat, target: Str, alias: Option<Str>, fragment: Option<Str>, start: int, end: int)

  datatype Fence = Fence(marker: Byte, length: nat)

  // ── Bytes ──────────────────────────────────────────────────────────────

  // The index of the first `b`, or the length when there is none.
  function Find(s: Str, b: Byte): (i: nat)
    ensures i <= |s|
  {
    if s == [] || s[0] == b then 0 else 1 + Find(s[1..], b)
  }

  // How many `marker` bytes stand side by side from `start` on.
  function RunLength(s: Str, start: nat, marker: Byte): (n: nat)
    requires start <= |s|
    ensures start + n <= |s|
    decreases |s| - start
  {
    if start < |s| && s[start] == marker then 1 + RunLength(s, start + 1, marker) else 0
  }

  // The backslashes immediately before `at`.
  function Backslashes(s: Str, at: nat): (n: nat)
    requires at <= |s|
    ensures n <= at
  {
    if at > 0 && s[at - 1] == BACKSLASH then 1 + Backslashes(s, at - 1) else 0
  }

  predicate IsEscaped(s: Str, at: nat)
    requires at <= |s|
  {
    Backslashes(s, at) % 2 == 1
  }

  predicate ClosesAt(s: Str, i: nat) {
    i + 1 < |s| && s[i] == CLOSER && s[i + 1] == CLOSER
  }

  // The first `]]` from `from` on, unless a `[` comes before it.
  function FindClose(s: Str, from: nat): (close: Option<nat>)
    ensures close.Some? ==> from <= close.value && close.value + 2 <= |s|
    decreases |s| - from
  {
    if from + 1 >= |s| || s[from] == OPENER then None
    else if ClosesAt(s, from) then Some(from)
    else FindClose(s, from + 1)
  }

  lemma {:induction false} RunLengthIsMaximal(s: Str, start: nat, marker: Byte)
    requires start <= |s|
    ensures var n := RunLength(s, start, marker);
            && (forall k :: start <= k < start + n ==> s[k] == marker)
            && (start + n < |s| ==> s[start + n] != marker)
    decreases |s| - start
  {
    if start < |s| && s[start] == marker {
      RunLengthIsMaximal(s, start + 1, marker);
    }
  }

  lemma {:induction false} BackslashesIsMaximal(s: Str, at: nat)
    requires at <= |s|
    ensures var n := Backslashes(s, at);
            && (forall k :: at - n <= k < at ==> s[k] == BACKSLASH)
            && (n < at ==> s[at - n - 1] != BACKSLASH)
  {
    if at > 0 && s[at - 1] == BACKSLASH {
      BackslashesIsMaximal(s, at - 1);
    }
  }

  ghost predicate IsFirstClose(s: Str, from: nat, c: nat) {
    from <= c && ClosesAt(s, c) && forall k :: from <= k < c ==> s[k] != OPENER && !ClosesAt(s, k)
  }

  // The scanner's closer is the first `]]`, and there is one exactly when no
  // `[` precedes it.
  lemma {:induction false} FindCloseIff(s: Str, from: nat, c: nat)
    ensures FindClose(s, from) == Some(c) <==> IsFirstClose(s, from, c)
    decreases |s| - from
  {
    if from + 1 >= |s| || s[from] == OPENER || ClosesAt(s, from) {
    } else {
      FindCloseIff(s, from + 1, c);
    }
  }

  // The length of the UTF-8 whitespace character `s` starts with, or 0.
  function LeadingSpace(s: Str): (n: nat)
    ensures n <= |s|
  {
    if |s| >= 1 && (9 <= s[0] <= 13 || s[0] == 0x20) then 1
    else if |s| >= 2 && s[0] == 0xC2 && (s[1] == 0x85 || s[1] == 0xA0) then 2
    else if |s| >= 3 && WideSpace(s[0], s[1], s[2]) then 3
    else 0
  }

  // The same for the whitespace character `s` ends with.
  function TrailingSpace(s: Str): (n: nat)
    ensures n <= |s|
  {
    var k := |s|;
    if k >= 1 && (9 <= s[k - 1] <= 13 || s[k - 1] == 0x20) then 1
    else if k >= 2 && s[k - 2] == 0xC2 && (s[k - 1] == 0x85 || s[k - 1] == 0xA0) then 2
    else if k >= 3 && WideSpace(s[k - 3], s[k - 2], s[k - 1]) then 3
    else 0
  }

  // U+1680, U+2000-200A, U+2028, U+2029, U+202F, U+205F and U+3000.
  predicate WideSpace(a: Byte, b: Byte, c: Byte) {
    || (a == 0xE1 && b == 0x9A && c == 0x80)
    || (a == 0xE2 && b == 0x80 && (0x80 <= c <= 0x8A || c == 0xA8 || c == 0xA9 || c == 0xAF))
    || (a == 0xE2 && b == 0x81 && c == 0x9F)
    || (a == 0xE3 && b == 0x80 && c == 0x80)
  }

  function TrimStart(s: Str): Str {
    var n := LeadingSpace(s);
    if n == 0 then s else TrimStart(s[n..])
  }

  function TrimEnd(s: Str): Str {
    var n := TrailingSpace(s);
    if n == 0 then s else TrimEnd(s[..|s| - n])
  }

  // ── Fences and lines ───────────────────────────────────────────────────

  function OpensFence(line: Str): Option<Fence> {
    var t := TrimStart(line);
    if t == [] || (t[0] != BACKTICK && t[0] != TILDE) then None
    else
      var run := RunLength(t, 0, t[0]);
      if run >= 3 then Some(Fence(t[0], run)) else None
  }

  predicate ClosesFence(line: Str, fence: Fence) {
    var t := TrimEnd(TrimStart(line));
    t != [] && (forall k :: 0 <= k < |t| ==> t[k] == fence.marker) && |t| >= fence.length
  }

  // The first line of `body` with its ending, and without it.
  function ChunkLen(body: Str): (n: nat)
    requires body != []
    ensures 1 <= n <= |body|
  {
    var i := Find(body, LF);
    if i < |body| then i + 1 else |body|
  }

  function StripLast(s: Str, b: Byte): (r: Str)
    ensures r <= s && |s| <= |r| + 1
  {
    if s != [] && s[|s| - 1] == b then s[..|s| - 1] else s
  }

  function FirstLine(body: Str): (line: Str)
    requires body != []
    ensures line <= body && |line| <= ChunkLen(body)
  {
    StripLast(StripLast(body[..ChunkLen(body)], LF), CR)
  }

  // ── Links ──────────────────────────────────────────────────────────────

  function NonEmpty(s: Option<Str>): Option<Str> {
    if s.Some? && s.value != [] then s else None
  }

  function SplitOnce(s: Str, b: Byte): (parts: (Str, Option<Str>))
  {
    var i := Find(s, b);
    (s[..i], if i < |s| then Some(s[i + 1..]) else None)
  }

  // The content of one pair of brackets as target, fragment and alias.
  function LinkFrom(content: Str, line: nat, occurrence: nat): Option<Link> {
    var (left, alias) := SplitOnce(content, PIPE);
    var (target, fragment) := SplitOnce(left, HASH);
    if target == [] || |target| > MAX_LINK_TARGET_BYTES then None
    else Some(Link(occurrence, line, target, NonEmpty(alias), NonEmpty(fragment), 0, 0))
  }

  // A pair of brackets the scanner accepts: the index of its `[[` and its `]]`.
  datatype Span = Span(open: nat, close: nat)

  predicate OpensAt(line: Str, i: nat) {
    i + 1 < |line| && line[i] == OPENER && line[i + 1] == OPENER && !IsEscaped(line, i) && FindClose(line, i + 2).Some?
  }

  predicate IsPair(line: Str, s: Span) {
    OpensAt(line, s.open) && FindClose(line, s.open + 2) == Some(s.close)
  }

  // Where one turn of the scan stops, the code span it is then in, and the
  // pair it accepted. `code` is the length of the backtick run that opened
  // the inline code span `i` is in.
  datatype Turn = Turn(next: nat, code: Option<nat>, accepted: Option<Span>)

  function ScanTurn(line: Str, i: nat, code: Option<nat>): (t: Turn)
    requires i < |line|
    ensures i < t.next <= |line|
    ensures t.accepted.Some? ==> t.accepted.value.open == i && t.accepted.value.close + 2 == t.next && IsPair(line, t.accepted.value)
  {
    if line[i] == BACKTICK then
      var run := RunLength(line, i, BACKTICK);
      Turn(i + run, if code == Some(run) then None else if code.None? then Some(run) else code, None)
    else if code.None? && OpensAt(line, i) then
      var close := FindClose(line, i + 2).value;
      Turn(close + 2, None, Some(Span(i, close)))
    else
      Turn(i + 1, code, None)
  }

  // The bracket pairs from `i` on, outside inline code.
  function Spans(line: Str, i: nat, code: Option<nat>): (spans: seq<Span>)
    requires i <= |line|
    ensures forall k :: 0 <= k < |spans| ==> i <= spans[k].open && IsPair(line, spans[k])
    decreases |line| - i
  {
    if i == |line| then []
    else
      var t := ScanTurn(line, i, code);
      Accepted(t) + Spans(line, t.next, t.code)
  }

  // What one turn adds to the pairs.
  function Accepted(t: Turn): seq<Span> {
    if t.accepted.Some? then [t.accepted.value] else []
  }

  lemma SpansTurn(s: Str, i: nat, code: Option<nat>)
    requires i < |s|
    ensures var t := ScanTurn(s, i, code);
            Spans(s, i, code) == Accepted(t) + Spans(s, t.next, t.code)
  {
    hide ScanTurn, IsPair;
  }

  ghost predicate Disjoint(spans: seq<Span>) {
    forall j, k :: 0 <= j < k < |spans| ==> spans[j].close + 2 <= spans[k].open
  }

  // The pairs do not overlap, and come in order.
  lemma {:induction false} SpansAreDisjoint(line: Str, i: nat, code: Option<nat>)
    requires i <= |line|
    ensures Disjoint(Spans(line, i, code))
    decreases |line| - i
  {
    hide ScanTurn, IsPair;
    if i < |line| {
      var t := ScanTurn(line, i, code);
      SpansAreDisjoint(line, t.next, t.code);
      var rest := Spans(line, t.next, t.code);
      assert Spans(line, i, code) == if t.accepted.Some? then [t.accepted.value] + rest else rest;
    }
  }

  // The links among `spans`, numbered from `next`.
  function LinksOf(line: Str, spans: seq<Span>, number: nat, offset: nat, next: nat): seq<Link>
    requires forall k :: 0 <= k < |spans| ==> IsPair(line, spans[k])
  {
    if spans == [] then []
    else
      var first := LinkAt(line, spans[0], number, offset, next);
      first + LinksOf(line, spans[1..], number, offset, next + |first|)
  }

  // The link in one pair of brackets, if its content is one.
  function LinkAt(line: Str, s: Span, number: nat, offset: nat, next: nat): (links: seq<Link>)
    requires IsPair(line, s)
    ensures |links| <= 1
  {
    match LinkFrom(line[s.open + 2..s.close], number, next)
    case Some(link) => [link.(start := offset + s.open, end := offset + s.close + 2)]
    case None => []
  }

  function LineLinks(line: Str, number: nat, offset: nat, next: nat): seq<Link> {
    LinksOf(line, Spans(line, 0, None), number, offset, next)
  }

  // One line outside or inside a fenced block: the fence after it, and its
  // links.
  function LineTurn(line: Str, fence: Option<Fence>, number: nat, offset: nat, next: nat): (Option<Fence>, seq<Link>) {
    if fence.Some? then (if ClosesFence(line, fence.value) then None else fence, [])
    else if OpensFence(line).Some? then (OpensFence(line), [])
    else (None, LineLinks(line, number, offset, next))
  }

  // Every link from a line start on.
  function LinksFrom(body: Str, fence: Option<Fence>, number: nat, offset: nat, next: nat): seq<Link>
    decreases |body|
  {
    if body == [] then []
    else
      var n := ChunkLen(body);
      var (fence', found) := LineTurn(FirstLine(body), fence, number, offset, next);
      found + LinksFrom(body[n..], fence', number + 1, offset + n, next + |found|)
  }

  function AllLinks(body: Str): seq<Link> {
    LinksFrom(body, None, 1, 0, 0)
  }

  function Capped(links: seq<Link>): seq<Link> {
    if |links| > MAX_LINK_OCCURRENCES then links[..MAX_LINK_OCCURRENCES] else links
  }

  // What `parse_links` returns.
  function Parsed(body: Str): seq<Link> {
    Capped(AllLinks(body))
  }

  // ── The loops ──────────────────────────────────────────────────────────

  method MeasureRun(s: Str, start: nat, marker: Byte) returns (n: nat)
    requires start <= |s|
    ensures n == RunLength(s, start, marker)
  {
    n := 0;
    while start + n < |s| && s[start + n] == marker
      invariant start + n <= |s|
      invariant n + RunLength(s, start + n, marker) == RunLength(s, start, marker)
    {
      n := n + 1;
    }
  }

  method CheckEscaped(s: Str, at: nat) returns (escaped: bool)
    requires at <= |s|
    ensures escaped == IsEscaped(s, at)
  {
    var backslashes := 0;
    var i := at;
    while i > 0 && s[i - 1] == BACKSLASH
      invariant 0 <= i <= at
      invariant backslashes + Backslashes(s, i) == Backslashes(s, at)
    {
      backslashes := backslashes + 1;
      i := i - 1;
    }
    escaped := backslashes % 2 == 1;
  }

  method SearchClose(s: Str, from: nat) returns (close: Option<nat>)
    ensures close == FindClose(s, from)
  {
    var i := from;
    while i + 1 < |s|
      invariant from <= i
      invariant FindClose(s, i) == FindClose(s, from)
    {
      if s[i] == OPENER {
        return None;
      }
      if s[i] == CLOSER && s[i + 1] == CLOSER {
        return Some(i);
      }
      i := i + 1;
    }
    return None;
  }

  // The body of the scan's loop, up to the link it may append.
  method TakeTurn(line: Str, i: nat, code: Option<nat>) returns (t: Turn)
    requires i < |line|
    ensures t == ScanTurn(line, i, code)
  {
    if line[i] == BACKTICK {
      var run := MeasureRun(line, i, BACKTICK);
      var code' := code;
      if code == Some(run) {
        code' := None;
      } else if code.None? {
        code' := Some(run);
      }
      return Turn(i + run, code', None);
    }
    if code.None? && i + 1 < |line| && line[i] == OPENER && line[i + 1] == OPENER {
      var escaped := CheckEscaped(line, i);
      var close := SearchClose(line, i + 2);
      if !escaped && close.Some? {
        return Turn(close.value + 2, None, Some(Span(i, close.value)));
      }
    }
    return Turn(i + 1, code, None);
  }

  // Appends one line's links to `out`.
  method ScanLine(line: Str, number: nat, offset: nat, out: seq<Link>) returns (links: seq<Link>)
    ensures links == out + LineLinks(line, number, offset, |out|)
  {
    hide ScanTurn, LinkAt, LinksOf, Spans;
    links := out;
    var i := 0;
    var code: Option<nat> := None;
    while i < |line|
      invariant i <= |line|
      invariant links + LinksOf(line, Spans(line, i, code), number, offset, |links|)
             == out + LineLinks(line, number, offset, |out|)
      decreases |line| - i
    {
      var t := TakeTurn(line, i, code);
      TurnLinks(line, i, code, number, offset, |links|);
      if t.accepted.Some? {
        links := links + LinkAt(line, t.accepted.value, number, offset, |links|);
      }
      i, code := t.next, t.code;
    }
    NoSpansAtEnd(line, code, number, offset, |links|);
  }

  lemma NoSpansAtEnd(line: Str, code: Option<nat>, number: nat, offset: nat, next: nat)
    ensures LinksOf(line, Spans(line, |line|, code), number, offset, next) == []
  {
  }

  // One turn of the scan against the links still to come.
  lemma TurnLinks(line: Str, i: nat, code: Option<nat>, number: nat, offset: nat, next: nat)
    requires i < |line|
    ensures var t := ScanTurn(line, i, code);
            var found := if t.accepted.Some? then LinkAt(line, t.accepted.value, number, offset, next) else [];
            LinksOf(line, Spans(line, i, code), number, offset, next)
            == found + LinksOf(line, Spans(line, t.next, t.code), number, offset, next + |found|)
  {
    hide ScanTurn, LinkAt, IsPair, Spans;
    SpansTurn(line, i, code);
    var t := ScanTurn(line, i, code);
    var rest := Spans(line, t.next, t.code);
    if t.accepted.Some? {
      assert ([t.accepted.value] + rest)[1..] == rest;
    } else {
      assert Spans(line, i, code) == rest;
    }
  }

  // The body of the line loop: the fence after the line, and the links.
  method TakeLine(line: Str, fence: Option<Fence>, number: nat, offset: nat, out: seq<Link>)
    returns (fence': Option<Fence>, links: seq<Link>)
    ensures fence' == LineTurn(line, fence, number, offset, |out|).0
    ensures links == out + LineTurn(line, fence, number, offset, |out|).1
  {
    fence', links := fence, out;
    if fence.Some? {
      if ClosesFence(line, fence.value) {
        fence' := None;
      }
    } else if OpensFence(line).Some? {
      fence' := OpensFence(line);
    } else {
      links := ScanLine(line, number, offset, out);
    }
  }

  // One line against the links still to come.
  lemma LineStep(rest: Str, fence: Option<Fence>, number: nat, offset: nat, out: seq<Link>)
    requires rest != []
    ensures var n := ChunkLen(rest);
            var (fence', found) := LineTurn(FirstLine(rest), fence, number, offset, |out|);
            out + LinksFrom(rest, fence, number, offset, |out|)
            == (out + found) + LinksFrom(rest[n..], fence', number + 1, offset + n, |out + found|)
  {
    hide LineTurn, ChunkLen, FirstLine;
    var n := ChunkLen(rest);
    var (fence', found) := LineTurn(FirstLine(rest), fence, number, offset, |out|);
    var later := LinksFrom(rest[n..], fence', number + 1, offset + n, |out| + |found|);
    assert out + (found + later) == (out + found) + later;
  }

  lemma NoLinksAtEnd(rest: Str, fence: Option<Fence>, number: nat, offset: nat, next: nat)
    ensures rest == [] ==> LinksFrom(rest, fence, number, offset, next) == []
  {
  }

  method ParseLinks(body: Str) returns (links: seq<Link>)
    ensures links == Parsed(body)
  {
    hide LineTurn, ChunkLen, FirstLine, LinksFrom;
    links := [];
    var fence: Option<Fence> := None;
    var offset, number := 0, 1;
    assert body[0..] == body;
    while offset < |body|
      invariant offset <= |body|
      invariant |links| < MAX_LINK_OCCURRENCES
      invariant links + LinksFrom(body[offset..], fence, number, offset, |links|) == AllLinks(body)
      decreases |body| - offset
    {
      var rest := body[offset..];
      var n := ChunkLen(rest);
      var line := FirstLine(rest);
      assert rest[n..] == body[offset + n..];
      LineStep(rest, fence, number, offset, links);
      fence, links := TakeLine(line, fence, number, offset, links);
      if |links| >= MAX_LINK_OCCURRENCES {
        links := links[..MAX_LINK_OCCURRENCES];
        return;
      }
      offset := offset + n;
      number := number + 1;
    }
    NoLinksAtEnd(body[offset..], fence, number, offset, |links|);
  }
}
