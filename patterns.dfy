/**
  The four regular expressions `parse_agent_response` applies to a text payload,
  each written out as the backtracking search Python's `re.search` performs:

    Observation: ({.*?})                                 a braced group
    Thought:(.*?)(?=\n|Action:|$)                        a line field
    Action:(.*?)(?=\n|Observation:|$)                    a line field
    "action": "Final Answer".*?"action_input": "(.*?)"   a quoted value

  No flags are passed, so `.` matches any character except a newline and `$`
  matches at the end of the text or just before a final newline. The three
  shapes are described once, for any literals, and the four patterns are
  constants of those shapes.
 */
module Patterns {
  import opened Wrappers
  import opened Text

  datatype Pattern =
      /** `prefix(open.*?close)`: the group runs from `open` to the first `close`. */
    | Braced(prefix: string, open: char, close: char)
      /** `marker(.*?)(?=\n|stop|$)`: the group runs to the first boundary. */
    | Line(marker: string, stop: string)
      /** `head.*?key(.*?)close`: the group is the text after the nearest `key`. */
    | Quoted(head: string, key: string, close: char)
  {
    /** The lazy pieces stop at characters a `.` could not cross anyway. */
    predicate Valid()
    {
      match this
      case Braced(_, open, close) => open != '\n' && close != '\n'
      case Line(_, _) => true
      case Quoted(_, _, close) => close != '\n'
    }
  }

  const OBSERVATION: Pattern := Braced("Observation: ", '{', '}')
  const THOUGHT: Pattern := Line("Thought:", "Action:")
  const ACTION: Pattern := Line("Action:", "Observation:")
  const FINAL_ANSWER: Pattern := Quoted("\"action\": \"Final Answer\"", "\"action_input\": \"", '"')

  /** The span `s[lo..hi]` of capture group 1. */
  datatype Span = Span(lo: nat, hi: nat)

  /** A successful search: where the whole match starts and where its group lies. */
  datatype Found = Found(at: nat, group: Span)

  /** `match.group(1)`. */
  function Group(s: string, f: Found): string
    requires f.group.lo <= f.group.hi <= |s|
  {
    s[f.group.lo..f.group.hi]
  }

  // ---------------------------------------------------------------------------
  // The lazy pieces, as the regex engine tries them.
  // ---------------------------------------------------------------------------

  /** Where a lookahead `(?=\n|stop|$)` may end a lazy `.*?`: the end of the text,
      a newline, or an occurrence of `stop`. */
  predicate Boundary(s: string, stop: string, k: nat)
  {
    k <= |s| && (k == |s| || s[k] == '\n' || At(s, k, stop))
  }

  /** `e` is the first boundary at or after `k`. */
  predicate FirstBoundary(s: string, stop: string, k: nat, e: nat)
  {
    k <= e && Boundary(s, stop, e) && forall j :: k <= j < e ==> !Boundary(s, stop, j)
  }

  /** Python's lookahead `(?=\n|stop|$)` tried at index `k`. */
  predicate Lookahead(s: string, stop: string, k: nat)
    requires k <= |s|
  {
    (k < |s| && s[k] == '\n') || At(s, k, stop) || k == |s| || (k == |s| - 1 && s[k] == '\n')
  }

  /** `(.*?)(?=\n|stop|$)` from index `k`: the lazy body first tries to stop, and
      consumes one more character only when the lookahead fails there. A failed
      lookahead means the next character exists and is not a newline, so `.`
      always consumes it and this piece never fails. */
  function LazyToLookahead(s: string, stop: string, k: nat): (e: nat)
    requires k <= |s|
    decreases |s| - k
    ensures k <= e <= |s|
  {
    if Lookahead(s, stop, k) then k else LazyToLookahead(s, stop, k + 1)
  }

  /** The lazy body stops at the first boundary. */
  lemma {:induction false} LazyToLookaheadFirst(s: string, stop: string, k: nat)
    requires k <= |s|
    decreases |s| - k
    ensures FirstBoundary(s, stop, k, LazyToLookahead(s, stop, k))
  {
    if !Lookahead(s, stop, k) {
      LazyToLookaheadFirst(s, stop, k + 1);
    }
  }

  lemma FirstBoundaryUnique(s: string, stop: string, k: nat, e1: nat, e2: nat)
    requires FirstBoundary(s, stop, k, e1) && FirstBoundary(s, stop, k, e2)
    ensures e1 == e2
  {
  }

  /** `c` is the first occurrence of `ch` at or after `k`, and no newline comes before it. */
  predicate FirstOnLine(s: string, k: nat, c: nat, ch: char)
  {
    k <= c < |s| && s[c] == ch && forall j :: k <= j < c ==> s[j] != ch && s[j] != '\n'
  }

  lemma FirstOnLineUnique(s: string, k: nat, c1: nat, c2: nat, ch: char)
    requires FirstOnLine(s, k, c1, ch) && FirstOnLine(s, k, c2, ch)
    ensures c1 == c2
  {
  }

  /** `.*?` followed by the literal `ch`, from index `k`: the index of that `ch`. */
  function LazyTo(s: string, k: nat, ch: char): (r: Option<nat>)
    requires k <= |s|
    decreases |s| - k
    ensures r.Some? ==> k <= r.value < |s|
  {
    if k == |s| then None
    else if s[k] == ch then Some(k)
    else if s[k] == '\n' then None
    else LazyTo(s, k + 1, ch)
  }

  /** The lazy filler stops at the first `ch` on the line, and fails when the
      line ends first. */
  lemma {:induction false} LazyToFirst(s: string, k: nat, ch: char)
    requires k <= |s|
    requires ch != '\n'
    decreases |s| - k
    ensures var r := LazyTo(s, k, ch);
      (r.Some? ==> FirstOnLine(s, k, r.value, ch)) &&
      (r.None? ==> forall c: nat :: !FirstOnLine(s, k, c, ch))
  {
    if k < |s| && s[k] != ch && s[k] != '\n' {
      LazyToFirst(s, k + 1, ch);
      assert forall c: nat :: FirstOnLine(s, k, c, ch) ==> FirstOnLine(s, k + 1, c, ch);
    }
  }

  /** A complete `key…close` starts at `x`, its `close` at `h` on the same line. */
  predicate KeyAt(s: string, key: string, close: char, x: nat, h: nat)
  {
    At(s, x, key) && FirstOnLine(s, x + |key|, h, close)
  }

  /** The lazy `.*?` that starts at `m` stops at `x`, in front of the first
      complete `key…close` it can reach without crossing a newline. */
  ghost predicate KeyAfter(s: string, key: string, close: char, m: nat, x: nat, h: nat)
  {
    m <= x && OnLine(s, m, x) && KeyAt(s, key, close, x, h) &&
    forall y: nat, h': nat :: m <= y < x ==> !KeyAt(s, key, close, y, h')
  }

  lemma KeyAfterUnique(s: string, key: string, close: char, m: nat, x1: nat, h1: nat, x2: nat, h2: nat)
    requires KeyAfter(s, key, close, m, x1, h1) && KeyAfter(s, key, close, m, x2, h2)
    ensures x1 == x2 && h1 == h2
  {
    assert x1 == x2;
    FirstOnLineUnique(s, x1 + |key|, h1, h2, close);
  }

  /** `.*?key(.*?)close` from index `m`: the lazy filler first tries the rest of
      the pattern and consumes one more (non-newline) character only when the
      rest fails there. The result is the span of the group. */
  function LazyToKey(s: string, m: nat, key: string, close: char): (r: Option<Span>)
    requires m <= |s|
    decreases |s| - m
    ensures r.Some? ==> m + |key| <= r.value.lo <= r.value.hi < |s|
  {
    var g := m + |key|;
    if At(s, m, key) && LazyTo(s, g, close).Some? then
      Some(Span(g, LazyTo(s, g, close).value))
    else if m < |s| && s[m] != '\n' then
      LazyToKey(s, m + 1, key, close)
    else
      None
  }

  /** Stepping the filler over a character that starts no `key…close` keeps
      the nearest one it reaches. */
  lemma KeyAfterStep(s: string, key: string, close: char, m: nat, x: nat, h: nat)
    requires m < |s| && s[m] != '\n'
    requires forall h': nat :: !KeyAt(s, key, close, m, h')
    requires KeyAfter(s, key, close, m + 1, x, h)
    ensures KeyAfter(s, key, close, m, x, h)
  {
  }

  /** Stepping the filler over a character that starts no `key…close` keeps the
      rest of the line free of them. */
  lemma NoKeyStep(s: string, key: string, close: char, m: nat)
    requires m < |s| && s[m] != '\n'
    requires forall h': nat :: !KeyAt(s, key, close, m, h')
    requires forall y: nat, h: nat :: m + 1 <= y && OnLine(s, m + 1, y) ==> !KeyAt(s, key, close, y, h)
    ensures forall y: nat, h: nat :: m <= y && OnLine(s, m, y) ==> !KeyAt(s, key, close, y, h)
  {
    forall y: nat, h: nat | m <= y && OnLine(s, m, y) ensures !KeyAt(s, key, close, y, h) {
      if y > m {
        assert OnLine(s, m + 1, y);
      }
    }
  }

  /** The filler's first try, at `m` itself: either a complete `key…close`
      starts there, or none does. */
  lemma KeyHere(s: string, key: string, close: char, m: nat)
    requires close != '\n'
    ensures At(s, m, key) && LazyTo(s, m + |key|, close).Some? ==>
      KeyAfter(s, key, close, m, m, LazyTo(s, m + |key|, close).value)
    ensures !(At(s, m, key) && LazyTo(s, m + |key|, close).Some?) ==>
      forall h: nat :: !KeyAt(s, key, close, m, h)
  {
    if At(s, m, key) {
      LazyToFirst(s, m + |key|, close);
    }
  }

  /** At the end of a line the filler can go no further. */
  lemma NoKeyAtLineEnd(s: string, key: string, close: char, m: nat)
    requires m == |s| || (m < |s| && s[m] == '\n')
    requires forall h: nat :: !KeyAt(s, key, close, m, h)
    ensures forall y: nat, h: nat :: m <= y && OnLine(s, m, y) ==> !KeyAt(s, key, close, y, h)
  {
    forall y: nat, h: nat | m <= y && OnLine(s, m, y) ensures !KeyAt(s, key, close, y, h) {
      assert y == m;
    }
  }

  /** The filler stops in front of the nearest complete `key…close` on the
      line, and the piece fails when the line holds none. */
  lemma {:induction false} LazyToKeyFirst(s: string, m: nat, key: string, close: char)
    requires m <= |s|
    requires close != '\n'
    decreases |s| - m
    ensures var r := LazyToKey(s, m, key, close);
      r.Some? ==> KeyAfter(s, key, close, m, r.value.lo - |key|, r.value.hi)
    ensures var r := LazyToKey(s, m, key, close);
      r.None? ==> forall y: nat, h: nat :: m <= y && OnLine(s, m, y) ==> !KeyAt(s, key, close, y, h)
  {
    KeyHere(s, key, close, m);
    if !(At(s, m, key) && LazyTo(s, m + |key|, close).Some?) {
      if m < |s| && s[m] != '\n' {
        LazyToKeyFirst(s, m + 1, key, close);
        var r := LazyToKey(s, m + 1, key, close);
        if r.Some? {
          KeyAfterStep(s, key, close, m, r.value.lo - |key|, r.value.hi);
        } else {
          NoKeyStep(s, key, close, m);
        }
      } else {
        NoKeyAtLineEnd(s, key, close, m);
      }
    }
  }

  // ---------------------------------------------------------------------------
  // Matching one pattern at one position, and `re.search`.
  // ---------------------------------------------------------------------------

  /** The group span when `pat` matches starting exactly at index `p`. */
  function MatchAt(pat: Pattern, s: string, p: nat): (r: Option<Span>)
    ensures r.Some? ==> p <= r.value.lo <= r.value.hi <= |s|
  {
    match pat
    case Braced(prefix, open, close) =>
      var b := p + |prefix|;
      if At(s, p, prefix) && b < |s| && s[b] == open then
        match LazyTo(s, b + 1, close)
        case Some(c) => Some(Span(b, c + 1))
        case None => None
      else None
    case Line(marker, stop) =>
      if At(s, p, marker) then Some(Span(p + |marker|, LazyToLookahead(s, stop, p + |marker|)))
      else None
    case Quoted(head, key, close) =>
      if At(s, p, head) then LazyToKey(s, p + |head|, key, close) else None
  }

  /** The outcome of trying `pat` at every index of `s`, the end included. */
  function Attempts(pat: Pattern, s: string): (ms: seq<Option<Span>>)
    ensures |ms| == |s| + 1
    ensures forall q: nat :: q <= |s| ==> ms[q] == MatchAt(pat, s, q)
  {
    seq(|s| + 1, (q: int) requires 0 <= q => MatchAt(pat, s, q))
  }

  /** The first success among the attempts from index `p` on. */
  function Leftmost(ms: seq<Option<Span>>, p: nat): (r: Option<Found>)
    decreases |ms| - p
    ensures r.Some? ==> p <= r.value.at < |ms| && ms[r.value.at] == Some(r.value.group)
  {
    if p >= |ms| then None
    else
      match ms[p]
      case Some(g) => Some(Found(p, g))
      case None => Leftmost(ms, p + 1)
  }

  /** The scan reports the first success at or after `p`, and nothing when
      every attempt from `p` on fails. */
  lemma {:induction false} LeftmostFirst(ms: seq<Option<Span>>, p: nat)
    decreases |ms| - p
    ensures var r := Leftmost(ms, p);
      r.None? <==> forall q :: p <= q < |ms| ==> ms[q].None?
    ensures var r := Leftmost(ms, p);
      r.Some? ==> forall q :: p <= q < r.value.at ==> ms[q].None?
  {
    if p < |ms| && ms[p].None? {
      LeftmostFirst(ms, p + 1);
    }
  }

  /** `re.search(pat, s[p:])`, positions counted in `s`: the pattern tried at `p`,
      `p + 1`, … up to the end of the text, the first success winning. */
  function Search(pat: Pattern, s: string, p: nat): (r: Option<Found>)
    ensures r.Some? ==> r.value.group.lo <= r.value.group.hi <= |s|
  {
    Leftmost(Attempts(pat, s), p)
  }

  /** The search reports the leftmost start at or after `p` from which the
      pattern matches, and finds nothing when it matches from none. */
  lemma SearchLeftmost(pat: Pattern, s: string, p: nat)
    ensures var r := Search(pat, s, p);
      r.None? <==> forall q: nat :: p <= q <= |s| ==> MatchAt(pat, s, q).None?
    ensures var r := Search(pat, s, p);
      r.Some? ==>
        p <= r.value.at <= |s| && MatchAt(pat, s, r.value.at) == Some(r.value.group) &&
        forall q: nat :: p <= q < r.value.at ==> MatchAt(pat, s, q).None?
  {
    LeftmostFirst(Attempts(pat, s), p);
  }

  /** `re.search` reports the match at `p` exactly when the pattern matches at
      `p` and at no earlier index. */
  lemma SearchFinds(pat: Pattern, s: string, p: nat, g: Span)
    ensures Search(pat, s, 0) == Some(Found(p, g)) <==>
      MatchAt(pat, s, p) == Some(g) && forall q: nat :: q < p ==> MatchAt(pat, s, q).None?
  {
    SearchLeftmost(pat, s, 0);
    if MatchAt(pat, s, p) == Some(g) && forall q: nat :: q < p ==> MatchAt(pat, s, q).None? {
      var r := Search(pat, s, 0);
      assert r.Some?;
      assert r.value.at == p;
    }
  }

  /** `re.search` finds nothing exactly when the pattern matches nowhere. */
  lemma SearchMissing(pat: Pattern, s: string)
    ensures Search(pat, s, 0).None? <==> forall q: nat :: MatchAt(pat, s, q).None?
  {
    SearchLeftmost(pat, s, 0);
  }

  // ---------------------------------------------------------------------------
  // What each shape finds, stated without the engine.
  // ---------------------------------------------------------------------------

  /** `p` is the first index at which `pat` occurs in `s`. */
  ghost predicate FirstAt(s: string, pat: string, p: nat)
  {
    At(s, p, pat) && forall q: nat :: q < p ==> !At(s, q, pat)
  }

  /** A line field matches wherever its marker occurs, and its group runs from
      the marker to the first boundary. */
  lemma LineMatchAt(pat: Pattern, s: string, q: nat, e: nat)
    requires pat.Line?
    ensures MatchAt(pat, s, q).Some? <==> At(s, q, pat.marker)
    ensures MatchAt(pat, s, q) == Some(Span(q + |pat.marker|, e)) <==>
      At(s, q, pat.marker) && FirstBoundary(s, pat.stop, q + |pat.marker|, e)
  {
    var k := q + |pat.marker|;
    if At(s, q, pat.marker) {
      LazyToLookaheadFirst(s, pat.stop, k);
      if FirstBoundary(s, pat.stop, k, e) {
        FirstBoundaryUnique(s, pat.stop, k, e, LazyToLookahead(s, pat.stop, k));
      }
    }
  }

  /** `Thought:(.*?)(?=\n|Action:|$)` and its kind find the first occurrence of
      their marker, and the group runs from just after it up to the first
      newline, stop marker or end of text. */
  lemma LineSearch(pat: Pattern, s: string, p: nat, e: nat)
    requires pat.Line?
    ensures Search(pat, s, 0) == Some(Found(p, Span(p + |pat.marker|, e))) <==>
      FirstAt(s, pat.marker, p) && FirstBoundary(s, pat.stop, p + |pat.marker|, e)
  {
    SearchFinds(pat, s, p, Span(p + |pat.marker|, e));
    LineMatchAt(pat, s, p, e);
    forall q: nat ensures MatchAt(pat, s, q).None? <==> !At(s, q, pat.marker) {
      LineMatchAt(pat, s, q, 0);
    }
  }

  /** A line field finds nothing exactly when its marker does not occur. */
  lemma LineSearchMissing(pat: Pattern, s: string)
    requires pat.Line?
    ensures Search(pat, s, 0).None? <==> forall q: nat :: !At(s, q, pat.marker)
  {
    SearchMissing(pat, s);
    forall q: nat ensures MatchAt(pat, s, q).None? <==> !At(s, q, pat.marker) {
      LineMatchAt(pat, s, q, 0);
    }
  }

  /** `prefix` then `open` at `q`, closed by the `close` at `c`: the first one
      after `open`, with no newline before it. */
  ghost predicate BracedAt(pat: Pattern, s: string, q: nat, c: nat)
    requires pat.Braced?
  {
    var b := q + |pat.prefix|;
    At(s, q, pat.prefix) && b < |s| && s[b] == pat.open && FirstOnLine(s, b + 1, c, pat.close)
  }

  /** A braced group matches at `q` exactly when some `close` ends it on the
      line, and its group runs from `open` to the first such `close`. */
  lemma BracedMatchAt(pat: Pattern, s: string, q: nat, c: nat)
    requires pat.Braced? && pat.Valid()
    ensures MatchAt(pat, s, q).None? <==> forall c': nat :: !BracedAt(pat, s, q, c')
    ensures MatchAt(pat, s, q) == Some(Span(q + |pat.prefix|, c + 1)) <==> BracedAt(pat, s, q, c)
  {
    var b := q + |pat.prefix|;
    if At(s, q, pat.prefix) && b < |s| && s[b] == pat.open {
      LazyToFirst(s, b + 1, pat.close);
      var r := LazyTo(s, b + 1, pat.close);
      if r.Some? {
        assert BracedAt(pat, s, q, r.value);
        if BracedAt(pat, s, q, c) {
          FirstOnLineUnique(s, b + 1, c, r.value, pat.close);
        }
      }
    }
  }

  /** `Observation: ({.*?})` and its kind capture, in the first place where a
      `close` ends the group on its line, from `open` up to and including the
      first such `close`. */
  lemma BracedSearch(pat: Pattern, s: string, p: nat, c: nat)
    requires pat.Braced? && pat.Valid()
    ensures Search(pat, s, 0) == Some(Found(p, Span(p + |pat.prefix|, c + 1))) <==>
      BracedAt(pat, s, p, c) && forall q: nat, c': nat :: q < p ==> !BracedAt(pat, s, q, c')
  {
    SearchFinds(pat, s, p, Span(p + |pat.prefix|, c + 1));
    BracedMatchAt(pat, s, p, c);
    if Search(pat, s, 0) == Some(Found(p, Span(p + |pat.prefix|, c + 1))) {
      forall q: nat, c': nat | q < p ensures !BracedAt(pat, s, q, c') {
        BracedMatchAt(pat, s, q, c');
      }
    }
    if BracedAt(pat, s, p, c) && forall q: nat, c': nat :: q < p ==> !BracedAt(pat, s, q, c') {
      forall q: nat | q < p ensures MatchAt(pat, s, q).None? {
        BracedMatchAt(pat, s, q, 0);
      }
    }
  }

  /** A braced group finds nothing exactly when no `prefix` and `open` are
      followed by a `close` on their line. */
  lemma BracedSearchMissing(pat: Pattern, s: string)
    requires pat.Braced? && pat.Valid()
    ensures Search(pat, s, 0).None? <==> forall q: nat, c: nat :: !BracedAt(pat, s, q, c)
  {
    SearchMissing(pat, s);
    if Search(pat, s, 0).None? {
      forall q: nat, c: nat ensures !BracedAt(pat, s, q, c) {
        BracedMatchAt(pat, s, q, c);
      }
    } else {
      SearchLeftmost(pat, s, 0);
      BracedMatchAt(pat, s, Search(pat, s, 0).value.at, 0);
    }
  }

  /** The text a braced group captures starts with `open`, ends with `close`,
      holds no newline, and holds no other `close` after `open`: a nested
      object is cut at its first inner `close`. */
  lemma BracedGroupShape(pat: Pattern, s: string)
    requires pat.Braced? && pat.Valid()
    requires Search(pat, s, 0).Some?
    ensures var g := Group(s, Search(pat, s, 0).value);
      |g| >= 2 && g[0] == pat.open && g[|g| - 1] == pat.close &&
      (forall i :: 0 <= i < |g| ==> g[i] != '\n') &&
      (forall i :: 1 <= i < |g| - 1 ==> g[i] != pat.close)
  {
    SearchLeftmost(pat, s, 0);
    var f := Search(pat, s, 0).value;
    var b := f.at + |pat.prefix|;
    LazyToFirst(s, b + 1, pat.close);
    var c := LazyTo(s, b + 1, pat.close).value;
    assert f.group == Span(b, c + 1);
    BracedSpan(s, b, c, pat.open, pat.close);
  }

  /** The text from an `open` up to the first `close` after it on its line. */
  lemma BracedSpan(s: string, b: nat, c: nat, open: char, close: char)
    requires b < |s| && s[b] == open && open != '\n' && close != '\n'
    requires FirstOnLine(s, b + 1, c, close)
    ensures var g := s[b..c + 1];
      |g| >= 2 && g[0] == open && g[|g| - 1] == close &&
      (forall i :: 0 <= i < |g| ==> g[i] != '\n') &&
      (forall i :: 1 <= i < |g| - 1 ==> g[i] != close)
  {
  }

  /** The text from `lo` up to the first `close` on the line holds neither
      that character nor a newline. */
  lemma ClosedSpan(s: string, lo: nat, c: nat, close: char)
    requires FirstOnLine(s, lo, c, close)
    ensures forall i :: 0 <= i < c - lo ==> s[lo..c][i] != close && s[lo..c][i] != '\n'
  {
  }

  /** A complete `head…key…close` on one line: `head` at `q`, `key` at `x`, the
      closing character at `h`. */
  ghost predicate QuotedCandidate(pat: Pattern, s: string, q: nat, x: nat, h: nat)
    requires pat.Quoted?
  {
    var m := q + |pat.head|;
    At(s, q, pat.head) && m <= x && OnLine(s, m, x) && KeyAt(s, pat.key, pat.close, x, h)
  }

  /** The match the lazy filler settles on from `q`: the nearest `key…close`. */
  ghost predicate QuotedAt(pat: Pattern, s: string, q: nat, x: nat, h: nat)
    requires pat.Quoted?
  {
    At(s, q, pat.head) && KeyAfter(s, pat.key, pat.close, q + |pat.head|, x, h)
  }

  /** A quoted value matches at `q` exactly when a candidate starts there, and
      its group is the nearest candidate's value. */
  lemma QuotedMatchAt(pat: Pattern, s: string, q: nat, x: nat, h: nat)
    requires pat.Quoted? && pat.Valid()
    ensures MatchAt(pat, s, q).None? <==> forall x': nat, h': nat :: !QuotedCandidate(pat, s, q, x', h')
    ensures MatchAt(pat, s, q) == Some(Span(x + |pat.key|, h)) <==> QuotedAt(pat, s, q, x, h)
  {
    var m := q + |pat.head|;
    if At(s, q, pat.head) {
      LazyToKeyFirst(s, m, pat.key, pat.close);
      var r := LazyToKey(s, m, pat.key, pat.close);
      if r.Some? {
        QuotedNearest(pat, s, q, x, h, r.value);
      } else {
        assert forall x': nat, h': nat :: !QuotedCandidate(pat, s, q, x', h');
      }
    }
  }

  /** When the filler settles on `g`, that is a candidate, and the only place
      the lazy filler can settle. */
  lemma QuotedNearest(pat: Pattern, s: string, q: nat, x: nat, h: nat, g: Span)
    requires pat.Quoted?
    requires At(s, q, pat.head) && |pat.key| <= g.lo
    requires KeyAfter(s, pat.key, pat.close, q + |pat.head|, g.lo - |pat.key|, g.hi)
    ensures QuotedCandidate(pat, s, q, g.lo - |pat.key|, g.hi)
    ensures g == Span(x + |pat.key|, h) <==> QuotedAt(pat, s, q, x, h)
  {
    if QuotedAt(pat, s, q, x, h) {
      KeyAfterUnique(s, pat.key, pat.close, q + |pat.head|, x, h, g.lo - |pat.key|, g.hi);
    }
  }

  /** `"action": "Final Answer".*?"action_input": "(.*?)"` and its kind capture,
      in the first line-local candidate, the text between the nearest `key` and
      the next closing character. */
  lemma QuotedSearch(pat: Pattern, s: string, p: nat, x: nat, h: nat)
    requires pat.Quoted? && pat.Valid()
    ensures Search(pat, s, 0) == Some(Found(p, Span(x + |pat.key|, h))) <==>
      QuotedAt(pat, s, p, x, h) && forall q: nat, x': nat, h': nat :: q < p ==> !QuotedCandidate(pat, s, q, x', h')
  {
    SearchFinds(pat, s, p, Span(x + |pat.key|, h));
    QuotedMatchAt(pat, s, p, x, h);
    if Search(pat, s, 0) == Some(Found(p, Span(x + |pat.key|, h))) {
      forall q: nat, x': nat, h': nat | q < p ensures !QuotedCandidate(pat, s, q, x', h') {
        QuotedMatchAt(pat, s, q, x', h');
      }
    }
    if QuotedAt(pat, s, p, x, h) && forall q: nat, x': nat, h': nat :: q < p ==> !QuotedCandidate(pat, s, q, x', h') {
      forall q: nat | q < p ensures MatchAt(pat, s, q).None? {
        QuotedMatchAt(pat, s, q, 0, 0);
      }
    }
  }

  /** A quoted value finds nothing exactly when no line-local candidate exists. */
  lemma QuotedSearchMissing(pat: Pattern, s: string)
    requires pat.Quoted? && pat.Valid()
    ensures Search(pat, s, 0).None? <==> forall q: nat, x: nat, h: nat :: !QuotedCandidate(pat, s, q, x, h)
  {
    SearchMissing(pat, s);
    if Search(pat, s, 0).None? {
      forall q: nat, x: nat, h: nat ensures !QuotedCandidate(pat, s, q, x, h) {
        QuotedMatchAt(pat, s, q, x, h);
      }
    } else {
      SearchLeftmost(pat, s, 0);
      QuotedMatchAt(pat, s, Search(pat, s, 0).value.at, 0, 0);
    }
  }

  /** The captured value is the shortest text up to the closing character: it
      holds neither that character nor a newline, and the closing character
      follows it. */
  lemma QuotedGroupShape(pat: Pattern, s: string)
    requires pat.Quoted? && pat.Valid()
    requires Search(pat, s, 0).Some?
    ensures var f := Search(pat, s, 0).value;
      var g := Group(s, f);
      f.group.hi < |s| && s[f.group.hi] == pat.close &&
      forall i :: 0 <= i < |g| ==> g[i] != pat.close && g[i] != '\n'
  {
    SearchLeftmost(pat, s, 0);
    var f := Search(pat, s, 0).value;
    var m := f.at + |pat.head|;
    assert LazyToKey(s, m, pat.key, pat.close) == Some(f.group);
    LazyToKeyFirst(s, m, pat.key, pat.close);
    ClosedSpan(s, f.group.lo, f.group.hi, pat.close);
  }
}
