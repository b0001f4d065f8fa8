/**
 * The regular expressions of the failure-report extractor, each as a
 * hand-written scanner.
 *
 * For every pattern there is a predicate that says when the pattern matches
 * at a given place with given group boundaries (greedy runs maximal, as the
 * engine reports them), a function that decides the match at one start
 * position, and a search that returns the match `re.search` reports: the
 * leftmost start and, at that start, the choice the engine's backtracking
 * makes first.
 */
module Patterns {
  import opened Wrappers
  import opened Text

  /**
   * A text character against a lower-case pattern character under
   * `re.IGNORECASE`, including the engine's extra equivalences
   * i ~ U+0130/U+0131, k ~ U+212A (Kelvin sign) and s ~ U+017F (long s).
   */
  predicate FoldEq(c: char, p: char) {
    c == p
    || ('a' <= p <= 'z' && c as int == p as int - 32)
    || (p == 'i' && (c == '\U{130}' || c == '\U{131}'))
    || (p == 'k' && c == '\U{212a}')
    || (p == 's' && c == '\U{17f}')
  }

  /** The lower-case word `w` occurs at `i`, ignoring case. */
  predicate FoldPrefixAt(s: string, i: int, w: string) {
    0 <= i && i + |w| <= |s| && forall k :: 0 <= k < |w| ==> FoldEq(s[i + k], w[k])
  }

  /** The word `w` occurs at `i`, exactly. */
  predicate PrefixAt(s: string, i: int, w: string) {
    0 <= i && i + |w| <= |s| && s[i..i + |w|] == w
  }

  /** `[0-9A-Za-z_\-]` under IGNORECASE. */
  predicate IsTagChar(c: char) {
    IsDigit(c) || ('A' <= c <= 'Z') || ('a' <= c <= 'z') || c == '_' || c == '-'
    || c == '\U{130}' || c == '\U{131}' || c == '\U{17f}' || c == '\U{212a}'
  }

  predicate AllSpace(s: string, lo: int, hi: int)
    requires 0 <= lo && hi <= |s|
  {
    forall k :: lo <= k < hi ==> IsSpace(s[k])
  }

  predicate NoNewline(s: string, lo: int, hi: int)
    requires 0 <= lo && hi <= |s|
  {
    forall k :: lo <= k < hi ==> s[k] != '\n'
  }

  /** Three positions in the text: where a match starts, where its first group ends, where its second group ends. */
  datatype Span = Span(start: nat, mid: nat, stop: nat)

  // ---------------------------------------------------------------------
  // Stage 1: `re.match(r'([A-Za-z_0-9]+)(?:\:)?\s*(.*)', msg).group(1)`
  // ---------------------------------------------------------------------

  /**
   * The longest leading run of `[A-Za-z_0-9]`; the pattern matches exactly
   * when this run is not empty, and then it is group 1.
   */
  function LeadingWord(s: string): (w: string)
    ensures StartsWith(s, w)
    ensures forall k :: 0 <= k < |w| ==> IsWordChar(w[k])
    ensures |w| == |s| || !IsWordChar(s[|w|])
  {
    s[..RunEnd(s, 0, IsWordChar)]
  }

  // ---------------------------------------------------------------------
  // Stage 2: `File \"([^\"]+)\", line (\d+)`
  // ---------------------------------------------------------------------

  /** The pattern matches at `p`; group 1 is `s[p + 6..q]`, group 2 is `s[q + 8..r]`. */
  predicate TracebackAt(s: string, p: int, q: int, r: int) {
    PrefixAt(s, p, "File \"") && p + 6 < q && PrefixAt(s, q, "\", line ") && q + 8 < r <= |s|
    && (forall k :: p + 6 <= k < q ==> s[k] != '"')
    && (forall k :: q + 8 <= k < r ==> IsDigit(s[k]))
    && (r == |s| || !IsDigit(s[r]))
  }

  function MatchTracebackAt(s: string, p: nat): (m: Option<Span>)
    ensures m.Some? ==> m.value.start == p && TracebackAt(s, p, m.value.mid, m.value.stop)
    ensures forall q, r :: TracebackAt(s, p, q, r) ==> m == Some(Span(p, q, r))
  {
    if !PrefixAt(s, p, "File \"") then None
    else
      var q := RunEnd(s, p + 6, c => c != '"');
      TracebackPathEnds(s, p, q);
      if q == p + 6 || !PrefixAt(s, q, "\", line ") then None
      else
        var r := RunEnd(s, q + 8, IsDigit);
        if r == q + 8 then None else Some(Span(p, q, r))
  }

  /** The path group stops at the first '"': no other end is possible. */
  lemma TracebackPathEnds(s: string, p: nat, q: nat)
    requires p + 6 <= q <= |s|
    requires forall k :: p + 6 <= k < q ==> s[k] != '"'
    requires q == |s| || s[q] == '"'
    ensures forall q', r' :: TracebackAt(s, p, q', r') ==> q' == q
  {
    forall q', r' | TracebackAt(s, p, q', r') ensures q' == q {
      assert s[q'] == s[q'..q' + 8][0] == '"';
    }
  }

  /** `re.search` from position `i`: the leftmost match, unique at its start. */
  function SearchTraceback(s: string, i: nat): (m: Option<Span>)
    requires i <= |s|
    ensures m.Some? ==> i <= m.value.start && TracebackAt(s, m.value.start, m.value.mid, m.value.stop)
    ensures forall p, q, r :: i <= p && TracebackAt(s, p, q, r) ==>
              m.Some? && (m.value.start < p || m.value == Span(p, q, r))
    decreases |s| - i
  {
    if i == |s| then None
    else match MatchTracebackAt(s, i)
      case Some(sp) => Some(sp)
      case None => SearchTraceback(s, i + 1)
  }

  /** `(p, q, r)` is the match `re.search` reports: no match starts before it. */
  ghost predicate FirstTraceback(s: string, p: int, q: int, r: int) {
    TracebackAt(s, p, q, r) && forall p', q', r' :: TracebackAt(s, p', q', r') ==> p <= p'
  }

  /** The search from the start of the text returns the first match and nothing else. */
  lemma SearchTracebackIsFirst(s: string)
    ensures SearchTraceback(s, 0).Some? ==>
              var m := SearchTraceback(s, 0).value; FirstTraceback(s, m.start, m.mid, m.stop)
    ensures forall p, q, r :: FirstTraceback(s, p, q, r) ==> SearchTraceback(s, 0) == Some(Span(p, q, r))
  {
  }

  /** The first match, as the search reports it. */
  lemma FirstTracebackFound(s: string, p: int, q: int, r: int)
    requires FirstTraceback(s, p, q, r)
    ensures SearchTraceback(s, 0) == Some(Span(p, q, r))
  {
    SearchTracebackIsFirst(s);
  }

  // ---------------------------------------------------------------------
  // Stage 3: `([^\s:][^:\n]+):(\d+)(?:[:\s]|$)`
  // ---------------------------------------------------------------------

  /** The pattern matches at `p`; group 1 is `s[p..q]`, group 2 is `s[q + 1..r]`. */
  predicate CompactAt(s: string, p: int, q: int, r: int) {
    0 <= p && p + 2 <= q && q + 1 < r <= |s|
    && !IsSpace(s[p]) && s[p] != ':'
    && (forall k :: p < k < q ==> s[k] != ':' && s[k] != '\n')
    && s[q] == ':'
    && (forall k :: q < k < r ==> IsDigit(s[k]))
    && (r == |s| || s[r] == ':' || IsSpace(s[r]))
  }

  function MatchCompactAt(s: string, p: nat): (m: Option<Span>)
    ensures m.Some? ==> m.value.start == p && CompactAt(s, p, m.value.mid, m.value.stop)
    ensures forall q, r :: CompactAt(s, p, q, r) ==> m == Some(Span(p, q, r))
  {
    if p >= |s| || IsSpace(s[p]) || s[p] == ':' then None
    else
      var q := RunEnd(s, p + 1, c => c != ':' && c != '\n');
      if q < p + 2 || q == |s| || s[q] != ':' then None
      else
        var r := RunEnd(s, q + 1, IsDigit);
        if r == q + 1 || !(r == |s| || s[r] == ':' || IsSpace(s[r])) then None
        else Some(Span(p, q, r))
  }

  function SearchCompact(s: string, i: nat): (m: Option<Span>)
    requires i <= |s|
    ensures m.Some? ==> i <= m.value.start && CompactAt(s, m.value.start, m.value.mid, m.value.stop)
    ensures forall p, q, r :: i <= p && CompactAt(s, p, q, r) ==>
              m.Some? && (m.value.start < p || m.value == Span(p, q, r))
    decreases |s| - i
  {
    if i == |s| then None
    else match MatchCompactAt(s, i)
      case Some(sp) => Some(sp)
      case None => SearchCompact(s, i + 1)
  }

  /** `(p, q, r)` is the match `re.search` reports: no match starts before it. */
  ghost predicate FirstCompact(s: string, p: int, q: int, r: int) {
    CompactAt(s, p, q, r) && forall p', q', r' :: CompactAt(s, p', q', r') ==> p <= p'
  }

  /** The search from the start of the text returns the first match and nothing else. */
  lemma SearchCompactIsFirst(s: string)
    ensures SearchCompact(s, 0).Some? ==>
              var m := SearchCompact(s, 0).value; FirstCompact(s, m.start, m.mid, m.stop)
    ensures forall p, q, r :: FirstCompact(s, p, q, r) ==> SearchCompact(s, 0) == Some(Span(p, q, r))
  {
  }

  /** The first match, as the search reports it. */
  lemma FirstCompactFound(s: string, p: int, q: int, r: int)
    requires FirstCompact(s, p, q, r)
    ensures SearchCompact(s, 0) == Some(Span(p, q, r))
  {
    SearchCompactIsFirst(s);
  }

  // ---------------------------------------------------------------------
  // Stage 4: `FAILURE:\s*(check\s+(.+?)\s*:\s*(MR[0-9A-Za-z_\-]+|.+))`, IGNORECASE
  // ---------------------------------------------------------------------

  /**
   * What follows the expression: `\s*:\s*` and then at least one character
   * other than a newline. (The alternative `MR…` starts with such a
   * character, so it adds no match of its own.)
   */
  predicate CheckTailAt(s: string, e: int) {
    0 <= e <= |s| &&
    var q := SkipSpaces(s, e);
    q < |s| && s[q] == ':' &&
    exists t :: q < t < |s| && s[t] != '\n' && AllSpace(s, q + 1, t)
  }

  /** After "check" (ending at `c5`): `\s+` up to `b`, then group 2 `s[b..e]` on one line, then the tail. */
  predicate ExprAt(s: string, c5: int, b: int, e: int) {
    0 <= c5 < b < e <= |s| && AllSpace(s, c5, b) && NoNewline(s, b, e) && CheckTailAt(s, e)
  }

  /** The pattern matches at `p` with group 2 `s[b..e]`. */
  predicate CheckAt(s: string, p: int, b: int, e: int) {
    FoldPrefixAt(s, p, "failure:") &&
    var c := SkipSpaces(s, p + 8);
    FoldPrefixAt(s, c, "check") && ExprAt(s, c + 5, b, e)
  }

  /** Group 2's boundaries: where it starts and where it ends. */
  datatype CheckSpan = CheckSpan(start: nat, exprStart: nat, exprEnd: nat)

  /**
   * The engine's order of preference between two matches: the leftmost
   * start; then the longest `\s+` (greedy, so it gives back characters only
   * when nothing else works); then the shortest group 2 (lazy `.+?`).
   */
  predicate CheckPreferred(m: CheckSpan, p: int, b: int, e: int) {
    m.start < p || (m.start == p && (m.exprStart > b || (m.exprStart == b && m.exprEnd <= e)))
  }

  /** The shortest group 2 starting at `b` that ends at or after `e`. */
  function ShortestExprEnd(s: string, b: nat, e: nat): (r: Option<nat>)
    requires b < e <= |s| + 1
    requires NoNewline(s, b, e - 1)
    ensures r.Some? ==> e <= r.value <= |s| && NoNewline(s, b, r.value) && CheckTailAt(s, r.value)
    ensures forall e' :: e <= e' <= |s| && NoNewline(s, b, e') && CheckTailAt(s, e') ==> r.Some? && r.value <= e'
    decreases |s| + 1 - e
  {
    if e > |s| || s[e - 1] == '\n' then None
    else if CheckTailAt(s, e) then Some(e)
    else ShortestExprEnd(s, b, e + 1)
  }

  /** The match with the longest `\s+` not reaching past `b`, and for it the shortest group 2. */
  function LongestGapExpr(s: string, c5: nat, b: nat): (r: Option<(nat, nat)>)
    requires c5 <= b <= |s| && AllSpace(s, c5, b)
    ensures r.Some? ==> ExprAt(s, c5, r.value.0, r.value.1) && r.value.0 <= b
    ensures forall b', e' :: b' <= b && ExprAt(s, c5, b', e') ==>
              r.Some? && (r.value.0 > b' || (r.value.0 == b' && r.value.1 <= e'))
    decreases b
  {
    if b <= c5 then None
    else if b == |s| then LongestGapExpr(s, c5, b - 1)
    else match ShortestExprEnd(s, b, b + 1)
      case Some(e) => Some((b, e))
      case None => LongestGapExpr(s, c5, b - 1)
  }

  function MatchCheckAt(s: string, p: nat): (m: Option<CheckSpan>)
    ensures m.Some? ==> m.value.start == p && CheckAt(s, p, m.value.exprStart, m.value.exprEnd)
    ensures forall b, e :: CheckAt(s, p, b, e) ==> m.Some? && CheckPreferred(m.value, p, b, e)
  {
    if !FoldPrefixAt(s, p, "failure:") then None
    else
      var c := SkipSpaces(s, p + 8);
      if !FoldPrefixAt(s, c, "check") then None
      else
        var w := SkipSpaces(s, c + 5);
        match LongestGapExpr(s, c + 5, w)
        case Some((b, e)) => Some(CheckSpan(p, b, e))
        case None => None
  }

  function SearchCheck(s: string, i: nat): (m: Option<CheckSpan>)
    requires i <= |s|
    ensures m.Some? ==> i <= m.value.start && CheckAt(s, m.value.start, m.value.exprStart, m.value.exprEnd)
    ensures forall p, b, e :: i <= p && CheckAt(s, p, b, e) ==> m.Some? && CheckPreferred(m.value, p, b, e)
    decreases |s| - i
  {
    if i == |s| then None
    else match MatchCheckAt(s, i)
      case Some(cs) => Some(cs)
      case None =>
        CheckStartsAfter(s, i);
        SearchCheck(s, i + 1)
  }

  /** `(p, b, e)` is the match `re.search` reports: preferred over every other match. */
  ghost predicate FirstCheck(s: string, p: nat, b: nat, e: nat) {
    CheckAt(s, p, b, e) && forall p', b', e' :: CheckAt(s, p', b', e') ==> CheckPreferred(CheckSpan(p, b, e), p', b', e')
  }

  /** The search from the start of the text returns the preferred match and nothing else. */
  lemma SearchCheckIsFirst(s: string)
    ensures SearchCheck(s, 0).Some? ==>
              var m := SearchCheck(s, 0).value; FirstCheck(s, m.start, m.exprStart, m.exprEnd)
    ensures forall p: nat, b: nat, e: nat :: FirstCheck(s, p, b, e) ==> SearchCheck(s, 0) == Some(CheckSpan(p, b, e))
  {
    var m := SearchCheck(s, 0);
    forall p: nat, b: nat, e: nat | FirstCheck(s, p, b, e) ensures m == Some(CheckSpan(p, b, e)) {
      assert CheckAt(s, p, b, e);
      PreferredBothWays(m.value, CheckSpan(p, b, e));
    }
  }

  /** Two matches each preferred over the other are the same match. */
  lemma PreferredBothWays(m: CheckSpan, n: CheckSpan)
    requires CheckPreferred(m, n.start, n.exprStart, n.exprEnd)
    requires CheckPreferred(n, m.start, m.exprStart, m.exprEnd)
    ensures m == n
  {
  }

  /** With no match at `i`, every match at or after `i` starts after it. */
  lemma CheckStartsAfter(s: string, i: nat)
    requires MatchCheckAt(s, i).None?
    ensures forall p, b, e :: i <= p && CheckAt(s, p, b, e) ==> i < p
  {
  }

  // ---------------------------------------------------------------------
  // Stage 4, failure reason: `MR[0-9A-Za-z_\-]+` and
  // `(MR[0-9A-Za-z_\-]+(?:_\d+)?)\s*failed`, both IGNORECASE
  // ---------------------------------------------------------------------

  /** `re.search(r'MR[0-9A-Za-z_\-]+', s, re.IGNORECASE)` succeeds. */
  predicate HasTagToken(s: string) {
    exists i :: 0 <= i < |s| && FoldPrefixAt(s, i, "mr") && i + 2 < |s| && IsTagChar(s[i + 2])
  }

  /**
   * `MR…failed` matches at `i` with the label ending at `t`; the match ends
   * six characters after the whitespace that follows `t`. The optional
   * `(?:_\d+)` consists of label characters, so it adds no match of its own.
   */
  predicate TagAt(s: string, i: int, t: int) {
    FoldPrefixAt(s, i, "mr") && i + 3 <= t <= |s|
    && (forall k :: i + 2 <= k < t ==> IsTagChar(s[k]))
    && FoldPrefixAt(s, SkipSpaces(s, t), "failed")
  }

  /** The longest label at `i` not reaching past `t`: the greedy label gives back characters one at a time. */
  function LongestTagAt(s: string, i: nat, t: nat): (r: Option<nat>)
    requires FoldPrefixAt(s, i, "mr") && i + 2 <= t <= |s|
    requires forall k :: i + 2 <= k < t ==> IsTagChar(s[k])
    ensures r.Some? ==> TagAt(s, i, r.value) && r.value <= t
    ensures forall t' :: t' <= t && TagAt(s, i, t') ==> r.Some? && t' <= r.value
    decreases t
  {
    if t < i + 3 then None
    else if FoldPrefixAt(s, SkipSpaces(s, t), "failed") then
      assert TagAt(s, i, t);
      Some(t)
    else
      TagEndsBefore(s, i, t);
      LongestTagAt(s, i, t - 1)
  }

  /** Without "failed" after `t`, every label that ends by `t` ends before it. */
  lemma TagEndsBefore(s: string, i: nat, t: nat)
    requires t <= |s| && !FoldPrefixAt(s, SkipSpaces(s, t), "failed")
    ensures forall t' :: t' <= t && TagAt(s, i, t') ==> t' < t
  {
  }

  function MatchTagAt(s: string, i: nat): (m: Option<nat>)
    ensures m.Some? ==> TagAt(s, i, m.value)
    ensures forall t :: TagAt(s, i, t) ==> m.Some? && t <= m.value
  {
    if !FoldPrefixAt(s, i, "mr") then None
    else LongestTagAt(s, i, RunEnd(s, i + 2, IsTagChar))
  }

  /** The leftmost `MR…failed`: `start` and the label's end `mid`; `stop` ends the whole match. */
  function SearchTag(s: string, i: nat): (m: Option<Span>)
    requires i <= |s|
    ensures m.Some? ==> i <= m.value.start && TagAt(s, m.value.start, m.value.mid)
                        && m.value.stop == SkipSpaces(s, m.value.mid) + 6
    ensures forall p, t :: i <= p && TagAt(s, p, t) ==>
              m.Some? && (m.value.start < p || (m.value.start == p && t <= m.value.mid))
    decreases |s| - i
  {
    if i == |s| then None
    else match MatchTagAt(s, i)
      case Some(t) => Some(Span(i, t, SkipSpaces(s, t) + 6))
      case None =>
        TagStartsAfter(s, i);
        SearchTag(s, i + 1)
  }

  /** `(i, t)` is the match `re.search` reports: leftmost, and the longest label there. */
  ghost predicate FirstTag(s: string, i: int, t: int) {
    TagAt(s, i, t) && forall i', t' :: TagAt(s, i', t') ==> i < i' || (i == i' && t' <= t)
  }

  /** The search from the start of the text returns the first match and nothing else. */
  lemma SearchTagIsFirst(s: string)
    ensures SearchTag(s, 0).Some? ==>
              var m := SearchTag(s, 0).value; FirstTag(s, m.start, m.mid)
    ensures forall i, t :: FirstTag(s, i, t) ==>
              SearchTag(s, 0).Some? && SearchTag(s, 0).value.start == i && SearchTag(s, 0).value.mid == t
  {
  }

  /** With no match at `i`, every match at or after `i` starts after it. */
  lemma TagStartsAfter(s: string, i: nat)
    requires MatchTagAt(s, i).None?
    ensures forall p, t :: i <= p && TagAt(s, p, t) ==> i < p
  {
  }

  // ---------------------------------------------------------------------
  // Stage 6: `([A-Za-z_0-9]+Error|Exception|AssertionError|Failure|FAILURE)(?:\:)?\s*(.*)`
  // ---------------------------------------------------------------------

  /** First alternative: word characters ending in "Error", at least one before it. */
  predicate ErrorNameAt(s: string, p: int, e: int) {
    0 <= p && p + 6 <= e <= |s|
    && (forall k :: p <= k < e ==> IsWordChar(s[k]))
    && s[e - 5..e] == "Error"
  }

  /** The four literal alternatives. */
  predicate KeywordAt(s: string, p: int, e: int) {
    0 <= p <= e <= |s| && s[p..e] in {"Exception", "AssertionError", "Failure", "FAILURE"}
  }

  /** Group 1 can be `s[p..e]`. */
  predicate ExcNameAt(s: string, p: int, e: int) {
    ErrorNameAt(s, p, e) || KeywordAt(s, p, e)
  }

  /** The longest first-alternative match at `p` not reaching past `e`. */
  function LongestErrorEnd(s: string, p: nat, e: nat): (r: Option<nat>)
    requires p <= e <= |s|
    requires forall k :: p <= k < e ==> IsWordChar(s[k])
    ensures r.Some? ==> ErrorNameAt(s, p, r.value) && r.value <= e
    ensures forall e' :: e' <= e && ErrorNameAt(s, p, e') ==> r.Some? && e' <= r.value
    decreases e
  {
    if e < p + 6 then None
    else if s[e - 5..e] == "Error" then Some(e)
    else LongestErrorEnd(s, p, e - 1)
  }

  /**
   * Group 1 at `p`, as its end: the first alternative with the longest run
   * when it matches, otherwise the first literal that does.
   */
  function MatchExcAt(s: string, p: nat): (m: Option<nat>)
    requires p <= |s|
    ensures m.Some? ==> ExcNameAt(s, p, m.value)
    ensures forall e :: ExcNameAt(s, p, e) ==> m.Some?
    ensures forall e :: ErrorNameAt(s, p, e) ==> m.Some? && ErrorNameAt(s, p, m.value) && e <= m.value
  {
    match LongestErrorEnd(s, p, RunEnd(s, p, IsWordChar))
    case Some(e) => Some(e)
    case None =>
      if PrefixAt(s, p, "Exception") then Some(p + 9)
      else if PrefixAt(s, p, "AssertionError") then Some(p + 14)
      else if PrefixAt(s, p, "Failure") then Some(p + 7)
      else if PrefixAt(s, p, "FAILURE") then Some(p + 7)
      else None
  }

  /** The leftmost match: `start`, and the end of group 1 in both `mid` and `stop`. */
  function SearchExc(s: string, i: nat): (m: Option<Span>)
    requires i <= |s|
    ensures m.Some? ==> i <= m.value.start && m.value.mid == m.value.stop
                        && ExcNameAt(s, m.value.start, m.value.stop)
    ensures forall p, e :: i <= p && ExcNameAt(s, p, e) ==> m.Some? && m.value.start <= p
    ensures m.Some? ==> forall e :: ErrorNameAt(s, m.value.start, e) ==>
              ErrorNameAt(s, m.value.start, m.value.stop) && e <= m.value.stop
    decreases |s| - i
  {
    if i == |s| then None
    else match MatchExcAt(s, i)
      case Some(e) => Some(Span(i, e, e))
      case None => SearchExc(s, i + 1)
  }

  /**
   * `s[p..e]` is group 1 of the match `re.search` reports: leftmost, and at
   * that start the longest first-alternative name when there is one.
   */
  ghost predicate FirstExc(s: string, p: int, e: int) {
    ExcNameAt(s, p, e)
    && (forall p', e' :: ExcNameAt(s, p', e') ==> p <= p')
    && (forall e' :: ErrorNameAt(s, p, e') ==> ErrorNameAt(s, p, e) && e' <= e)
  }

  /** No two of the literal alternatives can both match at one place. */
  lemma KeywordUnique(s: string, p: int, e1: int, e2: int)
    requires KeywordAt(s, p, e1) && KeywordAt(s, p, e2)
    ensures e1 == e2
  {
    assert s[p..e1][0] == s[p] == s[p..e2][0];
  }

  /** The search from the start of the text returns the first match and nothing else. */
  lemma SearchExcIsFirst(s: string)
    ensures SearchExc(s, 0).Some? ==> var m := SearchExc(s, 0).value; FirstExc(s, m.start, m.stop)
    ensures forall p, e :: FirstExc(s, p, e) ==> SearchExc(s, 0) == Some(Span(p, e, e))
  {
    forall p, e | FirstExc(s, p, e) ensures SearchExc(s, 0) == Some(Span(p, e, e)) {
      var m := SearchExc(s, 0).value;
      assert m.start == p;
      if forall e' :: !ErrorNameAt(s, p, e') {
        KeywordUnique(s, p, e, m.stop);
      }
    }
  }

  /**
   * Group 2 of the stage-6 pattern when group 1 ends at `e`: skip one
   * optional ':' and then whitespace; the rest of the line.
   */
  function ExcDetail(s: string, e: nat): (g: string)
    requires e <= |s|
    ensures '\n' !in g
    ensures g == [] || !IsSpace(g[0])
    ensures var k := if e < |s| && s[e] == ':' then e + 1 else e;
            exists j :: k <= j && j + |g| <= |s| && AllSpace(s, k, j) && (j == |s| || !IsSpace(s[j]))
                        && g == s[j..j + |g|] && (j + |g| == |s| || s[j + |g|] == '\n')
  {
    var k := if e < |s| && s[e] == ':' then e + 1 else e;
    var k2 := SkipSpaces(s, k);
    assert AllSpace(s, k, k2);
    s[k2..RunEnd(s, k2, c => c != '\n')]
  }
}
