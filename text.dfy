/**
 * The parts of Python's `str` that the failure-report extractor and the
 * mutant classifier rely on: `isspace`, `strip`, `startswith`, `splitlines`,
 * `replace` and `int()` applied to a string.
 */
module Text {
  import opened Wrappers

  /** Python's `str.isspace()` for one character; `\s` in a `str` pattern matches the same set. */
  predicate IsSpace(c: char) {
    ('\t' <= c <= '\r') || ('\U{1c}' <= c <= ' ') || c == '\U{85}' || c == '\U{a0}'
    || c == '\U{1680}' || ('\U{2000}' <= c <= '\U{200a}') || c == '\U{2028}' || c == '\U{2029}'
    || c == '\U{202f}' || c == '\U{205f}' || c == '\U{3000}'
  }

  /** The characters at which `str.splitlines()` ends a line; "\r\n" is one break. */
  predicate IsLineBreak(c: char) {
    ('\n' <= c <= '\r') || ('\U{1c}' <= c <= '\U{1e}') || c == '\U{85}' || c == '\U{2028}' || c == '\U{2029}'
  }

  predicate NotLineBreak(c: char) {
    !IsLineBreak(c)
  }

  /** `[0-9]`; `\d` is modelled by the same ASCII digits. */
  predicate IsDigit(c: char) {
    '0' <= c <= '9'
  }

  /** `[A-Za-z_0-9]` without IGNORECASE. */
  predicate IsWordChar(c: char) {
    ('A' <= c <= 'Z') || ('a' <= c <= 'z') || IsDigit(c) || c == '_'
  }

  predicate StartsWith(s: string, w: string) {
    |w| <= |s| && s[..|w|] == w
  }

  /** The end of the longest run of characters satisfying `P` that starts at `i`. */
  function RunEnd(s: string, i: nat, P: char -> bool): (j: nat)
    requires i <= |s|
    ensures i <= j <= |s|
    ensures forall k :: i <= k < j ==> P(s[k])
    ensures j == |s| || !P(s[j])
    decreases |s| - i
  {
    if i < |s| && P(s[i]) then RunEnd(s, i + 1, P) else i
  }

  /** The start of the longest run of characters satisfying `P` that ends at `j`, not going below `lo`. */
  function RunStart(s: string, lo: nat, j: nat, P: char -> bool): (k: nat)
    requires lo <= j <= |s|
    ensures lo <= k <= j
    ensures forall m :: k <= m < j ==> P(s[m])
    ensures k == lo || !P(s[k - 1])
    decreases j
  {
    if lo < j && P(s[j - 1]) then RunStart(s, lo, j - 1, P) else j
  }

  /** `\s*` from position `i`: the first position at or after `i` that does not hold whitespace. */
  function SkipSpaces(s: string, i: nat): (j: nat)
    requires i <= |s|
    ensures i <= j <= |s|
    ensures forall k :: i <= k < j ==> IsSpace(s[k])
    ensures j == |s| || !IsSpace(s[j])
  {
    RunEnd(s, i, IsSpace)
  }

  /** `str.strip()`: the text without its leading and trailing whitespace. */
  function Strip(s: string): (r: string)
    ensures |r| <= |s|
    ensures r == [] || (!IsSpace(r[0]) && !IsSpace(r[|r| - 1]))
    ensures r == [] <==> forall k :: 0 <= k < |s| ==> IsSpace(s[k])
    ensures (s == [] || (!IsSpace(s[0]) && !IsSpace(s[|s| - 1]))) ==> r == s
  {
    var a := SkipSpaces(s, 0);
    var b := RunStart(s, a, |s|, IsSpace);
    s[a..b]
  }

  /** What Strip removes is whitespace, on either side of a slice of its input. */
  lemma StripSlice(s: string)
    ensures exists a, b :: 0 <= a <= b <= |s| && Strip(s) == s[a..b]
              && (forall k :: 0 <= k < a ==> IsSpace(s[k])) && (forall k :: b <= k < |s| ==> IsSpace(s[k]))
  {
    var a := SkipSpaces(s, 0);
    var b := RunStart(s, a, |s|, IsSpace);
    assert Strip(s) == s[a..b];
  }

  /** Stripping adds no character. */
  lemma StripKeepsAbsent(s: string, c: char)
    requires c !in s
    ensures c !in Strip(s)
  {
    var a := SkipSpaces(s, 0);
    var b := RunStart(s, a, |s|, IsSpace);
    forall k | 0 <= k < b - a ensures Strip(s)[k] != c {
      assert Strip(s)[k] == s[a + k];
    }
  }

  /** `str.splitlines()` with no argument. */
  function SplitLines(s: string): (lines: seq<string>)
    ensures forall i, k :: 0 <= i < |lines| && 0 <= k < |lines[i]| ==> !IsLineBreak(lines[i][k])
    ensures lines == [] <==> s == []
    decreases |s|
  {
    if s == [] then []
    else
      var j := RunEnd(s, 0, NotLineBreak);
      if j == |s| then [s]
      else
        var next := if s[j] == '\r' && j + 1 < |s| && s[j + 1] == '\n' then j + 2 else j + 1;
        [s[..j]] + SplitLines(s[next..])
  }

  /** A non-empty text without line breaks is one line. */
  lemma SplitLinesOfLine(a: string)
    requires a != [] && forall k :: 0 <= k < |a| ==> !IsLineBreak(a[k])
    ensures SplitLines(a) == [a]
  {
    assert RunEnd(a, 0, NotLineBreak) == |a|;
  }

  /**
   * A line followed by any one break character is split off as the first
   * line, unless the break is a '\r' that a '\n' follows.
   */
  lemma SplitLinesOfBreak(a: string, c: char, b: string)
    requires forall k :: 0 <= k < |a| ==> !IsLineBreak(a[k])
    requires IsLineBreak(c) && !(c == '\r' && b != [] && b[0] == '\n')
    ensures SplitLines(a + [c] + b) == [a] + SplitLines(b)
  {
    var s := a + [c] + b;
    assert s[|a|] == c;
    assert forall k :: 0 <= k < |a| ==> s[k] == a[k];
    assert RunEnd(s, 0, NotLineBreak) == |a|;
    assert s[..|a|] == a;
    assert s[|a| + 1..] == b;
  }

  /** "\r\n" is one break: a line followed by it is split off as the first line. */
  lemma SplitLinesOfCrLf(a: string, b: string)
    requires forall k :: 0 <= k < |a| ==> !IsLineBreak(a[k])
    ensures SplitLines(a + "\r\n" + b) == [a] + SplitLines(b)
  {
    var s := a + "\r\n" + b;
    assert s[|a|] == '\r' && s[|a| + 1] == '\n';
    assert forall k :: 0 <= k < |a| ==> s[k] == a[k];
    assert RunEnd(s, 0, NotLineBreak) == |a|;
    assert s[..|a|] == a;
    assert s[|a| + 2..] == b;
  }

  /** A line followed by a newline is split off as the first line. */
  lemma SplitLinesOfNewline(a: string, b: string)
    requires forall k :: 0 <= k < |a| ==> !IsLineBreak(a[k])
    ensures SplitLines(a + "\n" + b) == [a] + SplitLines(b)
  {
    SplitLinesOfBreak(a, '\n', b);
  }

  /** The text with its line breaks deleted: the reference that `SplitLines` is checked against. */
  function DropBreaks(s: string): (r: string)
    ensures forall k :: 0 <= k < |r| ==> !IsLineBreak(r[k])
  {
    if s == [] then []
    else if IsLineBreak(s[0]) then DropBreaks(s[1..])
    else [s[0]] + DropBreaks(s[1..])
  }

  function Concat(lines: seq<string>): string {
    if lines == [] then [] else lines[0] + Concat(lines[1..])
  }

  lemma {:induction false} DropBreaksAppend(a: string, b: string)
    ensures DropBreaks(a + b) == DropBreaks(a) + DropBreaks(b)
    decreases |a|
  {
    if a != [] {
      assert (a + b)[0] == a[0];
      assert (a + b)[1..] == a[1..] + b;
      DropBreaksAppend(a[1..], b);
      if !IsLineBreak(a[0]) {
        assert DropBreaks(a + b) == [a[0]] + DropBreaks(a[1..] + b);
        assert DropBreaks(a) == [a[0]] + DropBreaks(a[1..]);
      }
    } else {
      assert a + b == b;
    }
  }

  lemma {:induction false} DropBreaksKeeps(s: string)
    requires forall k :: 0 <= k < |s| ==> !IsLineBreak(s[k])
    ensures DropBreaks(s) == s
    decreases |s|
  {
    if s != [] {
      DropBreaksKeeps(s[1..]);
    }
  }

  /** One line break, or the pair "\r\n", disappears entirely. */
  lemma DropBreaksOfBreak(b: string)
    requires 1 <= |b| <= 2 && IsLineBreak(b[0]) && (|b| == 2 ==> IsLineBreak(b[1]))
    ensures DropBreaks(b) == []
  {
    assert DropBreaks(b) == DropBreaks(b[1..]);
    if |b| == 2 {
      assert DropBreaks(b[1..]) == DropBreaks(b[1..][1..]);
    }
  }

  /** Deleting the breaks of a line, a break and a rest: the line followed by the rest's characters. */
  lemma DropBreaksStep(line: string, brk: string, rest: string)
    requires forall k :: 0 <= k < |line| ==> !IsLineBreak(line[k])
    requires 1 <= |brk| <= 2 && IsLineBreak(brk[0]) && (|brk| == 2 ==> IsLineBreak(brk[1]))
    ensures DropBreaks(line + (brk + rest)) == line + DropBreaks(rest)
  {
    DropBreaksKeeps(line);
    DropBreaksAppend(line, brk + rest);
    DropBreaksAppend(brk, rest);
    DropBreaksOfBreak(brk);
  }

  /**
   * Splitting into lines loses exactly the line breaks: the lines, put back
   * together, are the text with every break deleted.
   */
  lemma {:induction false} SplitLinesLosesOnlyBreaks(s: string)
    ensures Concat(SplitLines(s)) == DropBreaks(s)
    decreases |s|
  {
    if s != [] {
      var j := RunEnd(s, 0, NotLineBreak);
      if j == |s| {
        DropBreaksKeeps(s);
        assert SplitLines(s) == [s];
        assert Concat([s]) == s + Concat([]);
      } else {
        var next := if s[j] == '\r' && j + 1 < |s| && s[j + 1] == '\n' then j + 2 else j + 1;
        var line, brk, rest := s[..j], s[j..next], s[next..];
        assert s == line + (brk + rest);
        DropBreaksStep(line, brk, rest);
        SplitLinesLosesOnlyBreaks(rest);
        assert SplitLines(s) == [line] + SplitLines(rest);
        assert ([line] + SplitLines(rest))[1..] == SplitLines(rest);
      }
    }
  }

  /**
   * `str.replace(pat, rep)` with a non-empty `pat`: occurrences are replaced
   * left to right and never overlap.
   */
  function Replace(s: string, pat: string, rep: string): (r: string)
    requires pat != []
    ensures |rep| == |pat| ==> |r| == |s|
    ensures |rep| > |pat| ==> |r| >= |s|
    ensures |rep| < |pat| ==> |r| <= |s|
    ensures s == [] ==> r == []
    decreases |s|
  {
    if |s| < |pat| then s
    else if s[..|pat|] == pat then rep + Replace(s[|pat|..], pat, rep)
    else [s[0]] + Replace(s[1..], pat, rep)
  }

  /** Replacing a single character by text without it leaves no occurrence of that character. */
  lemma {:induction false} ReplaceRemovesChar(s: string, c: char, rep: string)
    requires c !in rep
    ensures c !in Replace(s, [c], rep)
    decreases |s|
  {
    if |s| >= 1 {
      ReplaceRemovesChar(s[1..], c, rep);
    }
  }

  /** A character that is neither in the text nor in the replacement is not in the result. */
  lemma {:induction false} ReplaceKeepsAbsent(s: string, pat: string, rep: string, x: char)
    requires pat != []
    requires x !in s && x !in rep
    ensures x !in Replace(s, pat, rep)
    decreases |s|
  {
    if |s| >= |pat| {
      if s[..|pat|] == pat {
        ReplaceKeepsAbsent(s[|pat|..], pat, rep, x);
      } else {
        ReplaceKeepsAbsent(s[1..], pat, rep, x);
      }
    }
  }

  /** Text in which the pattern's first character never occurs is left as it is. */
  lemma {:induction false} ReplaceWithoutOccurrence(s: string, pat: string, rep: string)
    requires pat != [] && pat[0] !in s
    ensures Replace(s, pat, rep) == s
    decreases |s|
  {
    if |s| >= |pat| {
      assert s[..|pat|] != pat by { assert s[..|pat|][0] == s[0]; }
      ReplaceWithoutOccurrence(s[1..], pat, rep);
      assert [s[0]] + s[1..] == s;
    }
  }

  /** Deleting one character: the reference definition for `Replace(s, [c], "")`. */
  function Without(s: string, c: char): (r: string)
    ensures c !in r
    ensures |r| <= |s|
  {
    if s == [] then []
    else if s[0] == c then Without(s[1..], c)
    else [s[0]] + Without(s[1..], c)
  }

  lemma {:induction false} ReplaceByEmptyIsWithout(s: string, c: char)
    ensures Replace(s, [c], "") == Without(s, c)
    decreases |s|
  {
    if |s| >= 1 {
      ReplaceByEmptyIsWithout(s[1..], c);
      assert s[..1] == [c] <==> s[0] == c;
    }
  }

  /** Deleting one character keeps every other character. */
  lemma {:induction false} WithoutKeeps(s: string, c: char, x: char)
    requires x != c
    ensures x in Without(s, c) <==> x in s
    decreases |s|
  {
    if s != [] {
      WithoutKeeps(s[1..], c, x);
      assert s == [s[0]] + s[1..];
    }
  }

  /** The whitespace that `int()` strips: `isspace` less the four separators U+001C..U+001F. */
  predicate IsIntSpace(c: char) {
    IsSpace(c) && !('\U{1c}' <= c <= '\U{1f}')
  }

  /** Decimal digits in groups separated by single underscores, as `int()` accepts them. */
  predicate IsDigitGroups(d: string) {
    |d| > 0 && IsDigit(d[0]) && IsDigit(d[|d| - 1])
    && (forall k :: 0 <= k < |d| ==> IsDigit(d[k]) || d[k] == '_')
    && (forall k :: 0 <= k < |d| - 1 ==> IsDigit(d[k]) || IsDigit(d[k + 1]))
  }

  /** The number the digits of `d` spell, underscores skipped. */
  function DigitsValue(d: string): nat
  {
    if d == [] then 0
    else if IsDigit(d[|d| - 1]) then 10 * DigitsValue(d[..|d| - 1]) + (d[|d| - 1] as int - '0' as int)
    else DigitsValue(d[..|d| - 1])
  }

  /**
   * CPython's default `sys.get_int_max_str_digits()`: `int()` of a string
   * with more decimal digits than this raises `ValueError`, and so does
   * `str()` of an integer with more digits.
   */
  const IntMaxStrDigits := 4300

  /** The number of decimal digits in `d`; underscores do not count. */
  function DigitCount(d: string): nat {
    if d == [] then 0
    else DigitCount(d[..|d| - 1]) + (if IsDigit(d[|d| - 1]) then 1 else 0)
  }

  /** In a run of digits, every character counts. */
  lemma {:induction false} DigitCountOfRun(d: string)
    requires forall k :: 0 <= k < |d| ==> IsDigit(d[k])
    ensures DigitCount(d) == |d|
    decreases |d|
  {
    if d != [] {
      DigitCountOfRun(d[..|d| - 1]);
    }
  }

  /** `t` without the leading and trailing whitespace that `int()` ignores. */
  function TrimIntSpaces(t: string): (u: string)
    ensures u == [] || (!IsIntSpace(u[0]) && !IsIntSpace(u[|u| - 1]))
    ensures (t == [] || (!IsIntSpace(t[0]) && !IsIntSpace(t[|t| - 1]))) ==> u == t
  {
    var a := RunEnd(t, 0, IsIntSpace);
    t[a..RunStart(t, a, |t|, IsIntSpace)]
  }

  /** What int() trims is whitespace, on either side of a slice of its argument. */
  lemma TrimIntSlice(t: string)
    ensures exists a, b :: 0 <= a <= b <= |t| && TrimIntSpaces(t) == t[a..b]
              && (forall k :: 0 <= k < a ==> IsIntSpace(t[k])) && (forall k :: b <= k < |t| ==> IsIntSpace(t[k]))
  {
    var a := RunEnd(t, 0, IsIntSpace);
    var b := RunStart(t, a, |t|, IsIntSpace);
    assert TrimIntSpaces(t) == t[a..b];
  }

  /** An optional sign followed by digit groups, with no more digits than the limit. */
  function ParseSigned(u: string): (r: Option<int>)
    ensures r.Some? ==> exists k :: 0 <= k < |u| && IsDigit(u[k])
  {
    if |u| > 0 && (u[0] == '+' || u[0] == '-') then
      if IsDigitGroups(u[1..]) && DigitCount(u[1..]) <= IntMaxStrDigits then
        assert IsDigit(u[1]);
        var v: int := DigitsValue(u[1..]);
        Some(if u[0] == '-' then -v else v)
      else None
    else if IsDigitGroups(u) && DigitCount(u) <= IntMaxStrDigits then
      assert IsDigit(u[0]);
      Some(DigitsValue(u))
    else None
  }

  /**
   * `int(t)` for a string `t`: `None` where Python raises `ValueError`.
   * Only ASCII digits are modelled.
   */
  function ParseInt(t: string): Option<int> {
    ParseSigned(TrimIntSpaces(t))
  }

  /** `int()` needs a digit: it raises on text without one, in particular on blank text. */
  lemma ParseIntNeedsDigit(t: string)
    ensures ParseInt(t).Some? ==> exists k :: 0 <= k < |t| && IsDigit(t[k])
    ensures (forall k :: 0 <= k < |t| ==> IsIntSpace(t[k])) ==> ParseInt(t).None?
  {
    TrimIntSlice(t);
  }

  /** Digit groups within the limit, unsigned: their value. */
  lemma UnsignedGroupsParse(d: string)
    requires IsDigitGroups(d) && DigitCount(d) <= IntMaxStrDigits
    ensures ParseSigned(d) == Some(DigitsValue(d) as int)
  {
    assert IsDigit(d[0]);
  }

  /** A '+' or '-' before digit groups within the limit: the groups' value, negated after '-'. */
  lemma SignedGroupsParse(c: char, d: string)
    requires c == '+' || c == '-'
    requires IsDigitGroups(d) && DigitCount(d) <= IntMaxStrDigits
    ensures ParseSigned([c] + d) == Some(if c == '-' then -(DigitsValue(d) as int) else DigitsValue(d) as int)
  {
    var u := [c] + d;
    assert u[0] == c && u[1..] == d;
  }

  /** Two underscores in a row are refused. */
  lemma DoubleUnderscoreFails(u: string, k: nat)
    requires k + 1 < |u| && u[k] == '_' && u[k + 1] == '_'
    ensures ParseSigned(u) == None
  {
    if u[0] == '+' || u[0] == '-' {
      assert u[1..][k - 1] == '_' && u[1..][k] == '_';
    }
  }

  /** A run of digits is a single digit group. */
  lemma DigitRunIsGroups(d: string)
    requires |d| > 0 && forall k :: 0 <= k < |d| ==> IsDigit(d[k])
    ensures IsDigitGroups(d)
  {
    assert IsDigit(d[0]) && IsDigit(d[|d| - 1]);
  }

  /** With no whitespace at either end, `int()` parses the text as it is. */
  lemma ParseUntrimmed(t: string)
    requires |t| > 0 && !IsIntSpace(t[0]) && !IsIntSpace(t[|t| - 1])
    ensures ParseInt(t) == ParseSigned(t)
  {
    assert TrimIntSpaces(t) == t;
  }

  /**
   * A run of digits, as `(\d+)` captures it, converts to its decimal value
   * exactly when it has no more digits than the limit; a longer run raises.
   */
  lemma DigitRunParses(d: string)
    requires |d| > 0 && forall k :: 0 <= k < |d| ==> IsDigit(d[k])
    ensures ParseInt(d) == if |d| <= IntMaxStrDigits then Some(DigitsValue(d)) else None
  {
    assert IsDigit(d[0]) && IsDigit(d[|d| - 1]);
    ParseUntrimmed(d);
    DigitRunIsGroups(d);
    DigitCountOfRun(d);
  }

  /** Python's `str(n)` for a natural number. */
  function NatDigits(n: nat): (d: string)
    ensures |d| > 0 && forall k :: 0 <= k < |d| ==> IsDigit(d[k])
  {
    if n < 10 then ['0' + n as char] else NatDigits(n / 10) + ['0' + (n % 10) as char]
  }

  /** Python's `str(n)` for an integer. */
  function Decimal(n: int): string {
    if n < 0 then "-" + NatDigits(-n) else NatDigits(n)
  }

  lemma {:induction false} NatDigitsValue(n: nat)
    ensures DigitsValue(NatDigits(n)) == n
  {
    var d := NatDigits(n);
    if n >= 10 {
      NatDigitsValue(n / 10);
      assert d[..|d| - 1] == NatDigits(n / 10);
    }
  }

  /** A minus sign before a run of digits within the limit negates its value. */
  lemma NegatedRunParses(d: string)
    requires |d| > 0 && |d| <= IntMaxStrDigits && forall k :: 0 <= k < |d| ==> IsDigit(d[k])
    ensures ParseInt("-" + d) == Some(-(DigitsValue(d) as int))
  {
    DigitRunIsGroups(d);
    DigitCountOfRun(d);
    SignedGroupsParse('-', d);
    assert ("-" + d)[0] == '-' && ("-" + d)[|d|] == d[|d| - 1];
    ParseUntrimmed("-" + d);
  }

  /**
   * `int(str(n)) == n`: parsing inverts the decimal rendering of every
   * integer whose rendering `str()` allows, that is one of at most
   * `IntMaxStrDigits` digits.
   */
  lemma ParseIntDecimal(n: int)
    requires |NatDigits(if n < 0 then -n else n)| <= IntMaxStrDigits
    ensures ParseInt(Decimal(n)) == Some(n)
  {
    if n < 0 {
      var d := NatDigits(-n);
      calc {
        ParseInt(Decimal(n));
        { assert Decimal(n) == "-" + d; }
        ParseInt("-" + d);
        { NegatedRunParses(d); }
        Some(-(DigitsValue(d) as int));
        { NatDigitsValue(-n); }
        Some(n);
      }
    } else {
      NatDigitsValue(n);
      DigitRunParses(NatDigits(n));
    }
  }
}
