/**
 * The mutant-type classifier: the text `mutmut show` prints for one mutant
 * (its diff) is normalised and matched against an ordered list of rules; the
 * first rule that holds names the mutant's type. Beside it, the parsing of
 * the mutant names out of the `mutmut results` listing.
 */
module MutantTypes {
  import opened Text
  import opened Patterns

  const NoneAssignment := "None Assignment"
  const BoundaryChange := "Boundary Change"
  const ArithmeticReplacement := "Arithmetic Operator Replacement"
  const DivisionReplacement := "Division Replacement"
  const FloorDivision := "Floor Division"
  const ComparisonReplacement := "Comparison Replacement"
  const BooleanReplacement := "Boolean Replacement"
  const LineChange := "Line Change"

  /** Every label the classifier can return. */
  const Labels: set<string> := {NoneAssignment, BoundaryChange, ArithmeticReplacement, DivisionReplacement,
                                FloorDivision, ComparisonReplacement, BooleanReplacement, LineChange}

  // ---------------------------------------------------------------------
  // Normalisation
  // ---------------------------------------------------------------------

  /** `diff.replace(" ", "").replace("\n", "")`. */
  function Normalise(diff: string): (code: string)
    ensures ' ' !in code && '\n' !in code
  {
    var a := Replace(diff, " ", "");
    ReplaceRemovesChar(diff, ' ', "");
    ReplaceKeepsAbsent(a, "\n", "", ' ');
    ReplaceRemovesChar(a, '\n', "");
    Replace(a, "\n", "")
  }

  /** The normalised code is the diff with every space and every newline deleted, and nothing else changed. */
  lemma NormaliseDeletes(diff: string)
    ensures Normalise(diff) == Without(Without(diff, ' '), '\n')
    ensures forall x :: x != ' ' && x != '\n' ==> (x in Normalise(diff) <==> x in diff)
  {
    ReplaceByEmptyIsWithout(diff, ' ');
    ReplaceByEmptyIsWithout(Without(diff, ' '), '\n');
    forall x | x != ' ' && x != '\n'
      ensures x in Normalise(diff) <==> x in diff
    {
      WithoutKeeps(diff, ' ', x);
      WithoutKeeps(Without(diff, ' '), '\n', x);
    }
  }

  // ---------------------------------------------------------------------
  // The patterns of the rules, each as "matches at i"
  // ---------------------------------------------------------------------

  /** `w in s`, or `re.search` of a pattern without metacharacters. */
  predicate Contains(s: string, w: string) {
    exists i :: 0 <= i <= |s| && PrefixAt(s, i, w)
  }

  /** `low\+=[0-9]+` at `i`. */
  predicate LowIncrementAt(s: string, i: int) {
    PrefixAt(s, i, "low+=") && i + 5 < |s| && IsDigit(s[i + 5])
  }

  /** `high-=[0-9]+` at `i`. */
  predicate HighDecrementAt(s: string, i: int) {
    PrefixAt(s, i, "high-=") && i + 6 < |s| && IsDigit(s[i + 6])
  }

  predicate IsSign(c: char) {
    c == '+' || c == '-'
  }

  /** `\(low[+-][0-9]+\)` at `j`. */
  predicate LowOffsetAt(s: string, j: int) {
    PrefixAt(s, j, "(low") && j + 5 < |s| && IsSign(s[j + 4])
    && exists k :: j + 5 < k < |s| && s[k] == ')' && forall m :: j + 5 <= m < k ==> IsDigit(s[m])
  }

  /** `return[+-]?\(low[+-][0-9]+\)` at `i`. */
  predicate ReturnLowAt(s: string, i: int) {
    PrefixAt(s, i, "return")
    && (LowOffsetAt(s, i + 6) || (i + 6 < |s| && IsSign(s[i + 6]) && LowOffsetAt(s, i + 7)))
  }

  // The class `[+\-*/%]`: one of + - * / %.
  predicate IsArithOp(c: char) {
    c == '+' || c == '-' || c == '*' || c == '/' || c == '%'
  }

  predicate HasArithOp(s: string) {
    exists i :: 0 <= i < |s| && IsArithOp(s[i])
  }

  /** `midVal[<>]=key` at `i`. */
  predicate MidValKeyAt(s: string, i: int) {
    PrefixAt(s, i, "midVal") && i + 6 < |s| && (s[i + 6] == '<' || s[i + 6] == '>') && PrefixAt(s, i + 7, "=key")
  }

  /** `midVal[<>=!]=midVal` at `i`. */
  predicate MidValMidValAt(s: string, i: int) {
    PrefixAt(s, i, "midVal") && i + 6 < |s| && s[i + 6] in "<>=!" && PrefixAt(s, i + 7, "=midVal")
  }

  // ---------------------------------------------------------------------
  // The rules, in the order they are tried
  // ---------------------------------------------------------------------

  /** Rule 1: `=(None)`. */
  predicate NoneRule(code: string) {
    Contains(code, "=None")
  }

  /** Rule 2: the loop condition or a bound moved by a constant. */
  predicate BoundaryRule(code: string) {
    Contains(code, "whilelow<high")
    || (exists i :: 0 <= i < |code| && LowIncrementAt(code, i))
    || (exists i :: 0 <= i < |code| && HighDecrementAt(code, i))
  }

  /** Rule 3: a returned offset from `low`, or any arithmetic operator. */
  predicate ArithmeticRule(code: string) {
    (exists i :: 0 <= i < |code| && ReturnLowAt(code, i)) || HasArithOp(code)
  }

  /** Rule 4a. */
  predicate DivisionRule(code: string) {
    Contains(code, "mid=(low+high)/2")
  }

  /** Rule 4b. */
  predicate FloorDivisionRule(code: string) {
    Contains(code, "mid=(low+high)//2")
  }

  /** Rule 5: a comparison of `midVal` against `key` or against itself. */
  predicate ComparisonRule(code: string) {
    (exists i :: 0 <= i < |code| && MidValKeyAt(code, i))
    || (exists i :: 0 <= i < |code| && MidValMidValAt(code, i))
  }

  /** Rule 6 reads the diff as it was, not the normalised code. */
  predicate BooleanRule(diff: string) {
    Contains(diff, "True") || Contains(diff, "False")
  }

  /**
   * `get_mutant_type` once the diff is at hand: the label of the first rule
   * that holds, and "Line Change" when none does.
   */
  function MutantType(diff: string): (kind: string)
    ensures kind in Labels
    ensures kind == NoneAssignment <==> NoneRule(Normalise(diff))
    ensures kind == BoundaryChange <==> !NoneRule(Normalise(diff)) && BoundaryRule(Normalise(diff))
    ensures kind == ArithmeticReplacement <==>
              !NoneRule(Normalise(diff)) && !BoundaryRule(Normalise(diff)) && ArithmeticRule(Normalise(diff))
  {
    var code := Normalise(diff);
    if NoneRule(code) then NoneAssignment
    else if BoundaryRule(code) then BoundaryChange
    else if ArithmeticRule(code) then ArithmeticReplacement
    else if DivisionRule(code) then DivisionReplacement
    else if FloorDivisionRule(code) then FloorDivision
    else if ComparisonRule(code) then ComparisonReplacement
    else if BooleanRule(diff) then BooleanReplacement
    else LineChange
  }

  // ---------------------------------------------------------------------
  // Properties of the cascade
  // ---------------------------------------------------------------------

  /** The first alternative of rule 3 always holds a sign, so rule 3 is exactly "some arithmetic operator". */
  lemma ArithmeticRuleIsOperator(code: string)
    ensures ArithmeticRule(code) <==> HasArithOp(code)
  {
    if i :| 0 <= i < |code| && ReturnLowAt(code, i) {
      var j := if LowOffsetAt(code, i + 6) then i + 6 else i + 7;
      assert LowOffsetAt(code, j);
      assert IsArithOp(code[j + 4]);
    }
  }

  /** Both division patterns contain '+', so a code that matches either has an arithmetic operator. */
  lemma DivisionPatternsHaveOperator(code: string)
    requires DivisionRule(code) || FloorDivisionRule(code)
    ensures HasArithOp(code)
  {
    var w := if DivisionRule(code) then "mid=(low+high)/2" else "mid=(low+high)//2";
    var i :| 0 <= i <= |code| && PrefixAt(code, i, w);
    assert code[i + 8] == code[i..i + |w|][8] == w[8] == '+';
  }

  /** "Division Replacement" and "Floor Division" are never returned: rule 3 takes every code they would. */
  lemma DivisionLabelsUnreachable(diff: string)
    ensures MutantType(diff) != DivisionReplacement && MutantType(diff) != FloorDivision
  {
    var code := Normalise(diff);
    if DivisionRule(code) || FloorDivisionRule(code) {
      DivisionPatternsHaveOperator(code);
    }
  }

  /** What is left after rule 3: comparison, boolean, or the fallback, in that order. */
  lemma LaterLabels(diff: string)
    requires !NoneRule(Normalise(diff)) && !BoundaryRule(Normalise(diff)) && !HasArithOp(Normalise(diff))
    ensures ComparisonRule(Normalise(diff)) ==> MutantType(diff) == ComparisonReplacement
    ensures !ComparisonRule(Normalise(diff)) && BooleanRule(diff) ==> MutantType(diff) == BooleanReplacement
    ensures !ComparisonRule(Normalise(diff)) && !BooleanRule(diff) ==> MutantType(diff) == LineChange
  {
    var code := Normalise(diff);
    ArithmeticRuleIsOperator(code);
    assert !DivisionRule(code) && !FloorDivisionRule(code) by {
      if DivisionRule(code) || FloorDivisionRule(code) {
        DivisionPatternsHaveOperator(code);
      }
    }
  }

  /**
   * A diff with a '+' or a '-' anywhere (every line a unified diff adds or
   * removes starts with one) is never classified past rule 3.
   */
  lemma SignedDiffsStopEarly(diff: string)
    requires '+' in diff || '-' in diff
    ensures MutantType(diff) in {NoneAssignment, BoundaryChange, ArithmeticReplacement}
  {
    var code := Normalise(diff);
    NormaliseDeletes(diff);
    var c := if '+' in diff then '+' else '-';
    assert c in code;
    var i :| 0 <= i < |code| && code[i] == c;
    assert IsArithOp(code[i]);
    ArithmeticRuleIsOperator(code);
  }

  // ---------------------------------------------------------------------
  // Mutant names out of the results listing
  // ---------------------------------------------------------------------

  /** `line.split(":")[0]`: the text before the first ':', or the whole line. */
  function BeforeColon(line: string): (r: string)
    ensures ':' !in r
    ensures StartsWith(line, r)
    ensures |r| == |line| || line[|r|] == ':'
  {
    line[..RunEnd(line, 0, c => c != ':')]
  }

  /** The comprehension: for each non-blank line, its text before the first ':', stripped. */
  function NamesOf(lines: seq<string>): (names: seq<string>)
    ensures |names| <= |lines|
    ensures forall k :: 0 <= k < |names| ==> ':' !in names[k]
  {
    if lines == [] then []
    else if Strip(lines[0]) == "" then NamesOf(lines[1..])
    else
      StripKeepsAbsent(BeforeColon(lines[0]), ':');
      [Strip(BeforeColon(lines[0]))] + NamesOf(lines[1..])
  }

  /** One line gives no name when it is blank, and otherwise its stripped text before the first ':'. */
  lemma NamesOfLine(line: string)
    ensures NamesOf([line]) == if Strip(line) == "" then [] else [Strip(BeforeColon(line))]
  {
    assert [line][1..] == [];
  }

  /**
   * The names in the output of `mutmut results`, in order: at most one per
   * line, none holding a ':'.
   */
  function MutantNames(output: string): (names: seq<string>)
    ensures |names| <= |SplitLines(Strip(output))|
    ensures forall k :: 0 <= k < |names| ==> ':' !in names[k]
  {
    NamesOf(SplitLines(Strip(output)))
  }

  /** Names are collected line by line: order is kept, and a blank line contributes nothing. */
  lemma {:induction false} NamesOfAppend(a: seq<string>, b: seq<string>)
    ensures NamesOf(a + b) == NamesOf(a) + NamesOf(b)
    decreases |a|
  {
    if a != [] {
      assert (a + b)[0] == a[0];
      assert (a + b)[1..] == a[1..] + b;
      NamesOfAppend(a[1..], b);
    } else {
      assert a + b == b;
    }
  }

  /** A name the listing can carry: not empty, no ':', no surrounding whitespace. */
  predicate IsListedName(name: string) {
    name != [] && ':' !in name && !IsSpace(name[0]) && !IsSpace(name[|name| - 1])
  }

  /** The name of a listing line `<name>:<rest>` is `<name>`. */
  lemma NameOfEntry(name: string, rest: string)
    requires IsListedName(name)
    ensures NamesOf([name + ":" + rest]) == [name]
  {
    var line := name + ":" + rest;
    assert line[|name|] == ':';
    assert forall k :: 0 <= k < |name| ==> line[k] == name[k];
    assert RunEnd(line, 0, c => c != ':') == |name|;
    assert BeforeColon(line) == name;
    assert !IsSpace(line[0]);
  }

  /** A listing with one line `<name>:<rest>` per entry. */
  function Listing(names: seq<string>, rests: seq<string>): (lines: seq<string>)
    requires |names| == |rests|
    ensures |lines| == |names|
    ensures forall k :: 0 <= k < |lines| ==> lines[k] == names[k] + ":" + rests[k]
  {
    if names == [] then [] else [names[0] + ":" + rests[0]] + Listing(names[1..], rests[1..])
  }

  /** The first line of a listing contributes its name ahead of the names of the rest. */
  lemma NamesOfListingHead(names: seq<string>, rests: seq<string>)
    requires |names| == |rests| && names != [] && IsListedName(names[0])
    ensures NamesOf(Listing(names, rests)) == [names[0]] + NamesOf(Listing(names[1..], rests[1..]))
  {
    var first, tail := names[0] + ":" + rests[0], Listing(names[1..], rests[1..]);
    assert Listing(names, rests) == [first] + tail;
    NameOfEntry(names[0], rests[0]);
    NamesOfAppend([first], tail);
  }

  /** Such a listing gives back exactly its names, in order. */
  lemma {:induction false} NamesOfListing(names: seq<string>, rests: seq<string>)
    requires |names| == |rests|
    requires forall k :: 0 <= k < |names| ==> IsListedName(names[k])
    ensures NamesOf(Listing(names, rests)) == names
    decreases |names|
  {
    if names != [] {
      NamesOfListingHead(names, rests);
      var later := names[1..];
      assert forall k :: 0 <= k < |later| ==> later[k] == names[k + 1];
      NamesOfListing(later, rests[1..]);
      assert names == [names[0]] + later;
    }
  }

  /** No line break anywhere in `s`. */
  predicate OneLine(s: string) {
    forall k :: 0 <= k < |s| ==> !IsLineBreak(s[k])
  }

  /** `"\n".join(lines)`: the text a subprocess prints, one line after another. */
  function JoinLines(lines: seq<string>): string {
    if lines == [] then ""
    else if |lines| == 1 then lines[0]
    else lines[0] + "\n" + JoinLines(lines[1..])
  }

  /** Joined non-empty lines without breaks in them split back into the same lines. */
  lemma {:induction false} JoinLinesSplits(lines: seq<string>)
    requires forall k :: 0 <= k < |lines| ==> lines[k] != [] && OneLine(lines[k])
    ensures SplitLines(JoinLines(lines)) == lines
    decreases |lines|
  {
    if |lines| == 1 {
      SplitLinesOfLine(lines[0]);
    } else if |lines| > 1 {
      SplitLinesOfNewline(lines[0], JoinLines(lines[1..]));
      JoinLinesSplits(lines[1..]);
    }
  }

  /** The joined text starts with the first line's first character and ends with the last line's last one. */
  lemma {:induction false} JoinLinesEnds(lines: seq<string>)
    requires lines != [] && forall k :: 0 <= k < |lines| ==> lines[k] != []
    ensures var t := JoinLines(lines); var last := lines[|lines| - 1];
            t != [] && t[0] == lines[0][0] && t[|t| - 1] == last[|last| - 1]
    decreases |lines|
  {
    if |lines| > 1 {
      JoinLinesEnds(lines[1..]);
    }
  }

  /**
   * The output of `mutmut results` for a listing of names, one
   * `<name>:<rest>` line each, gives back exactly those names, in order.
   */
  lemma MutantNamesOfListing(names: seq<string>, rests: seq<string>)
    requires |names| == |rests|
    requires forall k :: 0 <= k < |names| ==> IsListedName(names[k]) && OneLine(names[k]) && OneLine(rests[k])
    requires rests != [] ==> var last := rests[|rests| - 1]; last == [] || !IsSpace(last[|last| - 1])
    ensures MutantNames(JoinLines(Listing(names, rests))) == names
  {
    var lines := Listing(names, rests);
    var out := JoinLines(lines);
    NamesOfListing(names, rests);
    if names == [] {
      assert out == [];
    } else {
      ListingLines(names, rests);
      ListingUnstripped(names, rests);
      JoinLinesSplits(lines);
    }
  }

  /** Every listing line is a non-empty line without breaks. */
  lemma ListingLines(names: seq<string>, rests: seq<string>)
    requires |names| == |rests|
    requires forall k :: 0 <= k < |names| ==> OneLine(names[k]) && OneLine(rests[k])
    ensures var lines := Listing(names, rests); forall k :: 0 <= k < |lines| ==> lines[k] != [] && OneLine(lines[k])
  {
    var lines := Listing(names, rests);
    forall k | 0 <= k < |lines| ensures lines[k] != [] && OneLine(lines[k]) {
      EntryOneLine(names[k], rests[k]);
    }
  }

  /** `<name>:<rest>` has a line break only where its parts do. */
  lemma EntryOneLine(name: string, rest: string)
    requires OneLine(name) && OneLine(rest)
    ensures OneLine(name + ":" + rest)
  {
    var l := name + ":" + rest;
    forall i | 0 <= i < |l| ensures !IsLineBreak(l[i]) {
      if i < |name| {
        assert l[i] == name[i];
      } else if i > |name| {
        assert l[i] == rest[i - |name| - 1];
      }
    }
  }

  /** The joined listing has nothing for `strip()` to remove. */
  lemma ListingUnstripped(names: seq<string>, rests: seq<string>)
    requires |names| == |rests| && names != []
    requires forall k :: 0 <= k < |names| ==> IsListedName(names[k])
    requires var last := rests[|rests| - 1]; last == [] || !IsSpace(last[|last| - 1])
    ensures Strip(JoinLines(Listing(names, rests))) == JoinLines(Listing(names, rests))
  {
    var lines := Listing(names, rests);
    JoinLinesEnds(lines);
    var n := |names| - 1;
    var l := lines[n];
    assert l == names[n] + ":" + rests[n];
    assert l[|l| - 1] == if rests[n] == [] then ':' else rests[n][|rests[n]| - 1];
    assert lines[0][0] == names[0][0];
  }
}
