/**
 * The failure-report extractor of the pytest plugin: from the structured
 * crash of a failed test (if any), the rendered failure text, the test's node
 * id and the mutant id, it builds one failure record and the name of the
 * file the record is written to.
 *
 * `MakeReport` reassigns six fields stage by stage, as the hook does; the
 * functions before it give, for every stage, the value that stage reads off
 * its input, and `MakeReport`'s contract says field by field which stage's
 * value ends up in the record.
 */
module Conftest {
  import opened Wrappers
  import opened Text
  import opened Patterns

  /** `reprcrash.lineno`: an int, as pytest supplies it, or text on which `int()` may fail. */
  datatype LineNo = IntLine(n: int) | TextLine(t: string)

  /** pytest's `reprcrash`, reduced to the three attributes the hook reads. */
  datatype Crash = Crash(path: Option<string>, lineno: Option<LineNo>, message: Option<string>)

  /** The record written for one failed test. */
  datatype Record = Record(
    mutantId: string,
    nodeId: string,
    file: Option<string>,
    line: Option<int>,
    assertExpr: Option<string>,
    failureReason: Option<string>,
    excType: Option<string>,
    excMsg: Option<string>,
    longrepr: string)

  /** Python truthiness: `None` and the empty string are false. */
  predicate Truthy(o: Option<string>) {
    o.Some? && o.value != ""
  }

  /** Python truthiness: `None` and 0 are false. */
  predicate TruthyInt(o: Option<int>) {
    o.Some? && o.value != 0
  }

  predicate TruthyLineNo(l: LineNo) {
    match l
    case IntLine(n) => n != 0
    case TextLine(t) => t != ""
  }

  /** `int(lineno)`: `None` where it raises. */
  function IntOf(l: LineNo): Option<int> {
    match l
    case IntLine(n) => Some(n)
    case TextLine(t) => ParseInt(t)
  }

  /** Python's `a or b` on optional strings. */
  function Or(a: Option<string>, b: Option<string>): Option<string> {
    if Truthy(a) then a else b
  }

  // ---------------------------------------------------------------------
  // What each stage reads off its input
  // ---------------------------------------------------------------------

  /** Stage 1: a truthy crash path. */
  function CrashFile(crash: Option<Crash>): (r: Option<string>)
    ensures r.Some? <==> crash.Some? && Truthy(crash.value.path)
    ensures r.Some? ==> r == crash.value.path
  {
    if crash.Some? && Truthy(crash.value.path) then crash.value.path else None
  }

  /** Stage 1: `int(lineno)` of a truthy lineno; absent when it is falsy or `int()` raises. */
  function CrashLine(crash: Option<Crash>): (r: Option<int>)
    ensures r.Some? ==> crash.Some? && crash.value.lineno.Some? && TruthyLineNo(crash.value.lineno.value)
    ensures crash.Some? && crash.value.lineno.Some? && TruthyLineNo(crash.value.lineno.value) ==>
              r == IntOf(crash.value.lineno.value)
  {
    if crash.Some? && crash.value.lineno.Some? && TruthyLineNo(crash.value.lineno.value)
    then IntOf(crash.value.lineno.value)
    else None
  }

  /** A text lineno of more digits than `int()` accepts gives no line: the `except` leaves `line` at `None`. */
  lemma LongLineNoIgnored(crash: Option<Crash>, d: string)
    requires crash.Some? && crash.value.lineno == Some(TextLine(d))
    requires |d| > IntMaxStrDigits && forall k :: 0 <= k < |d| ==> IsDigit(d[k])
    ensures CrashLine(crash) == None
  {
    DigitRunParses(d);
  }

  /** Stage 1: a truthy crash message, whole. */
  function CrashMessage(crash: Option<Crash>): (r: Option<string>)
    ensures r.Some? <==> crash.Some? && Truthy(crash.value.message)
    ensures r.Some? ==> r == crash.value.message
  {
    if crash.Some? && Truthy(crash.value.message) then crash.value.message else None
  }

  /** Stage 1: the message's leading word, when it starts with one. */
  function CrashType(crash: Option<Crash>): (r: Option<string>)
    ensures r.Some? <==> CrashMessage(crash).Some? && IsWordChar(CrashMessage(crash).value[0])
    ensures r.Some? ==> r.value == LeadingWord(CrashMessage(crash).value) && r.value != []
  {
    match CrashMessage(crash)
    case Some(msg) => if LeadingWord(msg) != "" then Some(LeadingWord(msg)) else None
    case None => None
  }

  /**
   * `int()` of a `\d+` group `s[lo..hi]`: the decimal value of the digits
   * when there are at most `IntMaxStrDigits` of them; otherwise it raises.
   */
  lemma DigitGroupParses(s: string, lo: nat, hi: nat)
    requires lo < hi <= |s| && forall k :: lo <= k < hi ==> IsDigit(s[k])
    ensures ParseInt(s[lo..hi]) == if hi - lo <= IntMaxStrDigits then Some(DigitsValue(s[lo..hi]) as int) else None
  {
    var d := s[lo..hi];
    assert forall k :: 0 <= k < |d| ==> IsDigit(d[k]) by {
      forall k | 0 <= k < |d| ensures IsDigit(d[k]) {
        assert d[k] == s[lo + k];
      }
    }
    DigitRunParses(d);
  }

  /**
   * Stage 2: group 1 of the first `File "<path>", line <n>`, the path; it is
   * not empty and holds no double quote. Absent when the pattern matches nowhere.
   */
  function TracebackFile(text: string): (r: Option<string>)
    ensures r.Some? <==> SearchTraceback(text, 0).Some?
    ensures r.None? ==> forall p, q, e :: !TracebackAt(text, p, q, e)
    ensures forall p, q, e :: FirstTraceback(text, p, q, e) ==> r == Some(text[p + 6..q])
    ensures r.Some? ==> r.value != [] && '"' !in r.value
  {
    match SearchTraceback(text, 0)
    case Some(m) =>
      SearchTracebackIsFirst(text);
      TracebackPathShape(text, m.start, m.mid, m.stop);
      Some(text[m.start + 6..m.mid])
    case None => None
  }

  /**
   * Stage 2: `int(<n>)` of the first `File "<path>", line <n>`: the decimal
   * value of the digits, absent when there is no match or when `int()`
   * raises because the group has more than `IntMaxStrDigits` digits
   * (`DigitGroupParses` shows this is what `int()` gives).
   */
  function TracebackLine(text: string): (r: Option<int>)
    ensures r.Some? ==> SearchTraceback(text, 0).Some?
    ensures forall p, q, e :: FirstTraceback(text, p, q, e) ==>
              r == if e - (q + 8) <= IntMaxStrDigits then Some(DigitsValue(text[q + 8..e]) as int) else None
  {
    match SearchTraceback(text, 0)
    case Some(m) =>
      SearchTracebackIsFirst(text);
      var g := text[m.mid + 8..m.stop];
      if |g| <= IntMaxStrDigits then Some(DigitsValue(g) as int) else None
    case None => None
  }

  /**
   * Stage 3: group 1 of the first `<path>:<n>`, the path; it has at least two
   * characters, does not start with whitespace and holds no ':' and no newline.
   */
  function CompactFile(text: string): (r: Option<string>)
    ensures r.Some? <==> SearchCompact(text, 0).Some?
    ensures r.None? ==> forall p, q, e :: !CompactAt(text, p, q, e)
    ensures forall p, q, e :: FirstCompact(text, p, q, e) ==> r == Some(text[p..q])
    ensures r.Some? ==> |r.value| >= 2 && !IsSpace(r.value[0]) && ':' !in r.value && '\n' !in r.value
  {
    match SearchCompact(text, 0)
    case Some(m) =>
      SearchCompactIsFirst(text);
      CompactPathShape(text, m.start, m.mid, m.stop);
      Some(text[m.start..m.mid])
    case None => None
  }

  /**
   * Stage 3: `int(<n>)` of the first `<path>:<n>`: the decimal value of the
   * digits, absent when there is no match or when `int()` raises because the
   * group has more than `IntMaxStrDigits` digits (see `DigitGroupParses`).
   */
  function CompactLine(text: string): (r: Option<int>)
    ensures r.Some? ==> SearchCompact(text, 0).Some?
    ensures forall p, q, e :: FirstCompact(text, p, q, e) ==>
              r == if e - (q + 1) <= IntMaxStrDigits then Some(DigitsValue(text[q + 1..e]) as int) else None
  {
    match SearchCompact(text, 0)
    case Some(m) =>
      SearchCompactIsFirst(text);
      var g := text[m.mid + 1..m.stop];
      if |g| <= IntMaxStrDigits then Some(DigitsValue(g) as int) else None
    case None => None
  }

  /**
   * Stage 4: group 2 of the `FAILURE: check <expr> : …` match the engine
   * reports, stripped; it lies on one line. Absent when the pattern matches nowhere.
   */
  function CheckExpr(text: string): (r: Option<string>)
    ensures r.Some? <==> SearchCheck(text, 0).Some?
    ensures r.None? ==> forall p, b, e :: !CheckAt(text, p, b, e)
    ensures forall p: nat, b: nat, e: nat :: FirstCheck(text, p, b, e) ==> r == Some(Strip(text[b..e]))
    ensures r.Some? ==> '\n' !in r.value && (r.value == [] || (!IsSpace(r.value[0]) && !IsSpace(r.value[|r.value| - 1])))
  {
    match SearchCheck(text, 0)
    case Some(m) =>
      SearchCheckIsFirst(text);
      CheckGroupOneLine(text, m.start, m.exprStart, m.exprEnd);
      StripKeepsAbsent(text[m.exprStart..m.exprEnd], '\n');
      Some(Strip(text[m.exprStart..m.exprEnd]))
    case None => None
  }

  /** Text that starts with "MR" and ends with "failed", both in any case, with a label character between. */
  predicate IsTagText(r: string) {
    |r| >= 9 && FoldPrefixAt(r, 0, "mr") && FoldPrefixAt(r, |r| - 6, "failed")
  }

  /**
   * Stage 4: the whole leftmost, longest `MR<label> failed` match: the label,
   * the whitespace after it and the word "failed". It starts with "MR" and
   * ends with "failed", both in any case.
   */
  function TagMatch(text: string): (r: Option<string>)
    ensures r.Some? <==> SearchTag(text, 0).Some?
    ensures r.None? ==> forall i, t :: !TagAt(text, i, t)
    ensures r.Some? ==> IsTagText(r.value)
  {
    match SearchTag(text, 0)
    case Some(m) =>
      TagMatchShape(text, m.start, m.mid);
      Some(text[m.start..SkipSpaces(text, m.mid) + 6])
    case None => None
  }

  /** The tag is the text of the leftmost, longest match, from "MR" to "failed". */
  lemma TagMatchOfFirst(text: string, i: int, t: int)
    requires FirstTag(text, i, t)
    ensures TagMatch(text) == Some(text[i..SkipSpaces(text, t) + 6])
  {
    SearchTagIsFirst(text);
  }

  /** Stage 4's tag, behind the hook's cheaper `MR<tag char>` test, which never rejects a match. */
  function FailedTag(text: string): (r: Option<string>)
    ensures r == TagMatch(text)
  {
    TagGuardNeverRejects(text);
    if HasTagToken(text) then TagMatch(text) else None
  }

  /** Stage 5: a line whose stripped form starts with pytest's "E       assert" or with "assert ". */
  predicate IsAssertLine(line: string) {
    var ls := Strip(line);
    StartsWith(ls, "E       assert") || StartsWith(ls, "assert ")
  }

  /**
   * `re.sub(r'^E\s*', '', ls)`: a leading 'E' and all the whitespace after it
   * removed; a line not starting with 'E' is left alone.
   */
  function DropMarker(ls: string): (r: string)
    ensures |r| <= |ls| && r == ls[|ls| - |r|..]
    ensures (ls == [] || ls[0] != 'E') ==> r == ls
    ensures ls != [] && ls[0] == 'E' ==> |r| < |ls| && AllSpace(ls, 1, |ls| - |r|) && (r == [] || !IsSpace(r[0]))
  {
    if |ls| > 0 && ls[0] == 'E' then ls[SkipSpaces(ls, 1)..] else ls
  }

  /** `_first_nonempty`'s test: `l and l.strip()`. */
  predicate IsNonBlank(line: string) {
    line != "" && Strip(line) != ""
  }

  /** The first index at or after `i` whose line satisfies `P`. */
  function FirstWhere(lines: seq<string>, i: nat, P: string -> bool): (r: Option<nat>)
    requires i <= |lines|
    ensures r.Some? ==> i <= r.value < |lines| && P(lines[r.value])
    ensures r.Some? ==> forall j :: i <= j < r.value ==> !P(lines[j])
    ensures r.None? ==> forall j :: i <= j < |lines| ==> !P(lines[j])
    decreases |lines| - i
  {
    if i == |lines| then None
    else if P(lines[i]) then Some(i)
    else FirstWhere(lines, i + 1, P)
  }

  /** An index that satisfies `P` with none before it is the one `FirstWhere` finds. */
  lemma FirstWhereFinds(lines: seq<string>, P: string -> bool, i: nat)
    requires i < |lines| && P(lines[i])
    requires forall j :: 0 <= j < i ==> !P(lines[j])
    ensures FirstWhere(lines, 0, P) == Some(i)
  {
  }

  /**
   * Stage 5: the first assert line, stripped and with the marker removed; the
   * marker and the spaces after it are gone, so it starts with "assert".
   */
  function AssertLineOf(text: string): (r: Option<string>)
    ensures r.None? <==> forall i :: 0 <= i < |SplitLines(text)| ==> !IsAssertLine(SplitLines(text)[i])
    ensures r.Some? ==> StartsWith(r.value, "assert")
  {
    var lines := SplitLines(text);
    match FirstWhere(lines, 0, IsAssertLine)
    case Some(i) =>
      DropMarkerShape(Strip(lines[i]));
      Some(DropMarker(Strip(lines[i])))
    case None => None
  }

  /** The line taken is the first assert line, stripped and without its marker. */
  lemma AssertLineOfFirst(text: string, i: int)
    requires 0 <= i < |SplitLines(text)| && IsAssertLine(SplitLines(text)[i])
    requires forall j :: 0 <= j < i ==> !IsAssertLine(SplitLines(text)[j])
    ensures AssertLineOf(text) == Some(DropMarker(Strip(SplitLines(text)[i])))
  {
    FirstWhereFinds(SplitLines(text), IsAssertLine, i);
  }

  /** `lines[-n:]`: the last `n` lines, or all of them when there are fewer. */
  function LastLines(lines: seq<string>, n: nat): (r: seq<string>)
    ensures |r| == if |lines| <= n then |lines| else n
    ensures r == lines[|lines| - |r|..]
  {
    if |lines| <= n then lines else lines[|lines| - n..]
  }

  /** Stage 6: `_first_nonempty` of the last five lines: the first of them that is not blank, stripped. */
  function TrailingLine(text: string): (r: Option<string>)
    ensures var tail := LastLines(SplitLines(text), 5);
            r.None? <==> forall i :: 0 <= i < |tail| ==> !IsNonBlank(tail[i])
    ensures r.Some? ==> r.value != ""
  {
    var tail := LastLines(SplitLines(text), 5);
    match FirstWhere(tail, 0, IsNonBlank)
    case Some(i) => Some(Strip(tail[i]))
    case None => None
  }

  /** The line taken is the first non-blank one of the last five, stripped. */
  lemma TrailingLineOfFirst(text: string, i: int)
    requires var tail := LastLines(SplitLines(text), 5);
             0 <= i < |tail| && IsNonBlank(tail[i]) && forall j :: 0 <= j < i ==> !IsNonBlank(tail[j])
    ensures TrailingLine(text) == Some(Strip(LastLines(SplitLines(text), 5)[i]))
  {
    FirstWhereFinds(LastLines(SplitLines(text), 5), IsNonBlank, i);
  }

  /** An exception name and the optional detail after it. */
  datatype ExcInfo = ExcInfo(name: string, detail: Option<string>)

  /**
   * Stage 6's pattern on one line: group 1 of the match the engine reports,
   * the exception name, and group 2 stripped, its detail; an empty group 2
   * gives no detail. The name is a word ending in "Error" or one of the
   * literals "Exception", "Failure", "FAILURE".
   */
  function ExceptionOnLine(l: string): (r: Option<ExcInfo>)
    ensures r.None? <==> forall p, e :: !ExcNameAt(l, p, e)
    ensures forall p, e :: FirstExc(l, p, e) ==>
              r == Some(ExcInfo(l[p..e], if ExcDetail(l, e) != "" then Some(Strip(ExcDetail(l, e))) else None))
    ensures r.Some? ==>
              var n := r.value.name;
              (|n| >= 6 && n[|n| - 5..] == "Error" && forall k :: 0 <= k < |n| ==> IsWordChar(n[k]))
              || n == "Exception" || n == "Failure" || n == "FAILURE"
    ensures r.Some? && r.value.detail.Some? ==> r.value.detail.value != []
  {
    match SearchExc(l, 0)
    case None => None
    case Some(m) =>
      SearchExcIsFirst(l);
      ExcNameShape(l, m.start, m.stop);
      var g := ExcDetail(l, m.stop);
      Some(ExcInfo(l[m.start..m.stop], if g != "" then Some(Strip(g)) else None))
  }

  /** Stage 6: the exception named on the trailing line, and only there. */
  function TrailingException(text: string): (r: Option<ExcInfo>)
    ensures TrailingLine(text).None? ==> r.None?
    ensures TrailingLine(text).Some? ==>
              var l := TrailingLine(text).value;
              (r.None? <==> forall p, e :: !ExcNameAt(l, p, e))
              && (forall p, e :: FirstExc(l, p, e) ==> r.Some? && r.value.name == l[p..e])
              && r == ExceptionOnLine(l)
  {
    match TrailingLine(text)
    case None => None
    case Some(l) => ExceptionOnLine(l)
  }

  // ---------------------------------------------------------------------
  // Record assembly
  // ---------------------------------------------------------------------

  /** `longrepr_text.replace("\n", "\\n")`: every newline becomes a backslash and an 'n'. */
  function EscapeNewlines(s: string): (r: string)
    ensures '\n' !in r
  {
    ReplaceRemovesChar(s, '\n', "\\n");
    Replace(s, "\n", "\\n")
  }

  /** `nodeid.replace("/", "__").replace("::", "__").replace(":", "_")`. */
  function SafeNode(nodeId: string): (r: string)
    ensures '/' !in r && ':' !in r
  {
    var a := Replace(nodeId, "/", "__");
    var b := Replace(a, "::", "__");
    ReplaceRemovesChar(nodeId, '/', "__");
    ReplaceKeepsAbsent(a, "::", "__", '/');
    ReplaceKeepsAbsent(b, ":", "_", '/');
    ReplaceRemovesChar(b, ':', "_");
    Replace(b, ":", "_")
  }

  // ---------------------------------------------------------------------
  // The hook
  // ---------------------------------------------------------------------

  /**
   * `_first_nonempty`: the first line that is not blank, stripped, or
   * `None` when every line is blank.
   */
  method FirstNonEmpty(lines: seq<string>) returns (r: Option<string>)
    ensures r.Some? <==> FirstWhere(lines, 0, IsNonBlank).Some?
    ensures r.Some? ==> r.value == Strip(lines[FirstWhere(lines, 0, IsNonBlank).value]) && r.value != ""
  {
    for i := 0 to |lines|
      invariant forall j :: 0 <= j < i ==> !IsNonBlank(lines[j])
    {
      if lines[i] != "" && Strip(lines[i]) != "" {
        return Some(Strip(lines[i]));
      }
    }
    return None;
  }

  /** Stage 5's loop: the first assert line of the text, its marker removed. */
  method ScanAssertLine(text: string) returns (expr: Option<string>)
    ensures expr == AssertLineOf(text)
  {
    var lines := SplitLines(text);
    expr := None;
    var i := 0;
    while i < |lines|
      invariant 0 <= i <= |lines|
      invariant forall j :: 0 <= j < i ==> !IsAssertLine(lines[j])
    {
      if IsAssertLine(lines[i]) {
        expr := Some(DropMarker(Strip(lines[i])));
        FirstWhereFinds(lines, IsAssertLine, i);
        break;
      }
      i := i + 1;
    }
  }

  /** Stage 1: what the structured crash supplies. */
  method CrashStage(crash: Option<Crash>)
    returns (file: Option<string>, line: Option<int>, excType: Option<string>, excMsg: Option<string>)
    ensures file == CrashFile(crash) && line == CrashLine(crash)
    ensures excType == CrashType(crash) && excMsg == CrashMessage(crash)
  {
    file, line, excType, excMsg := None, None, None, None;
    if crash.Some? {
      var p, ln, msg := crash.value.path, crash.value.lineno, crash.value.message;
      if Truthy(p) {
        file := p;
      }
      if ln.Some? && TruthyLineNo(ln.value) {
        var n := IntOf(ln.value);
        if n.Some? {
          line := n;
        }
      }
      if Truthy(msg) {
        excMsg := msg;
        var w := LeadingWord(msg.value);
        if w != "" {
          excType := Some(w);
        }
      }
    }
  }

  /** Stage 2: a missing file or a zero or missing line is filled from the first `File "<path>", line <n>`. */
  method TracebackStage(file: Option<string>, line: Option<int>, text: string)
    returns (file': Option<string>, line': Option<int>)
    requires file.None? || Truthy(file)
    ensures file'.None? || Truthy(file')
    ensures file' == (if Truthy(file) then file else TracebackFile(text))
    ensures line' == (if TruthyInt(line) || TracebackLine(text).None? then line else TracebackLine(text))
  {
    file', line' := file, line;
    if !Truthy(file') || !TruthyInt(line') {
      var path, n := TracebackFile(text), TracebackLine(text);
      if path.Some? {
        file' := Or(file', path);
        if !TruthyInt(line') && n.Some? {
          line' := n;
        }
      }
    }
  }

  /** Stage 3: what is still missing is filled from the first `<path>:<n>`. */
  method CompactStage(file: Option<string>, line: Option<int>, text: string)
    returns (file': Option<string>, line': Option<int>)
    requires file.None? || Truthy(file)
    ensures file' == (if Truthy(file) then file else CompactFile(text))
    ensures line' == (if TruthyInt(line) || CompactLine(text).None? then line else CompactLine(text))
  {
    file', line' := file, line;
    if !Truthy(file') || !TruthyInt(line') {
      var path, n := CompactFile(text), CompactLine(text);
      if path.Some? {
        file' := Or(file', path);
        if !TruthyInt(line') && n.Some? {
          line' := n;
        }
      }
    }
  }

  /** Stage 4: the first `FAILURE: check …` sets the expression, the tag, and the fallbacks for type and message. */
  method CheckStage(excType: Option<string>, excMsg: Option<string>, text: string)
    returns (assertExpr: Option<string>, failureReason: Option<string>, excType': Option<string>, excMsg': Option<string>)
    ensures assertExpr == CheckExpr(text)
    ensures failureReason == (if CheckExpr(text).Some? then FailedTag(text) else None)
    ensures excType' == (if CheckExpr(text).Some? then Or(excType, Some("check")) else excType)
    ensures excMsg' == (if CheckExpr(text).Some? then Or(excMsg, CheckExpr(text)) else excMsg)
  {
    assertExpr, failureReason, excType', excMsg' := None, None, excType, excMsg;
    var maybeExpr := CheckExpr(text);
    if maybeExpr.Some? {
      assertExpr := maybeExpr;
      failureReason := FailedTag(text);
      excType' := Or(excType', Some("check"));
      excMsg' := Or(excMsg', maybeExpr);
    }
  }

  /** Stage 6: a still missing type (and message) read off the trailing line. */
  method TrailingStage(excType: Option<string>, excMsg: Option<string>, text: string)
    returns (excType': Option<string>, excMsg': Option<string>)
    ensures Truthy(excType) || TrailingException(text).None? ==> excType' == excType && excMsg' == excMsg
    ensures !Truthy(excType) && TrailingException(text).Some? ==>
              excType' == Some(TrailingException(text).value.name) &&
              excMsg' == (if Truthy(excMsg) then excMsg else TrailingException(text).value.detail)
  {
    excType', excMsg' := excType, excMsg;
    if !Truthy(excType) {
      var last := FirstNonEmpty(LastLines(SplitLines(text), 5));
      if last.Some? {
        var m3 := SearchExc(last.value, 0);
        if m3.Some? {
          excType' := Some(last.value[m3.value.start..m3.value.stop]);
          if !Truthy(excMsg) {
            var g := ExcDetail(last.value, m3.value.stop);
            excMsg' := if g != "" then Some(Strip(g)) else None;
          }
        }
      }
    }
  }

  /**
   * Stages 2 and 3 after stage 1: each field keeps a truthy value, and
   * otherwise takes the first truthy text location, the traceback one first.
   */
  method LocationStages(file: Option<string>, line: Option<int>, text: string)
    returns (file': Option<string>, line': Option<int>)
    requires file.None? || Truthy(file)
    ensures Truthy(file) ==> file' == file
    ensures !Truthy(file) && TracebackFile(text).Some? ==> file' == TracebackFile(text)
    ensures !Truthy(file) && TracebackFile(text).None? ==> file' == CompactFile(text)
    ensures TruthyInt(line) ==> line' == line
    ensures !TruthyInt(line) && TruthyInt(TracebackLine(text)) ==> line' == TracebackLine(text)
    ensures !TruthyInt(line) && !TruthyInt(TracebackLine(text)) ==>
              line' == (if CompactLine(text).Some? then CompactLine(text)
                        else if TracebackLine(text).Some? then TracebackLine(text)
                        else line)
  {
    file', line' := TracebackStage(file, line, text);
    file', line' := CompactStage(file', line', text);
  }

  /**
   * Stages 4 to 6 after stage 1: the check, the assert line and the
   * trailing exception, each filling only what is still missing.
   */
  method DiagnosisStages(excType: Option<string>, excMsg: Option<string>, text: string)
    returns (assertExpr: Option<string>, failureReason: Option<string>, excType': Option<string>, excMsg': Option<string>)
    requires excType.None? || Truthy(excType)
    requires excMsg.None? || Truthy(excMsg)
    requires Truthy(excType) ==> Truthy(excMsg)
    ensures CheckExpr(text).Some? && CheckExpr(text).value != "" ==> assertExpr == CheckExpr(text)
    ensures (CheckExpr(text).None? || CheckExpr(text).value == "") ==>
              assertExpr == (if AssertLineOf(text).Some? then AssertLineOf(text) else CheckExpr(text))
    ensures failureReason == (if CheckExpr(text).Some? then FailedTag(text) else None)
    ensures Truthy(excType) ==> excType' == excType
    ensures !Truthy(excType) && CheckExpr(text).Some? ==> excType' == Some("check")
    ensures !Truthy(excType) && CheckExpr(text).None? ==>
              excType' == (if TrailingException(text).Some? then Some(TrailingException(text).value.name) else None)
    ensures Truthy(excMsg) ==> excMsg' == excMsg
    ensures !Truthy(excMsg) && CheckExpr(text).Some? ==> excMsg' == CheckExpr(text)
    ensures !Truthy(excMsg) && CheckExpr(text).None? ==>
              excMsg' == (if TrailingException(text).Some? then TrailingException(text).value.detail else None)
  {
    // 4) FAILURE: check <expr> : ...
    assertExpr, failureReason, excType', excMsg' := CheckStage(excType, excMsg, text);
    // 5) an assert line
    if !Truthy(assertExpr) {
      var a := ScanAssertLine(text);
      if a.Some? {
        assertExpr := a;
      }
    }
    // 6) the exception named near the end
    excType', excMsg' := TrailingStage(excType', excMsg', text);
  }

  /**
   * The body of `pytest_runtest_makereport` for a test that failed in its
   * call phase: the record and the name of the file it is written to.
   * It accepts every input and raises nothing.
   */
  method MakeReport(crash: Option<Crash>, text: string, nodeId: string, mutantId: string)
    returns (rec: Record, outName: string)
    ensures rec.mutantId == mutantId && rec.nodeId == nodeId
    // file: the crash path, else the first traceback location, else the first compact one
    ensures CrashFile(crash).Some? ==> rec.file == CrashFile(crash)
    ensures CrashFile(crash).None? && TracebackFile(text).Some? ==> rec.file == TracebackFile(text)
    ensures CrashFile(crash).None? && TracebackFile(text).None? ==> rec.file == CompactFile(text)
    // line: the first non-zero of the three; a zero stays only when nothing later replaces it
    ensures TruthyInt(CrashLine(crash)) ==> rec.line == CrashLine(crash)
    ensures !TruthyInt(CrashLine(crash)) && TruthyInt(TracebackLine(text)) ==> rec.line == TracebackLine(text)
    ensures !TruthyInt(CrashLine(crash)) && !TruthyInt(TracebackLine(text)) ==>
              rec.line == (if CompactLine(text).Some? then CompactLine(text)
                           else if TracebackLine(text).Some? then TracebackLine(text)
                           else CrashLine(crash))
    // assert_expr: a non-empty check expression, else the first assert line
    ensures CheckExpr(text).Some? && CheckExpr(text).value != "" ==> rec.assertExpr == CheckExpr(text)
    ensures (CheckExpr(text).None? || CheckExpr(text).value == "") ==>
              rec.assertExpr == (if AssertLineOf(text).Some? then AssertLineOf(text) else CheckExpr(text))
    // failure_reason: only together with a check
    ensures rec.failureReason == (if CheckExpr(text).Some? then FailedTag(text) else None)
    // exc_type: the crash message's leading word, else "check", else the trailing exception
    ensures CrashType(crash).Some? ==> rec.excType == CrashType(crash)
    ensures CrashType(crash).None? && CheckExpr(text).Some? ==> rec.excType == Some("check")
    ensures CrashType(crash).None? && CheckExpr(text).None? ==>
              rec.excType == (if TrailingException(text).Some? then Some(TrailingException(text).value.name) else None)
    // exc_msg: the whole crash message, else the check expression, else the trailing detail
    ensures CrashMessage(crash).Some? ==> rec.excMsg == CrashMessage(crash)
    ensures CrashMessage(crash).None? && CheckExpr(text).Some? ==> rec.excMsg == CheckExpr(text)
    ensures CrashMessage(crash).None? && CheckExpr(text).None? ==>
              rec.excMsg == (if TrailingException(text).Some? then TrailingException(text).value.detail else None)
    ensures rec.longrepr == EscapeNewlines(text)
    ensures outName == mutantId + "__" + SafeNode(nodeId) + ".json"
  {
    // 1) the structured crash
    var file, line, excType, excMsg := CrashStage(crash);
    // 2) and 3) the text locations
    file, line := LocationStages(file, line, text);
    // 4) to 6) the text diagnostics
    var assertExpr, failureReason;
    assertExpr, failureReason, excType, excMsg := DiagnosisStages(excType, excMsg, text);
    rec := Record(mutantId, nodeId, file, line, assertExpr, failureReason, excType, excMsg, EscapeNewlines(text));
    outName := mutantId + "__" + SafeNode(nodeId) + ".json";
  }

  // ---------------------------------------------------------------------
  // Properties of the stages
  // ---------------------------------------------------------------------

  /** The path group of one traceback match is not empty and holds no quote. */
  lemma TracebackPathShape(s: string, p: nat, q: nat, r: nat)
    requires TracebackAt(s, p, q, r)
    ensures s[p + 6..q] != [] && '"' !in s[p + 6..q]
  {
    var path := s[p + 6..q];
    forall k | 0 <= k < |path| ensures path[k] != '"' {
      assert path[k] == s[p + 6 + k];
    }
  }

  /** The path group of one compact match. */
  lemma CompactPathShape(s: string, p: nat, q: nat, r: nat)
    requires CompactAt(s, p, q, r)
    ensures |s[p..q]| >= 2 && !IsSpace(s[p..q][0]) && ':' !in s[p..q] && '\n' !in s[p..q]
  {
    var path := s[p..q];
    assert path[0] == s[p];
    assert ':' !in path by {
      forall k | 0 <= k < |path| ensures path[k] != ':' {
        assert path[k] == s[p + k];
      }
    }
    assert '\n' !in path by {
      forall k | 0 <= k < |path| ensures path[k] != '\n' {
        assert path[k] == s[p + k];
      }
    }
  }

  /** Group 2 of a check match lies on one line. */
  lemma CheckGroupOneLine(s: string, p: nat, b: nat, e: nat)
    requires CheckAt(s, p, b, e)
    ensures '\n' !in s[b..e]
  {
    forall k | 0 <= k < e - b ensures s[b..e][k] != '\n' {
      assert s[b..e][k] == s[b + k];
    }
  }


  /** One `MR…failed` match: it passes the guard, starts with "MR" and ends with "failed". */
  lemma TagMatchShape(s: string, i: nat, t: nat)
    requires TagAt(s, i, t)
    ensures HasTagToken(s)
    ensures SkipSpaces(s, t) + 6 <= |s| && IsTagText(s[i..SkipSpaces(s, t) + 6])
  {
    assert FoldPrefixAt(s, i, "mr") && i + 2 < |s| && IsTagChar(s[i + 2]);
    var f := SkipSpaces(s, t);
    var r := s[i..f + 6];
    forall k | 0 <= k < 2 ensures FoldEq(r[k], "mr"[k]) {
      assert r[k] == s[i + k];
    }
    forall k | 0 <= k < 6 ensures FoldEq(r[|r| - 6 + k], "failed"[k]) {
      assert r[|r| - 6 + k] == s[f + k];
    }
  }

  /** The guard `MR[0-9A-Za-z_\-]+` before the second search never rejects a tag that search finds. */
  lemma TagGuardNeverRejects(text: string)
    ensures SearchTag(text, 0).Some? ==> HasTagToken(text)
  {
    var m := SearchTag(text, 0);
    if m.Some? {
      TagMatchShape(text, m.value.start, m.value.mid);
    }
  }


  /** Removing the marker from an assert line leaves text that starts with "assert". */
  lemma DropMarkerShape(ls: string)
    requires StartsWith(ls, "E       assert") || StartsWith(ls, "assert ")
    ensures StartsWith(DropMarker(ls), "assert")
  {
    if StartsWith(ls, "E       assert") {
      assert ls[..14] == "E       assert";
      forall k | 1 <= k < 8 ensures IsSpace(ls[k]) {
        assert ls[k] == ls[..14][k];
      }
      assert ls[8] == ls[..14][8] == 'a';
      assert SkipSpaces(ls, 1) == 8;
      assert ls[8..][..6] == ls[..14][8..];
    } else {
      assert ls[0] == ls[..7][0] == 'a';
      assert ls[..6] == ls[..7][..6];
    }
  }


  /** One exception-name match: a word ending in "Error" or one of the literals. */
  lemma ExcNameShape(l: string, p: nat, e: nat)
    requires ExcNameAt(l, p, e)
    ensures var n := l[p..e];
            (|n| >= 6 && n[|n| - 5..] == "Error" && forall k :: 0 <= k < |n| ==> IsWordChar(n[k]))
            || n == "Exception" || n == "Failure" || n == "FAILURE"
  {
    var n := l[p..e];
    if ErrorNameAt(l, p, e) {
      assert n[|n| - 5..] == l[e - 5..e];
      forall k | 0 <= k < |n| ensures IsWordChar(n[k]) {
        assert n[k] == l[p + k];
      }
    } else if n == "AssertionError" {
      assert n[|n| - 5..] == "Error";
      forall k | 0 <= k < |n| ensures IsWordChar(n[k]) {
        assert n[k] == "AssertionError"[k];
      }
    }
  }


  /**
   * Stage 6 reads the first non-blank line of the last five, not the last
   * line: of two non-blank lines it takes the first.
   */
  lemma TrailingLineOfTwoLines(l1: string, l2: string)
    requires forall k :: 0 <= k < |l1| ==> !IsLineBreak(l1[k])
    requires forall k :: 0 <= k < |l2| ==> !IsLineBreak(l2[k])
    requires IsNonBlank(l1) && IsNonBlank(l2)
    ensures TrailingLine(l1 + "\n" + l2) == Some(Strip(l1))
  {
    SplitLinesOfNewline(l1, l2);
    SplitLinesOfLine(l2);
    assert SplitLines(l1 + "\n" + l2) == [l1, l2];
    assert LastLines([l1, l2], 5) == [l1, l2];
    assert FirstWhere([l1, l2], 0, IsNonBlank) == Some(0);
  }

  /** A text whose last five lines are blank names no trailing exception. */
  lemma BlankTailNamesNothing(text: string)
    requires forall j :: 0 <= j < |LastLines(SplitLines(text), 5)| ==> !IsNonBlank(LastLines(SplitLines(text), 5)[j])
    ensures TrailingLine(text).None? && TrailingException(text).None?
  {
  }

  // ---------------------------------------------------------------------
  // Properties of the record's strings
  // ---------------------------------------------------------------------

  /** The reverse of `EscapeNewlines`, for text that holds no backslash. */
  function UnescapeNewlines(s: string): string {
    Replace(s, "\\n", "\n")
  }

  /** Escaping loses nothing when the text holds no backslash of its own. */
  lemma {:induction false} EscapeNewlinesRoundTrip(s: string)
    requires '\\' !in s
    ensures UnescapeNewlines(EscapeNewlines(s)) == s
    decreases |s|
  {
    if |s| >= 1 {
      var e := EscapeNewlines(s[1..]);
      EscapeNewlinesRoundTrip(s[1..]);
      assert s[..1] == [s[0]];
      if s[0] == '\n' {
        assert EscapeNewlines(s) == "\\n" + e;
        assert ("\\n" + e)[..2] == "\\n";
        assert ("\\n" + e)[2..] == e;
        assert UnescapeNewlines(EscapeNewlines(s)) == "\n" + s[1..];
      } else {
        assert EscapeNewlines(s) == [s[0]] + e;
        if |[s[0]] + e| >= 2 {
          assert ([s[0]] + e)[..2] != "\\n" by { assert ([s[0]] + e)[..2][0] == s[0]; }
        }
        assert ([s[0]] + e)[1..] == e;
        if e == [] {
          assert s[1..] == [];
        }
      }
      assert [s[0]] + s[1..] == s;
    }
  }

  /** A node id with no '/' and no ':' is its own safe name. */
  lemma SafeNodeKeepsPlainIds(nodeId: string)
    requires '/' !in nodeId && ':' !in nodeId
    ensures SafeNode(nodeId) == nodeId
  {
    ReplaceWithoutOccurrence(nodeId, "/", "__");
    ReplaceWithoutOccurrence(nodeId, "::", "__");
    ReplaceWithoutOccurrence(nodeId, ":", "_");
  }

  /** Different node ids can share a safe name, and so an output file. */
  lemma SafeNodeCollides()
    ensures SafeNode("t/x") == SafeNode("t::x") == "t__x"
  {
    assert Replace("x", "/", "__") == "x";
    assert Replace("t/x", "/", "__") == "t__x";
    assert Replace("t::x", "/", "__") == "t::x" by {
      ReplaceWithoutOccurrence("t::x", "/", "__");
    }
    assert Replace("t__x", "::", "__") == "t__x" by {
      ReplaceWithoutOccurrence("t__x", "::", "__");
    }
    assert Replace("x", "::", "__") == "x";
    assert Replace("t::x", "::", "__") == "t__x" by {
      assert "t::x"[..2] != "::";
      assert "t::x"[1..] == "::x";
      assert "::x"[..2] == "::";
      assert "::x"[2..] == "x";
    }
    assert Replace("t__x", ":", "_") == "t__x" by {
      ReplaceWithoutOccurrence("t__x", ":", "_");
    }
  }
}
