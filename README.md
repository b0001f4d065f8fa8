# Failure-report extraction and mutant classification, in Dafny

This project models the two pieces of logic in a small mutation-testing
harness.

**The failure-report extractor** is the pytest hook in `conftest.py`. When a
test fails in its call phase, the hook builds one record from:

- the structured crash object pytest attaches (`reprcrash`: path, line number, message);
- the rendered failure text;
- the test's node id;
- the mutant id.

The record holds `file`, `line`, `assert_expr`, `failure_reason`, `exc_type`
and `exc_msg`. Six ordered stages fill these fields:

1. the crash object;
2. the first `File "<path>", line <n>`;
3. the first compact `<path>:<n>`;
4. a `FAILURE: check <expr> : …` line and its `MR… failed` tag;
5. the first assert line;
6. the exception named on the first non-blank of the last five lines.

Each stage fills only what is still missing. The record also carries the text
with its newlines escaped, and is written to a file named after the mutant id
and a "safe" form of the node id.

**The mutant classifier** is `get_mutant_type` in `mutmut_type.py`. It deletes
the spaces and newlines of a mutant's diff and tries seven rules in order; the
first rule that holds names the mutant's type, and "Line Change" is the
fallback when none does. Beside it sits the parsing of
mutant names out of the `mutmut results` listing.

Layout:

- `wrappers.dfy`: `Option`, Python's `None` or a value.
- `text.dfy` (module `Text`): the `str` operations the code relies on.
  These are `isspace`, `strip`, `splitlines`, `replace` and `int()` of a
  string, with Python's exact character sets.
- `patterns.dfy` (module `Patterns`): one hand-written scanner per regular
  expression. Each pattern has three parts:
  - a predicate saying when the pattern matches at a place with given group
    boundaries;
  - a function deciding the match at one position;
  - a search proved to return the match `re.search` reports: the leftmost
    start, then the engine's preference between matches at that start (greedy
    runs longest, the lazy group shortest).
- `conftest.dfy` (module `Conftest`): the hook itself.
  - `MakeReport` is imperative, as the hook is: it reassigns the six fields
    stage by stage through one method per stage.
  - Each stage method is proved against functions that state what that stage
    reads off its input.
  - `MakeReport`'s contract says, field by field, which stage's value ends up
    in the record.
- `mutant_type.dfy` (module `MutantTypes`): the classifier and the name
  parsing. Both are expressions in the source, so both are functions here.

Points where the model follows what the code does rather than what a reader
might expect:

- Stage 1 does not split the crash message at ':'. `exc_msg` is the whole
  message, and `exc_type` is its leading run of `[A-Za-z_0-9]`.
- Stage 6 takes the FIRST non-blank line of the last five, not the last one
  (`TrailingLineOfTwoLines`).
- A line number need not be positive. The crash can give 0 or a negative
  number, and 0 counts as missing, so later stages may replace it.
- `failure_reason` is the whole match, so it ends with the word "failed".
- Two of the eight labels can never be returned (`DivisionLabelsUnreachable`).

The value a text stage reads is stated against the regular expression
itself. For each pattern, `Patterns` has a predicate saying when it matches
with given group boundaries (`TracebackAt`, `CompactAt`, `CheckAt`, `TagAt`,
`ExcNameAt`) and a predicate saying that a match is the one `re.search`
reports (`FirstTraceback`, `FirstCompact`, `FirstCheck`, `FirstTag`,
`FirstExc`). The stage functions promise that the value they return is the
group of that match.

## Model

| member | source | states |
|---|---|---|
| `Conftest.FirstNonEmpty` | conftest.py:9-13 | Returns a line exactly when some line is non-empty and not blank; it is the first such line, stripped, and is never empty. |
| `Conftest.CrashFile` | conftest.py:37-41 | The crash path is adopted exactly when a crash is present and its path is truthy, and then unchanged. |
| `Conftest.CrashLine` | conftest.py:39-46 | A line comes from the crash only when its lineno is truthy, and for a truthy lineno it is exactly `int()` of it: absent when `int()` raises, including on text of more than 4300 digits. |
| `Conftest.LongLineNoIgnored` | conftest.py:42-46 | A text lineno of more than 4300 digits makes `int()` raise, so no line comes from the crash. |
| `Conftest.CrashMessage` | conftest.py:47-49 | The crash message is adopted exactly when it is truthy, and whole (not split at ':'). |
| `Conftest.CrashType` | conftest.py:47-52 | A type exists exactly when the message starts with a character of `[A-Za-z_0-9]`; it is the message's non-empty leading word. |
| `Conftest.CrashStage` | conftest.py:33-54 | The four values stage 1 produces are the crash path, lineno, type and message as the four functions above define them. |
| `Conftest.DigitGroupParses` | conftest.py:61-64 | `int()` of a `(\d+)` group gives the decimal value of the digits when there are at most 4300 of them, and raises otherwise, so the `except` is taken exactly for longer groups. |
| `Conftest.TracebackFile` | conftest.py:58-60 | Present exactly when the search finds a match, and absent only when `TracebackAt` holds nowhere; it is group 1 of the match `re.search` reports (`FirstTraceback`), non-empty and free of double quotes. |
| `Conftest.TracebackLine` | conftest.py:58-64 | Present only with a match; for the match `re.search` reports it is the decimal value of group 2 when that has at most 4300 digits and absent otherwise, which is what `int()` gives (`DigitGroupParses`). |
| `Conftest.TracebackStage` | conftest.py:56-64 | A truthy file is kept, otherwise the traceback path is taken; a non-zero line is kept, otherwise a traceback line replaces it when there is one. |
| `Conftest.CompactFile` | conftest.py:68-70 | Present exactly when the search finds a match, and absent only when `CompactAt` holds nowhere; it is group 1 of the match `re.search` reports (`FirstCompact`): at least two characters, no leading whitespace, no ':' and no newline. |
| `Conftest.CompactLine` | conftest.py:68-74 | Present only with a compact match; for the match `re.search` reports it is the decimal value of group 2 when that has at most 4300 digits and absent otherwise. |
| `Conftest.CompactStage` | conftest.py:66-74 | Same precedence as stage 2, with the compact location. |
| `Conftest.LocationStages` | conftest.py:56-74 | Stages 2 then 3: a truthy file is kept, else the traceback path, else the compact path; a non-zero line is kept, else the first non-zero text line, with a zero line replaced by either. |
| `Conftest.CheckExpr` | conftest.py:77-80 | Present exactly when the search finds a match, and absent only when `CheckAt` holds nowhere; it is group 2 of the match `re.search` reports (`FirstCheck`), stripped, so it lies on one line with no whitespace at either end. |
| `Conftest.TagMatch` | conftest.py:82-84 | Present exactly when the search finds a match, and absent only when `TagAt` holds nowhere; the text starts with "MR" and ends with "failed", in any case. |
| `Conftest.TagMatchOfFirst` | conftest.py:82-84 | The text taken is the whole leftmost, longest-label match (`FirstTag`), from "MR" through "failed". |
| `Conftest.FailedTag` | conftest.py:81-84 | The guard search never changes the outcome: the failure reason is exactly the tag match. |
| `Conftest.TagMatchShape` | conftest.py:81-84 | Every tag match passes the `MR[0-9A-Za-z_\-]+` guard, and its text has the shape `TagMatch` promises. |
| `Conftest.TagGuardNeverRejects` | conftest.py:81-82 | Whenever the second search matches, the guard search also matches. |
| `Conftest.CheckStage` | conftest.py:76-86 | With a check match: the expression, the tag, type "check" unless one is set, and the expression as message unless one is set; without one, nothing changes. |
| `Conftest.IsAssertLine` | conftest.py:91-92 | Defines stage 5's test: the stripped line starts with "E       assert" or with "assert ". |
| `Conftest.DropMarker` | conftest.py:93 | `re.sub(r'^E\s*', '', ls)` keeps a suffix of the line: a line not starting with 'E' is unchanged; otherwise the 'E' and all whitespace after it are removed, and nothing else. |
| `Conftest.FirstWhere` | conftest.py:90-94 | The index of the first line satisfying the test: it satisfies it and no earlier line does; absent exactly when no line does. |
| `Conftest.FirstWhereFinds` | conftest.py:90-94 | An index whose line satisfies the test, with no earlier line satisfying it, is the one the scan stops at. |
| `Conftest.DropMarkerShape` | conftest.py:92-93 | Removing `^E\s*` from a line that starts with "E       assert" or "assert " leaves text that starts with "assert". |
| `Conftest.AssertLineOf` | conftest.py:89-94 | Absent exactly when no line of `splitlines()` is an assert line; when present it starts with "assert". |
| `Conftest.AssertLineOfFirst` | conftest.py:89-94 | With `i` the first assert line, stage 5 takes line `i`, stripped, with its marker removed. |
| `Conftest.ScanAssertLine` | conftest.py:89-94 | The loop with its early `break` yields exactly the first assert line, with its marker removed. |
| `Conftest.LastLines` | conftest.py:98 | `lines[-n:]`: the last `n` lines, or all of them when there are fewer, as a suffix of the list. |
| `Conftest.TrailingLine` | conftest.py:97-99 | Absent exactly when each of the last five lines is blank; when present it is not empty. |
| `Conftest.TrailingLineOfFirst` | conftest.py:98 | With `i` the first non-blank of the last five lines, stage 6 reads line `i`, stripped. |
| `Conftest.TrailingLineOfTwoLines` | conftest.py:98 | Of two non-blank lines, stage 6 reads the first, stripped, not the last. |
| `Conftest.BlankTailNamesNothing` | conftest.py:97-99 | When the last five lines are blank, no line is read and no exception is named. |
| `Conftest.ExcNameShape` | conftest.py:100-102 | A matched exception name is a word of `[A-Za-z_0-9]` ending in "Error" with at least one character before it, or one of "Exception", "Failure", "FAILURE". |
| `Conftest.ExceptionOnLine` | conftest.py:100-104 | Absent exactly when `ExcNameAt` holds nowhere on the line; otherwise the name is group 1 of the match `re.search` reports (`FirstExc`) and the detail is group 2 stripped, absent when group 2 is empty; the name has the shape above. |
| `Conftest.TrailingException` | conftest.py:97-104 | Without a trailing line there is no exception; with one, there is an exception exactly when the pattern matches on that line, named by group 1 of the match `re.search` reports, and it is what `ExceptionOnLine` reads off that line. |
| `Conftest.TrailingStage` | conftest.py:96-104 | A truthy type is kept with its message; otherwise the trailing exception's name becomes the type, and its detail becomes the message unless a truthy one exists. |
| `Conftest.DiagnosisStages` | conftest.py:76-104 | Stages 4 to 6: the assert expression is a non-empty check expression, else the first assert line, else the (empty) check expression; the tag only with a check; type and message each from the crash, else from the check, else from the trailing exception. |
| `Conftest.MakeReport` | conftest.py:21-119 | The whole hook: field by field, the stage whose value lands in the record, in precedence order; `longrepr` is the escaped text; the output name is `<mutant>__<safe node>.json`. It accepts every input. |
| `Conftest.TracebackPathShape` | conftest.py:58 | The path group of a traceback match is non-empty and holds no double quote. |
| `Conftest.CompactPathShape` | conftest.py:68 | The path group of a compact match has the shape `CompactFile` promises. |
| `Conftest.CheckGroupOneLine` | conftest.py:77 | Group 2 of a check match holds no newline. |
| `Conftest.EscapeNewlines` | conftest.py:115 | The escaped text holds no newline. |
| `Conftest.EscapeNewlinesRoundTrip` | conftest.py:115 | Turning every backslash-n back into a newline restores the text, whenever the text holds no backslash of its own. |
| `Conftest.SafeNode` | conftest.py:118 | The safe node id holds no '/' and no ':'. |
| `Conftest.SafeNodeKeepsPlainIds` | conftest.py:118 | A node id without '/' and ':' is its own safe name. |
| `Conftest.SafeNodeCollides` | conftest.py:118-119 | "t/x" and "t::x" both become "t__x", so two tests can write to the same file. |
| `Patterns.LeadingWord` | conftest.py:50-52 | The leading word is a prefix of the message, made of `[A-Za-z_0-9]`, and maximal. |
| `Patterns.TracebackAt` | conftest.py:58 | Defines a match of `File \"([^\"]+)\", line (\d+)` at a start, with its two group boundaries. |
| `Patterns.MatchTracebackAt` | conftest.py:58 | At a given start, the traceback match is found when one exists, and it is the only one there. |
| `Patterns.TracebackPathEnds` | conftest.py:58 | The path group ends at the first '"' after `File "`; no other end is possible. |
| `Patterns.SearchTraceback` | conftest.py:58 | `re.search`: the result is a match, and no match starts earlier. |
| `Patterns.SearchTracebackIsFirst` | conftest.py:58 | The search from the start returns a match no other match starts before, and any such match is exactly what it returns. |
| `Patterns.FirstTracebackFound` | conftest.py:58 | The match no other starts before is the one the search reports. |
| `Patterns.CompactAt` | conftest.py:68 | Defines a match of `([^\s:][^:\n]+):(\d+)` followed by ':', whitespace or the end of the text, at a start, with its two group boundaries. |
| `Patterns.MatchCompactAt` | conftest.py:68 | At a given start, the compact match is found when one exists, and it is the only one there. |
| `Patterns.SearchCompact` | conftest.py:68 | The leftmost compact match. |
| `Patterns.SearchCompactIsFirst` | conftest.py:68 | The search from the start returns a match no other match starts before, and any such match is exactly what it returns. |
| `Patterns.FirstCompactFound` | conftest.py:68 | The match no other starts before is the one the search reports. |
| `Patterns.CheckAt` | conftest.py:77 | Defines a match of the check pattern, case-insensitive, at a start, with the boundaries of group 2. |
| `Patterns.ShortestExprEnd` | conftest.py:77 | The lazy `.+?` group takes the shortest end from which the rest of the pattern matches. |
| `Patterns.LongestGapExpr` | conftest.py:77 | Among the choices for `\s+`, the longest one that lets the rest match is taken, and with it the shortest group 2. |
| `Patterns.MatchCheckAt` | conftest.py:77 | At a given start, the check match is found when one exists, and it is the one the engine prefers. |
| `Patterns.SearchCheck` | conftest.py:77 | The leftmost check match, and at that start the engine's preferred one. |
| `Patterns.SearchCheckIsFirst` | conftest.py:77 | The search from the start returns the match preferred over every other, and any match so preferred is exactly what it returns. |
| `Patterns.PreferredBothWays` | conftest.py:77 | Two matches each preferred over the other are the same match, so the reported match is unique. |
| `Patterns.TagAt` | conftest.py:82 | Defines a match of `(MR[0-9A-Za-z_\-]+(?:_\d+)?)\s*failed`, case-insensitive, at a start, with the end of its label. |
| `Patterns.LongestTagAt` | conftest.py:82 | The greedy label gives back characters until "failed" follows; the result is the longest label that works. |
| `Patterns.MatchTagAt` | conftest.py:82 | At a given start, the tag match is found when one exists, with the longest label. |
| `Patterns.SearchTag` | conftest.py:82-84 | The leftmost `MR… failed` match, with the longest label; the match ends at the end of "failed". |
| `Patterns.SearchTagIsFirst` | conftest.py:82-84 | The search from the start returns the leftmost match with the longest label there, and any such match is exactly what it returns. |
| `Patterns.ExcNameAt` | conftest.py:100 | Defines where group 1 of the exception pattern can match: a word ending in "Error", or one of the literal alternatives. |
| `Patterns.LongestErrorEnd` | conftest.py:100 | `[A-Za-z_0-9]+Error` at a start takes the longest run that ends in "Error". |
| `Patterns.MatchExcAt` | conftest.py:100 | At a given start, a name is found when any alternative matches; the first alternative wins, with its longest run. |
| `Patterns.SearchExc` | conftest.py:100 | The leftmost exception name. |
| `Patterns.KeywordUnique` | conftest.py:100 | The literal alternatives never overlap at one place: at most one of them matches there. |
| `Patterns.SearchExcIsFirst` | conftest.py:100 | The search from the start returns the leftmost name, with the first alternative preferred and its longest run, and any such name is exactly what it returns. |
| `Patterns.ExcDetail` | conftest.py:100-104 | Group 2: after an optional ':' and the whitespace that follows, the rest of the line; it holds no newline and does not start with whitespace. |
| `Text.Strip` | conftest.py:11-12 | `strip()`: no whitespace at either end; empty exactly when the text is all whitespace; text already without it is unchanged. |
| `Text.StripSlice` | conftest.py:11-12 | What `strip()` removes is whitespace at the two ends only: the result is a slice of the text with nothing but whitespace before and after it. |
| `Text.StripKeepsAbsent` | conftest.py:79 | Stripping adds no character. |
| `Text.SplitLines` | conftest.py:90 | `splitlines()`: no line holds a break, and there are no lines exactly when the text is empty. |
| `Text.SplitLinesOfLine` | conftest.py:98 | A non-empty text without breaks is one line. |
| `Text.SplitLinesOfNewline` | conftest.py:98 | A line followed by "\n" is split off as the first line. |
| `Text.SplitLinesOfBreak` | conftest.py:90 | A line followed by any break character of `splitlines()` (`\n`, `\r`, `\v`, `\f`, `\x1c`-`\x1e`, `\x85`, `\u2028`, `\u2029`) is split off as the first line, except a `\r` that a `\n` follows. |
| `Text.SplitLinesOfCrLf` | conftest.py:90 | "\r\n" is one break: a line followed by it is split off as the first line. |
| `Text.SplitLinesLosesOnlyBreaks` | conftest.py:90 | The lines put back together are the text with its line breaks deleted. |
| `Text.Replace` | conftest.py:115-118 | `str.replace`: the same length when the pattern and its replacement have the same length, no shorter when the replacement is longer, no longer when it is shorter; empty text stays empty. |
| `Text.ReplaceRemovesChar` | conftest.py:115 | Replacing a character by text without it leaves none of it. |
| `Text.ReplaceKeepsAbsent` | conftest.py:118 | A character in neither the text nor the replacement is not in the result. |
| `Text.ReplaceWithoutOccurrence` | conftest.py:118 | Text without the pattern's first character is unchanged. |
| `Text.ParseSigned` | conftest.py:44 | A parsed number has at least one digit in its text. |
| `Text.UnsignedGroupsParse` | conftest.py:44 | Digit groups separated by single underscores, with at most 4300 digits, parse to their value. |
| `Text.SignedGroupsParse` | conftest.py:44 | A '+' or '-' before such groups gives their value, negated after '-'. |
| `Text.DoubleUnderscoreFails` | conftest.py:44 | Two underscores in a row make `int()` raise. |
| `Text.ParseInt` | conftest.py:44 | `int()` of a string: the whitespace it ignores is trimmed, then an optional sign and digit groups are read; absent where Python raises. Its properties are the lemmas around it. |
| `Text.TrimIntSpaces` | conftest.py:44 | No whitespace that `int()` ignores is left at either end, and text without any there is unchanged. |
| `Text.TrimIntSlice` | conftest.py:44 | What `int()` trims is whitespace at the two ends only: the trimmed text is a slice with nothing but that whitespace before and after it. |
| `Text.ParseIntNeedsDigit` | conftest.py:44-46 | `int()` raises on text without a digit, in particular on blank text. |
| `Text.DigitRunParses` | conftest.py:62 | `int()` of a run of digits gives its decimal value when the run has at most 4300 digits, and raises on a longer run. |
| `Text.NegatedRunParses` | conftest.py:44 | `int()` of a minus and a run of at most 4300 digits gives the negated value. |
| `Text.NatDigitsValue` | conftest.py:44 | The digits of `str(n)` spell `n`. |
| `Text.ParseIntDecimal` | conftest.py:44 | `int(str(n)) == n` for every integer that `str()` renders, that is one of at most 4300 digits. |
| `Text.Without` | mutmut_type.py:14 | Deleting a character leaves none of it and does not lengthen the text. |
| `Text.ReplaceByEmptyIsWithout` | mutmut_type.py:14 | Replacing a character by "" is deleting it. |
| `Text.WithoutKeeps` | mutmut_type.py:14 | Deleting one character keeps every other character. |
| `MutantTypes.Normalise` | mutmut_type.py:14 | The normalised code holds no space and no newline. |
| `MutantTypes.NormaliseDeletes` | mutmut_type.py:14 | The normalised code is the diff with spaces and newlines deleted; every other character is kept. |
| `MutantTypes.NoneRule` | mutmut_type.py:17 | Defines rule 1: the code contains `=None`. |
| `MutantTypes.BoundaryRule` | mutmut_type.py:21 | Defines rule 2: `whilelow<high`, `low+=<digits>` or `high-=<digits>` occurs. |
| `MutantTypes.ArithmeticRule` | mutmut_type.py:25 | Defines rule 3: `return[+-]?(low[+-]<digits>)` occurs, or one of `+ - * / %`. |
| `MutantTypes.DivisionRule` | mutmut_type.py:29 | Defines rule 4a: `mid=(low+high)/2` occurs. |
| `MutantTypes.FloorDivisionRule` | mutmut_type.py:31 | Defines rule 4b: `mid=(low+high)//2` occurs. |
| `MutantTypes.ComparisonRule` | mutmut_type.py:35 | Defines rule 5: `midVal[<>]=key` or `midVal[<>=!]=midVal` occurs. |
| `MutantTypes.BooleanRule` | mutmut_type.py:39 | Defines rule 6, on the raw diff: "True" or "False" occurs. |
| `MutantTypes.MutantType` | mutmut_type.py:14-43 | The result is one of the eight labels; "None Assignment" exactly when rule 1 holds, "Boundary Change" exactly when rule 2 is the first to hold, "Arithmetic Operator Replacement" exactly when rule 3 is. |
| `MutantTypes.ArithmeticRuleIsOperator` | mutmut_type.py:25 | Rule 3 holds exactly when the code has one of `+ - * / %`; its first alternative adds nothing. |
| `MutantTypes.DivisionPatternsHaveOperator` | mutmut_type.py:25-32 | Code matching either division pattern holds a '+'. |
| `MutantTypes.DivisionLabelsUnreachable` | mutmut_type.py:24-32 | "Division Replacement" and "Floor Division" are never returned. |
| `MutantTypes.LaterLabels` | mutmut_type.py:34-43 | Past rules 1 to 3: "Comparison Replacement" when rule 5 holds, else "Boolean Replacement" when the raw diff has "True" or "False", else "Line Change". |
| `MutantTypes.SignedDiffsStopEarly` | mutmut_type.py:14-26 | A diff holding '+' or '-' (as every unified diff does) gets one of the first three labels. |
| `MutantTypes.BeforeColon` | mutmut_type.py:54 | `split(":")[0]`: a prefix of the line, holding no ':', ending at the first ':' or at the end. |
| `MutantTypes.NamesOf` | mutmut_type.py:54 | At most one name per line, and no name holds ':'. |
| `MutantTypes.NamesOfLine` | mutmut_type.py:54 | A blank line gives no name; any other line gives its text before the first ':', stripped. |
| `MutantTypes.NamesOfAppend` | mutmut_type.py:54 | Names are collected line by line, in order: the names of two blocks of lines are the names of each, concatenated. |
| `MutantTypes.MutantNames` | mutmut_type.py:54 | From the stripped output of `mutmut results`: at most one name per line, and no name holds ':'. |
| `MutantTypes.NameOfEntry` | mutmut_type.py:54 | The line `<name>:<rest>` yields `<name>` when the name has no ':' and no surrounding whitespace. |
| `MutantTypes.NamesOfListing` | mutmut_type.py:49-54 | A listing with one `<name>:<rest>` line per mutant yields exactly those names, in order. |
| `MutantTypes.JoinLinesSplits` | mutmut_type.py:54 | `splitlines()` undoes joining non-empty lines without breaks by "\n". |
| `MutantTypes.MutantNamesOfListing` | mutmut_type.py:49-54 | The printed listing, one `<name>:<rest>` line per mutant, parses back into exactly those names, in order. |

## Left out

- Writing the record: creating the log directory (conftest.py:6-7), opening the output file and serialising the record as JSON (conftest.py:119-124). The model stops at the record value and the file name.
- The hook's wrapper and guard (conftest.py:15-20): the model starts inside the branch for a test that failed in its call phase.
- The environment variable `MUTANT_ID` and its "unknown" default (conftest.py:21), and `item.nodeid` (conftest.py:22): both are parameters.
- Where the text comes from (conftest.py:23): `longreprtext` or `str(longrepr)` is not modelled; the text is a parameter.
- Attribute probing with `getattr` and `str()` on pytest's objects (conftest.py:34-39, 47-49): the crash is an optional record of an optional string path, an optional lineno (an int or a string) and an optional string message. Objects of other types, and the exceptions their conversions could raise (caught at conftest.py:53-54), are not modelled.
- `\d` and `int()` accept every Unicode decimal digit; the model knows only the ASCII digits 0-9.
- The limit on the digits `int()` converts is CPython's default of 4300 (`IntMaxStrDigits`); a limit changed through `sys.set_int_max_str_digits` or the `PYTHONINTMAXSTRDIGITS` environment variable, and interpreters without the limit, are not modelled.
- The regular-expression engine itself: each pattern is a scanner written for that one pattern, proved to return the match the engine's search order picks.
- `get_mutant_type`'s call of `mutmut show` and its "unknown" result when that call fails (mutmut_type.py:9-12): the diff text is a parameter.
- `main` (mutmut_type.py:46-63): the call of `mutmut results`, its error message, and the printing loop. The listing text is the parameter of `MutantTypes.MutantNames`.
- `test_mutants_runner.py` and `small_demo.py`: the mutant loading, test running and logging scaffolding around the two core files is not part of this model.
- Conftest.AssertLineOf: its own contract states when a line is found and its shape; which line it is, is stated beside it by `Conftest.AssertLineOfFirst`, to keep each proof small.
- Conftest.TrailingLine: its own contract states when a line is found and that it is not empty; which line it is, is stated beside it by `Conftest.TrailingLineOfFirst`.
- Conftest.TagMatch: its own contract states when a match is found and its shape; its exact text is stated beside it by `Conftest.TagMatchOfFirst`.
- Text.Replace: its own contract states lengths only; which characters the result holds is stated by `Text.ReplaceRemovesChar`, `Text.ReplaceKeepsAbsent`, `Text.ReplaceWithoutOccurrence` and `Text.ReplaceByEmptyIsWithout`.
- Text.ParseInt: it carries no contract of its own; `int()` is described by `Text.ParseIntNeedsDigit`, `Text.UnsignedGroupsParse`, `Text.SignedGroupsParse`, `Text.DoubleUnderscoreFails`, `Text.DigitRunParses`, `Text.NegatedRunParses` and `Text.ParseIntDecimal`.
- MutantTypes.NamesOf: its own contract states a bound and the absence of ':'; the name each line gives is stated by `MutantTypes.NamesOfLine`, and their order by `MutantTypes.NamesOfAppend`.
- Text.Strip: its own contract states the ends, emptiness and the unchanged case; that the result is a slice of the input with only whitespace removed around it is stated beside it by `Text.StripSlice`, because that `exists` in every caller's context makes the other proofs too costly.
- Text.TrimIntSpaces: likewise, that only the whitespace `int()` ignores is removed, from the two ends, is stated beside it by `Text.TrimIntSlice`.
