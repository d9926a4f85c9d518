# Configurable folding provider in Dafny

This project models the folding-range provider in `src/foldingProvider.ts`.
The provider is given a list of begin/end delimiter configurations. It
compiles each configuration into a pair of regular expressions and scans a
document line by line. It keeps a stack of open begins, and every end closes
the innermost open begin, whatever pattern produced either event.

- `Escape` models `escapeRegex`, which puts a backslash in front of every
  regular-expression operator character.
- `Config` models `addRegex` as a function. It also models the `regexes` list
  that the constructor builds from one configuration or an array of them.
- `RegExp` models the host's regular-expression engine. The engine is seen
  only through two observations: whether a source compiles, and the length of
  the match a single pattern takes at a position.
- `Matching` models the generator `findOfRegexp`.
  - A specification function, `LineEvents`, gives everything it yields.
  - The method `FindOfRegexp` is the `while (true)` loop with its cursor
    `left`, proved equal to `LineEvents`.
- `Scanner` models the stack scanner of `provideFoldingRanges`. The result is
  a `Result`, because an end event that meets an empty stack throws.
- `Provider` holds the class `ConfigurableFoldingProvider`.
  - Its constructor and `AddRegex` update the `regexes` field.
  - `ProvideFoldingRanges` runs the nested loops over lines and events on a
    local `stack` and `foldingRanges`.
  - Each of these is proved against the functions above.
- `LiteralPatterns` is a concrete engine for escaped literal delimiters. It
  matches where the literal text occurs.
- `Walkthrough` uses `LiteralPatterns` to follow small documents folded with
  the `{`/`}` configuration.

The alternation `(?<b0>..)|(?<e0>..)|(?<b1>..)|...` is modelled as follows:

- The match is the leftmost position where any alternative matches.
- At that position, the first alternative in the order b0, e0, b1, e1, ...
  wins.
- After a match, the cursor moves one character past the match start, not past
  its end. This is `left + index + 1`, so overlapping matches are still found.

The scanner follows the code exactly:

- An end emits `(a + t, b - 1)`. So with the brace configuration,
  `["a {", "b", "c }", "d"]` folds `(0, 1)`.
- An end with an empty stack throws; it is not ignored.
- The code has no skip markers, no bottom offsets and no resynchronisation by
  pattern identity, so the model has none either.

## Model

| member | source | states |
|---|---|---|
| Escape.IsOperator | src/foldingProvider.ts:17 | Holds exactly for the fifteen characters of the class in `matchOperatorRegex`: the hyphen, the vertical bar, the backslash, braces, parentheses, brackets, caret, dollar, plus, star, question mark and dot. Letters, digits and the space are never among them. |
| Escape.EscapeRegex | src/foldingProvider.ts:17-21 | The output is the input plus one inserted backslash for each operator character. |
| Escape.EscapeAppend | src/foldingProvider.ts:17-21 | Escaping works character by character: escaping `a + b` is escaping `a`, then escaping `b`, so order is kept. |
| Escape.EscapeKeepsPlainText | src/foldingProvider.ts:17-21 | A string with no operator character is returned unchanged. |
| Escape.EscapeIsWellEscaped | src/foldingProvider.ts:17-21 | In every escaped string, each operator character is preceded by the backslash that was inserted for it. |
| Escape.UnescapeEscape | src/foldingProvider.ts:17-21 | Removing the inserted backslashes gives back the input. |
| Escape.EscapeUnescape | src/foldingProvider.ts:17-21 | Every well-escaped string is the escaped form of its literal text. |
| Config.AsList | src/foldingProvider.ts:26-35 | A single configuration is handled as a one-element list, and an array is handled in its own order. |
| Config.CompileOne | src/foldingProvider.ts:37-54 | The record `addRegex` pushes for one configuration, or none. A pushed record comes from a truthy regex pair or literal pair, both its sources compile, and its `offsetTop` is the configured one or 0. |
| Config.CompileAll | src/foldingProvider.ts:26-35 | The list the constructor builds: `addRegex` applied to each configuration in order, keeping the records that are pushed. It is never longer than the configuration list. |
| Config.CompileOneSome | src/foldingProvider.ts:37-51 | A pushed record has both sources compiled and `offsetTop` defaulting to 0. With a regex pair, the record holds `beginRegex`/`endRegex` verbatim, because the regex pair wins. Otherwise the literal pair is present and the record holds its escaped forms, whose literal text is the configured `begin`/`end`. |
| Config.CompileOneWhen | src/foldingProvider.ts:37-54 | A record is pushed exactly when the regex pair is truthy and both its sources compile, or, without a regex pair, when the literal pair is truthy and both escaped forms compile. The pushed record is the verbatim regex pair or the escaped literal pair, with `offsetTop` defaulting to 0. |
| Config.LiteralPairAlwaysCompiles | src/foldingProvider.ts:45-50 | If the engine compiles every well-escaped source, a configuration with only a literal pair is never dropped. |
| Config.CompileAllAppend | src/foldingProvider.ts:26-35 | Compiling a concatenation of configurations compiles the parts one after the other. |
| Config.CompileAllSingleton | src/foldingProvider.ts:31-33 | A lone configuration yields its own record if it compiles, and nothing otherwise. |
| Config.DroppedConfigHasNoEffect | src/foldingProvider.ts:52-53 | A configuration that compiles to nothing leaves the list exactly as if it were absent: a failure does not abort the others. |
| Config.CompileAllKeepsOrder | src/foldingProvider.ts:26-54 | There is a strictly increasing map from the list to the configurations. It hits every configuration that compiles, and each listed record is the one its configuration compiles to. So the list holds exactly the compiled records, in input order. |
| Provider.ConfigurableFoldingProvider.constructor | src/foldingProvider.ts:26-35 | `regexes` is the list of compiled records of the given configuration, or of each array element in turn. |
| Provider.ConfigurableFoldingProvider.AddRegex | src/foldingProvider.ts:37-54 | `regexes` grows by the record of the configuration, or stays unchanged when the configuration has no complete pair or does not compile. |
| Matching.MatchAlternation | src/foldingProvider.ts:62-65 | `line.substring(left).match(str)` on the combined alternation. When it matches, the match starts within the text and its alternative is one of the 2n groups `b0, e0, ..., b<n-1>, e<n-1>`. |
| Matching.FirstAltAtSpec | src/foldingProvider.ts:62-65 | The alternative found at a position matches there and no earlier alternative does. None is found only when no alternative matches. |
| Matching.FirstMatchFromSpec | src/foldingProvider.ts:62-65 | The alternation's match is at the leftmost position where any alternative matches, with the first alternative matching there. There is no match only when nothing matches anywhere. |
| Matching.TieBreak | src/foldingProvider.ts:62-65 | When several alternatives match at the same position, the lowest pattern index wins, and for one pattern its begin wins over its end. |
| Matching.LineEventsFrom | src/foldingProvider.ts:59-82 | What `findOfRegexp` yields from cursor `left` on: the event of each match, turn by turn, with the cursor moved to one past the match start. There are at most as many events as characters after the cursor. |
| Matching.LineEvents | src/foldingProvider.ts:59-82 | What `findOfRegexp` yields for a whole line. There are at most as many events as characters on the line. |
| Matching.LineHits | src/foldingProvider.ts:60-81 | The match starts the generator visits lie on the line and are strictly increasing. |
| Matching.LineEventsFromHits | src/foldingProvider.ts:66-77 | The generator yields one event per match: a begin for a `b<i>` group and an end for an `e<i>` group, of pattern `i`. |
| Matching.LineEventsOrdered | src/foldingProvider.ts:60-77 | A line's events are one per match, in strictly increasing order of match start. |
| Matching.YieldGroup | src/foldingProvider.ts:68-77 | The index loop yields exactly one event for a match: the event of the group that matched. |
| Matching.GeneratorStep | src/foldingProvider.ts:65-77 | One turn of the loop yields the event of the match and moves the cursor to `left + index + 1`, which stays within the line. It keeps the loop invariant: what has been yielded, followed by what the rest of the line yields, is everything the line yields. |
| Matching.FindOfRegexp | src/foldingProvider.ts:59-82 | The loop yields exactly the line's events, and it ends when nothing matches after the cursor. |
| Matching.FirstMatchOnLine | src/foldingProvider.ts:65-67 | For patterns that are independent of the cursor, matching the rest of the line from `left` finds the first position of the whole line from `left` where a match starts, with the first alternative there. It finds nothing only when nothing matches from `left` on. |
| Matching.HitsAreAllMatchPositions | src/foldingProvider.ts:65-67 | Because the cursor moves only one character past each match start, a match starts at a visited position exactly when some alternative matches there, even inside an earlier match. |
| Matching.HitsTakeFirstAlternative | src/foldingProvider.ts:62-67 | Every visited match carries the first alternative matching at its start. |
| Matching.SingleMatchPosition | src/foldingProvider.ts:60-81 | A line whose alternatives match at only one position yields exactly one match there. |
| Matching.NoMatchFrom | src/foldingProvider.ts:78-80 | When nothing matches after the cursor, the generator stops and yields nothing more. |
| Scanner.Step | src/foldingProvider.ts:85-97 | The `switch` for one event. It fails exactly for an end event on an empty stack. Otherwise a begin deepens the stack by one and emits nothing; an end shortens it by one and appends at most one range, keeping the earlier ranges. |
| Scanner.Run | src/foldingProvider.ts:83-101 | The events handled one after the other, stopping at the first error. After a run without error, the ranges have grown by at most one per event. |
| Scanner.Scan | src/foldingProvider.ts:83-101 | What `provideFoldingRanges` returns or throws. On success there are at most as many ranges as events in the document. |
| Scanner.BeginPushesFront | src/foldingProvider.ts:86-88 | A begin puts `{t: offsetTop, i: line}` at the front of the stack. The stack grows by exactly one, the entries below are unchanged, and no range is emitted. |
| Scanner.EndPopsFront | src/foldingProvider.ts:89-97 | An end on a non-empty stack removes exactly the front entry. It appends `(a + t, b - 1)` when the begin line `a` differs from the end line `b`, and nothing when they are equal. |
| Scanner.UnmatchedEndThrows | src/foldingProvider.ts:90-91 | An end event on an empty stack throws, on that event's line, whatever follows. |
| Scanner.RunShape | src/foldingProvider.ts:83-100 | After a run without error, the stack depth is the initial depth plus the begins minus the ends. Ranges are only appended, at most one per end event. |
| Scanner.RunFailsIffUnderflow | src/foldingProvider.ts:89-96 | A run fails exactly when some prefix of the events holds more ends than the initial stack and that prefix's begins can pop. |
| Scanner.StepKeepsInv | src/foldingProvider.ts:85-97 | One event keeps the scanner invariant. Open entries lie on lines seen so far and carry a configured offset. Each range ends before the current line, and its start minus some configured offset lies between 0 and its end. Ranges come in non-decreasing order of their end. |
| Scanner.StepKeepsTrace | src/foldingProvider.ts:85-97 | One event keeps every open entry and every range traced to the events seen. An entry `{t, i}` comes from a begin event on line `i` with offset `t`. A range comes from a begin event on a line `a` no later than the range's end, with start `a + offsetTop`, and from a later end event on the line after the range's end. |
| Scanner.RunKeepsTrace | src/foldingProvider.ts:83-100 | A run from the empty state over events in line order keeps the same trace. |
| Scanner.RunKeepsInv | src/foldingProvider.ts:83-100 | A run over events in line order keeps the same invariant. |
| Scanner.DocEventsShape | src/foldingProvider.ts:83-84 | The document's events come line by line, in document order. Each is tagged with its line and carries one of the compiled patterns. |
| Scanner.RunAfterError | src/foldingProvider.ts:90 | Once the scan has thrown, later events do not change the outcome. |
| Scanner.ScanRanges | src/foldingProvider.ts:83-101 | Every returned range ends at a line from 0 to the second-to-last line, and its start minus some configured `offsetTop` lies between 0 and its end. Ranges come in non-decreasing order of their end, and there are at most as many as there are end events. |
| Scanner.ScanRangesTraced | src/foldingProvider.ts:83-101 | Every returned range `(start, end)` comes from the document's events. There is a begin event on a line `a` no later than `end`, with `start == a + offsetTop` of that begin's pattern. After it there is an end event on line `end + 1`. |
| Scanner.ZeroOffsetRangesAreOrdered | src/foldingProvider.ts:92-93 | With every `offsetTop` equal to 0, each range starts no later than it ends. |
| Scanner.ScanFailsIffUnderflow | src/foldingProvider.ts:83-101 | `provideFoldingRanges` throws exactly when, at some point of the document, more ends than begins have been seen. |
| Scanner.NoEndsNoRanges | src/foldingProvider.ts:83-101 | A document without end events folds nothing and does not throw: begins still open at the end produce no range. |
| Scanner.StepGuarded | src/foldingProvider.ts:89-97 | The corrected `switch`. An end event on an empty stack leaves the state unchanged; wherever the step as written succeeds, it takes the same step. |
| Scanner.RunGuarded | src/foldingProvider.ts:83-100 | The corrected steps one after the other. The ranges grow by at most one per event. |
| Scanner.ScanGuarded | src/foldingProvider.ts:83-101 | The corrected scan. It always returns ranges, at most as many as events in the document. |
| Scanner.GuardedAgreesWithoutError | src/foldingProvider.ts:89-97 | Wherever the scan as written does not throw, the corrected scan takes the same steps. |
| Scanner.ScanGuardedAgrees | src/foldingProvider.ts:83-101 | Wherever the scan as written does not throw, the corrected scan returns the same ranges. |
| Scanner.GuardedIgnoresUnmatchedEnd | src/foldingProvider.ts:91 | In the corrected scan, an end event with no open begin is ignored, and what follows is scanned as if it were not there. |
| Provider.ScanLine | src/foldingProvider.ts:84-99 | The inner loop over one line's events ends in the state of running those events, or in the error of the first end event that meets an empty stack. |
| Provider.ConfigurableFoldingProvider.ProvideFoldingRanges | src/foldingProvider.ts:56-102 | The method returns the ranges of the scan over all lines, or the error it throws. |
| LiteralPatterns.LiteralCursorIndependent | src/foldingProvider.ts:65 | For literal delimiters, matching on `line.substring(left)` is matching on the line at an offset of `left`. |
| LiteralPatterns.LiteralAnyMatch | src/foldingProvider.ts:62-65 | For literal delimiters, the alternation matches at a position exactly when some configured delimiter occurs there. |
| LiteralPatterns.LiteralHitsAreOccurrences | src/foldingProvider.ts:59-81 | For literal delimiters, the generator visits every position where a delimiter occurs, even inside an earlier delimiter. It takes the first delimiter in alternation order that occurs there. |
| LiteralPatterns.NoOccurrenceNoEvents | src/foldingProvider.ts:78-80 | A line on which no delimiter occurs yields nothing. |
| Walkthrough.BracesCompile | src/foldingProvider.ts:45-50 | `{begin: "{", end: "}"}` compiles to the record `{begin: /\{/, end: /\}/, offsetTop: 0}`. |
| Walkthrough.BeginThenEnd | src/foldingProvider.ts:86-96 | A begin on line `i` and a later end on line `j` leave an empty stack and the single range `(i + offsetTop, j - 1)`. |
| Walkthrough.FoldsUpToLineBeforeEnd | src/foldingProvider.ts:83-101 | With the brace configuration, `["a {", "b", "c }", "d"]` folds to `[(0, 1)]`: the range ends on the line before the closing delimiter. |
| Walkthrough.UnmatchedCloseOnFirstLine | src/foldingProvider.ts:90-91 | With the brace configuration, `["c }"]` throws on line 0 as written. The corrected scan returns no range. |

## Left out

- The `vscode` types are not modelled. A `TextDocument` is a sequence of line strings, and `FoldingRange` is a pair of integers.
- The JavaScript regular-expression engine is a parameter, `RegExp.Engine`. Its `compiles` gives whether `new RegExp` throws. Its `matchAt` gives the length a single pattern takes at a position.
  - How the alternation combines the patterns is modelled: leftmost match first, then alternation order.
  - What a user's pattern matches is not modelled.
  - Patterns that can match the empty string are excluded by the `AllNonEmpty` precondition. A pattern that matches the empty string at the end of the line makes the generator loop forever. One that matches empty only elsewhere yields nothing for that match, because the empty group is falsy. Neither kind is modelled.
  - The results that relate matches on `line.substring(left)` to matches on the whole line hold for patterns that are independent of the cursor (`CursorIndependent`). This excludes anchors, look-behind and the word-boundary assertions `\b` and `\B`.
- The model assumes that alternative `k` of the combined `(?<b0>..)|(?<e0>..)|...` matches exactly where its pattern alone matches, and that the combined source always compiles. Neither holds for every pattern, and those cases are not modelled:
  - Wrapping renumbers groups. A numbered backreference in a user pattern can then refer to an enclosing `b<i>`/`e<i>` group. For example, `\1` in `(['"]).*\1` refers to `b0`.
  - A user pattern with named groups of its own, or a group named like `b0`, changes the combined groups.
  - The combined source can fail to compile even when each part compiles alone. For example, `\k<x>` is accepted without named groups and rejected with them. Then `.match` throws out of `provideFoldingRanges`, and the model has no such result.
- Only the `.source` of a compiled pattern is kept. The model takes the source as written.
- JavaScript strings, `substring`, `index` and the cursor step `left + index + 1` count UTF-16 code units. Here a line is a sequence of Unicode code points, so the cursor never stops between the two halves of a surrogate pair. A pattern that matches again from inside such a pair, for example `[^x]+\{` on a line starting with an emoji, yields one more event in JavaScript than in the model.
- `offsetTop` is an integer. `NaN` and fractional offsets are not modelled.
- `findOfRegexp` is a lazy generator. The model computes its events eagerly, one line at a time. Because nothing is shared between the generator and the scanner's loop body, the order of all effects is the same.
- The empty `catch` of `addRegex` swallows any exception. The only exception modelled is a failed compile, represented as a configuration that yields no record.

## Findings

| source | as written | input that shows it | evidently intended | confidence | as-written member | corrected member |
|---|---|---|---|---|---|---|
| src/foldingProvider.ts:90-91 | `stack[0].i` and `stack[0].t` are read before the `if (stack[0])` guard. An end event with no open begin therefore throws a `TypeError`, and the guard can never be false. | configuration `{begin: "{", end: "}"}`, document `["c }"]` | the guard ignores an end with no open begin, and scanning continues | not executed | Scanner.UnmatchedEndThrows | Scanner.GuardedIgnoresUnmatchedEnd |
