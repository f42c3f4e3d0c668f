# Version Updater core, modelled in Dafny

The Version Updater editor extension finds version strings such as `@version 1.2.3` or
`v2.0.0-beta.1` in a document and bumps them by major, minor or patch. This project
models its two self-contained components and proves what they promise.

- **Version grammar and bump arithmetic** (`src/utils/version.ts`, module `Version`).
  - `parseVersion` accepts exactly `^(\d+)\.(\d+)\.(\d+)(?:-(.+))?$`. It returns the
    decimal values of the three digit runs and the tail verbatim.
  - `bumpVersion` raises one component, resets the ones after it, and prints `M.m.p`
    with no tag.
  - `compareVersions` orders lexicographically on (major, minor, patch). It gives 0
    when either side does not parse.
  - `isValidVersion` says whether `parseVersion` succeeds.
  - The grammar is looser than Semantic Versioning 2.0.0, and the model follows the
    code rather than that standard:
    - leading zeros are accepted;
    - the tag is any characters other than line terminators;
    - the tag is never compared.
- **Occurrence scanner and deduplicator** (`src/services/versionScanner.ts`, module
  `Scanner`).
  - `scanDocument` splits the text on `'\n'` and skips empty lines.
  - On every other line it runs each configured pattern in order. It walks the
    pattern's `exec` results and keeps every capture group 1 that `parseVersion`
    accepts.
  - It locates each kept capture at `index + fullMatch.indexOf(capture)`. When that
    column is negative, constructing the editor position throws and the scan returns
    nothing; the model's scan methods then return `None`.
  - `deduplicateMatches` keeps the first match of each `${line}:${start}:${version}` key.
- **Supporting modules.**
  - `Text` holds the JavaScript string built-ins the code relies on: `split`,
    `indexOf`, `parseInt` on digit runs, and printing a number in decimal.
  - `Types` mirrors `VersionMatch`, `VersionBumpType` and the editor's `Position` and
    `Range` (`src/types/index.ts`).
  - `Wrappers` holds `Option`.

How the model is built:
- The regular-expression engine is a parameter. An `Engine` maps a pattern and a line
  to the sequence of results its global `exec` loop yields.
- Each result is `(index, fullMatch, group1)`. The scan itself assumes nothing of it.
- With no assumption on the engine, every reported match is well built (`WellBuilt`):
  a non-empty capture that parses to the match's numbers and tag, with a range on its
  line as long as the capture. It is also made from a result of a configured pattern on
  the non-empty line it names, with that result's whole match and the column
  `index + fullMatch.indexOf(capture)` (`BuiltIn`).
- The location lemmas assume what every engine guarantees, that the whole match is the
  slice of the line at `index` (`IsExecResult`). They also assume that group 1 occurs
  inside the whole match (`CapturedInside`), which an engine does not guarantee.
- The imperative code becomes methods with loops:
  - `ScanDocument`, `ScanLine` and `ScanPattern` are the three nested loops, and
    `LocateResult` is one turn of the innermost loop, whose `continue`s become early returns;
  - `DeduplicateMatches` is the pass with its `seen` set;
  - `BumpVersion` is the `switch` that rebinds locals.
- Each method is proved equal to a specification function built one element at a
  time (`DocumentOccurrences`, `PatternsOccurrences`, `PatternOccurrences`, `Dedup`,
  `Bumped`). The properties are lemmas about those functions.

The code's `(.+)` accepts as the prerelease tail any character a regular-expression
`.` matches. That includes spaces and tabs; only `\n`, `\r`, U+2028 and U+2029 are
excluded (`IsTail`).

The column of a match is the first occurrence of the captured text inside the whole
match, as the code computes it. When group 1 occurs inside the whole match, the
located slice holds the captured text and lies inside the whole match, and that is
what `LocatedOn` states.

A custom pattern can break this in two ways:
- Its whole match repeats the captured text before the group. The column is then the
  earlier copy, not the group's own position.
- It captures group 1 inside a lookahead or lookbehind, such as
  `v(?=(\d+\.\d+\.\d+))`. `indexOf` then gives -1 and the column is `index - 1`:
  - At index 0 the column is -1, the editor position throws and the scan returns
    nothing (`LookaheadAtStartThrows`).
  - Further in, the reported range does not hold the version (`LookaheadMisplaced`).

The two default patterns put only a keyword, whitespace or `v` before the group and
capture nothing in a lookaround, so for them the column is the group's position.

## Model

| member | source | states |
|---|---|---|
| Text.DecimalValue | src/utils/version.ts:21-23 | `parseInt(run, 10)` on a digit run; NatToDecimal, NatToDecimalCanonical and ParseIgnoresLeadingZeros state what it computes |
| Text.NatToDecimal | src/utils/version.ts:51 | the printed form of a number is a non-empty digit run, whose decimal value is that number and which has no leading zero |
| Text.NatToDecimalCanonical | src/utils/version.ts:21-23 | a non-empty digit run without a superfluous leading zero is the printed form of its own decimal value |
| Text.Split | src/services/versionScanner.ts:34 | `split('\n')` yields at least one piece; no piece contains `'\n'`; the pieces joined with `'\n'` give back the text |
| Text.SplitUnique | src/services/versionScanner.ts:34 | any cut of a text into `'\n'`-free pieces is the one Split gives, so the lines are exactly the newline-separated pieces in order |
| Text.IndexOf | src/services/versionScanner.ts:51 | `indexOf` gives -1 or the position of an occurrence, and no occurrence starts before it |
| Version.MatchGrammar | src/utils/version.ts:9 | the anchored match of `^(\d+)\.(\d+)\.(\d+)(?:-(.+))?$`; MatchGrammarSound and MatchGrammarComplete state exactly what it accepts and returns |
| Version.ParseVersion | src/utils/version.ts:3-31 | the record of a version string, or None when the grammar rejects it; ParseVersionSucceedsIff (it succeeds exactly on the texts of the grammar) and ParseVersionValues (the numbers and the tag) state it |
| Version.MatchGrammarSound | src/utils/version.ts:9-12 | whenever the grammar matches, the captures are well formed and spell out exactly the input |
| Version.MatchGrammarComplete | src/utils/version.ts:9-12 | every text built from well-formed captures is matched, with exactly those captures |
| Version.ParseVersionSucceedsIff | src/utils/version.ts:9-12 | parsing succeeds if and only if the text is three digit runs joined by `.`, optionally followed by `-` and a non-empty tail without line terminators |
| Version.ParseVersionValues | src/utils/version.ts:14-30 | on a text of the grammar, the numbers are the decimal values of the three runs, and the tag is present exactly when there is a tail and equals it verbatim |
| Version.ParseIgnoresLeadingZeros | src/utils/version.ts:21-23 | prefixing any component with a zero does not change the parsed result |
| Version.ParseVersionRejects | src/utils/version.ts:9-12 | `invalid`, `1.2`, `1.2.3.4`, the empty string and `v1.2.3` do not parse |
| Version.ParseVersionWithTag | src/utils/version.ts:14-30 | `1.2.3-beta.1` parses to 1, 2, 3 with the tag `beta.1` |
| Version.ParseVersionLeadingZeros | src/utils/version.ts:21-23 | `007.01.3` parses to 7, 1, 3 with no tag |
| Version.FormatTriple | src/utils/version.ts:51 | the text `${major}.${minor}.${patch}`; FormatRoundTrip and FormatParseRoundTrip show it is inverse to parsing |
| Version.FormatRoundTrip | src/utils/version.ts:9-31 | printing any three naturals as `a.b.c` and parsing gives back exactly those numbers and no tag |
| Version.FormatParseRoundTrip | src/utils/version.ts:9-31 | a tag-less version text whose components have no superfluous leading zeros parses, and printing its numbers as `a.b.c` gives back the text |
| Version.LessCases | src/utils/version.ts:62-68 | the lexicographic order decides on major first, then minor, then patch |
| Version.LessIsStrictTotalOrder | src/utils/version.ts:62-68 | that order is irreflexive, transitive, asymmetric and total on triples |
| Version.CompareVersions | src/utils/version.ts:54-69 | the result is 0 when either side does not parse; otherwise its sign is the lexicographic order of the two triples (negative, zero or positive exactly when less, equal or greater) |
| Version.CompareAntisymmetric | src/utils/version.ts:54-69 | swapping the arguments negates the result, and every text compares equal to itself |
| Version.CompareTransitive | src/utils/version.ts:62-68 | on parsable texts, "compares lower" and "compares equal" are transitive |
| Version.CompareIgnoresPrerelease | src/utils/version.ts:62-68 | two texts that differ only in their tag compare equal |
| Version.CompareMajorExample | src/utils/version.ts:62-64 | `2.0.0` compares greater than `1.9.9` |
| Version.ComparePatchExample | src/utils/version.ts:65-68 | `1.2.3` compares lower than `1.2.4` |
| Version.CompareInvalidExample | src/utils/version.ts:58-60 | comparing `invalid` with `1.2.3` gives 0 |
| Version.IsValidVersion | src/utils/version.ts:71-73 | a text is valid if and only if it belongs to the grammar |
| Version.IsValidExamples | src/utils/version.ts:71-73 | `1.2.3` and `1.2.3-beta.1` are valid; `v1.2.3` is not |
| Version.Bumped | src/utils/version.ts:36-49 | the reset cascade of the `switch`; BumpIsLeastAbove and BumpIncreases characterise it |
| Version.BumpIsLeastAbove | src/utils/version.ts:36-49 | the bumped triple is above the original at the bump's level (major; major and minor; all three), and every other triple above it at that level is greater than it |
| Version.BumpIncreases | src/utils/version.ts:36-49 | a bump of any kind gives a strictly greater triple |
| Version.BumpComparesGreater | src/utils/version.ts:33-51 | on any parsable text, the bumped text compares greater than the original |
| Version.BumpVersion | src/utils/version.ts:33-51 | the result is the bumped triple printed as `M.m.p`, and it parses back to the bumped numbers with no tag |
| Version.BumpExamples | src/utils/version.ts:36-51 | the bumps of 1.2.3 are 1.2.4, 1.3.0 and 2.0.0, and a patch bump of 1.2.9 gives 1.2.10 |
| Scanner.Emitted | src/services/versionScanner.ts:45-71 | what one `exec` result pushes; EmittedSpec, EmittedCapture and EmittedLocated state it |
| Scanner.ThrowsIff | src/services/versionScanner.ts:51-60 | the position constructor throws on an accepted capture exactly when the whole match starts at index 0 and does not contain the capture |
| Scanner.EmittedSpec | src/services/versionScanner.ts:45-71 | a result contributes at most one match; it contributes one exactly when group 1 is present, non-empty and parses and the scan does not throw on it; that match is well built (the capture parses to its numbers and tag, and its range lies on its line and is as long as the capture) and carries group 1, the whole match and the column `index + indexOf` |
| Scanner.EmittedCapture | src/services/versionScanner.ts:51-69 | the contributed match carries the parsed numbers and tag, and a range on its line running from the computed start for the length of the capture |
| Scanner.EmittedLocated | src/services/versionScanner.ts:51-65 | a genuine result whose group 1 lies inside its whole match never throws, and its match holds group 1 on the line inside the whole match |
| Scanner.LookaheadAtStartThrows | src/services/versionScanner.ts:51-60 | a lookahead capture at index 0 (`v` matched, `1.2.3` captured, on `v1.2.3`) is a genuine result that makes the scan throw |
| Scanner.LookaheadMisplaced | src/services/versionScanner.ts:51-62 | the same capture at index 1 on `xv1.2.3` is reported at column 0, which does not hold the version |
| Scanner.PatternThrowsIff | src/services/versionScanner.ts:44-72 | one pattern's loop throws exactly when one of its results does |
| Scanner.PatternsThrowIff | src/services/versionScanner.ts:40-73 | the scan of a line throws exactly when the loop of one of its patterns does |
| Scanner.DocumentThrowsIff | src/services/versionScanner.ts:36-74 | the scan of a document throws exactly when the scan of one of its non-empty lines does |
| Scanner.LocatableNeverThrows | src/services/versionScanner.ts:51-60 | when every result's group 1 lies inside its whole match, the scan never throws |
| Scanner.PatternOccurrencesSound | src/services/versionScanner.ts:44-71 | when every result is locatable, every match one pattern yields on a line is located correctly there, and is made from one of that pattern's results, whose whole-match span contains it |
| Scanner.PatternOccurrencesBuilt | src/services/versionScanner.ts:44-71 | whatever the results, every match one pattern yields on a line is well built and made from one of that pattern's results |
| Scanner.PatternOccurrencesComplete | src/services/versionScanner.ts:44-71 | every result that contributes a match (group 1 a non-empty version, column not negative) has it among the pattern's matches |
| Scanner.PatternOccurrencesOnLine | src/services/versionScanner.ts:63 | every match one pattern yields on a line carries that line's index |
| Scanner.PatternOccurrencesLeftToRight | src/services/versionScanner.ts:44-52 | when the locatable results come left to right without overlap, each match of the pattern ends at or before the next one starts |
| Scanner.PatternsOccurrencesSound | src/services/versionScanner.ts:40-72 | when every result is locatable, every match found on a line is located correctly and is made from a result of one of the configured patterns |
| Scanner.PatternsOccurrencesBuilt | src/services/versionScanner.ts:40-72 | whatever the results, every match found on a line carries that line's index, is well built and is made from a result of one of the configured patterns |
| Scanner.PatternsOccurrencesComplete | src/services/versionScanner.ts:40-72 | every contributing result of every configured pattern on a line has its match among the line's matches |
| Scanner.LineOccurrences | src/services/versionScanner.ts:37-73 | the matches of one line, none for an empty line; PatternsOccurrencesBuilt, PatternsOccurrencesSound and PatternsOccurrencesComplete state them |
| Scanner.DocumentOccurrences | src/services/versionScanner.ts:36-74 | the matches before deduplication, line by line; DocumentOccurrencesBuilt, DocumentOccurrencesSound, DocumentOccurrencesComplete and DocumentOccurrencesLineOrder state them |
| Scanner.PatternsOccurrencesOnLine | src/services/versionScanner.ts:59-63 | every match found on a line carries that line's index |
| Scanner.DocumentOccurrencesSound | src/services/versionScanner.ts:34-74 | when every result is locatable, every match before deduplication lies on an existing non-empty line, and is located and sourced correctly there |
| Scanner.DocumentOccurrencesBuilt | src/services/versionScanner.ts:34-74 | whatever the results, every match before deduplication lies on an existing non-empty line, is well built and is made from a result of a configured pattern on that line |
| Scanner.DocumentOccurrencesComplete | src/services/versionScanner.ts:34-74 | every contributing result on a non-empty line has its match among the document's matches |
| Scanner.DocumentOccurrencesLineOrder | src/services/versionScanner.ts:36-74 | before deduplication, line indices never decrease and stay below the number of lines |
| Scanner.DedupKey | src/services/versionScanner.ts:82 | the key `${line}:${start}:${version}`; DedupKeyInjective states when two keys agree |
| Scanner.Dedup | src/services/versionScanner.ts:79-89 | first-wins deduplication; the Dedup lemmas below characterise it |
| Scanner.DedupKeyInjective | src/services/versionScanner.ts:82 | two keys are equal if and only if line, start column and version text all agree |
| Scanner.DedupPicksFirst | src/services/versionScanner.ts:79-89 | the kept matches are the input's matches at ascending positions, and a position is kept if and only if it holds the first match with its key |
| Scanner.DedupSubsequence | src/services/versionScanner.ts:81-88 | deduplication keeps a subsequence of its input |
| Scanner.DedupDistinct | src/services/versionScanner.ts:82-86 | no two kept matches share a key |
| Scanner.DedupKeepsFirst | src/services/versionScanner.ts:81-88 | for every input match, the first match with its key is kept |
| Scanner.DedupKeys | src/services/versionScanner.ts:80-88 | the kept matches have exactly the keys of the input |
| Scanner.DedupIdentity | src/services/versionScanner.ts:79-89 | on input whose keys are already distinct, deduplication changes nothing |
| Scanner.DedupIdempotent | src/services/versionScanner.ts:79-89 | deduplicating twice is the same as deduplicating once |
| Scanner.DedupLinesAscending | src/services/versionScanner.ts:79-89 | deduplication keeps the line order of its input |
| Scanner.ScanResultSound | src/services/versionScanner.ts:31-77 | no two reported matches share a key and line indices ascend; every reported match lies on an existing non-empty line, is well built and is made from a result of a configured pattern on that line; when every result is locatable, it is also located correctly there |
| Scanner.DeduplicateMatches | src/services/versionScanner.ts:79-89 | the single pass with its `seen` set returns the first-wins deduplication: a subsequence with distinct keys and all of the input's keys |
| Scanner.LocateResult | src/services/versionScanner.ts:45-71 | one turn of the `exec` loop fails exactly when the result throws, and otherwise pushes what the result contributes |
| Scanner.ScanPattern | src/services/versionScanner.ts:44-72 | the `exec` loop of one pattern on one line fails exactly when one of its results throws, and otherwise pushes exactly that pattern's matches, in result order |
| Scanner.ScanLine | src/services/versionScanner.ts:40-73 | the loop over the configured patterns fails exactly when one pattern's loop does, and otherwise pushes each pattern's matches, in configured order |
| Scanner.ScanDocument | src/services/versionScanner.ts:31-77 | the scan fails exactly when some result on a non-empty line throws. Otherwise it returns the deduplicated matches of the non-empty lines in line order, no two share a key, and line indices ascend. Each lies on an existing non-empty line, is well built and is made from a result of a configured pattern on that line; when every result is locatable, each is also located correctly there |

## Left out

- The regular-expression engine (`new RegExp(patternString, 'gi')` and `exec`). Its results are an input. Left out with it:
  - the exception an invalid pattern throws;
  - case-insensitive matching;
  - the engine's `lastIndex` state;
  - the endless `exec` loop on a pattern that matches the empty string.
- ScanDocument: promises that the line holds each reported match's text at its range, inside its whole match, only when every result's group 1 lies inside that whole match. Every other property of a reported match holds whatever the results. For a pattern that captures group 1 in a lookaround, the model reproduces the code's column `index - 1`, and its failure when that column is -1, but promises nothing about where the range lies (`LookaheadMisplaced`).
- PatternOccurrencesLeftToRight: requires the results to come left to right without overlap, as a global `exec` loop yields them, and to be locatable.
- The two default patterns (`src/types/index.ts:31-34`) are regular-expression source, not logic.
- The configuration: the `VersionScanner` constructor, `loadConfig`, `refreshConfig` and `getConfig` read the editor's workspace settings. The configured patterns are a parameter of `ScanDocument`, so the model has no scanner object.
- `document.getText()`: the document text is a parameter.
- JavaScript numbers.
  - Components are unbounded naturals.
  - `parseInt` loses precision above 2^53.
  - `${major}` prints exponent notation from 10^21.
  - Neither is modelled.
- String indices. A Dafny `char` is a Unicode scalar value, while JavaScript indexes UTF-16 code units. Columns on lines with characters outside the Basic Multilingual Plane are not modelled.
- The editor's `Position` and `Range` are plain records with natural columns. The `Position` constructor's rejection of a negative column is the scan's `None` outcome. The error it throws, and its message, are not modelled.
- Everything around the two components is left out:
  - commands (`src/commands/bumpVersion.ts`, `src/commands/bumpAtRange.ts`, `src/extension.ts`);
  - CodeLens and decoration providers;
  - unit and integration tests;
  - build tooling.

  They are editor user interface and plumbing.
