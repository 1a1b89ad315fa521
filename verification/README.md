# gulp-angular-translate-extract, modelled in Dafny

`gulp-angular-translate-extract` is a gulp plugin that scans HTML and
JavaScript files for angular-translate keys and writes one JSON translation
file per language. This project models the plugin's core, `index.js`.

- **Plugin creation.** `fileName` and a non-empty `lang` array are required.
- **Pattern table.** There are seventeen built-in regular expressions, in a
  fixed order. The two interpolation-filter patterns are built from the
  regex-escaped interpolation delimiters. Custom patterns follow as
  `others_<n>`.
- **`_extractTranslation`.** It walks every match of one pattern:
  - it trims the key and un-escapes the quote of the pattern's family;
  - it splits the array literal of the batch patterns into several keys;
  - it builds the ICU plural default of the `angular-plural-extract`
    directive;
  - it stops at the first empty key;
  - it writes into the `results` accumulator, where the last write wins.
- **Dispatch loop.** Seven patterns first cut the file into fragments
  (`content.match`), and each non-empty fragment gets its own extraction. The
  other patterns run once on the whole file.
- **Per-file transform.** A stream is refused, a null file is passed on, and
  the first buffered file is remembered.
- **Flush.** It emits `<lang>.json` in the first file's base directory for
  every language, in order.
- **`_recurseFeedDefaultNamespace`.** This is the namespace walk that hands
  each value its dotted path.

Modules:

- `wrappers.dfy`: `Option` and `Result`.
- `jsstring.dfy`: the JavaScript string operations the core relies on:
  - `trim` with the ECMAScript whitespace set;
  - the `\'`/`\"` replacements;
  - removing characters;
  - `split`.
- `patterns.dfy`:
  - `escapeRegExp`;
  - the named pattern table, with the pattern sources as runtime strings;
  - custom pattern registration;
  - `BuildPatternTable`, which builds the table in order.
- `extraction.dfy`:
  - the effect of one match (`MatchStep`);
  - the effect of one `_extractTranslation` call (`Extracted`);
  - the dispatch loop (`ScanTable`);
  - the lemmas about them;
  - the corrected definitions listed under Findings.
- `plugin.dfy`:
  - the argument check and output naming;
  - the class `TranslateExtractor`, which holds `firstFile` and `results`.
    Its methods do the work imperatively: `ExtractTranslation` (the `while`
    loop over matches), `ScanContent` (the loop over the table),
    `RunPattern` (the `switch` with its loop over fragments), `Transform` and
    `Flush`. Each is proved equal to the
    functions above.
- `namespace.dfy`: `_recurseFeedDefaultNamespace` as written, and the walk
  its documentation describes.

Creation arguments keep the distinctions the source makes:

- `fileName` is falsy, a string, or another truthy value, because the check
  only tests truthiness.
- `lang` and `customRegex` are present only when they are arrays.
- `interpolation` is falsy (the `{{`/`}}` default applies), an object with
  string delimiters, or any other truthy value. Any other truthy value makes
  `escapeRegExp` throw when the first buffered file builds the table.

Regular expression matching and `eval` are parameters of the model:

- `RegexEngine` gives, for a pattern source and a text, the successive
  `exec` results: the matched text and its capture groups.
- `RegexSyntax` says whether `new RegExp(source, "gi")` accepts a source.
  A source it rejects throws a `SyntaxError` when the scan reaches it.
- `Evaluator` gives the string list that `eval` makes of a plural hint, or
  nothing.

Everything that depends only on the capture groups is modelled exactly.

Where the code and its documentation disagree, the model follows the code.
The extraction chain (`MatchStep`, `Extracted`, `ScanTable` and the class methods)
is the code as written. Each discrepancy has a corrected definition beside
it, listed under Findings.

## Model

| member | source | states |
|---|---|---|
| JsString.Trim | index.js:132-135 | `String.prototype.trim`: strips the ECMAScript whitespace and line terminators at both ends, never lengthening the key; its shape is stated by the lemmas below |
| JsString.TrimStartShape | index.js:135 | the left trim is a suffix of its input, everything dropped is whitespace, and it starts with a non-whitespace character |
| JsString.TrimEndShape | index.js:135 | the right trim is a prefix of its input, everything dropped is whitespace, and it ends with a non-whitespace character |
| JsString.TrimShape | index.js:135 | a trimmed key is empty or starts and ends with non-whitespace, is a slice of the input and holds only characters of the input |
| JsString.TrimDropsWhitespace | index.js:135 | every character cut off at either end of a key by `trim` is whitespace |
| JsString.TrimEmptyIff | index.js:135-140 | a trimmed capture is empty exactly when the capture is all whitespace, which is when the empty-key test fires |
| JsString.TrimUntrimmed | index.js:135 | trimming a key that has no whitespace at either end leaves it unchanged |
| JsString.TrimIdempotent | index.js:172 | trimming twice is trimming once |
| JsString.UnescapeQuote | index.js:150-157 | `replace(/\\q/g, q)` for the family quote `q`: every backslash-quote pair becomes the quote, never lengthening the key |
| JsString.UnescapeQuoteShape | index.js:150-157 | a key without backslashes is not changed by the quote un-escape, and un-escaping never introduces a new character |
| JsString.UnescapeEscapeQuote | index.js:150-157 | un-escaping a key in which every quote was backslash-escaped gives back the original key |
| JsString.RemoveAll | index.js:164-168 | `replace(/[…]/g, '')`: drops every character of the class, never lengthening the text |
| JsString.RemoveAllChars | index.js:164-168 | after removing a set of characters, a character is present exactly when it was present and not removed |
| JsString.RemoveAllAbsent | index.js:164-168 | removing characters that do not occur changes nothing |
| JsString.Split | index.js:169 | `split(',')`: always at least one piece, an empty text giving one empty piece |
| JsString.SplitShape | index.js:169 | `split(',')` gives one more piece than there are commas, no piece holds a comma, and joining the pieces with commas gives back the text |
| Patterns.EscapeRegExp | index.js:96-99 | `escapeRegExp`: one backslash is added before each regex syntax character, so the result is longer by exactly their number |
| Patterns.EscapeRegExpIsLiteral | index.js:96-99 | an escaped delimiter is a pattern of literal characters only, and un-escaping it gives back the delimiter |
| Patterns.EscapeRegExpPlain | index.js:96-99 | a delimiter without regex syntax characters is left unchanged by escaping |
| Patterns.BuiltinPatterns | index.js:189-207 | the built-in table has the seventeen patterns in the source's order |
| Patterns.Delimited | index.js:192-193 | a filter pattern is the escaped start delimiter, then the body, then the escaped end delimiter, each at its place |
| Patterns.BuiltinSource | index.js:189-207 | the source of each built-in pattern: the two filter patterns splice the delimiters around their body, and every other source is fixed, independent of the delimiters |
| Patterns.DelimitersOnlyInFilterPatterns | index.js:192-193 | only the two interpolation-filter patterns depend on the delimiters, each as escaped start delimiter + body + escaped end delimiter |
| Patterns.CustomName | index.js:209-211 | every custom pattern is named with the `others_` prefix |
| Patterns.CustomPatterns | index.js:209-211 | the extra pattern at position `k` is registered under `Custom(k)` with its source unchanged, one per extra pattern |
| Patterns.DecimalStringInjective | index.js:210 | distinct positions in `customRegex` give distinct decimal suffixes |
| Patterns.BuiltinTextInjective | index.js:189-207 | no two built-in patterns share a name |
| Patterns.NameTextInjective | index.js:189-211 | no custom name equals a built-in name or another custom name, so registering custom patterns never overwrites a table entry |
| Patterns.BuiltinTextsDistinct | index.js:189-207 | the built-in table has pairwise distinct names |
| Patterns.BuildPatternTable | index.js:189-211 | the loop builds the built-in patterns followed by the custom ones in order, and all names in the table are distinct |
| Extraction.Write | index.js:173-180 | the writes of a match, in order: no key is removed, and the last entry's key holds its value |
| Extraction.WriteEffect | index.js:171-181 | writing entries adds exactly their keys, each key gets the value of its last write, and every other entry is untouched |
| Extraction.MatchStep | index.js:116-181 | the effect of one `exec` result: skipped exactly when it has no capture group, and a write always writes at least one entry |
| Extraction.Run | index.js:112-141 | the matches processed in order until the first empty key; no key is ever removed |
| Extraction.Extracted | index.js:102-186 | one `_extractTranslation` call over the pattern's matches; no key is ever removed |
| Extraction.MatchStopsIff | index.js:116-141 | a match ends the call exactly when it has a first group that is all whitespace and the pattern is not the plural-first one; it is skipped exactly when it has no group |
| Extraction.RunStops | index.js:138-141 | steps after the first empty key have no effect |
| Extraction.StopDiscardsRest | index.js:112-141 | an extraction call with an empty key at match `i` has the effect of its first `i` matches only |
| Extraction.RunFrame | index.js:143-181 | an extraction call never removes a key, adds only keys its matches write, and leaves the values of all other keys unchanged |
| Extraction.IsFragmentPattern | index.js:274-281 | the seven patterns whose top-level matches are collected first, all built-in and none a batch pattern |
| Extraction.Fragments | index.js:283 | the fragments are the matched texts of the pattern, one per match, in order |
| Extraction.FragmentsCompose | index.js:285-291 | fragments are scanned independently in order: scanning `a + b` is scanning `a` then `b` |
| Extraction.DirectStopEndsScan | index.js:294-296 | for a pattern run on the whole file, an empty key at match `i` means only the matches before it count |
| Extraction.ScanFragments | index.js:285-291 | the non-empty fragments each scanned by their own call, in order; no key is ever removed |
| Extraction.ScanPattern | index.js:273-296 | one pattern of the table applied to the file, through fragments or directly; no key is ever removed |
| Extraction.ScanTable | index.js:271-298 | the whole table applied to the file in order; a key found in an earlier file or pattern is never removed |
| Extraction.ScanTableAppend | index.js:271-298 | scanning with two tables joined is scanning with the first, then continuing with the second |
| Extraction.FirstUncompiled | index.js:271-272 | the position where the loop over the table throws: every source before it compiles, the source at it does not, and it is the table's length when every source compiles |
| Extraction.UncompiledAfterPrefix | index.js:271-272 | when the first part of a table compiles, the loop stops only in the second part, after the whole first part has run |
| Extraction.KeyQuote | index.js:143-158 | the quote family of a pattern is `'` or `"`, and only built-in single-key patterns have one |
| Extraction.KeyStep | index.js:134-157 | outside the batch and plural patterns, a match stops on an empty trimmed key and otherwise writes the trimmed, quote-unescaped key with an empty value |
| Extraction.QuoteFamilyIsKeyed | index.js:143-158 | the patterns with a quote family are single-key patterns with an empty default, and their quote is not a backslash |
| Extraction.QuotedKeyRoundTrip | index.js:143-158 | a key whose quotes were escaped in the source file is extracted exactly as the key itself |
| Extraction.PlainKeyOnlyTrimmed | index.js:134-181 | for `HtmlDirective`, `HtmlDirectiveStandalone` and custom patterns, the key is the trimmed capture with no un-escaping |
| Extraction.CustomPatternsArePlain | index.js:209-211 | custom patterns have no quote family, are not batch, plural or fragment patterns, and so run once on the whole file with a plain key |
| Extraction.BatchStep | index.js:159-175 | a batch match writes one entry per array item, never the array text, and the entries are well-formed |
| Extraction.BatchKeyClean | index.js:164-173 | each batch key is trimmed and holds no comma, bracket or quote of the family |
| Extraction.BatchEntries | index.js:159-181 | the writes of a batch capture: one entry per comma-separated item, the item at position `k` `\"`-unescaped and trimmed as key `k`, each with the given value |
| Extraction.BatchEntriesProperties | index.js:159-181 | a batch write has one entry per comma plus one, entry `k`'s key is item `k` unescaped and trimmed, items rejoin to the stripped text, all values are empty, keys hold no comma, bracket or family quote, and the array text is never a key |
| Extraction.BatchPlainKeys | index.js:159-181 | when the array text holds no whitespace and no backslash, the keys written are exactly its items, in order, so `['A','B','C']` writes `A`, `B`, `C`; joined with commas they give back the array text without quotes and brackets |
| Extraction.BatchTrailingCommaWritesEmptyKey | index.js:159-175 | a trailing comma, which `,*` in the batch pattern accepts, makes `['A',]` write the key `A` and the empty key |
| Extraction.PluralLastStep | index.js:126-135 | a plural-last match writes the trimmed first group with the plural default computed from the evaluated hint |
| Extraction.PluralTemplate | index.js:130 | the plural default starts with `{NB, plural, one{` followed by the first form |
| Extraction.PluralDefault | index.js:118-131 | the default value is empty or a plural template |
| Extraction.PluralTemplateForms | index.js:130 | the plural default uses the first two forms, appends a third only when it is non-empty, and ignores any further ones |
| Extraction.PluralDefaultEmpty | index.js:118-131 | the default value is empty exactly when the hint does not evaluate to a list of at least two forms |
| Extraction.PluralFirstWritesUndefined | index.js:116-125 | a plural-first match always writes the key `undefined` with an empty value |
| Extraction.PluralTemplateUnbalanced | index.js:130 | as written, the plural default opens one brace more than it closes whenever the forms hold no braces |
| Extraction.PluralTemplateExample | index.js:130 | the default for `['one item', 'many items']` is `{NB, plural, one{one item} other{many items}`, with no final brace |
| Extraction.PluralTemplateIntended | index.js:130 | the corrected default starts with `{` and ends with `}` |
| Extraction.PluralTemplateIntendedBalanced | index.js:130 | the corrected default has as many closing as opening braces |
| Extraction.MatchStepIntended | index.js:121-141 | the corrected step: the same as the code's step for every pattern but plural-first; a match is skipped exactly when it has no group, or fewer than two for plural-first; a write writes at least one entry |
| Extraction.PluralFirstIntendedMirrorsLast | index.js:121-133 | the corrected plural-first step swaps the groups and then behaves exactly as the plural-last step on the swapped match |
| Extraction.PluralFirstLosesKey | index.js:121-125 | for a plural-first match with hint and key `ITEM_COUNT`, the code writes `undefined` while the corrected step writes `ITEM_COUNT` |
| Extraction.RunIntended | index.js:121-141 | the corrected run goes through every step, skipping an empty key instead of stopping; no key is ever removed |
| Extraction.ExtractedIntended | index.js:121-141 | the corrected `_extractTranslation` over all the matches of a pattern; no key is ever removed |
| Extraction.RunIntendedCompose | index.js:138-141 | with empty keys skipped, processing `a + b` is processing `a` then `b` |
| Extraction.RunIntendedKeys | index.js:138-141 | with empty keys skipped, every key written by any match ends up in the results |
| Extraction.ExtractedIntendedCompose | index.js:138-141 | with empty keys skipped, extraction over `ms + ms'` is extraction over `ms` then over `ms'` |
| Extraction.EarlyReturnLosesKey | index.js:139-141 | as written, `translate=""` followed by `translate="B"` extracts nothing |
| Extraction.EmptyKeySkippedIntended | index.js:138-141 | with empty keys skipped, the same two matches extract `B` |
| Plugin.CheckArguments | index.js:17-30 | creation fails with `fileName required` exactly when `fileName` is falsy, whatever its type; it fails with `Param lang required` exactly when `fileName` is truthy and `lang` is not a non-empty array; it succeeds otherwise |
| Plugin.FixtureCallRefused | gulpfile.js:9-23 | the fixture's call passes the options object as the truthy file name and no options, so creation fails with `Param lang required` |
| Plugin.FixtureCallIntended | gulpfile.js:9-23 | the same call with a file name first and these options second passes the check |
| Plugin.ResolveInterpolation | index.js:64-65 | a falsy option gives the `{{`/`}}` delimiters, an object with string delimiters gives its own, and any other truthy value gives none |
| Plugin.PathJoin | index.js:325 | the output path ends with the output file name |
| Plugin.PathJoinInjective | index.js:325 | under one base directory, distinct file names give distinct paths |
| Plugin.OutputName | index.js:325 | the output name is the language followed by `.json` |
| Plugin.PatternTable | index.js:189-211 | the table a file is scanned with: the seventeen built-in patterns in order, then custom pattern `k` as `others_<k>` with its source unchanged |
| Plugin.UncompiledCustomAfterBuiltins | index.js:209-272 | when the built-in sources compile, a failing custom source is reached only after all built-in patterns have written their keys, and the scan keeps those and the writes of the custom patterns before it |
| Plugin.OutputFor | index.js:321-328 | the file emitted for a language keeps the first file's cwd and base, holds the results, and has a path ending in `<lang>.json` |
| Plugin.OutputPathsDistinct | index.js:322-328 | two distinct languages never get the same output path |
| Plugin.KeyStopped | index.js:132-141 | a match with an all-whitespace key, outside plural-first, ends the call |
| Plugin.KeyWritten | index.js:116-181 | a match with a non-empty trimmed key writes the entries of that key and its default value; a plural-first match writes `undefined` |
| Plugin.TranslateExtractor.constructor | index.js:32-33 | a new plugin has seen no file and has empty results |
| Plugin.TranslateExtractor.Create | index.js:15-33 | creation fails with the argument check's error, or succeeds with the given languages, the interpolation option as given, custom patterns defaulting to none, no first file and empty results |
| Plugin.TranslateExtractor.ExtractTranslation | index.js:102-186 | the `while` loop over matches leaves `results` equal to `Extracted` of the old results |
| Plugin.TranslateExtractor.WriteItems | index.js:171-174 | the `forEach` over batch items leaves `results` equal to writing one empty-valued entry per item, in order |
| Plugin.TranslateExtractor.ScanContent | index.js:271-298 | the loop over the pattern table compiles each pattern before running it; it reports success exactly when every source compiles, and leaves `results` equal to `ScanTable` of the old results over the patterns before the first one that does not |
| Plugin.TranslateExtractor.RunPattern | index.js:273-296 | the `switch` on one pattern, with its loop over non-empty fragments, leaves `results` equal to `ScanPattern` of the old results |
| Plugin.TranslateExtractor.Transform | index.js:38-298 | a stream fails with `Straming not supported.`. A null file passes unchanged. A buffered file is remembered if it is the first. With an interpolation option lacking string delimiters it then fails with the `TypeError` and nothing is extracted. Otherwise the table is scanned up to the first source that does not compile: the file is passed on when every source compiles, and the scan fails with the `SyntaxError` there otherwise, keeping what the earlier patterns wrote |
| Plugin.TranslateExtractor.Flush | index.js:313-332 | nothing is emitted before a buffered file; otherwise one file per language, in order, named `<lang>.json` in the first file's base directory and holding all results |
| Namespace.ChildPath | index.js:250 | a child's path is its key at top level and `path.key` below |
| Namespace.FeedAsWritten | index.js:245-262 | the walk as written keeps objects as objects with the same keys and `null` as `null` |
| Namespace.FeedAsWrittenIsIdentity | index.js:245-262 | as written, the walk returns its input unchanged |
| Namespace.FeedDefaultNamespace | index.js:245-262 | the `for…in` loop rebuilds each object from its walked children, and the result is the input |
| Namespace.FillEmptyLeaves | index.js:238-262 | the documented walk keeps objects as objects with the same keys and leaves no `null`; a value it leaves empty has an empty path, as at the top level or below an empty top-level key |
| Namespace.FillKeepsShape | index.js:238-262 | the documented walk keeps every key at every level |
| Namespace.FillLeafAt | index.js:238-262 | after the documented walk, an empty or null value holds the dotted path of keys leading to it, and every other value is kept |
| Namespace.DottedPathJoin | index.js:250 | below a non-empty path, a value's path is that path, a dot, and its keys joined with dots |
| Namespace.TopLevelDottedPath | index.js:238-250 | from the top level, when the first key is not empty, a value's path is its keys joined with dots |
| Namespace.FillWithoutEmptyIsIdentity | index.js:255-259 | an object without empty or null values is unchanged by the documented walk |
| Namespace.FillDocumentedExample | index.js:238-240 | the documented example `{"NS1": {"NS2": {"VAL1": "", "VAL2": ""}}}` becomes `NS1.NS2.VAL1` and `NS1.NS2.VAL2` |
| Namespace.FeedMissesEmptyLeaf | index.js:255-259 | for `{"NS1": ""}`, the code leaves the value empty while the documented walk sets it to `NS1` |

## Left out

- JavaScript regular expression semantics (the `gi` flags, `lastIndex`,
  `exec` and `match`). Matches are supplied by the `RegexEngine` parameter,
  so the model does not prove what text a pattern matches.
- `eval` of the plural hint. Its result is the `Evaluator` parameter. A hint
  whose evaluation throws, or gives a non-string element, is not modelled.
- A match whose first group is `undefined`, on which `trim` throws. The
  capture groups are strings.
- The plural-first swap when the match has a single group. The source's
  pattern always has two, and the swap does not affect what is written.
- The `Translations` module and the rebinding of `results` to it after each
  file (index.js:8, 301-307). Its source is not part of this model. The
  accumulator is a plain map that keeps growing across files.
- JSON serialisation of the results (`JSON.stringify`, `customStringify`).
  An output file holds the results map itself.
- Logging with `gutil.log` and `chalk`.
- Normalisation by `path.join` (`.`, `..`, repeated separators).
  `Plugin.PathJoin` only inserts one separator.
- Special property names such as `__proto__`, which a JavaScript object
  treats differently from a map.
- `nullEmpty`, `namespace` and `safeMode`. They are passed to the
  `Translations` module (index.js:301-305), which is left out above, so they
  do not affect the model.
- `defaultLang`, `prefix`, `suffix` and `stringifyOptions`. The core reads
  them (index.js:63-74) but neither the scan nor the flush uses them;
  `stringifyOptions` only feeds `customStringify`, which nothing calls.
- `fileName` beyond the creation check.
- Plugin.TranslateExtractor.Transform: does not model a custom pattern that
  matches the empty string and has no capture group, such as `x*`. On it
  the `exec` loop at index.js:112 never advances `lastIndex` and never ends,
  while `RegexEngine` always gives a finite list of matches.
- The message of the `SyntaxError` thrown for a source that does not
  compile. `Plugin.PatternNotCompiled` stands for it.
- Aliasing of the options object. The plugin keeps the caller's object
  (index.js:22) and re-reads `interpolation` and `customRegex` for every
  buffered file (index.js:63-74) and `lang` at flush (index.js:321). The
  model takes a snapshot of `lang`, `interpolation` and `customRegex` at
  creation, so a caller that changes the object afterwards is not modelled.
- The message of the `TypeError` that `escapeRegExp` throws on a non-string
  delimiter. `Plugin.DelimiterNotString` stands for it.
- An interpolation object with one string delimiter and one missing or
  non-string delimiter. It throws like any other malformed option; the
  model has a single `Malformed` case for both.
- Strings as UTF-16 code units. A Dafny `char` is a Unicode scalar value, so
  a lone surrogate in a key cannot be represented.
- The order of keys in the output. The results are a `map`, which has no
  insertion order, while `JSON.stringify` (index.js:326) writes keys in the
  order they were first added.
- `_recurseObject` (index.js:221-235), which is never called.
- `Namespace.FeedDefaultNamespace` is not called by the rest of the plugin.
  The source never calls it either.
- Stream plumbing beyond what `Transform` and `Flush` decide. The callback
  becomes the returned `Result`, and the pushed files become the returned
  sequence.
- The task wiring in `gulpfile.js` beyond the arguments of its one call.

## Findings

| source | as written | input that shows it | evidently intended | confidence | as-written member | corrected member |
|---|---|---|---|---|---|---|
| index.js:130 | the ICU plural default opens three braces and closes two | hint `['one item', 'many items']` gives `{NB, plural, one{one item} other{many items}` | a closing `}` after the last form, as ICU message syntax requires | high, not executed | Extraction.PluralTemplateUnbalanced | Extraction.PluralTemplateIntendedBalanced |
| index.js:121-125 | the plural-first case only swaps `r[1]` and `r[2]` and never assigns `translationKey`, so the key written is `undefined` | groups `['one item', 'many items']` (hint) and `ITEM_COUNT` (key) write `undefined` | after the swap, behave as the plural-last case: trimmed key, plural default | high, not executed | Extraction.PluralFirstLosesKey | Extraction.PluralFirstIntendedMirrorsLast |
| index.js:139-141 | `return` on an empty key ends the whole call, discarding every later match of the pattern | `translate=""` then `translate="B"` in one file extracts nothing | skip only the empty key, as the comment "Avoid empty translation" says | medium, not executed | Extraction.EarlyReturnLosesKey | Extraction.EmptyKeySkippedIntended |
| gulpfile.js:9-23 | the fixture task passes its options object as the first argument (`fileName`) and nothing as the second, so the plugin's own task fails at creation | the call `angularTranslate({lang: ['fr_FR', 'en_CA'], dest: …})` fails with `Param lang required` | a file name first and the options object second | medium, not executed | Plugin.FixtureCallRefused | Plugin.FixtureCallIntended |
| index.js:255 | the leaf test `data === null && data === ""` can never hold, so no value gets its path | `{"NS1": ""}` is returned unchanged | `data === null \|\| data === ""`, as the documented example (index.js:238-240) shows | high, not executed | Namespace.FeedMissesEmptyLeaf | Namespace.FillLeafAt |
