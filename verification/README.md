# ProcessLogger, modelled in Dafny

`SergeR\ProcessLogger` is a PSR-3 logger for batch jobs. It filters calls by a
severity threshold and buffers the admitted messages in memory. On `flush()` it
returns one report: a banner, the messages, a line with the elapsed time and
peak-memory growth, and a closing banner. This project models that class as an
immutable state (`ProcessLogger.Logger`) with pure transitions, and proves what
each transition and whole sessions produce.

Modules:

- `Levels` (levels.dfy): the eight PSR-3 levels and their descending order. It
  derives the admitted levels from a raw threshold argument (`setLogLevel`).
- `Translate` (strtr.dfy): PHP `strtr` with an array of pairs. It makes one
  left-to-right pass and replaces the longest key at each position. Replaced
  text is not scanned again.
- `Interpolation` (interpolation.dfy): `interpolate`. Each context entry becomes
  a `{key}` placeholder, and the message goes through `strtr` once.
- `Text` (text.dfy): `implode("\n", …)`, a matching `explode`, and the double
  `rtrim` applied to the memory figure.
- `ProcessLogger` (logger.dfy): the logger fields and `__construct`,
  `getLogLevel`, `setLogLevel`, `log` and `flush`. It also defines the state
  invariant `Valid`.
- `Session` (session.dfy): a run of `log` calls followed by `flush`, including
  the warning/info/error scenario.

The clock (`microtime(true)`) and the peak-memory counter
(`memory_get_peak_usage()`) are read-outs supplied as parameters. For `log`
they are `now` and `peak`; for `flush` they are the two figures already
formatted (`elapsed`, `memory`). `var_export` is the parameter `dump`.

Three details of the code shape the model:

- The memory growth is always printed in MBytes (src/ProcessLogger.php:109-111), so no unit-selecting formatter is modelled.
- An unrecognised threshold is stored as given (src/ProcessLogger.php:60), and `GetLevel` returns it.
- `flush` resets `messages` and `start` but not `mem`
  (src/ProcessLogger.php:115). The model keeps `mem`, and the next session
  overwrites it.

## Model

| member | source | states |
|---|---|---|
| Levels.Rank | src/ProcessLogger.php:50-59 | each level sits at one fixed position of the descending list, emergency first |
| Levels.Parse | src/ProcessLogger.php:50-59 | a string is recognised exactly when it is one of the eight level tokens, and it is read back as that level |
| Levels.IndexOf | src/ProcessLogger.php:63 | `array_search` gives the first index at which the token occurs |
| Levels.FoundIffParses | src/ProcessLogger.php:62-63 | `in_array` on the level list succeeds exactly for level tokens, and `array_search` then returns that level's rank |
| Levels.LevelTokensTruthy | src/ProcessLogger.php:62 | every level token is truthy, so the truthiness test in front of `in_array` never rejects a level |
| Levels.Truthy | src/ProcessLogger.php:62 | PHP truthiness of the nullable threshold; `Levels.LevelTokensTruthy` proves it holds of every level token |
| Levels.Admits | src/ProcessLogger.php:82 | the `in_array` test on the admitted levels; `Levels.AdmitsIffAtLeastAsSevere` proves it equals the rank comparison against the threshold |
| Translate.Strtr | src/ProcessLogger.php:141 | `strtr` with an array of pairs; its behaviour is stated by `Translate.LongestMatch`, `Translate.StrtrConcat`, `Translate.StrtrNoKey` and `Translate.StrtrNoPairs` |
| Interpolation.Stringify | src/ProcessLogger.php:133-137 | the replacement text of a context value; `Interpolation.StringifyChoice` states when the dump is used |
| Interpolation.Interpolate | src/ProcessLogger.php:127-142 | `interpolate`; stated by `Interpolation.InterpolateEmptyContext`, `Interpolation.InterpolateLiteral`, `Interpolation.InterpolatePlaceholder` and `Interpolation.InterpolateWholePlaceholder` |
| Interpolation.Castable | src/ProcessLogger.php:133 | the test for a value with a string cast (not an array, and not an object without `__toString`); `Interpolation.StringifyChoice` states what each side of it gives |
| Interpolation.Brace | src/ProcessLogger.php:134 | the placeholder `'{' . $key . '}'`; `Interpolation.BraceInjective` proves distinct keys give distinct placeholders, and `Interpolation.Placeholders` uses it as the pair keys |
| ProcessLogger.NoBuffer | src/ProcessLogger.php:91 | `!$this->messages`, the same test as `empty($this->messages)` at line 104; `ProcessLogger.Log` (seeding the banner) and `ProcessLogger.Flush` (returning `""`) state what it decides |
| Text.Join | src/ProcessLogger.php:114 | `implode("\n", …)`; `Text.SplitJoin` and `Text.JoinEnds` state what the joined text holds |
| Text.TrimDecimal | src/ProcessLogger.php:111 | the double `rtrim` of the memory figure; stated by `Text.TrimDecimalFixedPoint` |
| ProcessLogger.GetLevel | src/ProcessLogger.php:36-39 | `getLogLevel`; `ProcessLogger.GetAfterSet` and `ProcessLogger.SetUnrecognisedLevel` state that it returns the raw argument |
| ProcessLogger.Line | src/ProcessLogger.php:94 | the buffered line `"* "` plus the interpolated message; `ProcessLogger.Log` and `Session.RunBuffer` state where it is appended |
| ProcessLogger.Trailer | src/ProcessLogger.php:108-112 | the summary line around the two formatted figures; `ProcessLogger.Flush` and `Session.SessionReport` state its place in the report |
| Levels.AdmittedBy | src/ProcessLogger.php:60-64 | the derived list is a prefix of the descending list; it contains a level exactly when the argument names a threshold at most as severe as that level; null, empty or unknown arguments give the empty list |
| Levels.AdmitsIffAtLeastAsSevere | src/ProcessLogger.php:82 | the `in_array` containment test on the derived list agrees with comparing ranks against the threshold |
| Translate.LongestMatch | src/ProcessLogger.php:141 | at a position, `strtr` picks the longest non-empty key that is a prefix of the rest, or finds that no key matches there |
| Translate.StrtrConcat | src/ProcessLogger.php:141 | when no key occurrence crosses a boundary, the pass handles the text before and after the boundary independently |
| Translate.StrtrNoKey | src/ProcessLogger.php:141 | text in which no key occurs is returned unchanged |
| Translate.StrtrNoPairs | src/ProcessLogger.php:141 | with no pairs `strtr` is the identity |
| Interpolation.StringifyChoice | src/ProcessLogger.php:133-137 | only arrays and objects without `__toString` go through the debug dump; a scalar gives its text and an object with `__toString` gives that method's result, neither depending on the dump |
| Interpolation.Placeholders | src/ProcessLogger.php:130-138 | the pairs map `{key}` to the value's string for each context key, and hold no other keys |
| Interpolation.InterpolateEmptyContext | src/ProcessLogger.php:130-141 | with an empty context the message is unchanged |
| Interpolation.InterpolateLiteral | src/ProcessLogger.php:141 | text containing no `{` is copied through unchanged, whatever the context |
| Interpolation.InterpolatePlaceholder | src/ProcessLogger.php:130-141 | with brace-free keys, every `{k}` becomes the string of `ctx[k]` when `k` is in the context and stays literal otherwise; the text on each side is interpolated on its own, so substituted text is never rescanned |
| Interpolation.InterpolateWholePlaceholder | src/ProcessLogger.php:141 | a message that is exactly one context placeholder becomes that value, even when a shorter placeholder also matches at its start |
| Interpolation.ExampleHello | src/ProcessLogger.php:127-142 | `"Hello {name}"` with `name => "World"` gives `"Hello World"` |
| Interpolation.ExampleMissing | src/ProcessLogger.php:141 | `"{missing}"` with an empty context stays `"{missing}"` |
| Interpolation.ExampleArray | src/ProcessLogger.php:133-136 | an array value is replaced by its debug dump |
| Interpolation.ExampleNoRescan | src/ProcessLogger.php:141 | a replacement that looks like another placeholder is left as it is |
| Interpolation.ExampleLongestWins | src/ProcessLogger.php:141 | of two placeholders that both match at one position, the longer one is replaced |
| Text.SplitJoin | src/ProcessLogger.php:114 | for a non-empty list of lines, none containing a newline, splitting the newline-joined text at newlines gives back the lines |
| Text.JoinEnds | src/ProcessLogger.php:114 | the joined text starts with the first line and ends with the last |
| Text.RTrim | src/ProcessLogger.php:111 | `rtrim` with one character gives the longest prefix that does not end in that character, having removed only that character |
| Text.TrimDecimalFixedPoint | src/ProcessLogger.php:111 | on a `whole.fraction` number the double `rtrim` keeps the whole part; a fraction of zeros is dropped with its point, otherwise only the fraction's trailing zeros go |
| ProcessLogger.Construct | src/ProcessLogger.php:26-29 | a new logger has no session and stores the raw threshold; its admitted levels are those `setLogLevel` would derive |
| ProcessLogger.SetLevel | src/ProcessLogger.php:47-69 | the raw argument is stored; the admitted levels become the descending prefix up to the threshold (empty when it is not a level); the buffer and session readings are untouched; validity is kept |
| ProcessLogger.GetAfterSet | src/ProcessLogger.php:36-39 | `getLogLevel` returns exactly what was last passed to `setLogLevel` |
| ProcessLogger.SetRecognisedLevel | src/ProcessLogger.php:62-64 | a recognised threshold at rank i admits exactly the first i+1 levels; a level is admitted exactly when it is at least as severe |
| ProcessLogger.SetUnrecognisedLevel | src/ProcessLogger.php:60-62 | null or an unknown token admits no level, yet is returned as the level |
| ProcessLogger.Log | src/ProcessLogger.php:80-95 | a non-admitted call changes nothing; an admitted one opens a session with the given readings only when none is active, seeds an empty buffer with the banner, and appends exactly one interpolated `"* "` line after the existing lines; validity is kept |
| ProcessLogger.Flush | src/ProcessLogger.php:102-118 | an empty buffer gives `""` and no change; otherwise the report is the buffered lines, the trailer and the banner joined by newlines, and both the buffer and the start reading are cleared |
| ProcessLogger.SessionIffBuffered | src/ProcessLogger.php:86-93 | in a valid state lines are buffered exactly when a session start is recorded |
| ProcessLogger.FlushTwice | src/ProcessLogger.php:104-106 | a flush right after a flush returns `""` and changes nothing |
| ProcessLogger.FlushReportLines | src/ProcessLogger.php:108-114 | when no buffered line and not the trailer contains a newline, splitting the report at newlines gives the buffered lines, then the trailer, then the closing banner (one report line per buffered line, plus two) |
| ProcessLogger.FlushFramed | src/ProcessLogger.php:108-114 | a non-empty report begins and ends with the 45-asterisk banner |
| Session.RunKeepsThreshold | src/ProcessLogger.php:80-95 | logging never changes the threshold or the admitted levels, and keeps the state valid |
| Session.RunNoneAdmitted | src/ProcessLogger.php:82-84 | calls none of which is admitted leave the whole state as it was, with no session started |
| Session.RunBuffer | src/ProcessLogger.php:91-94 | after calls of which at least one is admitted, the buffer is the earlier buffer (or the banner, if it was empty) followed by one line per admitted call, in call order; `Session.RunNoneAdmitted` covers runs with no admitted call |
| Session.RunStart | src/ProcessLogger.php:86-89 | an active session keeps its start and memory readings; an idle logger takes them from the first admitted call |
| Session.SessionReport | src/ProcessLogger.php:80-118 | from an idle logger, the report is the banner, the admitted lines in order, the trailer and the banner (or `""` if nothing was admitted); afterwards the logger is idle and a second flush returns `""` |
| Session.ExampleScenario | src/ProcessLogger.php:80-118 | threshold warning; logging `"a {n}"` at warning, `"skip"` at info and `"b"` at error reports only `"* a 1"` and `"* b"`, framed by the banner and trailer; the next flush reports nothing |

## Left out

- The clock and memory reads (`microtime(true)`, `memory_get_peak_usage()`) are not modelled: they are readings from the environment and are passed in as parameters.
- The numbers in the trailer are not computed. `sprintf('%0.2F', …)` and `number_format(…, 3, '.', '')` format floating-point values, so their output is a parameter. The format string around them and the double `rtrim` are modelled.
- `var_export` output is not modelled. It is a PHP debug dump and is the parameter `dump`; only the choice of which values use it is modelled.
- Clock readings are strictly positive (seconds since the epoch), so `!$this->start` is modelled as "no start recorded". A start reading of exactly `0.0`, which PHP would treat as falsy, is not modelled.
- PHP loose comparison in `in_array`/`array_search` is not modelled: levels are exact tokens compared by equality. Non-string arguments such as `true`, which compares loosely equal to `"emergency"`, are out of scope. So is the runtime check for `__toString`, which is the `toString` field of `Value.Object`.
- Context values are assumed already converted to strings (`Value.Scalar`), since PHP's string cast of numbers and booleans is a runtime conversion.
- ProcessLogger.FlushReportLines: the line count holds only for newline-free messages and trailer. A message containing a newline, or a multi-line `var_export` dump of an array, gives the report more lines than the buffer has entries.
- Interpolation.InterpolatePlaceholder: stated only for brace-free context keys and placeholders. With braces inside keys, placeholders can overlap and the longest-match choice decides (see `ExampleLongestWins`); the general behaviour is given by `Translate.LongestMatch` and `Translate.StrtrConcat`.
- The per-level convenience methods of PSR-3's `AbstractLogger` are not modelled, because that class is not part of this model. The unused `$timers` field is omitted.
