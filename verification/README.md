# Verified models of the repository's script algorithms

The repository's `scripts/` directory holds a number of small programs that other work depends on: the Android and
Apple resource compilers, the Control UI translation runner, the gateway restart benchmark, and two policy guardrails.
This project models the algorithms at their core in Dafny and proves what they promise, over every input and every run.

Functions specify what an algorithm computes; methods follow the scripts' loops and updates and are proved equal to
those functions; lemmas prove what the functions promise. Each file is one module:

| files | what they model |
|---|---|
| `AndroidEscaping` | chains of `replaceAll` passes that escape and decode Android resources and Kotlin literals |
| `KotlinInterpolation`, `AndroidRender` | scanning `$name` and `${...}` in Kotlin templates, and rendering a translation as a positional format string |
| `TranslationSelection`, `GeneratedResources` | choosing one translation among several, on Android and on Apple platforms; keeping a checked-in Android translation from one synchronisation to the next |
| `TopLevelSplit`, `ArgumentSplitter`, `KotlinSegments`, `QuotedText` | cutting text at top-level commas, finding a matching parenthesis, and what counts as quoted |
| `PathGlob` | dotted path patterns with `*` and `**` |
| `OutputLines` | cutting output streams into lines, chunk by chunk |
| `RestartProbe`, `RunLength` | observing an outage and its recovery; merging equal consecutive states |
| `BenchStats`, `BenchGate`, `RealFacts` | benchmark statistics, and the pass/fail gate |
| `TranslationBatches`, `Placeholders`, `TranslateBatch`, `TranslateTranscript` | packing prompts, comparing `{name}` placeholders, retrying and halving a batch, and which prompts follow which |
| `BoundedCapture`, `ProcessSupervisor`, `RunOutcomes`, `SignalLog`, `SignalRelay` | keeping the tail of a process's output, supervising any number of process groups, how each run settles, which signals are sent, and whether a relayed signal is re-raised in the end |
| `CatalogFlatten`, `CatalogAnalysis` | flattening locale catalogs and comparing them with the English one |
| `AppleCatalog` | building an Apple string catalog and keeping its files current |
| `Text`, `Decimals`, `CodeUnits`, `Sorting`, `JsMap`, `Counting`, `Results`, `Sequences` | the JavaScript strings, order, sort, `Map` and optional values the rest relies on, and a few facts about sequences |

Modelling choices. A string is a sequence of Unicode scalar values; `CodeUnits` gives its UTF-16 code units, its
JavaScript `length`, and the order that `<` puts strings in. A `Map` remembers the order in which
its keys were first set; `toSorted` is a stable insertion sort, and `Sorting.SortIsCanonical` shows that the algorithm
does not matter. Numbers of the benchmark are reals. Providers, probes, process liveness and signal delivery are
arbitrary: each answer comes with the event, poll or attempt that asks for it. Exceptions are `Result` or `Option`
values. In `ProcessSupervisor` a world holds every run started so far together with the shared set of parent-signal
states and a log of what can be observed; `Step` handles one event of one run, and the class `Supervisor`, whose
methods update that state in place, refines it. The log exists only to state properties about whole runs.

Some laws one might expect fail, and the project proves exactly when:

- A value does not survive escaping and decoding when it holds a backslash directly followed by `n`
  (`AndroidEscaping.AndroidRoundTripIff`, `KotlinRoundTripIff`; the smallest such value is in `BackslashNIsLost`).
  A translation written as a resource and read back with the script's own decoder keeps its meaning exactly when it
  holds no such pair outside its interpolations (`AndroidRender.ResourcePreservesMeaningIff`).
- A checked-in translation other than its source, whose inventory entries are gone, is written again exactly when both are
  not empty, the source has no interpolations and neither holds such a pair (`GeneratedResources.RetainedIff`): the
  base resource of a source with interpolations is never read back as that source.
- A relayed parent signal can be lost. Without a new run no re-raise can follow exactly when every active run was
  signalled, is done, has closed and has no kill timer left from the signal (`SignalRelay.StuckIff`); a run that
  starts during another's kill grace period and ends normally after it leads there (`ReraiseCanBeLost`), and
  `GetsStuckIff` names every step that does. When all active runs were signalled and one is not done, the re-raise
  does happen once the kill timers have fired (`RelayEndsInReraise`).
- Flattening a catalog merges leaves exactly when two of them have the same segments: their keys without leading empty
  ones, cut at every dot (`CatalogFlatten.FlattenKeepsLeavesIff`); the last of them wins (`LastLeafWins`). Keys that
  are not empty and hold no dot never merge (`FlattenNeverMerges`), and `UncleanKeysMerge` shows inputs that do.

## Model

| member | source | states |
|---|---|---|
| `AndroidEscaping.ChainIsFlatMap` | scripts/android-app-i18n.ts:233-242 | passes that each rewrite one character, none rewriting what an earlier one wrote, compute one per-character map on every text: the reason the order of the passes is right |
| `AndroidEscaping.EscapeIsTwoMaps` | scripts/android-app-i18n.ts:233-242 | the seven Android passes equal the XML-entity map after the backslash map |
| `AndroidEscaping.KotlinEscapeIsOneMap` | scripts/android-app-i18n.ts:244-250 | the four Kotlin passes equal one backslash map |
| `AndroidEscaping.EntitiesRoundTrip` | scripts/android-app-i18n.ts:109-114 | the four entity decoding passes undo entity escaping on every text |
| `AndroidEscaping.BackslashesRoundTrip` | scripts/android-app-i18n.ts:115-118 | the four backslash passes give back the escaped text with each backslash followed by n turned into a backslash and a newline, and nothing else changed |
| `AndroidEscaping.AndroidDecodesEscaped` | scripts/android-app-i18n.ts:121-126 | what decoding the quoted escape of a value returns, for every value |
| `AndroidEscaping.EntitiesAreReadOnce` | scripts/android-app-i18n.ts:109-114 | on every text, escaped or not, the four entity passes read each entity once and from left to right: `&amp;lt;` becomes `&lt;` |
| `AndroidEscaping.OnePairOfQuotesGoes` | scripts/android-app-i18n.ts:121-126 | for every text inside: white space around it goes, then one pair of quotes if both are there, and nothing is left of a lone quote |
| `AndroidEscaping.AndroidDecodesPadded` | scripts/android-app-i18n.ts:121-126 | white space around the resource does not matter, and an unquoted value that neither begins nor ends with white space is decoded like a quoted one |
| `AndroidEscaping.AndroidRoundTripIff` | scripts/android-app-i18n.ts:1122 | a value written as a quoted resource is read back exactly when no backslash in it is followed by n |
| `AndroidEscaping.KotlinRoundTripIff` | scripts/android-app-i18n.ts:361-367 | the same characterisation for the Kotlin literal pair |
| `AndroidEscaping.BackslashNIsLost` | scripts/android-app-i18n.ts:115 | the smallest value that is not read back, and what it becomes |
| `KotlinInterpolation.ReadKotlinInterpolations` | scripts/android-app-i18n.ts:134-184 | the scanning loop with its depth, quote and escape state returns the specified scan, failing on an unclosed brace |
| `KotlinInterpolation.ScanIsWellPlaced` | scripts/android-app-i18n.ts:148-174 | the interpolations are disjoint slices of the text in increasing order, each carrying its own text |
| `KotlinInterpolation.ScanMissesNothing` | scripts/android-app-i18n.ts:136-143 | every opener lies inside a returned interpolation, and every interpolation runs from an opener to its end |
| `KotlinInterpolation.OpensWhere` | scripts/android-app-i18n.ts:136-143 | a `$` before a brace, a letter or an underscore opens an interpolation |
| `KotlinInterpolation.NameEndsWhereWordEnds` | scripts/android-app-i18n.ts:145-152 | an interpolation without a brace runs over ASCII letters, digits and underscores and ends only where the text ends or another character stands |
| `KotlinInterpolation.ScanFailsIffUnbalanced` | scripts/android-app-i18n.ts:179-181 | the scan fails exactly when it reaches an opener whose brace is never closed |
| `KotlinInterpolation.BraceClosesWhereBalanced` | scripts/android-app-i18n.ts:154-178 | a braced interpolation ends right after the first brace at which the braces outside quotes balance, and is unclosed exactly when they never do |
| `KotlinInterpolation.OpenBracesCountsUnquoted` | scripts/android-app-i18n.ts:158-171 | the depth is one plus the opening less the closing braces outside quoted sections |
| `AndroidRender.TokenCounts` | scripts/android-app-i18n.ts:197-203 | the sorted token counts, for which `Counting.SortedCountsCompareMultisets` gives the meaning |
| `Counting.SortedCountsCompareMultisets` | scripts/android-app-i18n.ts:204-208 | comparing sorted counts compares multisets of tokens, both ways |
| `AndroidRender.IndexTokens` | scripts/android-app-i18n.ts:210-215 | the index map holds, for every token, its 1-based source positions in order |
| `AndroidRender.PositionsAreOccurrences` | scripts/android-app-i18n.ts:210-215 | the o-th listed position is the one place in the source holding the token with exactly o equal tokens before it |
| `AndroidRender.RenderTemplate` | scripts/android-app-i18n.ts:216-228 | the replacing loop, with its cursor and occurrence map, writes the specified template |
| `AndroidRender.RenderAndroidResourceValue` | scripts/android-app-i18n.ts:186-231 | succeeds, with the escaped template, exactly when both scans are balanced and the token multisets agree; an unbalanced scan is its own error |
| `AndroidRender.EveryTokenHasAPosition` | scripts/android-app-i18n.ts:220-226 | when the multisets agree each translated token is matched to the source occurrence of the same number, so the raw-token fallback is never taken |
| `AndroidRender.PositionIsUnique` | scripts/android-app-i18n.ts:220-226 | no position is emitted twice |
| `AndroidRender.EveryPositionIsEmitted` | scripts/android-app-i18n.ts:220-226 | every position 1..n is emitted |
| `AndroidRender.FormatLiteral` | scripts/android-app-i18n.ts:219-228 | printf-style formatting undoes the doubling of percent signs, whatever follows |
| `AndroidRender.FormatInterpolates` | scripts/android-app-i18n.ts:216-228 | formatting the rendered rest of a text gives that rest with each interpolation replaced by its value |
| `AndroidRender.RenderingPreservesMeaning` | scripts/android-app-i18n.ts:186-231 | for every assignment of values, formatting the template with the source's values is the translation with its interpolations replaced by their values |
| `AndroidRender.ResourcePreservesMeaningIff` | scripts/android-app-i18n.ts:109-126 | a translation that was rendered, escaped and quoted, read back with the script's own decoder and formatted, still means the same exactly when it holds no backslash directly followed by n, both outside every interpolation |
| `TranslationSelection.SelectDeterministicTranslation` | scripts/android-app-i18n.ts:1015-1030 | returns the best candidate: not the source if any other was offered, most frequent among those, least in code-unit order on ties; the empty string for no candidates |
| `TranslationSelection.ChooseTranslation` | scripts/apple-app-i18n.ts:591-604 | returns the best candidate in the same sense; the source for no candidates |
| `TranslationSelection.AndroidPicksBest` | scripts/android-app-i18n.ts:1016-1017 | filtering out the source first finds the best candidate |
| `TranslationSelection.ApplePicksBest` | scripts/apple-app-i18n.ts:599-602 | penalising the source in the comparator finds the best candidate |
| `TranslationSelection.BestIsUnique` | scripts/apple-app-i18n.ts:592-593 | there is only one best candidate |
| `TranslationSelection.PlatformsAgree` | scripts/apple-app-i18n.ts:591-604 | both rules return the same string exactly when there is a candidate or the source is empty |
| `TranslationSelection.ChoiceIgnoresOrder` | scripts/android-app-i18n.ts:1018-1029 | both choices depend only on the multiset of candidates |
| `CodeUnits.LessIsCodeUnitOrder` | scripts/android-app-i18n.ts:105-107 | the order used is the lexicographic order of the UTF-16 code units |
| `GeneratedResources.SelectGeneratedTranslation` | scripts/android-app-i18n.ts:1032-1046 | the best inventory translation if there is any; otherwise the checked-in one exactly when its source is unchanged and it differs from the source, else nothing |
| `GeneratedResources.InterpolatedSourceIsNotReadBack` | scripts/android-app-i18n.ts:1243 | the base resource written for a source with interpolations never decodes to that source |
| `GeneratedResources.RetainedIff` | scripts/android-app-i18n.ts:1242-1266 | with no inventory translation left, the value written last is written again exactly when it is the source itself, or both are non-empty, the source has no interpolations, and neither holds a backslash followed by n |
| `Sorting.SortIsCanonical` | scripts/android-app-i18n.ts:1023-1027 | sorting by a total order forgets the original order and nothing else |
| `Sorting.OrderedIsUnique` | scripts/android-app-i18n.ts:1023-1027 | two ordered lists of the same elements are equal, so any sorting algorithm gives this result |
| `TopLevelSplit.CutThenJoin` | scripts/android-app-i18n.ts:709-719 | joining the pieces with commas gives the text back |
| `TopLevelSplit.CutIsSeparable` | scripts/check-temp-path-guardrails.ts:152-156 | no piece holds a top-level comma, and each but the last leaves the scanner where it started |
| `TopLevelSplit.JoinThenCut` | scripts/check-temp-path-guardrails.ts:99-163 | cutting the join of such pieces gives exactly the pieces back |
| `KotlinSegments.SplitTopLevelSegments` | scripts/android-app-i18n.ts:653-721 | the segment loop returns the specified pieces as slices that lie side by side over the whole range |
| `KotlinSegments.ReadCharacter` | scripts/android-app-i18n.ts:668-717 | the loop body's quote, bracket, type-argument and default-value bookkeeping; at a separating comma, clearing the default-value flag is enough to be back in the start state |
| `KotlinSegments.NestingIsCounted` | scripts/android-app-i18n.ts:667-708 | after any text each bracket depth is the opening less the closing brackets of its kind outside quotes, the type-argument depth the angle brackets still open before a default value begins, and that value begins at an equals sign outside all of them |
| `KotlinSegments.SeparatesIff` | scripts/android-app-i18n.ts:709-717 | a comma separates exactly when it is unquoted, the brackets of each kind balance, and no type argument is open |
| `KotlinSegments.SegmentsAreUnique` | scripts/android-app-i18n.ts:653-721 | the segments are the only pieces without top-level commas whose comma-join is the text |
| `ArgumentSplitter.QuoteScanState.BeginQuotedSection` | scripts/check-temp-path-guardrails.ts:48-54 | opens a quoted section exactly at the three quote characters |
| `ArgumentSplitter.QuoteScanState.ConsumeQuotedChar` | scripts/check-temp-path-guardrails.ts:56-72 | consumes exactly inside quotes, stepping over escaped characters |
| `QuotedText.PlainText` | scripts/check-temp-path-guardrails.ts:48-54 | text without quotes is unquoted, character by character |
| `QuotedText.QuotedSection` | scripts/check-temp-path-guardrails.ts:56-72 | a section from a quote to the next such quote that is not escaped is skipped whole: escaped pairs and other quotes inside it end nothing |
| `QuotedText.InsideMeans` | scripts/check-temp-path-guardrails.ts:56-72 | the scanner is inside quotes only after an opening quote followed by escaped pairs and characters other than that quote |
| `QuotedText.StillOpenIsMost` | scripts/check-temp-path-guardrails.ts:122-124 | the clamped depth is the greatest excess of opening over closing brackets in any suffix |
| `ArgumentSplitter.FindMatchingParen` | scripts/check-temp-path-guardrails.ts:74-97 | returns the first index at which the unquoted depth reaches zero, where an unquoted `)` stands, and -1 exactly when there is none |
| `ArgumentSplitter.OpenAfterCountsUnquoted` | scripts/check-temp-path-guardrails.ts:85-90 | that depth is one plus the unquoted opening less the unquoted closing parentheses |
| `ArgumentSplitter.SplitTopLevelArguments` | scripts/check-temp-path-guardrails.ts:99-163 | the loop with its three depth counters returns the trimmed pieces, without a blank last one |
| `ArgumentSplitter.NestingIsCounted` | scripts/check-temp-path-guardrails.ts:106-151 | after any text each of the three depths is the number of opening brackets of its kind, outside quotes, not closed since |
| `ArgumentSplitter.SeparatesIff` | scripts/check-temp-path-guardrails.ts:152-156 | a comma separates exactly when it is unquoted and all three depths are zero |
| `ArgumentSplitter.SplitUndoesJoin` | scripts/check-temp-path-guardrails.ts:99-163 | splitting the comma-join of arguments without top-level commas gives them back, trimmed, without a blank last one |
| `ArgumentSplitter.TrimmedKeepsAll` | scripts/check-temp-path-guardrails.ts:159-162 | when the last argument is not blank every argument is returned |
| `ArgumentSplitter.TrimmedDropsBlankLast` | scripts/check-temp-path-guardrails.ts:159-162 | when it is blank all but it are returned, trimmed |
| `ArgumentSplitter.PiecesAreUnique` | scripts/check-temp-path-guardrails.ts:99-163 | what the splitter trims is the only such decomposition of the source |
| `PathGlob.MatchesParts` | scripts/check-policy-config-coverage.ts:209-232 | the recursive matcher, with its early exits, decides whether the value falls into consecutive blocks, one per pattern part: one segment for `*` or a literal, any number for `**` |
| `PathGlob.PathMatchesPattern` | scripts/check-policy-config-coverage.ts:203-207 | the same for written patterns and paths |
| `PathGlob.MatchesAny` | scripts/check-policy-config-coverage.ts:199-201 | holds exactly when some pattern matches |
| `PathGlob.MatchesByHead` | scripts/check-policy-config-coverage.ts:210-231 | the meaning of a pattern unfolds along its head as the matcher does; in particular a trailing `**` matches everything |
| `PathGlob.MatchesComposes` | scripts/check-policy-config-coverage.ts:209-232 | p followed by q matches v exactly when v splits into a part matched by p and a part matched by q |
| `PathGlob.DottedPatternsCompose` | scripts/check-policy-config-coverage.ts:203-207 | the same law for patterns written with dots |
| `PathGlob.DoubledWildcard` | scripts/check-policy-config-coverage.ts:214-224 | two consecutive `**` mean the same as one, anywhere in a pattern |
| `PathGlob.LiteralPattern` | scripts/check-policy-config-coverage.ts:228-231 | a pattern without wildcards matches its own path and nothing else |
| `OutputLines.SplitLinesIsSplit` | scripts/bench-gateway-restart.ts:973 | splitting at `\r?\n` gives parts without line feeds which, with line ends between them, are the text |
| `OutputLines.SplitIsUnique` | scripts/bench-gateway-restart.ts:973 | it is the only such split |
| `OutputLines.SplitResumes` | scripts/bench-gateway-restart.ts:972-978 | going on from the carry gives the split of the whole text, wherever the text was cut, between `\r` and `\n` included |
| `OutputLines.OutputBuffers.OnChunk` | scripts/bench-gateway-restart.ts:1266-1270 | a chunk changes its own stream's carry and reports exactly the completed lines, in order |
| `OutputLines.OutputBuffers.FlushOutputLineBuffers` | scripts/bench-gateway-restart.ts:980-997 | a partial flush reports and clears each non-empty carry, stdout first; any other flush does nothing |
| `OutputLines.ChunkingDoesNotMatter` | scripts/bench-gateway-restart.ts:972-978 | for every interleaving and chunking, a stream's reported lines and its carry are the split of everything it received |
| `OutputLines.FinalFlushLosesNothing` | scripts/bench-gateway-restart.ts:980-997 | after the final flush every line was reported, a non-empty unfinished one included |
| `RestartProbe.RecordAttempt` | scripts/bench-gateway-restart.ts:713-741 | one attempt keeps the loop's variables equal to what the trace so far shows, and tells whether it ended an outage |
| `RestartProbe.WaitForRestartProbe` | scripts/bench-gateway-restart.ts:680-765 | for every sequence of polls the loop returns what the attempts it made show, whichever exit it takes |
| `RestartProbe.AttemptedTraceStops` | scripts/bench-gateway-restart.ts:742-753 | no attempt is made after a recovery |
| `RestartProbe.AttemptsAre` | scripts/bench-gateway-restart.ts:698-712 | the attempts made are exactly those the loop conditions allow: in time, process alive, not recovered, and not satisfied |
| `RestartProbe.SameStateIff` | scripts/bench-gateway-restart.ts:717-718 | the key strings differ exactly when the status or the error kind differs, no error counting as `ok` |
| `RestartProbe.ErrorAndStatus` | scripts/bench-gateway-restart.ts:712-735 | the first error kind is that of the first attempt with a non-empty one, and the status that of the last attempt |
| `RestartProbe.NoOutageMeans` | scripts/bench-gateway-restart.ts:756-764 | with every attempt answered 200 no outage is reported and the time is that of the last attempt |
| `RestartProbe.OutageMeans` | scripts/bench-gateway-restart.ts:736-738 | the outage begins at the first attempt not answered 200; without a later 200 no time is reported |
| `RestartProbe.RecoveryMeans` | scripts/bench-gateway-restart.ts:742-753 | the recovery is the first 200 after that, and the downtime lies between the two |
| `RestartProbe.DowntimeMeasuresTheOutage` | scripts/bench-gateway-restart.ts:736-752 | a downtime is reported exactly when an attempt answered 200 follows one that was not; it runs from the first such failure to the first success after it, and is never negative |
| `RestartProbe.TimeMeansUp` | scripts/bench-gateway-restart.ts:742-764 | a reported time belongs to a final status 200; an outage without recovery reports neither time nor downtime |
| `RestartProbe.RecoveryIsLast` | scripts/bench-gateway-restart.ts:742-753 | the recovery is the last attempt |
| `RestartProbe.TransitionsAreRuns` | scripts/bench-gateway-restart.ts:717-732 | the transitions are the trace with consecutive equal states merged, each with the status, error and time of the first attempt of its run |
| `RunLength.RunsOfExpand` | scripts/bench-gateway-restart.ts:717-732 | the runs expand to the trace, none is empty and neighbours differ |
| `RunLength.ProperRunsAreUnique` | scripts/bench-gateway-restart.ts:717-732 | a trace is read as such runs in one way only |
| `BenchStats.StatisticsAreOrdered` | scripts/bench-gateway-restart.ts:431-443 | min <= p50 <= p95 <= max and min <= avg <= max for every non-empty list |
| `BenchStats.MiddlesAreOrdered` | scripts/bench-gateway-restart.ts:412-429 | median and 95th percentile lie in order between the extremes |
| `BenchStats.MedianIs` | scripts/bench-gateway-restart.ts:412-423 | the median stands at the middle place in the order of the samples, or is the mean of the two that do |
| `BenchStats.PercentileIs` | scripts/bench-gateway-restart.ts:425-429 | the percentile is the sample at place floor(pn / 100), or the last |
| `BenchStats.AverageIs` | scripts/bench-gateway-restart.ts:431-443 | the five statistics are what their names say; the average times the count is the sum |
| `BenchStats.ExtremesAreElements` | scripts/bench-gateway-restart.ts:438-439 | max and min are samples that bound all samples |
| `BenchStats.StatisticsIgnoreOrder` | scripts/bench-gateway-restart.ts:412-443 | all five statistics are the same for any permutation of the samples |
| `BenchGate.CollectSampleFailures` | scripts/bench-gateway-restart.ts:1538-1572 | the findings for one sample |
| `BenchGate.CollectBenchmarkEvidenceFailures` | scripts/bench-gateway-restart.ts:1526-1575 | the findings for all cases; there are none exactly when every case has samples and every failure-free sample has its evidence |
| `BenchGate.FindingIsReportedIff` | scripts/bench-gateway-restart.ts:1526-1575 | a finding is reported exactly when its case, its sample and its reason deserve it |
| `BenchGate.FailureRateIsAProportion` | scripts/bench-gateway-restart.ts:566-591 | the failure rate is between 0 and 1; it is zero, and no failure code is reported, exactly when nothing failed |
| `BenchGate.FailureRateIs` | scripts/bench-gateway-restart.ts:572-590 | the rate is the failed iterations and sample-only failures over all iterations and sample-only failures |
| `BenchGate.FailedIterationsAre` | scripts/bench-gateway-restart.ts:566 | an iteration counts as failed, as often as it occurs, exactly when it has a failure code |
| `BenchGate.SampleOnlyFailuresAre` | scripts/bench-gateway-restart.ts:567-571 | a sample counts exactly when it failed and none of its iterations did |
| `BenchGate.FirstFailureIs` | scripts/bench-gateway-restart.ts:573-576 | the code of the first failed sample, or with none of the first failed iteration |
| `BenchGate.RssMbIs` | scripts/bench-gateway-restart.ts:488-509 | the first trace value present, then the other, then the last snapshot present |
| `BenchGate.PointsKeepValues` | scripts/bench-gateway-restart.ts:512-514 | the points are the present values, each under its own index, in increasing order |
| `BenchGate.EvidenceForcesSlope` | scripts/bench-gateway-restart.ts:1119-1125 | RSS evidence for every one of two or more restarts forces a slope |
| `BenchGate.SlopeIsExactOnLines` | scripts/bench-gateway-restart.ts:511-522 | values that grow by the same amount per restart have that amount as slope, however many are missing |
| `BenchGate.SlopeIs` | scripts/bench-gateway-restart.ts:511-522 | for any values, the slope times the distance between the first and last one present is their difference; there is none exactly when they are the same one |
| `BenchGate.GatePassesIff` | scripts/bench-gateway-restart.ts:1504-1586 | with failures disallowed the gate passes exactly when every case has samples and every sample is failure-free with iterations, positive maximum RSS and RSS evidence per restart |
| `BenchGate.GateAllowingFailuresIff` | scripts/bench-gateway-restart.ts:1581-1586 | with failures allowed the gate passes exactly when every case has samples and every sample in which nothing failed is fully measured |
| `TranslationBatches.BuildTranslationBatches` | scripts/control-ui-i18n.ts:885-909 | the batches concatenate to the items, each fits the limits, and no other way to send the items in order within the limits uses fewer |
| `TranslationBatches.GreedyPacks` | scripts/control-ui-i18n.ts:891-906 | the packing loses and reorders nothing, and no batch is empty, over 20 items, or over budget with two or more items |
| `TranslationBatches.GreedyTakesMost` | scripts/control-ui-i18n.ts:893-899 | the first batch is at least as long as any prefix that fits, and the rest is packed afresh |
| `TranslationBatches.GreedyIsOptimal` | scripts/control-ui-i18n.ts:885-909 | no packing of the items, or of any list ending in them, uses fewer batches |
| `TranslationBatches.ChargeCoversEstimate` | scripts/control-ui-i18n.ts:535-537 | the loop's running size exceeds the estimate of the batch by two characters per item, so it never understates it |
| `TranslationBatches.EstimateIs` | scripts/control-ui-i18n.ts:535-537 | the estimate is the total length of keys and texts, 8 for each item, and 2 |
| `TranslationBatches.FitsMeans` | scripts/control-ui-i18n.ts:893-899 | a batch fits exactly when it holds 1 to 20 items and, with more than one, its estimate and two characters for each stay within the budget |
| `Placeholders.ReadAtIsExact` | scripts/control-ui-i18n.ts:322 | the pattern matches at a place exactly when a name stands between braces there |
| `Placeholders.NamesAreAll` | scripts/control-ui-i18n.ts:322 | the left-to-right, non-overlapping matches find every name that stands between braces anywhere |
| `Placeholders.ComparingExtractsComparesSets` | scripts/control-ui-i18n.ts:334-336 | comparing the extracted lists compares the sets of placeholders, both ways |
| `TranslateBatch.FindPlaceholderMismatches` | scripts/control-ui-i18n.ts:327-346 | reports the mismatching keys in order, and none exactly when every key's translation has its source's placeholder set |
| `TranslateBatch.ParseTranslationBatchReply` | scripts/control-ui-i18n.ts:1023-1032 | of a parsed reply, the first missing or blank key is an error, then any mismatch; otherwise the translations |
| `TranslateBatch.ReplyIsAcceptedIff` | scripts/control-ui-i18n.ts:1024-1032 | a reply is accepted exactly when every item has a non-blank text with its source's placeholders |
| `TranslateBatch.AcceptedReplyTranslates` | scripts/control-ui-i18n.ts:1023-1032 | an accepted map has exactly the items' keys, in order, each with such a text |
| `TranslateBatch.MissingIs` | scripts/control-ui-i18n.ts:1024-1029 | the first item without a non-blank text is the one reported missing, before any mismatch |
| `TranslateBatch.MismatchIs` | scripts/control-ui-i18n.ts:1031 | otherwise the reply is refused with exactly the keys whose text has another placeholder set, in source order |
| `TranslateBatch.PromptTimeoutIff` | scripts/control-ui-i18n.ts:494-496 | an error is a timeout exactly when its message says "timed out" somewhere, in any mixture of cases |
| `TranslateBatch.ValuesWereSaid` | scripts/control-ui-i18n.ts:1051-1057 | every value a run returns is, untouched, the text some reply of that run held under that key |
| `TranslateBatch.DistinctKeys` | scripts/control-ui-i18n.ts:1031 | with distinct keys each item stands for itself and no key is lost |
| `TranslateBatch.TranslateBatch` | scripts/control-ui-i18n.ts:1035-1095 | the retry loop terminates with the specified result after at most 4n-2 attempts (2 for no items) |
| `TranslateBatch.TranslateHalves` | scripts/control-ui-i18n.ts:1068-1082 | the two recursive calls, left before right, with the merged map or the first failure |
| `TranslateBatch.RunIsShort` | scripts/control-ui-i18n.ts:1044-1092 | the attempts of a batch, bisected sub-batches included, are bounded for every provider |
| `TranslateTranscript.RunIsRecorded` | scripts/control-ui-i18n.ts:1044-1094 | every run has a transcript of the slices prompted: a timeout on several items is followed by their first half, rounded up, and then, if that succeeds, by the rest; a timeout on one item ends the run; any other first failure by the same slice once more, a second one ends the run; no slice is prompted again after it timed out |
| `TranslateTranscript.AlwaysTimesOut` | scripts/control-ui-i18n.ts:1067-1086 | a provider that always times out is asked exactly 1 + ceil(log2 n) times |
| `TranslateBatch.BoundIsAttained` | scripts/control-ui-i18n.ts:1044-1092 | some provider needs exactly 4n-2 attempts, for every n and all non-blank texts |
| `TranslateBatch.HalvesTranslate` | scripts/control-ui-i18n.ts:1082 | merging the maps of two halves gives a translation of the whole |
| `TranslateBatch.EveryProvider` | scripts/control-ui-i18n.ts:1035-1095 | for every provider and n >= 1 items: at most 4n-2 attempts, and on success a map with exactly the items' keys, non-blank values and the sources' placeholders |
| `TranslateBatch.FailureIsTheLastError` | scripts/control-ui-i18n.ts:1094 | a failed run reports the error of its very last attempt, made on some slice of the items |
| `BoundedCapture.AppendKeepsTail` | scripts/control-ui-i18n.ts:561-572 | appending to the tail of what was received gives the tail, and the count of what precedes it, of everything received |
| `BoundedCapture.CaptureHoldsTail` | scripts/control-ui-i18n.ts:561-572 | over any chunks, of code units or anything else, the capture holds the last min(total, limit) elements and counts the rest; nothing is counted exactly when it holds everything |
| `ProcessSupervisor.Supervisor.SignalProcessGroup` | scripts/control-ui-i18n.ts:635-657 | sends the signal once and adds a line to stderr only when delivery is refused |
| `ProcessSupervisor.Supervisor.ProcessGroupIsAlive` | scripts/control-ui-i18n.ts:691-701 | a run without a process id counts as dead |
| `ProcessSupervisor.Supervisor.MaybeReraiseRunProcessParentSignal` | scripts/control-ui-i18n.ts:581-588 | re-raises exactly when every state in the shared set is signalled and done, in whatever order they are visited |
| `ProcessSupervisor.Supervisor.SettleRun` | scripts/control-ui-i18n.ts:702-716 | settles once, and leaves the shared set and the kill timer alone while a signal is pending |
| `ProcessSupervisor.Supervisor.HandleParentSignal` | scripts/control-ui-i18n.ts:659-682 | relays the signal, then finishes or starts the kill grace, replacing a timer that runs |
| `ProcessSupervisor.Supervisor.HandleTimeout` | scripts/control-ui-i18n.ts:746-764 | sends SIGTERM and starts the kill grace unless one runs |
| `ProcessSupervisor.Supervisor.HandleKillTimer` | scripts/control-ui-i18n.ts:675-681 | sends SIGKILL, then finishes the relay or the postponed close |
| `ProcessSupervisor.Supervisor.HandleClose` | scripts/control-ui-i18n.ts:781-800 | finishes the relay, postpones the close while the group lives, or settles the run |
| `ProcessSupervisor.Supervisor.Handle` | scripts/control-ui-i18n.ts:590-800 | one event of one run; the class refines the step relation |
| `ProcessSupervisor.StepKeeps` | scripts/control-ui-i18n.ts:590-800 | every event of every run keeps the invariant that ties each run's flags to what the log tells about it |
| `ProcessSupervisor.AfterKeeps` | scripts/control-ui-i18n.ts:590-800 | the invariant holds in every reachable world |
| `ProcessSupervisor.ReraiseIsSafe` | scripts/control-ui-i18n.ts:581-588 | in every interleaving, when the parent signal is re-raised every run started so far was signalled and afterwards had its group found dead or SIGKILL sent to it, or had settled without being signalled |
| `ProcessSupervisor.SweptMeans` | scripts/control-ui-i18n.ts:658-690 | what the history flags stand for, event by event of the log |
| `ProcessSupervisor.DoneMeansSwept` | scripts/control-ui-i18n.ts:664-680 | a run is done only after it was signalled and then had its group found dead or SIGKILL sent to it |
| `ProcessSupervisor.SettlesAtMostOnce` | scripts/control-ui-i18n.ts:702-716 | no run settles twice |
| `ProcessSupervisor.ResolvesOnlyThroughCleanClose` | scripts/control-ui-i18n.ts:717-745 | a run resolves only after a close, without timeout and without parent signal; with exit code 0 its stdout is everything received |
| `RunOutcomes.SettlesAsTold` | scripts/control-ui-i18n.ts:717-800 | over every reachable log: a run resolves, fails, has too much output, times out or errors exactly under its own condition on exit code, `rejectOnFailure`, received output, timeout and spawn error; it resolves with the code the child closed with (null as 1), with the formatted error output and with the received output; a failure names the first of error output, output and signal; a timed-out run settles only after its group was found dead or sent SIGKILL |
| `RunOutcomes.PendingMeans` | scripts/control-ui-i18n.ts:746-800 | a run that closed, was not signalled and did not settle has timed out and waits, its close kept, for the kill timer |
| `SignalLog.SignalsAreOrdered` | scripts/control-ui-i18n.ts:658-764 | over every reachable log: the relay sends the group the very signal that arrived, at once; a timeout sends SIGTERM; SIGKILL follows one of these; only a signal that arrived is re-raised |
| `ProcessSupervisor.StepReraisesIff` | scripts/control-ui-i18n.ts:664-680 | a step re-raises exactly when it completes a signalled run and every active run is then signalled and done |
| `SignalRelay.StuckIff` | scripts/control-ui-i18n.ts:581-588 | in a reachable world no continuation without a new run re-raises exactly when every active run was signalled and is done, has closed, and has no kill timer left from the signal; otherwise some continuation does |
| `SignalRelay.ReraisesInMeans` | scripts/control-ui-i18n.ts:587 | a continuation re-raises exactly when it adds a re-raise to the log |
| `SignalRelay.RelayEndsInReraise` | scripts/control-ui-i18n.ts:658-690 | once every active run was signalled and one is not done, every continuation without a new run that leaves no kill timer of a signal running has re-raised |
| `SignalRelay.GetsStuckIff` | scripts/control-ui-i18n.ts:702-716 | a step leaves signalled runs with no re-raise to come, and does not re-raise itself, exactly when it ends the one run that was never signalled while the others are over, or is the late close of the last run that was not over |
| `SignalRelay.ReraiseCanBeLost` | scripts/control-ui-i18n.ts:674-681 | a run, event by event, in which a signal was relayed, nothing was re-raised, and no continuation without a new run will |
| `CatalogFlatten.FlatCatalog.FlattenControlUiCatalog` | scripts/control-ui-i18n-verify.ts:61-81 | the recursion that fills the shared map returns the specified map or the first error |
| `CatalogFlatten.FlattenSetsLeaves` | scripts/control-ui-i18n-verify.ts:70-79 | flattening succeeds exactly on trees of texts and objects, and then sets the leaves in order under their joined paths |
| `CatalogFlatten.LeavesAreClean` | scripts/control-ui-i18n-verify.ts:70-79 | with distinct, non-empty, dot-free keys no two leaves have the same path |
| `CatalogFlatten.NamedIsJoined` | scripts/control-ui-i18n-verify.ts:71 | the key built along the way down is the path joined by dots |
| `CatalogFlatten.SplitUndoesJoin` | scripts/control-ui-i18n-verify.ts:71 | splitting such a key at its dots gives the path back |
| `CatalogFlatten.SameNameIff` | scripts/control-ui-i18n-verify.ts:71 | two paths are written under the same key exactly when they have the same segments: the keys without leading empty ones, cut at every dot |
| `CatalogFlatten.FlattenKeepsLeavesIff` | scripts/control-ui-i18n-verify.ts:61-81 | flattening a tree keeps every leaf, in order and under a key of its own, exactly when no two leaves have the same segments |
| `CatalogFlatten.LastLeafWins` | scripts/control-ui-i18n-verify.ts:72-73 | whatever the keys, a key holds the text of the last leaf written under it, and no other key is there |
| `CatalogFlatten.FlattenReportsFirst` | scripts/control-ui-i18n-verify.ts:70-79 | flattening fails exactly when some leaf is neither text nor object, with the first such leaf's full key |
| `CatalogFlatten.FlattenNeverMerges` | scripts/control-ui-i18n-verify.ts:61-81 | with non-empty, dot-free keys the map holds exactly the leaves, in order, each under its joined path |
| `CatalogFlatten.UncleanKeysMerge` | scripts/control-ui-i18n-verify.ts:71-73 | inputs with a dotted and with an empty key that merge two leaves, and a dotted key that merges nothing |
| `CatalogAnalysis.CheckKeys` | scripts/control-ui-i18n-verify.ts:107-122 | the loop over the English keys collects the placeholder errors and the fallbacks |
| `CatalogAnalysis.AnalyzeLocale` | scripts/control-ui-i18n-verify.ts:95-122 | the errors of one locale, in order, and its fallbacks |
| `CatalogAnalysis.AnalyzeControlUiCatalogs` | scripts/control-ui-i18n-verify.ts:83-132 | the errors of all locales in order of their names, and the sorted fallback report, for any collation |
| `CatalogAnalysis.ErrorIsReportedIff` | scripts/control-ui-i18n-verify.ts:92-122 | an error is reported exactly when it applies: orphan keys, English order broken, or a shared key whose translation has another placeholder set |
| `CatalogAnalysis.OutOfOrderIff` | scripts/control-ui-i18n-verify.ts:101-105 | the order is broken exactly when two shared keys stand the other way round than in the English catalog |
| `CatalogAnalysis.LocaleErrorsAreOrdered` | scripts/control-ui-i18n-verify.ts:95-122 | of one locale, orphans come first, then the order, then the placeholder errors in English key order, none twice |
| `CatalogAnalysis.LocalesAreSorted` | scripts/control-ui-i18n-verify.ts:92-94 | the locales, each analysed once, come in strict order of their names |
| `CatalogAnalysis.ErrorsFollowLocales` | scripts/control-ui-i18n-verify.ts:92-94 | the errors are those of the locales one after the other |
| `CatalogAnalysis.FallbacksAreMissingKeys` | scripts/control-ui-i18n-verify.ts:107-114 | an English key is recorded exactly when some locale lacks it, with the names of those locales |
| `CatalogAnalysis.ReportedPairsAreMissingPairs` | scripts/control-ui-i18n-verify.ts:125-131 | a key and a locale are reported together exactly when the key is English and the locale lacks it |
| `CatalogAnalysis.ReportedKeysHaveLocales` | scripts/control-ui-i18n-verify.ts:125-131 | no key is reported without a locale |
| `CatalogAnalysis.ReportIsSorted` | scripts/control-ui-i18n-verify.ts:125-131 | keys stand in strict order, each with its locales sorted |
| `CatalogAnalysis.CleanLocaleIff` | scripts/control-ui-i18n-verify.ts:95-122 | a locale has no errors and lacks no key exactly when it has the English key sequence with equal placeholder sets |
| `CatalogAnalysis.SortedLocalesAreTheSame` | scripts/control-ui-i18n-verify.ts:83-132 | the analysis reports nothing exactly when every locale is complete in that sense, in whatever order the locales are listed |
| `AppleCatalog.CollectIds` | scripts/apple-app-i18n.ts:619-624 | the map holds, for every source, the ids of the included entries written with it |
| `AppleCatalog.CollectCandidates` | scripts/apple-app-i18n.ts:628-641 | of one artifact, exactly the entries with a known source and one of its ids contribute, in order |
| `AppleCatalog.CollectTranslations` | scripts/apple-app-i18n.ts:626-644 | the candidates of every source in every locale; of several artifacts for a locale the last counts |
| `AppleCatalog.CandidatesAre` | scripts/apple-app-i18n.ts:628-641 | a text is a candidate as often as an entry of the locale says it, for this source, under the id of an included inventory entry with this source |
| `AppleCatalog.EntriesAreTheLast` | scripts/apple-app-i18n.ts:626-644 | the entries of a locale are those of its last artifact |
| `AppleCatalog.BuildUnit` | scripts/apple-app-i18n.ts:652-677 | the unit of one locale and the contradiction it reports |
| `AppleCatalog.BuildLocalizations` | scripts/apple-app-i18n.ts:649-679 | the units of all locales and their contradictions, in order |
| `AppleCatalog.BuildAppleCatalog` | scripts/apple-app-i18n.ts:606-693 | the nested loops over maps and records return the specified catalog and contradictions |
| `AppleCatalog.EverySourceHasEveryLocale` | scripts/apple-app-i18n.ts:648-680 | the catalog has exactly the inventory's sources, each with exactly the required locales |
| `AppleCatalog.ShippedValuesAreKept` | scripts/apple-app-i18n.ts:657-677 | a shipped non-empty translation is never changed; otherwise English is the source, and any other locale gets the best candidate, marked new exactly when it is the source |
| `AppleCatalog.ContradictionsAre` | scripts/apple-app-i18n.ts:652-656 | a contradiction is reported exactly when its source is in the inventory, its locale required, and its translations are two or more: all candidates there, each once, in code-unit order |
| `AppleCatalog.ContradictionsAreOrdered` | scripts/apple-app-i18n.ts:688-691 | contradictions stand in strict order of source and then locale, so each pair has at most one |
| `AppleCatalog.UnitIsStable` | scripts/apple-app-i18n.ts:657-677 | a unit found again is written the same way, whether it was kept, English, new or translated |
| `AppleCatalog.BuildIsAFixedPoint` | scripts/apple-app-i18n.ts:606-693 | building again from the produced catalog gives the same catalog and the same contradictions |
| `AppleCatalog.CatalogFiles.SyncIosCatalog` | scripts/apple-app-i18n.ts:888-913 | writes the stale files, or without permission to write names the first stale one; a check fails exactly when a write would change a file |
| `AppleCatalog.CheckPassesAfterSync` | scripts/apple-app-i18n.ts:888-913 | a check right after a write passes with the same build and leaves the files alone |
| `AppleCatalog.CheckFailsIffWriteChanges` | scripts/apple-app-i18n.ts:888-913 | a check changes no file and fails exactly when a write would, naming the catalog exactly when the write would change that |

## Left out

- Files, subprocesses, real timers, the network, logging and command lines: their answers are parameters or events, and nothing else of them is modelled.
- Windows: process groups are POSIX groups; `taskkill` and the Windows signal list are not modelled.
- Concurrency inside one step: when the parent receives a signal, the handlers of the live runs are separate steps in any order and interleaving, which allows more runs than the event loop does; a child's data event may follow its close.
- ProcessSupervisor.ReraiseIsSafe: "SIGKILL sent" means that the attempt was made; a refused delivery counts too, because the script goes on either way.
- SignalRelay.RelayEndsInReraise: is about continuations without a new run; that a pending signal is re-raised in every run is not claimed, because it can fail (`ReraiseCanBeLost`). After a re-raise the process normally ends, which the model does not express.
- ProcessSupervisor.Supervisor: the mutable locals each run captures are records in one sequence; the identity of the state objects in the shared set is an index.
- OutputLines.ChunkingDoesNotMatter: chunks are decoded text, as in `ProcessSupervisor`; the scripts decode each chunk of bytes on its own, so a cut inside a multi-byte character damages it before these algorithms see it.
- RestartProbe.WaitForRestartProbe: does not model the pushes to the shared `events` list; they are the transitions with the times counted from the start of the sample.
- BenchGate.GatePassesIff: is about summaries computed from the samples themselves, with the slope recorded when the sample was taken, as the script does; the summary's time statistics and the other resource slopes play no part in the gate.
- TranslateBatch.TranslateBatch: an attempt for which no client could be obtained counts as one, so the number of prompts is at most the number of attempts; a client that cannot be reset is not modelled, and delays, labels and the prompt's wording (with the previous validation error in it) are left out.
- TranslateBatch.ParseTranslationBatchReply: takes the parsed reply; the code fence around it and JSON parsing are left out, and the wording of a validation error is an arbitrary function.
- TranslateBatch.EveryProvider: lower-casing an error message is modelled for ASCII letters only.
- AppleCatalog.BuildAppleCatalog: which entries belong to the platform and how a text is written in a catalog (`appleCatalogValue`) are arbitrary functions; regular expressions over Swift and XML are left out.
- AppleCatalog.EverySourceHasEveryLocale: the order of the keys in the produced catalog object is not modelled; a catalog is a map.
- AppleCatalog.CheckPassesAfterSync: assumes that a serialized catalog is parsed back as the same catalog.
- Placeholders.ComparingExtractsComparesSets: sorts the names by code units where the script uses `localeCompare`; `Sorting.SortIsCanonical` gives the same law for any order that is total on the names.
- BenchStats.StatisticsAreOrdered: numbers are reals; rounding, infinities and NaN are left out.
- JavaScript objects: integer-like keys are not moved to the front, and inherited property names are not modelled; `CatalogFlatten` takes the entries in the order `Object.entries` lists them.
- Lone surrogates: strings hold scalar values, so ill-formed UTF-16 does not occur; `ProcessSupervisor` counts output in scalar values, while `BoundedCapture` holds for code units too.
- GeneratedResources.RetainedIff: is about resources that an earlier run wrote for this source and value; keys are taken to be injective, and a base resource that is missing counts as no checked-in translation.
- AndroidRender.ResourcePreservesMeaningIff: is about the script's decoder; the decoder of the Android platform is not part of this model.
- `selectInfoPlistTranslation`, `syncMacosCatalog`, `waitForProbeReady`, and the startup and CLI benchmarks: they are close to what is modelled here.
- The fixed pattern lists for UI literals, Swift wrappers and imports, the import-cycle analysis, and everything that only reads or prints.
