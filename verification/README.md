# iai measurement core, modelled in Dafny

iai is a Rust benchmarking harness that counts instructions and cache events
instead of timing. A benchmark binary runs in one of two roles. As the
orchestrator, it re-invokes itself under cachegrind, once with child index
`-1` (an empty calibration run) and once per registered benchmark. As the
child, it is started with `--iai-run <index>` and calls that one benchmark
body. After each child run, the orchestrator does the following:

- It parses cachegrind's report, using the last `events:` and `summary:`
  lines.
- It subtracts the calibration counters, saturating at zero.
- It derives the L1/LL/RAM summary and an estimated cycle count.
- It compares the result against the previous run, whose report was
  rotated to a `.old` file before the new run.

The model covers the following:

- `limits.dfy` (module `Limits`): the bounds of `u64` and `isize` on a
  64-bit target.
- `results.dfy` (module `Results`): `Option` and `Result`.
- `counters.dfy` (module `Counters`):
  - the nine counters of a cachegrind record (`Stats`);
  - saturating calibration subtraction;
  - the summary (`Summarize`), with the conditions under which its
    unsigned arithmetic does not underflow or overflow;
  - the weighted cycle estimate.
- `text.dfy` (module `Text`):
  - Rust's `char::is_whitespace`, `str::trim` and `str::split_whitespace`;
  - `u64` and `isize` parsing from decimal text.
- `report.dfy` (module `ReportParser`): `parse_cachegrind_output` as a
  function from the report's lines to `Result<Stats, ParseError>`, with one
  error per panic of the source. It also gives a renderer of well-formed
  reports and the round trip between the two.
- `dispatch.dfy` (module `SelfInvocation`):
  - how `runner` reads its arguments (orchestrator, calibration child or
    benchmark child);
  - the child's argument list, and the round trip from the orchestrator's
    encoding to the child's decoding.
- `regression.dfy` (module `Regression`):
  - report rotation to `.old`;
  - `run_bench`;
  - the pairing of old counters with the old calibration;
  - the orchestrator loop;
  - the outcome ("No change" or a change) of `percentage_diff`, with the
    comparison of the five displayed metrics.

The model uses exact integers. Rust's `u64` is the subset type
`Counters.uint64`. The source's fixed-width arithmetic can overflow in two
places: the summary and the cycle estimate. `Summarize` and `Cycles` take the
conditions under which neither overflows as preconditions (`SummaryDefined`,
`CyclesDefined`). `SummarizeChecked` gives the checked arithmetic of a build
with overflow checks on, where the overflow panics.

`cargo bench` builds with the bench profile. That profile inherits the release
profile, where overflow checks are off, so a default benchmark run wraps and
prints the wrapped numbers. The orchestrator loop instead models a build with
overflow checks on, such as a debug build. Each benchmark's normalised record,
and its old record when there is one, is summarised and given a cycle
estimate:

- in JSON output, while the record is printed (src/lib.rs:256);
- in text output, right after the Instructions line is printed
  (src/lib.rs:421-459).

When that arithmetic would overflow, the loop stops with the error
`Unreportable(name)`, and no later benchmark runs. In text output the panic
comes after the benchmark's name and Instructions line have been printed;
printed output is not modelled.

The files on disk are a map from `ReportPath` to the file's lines. There are
two kinds of path, `Current(name)` and `Previous(name)`. Two kinds of input
become parameters:

- the outcome of each cachegrind child process, given as
  `child: int -> ChildOutcome`, keyed by child index;
- whether cachegrind is installed, given as a `bool`.

## Model

| member | source | states |
|---|---|---|
| Counters.SaturatingSub | src/lib.rs:294 | `saturating_sub` never exceeds its minuend, and it is exact whenever its result is positive |
| Counters.SubtractFieldwise | src/lib.rs:292-304 | each of the nine counters is its own field minus the calibration's, or 0 when the calibration is larger |
| Counters.SubtractZeroIsIdentity | src/lib.rs:292-304 | subtracting an all-zero calibration changes nothing |
| Counters.SubtractSelfIsZero | src/lib.rs:292-304 | a record minus itself is all zeros |
| Counters.SubtractBounds | src/lib.rs:292-304 | every normalised counter is at most the raw one, and a calibration at least as large in every field yields all zeros |
| Counters.EventNamesDistinct | src/lib.rs:215-223 | the nine event names looked up are pairwise distinct, so each field has its own name |
| Counters.Summarize | src/lib.rs:275-289 | RAM hits are the three last-level misses; L3 hits plus RAM hits are the three L1 misses; the three tiers add up to all references |
| Counters.SummarizeChecked | src/lib.rs:275-289 | with checked `u64` arithmetic, the summary exists exactly when RAM misses ≤ L1 misses ≤ references < 2^64, and then it equals `Summarize` |
| Counters.SubtractBreaksSummaryDefined | src/lib.rs:363-367 | two records that can each be summarised can have a saturated difference that cannot be, so summarising normalised counters can underflow |
| Counters.Cycles | src/lib.rs:314-317 | the estimate lies between 1× and 35× the total number of accesses |
| Counters.CyclesMonotone | src/lib.rs:314-317 | more hits in any tier never lower the estimate; one more L1, L3 or RAM hit costs exactly 1, 5 or 35 cycles |
| Counters.CyclesOfStats | src/lib.rs:272-317 | from the raw counters, cycles = references + 4 × L1 misses + 30 × last-level misses |
| Counters.WorkedExample | src/lib.rs:272-317 | a concrete record with its summary (1755, 41, 4) and its 2100 cycles |
| Text.TrimStart | src/lib.rs:197 | the result is a suffix, everything removed is whitespace, and the result does not start with whitespace |
| Text.TrimEnd | src/lib.rs:197 | the result is a prefix, everything removed is whitespace, and the result does not end with whitespace |
| Text.Trim | src/lib.rs:197-200 | the result is a slice of the line with only whitespace before and after it, and the result neither starts nor ends with whitespace |
| Text.SplitWhitespace | src/lib.rs:206-208 | every piece is a non-empty token without whitespace |
| Text.SplitWhitespaceScans | src/lib.rs:206-208 | the recursive split agrees with a left-to-right scan that collects characters into a word and closes the word at each whitespace character |
| Text.SplitWhitespaceKeepsCharacters | src/lib.rs:206-208 | concatenating the pieces gives exactly the input's non-whitespace characters, in order |
| Text.SplitJoinSpace | src/lib.rs:206-208 | splitting tokens joined by single spaces returns those tokens |
| Text.SplitWhitespaceIgnoresTrim | src/lib.rs:197-208 | trimming a header line before splitting it changes no token |
| Text.ParseU64 | src/lib.rs:209 | an accepted token is a `+` or a digit followed by digits only, and its value fits in 64 bits |
| Text.ParseU64Meaning | src/lib.rs:209 | a token is accepted exactly when, after one optional leading `+`, it is a non-empty run of digits whose value is below 2^64, and the result is that value |
| Text.ParseU64RejectsOverflow | src/lib.rs:209-210 | the decimal text of any number of at least 2^64 is rejected, with or without a leading `+` |
| Text.ParseU64LeadingZeros | src/lib.rs:209 | leading zeros are accepted and ignored, with or without a leading `+` (so "007" reads as 7 and "+0" as 0) |
| Text.DecimalRoundTrip | src/lib.rs:209 | the decimal text of a number reads back as that number |
| Text.CanonicalDecimal | src/lib.rs:209 | a digit string without a leading zero is the decimal text of its value |
| Text.ParseU64RoundTrip | src/lib.rs:209 | `u64` parsing accepts the decimal text of every `u64`, with or without a leading `+` |
| Text.ParseU64RejectsNonDigit | src/lib.rs:209-210 | a token with a character that is not a digit, other than a leading `+`, is rejected |
| Text.ParseIsize | src/lib.rs:329 | a parsed `isize` is in range and its text is an optional sign followed by digits, with `-` for negatives |
| Text.ParseIsizeRoundTrip | src/lib.rs:329 | the `to_string` of every `isize` parses back to itself |
| Text.ParseIsizeMeaning | src/lib.rs:329 | a token is accepted exactly when, after one optional `+` or `-`, it is a non-empty run of digits whose signed value lies in the `isize` range, and the result is that signed value |
| Text.ParseIsizeRejectsOutOfRange | src/lib.rs:329 | the decimal text of any integer outside the `isize` range is rejected |
| Text.ParseIsizeLeadingZeros | src/lib.rs:329 | leading zeros are accepted and ignored after no sign, `+` or `-` (so "-0" reads as 0) |
| ReportParser.LastWithPrefix | src/lib.rs:194-202 | absent exactly when no line has the prefix; otherwise the trimmed rest of the last such line |
| ReportParser.ScanReport | src/lib.rs:194-202 | the line loop leaves the last `events:` and the last `summary:` line, trimmed |
| ReportParser.Collect | src/lib.rs:206-212 | the collection fails exactly when some paired summary token is not a `u64`, and the error names such a token |
| ReportParser.CollectReportsFirstInvalid | src/lib.rs:208-211 | the token reported is the first unparsable one among those paired with a name; tokens beyond the shorter list are never parsed |
| ReportParser.CollectKeys | src/lib.rs:206-212 | the map's keys are exactly the names that have a paired token |
| ReportParser.CollectLastWins | src/lib.rs:206-212 | a name that occurs twice keeps the value paired with its last occurrence |
| ReportParser.LookupStats | src/lib.rs:214-224 | succeeds exactly when all nine names are present, then each field holds its name's value; otherwise it names a missing one |
| ReportParser.ParseReport | src/lib.rs:204-226 | the "unable to parse" error occurs exactly when the events line or the summary line is missing |
| ReportParser.ParsePairs | src/lib.rs:205-224 | the pairing fails on an unparsable token exactly when some paired summary token is not a `u64`, and the token it names is not a `u64`; a missing event is one of the nine names, and no paired name equals it |
| ReportParser.ParsePairsSucceedsIff | src/lib.rs:205-224 | with both lines present, parsing succeeds exactly when every paired token is a `u64` and all nine names have a token |
| ReportParser.ParsePairsTakesLastPair | src/lib.rs:206-224 | each field holds the token paired with the last occurrence of its name |
| ReportParser.ParseReportUsesLastLines | src/lib.rs:194-212 | only the last events line and the last summary line matter, split on whitespace |
| ReportParser.ParseReportNeedsBothLines | src/lib.rs:204-226 | a report with no summary line, or with no events line, is rejected |
| ReportParser.ParseReportRoundTrip | src/lib.rs:188-228 | a report that lists the nine events in any order, with their decimal counts, parses back to the record whatever lines precede it and whatever lines without an `events:` or `summary:` prefix lie between the two header lines |
| ReportParser.ParseReportIgnoresOrder | src/lib.rs:206-224 | the order of the event columns does not affect the parsed record |
| SelfInvocation.AsUsize | src/lib.rs:337 | `isize as usize` keeps non-negative values and wraps negative ones above `isize::MAX` |
| SelfInvocation.Dispatch | src/lib.rs:322-342 | the argument list selects orchestrator mode (JSON exactly on `--json`), calibration on index -1, or the in-bounds benchmark. Each panic becomes an error, each in both directions: a missing index exactly when `--iai-run` is the last argument, an invalid index exactly when it does not parse as an `isize`, and out of bounds exactly when a parsed index other than -1 wraps to at least the number of benchmarks |
| SelfInvocation.ChildArgsRoundTrip | src/lib.rs:165-167 | the child decodes the index the orchestrator encodes: -1 calls nothing, and an in-range index calls that benchmark once |
| SelfInvocation.NegativeIndexOutOfBounds | src/lib.rs:329-339 | an index below -1 wraps and is always out of bounds |
| SelfInvocation.CalibrationArgs | src/lib.rs:353-354 | the calibration child's arguments select calibration mode |
| Regression.PercentageDiff | src/lib.rs:403-416 | as written: equal values and every decrease report "No change", and any increase from 0 reports a change |
| Regression.PercentageDiffMeaning | src/lib.rs:408-416 | as written, "No change" means equal values or a signed relative change below 0.0001 % |
| Regression.ThresholdOnIntegers | src/lib.rs:411-414 | the real-valued threshold tests on the percentage are the integer inequalities the model decides |
| Regression.PercentageDiffCorrected | src/lib.rs:414 | corrected: equal values report no change, and "No change" implies that the current value is strictly between 0.999999 and 1.000001 times the previous one |
| Regression.PercentageDiffCorrectedMeaning | src/lib.rs:414 | corrected: "No change" exactly when the values are equal or the magnitude of the relative change is below 0.0001 % |
| Regression.PercentageDiffCorrectedSymmetric | src/lib.rs:414 | corrected: an increase and a decrease of the same size get the same verdict |
| Regression.PercentageDiffHidesDecrease | src/lib.rs:414 | 100 → 50 is "No change" as written but a change when corrected, while 100 → 150 is a change either way |
| Regression.Metrics | src/lib.rs:272-317 | the five displayed metrics in terms of the raw counters: instruction reads, references minus L1 misses, L1 misses minus RAM misses, RAM misses, and references + 4 × L1 misses + 30 × RAM misses |
| Regression.ChangeMeaning | src/lib.rs:403-416 | as written, "No change" exactly when the two counts are equal or the signed relative change is below 0.0001 %; corrected, exactly when they are equal or its magnitude is below 0.0001 % |
| Regression.CompareRuns | src/lib.rs:414-466 | as written: each of the five metrics shows "No change" exactly when its values are equal or its signed relative change is below 0.0001 %, so a metric that did not grow is never flagged; identical records show no change |
| Regression.CompareRunsCorrected | src/lib.rs:414-466 | corrected: each metric shows "No change" exactly when its values are equal or the magnitude of its relative change is below 0.0001 %; identical records show no change |
| Regression.CompareRunsHidesImprovements | src/lib.rs:414-466 | as written, a run at most as expensive as the previous one on every metric shows no change on any |
| Regression.CompareRunsHidesHalvedInstructions | src/lib.rs:414-425 | halving the instruction count shows "No change" as written and a change when corrected |
| Regression.Rotate | src/lib.rs:142-145 | an existing current report is copied over `.old`; otherwise `.old` is left as it was; no other file changes |
| Regression.RotateIdempotent | src/lib.rs:142-145 | rotating twice in a row is the same as rotating once |
| Regression.RunBench | src/lib.rs:131-186 | a failed child aborts; on success the new counters are the child's report and the old counters exist exactly when a current or `.old` report existed before; the old counters come from the pre-run current report when there was one, else from `.old` |
| Regression.RunBenchSucceedsIff | src/lib.rs:169-183 | a run succeeds exactly when the child succeeds, its report parses, and the report that became `.old` (if any) parses; a bad new report is reported first |
| Regression.RunBenchLeavesOtherReports | src/lib.rs:138-145 | the run writes the current report, and no file of another benchmark changes |
| Regression.RerunPairsWithPreviousReport | src/lib.rs:142-183 | the second of two successful runs is paired with the first run's counters |
| Regression.Normalize | src/lib.rs:363-371 | new counters minus the new calibration; old counters minus the old calibration, present exactly when both the old report and the old calibration exist |
| Regression.RepeatRunShowsNoChange | src/lib.rs:363-371 | when the benchmark and the calibration both reproduce their previous reports, every metric shows no change |
| Regression.RunSteps | src/lib.rs:356-362 | a successful chain of `run_bench` calls has one run per remaining benchmark, each started in the store the previous one left |
| Regression.RunStepsUnique | src/lib.rs:356-362 | any such chain is exactly what the loop's steps produce |
| Regression.RunStepsSucceed | src/lib.rs:356-362 | when every step succeeds from any store satisfying an invariant it keeps, all the steps succeed |
| Regression.RunBenchmarks | src/lib.rs:356-371 | on success there is one result per remaining benchmark, and each result can be summarised and given a cycle estimate (src/lib.rs:256, 429-459) |
| Regression.RunBenchmarksNormalizesRuns | src/lib.rs:356-371 | on success, the j-th result is the j-th step's run normalised by the calibration pair, and the final store is the one the last run left |
| Regression.RunBenchmarksSucceedsIff | src/lib.rs:356-371 | the loop succeeds exactly when every step succeeds and every normalised result can be summarised and given a cycle estimate |
| Regression.RunBenchmarksFailsAtStep | src/lib.rs:356-362 | every failure other than an unreportable result is the failure of the first failing `run_bench` |
| Regression.RunBenchmarksNames | src/lib.rs:356-371 | the loop yields one result per benchmark, in registration order |
| Regression.RunBenchmarksWithoutOldCalibration | src/lib.rs:365-370 | without an old calibration report, no benchmark shows old counters |
| Regression.RunBenchKeepsReportsParsable | src/lib.rs:131-186 | when every stored report parses and the child succeeds with a parsable report, the run succeeds and every stored report still parses |
| Regression.Orchestrate | src/lib.rs:344-371 | without cachegrind nothing runs and no file changes; a failed calibration child aborts; on success there is one result per benchmark in order, and each can be summarised and given a cycle estimate |
| Regression.OrchestrateRuns | src/lib.rs:353-362 | a successful orchestration ran the calibration child first and then one `run_bench` per benchmark, each in the store the previous run left, and its results are those runs normalised by the calibration |
| Regression.OrchestrateNormalizes | src/lib.rs:353-367 | the j-th result is named after benchmark j and holds child j's parsed counters minus the calibration child's, saturating at zero |
| Regression.OrchestrateOldStats | src/lib.rs:363-371 | the j-th result has old counters exactly when benchmark j's run and the calibration run both found an old report, and then they are the old counters minus the old calibration |
| Regression.OrchestrateFailsOnlyOnUnreportable | src/lib.rs:344-371 | when the stored reports parse and every child succeeds with a parsable report, the orchestrator either succeeds or stops at an unreportable result |
| Regression.Runner | src/lib.rs:322-356 | a child run calls at most one benchmark body, which is in range; orchestrator output is JSON exactly on `--json` |
| Regression.RunnerRunsChildArgs | src/lib.rs:326-340 | started with the arguments the orchestrator builds for index i, the runner calls nothing for -1 and exactly benchmark i otherwise |
| Regression.RunnerOrchestrates | src/lib.rs:342-356 | without `--iai-run`, the runner is the orchestrator, with JSON output exactly on `--json` |
| Regression.RunnerWithoutBenchmarks | src/lib.rs:329-339 | with no benchmarks registered, every parsed index other than -1 is out of bounds |

## Left out

- Process plumbing is not modelled. This covers starting valgrind, `setarch`
  to turn ASLR off, `uname` for the architecture, the `CACHEGRIND_FLAGS` and
  `IAI_ALLOW_ASLR` environment variables, the cache-size flags and
  `create_dir_all`. Each child's outcome is an input, and so is whether
  cachegrind is installed.
- Time is not modelled: the clock calibration and the microsecond
  estimate next to the cycles.
- All printed output is left out: the human-readable lines, the JSON
  events and `signed_short`'s number formatting. The model keeps only
  *whether* `percentage_diff` reports a change.
- `black_box`, the `macros` module and the `iai` attribute macro are left
  out: they hand code to the compiler and compute nothing measured here.
- The report store has no textual paths. `cachegrind.out.<name>` and
  `cachegrind.out.<name>.old` are two distinct abstract paths, so a
  benchmark whose name ends in `.old` cannot collide with another
  benchmark's old report.
- Failing to open a file, reading a line that is not UTF-8, and non-UTF-8
  arguments are left out. Reports and arguments are sequences of
  characters.
- The files left behind after a run that aborts are not modelled. The
  source panics there and the process ends, so only successful runs carry
  a final store.
- Counters.Summarize: requires `SummaryDefined`. In a release build the
  source's subtraction would wrap instead. `SummarizeChecked` gives the
  debug-build behaviour, which is a panic, as `None`.
- Counters.Cycles: requires `CyclesDefined`. The wrap-around of the
  weighted sum in a release build is not modelled.
- Regression.PercentageDiff: the model decides the outcome on exact
  integers. The source converts to `f64`, so rounding for counters above
  2^53 and rounding of the quotient are not modelled.
- The wrap-around in the summary and the cycle estimate is left out. This
  is what a default `cargo bench` run does, because the bench profile
  inherits the release profile's disabled overflow checks. The model
  follows a build with overflow checks on, where the overflow panics, and
  reports it as `Unreportable`.
- Regression.RunBenchmarks: the loop takes its `run_bench` step as a
  parameter (`BenchStep`). `Orchestrate` passes `CachegrindStep`, so the
  loop's lemmas hold for any step.
- Rotation follows the code, not the intended design. When no current
  report exists, `.old` is left untouched, and a stale `.old` from an
  earlier run is still paired.

## Findings

| source | as written | input that shows it | evidently intended | confidence | as-written member | corrected member |
|---|---|---|---|---|---|---|
| src/lib.rs:414 | `if pct < 0.0001` reports "No change" for every negative `pct` | new = 50, old = 100: `pct` = -50, so the output is " (No change)" | `pct.abs() < 0.0001`, so that only changes below 0.0001 % in magnitude are hidden | medium, not executed | Regression.PercentageDiff and Regression.CompareRuns (shown by Regression.PercentageDiffHidesDecrease and Regression.CompareRunsHidesHalvedInstructions) | Regression.PercentageDiffCorrected and Regression.CompareRunsCorrected |

The orchestrator's comparison is `Regression.CompareRuns`, which follows the
code as written. `Regression.CompareRunsCorrected` is the intended comparison.
Both are proved to agree on unchanged repeat runs (`Regression.RepeatRunShowsNoChange`).
