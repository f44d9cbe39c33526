/** Comparison against the previous run: rotation of each benchmark's report
    to `.old`, the pairing of old reports with the old calibration, the
    orchestrator loop of `runner`, and the outcome of `percentage_diff`. */
module Regression {
  import opened Results
  import opened Limits
  import opened Counters
  import opened ReportParser
  import opened SelfInvocation
  import opened Text

  // ---------------------------------------------------------------------------
  // Percentage difference

  /** What `percentage_diff` reports, without its numeric text. */
  datatype Change = NoChange | Changed

  /** The relative change in percent, computed exactly. */
  function PercentChange(current: int, previous: int): real
    requires previous > 0
  {
    (current as real - previous as real) / (previous as real) * 100.0
  }

  /** `percentage_diff` as written: equal values report no change, and so
      does any `pct < 0.0001`, which includes every decrease. With a zero
      previous value and a larger current one, `pct` is +infinity. The
      threshold test is decided on integers (see `PercentageDiffMeaning`). */
  function PercentageDiff(current: uint64, previous: uint64): (c: Change)
    ensures current <= previous ==> c == NoChange
    ensures previous == 0 && current > 0 ==> c == Changed
  {
    if current == previous then NoChange
    else if previous == 0 then Changed
    else if (current - previous) * 1_000_000 < previous then NoChange
    else Changed
  }

  /** `percentage_diff` as evidently intended: no change only when the
      MAGNITUDE of the relative change is below 0.0001 percent. */
  function PercentageDiffCorrected(current: uint64, previous: uint64): (c: Change)
    ensures current == previous ==> c == NoChange
    ensures c == NoChange ==> current == previous || current * 1_000_000 > previous * 999_999
    ensures c == NoChange ==> current == previous || current * 1_000_000 < previous * 1_000_001
    ensures previous == 0 && current > 0 ==> c == Changed
  {
    if current == previous then NoChange
    else if previous == 0 then Changed
    else
      var distance := if current >= previous then current - previous else previous - current;
      if distance * 1_000_000 < previous then NoChange else Changed
  }

  lemma ScaleByPositive(a: real, b: real, o: real)
    requires o > 0.0
    ensures a < b <==> a * o < b * o
  {
  }

  lemma PercentBelow(d: real, o: real)
    requires o > 0.0
    ensures d / o * 100.0 < 0.0001 <==> d * 1_000_000.0 < o
  {
    var q := d / o;
    assert q * o == d;
    ScaleByPositive(q, 0.000001, o);
    assert q * 100.0 < 0.0001 <==> q < 0.000001;
    ScaleByPositive(d, 0.000001 * o, 1_000_000.0);
  }

  lemma PercentAbove(d: real, o: real)
    requires o > 0.0
    ensures -0.0001 < d / o * 100.0 <==> -d * 1_000_000.0 < o
  {
    var q := d / o;
    assert q * o == d;
    ScaleByPositive(-0.000001, q, o);
    assert -0.0001 < q * 100.0 <==> -0.000001 < q;
    ScaleByPositive(-0.000001 * o, d, 1_000_000.0);
  }

  /** The integer tests above are the real-valued threshold tests. */
  lemma ThresholdOnIntegers(current: int, previous: int)
    requires previous > 0
    ensures PercentChange(current, previous) < 0.0001 <==> (current - previous) * 1_000_000 < previous
    ensures -0.0001 < PercentChange(current, previous) <==> (previous - current) * 1_000_000 < previous
  {
    var d, o := (current - previous) as real, previous as real;
    assert PercentChange(current, previous) == d / o * 100.0;
    PercentBelow(d, o);
    PercentAbove(d, o);
  }

  /** As written, no change is reported exactly for equal values or a
      relative change below 0.0001 percent, negative changes included. */
  lemma PercentageDiffMeaning(current: uint64, previous: uint64)
    requires previous > 0
    ensures PercentageDiff(current, previous) == NoChange
            <==> current == previous || PercentChange(current, previous) < 0.0001
  {
    ThresholdOnIntegers(current, previous);
  }

  /** As intended, no change is reported exactly for equal values or a
      relative change of magnitude below 0.0001 percent. */
  lemma PercentageDiffCorrectedMeaning(current: uint64, previous: uint64)
    requires previous > 0
    ensures PercentageDiffCorrected(current, previous) == NoChange
            <==> current == previous || -0.0001 < PercentChange(current, previous) < 0.0001
  {
    ThresholdOnIntegers(current, previous);
  }

  /** The corrected diff treats a rise and a fall of the same size alike. */
  lemma PercentageDiffCorrectedSymmetric(previous: uint64, distance: nat)
    requires distance <= previous && previous + distance < U64_LIMIT
    ensures PercentageDiffCorrected(previous + distance, previous)
            == PercentageDiffCorrected(previous - distance, previous)
  {
  }

  /** The discrepancy: halving a counter is reported as "No change" by the
      code as written, and as a change by the corrected diff. */
  lemma PercentageDiffHidesDecrease()
    ensures PercentageDiff(50, 100) == NoChange
    ensures PercentageDiffCorrected(50, 100) == Changed
    ensures PercentageDiff(150, 100) == Changed
  {
  }

  // ---------------------------------------------------------------------------
  // Comparison of two normalised runs

  /** The verdicts printed beside the five human-readable metrics. */
  datatype Comparison = Comparison(
    instructions: Change,
    l1Accesses: Change,
    l2Accesses: Change,
    ramAccesses: Change,
    cycles: Change)

  const Unchanged: Comparison := Comparison(NoChange, NoChange, NoChange, NoChange, NoChange)

  /** Records whose summary and cycle estimate are defined. */
  predicate Reportable(s: Stats) {
    SummaryDefined(s) && CyclesDefined(Summarize(s))
  }

  /** The five displayed metrics, in display order: instructions, L1
      accesses, L2 accesses, RAM accesses and estimated cycles, each given
      here in terms of the raw counters. */
  function Metrics(s: Stats): (ms: seq<uint64>)
    requires Reportable(s)
    ensures |ms| == 5
    ensures ms[0] == s.instructionReads
    ensures ms[1] == ReferenceCount(s) - L1MissCount(s)
    ensures ms[2] == L1MissCount(s) - RamAccessCount(s)
    ensures ms[3] == RamAccessCount(s)
    ensures ms[4] == ReferenceCount(s) + 4 * L1MissCount(s) + 30 * RamAccessCount(s)
  {
    var m := Summarize(s);
    [s.instructionReads, m.l1Hits, m.l3Hits, m.ramHits, Cycles(m)]
  }

  /** The verdicts of a comparison, in display order. */
  function Verdicts(c: Comparison): seq<Change> {
    [c.instructions, c.l1Accesses, c.l2Accesses, c.ramAccesses, c.cycles]
  }

  /** What "No change" means as written: equal values, or a signed relative
      change below 0.0001 percent. */
  predicate BelowThresholdAsWritten(current: int, previous: int) {
    current == previous || (previous > 0 && PercentChange(current, previous) < 0.0001)
  }

  /** What "No change" evidently should mean: equal values, or a relative
      change of magnitude below 0.0001 percent. */
  predicate BelowThreshold(current: int, previous: int) {
    current == previous || (previous > 0 && -0.0001 < PercentChange(current, previous) < 0.0001)
  }

  /** Both diffs against their real-valued meaning, zero previous values
      included. */
  lemma ChangeMeaning(current: uint64, previous: uint64)
    ensures PercentageDiff(current, previous) == NoChange <==> BelowThresholdAsWritten(current, previous)
    ensures PercentageDiffCorrected(current, previous) == NoChange <==> BelowThreshold(current, previous)
  {
    if previous > 0 {
      PercentageDiffMeaning(current, previous);
      PercentageDiffCorrectedMeaning(current, previous);
    }
  }

  /** `ChangeMeaning` for the as-written diff, lifted to five metrics. */
  lemma VerdictsMeaning(a: seq<uint64>, b: seq<uint64>, v: seq<Change>)
    requires |a| == |b| == |v| == 5
    requires forall k :: 0 <= k < 5 ==> v[k] == PercentageDiff(a[k], b[k])
    ensures forall k :: 0 <= k < 5 ==> (v[k] == NoChange <==> BelowThresholdAsWritten(a[k], b[k]))
    ensures forall k :: 0 <= k < 5 && a[k] <= b[k] ==> v[k] == NoChange
  {
    forall k | 0 <= k < 5
      ensures v[k] == NoChange <==> BelowThresholdAsWritten(a[k], b[k])
    {
      ChangeMeaning(a[k], b[k]);
    }
  }

  /** `ChangeMeaning` for the corrected diff, lifted to five metrics. */
  lemma CorrectedVerdictsMeaning(a: seq<uint64>, b: seq<uint64>, v: seq<Change>)
    requires |a| == |b| == |v| == 5
    requires forall k :: 0 <= k < 5 ==> v[k] == PercentageDiffCorrected(a[k], b[k])
    ensures forall k :: 0 <= k < 5 ==> (v[k] == NoChange <==> BelowThreshold(a[k], b[k]))
  {
    forall k | 0 <= k < 5
      ensures v[k] == NoChange <==> BelowThreshold(a[k], b[k])
    {
      ChangeMeaning(a[k], b[k]);
    }
  }

  /** The comparison showing the given verdicts, in display order. */
  function FromVerdicts(v: seq<Change>): (c: Comparison)
    requires |v| == 5
    ensures Verdicts(c) == v
  {
    Comparison(v[0], v[1], v[2], v[3], v[4])
  }

  /** The five diffs of the human-readable report, as written: each metric
      reports "No change" exactly when it is equal or its signed relative
      change is below the threshold, so no decrease is ever shown. */
  function CompareRuns(current: Stats, previous: Stats): (c: Comparison)
    requires Reportable(current) && Reportable(previous)
    ensures forall k :: 0 <= k < 5 ==>
              (Verdicts(c)[k] == NoChange <==> BelowThresholdAsWritten(Metrics(current)[k], Metrics(previous)[k]))
    ensures forall k :: 0 <= k < 5 && Metrics(current)[k] <= Metrics(previous)[k] ==> Verdicts(c)[k] == NoChange
    ensures current == previous ==> c == Unchanged
  {
    var a, b := Metrics(current), Metrics(previous);
    var v := seq(5, k requires 0 <= k < 5 => PercentageDiff(a[k], b[k]));
    VerdictsMeaning(a, b, v);
    FromVerdicts(v)
  }

  /** The five diffs with the corrected threshold: each metric reports "No
      change" exactly when it is equal or its relative change, in either
      direction, is below the threshold. */
  function CompareRunsCorrected(current: Stats, previous: Stats): (c: Comparison)
    requires Reportable(current) && Reportable(previous)
    ensures forall k :: 0 <= k < 5 ==>
              (Verdicts(c)[k] == NoChange <==> BelowThreshold(Metrics(current)[k], Metrics(previous)[k]))
    ensures current == previous ==> c == Unchanged
  {
    var a, b := Metrics(current), Metrics(previous);
    var v := seq(5, k requires 0 <= k < 5 => PercentageDiffCorrected(a[k], b[k]));
    CorrectedVerdictsMeaning(a, b, v);
    FromVerdicts(v)
  }

  /** Whatever a run improves, the report as written does not show. */
  lemma CompareRunsHidesImprovements(current: Stats, previous: Stats)
    requires Reportable(current) && Reportable(previous)
    requires forall k :: 0 <= k < 5 ==> Metrics(current)[k] <= Metrics(previous)[k]
    ensures CompareRuns(current, previous) == Unchanged
  {
    var c := CompareRuns(current, previous);
    assert Verdicts(c) == Verdicts(Unchanged);
  }

  /** The discrepancy end to end: a benchmark whose instruction count halves
      is shown as "No change" by the report as written, and as a change by
      the corrected one. */
  lemma CompareRunsHidesHalvedInstructions(n: uint64)
    requires 0 < n && 2 * n < U64_LIMIT
    ensures var current, previous := Stats(n, 0, 0, 0, 0, 0, 0, 0, 0), Stats(2 * n, 0, 0, 0, 0, 0, 0, 0, 0);
            && Reportable(current) && Reportable(previous)
            && CompareRuns(current, previous) == Unchanged
            && CompareRunsCorrected(current, previous).instructions == Changed
  {
    var current, previous := Stats(n, 0, 0, 0, 0, 0, 0, 0, 0), Stats(2 * n, 0, 0, 0, 0, 0, 0, 0, 0);
    CompareRunsHidesImprovements(current, previous);
    ThresholdOnIntegers(n, 2 * n);
    assert Verdicts(CompareRunsCorrected(current, previous))[0] != NoChange;
  }

  // ---------------------------------------------------------------------------
  // Report files

  /** `target/iai/cachegrind.out.<name>` and its `.old` sibling. */
  datatype ReportPath = Current(name: string) | Previous(name: string)

  /** The report files on disk, by path, as their lines. */
  type ReportStore = map<ReportPath, seq<string>>

  /** Before a run, an existing current report is copied over `.old`;
      without one, `.old` is left as it is. No other file changes. */
  function Rotate(store: ReportStore, name: string): (r: ReportStore)
    ensures forall p :: p != Previous(name) ==> (p in r <==> p in store) && (p in r ==> r[p] == store[p])
    ensures Previous(name) in r <==> Current(name) in store || Previous(name) in store
    ensures Current(name) in store ==> r[Previous(name)] == store[Current(name)]
    ensures Current(name) !in store && Previous(name) in store ==> r[Previous(name)] == store[Previous(name)]
  {
    if Current(name) in store then store[Previous(name) := store[Current(name)]] else store
  }

  /** How a cachegrind child ended: with the report it wrote, or with a
      failing exit status and its captured standard error. */
  datatype ChildOutcome = Succeeded(report: seq<string>) | Failed(stderr: string)

  /** Each way the orchestrator aborts. */
  datatype RunError =
    | ChildFailed(benchmark: string, stderr: string)
    | ReportUnreadable(path: ReportPath, error: ParseError)
    | BadArguments(reason: DispatchError)
    | Unreportable(benchmark: string)  // a debug build overflows printing it

  /** What `run_bench` returns, with the files as they are afterwards. */
  datatype BenchRun = BenchRun(stats: Stats, oldStats: Option<Stats>, store: ReportStore)

  /** `parse_cachegrind_output` on one report file, its failure tagged with
      the file. */
  function ParseAt(store: ReportStore, path: ReportPath): (r: Result<Stats, RunError>)
    requires path in store
    ensures r.Ok? <==> ParseReport(store[path]).Ok?
    ensures r.Ok? ==> r.value == ParseReport(store[path]).value
  {
    match ParseReport(store[path])
    case Ok(s) => Ok(s)
    case Err(e) => Err(ReportUnreadable(path, e))
  }

  /** `run_bench`: rotate the report, run the child, parse the new report
      and, if an `.old` report exists, that one too. */
  function RunBench(store: ReportStore, name: string, outcome: ChildOutcome): (r: Result<BenchRun, RunError>)
    ensures outcome.Failed? ==> r == Err(ChildFailed(name, outcome.stderr))
    ensures r.Ok? ==> outcome.Succeeded? && ParseReport(outcome.report) == Ok(r.value.stats)
    ensures r.Ok? ==> (r.value.oldStats.Some? <==> Current(name) in store || Previous(name) in store)
    ensures r.Ok? && Current(name) in store ==>
              Ok(r.value.oldStats.value) == ParseReport(store[Current(name)])
    ensures r.Ok? && Current(name) !in store && Previous(name) in store ==>
              Ok(r.value.oldStats.value) == ParseReport(store[Previous(name)])
    ensures r.Ok? ==> r.value.store == Rotate(store, name)[Current(name) := outcome.report]
  {
    var rotated := Rotate(store, name);
    match outcome
    case Failed(stderr) => Err(ChildFailed(name, stderr))
    case Succeeded(report) =>
      var written := rotated[Current(name) := report];
      var stats :- ParseAt(written, Current(name));
      if Previous(name) in written then
        var oldStats :- ParseAt(written, Previous(name));
        Ok(BenchRun(stats, Some(oldStats), written))
      else
        Ok(BenchRun(stats, None, written))
  }

  /** A run writes the current report and rotates the old one; every other
      report file stays as it was. */
  lemma RunBenchLeavesOtherReports(store: ReportStore, name: string, outcome: ChildOutcome, p: ReportPath)
    requires p != Current(name) && p != Previous(name)
    ensures var r := RunBench(store, name, outcome);
            r.Ok? ==> (p in r.value.store <==> p in store) && (p in r.value.store ==> r.value.store[p] == store[p])
    ensures var r := RunBench(store, name, outcome);
            r.Ok? ==> Current(name) in r.value.store && r.value.store[Current(name)] == outcome.report
  {
  }

  /** Rotating twice in a row is rotating once: the second copy finds the
      `.old` report already equal to the current one. */
  lemma RotateIdempotent(store: ReportStore, name: string)
    ensures Rotate(Rotate(store, name), name) == Rotate(store, name)
  {
  }

  /** A run succeeds exactly when the child succeeds, its report parses and
      the report that became `.old`, if any, parses; a bad new report is
      reported before a bad old one. */
  lemma RunBenchSucceedsIff(store: ReportStore, name: string, outcome: ChildOutcome)
    ensures RunBench(store, name, outcome).Ok? <==>
              outcome.Succeeded? && ParseReport(outcome.report).Ok?
              && (Current(name) in store ==> ParseReport(store[Current(name)]).Ok?)
              && (Current(name) !in store && Previous(name) in store ==> ParseReport(store[Previous(name)]).Ok?)
    ensures outcome.Succeeded? && ParseReport(outcome.report).Err? ==>
              RunBench(store, name, outcome) == Err(ReportUnreadable(Current(name), ParseReport(outcome.report).error))
  {
    if outcome.Succeeded? {
      var written := Rotate(store, name)[Current(name) := outcome.report];
      assert written[Current(name)] == outcome.report;
      if Current(name) in store {
        assert written[Previous(name)] == store[Current(name)];
      } else if Previous(name) in store {
        assert written[Previous(name)] == store[Previous(name)];
      } else {
        assert Previous(name) !in written;
      }
    }
  }

  /** The second of two successful runs of a benchmark is paired with the
      first run's report. */
  lemma RerunPairsWithPreviousReport(store: ReportStore, name: string, first: seq<string>, second: seq<string>)
    ensures var r1 := RunBench(store, name, Succeeded(first));
            r1.Ok? && ParseReport(second).Ok? ==> var r2 := RunBench(r1.value.store, name, Succeeded(second));
                       r2.Ok? && r2.value.stats == ParseReport(second).value
                       && r2.value.oldStats == Some(ParseReport(first).value)
  {
    var r1 := RunBench(store, name, Succeeded(first));
    if r1.Ok? {
      assert r1.value.store[Current(name)] == first;
      RunBenchSucceedsIff(r1.value.store, name, Succeeded(second));
    }
  }

  /** Re-running a benchmark and the calibration with reports identical to
      the previous run's shows "No change" on every metric. */
  lemma RepeatRunShowsNoChange(cal: BenchRun, run: BenchRun, name: string)
    requires cal.oldStats == Some(cal.stats) && run.oldStats == Some(run.stats)
    requires Reportable(Subtract(run.stats, cal.stats))
    ensures var r := Normalize(name, run, cal.stats, cal.oldStats);
            && r.oldStats.Some?
            && CompareRuns(r.stats, r.oldStats.value) == Unchanged
            && CompareRunsCorrected(r.stats, r.oldStats.value) == Unchanged
  {
  }

  /** The statistics of one benchmark as reported, with the previous run's
      when there is one. */
  datatype BenchResult = BenchResult(name: string, stats: Stats, oldStats: Option<Stats>)

  /** The calibration subtraction of `runner`: the new counters lose the new
      baseline, the old counters the old baseline, and old counters are kept
      only when both the old report and the old calibration exist. */
  function Normalize(name: string, run: BenchRun, calibration: Stats, oldCalibration: Option<Stats>): (r: BenchResult)
    ensures r.name == name && r.stats == Subtract(run.stats, calibration)
    ensures r.oldStats.Some? <==> run.oldStats.Some? && oldCalibration.Some?
    ensures r.oldStats.Some? ==> r.oldStats.value == Subtract(run.oldStats.value, oldCalibration.value)
  {
    var oldStats :=
      match (run.oldStats, oldCalibration)
      case (Some(o), Some(c)) => Some(Subtract(o, c))
      case _ => None;
    BenchResult(name, Subtract(run.stats, calibration), oldStats)
  }

  /** The benchmark names of a list of results, in order. */
  function ResultNames(results: seq<BenchResult>): (r: seq<string>)
    ensures |r| == |results| && forall j :: 0 <= j < |results| ==> r[j] == results[j].name
  {
    seq(|results|, j requires 0 <= j < |results| => results[j].name)
  }

  /** No result carries old counters. */
  predicate NoOldStats(results: seq<BenchResult>)
  {
    forall j :: 0 <= j < |results| ==> results[j].oldStats.None?
  }

  /** One `run_bench` call inside the loop: benchmark name, its index, and
      the report files before the call. */
  type BenchStep = (string, int, ReportStore) -> Result<BenchRun, RunError>

  /** The step the orchestrator uses: the cachegrind child for index `i`
      ends as `child(i)`. */
  function CachegrindStep(child: int -> ChildOutcome): (step: BenchStep)
    ensures forall name, i, store :: step(name, i, store) == RunBench(store, name, child(i))
  {
    (name: string, i: int, store: ReportStore) => RunBench(store, name, child(i))
  }

  /** `runs` is what the steps return for `names[i..]`, each step starting
      from the files the previous one left. */
  predicate Chained(names: seq<string>, i: nat, store: ReportStore, step: BenchStep, runs: seq<BenchRun>)
    requires i <= |names|
  {
    && |runs| == |names| - i
    && (|runs| > 0 ==> step(names[i], i, store) == Ok(runs[0]))
    && forall j :: 0 < j < |runs| ==> step(names[i + j], i + j, runs[j - 1].store) == Ok(runs[j])
  }

  /** The raw runs of the loop, before normalisation: every step in order,
      the first failure aborting the rest. */
  function RunSteps(names: seq<string>, i: nat, store: ReportStore, step: BenchStep)
    : (r: Result<seq<BenchRun>, RunError>)
    requires i <= |names|
    ensures r.Ok? ==> Chained(names, i, store, step, r.value)
    decreases |names| - i
  {
    if i == |names| then Ok([])
    else
      match step(names[i], i, store)
      case Err(e) => Err(e)
      case Ok(run) =>
        match RunSteps(names, i + 1, run.store, step)
        case Err(e) => Err(e)
        case Ok(rest) =>
          var runs := [run] + rest;
          assert forall j :: 1 <= j < |runs| ==> runs[j] == rest[j - 1];
          Ok(runs)
  }

  /** The chain of runs is unique: whenever the steps can be chained over
      the remaining benchmarks, that chain is what the loop runs. */
  lemma {:induction false} RunStepsUnique(names: seq<string>, i: nat, store: ReportStore, step: BenchStep,
                                          runs: seq<BenchRun>)
    requires i <= |names|
    requires Chained(names, i, store, step, runs)
    ensures RunSteps(names, i, store, step) == Ok(runs)
    decreases |names| - i
  {
    if i < |names| {
      var rest := runs[1..];
      assert Chained(names, i + 1, runs[0].store, step, rest) by {
        forall j | 0 < j < |rest|
          ensures step(names[i + 1 + j], i + 1 + j, rest[j - 1].store) == Ok(rest[j])
        {
          assert rest[j] == runs[j + 1] && rest[j - 1] == runs[j];
        }
        if 0 < |rest| {
          assert step(names[i + 1], i + 1, runs[0].store) == Ok(runs[1]);
        }
      }
      RunStepsUnique(names, i + 1, runs[0].store, step, rest);
      assert runs == [runs[0]] + rest;
    }
  }

  /** Every step from index `i` on, started from files with property `inv`,
      succeeds and leaves files with property `inv`. */
  ghost predicate StepsKeep(names: seq<string>, i: nat, step: BenchStep, inv: ReportStore -> bool) {
    forall j, st :: i <= j < |names| && inv(st) ==>
      step(names[j], j, st).Ok? && inv(step(names[j], j, st).value.store)
  }

  /** The steps succeed over every remaining benchmark when some property of
      the files holds at the start and every step it holds before succeeds
      and keeps it. */
  lemma {:induction false} RunStepsSucceed(names: seq<string>, i: nat, store: ReportStore, step: BenchStep,
                                           inv: ReportStore -> bool)
    requires i <= |names|
    requires inv(store)
    requires StepsKeep(names, i, step, inv)
    ensures RunSteps(names, i, store, step).Ok?
    decreases |names| - i
  {
    if i < |names| {
      assert step(names[i], i, store).Ok? && inv(step(names[i], i, store).value.store);
      var run := step(names[i], i, store).value;
      RunStepsSucceed(names, i + 1, run.store, step, inv);
      var rest := RunSteps(names, i + 1, run.store, step);
      assert rest.Ok?;
      assert RunSteps(names, i, store, step) == Ok([run] + rest.value);
    }
  }

  /** A normalised result whose summary and cycle estimate can be printed:
      both output modes compute them for the new counters and, when present,
      the old ones, and a debug build panics on any overflow. */
  predicate ResultReportable(result: BenchResult) {
    Reportable(result.stats) && (result.oldStats.Some? ==> Reportable(result.oldStats.value))
  }

  /** The loop over the registered benchmarks from index `i` on, in
      registration order: each run is normalised by the calibration run and
      printed, and the first failure aborts the rest. */
  function RunBenchmarks(names: seq<string>, i: nat, store: ReportStore, step: BenchStep,
                         calibration: Stats, oldCalibration: Option<Stats>)
    : (r: Result<(seq<BenchResult>, ReportStore), RunError>)
    requires i <= |names|
    ensures r.Ok? ==> |r.value.0| == |names| - i
    ensures r.Ok? ==> forall j :: 0 <= j < |r.value.0| ==> ResultReportable(r.value.0[j])
    decreases |names| - i
  {
    if i == |names| then Ok(([], store))
    else
      match step(names[i], i, store)
      case Err(e) => Err(e)
      case Ok(run) =>
        var result := Normalize(names[i], run, calibration, oldCalibration);
        if !ResultReportable(result) then Err(Unreportable(names[i]))
        else
          match RunBenchmarks(names, i + 1, run.store, step, calibration, oldCalibration)
          case Err(e) => Err(e)
          case Ok((rest, store')) =>
            var results := [result] + rest;
            assert forall j :: 1 <= j < |results| ==> results[j] == rest[j - 1];
            Ok((results, store'))
  }

  /** `results` are `runs`, for the benchmarks from index `i` on, each
      normalised by the calibration run. */
  predicate NormalizedRuns(results: seq<BenchResult>, names: seq<string>, i: nat, runs: seq<BenchRun>,
                           calibration: Stats, oldCalibration: Option<Stats>)
    requires i + |runs| <= |names|
  {
    && |results| == |runs|
    && forall j :: 0 <= j < |runs| ==> results[j] == Normalize(names[i + j], runs[j], calibration, oldCalibration)
  }

  /** The loop's results are the raw runs normalised, and its files are
      those the last run left. */
  lemma RunBenchmarksNormalizesRuns(names: seq<string>, i: nat, store: ReportStore,
                                    step: BenchStep, calibration: Stats,
                                    oldCalibration: Option<Stats>)
    requires i <= |names|
    ensures var r := RunBenchmarks(names, i, store, step, calibration, oldCalibration);
            var runs := RunSteps(names, i, store, step);
            r.Ok? ==> && runs.Ok?
                      && NormalizedRuns(r.value.0, names, i, runs.value, calibration, oldCalibration)
                      && r.value.1 == (if |runs.value| == 0 then store else runs.value[|runs.value| - 1].store)
  {
    RunBenchmarksResults(names, i, store, step, calibration, oldCalibration);
    RunBenchmarksFinalStore(names, i, store, step, calibration, oldCalibration);
  }

  /** The results of a successful loop are its steps' runs, normalised. */
  lemma {:induction false} RunBenchmarksResults(names: seq<string>, i: nat, store: ReportStore,
                                                step: BenchStep, calibration: Stats,
                                                oldCalibration: Option<Stats>)
    requires i <= |names|
    ensures var r := RunBenchmarks(names, i, store, step, calibration, oldCalibration);
            var runs := RunSteps(names, i, store, step);
            r.Ok? ==> runs.Ok? && NormalizedRuns(r.value.0, names, i, runs.value, calibration, oldCalibration)
    decreases |names| - i
  {
    if i < |names| && RunBenchmarks(names, i, store, step, calibration, oldCalibration).Ok? {
      RunBenchmarksOkUnfold(names, i, store, step, calibration, oldCalibration);
      var run := step(names[i], i, store).value;
      RunBenchmarksResults(names, i + 1, run.store, step, calibration, oldCalibration);
      RunStepsOkFold(names, i, store, step);
      NormalizedRunsCons(Normalize(names[i], run, calibration, oldCalibration),
                         RunBenchmarks(names, i + 1, run.store, step, calibration, oldCalibration).value.0,
                         names, i, run, RunSteps(names, i + 1, run.store, step).value,
                         calibration, oldCalibration);
    }
  }

  /** A successful loop leaves the files its last step left. */
  lemma {:induction false} RunBenchmarksFinalStore(names: seq<string>, i: nat, store: ReportStore,
                                                   step: BenchStep, calibration: Stats,
                                                   oldCalibration: Option<Stats>)
    requires i <= |names|
    ensures var r := RunBenchmarks(names, i, store, step, calibration, oldCalibration);
            var runs := RunSteps(names, i, store, step);
            r.Ok? ==> runs.Ok? && r.value.1 == (if |runs.value| == 0 then store else runs.value[|runs.value| - 1].store)
    decreases |names| - i
  {
    if i < |names| && RunBenchmarks(names, i, store, step, calibration, oldCalibration).Ok? {
      RunBenchmarksOkUnfold(names, i, store, step, calibration, oldCalibration);
      var run := step(names[i], i, store).value;
      RunBenchmarksFinalStore(names, i + 1, run.store, step, calibration, oldCalibration);
      RunStepsOkFold(names, i, store, step);
      var restRuns := RunSteps(names, i + 1, run.store, step).value;
      var runs := [run] + restRuns;
      assert runs[|runs| - 1] == if |restRuns| == 0 then run else restRuns[|restRuns| - 1];
    }
  }

  /** One iteration of a successful loop: the step succeeded and the rest
      of the loop succeeded after it. */
  lemma RunBenchmarksOkUnfold(names: seq<string>, i: nat, store: ReportStore, step: BenchStep,
                              calibration: Stats, oldCalibration: Option<Stats>)
    requires i < |names|
    requires RunBenchmarks(names, i, store, step, calibration, oldCalibration).Ok?
    ensures step(names[i], i, store).Ok?
    ensures var run := step(names[i], i, store).value;
            var rest := RunBenchmarks(names, i + 1, run.store, step, calibration, oldCalibration);
            && rest.Ok?
            && RunBenchmarks(names, i, store, step, calibration, oldCalibration).value
               == ([Normalize(names[i], run, calibration, oldCalibration)] + rest.value.0, rest.value.1)
  {
  }

  /** A successful step followed by successful remaining steps. */
  lemma RunStepsOkFold(names: seq<string>, i: nat, store: ReportStore, step: BenchStep)
    requires i < |names|
    requires step(names[i], i, store).Ok?
    requires RunSteps(names, i + 1, step(names[i], i, store).value.store, step).Ok?
    ensures var run := step(names[i], i, store).value;
            RunSteps(names, i, store, step) == Ok([run] + RunSteps(names, i + 1, run.store, step).value)
  {
  }

  /** Normalising one more run in front. */
  lemma NormalizedRunsCons(result: BenchResult, rest: seq<BenchResult>, names: seq<string>, i: nat,
                           run: BenchRun, restRuns: seq<BenchRun>, calibration: Stats, oldCalibration: Option<Stats>)
    requires i + 1 + |restRuns| <= |names|
    requires result == Normalize(names[i], run, calibration, oldCalibration)
    requires NormalizedRuns(rest, names, i + 1, restRuns, calibration, oldCalibration)
    ensures NormalizedRuns([result] + rest, names, i, [run] + restRuns, calibration, oldCalibration)
  {
    var results, runs := [result] + rest, [run] + restRuns;
    forall j | 0 < j < |runs|
      ensures results[j] == Normalize(names[i + j], runs[j], calibration, oldCalibration)
    {
      var k := j - 1;
      assert results[j] == rest[k] && runs[j] == restRuns[k] && (i + 1) + k == i + j;
    }
  }

  /** Every one of `runs`, for the benchmarks from index `i` on, is
      reportable once normalised by the calibration run. */
  predicate RunsReportable(names: seq<string>, i: nat, runs: seq<BenchRun>,
                           calibration: Stats, oldCalibration: Option<Stats>)
    requires i + |runs| <= |names|
  {
    forall j :: 0 <= j < |runs| ==> ResultReportable(Normalize(names[i + j], runs[j], calibration, oldCalibration))
  }

  /** Splitting off the first run. */
  lemma RunsReportableCons(names: seq<string>, i: nat, run: BenchRun, restRuns: seq<BenchRun>,
                           calibration: Stats, oldCalibration: Option<Stats>)
    requires i + 1 + |restRuns| <= |names|
    requires RunsReportable(names, i, [run] + restRuns, calibration, oldCalibration)
    ensures ResultReportable(Normalize(names[i], run, calibration, oldCalibration))
    ensures RunsReportable(names, i + 1, restRuns, calibration, oldCalibration)
  {
    var runs := [run] + restRuns;
    assert runs[0] == run && names[i + 0] == names[i];
    forall j | 0 <= j < |restRuns|
      ensures ResultReportable(Normalize(names[i + 1 + j], restRuns[j], calibration, oldCalibration))
    {
      assert restRuns[j] == runs[j + 1] && i + 1 + j == i + (j + 1);
    }
  }

  /** When every step succeeds and every normalised record is reportable,
      the loop succeeds. */
  lemma {:induction false} RunBenchmarksSucceeds(names: seq<string>, i: nat, store: ReportStore, step: BenchStep,
                                                 calibration: Stats, oldCalibration: Option<Stats>)
    requires i <= |names|
    ensures var runs := RunSteps(names, i, store, step);
            runs.Ok? && RunsReportable(names, i, runs.value, calibration, oldCalibration)
            ==> RunBenchmarks(names, i, store, step, calibration, oldCalibration).Ok?
    decreases |names| - i
  {
    var runs := RunSteps(names, i, store, step);
    if i < |names| && runs.Ok? && RunsReportable(names, i, runs.value, calibration, oldCalibration) {
      var run := step(names[i], i, store).value;
      var restRuns := RunSteps(names, i + 1, run.store, step).value;
      assert runs.value == [run] + restRuns;
      RunsReportableCons(names, i, run, restRuns, calibration, oldCalibration);
      RunBenchmarksSucceeds(names, i + 1, run.store, step, calibration, oldCalibration);
    }
  }

  /** Any failure of the loop other than an unreportable record is the
      failure of the first failing step. */
  lemma {:induction false} RunBenchmarksFailsAtStep(names: seq<string>, i: nat, store: ReportStore, step: BenchStep,
                                                    calibration: Stats, oldCalibration: Option<Stats>)
    requires i <= |names|
    ensures var r := RunBenchmarks(names, i, store, step, calibration, oldCalibration);
            r.Err? && !r.error.Unreportable? ==> RunSteps(names, i, store, step) == Err(r.error)
    decreases |names| - i
  {
    if i < |names| && step(names[i], i, store).Ok? {
      var run := step(names[i], i, store).value;
      RunBenchmarksFailsAtStep(names, i + 1, run.store, step, calibration, oldCalibration);
    }
  }

  /** The loop succeeds exactly when every step succeeds and every
      normalised record is reportable. */
  lemma RunBenchmarksSucceedsIff(names: seq<string>, i: nat, store: ReportStore, step: BenchStep,
                                 calibration: Stats, oldCalibration: Option<Stats>)
    requires i <= |names|
    ensures var runs := RunSteps(names, i, store, step);
            RunBenchmarks(names, i, store, step, calibration, oldCalibration).Ok? <==>
              runs.Ok? && RunsReportable(names, i, runs.value, calibration, oldCalibration)
  {
    RunBenchmarksNormalizesRuns(names, i, store, step, calibration, oldCalibration);
    RunBenchmarksSucceeds(names, i, store, step, calibration, oldCalibration);
  }

  /** Without an old calibration run no benchmark shows old counters, even
      when its own old report exists. */
  lemma {:induction false} RunBenchmarksWithoutOldCalibration(names: seq<string>, i: nat, store: ReportStore,
                                                              step: BenchStep, calibration: Stats)
    requires i <= |names|
    ensures var r := RunBenchmarks(names, i, store, step, calibration, None);
            r.Ok? ==> NoOldStats(r.value.0)
  {
    RunBenchmarksNormalizesRuns(names, i, store, step, calibration, None);
  }

  /** One result per benchmark, in registration order. */
  lemma RunBenchmarksNames(names: seq<string>, i: nat, store: ReportStore, step: BenchStep,
                           calibration: Stats, oldCalibration: Option<Stats>)
    requires i <= |names|
    ensures var r := RunBenchmarks(names, i, store, step, calibration, oldCalibration);
            r.Ok? ==> ResultNames(r.value.0) == names[i..]
  {
    RunBenchmarksNormalizesRuns(names, i, store, step, calibration, oldCalibration);
  }

  /** Every report on disk parses. */
  predicate ReportsParse(store: ReportStore) {
    forall p :: p in store ==> ParseReport(store[p]).Ok?
  }

  /** With every report on disk parsable, a child that succeeds with a
      parsable report makes a successful run that leaves every report
      parsable. */
  lemma RunBenchKeepsReportsParsable(store: ReportStore, name: string, outcome: ChildOutcome)
    requires ReportsParse(store)
    requires outcome.Succeeded? && ParseReport(outcome.report).Ok?
    ensures RunBench(store, name, outcome).Ok? && ReportsParse(RunBench(store, name, outcome).value.store)
  {
    RunBenchSucceedsIff(store, name, outcome);
    var after := RunBench(store, name, outcome).value.store;
    assert after == Rotate(store, name)[Current(name) := outcome.report];
    forall p | p in after
      ensures ParseReport(after[p]).Ok?
    {
      if p == Current(name) {
        assert after[p] == outcome.report;
      } else if p == Previous(name) && Current(name) in store {
        assert after[p] == store[Current(name)];
      } else {
        assert after[p] == store[p];
      }
    }
  }

  /** The benchmark name under which the calibration run is stored. */
  const CalibrationName: string := "iai_calibration"

  /** What the orchestrator produces: one result per benchmark, and the files. */
  datatype RunOutput = RunOutput(results: seq<BenchResult>, store: ReportStore)

  /** Orchestrator mode of `runner`: without cachegrind, nothing runs and no
      file is touched; otherwise the calibration run comes first, then every
      benchmark in order. */
  function Orchestrate(cachegrindAvailable: bool, names: seq<string>, store: ReportStore,
                       child: int -> ChildOutcome): (r: Result<RunOutput, RunError>)
    ensures !cachegrindAvailable ==> r == Ok(RunOutput([], store))
    ensures cachegrindAvailable && r.Ok? ==> ResultNames(r.value.results) == names
    ensures cachegrindAvailable && child(CalibrationIndex).Failed? ==>
              r == Err(ChildFailed(CalibrationName, child(CalibrationIndex).stderr))
    ensures r.Ok? ==> forall j :: 0 <= j < |r.value.results| ==> ResultReportable(r.value.results[j])
  {
    if !cachegrindAvailable then Ok(RunOutput([], store))
    else
      var cal :- RunBench(store, CalibrationName, child(CalibrationIndex));
      var run :- RunBenchmarks(names, 0, cal.store, CachegrindStep(child), cal.stats, cal.oldStats);
      RunBenchmarksNames(names, 0, cal.store, CachegrindStep(child), cal.stats, cal.oldStats);
      assert names[0..] == names;
      Ok(RunOutput(run.0, run.1))
  }

  /** A successful orchestration ran the calibration, then the chain of
      benchmark steps, and its results are those runs normalised. */
  lemma OrchestrateRuns(names: seq<string>, store: ReportStore, child: int -> ChildOutcome)
    requires Orchestrate(true, names, store, child).Ok?
    ensures var cal := RunBench(store, CalibrationName, child(CalibrationIndex));
            && cal.Ok?
            && var runs := RunSteps(names, 0, cal.value.store, CachegrindStep(child));
               && runs.Ok?
               && NormalizedRuns(Orchestrate(true, names, store, child).value.results, names, 0, runs.value,
                                 cal.value.stats, cal.value.oldStats)
  {
    var cal := RunBench(store, CalibrationName, child(CalibrationIndex)).value;
    var loop := RunBenchmarks(names, 0, cal.store, CachegrindStep(child), cal.stats, cal.oldStats);
    assert loop.Ok? && Orchestrate(true, names, store, child).value.results == loop.value.0;
    RunBenchmarksNormalizesRuns(names, 0, cal.store, CachegrindStep(child), cal.stats, cal.oldStats);
  }

  /** The orchestrator's j-th result is the j-th benchmark child's counters
      minus the calibration child's counters. The j-th benchmark runs on the
      files the previous benchmark left, or on those the calibration run
      left. */
  lemma OrchestrateNormalizes(names: seq<string>, store: ReportStore, child: int -> ChildOutcome, j: nat)
    requires j < |names|
    requires Orchestrate(true, names, store, child).Ok?
    ensures var cal := RunBench(store, CalibrationName, child(CalibrationIndex));
            && cal.Ok?
            && var runs := RunSteps(names, 0, cal.value.store, CachegrindStep(child));
               && runs.Ok? && |runs.value| == |names|
               && var result := Orchestrate(true, names, store, child).value.results[j];
                  var before := if j == 0 then cal.value.store else runs.value[j - 1].store;
                  && RunBench(before, names[j], child(j)) == Ok(runs.value[j])
                  && ParseReport(child(j).report).Ok? && ParseReport(child(CalibrationIndex).report).Ok?
                  && result.name == names[j]
                  && result.stats == Subtract(ParseReport(child(j).report).value,
                                              ParseReport(child(CalibrationIndex).report).value)
  {
    OrchestrateRuns(names, store, child);
    var cal := RunBench(store, CalibrationName, child(CalibrationIndex)).value;
    var runs := RunSteps(names, 0, cal.store, CachegrindStep(child)).value;
    var results := Orchestrate(true, names, store, child).value.results;
    NormalizedStep(names, cal.store, CachegrindStep(child), runs, results, cal.stats, cal.oldStats, j);
    var before := if j == 0 then cal.store else runs[j - 1].store;
    assert RunBench(before, names[j], child(j)) == Ok(runs[j]) by {
      assert CachegrindStep(child)(names[j], j, before) == RunBench(before, names[j], child(j));
    }
    assert ParseReport(child(j).report) == Ok(runs[j].stats);
    assert ParseReport(child(CalibrationIndex).report) == Ok(cal.stats);
    assert results[j].stats == Subtract(runs[j].stats, cal.stats);
  }

  /** The old counters of the orchestrator's j-th result are the old counters
      of the j-th benchmark run minus those of the calibration run, and they
      are present exactly when both are. (`RunBench` says where each run's
      old counters come from: the report that was current before the run,
      else the `.old` one.) */
  lemma OrchestrateOldStats(names: seq<string>, store: ReportStore, child: int -> ChildOutcome, j: nat)
    requires j < |names|
    requires Orchestrate(true, names, store, child).Ok?
    ensures var cal := RunBench(store, CalibrationName, child(CalibrationIndex));
            && cal.Ok?
            && var runs := RunSteps(names, 0, cal.value.store, CachegrindStep(child));
               && runs.Ok? && |runs.value| == |names|
               && var result := Orchestrate(true, names, store, child).value.results[j];
                  && (result.oldStats.Some? <==> runs.value[j].oldStats.Some? && cal.value.oldStats.Some?)
                  && (result.oldStats.Some? ==>
                        result.oldStats.value == Subtract(runs.value[j].oldStats.value, cal.value.oldStats.value))
  {
    OrchestrateRuns(names, store, child);
    var cal := RunBench(store, CalibrationName, child(CalibrationIndex)).value;
    var runs := RunSteps(names, 0, cal.store, CachegrindStep(child)).value;
    NormalizedStep(names, cal.store, CachegrindStep(child), runs,
                   Orchestrate(true, names, store, child).value.results, cal.stats, cal.oldStats, j);
  }

  /** The j-th of a chain of runs, and the j-th of their normalised results. */
  lemma NormalizedStep(names: seq<string>, store: ReportStore, step: BenchStep, runs: seq<BenchRun>,
                       results: seq<BenchResult>, calibration: Stats, oldCalibration: Option<Stats>, j: nat)
    requires j < |names|
    requires Chained(names, 0, store, step, runs)
    requires NormalizedRuns(results, names, 0, runs, calibration, oldCalibration)
    ensures |runs| == |names| && |results| == |names|
    ensures results[j] == Normalize(names[j], runs[j], calibration, oldCalibration)
    ensures step(names[j], j, if j == 0 then store else runs[j - 1].store) == Ok(runs[j])
  {
    assert names[0 + j] == names[j];
    if j > 0 {
      assert step(names[0 + j], 0 + j, runs[j - 1].store) == Ok(runs[j]);
    }
  }


  /** `RunBenchKeepsReportsParsable` for every benchmark step of the loop. */
  lemma CachegrindStepKeepsReportsParsable(names: seq<string>, child: int -> ChildOutcome)
    requires forall j :: 0 <= j < |names| ==> child(j).Succeeded? && ParseReport(child(j).report).Ok?
    ensures StepsKeep(names, 0, CachegrindStep(child), ReportsParse)
  {
    forall j, st | 0 <= j < |names| && ReportsParse(st)
      ensures CachegrindStep(child)(names[j], j, st).Ok?
      ensures ReportsParse(CachegrindStep(child)(names[j], j, st).value.store)
    {
      RunBenchKeepsReportsParsable(st, names[j], child(j));
    }
  }

  /** With every report on disk parsable and every child, the calibration
      run's included, succeeding with a parsable report, the orchestrator
      can abort only on a record it cannot print. */
  lemma OrchestrateFailsOnlyOnUnreportable(names: seq<string>, store: ReportStore, child: int -> ChildOutcome)
    requires ReportsParse(store)
    requires forall j :: -1 <= j < |names| ==> child(j).Succeeded? && ParseReport(child(j).report).Ok?
    ensures var r := Orchestrate(true, names, store, child);
            r.Ok? || r.error.Unreportable?
  {
    assert child(CalibrationIndex).Succeeded? && ParseReport(child(CalibrationIndex).report).Ok?;
    RunBenchKeepsReportsParsable(store, CalibrationName, child(CalibrationIndex));
    var cal := RunBench(store, CalibrationName, child(CalibrationIndex)).value;
    var step := CachegrindStep(child);
    CachegrindStepKeepsReportsParsable(names, child);
    RunStepsSucceed(names, 0, cal.store, step, ReportsParse);
    RunBenchmarksFailsAtStep(names, 0, cal.store, step, cal.stats, cal.oldStats);
    var loop := RunBenchmarks(names, 0, cal.store, step, cal.stats, cal.oldStats);
    assert loop.Ok? || loop.error.Unreportable?;
    assert Orchestrate(true, names, store, child).Err? ==> Orchestrate(true, names, store, child) == Err(loop.error);
  }

  /** What one execution of the harness binary amounts to. */
  datatype Execution =
    | ChildRan(calls: seq<nat>)                 // child mode: benchmark bodies called
    | Orchestrated(json: bool, output: RunOutput)

  /** `runner`: dispatch on the arguments, then act in the selected mode. */
  function Runner(args: seq<string>, names: seq<string>, cachegrindAvailable: bool, store: ReportStore,
                  child: int -> ChildOutcome): (r: Result<Execution, RunError>)
    ensures r.Ok? && r.value.ChildRan? ==> forall c :: c in r.value.calls ==> c < |names|
    ensures r.Ok? && r.value.ChildRan? ==> |r.value.calls| <= 1
    ensures r.Ok? && r.value.Orchestrated? ==> (r.value.json <==> |args| >= 2 && args[1] == JsonFlag)
  {
    match Dispatch(args, |names|)
    case Err(e) => Err(BadArguments(e))
    case Ok(Orchestrate(json)) =>
      var output :- Orchestrate(cachegrindAvailable, names, store, child);
      Ok(Orchestrated(json, output))
    case Ok(mode) => Ok(ChildRan(ChildCalls(mode)))
  }

  /** Run with the arguments the orchestrator gives child `i`, the binary
      calls nothing for the calibration index and benchmark `i` once
      otherwise, whatever cachegrind and the files are like. */
  lemma RunnerRunsChildArgs(executable: string, i: int, names: seq<string>, cachegrindAvailable: bool,
                            store: ReportStore, child: int -> ChildOutcome)
    requires -1 <= i < |names| <= ISIZE_MAX
    ensures Runner(ChildArgs(executable, i), names, cachegrindAvailable, store, child)
            == Ok(ChildRan(if i < 0 then [] else [i]))
  {
    ChildArgsRoundTrip(executable, i, |names|);
  }

  /** Without `--iai-run`, the binary is the orchestrator: it fails as the
      orchestrator fails and otherwise reports its output, in JSON exactly
      when `--json` comes first. */
  lemma RunnerOrchestrates(args: seq<string>, names: seq<string>, cachegrindAvailable: bool,
                           store: ReportStore, child: int -> ChildOutcome)
    requires |args| >= 1 && !(|args| >= 2 && args[1] == ChildFlag)
    ensures var r, o := Runner(args, names, cachegrindAvailable, store, child),
                        Orchestrate(cachegrindAvailable, names, store, child);
            && (o.Err? ==> r == Err(o.error))
            && (o.Ok? ==> r == Ok(Orchestrated(|args| >= 2 && args[1] == JsonFlag, o.value)))
  {
  }

  /** With no benchmark registered, a child given any index but -1 is out
      of bounds. */
  lemma RunnerWithoutBenchmarks(executable: string, arg: string, cachegrindAvailable: bool,
                                store: ReportStore, child: int -> ChildOutcome)
    requires ParseIsize(arg).Some? && ParseIsize(arg).value != CalibrationIndex
    ensures Runner([executable, ChildFlag, arg], [], cachegrindAvailable, store, child)
            == Err(BadArguments(IndexOutOfBounds(ParseIsize(arg).value)))
  {
  }
}
