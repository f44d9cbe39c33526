/** The self-invocation protocol of `runner`: one binary is both the
    orchestrator and, re-run under cachegrind with `--iai-run <index>`, the
    measured child. */
module SelfInvocation {
  import opened Results
  import opened Limits
  import opened Text

  /** First argument that selects child mode. */
  const ChildFlag: string := "--iai-run"
  /** First argument that selects JSON output in orchestrator mode. */
  const JsonFlag: string := "--json"
  /** Child index that runs no benchmark: the calibration run. */
  const CalibrationIndex: int := -1

  /** One past the largest `usize` on a 64-bit target. */
  const USIZE_LIMIT: int := U64_LIMIT

  datatype Mode =
    | Calibrate                 // child mode, index -1: return at once
    | RunBenchmark(index: nat)  // child mode: call `benches[index]` once
    | Orchestrate(json: bool)   // parent mode

  /** Each way the argument handling panics. */
  datatype DispatchError =
    | NoExecutable                  // the argument list is empty
    | MissingIndex                  // `--iai-run` is the last argument
    | InvalidIndex(arg: string)     // the index is not an `isize`
    | IndexOutOfBounds(index: int)  // `benches[index as usize]` is past the end

  /** `isize as usize` on a 64-bit target: negative values wrap around. */
  function AsUsize(i: int): (u: nat)
    requires ISIZE_MIN <= i <= ISIZE_MAX
    ensures u < USIZE_LIMIT
    ensures i >= 0 ==> u == i
    ensures i < 0 ==> u > ISIZE_MAX
  {
    if i < 0 then i + USIZE_LIMIT else i
  }

  /** The mode `runner` selects from its argument list (executable first)
      when `benchCount` benchmarks are registered. */
  function Dispatch(args: seq<string>, benchCount: nat): (r: Result<Mode, DispatchError>)
    ensures r == Err(NoExecutable) <==> |args| == 0
    ensures r.Ok? && r.value.Orchestrate? <==> |args| >= 1 && !(|args| >= 2 && args[1] == ChildFlag)
    ensures r.Ok? && r.value.Orchestrate? ==> (r.value.json <==> |args| >= 2 && args[1] == JsonFlag)
    ensures r.Ok? && r.value.Calibrate? <==>
              |args| >= 3 && args[1] == ChildFlag && ParseIsize(args[2]) == Some(CalibrationIndex)
    ensures r.Ok? && r.value.RunBenchmark? ==>
              && |args| >= 3 && args[1] == ChildFlag && ParseIsize(args[2]).Some?
              && r.value.index == AsUsize(ParseIsize(args[2]).value) < benchCount
    ensures |args| >= 3 && args[1] == ChildFlag && ParseIsize(args[2]).Some?
            && ParseIsize(args[2]).value != CalibrationIndex && AsUsize(ParseIsize(args[2]).value) < benchCount
            ==> r == Ok(RunBenchmark(AsUsize(ParseIsize(args[2]).value)))
    ensures r == Err(MissingIndex) <==> |args| == 2 && args[1] == ChildFlag
    ensures r.Err? && r.error.InvalidIndex? <==> |args| >= 3 && args[1] == ChildFlag && ParseIsize(args[2]).None?
    ensures r.Err? && r.error.InvalidIndex? ==> r.error.arg == args[2]
    ensures r.Err? && r.error.IndexOutOfBounds? <==>
              && |args| >= 3 && args[1] == ChildFlag && ParseIsize(args[2]).Some?
              && ParseIsize(args[2]).value != CalibrationIndex && AsUsize(ParseIsize(args[2]).value) >= benchCount
    ensures r.Err? && r.error.IndexOutOfBounds? ==> r.error.index == ParseIsize(args[2]).value
  {
    if |args| == 0 then Err(NoExecutable)
    else if |args| >= 2 && args[1] == ChildFlag then
      if |args| < 3 then Err(MissingIndex)
      else
        match ParseIsize(args[2])
        case None => Err(InvalidIndex(args[2]))
        case Some(index) =>
          if index == CalibrationIndex then Ok(Calibrate)
          else
            var u := AsUsize(index);
            if u < benchCount then Ok(RunBenchmark(u)) else Err(IndexOutOfBounds(index))
    else Ok(Orchestrate(|args| >= 2 && args[1] == JsonFlag))
  }

  /** The benchmark bodies a child run calls, in order. */
  function ChildCalls(mode: Mode): (calls: seq<nat>)
    requires !mode.Orchestrate?
    ensures mode.Calibrate? ==> calls == []
    ensures mode.RunBenchmark? ==> calls == [mode.index]
  {
    match mode
    case Calibrate => []
    case RunBenchmark(i) => [i]
  }

  /** The arguments the orchestrator gives the child for index `i`
      (`executable --iai-run i`). */
  function ChildArgs(executable: string, i: int): seq<string> {
    [executable, ChildFlag, IntToDecimal(i)]
  }

  /** The child decodes exactly what the orchestrator encodes: index -1 runs
      nothing, and an index in range runs that one benchmark once. */
  lemma ChildArgsRoundTrip(executable: string, i: int, benchCount: nat)
    requires -1 <= i < benchCount
    requires benchCount <= ISIZE_MAX
    ensures i == CalibrationIndex ==> Dispatch(ChildArgs(executable, i), benchCount) == Ok(Calibrate)
    ensures i >= 0 ==> Dispatch(ChildArgs(executable, i), benchCount) == Ok(RunBenchmark(i))
    ensures ChildCalls(Dispatch(ChildArgs(executable, i), benchCount).value) == if i < 0 then [] else [i]
  {
    ParseIsizeRoundTrip(i);
  }

  /** A child index below -1 wraps to a huge `usize` and is out of bounds for
      any slice (a slice holds at most `isize::MAX` elements). */
  lemma NegativeIndexOutOfBounds(executable: string, arg: string, benchCount: nat)
    requires benchCount <= ISIZE_MAX
    requires ParseIsize(arg).Some? && ParseIsize(arg).value < -1
    ensures Dispatch([executable, ChildFlag, arg], benchCount) == Err(IndexOutOfBounds(ParseIsize(arg).value))
  {
  }

  /** The calibration run's literal argument list. */
  lemma CalibrationArgs(executable: string, benchCount: nat)
    ensures Dispatch([executable, ChildFlag, "-1"], benchCount) == Ok(Calibrate)
  {
    assert "-1"[1..] == "1";
    assert "1"[..0] == "";
  }
}
