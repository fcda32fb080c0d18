/** The differential validator of `src/validator.rs`. Compiling and running
    a program are outside the model: their outcomes are parameters, each an
    error (the process could not be started) or a result. */
module Validator {
  import opened Wrappers

  /** Rust's `i32`. */
  type I32 = x: int | -0x8000_0000 <= x < 0x8000_0000

  datatype ExecutionTrace = ExecutionTrace(stdout: string, stderr: string, exitCode: I32)

  datatype ValidationResult = ValidationResult(success: bool, message: string, executionTraces: seq<ExecutionTrace>)

  /** What a finished process reports: its output and its exit code, absent when it was killed by a signal. */
  datatype ProcessOutput = ProcessOutput(stdout: string, stderr: string, code: Option<I32>)

  const CompileFailed: string := "One or both versions failed to compile"
  const Equivalent: string := "Validation successful: Fixed code maintains semantic equivalence"
  const Different: string := "Validation failed: Fixed code shows different behavior"

  /** `run_and_trace` on a finished process: a missing exit code is recorded as -1. */
  function TraceOf(out: ProcessOutput): (t: ExecutionTrace)
    ensures t.stdout == out.stdout && t.stderr == out.stderr
    ensures out.code.None? ==> t.exitCode == -1
    ensures out.code.Some? ==> t.exitCode == out.code.value
  {
    ExecutionTrace(out.stdout, out.stderr, out.code.GetOr(-1))
  }

  /** `compare_traces`: standard output and exit code must agree; standard error is not compared. */
  predicate CompareTraces(original: ExecutionTrace, fixed: ExecutionTrace) {
    original.stdout == fixed.stdout && original.exitCode == fixed.exitCode
  }

  /** The comparison is an equivalence on traces that ignores standard error. */
  lemma CompareTracesIsEquivalence(a: ExecutionTrace, b: ExecutionTrace, c: ExecutionTrace)
    ensures CompareTraces(a, a)
    ensures CompareTraces(a, b) ==> CompareTraces(b, a)
    ensures CompareTraces(a, b) && CompareTraces(b, c) ==> CompareTraces(a, c)
    ensures forall e :: CompareTraces(a, b) <==> CompareTraces(a, b.(stderr := e))
  {
  }

  /** `Validator::validate`. Both compilations are started (an error starting either is returned);
      if either fails nothing is run; otherwise both programs are run, in order, and compared. */
  function Validate(compileOriginal: Result<bool>, compileFixed: Result<bool>,
                    runOriginal: Result<ProcessOutput>, runFixed: Result<ProcessOutput>): (r: Result<ValidationResult>)
    ensures compileOriginal.Err? ==> r == Err(compileOriginal.error)
    ensures compileOriginal.Ok? && compileFixed.Err? ==> r == Err(compileFixed.error)
    ensures compileOriginal.Ok? && compileFixed.Ok? && !(compileOriginal.value && compileFixed.value) ==>
              r == Ok(ValidationResult(false, CompileFailed, []))
    ensures r.Ok? && r.value.success ==>
              && |r.value.executionTraces| == 2
              && runOriginal.Ok? && runFixed.Ok?
              && r.value.executionTraces == [TraceOf(runOriginal.value), TraceOf(runFixed.value)]
              && CompareTraces(r.value.executionTraces[0], r.value.executionTraces[1])
    ensures r.Ok? && r.value.executionTraces != [] ==>
              && runOriginal.Ok? && runFixed.Ok?
              && r.value.executionTraces == [TraceOf(runOriginal.value), TraceOf(runFixed.value)]
              && (r.value.success <==> CompareTraces(TraceOf(runOriginal.value), TraceOf(runFixed.value)))
    ensures r.Ok? ==> (r.value.message == Equivalent <==> r.value.success)
    ensures compileOriginal == Ok(true) && compileFixed == Ok(true) && runOriginal.Err? ==>
              r == Err(runOriginal.error)
    ensures compileOriginal == Ok(true) && compileFixed == Ok(true) && runOriginal.Ok? && runFixed.Err? ==>
              r == Err(runFixed.error)
  {
    match compileOriginal
    case Err(e) => Err(e)
    case Ok(originalCompiles) =>
      match compileFixed
      case Err(e) => Err(e)
      case Ok(fixedCompiles) =>
        if !originalCompiles || !fixedCompiles then
          Ok(ValidationResult(false, CompileFailed, []))
        else
          match runOriginal
          case Err(e) => Err(e)
          case Ok(o) =>
            match runFixed
            case Err(e) => Err(e)
            case Ok(f) =>
              var original := TraceOf(o);
              var fixed := TraceOf(f);
              var matches := CompareTraces(original, fixed);
              Ok(ValidationResult(matches, if matches then Equivalent else Different, [original, fixed]))
  }

  /** When both compile and both run, the verdict is exactly the trace comparison. */
  lemma VerdictIsComparison(o: ProcessOutput, f: ProcessOutput)
    ensures var r := Validate(Ok(true), Ok(true), Ok(o), Ok(f));
            && r.Ok?
            && (r.value.success <==> o.stdout == f.stdout && o.code.GetOr(-1) == f.code.GetOr(-1))
            && r.value.executionTraces == [TraceOf(o), TraceOf(f)]
            && r.value.message == (if r.value.success then Equivalent else Different)
  {
  }

  /** A failed compilation decides the result whatever the programs would have done. */
  lemma CompileFailureIgnoresRuns(co: bool, cf: bool, r1: Result<ProcessOutput>, r2: Result<ProcessOutput>,
                                  r3: Result<ProcessOutput>, r4: Result<ProcessOutput>)
    requires !co || !cf
    ensures Validate(Ok(co), Ok(cf), r1, r2) == Validate(Ok(co), Ok(cf), r3, r4)
  {
  }

  /** Identical standard output and exit status 0 on both sides validate, whatever the
      standard error says. */
  lemma SameOutputValidates(out: string, err1: string, err2: string)
    ensures Validate(Ok(true), Ok(true), Ok(ProcessOutput(out, err1, Some(0))), Ok(ProcessOutput(out, err2, Some(0))))
            == Ok(ValidationResult(true, Equivalent,
                    [ExecutionTrace(out, err1, 0), ExecutionTrace(out, err2, 0)]))
  {
  }

  /** A program killed by a signal matches one that exits with status -1. */
  lemma SignalLooksLikeMinusOne(out: string, e1: string, e2: string)
    ensures CompareTraces(TraceOf(ProcessOutput(out, e1, None)), TraceOf(ProcessOutput(out, e2, Some(-1))))
  {
  }

  /** The lines the top-level `validate` prints for a result, exactly as written: a failed
      result prints the standard output of both traces, indexing them unconditionally. */
  function ReportAsWritten(r: ValidationResult): (lines: seq<string>)
    requires !r.success ==> |r.executionTraces| >= 2
    ensures r.success ==> lines == ["Validation successful: " + r.message]
    ensures !r.success ==> |lines| == 5 && lines[2] == r.executionTraces[0].stdout
                           && lines[4] == r.executionTraces[1].stdout
  {
    if !r.success then
      ["Validation failed: " + r.message, "\nOriginal trace:", r.executionTraces[0].stdout,
       "\nFixed trace:", r.executionTraces[1].stdout]
    else
      ["Validation successful: " + r.message]
  }

  /** A compilation failure yields a result outside what the report can print: its traces are
      empty, so the indexing in the failure branch would panic. */
  lemma CompileFailureBreaksReport(r1: Result<ProcessOutput>, r2: Result<ProcessOutput>)
    ensures var r := Validate(Ok(false), Ok(true), r1, r2);
            r.Ok? && !r.value.success && |r.value.executionTraces| == 0
  {
  }

  /** The report with the traces printed only when they exist. */
  function Report(r: ValidationResult): (lines: seq<string>)
    ensures |lines| >= 1
    ensures r.success ==> lines == ["Validation successful: " + r.message]
    ensures !r.success ==> lines[0] == "Validation failed: " + r.message
    ensures !r.success && |r.executionTraces| >= 2 ==> lines == ReportAsWritten(r)
    ensures !r.success && |r.executionTraces| < 2 ==> lines == ["Validation failed: " + r.message]
  {
    if !r.success && |r.executionTraces| >= 2 then ReportAsWritten(r)
    else if !r.success then ["Validation failed: " + r.message]
    else ["Validation successful: " + r.message]
  }

  /** Every result `Validate` returns can be reported, and whenever the as-written report is
      defined the two agree. */
  lemma ReportCoversValidate(co: Result<bool>, cf: Result<bool>, ro: Result<ProcessOutput>, rf: Result<ProcessOutput>)
    ensures var r := Validate(co, cf, ro, rf);
            r.Ok? && (!r.value.success ==> |r.value.executionTraces| >= 2) ==>
              Report(r.value) == ReportAsWritten(r.value)
    ensures var r := Validate(co, cf, ro, rf);
            r.Ok? && !r.value.success && r.value.executionTraces == [] ==>
              r.value.message == CompileFailed && Report(r.value) == ["Validation failed: " + CompileFailed]
  {
  }
}
