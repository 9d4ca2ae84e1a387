/**
 * The single-entry `run` command: a different mode table from `verify`'s.
 * Test entries run their harness non-interactively; program and clippy
 * entries are both compiled and then run, with their output shown. No mode
 * reads the completion state.
 */
module Run {
  import opened Outcomes
  import opened Algorithms
  import Verify

  /**
   * `compile_and_run`: a compile failure prints the compiler's error output
   * and is `Err` without running anything; otherwise the artifact runs, its
   * standard output is printed, and a failing run also prints its standard
   * error and is `Err`.
   */
  function CompileAndRun(tc: Toolchain, a: Algorithm): (r: Attempt<Result<(), ()>>)
    ensures r.result.Ok? <==> tc.compiles(a).Ok? && tc.runs(a).Ok?
    ensures Ran(a) in r.log <==> tc.compiles(a).Ok?
    ensures Consulted(a) !in r.log
    ensures |r.log| > 0 && r.log[0] == Compiled(a)
  {
    match tc.compiles(a)
    case Err(out) => Attempt(Err(()), [Compiled(a), Printed(out.stderr)])
    case Ok(_) =>
      match tc.runs(a)
      case Ok(out) => Attempt(Ok(()), [Compiled(a), Ran(a), Printed(out.stdout)])
      case Err(out) => Attempt(Err(()), [Compiled(a), Ran(a), Printed(out.stdout), Printed(out.stderr)])
  }

  /**
   * `run`: dispatch on the entry's mode. It is `Ok` exactly when the entry
   * compiles and its artifact (harness or program) runs successfully.
   */
  function Run(tc: Toolchain, a: Algorithm, verbose: bool): (r: Attempt<Result<(), ()>>)
    ensures r.result.Ok? <==> tc.compiles(a).Ok? && tc.runs(a).Ok?
    ensures Ran(a) in r.log <==> tc.compiles(a).Ok?
    ensures Consulted(a) !in r.log
  {
    match a.mode
    case Test => Verify.Test(tc, a, verbose)
    case Compile => CompileAndRun(tc, a)
    case Clippy => CompileAndRun(tc, a)
  }

  /** `run` never depends on the completion state: any state oracle gives the same run. */
  lemma RunIgnoresState(tc: Toolchain, a: Algorithm, verbose: bool, state: Algorithm -> State)
    ensures Run(tc.(state := state), a, verbose) == Run(tc, a, verbose)
  {
  }

  /** When compilation fails the artifact is never run, and only the compiler's errors are shown. */
  lemma CompileFailureNeverRuns(tc: Toolchain, a: Algorithm, verbose: bool)
    requires tc.compiles(a).Err?
    ensures Run(tc, a, verbose).result == Err(())
    ensures Run(tc, a, verbose).log == [Compiled(a), Printed(tc.compiles(a).error.stderr)]
  {
  }

  /**
   * A program or clippy entry that compiles and runs is `Ok` without any
   * prompt: its output is shown and nothing else is printed.
   */
  lemma SuccessfulRunShowsOutput(tc: Toolchain, a: Algorithm, verbose: bool)
    requires a.mode != Test && tc.compiles(a).Ok? && tc.runs(a).Ok?
    ensures Run(tc, a, verbose).result == Ok(())
    ensures Stdout(Run(tc, a, verbose).log) == tc.runs(a).value.stdout + "\n"
  {
    var log := Run(tc, a, verbose).log;
    var quiet := [Compiled(a), Ran(a)];
    var shown := [Printed(tc.runs(a).value.stdout)];
    assert log == quiet + shown;
    StdoutSilent(quiet);
    StdoutAppend(quiet, shown);
    assert shown[..|shown| - 1] == [];
  }

  /** A program that compiles but fails prints its standard output and then its standard error. */
  lemma FailedRunShowsBothStreams(tc: Toolchain, a: Algorithm)
    requires tc.compiles(a).Ok? && tc.runs(a).Err?
    ensures CompileAndRun(tc, a).result == Err(())
    ensures Stdout(CompileAndRun(tc, a).log) == tc.runs(a).error.stdout + "\n" + tc.runs(a).error.stderr + "\n"
  {
    var out := tc.runs(a).error;
    var quiet := [Compiled(a), Ran(a)];
    assert CompileAndRun(tc, a).log == quiet + [Printed(out.stdout)] + [Printed(out.stderr)];
    StdoutQuietLine(quiet, out.stdout);
    StdoutAppend(quiet + [Printed(out.stdout)], [Printed(out.stderr)]);
    StdoutLine(out.stderr);
  }

  /**
   * The two mode tables disagree on clippy entries: `run` runs the compiled
   * artifact, while a step of `verify` only compiles.
   */
  lemma ClippyRunsOnlyUnderRun(tc: Toolchain, a: Algorithm, verbose: bool)
    requires a.mode == Clippy && tc.compiles(a).Ok?
    ensures Ran(a) in Run(tc, a, verbose).log
    ensures Ran(a) !in Verify.Step(tc, a, verbose).log
  {
  }

  /**
   * Outside clippy entries, an entry that lets `verify` go on also succeeds
   * under `run`; the converse fails for entries still marked pending.
   */
  lemma PassingEntryRuns(tc: Toolchain, a: Algorithm, verbose: bool)
    requires a.mode != Clippy && Verify.Passes(tc, a)
    ensures Run(tc, a, verbose).result == Ok(())
  {
  }
}
