/**
 * The verification engine: each curriculum entry is compiled and, depending
 * on its mode, run as a program or as a test harness, and its completion
 * state is read; the walk over the curriculum stops at the first entry that
 * fails or is still pending.
 *
 * Every step returns its result together with the effects it had, so that
 * what is never attempted (a run after a failed compile, a state read after a
 * failed run, any entry after the first failure) can be stated.
 */
module Verify {
  import opened Outcomes
  import opened Algorithms

  /** Whether a passing test harness is followed by the completion prompt. */
  datatype RunMode = Interactive | NonInteractive

  /** The log only prints: it compiles nothing, runs nothing and reads no state. */
  predicate OnlyPrints(log: seq<Effect>)
  {
    forall e :: e in log ==> e.Printed?
  }

  /**
   * `compile`: invokes the compiler once; when it fails, the compiler's
   * standard error is printed and the step is `Err`.
   */
  function Compile(tc: Toolchain, a: Algorithm): (r: Attempt<Result<(), ()>>)
    ensures r.result.Ok? <==> tc.compiles(a).Ok?
    ensures |r.log| > 0 && r.log[0] == Compiled(a) && OnlyPrints(r.log[1..])
    ensures r.result.Ok? ==> |r.log| == 1
    ensures r.result.Err? ==> Stdout(r.log) == tc.compiles(a).error.stderr + "\n"
  {
    match tc.compiles(a)
    case Ok(_) => Attempt(Ok(()), [Compiled(a)])
    case Err(out) =>
      assert [Compiled(a), Printed(out.stderr)][..1] == [Compiled(a)];
      Attempt(Err(()), [Compiled(a), Printed(out.stderr)])
  }

  /**
   * `prompt_for_completion`: reads the entry's state; a finished entry is
   * accepted silently, a pending one is not, and then the program output
   * handed in (if any) is shown again.
   */
  function PromptForCompletion(tc: Toolchain, a: Algorithm, promptOutput: Option<string>): (done: Attempt<bool>)
    ensures done.result <==> tc.state(a) == Done
    ensures |done.log| > 0 && done.log[0] == Consulted(a) && OnlyPrints(done.log[1..])
    ensures Stdout(done.log) != "" <==> tc.state(a) == Pending && promptOutput.Some?
  {
    match tc.state(a)
    case Done => Attempt(true, [Consulted(a)])
    case Pending =>
      if promptOutput.Some? then
        assert [Consulted(a), Printed(promptOutput.value)][..1] == [Consulted(a)];
        Attempt(false, [Consulted(a), Printed(promptOutput.value)])
      else
        Attempt(false, [Consulted(a)])
  }

  /** `compile_only`: the clippy step compiles and prompts, and never runs the artifact. */
  function CompileOnly(tc: Toolchain, a: Algorithm): (r: Attempt<Result<bool, ()>>)
    ensures r.result.Err? <==> tc.compiles(a).Err?
    ensures r.result == Ok(true) <==> tc.compiles(a).Ok? && tc.state(a) == Done
    ensures Ran(a) !in r.log
    ensures Consulted(a) in r.log <==> tc.compiles(a).Ok?
  {
    var c := Compile(tc, a);
    if c.result.Err? then Attempt(Err(()), c.log)
    else
      var p := PromptForCompletion(tc, a, None);
      assert p.log[0] in c.log + p.log;
      Attempt(Ok(p.result), c.log + p.log)
  }

  /**
   * `compile_and_run_interactively`: compiles, runs, and on success prompts
   * with the program's output; a failing run prints both of its streams and
   * is `Err` without the state being read.
   */
  function CompileAndRunInteractively(tc: Toolchain, a: Algorithm): (r: Attempt<Result<bool, ()>>)
    ensures r.result.Err? <==> tc.compiles(a).Err? || tc.runs(a).Err?
    ensures r.result == Ok(true) <==> tc.compiles(a).Ok? && tc.runs(a).Ok? && tc.state(a) == Done
    ensures Ran(a) in r.log <==> tc.compiles(a).Ok?
    ensures Consulted(a) in r.log <==> tc.compiles(a).Ok? && tc.runs(a).Ok?
  {
    var c := Compile(tc, a);
    if c.result.Err? then Attempt(Err(()), c.log)
    else
      match tc.runs(a)
      case Err(out) =>
        Attempt(Err(()), c.log + [Ran(a), Printed(out.stdout), Printed(out.stderr)])
      case Ok(out) =>
        var p := PromptForCompletion(tc, a, Some(out.stdout));
        assert p.log[0] in c.log + [Ran(a)] + p.log;
        Attempt(Ok(p.result), c.log + [Ran(a)] + p.log)
  }

  /**
   * `compile_and_test`: compiles and runs the test harness. A passing
   * harness's output is printed only when `verbose`; the completion prompt
   * follows only in interactive mode. A failing harness prints its standard
   * output and is `Err` without the state being read.
   */
  function CompileAndTest(tc: Toolchain, a: Algorithm, runMode: RunMode, verbose: bool): (r: Attempt<Result<bool, ()>>)
    ensures r.result.Err? <==> tc.compiles(a).Err? || tc.runs(a).Err?
    ensures r.result == Ok(true) <==>
      tc.compiles(a).Ok? && tc.runs(a).Ok? && (runMode == Interactive ==> tc.state(a) == Done)
    ensures Ran(a) in r.log <==> tc.compiles(a).Ok?
    ensures Consulted(a) in r.log <==> tc.compiles(a).Ok? && tc.runs(a).Ok? && runMode == Interactive
  {
    var c := Compile(tc, a);
    if c.result.Err? then Attempt(Err(()), c.log)
    else
      match tc.runs(a)
      case Err(out) =>
        Attempt(Err(()), c.log + [Ran(a), Printed(out.stdout)])
      case Ok(out) =>
        var shown := c.log + [Ran(a)] + (if verbose then [Printed(out.stdout)] else []);
        if runMode == Interactive then
          var p := PromptForCompletion(tc, a, None);
          assert p.log[0] in shown + p.log;
          Attempt(Ok(p.result), shown + p.log)
        else
          Attempt(Ok(true), shown)
  }

  /** `test`: the non-interactive harness run; `Ok` whenever it compiles and passes. */
  function Test(tc: Toolchain, a: Algorithm, verbose: bool): (r: Attempt<Result<(), ()>>)
    ensures r.result.Ok? <==> tc.compiles(a).Ok? && tc.runs(a).Ok?
    ensures Consulted(a) !in r.log
    ensures Ran(a) in r.log <==> tc.compiles(a).Ok?
  {
    var t := CompileAndTest(tc, a, NonInteractive, verbose);
    Attempt(if t.result.Err? then Err(()) else Ok(()), t.log)
  }

  /** The step `verify` takes for one entry, chosen by its mode. */
  function Step(tc: Toolchain, a: Algorithm, verbose: bool): (r: Attempt<Result<bool, ()>>)
    ensures r.result == Ok(true) <==> Passes(tc, a)
    ensures Ran(a) in r.log <==> a.mode != Clippy && tc.compiles(a).Ok?
    ensures TouchesOnly(r.log, [a])
  {
    match a.mode
    case Test => CompileAndTest(tc, a, Interactive, verbose)
    case Compile => CompileAndRunInteractively(tc, a)
    case Clippy => CompileOnly(tc, a)
  }

  /**
   * A compile failure short-circuits every step: the compiler's error output
   * is printed and nothing is run or consulted.
   */
  lemma CompileFailureShortCircuits(tc: Toolchain, a: Algorithm, verbose: bool)
    requires tc.compiles(a).Err?
    ensures Step(tc, a, verbose) == Attempt(Err(()), [Compiled(a), Printed(tc.compiles(a).error.stderr)])
  {
  }

  /** A failing run is `Err` without the completion state being read. */
  lemma RunFailureSkipsPrompt(tc: Toolchain, a: Algorithm, verbose: bool)
    requires tc.compiles(a).Ok? && a.mode != Clippy && tc.runs(a).Err?
    ensures Step(tc, a, verbose).result == Err(())
    ensures Consulted(a) !in Step(tc, a, verbose).log
  {
  }

  /** The effects of a passing harness: compile, run, its output when `verbose`, then the prompt's state read. */
  lemma HarnessPassLog(tc: Toolchain, a: Algorithm, runMode: RunMode, verbose: bool)
    requires tc.compiles(a).Ok? && tc.runs(a).Ok?
    ensures CompileAndTest(tc, a, runMode, verbose).log ==
      [Compiled(a), Ran(a)] + (if verbose then [Printed(tc.runs(a).value.stdout)] else [])
      + (if runMode == Interactive then [Consulted(a)] else [])
  {
    assert Compile(tc, a).log == [Compiled(a)];
    assert PromptForCompletion(tc, a, None).log == [Consulted(a)];
  }

  /**
   * A passing test harness's output is shown exactly when `verbose` is set,
   * and nothing else reaches standard output, whether the entry is finished
   * or not.
   */
  lemma HarnessOutputOnlyWhenVerbose(tc: Toolchain, a: Algorithm, runMode: RunMode, verbose: bool)
    requires tc.compiles(a).Ok? && tc.runs(a).Ok?
    ensures Stdout(CompileAndTest(tc, a, runMode, verbose).log) ==
      if verbose then tc.runs(a).value.stdout + "\n" else ""
  {
    var out := tc.runs(a).value;
    var shown := if verbose then [Printed(out.stdout)] else [];
    var tail := if runMode == Interactive then [Consulted(a)] else [];
    HarnessPassLog(tc, a, runMode, verbose);
    StdoutBetweenSilent([Compiled(a), Ran(a)], shown, tail);
    StdoutLine(out.stdout);
  }

  /** A failing harness prints exactly its standard output, whatever the mode. */
  lemma HarnessFailureShowsOutput(tc: Toolchain, a: Algorithm, runMode: RunMode, verbose: bool)
    requires tc.compiles(a).Ok? && tc.runs(a).Err?
    ensures Stdout(CompileAndTest(tc, a, runMode, verbose).log) == tc.runs(a).error.stdout + "\n"
  {
    var out := tc.runs(a).error;
    assert CompileAndTest(tc, a, runMode, verbose).log == [Compiled(a), Ran(a)] + [Printed(out.stdout)];
    StdoutQuietLine([Compiled(a), Ran(a)], out.stdout);
  }

  /**
   * The prompt prints the program output handed to it when the entry is
   * pending, and nothing else.
   */
  lemma PromptShowsOutput(tc: Toolchain, a: Algorithm, promptOutput: Option<string>)
    ensures Stdout(PromptForCompletion(tc, a, promptOutput).log) ==
      if tc.state(a) == Pending && promptOutput.Some? then promptOutput.value + "\n" else ""
  {
    var log := PromptForCompletion(tc, a, promptOutput).log;
    if tc.state(a) == Pending && promptOutput.Some? {
      assert log == [Consulted(a)] + [Printed(promptOutput.value)];
      StdoutQuietLine([Consulted(a)], promptOutput.value);
    } else {
      StdoutSilent(log);
    }
  }

  /**
   * A program that compiles but fails prints its standard output and then its
   * standard error; one that succeeds prints its output, through the prompt,
   * only when the entry is still pending.
   */
  lemma RunInteractivelyShowsOutput(tc: Toolchain, a: Algorithm)
    requires tc.compiles(a).Ok?
    ensures tc.runs(a).Err? ==>
      Stdout(CompileAndRunInteractively(tc, a).log) == tc.runs(a).error.stdout + "\n" + tc.runs(a).error.stderr + "\n"
    ensures tc.runs(a).Ok? ==>
      Stdout(CompileAndRunInteractively(tc, a).log) == if tc.state(a) == Pending then tc.runs(a).value.stdout + "\n" else ""
  {
    var quiet := [Compiled(a), Ran(a)];
    assert Compile(tc, a).log == [Compiled(a)];
    match tc.runs(a)
    case Err(out) =>
      var shown := [Printed(out.stdout), Printed(out.stderr)];
      assert CompileAndRunInteractively(tc, a).log == quiet + shown + [];
      StdoutBetweenSilent(quiet, shown, []);
      StdoutAppend([Printed(out.stdout)], [Printed(out.stderr)]);
      StdoutLine(out.stdout);
      StdoutLine(out.stderr);
    case Ok(out) =>
      var p := PromptForCompletion(tc, a, Some(out.stdout));
      assert CompileAndRunInteractively(tc, a).log == quiet + p.log;
      StdoutAfterSilent(quiet, p.log);
      PromptShowsOutput(tc, a, Some(out.stdout));
  }

  /** `test` does not depend on the completion state at all. */
  lemma TestIgnoresState(tc: Toolchain, a: Algorithm, verbose: bool, state: Algorithm -> State)
    ensures Test(tc.(state := state), a, verbose) == Test(tc, a, verbose)
  {
  }

  /** Pending halts the pass just as a failure does, even when everything compiles and runs. */
  lemma PendingHalts(tc: Toolchain, a: Algorithm, verbose: bool)
    requires tc.state(a) == Pending
    ensures Step(tc, a, verbose).result != Ok(true)
    ensures VerifyRun(tc, [a], verbose).result == Err(a)
  {
  }

  /**
   * The entry's step lets `verify` go on to the next entry: it compiles, its
   * artifact (unless it is a clippy entry) runs successfully, and its source
   * is marked done.
   */
  predicate Passes(tc: Toolchain, a: Algorithm)
  {
    tc.compiles(a).Ok? && (a.mode != Clippy ==> tc.runs(a).Ok?) && tc.state(a) == Done
  }

  /** What one entry contributes to a pass: its effects and whether the pass goes on. */
  type Stepper = Algorithm -> Attempt<Result<bool, ()>>

  /** The step lets the pass go on past `a`: `unwrap_or(false)` of its result holds. */
  predicate Advances(step: Stepper, a: Algorithm)
  {
    step(a).result == Ok(true)
  }

  /**
   * The fail-fast walk at the heart of `verify`, for any step: `Err` with the
   * first entry whose step does not let the walk go on, after that step's
   * effects and those of the entries before it; `Ok` once every entry has
   * been stepped through.
   */
  function Walk(step: Stepper, algos: seq<Algorithm>): (r: Attempt<Result<(), Algorithm>>)
    ensures r.result.Ok? <==> forall i :: 0 <= i < |algos| ==> Advances(step, algos[i])
    ensures r.result.Err? ==> r.result.error in algos && !Advances(step, r.result.error)
    decreases |algos|
  {
    if |algos| == 0 then Attempt(Ok(()), [])
    else
      var s := step(algos[0]);
      if s.result != Ok(true) then Attempt(Err(algos[0]), s.log)
      else
        var rest := Walk(step, algos[1..]);
        assert rest.result.Err? ==> rest.result.error in algos;
        assert rest.result.Ok? ==> forall i :: 0 <= i < |algos| ==> Advances(step, algos[i]) by {
          if rest.result.Ok? {
            forall i | 0 < i < |algos|
              ensures Advances(step, algos[i])
            {
              assert algos[i] == algos[1..][i - 1];
            }
          }
        }
        assert rest.result.Err? ==> exists i :: 0 <= i < |algos| && !Advances(step, algos[i]) by {
          if rest.result.Err? {
            var i :| 0 <= i < |algos| - 1 && !Advances(step, algos[1..][i]);
            assert algos[1..][i] == algos[i + 1];
          }
        }
        Attempt(rest.result, s.log + rest.log)
  }

  /** The effects of the steps of every entry of `algos`, in order. */
  function Trace(step: Stepper, algos: seq<Algorithm>): seq<Effect>
    decreases |algos|
  {
    if |algos| == 0 then [] else step(algos[0]).log + Trace(step, algos[1..])
  }

  /**
   * The walk stops at the first entry `algos[k]` whose step does not let it
   * go on: it returns that entry, having stepped through exactly
   * `algos[..k + 1]`.
   */
  lemma {:induction false} WalkStopsAtFirstFailure(step: Stepper, algos: seq<Algorithm>, k: nat)
    requires k < |algos| && !Advances(step, algos[k])
    requires forall i :: 0 <= i < k ==> Advances(step, algos[i])
    ensures Walk(step, algos) == Attempt(Err(algos[k]), Trace(step, algos[..k + 1]))
    decreases k
  {
    if k == 0 {
      assert algos[..1][1..] == [];
      assert algos[..1][0] == algos[0];
    } else {
      assert Advances(step, algos[0]);
      forall i | 0 <= i < k - 1
        ensures Advances(step, algos[1..][i])
      {
        assert algos[1..][i] == algos[i + 1];
      }
      WalkStopsAtFirstFailure(step, algos[1..], k - 1);
      assert algos[1..][..k] == algos[..k + 1][1..];
    }
  }

  /** When every step lets it go on, the walk is `Ok` after stepping through every entry. */
  lemma {:induction false} WalkAllPass(step: Stepper, algos: seq<Algorithm>)
    requires forall i :: 0 <= i < |algos| ==> Advances(step, algos[i])
    ensures Walk(step, algos) == Attempt(Ok(()), Trace(step, algos))
    decreases |algos|
  {
    if |algos| > 0 {
      assert Advances(step, algos[0]);
      forall i | 0 <= i < |algos| - 1
        ensures Advances(step, algos[1..][i])
      {
        assert algos[1..][i] == algos[i + 1];
      }
      WalkAllPass(step, algos[1..]);
    }
  }

  /** The position of the first entry whose step stops the walk. */
  function FirstFailure(step: Stepper, algos: seq<Algorithm>): (k: nat)
    requires exists i :: 0 <= i < |algos| && !Advances(step, algos[i])
    ensures k < |algos| && !Advances(step, algos[k])
    ensures forall i :: 0 <= i < k ==> Advances(step, algos[i])
    decreases |algos|
  {
    if !Advances(step, algos[0]) then 0
    else
      assert exists i :: 0 <= i < |algos| - 1 && !Advances(step, algos[1..][i]) by {
        var i :| 0 <= i < |algos| && !Advances(step, algos[i]);
        assert i > 0 && algos[1..][i - 1] == algos[i];
      }
      var k := FirstFailure(step, algos[1..]);
      assert forall i :: 0 < i <= k ==> algos[i] == algos[1..][i - 1];
      k + 1
  }

  /** The steps `verify` takes, one per entry. */
  function StepOf(tc: Toolchain, verbose: bool): Stepper
  {
    a => Step(tc, a, verbose)
  }

  /** The steps of `verify` touch only the entries they are taken for. */
  lemma {:induction false} TraceTouchesOnly(tc: Toolchain, algos: seq<Algorithm>, verbose: bool)
    ensures TouchesOnly(Trace(StepOf(tc, verbose), algos), algos)
    decreases |algos|
  {
    if |algos| > 0 {
      var head := Step(tc, algos[0], verbose).log;
      var rest := Trace(StepOf(tc, verbose), algos[1..]);
      TraceTouchesOnly(tc, algos[1..], verbose);
      forall e: Effect | e in head + rest && !e.Printed?
        ensures e.subject in algos
      {
        if e in head {
          assert e.subject in [algos[0]];
        } else {
          assert e.subject in algos[1..];
        }
      }
    }
  }

  /**
   * What `verify` computes: the walk with each entry's mode-dispatched step.
   * It is `Ok` exactly when every entry passes, and otherwise names an entry
   * that does not.
   */
  function VerifyRun(tc: Toolchain, algos: seq<Algorithm>, verbose: bool): (r: Attempt<Result<(), Algorithm>>)
    ensures r.result.Ok? <==> forall i :: 0 <= i < |algos| ==> Passes(tc, algos[i])
    ensures r.result.Err? ==> r.result.error in algos && !Passes(tc, r.result.error)
  {
    var step := StepOf(tc, verbose);
    assert forall a :: Advances(step, a) <==> Passes(tc, a);
    Walk(step, algos)
  }

  /**
   * `verify` stops at the first entry `algos[k]` that does not pass: it
   * returns that entry, having stepped through exactly `algos[..k + 1]`, so
   * no later entry is compiled, run or consulted.
   */
  lemma VerifyStopsAtFirstFailure(tc: Toolchain, algos: seq<Algorithm>, verbose: bool, k: nat)
    requires k < |algos| && !Passes(tc, algos[k])
    requires forall i :: 0 <= i < k ==> Passes(tc, algos[i])
    ensures VerifyRun(tc, algos, verbose) == Attempt(Err(algos[k]), Trace(StepOf(tc, verbose), algos[..k + 1]))
    ensures TouchesOnly(VerifyRun(tc, algos, verbose).log, algos[..k + 1])
  {
    var step := StepOf(tc, verbose);
    assert forall a :: Advances(step, a) <==> Passes(tc, a);
    WalkStopsAtFirstFailure(step, algos, k);
    TraceTouchesOnly(tc, algos[..k + 1], verbose);
  }

  /** When every entry passes, `verify` is `Ok` after stepping through all of them. */
  lemma VerifyAllPass(tc: Toolchain, algos: seq<Algorithm>, verbose: bool)
    requires forall i :: 0 <= i < |algos| ==> Passes(tc, algos[i])
    ensures VerifyRun(tc, algos, verbose) == Attempt(Ok(()), Trace(StepOf(tc, verbose), algos))
    ensures TouchesOnly(VerifyRun(tc, algos, verbose).log, algos)
  {
    var step := StepOf(tc, verbose);
    assert forall a :: Advances(step, a) <==> Passes(tc, a);
    WalkAllPass(step, algos);
    TraceTouchesOnly(tc, algos, verbose);
  }

  /** Whatever the outcome, `verify` touches only entries of the curriculum it was given. */
  lemma VerifyTouchesOnlyItsInput(tc: Toolchain, algos: seq<Algorithm>, verbose: bool)
    ensures TouchesOnly(VerifyRun(tc, algos, verbose).log, algos)
  {
    var step := StepOf(tc, verbose);
    assert forall a :: Advances(step, a) <==> Passes(tc, a);
    if forall i :: 0 <= i < |algos| ==> Passes(tc, algos[i]) {
      VerifyAllPass(tc, algos, verbose);
    } else {
      var k := FirstFailure(step, algos);
      VerifyStopsAtFirstFailure(tc, algos, verbose, k);
      assert forall e :: e in algos[..k + 1] ==> e in algos;
    }
  }

  /**
   * The walk resumed at position `i` after the effects `log` of the earlier
   * steps: its result, and the effects still to come.
   */
  ghost predicate ResumesAt(step: Stepper, algos: seq<Algorithm>, i: nat, log: seq<Effect>)
    requires i <= |algos|
  {
    var rest := Walk(step, algos[i..]);
    Walk(step, algos) == Attempt(rest.result, log + rest.log)
  }

  /** Before the loop of `verify`, the walk resumes at the first entry with nothing logged. */
  lemma WalkStartsAtFirst(step: Stepper, algos: seq<Algorithm>)
    ensures ResumesAt(step, algos, 0, [])
  {
    assert algos[0..] == algos;
    assert [] + Walk(step, algos).log == Walk(step, algos).log;
  }

  /** One turn of the loop of `verify`: it either returns, or resumes at the next entry. */
  lemma {:induction false} WalkAdvance(step: Stepper, algos: seq<Algorithm>, i: nat, log: seq<Effect>)
    requires i < |algos| && ResumesAt(step, algos, i, log)
    ensures var s := step(algos[i]);
            if s.result != Ok(true) then Walk(step, algos) == Attempt(Err(algos[i]), log + s.log)
            else ResumesAt(step, algos, i + 1, log + s.log)
  {
    assert algos[i..][0] == algos[i];
    assert algos[i..][1..] == algos[i + 1..];
    var s := step(algos[i]);
    var rest := Walk(step, algos[i + 1..]).log;
    assert log + (s.log + rest) == (log + s.log) + rest;
  }

  /**
   * `verify`: the `for` loop over the curriculum with its early return,
   * collecting the effects of every step it takes.
   */
  method Verify(tc: Toolchain, algos: seq<Algorithm>, verbose: bool) returns (r: Result<(), Algorithm>, log: seq<Effect>)
    ensures Attempt(r, log) == VerifyRun(tc, algos, verbose)
  {
    ghost var steps := StepOf(tc, verbose);
    log := [];
    var i := 0;
    WalkStartsAtFirst(steps, algos);
    while i < |algos|
      invariant 0 <= i <= |algos|
      invariant ResumesAt(steps, algos, i, log)
    {
      var step := Step(tc, algos[i], verbose);
      WalkAdvance(steps, algos, i, log);
      log := log + step.log;
      if step.result != Ok(true) {
        return Err(algos[i]), log;
      }
      i := i + 1;
    }
    assert algos[i..] == [];
    r := Ok(());
  }
}
