/**
 * The command line of the runner: the checks every invocation makes before
 * dispatching, the name lookup of `run` and `hint`, and the exit status of
 * each subcommand.
 *
 * Reading `info.toml`, probing for `rustc`, argument parsing and reading
 * `default_out.txt` happen outside the model: an `Environment` value holds
 * what they found.
 */
module Cli {
  import opened Outcomes
  import opened Algorithms
  import Verify
  import Run
  import Watch

  /** The subcommand given on the command line, if any. */
  datatype Command =
    | NoCommand
    | RunCommand(name: string)
    | HintCommand(name: string)
    | VerifyCommand
    | WatchCommand

  /**
   * What the process finds around it: whether `info.toml` is in the working
   * directory, the path of its own executable, whether `rustc --version`
   * succeeds, the curriculum, the toolchain's verdicts, whether the file
   * watcher can be set up, the inputs a watch would receive, and the text of
   * `default_out.txt`.
   */
  datatype Environment = Environment(
    manifestPresent: bool,
    executable: string,
    rustcPresent: bool,
    algos: seq<Algorithm>,
    tc: Toolchain,
    watcher: Result<(), string>,
    inputs: seq<Watch.Input>,
    defaultText: string)

  /** How the process ends: with an exit status, or still watching when the inputs ran out. */
  datatype Status = Exited(code: int) | StillWatching

  /** The banner printed, between two empty lines, when no subcommand is given. */
  const Welcome: string := "       welcome to algorithm               "

  /** The message of `run` and `hint` when no entry has the given name. */
  const NotFound: string := "No exercise found for your given name!"

  /** The lines printed when the watcher could not be set up, around its error. */
  const WatchFailed: string := "Error: Could not watch your progess. Error message was "
  const WatchFailedCause: string := "Most likely you've run out of disk space or your 'inotify limit' has been reached."

  /** The lines printed when `main` is run outside the curriculum's directory, after the executable's path. */
  const NotInDirectory: string := " must be run from the algorithms directory"
  const TryDirectory: string := "Try `cd algorithms/`!"

  /** The lines printed when `rustc` cannot be found. */
  const NoRustc: seq<Effect> := [
    Printed("We cannot find `rustc`."),
    Printed("Try running `rustc --version` to diagnose your problem."),
    Printed("For instructions on how to install Rust, check the README.")]

  /** The lines printed when `watch` ends because every entry passes. */
  const Completed: seq<Effect> := [
    Printed("★ All exercises completed! ★"),
    Printed(""),
    Printed("Hope you enjoyed and found the content of this repository useful for you!"),
    Printed("If you noticed any issues, please don't hesitate to report them to repo."),
    Printed("You can also contribute your own exercises to help the greater community!")]

  /**
   * `iter().find` on the entry names: the first entry called `name`, and
   * nothing exactly when no entry is called that.
   */
  function FindByName(algos: seq<Algorithm>, name: string): (r: Option<Algorithm>)
    ensures r.None? <==> forall a :: a in algos ==> a.name != name
    ensures r.Some? ==> exists i :: 0 <= i < |algos| && algos[i] == r.value && r.value.name == name
                          && forall j :: 0 <= j < i ==> algos[j].name != name
    decreases |algos|
  {
    if |algos| == 0 then None
    else if algos[0].name == name then Some(algos[0])
    else
      var r := FindByName(algos[1..], name);
      assert forall j :: 1 <= j < |algos| ==> algos[j] == algos[1..][j - 1];
      assert forall a :: a in algos[1..] ==> a in algos;
      if r.Some? then
        var k :| 0 <= k < |algos[1..]| && algos[1..][k] == r.value && r.value.name == name
                 && forall j :: 0 <= j < k ==> algos[1..][j].name != name;
        assert algos[k + 1] == r.value;
        r
      else r
  }

  /**
   * The lines that end a watch: the error and its likely cause when the
   * watcher could not be set up, the completion banner when every entry
   * passes, and nothing while it is still watching.
   */
  function Farewell(phase: Watch.Phase): (r: Attempt<Status>)
    ensures r.result.Exited? <==> !phase.Watching?
    ensures r.result == Exited(1) <==> phase.Failed?
    ensures forall e :: e in r.log ==> e.Printed?
  {
    match phase
    case Failed(error) =>
      Attempt(Exited(1), [
        Printed(WatchFailed + error + "."),
        Printed(WatchFailedCause)])
    case AllDone => Attempt(Exited(0), Completed)
    case Watching => Attempt(StillWatching, [])
  }

  /** A subcommand, once the environment checks have passed. */
  function Dispatch(cmd: Command, env: Environment, verbose: bool): (r: Attempt<Status>)
    ensures r.result.StillWatching? ==> cmd.WatchCommand?
    ensures r.result.Exited? ==> r.result.code == 0 || r.result.code == 1
  {
    match cmd
    case RunCommand(name) =>
      (match FindByName(env.algos, name)
       case None => Attempt(Exited(1), [Printed(NotFound)])
       case Some(a) =>
         var run := Run.Run(env.tc, a, verbose);
         Attempt(if run.result.Ok? then Exited(0) else Exited(1), run.log))
    case HintCommand(name) =>
      (match FindByName(env.algos, name)
       case None => Attempt(Exited(1), [Printed(NotFound)])
       case Some(a) => Attempt(Exited(0), [Printed(a.hint)]))
    case VerifyCommand =>
      var pass := Verify.VerifyRun(env.tc, env.algos, verbose);
      Attempt(if pass.result.Ok? then Exited(0) else Exited(1), pass.log)
    case WatchCommand =>
      var session := Watch.WatchSession(env.watcher, env.tc, env.algos, verbose, env.inputs).0;
      var end := Farewell(session.phase);
      Attempt(end.result, session.log + end.log)
    case NoCommand => Attempt(Exited(0), [Printed(env.defaultText)])
  }

  /**
   * `main`: the welcome banner without a subcommand; exit 1 when run outside
   * the curriculum's directory or when `rustc` cannot be found; otherwise the
   * subcommand. `verbose` is the `--nocapture` flag.
   */
  function Main(cmd: Command, env: Environment, verbose: bool): (r: Attempt<Status>)
    ensures !env.manifestPresent || !env.rustcPresent ==> r.result == Exited(1)
    ensures !env.manifestPresent || !env.rustcPresent ==> forall e :: e in r.log ==> e.Printed?
    ensures r.result.Exited? ==> r.result.code == 0 || r.result.code == 1
    ensures r.result.StillWatching? ==> cmd.WatchCommand?
  {
    var welcome := if cmd.NoCommand? then [Printed(""), Printed(Welcome), Printed("")] else [];
    if !env.manifestPresent then
      Attempt(Exited(1), welcome + [Printed(env.executable + NotInDirectory), Printed(TryDirectory)])
    else if !env.rustcPresent then
      Attempt(Exited(1), welcome + NoRustc)
    else
      var r := Dispatch(cmd, env, verbose);
      Attempt(r.result, welcome + r.log)
  }

  /** `hint` on a known name prints exactly that entry's hint and one newline, and exits 0. */
  lemma HintPrintsExactlyHint(env: Environment, name: string, verbose: bool)
    requires env.manifestPresent && env.rustcPresent
    requires exists a :: a in env.algos && a.name == name
    ensures var r := Main(HintCommand(name), env, verbose);
            r.result == Exited(0) && Stdout(r.log) == FindByName(env.algos, name).value.hint + "\n"
            && !exists a :: Touches(r.log, a)
  {
    var found := FindByName(env.algos, name);
    assert found.Some?;
    var r := Main(HintCommand(name), env, verbose);
    assert r == Attempt(Exited(0), [Printed(found.value.hint)]);
    StdoutLine(found.value.hint);
    forall a
      ensures !Touches(r.log, a)
    {
    }
  }

  /**
   * `run` and `hint` on a name no entry has print the not-found message,
   * touch nothing and exit 1.
   */
  lemma UnknownNameExits1(env: Environment, cmd: Command, verbose: bool)
    requires env.manifestPresent && env.rustcPresent
    requires (cmd.RunCommand? || cmd.HintCommand?) && forall a :: a in env.algos ==> a.name != cmd.name
    ensures Main(cmd, env, verbose) == Attempt(Exited(1), [Printed(NotFound)])
  {
  }

  /**
   * `run` on a known name exits 0 exactly when that entry compiles and its
   * artifact runs successfully; its completion state plays no part.
   */
  lemma RunExitCode(env: Environment, name: string, verbose: bool)
    requires env.manifestPresent && env.rustcPresent
    requires FindByName(env.algos, name).Some?
    ensures var a := FindByName(env.algos, name).value;
            Main(RunCommand(name), env, verbose).result == Exited(0)
            <==> env.tc.compiles(a).Ok? && env.tc.runs(a).Ok?
  {
  }

  /** `verify` exits 0 exactly when every entry of the curriculum passes its step. */
  lemma VerifyExitCode(env: Environment, verbose: bool)
    requires env.manifestPresent && env.rustcPresent
    ensures Main(VerifyCommand, env, verbose).result == Exited(0)
            <==> forall a :: a in env.algos ==> Verify.Passes(env.tc, a)
  {
  }

  /** A watcher that cannot be set up makes `watch` print its error and exit 1, verifying nothing. */
  lemma WatchSetupFailureExits1(env: Environment, verbose: bool)
    requires env.manifestPresent && env.rustcPresent && env.watcher.Err?
    ensures var r := Main(WatchCommand, env, verbose);
            r.result == Exited(1) && forall e :: e in r.log ==> e.Printed?
  {
  }

  /** When the first pass succeeds, `watch` exits 0 and ends with the completion banner. */
  lemma WatchCompletesAtOnce(env: Environment, verbose: bool)
    requires env.manifestPresent && env.rustcPresent && env.watcher.Ok?
    requires forall a :: a in env.algos ==> Verify.Passes(env.tc, a)
    ensures var r := Main(WatchCommand, env, verbose);
            r.result == Exited(0) && r.log[|r.log| - |Completed|..] == Completed
  {
    Watch.FirstPassSucceeds(env.tc, env.algos, verbose, env.inputs);
  }

  /**
   * Outside the curriculum's directory every subcommand exits 1 before
   * compiling, running or reading anything.
   */
  lemma MissingManifestExits1(cmd: Command, env: Environment, verbose: bool)
    requires !env.manifestPresent
    ensures var r := Main(cmd, env, verbose);
            r.result == Exited(1) && Stdout(r.log[|r.log| - 1..]) == TryDirectory + "\n"
  {
    var r := Main(cmd, env, verbose);
    var last := r.log[|r.log| - 1..];
    assert last[..|last| - 1] == [];
  }
}
