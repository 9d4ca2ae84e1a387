/**
 * The entities the runner works on: the curriculum entries read from
 * `info.toml`, the outcome of compiling and running one of them, and the
 * effects the runner has on the outside world.
 *
 * Compiling with `rustc`, running the artifact and scanning the source for
 * the "I AM NOT DONE" marker happen outside the model; a `Toolchain` value
 * stands for them, as three functions of the entry.
 */
module Algorithms {
  import opened Outcomes

  /** How an entry is checked: as a test harness, as a program, or with clippy. */
  datatype Mode = Test | Compile | Clippy

  /** Whether the entry's source still carries the "I AM NOT DONE" marker. */
  datatype State = Done | Pending

  /** A path as its list of components; `Path::ends_with` compares these. */
  type Path = seq<string>

  /** One curriculum entry of `info.toml`. */
  datatype Algorithm = Algorithm(name: string, path: Path, mode: Mode, hint: string)

  /** What a compiler or program run wrote. */
  datatype Output = Output(stdout: string, stderr: string)

  /**
   * The oracles: `compiles(a)` is `rustc`'s verdict on the entry (with its
   * output when it fails), `runs(a)` the verdict of running the compiled
   * artifact, `state(a)` the marker scan of its source.
   */
  datatype Toolchain = Toolchain(
    compiles: Algorithm -> Result<(), Output>,
    runs: Algorithm -> Result<Output, Output>,
    state: Algorithm -> State)

  /**
   * What the runner does to the world, in order: invoking the compiler on an
   * entry, running its artifact, reading its completion state, or printing
   * one line (the text, then a newline) on standard output.
   */
  datatype Effect =
    | Compiled(subject: Algorithm)
    | Ran(subject: Algorithm)
    | Consulted(subject: Algorithm)
    | Printed(text: string)

  /** A computed value together with the effects that produced it. */
  datatype Attempt<+T> = Attempt(result: T, log: seq<Effect>)

  /** Whether a log invokes the compiler, runs an artifact or reads the state of `a`. */
  predicate Touches(log: seq<Effect>, a: Algorithm)
  {
    exists e :: e in log && !e.Printed? && e.subject == a
  }

  /** Every entry the log touches is in `among`. */
  predicate TouchesOnly(log: seq<Effect>, among: seq<Algorithm>)
  {
    forall e :: e in log && !e.Printed? ==> e.subject in among
  }

  /** What a log writes on standard output: every printed line with its newline. */
  function Stdout(log: seq<Effect>): (out: string)
    ensures |log| == 0 ==> out == ""
    decreases |log|
  {
    if |log| == 0 then ""
    else Stdout(log[..|log| - 1]) + (if log[|log| - 1].Printed? then log[|log| - 1].text + "\n" else "")
  }

  /** Standard output of two logs run one after the other. */
  lemma {:induction false} StdoutAppend(l1: seq<Effect>, l2: seq<Effect>)
    ensures Stdout(l1 + l2) == Stdout(l1) + Stdout(l2)
    decreases |l2|
  {
    if |l2| == 0 {
      assert l1 + l2 == l1;
    } else {
      var init := l2[..|l2| - 1];
      StdoutAppend(l1, init);
      var both := l1 + l2;
      assert both[..|both| - 1] == l1 + init;
      assert both[|both| - 1] == l2[|l2| - 1];
    }
  }

  /** A log that prints nothing writes nothing on standard output. */
  lemma {:induction false} StdoutSilent(log: seq<Effect>)
    requires forall e :: e in log ==> !e.Printed?
    ensures Stdout(log) == ""
    decreases |log|
  {
    if |log| > 0 {
      StdoutSilent(log[..|log| - 1]);
    }
  }

  /** A log of one printed line writes that line and its newline. */
  lemma StdoutLine(text: string)
    ensures Stdout([Printed(text)]) == text + "\n"
  {
    assert [Printed(text)][..0] == [];
  }

  /** Effects that print nothing, followed by a log, write what that log writes. */
  lemma StdoutAfterSilent(quiet: seq<Effect>, log: seq<Effect>)
    requires forall e :: e in quiet ==> !e.Printed?
    ensures Stdout(quiet + log) == Stdout(log)
  {
    StdoutSilent(quiet);
    StdoutAppend(quiet, log);
  }

  /** Effects that print nothing, followed by one printed line, write exactly that line. */
  lemma StdoutQuietLine(quiet: seq<Effect>, text: string)
    requires forall e :: e in quiet ==> !e.Printed?
    ensures Stdout(quiet + [Printed(text)]) == text + "\n"
  {
    StdoutAfterSilent(quiet, [Printed(text)]);
    StdoutLine(text);
  }

  /** Printed lines between effects that print nothing write just those lines. */
  lemma StdoutBetweenSilent(before: seq<Effect>, shown: seq<Effect>, after: seq<Effect>)
    requires forall e :: e in before ==> !e.Printed?
    requires forall e :: e in after ==> !e.Printed?
    ensures Stdout(before + shown + after) == Stdout(shown)
  {
    StdoutAfterSilent(before, shown);
    StdoutSilent(after);
    StdoutAppend(before + shown, after);
  }
}
