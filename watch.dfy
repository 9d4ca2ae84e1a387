/**
 * `watch`: one verification pass over the whole curriculum, then, while some
 * entry is unfinished, a loop that re-verifies from the changed file on each
 * relevant file event, next to a shell that answers `hint` and `clear`.
 *
 * The watcher thread, the shell thread and the channel between them are
 * linearised into one sequence of inputs: each input is either a message
 * received from the watcher channel or a line read by the shell. The hint
 * shared between the two threads through a mutex is one `HintSlot` object.
 */
module Watch {
  import opened Outcomes
  import opened Algorithms
  import opened Paths
  import Verify

  /** `clear_screen`: the terminal reset sequence. */
  const ResetScreen: string := "\U{001B}c"

  /** What the shell's `clear` command prints: erase the display and home the cursor. */
  const EraseDisplay: string := "\U{001B}[2J\U{001B}[1;1H"

  /** The line the shell prints when it starts. */
  const ShellBanner: string := "Type 'hint' to get help or 'clear' to clear the screen"

  /** The `Debug` rendering of the channel's receive error. */
  const RecvErrorText: string := "RecvError"

  /** `char::is_whitespace`: the characters with the Unicode `White_Space` property. */
  predicate IsWhitespace(c: char)
  {
    c == ' ' || '\t' <= c <= '\r' || c == '\U{0085}' || c == '\U{00A0}' || c == '\U{1680}'
    || '\U{2000}' <= c <= '\U{200A}' || c == '\U{2028}' || c == '\U{2029}' || c == '\U{202F}'
    || c == '\U{205F}' || c == '\U{3000}'
  }

  /** Every character of `s` is whitespace. */
  predicate AllWhitespace(s: string)
  {
    forall i {:trigger IsWhitespace(s[i])} :: 0 <= i < |s| ==> IsWhitespace(s[i])
  }

  /**
   * The first position at or after `i` that does not hold whitespace, or
   * `|s|` when there is none.
   */
  function SkipSpace(s: string, i: nat): (k: nat)
    requires i <= |s|
    ensures i <= k <= |s|
    ensures forall j :: i <= j < k ==> IsWhitespace(s[j])
    ensures k < |s| ==> !IsWhitespace(s[k])
    decreases |s| - i
  {
    if i < |s| && IsWhitespace(s[i]) then SkipSpace(s, i + 1) else i
  }

  /**
   * The position just past the last character before `j`, and not before
   * `lo`, that does not hold whitespace, or `lo` when there is none.
   */
  function BackSpace(s: string, lo: nat, j: nat): (k: nat)
    requires lo <= j <= |s|
    ensures lo <= k <= j
    ensures forall m :: k <= m < j ==> IsWhitespace(s[m])
    ensures k > lo ==> !IsWhitespace(s[k - 1])
    decreases j
  {
    if j > lo && IsWhitespace(s[j - 1]) then BackSpace(s, lo, j - 1) else j
  }

  /** A position that meets the description of `SkipSpace` is the one it finds. */
  lemma {:induction false} SkipSpaceUnique(s: string, i: nat, k: nat)
    requires i <= k <= |s|
    requires forall j :: i <= j < k ==> IsWhitespace(s[j])
    requires k < |s| ==> !IsWhitespace(s[k])
    ensures SkipSpace(s, i) == k
    decreases k - i
  {
    if i < k {
      SkipSpaceUnique(s, i + 1, k);
    }
  }

  /** A position that meets the description of `BackSpace` is the one it finds. */
  lemma {:induction false} BackSpaceUnique(s: string, lo: nat, j: nat, k: nat)
    requires lo <= k <= j <= |s|
    requires forall m :: k <= m < j ==> IsWhitespace(s[m])
    requires k > lo ==> !IsWhitespace(s[k - 1])
    ensures BackSpace(s, lo, j) == k
    decreases j - k
  {
    if k < j {
      BackSpaceUnique(s, lo, j - 1, k);
    }
  }

  /**
   * `str::trim`: `s` without its leading and trailing whitespace. What is
   * kept is one contiguous piece of `s` that neither starts nor ends with
   * whitespace, and everything cut off on either side of it is whitespace.
   */
  function Trim(s: string): (r: string)
    ensures var lo := SkipSpace(s, 0);
            lo + |r| <= |s| && r == s[lo..lo + |r|]
            && (forall j :: 0 <= j < lo ==> IsWhitespace(s[j]))
            && (forall j :: lo + |r| <= j < |s| ==> IsWhitespace(s[j]))
    ensures |r| > 0 ==> !IsWhitespace(r[0]) && !IsWhitespace(r[|r| - 1])
  {
    var lo := SkipSpace(s, 0);
    s[lo..BackSpace(s, lo, |s|)]
  }

  /** `s` sits at position `b` of `x`, with only whitespace around it. */
  predicate PaddedAt(x: string, b: nat, s: string)
  {
    b + |s| <= |x|
    && (forall m :: 0 <= m < |s| ==> x[b + m] == s[m])
    && (forall j :: 0 <= j < b ==> IsWhitespace(x[j]))
    && (forall j :: b + |s| <= j < |x| ==> IsWhitespace(x[j]))
  }

  /** Where trimming starts in a padded string. */
  lemma SkipPadded(x: string, b: nat, s: string)
    requires PaddedAt(x, b, s)
    ensures SkipSpace(s, 0) < |s| ==> SkipSpace(x, 0) == b + SkipSpace(s, 0)
    ensures SkipSpace(s, 0) == |s| ==> SkipSpace(x, 0) == |x|
  {
    var lo := SkipSpace(s, 0);
    forall j | b <= j < b + lo
      ensures IsWhitespace(x[j])
    {
      assert x[b + (j - b)] == s[j - b];
    }
    if lo < |s| {
      assert x[b + lo] == s[lo];
      SkipSpaceUnique(x, 0, b + lo);
    } else {
      SkipSpaceUnique(x, 0, |x|);
    }
  }

  /** Where trimming ends in a padded string that is not all whitespace. */
  lemma BackPadded(x: string, b: nat, s: string, lo: nat)
    requires PaddedAt(x, b, s) && lo < |s| && !IsWhitespace(s[lo])
    ensures BackSpace(x, b + lo, |x|) == b + BackSpace(s, lo, |s|)
  {
    var hi := BackSpace(s, lo, |s|);
    forall j | b + hi <= j < b + |s|
      ensures IsWhitespace(x[j])
    {
      assert x[b + (j - b)] == s[j - b];
    }
    assert x[b + (hi - 1)] == s[hi - 1];
    BackSpaceUnique(x, b + lo, |x|, b + hi);
  }

  /** Trimming a padded string gives what trimming the string itself gives. */
  lemma TrimPadded(x: string, b: nat, s: string)
    requires PaddedAt(x, b, s)
    ensures Trim(x) == Trim(s)
  {
    var lo := SkipSpace(s, 0);
    SkipPadded(x, b, s);
    if lo < |s| {
      var hi := BackSpace(s, lo, |s|);
      BackPadded(x, b, s, lo);
      PaddedSlice(x, b, s, lo, hi);
    }
  }

  /** A piece of a padded string is the same piece of the string itself. */
  lemma PaddedSlice(x: string, b: nat, s: string, lo: nat, hi: nat)
    requires PaddedAt(x, b, s) && lo <= hi <= |s|
    ensures x[b + lo..b + hi] == s[lo..hi]
  {
    forall m | 0 <= m < hi - lo
      ensures x[b + lo..b + hi][m] == s[lo..hi][m]
    {
      assert x[b + lo..b + hi][m] == x[b + (lo + m)];
    }
  }

  /** Trimming ignores whitespace padding on either side. */
  lemma TrimIgnoresPadding(before: string, s: string, after: string)
    requires AllWhitespace(before) && AllWhitespace(after)
    ensures Trim(before + s + after) == Trim(s)
  {
    var x := before + s + after;
    forall j | 0 <= j < |before|
      ensures IsWhitespace(x[j])
    {
      assert x[j] == before[j];
    }
    forall j | |before| + |s| <= j < |x|
      ensures IsWhitespace(x[j])
    {
      assert x[j] == after[j - |before| - |s|];
    }
    TrimPadded(x, |before|, s);
  }

  /**
   * The shell's answer to one line read from standard input: `hint` shows
   * the current hint (nothing when there is none), `clear` clears the
   * screen, anything else is reported as an unknown command; the line is
   * trimmed first.
   */
  function ShellReply(hint: Option<string>, line: string): (shown: seq<Effect>)
    ensures |shown| <= 1 && forall e :: e in shown ==> e.Printed?
    ensures shown == [] <==> Trim(line) == "hint" && hint.None?
    ensures Trim(line) == "hint" && hint.Some? ==> shown == [Printed(hint.value)]
    ensures Trim(line) == "clear" ==> shown == [Printed(EraseDisplay)]
  {
    var command := Trim(line);
    if command == "hint" then
      if hint.Some? then [Printed(hint.value)] else []
    else if command == "clear" then [Printed(EraseDisplay)]
    else [Printed("unknown command: " + command)]
  }

  /** Whitespace typed around a command does not change the shell's answer. */
  lemma ShellIgnoresPadding(hint: Option<string>, before: string, line: string, after: string)
    requires AllWhitespace(before) && AllWhitespace(after)
    ensures ShellReply(hint, before + line + after) == ShellReply(hint, line)
  {
    TrimIgnoresPadding(before, line, after);
  }

  /** An input the shell does not recognise is echoed back, trimmed, as unknown. */
  lemma ShellUnknownCommand(hint: Option<string>, line: string)
    requires Trim(line) != "hint" && Trim(line) != "clear"
    ensures Stdout(ShellReply(hint, line)) == "unknown command: " + Trim(line) + "\n"
  {
    var shown := ShellReply(hint, line);
    assert shown[..|shown| - 1] == [];
  }

  /** The hint shared by the watch loop and the shell (`Arc<Mutex<Option<String>>>`). */
  class HintSlot {
    var hint: Option<string>

    constructor (initial: Option<string>)
      ensures hint == initial
    {
      hint := initial;
    }

    /** Overwrites the hint; the one stored before is gone. */
    method Store(h: Option<string>)
      modifies this
      ensures hint == h
    {
      hint := h;
    }
  }

  /** Where the watch stands. */
  datatype Phase =
    | Watching          // some entry is unfinished; the loop waits for the next input
    | AllDone           // a pass succeeded; `watch` has returned `Ok`
    | Failed(error: string)  // the watcher could not be set up; `watch` has returned `Err`

  /**
   * One input of the linearised run: a file event received on the channel
   * (with whether its path still exists and the toolchain's verdicts on the
   * edited sources at that moment), a receive error, a line read by the
   * shell, or a read error of the shell.
   */
  datatype Input =
    | FsEvent(event: Event, present: bool, tc: Toolchain)
    | RecvError
    | Line(text: string)
    | ReadError(message: string)

  /** The state of a watch: its phase, the hint slot, and all effects so far. */
  datatype Session = Session(phase: Phase, hint: Option<string>, log: seq<Effect>)

  /**
   * The start of `watch`: a watcher that cannot be created or registered
   * ends it with that error; otherwise the screen is reset and the whole
   * curriculum is verified. Success ends the watch at once; a failure fills
   * the hint slot with the failing entry's hint and starts the shell.
   */
  function Begin(setup: Result<(), string>, tc: Toolchain, algos: seq<Algorithm>, verbose: bool): (s: Session)
    ensures setup.Err? ==> s == Session(Failed(setup.error), None, [])
    ensures setup.Ok? ==> (s.phase == AllDone <==> Verify.VerifyRun(tc, algos, verbose).result.Ok?)
    ensures s.phase == Watching ==>
      s.hint == Some(Verify.VerifyRun(tc, algos, verbose).result.error.hint) && |s.log| > 0 && s.log[|s.log| - 1] == Printed(ShellBanner)
    ensures s.phase.Failed? <==> setup.Err?
  {
    if setup.Err? then Session(Failed(setup.error), None, [])
    else
      var pass := Verify.VerifyRun(tc, algos, verbose);
      var log := [Printed(ResetScreen)] + pass.log;
      match pass.result
      case Ok(_) => Session(AllDone, None, log)
      case Err(a) => Session(Watching, Some(a.hint), log + [Printed(ShellBanner)])
  }

  /**
   * A pass triggered by a change to `file`: the screen is reset and the
   * curriculum is verified from the changed file's entry on. Success ends
   * the watch; a failure overwrites the hint with the failing entry's.
   */
  function Repass(s: Session, file: Path, tc: Toolchain, algos: seq<Algorithm>, verbose: bool): (t: Session)
    ensures var pass := Verify.VerifyRun(tc, ResumeFrom(algos, file), verbose);
            t.log == s.log + ([Printed(ResetScreen)] + pass.log)
            && (t.phase == AllDone <==> pass.result.Ok?)
            && (pass.result.Ok? ==> t.hint == s.hint)
            && (pass.result.Err? ==> t.phase == Watching && t.hint == Some(pass.result.error.hint))
  {
    var pass := Verify.VerifyRun(tc, ResumeFrom(algos, file), verbose);
    var log := s.log + ([Printed(ResetScreen)] + pass.log);
    if pass.result.Ok? then Session(AllDone, s.hint, log)
    else Session(Watching, Some(pass.result.error.hint), log)
  }

  /**
   * What an input that starts no pass prints: a receive error is reported,
   * a shell line gets its answer, a read error of the shell is reported, and
   * a file event is ignored.
   */
  function Reply(hint: Option<string>, input: Input): (shown: seq<Effect>)
    ensures forall e :: e in shown ==> e.Printed?
    ensures input.FsEvent? ==> shown == []
  {
    match input
    case FsEvent(_, _, _) => []
    case RecvError => [Printed("watch error: " + RecvErrorText)]
    case Line(text) => ShellReply(hint, text)
    case ReadError(message) => [Printed("error reading command: " + message)]
  }

  /**
   * One turn of the loop (or one line of the shell) while watching. A file
   * event that passes the filter starts a new pass; any other input leaves
   * the phase and the hint alone and only prints its reply. Once the watch
   * has ended, nothing changes it any more.
   */
  function React(s: Session, input: Input, algos: seq<Algorithm>, verbose: bool): (t: Session)
    ensures s.phase != Watching ==> t == s
    ensures s.phase == Watching && t.phase != Watching ==> t.phase == AllDone
    ensures s.hint.Some? ==> t.hint.Some?
    ensures |s.log| <= |t.log| && t.log[..|s.log|] == s.log
  {
    if s.phase != Watching then s
    else if input.FsEvent? && Trigger(input.event, input.present).Some? then
      var t := Repass(s, Trigger(input.event, input.present).value, input.tc, algos, verbose);
      assert t.log[..|s.log|] == s.log;
      t
    else
      var log := s.log + Reply(s.hint, input);
      assert log[..|s.log|] == s.log;
      s.(log := log)
  }

  /** How a watch reacts to one input. */
  type Reaction = (Session, Input) -> Session

  /** The reaction of `watch` over a given curriculum. */
  function Reacting(algos: seq<Algorithm>, verbose: bool): Reaction
  {
    (s, input) => React(s, input, algos, verbose)
  }

  /**
   * `react` is the reaction of `watch` over the curriculum `algos`. The
   * quantifier fires only where `React` itself is mentioned, which keeps a
   * loop over an abstract reaction from unfolding every pass it might run.
   */
  ghost predicate Reacts(react: Reaction, algos: seq<Algorithm>, verbose: bool)
  {
    forall s, input {:trigger React(s, input, algos, verbose)} :: react(s, input) == React(s, input, algos, verbose)
  }

  /** `Reacting` is that reaction. */
  lemma ReactingReacts(algos: seq<Algorithm>, verbose: bool)
    ensures Reacts(Reacting(algos, verbose), algos, verbose)
  {
  }

  /**
   * The watch fed with `inputs` from `s` on: the session when it stops
   * watching or runs out of inputs, and how many inputs it consumed.
   */
  function Feed(react: Reaction, s: Session, inputs: seq<Input>): (r: (Session, nat))
    ensures r.1 <= |inputs|
    ensures s.phase != Watching ==> r == (s, 0)
    ensures r.0.phase == Watching ==> r.1 == |inputs|
    decreases |inputs|
  {
    if |inputs| == 0 || s.phase != Watching then (s, 0)
    else
      var r := Feed(react, react(s, inputs[0]), inputs[1..]);
      (r.0, r.1 + 1)
  }

  /**
   * While watching, the hint slot stays filled, and the only way the watch
   * stops is a successful pass, after at least one input.
   */
  lemma {:induction false} FeedKeepsHint(algos: seq<Algorithm>, verbose: bool, s: Session, inputs: seq<Input>)
    requires s.phase == Watching && s.hint.Some?
    ensures var r := Feed(Reacting(algos, verbose), s, inputs);
            r.0.hint.Some? && (r.0.phase != Watching ==> r.0.phase == AllDone && r.1 > 0)
    decreases |inputs|
  {
    if |inputs| > 0 {
      var t := React(s, inputs[0], algos, verbose);
      if t.phase == Watching {
        FeedKeepsHint(algos, verbose, t, inputs[1..]);
      }
    }
  }

  /** A whole watch: its start, then the inputs while it keeps watching. */
  function WatchSession(setup: Result<(), string>, tc: Toolchain, algos: seq<Algorithm>, verbose: bool, inputs: seq<Input>): (r: (Session, nat))
    ensures r.0.phase == Watching ==> r.0.hint.Some? && r.1 == |inputs|
    ensures r.0.phase.Failed? <==> setup.Err?
    ensures r.0.phase.Failed? ==> r == (Session(Failed(setup.error), None, []), 0)
  {
    var s := Begin(setup, tc, algos, verbose);
    assert s.phase == Watching ==>
      var r := Feed(Reacting(algos, verbose), s, inputs);
      r.0.hint.Some? && (r.0.phase != Watching ==> r.0.phase == AllDone) by {
      if s.phase == Watching {
        FeedKeepsHint(algos, verbose, s, inputs);
      }
    }
    Feed(Reacting(algos, verbose), s, inputs)
  }

  /**
   * When the first pass over the whole curriculum succeeds, `watch` returns
   * `Ok` at once: the shell is never started and no input is consumed.
   */
  lemma FirstPassSucceeds(tc: Toolchain, algos: seq<Algorithm>, verbose: bool, inputs: seq<Input>)
    requires Verify.VerifyRun(tc, algos, verbose).result.Ok?
    ensures WatchSession(Ok(()), tc, algos, verbose, inputs) ==
      (Session(AllDone, None, [Printed(ResetScreen)] + Verify.VerifyRun(tc, algos, verbose).log), 0)
  {
  }

  /** An event that does not pass the filter leaves the session exactly as it was. */
  lemma IgnoredEventChangesNothing(s: Session, event: Event, present: bool, tc: Toolchain, algos: seq<Algorithm>, verbose: bool)
    requires s.phase == Watching && !((event.Create? || event.Write? || event.Chmod?) && NamesRustSource(event.path) && present)
    ensures React(s, FsEvent(event, present, tc), algos, verbose) == s
  {
  }

  /**
   * A relevant event re-verifies only the suffix of the curriculum that
   * starts at the first entry the changed file matches: the entries before
   * it are neither compiled, run nor consulted.
   */
  lemma ReverifiesFromChangedEntry(s: Session, event: Event, present: bool, tc: Toolchain, algos: seq<Algorithm>, verbose: bool)
    requires s.phase == Watching && Trigger(event, present).Some?
    ensures var pending := ResumeFrom(algos, event.path);
            var t := React(s, FsEvent(event, present, tc), algos, verbose);
            t.log == s.log + ([Printed(ResetScreen)] + Verify.VerifyRun(tc, pending, verbose).log)
            && TouchesOnly(t.log[|s.log|..], pending)
  {
    var pending := ResumeFrom(algos, event.path);
    var pass := Verify.VerifyRun(tc, pending, verbose);
    Verify.VerifyTouchesOnlyItsInput(tc, pending, verbose);
    var t := React(s, FsEvent(event, present, tc), algos, verbose);
    assert t.log[|s.log|..] == [Printed(ResetScreen)] + pass.log;
  }

  /**
   * When the changed file matches no entry, the pass has nothing to verify,
   * succeeds, and the watch ends as if everything were done.
   */
  lemma UnmatchedFileEndsWatch(s: Session, event: Event, present: bool, tc: Toolchain, algos: seq<Algorithm>, verbose: bool)
    requires s.phase == Watching && Trigger(event, present).Some?
    requires forall a :: a in algos ==> !EndsWith(event.path, a.path)
    ensures React(s, FsEvent(event, present, tc), algos, verbose).phase == AllDone
  {
    ResumeFromNothing(algos, event.path);
  }

  /**
   * After a failed pass the slot holds exactly the hint of the entry that
   * failed, whatever it held before.
   */
  lemma FailedPassOverwritesHint(s: Session, event: Event, present: bool, tc: Toolchain, algos: seq<Algorithm>, verbose: bool)
    requires s.phase == Watching && Trigger(event, present).Some?
    requires Verify.VerifyRun(tc, ResumeFrom(algos, event.path), verbose).result.Err?
    ensures var t := React(s, FsEvent(event, present, tc), algos, verbose);
            t.phase == Watching
            && t.hint == Some(Verify.VerifyRun(tc, ResumeFrom(algos, event.path), verbose).result.error.hint)
  {
  }

  /** A receive error is printed and the watch goes on with the same hint. */
  lemma RecvErrorContinues(s: Session, algos: seq<Algorithm>, verbose: bool)
    requires s.phase == Watching
    ensures React(s, RecvError, algos, verbose) ==
      Session(Watching, s.hint, s.log + [Printed("watch error: " + RecvErrorText)])
  {
  }

  /** Shell lines never end the watch nor change the hint. */
  lemma ShellLeavesWatchAlone(s: Session, line: string, algos: seq<Algorithm>, verbose: bool)
    requires s.phase == Watching
    ensures React(s, Line(line), algos, verbose).phase == Watching
    ensures React(s, Line(line), algos, verbose).hint == s.hint
  {
  }

  /** `Feed` resumed after `i` inputs, having reached session `s`. */
  ghost predicate FedUpTo(react: Reaction, start: Session, inputs: seq<Input>, i: nat, s: Session)
    requires i <= |inputs|
  {
    var rest := Feed(react, s, inputs[i..]);
    Feed(react, start, inputs) == (rest.0, rest.1 + i)
  }

  /** One turn of the loop of `watch`. */
  lemma FeedAdvance(react: Reaction, start: Session, inputs: seq<Input>, i: nat, s: Session)
    requires i < |inputs| && s.phase == Watching && FedUpTo(react, start, inputs, i, s)
    ensures FedUpTo(react, start, inputs, i + 1, react(s, inputs[i]))
  {
    assert inputs[i..][0] == inputs[i];
    assert inputs[i..][1..] == inputs[i + 1..];
  }

  /**
   * One input handled by the running watch: a relevant file event starts a
   * pass over the suffix of the curriculum from the changed file and, if it
   * fails, overwrites the hint in the slot; other inputs print their reply.
   */
  method Handle(ghost react: Reaction, slot: HintSlot, log: seq<Effect>, input: Input, algos: seq<Algorithm>, verbose: bool)
    returns (phase: Phase, log': seq<Effect>)
    requires Reacts(react, algos, verbose)
    modifies slot
    ensures Session(phase, slot.hint, log') == react(Session(Watching, old(slot.hint), log), input)
  {
    ghost var before := Session(Watching, slot.hint, log);
    ghost var after := React(before, input, algos, verbose);
    phase := Watching;
    if input.FsEvent? && Trigger(input.event, input.present).Some? {
      var file := Trigger(input.event, input.present).value;
      var pending := ResumeFrom(algos, file);
      var result, passLog := Verify.Verify(input.tc, pending, verbose);
      log' := log + ([Printed(ResetScreen)] + passLog);
      if result.Ok? {
        phase := AllDone;
      } else {
        slot.Store(Some(result.error.hint));
      }
      assert Session(phase, slot.hint, log') == Repass(before, file, input.tc, algos, verbose);
    } else {
      log' := log + Reply(slot.hint, input);
    }
  }

  /**
   * The loop of `watch`, once the shell runs: inputs are handled one by one
   * until a pass succeeds or the inputs run out.
   */
  method WatchLoop(ghost react: Reaction, slot: HintSlot, log0: seq<Effect>, algos: seq<Algorithm>, verbose: bool, inputs: seq<Input>)
    returns (phase: Phase, log: seq<Effect>, consumed: nat)
    requires Reacts(react, algos, verbose)
    modifies slot
    ensures (Session(phase, slot.hint, log), consumed) ==
      Feed(react, Session(Watching, old(slot.hint), log0), inputs)
  {
    ghost var start := Session(Watching, slot.hint, log0);
    phase, log, consumed := Watching, log0, 0;
    assert inputs[0..] == inputs;
    while consumed < |inputs| && phase == Watching
      invariant consumed <= |inputs|
      invariant FedUpTo(react, start, inputs, consumed, Session(phase, slot.hint, log))
      decreases |inputs| - consumed
    {
      FeedAdvance(react, start, inputs, consumed, Session(phase, slot.hint, log));
      phase, log := Handle(react, slot, log, inputs[consumed], algos, verbose);
      consumed := consumed + 1;
    }
    assert consumed == |inputs| ==> inputs[consumed..] == [];
  }

  /**
   * `watch`, run on a finite sequence of inputs: it returns the phase it
   * ended in (`Watching` if the inputs ran out first), the hint in the
   * slot, its effects and the number of inputs it consumed.
   */
  method Watch(setup: Result<(), string>, tc: Toolchain, algos: seq<Algorithm>, verbose: bool, inputs: seq<Input>)
    returns (phase: Phase, hint: Option<string>, log: seq<Effect>, consumed: nat)
    ensures (Session(phase, hint, log), consumed) == WatchSession(setup, tc, algos, verbose, inputs)
  {
    if setup.Err? {
      return Failed(setup.error), None, [], 0;
    }
    var first, passLog := Verify.Verify(tc, algos, verbose);
    log := [Printed(ResetScreen)] + passLog;
    if first.Ok? {
      return AllDone, None, log, 0;
    }
    var slot := new HintSlot(Some(first.error.hint));
    log := log + [Printed(ShellBanner)];
    assert Session(Watching, slot.hint, log) == Begin(setup, tc, algos, verbose);
    ReactingReacts(algos, verbose);
    phase, log, consumed := WatchLoop(Reacting(algos, verbose), slot, log, algos, verbose, inputs);
    hint := slot.hint;
  }
}
