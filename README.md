# A verified model of the `algo` exercise runner

`algo` is a command-line runner for a curriculum of Rust exercises
("algorithms"). The curriculum is listed in `info.toml`; each entry has a
name, a source path, a mode (`test`, `compile` or `clippy`) and a hint. The
runner offers four subcommands:

- `run <name>` compiles and runs one entry.
- `hint <name>` prints an entry's hint.
- `verify` walks the curriculum in order and stops at the first entry that
  fails or still carries the `I AM NOT DONE` marker.
- `watch` verifies once, then re-verifies from the changed entry on every
  relevant file event. Meanwhile a small shell answers `hint` and `clear`.

Two of the exercises' reference solutions are modelled as well: quick sort
and merge sort over slices.

This project models all of that in Dafny and proves what the code promises.

- `outcomes.dfy`: `Option` and `Result`.
- `algorithms.dfy`: the entities.
  - `Algorithm` is a curriculum entry.
  - `Toolchain` holds the oracles that stand for `rustc`, for running the
    artifact and for scanning the marker.
  - `Effect` is one thing the runner does to the world: compiling, running,
    reading the state, or printing a line.
  - `Attempt` pairs a result with its effect log.
  - `Stdout` is the text a log writes.
- `verify.dfy`: `src/verify.rs`.
  - Each per-mode step is a function that returns its result and its effects.
  - The walk over the curriculum is `Walk`. It is generic over the step, so
    its lemmas hold for any step.
  - The `for` loop with its early return is the method `Verify.Verify`,
    proved equal to `VerifyRun`.
- `run.dfy`: `src/run.rs`, the single-entry `run`.
- `paths.dfy`: the event filter of `watch`, with Rust's `Path::extension`
  rules, and the suffix selection (`skip_while` with `Path::ends_with`).
- `watch.dfy`: `watch` and its shell.
  - `str::trim` and the shell's command dispatch.
  - The hint slot is a class whose method overwrites its field.
  - `Begin` and `React` are one step each of the state machine
    `Watching → AllDone`, with `Failed` when the watcher cannot be set up.
    `Feed` is that machine over a sequence of inputs.
  - The loop of `watch` is the method `Watch.WatchLoop`, proved equal to
    `Feed`.
- `cli.dfy`: `main`.
  - The welcome banner.
  - The checks for `info.toml` and `rustc`.
  - The name lookup of `run` and `hint`.
  - The exit status of every subcommand.
- `quick_sort.dfy`: in-place quick sort on an `array<int>`, with the
  source's partition loop.
- `merge_sort.dfy`: merge sort on a range of an `array<int>`, with the
  source's `merge` as written, and the intended merge (see Findings).

## Model

| member | source | states |
|---|---|---|
| Verify.Compile | src/verify.rs:114-132 | the compiler is invoked exactly once; the result is `Ok` iff it compiles; a failure prints only the compiler's stderr |
| Verify.PromptForCompletion | src/verify.rs:134-180 | the entry's state is read first; the result is `true` iff the state is `Done`; something is printed only for a pending entry that has program output to show |
| Verify.CompileOnly | src/verify.rs:39-49 | `Err` iff compilation fails; `Ok(true)` iff it compiles and is done; the artifact is never run; the state is read iff it compiled |
| Verify.CompileAndRunInteractively | src/verify.rs:52-76 | `Err` iff compile or run fails; `Ok(true)` iff both succeed and the entry is done; it runs iff it compiled; the state is read iff the run succeeded |
| Verify.CompileAndTest | src/verify.rs:80-110 | `Err` iff compile or harness fails; `Ok(true)` iff both pass and, in interactive mode, the entry is done; the state is read only after a passing harness in interactive mode |
| Verify.Test | src/verify.rs:33-36 | `Ok` iff the harness compiles and passes; the completion state is never read |
| Verify.Step | src/verify.rs:15-20 | a step lets the walk go on iff the entry compiles, runs unless it is a clippy entry, and is done; only clippy entries are never run; a step touches only its own entry |
| Verify.CompileFailureShortCircuits | src/verify.rs:114-131 | after a compile failure the step's whole effect is one compile and the compiler's stderr |
| Verify.RunFailureSkipsPrompt | src/verify.rs:63-70 | a failed program or harness run is `Err` and the completion state is never read |
| Verify.HarnessPassLog | src/verify.rs:80-101 | a passing harness compiles, runs, prints its stdout when `verbose`, and reads the state only in interactive mode, in that order |
| Verify.HarnessOutputOnlyWhenVerbose | src/verify.rs:89-99 | a passing harness writes its stdout iff `verbose` (`--nocapture`), and nothing else, whether the entry is finished or pending |
| Verify.HarnessFailureShowsOutput | src/verify.rs:101-108 | a failing harness writes exactly its stdout, in either run mode |
| Verify.PromptShowsOutput | src/verify.rs:134-180 | the prompt writes exactly the program output handed to it when the entry is pending, and nothing otherwise |
| Verify.RunInteractivelyShowsOutput | src/verify.rs:60-75 | a failing program writes exactly its stdout and then its stderr; a successful one writes its stdout, through the prompt, only when the entry is pending |
| Verify.TestIgnoresState | src/verify.rs:33-36 | the non-interactive test is the same whatever the completion state |
| Verify.PendingHalts | src/verify.rs:134-138 | an entry still marked pending stops the walk, even when it compiles and passes |
| Verify.Walk | src/verify.rs:14-24 | for any step, the walk is `Ok` iff every entry lets it go on; an `Err` names an entry of the input that stopped it |
| Verify.WalkStopsAtFirstFailure | src/verify.rs:14-22 | the walk returns the first stopping entry, and its effects are exactly those of the steps up to and including that entry |
| Verify.WalkAllPass | src/verify.rs:14-24 | when every entry passes, the walk is `Ok` and its effects are those of every step in order |
| Verify.FirstFailure | src/verify.rs:14-22 | the position of the first entry that stops the walk |
| Verify.TraceTouchesOnly | src/verify.rs:14-23 | the steps over a list of entries compile, run and read only those entries |
| Verify.VerifyRun | src/verify.rs:10-25 | `verify` is `Ok` iff every entry passes; an `Err` is an entry of the input that does not pass |
| Verify.VerifyStopsAtFirstFailure | src/verify.rs:20-22 | `verify` returns the first failing entry and touches nothing after it |
| Verify.VerifyAllPass | src/verify.rs:14-24 | when every entry passes, `verify` is `Ok` and has run every step in order |
| Verify.VerifyTouchesOnlyItsInput | src/verify.rs:14-23 | `verify` never compiles, runs or reads an entry outside the list it was given |
| Verify.Verify | src/verify.rs:10-25 | the loop with its early return computes exactly `VerifyRun`: the same result and the same effects |
| Run.CompileAndRun | src/run.rs:21-58 | `Ok` iff it compiles and runs; it runs iff it compiled; the completion state is never read; the first effect is the compile |
| Run.FailedRunShowsBothStreams | src/run.rs:50-55 | a program that compiles but fails is `Err` and writes exactly its stdout and then its stderr |
| Run.Run | src/run.rs:9-16 | for every mode, `Ok` iff the entry compiles and its artifact runs successfully; the completion state is never read |
| Run.RunIgnoresState | src/run.rs:9-16 | `run` is the same whatever the completion state |
| Run.CompileFailureNeverRuns | src/run.rs:26-37 | after a compile failure, the only effects are the compile and the compiler's stderr |
| Run.SuccessfulRunShowsOutput | src/run.rs:44-49 | a program or clippy entry that runs prints exactly its stdout |
| Run.ClippyRunsOnlyUnderRun | src/run.rs:13 | a compiling clippy entry is run by `run`, but not by a step of `verify` |
| Run.PassingEntryRuns | src/run.rs:9-16 | an entry other than a clippy entry that passes its `verify` step also succeeds under `run` |
| Paths.LastDot | src/main.rs:185 | the position of the last `.` in a name, and none iff the name has no `.` |
| Paths.Extension | src/main.rs:185 | `Path::extension`: none iff the path is empty, ends in `..`, or its last component has no `.` or only a leading one; otherwise the dot-free text after the last component's last `.` |
| Paths.RustExtension | src/main.rs:185 | the extension is `rs` iff the file name is a non-empty stem followed by `.rs` |
| Paths.Trigger | src/main.rs:183-200 | an event starts a pass iff it is a create, write or chmod of an existing `.rs` file; the file it names is the event's path |
| Paths.ResumeFrom | src/main.rs:187-189 | the pass covers a suffix of the curriculum; every entry skipped fails to match the changed file; the first entry kept matches it |
| Paths.ResumeFromNothing | src/main.rs:187-189 | the pass is empty iff no entry's path matches the changed file |
| Watch.SkipSpace | src/main.rs:145 | the first non-whitespace position at or after a start, with only whitespace before it |
| Watch.BackSpace | src/main.rs:145 | the position just past the last non-whitespace character in a range, with only whitespace after it |
| Watch.Trim | src/main.rs:145 | `trim` keeps one contiguous piece that neither starts nor ends with whitespace; everything cut off is whitespace |
| Watch.TrimIgnoresPadding | src/main.rs:145 | whitespace around a line never changes its trimmed form |
| Watch.ShellReply | src/main.rs:145-154 | the shell prints at most one line; it prints nothing iff the command is `hint` and the slot is empty; `hint` with a hint prints exactly that hint; `clear` prints exactly the erase-display sequence |
| Watch.ShellIgnoresPadding | src/main.rs:143-154 | whitespace typed around a command never changes the shell's answer |
| Watch.ShellUnknownCommand | src/main.rs:152-154 | any other command is echoed back, trimmed, after `unknown command: ` |
| Watch.HintSlot.constructor | src/main.rs:178 | the slot starts with the hint it is given |
| Watch.HintSlot.Store | src/main.rs:194-195 | storing overwrites the hint; nothing of the previous one is kept |
| Watch.Begin | src/main.rs:168-180 | a setup error ends the watch with that error and no effect; otherwise the first pass covers the whole curriculum, success ends the watch, and a failure puts the failing entry's hint in the slot and starts the shell |
| Watch.Repass | src/main.rs:186-197 | a triggered pass resets the screen and verifies the chosen suffix; success ends the watch with the hint unchanged; a failure keeps watching with the failing entry's hint |
| Watch.Reply | src/main.rs:143-202 | inputs that start no pass only print; file events that pass the filter print nothing here |
| Watch.React | src/main.rs:181-204 | one input: nothing changes once the watch has stopped; a stop is always `AllDone`; a filled slot stays filled; the log only grows |
| Watch.Feed | src/main.rs:181-204 | for any reaction, the run consumes at most its inputs, consumes none once stopped, and consumes all of them if it is still watching |
| Watch.FeedKeepsHint | src/main.rs:178-196 | while watching the slot is always `Some`, and the watch only stops on a successful pass after at least one input |
| Watch.WatchSession | src/main.rs:161-205 | `watch` fails iff the watcher cannot be set up, and then it has no effect; if it is still watching, the slot is filled and every input was consumed |
| Watch.FirstPassSucceeds | src/main.rs:176-177 | if the first pass succeeds, `watch` returns at once with no input consumed and no shell started |
| Watch.IgnoredEventChangesNothing | src/main.rs:184-200 | an event outside the filter leaves the whole session unchanged |
| Watch.ReverifiesFromChangedEntry | src/main.rs:186-191 | a relevant event resets the screen and verifies the suffix from the changed entry; nothing before that entry is touched |
| Watch.UnmatchedFileEndsWatch | src/main.rs:187-192 | a relevant event on a file that matches no entry verifies nothing, and the watch ends as done |
| Watch.FailedPassOverwritesHint | src/main.rs:193-196 | after a failed pass the slot holds exactly the failing entry's hint |
| Watch.RecvErrorContinues | src/main.rs:202 | a receive error is printed and the watch goes on with the same hint |
| Watch.ShellLeavesWatchAlone | src/main.rs:141-158 | shell lines never stop the watch and never change the hint |
| Watch.Handle | src/main.rs:182-203 | handling one input while watching changes the slot, the phase and the log exactly as `React` does |
| Watch.WatchLoop | src/main.rs:181-204 | the loop over the inputs, overwriting the slot in place, ends in exactly the session and count that `Feed` gives |
| Watch.Watch | src/main.rs:161-205 | the whole `watch`, with the slot as a heap object, ends exactly as `WatchSession` |
| Cli.FindByName | src/main.rs:88-93 | `find`: none iff no entry has the name; otherwise the first entry with that name |
| Cli.Farewell | src/main.rs:117-129 | a watch ends with exit 1 iff the watcher failed, with exit 0 when everything is done, and does not end while it is still watching; only lines are printed |
| Cli.Dispatch | src/main.rs:85-135 | a subcommand exits with 0 or 1, and only `watch` can still be running when the inputs run out |
| Cli.Main | src/main.rs:59-135 | without `info.toml` or without `rustc`, the process exits 1 having only printed; every exit code is 0 or 1 |
| Cli.HintPrintsExactlyHint | src/main.rs:98-110 | `hint` on a known name prints exactly that entry's hint and one newline, exits 0, and touches no entry |
| Cli.UnknownNameExits1 | src/main.rs:88-107 | `run` or `hint` on an unknown name prints the not-found message and exits 1, with no other effect |
| Cli.RunExitCode | src/main.rs:95 | `run` exits 0 iff the named entry compiles and runs successfully |
| Cli.VerifyExitCode | src/main.rs:113 | `verify` exits 0 iff every entry passes |
| Cli.WatchSetupFailureExits1 | src/main.rs:117-121 | a watcher that cannot be set up gives exit 1, and nothing is compiled or run |
| Cli.WatchCompletesAtOnce | src/main.rs:116-130 | when everything passes, `watch` exits 0 and its output ends with the completion lines |
| Cli.MissingManifestExits1 | src/main.rs:65-72 | without `info.toml`, every subcommand exits 1 and the last line is the `cd` advice |
| QuickSorting.Swap | fundamentals/algorithms/sorts/quick_sort.rs:30 | the two cells are exchanged, every other cell is unchanged, and the contents are a permutation |
| QuickSorting.Partition | fundamentals/algorithms/sorts/quick_sort.rs:9-36 | the pivot ends at the returned index; everything before it is no larger and everything after it up to `high` is no smaller; cells outside the range are unchanged; the contents are a permutation |
| QuickSorting.SortedAfterBothSides | fundamentals/algorithms/sorts/quick_sort.rs:44-47 | sorting both sides of a partition sorts the whole range and permutes only that range |
| QuickSorting.QuickSortRange | fundamentals/algorithms/sorts/quick_sort.rs:38-48 | the inclusive range `low..=high` ends sorted, the rest is unchanged, the contents are a permutation, and an empty range is left alone |
| QuickSorting.QuickSort | fundamentals/algorithms/sorts/quick_sort.rs:50-54 | the whole array ends sorted and permuted; the `len - 1` underflow happens iff the array is empty |
| MergeSorting.Merged | fundamentals/algorithms/sorts/merge_sort.rs:9-34 | the reference merge has the combined length |
| MergeSorting.MergedPermutation | fundamentals/algorithms/sorts/merge_sort.rs:9-34 | a merge is a permutation of its two inputs together |
| MergeSorting.MergedSorted | fundamentals/algorithms/sorts/merge_sort.rs:9-34 | merging two sorted inputs gives a sorted result |
| MergeSorting.Weave | fundamentals/algorithms/sorts/merge_sort.rs:15-25 | the merge loop ends with one input used up and writes one element per step |
| MergeSorting.WeaveMerges | fundamentals/algorithms/sorts/merge_sort.rs:15-25 | what the loop writes, followed by both remainders, is the reference merge |
| MergeSorting.MergeWith | fundamentals/algorithms/sorts/merge_sort.rs:9-34 | when it does not panic, the output slice keeps its length |
| MergeSorting.MergeAsWritten | fundamentals/algorithms/sorts/merge_sort.rs:9-34 | `merge` as written panics on a length mismatch |
| MergeSorting.MergeIntended | fundamentals/algorithms/sorts/merge_sort.rs:9-34 | the corrected `merge` panics on a length mismatch |
| MergeSorting.MergeIntendedMerges | fundamentals/algorithms/sorts/merge_sort.rs:27-33 | the corrected `merge` always writes exactly the reference merge |
| MergeSorting.MergeAsWrittenInMergeSort | fundamentals/algorithms/sorts/merge_sort.rs:44-49 | when the first half is no longer than the second, as `merge_sort` arranges, `merge` as written is the reference merge |
| MergeSorting.MergeAsWrittenDropsTail | fundamentals/algorithms/sorts/merge_sort.rs:31-33 | a concrete input on which `merge` as written leaves the second input's tail uncopied |
| MergeSorting.MergeAsWrittenPanics | fundamentals/algorithms/sorts/merge_sort.rs:31-32 | a concrete input on which `merge` as written panics, while the corrected one merges |
| MergeSorting.CopyFromSlice | fundamentals/algorithms/sorts/merge_sort.rs:28 | `copy_from_slice` panics iff the lengths differ; otherwise the range holds the source and nothing else changes |
| MergeSorting.WeaveInto | fundamentals/algorithms/sorts/merge_sort.rs:11-25 | the loop writes exactly the prefix `Weave` describes and leaves the rest of the output unchanged |
| MergeSorting.Merge | fundamentals/algorithms/sorts/merge_sort.rs:9-34 | the method panics iff `merge` as written does, and otherwise leaves the output equal to it |
| MergeSorting.MergeOfSortedHalves | fundamentals/algorithms/sorts/merge_sort.rs:44-49 | merging two sorted halves, the first no longer than the second, gives a sorted permutation of the range |
| MergeSorting.ToVec | fundamentals/algorithms/sorts/merge_sort.rs:47 | `to_vec` is a fresh copy |
| MergeSorting.MergeHalves | fundamentals/algorithms/sorts/merge_sort.rs:47-51 | merging through a copy and writing it back sorts the range, permutes the contents and leaves the rest alone |
| MergeSorting.MergeSort | fundamentals/algorithms/sorts/merge_sort.rs:36-52 | the range ends sorted, the contents are a permutation, and cells outside the range are unchanged |

## Left out

- Threads, `Arc<Mutex<…>>`, the `mpsc` channel and the `notify` watcher
  (src/main.rs:138-159, 168-171). The watch loop and the shell thread are
  linearised into one sequence of inputs, which the mutex orders. The slot
  is a single object. A finite input sequence ends the model, so `watch`
  can end "still watching".
- File events carry the toolchain's verdicts at that moment, because the
  user edits the sources between events. The two-second debounce is not
  modelled.
- `canonicalize` (src/main.rs:186) and path normalisation. Paths are lists
  of already normalised components, and existence is a boolean on the
  event.
- The error of a failed watcher setup is given as the text of its `Debug`
  rendering.
- Terminal decoration is not modelled:
  - progress bars;
  - `warn!`/`success!` lines and styled text;
  - the completion prompt's banner, separators and source-context lines
    (src/verify.rs:40-42, 140-177, 182-184);
  - the emoji. The completion line uses the `★` fallback that
    `console::Emoji` prints on terminals without emoji.
  The model keeps every plain `println!` of program or compiler output,
  each hint, the shell's answers and the exit-path messages.
- `rustc` and the artifacts are oracles (`Toolchain`). So are the marker
  scan, `rustc --version` (a boolean) and the presence of `info.toml`.
  Parsing `info.toml` with TOML, argument parsing with `clap`, and reading
  `default_out.txt` are replaced by the values they produce.
- The process exit is the `Exited` status that `main` ends with.
- The sorts work on `int` elements in place of a generic `T: Ord`.
  - `quick_sort`'s `isize` indices are unbounded integers.
  - The unsigned `len - 1` on an empty slice is reported as the `overflow`
    result. It is a panic in a debug build.
- Sub-slices (`&mut array[0..m]`) are index ranges of one array.
  `merge_sort`'s `merge` reads its two halves as values (`seq`), because it
  never writes to them.
- `MergeSorting.MergeSort`: the model sorts `a[lo..hi]` of one array, not
  a slice of its own.

## Findings

| source | as written | input that shows it | evidently intended | confidence | as-written member | corrected member |
|---|---|---|---|---|---|---|
| fundamentals/algorithms/sorts/merge_sort.rs:31 | the tail of the second input is copied only when `j < array1.len()` | `merge([2], [1, 3], v)` with `v == [0, 0, 0]` leaves `v == [1, 2, 0]`, and `merge([1, 2], [0], v)` panics in `copy_from_slice` | copy the tail when `j < array2.len()`, which gives `[1, 2, 3]` and `[0, 1, 2]` | not executed | MergeSorting.MergeAsWrittenDropsTail | MergeSorting.MergeIntendedMerges |

`merge_sort` itself never shows the slip. It always passes a first half that
is no longer than the second (`MergeSorting.MergeAsWrittenInMergeSort`), so
the model's `merge_sort` calls the code as written and is still proved
sorting.
