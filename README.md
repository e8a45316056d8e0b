# gocrash, modelled in Dafny

`gocrash` runs the Go test suite over and over, in parallel, until a run
fails. It works from a ZFS snapshot `<dataset>@<name>` of a tree that holds
`goroot`:

- It creates a working dataset `<dataset>/gocrash-<millis>`.
- It starts `--concurrency` worker threads.
- Each worker repeats the same attempt. It clones the snapshot to
  `<working>/thread-<i>-run-<n>`, looks up the clone's mountpoint, creates
  the files `test_run_stdout` and `test_run_stderr`, runs `bash ./all.bash`,
  and destroys the clone unless `--keep-success` is set.
- A failed attempt keeps its clone as evidence and sets a shared `stopping`
  flag. Every worker checks that flag before each attempt.
- With `--stop-after k`, a worker also stops after `k` successful attempts.
- The program joins the workers in index order, counts those that reported
  an error, and fails with "test failed" if there was any.
- Every external command goes through `run_command`. It returns stdout on
  exit code 0. Otherwise it produces a report: the quoted command line, the
  exit code or signal, and whatever the command wrote to stderr and stdout.

The model is one module per part of `src/main.rs`:

- `Digits`: decimal rendering of numbers and the parser that inverts it.
- `Names`: the snapshot split and the names of the working dataset and the
  run datasets.
- `Errors`: the error kinds and their text.
- `Commands`: `command_label` and `run_command`. The running process is an
  oracle, `ProcessOutcome`.
- `Attempts`: `gocrash_worker_run_one`, as the list of steps an attempt
  issues. What each step does is an oracle, `AttemptEnv`.
- `Workers`: the session state `Gocrash` becomes the class `Session`. Its
  `stopping` flag is a field, and a ghost log records every attempt
  started. `gocrash_worker` is the method `Session.Worker`, a loop over
  that state.
- `Coordinator`: `gocrash`. It derives the names, creates the working
  dataset, runs the workers and aggregates their results.

Two behaviours of the code are worth stating plainly:

- The `--stop-after` option is documented as "stop after each thread does
  this many runs" (src/main.rs:35-36). The start-up banner prints "after
  all threads do k runs" (src/main.rs:87-91). But the worker checks the
  limit only after a run (src/main.rs:176-183), so `--stop-after 0` still
  does one run per worker. `Workers.StopsAtLimit` states the number of runs:
  `k` for `k >= 1`, and 1 for `k = 0`.
- `--concurrency 0` launches no worker, finds no errors and succeeds.
  `Coordinator.Gocrash` covers this case: the result is `Ok` exactly when
  every worker succeeded, which holds trivially when there are none.

## Model

Some functions only compute: `Errors.Describe`, `Commands.CommandResult`,
`Attempts.RunSteps` and the specification predicate `Workers.Reports`.
Their properties are stated by the members about them:
- `Errors.PanicMessageNamesThread` and `Commands.CommandErrorsDistinguish`
  for the messages.
- `Attempts.RunStepsPrefix` and `Attempts.RunStepsFailure` for the step
  chain.
- `Workers.Session.Worker`, `Workers.StopsAtLimit` and
  `Workers.StopsWhenFlagSeen` for the worker report.

| member | source | states |
|---|---|---|
| Digits.DecimalRoundTrip | src/main.rs:196 | parsing the decimal rendering of a number gives the number back |
| Digits.DecimalInjective | src/main.rs:60 | different numbers render differently |
| Digits.SignedDecimalInjective | src/main.rs:285 | different exit codes (including negative ones) render differently |
| Errors.PanicMessageNamesThread | src/main.rs:116-118 | the "thread i panicked" message determines i |
| Names.SplitOnce | src/main.rs:50-52 | `split_once` gives nothing exactly when the character is absent; otherwise the two parts rejoined around it give the input, and the first part does not contain it |
| Names.SplitUnique | src/main.rs:52 | a string splits around the first occurrence of a character in only one way |
| Names.SplitOnceOfJoin | src/main.rs:52 | splitting `a + c + b` with `c` not in `a` gives back `(a, b)` |
| Names.DatasetOfSnapshot | src/main.rs:50-53 | an error, and exactly the bad-snapshot error, when there is no '@'; otherwise the dataset is the prefix before the first '@' |
| Names.DatasetOfSnapshotOf | src/main.rs:50-53 | any '@'-free dataset name is recovered from `<dataset>@<anything>` |
| Names.WorkingDatasetInjective | src/main.rs:55-61 | sessions started at different milliseconds get different working datasets |
| Names.RunKeyRoundTrip | src/main.rs:196 | the key `thread-<i>-run-<n>` parses back to `(i, n)` |
| Names.RunDatasetInjective | src/main.rs:196-198 | two attempts share a dataset name only if they have the same worker and run index |
| Names.WorkingDataset | src/main.rs:60-61 | the working dataset is a direct child of the snapshot's dataset: its name is `<dataset>/` followed by one component with no '/' |
| Names.RunKey | src/main.rs:196 | a run key is one non-empty component of a dataset name, with no '/' |
| Names.RunDataset | src/main.rs:197-198 | a run dataset is a direct child of the working dataset |
| Commands.ReadQuotedEscape | src/main.rs:266 | reading back a `{:?}`-quoted string recovers the string and what follows the closing quote |
| Commands.ParseJoinedQuotes | src/main.rs:264-268 | a space-joined list of quoted words parses back to the words |
| Commands.CommandLabel | src/main.rs:263-269 | the label reads back to the program followed by every argument, whatever characters they hold |
| Commands.SummaryInjective | src/main.rs:284-292 | the reason text determines the exit status: a code is never confused with a signal, nor one code with another |
| Commands.SectionsShape | src/main.rs:294-306 | a report starts with the `command failed` header; it is just the header when neither stream captured anything; a non-empty stderr section follows the header; a non-empty stdout section ends the report; its length is the header's plus ten more than each non-empty stream's, so an empty stream adds no heading |
| Commands.CommandErrorsDistinguish | src/main.rs:275-310 | two error messages of one command are equal only if both came from a failed start with the same cause, or both from a run that ended with the same exit status; a failed start never reads like a failed run |
| Commands.FailureTextDeterminesStatus | src/main.rs:284-306 | a failure report determines the exit status it was written for, whatever the captured output holds |
| Commands.MessageHead | src/main.rs:279-295 | a failed start's message begins with "failed to exec", and any other failure's message begins with "command failed": the first fourteen characters are exactly these words |
| Commands.ReportHead | src/main.rs:294-295 | a failure report begins with "command failed" |
| Commands.ExecMessageHead | src/main.rs:279 | the message of a command that could not be started begins with "failed to exec" |
| Commands.ReportAfterPrefix | src/main.rs:294-306 | a report begins with `command failed: <label>: `, followed by the reason and then the sections |
| Commands.SummaryOneLine | src/main.rs:284-292 | the reason holds no line break, so it ends where the first section begins |
| Commands.Sections | src/main.rs:298-306 | the captured-output part of a report has one section per non-empty stream, each ten characters longer than its stream, and it starts on a new line |
| Commands.FailureReport | src/main.rs:284-306 | the buffer built by the `write!` calls equals the failure report of the command |
| Commands.RunCommand | src/main.rs:275-310 | `run_command` returns `CommandResult`: the captured stdout on exit code 0, the spawn failure under the command's label, or the report that `FailureReport` builds |
| Attempts.Pipeline | src/main.rs:200-257 | the steps an attempt can issue start with the clone; they include the destroy exactly when successful runs are not kept |
| Attempts.StepResult | src/main.rs:200-257 | each step's result is `Ok` exactly when that step passes in the environment |
| Attempts.Redirected | src/main.rs:241-247 | the suite's stdout and stderr go to the two files, so `run_command` captures nothing of them; whether the suite succeeded is unchanged |
| Attempts.RunStepsPrefix | src/main.rs:200-259 | the steps issued are a prefix of those planned; the attempt is `Ok` exactly when every planned step passes, and then all were issued |
| Attempts.RunStepsFailure | src/main.rs:200-259 | a failed attempt ends at its first failing step; every earlier step passed, and its error is that step's error |
| Attempts.RunStepsFirstFailure | src/main.rs:200-259 | the two lemmas above together: the `?` chain stops at the first failing step |
| Attempts.PipelinePrefix | src/main.rs:241-259 | stopping at the first failing step makes the attempt succeed exactly when the suite passes and, unless runs are kept, the destroy succeeds; the destroy is reached exactly when the suite passed and runs are not kept |
| Attempts.RunOne | src/main.rs:190-260 | an attempt succeeds exactly when the suite passes and, unless runs are kept, the destroy succeeds |
| Attempts.RunOneRetention | src/main.rs:249-257 | the steps are a non-empty prefix of the pipeline; the dataset is destroyed only after the suite passed and only when successful runs are not kept; a failure before the destroy step leaves the dataset in place |
| Attempts.RunOneError | src/main.rs:200-259 | a failed attempt returns the error of its last step, which is the step that failed, run on the attempt's own dataset |
| Workers.StopsAtLimit | src/main.rs:176-183 | with `--stop-after k`, a worker that does not find the flag set before `max(k, 1)` runs, and whose first `max(k, 1)` runs all succeed, does exactly those runs and reports success: `k` runs for `k >= 1`, one run for `k = 0` |
| Workers.StopsWhenFlagSeen | src/main.rs:168-186 | a worker that finds the flag set at the loop top after `j` successful runs, not past its run limit, returns `Ok` with `ntries == j`; `j == 0` is a worker that found the flag set before its first run |
| Workers.RunsAt | src/main.rs:168-176 | a worker's j-th attempt has run index j |
| Workers.RunsMembers | src/main.rs:168-176 | the attempts of a worker that started `n` runs are exactly those with its index and a run index below `n` |
| Workers.AppendRunsDistinct | src/main.rs:109-110 | appending the runs of a worker whose index no earlier attempt used keeps the attempt log free of repeats |
| Workers.DistinctRunDatasets | src/main.rs:196-198 | distinct attempts of one session use distinct datasets |
| Workers.Session.constructor | src/main.rs:63-69 | a session starts with the given parameters, the flag clear and no attempts |
| Workers.Session.RunAttempt | src/main.rs:171 | an attempt is logged as (worker, run); its result is that of `RunOne`, `Ok` exactly when the attempt succeeds |
| Workers.Session.Worker | src/main.rs:167-187 | another worker's failure is the input `interruptedAfter`: it sets the flag before this worker's first run or during one of its runs. The flag ends set exactly when this worker failed or found it set. `ntries` counts the successful runs, and a failure is the run at index `ntries` with that run's error, started below the run limit and before the flag was seen. Without a failure the worker stops at the run limit or at the first loop-top check that finds the flag set, whichever comes first, and it never starts a run past either. Run indices are 0, 1, 2, ... in order |
| Coordinator.ErrorCount | src/main.rs:114-131 | the count of workers that reported an error is zero exactly when none did |
| Coordinator.Aggregate | src/main.rs:113-138 | joining in index order: a panicked thread ends aggregation with an error naming the first one; otherwise the result is `Ok` when no worker reported an error and "test failed" when any did |
| Coordinator.RunWorkers | src/main.rs:107-118 | one result per worker, in index order. Each worker reports as `Session.Worker` promises, and the ones after a failure find the flag set. The flag is set exactly when some worker failed. The attempt log is exactly `SessionRuns(results)`: each worker's started runs, worker after worker, with run indices 0, 1, 2, ...; no attempt repeats |
| Coordinator.SessionRunsMembers | src/main.rs:107-118 | attempt `(w, r)` is in the session's log exactly when worker `w` exists and started its run `r`: its successful runs, and the failing one if it failed |
| Coordinator.SessionRunsAppend | src/main.rs:107-118 | the next worker's runs follow those of the workers before it in the log |
| Coordinator.ExtendReports | src/main.rs:107-118 | the results joined so far report in order: adding the next worker's report keeps this, and some worker has failed exactly when an earlier one had or the new one has |
| Coordinator.Gocrash | src/main.rs:49-139 | a snapshot without '@' gives the bad-snapshot error; a failed `zfs create` gives its error; otherwise there is one result per worker, the run succeeds exactly when every worker did and fails with "test failed" otherwise, the session's attempt log is exactly the runs the workers started (`SessionRuns(results)`), and every attempt of the session has its own dataset |

## Left out

- Running processes is not modelled. What `zfs`, `pfexec` and `bash` do
  is an oracle: `ProcessOutcome` for one command and `AttemptEnv` for one
  attempt. The clock reading is the parameter `millis`. The source
  panics when the clock reads before the Unix epoch (the `unwrap` of
  `duration_since` at src/main.rs:56-58); the model takes `millis` as a
  natural number and leaves that panic out.
- File creation is an oracle too. `AttemptEnv.stdoutSink` and
  `AttemptEnv.stderrSink` say whether creating each file failed; the I/O
  error's text is kept as an opaque string.
- Nothing is modelled about paths or what an attempt does with them:
  trimming the mountpoint output, joining the file paths, the `goroot/src`
  working directory, and redirecting the suite's output into the files.
- Threads are not modelled. The workers run one after another, each to its
  end, which is one interleaving the real threads allow. So the model never
  produces a thread panic, although `Coordinator.Aggregate` handles one.
  Atomic memory orderings are not modelled.
- Coordinator.RunWorkers: runs each worker to its end before the next, so
  it passes no interruption to `Session.Worker`. A worker that another
  worker's failure stops after some successful runs (it finds the flag set
  at src/main.rs:169 and returns `Ok` with its count at src/main.rs:186) is
  modelled by `Session.Worker`'s `interruptedAfter` input and
  `Workers.StopsWhenFlagSeen`, not by any run of `Coordinator.Gocrash`.
- Coordinator.Aggregate: after the first panicked thread, the remaining
  handles are dropped unjoined. `std::thread::scope` then joins them
  itself, and if one of them panicked too, the whole program panics
  instead of returning "thread i panicked". The model returns the error
  naming the first panicked thread in that case as well.
- Workers.Session.Worker: requires the outcomes to decide every run the
  worker can make: it reaches the limit, finds the flag set, or a run
  fails. A
  worker with no limit whose runs never fail runs forever in the source;
  the model leaves that case out.
- Coordinator.Gocrash: without a run limit, only the first worker's
  outcomes have to end in a failure. In the sequential order the later
  workers find the flag set.
- Argument parsing with `clap`, the `main` wrapper that prints the error
  and exits with 1, and every `println!` banner and progress line are not
  modelled. The error's text is still modelled, by `Errors.Describe`.
- Lossy UTF-8 decoding is not modelled. This covers the captured output
  of a command and `to_string_lossy` on the program and its arguments in
  `command_label` (src/main.rs:264-265). Both are taken to be text already,
  so `Commands.CommandLabel` reads back the decoded strings, not the
  original OS strings.
- Commands.ReadQuotedEscape: `{:?}` quoting escapes `"`, `\`, newline,
  carriage return, tab and NUL only. Rust's `\u{..}` escapes for other
  non-printable characters are not modelled.
- The `expect` on an exit status with neither a code nor a signal
  (src/main.rs:287-290) is not modelled. A Unix wait status can also
  report a stopped or continued process, but `Command::output()` waits
  without asking for those, so the status it returns has an exit code or a
  signal. The model's `ExitStatus` has exactly these two cases.
- Integer widths (`u8` thread index and concurrency, `usize` run counts,
  `u128` milliseconds) are unbounded in the model. The source's values
  never come close to these bounds.
- A panic's payload is printed as `Any { .. }`, the debug form of a boxed
  payload. Its contents are not modelled.
