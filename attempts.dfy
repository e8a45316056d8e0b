/** One attempt of the test suite (`gocrash_worker_run_one`): clone the
    source snapshot to the attempt's dataset, look up its mountpoint,
    create the two output files, run the suite, and destroy the dataset
    unless successful runs are kept. Each step that fails ends the
    attempt with that step's error, so the steps issued are always a
    prefix of that list. What each step does in the world is an oracle,
    `AttemptEnv`. */
module Attempts {
  import opened Results
  import opened Errors
  import opened Names
  import opened Commands

  /** The session's immutable parameters. */
  datatype Config = Config(
    sourceSnapshot: string,    // the snapshot every attempt clones
    stopAfter: Option<nat>,    // each worker stops after this many runs
    keepSuccess: bool,         // keep the datasets of successful runs
    workingDataset: string)    // parent of every attempt's dataset

  /** How each step of one attempt turns out. */
  datatype AttemptEnv = AttemptEnv(
    clone: ProcessOutcome,        // pfexec zfs clone <snapshot> <dataset>
    mountpoint: ProcessOutcome,   // zfs list -H -omountpoint <dataset>
    stdoutSink: Option<string>,   // why creating test_run_stdout failed, if it did
    stderrSink: Option<string>,   // why creating test_run_stderr failed, if it did
    test: ProcessOutcome,         // bash ./all.bash, its output in the two files
    destroy: ProcessOutcome)      // pfexec zfs destroy <dataset>

  datatype Step = Clone | Mountpoint | OpenStdout | OpenStderr | RunTests | Destroy

  /** The steps issued by an attempt and how it ended. */
  datatype Attempt = Attempt(steps: seq<Step>, result: Result<(), Error>)

  /** Every step, in order: the destroy only when successful runs are not
      kept. */
  function Pipeline(keepSuccess: bool): (p: seq<Step>)
    ensures Destroy in p <==> !keepSuccess
    ensures |p| > 0 && p[0] == Clone
  {
    [Clone, Mountpoint, OpenStdout, OpenStderr, RunTests] + (if keepSuccess then [] else [Destroy])
  }

  predicate Exits0(o: ProcessOutcome) {
    o.Completed? && o.status.Success()
  }

  /** Whether a step succeeds in the given environment. */
  predicate Passes(env: AttemptEnv, step: Step) {
    match step
    case Clone => Exits0(env.clone)
    case Mountpoint => Exits0(env.mountpoint)
    case OpenStdout => env.stdoutSink.None?
    case OpenStderr => env.stderrSink.None?
    case RunTests => Exits0(env.test)
    case Destroy => Exits0(env.destroy)
  }

  /** The test suite ran and passed: everything before the destroy step
      succeeded. */
  predicate TestPassed(env: AttemptEnv) {
    Exits0(env.clone) && Exits0(env.mountpoint) && env.stdoutSink.None?
    && env.stderrSink.None? && Exits0(env.test)
  }

  /** When an attempt succeeds: the suite passed, and the dataset was
      destroyed unless it is to be kept. */
  predicate AttemptSucceeds(env: AttemptEnv, keepSuccess: bool) {
    TestPassed(env) && (keepSuccess || Exits0(env.destroy))
  }

  /** What `run_command` sees of the suite: its stdout and stderr go to
      the two files, so nothing of them is captured. */
  function Redirected(o: ProcessOutcome): (r: ProcessOutcome)
    ensures Exits0(r) <==> Exits0(o)
    ensures r.SpawnFailed? <==> o.SpawnFailed?
    ensures r.Completed? ==> r.status == o.status && r.stdout == [] && r.stderr == []
  {
    match o
    case SpawnFailed(_) => o
    case Completed(status, _, _) => Completed(status, [], [])
  }

  /** The result of one step, for the attempt's dataset `dataset`. */
  function StepResult(snapshot: string, dataset: string, env: AttemptEnv, step: Step): (r: Result<string, Error>)
    ensures r.Ok? <==> Passes(env, step)
  {
    match step
    case Clone =>
      CommandResultCases("pfexec", ["zfs", "clone", snapshot, dataset], env.clone);
      CommandResult("pfexec", ["zfs", "clone", snapshot, dataset], env.clone)
    case Mountpoint =>
      CommandResultCases("zfs", ["list", "-H", "-omountpoint", dataset], env.mountpoint);
      CommandResult("zfs", ["list", "-H", "-omountpoint", dataset], env.mountpoint)
    case OpenStdout => if env.stdoutSink.Some? then Err(SinkOpenFailed(env.stdoutSink.value)) else Ok("")
    case OpenStderr => if env.stderrSink.Some? then Err(SinkOpenFailed(env.stderrSink.value)) else Ok("")
    case RunTests =>
      CommandResultCases("bash", ["./all.bash"], Redirected(env.test));
      CommandResult("bash", ["./all.bash"], Redirected(env.test))
    case Destroy =>
      CommandResultCases("pfexec", ["zfs", "destroy", dataset], env.destroy);
      CommandResult("pfexec", ["zfs", "destroy", dataset], env.destroy)
  }

  /** Runs the steps in order, ending at the first that fails. */
  function RunSteps(snapshot: string, dataset: string, env: AttemptEnv, pending: seq<Step>): Attempt
  {
    if pending == [] then Attempt([], Ok(()))
    else
      var r := StepResult(snapshot, dataset, env, pending[0]);
      if r.Err? then Attempt([pending[0]], Err(r.error))
      else
        var rest := RunSteps(snapshot, dataset, env, pending[1..]);
        Attempt([pending[0]] + rest.steps, rest.result)
  }

  /** Running steps issues a prefix of them, and all of them exactly when
      every step passes. */
  lemma {:induction false} RunStepsPrefix(snapshot: string, dataset: string, env: AttemptEnv, pending: seq<Step>)
    ensures var a := RunSteps(snapshot, dataset, env, pending);
      && |a.steps| <= |pending| && a.steps == pending[..|a.steps|]
      && (a.result.Ok? <==> forall k :: 0 <= k < |pending| ==> Passes(env, pending[k]))
      && (a.result.Ok? ==> a.steps == pending)
  {
    if pending != [] && Passes(env, pending[0]) {
      RunStepsPrefix(snapshot, dataset, env, pending[1..]);
      var rest := RunSteps(snapshot, dataset, env, pending[1..]);
      var a := RunSteps(snapshot, dataset, env, pending);
      assert a.steps == [pending[0]] + rest.steps;
      assert pending == [pending[0]] + pending[1..];
    }
  }

  /** A run of steps that fails stops at its first failing step, whose
      error is the result. */
  lemma {:induction false} RunStepsFailure(snapshot: string, dataset: string, env: AttemptEnv, pending: seq<Step>)
    ensures var a := RunSteps(snapshot, dataset, env, pending);
      a.result.Err? ==>
        && |a.steps| > 0
        && (forall k :: 0 <= k < |a.steps| - 1 ==> Passes(env, a.steps[k]))
        && !Passes(env, a.steps[|a.steps| - 1])
        && a.result.error == StepResult(snapshot, dataset, env, a.steps[|a.steps| - 1]).error
  {
    if pending != [] && Passes(env, pending[0]) {
      RunStepsFailure(snapshot, dataset, env, pending[1..]);
      var rest := RunSteps(snapshot, dataset, env, pending[1..]);
      var a := RunSteps(snapshot, dataset, env, pending);
      assert a.steps == [pending[0]] + rest.steps;
      if a.result.Err? {
        forall k | 0 <= k < |a.steps| - 1 ensures Passes(env, a.steps[k]) {
          if k > 0 { assert a.steps[k] == rest.steps[k - 1]; }
        }
      }
    }
  }

  /** Running steps issues a prefix of them: all of them when every step
      passes, otherwise up to and including the first that fails, whose
      error is the result. */
  lemma RunStepsFirstFailure(snapshot: string, dataset: string, env: AttemptEnv, pending: seq<Step>)
    ensures var a := RunSteps(snapshot, dataset, env, pending);
      && |a.steps| <= |pending| && a.steps == pending[..|a.steps|]
      && (a.result.Ok? <==> forall k :: 0 <= k < |pending| ==> Passes(env, pending[k]))
      && (a.result.Ok? ==> a.steps == pending)
      && (a.result.Err? ==>
        && |a.steps| > 0
        && (forall k :: 0 <= k < |a.steps| - 1 ==> Passes(env, a.steps[k]))
        && !Passes(env, a.steps[|a.steps| - 1])
        && a.result.error == StepResult(snapshot, dataset, env, a.steps[|a.steps| - 1]).error)
  {
    RunStepsPrefix(snapshot, dataset, env, pending);
    RunStepsFailure(snapshot, dataset, env, pending);
  }

  /** What stopping at the first failing step of the pipeline means: the
      attempt succeeds exactly as `AttemptSucceeds` says, and the destroy
      step is reached exactly when the suite passed and runs are not kept. */
  lemma PipelinePrefix(keepSuccess: bool, env: AttemptEnv, steps: seq<Step>, ok: bool)
    requires |steps| <= |Pipeline(keepSuccess)| && steps == Pipeline(keepSuccess)[..|steps|]
    requires ok <==> forall k :: 0 <= k < |Pipeline(keepSuccess)| ==> Passes(env, Pipeline(keepSuccess)[k])
    requires ok ==> steps == Pipeline(keepSuccess)
    requires !ok ==> |steps| > 0 && (forall k :: 0 <= k < |steps| - 1 ==> Passes(env, steps[k]))
                     && !Passes(env, steps[|steps| - 1])
    ensures ok <==> AttemptSucceeds(env, keepSuccess)
    ensures 0 < |steps|
    ensures Destroy in steps <==> TestPassed(env) && !keepSuccess
    ensures !ok && steps[|steps| - 1] != Destroy ==> Destroy !in steps
  {
    var p := Pipeline(keepSuccess);
    assert p[0] == Clone && p[1] == Mountpoint && p[2] == OpenStdout;
    assert p[3] == OpenStderr && p[4] == RunTests;
    assert !keepSuccess ==> p[5] == Destroy;
    assert TestPassed(env) <==> forall k :: 0 <= k < 5 ==> Passes(env, p[k]) by {
      if TestPassed(env) {
        forall k | 0 <= k < 5 ensures Passes(env, p[k]) {
          assert k == 0 || k == 1 || k == 2 || k == 3 || k == 4;
        }
      }
    }
    if Destroy in steps {
      assert steps[5] == Destroy;
      assert TestPassed(env) by {
        forall k | 0 <= k < 5 ensures Passes(env, p[k]) {
          assert steps[k] == p[k];
        }
      }
    }
  }

  /** One attempt: run `run` of worker `which`, on the dataset
      `<working>/thread-<which>-run-<run>`. It succeeds exactly when the
      suite passes and, unless runs are kept, the destroy succeeds. */
  function RunOne(config: Config, which: nat, run: nat, env: AttemptEnv): (a: Attempt)
    ensures a.result.Ok? <==> AttemptSucceeds(env, config.keepSuccess)
  {
    var ds := RunDataset(config.workingDataset, which, run);
    var a := RunSteps(config.sourceSnapshot, ds, env, Pipeline(config.keepSuccess));
    RunStepsFirstFailure(config.sourceSnapshot, ds, env, Pipeline(config.keepSuccess));
    PipelinePrefix(config.keepSuccess, env, a.steps, a.result.Ok?);
    a
  }

  /** The retention decision: an attempt issues its steps in order; the
      dataset is destroyed only after the suite passed, and only when
      successful runs are not kept; every failure before the destroy step
      returns before it, leaving the dataset in place. */
  lemma RunOneRetention(config: Config, which: nat, run: nat, env: AttemptEnv)
    ensures var a := RunOne(config, which, run, env);
      && 0 < |a.steps| <= |Pipeline(config.keepSuccess)|
      && a.steps == Pipeline(config.keepSuccess)[..|a.steps|]
      && (Destroy in a.steps <==> TestPassed(env) && !config.keepSuccess)
      && (a.result.Err? && a.steps[|a.steps| - 1] != Destroy ==> Destroy !in a.steps)
  {
    var ds := RunDataset(config.workingDataset, which, run);
    var a := RunSteps(config.sourceSnapshot, ds, env, Pipeline(config.keepSuccess));
    RunStepsFirstFailure(config.sourceSnapshot, ds, env, Pipeline(config.keepSuccess));
    PipelinePrefix(config.keepSuccess, env, a.steps, a.result.Ok?);
  }

  /** A failed attempt reports the error of its last step, the one that
      failed, run on the attempt's own dataset. */
  lemma RunOneError(config: Config, which: nat, run: nat, env: AttemptEnv)
    requires !AttemptSucceeds(env, config.keepSuccess)
    ensures var a := RunOne(config, which, run, env);
      && |a.steps| > 0
      && !Passes(env, a.steps[|a.steps| - 1])
      && a.result == Err(StepResult(config.sourceSnapshot, RunDataset(config.workingDataset, which, run),
                                    env, a.steps[|a.steps| - 1]).error)
  {
    var ds := RunDataset(config.workingDataset, which, run);
    var a := RunSteps(config.sourceSnapshot, ds, env, Pipeline(config.keepSuccess));
    RunStepsFirstFailure(config.sourceSnapshot, ds, env, Pipeline(config.keepSuccess));
    PipelinePrefix(config.keepSuccess, env, a.steps, a.result.Ok?);
  }
}
