/** The worker loop (`gocrash_worker`) over the session state (struct
    `Gocrash`): the immutable parameters, the `stopping` flag every worker
    reads and sets, and, as ghost state, the log of every attempt started
    in the session. */
module Workers {
  import opened Results
  import opened Errors
  import opened Names
  import opened Attempts

  /** What a worker reports: how many runs succeeded, and the result of
      the last run. */
  datatype WorkerResult = WorkerResult(ntries: nat, result: Result<(), Error>)

  /** The number of runs after which `stop_after = Some(limit)` ends a
      worker that never fails: the limit is checked only after a run, so
      a limit of 0 still allows one run. */
  function RunsUntilLimit(limit: nat): (n: nat)
    ensures n >= 1 && n >= limit
    ensures n == limit || (limit == 0 && n == 1)
  {
    if limit == 0 then 1 else limit
  }

  /** Runs 0 to n - 1 all succeed. */
  predicate SucceedsUpTo(env: seq<AttemptEnv>, keepSuccess: bool, n: nat)
    requires n <= |env|
  {
    forall j :: 0 <= j < n ==> AttemptSucceeds(env[j], keepSuccess)
  }

  /** The run count at which a worker finds the flag set when it checks
      it at the top of its loop: before its first run when the flag was
      already set as it started, and otherwise after the run during which
      another worker's failure set it (`interruptedAfter`), if any. */
  function FlagSeen(flagSet: bool, interruptedAfter: Option<nat>): Option<nat>
  {
    if flagSet then Some(0) else interruptedAfter
  }

  /** The environment decides every run a worker makes: it reaches the
      run limit, finds the flag set, or a run fails. */
  predicate Ends(stopAfter: Option<nat>, keepSuccess: bool, seen: Option<nat>, env: seq<AttemptEnv>)
  {
    || (stopAfter.Some? && RunsUntilLimit(stopAfter.value) <= |env|)
    || (seen.Some? && seen.value <= |env|)
    || (exists j :: 0 <= j < |env| && !AttemptSucceeds(env[j], keepSuccess))
  }

  /** What worker `which` reports, given the outcomes `env` of its runs
      and the run count `seen` at which it finds the flag set, if ever. */
  predicate Reports(config: Config, which: nat, env: seq<AttemptEnv>, seen: Option<nat>, wr: WorkerResult)
  {
    // ntries counts the successful runs; a failing run is not counted
    && wr.ntries <= |env| && SucceedsUpTo(env, config.keepSuccess, wr.ntries)
    // no run is started once the flag is seen set, nor past the run limit
    && (seen.Some? ==> wr.ntries <= seen.value)
    && (config.stopAfter.Some? ==> wr.ntries <= RunsUntilLimit(config.stopAfter.value))
    && (wr.result.Err? ==>
      && wr.ntries < |env|
      && !AttemptSucceeds(env[wr.ntries], config.keepSuccess)
      && wr.result == RunOne(config, which, wr.ntries, env[wr.ntries]).result
      && (seen.Some? ==> wr.ntries < seen.value)
      && (config.stopAfter.Some? ==> wr.ntries < RunsUntilLimit(config.stopAfter.value)))
    // without a failure, the worker stops at the run limit or where it
    // finds the flag set, whichever comes first
    && (wr.result.Ok? ==>
      || (seen.Some? && wr.ntries == seen.value)
      || (config.stopAfter.Some? && wr.ntries == RunsUntilLimit(config.stopAfter.value)))
  }

  /** With a run limit `k`, a worker that does not find the flag set
      before `max(k, 1)` runs, and whose first `max(k, 1)` runs all
      succeed, does exactly those runs and reports success:
      `--stop-after 0` still gives one run. */
  lemma StopsAtLimit(config: Config, which: nat, env: seq<AttemptEnv>, seen: Option<nat>, wr: WorkerResult)
    requires config.stopAfter.Some?
    requires RunsUntilLimit(config.stopAfter.value) <= |env|
    requires seen.None? || RunsUntilLimit(config.stopAfter.value) <= seen.value
    requires SucceedsUpTo(env, config.keepSuccess, RunsUntilLimit(config.stopAfter.value))
    requires Reports(config, which, env, seen, wr)
    ensures wr == WorkerResult(RunsUntilLimit(config.stopAfter.value), Ok(()))
    ensures config.stopAfter.value == 0 ==> wr.ntries == 1
    ensures config.stopAfter.value > 0 ==> wr.ntries == config.stopAfter.value
  {
    // a failing run would lie below the limit, where every run succeeds
    if wr.result.Ok? {
      assert wr.result.value == ();
    }
  }

  /** A worker that finds the flag set after `j` runs, not past its run
      limit, and whose first `j` runs all succeed, stops there and reports
      success with `ntries == j`; with `j == 0` (the flag was set before
      it started) it reports no run at all. */
  lemma StopsWhenFlagSeen(config: Config, which: nat, env: seq<AttemptEnv>, j: nat, wr: WorkerResult)
    requires j <= |env|
    requires config.stopAfter.None? || j <= RunsUntilLimit(config.stopAfter.value)
    requires SucceedsUpTo(env, config.keepSuccess, j)
    requires Reports(config, which, env, Some(j), wr)
    ensures wr == WorkerResult(j, Ok(()))
  {
    // a failing run would lie below j, where every run succeeds
    if wr.result.Ok? {
      assert wr.result.value == ();
    }
  }

  /** A worker that has not stopped after `ntries` successful runs has
      an outcome for its next run: the environment ends it later. */
  lemma RunsLeft(config: Config, env: seq<AttemptEnv>, seen: Option<nat>, ntries: nat)
    requires Ends(config.stopAfter, config.keepSuccess, seen, env)
    requires ntries <= |env| && SucceedsUpTo(env, config.keepSuccess, ntries)
    requires seen.Some? ==> ntries < seen.value
    requires config.stopAfter.Some? ==> ntries < RunsUntilLimit(config.stopAfter.value)
    ensures ntries < |env|
  {
    if !(config.stopAfter.Some? && RunsUntilLimit(config.stopAfter.value) <= |env|)
       && !(seen.Some? && seen.value <= |env|) {
      // the failing run lies at or after ntries, since every run before succeeds
      var j :| 0 <= j < |env| && !AttemptSucceeds(env[j], config.keepSuccess);
      assert ntries <= j;
    }
  }

  /** The attempts `(which, 0)`, ..., `(which, n - 1)`. */
  function Runs(which: nat, n: nat): (rs: seq<(nat, nat)>)
    ensures |rs| == n
  {
    if n == 0 then [] else Runs(which, n - 1) + [(which, n - 1)]
  }

  /** The j-th run of a worker has run index j. */
  lemma {:induction false} RunsAt(which: nat, n: nat, j: nat)
    requires j < n
    ensures Runs(which, n)[j] == (which, j)
  {
    if j < n - 1 {
      RunsAt(which, n - 1, j);
    }
  }

  /** The runs of a worker are its attempts with indices below n. */
  lemma {:induction false} RunsMembers(which: nat, n: nat, p: (nat, nat))
    ensures p in Runs(which, n) <==> p.0 == which && p.1 < n
  {
    if n > 0 {
      RunsMembers(which, n - 1, p);
    }
  }

  /** No attempt appears twice. */
  ghost predicate Distinct(log: seq<(nat, nat)>)
  {
    forall a, b :: 0 <= a < b < |log| ==> log[a] != log[b]
  }

  /** Appending the runs of a worker whose index no earlier attempt used
      keeps the log free of repeats. */
  lemma AppendRunsDistinct(log: seq<(nat, nat)>, which: nat, n: nat)
    requires Distinct(log)
    requires forall p :: p in log ==> p.0 < which
    ensures Distinct(log + Runs(which, n))
    ensures forall p :: p in log + Runs(which, n) ==> p.0 <= which
  {
    var all := log + Runs(which, n);
    forall a, b | 0 <= a < b < |all| ensures all[a] != all[b] {
      if b >= |log| {
        RunsAt(which, n, b - |log|);
        assert all[b] == (which, b - |log|);
        if a < |log| {
          assert all[a] in log;
        } else {
          RunsAt(which, n, a - |log|);
          assert all[a] == (which, a - |log|);
        }
      }
    }
    forall p | p in all ensures p.0 <= which {
      var k :| 0 <= k < |all| && all[k] == p;
      if k >= |log| {
        RunsAt(which, n, k - |log|);
        assert all[k] == (which, k - |log|);
      } else {
        assert all[k] in log;
      }
    }
  }

  /** Distinct attempts of one session use distinct datasets. */
  lemma DistinctRunDatasets(working: string, log: seq<(nat, nat)>)
    requires Distinct(log)
    ensures forall a, b :: 0 <= a < b < |log| ==>
      RunDataset(working, log[a].0, log[a].1) != RunDataset(working, log[b].0, log[b].1)
  {
    forall a, b | 0 <= a < b < |log|
      ensures RunDataset(working, log[a].0, log[a].1) != RunDataset(working, log[b].0, log[b].1)
    {
      if RunDataset(working, log[a].0, log[a].1) == RunDataset(working, log[b].0, log[b].1) {
        RunDatasetInjective(working, log[a].0, log[a].1, log[b].0, log[b].1);
      }
    }
  }

  class Session {
    /** The immutable parameters. */
    const config: Config
    /** Whether the workers are stopping. */
    var stopping: bool
    /** Every attempt started in the session, as (worker, run). */
    ghost var attempts: seq<(nat, nat)>

    constructor(config: Config)
      ensures this.config == config
      ensures !stopping && attempts == []
    {
      this.config := config;
      stopping := false;
      attempts := [];
    }

    /** Attempt `run` of worker `which` (`gocrash_worker_run_one`), logged
        in the session's attempts. */
    method RunAttempt(which: nat, run: nat, env: AttemptEnv) returns (result: Result<(), Error>)
      modifies this`attempts
      ensures attempts == old(attempts) + [(which, run)]
      ensures result == RunOne(config, which, run, env).result
      ensures result.Ok? <==> AttemptSucceeds(env, config.keepSuccess)
    {
      var attempt := RunOne(config, which, run, env);
      attempts := attempts + [(which, run)];
      result := attempt.result;
    }

    /** Worker `which`: while the flag is clear, run the suite with the
        run index `ntries`; a failed run sets the flag and ends the worker
        with that run's error, a successful one counts, and reaching the
        run limit ends the worker normally. `interruptedAfter` is another
        worker's failure: it sets the flag before this worker's first run
        (`Some(0)`) or during its run number `n` (`Some(n)`), so that the
        worker finds the flag set at the next check. */
    method Worker(which: nat, env: seq<AttemptEnv>, interruptedAfter: Option<nat>) returns (wr: WorkerResult)
      requires Ends(config.stopAfter, config.keepSuccess, FlagSeen(stopping, interruptedAfter), env)
      modifies this
      // the flag ends set exactly when it was found set or this worker
      // failed, and it is found set exactly where it was set
      ensures var seen := FlagSeen(old(stopping), interruptedAfter);
        stopping == (wr.result.Err? || (seen.Some? && seen.value <= wr.ntries))
      ensures Reports(config, which, env, FlagSeen(old(stopping), interruptedAfter), wr)
      // the runs started use the indices 0, 1, 2, ... in order
      ensures wr.result.Ok? ==> attempts == old(attempts) + Runs(which, wr.ntries)
      ensures wr.result.Err? ==> attempts == old(attempts) + Runs(which, wr.ntries + 1)
    {
      ghost var seen := FlagSeen(stopping, interruptedAfter);
      if interruptedAfter == Some(0) {
        stopping := true;
      }
      var ntries: nat := 0;
      while !stopping
        invariant stopping == (seen.Some? && seen.value <= ntries)
        invariant seen.Some? ==> ntries <= seen.value
        invariant ntries <= |env|
        invariant SucceedsUpTo(env, config.keepSuccess, ntries)
        invariant attempts == old(attempts) + Runs(which, ntries)
        invariant config.stopAfter.Some? ==> ntries < RunsUntilLimit(config.stopAfter.value)
        decreases |env| - ntries
      {
        RunsLeft(config, env, seen, ntries);
        var result := RunAttempt(which, ntries, env[ntries]);
        assert attempts == old(attempts) + Runs(which, ntries + 1) by {
          assert Runs(which, ntries + 1) == Runs(which, ntries) + [(which, ntries)];
        }
        if result.Err? {
          stopping := true;
          wr := WorkerResult(ntries, result);
          return;
        }
        assert SucceedsUpTo(env, config.keepSuccess, ntries + 1);
        ntries := ntries + 1;
        if interruptedAfter == Some(ntries) {
          stopping := true;
        }
        if config.stopAfter.Some? && ntries >= config.stopAfter.value {
          break;
        }
      }
      wr := WorkerResult(ntries, Ok(()));
    }
  }
}
