/** The top level (`gocrash`): derive the working dataset's name, create
    it, run one worker per thread index, and combine the workers' results
    into the overall outcome. The threads are run one after another: each
    worker runs to its end before the next starts, which is one of the
    interleavings the real threads allow. */
module Coordinator {
  import opened Results
  import opened Errors
  import opened Names
  import opened Commands
  import opened Attempts
  import opened Workers

  /** The command-line arguments. */
  datatype Args = Args(
    concurrency: nat,        // number of worker threads
    stopAfter: Option<nat>,  // runs per thread; None: until a run fails
    keepSuccess: bool,       // keep the datasets of successful runs
    snapshot: string)        // `<dataset>@<snapshot>` to clone

  /** What joining a worker thread gives. */
  datatype Joined = Finished(wr: WorkerResult) | Panicked

  predicate Failed(j: Joined) {
    j.Finished? && j.wr.result.Err?
  }

  /** The number of workers that finished with an error. */
  function ErrorCount(joined: seq<Joined>): (n: nat)
    ensures n <= |joined|
    ensures n == 0 <==> forall k :: 0 <= k < |joined| ==> !Failed(joined[k])
  {
    if joined == [] then 0
    else ErrorCount(joined[..|joined| - 1]) + (if Failed(joined[|joined| - 1]) then 1 else 0)
  }

  /** Joins the workers in index order: a panicked thread ends the
      aggregation with an error naming it; otherwise the run fails exactly
      when some worker reported an error. */
  method Aggregate(joined: seq<Joined>) returns (r: Result<(), Error>)
    ensures r.Ok? <==> forall k :: 0 <= k < |joined| ==> joined[k].Finished? && joined[k].wr.result.Ok?
    ensures (forall k :: 0 <= k < |joined| ==> joined[k].Finished?) ==>
      r == if ErrorCount(joined) == 0 then Ok(()) else Err(TestFailed)
    ensures r.Err? && r.error.ThreadPanicked? ==>
      var i := r.error.index;
      i < |joined| && joined[i].Panicked? && forall k :: 0 <= k < i ==> joined[k].Finished?
    ensures (exists k :: 0 <= k < |joined| && joined[k].Panicked?) ==> r.Err? && r.error.ThreadPanicked?
    ensures r.Err? ==> r.error.ThreadPanicked? || r.error == TestFailed
  {
    var nerrors := 0;
    for i := 0 to |joined|
      invariant forall k :: 0 <= k < i ==> joined[k].Finished?
      invariant nerrors == ErrorCount(joined[..i])
    {
      assert joined[..i + 1][..i] == joined[..i];
      match joined[i] {
        case Panicked =>
          r := Err(ThreadPanicked(i));
          return;
        case Finished(wr) =>
          if wr.result.Err? {
            nerrors := nerrors + 1;
          }
      }
    }
    assert joined[..|joined|] == joined;
    if nerrors == 0 {
      r := Ok(());
    } else {
      r := Err(TestFailed);
    }
  }

  /** Some worker before worker k reported an error, so worker k found
      the flag set. */
  predicate FailedBefore(results: seq<WorkerResult>, k: nat)
    requires k <= |results|
  {
    exists j :: 0 <= j < k && results[j].result.Err?
  }

  /** Each worker reports as `Reports` says, given its own outcomes and
      whether an earlier worker had failed. */
  predicate AllReport(config: Config, envs: seq<seq<AttemptEnv>>, results: seq<WorkerResult>)
    requires |results| <= |envs|
  {
    forall k :: 0 <= k < |results| ==> Reports(config, k, envs[k], FlagSeen(FailedBefore(results, k), None), results[k])
  }

  /** Appending the result of the next worker, which reports as
      `Reports` says given the results before it, keeps every worker's
      report in order, and some worker has failed exactly when one
      before it had or it has. */
  lemma ExtendReports(config: Config, envs: seq<seq<AttemptEnv>>, results: seq<WorkerResult>, wr: WorkerResult)
    requires |results| < |envs|
    requires AllReport(config, envs, results)
    requires Reports(config, |results|, envs[|results|], FlagSeen(FailedBefore(results, |results|), None), wr)
    ensures AllReport(config, envs, results + [wr])
    ensures FailedBefore(results + [wr], |results| + 1) <==> FailedBefore(results, |results|) || wr.result.Err?
  {
    var all := results + [wr];
    forall k | 0 <= k <= |results|
      ensures FailedBefore(all, k) == FailedBefore(results, k)
    {
      assert forall j :: 0 <= j < k ==> all[j] == results[j];
    }
    if wr.result.Err? {
      assert all[|results|].result.Err?;
    }
  }

  /** The number of runs a worker started: its successful runs, and the
      failing one if there was one. */
  function Started(wr: WorkerResult): nat
  {
    if wr.result.Err? then wr.ntries + 1 else wr.ntries
  }

  /** The attempts of workers 0 to |results| - 1, worker after worker,
      each with the run indices 0, 1, 2, ... it started. */
  function SessionRuns(results: seq<WorkerResult>): seq<(nat, nat)>
  {
    if results == [] then []
    else SessionRuns(results[..|results| - 1]) + Runs(|results| - 1, Started(results[|results| - 1]))
  }

  /** The session's attempts are exactly the runs the workers started:
      attempt `(w, r)` is in the log exactly when worker `w` exists and
      started a run with index `r`. */
  lemma {:induction false} SessionRunsMembers(results: seq<WorkerResult>, w: nat, r: nat)
    ensures (w, r) in SessionRuns(results) <==> w < |results| && r < Started(results[w])
  {
    if results != [] {
      var n := |results|;
      var init := results[..n - 1];
      SessionRunsMembers(init, w, r);
      RunsMembers(n - 1, Started(results[n - 1]), (w, r));
      if w < n - 1 {
        assert init[w] == results[w];
      }
    }
  }

  /** The log of the next worker's runs follows the earlier workers'. */
  lemma SessionRunsAppend(results: seq<WorkerResult>, wr: WorkerResult)
    ensures SessionRuns(results + [wr]) == SessionRuns(results) + Runs(|results|, Started(wr))
  {
    assert (results + [wr])[..|results|] == results;
  }

  /** `gocrash`: `millis` is the clock reading, `create` the outcome of
      `zfs create` for the working dataset, and `envs[i]` the outcomes of
      worker i's runs, in run order. */
  method Gocrash(args: Args, millis: nat, create: ProcessOutcome, envs: seq<seq<AttemptEnv>>)
    returns (r: Result<(), Error>, results: seq<WorkerResult>, session: Session?)
    requires |envs| == args.concurrency
    // the outcomes decide every worker that can start a run: all of them
    // with a run limit, and the first (the others then find the flag set)
    // without one
    requires forall i :: 0 <= i < |envs| && (i == 0 || args.stopAfter.Some?) ==>
      Ends(args.stopAfter, args.keepSuccess, None, envs[i])
    ensures '@' !in args.snapshot ==> r == Err(BadSnapshot) && results == [] && session == null
    ensures '@' in args.snapshot && !Exits0(create) ==>
      var working := WorkingDataset(DatasetOfSnapshot(args.snapshot).value, millis);
      && r == Err(CommandResult("pfexec", ["zfs", "create", working], create).error)
      && results == [] && session == null
    ensures session == null <==> '@' !in args.snapshot || !Exits0(create)
    ensures session != null ==>
      var working := WorkingDataset(DatasetOfSnapshot(args.snapshot).value, millis);
      && session.config == Config(args.snapshot, args.stopAfter, args.keepSuccess, working)
      // one result per worker, in index order
      && |results| == args.concurrency
      // the run succeeds exactly when every worker does
      && (r.Ok? <==> forall k :: 0 <= k < |results| ==> results[k].result.Ok?)
      && (r.Err? ==> r.error == TestFailed)
      && (session.stopping <==> FailedBefore(results, |results|))
      // what each worker reports; once one has failed, the later ones
      // find the flag set and start no run
      && AllReport(session.config, envs, results)
      // every attempt of the session has its own dataset
      // the log holds exactly the runs the workers started, in order
      && session.attempts == SessionRuns(results)
      && Distinct(session.attempts)
      && (forall p :: p in session.attempts ==> p.0 < args.concurrency)
      && (forall a, b :: 0 <= a < b < |session.attempts| ==>
            RunDataset(working, session.attempts[a].0, session.attempts[a].1)
            != RunDataset(working, session.attempts[b].0, session.attempts[b].1))
  {
    results, session := [], null;
    var dataset := DatasetOfSnapshot(args.snapshot);
    if dataset.Err? {
      r := Err(dataset.error);
      return;
    }
    var working := WorkingDataset(dataset.value, millis);
    var created := RunCommand("pfexec", ["zfs", "create", working], create);
    CommandResultCases("pfexec", ["zfs", "create", working], create);
    if created.Err? {
      r := Err(created.error);
      return;
    }
    var config := Config(args.snapshot, args.stopAfter, args.keepSuccess, working);
    session := new Session(config);
    results := RunWorkers(session, envs);
    var joined := seq(|results|, k requires 0 <= k < |results| => Finished(results[k]));
    assert |joined| == |results| && forall k :: 0 <= k < |joined| ==> joined[k] == Finished(results[k]);
    r := Aggregate(joined);
    DistinctRunDatasets(working, session.attempts);
  }

  /** Runs workers 0 to |envs| - 1 of a fresh session, one after another,
      collecting one result per worker in index order. */
  method RunWorkers(session: Session, envs: seq<seq<AttemptEnv>>) returns (results: seq<WorkerResult>)
    requires !session.stopping && session.attempts == []
    requires forall i :: 0 <= i < |envs| && (i == 0 || session.config.stopAfter.Some?) ==>
      Ends(session.config.stopAfter, session.config.keepSuccess, None, envs[i])
    modifies session
    ensures |results| == |envs|
    ensures session.stopping <==> FailedBefore(results, |results|)
    ensures Distinct(session.attempts)
    ensures forall p :: p in session.attempts ==> p.0 < |envs|
    ensures AllReport(session.config, envs, results)
    // the log holds exactly the runs the workers started, in order
    ensures session.attempts == SessionRuns(results)
  {
    results := [];
    for i := 0 to |envs|
      invariant |results| == i
      invariant session.stopping <==> FailedBefore(results, i)
      invariant session.config.stopAfter.None? && i > 0 ==> session.stopping
      invariant Distinct(session.attempts)
      invariant forall p :: p in session.attempts ==> p.0 < i
      invariant AllReport(session.config, envs, results)
      invariant session.attempts == SessionRuns(results)
    {
      ghost var before, prev := session.attempts, results;
      var wr := session.Worker(i, envs[i], None);
      assert session.attempts == before + Runs(i, Started(wr));
      AppendRunsDistinct(before, i, Started(wr));
      SessionRunsAppend(prev, wr);
      results := results + [wr];
      ExtendReports(session.config, envs, prev, wr);
    }
  }
}
