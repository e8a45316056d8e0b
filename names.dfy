/** The names the program derives: the dataset part of the snapshot
    argument, the session's working dataset and one dataset per attempt
    (src/main.rs, `gocrash` and `gocrash_worker_run_one`). */
module Names {
  import opened Results
  import opened Digits
  import opened Errors

  /** `str::split_once(c)`: the text before and after the first `c`. */
  function SplitOnce(s: string, c: char): (r: Option<(string, string)>)
    ensures r.None? <==> c !in s
    ensures r.Some? ==> s == r.value.0 + [c] + r.value.1 && c !in r.value.0
  {
    if |s| == 0 then None
    else if s[0] == c then Some(([], s[1..]))
    else match SplitOnce(s[1..], c)
      case None => None
      case Some((before, after)) => Some(([s[0]] + before, after))
  }

  /** A string splits in only one way around a first occurrence of `c`. */
  lemma {:induction false} SplitUnique(a: string, b: string, a': string, b': string, c: char)
    requires c !in a && c !in a'
    requires a + [c] + b == a' + [c] + b'
    ensures a == a' && b == b'
  {
    var s := a + [c] + b;
    if |a| == 0 || |a'| == 0 {
      assert s[0] == c;
      assert b == s[1..] == b';
    } else {
      assert a[0] == a'[0];
      assert a[1..] + [c] + b == (a + [c] + b)[1..] == (a' + [c] + b')[1..] == a'[1..] + [c] + b';
      SplitUnique(a[1..], b, a'[1..], b', c);
      assert a == [a[0]] + a[1..];
      assert a' == [a'[0]] + a'[1..];
    }
  }

  /** Splitting undoes the join at a first occurrence. */
  lemma SplitOnceOfJoin(a: string, b: string, c: char)
    requires c !in a
    ensures SplitOnce(a + [c] + b, c) == Some((a, b))
  {
    var r := SplitOnce(a + [c] + b, c);
    assert c in a + [c] + b by { assert (a + [c] + b)[|a|] == c; }
    SplitUnique(r.value.0, r.value.1, a, b, c);
  }

  /** The dataset named by a snapshot argument `<dataset>@<snapshot>`:
      an error when there is no '@', otherwise everything before the
      first '@'. */
  function DatasetOfSnapshot(snapshot: string): (r: Result<string, Error>)
    ensures r.Err? <==> '@' !in snapshot
    ensures r.Err? ==> r.error == BadSnapshot
    ensures r.Ok? ==> '@' !in r.value && |r.value| < |snapshot|
                      && r.value == snapshot[..|r.value|] && snapshot[|r.value|] == '@'
  {
    match SplitOnce(snapshot, '@')
    case None => Err(BadSnapshot)
    case Some((dataset, _)) =>
      assert snapshot[..|dataset|] == dataset;
      Ok(dataset)
  }

  /** Any dataset name without an '@' is recovered from any snapshot of it. */
  lemma DatasetOfSnapshotOf(dataset: string, snap: string)
    requires '@' !in dataset
    ensures DatasetOfSnapshot(dataset + "@" + snap) == Ok(dataset)
  {
    SplitOnceOfJoin(dataset, snap, '@');
  }

  /** `<dataset>/gocrash-<millis>`: the session's working dataset, a
      direct child of the snapshot's dataset. */
  function WorkingDataset(dataset: string, millis: nat): (working: string)
    ensures |working| > |dataset| + 1 && working[..|dataset| + 1] == dataset + "/"
    ensures '/' !in working[|dataset| + 1..]
  {
    DecimalHasNoSlash(millis);
    var key := "gocrash-" + Decimal(millis);
    assert (dataset + "/" + key)[|dataset| + 1..] == key;
    dataset + "/" + key
  }

  /** A numeral holds no '/'. */
  lemma DecimalHasNoSlash(n: nat)
    ensures '/' !in Decimal(n)
  {
    var s := Decimal(n);
    assert forall k :: 0 <= k < |s| ==> s[k] != '/';
  }

  /** Sessions started at different milliseconds use different working
      datasets. */
  lemma WorkingDatasetInjective(dataset: string, m: nat, n: nat)
    requires WorkingDataset(dataset, m) == WorkingDataset(dataset, n)
    ensures m == n
  {
    var p := dataset + "/" + "gocrash-";
    assert Decimal(m) == WorkingDataset(dataset, m)[|p|..];
    assert Decimal(n) == WorkingDataset(dataset, n)[|p|..];
    DecimalInjective(m, n);
  }

  /** `thread-<which>-run-<run>`: the key of one attempt, a single
      component of a dataset name. */
  function RunKey(which: nat, run: nat): (key: string)
    ensures |key| > 0 && '/' !in key
  {
    DecimalHasNoSlash(which);
    DecimalHasNoSlash(run);
    "thread-" + Decimal(which) + "-run-" + Decimal(run)
  }

  /** `<working>/thread-<which>-run-<run>`: the dataset of one attempt, a
      direct child of the working dataset. */
  function RunDataset(working: string, which: nat, run: nat): (ds: string)
    ensures |ds| > |working| + 1 && ds[..|working| + 1] == working + "/"
    ensures '/' !in ds[|working| + 1..]
  {
    assert (working + "/" + RunKey(which, run))[|working| + 1..] == RunKey(which, run);
    working + "/" + RunKey(which, run)
  }

  /** Reads the worker and run indices back out of a run key. */
  function ParseRunKey(key: string): Option<(nat, nat)>
  {
    if |key| < 7 || key[..7] != "thread-" then None
    else match SplitOnce(key[7..], '-')
      case None => None
      case Some((which, rest)) =>
        if IsDigits(which) && |rest| >= 4 && rest[..4] == "run-" && IsDigits(rest[4..])
        then Some((DigitsValue(which), DigitsValue(rest[4..])))
        else None
  }

  /** A run key names its worker and run: because a numeral never holds a
      '-', the first '-' after `thread-` ends the worker index. */
  lemma RunKeyRoundTrip(which: nat, run: nat)
    ensures ParseRunKey(RunKey(which, run)) == Some((which, run))
  {
    var key := RunKey(which, run);
    var w := Decimal(which);
    var tail := "run-" + Decimal(run);
    assert key[..7] == "thread-";
    assert key[7..] == w + ['-'] + tail;
    assert '-' !in w;
    SplitOnceOfJoin(w, tail, '-');
    assert tail[4..] == Decimal(run);
    DecimalRoundTrip(which);
    DecimalRoundTrip(run);
  }

  /** No two attempts of one session share a dataset: the run dataset
      name determines the worker and run indices. */
  lemma RunDatasetInjective(working: string, which: nat, run: nat, which': nat, run': nat)
    requires RunDataset(working, which, run) == RunDataset(working, which', run')
    ensures which == which' && run == run'
  {
    var p := working + "/";
    assert RunKey(which, run) == RunDataset(working, which, run)[|p|..];
    assert RunKey(which', run') == RunDataset(working, which', run')[|p|..];
    RunKeyRoundTrip(which, run);
    RunKeyRoundTrip(which', run');
  }
}
