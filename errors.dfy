/** The errors the program reports, and their text as the top-level
    handler prints them with `{:#}` (an error followed by its causes,
    separated by ": "). */
module Errors {
  import opened Digits

  datatype Error =
    | BadSnapshot                               // the snapshot argument has no '@'
    | ExecFailed(command: string, cause: string)  // the process could not be started
    | CommandFailed(message: string)            // the process ran and did not exit with 0
    | SinkOpenFailed(cause: string)             // an output file could not be created
    | ThreadPanicked(index: nat)                // a worker thread panicked
    | TestFailed                                // some worker reported an error

  const BadSnapshotMessage := "bad syntax for snapshot name (missing '@')"

  function Describe(e: Error): string
  {
    match e
    case BadSnapshot => BadSnapshotMessage
    case ExecFailed(command, cause) => "failed to exec " + command + ": " + cause
    case CommandFailed(message) => message
    case SinkOpenFailed(cause) => cause
    case ThreadPanicked(i) => "thread " + Decimal(i) + " panicked: Any { .. }"
    case TestFailed => "test failed"
  }

  /** A panic message names the thread: different threads give
      different messages. */
  lemma PanicMessageNamesThread(i: nat, j: nat)
    requires Describe(ThreadPanicked(i)) == Describe(ThreadPanicked(j))
    ensures i == j
  {
    var m := Describe(ThreadPanicked(i));
    var tail := " panicked: Any { .. }";
    assert m == "thread " + Decimal(i) + tail;
    assert m[7..|m| - |tail|] == Decimal(i);
    assert m[7..|m| - |tail|] == Decimal(j);
    DecimalInjective(i, j);
  }
}
