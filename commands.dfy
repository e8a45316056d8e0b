/** Running an external command: the label that names it in messages
    (`command_label`) and the result or failure report it produces
    (`run_command`). The process itself is an oracle: `ProcessOutcome`
    says whether it could be started and, if so, how it ended and what
    it wrote. */
module Commands {
  import opened Results
  import opened Digits
  import opened Errors

  // ---------------------------------------------------------------------
  // Quoting, as Rust's `{:?}` renders a string

  /** The escape for one character inside a quoted string. */
  function EscapeChar(c: char): string
  {
    if c == '"' then "\\\""
    else if c == '\\' then "\\\\"
    else if c == '\n' then "\\n"
    else if c == '\r' then "\\r"
    else if c == '\t' then "\\t"
    else if c == '\0' then "\\0"
    else [c]
  }

  function Escape(s: string): string
  {
    if s == [] then [] else EscapeChar(s[0]) + Escape(s[1..])
  }

  /** `format!("{:?}", s)`: the string between double quotes, escaped. */
  function Quote(s: string): string
  {
    "\"" + Escape(s) + "\""
  }

  /** The character an escape `\e` stands for. */
  function Unescape(e: char): Option<char>
  {
    if e == '"' then Some('"')
    else if e == '\\' then Some('\\')
    else if e == 'n' then Some('\n')
    else if e == 'r' then Some('\r')
    else if e == 't' then Some('\t')
    else if e == '0' then Some('\0')
    else None
  }

  /** Reads the body of a quoted string up to its closing quote: the
      unescaped text and what follows the quote. */
  function ReadQuoted(s: string): (r: Option<(string, string)>)
    ensures r.Some? ==> |r.value.1| < |s|
  {
    if |s| == 0 then None
    else if s[0] == '"' then Some(([], s[1..]))
    else if s[0] == '\\' then
      if |s| < 2 then None
      else match Unescape(s[1])
        case None => None
        case Some(c) =>
          match ReadQuoted(s[2..])
          case None => None
          case Some((body, rest)) => Some(([c] + body, rest))
    else
      match ReadQuoted(s[1..])
      case None => None
      case Some((body, rest)) => Some(([s[0]] + body, rest))
  }

  /** Every escape is a backslash and a character `Unescape` maps back,
      or the character itself when it needs no escape. */
  lemma EscapeCharShape(c: char)
    ensures || (c != '"' && c != '\\' && EscapeChar(c) == [c])
            || (|EscapeChar(c)| == 2 && EscapeChar(c)[0] == '\\' && Unescape(EscapeChar(c)[1]) == Some(c))
  {
  }

  /** Reading one escaped character consumes exactly its escape and
      yields the character itself in front of what the rest reads to. */
  lemma ReadQuotedStep(c: char, tail: string)
    ensures ReadQuoted(EscapeChar(c) + tail)
         == match ReadQuoted(tail)
            case None => None
            case Some((body, rest)) => Some(([c] + body, rest))
  {
    var e := EscapeChar(c);
    var s := e + tail;
    EscapeCharShape(c);
    if |e| == 2 {
      assert s[0] == '\\' && s[1] == e[1] && s[2..] == tail;
    } else {
      assert s[0] == c && s[1..] == tail;
    }
  }

  /** The escaped text, its closing quote and anything after it read back
      to the text and what follows. */
  lemma {:induction false} ReadQuotedEscape(x: string, rest: string)
    ensures ReadQuoted(Escape(x) + "\"" + rest) == Some((x, rest))
  {
    if x == [] {
      assert Escape(x) + "\"" + rest == "\"" + rest;
    } else {
      var tail := Escape(x[1..]) + "\"" + rest;
      assert Escape(x) + "\"" + rest == EscapeChar(x[0]) + tail;
      ReadQuotedEscape(x[1..], rest);
      ReadQuotedStep(x[0], tail);
      assert x == [x[0]] + x[1..];
    }
  }

  // ---------------------------------------------------------------------
  // command_label

  /** `join(" ")`: the words separated by single spaces. */
  function JoinWords(ws: seq<string>): string
  {
    if |ws| == 0 then ""
    else if |ws| == 1 then ws[0]
    else ws[0] + " " + JoinWords(ws[1..])
  }

  function QuoteAll(ws: seq<string>): (qs: seq<string>)
    ensures |qs| == |ws|
  {
    if ws == [] then [] else [Quote(ws[0])] + QuoteAll(ws[1..])
  }

  /** The label of a command: the program and then each argument, each
      quoted, separated by single spaces. It names its command without
      ambiguity: the program and each argument can be read back from it,
      whatever characters they hold. */
  function CommandLabel(program: string, args: seq<string>): (command: string)
    ensures ParseLabel(command) == Some([program] + args)
  {
    ParseJoinedQuotes([program] + args);
    JoinWords(QuoteAll([program] + args))
  }

  /** Reads a label back into the words it quotes. */
  function ParseLabel(s: string): Option<seq<string>>
    decreases |s|
  {
    if |s| == 0 || s[0] != '"' then None
    else match ReadQuoted(s[1..])
      case None => None
      case Some((word, rest)) =>
        if rest == [] then Some([word])
        else if rest[0] != ' ' then None
        else match ParseLabel(rest[1..])
          case None => None
          case Some(words) => Some([word] + words)
  }

  lemma {:induction false} ParseJoinedQuotes(ws: seq<string>)
    requires |ws| > 0
    ensures ParseLabel(JoinWords(QuoteAll(ws))) == Some(ws)
  {
    var qs := QuoteAll(ws);
    if |ws| == 1 {
      var s := JoinWords(qs);
      assert s == "\"" + (Escape(ws[0]) + "\"" + []);
      assert s[1..] == Escape(ws[0]) + "\"" + [];
      ReadQuotedEscape(ws[0], []);
      assert ws == [ws[0]];
    } else {
      var more := JoinWords(QuoteAll(ws[1..]));
      assert qs[1..] == QuoteAll(ws[1..]);
      assert JoinWords(qs) == "\"" + (Escape(ws[0]) + "\"" + (" " + more));
      ReadQuotedEscape(ws[0], " " + more);
      assert (" " + more)[1..] == more;
      ParseJoinedQuotes(ws[1..]);
      assert ws == [ws[0]] + ws[1..];
    }
  }

  // ---------------------------------------------------------------------
  // run_command

  /** How a finished process ended, on a Unix system: with an exit code,
      or killed by a signal. */
  datatype ExitStatus = Exited(code: int) | Signaled(signal: int)
  {
    /** `ExitStatus::success`: exit code 0. */
    predicate Success() { this == Exited(0) }
  }

  /** What starting and waiting for a process produced. */
  datatype ProcessOutcome =
    | SpawnFailed(cause: string)
    | Completed(status: ExitStatus, stdout: string, stderr: string)

  /** The reason a process failed, as the report words it. */
  function Summary(status: ExitStatus): string
  {
    match status
    case Exited(code) => "exited with code " + SignedDecimal(code)
    case Signaled(signal) => "terminated by signal " + SignedDecimal(signal)
  }

  /** The reason a command failed is one line. */
  lemma SummaryOneLine(status: ExitStatus)
    ensures '\n' !in Summary(status)
  {
    var n := match status case Exited(code) => code case Signaled(signal) => signal;
    SignedDecimalChars(n);
    var lead := if status.Exited? then "exited with code " else "terminated by signal ";
    assert Summary(status) == lead + SignedDecimal(n);
    assert '\n' !in lead;
  }

  /** The reason determines the status: an exit code is never reported
      as a signal, nor one code or signal as another. */
  lemma SummaryInjective(a: ExitStatus, b: ExitStatus)
    requires Summary(a) == Summary(b)
    ensures a == b
  {
    var e := "exited with code ";
    var t := "terminated by signal ";
    match a
    case Exited(x) =>
      assert Summary(a)[0] == 'e';
      assert Summary(b)[0] == 'e';
      assert b.Exited?;
      assert SignedDecimal(x) == Summary(a)[|e|..];
      assert SignedDecimal(b.code) == Summary(b)[|e|..];
      SignedDecimalInjective(x, b.code);
    case Signaled(x) =>
      assert Summary(a)[0] == 't';
      assert Summary(b)[0] == 't';
      assert b.Signaled?;
      assert SignedDecimal(x) == Summary(a)[|t|..];
      assert SignedDecimal(b.signal) == Summary(b)[|t|..];
      SignedDecimalInjective(x, b.signal);
  }

  /** The start of a failure report's first line, which names the
      command. */
  function HeaderPrefix(command: string): string
  {
    "command failed: " + command + ": "
  }

  function Header(command: string, status: ExitStatus): string
  {
    HeaderPrefix(command) + Summary(status)
  }

  /** A captured stream's section of the report, under its heading: empty
      for an empty stream. */
  function Section(heading: string, text: string): string
  {
    if |text| > 0 then heading + text + "\n" else ""
  }

  /** A report: the header, then the stderr section, then the stdout
      section. */
  function WithSections(header: string, stdout: string, stderr: string): string
  {
    header + Sections(stdout, stderr)
  }

  /** The stderr section, then the stdout section: each ten characters
      longer than its stream when present, and starting on a new line. */
  function Sections(stdout: string, stderr: string): (x: string)
    ensures |x| == (if |stderr| > 0 then |stderr| + 10 else 0) + (if |stdout| > 0 then |stdout| + 10 else 0)
    ensures x == [] || x[0] == '\n'
  {
    Section("\nstderr:\n", stderr) + Section("\nstdout:\n", stdout)
  }

  /** The report of a failed command. */
  function FailureText(command: string, status: ExitStatus, stdout: string, stderr: string): string
  {
    WithSections(Header(command, status), stdout, stderr)
  }

  /** The three pieces of a concatenation, cut back out of it. */
  lemma Pieces(h: string, a: string, b: string)
    ensures var t := h + a + b;
      && t[..|h|] == h
      && t[|h|..|h| + |a|] == a
      && t[|h| + |a|..] == b
  {
  }

  /** What a report holds: it opens with its header; it is just the header
      when nothing was captured; a non-empty stdout ends it; a non-empty
      stderr comes right after the header. */
  lemma SectionsShape(header: string, stdout: string, stderr: string)
    ensures var t := WithSections(header, stdout, stderr);
      && |header| <= |t| && t[..|header|] == header
      && (t == header <==> |stdout| == 0 && |stderr| == 0)
      && |t| == |header| + (if |stderr| > 0 then |stderr| + 10 else 0)
                         + (if |stdout| > 0 then |stdout| + 10 else 0)
      && (|stdout| > 0 ==> t[|t| - (|stdout| + 10)..] == "\nstdout:\n" + stdout + "\n")
      && (|stderr| > 0 ==> t[|header|..|header| + |stderr| + 10] == "\nstderr:\n" + stderr + "\n")
  {
    var e := Section("\nstderr:\n", stderr);
    var o := Section("\nstdout:\n", stdout);
    assert |e| == if |stderr| > 0 then |stderr| + 10 else 0;
    assert |o| == if |stdout| > 0 then |stdout| + 10 else 0;
    Pieces(header, e, o);
  }

  /** The result of `run_command`: the captured stdout when the process
      exits with 0; otherwise an error naming the command. */
  function CommandResult(program: string, args: seq<string>, outcome: ProcessOutcome): Result<string, Error>
  {
    var command := CommandLabel(program, args);
    match outcome
    case SpawnFailed(cause) => Err(ExecFailed(command, cause))
    case Completed(status, stdout, stderr) =>
      if status.Success() then Ok(stdout)
      else Err(CommandFailed(FailureText(command, status, stdout, stderr)))
  }

  /** A command succeeds exactly when it starts and exits with code 0, and
      then yields its stdout; a command that cannot start is reported as
      such, under its label; any other ending is reported with its label,
      its reason and its captured output. */
  lemma CommandResultCases(program: string, args: seq<string>, outcome: ProcessOutcome)
    ensures var r := CommandResult(program, args, outcome);
      && (r.Ok? <==> outcome.Completed? && outcome.status.Success())
      && (r.Ok? ==> r.value == outcome.stdout)
      && (outcome.SpawnFailed? ==> r == Err(ExecFailed(CommandLabel(program, args), outcome.cause)))
      && (outcome.Completed? && !outcome.status.Success() ==>
            r == Err(CommandFailed(FailureText(CommandLabel(program, args), outcome.status,
                                               outcome.stdout, outcome.stderr))))
  {
  }

  /** The text up to its first line break. */
  function FirstLine(s: string): string
  {
    if s == [] || s[0] == '\n' then [] else [s[0]] + FirstLine(s[1..])
  }

  lemma {:induction false} FirstLineOf(line: string, more: string)
    requires '\n' !in line
    requires more == [] || more[0] == '\n'
    ensures FirstLine(line + more) == line
  {
    if line != [] {
      assert (line + more)[1..] == line[1..] + more;
      FirstLineOf(line[1..], more);
    } else {
      assert line + more == more;
    }
  }

  /** What a failure report holds after `command failed: <command>: `:
      the reason, then the sections. */
  lemma ReportAfterPrefix(command: string, status: ExitStatus, stdout: string, stderr: string)
    ensures var p := HeaderPrefix(command);
      var t := FailureText(command, status, stdout, stderr);
      && |p| <= |t| && t[..|p|] == p
      && t[|p|..] == Summary(status) + Sections(stdout, stderr)
  {
    var p := HeaderPrefix(command);
    assert FailureText(command, status, stdout, stderr) == p + (Summary(status) + Sections(stdout, stderr));
  }

  /** A failure report names the exit status it was made for: the reason
      is the rest of the header's line, and every section starts on a new
      line. */
  lemma FailureTextDeterminesStatus(command: string, status: ExitStatus, stdout: string, stderr: string,
                                    status': ExitStatus, stdout': string, stderr': string)
    requires FailureText(command, status, stdout, stderr) == FailureText(command, status', stdout', stderr')
    ensures status == status'
  {
    var x := Sections(stdout, stderr);
    var x' := Sections(stdout', stderr');
    ReportAfterPrefix(command, status, stdout, stderr);
    ReportAfterPrefix(command, status', stdout', stderr');
    assert Summary(status) + x == Summary(status') + x';
    SummaryOneLine(status);
    SummaryOneLine(status');
    FirstLineOf(Summary(status), x);
    FirstLineOf(Summary(status'), x');
    SummaryInjective(status, status');
  }

  /** A failure report begins with "command failed". */
  lemma ReportHead(command: string, status: ExitStatus, stdout: string, stderr: string)
    ensures var t := FailureText(command, status, stdout, stderr);
      |t| >= 14 && t[..14] == "command failed"
  {
    ReportAfterPrefix(command, status, stdout, stderr);
    var t := FailureText(command, status, stdout, stderr);
    var p := HeaderPrefix(command);
    assert p[..14] == "command failed";
    assert t[..14] == t[..|p|][..14];
  }

  /** The message of a command that could not be started begins with
      "failed to exec". */
  lemma ExecMessageHead(command: string, cause: string)
    ensures var m := Describe(ExecFailed(command, cause));
      |m| >= 14 && m[..14] == "failed to exec"
  {
    var m := "failed to exec " + command + ": " + cause;
    assert m[..14] == "failed to exec";
  }

  /** How the message of a failed command begins: "failed to exec" when it
      could not be started, "command failed" otherwise. */
  lemma MessageHead(program: string, args: seq<string>, outcome: ProcessOutcome)
    requires CommandResult(program, args, outcome).Err?
    ensures var m := Describe(CommandResult(program, args, outcome).error);
      |m| >= 14 && m[..14] == (if outcome.SpawnFailed? then "failed to exec" else "command failed")
  {
    var command := CommandLabel(program, args);
    CommandResultCases(program, args, outcome);
    if outcome.Completed? {
      ReportHead(command, outcome.status, outcome.stdout, outcome.stderr);
    } else {
      ExecMessageHead(command, outcome.cause);
    }
  }

  /** The message of a failed command tells its failures apart: a command
      that could not be started never reads like one that ran and failed,
      and the message names the cause of the one and the exit status of
      the other. */
  lemma CommandErrorsDistinguish(program: string, args: seq<string>, outcome: ProcessOutcome, outcome': ProcessOutcome)
    requires CommandResult(program, args, outcome).Err? && CommandResult(program, args, outcome').Err?
    requires Describe(CommandResult(program, args, outcome).error)
          == Describe(CommandResult(program, args, outcome').error)
    ensures outcome.SpawnFailed? <==> outcome'.SpawnFailed?
    ensures outcome.SpawnFailed? ==> outcome.cause == outcome'.cause
    ensures outcome.Completed? ==> outcome.status == outcome'.status
  {
    MessageHead(program, args, outcome);
    MessageHead(program, args, outcome');
    var command := CommandLabel(program, args);
    if outcome.SpawnFailed? && outcome'.SpawnFailed? {
      var p := "failed to exec " + command + ": ";
      assert outcome.cause == Describe(CommandResult(program, args, outcome).error)[|p|..];
      assert outcome'.cause == Describe(CommandResult(program, args, outcome').error)[|p|..];
    } else if outcome.Completed? && outcome'.Completed? {
      FailureTextDeterminesStatus(command, outcome.status, outcome.stdout, outcome.stderr,
                                  outcome'.status, outcome'.stdout, outcome'.stderr);
    }
  }

  /** A report is its header followed by one section after the other. */
  lemma SectionsInOrder(header: string, stdout: string, stderr: string)
    ensures WithSections(header, stdout, stderr)
         == header + Section("\nstderr:\n", stderr) + Section("\nstdout:\n", stdout)
  {
  }

  /** The failure report of `run_command`, built step by step: the
      header with the reason, then each non-empty captured stream. */
  method FailureReport(command: string, status: ExitStatus, stdout: string, stderr: string)
    returns (output: string)
    ensures output == FailureText(command, status, stdout, stderr)
  {
    var summary;
    match status {
      case Exited(code) =>
        summary := "exited with code " + SignedDecimal(code);
      case Signaled(signal) =>
        summary := "terminated by signal " + SignedDecimal(signal);
    }
    assert summary == Summary(status);
    // each write! appends one formatted piece to the buffer, which starts
    // out empty
    output := "command failed: " + command + ": " + summary;
    assert output == Header(command, status);
    if |stderr| > 0 {
      output := output + ("\nstderr:\n" + stderr + "\n");
    }
    assert output == Header(command, status) + Section("\nstderr:\n", stderr);
    if |stdout| > 0 {
      output := output + ("\nstdout:\n" + stdout + "\n");
    }
    assert output == Header(command, status) + Section("\nstderr:\n", stderr) + Section("\nstdout:\n", stdout);
    SectionsInOrder(Header(command, status), stdout, stderr);
  }

  /** `run_command`: the label, then the outcome of the process. */
  method RunCommand(program: string, args: seq<string>, outcome: ProcessOutcome) returns (r: Result<string, Error>)
    ensures r == CommandResult(program, args, outcome)
  {
    var command := CommandLabel(program, args);
    match outcome {
      case SpawnFailed(cause) =>
        r := Err(ExecFailed(command, cause));
      case Completed(status, stdout, stderr) =>
        if status.Success() {
          r := Ok(stdout);
        } else {
          var output := FailureReport(command, status, stdout, stderr);
          r := Err(CommandFailed(output));
        }
    }
  }
}
