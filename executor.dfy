/** The execution engine: how one bounded external invocation is set up, how its
    abstract outcome becomes an `ExecutionResult`, and how output is cut to fit the
    chat transport. Spawning, waiting and decoding are not modelled: their outcome is
    an input. */
module Executor {
  import opened Wrappers
  import opened PyText
  import opened Paths
  import opened Models

  const DefaultCommandTimeout := 60
  const GitPullTimeout := 120
  const LogLinesDefault := 50
  const LogTailTimeout := 10
  /** Room left under the transport's message limit of about 4096 characters. */
  const MaxOutputLength := 3500
  const TruncationMarker := "...(truncated)...\n"

  datatype ExecutionResult = ExecutionResult(
    success: bool,
    output: string,
    returnCode: Option<int>,
    error: Option<string>)

  /** `ExecutionResult.__str__`. */
  function Render(r: ExecutionResult): (s: string)
    ensures r.success ==> s == r.output
    ensures !r.success && r.output != "" ==> s == "Error: " + StrOrNone(r.error) + "\n\n" + r.output
    ensures !r.success && r.output == "" ==> s == "Error: " + StrOrNone(r.error)
  {
    if r.success then r.output
    else if r.output != "" then "Error: " + StrOrNone(r.error) + "\n\n" + r.output
    else "Error: " + StrOrNone(r.error)
  }

  /** A failure always reads "Error: <error>" first and still ends with the output. */
  lemma RenderFailure(r: ExecutionResult)
    requires !r.success
    ensures var s := Render(r);
      && |s| >= 7 + |StrOrNone(r.error)| + |r.output|
      && s[..7] == "Error: "
      && s[7..7 + |StrOrNone(r.error)|] == StrOrNone(r.error)
      && s[|s| - |r.output|..] == r.output
  {
  }

  /** Where the kept text of an over-long output starts: `MaxOutputLength` characters
      from the end, or just past the first line break of that tail when the break is
      past its index 0. */
  function KeptFrom(output: string): (from: nat)
    requires |output| > MaxOutputLength
    ensures var start := |output| - MaxOutputLength;
      && start <= from <= |output|
      && (from > start ==> output[from - 1] == '\n' && forall j :: start <= j < from - 1 ==> output[j] != '\n')
      && (from == start ==> output[start] == '\n' || forall j :: start <= j < |output| ==> output[j] != '\n')
      && (output[start] == '\n' ==> from == start)
  {
    var start := |output| - MaxOutputLength;
    var tail := output[start..];
    var firstNewline := Find(tail, '\n');
    assert forall j :: start <= j < |output| ==> output[j] == tail[j - start];
    if firstNewline > 0 then start + firstNewline + 1 else start
  }

  /** `_truncate_output`: keep the last `MaxOutputLength` characters, drop the partial
      first line when the first line break is past index 0, and prefix the marker. */
  function TruncateOutput(output: string): (r: string)
    ensures |output| <= MaxOutputLength ==> r == output
    ensures |output| > MaxOutputLength ==>
              && |TruncationMarker| <= |r| <= |TruncationMarker| + MaxOutputLength
              && r[..|TruncationMarker|] == TruncationMarker
              && r[|TruncationMarker|..] == output[|output| - (|r| - |TruncationMarker|)..]
  {
    if |output| <= MaxOutputLength then output
    else
      var from := KeptFrom(output);
      assert (TruncationMarker + output[from..])[|TruncationMarker|..] == output[from..];
      TruncationMarker + output[from..]
  }

  /** The text after the marker, for an output that had to be truncated. */
  function TruncatedBody(output: string): (body: string)
    requires |output| > MaxOutputLength
  {
    TruncateOutput(output)[|TruncationMarker|..]
  }

  /** When the tail's first line break is at index `i > 0`, the body is what follows it. */
  lemma TruncateDropsPartialLine(output: string, i: nat)
    requires |output| > MaxOutputLength
    requires var tail := output[|output| - MaxOutputLength..];
      0 < i < |tail| && tail[i] == '\n' && forall j :: 0 <= j < i ==> tail[j] != '\n'
    ensures TruncateOutput(output) == TruncationMarker + output[|output| - MaxOutputLength + i + 1..]
  {
    var tail := output[|output| - MaxOutputLength..];
    assert Find(tail, '\n') == i;
    assert KeptFrom(output) == |output| - MaxOutputLength + i + 1;
  }

  /** With no line break in the tail, or one at index 0, the whole tail is kept. */
  lemma TruncateKeepsWholeTail(output: string)
    requires |output| > MaxOutputLength
    requires var tail := output[|output| - MaxOutputLength..];
      tail[0] == '\n' || forall j :: 0 <= j < |tail| ==> tail[j] != '\n'
    ensures TruncateOutput(output) == TruncationMarker + output[|output| - MaxOutputLength..]
  {
  }

  /** The body starts on a line boundary whenever the tail holds a line break: either
      the character before it in the output is a line break, or it begins with one. */
  lemma TruncatedBodyLineAligned(output: string, i: nat)
    requires |output| > MaxOutputLength
    requires |output| - MaxOutputLength <= i < |output| && output[i] == '\n'
    ensures var body := TruncatedBody(output);
      (|body| < MaxOutputLength && output[|output| - |body| - 1] == '\n')
      || (body == output[|output| - MaxOutputLength..] && body[0] == '\n')
  {
    var start := |output| - MaxOutputLength;
    var tail := output[start..];
    var k := Find(tail, '\n');
    assert tail[i - start] == '\n';
    assert k >= 0;
    var from := KeptFrom(output);
    assert TruncatedBody(output) == output[from..] by {
      assert (TruncationMarker + output[from..])[|TruncationMarker|..] == output[from..];
    }
    if k > 0 {
      assert output[from - 1] == tail[k];
    }
  }

  /** What a spawned process came to. The texts are `str(e)` of the exception raised. */
  datatype ProcessOutcome =
    | Completed(returnCode: int, output: string)  // exited; combined stdout/stderr, decoded
    | TimedOut(message: string)                   // the wait exceeded its timeout
    | NotFound(message: string)                   // the executable or directory is missing
    | Failed(message: string)                     // any other exception

  /** One external-process invocation: argument vector, working directory, timeout. */
  datatype Invocation = Invocation(argv: seq<string>, cwd: Option<Path>, timeout: int)

  /** Either a result decided before any process starts, or a process to start. */
  datatype Step = Decided(result: ExecutionResult) | Spawn(invocation: Invocation)

  /** `AppExecutor`: its only state is the timeout of control-script commands. */
  datatype AppExecutor = AppExecutor(commandTimeout: int) {

    /** The invocation `run` makes: `[script_path, get_command(action)] + extra_args`,
        in the application root, under the command timeout. */
    function RunInvocation(app: AppConfig, action: string, extraArgs: Option<seq<string>>): (inv: Invocation)
      ensures inv.argv == [PathString(ScriptPath(app)), GetCommand(app, action)] + extraArgs.GetOr([])
      ensures inv.cwd == Some(app.path) && inv.timeout == commandTimeout
    {
      var cmd := [PathString(ScriptPath(app)), GetCommand(app, action)];
      var argv := if extraArgs.Some? && |extraArgs.value| > 0 then cmd + extraArgs.value else cmd;
      Invocation(argv, Some(app.path), commandTimeout)
    }

    /** The result `run` returns for an outcome of its invocation. */
    function RunResult(app: AppConfig, outcome: ProcessOutcome): (r: ExecutionResult)
      ensures r.success <==> outcome.Completed? && outcome.returnCode == 0
      ensures r.returnCode.Some? <==> outcome.Completed?
      ensures outcome.Completed? ==>
                r.returnCode == Some(outcome.returnCode) && r.output == TruncateOutput(outcome.output) && r.error == None
      ensures outcome.TimedOut? ==>
                r.output == "" && r.error == Some("Command timed out after " + IntToString(commandTimeout) + " seconds")
      ensures outcome.NotFound? ==>
                r.output == "" && r.error == Some("Script not found: " + PathString(ScriptPath(app)))
      ensures outcome.Failed? ==> r.output == "" && r.error == Some(outcome.message)
    {
      match outcome
      case Completed(code, output) =>
        ExecutionResult(code == 0, TruncateOutput(output), Some(code), None)
      case TimedOut(_) =>
        ExecutionResult(false, "", None, Some("Command timed out after " + IntToString(commandTimeout) + " seconds"))
      case NotFound(_) =>
        ExecutionResult(false, "", None, Some("Script not found: " + PathString(ScriptPath(app))))
      case Failed(message) =>
        ExecutionResult(false, "", None, Some(message))
    }
  }

  /** `AppExecutor()`, as the handlers build it when none is given. */
  const DefaultExecutor := AppExecutor(DefaultCommandTimeout)

  /** The default executor runs control scripts under a 60-second timeout and says so
      when one expires. */
  lemma DefaultExecutorTimeout(app: AppConfig, action: string, extraArgs: Option<seq<string>>, message: string)
    ensures DefaultExecutor.RunInvocation(app, action, extraArgs).timeout == 60
    ensures DefaultExecutor.RunResult(app, TimedOut(message)).error == Some("Command timed out after 60 seconds")
  {
    assert NatToString(6) == "6";
    assert NatToString(60) == "60";
    assert IntToString(DefaultCommandTimeout) == "60";
    assert "Command timed out after " + "60" + " seconds" == "Command timed out after 60 seconds";
  }

  /** The invocation `git_pull` makes. */
  function GitPullInvocation(app: AppConfig): (inv: Invocation)
    ensures inv == Invocation(["git", "pull"], Some(app.path), GitPullTimeout)
  {
    Invocation(["git", "pull"], Some(app.path), GitPullTimeout)
  }

  /** The result `git_pull` returns: like `run`, but the output is never truncated and
      a missing executable is reported by its exception text. */
  function GitPullResult(outcome: ProcessOutcome): (r: ExecutionResult)
    ensures r.success <==> outcome.Completed? && outcome.returnCode == 0
    ensures outcome.Completed? ==>
              r.returnCode == Some(outcome.returnCode) && r.output == outcome.output && r.error == None
    ensures outcome.TimedOut? ==>
              r.output == "" && r.returnCode == None && r.error == Some("Git pull timed out after " + IntToString(GitPullTimeout) + " seconds")
    ensures (outcome.NotFound? || outcome.Failed?) ==>
              r.output == "" && r.returnCode == None && r.error == Some(outcome.message)
  {
    match outcome
    case Completed(code, output) => ExecutionResult(code == 0, output, Some(code), None)
    case TimedOut(_) =>
      ExecutionResult(false, "", None, Some("Git pull timed out after " + IntToString(GitPullTimeout) + " seconds"))
    case NotFound(message) => ExecutionResult(false, "", None, Some(message))
    case Failed(message) => ExecutionResult(false, "", None, Some(message))
  }

  /** The git timeout message reads "... after 120 seconds". */
  lemma GitPullTimeoutMessage()
    ensures GitPullResult(TimedOut("")).error == Some("Git pull timed out after 120 seconds")
  {
    assert NatToString(1) == "1";
    assert NatToString(12) == "12";
    assert NatToString(120) == "120";
    assert IntToString(GitPullTimeout) == "120";
    assert "Git pull timed out after " + "120" + " seconds" == "Git pull timed out after 120 seconds";
  }

  /** Every output `run` hands back fits the transport budget; `git_pull`'s need not. */
  lemma RunOutputBounded(ex: AppExecutor, app: AppConfig, outcome: ProcessOutcome)
    ensures |ex.RunResult(app, outcome).output| <= |TruncationMarker| + MaxOutputLength
  {
  }

  /** `git_pull` passes long output through where `run` would truncate it. */
  lemma GitPullKeepsLongOutput(ex: AppExecutor, app: AppConfig, code: int, output: string)
    requires |output| > |TruncationMarker| + MaxOutputLength
    ensures GitPullResult(Completed(code, output)).output == output
    ensures ex.RunResult(app, Completed(code, output)).output != output
  {
  }

  /** The log file `get_logs` reads: the backend log for "backend", the frontend log
      for every other service name. */
  function LogFile(app: AppConfig, service: string): (p: Path)
    ensures service == "backend" ==> p == ParsePath(app.logBackend)
    ensures service != "backend" ==> p == ParsePath(app.logFrontend)
  {
    ParsePath(if service == "backend" then app.logBackend else app.logFrontend)
  }

  /** The first phase of `get_logs`: fail at once on a missing log file, otherwise
      tail its last `lines` lines under the log timeout. */
  function GetLogsStep(app: AppConfig, service: string, lines: int, fs: FileSystem): (step: Step)
    ensures step.Decided? <==> LogFile(app, service) !in fs.existing
    ensures step.Decided? ==>
              step.result == ExecutionResult(false, "", None,
                               Some("Log file not found: " + PathString(LogFile(app, service))))
    ensures step.Spawn? ==>
              step.invocation == Invocation(["tail", "-n", IntToString(lines), PathString(LogFile(app, service))],
                                            None, LogTailTimeout)
  {
    var logFile := LogFile(app, service);
    if logFile !in fs.existing then
      Decided(ExecutionResult(false, "", None, Some("Log file not found: " + PathString(logFile))))
    else
      Spawn(Invocation(["tail", "-n", IntToString(lines), PathString(logFile)], None, LogTailTimeout))
  }

  /** `get_logs` called without `lines` tails the last 50 lines of an existing log. */
  lemma GetLogsDefaultLines(app: AppConfig, service: string, fs: FileSystem)
    requires LogFile(app, service) in fs.existing
    ensures GetLogsStep(app, service, LogLinesDefault, fs)
            == Spawn(Invocation(["tail", "-n", "50", PathString(LogFile(app, service))], None, 10))
  {
    assert NatToString(5) == "5";
    assert NatToString(50) == "50";
    assert IntToString(LogLinesDefault) == "50";
  }

  /** The result `get_logs` returns once `tail` ran: success whatever its exit code;
      any exception, a timeout included, is reported by its text. */
  function LogsResult(outcome: ProcessOutcome): (r: ExecutionResult)
    ensures r.success <==> outcome.Completed?
    ensures outcome.Completed? ==>
              r.returnCode == Some(outcome.returnCode) && r.output == TruncateOutput(outcome.output) && r.error == None
    ensures !outcome.Completed? ==> r.output == "" && r.returnCode == None && r.error == Some(outcome.message)
    ensures |r.output| <= |TruncationMarker| + MaxOutputLength
  {
    match outcome
    case Completed(code, output) => ExecutionResult(true, TruncateOutput(output), Some(code), None)
    case TimedOut(message) => ExecutionResult(false, "", None, Some(message))
    case NotFound(message) => ExecutionResult(false, "", None, Some(message))
    case Failed(message) => ExecutionResult(false, "", None, Some(message))
  }
}
