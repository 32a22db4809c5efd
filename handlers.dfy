/** The decisions the bot's command handlers make around the executor: which
    arguments they accept, which application they resolve, which executor calls they
    make and in what order, and the text of the application list. Executor calls are
    answered by an oracle; Telegram replies are reduced to the outcome they report. */
module Handlers {
  import opened Wrappers
  import opened PyText
  import opened Paths
  import opened Models
  import opened Executor
  import opened Registry

  /** `_get_app_name`: the first argument, when there is one. */
  function GetAppName(args: Option<seq<string>>): (name: Option<string>)
    ensures name.Some? <==> args.Some? && |args.value| > 0
    ensures name.Some? ==> name.value == args.value[0]
  {
    if args.Some? && |args.value| > 0 then Some(args.value[0]) else None
  }

  /** `context.args or []`: the arguments, or none at all when Telegram sent none. */
  function ArgList(args: Option<seq<string>>): (r: seq<string>)
    ensures args.Some? ==> r == args.value
    ensures args.None? ==> |r| == 0
  {
    args.GetOr([])
  }

  /** `args[1] if len(args) > 1 else None`: the optional application name that
      follows the first argument of `/branch` and `/rollback`. */
  function SecondArg(args: seq<string>): (r: Option<string>)
    ensures r.Some? <==> |args| > 1
    ensures r.Some? ==> r.value == args[1]
  {
    if |args| > 1 then Some(args[1]) else None
  }

  // ---------------------------------------------------------------- /logs

  /** An argument of `/logs` that names a service rather than an application. */
  predicate IsServiceWord(arg: string) {
    Lower(arg) == "backend" || Lower(arg) == "frontend"
  }

  /** The service `/logs` reads after scanning `args`: the last service word,
      lowered, or "backend" when there is none. */
  function LogsService(args: seq<string>): (service: string)
    ensures service == "backend" || service == "frontend"
  {
    if |args| == 0 then "backend"
    else if IsServiceWord(args[|args| - 1]) then Lower(args[|args| - 1])
    else LogsService(args[..|args| - 1])
  }

  /** The application `/logs` reads after scanning `args`: the last argument that is
      not a service word, as written. */
  function LogsAppName(args: seq<string>): (name: Option<string>)
    ensures name.Some? ==> name.value in args && !IsServiceWord(name.value)
    ensures name.None? ==> forall i :: 0 <= i < |args| ==> IsServiceWord(args[i])
  {
    if |args| == 0 then None
    else if !IsServiceWord(args[|args| - 1]) then Some(args[|args| - 1])
    else
      var init := args[..|args| - 1];
      assert forall i :: 0 <= i < |init| ==> init[i] == args[i];
      LogsAppName(init)
  }

  /** The argument loop of `logs_command`. */
  method ParseLogsArgs(args: Option<seq<string>>) returns (appName: Option<string>, service: string)
    ensures appName == LogsAppName(ArgList(args))
    ensures service == LogsService(ArgList(args))
  {
    var a := ArgList(args);
    appName := None;
    service := "backend";
    for i := 0 to |a|
      invariant appName == LogsAppName(a[..i])
      invariant service == LogsService(a[..i])
    {
      assert a[..i + 1][..i] == a[..i];
      var lowered := Lower(a[i]);
      if lowered == "backend" || lowered == "frontend" {
        service := lowered;
      } else {
        appName := Some(a[i]);
      }
    }
    assert a[..|a|] == a;
  }

  /** The last service word decides the service. */
  lemma {:induction false} LogsServiceIsLastServiceWord(args: seq<string>, i: nat)
    requires i < |args| && IsServiceWord(args[i])
    requires forall j :: i < j < |args| ==> !IsServiceWord(args[j])
    ensures LogsService(args) == Lower(args[i])
  {
    if i < |args| - 1 {
      LogsServiceIsLastServiceWord(args[..|args| - 1], i);
    }
  }

  /** Without a service word the service is "backend". */
  lemma {:induction false} LogsServiceDefault(args: seq<string>)
    requires forall j :: 0 <= j < |args| ==> !IsServiceWord(args[j])
    ensures LogsService(args) == "backend"
  {
    if |args| > 0 {
      LogsServiceDefault(args[..|args| - 1]);
    }
  }

  /** The last argument that is not a service word names the application. */
  lemma {:induction false} LogsAppNameIsLastOther(args: seq<string>, i: nat)
    requires i < |args| && !IsServiceWord(args[i])
    requires forall j :: i < j < |args| ==> IsServiceWord(args[j])
    ensures LogsAppName(args) == Some(args[i])
  {
    if i < |args| - 1 {
      LogsAppNameIsLastOther(args[..|args| - 1], i);
    }
  }

  /** When every argument is a service word, the default application is used. */
  lemma {:induction false} LogsAppNameDefault(args: seq<string>)
    requires forall j :: 0 <= j < |args| ==> IsServiceWord(args[j])
    ensures LogsAppName(args) == None
  {
    if |args| > 0 {
      LogsAppNameDefault(args[..|args| - 1]);
    }
  }

  // ------------------------------------------------- /branch and /rollback

  /** `/branch <branch_name> [app]`: `None` when the usage text is shown. */
  function ParseBranchArgs(args: seq<string>): (r: Option<(string, Option<string>)>)
    ensures r.None? <==> |args| == 0
    ensures r.Some? ==> r.value.0 == args[0] && (r.value.1.Some? <==> |args| > 1)
    ensures r.Some? && |args| > 1 ==> r.value.1 == Some(args[1])
  {
    if |args| < 1 then None else Some((args[0], SecondArg(args)))
  }

  /** Why a commit count was refused: no argument at all (the usage text), or one
      that is not an integer of at least 1. */
  datatype CommitsError = MissingArgs | InvalidCount

  /** The commit count of `/rollback <n> [app]` and `/self_rollback <n>`. */
  function ParseCommits(args: seq<string>): (r: Result<int, CommitsError>)
    ensures r == Err(MissingArgs) <==> |args| == 0
    ensures r.Ok? <==> |args| > 0 && PyInt(args[0]).Some? && PyInt(args[0]).value >= 1
    ensures r.Ok? ==> r.value >= 1 && PyInt(args[0]) == Some(r.value)
  {
    if |args| < 1 then Err(MissingArgs)
    else match PyInt(args[0])
      case None => Err(InvalidCount)
      case Some(n) => if n < 1 then Err(InvalidCount) else Ok(n)
  }

  /** Every count of at least 1, written in decimal, is accepted as it is. */
  lemma ParseCommitsOfDecimal(n: int, rest: seq<string>)
    requires n >= 1
    ensures ParseCommits([IntToString(n)] + rest) == Ok(n)
  {
    PyIntOfIntToString(n);
  }

  /** Zero and negative counts are refused. */
  lemma ParseCommitsRefusesNonPositive(n: int, rest: seq<string>)
    requires n < 1
    ensures ParseCommits([IntToString(n)] + rest) == Err(InvalidCount)
  {
    PyIntOfIntToString(n);
  }

  // ------------------------------------------------------- executor calls

  /** The executor calls a handler makes. */
  datatype Call =
    | GitFetch(app: AppConfig)
    | GitPull(app: AppConfig)
    | Run(app: AppConfig, action: string)
    | GitCheckout(app: AppConfig, branch: string)
    | GitReset(dir: Path, commits: int)
    | SelfRestart(script: Path)

  /** What a handler reports last: the usage text, the invalid-number error, the
      unknown-application error, the failure of a step that stops the flow, or the
      result of the step whose report closes the flow. */
  datatype Outcome =
    | ShowUsage
    | InvalidNumber
    | UnknownApp(error: AppNotFoundError)
    | StepFailed(step: Call, result: ExecutionResult)
    | Finished(step: Call, result: ExecutionResult)

  /** The executor calls a handler made, in order, and its final report. */
  datatype Trace = Trace(calls: seq<Call>, outcome: Outcome)

  /** Running `plan` step by step, stopping at the first step that fails: each step
      made was preceded by successful ones, and the flow stops early only on a
      failure, which it reports. */
  ghost predicate StopsAtFirstFailure(t: Trace, plan: seq<Call>, exec: Call -> ExecutionResult) {
    && 0 < |t.calls| <= |plan|
    && t.calls == plan[..|t.calls|]
    && (forall k :: 0 <= k < |t.calls| - 1 ==> exec(t.calls[k]).success)
    && var last := t.calls[|t.calls| - 1];
       if |t.calls| < |plan| then !exec(last).success && t.outcome == StepFailed(last, exec(last))
       else t.outcome == Finished(last, exec(last))
  }

  /** `update_command`: fetch, then pull, then restart. */
  function UpdateFlow(reg: AppRegistry, args: Option<seq<string>>, exec: Call -> ExecutionResult): (t: Trace)
    reads reg
    requires reg.Valid()
    ensures reg.Get(GetAppName(args)).Err? ==>
              t == Trace([], UnknownApp(reg.Get(GetAppName(args)).error))
    ensures reg.Get(GetAppName(args)).Ok? ==>
              var app := reg.Get(GetAppName(args)).value;
              StopsAtFirstFailure(t, [GitFetch(app), GitPull(app), Run(app, "restart")], exec)
  {
    match reg.Get(GetAppName(args))
    case Err(e) => Trace([], UnknownApp(e))
    case Ok(app) =>
      var fetch := exec(GitFetch(app));
      if !fetch.success then Trace([GitFetch(app)], StepFailed(GitFetch(app), fetch))
      else
        var pull := exec(GitPull(app));
        if !pull.success then Trace([GitFetch(app), GitPull(app)], StepFailed(GitPull(app), pull))
        else
          var restart := Run(app, "restart");
          Trace([GitFetch(app), GitPull(app), restart], Finished(restart, exec(restart)))
  }

  /** The restart of an update happens exactly when both git steps succeed. */
  lemma UpdateRestartsIffGitSucceeds(reg: AppRegistry, args: Option<seq<string>>, exec: Call -> ExecutionResult)
    requires reg.Valid()
    requires reg.Get(GetAppName(args)).Ok?
    ensures var app := reg.Get(GetAppName(args)).value;
            (Run(app, "restart") in UpdateFlow(reg, args, exec).calls
             <==> exec(GitFetch(app)).success && exec(GitPull(app)).success)
  {
    var app := reg.Get(GetAppName(args)).value;
    var t := UpdateFlow(reg, args, exec);
    assert Run(app, "restart") != GitFetch(app) && Run(app, "restart") != GitPull(app);
    if |t.calls| == 3 {
      assert t.calls[2] == Run(app, "restart");
    } else if |t.calls| == 2 {
      assert t.calls == [GitFetch(app), GitPull(app)];
    } else {
      assert t.calls == [GitFetch(app)];
    }
  }

  /** `branch_command`: the usage text without arguments; otherwise fetch and then
      checkout, whatever the fetch returned. */
  function BranchFlow(reg: AppRegistry, args: Option<seq<string>>, exec: Call -> ExecutionResult): (t: Trace)
    reads reg
    requires reg.Valid()
    ensures ParseBranchArgs(ArgList(args)).None? ==> t == Trace([], ShowUsage)
    ensures ParseBranchArgs(ArgList(args)).Some? ==>
              var (branch, appName) := ParseBranchArgs(ArgList(args)).value;
              match reg.Get(appName)
              case Err(e) => t == Trace([], UnknownApp(e))
              case Ok(app) =>
                && t.calls == [GitFetch(app), GitCheckout(app, branch)]
                && t.outcome == Finished(GitCheckout(app, branch), exec(GitCheckout(app, branch)))
  {
    match ParseBranchArgs(ArgList(args))
    case None => Trace([], ShowUsage)
    case Some((branch, appName)) =>
      match reg.Get(appName)
      case Err(e) => Trace([], UnknownApp(e))
      case Ok(app) =>
        var _ := exec(GitFetch(app));
        var checkout := GitCheckout(app, branch);
        Trace([GitFetch(app), checkout], Finished(checkout, exec(checkout)))
  }

  /** What the fetch of `/branch` returns changes nothing. */
  lemma BranchIgnoresFetch(reg: AppRegistry, args: Option<seq<string>>, exec1: Call -> ExecutionResult,
                           exec2: Call -> ExecutionResult)
    requires reg.Valid()
    requires forall c: Call :: !c.GitFetch? ==> exec1(c) == exec2(c)
    ensures BranchFlow(reg, args, exec1) == BranchFlow(reg, args, exec2)
  {
  }

  /** `rollback_command`: the count is checked, then the application is resolved,
      then the reset runs, and the restart only after a successful reset. */
  function RollbackFlow(reg: AppRegistry, args: Option<seq<string>>, exec: Call -> ExecutionResult): (t: Trace)
    reads reg
    requires reg.Valid()
    ensures var count := ParseCommits(ArgList(args));
            && (count == Err(MissingArgs) ==> t == Trace([], ShowUsage))
            && (count == Err(InvalidCount) ==> t == Trace([], InvalidNumber))
            && (count.Ok? ==>
                  match reg.Get(SecondArg(ArgList(args)))
                  case Err(e) => t == Trace([], UnknownApp(e))
                  case Ok(app) => StopsAtFirstFailure(t, [GitReset(app.path, count.value), Run(app, "restart")], exec))
  {
    var a := ArgList(args);
    var count := ParseCommits(a);
    if count.Err? then Trace([], if count.error == MissingArgs then ShowUsage else InvalidNumber)
    else
      var n := count.value;
      match reg.Get(SecondArg(a))
      case Err(e) => Trace([], UnknownApp(e))
      case Ok(app) =>
        var reset := GitReset(app.path, n);
        if !exec(reset).success then Trace([reset], StepFailed(reset, exec(reset)))
        else
          var restart := Run(app, "restart");
          Trace([reset, restart], Finished(restart, exec(restart)))
  }

  /** A rollback resets by a positive count only, and never without a valid count. */
  lemma RollbackResetsArePositive(reg: AppRegistry, args: Option<seq<string>>, exec: Call -> ExecutionResult)
    requires reg.Valid()
    ensures var t := RollbackFlow(reg, args, exec);
            && (ParseCommits(ArgList(args)).Err? ==> t.calls == [])
            && forall k :: 0 <= k < |t.calls| && t.calls[k].GitReset? ==> t.calls[k].commits >= 1
  {
  }

  /** `self_rollback_command`: the same count check, a reset of the bot's own
      directory and, after a successful one, the bot restarts itself. The directory
      and script are parameters, since the settings do not define them. */
  function SelfRollbackFlow(args: Option<seq<string>>, botDir: Path, botScript: Path,
                            exec: Call -> ExecutionResult): (t: Trace)
    ensures ParseCommits(ArgList(args)) == Err(MissingArgs) ==> t == Trace([], ShowUsage)
    ensures ParseCommits(ArgList(args)) == Err(InvalidCount) ==> t == Trace([], InvalidNumber)
    ensures ParseCommits(ArgList(args)).Ok? ==>
              var reset := GitReset(botDir, ParseCommits(ArgList(args)).value);
              && |t.calls| > 0 && t.calls[0] == reset
              && (exec(reset).success <==> t.calls == [reset, SelfRestart(botScript)])
              && (!exec(reset).success <==> t == Trace([reset], StepFailed(reset, exec(reset))))
              && (exec(reset).success ==> t.outcome == Finished(reset, exec(reset)))
  {
    match ParseCommits(ArgList(args))
    case Err(MissingArgs) => Trace([], ShowUsage)
    case Err(InvalidCount) => Trace([], InvalidNumber)
    case Ok(n) =>
      var reset := GitReset(botDir, n);
      if !exec(reset).success then Trace([reset], StepFailed(reset, exec(reset)))
      else Trace([reset, SelfRestart(botScript)], Finished(reset, exec(reset)))
  }

  // ------------------------------------------------------------- /apps

  const AppListHeader := "*Available Applications:*\n"
  const DefaultMarker := " (default)"

  /** The line that names `app`, marked when it is the default application. */
  function EntryLine(app: AppConfig, defaultApp: Option<string>): string {
    "  `" + app.name + "`" + (if defaultApp == Some(app.name) then DefaultMarker else "")
  }

  /** The lines one application contributes: its name, then its description if any. */
  function AppEntryLines(app: AppConfig, defaultApp: Option<string>): seq<string> {
    [EntryLine(app, defaultApp)] + (if app.description != "" then ["    " + app.description] else [])
  }

  /** The lines for `apps`, in order, after the header. */
  function AppLines(apps: seq<AppConfig>, defaultApp: Option<string>): seq<string> {
    if |apps| == 0 then []
    else AppLines(apps[..|apps| - 1], defaultApp) + AppEntryLines(apps[|apps| - 1], defaultApp)
  }

  /** The line-building loop of `_format_app_list`. */
  method BuildAppLines(apps: seq<AppConfig>, defaultApp: Option<string>) returns (lines: seq<string>)
    ensures lines == [AppListHeader] + AppLines(apps, defaultApp)
  {
    lines := [AppListHeader];
    for i := 0 to |apps|
      invariant lines == [AppListHeader] + AppLines(apps[..i], defaultApp)
    {
      assert apps[..i + 1][..i] == apps[..i];
      var app := apps[i];
      var marker := if defaultApp.Some? && app.name == defaultApp.value then DefaultMarker else "";
      lines := lines + ["  `" + app.name + "`" + marker];
      if app.description != "" {
        lines := lines + ["    " + app.description];
      }
    }
    assert apps[..|apps|] == apps;
  }

  /** `_format_app_list`: the header and the lines of every application in registry
      order, joined by line breaks. */
  method FormatAppList(reg: AppRegistry) returns (text: string)
    requires reg.Valid()
    ensures text == Join([AppListHeader] + AppLines(reg.ListApps(), reg.defaultApp), "\n")
  {
    var lines := BuildAppLines(reg.ListApps(), reg.defaultApp);
    text := Join(lines, "\n");
  }

  /** The lines of a concatenation are the concatenation of the lines. */
  lemma {:induction false} AppLinesAppend(xs: seq<AppConfig>, ys: seq<AppConfig>, defaultApp: Option<string>)
    ensures AppLines(xs + ys, defaultApp) == AppLines(xs, defaultApp) + AppLines(ys, defaultApp)
  {
    if |ys| > 0 {
      var zs := xs + ys;
      assert zs[..|zs| - 1] == xs + ys[..|ys| - 1];
      assert zs[|zs| - 1] == ys[|ys| - 1];
      AppLinesAppend(xs, ys[..|ys| - 1], defaultApp);
      assert AppLines(zs, defaultApp)
             == AppLines(xs, defaultApp) + AppLines(ys[..|ys| - 1], defaultApp) + AppEntryLines(ys[|ys| - 1], defaultApp);
    } else {
      assert xs + ys == xs;
    }
  }

  /** Every application contributes its own lines, at its place in the order. */
  lemma AppLinesAt(apps: seq<AppConfig>, i: nat, defaultApp: Option<string>)
    requires i < |apps|
    ensures AppLines(apps, defaultApp)
            == AppLines(apps[..i], defaultApp) + AppEntryLines(apps[i], defaultApp) + AppLines(apps[i + 1..], defaultApp)
  {
    var before, one, after := apps[..i], [apps[i]], apps[i + 1..];
    assert apps == before + (one + after);
    AppLinesAppend(before, one + after, defaultApp);
    AppLinesAppend(one, after, defaultApp);
    assert one[..0] == [];
    assert AppLines(one, defaultApp) == AppLines([], defaultApp) + AppEntryLines(apps[i], defaultApp);
  }

  /** Whether a name line carries the marker: without it, a name line ends in a backquote. */
  predicate HasMarker(line: string) {
    |line| >= |DefaultMarker| && line[|line| - |DefaultMarker|..] == DefaultMarker
  }

  /** A name line is marked exactly when its application is the default one. */
  lemma MarkedIffDefault(app: AppConfig, defaultApp: Option<string>)
    ensures HasMarker(EntryLine(app, defaultApp)) <==> defaultApp == Some(app.name)
  {
    var line := EntryLine(app, defaultApp);
    if defaultApp != Some(app.name) {
      assert line[|line| - 1] == '`';
    }
  }

  /** In a loaded registry whose default is registered, exactly one application, the
      default one, has a marked name line; with an unregistered default none has. */
  lemma DefaultMarkedOnce(reg: AppRegistry)
    requires reg.Valid()
    ensures var apps := reg.ListApps();
            forall i :: 0 <= i < |apps| ==>
              (HasMarker(EntryLine(apps[i], reg.defaultApp))
               <==> reg.defaultApp.Some? && reg.defaultApp.value in reg.apps.keys
                    && i == IndexOf(reg.apps.keys, reg.defaultApp.value))
  {
    var apps := reg.ListApps();
    forall i | 0 <= i < |apps|
      ensures HasMarker(EntryLine(apps[i], reg.defaultApp))
              <==> reg.defaultApp.Some? && reg.defaultApp.value in reg.apps.keys
                   && i == IndexOf(reg.apps.keys, reg.defaultApp.value)
    {
      MarkedIffDefault(apps[i], reg.defaultApp);
      assert apps[i].name == reg.apps.keys[i];
    }
  }
}
