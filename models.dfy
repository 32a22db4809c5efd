/** `AppConfig`: the description of one managed application, its command mapping and
    its advisory validation against the filesystem. */
module Models {
  import opened PyText
  import opened Paths

  const DefaultScript := "scripts/dev.sh"
  const DefaultLogBackend := "/tmp/bot.log"
  const DefaultLogFrontend := "/tmp/frontend.log"

  /** The six actions that have a configurable command token. */
  const KnownActions: set<string> := {"start", "stop", "restart", "status", "logs", "build"}

  datatype AppConfig = AppConfig(
    name: string,
    path: Path,
    script: string,
    description: string,
    cmdStart: string,
    cmdStop: string,
    cmdRestart: string,
    cmdStatus: string,
    cmdLogs: string,
    cmdBuild: string,
    logBackend: string,
    logFrontend: string)

  /** `AppConfig(name, path)` with every other field at its declared default: no
      description, the script at `scripts/dev.sh` under the root, every action its own
      command token. */
  function NewAppConfig(name: string, path: Path): (c: AppConfig)
    ensures c.name == name && c.path == path && c.description == ""
    ensures c.logBackend == "/tmp/bot.log" && c.logFrontend == "/tmp/frontend.log"
    ensures ScriptPath(c) == Path(path.absolute, path.parts + ["scripts", "dev.sh"])
    ensures forall action :: GetCommand(c, action) == action
  {
    var c := AppConfig(name, path, DefaultScript, "",
                       "start", "stop", "restart", "status", "logs", "build",
                       DefaultLogBackend, DefaultLogFrontend);
    assert forall action :: GetCommand(c, action) == action by {
      forall action ensures GetCommand(c, action) == action {
        if action !in KnownActions {
        } else if action in {"start", "stop", "restart"} {
          assert action == "start" || action == "stop" || action == "restart";
        } else {
          assert action == "status" || action == "logs" || action == "build";
        }
      }
    }
    assert ScriptPath(c) == Path(path.absolute, path.parts + ["scripts", "dev.sh"]) by {
      assert DefaultScript == "scripts" + "/" + "dev.sh";
      ParseTwoParts("scripts", "dev.sh");
    }
    c
  }

  /** The `script_path` property: the script joined onto the application root. */
  function ScriptPath(app: AppConfig): (p: Path)
    ensures ParsePath(app.script).absolute ==> p == ParsePath(app.script)
    ensures !ParsePath(app.script).absolute ==>
              p.absolute == app.path.absolute && p.parts == app.path.parts + ParsePath(app.script).parts
  {
    JoinPath(app.path, app.script)
  }

  /** A relative path of two plain components parses to those components. */
  lemma ParseTwoParts(p: string, q: string)
    requires p != "" && p != "." && '/' !in p
    requires q != "" && q != "." && '/' !in q
    ensures ParsePath(p + "/" + q) == Path(false, [p, q])
  {
    SplitAtFirst(p, '/', q);
    SplitNoSeparator(q, '/');
    assert p + "/" + q == p + ['/'] + q;
    assert Split(p + "/" + q, '/') == [p, q];
    KeepNormalParts([p, q]);
  }

  /** `get_command`: the `cmd_<action>` field for the six known actions, otherwise
      the action name itself. */
  function GetCommand(app: AppConfig, action: string): (token: string)
    ensures action == "start" ==> token == app.cmdStart
    ensures action == "stop" ==> token == app.cmdStop
    ensures action == "restart" ==> token == app.cmdRestart
    ensures action == "status" ==> token == app.cmdStatus
    ensures action == "logs" ==> token == app.cmdLogs
    ensures action == "build" ==> token == app.cmdBuild
    ensures action !in KnownActions ==> token == action
  {
    match action
    case "start" => app.cmdStart
    case "stop" => app.cmdStop
    case "restart" => app.cmdRestart
    case "status" => app.cmdStatus
    case "logs" => app.cmdLogs
    case "build" => app.cmdBuild
    case _ => action
  }

  /** The two filesystem queries `validate` makes, as sets of paths. */
  datatype FileSystem = FileSystem(existing: set<Path>, regularFiles: set<Path>)

  /** A filesystem in which files exist and every existing path's ancestors exist. */
  ghost predicate Consistent(fs: FileSystem) {
    && fs.regularFiles <= fs.existing
    && forall p, k {:trigger p.parts[..k], p in fs.existing} ::
         p in fs.existing && 0 <= k <= |p.parts| ==> Path(p.absolute, p.parts[..k]) in fs.existing
  }

  /** `validate`: three checks in order, the first failure's message, else `(True, "OK")`. */
  function Validate(app: AppConfig, fs: FileSystem): (r: (bool, string))
    ensures r.0 <==> app.path in fs.existing && ScriptPath(app) in fs.existing && ScriptPath(app) in fs.regularFiles
    ensures r.0 ==> r.1 == "OK"
    ensures app.path !in fs.existing ==> r.1 == "App path does not exist: " + PathString(app.path)
    ensures app.path in fs.existing && ScriptPath(app) !in fs.existing ==>
              r.1 == "Script does not exist: " + PathString(ScriptPath(app))
    ensures app.path in fs.existing && ScriptPath(app) in fs.existing && ScriptPath(app) !in fs.regularFiles ==>
              r.1 == "Script is not a file: " + PathString(ScriptPath(app))
  {
    var sp := ScriptPath(app);
    if app.path !in fs.existing then (false, "App path does not exist: " + PathString(app.path))
    else if sp !in fs.existing then (false, "Script does not exist: " + PathString(sp))
    else if sp !in fs.regularFiles then (false, "Script is not a file: " + PathString(sp))
    else (true, "OK")
  }

  /** On a consistent filesystem, an application whose script is relative validates
      exactly when its script is a regular file: the first two checks are implied. */
  lemma ValidateOnConsistentFileSystem(app: AppConfig, fs: FileSystem)
    requires Consistent(fs)
    requires !ParsePath(app.script).absolute
    ensures Validate(app, fs).0 <==> ScriptPath(app) in fs.regularFiles
  {
    var sp := ScriptPath(app);
    if sp in fs.regularFiles {
      var k := |app.path.parts|;
      assert sp.parts[..k] == app.path.parts;
      assert Path(sp.absolute, sp.parts[..k]) in fs.existing;
      assert Path(sp.absolute, sp.parts[..k]) == app.path;
    }
  }
}
