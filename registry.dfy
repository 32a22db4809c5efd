/** `AppRegistry`: the catalogue of managed applications, filled in place from a
    parsed configuration document and queried by name afterwards. */
module Registry {
  import opened Wrappers
  import opened PyText
  import opened Paths
  import opened Models

  ghost predicate Distinct(s: seq<string>) {
    forall i, j :: 0 <= i < j < |s| ==> s[i] != s[j]
  }

  /** The position of the first occurrence of `x`. */
  function IndexOf(s: seq<string>, x: string): (i: nat)
    requires x in s
    ensures i < |s| && s[i] == x && forall j :: 0 <= j < i ==> s[j] != x
  {
    if s[0] == x then 0 else 1 + IndexOf(s[1..], x)
  }

  /** The position of the last occurrence of `x`. */
  function LastIndexOf(s: seq<string>, x: string): (i: nat)
    requires x in s
    ensures i < |s| && s[i] == x && forall j :: i < j < |s| ==> s[j] != x
  {
    if s[|s| - 1] == x then |s| - 1 else LastIndexOf(s[..|s| - 1], x)
  }

  /** A Python `dict[str, AppConfig]`: its keys in insertion order and its mapping. */
  datatype AppDict = AppDict(keys: seq<string>, entries: map<string, AppConfig>) {

    /** Distinct keys, and the same names as the mapping. */
    ghost predicate Valid() {
      Distinct(keys) && forall n :: n in entries <==> n in keys
    }

    /** Every configuration is filed under its own name. */
    ghost predicate NamesMatch() {
      forall n :: n in entries ==> entries[n].name == n
    }

    /** `d[name] = app`: the value is replaced, an existing key keeps its place and a
        new key goes last. */
    function Put(name: string, app: AppConfig): (d: AppDict)
      ensures Valid() ==> d.Valid()
      ensures NamesMatch() && app.name == name ==> d.NamesMatch()
      ensures d.entries == entries[name := app]
      ensures name in keys ==> d.keys == keys
      ensures name !in keys ==> d.keys == keys + [name]
    {
      if name in keys then AppDict(keys, entries[name := app]) else AppDict(keys + [name], entries[name := app])
    }
  }

  const EmptyDict := AppDict([], map[])

  /** A distinct sequence has as many elements as its set. */
  lemma {:induction false} DistinctCardinality(s: seq<string>)
    requires Distinct(s)
    ensures |set x | x in s| == |s|
  {
    if |s| > 0 {
      var init := s[..|s| - 1];
      DistinctCardinality(init);
      assert (set x | x in s) == (set x | x in init) + {s[|s| - 1]};
      assert s[|s| - 1] !in init;
    }
  }

  /** In a valid dict the keys and the mapping have the same size. */
  lemma ValidDictSize(d: AppDict)
    requires d.Valid()
    ensures |d.entries| == |d.keys|
  {
    DistinctCardinality(d.keys);
    assert d.entries.Keys == set x | x in d.keys;
  }

  /** One item of the `apps` list as the YAML parser hands it over: every key optional. */
  datatype AppEntry = AppEntry(
    name: Option<string>,
    path: Option<string>,
    script: Option<string>,
    description: Option<string>,
    cmdStart: Option<string>,
    cmdStop: Option<string>,
    cmdRestart: Option<string>,
    cmdStatus: Option<string>,
    cmdLogs: Option<string>,
    cmdBuild: Option<string>,
    logBackend: Option<string>,
    logFrontend: Option<string>)

  /** The parsed document: anything falsy (an empty file, `{}`) or a mapping with an
      optional `default_app` and the `apps` list (absent reads as empty). */
  datatype ConfigDocument = Falsy | Mapping(defaultApp: Option<string>, apps: seq<AppEntry>)

  datatype ConfigFile = Missing(location: string) | Present(document: ConfigDocument)

  datatype LoadError = ConfigNotFound(location: string) | EmptyConfig | MissingKey(key: string) | NoApps {
    /** The text of the exception `load_from_yaml` raises. */
    function Message(): (m: string)
      ensures this.ConfigNotFound? ==> |m| >= |location| && m[|m| - |location|..] == location
      ensures this.MissingKey? ==> |m| == |key| + 2 && m[0] == '\'' && m[|m| - 1] == '\'' && m[1..|m| - 1] == key
    {
      match this
      case ConfigNotFound(location) => "Apps config file not found: " + location
      case EmptyConfig => "Empty apps configuration file"
      case MissingKey(key) => "'" + key + "'"
      case NoApps => "No apps configured"
    }
  }

  predicate WellFormed(e: AppEntry) {
    e.name.Some? && e.path.Some?
  }

  /** The `AppConfig` built from one entry, with the declared defaults for absent keys;
      a missing `name`, then a missing `path`, raises `KeyError`. */
  function EntryConfig(e: AppEntry): (r: Result<AppConfig, LoadError>)
    ensures r.Ok? <==> WellFormed(e)
    ensures e.name.None? ==> r == Err(MissingKey("name"))
    ensures e.name.Some? && e.path.None? ==> r == Err(MissingKey("path"))
    ensures r.Ok? ==>
              var d := NewAppConfig(e.name.value, ParsePath(e.path.value));
              r.value == d.(script := e.script.GetOr(d.script), description := e.description.GetOr(d.description),
                            cmdStart := e.cmdStart.GetOr(d.cmdStart), cmdStop := e.cmdStop.GetOr(d.cmdStop),
                            cmdRestart := e.cmdRestart.GetOr(d.cmdRestart), cmdStatus := e.cmdStatus.GetOr(d.cmdStatus),
                            cmdLogs := e.cmdLogs.GetOr(d.cmdLogs), cmdBuild := e.cmdBuild.GetOr(d.cmdBuild),
                            logBackend := e.logBackend.GetOr(d.logBackend), logFrontend := e.logFrontend.GetOr(d.logFrontend))
  {
    if e.name.None? then Err(MissingKey("name"))
    else if e.path.None? then Err(MissingKey("path"))
    else Ok(AppConfig(
      e.name.value, ParsePath(e.path.value),
      e.script.GetOr(DefaultScript), e.description.GetOr(""),
      e.cmdStart.GetOr("start"), e.cmdStop.GetOr("stop"), e.cmdRestart.GetOr("restart"),
      e.cmdStatus.GetOr("status"), e.cmdLogs.GetOr("logs"), e.cmdBuild.GetOr("build"),
      e.logBackend.GetOr(DefaultLogBackend), e.logFrontend.GetOr(DefaultLogFrontend)))
  }

  /** An entry with only `name` and `path` builds the dataclass with its defaults. */
  lemma EntryConfigDefaults(name: string, path: string)
    ensures EntryConfig(AppEntry(Some(name), Some(path), None, None, None, None, None, None, None, None, None, None))
            == Ok(NewAppConfig(name, ParsePath(path)))
  {
  }

  /** The registration loop over `entries`, from dict `d`: the dict it leaves and the
      `KeyError` that stopped it, if any. */
  function Register(d: AppDict, entries: seq<AppEntry>): (res: (AppDict, Option<LoadError>))
    ensures d.Valid() ==> res.0.Valid()
    ensures d.NamesMatch() ==> res.0.NamesMatch()
  {
    if |entries| == 0 then (d, None)
    else
      var before := Register(d, entries[..|entries| - 1]);
      if before.1.Some? then before
      else match EntryConfig(entries[|entries| - 1])
        case Err(e) => (before.0, Some(e))
        case Ok(app) => (before.0.Put(app.name, app), None)
  }

  /** Once an entry has stopped the loop, later entries change nothing. */
  lemma {:induction false} RegisterStops(d: AppDict, entries: seq<AppEntry>, k: nat)
    requires k <= |entries|
    requires Register(d, entries[..k]).1.Some?
    ensures Register(d, entries) == Register(d, entries[..k])
    decreases |entries| - k
  {
    if k < |entries| {
      assert entries[..|entries| - 1][..k] == entries[..k];
      RegisterStops(d, entries[..|entries| - 1], k);
    } else {
      assert entries[..k] == entries;
    }
  }

  /** Well-formed entries raise no `KeyError`. */
  lemma {:induction false} RegisterNoError(d: AppDict, entries: seq<AppEntry>)
    requires forall i :: 0 <= i < |entries| ==> WellFormed(entries[i])
    ensures Register(d, entries).1 == None
  {
    if |entries| > 0 {
      RegisterNoError(d, entries[..|entries| - 1]);
    }
  }

  /** The step of the loop for a well-formed last entry. */
  lemma RegisterStep(d: AppDict, entries: seq<AppEntry>)
    requires |entries| > 0
    requires forall i :: 0 <= i < |entries| ==> WellFormed(entries[i])
    ensures var app := EntryConfig(entries[|entries| - 1]).value;
      Register(d, entries).0 == Register(d, entries[..|entries| - 1]).0.Put(app.name, app)
  {
    RegisterNoError(d, entries[..|entries| - 1]);
  }

  /** The names of well-formed entries, in order. */
  function NamesOf(entries: seq<AppEntry>): (names: seq<string>)
    requires forall i :: 0 <= i < |entries| ==> WellFormed(entries[i])
    ensures |names| == |entries|
  {
    seq(|entries|, i requires 0 <= i < |entries| && WellFormed(entries[i]) => entries[i].name.value)
  }

  /** The names of all entries are the names of all but the last, then the last one's. */
  lemma NamesOfSnoc(entries: seq<AppEntry>)
    requires |entries| > 0
    requires forall i :: 0 <= i < |entries| ==> WellFormed(entries[i])
    ensures NamesOf(entries) == NamesOf(entries[..|entries| - 1]) + [entries[|entries| - 1].name.value]
  {
    var init := entries[..|entries| - 1];
    assert forall i :: 0 <= i < |init| ==> NamesOf(entries)[i] == NamesOf(init)[i];
  }

  /** Registering well-formed entries adds exactly their names. */
  lemma {:induction false} RegisterMembers(d: AppDict, entries: seq<AppEntry>)
    requires forall i :: 0 <= i < |entries| ==> WellFormed(entries[i])
    ensures forall n :: n in Register(d, entries).0.entries <==> n in d.entries || n in NamesOf(entries)
  {
    if |entries| > 0 {
      var init := entries[..|entries| - 1];
      RegisterMembers(d, init);
      RegisterStep(d, entries);
      NamesOfSnoc(entries);
    }
  }

  /** Registering well-formed entries leaves the names they do not mention alone. */
  lemma {:induction false} RegisterUntouched(d: AppDict, entries: seq<AppEntry>)
    requires forall i :: 0 <= i < |entries| ==> WellFormed(entries[i])
    ensures forall n :: n in d.entries && n !in NamesOf(entries) ==>
              n in Register(d, entries).0.entries && Register(d, entries).0.entries[n] == d.entries[n]
  {
    if |entries| > 0 {
      var init := entries[..|entries| - 1];
      RegisterMembers(d, init);
      RegisterUntouched(d, init);
      RegisterStep(d, entries);
      NamesOfSnoc(entries);
    }
  }

  /** Registering well-formed entries maps each of their names to the configuration
      of its last entry. */
  lemma {:induction false} RegisterLastConfig(d: AppDict, entries: seq<AppEntry>)
    requires forall i :: 0 <= i < |entries| ==> WellFormed(entries[i])
    ensures forall n :: n in NamesOf(entries) ==>
              n in Register(d, entries).0.entries &&
              Register(d, entries).0.entries[n] == EntryConfig(entries[LastIndexOf(NamesOf(entries), n)]).value
  {
    RegisterMembers(d, entries);
    if |entries| > 0 {
      var init := entries[..|entries| - 1];
      var names := NamesOf(entries);
      var initNames := NamesOf(init);
      var m := entries[|entries| - 1].name.value;
      var app := EntryConfig(entries[|entries| - 1]).value;
      RegisterLastConfig(d, init);
      RegisterStep(d, entries);
      NamesOfSnoc(entries);
      var r := Register(d, entries).0;
      assert r.entries == Register(d, init).0.entries[m := app];
      assert LastIndexOf(names, m) == |names| - 1;
      forall n | n in names
        ensures r.entries[n] == EntryConfig(entries[LastIndexOf(names, n)]).value
      {
        if n != m {
          assert names[..|names| - 1] == initNames;
          assert LastIndexOf(names, n) == LastIndexOf(initNames, n);
          assert entries[LastIndexOf(initNames, n)] == init[LastIndexOf(initNames, n)];
        }
      }
    }
  }

  /** Registering well-formed entries: the keys are the old keys and the entry names,
      each name maps to the configuration of its LAST entry, and other names keep theirs. */
  lemma RegisterLastWins(d: AppDict, entries: seq<AppEntry>)
    requires forall i :: 0 <= i < |entries| ==> WellFormed(entries[i])
    ensures Register(d, entries).1 == None
    ensures var r := Register(d, entries).0;
      && (forall n :: n in r.entries <==> n in d.entries || n in NamesOf(entries))
      && (forall n :: n in NamesOf(entries) ==>
            r.entries[n] == EntryConfig(entries[LastIndexOf(NamesOf(entries), n)]).value)
      && (forall n :: n in d.entries && n !in NamesOf(entries) ==> r.entries[n] == d.entries[n])
  {
    RegisterNoError(d, entries);
    RegisterMembers(d, entries);
    RegisterLastConfig(d, entries);
    RegisterUntouched(d, entries);
  }

  /** `keys` lists the distinct elements of `names`, each at the place of its first
      occurrence. */
  ghost predicate FirstOccurrenceOrder(keys: seq<string>, names: seq<string>) {
    && (forall n :: n in keys <==> n in names)
    && (forall i, j :: 0 <= i < j < |keys| ==> IndexOf(names, keys[i]) < IndexOf(names, keys[j]))
  }

  /** One more name keeps the first-occurrence order when a new name goes last. */
  lemma FirstOccurrenceStep(keys: seq<string>, names: seq<string>, m: string)
    requires FirstOccurrenceOrder(keys, names)
    ensures FirstOccurrenceOrder(if m in keys then keys else keys + [m], names + [m])
  {
    if m in keys {
      FirstOccurrenceKnown(keys, names, m);
    } else {
      FirstOccurrenceNew(keys, names, m);
    }
  }

  /** Appending a name does not move the first occurrence of the names already there. */
  lemma IndexesKept(names: seq<string>, m: string)
    ensures forall x :: x in names ==> IndexOf(names + [m], x) == IndexOf(names, x) < |names|
  {
    forall x | x in names ensures IndexOf(names + [m], x) == IndexOf(names, x) < |names| {
      IndexOfAppend(names, m, x);
    }
  }

  lemma FirstOccurrenceKnown(keys: seq<string>, names: seq<string>, m: string)
    requires FirstOccurrenceOrder(keys, names) && m in keys
    ensures FirstOccurrenceOrder(keys, names + [m])
  {
    IndexesKept(names, m);
    assert forall n :: n in names + [m] <==> n in names;
  }

  lemma FirstOccurrenceNew(keys: seq<string>, names: seq<string>, m: string)
    requires FirstOccurrenceOrder(keys, names) && m !in keys
    ensures FirstOccurrenceOrder(keys + [m], names + [m])
  {
    var names' := names + [m];
    var keys' := keys + [m];
    IndexesKept(names, m);
    IndexOfAppendNew(names, m);
    forall i, j | 0 <= i < j < |keys'| ensures IndexOf(names', keys'[i]) < IndexOf(names', keys'[j]) {
      assert keys'[i] == keys[i] && keys[i] in names;
      if j < |keys| {
        assert keys'[j] == keys[j];
      }
    }
  }

  /** Registering well-formed entries into an empty dict: the keys are the distinct
      entry names, each at the place of its FIRST occurrence. */
  lemma {:induction false} RegisterKeepsFirstPosition(entries: seq<AppEntry>)
    requires forall i :: 0 <= i < |entries| ==> WellFormed(entries[i])
    ensures FirstOccurrenceOrder(Register(EmptyDict, entries).0.keys, NamesOf(entries))
  {
    if |entries| > 0 {
      var init := entries[..|entries| - 1];
      var m := entries[|entries| - 1].name.value;
      RegisterKeepsFirstPosition(init);
      RegisterStep(EmptyDict, entries);
      NamesOfSnoc(entries);
      var before := Register(EmptyDict, init).0;
      var app := EntryConfig(entries[|entries| - 1]).value;
      assert app.name == m;
      FirstOccurrenceStep(before.keys, NamesOf(init), m);
    }
  }

  lemma {:induction false} IndexOfAppend(s: seq<string>, m: string, x: string)
    requires x in s
    ensures IndexOf(s + [m], x) == IndexOf(s, x)
  {
    if s[0] != x {
      IndexOfAppend(s[1..], m, x);
      assert (s + [m])[1..] == s[1..] + [m];
    }
  }

  lemma IndexOfAppendNew(s: seq<string>, m: string)
    requires m !in s
    ensures IndexOf(s + [m], m) == |s|
  {
    var t := s + [m];
    assert forall j :: 0 <= j < |s| ==> t[j] == s[j] && t[j] != m;
    assert t[|s|] == m;
  }

  /** Registering well-formed entries into an empty dict leaves one key per distinct name. */
  lemma RegisterLength(entries: seq<AppEntry>)
    requires forall i :: 0 <= i < |entries| ==> WellFormed(entries[i])
    ensures |Register(EmptyDict, entries).0.keys| == |set n | n in NamesOf(entries)|
  {
    assert EmptyDict.Valid();
    var r := Register(EmptyDict, entries).0;
    RegisterKeepsFirstPosition(entries);
    DistinctCardinality(r.keys);
    assert (set n | n in r.keys) == (set n | n in NamesOf(entries));
  }

  /** The whole of `load_from_yaml`, from the old dict and default to the new ones
      and the exception raised, if any. */
  function LoadOutcome(apps: AppDict, defaultApp: Option<string>, file: ConfigFile):
    (res: (AppDict, Option<string>, Result<(), LoadError>))
    ensures file.Missing? ==> res == (apps, defaultApp, Err(ConfigNotFound(file.location)))
    ensures file == Present(Falsy) ==> res == (apps, defaultApp, Err(EmptyConfig))
    ensures apps.Valid() ==> res.0.Valid()
    ensures res.2.Ok? ==> |res.0.keys| > 0 && res.1.Some?
  {
    match file
    case Missing(location) => (apps, defaultApp, Err(ConfigNotFound(location)))
    case Present(Falsy) => (apps, defaultApp, Err(EmptyConfig))
    case Present(Mapping(configured, entries)) =>
      var reg := Register(apps, entries);
      if reg.1.Some? then (reg.0, configured, Err(reg.1.value))
      else if |reg.0.keys| == 0 then (reg.0, configured, Err(NoApps))
      else if configured.None? then (reg.0, Some(reg.0.keys[0]), Ok(()))
      else (reg.0, configured, Ok(()))
  }

  /** A successful load leaves a non-empty registry whose default is the configured
      one, kept as given, or else the first registered name. */
  lemma LoadDefault(apps: AppDict, defaultApp: Option<string>, file: ConfigFile)
    requires apps.Valid()
    ensures var res := LoadOutcome(apps, defaultApp, file);
      res.2.Ok? ==>
        && file.Present? && file.document.Mapping?
        && |res.0.keys| > 0
        && (file.document.defaultApp.Some? ==> res.1 == file.document.defaultApp)
        && (file.document.defaultApp.None? ==> res.1 == Some(res.0.keys[0]) && res.1.value in res.0.entries)
  {
  }

  /** On an empty registry: a falsy document fails with "Empty apps configuration
      file", an `apps` list that registers nothing with "No apps configured", and a
      list of well-formed entries that is not empty succeeds. */
  lemma LoadErrors(defaultApp: Option<string>, document: ConfigDocument)
    ensures document.Falsy? ==>
              LoadOutcome(EmptyDict, defaultApp, Present(document)).2 == Err(EmptyConfig)
    ensures document.Mapping? && document.apps == [] ==>
              LoadOutcome(EmptyDict, defaultApp, Present(document)).2 == Err(NoApps)
    ensures document.Mapping? && document.apps != [] &&
            (forall i :: 0 <= i < |document.apps| ==> WellFormed(document.apps[i])) ==>
              LoadOutcome(EmptyDict, defaultApp, Present(document)).2 == Ok(())
  {
    if document.Mapping? && document.apps != [] &&
       (forall i :: 0 <= i < |document.apps| ==> WellFormed(document.apps[i])) {
      var entries := document.apps;
      assert EmptyDict.Valid();
      RegisterLastWins(EmptyDict, entries);
      assert NamesOf(entries)[0] in NamesOf(entries);
      var r := Register(EmptyDict, entries).0;
      assert NamesOf(entries)[0] in r.entries;
    }
  }

  /** `AppNotFoundError`: the name asked for and the names registered, in order. */
  datatype AppNotFoundError = AppNotFoundError(requested: Option<string>, available: seq<string>) {
    function Message(): (m: string)
      ensures var q := StrOrNone(requested); var names := Join(available, ", ");
        && |m| == 33 + |q| + |names|
        && m[..14] == "Unknown app: '" && m[14..14 + |q|] == q
        && m[14 + |q|..|m| - |names|] == "'. Available apps: "
        && m[|m| - |names|..] == names
    {
      var q := StrOrNone(requested);
      var names := Join(available, ", ");
      var prefix := "Unknown app: '";
      var middle := "'. Available apps: ";
      assert |prefix| == 14 && |middle| == 19;
      ConcatSlices(prefix, q, middle, names);
      prefix + q + middle + names
    }
  }

  /** The four pieces of a concatenation can be read back from it. */
  lemma ConcatSlices(a: string, b: string, c: string, d: string)
    ensures var m := a + b + c + d;
      && |m| == |a| + |b| + |c| + |d|
      && m[..|a|] == a && m[|a|..|a| + |b|] == b && m[|a| + |b|..|m| - |d|] == c && m[|m| - |d|..] == d
  {
    var m := a + b + c + d;
    assert m == a + (b + c + d);
    assert (b + c + d)[..|b|] == b;
    assert m == (a + b) + c + d;
    assert m[|a| + |b|..] == c + d;
  }

  /** Resolving "nope" against a registry of "web" then "api" lists them in that order. */
  lemma NotFoundMessageExample()
    ensures AppNotFoundError(Some("nope"), ["web", "api"]).Message()
            == "Unknown app: '" + "nope" + "'. Available apps: " + "web" + ", " + "api"
  {
    JoinPair("web", "api", ", ");
  }

  class AppRegistry {
    var apps: AppDict
    var defaultApp: Option<string>

    ghost predicate Valid()
      reads this
    {
      apps.Valid() && apps.NamesMatch()
    }

    constructor ()
      ensures Valid() && apps == EmptyDict && defaultApp == None
    {
      apps := EmptyDict;
      defaultApp := None;
    }

    /** `load_from_yaml` over a configuration file already read and parsed. Every
        well-formed entry is registered, whether or not it validates against `fs`. */
    method LoadFromYaml(file: ConfigFile, fs: FileSystem) returns (r: Result<(), LoadError>)
      requires Valid()
      modifies this
      ensures Valid()
      ensures (apps, defaultApp, r) == LoadOutcome(old(apps), old(defaultApp), file)
    {
      if file.Missing? {
        return Err(ConfigNotFound(file.location));
      }
      if file.document.Falsy? {
        return Err(EmptyConfig);
      }
      var entries := file.document.apps;
      defaultApp := file.document.defaultApp;
      var i := 0;
      while i < |entries|
        invariant 0 <= i <= |entries|
        invariant apps.Valid() && apps.NamesMatch()
        invariant Register(old(apps), entries[..i]) == (apps, None)
        invariant defaultApp == file.document.defaultApp
      {
        assert entries[..i + 1][..i] == entries[..i];
        var app := EntryConfig(entries[i]);
        if app.Err? {
          RegisterStops(old(apps), entries, i + 1);
          return Err(app.error);
        }
        var validation := Validate(app.value, fs);
        apps := apps.Put(app.value.name, app.value);
        i := i + 1;
      }
      assert entries[..i] == entries;
      if |apps.keys| == 0 {
        return Err(NoApps);
      }
      if defaultApp.None? {
        defaultApp := Some(apps.keys[0]);
      }
      return Ok(());
    }

    /** `get`: `None` stands for the default app; any other name, the empty one
        included, is looked up as given. */
    function Get(name: Option<string>): (r: Result<AppConfig, AppNotFoundError>)
      reads this
      requires Valid()
      ensures var key := if name.None? then defaultApp else name;
        && (r.Ok? <==> key.Some? && key.value in apps.keys)
        && (r.Ok? ==> r.value == apps.entries[key.value])
        && (r.Err? ==> r.error == AppNotFoundError(key, apps.keys))
    {
      var key := if name.None? then defaultApp else name;
      if key.Some? && key.value in apps.entries then Ok(apps.entries[key.value])
      else Err(AppNotFoundError(key, apps.keys))
    }

    /** `list_apps`: the configurations in registration order. */
    function ListApps(): (r: seq<AppConfig>)
      reads this
      requires Valid()
      ensures |r| == |apps.keys|
      ensures forall i :: 0 <= i < |r| ==> r[i] == apps.entries[apps.keys[i]]
    {
      seq(|apps.keys|, i requires 0 <= i < |apps.keys| && apps.Valid() reads this => apps.entries[apps.keys[i]])
    }

    /** `get_app_names`: the names in registration order, distinct. */
    function GetAppNames(): (r: seq<string>)
      reads this
      requires Valid()
      ensures r == apps.keys
      ensures |r| == |apps.entries|
      ensures forall n :: n in r <==> n in apps.entries
      ensures |r| == |ListApps()| && forall i :: 0 <= i < |r| ==> r[i] == ListApps()[i].name
    {
      ValidDictSize(apps);
      apps.keys
    }

    /** `__len__`: the number of registered names. */
    function Len(): (n: nat)
      reads this
      requires Valid()
      ensures n == |apps.keys|
    {
      ValidDictSize(apps);
      |apps.entries|
    }

    /** `__contains__`. */
    predicate Contains(name: string)
      reads this
      requires Valid()
      ensures Contains(name) <==> name in apps.keys
    {
      name in apps.entries
    }
  }

  /** `get(None)` is `get(default_app)`. */
  lemma GetNoneIsDefault(reg: AppRegistry)
    requires reg.Valid()
    ensures reg.Get(None) == reg.Get(reg.defaultApp)
  {
  }
}
