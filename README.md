# app-manager-bot, modelled in Dafny

app-manager-bot is a Telegram bot that manages a set of applications. Each application is a directory with a management script (`scripts/dev.sh` by default). The bot is driven by commands (`/status`, `/app_start`, `/logs`, `/update`, `/branch`, `/rollback`, …), which it answers by running the script or git inside the application's directory.

This project models the logic between a command and the processes it starts:

- **the registry** `load_from_yaml` fills from a configuration document, and how names resolve against it;
- **each application's configuration**: its script path, its command tokens and its validation;
- **how the executor turns a process outcome into an `ExecutionResult`**: the three display forms, and truncation of long output;
- **the settings' user-id lists** and the admin and authorisation predicates built on them;
- **the command handlers' decisions**: argument parsing, the executor calls the git flows make and in what order, and the `/apps` listing.

## Modules

- `wrappers.dfy` (`Wrappers`): `Option` and `Result`.
- `pytext.dfy` (`PyText`): the Python string built-ins the code relies on, written out so they can be reasoned about:
  - `str.find`, `split` and `join` with one-character separators;
  - `strip`, with the Unicode whitespace set of `str.isspace`;
  - ASCII `lower`;
  - `str(int)`, and `int(str)` in base 10: an optional sign, digits, and single underscores between digits.
- `paths.dfy` (`Paths`): `PurePosixPath` parsing, printing and `/`.
- `models.dfy` (`Models`): `AppConfig` (src/app_manager/apps/models.py).
- `executor.dfy` (`Executor`): `ExecutionResult` and the pure parts of `AppExecutor` (src/app_manager/apps/executor.py).
  - A spawned process is reduced to a `ProcessOutcome`: it completed with a code and its output, it timed out, its executable was not found, or it failed with an exception text.
  - `run` and `get_logs` are split into the invocation they would spawn and the result they make of its outcome.
- `registry.dfy` (`Registry`): an insertion-ordered dict datatype `AppDict` (keys in order, plus a map) and the class `AppRegistry`.
  - The method `LoadFromYaml` runs the registration loop in place over a configuration document already parsed from YAML.
  - It is proved equal, state and exception, to the function `LoadOutcome`. The properties of `load_from_yaml` are lemmas about that function.
- `config.dfy` (`Config`): `parse_comma_separated_ints` and the `Settings` predicates (src/app_manager/config.py).
- `handlers.dfy` (`Handlers`): the decisions in src/app_manager/bot/handlers.py.
  - **Executor calls** are answered by an oracle `Call -> ExecutionResult`.
  - **Each flow** returns the calls it made, in order, and the outcome it reports.
  - **The `/logs` argument loop and the `/apps` line-building loop** are methods, each proved against a specification function.

Python raises exceptions; the model returns them as values:
- **Errors:** `Err(...)` of a `LoadError`, an `AppNotFoundError`, a `ValueError` or a `CommitsError`.
- **`int()` failure:** `PyInt` returns `None` where `int()` raises.

### Behaviour worth knowing

- **`get` and the default:** `AppRegistry.get` uses the default only when the name is `None`. An empty string is looked up as-is and fails unless an app is named "".
- **Names in the unknown-app message:** they follow registration order and are not sorted.
- **Truncated output, no line break:** a 3500-character tail with no line break is kept whole, so the body can start mid-line (`TruncateKeepsWholeTail`).
- **Truncated output, line break first:** a tail whose first character is a line break is also kept whole, line break included.
- **Truncated output, tail after a line break:** when the tail starts right after a line break of the output, its first line is complete, and it is still dropped. The body starts after the tail's first line break only if that break is at an index above 0, because the test is `first_newline > 0` (`TruncateDropsPartialLine`, `KeptFrom`).
- **Duplicate names:** a duplicate keeps the place of its first occurrence and takes the configuration of its last one, as a Python dict does.

## Model

| member | source | states |
|---|---|---|
| Executor.Render | src/app_manager/apps/executor.py:34-37 | success shows the output; a failure shows "Error: " and the error (`None` printed as "None"), then a blank line and the output when there is output |
| Executor.RenderFailure | src/app_manager/apps/executor.py:37 | every failure rendering starts with "Error: " and the error text and ends with the output |
| Executor.TruncateOutput | src/app_manager/apps/executor.py:240-253 | output of at most 3500 characters is unchanged; longer output becomes the 18-character marker followed by a suffix of the output of at most 3500 characters |
| Executor.KeptFrom | src/app_manager/apps/executor.py:246-251 | where the kept body starts: either just after the first line break of the 3500-character tail, when that break is not the tail's first character, or at the start of the tail when the tail starts with a line break or holds none |
| Executor.TruncateDropsPartialLine | src/app_manager/apps/executor.py:246-253 | when the tail's first line break is at an index i > 0, the body is exactly the tail after it |
| Executor.TruncateKeepsWholeTail | src/app_manager/apps/executor.py:246-253 | when the tail has no line break, or starts with one, the whole 3500-character tail is kept |
| Executor.TruncatedBodyLineAligned | src/app_manager/apps/executor.py:248-251 | if the tail holds a line break, the body either directly follows a line break of the output or is the whole tail starting with one |
| Executor.AppExecutor.RunInvocation | src/app_manager/apps/executor.py:53-80 | `run` spawns `[str(script_path), get_command(action)] + extra_args` in the application directory, under the executor's timeout |
| Executor.AppExecutor.RunResult | src/app_manager/apps/executor.py:82-136 | success exactly on exit code 0; the code is kept and the output truncated; a timeout reports "Command timed out after N seconds" with the executor's timeout, a missing script "Script not found: <script path>", any other exception its text, each with empty output and no code |
| Executor.DefaultExecutorTimeout | src/app_manager/apps/executor.py:43-44 | an executor built with defaults runs under a 60-second timeout and reports "Command timed out after 60 seconds" |
| Executor.GitPullInvocation | src/app_manager/apps/executor.py:143-153 | `git pull` in the application directory with the 120-second timeout |
| Executor.GitPullResult | src/app_manager/apps/executor.py:155-185 | success exactly on exit code 0 with the output untruncated; a timeout reports the fixed 120-second message; every exception, a missing `git` included, reports its text |
| Executor.GitPullTimeoutMessage | src/app_manager/apps/executor.py:171-177 | the timeout message reads "Git pull timed out after 120 seconds" |
| Executor.RunOutputBounded | src/app_manager/apps/executor.py:83 | the output `run` returns is never longer than 3518 characters |
| Executor.GitPullKeepsLongOutput | src/app_manager/apps/executor.py:155 | an output too long for `run` to keep reaches the `git_pull` result unchanged, while `run` would have truncated it |
| Executor.LogFile | src/app_manager/apps/executor.py:194 | the backend log for the service "backend", the frontend log for every other service |
| Executor.GetLogsStep | src/app_manager/apps/executor.py:204-221 | a missing log file fails at once with "Log file not found: <file>" and spawns nothing; otherwise `tail -n <lines> <file>` runs with the 10-second timeout |
| Executor.GetLogsDefaultLines | src/app_manager/apps/executor.py:187-221 | with the default line count an existing log file is read with `tail -n 50 <file>` under the 10-second timeout |
| Executor.LogsResult | src/app_manager/apps/executor.py:223-238 | a completed `tail` is a success whatever its exit code, with truncated output of at most 3518 characters; any exception is a failure with its text |
| Models.ScriptPath | src/app_manager/apps/models.py:33-36 | `path / script`: an absolute script replaces the path, a relative one is appended to it |
| Models.NewAppConfig | src/app_manager/apps/models.py:11-26 | the dataclass built from just a name and a path keeps both, has an empty description, puts its script at `<path>/scripts/dev.sh`, makes every action its own command token, and reads its logs from /tmp/bot.log and /tmp/frontend.log |
| Models.GetCommand | src/app_manager/apps/models.py:38-41 | the six known actions give their `cmd_*` field, any other action gives itself |
| Models.Validate | src/app_manager/apps/models.py:43-54 | `(True, "OK")` exactly when the path exists, the script exists and the script is a file; otherwise the message of the first check that fails |
| Models.ValidateOnConsistentFileSystem | src/app_manager/apps/models.py:43-54 | when existing paths have existing ancestors, a relative script validates exactly when it is a regular file |
| Paths.ParsePath | src/app_manager/apps/models.py:28-31 | the path is absolute exactly when the text starts with "/", and it is always normalised: no empty or "." components |
| Paths.KeepPartsSnoc | src/app_manager/apps/models.py:28-31 | components are kept piece by piece, in order: appending a piece between slashes appends it to the components unless it is empty or "." |
| Paths.PathString | src/app_manager/apps/models.py:33-36 | the printed form is never empty, and for a normalised path it starts with "/" exactly when the path is absolute |
| Paths.ParseRelativeJoin | src/app_manager/apps/models.py:28-31 | parsing the components of a relative normalised path, joined by "/", gives that path |
| Paths.ParseAbsoluteJoin | src/app_manager/apps/models.py:28-31 | parsing "/" followed by the components of an absolute normalised path, joined by "/", gives that path |
| Paths.JoinPath | src/app_manager/apps/models.py:36 | joining onto a path appends the parsed components, unless the right side is absolute and replaces it |
| Paths.ParsePathString | src/app_manager/apps/models.py:28-31 | parsing the printed form of a normalised path gives the path back |
| Paths.NormaliseIdempotent | src/app_manager/apps/models.py:28-31 | turning a string into a path, printing it and parsing it again changes nothing |
| Registry.AppDict.Put | src/app_manager/apps/registry.py:66 | assignment replaces the value, keeps an existing key in place, appends a new key last, and keeps keys distinct |
| Registry.ValidDictSize | src/app_manager/apps/registry.py:98-99 | the number of keys in order is the size of the mapping |
| Registry.EntryConfig | src/app_manager/apps/registry.py:42-55 | an entry builds a configuration exactly when it has `name` and `path`; a missing `name`, then a missing `path`, raises `KeyError`; the configuration is the whole value: name and parsed path from the entry, and each other field from the entry when given, else the dataclass default |
| Registry.EntryConfigDefaults | src/app_manager/apps/registry.py:42-55 | an entry with only `name` and `path` builds exactly the dataclass with all its defaults |
| Registry.Register | src/app_manager/apps/registry.py:41-66 | the registration loop keeps the dict invariant |
| Registry.RegisterStops | src/app_manager/apps/registry.py:43-44 | the first `KeyError` ends the loop: later entries are never looked at |
| Registry.RegisterLastWins | src/app_manager/apps/registry.py:57-66 | every well-formed entry is registered whatever `validate` says; a name maps to the configuration of its last entry; other names keep theirs |
| Registry.RegisterMembers | src/app_manager/apps/registry.py:57-66 | after registration the names are exactly the old names and those of the entries |
| Registry.RegisterLastConfig | src/app_manager/apps/registry.py:66 | each entry name maps to the configuration built from its last entry |
| Registry.RegisterUntouched | src/app_manager/apps/registry.py:66 | a name no entry mentions keeps its old configuration |
| Registry.RegisterKeepsFirstPosition | src/app_manager/apps/registry.py:66 | the keys are the distinct entry names, ordered by first occurrence |
| Registry.RegisterLength | src/app_manager/apps/registry.py:66 | the number of registered apps is the number of distinct names |
| Registry.LoadDefault | src/app_manager/apps/registry.py:69-75 | a successful load leaves at least one app, keeps a configured default as given (registered or not), and otherwise takes the first registered name |
| Registry.LoadErrors | src/app_manager/apps/registry.py:36-70 | a falsy document fails with "Empty apps configuration file", an empty `apps` list with "No apps configured", and well-formed entries load |
| Registry.NotFoundMessageExample | src/app_manager/apps/registry.py:83-86 | asking for "nope" with "web" then "api" registered gives "Unknown app: 'nope'. Available apps: web, api", the names in registration order |
| Registry.AppNotFoundError.Message | src/app_manager/apps/registry.py:83-86 | the message is "Unknown app: '", the requested name (`None` printed as "None"), "'. Available apps: " and the available names joined by ", ", in that order and nothing else |
| Registry.LoadError.Message | src/app_manager/apps/registry.py:30-46 | a missing file's message ends with the path; a `KeyError`'s text is the missing key in single quotes |
| Registry.LoadOutcome | src/app_manager/apps/registry.py:26-75 | a missing file or a falsy document raises and leaves the dict and the default untouched; the dict invariant is kept; a successful load leaves at least one app and a default |
| Registry.AppRegistry.constructor | src/app_manager/apps/registry.py:22-24 | a new registry is empty and has no default |
| Registry.AppRegistry.LoadFromYaml | src/app_manager/apps/registry.py:26-75 | the loop leaves exactly the dict, default and exception of `LoadOutcome`: a missing file, a falsy document, the first `KeyError` (keeping what was registered before it), no apps, or success |
| Registry.AppRegistry.Get | src/app_manager/apps/registry.py:77-88 | `None` means the default; the lookup succeeds exactly for a registered name and returns its configuration; otherwise it fails with the name asked for and the names in order |
| Registry.GetNoneIsDefault | src/app_manager/apps/registry.py:79-80 | `get(None)` is `get(default_app)` |
| Registry.AppRegistry.ListApps | src/app_manager/apps/registry.py:90-92 | the configurations in registration order, one per key |
| Registry.AppRegistry.GetAppNames | src/app_manager/apps/registry.py:94-96 | the names in registration order, which is the key order of the dict, one for each configuration `ListApps` returns, in the same order |
| Registry.AppRegistry.Len | src/app_manager/apps/registry.py:98-99 | the number of registered names |
| Registry.AppRegistry.Contains | src/app_manager/apps/registry.py:101-102 | membership exactly for registered names |
| Config.ParseAll | src/app_manager/config.py:16 | the conversion succeeds exactly when every segment is an integer literal, giving their values in order; otherwise it raises for the first segment that is not |
| Config.FirstRejectedEscapes | src/app_manager/config.py:16 | when every segment before position k converts and the one at k does not, the whole list raises for the segment at k |
| Config.ParseCommaSeparatedInts | src/app_manager/config.py:7-17 | `None`, a blank text and other values give `[]`, a list comes back as it is, a text gives the conversion of its non-empty stripped comma segments |
| Config.BlankCheckRedundant | src/app_manager/config.py:14-16 | a blank text would give `[]` even without the early return |
| Config.ParseFormatIds | src/app_manager/config.py:16 | parsing ids written as `",".join(str(i) ...)` gives the same ids in the same order |
| Config.NonNumericSegmentRejected | src/app_manager/config.py:16 | "12,abc" raises a `ValueError` for "abc" |
| Config.TextParsesBySegments | src/app_manager/config.py:7-17 | a text converts exactly as its list of non-empty stripped comma segments does |
| Config.RejectedSecondSegment | src/app_manager/config.py:16 | for two comma-free, surrounding-space-free segments where the first is an integer and the second is not, the text "a,b" raises for "b" |
| Config.Settings.AdminIds | src/app_manager/config.py:51-54 | the admin ids are the conversion of the non-empty stripped segments of `admin_user_ids`, so the blank-text early return never changes them |
| Config.Settings.AllowedIds | src/app_manager/config.py:56-59 | the allowed ids are likewise the conversion of the segments of `allowed_user_ids` |
| Config.Settings.IsAdmin | src/app_manager/config.py:66-68 | answered exactly when the admin list parses, and then true exactly for a listed admin; otherwise the admin list's `ValueError` |
| Config.Settings.IsAuthorized | src/app_manager/config.py:70-72 | answered exactly when both lists parse, and then true exactly for a user listed as admin or as allowed; otherwise the admin list's error, or the allowed list's when the admin list parses |
| Config.Settings.AllAuthorizedUsers | src/app_manager/config.py:61-64 | the union of the admin and allowed ids; it fails if either list fails to parse, the admin list first |
| Config.AdminIsAuthorized | src/app_manager/config.py:66-72 | every admin is authorised when the allowed list parses |
| Config.MalformedAllowedList | src/app_manager/config.py:56-72 | a malformed allowed list makes every authorisation check fail while admin checks are still answered |
| PyText.Find | src/app_manager/apps/executor.py:249 | `find` gives the first index of the character, or -1 when it is absent |
| PyText.Strip | src/app_manager/config.py:16 | the stripped text is a contiguous piece of the text, no longer than it |
| PyText.StripTrimmed | src/app_manager/config.py:16 | a stripped text neither starts nor ends with whitespace |
| PyText.Split | src/app_manager/config.py:16 | `split` never gives an empty list, and no piece holds the separator |
| PyText.Join | src/app_manager/apps/registry.py:83 | joining nothing gives the empty text; joining two or more pieces is at least as long as the first piece, the separator and the last piece |
| PyText.JoinEnds | src/app_manager/apps/registry.py:83 | a join starts with its first piece and ends with its last one |
| PyText.Lower | src/app_manager/bot/handlers.py:225 | `lower` keeps the length, turns each ASCII capital into its lowercase letter, and changes nothing else |
| PyText.IntToString | src/app_manager/config.py:16 | `str(i)` is never empty, starts with a digit or a minus sign, and ends with a digit |
| PyText.PyInt | src/app_manager/config.py:16 | `int()` succeeds only on a text that holds a digit |
| PyText.PyIntIgnoresSurroundingSpace | src/app_manager/config.py:16 | stripping a text first does not change what `int()` gives for it |
| PyText.StripIdempotent | src/app_manager/config.py:16 | stripping a stripped segment again changes nothing |
| PyText.StripEmptyIff | src/app_manager/config.py:14 | a text strips to nothing exactly when it is all whitespace |
| PyText.SplitJoin | src/app_manager/config.py:16 | splitting a join of separator-free pieces gives the pieces back |
| PyText.JoinSplit | src/app_manager/config.py:16 | joining the pieces of a split with the separator gives the text back |
| PyText.PyIntOfIntToString | src/app_manager/config.py:16 | `int(str(i)) == i` for every integer |
| PyText.ParseIntToString | src/app_manager/config.py:16 | the decimal form of every integer, sign included, is read back as that integer |
| PyText.PyIntRejectsNonNumericStart | src/app_manager/config.py:16 | `int()` rejects a text that starts with neither a sign, a digit nor whitespace |
| Handlers.ArgList | src/app_manager/bot/handlers.py:218 | `context.args or []`: the arguments Telegram sent, or none when it sent none |
| Handlers.SecondArg | src/app_manager/bot/handlers.py:354 | the second argument exactly when there are at least two |
| Handlers.LogsAppName | src/app_manager/bot/handlers.py:224-228 | a named application is one of the arguments and not a service word; no name means every argument is a service word |
| Handlers.GetAppName | src/app_manager/bot/handlers.py:28-32 | the first argument when there is one, otherwise `None` |
| Handlers.LogsService | src/app_manager/bot/handlers.py:222-228 | the service is always "backend" or "frontend" |
| Handlers.ParseLogsArgs | src/app_manager/bot/handlers.py:218-228 | the loop leaves the application and service of the last matching arguments |
| Handlers.LogsServiceIsLastServiceWord | src/app_manager/bot/handlers.py:224-226 | the last argument whose lowered form is "backend" or "frontend" sets the service, lowered |
| Handlers.LogsServiceDefault | src/app_manager/bot/handlers.py:222 | with no such argument the service is "backend" |
| Handlers.LogsAppNameIsLastOther | src/app_manager/bot/handlers.py:227-228 | the last other argument names the application |
| Handlers.LogsAppNameDefault | src/app_manager/bot/handlers.py:221 | with no other argument the default application is used |
| Handlers.ParseBranchArgs | src/app_manager/bot/handlers.py:342-354 | no argument shows usage; otherwise the branch is the first argument and the application the second, if any |
| Handlers.ParseCommits | src/app_manager/bot/handlers.py:385-402 | no argument shows usage; the count is accepted exactly when `int()` parses the first argument to at least 1 |
| Handlers.ParseCommitsOfDecimal | src/app_manager/bot/handlers.py:396-402 | every count of at least 1, written in decimal, is accepted as it is |
| Handlers.ParseCommitsRefusesNonPositive | src/app_manager/bot/handlers.py:398-399 | zero and negative counts are refused |
| Handlers.UpdateFlow | src/app_manager/bot/handlers.py:283-333 | an unknown app makes no call; otherwise fetch, pull and restart run in that order, each only after the one before succeeded, and the flow stops and reports at the first failure |
| Handlers.UpdateRestartsIffGitSucceeds | src/app_manager/bot/handlers.py:297-327 | the restart runs exactly when fetch and pull both succeed |
| Handlers.BranchFlow | src/app_manager/bot/handlers.py:342-376 | no argument shows usage with no call; otherwise fetch and then checkout always run, and the checkout result is reported |
| Handlers.BranchIgnoresFetch | src/app_manager/bot/handlers.py:368-370 | the fetch result changes nothing |
| Handlers.RollbackFlow | src/app_manager/bot/handlers.py:385-439 | the usage and invalid-count errors come before the application lookup and make no call; otherwise the reset by the count runs, then the restart only after a successful reset |
| Handlers.RollbackResetsArePositive | src/app_manager/bot/handlers.py:396-425 | no reset without a valid count, and every reset is by at least one commit |
| Handlers.SelfRollbackFlow | src/app_manager/bot/handlers.py:448-487 | the same count checks; the bot's own directory is reset, and the bot restarts exactly when the reset succeeds |
| Handlers.FormatAppList | src/app_manager/bot/handlers.py:34-45 | the text is the header and the lines of every application in registry order, joined by line breaks |
| Handlers.BuildAppLines | src/app_manager/bot/handlers.py:37-43 | the loop leaves the header followed by each application's lines in registry order, with the default one marked |
| Handlers.AppLinesAt | src/app_manager/bot/handlers.py:39-43 | each application contributes its name line, then its description line when the description is not empty, at its place in the order |
| Handlers.MarkedIffDefault | src/app_manager/bot/handlers.py:40-41 | a name line carries " (default)" exactly when the application is the default one |
| Handlers.DefaultMarkedOnce | src/app_manager/bot/handlers.py:36-41 | in a registry, exactly the application at the default's place is marked, and none is when the default is unregistered |

## Left out

- **Subprocess plumbing:** `create_subprocess_exec`, `wait_for`, pipe merging and UTF-8 decoding are not modelled. A spawned process is a `ProcessOutcome` given as input, and the decoded output is taken as given.
- **Undefined executor methods:** the handlers call `git_fetch`, `git_checkout`, `git_reset`, `self_restart`, `self_update` and `read_log_file`, but src/app_manager/apps/executor.py does not define them. They are oracle calls with no contract of their own.
- **Self commands:** `/self_update`, `/self_logs` and `/self_restart` are not modelled, because they only forward such a call.
- **Settings fields the handlers read:** `self_rollback` reads `bot_dir` and `bot_script`, which `Settings` does not define. In the model they are parameters.
- **Filesystem queries:** `Path.exists` and `is_file` are the sets of a `FileSystem` value.
- **YAML:** reading and parsing the file is not modelled. `load_from_yaml` receives the file as missing or present with a parsed document. Values of the wrong YAML type (a non-string name, a `null` script, `apps` that is not a list) are not modelled.
- **Telegram replies:** message texts, Markdown, status icons, and the welcome and help strings are UI. A flow reports its final `Outcome`, and the intermediate progress replies are not modelled.
- **Single-call commands:** `/status`, `/app_start`, `/app_stop`, `/app_restart` and `/build` resolve the app and make one `run` call. They are not modelled as flows.
- **`/logs` after parsing:** the rest of `/logs` resolves the app and makes one `get_logs` call. This is not modelled.
- **Other source files:** src/app_manager/bot/auth.py (decorators whose decision is `is_authorized`/`is_admin`) and src/app_manager/main.py (startup, handler registration, polling) are not part of this model. Nor are pydantic-settings environment loading, logging and the package `__init__` files.
- **PyText.LowerChar:** lowercases ASCII letters only. Python's `str.lower` also maps other letters; for example the Kelvin sign lowercases to "k", so `/logs BACKEND` written with it is not recognised here.
- **PyText.ParseIntLiteral:** accepts ASCII digits only. Python's `int()` also accepts other Unicode decimal digits.
- **Paths.ParsePath:** does not keep the special root that `PurePosixPath` gives to a path starting with exactly two slashes.
- **Executor.LogsResult:** a timeout of `tail` is reported by its exception text, which `ProcessOutcome` carries instead of computing it.
- **Integers:** arithmetic is unbounded, as Python's is, so no wrap-around is modelled. Conversion between `int` and `str` is bounded in CPython 3.11 and later, and that bound is not modelled (see the two lines below).
- PyText.PyIntOfIntToString: holds for every integer here. CPython 3.11 and later raise `ValueError` from `str(i)` when `i` has more than 4300 digits, so that round trip cannot start there.
- PyText.ParseIntToString: reads back decimal forms of any length. CPython 3.11 and later refuse `int()` of a text with more than 4300 digits, so `ParseCommaSeparatedInts` here accepts a segment of 4301 digits that `parse_comma_separated_ints` rejects.
- PyText.PyInt: strips the separator characters U+001C to U+001F, which `str.strip` and `str.isspace` count as whitespace and a bare `int()` does not. No caller can tell the two apart: src/app_manager/config.py:16 strips every segment before `int()`, and Telegram splits command arguments on whitespace.
