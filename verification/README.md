# openmediavault plugin collection: a Dafny model of the service core

This project models the parts of the openmediavault plugin collection that make decisions.

- **The StoreCLI RPC service.** It covers:
  - binary detection;
  - the controller selector and the `show`-only argument sanitiser;
  - how the `getControllerDetails`, `runShowCommand` and `getLogs` commands are assembled;
  - how `getStatus` merges its errors and extracts controller hints.
- **The Docker-stack RPC services.** It covers:
  - the `docker compose ls` status parser;
  - the `getLogs` command and its reply;
  - the install, remove and restart verbs;
  - the per-plugin variants of all three: Drone CI, Immich as it appears in the source tree and as packaged, and Certbot on the shared base or on its fallback copy.
- **The release scripts.**
  - `get_plugin_versions.py` reads and validates the SemVer version in each changelog header.
  - `list_changed_plugins.py` maps a git diff onto plugin directories, picks the refs to compare, and reports a sorted payload.
- **The web panels.** It covers:
  - the StoreCLI panel's prompt and event log;
  - the button layout of the Docker service panel and of the Certbot panel;
  - the web URL;
  - the confirmation gate on remove;
  - the loading mask that brackets every RPC request;
  - the text of the output and log windows.

Everything outside the process is a function parameter. That means `shutil.which`, `subprocess.run`, the directory test, the changelog files, `git diff`/`git describe`, and the host page's hostname. The model is exact for every completed run those parameters report. Runs that raise are covered only where the source catches them; see "## Left out".

| file | module | models |
|---|---|---|
| wrappers.dfy | Wrappers | `Option` and `Result` with failure propagation |
| text.dfy | Text | Python's `strip`, `lower`, `partition`, `splitlines`, `"\n".join`, `x or y` and digit strings |
| storecli.dfy | StoreCli | `StoreCLI.py` |
| docker_service.dfy | DockerService | `BaseDockerService.py` |
| services.dfy | Services | `DroneCI.py`, both `Immich.py` files and `Certbot.py` |
| plugin_versions.dfy | PluginVersions | `scripts/get_plugin_versions.py` |
| changed_plugins.dfy | ChangedPlugins | `scripts/list_changed_plugins.py` |
| panels.dfy | Panels | `StoreCLI.js`, `BaseDockerServicePanel.js` and `Certbot.js` |

## Model

| member | source | states |
|---|---|---|
| StoreCli.FirstFoundSpec | openmediavault-storecli/src/usr/share/openmediavault/engined/rpc/StoreCLI.py:34-39 | The binary search succeeds exactly when some candidate resolves to a non-empty path. It then returns the path of the earliest candidate that resolves, in list order. |
| StoreCli.SafeController | openmediavault-storecli/src/usr/share/openmediavault/engined/rpc/StoreCLI.py:52-58 | A selector is accepted exactly when its stripped, lower-cased form is `all`, `*`, `call` or a digit string. `all`, `*` and `call` map to `/call`, and digits map to `/c<digits>`. Any other selector fails with the invalid-controller error. Every accepted result is a valid target. |
| StoreCli.EmptySelectorSelectsAll | openmediavault-storecli/src/usr/share/openmediavault/engined/rpc/StoreCLI.py:53-55 | An empty selector, or a missing one, falls back to `all` and selects every controller. |
| StoreCli.DigitSelector | openmediavault-storecli/src/usr/share/openmediavault/engined/rpc/StoreCLI.py:53-57 | A selector whose stripped form is digits addresses that controller, whatever whitespace surrounds it. |
| StoreCli.BlankSelectorRejected | openmediavault-storecli/src/usr/share/openmediavault/engined/rpc/StoreCLI.py:53-58 | A non-empty, all-whitespace selector does not fall back to `all`: it is rejected. |
| StoreCli.TargetsAreReachable | openmediavault-storecli/src/usr/share/openmediavault/engined/rpc/StoreCLI.py:52-58 | Every target the selector can produce is produced by some selector. This is the inverse direction of SafeController. |
| StoreCli.CleanItemsSpec | openmediavault-storecli/src/usr/share/openmediavault/engined/rpc/StoreCLI.py:65-75 | The argument loop succeeds exactly when every item is a string and every stripped, non-empty item uses only `A-Za-z0-9_./:-`. It then keeps exactly those items, in order. Otherwise it fails exactly at the first offending item in list order: a non-string gives the "must be strings" error, and a bad word gives the invalid-characters error naming that stripped word. |
| StoreCli.FirstOffending | openmediavault-storecli/src/usr/share/openmediavault/engined/rpc/StoreCLI.py:67-74 | The index of the first item the loop raises on: no earlier item offends, and the item at the index does, unless the index is the list length. |
| StoreCli.SanitizeShowArgs | openmediavault-storecli/src/usr/share/openmediavault/engined/rpc/StoreCLI.py:61-81 | The sanitiser accepts an argument list exactly when all of these hold: it is a non-empty list of strings, its stripped items are clean, some item is non-blank, and the first kept item lower-cases to `show`. The result is the stripped non-blank items. A non-list or an empty list fails first with its own error. Otherwise the first offending item in list order decides the error: a non-string gives "must be strings", and a bad word gives the invalid-characters error naming that stripped word. Only a list with no offending item can fail with "no valid arguments" or "only show". |
| StoreCli.ForeignCharacterRejected | openmediavault-storecli/src/usr/share/openmediavault/engined/rpc/StoreCLI.py:73-74 | One character outside the permitted set anywhere in a stripped argument rejects the whole command, naming that argument. |
| StoreCli.ShowWords | openmediavault-storecli/src/usr/share/openmediavault/engined/rpc/StoreCLI.py:61-81 | Clean words led by `show` in any case pass through unchanged. |
| StoreCli.AssembleCommand | openmediavault-storecli/src/usr/share/openmediavault/engined/rpc/StoreCLI.py:144-153 | A command is built only when the binary is found, the selector is valid and the arguments are sanitised. It is then the binary, the target and the words. A failure reports the first check that failed, in the source's order: the missing binary, then the invalid controller, then the sanitiser's own error. |
| StoreCli.OnlyShowCommandsRun | openmediavault-storecli/src/usr/share/openmediavault/engined/rpc/StoreCLI.py:141-171 | Whatever parameters the caller sends, a command that `getControllerDetails` or `runShowCommand` runs is: the detected binary, a valid controller target, and a clean `show` vector. |
| StoreCli.DetailsDefaultArguments | openmediavault-storecli/src/usr/share/openmediavault/engined/rpc/StoreCLI.py:148-153 | Without `arguments`, `getControllerDetails` runs `show all` on the selected controller. |
| StoreCli.ShowCommandNeedsArguments | openmediavault-storecli/src/usr/share/openmediavault/engined/rpc/StoreCLI.py:165-167 | Without `arguments`, `runShowCommand` is rejected as an empty list. |
| StoreCli.RunCommand | openmediavault-storecli/src/usr/share/openmediavault/engined/rpc/StoreCLI.py:84-92 | A command runs only if it was assembled. The reply then carries that command, and the run's stdout, stderr and return code. A command that was not assembled passes its error through. |
| StoreCli.RepliesReportShowCommands | openmediavault-storecli/src/usr/share/openmediavault/engined/rpc/StoreCLI.py:140-170 | Every successful reply of `getControllerDetails` and `runShowCommand` reports a command that is the binary, a controller target and a `show` vector over the permitted characters. The reply's stdout and stderr are that command's own. |
| StoreCli.HintLinesMembers | openmediavault-storecli/src/usr/share/openmediavault/engined/rpc/StoreCLI.py:125-129 | A line is a controller hint exactly when it is the stripped form of a non-blank summary line that starts with `controller` or `ctl` in any case. |
| StoreCli.HintShape | openmediavault-storecli/src/usr/share/openmediavault/engined/rpc/StoreCLI.py:125-129 | A hint is non-empty and is a prefix of its line, because the line starts with a non-space character. Its lower-cased form starts with `controller` or `ctl`. |
| StoreCli.HintsRoundTrip | openmediavault-storecli/src/usr/share/openmediavault/engined/rpc/StoreCLI.py:125-129 | Splitting the joined hints into lines gives back the list of hint lines. |
| StoreCli.MergeErrors | openmediavault-storecli/src/usr/share/openmediavault/engined/rpc/StoreCLI.py:104-118 | Error text per outcome:<br>• Successful summary: the version probe's error text.<br>• Failed summary: the non-empty ones of the version error and the summary's diagnostic, joined by a newline, as `"\n".join(filter(None, …))`. So a single non-empty diagnostic stands alone, with no newline.<br>The text is empty exactly when no failed probe left a diagnostic. |
| StoreCli.GetStatus | openmediavault-storecli/src/usr/share/openmediavault/engined/rpc/StoreCLI.py:98-138 | `installed` holds exactly when some candidate resolves. Without a binary: the fixed install message and empty fields. With one: the version and summary come from the two probes, stripped, or are empty when a probe failed. The hints always derive from the summary. |
| StoreCli.StatusErrorEmpty | openmediavault-storecli/src/usr/share/openmediavault/engined/rpc/StoreCLI.py:119-137 | The status error is empty exactly when the binary is installed and no failed probe left a diagnostic. |
| StoreCli.EventLogCommand | openmediavault-storecli/src/usr/share/openmediavault/engined/rpc/StoreCLI.py:177-180 | The event log runs `<binary> /call show events`. |
| StoreCli.GetLogs | openmediavault-storecli/src/usr/share/openmediavault/engined/rpc/StoreCLI.py:172-183 | The event log reply passes through both streams of `<binary> /call show events`. Without a binary it carries the exception text and no logs. |
| DockerService.ScanListing | common/src/usr/share/openmediavault/engined/rpc/BaseDockerService.py:59-73 | The scan's result:<br>• Listing loop that stops at the first line naming the project: the same result as the first-match definition.<br>• A running result: its status text says `running`. |
| DockerService.GetStatus | common/src/usr/share/openmediavault/engined/rpc/BaseDockerService.py:39-73 | A missing `docker` binary gives not running with status `docker-not-found`. A listing is parsed by the status parser. A stack reported as running was listed, with a status that says `running`. |
| DockerService.FirstMatchAt | common/src/usr/share/openmediavault/engined/rpc/BaseDockerService.py:59-66 | The first non-empty line whose stripped name column is the project decides the status. Later lines are never consulted. |
| DockerService.NotListedStatus | common/src/usr/share/openmediavault/engined/rpc/BaseDockerService.py:59-73 | With no line naming the project, the stack is `not-installed` and not running. If the listing command failed, it is `error`. |
| DockerService.ListedStatus | common/src/usr/share/openmediavault/engined/rpc/BaseDockerService.py:59-73 | For a listed stack, `running` is whether its status column contains `running` in any case. A failed listing turns the status into `error` only when the stack is not running. |
| DockerService.RunningMeansListed | common/src/usr/share/openmediavault/engined/rpc/BaseDockerService.py:59-73 | A running stack was listed, and it reports its listed status text rather than `error`. |
| DockerService.MatchHasLine | common/src/usr/share/openmediavault/engined/rpc/BaseDockerService.py:60-66 | A match comes from a listing line that names the project, and reports that line's status column. |
| DockerService.NoTabIsUnknown | common/src/usr/share/openmediavault/engined/rpc/BaseDockerService.py:62-64 | A matching line without a tab reports `unknown`. |
| DockerService.OneProjectPerLine | common/src/usr/share/openmediavault/engined/rpc/BaseDockerService.py:59-68 | A listing line matches at most one project name, since the stripped name column is compared for equality. |
| DockerService.OtherProjectsIgnored | common/src/usr/share/openmediavault/engined/rpc/BaseDockerService.py:59-68 | Inserting lines of other projects anywhere in the listing leaves the match unchanged. |
| DockerService.LogsCommand | common/src/usr/share/openmediavault/engined/rpc/BaseDockerService.py:95-99 | `getLogs` runs `docker compose logs --tail=100`. A non-empty service name is appended as the only extra word. |
| DockerService.LogsReplyOf | common/src/usr/share/openmediavault/engined/rpc/BaseDockerService.py:100-111 | The logs are the run's stdout. The error is stderr when the exit code is non-zero, and empty otherwise. An exception gives no logs and its text as the error. |
| DockerService.VerbNamesDistinct | common/src/usr/share/openmediavault/engined/rpc/BaseDockerService.py:75-91 | Each method name denotes its own verb. Distinct verbs report distinct status words, and no method name is a status word. |
| DockerService.MkconfCommand | common/src/usr/share/openmediavault/engined/rpc/BaseDockerService.py:75-91 | The mkconf command is `/bin/bash`, the script, and a word that names the verb. |
| DockerService.ActionReply | common/src/usr/share/openmediavault/engined/rpc/BaseDockerService.py:75-91 | An action succeeds exactly when its command exits 0. It then reports its own status word. Otherwise it raises `CalledProcessError` with that command and exit code. |
| Services.PackagedImmich | openmediavault-immich/debian/openmediavault-immich/usr/share/openmediavault/openmediavault/engined/rpc/Immich.py:107-180 | The packaged Immich service, with the class definition corrected, restarts and reports like the source-tree service. It offers `getLogs` exactly when the shared base is present. |
| Services.RestartCommands | openmediavault-drone-ci/src/usr/share/openmediavault/engined/rpc/DroneCI.py:84-99 | Restart commands per service:<br>• Drone CI and Immich: restart only their server container, through the stack's compose and env files.<br>• Immich's fallback base and Certbot: run their mkconf script. |
| Services.InstallRemoveUseMkconf | openmediavault-immich/src/usr/share/openmediavault/engined/rpc/Immich.py:72-101 | Install and remove run the service's own mkconf script with the method name. The Immich override and the fallback base agree on these two verbs and differ only on restart. |
| Services.ProjectsDistinct | openmediavault-immich/src/usr/share/openmediavault/engined/rpc/Immich.py:35-70 | The `drone-ci`, `immich` and `certbot` projects are pairwise distinct, so a listing line names at most one of them. |
| Services.StatusIgnoresOtherStacks | openmediavault-drone-ci/src/usr/share/openmediavault/engined/rpc/DroneCI.py:35-70 | Two services with different projects read one listing independently: another service's lines, inserted anywhere, leave this service's match unchanged. |
| Services.CertbotLogs | openmediavault-certbot/src/usr/share/openmediavault/engined/rpc/Certbot.py:104-126 | The fallback Certbot `getLogs` reads every service of the certbot stack. The shared base agrees with it when no service is requested, and narrows to the requested service otherwise. |
| Services.PackagedImmichBehaves | openmediavault-immich/debian/openmediavault-immich/usr/share/openmediavault/openmediavault/engined/rpc/Immich.py:114-180 | On either base, the overrides give the same commands and status as the source-tree Immich service. |
| PluginVersions.Parse | scripts/get_plugin_versions.py:13 | An accepted version consists of three digit strings, an optional pre-release and an optional build. Each suffix is made of `0-9A-Za-z.-`, and the parts render back to exactly the input. |
| PluginVersions.ParseRender | scripts/get_plugin_versions.py:13 | Every well-formed version renders to a string that parses back to that version. |
| PluginVersions.ParseDecides | scripts/get_plugin_versions.py:13 | The parser accepts a string exactly when the string is the rendering of some well-formed version. |
| PluginVersions.LenientShape | scripts/get_plugin_versions.py:13 | The pattern accepts leading zeros and dot-only suffixes, and rejects a two-part version. |
| PluginVersions.HeaderVersion | scripts/get_plugin_versions.py:22-27 | A header line yields a version exactly when it holds both brackets and the stripped text after the first `(` and before the next `)` is a SemVer. A missing bracket reports a malformed header, and otherwise the failure names the rejected candidate. |
| PluginVersions.ReadVersion | scripts/get_plugin_versions.py:16-28 | A missing changelog and an empty changelog each fail with their own error. Every version read is a SemVer. |
| PluginVersions.OnlyFirstLine | scripts/get_plugin_versions.py:21 | Only the first line of the changelog is consulted. |
| PluginVersions.CloseBeforeOpen | scripts/get_plugin_versions.py:22-25 | A `)` before the first `(` still passes the bracket check, and the candidate runs to the end of the line. |
| PluginVersions.CollectVersions | scripts/get_plugin_versions.py:31-39 | The loop succeeds exactly when every plugin's version reads. The map's keys are then exactly the plugins, with each value read from its own changelog. A failure is the error of the first plugin that failed. |
| PluginVersions.ReadAllVersions | scripts/get_plugin_versions.py:31-39 | Result per input:<br>• No plugins: the empty object.<br>• Success, exactly when every read succeeds: every named plugin maps to its validated SemVer.<br>• Failure: the error of the first plugin in command-line order whose read fails; every earlier plugin was read. |
| ChangedPlugins.CleanLines | scripts/list_changed_plugins.py:33 | The diff's file list has no more entries than the output has lines, and every entry is non-empty and already stripped. |
| ChangedPlugins.CleanLinesMembers | scripts/list_changed_plugins.py:33 | A file is listed exactly when it is the stripped form of some non-blank output line. |
| ChangedPlugins.ResolvePlugin | scripts/list_changed_plugins.py:59-67 | A path marks a plugin exactly when its first path component starts with `openmediavault-` and is a directory. The plugin is that component. |
| ChangedPlugins.FirstComponent | scripts/list_changed_plugins.py:59-63 | `Path(p).parts[0]`: nothing for an empty path; `/` or `//` for a rooted path; otherwise a segment that is neither `.` nor contains `/`. |
| ChangedPlugins.ResolvesToTopDirectory | scripts/list_changed_plugins.py:59-67 | Any file under a plugin directory marks that plugin. |
| ChangedPlugins.SharedFilesMarkNothing | scripts/list_changed_plugins.py:59-67 | Files under `common/` and `scripts/` mark no plugin. |
| ChangedPlugins.RootedPathsMarkNothing | scripts/list_changed_plugins.py:59-67 | An absolute path's first component is the root, so it marks no plugin. |
| ChangedPlugins.ChangedSetMembers | scripts/list_changed_plugins.py:70-76 | A plugin is in the changed set exactly when some diff file resolves to it. |
| ChangedPlugins.AllPlugins | scripts/list_changed_plugins.py:51-56 | The full list consists of the entries that are directories named `openmediavault-*`. |
| ChangedPlugins.ChangedAmongAll | scripts/list_changed_plugins.py:51-76 | When the root entries include every single-component `openmediavault-*` directory (the only names `_resolve_plugin` can accept), every changed plugin is among all plugins. |
| ChangedPlugins.Select | scripts/list_changed_plugins.py:80-91 | Ref choice, in order of precedence:<br>• A non-empty `BASE_REF` wins.<br>• Otherwise the latest `v*` tag.<br>• Otherwise every plugin is listed.<br>The head ref defaults to `HEAD`. |
| ChangedPlugins.LatestTag | scripts/list_changed_plugins.py:36-48 | The latest tag is absent when `git describe` fails or prints only whitespace. Otherwise it is a non-empty tag that is already stripped. |
| ChangedPlugins.SelectConsultsTagOnlyWithoutBase | scripts/list_changed_plugins.py:80-91 | A non-empty `BASE_REF` makes the tag lookup irrelevant. Otherwise the selection depends on the tag run only through the tag it names. |
| ChangedPlugins.SelectionOutcomes | scripts/list_changed_plugins.py:17-33 | A failing diff marks nothing. When the root entries include every single-component `openmediavault-*` directory, the plugins listed are among all plugins. |
| ChangedPlugins.BelowTotal | scripts/list_changed_plugins.py:93 | String order by code point is total and antisymmetric. |
| ChangedPlugins.Sorted | scripts/list_changed_plugins.py:93 | The list is strictly ascending and holds exactly the members of the set. |
| ChangedPlugins.AscendingUnique | scripts/list_changed_plugins.py:93 | Two strictly ascending lists with the same members are equal, so the sorted list is unique. |
| ChangedPlugins.ListChangedPlugins | scripts/list_changed_plugins.py:79-98 | The payload lists the selected plugins in ascending order. `has_changes` holds exactly when the list is non-empty, which is exactly when some plugin was selected. |
| Panels.OutputText | openmediavault-storecli/src/usr/share/openmediavault/web/js/omv/module/admin/service/StoreCLI.js:164-168 | The output starts with stdout, or `No output` when stdout is falsy. A truthy stderr is appended after the `Errors:` heading. |
| Panels.LogText | common/src/usr/share/openmediavault/web/js/omv/module/admin/service/BaseDockerServicePanel.js:138-144 | A truthy error replaces the logs with `Error retrieving logs: <error>`. Otherwise the text is the logs, or `No logs available`. |
| Panels.ErrorsAppendOrReplace | openmediavault-storecli/src/usr/share/openmediavault/web/js/omv/module/admin/service/StoreCLI.js:164-168 | The output window keeps stdout when there are errors, but the logs window drops it. |
| Panels.ServiceButtonOrder | common/src/usr/share/openmediavault/web/js/omv/module/admin/service/BaseDockerServicePanel.js:21-56 | With a configured web port, Open Web Interface is the second of five buttons. Without it the other four keep their order. The button is present exactly when the port is configured. |
| Panels.ServiceButtons | common/src/usr/share/openmediavault/web/js/omv/module/admin/service/BaseDockerServicePanel.js:21-56 | The base panel shows the four core buttons, and Open Web Interface as a fifth exactly when a web port is configured. |
| Panels.CertbotButtonOrder | openmediavault-certbot/src/usr/share/openmediavault/web/js/omv/module/admin/service/Certbot.js:43-71 | Certbot shows the same four buttons as the base panel, but with View Logs before Remove. |
| Panels.WebUrlReads | common/src/usr/share/openmediavault/web/js/omv/module/admin/service/BaseDockerServicePanel.js:108-112 | The URL reads back as the host, port and path it was built from, when the host has no colon and the path does not start with a digit. |
| Panels.WebUrl | common/src/usr/share/openmediavault/web/js/omv/module/admin/service/BaseDockerServicePanel.js:108-112 | The URL starts with `http://`, the host and a colon, and ends with the path. |
| Panels.RequestRoundTrip | common/src/usr/share/openmediavault/web/js/omv/module/admin/service/BaseDockerServicePanel.js:114-136 | A request followed by its reply leaves the mask down and adds exactly the one call. It also adds one window, which is an error box exactly when the request failed. |
| Panels.ControllerAnswer | openmediavault-storecli/src/usr/share/openmediavault/web/js/omv/module/admin/service/StoreCLI.js:106-133 | A falsy answer does nothing. A truthy one raises the mask and requests `getControllerDetails` for that controller with `show all`. |
| Panels.PromptSendsButtonId | openmediavault-storecli/src/usr/share/openmediavault/web/js/omv/module/admin/service/StoreCLI.js:103-133 | As written, OK sends the controller `ok`, and Cancel also sends a request. The backend rejects both `ok` and `cancel`. |
| Panels.PromptSendsTypedController | openmediavault-storecli/src/usr/share/openmediavault/web/js/omv/module/admin/service/StoreCLI.js:103-133 | With the callback reading the typed text, OK sends the typed controller, which the backend accepts, and Cancel does nothing. |
| Panels.PromptAsWrittenSettled | openmediavault-storecli/src/usr/share/openmediavault/web/js/omv/module/admin/service/StoreCLI.js:103-133 | The prompt handler as written also keeps the mask raised exactly while a reply is awaited, and only adds calls and windows. |
| Panels.ViewEventLog | openmediavault-storecli/src/usr/share/openmediavault/web/js/omv/module/admin/service/StoreCLI.js:139-162 | The event log button raises the mask and requests `StoreCLI.getLogs`. |
| Panels.EventLogWindow | openmediavault-storecli/src/usr/share/openmediavault/web/js/omv/module/admin/service/StoreCLI.js:139-162 | The event log window shows the backend's logs and error. Without a binary it shows `No output` followed by the missing-binary message. |
| Panels.ActionCall | common/src/usr/share/openmediavault/web/js/omv/module/admin/service/BaseDockerServicePanel.js:73-106 | Install, remove and restart post to the backend method of the same name. |
| Panels.ConfirmClosed | common/src/usr/share/openmediavault/web/js/omv/module/admin/service/BaseDockerServicePanel.js:81-98 | Closing the confirmation sends the remove call exactly when the answer is `yes`. Any other answer changes nothing. |
| Panels.RemoveNeedsYes | openmediavault-certbot/src/usr/share/openmediavault/web/js/omv/module/admin/service/Certbot.js:81-101 | Clicking Remove sends nothing by itself, and declining the confirmation sends nothing either. |
| Panels.OneCallPerClick | common/src/usr/share/openmediavault/web/js/omv/module/admin/service/BaseDockerServicePanel.js:73-136 | A click adds at most one call and keeps the earlier ones. Only View Logs raises the loading mask. |
| Panels.Click | common/src/usr/share/openmediavault/web/js/omv/module/admin/service/BaseDockerServicePanel.js:73-136 | Of the button handlers only Remove opens a window, the confirmation, and only View Logs starts waiting for a reply, the logs window. |
| Panels.LogsWindowForBackend | common/src/usr/share/openmediavault/web/js/omv/module/admin/service/BaseDockerServicePanel.js:114-144 | What the logs window shows for each outcome of the backend run:<br>• Clean or silent run: the stdout.<br>• Failing run: the stderr after the error prefix.<br>• Exception: its text after the error prefix. |
| Panels.StepSettled | common/src/usr/share/openmediavault/web/js/omv/module/admin/service/BaseDockerServicePanel.js:114-136 | Each event keeps the mask raised exactly while a reply is awaited. Calls and windows are only ever appended. |
| Panels.RemoveOnlyAfterYes | common/src/usr/share/openmediavault/web/js/omv/module/admin/service/BaseDockerServicePanel.js:73-136 | A remove call is added only by answering `yes` to the confirmation while no request is outstanding. No other button, prompt, event log request or reply sends one. |
| Panels.RunSettled | openmediavault-storecli/src/usr/share/openmediavault/web/js/omv/module/admin/service/StoreCLI.js:101-162 | Over any sequence of events, the mask is raised exactly while a reply is awaited, and calls and windows only grow. |
| Text.StripSpec | openmediavault-storecli/src/usr/share/openmediavault/engined/rpc/StoreCLI.py:70 | `strip` removes exactly the leading and trailing whitespace. The result is empty exactly for all-whitespace input, and otherwise starts and ends with non-space characters. |
| Text.SplitLinesJoin | openmediavault-storecli/src/usr/share/openmediavault/engined/rpc/StoreCLI.py:125-129 | Joining lines that hold no line break, the last of them non-empty, with newlines and splitting the result gives back those lines. |
| Text.NatToStringValue | common/src/usr/share/openmediavault/web/js/omv/module/admin/service/BaseDockerServicePanel.js:110 | The decimal text of a port reads back as that port. |

## Left out

- Runs that raise are not modelled where the source does not catch them: StoreCli's `run` parameter is total, so an exception from `_run_command` is not modelled; neither is the `FileNotFoundError` of a missing `git` in `list_changed_plugins.py`, nor a failing `read_text` beyond the missing file.
- Services.PackagedImmichAsWritten: the `NameError` is stipulated, because module loading is not modelled. Its failure on the shared base is stated, not derived.
- Process execution, `shutil.which`, `Path.exists`/`is_dir`/`iterdir`, reading files, git and Docker are parameters of the model, not modelled programs. An `OSError` other than the missing `docker` binary, and the encoding of captured output, are not modelled.
- The `command` field of `_serialize_result` is `shlex.quote`-joined text in the source. StoreCli.RunCommand keeps the word list instead, because quoting does not affect which command ran.
- Python's `str.strip`, `str.lower` and `re`'s `\d` recognise Unicode whitespace, case and digits. The model's whitespace is the Latin-1 set that `str.strip` uses below U+0100, lower-casing is ASCII, and digits are `0-9`.
- StoreCli.AssembleCommand: a controller that is not a string is passed through `str()` in the source; the model takes the controller as a string.
- JSON values other than strings in `arguments` are modelled as one "not a string" case. The error raised does not depend on which type they have.
- The `sys.path` insertion and the `try`/`except ImportError` choice of base class are modelled only as which configuration is in effect, not as module loading.
- Logging calls (`LOGGER.debug`/`error`) have no effect on results and are not modelled.
- PluginVersions.ReadVersion: the error messages are not modelled. These are the Python messages that embed the changelog path, and the `FileNotFoundError` text. The model distinguishes the error kinds instead.
- ChangedPlugins.Sorted: `sorted` is modelled by its result only, a strictly ascending list of the set's members in code-point order, not by Python's sorting algorithm.
- ChangedPlugins.FirstComponent: `Path.parts` is modelled for POSIX paths, which covers collapsed separators, `.` segments and the special `//` root. The quoting git applies to unusual file names is not modelled.
- The `::warning::` lines that a failing diff prints to stderr, and the JSON writing, are not modelled. ChangedPlugins.ListChangedPlugins returns the payload as a value.
- The ExtJS widgets, translations (`_()`), window sizes and icons are not modelled. Neither are the host class's `doAjax` progress dialog and the status form. A panel is modelled by its calls, its windows and its loading mask.
- Panels.Step: no events other than the reply are handled while a request is outstanding. This relies on the loading mask blocking the panel, which is assumed rather than modelled.
- Panels.Step: the controller prompt is dispatched to the corrected handler Panels.PromptClosed, which the findings below describe, not to the handler as written. Panels.PromptAsWrittenSettled shows that the as-written handler keeps the same invariant.
- Panels.WebUrl: the port is written in decimal for every natural number. JavaScript's number-to-string conversion differs from 10^21 up, where it uses exponent form, and it loses precision above 2^53. So for such ports the source's URL differs from the model's, and Panels.WebUrlReads says nothing about the source there. Ports are at most 65535 in practice.
- The Refresh button of the logs windows (`BaseDockerServicePanel.js` lines 161-166, `Certbot.js` lines 157-162) is not modelled. It closes the window and requests the logs again. Windows are never closed in the model: a panel's windows are the list of those it opened.
- The Immich, Drone, Gitea and Drone CI panels (`Immich.js`, `Drone.js`, `Gitea.js`, `DroneCI.js`) are not modelled. Each extends the host's `ServicePanel` directly with its own buttons, and each removes its stack without a confirmation. Only the shared Docker service panel and the Certbot panel are modelled.
- `eslint.config.js` is build configuration, not behaviour.

## Findings

| source | as written | input that shows it | evidently intended | confidence | as-written member | corrected member |
|---|---|---|---|---|---|---|
| openmediavault-immich/debian/openmediavault-immich/usr/share/openmediavault/openmediavault/engined/rpc/Immich.py:12-24 | `Dict`, `Any`, `subprocess`, `LOGGER` and `_run_command` are bound only in the `except ImportError` branch, but the `ServiceImmich` overrides use them. | A system where `BaseDockerService` imports. Evaluating the annotation `Dict[str, Any]` then raises `NameError`, and no service is registered. | The names are imported unconditionally, and the overrides behave as in the source-tree Immich service. | high; not executed | Services.PackagedImmichAsWritten (Services.PackagedImmichLoads) | Services.PackagedImmich (Services.PackagedImmichBehaves) |
| openmediavault-storecli/src/usr/share/openmediavault/web/js/omv/module/admin/service/StoreCLI.js:103-133 | The prompt callback treats its first argument as the typed controller. The message box passes the button id first and the text second. | Type `0` and press OK. The request carries controller `ok`, which `_safe_controller` rejects. Pressing Cancel sends `cancel`, which is rejected too. | Read the second argument, and only when the button is `ok`. | medium (depends on the message box's callback signature); not executed | Panels.PromptClosedAsWritten (Panels.PromptSendsButtonId) | Panels.PromptClosed (Panels.PromptSendsTypedController) |
