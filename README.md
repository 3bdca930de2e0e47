# Engine lifecycle and configuration manager: a Dafny model

This project models the core of a desktop shell's main process that
supervises an external engine binary called `yak`. The core is made of two
handler modules:

- `app/main/handlers/upgradeUtil.js`:
  - the local key-value store, a `Map` mirrored into a JSON file sorted by key;
  - the remote-auth profile store, an array mirrored into a JSON file with one
    profile per name;
  - the shaping of version and notification strings;
  - the download URLs and staging paths;
  - the installer's delete-then-copy decision.
- `app/main/handlers/yakLocal.js`:
  - the netstat `LISTENING` table parser;
  - discovery of running engines on Windows and on POSIX;
  - the launcher: preconditions, port draw and command line;
  - the kill handler with its privileged fallback;
  - the installed check.

The Dafny files:

- `Js.dfy` (module `Js`): the JavaScript semantics the handlers rely on.
  This covers truthiness and `||`, template-literal stringification, `trim`,
  `split`, `startsWith`, `includes`, `lastIndexOf`, `replaceAll`, `parseInt`
  and `filter`. It includes proofs such as `parseInt` reading back decimal
  printing, and `split` undoing `join`.
- `KvStore.dfy` (module `LocalKv`): the class `KvStore`. Its field `pairs` is
  the `Map` in insertion order and its field `file` is the JSON file.
- `SecretStore.dfy` (module `RemoteAuth`): the class `SecretStore`. Its field
  `authMeta` is the module-level array and its field `file` is the JSON file.
  The pure functions `LoadProfiles`, `KeepFirst` (the `findIndex` filter) and
  `Without` describe the save and remove handlers.
- `Upgrade.dfy` (module `Upgrade`): version and notification strings,
  `yak -v` parsing, download URLs and destinations, and the install decision.
- `ProcessDirectory.dfy` (module `ProcessDirectory`): the netstat table,
  built by a loop proved against a fold. It also covers the Windows and
  POSIX record pipelines and the leftmost match of `port\s+(\d+)`.
- `Launcher.dfy` (module `Launcher`): the launch preconditions, port and
  command; the round trip from the launch command back to its port through
  the POSIX discovery rule; the kill outcome as written and as corrected;
  the installed check.

Everything outside the process is a parameter:
- file contents and existence probes;
- HTTP bodies;
- `exec` and privilege-prompt outcomes;
- `psList` output;
- environment variables;
- the random draw.

Notes on behaviour where the code and the documented contract of the
component differ (the model follows the code):
- `start-local-yak-grpc-server` never returns the port. `exec` and the
  privilege prompt call back only when the spawned engine exits, so the
  handler stays pending while the engine runs. When the engine exits, the
  handler resolves with no value or rejects with the exit's error; the
  promise executor's `return randPort` is discarded.
- The three update queries settle on the first body chunk or on an error.
  A response that ends without a chunk leaves the handler pending.
- In each discovered process record, the spread `...i` comes after
  `port: parseInt(i.port)`. The record's `port` is therefore the raw value:
  on Windows a number from the netstat table, or the text `"0"` when the
  pid owns no listening row; on POSIX the captured digit text, or `"0"`.
  It is not the parsed one.
- The save handler removes the old profile of that name and rewrites the
  file before `saveSecret` checks host and port. A save that throws
  `"empty host or port"` has therefore already deleted the old profile.
- `set-value` stores the key as `${k}`. An empty key is written to the file
  but dropped on the next reload, because only truthy keys are loaded.
- The kill fallback rejects even when the elevated kill succeeds (see
  Findings).
- Promises are modelled with three states: resolved, rejected, and pending
  (no callback that settles them has run).

## Model

| member | source | states |
|---|---|---|
| LocalKv.KvStore.constructor | app/main/handlers/upgradeUtil.js:24-43 | the store starts from the file as `getKVPair` loads it |
| LocalKv.KvStore.GetKVPair | app/main/handlers/upgradeUtil.js:26-42 | the map is cleared and refilled with exactly the file's truthy-keyed entries, the last one winning per key; an unreadable file leaves it empty |
| LocalKv.LoadedLookup | app/main/handlers/upgradeUtil.js:35-39 | after a reload, the value under a key is the value of the last file record with that key |
| LocalKv.KvStore.SetKVPair | app/main/handlers/upgradeUtil.js:45-59 | the map gains `${k}` -> v (updated in place or appended), and the file becomes that map's entries sorted by key |
| LocalKv.Put | app/main/handlers/upgradeUtil.js:46 | `Map.set`: the key maps to v, other keys keep their values, and a new key is appended at the end |
| LocalKv.SortByKey | app/main/handlers/upgradeUtil.js:53-57 | the written list is a permutation of the map's entries, strictly ordered by key |
| LocalKv.SortedFileHoldsMap | app/main/handlers/upgradeUtil.js:53-58 | the file holds every map entry exactly once, ordered by key, with unique keys |
| LocalKv.LessTotal | app/main/handlers/upgradeUtil.js:57 | the key order is total on distinct keys; LessIrreflexive and LessTransitive make it a strict order |
| LocalKv.ReloadAfterWrite | app/main/handlers/upgradeUtil.js:26-59 | reloading the written file gives back every non-empty key's value |
| LocalKv.SetThenGet | app/main/handlers/upgradeUtil.js:406-413 | after `set-value(k, v)`, `get-value(String(k))` returns v whenever `${k}` is non-empty |
| LocalKv.SetKeepsOthers | app/main/handlers/upgradeUtil.js:406-413 | `set-value` leaves every other key's value as it was |
| LocalKv.KvStore.GetValue | app/main/handlers/upgradeUtil.js:410-413 | `get-value` reloads the file and answers the value under the key; only a non-empty string key can hit |
| LocalKv.LookupFinds | app/main/handlers/upgradeUtil.js:412 | with unique keys, `Map.get` finds v exactly when the entry (k, v) is present |
| RemoteAuth.DefaultName | app/main/handlers/upgradeUtil.js:71 | the default name `${host}:${port}` is always truthy |
| RemoteAuth.Normalize | app/main/handlers/upgradeUtil.js:70-77 | name defaults to `host:port`, password and caPem to "", while host, port and tls are kept |
| RemoteAuth.LoadProfiles | app/main/handlers/upgradeUtil.js:61-82 | the loaded list is no longer than the file, and every loaded profile has a host, a port and a name |
| RemoteAuth.LoadKeepsEndpoints | app/main/handlers/upgradeUtil.js:65-78 | exactly the records with a truthy host and port are loaded, each normalised |
| RemoteAuth.LoadInFileOrder | app/main/handlers/upgradeUtil.js:65-78 | the loaded list is the records with a truthy host and port, in file order, each normalised |
| RemoteAuth.LoadAdmissible | app/main/handlers/upgradeUtil.js:65-78 | a file of complete profiles is loaded entry for entry, names unchanged |
| RemoteAuth.LoadIdempotent | app/main/handlers/upgradeUtil.js:61-82 | loading what was loaded changes nothing |
| RemoteAuth.SecretStore.LoadSecrets | app/main/handlers/upgradeUtil.js:61-82 | `authMeta` is emptied and refilled from the file as LoadProfiles says |
| RemoteAuth.FindIndex | app/main/handlers/upgradeUtil.js:108 | `findIndex` by name: the first index holding that name, or -1 when none does |
| RemoteAuth.KeepFirstUnique | app/main/handlers/upgradeUtil.js:106-110 | no two written profiles share a name |
| RemoteAuth.KeepFirstNames | app/main/handlers/upgradeUtil.js:106-110 | every name of the input is still written |
| RemoteAuth.KeepFirstKeepsFirsts | app/main/handlers/upgradeUtil.js:106-110 | each written profile is the first occurrence of its name, in input order |
| RemoteAuth.KeepFirstOfUnique | app/main/handlers/upgradeUtil.js:106-110 | on a list whose names are already unique the filter keeps everything |
| RemoteAuth.SecretStore.SaveAllSecret | app/main/handlers/upgradeUtil.js:98-112 | the file becomes the input with only the first profile of each name |
| RemoteAuth.Without | app/main/handlers/upgradeUtil.js:153-155 | the `name !==` filter keeps exactly the profiles of other names |
| RemoteAuth.WithoutKeepsUnique | app/main/handlers/upgradeUtil.js:153-155 | filtering a name out keeps names unique |
| RemoteAuth.SecretStore.SaveSecret | app/main/handlers/upgradeUtil.js:84-94 | empty host or port throws "empty host or port" and changes nothing; otherwise the profile is pushed and the deduplicated list written |
| RemoteAuth.SecretStore.SaveRemoteAuth | app/main/handlers/upgradeUtil.js:150-158 | the handler removes the name, writes, reloads, then saves, matching AfterSave |
| RemoteAuth.SaveLeavesOneProfile | app/main/handlers/upgradeUtil.js:150-158 | after a save with host and port, the file has exactly one profile of that name, carrying the new fields, and every other name is kept (the new profile is pushed and written by `saveSecret`, lines 84-94) |
| RemoteAuth.SaveKeepsAdmissible | app/main/handlers/upgradeUtil.js:150-158 | after a save, every profile in memory is complete |
| RemoteAuth.SaveTwiceKeepsSecond | app/main/handlers/upgradeUtil.js:150-158 | saving the same name twice leaves only the second profile's fields |
| RemoteAuth.FailedSaveStillRemoves | app/main/handlers/upgradeUtil.js:153-157 | a save without host or port throws (the check at lines 85-87) after the old profile of that name was already removed from the file |
| RemoteAuth.SecretStore.RemoveRemoteAuth | app/main/handlers/upgradeUtil.js:159-164 | the handler writes the list without that name and reloads, matching AfterRemove |
| RemoteAuth.RemoveDropsOnlyThatName | app/main/handlers/upgradeUtil.js:159-164 | no profile of that name remains and every other name is kept |
| RemoteAuth.RemoveKeepsOrder | app/main/handlers/upgradeUtil.js:159-164 | on a list of unique names, remove writes the other profiles in their original order |
| RemoteAuth.SecretStore.GetRemoteAuthAll | app/main/handlers/upgradeUtil.js:165-168 | the handler reloads and returns what the file holds |
| Upgrade.QueryLatestVersion | app/main/handlers/upgradeUtil.js:174-187 | the query rejects exactly on an error event and resolves exactly on a first chunk, with a trimmed "v"-prefixed version; with neither it stays pending |
| Upgrade.QueryLatestNotification | app/main/handlers/upgradeUtil.js:189-207 | the query rejects exactly on an error event and resolves exactly on a first chunk, with a notification or ""; with neither it stays pending |
| Upgrade.LatestVersion | app/main/handlers/upgradeUtil.js:179 | `` `v${chunk}`.trim() `` is "v" followed by the chunk without trailing white space, and is itself trimmed (the same expression is at line 217) |
| Upgrade.LatestVersionOfLine | app/main/handlers/upgradeUtil.js:174-187 | a body of one line and a newline, such as "1.2.3\n", gives "v1.2.3" (likewise for the Yakit query at lines 212-225) |
| Upgrade.StripLatestVersion | app/main/handlers/upgradeUtil.js:284-286 | the download side's "v"-stripping inverts the version query's "v"-prefixing of line 179 |
| Upgrade.LatestNotification | app/main/handlers/upgradeUtil.js:194-200 | the passage is returned exactly when it starts with "# Yakit Notification", otherwise "" |
| Upgrade.CurrentYakVersion | app/main/handlers/upgradeUtil.js:228-246 | resolves exactly when the output minus "yak version " trims to non-empty; otherwise rejects with the exec error or the unknown-reason message |
| Upgrade.CurrentYakVersionOfBanner | app/main/handlers/upgradeUtil.js:230-240 | the output "yak version X\n" resolves to X |
| Upgrade.YakDownloadUrl | app/main/handlers/upgradeUtil.js:121-130 | a URL exists exactly on darwin, win32 and linux, and lies under the `latest/yak_` prefix |
| Upgrade.YakitDownloadUrl | app/main/handlers/upgradeUtil.js:133-146 | a URL exists exactly when an asset is defined for the platform and architecture |
| Upgrade.YakDownload | app/main/handlers/upgradeUtil.js:249-279 | on a platform without a URL it rejects with the error `request(undefined)` throws; otherwise the latest build's request is written to `yak-<version>` in the engine directory, and the handler resolves exactly on the request's `end`, rejects with the request's `error`, and is pending while neither has happened |
| Upgrade.YakitDownloadNamesAsset | app/main/handlers/upgradeUtil.js:282-315 | the installer download is stored under its asset's name and settles with the request's `end` or `error`, and a version with or without its "v" gives the same download |
| Upgrade.WindowsInstallPath | app/main/handlers/upgradeUtil.js:114-117 | the root is the first truthy of WINDIR, windir and SystemRoot, joined with `System32\yak.exe`; no root means `path.join` throws |
| Upgrade.WindowsInstallDir | app/main/handlers/upgradeUtil.js:317-335 | off Windows the handler resolves to the fixed text `%WINDIR%\System32\yak.exe`; on Windows it resolves to the install path, ending in `System32\yak.exe`, and rejects, with the `path.join` type error, exactly when WINDIR and windir are unset or empty and SystemRoot is unset |
| Upgrade.InstallYakEngine | app/main/handlers/upgradeUtil.js:337-394 | copy only when no binary exists, otherwise delete then copy whatever the delete did; rejects exactly when the copy fails |
| Upgrade.InstallCopiesDownload | app/main/handlers/upgradeUtil.js:337-346 | on POSIX the copy reads the file the engine download wrote (line 251), and the delete never targets it |
| ProcessDirectory.RowOfFields | app/main/handlers/yakLocal.js:34-40 | a line yields a row exactly when it splits into five fields |
| ProcessDirectory.WindowsPidTable | app/main/handlers/yakLocal.js:30-51 | the table built from the output equals the fold of its kept rows |
| ProcessDirectory.PidTableOfLines | app/main/handlers/yakLocal.js:34-47 | the `forEach` loop builds the fold of the kept rows, line by line |
| ProcessDirectory.PidTableLookup | app/main/handlers/yakLocal.js:38-46 | a pid has an entry exactly when it owns a row, and its list is its rows' ports in input order |
| ProcessDirectory.NetstatRowOfFields | app/main/handlers/yakLocal.js:31-40 | a line of five fields separated by any runs of white space, with any white space around them (column padding, a trailing `\r`), gives pid = parseInt(field 5) and port = parseInt(what follows the last ':' of field 2) |
| ProcessDirectory.ListingOfOneRow | app/main/handlers/yakLocal.js:30-51 | `TCP 0.0.0.0:50123 0.0.0.0:0 LISTENING 1234`-shaped output maps 1234 to [50123] |
| ProcessDirectory.MalformedLineIgnored | app/main/handlers/yakLocal.js:34-37 | a line that does not split into five fields leaves the table unchanged |
| ProcessDirectory.WindowsYakProcesses | app/main/handlers/yakLocal.js:69-88 | the records are exactly the processes whose name includes "yak", in order, each with its pid's first port or "0", and with the pre-map record as origin |
| ProcessDirectory.WindowsPortOfRows | app/main/handlers/yakLocal.js:73-78 | the Windows port is the first port of the pid's own rows, or "0" when it owns none |
| ProcessDirectory.PortCapture | app/main/handlers/yakLocal.js:106 | a capture is a non-empty run of digits |
| ProcessDirectory.PortCaptureLeftmost | app/main/handlers/yakLocal.js:106 | the capture comes from the leftmost position where `port\s+(\d+)` matches, and is absent exactly when no position matches |
| ProcessDirectory.PosixYakProcesses | app/main/handlers/yakLocal.js:96-116 | the records are exactly the processes named "yak" whose command line includes "yak grpc", each with its first port capture or "0", and with the pre-map record as origin |
| ProcessDirectory.WindowsRecordOfListener | app/main/handlers/yakLocal.js:60-93 | a yak process owning a listening row is reported with that row's port |
| ProcessDirectory.PsYakGrpc | app/main/handlers/yakLocal.js:60-128 | on Windows a failed netstat rejects with its error and one still running keeps the handler pending; then a failed or running process listing rejects or stays pending; otherwise the handler resolves to the Windows join of the listing with the netstat table, or off Windows to the command-line rule's records |
| Launcher.LaunchPort | app/main/handlers/yakLocal.js:200 | the launch port lies in [50000, 60000), `getRandomInt` (lines 17-19) giving 0 to 9999 |
| Launcher.LaunchPreconditions | app/main/handlers/yakLocal.js:178-233 | off Windows nothing is spawned unless `/usr/local/bin` and `/usr/local/bin/yak` exist, and the first missing one names the rejection; otherwise one command `yak grpc --port N` runs, elevated exactly when `sudo` is truthy; the launch stays pending exactly while the engine runs, and after the engine exits it resolves with no value exactly when the exit reports no error, otherwise rejecting with that error |
| Launcher.LaunchCommandRoundTrip | app/main/handlers/yakLocal.js:200-201 | the POSIX port pattern of line 106 applied to the launch command captures the port's digits, and `parseInt` gives back the port |
| Launcher.LaunchedEngineIsListed | app/main/handlers/yakLocal.js:96-116 | a launched engine (lines 200-201) is discovered on POSIX with its launch port |
| Launcher.InstalledIffLaunchable | app/main/handlers/yakLocal.js:235-242 | off Windows, the installed check passes exactly when the launch preconditions of lines 186-197 do |
| Launcher.KillHandler | app/main/handlers/yakLocal.js:169-175 | the handler never rejects: it resolves with the kill's value, or with "" exactly when the kill rejected, and is pending exactly while the kill is |
| Launcher.KillFallbackAlwaysRejects | app/main/handlers/yakLocal.js:131-168 | as written, the prompt runs exactly when the plain kill fails, and the kill then rejects with `${err}` whatever the elevated kill did |
| Launcher.KillFallbackCounterexample | app/main/handlers/yakLocal.js:134-163 | a failed plain kill followed by a successful elevated kill rejects with `${err}` of the prompt's absent error, and the handler returns "" |
| Launcher.KillSucceedsIfEitherAttemptDoes | app/main/handlers/yakLocal.js:131-168 | corrected, the kill resolves `true` exactly when either attempt succeeds; it issues the same commands and agrees with the code as written except when the elevated kill succeeds |
| Launcher.KillCommandsTargetPid | app/main/handlers/yakLocal.js:134-155 | every issued command is `taskkill /F /PID <pid>` or `kill -9 <pid>`, and the first one is unprivileged |

## Left out

- Only integral numbers are modelled. `parseInt`, `Number` and template-literal printing of fractional numbers are left out. A number is an exact, unbounded integer: JavaScript rounds integers beyond 2^53 to the nearest double and prints numbers from 1e21 up in exponent form, which would change the `${k}` keys of `set-value`, the default profile name and the kill commands for such values. The model does not capture this.
- The `tls: i["tls"] | false` bitwise coercion in `loadSecrets` is not modelled: tls is kept as an opaque value.
- JSON encoding and decoding are the identity on records. A file that cannot be read, is not JSON, or whose top level is not an array is one "unreadable" state.
- A JSON array element that is `null` makes `forEach` throw partway through and keep the entries before it. The model takes every element to be an object.
- `localeCompare` is modelled as plain lexicographic order on characters. Locale collation is not modelled.
- `path.join` is modelled as concatenation with one separator, with no normalisation of `..` or doubled separators.
- Download streaming, progress events and the network itself are left out. A download is modelled as the URL and destination it uses, settled by a parameter saying whether the request has reported `end`, `error`, or neither yet. An HTTP reply to an update query is an error event, its first data chunk, or neither, also given as a parameter.
- The ordering of the file unlinks and writes is not modelled. Each store's file is replaced as a whole.
- The PATH environment updates, `get-platform-and-arch`, `install-yakit` (opens a folder), `get-yakit-remote-auth-dir` and the desktop notification are not modelled. None of them affects the modelled state.
- Concurrency is not modelled. Each handler runs to completion before the next, so the read-modify-write races between concurrent saves are out of scope.
- `Math.random` is a parameter `r` with `0 <= r < 10000`. `psList`, `exec`, the privilege prompt and `fs.existsSync` are parameters too: their outcomes are passed in.
- Error objects are their string form. A rejection carries a message string rather than an `Error` object.
- Upgrade.YakDownload: the text of the error the `request` library throws for a missing URL is a parameter, `requestError`. That library is not part of this model, so the model does not fix its wording. The request's `end` and `error` events are a parameter too, and the resolved value is the finished download where the program resolves with no value.
- Upgrade.PathTypeError: the `TypeError` that Node's `path` functions throw for `undefined` is one fixed text. Its real wording, and the `TypeError [ERR_INVALID_ARG_TYPE]:` prefix of its string form, depend on the Node version.
- Launcher.ErrorText: what the privilege prompt passes its callback after a successful run (`null` or `undefined`, depending on the prompt's platform code) is a parameter, `noError`. The prompt library is not part of this model.
- LocalKv.Loaded: keys read from the file are taken to be strings. In the program a truthy non-string key, such as `{"key": 1}`, is stored under the number. No string key given to `get-value` can reach such an entry, and the next `set-value` sort then throws in `localeCompare` after the file was unlinked, which loses the file. The model does not capture this.
- Launcher.LaunchPreconditions: an exception thrown synchronously by `exec` or the prompt (the `catch (e) { reject(e) }` branch) is modelled as an engine exit with that error, like one reported through the callback.

## Findings

| source | as written | input that shows it | evidently intended | confidence | as-written member | corrected member |
|---|---|---|---|---|---|---|
| app/main/handlers/yakLocal.js:138-163 | the fallback callback tests the outer `error`, which is always set there, instead of its own `err`, so the kill rejects with `${err}` | the plain kill fails and the elevated kill succeeds: the promise rejects with `${err}` of the prompt's absent error and `kill-yak-grpc` returns "" | resolve `true` when the elevated kill succeeds, and reject with its error otherwise | not executed | Launcher.AsyncKillAsWritten (Launcher.KillFallbackCounterexample) | Launcher.AsyncKill (Launcher.KillSucceedsIfEitherAttemptDoes) |
