# remote-utils, modelled in Dafny

`remote-utils.js` is the helper object that a build-and-deploy tool uses to
reach its target hosts over SSH. It selects which hosts are usable: they must
be reachable, accept some user's key, have the right architecture, OS and
device id, and run none of the tracked build processes. It runs command
batches on those hosts, then scans the build output for progress percentages
and compiler diagnostics.

This project models the sequential core of that file. Network results (ping,
the SSH exec of a command, the order in which concurrent SSH tests settle)
are given as data, and everything computed from them is modelled.

- `wrappers.dfy`: `Option` and `Result`.
- `strings.dfy`: the JavaScript built-ins the code relies on: `indexOf`,
  `Array.prototype.join`, and `parseInt` of a run of decimal digits.
- `hosts.dfy`: host, interface and user records.
- `utilities.dfy`: the helpers `range`, `sanitizePath`, `chunkString` and
  `getDeviceType`.
  - `range` keeps its count-down loop, written as a method over an array.
  - `chunkString` is the meaning of its regular expression under the `g` flag.
- `make_output.dfy`: the two build-output scanners.
  - Each regular expression is modelled as a search function that follows the
    JavaScript matcher, including line boundaries under the `m` flag and the
    backtracking of the greedy `(.*)`.
  - Each `while (match = regex.exec(...))` loop is a method, proved equal to a
    declarative description of all matches.
- `availability.dfy`: the host-selection cascade.
  - `testArchOS`, `testDeviceId`, `getPidOnHost` and `isFree` become checks.
  - The per-interface promise chain of `getAvailability` becomes `Cascade`.
  - The nested flatten loop of `getAvailableHosts` becomes a method.
- `session.dfy`: the command batch and the event-driven result handling that
  `executeOnHost` and `deployOnHost` share.
  - A `Session` object holds the variables the callbacks update: the
    collected stdout and stderr, the `output` record and the settle-once
    deferred.
  - Each callback is one call of `Handle`, and every field is tied to a
    function of the events handled so far.

## Model

| member | source | states |
|---|---|---|
| Strings.DigitsValue | remote-utils.js:310 | `parseInt` of `n` decimal digits is a natural number below `10^n` |
| Strings.DigitsValueOfDecimal | remote-utils.js:310 | `parseInt` reads back every number written in decimal |
| Strings.DigitsValueLeadingZero | remote-utils.js:310 | `parseInt` ignores a leading zero |
| Strings.IndexOf | remote-utils.js:54-55 | `s.indexOf(t) > -1` holds exactly when `t` occurs in `s`; the index returned is the first occurrence |
| Strings.IndexOfFrom | remote-utils.js:54-55 | the result is the first occurrence at or after `from`, or -1 when there is none |
| Utilities.Range | remote-utils.js:26-33 | `range(low, high)` has `high - low + 1` elements and element `i` is `low + i`, so `high = low - 1` gives an empty array |
| Utilities.SanitizePath | remote-utils.js:20-22 | the result is longer by the number of spaces, and every space in it is preceded by a backslash |
| Utilities.SanitizePathRoundTrip | remote-utils.js:20-22 | deleting the backslash before each escaped space recovers the original path |
| Utilities.SanitizePathIdentity | remote-utils.js:20-22 | the path comes back unchanged exactly when it has no space |
| Utilities.SanitizePathKeepsOthers | remote-utils.js:20-22 | every character other than space and backslash occurs as often as in the input |
| Utilities.ChunkLength | remote-utils.js:18 | one greedy match of `(.\|[\r\n ]){1,len}` takes at most `len` matchable characters, and stops early only at an unmatchable one |
| Utilities.Chunks | remote-utils.js:18 | every match has between 1 and `len` characters |
| Utilities.ChunkString | remote-utils.js:17-19 | `null` exactly when no character is matchable; otherwise the pieces are 1 to `len` long and concatenate to the matchable characters of the input |
| Utilities.ChunksConcat | remote-utils.js:17-19 | gluing the pieces together gives every matchable character, in order |
| Utilities.ChunksFull | remote-utils.js:17-19 | on text without U+2028 or U+2029, every piece except the last has exactly `len` characters |
| Utilities.KeepAppend | remote-utils.js:18 | the matchable characters of a concatenation are those of the parts, concatenated |
| Utilities.GetDeviceType | remote-utils.js:23-25 | the key is the device id, a `+`, and the architecture |
| Utilities.DeviceTypeInjective | remote-utils.js:23-25 | for device ids without `+`, equal keys mean equal device id and architecture |
| MakeOutput.RunEnd | remote-utils.js:294 | a digit run from `i` ends at the first non-digit or at the end of the text |
| MakeOutput.RunEndDigits | remote-utils.js:294 | everything inside the run is a digit |
| MakeOutput.PercentAtMeaning | remote-utils.js:294 | `[0-9]+%` matches at `i` exactly when a non-empty digit run starting at `i` is followed by `%` |
| MakeOutput.ExecPercent | remote-utils.js:297 | `regex.exec` finds the first matching position at or after `lastIndex`, or none when there is none |
| MakeOutput.ExecPercentAgrees | remote-utils.js:297-300 | one `exec` step followed by the rest of the scan yields the declarative list of values from that position |
| MakeOutput.ParseMakePercentOutput | remote-utils.js:293-302 | the loop returns `Percentages(output)`: the value of every maximal digit run directly followed by `%`, in order of appearance, duplicates kept |
| MakeOutput.NoPercentSignNoValues | remote-utils.js:293-302 | text without `%` gives an empty list |
| MakeOutput.AtMostOneValuePerSign | remote-utils.js:293-302 | there are never more values than `%` signs |
| MakeOutput.PercentagesAppend | remote-utils.js:293-302 | when the first part does not end in a digit, the values of a concatenation are those of the parts, concatenated |
| MakeOutput.PercentToken | remote-utils.js:298 | `NN%` on its own yields exactly `parseInt(NN, 10)` |
| MakeOutput.PercentExample | remote-utils.js:293-302 | `building... 10% done\nlinking 55%\n` yields `[10, 55]` |
| MakeOutput.TailAtWellFormed | remote-utils.js:304 | a match that puts the file-name colon at `f` has non-empty digit runs and a kind of `warning` or `error` |
| MakeOutput.TailAtReassembles | remote-utils.js:304 | that match reassembles to the whole line |
| MakeOutput.MatchLine | remote-utils.js:304 | a matched line is well formed and `fileName:line:col: kind: text` reassembles it |
| MakeOutput.MatchLineLongest | remote-utils.js:304 | the greedy `(.*)` takes the longest file name for which the rest of the line matches; no match means no split point works |
| MakeOutput.MatchLineReassemble | remote-utils.js:304 | a well-formed record whose text has no colon is recovered from its reassembled line |
| MakeOutput.MatchLineComplete | remote-utils.js:304 | a line matches exactly when it is the reassembly of some well-formed record |
| MakeOutput.LineEnd | remote-utils.js:304 | under the `m` flag a line ends at the next line terminator (`\n`, `\r`, U+2028, U+2029) or at the end of the text |
| MakeOutput.LinesCount | remote-utils.js:304-307 | the text has one line more than it has line terminators |
| MakeOutput.LinesJoin | remote-utils.js:304-307 | when every terminator is `\n`, the lines joined with `\n` give back the text |
| MakeOutput.ExecDiagnostic | remote-utils.js:307 | `regex.exec` finds the first line start at or after `lastIndex` whose line matches, or none |
| MakeOutput.ExecDiagnosticAgrees | remote-utils.js:307-314 | one `exec` step followed by the rest of the scan yields the records of the remaining lines |
| MakeOutput.ParseMakeErrorOutput | remote-utils.js:303-316 | the loop returns `Diagnostics(output)`: one record for each matching line, in line order |
| MakeOutput.DiagnosticsAtMostOnePerLine | remote-utils.js:303-316 | there are never more records than lines |
| MakeOutput.ToRecord | remote-utils.js:308-313 | a record keeps the file name, the type (`warning` or `error`) and the message as captured, and the line is `parseInt` of the line digits; the column is dropped |
| MakeOutput.DiagnosticsFromMatchingLines | remote-utils.js:308-313 | every record comes from a matching line, with `parseInt` of its line digits, and its type is `warning` or `error` |
| MakeOutput.DiagnosticsOfLinesAppend | remote-utils.js:303-316 | the records of two stretches of lines are the records of each, concatenated |
| Availability.TestSsh | remote-utils.js:43-49 | succeeds with the user exactly when `echo "hello"` runs; otherwise rejects with `<name>@<ip> not SSH-able: ` and the reason |
| Availability.TestArchOS | remote-utils.js:50-65 | passes exactly when `uname -om` succeeds and its output contains both the architecture and the OS |
| Availability.TestDeviceId | remote-utils.js:66-77 | passes exactly when the device-id command succeeds and its output contains the device id |
| Availability.GetPidOnHost | remote-utils.js:380-388 | fails exactly when the `ps` command fails; otherwise reports whether its output contains the process name |
| Availability.FirstPidError | remote-utils.js:83 | no error exactly when every `ps` query succeeds |
| Availability.FirstRunning | remote-utils.js:85-89 | names a tracked process whose `ps` output is non-empty, or none exactly when all are empty |
| Availability.IsFree | remote-utils.js:78-91 | a refusal is either a failed `ps` query, whose reason is that of some tracked process's query, or a busy verdict for this address naming a tracked process |
| Availability.IsFreeExactly | remote-utils.js:78-91 | a host is free exactly when every `ps` query succeeds and no tracked process shows up |
| Availability.IsFreeBusy | remote-utils.js:85-89 | a busy verdict names a tracked process whose output shows it |
| Availability.PickUser | remote-utils.js:102-109 | `Q.any` picks a user whose SSH test succeeds and who settles no later than any other such user; none exactly when no user can SSH |
| Availability.CheckTasks | remote-utils.js:94-95 | the tasks are checked unless the caller passes `false` |
| Availability.Cascade | remote-utils.js:98-134 | an unreachable address, and only that, is reported as unreachable; a host without `Users` fails with a warning once the address answers; a record names this host and this interface |
| Availability.CascadeFound | remote-utils.js:97-130 | an interface yields `{host, intf, user}` exactly when the picked user passes ping, SSH, architecture, OS, device id and, when asked, `isFree` |
| Availability.ArchitectureBeforeOS | remote-utils.js:56-63 | when the architecture is missing from the output, the architecture error is the one reported, whether or not the OS is right |
| Availability.NoUsersExactly | remote-utils.js:109-113 | the chain ends without a warning exactly when the interface answers ping and the host has a `Users` list that is empty |
| Availability.GetAvailability | remote-utils.js:92-138 | no result exactly when the host has no interface list; otherwise one slot per interface, holding the `{host, intf, user}` record the cascade finds for that interface, and empty when it finds none |
| Availability.AvailArray | remote-utils.js:143-145 | one entry per host, each that host's availability |
| Availability.GetAvailableHosts | remote-utils.js:139-158 | the result is the flatten of every host's availability |
| Availability.CollectHostsUp | remote-utils.js:147-157 | the nested loops keep the filled slots, in host order then interface order, and fail at the first host without an interface list |
| Availability.FlattenFails | remote-utils.js:150 | the flatten fails exactly when some host has no interface list, and names the first such host |
| Availability.FlattenLength | remote-utils.js:147-157 | the result is no longer than the number of slots |
| Availability.FlattenMembers | remote-utils.js:147-157 | a record is in the result exactly when it fills some host's slot |
| Availability.AvailableHostsExactly | remote-utils.js:139-158 | a record is returned exactly when some host and interface yields it through the cascade |
| Availability.AvailableHostsBound | remote-utils.js:139-158 | the result is no longer than the total number of interfaces |
| Availability.SlotsPerInterface | remote-utils.js:139-145 | there is exactly one slot per interface across all hosts |
| Session.CommandList.PushExitAndJoin | remote-utils.js:180-181 | the caller's array gains exactly `exit\n`, and the batch is the array joined with `\n` |
| Session.JoinWithExit | remote-utils.js:180-181 | the batch is each command followed by a newline, then `exit\n` |
| Session.Start | remote-utils.js:159-181 | starting a session extends the caller's array, builds the batch, and sets up a session that has handled no events |
| Session.Session.constructor | remote-utils.js:163-179 | `returnCode` starts at -1, the signal is unset, and the deferred is pending |
| Session.Session.Settle | remote-utils.js:162 | only the first resolve or reject takes effect |
| Session.Session.Handle | remote-utils.js:184-221 | each callback appends its chunk to the collected text, keeps every field equal to its specification, and never changes a settled deferred |
| Session.StdoutOfAppend | remote-utils.js:208-209 | the stdout collected over two stretches of events is the two collections joined |
| Session.StderrOfAppend | remote-utils.js:215-216 | the same for stderr |
| Session.StdoutOfChunks | remote-utils.js:208-209 | the stdout collected is the concatenation of the chunks received |
| Session.OutputBeforeClose | remote-utils.js:163-170 | before any `close`, `returnCode` is -1 and the signal is unset |
| Session.OutputAtClose | remote-utils.js:197-205 | a `close` sets its code and signal, the stripped stdout, and the stderr exactly as received |
| Session.OutputAtLatestClose | remote-utils.js:197-205 | the output record is the one the latest `close` set: its code and signal, and the stderr received before it, untransformed |
| Session.Request | remote-utils.js:184-220 | a callback asks to resolve exactly on `close`, with that close's code, signal, stripped stdout and stderr; a stdout chunk rejects with itself exactly when the executor's `stdoutCB` is truthy on it, a stderr chunk exactly when the session deploys or `stderrCB` is truthy on it; connection, exec and setup errors reject with their messages, and a `shell` error leaves the deferred alone |
| Session.FirstSettlingRequest | remote-utils.js:184-220 | the deferred is pending exactly while no callback has asked to settle it, and otherwise holds what the first such callback asked for |
| Session.SettledStays | remote-utils.js:162 | once settled, the deferred keeps its outcome whatever events follow |
| Session.FirstRequestDecides | remote-utils.js:184-221 | the first event whose callback settles the deferred decides the outcome |
| Session.StdoutCallbackAborts | remote-utils.js:206-212 | a truthy `stdoutCB` rejects with that chunk; a later `close` does not change it |
| Session.StderrCallbackAborts | remote-utils.js:213-219 | a truthy `stderrCB` rejects the executor with that chunk; a later `close` does not change it |
| Session.DeployerStderrAborts | remote-utils.js:275-279 | any stderr chunk rejects `deployOnHost` with that chunk |
| Session.ExecutorResolvesOnClose | remote-utils.js:197-206 | without callbacks, the first `close` resolves with the output record it sets |
| Session.DeployerChannelErrorIgnored | remote-utils.js:258-261 | a `shell` error is thrown inside the callback and leaves the deferred as it was |
| Session.DeployerAfterShellError | remote-utils.js:257-262 | when no stream event follows a `shell` error, the deferred never resolves; it stays pending while only channel errors arrive, and otherwise is rejected by a later connection or setup error, with that error's message |

## Left out

- Network and process I/O is not modelled; each appears only as data in an `Env`.
  - `testPing` (remote-utils.js:34-42) is `Env.alive`.
  - Each SSH exec of a command (`testSSH`, `testArchOS`, `testDeviceId`, `getPidOnHost`) is `Env.exec`.
  - The `ssh2` connect, exec and shell calls are the events a `Session` handles.
  - `conn.end()` and `stream.end(cmdString)` are not modelled.
  - The key file read is a `SetupError` event when it throws.
- `copyToHost`, `copyFromHost`, `wgetAndUnzipLibrary` and `mkdirRemote` only run external programs; `mkdirRemote` is `sanitizePath` plus an exec.
- `uuidv4` draws from `Math.random()`. `notify`, `parsePsAuxOutput` (the identity) and the texts of the warnings passed to `notify` are logging only.
- Promise timing is an input.
  - `Q.any` picks the successful user with the least settle time; `Env.settleTime` gives those times, with ties broken by list order.
  - When several `ps` queries of `isFree` fail, the error reported is the first in list order, not the first to settle.
  - The message of `Q.any` when every user fails is not modelled; that case is `NoUserCanSsh`.
- Session.Config: the prompt and command stripping done at `close` (remote-utils.js:200-203, 266-269) is the parameter `strip`. Each command there is compiled as a case-insensitive regular expression, so the result depends on the commands' metacharacters.
- Availability.GetPidOnHost: `output.stdout.match(procName)` is modelled as a literal substring test, so a process name with regular-expression metacharacters is not modelled.
- Session.Session.Handle: after an `exec` error, the source goes on to call `stream.on` on an undefined stream, which throws inside the callback. The model lets later events arrive; the rejection has already settled the deferred, so they cannot change it (`SettledStays`).
- Session.Session.Handle: the resolved value is a snapshot of the `output` record, not a reference to an object that a later `close` could still change.
- Utilities.ChunkString requires `len >= 1`; with `len` 0 the pattern `{1,0}` is invalid and the source throws.
- Utilities.Range requires `lowEnd <= highEnd + 1`; below that the source's loop never ends.
- Text is a sequence of code points, not UTF-16 code units, and `Buffer` chunks are taken as already-decoded strings.
- `parseInt` is exact on digit runs of any length; the source's floating-point rounding of very long runs is not modelled.
- Session.Session.Handle: a `shell` error in `deployOnHost` is thrown instead of rejecting, and the model follows the code: it does not settle the deferred. The model does not exclude stream events after it; `DeployerAfterShellError` states what follows when none arrives, as in the source, where the handlers are never registered.
