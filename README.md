# Specify client core, modelled in Dafny

Specify is a Windows diagnostics collector. It gathers system, hardware,
security and network facts into a process-wide store (`Cache`). It records
recoverable problems in one shared Issues list. It then assembles a nested
report (the "monolith"), serializes it to JSON, redacts sensitive text, and
either saves the report locally or uploads it. Finally it tells the desktop
shell how the run ended.

This project models the deterministic logic around the collection probes.
The probes themselves (WMI, the registry, Task Scheduler, ping, HTTP, files)
are replaced by their outcomes, passed in as parameters.

| file | module | what it models |
|---|---|---|
| `common.dfy` | `Common` | Option/Result, the .NET exceptions that matter, C# truncating division, the `(int)` cast, decimal and hexadecimal text, ordinal substring tests, ASCII lower-casing |
| `store.dfy` | `Store` | the `Cache` store as a class, and its append-only Issues list |
| `monolith.dfy` | `Monolith` | report assembly, `Serialize`, literal `Replace`, OneDrive and username redaction, `DoRequest`, `ProgramDone`, and `Specificialize` as a method on a `Session` whose settings and outside-world effects are fields |
| `network.dfy` | `Network` | port, IPv4 and IPv6 text of the TCP tables, `GetNetworkConnections`, the `GetTraceroute` cap and stop rule, `GetLatency`, the `GetHostStats` tally, `GetHostsFile` |
| `progress.dfy` | `Progress` | `ProgressStatus`, the `ProgressList` table as a class, `RunItem` split into its synchronous part and worker-thread steps, one pass of `PrintStatuses` over an array of remembered statuses |
| `data.dfy` | `Data` | the recursive Task Scheduler walk `EnumTsTasks`, the running-process loop, the UAC flag of the legacy `DataCache` |
| `utils.dfy` | `Utils` | `TryWmiRead`, `GetRegistryValue`, the `__MSG_key__` resolution of `ParseChromiumExtension` |

How state is modelled:

- `Specificialize` restarts itself after turning a setting off. It is a
  recursive method whose termination measure is the number of settings that
  can still be turned off. What it does to the outside world (files written,
  bodies posted, URLs opened, shell signals, and an uncaught exception that
  ends the process) is recorded in the `effects` sequence. Its contract ties
  that sequence to a trace function.
- The worker threads of `RunItem` become sequential steps. `inFlight` counts
  the threads started and not finished. `ran` logs the actions run, in order.
  A class invariant states that no item is ever Failed, that a Complete item
  has run, and that every action ran after the actions of its dependencies.
  A worker thread that throws ends the process; `crashed` records this, and
  no operation applies after it.
- Each loop of the source is a `while` or `for` loop proved against a
  function on values (`Ipv6Text`, `Tally`, `JoinLines`, `Filter`/`Walk`,
  `ChangedAt`, `CompletionScan`). The properties are then proved about
  those functions.

Where the code and its documentation disagree, the model follows the code:

- OneDrive redaction fails when the `OneDriveCommercial` variable is absent,
  and also when it is the empty string. In the second case the escaped path
  is empty and `String.Replace` throws on an empty pattern
  (`Monolith.OneDriveRedactionFails`).
- A key missing from the progress table throws `KeyNotFoundException` from
  the dictionary indexer. The `?? throw` guards in `RunItem` never fire.
- The `{nameof(T)}` placeholder in the registry cast-failure message is the
  literal text `T`.

## Model

| member | source | states |
|---|---|---|
| `Common.ToInt32` | client/data/Methods/Network.cs:250 | the `(int)` cast of a round-trip time lies in the 32-bit range and leaves in-range values unchanged |
| `Common.TDiv` | client/data/Methods/Network.cs:300 | C# integer division agrees with Euclidean division on non-negative operands, and the quotient is never positive when the signs differ |
| `Common.TDivTruncates` | client/data/Methods/Network.cs:300 | the quotient rounds toward zero: quotient times divisor lies between 0 and the dividend, less than one divisor away |
| `Common.DecimalTextShape` | client/data/Methods/Network.cs:119-121 | the text of an octet is a non-empty run of digits, one digit exactly below ten |
| `Common.DecimalTextRoundTrip` | client/data/Methods/Network.cs:119-121 | the decimal text of a number parses back to that number |
| `Common.ByteHex` | client/data/Methods/Network.cs:158-159 | `BitConverter.ToString` of one byte is two upper-case hexadecimal digits |
| `Common.ByteHexRoundTrip` | client/data/Methods/Network.cs:158-159 | the two digits denote the byte |
| `Common.Lower` | client/data/Utils.cs:138 | lower-casing keeps the length and changes exactly the upper-case ASCII letters |
| `Store.Cache.constructor` | client/data/Cache.cs:94-98 | a new store holds nothing, no issue, and every write-success flag is false |
| `Store.Cache.AddIssue` | client/data/Utils.cs:100 | `Issues.Add` appends exactly one entry and changes nothing else |
| `Monolith.NewMonolith` | client/Monolith.cs:43-56 | the report's Issues list is the store's list itself |
| `Monolith.NewMonolithCopiesStore` | client/Monolith.cs:262-411 | every field of every section is the store field it is read from, `FriendlyVersion` falls back from `DisplayVersion` to `ReleaseId`, the uptime is now minus the last boot, and the metadata and debug log are the run's |
| `Monolith.Serialize` | client/Monolith.cs:58-61 | the JSON text followed by exactly one `\r\n` |
| `Monolith.ReplaceNoMatch` | client/Monolith.cs:81 | text without an occurrence of the pattern is left unchanged |
| `Monolith.ReplaceKeepsUnmatched` | client/Monolith.cs:81 | text before the first occurrence of the pattern is copied unchanged |
| `Monolith.ReplaceFirstMatch` | client/Monolith.cs:81 | the first occurrence becomes the replacement and the scan resumes after it |
| `Monolith.BackslashDoubling` | client/Monolith.cs:80 | `Replace(@"\", @"\\")` doubles every backslash, grows by the number of backslashes, and can be undone |
| `Monolith.OneDriveRedact` | client/Monolith.cs:79-83 | fails exactly when the variable is absent (NullReference) or empty (ArgumentException); otherwise every occurrence of the escaped path becomes `[REDACTED]` |
| `Monolith.UsernameRulesShape` | client/Monolith.cs:94-110 | five rules in source order, each keeping its prefix and suffix and replacing only the user name by `[REDACTED]` |
| `Monolith.UsernameRedactionNoMatch` | client/Monolith.cs:94-110 | a text that holds none of the five patterns passes username redaction unchanged |
| `Monolith.UploadUrl` | client/Monolith.cs:164-167 | the report is posted to `https://spec-ify.com/upload.php` |
| `Monolith.DoRequest` | client/Monolith.cs:172-195 | a URL exactly on a 2xx response with a Location header, and it is the upload domain followed by the Location; null on any other status or exception |
| `Monolith.ProgramDone` | client/Monolith.cs:203-238 | codes 0 to 3 dispatch a signal; any other code dispatches nothing |
| `Monolith.SignalCode` | client/Monolith.cs:203-238 | every signal is requested with a code from 0 to 3 |
| `Monolith.ProgramDoneBijective` | client/Monolith.cs:203-238 | codes 0..3 and the four signals are in one-to-one correspondence |
| `Monolith.Dispatch` | client/Monolith.cs:203-238 | one call dispatches at most one signal, and none exactly for an unknown code |
| `Monolith.DeliveryTraceCases` | client/Monolith.cs:114-154 | the three as-written deliveries written out: saved locally; posted, opened and finalized; or posted, failed, saved, then a null URL and an ArgumentNullException |
| `Monolith.DeliveryTraceFinalizations` | client/Monolith.cs:124-154 | as written, every delivery finalizes once, and exactly a failed upload goes on after its local save to a null URL and ends in an uncaught ArgumentNullException, never reaching Finalize |
| `Monolith.DeliveryTraceCorrectedFinalizes` | client/Monolith.cs:124-154 | with a return after the restart, every delivery finalizes exactly once, opens no null URL, and either saves the text or posts it and opens its URL |
| `Monolith.Session.SerializeAndRedact` | client/Monolith.cs:68-112 | fails exactly when OneDrive redaction is on and cannot be applied; otherwise yields the serialized report with every enabled rule applied |
| `Monolith.Session.Specificialize` | client/Monolith.cs:63-158 | as written: one issue and one restart per failed OneDrive redaction, one restart per failed upload, at most two restarts, settings turned off for good, effects equal to the as-written delivery trace |
| `Monolith.Session.Deliver` | client/Monolith.cs:114-154 | with uploading off the text is saved and FinalizeNoUpload signalled with no post; otherwise it is posted, and a null URL signals UploadFailed, turns uploading off and restarts, after which the success tail hands the null URL to the thread and the process crashes |
| `Monolith.Session.SpecificializeCorrected` | client/Monolith.cs:63-158 | the same state changes as the as-written run, with effects equal to the corrected delivery trace |
| `Monolith.Session.DeliverCorrected` | client/Monolith.cs:114-154 | the delivery half with a return after the restart |
| `Monolith.UploadFailureScenario` | client/Monolith.cs:130-154 | a refused upload signals UploadFailed, saves locally, requests FinalizeNoUpload, hands a null URL to the thread and ends in an ArgumentNullException, with one finalization |
| `Monolith.UploadFailureScenarioCorrected` | client/Monolith.cs:130-154 | the same refusal with the return restored signals UploadFailed, saves locally and finalizes once |
| `Monolith.OneDriveMissingScenario` | client/Monolith.cs:75-90 | OneDrive redaction on a machine without the variable: one restart, exactly one issue, the rule left off |
| `Network.Port` | client/data/Methods/Network.cs:93-99 | the port lies in 0..65535, with the first byte high and the second low |
| `Network.Octets` | client/data/Methods/Network.cs:104-109 | peeling `n` octets gives exactly `n` of them, each below 256 |
| `Network.OctetsRecompose` | client/data/Methods/Network.cs:104-109 | `o1 + 256*o2 + 65536*o3 + 16777216*o4` is the original address, so the low byte is printed first |
| `Network.JoinSeparators` | client/data/Methods/Network.cs:119-121 | joining `n` parts free of the separator puts exactly `n - 1` separators in the text |
| `Network.Ipv4TextSteps` | client/data/Methods/Network.cs:104-121 | the text is `o1.o2.o3.o4` over the peeled octets |
| `Network.Ipv4TextDots` | client/data/Methods/Network.cs:119-121 | every IPv4 text has exactly three dots |
| `Network.FormatIpv4` | client/data/Methods/Network.cs:101-121 | the in-place `%256`/`/256` computation yields the dotted quad |
| `Network.Group` | client/data/Methods/Network.cs:146-159 | a group is empty exactly when both bytes are zero, otherwise four hexadecimal digits |
| `Network.GroupsLength` | client/data/Methods/Network.cs:144-160 | one group per two bytes |
| `Network.GroupsAt` | client/data/Methods/Network.cs:144-160 | group `k` is rendered from bytes `2k` and `2k+1` |
| `Network.Ipv6PrefixJoin` | client/data/Methods/Network.cs:144-160 | the byte-by-byte rendering is the groups joined by colons |
| `Network.FormatIpv6` | client/data/Methods/Network.cs:144-160 | the loop that skips ahead over zero groups yields the colon-joined groups |
| `Network.Ipv6Colons` | client/data/Methods/Network.cs:144-160 | an even-length address has one colon fewer than groups |
| `Network.Ipv6EightGroups` | client/data/Methods/Network.cs:144-177 | a 16-byte address has 8 groups and exactly 7 colons; a group is empty exactly when both its bytes are zero |
| `Network.ConvertV4` | client/data/Methods/Network.cs:92-125 | one IPv4 row becomes a connection with its two addresses, two ports and owning PID |
| `Network.ConvertV6` | client/data/Methods/Network.cs:130-185 | one IPv6 row becomes a connection with its two addresses, two ports and owning PID |
| `Network.V4Connections` | client/data/Methods/Network.cs:90-126 | one connection per IPv4 row |
| `Network.V6Connections` | client/data/Methods/Network.cs:128-186 | one connection per IPv6 row |
| `Network.V4ConnectionsAt` | client/data/Methods/Network.cs:90-126 | IPv4 row `k` becomes entry `k` |
| `Network.V6ConnectionsAt` | client/data/Methods/Network.cs:128-186 | IPv6 row `k` becomes entry `k` |
| `Network.GetNetworkConnections` | client/data/Methods/Network.cs:84-189 | all IPv4 rows converted in table order, then all IPv6 rows in table order |
| `Network.Hop` | client/data/Methods/Network.cs:73-76 | a reply contributes an address exactly when it succeeded or expired in transit |
| `Network.LastProbe` | client/data/Methods/Network.cs:68-81 | the last TTL probed lies between the start and the cap |
| `Network.HopsLength` | client/data/Methods/Network.cs:68-76 | at most one address per TTL probed |
| `Network.LastProbeStops` | client/data/Methods/Network.cs:77-80 | every TTL before the last one probed continued the route, and the last one stops it unless the cap was reached |
| `Network.LastProbeBefore` | client/data/Methods/Network.cs:77-80 | probing stops no later than the first reply that does not continue the route |
| `Network.RouteLength` | client/data/Methods/Network.cs:68-81 | the route holds at most one address per TTL up to the cap, and none when the cap is not positive |
| `Network.RouteBounds` | client/data/Methods/Network.cs:68-81 | nothing after the first stopping reply is reported, whatever the cap |
| `Network.TtlCap` | client/data/Methods/Network.cs:57-61 | the cap is at most 30 and leaves a maximum of 30 or less as it is |
| `Network.GetTraceroute` | client/data/Methods/Network.cs:55-82 | fails exactly when the buffer size is negative (OverflowException), the TTL is negative (ArgumentOutOfRangeException) or a probe up to the last one throws, in that order; otherwise the addresses are those of the route up to the capped TTL, at most one per TTL |
| `Network.GetLatency` | client/data/Methods/Network.cs:236-263 | -2 on an exception, -1 on a null or unsuccessful reply, the cast round-trip time on success |
| `Network.Tally` | client/data/Methods/Network.cs:283-299 | failed plus errors plus counted equals the number of pings |
| `Network.WrapAdd` | client/data/Methods/Network.cs:296 | wrapping each 32-bit addition gives the wrapped exact sum |
| `Network.GetHostStats` | client/data/Methods/Network.cs:265-307 | the error count and failed count of the tally, the wrapped sum divided by `pingCount` truncating, and a zero count throws |
| `Network.JoinSplitRoundTrip` | client/data/Methods/Network.cs:314-317 | lines without terminators survive being joined with `\n` and split again |
| `Network.GetHostsFile` | client/data/Methods/Network.cs:309-325 | each line followed by `\n`; a missing file gives "" and exactly one issue; any other I/O failure escapes |
| `Progress.NewProgressStatus` | client/Progress.cs:24-31 | a new entry is Queued, a null dependency list becomes empty, the other fields are copied |
| `Progress.FirstBlockerSound` | client/Progress.cs:63-70 | nothing blocks an item exactly when every dependency is present and Complete; a reported blocker is a dependency that is missing or incomplete |
| `Progress.CompletionScanMeansAllComplete` | client/Progress.cs:97-105 | the display loop's flag stays true exactly when every entry not marked `SkipProgressWait` is Complete |
| `Progress.ProgressList.constructor` | client/Progress.cs:41-53 | the default table of three entries, nothing in flight, nothing run, invariant established |
| `Progress.ProgressList.RunItem` | client/Progress.cs:55-61 | an unknown key throws KeyNotFound and changes nothing; otherwise the item becomes Processing and one thread is in flight |
| `Progress.ProgressList.Step` | client/Progress.cs:59-75 | a missing dependency throws KeyNotFound on the thread and ends the process (`crashed`); an incomplete one keeps it waiting; otherwise the action runs and the item becomes Complete; the invariant is kept |
| `Progress.ProgressList.DisplayPass` | client/Progress.cs:97-113 | the completion flag, every remembered status brought up to date, and the redrawn entries exactly those that changed |
| `Progress.DefaultTableInvariant` | client/Progress.cs:43-51 | the default table satisfies the table invariant |
| `Progress.InvariantAfterRunItem` | client/Progress.cs:61 | setting an entry to Processing keeps the invariant |
| `Progress.InvariantAfterAbort` | client/Progress.cs:65 | a thread ending on a missing dependency keeps the invariant |
| `Progress.InvariantAfterStep` | client/Progress.cs:72-74 | running an entry whose dependencies are Complete, then marking it Complete, keeps the invariant |
| `Progress.RanFirstExtend` | client/Progress.cs:63-74 | the run log stays ordered by dependencies when an entry runs after its dependencies completed |
| `Progress.StatusesOf` | client/Progress.cs:99-101 | one status per table entry |
| `Progress.ChangedAtSound` | client/Progress.cs:107-112 | every redrawn index had a changed status |
| `Progress.ChangedAtComplete` | client/Progress.cs:107-112 | every index whose status changed is redrawn |
| `Progress.ChangedAtIncreasing` | client/Progress.cs:99-112 | redrawn indices are listed in increasing order |
| `Progress.DefaultCompletion` | client/Progress.cs:43-51 | with the default table, completion holds exactly when MainData and DummyTimer are Complete, whatever the Test entry's status |
| `Progress.TestRunsAfterMainData` | client/Progress.cs:46-50 | in the default table, the Test action never runs before MainData's |
| `Data.Filter` | client/Data.cs:60-80 | the kept tasks are no more than the tasks |
| `Data.FilterMembers` | client/Data.cs:60-80 | a task is kept exactly when it is in the list and passes the filter |
| `Data.WalkIsFilter` | client/Data.cs:57-86 | the walk returns the filtered tasks of the whole tree, the folder's own tasks first, then each subfolder's in order |
| `Data.WalkInIsFilter` | client/Data.cs:82-83 | the subfolder results, in subfolder order, are the filtered tasks of those subtrees |
| `Data.ScanTriggers` | client/Data.cs:69-77 | the flag stays true exactly when no trigger is a logon or boot trigger |
| `Data.TaskPasses` | client/Data.cs:62-77 | as written, a task passes exactly by the tautological state test, which nothing passes |
| `Data.TaskPassesCorrected` | client/Data.cs:62-77 | a task passes exactly when it is not Microsoft's, is Ready or Running, and has a logon or boot trigger |
| `Data.FolderTasks` | client/Data.cs:60-80 | the folder's own tasks that pass the filter as written, in order |
| `Data.FolderTasksCorrected` | client/Data.cs:60-80 | the folder's own tasks that pass the intended filter, in order |
| `Data.EnumTsTasks` | client/Data.cs:57-86 | as written: the walk under the filter as written |
| `Data.EnumTsTasksCorrected` | client/Data.cs:57-86 | the walk under the intended filter |
| `Data.NothingKeptAsWritten` | client/Data.cs:67 | the state test as written rejects every task |
| `Data.EnumTsTasksAlwaysEmpty` | client/Data.cs:57-86 | `EnumTsTasks` returns the empty list for every folder tree |
| `Data.StartupTaskDropped` | client/Data.cs:67 | a Ready, third-party, logon-triggered task meets the intended filter and is still dropped |
| `Data.StartupTasksExactly` | client/Data.cs:57-86 | with the intended test, a task is reported exactly when it is in the tree, not Microsoft's, Ready or Running, and started at logon or boot |
| `Data.OutputOfFields` | client/Data.cs:171-187 | each entry copies name, id and working set, has CPU -1.0, a null path exactly without a main module, and `<unknown>` when reading it fails |
| `Data.UacFromPolicyMeaning` | client/Data.cs:204-205 | UAC counts as enabled exactly when EnableLUA is the DWORD 1; an absent or non-DWORD value throws |
| `Data.DataCache.MakeRunningProcesses` | client/Data.cs:153-188 | one entry per process, in the order listed |
| `Data.DataCache.MakeUacData` | client/Data.cs:199-206 | without the policy key the flag keeps its value; with it, the flag follows EnableLUA or the read throws |
| `Utils.Default` | client/data/Utils.cs:175 | `default(T)` has type T, and is null exactly for reference types |
| `Utils.TryWmiReadOutcome` | client/data/Utils.cs:169-177 | true exactly when the key is present with a value of type T; the stored value on success, `default(T)` otherwise |
| `Utils.TryWmiReadStored` | client/data/Utils.cs:169-177 | a value of type T stored under a key reads back unchanged |
| `Utils.ReadRegistryOutcome` | client/data/Utils.cs:87-103 | a missing subkey gives the default and no issue; a mistyped value gives the default and exactly one issue; a null read as a value type throws; the result has type T |
| `Utils.CastFailureMessageNamesPath` | client/data/Utils.cs:98 | the issue names the registry key, the subkey path and the value name |
| `Utils.GetRegistryValue` | client/data/Utils.cs:87-103 | the read's result, and the store's issues grown by exactly the issue of the read, if any |
| `Utils.MessageKeyRoundTrip` | client/data/Utils.cs:120-121 | a `__MSG_key__` placeholder matches `MSG_(.+)` and `Substring(6, len-8)` yields its key |
| `Utils.ParsedExtensionFields` | client/data/Utils.cs:114-125 | a parsed extension carries the manifest's version, and a field that is not a placeholder is copied unchanged |
| `Utils.ParseFailures` | client/data/Utils.cs:145-159 | no version directory, an unreadable manifest, a missing locale file when one is needed, or a too-short placeholder gives null |
| `Utils.ExactKeyResolves` | client/data/Utils.cs:116-125 | an exact-case key present in the locale resolves to its message |
| `Utils.LowerCaseRetry` | client/data/Utils.cs:127-142 | an exact-case key absent from the locale, with its lower-cased form present, resolves on the retry |

## Left out

- JSON serialization is a function parameter (`json`). The model does not
  know how Newtonsoft renders a report, so redaction is proved over the text
  as given.
- The version, the run timer, the clock, the `DisplayVersion` and
  `ReleaseId` registry values, the install and last-boot times, the host
  name, domain, boot mode and debug log text are inputs (`Env`).
- `Monolith.NewMonolith`: the store's WMI records and lists (CPU, GPU,
  motherboard, monitors, disks, temperatures, batteries, installed apps,
  scheduled tasks, browser extensions and so on) are flattened to string
  maps (`Record`), so their inner structure is not modelled. `CimToIsoDate`
  and `ManagementDateTimeConverter` are not modelled: the install and
  last-boot times arrive as Unix seconds.
- `Monolith.Session.Specificialize`: the debug log text, the generation date
  and the clock are read once per run (`Env`). In the source every restart
  rebuilds the report after more events were logged (client/Monolith.cs:86,
  138-139) and the clock moved, so the text a restart saves is not the text
  first posted. The model delivers the same text in both places. The other
  `DebugLog` calls, the console prompt and `ReadKey` in `DoRequest`, and
  `DebugLog.StopDebugLog` only log or wait and are left out.
- The HTTP transport is an input (`HttpResponse`). `File.WriteAllText`, the
  clipboard/browser thread and `ProgramDone` are recorded as effects. The
  ArgumentNullException of `Clipboard.SetText` on a null URL ends the
  process and is recorded as a `Crash` effect.
- `ProgramDone` posts its callbacks asynchronously to the GUI dispatcher. The
  model records the signals in the order they are requested. Whether the
  shell handles a signal requested just before the process crashes is not
  modelled.
- `async`/`await` and threads are modelled as sequential steps. The progress
  threads run their dependency scan and action in one `Step`. The
  `Thread.Sleep(0)` spin becomes a `Waiting` outcome that changes nothing.
- Progress actions (`MakeMainData`, `DummyTimer`, `PrettyPrintObject`) are
  named, not run. An action that throws is not modelled, so no entry ever
  becomes Failed.
- `Progress.ProgressList.DisplayPass`: models one pass of the `PrintStatuses`
  do-while. The first printing loop, cursor positions, `ClearCurrentConsoleLine`,
  the 100 ms sleep and the repetition until completion are left out.
- `Network.GetHostStats`: returns the failed-ping count in place of the
  `double` packet loss, because floating point is not modelled. The pings'
  outcomes are an input in task order.
- `Network.GetTraceroute`: the result is computed eagerly. The source yields
  lazily, so its exceptions appear on enumeration, not on the call, and the
  addresses yielded before a throwing probe reach the consumer first; the
  model returns only the exception. Whether `Ping.Send` throws at a TTL is an
  input (`fails`); its causes (an unreachable name, a buffer over 65500
  bytes) are not modelled. `IPAddress.ToString()` is replaced by an address
  string.
- `GetTCPConnections` and `GetAllTCPv4Connections`/`GetAllTCPv6Connections`
  (unmanaged table marshalling) are replaced by sequences of rows.
- `GetHostsFileHash` (SHA-256), `GetNetworkRoutes` (a loop pairing
  traceroute hops with `double` ping statistics) and `MakeNetworkData` (WMI
  queries) are left out.
- WMI queries (`GetWmi`), `CimToIsoDate`, `MakeMainData`, `DummyTimer`, the
  anti-virus and firewall lists, and the other `MakeSystemData` fields
  (variables, services, installed apps, hosts file) are left out as probe
  calls.
- `Process.MainModule` on an exited process throws
  `InvalidOperationException`, which the loop does not catch. That case is
  not modelled: a main module is present, absent or access-denied.
- Registry subkey names are matched exactly. Windows matches them without
  regard to case.
- In `ParseChromiumExtension`, directory listing, file reads and JSON
  parsing are inputs. Locale entries hold only string fields; a non-string
  `message` token is not modelled.
- `Common.Lower`: lower-cases only the ASCII letters, as a culture without
  special casing rules does. `ToLower()` runs under the current culture, so
  under a Turkish or Azeri culture 'I' becomes dotless 'ı', and letters
  outside ASCII are mapped too; neither is modelled.
- `Data.MicrosoftAuthored`: compares the "Microsof" prefix character by
  character. The source's `StartsWith(string)` compares under the current
  culture, which ignores zero-width characters, so an author with a soft
  hyphen inside "Microsoft" counts there and not in the model.

## Findings

| source | as written | input that shows it | evidently intended | confidence | as-written member | corrected member |
|---|---|---|---|---|---|---|
| client/Monolith.cs:136-154 | After an upload failure the catch block restarts the run with uploading off. The restart saves the file and signals FinalizeNoUpload. Control then falls through to the success tail: the null URL goes to the clipboard/browser thread, where `Clipboard.SetText(null)` throws ArgumentNullException. Nothing on that thread catches it, so the process ends before `ProgramDone(0)` and `StopDebugLog`. | `DontUpload` false and a server reply with status 500. The shell receives UploadFailed and FinalizeNoUpload, the file is saved, and then the process crashes instead of returning (`Monolith.UploadFailureScenario`, `Monolith.DeliveryTraceFinalizations`). | `return` after the restart, so that the run ends after the local save | not executed | `Monolith.Session.Specificialize` | `Monolith.Session.SpecificializeCorrected` |
| client/Data.cs:67 | `task.State != TaskState.Ready \|\| task.State != TaskState.Running` holds for every state, so every task is skipped and `EnumTsTasks` returns an empty list. | A root folder holding one task by author "Contoso", Ready, with a Logon trigger. It meets the documented filter, yet the result is empty (`Data.StartupTaskDropped`, `Data.EnumTsTasksAlwaysEmpty`). | `&&` in place of `\|\|`: skip tasks that are neither Ready nor Running | not executed | `Data.EnumTsTasks` | `Data.EnumTsTasksCorrected` |
