# A verified model of the Sprint node runtime

Sprint is a Go application framework. Most of it wires beans together, but its node runtime holds
several small concurrent protocols and codecs. This project models them in Dafny 4.11 and proves what
they keep over whole runs. `dafny verify dfyconfig.toml` checks everything.

## How it is organised

Goroutines that share state are modelled as a state machine: `Next(state, action)` is `None` when the
action is not enabled, and one action is one atomic, map, mutex, channel or stream operation. A sequence
of actions is one interleaving, so a lemma about `Exec(Next, INITIAL, acts)` speaks of every run
(`Runs.dfy`). Objects that are used serially, or under a mutex, are classes whose methods are proved
against specification functions; loops stay loops.

| file | component |
|---|---|
| `Autoupdate.dfy` | freeze handles, deferred update, debouncing timers |
| `Application.dfy` | the `sync.Once` shutdown decision |
| `ServerGroup.dfy` | servers, error group, shutdown fan-out |
| `Lifecycle.dfy`, `Termination.dfy`, `Sources.dfy` | one node process: contexts, servers, signals, RPC, closing, successor |
| `Issue.dfy`, `IssueUnique.dfy` | time-based identifiers: serial order, lock-free progress, concurrent uniqueness |
| `Config.dfy`, `ConfigWatch.dfy` | configuration view of a shared store, and its watchers |
| `Query.dfy`, `Console.dfy`, `ConsoleProtocol.dfy` | query language, both consoles, streaming protocol |
| `Flags.dfy`, `Rotation.dfy` | restart arguments, rotation of executables |
| `RateLimiter.dfy`, `Tokens.dfy` | rate limiter, token and node id codecs |
| `Runs.dfy`, `Text.dfy`, `Numbers.dfy`, `Base64.dfy` | runs, and the library functions relied on |

## Where the code and a stated intention differ

- `sprintcmd/utils.go:133` says that the group context is cancelled when the first server stops. A
  `Serve` that returns nil (also for any error mentioning "closed") does not cancel it:
  `ServerGroup.FirstServerStoppingDoesNotCancel` gives the run, `CancelledExactlyByFailure` the exact cause.
- A freeze handle taken while a timer is pending does not hold off that timer's restart:
  `Autoupdate.LateFreezeDoesNotHold`; `FreezeHoldsOffExactly` gives the exact condition.
- `Issue` repeats an identifier when the clock comes back to a tick it has left
  (`SerialIssue.SerialUniqueness` and `DistinctExactly` give the exact conditions), and when calls
  overlap in one of three ways: an increment between a winner's swap and its reset, an increment for a
  tick that is no longer stored, or a swap that takes the stored time back
  (`ConcurrentUniqueness.SettledNeeded`, `CurrentNeeded`, `RisingNeeded`; `UniqueExactly` shows that a
  run without them is safe).
- A mirror that enumerates before its watcher is registered misses a Set in between:
  `ConfigWatch.SnapshotFirst` gives the exact condition.
- A restart loses a negative node number and a property with an empty key:
  `Flags.RestartRestoresExactly`.
- `get` of a key that ends in ';' or has a space at an end reads a different key: `Query.GetReads`.
- What `dump` prints of a key with a blank, or of an empty value, cannot be replayed: `Query.DumpReplay`.

## Model

| member | source | states |
|---|---|---|
| Autoupdate.StepKeepsInv | sprintcore/autoupdate_service.go:148-202 | every operation of Freeze, Unfreeze, triggerUpdate and the timer callback keeps a requested update carried by the application being down, a current timer, a held handle with the deferred flag, or a responsible goroutine |
| Autoupdate.NoUpdateLost | sprintcore/autoupdate_service.go:148-202 | once requested, in every reachable state: down, or a handle held, or a goroutine inside, or a pending timer with the stored timestamp; when idle, a held handle has the deferred flag set |
| Autoupdate.RequestedUpdateRestarts | sprintcore/autoupdate_service.go:154-202 | left alone with an unlocked file the service stops after a bounded number of operations with nobody inside; if every stored handle has been given to Unfreeze, no handle is held then and a requested update has restarted the application |
| Autoupdate.UnfreezeReleases | sprintcore/autoupdate_service.go:154-159 | a handle given to Unfreeze is not held once nobody is inside an operation, whatever else happens |
| Autoupdate.AloneIsSerial | sprintcore/autoupdate_service.go:148-202 | each operation undisturbed: Freeze stores its job under the next handle, Unfreeze drops one handle and triggers only when none is left and an update was put off, a trigger is put off or supersedes the pending timer, a superseded timer does nothing, the current one restarts or, with a locked file, triggers again |
| Autoupdate.LockedFileHoldsOff | sprintcore/autoupdate_service.go:190-200 | as long as the file is found locked there is no restart, and a requested update is not lost |
| Autoupdate.NoSpuriousRestart | sprintcore/autoupdate_service.go:154-202 | without a request there is never a restart nor a deferred flag, whatever freezes and unfreezes happen |
| Autoupdate.HandlesUnique | sprintcore/autoupdate_service.go:148-152 | a handle about to be stored is neither in the freeze map nor held by another Freeze in progress |
| Autoupdate.FreezeHoldsOffExactly | sprintcore/autoupdate_service.go:148-202 | a held handle keeps all continuations free of autoupdate restarts until it is unfrozen, if and only if no work is past its freeze check at that moment |
| Autoupdate.FreezeHoldsOff | sprintcore/autoupdate_service.go:148-159 | a handle stored while no timer is pending and no trigger is in progress holds off every restart until it is unfrozen |
| Autoupdate.LateFreezeDoesNotHold | sprintcore/autoupdate_service.go:188-194 | a reachable state with a held handle from which the pending timer still restarts |
| Application.StepKeepsInv | sprintapp/application.go:202-209 | every step of any caller keeps the once, the flags, the error and the closing of the channel consistent with how far the one winner has come |
| Application.OneShutdownDecision | sprintapp/application.go:198-229 | any callers in any interleaving: channel closed at most once and exactly once when a call has returned; Done closed implies Err set and inactive; Restarting is the winner's argument while inactive and never changes afterwards |
| Application.ShutdownNeverDeadlocks | sprintapp/application.go:202-209 | while some call of Shutdown has not returned, some caller can proceed |
| ServerGroup.StepKeepsInv | sprintcmd/utils.go:115-143 | binding, serving, fan-out, Shutdown, Destroy and Wait keep the invariant of the group |
| ServerGroup.AllOrNothing | sprintcmd/utils.go:115-143 | no server is shut down by the group before cancellation; no shutdown body runs twice; when all goroutines have finished every bound server was shut down and its channel closed exactly once |
| ServerGroup.StopNextKeepsServers | sprintserver/grpc_server.go:95-117 | however calls interleave, the shutdown body and the closing of shutdownCh stay tied to the one call that entered the once |
| ServerGroup.StopNextKeepsCalls | sprintserver/http_server.go:72-102 | every Shutdown or Destroy call that has returned did so after the body had finished |
| ServerGroup.CancelledExactlyByFailure | sprintcmd/utils.go:124-143 | in every run the group is cancelled if and only if the parent was done, Wait returned, or some Serve returned an error that is neither nil nor "closed" |
| ServerGroup.FirstServerStoppingDoesNotCancel | sprintcmd/utils.go:133-143 | for a nil and for a "closed" result: a reachable state in which one of two servers has ended, the other serves, and nothing is cancelled |
| ServerGroup.OnlyBoundTakePart | sprintcmd/utils.go:115-140 | a server takes part if and only if its Bind succeeded; the others are never served nor shut down by the group |
| ServerGroup.WaitCollects | sprintcmd/utils.go:136-179 | Wait returns only after every bound Serve and every shutdown by the group; if the fan-out has ended by then, every bound server was stopped once |
| ServerGroup.CancelledGroupStopsEveryServer | sprintcmd/utils.go:136-143 | after cancellation, shutting down takes a bounded number of operations and ends with every bound server stopped exactly once |
| ServerGroup.OpenStopCanStep | sprintserver/grpc_server.go:163-167 | while a Shutdown or Destroy call is open, one of them can proceed |
| Lifecycle.StepKeepsInv | sprintcmd/run_node.go:142-180 | every step of the process keeps phases, closing order and the shutdown decision consistent |
| Lifecycle.SuccessorSafety | sprintcmd/run_node.go:142-180 | at most one successor; only with Restarting set by the winner, no Serve running, all bound servers' Serve returned, all server contexts and the core context closed |
| Lifecycle.DecisionIsCarriedOut | sprintcmd/run_node.go:158-180 | once inactive and before the final test, every run that ends calls Start exactly when the decision was to restart |
| Lifecycle.AgreedRequestsDecide | sprintcmd/utils.go:145-177 | when all requests agree that is the decision; the signal loop's follow-up Shutdown(false) never cancels a restart |
| Lifecycle.SourceKeepsAgreed | sprintserver/grpc_control_server.go:172-186 | a delayed Node command or the signal loop never changes an agreed decision |
| Lifecycle.MainOnlyWaits | sprintcmd/utils.go:29-46 | the main goroutine is held up only by Wait while the group runs; whenever it has ended, all server contexts and the core context are closed |
| Lifecycle.ClosingOrder | sprintcmd/utils.go:29-46 | no server context is closed while a Serve runs or before the group was waited for, and the core context is closed after all of them |
| Lifecycle.ProcessStopsServersOnce | sprintcmd/utils.go:115-179 | within the whole process, group shutdowns follow a cause and end with each bound server stopped once |
| Termination.StepKeepsLaunched | sprintcmd/utils.go:127-131 | when the group is waited for, every bound server has been launched |
| Termination.ShutdownIsCarriedThrough | sprintcmd/run_node.go:142-180 | once anybody has called Shutdown or a Node command was accepted, the process exits after a bounded number of its own operations, in any order, with Done and all contexts closed and every bound server stopped once; a decision made before the end of Run starts a successor exactly for a restart; a Serve is assumed to return after its server's shutdown body |
| Sources.CommandIsCarriedOut | sprintserver/grpc_control_server.go:172-186 | the Node command accepts "restart" and "shutdown" alone, and after its delay calls Shutdown with that argument |
| Sources.RequestsAreCalls | sprintcmd/utils.go:145-177 | in every run each request, by signal, Done, delayed command or directly, is a call of Shutdown with its argument |
| Sources.LoopListens | sprintcmd/utils.go:145-177 | from the launch on, the signal loop listens exactly until the first signal not used for rotating logs, or Done |
| Sources.CreatedContextsAreClosed | sprintcmd/utils.go:29-60 | every server context that was created is closed when Run has ended |
| Sources.BindDecides | sprintcmd/utils.go:115-131 | a server whose Bind fails is out for the rest of the process, one whose Bind succeeds stays bound |
| Sources.NothingToServe | sprintcmd/utils.go:48-113 | without servers, or when a context cannot be created, no group ever runs |
| Sources.SuccessorsAreStarted | sprintcmd/run_node.go:166-178 | a successor runs exactly when Start was called and succeeded |
| SerialIssue.NodeService.Issue | sprintcore/node_service.go:153-182 | an undisturbed call returns the time read with sequence zero for a new tick, else the incremented 14-bit sequence, and stores both |
| SerialIssue.IssuedAt | sprintcore/node_service.go:153-182 | for any clock readings, the i-th serial call returns its reading and, modulo 2^14, its place in the streak of calls that read that tick |
| SerialIssue.DistinctExactly | sprintcore/node_service.go:153-182 | for any clock readings, identifiers are pairwise distinct if and only if no two calls read one tick at the same place, modulo 2^14, of its streaks |
| SerialIssue.SerialOrder | sprintcore/node_service.go:153-182 | (time, sequence) strictly increasing if and only if the clock never steps back and no tick gets more than 2^14 identifiers (2^14-1 at time zero) |
| SerialIssue.SerialUniqueness | sprintcore/node_service.go:153-182 | for readings other than the stored time: pairwise distinct if and only if the clock never comes back to a tick it has left and reads none more than 2^14 times |
| SerialIssue.ContiguousUniqueness | sprintcore/node_service.go:153-182 | on a clock that never comes back, whatever is stored: pairwise distinct if and only if no tick is read more than 2^14 times |
| SerialIssue.Collision | sprintcore/node_service.go:163-171 | on a clock that never comes back, two serial calls collide exactly when they read one tick a multiple of 2^14 calls apart |
| SerialIssue.BackwardClockRepeats | sprintcore/node_service.go:159-171 | readings 5, 4, 5 repeat an identifier, 5, 4, 3 do not |
| ConcurrentIssue.ProgressBound | sprintcore/node_service.go:159-178 | each failed CAS of a call is charged to a different other call's successful CAS, so among n calls none fails more than n-1 times |
| ConcurrentIssue.EveryCallFinishes | sprintcore/node_service.go:159-178 | whatever the others do, an unfinished call can take its next step, and among n calls none takes more than 4n steps |
| ConcurrentIssue.AloneIsSerial | sprintcore/node_service.go:153-182 | a call running alone in the concurrent model is the serial call |
| ConcurrentIssue.LostRaceRetries | sprintcore/node_service.go:168-176 | a call that loses the race and is then left alone rereads the clock exactly when the stored time is ahead, and never takes the stored time back |
| ConcurrentUniqueness.UniqueExactly | sprintcore/node_service.go:159-178 | in every interleaving in which each successful CAS raises the stored time and each increment is for the stored time with no reset due, finished calls are pairwise distinct if and only if no tick has more than 2^14 of them |
| ConcurrentUniqueness.AloneObeys | sprintcore/node_service.go:153-182 | calls that do not overlap, on a clock that does not step back, obey these rules |
| ConcurrentUniqueness.SettledNeeded | sprintcore/node_service.go:163-171 | a run that only increments between a winner's CAS and its reset repeats an identifier |
| ConcurrentUniqueness.RisingNeeded | sprintcore/node_service.go:168-176 | a run that only swaps the stored time back, by a call with an earlier reading, repeats an identifier |
| ConcurrentUniqueness.CurrentNeeded | sprintcore/node_service.go:163-169 | a run that only increments for a tick after a later one has won repeats an identifier |
| ConfigRepository.Repository.Get | sprintcore/config_repository.go:94-100 | reads the view's entry, the empty string when missing |
| ConfigRepository.Repository.GetProperty | sprintcore/config_repository.go:70-79 | none when shutting down or detached; otherwise none exactly for a missing key or an empty value, else the view's value |
| ConfigRepository.Repository.Set | sprintcore/config_repository.go:113-130 | updates or deletes one key of the view, changes no raw key outside the bucket, stores no empty value |
| ConfigRepository.Repository.EnumerateAll | sprintcore/config_repository.go:102-111 | calls back for different matching entries with the bucket stripped, stops at the first refusal, otherwise visits all |
| ConfigRepository.Matching | sprintcore/config_repository.go:102-111 | stripping the raw keys with the raw prefix gives exactly the view's entries under the prefix |
| ConfigRepository.BucketKeys | sprintcore/config_repository.go:19-22 | the repository's raw keys are those that begin with "config:", and its keys are what follows |
| ConfigRepository.HistoryRefinesMap | sprintcore/config_repository.go:70-130 | any history of Set, Get, GetProperty and EnumerateAll is observed as on a map from keys to non-empty strings |
| ConfigWatch.StepKeepsInv | sprintcore/config_repository.go:113-141 | every step of a Set, its walk over the watchers and their callbacks keeps each mirror within one owed change of the store |
| ConfigWatch.MirrorsAgree | sprintcore/config_repository.go:154-205 | a client that registers and then enumerates, whatever is handed over in between: with no Set in progress it holds exactly the entries under its prefix once its callback is done; during a Set it lags by at most that change |
| ConfigWatch.SnapshotFirst | sprintcore/config_repository.go:143-147 | a client that enumerates and then registers agrees from then on if and only if its snapshot still equals the entries under its prefix when it registers |
| ConfigWatch.StaysRightExactly | sprintcore/config_repository.go:132-141 | in whichever order a client began, it is right in every idle moment to come if and only if it is right now but for the change in hand and the one still owed |
| ConfigWatch.SnapshotFirstMisses | sprintcore/config_repository.go:143-147 | a reachable idle state in which a mirror that enumerated first is wrong |
| ConfigWatch.SetCompletesAndMirrorsAgree | sprintcore/config_repository.go:132-141 | a Set and its callbacks finish after a bounded number of operations and then all mirrors that registered first equal the store |
| ConfigWatch.SetNeverBlocks | sprintcore/config_repository.go:132-141 | with live watchers a Set in progress can always proceed |
| Query.SetNamesKey | sprintcore/storage_service.go:94-109 | `set key base64` names exactly that key if and only if it is non-empty, without blank and without space at its ends |
| Query.ReplayWrites | sprintcore/storage_service.go:94-121 | replaying one dumped line writes exactly the entry it came from |
| Query.QueriesKeepWritable | sprintcore/storage_service.go:56-140 | no query text whatever writes a key that it could not name or an empty value |
| Query.DumpReplay | sprintcore/storage_service.go:65-121 | for any store and prefix text: replaying the lines of `dump prefix` on an empty store rebuilds exactly the entries under the prefix read if and only if every key is addressable and every value non-empty; the prefix read is the one given if and only if it has no space at an end and no final ';' |
| Query.GetReads | sprintcore/storage_service.go:65-93 | `get` answers with the Base64 of the key it reads, which is the key given if and only if that has no space at an end and no final ';' |
| Query.GetAfterReplay | sprintcore/storage_service.go:87-93 | after the replay `get` answers as before for keys not ending in ';' |
| Query.QueriesAreConfined | sprintcore/storage_service.go:56-140 | a query changes at most the store it addresses, and only by `set` or `rm`; a failed one changes nothing and says nothing; it fails exactly for a missing store, an unknown command or a malformed `set` |
| Query.GetAfterSet | sprintcore/storage_service.go:87-109 | after `set key base64`, `get` answers with that Base64 for that key and as before for every other |
| Query.RemoveRemoves | sprintcore/storage_service.go:110-116 | `rm key` removes exactly the key it reads, which is the key given if and only if that has no space at an end and no final ';' |
| Query.GetAfterRemove | sprintcore/storage_service.go:87-116 | after `rm key`, `get` answers with nothing for that key and as before for every other |
| Query.ScanIsComplete | sprintcore/storage_service.go:122-126 | `scan prefix` changes nothing and reports every key under the prefix exactly once |
| Query.SearchIsComplete | sprintcore/storage_service.go:127-134 | `search pattern` changes nothing and reports every matching key exactly once |
| Query.DumpFollowsScan | sprintcore/storage_service.go:117-126 | `dump` prints key, comma and Base64 value of each key that `scan` reports, in the same order |
| Query.HelpAndList | sprintcore/storage_service.go:79-86 | `help` and `list` report the commands and the stores and change nothing |
| Query.OtherWordsFail | sprintcore/storage_service.go:135-137 | any other command word is refused, whatever follows it |
| Query.SetNeedsValue | sprintcore/storage_service.go:94-99 | `set` without a value is refused and changes nothing |
| Console.StorageService.Serve | sprintcore/storage_service.go:142-203 | stores, selected storage and all replies sent after the received queries |
| Console.OneMarkerEach | sprintcore/storage_service.go:152-194 | the replies hold as many end markers as queries were answered, the last reply being one |
| Console.UseSelects | sprintcore/storage_service.go:152-161 | in both consoles `use name` selects the named storage if it exists and changes nothing otherwise |
| Console.UsedStorageIsQueried | sprintcore/storage_service.go:142-245 | in both consoles the query after `use name` acts on that storage |
| Console.QueryReplies | sprintcore/storage_service.go:172-194 | for any query but `use`: its contents in order with status 200, one 501 if and only if it failed, one end marker |
| Console.LocalWritesReplies | sprintcore/storage_service.go:232-241 | for any query but `use` and `list` the local console writes the same contents, and one error if and only if it failed |
| Console.ListsDiffer | sprintcore/storage_service.go:216-219 | the local `list` prints the stores without asking the selected one, the remote one executes it |
| Console.StorageService.LocalConsole | sprintcore/storage_service.go:205-245 | stores, selected storage and both outputs after the typed lines |
| Console.RemoteRound | sprintcore/storage_service.go:152-194 | the replies to one query end in a single end marker, after all others |
| Console.ConsolesAgree | sprintcore/storage_service.go:142-245 | for every script both consoles end with the same stores and selection |
| ConsoleProtocol.StepKeepsInv | sprintclient/control_client.go:172-219 | every operation of client, receiver and server keeps what is on its way equal to what is due |
| ConsoleProtocol.ProtocolOrder | sprintclient/control_client.go:172-219 | in every run at most one unanswered query; replies written are exactly those due, all before the token and the next query; no token is put on a full barrier |
| ConsoleProtocol.NobodyLeftBlocked | sprintclient/control_client.go:174-217 | once the stream is over, receiver and sender finish after a bounded number of operations |
| ConsoleProtocol.WaitingMakesProgress | sprintclient/control_client.go:209-216 | a client waiting on the barrier is never stuck |
| ConsoleProtocol.LeftSessionEnds | sprintclient/control_client.go:172-219 | once the client has left, server and receiver end after a bounded number of operations |
| ConsoleProtocol.PromptCanLeave | sprintclient/control_client.go:195-213 | at the prompt of a session that is over, "exit" or a failing send lets the client leave |
| ConsoleProtocol.RemoteActsAsLocal | sprintcore/storage_service.go:142-245 | over an unbroken stream, in every interleaving, the remote console leaves stores and selection as the local one |
| Flags.SetPropertyWrites | sprintapp/application_flags.go:67-78 | key '=' text, the key without '=', sets that key to that text; a value without '=' sets itself to the empty text; no other property changes |
| Flags.ApplicationFlags.RegisterServerArgs | sprintapp/application_flags.go:98-116 | appends verbosity, node and properties in some order that visits every property once |
| Flags.RegisteredText | sprintapp/application_flags.go:98-116 | the emitted arguments as text, for flags that are set and for those that are not |
| Flags.ParseKeepsParsed | sprintapp/application_flags.go:67-96 | no parsed property key contains '=', and the node fits an int |
| Flags.ChildInherits | sprintcmd/start_node.go:102-156 | what the next process parses from the emitted arguments, in any map order |
| Flags.RestartRestoresExactly | sprintapp/application_flags.go:98-116 | a restart restores verbosity, node and properties if and only if the node is not negative and no key is empty |
| Flags.RestartsChangeNothingElse | sprintcmd/start_node.go:102-156 | any number of restarts changes nothing but autoupdate.file |
| Numbers.ItoaInjective | sprintutils/node.go:18-24 | different node numbers have different suffixes |
| Rotation.FilesDisjoint | sprintcmd/start_node.go:190-206 | no odd or even file belongs to two nodes |
| Rotation.UpdateNamesApart | sprintcmd/start_node.go:125-138 | no update binary has the name of a rotation file |
| Rotation.PairAlternates | sprintcmd/start_node.go:190-202 | odd is followed by even, even and any other file by odd |
| Rotation.NodeFiles | sprintutils/node.go:18-24 | node zero uses the plain application name, any other its number after a dash |
| Rotation.Start | sprintcmd/start_node.go:108-154 | files, launched executable and passed update path for every outcome of lookup and copy |
| Rotation.UpdateIsLaunched | sprintcmd/start_node.go:125-152 | the first update binary that exists is copied over the file of the pair that is not running, which is launched with exactly that content, and its path is passed on; after a failed copy the binary itself is launched and nothing passed on |
| Rotation.NothingIsUpdated | sprintcmd/start_node.go:112-140 | without an update binary the other file of the pair is launched, without autoupdate the running one; no file changes |
| Rotation.StartTouchesOneFile | sprintcmd/start_node.go:142-154 | a start changes at most the file of its pair that it does not run from |
| Rotation.RotationSafe | sprintcmd/start_node.go:108-148 | after any starts of any nodes, a start leaves every running executable and every other node's files alone |
| Rotation.RestartRunsUpdate | sprintcmd/start_node.go:108-154 | after any starts of any nodes, a restart with a successful copy runs exactly the update binary found, and goes on running it whatever other nodes do |
| RateLimiter.Limiter.Do | sprintutils/rate_limiter.go:23-38 | the function starts at once if the limit has passed since the previous return, else exactly when it has (plus the sleep's overshoot); 100 ms replace a zero limit |
| RateLimiter.DoAll | sprintutils/rate_limiter.go:23-38 | any sequence of calls is paced by the first call's limit, and no call waits longer than it must |
| RateLimiter.StartsApart | sprintutils/rate_limiter.go:23-38 | the k-th later start comes at least k limits later |
| RateLimiter.RateBound | sprintutils/rate_limiter.go:23-38 | any window of length W holds at most W/Limit + 1 starts |
| Tokens.GenerateToken | sprintutils/tokens.go:56-68 | returns the encoding of the first block that encodes without '-' and '_', or fails with the source |
| Tokens.TokenRoundTrip | sprintutils/tokens.go:56-79 | a generated token parses to its 32 bytes and decodes alike under the standard and URL-safe alphabets |
| Tokens.OnlyTokensParse | sprintutils/tokens.go:71-79 | what parses is 32 bytes; the code of a block of any other size is refused |
| Tokens.TokensDistinct | sprintutils/tokens.go:56-68 | different blocks give different tokens |
| Tokens.NodeIdRoundTrip | sprintutils/tokens.go:81-97 | a generated node id is "0x" and twelve lower-case digits and parses to the big-endian value of its bytes, below 2^48; different bytes give different ids |
| Tokens.HexParses | sprintutils/tokens.go:92-97 | any bytes in hexadecimal parse alike with and without "0x", and are refused when empty or past 48 bits |
| Tokens.OnlyNodeIdsParse | sprintutils/tokens.go:92-97 | no text parses but hexadecimal digits of a value below 2^48 |
| Base64.RoundTrip | sprintutils/tokens.go:28-79 | every codec decodes what it encoded |
| Base64.DecodeAccepts | sprintutils/tokens.go:71-79 | a decoder accepts only its alphabet and line breaks, and '=' only where it pads |

## Left out

- Goroutine-shared objects (autoupdate service, application, servers, watchers, console client) are values stepped by a machine, not classes: a method body would be one atomic action. Real time is a clock reading and a timer may fire at any moment.
- `hasFreezeJob` is one step; the non-snapshot iteration of `sync.Map.Range` is not modelled. Handles are unbounded integers.
- Non-uniform memory effects: atomics are sequentially consistent, as Go's are.
- One `EnumerateAll` of a watching client is one step of the store.
- Concurrent Sets of the configuration and watchers that stop while a change is sent to them: delivery is not determined there.
- Errors of store backends, backups, compaction and the `Storage` command: unseen libraries.
- A refused callback inside `ExecuteQuery` (a failing send) appears only as the end of the server in the protocol. Error texts are abbreviated.
- Keys and texts are sequences of characters; bytes that are not valid UTF-8 are not modelled.
- Panics inside `Bind` or `Serve`, and errors of `Run` before the core context exists, are not modelled.
- Flags registered by other beans, usage output of `-h`, and the pid file of `Start`.
- RateLimiter.StartsApart: speaks of functions that return normally; a panic leaves `lastReqTime` unchanged and is not modelled.
- SerialIssue.SerialOrder: the bit layout of the UUID library is not modelled, only its field widths.
- Dependency injection, TLS, JWT, authorization, mail, gateway, prompts, logging and generated assets: wiring or unseen libraries.
- `JobService`, option parsing and file mode parsing: only easy members.
