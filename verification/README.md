# arena-tunnel: models and proofs

arena-tunnel connects a student's machine to a training network. Its client carries WireGuard datagrams
over a WebSocket to a server, keeps the kernel's routes in step with a profile pushed from outside, polls
for its pairing, arms a kill switch and writes a rotating log; two scripts police forwarding on the
manager host. This project models those parts in Dafny and proves what they keep over every run, every
fault and every interleaving.

Each part whose source changes state step by step is a class or a method with loops, proved equal to a
function of the old state; the promises are then proved about that function and about whole runs of it.
The goroutines of the client's shovel and of the server's tunnels are state machines whose steps are the
atomic actions between which other goroutines may run. Clocks, the network, the kernel, the disk and the
other side are adversaries: they appear as parameters that say what fails, when, and how late.

| module | what it models |
|---|---|
| `Basics` | options, bytes and powers of two, shared by the others |
| `LogSink` | the size-rotated log files and the sink that writes them |
| `RuleList`, `ByocFirewall` | rule lists with first-match verdicts; the FORWARD programs of the two scripts |
| `KillSwitch` | the OUTPUT jump, the private chain, the marker file, and start-up recovery |
| `Ipv4`, `NetworkProfile` | prefix arithmetic on 32-bit addresses; the profile validator |
| `RouteSync` | installing, reconciling and removing routes on Linux and Windows, and the poll loop |
| `Pairing` | the pairing poll loop with its failure budget, backoff and wall clock |
| `Shovel` | the client's sessions sharing one UDP socket across reconnects |
| `ServerTunnel`, `PongDeadline` | the server's tunnels with their once-only close; the read deadline |
| `DataPlane`, `Sanitizer` | per-session counters and observed states; the UTF-8-safe log sanitizer |
| `ConfigFile` | saving, wiping and loading the configuration across crashes |

## What the proofs found

- The failure budget of the pairing poll (30 failures, documented at client/pair.go:16-17) can never run
  out: 29 capped backoffs take 780 seconds and the wall clock stops the loop at 600. The counter never
  exceeds 24 at any lap, resets or not, and can get there (`Pairing.BudgetNeverExhausted`,
  `Pairing.CounterAtMost24`, `Pairing.CounterReaches24`). For general constants
  `Pairing.CounterReachableIff` says exactly which counts are reachable.
- A postup run reaches its documented rule order exactly when no managed rule was on the list twice, nor
  once if that rule's delete failed; the scripts ignore failing deletes
  (`ByocFirewall.PostupNormalFormIff`), and postdown restores the user rules under the same condition
  (`ByocFirewall.PostdownRestoresIff`). What isolates students from each other and from management
  networks holds without any such assumption (`ByocFirewall.IsolationAlways`).
- After a failed reopen of its log file the sink loses every write that fits into the size it last knew,
  without a retry and although nothing fails any more (`LogSink.ClosedWriteIff`, `LogSink.ClosedRunIsLost`,
  `LogSink.ClosedSinkIsReachable`); the comment at client/logsink.go:145-146 promises a usable sink.
- The kill switch keeps at most one jump in OUTPUT exactly when no install inserts its jump right after its
  delete of a present one was refused, a refusal the code ignores (`KillSwitch.HistoryKeepsUnique`,
  `KillSwitch.LostDeletePilesUp`).
- Kill-switch recovery at start-up restores OUTPUT exactly when nothing is armed, or the marker exists, the
  delete works and there is one jump. A crash between inserting the jump and writing the marker leaves the
  machine armed (`KillSwitch.RecoverRestores`, `KillSwitch.CrashBeforeMarkerStaysArmed`).
- A successful reconcile does not by itself mean that the kernel has the new profile's routes: if the
  target changed between failed tries, leftovers of the abandoned target stay and routes it withdrew are
  missing, and the validator accepts profiles with which this happens (`RouteSync.ChangedTargetDiverges`,
  `RouteSync.DivergingProfiles`). `RouteSync.ConvergesIff` gives the exact condition. A failed try narrows
  access exactly when no withdrawal it needed got stuck, which the code only logs (`RouteSync.TryNarrowsIff`).
- The server's read deadline never closes a connection that answers pings within a delay exactly when ping
  interval and delay fit into the pong timeout and so do delay and the head start of the deadline over the
  ping timer; a peer that also sends pongs of its own accord needs all three to fit together
  (`PongDeadline.SafeIff`).

## Model

| member | source | states |
|---|---|---|
| `LogSink.RotatingSink.constructor` | client/logsink.go:68-96 | a sink started over any leftover files, with any start-up failure, is in the state the start-up specification gives |
| `LogSink.StartKeepsFiles` | client/logsink.go:68-114 | whatever fails, a start keeps every file exactly as it was and adds at most an empty live file; it leaves a usable sink, counting from the live file's size, exactly when directory and file could be protected and the file opened |
| `LogSink.RotatingSink.Rotate` | client/logsink.go:121-136 | the in-place descending shift leaves exactly the file set and success of the specification, for every set of failing calls |
| `LogSink.RotatingSink.Reopen` | client/logsink.go:98-114 | reopening, truncating or not, with any failure, is the specified transition; the size counter is stale if it failed |
| `LogSink.RotatingSink.Write` | client/logsink.go:138-162 | one write with any mix of remove, rename, reopen and short-write failures is the specified transition |
| `LogSink.RotateShape` | client/logsink.go:121-136 | whatever fails and whatever gaps the file set has, slots below the failure stay, the others move up by one, only the oldest archive goes; success exactly when nothing failed and a live file existed |
| `LogSink.RotatePortable` | client/logsink.go:116-136 | no rename ever finds its destination taken, so replace-on-rename and fail-if-exists platforms give the same result |
| `LogSink.RunKeepsOrder` | client/logsink.go:98-162 | in every run of writes, closes and starts, each file holds one contiguous interval of the byte history, intervals are disjoint and older in higher slots, and the live file ends where the history ends |
| `LogSink.WriteKeepsInv` | client/logsink.go:138-162 | one faulty write keeps that order and the agreement of the size counter with the live file while the handle is open |
| `LogSink.WriteCountsBytes` | client/logsink.go:159-161 | the history grows by exactly the bytes the write reports |
| `LogSink.AnyFilesAreOrdered` | client/logsink.go:68-96 | every file set a previous process can leave satisfies the invariant for some history, so nothing is assumed of the start |
| `LogSink.OnlyOldestOrLiveIsLost` | client/logsink.go:142-158 | under any faults a file survives whole in its slot or the next, unless it fell off slot keep or was the live file truncated after a failed rotation |
| `LogSink.RunKeepsFile` | client/logsink.go:68-162 | over any run of faulty writes, closes and starts a file stays whole in the slot the rotations moved it to, unless it falls off slot keep or a failed rotation truncates it live |
| `LogSink.RunKeepsBound` | client/logsink.go:142-161 | in every run no file outgrows the larger of maxSize and the longest write, and no slot beyond keep appears |
| `LogSink.WriteConserves` | client/logsink.go:121-162 | without faults the files joined oldest first plus the written bytes equal the file lost off slot keep, if any, plus the new files joined |
| `LogSink.CalmRunRetains` | client/logsink.go:121-162 | after any fault-free writes the files are a suffix of the history, fill consecutive slots, and every two neighbours exceed maxSize together |
| `LogSink.RetentionFromScratch` | client/logsink.go:121-162 | from no files, after r rotations (at most keep) at least floor((r+1)/2) * (maxSize+1) bytes of the suffix remain |
| `LogSink.RestartsRetain` | client/logsink.go:68-162 | a fault-free run with any closes and restarts leaves the files and the history its writes alone would leave |
| `LogSink.RetentionAcrossRestarts` | client/logsink.go:68-162 | so the suffix and the retention bound hold across restarts |
| `LogSink.ClosedWriteIff` | client/logsink.go:138-161 | after a failed reopen, with nothing failing any more, a write gets through if and only if it would outgrow the stale size |
| `LogSink.ClosedRunIsLost` | client/logsink.go:138-161 | so every fault-free run of writes that fit is lost whole and changes nothing |
| `LogSink.ClosedSinkIsReachable` | client/logsink.go:142-158 | and the sink gets there by one failed reopen |
| `ByocFirewall.Shell.Postup` | scripts/wg-byoc-postup.sh:57-110 | the script, cut after any number of commands and with any failing deletes, leaves the list its command program specifies |
| `ByocFirewall.Shell.Postdown` | scripts/wg-byoc-postdown.sh:30-66 | the same for postdown |
| `ByocFirewall.Shell.DeleteRule` | scripts/wg-byoc-postup.sh:59-59 | scanning for the first equal rule and removing it is the recursive first-match delete |
| `ByocFirewall.PostupNormalForm` | scripts/wg-byoc-postup.sh:78-108 | a completed run leaves the three drops, the user rules in order, and the four bottom rules, from any list with no managed rule twice |
| `ByocFirewall.PostupNormalFormIff` | scripts/wg-byoc-postup.sh:57-108 | from any list and with any deletes failing, that list is reached if and only if no managed rule was present twice, nor once when its delete failed |
| `ByocFirewall.HistoryKeepsUsers` | scripts/wg-byoc-postup.sh:57-108 | no history of complete or cut runs of both scripts, with any deletes failing, changes the user rules or their order |
| `ByocFirewall.HistoryKeepsTidy` | scripts/wg-byoc-postup.sh:57-67 | over every history of complete and cut runs with any deletes failing, each managed rule is present at most once at every moment if and only if no run adds a rule right after losing the delete of a present one |
| `ByocFirewall.RerunConverges` | scripts/wg-byoc-postup.sh:57-67 | after any history in which nothing piled up a completed postup reaches one and the same list: idempotent and safe to re-run after an interruption anywhere |
| `ByocFirewall.PostdownRestoresIff` | scripts/wg-byoc-postdown.sh:30-64 | from any list and with any deletes failing, a completed postdown leaves exactly the user rules if and only if no managed rule was present twice, nor once when its delete failed |
| `ByocFirewall.PostdownRestores` | scripts/wg-byoc-postdown.sh:34-64 | after any history in which nothing piled up, a completed postdown leaves exactly the original user rules |
| `ByocFirewall.LostDeletePilesUp` | scripts/wg-byoc-postup.sh:57-67 | a re-run that loses its first delete leaves a rule twice, and no later faultless postup or postdown gets rid of both |
| `ByocFirewall.PostupVerdicts` | scripts/wg-byoc-postup.sh:78-108 | the normal form gives every packet the promised verdict: isolation first, then user rules, then scenario access, then default deny |
| `ByocFirewall.NetworkSpans` | scripts/wg-byoc-postup.sh:45-53 | the configured networks are the address ranges 192.168.1.0-255, 10.130.0.0-10.130.255.255 and 10.128.0.0-10.255.255.255 |
| `ByocFirewall.PostupMeaning` | scripts/wg-byoc-postup.sh:78-108 | so does a completed postup after any history in which nothing piled up, and a packet not touching the tunnel keeps the verdict it had before |
| `ByocFirewall.IsolationAlways` | scripts/wg-byoc-postup.sh:78-86 | from any list, duplicates included, and with any deletes failing, a completed postup drops peer-to-peer and management traffic |
| `KillSwitch.Client.Install` | client/killswitch_linux.go:70-115 | the command sequence under any faults and a crash anywhere is the specified run |
| `KillSwitch.Client.Teardown` | client/killswitch_linux.go:119-125 | the same for teardown |
| `KillSwitch.Client.Recover` | client/killswitch_linux.go:55-60 | the same for start-up recovery, which acts only when the marker exists |
| `KillSwitch.HistoryKeepsSafe` | client/killswitch_linux.go:55-125 | at every step of every history of installs, teardowns, recoveries, faults and crashes a jump leads only to scenario drops, and user rules keep their order |
| `KillSwitch.OtherTrafficUntouched` | client/killswitch_linux.go:81-91 | in all those states every packet not both bound for 10.128.0.0-10.255.255.255 and leaving off-tunnel has exactly the fate the user's rules give it |
| `KillSwitch.InstallProtects` | client/killswitch_linux.go:76-106 | after a completed install from any state a packet to 10.128.0.0-10.255.255.255 leaving by another interface is dropped whatever the user rules say |
| `KillSwitch.InstallCompletes` | client/killswitch_linux.go:70-115 | an install in which no command is refused completes from any state an earlier run left |
| `KillSwitch.InstallEnds` | client/killswitch_linux.go:70-115 | an install completes exactly when it does not crash and neither chain, rule nor jump is refused, and fails exactly at those refusals; a refused delete or marker does not count |
| `KillSwitch.InstallResult` | client/killswitch_linux.go:70-115 | a completed install leaves exactly one drop in the chain and the jump on top, however many optional steps failed |
| `KillSwitch.InstallJumps` | client/killswitch_linux.go:76-106 | the number of jumps after an install that completed, was refused or crashed anywhere |
| `KillSwitch.InstallUniqueIff` | client/killswitch_linux.go:101-106 | a completed install leaves at most one jump if and only if there was none, or one and its delete worked |
| `KillSwitch.HistoryKeepsUnique` | client/killswitch_linux.go:53-125 | in every history with any failures and crashes, every state between and inside program runs has at most one jump if and only if no install inserts its jump right after losing the delete of a present one |
| `KillSwitch.LostDeletePilesUp` | client/killswitch_linux.go:101-106 | a second install whose delete is refused leaves two jumps |
| `KillSwitch.TeardownRestores` | client/killswitch_linux.go:119-125 | a teardown leaves exactly the user's rules if and only if its one delete could clear every jump |
| `KillSwitch.TeardownRemovesChain` | client/killswitch_linux.go:119-125 | the private chain goes exactly when no jump is left and it could be emptied and deleted, the marker exactly when it could be removed |
| `KillSwitch.RecoverRestores` | client/killswitch_linux.go:53-60 | recovery from any state, with any failures and crashes, leaves exactly the user's rules if and only if no jump is there, or marker, working delete and a single jump |
| `KillSwitch.RecoverMarker` | client/killswitch_linux.go:55-60 | a recovery leaves the marker exactly when both its removals fail |
| `KillSwitch.RecoverAfterHistory` | client/killswitch_linux.go:53-60 | after any history without such a pile-up, a recovery whose delete works restores the original rules if and only if the marker exists or no jump is left |
| `KillSwitch.CrashBeforeMarkerStaysArmed` | client/killswitch_linux.go:104-112 | a crash between jump and marker is not recovered |
| `NetworkProfile.Validate` | client/network_profile.go:73-116 | accepts exactly the profiles safe in terms of the addresses covered, and otherwise names the first failing check |
| `NetworkProfile.CheckRoutes` | client/network_profile.go:83-111 | the early-exit loop finds the first route that is unauthorized or repeated, if there is one |
| `NetworkProfile.RouteChecked` | client/network_profile.go:86-110 | the tests on masked text, length and base decide whether all covered addresses are authorized |
| `NetworkProfile.NestedIff` | client/network_profile.go:96-96 | longer prefix with its base inside is the same as covering nothing outside |
| `NetworkProfile.HostIff` | client/network_profile.go:100-104 | a prefix covers a single address exactly when it is that address's /32 |
| `NetworkProfile.CanonicalIsMasked` | client/network_profile.go:87-87 | equal to its masked form exactly when its base is the least address covered |
| `NetworkProfile.SafeStaysInRange` | client/network_profile.go:80-110 | a safe profile routes only addresses of 10.128.0.0/16 and 10.130.50.0/24 |
| `NetworkProfile.ResolverOnce` | client/network_profile.go:99-107 | the resolver's /32 occurs exactly once, as the resolver route |
| `NetworkProfile.SafeCoversFew` | client/network_profile.go:77-112 | a safe profile routes at most 65536 + 63 addresses |
| `RouteSync.Adapter.Reconcile` | client/tun_config_linux.go:39-60 | withdrawals first, then additions up to the first refusal, for every map order and every fault, and what may be installed after each single command |
| `RouteSync.Adapter.Configure` | client/tun_config_linux.go:25-32 | all routes of the first profile, or an error with only routes of that profile added |
| `RouteSync.Adapter.ConfigureWithRetries` | client/tun_config_windows.go:66-139 | succeeds exactly when one of 15 attempts goes through after none but not-ready attempts, and then all routes are installed |
| `RouteSync.Adapter.Teardown` | client/tun_config_linux.go:85-92 | the current profile's routes are deleted as far as that works, and taking the link down drops every other |
| `RouteSync.Start` | client/main.go:718-847 | the client begins exactly when the profile is safe, its routes could be installed and the resolver set; it then has exactly its routes besides leftovers, and installs no other route at any point |
| `RouteSync.Poll` | client/main.go:914-928 | one poll keeps the old profile in force unless the new one is safe, different and fully reconciled, and after every single command the routes are between those of the two |
| `RouteSync.ComesIntoForceIff` | client/main.go:914-928 | a safe profile differing in anything comes into force if and only if no route it brings is refused and the resolver can be set |
| `RouteSync.InstalledIsVouched` | client/network_profile.go:61-70 | at every moment of every run, also between the commands of a reconcile, whatever fails, each installed route is a leftover or comes from a safe profile the client was given by then |
| `RouteSync.InstalledStaysInRange` | client/main.go:914-928 | so at no moment does the client route an address outside the two approved ranges |
| `RouteSync.DriftBound` | client/main.go:914-928 | from a synchronised state, after any ticks that brought no new profile into force, failing withdrawals included, the kernel has all routes shared by the current profile and the targets, and none outside their union |
| `RouteSync.SameTargetConverges` | client/main.go:914-928 | after failed tries toward one and the same target, whatever failed in them, the first success leaves exactly its routes if and only if none of the stray routes it had to withdraw got stuck |
| `RouteSync.ConvergesIff` | client/tun_config_linux.go:39-60 | a successful reconcile leaves exactly the new routes if and only if nothing stray was installed and nothing kept was missing |
| `RouteSync.TryNarrowsIff` | client/tun_config_linux.go:42-58 | a first try from a synchronised state, failed or not, leaves only routes of the new profile if and only if no route it had to withdraw got stuck |
| `RouteSync.FailedTryNarrows` | client/tun_config_linux.go:42-58 | so a failed first try whose withdrawals all work leaves only routes of the new profile |
| `RouteSync.ChangedTargetDiverges` | client/main.go:920-927 | from a synchronised state, a failed poll toward one safe profile and a faultless success toward another leave a stray route and miss one, for any profiles of the given route sets |
| `RouteSync.DivergingProfiles` | client/main.go:920-927 | the validator accepts three profiles with which that happens |
| `Pairing.PairPoll` | client/pair.go:226-327 | for any server, network and clock the loop ends with the specified exit, time, last counter and largest counter |
| `Pairing.ExitIff` | client/pair.go:238-326 | for every server the poll ends with an exit if and only if a lap it reaches meets its condition: claimed by a decodable 200, cancelled by a 410, expired by a 404, and so for all seven |
| `Pairing.LapsBefore` | client/pair.go:238-326 | every lap before the last was in time and met a pending or a retryable answer |
| `Pairing.CounterCounts` | client/pair.go:253-319 | the counter is the number of retryable answers since the last pending one |
| `Pairing.PollSpacing` | client/pair.go:61-66 | the next request leaves 2 s after a pending answer and min(2 s * 2^(n-1), 30 s) after the n-th failure in a row |
| `Pairing.PairPollByDefault` | client/pair.go:61-67 | with the real constants the loop's counter never passed 24 and the budget exits are not taken |
| `Pairing.BackoffAsDocumented` | client/pair.go:346-361 | the shift cut off at six places equals the documented min(2 s * 2^(n-1), 30 s) for every n |
| `Pairing.CounterBasics` | client/pair.go:254-318 | the counter never passes its limit, and the budget exit is taken exactly when it gets there |
| `Pairing.CounterReachableIff` | client/pair.go:235-319 | for any constants some server drives the counter to n if and only if n-1 backoffs fit into the wall clock |
| `Pairing.BudgetReachableIff` | client/pair.go:235-263 | for any constants some server exhausts the budget if and only if the backoffs before the last failure fit into the wall clock |
| `Pairing.BudgetNeverExhausted` | client/pair.go:253-258 | with the real constants no server does |
| `Pairing.CounterAtMost24` | client/pair.go:306-319 | with the real constants, against every server, the counter is at most 24 at every lap, also before a reset |
| `Pairing.CounterReaches24` | client/pair.go:306-319 | and some server drives it to exactly 24 |
| `Pairing.PollEndsInTime` | client/pair.go:235-250 | the poll ends within the wall clock plus one request, one backoff and one late wake-up |
| `Shovel.StepKeepsInv` | client/main.go:174-340 | every atomic step of every goroutine, including readers of ended sessions, keeps the whole invariant |
| `Shovel.DatagramsConserved` | client/main.go:268-297 | over every run datagrams read are frames written plus those in readers' hands plus those lost, and no more are lost than sessions ended |
| `Shovel.FramesAreArrivals` | client/main.go:268-297 | frames are arrivals unchanged and in arrival order, missing at most one per session, the last its reader took |
| `Shovel.ForwardsDatagram` | client/main.go:268-297 | in an open session the reader forwards each datagram it takes, unchanged, and is ready for the next, however many went before |
| `Shovel.ForwardsStream` | client/main.go:268-297 | so a stream of datagrams of any length is forwarded whole and in order |
| `Shovel.OnlyFailedSendLoses` | client/main.go:268-336 | a reader loses a datagram only in a failing write, a frame is skipped only after thirty seconds without a peer address |
| `Shovel.StaleReaderTakesOne` | client/main.go:272-294 | the reader of an ended session takes one more datagram, writes nothing and is gone with it |
| `Shovel.RepliesAreContiguous` | client/main.go:299-336 | a session's replies are a contiguous in-order run of its received frames, all dropped ones coming before, and go to the source of the first datagram its reader took |
| `Shovel.DeliversFrame` | client/main.go:299-336 | a frame received when the peer address is known is delivered to it, and the reader goes on |
| `Shovel.DeliversWaitingFrame` | client/main.go:314-336 | a frame received before is held and delivered to the source of the first datagram |
| `Shovel.WaitingEnds` | client/main.go:314-323 | a held frame can always be given up, after which reading goes on, or be abandoned once the session is cancelled |
| `Shovel.FailuresEnd` | client/main.go:273-328 | a failure ends the goroutine that meets it and cancels the session |
| `Shovel.EndingCancels` | client/main.go:270-336 | every end of a reader or returner cancels its session, and ended goroutines stay ended |
| `Shovel.Reconnects` | client/main.go:90-135 | a cancelled session returns and a fresh one opens, losing no arrival or frame |
| `Shovel.CountersCount` | client/main.go:286-334 | frame and byte counters of both directions count exactly the successful writes, but for the one frame written and not yet marked |
| `Shovel.PeerIsFixed` | client/main.go:264-285 | a peer address once known never changes |
| `ServerTunnel.EffectKeepsInv` | server/main.go:167-313 | every step of a tunnel's goroutines keeps the once-only close consistent, and after the close brings the part it belongs to, workers and handler or statistics loop, strictly closer to its end |
| `ServerTunnel.ActiveConnsExact` | server/main.go:85-192 | over all interleavings of all tunnels the count is opened minus decremented, never negative, and each close body runs at most once, exactly once before any caller gets past it |
| `ServerTunnel.RelaysFaithfully` | server/main.go:240-312 | in every run each tunnel's datagrams are the binary frames it read and its frames the datagrams it read, unchanged and in order, at most the last one missing |
| `ServerTunnel.RelaysFrame` | server/main.go:241-257 | a binary frame read while the UDP socket is open can be and is passed on |
| `ServerTunnel.DropsOtherFrames` | server/main.go:248-251 | any other frame is read and nothing else happens |
| `ServerTunnel.RelaysDatagram` | server/main.go:272-311 | a datagram read while both sockets are open can be and is passed on |
| `ServerTunnel.KeepsGoing` | server/main.go:203-291 | a read timeout and a ping that gets through leave the tunnel as it was |
| `ServerTunnel.FinitelyManyStepsAfterClose` | server/main.go:167-364 | once a close has run, the workers and the handler take at most their rank more steps in every schedule, and the statistics loop at most its rank plus one for each further tick |
| `ServerTunnel.StepsTogether` | server/main.go:167-364 | all goroutines together take at most the whole rank plus the ticks |
| `ServerTunnel.ClosedTunnelNeverBlocks` | server/main.go:167-364 | in a closed tunnel every goroutine that has not ended, the statistics loop and the waiting handler included, can take a step towards its end |
| `PongDeadline.ReadLoop` | server/main.go:224-259 | the loop ends, at the deadline then in force, exactly when that passes before the next event or with no further event |
| `PongDeadline.EndIsUnique` | server/main.go:224-259 | the loop has at most one possible end, so the deadline it reports is determined |
| `PongDeadline.LiveConnectionNeverExpires` | server/main.go:231-238 | a connection answering within the bounds is never closed by its deadline, whatever other frames come or fail to come |
| `PongDeadline.SafeIff` | server/main.go:231-238 | no connection answering within a delay expires if and only if interval + delay and skew + delay each fit into the timeout, or, when unsolicited pongs are allowed, all three together |
| `PongDeadline.SilentConnectionExpires` | server/main.go:231-245 | when pongs stop the loop ends no later than the timeout after the last one, or interval plus timeout after the start, and exactly then if it got that far, whatever other frames come |
| `DataPlane.Metrics.MarkUp` | client/observability.go:61-66 | counts one frame and fixes the first time once |
| `DataPlane.Metrics.MarkDown` | client/observability.go:72-77 | the same for the other direction |
| `DataPlane.Watch` | client/main.go:200-216 | the watcher's log over a whole session is the specified sequence of changes |
| `DataPlane.LogClimbs` | client/observability.go:79-96 | with a clock that does not go back every logged state ranks above the one before |
| `DataPlane.CountersAdd` | client/observability.go:61-77 | over a session the counters are the number of frames and the sum of their bytes, each direction apart |
| `DataPlane.ObservedIff` | client/observability.go:81-96 | what a poll observes, as an if-and-only-if for each state over the session's frames and the age of the first outbound one |
| `DataPlane.LoggedStates` | client/main.go:200-216 | NO_RETURN is logged if and only if a poll comes more than 90 s after the first outbound frame with none returned, BIDIRECTIONAL if and only if one comes after frames both ways |
| `DataPlane.AtMostFourTransitions` | client/main.go:200-216 | a session logs at most four transitions |
| `DataPlane.SilenceIsReported` | client/main.go:200-216 | over a whole session with no return frame until then, the watcher's log holds NO_RETURN by a poll within 90 s plus one 5 s interval of the first outbound frame |
| `Sanitizer.SanitizeReason` | client/observability.go:174-194 | the loop with its early exit yields the encoding of the longest fitting neutralized text, or "nil" |
| `Sanitizer.DecodeEncode` | client/observability.go:179-191 | decoding an encoded rune in front of any bytes gives back that rune and its length |
| `Sanitizer.RunesEncode` | client/observability.go:179-191 | encoding any runes gives valid UTF-8 that decodes to the same runes |
| `Sanitizer.EncodeRunes` | client/observability.go:179-191 | encoding the runes of valid UTF-8 gives the same bytes |
| `Sanitizer.FittingIsLongest` | client/observability.go:184-186 | stopping at the first rune that does not fit keeps the longest prefix within the bound |
| `Sanitizer.SanitizedMeaning` | client/observability.go:168-194 | for any bytes the output is valid UTF-8, at most 160 bytes, free of control characters, and the longest fitting prefix of the neutralized runes |
| `Sanitizer.SanitizedRunes` | client/observability.go:168-197 | rune for rune the output is the text with 0x00-0x1F and 0x7F as spaces, cut where the next rune would pass 160 bytes |
| `Sanitizer.StrayByteIsReplaced` | client/observability.go:179-179 | a stray byte inside a text is read as U+FFFD and nothing around it changes |
| `Sanitizer.SanitizedKeepsClean` | client/observability.go:174-194 | clean valid UTF-8 that fits is left alone |
| `Sanitizer.SanitizedTwice` | client/observability.go:174-194 | a second sanitizing changes nothing |
| `ConfigFile.Disk.Save` | client/config.go:118-166 | succeeds exactly when every call that matters works; success leaves the whole new file, an error the old one, and a stop anywhere one of the two |
| `ConfigFile.Disk.Wipe` | client/config.go:171-187 | succeeds exactly when the file is absent or could be found and removed; a stop anywhere leaves it gone or with a leading part zeroed, a failing removal after a full overwrite all zeros |
| `ConfigFile.LoadsLastCompleted` | client/config.go:95-166 | a start after a completed save loads what was saved, after a completed wipe nothing |
| `ConfigFile.HistoryWholesome` | client/config.go:116-187 | after any history of completed, failed and stopped saves and wipes the file is absent, or a text no later attempt replaced or removed by completing, with a leading part zeroed |
| `ConfigFile.LoadsIntendedOrNone` | client/config.go:95-187 | a start after any such history loads none or such a text whole, never one that a completed save replaced or a completed wipe removed |

## Left out

- HTTP, JSON, DNS, TLS, WebSocket framing, WireGuard, wintun and key generation are foreign code; their outcomes are parameters.
- The text of a route is modelled after parsing (malformed, IPv6, or an IPv4 prefix); the parser accepts one spelling of each IPv4 prefix, so sets of texts and sets of prefixes agree.
- The legacy MASQUERADE deletes of both scripts act on another table and add nothing to the FORWARD claims.
- LogSink.RunKeepsOrder: assumes keep is at least 1, as the program's constant of 3 is; with keep 0 the removed slot and the destination of the live file differ.
- PongDeadline.ReadLoop: that a blocked read returns at its deadline is the network library's part.
- Shovel: goroutines interleave at their atomic steps; the unsynchronised access to the peer address is taken as atomic, the 60-second statistics lines, keepalive pings and the writer lock are not modelled.
- ServerTunnel: writes to the server's WebSocket are atomic steps; nothing is claimed about two goroutines writing at once, nor about the order of the connected and disconnected callbacks.
- ServerTunnel.FinitelyManyStepsAfterClose: bounds the statistics loop only up to further ticks of its timer, because its select may prefer a ready tick to the closed channel.
- RouteSync: the address, link and resolver commands appear only as succeeding or failing; the on-link /16 that comes with the address is not a profile route.
- The Windows kill switch and the trust-store clean-up are short command sequences around opaque system state.
- PID-lock exclusion does not hold under overlapping start-ups in the source, so no claim is made.
- ConfigFile: renaming is atomic and directory entries are durable; file modes are not modelled.
- Banner, browser, usage text, arguments, heartbeat, revocation decisions, session-id shape and the reason box are small or single-branch.
