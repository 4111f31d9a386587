# A model of the Solana Gun QUIC client

The client keeps one authenticated QUIC connection, shared by every clone of its handle. Sends run
concurrently over it; when one fails because the connection is gone, it takes a lock, checks by
pointer identity that nobody has replaced the connection meanwhile, dials again with jittered
backoff, publishes the new connection and sends once more. The client can also choose its endpoint
itself: fetch a list, probe all of it, connect to the fastest, and fall back to a static endpoint.
This project models that behaviour in Dafny and proves what it promises.

**The shared connection** (`ArcHeap`, `Protocol*`). A labelled step system over any number of sends:
read lock, first attempt, close on timeout, mutex, re-check, dial loop, write lock, publish, second
attempt. The network decides every send and dial, connections die at any time, and a send's future
may be dropped at any await. An `Arc` is an address in a reference-counted heap, and an address is
handed out again as soon as its count is zero, so the pointer comparison is a real ABA question. Each
task also records history (the generation behind each Arc when it was cloned, its attempts, its
dials); no step reads that history except to report it. The invariant is split into locks
(`ProtocolLocks`), ownership (`ProtocolHeap`), generations (`ProtocolGens`) and history
(`ProtocolHistory`), each kept by every step (`ProtocolInvariant`). On top of it stand safety
(`ProtocolSafety`), the refinement of one atomic compare-and-replace (`ProtocolRefinement`),
progress, termination and cost (`ProtocolLiveness`), single flight (`ProtocolSingleFlight`) and time
(`ProtocolTiming`: runs in which streams, dials and sleeps take time and everything else happens at
once; no send is under way for longer than a stated bound, which grows with the number of sends).

**The dial loop** (`Durations`, `Backoff`, `ReconnectLoop`, `ReconnectTiming`, `SendCall`,
`ScriptVerdict`, `Rejections`, `Client`). The loop is a method of a class whose fields it updates; it is proved equal to
a fold over the observed dials, which is proved equal to a closed description of the verdict, for every
trace. The protocol's dialing tasks obey the same fold. Time is a ghost clock in nanoseconds. `SendCall` says what one whole send returns
and how long it takes, and which time limits a caller may rely on. `ScriptVerdict` states the result
of a reconnect in terms of the dials as the network answers them, without reference to the loop.
`Rejections` follows a server's close code through dial, handshake and loop.

**Discovery and probing** (`Discovery`, `FanOut`, `Selection`, `Probing`, `AddressProbe`,
`EndpointProbe`). The list filter, the sixteen-permit fan-out over every schedule, the two collection
loops over every join order, and their composition: the endpoint chosen owns the fastest answer of all.

**Text and the fallback chain** (`HostPort`, `Handshake`, `Errors`, `AutoConnect`).

Proofs hide definitions they do not use (`hide`), which only keeps the solver's context small.

## Where code and documentation differ

The model follows the code.

- The README of the client calls `send_timeout` a per-send budget. The code applies it to each of the
  two attempts (`src/client.rs:177`, `src/client.rs:184`) and to nothing between them. It bounds every
  call exactly when reconnecting is disabled (`SendCall.TimeoutBoundsCallIff`); otherwise a send whose
  first attempt times out, whose dial connects at once and whose second attempt takes a nanosecond
  exceeds it (`SendCall.SendOutlastsTimeout`). What holds instead is `SendCall.CallIsBounded`, 141.3 s
  by default (`SendCall.DefaultCall`), and that bound is reached (`SendCall.BoundIsReached`).
- The same README says that on a timeout the connection is closed. It is closed exactly when the
  timeout is about to be retried, so not when reconnecting is disabled (`src/client.rs:179-182`,
  `Client.SolanaGunQuicClient.SendTransactionBytes`).
- The README says an unauthorized token is reported at once. A rejection is terminal only if the close
  is noticed while opening the stream or reading the reply; noticed while the handshake line is being
  written it becomes an I/O error, which is retried (`Errors.CloseIsTerminalIff`,
  `Errors.RejectionDuringWriteIsRetried`; for the loop as a whole `Rejections.FinalErrorIff`).
- `probe_addrs` says it returns the first address's error on total failure. It returns the error of
  the lowest-indexed address whose task did not panic (`AddressProbe.ProbeAddrs`), which is the first
  address's own exactly when that one's task did not panic (`AddressProbe.FirstAddressErrorIff`, with
  the failing input in `AddressProbe.SecondAddressSpeaks`).
- The outcome of `probe_all` can depend on the schedule, through the order of panicked tasks in the
  failure list; `Probing.ScheduleIndependentIff` says exactly when. Likewise the address chosen by
  `probe_addrs`, when two addresses tie: `AddressProbe.AddressOrderFreeIff`.

## Model

| member | source | states |
|---|---|---|
| ArcHeap.AllocKeeps | src/client.rs:215 | a new Arc may take any free address, used before or not; counts stay exact and other holders are unaffected |
| ArcHeap.CloneKeeps | src/client.rs:176 | cloning an Arc keeps every count exact and gives the new variable the same generation |
| ArcHeap.ReleaseKeeps | src/client.rs:191-198 | dropping an Arc never changes what another holder sees, though it may free the address |
| ArcHeap.MoveKeeps | src/client.rs:216 | moving an Arc into the shared slot changes no count |
| ArcHeap.FreedIffLast | src/client.rs:216 | an allocation is freed by a drop exactly when no other variable sees its generation |
| ArcHeap.PtrEqIsGenEq | src/client.rs:195 | between two held Arcs, equal addresses mean equal generations and conversely |
| ArcHeap.UnheldAddressReturns | src/client.rs:191-196 | a remembered address that is not held can come back with another generation, so holding the stale Arc is what makes the check sound |
| ProtocolLocks.LockStepKeeps | src/client.rs:192-216 | if locks and program counter of the moving send change together, locks stay exactly what all program counters say and a writer excludes readers; that every step is such a move is part of StepKeepsInv |
| ProtocolHeap.HeapStepKeeps | src/client.rs:171-218 | if a move touches only the mover's Arcs and the shared slot, every variable still holds exactly the Arc it should; that every step is such a move is part of StepKeepsInv |
| ProtocolHeap.LeaveCloses | src/client.rs:214-218 | giving up a dialed but unpublished connection closes it |
| ProtocolGens.GenStepKeeps | src/client.rs:176-218 | if only the mutex holder raises the current generation, the order of stale, renewed and current generations and the death of failed connections survive for all other sends; that every step is such a move is part of StepKeepsInv |
| ProtocolHistory.HistoryFrame | src/client.rs:171-188 | a move of one send leaves the history of every other send intact |
| ProtocolInvariant.StepKeepsInv | src/client.rs:171-235 | the whole invariant is kept by every step of every send, by cancellation and by dying connections |
| ProtocolInvariant.RunInv | src/client.rs:171-235 | the invariant holds in every state of every run |
| ProtocolSafety.PointerCheckIsExact | src/client.rs:193-198 | at the comparison, `Arc::ptr_eq` holds exactly when the failed connection is still the current generation |
| ProtocolSafety.HeldAddressesAreGenerations | src/client.rs:176-196 | no ABA: two sends hold one address exactly when they read one generation, in every reachable state |
| ProtocolSafety.OneLiveConnection | src/client.rs:176-218 | at most one connection is alive in every reachable state, cancellations included |
| ProtocolSafety.EverySupersededConnectionIsDead | src/client.rs:179-183 | a replaced connection is dead, since a timeout closes it before the lock is requested |
| ProtocolSafety.QuiescenceIsClean | src/client.rs:171-235 | when all sends are over no lock is held and exactly one Arc, with count one, is left |
| ProtocolSafety.SendContract | src/client.rs:171-188 | at most two attempts, the second on a strictly later connection and only after a reconnectable failure; success exactly when the last attempt succeeded; otherwise the loop's error |
| ProtocolSafety.AttemptsPerSend | src/client.rs:171-188 | for every send in every reachable state, cancelled or not: at most two attempts, the second on a strictly later connection; a second attempt or a dial only after a reconnectable failure of the first |
| ProtocolSafety.RetriedIff | src/client.rs:171-188 | a completed send was retried exactly when its payload is at most 4096 bytes, reconnecting is enabled and its first attempt timed out or reported the connection lost, on opening or on writing the stream; otherwise nothing was dialed and the first result stands |
| ProtocolSafety.EnvironmentIsFree | src/client.rs:171-235 | the network may answer any stream and dial in any way, any await may be the last, any connection may die |
| ProtocolSafety.DeathHasCause | src/client.rs:179-183 | a connection ends by itself, because a send that timed out on it is about to be retried, or because nobody holds it; never for a timeout that is not retried |
| ProtocolSafety.BirthIsDial | src/client.rs:214-217 | a connection comes to life exactly by a dial that connects |
| ProtocolSafety.DialsPerSend | src/client.rs:223-231 | no send dials more often than the policy allows, cancelled sends included |
| ProtocolSafety.StoppedStreamNeverReconnects | src/client.rs:393-403 | a stream the server stopped is neither retried nor redialed |
| ProtocolSafety.SleepsFollowSchedule | src/client.rs:232-233 | in every run, the sleep after dial k is drawn from min(initial * 2^(k-1), max) |
| ProtocolRefinement.StepRefines | src/client.rs:191-218 | every step is a step of the atomic operation "if current is stale, replace it; return the current one", or a stutter |
| ProtocolRefinement.RunRefines | src/client.rs:191-218 | every run is a run of that specification; the negative comparison and the publish are its linearization points |
| ProtocolRefinement.StaleStaysCurrentUntilPublish | src/client.rs:195-217 | from the positive check to the publish the stale connection stays current and nobody else is in the critical section |
| ProtocolLiveness.SomeSendAdvances | src/client.rs:171-235 | no deadlock: while a send is unfinished, some send can advance |
| ProtocolLiveness.StepLowersMeasure | src/client.rs:171-235 | with a finite retry limit every step lowers one natural-number measure |
| ProtocolLiveness.RunsAreBounded | src/client.rs:202-234 | a bound on the length of every run, from the number of sends and the limit |
| ProtocolLiveness.MaximalRunsFinish | src/client.rs:171-235 | a run no send can extend is one in which every send has finished |
| ProtocolLiveness.RunDialsBounded | src/client.rs:202-231 | a whole run dials at most sends times max(1, max_attempts) |
| ProtocolSingleFlight.ReplacementIsPublish | src/client.rs:214-217 | the current connection changes only by a publish whose publisher first failed on it |
| ProtocolSingleFlight.ReplacedAtMostOnce | src/client.rs:192-218 | no generation is replaced twice |
| ProtocolSingleFlight.ReplacementNeedsFailure | src/client.rs:177-183 | before a generation is replaced, some send's first attempt on it failed reconnectably in the same run |
| ProtocolSingleFlight.NoDialAfterReplacement | src/client.rs:192-198 | after a replacement nobody queued on the old generation dials |
| ProtocolSingleFlight.ReplacementsBounded | src/client.rs:177-218 | replacements never outnumber the distinct generations that failed a sender |
| ProtocolTiming.OwnTimeBounded | src/client.rs:171-235 | in every timed run a send streams for at most two send timeouts and dials and sleeps for at most one reconnect budget, cancelled or not |
| ProtocolTiming.WaitingMeansHolderWorks | src/client.rs:192-218 | when time passes, a send that is neither streaming nor dialing is queued for the reconnect lock, whose holder is dialing or sleeping |
| ProtocolTiming.TimeIsAccountedFor | src/client.rs:171-235 | the time a send is under way is its streams, its own loop and its queueing, and the queueing is covered by the loops of others |
| ProtocolTiming.QueueingIsBounded | src/client.rs:192 | waiting for the lock takes at most one budget for each other send, without any fairness |
| ProtocolTiming.SendsAreTimely | src/client.rs:171-235 | with a retry limit no send of a timed run is under way for longer than two send timeouts plus one budget per send of the run |
| Durations.OrderIsTotal | src/client.rs:376 | comparing seconds, then nanoseconds, is comparing lengths |
| Durations.SaturatingDouble | src/client.rs:376 | carrying, saturating doubling is min(2t, longest) for every duration |
| Durations.Half | src/client.rs:380 | halving with carry is division by two, rounded down |
| Durations.Scale | src/client.rs:381 | scaling by a factor in [0, 1] is exact to half a nanosecond and never lengthens |
| Backoff.NextBackoff | src/client.rs:375-377 | min(2t, max) over unbounded naturals, for every input |
| Backoff.ApplyJitter | src/client.rs:379-382 | the jittered delay lies between half the delay and the delay, for any random unit |
| Backoff.JitterIsEqual | src/client.rs:379-382 | for a unit in [0, 1] the delay is half the base plus that share of the other half, to half a nanosecond |
| Backoff.DelayIsCappedPower | src/client.rs:200-233 | the k-th delay is exactly min(initial * 2^k, max) |
| Backoff.DelayGrows | src/client.rs:200-233 | delays are positive and never shrink |
| Backoff.DelaySumClosedForm | src/client.rs:232-233 | the delays add up geometrically below the cap and linearly from there |
| ReconnectTiming.ValidatedSchedule | src/config.rs:84-93 | any configuration passing validate gives exactly that schedule |
| ReconnectTiming.SleepsAreJittered | src/client.rs:379-391 | the sleeps of a reconnect lie between the half-delays and the delays |
| ReconnectTiming.DecidedWithinBudget | src/client.rs:199-234 | dials and sleeps of a decided reconnect stay within n timeouts plus n-1 delays |
| ReconnectTiming.BudgetClosedForm | src/client.rs:199-234 | that budget in closed form for any validated policy |
| ReconnectTiming.DefaultBudget | src/config.rs:41-51 | the default policy gives 121.3 s |
| Config.ValidIff | src/config.rs:55-95 | exactly the configurations with non-empty roots, positive durations, keep-alive below idle and initial backoff at most the maximum are accepted |
| Config.RejectionsAreTrue | src/config.rs:55-95 | a rejection names a field that is degenerate |
| Config.DefaultIsValid | src/config.rs:16-51 | the defaults are accepted, with or without a root store of their own |
| ReconnectTiming.DialsMade | src/client.rs:203-231 | the dial that decides the loop is the last one made, and the limit holds |
| ReconnectTiming.Observe | src/client.rs:203-222 | a dial is seen as overdue exactly when it outlasts the timeout, and else keeps its success or its own error |
| ScriptVerdict.FreshIff | src/client.rs:199-218 | in terms of the dials as they were: a reconnect connects exactly when a dial it gets to connects in time |
| ScriptVerdict.FailedIff | src/client.rs:219 | it stops on an error exactly when a dial it gets to fails with that error in time and the error is one of the five final ones |
| ScriptVerdict.ExhaustedIff | src/client.rs:220-231 | it is exhausted exactly when all max(1, n) allowed dials passed, and reports their number and the last one's own error, or a timeout if that came too late |
| ScriptVerdict.SettledAt | src/client.rs:203-222 | the dial that settles a reconnect is the last one made |
| ReconnectLoop.LoopRefinesVerdict | src/client.rs:199-234 | on every trace: the first success or terminal error among the allowed dials, else exhaustion after exactly max(1, n) with the last error, else still going with the k-th delay |
| ReconnectLoop.VerdictIsFinal | src/client.rs:214-231 | once decided, nothing later would change the verdict |
| ReconnectLoop.LimitForcesVerdict | src/client.rs:224-231 | with a limit, that many dials always decide |
| SendCall.FirstAttemptAnswers | src/client.rs:171-187 | a payload above 4096 bytes is refused; a first attempt that does not mean a lost connection, or any with reconnecting disabled, is the answer as it came |
| SendCall.LostConnectionIsRetried | src/client.rs:179-184 | after a timeout or a lost connection, named by its errors, the second attempt answers if the connection was replaced or a dial connects; else the error of the dials does |
| SendCall.StreamFailuresComeBack | src/client.rs:186 | a stopped, closed or rejected stream comes back unchanged and nothing else is tried |
| SendCall.TimeOfCall | src/client.rs:171-188 | a call takes exactly the attempts it makes and, if it dials, its own reconnect |
| SendCall.TimeOfRenewal | src/client.rs:199-234 | a reconnect takes its dials up to the one that settles it, and a sleep after each but the last |
| SendCall.SendOutlastsTimeout | src/client.rs:177-184 | the input on which a successful send takes longer than `send_timeout` |
| SendCall.TimeoutBoundsCallIff | src/client.rs:171-188 | `send_timeout` bounds every finished call if and only if reconnecting is disabled |
| SendCall.CallIsBounded | src/client.rs:171-235 | with a retry limit every call ends, within two send timeouts and one reconnect budget (lock waits apart) |
| SendCall.BoundIsReached | src/client.rs:171-235 | some call takes exactly that long, whenever all delays have exact halves |
| SendCall.DefaultCall | src/config.rs:17-51 | the defaults give 141.3 s, and it is reached |
| Client.SolanaGunQuicClient.Reconnect | src/client.rs:191-235 | returns the current connection if stale was replaced; else the loop's verdict, stated also in terms of the raw dials and their own errors, publishing only on success, dialing only the fixed address, in exactly the time of its dials and sleeps, within budget |
| Client.SolanaGunQuicClient.SendTransactionBytes | src/client.rs:171-188 | the send's result and exact time, whether or not another handle published meanwhile; an adopted connection is used without dialing; the old connection is closed exactly on a retried timeout and replaced exactly on a successful dial |
| Client.ConcurrentSendsMatch | src/client.rs:171-188 | every completed send of every concurrent run, adopters included, returned what the sequential method returns for the same attempts and dials |
| Errors.CodeRoundTrip | src/client.rs:440-448 | each error that names a close code comes from exactly that code, as the documented table assigns them; every code survives the translation |
| Errors.DialSucceedsIff | src/client.rs:284-286 | a dial succeeds exactly when the whole reply is `OK` and a newline |
| Errors.DialErrorMeans | src/client.rs:331-355 | for each error of a failed dial, the events behind it and no others: close codes 1 to 4 by name, other codes, timeouts, write failures, lost connections |
| Errors.TerminalErrors | src/client.rs:408-421 | exactly five errors are final |
| Errors.CloseIsTerminalIff | src/client.rs:408-448 | a server close stops the loop exactly for codes 1, 2, 4 noticed while opening the stream or reading the reply |
| Errors.RejectionDuringWriteIsRetried | src/client.rs:339-341 | a rejection noticed while writing the line is retried |
| Errors.OtherTerminalDials | src/client.rs:415-419 | without a close code only a TLS transport error is terminal |
| Rejections.SeenIsObserved | src/client.rs:203-222 | these events, enacted as dials in or past the connect timeout, are what the reconnect method observes |
| Rejections.ConnectsIff | src/client.rs:214-218 | the loop connects exactly when it gets to a dial the server acknowledged |
| Rejections.FinalErrorIff | src/client.rs:214-220 | the loop returns a final error exactly when it gets to a dial rejected with code 1, 2 or 4 while opening the stream or reading the reply, or broken on TLS; never for code 3 or unknown codes |
| Rejections.TurnedAwayIsLast | src/client.rs:214-220 | a rejected dial is the last one made |
| Rejections.OtherClosesOnlyExhaust | src/client.rs:220-231 | timeouts and closes with other codes only ever exhaust the limit, after exactly that many dials |
| HostPort.ValidPortMeaning | src/client.rs:305-307 | accepted ports: optional plus sign, leading zeros, value in 1..65535 |
| HostPort.DecimalPorts | src/client.rs:305-307 | every number from 1 to 65535 is accepted as it is usually written, with its value, and no other number |
| HostPort.SplitThenJoin | src/client.rs:289-309 | joining an accepted pair in its syntax gives the text back |
| HostPort.JoinThenSplit | src/client.rs:289-309 | a printed pair reads back as itself exactly when host and port fit the syntax |
| HostPort.AcceptedIffPrinted | src/client.rs:289-309 | acceptance is exactly being the print of a well-formed pair, which is unique |
| HostPort.RefusedBecause | src/client.rs:289-309 | each refusal names its cause, in terms of how the address is written |
| HostPort.ExtractedIff | src/client.rs:112-122 | the extracted host is the text up to the first closing bracket or the last colon, whatever follows |
| HostPort.SplittersAgree | src/client.rs:112-122 | the second splitter extracts the same host from every accepted address, and fails only as the first does |
| Handshake.BuildLine | src/client.rs:333-338 | the pushed line is read back as the token, by the grammar spelled out byte by byte, exactly when the token has no newline |
| Handshake.AcceptedTokenLine | src/client.rs:313-338 | for accepted tokens: read back exactly, one newline at the end, one space after the word, at most 219 bytes |
| Handshake.LineIsInjective | src/client.rs:313-338 | different accepted tokens give different lines |
| Handshake.AcceptedIff | src/client.rs:313-329 | exactly the tokens of 1 to 200 ASCII-graphic bytes are accepted |
| Discovery.ParseEndpoints | src/autoconfig.rs:142-165 | the loop yields exactly the trimmed valid entries of the response, each once, in order of first occurrence; or that the body is no list, or that none of so many entries is usable |
| Discovery.TrimCutsOnlySpace | src/autoconfig.rs:151 | trimming takes white space off both ends and nothing else |
| Discovery.SpaceTable | src/autoconfig.rs:151 | white space is the 25 code points of the Unicode property |
| Discovery.FirstsMembers | src/autoconfig.rs:150-158 | nothing invalid is kept, nothing valid is lost |
| Discovery.FirstsDistinct | src/autoconfig.rs:155 | the result has no repeats |
| Discovery.FirstsOfPrefix | src/autoconfig.rs:150-158 | filtering a prefix gives a prefix |
| Discovery.FirstsTwice | src/autoconfig.rs:150-158 | filtering the result again is the identity |
| Selection.SelectBest | src/autoconfig.rs:175-181 | a least entry by (latency, index), the first of several |
| Selection.SortKeeps | src/autoconfig.rs:402 | sorting by index gives a strictly sorted sequence of the same entries |
| Selection.SortPutsMaxLast | src/autoconfig.rs:380-404 | panicked tasks sort behind all others, in join order |
| Probing.ProbeAll | src/autoconfig.rs:374-422 | for every join order: the best success by (latency, index) with its own address and latency; or each failed endpoint with its error in discovery order, then the panics in join order |
| Probing.FastestIsBest | src/autoconfig.rs:174-181 | the selected success is the one minimal by (latency, discovery index), and it is unique |
| Probing.AlongMembers | src/autoconfig.rs:384-400 | the listed entries are exactly the tasks of their kind, each with its own endpoint and result |
| Probing.SortRestoresDiscoveryOrder | src/autoconfig.rs:402-407 | sorting undoes any join order |
| Probing.PanicCount | src/autoconfig.rs:377-383 | every task is accounted for, so the number of panics is order-independent |
| Probing.ScheduleIndependentIff | src/autoconfig.rs:374-422 | the result is the same for all join orders exactly when something succeeded or no two panics differ |
| Probing.EveryScheduleAgrees | src/autoconfig.rs:354-422 | two complete schedules of the fan-out give the same result |
| FanOut.StepKeepsInv | src/autoconfig.rs:359-373 | free permits plus running probes are always sixteen; started and joined tasks are recorded once |
| FanOut.BoundedFanOut | src/autoconfig.rs:183-184 | at most sixteen probes run at any moment, a waiting one may start exactly when fewer do, and the phases always add up to the endpoints |
| FanOut.Progress | src/autoconfig.rs:359-383 | some task can always move until all are joined |
| FanOut.EveryEndpointProbedOnce | src/autoconfig.rs:359-383 | every schedule ends with each endpoint probed once and joined once |
| AddressProbe.ProbeAddrs | src/autoconfig.rs:441-491 | for every join order: a minimal-latency address, else the lowest-indexed error, else task failure |
| AddressProbe.LatencyIsOrderFree | src/autoconfig.rs:467-479 | the latency is order-independent, and so is the address when the minimum is unambiguous |
| AddressProbe.AddressOrderFreeIff | src/autoconfig.rs:467-479 | the address is order-independent exactly then |
| AddressProbe.FirstAddressErrorIff | src/autoconfig.rs:441-491 | on total failure the error is the first address's exactly when its task failed with one |
| AddressProbe.SecondAddressSpeaks | src/autoconfig.rs:470-490 | the input on which the second address's error is returned |
| EndpointProbe.ProbeOneIsFastest | src/autoconfig.rs:425-437 | the probe of a valid endpoint succeeds exactly when an address answers, with a fastest answer; its host split cannot fail |
| EndpointProbe.ProbeOneFails | src/autoconfig.rs:425-437 | each failure of a probe names its cause: lookup, no addresses, the lowest-indexed address error, or panics alone |
| AutoConnect.TryAddrs | src/client.rs:134-149 | the first address that connects, else the last error |
| AutoConnect.ConnectFirst | src/client.rs:134-149 | the loop with `last_err` computes exactly that |
| AutoConnect.ValidAutoIff | src/autoconfig.rs:52-74 | exactly the settings with an https URL, positive timeouts and a valid fallback, if any, are accepted |
| AutoConnect.DialFailureIff | src/client.rs:69-77 | the first dial succeeds on the server's acknowledgement alone; each other outcome has its own error |
| AutoConnect.RootsKeepConfigValid | src/autoconfig.rs:234-242 | resolving system roots fills in exactly the missing store and keeps a valid configuration valid |
| AutoConnect.CheckedConnectTo | src/client.rs:104-150 | after validation, connecting succeeds exactly when the host can be read off the address, the lookup works and some resolved address answers, and uses the first that does; otherwise the cause is named, the last address's failure if all fail |
| AutoConnect.ChecksComeFirst | src/client.rs:69-70 | a configuration or token that does not pass is reported before anything is looked up or dialed |
| AutoConnect.SelectedIsQuickest | src/autoconfig.rs:354-491 | the selected latency is the least over all answering addresses of all usable endpoints |
| AutoConnect.DiscoveredPath | src/autoconfig.rs:244-281 | the host split of the selected endpoint cannot fail; success and failure concern the endpoint with the fastest answer of all, dialed under its own host name |
| AutoConnect.SelectedDecides | src/autoconfig.rs:244-281 | there is one selected endpoint, and the discovered path succeeds exactly when its dial does, else reports that dial's error |
| AutoConnect.FallbackReasons | src/autoconfig.rs:94-107 | each fallback reason is given exactly in its documented case, with its particulars: the count of unusable entries, or every usable endpoint with the cause of its failure |
| AutoConnect.ConnectAutoContract | src/autoconfig.rs:186-230 | it connects exactly when the discovered path succeeded or the fallback can be reached, and Discovered exactly in the first case; an AutoConfig error carries both fallback fields exactly when a fallback is configured, with the exact cause, never a configuration or host error |
| AutoConnect.RootsFailFirst | src/autoconfig.rs:194 | without any usable roots nothing is fetched or dialed and the error is the TLS one |
| AutoConnect.ConfigErrorsAreUpFront | src/autoconfig.rs:191-193 | a configuration error is returned exactly when an up-front check fails, and names the first one that does |

## Assumptions

- A send that reports the connection lost finds it dead, and dropping the last Arc to a connection
  closes it. Both are properties of the QUIC library.
- A failed or overdue dial leaves no live connection behind.
- Jitter: `mul_f64` is exact multiplication rounded to the nearest nanosecond.
- System roots, when they load, are not empty (`src/tls.rs:37-48`).
- Lists have at most `isize::MAX` elements.
- In timed runs, steps that await neither the network nor a timer take no time once they are possible.

## Left out

- `SolanaGunQuicClient::close` (`src/client.rs:238-242`): to the other handles it is a connection dying, which the protocol allows at any time.
- Waiting queues of the mutex and the read-write lock: any waiter may be next, so safety, termination and the time bounds hold without FIFO.
- Finer interleaving inside one synchronous stretch: a send that ends drops its guard and Arcs in one step, and the write guard's assignment and release are one step.
- ProtocolLiveness.RunsAreBounded: claims nothing for `max_attempts = None`, where the loop may run forever; all safety results cover it.
- Client.SolanaGunQuicClient.Reconnect: the dials are a finite script, so a loop that outlives it is reported as still dialing; the overflow of the `u32` attempt counter is not modelled.
- Durations.Scale: does not model IEEE-754 rounding of `as_secs_f64`, only exact arithmetic.
- SendCall.CallIsBounded: one call without its waiting for locks, which `ProtocolTiming.SendsAreTimely` includes.
- ProtocolTiming.SendsAreTimely: sleeps are bounded by the delay they are drawn from, not by the exact jittered value.
- The HTTPS request, JSON decoding, TLS and QUIC internals, DNS and sockets: oracles.
- Texts of error messages, `Display`, logging, token zeroisation: errors are constructors, not strings.
