# Llama application-master bookkeeping and CDH installer helpers, in Dafny

This project models two codebases from the Cloudera repository and proves properties of the model.

**The Llama application master (Java).** These are the layers that sit between a client and the resource manager:

- the life-cycle guard (`APIContractLlamaAM`);
- the per-queue router (`MultiQueueLlamaAM`);
- the expansion cross-reference (`ExpansionReservationsLlamaAM`);
- the gang anti-deadlock layer with its back-off and re-reserve rules (`GangAntiDeadlockLlamaAM`);
- the value objects and builders of reservations (`Reservation`, `PlacedResource`, `PlacedReservation`, `PlacedReservationImpl`);
- the Thrift wire conversions (`TypeUtils`);
- the REST view's registry of reservations, with its three secondary indexes, summaries and cross references (`RestData`);
- the client notifier's heartbeat and retry policy (`ClientNotifier`).

Classes whose fields change in place are Dafny classes with `modifies` clauses. Their methods state the whole new state. Everything a class calls into becomes a call log plus parameters: the wrapped application master, the resource-manager delegates, the clock, random draws, the delay queue and the Thrift client. Reservations stored in maps are values.

**The CDH installer and build helpers (Python 2).**

- the `ToolInstall` base class;
- the user-environment map (`env.py`);
- the address recognisers (`dnsregex.py`);
- the configure steps of the Hive, Hadoop and LogMover components;
- the branch and version logic of `tools/cdh_lib.py`;
- the Debian source-package file set of `ec2_build/bin/deb_util.py`.

Regular expressions are modelled by matcher functions that compute where Python's `re.match` stops. Each is proved equal to a declarative description of its language. The shell, git, the file system and the prompts are inputs.

The module `Common` holds options, results and 128-bit identifiers. `PyStr` holds the Python string operations the scripts use.

One disagreement between code and tests is resolved in favour of the code. The unit tests at `tools/cdh_lib.py:103-104` expect `cdh_ancestor_branch('cdh-0.18.3+3.4')` to be `cdh-0.18.3+3`. The code at line 80 prefixes `origin/`, as its comment says it should. `CdhLib.AncestorOfPatch` states what the code returns.

## Model

| member | source | states |
|---|---|---|
| ApiContract.StoppedNeverRestarts | llama/src/main/java/com/cloudera/llama/am/impl/APIContractLlamaAM.java:66-84 | once the contract wrapper is stopped, no sequence of start and stop calls brings it back to running |
| ApiContract.RunningIffStartedAndNotStopped | llama/src/main/java/com/cloudera/llama/am/impl/APIContractLlamaAM.java:66-84 | from a fresh wrapper, a sequence of calls leaves the AM running exactly when some start succeeded, every earlier start failed, and no stop came after the successful one |
| ApiContract.RunningStaysUntilStop | llama/src/main/java/com/cloudera/llama/am/impl/APIContractLlamaAM.java:66-84 | a running AM stays running through a sequence of calls exactly when that sequence holds no stop |
| ApiContract.APIContractLlamaAM.constructor | llama/src/main/java/com/cloudera/llama/am/impl/APIContractLlamaAM.java:37-42 | a new wrapper is not stopped, reflects the wrapped AM's running state and has forwarded nothing |
| ApiContract.APIContractLlamaAM.Start | llama/src/main/java/com/cloudera/llama/am/impl/APIContractLlamaAM.java:66-75 | IllegalState "already running" when running and "cannot restart" once stopped, forwarding nothing; otherwise the call is forwarded and the AM runs exactly when the wrapped start succeeds |
| ApiContract.APIContractLlamaAM.Stop | llama/src/main/java/com/cloudera/llama/am/impl/APIContractLlamaAM.java:77-84 | only a running AM is stopped: then stop is forwarded and the wrapper is marked stopped; otherwise nothing changes |
| ApiContract.APIContractLlamaAM.GetNodes | llama/src/main/java/com/cloudera/llama/am/impl/APIContractLlamaAM.java:91-96 | fails with IllegalState "not running" without forwarding when the AM is not running; otherwise forwards the call and returns the wrapped AM's nodes, or its failure unchanged |
| ApiContract.APIContractLlamaAM.AddListener | llama/src/main/java/com/cloudera/llama/am/impl/APIContractLlamaAM.java:98-106 | IllegalState once stopped, IllegalArgument for a null listener, otherwise the listener is forwarded; the lifecycle is untouched |
| ApiContract.APIContractLlamaAM.RemoveListener | llama/src/main/java/com/cloudera/llama/am/impl/APIContractLlamaAM.java:108-116 | the same checks as adding a listener, and then the removal is forwarded |
| ApiContract.APIContractLlamaAM.Reserve | llama/src/main/java/com/cloudera/llama/am/impl/APIContractLlamaAM.java:118-126 | IllegalState when not running, IllegalArgument for a null id or reservation, otherwise the reservation is forwarded under its id, and the wrapped AM's failure, if any, is the outcome |
| ApiContract.APIContractLlamaAM.GetReservation | llama/src/main/java/com/cloudera/llama/am/impl/APIContractLlamaAM.java:128-136 | IllegalState when not running, IllegalArgument for a null id, otherwise the call is forwarded and the wrapped AM's answer or failure is returned |
| ApiContract.APIContractLlamaAM.ReleaseReservation | llama/src/main/java/com/cloudera/llama/am/impl/APIContractLlamaAM.java:138-144 | IllegalState when not running, IllegalArgument for a null id, otherwise the release is forwarded, and the wrapped AM's failure, if any, is the outcome |
| ApiContract.APIContractLlamaAM.ReleaseReservationsForClientId | llama/src/main/java/com/cloudera/llama/am/impl/APIContractLlamaAM.java:146-154 | IllegalState when not running, IllegalArgument for a null client id, otherwise the call is forwarded and the wrapped AM's list of released ids, or its failure, is returned |
| MultiQueue.OrderGivesOneCallEach | llama-am-api/src/main/java/com/cloudera/llama/am/impl/MultiQueueLlamaAM.java:120-128 | walking the delegates in any duplicate-free enumeration of their queues addresses each delegate exactly once |
| MultiQueue.LastFailureRaises | llama-am-api/src/main/java/com/cloudera/llama/am/impl/MultiQueueLlamaAM.java:191-208 | a loop that keeps the last exception raises exactly when some call failed, and what it raises is the failure of the last failing call |
| MultiQueue.NewMultiQueueLlamaAM | llama-am-api/src/main/java/com/cloudera/llama/am/impl/MultiQueueLlamaAM.java:48-61 | construction fails with IllegalArgument exactly when no resource manager connector class is configured; otherwise the router starts empty and not running |
| MultiQueue.MultiQueueLlamaAM.constructor | llama-am-api/src/main/java/com/cloudera/llama/am/impl/MultiQueueLlamaAM.java:48-61 | no delegate, no routing entry, no listener, not running, no call made |
| MultiQueue.MultiQueueLlamaAM.GetLlamaAM | llama-am-api/src/main/java/com/cloudera/llama/am/impl/MultiQueueLlamaAM.java:73-85 | an existing delegate is reused with no call; for a new queue one delegate is started, and it is recorded only when its start succeeds, else the start failure is raised |
| MultiQueue.MultiQueueLlamaAM.GetAnyLlama | llama-am-api/src/main/java/com/cloudera/llama/am/impl/MultiQueueLlamaAM.java:93-104 | fails with "no active LlamaAM" exactly when there is no delegate; otherwise names an existing delegate |
| MultiQueue.MultiQueueLlamaAM.Start | llama-am-api/src/main/java/com/cloudera/llama/am/impl/MultiQueueLlamaAM.java:106-118 | succeeds exactly when no initial queue's new delegate fails to start; then it runs with a delegate for every initial queue; on failure it is not running and every delegate is stopped |
| MultiQueue.MultiQueueLlamaAM.Stop | llama-am-api/src/main/java/com/cloudera/llama/am/impl/MultiQueueLlamaAM.java:120-128 | not running afterwards, every delegate stopped, and exactly one stop call made to each delegate |
| MultiQueue.StopEach | llama-am-api/src/main/java/com/cloudera/llama/am/impl/MultiQueueLlamaAM.java:123-125 | the loop over the delegates in their iteration order: the same queues afterwards, every delegate stopped, and exactly one stop call per queue in that order |
| MultiQueue.MultiQueueLlamaAM.GetNodes | llama-am-api/src/main/java/com/cloudera/llama/am/impl/MultiQueueLlamaAM.java:134-138 | fails when there is no delegate; otherwise one existing delegate is asked and its nodes returned |
| MultiQueue.MultiQueueLlamaAM.AddListener | llama-am-api/src/main/java/com/cloudera/llama/am/impl/MultiQueueLlamaAM.java:140-145 | the listener set gains the listener and nothing else changes |
| MultiQueue.MultiQueueLlamaAM.RemoveListener | llama-am-api/src/main/java/com/cloudera/llama/am/impl/MultiQueueLlamaAM.java:147-152 | the listener set loses the listener and nothing else changes |
| MultiQueue.MultiQueueLlamaAM.Reserve | llama-am-api/src/main/java/com/cloudera/llama/am/impl/MultiQueueLlamaAM.java:154-162 | the reservation goes to its queue's delegate (created if needed); a delegate start failure is raised; the returned id is routed to that queue only when the delegate accepted it |
| MultiQueue.MultiQueueLlamaAM.GetReservation | llama-am-api/src/main/java/com/cloudera/llama/am/impl/MultiQueueLlamaAM.java:164-177 | an id that was never routed gives null with no delegate asked; otherwise the routed delegate's answer is returned; nothing changes |
| MultiQueue.MultiQueueLlamaAM.ReleaseReservation | llama-am-api/src/main/java/com/cloudera/llama/am/impl/MultiQueueLlamaAM.java:178-189 | the routing entry is removed; an unknown id makes no call; a known id's delegate is asked to release it |
| MultiQueue.MultiQueueLlamaAM.ReleaseReservationsForClientId | llama-am-api/src/main/java/com/cloudera/llama/am/impl/MultiQueueLlamaAM.java:190-208 | every delegate is called exactly once even after failures; it raises exactly when some delegate failed, and then the last failure |
| Expansions.ExpansionIdIdentity | llama/src/main/java/com/cloudera/llama/am/impl/ExpansionReservationsLlamaAM.java:59-87 | two expansion entries are equal exactly when their expansion ids are, whatever their handles; equality is symmetric, never holds against null, and equal entries hash alike, so a hash set keeps one entry per expansion id |
| Expansions.OrderReleasesEach | llama/src/main/java/com/cloudera/llama/am/impl/ExpansionReservationsLlamaAM.java:200-217 | iterating a reservation's expansion set in any duplicate-free order releases every expansion exactly once, each with its own handle |
| Expansions.ExpansionReservationsLlamaAM.constructor | llama/src/main/java/com/cloudera/llama/am/impl/ExpansionReservationsLlamaAM.java:90-95 | no cross-reference and no event dispatched; the only call is the wrapper registering itself as a listener of the wrapped application master |
| Expansions.ExpansionReservationsLlamaAM.GetExpansions | llama/src/main/java/com/cloudera/llama/am/impl/ExpansionReservationsLlamaAM.java:152-163 | null for a reservation with no entry; otherwise exactly the recorded expansion ids |
| Expansions.ExpansionReservationsLlamaAM.Add | llama/src/main/java/com/cloudera/llama/am/impl/ExpansionReservationsLlamaAM.java:129-136 | the reservation's set gains the expansion id (a set is created for a new reservation; an id already there keeps its first handle); other reservations keep theirs |
| Expansions.ExpansionReservationsLlamaAM.RemoveExpansionsOf | llama/src/main/java/com/cloudera/llama/am/impl/ExpansionReservationsLlamaAM.java:138-140 | the reservation's whole set is removed and returned, or null when there was none |
| Expansions.ExpansionReservationsLlamaAM.RemoveExpansion | llama/src/main/java/com/cloudera/llama/am/impl/ExpansionReservationsLlamaAM.java:142-150 | exactly that expansion id leaves the reservation's set and the key goes when the set becomes empty, so no reservation maps to an empty set; other reservations are untouched |
| Expansions.ExpansionReservationsLlamaAM.Reserve | llama/src/main/java/com/cloudera/llama/am/impl/ExpansionReservationsLlamaAM.java:123-127 | the reservation is passed to the wrapped AM and nothing else changes |
| Expansions.ExpansionReservationsLlamaAM.Expand | llama/src/main/java/com/cloudera/llama/am/impl/ExpansionReservationsLlamaAM.java:165-192 | UNKNOWN_RESERVATION_FOR_EXPANSION, CANNOT_EXPAND_AN_EXPANSION_RESERVATION and CANNOT_EXPAND_A_RESERVATION_NOT_ALLOCATED are checked in that order with no change; otherwise the expansion is reserved and recorded under its original, and when the original is gone by then the expansion is released and the unknown-reservation error is raised |
| Expansions.ExpansionReservationsLlamaAM.GetReservation | llama/src/main/java/com/cloudera/llama/am/impl/ExpansionReservationsLlamaAM.java:194-198 | the wrapped AM's answer, with nothing changed |
| Expansions.ExpansionReservationsLlamaAM.ReleaseExpansions | llama/src/main/java/com/cloudera/llama/am/impl/ExpansionReservationsLlamaAM.java:200-217 | the entry is removed; with no entry no call is made; otherwise every expansion is released exactly once with its own handle, failures not stopping the others |
| Expansions.ExpansionReservationsLlamaAM.ReleaseReservationAndExpansions | llama/src/main/java/com/cloudera/llama/am/impl/ExpansionReservationsLlamaAM.java:219-227 | releasing an original cascades to all its expansions and clears its entry; releasing an expansion only removes it from its original's set |
| Expansions.ExpansionReservationsLlamaAM.ReleaseReservation | llama/src/main/java/com/cloudera/llama/am/impl/ExpansionReservationsLlamaAM.java:228-238 | the reservation is looked up; when it is known the cascade runs; the reservation is then released in the wrapped AM with the caller's handle and that answer is returned |
| Expansions.ExpansionReservationsLlamaAM.ReleaseReservationsForHandle | llama/src/main/java/com/cloudera/llama/am/impl/ExpansionReservationsLlamaAM.java:239-249 | the wrapped AM releases the handle's reservations first; afterwards no released original keeps an entry, no released expansion stays in its original's set, and the list released is returned |
| Expansions.ExpansionReservationsLlamaAM.ReleaseReservationsForQueue | llama/src/main/java/com/cloudera/llama/am/impl/ExpansionReservationsLlamaAM.java:250-262 | one call to the wrapped AM, and exactly the released reservations' entries are cleared |
| Expansions.ExpansionReservationsLlamaAM.OnEvent | llama/src/main/java/com/cloudera/llama/am/impl/ExpansionReservationsLlamaAM.java:268-279 | the event is always dispatched onward; an echo changes nothing else; otherwise each reservation reported in a final status loses its entry, and the new calls are exactly ReleasedFor the changes and the old entries: in event order, one block per final reservation that still had expansions, releasing each of them once with its own handle and doNotCache false, and no other call |
| Expansions.ExpansionReservationsLlamaAM.ReleaseIfFinal | llama/src/main/java/com/cloudera/llama/am/impl/ExpansionReservationsLlamaAM.java:271-275 | one iteration of the loop over the changes: a final change releases its reservation's expansions (releaseExpansions with doNotCache false), which extends the removed entries and ReleasedFor by that change; nothing is dispatched |
| Expansions.ReleasedForStep | llama/src/main/java/com/cloudera/llama/am/impl/ExpansionReservationsLlamaAM.java:271-275 | one change more extends ReleasedFor by a release block exactly when the change is final and its reservation still has expansions, and adds its id to the final ids only when it is final |
| Expansions.ReleasedForOne | llama/src/main/java/com/cloudera/llama/am/impl/ExpansionReservationsLlamaAM.java:271-275 | for a single change, ReleasedFor holds exactly for a release of each of its expansions when it is final and held, and for no call otherwise |
| Expansions.ReleasedForOnlyReleases | llama/src/main/java/com/cloudera/llama/am/impl/ExpansionReservationsLlamaAM.java:271-275 | every call onEvent makes is a release with doNotCache false |
| GangAntiDeadlock.TruncDiv | llama/src/main/java/com/cloudera/llama/am/impl/GangAntiDeadlockLlamaAM.java:320 | Java's int division: the quotient truncates toward zero, bracketed by the dividend from below for non-negative and from above for negative dividends |
| GangAntiDeadlock.ResourceCountRemove | llama/src/main/java/com/cloudera/llama/am/impl/GangAntiDeadlockLlamaAM.java:312-319 | the resource count of the submitted reservations does not depend on the order the loop visits them in |
| GangAntiDeadlock.ForgetKeepsConsistent | llama/src/main/java/com/cloudera/llama/am/impl/GangAntiDeadlockLlamaAM.java:207-211 | forgetting a reservation locally keeps submitted reservations held locally and queued ones unsubmitted |
| GangAntiDeadlock.BackOffKeepsConsistent | llama/src/main/java/com/cloudera/llama/am/impl/GangAntiDeadlockLlamaAM.java:329-337 | moving a victim from the submitted set to the delay queue keeps the bookkeeping consistent |
| GangAntiDeadlock.PollKeepsConsistent | llama/src/main/java/com/cloudera/llama/am/impl/GangAntiDeadlockLlamaAM.java:363-378 | taking a reservation off the delay queue, then resubmitting or forgetting it, keeps the bookkeeping consistent |
| GangAntiDeadlock.BackedOffSoFarStep | llama/src/main/java/com/cloudera/llama/am/impl/GangAntiDeadlockLlamaAM.java:322-349 | one successful release in the back-off loop extends the victims by exactly that reservation, queued with a delay in the configured range |
| GangAntiDeadlock.BackOffCallsStep | llama/src/main/java/com/cloudera/llama/am/impl/GangAntiDeadlockLlamaAM.java:332-346 | one more release of a submitted reservation keeps the call log exact: the reservation becomes a victim exactly when its release does not fail |
| GangAntiDeadlock.EarliestExists | llama/src/main/java/com/cloudera/llama/am/impl/GangAntiDeadlockLlamaAM.java:381-382 | a non-empty delay queue has an element with the earliest deadline, which is what its head is |
| GangAntiDeadlock.HeldBy | llama/src/main/java/com/cloudera/llama/am/impl/GangAntiDeadlockLlamaAM.java:220-234 | the iteration over the local reservations yields exactly the ids of the client's reservations, each once |
| GangAntiDeadlock.PolledSoFarStep | llama/src/main/java/com/cloudera/llama/am/impl/GangAntiDeadlockLlamaAM.java:363-379 | one more poll of an expired reservation extends the polls so far: the queue, local map and submitted set follow, the new reserve calls are for exactly the polled reservations held locally and the rejections for exactly those whose reserve failed, each reservation once |
| GangAntiDeadlock.CalledSinceStep | llama/src/main/java/com/cloudera/llama/am/impl/GangAntiDeadlockLlamaAM.java:369 | logging one more reserve call adds exactly its reservation to the reservations reserved again |
| GangAntiDeadlock.RejectedSinceStep | llama/src/main/java/com/cloudera/llama/am/impl/GangAntiDeadlockLlamaAM.java:373-376 | dispatching one more rejection adds exactly its reservation to the rejected ones |
| GangAntiDeadlock.AllExpiredPolled | llama/src/main/java/com/cloudera/llama/am/impl/GangAntiDeadlockLlamaAM.java:357-380 | once the earliest deadline left is in the future, every reservation whose deadline had passed has been polled |
| GangAntiDeadlock.GangAntiDeadlockLlamaAM.constructor | llama/src/main/java/com/cloudera/llama/am/impl/GangAntiDeadlockLlamaAM.java:115-148 | start: the configuration values are kept, nothing is held, submitted or queued, and the clock of the last allocation starts now |
| GangAntiDeadlock.GangAntiDeadlockLlamaAM.GetBackOffDelay | llama/src/main/java/com/cloudera/llama/am/impl/GangAntiDeadlockLlamaAM.java:302-305 | the delay lies in [minimum delay, maximum delay) |
| GangAntiDeadlock.GangAntiDeadlockLlamaAM.GReserve | llama/src/main/java/com/cloudera/llama/am/impl/GangAntiDeadlockLlamaAM.java:176-186 | the reservation is always held locally; it is submitted when nothing is backed off, and otherwise queued with a back-off delay in the configured range |
| GangAntiDeadlock.GangAntiDeadlockLlamaAM.Reserve | llama/src/main/java/com/cloudera/llama/am/impl/GangAntiDeadlockLlamaAM.java:164-174 | a non-gang reservation is only passed on; a gang one is placed from the request under the new id (exactly as the placing constructor builds it), held, submitted when nothing is backed off and otherwise queued behind the backed-off ones with a delay in the back-off range, and the placed reservation is passed on; the wrapped AM's failure is returned |
| GangAntiDeadlock.GangAntiDeadlockLlamaAM.GetReservation | llama/src/main/java/com/cloudera/llama/am/impl/GangAntiDeadlockLlamaAM.java:187-198 | the wrapped AM's answer when it has one, otherwise the locally held reservation, otherwise null |
| GangAntiDeadlock.GangAntiDeadlockLlamaAM.GReleaseReservation | llama/src/main/java/com/cloudera/llama/am/impl/GangAntiDeadlockLlamaAM.java:207-211 | the reservation leaves the local map and the submitted set; the delay queue is untouched |
| GangAntiDeadlock.GangAntiDeadlockLlamaAM.ReleaseReservation | llama/src/main/java/com/cloudera/llama/am/impl/GangAntiDeadlockLlamaAM.java:201-205 | forgotten locally, then released by the wrapped AM, whose failure is returned |
| GangAntiDeadlock.GangAntiDeadlockLlamaAM.GReleaseReservationsForClientId | llama/src/main/java/com/cloudera/llama/am/impl/GangAntiDeadlockLlamaAM.java:219-235 | exactly the client's local reservations are removed and their ids returned, each once |
| GangAntiDeadlock.GangAntiDeadlockLlamaAM.ReleaseReservationsForClientId | llama/src/main/java/com/cloudera/llama/am/impl/GangAntiDeadlockLlamaAM.java:212-218 | the wrapped AM's failure is passed on with nothing forgotten; otherwise the result holds, without duplicates, exactly the wrapped AM's ids and the client's local ids, and exactly the client's reservations leave the local map and the submitted set |
| GangAntiDeadlock.GangAntiDeadlockLlamaAM.ForgetAll | llama/src/main/java/com/cloudera/llama/am/impl/GangAntiDeadlockLlamaAM.java:225-232 | every listed reservation leaves the local map and the submitted set |
| GangAntiDeadlock.GangAntiDeadlockLlamaAM.Handle | llama/src/main/java/com/cloudera/llama/am/impl/GangAntiDeadlockLlamaAM.java:246-264 | the clock of the last allocation restarts exactly when a gang resource of a submitted reservation was allocated; allocated and rejected reservations are forgotten locally and leave the submitted set |
| GangAntiDeadlock.GangAntiDeadlockLlamaAM.CountSubmittedResources | llama/src/main/java/com/cloudera/llama/am/impl/GangAntiDeadlockLlamaAM.java:311-319 | the total is the number of resources the submitted reservations hold |
| GangAntiDeadlock.GangAntiDeadlockLlamaAM.DoReservationsBackOff | llama/src/main/java/com/cloudera/llama/am/impl/GangAntiDeadlockLlamaAM.java:307-354 | the victims are submitted reservations whose release succeeded; they are queued with a delay in range; a release call is logged for every victim and for nothing but submitted reservations; the loop stops once their resources reach the percentage target, and when no release fails it runs until the target is reached or nothing is submitted; the clock restarts now |
| GangAntiDeadlock.GangAntiDeadlockLlamaAM.BackOffVictims | llama/src/main/java/com/cloudera/llama/am/impl/GangAntiDeadlockLlamaAM.java:320-348 | the loop alone: it keeps the submitted set, the back-off queue and the held reservations consistent, backs off exactly as the back-off relation allows (victims released successfully, queued with an in-range delay, the target share reached unless nothing is left or a release failed), logs only releases of submitted reservations, and the released reservations whose release did not fail are exactly the victims |
| GangAntiDeadlock.GangAntiDeadlockLlamaAM.DeadlockAvoidance | llama/src/main/java/com/cloudera/llama/am/impl/GangAntiDeadlockLlamaAM.java:287-300 | at or past the no-allocation limit it backs off (logging a release for every victim) and sleeps the limit; otherwise nothing changes and it sleeps the time since the last allocation |
| GangAntiDeadlock.GangAntiDeadlockLlamaAM.ReReserveBackOffs | llama/src/main/java/com/cloudera/llama/am/impl/GangAntiDeadlockLlamaAM.java:356-384 | exactly the expired queued reservations are polled; a polled reservation still held is reserved again and submitted, or forgotten and rejected to its client when that fails; the reserve calls logged are for exactly the polled held reservations and the rejections for exactly the failed ones, each once; the result is the positive time to the next deadline, or Long.MAX_VALUE |
| GangAntiDeadlock.GangAntiDeadlockLlamaAM.PollExpired | llama/src/main/java/com/cloudera/llama/am/impl/GangAntiDeadlockLlamaAM.java:357-380 | the loop alone: exactly the entries whose deadline has passed are polled, each handled as reReserveBackOffs does (one reserve call per polled held reservation, one rejection per failed one), the state stays consistent, and every entry left is still waiting |
| GangAntiDeadlock.GangAntiDeadlockLlamaAM.ExpiredHead | llama/src/main/java/com/cloudera/llama/am/impl/GangAntiDeadlockLlamaAM.java:357 | poll() of the delay queue: an entry with the earliest deadline when that deadline has passed, and nothing exactly when no entry has expired |
| GangAntiDeadlock.GangAntiDeadlockLlamaAM.PollOne | llama/src/main/java/com/cloudera/llama/am/impl/GangAntiDeadlockLlamaAM.java:363-379 | one poll: the reservation leaves the queue and, when still held, is reserved again and submitted, or forgotten and rejected to its client |
| GangAntiDeadlock.GangAntiDeadlockLlamaAM.NextDelay | llama/src/main/java/com/cloudera/llama/am/impl/GangAntiDeadlockLlamaAM.java:381-383 | Long.MAX_VALUE for an empty queue, otherwise the time until the earliest deadline |
| PlacedReservations.Unplaced | llama/src/main/java/com/cloudera/llama/am/impl/PlacedReservationImpl.java:116-126 | a requested resource copied into a reservation carries no reservation id and no status |
| PlacedReservations.CreatePlaced | llama/src/main/java/com/cloudera/llama/am/impl/PlacedReservationImpl.java:110-112 | a placed resource keeps the requested resource and is linked to its reservation's id |
| PlacedReservations.Place | llama/src/main/java/com/cloudera/llama/am/impl/PlacedReservationImpl.java:97-114 | placing gives a PLACED_RESERVATION with the new id, status PENDING, allocatedOn -1 and no expansionOf; placedOn is kept from an already placed reservation and is the current time otherwise; handle, user, queue and gang are kept, and there is one placed resource per requested resource, in order |
| PlacedReservations.PlacedFromUnique | llama/src/main/java/com/cloudera/llama/am/impl/PlacedReservationImpl.java:97-114 | the placing constructor's result is determined by the source, the id and the time |
| PlacedReservations.EqualsConsistentWithHash | llama/src/main/java/com/cloudera/llama/am/impl/PlacedReservationImpl.java:163-178 | reservations with ids are equal exactly when their ids are; distinct objects without an id are never equal; equal reservations have the same hash code |
| PlacedReservations.SetStatus | llama/src/main/java/com/cloudera/llama/am/impl/PlacedReservationImpl.java:247-252 | the status becomes the one given; only ALLOCATED records the current time as allocatedOn; nothing else changes |
| PlacedReservations.SetStatusesRecordsLastAllocation | llama/src/main/java/com/cloudera/llama/am/impl/PlacedReservationImpl.java:247-252 | after any series of status changes the status is the last one set and allocatedOn is the time of the last change to ALLOCATED, or unchanged when there was none |
| PlacedReservations.LastAllocationSplit | llama/src/main/java/com/cloudera/llama/am/impl/PlacedReservationImpl.java:247-252 | the last allocation time of a series is that of its tail, started from what its head leaves |
| PlacedReservations.XReservationBuilder.constructor | llama/src/main/java/com/cloudera/llama/am/impl/PlacedReservationImpl.java:258-261 | a new builder has no handle, user or queue, is not gang and has no resources |
| PlacedReservations.XReservationBuilder.SetHandle | llama/src/main/java/com/cloudera/llama/am/impl/PlacedReservationImpl.java:263-268 | a null handle is an IllegalArgument and changes nothing; otherwise only the handle is set |
| PlacedReservations.XReservationBuilder.SetUser | llama/src/main/java/com/cloudera/llama/am/impl/PlacedReservationImpl.java:270-275 | a null or empty user is an IllegalArgument and changes nothing; otherwise only the user is set |
| PlacedReservations.XReservationBuilder.SetQueue | llama/src/main/java/com/cloudera/llama/am/impl/PlacedReservationImpl.java:277-282 | a null or empty queue is an IllegalArgument and changes nothing; otherwise only the queue is set |
| PlacedReservations.XReservationBuilder.SetGang | llama/src/main/java/com/cloudera/llama/am/impl/PlacedReservationImpl.java:306-310 | only the gang flag is set |
| PlacedReservations.XReservationBuilder.AddResource | llama/src/main/java/com/cloudera/llama/am/impl/PlacedReservationImpl.java:284-289 | a null resource is an IllegalArgument; otherwise it is appended and nothing else changes |
| PlacedReservations.XReservationBuilder.AddResources | llama/src/main/java/com/cloudera/llama/am/impl/PlacedReservationImpl.java:291-296 | a null list or a list holding null is an IllegalArgument and adds nothing; otherwise the list is appended in order |
| PlacedReservations.XReservationBuilder.SetResources | llama/src/main/java/com/cloudera/llama/am/impl/PlacedReservationImpl.java:298-304 | a null list or a list holding null is an IllegalArgument and changes nothing; otherwise the resources become exactly that list |
| PlacedReservations.XReservationBuilder.Build | llama/src/main/java/com/cloudera/llama/am/impl/PlacedReservationImpl.java:317-325 | succeeds exactly when handle and user are set, the queue is set and not empty and there is a resource, with the handle checked first; the result is a RESERVATION with no id or status holding the builder's fields and resources in order |
| PlacedReservations.XExpansionBuilder.constructor | llama/src/main/java/com/cloudera/llama/am/impl/PlacedReservationImpl.java:333-335 | a new expansion builder has neither expansionOf nor resource |
| PlacedReservations.XExpansionBuilder.SetExpansionOf | llama/src/main/java/com/cloudera/llama/am/impl/PlacedReservationImpl.java:337-342 | null is an IllegalArgument and changes nothing; otherwise only expansionOf is set |
| PlacedReservations.XExpansionBuilder.SetResource | llama/src/main/java/com/cloudera/llama/am/impl/PlacedReservationImpl.java:344-349 | null is an IllegalArgument and changes nothing; otherwise only the resource is set |
| PlacedReservations.XExpansionBuilder.Build | llama/src/main/java/com/cloudera/llama/am/impl/PlacedReservationImpl.java:351-361 | succeeds exactly when expansionOf and the resource are set, expansionOf checked first; the expansion's resource list is exactly that one resource |
| PlacedReservations.BuildThenPlace | llama/src/main/java/com/cloudera/llama/am/impl/PlacedReservationImpl.java:97-114 | a built reservation, once placed, is PENDING under the new id and keeps the request's handle, queue, gang flag and resources in order |
| TypeUtils.CreateRuntimeError | llama-thrift-am/src/main/java/com/cloudera/llama/am/server/thrift/TypeUtils.java:41-45 | a RUNTIME_ERROR status holding the messages in the order given, which is never OK |
| TypeUtils.CreateInternalError | llama-thrift-am/src/main/java/com/cloudera/llama/am/server/thrift/TypeUtils.java:47-51 | an INTERNAL_ERROR status holding the messages in the order given, which is never OK |
| TypeUtils.IsOKIffCodeOK | llama-thrift-am/src/main/java/com/cloudera/llama/am/server/thrift/TypeUtils.java:142-144 | a status is OK exactly when its code is OK; the shared OK status is OK and neither error constructor yields it |
| TypeUtils.ToSigned64 | llama-thrift-am/src/main/java/com/cloudera/llama/am/server/thrift/TypeUtils.java:53-60 | the long whose two's complement bits are the given unsigned 64-bit value |
| TypeUtils.Unsigned64 | llama-thrift-am/src/main/java/com/cloudera/llama/am/server/thrift/TypeUtils.java:53-60 | a long's 64 bits read unsigned: in [0, 2^64) and congruent to the long modulo 2^64 |
| TypeUtils.SignedUnsignedInverse | llama-thrift-am/src/main/java/com/cloudera/llama/am/server/thrift/TypeUtils.java:53-60 | reading a long's bits unsigned and back gives the same long |
| TypeUtils.HalvesOfJoin | llama-thrift-am/src/main/java/com/cloudera/llama/am/server/thrift/TypeUtils.java:53-60 | joining a high and a low 64-bit half and splitting again gives back both halves |
| TypeUtils.ToTUniqueId | llama-thrift-am/src/main/java/com/cloudera/llama/am/server/thrift/TypeUtils.java:57-60 | hi carries the UUID's most significant 64 bits and lo its least significant ones |
| TypeUtils.UuidRoundTrip | llama-thrift-am/src/main/java/com/cloudera/llama/am/server/thrift/TypeUtils.java:53-60 | toUUID(toTUniqueId(u)) == u for every UUID |
| TypeUtils.TUniqueIdRoundTrip | llama-thrift-am/src/main/java/com/cloudera/llama/am/server/thrift/TypeUtils.java:53-60 | toTUniqueId(toUUID(t)) == t for every wire id |
| TypeUtils.ToTUniqueIdInjective | llama-thrift-am/src/main/java/com/cloudera/llama/am/server/thrift/TypeUtils.java:57-60 | distinct UUIDs go to distinct wire ids |
| TypeUtils.ToTUniqueIds | llama-thrift-am/src/main/java/com/cloudera/llama/am/server/thrift/TypeUtils.java:62-68 | the list is converted element by element, same length and order, and each element converts back to its UUID |
| TypeUtils.ToResource | llama-thrift-am/src/main/java/com/cloudera/llama/am/server/thrift/TypeUtils.java:70-79 | succeeds exactly when the enforcement name is a known constant; then the client resource id, location, cores and memory are carried over |
| TypeUtils.ToResourceList | llama-thrift-am/src/main/java/com/cloudera/llama/am/server/thrift/TypeUtils.java:81-87 | succeeds exactly when every enforcement name is known; then every element is converted, same length and order |
| TypeUtils.ToReservation | llama-thrift-am/src/main/java/com/cloudera/llama/am/server/thrift/TypeUtils.java:89-95 | succeeds exactly when every resource converts; the handle is the request's am_handle and the queue, gang flag and resources are carried over in order |
| TypeUtils.ToShort | llama-thrift-am/src/main/java/com/cloudera/llama/am/server/thrift/TypeUtils.java:103 | the (short) cast: congruent modulo 2^16 and the identity on values that fit a short |
| TypeUtils.ToTAllocatedResource | llama-thrift-am/src/main/java/com/cloudera/llama/am/server/thrift/TypeUtils.java:97-107 | ids, resource manager id, memory and location of the placed resource are carried over and the cores are cast to a short |
| TypeUtils.CoresWithinShortPreserved | llama-thrift-am/src/main/java/com/cloudera/llama/am/server/thrift/TypeUtils.java:103 | a core count that fits a short reaches the wire unchanged, and 32768 wraps to -32768 |
| TypeUtils.ToTAllocatedResources | llama-thrift-am/src/main/java/com/cloudera/llama/am/server/thrift/TypeUtils.java:109-117 | element by element, same length and order |
| TypeUtils.IdsOf | llama-thrift-am/src/main/java/com/cloudera/llama/am/server/thrift/TypeUtils.java:53-55 | a wire list read back as UUIDs, element by element |
| TypeUtils.IdsOfConverted | llama-thrift-am/src/main/java/com/cloudera/llama/am/server/thrift/TypeUtils.java:62-68 | a list converted to wire ids reads back as the original list |
| TypeUtils.ToAMNotification | llama-thrift-am/src/main/java/com/cloudera/llama/am/server/thrift/TypeUtils.java:119-140 | version V1, the event's client id as am_handle, and every id list and the allocated resources converted in order, so that each id list reads back as the event's |
| LlamaApi.Int32 | llama/src/main/java/com/cloudera/llama/am/api/PlacedResource.java:65-68 | the low 32 bits of a value read as a signed int: within int range and congruent modulo 2^32 |
| LlamaApi.IdHash | llama/src/main/java/com/cloudera/llama/am/api/PlacedResource.java:65-68 | the UUID hash code the placed-resource hash delegates to is an int |
| LlamaApi.PlacedResourceEqualsIsIdentity | llama/src/main/java/com/cloudera/llama/am/api/PlacedResource.java:65-74 | placed resources are equal exactly when their client resource ids are; equality is symmetric, false for null, and consistent with the hash code |
| LlamaApi.PlacedResourceEqualityIgnoresState | llama/src/main/java/com/cloudera/llama/am/api/PlacedResource.java:65-74 | changing a placed resource's status, sizes or locations keeps it equal to what it was |
| LlamaApi.NewReservation | llama/src/main/java/com/cloudera/llama/am/api/Reservation.java:33-41 | the handle must be non-null, the queue non-null and non-empty, and the resource list non-null, free of nulls and non-empty, checked in that order; the result keeps the handle, queue, gang flag and the resources in order |
| LlamaApi.CopyReproduces | llama/src/main/java/com/cloudera/llama/am/api/Reservation.java:43-47 | the copy constructor applied to a reservation gives back an identical reservation |
| LlamaApi.GettersReturnArguments | llama/src/main/java/com/cloudera/llama/am/api/Reservation.java:54-68 | the getters of a constructed reservation return exactly the arguments, resources in the same order |
| LlamaAm.PlacedReservationEqualsIsIdentity | llama-am-api/src/main/java/com/cloudera/llama/am/PlacedReservation.java:47-56 | placed reservations are equal exactly when their reservation ids are; equality is symmetric, false for null, and consistent with the hash code |
| LlamaAm.PlacedReservationEqualityIgnoresState | llama-am-api/src/main/java/com/cloudera/llama/am/PlacedReservation.java:47-56 | changing a placed reservation's status, queue, gang flag or resources keeps it equal to what it was |
| Rest.IndexOf | llama/src/main/java/com/cloudera/llama/am/RestData.java:199 | the first position holding a reservation equal to (same id as) the given one, or -1 exactly when none is there |
| Rest.RemoveAtOcc | llama/src/main/java/com/cloudera/llama/am/RestData.java:230 | removing the element at a position leaves one copy fewer of that element's reservation and as many of every other |
| Rest.ReplaceEveryOcc | llama/src/main/java/com/cloudera/llama/am/RestData.java:196-211 | replacing the elements equal to a reservation keeps the number of copies of every reservation |
| Rest.ReplaceFirst | llama/src/main/java/com/cloudera/llama/am/RestData.java:199-201 | set(indexOf(v), v) keeps the list's length |
| Rest.ReplaceFirstOnlyFirst | llama/src/main/java/com/cloudera/llama/am/RestData.java:199-201 | as written, only the first element equal to the reservation becomes the new value; every other element, including later copies, stays as it was |
| Rest.AddToMapList | llama/src/main/java/com/cloudera/llama/am/RestData.java:178-185 | the key is present afterwards (created when absent) and no key maps to an empty list |
| Rest.UpdateToMapList | llama/src/main/java/com/cloudera/llama/am/RestData.java:196-211 | corrected half of the Findings row for RestData.java:196-211 (as-written member: Rest.UpdateToMapListAsWritten): under the key, every element equal to the reservation becomes the new value and the rest stay, in place; other keys are untouched, the keys stay the same and no list becomes empty |
| Rest.UpdateToMapListAsWritten | llama/src/main/java/com/cloudera/llama/am/RestData.java:196-211 | as written: only the list under the key changes, by set(indexOf(v), v); the keys stay the same |
| Rest.DeleteFromMapList | llama/src/main/java/com/cloudera/llama/am/RestData.java:225-243 | only the given key can disappear, and it does when its list becomes empty, so no key maps to an empty list |
| Rest.AddStep | llama/src/main/java/com/cloudera/llama/am/RestData.java:178-185 | one append puts exactly one more copy of the reservation under the key and changes nothing else |
| Rest.UpdateStep | llama/src/main/java/com/cloudera/llama/am/RestData.java:196-211 | one corrected update keeps every count, and under the key every element equal to the reservation is the new value |
| Rest.DeleteStep | llama/src/main/java/com/cloudera/llama/am/RestData.java:225-243 | one delete of an element that is there removes exactly one copy under the key and adds nothing |
| Rest.AddAtEffect | llama/src/main/java/com/cloudera/llama/am/RestData.java:187-194 | adding under a list of keys puts the reservation once more under each key per occurrence of the key, and nothing else changes |
| Rest.UpdateAtEffect | llama/src/main/java/com/cloudera/llama/am/RestData.java:213-223 | the corrected update keeps every count and makes every copy of the reservation under its keys the new value |
| Rest.DeleteAtEffect | llama/src/main/java/com/cloudera/llama/am/RestData.java:245-255 | deleting under the keys removes one copy per occurrence of each key, only those keys can disappear, and nothing is added |
| Rest.DeleteAtAbsent | llama/src/main/java/com/cloudera/llama/am/RestData.java:225-243 | deleting a reservation no list holds changes nothing (the inconsistency is only logged) |
| Rest.UpdateAtAbsent | llama/src/main/java/com/cloudera/llama/am/RestData.java:196-211 | updating a reservation no list holds changes nothing (the inconsistency is only logged) |
| Rest.UpdateOfUnindexed | llama/src/main/java/com/cloudera/llama/am/RestData.java:164-167 | a reservation first seen as PARTIAL or ALLOCATED was never added, so its update leaves every index unchanged |
| Rest.IndexAfterAdd | llama/src/main/java/com/cloudera/llama/am/RestData.java:187-194 | adding a new reservation to an exact index leaves it exact, now including that reservation under each of its keys |
| Rest.IndexAfterUpdate | llama/src/main/java/com/cloudera/llama/am/RestData.java:213-223 | updating a reservation whose keys did not change leaves an exact index exact and every listed element current |
| Rest.IndexAfterDelete | llama/src/main/java/com/cloudera/llama/am/RestData.java:245-255 | deleting a reservation whose keys did not change leaves an exact index without that reservation |
| Rest.AddKeepsIndexed | llama/src/main/java/com/cloudera/llama/am/RestData.java:187-194 | adding a new reservation keeps the handle, queue and node indexes exact together |
| Rest.UpdateKeepsIndexed | llama/src/main/java/com/cloudera/llama/am/RestData.java:213-223 | updating a reservation whose keys did not change keeps all three indexes exact and current |
| Rest.DeleteKeepsIndexed | llama/src/main/java/com/cloudera/llama/am/RestData.java:245-255 | deleting a reservation whose keys did not change keeps all three indexes exact |
| Rest.KeyFound | llama/src/main/java/com/cloudera/llama/am/RestData.java:104-107 | a key is in an exact index exactly when some indexed reservation has it among its keys |
| Rest.ListedIsIndexed | llama/src/main/java/com/cloudera/llama/am/RestData.java:104-107 | every element listed under a key of an exact index is an indexed reservation, as stored, that has that key |
| Rest.HandleCount | llama/src/main/java/com/cloudera/llama/am/RestData.java:428-442 | in an exact handle index, a handle's list is as long as the number of indexed reservations of that handle |
| Rest.UpdateAsWrittenLeavesStale | llama/src/main/java/com/cloudera/llama/am/RestData.java:196-223 | a reservation with two resources on the same node is listed twice under that node, and the update as written replaces only the first copy, leaving a stale one |
| Rest.Without | llama/src/main/java/com/cloudera/llama/am/RestData.java:139-142 | the key order after a removal holds every other key and stays free of duplicates |
| Rest.WriteAsJson | llama/src/main/java/com/cloudera/llama/am/RestData.java:375-385 | a null payload is NotFound; any other is written under its type name |
| Rest.CreateMapSummaryList | llama/src/main/java/com/cloudera/llama/am/RestData.java:388-398 | one item per key of the index, in the index's iteration order, with its list's length, and every key appears |
| Rest.CreateCrossRef | llama/src/main/java/com/cloudera/llama/am/RestData.java:464-479 | the cross reference has exactly the index's keys, each mapped to the ids of its list in order |
| Rest.SortedNoDuplicates | llama/src/main/java/com/cloudera/llama/am/RestData.java:129-130 | keys in strictly ascending order never repeat |
| Rest.SortedMapSummary | llama/src/main/java/com/cloudera/llama/am/RestData.java:388-398 | the summary of a TreeMap index lists its keys in ascending order, each once with its list's length |
| Rest.AddToIndexes | llama/src/main/java/com/cloudera/llama/am/RestData.java:187-194 | the handle, queue and node indexes each get the reservation appended under its keys; the handle order grows by the handle only when it is new |
| Rest.DeleteFromIndexes | llama/src/main/java/com/cloudera/llama/am/RestData.java:245-255 | the reservation is deleted under its keys in all three indexes; the handle leaves the handle order exactly when its list disappears |
| Rest.AddUnderEach | llama/src/main/java/com/cloudera/llama/am/RestData.java:191-193 | the loop over the resources appends the reservation under each location in turn |
| Rest.UpdateUnderEach | llama/src/main/java/com/cloudera/llama/am/RestData.java:219-222 | the loop over the resources updates the reservation under each location in turn |
| Rest.DeleteUnderEach | llama/src/main/java/com/cloudera/llama/am/RestData.java:251-254 | the loop over the resources deletes the reservation under each location in turn |
| Rest.RestData.constructor | llama/src/main/java/com/cloudera/llama/am/RestData.java:124-133 | every map and the backed-off set start empty |
| Rest.RestData.OnRegister | llama/src/main/java/com/cloudera/llama/am/RestData.java:135-137 | the client is stored under its handle; a new handle goes last in the registration order, a re-registration keeps its place; nothing else changes |
| Rest.RestData.OnUnregister | llama/src/main/java/com/cloudera/llama/am/RestData.java:139-142 | the client of that handle is removed from the map and from the order; nothing else changes |
| Rest.RestData.Add | llama/src/main/java/com/cloudera/llama/am/RestData.java:187-194 | the reservation is stored and appended under its handle, its queue and each of its resources' locations; clients are untouched |
| Rest.RestData.Update | llama/src/main/java/com/cloudera/llama/am/RestData.java:213-223 | corrected half of the Findings row for RestData.java:196-211 (as-written member: Rest.UpdateAsWrittenLeavesStale): the reservation is stored and every copy of it under its handle, queue and locations becomes the new value; clients are untouched |
| Rest.RestData.Delete | llama/src/main/java/com/cloudera/llama/am/RestData.java:245-255 | the reservation is removed from the store and one copy per key from each index, dropping emptied keys; clients are untouched |
| Rest.RestData.Observe | llama/src/main/java/com/cloudera/llama/am/RestData.java:144-176 | PENDING and BACKED_OFF add a new reservation and update a known one; PARTIAL and ALLOCATED update; ENDED deletes; BACKED_OFF marks the id backed off and ENDED unmarks it |
| Rest.RestData.CreateClientInfoSummary | llama/src/main/java/com/cloudera/llama/am/RestData.java:428-442 | each registered client, in registration order, with the number of reservations listed under its handle (0 when none) |
| Rest.RestData.ClientCounts | llama/src/main/java/com/cloudera/llama/am/RestData.java:428-442 | with exact indexes, each client's count is the number of its stored, indexed reservations |
| Rest.RestData.SummaryData | llama/src/main/java/com/cloudera/llama/am/RestData.java:445-461 | the reservation count, the queue and node summaries in ascending key order with their counts, and the client summary |
| Rest.RestData.AllData | llama/src/main/java/com/cloudera/llama/am/RestData.java:482-497 | every stored reservation, the client summary, and the queue, handle and node cross references |
| Rest.RestData.ReservationData | llama/src/main/java/com/cloudera/llama/am/RestData.java:499-507 | the stored reservation of that id, NotFound exactly when there is none |
| Rest.RestData.QueueData | llama/src/main/java/com/cloudera/llama/am/RestData.java:529-537 | the queue's list, NotFound exactly when the queue has none |
| Rest.RestData.NodeData | llama/src/main/java/com/cloudera/llama/am/RestData.java:539-547 | the node's list, NotFound exactly when the node has none |
| Rest.RestData.HandleData | llama/src/main/java/com/cloudera/llama/am/RestData.java:510-527 | the client's info and the handle's list (empty when none), NotFound exactly when the handle is not registered |
| Rest.RestData.QueueDataExact | llama/src/main/java/com/cloudera/llama/am/RestData.java:529-537 | with exact indexes a queue is found exactly when an indexed reservation is in it, and every listed element is such a reservation as stored |
| Rest.RestData.NodeDataExact | llama/src/main/java/com/cloudera/llama/am/RestData.java:539-547 | with exact indexes a node is found exactly when an indexed reservation has a resource there, and every listed element is such a reservation as stored |
| Rest.RestData.HandleDataExact | llama/src/main/java/com/cloudera/llama/am/RestData.java:510-527 | with exact indexes a registered handle lists exactly as many elements as it has indexed reservations, each of them as stored |
| ClientNotify.RetryStep | llama/src/main/java/com/cloudera/llama/server/ClientNotifier.java:175-203 | a success resets the retry count; a failure below the maximum counts one more; a failure at the maximum releases the client; the client is released exactly when a failure finds the count at the maximum |
| ClientNotify.TrailingFailures | llama/src/main/java/com/cloudera/llama/server/ClientNotifier.java:175-203 | the length of the run of failures that ends a history: those last runs all failed and the run before them, if any, succeeded |
| ClientNotify.ReplayCounts | llama/src/main/java/com/cloudera/llama/server/ClientNotifier.java:175-203 | over a history with no release, the retry count equals the number of trailing failures and no run of maxRetries + 1 failures occurs |
| ClientNotify.ReleaseNeedsFailureRun | llama/src/main/java/com/cloudera/llama/server/ClientNotifier.java:175-203 | a history that releases the client contains maxRetries + 1 consecutive failures |
| ClientNotify.ReleasedIffFailureRun | llama/src/main/java/com/cloudera/llama/server/ClientNotifier.java:175-203 | a notifier releases its client exactly when its history contains maxRetries + 1 consecutive failures |
| ClientNotify.HeartbeatStep | llama/src/main/java/com/cloudera/llama/server/ClientNotifier.java:165-172 | a heartbeat is sent exactly when the time since the client's last call exceeds the heartbeat interval; then the next delay is the interval, otherwise it is the time remaining until the interval has passed, between 0 and the interval |
| ClientNotify.Notifier.Heartbeat | llama/src/main/java/com/cloudera/llama/server/ClientNotifier.java:143-148 | a heartbeat notifier has the handle, no notification, the heartbeat delay and no retry |
| ClientNotify.Notifier.Event | llama/src/main/java/com/cloudera/llama/server/ClientNotifier.java:150-155 | an event notifier has the handle and the notification, no delay and no retry |
| ClientNotify.ClientNotifier.constructor | llama/src/main/java/com/cloudera/llama/server/ClientNotifier.java:58-67 | the configuration values are kept and the queue is empty |
| ClientNotify.ClientNotifier.QueueNotifier | llama/src/main/java/com/cloudera/llama/server/ClientNotifier.java:85-92 | the notifier is always appended; going over the threshold is reported exactly when the queue is now larger than the threshold |
| ClientNotify.ClientNotifier.RegisterClientForHeartbeats | llama/src/main/java/com/cloudera/llama/server/ClientNotifier.java:94-96 | a new heartbeat notifier for the handle, with the heartbeat delay and no retry, is appended |
| ClientNotify.ClientNotifier.Handle | llama/src/main/java/com/cloudera/llama/server/ClientNotifier.java:98-108 | IllegalState exactly when there is no node mapper; an empty event queues nothing; any other event appends one new event notifier for the event's client, with no delay and no retry, whose notification is the event converted: version V1, the client as am_handle, and every id list and allocated resource of the event |
| ClientNotify.ClientNotifier.Run | llama/src/main/java/com/cloudera/llama/server/ClientNotifier.java:178-204 | the run first takes the notifier off the delay queue (its first occurrence, the rest in order); an unknown handle leaves it off the queue, unchanged; an event is notified and a heartbeat follows the heartbeat rule; the retry count and the release follow the retry rule; a success puts only a heartbeat back on the queue; a failure below the maximum puts it back after the retry interval; at the maximum the client is released and the notifier stays off the queue |
| ClientNotify.TakeOff | llama/src/main/java/com/cloudera/llama/server/ClientNotifier.java:70-75 | the executor takes a queued notifier off the delay queue: the result is one shorter and loses exactly one copy of the notifier (multisets) |
| ClientNotify.TakeOffFirst | llama/src/main/java/com/cloudera/llama/server/ClientNotifier.java:70-75 | the copy taken off is the first occurrence, and the other notifiers keep their order |
| CdhLib.RevList | tools/cdh_lib.py:21-25 | the revisions listed by `git rev-list` are the output's lines: none for empty output, otherwise joining them with newlines gives the output back |
| CdhLib.CountCommits | tools/cdh_lib.py:39-41 | the commit count is zero exactly when `git rev-list` printed nothing |
| CdhLib.CurBranch | tools/cdh_lib.py:30-37 | a current branch is reported exactly when `git symbolic-ref` succeeded with a `refs/heads/` reference, and it is the rest of that reference |
| CdhLib.LastSlashUpTo | tools/cdh_lib.py:51 | finds the last '/' at a position of at least 1, or -1 when there is none |
| CdhLib.StripRemotePrefix | tools/cdh_lib.py:51 | the greedy `^.+/(.+)$` substitution: the name changes exactly when it has a '/' with at least one character on each side; then it becomes what follows such a '/', and no later '/' stands before the last character |
| CdhLib.NormalizeAll | tools/cdh_lib.py:50-51 | every listed branch is normalised, one result per line, in order |
| CdhLib.CdhOnly | tools/cdh_lib.py:52 | keeps exactly the branches that start with `cdh-` |
| CdhLib.CdhIndexes | tools/cdh_lib.py:52 | the filter keeps order: each kept branch is the listed branch at its index, and the indexes strictly increase |
| CdhLib.CdhOnlyInOrder | tools/cdh_lib.py:52 | the filter misses no listed `cdh-` branch: every index holding one is among the kept indexes |
| CdhLib.FirstShortest | tools/cdh_lib.py:55-57 | the stable sort by length followed by taking the head picks a shortest branch, and the first of the shortest |
| CdhLib.ShortestListedFirst | tools/cdh_lib.py:55-57 | the head of the stably sorted list is the one element that is as short as it and has only longer elements before it |
| CdhLib.ShortestCdh | tools/cdh_lib.py:52-57 | of the `cdh-` names, one with the fewest characters is chosen, and of several such the first listed: a `cdh-` name no longer than the chosen one with only longer `cdh-` names before it is the chosen one; none exactly when no name starts with `cdh-` |
| CdhLib.BestBranch | tools/cdh_lib.py:43-57 | the best branch is the `cdh-` branch ShortestCdh chooses from the normalised listing: a listed `cdh-` branch no longer than any other, the first listed on a tie; an error is raised exactly when no listed branch starts with `cdh-` |
| CdhLib.LastSeparator | tools/cdh_lib.py:80 | finds the last '.' or '+' of the name, or -1 |
| CdhLib.ChopLastComponent | tools/cdh_lib.py:80 | the `[\.\+][^\.\+]+$` substitution: the name is unchanged exactly when no '.' or '+' is followed by at least one character and no further separator; when one is, the result is the name cut at that separator |
| CdhLib.AncestorBranch | tools/cdh_lib.py:59-80 | an ancestor is found exactly for branches that start with `cdh-`, and an error is raised otherwise |
| CdhLib.AncestorOfRelease | tools/cdh_lib.py:72-77 | a release branch `cdh-V` (digits and dots) descends from the Apache release tag when V contains 18.3 after its first character, and from `cdh-base-V` otherwise |
| CdhLib.AncestorOfPatchBranch | tools/cdh_lib.py:79-80 | any other `cdh-` branch descends from `origin/` followed by the branch cut at the separator of its last non-empty component, or by the whole branch when it has none; the result starts with `origin/cdh-` |
| CdhLib.GetVersion | tools/cdh_lib.py:82-98 | the version is computed unless the revision is not a `cdh-` branch and no containing branch is |
| CdhLib.BranchVersionSeparator | tools/cdh_lib.py:89-98 | once the branch `cdh-V` is known, the version is V, then '+' and the commit count for a release version, '.' and the count otherwise |
| CdhLib.VersionSeparator | tools/cdh_lib.py:85-98 | a revision that is itself `cdh-V` gets V, then '+' and the commit count for a release version, '.' and the count otherwise |
| CdhLib.VersionOfContainingBranch | tools/cdh_lib.py:87-98 | any other revision gets the version of the best branch containing it, formed the same way from that branch's V |
| CdhLib.AncestorOf0183 | tools/cdh_lib.py:102 | `cdh-0.18.3` descends from `apache/tags/release-0.18.3` |
| CdhLib.AncestorOf0201 | tools/cdh_lib.py:105 | `cdh-0.20.1` descends from `cdh-base-0.20.1` |
| CdhLib.AncestorOfPatch | tools/cdh_lib.py:104 | `cdh-0.18.3+3.4` descends from `origin/cdh-0.18.3+3`; the test beside the code expects the name without `origin/` |
| DebUtil.ChangesFiles | ec2_build/bin/deb_util.py:11 | keeps exactly the listed names that end in `_source.changes` |
| DebUtil.JoinAll | ec2_build/bin/deb_util.py:26 | one path per file name, each the name joined under the root |
| DebUtil.FirstMissing | ec2_build/bin/deb_util.py:27-29 | no path is reported exactly when every path exists; a reported path is missing and every earlier one exists |
| DebUtil.SourceDebNames | ec2_build/bin/deb_util.py:16-24 | five names are derived unless the base name lacks a '_' or the part after its first '_' lacks a '-', in which case the two-name unpacking fails |
| DebUtil.FindSourceDebFiles | ec2_build/bin/deb_util.py:6-33 | no changes file gives no files; more than one raises the multiple-source-debs error naming them; a non-empty result is five existing paths; a missing-file error names a path that does not exist |
| DebUtil.SourceDebNamesOf | ec2_build/bin/deb_util.py:17-24 | for `pkg_major-release_source.changes` the names are the changes file, the Debian tarball, the diff, the description and `pkg_major.orig.tar.gz` |
| DebUtil.SplitBase | ec2_build/bin/deb_util.py:22-23 | splitting `pkg_major-release` once at '_' and then at '-' recovers pkg, major and release |
| DebUtil.BaseOfChanges | ec2_build/bin/deb_util.py:17 | removing the suffix from a changes file name gives its base name back |
| DebUtil.FoundAll | ec2_build/bin/deb_util.py:6-33 | a directory with one well-formed changes file and all five derived files present yields exactly the five paths under the directory, in order: the changes file, the Debian tarball, the diff, the description and the upstream tarball |
| Env.ExportLines | installer/src/com/cloudera/distribution/env.py:50-51 | one `export KEY=VALUE` line per key, in the given key order, with the key's bound value |
| Env.SortedKeysUnique | installer/src/com/cloudera/distribution/env.py:45 | two sorted duplicate-free listings of the same map's keys are equal, so the printed order is determined |
| Env.ExportLineParses | installer/src/com/cloudera/distribution/env.py:51 | an export line starts with `export ` and splitting the rest at its first '=' gives back the key and the value when the key has no '=' |
| Env.Environment.constructor | installer/src/com/cloudera/distribution/env.py:17 | the environment starts empty |
| Env.Environment.AddToEnvironment | installer/src/com/cloudera/distribution/env.py:20-34 | an unbound key is bound to the value; a key bound to the same value is left alone; a key bound to another value raises with both values and keeps its binding; no existing binding ever changes |
| Env.Environment.PrintEnvironment | installer/src/com/cloudera/distribution/env.py:37-51 | nothing is printed for an empty environment; otherwise the banner, then one export line per variable in sorted key order |
| Env.Environment.ScriptContent | installer/src/com/cloudera/distribution/env.py:73-75 | the script is the bash shebang line followed by one newline-terminated export line per variable in sorted key order |
| Env.Environment.WriteEnvironmentScript | installer/src/com/cloudera/distribution/env.py:53-88 | nothing happens for an empty environment; a missing GlobalPrereq tool raises; otherwise `user_env` is written, at the absolute form of the path under the install prefix, with the script content; a failed write raises naming that file, and a failed symlink raises naming the link in the absolute config directory |
| PyStr.NormPath | installer/src/com/cloudera/distribution/env.py:70 | `os.path.normpath` never yields the empty string and keeps a path absolute exactly when it was |
| PyStr.AbsPathIsAbsolute | installer/src/com/cloudera/distribution/env.py:70 | `os.path.abspath` against an absolute working directory always yields an absolute path |
| PyStr.NormCompsClean | installer/src/com/cloudera/distribution/env.py:82 | the normalising fold yields components that are neither empty nor "." and hold no '/', and no ".." in an absolute path |
| PyStr.NormCompsOfClean | installer/src/com/cloudera/distribution/env.py:82 | the normalising fold leaves components that need no normalising as they are |
| PyStr.NormalPathUnchanged | installer/src/com/cloudera/distribution/env.py:82 | an absolute path that is already normal is its own normal form |
| PyStr.SplitOfJoin | installer/src/com/cloudera/distribution/env.py:82 | splitting a join of parts free of the separator gives the parts back |
| ToolInstall.NewTool | installer/src/com/cloudera/distribution/toolinstall.py:14-25 | a new tool reports the name it was given and no dependencies |
| ToolInstall.RunBasePhase | installer/src/com/cloudera/distribution/toolinstall.py:27-50 | exactly precheck and verify succeed on the base class; install, configure and postInstall raise `Called <phase>() on abstract ToolInstall` |
| DnsRegex.DigitsPrefix | installer/src/com/cloudera/distribution/dnsregex.py:16 | greedy `[0-9]{0,limit}`: takes only digits, at most the limit, and stops early only before a non-digit |
| DnsRegex.MoreIpGroups | installer/src/com/cloudera/distribution/dnsregex.py:16 | greedy `(\.[0-9]{1,10}){0,r}` never runs past the end of the input |
| DnsRegex.IpMatch | installer/src/com/cloudera/distribution/dnsregex.py:16 | a match of the IP pattern is non-empty and lies within the input |
| DnsRegex.LabelCharsPrefix | installer/src/com/cloudera/distribution/dnsregex.py:20 | greedy `[0-9A-Za-z_-]*`: takes only component characters and stops only before another character or at the end |
| DnsRegex.LabelPrefix | installer/src/com/cloudera/distribution/dnsregex.py:20 | a non-zero greedy match of one DNS component is a component and is not followed by a component character |
| DnsRegex.MoreLabels | installer/src/com/cloudera/distribution/dnsregex.py:21 | greedy `(\.component)*` never runs past the end of the input |
| DnsRegex.DnsMatch | installer/src/com/cloudera/distribution/dnsregex.py:21 | a match of the DNS-name pattern is non-empty and lies within the input |
| DnsRegex.DnsNameAndPortMatch | installer/src/com/cloudera/distribution/dnsregex.py:24 | a match of the name-and-port pattern lies within the input |
| DnsRegex.IpGroupsRecEquiv | installer/src/com/cloudera/distribution/dnsregex.py:16 | the split-on-dot description of IP groups equals the one that peels one group at a time |
| DnsRegex.DnsNameRecEquiv | installer/src/com/cloudera/distribution/dnsregex.py:21 | the split-on-dot description of DNS names equals the one that peels one component at a time |
| DnsRegex.FirstDotAt | installer/src/com/cloudera/distribution/dnsregex.py:16 | the first '.' is at a position with no earlier '.' that holds a '.' or is the end |
| DnsRegex.DigitsMeetDot | installer/src/com/cloudera/distribution/dnsregex.py:16 | greedy digits stop at the first '.' or the end exactly when the part before the first '.' is a group of one to ten digits |
| DnsRegex.LabelMeetsDot | installer/src/com/cloudera/distribution/dnsregex.py:20 | a greedy component stops at the first '.' or the end exactly when the part before the first '.' is a component |
| DnsRegex.MoreIpGroupsFull | installer/src/com/cloudera/distribution/dnsregex.py:16 | the repeated `.group` part consumes the whole rest exactly when the rest is empty or a '.' followed by at most r groups |
| DnsRegex.IsIpAddressCorrect | installer/src/com/cloudera/distribution/dnsregex.py:49-52 | isIpAddress accepts exactly one to four dot-separated groups of one to ten digits |
| DnsRegex.MoreLabelsFull | installer/src/com/cloudera/distribution/dnsregex.py:21 | the repeated `.component` part consumes the whole rest exactly when the rest is empty or a '.' followed by a DNS name |
| DnsRegex.IsDnsNameCorrect | installer/src/com/cloudera/distribution/dnsregex.py:54-57 | isDnsName accepts exactly the dot-separated sequences of components, each a letter followed by letters, digits, '_' or '-' |
| DnsRegex.LabelCharsStopAtColon | installer/src/com/cloudera/distribution/dnsregex.py:24 | component characters never run over a ':' |
| DnsRegex.LabelStopsAtColon | installer/src/com/cloudera/distribution/dnsregex.py:24 | a component never runs over a ':' |
| DnsRegex.MoreLabelsStopAtColon | installer/src/com/cloudera/distribution/dnsregex.py:24 | the repeated `.component` part never runs over a ':' |
| DnsRegex.DnsMatchStopsAtColon | installer/src/com/cloudera/distribution/dnsregex.py:24 | the DNS-name match of `name:rest` is the match of the name alone |
| DnsRegex.DigitsPrefixAll | installer/src/com/cloudera/distribution/dnsregex.py:24 | the unbounded digit run covers the whole input exactly when it is all digits |
| DnsRegex.IsDnsNameAndPortCorrect | installer/src/com/cloudera/distribution/dnsregex.py:67-70 | isDnsNameAndPort accepts exactly a DNS name, a ':' and a non-empty decimal port |
| DnsRegex.DigitsStopAtSlash | installer/src/com/cloudera/distribution/dnsregex.py:24 | a digit run never runs over a '/' |
| DnsRegex.SlashLeavesNameAndPort | installer/src/com/cloudera/distribution/dnsregex.py:24 | a '/' after the text leaves the name-and-port match unchanged, whether it is found and where it ends, so `x/` matches up to the '/' exactly when x is a name and port |
| DnsRegex.IpAndDnsDisjoint | installer/src/com/cloudera/distribution/dnsregex.py:16-21 | no string is both an IP address and a DNS name |
| DnsRegex.EmptyRejected | installer/src/com/cloudera/distribution/dnsregex.py:49-70 | the empty string is none of an IP address, a DNS name, or a name and port |
| DnsRegex.TrailingCharacterRejected | installer/src/com/cloudera/distribution/dnsregex.py:54-57 | a string ending in a character that is neither a component character nor '.' is not a DNS name |
| HiveInstall.NamenodeMatch | installer/src/com/cloudera/distribution/packages/hiveinstall.py:80-82 | a match of `hdfs://` + name-and-port + `/` lies within the input |
| HiveInstall.IsNamenodeAddressCorrect | installer/src/com/cloudera/distribution/packages/hiveinstall.py:101-105 | an address passes the NameNode check exactly when it is `hdfs://`, a DNS name, ':', a decimal port and a final '/' |
| HiveInstall.AcceptedIsSpec | installer/src/com/cloudera/distribution/packages/hiveinstall.py:101-105 | every accepted address has the declared form |
| HiveInstall.SpecIsAccepted | installer/src/com/cloudera/distribution/packages/hiveinstall.py:101-105 | every address of the declared form is accepted |
| HiveInstall.HiveParamsContents | installer/src/com/cloudera/distribution/packages/hiveinstall.py:120-144 | hive-default.xml gets exactly the fifteen keys, the metastore URI under the NameNode address, the warehouse directory, and intermediate compression `True` exactly when Hadoop can use LZO |
| HiveInstall.ChosenAddress | installer/src/com/cloudera/distribution/packages/hiveinstall.py:65-95 | the --namenode property wins, then Hadoop's fs.default.name; no address is chosen exactly when neither is set and the run is unattended |
| HiveInstall.AddressCheck | installer/src/com/cloudera/distribution/packages/hiveinstall.py:96-105 | the validation passes exactly for a present address of the NameNode form; a missing address and a malformed one raise their own errors |
| HiveInstall.GetHadoopInstaller | installer/src/com/cloudera/distribution/packages/hiveinstall.py:37-41 | the Hadoop installer is returned exactly when it is registered, and the error is raised otherwise |
| HiveInstall.HiveInstall.constructor | installer/src/com/cloudera/distribution/packages/hiveinstall.py:23-29 | a new Hive tool depends on GlobalPrereq and Hadoop and has no parameters and no NameNode address |
| HiveInstall.HiveInstall.ConfigureHdfsServer | installer/src/com/cloudera/distribution/packages/hiveinstall.py:65-105 | the address is stored before the Hadoop lookup can fail; with Hadoop registered it is the chosen address and the outcome is the address check; an interactive run with no other source takes the prompted answer, which the prompt loop only accepts once it matches, so it succeeds; the parameters are untouched |
| HiveInstall.HiveInstall.Configure | installer/src/com/cloudera/distribution/packages/hiveinstall.py:108-144 | the stored NameNode address is the --namenode property when Hadoop is not registered, and otherwise the chosen address; the outcome is the Hadoop lookup and address check; a failure leaves the parameters as they were, success rebuilds them from the address and Hadoop's LZO support |
| HiveInstall.HiveInstall.GetRedeployArgs | installer/src/com/cloudera/distribution/packages/hiveinstall.py:256-264 | no arguments exactly when no address is set, otherwise `--namenode` and the address |
| HadoopInstall.MasterNameCharsPrefix | installer/src/com/cloudera/distribution/packages/hadoopinstall.py:157 | greedy `[0-9A-Za-z._-]*`: takes only host-name characters and stops only before another character or at the end |
| HadoopInstall.MasterNameMatch | installer/src/com/cloudera/distribution/packages/hadoopinstall.py:157 | the DNS pattern of the master check matches exactly when the address starts with an ASCII letter |
| HadoopInstall.IpPrefixIffDigit | installer/src/com/cloudera/distribution/packages/hadoopinstall.py:154 | the IP pattern matches a prefix exactly when the address starts with a digit |
| HadoopInstall.MasterAddressCheck | installer/src/com/cloudera/distribution/packages/hadoopinstall.py:192-200 | the master address is accepted exactly when it starts with an ASCII letter; otherwise the format error is raised |
| HadoopInstall.DefaultHostName | installer/src/com/cloudera/distribution/packages/hadoopinstall.py:159-169 | the --hadoop-master property wins; otherwise the first line of `hostname --fqdn`, stripped, and no default exactly when the command failed or printed nothing |
| HadoopInstall.Clamp | installer/src/com/cloudera/distribution/packages/hadoopinstall.py:396-397 | max then min: the result never exceeds the upper bound, is at least the lower one when the bounds are ordered, and equals the input when it is in range |
| HadoopInstall.MasterThreadsAsWritten | installer/src/com/cloudera/distribution/packages/hadoopinstall.py:395 | the thread default as written is half the slaves rounded down |
| HadoopInstall.CeilHalf | installer/src/com/cloudera/distribution/packages/hadoopinstall.py:395 | half the slaves rounded up |
| HadoopInstall.MasterThreadsRoundDown | installer/src/com/cloudera/distribution/packages/hadoopinstall.py:395 | three slaves: one thread as written, two when rounding up |
| HadoopInstall.MasterThreadsAgreeIffEven | installer/src/com/cloudera/distribution/packages/hadoopinstall.py:395 | the code and the rounded-up half agree exactly for an even slave count |
| HadoopInstall.DefaultMasterThreads | installer/src/com/cloudera/distribution/packages/hadoopinstall.py:395-397 | corrected half of the Findings row for hadoopinstall.py:395 (as-written member: HadoopInstall.MasterThreadsRoundDown): the NameNode and JobTracker thread default lies within the bounds and is half the slaves rounded up when that is in range |
| HadoopInstall.DefaultParallelCopies | installer/src/com/cloudera/distribution/packages/hadoopinstall.py:411-413 | the parallel-copies default lies within the bounds and equals the reduces per job when that is in range |
| HadoopInstall.ISqrt | installer/src/com/cloudera/distribution/packages/hadoopinstall.py:428 | the integer square root: its square is at most n and the next square exceeds n |
| HadoopInstall.DefaultSubmitReplication | installer/src/com/cloudera/distribution/packages/hadoopinstall.py:428-432 | the submit-replication default lies within the bounds and is the floor of the square root of the slave count when that is in range |
| HadoopInstall.DefaultChildUlimit | installer/src/com/cloudera/distribution/packages/hadoopinstall.py:372-375 | the child ulimit default in KB is twice the task heap converted from MB, so a multiple of 2048 |
| HadoopInstall.UserProperty | installer/src/com/cloudera/distribution/packages/hadoopinstall.py:600-615 | a configured key is written with its value and marked final exactly when it is in the final-properties list |
| HadoopInstall.EpilogueProperties | installer/src/com/cloudera/distribution/packages/hadoopinstall.py:534-592 | the epilogue is four fixed properties (BLOCK compression, then three final socket-factory settings) and four non-final LZO ones exactly when LZO can be used |
| HadoopInstall.EndsWithTail | installer/src/com/cloudera/distribution/packages/hadoopinstall.py:609-612 | a concatenation ends with a tail no longer than its second part exactly when that part does |
| HadoopInstall.PropertyXmlMarksFinal | installer/src/com/cloudera/distribution/packages/hadoopinstall.py:609-615 | a property's XML ends with the final marker exactly when the property is final |
| HadoopInstall.CallWriteHadoopSiteEpilogue | installer/src/com/cloudera/distribution/packages/hadoopinstall.py:534 | the epilogue method succeeds exactly when called with the handle alone, and then writes the epilogue properties |
| HadoopInstall.OnlineSiteFileAlwaysRaises | installer/src/com/cloudera/distribution/packages/hadoopinstall.py:644 | as written, writing the online-configured site file always raises TypeError |
| HadoopInstall.HadoopInstall.constructor | installer/src/com/cloudera/distribution/packages/hadoopinstall.py:39-46 | a new Hadoop tool depends on GlobalPrereq, was not configured online, and has no Java home, settings or master host |
| HadoopInstall.HadoopInstall.GetHadoopSiteProperty | installer/src/com/cloudera/distribution/packages/hadoopinstall.py:49-52 | a configured key gives its value and any other key raises KeyError |
| HadoopInstall.HadoopInstall.DfsFileTarget | installer/src/com/cloudera/distribution/packages/hadoopinstall.py:497-532 | the dfs.hosts and exclude files are written exactly when the key was configured in the tool with a non-empty name, and to that name |
| HadoopInstall.HadoopInstall.ConfigMasterAddress | installer/src/com/cloudera/distribution/packages/hadoopinstall.py:139-203 | unattended runs without a default host raise "Master address not set"; otherwise the default (unattended) or the prompted address must pass the master check, and only then is it stored; nothing else changes |
| HadoopInstall.HadoopInstall.ConfigHadoopSite | installer/src/com/cloudera/distribution/packages/hadoopinstall.py:216-238 | an unattended run without a site file and a named site file that does not exist raise their errors; an interactive run without one records the online configuration and stores the answers; a given file changes nothing |
| HadoopInstall.HadoopInstall.SiteProperties | installer/src/com/cloudera/distribution/packages/hadoopinstall.py:639-644 | one property per configured key, each with its value and final marker, every key present, followed by the epilogue |
| HadoopInstall.HadoopInstall.InstallHadoopSiteFile | installer/src/com/cloudera/distribution/packages/hadoopinstall.py:597-653 | corrected half of the Findings row for hadoopinstall.py:644 (as-written member: HadoopInstall.OnlineSiteFileAlwaysRaises): online settings generate conf/hadoop-site.xml with one property per key carrying that key's value and final marker, followed by the epilogue, and a failed write is raised as an InstallError with the IOError's text; otherwise the user's site file is copied there, and a missing one fails |
| HadoopInstall.HadoopInstall.Configure | installer/src/com/cloudera/distribution/packages/hadoopinstall.py:721-727 | the master address is the default (unattended) or the prompted one; a missing or malformed one raises its error and changes nothing; otherwise it is stored and the outcome and new state are exactly those of the site-file configuration, with the Java home untouched |
| LogMoverInstall.NewCrontab | installer/src/com/cloudera/distribution/packages/logmoverinstall.py:284-298 | the new crontab keeps every existing line first and appends at most two jobs: the prune.py job exactly when no line mentions prune.py, the log_to_db.py job last when no line counts for it, and nothing exactly when neither is needed |
| LogMoverInstall.FindsMiddle | installer/src/com/cloudera/distribution/packages/logmoverinstall.py:288 | a piece of a concatenation is found in it |
| LogMoverInstall.PruneJobMentionsPrune | installer/src/com/cloudera/distribution/packages/logmoverinstall.py:296 | the appended prune.py job mentions prune.py |
| LogMoverInstall.LogToDbJobMentionsLogToDb | installer/src/com/cloudera/distribution/packages/logmoverinstall.py:298 | the appended log_to_db.py job mentions log_to_db.py |
| LogMoverInstall.NewCrontabHasBothJobs | installer/src/com/cloudera/distribution/packages/logmoverinstall.py:284-298 | when the log_to_db.py job does not itself mention prune.py, the new crontab needs neither job |
| LogMoverInstall.NewCrontabIdempotent | installer/src/com/cloudera/distribution/packages/logmoverinstall.py:284-300 | in that case running the installer again on its own crontab appends nothing |
| LogMoverInstall.IndistinguishableJobsGrow | installer/src/com/cloudera/distribution/packages/logmoverinstall.py:288-298 | when the log_to_db.py job's path mentions prune.py, every rerun appends the log_to_db.py job once more |
| LogMoverInstall.BothScriptsOnOneLine | installer/src/com/cloudera/distribution/packages/logmoverinstall.py:288-293 | a line naming both scripts counts only for prune.py, so the log_to_db.py job is still appended |
| LogMoverInstall.ScanStep | installer/src/com/cloudera/distribution/packages/logmoverinstall.py:287-293 | one more line clears the prune flag when it mentions prune.py, and the log_to_db.py flag only when it mentions log_to_db.py but not prune.py |
| LogMoverInstall.InstallCronjob | installer/src/com/cloudera/distribution/packages/logmoverinstall.py:264-319 | the scan loop yields the new crontab from the existing one (empty when unreadable); it is reinstalled exactly when a job was appended, and only a failed reinstall raises |
| LogMoverInstall.UsePasswd | installer/src/com/cloudera/distribution/packages/logmoverinstall.py:167-168 | mysql is asked for a password exactly when the run is interactive or the superuser password is not empty |
| LogMoverInstall.DestroyCommand | installer/src/com/cloudera/distribution/packages/logmoverinstall.py:245-255 | with a backup the cleanup command is `mv` of that backup onto the .my.cnf file; without one it is `rm` of the file |
| LogMoverInstall.FreshCleanupRaises | installer/src/com/cloudera/distribution/packages/logmoverinstall.py:225-262 | as written, a fresh installer with no earlier .my.cnf creates the file and then fails reading the never-assigned backup attribute when cleaning up |
| LogMoverInstall.LogMoverInstall.constructor | installer/src/com/cloudera/distribution/packages/logmoverinstall.py:34-35 | corrected half of the Findings row for logmoverinstall.py:252: a new LogMover tool has no dependencies and no roles, and its .my.cnf backup starts as None, which the source never assigns (the as-written half is FreshCleanupRaises) |
| LogMoverInstall.LogMoverInstall.CreateMyCnf | installer/src/com/cloudera/distribution/packages/logmoverinstall.py:225-243 | the backup of an existing .my.cnf is recorded, otherwise it is left as it was; the call fails with the permissions error exactly when chmod fails |
| LogMoverInstall.LogMoverInstall.BootstrapMysql | installer/src/com/cloudera/distribution/packages/logmoverinstall.py:162-262 | both scripts run with `-p` unless unattended with an empty password, the second only after the first succeeded; a temporary .my.cnf is created exactly for unattended runs with a password, and a failed chmod on it stops the bootstrap with the permissions error before any script runs; a failed script raises the bootstrap error; only after both scripts succeed is the file cleaned up (the backup moved back, or the file removed), and a failed cleanup raises the clean-up error; no error exactly when every step that ran succeeded |
| LogMoverInstall.LogMoverInstall.RestoreState | installer/src/com/cloudera/distribution/packages/logmoverinstall.py:372-378 | the roles are recorded and only state from version 0.2.0 is accepted; any other version raises naming it |
| LogMoverInstall.FreshBootstrapRestores | installer/src/com/cloudera/distribution/packages/logmoverinstall.py:162-262 | on a fresh installer an unattended bootstrap with a password cleans up by restoring the backup when a .my.cnf existed and by deleting the file otherwise |
| LogMoverInstall.InstallSteps | installer/src/com/cloudera/distribution/packages/logmoverinstall.py:56-65 | install runs the five steps on the master, with the MySQL bootstrap then the cron job last, and nothing elsewhere |
| LogMoverInstall.PostInstallSteps | installer/src/com/cloudera/distribution/packages/logmoverinstall.py:335-357 | nothing off the master; on the master the two symlinks first, then MySQL and lighttpd are stopped exactly when daemons may not be started |

## Left out

- Threads, locks and `synchronized` blocks are not modelled; each method is one atomic step. Also left out: logging, metrics, JMX, the Jackson serializers and date formatting of the REST view, and `VersionInfo`.
- The server and RPC wiring around these classes is not part of this model. Neither are the resource-manager connectors, the single-queue application master, or the listener fan-out of `MultiQueueLlamaAM.handle`. These are I/O and thread plumbing.
- Stored reservations are values, so Java aliasing between the maps and the caller's objects is not captured.
  - The `PlacedReservationImpl` copy constructor is therefore the identity on values.
  - The unmodifiable view of its resource list has no counterpart.
  - The defensive copy in `Reservation` is captured only as "the stored list equals the argument".
- `RestData` keeps its handle, queue and node indexes and the handle index's iteration order in one field of the datatype `Indexes`. The Java class has separate fields. An operation that changes several indexes replaces the record in one assignment.
- Methods that loop over a class's collections read the fields into locals, loop over those copies and assign the fields once at the end. The Java loops change the fields in place. Since each method is one atomic step, nothing can observe the difference.
- `PlacedResourceImpl.createPlaced` and `PlacedReservationImpl.createReservationForExpansion` are not part of this model. A placed resource is the requested one linked to its reservation. An expansion request is recorded in the call log as the original and the expansion it is built from.
- The wrapped application master and the delegates are reduced to call logs. What they answer is a parameter wherever the model returns it. The failure of a wrapped call is a parameter for these members:
  - `ApiContract.APIContractLlamaAM`: Start, GetNodes, Reserve, GetReservation, ReleaseReservation and ReleaseReservationsForClientId;
  - `GangAntiDeadlock.GangAntiDeadlockLlamaAM`: Reserve, ReleaseReservation, and the releases and re-reservations of the back-off;
  - `MultiQueue.MultiQueueLlamaAM`: GetLlamaAM, Start, Reserve and ReleaseReservationsForClientId;
  - `ClientNotify.ClientNotifier.Run`: the call to the client.
  Elsewhere a wrapped call is taken to succeed. In `Expansions.ExpansionReservationsLlamaAM` a failed release of an expansion would only be logged, and the next release would still happen; any other failure there would propagate unchanged.
- The clock, `Random` and the delay queues are modelled as follows:
  - the clock is a parameter;
  - `Random` is a nondeterministic choice within the documented bounds;
  - which queued notifier the executor takes next is the caller's choice, and `Run` requires it to be on the queue;
  - the gang back-off queue holds one entry per reservation id (a map), polled earliest deadline first.
- HiveInstall.HiveInstall.ConfigureHdfsServer: the prompt loop (hiveinstall.py:85-94) is one parameter, `prompted`, the answer the loop ended with. It is required to match the address pattern, because the loop cannot end otherwise. The loop calls `prompt.getString` (hiveinstall.py:89), but the file never imports `prompt` (lines 7-19). The call works only if `constants` re-exports it, and constants.py is not part of this model; otherwise the call raises NameError.
- HiveInstall.HiveInstall.Configure: the same requirement on `prompted` as `ConfigureHdfsServer`.
- ToolInstall.NewTool: the subclasses call `ToolInstall.__init__(self, name, properties)` (hadoopinstall.py:40, hiveinstall.py:24, logmoverinstall.py:35). The base class in this source takes only the name (toolinstall.py:14), so as written those calls raise TypeError. They were evidently written against a later base class that also stores the properties. The model follows that intent: the constructors of the tools set the name and dependencies and take their properties as method parameters, and `NewTool` models the base class as written.
- GangAntiDeadlock.GangAntiDeadlockLlamaAM.GReserve: requires that the id is not already held or backed off. Ids come from fresh UUIDs; the Java map would overwrite a repeated id.
- GangAntiDeadlock.GangAntiDeadlockLlamaAM.Reserve: the same requirement as `GReserve`.
- GangAntiDeadlock.GangAntiDeadlockLlamaAM.constructor: requires `0 < backOffMaxDelay - backOffMinDelay <= Integer.MAX_VALUE`. Outside that range `Random.nextInt` throws, or the long-to-int cast wraps.
- GangAntiDeadlock.TruncDiv: the back-off target `numberOfGangResources * backOffPercent / 100` uses unbounded integers. Java's 32-bit overflow of the product is not modelled.
- The gang layer reads a reservation's client id; the model takes it to be the reservation's handle.
- Expansions.ExpansionReservationsLlamaAM.ReleaseReservationsForHandle: the new cross-reference map is bounded, not stated exactly. The contract says every released original has lost its entry, every released expansion has left its parent's set, and nothing was added.
- Expansions.ExpansionReservationsLlamaAM.Expand: the three-argument `releaseReservation` used when the original vanished is recorded in the call log; its own failure is not modelled.
- `start`, `stop`, `isRunning`, `getNodes` and `emptyCacheForQueue` of `ExpansionReservationsLlamaAM` (lines 104-122 and 264-266) are left out. They only pass the call on and touch no state of the wrapper.
- The Java `Status` enums of `PlacedResource` and `PlacedReservation` are Dafny datatypes with exactly the listed constructors. Enforcement enums are kept by name: `valueOf` is a lookup in a set of names given as a parameter.
- Java's `hashCode` is modelled as the 32-bit fold of the id's two halves.
- Rest.SortedMapSummary: the queue and node maps are `TreeMap`s ordered by `String.compareTo`. The model orders by code points (`StrLess`), which differs from UTF-16 order only for characters outside the Basic Multilingual Plane.
- Rest.UpdateOfUnindexed and the `*KeepsIndexed` lemmas: the index invariant is proved for values whose handle, queue and locations do not change between observations.
- Cross references and summaries are maps and sequences; JSON key order is not modelled.
- ClientNotify.ClientNotifier.Handle: whether the event is empty (`LlamaAMEvent.isEmpty`) is a parameter.
  - The two-argument `toAMNotification(event, nodeMapper)` called there is represented by the one-argument form of `TypeUtils`.
  - `TypeUtils.createHearbeat` is not part of this model.
- ClientNotify.ClientNotifier.Run: the Thrift call and its failure are parameters. So is whether the handle is still registered.
- The installer's prompt loops are not modelled; the value a loop ended with is a parameter. The same holds for shell, `tar`, `crontab`, `mysql` and `getToolByName` lookups: their outcomes are inputs.
- File writes are modelled only where a member below has an outcome input for them: `user_env` and its symlink (Env.Environment.WriteEnvironmentScript) and the generated hadoop-site.xml (HadoopInstall.HadoopInstall.InstallHadoopSiteFile). The other writes of the installer, including the masters, slaves and hive-default.xml files of the `install` steps, are not part of this model. The lines below name the modelled members that perform a write without an outcome input.
- Env.Environment.WriteEnvironmentScript: `os.path.abspath` reads the process's working directory; the model takes it as the parameter `cwd`.
- LogMoverInstall.LogMoverInstall.CreateMyCnf: the `open` and writes of `.my.cnf` (logmoverinstall.py lines 234-237) are taken to succeed. The installer does not catch an IOError there, so it would end the run; the model has no outcome input for it.
- LogMoverInstall.LogMoverInstall.BootstrapMysql: takes the `.my.cnf` write to succeed, through LogMoverInstall.LogMoverInstall.CreateMyCnf.
- LogMoverInstall.InstallCronjob: the temporary crontab file (logmoverinstall.py lines 303-312) is taken to be written in full. When `mkstemp` fails the code only logs, and line 316 then reads the unassigned `tmpFilename`, which raises UnboundLocalError. When a later write fails, the partly written file is installed. Neither case is modelled, and neither is the removal of the temporary file (lines 321-325), whose failure is only logged.
- HadoopInstall.HadoopInstall.DfsFileTarget: only which file is written is modelled. The write itself, and its IOError raised again as InstallError (hadoopinstall.py lines 500-505 and 520-523), are not.
- The floating-point defaults of `hadoopinstall.py` (0.95×, 0.75×, 0.5×, 1.2×) are left out, as is the rest of its `install` step. `constants.py` is not part of this model: the clamp bounds and the final-property list are parameters.
- CdhLib.StripRemotePrefix: Python's `$` also matches before a trailing newline. The patterns with `$` in `cdh_lib.py` are modelled for names that hold no newline. The names come from split, stripped lines.
- CdhLib.GetVersion: `git merge-base` and the `git rev-list` it feeds are inputs. The commit count is the length of that output.
- Rest.UpdateToMapList: models the corrected update, which replaces every copy of the reservation. The code replaces only the first copy; that behaviour is Rest.UpdateToMapListAsWritten (see Findings).
- Rest.RestData.Update: uses the corrected Rest.UpdateToMapList, so it does not reproduce the stale copy the code leaves behind; Rest.UpdateAsWrittenLeavesStale exhibits that (see Findings).
- HadoopInstall.DefaultMasterThreads: models the intended rounding up. The code rounds down for an odd number of slaves; that is HadoopInstall.MasterThreadsRoundDown (see Findings).
- HadoopInstall.HadoopInstall.InstallHadoopSiteFile: models the intended online branch, which writes the epilogue. The code raises TypeError there; that is HadoopInstall.OnlineSiteFileAlwaysRaises (see Findings).
- HadoopInstall.EpilogueProperties: LZO support is a parameter. `canUseLzo` in hadoopinstall.py (lines 106-109) is a stub that always returns False, so the code never writes the LZO properties.
- HadoopInstall.HadoopInstall.InstallHadoopSiteFile: the copy of the user's file calls `shutil.copyfile` (hadoopinstall.py line 653), but the file does not import `shutil` (lines 7-19). It works only if `constants`, imported with `*`, re-exports `shutil`. `constants.py` is not part of this model, so the copy is taken to succeed when the file exists; this is not established.
- LogMoverInstall.LogMoverInstall.constructor: starts `myCnfBackup` as None, the correction. The code never initialises it; that is LogMoverInstall.FreshCleanupRaises (see Findings).
- TypeUtils.ToReservation: the old-generation `Reservation` and `Resource` classes imported at TypeUtils.java:22 are not part of this model. Their constructors are taken to store their arguments unchanged (llama_am.dfy declares them as plain datatypes).

## Findings

| source | as written | input that shows it | evidently intended | confidence | as-written member | corrected member |
|---|---|---|---|---|---|---|
| installer/src/com/cloudera/distribution/packages/hadoopinstall.py:395 | `int(math.ceil(numSlaves / 2))` divides two Python 2 integers first, so the ceiling never rounds up | three slaves give one thread | half the slaves rounded up (two for three slaves) | medium, not executed | HadoopInstall.MasterThreadsRoundDown | HadoopInstall.DefaultMasterThreads |
| installer/src/com/cloudera/distribution/packages/hadoopinstall.py:644 | `self.writeHadoopSiteEpilogue(self, handle)` passes the instance twice to a method taking only the handle | any interactive run that writes hadoop-site.xml raises TypeError | write the epilogue on the handle | high, not executed | HadoopInstall.OnlineSiteFileAlwaysRaises | HadoopInstall.HadoopInstall.InstallHadoopSiteFile |
| installer/src/com/cloudera/distribution/packages/logmoverinstall.py:252 | `destroyMyCnf` reads `self.myCnfBackup`, which only `createMyCnf` assigns and only when a `.my.cnf` already existed | an unattended install with a superuser password on a host without `/root/.my.cnf` raises AttributeError during cleanup | initialise the backup to None, so the temporary file is deleted | high, not executed | LogMoverInstall.FreshCleanupRaises | LogMoverInstall.FreshBootstrapRestores |
| llama/src/main/java/com/cloudera/llama/am/RestData.java:196-211 | `updateToMapList` replaces only the first equal element, so a reservation listed twice under one node keeps a stale copy | a reservation with two resources on node "n" updated from PENDING to ALLOCATED | every listed copy is the new value | medium, not executed | Rest.UpdateAsWrittenLeavesStale | Rest.IndexAfterUpdate |
