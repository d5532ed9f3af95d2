# Warmth Fabric in Dafny

Warmth Fabric tracks how prepared ("warm") the parts of an inference runtime are: models, adapters, kernels,
graphs, caches.  A coordinator owns the authoritative state and talks to workers over framed messages; a fabric
does the same inside one process, persists what it knows and recovers it after a restart.  This project models
that behaviour and proves it correct, for every run and every input.

What is proved, hardest first:

- **Authority** (`CoordinatorModel`, `CoordinatorInvariant`, `CoordinatorEffects`, `CoordinatorHistory`,
  `Coordinator`).  A state machine
  with one step per critical section: HELLO, REPORT, WARM_RESULT, disconnect, the two sections of `issue_warm`,
  generation bumps and the epoch roll, in any order.  Readiness needs a live connection; every rise to readiness is
  a result of its own command issued since the last roll, or an object's first arrival as HOT; the budget books are exact at every lock release; an
  epoch roll fences off every earlier tag, even one read torn; a changed boot withdraws what the old one vouched for.
- **Concurrent warming** (`FabricModel`, `FabricProofs`, `FabricEffects`, `Fabric`).  Any number of three-phase `warm` calls
  interleaved with everything else, recoveries included: admission control, invalidations that cannot be undone, ready objects without an
  invalidation reason.
- **Bytes** (`Crc32`, `Bytes`, `ObjectGrammar`, `ObjectCodec`, `Snapshot`, `SnapshotCodec`, `Frame`, `Message`,
  `MessageCodec`; `Format`, `SnapshotFormat`, `MessageFormat`).  Each format as a table of fields, with every decoder
  accepting exactly the byte strings of its table; round trips with the exact conditions under which they hold,
  agreement of the two object codecs, canonical re-encoding, and rejection of corruption by an algebraic argument about
  the CRC-32 register.
- **Recovery** (`Recovery`, `RecoveryFailures`).  From a run of the fabric through its snapshot file and back, and the
  runs in which that goes wrong.
- **SHA-256** (`Sha256`, `Sha256Constants`, `KnownAnswers`), **JSON** (`Json`, `JsonSyntax`, `JsonCodec`), **decay** (`Decay`) and **budgets** (`Budget`).

Code that works by changing things step by step is a class or a method with loops, proved equal to a function; the
properties are lemmas about those functions and about runs of them, and the Effects modules say of each operation,
without naming the functions that compute it, what it does to every field.  For bytes, `PutX(v, tail)` is what is written
for v in front of `tail`, and `GetX(s)` is what a reader positioned at s obtains together with the rest.  Identities
are 128-bit numbers (their byte order is big-endian, so their order is the numeric one), doubles are their 64-bit
patterns, machine integers are bounded and wrap where the source wraps.

A run assumes only that frames arrive on live connections and that no counter reaches 2^64; nothing is assumed about
what peers send or in what order.  The budget, settling, the epoch fence, the boot withdrawal and the origin of every
rise hold in all such runs.  Some properties do not.  Each of those has its exact condition, for every run, and a run
that reaches its failure:

- readiness backed by a live connection (`BackedExactly`) and a sound registry (`EntriesExactly`): broken in
  `SecondWorkerIdBreaksAttribution`;
- the boot gate (`BootGateExactly`): broken in `StaleBootIsAccepted`; live connections all in the registry
  (`LiveConnectionsAreInRegistry`): broken in `ReconnectionLeavesRegistry`;
- commands as the only way to readiness (`OnlyResultsRaise`): broken in `HotHelloMakesReady`;
- admission under recovery (`AdmissionExactly`): broken in `RecoveryConfusesReservations`;
- ready objects without a reason, no object HOT (`CleanExactly`, `CoolExactly`): broken in `HotFileBreaksClean`;
- no object left PREPARING (`PreparingExactly`): broken in `PreparingFileBreaks`;
- a registry that can be saved (`SavableExactly`): broken in `NanDurationBreaksSave` and
  `RecoveryBetweenReadAndFiling`; a save that reads back (`InStepExactly`): broken in `RecoveryBreaksNextSave`.

The two assumptions a theorem may name are `OneWorkerPerConnection` and `NoPeerSendsHot`.

Where the code and its documentation disagree the code is followed.  README.md:101-104 lists impossible transitions
among what decoding a snapshot rejects, but the decoder accepts any of the ten states.  docs/architecture.md:42-43
calls the printer's output JSON, but a quotation mark is emitted unescaped (`ReadsBackIffQuoteFree`).  A
fabric that has recovered can save again, but that file cannot be read back (`SecondSaveUnreadable`).
src/coordinator.cpp:183 means to demote every ready object a peer reports for the first time, but one that is HOT
stays so (`ObservedReadyIffHot`).

## Model

| member | source | states |
|---|---|---|
| CoordinatorHistory.ReadyNeedsLiveWorker | src/coordinator.cpp:164-190 | Where no connection changes its worker id, an execution-ready object is in every state attributed to the worker of some registered connection that has not been disconnected, under any interleaving of HELLO, REPORT, WARM_RESULT, disconnect, issue, failed send, bumps and roll, HOT objects included. |
| CoordinatorHistory.BackedExactly | src/coordinator.cpp:164-190 | The same for every run, exactly: all ready objects are so backed in every state up to n iff each accepted HELLO before n left every object still ready attributed to the worker it names, listed in it, or attributed to the worker of another live connection. |
| CoordinatorHistory.BooksBalance | src/coordinator.cpp:119-122 | At every lock release the live reservations are exactly the disjoint union of those held by the attempts in flight, device usage is 2^30 per attempt, the counter is the number of attempts, and the books balance iff nothing is in flight. |
| CoordinatorHistory.SettleReleasesLiveReservations | src/coordinator.cpp:246-284 | Settling an attempt releases two reservations that are live at that moment; neither release is reported as unknown or double. |
| CoordinatorHistory.RollReleasesLiveReservations | src/coordinator.cpp:103-108 | Every release the roll performs, in map order, hits a live reservation. |
| CoordinatorHistory.ReleasedForGood | src/coordinator.cpp:341-384 | A reservation id that stops being live is never live again in the run, so with the two lemmas above each reservation is released exactly once. |
| CoordinatorHistory.OnlyResultsRaise | src/coordinator.cpp:242-283 | A step takes an object from not ready to ready iff it is an accepted, successful WARM_RESULT for it, or an accepted HELLO or REPORT that files it for the first time and whose first entry for it says HOT. |
| CoordinatorHistory.AttemptOrigin | src/coordinator.cpp:361-363 | Every attempt in flight was entered by an earlier issue step for its object, with no roll since, and its worker is that of the connection registered for the preferred worker, or, without a preference, for the least registered id. |
| CoordinatorHistory.EveryRiseIsItsOwnAttempt | src/coordinator.cpp:242-283 | In every run, whatever peers send, an object not ready becomes ready at a step iff the step completes an earlier issue for that object and the delivering worker made since the last roll, or the object arrives HOT for the first time; different completions go back to different issues. |
| CoordinatorHistory.EntersHotOnce | src/coordinator.cpp:180-187 | An object becomes ready on a peer's word at most once in a run. |
| CoordinatorHistory.WithoutHotOnlyCommandsRaise | src/coordinator.cpp:242-283 | Where no peer sends HOT, every rise is the completion of its own issue. |
| CoordinatorHistory.SettlesOnce | src/coordinator.cpp:282-284 | No attempt leaves the in-flight table twice, whether by a result, a failed send or a roll. |
| CoordinatorHistory.RollFencesOffOldTags | src/coordinator.cpp:204-207 | If any single component of a tag was current at or before a roll - the acknowledgement reads them outside the lock, so they may be torn - no REPORT or WARM_RESULT carrying that tag changes anything after the roll. |
| CoordinatorHistory.BumpFencesOffOldTags | src/coordinator.cpp:79-86 | The same for a single bump of the dependency or the warmth generation. |
| CoordinatorHistory.RollStartsClean | src/coordinator.cpp:87-110 | Right after the roll of any run nothing is ready, in flight, counted or reserved. |
| CoordinatorHistory.BootChangeWithdraws | src/coordinator.cpp:172-175 | A step that changes the boot on record for a worker leaves every object previously attributed to it not ready with its four device dimensions COLD. |
| CoordinatorHistory.BootChangesOnlyWhenGone | src/coordinator.cpp:165-171 | Where no connection changes its worker id, the boot on record for a worker changes only while that worker is not registered: a live worker is never replaced by another boot. |
| CoordinatorHistory.EntriesCarryLastBoot | src/coordinator.cpp:165-178 | Where no connection changes its worker id, every entry of the worker registry is a live registered connection of that worker carrying the boot on record. |
| CoordinatorHistory.EntriesExactly | src/coordinator.cpp:165-178 | The same for every run, exactly: all entries are sound in every state up to n iff no accepted HELLO before n renamed the connection that the registry held for another worker. |
| CoordinatorHistory.BootGateExactly | src/coordinator.cpp:165-178 | In every run: each live registered connection carries the last boot of its worker in every state up to n iff no worker id ever has two live registered connections with different boots, and iff every accepted HELLO agrees on the boot with the other live connections of its worker. |
| CoordinatorHistory.StepBootGate | src/coordinator.cpp:164-178 | One step keeps the gate iff an accepted HELLO agrees with the other live connections of its worker; no other step can break it. |
| CoordinatorHistory.AuthorisedMeansLastBoot | src/coordinator.cpp:204-204 | As the fence sees it: every authorised REPORT or WARM_RESULT of a live connection carries the last boot registered for its worker, in all states of a run up to n, iff no worker id has two live connections with different boots; a reconnection under the same boot is harmless. |
| CoordinatorHistory.LiveConnectionsAreInRegistry | src/coordinator.cpp:304-305 | In every run every live registered connection is the registry's entry for its worker, in all states up to n, iff no worker id has two live registered connections. |
| CoordinatorHistory.StaleBootIsAccepted | src/coordinator.cpp:165-171 | The boot gate can fail: a concrete run ends with an older connection authorised under boot 10 while the boot on record is 11. |
| CoordinatorHistory.SecondWorkerIdBreaksAttribution | src/coordinator.cpp:176-178 | Attribution and the registry can fail: a concrete run (connect, register as worker 1, issue, successful result) reaches a state where both hold, and a second HELLO naming worker 2 on the connection leaves the ready object without any live connection and worker 1's entry on a connection that is no longer its own. |
| CoordinatorHistory.ReconnectionLeavesRegistry | src/coordinator.cpp:165-178 | A concrete run ends with two live connections of one worker under one boot: the boot gate holds, the older one is not the registry's. |
| CoordinatorHistory.HotHelloMakesReady | src/coordinator.cpp:180-187 | A concrete run in which, with no command ever issued, a HELLO listing a new object as HOT leaves it ready. |
| CoordinatorInvariant.ObservedReadyIffHot | src/coordinator.cpp:183-184 | An object taken over from a peer is ready exactly when it arrived HOT: HOT to DISCOVERED is not an edge, every other ready state is demoted. |
| CoordinatorInvariant.RefreshKeepsReadiness | src/coordinator.cpp:218-227 | Refreshing a known object from a report never changes whether it is ready. |
| CoordinatorInvariant.HelloKeepsInvariant | src/coordinator.cpp:164-190 | A HELLO that does not rename its connection, accepted or refused, with any objects, keeps registry, attribution, accounting and keying. |
| CoordinatorInvariant.HelloEntriesExactly | src/coordinator.cpp:171-178 | An accepted HELLO keeps the registry sound iff it does not rename the connection the registry holds for another worker. |
| CoordinatorInvariant.HelloAttribution | src/coordinator.cpp:171-190 | An accepted HELLO keeps attribution iff every object still ready after the boot withdrawal is attributed to the worker it names, listed in it, or attributed to the worker of another live connection. |
| CoordinatorInvariant.ObserveAllExactly | src/coordinator.cpp:179-188 | After a HELLO exactly the objects attributed before or listed are attributed, and an unknown object is ready iff its first entry says HOT. |
| CoordinatorInvariant.ReportAllExactly | src/coordinator.cpp:209-230 | The same for a REPORT. |
| CoordinatorInvariant.ReportKeepsInvariant | src/coordinator.cpp:203-231 | A REPORT keeps the whole invariant, HOT objects included. |
| CoordinatorInvariant.ResultKeepsInvariant | src/coordinator.cpp:241-286 | A WARM_RESULT keeps the whole invariant, whatever it carries. |
| CoordinatorInvariant.SettleKeepsAccounting | src/coordinator.cpp:248-283 | Settling removes exactly the two reservations of the attempt, and the books stay exact. |
| CoordinatorInvariant.WarmedIsReady | src/coordinator.cpp:253-276 | A successful result leaves its object execution-ready whatever state it was in. |
| CoordinatorInvariant.DisconnectKeepsInvariant | src/coordinator.cpp:301-320 | A disconnect keeps the invariant: no object of the lost worker stays ready. |
| CoordinatorInvariant.LostIsNotReady | src/coordinator.cpp:312-317 | The decay applied on disconnect leaves no object ready, its id as it was and its four device dimensions SUSPECT. |
| CoordinatorInvariant.IssueKeepsInvariant | src/coordinator.cpp:346-368 | The first critical section of issue_warm keeps the invariant, so a roll or a result may land before the second. |
| CoordinatorInvariant.UnlimitedAlwaysAdmits | src/coordinator.cpp:357-361 | The coordinator's tracker has no limits, so both reservations of a command always succeed. |
| CoordinatorInvariant.RollKeepsInvariant | src/coordinator.cpp:87-110 | Rolling the epoch keeps the invariant. |
| CoordinatorInvariant.RollClearsEverything | src/coordinator.cpp:92-108 | From any state whose books are exact, a roll leaves nothing ready, all device dimensions COLD, nothing in flight and no usage. |
| CoordinatorInvariant.StepKeepsInvariant | src/coordinator.cpp:150-384 | Every step that does not rename a connection keeps the invariant. |
| CoordinatorInvariant.RunKeepsInvariant | src/coordinator.cpp:150-384 | Where no connection changes its worker id, every state of a run satisfies the whole invariant. |
| CoordinatorInvariant.StepKeepsBase | src/coordinator.cpp:150-384 | Every step, whatever peers send, keeps objects filed under their own id and the books exact. |
| CoordinatorInvariant.RunKeepsBase | src/coordinator.cpp:150-384 | So every state of every run has them. |
| CoordinatorInvariant.StepEntries | src/coordinator.cpp:150-384 | A step keeps the registry sound iff it is not an accepted HELLO that renames another worker's entry. |
| CoordinatorInvariant.StepAttribution | src/coordinator.cpp:150-384 | A step keeps attribution iff it is not an accepted HELLO that leaves a ready object without a live connection. |
| CoordinatorEffects.HelloRefusal | src/coordinator.cpp:157-170 | A HELLO of a foreign version, or of a worker id live under another boot, changes nothing. |
| CoordinatorEffects.HelloRegisters | src/coordinator.cpp:172-178 | Any other HELLO makes its connection the worker's registry entry and its boot the boot on record, and touches no other connection, entry, counter or attempt. |
| CoordinatorEffects.HelloAttributes | src/coordinator.cpp:172-188 | After it exactly the listed objects, and unless the boot is new those of before, are attributed to the worker; no other worker's attribution changes. |
| CoordinatorEffects.HelloKnown | src/coordinator.cpp:172-188 | It leaves a known object as it is, except that a new boot withdraws those attributed to the worker: live or stale become INVALIDATED with the reason, dimensions 5 to 8 go cold, nothing else changes. |
| CoordinatorEffects.HelloNew | src/coordinator.cpp:179-187 | It files an unknown object from the first entry with its id, with provenance REPORTED and WARM turned into DISCOVERED. |
| CoordinatorEffects.HelloNothingElse | src/coordinator.cpp:179-189 | It files nothing but what was known or is listed. |
| CoordinatorEffects.ReportFence | src/coordinator.cpp:203-230 | A REPORT is refused, changing nothing, unless its connection is registered under its boot and all three tag components are current; otherwise it changes only objects and its own worker's attribution. |
| CoordinatorEffects.ReportObjects | src/coordinator.cpp:208-230 | An authorised REPORT, for every list and id: unmentioned objects are untouched; a known one takes dimensions, observed time and residency of the last entry with its id, the time and the provenance, and becomes DISCOVERED only if some entry calls it ready and it is neither ready nor partially warm; a new one is its first entry overlaid by its last. |
| CoordinatorEffects.ResultSettles | src/coordinator.cpp:241-285 | A WARM_RESULT changes nothing unless it carries the authority and its attempt is in flight for its object and worker; otherwise the attempt and its two reservations go, and nothing else but objects and attribution. |
| CoordinatorEffects.ResultSucceeds | src/coordinator.cpp:252-277 | On success the object, created first if unknown, ends WARM or stays HOT with the measured cost and time, the current generation, both times, MEASURED and DEVICE_RESIDENT, and is attributed; an invalidation is cleared only if the object was INVALIDATED. |
| CoordinatorEffects.ResultFails | src/coordinator.cpp:278-281 | On failure a known object ends FAILED with the reported error unless it was evicted, is not ready, and no other object or attribution changes; an unknown one stays unknown. |
| CoordinatorEffects.DisconnectEffect | src/coordinator.cpp:301-320 | A lost connection is dead, its entry goes iff it was the worker's, and the worker's attributed objects alone change: what was alive or being prepared goes STALE, dimensions 5 to 8 become SUSPECT. |
| CoordinatorEffects.IssueRefusal | src/coordinator.cpp:346-356 | With the preferred worker unregistered, or nobody registered, issue_warm changes nothing. |
| CoordinatorEffects.IssueEnters | src/coordinator.cpp:346-366 | Otherwise the attempt is entered under the attempt counter for that object and for the worker of the preferred entry, or of the least registered id. |
| CoordinatorEffects.IssueHolds | src/coordinator.cpp:357-363 | It holds two reservations the ledger never handed out before. |
| CoordinatorEffects.SendFailedEffect | src/coordinator.cpp:370-380 | A failed send takes the attempt and its reservations back if it is still in flight. |
| CoordinatorEffects.RollEffect | src/coordinator.cpp:87-110 | A roll advances the three counters, empties the in-flight table and the ledger, and withdraws every object, field by field. |
| Coordinators.Coordinator.constructor | include/warmth/coordinator.hpp:113-125 | A fresh coordinator is the initial state of the runs. |
| Coordinators.Coordinator.OnHello | src/coordinator.cpp:164-190 | The handler equals the HELLO step, whose effect the lemmas from HelloRefusal to HelloNothingElse give, and reports acceptance. |
| Coordinators.Coordinator.ObserveAll | src/coordinator.cpp:179-188 | The loop over observed objects adds unknown ones demoted and attributes each to the worker. |
| Coordinators.Coordinator.InvalidateWorker | src/coordinator.cpp:322-339 | Withdraws every attributed object and forgets the attribution. |
| Coordinators.Coordinator.RevokeEach | src/coordinator.cpp:325-337 | The loop that invalidates live or stale objects, records the reason and resets four device dimensions. |
| Coordinators.Coordinator.OnReport | src/coordinator.cpp:203-234 | The handler equals the REPORT step (see ReportFence and ReportObjects) and tells whether it was accepted. |
| Coordinators.Coordinator.ReportAll | src/coordinator.cpp:210-230 | The loop over reported objects: unknown ones demoted, known ones refreshed, all attributed. |
| Coordinators.Coordinator.OnResult | src/coordinator.cpp:241-288 | The handler equals the WARM_RESULT step (see ResultSettles, ResultSucceeds and ResultFails) and tells whether it settled. |
| Coordinators.Coordinator.ApplyResult | src/coordinator.cpp:251-281 | The object part of a settled result, success and failure. |
| Coordinators.Coordinator.OnDisconnect | src/coordinator.cpp:301-320 | The disconnect handler equals its step. |
| Coordinators.Coordinator.LoseAll | src/coordinator.cpp:308-318 | The loop that decays the lost worker's objects and marks their device dimensions SUSPECT. |
| Coordinators.Coordinator.Target | src/coordinator.cpp:348-356 | Worker selection: the preferred worker if registered, otherwise the first in id order. |
| Coordinators.Coordinator.IssueWarm | src/coordinator.cpp:346-368 | The first section equals its step (see IssueRefusal, IssueEnters and IssueHolds) and returns the command. |
| Coordinators.Coordinator.SendFailed | src/coordinator.cpp:371-381 | The second section, after a failed send, equals its step: the attempt is taken back if it is still in flight. |
| Coordinators.Coordinator.RollEpoch | src/coordinator.cpp:87-110 | The roll equals its step. |
| Coordinators.Coordinator.ReleaseAll | src/coordinator.cpp:103-106 | The loop that releases the reservations of all attempts in order. |
| Coordinators.Coordinator.BumpDependencyGeneration | src/coordinator.cpp:79-82 | Only the dependency generation advances, modulo 2^64. |
| Coordinators.Coordinator.BumpWarmthGeneration | src/coordinator.cpp:83-86 | Only the warmth generation advances, modulo 2^64. |
| Budgets.ReserveSound | include/warmth/budget.hpp:101-112 | Reserving hands out a fresh id iff the amount is non-zero and fits, keeps usage equal to the sum of live reservations of every kind, and never passes a non-zero limit. |
| Budgets.ReleaseSound | include/warmth/budget.hpp:114-124 | Releasing a live id subtracts exactly its amount and removes exactly it; releasing it again is detected and changes nothing. |
| Budgets.BalancedMeansNoUsage | include/warmth/budget.hpp:131-133 | When nothing is outstanding no kind reports usage. |
| Budgets.TotalRemove | include/warmth/budget.hpp:121-122 | The total over live reservations is the same whichever one is taken out first. |
| Budgets.AcquireAccounts | include/warmth/budget.hpp:101-112 | Admitting one more warming into exact books keeps them exact with its hold added. |
| Budgets.ReleaseAccounts | include/warmth/budget.hpp:114-124 | Giving one hold back keeps the books exact without it. |
| Budgets.BalancedIffNoHolds | include/warmth/budget.hpp:133-133 | With exact books the tracker is balanced iff nobody holds anything. |
| Budgets.HoldsWithinLimit | include/warmth/budget.hpp:138-143 | With a non-zero device limit L at most L / 2^30 warmings hold a reservation. |
| Budgets.BudgetTracker.constructor | include/warmth/budget.hpp:94-94 | A fresh tracker has no reservations, no usage and next id 1. |
| Budgets.BudgetTracker.ReserveKind | include/warmth/budget.hpp:101-112 | The method equals the ledger function, including the order of its checks and the id counter that skips zero. |
| Budgets.BudgetTracker.ReleaseId | include/warmth/budget.hpp:114-124 | The method equals the ledger function, with usage saturating at zero and its error codes. |
| Budgets.BudgetTracker.UsageOf | include/warmth/budget.hpp:126-129 | Usage of a kind never touched is zero. |
| Decay.ProposalIsDownhillEdge | include/warmth/decay.hpp:67-151 | A decay proposal is an edge of the transition table, strictly lowers a four-step rank and never raises the warmth level; applying it changes state and reason only. |
| Decay.ChangesWithinRank | src/fabric.cpp:263-271 | Over any sequence of decay calls the number of changes is bounded by the rank the object started with. |
| Decay.AtMostFourChanges | src/fabric.cpp:263-271 | Any sequence of decay calls with any policies, times and flags changes an object at most four times, never raises its level and never makes it ready. |
| Decay.SettleIdle | include/warmth/decay.hpp:121-150 | Repeated idle decay at a fixed time terminates in a state that idle decay leaves alone. |
| Decay.SettleIdleNeverRises | include/warmth/decay.hpp:121-150 | That fixed point is never warmer than the start. |
| Decay.SettleIdleAntitone | include/warmth/decay.hpp:106-150 | The fixed point at a later time is never warmer than at an earlier one, for every policy including NaN and infinite thresholds. |
| Doubles.ElapsedMonotone | include/warmth/time.hpp:28-31 | Elapsed time reaches a threshold at every later time once it has reached it. |
| Decay.ForcedDecayIsStale | include/warmth/decay.hpp:84-104 | A changed dependency, or a device reset or restart the policy minds, makes everything not yet settled STALE, whatever else holds. |
| Decay.PressureStepsDown | include/warmth/decay.hpp:109-119 | Otherwise memory pressure takes a live object exactly one state down, however recently it was used. |
| Decay.IdleThresholds | include/warmth/decay.hpp:121-147 | Without flags an object changes exactly when the threshold of its own state has passed since its last use, or preparation. |
| Decay.DecayByOutcome | include/warmth/decay.hpp:67-151 | Every decay by its outcome: which states end STALE, INVALIDATED, COLD, PARTIALLY_WARM or WARM, for which cause and with which reason text, and that nothing else changes. |
| Decay.FiresExactly | include/warmth/decay.hpp:121-147 | A finite threshold fires iff it is a positive number of seconds and that many have passed; NaN and the infinities never do. |
| Policies.DefaultThresholds | include/warmth/decay.hpp:49-53 | The default thresholds are 300, 1200, 600, 1800 and 3600 seconds as real numbers. |
| Policies.DefaultWeights | include/warmth/policy.hpp:14-25 | The twelve default weights as real numbers. |
| WarmthStates.TableByColumns | include/warmth/warmth_state.hpp:88-127 | The transition table read row by row agrees with an independent reading column by column. |
| Doubles.LessIsRealOrder | include/warmth/decay.hpp:122-145 | For finite doubles comparing the patterns is comparing the real numbers they denote. |
| Doubles.ExponentFields | src/persistence.cpp:26-40 | Finite and NaN are the exponent fields of binary64. |
| Doubles.ClampUnitIsClamp | include/warmth/warmth_object.hpp:326-326 | Clamping yields the unit interval, moves nothing already in it and lets NaN through. |
| Doubles.ClampUnitIdempotent | include/warmth/warmth_object.hpp:326-326 | Clamping twice is clamping once, and a finite value stays finite. |
| WarmthStates.StateOf | src/persistence.cpp:119-127 | A byte is a state exactly when it is one of the ten codes, and then it is that state's code. |
| WarmthObjects.ReachWarmIsReady | src/fabric.cpp:21-29 | From each of the ten states the warming path ends execution-ready and touches state and reason only. |
| Basics.Least | src/coordinator.cpp:354-354 | What an ordered container visits first is its smallest member. |
| Basics.FirstKey | src/coordinator.cpp:354-354 | The key the ordered map visits first is present and least. |
| FabricProofs.AdmissionControl | src/fabric.cpp:174-215 | Under any interleaving of any number of warm calls with every other operation, recoveries that find no call in progress included, reservations are exactly those of calls between phases 1 and 3, usage is 2^30 per such call, the books balance iff there is none, and a non-zero device limit L of the policy in force admits at most L / 2^30. |
| FabricProofs.AdmissionExactly | src/fabric.cpp:174-419 | In every run, recoveries at any time included, the books are exact in all states up to n iff every recovery before n found no warm call in progress. |
| FabricProofs.RecoverAdmission | src/fabric.cpp:416-417 | A recovery leaves the books exact iff no call is in progress: it starts a fresh tracker under the recovered policy's limits. |
| FabricProofs.StepAdmission | src/fabric.cpp:174-419 | One step keeps the books exact iff it is not a recovery under a call in progress. |
| FabricProofs.BeginKeepsAdmission | src/fabric.cpp:177-187 | Phase 1 keeps the books exact, also when the transition is refused and the hold is given back at once. |
| FabricProofs.FinishKeepsAdmission | src/fabric.cpp:194-214 | Phase 3 keeps the books exact, whether the object is still there or not. |
| FabricProofs.CompletionLandsIffNotQuenched | src/fabric.cpp:200-212 | A completion makes the object ready exactly when it does not find it COLD, INVALIDATED, EVICTED or FAILED. |
| FabricProofs.InvalidationIsNotUndone | src/fabric.cpp:131-172 | After an accepted invalidate or evict the object stays in those four states, against any number of pending completions, failures, decays and other operations, until it is explicitly warmed again or a file that does not hold it so is recovered. |
| FabricProofs.RecoveryKeepsQuenched | src/fabric.cpp:404-415 | An object is in those four states after a recovery iff the file holds it in one of them. |
| FabricProofs.DecayDuringWarmingIsLifted | src/fabric.cpp:263-271 | By contrast, an object decayed to STALE while being warmed ends ready, because STALE to WARM is an edge. |
| FabricProofs.LateCompletionReportsSuccess | src/fabric.cpp:200-211 | A completion that finds the object quenched leaves its state alone, yet reports success and clears the invalidation reason. |
| FabricProofs.ReadyMeansNoReason | src/fabric.cpp:131-155 | In every interleaving, recoveries from files without a HOT object included, a ready object carries no invalidation reason. |
| FabricProofs.CleanExactly | src/fabric.cpp:131-419 | In every run, ready objects carry no reason in all states up to n iff no file recovered before n held a HOT object. |
| FabricProofs.CoolExactly | src/fabric.cpp:131-419 | And no object is HOT in those states iff the same holds: no operation of the fabric makes one HOT. |
| FabricProofs.RecoveredClean | src/fabric.cpp:404-415 | A recovered registry has no ready object with a reason, and no HOT object, iff the file held no HOT object. |
| FabricProofs.StepKeepsClean | tests/test_property.cpp:53-63 | Each single operation other than a recovery keeps that property, for every object at once. |
| FabricProofs.StepClean | src/fabric.cpp:131-419 | Any single operation keeps it iff it does not recover a file with a HOT object. |
| Fabrics.WarmthFabric.constructor | src/fabric.cpp:32-36 | A fresh fabric is the start of the runs. |
| Fabrics.WarmthFabric.Register | src/fabric.cpp:59-73 | Registration equals its step: a COLD object of the warmth generation read before the lock replaces whatever had that id. |
| Fabrics.WarmthFabric.Invalidate | src/fabric.cpp:131-143 | Invalidate equals its step; it is refused iff the object is unknown or INVALIDATED cannot be entered. |
| Fabrics.WarmthFabric.Demote | src/fabric.cpp:145-155 | Demote equals its step. |
| Fabrics.WarmthFabric.Evict | src/fabric.cpp:157-172 | Evict equals its step, with device residency dropping to the host. |
| Fabrics.WarmthFabric.WarmToReady | src/fabric.cpp:217-239 | warm_to_ready equals its step; its result is the object's readiness. |
| Fabrics.WarmthFabric.SetDimensions | src/fabric.cpp:116-122 | Replaces the twelve dimensions of a known object. |
| Fabrics.WarmthFabric.MarkUsed | src/fabric.cpp:123-129 | Sets the last-used time of a known object. |
| Fabrics.WarmthFabric.DecayObjects | src/fabric.cpp:263-271 | The loop applies one decay to every object. |
| Fabrics.WarmthFabric.BumpDependencyGeneration | src/fabric.cpp:254-257 | Only the dependency generation advances, saturating. |
| Fabrics.WarmthFabric.BumpWarmthGeneration | src/fabric.cpp:258-261 | Only the warmth generation advances, saturating. |
| Fabrics.WarmthFabric.WarmBegin | src/fabric.cpp:176-187 | Phase 1 equals its step (see BeginRefused and BeginAdmitted). |
| Fabrics.WarmthFabric.WarmFinish | src/fabric.cpp:193-214 | Phase 3 equals its step (see FinishEffect). |
| Fabrics.WarmthFabric.Objects | src/fabric.cpp:89-94 | The loop lists the registry as the ordered map visits it; ListedIs says what that listing is. |
| Fabrics.WarmthFabric.TakeSnapshot | src/fabric.cpp:376-387 | The snapshot of the current state, epoch 1. |
| Fabrics.WarmthFabric.RestoreAll | src/fabric.cpp:404-415 | The loop that revalidates and files the decoded objects. |
| Fabrics.WarmthFabric.Recover | src/fabric.cpp:396-419 | The critical section of recover equals its step, including the replaced tracker. |
| Fabrics.WarmthFabric.Load | src/fabric.cpp:393-419 | recover as a whole: a file that does not decode changes nothing, any other is recovered. |
| FabricEffects.RegisterEffect | src/fabric.cpp:59-73 | Registration files this object, field by field, and nothing else. |
| FabricEffects.InvalidateEffect | src/fabric.cpp:131-143 | Invalidate is refused iff the object is unknown or EVICTED; otherwise state, reason and the three dimensions 5 to 7 change. |
| FabricEffects.DemoteEffect | src/fabric.cpp:145-155 | Demote takes HOT, WARM and PARTIALLY_WARM one step down and refuses every other state. |
| FabricEffects.EvictEffect | src/fabric.cpp:157-172 | Evict is refused iff the object is unknown or FAILED; otherwise what was on the device drops to the host and dimensions 5 to 8 go cold. |
| FabricEffects.WarmToReadyEffect | src/fabric.cpp:217-239 | warm_to_ready succeeds iff the object is known; an object not ready ends WARM without an invalidation, a ready one keeps its state. |
| FabricEffects.SettersEffect | src/fabric.cpp:116-129 | The two setters change their field of a known object and nothing else. |
| FabricEffects.DecayEffect | src/fabric.cpp:263-271 | A decay changes every object as the policy says, outcome by outcome. |
| FabricEffects.BumpEffect | src/fabric.cpp:253-261 | Each bump advances its generation, which stops at the largest value. |
| FabricEffects.AcquireExactly | src/fabric.cpp:181-184 | A warming is admitted iff 2^30 bytes of device memory are left, and takes an operation slot iff one is left. |
| FabricEffects.BeginRefused | src/fabric.cpp:176-186 | Phase 1 for an unknown object or without memory changes nothing; for a ready, stale or failed one it gives the hold back. |
| FabricEffects.BeginAdmitted | src/fabric.cpp:176-187 | Otherwise the object is PREPARING and the call holds fresh reservations. |
| FabricEffects.FinishEffect | src/fabric.cpp:193-214 | Phase 3 gives the hold back; success stores the measurements and ends WARM unless the object is quenched, failure ends FAILED with its reason unless the object was evicted. |
| FabricEffects.RecoverEffect | src/fabric.cpp:393-419 | Recovery replaces registry, policy, tracker and generations, object by object, and keeps the calls in progress. |
| FabricEffects.PreparingExactly | src/fabric.cpp:176-214 | In every run, an object is PREPARING only while a call for it is in progress, in all states up to n, iff no file recovered before n held a PREPARING object without such a call. |
| FabricEffects.StepBacked | src/fabric.cpp:116-419 | One step keeps that iff it does not recover such a file. |
| FabricEffects.NothingLeftPreparing | src/fabric.cpp:176-214 | So once no call is in progress nothing is left PREPARING. |
| FabricEffects.SaveLayout | src/fabric.cpp:376-391 | The file of a fabric holds epoch 1, its three generations, its policy and its objects by ascending id, each in its place. |
| Recovery.RecoveryPipeline | src/fabric.cpp:376-419 | A fabric that ran through any interleaving, recoveries included, from a finite policy and with every step as Saves asks, always encodes; its file decodes iff it fits the size limits and the last recovery, if any, was from a saturated policy generation; and recovering it yields exactly the saved objects with durable parts kept, ready iff saved HOT, four device dimensions COLD, the saved policy, an empty tracker, and all three generations advanced below their limit. |
| Recovery.NothingReadyAfterRestart | src/fabric.cpp:404-415 | Nothing is ready after such a restart if no file recovered during the run held a HOT object. |
| Recovery.SavableExactly | src/fabric.cpp:59-73 | In every run, objects are filed under their own id, finite, clamped and of a generation already reached in all states up to n iff every registration before n filed a generation already reached and every successful completion of a known object reported a finite duration. |
| Recovery.StepSavable | src/fabric.cpp:59-271 | One step keeps that iff it meets those two conditions. |
| Recovery.UnlockedReadIsReached | src/fabric.cpp:59-73 | The generation a registration read without the lock has been reached when it is filed, unless a recovery came in between. |
| Recovery.InStepExactly | src/fabric.cpp:396-416 | In every run the authority's policy generation is the policy's own iff the last recovery, if any, was from a saturated one. |
| Recovery.ListedIs | src/fabric.cpp:89-94 | The listing holds each registered object exactly once, in strictly ascending id order. |
| Recovery.SavesReadable | src/fabric.cpp:376-387 | The snapshot of such a fabric is finite, and readable iff payload and count fit the format and the two policy generations agree. |
| FabricProofs.RestoreIs | src/fabric.cpp:403-415 | Restoring objects with distinct ids files each of them, revalidated, under its id, and nothing else. |
| Recovery.RecoverFromSave | src/fabric.cpp:393-419 | Recovery from the snapshot of a fabric restores that fabric up to what a restart must drop. |
| Recovery.RevalidateKeeps | src/fabric.cpp:405-413 | Revalidation changes at most state and reason, the invalidation, four device dimensions and the provenance. |
| FabricProofs.ReadyAfterRestartIffHot | src/fabric.cpp:405-407 | An object is ready after recovery exactly when it was saved HOT, because HOT to DISCOVERED is not an edge. |
| Recovery.SecondSaveUnreadable | src/fabric.cpp:400-416 | After recovering an accepted file the next save always encodes, and reads back iff its payload fits and the saved policy generation was saturated: recovery advances the authority's policy generation but not the policy's own. |
| Recovery.StaleCompletionReleases | src/fabric.cpp:417-417 | Reservation ids restart: if a call is admitted from an empty tracker, a recovery follows and a second call is admitted, both hold the same reservations, and the first call's completion releases the second's. |
| RecoveryFailures.FileHolding | src/persistence.cpp:383-430 | For each of the ten states there is a file the decoder accepts that holds one object in that state, HOT included. |
| RecoveryFailures.HotFileBreaksClean | src/fabric.cpp:404-415 | For every configuration, recovering such a HOT file right after the start ends the time in which ready objects carry no reason, and in which no object is HOT. |
| RecoveryFailures.PreparingFileBreaks | src/fabric.cpp:404-415 | For every configuration, recovering a file with a PREPARING object leaves it PREPARING with no call in progress. |
| RecoveryFailures.RecoveryBreaksNextSave | src/fabric.cpp:396-416 | For every configuration, after one recovery from a concrete kind of file the two policy generations differ, and the next save encodes to a file that does not decode. |
| RecoveryFailures.RecoveryConfusesReservations | src/fabric.cpp:174-215 | A concrete run - register, begin, recover, begin, finish the first call - loses admission at the recovery and ends with a balanced tracker while the second call is in progress. |
| RecoveryFailures.NanDurationBreaksSave | src/fabric.cpp:193-212 | A concrete run - register, begin, successful finish with a NaN duration - after which the registry is not savable and the save fails to encode. |
| RecoveryFailures.RecoveryBetweenReadAndFiling | src/fabric.cpp:69-71 | A concrete run in which a recovery comes between a registration's unlocked read of the generation and its filing, and the registry is not savable from then on. |
| Crc32.ShiftInverts | include/warmth/detail/hash.hpp:17-18 | Every register state is reached by a shift ... |
| Crc32.UnshiftInverts | include/warmth/detail/hash.hpp:17-18 | ... and a shift can be undone, so it is a bijection of the 2^32 register states. |
| Crc32.ShiftLinear | include/warmth/detail/hash.hpp:17-18 | A shift distributes over exclusive or. |
| Crc32.ShiftsLinear | include/warmth/detail/hash.hpp:17-18 | So does any number of shifts. |
| Crc32.ShiftsInjective | include/warmth/detail/hash.hpp:17-18 | Any number of shifts loses nothing. |
| Crc32.SerialInjective | include/warmth/detail/hash.hpp:25-27 | For a fixed message different register states stay different. |
| Crc32.SerialConcat | include/warmth/detail/hash.hpp:25-27 | Processing a concatenation is processing the parts in turn. |
| Crc32.SerialWord | include/warmth/detail/hash.hpp:25-27 | Up to 32 message bits act as one word: exclusive-or it in, then shift that often. |
| Crc32.PackInjective | include/warmth/detail/hash.hpp:25-27 | Different bit strings of equal length up to 32 are different words. |
| Crc32.BurstDetected | include/warmth/detail/hash.hpp:11-28 | Two messages that differ, but only within 32 consecutive bits, never leave the register in the same state. |
| Crc32.TableStep | include/warmth/detail/hash.hpp:26-27 | One step of the 256-entry table form equals eight bits of the polynomial division of section 8 of RFC 1952, for every register and byte. |
| Crc32.BuildTable | include/warmth/detail/hash.hpp:12-21 | The table loops fill entry i with eight shifts of i. |
| Crc32.Compute | include/warmth/detail/hash.hpp:23-27 | The table-driven loop computes the polynomial checksum of every byte string. |
| KnownAnswers.CheckValue | include/warmth/detail/hash.hpp:10-27 | The check value: the checksum of the nine digits 1 to 9 is CBF43926. |
| Crc32.FourByteCorruptionDetected | include/warmth/detail/hash.hpp:11-28 | Any corruption confined to four consecutive bytes changes the checksum. |
| Crc32.BitsOfInjective | include/warmth/detail/hash.hpp:24-27 | Different byte strings of equal length are different bit strings. |
| Crc32.NumberOfOctet | include/warmth/detail/hash.hpp:24-27 | Converting a byte to a machine word loses nothing. |
| Sha256.StreamingIsOneShot | include/warmth/detail/hash.hpp:43-74 | However the input is cut into pieces, finishing gives the one-shot padded hash (sections 5.1.1 and 6.2 of FIPS 180-4) of their concatenation. |
| Sha256.FeedConcat | include/warmth/detail/hash.hpp:43-54 | Feeding two pieces is feeding their concatenation. |
| Sha256.FedIsDigest | include/warmth/detail/hash.hpp:56-74 | The marker, the padding loop and the length complete exactly the padded message, with the byte count taken modulo 2^64. |
| Sha256.PadZerosMinimal | include/warmth/detail/hash.hpp:60-61 | The padding is the smallest number of zeros that leaves exactly eight bytes in the block. |
| Sha256.BitLength | include/warmth/detail/hash.hpp:57-57 | The 64-bit bit length survives the byte counter's wrap-around. |
| Sha256.AbsorbConcat | include/warmth/detail/hash.hpp:101-130 | Hashing whole blocks in two runs is hashing them in one. |
| Sha256.ShiftsRotate | include/warmth/detail/hash.hpp:83-83 | The pairs of shifts in the code are the rotations of section 4.1.2. |
| Sha256.Hasher.constructor | include/warmth/detail/hash.hpp:34-41 | A fresh hasher holds the initial state of section 5.3.3. |
| Sha256.Hasher.Update | include/warmth/detail/hash.hpp:43-54 | update feeds the data, keeps fewer than 64 bytes pending, and counts bytes modulo 2^64. |
| Sha256.Hasher.Fill | include/warmth/detail/hash.hpp:47-52 | One turn of that loop: copy, and compress when the block is full. |
| Sha256.Hasher.PadTo56 | include/warmth/detail/hash.hpp:61-61 | The padding loop terminates, with exactly eight bytes left in the block. |
| Sha256.Hasher.Finish | include/warmth/detail/hash.hpp:56-74 | finish returns the closed digest of what was fed. |
| Sha256.DigestOf | include/warmth/detail/hash.hpp:76-80 | The one-shot form - a fresh hasher, one update, finish - returns the padded hash of section 6.2 for every input. |
| KnownAnswers.DigestOfAbc | include/warmth/detail/hash.hpp:76-80 | The digest of "abc" is ba7816bf...f20015ad, computed from the definition round by round. |
| Sha256Constants.ConstantsAreCubeRoots | include/warmth/detail/hash.hpp:86-99 | Constant t is the first 32 bits of the fraction of the cube root of the t-th prime. |
| Sha256Constants.InitialAreSquareRoots | include/warmth/detail/hash.hpp:34-41 | Initial word t is the first 32 bits of the fraction of the square root of the t-th prime. |
| Sha256Constants.PrimesInOrder | include/warmth/detail/hash.hpp:86-99 | The table of primes holds primes in ascending order, |
| Sha256Constants.AllPrimesFound | include/warmth/detail/hash.hpp:86-99 | and every prime up to 311. |
| Sha256.Hasher.Schedule | include/warmth/detail/hash.hpp:102-114 | The schedule loops compute the message schedule. |
| Sha256.Hasher.OneRound | include/warmth/detail/hash.hpp:117-126 | One round of the compression function. |
| Sha256.Hasher.Transform | include/warmth/detail/hash.hpp:85-131 | transform replaces the state by the compression of the buffered block. |
| Bytes.GetPut | src/persistence.cpp:75-82 | Shifting n written bytes into an accumulator gives the accumulator and the n low bytes of the value, whatever follows. |
| Bytes.PutGet | src/persistence.cpp:75-82 | Conversely, the bytes read are the only ones that could have been written for that value. |
| Bytes.PutU32 | src/persistence.cpp:28-28 | Four bytes, read back as the value with the tail untouched. |
| Bytes.PutU64 | src/persistence.cpp:29-29 | Eight bytes, read back as the value with the tail untouched. |
| Bytes.PutId | include/warmth/identity.hpp:40-52 | Sixteen bytes, read back as the identity with the tail untouched. |
| Bytes.PutText | src/persistence.cpp:39-45 | Length prefix and bytes, read back if the length fits 32 bits. |
| Bytes.ByteReader.BigEndian | src/persistence.cpp:67-82 | The reading loop agrees with the grammar and moves the cursor by exactly n bytes, or refuses. |
| Bytes.ByteReader.U8 | src/persistence.cpp:57-61 | Reads one byte or refuses. |
| Bytes.ByteReader.U32 | src/persistence.cpp:67-74 | Reads four bytes or refuses. |
| Bytes.ByteReader.U64 | src/persistence.cpp:75-82 | Reads eight bytes or refuses. |
| Bytes.ByteReader.Id | include/warmth/protocol.hpp:184-188 | Reads an identity or refuses. |
| Bytes.ByteReader.Str | src/persistence.cpp:94-106 | Reads a prefixed string only if that many bytes are left. |
| Bytes.ByteWriter.BigEndian | src/persistence.cpp:29-29 | The writing loop appends the bytes from the top. |
| Bytes.ByteWriter.Str | src/persistence.cpp:39-45 | Appends the prefix and the bytes. |
| ObjectGrammar.ReadersAgree | src/persistence.cpp:242-328 | read_object accepts exactly what decode_object accepts with all four doubles finite and the warmth generation within the snapshot's, and then both give the same object at the same position. |
| ObjectGrammar.HeadersAgree | include/warmth/wire.hpp:58-73 | Checking the category before or after the two identities behind it makes no difference. |
| ObjectGrammar.NumbersAgree | src/persistence.cpp:281-301 | The finite-only number fields are the plain ones restricted to finite doubles, then clamped. |
| ObjectGrammar.WireRoundTrip | include/warmth/wire.hpp:16-50 | Every object of representable size comes back from its bytes, up to zero ids and empty reasons read as absent, whatever bytes follow. |
| ObjectGrammar.PersistRoundTrip | src/persistence.cpp:176-220 | The snapshot reader takes the written object back exactly when its doubles are finite and its generation is within the snapshot's. |
| ObjectGrammar.KindsBack | src/persistence.cpp:206-216 | The dependency pairs, written in ascending kind order, are read back as the same map. |
| ObjectGrammar.CountAll | src/persistence.cpp:207-207 | The count written is the number of pairs that follow. |
| ObjectGrammar.DimsBack | src/persistence.cpp:192-194 | The twelve dimensions come back in order. |
| ObjectGrammar.NumbersBack | src/persistence.cpp:195-205 | Times, costs, doubles, residency, lifecycle and generation come back. |
| ObjectGrammar.HeaderBack | src/persistence.cpp:177-184 | Identities, category and names come back. |
| ObjectGrammar.OwnersBack | src/persistence.cpp:185-189 | The four optional identities come back, a zero one as absent. |
| ObjectGrammar.EndingBack | src/persistence.cpp:217-219 | Invalidation and provenance come back, an empty reason as absent. |
| ObjectGrammar.NormIdempotent | src/persistence.cpp:185-219 | Normalising twice is normalising once. |
| ObjectGrammar.NormSameBytes | src/persistence.cpp:176-220 | An object and its normal form are written as the very same bytes. |
| ObjectGrammar.RewriteNoLonger | include/warmth/wire.hpp:54-179 | Writing out what was read takes no more bytes than were read. |
| ObjectGrammar.SizedWhenShort | src/persistence.cpp:39-45 | If the written form is shorter than 2^32 bytes every string length fits its prefix. |
| ObjectCodec.EncodeObject | include/warmth/wire.hpp:16-50 | encode_object appends exactly the grammar's bytes for every object. |
| ObjectCodec.WriteObject | src/persistence.cpp:176-220 | write_object fails iff a double is not finite, and otherwise appends the same bytes as encode_object. |
| ObjectCodec.WriteFinite | src/persistence.cpp:30-35 | Refuses NaN and infinity, otherwise copies the pattern. |
| ObjectCodec.EncodeDeps | src/persistence.cpp:206-216 | The dependency loop writes count and pairs in ascending kind order. |
| ObjectCodec.EncodeStatus | src/persistence.cpp:190-194 | State, reason and the dimension loop. |
| ObjectCodec.DecodeObject | include/warmth/wire.hpp:54-179 | decode_object agrees with the wire grammar on every byte string, in its own order of checks. |
| Formats.ObjectExact | include/warmth/wire.hpp:54-179 | The object reader, for every byte string: it yields this object and this rest iff the bytes are the object's table of fields, its dependency pairs in some order and flags 0 or 1, followed by the rest. |
| Formats.ObjectWritten | include/warmth/wire.hpp:16-50 | The writers lay out that table, with absent for the zero identity and the empty reason and the pairs by ascending kind. |
| Formats.StateCodes | include/warmth/warmth_state.hpp:12-23 | Each state is coded by its place in the enumeration. |
| Formats.DimCodes | include/warmth/warmth_dimensions.hpp:12-19 | Each dimension status is coded by its place. |
| Formats.ResidencyCodes | include/warmth/warmth_object.hpp:51-57 | Each residency is coded by its place. |
| Formats.ProvenanceCodes | include/warmth/warmth_object.hpp:128-134 | Each provenance is coded by its place. |
| ObjectCodec.ReadObject | src/persistence.cpp:242-328 | read_object agrees with the snapshot grammar on every byte string, in its own order of checks. |
| ObjectCodec.DecodeDims | include/warmth/wire.hpp:104-111 | The dimension loop refuses an invalid code. |
| ObjectCodec.DecodeKind | include/warmth/wire.hpp:157-163 | One dependency pair: an invalid or repeated kind is refused. |
| ObjectCodec.DecodeDeps | include/warmth/wire.hpp:145-163 | At most 64 pairs, valid and distinct, in any order. |
| ObjectCodec.DecodeOpt | include/warmth/wire.hpp:74-79 | An optional identity: any flag but 0 and 1 is refused. |
| ObjectCodec.DecodeEnding | include/warmth/wire.hpp:164-176 | Invalidation flag, reason and provenance. |
| ObjectCodec.DecodeHeader | include/warmth/wire.hpp:58-73 | The wire reader's header. |
| ObjectCodec.ReadHeader | src/persistence.cpp:243-251 | The snapshot reader's header. |
| ObjectCodec.DecodeNumbers | include/warmth/wire.hpp:113-143 | The wire reader's numbers. |
| ObjectCodec.ReadNumbers | src/persistence.cpp:281-301 | The snapshot reader's numbers, finite only and clamped. |
| ObjectCodec.ReadFinite | src/persistence.cpp:83-88 | Reads a double and refuses NaN and infinity. |
| SnapshotGrammar.SnapshotRoundTrip | src/persistence.cpp:357-424 | A finite snapshot decodes to its normal form exactly when its payload fits the 32-bit size field, its two policy generations agree, there are at most a million objects, their ids are distinct and their generations are within the snapshot's; otherwise it is rejected. |
| SnapshotGrammar.DecodedIsReadable | src/persistence.cpp:376-424 | Whatever the decoder accepts is finite, clamped and meets every one of those conditions. |
| SnapshotGrammar.ReencodingReadsBack | src/persistence.cpp:357-424 | Re-encoding an accepted file always succeeds and decodes to the same snapshot in normal form. |
| SnapshotGrammar.ReencodingIsStable | src/persistence.cpp:357-374 | The re-encoded file is canonical: encoding what it decodes to gives the same bytes. |
| SnapshotGrammar.CorruptFileRejected | src/persistence.cpp:392-393 | Corrupting up to four consecutive payload bytes of an accepted file makes the decoder reject it. |
| SnapshotGrammar.ObjectsBack | src/persistence.cpp:413-421 | The object list reads back in normal form iff each object fits behind those before it. |
| SnapshotGrammar.FitMeansDistinct | src/persistence.cpp:418-419 | Fitting one after the other means distinct ids and generations within the limit. |
| SnapshotGrammar.PolicyBack | src/persistence.cpp:222-240 | A finite policy record comes back. |
| SnapshotGrammar.PolicyBytes | src/persistence.cpp:330-353 | An accepted policy record takes 213 bytes and is finite. |
| SnapshotGrammar.PayloadBack | src/persistence.cpp:395-422 | The payload reads back in normal form iff the snapshot is readable. |
| SnapshotGrammar.PayloadDelivered | src/persistence.cpp:395-422 | What an accepted payload yields meets the conditions and is no longer when written again. |
| SnapshotGrammar.UnwrapBack | src/persistence.cpp:366-393 | A wrapped payload is unwrapped iff its size fits the size field. |
| SnapshotGrammar.UnwrapSplit | src/persistence.cpp:381-393 | The header of an accepted file stores the checksum of its payload. |
| SnapshotCodec.EncodeSnapshot | src/persistence.cpp:357-374 | encode_snapshot equals the grammar; it throws iff a double is not finite. |
| SnapshotCodec.DecodeSnapshot | src/persistence.cpp:376-424 | decode_snapshot equals the grammar on every byte string. |
| SnapshotFormats.DecodeExact | src/persistence.cpp:376-424 | The decoder, for every byte string: it yields this snapshot iff the bytes are a file that holds it, every field in its place, every flag 0 or 1, every code in range, every double finite, distinct ids, admissible generations, right size and checksum, and nothing left over. |
| SnapshotFormats.EncodeLayout | src/persistence.cpp:357-374 | The encoder lays out the file field by field. |
| SnapshotFormats.UnwrapExact | src/persistence.cpp:376-394 | The header is accepted iff it is WFTB, version 1, the payload's size and its checksum. |
| SnapshotFormats.PolicyExact | src/persistence.cpp:330-353 | The policy reader accepts exactly the 213 bytes of a finite policy's table. |
| SnapshotCodec.WritePolicy | src/persistence.cpp:222-240 | write_policy appends the grammar's bytes or fails on a non-finite double. |
| SnapshotCodec.WriteObjects | src/persistence.cpp:363-364 | The object loop of the encoder. |
| SnapshotCodec.WrapPayload | src/persistence.cpp:366-373 | Magic, version, size, checksum, payload. |
| SnapshotCodec.ReadPolicy | src/persistence.cpp:330-353 | read_policy agrees with the grammar. |
| SnapshotCodec.ReadObjects | src/persistence.cpp:413-421 | The object loop of the decoder, with its set of seen ids. |
| SnapshotCodec.ReadPayload | src/persistence.cpp:395-422 | The payload part of the decoder. |
| Frames.FramesBack | include/warmth/protocol.hpp:77-138 | Reading the concatenation of written frames returns exactly those frames, in order, and stops exactly behind them. |
| Frames.FrameBack | include/warmth/protocol.hpp:112-138 | A written frame is read back with the tail untouched. |
| Frames.OnlyWrittenFrames | include/warmth/protocol.hpp:112-138 | The reader accepts nothing but what the writer produces: an accepted stream begins with the written form of its frame. |
| Frames.NoPrefixAccepted | include/warmth/protocol.hpp:112-138 | A stream cut anywhere inside its first frame is refused. |
| Frames.CorruptFrameRefused | include/warmth/protocol.hpp:131-134 | Corrupting up to four consecutive payload bytes makes the reader refuse the frame. |
| Frames.RawBack | include/warmth/protocol.hpp:127-134 | A frame with any checksum field is read back iff the field is the payload's checksum. |
| Frames.Write | include/warmth/protocol.hpp:77-101 | FrameWriter::write appends the frame, or refuses an oversized payload and appends nothing. |
| Frames.Read | include/warmth/protocol.hpp:112-138 | FrameReader::read agrees with the grammar on every stream: magic, version, known type, length cap, checksum. |
| MessageFormats.FrameExact | include/warmth/protocol.hpp:112-138 | The frame reader, for every stream: it yields this frame and this rest iff the stream is WFRM, version, flags, type, size, payload and checksum in this order, then the rest. |
| MessageGrammar.HelloBack | include/warmth/messages.hpp:77-126 | A HELLO decodes to its normal form exactly when its three counts are within the caps, with the tail untouched. |
| MessageGrammar.HelloAckBack | include/warmth/messages.hpp:89-133 | A HELLO_ACK comes back. |
| MessageGrammar.ReportBack | include/warmth/messages.hpp:93-141 | A REPORT decodes to its normal form exactly when it lists at most 8192 objects. |
| MessageGrammar.WarmTopicBack | include/warmth/messages.hpp:98-153 | A WARM_TOPIC comes back exactly when it lists at most 4096 commands. |
| MessageGrammar.WarmResultBack | include/warmth/messages.hpp:103-165 | A WARM_RESULT comes back. |
| MessageGrammar.WireObjectsBack | include/warmth/messages.hpp:86-87 | A list of objects comes back in normal form. |
| MessageCodec.EncodeHello | include/warmth/messages.hpp:77-88 | The encoder appends the grammar's bytes. |
| MessageCodec.EncodeHelloAck | include/warmth/messages.hpp:89-92 | The encoder appends the grammar's bytes. |
| MessageCodec.EncodeReport | include/warmth/messages.hpp:93-97 | The encoder appends the grammar's bytes. |
| MessageCodec.EncodeWarmTopic | include/warmth/messages.hpp:98-102 | The encoder appends the grammar's bytes. |
| MessageCodec.EncodeWarmResult | include/warmth/messages.hpp:103-107 | The encoder appends the grammar's bytes. |
| MessageCodec.DecodeHello | include/warmth/messages.hpp:111-126 | The decoder agrees with the grammar on every byte string. |
| MessageCodec.DecodeHelloAck | include/warmth/messages.hpp:127-133 | The decoder agrees with the grammar on every byte string. |
| MessageCodec.DecodeReport | include/warmth/messages.hpp:134-141 | The decoder agrees with the grammar on every byte string. |
| MessageCodec.DecodeWarmTopic | include/warmth/messages.hpp:142-153 | The decoder agrees with the grammar on every byte string. |
| MessageCodec.DecodeWarmResult | include/warmth/messages.hpp:154-165 | The decoder agrees with the grammar on every byte string. |
| MessageFormats.HelloExact | include/warmth/messages.hpp:111-126 | The HELLO decoder, for every byte string: it yields this message iff the bytes are its table, with the counts within their caps. |
| MessageFormats.AckExact | include/warmth/messages.hpp:127-133 | The same for HELLO_ACK; any nonzero byte counts as accepted. |
| MessageFormats.ReportExact | include/warmth/messages.hpp:134-141 | The same for REPORT. |
| MessageFormats.TopicExact | include/warmth/messages.hpp:142-153 | The same for WARM_TOPIC. |
| MessageFormats.ResultExact | include/warmth/messages.hpp:154-165 | The same for WARM_RESULT; any nonzero byte counts as success. |
| MessageFormats.HelloWritten | include/warmth/messages.hpp:77-88 | The HELLO encoder lays out its table. |
| MessageFormats.AckWritten | include/warmth/messages.hpp:89-92 | The HELLO_ACK encoder lays out its table. |
| MessageFormats.ReportWritten | include/warmth/messages.hpp:93-97 | The REPORT encoder lays out its table. |
| MessageFormats.TopicWritten | include/warmth/messages.hpp:98-102 | The WARM_TOPIC encoder lays out its table. |
| MessageFormats.ResultWritten | include/warmth/messages.hpp:103-107 | The WARM_RESULT encoder lays out its table. |
| Json.ReadsBackIffQuoteFree | include/warmth/json.hpp:87-161 | A printed value with integer numbers below 10^15 is parsed back as itself, at any indentation, exactly when no string and no key contains a quotation mark (section 7 of RFC 8259 requires it to be escaped). |
| Json.ParseDump | include/warmth/json.hpp:173-346 | Parsing what was printed gives the value back, so pretty and compact forms denote the same value. |
| Json.ValueBack | include/warmth/json.hpp:195-207 | The same for a value inside a document: the parser stops exactly behind it. |
| Json.ItemsBack | include/warmth/json.hpp:235-248 | The array loop reads the printed items back in order. |
| Json.MembersBack | include/warmth/json.hpp:215-233 | The object loop reads the printed members back. |
| Json.NumberBack | include/warmth/json.hpp:325-343 | A printed integer is tokenised completely and denotes itself. |
| Json.DecimalBack | include/warmth/json.hpp:119-122 | Decimal digits denote their number and have no leading zero. |
| Json.StringBack | include/warmth/json.hpp:250-292 | A quote-free string is read back from its escaped form. |
| Json.EscapeBack | include/warmth/json.hpp:87-107 | Each escaped byte other than a quotation mark is read back as itself, whatever follows. |
| Json.ValueQuoteFree | include/warmth/json.hpp:195-343 | From any text whose backslashes are those the printer emits, the parser yields only quote-free values. |
| Json.PrintEscapes | include/warmth/json.hpp:87-161 | The printer's output, whatever it prints, is such a text. |
| Json.BareQuoteBreaks | include/warmth/json.hpp:91-91 | The shortest failing document: the string of one quotation mark prints as three, which does not parse. |
| JsonSyntax.ParseExact | include/warmth/json.hpp:185-346 | The parser, for every text: it yields a value iff the text is that of a concrete syntax tree, blanks around it, that denotes the value. |
| JsonSyntax.PrintExact | include/warmth/json.hpp:87-161 | The printer writes this tree: each item on its own line one level deeper than its brackets in the pretty form, no blank in the compact one, for every value without a quotation mark in its strings. |
| JsonSyntax.Utf8Decodes | include/warmth/json.hpp:308-323 | What the parser appends for a code point is decoded back by a UTF-8 decoder (section 3 of RFC 3629). |
| JsonSyntax.LettersStand | include/warmth/json.hpp:257-266 | The eight letter escapes are those of section 7 of RFC 8259. |
| JsonSyntax.HexDigits | include/warmth/json.hpp:294-306 | A hexadecimal digit is one of sixteen, in either case. |
| Json.InsertAssigns | include/warmth/json.hpp:55-58 | Assigning a member changes what is found under its key and nothing else. |
| Json.InsertAscending | include/warmth/json.hpp:19-19 | Assigning a member keeps the keys in ascending order. |
| JsonCodec.DumpValue | include/warmth/json.hpp:165-169 | dump returns the printed text. |
| JsonCodec.Printer.WriteEscaped | include/warmth/json.hpp:87-109 | write_escaped appends the escaped string. |
| JsonCodec.Printer.WriteValue | include/warmth/json.hpp:111-161 | write_value appends the printed value, compact or indented. |
| JsonCodec.Printer.WriteItems | include/warmth/json.hpp:131-141 | The array loop of the printer. |
| JsonCodec.Printer.WriteMembers | include/warmth/json.hpp:143-159 | The object loop of the printer. |
| JsonCodec.ParseText | include/warmth/json.hpp:350-353 | parse returns a value iff the text is one value with blanks around it and stod converts each of its number tokens. |
| JsonCodec.Parser.SkipWs | include/warmth/json.hpp:189-191 | Skips exactly the leading blanks. |
| JsonCodec.Parser.Literal | include/warmth/json.hpp:209-213 | Takes a literal byte by byte or fails. |
| JsonCodec.Parser.Hex | include/warmth/json.hpp:294-306 | Takes four hexadecimal digits. |
| JsonCodec.Parser.Unicode | include/warmth/json.hpp:267-283 | Takes a code point, combining a surrogate pair. |
| JsonCodec.Parser.Chars | include/warmth/json.hpp:250-292 | parse_string behind its opening quote agrees with the grammar. |
| JsonCodec.Parser.Numeral | include/warmth/json.hpp:325-343 | parse_number agrees with the grammar, including the refusal of tokens stod does not convert. |
| JsonCodec.Parser.ParseValue | include/warmth/json.hpp:195-207 | parse_value agrees with the grammar on every text, and terminates. |
| JsonCodec.Parser.ParseArray | include/warmth/json.hpp:235-248 | parse_array agrees with the grammar. |
| JsonCodec.Parser.ParseObject | include/warmth/json.hpp:215-233 | parse_object agrees with the grammar. |

## Left out

- Sockets, the listener, threads, process spawning and file streams: a connection is an alive flag with a byte or message sequence, a file is its bytes.
- Mutex mechanics: each critical section is one step; `snapshot`, which takes the registry's mutex twice, is one read.
- Liveness of `wait_until_settled`: a lost worker's attempts stay in flight and notifications are sent without the waiter's mutex, so only safety is claimed.
- Dispatch of frames to handlers, PING, PONG, ERROR and SHUTDOWN frames, and the contents of the acknowledgement other than through the tags workers later present.
- The worker process: the coordinator is proved against any peer.
- That a result comes from the boot that received the command: an attempt records no boot, so the code does not promise it.
- Aliasing of connection records: a `ConnState` shared by pointer is a handle into a map; its node and backend strings are not kept.
- The clock: each handler takes the time as a parameter, read once where the source may read it twice.
- In-place update of a single `WarmthObject`: registries hold objects by value, so an object is a value and its setters return the updated one.
- Raw `WarmthFabric::transition`, `upsert` and single `set_dimension` in the concurrent fabric: the first two bypass the paths the invariants rest on.
- Derivation of object ids from their owner text: the id is a parameter of registration.
- Reservation tags, error message texts, enum name tables and the format_version field, which is never encoded.
- Rounding of elapsed seconds: the division by 1000 is over the reals; overflow of the subtraction of two times is not modelled.
- Numbers of a JSON document that are not integers below 10^15 in magnitude: they are kept as tokens, so `%.17g` and the value `stod` returns are not modelled (which tokens it refuses is a parameter), and minus zero is read as zero.
- The order in which a decoder notices two faults of one input: a refusal is one outcome without its message.
- Cost model, plans, explanations and rationale text: numeric constants and text; plan order would only add easy members.
- Collision claims about the digest or the derived identities, which are not properties of the code.
