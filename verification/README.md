# BridgeDB, modelled and proved

BridgeDB keeps the shared state of several assistants in two durable stores: SQLite
tables, and files that change by atomic rename, link or unlink.  This project models its
small durable protocols over those stores and proves what they keep.

Every store is an object whose methods perform one durable step at a time.  Each step
meets a *fault* from a script: it completes, raises without effect, raises after taking
effect (a failing directory sync), or the process dies.  A theorem about every script is a
theorem about every pattern of exceptions and crashes.  Each method is proved equal to a
function on values, and the properties are lemmas about those functions and about runs of
them.  Where several processes act on one store, the protocol is a state machine and the
lemmas quantify over every interleaving.

| files | protocol |
|---|---|
| `Common` | faults, scripts, optional values |
| `ActivationJournal`, `ActivationSafety`, `ActivationRoot` | journaled activation, rollback and bootstrap adoption of execution generations |
| `RecoveryEvidence`, `RecoveryStore` | recovery-anchor rotation composed with exactly-once sealing |
| `LeaseProtocol`, `SharedGroup` | one-use capabilities and the idle drain of the shared runtime |
| `JsonlBytes`, `EvidenceLog` | lossless rotation and the byte-budget reverse reader |
| `WriteConflicts` | conflict receipts under a quota with overflow rows |
| `FtsIndex`, `NewestRows`, `ContentTables`, `ContentRetention`, `ContentAnswers`, `ContentStore` | the full-text mirror, its metrics, and activity and snapshot retention |
| `OwnerLedger`, `OwnerAnswers`, `DispositionSafety`, `DispositionRaces`, `DelegationSafety`, `DelegationRaces`, `OwnerDesk` | terminal dispositions, acknowledgements and one-time grants |
| `ShippedStateCollapse`, `SchemaMigration` | the v13 to v14 collapse |
| `TenancyPolicy`, `TenancyRoot`, `TenancyTracker`, `TenancyStore` | lease budgets, plans, retirement and the server's tracker |
| `RecallRedaction`, `RecallStore`, `DispositionInventory` | redaction with receipts and the disposition inventory |
| `BoundedJson` | the explicit-stack capacity check |

`dafny verify dfyconfig.toml` checks the whole project.

## Where a promise does not hold as stated

Each item is proved: a lemma gives the failing case and the exact condition, and the model
keeps the code as it is.

- **Activation is atomic under one fault, not two.**  A state write that raises, followed by
  a death between the two pointer restores, leaves a map outside the three allowed ones;
  recovery then refuses it for ever (`TwoFaultsStrand`, `RecoveryRestsIffNotStuck`).
- **A committed activation can keep its journal.**  Drain markers are write-once, so an
  activation that would need a marker naming another superseder commits and stays
  interrupted: exactly when the marker of the generation it leaves is so taken
  (`ActivationPendsIffMarkerTaken`), as after every rollback (`RollbackThenActivatePends`).
- **One window of a rotation can lose the old anchor.**  An asynchronous exception between
  the directory exchange and the assignment of its flag lets cleanup take the old bundle for
  the candidate.  `Rotate` and `Seal` lose a bundle if and only if `RotationLoses` or
  `SealLoses` holds of the store and happenings before the call; `RotationCanLoseTheAnchor`
  meets it.  Receipts and attempts are immutable even then.
- **Log order rests on segment names.**  A rotation extends the log if and only if the rotated
  file commutes with the segments that its name sorts before (`RotationExtendsIffItCommutes`,
  with `OutOfOrderNamesReorder` as witness); a clock that never steps back suffices
  (`SteadyClockKeepsRotationOrder`).
- **Synced is absorbing for whole calls only.**  A policy call that had selected the row before
  the receipt committed overwrites it (`SyncedOverwrittenIffStalePolicy`), and a receipt keeps
  the policy that it supersedes if and only if its call saw it (`PolicyKeptIffTheCallSawIt`).
- **A grant's image is checked at the SELECT only.**  An interleaved delegated write finds the
  granted image if and only if the row has not changed since (`ExactImageIffRowUnchanged`,
  `DelegateCanWriteOnAStaleImage`); the grant is still spent once.
- **A receipt that superseded a policy cannot be replayed**, because the stored note is no longer
  the request's note (`ReplayIffNothingWasSuperseded`).
- **A refusal can be granted to a principal who can never use the grant**: the acknowledgement
  column admits two of the five principals (`AcknowledgedIffListed`, `AnyDelegateIsAccepted`,
  `GrantToAnUnlistedPrincipalIsUseless`).
- **A quarantine interrupted before its unlink can get stuck**, if the process goes from missing
  to reused before the retry (`QuarantineRetriesIffSameProbe`).
- **Redaction can move a record between the empty-query classes**, when it carries a flag that
  contradicts its text (`RedactedRecord`).
- **An interrupted redaction leaves the inventory degraded for good**, even after a later one
  has redacted every file (`OpenStaysOpen`, `CompletedSettlesOnlyItself`).

## Model

| member | source | states |
|---|---|---|
| ActivationRoot.GenerationRoot.Issue | src/bridge_db/execution_generation.py:1900-1913 | one pointer replacement, state write, journal write or drain marker meets one fault of the script: it refuses an unverified generation before any effect, and otherwise takes effect exactly when the fault lets it |
| ActivationRoot.GenerationRoot.RemovePendingJournal | src/bridge_db/execution_generation.py:2090-2097 | removing the journal raises if the unlink does, and reports an unverified removal when only the directory sync fails |
| ActivationRoot.GenerationRoot.Finish | src/bridge_db/execution_generation.py:2426-2447 | post-commit actions in order (write-once drain marker, receipt with readback, journal removal), stopping where the first one raises; a marker naming another superseder raises |
| ActivationRoot.GenerationRoot.RecoverPending | src/bridge_db/execution_generation.py:2246-2336 | recovery of a pending journal classifies the pointer map as committed, restorable or foreign and leaves, fault by fault, what `RecoverRun` says |
| ActivationRoot.GenerationRoot.Commit | src/bridge_db/execution_generation.py:2370-2447 | journal, then current, previous and state file; any raise restores the before-map and removes the journal, a raise during that restore is swallowed |
| ActivationRoot.GenerationRoot.ActivateGeneration | src/bridge_db/execution_generation.py:2450-2472 | a whole activation, recovery first, is one run of the specification under every fault script |
| ActivationRoot.GenerationRoot.RollbackGeneration | src/bridge_db/execution_generation.py:2613-2631 | a rollback is the same transaction towards the previous generation, without evidence |
| ActivationRoot.GenerationRoot.BootstrapAdoptGeneration | src/bridge_db/execution_generation.py:2475-2610 | an adoption moves both pointers at once, only from the expected legacy map and onto two verified generations outside it |
| ActivationSafety.ForwardStops | src/bridge_db/execution_generation.py:2392-2407 | wherever the forward writes stop, the map is the before, partial or committed map of the journal |
| ActivationSafety.RestoreStops | src/bridge_db/execution_generation.py:2304-2318 | wherever a restore stops, the map is an allowed one or the one stranded map between the two pointer writes |
| ActivationSafety.PerformStaysValid | src/bridge_db/execution_generation.py:2246-2631 | every call under every fault script keeps the root invariant: settled, or in flight under a well-formed journal |
| ActivationSafety.RunsNeverReadAMixture | src/bridge_db/execution_generation.py:2634-2645 | over any sequence of calls, each under any faults, readback is interrupted exactly when a journal exists and never a pointer/state mismatch |
| ActivationSafety.ReadbackIsExact | src/bridge_db/execution_generation.py:2634-2720 | each readback with its exact cause: interrupted, raising, inactive, a mismatch, or the generation, fallback and evidence of the state file |
| ActivationSafety.UndisturbedRecovery | src/bridge_db/execution_generation.py:2246-2336 | undisturbed recovery of every in-flight root: committed is finalized with its receipt and marker, a stuck root is untouched, all else returns to the exact before-map |
| ActivationSafety.RecoveryRestsIffNotStuck | src/bridge_db/execution_generation.py:2246-2336 | recovery clears the journal if and only if the root is neither stranded half way through a restore nor committed behind an occupied drain marker |
| ActivationSafety.CommittedMapNeverMovesBack | src/bridge_db/execution_generation.py:2268-2302 | once the new state file matches, no recovery, disturbed or not, moves a pointer or the state file |
| ActivationSafety.ForeignMapRefusedUntouched | src/bridge_db/execution_generation.py:2304-2310 | a map outside the three allowed ones is refused with nothing changed and no step taken |
| ActivationSafety.OneFaultAtomicity | src/bridge_db/execution_generation.py:2339-2631 | one exception or crash anywhere in activate, rollback or bootstrap adopt, then an undisturbed recovery: the before-map, read as before and with its old or a restored state file, or all of what was asked for: readers are told the requested generation, its fallback and the call's evidence, with receipt and drain marker, unless the marker was taken |
| ActivationSafety.UndisturbedTransact | src/bridge_db/execution_generation.py:2387-2447 | an undisturbed transaction always commits its exact new root; it is finished, receipt and marker included, unless the marker of the generation it leaves names another superseder, and then stays journaled |
| ActivationSafety.UndisturbedCall | src/bridge_db/execution_generation.py:2450-2631 | an undisturbed call that moves gives, in terms of the call and the old root alone, the whole new root and its readback: the requested map, the operation, and the call's evidence (none required after a rollback) |
| ActivationSafety.StaysPut | src/bridge_db/execution_generation.py:2345-2385 | every other call changes nothing: it preserves a generation that is already current and verified, and is refused otherwise |
| ActivationSafety.UndisturbedCallRecoversFirst | src/bridge_db/execution_generation.py:2450-2472 | a call on an interrupted root goes on from the before-map, or ends with the recovery: finalized, or refused while stuck |
| ActivationSafety.OnlyDeathsKill | src/bridge_db/execution_generation.py:2339-2447 | without a crash in the script neither a transaction nor a recovery is reported as a death |
| ActivationSafety.UnverifiedIsRefused | src/bridge_db/execution_generation.py:1900-1913 | no checked pointer is ever moved to an unverified generation |
| ActivationSafety.RemovalIsReported | src/bridge_db/execution_generation.py:2090-2097 | a journal whose unlink worked is gone and reported so; a failing sync is only noted |
| ActivationSafety.ActivationPendsIffMarkerTaken | src/bridge_db/execution_generation.py:1958-1967 | seen before the call: an admissible activation stays pending if and only if the current generation's drain marker names another superseder |
| ActivationSafety.RollbackThenActivatePends | src/bridge_db/execution_generation.py:1944-1972 | activating one generation, rolling back and activating another from any settled root always ends committed but pending, and recovery cannot end it |
| ActivationSafety.TwoFaultsStrand | src/bridge_db/execution_generation.py:2408-2424 | the limit of that law: a raising state write followed by a death between the two pointer restores leaves a map that every later recovery refuses untouched, for every activation over distinct pointers |
| ActivationSafety.TwoFaultsStrandIsPossible | src/bridge_db/execution_generation.py:2408-2424 | such a root and journal exist |
| RecoveryStore.Vault.CreateCandidate | src/bridge_db/recovery.py:727-857 | a candidate copy is published at a free superseded name, or nothing is left of it that replaces evidence |
| RecoveryStore.Vault.Exchange | src/bridge_db/recovery.py:1013-1051 | the exchange happens only inside the writer slot onto a candidate that is current for the source; its flag is left unset after the exchange exactly when an exception follows it at once |
| RecoveryStore.Vault.RollBack | src/bridge_db/recovery.py:1083-1107 | cleanup puts the old bundle back exactly if its exchange takes effect, and deletes the candidate only after that or when nothing was exchanged, exactly if the deletion takes effect |
| RecoveryStore.Vault.Rotate | src/bridge_db/recovery.py:928-1107 | under every fault and foreign commit every evidence bundle is kept, if and only if `RotationLoses` does not hold of the store and happenings before the call; outside that window the anchor is kept or exchanged with the old bundle at the superseded name, and a rotation that answers has called back; and a rotation that raises there leaves anchor, bundles and receipts as they were, if there was no fault, or one fault and no writer |
| RecoveryStore.RotationCanLoseTheAnchor | src/bridge_db/recovery.py:1049-1107 | the losing condition can be met: a stale anchor, and one asynchronous exception between the exchange and its flag |
| RecoveryEvidence.RotationKeepsEvidence | src/bridge_db/recovery.py:928-1107 | both permitted exits of a rotation keep every bundle that existed as recovery evidence |
| RecoveryEvidence.SchemaIsExact | src/bridge_db/recovery.py:173-192 | a current fingerprint is that of one content, schema included; a legacy one is read only under the expected schema |
| RecoveryEvidence.EvidenceOfSomeSchema | src/bridge_db/recovery.py:890-925 | a bundle may be rotated out exactly if it verifies under the expected or an older schema |
| RecoveryStore.Vault.PublishReceipt | src/bridge_db/recovery_seal.py:384-423 | a receipt is linked at most once and never replaces one; whether it stays is `StaysLinked` of the faults, and after a single exception it does not |
| RecoveryStore.Vault.PublishAttempt | src/bridge_db/recovery_seal.py:384-423 | an attempt is linked at most once, stays exactly if `StaysLinked`, and is gone again after a single exception |
| RecoveryStore.Vault.OpenBatch | src/bridge_db/recovery_seal.py:376-381 | a new batch directory is refused at the capacity limit, an existing one is reused |
| RecoveryStore.Vault.OpenAttempt | src/bridge_db/recovery_seal.py:627-637 | an existing attempt is reused unchanged by its owner only; a new one binds the live source fingerprint |
| RecoveryStore.Vault.AssertCurrentSealed | src/bridge_db/recovery_seal.py:558-583 | a sealed receipt passes only while the ready anchor has its digest and, for a receipt that repeats its attempt, the source still has the sealed fingerprint; undisturbed, it passes exactly then |
| RecoveryStore.Vault.RecordFailedRotation | src/bridge_db/recovery_seal.py:698-734 | a rotation that raised leaves the sealed receipt if one survived and an unsealed one with its reason otherwise, and never returns after an interrupt; undisturbed, it returns exactly if there was none and a surviving seal is still true |
| RecoveryStore.Vault.Seal | src/bridge_db/recovery_seal.py:586-743 | one sealing call is one `SealStep` under every fault and foreign commit, and keeps every bundle if and only if `SealLoses` does not hold before it; undisturbed it is exactly `CalmSeal`: who is admitted, when a receipt is replayed, which verdict a new one gets, and when the anchor rotates |
| RecoveryStore.Vault.Replay | src/bridge_db/recovery_seal.py:617-625 | the receipt is answered again to its owner, as a replay, exactly while it is unsealed or still true of source and anchor |
| RecoveryEvidence.NothingIsRewritten | src/bridge_db/recovery_seal.py:586-743 | over every run of calls and writers, whatever their rotations met, no attempt or receipt is changed or removed |
| RecoveryEvidence.EvidenceIsKept | src/bridge_db/recovery.py:928-1107 | over every stretch of a run in which no call loses one, every evidence bundle is kept |
| RecoveryEvidence.RunsStayConsistent | src/bridge_db/recovery_seal.py:473-507 | every receipt repeats its attempt, and a sealed one names an anchor of exactly the attempted source |
| RecoveryEvidence.SameReceiptForever | src/bridge_db/recovery_seal.py:617-625 | exactly once: any two calls of a run that return for one batch return the same receipt, the later one as a replay that moves no anchor |
| RecoveryEvidence.RepeatedCallReplays | src/bridge_db/recovery_seal.py:617-625 | and after a call has returned, an undisturbed call of the owner replays its receipt if and only if that is unsealed or still true, so always while source and anchor are unchanged |
| RecoveryEvidence.ReturnedSealIsTheSource | src/bridge_db/recovery_seal.py:558-583 | whenever a seal is returned the live source is the fingerprinted content and the ready anchor holds it |
| SharedGroup.RuntimeGroup.RegisterClient | src/bridge_db/shared_runtime.py:968-1000 | registration adds one fresh lease outside the lock |
| SharedGroup.RuntimeGroup.RenewCapability | src/bridge_db/shared_runtime.py:1036-1069 | renewal mints a fresh secret, unspent and valid for the TTL, only for the lease owner |
| SharedGroup.RuntimeGroup.AuthorizeCapability | src/bridge_db/shared_runtime.py:1097-1137 | a request is authorized exactly when the protocol step grants it, and spends the secret in the same locked rewrite |
| SharedGroup.RuntimeGroup.ReleaseClient | src/bridge_db/shared_runtime.py:1477-1498 | release removes exactly the caller's own lease |
| SharedGroup.RuntimeGroup.LiveClientCount | src/bridge_db/shared_runtime.py:1072-1094 | the loop over listed leases retires exactly those whose process is proved gone and counts exactly the others that are still there |
| SharedGroup.RuntimeGroup.ListForMonitor | src/bridge_db/shared_runtime.py:1681-1712 | the monitor takes the free lock and lists the leases it will judge, to drain only when a whole idle wait has passed since the empty moment |
| SharedGroup.RuntimeGroup.JudgeIdle | src/bridge_db/shared_runtime.py:1681-1726 | inside the lock the monitor recounts, then remembers or clears the empty moment, or drains its own ready broker |
| SharedGroup.RuntimeGroup.ReturnFromEnsure | src/bridge_db/shared_runtime.py:1447-1474 | ensure returns only with a ready broker that answers, having left the lock |
| LeaseProtocol.GrantedOnlyByAuthorize | src/bridge_db/shared_runtime.py:1097-1137 | a request is granted if and only if the lock is free, the lease holds this unspent, unexpired secret and its process answers as the same |
| LeaseProtocol.MintedIff | src/bridge_db/shared_runtime.py:1036-1070 | a capability is minted exactly by its lease's own process with the lock free |
| LeaseProtocol.CapabilitiesAreOneUse | src/bridge_db/shared_runtime.py:1036-1137 | in every interleaving each minted capability authorizes at most one request |
| LeaseProtocol.RenewalAndRetirementOutdate | src/bridge_db/shared_runtime.py:931-1069 | whatever step takes a secret away from its lease (renewal, release, reaping) outdates it |
| LeaseProtocol.OutdatedStaysOutdated | src/bridge_db/shared_runtime.py:931-1137 | an outdated secret stays outdated through every run |
| LeaseProtocol.OutdatedNeverAuthorizes | src/bridge_db/shared_runtime.py:1097-1137 | an outdated secret never authorizes again, whatever is interleaved |
| LeaseProtocol.NeverAuthorizesAfterExpiry | src/bridge_db/shared_runtime.py:1036-1137 | a secret minted at t authorizes nothing at or after t + TTL, on any lease, whatever is interleaved |
| LeaseProtocol.EnsureBinds | src/bridge_db/shared_runtime.py:1447-1474 | the step on which ensure returns binds its lease to a ready broker |
| LeaseProtocol.EnsuringEndsIff | src/bridge_db/shared_runtime.py:1447-1474 | an ensure call ends exactly by returning on a ready broker that answers, or by retiring its own lease |
| LeaseProtocol.LockChangesHands | src/bridge_db/shared_runtime.py:195-206 | the lifecycle lock is taken only while free and given back only by its holder |
| LeaseProtocol.EnsureTakesFreeLock | src/bridge_db/shared_runtime.py:1447-1458 | an ensure call that has not returned takes the lock exactly if it is free |
| LeaseProtocol.LeaseGoneIff | src/bridge_db/shared_runtime.py:1072-1094 | a lease goes exactly when its failed ensure or its owner retires it, or the monitor proves its process missing or reused |
| LeaseProtocol.BrokerChangesIff | src/bridge_db/shared_runtime.py:1319-1408 | one broker runs at a time, and its receipt goes exactly when it closes or an ensure proves its process gone |
| LeaseProtocol.BoundUntilEnded | src/bridge_db/shared_runtime.py:1681-1726 | no step drains a broker or unbinds a bound lease unless it releases that lease or proves its process gone |
| LeaseProtocol.NoDrainWhileBound | src/bridge_db/shared_runtime.py:1447-1726 | idle-drain safety over every interleaving: any drain after ensure returned comes after a release of that lease or a proof that its process is missing or reused |
| LeaseProtocol.DrainsOnlyAfterTheIdleWait | src/bridge_db/shared_runtime.py:1681-1726 | over every interleaving a drain hits the monitor's own ready broker alone and follows a judgement that found no live lease, a whole idle wait older than the listing, with no live lease found since |
| LeaseProtocol.MonitorActsIff | src/bridge_db/shared_runtime.py:1681-1726 | the monitor lists to drain exactly when the wait is over, and then drains exactly when no listed lease is alive |
| LeaseProtocol.ColdStartBinds | src/bridge_db/shared_runtime.py:1447-1474 | a client of a cold group registers, starts a broker and is bound to it |
| LeaseProtocol.OneCapabilityOneRequest | src/bridge_db/shared_runtime.py:1036-1137 | a live owner's renewed capability is granted one request and not a second, and the release ends its lease |
| LeaseProtocol.IdleBrokerIsDrained | src/bridge_db/shared_runtime.py:1681-1726 | a broker without leases is drained by the second look after the wait |
| JsonlBytes.ConcatSplit | src/bridge_db/audit.py:107-140 | splitting a file that ends on a record boundary into lines loses nothing |
| JsonlBytes.SplitAppend | src/bridge_db/evidence.py:37-94 | appending two files that end on boundaries appends their records |
| JsonlBytes.EveryBreakEndsALine | src/bridge_db/audit.py:132-134 | splitting on all bytes: LF, CR LF and a CR alone each end one line |
| JsonlBytes.LastLine | src/bridge_db/audit.py:132-134 | the end of the file ends the last line, unless that is empty |
| JsonlBytes.LastWithinIsTheLongestFittingSuffix | src/bridge_db/audit.py:107-140 | the records wholly inside the last n bytes are the longest suffix that fits |
| JsonlBytes.WindowIsLastWithin | src/bridge_db/audit.py:107-140 | the reader's byte window, with its cut first line dropped, is exactly the records wholly inside it |
| JsonlBytes.ReadReverse | src/bridge_db/audit.py:107-140 | one file read backwards yields the decodable objects of its window, newest first |
| EvidenceLog.ReadFamilyReverse | src/bridge_db/evidence.py:391-409 | the family loop hands each file what the newer ones left of the byte budget |
| EvidenceLog.FamilyReverseIsSimple | src/bridge_db/evidence.py:391-409 | refinement: the family reader yields exactly, newest first, the objects among the records wholly inside the last budget bytes of the oldest-to-newest concatenation |
| EvidenceLog.AppendedExtendsTheLog | src/bridge_db/evidence.py:37-94 | an append extends the concatenation by exactly its record, when it does not rotate or its segment name is newer than the others |
| EvidenceLog.AppendedStaysWellFormed | src/bridge_db/evidence.py:37-94 | every file still ends on a record boundary and the active one is at most the greater of the rotation size and the last record |
| EvidenceLog.RunsKeepEveryRecordInOrder | src/bridge_db/evidence.py:37-100 | any run of appends and rotations keeps the concatenation equal to all records in order |
| EvidenceLog.ReadAfterRun | src/bridge_db/evidence.py:391-409 | writer and reader together: after any run the family reader returns, newest first, the objects among the longest suffix of the appended records that fits |
| EvidenceLog.FirstFreeIsNewest | src/bridge_db/evidence.py:62-67 | while the clock does not step back, the collision counter keeps names gapless and finds a name newer than all others |
| EvidenceLog.SteadyClockKeepsRotationOrder | src/bridge_db/evidence.py:62-67 | every run whose names come from the counter under a clock that never steps back is in rotation order |
| EvidenceLog.NameSplitsSegments | src/bridge_db/evidence.py:28-34 | a name splits the segments into those read before it and those read after it |
| EvidenceLog.RotationExtendsIffItCommutes | src/bridge_db/evidence.py:28-34 | under an arbitrary free name a rotation extends the log if and only if the rotated file commutes with the segments that its name sorts before |
| EvidenceLog.OutOfOrderNamesReorder | src/bridge_db/evidence.py:28-34 | a witness that the order can be lost |
| EvidenceLog.JsonlFamily.FreeName | src/bridge_db/evidence.py:62-67 | the collision counter finds the first free segment name of its stem |
| EvidenceLog.JsonlFamily.Append | src/bridge_db/evidence.py:37-94 | the locked append rotates exactly when the record would cross the boundary and never overwrites a segment |
| WriteConflicts.ConflictStore.Upsert | src/bridge_db/db.py:1313-1359 | one upsert: refused exactly when a new identity meets a full quota, otherwise the identity's row is created or counted once more |
| WriteConflicts.ConflictStore.RecordWriteConflict | src/bridge_db/db.py:1362-1461 | a conflict lands on its own row or its surface's overflow row, whose count alone grows by one, and no row id changes |
| WriteConflicts.TargetIsLands | src/bridge_db/db.py:1362-1461 | the landing row depends only on the identities present and their number |
| WriteConflicts.RowsOnlyGrow | src/bridge_db/db.py:1313-1461 | rows are never removed, and a full table admits no new exact identity |
| WriteConflicts.SameIdentitySameRow | src/bridge_db/db.py:1362-1461 | over any trace every call on an identity lands on the same row |
| WriteConflicts.CountsAreExact | src/bridge_db/db.py:1313-1359 | each row's occurrence count equals the number of calls that landed on it |
| WriteConflicts.OwnRowIffAmongTheFirst | src/bridge_db/db.py:1362-1461 | an identity gets its own row if and only if fewer than the quota of distinct identities came before it |
| WriteConflicts.RowsAreBounded | src/bridge_db/db.py:1313-1461 | identity rows never exceed the quota plus the number of surfaces |
| FtsIndex.KeepExact | src/bridge_db/db.py:1624-1657 | dropping the rows of vanished sources leaves the index exact for the sources that remain |
| FtsIndex.UpsertExact | src/bridge_db/db.py:1610-1621 | delete-then-insert keeps the index exact for the updated source row |
| FtsIndex.ExactIsUnique | src/bridge_db/db.py:1988-2052 | two exact indexes of the same sources hold the same rows with the same multiplicity |
| FtsIndex.BalancedIffExact | src/bridge_db/db.py:1869-1960 | pigeonhole: equal counts, nothing missing, orphaned or mismatched if and only if the index holds exactly one right row per source row |
| FtsIndex.CollectKind | src/bridge_db/db.py:1876-1944 | the metrics of one source type are all well exactly when that type is mirrored exactly |
| FtsIndex.CollectMetrics | src/bridge_db/db.py:1869-1960 | the metrics report ok if and only if the whole index is exact |
| FtsIndex.ExactByKind | src/bridge_db/db.py:1869-1960 | the index is exact as a whole if and only if it is exact source type by source type |
| ContentRetention.PerformKeepsTheMirror | src/bridge_db/db.py:1700-1806 | every insert with retention, snapshot save with pruning and disposition tag edit keeps the index exact |
| ContentRetention.RunsKeepTheMirror | src/bridge_db/db.py:1573-1806 | over any run of those calls the index stays the exact mirror of the source rows |
| ContentRetention.MaintainedEqualsRebuilt | src/bridge_db/db.py:1988-2052 | after any run the index has the same rows, with multiplicity, as any rebuild from the source rows |
| ContentStore.Database.UpsertEntry | src/bridge_db/db.py:1610-1621 | deletes every row of the key, then inserts one |
| ContentStore.Database.GcOrphans | src/bridge_db/db.py:1634-1657 | removes exactly the index rows of that type whose source row is gone |
| ContentStore.Database.Insert | src/bridge_db/db.py:1700-1806 | the statements of an activity insert produce exactly the specified tables, index and answer |
| ContentStore.Database.OutsideNewest | src/bridge_db/db.py:1787-1800 | the ORDER BY ... LIMIT delete matches exactly the unprotected rows that at least limit rows of the source are newer than |
| ContentStore.Database.Process | src/bridge_db/db.py:1573-1588 | re-indexing after a tag edit replaces exactly the row's index entry |
| ContentStore.Database.MetricsOk | src/bridge_db/db.py:1869-1960 | the database's own metrics answer ok exactly when its index mirrors its tables |
| ContentStore.Database.Repopulate | src/bridge_db/db.py:1988-2052 | a rebuild makes any index the exact mirror, and changes no row of a maintained one |
| ContentStore.Rebuilt | src/bridge_db/db.py:1988-2052 | the table-by-table inserts produce an exact index |
| NewestRows.PositionIsRank | src/bridge_db/db.py:1789-1800 | each sorted row stands behind exactly the rows newer than it by (created_at, id) |
| NewestRows.LimitKeepsTheNewest | src/bridge_db/db.py:1789-1800 | LIMIT keeps exactly the rows that fewer than limit rows are newer than |
| NewestRows.KeptCount | src/bridge_db/snapshot_service.py:120-148 | the number kept is the smaller of the limit and the number of rows |
| NewestRows.DoomedByFamily | src/bridge_db/snapshot_service.py:132-141 | the newest-first walk with per-family counters dooms a row exactly when at least limit rows of its own family are newer |
| ContentTables.ReadersAgree | src/bridge_db/db.py:1684-1697 | canonicalisation is idempotent, keeps protection, and makes the exact-case readers agree with the case-insensitive retention |
| ContentTables.CasingIsIgnored | src/bridge_db/db.py:1684-1697 | a tag is read as a registered name exactly if each of its characters is the name's letter, capital or small |
| ContentTables.EveryFieldIsIndexed | src/bridge_db/db.py:1547-1558 | project, summary, a nonempty branch and every tag are the indexed text, one per line |
| ContentRetention.ReadersAgreeAfterRuns | src/bridge_db/db.py:1684-1806 | that agreement holds of every row after every run |
| ContentRetention.InsertRefusedIffQuotaFull | src/bridge_db/db.py:1726-1756 | an insert is refused, changing nothing, exactly when it is protected in any casing and its source already holds the quota of protected rows |
| ContentRetention.RetentionIsExact | src/bridge_db/db.py:1787-1804 | an accepted insert keeps every row of other sources, every protected row, and of the rest exactly those among the source's newest limit |
| ContentAnswers.InsertRowByRow | src/bridge_db/db.py:1748-1806 | an accepted insert stores the row under a fresh id, and a row of its source leaves exactly if it is unprotected and at least the limit of that source's rows were created later, ties broken by id |
| ContentAnswers.ProcessedOnce | src/bridge_db/tools/activity.py:1182-1192 | the tag edit appends PROCESSED once, to this row alone |
| ContentRetention.ProtectedRowsSurvive | src/bridge_db/db.py:1671-1806 | a protected row is there, protected and otherwise unchanged, after every run |
| ContentRetention.RunsKeepTheQuota | src/bridge_db/db.py:1726-1756 | when every protected insert of a source is quota-checked, no run takes it past the quota |
| ContentStore.Database.SaveSnapshot | src/bridge_db/snapshot_service.py:151-303 | the transaction of a snapshot save produces exactly the specified tables, index, refusals and answer |
| ContentStore.RowsToPrune | src/bridge_db/snapshot_service.py:120-148 | the pruning query and loop return exactly the rows outside their family's newest limit |
| ContentRetention.PruneOldestIsExact | src/bridge_db/snapshot_service.py:120-148 | prune_oldest keeps of each family of the system exactly its newest limit rows, and touches no other system |
| ContentRetention.PreserveNeverDeletes | src/bridge_db/snapshot_service.py:209-254 | preserve_existing deletes nothing and refuses, with one refusal row, exactly when the family is full |
| ContentAnswers.FamiliesAreShared | src/bridge_db/snapshot_service.py:74-81 | only codex payloads are told apart, by the three operating keys and without them by the consulted node |
| ContentAnswers.SaveIsAnswered | src/bridge_db/snapshot_service.py:183-278 | a seed never adds to a system that has a snapshot, a preserving caller is refused with one refusal row exactly when the family is full, and everything else is stored under a fresh id |
| ContentAnswers.PruneRowByRow | src/bridge_db/snapshot_service.py:96-148 | a pruning save keeps every other system, and of its own exactly the rows with fewer than the limit of later ones in their family |
| ContentRetention.SaveKeepsWithinLimit | src/bridge_db/snapshot_service.py:151-303 | no save, under any policy, takes a family past the limit |
| ContentRetention.RunsKeepWithinLimit | src/bridge_db/snapshot_service.py:96-303 | every family of every system stays within the limit over every run |
| OwnerDesk.Desk.Consume | src/bridge_db/owner_delegation.py:401-422 | a consumption is inserted once; a second one is refused by the primary key |
| OwnerDesk.Desk.Commit | src/bridge_db/tools/activity.py:1182-1280 | from the first write to the commit or rollback: tags, guarded UPDATE, consumption and projection job happen together or not at all |
| OwnerDesk.Desk.ResolveGrant | src/bridge_db/owner_delegation.py:344-398 | the joined rows and the observed image resolve to the specified standing: none, changed, active or used |
| OwnerDesk.Desk.ReadPhase | src/bridge_db/tools/activity.py:1037-1166 | the checks before the first write give the specified answer, or go on with a complete request, the present shipped row and, for a delegate, its grant |
| OwnerDesk.Desk.Record | src/bridge_db/tools/activity.py:911-1327 | an owner is recorded exactly when the request is complete and the row shipped and not yet synced; an answer other than recorded leaves the database as it was; a recorded one means that this row alone took the choice and its caller, with one job for a receipt |
| OwnerAnswers.OwnerIsAnswered | src/bridge_db/tools/activity.py:1037-1180 | every answer to an owner with its exact condition: incomplete, missing, not shipped, recorded, replayed, immutable or a downgrade |
| OwnerAnswers.DelegateIsAnswered | src/bridge_db/tools/activity.py:1071-1180 | every answer to a delegate, by the grant's pair, its consumption and the exact image |
| OwnerAnswers.NobodyRecordsUnshipped | src/bridge_db/tools/activity.py:1037-1064 | an incomplete request, a missing row and a row that never shipped are refused to everybody |
| OwnerAnswers.RecordedRow | src/bridge_db/tools/activity.py:1182-1300 | what is recorded: the request's words, caller and time, a receipt without policy fields and a policy without receipt fields, and for a delegate the grant spent on the row that results |
| OwnerAnswers.AcknowledgerIsAnswered | src/bridge_db/snapshot_service.py:316-421 | every answer to an acknowledgement with its exact condition |
| OwnerAnswers.AcknowledgedRefusal | src/bridge_db/snapshot_service.py:357-421 | what an acknowledgement writes, and that any other answer writes nothing |
| OwnerAnswers.RecordsEnterOpen | src/bridge_db/snapshot_service.py:200-257 | rows and refusals enter once, with no decision on them |
| OwnerDesk.Desk.Acknowledge | src/bridge_db/snapshot_service.py:306-438 | an acknowledgement transaction is the specified call, its rollbacks included |
| OwnerDesk.Desk.ApplyManifest | src/bridge_db/owner_delegation.py:261-341 | the item loop either applies the whole manifest, every item inserted or replayed, or rolls back to the beginning |
| DispositionSafety.SyncedIsTerminal | src/bridge_db/tools/activity.py:1103-1222 | over every run of whole calls a synced row never changes again, carries PROCESSED, and has exactly one projection job |
| DispositionSafety.OnlySyncedAddsProcessed | src/bridge_db/tools/activity.py:1182-1192 | tags change only in a synced call that reports it, by exactly one PROCESSED; a call that does not record changes nothing at all |
| DispositionSafety.SupersededPolicySurvives | src/bridge_db/tools/activity.py:1168-1180 | a receipt that supersedes a policy keeps that policy's name, reason and reference and the caller's notes inside the row's note |
| DispositionSafety.ReplayIffNothingWasSuperseded | src/bridge_db/tools/activity.py:1005-1012 | repeating a successful receipt is the promised no-op if and only if it superseded no policy; otherwise it is refused as a different receipt |
| DispositionSafety.DelegatedPolicyReplays | src/bridge_db/tools/activity.py:1123-1160 | a delegate's policy decision asked for again is answered as a replay without a write |
| DispositionRaces.SyncedOverwrittenIffStalePolicy | src/bridge_db/tools/activity.py:1197-1222 | at statement granularity a synced row is changed if and only if the step finishes a policy call that selected it earlier and whose grant is unspent |
| DispositionRaces.StalePolicyOverwritesAReceipt | src/bridge_db/tools/activity.py:1197-1222 | that case arises for every shipped unsynced row and every pair of valid requests of its owner |
| DispositionRaces.ReceiptRacesHaveOneWinner | src/bridge_db/tools/activity.py:1197-1280 | however receipt calls interleave with each other and with whole calls, a row is synced once with one job and its tag, and then frozen |
| DispositionRaces.LoserChangesNothing | src/bridge_db/tools/activity.py:1223-1250 | a receipt call that finds the row synced rolls everything back and is told it replayed exactly when its receipt is the stored one |
| DispositionRaces.PolicyKeptIffTheCallSawIt | src/bridge_db/tools/activity.py:1168-1180 | a receipt, by whomever, keeps the policy that it supersedes if and only if its call had selected the row under a policy that leaves the same words |
| DispositionRaces.LateReceiptForgetsThePolicy | src/bridge_db/tools/activity.py:1168-1180 | a witness: a policy recorded while a receipt call is in flight is erased by it, reason and note |
| DelegationSafety.ManifestIsAllOrNothing | src/bridge_db/owner_delegation.py:261-341 | after a manifest every listed item and nothing else is granted and only grants changed, or nothing changed |
| DelegationSafety.ManifestRefusedIffSomeItemBlocks | src/bridge_db/owner_delegation.py:271-304 | a manifest of distinct resources is rolled back exactly when some item does not match an actionable resource or names one already granted differently |
| DelegationSafety.DelegatedWriteSpendsItsGrant | src/bridge_db/owner_delegation.py:344-422 | a non-owner's write happens only under an unspent grant to that caller for the exact present image, and records with it the image it leaves |
| DelegationSafety.OtherCallsSpendNothing | src/bridge_db/owner_delegation.py:401-422 | no other call adds a consumption |
| DelegationSafety.OneDelegatedWritePerResource | src/bridge_db/owner_delegation.py:344-422 | over any run a resource suffers at most one delegated write, and its grant is spent exactly when that write has happened |
| DelegationSafety.UsedOnlyOnItsResult | src/bridge_db/owner_delegation.py:378-388 | after any run a consumed grant resolves only on the result image of its consumption |
| DelegationRaces.OneDelegatedStepPerResource | src/bridge_db/owner_delegation.py:401-422 | over every interleaving a resource suffers at most one delegated write, and its grant is spent exactly when that write has happened |
| DelegationRaces.ExactImageIffRowUnchanged | src/bridge_db/tools/activity.py:1197-1267 | an interleaved write under a grant finds the granted image if and only if the row is the one that its call selected |
| DelegationRaces.DelegateCanWriteOnAStaleImage | src/bridge_db/tools/activity.py:1197-1267 | the other case arises whenever the owner decides while the delegate's call is in flight |
| DelegationSafety.CustodyIsPreserved | src/bridge_db/owner_delegation.py:1-6 | grants and consumptions are append-only and no run changes the owner stored on a row or refusal |
| DelegationSafety.AcknowledgementIsTerminal | src/bridge_db/snapshot_service.py:357-373 | an acknowledged refusal never changes again |
| DelegationSafety.GrantToAnUnlistedPrincipalIsUseless | src/bridge_db/db.py:267-267 | a refusal granted to a principal that the acknowledged_by check does not admit stays unspent for ever |
| DelegationSafety.AcknowledgedIffListed | src/bridge_db/db.py:267-267 | an acknowledgement by the owner or under a fitting grant succeeds if and only if the acknowledged_by check admits the caller |
| DelegationSafety.AnyDelegateIsAccepted | src/bridge_db/owner_delegation.py:261-341 | a manifest on an open refusal is accepted whoever its delegate is, and its grant then resolves as active |
| SchemaMigration.Connection.Execute | src/bridge_db/db.py:1015-1088 | DDL outside a transaction commits by itself, an UPDATE opens a transaction that a failure discards |
| SchemaMigration.Connection.AddColumns | src/bridge_db/db.py:1041-1049 | interrupted anywhere, the guarded ADD COLUMNs leave a prefix of the columns and nothing else |
| SchemaMigration.Connection.EnsureVersion14 | src/bridge_db/db.py:1188-1250 | whatever interrupts the step, the file holds some added columns or the finished migration; undisturbed, the latter |
| ShippedStateCollapse.CollapseKeepsTheMeaning | src/bridge_db/db.py:1015-1088 | every row keeps its meaning (receipt, else policy, else open), its older columns and its place; both child tables are gone |
| ShippedStateCollapse.RerunConverges | src/bridge_db/db.py:1021-1026 | finishing an interrupted step gives the uninterrupted result |
| ShippedStateCollapse.AnyHistoryConverges | src/bridge_db/db.py:1021-1026 | after any history of interruptions, one attempt that gets through leaves exactly the uninterrupted result |
| ShippedStateCollapse.DroppingReceiptsFirstWouldLoseThem | src/bridge_db/db.py:1068-1073 | were the receipts table dropped on its own, a row with both states would end as the policy: why the copies, drops and version bump share one transaction |
| TenancyPolicy.HighWaterOf | src/bridge_db/tenancy.py:643-645 | the maxima of a group bound every observation and are each attained |
| TenancyPolicy.DerivePolicy | src/bridge_db/tenancy.py:606-661 | one budget per observed owner, from that owner's exact high water; refused without observations |
| TenancyPolicy.PolicyIgnoresOrder | src/bridge_db/tenancy.py:606-661 | the policy depends only on which observations occur |
| TenancyPolicy.PolicyIsMonotone | src/bridge_db/tenancy.py:606-661 | more observations never shrink a budget |
| TenancyPolicy.BudgetIsExact | src/bridge_db/tenancy.py:640-661 | every limit exactly: one process more than observed, the least integers not below 1.25 times the lifetime and memory and twice the lifetime, nor below a minute, 16 MiB and five minutes |
| TenancyPolicy.DecisionIsExact | src/bridge_db/tenancy.py:827-901 | every decision with its exact condition: effects only on proof, reviews of the first exceeded limit, each keep with its cause, and nothing planned without a budget |
| TenancyPolicy.ObservedBehaviourIsKept | src/bridge_db/tenancy.py:827-901 | an idle live lease at or below its owner's high water is always planned keep_within_budget |
| TenancyStore.LeaseRoot.PlanLifecycle | src/bridge_db/tenancy.py:809-928 | owners are counted over all leases and each lease gets its own decision with the bytes it was based on |
| TenancyStore.LeaseRoot.ApplyPlan | src/bridge_db/tenancy.py:931-1108 | applying a plan performs, step by step, the specified single effect |
| TenancyStore.LeaseRoot.QuarantineLegacy | src/bridge_db/tenancy.py:1111-1196 | quarantine performs, step by step, the specified archive and unlink |
| TenancyRoot.PlannedEffectIsAccepted | src/bridge_db/tenancy.py:931-1108 | while nothing has changed since the plan, the one effect that it holds for the target is accepted and completed: the exact retirement, or the close request alone |
| TenancyRoot.ApplyIsConservative | src/bridge_db/tenancy.py:931-1108 | however interrupted, a plan changes nothing unless exactly one of its decisions asks for an effect on the target and that lease's bytes, owner and process are still as planned (and, for a close request, no active request); then only that lease's entries change and nothing is lost |
| TenancyRoot.ChoiceIsExact | src/bridge_db/tenancy.py:953-970 | a targeted call is refused exactly unless one decision asks for an effect on the target, and an untargeted one exactly when several ask for any |
| TenancyRoot.RefusalIsTrue | src/bridge_db/tenancy.py:972-1067 | each refusal of an effect with its exact cause, and nothing changed |
| TenancyRoot.RetirementByFaults | src/bridge_db/tenancy.py:1025-1056 | which of receipt and removal a fault leaves, and how it is reported |
| TenancyRoot.CloseRequestByFaults | src/bridge_db/tenancy.py:1058-1099 | a close request is written whole or not at all, names the lease's generation, and one that is there is not rewritten |
| TenancyRoot.PlanIsExact | src/bridge_db/tenancy.py:809-928 | a plan row carries the lease it was based on, counts that owner's leases, and claims an ancestry only of a process found the same |
| TenancyRoot.QuarantineLosesNothing | src/bridge_db/tenancy.py:1111-1196 | a quarantine touches only an idle unknown-owner lease of a process proved gone, and archives before it removes |
| TenancyRoot.RetirementConverges | src/bridge_db/tenancy.py:979-1056 | a retirement interrupted anywhere is finished by the same plan, and from then on that plan changes nothing under any probe or fault |
| TenancyRoot.CleanRetirement | src/bridge_db/tenancy.py:979-1056 | a retirement that succeeds at once ends in the same place |
| TenancyRoot.CloseConverges | src/bridge_db/tenancy.py:1057-1099 | a close request, once written, is not written again while the lease is unchanged |
| TenancyRoot.QuarantineRetriesIffSameProbe | src/bridge_db/tenancy.py:1161-1184 | a quarantine that stopped in any way with its receipt written and its lease still there can be finished if and only if the probe still gives the recorded state |
| TenancyRoot.QuarantineIsAnswered | src/bridge_db/tenancy.py:1111-1195 | each answer of a quarantine with its exact cause, and what a fault leaves of it |
| TenancyRoot.QuarantineCanStopHalfway | src/bridge_db/tenancy.py:1179-1184 | a death between the two steps stops it there |
| TenancyStore.Tracker.Persist | src/bridge_db/tenancy.py:488-496 | every write refreshes the heartbeat, size and retirement flags, which the marker and the active count decide |
| TenancyStore.Tracker.RequestStarted | src/bridge_db/tenancy.py:498-514 | a request is accepted exactly when no retirement is requested; active count is started less finished |
| TenancyStore.Tracker.RequestFinished | src/bridge_db/tenancy.py:516-532 | a finished request is counted once; finishing without one in flight is refused |
| TenancyStore.Tracker.RetirementReady | src/bridge_db/tenancy.py:534-558 | ready only when every started request has finished |
| TenancyStore.Tracker.Close | src/bridge_db/tenancy.py:560-593 | close archives, unlinks and drops its close request in that order, only with no request in flight |
| TenancyTracker.RunsStaySound | src/bridge_db/tenancy.py:448-593 | over every interleaving of servers, plans, quarantines and crashes active == started - finished and every lease that existed has its file or a receipt |
| TenancyTracker.PlansSpareTheLiving | src/bridge_db/tenancy.py:931-1196 | plans and quarantines never touch the file of a running server |
| TenancyTracker.NoRequestStartsAfterRetirement | src/bridge_db/tenancy.py:498-507 | once retirement is requested, or the lease has ended, no further request is accepted in any run |
| TenancyTracker.CloseHasNoRequestInFlight | src/bridge_db/tenancy.py:560-566 | a server that closes has finished every request it accepted |
| TenancyTracker.RequestsAreTold | src/bridge_db/tenancy.py:488-532 | every request leaves a record that is fresh and whose retirement flags are true of markers and count; one is refused exactly when retirement is asked for |
| TenancyTracker.ReadinessIsTold | src/bridge_db/tenancy.py:534-558 | a server is told it may go exactly when it was asked to and is idle, and the record is rewritten only when that is news |
| TenancyTracker.CloseByFaults | src/bridge_db/tenancy.py:560-593 | which of receipt, unlink and close request a fault leaves of a close, and how it is reported |
| TenancyTracker.RequestMovesCount | src/bridge_db/tenancy.py:498-532 | over the interleaved world a running server's request is counted exactly when it is not asked to retire, and finished exactly when one is in flight |
| TenancyTracker.NewServerBegins | src/bridge_db/tenancy.py:448-514 | a new server accepts its first request unless its generation drains |
| TenancyTracker.DrainStopsRequests | src/bridge_db/tenancy.py:479-505 | draining its generation stops a server from accepting requests at once |
| TenancyTracker.RetiresWhenIdle | src/bridge_db/tenancy.py:516-593 | a server asked to retire is told that it is ready once its last request is finished, and its close leaves nothing but a receipt |
| TenancyTracker.CrashedServerIsRetired | src/bridge_db/tenancy.py:972-1056 | the orphan that a crash leaves is retired by the plan that found it missing |
| TenancyTracker.OtherMoves | src/bridge_db/tenancy.py:448-477 | a start never replaces a lease, an observation writes what it tells, and a crash takes the server and leaves its file |
| RecallRedaction.RedactLines | src/bridge_db/evidence_policy.py:494-526 | the loop redacts every record in place, counts the records and the raw queries, and refuses any unusable line |
| RecallRedaction.RedactedRecord | src/bridge_db/evidence_policy.py:512-519 | no text query survives, every other field does, redaction is idempotent, and the record keeps its place in the empty-query statistics if and only if no flag contradicted its text |
| RecallRedaction.BlankParts | src/bridge_db/evidence_policy.py:513-515 | a query is empty exactly if every character of it is white space |
| RecallRedaction.RedactionKeepsTotals | src/bridge_db/evidence_policy.py:494-526 | count and order are kept, no raw query remains, a second pass finds none and changes nothing, and the empty-query total is kept when every flag agrees |
| RecallStore.RecallFamily.ReplaceFiles | src/bridge_db/evidence_policy.py:661-664 | the renames replace a prefix of the files, wherever they stop |
| RecallStore.RecallFamily.RedactQueries | src/bridge_db/evidence_policy.py:537-709 | the whole transaction, its failure handler included, is the specified one |
| RecallRedaction.RedactIsTrue | src/bridge_db/evidence_policy.py:637-701 | wherever it stops, the receipts are true: none or aborted means nothing replaced, completed means everything replaced |
| RecallRedaction.AnsweredBeforeWriting | src/bridge_db/evidence_policy.py:585-635 | each of the four answers without a write, with its exact cause and nothing changed |
| RecallRedaction.StopsAtPrepared | src/bridge_db/evidence_policy.py:637-659 | a fault at the prepared receipt leaves the files, and the receipt exactly if it came after the append |
| RecallRedaction.StopsAtRename | src/bridge_db/evidence_policy.py:661-705 | a fault at the k-th rename leaves exactly the first k - 1 files replaced, with `aborted` logged only if it was the first rename, it raised, and logging worked |
| RecallRedaction.StopsAfterRenames | src/bridge_db/evidence_policy.py:661-686 | a fault at the directory sync or the completed receipt leaves every file replaced, and without a fault the redaction completes |
| RecallRedaction.ClearMeansAllOrNothing | src/bridge_db/evidence_policy.py:637-701 | a half-redacted family is never reported clear |
| RecallRedaction.RerunConverges | src/bridge_db/evidence_policy.py:580-686 | wherever a call stopped, a new archive and an undisturbed call give the files of one undisturbed call |
| RecallRedaction.OpenStaysOpen | src/bridge_db/evidence_policy.py:637-701 | an interrupted transaction stays open for ever: no later redaction closes it |
| RecallRedaction.CompletedSettlesOnlyItself | src/bridge_db/evidence_policy.py:637-701 | a redaction that completes leaves the log settled if and only if it was settled before |
| DispositionInventory.TakeInventory | src/bridge_db/evidence.py:163-200 | newest-first setdefault equals the forward last-write-wins reading; clear if and only if nothing was truncated, every record is valid and every prepared transaction was later settled |
| DispositionInventory.NoneOpenIffSettled | src/bridge_db/evidence.py:163-200 | no transaction's last word is prepared if and only if each prepared one was later completed or aborted |
| BoundedJson.CheckBounded | src/bridge_db/capacity.py:36-58 | the stack loop accepts exactly the payloads whose recursive size and depth are within the limits, reports true lower bounds, and pops at most one node more than the limit |
| BoundedJson.RemainingPush | src/bridge_db/capacity.py:51-58 | pushing the children of a node accounts for every node below it |
| BoundedJson.FitsUnfold | src/bridge_db/capacity.py:41-58 | a node fits the depth bound exactly when it and all its children do |

## Left out

- ActivationSafety.OneFaultAtomicity: speaks of one fault in a call followed by an undisturbed recovery; with two faults the law is false, as `TwoFaultsStrand` shows.
- EvidenceLog.RunsKeepEveryRecordInOrder: requires each new segment's name to be newer than those it finds, as a clock that steps back breaks the order; `RotationExtendsIffItCommutes` is exact for one rotation.
- ContentRetention.RunsKeepTheQuota: requires that every protected insert of the source carries the quota, since the source lets a caller omit it.
- DispositionRaces.ReceiptRacesHaveOneWinner: excludes policy calls in flight on the same row, which nothing in the source guards against.
- DelegationSafety.DelegatedWriteSpendsItsGrant: is about uninterrupted calls; `DelegationRaces` says what is left of it in between.
- RecallRedaction.RedactionKeepsTotals: keeps the empty-query total only when no flag contradicts its text; `RedactedRecord` gives the exact condition per record.
- `recovery_seal_inventory`: counts and a latest-attempt maximum over records that are already proved immutable.
- `_select_activity_signal_entries`, lifecycle aggregation and status formatting: read-only views.
- Hashing, HMAC, secrets and JSON text: digests are injective, secrets and lease identities fresh, printing and parsing inverse; a plan or an image stands for its digest.
- Release-tree verification, anchor preconditions and activation evidence: verdicts given as sets or flags.
- File modes, owners, symbolic links, stat signatures, and whether a completed sync survives a power cut.
- The reason codes of a failed rotation: every I/O, protocol and verification error is one reason.
- Two rotations at once: each call runs alone against foreign database commits.
- Real time: clock readings are parameters, lifetimes are reals, and no liveness is claimed.
- Torn last lines of a JSONL file, and the process id inside segment names: the reader theorems assume files that end on a record boundary.
- Conflict rows without an identity hash, and the detail text of a conflict.
- Activity rows whose tags do not parse: the metrics model gives them no expected text, the insert and retention model does not contain them.
- Case folding and white space beyond ASCII and Latin-1.
- Context-section and handoff writes: their rows are sources of the mirror that the modelled calls do not change.
- Coroutines that share one SQLite connection: a rollback is taken to undo only its own call's statements.
- A row that disappears between the SELECT and the UPDATE of a disposition: shipped rows are protected from retention.
- Manifest parsing and its shape checks: a manifest is modelled after validation.
- The migration backup file and every other rung of the ladder.
- A close request file whose content names another lease, which makes planning raise.
- A tracker that keeps running after its close raised, failing tracker writes, and changes to a lease between the checks and the effect of one plan application.
- Parsing failures, archive manifests and temporary files of the redaction beyond a usable/unusable line and an equality with the archived files.
