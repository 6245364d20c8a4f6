# Delivery, reconciliation and codec proofs for the RHI service

This project models the durable protocols of the RHI service in Dafny and proves what they
guarantee over every run. `dafny verify dfyconfig.toml` checks all of it.

## What is modelled

**Exact-byte delivery.** The presence and publication workflows store the same rows: an outbox
holding committed signed bytes, its ordered relay targets, and an append-only attempt log. A worker
claims an outbox by compare-and-swap, persists `Submitted` for one due target, exposes the bytes,
and records the outcome; an expired lease is recovered as `Unknown`. Each SQL transaction is one
atomic step, and an error leaves the store as it was. Workers keep every lease, exposed attempt and
recovery candidate they ever received and may use any of them at any time, with clocks that need not
be monotone. The theorems quantify over all such interleavings.

- `Delivery` has the rows and the pure rules; `DeliveryEffects` says what they mean column by column,
  without the functions that compute them; `DeliveryInvariant` has the invariant of one outbox
  (a target is the fold of its log rows) and the proof that each guarded update keeps it;
  `Exposures` has the history of bytes handed to sinks and its accounting.
- `Presence`, `PresenceInvariant`, `PresenceCommit` and `PresenceRuns` are the presence transactions,
  the store invariant and whole runs. `PresenceSafety`, `PresenceFence`, `PresenceReplay`,
  `PresenceProgress`, `PresenceEffects`, `PresenceLiveness` and `PresenceLastAttempt` state the results.
  `PresenceDesired` derives the desired state.
- `Publication`, `PublicationRuns`, `PublicationSafety`, `PublicationEffects`, `PublicationMisuse` and
  `PublicationLastAttempt` do the same for the publication workflow with its configured retry policy
  and fixed authority.
- `PresenceRepository`, `PublicationRepository` and `ReconciliationRepository` are the imperative
  forms: classes whose methods write row after row, loop over targets, documents and parts, and roll
  back on an error. Every method is proved equal to the transaction function it implements.

**Reconciliation.** `ReconciliationPlan` derives the per-source plan of one claimed job and checks its
result inventory. `ReconciliationCommit` is the atomic commit of evidence, dirty generation, cursor
checkpoints and result rows; `ReconciliationSafety` proves replay and monotonicity over runs in which
other ingestion, other commits and the job scheduler interleave. `ReconciliationDecides` says exactly
when a first commit succeeds and what it writes, `ReconciliationReplay` exactly which recommits of a
stored attempt are acknowledged.

**Codecs.** `Encoding`, `Digests` and `Identities` prove the length-framed digest preimages injective
and domain-separated; SHA-256 is an injective wrapper over its preimage. `AdminCodec` covers the
canonical base64url check, percent decoding and query scalars. `Backoff` is the retry ceiling.

## What the proofs found

- A publication lease is a copied row, and preparing an attempt does not change the row. A second
  preparation with the same lease succeeds exactly when another target is due; the outbox then has
  two open attempts, and every recovery read that picks it fails; recording one of the two leaves the
  other open outside any lease (`PublicationMisuse`). With one
  preparation per lease, as the executor does, this cannot happen (`PublicationSafety.OneOpenAttempt`).
- Both executors sample a retry delay up to the ceiling also after the last allowed attempt, where only
  delay zero is admissible. Any other sample is refused as invalid input and the attempt stays open
  until recovery closes it as `Unknown` with nothing scheduled. `PresenceLastAttempt` and
  `PublicationLastAttempt` reach such states; the `SamplesAdmissible` lemmas give the exact condition.
- Committing a new generation supersedes stale idle outboxes only when their last update is not after
  the commit instant; others keep their state, but the generation fence still makes them dead
  (`PresenceFence.CommitSupersedes`, `PresenceFence.StaleForever`); such a state is reachable
  (`PresenceLiveness.EarlyCommitLeavesPending`).
- A timed-out source whose deadline was capped to the lease expiry can never be committed
  (`ReconciliationSafety.CappedTimeoutNeverCommits`).

## Model

| member | source | states |
|---|---|---|
| Backoff.ComputeRetryUpperBound | src/publication_execution.rs:1306-1312 | the doubling loop computes the ceiling, between the initial and maximum backoff; the saturating multiplication is never reached |
| Backoff.BoundClosedForm | src/publication_execution.rs:1306-1312 | the ceiling after attempt n is min(initial * 2^(n-1), maximum), for all n >= 1 |
| Backoff.BoundMonotone | src/presence_publication.rs:2295-2301 | the ceiling never shrinks from one attempt to a later one |
| Delivery.FindDue | src/presence_publication.rs:2252-2260 | the first due target: due itself with none due before it, absent exactly when no target is due |
| Delivery.EarliestRequired | src/presence_publication.rs:2139-2171 | the minimum scheduled instant over required targets, absent exactly when none is scheduled |
| DeliveryInvariant.DispositionDefined | src/presence_publication.rs:2139-2171 | with no open attempt the disposition never reaches its invariant error, and says what the required targets say |
| DeliveryEffects.ScheduleCloses | src/presence_publication.rs:2217-2241 | an outcome gives its target the state of its own name and the sampled retry instant below the maximum, otherwise no schedule |
| DeliveryEffects.DispositionFollows | src/presence_publication.rs:2139-2171 | Complete exactly when every required target is accepted, Blocked exactly when a required one is rejected, unauthorized or out of attempts, otherwise Pending at the earliest required schedule |
| DeliveryInvariant.ClosedShape | src/presence_publication.rs:2352-2382 | a target that is the fold of its log has the column shape the schema admits |
| DeliveryInvariant.CommittedInv | src/presence_publication.rs:167-181 | a freshly inserted outbox with its targets satisfies the delivery invariant |
| DeliveryInvariant.ClaimKeeps | src/presence_publication.rs:196-201 | the claim update keeps the invariant and finds nothing open |
| DeliveryInvariant.DueIsReady | src/presence_publication.rs:203-210 | a due target's last update never lies after its schedule, so the guarded submit matches it |
| DeliveryInvariant.PrepareKeeps | src/presence_publication.rs:203-210 | submitting a due target under a lease with nothing open keeps the invariant |
| DeliveryInvariant.CloseKeeps | src/presence_publication.rs:1755-1774 | closing the open attempt and releasing the lease keeps the invariant: every target is the fold of the longer log |
| DeliveryInvariant.PendingHasDue | src/presence_publication.rs:2139-2171 | a Pending outbox whose schedule has come has a due target |
| DeliveryInvariant.CloseOne | src/presence_publication.rs:1848-1893 | with one open attempt the recovery loop closes exactly that one |
| Presence.OldestClaimable | src/presence_publication.rs:127-142 | the claimable outbox that no other claimable one precedes, absent exactly when none is claimable |
| Presence.OldestExpired | src/presence_publication.rs:144-150 | the expired lease that no other expired one precedes, absent exactly when none is expired |
| PresenceInvariant.ClaimStep | src/presence_publication.rs:1601-1652 | a claim keeps the store invariant and moves the store forward |
| PresenceInvariant.PrepareStep | src/presence_publication.rs:1654-1729 | a preparation keeps the store invariant and moves the store forward |
| PresenceInvariant.RecordStep | src/presence_publication.rs:1731-1784 | an outcome transaction keeps the store invariant and moves the store forward |
| PresenceInvariant.RecoverStep | src/presence_publication.rs:1830-1921 | a recovery keeps the store invariant, also when the desired state moved since its read |
| PresenceCommit.DesiredStep | src/presence_desired.rs:652-734 | a desired-state commit keeps the store invariant |
| PresenceCommit.SignedStep | src/presence_publication.rs:1105-1228 | a document commit keeps the store invariant: supersession and insertion included |
| PresenceRuns.NextInv | src/presence_publication.rs:1601-1921 | every action of every worker, with any stale lease, attempt, candidate or clock value, keeps the world invariant |
| PresenceRuns.RunFrom | src/presence_publication.rs:1032-1062 | every interleaving from a good world stays good and only moves the store forward |
| PresenceRuns.CandidateReads | src/presence_publication.rs:1786-1828 | recovery's read never fails on a kept store and names the right retry ceiling |
| PresenceSafety.TargetIsFoldOfLog | src/presence_publication.rs:1654-1921 | in every reachable state each target is the fold of its log rows, numbered 1..attempt_count (one fewer while Submitted), only the last final, never overlapping in time |
| PresenceSafety.OneOpenAttempt | src/presence_publication.rs:1946-1965 | at most one target of an outbox is Submitted, only under a lease and started before it expires |
| PresenceSafety.RowIsDisposition | src/presence_publication.rs:2139-2171 | outside a lease the row's state and schedule equal the disposition, which never fails; with no required target the outbox is Pending exactly until its first lease ends (its first revision), and Complete from then on |
| PresenceEffects.RowFollowsTargets | src/presence_publication.rs:2139-2171 | in every reachable state a row outside a lease is Complete, Blocked or Pending at the earliest required schedule exactly as its required targets say |
| PresenceSafety.PendingHasWork | src/presence_publication.rs:2243-2260 | a Pending outbox with a required target has a required target with attempts left, due at the outbox's own schedule |
| PresenceSafety.OneLeaseValidates | src/presence_publication.rs:1946-1965 | of all leases ever issued for an outbox at most one still validates |
| PresenceSafety.OneLeaseRecords | src/presence_publication.rs:1967-1986 | at most one issued lease matches the stored row an outcome transaction compares |
| PresenceSafety.OneRowPerAttempt | src/presence_publication.rs:1735-1754 | no attempt identity is ever logged twice, whether closed by record or by recovery |
| PresenceSafety.ExposuresAreCommittedBytes | src/presence_publication.rs:1718-1728 | the n-th exposure of a target is attempt n with exactly the committed bytes |
| PresenceSafety.OneRowBetweenExposures | src/presence_publication.rs:1654-1921 | between two consecutive exposures of a target exactly one of its log rows is written |
| PresenceFence.StaleForever | src/presence_publication.rs:1923-1944 | once an outbox's generation is stale, no later claim takes it, no lease prepares it and no first outcome is recorded for it |
| PresenceFence.DesiredOnlyGrows | src/presence_desired.rs:652-734 | desired generations only grow and one generation names one desired row |
| PresenceFence.OlderGenerationsIdle | src/presence_publication.rs:1146-1162 | once an outbox of a newer generation exists no older one is leased or has an open attempt |
| PresenceFence.AuthoredTimesIncrease | src/presence_publication.rs:1124-1145 | for each document kind authored time is strictly increasing in generation |
| PresenceFence.CurrentMatchesDesired | src/presence_publication.rs:1934-1944 | an outbox matches the desired row exactly when its generation is the current one |
| PresenceFence.CommitSupersedes | src/presence_publication.rs:182-187 | after a new generation every earlier outbox is idle, and one stays Pending or Blocked exactly when its last update is later than the commit |
| PresenceReplay.RecordReplays | src/presence_publication.rs:2080-2137 | replaying a recorded outcome at any later moment returns the first value and writes nothing, exactly while the outbox is still at that revision |
| PresenceReplay.CommitReplays | src/presence_publication.rs:1275-1316 | recommitting an enabled document set while its generation is desired is a no-op with changed = false, however far delivery has gone |
| PresenceProgress.ClaimThenPrepare | src/presence_publication.rs:1654-1711 | after a claim, preparation succeeds at every instant until expiry unless the desired state or the leased outbox changed |
| PresenceEffects.ClaimWrites | src/presence_publication.rs:196-201 | a claim changes exactly the picked row: leased to its owner for fifteen seconds at the next revision |
| PresenceEffects.ClaimTakesOldest | src/presence_publication.rs:127-142 | the claimed outbox is no later than any claimable one by schedule, creation, kind and stored identity |
| PresenceEffects.PrepareWrites | src/presence_publication.rs:1654-1729 | a preparation needs its exact unexpired current lease, submits exactly the first ready target and returns the committed bytes with the lease's deadline |
| PresenceProgress.RecordDecides | src/presence_publication.rs:1731-1784 | the outcome of an open attempt commits exactly when the outbox is current, the lease unexpired, the clock not behind and the delay admissible; an inadmissible delay alone is invalid input |
| PresenceEffects.RecordWrites | src/presence_publication.rs:1731-1784 | a first outcome needs its exact unexpired lease and open attempt, closes exactly that target with the outcome's state and retry instant, logs exactly its row, releases the outbox to what its targets say and returns both states |
| PresenceEffects.RecordedOnlyOnce | src/presence_publication.rs:2080-2090 | a logged attempt is answered only for the very facts it was logged with, and never written again |
| PresenceProgress.ExecutorTurn | src/presence_publication.rs:1037-1062 | in an uninterrupted executor turn preparation succeeds and the outcome commits exactly when its delay is admissible |
| PresenceProgress.SamplesAdmissible | src/presence_publication.rs:1049-1061 | the executor's sample is admissible exactly below the last attempt, for final outcomes, or when it is zero |
| PresenceProgress.RecoverDecides | src/presence_publication.rs:1830-1921 | recovery commits exactly when its snapshot is current and expired and the delay fits; no other guard fails |
| PresenceEffects.RecoverWrites | src/presence_publication.rs:1830-1921 | a recovery closes the open attempt as Unknown with its retry instant and releases the row: Superseded without schedule for a stale candidate, otherwise to what its targets say |
| PresenceEffects.CandidateIsCurrent | src/presence_publication.rs:1786-1828 | the candidate is marked current exactly when its generation is the desired one, and its ceiling is the backoff of the open attempt |
| PresenceEffects.RecoveryFollowsItsRead | src/presence_publication.rs:1895-1903 | over any run, a candidate read while stale is left Superseded by its recovery and one read while current follows its targets |
| PresenceEffects.RecoveryReadsOldest | src/presence_publication.rs:144-150 | the recovered outbox is no later than any expired one by expiry, creation, kind and stored identity |
| PresenceProgress.RecoveryNeverStuck | src/presence_publication.rs:1006-1030 | every delay within the candidate's ceiling recovers an unchanged expired outbox |
| PresenceProgress.ExpiredReadSucceeds | src/presence_publication.rs:1786-1828 | recovery's read succeeds in every reachable state and finds nothing exactly when nothing is expired |
| PresenceProgress.RecoverCloses | src/presence_publication.rs:1848-1893 | recovery logs the open attempt once as Unknown and schedules nothing after the last attempt |
| PresenceProgress.PrepareSpends | src/presence_publication.rs:1668-1672 | each preparation spends exactly one attempt of one outbox and touches no other |
| PresenceProgress.BudgetNeverGrows | src/presence_publication.rs:1668-1672 | no later transaction gives an outbox attempts back |
| PresenceProgress.ExposureBudget | src/presence_publication.rs:1668-1672 | an outbox exposes its bytes once per attempt used, at most 100 times per target; exposures plus remaining budget always make up the allowance |
| PresenceLiveness.CommitDecides | src/presence_publication.rs:1105-1228 | a valid set for an uncommitted generation commits exactly when each document is newer than all of its kind, its time is storable and no lease is out |
| PresenceEffects.CommitWrites | src/presence_publication.rs:1163-1228 | committing a new generation supersedes exactly idle unfinished rows not updated since, adds one untouched outbox per document, and reports a change exactly when something changed |
| PresenceEffects.StoredSetDecides | src/presence_publication.rs:1112-1123 | a set for a generation already stored is acknowledged exactly when the stored outboxes are its own documents and targets, otherwise refused; nothing is written |
| PresenceLiveness.ClaimDecides | src/presence_publication.rs:1601-1652 | a claim takes the oldest due outbox exactly unless the clock is behind its last update or the expiry overflows |
| PresenceLiveness.FirstExposure | src/presence_publication.rs:1037-1062 | from an empty store, binding, desired commit, document commit, claim and preparation always expose the exact bytes of one committed document |
| PresenceLiveness.EarlyCommitLeavesPending | src/presence_publication.rs:182-187 | any two good, differing generations reach the exception: committing the second before the first one's last update succeeds and leaves its rows Pending and stale |
| PresenceLastAttempt.LastAttemptReachable | src/presence_publication.rs:1037-1062 | a run of executor steps reaches attempt 100, where every sampled nonzero delay is refused as invalid input and recovery closes the attempt as Unknown with nothing scheduled |
| PresenceRepository.Repository.SetDesired | src/presence_desired.rs:652-734 | refines the desired-state transaction |
| PresenceRepository.Repository.Claim | src/presence_publication.rs:1601-1652 | refines the claim transaction; an error changes nothing |
| PresenceRepository.Repository.Prepare | src/presence_publication.rs:1654-1729 | refines the preparation transaction, with rollback |
| PresenceRepository.Repository.Record | src/presence_publication.rs:1731-1784 | log row, target update, disposition and release written in order equal the outcome transaction, with rollback |
| PresenceRepository.Repository.ReadExpired | src/presence_publication.rs:1786-1828 | the read with its counting loop equals the candidate transaction; it finds nothing exactly when nothing is expired, and otherwise an expired outbox that no other expired one precedes |
| PresenceRepository.Repository.Recover | src/presence_publication.rs:1830-1921 | the closing loop and the release equal the recovery transaction, with rollback |
| PresenceRepository.Repository.InsertDocument | src/presence_publication.rs:1178-1217 | inserting the row and then each target yields the fresh outbox |
| PresenceRepository.Repository.CommitDocuments | src/presence_publication.rs:1105-1228 | supersession, the insertion loop and the final comparison equal the commit transaction, with rollback |
| PresenceDesired.DeriveTargets | src/presence_desired.rs:525-570 | derived targets follow the configured order, are distinct, numbered and valid, and each is the first relay of that name, writable |
| PresenceDesired.DeriveIsDerived | src/presence_desired.rs:449-523 | every derived authority carries the digests of its own fields and respects the mode's shape |
| PresenceDesired.DeriveDecides | src/presence_desired.rs:449-523 | an authority derives exactly from these configurations and carries their mode, kinds, targets, queue and key |
| PresenceDesired.ListDecides | src/presence_desired.rs:525-570 | a target list derives exactly from distinct identities whose first relay is writable with a stated requirement |
| PresenceDesired.DesiredDigestInjective | src/presence_desired.rs:593-640 | equal desired-state preimages come from equal mode, kinds, targets, queue and key |
| PresenceDesired.MatchesIffSameIntent | src/presence_desired.rs:831-849 | a stored row matches an authority exactly when both were derived from the same intent |
| PresenceDesired.CommitDesiredDecides | src/presence_desired.rs:652-734 | the same intent is a silent replay, a different one advances the generation by exactly one, and no storage check fails |
| PresenceDesired.DesiredWrites | src/presence_desired.rs:652-734 | a desired commit needs the bound configuration, stores exactly the authority's fields one generation later and reports exactly whether it changed |
| Digests.ComputeTargetSetDigest | src/presence_desired.rs:572-591 | hashing field by field gives the digest of the whole list encoding |
| Digests.TargetSetDigestInjective | src/publication.rs:393-412 | one target-set digest names one ordered target list of any encodable length |
| Identities.PresenceOutboxInjective | src/presence_publication.rs:1318-1331 | an outbox identity determines generation, kind, desired digest and event digest |
| Identities.PresenceAttemptInjective | src/presence_publication.rs:1333-1346 | an attempt identity determines outbox, event, ordinal and number |
| Identities.PublicationAttemptInjective | src/publication_attempt.rs:136-150 | a publication attempt identity determines outbox, event, ordinal and number |
| Identities.AuthorityInjective | src/publication.rs:414-445 | an authority digest determines mode, target count, target set, retry policy and queue |
| Identities.DomainsSeparate | src/presence_publication.rs:50-51 | preimages under different digest domains never coincide |
| Publication.OldestClaimable | src/publication_execution.rs:51-70 | the due outbox that no other due one precedes, absent exactly when none is due |
| Publication.OldestExpired | src/publication_execution.rs:72-91 | the expired lease that no other expired one precedes, absent exactly when none is expired |
| PublicationRuns.ClaimStep | src/publication_execution.rs:654-703 | a claim keeps the store invariant and leases the picked row with nothing open |
| PublicationRuns.PrepareStep | src/publication_execution.rs:705-770 | preparation with an unused lease keeps the store invariant |
| PublicationRuns.RecordStep | src/publication_execution.rs:772-822 | an outcome transaction keeps the store invariant |
| PublicationRuns.RecoverStep | src/publication_execution.rs:860-959 | a recovery keeps the store invariant |
| PublicationRuns.CloseOneEvidence | src/publication_execution.rs:878-930 | with one open attempt the recovery loop closes exactly that one, evidence permitting |
| PublicationRuns.NextInv | src/publication_execution.rs:654-959 | every action keeps the world invariant when each lease prepares at most once |
| PublicationRuns.RunFrom | src/publication_execution.rs:578-605 | every such interleaving stays good and only moves the store forward |
| PublicationSafety.TargetIsFoldOfLog | src/publication_execution.rs:705-959 | in every reachable state each target is the fold of its log rows, within the configured attempt maximum |
| PublicationSafety.OneOpenAttempt | src/publication_execution.rs:705-770 | with one preparation per lease at most one target of an outbox is Submitted, and only under a lease |
| PublicationSafety.RowIsDisposition | src/publication_execution.rs:1198-1230 | outside a lease the row equals the disposition, which never fails; with no required target the outbox is Pending exactly until its first lease ends, and Complete from then on |
| PublicationEffects.RowFollowsTargets | src/publication_execution.rs:1198-1230 | in every reachable state a row outside a lease is Complete, Blocked or Pending at the earliest required schedule exactly as its required targets say |
| PublicationSafety.OneLeaseValidates | src/publication_execution.rs:961-979 | of all leases ever issued for an outbox at most one still validates |
| PublicationSafety.LeasesAreAuthorized | src/publication_execution.rs:1180-1196 | every issued lease is for an outbox bound to the claiming authority |
| PublicationSafety.ClaimThenPrepare | src/publication_execution.rs:705-745 | after a claim, preparation succeeds at every instant until expiry while the outbox is as claimed |
| PublicationEffects.ClaimDecides | src/publication_execution.rs:654-703 | a claim takes the oldest due outbox exactly under the store's own authority with a fitting clock, and changes exactly that row; any other authority is an invariant failure |
| PublicationEffects.ClaimTakesOldest | src/publication_execution.rs:51-70 | the claimed outbox is no later than any due one by schedule, creation and identity |
| PublicationEffects.PrepareWrites | src/publication_execution.rs:705-770 | a preparation needs its exact unexpired lease, submits exactly the first ready target and returns the committed bytes with the lease's deadline |
| PublicationSafety.PrepareSpends | src/publication_execution.rs:717-721 | each preparation spends exactly one attempt of one outbox and touches no other |
| PublicationSafety.BudgetNeverGrows | src/publication_execution.rs:1232-1249 | no later transaction gives an outbox attempts back |
| PublicationSafety.EnqueuedBudget | src/publication_execution.rs:717-721 | a newly committed outbox starts with exactly target count times maximum attempts |
| PublicationSafety.ExposureBudget | src/publication_execution.rs:717-721 | over every run an outbox exposes its bytes once per attempt used, at most target count times maximum attempts; exposures plus remaining budget always make up that allowance |
| PublicationSafety.ExposuresAreCommittedBytes | src/publication_execution.rs:746-769 | the n-th exposure of a target is attempt n with exactly the committed bytes |
| PublicationSafety.OneRowBetweenExposures | src/publication_execution.rs:705-959 | between two consecutive exposures of a target exactly one of its log rows is written |
| PublicationSafety.OneRowPerAttempt | src/publication_execution.rs:776-778 | no attempt identity is ever logged twice |
| PublicationSafety.PendingHasWork | src/publication_execution.rs:1232-1249 | a Pending outbox with a required target has a required target with attempts left, due at the outbox's own schedule |
| PublicationSafety.SamplesAdmissible | src/publication_execution.rs:592-604 | the executor's sample is admissible exactly below the last attempt, for final outcomes, or when it is zero |
| PublicationSafety.RecordDecides | src/publication_execution.rs:772-822 | the outcome of an open attempt commits exactly under the caller-visible lease, clock and delay conditions; an inadmissible delay alone is invalid input |
| PublicationEffects.RecordWrites | src/publication_execution.rs:772-822 | a first outcome needs its exact unexpired lease and open attempt, closes exactly that target with the outcome's state and retry instant, logs exactly its row, releases the outbox to what its targets say and returns both states |
| PublicationEffects.RecordedOnlyOnce | src/publication_execution.rs:1005-1012 | a logged attempt is answered only for the very facts it was logged with, and never written again |
| PublicationSafety.RecoverDecides | src/publication_execution.rs:860-959 | the evidence bounds, identity and duplicate checks of recovery never fail: it commits exactly when the row is current and expired and the delay fits |
| PublicationEffects.RecoverWrites | src/publication_execution.rs:860-959 | a recovery closes the open attempt as Unknown with its retry instant and releases the row to what its targets say |
| PublicationEffects.RecoveryReadsOldest | src/publication_execution.rs:824-858 | recovery reads a row no later than any expired one, with exactly the ceiling of its open attempt |
| PublicationSafety.RecoverLogsUnknown | src/publication_execution.rs:878-930 | recovery logs the open attempt once as Unknown and schedules nothing after the last attempt |
| PublicationSafety.RecoveryNeverStuck | src/publication_execution.rs:824-858 | recovery's read always succeeds, and a delay within the candidate's ceiling recovers an unchanged expired row |
| PublicationSafety.RecordReplays | src/publication_execution.rs:1005-1064 | replaying a recorded outcome at any later moment returns the first value and writes nothing, exactly while the outbox is still at that revision |
| PublicationMisuse.SecondPrepare | src/publication_execution.rs:705-770 | a spent lease prepares again exactly when some target is due, and then two attempts are open |
| PublicationMisuse.RecoveryStuck | src/publication_execution.rs:838-847 | with two open attempts recovery's read fails whenever it picks that outbox |
| PublicationMisuse.RecordOrphans | src/publication_execution.rs:772-822 | recording one of two open attempts ends the lease, leaves the other open outside any lease and refuses its first outcome |
| PublicationMisuse.MisuseReachable | src/publication_execution.rs:331-336 | every two-target outbox reaches such a state within one executor turn |
| PublicationLastAttempt.LastAttemptReachable | src/publication_execution.rs:592-604 | with one allowed attempt the executor's first turn reaches a state where every sampled nonzero delay is refused as invalid input and recovery closes the attempt as Unknown with nothing scheduled |
| PublicationRepository.ValidateTargets | src/publication_execution.rs:1138-1178 | one pass over the stored targets accepts exactly the committed inventory |
| PublicationRepository.Repository.Claim | src/publication_execution.rs:654-703 | refines the claim transaction |
| PublicationRepository.Repository.Prepare | src/publication_execution.rs:705-770 | refines the preparation transaction, with rollback |
| PublicationRepository.Repository.Record | src/publication_execution.rs:772-822 | refines the outcome transaction, with rollback |
| PublicationRepository.Repository.Recover | src/publication_execution.rs:860-959 | the closing loop and the release equal the recovery transaction, with rollback |
| ReconciliationPlan.ComputePlan | src/reconciliation_attempt.rs:251-374 | the planning loop computes the plan; the first invalid source decides the error |
| ReconciliationPlan.PlansAreSound | src/reconciliation_attempt.rs:251-374 | start < source deadline <= attempt deadline <= lease expiry, sources strictly ordered, request identities distinct |
| ReconciliationPlan.PlanDecides | src/reconciliation_attempt.rs:251-374 | a plan exists exactly for these leases and configurations, its deadline is the attempt deadline capped by lease expiry, each request's deadline the source's capped by the plan's, and every other field the configured one |
| ReconciliationPlan.ResultDecides | src/reconciliation_attempt.rs:445-476 | a result is built exactly when it fits its request: started in time, timed out exactly when late, within both limits, and nothing for unsupported sources |
| ReconciliationPlan.RequestIdInjective | src/reconciliation_attempt.rs:670-683 | equal request identities come from equal material |
| ReconciliationPlan.AttemptIdInjective | src/reconciliation_attempt.rs:634-643 | one attempt identity names one job and one attempt number |
| ReconciliationPlan.SelectorInjective | src/reconciliation_attempt.rs:645-656 | one selector digest names one trade |
| ReconciliationPlan.InventoryOneToOne | src/reconciliation_attempt.rs:537-560 | an inventory is accepted exactly when it matches the requests position by position, and then one-to-one |
| ReconciliationSafety.PersistGrows | src/state_trade.rs:361-374 | persisting a fact only adds evidence and reports an insertion exactly when a mutation or event is new |
| ReconciliationSafety.WriteForward | src/source_ingest.rs:953-1000 | a checkpoint write only moves its cursor, revision and completion time forward |
| ReconciliationSafety.RunForward | src/reconciliation_commit.rs:321-405 | over any run no cursor, generation, evidence row or inventory is lost, rewritten or turned back |
| ReconciliationSafety.CommitReplaysSilently | src/reconciliation_commit.rs:436-473 | recommitting an attempt at any later point succeeds with created = false and no writes, whatever moved meanwhile |
| ReconciliationReplay.StoredCommitDecides | src/reconciliation_commit.rs:436-473 | a stored attempt is acknowledged exactly when its attempt row is the plan, every stored row carries its part field by field and every moved cursor has been reached; nothing is written |
| ReconciliationReplay.DifferentInventoryConflicts | src/reconciliation_commit.rs:453-456 | over any run, presenting a created attempt again with a different result or different facts is a conflict |
| ReconciliationReplay.CreatedAnswersPlan | src/reconciliation_commit.rs:215-258 | a created attempt stores one row per request of its plan, in order, each answering its request and finished before lease expiry |
| ReconciliationSafety.AttemptCreatedOnce | src/reconciliation_commit.rs:436-473 | an attempt identity is created at most once over a run, whatever plan or lease is presented for it |
| ReconciliationSafety.CheckpointsNeverGoBack | src/reconciliation_commit.rs:388-403 | a checkpoint's cursor never goes backwards over any run |
| ReconciliationSafety.DirtyAdvancesForNewEvidence | src/reconciliation_commit.rs:353-386 | a commit advances its trade's generation by exactly one when it brought a new mutation or event, and touches no dirty row otherwise |
| ReconciliationSafety.FreshCommitIsFenced | src/reconciliation_commit.rs:327-351 | a first commit holds the exact lease, the planned generation and the planned cursors |
| ReconciliationSafety.CappedTimeoutNeverCommits | src/reconciliation_commit.rs:241-258 | only timed-out results finish at or after lease expiry and the commit refuses them on every store; with a deadline capped to lease expiry that is every timed-out result |
| ReconciliationSafety.InventoryDigestInjective | src/reconciliation_commit.rs:661-687 | one inventory digest names one ordered fact list |
| ReconciliationDecides.PartsDecide | src/reconciliation_commit.rs:354-369 | the facts persist exactly when none contradicts the store or another fact, and then exactly they are added |
| ReconciliationDecides.WritesDecide | src/reconciliation_commit.rs:388-403 | the writes succeed exactly when every eligible cursor is storable, and then exactly the eligible checkpoints move to their candidates |
| ReconciliationDecides.CommitDecides | src/reconciliation_commit.rs:321-405 | a planned attempt not stored yet commits exactly when lease, generation and cursors are as planned, its facts are compatible, new evidence can advance the dirty row and its cursors are storable; evidence, dirty rows and checkpoints after it are named exactly |
| ReconciliationReplay.CommitNamesCheckpoints | src/reconciliation_commit.rs:388-434 | a first commit moves exactly the checkpoints of completed sources with a later candidate, to that candidate, and reports exactly those cursors in part order |
| ReconciliationReplay.CreatedObserves | src/reconciliation_commit.rs:354-369 | a created attempt adds exactly the observations of its facts |
| ReconciliationReplay.LatestIsMaximum | src/reconciliation_commit.rs:371-376 | the dirty row is stamped with the second of the latest finish |
| ReconciliationRepository.ComputeInventoryDigest | src/reconciliation_commit.rs:661-697 | hashing fact by fact gives the digest of the whole encoding |
| ReconciliationRepository.Repository.ReadAll | src/reconciliation_commit.rs:341-351 | the comparison loop returns the checkpoints the parts were planned against, or the first conflict |
| ReconciliationRepository.Repository.PersistAll | src/reconciliation_commit.rs:354-369 | the nested loops persist every fact and accumulate whether anything was new |
| ReconciliationRepository.Repository.WriteOne | src/reconciliation_commit.rs:388-403 | advances one eligible checkpoint and appends one result row |
| ReconciliationRepository.Repository.WriteAll | src/reconciliation_commit.rs:388-403 | the write loop stores checkpoints and result rows in part order |
| ReconciliationRepository.Repository.CommitAttempt | src/reconciliation_commit.rs:215-405 | caller checks and transaction equal the specified commit; any error rolls everything back |
| AdminCodec.EncodedIsCanonical | src/admin_v1.rs:1532-1557 | the encoding of every non-empty byte string is accepted and decodes back |
| AdminCodec.AlphabetIs | src/admin_v1.rs:1536-1543 | the alphabet runs through A-Z, a-z, 0-9, hyphen and underscore |
| AdminCodec.CanonicalIffEncoding | src/admin_v1.rs:1532-1557 | the accepted texts are exactly the unpadded base64url encodings of non-empty byte strings |
| AdminCodec.CheckPercent | src/admin_v1.rs:1034-1051 | the validating loop accepts exactly the texts whose percent signs start complete escapes |
| AdminCodec.PercentDecode | src/admin_v1.rs:998-1021 | the decoding loop stays in range on every valid encoding and returns its decoding |
| AdminCodec.DecodedIffWrites | src/admin_v1.rs:998-1021 | a text is valid and decodes to d exactly when it is one of the percent-encodings of d, with + as space |
| AdminCodec.EscapeRoundTrip | src/admin_v1.rs:998-1021 | every byte string has an encoding that decodes back to it |
| AdminCodec.IntegerIffDecimal | src/admin_v1.rs:968-985 | an integer scalar is accepted exactly for the canonical decimal rendering of each u64 |
| AdminCodec.WordsDecide | src/admin_v1.rs:986-993 | a boolean scalar is exactly one of its two words, and any other kind is the text itself |

## Left out

- SQL text, row decoding details, the connection pool and the unknown-commit-outcome plumbing: only what the guarded updates' WHERE and SET clauses mean.
- Schnorr signing, event rendering and event parsing: the checks are total functions given as parameters (`Presence.Verifier`), and the UTF-8 check of percent decoding likewise.
- SHA-256 internals: a digest is its preimage, so collisions do not exist in the model; outbox and attempt identities are their fields, which `Identities` justifies, and the bytes a presence identity is sorted by are a parameter (`Presence.Verifier`).
- Jitter sampling and the sinks: a delay is any number and an outcome any value the caller chooses.
- Overflow of row revisions at 2^63 - 1: revisions are unbounded; instants, generations and schedules keep their bounds.
- PresenceReplay.CommitReplays: stated for enabled document sets; a disabled set has no documents, so recommitting it repeats the supersession at its new instant.
- PublicationRuns.NextInv: runs under one fixed authority; committing an outbox is the specified operation `Enqueue`, because the finalization transaction that inserts it is not part of this model.
- Publication authority derivation: its target loop is the one `PresenceDesired.DeriveTargets` models.
- ReconciliationSafety.RunForward: persistence, checkpoint, dirty-generation and lease helpers are specified operations with their compare-and-swap conditions and trigger checks; other storage failures do not occur in the model.
- The manifest material built beside a reconciliation commit, finalization, attestation and the job scheduler.
- Identity envelope, credentials, configuration loading, the admin server and router, command line, diagnostics and process control.
