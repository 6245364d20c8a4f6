/**
 * The executor samples a retry delay up to the ceiling also after the last allowed attempt.
 * Here is a reachable world in which that happens, and what becomes of the attempt.
 */
module PublicationLastAttempt {
  import opened Prelude
  import opened Digests
  import opened Backoff
  import opened Delivery
  import opened DeliveryInvariant
  import opened Publication
  import opened PublicationRuns
  import opened PublicationSafety
  import opened PublicationMisuse

  /** The open attempt of the first turn, as its outcome transaction sees it. */
  lemma TurnedIsOpen(a: Authority, w: World, h: Head, specs: seq<TargetSpec>, owner: Owner, finishedAt: nat,
                     outcome: Outcome, delay: nat)
    requires |specs| >= 1 && Turned(a, w, h, specs, owner) && specs[0].ordinal == 0
    requires h.createdAt <= finishedAt && !outcome.Submitted?
    ensures var input := InputFrom(w.exposures[0].prepared, finishedAt, outcome, delay);
            && input.Ok? && StillOpen(w.store, 0, w.exposures[0].prepared.lease, input.value)
            && input.value.number == 1 && input.value.outcome == outcome && input.value.retryDelay == delay
            && input.value.startedAt == h.createdAt && input.value.finishedAt == finishedAt
  {
    hide StoreInv;
  }

  lemma FirstOrdinal(h: Head, specs: seq<TargetSpec>)
    requires SpecsMatch(h, specs)
    ensures |specs| >= 1 && specs[0].ordinal == 0
  {
  }

  /** The single outbox's first attempt was logged as Unknown and nothing is scheduled for its target. */
  predicate ClosedUnknown(s: Store, h: Head)
  {
    && |s.outboxes| == 1 && |s.outboxes[0].targets| >= 1 && s.outboxes[0].targets[0].state.Unknown?
    && s.outboxes[0].targets[0].nextAttempt.None?
    && |s.log| == 1 && s.log[0].id == Id(h, 0, 1) && s.log[0].outcome == Outcome.Unknown
  }

  /** Recovery at this instant reads a zero ceiling and closes the attempt for good. */
  predicate ExpiryCloses(a: Authority, s: Store, h: Head, now: nat)
  {
    var read := ReadExpiredCandidate(s, a, now);
    && read.Ok? && read.value.Some? && read.value.value.retryUpperBound == 0
    && var r := RecoverExpired(s, read.value.value, now, 0);
       r.Ok? && ClosedUnknown(r.value.store, h)
  }

  /**
   * With a maximum of one attempt, every sampled nonzero delay of the first turn is refused as
   * invalid input; recovery at expiry then logs the attempt as Unknown and schedules nothing.
   */
  lemma LastAttemptReachable(a: Authority, h: Head, specs: seq<TargetSpec>, owner: Owner,
                             finishedAt: nat, outcome: Outcome, delay: nat)
    requires Committable(a, START.store, h, specs) && h.policy.maxAttempts == 1
    requires h.createdAt <= finishedAt < h.createdAt + h.policy.deadlineMs <= MAX_I64
    requires RetryableOutcome(outcome) && 1 <= delay <= RetryUpperBound(h.policy, 1)
    ensures var w := Reach(a, FirstTurn(h, specs, owner));
            && |w.exposures| == 1
            && var p := w.exposures[0].prepared;
               var input := InputFrom(p, finishedAt, outcome, delay);
               input.Ok? && RecordOutcome(w.store, p.lease, input.value) == Err(InvalidInput)
    ensures ExpiryCloses(a, Reach(a, FirstTurn(h, specs, owner)).store, h, h.createdAt + h.policy.deadlineMs)
  {
    hide StoreInv, SpecsMatch, RecordOutcome, FirstTurn, Reach, ValidRelayId, Turned, ExpiryCloses, InputFrom;
    assert SpecsMatch(h, specs);
    FirstOrdinal(h, specs);
    FirstTurnReaches(a, h, specs, owner);
    var w := Reach(a, FirstTurn(h, specs, owner));
    RefusesTurned(a, w, h, specs, owner, finishedAt, outcome, delay);
    RecoversTurned(a, w, h, specs, owner);
  }

  lemma RefusesTurned(a: Authority, w: World, h: Head, specs: seq<TargetSpec>, owner: Owner,
                      finishedAt: nat, outcome: Outcome, delay: nat)
    requires |specs| >= 1 && Turned(a, w, h, specs, owner) && specs[0].ordinal == 0 && h.policy.maxAttempts == 1
    requires h.createdAt <= finishedAt < h.createdAt + h.policy.deadlineMs && RetryableOutcome(outcome) && delay >= 1
    ensures |w.exposures| == 1
    ensures var p := w.exposures[0].prepared;
            var input := InputFrom(p, finishedAt, outcome, delay);
            input.Ok? && RecordOutcome(w.store, p.lease, input.value) == Err(InvalidInput)
  {
    hide StoreInv, RecordOutcome, StillOpen, InputFrom;
    TurnedIsOpen(a, w, h, specs, owner, finishedAt, outcome, delay);
    var p := w.exposures[0].prepared;
    RecordDecides(a, w.store, 0, p.lease, InputFrom(p, finishedAt, outcome, delay).value);
  }

  lemma RecoversTurned(a: Authority, w: World, h: Head, specs: seq<TargetSpec>, owner: Owner)
    requires |specs| >= 1 && Turned(a, w, h, specs, owner) && h.policy.maxAttempts == 1
    requires h.createdAt + h.policy.deadlineMs <= MAX_I64
    ensures ExpiryCloses(a, w.store, h, h.createdAt + h.policy.deadlineMs)
  {
    hide StoreInv, RecoverExpired, OutboxInv, OutboxOk, DecodesRow, TargetsRead, DecodesTargets, TargetsValid,
         Authorized, RecoveryAdmits, Ceiling, ReadExpiredCandidate;
    var s, expires := w.store, h.createdAt + h.policy.deadlineMs;
    At(a, s, 0);
    OnlyFirstOpen(s.outboxes[0], s.log);
    ReadsSingle(a, s, expires);
    var c := Candidate(s.outboxes[0].row, 0);
    CeilingAdmits(s.outboxes[0], s.log, expires, 0);
    RecoverDecides(a, s, c, 0, expires, 0);
    RecoverLogsUnknown(a, s, c, 0, 0, expires, 0);
  }

  /** The only outbox, once expired, is the one recovery reads. */
  lemma ReadsSingle(a: Authority, s: Store, now: nat)
    requires StoreInv(a, s) && |s.outboxes| == 1 && Expired(s.outboxes[0], now)
    ensures ReadExpiredCandidate(s, a, now) == Ok(Some(Candidate(s.outboxes[0].row, Ceiling(s.outboxes[0]))))
  {
    hide StoreInv, DecodesRow, TargetsRead, Authorized, Ceiling, CandidateOk;
    CandidateReads(a, s, now);
    assert OldestExpired(s, now, 1) == Some(0);
  }

  lemma OnlyFirstOpen(o: Outbox, log: seq<Attempt>)
    requires OutboxInv(o, log) && |o.targets| >= 1 && o.targets[0].state.Submitted?
    requires o.targets[0].attemptCount == o.row.head.policy.maxAttempts
    ensures OpenIndex(o.targets) == Some(0) && Ceiling(o) == 0
  {
    SubmittedOnce(o, log);
    OneSubmitted(o.targets);
    hide OutboxInv;
    var k := OpenIndex(o.targets).value;
  }
}
