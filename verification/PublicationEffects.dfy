/**
 * What each publication transaction writes, column by column, and what the rows of every
 * reachable store therefore say about their targets.
 */
module PublicationEffects {
  import opened Prelude
  import opened Backoff
  import opened Delivery
  import opened DeliveryEffects
  import opened DeliveryInvariant
  import opened Publication
  import opened PublicationRuns
  import opened PublicationSafety

  // ------------------------------------------------------------------ rows and their targets

  /** In every reachable state a row outside a lease says what its targets say. */
  lemma RowFollowsTargets(a: Authority, actions: seq<Action>, i: nat)
    requires var s := Reach(a, actions).store; i < |s.outboxes| && !s.outboxes[i].row.state.Leased?
    ensures var o := Reach(a, actions).store.outboxes[i];
            if o.row.head.requiredCount == 0 && o.row.revision == 1
            then o.row.state.Pending? && o.row.nextAttempt == Some(o.row.head.createdAt)
            else Follows(o.row.state, o.row.nextAttempt, o.targets, a.policy.maxAttempts)
  {
    hide Reach, Follows, WorldInv, StoreInv, OutboxInv, DecodesRow, TargetsRead, DecodesTargets, TargetsValid;
    ReachInv(a, actions);
    var s := Reach(a, actions).store;
    At(a, s, i);
    AuthorizedAt(a, s.outboxes[i], s.log);
    RowSays(s.outboxes[i], s.log);
  }

  // ------------------------------------------------------------------ claims

  /** Everything one claim changes: the picked row becomes leased for the outbox's own deadline. */
  ghost predicate ClaimEffect(s: Store, s': Store, i: nat, owner: Owner, now: nat, lease: Lease)
  {
    && OnlyOutbox(s.outboxes, s'.outboxes, i) && s'.log == s.log && s'.outboxes[i].targets == s.outboxes[i].targets
    && var r := s.outboxes[i].row;
       var expires := now + r.head.policy.deadlineMs;
       && s'.outboxes[i].row == r.(state := Leased, revision := r.revision + 1, nextAttempt := None,
                                   leaseOwner := Some(owner), leaseExpires := Some(expires), updatedAt := now)
       && lease == Lease(s'.outboxes[i].row, owner, expires)
  }

  /**
   * On a store bound to authority `b`, a claim under authority `a` takes the oldest due outbox
   * exactly when `a` is `b`, the clock is not behind its last update and the expiry fits.
   */
  lemma ClaimDecides(b: Authority, s: Store, a: Authority, owner: Owner, now: nat)
    requires StoreInv(b, s)
    ensures var picked := OldestClaimable(s, now, |s.outboxes|);
            var r := ClaimNext(s, a, owner, now);
            && (picked.None? ==> r == Ok(Step(s, None)))
            && (picked.Some? ==>
                  && (r.Ok? && r.value.value.Some? <==>
                      a == b && s.outboxes[picked.value].row.updatedAt <= now && now + b.policy.deadlineMs <= MAX_I64)
                  && (a != b ==> r == Err(Invariant))
                  && (r.Ok? && r.value.value.Some? ==>
                        ClaimEffect(s, r.value.store, picked.value, owner, now, r.value.value.value)))
  {
    hide StoreInv, OutboxInv, OutboxOk, DecodesRow, TargetsRead, DecodesTargets, TargetsValid;
    if OldestClaimable(s, now, |s.outboxes|).Some? {
      var i := OldestClaimable(s, now, |s.outboxes|).value;
      At(b, s, i);
      AuthorizedAt(b, s.outboxes[i], s.log);
    }
  }

  /** The claimed outbox is no later than any due one by schedule, creation and identity. */
  lemma ClaimTakesOldest(a: Authority, s: Store, owner: Owner, now: nat, j: nat)
    requires ClaimNext(s, a, owner, now).Ok? && ClaimNext(s, a, owner, now).value.value.Some? && j < |s.outboxes|
    requires s.outboxes[j].row.state.Pending? && s.outboxes[j].row.nextAttempt.Some?
    requires s.outboxes[j].row.nextAttempt.value <= now
    ensures OldestClaimable(s, now, |s.outboxes|).Some?
    ensures var i := OldestClaimable(s, now, |s.outboxes|).value;
            var x, y := s.outboxes[i], s.outboxes[j];
            && x.row.state.Pending? && x.row.nextAttempt.Some?
            && NotAfter(x.row.nextAttempt.value, x.row.head.createdAt, 0, IdBytes(Key(x)),
                        y.row.nextAttempt.value, y.row.head.createdAt, 0, IdBytes(Key(y)))
  {
    hide DecodesRow, TargetsRead, Authorized, RankLess, NotAfter;
    assert Claimable(s.outboxes[j], now);
    var i := OldestClaimable(s, now, |s.outboxes|).value;
    NotLessIsNotAfter(ClaimRank(s.outboxes[i]), ClaimRank(s.outboxes[j]));
  }

  /** The backoff of the one open attempt; zero when there is none or no attempt is left. */
  function OpenCeiling(o: Outbox): nat
  {
    match OpenIndex(o.targets)
    case None => 0
    case Some(k) =>
      var n, p := o.targets[k].attemptCount, o.row.head.policy;
      if 1 <= n < p.maxAttempts then Min(p.initialMs * Pow2(n - 1), p.maximumMs) else 0
  }

  lemma CeilingIsOpen(o: Outbox, log: seq<Attempt>)
    requires OutboxInv(o, log) && PolicyOk(o.row.head.policy)
    ensures Ceiling(o) == OpenCeiling(o)
  {
    hide OutboxInv, RetryUpperBound, Pow2, SubmittedAttempts;
    SubmittedOnce(o, log);
    OneSubmitted(o.targets);
    if OpenIndex(o.targets).Some? {
      var k := OpenIndex(o.targets).value;
      OpenAttemptId(o, log, k);
      BoundClosedForm(o.row.head.policy, o.targets[k].attemptCount);
    }
  }

  /**
   * Recovery reads an expired row that is no later than any other by expiry, creation and identity,
   * with the ceiling of its one open attempt.
   */
  lemma RecoveryReadsOldest(a: Authority, s: Store, now: nat, j: nat) returns (i: nat)
    requires StoreInv(a, s) && j < |s.outboxes| && Expired(s.outboxes[j], now)
    ensures i < |s.outboxes| && Expired(s.outboxes[i], now)
    ensures var x, y := s.outboxes[i], s.outboxes[j];
            && NotAfter(x.row.leaseExpires.value, x.row.head.createdAt, 0, IdBytes(Key(x)),
                        y.row.leaseExpires.value, y.row.head.createdAt, 0, IdBytes(Key(y)))
            && ReadExpiredCandidate(s, a, now) == Ok(Some(Candidate(x.row, OpenCeiling(x))))
  {
    hide StoreInv, OutboxInv, OutboxOk, DecodesRow, TargetsRead, DecodesTargets, TargetsValid, RankLess, NotAfter,
         OpenCeiling, Ceiling, CandidateOk, Authorized;
    CandidateReads(a, s, now);
    i := OldestExpired(s, now, |s.outboxes|).value;
    At(a, s, i);
    AuthorizedAt(a, s.outboxes[i], s.log);
    CeilingIsOpen(s.outboxes[i], s.log);
    NotLessIsNotAfter(ExpiryRank(s.outboxes[i]), ExpiryRank(s.outboxes[j]));
  }

  // ------------------------------------------------------------------ preparation

  /** Preparation submits the first ready target of the leased outbox and hands out its committed bytes. */
  lemma PrepareWrites(a: Authority, s: Store, lease: Lease, at: nat) returns (i: nat, k: nat)
    requires StoreInv(a, s) && PrepareNext(s, lease, at).Ok?
    ensures var r := PrepareNext(s, lease, at).value;
            && OnlyOutbox(s.outboxes, r.store.outboxes, i) && r.store.log == s.log
            && s.outboxes[i].row == lease.row && SubmitsFirst(s.outboxes[i], r.store.outboxes[i], k, at)
            && r.value == PreparedAttempt(lease, r.store.outboxes[i].targets[k],
                                          AttemptId(lease.row.head.id, lease.row.head.eventSha, k,
                                                    s.outboxes[i].targets[k].attemptCount + 1),
                                          at, lease.expiresAt, lease.row.head.exactBytes)
    ensures lease.row.state.Leased? && lease.row.leaseOwner == Some(lease.owner)
    ensures lease.row.leaseExpires == Some(lease.expiresAt) && at < lease.expiresAt
  {
    hide StoreInv, PrepareNext, SubmitsFirst, TargetIsDue;
    i, k := PrepareFacts(a, s, lease, at);
    SubmitIsFirst(s.outboxes[i], k, at);
  }

  // ------------------------------------------------------------------ outcomes

  /** Everything one recorded outcome changes. */
  ghost predicate RecordEffect(s: Store, s': Store, i: nat, input: RecordInput, value: AttemptCommit)
  {
    && OnlyOutbox(s.outboxes, s'.outboxes, i)
    && s'.log == s.log + [Attempt(input.id, input.outboxId, input.ordinal, input.number, input.eventSha, input.owner,
                                  input.startedAt, input.finishedAt, input.outcome)]
    && var o, o' := s.outboxes[i], s'.outboxes[i];
       var maxAttempts := o.row.head.policy.maxAttempts;
       && HeldOpen(o, input) && Key(o) == input.outboxId && OnlyTarget(o.targets, o'.targets, input.ordinal)
       && ClosedBy(o.targets[input.ordinal], o'.targets[input.ordinal], input.outcome, input.number, maxAttempts,
                   input.finishedAt, input.retryDelay)
       && Released(o.row, o'.row, input.finishedAt)
       && Follows(o'.row.state, o'.row.nextAttempt, o'.targets, maxAttempts)
       && value == AttemptCommit(input.outboxId, input.id, input.ordinal, input.number, input.outcome,
                                 o'.targets[input.ordinal].state, o'.row.state)
  }

  /**
   * A first outcome closes exactly its target, with the outcome's own state and the sampled
   * retry instant, appends exactly its log row, and releases the outbox to what its targets say.
   */
  lemma RecordWrites(a: Authority, s: Store, lease: Lease, input: RecordInput) returns (i: nat)
    requires StoreInv(a, s) && Names(lease, input)
    requires FindAttempt(s.log, input.id).None? && RecordOutcome(s, lease, input).Ok?
    ensures var r := RecordOutcome(s, lease, input).value; RecordEffect(s, r.store, i, input, r.value)
  {
    hide StoreInv, OutboxInv, OutboxOk, DecodesRow, TargetsRead, DecodesTargets, TargetsValid, OutcomeSchedule,
         Disposition, ClosedBy, Follows;
    i := ReadRow(s, lease.row.head.id, LeaseLost).value;
    At(a, s, i);
    var o := s.outboxes[i];
    var k := FindOrdinal(o.targets, input.ordinal).value;
    var sched := OutcomeSchedule(o.row.head.policy, input).value;
    ScheduleCloses(o.row.head.policy, input, o.targets[k]);
    DispositionFollows(o.row.head, o.targets[k := CloseTarget(o.targets[k], sched, input.finishedAt)]);
  }

  /** An attempt already in the log is answered only for exactly the facts it was logged with. */
  lemma RecordedOnlyOnce(s: Store, lease: Lease, input: RecordInput)
    requires FindAttempt(s.log, input.id).Some?
    ensures RecordOutcome(s, lease, input).Ok? ==> RecordOutcome(s, lease, input).value.store == s
    ensures var e := FindAttempt(s.log, input.id).value;
            e != Attempt(input.id, input.outboxId, input.ordinal, input.number, input.eventSha, input.owner,
                         input.startedAt, input.finishedAt, input.outcome)
            ==> RecordOutcome(s, lease, input) == Err(Invariant)
  {
    hide DecodesRow, TargetsRead, OutcomeSchedule, Disposition, FindOrdinal, RecordFirst, LeaseError;
  }

  // ------------------------------------------------------------------ recovery

  /** Everything one recovery changes. */
  ghost predicate RecoverEffect(s: Store, s': Store, i: nat, c: Candidate, now: nat, delay: nat)
  {
    && OnlyOutbox(s.outboxes, s'.outboxes, i) && s.outboxes[i].row == c.row
    && var o, o' := s.outboxes[i], s'.outboxes[i];
       && Released(o.row, o'.row, now)
       && Follows(o'.row.state, o'.row.nextAttempt, o'.targets, o.row.head.policy.maxAttempts)
       && (if NoneSubmitted(o.targets) then o'.targets == o.targets && s'.log == s.log
           else exists k :: RecoversTarget(s, s', o, o', k, now, delay))
  }

  /** The open attempt of target `k` was logged as Unknown and its target closed accordingly. */
  predicate RecoversTarget(s: Store, s': Store, o: Outbox, o': Outbox, k: nat, now: nat, delay: nat)
  {
    && OnlyTarget(o.targets, o'.targets, k) && o.targets[k].state.Submitted?
    && ClosedBy(o.targets[k], o'.targets[k], Outcome.Unknown, o.targets[k].attemptCount,
                o.row.head.policy.maxAttempts, now, delay)
    && o.targets[k].lastAttempt.Some? && o.row.leaseOwner.Some?
    && s'.log == s.log + [Attempt(o.targets[k].lastAttempt.value, Key(o), k, o.targets[k].attemptCount,
                                  o.row.head.eventSha, o.row.leaseOwner.value, o.targets[k].updatedAt, now,
                                  Outcome.Unknown)]
  }

  /** Recovery closes the open attempt as Unknown and releases the outbox to what its targets say. */
  lemma RecoverWrites(a: Authority, s: Store, c: Candidate, now: nat, delay: nat) returns (i: nat)
    requires StoreInv(a, s) && RecoverExpired(s, c, now, delay).Ok?
    ensures RecoverEffect(s, RecoverExpired(s, c, now, delay).value.store, i, c, now, delay)
  {
    hide StoreInv, OutboxInv, OutboxOk, DecodesRow, TargetsRead, DecodesTargets, TargetsValid, OutcomeSchedule,
         Disposition, Follows, CloseWithEvidence, RecoversTarget;
    i := ReadRow(s, c.row.head.id, LeaseLost).value;
    At(a, s, i);
    var s' := RecoverExpired(s, c, now, delay).value.store;
    RecoverClosesTargets(a, s, s', i, now, delay);
    DispositionFollows(s.outboxes[i].row.head, s'.outboxes[i].targets);
  }

  lemma RecoverClosesTargets(a: Authority, s: Store, s': Store, i: nat, now: nat, delay: nat)
    requires StoreInv(a, s) && i < |s.outboxes| == |s'.outboxes| && s.outboxes[i].row.leaseOwner.Some?
    requires s.outboxes[i].row.leaseExpires.Some?
    requires var o := s.outboxes[i];
             CloseWithEvidence(o, o.row.leaseOwner.value, o.row.leaseExpires.value, o.targets, s.log, 0, now, delay)
             == Ok(Closed(s'.outboxes[i].targets, s'.log))
    ensures var o, o' := s.outboxes[i], s'.outboxes[i];
            if NoneSubmitted(o.targets) then o'.targets == o.targets && s'.log == s.log
            else exists k :: RecoversTarget(s, s', o, o', k, now, delay)
  {
    hide StoreInv, OutboxInv, OutboxOk, DecodesRow, TargetsRead, DecodesTargets, TargetsValid, OutcomeSchedule,
         CloseWithEvidence, AttemptInsertable, ClosedBy, EvidenceOk;
    At(a, s, i);
    var o := s.outboxes[i];
    var owner, expires := o.row.leaseOwner.value, o.row.leaseExpires.value;
    match OpenIndex(o.targets)
    case None =>
      CloseNoEvidence(o, owner, expires, o.targets, s.log, 0, now, delay);
    case Some(k) =>
      OpenAttemptId(o, s.log, k);
      OnlyOpen(o, s.log, k);
      CloseOneEvidence(o, owner, expires, o.targets, s.log, 0, k, now, delay);
      var input := UnknownInput(o, o.targets[k], o.targets[k].lastAttempt.value, owner, expires, now, delay);
      ScheduleCloses(o.row.head.policy, input, o.targets[k]);
      assert RecoversTarget(s, s', o, s'.outboxes[i], k, now, delay);
  }
}
