/** What every reachable world of the publication workflow guarantees. */
module PublicationSafety {
  import opened Prelude
  import opened Digests
  import opened Backoff
  import opened Delivery
  import opened DeliveryInvariant
  import opened Publication
  import opened PublicationRuns
  import opened Exposures

  function Reach(a: Authority, actions: seq<Action>): World { Run(a, START, actions) }

  lemma ReachInv(a: Authority, actions: seq<Action>)
    ensures WorldInv(a, Reach(a, actions)) && StoreInv(a, Reach(a, actions).store)
  {
    StartInv(a);
    RunFrom(a, START, actions);
    hide StoreInv, HeldInv, ExposuresInv;
  }

  /** In every reachable state the log explains every target. */
  lemma TargetIsFoldOfLog(a: Authority, actions: seq<Action>, i: nat, k: nat)
    requires var s := Reach(a, actions).store; i < |s.outboxes| && k < |s.outboxes[i].targets|
    ensures var s := Reach(a, actions).store; Explained(s.outboxes[i], s.log, k)
  {
    hide WorldInv, StoreInv, Reach, OutboxOk, OutboxInv, DecodesRow, TargetsRead, DecodesTargets, TargetsValid,
         Explained;
    ReachInv(a, actions);
    At(a, Reach(a, actions).store, i);
    LogExplains(Reach(a, actions).store.outboxes[i], Reach(a, actions).store.log, k);
  }

  /** With one preparation per lease, at most one attempt of an outbox is open, and only under a lease. */
  lemma OneOpenAttempt(a: Authority, actions: seq<Action>, i: nat, j: nat, k: nat)
    requires var s := Reach(a, actions).store;
             && i < |s.outboxes| && j < |s.outboxes[i].targets| && k < |s.outboxes[i].targets|
             && s.outboxes[i].targets[j].state.Submitted? && s.outboxes[i].targets[k].state.Submitted?
    ensures j == k
    ensures var o := Reach(a, actions).store.outboxes[i];
            && o.row.state.Leased? && o.row.leaseExpires.Some?
            && o.targets[j].updatedAt < o.row.leaseExpires.value
  {
    ReachInv(a, actions);
    hide WorldInv, StoreInv, Reach, OutboxOk, DecodesRow, TargetsRead, DecodesTargets;
    At(a, Reach(a, actions).store, i);
  }

  /**
   * Outside a lease the row is the disposition of its targets, which never fails.  An outbox
   * without required targets is Pending exactly until its first lease ends, and then Complete.
   */
  lemma RowIsDisposition(a: Authority, actions: seq<Action>, i: nat)
    requires i < |Reach(a, actions).store.outboxes|
    ensures var o := Reach(a, actions).store.outboxes[i];
            NoneSubmitted(o.targets) ==> Disposition(o.row.head, o.targets).Ok?
    ensures var o := Reach(a, actions).store.outboxes[i];
            !o.row.state.Leased? ==>
              if o.row.head.requiredCount == 0
              then (if o.row.revision == 1 then Untouched(o) else o.row.state.Complete?)
              else Disposition(o.row.head, o.targets) == Ok(Disposal(o.row.state, o.row.nextAttempt))
  {
    ReachInv(a, actions);
    hide WorldInv, StoreInv, Reach, DecodesRow, TargetsRead, DecodesTargets;
    var s := Reach(a, actions).store;
    At(a, s, i);
    hide Disposition, TargetsInv, SubmittedInv, Untouched;
    IdleOutsideLease(s.outboxes[i], s.log);
    if NoneSubmitted(s.outboxes[i].targets) {
      DispositionDefined(s.outboxes[i], s.log);
    }
  }

  /** Of all leases ever issued for an outbox, at most one validates, at whatever times. */
  lemma OneLeaseValidates(a: Authority, actions: seq<Action>, i: nat, j: nat, now: nat, later: nat)
    requires var w := Reach(a, actions);
             && i < |w.leases| && j < |w.leases| && w.leases[i].lease.row.head.id == w.leases[j].lease.row.head.id
             && LeaseError(w.store, w.leases[i].lease, now).None? && LeaseError(w.store, w.leases[j].lease, later).None?
    ensures i == j
  {
    ReachInv(a, actions);
    hide StoreInv, HeldOk, CandidateOk, Reach, DecodesRow;
  }

  /** Every issued lease is for an outbox bound to the authority the claim was made under. */
  lemma LeasesAreAuthorized(a: Authority, actions: seq<Action>, l: nat)
    requires l < |Reach(a, actions).leases|
    ensures Authorized(Reach(a, actions).leases[l].lease.row.head, a)
  {
    ReachInv(a, actions);
    hide StoreInv, CandidateOk, Reach, OutboxInv, TargetsRead, DecodesTargets, Authorized;
    var w := Reach(a, actions);
    assert HeldOk(w.store, w.leases[l]);
    var i :| 0 <= i < |w.store.outboxes| && IssuedAgainst(w.leases[l].lease.row, w.store.outboxes[i].row);
    At(a, w.store, i);
  }

  // ------------------------------------------------------------------ progress

  /** An authoritative, unused lease with a due target always prepares. */
  lemma LeasePrepares(a: Authority, s: Store, lease: Lease, i: nat, at: nat)
    requires StoreInv(a, s) && i < |s.outboxes| && s.outboxes[i].row == lease.row
             && NoneSubmitted(s.outboxes[i].targets)
    requires lease.row.state.Leased? && lease.row.leaseOwner == Some(lease.owner)
    requires lease.row.leaseExpires == Some(lease.expiresAt) && at < lease.expiresAt
    requires FindDue(s.outboxes[i].targets, lease.row.head.policy.maxAttempts, at).Some?
    ensures PrepareNext(s, lease, at).Ok?
  {
    hide StoreInv, OutboxInv, OutboxOk, DecodesRow, TargetsRead, DecodesTargets, TargetsValid, NoneSubmitted,
         TargetIsDue, RelaysOk;
    At(a, s, i);
    var o := s.outboxes[i];
    AuthorizedAt(a, o, s.log);
    var k := FindDue(o.targets, o.row.head.policy.maxAttempts, at).value;
    var id := Id(o.row.head, k, o.targets[k].attemptCount + 1);
    DueIsReady(o, s.log, k, at);
    PrepareKeeps(o, s.log, k, at);
    var o' := o.(targets := o.targets[k := SubmitTarget(o.targets[k], id, at)]);
    assert Specs(o'.targets) == Specs(o.targets);
    SameRelays(o.targets, o'.targets);
    TargetsDecode(a, o', s.log);
    ReadParts(o');
  }

  lemma ReadParts(o: Outbox)
    ensures TargetsRead(o) <==> DecodesTargets(o.targets) && TargetsValid(o.row.head, o.targets)
  {
    hide DecodesTargets, TargetsValid;
  }

  /**
   * If a claim succeeds then, whatever other workers do in between, preparation with that
   * lease succeeds at every instant from the claim until expiry, as long as the leased row is
   * current and its targets are as claimed.
   */
  lemma ClaimThenPrepare(a: Authority, before: seq<Action>, owner: Owner, now: nat, after: seq<Action>, at: nat, i: nat)
    requires var s := Reach(a, before).store;
             ClaimNext(s, a, owner, now).Ok? && ClaimNext(s, a, owner, now).value.value.Some?
    requires var w := Reach(a, before);
             var claimed := ClaimNext(w.store, a, owner, now).value;
             var s' := Run(a, Next(a, w, Claim(owner, now)), after).store;
             && now <= at < claimed.value.value.expiresAt
             && i < |claimed.store.outboxes| && i < |s'.outboxes|
             && s'.outboxes[i] == claimed.store.outboxes[i] && s'.outboxes[i].row == claimed.value.value.row
    ensures var w := Reach(a, before);
            var lease := ClaimNext(w.store, a, owner, now).value.value.value;
            PrepareNext(Run(a, Next(a, w, Claim(owner, now)), after).store, lease, at).Ok?
  {
    hide WorldInv, StoreInv, Reach, ClaimNext, Run, PrepareNext, FindDue, NoneSubmitted, Evolves, Claimable,
         DistinctKeys;
    ReachInv(a, before);
    var w := Reach(a, before);
    var claimed := ClaimNext(w.store, a, owner, now).value;
    var lease := claimed.value.value;
    NextInv(a, w, Claim(owner, now));
    RunFrom(a, Next(a, w, Claim(owner, now)), after);
    var w' := Run(a, Next(a, w, Claim(owner, now)), after);
    StoreOf(a, w');
    var j := ClaimStep(a, w.store, owner, now);
    KeysOf(a, claimed.store);
    SameIndex(claimed.store, i, j);
    ClaimedDue(a, w.store, j, now);
    DueLater(claimed.store.outboxes[j].targets, lease.row.head.policy.maxAttempts, now, at);
    LeasePrepares(a, w'.store, lease, i, at);
  }

  lemma SameIndex(s: Store, i: nat, j: nat)
    requires DistinctKeys(s.outboxes) && i < |s.outboxes| && j < |s.outboxes|
    requires Key(s.outboxes[i]) == Key(s.outboxes[j])
    ensures i == j
  {
    FindUnique(s.outboxes, i);
    FindUnique(s.outboxes, j);
  }

  lemma ClaimedDue(a: Authority, s: Store, i: nat, now: nat)
    requires StoreInv(a, s) && i < |s.outboxes| && Claimable(s.outboxes[i], now)
    ensures FindDue(s.outboxes[i].targets, s.outboxes[i].row.head.policy.maxAttempts, now).Some?
  {
    hide StoreInv, OutboxInv, OutboxOk, DecodesRow, TargetsRead, DecodesTargets, TargetsValid, FindDue;
    At(a, s, i);
    PendingHasDue(s.outboxes[i], s.log, now);
  }

  /** Every successful preparation spends one attempt of one outbox and touches no other. */
  lemma PrepareSpends(a: Authority, actions: seq<Action>, lease: Lease, at: nat) returns (i: nat)
    requires PrepareNext(Reach(a, actions).store, lease, at).Ok?
    ensures var s, s' := Reach(a, actions).store, PrepareNext(Reach(a, actions).store, lease, at).value.store;
            && i < |s.outboxes| == |s'.outboxes| && Key(s.outboxes[i]) == lease.row.head.id
            && Budget(s'.outboxes[i]) + 1 == Budget(s.outboxes[i])
            && (forall j :: 0 <= j < |s.outboxes| && j != i ==> s'.outboxes[j] == s.outboxes[j])
  {
    hide WorldInv, StoreInv, Reach, PrepareNext;
    ReachInv(a, actions);
    var k: nat;
    i, k := PrepareFacts(a, Reach(a, actions).store, lease, at);
    var o := Reach(a, actions).store.outboxes[i];
    var id := Id(o.row.head, k, o.targets[k].attemptCount + 1);
    SubmitSpends(o.targets, o.row.head.policy.maxAttempts, k, id, at, |o.targets|);
  }

  /** Nothing that happens later gives an outbox attempts back. */
  lemma BudgetNeverGrows(a: Authority, before: seq<Action>, after: seq<Action>, i: nat)
    requires i < |Reach(a, before).store.outboxes|
    ensures var s, s' := Reach(a, before).store, Run(a, Reach(a, before), after).store;
            i < |s'.outboxes| && Budget(s'.outboxes[i]) <= Budget(s.outboxes[i])
  {
    hide StoreInv, Later, HeldInv, Run, Budget, ExposuresInv;
    ReachInv(a, before);
    RunFrom(a, Reach(a, before), after);
    BudgetShrinks(Reach(a, before).store.outboxes[i], Run(a, Reach(a, before), after).store.outboxes[i]);
  }

  lemma {:induction false} UnusedRemains(ts: seq<Target>, maxAttempts: nat, n: nat)
    requires n <= |ts| && forall k :: 0 <= k < |ts| ==> ts[k].attemptCount == 0
    ensures Remaining(ts, maxAttempts, n) == n * maxAttempts
  {
    if n > 0 {
      UnusedRemains(ts, maxAttempts, n - 1);
      assert n * maxAttempts == (n - 1) * maxAttempts + maxAttempts;
    }
  }

  /** An enqueued outbox starts with its target count times the configured maximum. */
  lemma EnqueuedBudget(a: Authority, before: seq<Action>, h: Head, specs: seq<TargetSpec>)
    requires Committable(a, Reach(a, before).store, h, specs)
    ensures var s, s' := Reach(a, before).store, Next(a, Reach(a, before), Enqueue(h, specs)).store;
            && |s'.outboxes| == |s.outboxes| + 1 && s'.outboxes[|s.outboxes|].row.head == h
            && Budget(s'.outboxes[|s.outboxes|]) == h.targetCount * h.policy.maxAttempts
  {
    hide Reach, SpecsMatch;
    var o := FreshOutbox(h, specs);
    UnusedRemains(o.targets, h.policy.maxAttempts, |o.targets|);
    MatchedCount(h, specs);
  }

  lemma MatchedCount(h: Head, specs: seq<TargetSpec>)
    requires SpecsMatch(h, specs)
    ensures |specs| == h.targetCount
  {
  }

  // ------------------------------------------------------------------ exposures and the log

  /** The n-th exposure of a target is its attempt n, with the bytes committed for the outbox. */
  lemma ExposuresAreCommittedBytes(a: Authority, actions: seq<Action>, i: nat, k: nat)
    requires var s := Reach(a, actions).store; i < |s.outboxes| && k < |s.outboxes[i].targets|
    ensures var w := Reach(a, actions);
            CommittedBytes(w.store.outboxes[i], k, Exposed(w.exposures, Key(w.store.outboxes[i]), k))
  {
    hide StoreInv, HeldInv, Reach, OutboxInv, OutboxOk, DecodesRow, TargetsRead, DecodesTargets, ExposuresInv,
         CommittedBytes;
    ReachInv(a, actions);
    var w := Reach(a, actions);
    At(a, w.store, i);
    AuthorizedAt(a, w.store.outboxes[i], w.store.log);
    BytesCommitted(w.store.outboxes, w.store.log, w.exposures, i, k);
  }

  /** Between two consecutive exposures of a target exactly one of its attempts is closed. */
  lemma OneRowBetweenExposures(a: Authority, actions: seq<Action>, i: nat, k: nat, j: nat)
    requires var w := Reach(a, actions);
             && i < |w.store.outboxes| && k < |w.store.outboxes[i].targets|
             && j + 1 < |Exposed(w.exposures, Key(w.store.outboxes[i]), k)|
    ensures var w := Reach(a, actions);
            var id := Key(w.store.outboxes[i]);
            OneRowBetween(w.store.log, id, k, Exposed(w.exposures, id, k), j)
  {
    hide StoreInv, HeldInv, Reach, ExposuresInv, OneRowBetween, Exposed;
    ReachInv(a, actions);
    var w := Reach(a, actions);
    RowBetween(w.store.outboxes, w.store.log, w.exposures, i, k, j);
  }

  /**
   * An outbox exposes its bytes once per attempt used, so at most target count times maximum
   * attempts over the whole run, and what remains of that allowance is exactly its budget.
   */
  lemma ExposureBudget(a: Authority, actions: seq<Action>, i: nat)
    requires i < |Reach(a, actions).store.outboxes|
    ensures var w := Reach(a, actions);
            var o := w.store.outboxes[i];
            && Accounted(o, w.exposures) && |o.targets| == o.row.head.targetCount
            && |ExposedOutbox(w.exposures, Key(o))| <= o.row.head.targetCount * o.row.head.policy.maxAttempts
  {
    hide StoreInv, HeldInv, Reach, OutboxInv, OutboxOk, DecodesRow, TargetsRead, DecodesTargets, ExposuresInv,
         DistinctKeys, ExposedOutbox, AttemptsUsed, Budget;
    ReachInv(a, actions);
    var w := Reach(a, actions);
    At(a, w.store, i);
    KeysOf(a, w.store);
    ExposuresAccounted(w.store.outboxes, w.store.log, w.exposures, i);
    var o := w.store.outboxes[i];
    MatchedCount(o.row.head, Specs(o.targets));
  }

  /** Each attempt identity closes once: the log never holds two rows for it. */
  lemma OneRowPerAttempt(a: Authority, actions: seq<Action>, i: nat, j: nat)
    requires var log := Reach(a, actions).store.log; i < |log| && j < |log| && log[i].id == log[j].id
    ensures i == j
  {
    hide WorldInv, StoreInv, Reach;
    ReachInv(a, actions);
    LogIdentities(a, Reach(a, actions).store);
  }

  /** A Pending outbox with a required target can still make progress on a required target. */
  lemma PendingHasWork(a: Authority, actions: seq<Action>, i: nat)
    requires var s := Reach(a, actions).store;
             i < |s.outboxes| && s.outboxes[i].row.state.Pending? && s.outboxes[i].row.head.requiredCount > 0
    ensures var o := Reach(a, actions).store.outboxes[i];
            && o.row.nextAttempt.Some?
            && exists k :: RequiredDue(o, k, o.row.nextAttempt.value)
  {
    hide WorldInv, StoreInv, Reach, OutboxOk, OutboxInv, Disposition, RequiredDue, TargetsValid, NoneSubmitted,
         DecodesRow, TargetsRead, DecodesTargets, Untouched;
    ReachInv(a, actions);
    RowIsDisposition(a, actions, i);
    var s := Reach(a, actions).store;
    At(a, s, i);
    IdleOutsideLease(s.outboxes[i], s.log);
    PendingEarliest(s.outboxes[i].row, s.outboxes[i].targets);
    EarliestIsDue(s.outboxes[i], s.log);
  }

  // ------------------------------------------------------------------ outcomes and recovery

  /** The retry delays an outcome of attempt `n` may carry under the configured policy. */
  predicate Admissible(p: Policy, n: nat, outcome: Outcome, finishedAt: nat, delay: nat)
  {
    if RetryableOutcome(outcome) && n < p.maxAttempts
    then delay <= RetryUpperBound(p, n) && finishedAt + delay <= MAX_I64
    else delay == 0
  }

  lemma ScheduleAdmits(p: Policy, input: RecordInput)
    requires !input.outcome.Submitted?
    ensures OutcomeSchedule(p, input).Ok? <==>
            Admissible(p, input.number, input.outcome, input.finishedAt, input.retryDelay)
    ensures OutcomeSchedule(p, input).Err? ==> OutcomeSchedule(p, input).error == InvalidInput
  {
  }

  /** The executor's sample is admissible, except a nonzero delay at the last attempt. */
  lemma SamplesAdmissible(p: Policy, n: nat, outcome: Outcome, finishedAt: nat, delay: nat)
    requires PolicyOk(p) && 1 <= n <= p.maxAttempts && finishedAt + delay <= MAX_I64
    requires if RetryableOutcome(outcome) then delay <= RetryUpperBound(p, n) else delay == 0
    ensures Admissible(p, n, outcome, finishedAt, delay)
            <==> n < p.maxAttempts || !RetryableOutcome(outcome) || delay == 0
    ensures RetryableOutcome(outcome) && n == p.maxAttempts ==>
              1 <= RetryUpperBound(p, n) && !Admissible(p, n, outcome, finishedAt, 1)
  {
    BoundMonotone(p, 1, n);
  }

  /** The input names the attempt that outbox `i` holds open under this lease. */
  predicate StillOpen(s: Store, i: nat, lease: Lease, input: RecordInput)
  {
    && i < |s.outboxes| && s.outboxes[i].row == lease.row && lease.row.state.Leased?
    && lease.row.leaseOwner == Some(lease.owner) && lease.row.leaseExpires == Some(lease.expiresAt)
    && Names(lease, input)
    && input.ordinal < |s.outboxes[i].targets| && OpenAttempt(s.outboxes[i].targets[input.ordinal], input)
  }

  /** The outcome of an open attempt commits exactly under these caller-visible conditions. */
  lemma RecordDecides(a: Authority, s: Store, i: nat, lease: Lease, input: RecordInput)
    requires StoreInv(a, s) && StillOpen(s, i, lease, input) && !input.outcome.Submitted?
    ensures RecordOutcome(s, lease, input).Ok? <==>
            && input.startedAt <= input.finishedAt < lease.expiresAt && lease.row.updatedAt <= input.finishedAt
            && Admissible(lease.row.head.policy, input.number, input.outcome, input.finishedAt, input.retryDelay)
    ensures input.startedAt <= input.finishedAt < lease.expiresAt
            && !Admissible(lease.row.head.policy, input.number, input.outcome, input.finishedAt, input.retryDelay)
            ==> RecordOutcome(s, lease, input) == Err(InvalidInput)
  {
    hide StoreInv, OutboxInv, OutboxOk, DecodesRow, TargetsRead, DecodesTargets, TargetsValid, OutcomeSchedule,
         Disposition, ReconcileRecorded, Admissible;
    At(a, s, i);
    var o, k := s.outboxes[i], input.ordinal;
    OpenNotLogged(o, s.log, k);
    OrdinalFound(o.targets, k, 0);
    ScheduleAdmits(o.row.head.policy, input);
    if OutcomeSchedule(o.row.head.policy, input).Ok? && input.startedAt <= input.finishedAt {
      ClosedDisposes(o, s.log, k, input);
    }
  }

  predicate RecoveryAdmits(o: Outbox, now: nat, delay: nat)
  {
    match OpenIndex(o.targets)
    case None => true
    case Some(k) => Admissible(o.row.head.policy, o.targets[k].attemptCount, Outcome.Unknown, now, delay)
  }

  /** The evidence bounds, the identity check and the duplicate check of recovery never fail. */
  lemma RecoverDecides(a: Authority, s: Store, c: Candidate, i: nat, now: nat, delay: nat)
    requires StoreInv(a, s) && i < |s.outboxes| && Key(s.outboxes[i]) == c.row.head.id
    ensures RecoverExpired(s, c, now, delay).Ok? <==>
            s.outboxes[i].row == c.row && Expired(s.outboxes[i], now) && RecoveryAdmits(s.outboxes[i], now, delay)
  {
    hide StoreInv, OutboxInv, OutboxOk, DecodesRow, TargetsRead, DecodesTargets, TargetsValid, OutcomeSchedule,
         Disposition, RecoveryAdmits, CloseWithEvidence;
    At(a, s, i);
    var o := s.outboxes[i];
    LeasedAfterCreation(o, s.log);
    if o.row == c.row && Expired(o, now) {
      RecoverCloses(a, s, o, now, delay);
    }
  }

  lemma RecoverCloses(a: Authority, s: Store, o: Outbox, now: nat, delay: nat)
    requires OutboxOk(a, o, s.log) && Expired(o, now) && o.row.leaseOwner.Some?
    ensures var owner, expires := o.row.leaseOwner.value, o.row.leaseExpires.value;
            var c := CloseWithEvidence(o, owner, expires, o.targets, s.log, 0, now, delay);
            (c.Ok? <==> RecoveryAdmits(o, now, delay)) && (c.Ok? ==> Disposition(o.row.head, c.value.targets).Ok?)
  {
    hide OutboxInv, Disposition, OutcomeSchedule, Admissible;
    var owner, expires := o.row.leaseOwner.value, o.row.leaseExpires.value;
    match OpenIndex(o.targets)
    case None =>
      CloseNoEvidence(o, owner, expires, o.targets, s.log, 0, now, delay);
      IdleDisposes(o, s.log);
    case Some(k) =>
      OpenAttemptId(o, s.log, k);
      OpenNotLogged(o, s.log, k);
      OnlyOpen(o, s.log, k);
      PolicyAndOrdinals(o, s.log);
      CloseOneEvidence(o, owner, expires, o.targets, s.log, 0, k, now, delay);
      var input := UnknownInput(o, o.targets[k], o.targets[k].lastAttempt.value, owner, expires, now, delay);
      ScheduleAdmits(o.row.head.policy, input);
      if OutcomeSchedule(o.row.head.policy, input).Ok? {
        ClosedDisposes(o, s.log, k, input);
      }
  }

  /** A recovered attempt is logged once as Unknown; after the last attempt nothing is scheduled. */
  lemma RecoverLogsUnknown(a: Authority, s: Store, c: Candidate, i: nat, k: nat, now: nat, delay: nat)
    requires StoreInv(a, s) && i < |s.outboxes| && s.outboxes[i].row == c.row
             && OpenIndex(s.outboxes[i].targets) == Some(k)
    requires RecoverExpired(s, c, now, delay).Ok?
    ensures var s' := RecoverExpired(s, c, now, delay).value.store;
            var t := s.outboxes[i].targets[k];
            && |s'.outboxes| == |s.outboxes| && |s'.outboxes[i].targets| == |s.outboxes[i].targets|
            && s'.outboxes[i].targets[k].state.Unknown? && s'.outboxes[i].targets[k].attemptCount == t.attemptCount
            && s'.outboxes[i].targets[k].nextAttempt
               == (if t.attemptCount < c.row.head.policy.maxAttempts then Some(now + delay) else None)
            && |s'.log| == |s.log| + 1 && s.log <= s'.log
            && Some(s'.log[|s.log|].id) == t.lastAttempt && s'.log[|s.log|].outcome == Outcome.Unknown
  {
    hide StoreInv, OutboxInv, OutboxOk, DecodesRow, TargetsRead, DecodesTargets, TargetsValid, Disposition,
         CloseWithEvidence, OutcomeSchedule, AttemptInsertable, EvidenceOk;
    At(a, s, i);
    var o := s.outboxes[i];
    var owner, expires := o.row.leaseOwner.value, o.row.leaseExpires.value;
    LeasedAfterCreation(o, s.log);
    OpenAttemptId(o, s.log, k);
    OnlyOpen(o, s.log, k);
    CloseOneEvidence(o, owner, expires, o.targets, s.log, 0, k, now, delay);
    UnknownSchedule(o.row.head.policy,
                    UnknownInput(o, o.targets[k], o.targets[k].lastAttempt.value, owner, expires, now, delay));
  }

  lemma UnknownSchedule(p: Policy, input: RecordInput)
    requires input.outcome.Unknown? && OutcomeSchedule(p, input).Ok?
    ensures OutcomeSchedule(p, input).value
            == Schedule(TargetState.Unknown,
                        if input.number < p.maxAttempts then Some(input.finishedAt + input.retryDelay) else None)
  {
  }

  lemma PolicyAndOrdinals(o: Outbox, log: seq<Attempt>)
    requires OutboxInv(o, log)
    ensures PolicyOk(o.row.head.policy) && |o.targets| <= MAX_TARGETS
    ensures forall k :: 0 <= k < |o.targets| ==> o.targets[k].ordinal == k
  {
    Ordinals(o);
  }

  /**
   * Recovery's read succeeds in every reachable world, and a sample within the candidate's
   * ceiling recovers its outbox whenever the row is still current and expired.
   */
  lemma RecoveryNeverStuck(a: Authority, actions: seq<Action>, now: nat, c: nat, i: nat, delay: nat)
    ensures ReadExpiredCandidate(Reach(a, actions).store, a, now).Ok?
    ensures var w := Reach(a, actions);
            && c < |w.candidates| && i < |w.store.outboxes| && w.store.outboxes[i].row == w.candidates[c].row
            && Expired(w.store.outboxes[i], now)
            && delay <= w.candidates[c].retryUpperBound && now + delay <= MAX_I64
            ==> RecoverExpired(w.store, w.candidates[c], now, delay).Ok?
  {
    ReachInv(a, actions);
    hide StoreInv, Reach, RecoverExpired, OutboxInv, OutboxOk, DecodesRow, TargetsRead, DecodesTargets,
         RecoveryAdmits, HeldOk, LeasesOrdered, Ceiling, ReadExpiredCandidate, TargetsValid;
    var w := Reach(a, actions);
    CandidateReads(a, w.store, now);
    if c < |w.candidates| && i < |w.store.outboxes| && w.store.outboxes[i].row == w.candidates[c].row
       && delay <= w.candidates[c].retryUpperBound && now + delay <= MAX_I64
    {
      At(a, w.store, i);
      assert CandidateOk(w.store, w.candidates[c]);
      CeilingAdmits(w.store.outboxes[i], w.store.log, now, delay);
      RecoverDecides(a, w.store, w.candidates[c], i, now, delay);
    }
  }

  lemma CeilingAdmits(o: Outbox, log: seq<Attempt>, now: nat, delay: nat)
    requires OutboxInv(o, log) && delay <= Ceiling(o) && now + delay <= MAX_I64
    ensures RecoveryAdmits(o, now, delay)
  {
    SubmittedOnce(o, log);
    OneSubmitted(o.targets);
    hide OutboxInv, RetryUpperBound;
    if OpenIndex(o.targets).Some? {
      OpenAttemptId(o, log, OpenIndex(o.targets).value);
    }
  }

  // ------------------------------------------------------------------ replay

  lemma FirstRecordLeaves(a: Authority, s: Store, lease: Lease, input: RecordInput)
    requires StoreInv(a, s) && Names(lease, input)
    requires FindAttempt(s.log, input.id).None? && RecordOutcome(s, lease, input).Ok?
    ensures Find(s.outboxes, input.outboxId).Some?
    ensures var r, i := RecordOutcome(s, lease, input).value, Find(s.outboxes, input.outboxId).value;
            && |r.store.outboxes| == |s.outboxes| && Recorded(r.store.outboxes[i], input, r.value)
            && !r.store.outboxes[i].row.state.Leased? && r.store.outboxes[i].row.head == lease.row.head
            && AttemptFrom(input) in r.store.log
  {
    hide StoreInv, OutboxInv, OutboxOk, DecodesRow, TargetsRead, DecodesTargets, TargetsValid, OutcomeSchedule,
         Disposition;
    var i := ReadRow(s, lease.row.head.id, LeaseLost).value;
    At(a, s, i);
    var o := s.outboxes[i];
    var k := FindOrdinal(o.targets, input.ordinal).value;
    var sched := OutcomeSchedule(o.row.head.policy, input).value;
    var t' := CloseTarget(o.targets[k], sched, input.finishedAt);
    OrdinalKept(o.targets, input.ordinal, k, t', 0);
    DispositionNotLeased(o.row.head, o.targets[k := t']);
  }

  lemma ReconcileDecides(a: Authority, s: Store, lease: Lease, input: RecordInput, value: AttemptCommit, i: nat)
    requires Find(s.outboxes, lease.row.head.id) == Some(i) && DecodesRow(s.outboxes[i].row)
             && TargetsRead(s.outboxes[i])
    requires Names(lease, input) && s.outboxes[i].row.head == lease.row.head
    ensures s.outboxes[i].row.revision != lease.row.revision + 1 ==>
              ReconcileRecorded(s, lease, input, AttemptFrom(input)) == Err(Invariant)
    ensures Recorded(s.outboxes[i], input, value) ==>
              ReconcileRecorded(s, lease, input, AttemptFrom(input)) == Ok(Step(s, value))
  {
    hide DecodesRow, TargetsRead, OutcomeSchedule, Disposition, FindOrdinal;
  }

  lemma ReconcileExactly(a: Authority, s': Store, lease: Lease, input: RecordInput, first: Outbox,
                         value: AttemptCommit, i: nat)
    requires StoreInv(a, s') && i < |s'.outboxes| && Names(lease, input) && first.row.head == lease.row.head
    requires Recorded(first, input, value) && !first.row.state.Leased?
    requires Later(first, s'.outboxes[i]) && AttemptFrom(input) in s'.log
    ensures RecordOutcome(s', lease, input) ==
            if s'.outboxes[i].row.revision == input.outboxRevision + 1 then Ok(Step(s', value)) else Err(Invariant)
  {
    LogIdentities(a, s');
    hide StoreInv, OutboxInv, OutboxOk, DecodesRow, TargetsRead, DecodesTargets, TargetsValid, ReconcileRecorded,
         RecordFirst, Recorded, Later, LeaseError;
    At(a, s', i);
    FoundOnce(s'.log, AttemptFrom(input));
    Unmoved(first, s'.outboxes[i], input, value);
    ReconcileDecides(a, s', lease, input, value, i);
  }

  lemma LogIdentities(a: Authority, s: Store)
    requires StoreInv(a, s)
    ensures forall i, j :: 0 <= i < j < |s.log| ==> s.log[i].id != s.log[j].id
  {
    assert LogOk(s.outboxes, s.log);
    hide StoreInv, Find;
  }

  /**
   * Replaying a recorded outcome, at any later moment of any interleaving, returns the first
   * value and changes nothing exactly as long as the outbox is still at that revision.
   */
  lemma RecordReplays(a: Authority, before: seq<Action>, lease: Lease, input: RecordInput, after: seq<Action>)
    requires Names(lease, input)
    requires var s := Reach(a, before).store;
             FindAttempt(s.log, input.id).None? && RecordOutcome(s, lease, input).Ok?
    ensures var w := Reach(a, before);
            var r := RecordOutcome(w.store, lease, input).value;
            var s' := Run(a, w.(store := r.store), after).store;
            var i := Find(s'.outboxes, input.outboxId);
            && i.Some?
            && RecordOutcome(s', lease, input) ==
               if s'.outboxes[i.value].row.revision == input.outboxRevision + 1 then Ok(Step(s', r.value))
                 else Err(Invariant)
  {
    hide WorldInv, StoreInv, Reach, RecordOutcome, Recorded, Run, Later, Advances;
    ReachInv(a, before);
    var w := Reach(a, before);
    var r := RecordOutcome(w.store, lease, input).value;
    var w' := w.(store := r.store);
    var m := RecordStep(a, w.store, lease, input);
    AdvanceWorld(a, w, r.store, m);
    FirstRecordLeaves(a, w.store, lease, input);
    RunFrom(a, w', after);
    var s' := Run(a, w', after).store;
    var i := Find(w.store.outboxes, input.outboxId).value;
    assert Later(r.store.outboxes[i], s'.outboxes[i]);
    SameHead(r.store.outboxes[i], s'.outboxes[i]);
    RecordedKey(r.store.outboxes[i], input, r.value);
    StoreOf(a, Run(a, w', after));
    KeysOf(a, s');
    FindUnique(s'.outboxes, i);
    ReconcileExactly(a, s', lease, input, r.store.outboxes[i], r.value, i);
  }
}
