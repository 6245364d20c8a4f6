/** Progress, retry budgets and the exact conditions under which outcomes and recoveries commit. */
module PresenceProgress {
  import opened Prelude
  import opened Backoff
  import opened Delivery
  import opened DeliveryInvariant
  import opened Presence
  import opened PresenceInvariant
  import opened PresenceRuns
  import opened Exposures
  import opened PresenceSafety

  // ------------------------------------------------------------------ a claim finds work

  /** An authoritative, unused lease with a due target always prepares. */
  lemma LeasePrepares(v: Verifier, s: Store, lease: Lease, i: nat, at: nat)
    requires StoreInv(v, s) && i < |s.outboxes| && s.outboxes[i] == lease.outbox && NoneSubmitted(lease.outbox.targets)
    requires lease.outbox.row.state.Leased? && lease.outbox.row.leaseOwner == Some(lease.owner)
    requires lease.outbox.row.leaseExpires == Some(lease.expiresAt) && at < lease.expiresAt
    requires Generation(lease.outbox) == DesiredGeneration(s)
    requires FindDue(lease.outbox.targets, lease.outbox.row.head.policy.maxAttempts, at).Some?
    ensures PrepareNext(s, v, lease, at).Ok?
  {
    hide StoreInv, OutboxInv, Decodes, TargetsValid, NoneSubmitted, DesiredRowOk, TargetIsDue, RelaysOk;
    At(v, s, i);
    var o := s.outboxes[i];
    var k := FindDue(o.targets, o.row.head.policy.maxAttempts, at).value;
    var id := Id(o.row.head, k, o.targets[k].attemptCount + 1);
    DueIsReady(o, s.log, k, at);
    PrepareKeeps(o, s.log, k, at);
    var o' := o.(targets := o.targets[k := SubmitTarget(o.targets[k], id, at)]);
    assert RelaysOk(o'.targets) by { RelaysKept(o.targets, k, SubmitTarget(o.targets[k], id, at)); }
    DecodesAll(v, o', s.log);
  }

  lemma RelaysKept(ts: seq<Target>, k: nat, t: Target)
    requires RelaysOk(ts) && k < |ts| && t.relayId == ts[k].relayId
    ensures RelaysOk(ts[k := t])
  {
  }

  lemma ClaimedLease(v: Verifier, s: Store, owner: Owner, now: nat)
    requires StoreInv(v, s) && ClaimNext(s, v, owner, now).Ok? && ClaimNext(s, v, owner, now).value.value.Some?
    ensures var lease := ClaimNext(s, v, owner, now).value.value.value;
            && lease.owner == owner && lease.expiresAt == now + 15_000 && lease.outbox.row.updatedAt == now
            && Generation(lease.outbox) == DesiredGeneration(s)
            && FindDue(lease.outbox.targets, lease.outbox.row.head.policy.maxAttempts, now).Some?
  {
    hide StoreInv, OutboxInv, OutboxOk, Decodes, TargetsValid, StaleError, FindDue, DesiredOk;
    var i := OldestClaimable(s, v, now, |s.outboxes|).value;
    At(v, s, i);
    PendingHasDue(s.outboxes[i], s.log, now);
  }

  /**
   * If a claim succeeds then, whatever other workers do in between, preparation with that
   * lease succeeds at every instant from the claim until expiry, unless the desired state
   * moved or the leased outbox itself was changed.
   */
  lemma ClaimThenPrepare(v: Verifier, before: seq<Action>, owner: Owner, now: nat, after: seq<Action>, at: nat)
    requires var s := Reach(v, before).store;
             ClaimNext(s, v, owner, now).Ok? && ClaimNext(s, v, owner, now).value.value.Some?
    requires var w := Reach(v, before);
             var lease := ClaimNext(w.store, v, owner, now).value.value.value;
             var s' := Run(v, Next(v, w, Claim(owner, now)), after).store;
             && now <= at < lease.expiresAt
             && DesiredGeneration(s') == DesiredGeneration(w.store)
             && lease.outbox in s'.outboxes
    ensures var w := Reach(v, before);
            var lease := ClaimNext(w.store, v, owner, now).value.value.value;
            var s' := Run(v, Next(v, w, Claim(owner, now)), after).store;
            PrepareNext(s', v, lease, at).Ok?
  {
    hide WorldInv, StoreInv, Reach, ClaimNext, Run, PrepareNext, FindDue, NoneSubmitted, Evolves, Generation,
         DesiredGeneration;
    ReachInv(v, before);
    var w := Reach(v, before);
    var lease := ClaimNext(w.store, v, owner, now).value.value.value;
    NextInv(v, w, Claim(owner, now));
    RunFrom(v, Next(v, w, Claim(owner, now)), after);
    var w' := Run(v, Next(v, w, Claim(owner, now)), after);
    StoreOf(v, w');
    ClaimedLease(v, w.store, owner, now);
    ClaimIssues(v, w.store, owner, now);
    DueLater(lease.outbox.targets, lease.outbox.row.head.policy.maxAttempts, now, at);
    var i :| 0 <= i < |w'.store.outboxes| && w'.store.outboxes[i] == lease.outbox;
    LeasePrepares(v, w'.store, lease, i, at);
  }

  // ------------------------------------------------------------------ which outcomes commit

  /** The retry delays an outcome of attempt `n` may carry. */
  predicate Admissible(n: nat, outcome: Outcome, finishedAt: nat, delay: nat)
  {
    if RetryableOutcome(outcome) && n < 100
    then delay <= RetryUpperBound(PRESENCE_POLICY, n) && finishedAt + delay <= MAX_I64
    else delay == 0
  }

  /** The input names the attempt that outbox `i` holds open. */
  predicate StillOpen(s: Store, i: nat, input: RecordInput)
  {
    && i < |s.outboxes| && Key(s.outboxes[i]) == input.outboxId && s.outboxes[i].row.revision == input.outboxRevision
    && s.outboxes[i].row.head.eventSha == input.eventSha && s.outboxes[i].row.state.Leased?
    && s.outboxes[i].row.leaseOwner == Some(input.owner) && s.outboxes[i].row.leaseExpires == Some(input.leaseExpires)
    && input.ordinal < |s.outboxes[i].targets| && OpenAttempt(s.outboxes[i].targets[input.ordinal], input)
  }

  lemma ScheduleAdmits(input: RecordInput)
    requires !input.outcome.Submitted?
    ensures OutcomeSchedule(PRESENCE_POLICY, input).Ok? <==>
            Admissible(input.number, input.outcome, input.finishedAt, input.retryDelay)
    ensures OutcomeSchedule(PRESENCE_POLICY, input).Err?
            ==> OutcomeSchedule(PRESENCE_POLICY, input).error == InvalidInput
  {
  }

  /**
   * The outcome of an open attempt commits exactly when the outbox is current, the lease is
   * unexpired, the clock has not gone back and the delay is admissible; no other guard fails,
   * and an inadmissible delay alone is reported as invalid input.
   */
  lemma RecordDecides(v: Verifier, s: Store, i: nat, input: RecordInput)
    requires StoreInv(v, s) && StillOpen(s, i, input) && !input.outcome.Submitted?
    ensures RecordOutcome(s, v, input).Ok? <==>
            && Generation(s.outboxes[i]) == DesiredGeneration(s)
            && input.startedAt <= input.finishedAt < input.leaseExpires
            && s.outboxes[i].row.updatedAt <= input.finishedAt
            && Admissible(input.number, input.outcome, input.finishedAt, input.retryDelay)
    ensures Generation(s.outboxes[i]) == DesiredGeneration(s)
            && input.startedAt <= input.finishedAt < input.leaseExpires
            && !Admissible(input.number, input.outcome, input.finishedAt, input.retryDelay)
            ==> RecordOutcome(s, v, input) == Err(InvalidInput)
  {
    hide StoreInv, OutboxInv, OutboxOk, Decodes, TargetsValid, OutcomeSchedule, Disposition, StaleError, DesiredOk,
         ReconcileRecorded, Admissible;
    At(v, s, i);
    var o, k := s.outboxes[i], input.ordinal;
    PresencePolicy(v, o, s.log);
    StaleDecides(s, o);
    OpenNotLogged(o, s.log, k);
    OrdinalFound(o.targets, k, 0);
    ScheduleAdmits(input);
    LeasedAfterCreation(o, s.log);
    if OutcomeSchedule(o.row.head.policy, input).Ok? && input.startedAt <= input.finishedAt
       && o.row.updatedAt <= input.finishedAt
    {
      ClosedDisposes(o, s.log, k, input);
    }
  }

  lemma StaleDecides(s: Store, o: Outbox)
    requires s.desired.Some? && DesiredRowOk(s.desired.value) && DesiredOk(s.desired.value, o)
    requires o.row.head.binding.PresenceBinding?
    ensures StaleError(s, o).None? <==> Generation(o) == DesiredGeneration(s)
  {
  }

  /** A freshly exposed attempt is open, and its input is refused only for time or outcome. */
  lemma PreparedIsOpen(v: Verifier, s: Store, lease: Lease, at: nat, finishedAt: nat, outcome: Outcome, delay: nat)
    returns (i: nat)
    requires StoreInv(v, s) && PrepareNext(s, v, lease, at).Ok?
    ensures var r := PrepareNext(s, v, lease, at).value;
            var input := InputFrom(r.value, finishedAt, outcome, delay);
            && (input.Ok? <==> at <= finishedAt && !outcome.Submitted?)
            && (input.Ok? ==> StillOpen(r.store, i, input.value) && r.store.outboxes[i].row == lease.outbox.row
                              && input.value.number == r.value.target.attemptCount && input.value.startedAt == at
                              && input.value.finishedAt == finishedAt && input.value.leaseExpires == lease.expiresAt
                              && input.value.outcome == outcome && input.value.retryDelay == delay)
  {
    hide StoreInv, PrepareNext, Prepares, StillOpen, InputFrom, OutboxOk, OutboxInv, DesiredOk, Decodes, TargetsValid;
    var k: nat;
    i, k := PrepareFacts(v, s, lease, at);
    var r := PrepareNext(s, v, lease, at).value;
    LeaseHolds(v, s, lease, at);
    PreparedIndex(s, r.store, r.value, i, k, at);
    At(v, s, i);
    ExposedIsOpen(s, r.store, r.value, i, k, at, finishedAt, outcome, delay);
  }

  lemma PreparedIndex(s: Store, s': Store, p: Prepared, i: nat, k: nat, at: nat)
    requires Prepares(s, s', p, i, k, at)
    ensures i < |s.outboxes| == |s'.outboxes| && k < |s.outboxes[i].targets|
    ensures s'.outboxes[i].row == s.outboxes[i].row == p.lease.outbox.row
  {
    hide TargetIsDue;
  }

  lemma ExposedIsOpen(s: Store, s': Store, p: Prepared, i: nat, k: nat, at: nat, finishedAt: nat, outcome: Outcome,
                      delay: nat)
    requires Prepares(s, s', p, i, k, at) && s.outboxes[i].targets[k].ordinal == k && p.lease.outbox.row.state.Leased?
    requires p.lease.outbox.row.leaseOwner == Some(p.lease.owner)
             && p.lease.outbox.row.leaseExpires == Some(p.lease.expiresAt)
    ensures var input := InputFrom(p, finishedAt, outcome, delay);
            && (input.Ok? <==> at <= finishedAt && !outcome.Submitted?)
            && (input.Ok? ==> StillOpen(s', i, input.value)
                              && input.value.number == p.target.attemptCount && input.value.startedAt == at
                              && input.value.finishedAt == finishedAt && input.value.leaseExpires == p.lease.expiresAt
                              && input.value.outcome == outcome && input.value.retryDelay == delay)
  {
    hide TargetIsDue;
  }

  lemma LeaseHolds(v: Verifier, s: Store, lease: Lease, at: nat)
    requires PrepareNext(s, v, lease, at).Ok?
    ensures lease.outbox.row.state.Leased? && lease.outbox.row.leaseOwner == Some(lease.owner)
    ensures lease.outbox.row.leaseExpires == Some(lease.expiresAt) && at < lease.expiresAt
  {
    hide Decodes, TargetsValid, StaleError, FindDue;
  }

  /**
   * One uninterrupted turn of the executor: after a successful claim, preparation at the same
   * instant succeeds, and the outcome commits exactly when its delay is admissible.
   */
  lemma ExecutorTurn(v: Verifier, before: seq<Action>, owner: Owner, now: nat, finishedAt: nat, outcome: Outcome,
                     delay: nat)
    requires var s := Reach(v, before).store;
             ClaimNext(s, v, owner, now).Ok? && ClaimNext(s, v, owner, now).value.value.Some?
    requires now <= finishedAt < now + 15_000 && !outcome.Submitted?
    ensures var claimed := ClaimNext(Reach(v, before).store, v, owner, now).value;
            var prepared := PrepareNext(claimed.store, v, claimed.value.value, now);
            && prepared.Ok?
            && var input := InputFrom(prepared.value.value, finishedAt, outcome, delay);
               && input.Ok?
               && (RecordOutcome(prepared.value.store, v, input.value).Ok? <==>
                   Admissible(prepared.value.value.target.attemptCount, outcome, finishedAt, delay))
  {
    hide WorldInv, StoreInv, Reach, ClaimNext, PrepareNext, FindDue, NoneSubmitted, Evolves, InputFrom, RecordOutcome,
         Admissible, Issues, Run;
    ReachInv(v, before);
    var s := Reach(v, before).store;
    var claimed := ClaimNext(s, v, owner, now).value;
    var lease := claimed.value.value;
    ClaimStep(v, s, owner, now);
    ClaimedLease(v, s, owner, now);
    ClaimIssues(v, s, owner, now);
    var j := OldestClaimable(s, v, now, |s.outboxes|).value;
    ClaimKeepsDesired(v, s, owner, now);
    IssuedFacts(s, claimed.store, j, lease);
    LeasePrepares(v, claimed.store, lease, j, now);
    PrepareStep(v, claimed.store, lease, now);
    var prepared := PrepareNext(claimed.store, v, lease, now).value;
    var i := PreparedIsOpen(v, claimed.store, lease, now, finishedAt, outcome, delay);
    PrepareKeepsDesired(v, claimed.store, lease, now);
    RecordDecides(v, prepared.store, i, InputFrom(prepared.value, finishedAt, outcome, delay).value);
  }

  lemma IssuedFacts(s: Store, s': Store, i: nat, l: Lease)
    requires Issues(s, s', i, l)
    ensures i < |s'.outboxes| && s'.outboxes[i] == l.outbox && NoneSubmitted(l.outbox.targets)
    ensures l.outbox.row.state.Leased? && l.outbox.row.leaseOwner == Some(l.owner)
            && l.outbox.row.leaseExpires == Some(l.expiresAt)
  {
  }

  lemma ClaimKeepsDesired(v: Verifier, s: Store, owner: Owner, now: nat)
    requires ClaimNext(s, v, owner, now).Ok?
    ensures ClaimNext(s, v, owner, now).value.store.desired == s.desired
  {
    hide Decodes, TargetsValid, StaleError;
  }

  lemma PrepareKeepsDesired(v: Verifier, s: Store, lease: Lease, at: nat)
    requires PrepareNext(s, v, lease, at).Ok?
    ensures PrepareNext(s, v, lease, at).value.store.desired == s.desired
  {
    hide Decodes, TargetsValid, StaleError, FindDue;
  }

  /** What the executor samples: zero for a final outcome, otherwise anything up to the ceiling. */
  predicate ExecutorSamples(n: nat, outcome: Outcome, delay: nat)
  {
    if RetryableOutcome(outcome) then delay <= RetryUpperBound(PRESENCE_POLICY, n) else delay == 0
  }

  /**
   * Every executor sample is admissible below the last attempt; at the last one a retryable
   * outcome is admissible only with delay zero.
   */
  lemma SamplesAdmissible(n: nat, outcome: Outcome, finishedAt: nat, delay: nat)
    requires 1 <= n <= 100 && ExecutorSamples(n, outcome, delay) && finishedAt + delay <= MAX_I64
    ensures Admissible(n, outcome, finishedAt, delay) <==> n < 100 || !RetryableOutcome(outcome) || delay == 0
  {
  }

  // ------------------------------------------------------------------ recovery

  /** The delays recovery may use for this outbox. */
  predicate RecoveryAdmits(o: Outbox, now: nat, delay: nat)
  {
    match OpenIndex(o.targets)
    case None => true
    case Some(k) => Admissible(o.targets[k].attemptCount, Outcome.Unknown, now, delay)
  }

  /** Recovery commits exactly when its snapshot is current, expired and the delay fits. */
  lemma RecoverDecides(v: Verifier, s: Store, c: Candidate, i: nat, now: nat, delay: nat)
    requires StoreInv(v, s) && i < |s.outboxes| && Key(s.outboxes[i]) == Key(c.outbox)
    ensures RecoverExpired(s, v, c, now, delay).Ok? <==>
            s.outboxes[i] == c.outbox && Expired(c.outbox, now) && RecoveryAdmits(c.outbox, now, delay)
  {
    hide StoreInv, OutboxInv, OutboxOk, Decodes, TargetsValid, OutcomeSchedule, Disposition, DesiredOk, Admissible,
         CloseSubmitted, DesiredRowOk;
    At(v, s, i);
    var o := s.outboxes[i];
    LeasedAfterCreation(o, s.log);
    if o == c.outbox && Expired(o, now) {
      RecoverExpiredDecides(v, s, o, now, delay);
    }
  }

  /** The closing loop fails only on an inadmissible delay, and its targets can be disposed. */
  lemma RecoverExpiredDecides(v: Verifier, s: Store, o: Outbox, now: nat, delay: nat)
    requires OutboxOk(v, o, s.log) && Expired(o, now) && o.row.leaseOwner.Some?
    ensures var owner, expires := o.row.leaseOwner.value, o.row.leaseExpires.value;
            var c := CloseSubmitted(o, owner, expires, o.targets, s.log, 0, now, delay);
            (c.Ok? <==> RecoveryAdmits(o, now, delay)) && (c.Ok? ==> Disposition(o.row.head, c.value.targets).Ok?)
  {
    hide OutboxInv, Disposition, OutcomeSchedule, Admissible, Decodes, TargetsValid;
    PresencePolicy(v, o, s.log);
    var owner, expires := o.row.leaseOwner.value, o.row.leaseExpires.value;
    match OpenIndex(o.targets)
    case None =>
      CloseNone(o, owner, expires, o.targets, s.log, 0, now, delay);
      IdleDisposes(o, s.log);
    case Some(k) =>
      OpenAttemptId(o, s.log, k);
      OpenNotLogged(o, s.log, k);
      OnlyOpen(o, s.log, k);
      OrdinalsOf(o, s.log);
      CloseOne(o, owner, expires, o.targets, s.log, 0, k, now, delay);
      var input := UnknownInput(o, o.targets[k], o.targets[k].lastAttempt.value, owner, expires, now, delay);
      ScheduleAdmits(input);
      if OutcomeSchedule(o.row.head.policy, input).Ok? {
        ClosedDisposes(o, s.log, k, input);
      }
  }

  /**
   * Recovery's first transaction never fails, and a sample within the candidate's ceiling is
   * always admissible: the candidate then recovers unless its outbox moved or time overflows.
   */
  lemma RecoveryNeverStuck(v: Verifier, actions: seq<Action>, c: nat, i: nat, now: nat, delay: nat)
    requires var w := Reach(v, actions);
             && c < |w.candidates| && i < |w.store.outboxes| && w.store.outboxes[i] == w.candidates[c].outbox
             && Expired(w.candidates[c].outbox, now)
             && delay <= w.candidates[c].retryUpperBound && now + delay <= MAX_I64
    ensures var w := Reach(v, actions); RecoverExpired(w.store, v, w.candidates[c], now, delay).Ok?
  {
    hide StoreInv, LeasesInv, ExposuresInv, Reach, RecoverExpired, OutboxInv, Decodes, TargetsValid, RecoveryAdmits;
    ReachInv(v, actions);
    var w := Reach(v, actions);
    At(v, w.store, i);
    PresencePolicy(v, w.store.outboxes[i], w.store.log);
    CeilingAdmits(w.candidates[c].outbox, w.store.log, w.candidates[c].currentDesired, now, delay);
    RecoverDecides(v, w.store, w.candidates[c], i, now, delay);
  }

  lemma CeilingAdmits(o: Outbox, log: seq<Attempt>, current: bool, now: nat, delay: nat)
    requires OutboxInv(o, log) && o.row.head.policy == PRESENCE_POLICY
    requires delay <= RecoveryCeiling(o, current) && now + delay <= MAX_I64
    ensures RecoveryAdmits(o, now, delay)
  {
    hide OutboxInv, RetryUpperBound;
    if OpenIndex(o.targets).Some? {
      OpenAttemptId(o, log, OpenIndex(o.targets).value);
    }
  }

  /** Recovery's read succeeds in every reachable world, at every instant. */
  lemma ExpiredReadSucceeds(v: Verifier, actions: seq<Action>, now: nat)
    ensures ReadExpiredCandidate(Reach(v, actions).store, v, now).Ok?
    ensures var s := Reach(v, actions).store;
            ReadExpiredCandidate(s, v, now).value.None? <==>
            forall i :: 0 <= i < |s.outboxes| ==> !Expired(s.outboxes[i], now)
  {
    hide WorldInv, StoreInv, Reach, CandidateOk, Decodes, TargetsValid, CandidateFor;
    ReachInv(v, actions);
    CandidateReads(v, Reach(v, actions).store, now);
  }

  /** A recovered attempt is logged once as Unknown; after the last attempt nothing is scheduled. */
  lemma RecoverCloses(v: Verifier, s: Store, c: Candidate, i: nat, k: nat, now: nat, delay: nat)
    requires StoreInv(v, s) && i < |s.outboxes| && s.outboxes[i] == c.outbox && OpenIndex(c.outbox.targets) == Some(k)
    requires RecoverExpired(s, v, c, now, delay).Ok?
    ensures var s' := RecoverExpired(s, v, c, now, delay).value.store;
            var t := c.outbox.targets[k];
            && |s'.outboxes| == |s.outboxes| && |s'.outboxes[i].targets| == |c.outbox.targets|
            && s'.outboxes[i].targets[k].state.Unknown? && s'.outboxes[i].targets[k].attemptCount == t.attemptCount
            && s'.outboxes[i].targets[k].nextAttempt == (if t.attemptCount < 100 then Some(now + delay) else None)
            && |s'.log| == |s.log| + 1 && s.log <= s'.log
            && Some(s'.log[|s.log|].id) == t.lastAttempt && s'.log[|s.log|].outcome == Outcome.Unknown
  {
    hide StoreInv, OutboxInv, OutboxOk, Decodes, TargetsValid, Disposition, DesiredOk, CloseSubmitted, DesiredRowOk,
         OutcomeSchedule, AttemptInsertable;
    At(v, s, i);
    var o := s.outboxes[i];
    var owner, expires := o.row.leaseOwner.value, o.row.leaseExpires.value;
    PresencePolicy(v, o, s.log);
    LeasedAfterCreation(o, s.log);
    OpenAttemptId(o, s.log, k);
    OnlyOpen(o, s.log, k);
    CloseOne(o, owner, expires, o.targets, s.log, 0, k, now, delay);
    UnknownSchedule(UnknownInput(o, o.targets[k], o.targets[k].lastAttempt.value, owner, expires, now, delay));
  }

  lemma UnknownSchedule(input: RecordInput)
    requires input.outcome.Unknown? && OutcomeSchedule(PRESENCE_POLICY, input).Ok?
    ensures OutcomeSchedule(PRESENCE_POLICY, input).value
            == Schedule(TargetState.Unknown, if input.number < 100 then Some(input.finishedAt + input.retryDelay)
              else None)
  {
  }

  // ------------------------------------------------------------------ the exposure budget

  /** Every successful preparation spends one attempt of one outbox and touches no other. */
  lemma PrepareSpends(v: Verifier, actions: seq<Action>, lease: Lease, at: nat) returns (i: nat)
    requires PrepareNext(Reach(v, actions).store, v, lease, at).Ok?
    ensures var s, s' := Reach(v, actions).store, PrepareNext(Reach(v, actions).store, v, lease, at).value.store;
            && i < |s.outboxes| == |s'.outboxes| && Key(s.outboxes[i]) == Key(lease.outbox)
            && Budget(s'.outboxes[i]) + 1 == Budget(s.outboxes[i])
            && (forall j :: 0 <= j < |s.outboxes| && j != i ==> s'.outboxes[j] == s.outboxes[j])
  {
    hide WorldInv, StoreInv, Reach, PrepareNext;
    ReachInv(v, actions);
    var k: nat;
    i, k := PrepareFacts(v, Reach(v, actions).store, lease, at);
    var o := Reach(v, actions).store.outboxes[i];
    var id := Id(o.row.head, k, o.targets[k].attemptCount + 1);
    SubmitSpends(o.targets, o.row.head.policy.maxAttempts, k, id, at, |o.targets|);
  }

  /** Nothing that happens later gives an outbox attempts back. */
  lemma BudgetNeverGrows(v: Verifier, before: seq<Action>, after: seq<Action>, i: nat)
    requires i < |Reach(v, before).store.outboxes|
    ensures var s, s' := Reach(v, before).store, Run(v, Reach(v, before), after).store;
            i < |s'.outboxes| && Budget(s'.outboxes[i]) <= Budget(s.outboxes[i])
  {
    hide StoreInv, Later, LeasesInv, ExposuresInv, CandidateOk, Run, Budget;
    ReachInv(v, before);
    RunFrom(v, Reach(v, before), after);
    BudgetShrinks(Reach(v, before).store.outboxes[i], Run(v, Reach(v, before), after).store.outboxes[i]);
  }

  /**
   * An outbox exposes its bytes once per attempt used, so at most 100 times per target, and what
   * remains of that allowance is exactly its budget.
   */
  lemma ExposureBudget(v: Verifier, actions: seq<Action>, i: nat)
    requires i < |Reach(v, actions).store.outboxes|
    ensures var w := Reach(v, actions);
            var o := w.store.outboxes[i];
            && Accounted(o, w.exposures) && o.row.head.policy.maxAttempts == 100
            && |ExposedOutbox(w.exposures, Key(o))| <= 100 * |o.targets| <= 100 * 32
  {
    hide LeasesInv, CandidateOk, Reach, StoreInv, Decodes, OutboxInv, ExposuresInv, DistinctKeys, AllPairs,
         ExposedOutbox, AttemptsUsed, Budget;
    ReachInv(v, actions);
    var w := Reach(v, actions);
    At(v, w.store, i);
    PairsOf(v, w.store);
    PairsDistinct(w.store.outboxes);
    ExposuresAccounted(w.store.outboxes, w.store.log, w.exposures, i);
  }
}
