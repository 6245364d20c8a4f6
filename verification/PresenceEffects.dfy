/**
 * What each presence transaction writes, column by column, and what the rows of every
 * reachable store therefore say about their targets.
 */
module PresenceEffects {
  import opened Prelude
  import opened Backoff
  import opened Delivery
  import opened DeliveryEffects
  import opened DeliveryInvariant
  import opened Presence
  import opened PresenceInvariant
  import opened PresenceRuns
  import opened PresenceSafety
  import opened PresenceProgress
  import opened PresenceReplay

  // ------------------------------------------------------------------ rows and their targets

  /**
   * In every reachable state a row outside a lease that is not superseded says what its targets
   * say: Complete when every required one was accepted, Blocked when a required one is stuck,
   * otherwise Pending at the earliest required schedule.  Only an outbox without required
   * targets that was never leased is still Pending as committed.
   */
  lemma RowFollowsTargets(v: Verifier, actions: seq<Action>, i: nat)
    requires var s := Reach(v, actions).store;
             i < |s.outboxes| && !s.outboxes[i].row.state.Leased? && !s.outboxes[i].row.state.Superseded?
    ensures var o := Reach(v, actions).store.outboxes[i];
            if o.row.head.requiredCount == 0 && o.row.revision == 1
            then o.row.state.Pending? && o.row.nextAttempt == Some(o.row.head.createdAt)
            else Follows(o.row.state, o.row.nextAttempt, o.targets, 100)
  {
    hide Reach, Follows, WorldInv, StoreInv, Decodes, OutboxInv, OutboxOk, TargetsValid, DesiredOk;
    ReachInv(v, actions);
    var s := Reach(v, actions).store;
    At(v, s, i);
    PresencePolicy(v, s.outboxes[i], s.log);
    RowSays(s.outboxes[i], s.log);
  }

  // ------------------------------------------------------------------ claims

  /** Everything one claim changes: the picked row becomes leased for fifteen seconds. */
  ghost predicate ClaimEffect(s: Store, s': Store, i: nat, owner: Owner, now: nat, lease: Lease)
  {
    && OnlyOutbox(s.outboxes, s'.outboxes, i) && s' == s.(outboxes := s'.outboxes)
    && var o := s.outboxes[i];
       && s'.outboxes[i] == o.(row := o.row.(state := Leased, revision := o.row.revision + 1, nextAttempt := None,
                                             leaseOwner := Some(owner), leaseExpires := Some(now + 15_000),
                                             updatedAt := now))
       && lease == Lease(s'.outboxes[i], owner, now + 15_000)
  }

  lemma ClaimWrites(v: Verifier, s: Store, owner: Owner, now: nat)
    requires ClaimNext(s, v, owner, now).Ok? && ClaimNext(s, v, owner, now).value.value.Some?
    ensures OldestClaimable(s, v, now, |s.outboxes|).Some?
    ensures var r := ClaimNext(s, v, owner, now).value;
            ClaimEffect(s, r.store, OldestClaimable(s, v, now, |s.outboxes|).value, owner, now, r.value.value)
  {
    hide Decodes, TargetsValid, StaleError;
  }

  /** The profile sorts before the handler among claims, and after it among expired leases. */
  function KindOrder(o: Outbox): nat { if Kind(o).ServiceProfile? then 0 else 1 }

  /** The claimed outbox is no later than any claimable one by schedule, creation, kind and stored identity. */
  lemma ClaimTakesOldest(v: Verifier, s: Store, owner: Owner, now: nat, j: nat)
    requires StoreInv(v, s) && ClaimNext(s, v, owner, now).Ok? && ClaimNext(s, v, owner, now).value.value.Some?
    requires j < |s.outboxes| && Generation(s.outboxes[j]) == DesiredGeneration(s)
    requires s.outboxes[j].row.state.Pending? && s.outboxes[j].row.nextAttempt.Some?
    requires s.outboxes[j].row.nextAttempt.value <= now
    ensures OldestClaimable(s, v, now, |s.outboxes|).Some?
    ensures var i := OldestClaimable(s, v, now, |s.outboxes|).value;
            var a, b := s.outboxes[i], s.outboxes[j];
            && a.row.state.Pending? && a.row.nextAttempt.Some?
            && NotAfter(a.row.nextAttempt.value, a.row.head.createdAt, KindOrder(a), v.identity(Key(a)),
                        b.row.nextAttempt.value, b.row.head.createdAt, KindOrder(b), v.identity(Key(b)))
  {
    hide StoreInv, OutboxInv, OutboxOk, Decodes, TargetsValid, StaleError, RankLess, NotAfter, DesiredRowOk;
    At(v, s, j);
    PresencePolicy(v, s.outboxes[j], s.log);
    var i := OldestClaimable(s, v, now, |s.outboxes|).value;
    assert Claimable(s, s.outboxes[j], now);
    At(v, s, i);
    PresencePolicy(v, s.outboxes[i], s.log);
    NotLessIsNotAfter(ClaimRank(v, s.outboxes[i]), ClaimRank(v, s.outboxes[j]));
  }

  /** The recovered outbox is no later than any expired one by expiry, creation, kind and stored identity. */
  lemma RecoveryReadsOldest(v: Verifier, s: Store, now: nat, j: nat)
    requires StoreInv(v, s) && j < |s.outboxes| && Expired(s.outboxes[j], now)
    ensures OldestExpired(s, v, now, |s.outboxes|).Some?
    ensures ReadExpiredCandidate(s, v, now).Ok? && ReadExpiredCandidate(s, v, now).value.Some?
    ensures var a, b := ReadExpiredCandidate(s, v, now).value.value.outbox, s.outboxes[j];
            && Expired(a, now)
            && NotAfter(a.row.leaseExpires.value, a.row.head.createdAt, 1 - KindOrder(a), v.identity(Key(a)),
                        b.row.leaseExpires.value, b.row.head.createdAt, 1 - KindOrder(b), v.identity(Key(b)))
  {
    hide StoreInv, OutboxInv, OutboxOk, Decodes, TargetsValid, RankLess, NotAfter, DesiredRowOk, SubmittedAttempts,
         CandidateOk, DesiredOk;
    CandidateReads(v, s, now);
    var i := OldestExpired(s, v, now, |s.outboxes|).value;
    At(v, s, i);
    At(v, s, j);
    PresencePolicy(v, s.outboxes[i], s.log);
    PresencePolicy(v, s.outboxes[j], s.log);
    NotLessIsNotAfter(ExpiryRank(v, s.outboxes[i]), ExpiryRank(v, s.outboxes[j]));
  }

  // ------------------------------------------------------------------ preparation

  /** Preparation submits the first ready target of the leased outbox and hands out its committed bytes. */
  lemma PrepareWrites(v: Verifier, s: Store, lease: Lease, at: nat) returns (i: nat, k: nat)
    requires StoreInv(v, s) && PrepareNext(s, v, lease, at).Ok?
    ensures var r := PrepareNext(s, v, lease, at).value;
            && OnlyOutbox(s.outboxes, r.store.outboxes, i) && r.store == s.(outboxes := r.store.outboxes)
            && s.outboxes[i] == lease.outbox && SubmitsFirst(s.outboxes[i], r.store.outboxes[i], k, at)
            && r.value == PreparedAttempt(lease, r.store.outboxes[i].targets[k],
                                          AttemptId(Key(lease.outbox), lease.outbox.row.head.eventSha, k,
                                                    lease.outbox.targets[k].attemptCount + 1),
                                          at, lease.expiresAt, lease.outbox.row.head.exactBytes)
    ensures lease.outbox.row.state.Leased? && lease.outbox.row.leaseOwner == Some(lease.owner)
    ensures lease.outbox.row.leaseExpires == Some(lease.expiresAt) && at < lease.expiresAt
    ensures Generation(lease.outbox) == DesiredGeneration(s)
  {
    hide StoreInv, PrepareNext, SubmitsFirst, TargetIsDue, OutboxInv, OutboxOk, Decodes, TargetsValid, DesiredOk,
         StaleError, DesiredRowOk, Generation;
    i, k := PrepareFacts(v, s, lease, at);
    SubmitIsFirst(s.outboxes[i], k, at);
    LeaseHolds(v, s, lease, at);
    LeaseCurrent(v, s, lease, at);
    At(v, s, i);
    PresencePolicy(v, s.outboxes[i], s.log);
    StaleDecides(s, s.outboxes[i]);
  }

  lemma LeaseCurrent(v: Verifier, s: Store, lease: Lease, at: nat)
    requires PrepareNext(s, v, lease, at).Ok?
    ensures StaleError(s, lease.outbox).None?
  {
    hide Decodes, TargetsValid, StaleError, FindDue;
  }

  // ------------------------------------------------------------------ outcomes

  /** Everything one recorded outcome changes. */
  ghost predicate RecordEffect(s: Store, s': Store, i: nat, input: RecordInput, value: AttemptCommit)
  {
    && OnlyOutbox(s.outboxes, s'.outboxes, i) && s'.config == s.config && s'.desired == s.desired
    && s'.log == s.log + [Attempt(input.id, input.outboxId, input.ordinal, input.number, input.eventSha, input.owner,
                                  input.startedAt, input.finishedAt, input.outcome)]
    && var o, o' := s.outboxes[i], s'.outboxes[i];
       && HeldOpen(o, input) && Generation(o) == DesiredGeneration(s)
       && Key(o) == input.outboxId && OnlyTarget(o.targets, o'.targets, input.ordinal)
       && ClosedBy(o.targets[input.ordinal], o'.targets[input.ordinal], input.outcome, input.number, 100,
                   input.finishedAt, input.retryDelay)
       && Released(o.row, o'.row, input.finishedAt) && Follows(o'.row.state, o'.row.nextAttempt, o'.targets, 100)
       && value == AttemptCommit(input.outboxId, input.id, input.ordinal, input.number, input.outcome,
                                 o'.targets[input.ordinal].state, o'.row.state)
  }

  /**
   * A first outcome closes exactly its target, with the outcome's own state and the sampled
   * retry instant, appends exactly its log row, and releases the outbox to what its targets say.
   */
  lemma RecordWrites(v: Verifier, s: Store, input: RecordInput) returns (i: nat)
    requires StoreInv(v, s) && FindAttempt(s.log, input.id).None? && RecordOutcome(s, v, input).Ok?
    ensures var r := RecordOutcome(s, v, input).value; RecordEffect(s, r.store, i, input, r.value)
  {
    hide StoreInv, OutboxInv, OutboxOk, Decodes, TargetsValid, StaleError, OutcomeSchedule, Disposition, DesiredOk,
         ClosedBy, Follows, DesiredRowOk;
    i := ReadOutbox(s, v, input.outboxId, LeaseLost).value;
    At(v, s, i);
    var o := s.outboxes[i];
    PresencePolicy(v, o, s.log);
    StaleDecides(s, o);
    var k := FindOrdinal(o.targets, input.ordinal).value;
    var sched := OutcomeSchedule(o.row.head.policy, input).value;
    ScheduleCloses(o.row.head.policy, input, o.targets[k]);
    DispositionFollows(o.row.head, o.targets[k := CloseTarget(o.targets[k], sched, input.finishedAt)]);
  }

  /** An attempt already in the log is answered only for exactly the facts it was logged with. */
  lemma RecordedOnlyOnce(v: Verifier, s: Store, input: RecordInput)
    requires FindAttempt(s.log, input.id).Some?
    ensures RecordOutcome(s, v, input).Ok? ==> RecordOutcome(s, v, input).value.store == s
    ensures var e := FindAttempt(s.log, input.id).value;
            e != Attempt(input.id, input.outboxId, input.ordinal, input.number, input.eventSha, input.owner,
                         input.startedAt, input.finishedAt, input.outcome)
            ==> RecordOutcome(s, v, input) == Err(Invariant)
  {
    hide Decodes, TargetsValid, OutcomeSchedule, Disposition, FindOrdinal, RecordFirst;
  }

  // ------------------------------------------------------------------ recovery

  /** Everything one recovery changes. */
  ghost predicate RecoverEffect(s: Store, s': Store, i: nat, c: Candidate, now: nat, delay: nat)
  {
    && OnlyOutbox(s.outboxes, s'.outboxes, i) && s'.config == s.config && s'.desired == s.desired
    && s.outboxes[i] == c.outbox
    && var o, o' := s.outboxes[i], s'.outboxes[i];
       && Released(o.row, o'.row, now)
       && (if c.currentDesired then Follows(o'.row.state, o'.row.nextAttempt, o'.targets, 100)
           else o'.row.state.Superseded? && o'.row.nextAttempt.None?)
       && (if NoneSubmitted(o.targets) then o'.targets == o.targets && s'.log == s.log
           else exists k :: RecoversTarget(s, s', o, o', k, now, delay))
  }

  /** The open attempt of target `k` was logged as Unknown and its target closed accordingly. */
  predicate RecoversTarget(s: Store, s': Store, o: Outbox, o': Outbox, k: nat, now: nat, delay: nat)
  {
    && OnlyTarget(o.targets, o'.targets, k) && o.targets[k].state.Submitted?
    && ClosedBy(o.targets[k], o'.targets[k], Outcome.Unknown, o.targets[k].attemptCount, 100, now, delay)
    && o.targets[k].lastAttempt.Some? && o.row.leaseOwner.Some?
    && s'.log == s.log + [Attempt(o.targets[k].lastAttempt.value, Key(o), k, o.targets[k].attemptCount,
                                  o.row.head.eventSha, o.row.leaseOwner.value, o.targets[k].updatedAt, now,
                                  Outcome.Unknown)]
  }

  lemma RecoverWrites(v: Verifier, s: Store, c: Candidate, now: nat, delay: nat) returns (i: nat)
    requires StoreInv(v, s) && RecoverExpired(s, v, c, now, delay).Ok?
    ensures RecoverEffect(s, RecoverExpired(s, v, c, now, delay).value.store, i, c, now, delay)
  {
    hide StoreInv, OutboxInv, OutboxOk, Decodes, TargetsValid, OutcomeSchedule, Disposition, DesiredOk, DesiredRowOk,
         Follows, CloseSubmitted, AttemptInsertable, RecoversTarget;
    i := ReadOutbox(s, v, Key(c.outbox), LeaseLost).value;
    At(v, s, i);
    var o := s.outboxes[i];
    var owner, expires := o.row.leaseOwner.value, o.row.leaseExpires.value;
    var closed := CloseSubmitted(o, owner, expires, o.targets, s.log, 0, now, delay).value;
    var s' := RecoverExpired(s, v, c, now, delay).value.store;
    assert closed.targets == s'.outboxes[i].targets && closed.log == s'.log;
    RecoverClosesTargets(v, s, s', i, now, delay);
    if c.currentDesired {
      DispositionFollows(o.row.head, closed.targets);
      PresencePolicy(v, o, s.log);
    }
  }

  lemma RecoverClosesTargets(v: Verifier, s: Store, s': Store, i: nat, now: nat, delay: nat)
    requires StoreInv(v, s) && i < |s.outboxes| == |s'.outboxes| && s.outboxes[i].row.leaseOwner.Some?
    requires s.outboxes[i].row.leaseExpires.Some?
    requires var o := s.outboxes[i];
             CloseSubmitted(o, o.row.leaseOwner.value, o.row.leaseExpires.value, o.targets, s.log, 0, now, delay)
             == Ok(Closed(s'.outboxes[i].targets, s'.log))
    ensures var o, o' := s.outboxes[i], s'.outboxes[i];
            if NoneSubmitted(o.targets) then o'.targets == o.targets && s'.log == s.log
            else exists k :: RecoversTarget(s, s', o, o', k, now, delay)
  {
    hide StoreInv, OutboxInv, OutboxOk, Decodes, TargetsValid, OutcomeSchedule, DesiredOk, DesiredRowOk, CloseSubmitted,
         AttemptInsertable, ClosedBy;
    At(v, s, i);
    var o := s.outboxes[i];
    var owner, expires := o.row.leaseOwner.value, o.row.leaseExpires.value;
    match OpenIndex(o.targets)
    case None =>
      CloseNone(o, owner, expires, o.targets, s.log, 0, now, delay);
    case Some(k) =>
      OpenAttemptId(o, s.log, k);
      OnlyOpen(o, s.log, k);
      PresencePolicy(v, o, s.log);
      CloseOne(o, owner, expires, o.targets, s.log, 0, k, now, delay);
      var input := UnknownInput(o, o.targets[k], o.targets[k].lastAttempt.value, owner, expires, now, delay);
      ScheduleCloses(o.row.head.policy, input, o.targets[k]);
      assert RecoversTarget(s, s', o, s'.outboxes[i], k, now, delay);
  }

  /**
   * Recovery's read marks its candidate current exactly when its generation is the desired one, and
   * names its ceiling.
   */
  lemma CandidateIsCurrent(v: Verifier, s: Store, now: nat)
    requires StoreInv(v, s) && ReadExpiredCandidate(s, v, now).Ok? && ReadExpiredCandidate(s, v, now).value.Some?
    ensures var c := ReadExpiredCandidate(s, v, now).value.value;
            forall k :: OpenIndex(c.outbox.targets) == Some(k) ==> c.outbox.targets[k].attemptCount >= 1
    ensures var c := ReadExpiredCandidate(s, v, now).value.value;
            && c.outbox in s.outboxes && Expired(c.outbox, now)
            && (c.currentDesired <==> Generation(c.outbox) == DesiredGeneration(s))
            && c.retryUpperBound ==
               match OpenIndex(c.outbox.targets)
               case None => 0
               case Some(k) =>
                 if c.currentDesired && c.outbox.targets[k].attemptCount < 100
                 then Min(250 * Pow2(c.outbox.targets[k].attemptCount - 1), 30_000) else 0
  {
    hide StoreInv, Decodes, TargetsValid, OutboxInv, OutboxOk, SubmittedAttempts, DesiredRowOk, RetryUpperBound, Pow2;
    CandidateReads(v, s, now);
    var i := OldestExpired(s, v, now, |s.outboxes|).value;
    At(v, s, i);
    var o := s.outboxes[i];
    PresencePolicy(v, o, s.log);
    if OpenIndex(o.targets).Some? {
      var k := OpenIndex(o.targets).value;
      OpenAttemptId(o, s.log, k);
      BoundClosedForm(PRESENCE_POLICY, o.targets[k].attemptCount);
    }
  }

  /**
   * A candidate read while its generation was stale is left Superseded by its recovery, whatever
   * happens in between; one read while current is released to what its targets say.
   */
  lemma RecoveryFollowsItsRead(v: Verifier, before: seq<Action>, read: nat, after: seq<Action>, now: nat, delay: nat)
    returns (i: nat)
    requires var s := Reach(v, before).store;
             ReadExpiredCandidate(s, v, read).Ok? && ReadExpiredCandidate(s, v, read).value.Some?
    requires var w := Reach(v, before);
             var c := ReadExpiredCandidate(w.store, v, read).value.value;
             RecoverExpired(Run(v, w, after).store, v, c, now, delay).Ok?
    ensures var w := Reach(v, before);
            var c := ReadExpiredCandidate(w.store, v, read).value.value;
            var s := Run(v, w, after).store;
            var s' := RecoverExpired(s, v, c, now, delay).value.store;
            && i < |s'.outboxes| && Key(s'.outboxes[i]) == Key(c.outbox)
            && s'.outboxes[i].row.leaseOwner.None? && s'.outboxes[i].row.updatedAt == now
            && (if Generation(c.outbox) < DesiredGeneration(w.store)
                then s'.outboxes[i].row.state.Superseded? && s'.outboxes[i].row.nextAttempt.None?
                else Follows(s'.outboxes[i].row.state, s'.outboxes[i].row.nextAttempt, s'.outboxes[i].targets, 100))
  {
    hide Reach, Run, WorldInv, StoreInv, Follows, ReadExpiredCandidate, RecoverExpired, Generation, DesiredGeneration,
         Evolves, RecoversTarget;
    ReachInv(v, before);
    var w := Reach(v, before);
    RunFrom(v, w, after);
    StoreOf(v, Run(v, w, after));
    CandidateIsCurrent(v, w.store, read);
    var c := ReadExpiredCandidate(w.store, v, read).value.value;
    NeverAhead(v, w.store, c.outbox);
    i := RecoverWrites(v, Run(v, w, after).store, c, now, delay);
  }

  lemma NeverAhead(v: Verifier, s: Store, o: Outbox)
    requires StoreInv(v, s) && o in s.outboxes
    ensures Generation(o) <= DesiredGeneration(s)
  {
    hide StoreInv, Decodes, TargetsValid, OutboxInv, OutboxOk, DesiredRowOk;
    var i :| 0 <= i < |s.outboxes| && s.outboxes[i] == o;
    At(v, s, i);
  }

  // ------------------------------------------------------------------ document commits

  /** The outbox one document is committed as: its own bytes and identity, every target untouched. */
  predicate FreshFor(o: Outbox, docs: Documents, d: Document, at: nat)
  {
    && o.row.head.binding == PresenceBinding(docs.desired.generation, d.kind, docs.desired.desiredSha, d.eventId,
       d.createdAt,
                                             docs.publicKey)
    && Key(o) == PresenceOutboxId(docs.desired.generation, d.kind, docs.desired.desiredSha, d.eventSha)
    && o.row.head.eventSha == d.eventSha && o.row.head.exactBytes == d.bytes && o.row.head.createdAt == at
    && o.row.head.targetSetSha == docs.desired.targetSetSha && o.row.head.targetCount == docs.desired.targetCount
    && o.row.head.requiredCount == docs.desired.requiredCount && o.row.head.policy == Policy(100, 250, 30_000, 15_000)
    && o.row.state.Pending? && o.row.revision == 1 && o.row.nextAttempt == Some(at) && o.row.updatedAt == at
    && o.row.leaseOwner.None? && o.row.leaseExpires.None? && |o.targets| == |docs.targets|
    && forall k :: 0 <= k < |o.targets| ==> UntouchedTarget(o.targets[k], docs.targets[k].ordinal,
       docs.targets[k].relayId,
                                                            docs.targets[k].required, at)
  }

  predicate UntouchedTarget(t: Target, ordinal: nat, relayId: Bytes, required: bool, at: nat)
  {
    t == Target(ordinal, relayId, required, TargetState.Pending, 1, 0, Some(at), None, at)
  }

  /** An earlier outbox is superseded when it is idle, unfinished and not updated since; otherwise it stays. */
  predicate SupersededOrSame(o: Outbox, o': Outbox, generation: nat, at: nat)
  {
    if Generation(o) != generation && (o.row.state.Pending? || o.row.state.Blocked?) && o.row.updatedAt <= at
    then o'.targets == o.targets && Released(o.row, o'.row, at) && o'.row.state.Superseded? && o'.row.nextAttempt.None?
    else o' == o
  }

  /** Everything the commit of a new generation changes. */
  ghost predicate CommitEffect(s: Store, s': Store, docs: Documents, at: nat, value: CommitOutcome)
  {
    && s' == s.(outboxes := s'.outboxes) && |s'.outboxes| == |s.outboxes| + |docs.documents|
    && (forall i :: 0 <= i < |s.outboxes| ==>
          SupersededOrSame(s.outboxes[i], s'.outboxes[i], docs.desired.generation, at))
    && (forall j :: 0 <= j < |docs.documents| ==> FreshFor(s'.outboxes[|s.outboxes| + j], docs, docs.documents[j], at))
    && value.desired == docs.desired && value.documentCount == |docs.documents|
    && (value.changed <==> s' != s)
  }

  lemma {:induction false} InsertedInOrder(outboxes: seq<Outbox>, docs: Documents, n: nat, at: nat)
    requires n <= |docs.documents| && InsertDocuments(outboxes, docs, n, at).Ok?
    ensures var after := InsertDocuments(outboxes, docs, n, at).value;
            && |after| == |outboxes| + |docs.documents| - n && outboxes <= after
            && forall j :: n <= j < |docs.documents| ==>
                             after[|outboxes| + j - n] == OutboxFor(docs, docs.documents[j], at)
    decreases |docs.documents| - n
  {
    hide Insertable, OutboxFor;
    if n < |docs.documents| {
      var o := OutboxFor(docs, docs.documents[n], at);
      InsertedInOrder(outboxes + [o], docs, n + 1, at);
      var after := InsertDocuments(outboxes, docs, n, at).value;
      assert after[|outboxes|] == (outboxes + [o])[|outboxes|];
    }
  }

  lemma OutboxForIsFresh(docs: Documents, d: Document, at: nat)
    ensures FreshFor(OutboxFor(docs, d, at), docs, d, at)
  {
  }

  /**
   * Committing a generation that has no outbox yet supersedes idle stale work and adds one fresh
   * outbox per document.
   */
  lemma CommitWrites(v: Verifier, s: Store, docs: Documents, at: nat)
    requires CommitSigned(s, v, docs, at).Ok? && OfGeneration(s.outboxes, docs.desired.generation) == []
    ensures var r := CommitSigned(s, v, docs, at).value; CommitEffect(s, r.store, docs, at, r.value)
  {
    hide Decodes, GenerationMatches, InsertDocuments, NewerThanAll, DesiredRowOk, FreshFor, OutboxFor, OfKind,
         Insertable, DocumentVerifies;
    var g := docs.desired.generation;
    assert s.desired == Some(docs.desired);
    var kept := SupersedeAll(s.outboxes, g, at);
    InsertedInOrder(kept, docs, 0, at);
    var s' := CommitSigned(s, v, docs, at).value.store;
    forall j | 0 <= j < |docs.documents| ensures FreshFor(s'.outboxes[|s.outboxes| + j], docs, docs.documents[j], at) {
      OutboxForIsFresh(docs, docs.documents[j], at);
    }
    if |docs.documents| == 0 {
      assert s'.outboxes == kept;
    }
  }

  /** The stored outbox was committed for exactly this document. */
  predicate CommittedFor(o: Outbox, docs: Documents, d: Document)
  {
    && o.row.head.binding == PresenceBinding(docs.desired.generation, d.kind, docs.desired.desiredSha, d.eventId,
       d.createdAt,
                                             docs.publicKey)
    && Key(o) == PresenceOutboxId(docs.desired.generation, d.kind, docs.desired.desiredSha, d.eventSha)
    && o.row.head.eventSha == d.eventSha && o.row.head.exactBytes == d.bytes
    && o.row.head.targetSetSha == docs.desired.targetSetSha && o.row.head.targetCount == docs.desired.targetCount
    && o.row.head.requiredCount == docs.desired.requiredCount && |o.targets| == |docs.targets|
    && forall k :: 0 <= k < |o.targets| ==>
         o.targets[k].ordinal == docs.targets[k].ordinal && o.targets[k].relayId == docs.targets[k].relayId
         && o.targets[k].required == docs.targets[k].required
  }

  /** The stored outboxes of a generation are exactly these documents, in order. */
  predicate SetStored(current: seq<Outbox>, docs: Documents)
  {
    && |current| == |docs.documents|
    && forall i :: 0 <= i < |current| ==> CommittedFor(current[i], docs, docs.documents[i])
  }

  lemma SameIsCommittedFor(o: Outbox, docs: Documents, d: Document)
    requires o.row.head.policy == PRESENCE_POLICY
    ensures SameCommitted(docs, d, o) <==> CommittedFor(o, docs, d)
  {
    if CommittedFor(o, docs, d) {
      assert forall k :: 0 <= k < |o.targets| ==> Specs(o.targets)[k] == docs.targets[k];
      assert Specs(o.targets) == docs.targets;
    }
    if SameCommitted(docs, d, o) {
      assert forall k :: 0 <= k < |o.targets| ==> Specs(o.targets)[k] == docs.targets[k];
    }
  }

  lemma StoredMatches(docs: Documents, current: seq<Outbox>)
    requires forall i :: 0 <= i < |current| ==>
               current[i].row.head.policy == PRESENCE_POLICY && TargetsValid(current[i].row.head, current[i].targets)
    ensures GenerationMatches(docs, current) == Ok(SetStored(current, docs))
  {
    hide SameCommitted, CommittedFor, TargetsValid;
    if |current| == |docs.documents| {
      forall i | 0 <= i < |current|
        ensures SameCommitted(docs, docs.documents[i], current[i])
                <==> CommittedFor(current[i], docs, docs.documents[i])
      {
        SameIsCommittedFor(current[i], docs, docs.documents[i]);
      }
    }
  }

  lemma GenerationGood(v: Verifier, s: Store, g: nat)
    requires StoreInv(v, s)
    ensures forall o :: o in OfGeneration(s.outboxes, g) ==>
              Decodes(v, o) && o.row.head.policy == PRESENCE_POLICY && TargetsValid(o.row.head, o.targets)
  {
    hide StoreInv, Decodes, OutboxOk, OutboxInv, TargetsValid, DesiredOk, Find, OfKind;
    OfKindIn(s.outboxes, g, ServiceProfile);
    OfKindIn(s.outboxes, g, ApplicationHandler);
    forall o | o in OfGeneration(s.outboxes, g)
      ensures Decodes(v, o) && o.row.head.policy == PRESENCE_POLICY && TargetsValid(o.row.head, o.targets)
    {
      var i :| 0 <= i < |s.outboxes| && s.outboxes[i] == o;
      At(v, s, i);
      PresencePolicy(v, o, s.log);
    }
  }

  /**
   * A valid set for a generation that already has outboxes is acknowledged exactly when they are
   * its own documents; any other set is refused, and nothing is written either way.
   */
  lemma StoredSetDecides(v: Verifier, s: Store, docs: Documents, at: nat)
    requires StoreInv(v, s) && s.desired == Some(docs.desired) && DesiredRowOk(docs.desired)
    requires DocumentSetError(v, docs, docs.desired).None?
    requires 1 <= |OfGeneration(s.outboxes, docs.desired.generation)| <= 2
    ensures CommitSigned(s, v, docs, at) ==
            if SetStored(OfGeneration(s.outboxes, docs.desired.generation), docs)
            then Ok(Step(s, CommitOutcome(docs.desired, |docs.documents|, false))) else Err(Invariant)
  {
    hide StoreInv, Decodes, TargetsValid, OfGeneration, GenerationMatches, SetStored, DocumentSetError, CommitFresh,
         NewerThanAll;
    GenerationGood(v, s, docs.desired.generation);
    var current := OfGeneration(s.outboxes, docs.desired.generation);
    assert forall i :: 0 <= i < |current| ==> current[i] in current;
    StoredMatches(docs, current);
  }
}
