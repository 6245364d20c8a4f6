/**
 * A publication lease is a plain copy of a row, and preparing an attempt does not
 * change the row, so nothing in the store stops a second preparation with the same
 * lease.  This module states exactly when that happens and what it breaks.
 */
module PublicationMisuse {
  import opened Prelude
  import opened Digests
  import opened Backoff
  import opened Delivery
  import opened DeliveryInvariant
  import opened Publication
  import opened PublicationRuns
  import opened Exposures
  import opened PublicationSafety

  /** A lease that has prepared target `k` and still validates. */
  predicate Spent(s: Store, lease: Lease, i: nat, k: nat, at: nat)
  {
    && i < |s.outboxes| && s.outboxes[i].row == lease.row && k < |s.outboxes[i].targets|
    && s.outboxes[i].targets[k].state.Submitted?
    && lease.row.state.Leased? && lease.row.leaseOwner == Some(lease.owner)
    && lease.row.leaseExpires == Some(lease.expiresAt) && at < lease.expiresAt
  }

  predicate SomeDue(o: Outbox, at: nat)
  {
    exists j :: 0 <= j < |o.targets| && TargetIsDue(o.targets[j], o.row.head.policy.maxAttempts, at)
  }

  /** Two attempts of outbox `i` are open at once. */
  predicate TwoOpen(s: Store, i: nat)
  {
    && i < |s.outboxes|
    && (exists j, k :: 0 <= j < k < |s.outboxes[i].targets|
          && s.outboxes[i].targets[j].state.Submitted? && s.outboxes[i].targets[k].state.Submitted?)
  }

  lemma DueDecodes(a: Authority, s: Store, i: nat, k: nat, at: nat)
    requires StoreInv(a, s) && i < |s.outboxes| && k < |s.outboxes[i].targets|
    requires TargetIsDue(s.outboxes[i].targets[k], s.outboxes[i].row.head.policy.maxAttempts, at)
    ensures var o := s.outboxes[i];
            DecodesTargets(o.targets[k := SubmitTarget(o.targets[k], Id(o.row.head, k, o.targets[k].attemptCount + 1),
              at)])
    ensures s.outboxes[i].targets[k].updatedAt <= at
  {
    hide StoreInv, OutboxInv, OutboxOk, DecodesRow, TargetsRead, TargetsValid, ValidRelayId;
    At(a, s, i);
    AuthorizedAt(a, s.outboxes[i], s.log);
    DueIsReady(s.outboxes[i], s.log, k, at);
  }

  /** A spent lease prepares again exactly when some other target is due. */
  lemma SecondPrepare(a: Authority, s: Store, lease: Lease, i: nat, k: nat, at: nat)
    requires StoreInv(a, s) && Spent(s, lease, i, k, at)
    ensures PrepareNext(s, lease, at).Ok? <==> SomeDue(s.outboxes[i], at)
    ensures PrepareNext(s, lease, at).Ok? ==> TwoOpen(PrepareNext(s, lease, at).value.store, i)
  {
    hide StoreInv, OutboxInv, OutboxOk, DecodesRow, TargetsRead, DecodesTargets, TargetsValid, FindDue;
    At(a, s, i);
    var o := s.outboxes[i];
    AuthorizedAt(a, o, s.log);
    var due := FindDue(o.targets, o.row.head.policy.maxAttempts, at);
    if due.Some? {
      DueDecodes(a, s, i, due.value, at);
      assert SomeDue(o, at);
      var ts := PrepareNext(s, lease, at).value.store.outboxes[i].targets;
      assert ts[due.value].state.Submitted? && ts[k].state.Submitted? && due.value != k;
    }
  }

  lemma {:induction false} TwoSubmitted(ts: seq<Target>, j: nat, k: nat)
    requires j < k < |ts| && ts[j].state.Submitted? && ts[k].state.Submitted?
    ensures |SubmittedAttempts(ts)| >= 2
  {
    var rest := ts[..|ts| - 1];
    if k < |rest| {
      TwoSubmitted(rest, j, k);
    } else {
      SomeSubmitted(rest, j);
    }
  }

  lemma {:induction false} SomeSubmitted(ts: seq<Target>, j: nat)
    requires j < |ts| && ts[j].state.Submitted?
    ensures |SubmittedAttempts(ts)| >= 1
  {
    if j < |ts| - 1 {
      SomeSubmitted(ts[..|ts| - 1], j);
    }
  }

  /**
   * While two attempts are open, recovery cannot even read the outbox: every pass that picks
   * it fails, and since the pass stops there it recovers nothing else either.
   */
  lemma RecoveryStuck(s: Store, a: Authority, i: nat, now: nat)
    requires TwoOpen(s, i) && OldestExpired(s, now, |s.outboxes|) == Some(i)
    ensures ReadExpiredCandidate(s, a, now) == Err(Invariant)
  {
    var j, k :| 0 <= j < k < |s.outboxes[i].targets|
      && s.outboxes[i].targets[j].state.Submitted? && s.outboxes[i].targets[k].state.Submitted?;
    TwoSubmitted(s.outboxes[i].targets, j, k);
    hide DecodesRow, TargetsRead, Authorized;
  }

  /**
   * Recording one of two open attempts, if it commits, ends the lease and leaves the other one
   * open outside any lease; a first outcome for that one is then refused as a lost lease.
   */
  lemma RecordOrphans(a: Authority, s: Store, i: nat, lease: Lease, input: RecordInput, other: RecordInput)
    requires i < |s.outboxes| && DistinctKeys(s.outboxes) && Find(s.outboxes, lease.row.head.id) == Some(i)
    requires FindAttempt(s.log, input.id).None? && RecordOutcome(s, lease, input).Ok?
    requires FindOrdinal(s.outboxes[i].targets, input.ordinal) != FindOrdinal(s.outboxes[i].targets, other.ordinal)
    requires FindOrdinal(s.outboxes[i].targets, other.ordinal).Some?
    requires s.outboxes[i].targets[FindOrdinal(s.outboxes[i].targets, other.ordinal).value].state.Submitted?
    ensures var s' := RecordOutcome(s, lease, input).value.store;
            && |s'.outboxes| == |s.outboxes| && !s'.outboxes[i].row.state.Leased?
            && (exists k :: 0 <= k < |s'.outboxes[i].targets| && s'.outboxes[i].targets[k].state.Submitted?)
            && (FindAttempt(s'.log, other.id).None? ==> RecordOutcome(s', lease, other).Err?)
            && forall now :: !Expired(s'.outboxes[i], now)
  {
    hide DecodesTargets, OutcomeSchedule, Disposition, ReconcileRecorded, RowShape, PolicyOk;
    var o := s.outboxes[i];
    var k := FindOrdinal(o.targets, input.ordinal).value;
    var j := FindOrdinal(o.targets, other.ordinal).value;
    var sched := OutcomeSchedule(lease.row.head.policy, input).value;
    var ts := o.targets[k := CloseTarget(o.targets[k], sched, input.finishedAt)];
    DispositionNotLeased(lease.row.head, ts);
    var s' := RecordOutcome(s, lease, input).value.store;
    assert s'.outboxes[i].targets[j] == o.targets[j];
    StillFound(s.outboxes, i, s'.outboxes[i]);
  }

  lemma StillFound(outboxes: seq<Outbox>, i: nat, o': Outbox)
    requires DistinctKeys(outboxes) && i < |outboxes| && Key(o') == Key(outboxes[i])
    ensures Find(outboxes[i := o'], Key(o')) == Some(i)
  {
    hide Find;
    var after := outboxes[i := o'];
    assert Key(after[i]) == Key(o');
    var j := Find(after, Key(o')).value;
    assert Key(outboxes[j]) == Key(outboxes[i]);
    KeyIndex(outboxes, i, j);
  }

  // ------------------------------------------------------------------ a reachable instance

  /** The first turn of the executor on one freshly committed outbox. */
  function FirstTurn(h: Head, specs: seq<TargetSpec>, owner: Owner): seq<Action>
  {
    [Enqueue(h, specs), Claim(owner, h.createdAt), Prepare(0, h.createdAt)]
  }

  lemma RunsOneByOne(a: Authority, x: Action, y: Action, z: Action)
    ensures Run(a, START, [x, y, z]) == Next(a, Next(a, Next(a, START, x), y), z)
  {
    hide Next;
    assert [x, y, z][..2] == [x, y] && [x, y][..1] == [x] && [x][..0] == [];
    assert Run(a, START, [x]) == Next(a, START, x);
    assert Run(a, START, [x, y]) == Next(a, Next(a, START, x), y);
  }

  lemma FreshStore(a: Authority, h: Head, specs: seq<TargetSpec>)
    requires Committable(a, START.store, h, specs)
    ensures StoreInv(a, Store([FreshOutbox(h, specs)], []))
    ensures Next(a, START, Enqueue(h, specs)) == World(Store([FreshOutbox(h, specs)], []), [], [], [])
  {
    StartInv(a);
    hide StoreInv, HeldInv, Evolves, FreshOutbox, Committable;
    EnqueueAction(a, START, h, specs);
    assert [] + [FreshOutbox(h, specs)] == [FreshOutbox(h, specs)];
  }

  /** A claim on a store with one due, well-formed outbox takes it. */
  lemma ClaimsOnly(a: Authority, o: Outbox, owner: Owner, now: nat)
    requires DecodesRow(o.row) && Authorized(o.row.head, a) && TargetsRead(o) && Claimable(o, now)
    requires o.row.updatedAt <= now && now + o.row.head.policy.deadlineMs <= MAX_I64
    ensures var expires := now + o.row.head.policy.deadlineMs;
            var row := ClaimRow(o.row, owner, now, expires);
            ClaimNext(Store([o], []), a, owner, now)
              == Ok(Step(Store([o.(row := row)], []), Some(Lease(row, owner, expires))))
  {
    hide DecodesRow, Authorized, TargetsRead, Claimable;
    assert OldestClaimable(Store([o], []), now, 1) == Some(0);
    var row := ClaimRow(o.row, owner, now, now + o.row.head.policy.deadlineMs);
    assert [o][0 := o.(row := row)] == [o.(row := row)];
  }

  lemma ClaimsFresh(a: Authority, h: Head, specs: seq<TargetSpec>, owner: Owner)
    requires Committable(a, START.store, h, specs) && h.createdAt + h.policy.deadlineMs <= MAX_I64
    ensures var s := Store([FreshOutbox(h, specs)], []);
            var row := ClaimRow(FreshRow(h), owner, h.createdAt, h.createdAt + h.policy.deadlineMs);
            && StoreInv(a, s)
            && ClaimNext(s, a, owner, h.createdAt) ==
               Ok(Step(Store([FreshOutbox(h, specs).(row := row)], []),
                 Some(Lease(row, owner, h.createdAt + h.policy.deadlineMs))))
  {
    hide StoreInv, OutboxInv, OutboxOk, DecodesRow, TargetsRead, DecodesTargets, TargetsValid, ClaimNext, Committable,
         FreshOutbox;
    FreshStore(a, h, specs);
    FreshFacts(h, specs);
    var s := Store([FreshOutbox(h, specs)], []);
    At(a, s, 0);
    AuthorizedAt(a, s.outboxes[0], []);
    ClaimsOnly(a, FreshOutbox(h, specs), owner, h.createdAt);
  }

  lemma FreshDue(specs: seq<TargetSpec>, h: Head, at: nat)
    requires |specs| > 0 && at >= h.createdAt && h.policy.maxAttempts > 0
    ensures FindDue(FreshOutbox(h, specs).targets, h.policy.maxAttempts, at) == Some(0)
  {
  }

  /** The world after that turn: one spent lease, one exposure, its attempt open and nothing logged. */
  ghost predicate Turned(a: Authority, w: World, h: Head, specs: seq<TargetSpec>, owner: Owner)
    requires |specs| >= 1
  {
    var expires := h.createdAt + h.policy.deadlineMs;
    var lease := Lease(ClaimRow(FreshRow(h), owner, h.createdAt, expires), owner, expires);
    var t := InitialTarget(specs[0], h.createdAt);
    && StoreInv(a, w.store) && w.store.log == [] && w.leases == [Held(lease, true)]
    && |w.store.outboxes| == 1 && w.store.outboxes[0].row == lease.row && |w.store.outboxes[0].targets| == |specs|
    && w.store.outboxes[0].targets[0] == SubmitTarget(t, Id(h, 0, 1), h.createdAt)
    && (forall k :: 1 <= k < |specs| ==> w.store.outboxes[0].targets[k] == InitialTarget(specs[k], h.createdAt))
    && |w.exposures| == 1
    && w.exposures[0].prepared == PreparedAttempt(lease, w.store.outboxes[0].targets[0], Id(h, 0, 1), h.createdAt,
       expires, h.exactBytes)
  }

  lemma FirstTurnReaches(a: Authority, h: Head, specs: seq<TargetSpec>, owner: Owner)
    requires Committable(a, START.store, h, specs) && |specs| >= 1
    requires h.createdAt + h.policy.deadlineMs <= MAX_I64
    ensures Turned(a, Reach(a, FirstTurn(h, specs, owner)), h, specs, owner)
  {
    hide StoreInv, HeldInv, OutboxInv, OutboxOk, DecodesRow, TargetsRead, DecodesTargets, TargetsValid, Evolves,
         SpecsMatch, PrepareNext, ClaimNext, ReadExpiredCandidate, FreshOutbox, Idle, NoneSubmitted, RecordOutcome,
         RecoverExpired, ExposuresInv;
    var o := FreshOutbox(h, specs);
    var expires := h.createdAt + h.policy.deadlineMs;
    var row := ClaimRow(FreshRow(h), owner, h.createdAt, expires);
    var lease := Lease(row, owner, expires);
    RunsOneByOne(a, Enqueue(h, specs), Claim(owner, h.createdAt), Prepare(0, h.createdAt));
    ClaimsFresh(a, h, specs, owner);
    FreshStore(a, h, specs);
    var w1 := Next(a, START, Enqueue(h, specs));
    var w2 := Next(a, w1, Claim(owner, h.createdAt));
    assert w2 == World(Store([o.(row := row)], []), [Held(lease, false)], [], []);
    FreshFacts(h, specs);
    FreshDue(specs, h, h.createdAt);
    var j := ClaimStep(a, w1.store, owner, h.createdAt);
    LeasePrepares(a, w2.store, lease, 0, h.createdAt);
    var p := PrepareNext(w2.store, lease, h.createdAt).value;
    assert Next(a, w2, Prepare(0, h.createdAt)) == World(p.store, [Held(lease, true)], [Exposure(p.value, 0)], []);
    ReachInv(a, FirstTurn(h, specs, owner));
    At(a, w2.store, 0);
    PreparedFirst(a, w2.store, p.store, p.value, lease, h.createdAt);
  }

  /** What the first preparation of a single outbox leaves and returns. */
  lemma PreparedFirst(a: Authority, s: Store, s': Store, p: Prepared, lease: Lease, at: nat)
    requires StoreInv(a, s) && |s.outboxes| == 1 && PrepareNext(s, lease, at) == Ok(Step(s', p))
    requires FindDue(s.outboxes[0].targets, lease.row.head.policy.maxAttempts, at) == Some(0)
    ensures s'.log == s.log && |s'.outboxes| == 1 && s'.outboxes[0].row == s.outboxes[0].row == lease.row
    ensures |s'.outboxes[0].targets| == |s.outboxes[0].targets| > 0
    ensures var t := s.outboxes[0].targets[0];
            var id := Id(lease.row.head, t.ordinal, t.attemptCount + 1);
            && s'.outboxes[0].targets[0] == SubmitTarget(t, id, at)
            && p == PreparedAttempt(lease, SubmitTarget(t, id, at), id, at, lease.expiresAt, lease.row.head.exactBytes)
    ensures forall k :: 1 <= k < |s.outboxes[0].targets| ==> s'.outboxes[0].targets[k] == s.outboxes[0].targets[k]
  {
    hide StoreInv, OutboxInv, OutboxOk, DecodesRow, TargetsRead, DecodesTargets, TargetsValid;
    var i := ReadRow(s, lease.row.head.id, LeaseLost).value;
  }

  /**
   * Every outbox with two targets reaches a state, within one executor turn, in which its
   * spent lease would open a second attempt and leave recovery stuck.
   */
  lemma MisuseReachable(a: Authority, h: Head, specs: seq<TargetSpec>, owner: Owner)
    requires Committable(a, START.store, h, specs) && |specs| >= 2
    requires h.createdAt + h.policy.deadlineMs <= MAX_I64
    ensures var w := Reach(a, FirstTurn(h, specs, owner));
            && |w.leases| == 1 && PrepareNext(w.store, w.leases[0].lease, h.createdAt).Ok?
            && var s' := PrepareNext(w.store, w.leases[0].lease, h.createdAt).value.store;
               && TwoOpen(s', 0)
               && forall now :: w.leases[0].lease.expiresAt <= now ==>
                                  ReadExpiredCandidate(s', a, now) == Err(Invariant)
  {
    hide Turned, Committable, PrepareNext, ReadExpiredCandidate, FirstTurn, Reach, TwoOpen;
    FirstTurnReaches(a, h, specs, owner);
    MisusesTurned(a, Reach(a, FirstTurn(h, specs, owner)), h, specs, owner);
  }

  lemma MisusesTurned(a: Authority, w: World, h: Head, specs: seq<TargetSpec>, owner: Owner)
    requires |specs| >= 2 && Turned(a, w, h, specs, owner)
    ensures |w.leases| == 1 && PrepareNext(w.store, w.leases[0].lease, h.createdAt).Ok?
    ensures var s' := PrepareNext(w.store, w.leases[0].lease, h.createdAt).value.store;
            && TwoOpen(s', 0)
            && forall now :: w.leases[0].lease.expiresAt <= now ==> ReadExpiredCandidate(s', a, now) == Err(Invariant)
  {
    hide StoreInv, PrepareNext, ReadExpiredCandidate, TwoOpen;
    var lease := w.leases[0].lease;
    SecondIsDue(a, w, h, specs, owner);
    SecondPrepare(a, w.store, lease, 0, 0, h.createdAt);
    var s' := PrepareNext(w.store, lease, h.createdAt).value.store;
    SecondKeepsRow(a, w.store, lease, h.createdAt);
    forall now | lease.expiresAt <= now ensures ReadExpiredCandidate(s', a, now) == Err(Invariant) {
      assert Expired(s'.outboxes[0], now);
      assert OldestExpired(s', now, 1) == Some(0);
      RecoveryStuck(s', a, 0, now);
    }
  }

  lemma SecondIsDue(a: Authority, w: World, h: Head, specs: seq<TargetSpec>, owner: Owner)
    requires |specs| >= 2 && Turned(a, w, h, specs, owner)
    ensures SomeDue(w.store.outboxes[0], h.createdAt) && h.policy.deadlineMs > 0
  {
    hide StoreInv, OutboxInv, OutboxOk, DecodesRow, TargetsRead, DecodesTargets, TargetsValid;
    At(a, w.store, 0);
    AuthorizedAt(a, w.store.outboxes[0], w.store.log);
    assert TargetIsDue(w.store.outboxes[0].targets[1], h.policy.maxAttempts, h.createdAt);
  }

  lemma FreshFacts(h: Head, specs: seq<TargetSpec>)
    ensures var o := FreshOutbox(h, specs);
            && o.row == FreshRow(h) && |o.targets| == |specs| && NoneSubmitted(o.targets)
            && forall k :: 0 <= k < |specs| ==> o.targets[k] == InitialTarget(specs[k], h.createdAt)
  {
  }

  lemma SecondKeepsRow(a: Authority, s: Store, lease: Lease, at: nat)
    requires |s.outboxes| == 1 && PrepareNext(s, lease, at).Ok?
    ensures var s' := PrepareNext(s, lease, at).value.store;
            |s'.outboxes| == 1 && s'.outboxes[0].row == s.outboxes[0].row == lease.row
  {
    hide DecodesRow, TargetsRead, DecodesTargets;
  }
}
