/**
 * A run that uses up all hundred attempts of a presence target: at the last one the
 * executor's nonzero retry samples are refused, and recovery closes the attempt for good.
 */
module PresenceLastAttempt {
  import opened Prelude
  import opened Digests
  import opened Backoff
  import opened Delivery
  import opened DeliveryInvariant
  import opened Presence
  import opened PresenceInvariant
  import opened PresenceDesired
  import opened PresenceRuns
  import opened PresenceSafety
  import opened PresenceReplay
  import opened PresenceProgress
  import opened PresenceLiveness

  /** One outbox with one required target, tried `n` times and due again at `at`. */
  ghost predicate Ready(v: Verifier, w: World, n: nat, at: nat)
  {
    && WorldInv(v, w) && |w.leases| == n && |w.exposures| == n && |w.store.outboxes| == 1
    && var o := w.store.outboxes[0];
       && |o.targets| == 1 && o.targets[0].required && o.targets[0].attemptCount == n
       && o.row.state.Pending? && o.row.nextAttempt == Some(at) && o.row.updatedAt == at
       && Generation(o) == DesiredGeneration(w.store)
  }

  /** The same outbox while its attempt `n` is open under a lease issued and used at `at`. */
  ghost predicate Trying(v: Verifier, w: World, n: nat, at: nat)
  {
    && n >= 1 && WorldInv(v, w) && |w.leases| == n && |w.exposures| == n && |w.store.outboxes| == 1
    && var o := w.store.outboxes[0];
       var p := w.exposures[n - 1].prepared;
       && |o.targets| == 1 && o.targets[0].required && o.targets[0].state.Submitted? && o.targets[0].attemptCount == n
       && o.row.state.Leased? && o.row.updatedAt == at && o.row.leaseExpires == Some(at + 15_000)
       && Generation(o) == DesiredGeneration(w.store)
       && p.startedAt == at && p.lease.expiresAt == at + 15_000
       && forall finishedAt, outcome, delay :: Offers(w, n, at, finishedAt, outcome, delay)
  }

  /** An outcome for the open attempt makes a well-formed input that names it. */
  predicate Offers(w: World, n: nat, at: nat, finishedAt: nat, outcome: Outcome, delay: nat)
    requires 1 <= n == |w.exposures|
  {
    var input := InputFrom(w.exposures[n - 1].prepared, finishedAt, outcome, delay);
    at <= finishedAt && !outcome.Submitted? ==>
      && input.Ok? && StillOpen(w.store, 0, input.value) && input.value.number == n
      && input.value.outcome == outcome && input.value.retryDelay == delay
      && input.value.startedAt == at && input.value.finishedAt == finishedAt && input.value.leaseExpires == at + 15_000
  }

  // ------------------------------------------------------------------ claim and prepare

  lemma ReadyIsClaimable(v: Verifier, s: Store, o: Outbox, log: seq<Attempt>, at: nat)
    requires s.desired.Some? && DesiredOk(s.desired.value, o) && Generation(o) == DesiredGeneration(s)
    requires o.row.state.Pending? && o.row.nextAttempt == Some(at) && o.row.head.binding.PresenceBinding?
    ensures Claimable(s, o, at)
  {
  }

  lemma ReadyClaims(v: Verifier, w: World, n: nat, owner: Owner, at: nat)
    requires Ready(v, w, n, at) && at + 15_000 <= MAX_I64
    ensures OldestClaimable(w.store, v, at, 1) == Some(0)
    ensures ClaimNext(w.store, v, owner, at).Ok? && ClaimNext(w.store, v, owner, at).value.value.Some?
  {
    hide WorldInv, StoreInv, Decodes, TargetsValid, OutboxInv, OutboxOk, DesiredOk, DesiredRowOk, Claimable, ClaimNext;
    StoreOf(v, w);
    At(v, w.store, 0);
    PresencePolicy(v, w.store.outboxes[0], w.store.log);
    ReadyIsClaimable(v, w.store, w.store.outboxes[0], w.store.log, at);
    ClaimDecides(v, w.store, owner, at);
  }

  /** From a ready world a claim and a preparation at the same instant open the next attempt. */
  lemma Tries(v: Verifier, w: World, n: nat, owner: Owner, at: nat)
    requires Ready(v, w, n, at) && at + 15_000 <= MAX_I64
    ensures Trying(v, Next(v, Next(v, w, Claim(owner, at)), Prepare(n, at)), n + 1, at)
  {
    hide WorldInv, StoreInv, ClaimNext, PrepareNext, Issues, Prepares, FindDue, NoneSubmitted, Evolves, Generation,
         DesiredGeneration, Offers;
    ReadyClaims(v, w, n, owner, at);
    StoreOf(v, w);
    var s := w.store;
    var claimed := ClaimNext(s, v, owner, at).value;
    var lease := claimed.value.value;
    var w1 := Next(v, w, Claim(owner, at));
    NextInv(v, w, Claim(owner, at));
    NextInv(v, w1, Prepare(n, at));
    StoreOf(v, w1);
    ClaimIssues(v, s, owner, at);
    IssuedFacts(s, claimed.store, 0, lease);
    IssuedTargets(v, s, owner, at);
    ClaimedLease(v, s, owner, at);
    ClaimKeepsDesired(v, s, owner, at);
    SameGeneration(s, claimed.store);
    LeasePrepares(v, claimed.store, lease, 0, at);
    PrepareKeepsDesired(v, claimed.store, lease, at);
    var r := PrepareNext(claimed.store, v, lease, at).value;
    SameGeneration(claimed.store, r.store);
    var i, k := PrepareFacts(v, claimed.store, lease, at);
    PreparedSingle(claimed.store, r.store, r.value, i, k, at);
    var w2 := Next(v, w1, Prepare(n, at));
    assert w2.exposures[n].prepared == r.value;
    var m := n + 1;
    forall finishedAt, outcome, delay ensures Offers(w2, m, at, finishedAt, outcome, delay) {
      OffersOpen(v, claimed.store, lease, w2, m, at, finishedAt, outcome, delay);
    }
  }

  lemma SameGeneration(s: Store, s': Store)
    requires s.desired == s'.desired
    ensures DesiredGeneration(s) == DesiredGeneration(s')
  {
  }

  /** A claim changes the row of the only outbox and no target. */
  lemma IssuedTargets(v: Verifier, s: Store, owner: Owner, at: nat)
    requires |s.outboxes| == 1 && ClaimNext(s, v, owner, at).Ok? && ClaimNext(s, v, owner, at).value.value.Some?
    ensures var lease := ClaimNext(s, v, owner, at).value.value.value;
            && ClaimNext(s, v, owner, at).value.store.outboxes == [lease.outbox]
            && lease.outbox.targets == s.outboxes[0].targets && lease.outbox.row.head == s.outboxes[0].row.head
            && Generation(lease.outbox) == Generation(s.outboxes[0])
  {
    hide Decodes, TargetsValid, StaleError;
  }

  lemma PreparedSingle(s: Store, s': Store, p: Prepared, i: nat, k: nat, at: nat)
    requires Prepares(s, s', p, i, k, at) && |s.outboxes| == 1 && |s.outboxes[0].targets| == 1
    ensures i == 0 && k == 0 && |s'.outboxes| == 1 && s'.outboxes[0].row == s.outboxes[0].row
    ensures |s'.outboxes[0].targets| == 1 && s'.outboxes[0].targets[0].state.Submitted?
    ensures s'.outboxes[0].targets[0].attemptCount == s.outboxes[0].targets[0].attemptCount + 1
    ensures s'.outboxes[0].targets[0].required == s.outboxes[0].targets[0].required
    ensures Generation(s'.outboxes[0]) == Generation(s.outboxes[0])
    ensures p.startedAt == at && p.target.attemptCount == s.outboxes[0].targets[0].attemptCount + 1
  {
    hide TargetIsDue;
  }

  lemma OffersOpen(v: Verifier, s: Store, lease: Lease, w: World, n: nat, at: nat, finishedAt: nat, outcome: Outcome,
                   delay: nat)
    requires StoreInv(v, s) && |s.outboxes| == 1 && PrepareNext(s, v, lease, at).Ok? && 1 <= n == |w.exposures|
    requires w.store == PrepareNext(s, v, lease, at).value.store
    requires w.exposures[n - 1].prepared == PrepareNext(s, v, lease, at).value.value
    requires w.exposures[n - 1].prepared.target.attemptCount == n && lease.expiresAt == at + 15_000
    ensures Offers(w, n, at, finishedAt, outcome, delay)
  {
    hide StoreInv, PrepareNext, InputFrom, StillOpen;
    var i := PreparedIsOpen(v, s, lease, at, finishedAt, outcome, delay);
    if at <= finishedAt && !outcome.Submitted? {
      OnlyIndex(w.store, i, InputFrom(w.exposures[n - 1].prepared, finishedAt, outcome, delay).value, s, v, lease, at);
    }
  }

  lemma OnlyIndex(s': Store, i: nat, input: RecordInput, s: Store, v: Verifier, lease: Lease, at: nat)
    requires StillOpen(s', i, input) && |s.outboxes| == 1 && PrepareNext(s, v, lease, at).Ok?
    requires s' == PrepareNext(s, v, lease, at).value.store
    ensures i == 0
  {
    hide Decodes, TargetsValid, StaleError, FindDue;
  }

  // ------------------------------------------------------------------ one failed round

  function Round(n: nat, owner: Owner, at: nat): seq<Action>
  {
    [Claim(owner, at), Prepare(n, at), Record(n, at, Outcome.Failed, 0)]
  }

  /** The disposition of one required target that waits for its retry. */
  lemma SingleDisposition(h: Head, ts: seq<Target>, at: nat)
    requires Disposition(h, ts).Ok? && |ts| == 1 && ts[0].required && ts[0].state.Failed?
             && ts[0].nextAttempt == Some(at)
    ensures Disposition(h, ts).value == Disposal(OutboxState.Pending, Some(at))
  {
    hide TargetsValid;
    assert ts[..0] == [];
    assert !ts[0].state.Accepted? && !TargetIsBlocking(ts[0], h.policy.maxAttempts);
  }

  lemma RecordKeepsDesired(v: Verifier, s: Store, input: RecordInput)
    requires RecordOutcome(s, v, input).Ok?
    ensures RecordOutcome(s, v, input).value.store.desired == s.desired
  {
    hide Decodes, TargetsValid, StaleError, OutcomeSchedule, Disposition;
  }

  /** What a failure with no delay, below the last attempt, leaves in the store. */
  lemma FailedLeaves(v: Verifier, s: Store, input: RecordInput, n: nat, at: nat)
    requires StoreInv(v, s) && |s.outboxes| == 1 && |s.outboxes[0].targets| == 1 && s.outboxes[0].targets[0].required
    requires StillOpen(s, 0, input) && input.number == n < 100 && input.outcome.Failed? && input.retryDelay == 0
    requires input.finishedAt == at && RecordOutcome(s, v, input).Ok?
    ensures var s' := RecordOutcome(s, v, input).value.store;
            && |s'.outboxes| == 1
            && var o := s'.outboxes[0];
               && |o.targets| == 1 && o.targets[0].required && o.targets[0].attemptCount == n
               && o.row.state.Pending? && o.row.nextAttempt == Some(at) && o.row.updatedAt == at
               && Generation(o) == Generation(s.outboxes[0])
  {
    hide StoreInv, RecordOutcome, Recorded, StillOpen, Later, Decodes, TargetsValid, OutboxInv, OutboxOk, DesiredOk,
         Evolves;
    At(v, s, 0);
    PresencePolicy(v, s.outboxes[0], s.log);
    OpenKey(v, s, input);
    FirstRecordLeaves(v, s, input);
    RecordStep(v, s, input);
    var s' := RecordOutcome(s, v, input).value.store;
    LaterSingle(s, s');
    RecordedFailed(s'.outboxes[0], input, RecordOutcome(s, v, input).value.value, n, at);
  }

  lemma OpenKey(v: Verifier, s: Store, input: RecordInput)
    requires StoreInv(v, s) && StillOpen(s, 0, input) && |s.outboxes| == 1
    ensures Find(s.outboxes, input.outboxId) == Some(0) && FindAttempt(s.log, input.id).None?
  {
    hide StoreInv, OutboxInv, OutboxOk, Decodes, TargetsValid, DesiredOk;
    At(v, s, 0);
    OpenNotLogged(s.outboxes[0], s.log, input.ordinal);
  }

  lemma LaterSingle(s: Store, s': Store)
    requires Evolves(s, s') && |s.outboxes| == 1 == |s'.outboxes| && |s.outboxes[0].targets| == 1
    ensures |s'.outboxes[0].targets| == 1 && s'.outboxes[0].targets[0].required == s.outboxes[0].targets[0].required
    ensures s'.outboxes[0].row.head == s.outboxes[0].row.head
            && s'.outboxes[0].targets[0].ordinal == s.outboxes[0].targets[0].ordinal
    ensures Generation(s'.outboxes[0]) == Generation(s.outboxes[0])
  {
    var a, b := s.outboxes[0], s'.outboxes[0];
    assert Later(a, b);
    assert |b.targets| == |Specs(b.targets)| == |Specs(a.targets)| == 1;
    assert Specs(a.targets)[0] == Specs(b.targets)[0];
  }

  lemma RecordedFailed(o: Outbox, input: RecordInput, value: AttemptCommit, n: nat, at: nat)
    requires Recorded(o, input, value) && |o.targets| == 1 && o.targets[0].required
             && o.row.head.policy == PRESENCE_POLICY
    requires input.number == n < 100 && input.outcome.Failed? && input.retryDelay == 0 && input.finishedAt == at
    ensures o.targets[0].attemptCount == n && o.row.state.Pending? && o.row.nextAttempt == Some(at)
            && o.row.updatedAt == at
  {
    hide Disposition;
    SingleDisposition(o.row.head, o.targets, at);
  }

  lemma RoundRuns(v: Verifier, w: World, n: nat, owner: Owner, at: nat)
    ensures Run(v, w, Round(n, owner, at))
            == Next(v, Next(v, Next(v, w, Claim(owner, at)), Prepare(n, at)), Record(n, at, Outcome.Failed, 0))
  {
    hide Next;
    var x, y, z := Claim(owner, at), Prepare(n, at), Record(n, at, Outcome.Failed, 0);
    RunStep(v, w, [], x);
    RunStep(v, w, [x], y);
    RunStep(v, w, [x, y], z);
    assert [] + [x] == [x] && [x] + [y] == [x, y] && [x, y] + [z] == [x, y, z];
  }

  /** A failed round below the last attempt makes the outbox ready for the next one. */
  lemma RoundAdvances(v: Verifier, w: World, n: nat, owner: Owner, at: nat)
    requires Ready(v, w, n, at) && n < 99 && at + 15_000 <= MAX_I64
    ensures Ready(v, Run(v, w, Round(n, owner, at)), n + 1, at)
  {
    hide Ready, WorldInv, StoreInv, StillOpen, InputFrom, RecordOutcome, Generation, DesiredGeneration, Admissible,
         Run, Round, Evolves;
    Tries(v, w, n, owner, at);
    RoundRuns(v, w, n, owner, at);
    var w2 := Next(v, Next(v, w, Claim(owner, at)), Prepare(n, at));
    var w3 := Next(v, w2, Record(n, at, Outcome.Failed, 0));
    NextInv(v, w2, Record(n, at, Outcome.Failed, 0));
    StoreOf(v, w2);
    assert Offers(w2, n + 1, at, at, Outcome.Failed, 0);
    var input := InputFrom(w2.exposures[n].prepared, at, Outcome.Failed, 0).value;
    RecordDecides(v, w2.store, 0, input);
    ZeroAdmissible(n + 1, at);
    FailedLeaves(v, w2.store, input, n + 1, at);
    RecordKeepsDesired(v, w2.store, input);
    SameGeneration(w2.store, w3.store);
    BecomesReady(v, w3, n + 1, at);
  }

  lemma ZeroAdmissible(n: nat, at: nat)
    requires at <= MAX_I64 && 1 <= n <= 99
    ensures Admissible(n, Outcome.Failed, at, 0)
  {
    BoundMonotone(PRESENCE_POLICY, 1, n);
  }

  lemma BecomesReady(v: Verifier, w: World, n: nat, at: nat)
    requires WorldInv(v, w) && |w.leases| == n && |w.exposures| == n && |w.store.outboxes| == 1
    requires var o := w.store.outboxes[0];
       && |o.targets| == 1 && o.targets[0].required && o.targets[0].attemptCount == n
       && o.row.state.Pending? && o.row.nextAttempt == Some(at) && o.row.updatedAt == at
       && Generation(o) == DesiredGeneration(w.store)
    ensures Ready(v, w, n, at)
  {
    hide WorldInv;
  }

  // ------------------------------------------------------------------ the whole run

  /** A set of one document for one required target. */
  predicate SingleSet(v: Verifier, a: Authority, docs: Documents)
  {
    && Derived(a) && a.mode.Enabled? && DocumentSetError(v, docs, DesiredRow(a, 1)).None?
    && |docs.documents| == 1 && docs.documents[0].createdAt <= MAX_I64
    && |docs.targets| == 1 && docs.targets[0].required && SpecFits(docs.targets[0])
  }

  function Rounds(n: nat, owner: Owner, at: nat): seq<Action>
  {
    if n == 0 then [] else Rounds(n - 1, owner, at) + Round(n - 1, owner, at)
  }

  lemma {:induction false} RunSplit(v: Verifier, w: World, xs: seq<Action>, ys: seq<Action>)
    ensures Run(v, w, xs + ys) == Run(v, Run(v, w, xs), ys)
  {
    hide Next;
    if |ys| == 0 {
      assert xs + ys == xs;
    } else {
      var m := |ys| - 1;
      RunSplit(v, w, xs, ys[..m]);
      assert xs + ys == (xs + ys[..m]) + [ys[m]];
      RunStep(v, w, xs + ys[..m], ys[m]);
    }
  }

  lemma {:induction false} RoundsAdvance(v: Verifier, w: World, n: nat, owner: Owner, at: nat)
    requires Ready(v, w, 0, at) && n <= 99 && at + 15_000 <= MAX_I64
    ensures Ready(v, Run(v, w, Rounds(n, owner, at)), n, at)
  {
    hide Ready, Round;
    if n > 0 {
      RoundsAdvance(v, w, n - 1, owner, at);
      RunSplit(v, w, Rounds(n - 1, owner, at), Round(n - 1, owner, at));
      RoundAdvances(v, Run(v, w, Rounds(n - 1, owner, at)), n - 1, owner, at);
    }
  }

  /** The world with generation 1 committed. */
  function Committed(v: Verifier, a: Authority, docs: Documents, at: nat): World
  {
    Next(v, Next(v, Next(v, START, BindConfig(ConfigBinding(a.configurationSha, a.publicKey))), SetDesired(a)),
      Commit(docs, at))
  }

  lemma CommittedIsReady(v: Verifier, a: Authority, docs: Documents, at: nat)
    requires SingleSet(v, a, docs)
    ensures Ready(v, Committed(v, a, docs, at), 0, at)
  {
    hide WorldInv, StoreInv, Derived, DocumentSetError, TargetsFit, CommitSigned, CommitDesired, OutboxFor,
         NewerThanAll, OfGeneration, SpecFits, Evolves;
    var w2 := Next(v, Next(v, START, BindConfig(ConfigBinding(a.configurationSha, a.publicKey))), SetDesired(a));
    DesiredStored(v, a);
    StoreOf(v, w2);
    SetFits(v, a, 1, docs);
    EmptyStore(w2.store, docs, 1);
    CommitDecides(v, w2.store, a, 1, docs, at);
    CommitLeavesDue(v, w2.store, docs, at);
    NextInv(v, w2, Commit(docs, at));
    FreshSingle(docs, at);
  }

  lemma FreshSingle(docs: Documents, at: nat)
    requires |docs.documents| == 1 && |docs.targets| == 1 && docs.targets[0].required
    ensures var o := OutboxFor(docs, docs.documents[0], at);
            && |o.targets| == 1 && o.targets[0].required && o.targets[0].attemptCount == 0
            && o.row.state.Pending? && o.row.nextAttempt == Some(at) && o.row.updatedAt == at
            && Generation(o) == docs.desired.generation
  {
  }

  /** All hundred attempts: ninety-nine failed rounds, then the last claim and preparation. */
  function LastTurn(a: Authority, docs: Documents, owner: Owner, at: nat): seq<Action>
  {
    [BindConfig(ConfigBinding(a.configurationSha, a.publicKey)), SetDesired(a), Commit(docs, at)]
    + Rounds(99, owner, at) + [Claim(owner, at)] + [Prepare(99, at)]
  }

  lemma LastTurnRuns(v: Verifier, a: Authority, docs: Documents, owner: Owner, at: nat)
    ensures Reach(v, LastTurn(a, docs, owner, at))
            == Next(v, Next(v, Run(v, Committed(v, a, docs, at), Rounds(99, owner, at)), Claim(owner, at)),
              Prepare(99, at))
  {
    hide Next, Rounds;
    var x, y, z := BindConfig(ConfigBinding(a.configurationSha, a.publicKey)), SetDesired(a), Commit(docs, at);
    RunStep(v, START, [], x);
    RunStep(v, START, [x], y);
    RunStep(v, START, [x, y], z);
    assert [] + [x] == [x] && [x] + [y] == [x, y] && [x, y] + [z] == [x, y, z];
    RunSplit(v, START, [x, y, z], Rounds(99, owner, at));
    RunStep(v, START, [x, y, z] + Rounds(99, owner, at), Claim(owner, at));
    RunStep(v, START, [x, y, z] + Rounds(99, owner, at) + [Claim(owner, at)], Prepare(99, at));
  }

  /** Recovery at this instant reads a zero ceiling, logs the attempt as Unknown and schedules nothing. */
  predicate ExpiryCloses(v: Verifier, s: Store, now: nat)
  {
    var read := ReadExpiredCandidate(s, v, now);
    && read.Ok? && read.value.Some? && read.value.value.retryUpperBound == 0
    && |s.outboxes| == 1 && |s.outboxes[0].targets| == 1
    && var r := RecoverExpired(s, v, read.value.value, now, 0);
       && r.Ok? && |r.value.store.outboxes| == 1 && |r.value.store.outboxes[0].targets| == 1
       && r.value.store.outboxes[0].targets[0].state.Unknown?
          && r.value.store.outboxes[0].targets[0].attemptCount == 100
       && r.value.store.outboxes[0].targets[0].nextAttempt.None?
       && |r.value.store.log| == |s.log| + 1 && r.value.store.log[|s.log|].outcome == Outcome.Unknown
       && Some(r.value.store.log[|s.log|].id) == s.outboxes[0].targets[0].lastAttempt
  }

  /**
   * Every single-target document set reaches attempt 100 on a run of the executor's own steps;
   * there every sampled nonzero delay of a retryable outcome is refused as invalid input, and
   * recovery after expiry closes the attempt as Unknown with nothing scheduled.
   */
  lemma LastAttemptReachable(v: Verifier, a: Authority, docs: Documents, owner: Owner, at: nat,
                             finishedAt: nat, outcome: Outcome, delay: nat)
    requires SingleSet(v, a, docs) && at + 15_000 <= MAX_I64
    requires RetryableOutcome(outcome) && delay >= 1 && ExecutorSamples(100, outcome, delay)
    requires at <= finishedAt < at + 15_000
    ensures var w := Reach(v, LastTurn(a, docs, owner, at));
            && |w.exposures| == 100
            && var input := InputFrom(w.exposures[99].prepared, finishedAt, outcome, delay);
               && input.Ok? && input.value.number == 100
               && RecordOutcome(w.store, v, input.value) == Err(InvalidInput)
    ensures ExecutorSamples(100, outcome, 1)
    ensures ExpiryCloses(v, Reach(v, LastTurn(a, docs, owner, at)).store, at + 15_000)
  {
    hide ExecutorSamples, Admissible, SingleSet, Ready, WorldInv, StoreInv, LastTurn, Reach, Run, Next, Committed,
         Rounds, RecordOutcome, InputFrom, StillOpen, ExpiryCloses, Generation, DesiredGeneration;
    LastInadmissible(outcome, finishedAt, delay);
    CommittedIsReady(v, a, docs, at);
    RoundsAdvance(v, Committed(v, a, docs, at), 99, owner, at);
    Tries(v, Run(v, Committed(v, a, docs, at), Rounds(99, owner, at)), 99, owner, at);
    LastTurnRuns(v, a, docs, owner, at);
    var w := Reach(v, LastTurn(a, docs, owner, at));
    StoreOf(v, w);
    assert Offers(w, 100, at, finishedAt, outcome, delay);
    RecordDecides(v, w.store, 0, InputFrom(w.exposures[99].prepared, finishedAt, outcome, delay).value);
    RecoversLast(v, w.store, at + 15_000);
  }

  /** At attempt 100 the executor may sample delay 1, and no nonzero delay is admissible. */
  lemma LastInadmissible(outcome: Outcome, finishedAt: nat, delay: nat)
    requires RetryableOutcome(outcome) && delay >= 1
    ensures ExecutorSamples(100, outcome, 1) && !Admissible(100, outcome, finishedAt, delay)
  {
    BoundMonotone(PRESENCE_POLICY, 1, 100);
    hide RetryUpperBound;
  }

  lemma RecoversLast(v: Verifier, s: Store, now: nat)
    requires StoreInv(v, s) && |s.outboxes| == 1 && |s.outboxes[0].targets| == 1
             && s.outboxes[0].targets[0].state.Submitted?
    requires s.outboxes[0].targets[0].attemptCount == 100 && Expired(s.outboxes[0], now) && now <= MAX_I64
    ensures ExpiryCloses(v, s, now)
  {
    hide StoreInv, RecoverExpired, OutboxInv, OutboxOk, Decodes, TargetsValid, DesiredOk, DesiredRowOk, RecoveryAdmits,
         ReadExpiredCandidate;
    At(v, s, 0);
    PresencePolicy(v, s.outboxes[0], s.log);
    assert OpenIndex(s.outboxes[0].targets) == Some(0);
    ReadsSingle(v, s, now);
    var c := ReadExpiredCandidate(s, v, now).value.value;
    CeilingAdmits(s.outboxes[0], s.log, c.currentDesired, now, 0);
    RecoverDecides(v, s, c, 0, now, 0);
    RecoverCloses(v, s, c, 0, 0, now, 0);
  }

  lemma ReadsSingle(v: Verifier, s: Store, now: nat)
    requires StoreInv(v, s) && |s.outboxes| == 1 && Expired(s.outboxes[0], now)
    ensures var read := ReadExpiredCandidate(s, v, now);
            && read.Ok? && read.value.Some? && read.value.value.outbox == s.outboxes[0]
            && read.value.value.retryUpperBound == RecoveryCeiling(s.outboxes[0], read.value.value.currentDesired)
  {
    hide StoreInv, Decodes, TargetsValid, ReadDesired;
    CandidateReads(v, s, now);
    assert OldestExpired(s, v, now, 1) == Some(0);
  }
}
