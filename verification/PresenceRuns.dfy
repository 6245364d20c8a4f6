/**
 * Whole runs of the presence workflow.
 *
 * A world is the store plus everything workers still hold: the leases, exposed
 * attempts and recovery candidates ever handed out, most of them stale.  An
 * action lets any holder use any of them at any caller-supplied time.
 */
module PresenceRuns {
  import opened Prelude
  import opened Backoff
  import opened Delivery
  import opened DeliveryInvariant
  import opened Presence
  import opened PresenceInvariant
  import opened PresenceCommit
  import opened Exposures

  datatype World = World(
    store: Store, leases: seq<Lease>, exposures: seq<Exposure<Lease>>, candidates: seq<Candidate>)

  datatype Action =
    | BindConfig(config: ConfigBinding)
    | SetDesired(authority: Authority)
    | Commit(docs: Documents, at: nat)
    | Claim(owner: Owner, now: nat)
    | Prepare(lease: nat, at: nat)
    | Record(exposure: nat, finishedAt: nat, outcome: Outcome, delay: nat)
    | ReadExpired(now: nat)
    | Recover(candidate: nat, now: nat, delay: nat)

  const START := World(EMPTY, [], [], [])

  /** The world after an action; a refused action changes nothing. */
  function Next(v: Verifier, w: World, a: Action): World
  {
    var s := w.store;
    match a
    case BindConfig(c) => w.(store := s.(config := Some(c)))
    case SetDesired(authority) =>
      (match CommitDesired(s, authority) case Err(_) => w case Ok(r) => w.(store := r.store))
    case Commit(docs, at) =>
      (match CommitSigned(s, v, docs, at) case Err(_) => w case Ok(r) => w.(store := r.store))
    case Claim(owner, now) =>
      (match ClaimNext(s, v, owner, now)
       case Err(_) => w
       case Ok(r) => if r.value.None? then w else w.(store := r.store, leases := w.leases + [r.value.value]))
    case Prepare(l, at) =>
      if l >= |w.leases| then w
      else (match PrepareNext(s, v, w.leases[l], at)
            case Err(_) => w
            case Ok(r) => w.(store := r.store, exposures := w.exposures + [Exposure(r.value, |s.log|)]))
    case Record(e, finishedAt, outcome, delay) =>
      if e >= |w.exposures| then w
      else (match InputFrom(w.exposures[e].prepared, finishedAt, outcome, delay)
            case Err(_) => w
            case Ok(input) =>
              match RecordOutcome(s, v, input) case Err(_) => w case Ok(r) => w.(store := r.store))
    case ReadExpired(now) =>
      (match ReadExpiredCandidate(s, v, now)
       case Err(_) => w
       case Ok(c) => if c.None? then w else w.(candidates := w.candidates + [c.value]))
    case Recover(c, now, delay) =>
      if c >= |w.candidates| then w
      else (match RecoverExpired(s, v, w.candidates[c], now, delay) case Err(_) => w case Ok(r) => w.(store := r.store))
  }

  function Run(v: Verifier, w: World, actions: seq<Action>): World
  {
    if |actions| == 0 then w else Next(v, Run(v, w, actions[..|actions| - 1]), actions[|actions| - 1])
  }

  // ------------------------------------------------------------------ what workers hold

  /** An issued lease: its snapshot had nothing open and its revision was current once. */
  ghost predicate LeaseOk(s: Store, l: Lease)
  {
    && NoneSubmitted(l.outbox.targets)
    && l.outbox.row.state.Leased? && l.outbox.row.leaseOwner == Some(l.owner)
       && l.outbox.row.leaseExpires == Some(l.expiresAt)
    && exists i :: 0 <= i < |s.outboxes| && IssuedAgainst(l.outbox.row, s.outboxes[i].row)
  }

  ghost predicate LeasesInv(s: Store, leases: seq<Lease>)
  {
    && (forall i :: 0 <= i < |leases| ==> LeaseOk(s, leases[i]))
    && (forall i, j :: 0 <= i < j < |leases| && Key(leases[i].outbox) == Key(leases[j].outbox) ==>
          leases[i].outbox.row.revision < leases[j].outbox.row.revision)
  }

  /** The retry ceiling recovery samples from. */
  function RecoveryCeiling(o: Outbox, current: bool): nat
  {
    match OpenIndex(o.targets)
    case None => 0
    case Some(k) =>
      if current && o.targets[k].attemptCount < o.row.head.policy.maxAttempts
      then RetryUpperBound(PRESENCE_POLICY, o.targets[k].attemptCount) else 0
  }

  predicate CandidateOk(s: Store, c: Candidate)
  {
    && c.retryUpperBound == RecoveryCeiling(c.outbox, c.currentDesired)
    && (!c.currentDesired ==> Generation(c.outbox) < DesiredGeneration(s))
  }

  ghost predicate WorldInv(v: Verifier, w: World)
  {
    && StoreInv(v, w.store)
    && LeasesInv(w.store, w.leases)
    && ExposuresInv(w.store.outboxes, w.store.log, w.exposures)
    && (forall i :: 0 <= i < |w.candidates| ==> CandidateOk(w.store, w.candidates[i]))
  }

  // ------------------------------------------------------------------ held values stay good as the store moves on

  lemma LeasesKept(s: Store, s': Store, leases: seq<Lease>)
    requires LeasesInv(s, leases) && Evolves(s, s')
    ensures LeasesInv(s', leases)
  {
    forall l | l in leases && LeaseOk(s, l) ensures LeaseOk(s', l) {
      var i :| 0 <= i < |s.outboxes| && IssuedAgainst(l.outbox.row, s.outboxes[i].row);
      assert Later(s.outboxes[i], s'.outboxes[i]);
      assert IssuedAgainst(l.outbox.row, s'.outboxes[i].row);
    }
  }

  /** Everything held outside the store survives a transaction that submits nothing. */
  lemma HeldKept(v: Verifier, w: World, s': Store)
    requires WorldInv(v, w) && StoreInv(v, s') && Evolves(w.store, s') && CountsKept(w.store.outboxes, s'.outboxes)
    ensures WorldInv(v, w.(store := s'))
  {
    hide AllOk, AllDesired, LogOk, LeasesInv, ExposuresInv, AllPairs;
    LeasesKept(w.store, s', w.leases);
    PairsDistinct(s'.outboxes);
    LaterOf(w.store, s');
    ExposuresKept(w.store.outboxes, w.store.log, s'.outboxes, s'.log, w.exposures);
    hide Evolves, CountsKept, AllLater, DistinctKeys;
    assert DesiredGeneration(w.store) <= DesiredGeneration(s') by { GenerationGrows(w.store, s'); }
  }

  lemma PairsDistinct(outboxes: seq<Outbox>)
    requires AllPairs(outboxes)
    ensures DistinctKeys(outboxes)
  {
    forall i, j | 0 <= i < j < |outboxes| ensures Key(outboxes[i]) != Key(outboxes[j]) {
      assert PairOk(outboxes[i], outboxes[j]);
    }
  }

  lemma LaterOf(s: Store, s': Store)
    requires Evolves(s, s')
    ensures AllLater(s.outboxes, s'.outboxes) && s.log <= s'.log
  {
    hide Later;
  }

  lemma GenerationGrows(s: Store, s': Store)
    requires Evolves(s, s')
    ensures DesiredGeneration(s) <= DesiredGeneration(s')
  {
  }

  // ------------------------------------------------------------------ each action keeps the world invariant

  lemma ClaimCounts(v: Verifier, s: Store, owner: Owner, now: nat)
    requires ClaimNext(s, v, owner, now).Ok?
    ensures CountsKept(s.outboxes, ClaimNext(s, v, owner, now).value.store.outboxes)
  {
    hide Decodes, TargetsValid, StaleError;
  }

  lemma RecordCounts(v: Verifier, s: Store, input: RecordInput)
    requires RecordOutcome(s, v, input).Ok?
    ensures CountsKept(s.outboxes, RecordOutcome(s, v, input).value.store.outboxes)
  {
    hide Decodes, TargetsValid, StaleError, Disposition, OutcomeSchedule;
  }

  lemma {:induction false} CloseCounts(o: Outbox, owner: Owner, expires: nat, ts: seq<Target>, log: seq<Attempt>,
                                       i: nat, now: nat, delay: nat)
    requires i <= |ts| && CloseSubmitted(o, owner, expires, ts, log, i, now, delay).Ok?
    ensures var c := CloseSubmitted(o, owner, expires, ts, log, i, now, delay).value.targets;
            |c| == |ts| && forall k :: 0 <= k < |ts| ==> c[k].attemptCount == ts[k].attemptCount
    decreases |ts| - i
  {
    hide OutcomeSchedule;
    if i < |ts| {
      if !ts[i].state.Submitted? {
        CloseCounts(o, owner, expires, ts, log, i + 1, now, delay);
      } else {
        var input := UnknownInput(o, ts[i], ts[i].lastAttempt.value, owner, expires, now, delay);
        var sched := OutcomeSchedule(o.row.head.policy, input).value;
        var closed := ts[i := CloseTarget(ts[i], sched, now)];
        CloseCounts(o, owner, expires, closed, log + [AttemptFrom(input)], i + 1, now, delay);
      }
    }
  }

  lemma RecoverCounts(v: Verifier, s: Store, c: Candidate, now: nat, delay: nat)
    requires RecoverExpired(s, v, c, now, delay).Ok?
    ensures CountsKept(s.outboxes, RecoverExpired(s, v, c, now, delay).value.store.outboxes)
  {
    hide Decodes, TargetsValid, Disposition, CloseSubmitted;
    var o := s.outboxes[ReadOutbox(s, v, Key(c.outbox), LeaseLost).value];
    CloseCounts(o, o.row.leaseOwner.value, o.row.leaseExpires.value, o.targets, s.log, 0, now, delay);
  }

  lemma {:induction false} InsertCounts(outboxes: seq<Outbox>, docs: Documents, n: nat, at: nat)
    requires n <= |docs.documents| && InsertDocuments(outboxes, docs, n, at).Ok?
    ensures var after := InsertDocuments(outboxes, docs, n, at).value;
            && outboxes <= after
            && forall i :: |outboxes| <= i < |after| ==>
                 forall k :: 0 <= k < |after[i].targets| ==> after[i].targets[k].attemptCount == 0
    decreases |docs.documents| - n
  {
    hide Insertable;
    if n < |docs.documents| {
      InsertCounts(outboxes + [OutboxFor(docs, docs.documents[n], at)], docs, n + 1, at);
    }
  }

  lemma CommitCounts(v: Verifier, s: Store, docs: Documents, at: nat)
    requires CommitSigned(s, v, docs, at).Ok?
    ensures CountsKept(s.outboxes, CommitSigned(s, v, docs, at).value.store.outboxes)
  {
    hide Decodes, GenerationMatches, InsertDocuments, NewerThanAll, DocumentSetError, OfGeneration;
    var d := s.desired.value;
    if |OfGeneration(s.outboxes, d.generation)| == 0 {
      InsertCounts(SupersedeAll(s.outboxes, d.generation, at), docs, 0, at);
    }
  }

  /** The lease a claim issues is the new row of the outbox it picked. */
  predicate Issues(s: Store, s': Store, i: nat, l: Lease)
  {
    && i < |s.outboxes| == |s'.outboxes| && s'.outboxes[i] == l.outbox
    && l.outbox.row.head == s.outboxes[i].row.head && l.outbox.row.revision == s.outboxes[i].row.revision + 1
    && NoneSubmitted(l.outbox.targets) && l.outbox.row.state.Leased?
    && l.outbox.row.leaseOwner == Some(l.owner) && l.outbox.row.leaseExpires == Some(l.expiresAt)
  }

  lemma ClaimIssues(v: Verifier, s: Store, owner: Owner, now: nat)
    requires StoreInv(v, s) && ClaimNext(s, v, owner, now).Ok? && ClaimNext(s, v, owner, now).value.value.Some?
    ensures OldestClaimable(s, v, now, |s.outboxes|).Some?
    ensures var r := ClaimNext(s, v, owner, now).value;
            Issues(s, r.store, OldestClaimable(s, v, now, |s.outboxes|).value, r.value.value)
  {
    hide StoreInv, OutboxInv, OutboxOk, Decodes, TargetsValid, StaleError, NoneSubmitted, DesiredOk;
    var i := OldestClaimable(s, v, now, |s.outboxes|).value;
    At(v, s, i);
    ClaimKeeps(s.outboxes[i], s.log, owner, now, now + PRESENCE_POLICY.deadlineMs);
  }

  /** A claim issues a lease whose snapshot is the new row, with nothing open. */
  lemma ClaimAction(v: Verifier, w: World, owner: Owner, now: nat)
    requires WorldInv(v, w)
    ensures WorldInv(v, Next(v, w, Claim(owner, now))) && Evolves(w.store, Next(v, w, Claim(owner, now)).store)
  {
    EvolvesSelf(w.store);
    hide StoreInv, LeasesInv, ExposuresInv, CandidateOk, Evolves, CountsKept, ClaimNext, Issues;
    var s := w.store;
    if ClaimNext(s, v, owner, now).Ok? && ClaimNext(s, v, owner, now).value.value.Some? {
      var r := ClaimNext(s, v, owner, now).value;
      ClaimIssues(v, s, owner, now);
      ClaimStep(v, s, owner, now);
      ClaimCounts(v, s, owner, now);
      HeldKept(v, w, r.store);
      PairsOf(v, s);
      NewLease(s, w.leases, r.store, r.value.value, OldestClaimable(s, v, now, |s.outboxes|).value);
    }
  }

  lemma PairsOf(v: Verifier, s: Store)
    requires StoreInv(v, s)
    ensures AllPairs(s.outboxes)
  {
  }

  lemma NewLease(s: Store, leases: seq<Lease>, s': Store, l: Lease, i: nat)
    requires AllPairs(s.outboxes) && LeasesInv(s, leases) && LeasesInv(s', leases) && Issues(s, s', i, l)
    ensures LeasesInv(s', leases + [l])
  {
    hide NoneSubmitted, AllPairs;
    assert IssuedAgainst(l.outbox.row, s'.outboxes[i].row);
    forall j | 0 <= j < |leases| && Key(leases[j].outbox) == Key(l.outbox)
      ensures leases[j].outbox.row.revision < l.outbox.row.revision
    {
      assert LeaseOk(s, leases[j]);
      var m :| 0 <= m < |s.outboxes| && IssuedAgainst(leases[j].outbox.row, s.outboxes[m].row);
      FindUnique(s.outboxes, m);
      FindUnique(s.outboxes, i);
    }
  }

  /** Preparation exposes the next attempt of one target and nothing else. */
  lemma PrepareAction(v: Verifier, w: World, l: nat, at: nat)
    requires WorldInv(v, w) && l < |w.leases|
    ensures WorldInv(v, Next(v, w, Prepare(l, at))) && Evolves(w.store, Next(v, w, Prepare(l, at)).store)
  {
    EvolvesSelf(w.store);
    hide StoreInv, LeasesInv, ExposuresInv, CandidateOk, Evolves, PrepareNext, NoneSubmitted;
    var s, lease := w.store, w.leases[l];
    if PrepareNext(s, v, lease, at).Ok? {
      var r := PrepareNext(s, v, lease, at).value;
      HeldIdle(s, w.leases, l);
      PrepareStep(v, s, lease, at);
      LeasesKept(s, r.store, w.leases);
      PrepareExposes(v, s, lease, at, w.exposures);
      forall j | 0 <= j < |w.candidates| ensures CandidateOk(r.store, w.candidates[j]) {
        CandidateKept(s, r.store, w.candidates[j]);
      }
    }
  }

  lemma HeldIdle(s: Store, leases: seq<Lease>, l: nat)
    requires LeasesInv(s, leases) && l < |leases|
    ensures NoneSubmitted(leases[l].outbox.targets)
  {
    assert LeaseOk(s, leases[l]);
  }

  lemma CandidateKept(s: Store, s': Store, c: Candidate)
    requires CandidateOk(s, c) && Evolves(s, s')
    ensures CandidateOk(s', c)
  {
  }

  /** A preparation submits target `k` of outbox `i` as its next attempt and hands out the committed bytes. */
  predicate Prepares(s: Store, s': Store, p: Prepared, i: nat, k: nat, at: nat)
  {
    && i < |s.outboxes| && k < |s.outboxes[i].targets|
    && var o := s.outboxes[i];
       var t := o.targets[k];
       var id := Id(o.row.head, k, t.attemptCount + 1);
       && !t.state.Submitted? && TargetIsDue(t, o.row.head.policy.maxAttempts, at)
       && s' == s.(outboxes := s.outboxes[i := o.(targets := o.targets[k := SubmitTarget(t, id, at)])])
       && p.lease.outbox == o && p.target == SubmitTarget(t, id, at) && p.attemptId == id && p.startedAt == at
       && p.exactBytes == o.row.head.exactBytes && p.deadlineAt == p.lease.expiresAt
       && (forall m :: 0 <= m < k ==> !TargetIsDue(o.targets[m], o.row.head.policy.maxAttempts, at))
  }

  lemma PrepareFacts(v: Verifier, s: Store, lease: Lease, at: nat) returns (i: nat, k: nat)
    requires StoreInv(v, s) && PrepareNext(s, v, lease, at).Ok?
    ensures var r := PrepareNext(s, v, lease, at).value;
            Prepares(s, r.store, r.value, i, k, at) && r.value.lease == lease
  {
    hide StoreInv, Decodes, OutboxInv, OutboxOk, TargetsValid, StaleError, DesiredOk, DesiredRowOk;
    i := ReadOutbox(s, v, Key(lease.outbox), LeaseLost).value;
    At(v, s, i);
    k := FindDue(s.outboxes[i].targets, s.outboxes[i].row.head.policy.maxAttempts, at).value;
  }

  lemma PrepareExposes(v: Verifier, s: Store, lease: Lease, at: nat, es: seq<Exposure<Lease>>)
    requires StoreInv(v, s) && NoneSubmitted(lease.outbox.targets) && ExposuresInv(s.outboxes, s.log, es)
    requires PrepareNext(s, v, lease, at).Ok?
    ensures var r := PrepareNext(s, v, lease, at).value;
            ExposuresInv(r.store.outboxes, r.store.log, es + [Exposure(r.value, |s.log|)])
  {
    hide StoreInv, Evolves, ExposuresInv, PrepareNext, NoneSubmitted, AllPairs, DistinctKeys, AllLater, OutboxInv,
         OutboxOk, Decodes, TargetsValid, DesiredOk, TargetIsDue;
    var r := PrepareNext(s, v, lease, at).value;
    var i, k := PrepareFacts(v, s, lease, at);
    PrepareStep(v, s, lease, at);
    LaterOf(s, r.store);
    PairsOf(v, s);
    PairsDistinct(s.outboxes);
    At(v, s, i);
    SubmitExposes(s.outboxes, s.log, i, k, at, es, r.value);
  }

  lemma SameKey(v: Verifier, s: Store, i: nat, j: nat)
    requires StoreInv(v, s) && i < |s.outboxes| && j < |s.outboxes|
    ensures Key(s.outboxes[i]) == Key(s.outboxes[j]) <==> i == j
  {
    FindUnique(s.outboxes, i);
    FindUnique(s.outboxes, j);
  }

  /** On a kept store recovery's read never fails and names the right ceiling. */
  lemma CandidateReads(v: Verifier, s: Store, now: nat)
    requires StoreInv(v, s)
    ensures ReadExpiredCandidate(s, v, now).Ok?
    ensures ReadExpiredCandidate(s, v, now).value.Some? ==> CandidateOk(s, ReadExpiredCandidate(s, v, now).value.value)
  {
    hide StoreInv, OutboxInv, OutboxOk, Decodes, TargetsValid, CandidateFor, CandidateOk, DesiredOk, DesiredRowOk;
    if OldestExpired(s, v, now, |s.outboxes|).Some? {
      var i := OldestExpired(s, v, now, |s.outboxes|).value;
      At(v, s, i);
      SubmittedOnce(s.outboxes[i], s.log);
      OneSubmitted(s.outboxes[i].targets);
      PresencePolicy(v, s.outboxes[i], s.log);
      CandidateForOk(s, s.outboxes[i]);
    }
  }

  lemma CandidateForOk(s: Store, o: Outbox)
    requires s.desired.Some? && DesiredOk(s.desired.value, o)
    requires SubmittedAttempts(o.targets) == match OpenIndex(o.targets) case None => []
             case Some(k) => [o.targets[k].attemptCount]
    ensures CandidateOk(s, CandidateFor(s.desired.value, o))
  {
  }

  lemma PresencePolicy(v: Verifier, o: Outbox, log: seq<Attempt>)
    requires OutboxOk(v, o, log)
    ensures o.row.head.policy == PRESENCE_POLICY && o.row.head.binding.PresenceBinding?
  {
  }

  /** Every action keeps the invariant and only moves the store forward. */
  lemma NextInv(v: Verifier, w: World, a: Action)
    requires WorldInv(v, w)
    ensures WorldInv(v, Next(v, w, a)) && Evolves(w.store, Next(v, w, a).store)
  {
    EvolvesSelf(w.store);
    hide WorldInv, Evolves, CountsKept, CommitDesired, CommitSigned, InputFrom, RecordOutcome, RecoverExpired,
         ClaimNext, PrepareNext, ReadExpiredCandidate;
    var s := w.store;
    StoreOf(v, w);
    match a
    case BindConfig(c) =>
      ConfigOnly(v, s, c);
      HeldKept(v, w, s.(config := Some(c)));
    case Claim(owner, now) =>
      ClaimAction(v, w, owner, now);
    case Prepare(l, at) =>
      if l < |w.leases| {
        PrepareAction(v, w, l, at);
      }
    case ReadExpired(now) =>
      ReadAction(v, w, now);
    case SetDesired(authority) =>
      if CommitDesired(s, authority).Ok? {
        DesiredStep(v, s, authority);
        DesiredCounts(s, authority);
        HeldKept(v, w, CommitDesired(s, authority).value.store);
      }
    case Commit(docs, at) =>
      if CommitSigned(s, v, docs, at).Ok? {
        SignedStep(v, s, docs, at);
        CommitCounts(v, s, docs, at);
        HeldKept(v, w, CommitSigned(s, v, docs, at).value.store);
      }
    case Record(e, finishedAt, outcome, delay) =>
      if e < |w.exposures| {
        var input := InputFrom(w.exposures[e].prepared, finishedAt, outcome, delay);
        if input.Ok? && RecordOutcome(s, v, input.value).Ok? {
          RecordStep(v, s, input.value);
          RecordCounts(v, s, input.value);
          HeldKept(v, w, RecordOutcome(s, v, input.value).value.store);
        }
      }
    case Recover(c, now, delay) =>
      if c < |w.candidates| && RecoverExpired(s, v, w.candidates[c], now, delay).Ok? {
        RecoverStep(v, s, w.candidates[c], now, delay);
        RecoverCounts(v, s, w.candidates[c], now, delay);
        HeldKept(v, w, RecoverExpired(s, v, w.candidates[c], now, delay).value.store);
      }
  }

  lemma ReadAction(v: Verifier, w: World, now: nat)
    requires WorldInv(v, w)
    ensures WorldInv(v, Next(v, w, ReadExpired(now)))
  {
    hide StoreInv, LeasesInv, ExposuresInv, CandidateOk, ReadExpiredCandidate;
    CandidateReads(v, w.store, now);
  }

  lemma StoreOf(v: Verifier, w: World)
    requires WorldInv(v, w)
    ensures StoreInv(v, w.store)
  {
  }

  lemma ConfigOnly(v: Verifier, s: Store, c: ConfigBinding)
    requires StoreInv(v, s)
    ensures var s' := s.(config := Some(c)); StoreInv(v, s') && Evolves(s, s') && CountsKept(s.outboxes, s'.outboxes)
  {
    LaterSelf(s.outboxes);
    hide AllOk, AllPairs, AllDesired, LogOk, Later;
  }

  lemma DesiredCounts(s: Store, a: Authority)
    requires CommitDesired(s, a).Ok?
    ensures CountsKept(s.outboxes, CommitDesired(s, a).value.store.outboxes)
  {
  }

  /** From any good world, every interleaving stays good and moves the store forward. */
  lemma {:induction false} RunFrom(v: Verifier, w: World, actions: seq<Action>)
    requires WorldInv(v, w)
    ensures WorldInv(v, Run(v, w, actions)) && Evolves(w.store, Run(v, w, actions).store)
  {
    EvolvesSelf(w.store);
    hide WorldInv, Next, Evolves;
    if |actions| > 0 {
      var before := Run(v, w, actions[..|actions| - 1]);
      RunFrom(v, w, actions[..|actions| - 1]);
      NextInv(v, before, actions[|actions| - 1]);
      EvolvesTransitive(w.store, before.store, Run(v, w, actions).store);
    }
  }

  /** Every reachable world satisfies the invariant, under every interleaving. */
  lemma RunInv(v: Verifier, actions: seq<Action>)
    ensures WorldInv(v, Run(v, START, actions))
  {
    StartInv(v);
    RunFrom(v, START, actions);
  }

  lemma StartInv(v: Verifier)
    ensures WorldInv(v, START)
  {
  }
}
