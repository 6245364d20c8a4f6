/**
 * Whole runs of the publication workflow under one authority.
 *
 * Leases are plain copies of a row, so the protocol is sound when each one is
 * used for one preparation, as the executor does; `PublicationMisuse` shows
 * what a second preparation does.
 */
module PublicationRuns {
  import opened Prelude
  import opened Encoding
  import opened Digests
  import opened Backoff
  import opened Delivery
  import opened DeliveryInvariant
  import opened Publication
  import opened Exposures

  /** A lease and whether it has already prepared an attempt. */
  datatype Held = Held(lease: Lease, used: bool)

  datatype World = World(store: Store, leases: seq<Held>, exposures: seq<Exposure<Lease>>, candidates: seq<Candidate>)

  datatype Action =
    | Enqueue(head: Head, specs: seq<TargetSpec>)
    | Claim(owner: Owner, now: nat)
    | Prepare(lease: nat, at: nat)
    | Record(exposure: nat, finishedAt: nat, outcome: Outcome, delay: nat)
    | ReadExpired(now: nat)
    | Recover(candidate: nat, now: nat, delay: nat)

  const START := World(Store([], []), [], [], [])

  /** What the finalization of a reconciliation commits: one fresh outbox of the authority. */
  predicate Committable(a: Authority, s: Store, h: Head, specs: seq<TargetSpec>)
  {
    && Find(s.outboxes, h.id).None? && Authorized(h, a) && PolicyOk(h.policy)
    && Sha256(h.exactBytes) == h.eventSha && SpecsMatch(h, specs)
    && (forall i :: 0 <= i < |specs| ==> ValidRelayId(specs[i].relayId))
  }

  function FreshOutbox(h: Head, specs: seq<TargetSpec>): Outbox
  {
    Outbox(FreshRow(h), seq(|specs|, i requires 0 <= i < |specs| => InitialTarget(specs[i], h.createdAt)))
  }

  function Next(a: Authority, w: World, x: Action): World
  {
    var s := w.store;
    match x
    case Enqueue(h, specs) =>
      if Committable(a, s, h, specs) then w.(store := s.(outboxes := s.outboxes + [FreshOutbox(h, specs)])) else w
    case Claim(owner, now) =>
      (match ClaimNext(s, a, owner, now)
       case Err(_) => w
       case Ok(r) => if r.value.None? then w else w.(store := r.store,
         leases := w.leases + [Held(r.value.value, false)]))
    case Prepare(l, at) =>
      if l >= |w.leases| || w.leases[l].used then w
      else (match PrepareNext(s, w.leases[l].lease, at)
            case Err(_) => w
            case Ok(r) => w.(store := r.store, leases := w.leases[l := w.leases[l].(used := true)],
                             exposures := w.exposures + [Exposure(r.value, |s.log|)]))
    case Record(e, finishedAt, outcome, delay) =>
      if e >= |w.exposures| then w
      else (match InputFrom(w.exposures[e].prepared, finishedAt, outcome, delay)
            case Err(_) => w
            case Ok(input) =>
              match RecordOutcome(s, w.exposures[e].prepared.lease, input) case Err(_) => w
                case Ok(r) => w.(store := r.store))
    case ReadExpired(now) =>
      (match ReadExpiredCandidate(s, a, now)
       case Err(_) => w
       case Ok(c) => if c.None? then w else w.(candidates := w.candidates + [c.value]))
    case Recover(c, now, delay) =>
      if c >= |w.candidates| then w
      else (match RecoverExpired(s, w.candidates[c], now, delay) case Err(_) => w case Ok(r) => w.(store := r.store))
  }

  function Run(a: Authority, w: World, actions: seq<Action>): World
  {
    if |actions| == 0 then w else Next(a, Run(a, w, actions[..|actions| - 1]), actions[|actions| - 1])
  }

  // ------------------------------------------------------------------ invariant

  ghost predicate OutboxOk(a: Authority, o: Outbox, log: seq<Attempt>)
  {
    && OutboxInv(o, log) && Authorized(o.row.head, a) && Sha256(o.row.head.exactBytes) == o.row.head.eventSha
    && RelaysOk(o.targets) && !o.row.state.Superseded?
  }

  ghost predicate AllOk(a: Authority, outboxes: seq<Outbox>, log: seq<Attempt>)
  {
    forall i :: 0 <= i < |outboxes| ==> OutboxOk(a, outboxes[i], log)
  }

  ghost predicate StoreInv(a: Authority, s: Store)
  {
    AllOk(a, s.outboxes, s.log) && DistinctKeys(s.outboxes) && LogOk(s.outboxes, s.log)
  }

  ghost predicate Evolves(s: Store, s': Store)
  {
    && s.log <= s'.log && |s.outboxes| <= |s'.outboxes|
    && (forall i :: 0 <= i < |s.outboxes| ==> Later(s.outboxes[i], s'.outboxes[i]))
  }

  /** The row was current once. */
  ghost predicate Issued(s: Store, r: Row)
  {
    exists i :: 0 <= i < |s.outboxes| && IssuedAgainst(r, s.outboxes[i].row)
  }

  /** Nothing is open while this row is still the current one. */
  ghost predicate Idle(s: Store, r: Row)
  {
    forall i :: 0 <= i < |s.outboxes| && s.outboxes[i].row == r ==> NoneSubmitted(s.outboxes[i].targets)
  }

  ghost predicate HeldOk(s: Store, h: Held)
  {
    && Issued(s, h.lease.row) && h.lease.row.state.Leased?
    && h.lease.row.leaseOwner == Some(h.lease.owner) && h.lease.row.leaseExpires == Some(h.lease.expiresAt)
    && (!h.used ==> Idle(s, h.lease.row))
  }

  predicate LeasesOrdered(leases: seq<Held>)
  {
    forall i, j :: 0 <= i < j < |leases| && leases[i].lease.row.head.id == leases[j].lease.row.head.id ==>
      leases[i].lease.row.revision < leases[j].lease.row.revision
  }

  /** While the candidate's row is current, its ceiling never exceeds the open attempt's. */
  ghost predicate CandidateOk(s: Store, c: Candidate)
  {
    && Issued(s, c.row)
    && (forall i :: 0 <= i < |s.outboxes| && s.outboxes[i].row == c.row ==> c.retryUpperBound <= Ceiling(s.outboxes[i]))
  }

  ghost predicate HeldInv(s: Store, leases: seq<Held>, candidates: seq<Candidate>)
  {
    && (forall i :: 0 <= i < |leases| ==> HeldOk(s, leases[i]))
    && LeasesOrdered(leases)
    && (forall i :: 0 <= i < |candidates| ==> CandidateOk(s, candidates[i]))
  }

  ghost predicate WorldInv(a: Authority, w: World)
  {
    && StoreInv(a, w.store) && HeldInv(w.store, w.leases, w.candidates)
    && ExposuresInv(w.store.outboxes, w.store.log, w.exposures)
  }

  // ------------------------------------------------------------------ reads never fail

  lemma FindUnique(outboxes: seq<Outbox>, i: nat)
    requires DistinctKeys(outboxes) && i < |outboxes|
    ensures Find(outboxes, Key(outboxes[i])) == Some(i)
  {
    var j := Find(outboxes, Key(outboxes[i])).value;
  }

  lemma RowDecodes(a: Authority, o: Outbox, log: seq<Attempt>)
    requires OutboxOk(a, o, log)
    ensures DecodesRow(o.row)
  {
    CountBounded(Specs(o.targets));
  }

  lemma TargetsDecode(a: Authority, o: Outbox, log: seq<Attempt>)
    requires OutboxInv(o, log) && RelaysOk(o.targets)
    ensures TargetsRead(o)
  {
    Ordinals(o);
    forall k | 0 <= k < |o.targets| ensures DecodesTarget(o.targets[k]) {
      assert TargetInv(o.row.head, o.targets[k], k, Rows(log, o.row.head.id, k));
      ClosedShape(o.row.head, o.targets[k], k, Rows(log, o.row.head.id, k));
    }
  }

  lemma At(a: Authority, s: Store, i: nat)
    requires StoreInv(a, s) && i < |s.outboxes|
    ensures OutboxOk(a, s.outboxes[i], s.log) && OutboxInv(s.outboxes[i], s.log)
    ensures Find(s.outboxes, Key(s.outboxes[i])) == Some(i)
    ensures DecodesRow(s.outboxes[i].row) && TargetsRead(s.outboxes[i])
    ensures DecodesTargets(s.outboxes[i].targets) && TargetsValid(s.outboxes[i].row.head, s.outboxes[i].targets)
    ensures forall k :: 0 <= k < |s.outboxes[i].targets| ==> s.outboxes[i].targets[k].ordinal == k
  {
    FindUnique(s.outboxes, i);
    assert OutboxOk(a, s.outboxes[i], s.log);
    RowDecodes(a, s.outboxes[i], s.log);
    TargetsDecode(a, s.outboxes[i], s.log);
    hide StoreInv;
    Ordinals(s.outboxes[i]);
  }

  // ------------------------------------------------------------------ one outbox changes

  lemma ReplaceOk(a: Authority, outboxes: seq<Outbox>, log: seq<Attempt>, i: nat, o': Outbox, extra: seq<Attempt>)
    requires AllOk(a, outboxes, log) && DistinctKeys(outboxes) && i < |outboxes|
    requires OutboxInv(o', log + extra) && Later(outboxes[i], o') && !o'.row.state.Superseded?
    requires forall j :: 0 <= j < |extra| ==> extra[j].id.outbox == Key(o')
    ensures AllOk(a, outboxes[i := o'], log + extra)
  {
    var o := outboxes[i];
    var after := outboxes[i := o'];
    forall j | 0 <= j < |after| ensures OutboxOk(a, after[j], log + extra) {
      if j == i {
        assert OutboxOk(a, o, log);
        SameRelays(o.targets, o'.targets);
      } else {
        assert OutboxOk(a, outboxes[j], log);
        assert Key(outboxes[j]) != Key(o) by { assert j < i || i < j; }
        OutboxInvFrame(outboxes[j], log, extra);
      }
    }
  }

  lemma SameRelays(ts: seq<Target>, us: seq<Target>)
    requires RelaysOk(ts) && Specs(ts) == Specs(us)
    ensures RelaysOk(us)
  {
    assert |us| == |Specs(us)| == |ts|;
    forall k | 0 <= k < |us| ensures ValidRelayId(us[k].relayId) {
      assert Specs(ts)[k] == Specs(us)[k];
    }
  }

  lemma ReplaceEvolves(s: Store, i: nat, o': Outbox, extra: seq<Attempt>)
    requires i < |s.outboxes| && Later(s.outboxes[i], o')
    ensures Evolves(s, Store(s.outboxes[i := o'], s.log + extra))
  {
    LaterSelf(s.outboxes);
    hide Later;
  }

  lemma ReplaceKeys(outboxes: seq<Outbox>, i: nat, o': Outbox)
    requires DistinctKeys(outboxes) && i < |outboxes| && Key(outboxes[i]) == Key(o')
    ensures DistinctKeys(outboxes[i := o'])
  {
  }

  /** Replaces outbox `i`, appending only log rows of its own. */
  lemma ReplaceKeeps(a: Authority, s: Store, i: nat, o': Outbox, extra: seq<Attempt>)
    requires StoreInv(a, s) && i < |s.outboxes|
    requires OutboxInv(o', s.log + extra) && Later(s.outboxes[i], o') && !o'.row.state.Superseded?
    requires forall j :: 0 <= j < |extra| ==> extra[j].id.outbox == Key(o')
    requires |extra| == 0 || (|extra| == 1 && FindAttempt(s.log, extra[0].id).None?)
    ensures var s' := Store(s.outboxes[i := o'], s.log + extra); StoreInv(a, s') && Evolves(s, s')
  {
    hide AllOk, DistinctKeys, LogOk, OutboxInv, Later, Evolves;
    ReplaceOk(a, s.outboxes, s.log, i, o', extra);
    SameHead(s.outboxes[i], o');
    ReplaceKeys(s.outboxes, i, o');
    ReplaceLog(s.outboxes, s.log, i, o', extra);
    ReplaceEvolves(s, i, o', extra);
  }

  // ------------------------------------------------------------------ held values

  lemma IssuedKept(s: Store, s': Store, r: Row)
    requires Issued(s, r) && Evolves(s, s')
    ensures Issued(s', r)
  {
    var i :| 0 <= i < |s.outboxes| && IssuedAgainst(r, s.outboxes[i].row);
    assert Later(s.outboxes[i], s'.outboxes[i]);
    assert IssuedAgainst(r, s'.outboxes[i].row);
  }

  /** The row of outbox `i` gained a revision, so no row issued before is current there; no attempt was submitted. */
  predicate Advances(s: Store, s': Store, i: nat)
  {
    && i < |s.outboxes| == |s'.outboxes| && Key(s.outboxes[i]) == Key(s'.outboxes[i])
    && s.outboxes[i].row.revision < s'.outboxes[i].row.revision && SameCounts(s.outboxes[i], s'.outboxes[i])
    && (forall j :: 0 <= j < |s.outboxes| && j != i ==> s'.outboxes[j] == s.outboxes[j])
  }

  lemma AdvancedPast(a: Authority, s: Store, s': Store, i: nat, r: Row)
    requires DistinctKeys(s.outboxes) && Advances(s, s', i) && Issued(s, r)
    ensures s'.outboxes[i].row != r
  {
    var m :| 0 <= m < |s.outboxes| && IssuedAgainst(r, s.outboxes[m].row);
    if r.head.id == Key(s.outboxes[i]) {
      FindUnique(s.outboxes, m);
      FindUnique(s.outboxes, i);
    }
  }

  lemma AdvanceHeld(a: Authority, s: Store, s': Store, i: nat, leases: seq<Held>, candidates: seq<Candidate>)
    requires DistinctKeys(s.outboxes) && Evolves(s, s') && Advances(s, s', i) && HeldInv(s, leases, candidates)
    ensures HeldInv(s', leases, candidates)
  {
    hide DistinctKeys, Evolves, Issued, NoneSubmitted, Ceiling;
    forall j | 0 <= j < |leases| ensures HeldOk(s', leases[j]) {
      assert HeldOk(s, leases[j]);
      IssuedKept(s, s', leases[j].lease.row);
      AdvancedPast(a, s, s', i, leases[j].lease.row);
    }
    forall j | 0 <= j < |candidates| ensures CandidateOk(s', candidates[j]) {
      assert CandidateOk(s, candidates[j]);
      IssuedKept(s, s', candidates[j].row);
      AdvancedPast(a, s, s', i, candidates[j].row);
    }
  }

  lemma LaterOf(s: Store, s': Store)
    requires Evolves(s, s')
    ensures AllLater(s.outboxes, s'.outboxes) && s.log <= s'.log
  {
    hide Later;
  }

  lemma AdvanceCounts(s: Store, s': Store, i: nat)
    requires Advances(s, s', i)
    ensures CountsKept(s.outboxes, s'.outboxes)
  {
  }

  /** Advancing one row leaves the history of exposures as it was. */
  lemma AdvanceExposures(a: Authority, s: Store, s': Store, i: nat, es: seq<Exposure<Lease>>)
    requires StoreInv(a, s') && Evolves(s, s') && Advances(s, s', i) && ExposuresInv(s.outboxes, s.log, es)
    ensures ExposuresInv(s'.outboxes, s'.log, es)
  {
    hide StoreInv, Evolves, Advances, ExposuresInv, CountsKept, AllLater, DistinctKeys;
    KeysOf(a, s');
    LaterOf(s, s');
    AdvanceCounts(s, s', i);
    ExposuresKept(s.outboxes, s.log, s'.outboxes, s'.log, es);
  }

  lemma KeysOf(a: Authority, s: Store)
    requires StoreInv(a, s)
    ensures DistinctKeys(s.outboxes)
  {
  }

  lemma EvolvesSelf(s: Store)
    ensures Evolves(s, s)
  {
  }

  // ------------------------------------------------------------------ the actions

  lemma EnqueueAction(a: Authority, w: World, h: Head, specs: seq<TargetSpec>)
    requires WorldInv(a, w) && Committable(a, w.store, h, specs)
    ensures var w' := Next(a, w, Enqueue(h, specs)); WorldInv(a, w') && Evolves(w.store, w'.store)
  {
    hide SpecsMatch, HeldInv, OutboxOk, LogOk, DistinctKeys, Later, OutboxInv, ExposuresInv, NoAttempts, SameCounts;
    var s, o := w.store, FreshOutbox(h, specs);
    var after := s.outboxes + [o];
    FreshOk(a, s, h, specs);
    AppendKeys(s.outboxes, s.log, o);
    LaterSelf(s.outboxes);
    AppendHeld(s, o, w.leases, w.candidates);
    FreshCounts(s.outboxes, h, specs);
    ExposuresKept(s.outboxes, s.log, after, s.log, w.exposures);
  }

  lemma FreshCounts(outboxes: seq<Outbox>, h: Head, specs: seq<TargetSpec>)
    ensures CountsKept(outboxes, outboxes + [FreshOutbox(h, specs)])
  {
  }

  lemma FreshOk(a: Authority, s: Store, h: Head, specs: seq<TargetSpec>)
    requires LogOk(s.outboxes, s.log) && Committable(a, s, h, specs)
    ensures OutboxOk(a, FreshOutbox(h, specs), s.log)
  {
    var o := FreshOutbox(h, specs);
    assert Specs(o.targets) == specs;
    hide SpecsMatch;
    forall i | 0 <= i < |s.log| ensures s.log[i].id.outbox != h.id {
      assert Find(s.outboxes, s.log[i].id.outbox).Some?;
    }
    CommittedInv(h, o.targets, s.log);
  }

  lemma AppendKeys(outboxes: seq<Outbox>, log: seq<Attempt>, o: Outbox)
    requires DistinctKeys(outboxes) && LogOk(outboxes, log) && Find(outboxes, Key(o)).None?
    ensures DistinctKeys(outboxes + [o]) && LogOk(outboxes + [o], log)
  {
    forall j | 0 <= j < |log| ensures Find(outboxes + [o], log[j].id.outbox).Some? {
      var m := Find(outboxes, log[j].id.outbox).value;
      assert Key((outboxes + [o])[m]) == log[j].id.outbox;
    }
  }

  lemma AppendHeld(s: Store, o: Outbox, leases: seq<Held>, candidates: seq<Candidate>)
    requires HeldInv(s, leases, candidates) && Find(s.outboxes, Key(o)).None?
    ensures HeldInv(s.(outboxes := s.outboxes + [o]), leases, candidates)
  {
    hide NoneSubmitted, Ceiling, Find;
    var s' := s.(outboxes := s.outboxes + [o]);
    forall r | Issued(s, r) ensures Issued(s', r) && r != o.row {
      var i :| 0 <= i < |s.outboxes| && IssuedAgainst(r, s.outboxes[i].row);
      assert s'.outboxes[i] == s.outboxes[i];
      assert Key(s.outboxes[i]) != Key(o);
    }
    forall j | 0 <= j < |leases| ensures HeldOk(s', leases[j]) {
      assert HeldOk(s, leases[j]);
    }
    forall j | 0 <= j < |candidates| ensures CandidateOk(s', candidates[j]) {
      assert CandidateOk(s, candidates[j]);
    }
  }

  /** A claim leases the picked row, with nothing open behind it. */
  predicate Claims(s: Store, s': Store, i: nat, l: Lease)
  {
    && Advances(s, s', i) && s'.log == s.log && s'.outboxes[i].targets == s.outboxes[i].targets
    && s'.outboxes[i].row == l.row && l.row.head == s.outboxes[i].row.head
       && l.row.revision == s.outboxes[i].row.revision + 1
    && NoneSubmitted(s'.outboxes[i].targets) && l.row.state.Leased?
    && l.row.leaseOwner == Some(l.owner) && l.row.leaseExpires == Some(l.expiresAt)
  }

  lemma ClaimFacts(a: Authority, s: Store, owner: Owner, now: nat)
    requires ClaimNext(s, a, owner, now).Ok? && ClaimNext(s, a, owner, now).value.value.Some?
    ensures OldestClaimable(s, now, |s.outboxes|).Some?
    ensures var r, i := ClaimNext(s, a, owner, now).value, OldestClaimable(s, now, |s.outboxes|).value;
            var o := s.outboxes[i];
            var expires := now + o.row.head.policy.deadlineMs;
            && o.row.updatedAt <= now && expires <= MAX_I64 && o.row.state.Pending?
            && r.value.value == Lease(ClaimRow(o.row, owner, now, expires), owner, expires)
            && r.store == s.(outboxes := s.outboxes[i := o.(row := r.value.value.row)])
  {
    hide DecodesRow, TargetsRead, Authorized;
  }

  lemma ClaimStep(a: Authority, s: Store, owner: Owner, now: nat) returns (i: nat)
    requires StoreInv(a, s) && ClaimNext(s, a, owner, now).Ok? && ClaimNext(s, a, owner, now).value.value.Some?
    ensures var r := ClaimNext(s, a, owner, now).value;
            && StoreInv(a, r.store) && Evolves(s, r.store) && Claims(s, r.store, i, r.value.value)
            && OldestClaimable(s, now, |s.outboxes|) == Some(i)
  {
    hide StoreInv, OutboxInv, OutboxOk, DecodesRow, TargetsRead, DecodesTargets, TargetsValid, NoneSubmitted, Evolves,
         ClaimNext, Later;
    ClaimFacts(a, s, owner, now);
    i := OldestClaimable(s, now, |s.outboxes|).value;
    At(a, s, i);
    var o := s.outboxes[i];
    var row := ClaimNext(s, a, owner, now).value.value.value.row;
    DeadlinePositive(o, s.log);
    ClaimKeeps(o, s.log, owner, now, now + o.row.head.policy.deadlineMs);
    assert Later(o, o.(row := row)) by { RowLater(o, row); }
    assert s.log + [] == s.log;
    ReplaceKeeps(a, s, i, o.(row := row), []);
  }

  lemma RowLater(o: Outbox, r: Row)
    requires r.head == o.row.head && r.revision > o.row.revision
    ensures Later(o, o.(row := r))
  {
  }

  lemma DeadlinePositive(o: Outbox, log: seq<Attempt>)
    requires OutboxInv(o, log)
    ensures o.row.head.policy.deadlineMs >= 100
  {
  }

  lemma ClaimAction(a: Authority, w: World, owner: Owner, now: nat)
    requires WorldInv(a, w)
    ensures var w' := Next(a, w, Claim(owner, now)); WorldInv(a, w') && Evolves(w.store, w'.store)
  {
    EvolvesSelf(w.store);
    hide StoreInv, HeldInv, ClaimNext, Evolves, ExposuresInv, Advances, NoneSubmitted;
    var s := w.store;
    if ClaimNext(s, a, owner, now).Ok? && ClaimNext(s, a, owner, now).value.value.Some? {
      var r := ClaimNext(s, a, owner, now).value;
      var i := ClaimStep(a, s, owner, now);
      KeysOf(a, s);
      KeysOf(a, r.store);
      NewLease(a, s, r.store, i, r.value.value, w.leases, w.candidates);
      AdvanceExposures(a, s, r.store, i, w.exposures);
    }
  }

  lemma NewLease(a: Authority, s: Store, s': Store, i: nat, l: Lease, leases: seq<Held>, candidates: seq<Candidate>)
    requires DistinctKeys(s.outboxes) && DistinctKeys(s'.outboxes) && Evolves(s, s')
    requires Claims(s, s', i, l) && HeldInv(s, leases, candidates)
    ensures HeldInv(s', leases + [Held(l, false)], candidates)
  {
    hide DistinctKeys, Evolves, NoneSubmitted, CandidateOk;
    AdvanceHeld(a, s, s', i, leases, candidates);
    assert HeldOk(s', Held(l, false)) by {
      assert IssuedAgainst(l.row, s'.outboxes[i].row);
      forall j | 0 <= j < |s'.outboxes| && s'.outboxes[j].row == l.row ensures j == i {
        FindUnique(s'.outboxes, i);
        FindUnique(s'.outboxes, j);
      }
    }
    forall j | 0 <= j < |leases| && leases[j].lease.row.head.id == l.row.head.id
      ensures leases[j].lease.row.revision < l.row.revision
    {
      assert HeldOk(s, leases[j]);
      var m :| 0 <= m < |s.outboxes| && IssuedAgainst(leases[j].lease.row, s.outboxes[m].row);
      FindUnique(s.outboxes, m);
      FindUnique(s.outboxes, i);
    }
  }

  /** A preparation submits target `k` of outbox `i`, which had nothing open, and keeps its row. */
  predicate Prepares(s: Store, s': Store, p: Prepared, i: nat, k: nat, at: nat)
  {
    && i < |s.outboxes| && k < |s.outboxes[i].targets|
    && var o := s.outboxes[i];
       var t := o.targets[k];
       var id := Id(o.row.head, k, t.attemptCount + 1);
       && TargetIsDue(t, o.row.head.policy.maxAttempts, at)
       && s' == s.(outboxes := s.outboxes[i := o.(targets := o.targets[k := SubmitTarget(t, id, at)])])
       && p.lease.row == o.row && p.target == SubmitTarget(t, id, at) && p.attemptId == id && p.startedAt == at
       && p.exactBytes == o.row.head.exactBytes && p.deadlineAt == p.lease.expiresAt
       && (forall m :: 0 <= m < k ==> !TargetIsDue(o.targets[m], o.row.head.policy.maxAttempts, at))
  }

  /** A preparation read back from its result: the leased row, the first due target, its submission. */
  lemma PrepareUnfolds(s: Store, lease: Lease, at: nat) returns (i: nat, k: nat)
    requires PrepareNext(s, lease, at).Ok?
    ensures i < |s.outboxes| && s.outboxes[i].row == lease.row && lease.row.state.Leased? && at < lease.expiresAt
    ensures lease.row.leaseExpires == Some(lease.expiresAt) && lease.row.leaseOwner == Some(lease.owner)
    ensures FindDue(s.outboxes[i].targets, lease.row.head.policy.maxAttempts, at) == Some(k)
    ensures var r, o := PrepareNext(s, lease, at).value, s.outboxes[i];
            var t := o.targets[k];
            var id := Id(lease.row.head, t.ordinal, t.attemptCount + 1);
            && r.store == s.(outboxes := s.outboxes[i := o.(targets := o.targets[k := SubmitTarget(t, id, at)])])
            && r.value == PreparedAttempt(lease, SubmitTarget(t, id, at), id, at, lease.expiresAt,
               lease.row.head.exactBytes)
  {
    hide DecodesRow, TargetsRead, DecodesTargets, TargetIsDue, SubmitTarget;
    i := ReadRow(s, lease.row.head.id, LeaseLost).value;
    k := FindDue(s.outboxes[i].targets, lease.row.head.policy.maxAttempts, at).value;
  }

  lemma PrepareFacts(a: Authority, s: Store, lease: Lease, at: nat) returns (i: nat, k: nat)
    requires StoreInv(a, s) && PrepareNext(s, lease, at).Ok?
    ensures var r := PrepareNext(s, lease, at).value;
            && Prepares(s, r.store, r.value, i, k, at) && r.value.lease == lease && at < lease.expiresAt
            && s.outboxes[i].row == lease.row && lease.row.leaseExpires == Some(lease.expiresAt)
               && lease.row.state.Leased?
            && lease.row.leaseOwner == Some(lease.owner)
  {
    hide StoreInv, OutboxInv, OutboxOk, DecodesRow, TargetsRead, DecodesTargets, TargetIsDue, PrepareNext, TargetsValid,
         SubmitTarget;
    i, k := PrepareUnfolds(s, lease, at);
    At(a, s, i);
  }

  lemma SubmitLater(o: Outbox, k: nat, id: AttemptId, at: nat)
    requires k < |o.targets| && o.row.state.Leased?
    ensures Later(o, o.(targets := o.targets[k := SubmitTarget(o.targets[k], id, at)]))
  {
    assert Specs(o.targets[k := SubmitTarget(o.targets[k], id, at)]) == Specs(o.targets);
  }

  lemma PrepareStep(a: Authority, s: Store, lease: Lease, at: nat) returns (i: nat, k: nat)
    requires StoreInv(a, s) && PrepareNext(s, lease, at).Ok? && Idle(s, lease.row)
    ensures var r := PrepareNext(s, lease, at).value;
            && StoreInv(a, r.store) && Evolves(s, r.store) && Prepares(s, r.store, r.value, i, k, at)
            && s.outboxes[i].row == lease.row && NoneSubmitted(s.outboxes[i].targets)
  {
    hide StoreInv, OutboxInv, OutboxOk, PrepareNext, Evolves, TargetIsDue, Later, DecodesRow, TargetsRead,
         DecodesTargets, TargetsValid;
    i, k := PrepareFacts(a, s, lease, at);
    At(a, s, i);
    var o := s.outboxes[i];
    var id := Id(o.row.head, k, o.targets[k].attemptCount + 1);
    PrepareKeeps(o, s.log, k, at);
    SubmitLater(o, k, id, at);
    assert s.log + [] == s.log;
    ReplaceKeeps(a, s, i, o.(targets := o.targets[k := SubmitTarget(o.targets[k], id, at)]), []);
  }

  lemma PrepareAction(a: Authority, w: World, l: nat, at: nat)
    requires WorldInv(a, w)
    ensures var w' := Next(a, w, Prepare(l, at)); WorldInv(a, w') && Evolves(w.store, w'.store)
  {
    EvolvesSelf(w.store);
    hide StoreInv, PrepareNext, Prepares, Evolves, Idle, CandidateOk, Issued, LeasesOrdered, ExposuresInv,
         NoneSubmitted;
    if l < |w.leases| && !w.leases[l].used && PrepareNext(w.store, w.leases[l].lease, at).Ok? {
      assert HeldOk(w.store, w.leases[l]);
      var i, k := PrepareStep(a, w.store, w.leases[l].lease, at);
      var r := PrepareNext(w.store, w.leases[l].lease, at).value;
      hide HeldInv;
      PrepareExposes(a, w.store, r.store, r.value, i, k, at, w.exposures);
      UsedLease(a, w.store, r.store, r.value, i, k, at, l, w.leases, w.candidates);
    }
  }

  lemma PrepareExposes(a: Authority, s: Store, s': Store, p: Prepared, i: nat, k: nat, at: nat,
                       es: seq<Exposure<Lease>>)
    requires StoreInv(a, s) && Evolves(s, s') && Prepares(s, s', p, i, k, at) && NoneSubmitted(s.outboxes[i].targets)
    requires ExposuresInv(s.outboxes, s.log, es)
    ensures ExposuresInv(s'.outboxes, s'.log, es + [Exposure(p, |s.log|)])
  {
    hide StoreInv, Evolves, ExposuresInv, DistinctKeys, AllLater, OutboxInv, OutboxOk, DecodesRow, TargetsRead,
         DecodesTargets, TargetsValid, TargetIsDue;
    LaterOf(s, s');
    KeysOf(a, s);
    At(a, s, i);
    SubmitExposes(s.outboxes, s.log, i, k, at, es, p);
  }

  /** Using a lease leaves every other unused lease idle: no other has the same row. */
  lemma UsedLease(a: Authority, s: Store, s': Store, p: Prepared, i: nat, k: nat, at: nat, l: nat,
                  leases: seq<Held>, candidates: seq<Candidate>)
    requires HeldInv(s, leases, candidates) && Evolves(s, s') && Prepares(s, s', p, i, k, at)
    requires NoneSubmitted(s.outboxes[i].targets) && l < |leases| && s.outboxes[i].row == leases[l].lease.row
    ensures HeldInv(s', leases[l := leases[l].(used := true)], candidates)
  {
    hide Evolves, Issued, NoneSubmitted, Ceiling, TargetIsDue, SubmitTarget;
    var after := leases[l := leases[l].(used := true)];
    forall j | 0 <= j < |after| ensures HeldOk(s', after[j]) {
      assert HeldOk(s, leases[j]);
      IssuedKept(s, s', leases[j].lease.row);
      assert j < l || l < j ==> leases[j].lease.row != leases[l].lease.row;
    }
    NothingOpen(s.outboxes[i]);
    forall j | 0 <= j < |candidates| ensures CandidateOk(s', candidates[j]) {
      assert CandidateOk(s, candidates[j]);
      IssuedKept(s, s', candidates[j].row);
    }
  }

  lemma {:induction false} NoneOpen(ts: seq<Target>)
    requires NoneSubmitted(ts)
    ensures SubmittedAttempts(ts) == []
  {
    if |ts| > 0 {
      NoneOpen(ts[..|ts| - 1]);
    }
  }

  lemma NothingOpen(o: Outbox)
    requires NoneSubmitted(o.targets)
    ensures Ceiling(o) == 0
  {
    NoneOpen(o.targets);
  }

  /** Closing the open attempt of target `k` and ending the lease. */
  lemma CloseAndRelease(a: Authority, s: Store, i: nat, k: nat, input: RecordInput, sched: Schedule, d: Disposal)
    requires StoreInv(a, s) && i < |s.outboxes|
    requires k < |s.outboxes[i].targets| && Closes(s.outboxes[i], k, input)
    requires OutcomeSchedule(s.outboxes[i].row.head.policy, input) == Ok(sched)
    requires FindAttempt(s.log, input.id).None? && s.outboxes[i].row.updatedAt <= input.finishedAt
    requires var ts := s.outboxes[i].targets;
             Disposition(s.outboxes[i].row.head, ts[k := CloseTarget(ts[k], sched, input.finishedAt)]) == Ok(d)
    ensures var o := s.outboxes[i];
            var ts' := o.targets[k := CloseTarget(o.targets[k], sched, input.finishedAt)];
            var s' := Store(s.outboxes[i := Outbox(ReleaseRow(o.row, d, input.finishedAt), ts')],
              s.log + [AttemptFrom(input)]);
            StoreInv(a, s') && Evolves(s, s') && Advances(s, s', i)
  {
    hide OutboxInv, OutboxOk, StoreInv, TargetsValid, Evolves, Disposition, OutcomeSchedule, DecodesRow, TargetsRead,
         DecodesTargets;
    At(a, s, i);
    var o := s.outboxes[i];
    var ts' := o.targets[k := CloseTarget(o.targets[k], sched, input.finishedAt)];
    LeasedAfterCreation(o, s.log);
    CloseKeeps(o, s.log, k, input, sched, d);
    OpenAttemptId(o, s.log, k);
    assert Specs(ts') == Specs(o.targets);
    NeverSuperseded(o.row.head, ts');
    ReplaceKeeps(a, s, i, Outbox(ReleaseRow(o.row, d, input.finishedAt), ts'), [AttemptFrom(input)]);
  }

  lemma NeverSuperseded(h: Head, ts: seq<Target>)
    ensures Disposition(h, ts).Ok? ==> !Disposition(h, ts).value.state.Superseded?
  {
  }

  lemma RecordStep(a: Authority, s: Store, lease: Lease, input: RecordInput) returns (i: nat)
    requires StoreInv(a, s) && Names(lease, input) && RecordOutcome(s, lease, input).Ok?
    ensures var s' := RecordOutcome(s, lease, input).value.store;
            StoreInv(a, s') && Evolves(s, s') && (s' == s || Advances(s, s', i))
  {
    EvolvesSelf(s);
    hide OutboxInv, OutboxOk, StoreInv, TargetsValid, Evolves, Disposition, OutcomeSchedule, DecodesRow, TargetsRead,
         DecodesTargets, Advances;
    i := 0;
    if FindAttempt(s.log, input.id).None? {
      i := ReadRow(s, lease.row.head.id, LeaseLost).value;
      At(a, s, i);
      var o := s.outboxes[i];
      var k := FindOrdinal(o.targets, input.ordinal).value;
      var sched := OutcomeSchedule(o.row.head.policy, input).value;
      var d := Disposition(o.row.head, o.targets[k := CloseTarget(o.targets[k], sched, input.finishedAt)]).value;
      CloseAndRelease(a, s, i, k, input, sched, d);
    }
  }

  lemma AdvanceWorld(a: Authority, w: World, s': Store, i: nat)
    requires WorldInv(a, w) && StoreInv(a, s') && Evolves(w.store, s') && (s' == w.store || Advances(w.store, s', i))
    ensures WorldInv(a, w.(store := s'))
  {
    hide AllOk, LogOk, Evolves, Advances, HeldInv, ExposuresInv;
    if s' != w.store {
      AdvanceExposures(a, w.store, s', i, w.exposures);
      AdvanceHeld(a, w.store, s', i, w.leases, w.candidates);
    }
  }

  // ------------------------------------------------------------------ recovery

  lemma {:induction false} CloseNoEvidence(o: Outbox, owner: Owner, expires: nat, ts: seq<Target>, log: seq<Attempt>,
                                           i: nat, now: nat, delay: nat)
    requires i <= |ts| && forall k :: i <= k < |ts| ==> !ts[k].state.Submitted?
    ensures CloseWithEvidence(o, owner, expires, ts, log, i, now, delay) == Ok(Closed(ts, log))
    decreases |ts| - i
  {
    if i < |ts| {
      CloseNoEvidence(o, owner, expires, ts, log, i + 1, now, delay);
    }
  }

  /** With one open attempt the loop closes exactly that one, evidence permitting. */
  lemma {:induction false} CloseOneEvidence(o: Outbox, owner: Owner, expires: nat, ts: seq<Target>, log: seq<Attempt>,
                                            i: nat, k: nat, now: nat, delay: nat)
    requires i <= k < |ts| && ts[k].state.Submitted? && ts[k].lastAttempt.Some?
    requires forall j :: i <= j < |ts| && j != k ==> !ts[j].state.Submitted?
    ensures var input := UnknownInput(o, ts[k], ts[k].lastAttempt.value, owner, expires, now, delay);
            CloseWithEvidence(o, owner, expires, ts, log, i, now, delay) ==
            if !EvidenceOk(o.row.head, ts[k], now) || FindAttempt(log, input.id).Some? then Err(Invariant)
            else if !AttemptInsertable(log, AttemptFrom(input)) then Err(Storage)
            else match OutcomeSchedule(o.row.head.policy, input)
              case Err(e) => Err(e)
              case Ok(sched) => Ok(Closed(ts[k := CloseTarget(ts[k], sched, now)], log + [AttemptFrom(input)]))
    decreases k - i
  {
    hide EvidenceOk, OutcomeSchedule, AttemptInsertable;
    var input := UnknownInput(o, ts[k], ts[k].lastAttempt.value, owner, expires, now, delay);
    if i < k {
      CloseOneEvidence(o, owner, expires, ts, log, i + 1, k, now, delay);
    } else if OutcomeSchedule(o.row.head.policy, input).Ok? {
      var sched := OutcomeSchedule(o.row.head.policy, input).value;
      CloseNoEvidence(o, owner, expires, ts[k := CloseTarget(ts[k], sched, now)], log + [AttemptFrom(input)], k + 1,
        now, delay);
    }
  }

  lemma RecoverStep(a: Authority, s: Store, c: Candidate, now: nat, delay: nat) returns (i: nat)
    requires StoreInv(a, s) && RecoverExpired(s, c, now, delay).Ok?
    ensures var s' := RecoverExpired(s, c, now, delay).value.store;
            StoreInv(a, s') && Evolves(s, s') && Advances(s, s', i)
  {
    hide OutboxInv, OutboxOk, StoreInv, TargetsValid, Evolves, Disposition, OutcomeSchedule, DecodesRow, TargetsRead,
         DecodesTargets, EvidenceOk;
    i := ReadRow(s, c.row.head.id, LeaseLost).value;
    At(a, s, i);
    var o := s.outboxes[i];
    var owner, expires := o.row.leaseOwner.value, o.row.leaseExpires.value;
    LeasedAfterCreation(o, s.log);
    match OpenIndex(o.targets)
    case None =>
      CloseNoEvidence(o, owner, expires, o.targets, s.log, 0, now, delay);
      var d := Disposition(o.row.head, o.targets).value;
      IdleReleaseKeeps(o, s.log, d, now);
      NeverSuperseded(o.row.head, o.targets);
      assert s.log + [] == s.log;
      ReplaceKeeps(a, s, i, o.(row := ReleaseRow(o.row, d, now)), []);
    case Some(k) =>
      OpenAttemptId(o, s.log, k);
      OnlyOpen(o, s.log, k);
      CloseOneEvidence(o, owner, expires, o.targets, s.log, 0, k, now, delay);
      var input := UnknownInput(o, o.targets[k], o.targets[k].lastAttempt.value, owner, expires, now, delay);
      var sched := OutcomeSchedule(o.row.head.policy, input).value;
      var d := Disposition(o.row.head, o.targets[k := CloseTarget(o.targets[k], sched, now)]).value;
      CloseAndRelease(a, s, i, k, input, sched, d);
  }

  /** On a kept store recovery's read never fails, and its candidate is sound. */
  lemma CandidateReads(a: Authority, s: Store, now: nat)
    requires StoreInv(a, s)
    ensures ReadExpiredCandidate(s, a, now).Ok?
    ensures ReadExpiredCandidate(s, a, now).value.Some? ==> CandidateOk(s, ReadExpiredCandidate(s, a, now).value.value)
  {
    hide StoreInv, OutboxInv, OutboxOk, DecodesRow, TargetsRead, DecodesTargets, TargetsValid, Ceiling, CandidateOk;
    if OldestExpired(s, now, |s.outboxes|).Some? {
      var i := OldestExpired(s, now, |s.outboxes|).value;
      At(a, s, i);
      AuthorizedAt(a, s.outboxes[i], s.log);
      SubmittedOnce(s.outboxes[i], s.log);
      OneSubmitted(s.outboxes[i].targets);
      KeysOf(a, s);
      FreshCandidate(s, i);
    }
  }

  lemma FreshCandidate(s: Store, i: nat)
    requires DistinctKeys(s.outboxes) && i < |s.outboxes|
    ensures CandidateOk(s, Candidate(s.outboxes[i].row, Ceiling(s.outboxes[i])))
  {
    hide Ceiling, DistinctKeys;
    assert IssuedAgainst(s.outboxes[i].row, s.outboxes[i].row);
    forall j | 0 <= j < |s.outboxes| && s.outboxes[j].row == s.outboxes[i].row ensures j == i {
      FindUnique(s.outboxes, i);
      FindUnique(s.outboxes, j);
    }
  }

  lemma AuthorizedAt(a: Authority, o: Outbox, log: seq<Attempt>)
    requires OutboxOk(a, o, log)
    ensures Authorized(o.row.head, a) && Sha256(o.row.head.exactBytes) == o.row.head.eventSha
            && PolicyOk(o.row.head.policy)
    ensures RelaysOk(o.targets)
  {
  }

  lemma ReadAction(a: Authority, w: World, now: nat)
    requires WorldInv(a, w)
    ensures WorldInv(a, Next(a, w, ReadExpired(now)))
  {
    hide StoreInv, HeldOk, CandidateOk, ReadExpiredCandidate, LeasesOrdered, ExposuresInv;
    CandidateReads(a, w.store, now);
  }

  lemma InputNames(p: Prepared, finishedAt: nat, outcome: Outcome, delay: nat)
    ensures var input := InputFrom(p, finishedAt, outcome, delay); input.Ok? ==> Names(p.lease, input.value)
  {
  }

  /** Every action keeps the invariant and only moves the store forward. */
  lemma NextInv(a: Authority, w: World, x: Action)
    requires WorldInv(a, w)
    ensures WorldInv(a, Next(a, w, x)) && Evolves(w.store, Next(a, w, x).store)
  {
    EvolvesSelf(w.store);
    hide WorldInv, Evolves, Advances, InputFrom, RecordOutcome, RecoverExpired, ClaimNext, PrepareNext,
         ReadExpiredCandidate, Committable;
    var s := w.store;
    StoreOf(a, w);
    match x
    case Enqueue(h, specs) =>
      if Committable(a, s, h, specs) {
        EnqueueAction(a, w, h, specs);
      }
    case Claim(owner, now) =>
      ClaimAction(a, w, owner, now);
    case Prepare(l, at) =>
      PrepareAction(a, w, l, at);
    case ReadExpired(now) =>
      ReadAction(a, w, now);
    case Record(e, finishedAt, outcome, delay) =>
      if e < |w.exposures| {
        var input := InputFrom(w.exposures[e].prepared, finishedAt, outcome, delay);
        if input.Ok? && RecordOutcome(s, w.exposures[e].prepared.lease, input.value).Ok? {
          InputNames(w.exposures[e].prepared, finishedAt, outcome, delay);
          var i := RecordStep(a, s, w.exposures[e].prepared.lease, input.value);
          AdvanceWorld(a, w, RecordOutcome(s, w.exposures[e].prepared.lease, input.value).value.store, i);
        }
      }
    case Recover(c, now, delay) =>
      if c < |w.candidates| && RecoverExpired(s, w.candidates[c], now, delay).Ok? {
        var i := RecoverStep(a, s, w.candidates[c], now, delay);
        AdvanceWorld(a, w, RecoverExpired(s, w.candidates[c], now, delay).value.store, i);
      }
  }

  lemma StoreOf(a: Authority, w: World)
    requires WorldInv(a, w)
    ensures StoreInv(a, w.store)
  {
  }

  lemma EvolvesTransitive(r: Store, s: Store, t: Store)
    requires Evolves(r, s) && Evolves(s, t)
    ensures Evolves(r, t)
  {
    forall i | 0 <= i < |r.outboxes| ensures Later(r.outboxes[i], t.outboxes[i]) {
      assert Later(r.outboxes[i], s.outboxes[i]) && Later(s.outboxes[i], t.outboxes[i]);
      assert |r.outboxes[i].targets| == |Specs(r.outboxes[i].targets)| == |s.outboxes[i].targets|;
    }
  }

  lemma StartInv(a: Authority)
    ensures WorldInv(a, START)
  {
  }

  /** From any good world, every interleaving stays good and moves the store forward. */
  lemma {:induction false} RunFrom(a: Authority, w: World, actions: seq<Action>)
    requires WorldInv(a, w)
    ensures WorldInv(a, Run(a, w, actions)) && Evolves(w.store, Run(a, w, actions).store)
  {
    EvolvesSelf(w.store);
    hide WorldInv, Next, Evolves;
    if |actions| > 0 {
      var before := Run(a, w, actions[..|actions| - 1]);
      RunFrom(a, w, actions[..|actions| - 1]);
      NextInv(a, before, actions[|actions| - 1]);
      EvolvesTransitive(w.store, before.store, Run(a, w, actions).store);
    }
  }
}
