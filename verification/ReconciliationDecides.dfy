/** Exactly when a reconciliation attempt commits for the first time, and what it then writes. */
module ReconciliationDecides {
  import opened Prelude
  import opened Encoding
  import opened ReconciliationPlan
  import opened ReconciliationCommit
  import opened ReconciliationSafety

  // ------------------------------------------------------------------ evidence

  /** The stored rows do not contradict this fact. */
  predicate Agrees(e: Evidence, f: Fact)
  {
    var r := f.record;
    && (r.mutationId in e.mutations ==> e.mutations[r.mutationId] == MutationOf(r))
    && (EventKeyOf(r) in e.events ==> e.events[EventKeyOf(r)] == EventOf(r))
  }

  /** Two facts do not contradict each other. */
  predicate Consistent(f: Fact, g: Fact)
  {
    && (f.record.mutationId == g.record.mutationId ==> MutationOf(f.record) == MutationOf(g.record))
    && (EventKeyOf(f.record) == EventKeyOf(g.record) ==> EventOf(f.record) == EventOf(g.record))
  }

  predicate Compatible(e: Evidence, fs: seq<Fact>)
  {
    && (forall i :: 0 <= i < |fs| ==> Agrees(e, fs[i]))
    && (forall i, j :: 0 <= i < j < |fs| ==> Consistent(fs[i], fs[j]))
  }

  predicate IsNew(e: Evidence, f: Fact) { f.record.mutationId !in e.mutations || EventKeyOf(f.record) !in e.events }

  predicate SomeNew(e: Evidence, fs: seq<Fact>) { exists i :: 0 <= i < |fs| && IsNew(e, fs[i]) }

  predicate Stored(e: Evidence, f: Fact)
  {
    var r := f.record;
    && r.mutationId in e.mutations && e.mutations[r.mutationId] == MutationOf(r)
    && EventKeyOf(r) in e.events && e.events[EventKeyOf(r)] == EventOf(r)
  }

  predicate HasMutation(fs: seq<Fact>, id: Bytes32) { exists i :: 0 <= i < |fs| && fs[i].record.mutationId == id }
  predicate HasEvent(fs: seq<Fact>, key: EventKey) { exists i :: 0 <= i < |fs| && EventKeyOf(fs[i].record) == key }

  /** The evidence `e` with exactly these facts added. */
  ghost predicate Absorbed(e: Evidence, fs: seq<Fact>, e': Evidence)
  {
    && EvidenceGrows(e, e') && (forall i :: 0 <= i < |fs| ==> Stored(e', fs[i]))
    && (forall k :: k in e'.mutations ==> k in e.mutations || HasMutation(fs, k))
    && (forall k :: k in e'.events ==> k in e.events || HasEvent(fs, k))
  }

  lemma HasAppend(fs: seq<Fact>, f: Fact)
    ensures forall id :: HasMutation(fs + [f], id) <==> HasMutation(fs, id) || f.record.mutationId == id
    ensures forall key :: HasEvent(fs + [f], key) <==> HasEvent(fs, key) || EventKeyOf(f.record) == key
  {
    forall id ensures HasMutation(fs + [f], id) <==> HasMutation(fs, id) || f.record.mutationId == id {
      if HasMutation(fs, id) {
        var i :| 0 <= i < |fs| && fs[i].record.mutationId == id;
        assert (fs + [f])[i].record.mutationId == id;
      }
      assert (fs + [f])[|fs|] == f;
    }
    forall key ensures HasEvent(fs + [f], key) <==> HasEvent(fs, key) || EventKeyOf(f.record) == key {
      if HasEvent(fs, key) {
        var i :| 0 <= i < |fs| && EventKeyOf(fs[i].record) == key;
        assert EventKeyOf((fs + [f])[i].record) == key;
      }
      assert (fs + [f])[|fs|] == f;
    }
  }

  lemma CompatibleAppend(e: Evidence, fs: seq<Fact>, f: Fact)
    ensures Compatible(e, fs + [f]) <==>
            Compatible(e, fs) && Agrees(e, f) && forall i :: 0 <= i < |fs| ==> Consistent(fs[i], f)
  {
    hide Agrees, Consistent;
    var all := fs + [f];
    assert all[|fs|] == f && forall i :: 0 <= i < |fs| ==> all[i] == fs[i];
    if Compatible(e, all) {
      assert forall i :: 0 <= i < |fs| ==> Agrees(e, all[i]);
      assert forall i, j :: 0 <= i < j < |fs| ==> Consistent(all[i], all[j]);
      assert forall i :: 0 <= i < |fs| ==> Consistent(all[i], all[|fs|]);
    }
  }

  /** What the next fact must agree with is exactly what is stored when its turn comes. */
  lemma AgreesNow(e: Evidence, fs: seq<Fact>, e1: Evidence, f: Fact)
    requires Absorbed(e, fs, e1)
    ensures Agrees(e1, f) <==> Agrees(e, f) && forall i :: 0 <= i < |fs| ==> Consistent(fs[i], f)
  {
    var id, key := f.record.mutationId, EventKeyOf(f.record);
    if Agrees(e1, f) {
      forall i | 0 <= i < |fs| ensures Consistent(fs[i], f) {
        assert Stored(e1, fs[i]);
      }
    }
    if Agrees(e, f) && forall i :: 0 <= i < |fs| ==> Consistent(fs[i], f) {
      if id in e1.mutations && id !in e.mutations {
        var i :| 0 <= i < |fs| && fs[i].record.mutationId == id;
        assert Stored(e1, fs[i]) && Consistent(fs[i], f);
      }
      if key in e1.events && key !in e.events {
        var i :| 0 <= i < |fs| && EventKeyOf(fs[i].record) == key;
        assert Stored(e1, fs[i]) && Consistent(fs[i], f);
      }
    }
  }

  lemma PersistDecides(e: Evidence, sourceId: Bytes, policySha: Bytes32, f: Fact)
    ensures Persist(e, sourceId, policySha, f).Ok? <==> Agrees(e, f)
    ensures Agrees(e, f) ==>
              var e' := Persist(e, sourceId, policySha, f).value.evidence;
              && EvidenceGrows(e, e') && Stored(e', f)
              && (forall k :: k in e'.mutations ==> k in e.mutations || k == f.record.mutationId)
              && (forall k :: k in e'.events ==> k in e.events || k == EventKeyOf(f.record))
  {
  }

  lemma AbsorbNext(e: Evidence, fs: seq<Fact>, e1: Evidence, f: Fact, e2: Evidence)
    requires Absorbed(e, fs, e1) && EvidenceGrows(e1, e2) && Stored(e2, f)
    requires forall k :: k in e2.mutations ==> k in e1.mutations || k == f.record.mutationId
    requires forall k :: k in e2.events ==> k in e1.events || k == EventKeyOf(f.record)
    ensures Absorbed(e, fs + [f], e2)
  {
    HasAppend(fs, f);
    hide HasMutation, HasEvent;
    forall i | 0 <= i < |fs + [f]| ensures Stored(e2, (fs + [f])[i]) {
      if i < |fs| {
        assert Stored(e1, fs[i]);
      }
    }
  }

  lemma {:induction false} FactsDecide(e: Evidence, base: seq<Fact>, e1: Evidence, plan: Plan, p: Part, seen: bool,
                                       n: nat)
    requires n <= |p.facts| && Absorbed(e, base, e1) && Compatible(e, base)
    ensures var r := PersistFacts(e1, plan, p, seen, n);
            && (r.Ok? <==> Compatible(e, base + p.facts[..n]))
            && (r.Ok? ==> Absorbed(e, base + p.facts[..n], r.value.evidence))
  {
    hide Absorbed, Compatible, Agrees, Consistent, Persist, Stored;
    if n == 0 {
      assert base + p.facts[..0] == base;
    } else {
      FactsDecide(e, base, e1, plan, p, seen, n - 1);
      var fs, f := base + p.facts[..n - 1], p.facts[n - 1];
      assert base + p.facts[..n] == fs + [f];
      CompatibleAppend(e, fs, f);
      if Compatible(e, fs) {
        var done := PersistFacts(e1, plan, p, seen, n - 1).value;
        AgreesNow(e, fs, done.evidence, f);
        PersistDecides(done.evidence, p.sourceId, plan.policySha, f);
        if Agrees(done.evidence, f) {
          AbsorbNext(e, fs, done.evidence, f, Persist(done.evidence, p.sourceId, plan.policySha, f).value.evidence);
        }
      }
    }
  }

  /** All facts of the first `n` parts, in order. */
  function Flat(parts: seq<Part>, n: nat): seq<Fact>
    requires n <= |parts|
  {
    if n == 0 then [] else Flat(parts, n - 1) + parts[n - 1].facts
  }

  lemma CompatiblePrefix(e: Evidence, fs: seq<Fact>, gs: seq<Fact>)
    requires Compatible(e, fs + gs)
    ensures Compatible(e, fs)
  {
    hide Agrees, Consistent;
    var all := fs + gs;
    assert forall i :: 0 <= i < |fs| ==> fs[i] == all[i];
    assert forall i :: 0 <= i < |fs| ==> Agrees(e, all[i]);
    assert forall i, j :: 0 <= i < j < |fs| ==> Consistent(all[i], all[j]);
  }

  /** The parts persist exactly when no fact contradicts the store or another fact. */
  lemma {:induction false} PartsDecide(e: Evidence, plan: Plan, parts: seq<Part>, n: nat)
    requires n <= |parts|
    ensures var r := PersistParts(e, plan, parts, n);
            && (r.Ok? <==> Compatible(e, Flat(parts, n)))
            && (r.Ok? ==> Absorbed(e, Flat(parts, n), r.value.evidence))
  {
    if n > 0 {
      hide Absorbed, Compatible, PersistFacts;
      PartsDecide(e, plan, parts, n - 1);
      var p := parts[n - 1];
      if Compatible(e, Flat(parts, n)) {
        CompatiblePrefix(e, Flat(parts, n - 1), p.facts);
      }
      if Compatible(e, Flat(parts, n - 1)) {
        var done := PersistParts(e, plan, parts, n - 1).value;
        FactsDecide(e, Flat(parts, n - 1), done.evidence, plan, p, done.inserted, |p.facts|);
        assert p.facts[..|p.facts|] == p.facts;
      }
    }
  }

  lemma NewMeansChanged(e: Evidence, fs: seq<Fact>, e': Evidence)
    requires Absorbed(e, fs, e')
    ensures Changed(e, e') <==> SomeNew(e, fs)
  {
    if SomeNew(e, fs) {
      var i :| 0 <= i < |fs| && IsNew(e, fs[i]);
      assert Stored(e', fs[i]);
    } else {
      assert forall i :: 0 <= i < |fs| ==> !IsNew(e, fs[i]);
      assert forall k :: k in e'.mutations ==> k in e.mutations;
      assert forall k :: k in e'.events ==> k in e.events;
      assert e'.mutations == e.mutations && e'.events == e.events;
    }
  }

  // ------------------------------------------------------------------ checkpoints

  predicate PriorsCurrent(s: Store, plan: Plan, parts: seq<Part>)
  {
    forall i :: 0 <= i < |parts| ==>
      parts[i].priorCursor == (if KeyOf(plan, parts[i]) in s.checkpoints
                               then Some(s.checkpoints[KeyOf(plan, parts[i])].cursor) else None)
  }

  lemma {:induction false} PriorsReadBack(s: Store, plan: Plan, parts: seq<Part>, n: nat)
    requires n <= |parts| && PriorsCurrent(s, plan, parts)
    ensures ReadCheckpoints(s, plan, parts, n).Ok?
  {
    if n > 0 {
      PriorsReadBack(s, plan, parts, n - 1);
    }
  }

  /** The part's cursor can be stored: its time fits and the completion time does not go back. */
  predicate Movable(cps: map<CheckpointKey, Checkpoint>, plan: Plan, p: Part)
  {
    Eligible(p).Some? ==>
      && Eligible(p).value.createdAt <= MAX_I64
      && (KeyOf(plan, p) in cps ==> cps[KeyOf(plan, p)].completedAt <= p.result.finishedAt / 1000)
  }

  /** The checkpoint an eligible part leaves. */
  function Moved(cps: map<CheckpointKey, Checkpoint>, plan: Plan, p: Part): Checkpoint
    requires Eligible(p).Some?
  {
    var key := KeyOf(plan, p);
    Checkpoint(Eligible(p).value, if key in cps then cps[key].revision + 1 else 1, p.result.finishedAt / 1000)
  }

  predicate Moves(plan: Plan, parts: seq<Part>, n: nat, key: CheckpointKey)
    requires n <= |parts|
  {
    exists i :: 0 <= i < n && Eligible(parts[i]).Some? && KeyOf(plan, parts[i]) == key
  }

  /** Exactly the eligible parts moved, each to its candidate. */
  ghost predicate CheckpointsMoved(cps: map<CheckpointKey, Checkpoint>, plan: Plan, parts: seq<Part>, n: nat,
                                   after: map<CheckpointKey, Checkpoint>)
    requires n <= |parts|
  {
    && (forall i :: 0 <= i < n && Eligible(parts[i]).Some? ==>
          KeyOf(plan, parts[i]) in after && after[KeyOf(plan, parts[i])] == Moved(cps, plan, parts[i]))
    && (forall key :: !Moves(plan, parts, n, key) ==>
          (key in after <==> key in cps) && (key in cps ==> after[key] == cps[key]))
  }

  /** The bounds the types of a part impose, and what makes its writes independent of the others'. */
  predicate PartsApart(s: Store, plan: Plan, parts: seq<Part>)
  {
    && PriorsCurrent(s, plan, parts)
    && (forall i :: 0 <= i < |parts| ==>
          |parts[i].facts| < U32_LIMIT && parts[i].result.finishedAt <= MAX_I64
          && (Eligible(parts[i]).Some? ==> parts[i].result.finishedAt / 1000 != 0))
    && (forall i, j :: 0 <= i < j < |parts| ==>
          parts[i].requestId != parts[j].requestId && KeyOf(plan, parts[i]) != KeyOf(plan, parts[j]))
  }

  predicate ReadFor(s: Store, plan: Plan, parts: seq<Part>, read: seq<Option<Checkpoint>>)
  {
    && |read| == |parts|
    && forall i :: 0 <= i < |parts| ==> read[i] == ReadCheckpoint(s.checkpoints, KeyOf(plan, parts[i]))
  }

  /** Writing one part on top of writes that left its key alone. */
  lemma WriteOneDecides(s: Store, plan: Plan, p: Part, done: Written, read: Option<Checkpoint>)
    requires read == ReadCheckpoint(s.checkpoints, KeyOf(plan, p)) && |p.facts| < U32_LIMIT
             && p.result.finishedAt <= MAX_I64
    requires Eligible(p).Some? ==> p.result.finishedAt / 1000 != 0
    requires p.priorCursor == (if KeyOf(plan, p) in s.checkpoints then Some(s.checkpoints[KeyOf(plan, p)].cursor)
             else None)
    requires KeyOf(plan, p) in done.checkpoints <==> KeyOf(plan, p) in s.checkpoints
    requires KeyOf(plan, p) in s.checkpoints ==> done.checkpoints[KeyOf(plan, p)] == s.checkpoints[KeyOf(plan, p)]
    requires forall i :: 0 <= i < |done.rows| ==> done.rows[i].requestId != p.requestId
    ensures var r := WritePart(done, plan, p, read);
            && (r.Ok? <==> Movable(s.checkpoints, plan, p))
            && (r.Ok? ==>
                  && r.value.rows == done.rows + [RowFor(p).value] && RowFor(p).value.requestId == p.requestId
                  && r.value.checkpoints == if Eligible(p).None? then done.checkpoints
                                            else done.checkpoints[KeyOf(plan, p) := Moved(s.checkpoints, plan, p)])
  {
    hide LexLess, EncodeFacts;
  }

  predicate AllMovable(cps: map<CheckpointKey, Checkpoint>, plan: Plan, parts: seq<Part>, n: nat)
    requires n <= |parts|
  {
    forall i :: 0 <= i < n ==> Movable(cps, plan, parts[i])
  }

  /** The rows answer the parts in order. */
  predicate RowsAnswer(parts: seq<Part>, rows: seq<SourceRow>, n: nat)
    requires n <= |parts|
  {
    |rows| == n && forall i :: 0 <= i < n ==> rows[i].requestId == parts[i].requestId
  }

  lemma MovableStep(cps: map<CheckpointKey, Checkpoint>, plan: Plan, parts: seq<Part>, n: nat)
    requires 1 <= n <= |parts|
    ensures AllMovable(cps, plan, parts, n) <==> AllMovable(cps, plan, parts, n - 1) && Movable(cps, plan, parts[n - 1])
  {
    hide Movable;
  }

  lemma NothingMoved(s: Store, plan: Plan, parts: seq<Part>)
    ensures CheckpointsMoved(s.checkpoints, plan, parts, 0, s.checkpoints) && AllMovable(s.checkpoints, plan, parts, 0)
  {
  }

  /** Every write succeeds exactly when every part is movable, and then exactly the eligible ones move. */
  lemma {:induction false} WritesDecide(s: Store, plan: Plan, parts: seq<Part>, read: seq<Option<Checkpoint>>, n: nat)
    requires n <= |parts| && PartsApart(s, plan, parts) && ReadFor(s, plan, parts, read) && |read| == |parts|
    ensures var r := WriteParts(s.checkpoints, plan, parts, read, n);
            && (r.Ok? <==> AllMovable(s.checkpoints, plan, parts, n))
            && (r.Ok? ==> && CheckpointsMoved(s.checkpoints, plan, parts, n, r.value.checkpoints)
                          && RowsAnswer(parts, r.value.rows, n))
  {
    hide WritePart, Eligible, Movable, Moved, PartsApart, CheckpointsMoved, ReadFor, KeyOf, AllMovable;
    if n == 0 {
      NothingMoved(s, plan, parts);
    } else {
      WritesDecide(s, plan, parts, read, n - 1);
      MovableStep(s.checkpoints, plan, parts, n);
      var before := WriteParts(s.checkpoints, plan, parts, read, n - 1);
      if before.Ok? {
        var p, done := parts[n - 1], before.value;
        ApartAt(s, plan, parts, read, n, done);
        WriteOneDecides(s, plan, p, done, read[n - 1]);
        var r := WritePart(done, plan, p, read[n - 1]);
        if r.Ok? {
          MovedNext(s, plan, parts, n, done.checkpoints, r.value.checkpoints);
        }
      }
    }
  }

  /** What the writes before part `n - 1` left it to work with. */
  lemma ApartAt(s: Store, plan: Plan, parts: seq<Part>, read: seq<Option<Checkpoint>>, n: nat, done: Written)
    requires 1 <= n <= |parts| && PartsApart(s, plan, parts) && ReadFor(s, plan, parts, read)
    requires CheckpointsMoved(s.checkpoints, plan, parts, n - 1, done.checkpoints)
    requires RowsAnswer(parts, done.rows, n - 1)
    ensures var p := parts[n - 1];
            var key := KeyOf(plan, p);
            && |read| == |parts| && read[n - 1] == ReadCheckpoint(s.checkpoints, key) && |p.facts| < U32_LIMIT
            && p.result.finishedAt <= MAX_I64 && (Eligible(p).Some? ==> p.result.finishedAt / 1000 != 0)
            && p.priorCursor == (if key in s.checkpoints then Some(s.checkpoints[key].cursor) else None)
            && (key in done.checkpoints <==> key in s.checkpoints)
            && (key in s.checkpoints ==> done.checkpoints[key] == s.checkpoints[key])
            && (forall i :: 0 <= i < |done.rows| ==> done.rows[i].requestId != p.requestId)
    ensures forall i, j :: 0 <= i < j < |parts| ==> KeyOf(plan, parts[i]) != KeyOf(plan, parts[j])
  {
    hide Eligible, Moved, Moves;
    NotMovedYet(plan, parts, n);
  }

  lemma NotMovedYet(plan: Plan, parts: seq<Part>, n: nat)
    requires 1 <= n <= |parts|
    requires forall i, j :: 0 <= i < j < |parts| ==> KeyOf(plan, parts[i]) != KeyOf(plan, parts[j])
    ensures !Moves(plan, parts, n - 1, KeyOf(plan, parts[n - 1]))
  {
  }

  lemma MovedNext(s: Store, plan: Plan, parts: seq<Part>, n: nat, before: map<CheckpointKey, Checkpoint>,
                  after: map<CheckpointKey, Checkpoint>)
    requires 1 <= n <= |parts| && CheckpointsMoved(s.checkpoints, plan, parts, n - 1, before)
    requires forall i, j :: 0 <= i < j < |parts| ==> KeyOf(plan, parts[i]) != KeyOf(plan, parts[j])
    requires var p := parts[n - 1];
             after == if Eligible(p).None? then before else before[KeyOf(plan, p) := Moved(s.checkpoints, plan, p)]
    ensures CheckpointsMoved(s.checkpoints, plan, parts, n, after)
  {
    hide Eligible, Moved, KeyOf;
    forall key | !Moves(plan, parts, n, key)
      ensures (key in after <==> key in s.checkpoints) && (key in s.checkpoints ==> after[key] == s.checkpoints[key])
    {
      assert !Moves(plan, parts, n - 1, key);
      assert Eligible(parts[n - 1]).Some? ==> KeyOf(plan, parts[n - 1]) != key;
    }
  }

  // ------------------------------------------------------------------ the decision

  lemma PlannedIdentities(lease: Lease, plan: Plan, parts: seq<Part>)
    requires PlanOk(lease, plan) && ReplaysMatch(lease, plan, parts)
    ensures |parts| == |plan.requests|
    ensures forall i, j :: 0 <= i < j < |parts| ==> parts[i].requestId != parts[j].requestId
  {
    forall i, j | 0 <= i < j < |parts| ensures parts[i].requestId != parts[j].requestId {
      assert PartMatches(lease, plan, plan.requests[i], parts[i])
        && PartMatches(lease, plan, plan.requests[j], parts[j]);
      assert plan.requests[i].id != plan.requests[j].id;
    }
  }

  lemma PlannedApart(s: Store, lease: Lease, plan: Plan, parts: seq<Part>)
    requires PlanOk(lease, plan) && ReplaysMatch(lease, plan, parts) && PriorsCurrent(s, plan, parts)
    requires lease.expires <= MAX_I64 && forall i :: 0 <= i < |parts| ==> |parts[i].facts| < U32_LIMIT
    ensures PartsApart(s, plan, parts)
  {
    PlannedIdentities(lease, plan, parts);
    hide Eligible, PriorsCurrent, LexLess;
    forall i, j | 0 <= i < j < |parts| ensures KeyOf(plan, parts[i]) != KeyOf(plan, parts[j]) {
      assert PartMatches(lease, plan, plan.requests[i], parts[i])
        && PartMatches(lease, plan, plan.requests[j], parts[j]);
      assert LexLess(plan.requests[i].sourceId, plan.requests[j].sourceId);
      LexIrreflexive(plan.requests[i].sourceId);
    }
    forall i | 0 <= i < |parts|
      ensures parts[i].result.finishedAt <= MAX_I64
              && (Eligible(parts[i]).Some? ==> parts[i].result.finishedAt / 1000 != 0)
    {
      assert PartMatches(lease, plan, plan.requests[i], parts[i]);
    }
  }

  /** The lease, the planned generation and the planned cursors are still the stored ones. */
  predicate FencesHold(s: Store, lease: Lease, plan: Plan, parts: seq<Part>)
  {
    && lease.job.id in s.jobs && s.jobs[lease.job.id] == lease.job && lease.job.state.Leased?
    && lease.job.leaseExpires == Some(lease.expires) && lease.job.tradeId in s.dirty
    && s.dirty[lease.job.tradeId].generation == plan.inputGeneration
    && s.dirty[lease.job.tradeId].policySha == plan.policySha && PriorsCurrent(s, plan, parts)
  }

  /** New evidence can advance the dirty row: it finished no earlier and the generation fits. */
  predicate Advanceable(s: Store, lease: Lease, plan: Plan, parts: seq<Part>)
    requires lease.job.tradeId in s.dirty
  {
    SomeNew(s.evidence, Flat(parts, |parts|)) ==>
      s.dirty[lease.job.tradeId].updatedAt <= LatestFinish(parts, |parts|) && plan.inputGeneration < MAX_I64
  }

  /** The dirty rows a first commit leaves. */
  function DirtyAfter(s: Store, lease: Lease, plan: Plan, parts: seq<Part>): map<Bytes, Dirty>
  {
    if SomeNew(s.evidence, Flat(parts, |parts|))
    then s.dirty[lease.job.tradeId := Dirty(plan.inputGeneration + 1, plan.policySha, LatestFinish(parts, |parts|))]
    else s.dirty
  }

  lemma {:induction false} FinishFits(parts: seq<Part>, n: nat)
    requires n <= |parts| && forall i :: 0 <= i < |parts| ==> parts[i].result.finishedAt <= MAX_I64
    ensures LatestFinish(parts, n) <= MAX_I64
  {
    if n > 0 {
      FinishFits(parts, n - 1);
    }
  }

  lemma AdvanceDecides(s: Store, lease: Lease, plan: Plan, latest: nat)
    requires lease.job.tradeId in s.dirty && s.dirty[lease.job.tradeId].generation == plan.inputGeneration
    requires s.dirty[lease.job.tradeId].policySha == plan.policySha && latest <= MAX_I64
    ensures var trade := lease.job.tradeId;
            var r := AdvanceDirty(s.dirty, trade, plan.policySha, latest, Some(s.dirty[trade]));
            && (r.Ok? <==> s.dirty[trade].updatedAt <= latest && plan.inputGeneration < MAX_I64)
            && (r.Ok? ==> r.value == s.dirty[trade := Dirty(plan.inputGeneration + 1, plan.policySha, latest)])
  {
  }

  /** The planned attempt's own row always meets the attempt table's constraints. */
  lemma AttemptRowFits(s: Store, lease: Lease, plan: Plan)
    requires PlanOk(lease, plan) && LeaseHolds(s, lease) && 1 <= plan.inputGeneration <= MAX_I64
    ensures AttemptRowFor(plan).Some? && AttemptInsertable(s, AttemptRowFor(plan).value)
  {
    hide Ordered;
  }

  /** The transaction after its fences, unfolded into its three passes. */
  lemma FreshUnfolds(s: Store, lease: Lease, plan: Plan, parts: seq<Part>, read: seq<Option<Checkpoint>>)
    requires |read| == |parts| && lease.job.tradeId in s.dirty
    requires AttemptRowFor(plan).Some? && AttemptInsertable(s, AttemptRowFor(plan).value)
    ensures var trade := lease.job.tradeId;
            var r, persisted := CommitFresh(s, lease, plan, parts, read),
              PersistParts(s.evidence, plan, parts, |parts|);
            var advanced := AdvanceDirty(s.dirty, trade, plan.policySha, LatestFinish(parts, |parts|),
              Some(s.dirty[trade]));
            var written := WriteParts(s.checkpoints, plan, parts, read, |parts|);
            && (r.Ok? <==> persisted.Ok? && (persisted.value.inserted ==> advanced.Ok?) && written.Ok?)
            && (r.Ok? ==> && r.value.value.created && r.value.store.evidence == persisted.value.evidence
                          && r.value.store.dirty == (if persisted.value.inserted then advanced.value else s.dirty)
                          && r.value.store.checkpoints == written.value.checkpoints)
  {
    hide PersistParts, WriteParts, AttemptRowFor, AttemptInsertable, AdvanceDirty, LatestFinish, Scopes;
  }

  /** The transaction after its fences, as three independent conditions. */
  lemma FreshDecides(s: Store, lease: Lease, plan: Plan, parts: seq<Part>, read: seq<Option<Checkpoint>>)
    requires PlanOk(lease, plan) && FencesHold(s, lease, plan, parts) && PartsApart(s, plan, parts)
    requires ReadFor(s, plan, parts, read) && |read| == |parts| && 1 <= plan.inputGeneration <= MAX_I64
    requires LatestFinish(parts, |parts|) <= MAX_I64
    ensures var r := CommitFresh(s, lease, plan, parts, read);
            && (r.Ok? <==> && Compatible(s.evidence, Flat(parts, |parts|)) && Advanceable(s, lease, plan, parts)
                           && AllMovable(s.checkpoints, plan, parts, |parts|))
            && (r.Ok? ==> && r.value.value.created && r.value.store.dirty == DirtyAfter(s, lease, plan, parts)
                          && Absorbed(s.evidence, Flat(parts, |parts|), r.value.store.evidence)
                          && CheckpointsMoved(s.checkpoints, plan, parts, |parts|, r.value.store.checkpoints))
  {
    hide PlanOk, PersistParts, WriteParts, CommitFresh, Compatible, AllMovable, CheckpointsMoved, Absorbed, SomeNew,
         Changed, PriorsCurrent, PartsApart, LatestFinish, Flat, ReadFor, AttemptRowFor, AttemptInsertable,
         AdvanceDirty;
    AttemptRowFits(s, lease, plan);
    FreshUnfolds(s, lease, plan, parts, read);
    AdvanceDecides(s, lease, plan, LatestFinish(parts, |parts|));
    PartsDecide(s.evidence, plan, parts, |parts|);
    WritesDecide(s, plan, parts, read, |parts|);
    var persisted := PersistParts(s.evidence, plan, parts, |parts|);
    if persisted.Ok? {
      PartsGrow(s.evidence, plan, parts, |parts|);
      NewMeansChanged(s.evidence, Flat(parts, |parts|), persisted.value.evidence);
    }
  }

  /**
   * A planned attempt that is not stored yet commits exactly when its fences hold, no fact
   * contradicts the store or another fact, new evidence can advance the dirty row, and every
   * eligible cursor can be stored.  It then absorbs exactly its facts, advances its trade by one
   * exactly for new evidence, and moves exactly the eligible checkpoints to their candidates.
   */
  lemma CommitDecides(s: Store, lease: Lease, plan: Plan, parts: seq<Part>)
    requires PlanOk(lease, plan) && ReplaysMatch(lease, plan, parts) && plan.id !in s.attempts
    requires lease.expires <= MAX_I64 && 1 <= plan.inputGeneration <= MAX_I64
    requires forall i :: 0 <= i < |parts| ==> |parts[i].facts| < U32_LIMIT
    ensures var r := CommitReplays(s, lease, plan, parts);
            && (r.Ok? <==> && FencesHold(s, lease, plan, parts) && Compatible(s.evidence, Flat(parts, |parts|))
                           && Advanceable(s, lease, plan, parts)
                           && AllMovable(s.checkpoints, plan, parts, |parts|))
            && (r.Ok? ==> && r.value.value.created && r.value.store.dirty == DirtyAfter(s, lease, plan, parts)
                          && Absorbed(s.evidence, Flat(parts, |parts|), r.value.store.evidence)
                          && CheckpointsMoved(s.checkpoints, plan, parts, |parts|, r.value.store.checkpoints))
  {
    hide PlanOk, ReplaysMatch, CommitFresh, Compatible, AllMovable, CheckpointsMoved, Absorbed, SomeNew,
         PriorsCurrent, PartsApart, DirtyAfter, ReadCheckpoints, Scopes, Flat, Advanceable, ReadFor;
    if FencesHold(s, lease, plan, parts) {
      PlannedApart(s, lease, plan, parts);
      PlannedIdentities(lease, plan, parts);
      PriorsReadBack(s, plan, parts, |parts|);
      var read := ReadCheckpoints(s, plan, parts, |parts|).value;
      ReadsFor(s, plan, parts);
      ApartFinish(s, plan, parts);
      FreshDecides(s, lease, plan, parts, read);
    } else if LeaseHolds(s, lease) && ReadCheckpoints(s, plan, parts, |parts|).Ok? {
      PriorsWereCurrent(s, plan, parts);
    }
  }

  lemma ApartFinish(s: Store, plan: Plan, parts: seq<Part>)
    requires PartsApart(s, plan, parts)
    ensures LatestFinish(parts, |parts|) <= MAX_I64
  {
    FinishFits(parts, |parts|);
  }

  lemma ReadsFor(s: Store, plan: Plan, parts: seq<Part>)
    requires ReadCheckpoints(s, plan, parts, |parts|).Ok?
    ensures ReadFor(s, plan, parts, ReadCheckpoints(s, plan, parts, |parts|).value)
  {
  }

  lemma PriorsWereCurrent(s: Store, plan: Plan, parts: seq<Part>)
    requires ReadCheckpoints(s, plan, parts, |parts|).Ok?
    ensures PriorsCurrent(s, plan, parts)
  {
    PriorsRead(s, plan, parts, |parts|);
  }
}
