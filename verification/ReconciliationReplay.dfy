/**
 * What a stored attempt carries, and exactly which recommits of it are acknowledged: the same
 * inventory always, a different one never.
 */
module ReconciliationReplay {
  import opened Prelude
  import opened Encoding
  import opened ReconciliationPlan
  import opened ReconciliationCommit
  import opened ReconciliationSafety
  import opened ReconciliationDecides

  // ------------------------------------------------------------------ what rows carry, field by field

  predicate Earlier(a: Cursor, b: Cursor)
  {
    a.createdAt < b.createdAt || (a.createdAt == b.createdAt && LexLess(a.eventId, b.eventId))
  }

  /** The source completed with a candidate strictly later than the cursor it started from. */
  predicate MovesCursor(p: Part)
  {
    && p.result.outcome.Complete? && p.candidate.Some?
    && (p.priorCursor.Some? ==> Earlier(p.priorCursor.value, p.candidate.value))
  }

  predicate AttemptCarries(r: AttemptRow, plan: Plan)
  {
    && |plan.requests| >= 1 && r.sourceCount == |plan.requests| && r.tradeId == plan.requests[0].tradeId
    && r.jobId == plan.jobId && r.inputGeneration == plan.inputGeneration && r.policySha == plan.policySha
    && r.startedAt == plan.startedAt && r.deadline == plan.deadline
  }

  predicate RowCarries(r: SourceRow, p: Part)
  {
    && r.requestId == p.requestId && r.sourceId == p.sourceId && r.tradeId == p.tradeId && r.required == p.required
    && r.selectorSha == p.selectorSha && r.replayId == p.replayId && r.result == p.result
    && InventoryDigest(p.facts) == Some(r.inventorySha) && r.duplicates == p.duplicates
    && r.firstObservedAt == p.firstObservedAt && r.priorCursor == p.priorCursor
    && r.overlapSeconds == p.overlapSeconds && r.since == p.since && r.candidate == p.candidate
    && (r.advanced <==> MovesCursor(p))
  }

  function CheckpointOf(plan: Plan, p: Part): CheckpointKey { CheckpointKey(p.sourceId, plan.policySha, p.tradeId) }

  /** The stored checkpoint has reached the part's cursor. */
  predicate Reached(s: Store, plan: Plan, p: Part)
  {
    MovesCursor(p) ==>
      CheckpointOf(plan, p) in s.checkpoints && !Earlier(s.checkpoints[CheckpointOf(plan, p)].cursor, p.candidate.value)
  }

  lemma EligibleIsMoving(p: Part)
    ensures Eligible(p).Some? <==> MovesCursor(p)
    ensures Eligible(p).Some? ==> Eligible(p) == p.candidate
  {
    hide LexLess;
  }

  lemma RowForCarries(p: Part, row: SourceRow)
    ensures RowFor(p) == Some(row) <==> RowCarries(row, p)
  {
    hide InventoryDigest, MovesCursor, Eligible;
    EligibleIsMoving(p);
  }

  lemma AttemptRowCarries(plan: Plan, row: AttemptRow)
    ensures AttemptRowFor(plan) == Some(row) <==> AttemptCarries(row, plan)
  {
  }

  // ------------------------------------------------------------------ recommits

  /** The stored rows carry the first `n` parts, and their cursors have been reached. */
  predicate Carried(s: Store, plan: Plan, parts: seq<Part>, rows: seq<SourceRow>, n: nat)
    requires n <= |parts| == |rows|
  {
    forall i :: 0 <= i < n ==> RowCarries(rows[i], parts[i]) && Reached(s, plan, parts[i])
  }

  lemma CarriedStep(s: Store, plan: Plan, parts: seq<Part>, rows: seq<SourceRow>, n: nat)
    requires 1 <= n <= |parts| == |rows|
    ensures Carried(s, plan, parts, rows, n) <==>
            Carried(s, plan, parts, rows, n - 1) && RowCarries(rows[n - 1], parts[n - 1])
              && Reached(s, plan, parts[n - 1])
  {
    hide RowCarries, Reached;
  }

  lemma {:induction false} ReconciledDecides(s: Store, plan: Plan, parts: seq<Part>, rows: seq<SourceRow>, n: nat)
    requires n <= |parts| == |rows|
    ensures var r := Reconciled(s, plan, parts, rows, n);
            && (r.Ok? <==> Carried(s, plan, parts, rows, n)) && (r.Ok? ==> r.value)
            && (r.Err? && (forall i :: 0 <= i < |parts| ==> |parts[i].facts| < U32_LIMIT) ==> r.error == Conflict)
  {
    hide RowCarries, Carried, RowFor, MovesCursor, Eligible, LexLess;
    if n == 0 {
      assert Carried(s, plan, parts, rows, 0) by { NothingCarried(s, plan, parts, rows); }
    } else {
      ReconciledDecides(s, plan, parts, rows, n - 1);
      CarriedStep(s, plan, parts, rows, n);
      var p := parts[n - 1];
      RowForCarries(p, rows[n - 1]);
      RowExists(p);
      EligibleIsMoving(p);
    }
  }

  lemma NothingCarried(s: Store, plan: Plan, parts: seq<Part>, rows: seq<SourceRow>)
    requires |parts| == |rows|
    ensures Carried(s, plan, parts, rows, 0)
  {
  }

  lemma RowExists(p: Part)
    ensures |p.facts| < U32_LIMIT ==> RowFor(p).Some?
  {
    hide RowOf, EncodeFacts;
  }

  /** Exactly the stored attempt and inventory, with every moved cursor reached. */
  ghost predicate SameInventory(s: Store, plan: Plan, parts: seq<Part>)
    requires plan.id in s.attempts && plan.id in s.sources
  {
    && AttemptCarries(s.attempts[plan.id], plan) && |s.sources[plan.id]| == |parts|
    && Carried(s, plan, parts, s.sources[plan.id], |parts|)
  }

  /** A stored attempt is acknowledged exactly for its own plan and inventory, and nothing is written. */
  lemma StoredCommitDecides(s: Store, lease: Lease, plan: Plan, parts: seq<Part>)
    requires plan.id in s.attempts && plan.id in s.sources
    ensures var r := CommitReplays(s, lease, plan, parts);
            && (r.Ok? <==> ReplaysMatch(lease, plan, parts) && SameInventory(s, plan, parts))
            && (r.Ok? ==> r.value.store == s && !r.value.value.created && !r.value.value.dirtyAdvanced)
  {
    hide ReplaysMatch, Carried, AttemptCarries, AttemptRowFor, Reconciled, Scopes;
    AttemptRowCarries(plan, s.attempts[plan.id]);
    if |s.sources[plan.id]| == |parts| {
      ReconciledDecides(s, plan, parts, s.sources[plan.id], |parts|);
    }
  }

  lemma StoredCommitConflicts(s: Store, lease: Lease, plan: Plan, parts: seq<Part>)
    requires plan.id in s.attempts && plan.id in s.sources && ReplaysMatch(lease, plan, parts)
    requires |plan.requests| >= 1 && forall i :: 0 <= i < |parts| ==> |parts[i].facts| < U32_LIMIT
    requires !SameInventory(s, plan, parts)
    ensures CommitReplays(s, lease, plan, parts) == Err(Conflict)
  {
    hide ReplaysMatch, Carried, AttemptCarries, Reconciled, Scopes;
    AttemptRowCarries(plan, s.attempts[plan.id]);
    if |s.sources[plan.id]| == |parts| {
      ReconciledDecides(s, plan, parts, s.sources[plan.id], |parts|);
    }
  }

  /** What a created attempt stores, field by field. */
  lemma CreatedCarries(s: Store, lease: Lease, plan: Plan, parts: seq<Part>)
    requires StoreOk(s) && CommitReplays(s, lease, plan, parts).Ok?
             && CommitReplays(s, lease, plan, parts).value.value.created
    ensures var s' := CommitReplays(s, lease, plan, parts).value.store;
            plan.id in s'.attempts && plan.id in s'.sources && SameInventory(s', plan, parts)
  {
    hide CommitReplays, Carried, AttemptCarries, Durable, Forward, AttemptRowFor, ReconcileExisting, Scopes;
    CommitForward(s, lease, plan, parts);
    DurableCarries(CommitReplays(s, lease, plan, parts).value.store, plan, parts);
  }

  lemma DurableCarries(s: Store, plan: Plan, parts: seq<Part>)
    requires AttemptDurable(s, plan, parts)
    ensures SameInventory(s, plan, parts)
  {
    hide RowCarries, AttemptCarries, AttemptRowFor, RowFor, MovesCursor, Eligible, LexLess;
    AttemptRowCarries(plan, s.attempts[plan.id]);
    var rows := s.sources[plan.id];
    forall i | 0 <= i < |parts| ensures RowCarries(rows[i], parts[i]) && Reached(s, plan, parts[i]) {
      assert PartDurable(s.checkpoints, plan, parts[i], rows[i]);
      RowForCarries(parts[i], rows[i]);
      EligibleIsMoving(parts[i]);
      if MovesCursor(parts[i]) {
        ReachedNotAhead(Eligible(parts[i]).value, s.checkpoints[KeyOf(plan, parts[i])].cursor);
      }
    }
  }

  /**
   * Over any run: once an attempt was created, presenting it again with a different number of
   * parts, or with a part whose result or facts differ, is refused as a conflict.
   */
  lemma DifferentInventoryConflicts(before: seq<Action>, lease: Lease, plan: Plan, parts: seq<Part>, after: seq<Action>,
                                    lease': Lease, parts': seq<Part>, i: nat)
    requires CommitReplays(Run(EMPTY, before), lease, plan, parts).Ok?
    requires CommitReplays(Run(EMPTY, before), lease, plan, parts).value.value.created
    requires ReplaysMatch(lease', plan, parts') && forall j :: 0 <= j < |parts'| ==> |parts'[j].facts| < U32_LIMIT
    requires |parts'| == |parts| ==>
               i < |parts| && (parts'[i].result != parts[i].result || parts'[i].facts != parts[i].facts)
    requires |parts'| == |parts| ==> forall f :: f in parts[i].facts || f in parts'[i].facts ==> FactFits(f)
    ensures var r := CommitReplays(Run(EMPTY, before), lease, plan, parts).value;
            CommitReplays(Run(r.store, after), lease', plan, parts') == Err(Conflict)
  {
    hide CommitReplays, ReplaysMatch, Carried, AttemptCarries, Run, Next, StoreOk, FactFits, CheckpointsForward,
         EvidenceGrows, DirtyForward;
    StartOk();
    RunForward(EMPTY, before);
    var s := Run(EMPTY, before);
    CreatedCarries(s, lease, plan, parts);
    CommitForward(s, lease, plan, parts);
    var r := CommitReplays(s, lease, plan, parts).value;
    RunForward(r.store, after);
    var s' := Run(r.store, after);
    PlanHasRequests(r.store, plan, parts);
    if SameInventory(s', plan, parts') {
      OneInventory(r.store, s', plan, parts, parts', i);
    }
    StoredCommitConflicts(s', lease', plan, parts');
  }

  lemma PlanHasRequests(s: Store, plan: Plan, parts: seq<Part>)
    requires plan.id in s.attempts && plan.id in s.sources && SameInventory(s, plan, parts)
    ensures |plan.requests| >= 1
  {
    hide Carried;
  }

  /** One stored inventory carries one list of results and facts. */
  lemma OneInventory(s: Store, s': Store, plan: Plan, parts: seq<Part>, parts': seq<Part>, i: nat)
    requires plan.id in s.attempts && plan.id in s.sources && SameInventory(s, plan, parts)
    requires plan.id in s'.attempts && plan.id in s'.sources && SameInventory(s', plan, parts')
    requires s.sources[plan.id] == s'.sources[plan.id] && i < |parts|
    requires forall f :: f in parts[i].facts || (i < |parts'| && f in parts'[i].facts) ==> FactFits(f)
    ensures |parts| == |parts'| && parts[i].result == parts'[i].result && parts[i].facts == parts'[i].facts
  {
    hide AttemptCarries, InventoryDigest, Reached, MovesCursor, FactFits;
    var row := s.sources[plan.id][i];
    assert RowCarries(row, parts[i]) && RowCarries(row, parts'[i]);
    InventoryDigestInjective(parts[i].facts, parts'[i].facts);
  }

  // ------------------------------------------------------------------ checkpoints and reported cursors

  /** How many of the first `n` parts move their cursor. */
  function CountMoving(parts: seq<Part>, n: nat): nat
    requires n <= |parts|
  {
    if n == 0 then 0 else CountMoving(parts, n - 1) + if MovesCursor(parts[n - 1]) then 1 else 0
  }

  /** The reported cursors are exactly those of the moving parts, in part order. */
  ghost predicate CursorsReported(parts: seq<Part>, cursors: seq<CursorScope>)
  {
    && |cursors| == CountMoving(parts, |parts|)
    && forall i :: 0 <= i < |parts| && MovesCursor(parts[i]) ==> ReportedAt(parts, cursors, i)
  }

  predicate ReportedAt(parts: seq<Part>, cursors: seq<CursorScope>, i: nat)
    requires i < |parts| && MovesCursor(parts[i])
  {
    var p, k := parts[i], CountMoving(parts, i);
    k < |cursors| && cursors[k] == CursorScope(p.sourceId, p.tradeId, p.policySha, p.selectorSha, p.candidate.value)
  }

  lemma {:induction false} CountPrefix(parts: seq<Part>, m: nat, n: nat)
    requires n <= m <= |parts|
    ensures CountMoving(parts[..m], n) == CountMoving(parts, n)
  {
    hide MovesCursor;
    if n > 0 {
      CountPrefix(parts, m, n - 1);
    }
  }

  lemma {:induction false} ScopesReport(parts: seq<Part>)
    ensures CursorsReported(parts, Scopes(parts))
  {
    hide MovesCursor, Eligible;
    if |parts| > 0 {
      var m := |parts| - 1;
      var rest := parts[..m];
      ScopesReport(rest);
      EligibleIsMoving(parts[m]);
      CountPrefix(parts, m, m);
      forall i | 0 <= i < |parts| && MovesCursor(parts[i]) ensures ReportedAt(parts, Scopes(parts), i) {
        CountPrefix(parts, m, i);
        if i < m {
          assert rest[i] == parts[i] && ReportedAt(rest, Scopes(rest), i);
        }
      }
    }
  }

  /** The checkpoints a first commit leaves: the moving parts' candidates, and every other one as it was. */
  ghost predicate CheckpointsNamed(s: Store, s': Store, plan: Plan, parts: seq<Part>)
  {
    && (forall i :: 0 <= i < |parts| && MovesCursor(parts[i]) ==> PartNamed(s, s', plan, parts[i]))
    && (forall key :: !SomeMoves(plan, parts, key) ==>
          (key in s'.checkpoints <==> key in s.checkpoints)
          && (key in s.checkpoints ==> s'.checkpoints[key] == s.checkpoints[key]))
  }

  predicate SomeMoves(plan: Plan, parts: seq<Part>, key: CheckpointKey)
  {
    exists i :: 0 <= i < |parts| && MovesCursor(parts[i]) && CheckpointOf(plan, parts[i]) == key
  }

  predicate PartNamed(s: Store, s': Store, plan: Plan, p: Part)
    requires MovesCursor(p)
  {
    var key := CheckpointOf(plan, p);
    && key in s'.checkpoints
    && s'.checkpoints[key] == Checkpoint(p.candidate.value, if key in s.checkpoints
       then s.checkpoints[key].revision + 1 else 1,
                                         p.result.finishedAt / 1000)
  }

  lemma MovedIsNamed(s: Store, s': Store, plan: Plan, parts: seq<Part>)
    requires CheckpointsMoved(s.checkpoints, plan, parts, |parts|, s'.checkpoints)
    ensures CheckpointsNamed(s, s', plan, parts)
  {
    hide MovesCursor, Eligible;
    forall i | 0 <= i < |parts| && MovesCursor(parts[i]) ensures PartNamed(s, s', plan, parts[i]) {
      EligibleIsMoving(parts[i]);
      assert s'.checkpoints[KeyOf(plan, parts[i])] == Moved(s.checkpoints, plan, parts[i]);
    }
    forall key | !SomeMoves(plan, parts, key)
      ensures !Moves(plan, parts, |parts|, key)
    {
      forall i | 0 <= i < |parts| && Eligible(parts[i]).Some? ensures KeyOf(plan, parts[i]) != key {
        EligibleIsMoving(parts[i]);
        assert CheckpointOf(plan, parts[i]) != key;
      }
    }
  }

  /**
   * A first commit moves exactly the checkpoints of completed sources with a later candidate, to
   * that candidate, and reports exactly those cursors in part order.
   */
  lemma CommitNamesCheckpoints(s: Store, lease: Lease, plan: Plan, parts: seq<Part>)
    requires PlanOk(lease, plan) && ReplaysMatch(lease, plan, parts) && plan.id !in s.attempts && StoreOk(s)
    requires lease.expires <= MAX_I64 && 1 <= plan.inputGeneration <= MAX_I64
    requires forall i :: 0 <= i < |parts| ==> |parts[i].facts| < U32_LIMIT
    requires CommitReplays(s, lease, plan, parts).Ok?
    ensures var r := CommitReplays(s, lease, plan, parts).value;
            && CheckpointsNamed(s, r.store, plan, parts) && CursorsReported(parts, r.value.cursors)
            && r.value.sourceCount == |parts|
  {
    hide PlanOk, ReplaysMatch, CommitReplays, CheckpointsMoved, CheckpointsNamed, CursorsReported, Scopes, Absorbed,
         DirtyAfter, FencesHold, Compatible, Advanceable, AllMovable, Forward, AttemptDurable, ReconcileExisting;
    CommitDecides(s, lease, plan, parts);
    CommitForward(s, lease, plan, parts);
    MovedIsNamed(s, CommitReplays(s, lease, plan, parts).value.store, plan, parts);
    ScopesReport(parts);
  }

  // ------------------------------------------------------------------ what a committed inventory answers

  /** A stored row answers its request and finished before the lease expired. */
  predicate Answers(lease: Lease, q: Request, r: SourceRow)
  {
    && r.requestId == q.id && r.result.requestId == q.id && r.sourceId == q.sourceId && r.tradeId == q.tradeId
    && r.tradeId == lease.job.tradeId && r.required == q.required && r.selectorSha == q.selectorSha
    && r.result.finishedAt < lease.expires
  }

  /** Every attempt created stores one row per request of its plan, in order, each answering its request. */
  lemma CreatedAnswersPlan(s: Store, lease: Lease, plan: Plan, parts: seq<Part>)
    requires StoreOk(s) && CommitReplays(s, lease, plan, parts).Ok?
             && CommitReplays(s, lease, plan, parts).value.value.created
    ensures var s' := CommitReplays(s, lease, plan, parts).value.store;
            && plan.jobId == lease.job.id && plan.inputGeneration == lease.job.inputGeneration
            && plan.policySha == lease.job.policySha && plan.deadline <= lease.expires
            && plan.id in s'.sources && |s'.sources[plan.id]| == |plan.requests| == |parts|
            && forall i :: 0 <= i < |plan.requests| ==>
                 && Answers(lease, plan.requests[i], s'.sources[plan.id][i])
                 && |parts[i].facts| == s'.sources[plan.id][i].result.eventCount && parts[i].policySha == plan.policySha
  {
    hide CommitReplays, AttemptCarries, Reached, MovesCursor, InventoryDigest, Eligible;
    CreatedCarries(s, lease, plan, parts);
    MatchedBefore(s, lease, plan, parts);
    var rows := CommitReplays(s, lease, plan, parts).value.store.sources[plan.id];
    forall i | 0 <= i < |plan.requests|
      ensures Answers(lease, plan.requests[i], rows[i]) && |parts[i].facts| == rows[i].result.eventCount
    {
      assert RowCarries(rows[i], parts[i]) && PartMatches(lease, plan, plan.requests[i], parts[i]);
    }
  }

  /** The observation one fact of a part leaves. */
  function ObservationOf(plan: Plan, p: Part, f: Fact): Observation
  {
    Observation(p.sourceId, plan.policySha, f.record.eventId, f.record.signature, f.observedAt)
  }

  ghost predicate Observed(plan: Plan, parts: seq<Part>, n: nat, o: Observation)
    requires n <= |parts|
  {
    exists i :: 0 <= i < n && ObservedIn(plan, parts[i], |parts[i].facts|, o)
  }

  predicate ObservedIn(plan: Plan, p: Part, n: nat, o: Observation)
    requires n <= |p.facts|
  {
    exists j :: 0 <= j < n && ObservationOf(plan, p, p.facts[j]) == o
  }

  lemma {:induction false} FactsObserved(e: Evidence, plan: Plan, p: Part, seen: bool, n: nat)
    requires n <= |p.facts| && PersistFacts(e, plan, p, seen, n).Ok?
    ensures forall o :: o in PersistFacts(e, plan, p, seen, n).value.evidence.observations <==>
                        o in e.observations || ObservedIn(plan, p, n, o)
  {
    if n > 0 {
      FactsObserved(e, plan, p, seen, n - 1);
      forall o ensures ObservedIn(plan, p, n, o)
        <==> ObservedIn(plan, p, n - 1, o) || ObservationOf(plan, p, p.facts[n - 1]) == o {
      }
    }
  }

  lemma {:induction false} PartsObserved(e: Evidence, plan: Plan, parts: seq<Part>, n: nat)
    requires n <= |parts| && PersistParts(e, plan, parts, n).Ok?
    ensures forall o :: o in PersistParts(e, plan, parts, n).value.evidence.observations <==>
                        o in e.observations || Observed(plan, parts, n, o)
  {
    hide PersistFacts, ObservedIn;
    if n > 0 {
      PartsObserved(e, plan, parts, n - 1);
      var done := PersistParts(e, plan, parts, n - 1).value;
      FactsObserved(done.evidence, plan, parts[n - 1], done.inserted, |parts[n - 1].facts|);
      forall o ensures Observed(plan, parts, n, o) <==>
                       Observed(plan, parts, n - 1, o) || ObservedIn(plan, parts[n - 1], |parts[n - 1].facts|, o) {
      }
    }
  }

  /** A created attempt adds exactly the observations of its facts. */
  lemma CreatedObserves(s: Store, lease: Lease, plan: Plan, parts: seq<Part>)
    requires CommitReplays(s, lease, plan, parts).Ok? && CommitReplays(s, lease, plan, parts).value.value.created
    ensures forall o :: o in CommitReplays(s, lease, plan, parts).value.store.evidence.observations <==>
                        o in s.evidence.observations || Observed(plan, parts, |parts|, o)
  {
    hide ReconcileExisting, ReplaysMatch, LeaseHolds, PersistParts, WriteParts, AttemptRowFor, AttemptInsertable,
         Scopes, AdvanceDirty, Observed, ReadCheckpoints, LatestFinish;
    PartsObserved(s.evidence, plan, parts, |parts|);
  }

  /** The dirty row is stamped with the second of the latest finish. */
  lemma {:induction false} LatestIsMaximum(parts: seq<Part>, n: nat)
    requires n <= |parts|
    ensures forall i :: 0 <= i < n ==> parts[i].result.finishedAt / 1000 <= LatestFinish(parts, n)
    ensures n > 0 ==> exists i :: 0 <= i < n && parts[i].result.finishedAt / 1000 == LatestFinish(parts, n)
  {
    if n > 1 {
      LatestIsMaximum(parts, n - 1);
      var i :| 0 <= i < n - 1 && parts[i].result.finishedAt / 1000 == LatestFinish(parts, n - 1);
    }
    assert n > 0 ==> parts[n - 1].result.finishedAt / 1000 <= LatestFinish(parts, n);
  }
}
