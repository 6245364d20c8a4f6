/** Replay, monotonicity and accounting of reconciliation commits over whole runs. */
module ReconciliationSafety {
  import opened Prelude
  import opened Encoding
  import opened ReconciliationPlan
  import opened ReconciliationCommit

  // ------------------------------------------------------------------ runs

  /** Everything that writes this store: commits, other ingestion, and the job scheduler. */
  datatype Action =
    | CommitAttempt(lease: Lease, plan: Plan, parts: seq<Part>)
    | PutJob(job: Job)
    | Ingest(sourceId: Bytes, policySha: Bytes32, fact: Fact)
    | MoveCheckpoint(key: CheckpointKey, expected: Option<Checkpoint>, next: Cursor, completedAt: nat)
    | MarkDirty(tradeId: Bytes, policySha: Bytes32, updatedAt: nat, current: Option<Dirty>)

  function Next(s: Store, a: Action): Store
  {
    match a
    case CommitAttempt(lease, plan, parts) =>
      (match CommitReplays(s, lease, plan, parts) case Err(_) => s case Ok(r) => r.store)
    case PutJob(job) => s.(jobs := s.jobs[job.id := job])
    case Ingest(sourceId, policySha, fact) =>
      (match Persist(s.evidence, sourceId, policySha, fact) case Err(_) => s case Ok(p) => s.(evidence := p.evidence))
    case MoveCheckpoint(key, expected, next, completedAt) =>
      (match WriteCheckpoint(s.checkpoints, key, expected, next, completedAt) case Err(_) => s
        case Ok(c) => s.(checkpoints := c))
    case MarkDirty(tradeId, policySha, updatedAt, expected) =>
      (match AdvanceDirty(s.dirty, tradeId, policySha, updatedAt, expected) case Err(_) => s
        case Ok(d) => s.(dirty := d))
  }

  function Run(s: Store, actions: seq<Action>): Store
  {
    if |actions| == 0 then s else Next(Run(s, actions[..|actions| - 1]), actions[|actions| - 1])
  }

  /** Attempts and their inventories are written together. */
  predicate StoreOk(s: Store) { s.sources.Keys == s.attempts.Keys }

  predicate AtMost(a: Cursor, b: Cursor) { a == b || CursorLess(a, b) }

  predicate CheckpointForward(a: Checkpoint, b: Checkpoint)
  {
    AtMost(a.cursor, b.cursor) && a.revision <= b.revision && a.completedAt <= b.completedAt
    && (a.revision == b.revision ==> a == b)
  }

  predicate CheckpointsForward(a: map<CheckpointKey, Checkpoint>, b: map<CheckpointKey, Checkpoint>)
  {
    forall key :: key in a ==> key in b && CheckpointForward(a[key], b[key])
  }

  predicate EvidenceGrows(a: Evidence, b: Evidence)
  {
    && (forall k :: k in a.mutations ==> k in b.mutations && b.mutations[k] == a.mutations[k])
    && (forall k :: k in a.events ==> k in b.events && b.events[k] == a.events[k])
    && a.observations <= b.observations
  }

  predicate DirtyForward(a: map<Bytes, Dirty>, b: map<Bytes, Dirty>)
  {
    forall t :: t in a ==> t in b && a[t].generation <= b[t].generation && a[t].updatedAt <= b[t].updatedAt
                           && (a[t].generation == b[t].generation ==> a[t] == b[t])
  }

  predicate InventoriesKept(s: Store, s': Store)
  {
    && (forall id :: id in s.attempts ==> id in s'.attempts && s'.attempts[id] == s.attempts[id])
    && (forall id :: id in s.sources ==> id in s'.sources && s'.sources[id] == s.sources[id])
  }

  /** The order in which stores move: nothing durable is lost, rewritten or turned back. */
  predicate Forward(s: Store, s': Store)
  {
    && CheckpointsForward(s.checkpoints, s'.checkpoints) && EvidenceGrows(s.evidence, s'.evidence)
    && DirtyForward(s.dirty, s'.dirty) && InventoriesKept(s, s')
  }

  // ------------------------------------------------------------------ orders

  lemma CursorTransitive(a: Cursor, b: Cursor, c: Cursor)
    requires CursorLess(a, b) && CursorLess(b, c)
    ensures CursorLess(a, c)
  {
    if a.createdAt == b.createdAt == c.createdAt {
      LexTransitive(a.eventId, b.eventId, c.eventId);
    }
  }

  /** A cursor that has been reached is not ahead. */
  lemma ReachedNotAhead(a: Cursor, b: Cursor)
    requires AtMost(a, b)
    ensures !CursorLess(b, a)
  {
    LexIrreflexive(a.eventId);
    if CursorLess(a, b) && CursorLess(b, a) {
      CursorTransitive(a, b, a);
    }
  }

  lemma CheckpointTransitive(a: Checkpoint, b: Checkpoint, c: Checkpoint)
    requires CheckpointForward(a, b) && CheckpointForward(b, c)
    ensures CheckpointForward(a, c)
  {
    hide LexLess;
    if CursorLess(a.cursor, b.cursor) && CursorLess(b.cursor, c.cursor) {
      CursorTransitive(a.cursor, b.cursor, c.cursor);
    }
  }

  lemma CheckpointsTransitive(a: map<CheckpointKey, Checkpoint>, b: map<CheckpointKey, Checkpoint>,
                              c: map<CheckpointKey, Checkpoint>)
    requires CheckpointsForward(a, b) && CheckpointsForward(b, c)
    ensures CheckpointsForward(a, c)
  {
    hide CheckpointForward;
    forall key | key in a ensures key in c && CheckpointForward(a[key], c[key]) {
      CheckpointTransitive(a[key], b[key], c[key]);
    }
  }

  lemma CheckpointsSelf(a: map<CheckpointKey, Checkpoint>)
    ensures CheckpointsForward(a, a)
  {
  }

  lemma ForwardSelf(s: Store)
    ensures Forward(s, s)
  {
  }

  lemma ForwardTransitive(r: Store, s: Store, t: Store)
    requires Forward(r, s) && Forward(s, t)
    ensures Forward(r, t)
  {
    CheckpointsTransitive(r.checkpoints, s.checkpoints, t.checkpoints);
    hide CheckpointsForward;
  }

  // ------------------------------------------------------------------ each storage operation moves forward

  lemma WriteForward(cps: map<CheckpointKey, Checkpoint>, key: CheckpointKey, expected: Option<Checkpoint>,
                     next: Cursor, completedAt: nat)
    requires WriteCheckpoint(cps, key, expected, next, completedAt).Ok?
    ensures var after := WriteCheckpoint(cps, key, expected, next, completedAt).value;
            CheckpointsForward(cps, after) && key in after && after[key].cursor == next
  {
    hide CursorLess;
  }

  predicate Changed(a: Evidence, b: Evidence) { a.mutations != b.mutations || a.events != b.events }

  /** Persisting reports an insertion exactly when a mutation or an event is new. */
  lemma PersistGrows(e: Evidence, sourceId: Bytes, policySha: Bytes32, f: Fact)
    requires Persist(e, sourceId, policySha, f).Ok?
    ensures var p := Persist(e, sourceId, policySha, f).value;
            EvidenceGrows(e, p.evidence) && (p.inserted <==> Changed(e, p.evidence))
  {
    var p := Persist(e, sourceId, policySha, f).value;
    var r := f.record;
    assert r.mutationId in p.evidence.mutations && EventKeyOf(r) in p.evidence.events;
    assert r.mutationId in e.mutations ==> p.evidence.mutations == e.mutations;
    assert EventKeyOf(r) in e.events ==> p.evidence.events == e.events;
  }

  lemma ChangedTransitive(a: Evidence, b: Evidence, c: Evidence)
    requires EvidenceGrows(a, b) && EvidenceGrows(b, c)
    ensures EvidenceGrows(a, c) && (Changed(a, c) <==> Changed(a, b) || Changed(b, c))
  {
    if c.mutations == a.mutations && c.events == a.events {
      assert b.mutations == a.mutations && b.events == a.events;
    }
  }

  lemma {:induction false} FactsGrow(e: Evidence, plan: Plan, p: Part, seen: bool, n: nat)
    requires n <= |p.facts| && PersistFacts(e, plan, p, seen, n).Ok?
    ensures var r := PersistFacts(e, plan, p, seen, n).value;
            EvidenceGrows(e, r.evidence) && (r.inserted <==> seen || Changed(e, r.evidence))
  {
    hide Persist, Changed, EvidenceGrows;
    if n == 0 {
      GrowsSelf(e);
    } else {
      FactsGrow(e, plan, p, seen, n - 1);
      var done := PersistFacts(e, plan, p, seen, n - 1).value;
      PersistGrows(done.evidence, p.sourceId, plan.policySha, p.facts[n - 1]);
      ChangedTransitive(e, done.evidence, PersistFacts(e, plan, p, seen, n).value.evidence);
    }
  }

  lemma GrowsSelf(e: Evidence)
    ensures EvidenceGrows(e, e) && !Changed(e, e)
  {
  }

  lemma {:induction false} PartsGrow(e: Evidence, plan: Plan, parts: seq<Part>, n: nat)
    requires n <= |parts| && PersistParts(e, plan, parts, n).Ok?
    ensures var r := PersistParts(e, plan, parts, n).value;
            EvidenceGrows(e, r.evidence) && (r.inserted <==> Changed(e, r.evidence))
  {
    hide PersistFacts, Changed, EvidenceGrows;
    if n == 0 {
      GrowsSelf(e);
    } else {
      PartsGrow(e, plan, parts, n - 1);
      var done := PersistParts(e, plan, parts, n - 1).value;
      FactsGrow(done.evidence, plan, parts[n - 1], done.inserted, |parts[n - 1].facts|);
      ChangedTransitive(e, done.evidence, PersistParts(e, plan, parts, n).value.evidence);
    }
  }

  lemma AdvanceForward(dirty: map<Bytes, Dirty>, tradeId: Bytes, policySha: Bytes32, updatedAt: nat,
                       expected: Option<Dirty>)
    requires AdvanceDirty(dirty, tradeId, policySha, updatedAt, expected).Ok?
    ensures DirtyForward(dirty, AdvanceDirty(dirty, tradeId, policySha, updatedAt, expected).value)
  {
  }

  /** The first `n` parts are durable: their rows are stored and their cursors have been reached. */
  predicate Durable(cps: map<CheckpointKey, Checkpoint>, plan: Plan, parts: seq<Part>, rows: seq<SourceRow>, n: nat)
    requires n <= |parts|
  {
    && |rows| == n
    && (forall i :: 0 <= i < n ==> PartDurable(cps, plan, parts[i], rows[i]))
  }

  predicate PartDurable(cps: map<CheckpointKey, Checkpoint>, plan: Plan, p: Part, row: SourceRow)
  {
    && RowFor(p) == Some(row)
    && (Eligible(p).Some? ==> KeyOf(plan, p) in cps && AtMost(Eligible(p).value, cps[KeyOf(plan, p)].cursor))
  }

  lemma StaysDurable(a: map<CheckpointKey, Checkpoint>, b: map<CheckpointKey, Checkpoint>, plan: Plan, p: Part,
                     row: SourceRow)
    requires CheckpointsForward(a, b) && PartDurable(a, plan, p, row)
    ensures PartDurable(b, plan, p, row)
  {
    hide RowFor, LexLess, Eligible;
    if Eligible(p).Some? {
      var key := KeyOf(plan, p);
      assert CheckpointForward(a[key], b[key]);
      if CursorLess(Eligible(p).value, a[key].cursor) && CursorLess(a[key].cursor, b[key].cursor) {
        CursorTransitive(Eligible(p).value, a[key].cursor, b[key].cursor);
      }
    }
  }

  lemma WritePartForward(done: Written, plan: Plan, p: Part, read: Option<Checkpoint>)
    requires WritePart(done, plan, p, read).Ok?
    ensures var after := WritePart(done, plan, p, read).value;
            && CheckpointsForward(done.checkpoints, after.checkpoints)
            && after.rows == done.rows + [RowFor(p).value] && RowFor(p).Some?
            && PartDurable(after.checkpoints, plan, p, RowFor(p).value)
  {
    hide RowFor, WriteCheckpoint, Eligible, CursorLess;
    if Eligible(p).Some? {
      WriteForward(done.checkpoints, KeyOf(plan, p), read, Eligible(p).value, p.result.finishedAt / 1000);
    }
  }

  lemma {:induction false} WritesForward(cps: map<CheckpointKey, Checkpoint>, plan: Plan, parts: seq<Part>,
                                         read: seq<Option<Checkpoint>>, n: nat)
    requires n <= |parts| == |read| && WriteParts(cps, plan, parts, read, n).Ok?
    ensures var w := WriteParts(cps, plan, parts, read, n).value;
            CheckpointsForward(cps, w.checkpoints) && Durable(w.checkpoints, plan, parts, w.rows, n)
  {
    CheckpointsSelf(cps);
    hide WritePart, PartDurable, CheckpointForward;
    if n > 0 {
      WritesForward(cps, plan, parts, read, n - 1);
      var done := WriteParts(cps, plan, parts, read, n - 1).value;
      var w := WriteParts(cps, plan, parts, read, n).value;
      WritePartForward(done, plan, parts[n - 1], read[n - 1]);
      CheckpointsTransitive(cps, done.checkpoints, w.checkpoints);
      forall i | 0 <= i < n - 1 ensures PartDurable(w.checkpoints, plan, parts[i], w.rows[i]) {
        StaysDurable(done.checkpoints, w.checkpoints, plan, parts[i], done.rows[i]);
      }
    }
  }

  // ------------------------------------------------------------------ commits

  /** The whole attempt is durable. */
  predicate AttemptDurable(s: Store, plan: Plan, parts: seq<Part>)
  {
    && plan.id in s.attempts && AttemptRowFor(plan) == Some(s.attempts[plan.id])
    && plan.id in s.sources && Durable(s.checkpoints, plan, parts, s.sources[plan.id], |parts|)
  }

  lemma FreshForward(s: Store, lease: Lease, plan: Plan, parts: seq<Part>, read: seq<Option<Checkpoint>>)
    requires StoreOk(s) && plan.id !in s.attempts && |read| == |parts| && CommitFresh(s, lease, plan, parts, read).Ok?
    ensures var r := CommitFresh(s, lease, plan, parts, read).value;
            StoreOk(r.store) && Forward(s, r.store) && AttemptDurable(r.store, plan, parts)
  {
    hide PersistParts, WriteParts, EvidenceGrows, CheckpointsForward, AdvanceDirty, DirtyForward, Durable,
         AttemptInsertable, AttemptRowFor, Changed, Scopes;
    var r := CommitFresh(s, lease, plan, parts, read).value;
    PartsGrow(s.evidence, plan, parts, |parts|);
    WritesForward(s.checkpoints, plan, parts, read, |parts|);
    DirtySelf(s.dirty);
    if PersistParts(s.evidence, plan, parts, |parts|).value.inserted {
      AdvanceForward(s.dirty, lease.job.tradeId, plan.policySha, LatestFinish(parts, |parts|),
        Some(s.dirty[lease.job.tradeId]));
    }
  }

  lemma DirtySelf(d: map<Bytes, Dirty>)
    ensures DirtyForward(d, d)
  {
  }

  lemma {:induction false} ReconciledOnce(s: Store, plan: Plan, parts: seq<Part>, rows: seq<SourceRow>, n: nat)
    requires n <= |parts| == |rows| && Durable(s.checkpoints, plan, parts, rows, |parts|)
    ensures Reconciled(s, plan, parts, rows, n) == Ok(true)
  {
    hide RowFor, Eligible, LexLess, CursorLess;
    if n > 0 {
      ReconciledOnce(s, plan, parts, rows, n - 1);
      assert PartDurable(s.checkpoints, plan, parts[n - 1], rows[n - 1]);
      if Eligible(parts[n - 1]).Some? {
        ReachedNotAhead(Eligible(parts[n - 1]).value, s.checkpoints[KeyOf(plan, parts[n - 1])].cursor);
      }
    }
  }

  /** A durable inventory reconciles. */
  lemma DurableReconciles(s: Store, plan: Plan, parts: seq<Part>)
    requires AttemptDurable(s, plan, parts)
    ensures ReconcileExisting(s, plan, parts) == Ok(true)
  {
    hide Durable, Reconciled, AttemptRowFor;
    DurableLength(s.checkpoints, plan, parts, s.sources[plan.id]);
    ReconciledOnce(s, plan, parts, s.sources[plan.id], |parts|);
  }

  lemma DurableLength(cps: map<CheckpointKey, Checkpoint>, plan: Plan, parts: seq<Part>, rows: seq<SourceRow>)
    requires Durable(cps, plan, parts, rows, |parts|)
    ensures |rows| == |parts|
  {
  }

  lemma StillDurable(s: Store, s': Store, plan: Plan, parts: seq<Part>)
    requires AttemptDurable(s, plan, parts) && Forward(s, s')
    ensures AttemptDurable(s', plan, parts)
  {
    hide PartDurable, CheckpointsForward, EvidenceGrows, DirtyForward, AttemptRowFor;
    forall i | 0 <= i < |parts| ensures PartDurable(s'.checkpoints, plan, parts[i], s.sources[plan.id][i]) {
      StaysDurable(s.checkpoints, s'.checkpoints, plan, parts[i], s.sources[plan.id][i]);
    }
  }

  lemma CommitForward(s: Store, lease: Lease, plan: Plan, parts: seq<Part>)
    requires StoreOk(s) && CommitReplays(s, lease, plan, parts).Ok?
    ensures var r := CommitReplays(s, lease, plan, parts).value;
            StoreOk(r.store) && Forward(s, r.store) && (r.value.created ==> AttemptDurable(r.store, plan, parts))
            && (!r.value.created ==> r.store == s && ReconcileExisting(s, plan, parts) == Ok(true))
            && r.value == Outcome(r.value.created, |parts|, r.value.dirtyAdvanced, Scopes(parts))
            && (!r.value.created ==> !r.value.dirtyAdvanced)
  {
    ForwardSelf(s);
    hide Reconciled, Forward, AttemptDurable, ReplaysMatch, LeaseHolds, ReadCheckpoints, Scopes, AttemptRowFor;
    if ReconcileExisting(s, plan, parts) == Ok(false) {
      NotYetStored(s, plan, parts);
      FreshForward(s, lease, plan, parts, ReadCheckpoints(s, plan, parts, |parts|).value);
      FreshOutcome(s, lease, plan, parts, ReadCheckpoints(s, plan, parts, |parts|).value);
    }
  }

  lemma FreshOutcome(s: Store, lease: Lease, plan: Plan, parts: seq<Part>, read: seq<Option<Checkpoint>>)
    requires |read| == |parts| && CommitFresh(s, lease, plan, parts, read).Ok?
    ensures var v := CommitFresh(s, lease, plan, parts, read).value.value;
            v == Outcome(true, |parts|, v.dirtyAdvanced, Scopes(parts))
  {
    hide PersistParts, WriteParts, AdvanceDirty, AttemptRowFor, AttemptInsertable, Scopes;
  }

  lemma {:induction false} ReconciledTrue(s: Store, plan: Plan, parts: seq<Part>, rows: seq<SourceRow>, n: nat)
    requires n <= |parts| == |rows|
    ensures Reconciled(s, plan, parts, rows, n) != Ok(false)
  {
    hide RowFor, CursorLess, Eligible;
    if n > 0 {
      ReconciledTrue(s, plan, parts, rows, n - 1);
    }
  }

  lemma NotYetStored(s: Store, plan: Plan, parts: seq<Part>)
    requires ReconcileExisting(s, plan, parts) == Ok(false)
    ensures plan.id !in s.attempts
  {
    hide Reconciled, AttemptRowFor;
    if plan.id in s.attempts {
      var rows := if plan.id in s.sources then s.sources[plan.id] else [];
      if |rows| == |parts| {
        ReconciledTrue(s, plan, parts, rows, |parts|);
      }
    }
  }

  lemma NextForward(s: Store, a: Action)
    requires StoreOk(s)
    ensures StoreOk(Next(s, a)) && Forward(s, Next(s, a))
  {
    ForwardSelf(s);
    hide CommitReplays, Persist, WriteCheckpoint, AdvanceDirty, CheckpointsForward, EvidenceGrows, DirtyForward;
    match a
    case CommitAttempt(lease, plan, parts) =>
      if CommitReplays(s, lease, plan, parts).Ok? {
        CommitForward(s, lease, plan, parts);
      }
    case PutJob(job) =>
    case Ingest(sourceId, policySha, fact) =>
      if Persist(s.evidence, sourceId, policySha, fact).Ok? {
        PersistGrows(s.evidence, sourceId, policySha, fact);
      }
    case MoveCheckpoint(key, expected, next, completedAt) =>
      if WriteCheckpoint(s.checkpoints, key, expected, next, completedAt).Ok? {
        WriteForward(s.checkpoints, key, expected, next, completedAt);
      }
    case MarkDirty(tradeId, policySha, updatedAt, expected) =>
      if AdvanceDirty(s.dirty, tradeId, policySha, updatedAt, expected).Ok? {
        AdvanceForward(s.dirty, tradeId, policySha, updatedAt, expected);
      }
  }

  /** Over any run no cursor, generation, evidence row or inventory is lost, rewritten or turned back. */
  lemma {:induction false} RunForward(s: Store, actions: seq<Action>)
    requires StoreOk(s)
    ensures StoreOk(Run(s, actions)) && Forward(s, Run(s, actions))
  {
    ForwardSelf(s);
    hide Forward, Next;
    if |actions| > 0 {
      var before := Run(s, actions[..|actions| - 1]);
      RunForward(s, actions[..|actions| - 1]);
      NextForward(before, actions[|actions| - 1]);
      ForwardTransitive(s, before, Run(s, actions));
    }
  }

  // ------------------------------------------------------------------ theorems

  /**
   * Committing an attempt again, at any later point of any run, succeeds with nothing
   * created and nothing written, whatever happened to leases, generations and checkpoints.
   */
  lemma CommitReplaysSilently(before: seq<Action>, lease: Lease, plan: Plan, parts: seq<Part>, after: seq<Action>)
    requires CommitReplays(Run(EMPTY, before), lease, plan, parts).Ok?
    requires CommitReplays(Run(EMPTY, before), lease, plan, parts).value.value.created
    ensures var r := CommitReplays(Run(EMPTY, before), lease, plan, parts).value;
            var s' := Run(r.store, after);
            CommitReplays(s', lease, plan, parts) == Ok(Step(s', r.value.(created := false, dirtyAdvanced := false)))
  {
    hide Forward, CommitReplays, AttemptDurable, ReconcileExisting, Next, Scopes, StoreOk;
    StartOk();
    RunForward(EMPTY, before);
    var s := Run(EMPTY, before);
    CommitForward(s, lease, plan, parts);
    var r := CommitReplays(s, lease, plan, parts).value;
    RunForward(r.store, after);
    var s' := Run(r.store, after);
    StillDurable(r.store, s', plan, parts);
    DurableReconciles(s', plan, parts);
    MatchedBefore(s, lease, plan, parts);
    ReplayOf(s', lease, plan, parts);
  }

  lemma StartOk()
    ensures StoreOk(EMPTY)
  {
  }

  lemma MatchedBefore(s: Store, lease: Lease, plan: Plan, parts: seq<Part>)
    requires CommitReplays(s, lease, plan, parts).Ok?
    ensures ReplaysMatch(lease, plan, parts)
  {
    hide ReplaysMatch, Commit;
  }

  lemma ReplayOf(s: Store, lease: Lease, plan: Plan, parts: seq<Part>)
    requires ReplaysMatch(lease, plan, parts) && ReconcileExisting(s, plan, parts) == Ok(true)
    ensures CommitReplays(s, lease, plan, parts) == Ok(Step(s, Outcome(false, |parts|, false, Scopes(parts))))
  {
    hide ReplaysMatch, ReconcileExisting, Scopes;
  }

  /** An attempt identity is committed at most once over a run, whatever plan or lease is presented for it. */
  lemma AttemptCreatedOnce(before: seq<Action>, lease: Lease, plan: Plan, parts: seq<Part>, after: seq<Action>,
                           lease': Lease, plan': Plan, parts': seq<Part>)
    requires CommitReplays(Run(EMPTY, before), lease, plan, parts).Ok?
    requires CommitReplays(Run(EMPTY, before), lease, plan, parts).value.value.created && plan'.id == plan.id
    ensures var r := CommitReplays(Run(EMPTY, before), lease, plan, parts).value;
            var again := CommitReplays(Run(r.store, after), lease', plan', parts');
            again.Ok? ==> !again.value.value.created && again.value.store == Run(r.store, after)
  {
    hide CommitReplays, Durable, ReconcileExisting, Next, Scopes, CheckpointsForward, EvidenceGrows, DirtyForward, Run;
    StartOk();
    RunForward(EMPTY, before);
    CommitForward(Run(EMPTY, before), lease, plan, parts);
    var r := CommitReplays(Run(EMPTY, before), lease, plan, parts).value;
    RunForward(r.store, after);
    var s' := Run(r.store, after);
    if CommitReplays(s', lease', plan', parts').Ok? {
      CommitForward(s', lease', plan', parts');
      assert CommitReplays(s', lease', plan', parts').value.value.created ==> plan'.id !in s'.attempts by {
        if CommitReplays(s', lease', plan', parts').value.value.created {
          FreshCommitIsFenced(s', lease', plan', parts');
        }
      }
    }
  }

  /** Checkpoints never go backwards over any run. */
  lemma CheckpointsNeverGoBack(before: seq<Action>, after: seq<Action>, key: CheckpointKey)
    requires key in Run(EMPTY, before).checkpoints
    ensures var s, s' := Run(EMPTY, before), Run(Run(EMPTY, before), after);
            && key in s'.checkpoints && !CursorLess(s'.checkpoints[key].cursor, s.checkpoints[key].cursor)
            && s.checkpoints[key].revision <= s'.checkpoints[key].revision
            && (s.checkpoints[key].revision == s'.checkpoints[key].revision
               ==> s.checkpoints[key] == s'.checkpoints[key])
  {
    hide EvidenceGrows, DirtyForward, InventoriesKept, StoreOk, Run, LexLess, CursorLess;
    StartOk();
    RunForward(EMPTY, before);
    RunForward(Run(EMPTY, before), after);
    var s, s' := Run(EMPTY, before), Run(Run(EMPTY, before), after);
    assert CheckpointForward(s.checkpoints[key], s'.checkpoints[key]);
    ReachedNotAhead(s.checkpoints[key].cursor, s'.checkpoints[key].cursor);
  }

  /**
   * A commit advances the dirty generation of its trade by exactly one when it brought a new
   * mutation or signed event, and touches no dirty row otherwise; the reported flag says which.
   */
  lemma DirtyAdvancesForNewEvidence(s: Store, lease: Lease, plan: Plan, parts: seq<Part>)
    requires CommitReplays(s, lease, plan, parts).Ok?
    ensures var r := CommitReplays(s, lease, plan, parts).value;
            && (r.value.dirtyAdvanced <==> Changed(s.evidence, r.store.evidence))
            && (if r.value.dirtyAdvanced
                then lease.job.tradeId in s.dirty && r.store.dirty.Keys == s.dirty.Keys
                     && r.store.dirty[lease.job.tradeId].generation == plan.inputGeneration + 1
                     && s.dirty[lease.job.tradeId].generation == plan.inputGeneration
                     && forall t :: t in s.dirty && t != lease.job.tradeId ==> r.store.dirty[t] == s.dirty[t]
                else r.store.dirty == s.dirty)
  {
    hide ReconcileExisting, ReplaysMatch, LeaseHolds, PersistParts, WriteParts, Changed, AttemptRowFor,
         AttemptInsertable, LatestFinish, Scopes, EvidenceGrows, ReadCheckpoints;
    GrowsSelf(s.evidence);
    if ReconcileExisting(s, plan, parts) == Ok(false) {
      PartsGrow(s.evidence, plan, parts, |parts|);
    }
  }

  /** A first commit needs the exact lease and the generation it was planned for. */
  lemma FreshCommitIsFenced(s: Store, lease: Lease, plan: Plan, parts: seq<Part>)
    requires CommitReplays(s, lease, plan, parts).Ok? && CommitReplays(s, lease, plan, parts).value.value.created
    ensures lease.job.id in s.jobs && s.jobs[lease.job.id] == lease.job && lease.job.state.Leased?
    ensures lease.job.leaseExpires == Some(lease.expires) && plan.id !in s.attempts
    ensures lease.job.tradeId in s.dirty && s.dirty[lease.job.tradeId].generation == plan.inputGeneration
    ensures forall i :: 0 <= i < |parts| ==>
              parts[i].priorCursor == (if KeyOf(plan, parts[i]) in s.checkpoints
                                       then Some(s.checkpoints[KeyOf(plan, parts[i])].cursor) else None)
  {
    hide ReconcileExisting, ReplaysMatch, PersistParts, WriteParts, AttemptRowFor, AttemptInsertable,
         Scopes, AdvanceDirty;
    NotYetStored(s, plan, parts);
    PriorsRead(s, plan, parts, |parts|);
  }

  lemma {:induction false} PriorsRead(s: Store, plan: Plan, parts: seq<Part>, n: nat)
    requires n <= |parts| && ReadCheckpoints(s, plan, parts, n).Ok?
    ensures forall i :: 0 <= i < n ==>
              parts[i].priorCursor == (if KeyOf(plan, parts[i]) in s.checkpoints
                                       then Some(s.checkpoints[KeyOf(plan, parts[i])].cursor) else None)
  {
    if n > 0 {
      PriorsRead(s, plan, parts, n - 1);
    }
  }

  // ------------------------------------------------------------------ deadlines

  /**
   * A valid result that finishes at or after lease expiry timed out, and the commit refuses it
   * on every store.  When the deadline was capped to the lease expiry, every timed-out result
   * is of that kind, so such a source can never be committed.
   */
  lemma CappedTimeoutNeverCommits(raw: Digest -> Bytes32, lease: Lease, config: Config, start: nat,
                                  i: nat, outcome: Completion, startedAt: nat, finishedAt: nat, count: nat, bytes: nat,
                                  s: Store, parts: seq<Part>)
    requires FromClaim(raw, lease, config, start).Ok?
    requires var p := FromClaim(raw, lease, config, start).value;
             && i < |p.requests| && i < |parts|
             && NewResult(p.requests[i], outcome, startedAt, finishedAt, count, bytes) == Ok(parts[i].result)
    ensures var p := FromClaim(raw, lease, config, start).value;
            && (finishedAt >= lease.expires ==>
                  outcome.IncompleteTimeout? && CommitReplays(s, lease, p, parts) == Err(CommitError.InvalidInput))
            && (outcome.IncompleteTimeout? && p.requests[i].deadline == lease.expires ==>
                  CommitReplays(s, lease, p, parts) == Err(CommitError.InvalidInput))
  {
    hide FromClaim, Commit, Ordered;
    PlansAreSound(raw, lease, config, start);
    var p := FromClaim(raw, lease, config, start).value;
    assert p.requests[i].deadline <= lease.expires;
    if |parts| == |p.requests| && finishedAt >= lease.expires {
      assert !PartMatches(lease, p, p.requests[i], parts[i]);
    }
  }

  // ------------------------------------------------------------------ the inventory digest

  lemma CancelTail(f: Fact, g: Fact, r: Bytes, s: Bytes)
    requires FactFits(f) && FactFits(g) && EncodeTail(f) + r == EncodeTail(g) + s
    ensures f.record.author == g.record.author && f.record.eventKind == g.record.eventKind
    ensures f.record.authoredAt == g.record.authoredAt && f.record.content == g.record.content
    ensures f.record.eventJson == g.record.eventJson && f.observedAt == g.observedAt && r == s
  {
    hide U32, U64, Framed;
    var a, b := f.record, g.record;
    var f4, g4 := Framed(a.eventJson) + U64(f.observedAt), Framed(b.eventJson) + U64(g.observedAt);
    var f3, g3 := Framed(a.content) + f4, Framed(b.content) + g4;
    var f2, g2 := U64(a.authoredAt) + f3, U64(b.authoredAt) + g3;
    var f1, g1 := U32(a.eventKind) + f2, U32(b.eventKind) + g2;
    Assoc(a.author, f1, r);
    Assoc(b.author, g1, s);
    Cancel(a.author, b.author, f1 + r, g1 + s);
    Assoc(U32(a.eventKind), f2, r);
    Assoc(U32(b.eventKind), g2, s);
    CancelU32(a.eventKind, b.eventKind, f2 + r, g2 + s);
    Assoc(U64(a.authoredAt), f3, r);
    Assoc(U64(b.authoredAt), g3, s);
    CancelU64(a.authoredAt, b.authoredAt, f3 + r, g3 + s);
    Assoc(Framed(a.content), f4, r);
    Assoc(Framed(b.content), g4, s);
    CancelFramed(a.content, b.content, f4 + r, g4 + s);
    Assoc(Framed(a.eventJson), U64(f.observedAt), r);
    Assoc(Framed(b.eventJson), U64(g.observedAt), s);
    CancelFramed(a.eventJson, b.eventJson, U64(f.observedAt) + r, U64(g.observedAt) + s);
    CancelU64(f.observedAt, g.observedAt, r, s);
  }

  /** One encoded fact is self-delimiting. */
  lemma CancelFact(f: Fact, g: Fact, r: Bytes, s: Bytes)
    requires FactFits(f) && FactFits(g) && EncodeFact(f) + r == EncodeFact(g) + s
    ensures f == g && r == s
  {
    hide U32, Framed, EncodeTail;
    var a, b := f.record, g.record;
    var f5, g5 := a.signature + EncodeTail(f), b.signature + EncodeTail(g);
    var f4, g4 := a.eventId + f5, b.eventId + g5;
    var f3, g3 := U32(a.schemaVersion) + f4, U32(b.schemaVersion) + g4;
    var f2, g2 := Framed(a.contractId) + f3, Framed(b.contractId) + g3;
    var f1, g1 := a.tradeId + f2, b.tradeId + g2;
    Assoc(a.mutationId, f1, r);
    Assoc(b.mutationId, g1, s);
    Cancel(a.mutationId, b.mutationId, f1 + r, g1 + s);
    Assoc(a.tradeId, f2, r);
    Assoc(b.tradeId, g2, s);
    Cancel(a.tradeId, b.tradeId, f2 + r, g2 + s);
    Assoc(Framed(a.contractId), f3, r);
    Assoc(Framed(b.contractId), g3, s);
    CancelFramed(a.contractId, b.contractId, f3 + r, g3 + s);
    Assoc(U32(a.schemaVersion), f4, r);
    Assoc(U32(b.schemaVersion), g4, s);
    CancelU32(a.schemaVersion, b.schemaVersion, f4 + r, g4 + s);
    Assoc(a.eventId, f5, r);
    Assoc(b.eventId, g5, s);
    Cancel(a.eventId, b.eventId, f5 + r, g5 + s);
    Assoc(a.signature, EncodeTail(f), r);
    Assoc(b.signature, EncodeTail(g), s);
    Cancel(a.signature, b.signature, EncodeTail(f) + r, EncodeTail(g) + s);
    CancelTail(f, g, r, s);
  }

  lemma {:induction false} CancelFacts(fs: seq<Fact>, gs: seq<Fact>)
    requires |fs| == |gs| && EncodeFacts(fs) == EncodeFacts(gs)
    requires forall i :: 0 <= i < |fs| ==> FactFits(fs[i]) && FactFits(gs[i])
    ensures fs == gs
  {
    hide EncodeFact;
    if |fs| > 0 {
      CancelFact(fs[0], gs[0], EncodeFacts(fs[1..]), EncodeFacts(gs[1..]));
      CancelFacts(fs[1..], gs[1..]);
      assert fs == [fs[0]] + fs[1..] && gs == [gs[0]] + gs[1..];
    }
  }

  /** One inventory digest names one ordered fact list. */
  lemma InventoryDigestInjective(fs: seq<Fact>, gs: seq<Fact>)
    requires InventoryDigest(fs).Some? && InventoryDigest(fs) == InventoryDigest(gs)
    requires forall f :: f in fs || f in gs ==> FactFits(f)
    ensures fs == gs
  {
    hide EncodeFacts, U32, Domain, FactFits;
    Cancel(Domain(SOURCE_INVENTORY), Domain(SOURCE_INVENTORY), U32(|fs|) + EncodeFacts(fs),
      U32(|gs|) + EncodeFacts(gs));
    CancelU32(|fs|, |gs|, EncodeFacts(fs), EncodeFacts(gs));
    CancelFacts(fs, gs);
  }
}
