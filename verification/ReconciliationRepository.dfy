/**
 * The commit transaction as the service runs it: loops over the parts that write
 * evidence, checkpoints and result rows one by one, rolled back on the first error.
 */
module ReconciliationRepository {
  import opened Prelude
  import opened Encoding
  import opened ReconciliationPlan
  import opened ReconciliationCommit

  function StoreAfter(before: Store, r: Result<Step, CommitError>): Store
  {
    if r.Ok? then r.value.store else before
  }

  function ValueOf(r: Result<Step, CommitError>): Result<Outcome, CommitError>
  {
    match r case Ok(step) => Ok(step.value) case Err(e) => Err(e)
  }

  // The first error of a pass decides the result of the whole pass.

  lemma {:induction false} ReadStops(s: Store, plan: Plan, parts: seq<Part>, m: nat, n: nat)
    requires m <= n <= |parts| && ReadCheckpoints(s, plan, parts, m).Err?
    ensures ReadCheckpoints(s, plan, parts, n) == ReadCheckpoints(s, plan, parts, m)
    decreases n
  {
    if m < n {
      ReadStops(s, plan, parts, m, n - 1);
    }
  }

  lemma {:induction false} FactsStop(e: Evidence, plan: Plan, p: Part, seen: bool, m: nat, n: nat)
    requires m <= n <= |p.facts| && PersistFacts(e, plan, p, seen, m).Err?
    ensures PersistFacts(e, plan, p, seen, n) == PersistFacts(e, plan, p, seen, m)
    decreases n
  {
    hide Persist;
    if m < n {
      FactsStop(e, plan, p, seen, m, n - 1);
    }
  }

  lemma {:induction false} PartsStop(e: Evidence, plan: Plan, parts: seq<Part>, m: nat, n: nat)
    requires m <= n <= |parts| && PersistParts(e, plan, parts, m).Err?
    ensures PersistParts(e, plan, parts, n) == PersistParts(e, plan, parts, m)
    decreases n
  {
    hide PersistFacts;
    if m < n {
      PartsStop(e, plan, parts, m, n - 1);
    }
  }

  lemma {:induction false} WritesStop(cps: map<CheckpointKey, Checkpoint>, plan: Plan, parts: seq<Part>,
                                      read: seq<Option<Checkpoint>>, m: nat, n: nat)
    requires m <= n <= |parts| == |read| && WriteParts(cps, plan, parts, read, m).Err?
    ensures WriteParts(cps, plan, parts, read, n) == WriteParts(cps, plan, parts, read, m)
    decreases n
  {
    hide WritePart;
    if m < n {
      WritesStop(cps, plan, parts, read, m, n - 1);
    }
  }

  /** Hashing the facts field by field gives the digest of their whole encoding. */
  method ComputeInventoryDigest(facts: seq<Fact>) returns (r: Option<Digest>)
    ensures r == InventoryDigest(facts)
  {
    hide U32, U64, Framed, Domain;
    if |facts| >= U32_LIMIT {
      return None;
    }
    var absorbed := Domain(SOURCE_INVENTORY);
    absorbed := absorbed + U32(|facts|);
    Assoc(Domain(SOURCE_INVENTORY), U32(|facts|), EncodeFacts(facts));
    assert facts[0..] == facts;
    var i := 0;
    while i < |facts|
      invariant 0 <= i <= |facts|
      invariant absorbed + EncodeFacts(facts[i..]) == Domain(SOURCE_INVENTORY) + (U32(|facts|) + EncodeFacts(facts))
    {
      var f := facts[i];
      ghost var was := absorbed;
      absorbed := absorbed + f.record.mutationId + f.record.tradeId + Framed(f.record.contractId);
      absorbed := absorbed + U32(f.record.schemaVersion) + f.record.eventId + f.record.signature;
      absorbed := absorbed + f.record.author + U32(f.record.eventKind) + U64(f.record.authoredAt);
      absorbed := absorbed + Framed(f.record.content) + Framed(f.record.eventJson) + U64(f.observedAt);
      AbsorbFact(was, facts, i);
      i := i + 1;
    }
    assert absorbed + [] == absorbed;
    r := Some(Sha256(absorbed));
  }

  lemma AbsorbFact(was: Bytes, facts: seq<Fact>, i: nat)
    requires i < |facts|
    ensures var r := facts[i].record;
            was + r.mutationId + r.tradeId + Framed(r.contractId) + U32(r.schemaVersion) + r.eventId + r.signature
            + r.author + U32(r.eventKind) + U64(r.authoredAt) + Framed(r.content) + Framed(r.eventJson)
            + U64(facts[i].observedAt) + EncodeFacts(facts[i + 1..])
            == was + EncodeFacts(facts[i..])
  {
    hide U32, U64, Framed;
    var f, rest := facts[i], EncodeFacts(facts[i + 1..]);
    var r := f.record;
    assert facts[i..][0] == f && facts[i..][1..] == facts[i + 1..];
    var head := was + r.mutationId + r.tradeId + Framed(r.contractId) + U32(r.schemaVersion) + r.eventId + r.signature;
    assert head + EncodeTail(f) == was + EncodeFact(f) by {
      hide EncodeTail;
    }
    assert head + r.author + U32(r.eventKind) + U64(r.authoredAt) + Framed(r.content) + Framed(r.eventJson)
      + U64(f.observedAt)
           == head + EncodeTail(f);
    Assoc(was, EncodeFact(f), rest);
  }

  class Repository {
    var jobs: map<Bytes32, Job>
    var dirty: map<Bytes, Dirty>
    var checkpoints: map<CheckpointKey, Checkpoint>
    var attempts: map<Bytes32, AttemptRow>
    var sources: map<Bytes32, seq<SourceRow>>
    var evidence: Evidence

    function Contents(): Store
      reads this
    {
      Store(jobs, dirty, checkpoints, attempts, sources, evidence)
    }

    constructor ()
      ensures Contents() == EMPTY
    {
      jobs, dirty, checkpoints, attempts, sources := map[], map[], map[], map[], map[];
      evidence := Evidence(map[], map[], {});
    }

    method Rollback(to: Store)
      modifies this
      ensures Contents() == to
    {
      jobs, dirty, checkpoints := to.jobs, to.dirty, to.checkpoints;
      attempts, sources, evidence := to.attempts, to.sources, to.evidence;
    }

    /** Reads and compares every checkpoint before anything is written. */
    method ReadAll(plan: Plan, parts: seq<Part>) returns (r: Result<seq<Option<Checkpoint>>, CommitError>)
      ensures r == ReadCheckpoints(Contents(), plan, parts, |parts|)
    {
      var read := [];
      var n := 0;
      while n < |parts|
        invariant 0 <= n <= |parts|
        invariant ReadCheckpoints(Contents(), plan, parts, n) == Ok(read)
      {
        var c := ReadCheckpoint(checkpoints, KeyOf(plan, parts[n]));
        if (if c.Some? then Some(c.value.cursor) else None) != parts[n].priorCursor {
          ReadStops(Contents(), plan, parts, n + 1, |parts|);
          return Err(GenerationConflict);
        }
        read := read + [c];
        n := n + 1;
      }
      r := Ok(read);
    }

    /** Persists every fact of every part, accumulating whether anything was new. */
    method PersistAll(plan: Plan, parts: seq<Part>) returns (r: Result<bool, CommitError>)
      modifies this`evidence
      ensures match PersistParts(old(evidence), plan, parts, |parts|)
              case Err(e) => r == Err(e)
              case Ok(p) => r == Ok(p.inserted) && evidence == p.evidence
    {
      hide Persist;
      ghost var start := evidence;
      var newEvidence := false;
      var n := 0;
      while n < |parts|
        invariant 0 <= n <= |parts|
        invariant PersistParts(start, plan, parts, n) == Ok(Persisted(evidence, newEvidence))
      {
        var p := parts[n];
        ghost var e, seen := evidence, newEvidence;
        var m := 0;
        while m < |p.facts|
          invariant 0 <= m <= |p.facts|
          invariant PersistFacts(e, plan, p, seen, m) == Ok(Persisted(evidence, newEvidence))
        {
          var one := Persist(evidence, p.sourceId, plan.policySha, p.facts[m]);
          if one.Err? {
            FactsStop(e, plan, p, seen, m + 1, |p.facts|);
            PartsStop(start, plan, parts, n + 1, |parts|);
            return Err(one.error);
          }
          evidence := one.value.evidence;
          newEvidence := newEvidence || one.value.inserted;
          m := m + 1;
        }
        n := n + 1;
      }
      r := Ok(newEvidence);
    }

    /** Advances one part's checkpoint, if it is eligible, and appends its result row. */
    method WriteOne(plan: Plan, p: Part, read: Option<Checkpoint>) returns (r: Option<CommitError>)
      requires plan.id in sources
      modifies this`checkpoints, this`sources
      ensures match WritePart(Written(old(checkpoints), old(sources[plan.id])), plan, p, read)
              case Err(e) => r == Some(e)
              case Ok(w) => r == None && checkpoints == w.checkpoints && sources == old(sources)[plan.id := w.rows]
    {
      hide WriteCheckpoint, Eligible, RowOf, InventoryDigest, KeyOf;
      if Eligible(p).Some? {
        var written := WriteCheckpoint(checkpoints, KeyOf(plan, p), read, Eligible(p).value,
          p.result.finishedAt / 1000);
        if written.Err? {
          return Some(written.error);
        }
        checkpoints := written.value;
      }
      var inventory := ComputeInventoryDigest(p.facts);
      if inventory.None? || exists i :: 0 <= i < |sources[plan.id]| && sources[plan.id][i].requestId == p.requestId {
        return Some(Storage);
      }
      sources := sources[plan.id := sources[plan.id] + [RowOf(p, inventory.value)]];
      r := None;
    }

    /** Writes checkpoints and result rows in part order. */
    method WriteAll(plan: Plan, parts: seq<Part>, read: seq<Option<Checkpoint>>) returns (r: Option<CommitError>)
      requires |read| == |parts|
      modifies this`checkpoints, this`sources
      ensures match WriteParts(old(checkpoints), plan, parts, read, |parts|)
              case Err(e) => r == Some(e)
              case Ok(w) => r == None && checkpoints == w.checkpoints && sources == old(sources)[plan.id := w.rows]
    {
      hide WritePart;
      ghost var start, kept := checkpoints, sources;
      sources := sources[plan.id := []];
      var n := 0;
      while n < |parts|
        invariant 0 <= n <= |parts| && plan.id in sources
        invariant sources == kept[plan.id := sources[plan.id]]
        invariant WriteParts(start, plan, parts, read, n) == Ok(Written(checkpoints, sources[plan.id]))
      {
        var failed := WriteOne(plan, parts[n], read[n]);
        if failed.Some? {
          WritesStop(start, plan, parts, read, n + 1, |parts|);
          return failed;
        }
        n := n + 1;
      }
      r := None;
    }

    method CommitAttempt(lease: Lease, plan: Plan, parts: seq<Part>) returns (r: Result<Outcome, CommitError>)
      modifies this
      ensures Contents() == StoreAfter(old(Contents()), CommitReplays(old(Contents()), lease, plan, parts))
      ensures r == ValueOf(CommitReplays(old(Contents()), lease, plan, parts))
    {
      hide ReplaysMatch, ReconcileExisting, LeaseHolds, ReadCheckpoints, PersistParts, WriteParts, AttemptInsertable,
           Scopes, AdvanceDirty, LatestFinish;
      var before := Contents();
      if !ReplaysMatch(lease, plan, parts) {
        return Err(CommitError.InvalidInput);
      }
      var existing := ReconcileExisting(before, plan, parts);
      if existing.Err? {
        return Err(existing.error);
      }
      if existing.value {
        return Ok(Outcome(false, |parts|, false, Scopes(parts)));
      }
      if !LeaseHolds(before, lease) {
        return Err(LeaseLost);
      }
      var trade := lease.job.tradeId;
      if trade !in dirty || dirty[trade].generation != plan.inputGeneration
        || dirty[trade].policySha != plan.policySha {
        return Err(GenerationConflict);
      }
      var current := dirty[trade];
      var read := ReadAll(plan, parts);
      if read.Err? {
        return Err(read.error);
      }
      var row := AttemptRowFor(plan);
      if row.None? || !AttemptInsertable(before, row.value) {
        return Err(Storage);
      }
      attempts := attempts[plan.id := row.value];
      var newEvidence := PersistAll(plan, parts);
      if newEvidence.Err? {
        Rollback(before);
        return Err(newEvidence.error);
      }
      if newEvidence.value {
        var advanced := AdvanceDirty(dirty, trade, plan.policySha, LatestFinish(parts, |parts|), Some(current));
        if advanced.Err? {
          Rollback(before);
          return Err(advanced.error);
        }
        dirty := advanced.value;
      }
      var failed := WriteAll(plan, parts, read.value);
      if failed.Some? {
        Rollback(before);
        return Err(failed.value);
      }
      r := Ok(Outcome(true, |parts|, newEvidence.value, Scopes(parts)));
    }
  }
}
