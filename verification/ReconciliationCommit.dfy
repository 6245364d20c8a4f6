/**
 * The atomic commit of one reconciliation attempt: evidence, dirty generation,
 * cursor checkpoints and the immutable result inventory, all or nothing.
 */
module ReconciliationCommit {
  import opened Prelude
  import opened Encoding
  import opened ReconciliationPlan

  datatype Cursor = Cursor(createdAt: nat, eventId: Bytes)
  datatype Checkpoint = Checkpoint(cursor: Cursor, revision: nat, completedAt: nat)
  datatype CheckpointKey = CheckpointKey(sourceId: Bytes, policySha: Bytes32, tradeId: Bytes)
  datatype Dirty = Dirty(generation: nat, policySha: Bytes32, updatedAt: nat)

  /** One admitted signed mutation. */
  datatype Record = Record(
    mutationId: Bytes32, tradeId: Bytes, contractId: Bytes, schemaVersion: nat, eventId: Bytes32, signature: Bytes,
    author: Bytes32, eventKind: nat, authoredAt: nat, content: Bytes, eventJson: Bytes)

  datatype Fact = Fact(record: Record, observedAt: nat)

  datatype Mutation = Mutation(
    tradeId: Bytes, contractId: Bytes, schemaVersion: nat, eventKind: nat, author: Bytes32, content: Bytes)
  datatype EventKey = EventKey(eventId: Bytes32, signature: Bytes)
  datatype Event = Event(mutationId: Bytes32, author: Bytes32, eventKind: nat, authoredAt: nat, eventJson: Bytes)
  datatype Observation = Observation(
    sourceId: Bytes, policySha: Bytes32, eventId: Bytes32, signature: Bytes, observedAt: nat)

  datatype Evidence = Evidence(mutations: map<Bytes32, Mutation>, events: map<EventKey, Event>,
                               observations: set<Observation>)

  /** One source's replay as the commit consumes it. */
  datatype Part = Part(
    replayId: Bytes32, requestId: Digest, sourceId: Bytes, tradeId: Bytes, required: bool, policySha: Bytes32,
    selectorSha: Bytes32, priorCursor: Option<Cursor>, overlapSeconds: nat, since: nat, result: SourceResult,
    duplicates: nat, candidate: Option<Cursor>, firstObservedAt: Option<nat>, facts: seq<Fact>)

  datatype AttemptRow = AttemptRow(
    jobId: Bytes32, tradeId: Bytes, inputGeneration: nat, policySha: Bytes32, startedAt: nat, deadline: nat,
    sourceCount: nat)

  datatype SourceRow = SourceRow(
    requestId: Digest, sourceId: Bytes, tradeId: Bytes, required: bool, selectorSha: Bytes32, replayId: Bytes32,
    result: SourceResult, inventorySha: Digest, duplicates: nat, firstObservedAt: Option<nat>,
    priorCursor: Option<Cursor>, overlapSeconds: nat, since: nat, candidate: Option<Cursor>, advanced: bool)

  datatype Store = Store(
    jobs: map<Bytes32, Job>, dirty: map<Bytes, Dirty>, checkpoints: map<CheckpointKey, Checkpoint>,
    attempts: map<Bytes32, AttemptRow>, sources: map<Bytes32, seq<SourceRow>>, evidence: Evidence)

  datatype CommitError = InvalidInput | LeaseLost | GenerationConflict | Conflict | Storage

  datatype CursorScope = CursorScope(
    sourceId: Bytes, tradeId: Bytes, policySha: Bytes32, selectorSha: Bytes32, cursor: Cursor)
  datatype Outcome = Outcome(created: bool, sourceCount: nat, dirtyAdvanced: bool, cursors: seq<CursorScope>)
  datatype Step = Step(store: Store, value: Outcome)

  const EMPTY := Store(map[], map[], map[], map[], map[], Evidence(map[], map[], {}))
  const SOURCE_INVENTORY := "radroots.rhi.reconciliation_source_inventory.v1"

  // ------------------------------------------------------------------ cursors

  predicate CursorLess(a: Cursor, b: Cursor)
  {
    a.createdAt < b.createdAt || (a.createdAt == b.createdAt && LexLess(a.eventId, b.eventId))
  }

  /** A cursor moves only when the source completed and its candidate is newer than before. */
  function Eligible(p: Part): Option<Cursor>
  {
    if p.result.outcome.Complete? && p.candidate.Some?
       && (p.priorCursor.None? || CursorLess(p.priorCursor.value, p.candidate.value))
    then p.candidate else None
  }

  // ------------------------------------------------------------------ the accepted inventory

  function EncodeFact(f: Fact): Bytes
  {
    var r := f.record;
    r.mutationId + (r.tradeId + (Framed(r.contractId)
      + (U32(r.schemaVersion) + (r.eventId + (r.signature + EncodeTail(f))))))
  }

  function EncodeTail(f: Fact): Bytes
  {
    var r := f.record;
    r.author + (U32(r.eventKind) + (U64(r.authoredAt)
      + (Framed(r.content) + (Framed(r.eventJson) + U64(f.observedAt)))))
  }

  function EncodeFacts(fs: seq<Fact>): Bytes
  {
    if |fs| == 0 then [] else EncodeFact(fs[0]) + EncodeFacts(fs[1..])
  }

  function InventoryDigest(fs: seq<Fact>): Option<Digest>
  {
    if |fs| < U32_LIMIT then Some(Sha256(Domain(SOURCE_INVENTORY) + (U32(|fs|) + EncodeFacts(fs)))) else None
  }

  /** Field widths the record types fix. */
  predicate FactFits(f: Fact)
  {
    var r := f.record;
    && |r.tradeId| == 16 && |r.signature| == 64 && |r.contractId| < U64_LIMIT && r.schemaVersion < U32_LIMIT
    && r.eventKind < U32_LIMIT && r.authoredAt < U64_LIMIT && |r.content| < U64_LIMIT && |r.eventJson| < U64_LIMIT
    && f.observedAt < U64_LIMIT
  }

  // ------------------------------------------------------------------ the specified storage operations

  function MutationOf(r: Record): Mutation { Mutation(r.tradeId, r.contractId, r.schemaVersion, r.eventKind, r.author,
    r.content) }
  function EventOf(r: Record): Event { Event(r.mutationId, r.author, r.eventKind, r.authoredAt, r.eventJson) }
  function EventKeyOf(r: Record): EventKey { EventKey(r.eventId, r.signature) }

  datatype Persisted = Persisted(evidence: Evidence, inserted: bool)

  /** Inserts what is missing, accepts what is equal and refuses what differs. */
  function Persist(e: Evidence, sourceId: Bytes, policySha: Bytes32, f: Fact): Result<Persisted, CommitError>
  {
    var r := f.record;
    var key := EventKeyOf(r);
    if r.mutationId in e.mutations && e.mutations[r.mutationId] != MutationOf(r) then Err(Conflict)
    else if key in e.events && e.events[key] != EventOf(r) then Err(Conflict)
    else
      Ok(Persisted(Evidence(e.mutations[r.mutationId := MutationOf(r)], e.events[key := EventOf(r)],
                            e.observations + {Observation(sourceId, policySha, r.eventId, r.signature, f.observedAt)}),
                   r.mutationId !in e.mutations || key !in e.events))
  }

  /** Inserts the first checkpoint of a key, or advances the expected revision to a newer cursor. */
  function WriteCheckpoint(cps: map<CheckpointKey, Checkpoint>, key: CheckpointKey, expected: Option<Checkpoint>,
                           next: Cursor, completedAt: nat): Result<map<CheckpointKey, Checkpoint>, CommitError>
  {
    if next.createdAt > MAX_I64 || completedAt > MAX_I64 || completedAt == 0 then Err(Storage)
    else match expected
      case None => if key in cps then Err(Storage) else Ok(cps[key := Checkpoint(next, 1, completedAt)])
      case Some(current) =>
        if key !in cps || cps[key].revision != current.revision then Err(GenerationConflict)
        else if completedAt < cps[key].completedAt || !CursorLess(cps[key].cursor, next) then Err(Storage)
        else Ok(cps[key := Checkpoint(next, cps[key].revision + 1, completedAt)])
  }

  /** Advances the dirty generation of a trade by one, under the expected row. */
  function AdvanceDirty(dirty: map<Bytes, Dirty>, tradeId: Bytes, policySha: Bytes32, updatedAt: nat,
                        expected: Option<Dirty>)
    : Result<map<Bytes, Dirty>, CommitError>
  {
    if updatedAt > MAX_I64 then Err(Storage)
    else match expected
      case None => if tradeId in dirty then Err(Storage) else Ok(dirty[tradeId := Dirty(1, policySha, updatedAt)])
      case Some(current) =>
        if current.policySha != policySha || updatedAt < current.updatedAt then Err(GenerationConflict)
        else if current.generation + 1 > MAX_I64 then Err(Storage)
        else if tradeId !in dirty || dirty[tradeId].generation != current.generation then Err(GenerationConflict)
        else if updatedAt < dirty[tradeId].updatedAt then Err(Storage)
        else Ok(dirty[tradeId := Dirty(current.generation + 1, policySha, updatedAt)])
  }

  function ReadCheckpoint(cps: map<CheckpointKey, Checkpoint>, key: CheckpointKey): Option<Checkpoint>
  {
    if key in cps then Some(cps[key]) else None
  }

  predicate LeaseHolds(s: Store, lease: Lease)
  {
    && lease.job.id in s.jobs && s.jobs[lease.job.id] == lease.job
    && lease.job.state.Leased? && lease.job.leaseExpires == Some(lease.expires)
  }

  // ------------------------------------------------------------------ the commit

  /** The caller-side checks made before any transaction is opened. */
  predicate ReplaysMatch(lease: Lease, plan: Plan, parts: seq<Part>)
  {
    && |parts| == |plan.requests| && plan.jobId == lease.job.id && plan.inputGeneration == lease.job.inputGeneration
    && plan.policySha == lease.job.policySha && plan.deadline <= lease.expires
    && forall i :: 0 <= i < |parts| ==> PartMatches(lease, plan, plan.requests[i], parts[i])
  }

  predicate PartMatches(lease: Lease, plan: Plan, q: Request, p: Part)
  {
    && p.requestId == q.id && p.result.requestId == q.id && p.sourceId == q.sourceId && p.tradeId == q.tradeId
    && p.required == q.required && p.tradeId == lease.job.tradeId && p.policySha == plan.policySha
    && p.selectorSha == q.selectorSha && p.result.finishedAt < lease.expires && |p.facts| == p.result.eventCount
    && (Eligible(p).Some? ==> p.result.finishedAt / 1000 != 0)
  }

  function KeyOf(plan: Plan, p: Part): CheckpointKey { CheckpointKey(p.sourceId, plan.policySha, p.tradeId) }

  function RowOf(p: Part, inventory: Digest): SourceRow
  {
    SourceRow(p.requestId, p.sourceId, p.tradeId, p.required, p.selectorSha, p.replayId, p.result, inventory,
      p.duplicates,
              p.firstObservedAt, p.priorCursor, p.overlapSeconds, p.since, p.candidate, Eligible(p).Some?)
  }

  /** Attempts to render a part as its stored row; an oversized inventory has no digest. */
  function RowFor(p: Part): Option<SourceRow>
  {
    match InventoryDigest(p.facts) case None => None case Some(d) => Some(RowOf(p, d))
  }

  function AttemptRowFor(plan: Plan): Option<AttemptRow>
  {
    if |plan.requests| == 0 then None
    else Some(AttemptRow(plan.jobId, plan.requests[0].tradeId, plan.inputGeneration, plan.policySha, plan.startedAt,
                         plan.deadline, |plan.requests|))
  }

  function Scopes(parts: seq<Part>): seq<CursorScope>
  {
    if |parts| == 0 then []
    else
      var p := parts[|parts| - 1];
      Scopes(parts[..|parts| - 1])
      + (if Eligible(p).Some? then [CursorScope(p.sourceId, p.tradeId, p.policySha, p.selectorSha, Eligible(p).value)]
        else [])
  }

  /** Whether the first `n` parts are still reflected by the stored rows and checkpoints. */
  function Reconciled(s: Store, plan: Plan, parts: seq<Part>, rows: seq<SourceRow>, n: nat): Result<bool, CommitError>
    requires n <= |parts| == |rows|
  {
    if n == 0 then Ok(true)
    else
      var p := parts[n - 1];
      if Reconciled(s, plan, parts, rows, n - 1).Err? then Reconciled(s, plan, parts, rows, n - 1)
      else if RowFor(p).None? then Err(Storage)
      else if rows[n - 1] != RowFor(p).value then Err(Conflict)
      else if Eligible(p).Some?
              && (KeyOf(plan, p) !in s.checkpoints
                 || CursorLess(s.checkpoints[KeyOf(plan, p)].cursor, Eligible(p).value))
      then Err(Conflict) else Ok(true)
  }

  /** `Ok(true)` when exactly this inventory is already durable, `Ok(false)` when nothing is. */
  function ReconcileExisting(s: Store, plan: Plan, parts: seq<Part>): Result<bool, CommitError>
  {
    if plan.id !in s.attempts then Ok(false)
    else if AttemptRowFor(plan).None? then Err(Storage)
    else if s.attempts[plan.id] != AttemptRowFor(plan).value then Err(Conflict)
    else
      var rows := if plan.id in s.sources then s.sources[plan.id] else [];
      if |rows| != |parts| then Err(Conflict) else Reconciled(s, plan, parts, rows, |parts|)
  }

  /** The checkpoints the first `n` parts were planned against. */
  function ReadCheckpoints(s: Store, plan: Plan, parts: seq<Part>, n: nat)
    : (r: Result<seq<Option<Checkpoint>>, CommitError>)
    requires n <= |parts|
    ensures r.Ok? ==> |r.value| == n
    ensures r.Ok? ==> forall i :: 0 <= i < n ==> r.value[i] == ReadCheckpoint(s.checkpoints, KeyOf(plan, parts[i]))
  {
    if n == 0 then Ok([])
    else match ReadCheckpoints(s, plan, parts, n - 1)
      case Err(e) => Err(e)
      case Ok(done) =>
        var c := ReadCheckpoint(s.checkpoints, KeyOf(plan, parts[n - 1]));
        if (if c.Some? then Some(c.value.cursor) else None) != parts[n - 1].priorCursor then Err(GenerationConflict)
        else Ok(done + [c])
  }

  /** Persists the first `n` facts of one part, remembering whether anything was new. */
  function PersistFacts(e: Evidence, plan: Plan, p: Part, seen: bool, n: nat): Result<Persisted, CommitError>
    requires n <= |p.facts|
  {
    if n == 0 then Ok(Persisted(e, seen))
    else match PersistFacts(e, plan, p, seen, n - 1)
      case Err(x) => Err(x)
      case Ok(done) =>
        match Persist(done.evidence, p.sourceId, plan.policySha, p.facts[n - 1])
        case Err(x) => Err(x)
        case Ok(last) => Ok(Persisted(last.evidence, done.inserted || last.inserted))
  }

  function PersistParts(e: Evidence, plan: Plan, parts: seq<Part>, n: nat): Result<Persisted, CommitError>
    requires n <= |parts|
  {
    if n == 0 then Ok(Persisted(e, false))
    else match PersistParts(e, plan, parts, n - 1)
      case Err(x) => Err(x)
      case Ok(done) => PersistFacts(done.evidence, plan, parts[n - 1], done.inserted, |parts[n - 1].facts|)
  }

  function LatestFinish(parts: seq<Part>, n: nat): nat
    requires n <= |parts|
  {
    if n == 0 then 0
    else
      var f := parts[n - 1].result.finishedAt / 1000;
      var m := LatestFinish(parts, n - 1);
      if m < f then f else m
  }

  datatype Written = Written(checkpoints: map<CheckpointKey, Checkpoint>, rows: seq<SourceRow>)

  /** Writes checkpoints and result rows of the first `n` parts. */
  function WriteParts(cps: map<CheckpointKey, Checkpoint>, plan: Plan, parts: seq<Part>, read: seq<Option<Checkpoint>>,
                      n: nat)
    : Result<Written, CommitError>
    requires n <= |parts| == |read|
  {
    if n == 0 then Ok(Written(cps, []))
    else match WriteParts(cps, plan, parts, read, n - 1)
      case Err(x) => Err(x)
      case Ok(done) => WritePart(done, plan, parts[n - 1], read[n - 1])
  }

  function WritePart(done: Written, plan: Plan, p: Part, read: Option<Checkpoint>): Result<Written, CommitError>
  {
    var cps := if Eligible(p).None? then Ok(done.checkpoints)
               else WriteCheckpoint(done.checkpoints, KeyOf(plan, p), read, Eligible(p).value,
                 p.result.finishedAt / 1000);
    if cps.Err? then Err(cps.error)
    else if RowFor(p).None? || (exists i :: 0 <= i < |done.rows| && done.rows[i].requestId == p.requestId)
      then Err(Storage)
    else Ok(Written(cps.value, done.rows + [RowFor(p).value]))
  }

  /** The attempt table's constraints. */
  predicate AttemptInsertable(s: Store, r: AttemptRow)
  {
    r.jobId in s.jobs && 1 <= r.sourceCount <= MAX_SOURCES && r.startedAt < r.deadline
      && 1 <= r.inputGeneration <= MAX_I64
  }

  function Commit(s: Store, lease: Lease, plan: Plan, parts: seq<Part>): Result<Step, CommitError>
  {
    match ReconcileExisting(s, plan, parts)
    case Err(e) => Err(e)
    case Ok(true) => Ok(Step(s, Outcome(false, |parts|, false, Scopes(parts))))
    case Ok(false) =>
      if !LeaseHolds(s, lease) then Err(LeaseLost)
      else if lease.job.tradeId !in s.dirty || s.dirty[lease.job.tradeId].generation != plan.inputGeneration
              || s.dirty[lease.job.tradeId].policySha != plan.policySha
      then Err(GenerationConflict)
      else match ReadCheckpoints(s, plan, parts, |parts|)
        case Err(e) => Err(e)
        case Ok(read) => CommitFresh(s, lease, plan, parts, read)
  }

  function CommitFresh(s: Store, lease: Lease, plan: Plan, parts: seq<Part>, read: seq<Option<Checkpoint>>)
    : Result<Step, CommitError>
    requires |read| == |parts|
  {
    var trade := lease.job.tradeId;
    var row := AttemptRowFor(plan);
    if row.None? || !AttemptInsertable(s, row.value) then Err(Storage)
    else match PersistParts(s.evidence, plan, parts, |parts|)
      case Err(e) => Err(e)
      case Ok(persisted) =>
        var dirty := if !persisted.inserted then Ok(s.dirty)
                     else if trade !in s.dirty then Err(Storage)
                     else AdvanceDirty(s.dirty, trade, plan.policySha, LatestFinish(parts, |parts|),
                       Some(s.dirty[trade]));
        if dirty.Err? then Err(dirty.error)
        else match WriteParts(s.checkpoints, plan, parts, read, |parts|)
          case Err(e) => Err(e)
          case Ok(written) =>
            Ok(Step(Store(s.jobs, dirty.value, written.checkpoints, s.attempts[plan.id := row.value],
                          s.sources[plan.id := written.rows], persisted.evidence),
                    Outcome(true, |parts|, persisted.inserted, Scopes(parts))))
  }

  /** The public operation: caller-side checks, then one transaction. */
  function CommitReplays(s: Store, lease: Lease, plan: Plan, parts: seq<Part>): Result<Step, CommitError>
  {
    if !ReplaysMatch(lease, plan, parts) then Err(CommitError.InvalidInput) else Commit(s, lease, plan, parts)
  }
}
