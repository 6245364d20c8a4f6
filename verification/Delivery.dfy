/**
 * Rows and pure rules of the durable exact-byte delivery protocol.
 *
 * The presence and publication workflows store the same three kinds of row: an
 * outbox holding exact signed bytes, its ordered targets, and an append-only
 * attempt log.  Identities are injective in the fields they are derived from.
 */
module Delivery {
  import opened Prelude
  import opened Encoding
  import opened Digests
  import opened Backoff

  datatype DocumentKind = ServiceProfile | ApplicationHandler

  datatype OutboxId =
    | PresenceOutboxId(generation: nat, kind: DocumentKind, desiredSha: Digest, eventSha: Digest)
    | PublicationOutboxId(bytes: Bytes)

  datatype AttemptId = AttemptId(outbox: OutboxId, eventSha: Digest, ordinal: nat, number: nat)

  datatype OutboxState = Pending | Leased | Complete | Blocked | Superseded

  datatype TargetState =
    | Pending | Submitted | Accepted | Rejected | RateLimited | AuthRequired | Failed | Unknown

  datatype Outcome =
    | Submitted | Accepted | Rejected | RateLimited | AuthRequired | Failed | Unknown

  datatype OperationError =
    | InvalidInput | DesiredStateMismatch | VerificationFailed | NotReady | LeaseLost | Invariant | Storage

  type Owner = Bytes

  /** What an outbox is bound to besides its bytes and targets. */
  datatype Binding =
    | PresenceBinding(generation: nat, kind: DocumentKind, desiredSha: Digest, eventId: Bytes,
                      authoredAt: nat, publicKey: Bytes)
    | PublicationBinding(authoritySha: Digest)

  /** The columns no update may change. */
  datatype Head = Head(
    id: OutboxId, binding: Binding, eventSha: Digest, exactBytes: Bytes, targetSetSha: Digest,
    targetCount: nat, requiredCount: nat, policy: Policy, createdAt: nat)

  datatype Row = Row(
    head: Head, state: OutboxState, revision: nat, nextAttempt: Option<nat>,
    leaseOwner: Option<Owner>, leaseExpires: Option<nat>, updatedAt: nat)

  datatype Target = Target(
    ordinal: nat, relayId: Bytes, required: bool, state: TargetState, revision: nat,
    attemptCount: nat, nextAttempt: Option<nat>, lastAttempt: Option<AttemptId>, updatedAt: nat)
  {
    function Spec(): TargetSpec { TargetSpec(ordinal, relayId, required) }
  }

  datatype Outbox = Outbox(row: Row, targets: seq<Target>)

  datatype Attempt = Attempt(
    id: AttemptId, outboxId: OutboxId, ordinal: nat, number: nat, eventSha: Digest,
    owner: Owner, startedAt: nat, finishedAt: nat, outcome: Outcome)

  /** The sealed facts a worker carries from a prepared attempt into its outcome transaction. */
  datatype RecordInput = RecordInput(
    outboxId: OutboxId, outboxRevision: nat, eventSha: Digest, owner: Owner, leaseExpires: nat,
    ordinal: nat, targetRevision: nat, number: nat, id: AttemptId,
    startedAt: nat, finishedAt: nat, outcome: Outcome, retryDelay: nat)

  /** An attempt made durable under a lease, with the bytes to submit. */
  datatype PreparedAttempt<+L> = PreparedAttempt(
    lease: L, target: Target, attemptId: AttemptId, startedAt: nat, deadlineAt: nat, exactBytes: Bytes)

  /** Bytes handed to a sink, and how long the log was at that moment. */
  datatype Exposure<+L> = Exposure(prepared: PreparedAttempt<L>, logLength: nat)

  datatype AttemptCommit = AttemptCommit(
    outboxId: OutboxId, attemptId: AttemptId, ordinal: nat, number: nat, outcome: Outcome,
    targetState: TargetState, outboxState: OutboxState)

  datatype Disposal = Disposal(state: OutboxState, nextAttempt: Option<nat>)
  datatype Schedule = Schedule(state: TargetState, nextAttempt: Option<nat>)

  const MAX_TARGETS: nat := 32

  function AttemptFrom(i: RecordInput): Attempt
  {
    Attempt(i.id, i.outboxId, i.ordinal, i.number, i.eventSha, i.owner, i.startedAt, i.finishedAt, i.outcome)
  }

  predicate RetryableState(s: TargetState) { s.Pending? || s.Failed? || s.RateLimited? || s.Unknown? }
  predicate RetryableOutcome(o: Outcome) { o.RateLimited? || o.Failed? || o.Unknown? }

  function StateFor(o: Outcome): TargetState
  {
    match o
    case Submitted => TargetState.Submitted
    case Accepted => TargetState.Accepted
    case Rejected => TargetState.Rejected
    case RateLimited => TargetState.RateLimited
    case AuthRequired => TargetState.AuthRequired
    case Failed => TargetState.Failed
    case Unknown => TargetState.Unknown
  }

  predicate TargetIsBlocking(t: Target, maxAttempts: nat)
  {
    t.state.Rejected? || t.state.AuthRequired?
    || (RetryableState(t.state) && t.attemptCount >= maxAttempts && t.nextAttempt.None?)
  }

  predicate TargetIsDue(t: Target, maxAttempts: nat, now: nat)
  {
    RetryableState(t.state) && t.attemptCount < maxAttempts
    && t.nextAttempt.Some? && t.nextAttempt.value <= now
  }

  /** The first due target at or after position `i`. */
  function FindDue(ts: seq<Target>, maxAttempts: nat, now: nat, i: nat := 0): (r: Option<nat>)
    requires i <= |ts|
    ensures r.Some? ==> i <= r.value < |ts| && TargetIsDue(ts[r.value], maxAttempts, now)
    ensures r.Some? ==> forall k :: i <= k < r.value ==> !TargetIsDue(ts[k], maxAttempts, now)
    ensures r.None? <==> forall k :: i <= k < |ts| ==> !TargetIsDue(ts[k], maxAttempts, now)
    decreases |ts| - i
  {
    if i == |ts| then None
    else if TargetIsDue(ts[i], maxAttempts, now) then Some(i)
    else FindDue(ts, maxAttempts, now, i + 1)
  }

  /** The state and schedule an outcome gives its target, or why the input is refused. */
  function OutcomeSchedule(p: Policy, i: RecordInput): Result<Schedule, OperationError>
  {
    if i.outcome.Submitted? then Err(InvalidInput)
    else if RetryableOutcome(i.outcome) && i.number < p.maxAttempts then
      if i.retryDelay > RetryUpperBound(p, i.number) || i.finishedAt + i.retryDelay > MAX_I64
      then Err(InvalidInput)
      else Ok(Schedule(StateFor(i.outcome), Some(i.finishedAt + i.retryDelay)))
    else if i.retryDelay != 0 then Err(InvalidInput)
    else Ok(Schedule(StateFor(i.outcome), None))
  }

  function Specs(ts: seq<Target>): (r: seq<TargetSpec>)
    ensures |r| == |ts| && forall i :: 0 <= i < |ts| ==> r[i] == ts[i].Spec()
  {
    seq(|ts|, i requires 0 <= i < |ts| => ts[i].Spec())
  }

  function CountRequired(ss: seq<TargetSpec>): nat
  {
    if |ss| == 0 then 0 else (if ss[0].required then 1 else 0) + CountRequired(ss[1..])
  }

  function TargetDomain(b: Binding): string
  {
    if b.PresenceBinding? then PRESENCE_TARGET_SET else PUBLICATION_TARGET_SET
  }

  /** The stored targets are exactly the inventory the outbox was committed with. */
  predicate SpecsMatch(h: Head, ss: seq<TargetSpec>)
  {
    && 1 <= |ss| <= MAX_TARGETS && |ss| == h.targetCount
    && CountRequired(ss) == h.requiredCount
    && (forall i :: 0 <= i < |ss| ==> ss[i].ordinal == i)
    && (forall i, j :: 0 <= i < j < |ss| ==> ss[i].relayId != ss[j].relayId)
    && TargetSetDigest(TargetDomain(h.binding), ss) == Some(h.targetSetSha)
  }

  predicate TargetsValid(h: Head, ts: seq<Target>) { SpecsMatch(h, Specs(ts)) }

  predicate AllRequiredAccepted(ts: seq<Target>)
  {
    forall i :: 0 <= i < |ts| && ts[i].required ==> ts[i].state.Accepted?
  }

  predicate SomeRequiredBlocking(ts: seq<Target>, maxAttempts: nat)
  {
    exists i :: 0 <= i < |ts| && ts[i].required && TargetIsBlocking(ts[i], maxAttempts)
  }

  /** The earliest scheduled retry among required targets. */
  function EarliestRequired(ts: seq<Target>): (r: Option<nat>)
    ensures r.None? <==> forall i :: 0 <= i < |ts| && ts[i].required ==> ts[i].nextAttempt.None?
    ensures r.Some? ==> exists i :: 0 <= i < |ts| && ts[i].required && ts[i].nextAttempt == r
    ensures r.Some? ==> forall i :: 0 <= i < |ts| && ts[i].required && ts[i].nextAttempt.Some? ==>
                                      r.value <= ts[i].nextAttempt.value
  {
    if |ts| == 0 then None
    else
      var last := ts[|ts| - 1];
      var rest := EarliestRequired(ts[..|ts| - 1]);
      if last.required && last.nextAttempt.Some?
         && (rest.None? || last.nextAttempt.value < rest.value)
      then last.nextAttempt else rest
  }

  /** What an outbox becomes once its lease ends with these targets. */
  function Disposition(h: Head, ts: seq<Target>): Result<Disposal, OperationError>
  {
    if !TargetsValid(h, ts) then Err(Invariant)
    else if AllRequiredAccepted(ts) then Ok(Disposal(Complete, None))
    else if SomeRequiredBlocking(ts, h.policy.maxAttempts) then Ok(Disposal(Blocked, None))
    else match EarliestRequired(ts)
      case None => Err(Invariant)
      case Some(next) => Ok(Disposal(OutboxState.Pending, Some(next)))
  }

  predicate RowShape(r: Row)
  {
    match r.state
    case Pending => r.nextAttempt.Some? && r.leaseOwner.None? && r.leaseExpires.None?
    case Leased => r.nextAttempt.None? && r.leaseOwner.Some? && r.leaseExpires.Some?
    case _ => r.nextAttempt.None? && r.leaseOwner.None? && r.leaseExpires.None?
  }

  predicate TargetShape(t: Target, maxAttempts: nat)
  {
    match t.state
    case Pending => t.attemptCount == 0 && t.nextAttempt.Some? && t.lastAttempt.None?
    case Submitted => t.attemptCount > 0 && t.nextAttempt.None? && t.lastAttempt.Some?
    case Accepted => t.attemptCount > 0 && t.nextAttempt.None? && t.lastAttempt.Some?
    case Rejected => t.attemptCount > 0 && t.nextAttempt.None? && t.lastAttempt.Some?
    case AuthRequired => t.attemptCount > 0 && t.nextAttempt.None? && t.lastAttempt.Some?
    case _ => t.attemptCount > 0 && t.lastAttempt.Some?
              && (t.attemptCount < maxAttempts <==> t.nextAttempt.Some?)
  }

  // The SET clauses of the guarded updates.

  function InitialTarget(s: TargetSpec, at: nat): Target
  {
    Target(s.ordinal, s.relayId, s.required, TargetState.Pending, 1, 0, Some(at), None, at)
  }

  function ClaimRow(r: Row, owner: Owner, now: nat, expires: nat): Row
  {
    r.(state := Leased, revision := r.revision + 1, nextAttempt := None,
       leaseOwner := Some(owner), leaseExpires := Some(expires), updatedAt := now)
  }

  function SubmitTarget(t: Target, id: AttemptId, at: nat): Target
  {
    t.(state := TargetState.Submitted, revision := t.revision + 1, attemptCount := t.attemptCount + 1,
       nextAttempt := None, lastAttempt := Some(id), updatedAt := at)
  }

  function CloseTarget(t: Target, s: Schedule, at: nat): Target
  {
    t.(state := s.state, revision := t.revision + 1, nextAttempt := s.nextAttempt, updatedAt := at)
  }

  function ReleaseRow(r: Row, d: Disposal, at: nat): Row
  {
    r.(state := d.state, revision := r.revision + 1, nextAttempt := d.nextAttempt,
       leaseOwner := None, leaseExpires := None, updatedAt := at)
  }

  // ------------------------------------------------------------------ the order in which work is picked

  /** The columns a worker's query sorts by, the stored identity last. */
  datatype Rank = Rank(instant: nat, createdAt: nat, kind: nat, id: Bytes)

  predicate RankLess(a: Rank, b: Rank)
  {
    a.instant < b.instant || (a.instant == b.instant && (a.createdAt < b.createdAt || (a.createdAt == b.createdAt
      && (a.kind < b.kind || (a.kind == b.kind && LexLess(a.id, b.id))))))
  }

  lemma RankTransitive()
    ensures forall a, b, c :: RankLess(a, b) && RankLess(b, c) ==> RankLess(a, c)
  {
    forall a, b, c | RankLess(a, b) && RankLess(b, c) ensures RankLess(a, c) {
      if LexLess(a.id, b.id) && LexLess(b.id, c.id) {
        LexTransitive(a.id, b.id, c.id);
      }
    }
  }

  function OrZero(n: Option<nat>): nat { if n.Some? then n.value else 0 }

  // ------------------------------------------------------------------ lookups and shared transaction pieces

  /** The durable row with an attempt identity, if one was inserted. */
  function FindAttempt(log: seq<Attempt>, id: AttemptId): (r: Option<Attempt>)
    ensures r.Some? ==> r.value in log && r.value.id == id
    ensures r.None? <==> forall i :: 0 <= i < |log| ==> log[i].id != id
  {
    if |log| == 0 then None
    else if log[|log| - 1].id == id then Some(log[|log| - 1])
    else FindAttempt(log[..|log| - 1], id)
  }

  function Id(h: Head, k: nat, n: nat): AttemptId { AttemptId(h.id, h.eventSha, k, n) }

  function Key(o: Outbox): OutboxId { o.row.head.id }

  predicate ValidRelayId(r: Bytes)
  {
    && 1 <= |r| <= 64 && 97 <= r[0] <= 122
    && forall i :: 0 <= i < |r| ==> 97 <= r[i] <= 122 || 48 <= r[i] <= 57 || r[i] == 95 || r[i] == 45
  }

  predicate RelaysOk(ts: seq<Target>) { forall i :: 0 <= i < |ts| ==> ValidRelayId(ts[i].relayId) }

  /** The position of the row with an identity. */
  function Find(outboxes: seq<Outbox>, id: OutboxId): (r: Option<nat>)
    ensures r.Some? ==> r.value < |outboxes| && Key(outboxes[r.value]) == id
    ensures r.None? <==> forall i :: 0 <= i < |outboxes| ==> Key(outboxes[i]) != id
  {
    if |outboxes| == 0 then None
    else if Key(outboxes[|outboxes| - 1]) == id then Some(|outboxes| - 1)
    else Find(outboxes[..|outboxes| - 1], id)
  }

  /** The attempt table's primary key and CHECK constraints. */
  predicate AttemptInsertable(log: seq<Attempt>, a: Attempt)
  {
    FindAttempt(log, a.id).None? && a.startedAt <= a.finishedAt && !a.outcome.Submitted?
  }

  predicate OpenAttempt(t: Target, input: RecordInput)
  {
    && t.state.Submitted? && t.revision == input.targetRevision && t.attemptCount == input.number
    && t.lastAttempt == Some(input.id) && t.updatedAt == input.startedAt
  }

  function FindOrdinal(ts: seq<Target>, ordinal: nat, i: nat := 0): (r: Option<nat>)
    requires i <= |ts|
    ensures r.Some? ==> i <= r.value < |ts| && ts[r.value].ordinal == ordinal
    ensures r.None? ==> forall k :: i <= k < |ts| ==> ts[k].ordinal != ordinal
    decreases |ts| - i
  {
    if i == |ts| then None else if ts[i].ordinal == ordinal then Some(i) else FindOrdinal(ts, ordinal, i + 1)
  }

  function CommitValue(input: RecordInput, t: TargetState, o: OutboxState): AttemptCommit
  {
    AttemptCommit(input.outboxId, input.id, input.ordinal, input.number, input.outcome, t, o)
  }

  predicate Expired(o: Outbox, now: nat)
  {
    o.row.state.Leased? && o.row.leaseExpires.Some? && o.row.leaseExpires.value <= now
  }

  /** Attempt numbers of the open attempts, in target order. */
  function SubmittedAttempts(ts: seq<Target>): seq<nat>
  {
    if |ts| == 0 then []
    else SubmittedAttempts(ts[..|ts| - 1])
         + (if ts[|ts| - 1].state.Submitted? then [ts[|ts| - 1].attemptCount] else [])
  }

  datatype Closed = Closed(targets: seq<Target>, log: seq<Attempt>)

  function UnknownInput(o: Outbox, t: Target, id: AttemptId, owner: Owner, expires: nat, now: nat, delay: nat)
    : RecordInput
  {
    RecordInput(Key(o), o.row.revision, o.row.head.eventSha, owner, expires, t.ordinal, t.revision,
                t.attemptCount, id, t.updatedAt, now, Outcome.Unknown, delay)
  }

  /** Closes every open attempt from position `i` on as Unknown. */
  function CloseSubmitted(o: Outbox, owner: Owner, expires: nat, ts: seq<Target>, log: seq<Attempt>,
                          i: nat, now: nat, delay: nat): Result<Closed, OperationError>
    requires i <= |ts|
    decreases |ts| - i
  {
    if i == |ts| then Ok(Closed(ts, log))
    else if !ts[i].state.Submitted? then CloseSubmitted(o, owner, expires, ts, log, i + 1, now, delay)
    else if ts[i].lastAttempt.None? || FindAttempt(log, ts[i].lastAttempt.value).Some? then Err(Invariant)
    else
      var input := UnknownInput(o, ts[i], ts[i].lastAttempt.value, owner, expires, now, delay);
      if !AttemptInsertable(log, AttemptFrom(input)) then Err(Storage)
      else match OutcomeSchedule(o.row.head.policy, input)
        case Err(e) => Err(e)
        case Ok(sched) =>
          CloseSubmitted(o, owner, expires, ts[i := CloseTarget(ts[i], sched, now)], log + [AttemptFrom(input)],
                         i + 1, now, delay)
  }
}
