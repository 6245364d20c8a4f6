/**
 * The publication workflow: the same delivery protocol under a configured retry
 * policy and one publication authority.  A lease carries only the outbox row;
 * targets are read again by every transaction.
 */
module Publication {
  import opened Prelude
  import opened Encoding
  import opened Backoff
  import opened Delivery

  /** The parts of the publication authority an outbox is bound to. */
  datatype Authority = Authority(
    authoritySha: Digest, targetSetSha: Digest, targetCount: nat, requiredCount: nat, policy: Policy)

  datatype Store = Store(outboxes: seq<Outbox>, log: seq<Attempt>)
  datatype Lease = Lease(row: Row, owner: Owner, expiresAt: nat)
  type Prepared = PreparedAttempt<Lease>
  datatype Candidate = Candidate(row: Row, retryUpperBound: nat)

  datatype Step<T> = Step(store: Store, value: T)

  // ------------------------------------------------------------------ reads

  predicate DecodesRow(r: Row)
  {
    && r.head.binding.PublicationBinding? && PolicyOk(r.head.policy)
    && 1 <= r.head.targetCount <= MAX_TARGETS && r.head.requiredCount <= r.head.targetCount
    && r.revision >= 1 && !r.state.Superseded? && RowShape(r)
  }

  predicate DecodesTarget(t: Target)
  {
    && ValidRelayId(t.relayId) && t.ordinal < MAX_TARGETS && t.revision >= 1 && t.attemptCount <= 100
    && (t.attemptCount == 0 <==> t.lastAttempt.None?)
  }

  predicate DecodesTargets(ts: seq<Target>) { forall i :: 0 <= i < |ts| ==> DecodesTarget(ts[i]) }

  /** Targets that decode and are exactly the committed inventory. */
  predicate TargetsRead(o: Outbox) { DecodesTargets(o.targets) && TargetsValid(o.row.head, o.targets) }

  function ReadRow(s: Store, id: OutboxId, missing: OperationError): (r: Result<nat, OperationError>)
    ensures r.Ok? ==> r.value < |s.outboxes| && Key(s.outboxes[r.value]) == id
  {
    match Find(s.outboxes, id)
    case None => Err(missing)
    case Some(i) => if DecodesRow(s.outboxes[i].row) then Ok(i) else Err(Invariant)
  }

  predicate Authorized(h: Head, a: Authority)
  {
    && h.binding == PublicationBinding(a.authoritySha) && h.targetSetSha == a.targetSetSha
    && h.targetCount == a.targetCount && h.requiredCount == a.requiredCount && h.policy == a.policy
  }

  // ------------------------------------------------------------------ claim

  predicate Claimable(o: Outbox, now: nat)
  {
    o.row.state.Pending? && o.row.nextAttempt.Some? && o.row.nextAttempt.value <= now
  }

  /** The stored bytes of an identity. */
  function IdBytes(id: OutboxId): Bytes { if id.PublicationOutboxId? then id.bytes else [] }

  /** Oldest schedule first, then oldest creation, then the identity. */
  function ClaimRank(o: Outbox): Rank { Rank(OrZero(o.row.nextAttempt), o.row.head.createdAt, 0, IdBytes(Key(o))) }

  predicate ClaimsBefore(a: Outbox, b: Outbox) { RankLess(ClaimRank(a), ClaimRank(b)) }

  function OldestClaimable(s: Store, now: nat, n: nat): (r: Option<nat>)
    requires n <= |s.outboxes|
    ensures r.Some? ==> r.value < n && Claimable(s.outboxes[r.value], now)
    ensures r.None? <==> forall i :: 0 <= i < n ==> !Claimable(s.outboxes[i], now)
    ensures r.Some? ==> forall i :: 0 <= i < n && Claimable(s.outboxes[i], now) ==>
                                      !ClaimsBefore(s.outboxes[i], s.outboxes[r.value])
  {
    RankTransitive();
    if n == 0 then None
    else
      LexIrreflexive(IdBytes(Key(s.outboxes[n - 1])));
      var best := OldestClaimable(s, now, n - 1);
      if Claimable(s.outboxes[n - 1], now) && (best.None? || ClaimsBefore(s.outboxes[n - 1], s.outboxes[best.value]))
      then Some(n - 1) else best
  }

  function ClaimNext(s: Store, a: Authority, owner: Owner, now: nat): Result<Step<Option<Lease>>, OperationError>
  {
    match OldestClaimable(s, now, |s.outboxes|)
    case None => Ok(Step(s, None))
    case Some(i) =>
      var o := s.outboxes[i];
      var expires := now + o.row.head.policy.deadlineMs;
      if !DecodesRow(o.row) || !Authorized(o.row.head, a) || !TargetsRead(o) then Err(Invariant)
      else if expires > MAX_I64 then Err(InvalidInput)
      else if o.row.updatedAt > now then Err(LeaseLost)
      else
        var row := ClaimRow(o.row, owner, now, expires);
        Ok(Step(s.(outboxes := s.outboxes[i := o.(row := row)]), Some(Lease(row, owner, expires))))
  }

  // ------------------------------------------------------------------ prepare

  /** `None` when the lease row is the authoritative, unexpired one. */
  function LeaseError(s: Store, lease: Lease, now: nat): Option<OperationError>
  {
    match ReadRow(s, lease.row.head.id, LeaseLost)
    case Err(e) => Some(e)
    case Ok(i) =>
      var r := s.outboxes[i].row;
      if r != lease.row || !r.state.Leased? || r.leaseOwner != Some(lease.owner)
         || r.leaseExpires != Some(lease.expiresAt) || lease.expiresAt <= now
      then Some(LeaseLost) else None
  }

  function PrepareNext(s: Store, lease: Lease, at: nat): Result<Step<Prepared>, OperationError>
  {
    var h := lease.row.head;
    if LeaseError(s, lease, at).Some? then Err(LeaseError(s, lease, at).value)
    else
      var i := ReadRow(s, h.id, LeaseLost).value;
      var o := s.outboxes[i];
      if !TargetsRead(o) then Err(Invariant)
      else match FindDue(o.targets, h.policy.maxAttempts, at)
        case None => Err(NotReady)
        case Some(k) =>
          var t := o.targets[k];
          var id := Id(h, t.ordinal, t.attemptCount + 1);
          if t.updatedAt > at then Err(LeaseLost)
          else
            var t' := SubmitTarget(t, id, at);
            var o' := o.(targets := o.targets[k := t']);
            if !DecodesTargets(o'.targets) || Sha256(h.exactBytes) != h.eventSha then Err(Invariant)
            else Ok(Step(s.(outboxes := s.outboxes[i := o']),
                         PreparedAttempt(lease, t', id, at, lease.expiresAt, h.exactBytes)))
  }

  // ------------------------------------------------------------------ record

  function InputFrom(p: Prepared, finishedAt: nat, outcome: Outcome, delay: nat): Result<RecordInput, OperationError>
  {
    var h := p.lease.row.head;
    if finishedAt < p.startedAt || outcome.Submitted? then Err(InvalidInput)
    else if p.attemptId != Id(h, p.target.ordinal, p.target.attemptCount) then Err(Invariant)
    else Ok(RecordInput(h.id, p.lease.row.revision, h.eventSha, p.lease.owner, p.lease.expiresAt,
                        p.target.ordinal, p.target.revision, p.target.attemptCount, p.attemptId,
                        p.startedAt, finishedAt, outcome, delay))
  }

  /** The outbox columns of an input are those of its lease. */
  predicate Names(lease: Lease, input: RecordInput)
  {
    && input.outboxId == lease.row.head.id && input.outboxRevision == lease.row.revision
    && input.eventSha == lease.row.head.eventSha && input.owner == lease.owner && input.leaseExpires == lease.expiresAt
  }

  function RecordOutcome(s: Store, lease: Lease, input: RecordInput): Result<Step<AttemptCommit>, OperationError>
  {
    match FindAttempt(s.log, input.id)
    case Some(existing) => ReconcileRecorded(s, lease, input, existing)
    case None =>
      if LeaseError(s, lease, input.finishedAt).Some? then Err(LeaseError(s, lease, input.finishedAt).value)
      else RecordFirst(s, lease, input, ReadRow(s, lease.row.head.id, LeaseLost).value)
  }

  function RecordFirst(s: Store, lease: Lease, input: RecordInput, i: nat): Result<Step<AttemptCommit>, OperationError>
    requires i < |s.outboxes|
  {
    var o := s.outboxes[i];
    if !DecodesTargets(o.targets) then Err(Invariant)
    else match FindOrdinal(o.targets, input.ordinal)
      case None => Err(Invariant)
      case Some(k) =>
        if !OpenAttempt(o.targets[k], input) then Err(LeaseLost)
        else if !AttemptInsertable(s.log, AttemptFrom(input)) then Err(Storage)
        else match OutcomeSchedule(lease.row.head.policy, input)
          case Err(e) => Err(e)
          case Ok(sched) =>
            var ts := o.targets[k := CloseTarget(o.targets[k], sched, input.finishedAt)];
            match Disposition(lease.row.head, ts)
            case Err(e) => Err(e)
            case Ok(d) =>
              if o.row.updatedAt > input.finishedAt then Err(LeaseLost)
              else
                var o' := Outbox(ReleaseRow(o.row, d, input.finishedAt), ts);
                Ok(Step(Store(s.outboxes[i := o'], s.log + [AttemptFrom(input)]),
                  CommitValue(input, sched.state, d.state)))
  }

  function ReconcileRecorded(s: Store, lease: Lease, input: RecordInput, existing: Attempt)
    : Result<Step<AttemptCommit>, OperationError>
  {
    if existing != AttemptFrom(input) then Err(Invariant)
    else match ReadRow(s, lease.row.head.id, Invariant)
      case Err(e) => Err(e)
      case Ok(i) =>
        var o := s.outboxes[i];
        if o.row.head != lease.row.head || o.row.revision != lease.row.revision + 1
           || o.row.updatedAt != input.finishedAt || o.row.leaseOwner.Some? || o.row.leaseExpires.Some?
           || !TargetsRead(o)
        then Err(Invariant)
        else match OutcomeSchedule(lease.row.head.policy, input)
          case Err(e) => Err(e)
          case Ok(sched) =>
            match FindOrdinal(o.targets, input.ordinal)
            case None => Err(Invariant)
            case Some(k) =>
              var t := o.targets[k];
              if t.revision != input.targetRevision + 1 || t.attemptCount != input.number
                 || t.lastAttempt != Some(input.id) || t.state != sched.state
                 || t.nextAttempt != sched.nextAttempt || t.updatedAt != input.finishedAt
              then Err(Invariant)
              else match Disposition(o.row.head, o.targets)
                case Err(e) => Err(e)
                case Ok(d) =>
                  if o.row.state != d.state || o.row.nextAttempt != d.nextAttempt then Err(Invariant)
                  else Ok(Step(s, CommitValue(input, t.state, o.row.state)))
  }

  // ------------------------------------------------------------------ recovery

  /** Earliest expiry, then oldest creation, then the identity. */
  function ExpiryRank(o: Outbox): Rank { Rank(OrZero(o.row.leaseExpires), o.row.head.createdAt, 0, IdBytes(Key(o))) }

  predicate ExpiresBefore(a: Outbox, b: Outbox) { RankLess(ExpiryRank(a), ExpiryRank(b)) }

  function OldestExpired(s: Store, now: nat, n: nat): (r: Option<nat>)
    requires n <= |s.outboxes|
    ensures r.Some? ==> r.value < n && Expired(s.outboxes[r.value], now)
    ensures r.None? <==> forall i :: 0 <= i < n ==> !Expired(s.outboxes[i], now)
    ensures r.Some? ==> forall i :: 0 <= i < n && Expired(s.outboxes[i], now) ==>
                                      !ExpiresBefore(s.outboxes[i], s.outboxes[r.value])
  {
    RankTransitive();
    if n == 0 then None
    else
      LexIrreflexive(IdBytes(Key(s.outboxes[n - 1])));
      var best := OldestExpired(s, now, n - 1);
      if Expired(s.outboxes[n - 1], now) && (best.None? || ExpiresBefore(s.outboxes[n - 1], s.outboxes[best.value]))
      then Some(n - 1) else best
  }

  /** The ceiling recovery samples from: the bound of the open attempt, if it may be retried. */
  function Ceiling(o: Outbox): nat
  {
    var open := SubmittedAttempts(o.targets);
    if |open| > 0 && open[0] < o.row.head.policy.maxAttempts then RetryUpperBound(o.row.head.policy, open[0]) else 0
  }

  function ReadExpiredCandidate(s: Store, a: Authority, now: nat): Result<Option<Candidate>, OperationError>
  {
    match OldestExpired(s, now, |s.outboxes|)
    case None => Ok(None)
    case Some(i) =>
      var o := s.outboxes[i];
      if !DecodesRow(o.row) || !Authorized(o.row.head, a) || !TargetsRead(o) || |SubmittedAttempts(o.targets)| > 1
      then Err(Invariant)
      else Ok(Some(Candidate(o.row, Ceiling(o))))
  }

  /** The bounds of attempt evidence, and the identity it must derive. */
  predicate EvidenceOk(h: Head, t: Target, now: nat)
  {
    && Sha256(h.exactBytes) == h.eventSha
    && t.ordinal < MAX_TARGETS && 1 <= t.attemptCount <= 100 && t.updatedAt <= now
    && t.lastAttempt == Some(Id(h, t.ordinal, t.attemptCount))
  }

  /** Closes every open attempt from position `i` on as Unknown, with its evidence. */
  function CloseWithEvidence(o: Outbox, owner: Owner, expires: nat, ts: seq<Target>, log: seq<Attempt>,
                             i: nat, now: nat, delay: nat): Result<Closed, OperationError>
    requires i <= |ts|
    decreases |ts| - i
  {
    if i == |ts| then Ok(Closed(ts, log))
    else if !ts[i].state.Submitted? then CloseWithEvidence(o, owner, expires, ts, log, i + 1, now, delay)
    else if !EvidenceOk(o.row.head, ts[i], now) || FindAttempt(log, ts[i].lastAttempt.value).Some? then Err(Invariant)
    else
      var input := UnknownInput(o, ts[i], ts[i].lastAttempt.value, owner, expires, now, delay);
      if !AttemptInsertable(log, AttemptFrom(input)) then Err(Storage)
      else match OutcomeSchedule(o.row.head.policy, input)
        case Err(e) => Err(e)
        case Ok(sched) =>
          CloseWithEvidence(o, owner, expires, ts[i := CloseTarget(ts[i], sched, now)], log + [AttemptFrom(input)],
                            i + 1, now, delay)
  }

  function RecoverExpired(s: Store, c: Candidate, now: nat, delay: nat): Result<Step<bool>, OperationError>
  {
    match ReadRow(s, c.row.head.id, LeaseLost)
    case Err(e) => Err(e)
    case Ok(i) =>
      var o := s.outboxes[i];
      if o.row != c.row || !Expired(o, now) then Err(LeaseLost)
      else if o.row.leaseOwner.None? || !TargetsRead(o) then Err(Invariant)
      else match CloseWithEvidence(o, o.row.leaseOwner.value, o.row.leaseExpires.value, o.targets, s.log, 0, now, delay)
        case Err(e) => Err(e)
        case Ok(closed) =>
          match Disposition(o.row.head, closed.targets)
          case Err(e) => Err(e)
          case Ok(d) =>
            if o.row.updatedAt > now then Err(LeaseLost)
            else
              var o' := Outbox(ReleaseRow(o.row, d, now), closed.targets);
              Ok(Step(Store(s.outboxes[i := o'], closed.log), true))
  }
}
