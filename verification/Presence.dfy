/**
 * The presence workflow: desired state, signed-document commit, lease claim,
 * durable preparation, outcome recording and expired-lease recovery.
 *
 * Each transaction is a function from a store to either an error, which rolls
 * everything back, or a new store together with the value it returns.
 */
module Presence {
  import opened Prelude
  import opened Encoding
  import opened Digests
  import opened Backoff
  import opened Delivery
  import opened DeliveryInvariant

  datatype Mode = Disabled | Enabled

  /** The singleton desired-state row. */
  datatype Desired = Desired(
    generation: nat, mode: Mode, profile: bool, handler: bool, targetSetSha: Digest,
    targetCount: nat, requiredCount: nat, queueCapacity: nat, desiredSha: Digest)

  /** The intent derived from one complete configuration. */
  datatype Authority = Authority(
    configurationSha: Digest, publicKey: Bytes, mode: Mode, kinds: seq<DocumentKind>,
    targets: seq<TargetSpec>, queueCapacity: nat, targetSetSha: Digest, desiredSha: Digest)

  datatype ConfigBinding = ConfigBinding(configurationSha: Digest, publicKey: Bytes)

  datatype Document = Document(
    kind: DocumentKind, eventId: Bytes, eventSha: Digest, bytes: Bytes, createdAt: nat)

  /** A sealed document set bound to one desired generation. */
  datatype Documents = Documents(
    desired: Desired, publicKey: Bytes, targets: seq<TargetSpec>, documents: seq<Document>)

  /** The key and signature checks of the event library, and the bytes an identity is stored as. */
  datatype Verifier = Verifier(
    key: Bytes -> bool,
    event: (DocumentKind, Bytes, nat, Bytes) -> Option<Bytes>,
    identity: OutboxId -> Bytes32)

  datatype Store = Store(
    config: Option<ConfigBinding>, desired: Option<Desired>, outboxes: seq<Outbox>, log: seq<Attempt>)

  datatype Lease = Lease(outbox: Outbox, owner: Owner, expiresAt: nat)
  type Prepared = PreparedAttempt<Lease>
  datatype Candidate = Candidate(outbox: Outbox, retryUpperBound: nat, currentDesired: bool)
  datatype CommitOutcome = CommitOutcome(desired: Desired, documentCount: nat, changed: bool)
  datatype DesiredOutcome = DesiredOutcome(state: Desired, changed: bool)

  datatype Step<T> = Step(store: Store, value: T)

  datatype DesiredError = InvalidConfiguration | Binding | ResourceExhausted | DesiredStorage

  const MAX_EVENT_BYTES: nat := 32 * 1024
  const EMPTY := Store(None, None, [], [])

  // ------------------------------------------------------------------ desired state

  /** The CHECK constraints of the desired-state row. */
  predicate DesiredRowOk(d: Desired)
  {
    && 1 <= d.generation <= MAX_I64
    && d.requiredCount <= d.targetCount
    && if d.mode.Enabled?
       then (d.profile || d.handler) && 1 <= d.targetCount <= MAX_TARGETS && 1 <= d.queueCapacity <= 4096
       else !d.profile && !d.handler && d.targetCount == 0 && d.queueCapacity == 0
  }

  function DesiredRow(a: Authority, generation: nat): Desired
  {
    Desired(generation, a.mode, ServiceProfile in a.kinds, ApplicationHandler in a.kinds,
            a.targetSetSha, |a.targets|, CountRequired(a.targets), a.queueCapacity, a.desiredSha)
  }

  predicate MatchesAuthority(d: Desired, a: Authority) { d == DesiredRow(a, d.generation) }

  /** Replays are silent; a semantic change advances the generation by exactly one. */
  function CommitDesired(s: Store, a: Authority): Result<Step<DesiredOutcome>, DesiredError>
  {
    if s.config != Some(ConfigBinding(a.configurationSha, a.publicKey)) then Err(Binding)
    else match s.desired
      case None =>
        var d := DesiredRow(a, 1);
        if !DesiredRowOk(d) then Err(DesiredStorage)
        else Ok(Step(s.(desired := Some(d)), DesiredOutcome(d, true)))
      case Some(current) =>
        if MatchesAuthority(current, a) then Ok(Step(s, DesiredOutcome(current, false)))
        else if current.generation == MAX_I64 then Err(ResourceExhausted)
        else
          var d := DesiredRow(a, current.generation + 1);
          if !DesiredRowOk(d) || d.desiredSha == current.desiredSha then Err(DesiredStorage)
          else Ok(Step(s.(desired := Some(d)), DesiredOutcome(d, true)))
  }

  // ------------------------------------------------------------------ reads

  /** Facts about the immutable columns that the insert established. */
  predicate HeadOk(v: Verifier, h: Head)
  {
    && h.binding.PresenceBinding?
    && h.id == PresenceOutboxId(h.binding.generation, h.binding.kind, h.binding.desiredSha, h.eventSha)
    && 1 <= |h.exactBytes| <= MAX_EVENT_BYTES && h.eventSha == Sha256(h.exactBytes)
    && h.policy == PRESENCE_POLICY
    && v.key(h.binding.publicKey)
    && v.event(h.binding.kind, h.binding.publicKey, h.binding.authoredAt, h.exactBytes) == Some(h.binding.eventId)
  }

  /** Row decoding: a row that fails it is reported as an invariant failure. */
  predicate Decodes(v: Verifier, o: Outbox)
  {
    var h := o.row.head;
    && h.binding.PresenceBinding? && v.key(h.binding.publicKey)
    && 1 <= |h.exactBytes| <= MAX_EVENT_BYTES && h.eventSha == Sha256(h.exactBytes)
    && h.policy == PRESENCE_POLICY && o.row.revision >= 1 && h.createdAt <= o.row.updatedAt
    && RowShape(o.row) && |o.targets| <= MAX_TARGETS
    && forall i :: 0 <= i < |o.targets| ==>
         && ValidRelayId(o.targets[i].relayId) && o.targets[i].revision >= 1
         && o.targets[i].attemptCount <= 100 && TargetShape(o.targets[i], 100)
  }

  /** Reads one outbox with its targets; `missing` is the caller's error for an absent row. */
  function ReadOutbox(s: Store, v: Verifier, id: OutboxId, missing: OperationError): (r: Result<nat, OperationError>)
    ensures r.Ok? ==> r.value < |s.outboxes| && Key(s.outboxes[r.value]) == id
  {
    match Find(s.outboxes, id)
    case None => Err(missing)
    case Some(i) => if Decodes(v, s.outboxes[i]) then Ok(i) else Err(Invariant)
  }

  function Generation(o: Outbox): nat
  {
    if o.row.head.binding.PresenceBinding? then o.row.head.binding.generation else 0
  }

  /** The desired row as the publication transactions read it. */
  function ReadDesired(s: Store): Result<Desired, OperationError>
  {
    match s.desired
    case None => Err(DesiredStateMismatch)
    case Some(d) => if DesiredRowOk(d) then Ok(d) else Err(Invariant)
  }

  predicate KindDesired(d: Desired, k: DocumentKind)
  {
    if k.ServiceProfile? then d.profile else d.handler
  }

  predicate DesiredMatches(d: Desired, o: Outbox)
  {
    var h := o.row.head;
    && d.mode.Enabled? && h.binding.PresenceBinding?
    && d.generation == h.binding.generation && d.desiredSha == h.binding.desiredSha
    && d.targetSetSha == h.targetSetSha && d.targetCount == h.targetCount
    && d.requiredCount == h.requiredCount && KindDesired(d, h.binding.kind)
  }

  /** `None` when the outbox is bound to the current desired state, otherwise the error. */
  function StaleError(s: Store, o: Outbox): Option<OperationError>
  {
    match ReadDesired(s)
    case Err(e) => Some(e)
    case Ok(d) => if DesiredMatches(d, o) then None else Some(DesiredStateMismatch)
  }

  // ------------------------------------------------------------------ claim

  predicate Claimable(s: Store, o: Outbox, now: nat)
  {
    && s.desired.Some? && o.row.head.binding.PresenceBinding?
    && s.desired.value.generation == o.row.head.binding.generation
    && s.desired.value.desiredSha == o.row.head.binding.desiredSha
    && o.row.state.Pending? && o.row.nextAttempt.Some? && o.row.nextAttempt.value <= now
  }

  function KindRank(o: Outbox): (r: nat)
    ensures r <= 1
  {
    if o.row.head.binding.PresenceBinding? && o.row.head.binding.kind.ServiceProfile? then 0 else 1
  }

  /** Oldest schedule first, then oldest creation, then the profile before the handler, then the identity. */
  function ClaimRank(v: Verifier, o: Outbox): Rank
  {
    Rank(OrZero(o.row.nextAttempt), o.row.head.createdAt, KindRank(o), v.identity(Key(o)))
  }

  predicate ClaimsBefore(v: Verifier, a: Outbox, b: Outbox) { RankLess(ClaimRank(v, a), ClaimRank(v, b)) }

  /** The claimable outbox among the first `n` that no other claimable one precedes. */
  function OldestClaimable(s: Store, v: Verifier, now: nat, n: nat): (r: Option<nat>)
    requires n <= |s.outboxes|
    ensures r.Some? ==> r.value < n && Claimable(s, s.outboxes[r.value], now)
    ensures r.None? <==> forall i :: 0 <= i < n ==> !Claimable(s, s.outboxes[i], now)
    ensures r.Some? ==> forall i :: 0 <= i < n && Claimable(s, s.outboxes[i], now) ==>
                                      !ClaimsBefore(v, s.outboxes[i], s.outboxes[r.value])
  {
    RankTransitive();
    if n == 0 then None
    else
      LexIrreflexive(v.identity(Key(s.outboxes[n - 1])));
      var best := OldestClaimable(s, v, now, n - 1);
      if Claimable(s, s.outboxes[n - 1], now)
         && (best.None? || ClaimsBefore(v, s.outboxes[n - 1], s.outboxes[best.value]))
      then Some(n - 1) else best
  }

  function ClaimNext(s: Store, v: Verifier, owner: Owner, now: nat): Result<Step<Option<Lease>>, OperationError>
  {
    match OldestClaimable(s, v, now, |s.outboxes|)
    case None => Ok(Step(s, None))
    case Some(i) =>
      var o := s.outboxes[i];
      if !Decodes(v, o) then Err(Invariant)
      else if StaleError(s, o).Some? then Err(StaleError(s, o).value)
      else if !TargetsValid(o.row.head, o.targets) then Err(Invariant)
      else if now + PRESENCE_POLICY.deadlineMs > MAX_I64 then Err(InvalidInput)
      else if o.row.updatedAt > now then Err(LeaseLost)
      else
        var expires := now + PRESENCE_POLICY.deadlineMs;
        var leased := o.(row := ClaimRow(o.row, owner, now, expires));
        Ok(Step(s.(outboxes := s.outboxes[i := leased]), Some(Lease(leased, owner, expires))))
  }

  // ------------------------------------------------------------------ prepare

  /** `None` when the lease is the authoritative, unexpired one. */
  function LeaseError(s: Store, v: Verifier, lease: Lease, now: nat): Option<OperationError>
  {
    match ReadOutbox(s, v, Key(lease.outbox), LeaseLost)
    case Err(e) => Some(e)
    case Ok(i) =>
      var current := s.outboxes[i];
      if current != lease.outbox then Some(LeaseLost)
      else if StaleError(s, current).Some? then StaleError(s, current)
      else if !current.row.state.Leased? || current.row.leaseOwner != Some(lease.owner)
              || current.row.leaseExpires != Some(lease.expiresAt) || lease.expiresAt <= now
      then Some(LeaseLost) else None
  }

  /** Persists Submitted, then exposes the committed bytes. */
  function PrepareNext(s: Store, v: Verifier, lease: Lease, at: nat): Result<Step<Prepared>, OperationError>
  {
    var h := lease.outbox.row.head;
    if LeaseError(s, v, lease, at).Some? then Err(LeaseError(s, v, lease, at).value)
    else match FindDue(lease.outbox.targets, h.policy.maxAttempts, at)
      case None => Err(NotReady)
      case Some(k) =>
        var i := ReadOutbox(s, v, h.id, LeaseLost).value;
        var t := s.outboxes[i].targets[k];
        var id := Id(h, lease.outbox.targets[k].ordinal, t.attemptCount + 1);
        if t.updatedAt > at then Err(LeaseLost)
        else
          var t' := SubmitTarget(t, id, at);
          var o' := s.outboxes[i].(targets := s.outboxes[i].targets[k := t']);
          if !Decodes(v, o') then Err(Invariant)
          else if h.binding.PublicationBinding?
                  || v.event(h.binding.kind, h.binding.publicKey, h.binding.authoredAt, h.exactBytes).None?
          then Err(Invariant)
          else Ok(Step(s.(outboxes := s.outboxes[i := o']),
                       PreparedAttempt(lease, t', id, at, lease.expiresAt, h.exactBytes)))
  }

  // ------------------------------------------------------------------ record

  function InputFrom(p: Prepared, finishedAt: nat, outcome: Outcome, delay: nat): Result<RecordInput, OperationError>
  {
    var h := p.lease.outbox.row.head;
    if finishedAt < p.startedAt || outcome.Submitted? then Err(InvalidInput)
    else if p.attemptId != Id(h, p.target.ordinal, p.target.attemptCount) then Err(Invariant)
    else Ok(RecordInput(h.id, p.lease.outbox.row.revision, h.eventSha, p.lease.owner, p.lease.expiresAt,
                        p.target.ordinal, p.target.revision, p.target.attemptCount, p.attemptId,
                        p.startedAt, finishedAt, outcome, delay))
  }

  function RecordOutcome(s: Store, v: Verifier, input: RecordInput): Result<Step<AttemptCommit>, OperationError>
  {
    match FindAttempt(s.log, input.id)
    case Some(existing) => ReconcileRecorded(s, v, input, existing)
    case None =>
      match ReadOutbox(s, v, input.outboxId, LeaseLost)
      case Err(e) => Err(e)
      case Ok(i) => RecordFirst(s, v, input, i)
  }

  function RecordFirst(s: Store, v: Verifier, input: RecordInput, i: nat): Result<Step<AttemptCommit>, OperationError>
    requires i < |s.outboxes|
  {
    var o := s.outboxes[i];
    var h := o.row.head;
    if StaleError(s, o).Some? then Err(StaleError(s, o).value)
    else if o.row.revision != input.outboxRevision || h.eventSha != input.eventSha || !o.row.state.Leased?
            || o.row.leaseOwner != Some(input.owner) || o.row.leaseExpires != Some(input.leaseExpires)
            || input.leaseExpires <= input.finishedAt
    then Err(LeaseLost)
    else match FindOrdinal(o.targets, input.ordinal)
      case None => Err(Invariant)
      case Some(k) =>
        var t := o.targets[k];
        if !OpenAttempt(t, input) then Err(LeaseLost)
        else if !AttemptInsertable(s.log, AttemptFrom(input)) then Err(Storage)
        else match OutcomeSchedule(h.policy, input)
          case Err(e) => Err(e)
          case Ok(sched) =>
            var ts := o.targets[k := CloseTarget(t, sched, input.finishedAt)];
            match Disposition(h, ts)
            case Err(e) => Err(e)
            case Ok(d) =>
              if o.row.updatedAt > input.finishedAt then Err(LeaseLost)
              else
                var o' := Outbox(ReleaseRow(o.row, d, input.finishedAt), ts);
                Ok(Step(s.(outboxes := s.outboxes[i := o'], log := s.log + [AttemptFrom(input)]),
                        CommitValue(input, sched.state, d.state)))
  }

  /** An already recorded attempt: every durable effect must still be the one it had. */
  function ReconcileRecorded(s: Store, v: Verifier, input: RecordInput, existing: Attempt)
    : Result<Step<AttemptCommit>, OperationError>
  {
    if existing != AttemptFrom(input) then Err(Invariant)
    else match ReadOutbox(s, v, input.outboxId, Invariant)
      case Err(e) => Err(e)
      case Ok(i) =>
        var o := s.outboxes[i];
        if o.row.revision != input.outboxRevision + 1 || o.row.updatedAt != input.finishedAt
           || o.row.leaseOwner.Some? || o.row.leaseExpires.Some? || o.row.head.eventSha != input.eventSha
           || !TargetsValid(o.row.head, o.targets)
        then Err(Invariant)
        else match OutcomeSchedule(o.row.head.policy, input)
          case Err(e) => Err(e)
          case Ok(sched) =>
            match FindOrdinal(o.targets, input.ordinal)
            case None => Err(Invariant)
            case Some(k) =>
              var t := o.targets[k];
              if t.revision != input.targetRevision + 1 || t.attemptCount != input.number
                 || t.lastAttempt != Some(input.id) || t.state != sched.state
                 || t.nextAttempt != sched.nextAttempt || t.updatedAt != input.finishedAt
              then Err(Invariant)
              else match Disposition(o.row.head, o.targets)
                case Err(e) => Err(e)
                case Ok(d) =>
                  if o.row.state != d.state || o.row.nextAttempt != d.nextAttempt then Err(Invariant)
                  else Ok(Step(s, CommitValue(input, t.state, o.row.state)))
  }

  // ------------------------------------------------------------------ recovery

  /** Earliest expiry, then oldest creation, then the handler's kind before the profile's, then the identity. */
  function ExpiryRank(v: Verifier, o: Outbox): Rank
  {
    Rank(OrZero(o.row.leaseExpires), o.row.head.createdAt, 1 - KindRank(o), v.identity(Key(o)))
  }

  predicate ExpiresBefore(v: Verifier, a: Outbox, b: Outbox) { RankLess(ExpiryRank(v, a), ExpiryRank(v, b)) }

  function OldestExpired(s: Store, v: Verifier, now: nat, n: nat): (r: Option<nat>)
    requires n <= |s.outboxes|
    ensures r.Some? ==> r.value < n && Expired(s.outboxes[r.value], now)
    ensures r.None? <==> forall i :: 0 <= i < n ==> !Expired(s.outboxes[i], now)
    ensures r.Some? ==> forall i :: 0 <= i < n && Expired(s.outboxes[i], now) ==>
                                      !ExpiresBefore(v, s.outboxes[i], s.outboxes[r.value])
  {
    RankTransitive();
    if n == 0 then None
    else
      LexIrreflexive(v.identity(Key(s.outboxes[n - 1])));
      var best := OldestExpired(s, v, now, n - 1);
      if Expired(s.outboxes[n - 1], now)
         && (best.None? || ExpiresBefore(v, s.outboxes[n - 1], s.outboxes[best.value]))
      then Some(n - 1) else best
  }

  function CandidateFor(d: Desired, o: Outbox): Candidate
  {
    var open := SubmittedAttempts(o.targets);
    var current := DesiredMatches(d, o);
    Candidate(o,
              if current && |open| > 0 && open[0] < o.row.head.policy.maxAttempts
              then RetryUpperBound(PRESENCE_POLICY, open[0]) else 0,
              current)
  }

  /** Recovery's first transaction: it only reads. */
  function ReadExpiredCandidate(s: Store, v: Verifier, now: nat): Result<Option<Candidate>, OperationError>
  {
    match OldestExpired(s, v, now, |s.outboxes|)
    case None => Ok(None)
    case Some(i) =>
      var o := s.outboxes[i];
      if !Decodes(v, o) then Err(Invariant)
      else match ReadDesired(s)
        case Err(e) => Err(e)
        case Ok(d) =>
          if !TargetsValid(o.row.head, o.targets) || |SubmittedAttempts(o.targets)| > 1 then Err(Invariant)
          else Ok(Some(CandidateFor(d, o)))
  }

  /** Recovery's second transaction, on the snapshot the first one returned. */
  function RecoverExpired(s: Store, v: Verifier, c: Candidate, now: nat, delay: nat): Result<Step<bool>, OperationError>
  {
    match ReadOutbox(s, v, Key(c.outbox), LeaseLost)
    case Err(e) => Err(e)
    case Ok(i) =>
      var o := s.outboxes[i];
      if o != c.outbox || !Expired(o, now) then Err(LeaseLost)
      else if o.row.leaseOwner.None? then Err(Invariant)
      else match CloseSubmitted(o, o.row.leaseOwner.value, o.row.leaseExpires.value, o.targets, s.log, 0, now, delay)
        case Err(e) => Err(e)
        case Ok(closed) =>
          var d := if c.currentDesired then Disposition(o.row.head, closed.targets)
                   else Ok(Disposal(Superseded, None));
          if d.Err? then Err(d.error)
          else if o.row.updatedAt > now then Err(LeaseLost)
          else
            var o' := Outbox(ReleaseRow(o.row, d.value, now), closed.targets);
            Ok(Step(s.(outboxes := s.outboxes[i := o'], log := closed.log), true))
  }

  // ------------------------------------------------------------------ commit of signed documents

  function DocumentKinds(d: Desired): seq<DocumentKind>
  {
    (if d.profile then [ServiceProfile] else []) + (if d.handler then [ApplicationHandler] else [])
  }

  predicate DocumentVerifies(v: Verifier, key: Bytes, d: Document, kind: DocumentKind)
  {
    && d.kind == kind && 1 <= |d.bytes| <= MAX_EVENT_BYTES && Sha256(d.bytes) == d.eventSha
    && v.event(d.kind, key, d.createdAt, d.bytes) == Some(d.eventId)
  }

  /** `None` when the document set is exactly what the desired row asks for. */
  function DocumentSetError(v: Verifier, docs: Documents, d: Desired): Option<OperationError>
  {
    var kinds := DocumentKinds(d);
    if docs.desired != d || |docs.targets| != d.targetCount || |docs.documents| != |kinds|
       || TargetSetDigest(PRESENCE_TARGET_SET, docs.targets) != Some(d.targetSetSha) || !v.key(docs.publicKey)
    then Some(DesiredStateMismatch)
    else if exists i :: 0 <= i < |kinds| && !DocumentVerifies(v, docs.publicKey, docs.documents[i], kinds[i])
    then Some(VerificationFailed)
    else None
  }

  /** The outboxes of one generation and kind. */
  function OfKind(outboxes: seq<Outbox>, generation: nat, kind: DocumentKind): seq<Outbox>
  {
    if |outboxes| == 0 then []
    else
      var rest := OfKind(outboxes[..|outboxes| - 1], generation, kind);
      var o := outboxes[|outboxes| - 1];
      if o.row.head.binding.PresenceBinding? && o.row.head.binding.generation == generation
         && o.row.head.binding.kind == kind
      then rest + [o] else rest
  }

  function OfGeneration(outboxes: seq<Outbox>, generation: nat): seq<Outbox>
  {
    OfKind(outboxes, generation, ServiceProfile) + OfKind(outboxes, generation, ApplicationHandler)
  }

  function HeadFor(docs: Documents, d: Document, at: nat): Head
  {
    Head(PresenceOutboxId(docs.desired.generation, d.kind, docs.desired.desiredSha, d.eventSha),
         PresenceBinding(docs.desired.generation, d.kind, docs.desired.desiredSha, d.eventId, d.createdAt,
                         docs.publicKey),
         d.eventSha, d.bytes, docs.desired.targetSetSha, docs.desired.targetCount, docs.desired.requiredCount,
         PRESENCE_POLICY, at)
  }

  function OutboxFor(docs: Documents, d: Document, at: nat): Outbox
  {
    Outbox(FreshRow(HeadFor(docs, d, at)),
           seq(|docs.targets|, i requires 0 <= i < |docs.targets| => InitialTarget(docs.targets[i], at)))
  }

  /** The stored outbox is the one this document committed, however far delivery has gone. */
  predicate SameCommitted(docs: Documents, d: Document, o: Outbox)
  {
    && o.row.head == HeadFor(docs, d, o.row.head.createdAt)
    && |o.targets| == |docs.targets| && Specs(o.targets) == docs.targets
  }

  /** Whether a generation already holds exactly this document set. */
  function GenerationMatches(docs: Documents, current: seq<Outbox>): Result<bool, OperationError>
  {
    if |docs.documents| != |current| then Ok(false)
    else if exists i :: 0 <= i < |current| && !SameCommitted(docs, docs.documents[i], current[i]) then Ok(false)
    else if exists i :: 0 <= i < |current| && !TargetsValid(current[i].row.head, current[i].targets)
    then Err(Invariant)
    else Ok(true)
  }

  predicate NewerThanAll(outboxes: seq<Outbox>, d: Document)
  {
    forall i :: 0 <= i < |outboxes| && outboxes[i].row.head.binding.PresenceBinding?
                && outboxes[i].row.head.binding.kind == d.kind
      ==> outboxes[i].row.head.binding.authoredAt < d.createdAt
  }

  predicate Supersedable(o: Outbox, generation: nat, at: nat)
  {
    Generation(o) != generation && (o.row.state.Pending? || o.row.state.Blocked?) && o.row.updatedAt <= at
  }

  function Supersede(o: Outbox, generation: nat, at: nat): Outbox
  {
    if Supersedable(o, generation, at)
    then o.(row := ReleaseRow(o.row, Disposal(Superseded, None), at)) else o
  }

  function SupersedeAll(outboxes: seq<Outbox>, generation: nat, at: nat): (r: seq<Outbox>)
    ensures |r| == |outboxes| && forall i :: 0 <= i < |r| ==> r[i] == Supersede(outboxes[i], generation, at)
  {
    seq(|outboxes|, i requires 0 <= i < |outboxes| => Supersede(outboxes[i], generation, at))
  }

  /** The outbox and target table constraints an insert must meet. */
  predicate Insertable(outboxes: seq<Outbox>, o: Outbox)
  {
    && Find(outboxes, Key(o)).None?
    && o.row.head.binding.PresenceBinding?
    && OfKind(outboxes, o.row.head.binding.generation, o.row.head.binding.kind) == []
    && 1 <= o.row.head.targetCount <= MAX_TARGETS && o.row.head.requiredCount <= o.row.head.targetCount
    && RelaysOk(o.targets)
    && (forall i :: 0 <= i < |o.targets| ==> o.targets[i].ordinal < MAX_TARGETS)
    && (forall i, j :: 0 <= i < j < |o.targets| ==>
          o.targets[i].relayId != o.targets[j].relayId && o.targets[i].ordinal != o.targets[j].ordinal)
  }

  function InsertDocuments(outboxes: seq<Outbox>, docs: Documents, n: nat, at: nat): Result<seq<Outbox>, OperationError>
    requires n <= |docs.documents|
    decreases |docs.documents| - n
  {
    if n == |docs.documents| then Ok(outboxes)
    else if docs.documents[n].createdAt > MAX_I64 then Err(InvalidInput)
    else
      var o := OutboxFor(docs, docs.documents[n], at);
      if !Insertable(outboxes, o) then Err(Storage)
      else InsertDocuments(outboxes + [o], docs, n + 1, at)
  }

  function CommitSigned(s: Store, v: Verifier, docs: Documents, at: nat): Result<Step<CommitOutcome>, OperationError>
  {
    match ReadDesired(s)
    case Err(e) => Err(e)
    case Ok(d) =>
      if DocumentSetError(v, docs, d).Some? then Err(DocumentSetError(v, docs, d).value)
      else
        var current := OfGeneration(s.outboxes, d.generation);
        if |current| > 2 || exists i :: 0 <= i < |current| && !Decodes(v, current[i]) then Err(Invariant)
        else if |current| > 0 then
          match GenerationMatches(docs, current)
          case Err(e) => Err(e)
          case Ok(same) =>
            if same then Ok(Step(s, CommitOutcome(docs.desired, |docs.documents|, false))) else Err(Invariant)
        else if d.mode.Enabled?
                && exists i :: 0 <= i < |docs.documents| && !NewerThanAll(s.outboxes, docs.documents[i])
        then Err(InvalidInput)
        else if exists i :: 0 <= i < |s.outboxes| && Generation(s.outboxes[i]) != d.generation
                            && s.outboxes[i].row.state.Leased?
        then Err(NotReady)
        else CommitFresh(s, docs, d, at)
  }

  /** Supersedes idle stale work and inserts the new generation. */
  function CommitFresh(s: Store, docs: Documents, d: Desired, at: nat): Result<Step<CommitOutcome>, OperationError>
  {
    var kept := SupersedeAll(s.outboxes, d.generation, at);
    match InsertDocuments(kept, docs, 0, at)
    case Err(e) => Err(e)
    case Ok(outboxes) =>
      match GenerationMatches(docs, OfGeneration(outboxes, d.generation))
      case Err(e) => Err(e)
      case Ok(same) =>
        if !same then Err(Invariant)
        else Ok(Step(s.(outboxes := outboxes),
                     CommitOutcome(docs.desired, |docs.documents|, |docs.documents| > 0 || kept != s.outboxes)))
  }
}
