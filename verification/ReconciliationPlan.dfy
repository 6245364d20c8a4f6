/** Planning one reconciliation attempt and checking its result inventory. */
module ReconciliationPlan {
  import opened Prelude
  import opened Encoding
  import opened Delivery

  datatype JobState = Ready | Leased | Exhausted | Superseded | Completed

  datatype JobPolicy = JobPolicy(
    queueCapacity: nat, leaseMs: nat, renewalMs: nat, maxAttempts: nat, initialMs: nat, maximumMs: nat)

  datatype Job = Job(
    id: Bytes32, tradeId: Bytes, inputGeneration: nat, policySha: Bytes32, state: JobState, revision: nat,
    attemptCount: nat, failureCount: nat, policy: JobPolicy, nextAttempt: Option<nat>,
    leaseOwner: Option<Bytes>, leaseExpires: Option<nat>)

  datatype Lease = Lease(job: Job, owner: Bytes, expires: nat)

  /** One configured source; an absent or ill-typed member is `None`. */
  datatype SourceConfig = SourceConfig(
    sourceId: Option<Bytes>, kind: Option<string>, selector: Option<string>, required: Option<bool>,
    deadlineMs: Option<nat>, lookbackSeconds: Option<nat>)

  datatype Config = Config(
    policySha: Option<Bytes32>, jobPolicy: Option<JobPolicy>, attemptDeadlineMs: Option<nat>,
    maximumEvents: Option<nat>, maximumBytes: Option<nat>, sources: Option<seq<SourceConfig>>)

  datatype Request = Request(
    id: Digest, sourceId: Bytes, tradeId: Bytes, required: bool, selectorSha: Bytes32, startedAt: nat,
    deadline: nat, lookbackSeconds: nat, maximumEvents: nat, maximumBytes: nat)

  datatype Plan = Plan(
    id: Bytes32, jobId: Bytes32, inputGeneration: nat, policySha: Bytes32, startedAt: nat, deadline: nat,
    requests: seq<Request>)

  datatype PlanError = InvalidInput | InvalidConfiguration | PolicyMismatch | LeaseExpired | ResultInventory

  const MAX_SOURCES: nat := 16
  const MAX_RESULT_EVENTS: nat := 4096
  const MAX_RESULT_BYTES: nat := 8 * 1024 * 1024
  const SOURCE_SELECTOR := "trade_mutation_lineage_v1"
  const SOURCE_KIND := "nostr_relay"
  const ATTEMPT_ID := "radroots.rhi.reconciliation_attempt.v1"
  const SELECTOR_DIGEST := "radroots.rhi.reconciliation_selector.v1"
  const REQUEST_ID := "radroots.rhi.reconciliation_source_request.v1"

  // ------------------------------------------------------------------ identities

  function AttemptPreimage(jobId: Bytes32, attemptCount: nat): Bytes
  {
    Domain(ATTEMPT_ID) + (jobId + U16(attemptCount))
  }

  function SelectorPreimage(tradeId: Bytes): Bytes
  {
    Domain(SELECTOR_DIGEST)
    + (Framed(Ascii(SOURCE_SELECTOR)) + U32(5) + U32(3470) + U32(3471) + U32(3472) + U32(3473) + U32(3474) + Ascii("d"))
    + tradeId
  }

  /** What the identity of one source request covers. */
  datatype Material = Material(
    attemptId: Bytes32, sourceId: Bytes, required: bool, selectorSha: Bytes32, startedAt: nat, deadline: nat,
    lookbackSeconds: nat, maximumEvents: nat, maximumBytes: nat)

  function RequestPreimage(m: Material): Bytes
  {
    Domain(REQUEST_ID) + (m.attemptId + (Framed(m.sourceId) + (Flag(m.required) + (m.selectorSha + RequestBounds(m)))))
  }

  function RequestBounds(m: Material): Bytes
  {
    U64(m.startedAt) + (U64(m.deadline) + (U64(m.lookbackSeconds) + (U32(m.maximumEvents) + U64(m.maximumBytes))))
  }

  predicate MaterialFits(m: Material)
  {
    && |m.sourceId| < U64_LIMIT && m.startedAt < U64_LIMIT && m.deadline < U64_LIMIT && m.lookbackSeconds < U64_LIMIT
    && m.maximumEvents < U32_LIMIT && m.maximumBytes < U64_LIMIT
  }

  // ------------------------------------------------------------------ the plan

  function Bounded(v: Option<nat>, minimum: nat, maximum: nat): (r: Option<nat>)
    ensures r.Some? ==> r == v && minimum <= r.value <= maximum
  {
    if v.Some? && minimum <= v.value <= maximum then v else None
  }

  /** A duration from `start`, capped by a ceiling that must lie in the future. */
  function AbsoluteDeadline(start: nat, duration: nat, ceiling: nat): Result<nat, PlanError>
  {
    if start + duration > MAX_I64 || Min(start + duration, ceiling) <= start then Err(PlanError.InvalidInput)
    else Ok(Min(start + duration, ceiling))
  }

  /** What every request of one plan shares. */
  datatype Context = Context(
    attemptId: Bytes32, tradeId: Bytes, selectorSha: Bytes32, startedAt: nat, attemptMs: nat, deadline: nat,
    maximumEvents: nat, maximumBytes: nat)

  function RequestFor(c: Context, sourceId: Bytes, required: bool, deadline: nat, lookback: nat): Request
  {
    var m := Material(c.attemptId, sourceId, required, c.selectorSha, c.startedAt, deadline, lookback,
                      c.maximumEvents, c.maximumBytes);
    Request(Sha256(RequestPreimage(m)), sourceId, c.tradeId, required, c.selectorSha, c.startedAt, deadline, lookback,
            c.maximumEvents, c.maximumBytes)
  }

  function PlanSource(c: Context, prior: Option<Bytes>, s: SourceConfig): Result<Request, PlanError>
  {
    if s.sourceId.None? || !ValidRelayId(s.sourceId.value)
       || (prior.Some? && !LexLess(prior.value, s.sourceId.value))
       || s.kind != Some(SOURCE_KIND) || s.selector != Some(SOURCE_SELECTOR) || s.required.None?
       || Bounded(s.deadlineMs, 100, 30_000).None? || s.deadlineMs.value > c.attemptMs
    then Err(InvalidConfiguration)
    else match AbsoluteDeadline(c.startedAt, s.deadlineMs.value, c.deadline)
      case Err(e) => Err(e)
      case Ok(deadline) =>
        if Bounded(s.lookbackSeconds, 60, 2_678_400).None? then Err(InvalidConfiguration)
        else Ok(RequestFor(c, s.sourceId.value, s.required.value, deadline, s.lookbackSeconds.value))
  }

  function LastSource(requests: seq<Request>): Option<Bytes>
  {
    if |requests| == 0 then None else Some(requests[|requests| - 1].sourceId)
  }

  /** Plans the sources in configuration order; the first invalid one decides the error. */
  function PlanSources(c: Context, sources: seq<SourceConfig>): Result<seq<Request>, PlanError>
  {
    if |sources| == 0 then Ok([])
    else match PlanSources(c, sources[..|sources| - 1])
      case Err(e) => Err(e)
      case Ok(done) =>
        match PlanSource(c, LastSource(done), sources[|sources| - 1])
        case Err(e) => Err(e)
        case Ok(request) => Ok(done + [request])
  }

  predicate SameAttemptPolicy(a: JobPolicy, b: JobPolicy)
  {
    && a.leaseMs == b.leaseMs && a.renewalMs == b.renewalMs && a.maxAttempts == b.maxAttempts
    && a.initialMs == b.initialMs && a.maximumMs == b.maximumMs
  }

  /** Everything decided before the sources are planned. `raw` renders a digest as bytes. */
  function PlanContext(raw: Digest -> Bytes32, lease: Lease, config: Config, start: nat)
    : (r: Result<Context, PlanError>)
    ensures r.Ok? ==> config.sources.Some? && 1 <= |config.sources.value| <= MAX_SOURCES
  {
    var job := lease.job;
    if !job.state.Leased? || job.attemptCount == 0 then Err(PlanError.InvalidInput)
    else if start >= lease.expires then Err(LeaseExpired)
    else if config.policySha.None? then Err(InvalidConfiguration)
    else if config.policySha.value != job.policySha then Err(PolicyMismatch)
    else if config.jobPolicy.None? then Err(InvalidConfiguration)
    else if !SameAttemptPolicy(job.policy, config.jobPolicy.value) then Err(PolicyMismatch)
    else if Bounded(config.attemptDeadlineMs, 100, 30_000).None? then Err(InvalidConfiguration)
    else match AbsoluteDeadline(start, config.attemptDeadlineMs.value, lease.expires)
      case Err(e) => Err(e)
      case Ok(deadline) =>
        if Bounded(config.maximumEvents, 1, MAX_RESULT_EVENTS).None?
           || Bounded(config.maximumBytes, 1, MAX_RESULT_BYTES).None?
           || config.sources.None? || !(1 <= |config.sources.value| <= MAX_SOURCES)
        then Err(InvalidConfiguration)
        else Ok(Context(raw(Sha256(AttemptPreimage(job.id, job.attemptCount))), job.tradeId,
                        raw(Sha256(SelectorPreimage(job.tradeId))), start, config.attemptDeadlineMs.value, deadline,
                        config.maximumEvents.value, config.maximumBytes.value))
  }

  function PlanOf(lease: Lease, c: Context, requests: seq<Request>): Plan
  {
    Plan(c.attemptId, lease.job.id, lease.job.inputGeneration, lease.job.policySha, c.startedAt, c.deadline, requests)
  }

  function FromClaim(raw: Digest -> Bytes32, lease: Lease, config: Config, start: nat): Result<Plan, PlanError>
  {
    match PlanContext(raw, lease, config, start)
    case Err(e) => Err(e)
    case Ok(c) =>
      match PlanSources(c, config.sources.value)
      case Err(e) => Err(e)
      case Ok(requests) => Ok(PlanOf(lease, c, requests))
  }

  /** The planning loop: one pass with the previous source identity carried along. */
  method ComputePlan(raw: Digest -> Bytes32, lease: Lease, config: Config, start: nat)
    returns (r: Result<Plan, PlanError>)
    ensures r == FromClaim(raw, lease, config, start)
  {
    hide PlanSource, RequestFor;
    var context := PlanContext(raw, lease, config, start);
    if context.Err? {
      return Err(context.error);
    }
    var sources := config.sources.value;
    var requests: seq<Request> := [];
    var prior: Option<Bytes> := None;
    var i := 0;
    while i < |sources|
      invariant 0 <= i <= |sources|
      invariant PlanSources(context.value, sources[..i]) == Ok(requests)
      invariant prior == LastSource(requests)
    {
      assert sources[..i + 1][..i] == sources[..i];
      var request := PlanSource(context.value, prior, sources[i]);
      if request.Err? {
        FirstErrorDecides(context.value, sources, i + 1);
        return Err(request.error);
      }
      requests := requests + [request.value];
      prior := Some(request.value.sourceId);
      i := i + 1;
    }
    assert sources[..i] == sources;
    r := Ok(PlanOf(lease, context.value, requests));
  }

  lemma {:induction false} FirstErrorDecides(c: Context, sources: seq<SourceConfig>, n: nat)
    requires n <= |sources| && PlanSources(c, sources[..n]).Err?
    ensures PlanSources(c, sources) == PlanSources(c, sources[..n])
    decreases |sources| - n
  {
    hide PlanSource;
    if n < |sources| {
      assert sources[..n + 1][..n] == sources[..n];
      FirstErrorDecides(c, sources, n + 1);
    } else {
      assert sources[..n] == sources;
    }
  }

  // ------------------------------------------------------------------ what every plan satisfies

  /** A request derives its identity from its own fields and ends inside its plan. */
  predicate RequestOk(c: Context, q: Request)
  {
    && q.startedAt == c.startedAt < q.deadline <= c.deadline && |q.sourceId| <= 64
    && 1 <= q.maximumEvents <= MAX_RESULT_EVENTS && 1 <= q.maximumBytes <= MAX_RESULT_BYTES
    && q == RequestFor(c, q.sourceId, q.required, q.deadline, q.lookbackSeconds) && q.lookbackSeconds <= 2_678_400
  }

  predicate Ordered(requests: seq<Request>)
  {
    forall i, j :: 0 <= i < j < |requests| ==> LexLess(requests[i].sourceId, requests[j].sourceId)
  }

  lemma {:induction false} PlannedSources(c: Context, sources: seq<SourceConfig>)
    requires PlanSources(c, sources).Ok?
    requires 1 <= c.maximumEvents <= MAX_RESULT_EVENTS && 1 <= c.maximumBytes <= MAX_RESULT_BYTES
    ensures var qs := PlanSources(c, sources).value;
            |qs| == |sources| && Ordered(qs) && forall i :: 0 <= i < |qs| ==> RequestOk(c, qs[i])
  {
    hide RequestPreimage, LexLess;
    if |sources| > 0 {
      var done := PlanSources(c, sources[..|sources| - 1]).value;
      PlannedSources(c, sources[..|sources| - 1]);
      var q := PlanSource(c, LastSource(done), sources[|sources| - 1]).value;
      forall i | 0 <= i < |done| ensures LexLess(done[i].sourceId, q.sourceId) {
        if i < |done| - 1 {
          LexTransitive(done[i].sourceId, done[|done| - 1].sourceId, q.sourceId);
        }
      }
    }
  }

  /** Equal request identities come from equal material. */
  lemma RequestIdInjective(m: Material, n: Material)
    requires MaterialFits(m) && MaterialFits(n) && RequestPreimage(m) == RequestPreimage(n)
    ensures m == n
  {
    hide U64, U32, Framed, Flag, Domain, RequestBounds;
    var d := Domain(REQUEST_ID);
    var mt, nt := Flag(m.required) + (m.selectorSha + RequestBounds(m)),
      Flag(n.required) + (n.selectorSha + RequestBounds(n));
    Cancel(d, d, m.attemptId + (Framed(m.sourceId) + mt), n.attemptId + (Framed(n.sourceId) + nt));
    Cancel(m.attemptId, n.attemptId, Framed(m.sourceId) + mt, Framed(n.sourceId) + nt);
    CancelFramed(m.sourceId, n.sourceId, mt, nt);
    CancelFlag(m.required, n.required, m.selectorSha + RequestBounds(m), n.selectorSha + RequestBounds(n));
    Cancel(m.selectorSha, n.selectorSha, RequestBounds(m), RequestBounds(n));
    BoundsInjective(m, n);
  }

  lemma BoundsInjective(m: Material, n: Material)
    requires MaterialFits(m) && MaterialFits(n) && RequestBounds(m) == RequestBounds(n)
    ensures m.startedAt == n.startedAt && m.deadline == n.deadline && m.lookbackSeconds == n.lookbackSeconds
    ensures m.maximumEvents == n.maximumEvents && m.maximumBytes == n.maximumBytes
  {
    hide U64, U32;
    var m3, n3 := U32(m.maximumEvents) + U64(m.maximumBytes), U32(n.maximumEvents) + U64(n.maximumBytes);
    var m2, n2 := U64(m.lookbackSeconds) + m3, U64(n.lookbackSeconds) + n3;
    CancelU64(m.startedAt, n.startedAt, U64(m.deadline) + m2, U64(n.deadline) + n2);
    CancelU64(m.deadline, n.deadline, m2, n2);
    CancelU64(m.lookbackSeconds, n.lookbackSeconds, m3, n3);
    CancelU32(m.maximumEvents, n.maximumEvents, U64(m.maximumBytes), U64(n.maximumBytes));
    assert U64(m.maximumBytes) + [] == U64(m.maximumBytes) && U64(n.maximumBytes) + [] == U64(n.maximumBytes);
    CancelU64(m.maximumBytes, n.maximumBytes, [], []);
  }

  /** One attempt identity names one job and one attempt number. */
  lemma AttemptIdInjective(a: Bytes32, b: Bytes32, m: nat, n: nat)
    requires m < 0x1_0000 && n < 0x1_0000 && AttemptPreimage(a, m) == AttemptPreimage(b, n)
    ensures a == b && m == n
  {
    hide U16, Domain;
    Cancel(Domain(ATTEMPT_ID), Domain(ATTEMPT_ID), a + U16(m), b + U16(n));
    Cancel(a, b, U16(m), U16(n));
    assert U16(m) + [] == U16(m) && U16(n) + [] == U16(n);
    CancelU16(m, n, [], []);
  }

  lemma SelectorInjective(a: Bytes, b: Bytes)
    requires SelectorPreimage(a) == SelectorPreimage(b)
    ensures a == b
  {
    hide U32, Framed, Domain, Ascii;
    var p := Domain(SELECTOR_DIGEST)
      + (Framed(Ascii(SOURCE_SELECTOR)) + U32(5) + U32(3470) + U32(3471) + U32(3472) + U32(3473) + U32(3474)
        + Ascii("d"));
    Cancel(p, p, a, b);
  }

  /** Every plan respects its lease, its order and the identity of its requests. */
  ghost predicate PlanOk(lease: Lease, p: Plan)
  {
    && p.startedAt < p.deadline <= lease.expires && 1 <= |p.requests| <= MAX_SOURCES
    && p.jobId == lease.job.id && p.inputGeneration == lease.job.inputGeneration && p.policySha == lease.job.policySha
    && (forall i :: 0 <= i < |p.requests| ==>
          p.startedAt == p.requests[i].startedAt < p.requests[i].deadline <= p.deadline
          && p.requests[i].tradeId == lease.job.tradeId)
    && Ordered(p.requests)
    && (forall i, j :: 0 <= i < j < |p.requests| ==> p.requests[i].id != p.requests[j].id)
  }

  lemma OrderedDistinct(c: Context, qs: seq<Request>, i: nat, j: nat)
    requires Ordered(qs) && i < j < |qs| && RequestOk(c, qs[i]) && RequestOk(c, qs[j])
    requires c.deadline <= MAX_I64
    ensures qs[i].id != qs[j].id
  {
    hide RequestPreimage, LexLess;
    LexIrreflexive(qs[i].sourceId);
    var m := Material(c.attemptId, qs[i].sourceId, qs[i].required, c.selectorSha, c.startedAt, qs[i].deadline,
                      qs[i].lookbackSeconds, c.maximumEvents, c.maximumBytes);
    var n := Material(c.attemptId, qs[j].sourceId, qs[j].required, c.selectorSha, c.startedAt, qs[j].deadline,
                      qs[j].lookbackSeconds, c.maximumEvents, c.maximumBytes);
    if RequestPreimage(m) == RequestPreimage(n) {
      RequestIdInjective(m, n);
    }
  }

  lemma PlansAreSound(raw: Digest -> Bytes32, lease: Lease, config: Config, start: nat)
    requires FromClaim(raw, lease, config, start).Ok?
    ensures PlanOk(lease, FromClaim(raw, lease, config, start).value)
    ensures FromClaim(raw, lease, config, start).value.startedAt == start
  {
    hide PlanSources, RequestOk, Ordered, RequestPreimage, SelectorPreimage, AttemptPreimage;
    var c := PlanContext(raw, lease, config, start).value;
    var qs := PlanSources(c, config.sources.value).value;
    PlannedSources(c, config.sources.value);
    forall i, j | 0 <= i < j < |qs| ensures qs[i].id != qs[j].id {
      OrderedDistinct(c, qs, i, j);
    }
    forall i | 0 <= i < |qs| ensures c.startedAt == qs[i].startedAt < qs[i].deadline <= c.deadline
      && qs[i].tradeId == c.tradeId {
      RequestWithin(c, qs[i]);
    }
  }

  lemma RequestWithin(c: Context, q: Request)
    requires RequestOk(c, q)
    ensures c.startedAt == q.startedAt < q.deadline <= c.deadline && q.tradeId == c.tradeId
  {
    hide RequestPreimage;
  }

  // ------------------------------------------------------------------ which plans exist, and what they say

  /** A source entry the planner accepts, apart from its place in the order. */
  predicate SourceFits(s: SourceConfig, attemptMs: nat)
  {
    && s.sourceId.Some? && ValidRelayId(s.sourceId.value)
    && s.kind == Some("nostr_relay") && s.selector == Some("trade_mutation_lineage_v1") && s.required.Some?
    && s.deadlineMs.Some? && 100 <= s.deadlineMs.value <= 30_000 && s.deadlineMs.value <= attemptMs
    && s.lookbackSeconds.Some? && 60 <= s.lookbackSeconds.value <= 2_678_400
  }

  predicate AllFit(sources: seq<SourceConfig>, attemptMs: nat)
  {
    forall i :: 0 <= i < |sources| ==> SourceFits(sources[i], attemptMs)
  }

  predicate Before(a: SourceConfig, b: SourceConfig)
  {
    a.sourceId.Some? && b.sourceId.Some? && LexLess(a.sourceId.value, b.sourceId.value)
  }

  /** Source identities are strictly increasing. */
  predicate Increasing(sources: seq<SourceConfig>)
  {
    forall i, j :: 0 <= i < j < |sources| ==> Before(sources[i], sources[j])
  }

  /** Everything before the sources, decided by the lease and the configuration. */
  predicate Startable(lease: Lease, config: Config, start: nat)
  {
    var job := lease.job;
    && job.state.Leased? && job.attemptCount >= 1 && start < lease.expires && config.policySha == Some(job.policySha)
    && config.jobPolicy.Some? && job.policy.(queueCapacity := 0) == config.jobPolicy.value.(queueCapacity := 0)
    && config.attemptDeadlineMs.Some? && 100 <= config.attemptDeadlineMs.value <= 30_000
    && start + config.attemptDeadlineMs.value <= MAX_I64
    && config.maximumEvents.Some? && 1 <= config.maximumEvents.value <= 4096
    && config.maximumBytes.Some? && 1 <= config.maximumBytes.value <= 8_388_608
    && config.sources.Some? && 1 <= |config.sources.value| <= 16
  }

  /** The lease, the configuration and the instant a plan exists for. */
  predicate Plannable(lease: Lease, config: Config, start: nat)
  {
    && Startable(lease, config, start)
    && AllFit(config.sources.value, config.attemptDeadlineMs.value) && Increasing(config.sources.value)
  }

  /** The request a source entry turns into: its own values, its deadline capped by the plan's. */
  predicate RequestIs(q: Request, s: SourceConfig, attemptId: Bytes32, selectorSha: Bytes32, tradeId: Bytes, start: nat,
                      deadline: nat, maximumEvents: nat, maximumBytes: nat)
  {
    && s.sourceId == Some(q.sourceId) && s.required == Some(q.required) && s.lookbackSeconds == Some(q.lookbackSeconds)
    && s.deadlineMs.Some?
    && q.deadline == (if start + s.deadlineMs.value <= deadline then start + s.deadlineMs.value else deadline)
    && q.tradeId == tradeId && q.selectorSha == selectorSha && q.startedAt == start
    && q.maximumEvents == maximumEvents && q.maximumBytes == maximumBytes
    && q.id == Sha256(RequestPreimage(Material(attemptId, q.sourceId, q.required, selectorSha, start, q.deadline,
                                               q.lookbackSeconds, maximumEvents, maximumBytes)))
  }

  /** The plan of a lease: the attempt's own deadline capped by lease expiry, one request per source in order. */
  ghost predicate PlanIs(raw: Digest -> Bytes32, lease: Lease, config: Config, start: nat, p: Plan)
    requires Plannable(lease, config, start)
  {
    var ends := start + config.attemptDeadlineMs.value;
    && p.id == raw(Sha256(AttemptPreimage(lease.job.id, lease.job.attemptCount)))
    && p.jobId == lease.job.id && p.inputGeneration == lease.job.inputGeneration && p.policySha == lease.job.policySha
    && p.startedAt == start && p.deadline == (if ends <= lease.expires then ends else lease.expires)
    && |p.requests| == |config.sources.value|
    && forall i :: 0 <= i < |p.requests| ==>
         RequestIs(p.requests[i], config.sources.value[i], p.id, raw(Sha256(SelectorPreimage(lease.job.tradeId))),
                   lease.job.tradeId, start, p.deadline, config.maximumEvents.value, config.maximumBytes.value)
  }

  lemma IncreasingAppend(sources: seq<SourceConfig>)
    requires |sources| >= 2
    ensures var n := |sources| - 1;
            Increasing(sources) <==> Increasing(sources[..n]) && Before(sources[n - 1], sources[n])
  {
    hide LexLess;
    var n := |sources| - 1;
    assert forall i :: 0 <= i < n ==> sources[..n][i] == sources[i];
    if Increasing(sources[..n]) && Before(sources[n - 1], sources[n]) {
      forall i, j | 0 <= i < j < |sources| ensures Before(sources[i], sources[j]) {
        if j < n {
          assert Before(sources[..n][i], sources[..n][j]);
        } else if i < n - 1 {
          assert Before(sources[..n][i], sources[..n][n - 1]);
          LexTransitive(sources[i].sourceId.value, sources[n - 1].sourceId.value, sources[n].sourceId.value);
        }
      }
    }
    if Increasing(sources) {
      forall i, j | 0 <= i < j < n ensures Before(sources[..n][i], sources[..n][j]) {
        assert Before(sources[i], sources[j]);
      }
    }
  }

  lemma SourceDecides(c: Context, prior: Option<Bytes>, s: SourceConfig)
    requires c.startedAt < c.deadline && c.startedAt + c.attemptMs <= MAX_I64
    ensures var r := PlanSource(c, prior, s);
            && (r.Ok? <==> SourceFits(s, c.attemptMs) && (prior.Some? ==> LexLess(prior.value, s.sourceId.value)))
            && (r.Ok? ==> RequestIs(r.value, s, c.attemptId, c.selectorSha, c.tradeId, c.startedAt, c.deadline,
                                    c.maximumEvents, c.maximumBytes))
  {
    hide RequestPreimage, LexLess, ValidRelayId;
  }

  /** The sources are planned exactly when each fits and their identities increase. */
  lemma {:induction false} SourcesDecide(c: Context, sources: seq<SourceConfig>)
    requires c.startedAt < c.deadline && c.startedAt + c.attemptMs <= MAX_I64
    ensures var r := PlanSources(c, sources);
            && (r.Ok? <==> AllFit(sources, c.attemptMs) && Increasing(sources))
            && (r.Ok? ==> |r.value| == |sources| && forall i :: 0 <= i < |sources| ==>
                  RequestIs(r.value[i], sources[i], c.attemptId, c.selectorSha, c.tradeId, c.startedAt, c.deadline,
                            c.maximumEvents, c.maximumBytes))
  {
    hide PlanSource, SourceFits, LexLess, RequestPreimage;
    if |sources| > 0 {
      var n := |sources| - 1;
      SourcesDecide(c, sources[..n]);
      FitAppend(sources, c.attemptMs);
      if n >= 1 {
        IncreasingAppend(sources);
      }
      if PlanSources(c, sources[..n]).Ok? {
        var done := PlanSources(c, sources[..n]).value;
        SourceDecides(c, LastSource(done), sources[n]);
        if SourceFits(sources[n], c.attemptMs) {
          FitHasId(sources[n], c.attemptMs);
        }
        assert n >= 1 ==> sources[n - 1].sourceId == LastSource(done);
      }
    }
  }

  lemma FitAppend(sources: seq<SourceConfig>, attemptMs: nat)
    requires |sources| >= 1
    ensures var n := |sources| - 1;
            AllFit(sources, attemptMs) <==> AllFit(sources[..n], attemptMs) && SourceFits(sources[n], attemptMs)
  {
    hide SourceFits;
    var n := |sources| - 1;
    assert forall i :: 0 <= i < n ==> sources[..n][i] == sources[i];
    if AllFit(sources, attemptMs) {
      assert forall i :: 0 <= i < n ==> SourceFits(sources[i], attemptMs);
    }
  }

  lemma FitHasId(s: SourceConfig, attemptMs: nat)
    requires SourceFits(s, attemptMs)
    ensures s.sourceId.Some?
  {
  }

  lemma ContextDecides(raw: Digest -> Bytes32, lease: Lease, config: Config, start: nat)
    ensures var r := PlanContext(raw, lease, config, start);
            && (r.Ok? <==> Startable(lease, config, start))
            && (r.Ok? ==>
                  var ends := start + config.attemptDeadlineMs.value;
                  r.value == Context(raw(Sha256(AttemptPreimage(lease.job.id, lease.job.attemptCount))),
                    lease.job.tradeId,
                                     raw(Sha256(SelectorPreimage(lease.job.tradeId))), start,
                                     config.attemptDeadlineMs.value,
                                     if ends <= lease.expires then ends else lease.expires,
                                     config.maximumEvents.value, config.maximumBytes.value))
  {
    hide AttemptPreimage, SelectorPreimage;
  }

  /** A plan exists exactly for a plannable lease and configuration, and its every field is named. */
  lemma PlanDecides(raw: Digest -> Bytes32, lease: Lease, config: Config, start: nat)
    ensures var r := FromClaim(raw, lease, config, start);
            && (r.Ok? <==> Plannable(lease, config, start))
            && (r.Ok? ==> PlanIs(raw, lease, config, start, r.value))
  {
    hide PlanContext, PlanSources, AttemptPreimage, SelectorPreimage, RequestIs, AllFit, Increasing;
    ContextDecides(raw, lease, config, start);
    if PlanContext(raw, lease, config, start).Ok? {
      SourcesDecide(PlanContext(raw, lease, config, start).value, config.sources.value);
    }
  }

  // ------------------------------------------------------------------ results

  datatype Completion =
    | Complete | IncompleteTimeout | IncompleteUnavailable | IncompleteResourceLimit | IncompleteUnknown | Unsupported

  datatype SourceResult = SourceResult(
    requestId: Digest, outcome: Completion, startedAt: nat, finishedAt: nat, eventCount: nat, eventBytes: nat)

  function NewResult(q: Request, outcome: Completion, startedAt: nat, finishedAt: nat, count: nat, bytes: nat)
    : Result<SourceResult, PlanError>
  {
    var beforeDeadline := finishedAt < q.deadline;
    if startedAt < q.startedAt || startedAt > finishedAt || startedAt >= q.deadline
       || (outcome.IncompleteTimeout? && beforeDeadline) || (!outcome.IncompleteTimeout? && !beforeDeadline)
       || count > q.maximumEvents || bytes > q.maximumBytes || (count == 0) != (bytes == 0)
       || (outcome.Unsupported? && (count != 0 || bytes != 0))
    then Err(PlanError.InvalidInput)
    else Ok(SourceResult(q.id, outcome, startedAt, finishedAt, count, bytes))
  }

  /** A result that stays inside its request: started in time, timed out exactly when late, and within both limits. */
  predicate ResultFits(q: Request, r: SourceResult)
  {
    && r.requestId == q.id && q.startedAt <= r.startedAt < q.deadline && r.startedAt <= r.finishedAt
    && (r.outcome == IncompleteTimeout <==> q.deadline <= r.finishedAt)
    && r.eventCount <= q.maximumEvents && r.eventBytes <= q.maximumBytes && (r.eventCount > 0 <==> r.eventBytes > 0)
    && (r.outcome == Unsupported ==> r.eventCount == 0)
  }

  /** A result is built exactly when it fits its request, and carries exactly what was observed. */
  lemma ResultDecides(q: Request, outcome: Completion, startedAt: nat, finishedAt: nat, count: nat, bytes: nat)
    ensures var r := SourceResult(q.id, outcome, startedAt, finishedAt, count, bytes);
            NewResult(q, outcome, startedAt, finishedAt, count, bytes)
            == if ResultFits(q, r) then Ok(r) else Err(PlanError.InvalidInput)
  {
  }

  /** Takes at most one result more than there are requests and compares position by position. */
  function NewInventory(p: Plan, results: seq<SourceResult>): Result<seq<SourceResult>, PlanError>
  {
    var taken := results[..Min(|results|, |p.requests| + 1)];
    if |taken| != |p.requests| || exists i :: 0 <= i < |taken| && taken[i].requestId != p.requests[i].id
    then Err(ResultInventory) else Ok(taken)
  }

  /** An accepted inventory is the given one, matched one-to-one: result `i` answers request `j` only for `i == j`. */
  lemma InventoryOneToOne(lease: Lease, p: Plan, results: seq<SourceResult>)
    requires PlanOk(lease, p)
    ensures NewInventory(p, results).Ok? <==>
            |results| == |p.requests| && forall i :: 0 <= i < |results| ==> results[i].requestId == p.requests[i].id
    ensures NewInventory(p, results).Ok? ==>
              && NewInventory(p, results).value == results
              && forall i, j :: 0 <= i < |results| && 0 <= j < |p.requests| ==>
                   (results[i].requestId == p.requests[j].id <==> i == j)
  {
    var taken := results[..Min(|results|, |p.requests| + 1)];
    if |results| == |p.requests| {
      assert taken == results;
    }
    if NewInventory(p, results).Ok? {
      forall i, j | 0 <= i < |results| && 0 <= j < |p.requests|
        ensures results[i].requestId == p.requests[j].id <==> i == j
      {
        assert taken[i].requestId == p.requests[i].id;
        assert i < j ==> p.requests[i].id != p.requests[j].id;
        assert j < i ==> p.requests[j].id != p.requests[i].id;
      }
    }
  }
}
