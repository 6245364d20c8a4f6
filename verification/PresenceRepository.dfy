/**
 * The presence repository as the service runs it: a mutable store whose
 * transactions write rows one after another and roll back on the first error.
 * Each method refines the transaction function of the same purpose.
 */
module PresenceRepository {
  import opened Prelude
  import opened Backoff
  import opened Delivery
  import opened DeliveryInvariant
  import opened Presence

  /** The store a transaction leaves: unchanged when it failed. */
  function StoreAfter<T, E>(before: Store, r: Result<Step<T>, E>): Store
  {
    if r.Ok? then r.value.store else before
  }

  /** The value a transaction returns. */
  function ValueOf<T, E>(r: Result<Step<T>, E>): Result<T, E>
  {
    match r case Ok(step) => Ok(step.value) case Err(e) => Err(e)
  }

  class Repository {
    const verifier: Verifier
    var config: Option<ConfigBinding>
    var desired: Option<Desired>
    var outboxes: seq<Outbox>
    var log: seq<Attempt>

    function Contents(): Store
      reads this
    {
      Store(config, desired, outboxes, log)
    }

    constructor (v: Verifier)
      ensures Contents() == EMPTY && verifier == v
    {
      verifier := v;
      config, desired, outboxes, log := None, None, [], [];
    }

    /** Ends a failed transaction. */
    method Rollback(to: Store)
      modifies this
      ensures Contents() == to
    {
      config, desired, outboxes, log := to.config, to.desired, to.outboxes, to.log;
    }

    method SetDesired(a: Authority) returns (r: Result<DesiredOutcome, DesiredError>)
      modifies this
      ensures Contents() == StoreAfter(old(Contents()), CommitDesired(old(Contents()), a))
      ensures r == ValueOf(CommitDesired(old(Contents()), a))
    {
      if config != Some(ConfigBinding(a.configurationSha, a.publicKey)) {
        return Err(Binding);
      }
      if desired.None? {
        var first := DesiredRow(a, 1);
        if !DesiredRowOk(first) {
          return Err(DesiredStorage);
        }
        desired := Some(first);
        return Ok(DesiredOutcome(first, true));
      }
      var current := desired.value;
      if MatchesAuthority(current, a) {
        return Ok(DesiredOutcome(current, false));
      }
      if current.generation == MAX_I64 {
        return Err(ResourceExhausted);
      }
      var next := DesiredRow(a, current.generation + 1);
      if !DesiredRowOk(next) || next.desiredSha == current.desiredSha {
        return Err(DesiredStorage);
      }
      desired := Some(next);
      r := Ok(DesiredOutcome(next, true));
    }

    method Claim(owner: Owner, now: nat) returns (r: Result<Option<Lease>, OperationError>)
      modifies this`outboxes
      ensures Contents() == StoreAfter(old(Contents()), ClaimNext(old(Contents()), verifier, owner, now))
      ensures r == ValueOf(ClaimNext(old(Contents()), verifier, owner, now))
    {
      hide Decodes, TargetsValid, StaleError;
      var picked := OldestClaimable(Contents(), verifier, now, |outboxes|);
      if picked.None? {
        return Ok(None);
      }
      var i := picked.value;
      var o := outboxes[i];
      if !Decodes(verifier, o) {
        return Err(Invariant);
      }
      if StaleError(Contents(), o).Some? {
        return Err(StaleError(Contents(), o).value);
      }
      if !TargetsValid(o.row.head, o.targets) {
        return Err(Invariant);
      }
      var expires := now + PRESENCE_POLICY.deadlineMs;
      if expires > MAX_I64 {
        return Err(InvalidInput);
      }
      if o.row.updatedAt > now {
        return Err(LeaseLost);
      }
      outboxes := outboxes[i := o.(row := ClaimRow(o.row, owner, now, expires))];
      r := Ok(Some(Lease(outboxes[i], owner, expires)));
    }

    method Prepare(lease: Lease, at: nat) returns (r: Result<Prepared, OperationError>)
      modifies this`outboxes
      ensures Contents() == StoreAfter(old(Contents()), PrepareNext(old(Contents()), verifier, lease, at))
      ensures r == ValueOf(PrepareNext(old(Contents()), verifier, lease, at))
    {
      hide Decodes, TargetsValid, StaleError;
      var before := Contents();
      var refused := LeaseError(before, verifier, lease, at);
      if refused.Some? {
        return Err(refused.value);
      }
      var h := lease.outbox.row.head;
      var due := FindDue(lease.outbox.targets, h.policy.maxAttempts, at);
      if due.None? {
        return Err(NotReady);
      }
      var i, k := ReadOutbox(before, verifier, h.id, LeaseLost).value, due.value;
      var t := outboxes[i].targets[k];
      var id := Id(h, lease.outbox.targets[k].ordinal, t.attemptCount + 1);
      if t.updatedAt > at {
        return Err(LeaseLost);
      }
      var submitted := SubmitTarget(t, id, at);
      outboxes := outboxes[i := outboxes[i].(targets := outboxes[i].targets[k := submitted])];
      if !Decodes(verifier, outboxes[i]) || h.binding.PublicationBinding?
         || verifier.event(h.binding.kind, h.binding.publicKey, h.binding.authoredAt, h.exactBytes).None?
      {
        outboxes := before.outboxes;
        return Err(Invariant);
      }
      r := Ok(PreparedAttempt(lease, submitted, id, at, lease.expiresAt, h.exactBytes));
    }

    method Record(input: RecordInput) returns (r: Result<AttemptCommit, OperationError>)
      modifies this
      ensures Contents() == StoreAfter(old(Contents()), RecordOutcome(old(Contents()), verifier, input))
      ensures r == ValueOf(RecordOutcome(old(Contents()), verifier, input))
    {
      hide Decodes, TargetsValid, StaleError, OutcomeSchedule, Disposition, ReconcileRecorded;
      var before := Contents();
      var existing := FindAttempt(log, input.id);
      if existing.Some? {
        r := ValueOf(ReconcileRecorded(before, verifier, input, existing.value));
        ReconcileWritesNothing(before, verifier, input, existing.value);
        return;
      }
      var read := ReadOutbox(before, verifier, input.outboxId, LeaseLost);
      if read.Err? {
        return Err(read.error);
      }
      var i := read.value;
      var o := outboxes[i];
      if StaleError(before, o).Some? {
        return Err(StaleError(before, o).value);
      }
      if o.row.revision != input.outboxRevision || o.row.head.eventSha != input.eventSha || !o.row.state.Leased?
         || o.row.leaseOwner != Some(input.owner) || o.row.leaseExpires != Some(input.leaseExpires)
         || input.leaseExpires <= input.finishedAt
      {
        return Err(LeaseLost);
      }
      var found := FindOrdinal(o.targets, input.ordinal);
      if found.None? {
        return Err(Invariant);
      }
      var k := found.value;
      if !OpenAttempt(o.targets[k], input) {
        return Err(LeaseLost);
      }
      if !AttemptInsertable(log, AttemptFrom(input)) {
        return Err(Storage);
      }
      log := log + [AttemptFrom(input)];
      var sched := OutcomeSchedule(o.row.head.policy, input);
      if sched.Err? {
        Rollback(before);
        return Err(sched.error);
      }
      var closed := CloseTarget(o.targets[k], sched.value, input.finishedAt);
      outboxes := outboxes[i := o.(targets := o.targets[k := closed])];
      var d := Disposition(o.row.head, outboxes[i].targets);
      if d.Err? {
        Rollback(before);
        return Err(d.error);
      }
      if o.row.updatedAt > input.finishedAt {
        Rollback(before);
        return Err(LeaseLost);
      }
      outboxes := outboxes[i := outboxes[i].(row := ReleaseRow(o.row, d.value, input.finishedAt))];
      r := Ok(CommitValue(input, sched.value.state, d.value.state));
    }

    /** The oldest expired lease, with the ceiling of its one open attempt; it only reads. */
    method ReadExpired(now: nat) returns (r: Result<Option<Candidate>, OperationError>)
      ensures r == ReadExpiredCandidate(Contents(), verifier, now)
      ensures r == Ok(None) <==> forall o :: o in outboxes ==> !Expired(o, now)
      ensures r.Ok? && r.value.Some? ==>
                && r.value.value.outbox in outboxes && Expired(r.value.value.outbox, now)
                && (forall o :: o in outboxes && Expired(o, now) ==> !ExpiresBefore(verifier, o, r.value.value.outbox))
    {
      hide Decodes, TargetsValid, ExpiresBefore, DesiredRowOk, DesiredMatches;
      var picked := OldestExpired(Contents(), verifier, now, |outboxes|);
      if picked.None? {
        return Ok(None);
      }
      var o := outboxes[picked.value];
      if !Decodes(verifier, o) {
        return Err(Invariant);
      }
      var d := ReadDesired(Contents());
      if d.Err? {
        return Err(d.error);
      }
      if !TargetsValid(o.row.head, o.targets) {
        return Err(Invariant);
      }
      var submitted: seq<nat> := [];
      var k := 0;
      while k < |o.targets|
        invariant 0 <= k <= |o.targets| && submitted == SubmittedAttempts(o.targets[..k])
      {
        assert o.targets[..k + 1][..k] == o.targets[..k];
        if o.targets[k].state.Submitted? {
          submitted := submitted + [o.targets[k].attemptCount];
        }
        k := k + 1;
      }
      assert o.targets[..k] == o.targets;
      if |submitted| > 1 {
        return Err(Invariant);
      }
      var current := DesiredMatches(d.value, o);
      var ceiling := 0;
      if current && |submitted| == 1 && submitted[0] < o.row.head.policy.maxAttempts {
        ceiling := ComputeRetryUpperBound(PRESENCE_POLICY, submitted[0]);
      }
      r := Ok(Some(Candidate(o, ceiling, current)));
    }

    method Recover(c: Candidate, now: nat, delay: nat) returns (r: Result<bool, OperationError>)
      modifies this
      ensures Contents() == StoreAfter(old(Contents()), RecoverExpired(old(Contents()), verifier, c, now, delay))
      ensures r == ValueOf(RecoverExpired(old(Contents()), verifier, c, now, delay))
    {
      hide Decodes, TargetsValid, OutcomeSchedule, Disposition, AttemptInsertable;
      var before := Contents();
      var read := ReadOutbox(before, verifier, Key(c.outbox), LeaseLost);
      if read.Err? {
        return Err(read.error);
      }
      var i := read.value;
      var o := outboxes[i];
      if o != c.outbox || !Expired(o, now) {
        return Err(LeaseLost);
      }
      if o.row.leaseOwner.None? {
        return Err(Invariant);
      }
      var owner, expires := o.row.leaseOwner.value, o.row.leaseExpires.value;
      var k := 0;
      while k < |o.targets|
        invariant 0 <= k <= |o.targets| && i < |outboxes| && |outboxes[i].targets| == |o.targets|
        invariant outboxes == before.outboxes[i := o.(targets := outboxes[i].targets)]
        invariant forall j :: k <= j < |o.targets| ==> outboxes[i].targets[j] == o.targets[j]
        invariant config == before.config && desired == before.desired
        invariant CloseSubmitted(o, owner, expires, o.targets, before.log, 0, now, delay)
                  == CloseSubmitted(o, owner, expires, outboxes[i].targets, log, k, now, delay)
      {
        var t := o.targets[k];
        if t.state.Submitted? {
          if t.lastAttempt.None? || FindAttempt(log, t.lastAttempt.value).Some? {
            Rollback(before);
            return Err(Invariant);
          }
          var input := UnknownInput(o, t, t.lastAttempt.value, owner, expires, now, delay);
          if !AttemptInsertable(log, AttemptFrom(input)) {
            Rollback(before);
            return Err(Storage);
          }
          var sched := OutcomeSchedule(o.row.head.policy, input);
          if sched.Err? {
            Rollback(before);
            return Err(sched.error);
          }
          log := log + [AttemptFrom(input)];
          var closed := CloseTarget(t, sched.value, now);
          outboxes := outboxes[i := outboxes[i].(targets := outboxes[i].targets[k := closed])];
        }
        k := k + 1;
      }
      var d := if c.currentDesired then Disposition(o.row.head, outboxes[i].targets)
        else Ok(Disposal(Superseded, None));
      if d.Err? {
        Rollback(before);
        return Err(d.error);
      }
      if o.row.updatedAt > now {
        Rollback(before);
        return Err(LeaseLost);
      }
      outboxes := outboxes[i := outboxes[i].(row := ReleaseRow(o.row, d.value, now))];
      r := Ok(true);
    }

    /** Inserts one outbox row and then its targets, in order. */
    method InsertDocument(docs: Documents, d: Document, at: nat)
      modifies this`outboxes
      ensures outboxes == old(outboxes) + [OutboxFor(docs, d, at)]
    {
      var n := |outboxes|;
      outboxes := outboxes + [Outbox(FreshRow(HeadFor(docs, d, at)), [])];
      var j := 0;
      while j < |docs.targets|
        invariant 0 <= j <= |docs.targets|
        invariant |outboxes| == n + 1 && outboxes[..n] == old(outboxes)
        invariant outboxes[n].row == FreshRow(HeadFor(docs, d, at))
        invariant |outboxes[n].targets| == j
        invariant forall m :: 0 <= m < j ==> outboxes[n].targets[m] == InitialTarget(docs.targets[m], at)
      {
        outboxes := outboxes[n := outboxes[n].(targets := outboxes[n].targets + [InitialTarget(docs.targets[j], at)])];
        j := j + 1;
      }
      assert outboxes[n].targets == OutboxFor(docs, d, at).targets;
      assert outboxes == outboxes[..n] + [outboxes[n]];
    }

    method CommitDocuments(docs: Documents, at: nat) returns (r: Result<CommitOutcome, OperationError>)
      modifies this
      ensures Contents() == StoreAfter(old(Contents()), CommitSigned(old(Contents()), verifier, docs, at))
      ensures r == ValueOf(CommitSigned(old(Contents()), verifier, docs, at))
    {
      hide Decodes, DocumentSetError, GenerationMatches, OfGeneration, NewerThanAll, Insertable, OutboxFor,
           SupersedeAll;
      var before := Contents();
      var read := ReadDesired(before);
      if read.Err? {
        return Err(read.error);
      }
      var d := read.value;
      var refused := DocumentSetError(verifier, docs, d);
      if refused.Some? {
        return Err(refused.value);
      }
      var current := OfGeneration(outboxes, d.generation);
      if |current| > 2 || exists i :: 0 <= i < |current| && !Decodes(verifier, current[i]) {
        return Err(Invariant);
      }
      if |current| > 0 {
        var same := GenerationMatches(docs, current);
        if same.Err? {
          return Err(same.error);
        }
        return if same.value then Ok(CommitOutcome(docs.desired, |docs.documents|, false)) else Err(Invariant);
      }
      if d.mode.Enabled? && exists i :: 0 <= i < |docs.documents| && !NewerThanAll(outboxes, docs.documents[i]) {
        return Err(InvalidInput);
      }
      if exists i :: 0 <= i < |outboxes| && Generation(outboxes[i]) != d.generation && outboxes[i].row.state.Leased? {
        return Err(NotReady);
      }
      outboxes := SupersedeAll(outboxes, d.generation, at);
      var superseded := outboxes != before.outboxes;
      ghost var kept := outboxes;
      var n := 0;
      while n < |docs.documents|
        invariant 0 <= n <= |docs.documents|
        invariant config == before.config && desired == before.desired && log == before.log
        invariant InsertDocuments(kept, docs, 0, at) == InsertDocuments(outboxes, docs, n, at)
      {
        if docs.documents[n].createdAt > MAX_I64 {
          Rollback(before);
          return Err(InvalidInput);
        }
        if !Insertable(outboxes, OutboxFor(docs, docs.documents[n], at)) {
          Rollback(before);
          return Err(Storage);
        }
        InsertDocument(docs, docs.documents[n], at);
        n := n + 1;
      }
      var same := GenerationMatches(docs, OfGeneration(outboxes, d.generation));
      if same.Err? || !same.value {
        Rollback(before);
        return Err(if same.Err? then same.error else Invariant);
      }
      r := Ok(CommitOutcome(docs.desired, |docs.documents|, |docs.documents| > 0 || superseded));
    }
  }

  lemma ReconcileWritesNothing(s: Store, v: Verifier, input: RecordInput, existing: Attempt)
    ensures StoreAfter(s, ReconcileRecorded(s, v, input, existing)) == s
  {
    hide Decodes, TargetsValid, OutcomeSchedule, Disposition, FindOrdinal;
  }
}
