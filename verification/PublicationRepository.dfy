/**
 * The publication repository as the service runs it: rows are rewritten in place
 * and a failed transaction is rolled back.  Each method refines the transaction
 * function of the same purpose.
 */
module PublicationRepository {
  import opened Prelude
  import opened Encoding
  import opened Digests
  import opened Delivery
  import opened Publication

  function StoreAfter<T>(before: Store, r: Result<Step<T>, OperationError>): Store
  {
    if r.Ok? then r.value.store else before
  }

  function ValueOf<T>(r: Result<Step<T>, OperationError>): Result<T, OperationError>
  {
    match r case Ok(step) => Ok(step.value) case Err(e) => Err(e)
  }

  lemma {:induction false} CountRequiredAppend(ss: seq<TargetSpec>, i: nat)
    requires i < |ss|
    ensures CountRequired(ss[..i + 1]) == CountRequired(ss[..i]) + if ss[i].required then 1 else 0
  {
    if i == 0 {
      assert ss[..1] == [ss[0]] && ss[..0] == [];
    } else {
      assert ss[..i + 1][1..] == ss[1..][..i] && ss[..i][1..] == ss[1..][..i - 1];
      CountRequiredAppend(ss[1..], i - 1);
    }
  }

  /** One pass over the stored targets decides whether they are the committed inventory. */
  method ValidateTargets(h: Head, ss: seq<TargetSpec>) returns (ok: bool)
    requires 1 <= h.targetCount
    ensures ok <==> SpecsMatch(h, ss)
  {
    if |ss| != h.targetCount || |ss| > MAX_TARGETS {
      return false;
    }
    var required := 0;
    var i := 0;
    while i < |ss|
      invariant 0 <= i <= |ss|
      invariant required == CountRequired(ss[..i])
      invariant forall k :: 0 <= k < i ==> ss[k].ordinal == k
      invariant forall k, m :: 0 <= k < m < |ss| && k < i ==> ss[k].relayId != ss[m].relayId
    {
      if ss[i].ordinal != i {
        return false;
      }
      var j := i + 1;
      while j < |ss|
        invariant i < j <= |ss|
        invariant forall m :: i < m < j ==> ss[i].relayId != ss[m].relayId
      {
        if ss[i].relayId == ss[j].relayId {
          return false;
        }
        j := j + 1;
      }
      CountRequiredAppend(ss, i);
      if ss[i].required {
        required := required + 1;
      }
      i := i + 1;
    }
    assert ss[..i] == ss;
    if required != h.requiredCount {
      return false;
    }
    var digest := ComputeTargetSetDigest(TargetDomain(h.binding), ss);
    ok := digest == Some(h.targetSetSha);
  }

  class Repository {
    const authority: Authority
    var outboxes: seq<Outbox>
    var log: seq<Attempt>

    function Contents(): Store
      reads this
    {
      Store(outboxes, log)
    }

    constructor (a: Authority)
      ensures Contents() == Store([], []) && authority == a
    {
      authority := a;
      outboxes, log := [], [];
    }

    method Rollback(to: Store)
      modifies this
      ensures Contents() == to
    {
      outboxes, log := to.outboxes, to.log;
    }

    method Claim(owner: Owner, now: nat) returns (r: Result<Option<Lease>, OperationError>)
      modifies this`outboxes
      ensures Contents() == StoreAfter(old(Contents()), ClaimNext(old(Contents()), authority, owner, now))
      ensures r == ValueOf(ClaimNext(old(Contents()), authority, owner, now))
    {
      hide DecodesRow, TargetsRead, Authorized;
      var picked := OldestClaimable(Contents(), now, |outboxes|);
      if picked.None? {
        return Ok(None);
      }
      var i := picked.value;
      var o := outboxes[i];
      if !DecodesRow(o.row) || !Authorized(o.row.head, authority) || !TargetsRead(o) {
        return Err(Invariant);
      }
      var expires := now + o.row.head.policy.deadlineMs;
      if expires > MAX_I64 {
        return Err(InvalidInput);
      }
      if o.row.updatedAt > now {
        return Err(LeaseLost);
      }
      outboxes := outboxes[i := o.(row := ClaimRow(o.row, owner, now, expires))];
      r := Ok(Some(Lease(outboxes[i].row, owner, expires)));
    }

    method Prepare(lease: Lease, at: nat) returns (r: Result<Prepared, OperationError>)
      modifies this`outboxes
      ensures Contents() == StoreAfter(old(Contents()), PrepareNext(old(Contents()), lease, at))
      ensures r == ValueOf(PrepareNext(old(Contents()), lease, at))
    {
      hide DecodesRow, TargetsRead, DecodesTargets;
      var before := Contents();
      var refused := LeaseError(before, lease, at);
      if refused.Some? {
        return Err(refused.value);
      }
      var h := lease.row.head;
      var i := ReadRow(before, h.id, LeaseLost).value;
      if !TargetsRead(outboxes[i]) {
        return Err(Invariant);
      }
      var due := FindDue(outboxes[i].targets, h.policy.maxAttempts, at);
      if due.None? {
        return Err(NotReady);
      }
      var k := due.value;
      var t := outboxes[i].targets[k];
      var id := Id(h, t.ordinal, t.attemptCount + 1);
      if t.updatedAt > at {
        return Err(LeaseLost);
      }
      var submitted := SubmitTarget(t, id, at);
      outboxes := outboxes[i := outboxes[i].(targets := outboxes[i].targets[k := submitted])];
      if !DecodesTargets(outboxes[i].targets) || Sha256(h.exactBytes) != h.eventSha {
        outboxes := before.outboxes;
        return Err(Invariant);
      }
      r := Ok(PreparedAttempt(lease, submitted, id, at, lease.expiresAt, h.exactBytes));
    }

    method Record(lease: Lease, input: RecordInput) returns (r: Result<AttemptCommit, OperationError>)
      modifies this
      ensures Contents() == StoreAfter(old(Contents()), RecordOutcome(old(Contents()), lease, input))
      ensures r == ValueOf(RecordOutcome(old(Contents()), lease, input))
    {
      hide DecodesRow, TargetsRead, DecodesTargets, OutcomeSchedule, Disposition, ReconcileRecorded;
      var before := Contents();
      var existing := FindAttempt(log, input.id);
      if existing.Some? {
        r := ValueOf(ReconcileRecorded(before, lease, input, existing.value));
        ReconcileWritesNothing(before, lease, input, existing.value);
        return;
      }
      var refused := LeaseError(before, lease, input.finishedAt);
      if refused.Some? {
        return Err(refused.value);
      }
      var i := ReadRow(before, lease.row.head.id, LeaseLost).value;
      var o := outboxes[i];
      var found := FindOrdinal(o.targets, input.ordinal);
      if !DecodesTargets(o.targets) || found.None? {
        return Err(Invariant);
      }
      var k := found.value;
      if !OpenAttempt(o.targets[k], input) {
        return Err(LeaseLost);
      }
      if !AttemptInsertable(log, AttemptFrom(input)) {
        return Err(Storage);
      }
      log := log + [AttemptFrom(input)];
      var sched := OutcomeSchedule(lease.row.head.policy, input);
      if sched.Err? {
        Rollback(before);
        return Err(sched.error);
      }
      var closed := CloseTarget(o.targets[k], sched.value, input.finishedAt);
      outboxes := outboxes[i := o.(targets := o.targets[k := closed])];
      var d := Disposition(lease.row.head, outboxes[i].targets);
      if d.Err? {
        Rollback(before);
        return Err(d.error);
      }
      if o.row.updatedAt > input.finishedAt {
        Rollback(before);
        return Err(LeaseLost);
      }
      outboxes := outboxes[i := outboxes[i].(row := ReleaseRow(o.row, d.value, input.finishedAt))];
      r := Ok(CommitValue(input, sched.value.state, d.value.state));
    }

    method Recover(c: Candidate, now: nat, delay: nat) returns (r: Result<bool, OperationError>)
      modifies this
      ensures Contents() == StoreAfter(old(Contents()), RecoverExpired(old(Contents()), c, now, delay))
      ensures r == ValueOf(RecoverExpired(old(Contents()), c, now, delay))
    {
      hide DecodesRow, TargetsRead, OutcomeSchedule, Disposition, AttemptInsertable;
      var before := Contents();
      var read := ReadRow(before, c.row.head.id, LeaseLost);
      if read.Err? {
        return Err(read.error);
      }
      var i := read.value;
      var o := outboxes[i];
      if o.row != c.row || !Expired(o, now) {
        return Err(LeaseLost);
      }
      if o.row.leaseOwner.None? || !TargetsRead(o) {
        return Err(Invariant);
      }
      var owner, expires := o.row.leaseOwner.value, o.row.leaseExpires.value;
      var k := 0;
      while k < |o.targets|
        invariant 0 <= k <= |o.targets| && i < |outboxes| && |outboxes[i].targets| == |o.targets|
        invariant outboxes == before.outboxes[i := o.(targets := outboxes[i].targets)]
        invariant forall j :: k <= j < |o.targets| ==> outboxes[i].targets[j] == o.targets[j]
        invariant CloseWithEvidence(o, owner, expires, o.targets, before.log, 0, now, delay)
                  == CloseWithEvidence(o, owner, expires, outboxes[i].targets, log, k, now, delay)
      {
        var t := o.targets[k];
        if t.state.Submitted? {
          if !EvidenceOk(o.row.head, t, now) || FindAttempt(log, t.lastAttempt.value).Some? {
            Rollback(before);
            return Err(Invariant);
          }
          var input := UnknownInput(o, t, t.lastAttempt.value, owner, expires, now, delay);
          if !AttemptInsertable(log, AttemptFrom(input)) {
            Rollback(before);
            return Err(Storage);
          }
          var sched := OutcomeSchedule(o.row.head.policy, input);
          if sched.Err? {
            Rollback(before);
            return Err(sched.error);
          }
          log := log + [AttemptFrom(input)];
          var closed := CloseTarget(t, sched.value, now);
          outboxes := outboxes[i := outboxes[i].(targets := outboxes[i].targets[k := closed])];
        }
        k := k + 1;
      }
      var d := Disposition(o.row.head, outboxes[i].targets);
      if d.Err? {
        Rollback(before);
        return Err(d.error);
      }
      if o.row.updatedAt > now {
        Rollback(before);
        return Err(LeaseLost);
      }
      outboxes := outboxes[i := outboxes[i].(row := ReleaseRow(o.row, d.value, now))];
      r := Ok(true);
    }
  }

  lemma ReconcileWritesNothing(s: Store, lease: Lease, input: RecordInput, existing: Attempt)
    ensures StoreAfter(s, ReconcileRecorded(s, lease, input, existing)) == s
  {
    hide DecodesRow, TargetsRead, OutcomeSchedule, Disposition, FindOrdinal;
  }
}
