/**
 * What the delivery rules mean, column by column: the state and schedule an outcome gives
 * its target, and the state and schedule a set of targets gives its outbox.  These
 * definitions do not refer to the functions that compute them.
 */
module DeliveryEffects {
  import opened Prelude
  import opened Encoding
  import opened Backoff
  import opened Delivery

  /** A closed target carries the name of its outcome. */
  predicate NamedFor(outcome: Outcome, state: TargetState)
  {
    && (outcome.Accepted? <==> state.Accepted?) && (outcome.Rejected? <==> state.Rejected?)
    && (outcome.RateLimited? <==> state.RateLimited?) && (outcome.AuthRequired? <==> state.AuthRequired?)
    && (outcome.Failed? <==> state.Failed?) && (outcome.Unknown? <==> state.Unknown?)
    && !state.Pending? && !state.Submitted?
  }

  /** The target after attempt `n` ended: retried after the delay below the maximum, otherwise unscheduled. */
  predicate ClosedBy(t: Target, t': Target, outcome: Outcome, n: nat, maxAttempts: nat, finishedAt: nat, delay: nat)
  {
    && NamedFor(outcome, t'.state)
    && t'.nextAttempt == (if (outcome.RateLimited? || outcome.Failed? || outcome.Unknown?) && n < maxAttempts
                          then Some(finishedAt + delay) else None)
    && t' == t.(state := t'.state, revision := t.revision + 1, nextAttempt := t'.nextAttempt, updatedAt := finishedAt)
  }

  /** The target can make no further attempt and was not accepted. */
  predicate Stuck(t: Target, maxAttempts: nat)
  {
    || t.state.Rejected? || t.state.AuthRequired?
    || ((t.state.Pending? || t.state.Failed? || t.state.RateLimited? || t.state.Unknown?)
        && t.attemptCount >= maxAttempts && t.nextAttempt.None?)
  }

  predicate RequiredAccepted(ts: seq<Target>)
  {
    forall i :: 0 <= i < |ts| && ts[i].required ==> ts[i].state.Accepted?
  }

  predicate RequiredStuck(ts: seq<Target>, maxAttempts: nat)
  {
    exists i :: 0 <= i < |ts| && ts[i].required && Stuck(ts[i], maxAttempts)
  }

  /** The earliest schedule of a required target. */
  predicate EarliestIs(ts: seq<Target>, at: nat)
  {
    && (exists i :: 0 <= i < |ts| && ts[i].required && ts[i].nextAttempt == Some(at))
    && (forall i :: 0 <= i < |ts| && ts[i].required && ts[i].nextAttempt.Some? ==> at <= ts[i].nextAttempt.value)
  }

  /** Complete, Blocked or Pending at the earliest required schedule, as the required targets say. */
  predicate Follows(state: OutboxState, next: Option<nat>, ts: seq<Target>, maxAttempts: nat)
  {
    && (state.Complete? <==> RequiredAccepted(ts))
    && (state.Blocked? <==> RequiredStuck(ts, maxAttempts))
    && (state.Pending? <==> !RequiredAccepted(ts) && !RequiredStuck(ts, maxAttempts))
    && (if state.Pending? then next.Some? && EarliestIs(ts, next.value) else next.None?)
  }

  /** The row after its lease ended; the state and schedule are stated apart. */
  predicate Released(r: Row, r': Row, at: nat)
  {
    r' == r.(state := r'.state, revision := r.revision + 1, nextAttempt := r'.nextAttempt, leaseOwner := None,
             leaseExpires := None, updatedAt := at)
  }

  predicate OnlyTarget(ts: seq<Target>, ts': seq<Target>, k: nat)
  {
    k < |ts| == |ts'| && forall m :: 0 <= m < |ts| && m != k ==> ts'[m] == ts[m]
  }

  predicate OnlyOutbox(os: seq<Outbox>, os': seq<Outbox>, i: nat)
  {
    i < |os| == |os'| && forall j :: 0 <= j < |os| && j != i ==> os'[j] == os[j]
  }

  lemma ScheduleCloses(p: Policy, input: RecordInput, t: Target)
    requires OutcomeSchedule(p, input).Ok?
    ensures ClosedBy(t, CloseTarget(t, OutcomeSchedule(p, input).value, input.finishedAt), input.outcome, input.number,
                     p.maxAttempts, input.finishedAt, input.retryDelay)
  {
  }

  lemma DispositionFollows(h: Head, ts: seq<Target>)
    requires Disposition(h, ts).Ok?
    ensures var d := Disposition(h, ts).value; Follows(d.state, d.nextAttempt, ts, h.policy.maxAttempts)
  {
    hide TargetsValid;
    forall i | 0 <= i < |ts| ensures Stuck(ts[i], h.policy.maxAttempts)
      <==> TargetIsBlocking(ts[i], h.policy.maxAttempts) {
    }
    StuckIsBlocking(ts, h.policy.maxAttempts);
    hide Stuck, TargetIsBlocking;
    assert RequiredAccepted(ts) <==> AllRequiredAccepted(ts);
  }

  lemma StuckIsBlocking(ts: seq<Target>, maxAttempts: nat)
    ensures RequiredStuck(ts, maxAttempts) <==> SomeRequiredBlocking(ts, maxAttempts)
    ensures RequiredAccepted(ts) ==> !RequiredStuck(ts, maxAttempts)
  {
    if RequiredStuck(ts, maxAttempts) {
      var i :| 0 <= i < |ts| && ts[i].required && Stuck(ts[i], maxAttempts);
      assert TargetIsBlocking(ts[i], maxAttempts);
    }
    if SomeRequiredBlocking(ts, maxAttempts) {
      var i :| 0 <= i < |ts| && ts[i].required && TargetIsBlocking(ts[i], maxAttempts);
      assert Stuck(ts[i], maxAttempts);
    }
  }

  /** Due: retryable, with an attempt left, and scheduled no later than now. */
  predicate Ready(t: Target, maxAttempts: nat, now: nat)
  {
    && (t.state.Pending? || t.state.Failed? || t.state.RateLimited? || t.state.Unknown?)
    && t.attemptCount < maxAttempts && t.nextAttempt.Some? && t.nextAttempt.value <= now
  }

  /** The first ready target became Submitted as its next attempt. */
  predicate SubmitsFirst(o: Outbox, o': Outbox, k: nat, at: nat)
  {
    var h := o.row.head;
    && o'.row == o.row && OnlyTarget(o.targets, o'.targets, k) && Ready(o.targets[k], h.policy.maxAttempts, at)
    && (forall m :: 0 <= m < k ==> !Ready(o.targets[m], h.policy.maxAttempts, at))
    && var t := o.targets[k];
       o'.targets[k] == t.(state := TargetState.Submitted, revision := t.revision + 1,
         attemptCount := t.attemptCount + 1,
                           nextAttempt := None, updatedAt := at,
                           lastAttempt := Some(AttemptId(h.id, h.eventSha, k, t.attemptCount + 1)))
  }

  lemma ReadyIsDue(t: Target, maxAttempts: nat, now: nat)
    ensures Ready(t, maxAttempts, now) <==> TargetIsDue(t, maxAttempts, now)
  {
  }

  lemma SubmitIsFirst(o: Outbox, k: nat, at: nat)
    requires k < |o.targets| && TargetIsDue(o.targets[k], o.row.head.policy.maxAttempts, at)
    requires forall m :: 0 <= m < k ==> !TargetIsDue(o.targets[m], o.row.head.policy.maxAttempts, at)
    ensures var t := o.targets[k];
            SubmitsFirst(o, o.(targets := o.targets[k := SubmitTarget(t, Id(o.row.head, k, t.attemptCount + 1), at)]),
              k, at)
  {
    forall m | 0 <= m <= k
      ensures Ready(o.targets[m], o.row.head.policy.maxAttempts, at)
              <==> TargetIsDue(o.targets[m], o.row.head.policy.maxAttempts, at)
    {
      ReadyIsDue(o.targets[m], o.row.head.policy.maxAttempts, at);
    }
    hide Ready, TargetIsDue;
  }

  /** No later in the order (instant, creation, kind, identity). */
  predicate NotAfter(instant: nat, created: nat, kind: nat, id: Bytes, instant': nat, created': nat, kind': nat,
                     id': Bytes)
  {
    || instant < instant'
    || (instant == instant' && (created < created' || (created == created' && (kind < kind' || (kind == kind'
        && !LexLess(id', id))))))
  }

  lemma NotLessIsNotAfter(a: Rank, b: Rank)
    requires !RankLess(b, a)
    ensures NotAfter(a.instant, a.createdAt, a.kind, a.id, b.instant, b.createdAt, b.kind, b.id)
  {
  }

  /** The outbox is leased exactly as the input says, unexpired, with exactly its attempt open. */
  predicate HeldOpen(o: Outbox, input: RecordInput)
  {
    && o.row.state.Leased? && o.row.revision == input.outboxRevision && o.row.head.eventSha == input.eventSha
    && o.row.leaseOwner == Some(input.owner) && o.row.leaseExpires == Some(input.leaseExpires)
    && o.row.updatedAt <= input.finishedAt < input.leaseExpires && input.startedAt <= input.finishedAt
    && input.ordinal < |o.targets|
    && var t := o.targets[input.ordinal];
       && t.state.Submitted? && t.revision == input.targetRevision && t.attemptCount == input.number
       && t.lastAttempt == Some(input.id) && t.updatedAt == input.startedAt
  }
}
