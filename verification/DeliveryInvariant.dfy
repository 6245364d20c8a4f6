/**
 * The per-outbox invariant of the delivery protocol and the proof that each
 * guarded update keeps it.
 *
 * The centre is `Fold`: a target's durable columns are computed from its rows
 * of the attempt log alone, so the log explains every retry and every state.
 */
module DeliveryInvariant {
  import opened Prelude
  import opened Digests
  import opened Backoff
  import opened Delivery
  import opened DeliveryEffects

  /** The log rows of one target, in insertion order. */
  function Rows(log: seq<Attempt>, id: OutboxId, k: nat): seq<Attempt>
  {
    if |log| == 0 then []
    else
      var rest := Rows(log[..|log| - 1], id, k);
      var last := log[|log| - 1];
      if last.id.outbox == id && last.id.ordinal == k then rest + [last] else rest
  }

  lemma RowsAppend(log: seq<Attempt>, a: Attempt, id: OutboxId, k: nat)
    ensures Rows(log + [a], id, k) ==
            if a.id.outbox == id && a.id.ordinal == k then Rows(log, id, k) + [a] else Rows(log, id, k)
  {
    assert (log + [a])[..|log|] == log;
  }

  lemma {:induction false} FoundInRows(log: seq<Attempt>, a: Attempt)
    requires a in log
    ensures a in Rows(log, a.id.outbox, a.id.ordinal)
  {
    var i := |log| - 1;
    if log[i] != a {
      assert a in log[..i];
      FoundInRows(log[..i], a);
    }
  }

  lemma {:induction false} RowsInLog(log: seq<Attempt>, id: OutboxId, k: nat)
    ensures forall a :: a in Rows(log, id, k) ==> a in log && a.id.outbox == id && a.id.ordinal == k
  {
    if |log| > 0 {
      RowsInLog(log[..|log| - 1], id, k);
    }
  }

  /** The columns of a target that its log determines. */
  datatype Progress = Progress(
    state: TargetState, revision: nat, attemptCount: nat, lastAttempt: Option<AttemptId>, updatedAt: nat)

  function ProgressOf(t: Target): Progress
  {
    Progress(t.state, t.revision, t.attemptCount, t.lastAttempt, t.updatedAt)
  }

  /** Replays a target's closed attempts from its insertion: one submit and one close per row. */
  function Fold(h: Head, rows: seq<Attempt>): (p: Progress)
    ensures p.attemptCount == |rows| && p.revision == 1 + 2 * |rows|
  {
    if |rows| == 0 then Progress(TargetState.Pending, 1, 0, None, h.createdAt)
    else
      var p := Fold(h, rows[..|rows| - 1]);
      var a := rows[|rows| - 1];
      Progress(StateFor(a.outcome), p.revision + 2, p.attemptCount + 1, Some(a.id), a.finishedAt)
  }

  /** Rows are numbered 1, 2, ...; only the last may be terminal; attempts do not overlap in time. */
  ghost predicate RowsOk(h: Head, k: nat, rows: seq<Attempt>)
  {
    && (forall j :: 0 <= j < |rows| ==> RowOk(h, k, rows[j], j + 1))
    && (forall i, j :: 0 <= i < j < |rows| ==> Precedes(rows[i], rows[j]))
  }

  /** The earlier attempt was not final and ended before the later one began. */
  predicate Precedes(a: Attempt, b: Attempt) { RetryableOutcome(a.outcome) && a.finishedAt <= b.startedAt }

  predicate RowOk(h: Head, k: nat, a: Attempt, n: nat)
  {
    && a.id == Id(h, k, n) && a.outboxId == h.id && a.ordinal == k && a.number == n
    && a.eventSha == h.eventSha && a.startedAt <= a.finishedAt && !a.outcome.Submitted?
  }

  /** The retry instant lies in the admissible window after the last finish, when one is due. */
  predicate NextOk(h: Head, t: Target, rows: seq<Attempt>)
  {
    if |rows| == 0 then t.nextAttempt == Some(h.createdAt)
    else
      var a := rows[|rows| - 1];
      if RetryableOutcome(a.outcome) && |rows| < h.policy.maxAttempts then
        && t.nextAttempt.Some?
        && a.finishedAt <= t.nextAttempt.value <= a.finishedAt + RetryUpperBound(h.policy, |rows|)
      else t.nextAttempt.None?
  }

  /** A target is the fold of its rows, plus one open attempt while it is Submitted. */
  ghost predicate TargetInv(h: Head, t: Target, k: nat, rows: seq<Attempt>)
  {
    && RowsOk(h, k, rows)
    && t.attemptCount <= h.policy.maxAttempts
    && if t.state.Submitted? then
         var p := Fold(h, rows);
         && RetryableState(p.state)
         && t.revision == p.revision + 1
         && t.attemptCount == p.attemptCount + 1
         && t.lastAttempt == Some(Id(h, k, t.attemptCount))
         && p.updatedAt <= t.updatedAt
         && t.nextAttempt.None?
       else ProgressOf(t) == Fold(h, rows) && NextOk(h, t, rows)
  }

  ghost predicate TargetsInv(o: Outbox, log: seq<Attempt>)
  {
    forall k :: 0 <= k < |o.targets| ==> TargetInv(o.row.head, o.targets[k], k, Rows(log, o.row.head.id, k))
  }

  /** At most one attempt is open, only under a lease, and it started before the lease expires. */
  ghost predicate SubmittedInv(o: Outbox)
  {
    && (forall i, j :: 0 <= i < j < |o.targets| && o.targets[i].state.Submitted? ==> !o.targets[j].state.Submitted?)
    && (forall i :: 0 <= i < |o.targets| && o.targets[i].state.Submitted? ==>
          && o.row.state.Leased? && o.row.leaseExpires.Some?
          && o.targets[i].updatedAt < o.row.leaseExpires.value)
  }

  /** Never leased: still at its first revision and schedule, with no attempt made. */
  predicate Untouched(o: Outbox)
  {
    && o.row.revision == 1 && o.row.state == OutboxState.Pending && o.row.nextAttempt == Some(o.row.head.createdAt)
    && (forall k :: 0 <= k < |o.targets| ==> o.targets[k].attemptCount == 0)
  }

  /** Outside a lease the outbox row is the disposition of its targets. */
  ghost predicate ScheduleInv(o: Outbox)
  {
    var r := o.row;
    if r.state.Leased? then r.leaseExpires.Some? && r.updatedAt < r.leaseExpires.value <= MAX_I64
    else r.state.Superseded?
         || (if r.head.requiredCount == 0 && r.revision == 1 then Untouched(o)
             else Disposition(r.head, o.targets) == Ok(Disposal(r.state, r.nextAttempt)))
  }

  ghost predicate OutboxInv(o: Outbox, log: seq<Attempt>)
  {
    && PolicyOk(o.row.head.policy)
    && TargetsValid(o.row.head, o.targets)
    && o.row.revision >= 1 && o.row.head.createdAt <= o.row.updatedAt
    && RowShape(o.row)
    && TargetsInv(o, log)
    && SubmittedInv(o)
    && ScheduleInv(o)
  }

  predicate NoneSubmitted(ts: seq<Target>)
  {
    forall i :: 0 <= i < |ts| ==> !ts[i].state.Submitted?
  }

  // ------------------------------------------------------------------ helpers

  lemma SpecsKept(h: Head, ts: seq<Target>, i: nat, t: Target)
    requires TargetsValid(h, ts) && i < |ts| && t.Spec() == ts[i].Spec()
    ensures TargetsValid(h, ts[i := t])
  {
    assert Specs(ts[i := t]) == Specs(ts);
  }

  lemma {:induction false} NoRequired(ss: seq<TargetSpec>)
    ensures CountRequired(ss) == 0 <==> forall i :: 0 <= i < |ss| ==> !ss[i].required
  {
    if |ss| > 0 {
      NoRequired(ss[1..]);
      assert forall i :: 1 <= i < |ss| ==> ss[i] == ss[1..][i - 1];
    }
  }

  lemma {:induction false} CountBounded(ss: seq<TargetSpec>)
    ensures CountRequired(ss) <= |ss|
  {
    if |ss| > 0 {
      CountBounded(ss[1..]);
    }
  }

  /** A closed target has exactly the column shape the schema admits. */
  lemma ClosedShape(h: Head, t: Target, k: nat, rows: seq<Attempt>)
    requires TargetInv(h, t, k, rows) && PolicyOk(h.policy)
    ensures TargetShape(t, h.policy.maxAttempts)
    ensures |rows| == t.attemptCount - (if t.state.Submitted? then 1 else 0)
    ensures t.attemptCount == 0 <==> t.lastAttempt.None?
  {
    if |rows| > 0 {
      assert RowOk(h, k, rows[|rows| - 1], |rows|);
    }
  }

  /** With no open attempt the disposition is defined. */
  lemma DispositionDefined(o: Outbox, log: seq<Attempt>)
    requires PolicyOk(o.row.head.policy) && TargetsValid(o.row.head, o.targets)
    requires TargetsInv(o, log) && NoneSubmitted(o.targets)
    ensures Disposition(o.row.head, o.targets).Ok?
    ensures var d := Disposition(o.row.head, o.targets).value;
            !d.state.Leased? && !d.state.Superseded? && (d.state.Pending? <==> d.nextAttempt.Some?)
    ensures o.row.head.requiredCount == 0 ==> Disposition(o.row.head, o.targets).value.state.Complete?
    ensures var d := Disposition(o.row.head, o.targets).value;
            Follows(d.state, d.nextAttempt, o.targets, o.row.head.policy.maxAttempts)
  {
    hide TargetsValid, TargetInv, TargetIsBlocking;
    var h, ts := o.row.head, o.targets;
    RequiredTargets(h, ts);
    if !AllRequiredAccepted(ts) && !SomeRequiredBlocking(ts, h.policy.maxAttempts) {
      var i :| 0 <= i < |ts| && ts[i].required && !ts[i].state.Accepted?;
      assert TargetInv(h, ts[i], i, Rows(log, h.id, i));
      UnblockedIsScheduled(h, ts[i], i, Rows(log, h.id, i));
    }
    DispositionFollows(h, ts);
  }

  lemma RequiredTargets(h: Head, ts: seq<Target>)
    requires TargetsValid(h, ts)
    ensures h.requiredCount == 0 <==> forall i :: 0 <= i < |ts| ==> !ts[i].required
  {
    NoRequired(Specs(ts));
    hide TargetSetDigest;
    assert forall i :: 0 <= i < |ts| ==> Specs(ts)[i].required == ts[i].required;
  }

  /** A closed target that is neither accepted nor blocking has a retry scheduled. */
  lemma UnblockedIsScheduled(h: Head, t: Target, k: nat, rows: seq<Attempt>)
    requires TargetInv(h, t, k, rows) && PolicyOk(h.policy)
    requires !t.state.Submitted? && !t.state.Accepted? && !TargetIsBlocking(t, h.policy.maxAttempts)
    ensures t.nextAttempt.Some?
  {
    ClosedShape(h, t, k, rows);
    hide TargetInv;
  }

  lemma {:induction false} RowsOfOthers(log: seq<Attempt>, extra: seq<Attempt>, id: OutboxId, k: nat)
    requires forall i :: 0 <= i < |extra| ==> extra[i].id.outbox != id || extra[i].id.ordinal != k
    ensures Rows(log + extra, id, k) == Rows(log, id, k)
  {
    if |extra| == 0 {
      assert log + extra == log;
    } else {
      var m := |extra| - 1;
      RowsOfOthers(log, extra[..m], id, k);
      assert log + extra == (log + extra[..m]) + [extra[m]];
      RowsAppend(log + extra[..m], extra[m], id, k);
    }
  }

  /** Log rows of other outboxes do not matter to an outbox. */
  lemma OutboxInvFrame(o: Outbox, log: seq<Attempt>, extra: seq<Attempt>)
    requires OutboxInv(o, log)
    requires forall i :: 0 <= i < |extra| ==> extra[i].id.outbox != o.row.head.id
    ensures OutboxInv(o, log + extra)
  {
    forall k | 0 <= k < |o.targets|
      ensures TargetInv(o.row.head, o.targets[k], k, Rows(log + extra, o.row.head.id, k))
    {
      RowsOfOthers(log, extra, o.row.head.id, k);
    }
  }

  /**
   * The log explains target `k`: its rows are numbered 1, 2, ... with one fewer than the attempt
   * count while an attempt is open, only the last can be final, attempts never overlap, and the
   * columns are the replay of those rows.
   */
  ghost predicate Explained(o: Outbox, log: seq<Attempt>, k: nat)
    requires k < |o.targets|
  {
    var t, rows := o.targets[k], Rows(log, o.row.head.id, k);
    && |rows| + (if t.state.Submitted? then 1 else 0) == t.attemptCount <= o.row.head.policy.maxAttempts <= 100
    && (forall j :: 0 <= j < |rows| ==> rows[j].number == j + 1 && rows[j].id == Id(o.row.head, k, j + 1))
    && (forall j :: 0 <= j < |rows| ==> rows[j].startedAt <= rows[j].finishedAt)
    && (forall i, j :: 0 <= i < j < |rows| ==> Precedes(rows[i], rows[j]))
    && (if t.state.Submitted?
        then RetryableState(Fold(o.row.head, rows).state) && t.lastAttempt == Some(Id(o.row.head, k, |rows| + 1))
        else ProgressOf(t) == Fold(o.row.head, rows))
  }

  lemma LogExplains(o: Outbox, log: seq<Attempt>, k: nat)
    requires OutboxInv(o, log) && k < |o.targets|
    ensures Explained(o, log, k)
  {
    hide OutboxInv, Rows;
    var h, t, rows := o.row.head, o.targets[k], Rows(log, o.row.head.id, k);
    TargetAt(o, log, k);
    ClosedShape(h, t, k, rows);
    RowsNumbered(h, k, rows);
    hide RowsOk, NextOk;
  }

  lemma TargetAt(o: Outbox, log: seq<Attempt>, k: nat)
    requires OutboxInv(o, log) && k < |o.targets|
    ensures TargetInv(o.row.head, o.targets[k], k, Rows(log, o.row.head.id, k)) && PolicyOk(o.row.head.policy)
  {
    hide TargetInv, TargetsValid, SubmittedInv, ScheduleInv, RowShape;
  }

  lemma RowsNumbered(h: Head, k: nat, rows: seq<Attempt>)
    requires RowsOk(h, k, rows)
    ensures forall j :: 0 <= j < |rows| ==> rows[j].number == j + 1 && rows[j].id == Id(h, k, j + 1)
    ensures forall j :: 0 <= j < |rows| ==> rows[j].startedAt <= rows[j].finishedAt
    ensures forall i, j :: 0 <= i < j < |rows| ==> Precedes(rows[i], rows[j])
  {
    hide Precedes;
    assert forall j :: 0 <= j < |rows| ==> RowOk(h, k, rows[j], j + 1);
  }

  // ------------------------------------------------------------------ the steps

  function FreshRow(h: Head): Row { Row(h, OutboxState.Pending, 1, Some(h.createdAt), None, None, h.createdAt) }

  predicate FreshTargets(h: Head, specs: seq<TargetSpec>, ts: seq<Target>)
  {
    |ts| == |specs| && forall i :: 0 <= i < |ts| ==> ts[i] == InitialTarget(specs[i], h.createdAt)
  }

  lemma FreshDisposition(h: Head, ts: seq<Target>)
    requires TargetsValid(h, ts) && FreshTargets(h, Specs(ts), ts) && PolicyOk(h.policy)
    requires h.requiredCount != 0
    ensures Disposition(h, ts) == Ok(Disposal(OutboxState.Pending, Some(h.createdAt)))
  {
    hide TargetsValid;
    RequiredTargets(h, ts);
    var i :| 0 <= i < |ts| && ts[i].required;
    assert !ts[i].state.Accepted?;
    assert !SomeRequiredBlocking(ts, h.policy.maxAttempts);
  }

  lemma FreshTargetsInv(h: Head, ts: seq<Target>, log: seq<Attempt>)
    requires FreshTargets(h, Specs(ts), ts)
    requires forall i :: 0 <= i < |log| ==> log[i].id.outbox != h.id
    ensures TargetsInv(Outbox(FreshRow(h), ts), log)
  {
    forall k | 0 <= k < |ts| ensures TargetInv(h, ts[k], k, Rows(log, h.id, k)) {
      RowsOfOthers([], log, h.id, k);
      assert [] + log == log;
      assert Rows(log, h.id, k) == [];
    }
  }

  /** A freshly committed outbox satisfies the invariant. */
  lemma CommittedInv(h: Head, ts: seq<Target>, log: seq<Attempt>)
    requires PolicyOk(h.policy) && TargetsValid(h, ts) && FreshTargets(h, Specs(ts), ts)
    requires forall i :: 0 <= i < |log| ==> log[i].id.outbox != h.id
    ensures OutboxInv(Outbox(FreshRow(h), ts), log)
  {
    FreshTargetsInv(h, ts, log);
    if h.requiredCount != 0 {
      FreshDisposition(h, ts);
    }
  }

  lemma ClaimKeeps(o: Outbox, log: seq<Attempt>, owner: Owner, now: nat, expires: nat)
    requires OutboxInv(o, log) && o.row.state.Pending? && o.row.updatedAt <= now < expires <= MAX_I64
    ensures OutboxInv(o.(row := ClaimRow(o.row, owner, now, expires)), log)
    ensures NoneSubmitted(o.targets)
  {
  }

  /** A due target can always be submitted: its last update never lies after its schedule. */
  lemma DueIsReady(o: Outbox, log: seq<Attempt>, i: nat, now: nat)
    requires OutboxInv(o, log) && i < |o.targets|
    requires TargetIsDue(o.targets[i], o.row.head.policy.maxAttempts, now)
    ensures o.targets[i].updatedAt <= o.targets[i].nextAttempt.value <= now
  {
    assert TargetInv(o.row.head, o.targets[i], i, Rows(log, o.row.head.id, i));
  }

  lemma SubmitTargetInv(h: Head, t: Target, k: nat, rows: seq<Attempt>, at: nat)
    requires TargetInv(h, t, k, rows) && TargetIsDue(t, h.policy.maxAttempts, at)
    ensures TargetInv(h, SubmitTarget(t, Id(h, k, t.attemptCount + 1), at), k, rows)
  {
  }

  lemma PrepareKeeps(o: Outbox, log: seq<Attempt>, i: nat, at: nat)
    requires OutboxInv(o, log) && o.row.state.Leased? && NoneSubmitted(o.targets) && i < |o.targets|
    requires TargetIsDue(o.targets[i], o.row.head.policy.maxAttempts, at) && at < o.row.leaseExpires.value
    ensures var t := o.targets[i];
            OutboxInv(o.(targets := o.targets[i := SubmitTarget(t, Id(o.row.head, i, t.attemptCount + 1), at)]), log)
  {
    var h, t := o.row.head, o.targets[i];
    var t' := SubmitTarget(t, Id(h, i, t.attemptCount + 1), at);
    var o' := o.(targets := o.targets[i := t']);
    assert TargetsValid(h, o'.targets) by {
      SpecsKept(h, o.targets, i, t');
    }
    assert TargetsInv(o', log) by {
      SubmitTargetInv(h, t, i, Rows(log, h.id, i), at);
    }
    assert SubmittedInv(o') && ScheduleInv(o');
  }

  /** The open attempt of target `i` as its closing log row. */
  predicate Closes(o: Outbox, i: nat, input: RecordInput)
    requires i < |o.targets|
  {
    var h, t := o.row.head, o.targets[i];
    && t.state.Submitted?
    && input.outboxId == h.id && input.eventSha == h.eventSha
    && input.ordinal == i && input.number == t.attemptCount && t.lastAttempt == Some(input.id)
    && input.startedAt == t.updatedAt <= input.finishedAt
  }

  lemma CloseTargetInv(h: Head, t: Target, k: nat, rows: seq<Attempt>, input: RecordInput, s: Schedule)
    requires PolicyOk(h.policy) && TargetInv(h, t, k, rows) && t.state.Submitted?
    requires input.outboxId == h.id && input.eventSha == h.eventSha && input.ordinal == k
    requires input.number == t.attemptCount && t.lastAttempt == Some(input.id)
    requires input.startedAt == t.updatedAt <= input.finishedAt
    requires OutcomeSchedule(h.policy, input) == Ok(s)
    ensures TargetInv(h, CloseTarget(t, s, input.finishedAt), k, rows + [AttemptFrom(input)])
  {
    var a := AttemptFrom(input);
    var rows' := rows + [a];
    assert rows'[..|rows'| - 1] == rows;
    if |rows| > 0 {
      assert RowOk(h, k, rows[|rows| - 1], |rows|);
    }
    assert RowsOk(h, k, rows');
  }

  /** Closing the open attempt makes every target a fold of the longer log. */
  lemma CloseKeepsTargets(o: Outbox, log: seq<Attempt>, i: nat, input: RecordInput, s: Schedule)
    requires OutboxInv(o, log) && i < |o.targets| && Closes(o, i, input)
    requires OutcomeSchedule(o.row.head.policy, input) == Ok(s)
    ensures var o' := o.(targets := o.targets[i := CloseTarget(o.targets[i], s, input.finishedAt)]);
            && TargetsValid(o.row.head, o'.targets)
            && TargetsInv(o', log + [AttemptFrom(input)])
            && NoneSubmitted(o'.targets)
  {
    var h, t := o.row.head, o.targets[i];
    var t' := CloseTarget(t, s, input.finishedAt);
    SpecsKept(h, o.targets, i, t');
    CloseTargetInv(h, t, i, Rows(log, h.id, i), input, s);
    assert input.id == Id(h, i, t.attemptCount);
    forall k | 0 <= k < |o.targets|
      ensures TargetInv(h, o.targets[i := t'][k], k, Rows(log + [AttemptFrom(input)], h.id, k))
    {
      RowsAppend(log, AttemptFrom(input), h.id, k);
      assert TargetInv(h, o.targets[k], k, Rows(log, h.id, k));
    }
  }

  /** Ending the lease by the disposition, or by supersession, restores the invariant. */
  lemma ReleaseKeeps(o: Outbox, log: seq<Attempt>, d: Disposal, at: nat)
    requires PolicyOk(o.row.head.policy) && TargetsValid(o.row.head, o.targets) && TargetsInv(o, log)
    requires NoneSubmitted(o.targets) && o.row.head.createdAt <= at && o.row.revision >= 1
    requires d == Disposal(Superseded, None) || Disposition(o.row.head, o.targets) == Ok(d)
    ensures OutboxInv(o.(row := ReleaseRow(o.row, d, at)), log)
  {
    DispositionDefined(o, log);
  }

  /** Closing the open attempt and ending the lease, in one transaction. */
  lemma CloseKeeps(o: Outbox, log: seq<Attempt>, k: nat, input: RecordInput, s: Schedule, d: Disposal)
    requires OutboxInv(o, log) && k < |o.targets| && Closes(o, k, input)
    requires OutcomeSchedule(o.row.head.policy, input) == Ok(s) && o.row.head.createdAt <= input.finishedAt
    requires d == Disposal(Superseded, None)
             || Disposition(o.row.head, o.targets[k := CloseTarget(o.targets[k], s, input.finishedAt)]) == Ok(d)
    ensures var ts := o.targets[k := CloseTarget(o.targets[k], s, input.finishedAt)];
            && OutboxInv(Outbox(ReleaseRow(o.row, d, input.finishedAt), ts), log + [AttemptFrom(input)])
            && Disposition(o.row.head, ts).Ok?
    ensures !d.state.Leased?
  {
    var ts := o.targets[k := CloseTarget(o.targets[k], s, input.finishedAt)];
    CloseKeepsTargets(o, log, k, input, s);
    hide TargetsInv, TargetsValid, Disposition, ScheduleInv, OutcomeSchedule, Closes;
    var log' := log + [AttemptFrom(input)];
    DispositionDefined(o.(targets := ts), log');
    ReleaseKeeps(o.(targets := ts), log', d, input.finishedAt);
  }

  /** Ending a lease under which nothing is open. */
  lemma IdleReleaseKeeps(o: Outbox, log: seq<Attempt>, d: Disposal, at: nat)
    requires OutboxInv(o, log) && NoneSubmitted(o.targets) && o.row.head.createdAt <= at
    requires d == Disposal(Superseded, None) || Disposition(o.row.head, o.targets) == Ok(d)
    ensures OutboxInv(o.(row := ReleaseRow(o.row, d, at)), log)
    ensures Disposition(o.row.head, o.targets).Ok? && !d.state.Leased?
  {
    hide TargetsInv, TargetsValid, Disposition, ScheduleInv;
    DispositionDefined(o, log);
    ReleaseKeeps(o, log, d, at);
  }

  // ------------------------------------------------------------------ open attempts

  lemma Ordinals(o: Outbox)
    requires TargetsValid(o.row.head, o.targets)
    ensures forall k :: 0 <= k < |o.targets| ==> o.targets[k].ordinal == k
    ensures 1 <= |o.targets| <= MAX_TARGETS
  {
    assert |Specs(o.targets)| == |o.targets|;
    forall k | 0 <= k < |o.targets| ensures o.targets[k].ordinal == k {
      assert Specs(o.targets)[k].ordinal == k;
    }
  }

  lemma LeasedAfterCreation(o: Outbox, log: seq<Attempt>)
    requires OutboxInv(o, log)
    ensures o.row.head.createdAt <= o.row.updatedAt
    ensures o.row.state.Leased? ==> o.row.leaseOwner.Some? && o.row.leaseExpires.Some?
                                    && o.row.updatedAt < o.row.leaseExpires.value <= MAX_I64
  {
  }

  lemma OpenAttemptId(o: Outbox, log: seq<Attempt>, k: nat)
    requires OutboxInv(o, log) && k < |o.targets| && o.targets[k].state.Submitted?
    ensures o.targets[k].lastAttempt == Some(Id(o.row.head, k, o.targets[k].attemptCount))
    ensures 1 <= o.targets[k].attemptCount <= o.row.head.policy.maxAttempts
    ensures o.row.state.Leased? && o.row.leaseExpires.Some? && o.targets[k].updatedAt < o.row.leaseExpires.value
  {
    assert TargetInv(o.row.head, o.targets[k], k, Rows(log, o.row.head.id, k));
  }

  /** The single open attempt, if there is one. */
  function OpenIndex(ts: seq<Target>): (r: Option<nat>)
    ensures r.Some? ==> r.value < |ts| && ts[r.value].state.Submitted?
    ensures r.None? <==> NoneSubmitted(ts)
  {
    if |ts| == 0 then None
    else if ts[|ts| - 1].state.Submitted? then Some(|ts| - 1) else OpenIndex(ts[..|ts| - 1])
  }

  lemma OnlyOpen(o: Outbox, log: seq<Attempt>, k: nat)
    requires OutboxInv(o, log) && OpenIndex(o.targets) == Some(k)
    ensures forall j :: 0 <= j < |o.targets| && j != k ==> !o.targets[j].state.Submitted?
  {
  }

  lemma {:induction false} CloseNone(o: Outbox, owner: Owner, expires: nat, ts: seq<Target>, log: seq<Attempt>,
                                     i: nat, now: nat, delay: nat)
    requires i <= |ts| && forall k :: i <= k < |ts| ==> !ts[k].state.Submitted?
    ensures CloseSubmitted(o, owner, expires, ts, log, i, now, delay) == Ok(Closed(ts, log))
    decreases |ts| - i
  {
    if i < |ts| {
      CloseNone(o, owner, expires, ts, log, i + 1, now, delay);
    }
  }

  /** With one open attempt the recovery loop closes exactly that one. */
  lemma {:induction false} CloseOne(o: Outbox, owner: Owner, expires: nat, ts: seq<Target>, log: seq<Attempt>,
                                    i: nat, k: nat, now: nat, delay: nat)
    requires i <= k < |ts| && ts[k].state.Submitted? && ts[k].lastAttempt.Some?
    requires forall j :: i <= j < |ts| && j != k ==> !ts[j].state.Submitted?
    ensures var input := UnknownInput(o, ts[k], ts[k].lastAttempt.value, owner, expires, now, delay);
            CloseSubmitted(o, owner, expires, ts, log, i, now, delay) ==
            if FindAttempt(log, input.id).Some? then Err(Invariant)
            else if !AttemptInsertable(log, AttemptFrom(input)) then Err(Storage)
            else match OutcomeSchedule(o.row.head.policy, input)
              case Err(e) => Err(e)
              case Ok(sched) => Ok(Closed(ts[k := CloseTarget(ts[k], sched, now)], log + [AttemptFrom(input)]))
    decreases k - i
  {
    var input := UnknownInput(o, ts[k], ts[k].lastAttempt.value, owner, expires, now, delay);
    if i < k {
      CloseOne(o, owner, expires, ts, log, i + 1, k, now, delay);
    } else if OutcomeSchedule(o.row.head.policy, input).Ok? {
      var sched := OutcomeSchedule(o.row.head.policy, input).value;
      var closed := ts[k := CloseTarget(ts[k], sched, now)];
      CloseNone(o, owner, expires, closed, log + [AttemptFrom(input)], k + 1, now, delay);
    }
  }

  lemma IdleOutsideLease(o: Outbox, log: seq<Attempt>)
    requires OutboxInv(o, log)
    ensures !o.row.state.Leased? ==> NoneSubmitted(o.targets)
  {
  }

  lemma {:induction false} OneSubmitted(ts: seq<Target>)
    requires forall i, j :: 0 <= i < j < |ts| && ts[i].state.Submitted? ==> !ts[j].state.Submitted?
    ensures SubmittedAttempts(ts) == match OpenIndex(ts) case None => [] case Some(k) => [ts[k].attemptCount]
  {
    if |ts| > 0 {
      var rest := ts[..|ts| - 1];
      OneSubmitted(rest);
      if ts[|ts| - 1].state.Submitted? {
        assert forall i :: 0 <= i < |rest| ==> rest[i] == ts[i];
        assert NoneSubmitted(rest);
      }
    }
  }

  lemma SubmittedOnce(o: Outbox, log: seq<Attempt>)
    requires OutboxInv(o, log)
    ensures forall i, j :: 0 <= i < j < |o.targets| && o.targets[i].state.Submitted? ==> !o.targets[j].state.Submitted?
  {
  }

  /** The number of closed rows of a target that is not open. */
  lemma ClosedBefore(o: Outbox, log: seq<Attempt>, k: nat)
    requires OutboxInv(o, log) && k < |o.targets| && !o.targets[k].state.Submitted?
    ensures |Rows(log, Key(o), k)| == o.targets[k].attemptCount
  {
    assert TargetInv(o.row.head, o.targets[k], k, Rows(log, Key(o), k));
  }

  /** An open attempt is not in the log yet. */
  lemma {:induction false} OpenNotLogged(o: Outbox, log: seq<Attempt>, k: nat)
    requires OutboxInv(o, log) && k < |o.targets| && o.targets[k].state.Submitted? && o.targets[k].lastAttempt.Some?
    ensures FindAttempt(log, o.targets[k].lastAttempt.value).None?
  {
    var id := o.targets[k].lastAttempt.value;
    var rows := Rows(log, Key(o), k);
    OpenAttemptId(o, log, k);
    assert TargetInv(o.row.head, o.targets[k], k, rows);
    hide OutboxInv;
    forall a | a in log ensures a.id != id {
      if a.id.outbox == Key(o) && a.id.ordinal == k {
        FoundInRows(log, a);
        var j :| 0 <= j < |rows| && rows[j] == a;
        assert RowOk(o.row.head, k, rows[j], j + 1);
      }
    }
    assert forall j :: 0 <= j < |log| ==> log[j] in log;
  }

  lemma OrdinalFound(ts: seq<Target>, k: nat, i: nat)
    requires i <= k < |ts| && forall j :: 0 <= j < |ts| ==> ts[j].ordinal == j
    ensures FindOrdinal(ts, k, i) == Some(k)
    decreases k - i
  {
    if i < k {
      OrdinalFound(ts, k, i + 1);
    }
  }

  lemma OrdinalsOf(o: Outbox, log: seq<Attempt>)
    requires OutboxInv(o, log)
    ensures forall k :: 0 <= k < |o.targets| ==> o.targets[k].ordinal == k
  {
    Ordinals(o);
  }

  lemma ClosedDisposes(o: Outbox, log: seq<Attempt>, k: nat, input: RecordInput)
    requires OutboxInv(o, log) && k < |o.targets| && Closes(o, k, input)
    requires OutcomeSchedule(o.row.head.policy, input).Ok?
    ensures var sched := OutcomeSchedule(o.row.head.policy, input).value;
            Disposition(o.row.head, o.targets[k := CloseTarget(o.targets[k], sched, input.finishedAt)]).Ok?
  {
    var sched := OutcomeSchedule(o.row.head.policy, input).value;
    CloseKeepsTargets(o, log, k, input, sched);
    hide TargetsInv, TargetsValid, Disposition, OutcomeSchedule, Closes;
    DispositionDefined(o.(targets := o.targets[k := CloseTarget(o.targets[k], sched, input.finishedAt)]),
                       log + [AttemptFrom(input)]);
  }

  lemma IdleDisposes(o: Outbox, log: seq<Attempt>)
    requires OutboxInv(o, log) && NoneSubmitted(o.targets)
    ensures Disposition(o.row.head, o.targets).Ok?
  {
    DispositionDefined(o, log);
  }

  // ------------------------------------------------------------------ due work

  /** Target `k` is required, has attempts left and is scheduled for exactly this instant. */
  predicate RequiredDue(o: Outbox, k: nat, at: nat)
  {
    && k < |o.targets| && o.targets[k].required && o.targets[k].attemptCount < o.row.head.policy.maxAttempts
    && o.targets[k].nextAttempt == Some(at) && TargetIsDue(o.targets[k], o.row.head.policy.maxAttempts, at)
  }

  lemma PendingEarliest(r: Row, ts: seq<Target>)
    requires Disposition(r.head, ts) == Ok(Disposal(r.state, r.nextAttempt)) && r.state.Pending?
    ensures EarliestRequired(ts).Some? && r.nextAttempt == EarliestRequired(ts)
  {
  }

  /** The earliest required schedule belongs to a target that is due by then. */
  lemma EarliestIsDue(o: Outbox, log: seq<Attempt>)
    requires OutboxInv(o, log) && NoneSubmitted(o.targets) && EarliestRequired(o.targets).Some?
    ensures exists k :: RequiredDue(o, k, EarliestRequired(o.targets).value)
  {
    var e := EarliestRequired(o.targets);
    var k :| 0 <= k < |o.targets| && o.targets[k].required && o.targets[k].nextAttempt == e;
    ScheduledIsDue(o, log, k);
    assert RequiredDue(o, k, e.value);
  }

  lemma ScheduledIsDue(o: Outbox, log: seq<Attempt>, k: nat)
    requires OutboxInv(o, log) && k < |o.targets| && o.targets[k].nextAttempt.Some?
    ensures TargetIsDue(o.targets[k], o.row.head.policy.maxAttempts, o.targets[k].nextAttempt.value)
  {
    var rows := Rows(log, o.row.head.id, k);
    assert TargetInv(o.row.head, o.targets[k], k, rows);
    ClosedShape(o.row.head, o.targets[k], k, rows);
  }

  lemma DueIsFound(ts: seq<Target>, maxAttempts: nat, at: nat, k: nat)
    requires k < |ts| && TargetIsDue(ts[k], maxAttempts, at)
    ensures FindDue(ts, maxAttempts, at).Some?
  {
  }

  /** A Pending outbox whose schedule has come has a due target. */
  lemma PendingHasDue(o: Outbox, log: seq<Attempt>, at: nat)
    requires OutboxInv(o, log) && o.row.state.Pending? && o.row.nextAttempt.Some? && o.row.nextAttempt.value <= at
    ensures FindDue(o.targets, o.row.head.policy.maxAttempts, at).Some?
  {
    Ordinals(o);
    IdleOutsideLease(o, log);
    if Untouched(o) {
      hide Disposition, SubmittedInv;
      assert TargetInv(o.row.head, o.targets[0], 0, Rows(log, o.row.head.id, 0));
      ClosedShape(o.row.head, o.targets[0], 0, Rows(log, o.row.head.id, 0));
      DueIsFound(o.targets, o.row.head.policy.maxAttempts, at, 0);
    } else {
      hide TargetsInv, SubmittedInv, Untouched;
      PendingEarliest(o.row, o.targets);
      EarliestIsDue(o, log);
      var k :| RequiredDue(o, k, o.row.nextAttempt.value);
      DueIsFound(o.targets, o.row.head.policy.maxAttempts, at, k);
    }
  }

  lemma DueLater(ts: seq<Target>, maxAttempts: nat, now: nat, at: nat)
    requires FindDue(ts, maxAttempts, now).Some? && now <= at
    ensures FindDue(ts, maxAttempts, at).Some?
  {
    DueIsFound(ts, maxAttempts, at, FindDue(ts, maxAttempts, now).value);
  }

  lemma {:induction false} RowsSplit(a: seq<Attempt>, b: seq<Attempt>, id: OutboxId, k: nat)
    ensures Rows(a + b, id, k) == Rows(a, id, k) + Rows(b, id, k)
  {
    if |b| == 0 {
      assert a + b == a;
    } else {
      var m := |b| - 1;
      RowsSplit(a, b[..m], id, k);
      assert a + b == (a + b[..m]) + [b[m]];
      RowsAppend(a + b[..m], b[m], id, k);
    }
  }

  lemma RowsBetween(log: seq<Attempt>, a: nat, b: nat, id: OutboxId, k: nat)
    requires a <= |log| && b <= |log| && |Rows(log[..b], id, k)| == |Rows(log[..a], id, k)| + 1
    ensures a <= b && |Rows(log[a..b], id, k)| == 1
  {
    if b < a {
      assert log[..a] == log[..b] + log[b..a];
      RowsSplit(log[..b], log[b..a], id, k);
    } else {
      assert log[..b] == log[..a] + log[a..b];
      RowsSplit(log[..a], log[a..b], id, k);
    }
  }

  // ------------------------------------------------------------------ recorded outcomes

  lemma FoundOnce(log: seq<Attempt>, a: Attempt)
    requires a in log && forall i, j :: 0 <= i < j < |log| ==> log[i].id != log[j].id
    ensures FindAttempt(log, a.id) == Some(a)
  {
    var i :| 0 <= i < |log| && log[i] == a;
    var b := FindAttempt(log, a.id).value;
    var j :| 0 <= j < |log| && log[j] == b;
  }

  /** The outbox as its outcome transaction left it, and the value that transaction returned. */
  predicate Recorded(o: Outbox, input: RecordInput, value: AttemptCommit)
  {
    var k := FindOrdinal(o.targets, input.ordinal);
    var sched := OutcomeSchedule(o.row.head.policy, input);
    var d := Disposition(o.row.head, o.targets);
    && Key(o) == input.outboxId && o.row.revision == input.outboxRevision + 1 && o.row.updatedAt == input.finishedAt
    && o.row.head.eventSha == input.eventSha && o.row.leaseOwner.None? && o.row.leaseExpires.None?
    && k.Some? && sched.Ok? && d == Ok(Disposal(o.row.state, o.row.nextAttempt))
    && o.targets[k.value].revision == input.targetRevision + 1 && o.targets[k.value].attemptCount == input.number
    && o.targets[k.value].lastAttempt == Some(input.id) && o.targets[k.value].updatedAt == input.finishedAt
    && o.targets[k.value].state == sched.value.state && o.targets[k.value].nextAttempt == sched.value.nextAttempt
    && value == CommitValue(input, o.targets[k.value].state, o.row.state)
  }

  lemma OrdinalKept(ts: seq<Target>, ordinal: nat, k: nat, t: Target, i: nat)
    requires i <= k < |ts| && FindOrdinal(ts, ordinal, i) == Some(k) && t.ordinal == ordinal
    ensures FindOrdinal(ts[k := t], ordinal, i) == Some(k)
    decreases k - i
  {
    if i < k && ts[i].ordinal != ordinal {
      OrdinalKept(ts, ordinal, k, t, i + 1);
    }
  }

  lemma DispositionNotLeased(h: Head, ts: seq<Target>)
    ensures Disposition(h, ts).Ok? ==> !Disposition(h, ts).value.state.Leased?
  {
  }

  lemma DispositionValid(h: Head, ts: seq<Target>)
    ensures Disposition(h, ts).Ok? ==> TargetsValid(h, ts)
  {
    hide TargetsValid;
  }

  lemma RecordedKey(o: Outbox, input: RecordInput, value: AttemptCommit)
    requires Recorded(o, input, value)
    ensures Key(o) == input.outboxId
  {
  }

  // ------------------------------------------------------------------ how an outbox moves on

  /**
   * How one outbox may differ later: identity and target inventory fixed, revisions
   * growing with every row change, and nothing at all changing without a lease.
   */
  predicate Later(a: Outbox, b: Outbox)
  {
    && a.row.head == b.row.head && Specs(a.targets) == Specs(b.targets)
    && a.row.revision <= b.row.revision
    && (a.row.revision == b.row.revision ==> a.row == b.row && (!a.row.state.Leased? ==> a == b))
    && (forall k :: 0 <= k < |a.targets| && k < |b.targets| ==> a.targets[k].attemptCount <= b.targets[k].attemptCount)
  }

  lemma LaterSelf(outboxes: seq<Outbox>)
    ensures forall i :: 0 <= i < |outboxes| ==> Later(outboxes[i], outboxes[i])
  {
  }

  lemma SameHead(a: Outbox, b: Outbox)
    requires Later(a, b)
    ensures a.row.head == b.row.head && Key(a) == Key(b)
  {
  }

  /** A row snapshot that was current once, seen from the row as it is now. */
  predicate IssuedAgainst(a: Row, current: Row)
  {
    a.head == current.head && a.revision <= current.revision && (a.revision == current.revision ==> a == current)
  }

  lemma Unmoved(first: Outbox, now: Outbox, input: RecordInput, value: AttemptCommit)
    requires Recorded(first, input, value) && !first.row.state.Leased? && Later(first, now)
    ensures Key(now) == input.outboxId
    ensures now.row.revision == input.outboxRevision + 1 ==> now == first
  {
    hide OutcomeSchedule, Disposition, FindOrdinal;
  }

  // ------------------------------------------------------------------ the log as a table

  /** Every row belongs to a stored outbox, and no identity is logged twice. */
  predicate LogOk(outboxes: seq<Outbox>, log: seq<Attempt>)
  {
    && (forall i :: 0 <= i < |log| ==> Find(outboxes, log[i].id.outbox).Some?)
    && (forall i, j :: 0 <= i < j < |log| ==> log[i].id != log[j].id)
  }

  lemma FindReplaced(outboxes: seq<Outbox>, i: nat, o': Outbox)
    requires i < |outboxes| && Key(outboxes[i]) == Key(o')
    ensures forall id :: Find(outboxes, id).Some? ==> Find(outboxes[i := o'], id).Some?
  {
    forall id | Find(outboxes, id).Some? ensures Find(outboxes[i := o'], id).Some? {
      var j := Find(outboxes, id).value;
      assert Key(outboxes[i := o'][j]) == id;
    }
  }

  lemma ReplaceLog(outboxes: seq<Outbox>, log: seq<Attempt>, i: nat, o': Outbox, extra: seq<Attempt>)
    requires LogOk(outboxes, log) && i < |outboxes| && Key(outboxes[i]) == Key(o')
    requires forall j :: 0 <= j < |extra| ==> extra[j].id.outbox == Key(o')
    requires |extra| == 0 || (|extra| == 1 && FindAttempt(log, extra[0].id).None?)
    ensures LogOk(outboxes[i := o'], log + extra)
  {
    hide Find, FindAttempt;
    FindReplaced(outboxes, i, o');
    var after, both := outboxes[i := o'], log + extra;
    assert after[i] == o';
    forall j | 0 <= j < |both| ensures Find(after, both[j].id.outbox).Some? {
      if j < |log| {
        assert both[j] == log[j];
      } else {
        assert both[j] == extra[j - |log|];
      }
    }
    forall j, k | 0 <= j < k < |both| ensures both[j].id != both[k].id {
      assert both[j] == log[j];
      if k < |log| {
        assert both[k] == log[k];
      } else {
        assert both[k] == extra[0];
      }
    }
  }

  // ------------------------------------------------------------------ the attempt budget

  /** Attempts the first `n` targets of an outbox may still make. */
  function Remaining(ts: seq<Target>, maxAttempts: nat, n: nat): nat
    requires n <= |ts|
  {
    if n == 0 then 0
    else Remaining(ts, maxAttempts, n - 1)
         + if ts[n - 1].attemptCount < maxAttempts then maxAttempts - ts[n - 1].attemptCount else 0
  }

  function Budget(o: Outbox): nat { Remaining(o.targets, o.row.head.policy.maxAttempts, |o.targets|) }

  /** Submitting a due target spends exactly one attempt. */
  lemma {:induction false} SubmitSpends(ts: seq<Target>, maxAttempts: nat, k: nat, id: AttemptId, at: nat, n: nat)
    requires k < |ts| && n <= |ts| && ts[k].attemptCount < maxAttempts
    ensures Remaining(ts, maxAttempts, n) ==
            Remaining(ts[k := SubmitTarget(ts[k], id, at)], maxAttempts, n) + if k < n then 1 else 0
  {
    if n > 0 {
      SubmitSpends(ts, maxAttempts, k, id, at, n - 1);
    }
  }

  lemma {:induction false} RemainingShrinks(ts: seq<Target>, us: seq<Target>, maxAttempts: nat, n: nat)
    requires n <= |ts| == |us| && forall k :: 0 <= k < |ts| ==> ts[k].attemptCount <= us[k].attemptCount
    ensures Remaining(us, maxAttempts, n) <= Remaining(ts, maxAttempts, n) <= n * maxAttempts
  {
    if n > 0 {
      RemainingShrinks(ts, us, maxAttempts, n - 1);
      assert n * maxAttempts == (n - 1) * maxAttempts + maxAttempts;
    }
  }

  /** No transaction gives attempts back. */
  lemma BudgetShrinks(a: Outbox, b: Outbox)
    requires Later(a, b)
    ensures Budget(b) <= Budget(a) <= |a.targets| * a.row.head.policy.maxAttempts
  {
    assert |a.targets| == |Specs(a.targets)| == |b.targets|;
    RemainingShrinks(a.targets, b.targets, a.row.head.policy.maxAttempts, |a.targets|);
  }

  /** Attempts used by the first `n` targets. */
  function AttemptsUsed(ts: seq<Target>, n: nat): nat
    requires n <= |ts|
  {
    if n == 0 then 0 else AttemptsUsed(ts, n - 1) + ts[n - 1].attemptCount
  }

  lemma {:induction false} UsedAndRemaining(ts: seq<Target>, maxAttempts: nat, n: nat)
    requires n <= |ts| && forall k :: 0 <= k < |ts| ==> ts[k].attemptCount <= maxAttempts
    ensures AttemptsUsed(ts, n) + Remaining(ts, maxAttempts, n) == n * maxAttempts
  {
    if n > 0 {
      UsedAndRemaining(ts, maxAttempts, n - 1);
      assert n * maxAttempts == (n - 1) * maxAttempts + maxAttempts;
    }
  }

  lemma CountsBounded(o: Outbox, log: seq<Attempt>)
    requires OutboxInv(o, log)
    ensures forall k :: 0 <= k < |o.targets| ==> o.targets[k].attemptCount <= o.row.head.policy.maxAttempts
  {
    forall k | 0 <= k < |o.targets| ensures o.targets[k].attemptCount <= o.row.head.policy.maxAttempts {
      TargetAt(o, log, k);
    }
  }

  predicate DistinctKeys(outboxes: seq<Outbox>)
  {
    forall i, j :: 0 <= i < j < |outboxes| ==> Key(outboxes[i]) != Key(outboxes[j])
  }

  lemma KeyIndex(outboxes: seq<Outbox>, i: nat, j: nat)
    requires DistinctKeys(outboxes) && i < |outboxes| && j < |outboxes|
    ensures Key(outboxes[i]) == Key(outboxes[j]) <==> i == j
  {
    assert i < j || j < i || i == j;
  }

  // ------------------------------------------------------------------ rows follow their targets

  /** Outside a lease the row says what its targets say, once it has been leased or something is required. */
  lemma RowSays(o: Outbox, log: seq<Attempt>)
    requires OutboxInv(o, log) && !o.row.state.Leased? && !o.row.state.Superseded?
    ensures if o.row.head.requiredCount == 0 && o.row.revision == 1
            then o.row.state.Pending? && o.row.nextAttempt == Some(o.row.head.createdAt)
            else Follows(o.row.state, o.row.nextAttempt, o.targets, o.row.head.policy.maxAttempts)
  {
    hide Disposition, Follows, TargetsInv, TargetsValid, SubmittedInv;
    if o.row.head.requiredCount != 0 || o.row.revision != 1 {
      DispositionFollows(o.row.head, o.targets);
    }
  }
}
