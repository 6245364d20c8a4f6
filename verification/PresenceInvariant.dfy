/**
 * The store-wide invariant of the presence workflow: every transaction keeps
 * it, and every transaction moves the store forward in one order.
 */
module PresenceInvariant {
  import opened Prelude
  import opened Backoff
  import opened Delivery
  import opened DeliveryInvariant
  import opened Presence

  function Kind(o: Outbox): DocumentKind
  {
    if o.row.head.binding.PresenceBinding? then o.row.head.binding.kind else ServiceProfile
  }

  function AuthoredAt(o: Outbox): nat
  {
    if o.row.head.binding.PresenceBinding? then o.row.head.binding.authoredAt else 0
  }

  ghost predicate OutboxOk(v: Verifier, o: Outbox, log: seq<Attempt>)
  {
    OutboxInv(o, log) && HeadOk(v, o.row.head) && RelaysOk(o.targets)
  }

  /** One outbox per generation and kind, and newer generations are authored later. */
  predicate PairOk(a: Outbox, b: Outbox)
  {
    && Key(a) != Key(b)
    && (Generation(a) == Generation(b) ==> Kind(a) != Kind(b))
    && (Kind(a) == Kind(b) && Generation(a) < Generation(b) ==> AuthoredAt(a) < AuthoredAt(b))
    && (Kind(a) == Kind(b) && Generation(b) < Generation(a) ==> AuthoredAt(b) < AuthoredAt(a))
    // A lease survives only on the newest committed generation.
    && (a.row.state.Leased? ==> Generation(b) <= Generation(a))
    && (b.row.state.Leased? ==> Generation(a) <= Generation(b))
  }

  /** An outbox never outruns the desired generation, and the current one is bound to it. */
  predicate DesiredOk(d: Desired, o: Outbox)
  {
    Generation(o) <= d.generation && (Generation(o) == d.generation ==> DesiredMatches(d, o))
  }

  ghost predicate AllOk(v: Verifier, outboxes: seq<Outbox>, log: seq<Attempt>)
  {
    forall i :: 0 <= i < |outboxes| ==> OutboxOk(v, outboxes[i], log)
  }

  predicate AllPairs(outboxes: seq<Outbox>)
  {
    forall i, j :: 0 <= i < j < |outboxes| ==> PairOk(outboxes[i], outboxes[j])
  }

  predicate AllDesired(desired: Option<Desired>, outboxes: seq<Outbox>)
  {
    && (desired.Some? ==> DesiredRowOk(desired.value))
    && (desired.None? ==> outboxes == [])
    && (forall i :: 0 <= i < |outboxes| ==> desired.Some? && DesiredOk(desired.value, outboxes[i]))
  }

  ghost predicate StoreInv(v: Verifier, s: Store)
  {
    && AllOk(v, s.outboxes, s.log)
    && AllPairs(s.outboxes)
    && AllDesired(s.desired, s.outboxes)
    && LogOk(s.outboxes, s.log)
  }

  function DesiredGeneration(s: Store): nat { if s.desired.Some? then s.desired.value.generation else 0 }

  predicate HasGeneration(outboxes: seq<Outbox>, g: nat)
  {
    exists i :: 0 <= i < |outboxes| && Generation(outboxes[i]) == g
  }

  /** The forward order of stores. */
  predicate Evolves(s: Store, s': Store)
  {
    && s.log <= s'.log
    && |s.outboxes| <= |s'.outboxes|
    && (forall i :: 0 <= i < |s.outboxes| ==> Later(s.outboxes[i], s'.outboxes[i]))
    && DesiredGeneration(s) <= DesiredGeneration(s')
    && (DesiredGeneration(s) == DesiredGeneration(s') ==> s.desired == s'.desired)
    && (forall i :: |s.outboxes| <= i < |s'.outboxes| ==>
          DesiredGeneration(s) <= Generation(s'.outboxes[i]) && !HasGeneration(s.outboxes, Generation(s'.outboxes[i])))
  }

  lemma EvolvesTransitive(a: Store, b: Store, c: Store)
    requires Evolves(a, b) && Evolves(b, c)
    ensures Evolves(a, c)
  {
    forall i | 0 <= i < |a.outboxes| ensures Later(a.outboxes[i], c.outboxes[i]) {
      assert Later(a.outboxes[i], b.outboxes[i]) && Later(b.outboxes[i], c.outboxes[i]);
      assert |a.outboxes[i].targets| == |Specs(a.outboxes[i].targets)| == |b.outboxes[i].targets|;
    }
    forall i | |a.outboxes| <= i < |c.outboxes|
      ensures DesiredGeneration(a) <= Generation(c.outboxes[i]) && !HasGeneration(a.outboxes, Generation(c.outboxes[i]))
    {
      if i < |b.outboxes| {
        assert Later(b.outboxes[i], c.outboxes[i]);
      } else {
        assert forall j :: 0 <= j < |a.outboxes| ==> Later(a.outboxes[j], b.outboxes[j]);
      }
    }
  }

  // ------------------------------------------------------------------ reads never fail

  lemma FindUnique(outboxes: seq<Outbox>, i: nat)
    requires AllPairs(outboxes) && i < |outboxes|
    ensures Find(outboxes, Key(outboxes[i])) == Some(i)
  {
    var j := Find(outboxes, Key(outboxes[i])).value;
    assert i < j ==> PairOk(outboxes[i], outboxes[j]);
    assert j < i ==> PairOk(outboxes[j], outboxes[i]);
  }

  /** Row decoding always succeeds on a kept store. */
  lemma DecodesAll(v: Verifier, o: Outbox, log: seq<Attempt>)
    requires OutboxOk(v, o, log)
    ensures Decodes(v, o)
  {
    var h := o.row.head;
    assert |o.targets| == |Specs(o.targets)|;
    forall k | 0 <= k < |o.targets|
      ensures TargetShape(o.targets[k], 100) && o.targets[k].attemptCount <= 100 && o.targets[k].revision >= 1
    {
      assert TargetInv(h, o.targets[k], k, Rows(log, h.id, k));
      ClosedShape(h, o.targets[k], k, Rows(log, h.id, k));
    }
  }

  // ------------------------------------------------------------------ one outbox changes

  /** Rows of outbox `i` leave every other outbox alone. */
  lemma ReplaceOk(v: Verifier, outboxes: seq<Outbox>, log: seq<Attempt>, i: nat, o': Outbox, extra: seq<Attempt>)
    requires AllOk(v, outboxes, log) && AllPairs(outboxes) && i < |outboxes|
    requires OutboxInv(o', log + extra) && Later(outboxes[i], o')
    requires forall j :: 0 <= j < |extra| ==> extra[j].id.outbox == Key(o')
    ensures AllOk(v, outboxes[i := o'], log + extra)
  {
    var o := outboxes[i];
    var after := outboxes[i := o'];
    forall j | 0 <= j < |after| ensures OutboxOk(v, after[j], log + extra) {
      if j == i {
        assert OutboxOk(v, o, log);
        assert |o'.targets| == |Specs(o'.targets)| == |o.targets|;
        assert forall k :: 0 <= k < |o.targets| ==> Specs(o.targets)[k] == Specs(o'.targets)[k];
      } else {
        assert OutboxOk(v, outboxes[j], log);
        assert j < i ==> PairOk(outboxes[j], o);
        assert i < j ==> PairOk(o, outboxes[j]);
        OutboxInvFrame(outboxes[j], log, extra);
      }
    }
  }

  lemma ReplacePairs(desired: Option<Desired>, outboxes: seq<Outbox>, i: nat, o': Outbox)
    requires AllPairs(outboxes) && AllDesired(desired, outboxes) && i < |outboxes|
    requires outboxes[i].row.head == o'.row.head
    requires o'.row.state.Leased? ==> outboxes[i].row.state.Leased? || Generation(o') == desired.value.generation
    ensures AllPairs(outboxes[i := o']) && AllDesired(desired, outboxes[i := o'])
  {
    var after := outboxes[i := o'];
    forall j, k | 0 <= j < k < |after| ensures PairOk(after[j], after[k]) {
      assert PairOk(outboxes[j], outboxes[k]);
      assert DesiredOk(desired.value, outboxes[j]) && DesiredOk(desired.value, outboxes[k]);
    }
    forall j | 0 <= j < |after| ensures DesiredOk(desired.value, after[j]) {
      assert DesiredOk(desired.value, outboxes[j]);
    }
  }

  lemma ReplaceEvolves(s: Store, i: nat, o': Outbox, extra: seq<Attempt>)
    requires i < |s.outboxes| && Later(s.outboxes[i], o')
    ensures Evolves(s, s.(outboxes := s.outboxes[i := o'], log := s.log + extra))
  {
  }

  /** Replaces outbox `i`, appending only log rows of its own. */
  lemma ReplaceKeeps(v: Verifier, s: Store, i: nat, o': Outbox, extra: seq<Attempt>)
    requires StoreInv(v, s) && i < |s.outboxes|
    requires OutboxInv(o', s.log + extra) && Later(s.outboxes[i], o')
    requires forall j :: 0 <= j < |extra| ==> extra[j].id.outbox == Key(o')
    requires |extra| == 0 || (|extra| == 1 && FindAttempt(s.log, extra[0].id).None?)
    requires o'.row.state.Leased? ==> s.outboxes[i].row.state.Leased? || Generation(o') == DesiredGeneration(s)
    ensures var s' := s.(outboxes := s.outboxes[i := o'], log := s.log + extra);
            StoreInv(v, s') && Evolves(s, s')
  {
    ReplaceOk(v, s.outboxes, s.log, i, o', extra);
    ReplacePairs(s.desired, s.outboxes, i, o');
    ReplaceLog(s.outboxes, s.log, i, o', extra);
    ReplaceEvolves(s, i, o', extra);
    hide AllOk, AllPairs, AllDesired, LogOk, OutboxInv, Later, Evolves;
  }

  /** The part of the invariant that speaks of one outbox. */
  lemma At(v: Verifier, s: Store, i: nat)
    requires StoreInv(v, s) && i < |s.outboxes|
    ensures OutboxOk(v, s.outboxes[i], s.log) && OutboxInv(s.outboxes[i], s.log)
    ensures s.desired.Some? && DesiredOk(s.desired.value, s.outboxes[i]) && DesiredRowOk(s.desired.value)
    ensures Find(s.outboxes, Key(s.outboxes[i])) == Some(i) && Decodes(v, s.outboxes[i])
    ensures TargetsValid(s.outboxes[i].row.head, s.outboxes[i].targets)
    ensures |s.outboxes[i].targets| <= MAX_TARGETS
    ensures forall k :: 0 <= k < |s.outboxes[i].targets| ==> s.outboxes[i].targets[k].ordinal == k
  {
    FindUnique(s.outboxes, i);
    DecodesAll(v, s.outboxes[i], s.log);
    Ordinals(s.outboxes[i]);
  }

  lemma ClaimStep(v: Verifier, s: Store, owner: Owner, now: nat)
    requires StoreInv(v, s) && ClaimNext(s, v, owner, now).Ok?
    ensures var r := ClaimNext(s, v, owner, now).value; StoreInv(v, r.store) && Evolves(s, r.store)
  {
    EvolvesSelf(s);
    hide OutboxInv, OutboxOk, StoreInv, TargetsValid, Decodes, Evolves;
    if OldestClaimable(s, v, now, |s.outboxes|).Some? {
      var i := OldestClaimable(s, v, now, |s.outboxes|).value;
      At(v, s, i);
      var o := s.outboxes[i];
      var expires := now + PRESENCE_POLICY.deadlineMs;
      ClaimKeeps(o, s.log, owner, now, expires);
      assert s.log + [] == s.log;
      ReplaceKeeps(v, s, i, o.(row := ClaimRow(o.row, owner, now, expires)), []);
    }
  }

  lemma EvolvesSelf(s: Store)
    ensures Evolves(s, s)
  {
  }

  /** A lease issued by a claim has no open attempt in its snapshot. */
  lemma PrepareStep(v: Verifier, s: Store, lease: Lease, at: nat)
    requires StoreInv(v, s) && NoneSubmitted(lease.outbox.targets) && PrepareNext(s, v, lease, at).Ok?
    ensures var r := PrepareNext(s, v, lease, at).value; StoreInv(v, r.store) && Evolves(s, r.store)
  {
    hide OutboxInv, OutboxOk, StoreInv, TargetsValid, Decodes, Evolves;
    var i := ReadOutbox(s, v, Key(lease.outbox), LeaseLost).value;
    At(v, s, i);
    var o := s.outboxes[i];
    var k := FindDue(o.targets, o.row.head.policy.maxAttempts, at).value;
    var t := o.targets[k];
    PrepareKeeps(o, s.log, k, at);
    var t' := SubmitTarget(t, Id(o.row.head, k, t.attemptCount + 1), at);
    assert Specs(o.targets[k := t']) == Specs(o.targets);
    assert s.log + [] == s.log;
    ReplaceKeeps(v, s, i, o.(targets := o.targets[k := t']), []);
  }

  /** Closing the open attempt of target `k` and ending the lease. */
  lemma CloseAndRelease(v: Verifier, s: Store, i: nat, k: nat, input: RecordInput, sched: Schedule, d: Disposal)
    requires StoreInv(v, s) && i < |s.outboxes|
    requires k < |s.outboxes[i].targets| && Closes(s.outboxes[i], k, input)
    requires OutcomeSchedule(s.outboxes[i].row.head.policy, input) == Ok(sched)
    requires FindAttempt(s.log, input.id).None? && s.outboxes[i].row.head.createdAt <= input.finishedAt
    requires var ts := s.outboxes[i].targets;
             var ts' := ts[k := CloseTarget(ts[k], sched, input.finishedAt)];
             d == Disposal(Superseded, None) || Disposition(s.outboxes[i].row.head, ts') == Ok(d)
    ensures var o := s.outboxes[i];
            var ts' := o.targets[k := CloseTarget(o.targets[k], sched, input.finishedAt)];
            var s' := s.(outboxes := s.outboxes[i := Outbox(ReleaseRow(o.row, d, input.finishedAt), ts')],
                         log := s.log + [AttemptFrom(input)]);
            StoreInv(v, s') && Evolves(s, s')
  {
    hide OutboxInv, OutboxOk, StoreInv, TargetsValid, Decodes, Evolves, Disposition, OutcomeSchedule;
    At(v, s, i);
    var o := s.outboxes[i];
    var ts' := o.targets[k := CloseTarget(o.targets[k], sched, input.finishedAt)];
    var o' := Outbox(ReleaseRow(o.row, d, input.finishedAt), ts');
    CloseKeeps(o, s.log, k, input, sched, d);
    OpenAttemptId(o, s.log, k);
    assert Specs(ts') == Specs(o.targets);
    ReplaceKeeps(v, s, i, o', [AttemptFrom(input)]);
  }

  lemma RecordStep(v: Verifier, s: Store, input: RecordInput)
    requires StoreInv(v, s) && RecordOutcome(s, v, input).Ok?
    ensures var r := RecordOutcome(s, v, input).value; StoreInv(v, r.store) && Evolves(s, r.store)
  {
    EvolvesSelf(s);
    hide OutboxInv, OutboxOk, StoreInv, TargetsValid, Decodes, Evolves, Disposition, OutcomeSchedule;
    if FindAttempt(s.log, input.id).None? {
      var i := ReadOutbox(s, v, input.outboxId, LeaseLost).value;
      At(v, s, i);
      var o := s.outboxes[i];
      var k := FindOrdinal(o.targets, input.ordinal).value;
      var sched := OutcomeSchedule(o.row.head.policy, input).value;
      var d := Disposition(o.row.head, o.targets[k := CloseTarget(o.targets[k], sched, input.finishedAt)]).value;
      CloseAndRelease(v, s, i, k, input, sched, d);
    }
  }

  // ------------------------------------------------------------------ recovery

  lemma RecoverStep(v: Verifier, s: Store, c: Candidate, now: nat, delay: nat)
    requires StoreInv(v, s) && RecoverExpired(s, v, c, now, delay).Ok?
    ensures var r := RecoverExpired(s, v, c, now, delay).value; StoreInv(v, r.store) && Evolves(s, r.store)
  {
    hide OutboxInv, OutboxOk, StoreInv, TargetsValid, Decodes, Evolves, Disposition, OutcomeSchedule;
    var i := ReadOutbox(s, v, Key(c.outbox), LeaseLost).value;
    At(v, s, i);
    var o := s.outboxes[i];
    var owner, expires := o.row.leaseOwner.value, o.row.leaseExpires.value;
    LeasedAfterCreation(o, s.log);
    match OpenIndex(o.targets)
    case None =>
      CloseNone(o, owner, expires, o.targets, s.log, 0, now, delay);
      var d := if c.currentDesired then Disposition(o.row.head, o.targets).value else Disposal(Superseded, None);
      IdleReleaseKeeps(o, s.log, d, now);
      assert s.log + [] == s.log;
      ReplaceKeeps(v, s, i, o.(row := ReleaseRow(o.row, d, now)), []);
    case Some(k) =>
      OpenAttemptId(o, s.log, k);
      OnlyOpen(o, s.log, k);
      CloseOne(o, owner, expires, o.targets, s.log, 0, k, now, delay);
      var input := UnknownInput(o, o.targets[k], o.targets[k].lastAttempt.value, owner, expires, now, delay);
      var sched := OutcomeSchedule(o.row.head.policy, input).value;
      var ts := o.targets[k := CloseTarget(o.targets[k], sched, now)];
      var d := if c.currentDesired then Disposition(o.row.head, ts).value else Disposal(Superseded, None);
      CloseAndRelease(v, s, i, k, input, sched, d);
  }

}
