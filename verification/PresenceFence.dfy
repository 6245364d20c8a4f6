/** The generation fence: stale work is dead for ever, under every interleaving. */
module PresenceFence {
  import opened Delivery
  import opened DeliveryInvariant
  import opened Presence
  import opened PresenceInvariant
  import opened PresenceCommit
  import opened PresenceRuns
  import opened Exposures
  import opened PresenceSafety

  /** No transaction can start, expose or first-record work of this outbox. */
  ghost predicate Fenced(v: Verifier, s: Store, id: OutboxId)
  {
    && (forall owner, now :: ClaimNext(s, v, owner, now).Ok? && ClaimNext(s, v, owner, now).value.value.Some? ==>
          Key(ClaimNext(s, v, owner, now).value.value.value.outbox) != id)
    && (forall lease: Lease, at :: Key(lease.outbox) == id ==> PrepareNext(s, v, lease, at).Err?)
    && (forall input: RecordInput :: input.outboxId == id && FindAttempt(s.log, input.id).None? ==>
          RecordOutcome(s, v, input).Err?)
  }

  predicate Stale(s: Store, i: nat)
  {
    i < |s.outboxes| && Generation(s.outboxes[i]) < DesiredGeneration(s)
  }

  lemma StaleUnmatched(s: Store, o: Outbox)
    requires Generation(o) < DesiredGeneration(s)
    ensures StaleError(s, o).Some? && forall now :: !Claimable(s, o, now)
  {
  }

  lemma ClaimTakesCurrent(v: Verifier, s: Store, i: nat, owner: Owner, now: nat)
    requires StoreInv(v, s) && Stale(s, i)
    requires ClaimNext(s, v, owner, now).Ok? && ClaimNext(s, v, owner, now).value.value.Some?
    ensures Key(ClaimNext(s, v, owner, now).value.value.value.outbox) != Key(s.outboxes[i])
  {
    hide StoreInv, Decodes, TargetsValid, StaleError, Issues, Claimable;
    ClaimIssues(v, s, owner, now);
    var j := OldestClaimable(s, v, now, |s.outboxes|).value;
    StaleUnmatched(s, s.outboxes[i]);
    SameKey(v, s, i, j);
  }

  lemma StaleIsFenced(v: Verifier, s: Store, i: nat)
    requires StoreInv(v, s) && Stale(s, i)
    ensures Fenced(v, s, Key(s.outboxes[i]))
  {
    hide StoreInv, Decodes, TargetsValid, StaleError, ClaimNext, OutboxInv, OutboxOk, Claimable, DesiredOk,
         ReconcileRecorded, OutcomeSchedule, Disposition;
    At(v, s, i);
    StaleUnmatched(s, s.outboxes[i]);
    forall owner, now | ClaimNext(s, v, owner, now).Ok? && ClaimNext(s, v, owner, now).value.value.Some?
      ensures Key(ClaimNext(s, v, owner, now).value.value.value.outbox) != Key(s.outboxes[i])
    {
      ClaimTakesCurrent(v, s, i, owner, now);
    }
    forall lease: Lease | Key(lease.outbox) == Key(s.outboxes[i])
      ensures forall at :: PrepareNext(s, v, lease, at).Err? {
      assert forall at :: LeaseError(s, v, lease, at).Some?;
    }
  }

  /**
   * Once an outbox is stale it stays stale: whatever happens afterwards, no claim takes it,
   * no lease prepares it and no first outcome is recorded for it.
   */
  lemma StaleForever(v: Verifier, before: seq<Action>, after: seq<Action>, i: nat)
    requires Stale(Reach(v, before).store, i)
    ensures var s, s' := Reach(v, before).store, Run(v, Reach(v, before), after).store;
            && Stale(s', i) && Key(s'.outboxes[i]) == Key(s.outboxes[i])
            && Fenced(v, s', Key(s.outboxes[i]))
  {
    hide Fenced, StoreInv, Later, LeasesInv, ExposuresInv, CandidateOk, Run;
    ReachInv(v, before);
    var w := Reach(v, before);
    var w' := Run(v, w, after);
    RunFrom(v, w, after);
    SameHead(w.store.outboxes[i], w'.store.outboxes[i]);
    StaleIsFenced(v, w'.store, i);
  }

  /** Desired generations only grow, and one generation names one desired row. */
  lemma DesiredOnlyGrows(v: Verifier, before: seq<Action>, after: seq<Action>)
    ensures var s, s' := Reach(v, before).store, Run(v, Reach(v, before), after).store;
            && DesiredGeneration(s) <= DesiredGeneration(s')
            && (DesiredGeneration(s) == DesiredGeneration(s') ==> s.desired == s'.desired)
  {
    hide StoreInv, Later, LeasesInv, ExposuresInv, CandidateOk, Run;
    ReachInv(v, before);
    RunFrom(v, Reach(v, before), after);
  }

  lemma PairAt(v: Verifier, actions: seq<Action>, i: nat, j: nat)
    requires var s := Reach(v, actions).store; i < |s.outboxes| && j < |s.outboxes| && i != j
    ensures var s := Reach(v, actions).store;
            PairOk(s.outboxes[i], s.outboxes[j]) || PairOk(s.outboxes[j], s.outboxes[i])
  {
    ReachInv(v, actions);
    hide WorldInv, AllOk, AllDesired, LogOk, Reach, PairOk;
  }

  /**
   * Once an outbox of a newer generation exists, no older one is leased, even when the
   * desired state moved between the two transactions of a recovery.
   */
  lemma OlderGenerationsIdle(v: Verifier, actions: seq<Action>, i: nat, j: nat)
    requires var s := Reach(v, actions).store;
             i < |s.outboxes| && j < |s.outboxes| && Generation(s.outboxes[i]) < Generation(s.outboxes[j])
    ensures var o := Reach(v, actions).store.outboxes[i]; !o.row.state.Leased? && NoneSubmitted(o.targets)
  {
    hide WorldInv, StoreInv, Reach, Decodes, OutboxOk, OutboxInv, TargetsValid, DesiredOk;
    PairAt(v, actions, i, j);
    ReachInv(v, actions);
    var s := Reach(v, actions).store;
    At(v, s, i);
    IdleOutsideLease(s.outboxes[i], s.log);
  }

  /** For each kind, a document of a newer generation was authored strictly later. */
  lemma AuthoredTimesIncrease(v: Verifier, actions: seq<Action>, i: nat, j: nat)
    requires var s := Reach(v, actions).store;
             && i < |s.outboxes| && j < |s.outboxes| && Kind(s.outboxes[i]) == Kind(s.outboxes[j]) && i != j
    ensures var s := Reach(v, actions).store;
            && Generation(s.outboxes[i]) != Generation(s.outboxes[j])
            && (Generation(s.outboxes[i]) < Generation(s.outboxes[j]) <==>
                AuthoredAt(s.outboxes[i]) < AuthoredAt(s.outboxes[j]))
  {
    hide Reach;
    PairAt(v, actions, i, j);
  }

  /** An outbox whose generation is current is bound to exactly the current desired row. */
  lemma CurrentMatchesDesired(v: Verifier, actions: seq<Action>, i: nat)
    requires i < |Reach(v, actions).store.outboxes|
    ensures var s := Reach(v, actions).store;
            && s.desired.Some? && Generation(s.outboxes[i]) <= s.desired.value.generation
            && (Generation(s.outboxes[i]) == s.desired.value.generation
               <==> DesiredMatches(s.desired.value, s.outboxes[i]))
  {
    hide WorldInv, StoreInv, Reach, Decodes, OutboxOk, OutboxInv, TargetsValid;
    ReachInv(v, actions);
    At(v, Reach(v, actions).store, i);
    PresencePolicy(v, Reach(v, actions).store.outboxes[i], Reach(v, actions).store.log);
  }

  // ------------------------------------------------------------------ supersession

  lemma {:induction false} InsertOnlyAppends(outboxes: seq<Outbox>, docs: Documents, n: nat, at: nat)
    requires n <= |docs.documents| && InsertDocuments(outboxes, docs, n, at).Ok?
    ensures outboxes <= InsertDocuments(outboxes, docs, n, at).value
    ensures |InsertDocuments(outboxes, docs, n, at).value| == |outboxes| + |docs.documents| - n
    decreases |docs.documents| - n
  {
    hide Insertable;
    if n < |docs.documents| {
      InsertOnlyAppends(outboxes + [OutboxFor(docs, docs.documents[n], at)], docs, n + 1, at);
    }
  }

  /**
   * After the commit of a new generation every earlier outbox is idle, and one is still
   * Pending or Blocked exactly when its last update lies after the commit instant.
   */
  lemma CommitSupersedes(v: Verifier, actions: seq<Action>, docs: Documents, at: nat, i: nat)
    requires var s := Reach(v, actions).store;
             && CommitSigned(s, v, docs, at).Ok? && i < |s.outboxes|
             && OfGeneration(s.outboxes, DesiredGeneration(s)) == []
    ensures var s := Reach(v, actions).store;
            |CommitSigned(s, v, docs, at).value.store.outboxes| == |s.outboxes| + |docs.documents|
    ensures var s := Reach(v, actions).store;
            var o, o' := s.outboxes[i], CommitSigned(s, v, docs, at).value.store.outboxes[i];
            && Generation(o') < DesiredGeneration(s) && !o'.row.state.Leased?
            && o'.targets == o.targets
            && (o'.row.state.Pending? || o'.row.state.Blocked? <==>
                (o.row.state.Pending? || o.row.state.Blocked?) && at < o.row.updatedAt)
            && (o'.row.state.Complete? <==> o.row.state.Complete?)
  {
    hide WorldInv, StoreInv, Reach, Decodes, OutboxOk, OutboxInv, TargetsValid, GenerationMatches, InsertDocuments,
         NewerThanAll, DocumentSetError, OfKind, Find;
    ReachInv(v, actions);
    var s := Reach(v, actions).store;
    var d := s.desired.value;
    At(v, s, i);
    PresencePolicy(v, s.outboxes[i], s.log);
    OfKindSome(s.outboxes, i);
    assert Generation(s.outboxes[i]) != d.generation;
    InsertOnlyAppends(SupersedeAll(s.outboxes, d.generation, at), docs, 0, at);
  }
}
