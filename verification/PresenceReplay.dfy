/** Replays: recording or committing again returns the first answer and writes nothing. */
module PresenceReplay {
  import opened Prelude
  import opened Delivery
  import opened DeliveryInvariant
  import opened Presence
  import opened PresenceInvariant
  import opened PresenceCommit
  import opened PresenceRuns
  import opened Exposures
  import opened PresenceSafety

  // ------------------------------------------------------------------ outcomes

  lemma FirstRecordLeaves(v: Verifier, s: Store, input: RecordInput)
    requires StoreInv(v, s) && FindAttempt(s.log, input.id).None? && RecordOutcome(s, v, input).Ok?
    ensures Find(s.outboxes, input.outboxId).Some?
    ensures var r, i := RecordOutcome(s, v, input).value, Find(s.outboxes, input.outboxId).value;
            && |r.store.outboxes| == |s.outboxes| && Recorded(r.store.outboxes[i], input, r.value)
            && !r.store.outboxes[i].row.state.Leased?
            && AttemptFrom(input) in r.store.log
  {
    hide StoreInv, OutboxInv, OutboxOk, Decodes, TargetsValid, StaleError, OutcomeSchedule, Disposition, DesiredOk,
         LeaseError;
    var i := ReadOutbox(s, v, input.outboxId, LeaseLost).value;
    At(v, s, i);
    var o := s.outboxes[i];
    var k := FindOrdinal(o.targets, input.ordinal).value;
    var sched := OutcomeSchedule(o.row.head.policy, input).value;
    var t' := CloseTarget(o.targets[k], sched, input.finishedAt);
    OrdinalKept(o.targets, input.ordinal, k, t', 0);
    DispositionNotLeased(o.row.head, o.targets[k := t']);
  }

  /** Reconciliation succeeds on an untouched record, and fails once the outbox has moved on. */
  lemma ReconcileExactly(v: Verifier, s': Store, input: RecordInput, first: Outbox, value: AttemptCommit, i: nat)
    requires StoreInv(v, s') && i < |s'.outboxes| && Recorded(first, input, value) && !first.row.state.Leased?
    requires Later(first, s'.outboxes[i]) && AttemptFrom(input) in s'.log
    ensures RecordOutcome(s', v, input) ==
            if s'.outboxes[i].row.revision == input.outboxRevision + 1 then Ok(Step(s', value)) else Err(Invariant)
  {
    hide StoreInv, OutboxInv, OutboxOk, Decodes, TargetsValid, DesiredOk, ReconcileRecorded, RecordFirst, Recorded,
         Later, LogOk, AllPairs, DesiredRowOk;
    At(v, s', i);
    LogIdentities(v, s');
    FoundOnce(s'.log, AttemptFrom(input));
    Unmoved(first, s'.outboxes[i], input, value);
    if s'.outboxes[i].row.revision == input.outboxRevision + 1 {
      ReconcileUnmoved(v, s', input, value, i);
    } else {
      ReconcileMoved(v, s', input, i);
    }
  }

  lemma LogIdentities(v: Verifier, s: Store)
    requires StoreInv(v, s)
    ensures forall i, j :: 0 <= i < j < |s.log| ==> s.log[i].id != s.log[j].id
  {
    assert LogOk(s.outboxes, s.log);
    hide StoreInv, Find;
  }

  lemma ReconcileMoved(v: Verifier, s: Store, input: RecordInput, i: nat)
    requires Find(s.outboxes, input.outboxId) == Some(i) && Decodes(v, s.outboxes[i])
    requires s.outboxes[i].row.revision != input.outboxRevision + 1
    ensures ReconcileRecorded(s, v, input, AttemptFrom(input)) == Err(Invariant)
  {
    hide Decodes, TargetsValid, OutcomeSchedule, Disposition, FindOrdinal;
  }

  lemma ReconcileUnmoved(v: Verifier, s: Store, input: RecordInput, value: AttemptCommit, i: nat)
    requires Find(s.outboxes, input.outboxId) == Some(i) && Decodes(v, s.outboxes[i])
    requires Recorded(s.outboxes[i], input, value)
    ensures ReconcileRecorded(s, v, input, AttemptFrom(input)) == Ok(Step(s, value))
  {
    hide Decodes, TargetsValid, OutcomeSchedule, Disposition, FindOrdinal;
    DispositionValid(s.outboxes[i].row.head, s.outboxes[i].targets);
  }

  lemma RecordedWorld(v: Verifier, w: World, input: RecordInput)
    requires WorldInv(v, w) && RecordOutcome(w.store, v, input).Ok?
    ensures WorldInv(v, w.(store := RecordOutcome(w.store, v, input).value.store))
  {
    hide WorldInv, RecordOutcome, Evolves, CountsKept;
    StoreOf(v, w);
    RecordStep(v, w.store, input);
    RecordCounts(v, w.store, input);
    HeldKept(v, w, RecordOutcome(w.store, v, input).value.store);
  }

  /**
   * Replaying a recorded outcome, at any later moment of any interleaving, returns the first
   * value and changes nothing exactly as long as the outbox is still at that revision.
   */
  lemma RecordReplays(v: Verifier, before: seq<Action>, input: RecordInput, after: seq<Action>)
    requires var s := Reach(v, before).store;
             FindAttempt(s.log, input.id).None? && RecordOutcome(s, v, input).Ok?
    ensures var w := Reach(v, before);
            var r := RecordOutcome(w.store, v, input).value;
            var s' := Run(v, w.(store := r.store), after).store;
            var i := Find(s'.outboxes, input.outboxId);
            && i.Some?
            && RecordOutcome(s', v, input) ==
               if s'.outboxes[i.value].row.revision == input.outboxRevision + 1 then Ok(Step(s', r.value))
                 else Err(Invariant)
  {
    hide WorldInv, StoreInv, Reach, RecordOutcome, Recorded, Run, Later;
    ReachInv(v, before);
    var w := Reach(v, before);
    var r := RecordOutcome(w.store, v, input).value;
    var w' := w.(store := r.store);
    RecordedWorld(v, w, input);
    FirstRecordLeaves(v, w.store, input);
    RunFrom(v, w', after);
    var s' := Run(v, w', after).store;
    var i := Find(w.store.outboxes, input.outboxId).value;
    assert Later(r.store.outboxes[i], s'.outboxes[i]);
    RecordedKey(r.store.outboxes[i], input, r.value);
    SameHead(r.store.outboxes[i], s'.outboxes[i]);
    StoreOf(v, Run(v, w', after));
    PairsOf(v, s');
    FindUnique(s'.outboxes, i);
    ReconcileExactly(v, s', input, r.store.outboxes[i], r.value, i);
  }

  // ------------------------------------------------------------------ signed documents

  predicate PairwiseLater(a: seq<Outbox>, b: seq<Outbox>)
  {
    |a| == |b| && forall i :: 0 <= i < |a| ==> Later(a[i], b[i])
  }

  lemma {:induction false} OfKindLater(a: seq<Outbox>, b: seq<Outbox>, g: nat, kind: DocumentKind)
    requires |a| <= |b| && (forall i :: 0 <= i < |a| ==> Later(a[i], b[i]))
    requires forall i :: |a| <= i < |b| ==> b[i].row.head.binding.PresenceBinding? && Generation(b[i]) != g
    ensures PairwiseLater(OfKind(a, g, kind), OfKind(b, g, kind))
    decreases |b|
  {
    hide Later;
    if |a| < |b| {
      OfKindLater(a, b[..|b| - 1], g, kind);
    } else if |a| > 0 {
      OfKindLater(a[..|a| - 1], b[..|b| - 1], g, kind);
      SameHead(a[|a| - 1], b[|b| - 1]);
    }
  }

  lemma OfGenerationLater(a: seq<Outbox>, b: seq<Outbox>, g: nat)
    requires |a| <= |b| && (forall i :: 0 <= i < |a| ==> Later(a[i], b[i]))
    requires forall i :: |a| <= i < |b| ==> b[i].row.head.binding.PresenceBinding? && Generation(b[i]) != g
    ensures PairwiseLater(OfGeneration(a, g), OfGeneration(b, g))
  {
    hide Later, OfKind;
    OfKindLater(a, b, g, ServiceProfile);
    OfKindLater(a, b, g, ApplicationHandler);
  }

  lemma {:induction false} OfKindIn(outboxes: seq<Outbox>, g: nat, kind: DocumentKind)
    ensures forall o :: o in OfKind(outboxes, g, kind) ==> o in outboxes && Generation(o) == g
  {
    if |outboxes| > 0 {
      OfKindIn(outboxes[..|outboxes| - 1], g, kind);
    }
  }

  lemma AllDecode(v: Verifier, s: Store, g: nat)
    requires StoreInv(v, s)
    ensures forall o :: o in OfGeneration(s.outboxes, g) ==> Decodes(v, o)
  {
    hide StoreInv, Decodes, OutboxOk, OutboxInv, TargetsValid, DesiredOk, Find;
    OfKindIn(s.outboxes, g, ServiceProfile);
    OfKindIn(s.outboxes, g, ApplicationHandler);
    forall o | o in OfGeneration(s.outboxes, g) ensures Decodes(v, o) {
      var i :| 0 <= i < |s.outboxes| && s.outboxes[i] == o;
      At(v, s, i);
    }
  }

  /** Delivery progress changes nothing a commit compares. */
  lemma MatchesLater(docs: Documents, a: seq<Outbox>, b: seq<Outbox>)
    requires GenerationMatches(docs, a) == Ok(true) && PairwiseLater(a, b)
    ensures GenerationMatches(docs, b) == Ok(true)
  {
    hide SpecsMatch;
    forall i | 0 <= i < |b|
      ensures SameCommitted(docs, docs.documents[i], b[i]) && TargetsValid(b[i].row.head, b[i].targets)
    {
      assert SameCommitted(docs, docs.documents[i], a[i]) && TargetsValid(a[i].row.head, a[i].targets);
      assert Later(a[i], b[i]);
      assert |Specs(b[i].targets)| == |b[i].targets|;
    }
  }

  /** What a successful commit establishes about the generation it committed. */
  lemma CommittedMatches(v: Verifier, s: Store, docs: Documents, at: nat)
    requires CommitSigned(s, v, docs, at).Ok?
    ensures var r := CommitSigned(s, v, docs, at).value;
            && s.desired == r.store.desired == Some(docs.desired)
            && DocumentSetError(v, docs, docs.desired).None? && DesiredRowOk(docs.desired)
            && GenerationMatches(docs, OfGeneration(r.store.outboxes, docs.desired.generation)) == Ok(true)
            && r.value.documentCount == |docs.documents| && r.value.desired == docs.desired
  {
    hide Decodes, GenerationMatches, InsertDocuments, NewerThanAll, OfGeneration, DesiredRowOk, SupersedeAll;
  }

  lemma CommitAgain(v: Verifier, s: Store, docs: Documents, at: nat)
    requires StoreInv(v, s) && s.desired == Some(docs.desired)
    requires DocumentSetError(v, docs, docs.desired).None? && DesiredRowOk(docs.desired) && docs.desired.mode.Enabled?
    requires GenerationMatches(docs, OfGeneration(s.outboxes, docs.desired.generation)) == Ok(true)
    ensures CommitSigned(s, v, docs, at) == Ok(Step(s, CommitOutcome(docs.desired, |docs.documents|, false)))
  {
    hide StoreInv, Decodes, NewerThanAll, OfGeneration, SameCommitted, TargetsValid, CommitFresh;
    AllDecode(v, s, docs.desired.generation);
    var current := OfGeneration(s.outboxes, docs.desired.generation);
    assert |current| == |docs.documents| == |DocumentKinds(docs.desired)|;
    assert forall i :: 0 <= i < |current| ==> current[i] in current;
  }

  lemma CommittedWorld(v: Verifier, w: World, docs: Documents, at: nat)
    requires WorldInv(v, w) && CommitSigned(w.store, v, docs, at).Ok?
    ensures WorldInv(v, w.(store := CommitSigned(w.store, v, docs, at).value.store))
  {
    hide WorldInv, CommitSigned, Evolves, CountsKept;
    StoreOf(v, w);
    SignedStep(v, w.store, docs, at);
    CommitCounts(v, w.store, docs, at);
    HeldKept(v, w, CommitSigned(w.store, v, docs, at).value.store);
  }

  lemma StillCommitted(v: Verifier, s: Store, s': Store, docs: Documents)
    requires Evolves(s, s') && StoreInv(v, s') && docs.desired.mode.Enabled? && DesiredRowOk(docs.desired)
    requires DocumentSetError(v, docs, docs.desired).None?
    requires GenerationMatches(docs, OfGeneration(s.outboxes, docs.desired.generation)) == Ok(true)
    ensures GenerationMatches(docs, OfGeneration(s'.outboxes, docs.desired.generation)) == Ok(true)
  {
    assert AllOk(v, s'.outboxes, s'.log);
    hide StoreInv, Later, OutboxOk, GenerationMatches, OfKind, DocumentVerifies;
    var g := docs.desired.generation;
    AllPresence(v, s'.outboxes, s'.log);
    NonEmptyMatch(docs, OfGeneration(s.outboxes, g));
    OfKindIn(s.outboxes, g, ServiceProfile);
    OfKindIn(s.outboxes, g, ApplicationHandler);
    assert OfGeneration(s.outboxes, g)[0] in s.outboxes;
    OfGenerationLater(s.outboxes, s'.outboxes, g);
    MatchesLater(docs, OfGeneration(s.outboxes, g), OfGeneration(s'.outboxes, g));
  }

  lemma NonEmptyMatch(docs: Documents, current: seq<Outbox>)
    requires GenerationMatches(docs, current) == Ok(true)
    ensures |current| == |docs.documents|
  {
  }

  /**
   * Committing an enabled document set again, at any later moment while the same generation
   * is desired and however far delivery has gone, is a no-op that reports no change.
   */
  lemma CommitReplays(v: Verifier, before: seq<Action>, docs: Documents, at: nat, after: seq<Action>, again: nat)
    requires var s := Reach(v, before).store; CommitSigned(s, v, docs, at).Ok? && docs.desired.mode.Enabled?
    requires var w := Reach(v, before);
             var r := CommitSigned(w.store, v, docs, at).value;
             DesiredGeneration(Run(v, w.(store := r.store), after).store) == docs.desired.generation
    ensures var w := Reach(v, before);
            var r := CommitSigned(w.store, v, docs, at).value;
            var s' := Run(v, w.(store := r.store), after).store;
            CommitSigned(s', v, docs, again) == Ok(Step(s', r.value.(changed := false)))
  {
    hide WorldInv, StoreInv, Reach, CommitSigned, Run, Later, GenerationMatches, OfGeneration, DocumentSetError,
         DesiredRowOk;
    ReachInv(v, before);
    var w := Reach(v, before);
    var r := CommitSigned(w.store, v, docs, at).value;
    var w' := w.(store := r.store);
    CommittedWorld(v, w, docs, at);
    CommittedMatches(v, w.store, docs, at);
    RunFrom(v, w', after);
    var s' := Run(v, w', after).store;
    StoreOf(v, Run(v, w', after));
    StillCommitted(v, r.store, s', docs);
    CommitAgain(v, s', docs, again);
  }
}
