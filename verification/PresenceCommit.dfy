/** Committing desired state and signed documents keeps the store invariant. */
module PresenceCommit {
  import opened Prelude
  import opened Backoff
  import opened Delivery
  import opened DeliveryInvariant
  import opened Presence
  import opened PresenceInvariant

  /** A desired change leaves every committed outbox behind the new generation. */
  lemma DesiredStep(v: Verifier, s: Store, a: Authority)
    requires StoreInv(v, s) && CommitDesired(s, a).Ok?
    ensures var r := CommitDesired(s, a).value; StoreInv(v, r.store) && Evolves(s, r.store)
  {
    hide AllOk, AllPairs, LogOk, Later;
    var s' := CommitDesired(s, a).value.store;
    assert AllDesired(s'.desired, s'.outboxes);
    LaterSelf(s.outboxes);
  }

  lemma {:induction false} OfKindSome(outboxes: seq<Outbox>, i: nat)
    requires i < |outboxes| && outboxes[i].row.head.binding.PresenceBinding?
    ensures outboxes[i] in OfKind(outboxes, Generation(outboxes[i]), Kind(outboxes[i]))
  {
    if i < |outboxes| - 1 {
      OfKindSome(outboxes[..|outboxes| - 1], i);
    }
  }

  lemma NoneOfGeneration(v: Verifier, outboxes: seq<Outbox>, g: nat)
    requires OfGeneration(outboxes, g) == []
    requires forall i :: 0 <= i < |outboxes| ==> outboxes[i].row.head.binding.PresenceBinding?
    ensures !HasGeneration(outboxes, g)
  {
    hide OfKind;
    forall i | 0 <= i < |outboxes| ensures Generation(outboxes[i]) != g {
      OfKindSome(outboxes, i);
      assert Kind(outboxes[i]) == ServiceProfile || Kind(outboxes[i]) == ApplicationHandler;
      assert OfKind(outboxes, g, ServiceProfile) == [] && OfKind(outboxes, g, ApplicationHandler) == [];
    }
  }

  // ------------------------------------------------------------------ supersession

  lemma SupersedeOutbox(v: Verifier, o: Outbox, log: seq<Attempt>, g: nat, at: nat)
    requires OutboxOk(v, o, log)
    ensures OutboxOk(v, Supersede(o, g, at), log) && Later(o, Supersede(o, g, at))
    ensures Supersede(o, g, at).row.state.Leased? ==> o.row.state.Leased?
  {
    if Supersedable(o, g, at) {
      IdleOutsideLease(o, log);
      LeasedAfterCreation(o, log);
      hide OutboxInv, Disposition;
      IdleReleaseKeeps(o, log, Disposal(Superseded, None), at);
    }
  }

  ghost predicate NoLeases(outboxes: seq<Outbox>)
  {
    forall i :: 0 <= i < |outboxes| ==> !outboxes[i].row.state.Leased?
  }

  /** The four parts of the invariant, for an outbox table that is being rewritten. */
  ghost predicate TableInv(v: Verifier, d: Desired, outboxes: seq<Outbox>, log: seq<Attempt>)
  {
    AllOk(v, outboxes, log) && AllPairs(outboxes) && AllDesired(Some(d), outboxes) && LogOk(outboxes, log)
  }

  lemma SupersedeOk(v: Verifier, outboxes: seq<Outbox>, log: seq<Attempt>, g: nat, at: nat)
    requires AllOk(v, outboxes, log) && NoLeases(outboxes)
    ensures var kept := SupersedeAll(outboxes, g, at);
            && AllOk(v, kept, log) && NoLeases(kept)
            && (forall i :: 0 <= i < |outboxes| ==> Later(outboxes[i], kept[i]))
  {
    hide OutboxOk;
    var kept := SupersedeAll(outboxes, g, at);
    forall i | 0 <= i < |outboxes|
      ensures OutboxOk(v, kept[i], log) && Later(outboxes[i], kept[i]) && !kept[i].row.state.Leased?
    {
      SupersedeOutbox(v, outboxes[i], log, g, at);
    }
  }

  /** Rewriting rows without touching an identity or granting a lease keeps the table relations. */
  lemma SameHeads(d: Desired, outboxes: seq<Outbox>, kept: seq<Outbox>, log: seq<Attempt>)
    requires AllPairs(outboxes) && AllDesired(Some(d), outboxes) && LogOk(outboxes, log) && NoLeases(kept)
    requires |kept| == |outboxes| && forall i :: 0 <= i < |kept| ==> kept[i].row.head == outboxes[i].row.head
    ensures AllPairs(kept) && AllDesired(Some(d), kept) && LogOk(kept, log)
  {
    forall i, j | 0 <= i < j < |kept| ensures PairOk(kept[i], kept[j]) {
      assert PairOk(outboxes[i], outboxes[j]);
    }
    forall i | 0 <= i < |kept| ensures DesiredOk(d, kept[i]) {
      assert DesiredOk(d, outboxes[i]);
    }
    forall i | 0 <= i < |log| ensures Find(kept, log[i].id.outbox).Some? {
      var j := Find(outboxes, log[i].id.outbox).value;
      assert Key(kept[j]) == log[i].id.outbox;
    }
  }

  lemma SupersedeTable(v: Verifier, d: Desired, outboxes: seq<Outbox>, log: seq<Attempt>, at: nat)
    requires TableInv(v, d, outboxes, log) && NoLeases(outboxes)
    ensures var kept := SupersedeAll(outboxes, d.generation, at);
            && TableInv(v, d, kept, log) && NoLeases(kept)
            && (forall i :: 0 <= i < |outboxes| ==> Later(outboxes[i], kept[i]))
  {
    hide AllOk, AllPairs, AllDesired, LogOk;
    SupersedeOk(v, outboxes, log, d.generation, at);
    SameHeads(d, outboxes, SupersedeAll(outboxes, d.generation, at), log);
  }

  // ------------------------------------------------------------------ insertion

  /** What makes the `n`-th document's outbox sound to insert. */
  ghost predicate DocumentReady(v: Verifier, d: Desired, docs: Documents, at: nat, n: nat)
    requires n < |docs.documents|
  {
    && docs.desired == d && d.mode.Enabled?
    && SpecsMatch(HeadFor(docs, docs.documents[n], at), docs.targets)
    && v.key(docs.publicKey) && n < |DocumentKinds(d)|
    && DocumentVerifies(v, docs.publicKey, docs.documents[n], DocumentKinds(d)[n])
  }

  lemma FreshOutboxOk(v: Verifier, d: Desired, docs: Documents, at: nat, n: nat, outboxes: seq<Outbox>,
                      log: seq<Attempt>)
    requires n < |docs.documents| && DocumentReady(v, d, docs, at, n)
    requires LogOk(outboxes, log) && Insertable(outboxes, OutboxFor(docs, docs.documents[n], at))
    ensures OutboxOk(v, OutboxFor(docs, docs.documents[n], at), log)
    ensures Generation(OutboxFor(docs, docs.documents[n], at)) == d.generation
  {
    var o := OutboxFor(docs, docs.documents[n], at);
    assert Specs(o.targets) == docs.targets;
    assert PolicyOk(PRESENCE_POLICY);
    hide SpecsMatch;
    forall i | 0 <= i < |log| ensures log[i].id.outbox != Key(o) {
      assert Find(outboxes, log[i].id.outbox).Some?;
    }
    CommittedInv(o.row.head, o.targets, log);
  }

  lemma FreshPairs(v: Verifier, d: Desired, docs: Documents, at: nat, n: nat, outboxes: seq<Outbox>)
    requires n < |docs.documents| && DocumentReady(v, d, docs, at, n)
    requires AllPairs(outboxes) && AllDesired(Some(d), outboxes) && NoLeases(outboxes)
    requires forall i :: 0 <= i < |outboxes| ==> outboxes[i].row.head.binding.PresenceBinding?
    requires Insertable(outboxes, OutboxFor(docs, docs.documents[n], at))
    requires NewerThanAll(outboxes, docs.documents[n])
    ensures var o := OutboxFor(docs, docs.documents[n], at);
            AllPairs(outboxes + [o]) && AllDesired(Some(d), outboxes + [o]) && NoLeases(outboxes + [o])
  {
    var o := OutboxFor(docs, docs.documents[n], at);
    var after := outboxes + [o];
    hide SpecsMatch, DocumentVerifies, Insertable;
    forall i | 0 <= i < |outboxes| ensures PairOk(outboxes[i], o) {
      assert DesiredOk(d, outboxes[i]);
      InsertableApart(outboxes, o, i);
    }
    forall i, j | 0 <= i < j < |after| ensures PairOk(after[i], after[j]) {
      if j < |outboxes| {
        assert PairOk(outboxes[i], outboxes[j]);
      }
    }
    assert DesiredMatches(d, o);
    forall i | 0 <= i < |after| ensures DesiredOk(d, after[i]) {
      if i < |outboxes| {
        assert DesiredOk(d, outboxes[i]);
      }
    }
  }

  lemma InsertableApart(outboxes: seq<Outbox>, o: Outbox, i: nat)
    requires Insertable(outboxes, o) && i < |outboxes| && outboxes[i].row.head.binding.PresenceBinding?
    ensures Key(outboxes[i]) != Key(o)
    ensures Generation(outboxes[i]) == Generation(o) ==> Kind(outboxes[i]) != Kind(o)
  {
    OfKindSome(outboxes, i);
  }

  lemma {:induction false} InsertKeeps(v: Verifier, d: Desired, docs: Documents, at: nat, n: nat,
                                       outboxes: seq<Outbox>, log: seq<Attempt>)
    requires n <= |docs.documents| && InsertDocuments(outboxes, docs, n, at).Ok?
    requires TableInv(v, d, outboxes, log) && NoLeases(outboxes)
    requires forall m :: n <= m < |docs.documents| ==> DocumentReady(v, d, docs, at, m)
    requires forall m :: n <= m < |docs.documents| ==> NewerThanAll(outboxes, docs.documents[m])
    ensures var after := InsertDocuments(outboxes, docs, n, at).value;
            && TableInv(v, d, after, log) && outboxes <= after
            && (forall i :: |outboxes| <= i < |after| ==> Generation(after[i]) == d.generation)
    decreases |docs.documents| - n
  {
    hide OutboxOk, OutboxFor, DocumentReady, Insertable, NewerThanAll, AllPairs, AllDesired, NoLeases;
    if n < |docs.documents| {
      var o := OutboxFor(docs, docs.documents[n], at);
      var next := outboxes + [o];
      AllPresence(v, outboxes, log);
      FreshOutboxOk(v, d, docs, at, n, outboxes, log);
      FreshPairs(v, d, docs, at, n, outboxes);
      KindsDiffer(v, d, docs, at, n, outboxes);
      FindAppended(outboxes, o);
      assert AllOk(v, next, log) && LogOk(next, log);
      hide AllOk, LogOk;
      InsertKeeps(v, d, docs, at, n + 1, next, log);
    }
  }

  lemma AllPresence(v: Verifier, outboxes: seq<Outbox>, log: seq<Attempt>)
    requires AllOk(v, outboxes, log)
    ensures forall i :: 0 <= i < |outboxes| ==> outboxes[i].row.head.binding.PresenceBinding?
  {
    forall i | 0 <= i < |outboxes| ensures outboxes[i].row.head.binding.PresenceBinding? {
      assert OutboxOk(v, outboxes[i], log);
    }
  }

  lemma FindAppended(outboxes: seq<Outbox>, o: Outbox)
    ensures forall id :: Find(outboxes, id).Some? ==> Find(outboxes + [o], id).Some?
  {
    forall id | Find(outboxes, id).Some? ensures Find(outboxes + [o], id).Some? {
      var j := Find(outboxes, id).value;
      assert Key((outboxes + [o])[j]) == id;
    }
  }

  /** The remaining documents are of other kinds, so they stay newer than all of theirs. */
  lemma KindsDiffer(v: Verifier, d: Desired, docs: Documents, at: nat, n: nat, outboxes: seq<Outbox>)
    requires n < |docs.documents|
    requires forall m :: n <= m < |docs.documents| ==> DocumentReady(v, d, docs, at, m)
    requires forall m :: n <= m < |docs.documents| ==> NewerThanAll(outboxes, docs.documents[m])
    ensures var next := outboxes + [OutboxFor(docs, docs.documents[n], at)];
            forall m :: n < m < |docs.documents| ==> NewerThanAll(next, docs.documents[m])
  {
    hide SpecsMatch;
    forall m | n < m < |docs.documents|
      ensures NewerThanAll(outboxes + [OutboxFor(docs, docs.documents[n], at)], docs.documents[m])
    {
      assert DocumentReady(v, d, docs, at, m) && DocumentReady(v, d, docs, at, n);
      assert docs.documents[m].kind != docs.documents[n].kind;
      assert NewerThanAll(outboxes, docs.documents[m]);
    }
  }

  /** The final comparison against the committed rows supplies the target inventory's validity. */
  lemma CommittedTargetsValid(docs: Documents, current: seq<Outbox>, at: nat, n: nat)
    requires GenerationMatches(docs, current) == Ok(true) && n < |docs.documents|
    ensures SpecsMatch(HeadFor(docs, docs.documents[n], at), docs.targets)
  {
    assert SameCommitted(docs, docs.documents[n], current[n]);
    assert TargetsValid(current[n].row.head, current[n].targets);
  }

  lemma FreshStep(v: Verifier, s: Store, docs: Documents, d: Desired, at: nat)
    requires StoreInv(v, s) && s.desired == Some(d) && DocumentSetError(v, docs, d).None?
    requires OfGeneration(s.outboxes, d.generation) == [] && NoLeases(s.outboxes)
    requires forall m :: 0 <= m < |docs.documents| ==> NewerThanAll(s.outboxes, docs.documents[m])
    requires CommitFresh(s, docs, d, at).Ok?
    ensures var r := CommitFresh(s, docs, d, at).value; StoreInv(v, r.store) && Evolves(s, r.store)
  {
    assert DesiredRowOk(d);
    hide AllOk, AllPairs, AllDesired, LogOk, DocumentReady, NewerThanAll, SpecsMatch, Later, GenerationMatches,
         DocumentSetError, SupersedeAll, NoLeases, OfGeneration, HeadFor, Evolves;
    var kept := SupersedeAll(s.outboxes, d.generation, at);
    var after := InsertDocuments(kept, docs, 0, at).value;
    SupersedeTable(v, d, s.outboxes, s.log, at);
    forall m | 0 <= m < |docs.documents| ensures DocumentReady(v, d, docs, at, m)
      && NewerThanAll(kept, docs.documents[m]) {
      CommittedTargetsValid(docs, OfGeneration(after, d.generation), at, m);
      ReadyFrom(v, d, docs, at, m);
      StillNewer(s.outboxes, kept, docs.documents[m]);
    }
    InsertKeeps(v, d, docs, at, 0, kept, s.log);
    AllPresence(v, s.outboxes, s.log);
    NoneOfGeneration(v, s.outboxes, d.generation);
    FreshEvolves(s, kept, after, d.generation);
  }

  lemma FreshEvolves(s: Store, kept: seq<Outbox>, after: seq<Outbox>, g: nat)
    requires |kept| == |s.outboxes| && kept <= after && DesiredGeneration(s) == g
    requires forall i :: 0 <= i < |kept| ==> Later(s.outboxes[i], kept[i])
    requires forall i :: |kept| <= i < |after| ==> Generation(after[i]) == g
    requires !HasGeneration(s.outboxes, g)
    ensures Evolves(s, s.(outboxes := after))
  {
    hide Later;
  }

  lemma StillNewer(outboxes: seq<Outbox>, kept: seq<Outbox>, d: Document)
    requires NewerThanAll(outboxes, d) && |kept| == |outboxes|
    requires forall i :: 0 <= i < |kept| ==> Later(outboxes[i], kept[i])
    ensures NewerThanAll(kept, d)
  {
  }

  lemma ReadyFrom(v: Verifier, d: Desired, docs: Documents, at: nat, n: nat)
    requires DocumentSetError(v, docs, d).None? && n < |docs.documents| && DesiredRowOk(d)
    requires SpecsMatch(HeadFor(docs, docs.documents[n], at), docs.targets)
    ensures DocumentReady(v, d, docs, at, n)
  {
    hide SpecsMatch;
    assert DocumentVerifies(v, docs.publicKey, docs.documents[n], DocumentKinds(d)[n]);
  }

  lemma SignedStep(v: Verifier, s: Store, docs: Documents, at: nat)
    requires StoreInv(v, s) && CommitSigned(s, v, docs, at).Ok?
    ensures var r := CommitSigned(s, v, docs, at).value; StoreInv(v, r.store) && Evolves(s, r.store)
  {
    EvolvesSelf(s);
    hide OutboxOk, AllPairs, LogOk, DesiredOk, Decodes, GenerationMatches, Evolves, NewerThanAll, CommitFresh;
    var d := s.desired.value;
    if OfGeneration(s.outboxes, d.generation) == [] {
      AllPresence(v, s.outboxes, s.log);
      NoneOfGeneration(v, s.outboxes, d.generation);
      assert NoLeases(s.outboxes);
      assert d.mode.Disabled? ==> |docs.documents| == 0;
      FreshStep(v, s, docs, d, at);
    }
  }
}
