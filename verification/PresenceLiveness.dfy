/** When commits and claims succeed, and that delivery gets started from an empty store. */
module PresenceLiveness {
  import opened Prelude
  import opened Digests
  import opened Delivery
  import opened DeliveryInvariant
  import opened Presence
  import opened PresenceInvariant
  import opened PresenceCommit
  import opened PresenceDesired
  import opened PresenceRuns
  import opened PresenceSafety
  import opened PresenceFence
  import opened PresenceProgress

  // ------------------------------------------------------------------ commits

  /** No stored outbox has this generation and kind. */
  predicate Vacant(outboxes: seq<Outbox>, g: nat, k: DocumentKind)
  {
    forall i :: 0 <= i < |outboxes| ==> !OfDocument(outboxes[i], g, k)
  }

  predicate OfDocument(o: Outbox, g: nat, k: DocumentKind)
  {
    o.row.head.binding.PresenceBinding? && o.row.head.binding.generation == g && o.row.head.binding.kind == k
  }

  /** Identities are the ones their binding derives. */
  predicate KeysBound(outboxes: seq<Outbox>)
  {
    forall i :: 0 <= i < |outboxes| ==> KeyBound(outboxes[i])
  }

  predicate KeyBound(o: Outbox)
  {
    && o.row.head.binding.PresenceBinding?
    && Key(o) == PresenceOutboxId(o.row.head.binding.generation, o.row.head.binding.kind, o.row.head.binding.desiredSha,
                                  o.row.head.eventSha)
  }

  lemma {:induction false} VacantKind(outboxes: seq<Outbox>, g: nat, k: DocumentKind)
    requires Vacant(outboxes, g, k)
    ensures OfKind(outboxes, g, k) == []
  {
    if |outboxes| > 0 {
      VacantKind(outboxes[..|outboxes| - 1], g, k);
      assert !OfDocument(outboxes[|outboxes| - 1], g, k);
    }
  }

  lemma OfKindAppend(outboxes: seq<Outbox>, o: Outbox, g: nat, k: DocumentKind)
    ensures OfKind(outboxes + [o], g, k) == OfKind(outboxes, g, k) + if OfDocument(o, g, k) then [o] else []
  {
    assert (outboxes + [o])[..|outboxes|] == outboxes;
  }

  /** A derived inventory as the desired row records it. */
  predicate TargetsFit(docs: Documents)
  {
    && TargetsDerived(docs.targets) && 1 <= |docs.targets| <= MAX_TARGETS
    && docs.desired.targetCount == |docs.targets| && docs.desired.requiredCount == CountRequired(docs.targets)
    && TargetSetDigest(PRESENCE_TARGET_SET, docs.targets) == Some(docs.desired.targetSetSha)
  }

  lemma FreshInsertable(outboxes: seq<Outbox>, docs: Documents, d: Document, at: nat)
    requires TargetsFit(docs) && KeysBound(outboxes) && Vacant(outboxes, docs.desired.generation, d.kind)
    ensures Insertable(outboxes, OutboxFor(docs, d, at))
  {
    hide ValidRelayId, TargetSetDigest;
    var o := OutboxFor(docs, d, at);
    VacantKind(outboxes, docs.desired.generation, d.kind);
    CountBounded(docs.targets);
    forall i | 0 <= i < |outboxes| ensures Key(outboxes[i]) != Key(o) {
      assert KeyBound(outboxes[i]) && !OfDocument(outboxes[i], docs.desired.generation, d.kind);
    }
  }

  lemma FreshMatches(docs: Documents, d: Document, at: nat)
    requires TargetsFit(docs)
    ensures var o := OutboxFor(docs, d, at);
            && SameCommitted(docs, d, o) && TargetsValid(o.row.head, o.targets) && KeyBound(o)
            && forall g, k :: OfDocument(o, g, k) <==> g == docs.desired.generation && k == d.kind
  {
    hide ValidRelayId, TargetSetDigest;
    assert Specs(OutboxFor(docs, d, at).targets) == docs.targets;
  }

  /** The documents of a set are the expected kinds, each at most once. */
  predicate KindsFit(docs: Documents)
  {
    && 1 <= |docs.documents| <= 2
    && (|docs.documents| == 2 ==> docs.documents[0].kind.ServiceProfile? && docs.documents[1].kind.ApplicationHandler?)
  }

  /** Into a store without this generation, a fitting document set inserts and matches. */
  lemma InsertsAndMatches(outboxes: seq<Outbox>, docs: Documents, at: nat)
    requires TargetsFit(docs) && KindsFit(docs) && KeysBound(outboxes)
    requires forall k :: Vacant(outboxes, docs.desired.generation, k)
    requires forall i :: 0 <= i < |docs.documents| ==> docs.documents[i].createdAt <= MAX_I64
    ensures InsertDocuments(outboxes, docs, 0, at).Ok?
    ensures GenerationMatches(docs, OfGeneration(InsertDocuments(outboxes, docs, 0, at).value,
            docs.desired.generation)) == Ok(true)
  {
    hide TargetsFit, OutboxFor, Insertable, OfKind, SameCommitted, TargetsValid, KeyBound, OfDocument, Vacant;
    var g, d := docs.desired.generation, docs.documents[0];
    var o := OutboxFor(docs, d, at);
    FreshInsertable(outboxes, docs, d, at);
    FreshMatches(docs, d, at);
    KindsAppend(outboxes, o, g);
    VacantKind(outboxes, g, ServiceProfile);
    VacantKind(outboxes, g, ApplicationHandler);
    if |docs.documents| == 2 {
      var e := docs.documents[1];
      var p := OutboxFor(docs, e, at);
      StillVacant(outboxes, o, g, d.kind, e.kind);
      FreshInsertable(outboxes + [o], docs, e, at);
      FreshMatches(docs, e, at);
      KindsAppend(outboxes + [o], p, g);
      assert InsertDocuments(outboxes + [o] + [p], docs, 2, at) == Ok(outboxes + [o] + [p]);
      assert InsertDocuments(outboxes + [o], docs, 1, at) == Ok(outboxes + [o] + [p]);
      assert OfGeneration(outboxes + [o] + [p], g) == [o, p];
      PairMatches(docs, [o, p]);
    } else {
      assert OfGeneration(outboxes + [o], g) == [o] by { OneKind(outboxes + [o], o, g, d.kind); }
      PairMatches(docs, [o]);
    }
  }

  lemma KindsAppend(outboxes: seq<Outbox>, o: Outbox, g: nat)
    ensures forall k :: OfKind(outboxes + [o], g, k) == OfKind(outboxes, g, k) + if OfDocument(o, g, k) then [o] else []
  {
    forall k ensures OfKind(outboxes + [o], g, k) == OfKind(outboxes, g, k) + if OfDocument(o, g, k) then [o] else [] {
      OfKindAppend(outboxes, o, g, k);
    }
  }

  lemma StillVacant(outboxes: seq<Outbox>, o: Outbox, g: nat, k: DocumentKind, other: DocumentKind)
    requires Vacant(outboxes, g, other) && KeyBound(o) && KeysBound(outboxes) && !OfDocument(o, g, other)
    ensures Vacant(outboxes + [o], g, other) && KeysBound(outboxes + [o])
  {
  }

  lemma OneKind(outboxes: seq<Outbox>, o: Outbox, g: nat, k: DocumentKind)
    requires forall m :: OfKind(outboxes, g, m) == if m == k then [o] else []
    ensures OfGeneration(outboxes, g) == [o]
  {
    hide OfKind;
    assert OfKind(outboxes, g, ServiceProfile) + OfKind(outboxes, g, ApplicationHandler) == [o];
  }

  lemma PairMatches(docs: Documents, current: seq<Outbox>)
    requires |current| == |docs.documents|
    requires forall i :: 0 <= i < |current| ==>
               SameCommitted(docs, docs.documents[i], current[i])
                 && TargetsValid(current[i].row.head, current[i].targets)
    ensures GenerationMatches(docs, current) == Ok(true)
  {
    hide SameCommitted, TargetsValid;
  }

  lemma SetFits(v: Verifier, a: Authority, g: nat, docs: Documents)
    requires Derived(a) && a.mode.Enabled? && DocumentSetError(v, docs, DesiredRow(a, g)).None?
    requires forall i :: 0 <= i < |docs.targets| ==> SpecFits(docs.targets[i])
    ensures TargetsFit(docs) && KindsFit(docs) && docs.desired == DesiredRow(a, g)
  {
    hide TargetsFit, KindsFit, Derived, DocumentSetError;
    SetTargetsFit(v, a, g, docs);
    SetKindsFit(v, a, g, docs);
  }

  lemma SetTargetsFit(v: Verifier, a: Authority, g: nat, docs: Documents)
    requires Derived(a) && a.mode.Enabled? && DocumentSetError(v, docs, DesiredRow(a, g)).None?
    requires forall i :: 0 <= i < |docs.targets| ==> SpecFits(docs.targets[i])
    ensures TargetsFit(docs) && docs.desired == DesiredRow(a, g)
  {
    hide TargetsDerived, TargetSetDigest, DesiredPreimage, SpecFits, DocumentVerifies;
    DerivedFits(a);
    TargetSetDigestInjective(PRESENCE_TARGET_SET, docs.targets, a.targets);
  }

  lemma SetKindsFit(v: Verifier, a: Authority, g: nat, docs: Documents)
    requires Derived(a) && a.mode.Enabled? && DocumentSetError(v, docs, DesiredRow(a, g)).None?
    ensures KindsFit(docs)
  {
    hide TargetsDerived, TargetSetDigest, DesiredPreimage;
    var kinds := DocumentKinds(DesiredRow(a, g));
    assert forall i :: 0 <= i < |kinds| ==> DocumentVerifies(v, docs.publicKey, docs.documents[i], kinds[i]);
    hide Derived;
    assert |kinds| == 2 ==> kinds == [ServiceProfile, ApplicationHandler];
  }

  lemma {:induction false} InsertedTimes(outboxes: seq<Outbox>, docs: Documents, n: nat, at: nat)
    requires n <= |docs.documents| && InsertDocuments(outboxes, docs, n, at).Ok?
    ensures forall i :: n <= i < |docs.documents| ==> docs.documents[i].createdAt <= MAX_I64
    decreases |docs.documents| - n
  {
    hide Insertable, OutboxFor;
    if n < |docs.documents| {
      InsertedTimes(outboxes + [OutboxFor(docs, docs.documents[n], at)], docs, n + 1, at);
    }
  }

  lemma SupersededVacant(v: Verifier, s: Store, g: nat, at: nat)
    requires StoreInv(v, s) && OfGeneration(s.outboxes, g) == []
    ensures var kept := SupersedeAll(s.outboxes, g, at);
            KeysBound(kept) && forall k :: Vacant(kept, g, k)
  {
    hide StoreInv, OutboxInv, OutboxOk, OfKind, KeyBound, Decodes, TargetsValid, DesiredOk, OfDocument, Generation;
    AllPresenceOf(v, s);
    NoneOfGeneration(v, s.outboxes, g);
    var kept := SupersedeAll(s.outboxes, g, at);
    forall i | 0 <= i < |kept| ensures KeyBound(kept[i]) && forall k :: !OfDocument(kept[i], g, k) {
      At(v, s, i);
      BoundKey(v, s.outboxes[i], s.log);
      SupersededHead(s.outboxes[i], g, at);
    }
  }

  lemma BoundKey(v: Verifier, o: Outbox, log: seq<Attempt>)
    requires OutboxOk(v, o, log)
    ensures KeyBound(o)
  {
    hide OutboxInv;
  }

  lemma SupersededHead(o: Outbox, g: nat, at: nat)
    requires KeyBound(o) && Generation(o) != g
    ensures KeyBound(Supersede(o, g, at)) && forall k :: !OfDocument(Supersede(o, g, at), g, k)
  {
  }

  /**
   * A valid set for a generation not committed yet commits exactly when every document is
   * newer than all of its kind, its time is storable and no lease is out.
   */
  lemma CommitDecides(v: Verifier, s: Store, a: Authority, g: nat, docs: Documents, at: nat)
    requires StoreInv(v, s) && Derived(a) && a.mode.Enabled? && s.desired == Some(DesiredRow(a, g))
    requires DocumentSetError(v, docs, DesiredRow(a, g)).None? && OfGeneration(s.outboxes, g) == []
    requires forall i :: 0 <= i < |docs.targets| ==> SpecFits(docs.targets[i])
    ensures CommitSigned(s, v, docs, at).Ok? <==>
            && (forall i :: 0 <= i < |docs.documents| ==>
                  NewerThanAll(s.outboxes, docs.documents[i]) && docs.documents[i].createdAt <= MAX_I64)
            && (forall i :: 0 <= i < |s.outboxes| ==> !s.outboxes[i].row.state.Leased?)
  {
    hide StoreInv, Derived, TargetsFit, KindsFit, DocumentSetError, OfGeneration, NewerThanAll, DesiredRowOk,
         CommitSigned, CommitFresh, SpecFits, Generation;
    SetFits(v, a, g, docs);
    DesiredReads(v, s);
    AllPresenceOf(v, s);
    NoneOfGeneration(v, s.outboxes, g);
    CommitUnfolds(v, s, docs, at);
    FreshDecides(v, s, docs, at);
  }

  lemma CommitUnfolds(v: Verifier, s: Store, docs: Documents, at: nat)
    requires ReadDesired(s) == Ok(docs.desired) && DocumentSetError(v, docs, docs.desired).None?
             && docs.desired.mode.Enabled?
    requires OfGeneration(s.outboxes, docs.desired.generation) == []
             && !HasGeneration(s.outboxes, docs.desired.generation)
    ensures CommitSigned(s, v, docs, at).Ok? <==>
            && (forall i :: 0 <= i < |docs.documents| ==> NewerThanAll(s.outboxes, docs.documents[i]))
            && (forall i :: 0 <= i < |s.outboxes| ==> !s.outboxes[i].row.state.Leased?)
            && CommitFresh(s, docs, docs.desired, at).Ok?
  {
    hide DocumentSetError, OfGeneration, NewerThanAll, CommitFresh, ReadDesired, Decodes;
  }

  lemma FreshDecides(v: Verifier, s: Store, docs: Documents, at: nat)
    requires StoreInv(v, s) && TargetsFit(docs) && KindsFit(docs)
             && OfGeneration(s.outboxes, docs.desired.generation) == []
    ensures CommitFresh(s, docs, docs.desired, at).Ok? <==>
            forall i :: 0 <= i < |docs.documents| ==> docs.documents[i].createdAt <= MAX_I64
  {
    hide StoreInv, TargetsFit, KindsFit, OfGeneration, GenerationMatches, InsertDocuments, KeysBound, Vacant,
         SupersedeAll;
    var kept := SupersedeAll(s.outboxes, docs.desired.generation, at);
    SupersededVacant(v, s, docs.desired.generation, at);
    if InsertDocuments(kept, docs, 0, at).Ok? {
      InsertedTimes(kept, docs, 0, at);
    }
    if forall i :: 0 <= i < |docs.documents| ==> docs.documents[i].createdAt <= MAX_I64 {
      InsertsAndMatches(kept, docs, at);
    }
  }

  lemma DesiredReads(v: Verifier, s: Store)
    requires StoreInv(v, s) && s.desired.Some?
    ensures ReadDesired(s) == Ok(s.desired.value)
  {
    assert AllDesired(s.desired, s.outboxes);
    hide StoreInv;
  }

  lemma AllPresenceOf(v: Verifier, s: Store)
    requires StoreInv(v, s)
    ensures forall i :: 0 <= i < |s.outboxes| ==> s.outboxes[i].row.head.binding.PresenceBinding?
  {
    assert AllOk(v, s.outboxes, s.log);
    hide StoreInv;
    AllPresence(v, s.outboxes, s.log);
  }

  // ------------------------------------------------------------------ claims

  /** A claim takes the oldest due outbox unless the clock is behind its last update or at the end of time. */
  lemma ClaimDecides(v: Verifier, s: Store, owner: Owner, now: nat)
    requires StoreInv(v, s)
    ensures var picked := OldestClaimable(s, v, now, |s.outboxes|);
            var r := ClaimNext(s, v, owner, now);
            && (picked.None? ==> r == Ok(Step(s, None)))
            && (picked.Some? ==> (r.Ok? && r.value.value.Some? <==>
                                  s.outboxes[picked.value].row.updatedAt <= now && now + 15_000 <= MAX_I64))
  {
    hide StoreInv, OutboxInv, OutboxOk, Decodes, TargetsValid, StaleError, DesiredOk, DesiredRowOk;
    if OldestClaimable(s, v, now, |s.outboxes|).Some? {
      var i := OldestClaimable(s, v, now, |s.outboxes|).value;
      At(v, s, i);
      PresencePolicy(v, s.outboxes[i], s.log);
      StaleDecides(s, s.outboxes[i]);
    }
  }

  // ------------------------------------------------------------------ from an empty store to the first exposure

  function FirstDelivery(a: Authority, docs: Documents, owner: Owner, at: nat): seq<Action>
  {
    [BindConfig(ConfigBinding(a.configurationSha, a.publicKey)), SetDesired(a), Commit(docs, at), Claim(owner, at),
      Prepare(0, at)]
  }

  lemma RunStep(v: Verifier, w: World, actions: seq<Action>, x: Action)
    ensures Run(v, w, actions + [x]) == Next(v, Run(v, w, actions), x)
  {
    assert (actions + [x])[..|actions|] == actions;
  }

  lemma RunsOneByOne(v: Verifier, a: Authority, docs: Documents, owner: Owner, at: nat)
    ensures var w1 := Next(v, START, BindConfig(ConfigBinding(a.configurationSha, a.publicKey)));
            var w2 := Next(v, w1, SetDesired(a));
            var w3 := Next(v, w2, Commit(docs, at));
            var w4 := Next(v, w3, Claim(owner, at));
            Reach(v, FirstDelivery(a, docs, owner, at)) == Next(v, w4, Prepare(0, at))
  {
    hide Next;
    var x1, x2, x3 := BindConfig(ConfigBinding(a.configurationSha, a.publicKey)), SetDesired(a), Commit(docs, at);
    var x4, x5 := Claim(owner, at), Prepare(0, at);
    RunStep(v, START, [], x1);
    RunStep(v, START, [x1], x2);
    RunStep(v, START, [x1, x2], x3);
    RunStep(v, START, [x1, x2, x3], x4);
    RunStep(v, START, [x1, x2, x3, x4], x5);
    assert [] + [x1] == [x1] && [x1] + [x2] == [x1, x2] && [x1, x2] + [x3] == [x1, x2, x3];
    assert [x1, x2, x3] + [x4] == [x1, x2, x3, x4] && [x1, x2, x3, x4] + [x5] == [x1, x2, x3, x4, x5];
  }

  /** The first two actions store generation 1 of the authority. */
  lemma DesiredStored(v: Verifier, a: Authority)
    requires Derived(a)
    ensures var c := ConfigBinding(a.configurationSha, a.publicKey);
            var w := Next(v, Next(v, START, BindConfig(c)), SetDesired(a));
            w == World(Store(Some(c), Some(DesiredRow(a, 1)), [], []), [], [], []) && WorldInv(v, w)
  {
    hide Derived, DesiredRowOk, WorldInv;
    DerivedRowOk(a, 1);
    StartInv(v);
    var c := ConfigBinding(a.configurationSha, a.publicKey);
    NextInv(v, START, BindConfig(c));
    NextInv(v, Next(v, START, BindConfig(c)), SetDesired(a));
  }

  /** The commit leaves fresh, due outboxes holding the documents' bytes. */
  lemma CommitLeavesDue(v: Verifier, s: Store, docs: Documents, at: nat)
    requires s.outboxes == [] && CommitSigned(s, v, docs, at).Ok? && s.desired == Some(docs.desired)
    requires |docs.documents| > 0
    ensures var s' := CommitSigned(s, v, docs, at).value.store;
            && s'.desired == s.desired && |s'.outboxes| == |docs.documents|
            && forall i :: 0 <= i < |s'.outboxes| ==> s'.outboxes[i] == OutboxFor(docs, docs.documents[i], at)
  {
    hide DocumentSetError, GenerationMatches, NewerThanAll, OutboxFor, DesiredRowOk, Insertable;
    var d := docs.desired;
    assert SupersedeAll(s.outboxes, d.generation, at) == [];
    assert OfGeneration(s.outboxes, d.generation) == [];
    InsertedFresh([], docs, 0, at);
  }

  lemma {:induction false} InsertedFresh(outboxes: seq<Outbox>, docs: Documents, n: nat, at: nat)
    requires n <= |docs.documents| && |outboxes| == n && InsertDocuments(outboxes, docs, n, at).Ok?
    requires forall i :: 0 <= i < n ==> outboxes[i] == OutboxFor(docs, docs.documents[i], at)
    ensures var after := InsertDocuments(outboxes, docs, n, at).value;
            && |after| == |docs.documents|
            && forall i :: 0 <= i < |after| ==> after[i] == OutboxFor(docs, docs.documents[i], at)
    decreases |docs.documents| - n
  {
    hide Insertable, OutboxFor;
    if n < |docs.documents| {
      InsertedFresh(outboxes + [OutboxFor(docs, docs.documents[n], at)], docs, n + 1, at);
    }
  }

  lemma FreshClaimable(s: Store, docs: Documents, d: Document, at: nat)
    requires s.desired == Some(docs.desired)
    ensures Claimable(s, OutboxFor(docs, d, at), at)
    ensures OutboxFor(docs, d, at).row.updatedAt == at && OutboxFor(docs, d, at).row.head.exactBytes == d.bytes
  {
  }

  /** A committed document set on a store without other work is claimed at once, with one document's bytes. */
  lemma ClaimsCommitted(v: Verifier, s: Store, docs: Documents, owner: Owner, at: nat)
    requires StoreInv(v, s) && s.desired == Some(docs.desired) && |s.outboxes| == |docs.documents| > 0
    requires forall i :: 0 <= i < |s.outboxes| ==> s.outboxes[i] == OutboxFor(docs, docs.documents[i], at)
    requires at + 15_000 <= MAX_I64
    ensures var r := ClaimNext(s, v, owner, at);
            && r.Ok? && r.value.value.Some?
            && exists i :: 0 <= i < |docs.documents|
                           && r.value.value.value.outbox.row.head.exactBytes == docs.documents[i].bytes
  {
    hide StoreInv, OutboxFor, Claimable, ClaimNext;
    FreshClaimable(s, docs, docs.documents[0], at);
    var picked := OldestClaimable(s, v, at, |s.outboxes|);
    assert picked.Some?;
    FreshClaimable(s, docs, docs.documents[picked.value], at);
    ClaimDecides(v, s, owner, at);
    ClaimIssues(v, s, owner, at);
  }

  /**
   * From an empty store, binding a configuration, committing a derived desired state and its
   * valid documents, claiming and preparing always exposes the exact bytes of one document.
   */
  lemma FirstExposure(v: Verifier, a: Authority, docs: Documents, owner: Owner, at: nat)
    requires Derived(a) && a.mode.Enabled? && DocumentSetError(v, docs, DesiredRow(a, 1)).None?
    requires forall i :: 0 <= i < |docs.targets| ==> SpecFits(docs.targets[i])
    requires forall i :: 0 <= i < |docs.documents| ==> docs.documents[i].createdAt <= MAX_I64
    requires at + 15_000 <= MAX_I64
    ensures var w := Reach(v, FirstDelivery(a, docs, owner, at));
            && |w.exposures| == 1
            && exists i :: 0 <= i < |docs.documents| && w.exposures[0].prepared.exactBytes == docs.documents[i].bytes
  {
    hide WorldInv, StoreInv, Derived, DocumentSetError, TargetsFit, CommitSigned, ClaimNext, PrepareNext,
         CommitDesired, OutboxFor, NewerThanAll, OfGeneration, SpecFits, Evolves, Run, Issues, Prepares, FindDue,
         NoneSubmitted;
    var c := ConfigBinding(a.configurationSha, a.publicKey);
    var w2 := Next(v, Next(v, START, BindConfig(c)), SetDesired(a));
    var w3 := Next(v, w2, Commit(docs, at));
    var w4 := Next(v, w3, Claim(owner, at));
    RunsOneByOne(v, a, docs, owner, at);
    DesiredStored(v, a);
    StoreOf(v, w2);
    SetFits(v, a, 1, docs);
    EmptyStore(w2.store, docs, 1);
    CommitDecides(v, w2.store, a, 1, docs, at);
    CommitLeavesDue(v, w2.store, docs, at);
    NextInv(v, w2, Commit(docs, at));
    StoreOf(v, w3);
    ClaimsCommitted(v, w3.store, docs, owner, at);
    PreparesClaimed(v, w3, owner, at);
  }

  lemma EmptyStore(s: Store, docs: Documents, g: nat)
    requires s.outboxes == []
    ensures OfGeneration(s.outboxes, g) == []
    ensures forall i :: 0 <= i < |docs.documents| ==> NewerThanAll(s.outboxes, docs.documents[i])
  {
  }

  /** In any good world a successful claim, prepared at once by its only holder, exposes the leased bytes. */
  lemma PreparesClaimed(v: Verifier, w: World, owner: Owner, at: nat)
    requires WorldInv(v, w) && w.leases == [] && w.exposures == []
    requires ClaimNext(w.store, v, owner, at).Ok? && ClaimNext(w.store, v, owner, at).value.value.Some?
    ensures var lease := ClaimNext(w.store, v, owner, at).value.value.value;
            var w' := Next(v, Next(v, w, Claim(owner, at)), Prepare(0, at));
            |w'.exposures| == 1 && w'.exposures[0].prepared.exactBytes == lease.outbox.row.head.exactBytes
  {
    hide WorldInv, StoreInv, ClaimNext, PrepareNext, Issues, Prepares, FindDue, NoneSubmitted, Evolves;
    StoreOf(v, w);
    var s := w.store;
    var claimed := ClaimNext(s, v, owner, at).value;
    var lease := claimed.value.value;
    ClaimStep(v, s, owner, at);
    ClaimedLease(v, s, owner, at);
    ClaimIssues(v, s, owner, at);
    ClaimKeepsDesired(v, s, owner, at);
    var j := OldestClaimable(s, v, at, |s.outboxes|).value;
    IssuedFacts(s, claimed.store, j, lease);
    LeasePrepares(v, claimed.store, lease, j, at);
    var i, k := PrepareFacts(v, claimed.store, lease, at);
    PreparedBytes(claimed.store, PrepareNext(claimed.store, v, lease, at).value.store,
      PrepareNext(claimed.store, v, lease, at).value.value, i, k, at);
  }

  lemma PreparedBytes(s: Store, s': Store, p: Prepared, i: nat, k: nat, at: nat)
    requires Prepares(s, s', p, i, k, at)
    ensures p.exactBytes == p.lease.outbox.row.head.exactBytes
  {
    hide TargetIsDue;
  }

  // ------------------------------------------------------------------ stale work that a commit leaves behind

  /** Two generations: the second is committed at an instant before the first one's last update. */
  function EarlyCommit(a: Authority, docs: Documents, at: nat, b: Authority): seq<Action>
  {
    [BindConfig(ConfigBinding(a.configurationSha, a.publicKey)), SetDesired(a), Commit(docs, at),
     BindConfig(ConfigBinding(b.configurationSha, b.publicKey)), SetDesired(b)]
  }

  lemma EarlyRuns(v: Verifier, a: Authority, docs: Documents, at: nat, b: Authority)
    ensures var w1 := Next(v, START, BindConfig(ConfigBinding(a.configurationSha, a.publicKey)));
            var w3 := Next(v, Next(v, w1, SetDesired(a)), Commit(docs, at));
            var w4 := Next(v, w3, BindConfig(ConfigBinding(b.configurationSha, b.publicKey)));
            Reach(v, EarlyCommit(a, docs, at, b)) == Next(v, w4, SetDesired(b))
  {
    hide Next;
    var x1, x2, x3 := BindConfig(ConfigBinding(a.configurationSha, a.publicKey)), SetDesired(a), Commit(docs, at);
    var x4, x5 := BindConfig(ConfigBinding(b.configurationSha, b.publicKey)), SetDesired(b);
    RunStep(v, START, [], x1);
    RunStep(v, START, [x1], x2);
    RunStep(v, START, [x1, x2], x3);
    RunStep(v, START, [x1, x2, x3], x4);
    RunStep(v, START, [x1, x2, x3, x4], x5);
    assert [] + [x1] == [x1] && [x1] + [x2] == [x1, x2] && [x1, x2] + [x3] == [x1, x2, x3];
    assert [x1, x2, x3] + [x4] == [x1, x2, x3, x4] && [x1, x2, x3, x4] + [x5] == [x1, x2, x3, x4, x5];
  }

  /** A valid, storable set for one generation of a derived authority. */
  predicate GoodSet(v: Verifier, a: Authority, g: nat, docs: Documents)
  {
    && Derived(a) && a.mode.Enabled? && DocumentSetError(v, docs, DesiredRow(a, g)).None?
    && (forall i :: 0 <= i < |docs.targets| ==> SpecFits(docs.targets[i]))
    && (forall i :: 0 <= i < |docs.documents| ==> docs.documents[i].createdAt <= MAX_I64)
  }

  /** Every document of `next` is newer than every one of `docs` of its kind. */
  predicate NewerSet(docs: Documents, next: Documents)
  {
    forall i, j :: 0 <= i < |docs.documents| && 0 <= j < |next.documents|
                   && docs.documents[i].kind == next.documents[j].kind
      ==> docs.documents[i].createdAt < next.documents[j].createdAt
  }

  /** The store after generation 2 became desired: the first set, untouched. */
  ghost predicate SecondDesired(v: Verifier, s: Store, docs: Documents, at: nat, b: Authority)
  {
    && StoreInv(v, s) && s.desired == Some(DesiredRow(b, 2)) && |s.outboxes| == |docs.documents|
    && forall i :: 0 <= i < |s.outboxes| ==> s.outboxes[i] == OutboxFor(docs, docs.documents[i], at)
  }

  lemma SecondReached(v: Verifier, a: Authority, docs: Documents, at: nat, b: Authority)
    requires GoodSet(v, a, 1, docs) && Derived(b) && !SameIntent(a, b)
    ensures SecondDesired(v, Reach(v, EarlyCommit(a, docs, at, b)).store, docs, at, b)
    ensures docs.desired == DesiredRow(a, 1) && KindsFit(docs)
  {
    hide WorldInv, StoreInv, Derived, DocumentSetError, TargetsFit, CommitSigned, OutboxFor, NewerThanAll,
         OfGeneration, SpecFits, Evolves, SameIntent, KindsFit;
    var c, e := ConfigBinding(a.configurationSha, a.publicKey), ConfigBinding(b.configurationSha, b.publicKey);
    var w2 := Next(v, Next(v, START, BindConfig(c)), SetDesired(a));
    var w3 := Next(v, w2, Commit(docs, at));
    var w4 := Next(v, w3, BindConfig(e));
    EarlyRuns(v, a, docs, at, b);
    DesiredStored(v, a);
    StoreOf(v, w2);
    SetFits(v, a, 1, docs);
    EmptyStore(w2.store, docs, 1);
    CommitDecides(v, w2.store, a, 1, docs, at);
    assert |docs.documents| > 0 by { FitsSome(docs); }
    CommitLeavesDue(v, w2.store, docs, at);
    NextInv(v, w2, Commit(docs, at));
    NextInv(v, w3, BindConfig(e));
    NextInv(v, w4, SetDesired(b));
    StoreOf(v, Next(v, w4, SetDesired(b)));
    CommitDesiredDecides(w4.store, a, b, 1);
  }

  lemma FitsSome(docs: Documents)
    requires KindsFit(docs)
    ensures |docs.documents| > 0
  {
  }

  lemma OlderSet(s: Store, docs: Documents, at: nat, next: Documents)
    requires |s.outboxes| == |docs.documents| && docs.desired.generation == 1 && NewerSet(docs, next)
    requires forall i :: 0 <= i < |s.outboxes| ==> s.outboxes[i] == OutboxFor(docs, docs.documents[i], at)
    ensures OfGeneration(s.outboxes, 2) == []
    ensures forall j :: 0 <= j < |next.documents| ==> NewerThanAll(s.outboxes, next.documents[j])
    ensures forall i :: 0 <= i < |s.outboxes| ==>
              s.outboxes[i].row.state.Pending? && s.outboxes[i].row.updatedAt == at && Generation(s.outboxes[i]) == 1
  {
    hide OfKind;
    assert Vacant(s.outboxes, 2, ServiceProfile) && Vacant(s.outboxes, 2, ApplicationHandler);
    VacantKind(s.outboxes, 2, ServiceProfile);
    VacantKind(s.outboxes, 2, ApplicationHandler);
  }

  /**
   * For any two good, differing generations, committing the second at an instant before the
   * first one's rows were written succeeds and leaves all of them Pending, stale and fenced.
   */
  lemma EarlyCommitLeavesPending(v: Verifier, a: Authority, docs: Documents, at: nat, b: Authority, next: Documents,
                                 early: nat)
    requires GoodSet(v, a, 1, docs) && GoodSet(v, b, 2, next) && !SameIntent(a, b) && NewerSet(docs, next) && early < at
    ensures var s := Reach(v, EarlyCommit(a, docs, at, b)).store;
            && CommitSigned(s, v, next, early).Ok?
            && var s' := CommitSigned(s, v, next, early).value.store;
               && |s.outboxes| == |docs.documents| > 0 && |s'.outboxes| == |docs.documents| + |next.documents|
               && forall i :: 0 <= i < |s.outboxes| ==>
                    s'.outboxes[i].row.state.Pending? && Generation(s'.outboxes[i]) < DesiredGeneration(s')
  {
    hide WorldInv, StoreInv, Derived, DocumentSetError, CommitSigned, OutboxFor, NewerThanAll, OfGeneration, SpecFits,
         KindsFit, SameIntent, NewerSet, Reach, EarlyCommit, Generation;
    SecondReached(v, a, docs, at, b);
    FitsSome(docs);
    var actions := EarlyCommit(a, docs, at, b);
    var s := Reach(v, actions).store;
    OlderSet(s, docs, at, next);
    SetFits(v, b, 2, next);
    CommitDecides(v, s, b, 2, next, early);
    var s' := CommitSigned(s, v, next, early).value.store;
    CommittedDesired(v, s, next, early);
    CommitSupersedes(v, actions, next, early, 0);
    forall i | 0 <= i < |s.outboxes|
      ensures s'.outboxes[i].row.state.Pending? && Generation(s'.outboxes[i]) < DesiredGeneration(s')
    {
      CommitSupersedes(v, actions, next, early, i);
      SupersededOrPending(v, s, next, early, i);
    }
  }

  lemma CommittedDesired(v: Verifier, s: Store, docs: Documents, at: nat)
    requires CommitSigned(s, v, docs, at).Ok?
    ensures CommitSigned(s, v, docs, at).value.store.desired == s.desired
  {
    hide Decodes, DocumentSetError, GenerationMatches, OfGeneration, NewerThanAll, InsertDocuments, SupersedeAll;
  }

  /** A row the supersession passes over keeps its state. */
  lemma SupersededOrPending(v: Verifier, s: Store, docs: Documents, at: nat, i: nat)
    requires CommitSigned(s, v, docs, at).Ok? && i < |s.outboxes| && s.outboxes[i].row.state.Pending?
    requires at < s.outboxes[i].row.updatedAt
    ensures i < |CommitSigned(s, v, docs, at).value.store.outboxes|
    ensures CommitSigned(s, v, docs, at).value.store.outboxes[i].row.state.Pending?
  {
    hide Decodes, DocumentSetError, GenerationMatches, OfGeneration, NewerThanAll, InsertDocuments, DesiredRowOk;
    var d := s.desired.value;
    if InsertDocuments(SupersedeAll(s.outboxes, d.generation, at), docs, 0, at).Ok? {
      InsertOnlyAppends(SupersedeAll(s.outboxes, d.generation, at), docs, 0, at);
    }
  }
}
