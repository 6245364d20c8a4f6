/** Deriving the desired presence state from configuration, and what a commit of it decides. */
module PresenceDesired {
  import opened Prelude
  import opened Encoding
  import opened Digests
  import opened Delivery
  import opened DeliveryInvariant
  import opened Presence

  /** A configured relay; absent or ill-typed members are `None`. */
  datatype Relay = Relay(id: Option<Bytes>, write: Option<bool>, required: Option<bool>)

  datatype DesiredConfig = DesiredConfig(
    configurationSha: Digest, publicKey: Option<Bytes>, enabled: Option<bool>, profile: Option<bool>,
    handler: Option<bool>, queue: Option<nat>, targetIds: Option<seq<Option<Bytes>>>, relays: Option<seq<Relay>>)

  datatype DeriveError = InvalidConfiguration | TargetInventory

  const DESIRED_STATE := "radroots.rhi.presence_desired_state.v1"

  // ------------------------------------------------------------------ targets

  function FindRelay(relays: seq<Relay>, id: Bytes, i: nat := 0): (r: Option<nat>)
    requires i <= |relays|
    ensures r.Some? ==> i <= r.value < |relays| && relays[r.value].id == Some(id)
    ensures r.Some? ==> forall k :: i <= k < r.value ==> relays[k].id != Some(id)
    ensures r.None? ==> forall k :: i <= k < |relays| ==> relays[k].id != Some(id)
    decreases |relays| - i
  {
    if i == |relays| then None else if relays[i].id == Some(id) then Some(i) else FindRelay(relays, id, i + 1)
  }

  /** The next target, or `None` when its identity is invalid, repeated, unknown or not writable. */
  function DeriveTarget(relays: seq<Relay>, done: seq<TargetSpec>, id: Option<Bytes>): Option<TargetSpec>
  {
    if id.None? || !ValidRelayId(id.value) || (exists k :: 0 <= k < |done| && done[k].relayId == id.value)
       || FindRelay(relays, id.value).None?
    then None
    else
      var relay := relays[FindRelay(relays, id.value).value];
      if relay.write != Some(true) || |done| >= 256 || relay.required.None? then None
      else Some(TargetSpec(|done|, id.value, relay.required.value))
  }

  function DeriveList(ids: seq<Option<Bytes>>, relays: seq<Relay>): Option<seq<TargetSpec>>
  {
    if |ids| == 0 then Some([])
    else match DeriveList(ids[..|ids| - 1], relays)
      case None => None
      case Some(done) =>
        match DeriveTarget(relays, done, ids[|ids| - 1])
        case None => None
        case Some(t) => Some(done + [t])
  }

  lemma {:induction false} ListStops(ids: seq<Option<Bytes>>, relays: seq<Relay>, n: nat)
    requires n <= |ids| && DeriveList(ids[..n], relays).None?
    ensures DeriveList(ids, relays).None?
    decreases |ids| - n
  {
    hide DeriveTarget;
    if n < |ids| {
      assert ids[..n + 1][..n] == ids[..n];
      ListStops(ids, relays, n + 1);
    } else {
      assert ids[..n] == ids;
    }
  }

  /** What a derived target list promises, whatever the configuration. */
  predicate TargetsDerived(ts: seq<TargetSpec>)
  {
    && (forall i :: 0 <= i < |ts| ==> ts[i].ordinal == i && ValidRelayId(ts[i].relayId))
    && (forall i, j :: 0 <= i < j < |ts| ==> ts[i].relayId != ts[j].relayId)
  }

  /** Targets follow the configured order, and each is the first relay of that name, writable. */
  predicate TargetsNamed(ids: seq<Option<Bytes>>, relays: seq<Relay>, ts: seq<TargetSpec>)
  {
    |ts| == |ids| && forall i :: 0 <= i < |ts| ==> ids[i] == Some(ts[i].relayId) && Named(relays, ts[i])
  }

  predicate Named(relays: seq<Relay>, t: TargetSpec)
  {
    exists k :: 0 <= k < |relays| && relays[k] == Relay(Some(t.relayId), Some(true), Some(t.required))
                && forall j :: 0 <= j < k ==> relays[j].id != Some(t.relayId)
  }

  lemma {:induction false} ListDerived(ids: seq<Option<Bytes>>, relays: seq<Relay>)
    ensures DeriveList(ids, relays).Some? ==>
              TargetsDerived(DeriveList(ids, relays).value) && TargetsNamed(ids, relays, DeriveList(ids, relays).value)
  {
    hide ValidRelayId;
    if |ids| > 0 && DeriveList(ids, relays).Some? {
      ListDerived(ids[..|ids| - 1], relays);
      var done := DeriveList(ids[..|ids| - 1], relays).value;
      var t := DeriveTarget(relays, done, ids[|ids| - 1]).value;
      assert Named(relays, t) by {
        assert relays[FindRelay(relays, t.relayId).value] == Relay(Some(t.relayId), Some(true), Some(t.required));
      }
      hide Named;
    }
  }

  /** The derivation loop over the configured identities. */
  method DeriveTargets(ids: seq<Option<Bytes>>, relays: seq<Relay>) returns (r: Option<seq<TargetSpec>>)
    ensures r == DeriveList(ids, relays)
    ensures r.Some? ==> TargetsDerived(r.value) && TargetsNamed(ids, relays, r.value)
  {
    hide DeriveTarget, TargetsDerived, TargetsNamed;
    ListDerived(ids, relays);
    var targets: seq<TargetSpec> := [];
    var i := 0;
    while i < |ids|
      invariant 0 <= i <= |ids|
      invariant DeriveList(ids[..i], relays) == Some(targets)
    {
      assert ids[..i + 1][..i] == ids[..i];
      var t := DeriveTarget(relays, targets, ids[i]);
      if t.None? {
        ListStops(ids, relays, i + 1);
        return None;
      }
      targets := targets + [t.value];
      i := i + 1;
    }
    assert ids[..i] == ids;
    r := Some(targets);
  }

  // ------------------------------------------------------------------ the authority

  function KindTag(k: DocumentKind): Byte { if k.ServiceProfile? then 0 else 1 }

  function EncodeKinds(ks: seq<DocumentKind>): Bytes
  {
    if |ks| == 0 then [] else [KindTag(ks[0])] + EncodeKinds(ks[1..])
  }

  function DesiredPreimage(mode: Mode, kinds: seq<DocumentKind>, targets: seq<TargetSpec>, queue: nat, key: Bytes)
    : Bytes
  {
    Domain(DESIRED_STATE) + (Flag(mode.Enabled?) + (U32(|kinds|) + (EncodeKinds(kinds)
      + (EncodeTargetList(targets) + (U32(queue) + Framed(key))))))
  }

  function Derive(valid: Bytes -> bool, c: DesiredConfig): Result<Authority, DeriveError>
  {
    if c.publicKey.None? || !valid(c.publicKey.value) || c.enabled.None? || c.profile.None? || c.handler.None?
       || c.queue.None? || !(1 <= c.queue.value <= 4096)
    then Err(DeriveError.InvalidConfiguration)
    else if !c.enabled.value then
      if c.profile.value || c.handler.value || c.targetIds.Some? then Err(DeriveError.InvalidConfiguration)
      else Seal(c, Disabled, [], [], 0)
    else
      var kinds := (if c.profile.value then [ServiceProfile] else [])
        + (if c.handler.value then [ApplicationHandler] else []);
      if kinds == [] then Err(DeriveError.InvalidConfiguration)
      else if c.targetIds.None? || !(1 <= |c.targetIds.value| <= MAX_TARGETS) || c.relays.None?
        then Err(TargetInventory)
      else match DeriveList(c.targetIds.value, c.relays.value)
        case None => Err(TargetInventory)
        case Some(targets) => Seal(c, Enabled, kinds, targets, c.queue.value)
  }

  function Seal(c: DesiredConfig, mode: Mode, kinds: seq<DocumentKind>, targets: seq<TargetSpec>, queue: nat)
    : Result<Authority, DeriveError>
    requires c.publicKey.Some?
  {
    match TargetSetDigest(PRESENCE_TARGET_SET, targets)
    case None => Err(TargetInventory)
    case Some(d) =>
      Ok(Authority(c.configurationSha, c.publicKey.value, mode, kinds, targets, queue, d,
                   Sha256(DesiredPreimage(mode, kinds, targets, queue, c.publicKey.value))))
  }

  /** The facts a derived authority carries. */
  predicate Derived(a: Authority)
  {
    && Some(a.targetSetSha) == TargetSetDigest(PRESENCE_TARGET_SET, a.targets)
    && a.desiredSha == Sha256(DesiredPreimage(a.mode, a.kinds, a.targets, a.queueCapacity, a.publicKey))
    && |a.publicKey| < U64_LIMIT && TargetsDerived(a.targets) && |a.targets| <= MAX_TARGETS
    && (if a.mode.Enabled?
        then a.kinds in [[ServiceProfile], [ApplicationHandler], [ServiceProfile, ApplicationHandler]]
             && 1 <= |a.targets| && 1 <= a.queueCapacity <= 4096
        else a.kinds == [] && a.targets == [] && a.queueCapacity == 0)
  }

  lemma DeriveIsDerived(valid: Bytes -> bool, c: DesiredConfig)
    requires Derive(valid, c).Ok? && |c.publicKey.value| < U64_LIMIT
    ensures Derived(Derive(valid, c).value)
  {
    hide DesiredPreimage, ValidRelayId, TargetsNamed;
    if c.enabled.value {
      var none: seq<DocumentKind> := [];
      assert [ServiceProfile] + none == [ServiceProfile] && none + [ApplicationHandler] == [ApplicationHandler];
      assert [ServiceProfile] + [ApplicationHandler] == [ServiceProfile, ApplicationHandler];
      ListDerived(c.targetIds.value, c.relays.value);
      assert TargetsNamed(c.targetIds.value, c.relays.value, Derive(valid, c).value.targets);
      NamedLength(c.targetIds.value, c.relays.value, Derive(valid, c).value.targets);
    }
  }

  lemma NamedLength(ids: seq<Option<Bytes>>, relays: seq<Relay>, ts: seq<TargetSpec>)
    requires TargetsNamed(ids, relays, ts)
    ensures |ts| == |ids|
  {
  }

  // ------------------------------------------------------------------ one digest, one intent

  lemma {:induction false} CancelKinds(ks: seq<DocumentKind>, ls: seq<DocumentKind>, r: Bytes, s: Bytes)
    requires |ks| == |ls| && EncodeKinds(ks) + r == EncodeKinds(ls) + s
    ensures ks == ls && r == s
  {
    if |ks| == 0 {
      assert [] + r == r && [] + s == s;
    } else {
      Assoc([KindTag(ks[0])], EncodeKinds(ks[1..]), r);
      Assoc([KindTag(ls[0])], EncodeKinds(ls[1..]), s);
      Cancel([KindTag(ks[0])], [KindTag(ls[0])], EncodeKinds(ks[1..]) + r, EncodeKinds(ls[1..]) + s);
      assert [KindTag(ks[0])][0] == [KindTag(ls[0])][0];
      CancelKinds(ks[1..], ls[1..], r, s);
      assert ks == [ks[0]] + ks[1..] && ls == [ls[0]] + ls[1..];
    }
  }

  predicate SameIntent(a: Authority, b: Authority)
  {
    a.mode == b.mode && a.kinds == b.kinds && a.targets == b.targets && a.queueCapacity == b.queueCapacity
      && a.publicKey == b.publicKey
  }

  predicate Fits(a: Authority)
  {
    && |a.kinds| < U32_LIMIT && |a.targets| < U32_LIMIT && a.queueCapacity < U32_LIMIT && |a.publicKey| < U64_LIMIT
    && forall i :: 0 <= i < |a.targets| ==> SpecFits(a.targets[i])
  }

  /** Equal desired-state preimages come from equal intents, for lists of any encodable length. */
  lemma DesiredDigestInjective(a: Authority, b: Authority)
    requires Fits(a) && Fits(b)
    requires DesiredPreimage(a.mode, a.kinds, a.targets, a.queueCapacity, a.publicKey)
             == DesiredPreimage(b.mode, b.kinds, b.targets, b.queueCapacity, b.publicKey)
    ensures SameIntent(a, b)
  {
    hide Domain, Flag, U32, Framed, EncodeKinds, EncodeTargetList;
    var d := Domain(DESIRED_STATE);
    var a4, b4 := U32(a.queueCapacity) + Framed(a.publicKey), U32(b.queueCapacity) + Framed(b.publicKey);
    var a3, b3 := EncodeTargetList(a.targets) + a4, EncodeTargetList(b.targets) + b4;
    var a2, b2 := EncodeKinds(a.kinds) + a3, EncodeKinds(b.kinds) + b3;
    Cancel(d, d, Flag(a.mode.Enabled?) + (U32(|a.kinds|) + a2), Flag(b.mode.Enabled?) + (U32(|b.kinds|) + b2));
    CancelFlag(a.mode.Enabled?, b.mode.Enabled?, U32(|a.kinds|) + a2, U32(|b.kinds|) + b2);
    CancelU32(|a.kinds|, |b.kinds|, a2, b2);
    CancelKinds(a.kinds, b.kinds, a3, b3);
    CancelTargetList(a.targets, b.targets, a4, b4);
    CancelU32(a.queueCapacity, b.queueCapacity, Framed(a.publicKey), Framed(b.publicKey));
    assert Framed(a.publicKey) + [] == Framed(a.publicKey) && Framed(b.publicKey) + [] == Framed(b.publicKey);
    CancelFramed(a.publicKey, b.publicKey, [], []);
  }

  lemma DerivedFits(a: Authority)
    requires Derived(a)
    ensures Fits(a)
  {
    hide DesiredPreimage, TargetSetDigest;
    assert |a.kinds| <= 2;
    forall i | 0 <= i < |a.targets| ensures SpecFits(a.targets[i]) {
      assert ValidRelayId(a.targets[i].relayId);
    }
  }

  lemma DerivedRowOk(a: Authority, g: nat)
    requires Derived(a) && 1 <= g <= MAX_I64
    ensures DesiredRowOk(DesiredRow(a, g))
  {
    hide DesiredPreimage, TargetSetDigest, TargetsDerived;
    CountBounded(a.targets);
    if a.mode.Enabled? {
      assert a.kinds[0] in a.kinds;
    }
  }

  /** A stored row matches an authority exactly when it was derived from the same intent. */
  lemma MatchesIffSameIntent(a: Authority, b: Authority, g: nat)
    requires Derived(a) && Derived(b)
    ensures MatchesAuthority(DesiredRow(a, g), b) <==> SameIntent(a, b)
    ensures a.desiredSha == b.desiredSha <==> SameIntent(a, b)
  {
    DerivedFits(a);
    DerivedFits(b);
    hide DesiredPreimage, TargetSetDigest, TargetsDerived;
    if a.desiredSha == b.desiredSha {
      DesiredDigestInjective(a, b);
    }
  }

  /**
   * Committing a derived authority over a row derived from another: the same intent is a silent
   * replay, a different one advances the generation by exactly one, and no storage check fails.
   */
  lemma CommitDesiredDecides(s: Store, a: Authority, b: Authority, g: nat)
    requires Derived(a) && Derived(b) && 1 <= g < MAX_I64
    requires s.desired == Some(DesiredRow(a, g)) && s.config == Some(ConfigBinding(b.configurationSha, b.publicKey))
    ensures CommitDesired(s, b) ==
            if SameIntent(a, b) then Ok(Step(s, DesiredOutcome(DesiredRow(a, g), false)))
            else Ok(Step(s.(desired := Some(DesiredRow(b, g + 1))), DesiredOutcome(DesiredRow(b, g + 1), true)))
  {
    hide Derived, DesiredRowOk;
    MatchesIffSameIntent(a, b, g);
    DerivedRowOk(b, g + 1);
  }

  // ------------------------------------------------------------------ which configurations derive, and what they store

  /** The relay a target identity names: the first of that identity. */
  predicate FirstNamed(relays: seq<Relay>, id: Bytes, k: nat)
  {
    k < |relays| && relays[k].id == Some(id) && forall j :: 0 <= j < k ==> relays[j].id != Some(id)
  }

  predicate Writable(r: Relay) { r.write == Some(true) && r.required.Some? }

  /** The identity is well formed and its relay is writable with a stated requirement. */
  predicate Usable(relays: seq<Relay>, id: Option<Bytes>)
  {
    && id.Some? && ValidRelayId(id.value)
    && exists k :: 0 <= k < |relays| && FirstNamed(relays, id.value, k) && Writable(relays[k])
  }

  predicate AllUsable(ids: seq<Option<Bytes>>, relays: seq<Relay>)
  {
    && (forall i :: 0 <= i < |ids| ==> Usable(relays, ids[i]))
    && (forall i, j :: 0 <= i < j < |ids| ==> ids[i] != ids[j])
  }

  lemma TargetDecides(relays: seq<Relay>, done: seq<TargetSpec>, id: Option<Bytes>)
    requires |done| < 256
    ensures DeriveTarget(relays, done, id).Some? <==>
            Usable(relays, id) && forall k :: 0 <= k < |done| ==> Some(done[k].relayId) != id
  {
    hide ValidRelayId;
    if id.Some? && FindRelay(relays, id.value).Some? {
      assert FirstNamed(relays, id.value, FindRelay(relays, id.value).value);
    }
    if Usable(relays, id) {
      var k :| 0 <= k < |relays| && FirstNamed(relays, id.value, k) && Writable(relays[k]);
      var j := FindRelay(relays, id.value).value;
      assert j == k;
    }
  }

  lemma UsableAppend(ids: seq<Option<Bytes>>, relays: seq<Relay>)
    requires |ids| >= 1
    ensures var n := |ids| - 1;
            AllUsable(ids, relays) <==>
            AllUsable(ids[..n], relays) && Usable(relays, ids[n]) && forall i :: 0 <= i < n ==> ids[i] != ids[n]
  {
    hide Usable;
    var n := |ids| - 1;
    assert forall i :: 0 <= i < n ==> ids[..n][i] == ids[i];
    if AllUsable(ids, relays) {
      assert forall i :: 0 <= i < n ==> Usable(relays, ids[i]);
      assert forall i, j :: 0 <= i < j < n ==> ids[i] != ids[j];
    }
  }

  /** A target list derives exactly from usable, distinct identities. */
  lemma {:induction false} ListDecides(ids: seq<Option<Bytes>>, relays: seq<Relay>)
    requires |ids| <= 256
    ensures DeriveList(ids, relays).Some? <==> AllUsable(ids, relays)
  {
    hide DeriveTarget, Usable, AllUsable, TargetsDerived;
    if |ids| == 0 {
      assert AllUsable(ids, relays) by { NoneToUse(relays, ids); }
    } else {
      var n := |ids| - 1;
      ListDecides(ids[..n], relays);
      UsableAppend(ids, relays);
      if DeriveList(ids[..n], relays).Some? {
        var done := DeriveList(ids[..n], relays).value;
        ListDerived(ids[..n], relays);
        TargetDecides(relays, done, ids[n]);
        assert forall i :: 0 <= i < n ==> ids[i] == ids[..n][i] == Some(done[i].relayId);
      }
    }
  }

  lemma NoneToUse(relays: seq<Relay>, ids: seq<Option<Bytes>>)
    requires ids == []
    ensures AllUsable(ids, relays)
  {
  }

  /** The configurations an authority derives from. */
  predicate Derivable(valid: Bytes -> bool, c: DesiredConfig)
  {
    && c.publicKey.Some? && valid(c.publicKey.value) && c.enabled.Some? && c.profile.Some? && c.handler.Some?
    && c.queue.Some? && 1 <= c.queue.value <= 4096
    && if c.enabled.value
       then && (c.profile.value || c.handler.value) && c.targetIds.Some? && 1 <= |c.targetIds.value| <= 32
            && c.relays.Some? && AllUsable(c.targetIds.value, c.relays.value)
       else !c.profile.value && !c.handler.value && c.targetIds.None?
  }

  /** The authority a configuration means. */
  ghost predicate AuthorityIs(c: DesiredConfig, a: Authority)
    requires c.publicKey.Some? && c.enabled.Some? && c.profile.Some? && c.handler.Some? && c.queue.Some?
  {
    && a.configurationSha == c.configurationSha && a.publicKey == c.publicKey.value
    && (a.mode.Enabled? <==> c.enabled.value)
    && a.kinds == (if c.profile.value && c.handler.value then [ServiceProfile, ApplicationHandler]
                   else if c.profile.value then [ServiceProfile] else if c.handler.value then [ApplicationHandler]
                     else [])
    && (if c.enabled.value
        then c.targetIds.Some? && c.relays.Some? && TargetsNamed(c.targetIds.value, c.relays.value, a.targets)
             && a.queueCapacity == c.queue.value
        else a.targets == [] && a.queueCapacity == 0)
  }

  /** An authority derives exactly from these configurations, and is the one they mean. */
  lemma DeriveDecides(valid: Bytes -> bool, c: DesiredConfig)
    ensures Derive(valid, c).Ok? <==> Derivable(valid, c)
    ensures Derive(valid, c).Ok? ==> AuthorityIs(c, Derive(valid, c).value)
  {
    hide DesiredPreimage, TargetsNamed, AllUsable, TargetsDerived, DeriveList, EncodeTargetList, Domain;
    var none: seq<DocumentKind> := [];
    assert [ServiceProfile] + none == [ServiceProfile] && none + [ApplicationHandler] == [ApplicationHandler];
    assert [ServiceProfile] + [ApplicationHandler] == [ServiceProfile, ApplicationHandler] && none + none == none;
    if c.targetIds.Some? && c.relays.Some? && |c.targetIds.value| <= 32 {
      ListDecides(c.targetIds.value, c.relays.value);
      ListDerived(c.targetIds.value, c.relays.value);
      if DeriveList(c.targetIds.value, c.relays.value).Some? {
        NamedLength(c.targetIds.value, c.relays.value, DeriveList(c.targetIds.value, c.relays.value).value);
      }
    }
  }

  /** The row an authority is stored as, field by field. */
  predicate RowNames(d: Desired, a: Authority, generation: nat)
  {
    && d.generation == generation && d.mode == a.mode && (d.profile <==> ServiceProfile in a.kinds)
    && (d.handler <==> ApplicationHandler in a.kinds) && d.targetSetSha == a.targetSetSha
       && d.targetCount == |a.targets|
    && d.requiredCount == CountRequired(a.targets) && d.queueCapacity == a.queueCapacity && d.desiredSha == a.desiredSha
  }

  /**
   * Under the bound configuration, a committed desired state stores exactly the authority's fields,
   * one generation later, and nothing else changes.
   */
  lemma DesiredWrites(s: Store, a: Authority)
    requires CommitDesired(s, a).Ok?
    ensures var r := CommitDesired(s, a).value;
            && s.config == Some(ConfigBinding(a.configurationSha, a.publicKey))
            && r.store == s.(desired := Some(r.value.state)) && (r.value.changed <==> s.desired != r.store.desired)
            && RowNames(r.value.state, a, if !r.value.changed then s.desired.value.generation
                                          else if s.desired.None? then 1 else s.desired.value.generation + 1)
  {
  }
}
