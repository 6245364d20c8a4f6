/** Preimages of the digests that bind target sets and desired presence state. */
module Digests {
  import opened Prelude
  import opened Encoding

  /** The immutable part of one ordered delivery target. */
  datatype TargetSpec = TargetSpec(ordinal: nat, relayId: Bytes, required: bool)

  predicate SpecFits(t: TargetSpec) { t.ordinal < U32_LIMIT && |t.relayId| < U64_LIMIT }

  const PRESENCE_TARGET_SET := "radroots.rhi.presence_target_set.v1"
  const PUBLICATION_TARGET_SET := "radroots.rhi.publication_target_set.v1"

  function EncodeTarget(t: TargetSpec): Bytes
  {
    U32(t.ordinal) + (Framed(t.relayId) + Flag(t.required))
  }

  function EncodeTargets(ts: seq<TargetSpec>): Bytes
  {
    if |ts| == 0 then [] else EncodeTarget(ts[0]) + EncodeTargets(ts[1..])
  }

  /** A counted target list. */
  function EncodeTargetList(ts: seq<TargetSpec>): Bytes { U32(|ts|) + EncodeTargets(ts) }

  /** The target-set digest; a list longer than `u32::MAX` has none. */
  function TargetSetDigest(domain: string, ts: seq<TargetSpec>): Option<Digest>
  {
    if |ts| < U32_LIMIT then Some(Sha256(Domain(domain) + EncodeTargetList(ts))) else None
  }

  lemma CancelTarget(t: TargetSpec, u: TargetSpec, r: Bytes, s: Bytes)
    requires SpecFits(t) && SpecFits(u) && EncodeTarget(t) + r == EncodeTarget(u) + s
    ensures t == u && r == s
  {
    var tf, uf := Framed(t.relayId) + Flag(t.required), Framed(u.relayId) + Flag(u.required);
    Assoc(U32(t.ordinal), tf, r);
    Assoc(U32(u.ordinal), uf, s);
    CancelU32(t.ordinal, u.ordinal, tf + r, uf + s);
    Assoc(Framed(t.relayId), Flag(t.required), r);
    Assoc(Framed(u.relayId), Flag(u.required), s);
    CancelFramed(t.relayId, u.relayId, Flag(t.required) + r, Flag(u.required) + s);
    CancelFlag(t.required, u.required, r, s);
  }

  lemma {:induction false} CancelTargets(ts: seq<TargetSpec>, us: seq<TargetSpec>, r: Bytes, s: Bytes)
    requires |ts| == |us|
    requires forall i :: 0 <= i < |ts| ==> SpecFits(ts[i]) && SpecFits(us[i])
    requires EncodeTargets(ts) + r == EncodeTargets(us) + s
    ensures ts == us && r == s
  {
    if |ts| > 0 {
      Assoc(EncodeTarget(ts[0]), EncodeTargets(ts[1..]), r);
      Assoc(EncodeTarget(us[0]), EncodeTargets(us[1..]), s);
      CancelTarget(ts[0], us[0], EncodeTargets(ts[1..]) + r, EncodeTargets(us[1..]) + s);
      CancelTargets(ts[1..], us[1..], r, s);
      assert ts == [ts[0]] + ts[1..] && us == [us[0]] + us[1..];
    } else {
      assert r == [] + r && s == [] + s;
    }
  }

  lemma CancelTargetList(ts: seq<TargetSpec>, us: seq<TargetSpec>, r: Bytes, s: Bytes)
    requires |ts| < U32_LIMIT && |us| < U32_LIMIT
    requires forall t :: t in ts || t in us ==> SpecFits(t)
    requires EncodeTargetList(ts) + r == EncodeTargetList(us) + s
    ensures ts == us && r == s
  {
    Assoc(U32(|ts|), EncodeTargets(ts), r);
    Assoc(U32(|us|), EncodeTargets(us), s);
    CancelU32(|ts|, |us|, EncodeTargets(ts) + r, EncodeTargets(us) + s);
    CancelTargets(ts, us, r, s);
  }

  /** One target-set digest names one ordered list, for lists of any encodable length. */
  lemma TargetSetDigestInjective(d: string, ts: seq<TargetSpec>, us: seq<TargetSpec>)
    requires forall t :: t in ts || t in us ==> SpecFits(t)
    requires TargetSetDigest(d, ts).Some? && TargetSetDigest(d, ts) == TargetSetDigest(d, us)
    ensures ts == us
  {
    Cancel(Domain(d), Domain(d), EncodeTargetList(ts), EncodeTargetList(us));
    CancelTargetList(ts, us, [], []);
    assert EncodeTargetList(ts) + [] == EncodeTargetList(ts);
    assert EncodeTargetList(us) + [] == EncodeTargetList(us);
  }

  /** Hashing a target list field by field gives the digest of its whole encoding. */
  method ComputeTargetSetDigest(domain: string, ts: seq<TargetSpec>) returns (r: Option<Digest>)
    ensures r == TargetSetDigest(domain, ts)
  {
    hide U32, Framed, Flag, Domain;
    if |ts| >= U32_LIMIT {
      return None;
    }
    var absorbed := Domain(domain);
    absorbed := absorbed + U32(|ts|);
    Assoc(Domain(domain), U32(|ts|), EncodeTargets(ts));
    assert ts[0..] == ts;
    var i := 0;
    while i < |ts|
      invariant 0 <= i <= |ts|
      invariant absorbed + EncodeTargets(ts[i..]) == Domain(domain) + EncodeTargetList(ts)
    {
      AbsorbTarget(absorbed, ts, i);
      absorbed := absorbed + U32(ts[i].ordinal);
      absorbed := absorbed + Framed(ts[i].relayId);
      absorbed := absorbed + Flag(ts[i].required);
      i := i + 1;
    }
    assert absorbed + [] == absorbed;
    r := Some(Sha256(absorbed));
  }

  lemma AbsorbTarget(absorbed: Bytes, ts: seq<TargetSpec>, i: nat)
    requires i < |ts|
    ensures absorbed + U32(ts[i].ordinal) + Framed(ts[i].relayId) + Flag(ts[i].required) + EncodeTargets(ts[i + 1..])
            == absorbed + EncodeTargets(ts[i..])
  {
    hide U32, Framed, Flag;
    var t, rest := ts[i], EncodeTargets(ts[i + 1..]);
    assert ts[i..][0] == t && ts[i..][1..] == ts[i + 1..];
    assert absorbed + U32(t.ordinal) + Framed(t.relayId) + Flag(t.required) == absorbed + EncodeTarget(t);
    Assoc(absorbed, EncodeTarget(t), rest);
  }
}
