/**
 * Preimages of outbox, attempt and authority identities.  Each is injective in its
 * fields, and no two kinds of identity share a preimage, which is what lets the rest
 * of the model treat identities as their fields.
 */
module Identities {
  import opened Prelude
  import opened Encoding
  import opened Digests
  import opened Backoff
  import opened Delivery
  import PresenceDesired
  import ReconciliationPlan
  import ReconciliationCommit

  const PRESENCE_OUTBOX := "radroots.rhi.presence_outbox.v1"
  const PRESENCE_ATTEMPT := "radroots.rhi.presence_attempt.v1"
  const PUBLICATION_AUTHORITY := "radroots.rhi.publication_authority.v1"
  const PUBLICATION_ATTEMPT := "radroots.rhi.publication_attempt.v1"

  // ------------------------------------------------------------------ presence

  function PresenceOutboxPreimage(generation: nat, kind: DocumentKind, desiredSha: Bytes32, eventSha: Bytes32): Bytes
  {
    Domain(PRESENCE_OUTBOX) + (U64(generation) + ([PresenceDesired.KindTag(kind)] + (desiredSha + eventSha)))
  }

  lemma PresenceOutboxInjective(g: nat, k: DocumentKind, d: Bytes32, e: Bytes32, g': nat, k': DocumentKind,
                                d': Bytes32, e': Bytes32)
    requires g < U64_LIMIT && g' < U64_LIMIT
    requires PresenceOutboxPreimage(g, k, d, e) == PresenceOutboxPreimage(g', k', d', e')
    ensures g == g' && k == k' && d == d' && e == e'
  {
    hide U64, Domain;
    var t, t' := [PresenceDesired.KindTag(k)], [PresenceDesired.KindTag(k')];
    Cancel(Domain(PRESENCE_OUTBOX), Domain(PRESENCE_OUTBOX), U64(g) + (t + (d + e)), U64(g') + (t' + (d' + e')));
    CancelU64(g, g', t + (d + e), t' + (d' + e'));
    Cancel(t, t', d + e, d' + e');
    assert t[0] == t'[0];
    Cancel(d, d', e, e');
  }

  function PresenceAttemptPreimage(outbox: Bytes32, eventSha: Bytes32, ordinal: Byte, number: nat): Bytes
  {
    Domain(PRESENCE_ATTEMPT) + (outbox + (eventSha + ([ordinal] + U16(number))))
  }

  lemma PresenceAttemptInjective(o: Bytes32, e: Bytes32, k: Byte, n: nat, o': Bytes32, e': Bytes32, k': Byte, n': nat)
    requires n < 0x1_0000 && n' < 0x1_0000
    requires PresenceAttemptPreimage(o, e, k, n) == PresenceAttemptPreimage(o', e', k', n')
    ensures o == o' && e == e' && k == k' && n == n'
  {
    hide U16, Domain;
    var s, s' := [k] + U16(n), [k'] + U16(n');
    Cancel(Domain(PRESENCE_ATTEMPT), Domain(PRESENCE_ATTEMPT), o + (e + s), o' + (e' + s'));
    Cancel(o, o', e + s, e' + s');
    Cancel(e, e', s, s');
    Cancel([k], [k'], U16(n), U16(n'));
    assert [k][0] == [k'][0];
    assert U16(n) + [] == U16(n) && U16(n') + [] == U16(n');
    CancelU16(n, n', [], []);
  }

  // ------------------------------------------------------------------ publication

  function PublicationAttemptPreimage(outbox: Bytes32, eventSha: Bytes32, ordinal: nat, number: nat): Bytes
  {
    Domain(PUBLICATION_ATTEMPT) + (outbox + (eventSha + (U32(ordinal) + U32(number))))
  }

  lemma PublicationAttemptInjective(o: Bytes32, e: Bytes32, k: nat, n: nat, o': Bytes32, e': Bytes32, k': nat, n': nat)
    requires k < U32_LIMIT && k' < U32_LIMIT && n < U32_LIMIT && n' < U32_LIMIT
    requires PublicationAttemptPreimage(o, e, k, n) == PublicationAttemptPreimage(o', e', k', n')
    ensures o == o' && e == e' && k == k' && n == n'
  {
    hide U32, Domain;
    var s, s' := U32(k) + U32(n), U32(k') + U32(n');
    Cancel(Domain(PUBLICATION_ATTEMPT), Domain(PUBLICATION_ATTEMPT), o + (e + s), o' + (e' + s'));
    Cancel(o, o', e + s, e' + s');
    Cancel(e, e', s, s');
    CancelU32(k, k', U32(n), U32(n'));
    assert U32(n) + [] == U32(n) && U32(n') + [] == U32(n');
    CancelU32(n, n', [], []);
  }

  /** The retry part of a publication authority. */
  function EncodeRetry(r: Option<Policy>): Bytes
  {
    match r
    case None => [0]
    case Some(p) => [1] + (U16(p.maxAttempts) + (U64(p.initialMs) + (U64(p.maximumMs) + U64(p.deadlineMs))))
  }

  function AuthorityPreimage(required: bool, targetCount: nat, targetSetSha: Bytes32, retry: Option<Policy>,
                             queue: nat): Bytes
  {
    Domain(PUBLICATION_AUTHORITY) + (Flag(required)
      + (U32(targetCount) + (targetSetSha + (EncodeRetry(retry) + U32(queue)))))
  }

  predicate RetryFits(r: Option<Policy>)
  {
    r.Some? ==> r.value.maxAttempts < 0x1_0000 && r.value.initialMs < U64_LIMIT && r.value.maximumMs < U64_LIMIT
                && r.value.deadlineMs < U64_LIMIT
  }

  lemma CancelRetry(p: Option<Policy>, q: Option<Policy>, r: Bytes, s: Bytes)
    requires RetryFits(p) && RetryFits(q) && EncodeRetry(p) + r == EncodeRetry(q) + s
    ensures p == q && r == s
  {
    hide U16, U64;
    assert (EncodeRetry(p) + r)[0] == EncodeRetry(p)[0] && (EncodeRetry(q) + s)[0] == EncodeRetry(q)[0];
    if p.None? {
      Cancel([0], [0], r, s);
    } else {
      CancelPolicy(p.value, q.value, r, s);
    }
  }

  lemma CancelPolicy(p: Policy, q: Policy, r: Bytes, s: Bytes)
    requires RetryFits(Some(p)) && RetryFits(Some(q)) && EncodeRetry(Some(p)) + r == EncodeRetry(Some(q)) + s
    ensures p == q && r == s
  {
    hide U16, U64;
    var p3, q3 := U64(p.maximumMs) + U64(p.deadlineMs), U64(q.maximumMs) + U64(q.deadlineMs);
    var p2, q2 := U64(p.initialMs) + p3, U64(q.initialMs) + q3;
    var p1, q1 := U16(p.maxAttempts) + p2, U16(q.maxAttempts) + q2;
    Assoc([1], p1, r);
    Assoc([1], q1, s);
    Cancel([1], [1], p1 + r, q1 + s);
    Assoc(U16(p.maxAttempts), p2, r);
    Assoc(U16(q.maxAttempts), q2, s);
    CancelU16(p.maxAttempts, q.maxAttempts, p2 + r, q2 + s);
    Assoc(U64(p.initialMs), p3, r);
    Assoc(U64(q.initialMs), q3, s);
    CancelU64(p.initialMs, q.initialMs, p3 + r, q3 + s);
    Assoc(U64(p.maximumMs), U64(p.deadlineMs), r);
    Assoc(U64(q.maximumMs), U64(q.deadlineMs), s);
    CancelU64(p.maximumMs, q.maximumMs, U64(p.deadlineMs) + r, U64(q.deadlineMs) + s);
    CancelU64(p.deadlineMs, q.deadlineMs, r, s);
  }

  /** One authority digest names one mode, target set, retry policy and queue. */
  lemma AuthorityInjective(m: bool, c: nat, t: Bytes32, r: Option<Policy>, q: nat,
                           m': bool, c': nat, t': Bytes32, r': Option<Policy>, q': nat)
    requires c < U32_LIMIT && c' < U32_LIMIT && q < U32_LIMIT && q' < U32_LIMIT && RetryFits(r) && RetryFits(r')
    requires AuthorityPreimage(m, c, t, r, q) == AuthorityPreimage(m', c', t', r', q')
    ensures m == m' && c == c' && t == t' && r == r' && q == q'
  {
    hide U32, Flag, Domain, EncodeRetry;
    var d := Domain(PUBLICATION_AUTHORITY);
    var x, x' := EncodeRetry(r) + U32(q), EncodeRetry(r') + U32(q');
    Cancel(d, d, Flag(m) + (U32(c) + (t + x)), Flag(m') + (U32(c') + (t' + x')));
    CancelFlag(m, m', U32(c) + (t + x), U32(c') + (t' + x'));
    CancelU32(c, c', t + x, t' + x');
    Cancel(t, t', x, x');
    CancelRetry(r, r', U32(q), U32(q'));
    assert U32(q) + [] == U32(q) && U32(q') + [] == U32(q');
    CancelU32(q, q', [], []);
  }

  // ------------------------------------------------------------------ domain separation

  const DOMAINS: seq<string> := [
    PRESENCE_TARGET_SET, PresenceDesired.DESIRED_STATE, PRESENCE_OUTBOX, PRESENCE_ATTEMPT,
    PUBLICATION_TARGET_SET, PUBLICATION_AUTHORITY, PUBLICATION_ATTEMPT,
    ReconciliationPlan.ATTEMPT_ID, ReconciliationPlan.SELECTOR_DIGEST, ReconciliationPlan.REQUEST_ID,
    ReconciliationCommit.SOURCE_INVENTORY]

  /** A position at which two domain names differ. */
  lemma DomainsDiffer(i: nat, j: nat) returns (p: nat)
    requires i < j < |DOMAINS|
    ensures p < |DOMAINS[i]| && p < |DOMAINS[j]| && DOMAINS[i][p] != DOMAINS[j][p]
    ensures 0 < DOMAINS[i][p] as int < 128 && 0 < DOMAINS[j][p] as int < 128
  {
    if i < 4 {
      p := if j < 4 then 22 else 14;
    } else if i < 7 {
      p := if j >= 7 then 14 else if i == 4 then 25 else 26;
    } else {
      p := if i == 7 then 28 else if i == 8 then 29 else 35;
    }
  }

  lemma Separate(d: string, e: string, p: nat, r: Bytes, s: Bytes)
    requires p < |d| && p < |e| && d[p] != e[p] && 0 < d[p] as int < 128 && 0 < e[p] as int < 128
    ensures Domain(d) + r != Domain(e) + s
  {
    assert (Domain(d) + r)[p] == Ascii(d)[p] && (Domain(e) + s)[p] == Ascii(e)[p];
  }

  /** Preimages of different domains never coincide, whatever their contents. */
  lemma DomainsSeparate(i: nat, j: nat, r: Bytes, s: Bytes)
    requires i < |DOMAINS| && j < |DOMAINS| && Domain(DOMAINS[i]) + r == Domain(DOMAINS[j]) + s
    ensures i == j && r == s
  {
    hide Domain;
    if i < j {
      var p := DomainsDiffer(i, j);
      Separate(DOMAINS[i], DOMAINS[j], p, r, s);
    } else if j < i {
      var p := DomainsDiffer(j, i);
      Separate(DOMAINS[j], DOMAINS[i], p, s, r);
    } else {
      Cancel(Domain(DOMAINS[i]), Domain(DOMAINS[i]), r, s);
    }
  }
}
