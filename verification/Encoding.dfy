/**
 * Big-endian integers, length frames and domain tags.
 *
 * Every digest the service computes is SHA-256 over a concatenation of fields.
 * The lemmas here are cancellation laws: an encoder is self-delimiting when
 * `E(x) + r == E(y) + s` forces `x == y` and `r == s`, and concatenations of
 * self-delimiting encoders are injective.
 */
module Encoding {
  import opened Prelude

  /** A collision-free digest: equal digests have equal preimages. */
  datatype Digest = Sha256(preimage: Bytes)

  function Pow256(w: nat): (r: nat)
    ensures r >= 1
  {
    if w == 0 then 1 else 256 * Pow256(w - 1)
  }

  /** `to_be_bytes` of a `w`-byte unsigned integer. */
  function BigEndian(n: nat, w: nat): (b: Bytes)
    ensures |b| == w
    decreases w
  {
    if w == 0 then [] else BigEndian(n / 256, w - 1) + [n % 256]
  }

  /** The number a byte string denotes, most significant byte first. */
  function FromBytes(b: Bytes): nat
  {
    if |b| == 0 then 0 else FromBytes(b[..|b| - 1]) * 256 + b[|b| - 1]
  }

  lemma {:induction false} BigEndianReads(n: nat, w: nat)
    requires n < Pow256(w)
    ensures FromBytes(BigEndian(n, w)) == n
    decreases w
  {
    if w > 0 {
      BigEndianReads(n / 256, w - 1);
      assert BigEndian(n, w)[..w - 1] == BigEndian(n / 256, w - 1);
    }
  }

  function U16(n: nat): Bytes { BigEndian(n, 2) }
  function U32(n: nat): Bytes { BigEndian(n, 4) }
  function U64(n: nat): Bytes { BigEndian(n, 8) }
  function Flag(b: bool): Bytes { [if b then 1 else 0] }

  /** A `u64` length prefix followed by the bytes. */
  function Framed(b: Bytes): Bytes { U64(|b|) + b }

  /** ASCII bytes of a domain or code string. */
  function Ascii(s: string): (b: Bytes)
    ensures |b| == |s|
  {
    seq(|s|, i requires 0 <= i < |s| => if s[i] as int < 256 then s[i] as int else 63)
  }

  /** A digest domain: its name closed by a zero byte. */
  function Domain(name: string): Bytes { Ascii(name) + [0] }

  lemma Cancel<T>(a: seq<T>, b: seq<T>, r: seq<T>, s: seq<T>)
    requires |a| == |b| && a + r == b + s
    ensures a == b && r == s
  {
    assert a == (a + r)[..|a|] == (b + s)[..|b|] == b;
    assert r == (a + r)[|a|..] == (b + s)[|b|..] == s;
  }

  lemma Assoc<T>(a: seq<T>, b: seq<T>, c: seq<T>)
    ensures (a + b) + c == a + (b + c)
  {
  }

  lemma {:induction false} BigEndianInjective(m: nat, n: nat, w: nat)
    requires m < Pow256(w) && n < Pow256(w) && BigEndian(m, w) == BigEndian(n, w)
    ensures m == n
    decreases w
  {
    if w > 0 {
      Cancel(BigEndian(m / 256, w - 1), BigEndian(n / 256, w - 1), [m % 256], [n % 256]);
      assert [m % 256][0] == [n % 256][0];
      assert m / 256 < Pow256(w - 1) && n / 256 < Pow256(w - 1);
      BigEndianInjective(m / 256, n / 256, w - 1);
    }
  }

  lemma Widths()
    ensures Pow256(2) == 0x1_0000 && Pow256(4) == U32_LIMIT && Pow256(8) == U64_LIMIT
  {
    assert Pow256(1) == 256;
    assert Pow256(2) == 256 * 256;
    assert Pow256(3) == 256 * Pow256(2);
    assert Pow256(4) == 256 * Pow256(3);
    assert Pow256(5) == 256 * Pow256(4);
    assert Pow256(6) == 256 * Pow256(5);
    assert Pow256(7) == 256 * Pow256(6);
  }

  /** Integers of one width are self-delimiting. */
  lemma CancelInteger(m: nat, n: nat, w: nat, r: Bytes, s: Bytes)
    requires m < Pow256(w) && n < Pow256(w)
    requires BigEndian(m, w) + r == BigEndian(n, w) + s
    ensures m == n && r == s
  {
    Cancel(BigEndian(m, w), BigEndian(n, w), r, s);
    BigEndianInjective(m, n, w);
  }

  lemma CancelU16(m: nat, n: nat, r: Bytes, s: Bytes)
    requires m < 0x1_0000 && n < 0x1_0000 && U16(m) + r == U16(n) + s
    ensures m == n && r == s
  {
    Widths();
    CancelInteger(m, n, 2, r, s);
  }

  lemma CancelU32(m: nat, n: nat, r: Bytes, s: Bytes)
    requires m < U32_LIMIT && n < U32_LIMIT && U32(m) + r == U32(n) + s
    ensures m == n && r == s
  {
    Widths();
    CancelInteger(m, n, 4, r, s);
  }

  lemma CancelU64(m: nat, n: nat, r: Bytes, s: Bytes)
    requires m < U64_LIMIT && n < U64_LIMIT && U64(m) + r == U64(n) + s
    ensures m == n && r == s
  {
    Widths();
    CancelInteger(m, n, 8, r, s);
  }

  lemma CancelFlag(a: bool, b: bool, r: Bytes, s: Bytes)
    requires Flag(a) + r == Flag(b) + s
    ensures a == b && r == s
  {
    Cancel(Flag(a), Flag(b), r, s);
    assert Flag(a)[0] == Flag(b)[0];
  }

  /** Length-framed byte strings are self-delimiting. */
  lemma CancelFramed(a: Bytes, b: Bytes, r: Bytes, s: Bytes)
    requires |a| < U64_LIMIT && |b| < U64_LIMIT && Framed(a) + r == Framed(b) + s
    ensures a == b && r == s
  {
    Assoc(U64(|a|), a, r);
    Assoc(U64(|b|), b, s);
    CancelU64(|a|, |b|, a + r, b + s);
    Cancel(a, b, r, s);
  }

  // ------------------------------------------------------------------ fixed-width fields and byte order

  /** A digest, key or identity as the 32 bytes it occupies in a preimage. */
  type Bytes32 = b: Bytes | |b| == 32 witness seq(32, _ => 0)

  /** Lexicographic byte order. */
  predicate LexLess(a: Bytes, b: Bytes)
    decreases |a|
  {
    |b| > 0 && (|a| == 0 || a[0] < b[0] || (a[0] == b[0] && LexLess(a[1..], b[1..])))
  }

  lemma {:induction false} LexIrreflexive(a: Bytes)
    ensures !LexLess(a, a)
    decreases |a|
  {
    if |a| > 0 {
      LexIrreflexive(a[1..]);
    }
  }

  lemma {:induction false} LexTransitive(a: Bytes, b: Bytes, c: Bytes)
    requires LexLess(a, b) && LexLess(b, c)
    ensures LexLess(a, c)
    decreases |a|
  {
    if |a| > 0 && a[0] == b[0] && b[0] == c[0] {
      LexTransitive(a[1..], b[1..], c[1..]);
    }
  }
}
