/** The admin API's canonical base64url check, percent decoding and query scalars. */
module AdminCodec {
  import opened Prelude
  import opened Encoding

  // ------------------------------------------------------------------ base64url without padding

  /** The value of one character of the URL-safe alphabet (section 5 of RFC 4648). */
  function Sextet(b: Byte): (r: Option<nat>)
    ensures r.Some? ==> r.value < 64
  {
    if 65 <= b <= 90 then Some(b - 65)
    else if 97 <= b <= 122 then Some(b - 97 + 26)
    else if 48 <= b <= 57 then Some(b - 48 + 52)
    else if b == 45 then Some(62)
    else if b == 95 then Some(63)
    else None
  }

  function Letter(s: nat): (b: Byte)
    requires s < 64
    ensures Sextet(b) == Some(s)
  {
    if s < 26 then 65 + s
    else if s < 52 then 97 + s - 26
    else if s < 62 then 48 + s - 52
    else if s == 62 then 45
    else 95
  }

  lemma LetterOfSextet(b: Byte)
    requires Sextet(b).Some?
    ensures Letter(Sextet(b).value) == b
  {
  }

  /** The alphabet runs through A-Z, a-z and 0-9, then hyphen and underscore. */
  lemma AlphabetIs(s: nat)
    requires s < 63
    ensures Letter(0) == 'A' as int && Letter(26) == 'a' as int && Letter(52) == '0' as int
    ensures Letter(62) == '-' as int && Letter(63) == '_' as int
    ensures s !in [25, 51, 61, 62] ==> Letter(s + 1) == Letter(s) + 1
  {
  }

  /** The acceptance test the service applies to opaque cursors. */
  predicate CanonicalBase64Url(v: Bytes)
  {
    && |v| > 0 && |v| % 4 != 1
    && (forall i :: 0 <= i < |v| ==> Sextet(v[i]).Some?)
    && var last := Sextet(v[|v| - 1]).value;
       (|v| % 4 == 2 ==> last % 16 == 0) && (|v| % 4 == 3 ==> last % 4 == 0)
  }

  /** One full group: three bytes as four characters. */
  function Quad(b: Bytes): (v: Bytes)
    requires |b| == 3
    ensures |v| == 4
  {
    [Letter(b[0] / 4), Letter(b[0] % 4 * 16 + b[1] / 16), Letter(b[1] % 16 * 4 + b[2] / 64), Letter(b[2] % 64)]
  }

  /** A final group of one or two bytes, its unused bits zero. */
  function Tail(b: Bytes): (v: Bytes)
    requires 1 <= |b| <= 2
    ensures |v| == |b| + 1
  {
    if |b| == 1 then [Letter(b[0] / 4), Letter(b[0] % 4 * 16)]
    else [Letter(b[0] / 4), Letter(b[0] % 4 * 16 + b[1] / 16), Letter(b[1] % 16 * 4)]
  }

  /** The unpadded encoding with zero pad bits (sections 3.2 and 3.5 of RFC 4648). */
  function Base64Url(b: Bytes): Bytes
  {
    if |b| == 0 then [] else if |b| < 3 then Tail(b) else Quad(b[..3]) + Base64Url(b[3..])
  }

  function SextetOr0(b: Byte): (r: nat)
    ensures r < 64
  {
    if Sextet(b).Some? then Sextet(b).value else 0
  }

  function UnQuad(v: Bytes): (b: Bytes)
    requires |v| == 4
    ensures |b| == 3
  {
    var s0, s1, s2, s3 := SextetOr0(v[0]), SextetOr0(v[1]), SextetOr0(v[2]), SextetOr0(v[3]);
    [s0 * 4 + s1 / 16, s1 % 16 * 16 + s2 / 4, s2 % 4 * 64 + s3]
  }

  function UnTail(v: Bytes): (b: Bytes)
    requires 2 <= |v| <= 3
    ensures |b| == |v| - 1
  {
    var s0, s1 := SextetOr0(v[0]), SextetOr0(v[1]);
    if |v| == 2 then [s0 * 4 + s1 / 16] else [s0 * 4 + s1 / 16, s1 % 16 * 16 + SextetOr0(v[2]) / 4]
  }

  /** The bytes a canonical text stands for. */
  function Base64UrlBytes(v: Bytes): Bytes
  {
    if |v| < 2 then [] else if |v| < 4 then UnTail(v) else UnQuad(v[..4]) + Base64UrlBytes(v[4..])
  }

  predicate InAlphabet(v: Bytes) { forall i :: 0 <= i < |v| ==> Sextet(v[i]).Some? }

  lemma QuadRoundTrip(b: Bytes)
    requires |b| == 3
    ensures InAlphabet(Quad(b)) && UnQuad(Quad(b)) == b
  {
    hide Letter, Sextet;
  }

  lemma TailRoundTrip(b: Bytes)
    requires 1 <= |b| <= 2
    ensures CanonicalBase64Url(Tail(b)) && UnTail(Tail(b)) == b
  {
    hide Letter, Sextet;
  }

  /** The bit positions of a packed group, in arithmetic. */
  lemma Unpack(s0: nat, s1: nat, s2: nat, s3: nat)
    requires s0 < 64 && s1 < 64 && s2 < 64 && s3 < 64
    ensures var b0, b1, b2 := s0 * 4 + s1 / 16, s1 % 16 * 16 + s2 / 4, s2 % 4 * 64 + s3;
            b0 / 4 == s0 && b0 % 4 * 16 + b1 / 16 == s1 && b1 % 16 * 4 + b2 / 64 == s2 && b2 % 64 == s3
  {
  }

  lemma LettersOf(v: Bytes)
    requires InAlphabet(v)
    ensures forall i :: 0 <= i < |v| ==> Letter(SextetOr0(v[i])) == v[i]
  {
    forall i | 0 <= i < |v| ensures Letter(SextetOr0(v[i])) == v[i] {
      LetterOfSextet(v[i]);
    }
  }

  lemma UnQuadRoundTrip(v: Bytes)
    requires |v| == 4 && InAlphabet(v)
    ensures Quad(UnQuad(v)) == v
  {
    hide Letter, SextetOr0, UnQuad;
    LettersOf(v);
    UnQuadSextets(v);
  }

  lemma UnQuadSextets(v: Bytes)
    requires |v| == 4
    ensures var b := UnQuad(v);
            && b[0] / 4 == SextetOr0(v[0]) && b[0] % 4 * 16 + b[1] / 16 == SextetOr0(v[1])
            && b[1] % 16 * 4 + b[2] / 64 == SextetOr0(v[2]) && b[2] % 64 == SextetOr0(v[3])
  {
    hide SextetOr0;
    Unpack(SextetOr0(v[0]), SextetOr0(v[1]), SextetOr0(v[2]), SextetOr0(v[3]));
  }

  lemma UnTailRoundTrip(v: Bytes)
    requires 2 <= |v| <= 3 && CanonicalBase64Url(v)
    ensures Tail(UnTail(v)) == v
  {
    assert InAlphabet(v) && SextetOr0(v[|v| - 1]) % (if |v| == 2 then 16 else 4) == 0;
    hide Letter, SextetOr0, CanonicalBase64Url, UnTail;
    LettersOf(v);
    UnTailSextets(v);
  }

  lemma UnTailSextets(v: Bytes)
    requires 2 <= |v| <= 3 && SextetOr0(v[|v| - 1]) % (if |v| == 2 then 16 else 4) == 0
    ensures var b := UnTail(v);
            && b[0] / 4 == SextetOr0(v[0])
            && (|v| == 2 ==> b[0] % 4 * 16 == SextetOr0(v[1]))
            && (|v| == 3 ==> b[0] % 4 * 16 + b[1] / 16 == SextetOr0(v[1]) && b[1] % 16 * 4 == SextetOr0(v[2]))
  {
    hide SextetOr0;
    Unpack(SextetOr0(v[0]), SextetOr0(v[1]), if |v| == 3 then SextetOr0(v[2]) else 0, 0);
  }

  /** Canonicity of a text is decided by its groups after the first. */
  lemma CanonicalSplit(q: Bytes, rest: Bytes)
    requires |q| == 4
    ensures CanonicalBase64Url(q + rest) <==> InAlphabet(q) && (rest == [] || CanonicalBase64Url(rest))
  {
    hide Sextet;
    var v := q + rest;
    assert forall i :: 0 <= i < |rest| ==> rest[i] == v[i + 4];
    assert forall i :: 0 <= i < 4 ==> q[i] == v[i];
    if |rest| > 0 {
      assert v[|v| - 1] == rest[|rest| - 1];
      assert |v| % 4 == |rest| % 4;
    }
  }

  lemma {:induction false} EncodedIsCanonical(b: Bytes)
    requires |b| > 0
    ensures CanonicalBase64Url(Base64Url(b)) && Base64UrlBytes(Base64Url(b)) == b
  {
    hide CanonicalBase64Url, Quad, UnQuad, Tail, UnTail, InAlphabet;
    if |b| < 3 {
      TailRoundTrip(b);
    } else {
      var q, rest := Quad(b[..3]), Base64Url(b[3..]);
      QuadRoundTrip(b[..3]);
      if |b| > 3 {
        EncodedIsCanonical(b[3..]);
      }
      CanonicalSplit(q, rest);
      assert (q + rest)[..4] == q && (q + rest)[4..] == rest;
      assert b == b[..3] + b[3..];
    }
  }

  lemma {:induction false} CanonicalIsEncoded(v: Bytes)
    requires CanonicalBase64Url(v)
    ensures |Base64UrlBytes(v)| > 0 && Base64Url(Base64UrlBytes(v)) == v
  {
    if |v| < 4 {
      UnTailRoundTrip(v);
      hide CanonicalBase64Url, Tail, UnTail;
    } else {
      hide CanonicalBase64Url, Quad, UnQuad, Tail, UnTail, InAlphabet;
      var q, rest := v[..4], v[4..];
      assert v == q + rest;
      CanonicalSplit(q, rest);
      UnQuadRoundTrip(q);
      if |rest| > 0 {
        CanonicalIsEncoded(rest);
      }
      var b := UnQuad(q) + Base64UrlBytes(rest);
      assert b[..3] == UnQuad(q) && b[3..] == Base64UrlBytes(rest);
    }
  }

  /** Accepted texts are exactly the encodings of non-empty byte strings. */
  lemma CanonicalIffEncoding(v: Bytes)
    ensures CanonicalBase64Url(v) <==> exists b: Bytes :: |b| > 0 && Base64Url(b) == v
  {
    if CanonicalBase64Url(v) {
      CanonicalIsEncoded(v);
    }
    forall b: Bytes | |b| > 0 && Base64Url(b) == v ensures CanonicalBase64Url(v) {
      EncodedIsCanonical(b);
    }
  }

  // ------------------------------------------------------------------ percent decoding

  const PERCENT: Byte := 37
  const PLUS: Byte := 43
  const SPACE: Byte := 32

  function HexNibble(b: Byte): (r: Option<nat>)
    ensures r.Some? ==> r.value < 16
  {
    if 48 <= b <= 57 then Some(b - 48)
    else if 97 <= b <= 102 then Some(b - 97 + 10)
    else if 65 <= b <= 70 then Some(b - 65 + 10)
    else None
  }

  /** Every percent sign starts a complete escape. */
  predicate ValidPercent(v: Bytes)
  {
    if |v| == 0 then true
    else if v[0] == PERCENT then |v| >= 3 && HexNibble(v[1]).Some? && HexNibble(v[2]).Some? && ValidPercent(v[3..])
    else ValidPercent(v[1..])
  }

  function Decoded(v: Bytes): Bytes
    requires ValidPercent(v)
  {
    if |v| == 0 then []
    else if v[0] == PERCENT then [HexNibble(v[1]).value * 16 + HexNibble(v[2]).value] + Decoded(v[3..])
    else [if v[0] == PLUS then SPACE else v[0]] + Decoded(v[1..])
  }

  /** The validating loop accepts exactly the valid encodings. */
  method CheckPercent(v: Bytes) returns (ok: bool)
    ensures ok <==> ValidPercent(v)
  {
    var i := 0;
    while i < |v|
      invariant 0 <= i <= |v|
      invariant ValidPercent(v) <==> ValidPercent(v[i..])
    {
      assert v[i..][1..] == v[i + 1..];
      if v[i] == PERCENT {
        if i + 2 >= |v| || HexNibble(v[i + 1]).None? || HexNibble(v[i + 2]).None? {
          return false;
        }
        assert v[i..][3..] == v[i + 3..];
        i := i + 3;
      } else {
        i := i + 1;
      }
    }
    ok := true;
  }

  /** One step of a valid encoding: an escape is complete, and the rest is valid again. */
  lemma DecodeStep(v: Bytes, i: nat)
    requires i < |v| && ValidPercent(v[i..])
    ensures v[i] == PERCENT ==>
              && i + 3 <= |v| && HexNibble(v[i + 1]).Some? && HexNibble(v[i + 2]).Some? && ValidPercent(v[i + 3..])
              && Decoded(v[i..]) == [HexNibble(v[i + 1]).value * 16 + HexNibble(v[i + 2]).value] + Decoded(v[i + 3..])
    ensures v[i] != PERCENT ==>
              && ValidPercent(v[i + 1..])
              && Decoded(v[i..]) == [if v[i] == PLUS then SPACE else v[i]] + Decoded(v[i + 1..])
  {
    hide HexNibble;
    var w := v[i..];
    assert w[0] == v[i] && w[1..] == v[i + 1..];
    if v[i] == PERCENT {
      assert w[1] == v[i + 1] && w[2] == v[i + 2] && w[3..] == v[i + 3..];
    }
  }

  /** The decoding loop never reads past the end of a valid encoding and never meets a bad nibble. */
  method PercentDecode(v: Bytes, utf8: Bytes -> bool) returns (r: Option<Bytes>)
    requires ValidPercent(v)
    ensures r == if utf8(Decoded(v)) then Some(Decoded(v)) else None
  {
    assert v[0..] == v && Decoded([]) == [];
    hide ValidPercent, Decoded, HexNibble;
    var decoded: Bytes := [];
    var i := 0;
    while i < |v|
      invariant 0 <= i <= |v| && ValidPercent(v[i..])
      invariant decoded + Decoded(v[i..]) == Decoded(v)
    {
      DecodeStep(v, i);
      ghost var was := decoded;
      if v[i] == PERCENT {
        var high, low := HexNibble(v[i + 1]).value, HexNibble(v[i + 2]).value;
        decoded := decoded + [high * 16 + low];
        Assoc(was, [high * 16 + low], Decoded(v[i + 3..]));
        i := i + 3;
      } else {
        var byte := if v[i] == PLUS then SPACE else v[i];
        decoded := decoded + [byte];
        Assoc(was, [byte], Decoded(v[i + 1..]));
        i := i + 1;
      }
    }
    assert v[i..] == [] && decoded + [] == decoded;
    r := if utf8(decoded) then Some(decoded) else None;
  }

  /** `v` is one of the ways to write `d`: each byte plain, escaped in either case, or a space as `+`. */
  predicate Writes(v: Bytes, d: Bytes)
    decreases |d|
  {
    if |d| == 0 then |v| == 0
    else
      || (|v| >= 1 && v[0] == d[0] && d[0] != PERCENT && d[0] != PLUS && Writes(v[1..], d[1..]))
      || (|v| >= 1 && v[0] == PLUS && d[0] == SPACE && Writes(v[1..], d[1..]))
      || (|v| >= 3 && v[0] == PERCENT && HexNibble(v[1]).Some? && HexNibble(v[2]).Some?
          && HexNibble(v[1]).value * 16 + HexNibble(v[2]).value == d[0] && Writes(v[3..], d[1..]))
  }

  /** Decoding inverts every percent-encoding (section 2.1 of RFC 3986, with `+` as space), and only those. */
  lemma {:induction false} DecodedIffWrites(v: Bytes, d: Bytes)
    ensures Writes(v, d) <==> ValidPercent(v) && Decoded(v) == d
    decreases |v|
  {
    if |v| > 0 {
      var n := if v[0] == PERCENT then 3 else 1;
      if n <= |v| && |d| > 0 {
        DecodedIffWrites(v[n..], d[1..]);
        assert ValidPercent(v) ==> Decoded(v)[1..] == Decoded(v[n..]);
        assert d == [d[0]] + d[1..];
      }
    }
  }

  /** Escaping every byte writes it, so decoding is onto. */
  function EscapeAll(d: Bytes): Bytes
  {
    if |d| == 0 then [] else [PERCENT, HexDigit(d[0] / 16), HexDigit(d[0] % 16)] + EscapeAll(d[1..])
  }

  function HexDigit(n: nat): (b: Byte)
    requires n < 16
    ensures HexNibble(b) == Some(n)
  {
    if n < 10 then 48 + n else 65 + n - 10
  }

  lemma {:induction false} EscapeRoundTrip(d: Bytes)
    ensures ValidPercent(EscapeAll(d)) && Decoded(EscapeAll(d)) == d
  {
    if |d| > 0 {
      EscapeRoundTrip(d[1..]);
      assert EscapeAll(d)[3..] == EscapeAll(d[1..]);
    }
  }

  // ------------------------------------------------------------------ query scalars

  datatype ScalarKind = Integer | Boolean | Text
  datatype Scalar = Number(n: nat) | Truth(b: bool) | Str(bytes: Bytes)

  predicate Digit(b: Byte) { 48 <= b <= 57 }

  predicate AllDigits(v: Bytes) { forall i :: 0 <= i < |v| ==> Digit(v[i]) }

  /** The number a digit string denotes. */
  function Value(v: Bytes): nat
    requires AllDigits(v)
  {
    if |v| == 0 then 0 else Value(v[..|v| - 1]) * 10 + (v[|v| - 1] - 48)
  }

  predicate CanonicalDigits(v: Bytes)
  {
    v == [48] || (|v| > 0 && Digit(v[0]) && v[0] != 48 && AllDigits(v))
  }

  const TRUE_TEXT: Bytes := [116, 114, 117, 101]
  const FALSE_TEXT: Bytes := [102, 97, 108, 115, 101]

  function QueryScalar(kind: ScalarKind, v: Bytes): Option<Scalar>
  {
    match kind
    case Integer => if CanonicalDigits(v) && Value(v) <= MAX_U64 then Some(Number(Value(v))) else None
    case Boolean => if v == TRUE_TEXT then Some(Truth(true)) else if v == FALSE_TEXT then Some(Truth(false)) else None
    case Text => Some(Str(v))
  }

  /** The shortest decimal rendering. */
  function Decimal(n: nat): (v: Bytes)
    ensures |v| > 0
  {
    if n < 10 then [48 + n] else Decimal(n / 10) + [48 + n % 10]
  }

  lemma {:induction false} DecimalIsCanonical(n: nat)
    ensures AllDigits(Decimal(n)) && CanonicalDigits(Decimal(n)) && Value(Decimal(n)) == n
    ensures n > 0 ==> Decimal(n)[0] != 48
  {
    if n >= 10 {
      DecimalIsCanonical(n / 10);
      assert Decimal(n)[..|Decimal(n)| - 1] == Decimal(n / 10);
    } else {
      assert Decimal(n)[..0] == [];
    }
  }

  lemma {:induction false} CanonicalIsDecimal(v: Bytes)
    requires AllDigits(v) && CanonicalDigits(v)
    ensures Decimal(Value(v)) == v
    ensures v[0] != 48 ==> Value(v) > 0
  {
    var rest := v[..|v| - 1];
    if |v| > 1 {
      CanonicalIsDecimal(rest);
      assert v == rest + [v[|v| - 1]];
      assert Value(v) / 10 == Value(rest) && Value(v) % 10 == v[|v| - 1] - 48;
    } else {
      assert rest == [];
    }
  }

  /** A boolean scalar is exactly one of the two words, and any text is its own string. */
  lemma WordsDecide(v: Bytes)
    ensures QueryScalar(Boolean, v) == (if v == Ascii("true") then Some(Truth(true))
                                        else if v == Ascii("false") then Some(Truth(false)) else None)
    ensures QueryScalar(Text, v) == Some(Str(v))
  {
    assert Ascii("true") == TRUE_TEXT && Ascii("false") == FALSE_TEXT;
  }

  /** An integer scalar is accepted exactly for the canonical rendering of each `u64`. */
  lemma IntegerIffDecimal(v: Bytes, n: nat)
    ensures QueryScalar(Integer, v) == Some(Number(n)) <==> n <= MAX_U64 && v == Decimal(n)
  {
    DecimalIsCanonical(n);
    if CanonicalDigits(v) {
      CanonicalIsDecimal(v);
    }
  }
}
