/** Deterministic-nonce ECDSA over a bare digest, and its DER form. */
module Sign {
  import opened Bytes
  import opened Groups
  import opened Modular
  import opened Secp256k1

  datatype Signature = Signature(r: int, s: int)

  /** SHA-256 of the digest, the counter byte and the scalar's bytes, read as a number. */
  type Nonce = (Bytes, nat, nat) -> nat

  /** (e + r d) / k modulo the order. */
  function RawScalar(c: Curve, e: nat, r: nat, scalar: nat, k: nat): (s: int)
    ensures 0 <= s < c.n
  {
    Mod(ModInv(k, c.n) * (e + r * scalar), c.n)
  }

  /** The smaller of s and -s. */
  function LowHalf(c: Curve, s: int): (low: int)
    ensures 0 < s < c.n ==> 0 < low <= c.n / 2
  {
    if s > c.n / 2 then c.n - s else s
  }

  /** One try; None where the source moves on to the next counter. */
  function TryNonce(c: Curve, digest: Bytes, scalar: nat, k: nat): Option<Signature> {
    var e := Mod(FromBigEndian(digest), c.n);
    if k == 0 then None
    else match PointMul(c, k, c.base)
      case Infinity => None
      case Affine(x, _) =>
        var r := Mod(x, c.n);
        if r == 0 then None
        else
          var s := RawScalar(c, e, r, scalar, k);
          if s == 0 then None else Some(Signature(r, LowHalf(c, s)))
  }

  function TryFrom(c: Curve, nonce: Nonce, digest: Bytes, scalar: nat, counter: nat): Option<Signature>
    decreases 256 - counter
  {
    if counter >= 256 then None
    else match TryNonce(c, digest, scalar, Mod(nonce(digest, counter, scalar), c.n))
      case Some(signature) => Some(signature)
      case None => TryFrom(c, nonce, digest, scalar, counter + 1)
  }

  /** None for a digest of the wrong size, or when no counter gives a usable nonce. */
  function SignDigest(c: Curve, nonce: Nonce, digest: Bytes, scalar: nat): Option<Signature> {
    if |digest| != 32 then None else TryFrom(c, nonce, digest, scalar, 0)
  }

  method ComputeSignature(c: Curve, nonce: Nonce, digest: Bytes, scalar: nat) returns (r: Option<Signature>)
    ensures r == SignDigest(c, nonce, digest, scalar)
  {
    if |digest| != 32 { return None; }
    for counter := 0 to 256
      invariant TryFrom(c, nonce, digest, scalar, counter) == SignDigest(c, nonce, digest, scalar)
    {
      var k := Mod(nonce(digest, counter, scalar), c.n);
      r := TryNonce(c, digest, scalar, k);
      if r.Some? { return; }
    }
    return None;
  }

  /* ---------- signatures verify ---------- */

  lemma {:induction false} SomeNonce(c: Curve, nonce: Nonce, digest: Bytes, scalar: nat, counter: nat) returns (k: nat)
    requires TryFrom(c, nonce, digest, scalar, counter).Some?
    ensures k < c.n && TryFrom(c, nonce, digest, scalar, counter) == TryNonce(c, digest, scalar, k)
    decreases 256 - counter
  {
    k := Mod(nonce(digest, counter, scalar), c.n);
    if TryNonce(c, digest, scalar, k).None? {
      k := SomeNonce(c, nonce, digest, scalar, counter + 1);
    }
  }

  /** Multiples of the base by anything but a multiple of the order are proper points. */
  lemma MultipleNotZero(c: Curve, k: nat)
    requires SoundCurve(c) && k % c.n != 0
    ensures Times(CurveGroup(c), k, c.base) != Infinity
  {
    var g := CurveGroup(c);
    var i := ModInv(k, c.n);
    ModInvCorrect(k, c.n);
    TimesProduct(g, i, k, c.base);
    RemainderUnique(1, 0, 1, c.n);
    TimesCongruent(g, i * k, 1, c.base);
    TimesOne(g, c.base);
    TimesZero(g, i);
  }

  /** (n - k) B is k B mirrored. */
  lemma NegativeMirrors(c: Curve, k: nat)
    requires SoundCurve(c) && 0 < k < c.n
    ensures var a := Times(CurveGroup(c), k, c.base); var b := Times(CurveGroup(c), c.n - k, c.base);
            Valid(c, a) && Valid(c, b) && a.Affine? && b == Affine(a.x, c.p - a.y)
  {
    var g := CurveGroup(c);
    RemainderUnique(k, 0, k, c.n);
    MultipleNotZero(c, k);
    TimesMember(g, k, c.base);
    TimesMember(g, c.n - k, c.base);
    var a, b := Times(g, k, c.base), Times(g, c.n - k, c.base);
    TimesSum(g, c.n - k, k, c.base);
    Zero(g, c.base);
    OrdinateNotZero(c, a);
    var m := Affine(a.x, c.p - a.y);
    MirrorOnCurve(c, a);
    assert PointAdd(c, m, a) == Infinity by { RemainderUnique(c.p, 1, 0, c.p); }
    NegativeUnique(g, b, m, a);
  }

  lemma MirrorSquare(p: int, y: int)
    ensures (p - y) * (p - y) == y * y + (p - 2 * y) * p
  {
    assert (p - y) * (p - y) == (p - y) * p - (p - y) * y;
    assert (p - y) * p == p * p - y * p && (p - y) * y == p * y - y * y;
    assert (p - 2 * y) * p == p * p - 2 * (y * p);
  }

  lemma MirrorOnCurve(c: Curve, a: Point)
    requires Valid(c, a) && a.Affine? && a.y != 0
    ensures Valid(c, Affine(a.x, c.p - a.y))
  {
    MirrorSquare(c.p, a.y);
    var rest := a.x * a.x * a.x + c.b;
    AddMultiple(a.y * a.y - rest, c.p - 2 * a.y, c.p);
  }

  /** s k is e + r d before the low-s flip and its negative after it. */
  lemma SignatureEquation(c: Curve, k: nat, m: nat, s: int)
    requires Prime(c.n) && 0 < k < c.n && s == Mod(ModInv(k, c.n) * m, c.n)
    ensures (s * k - m) % c.n == 0 && ((c.n - s) * k + m) % c.n == 0
  {
    var n := c.n;
    var i := ModInv(k, n);
    InverseInRange(k, n);
    ReduceFactor(i * m, k, n);
    assert (i * m) * k == (i * k) * m;
    CongruentProduct(i * k, 1, m, n);
    CongruentSum(s * k, m, 0 - m as int, n);
    RemainderUnique(0, 0, 0, n);
    CongruentProduct(s * k - m, 0, -1, n);
    assert (c.n - s) * k + m == (s * k - m) * -1 + k * n;
    AddMultiple((s * k - m) * -1, k, n);
  }

  lemma LowHalfEquation(c: Curve, k: nat, m: nat, raw: int)
    requires Prime(c.n) && 0 < k < c.n && raw == Mod(ModInv(k, c.n) * m, c.n)
    ensures var s := LowHalf(c, raw); (if raw > c.n / 2 then s * k + m else s * k - m) % c.n == 0
  {
    SignatureEquation(c, k, m, raw);
  }

  /** The verifier's combination is k B, or its negative if the low half is. */
  lemma CombinationIsNonce(c: Curve, e: nat, r: nat, scalar: nat, k: nat, raw: int, s: int)
    requires SoundCurve(c) && 0 < k < c.n && 0 < raw == RawScalar(c, e, r, scalar, k) && s == LowHalf(c, raw)
    ensures Combination(CurveGroup(c), e, r, ModInv(s, c.n), c.base, Times(CurveGroup(c), scalar, c.base))
            == Times(CurveGroup(c), if raw > c.n / 2 then c.n - k else k, c.base)
  {
    LowHalfEquation(c, k, e + r * scalar, raw);
    InverseInRange(s, c.n);
    SignatureVerifies(CurveGroup(c), e, r, scalar, k, s, ModInv(s, c.n), c.base, raw > c.n / 2);
  }

  /** Either way it has the abscissa of k B. */
  lemma NoncePoint(c: Curve, e: nat, r: nat, scalar: nat, k: nat)
    requires SoundCurve(c) && 0 < k < c.n && 0 < RawScalar(c, e, r, scalar, k)
    ensures var g, s := CurveGroup(c), LowHalf(c, RawScalar(c, e, r, scalar, k));
            var point := Combination(g, e, r, ModInv(s, c.n), c.base, Times(g, scalar, c.base));
            && Times(g, k, c.base).Affine? && point.Affine? && point.x == Times(g, k, c.base).x
  {
    var raw := RawScalar(c, e, r, scalar, k);
    CombinationIsNonce(c, e, r, scalar, k, raw, LowHalf(c, raw));
    NegativeMirrors(c, k);
  }

  lemma UsableNonce(c: Curve, digest: Bytes, scalar: nat, k: nat)
    requires SoundCurve(c) && TryNonce(c, digest, scalar, k).Some?
    ensures var Signature(r, s) := TryNonce(c, digest, scalar, k).value;
            var e := Mod(FromBigEndian(digest), c.n);
            && k > 0 && PointMul(c, k, c.base).Affine? && r == Mod(PointMul(c, k, c.base).x, c.n)
            && InScalarRange(c, r) && 0 < RawScalar(c, e, r, scalar, k)
            && s == LowHalf(c, RawScalar(c, e, r, scalar, k))
  {
  }

  /** What a usable nonce gives. */
  lemma NonceVerifies(c: Curve, digest: Bytes, scalar: nat, k: nat, r: int, s: int)
    requires SoundCurve(c) && scalar % c.n != 0 && k < c.n
    requires TryNonce(c, digest, scalar, k) == Some(Signature(r, s))
    ensures VerifySignature(c, digest, r, s, PointMul(c, scalar, c.base))
    ensures InScalarRange(c, r) && 0 < s <= c.n / 2
  {
    var key := PointMul(c, scalar, c.base);
    UsableNonce(c, digest, scalar, k);
    NoncePoint(c, Mod(FromBigEndian(digest), c.n), r, scalar, k);
    PointMulIsTimes(c, k, c.base);
    PointMulIsTimes(c, scalar, c.base);
    MultipleNotZero(c, scalar);
    VerifierComputes(c, digest, r, s, key);
  }

  /** A scalar that is not a multiple of the order signs: what the signer returns verifies under the scalar's public
      key, with s in the lower half. */
  lemma SigningVerifies(c: Curve, nonce: Nonce, digest: Bytes, scalar: nat)
    requires SoundCurve(c) && scalar % c.n != 0 && SignDigest(c, nonce, digest, scalar).Some?
    ensures var Signature(r, s) := SignDigest(c, nonce, digest, scalar).value;
            && VerifySignature(c, digest, r, s, PointMul(c, scalar, c.base))
            && InScalarRange(c, r) && 0 < s <= c.n / 2
  {
    var k := SomeNonce(c, nonce, digest, scalar, 0);
    var Signature(r, s) := SignDigest(c, nonce, digest, scalar).value;
    NonceVerifies(c, digest, scalar, k, r, s);
  }

  /* ---------- DER ---------- */

  function BigEndian(value: int, n: nat): (b: Bytes)
    ensures |b| == n
    decreases n
  {
    if n == 0 then [] else BigEndian(value / 256, n - 1) + [value % 256]
  }

  lemma {:induction false} BigEndianRoundTrip(value: nat, n: nat)
    requires value < Pow256(n)
    ensures FromBigEndian(BigEndian(value, n)) == value
  {
    if n > 0 {
      BigEndianRoundTrip(value / 256, n - 1);
      assert BigEndian(value, n)[..n - 1] == BigEndian(value / 256, n - 1);
    }
  }

  /** Drops leading zeros but the last byte. */
  function Trimmed(b: Bytes): (r: Bytes)
    ensures b != [] ==> r != [] && |r| <= |b|
  {
    if |b| > 1 && b[0] == 0 then Trimmed(b[1..]) else b
  }

  lemma {:induction false} TrimmedSame(b: Bytes)
    ensures FromBigEndian(Trimmed(b)) == FromBigEndian(b)
  {
    if |b| > 1 && b[0] == 0 {
      TrimmedSame(b[1..]);
      LeadingZero(b[1..]);
      assert b == [0] + b[1..];
    }
  }

  lemma {:induction false} LeadingZero(b: Bytes)
    ensures FromBigEndian([0] + b) == FromBigEndian(b)
  {
    if b == [] {
      assert ([0] + b)[..0] == [];
    } else {
      assert ([0] + b)[..|b|] == [0] + b[..|b| - 1];
      LeadingZero(b[..|b| - 1]);
    }
  }

  /** A value below 2^256 as a signed integer's bytes: shortest, with a zero in front of a set high bit. */
  function IntegerBytes(value: nat): (r: Bytes)
    ensures 0 < |r| <= 33
  {
    var b := Trimmed(BigEndian(value, 32));
    if b[0] >= 0x80 then [0] + b else b
  }

  function DerInteger(value: nat): (r: Bytes)
    ensures |r| <= 35
  {
    [0x02, |IntegerBytes(value)|] + IntegerBytes(value)
  }

  function EncodeDer(signature: Signature): Bytes
    requires signature.r >= 0 && signature.s >= 0
  {
    var body := DerInteger(signature.r) + DerInteger(signature.s);
    [0x30, |body|] + body
  }

  /** The loop that skips leading zeros, in place of a cursor into the buffer. */
  method TrimLeadingZeros(bytes: Bytes) returns (r: Bytes)
    requires bytes != []
    ensures r == Trimmed(bytes)
  {
    var start := 0;
    while start < |bytes| - 1 && bytes[start] == 0
      invariant start < |bytes| && Trimmed(bytes[start..]) == Trimmed(bytes)
    {
      assert bytes[start..][1..] == bytes[start + 1..];
      start := start + 1;
    }
    r := bytes[start..];
  }

  datatype Integer = Integer(value: nat, rest: Bytes)

  /** Reads one DER integer back. */
  function ReadDerInteger(b: Bytes): Option<Integer> {
    if |b| < 2 || b[0] != 0x02 || |b| < 2 + b[1] as int then None
    else Some(Integer(FromBigEndian(b[2..2 + b[1] as int]), b[2 + b[1] as int..]))
  }

  function ReadDer(b: Bytes): Option<Signature> {
    if |b| < 2 || b[0] != 0x30 || b[1] != |b| - 2 then None
    else match ReadDerInteger(b[2..])
      case None => None
      case Some(r) => match ReadDerInteger(r.rest)
        case None => None
        case Some(s) => if s.rest == [] then Some(Signature(r.value, s.value)) else None
  }

  lemma IntegerRoundTrip(value: nat, rest: Bytes)
    requires value < Pow256(32)
    ensures ReadDerInteger(DerInteger(value) + rest) == Some(Integer(value, rest))
  {
    var b := IntegerBytes(value);
    var t := Trimmed(BigEndian(value, 32));
    BigEndianRoundTrip(value, 32);
    TrimmedSame(BigEndian(value, 32));
    LeadingZero(t);
    var all := DerInteger(value) + rest;
    assert all[2..2 + |b|] == b && all[2 + |b|..] == rest;
  }

  lemma IntegersRoundTrip(signature: Signature)
    requires 0 <= signature.r < Pow256(32) && 0 <= signature.s < Pow256(32)
    ensures var r, s := DerInteger(signature.r), DerInteger(signature.s);
            ReadDerInteger(r + s) == Some(Integer(signature.r, s))
            && ReadDerInteger(s) == Some(Integer(signature.s, []))
  {
    var s := DerInteger(signature.s);
    IntegerRoundTrip(signature.r, s);
    IntegerRoundTrip(signature.s, []);
    assert s + [] == s;
  }

  /** The encoding determines the signature, and fits the push its fee is sized for with one byte to spare for the
      hash type. */
  lemma DerRoundTrip(signature: Signature)
    requires 0 <= signature.r < Pow256(32) && 0 <= signature.s < Pow256(32)
    ensures ReadDer(EncodeDer(signature)) == Some(signature) && |EncodeDer(signature)| <= 72
  {
    IntegersRoundTrip(signature);
    var body := DerInteger(signature.r) + DerInteger(signature.s);
    assert EncodeDer(signature)[2..] == body;
  }

  /** Whatever the signer returns, on a curve whose order fits 32 bytes, fits the push a fee is sized for. */
  lemma SignerFits(c: Curve, nonce: Nonce, digest: Bytes, scalar: nat)
    requires c.n <= Pow256(32) && SignDigest(c, nonce, digest, scalar).Some?
    ensures var signature := SignDigest(c, nonce, digest, scalar).value;
            0 < signature.r < c.n && 0 < signature.s < c.n && |EncodeDer(signature)| <= 72
  {
    var k := SomeNonce(c, nonce, digest, scalar, 0);
    DerRoundTrip(SignDigest(c, nonce, digest, scalar).value);
  }
}
