/** secp256k1 in affine coordinates: addition, double-and-add, key recovery and verification.  Written for any
    curve y^2 = x^3 + b over the integers modulo p, so that the proofs never look at the constants. */
module Secp256k1 {
  import opened Bytes
  import opened Groups
  import opened Modular

  datatype Point = Infinity | Affine(x: int, y: int)

  datatype Parameters = Parameters(p: int, n: int, b: int, base: Point)
  type Curve = c: Parameters | c.p > 1 && c.n > 1 witness Parameters(3, 3, 0, Infinity)

  const SECP256K1: Curve := Parameters(
    0xfffffffffffffffffffffffffffffffffffffffffffffffffffffffefffffc2f,
    0xfffffffffffffffffffffffffffffffebaaedce6af48a03bbfd25e8cd0364141,
    7,
    Affine(0x79be667ef9dcbbac55a06295ce870b07029bfcdb2dce28d959f2815b16f81798,
           0x483ada7726a3c4655da4fbfc0e1108a8fd17b448a68554199c47d08ffb10d4b8))

  predicate OnCurve(c: Curve, a: Point) {
    a.Infinity? || Mod(a.y * a.y - a.x * a.x * a.x - c.b, c.p) == 0
  }

  /** A point of the curve in reduced coordinates. */
  predicate Valid(c: Curve, a: Point) {
    OnCurve(c, a) && (a.Affine? ==> 0 <= a.x < c.p && 0 <= a.y < c.p)
  }

  function PointDouble(c: Curve, a: Point): Point {
    if a.Infinity? || a.y == 0 then Infinity
    else
      var slope := Mod(3 * a.x * a.x * ModInv(2 * a.y, c.p), c.p);
      var x := Mod(slope * slope - 2 * a.x, c.p);
      Affine(x, Mod(slope * (a.x - x) - a.y, c.p))
  }

  function PointAdd(c: Curve, a: Point, b: Point): Point {
    if a.Infinity? then b
    else if b.Infinity? then a
    else if a.x == b.x then if Mod(a.y + b.y, c.p) == 0 then Infinity else PointDouble(c, a)
    else
      var slope := Mod((b.y - a.y) * ModInv(b.x - a.x, c.p), c.p);
      var x := Mod(slope * slope - a.x - b.x, c.p);
      Affine(x, Mod(slope * (a.x - x) - a.y, c.p))
  }

  /** Adds where the scalar has a bit, and doubles at every bit. */
  function Ladder(c: Curve, k: nat, result: Point, addend: Point): Point {
    if k == 0 then result
    else Ladder(c, k / 2, if k % 2 == 1 then PointAdd(c, result, addend) else result, PointDouble(c, addend))
  }

  function PointMul(c: Curve, scalar: int, a: Point): Point {
    var k := Mod(scalar, c.n);
    if k == 0 || a.Infinity? then Infinity else Ladder(c, k, Infinity, a)
  }

  method ComputePointMul(c: Curve, scalar: int, a: Point) returns (result: Point)
    ensures result == PointMul(c, scalar, a)
  {
    var k: nat := Mod(scalar, c.n);
    if k == 0 || a.Infinity? { return Infinity; }
    result := Infinity;
    var addend := a;
    while k > 0
      invariant Ladder(c, k, result, addend) == PointMul(c, scalar, a)
    {
      if k % 2 == 1 { result := PointAdd(c, result, addend); }
      addend := PointDouble(c, addend);
      k := k / 2;
    }
  }

  /** The number a byte string spells, most significant byte first. */
  function FromBigEndian(b: Bytes): nat {
    if b == [] then 0 else 256 * FromBigEndian(b[..|b| - 1]) + b[|b| - 1]
  }

  method BytesToBigInt(bytes: Bytes) returns (value: nat)
    ensures value == FromBigEndian(bytes)
  {
    value := 0;
    for i := 0 to |bytes|
      invariant value == FromBigEndian(bytes[..i])
    {
      assert bytes[..i + 1][..i] == bytes[..i];
      value := 256 * value + bytes[i];
    }
    assert bytes[..|bytes|] == bytes;
  }

  predicate InScalarRange(c: Curve, v: int) { 0 < v < c.n }

  /** The point whose x coordinate the signature carries, or none. */
  function RecoverPoint(c: Curve, r: int, recoveryId: int): Point {
    var x := r + if recoveryId / 2 != 0 then c.n else 0;
    if x >= c.p then Infinity
    else
      var alpha := Mod(x * x * x + c.b, c.p);
      var beta := Pow(alpha, (c.p + 1) / 4) % c.p;
      if Mod(beta * beta, c.p) != alpha then Infinity
      else
        var y := if beta % 2 == recoveryId % 2 then beta else c.p - beta;
        if OnCurve(c, Affine(x, y)) then Affine(x, y) else Infinity
  }

  /** Infinity where no key is recovered. */
  function RecoverPublicKey(c: Curve, digest: Bytes, r: int, s: int, recoveryId: int): Point {
    if !InScalarRange(c, r) || !InScalarRange(c, s) || !(0 <= recoveryId <= 3) then Infinity
    else
      var point := RecoverPoint(c, r, recoveryId);
      if point.Infinity? then Infinity
      else
        var key := KeyFrom(c, Mod(FromBigEndian(digest), c.n), s, ModInv(r, c.n), point);
        if OnCurve(c, key) then key else Infinity
  }

  /** s/r of the nonce point, less e/r of the base. */
  function KeyFrom(c: Curve, e: int, s: int, rInv: int, point: Point): Point {
    PointAdd(c, PointMul(c, Mod(s * rInv, c.n), point), PointMul(c, Mod((c.n - e) * rInv, c.n), c.base))
  }

  predicate VerifySignature(c: Curve, digest: Bytes, r: int, s: int, key: Point) {
    && key.Affine? && InScalarRange(c, r) && InScalarRange(c, s)
    && var e := Mod(FromBigEndian(digest), c.n);
       var sInv := ModInv(s, c.n);
       var point := PointAdd(c, PointMul(c, Mod(e * sInv, c.n), c.base), PointMul(c, Mod(r * sInv, c.n), key));
       point.Affine? && Mod(point.x, c.n) == r
  }

  /* ---------- the group ---------- */

  function CurveGroup(c: Curve): Group<Point> {
    Group((a: Point, b: Point) => PointAdd(c, a, b), Infinity, (a: Point) => Valid(c, a), c.n)
  }

  /** The mathematics this relies on: the points with this addition are an abelian group of prime order n, and the
      base is one of them. */
  ghost predicate SoundCurve(c: Curve) {
    c.p % 2 == 1 && c.n > 2 && Prime(c.p) && Prime(c.n) && IsGroup(CurveGroup(c)) && Valid(c, c.base) && c.base.Affine?
  }

  /** The constants are those of a curve with that base point on it. */
  lemma GeneratorOnCurve()
    ensures Valid(SECP256K1, SECP256K1.base)
  {
  }

  lemma OddOrder(c: Curve)
    requires SoundCurve(c)
    ensures c.n % 2 == 1
  {
    assert c.n % 2 != 0;
  }

  lemma DoubleIsSum(c: Curve, a: Point)
    requires Valid(c, a) && c.p % 2 == 1
    ensures PointDouble(c, a) == PointAdd(c, a, a)
  {
    if a.Affine? {
      var t := a.y + a.y;
      if t < c.p {
        RemainderUnique(t, 0, t, c.p);
      } else {
        RemainderUnique(t, 1, t - c.p, c.p);
      }
    }
  }

  lemma {:induction false} LadderIsDoubleAndAdd(c: Curve, k: nat, result: Point, addend: Point)
    requires SoundCurve(c) && Valid(c, result) && Valid(c, addend)
    ensures Ladder(c, k, result, addend) == DoubleAndAdd(CurveGroup(c), k, result, addend)
    decreases k
  {
    if k > 0 {
      var g := CurveGroup(c);
      DoubleIsSum(c, addend);
      Add(g, addend, addend);
      Add(g, result, addend);
      LadderIsDoubleAndAdd(c, k / 2, if k % 2 == 1 then PointAdd(c, result, addend) else result,
                           PointDouble(c, addend));
    }
  }

  /** Double-and-add is scalar multiplication. */
  lemma PointMulIsTimes(c: Curve, scalar: nat, a: Point)
    requires SoundCurve(c) && Valid(c, a)
    ensures PointMul(c, scalar, a) == Times(CurveGroup(c), scalar, a)
    ensures Valid(c, PointMul(c, scalar, a))
  {
    var g := CurveGroup(c);
    var k := scalar % c.n;
    TimesReduced(g, scalar, a);
    TimesMember(g, k, a);
    if a.Infinity? {
      TimesZero(g, k);
    } else if k > 0 {
      LadderIsDoubleAndAdd(c, k, Infinity, a);
      DoubleAndAddCorrect(g, k, Infinity, a);
      Zero(g, Times(g, k, a));
    }
  }

  /** No point of an odd-order curve has ordinate zero. */
  lemma OrdinateNotZero(c: Curve, a: Point)
    requires SoundCurve(c) && Valid(c, a) && a.Affine?
    ensures a.y != 0
  {
    if a.y == 0 {
      OddOrder(c);
      RemainderUnique(0, 0, 0, c.p);
      assert PointAdd(c, a, a) == Infinity;
      NoHalves(CurveGroup(c), a);
      assert false;
    }
  }

  lemma RecoveredPointValid(c: Curve, r: int, recoveryId: int)
    requires SoundCurve(c) && InScalarRange(c, r) && RecoverPoint(c, r, recoveryId).Affine?
    ensures var a := RecoverPoint(c, r, recoveryId); Valid(c, a) && Mod(a.x, c.n) == r
  {
    var a := RecoverPoint(c, r, recoveryId);
    var alpha := Mod(a.x * a.x * a.x + c.b, c.p);
    var beta := Pow(alpha, (c.p + 1) / 4) % c.p;
    if beta == 0 {
      RemainderUnique(0, 0, 0, c.p);
      var cube := a.x * a.x * a.x + c.b;
      CongruentProduct(cube, 0, -1, c.p);
      assert cube * -1 == 0 * 0 - a.x * a.x * a.x - c.b && 0 * -1 == 0;
      OrdinateNotZero(c, Affine(a.x, 0));
    }
    RemainderUnique(a.x, if a.x == r then 0 else 1, r, c.n);
  }

  /** Every key recovery returns verifies the signature it came from. */
  lemma RecoveryVerifies(c: Curve, digest: Bytes, r: int, s: int, recoveryId: int)
    requires SoundCurve(c) && RecoverPublicKey(c, digest, r, s, recoveryId).Affine?
    ensures var key := RecoverPublicKey(c, digest, r, s, recoveryId);
            Valid(c, key) && VerifySignature(c, digest, r, s, key)
  {
    var g := CurveGroup(c);
    var point := RecoverPoint(c, r, recoveryId);
    RecoveredPointValid(c, r, recoveryId);
    var e := Mod(FromBigEndian(digest), c.n);
    var v, w := ModInv(r, c.n), ModInv(s, c.n);
    InverseInRange(r, c.n);
    InverseInRange(s, c.n);
    RecoveredKeyVerifies(g, e, r, s, v, w, c.base, point);
    var key := RecoverPublicKey(c, digest, r, s, recoveryId);
    PointMulIsTimes(c, s * v % c.n, point);
    PointMulIsTimes(c, (c.n - e) * v % c.n, c.base);
    VerifierComputes(c, digest, r, s, key);
  }

  lemma InverseInRange(v: int, n: int)
    requires Prime(n) && 0 < v < n
    ensures (ModInv(v, n) * v) % n == 1 % n
  {
    RemainderUnique(v, 0, v, n);
    RemainderUnique(1, 0, 1, n);
    ModInvCorrect(v, n);
  }

  /** What verification compares: the combination's x coordinate. */
  lemma VerifierComputes(c: Curve, digest: Bytes, r: int, s: int, key: Point)
    requires SoundCurve(c) && Valid(c, key) && key.Affine? && InScalarRange(c, r) && InScalarRange(c, s)
    ensures var point := Combination(CurveGroup(c), Mod(FromBigEndian(digest), c.n), r, ModInv(s, c.n), c.base, key);
            VerifySignature(c, digest, r, s, key) <==> point.Affine? && Mod(point.x, c.n) == r
  {
    var e := Mod(FromBigEndian(digest), c.n);
    var w := ModInv(s, c.n);
    PointMulIsTimes(c, Mod(e * w, c.n), c.base);
    PointMulIsTimes(c, Mod(r * w, c.n), key);
  }
}
