/** Which key recovery returns: for each recovery id exactly the key whose verification lands on the point the id names,
    so the signer's own key under the id of its nonce. */
module KeyRecovery {
  import opened Bytes
  import opened Groups
  import opened Modular
  import opened Primes
  import opened Secp256k1
  import opened Sign

  /** What recovery needs beyond the group: square roots are a power, and an abscissa is r or r + n. */
  ghost predicate RootCurve(c: Curve) {
    SoundCurve(c) && c.p % 4 == 3 && c.p <= 2 * c.n
  }

  /** The curve's constants meet the two numeric conditions. */
  lemma ConstantsFit()
    ensures SECP256K1.p % 4 == 3 && SECP256K1.p <= 2 * SECP256K1.n
  {
  }

  /** Where the verifier's own computation must land: the id's low bit is the parity of the ordinate, and its high bit
      says that the abscissa wrapped past the order. */
  predicate Names(c: Curve, r: int, recoveryId: int, point: Point) {
    && 0 <= recoveryId <= 3 && point.Affine?
    && point.y % 2 == recoveryId % 2 && point.x == if recoveryId >= 2 then r + c.n else r
  }

  function Landing(c: Curve, digest: Bytes, r: nat, s: int, key: Point): Point {
    Combination(CurveGroup(c), Mod(FromBigEndian(digest), c.n), r, ModInv(s, c.n), c.base, key)
  }

  /* ---------- the point an id names ---------- */

  lemma CubeMinus(x: int, y: int, b: int, p: int)
    requires p > 0
    ensures (y * y - x * x * x - b) % p == 0 <==> (y * y) % p == (x * x * x + b) % p
  {
    var rest := x * x * x + b;
    RemainderUnique(0, 0, 0, p);
    if (y * y) % p == rest % p { CongruentSum(y * y, rest, -rest, p); }
    if (y * y - rest) % p == 0 { CongruentSum(y * y - rest, 0, rest, p); }
  }

  lemma OppositeParity(p: int, y: int)
    requires p % 2 == 1
    ensures (p - y) % 2 != y % 2
  {
  }

  /** The power of a point's cube is its ordinate or the negative of it, and their parities differ. */
  lemma RootOf(c: Curve, a: Point)
    requires RootCurve(c) && Valid(c, a) && a.Affine?
    ensures var alpha := Mod(a.x * a.x * a.x + c.b, c.p);
            var beta := Pow(alpha, (c.p + 1) / 4) % c.p;
            && Mod(beta * beta, c.p) == alpha && (beta == a.y || beta == c.p - a.y)
            && (c.p - a.y) % 2 != a.y % 2
  {
    var alpha := Mod(a.x * a.x * a.x + c.b, c.p);
    CubeMinus(a.x, a.y, c.b, c.p);
    RootExponent(alpha, a.y, c.p);
    OrdinateNotZero(c, a);
    TwoRoots(Pow(alpha, (c.p + 1) / 4) % c.p, a.y, c.p);
    OppositeParity(c.p, a.y);
  }

  /** The one point of the curve an id names is the one recovery works out. */
  lemma NamedIsRecovered(c: Curve, r: int, recoveryId: int, a: Point)
    requires RootCurve(c) && Valid(c, a) && Names(c, r, recoveryId, a)
    ensures RecoverPoint(c, r, recoveryId) == a
  {
    RootOf(c, a);
  }

  lemma RecoveredIsNamed(c: Curve, r: int, recoveryId: int)
    requires SoundCurve(c) && InScalarRange(c, r) && 0 <= recoveryId <= 3
    requires RecoverPoint(c, r, recoveryId).Affine?
    ensures Names(c, r, recoveryId, RecoverPoint(c, r, recoveryId))
  {
    var a := RecoverPoint(c, r, recoveryId);
    var beta := Pow(Mod(a.x * a.x * a.x + c.b, c.p), (c.p + 1) / 4) % c.p;
    OppositeParity(c.p, beta);
  }

  /* ---------- the key it gives ---------- */

  /** From u B + j key back to the key. */
  lemma BackToKey<T(!new)>(g: Group<T>, u: nat, j: nat, a: nat, b: nat, base: T, key: T)
    requires IsGroup(g) && g.member(base) && g.member(key)
    requires (a * j) % g.order == 1 % g.order && (a * u + b) % g.order == 0 % g.order
    ensures g.add(Times(g, a, g.add(Times(g, u, base), Times(g, j, key))), Times(g, b, base)) == key
  {
    Spread(g, a, u, base, j, key);
    TimesCongruent(g, a * j, 1, key);
    TimesOne(g, key);
    CancelRest(g, a * u, b, base, key);
  }

  lemma Natural(a: nat, b: nat)
    ensures a * b >= 0
  {
  }

  /** Whatever key the verifier takes to a point, the recovery formula takes that point back to. */
  lemma FormulaInverts<T(!new)>(g: Group<T>, e: nat, r: nat, s: nat, v: nat, w: nat, base: T, key: T)
    requires IsGroup(g) && g.member(base) && g.member(key) && e <= g.order
    requires (v * r) % g.order == 1 % g.order && (w * s) % g.order == 1 % g.order
    ensures var point := Combination(g, e, r, w, base, key);
            g.add(Times(g, s * v % g.order, point), Times(g, (g.order - e) * v % g.order, base)) == key
  {
    Natural(e, w);
    Natural(r, w);
    Natural(s, v);
    Natural(g.order - e, v);
    KeyFactor(r, s, v, w, g.order);
    BaseFactor(e, s, v, w, g.order);
    CombinationIs(g, e, r, w, base, key);
    ReducedBackToKey(g, e * w, r * w, s * v, (g.order - e) * v, base, key);
  }

  lemma ReducedBackToKey<T(!new)>(g: Group<T>, u: nat, j: nat, a: nat, b: nat, base: T, key: T)
    requires IsGroup(g) && g.member(base) && g.member(key)
    requires (a * j) % g.order == 1 % g.order && (a * u + b) % g.order == 0 % g.order
    ensures g.add(Times(g, a % g.order, g.add(Times(g, u, base), Times(g, j, key))), Times(g, b % g.order, base)) == key
  {
    var point := g.add(Times(g, u, base), Times(g, j, key));
    TimesMember(g, u, base);
    TimesMember(g, j, key);
    Add(g, Times(g, u, base), Times(g, j, key));
    TimesReduced(g, a, point);
    TimesReduced(g, b, base);
    BackToKey(g, u, j, a, b, base, key);
  }

  lemma KeyFactor(r: nat, s: nat, v: nat, w: nat, n: nat)
    requires n > 0 && (v * r) % n == 1 % n && (w * s) % n == 1 % n
    ensures (s * v * (r * w)) % n == 1 % n
  {
    UnitProduct(r, w, s, v, n);
    assert s * v * (r * w) == r * w * (s * v);
  }

  lemma BaseFactor(e: nat, s: nat, v: nat, w: nat, n: nat)
    requires n > 0 && e <= n && (w * s) % n == 1 % n
    ensures (s * v * (e * w) + (n - e) * v) % n == 0 % n
  {
    CongruentProduct(w * s, 1, v * e, n);
    assert s * v * (e * w) == (w * s) * (v * e);
    CongruentSum((w * s) * (v * e), v * e, (n - e) * v, n);
    assert v * e + (n - e) * v == 0 + v * n;
    AddMultiple(0, v, n);
  }

  /** (a B + key) + b B is the key when a + b is a multiple of the order. */
  lemma CancelRest<T(!new)>(g: Group<T>, a: nat, b: nat, base: T, key: T)
    requires IsGroup(g) && g.member(base) && g.member(key) && (a + b) % g.order == 0 % g.order
    ensures g.add(g.add(Times(g, a, base), key), Times(g, b, base)) == key
  {
    var x, y := Times(g, a, base), Times(g, b, base);
    TimesMember(g, a, base);
    TimesMember(g, b, base);
    TimesSum(g, a, b, base);
    TimesCongruent(g, a + b, 0, base);
    Add(g, x, key);
    Add3(g, key, x, y);
    Zero(g, key);
  }

  lemma LandingValid(c: Curve, digest: Bytes, r: int, s: int, key: Point)
    requires SoundCurve(c) && InScalarRange(c, r) && InScalarRange(c, s) && Valid(c, key)
    ensures Valid(c, Landing(c, digest, r, s, key))
  {
    var g, w, e := CurveGroup(c), ModInv(s, c.n), Mod(FromBigEndian(digest), c.n);
    TimesMember(g, e * w % c.n, c.base);
    TimesMember(g, r * w % c.n, key);
    Add(g, Times(g, e * w % c.n, c.base), Times(g, r * w % c.n, key));
  }

  /** The key the formula gives for a point: s/r of it less e/r of the base. */
  function KeyOf(c: Curve, e: nat, s: nat, v: nat, point: Point): Point
    requires e <= c.n
  {
    var g := CurveGroup(c);
    g.add(Times(g, s * v % c.n, point), Times(g, (c.n - e) * v % c.n, c.base))
  }

  lemma KeyFromComputes(c: Curve, e: nat, s: nat, v: nat, point: Point)
    requires SoundCurve(c) && Valid(c, point) && e <= c.n
    ensures KeyFrom(c, e, s, v, point) == KeyOf(c, e, s, v, point) && Valid(c, KeyFrom(c, e, s, v, point))
  {
    TwoMultiples(c, Mod(s * v, c.n), point, Mod((c.n - e) * v, c.n), c.base);
  }

  /** What recovery computes once it has its point. */
  lemma RecoverComputes(c: Curve, digest: Bytes, r: int, s: int, recoveryId: int)
    requires SoundCurve(c) && InScalarRange(c, r) && InScalarRange(c, s) && 0 <= recoveryId <= 3
    requires RecoverPoint(c, r, recoveryId).Affine?
    ensures RecoverPublicKey(c, digest, r, s, recoveryId)
            == KeyOf(c, Mod(FromBigEndian(digest), c.n), s, ModInv(r, c.n), RecoverPoint(c, r, recoveryId))
  {
    RecoveredPointValid(c, r, recoveryId);
    KeyFromComputes(c, Mod(FromBigEndian(digest), c.n), s, ModInv(r, c.n), RecoverPoint(c, r, recoveryId));
  }

  lemma KeyOfLands(c: Curve, e: nat, r: nat, s: nat, v: nat, w: nat, point: Point)
    requires SoundCurve(c) && Valid(c, point) && e <= c.n
    requires (v * r) % c.n == 1 % c.n && (w * s) % c.n == 1 % c.n
    ensures Combination(CurveGroup(c), e, r, w, c.base, KeyOf(c, e, s, v, point)) == point
  {
    RecoveredKeyVerifies(CurveGroup(c), e, r, s, v, w, c.base, point);
  }

  lemma KeyOfInverts(c: Curve, e: nat, r: nat, s: nat, v: nat, w: nat, key: Point)
    requires SoundCurve(c) && Valid(c, key) && e <= c.n
    requires (v * r) % c.n == 1 % c.n && (w * s) % c.n == 1 % c.n
    ensures KeyOf(c, e, s, v, Combination(CurveGroup(c), e, r, w, c.base, key)) == key
  {
    FormulaInverts(CurveGroup(c), e, r, s, v, w, c.base, key);
  }

  lemma TwoMultiples(c: Curve, i: nat, a: Point, j: nat, b: Point)
    requires SoundCurve(c) && Valid(c, a) && Valid(c, b)
    ensures var sum := PointAdd(c, PointMul(c, i, a), PointMul(c, j, b));
            Valid(c, sum) && sum == CurveGroup(c).add(Times(CurveGroup(c), i, a), Times(CurveGroup(c), j, b))
  {
    PointMulIsTimes(c, i, a);
    PointMulIsTimes(c, j, b);
    Add(CurveGroup(c), PointMul(c, i, a), PointMul(c, j, b));
  }

  lemma RecoveredFrom(c: Curve, digest: Bytes, r: int, s: int, recoveryId: int)
    requires RecoverPublicKey(c, digest, r, s, recoveryId).Affine?
    ensures InScalarRange(c, r) && InScalarRange(c, s) && 0 <= recoveryId <= 3
    ensures RecoverPoint(c, r, recoveryId).Affine?
  {
  }

  lemma RecoveredLands(c: Curve, digest: Bytes, r: int, s: int, recoveryId: int)
    requires SoundCurve(c) && InScalarRange(c, r) && InScalarRange(c, s) && 0 <= recoveryId <= 3
    requires RecoverPoint(c, r, recoveryId).Affine?
    ensures Landing(c, digest, r, s, RecoverPublicKey(c, digest, r, s, recoveryId)) == RecoverPoint(c, r, recoveryId)
  {
    InverseInRange(r, c.n);
    InverseInRange(s, c.n);
    RecoveredPointValid(c, r, recoveryId);
    RecoverComputes(c, digest, r, s, recoveryId);
    KeyOfLands(c, Mod(FromBigEndian(digest), c.n), r, s, ModInv(r, c.n), ModInv(s, c.n),
               RecoverPoint(c, r, recoveryId));
  }

  lemma RecoveredKeyNamed(c: Curve, digest: Bytes, r: int, s: int, recoveryId: int, key: Point)
    requires SoundCurve(c) && key.Affine? && RecoverPublicKey(c, digest, r, s, recoveryId) == key
    ensures InScalarRange(c, r) && InScalarRange(c, s) && Valid(c, key)
    ensures Names(c, r, recoveryId, Landing(c, digest, r, s, key))
  {
    RecoveredFrom(c, digest, r, s, recoveryId);
    RecoveryVerifies(c, digest, r, s, recoveryId);
    RecoveredLands(c, digest, r, s, recoveryId);
    RecoveredIsNamed(c, r, recoveryId);
  }

  lemma NamedKeyReturned(c: Curve, digest: Bytes, r: int, s: int, recoveryId: int, key: Point)
    requires RootCurve(c) && InScalarRange(c, r) && InScalarRange(c, s) && Valid(c, key)
    requires Names(c, r, recoveryId, Landing(c, digest, r, s, key))
    ensures RecoverPublicKey(c, digest, r, s, recoveryId) == key
  {
    InverseInRange(r, c.n);
    InverseInRange(s, c.n);
    LandingValid(c, digest, r, s, key);
    NamedIsRecovered(c, r, recoveryId, Landing(c, digest, r, s, key));
    RecoverComputes(c, digest, r, s, recoveryId);
    KeyOfInverts(c, Mod(FromBigEndian(digest), c.n), r, s, ModInv(r, c.n), ModInv(s, c.n), key);
  }

  /** Recovery returns a key exactly if the id names the point at which verifying with that key lands. */
  lemma RecoversIff(c: Curve, digest: Bytes, r: int, s: int, recoveryId: int, key: Point)
    requires RootCurve(c) && key.Affine?
    ensures RecoverPublicKey(c, digest, r, s, recoveryId) == key
            <==> && InScalarRange(c, r) && InScalarRange(c, s) && Valid(c, key)
                 && Names(c, r, recoveryId, Landing(c, digest, r, s, key))
  {
    if RecoverPublicKey(c, digest, r, s, recoveryId) == key {
      RecoveredKeyNamed(c, digest, r, s, recoveryId, key);
    } else if InScalarRange(c, r) && InScalarRange(c, s) && Valid(c, key) {
      if Names(c, r, recoveryId, Landing(c, digest, r, s, key)) {
        NamedKeyReturned(c, digest, r, s, recoveryId, key);
      }
    }
  }

  /* ---------- signing, then recovering ---------- */

  /** The id of a signature: the parity of the nonce point's ordinate, flipped where s was negated, and two more where
      its abscissa is not below the order. */
  function RecoveryIdOf(c: Curve, nonce: Point, negated: bool): (id: int)
    requires nonce.Affine?
    ensures 0 <= id <= 3
  {
    (if negated then 1 - nonce.y % 2 else nonce.y % 2) + if nonce.x >= c.n then 2 else 0
  }

  lemma LandsOnNonce(c: Curve, digest: Bytes, scalar: nat, k: nat, r: int, s: int)
    requires SoundCurve(c) && k < c.n && TryNonce(c, digest, scalar, k) == Some(Signature(r, s))
    ensures var e := Mod(FromBigEndian(digest), c.n);
            && InScalarRange(c, r) && InScalarRange(c, s)
            && Landing(c, digest, r, s, PointMul(c, scalar, c.base))
               == Times(CurveGroup(c), if RawScalar(c, e, r, scalar, k) > c.n / 2 then c.n - k else k, c.base)
  {
    var e := Mod(FromBigEndian(digest), c.n);
    UsableNonce(c, digest, scalar, k);
    CombinationIsNonce(c, e, r, scalar, k, RawScalar(c, e, r, scalar, k), s);
    PointMulIsTimes(c, scalar, c.base);
  }

  lemma WrappedOnce(x: int, n: int, p: int)
    requires 0 <= x < p <= 2 * n
    ensures x == if x >= n then x % n + n else x % n
  {
    RemainderUnique(x, if x >= n then 1 else 0, if x >= n then x - n else x, n);
  }

  /** The id of a nonce point names that point, or its mirror image. */
  lemma NonceNamed(c: Curve, r: int, a: Point, negated: bool)
    requires c.p % 2 == 1 && c.p <= 2 * c.n && Valid(c, a) && a.Affine? && r == Mod(a.x, c.n)
    ensures Names(c, r, RecoveryIdOf(c, a, negated), if negated then Affine(a.x, c.p - a.y) else a)
  {
    OppositeParity(c.p, a.y);
    WrappedOnce(a.x, c.n, c.p);
  }

  /** Every signature the signer makes gives its key back, under the id of the nonce that made it. */
  lemma NonceRecovers(c: Curve, digest: Bytes, scalar: nat, k: nat, r: int, s: int)
    requires RootCurve(c) && scalar % c.n != 0 && k < c.n
    requires TryNonce(c, digest, scalar, k) == Some(Signature(r, s))
    ensures var point := PointMul(c, k, c.base);
            var negated := RawScalar(c, Mod(FromBigEndian(digest), c.n), r, scalar, k) > c.n / 2;
            && point.Affine?
            && RecoverPublicKey(c, digest, r, s, RecoveryIdOf(c, point, negated)) == PointMul(c, scalar, c.base)
  {
    var negated := RawScalar(c, Mod(FromBigEndian(digest), c.n), r, scalar, k) > c.n / 2;
    var key := PointMul(c, scalar, c.base);
    UsableNonce(c, digest, scalar, k);
    LandsOnNonce(c, digest, scalar, k, r, s);
    PointMulIsTimes(c, k, c.base);
    NegativeMirrors(c, k);
    NonceNamed(c, r, PointMul(c, k, c.base), negated);
    PointMulIsTimes(c, scalar, c.base);
    PublicKeyAffine(c, scalar);
    RecoversIff(c, digest, r, s, RecoveryIdOf(c, PointMul(c, k, c.base), negated), key);
  }

  lemma OneIdNames(c: Curve, r: int, i: int, j: int, point: Point)
    requires c.n > 0 && Names(c, r, i, point) && Names(c, r, j, point)
    ensures i == j
  {
  }

  /** Different ids give different keys. */
  lemma OneIdRecovers(c: Curve, digest: Bytes, r: int, s: int, i: int, j: int)
    requires RootCurve(c) && RecoverPublicKey(c, digest, r, s, i).Affine?
    requires RecoverPublicKey(c, digest, r, s, i) == RecoverPublicKey(c, digest, r, s, j)
    ensures i == j
  {
    var key := RecoverPublicKey(c, digest, r, s, i);
    RecoversIff(c, digest, r, s, i, key);
    RecoversIff(c, digest, r, s, j, key);
    OneIdNames(c, r, i, j, Landing(c, digest, r, s, key));
  }

  lemma PublicKeyAffine(c: Curve, scalar: nat)
    requires SoundCurve(c) && scalar % c.n != 0
    ensures PointMul(c, scalar, c.base).Affine?
  {
    PointMulIsTimes(c, scalar, c.base);
    MultipleNotZero(c, scalar);
  }

  /** Signing, then recovering: exactly one of the four ids gives back the signer's public key. */
  lemma SignThenRecover(c: Curve, nonce: Nonce, digest: Bytes, scalar: nat) returns (id: int)
    requires RootCurve(c) && scalar % c.n != 0 && SignDigest(c, nonce, digest, scalar).Some?
    ensures var Signature(r, s) := SignDigest(c, nonce, digest, scalar).value;
            forall i :: RecoverPublicKey(c, digest, r, s, i) == PointMul(c, scalar, c.base) <==> i == id
    ensures 0 <= id <= 3
  {
    var k := SomeNonce(c, nonce, digest, scalar, 0);
    var Signature(r, s) := SignDigest(c, nonce, digest, scalar).value;
    NonceRecovers(c, digest, scalar, k, r, s);
    PublicKeyAffine(c, scalar);
    id := RecoveryIdOf(c, PointMul(c, k, c.base),
                       RawScalar(c, Mod(FromBigEndian(digest), c.n), r, scalar, k) > c.n / 2);
    forall i | RecoverPublicKey(c, digest, r, s, i) == PointMul(c, scalar, c.base) ensures i == id {
      OneIdRecovers(c, digest, r, s, i, id);
    }
  }

  /* ---------- when a nonce is of no use ---------- */

  lemma UnitTimes(i: int, k: int, m: int, n: int)
    requires Prime(n) && (i * k) % n == 1 % n && (i * m) % n == 0
    ensures m % n == 0
  {
    RemainderUnique(0, 0, 0, n);
    CongruentProduct(i * k, 1, m, n);
    CongruentProduct(i * m, 0, k, n);
    assert (i * k) * m == (i * m) * k && 1 * m == m && 0 * k == 0;
  }

  lemma RawZeroIff(c: Curve, e: nat, r: nat, scalar: nat, k: nat, m: nat)
    requires SoundCurve(c) && 0 < k < c.n && m == e + r * scalar
    ensures RawScalar(c, e, r, scalar, k) == 0 <==> m % c.n == 0
  {
    var i := ModInv(k, c.n);
    InverseInRange(k, c.n);
    if (i * m) % c.n == 0 { UnitTimes(i, k, m, c.n); }
    if m % c.n == 0 {
      RemainderUnique(0, 0, 0, c.n);
      CongruentProduct(m, 0, i, c.n);
      assert m * i == i * m && 0 * i == 0;
    }
  }

  lemma RefusedFor(c: Curve, digest: Bytes, scalar: nat, k: nat, r: nat, e: nat)
    requires k > 0 && PointMul(c, k, c.base).Affine? && r == Mod(PointMul(c, k, c.base).x, c.n)
    requires e == Mod(FromBigEndian(digest), c.n)
    ensures TryNonce(c, digest, scalar, k).None? <==> r == 0 || RawScalar(c, e, r, scalar, k) == 0
  {
  }

  lemma SameSum(a: nat, b: nat, n: nat)
    requires n > 0
    ensures (a % n + b) % n == (a + b) % n
  {
    RemainderUnique(a % n, 0, a % n, n);
    CongruentSum(a % n, a, b, n);
  }

  /** The signer moves on to the next counter exactly if k B has an abscissa that is a multiple of the order, or k s
      would have to be zero. */
  lemma NonceRefusedIff(c: Curve, digest: Bytes, scalar: nat, k: nat, r: nat)
    requires SoundCurve(c) && 0 < k < c.n
    requires PointMul(c, k, c.base).Affine? ==> r == Mod(PointMul(c, k, c.base).x, c.n)
    ensures PointMul(c, k, c.base).Affine?
    ensures TryNonce(c, digest, scalar, k).None?
            <==> r == 0 || (FromBigEndian(digest) + r * scalar) % c.n == 0
  {
    RemainderUnique(k, 0, k, c.n);
    PublicKeyAffine(c, k);
    Natural(r, scalar);
    RefusedFor(c, digest, scalar, k, r, Mod(FromBigEndian(digest), c.n));
    ZeroFor(c, FromBigEndian(digest), r, scalar, k, Mod(FromBigEndian(digest), c.n), r * scalar);
  }

  lemma ZeroFor(c: Curve, d: nat, r: nat, scalar: nat, k: nat, e: nat, t: nat)
    requires SoundCurve(c) && 0 < k < c.n && e == d % c.n && t == r * scalar
    ensures RawScalar(c, e, r, scalar, k) == 0 <==> (d + t) % c.n == 0
  {
    RawZeroIff(c, e, r, scalar, k, e + t);
    SameSum(d, t, c.n);
  }
}
