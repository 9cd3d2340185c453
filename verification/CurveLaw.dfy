/** What the addition formulas compute, from nothing but the primality of the modulus: the mirror image of the third
    point in which the line through two points, or the tangent at one, meets the curve. */
module CurveLaw {
  import opened Groups
  import opened Modular
  import opened Primes
  import opened Secp256k1

  /* ---------- congruences ---------- */

  predicate Same(a: int, b: int, p: int)
    requires p > 0
  {
    a % p == b % p
  }

  lemma SameSum(a: int, b: int, c: int, d: int, p: int)
    requires p > 0 && Same(a, b, p) && Same(c, d, p)
    ensures Same(a + c, b + d, p)
  {
    CongruentSum(a, b, c, p);
    CongruentSum(c, d, b, p);
  }

  lemma SameTimes(a: int, b: int, c: int, d: int, p: int)
    requires p > 0 && Same(a, b, p) && Same(c, d, p)
    ensures Same(a * c, b * d, p)
  {
    SameProduct(a, b, c, d, p);
  }

  lemma SameNegative(a: int, b: int, p: int)
    requires p > 0 && Same(a, b, p)
    ensures Same(-a, -b, p)
  {
    CongruentProduct(a, b, -1, p);
    assert a * -1 == -a && b * -1 == -b;
  }

  lemma Reduced(a: int, p: int)
    requires p > 0
    ensures Same(a % p, a, p)
  {
    RemainderUnique(a % p, 0, a % p, p);
  }

  lemma SameIff(a: int, b: int, p: int)
    requires p > 0
    ensures Same(a, b, p) <==> Same(a - b, 0, p)
  {
    if Same(a, b, p) { CongruentSum(a, b, -b, p); }
    if Same(a - b, 0, p) { CongruentSum(a - b, 0, b, p); }
  }

  /* ---------- a line and the cubic ---------- */

  /** The ordinate at x of the line of this slope through a point. */
  function Line(slope: int, x1: int, y1: int, x: int): int { slope * (x - x1) + y1 }

  /** x^3 + b less the square of the line, which vanishes where they meet. */
  function Gap(b: int, slope: int, x1: int, y1: int, x: int): int {
    var y := Line(slope, x1, y1, x);
    x * x * x + b - y * y
  }

  /** The rest of the cubic once the first intersection is divided out, in terms of the distance from it. */
  function Rest(slope: int, x1: int, y1: int, u: int): int {
    u * u - (slope * slope - 3 * x1) * u + (3 * x1 * x1 - 2 * slope * y1)
  }

  lemma Cube(x: int, u: int)
    ensures (x + u) * (x + u) * (x + u) == x * x * x + u * (u * u + 3 * x * u + 3 * x * x)
  {
    var s := (x + u) * (x + u);
    assert s == x * x + 2 * (x * u) + u * u;
    assert s * (x + u) == s * x + s * u;
    assert s * x == x * x * x + 2 * (x * u) * x + u * u * x;
    assert s * u == x * x * u + 2 * (x * u) * u + u * u * u;
    assert (x * u) * x == x * x * u && (x * u) * u == u * u * x;
    assert u * (u * u + 3 * x * u + 3 * x * x) == u * u * u + 3 * (x * u) * u + 3 * (x * x * u);
  }

  lemma LineSquare(m: int, u: int, y: int)
    ensures (m * u + y) * (m * u + y) == u * (m * m * u + 2 * m * y) + y * y
  {
    var t := m * u;
    assert (t + y) * (t + y) == t * t + 2 * (t * y) + y * y;
    assert t * t == u * (m * m * u);
    assert t * y == u * (m * y);
    assert u * (m * m * u + 2 * m * y) == u * (m * m * u) + 2 * (u * (m * y));
  }

  /** The first intersection divides out of the cubic. */
  lemma GapFactors(b: int, m: int, x1: int, y1: int, x: int)
    ensures Gap(b, m, x1, y1, x) == (x - x1) * Rest(m, x1, y1, x - x1) + (x1 * x1 * x1 + b - y1 * y1)
  {
    var u := x - x1;
    Cube(x1, u);
    LineSquare(m, u, y1);
    var f, g := u * u + 3 * x1 * u + 3 * x1 * x1, m * m * u + 2 * m * y1;
    assert f - g == Rest(m, x1, y1, u) by {
      assert (m * m - 3 * x1) * u == m * m * u - 3 * x1 * u;
    }
    assert u * f - u * g == u * (f - g);
  }

  /** So does the second, and the third is what is left. */
  lemma RestFactors(m: int, x1: int, y1: int, x2: int, x: int)
    ensures Rest(m, x1, y1, x - x1) == (x - x2) * (x - (m * m - x1 - x2)) + Rest(m, x1, y1, x2 - x1)
  {
    var u, d, e := x - x1, x2 - x1, m * m - 3 * x1;
    assert (u - d) * (u - (e - d)) == u * u - e * u + e * d - d * d by {
      assert (u - d) * (u - (e - d)) == u * (u - (e - d)) - d * (u - (e - d));
      assert u * (u - (e - d)) == u * u - e * u + u * d && d * (u - (e - d)) == d * u - e * d + d * d;
    }
  }

  /** A line through a point of the curve, whose second intersection is at x2, meets it thrice: at x1, x2 and at the
      third abscissa. */
  ghost predicate MeetsAt(c: Curve, m: int, x1: int, y1: int, x2: int, x3: int) {
    forall x: int :: Same(Gap(c.b, m, x1, y1, x), (x - x1) * ((x - x2) * (x - x3)), c.p)
  }

  lemma Meets(c: Curve, m: int, x1: int, y1: int, x2: int, x3: int)
    requires Same(x1 * x1 * x1 + c.b - y1 * y1, 0, c.p) && Same(Rest(m, x1, y1, x2 - x1), 0, c.p)
    requires Same(x3, m * m - x1 - x2, c.p)
    ensures MeetsAt(c, m, x1, y1, x2, x3)
  {
    forall x: int ensures Same(Gap(c.b, m, x1, y1, x), (x - x1) * ((x - x2) * (x - x3)), c.p) {
      var z := m * m - x1 - x2;
      GapFactors(c.b, m, x1, y1, x);
      RestFactors(m, x1, y1, x2, x);
      SameNegative(x3, z, c.p);
      SameSum(x, x, -x3, -z, c.p);
      SameTimes(x - x2, x - x2, x - x3, x - z, c.p);
      SameSum((x - x2) * (x - z), (x - x2) * (x - x3), Rest(m, x1, y1, x2 - x1), 0, c.p);
      SameTimes(x - x1, x - x1, Rest(m, x1, y1, x - x1), (x - x2) * (x - x3), c.p);
      SameSum((x - x1) * Rest(m, x1, y1, x - x1), (x - x1) * ((x - x2) * (x - x3)),
              x1 * x1 * x1 + c.b - y1 * y1, 0, c.p);
    }
  }

  /** The reflected third point is on the curve. */
  lemma ThirdOnCurve(c: Curve, m: int, x1: int, y1: int, x2: int, x3: int, y3: int)
    requires MeetsAt(c, m, x1, y1, x2, x3) && Same(-y3, Line(m, x1, y1, x3), c.p)
    ensures OnCurve(c, Affine(x3, y3))
  {
    var y := Line(m, x1, y1, x3);
    assert Same(Gap(c.b, m, x1, y1, x3), (x3 - x1) * ((x3 - x2) * (x3 - x3)), c.p);
    assert (x3 - x1) * ((x3 - x2) * (x3 - x3)) == 0 by { assert (x3 - x2) * 0 == 0 && (x3 - x1) * 0 == 0; }
    var cube := x3 * x3 * x3 + c.b;
    SameIff(cube, y * y, c.p);
    SameTimes(-y3, y, -y3, y, c.p);
    assert -y3 * -y3 == y3 * y3;
    SameIff(y3 * y3, cube, c.p);
    RemainderUnique(0, 0, 0, c.p);
  }

  /* ---------- the two slopes ---------- */

  lemma CurveZero(c: Curve, a: Point)
    requires OnCurve(c, a) && a.Affine?
    ensures Same(a.x * a.x * a.x + c.b - a.y * a.y, 0, c.p) && Same(a.y * a.y, a.x * a.x * a.x + c.b, c.p)
  {
    var cube := a.x * a.x * a.x + c.b;
    RemainderUnique(0, 0, 0, c.p);
    SameIff(a.y * a.y, cube, c.p);
    SameIff(cube, a.y * a.y, c.p);
  }

  /** A quotient modulo the prime, times its divisor. */
  lemma QuotientTimes(h: int, d: int, p: int)
    requires Prime(p) && d % p != 0
    ensures Same(Ratio(h, d, p) * d, h, p)
  {
    var i := ModInv(d, p);
    ModInvCorrect(d, p);
    RemainderUnique(1, 0, 1, p);
    Reduced(h * i, p);
    SameTimes(Mod(h * i, p), h * i, d, d, p);
    SameTimes(i * d, 1, h, h, p);
    assert (h * i) * d == (i * d) * h;
  }

  function Ratio(h: int, d: int, p: int): int
    requires p > 0
  {
    Mod(h * ModInv(d, p), p)
  }

  function ChordSlope(c: Curve, a: Point, b: Point): int
    requires a.Affine? && b.Affine?
  {
    Ratio(b.y - a.y, b.x - a.x, c.p)
  }

  function TangentSlope(c: Curve, a: Point): int
    requires a.Affine?
  {
    Ratio(3 * a.x * a.x, 2 * a.y, c.p)
  }

  lemma DifferentResidues(x: int, y: int, p: int)
    requires 0 <= x < p && 0 <= y < p && x != y
    ensures (x - y) % p != 0
  {
    if (x - y) % p == 0 { SmallMultiple(x - y, p); }
  }

  lemma TwiceNotZero(y: int, p: int)
    requires Prime(p) && p > 2 && 0 < y < p
    ensures (2 * y) % p != 0
  {
    RemainderUnique(y, 0, y, p);
    RemainderUnique(2, 0, 2, p);
    if (2 * y) % p == 0 { ZeroProduct(2, y, p); }
  }

  /** The chord goes through both points. */
  lemma ChordThrough(c: Curve, a: Point, b: Point)
    requires Prime(c.p) && Valid(c, a) && Valid(c, b) && a.Affine? && b.Affine? && a.x != b.x
    ensures Same(Line(ChordSlope(c, a, b), a.x, a.y, b.x), b.y, c.p)
  {
    DifferentResidues(b.x, a.x, c.p);
    QuotientTimes(b.y - a.y, b.x - a.x, c.p);
    SameSum(ChordSlope(c, a, b) * (b.x - a.x), b.y - a.y, a.y, a.y, c.p);
  }

  lemma ChordRest(c: Curve, a: Point, b: Point)
    requires Prime(c.p) && Valid(c, a) && Valid(c, b) && a.Affine? && b.Affine? && a.x != b.x
    ensures Same(Rest(ChordSlope(c, a, b), a.x, a.y, b.x - a.x), 0, c.p)
  {
    var m := ChordSlope(c, a, b);
    var y, d, rest := Line(m, a.x, a.y, b.x), b.x - a.x, Rest(m, a.x, a.y, b.x - a.x);
    ChordThrough(c, a, b);
    CurveZero(c, a);
    CurveZero(c, b);
    SameTimes(y, b.y, y, b.y, c.p);
    SameIff(b.x * b.x * b.x + c.b, y * y, c.p);
    GapFactors(c.b, m, a.x, a.y, b.x);
    SameNegative(a.x * a.x * a.x + c.b - a.y * a.y, 0, c.p);
    SameSum(Gap(c.b, m, a.x, a.y, b.x), 0, -(a.x * a.x * a.x + c.b - a.y * a.y), 0, c.p);
    assert Same(d * rest, 0, c.p);
    RemainderUnique(0, 0, 0, c.p);
    DifferentResidues(b.x, a.x, c.p);
    ZeroProduct(d, rest, c.p);
  }

  lemma TangentRest(c: Curve, a: Point)
    requires Prime(c.p) && c.p > 2 && Valid(c, a) && a.Affine? && a.y != 0
    ensures Same(TangentSlope(c, a) * (2 * a.y), 3 * a.x * a.x, c.p)
    ensures Same(Rest(TangentSlope(c, a), a.x, a.y, a.x - a.x), 0, c.p)
  {
    var m := TangentSlope(c, a);
    TwiceNotZero(a.y, c.p);
    QuotientTimes(3 * a.x * a.x, 2 * a.y, c.p);
    SameIff(3 * a.x * a.x, m * (2 * a.y), c.p);
    assert m * (2 * a.y) == 2 * m * a.y;
    assert (m * m - 3 * a.x) * 0 == 0;
  }

  /* ---------- addition ---------- */

  /** r is the mirror image of the third point where a line through a and b meets the curve; where a is b the line
      touches the curve there, as the double root says. */
  ghost predicate ThirdIntersection(c: Curve, a: Point, b: Point, r: Point) {
    && a.Affine? && b.Affine? && r.Affine?
    && exists m: int :: MeetsAt(c, m, a.x, a.y, b.x, r.x) && Same(Line(m, a.x, a.y, b.x), b.y, c.p)
                        && Same(Line(m, a.x, a.y, r.x), -r.y, c.p)
  }

  /** Both formulas end alike: from the slope to the mirrored third point. */
  lemma Reflected(c: Curve, m: int, a: Point, b: Point, r: Point)
    requires Valid(c, a) && a.Affine? && b.Affine? && Same(Line(m, a.x, a.y, b.x), b.y, c.p)
    requires Same(Rest(m, a.x, a.y, b.x - a.x), 0, c.p)
    requires r == Affine(Mod(m * m - a.x - b.x, c.p), Mod(m * (a.x - Mod(m * m - a.x - b.x, c.p)) - a.y, c.p))
    ensures Valid(c, r) && ThirdIntersection(c, a, b, r)
  {
    var y := m * (a.x - r.x) - a.y;
    CurveZero(c, a);
    Reduced(m * m - a.x - b.x, c.p);
    Meets(c, m, a.x, a.y, b.x, r.x);
    Reduced(y, c.p);
    SameNegative(r.y, y, c.p);
    assert -y == Line(m, a.x, a.y, r.x) by { assert m * (a.x - r.x) == -(m * (r.x - a.x)); }
    ThirdOnCurve(c, m, a.x, a.y, b.x, r.x, r.y);
  }

  lemma ChordSum(c: Curve, a: Point, b: Point)
    requires Prime(c.p) && Valid(c, a) && Valid(c, b) && a.Affine? && b.Affine? && a.x != b.x
    ensures Valid(c, PointAdd(c, a, b)) && ThirdIntersection(c, a, b, PointAdd(c, a, b))
  {
    ChordThrough(c, a, b);
    ChordRest(c, a, b);
    Reflected(c, ChordSlope(c, a, b), a, b, PointAdd(c, a, b));
  }

  lemma TangentSum(c: Curve, a: Point)
    requires Prime(c.p) && c.p > 2 && Valid(c, a) && a.Affine? && a.y != 0
    ensures Valid(c, PointDouble(c, a)) && ThirdIntersection(c, a, a, PointDouble(c, a))
  {
    var m := TangentSlope(c, a);
    TangentRest(c, a);
    assert Line(m, a.x, a.y, a.x) == a.y by { assert m * (a.x - a.x) == 0; }
    Reflected(c, m, a, a, PointDouble(c, a));
  }

  predicate Opposite(c: Curve, a: Point, b: Point) {
    a.Affine? && b.Affine? && a.x == b.x && (a.y + b.y) % c.p == 0
  }

  /** Points over one abscissa are the same or opposite. */
  lemma SameAbscissa(c: Curve, a: Point, b: Point)
    requires Prime(c.p) && Valid(c, a) && Valid(c, b) && a.Affine? && b.Affine? && a.x == b.x
    ensures a == b || Opposite(c, a, b)
    ensures a == b && !Opposite(c, a, b) ==> a.y != 0
  {
    CurveZero(c, a);
    CurveZero(c, b);
    RemainderUnique(0, 0, 0, c.p);
    if b.y == 0 {
      assert Same(a.y * a.y, 0, c.p);
      ZeroProduct(a.y, a.y, c.p);
      RemainderUnique(a.y, 0, a.y, c.p);
    } else {
      TwoRoots(a.y, b.y, c.p);
      RemainderUnique(c.p, 1, 0, c.p);
    }
  }

  /** The sum of two points of the curve: nothing for a point and its opposite, and otherwise the mirror image of the
      third intersection, on the curve again. */
  lemma SumIsThirdIntersection(c: Curve, a: Point, b: Point)
    requires Prime(c.p) && c.p > 2 && Valid(c, a) && Valid(c, b) && a.Affine? && b.Affine?
    ensures Valid(c, PointAdd(c, a, b))
    ensures PointAdd(c, a, b).Infinity? <==> Opposite(c, a, b)
    ensures !Opposite(c, a, b) ==> ThirdIntersection(c, a, b, PointAdd(c, a, b))
  {
    if a.x != b.x {
      ChordSum(c, a, b);
    } else {
      SameAbscissa(c, a, b);
      if !Opposite(c, a, b) { TangentSum(c, a); }
    }
  }

  /* ---------- what is left to assume ---------- */

  lemma SameChord(c: Curve, a: Point, b: Point)
    requires Prime(c.p) && Valid(c, a) && Valid(c, b) && a.Affine? && b.Affine? && a.x != b.x
    ensures ChordSlope(c, a, b) == ChordSlope(c, b, a)
  {
    var m, n := ChordSlope(c, a, b), ChordSlope(c, b, a);
    DifferentResidues(b.x, a.x, c.p);
    DifferentResidues(a.x, b.x, c.p);
    QuotientTimes(b.y - a.y, b.x - a.x, c.p);
    QuotientTimes(a.y - b.y, a.x - b.x, c.p);
    SameNegative(n * (a.x - b.x), a.y - b.y, c.p);
    assert -(n * (a.x - b.x)) == n * (b.x - a.x);
    CancelFactor(m, n, b.x - a.x, c.p);
    RemainderUnique(m, 0, m, c.p);
    RemainderUnique(n, 0, n, c.p);
  }

  lemma ChordCommutes(c: Curve, a: Point, b: Point)
    requires Prime(c.p) && Valid(c, a) && Valid(c, b) && a.Affine? && b.Affine? && a.x != b.x
    ensures PointAdd(c, a, b) == PointAdd(c, b, a)
  {
    var m := ChordSlope(c, a, b);
    SameChord(c, a, b);
    ChordThrough(c, a, b);
    var x := Mod(m * m - a.x - b.x, c.p);
    var y, z := m * (a.x - x) - a.y, m * (b.x - x) - b.y;
    assert y + Line(m, a.x, a.y, b.x) == z + b.y by { assert m * (a.x - x) + m * (b.x - a.x) == m * (b.x - x); }
    SameNegative(Line(m, a.x, a.y, b.x), b.y, c.p);
    SameSum(z + b.y, z + b.y, -Line(m, a.x, a.y, b.x), -b.y, c.p);
  }

  lemma AddCommutes(c: Curve, a: Point, b: Point)
    requires Prime(c.p) && Valid(c, a) && Valid(c, b)
    ensures PointAdd(c, a, b) == PointAdd(c, b, a)
  {
    if a.Affine? && b.Affine? {
      if a.x != b.x { ChordCommutes(c, a, b); } else { SameAbscissa(c, a, b); }
    }
  }

  /** Associativity and the order are all that is assumed of the addition: given them, and that both moduli are
      prime, the points are the group everything else rests on. */
  lemma AssociativeIsSound(c: Curve)
    requires Prime(c.p) && c.p > 2 && Prime(c.n) && c.n > 2 && Valid(c, c.base) && c.base.Affine?
    requires forall a, b, d {:trigger Associates(CurveGroup(c), a, b, d)} :: Associates(CurveGroup(c), a, b, d)
    requires forall a {:trigger Times(CurveGroup(c), c.n, a)} ::
               Valid(c, a) ==> Times(CurveGroup(c), c.n, a) == Infinity
    ensures SoundCurve(c)
  {
    var g := CurveGroup(c);
    forall a, b ensures Commutes(g, a, b) {
      if Valid(c, a) && Valid(c, b) {
        AddCommutes(c, a, b);
        if a.Affine? && b.Affine? { SumIsThirdIntersection(c, a, b); }
      }
    }
    forall a ensures Neutral(g, a) {
      if Valid(c, a) { assert Times(g, c.n, a) == Infinity; }
    }
    assert c.p % 2 == 1 by { assert c.p % 2 != 0; }
  }
}
