/** Modular powers and inverses, as the curve and the signer compute them. */
module Modular {
  import opened Bytes

  /** Euclidean remainder: what `mod` returns for a positive modulus. */
  function Mod(a: int, m: int): (r: int)
    requires m > 0
    ensures 0 <= r < m
  {
    a % m
  }

  /* ---------- congruence ---------- */

  lemma RemainderUnique(x: int, q: int, r: int, m: int)
    requires m > 0 && x == q * m + r && 0 <= r < m
    ensures x % m == r && x / m == q
  {
    var d := x / m - q;
    assert d * m == r - x % m by { assert x == (x / m) * m + x % m; }
    ScaleBound(d, m);
  }

  lemma ScaleBound(d: int, m: int)
    requires m >= 0
    ensures d >= 1 ==> d * m >= m
    ensures d <= -1 ==> d * m <= -m
  {
  }

  lemma AddMultiple(x: int, k: int, m: int)
    requires m > 0
    ensures (x + k * m) % m == x % m
  {
    assert x + k * m == (x / m + k) * m + x % m;
    RemainderUnique(x + k * m, x / m + k, x % m, m);
  }

  /** Congruent numbers differ by a multiple of the modulus. */
  lemma Difference(a: int, b: int, m: int) returns (k: int)
    requires m > 0 && a % m == b % m
    ensures a == b + k * m
  {
    k := a / m - b / m;
    assert a == (a / m) * m + a % m && b == (b / m) * m + b % m;
    assert k * m == (a / m) * m - (b / m) * m;
  }

  lemma ProductOfSum(x: int, y: int, c: int)
    ensures (x + y) * c == x * c + y * c
  {
  }

  lemma SwapFactors(x: int, y: int, z: int)
    ensures (x * y) * z == (x * z) * y
  {
  }

  lemma ProductShift(b: int, k: int, c: int, m: int)
    ensures (b + k * m) * c == b * c + (k * c) * m
  {
    ProductOfSum(b, k * m, c);
    SwapFactors(k, m, c);
  }

  lemma CongruentProduct(a: int, b: int, c: int, m: int)
    requires m > 0 && a % m == b % m
    ensures (a * c) % m == (b * c) % m
  {
    var k := Difference(a, b, m);
    ProductShift(b, k, c, m);
    AddMultiple(b * c, k * c, m);
  }

  lemma CongruentSum(a: int, b: int, c: int, m: int)
    requires m > 0 && a % m == b % m
    ensures (a + c) % m == (b + c) % m
  {
    var k := Difference(a, b, m);
    AddMultiple(b + c, k, m);
  }

  lemma ReduceFactor(a: int, c: int, m: int)
    requires m > 0
    ensures ((a % m) * c) % m == (a * c) % m
  {
    RemainderUnique(a % m, 0, a % m, m);
    CongruentProduct(a % m, a, c, m);
  }

  /* ---------- powers ---------- */

  function Pow(b: int, e: nat): int {
    if e == 0 then 1 else b * Pow(b, e - 1)
  }

  lemma {:induction false} PowSquares(b: int, e: nat)
    ensures Pow(b, 2 * e) == Pow(b * b, e)
  {
    if e > 0 {
      PowSquares(b, e - 1);
      assert Pow(b, 2 * e) == b * (b * Pow(b, 2 * e - 2));
      assert b * (b * Pow(b, 2 * e - 2)) == (b * b) * Pow(b, 2 * e - 2);
    }
  }

  lemma {:induction false} PowReduces(b: int, e: nat, m: int)
    requires m > 0
    ensures Pow(b % m, e) % m == Pow(b, e) % m
  {
    if e > 0 {
      PowReduces(b, e - 1, m);
      var p, q := Pow(b % m, e - 1), Pow(b, e - 1);
      CongruentProduct(p, q, b % m, m);
      assert p * (b % m) == (b % m) * p && q * (b % m) == (b % m) * q;
      ReduceFactor(b, q, m);
    }
  }

  /** One turn of square-and-multiply keeps result * b^e. */
  lemma PowTurn(result: int, b: int, e: nat, m: int)
    requires m > 0 && e > 0
    ensures var next := if e % 2 == 1 then (result * b) % m else result;
            (next * Pow((b * b) % m, e / 2)) % m == (result * Pow(b, e)) % m
  {
    var h := e / 2;
    var square := Pow(b * b, h);
    var next := if e % 2 == 1 then (result * b) % m else result;
    PowSquares(b, h);
    PowReduces(b * b, h, m);
    CongruentProduct(Pow((b * b) % m, h), square, next, m);
    assert next * square == square * next && next * Pow((b * b) % m, h) == Pow((b * b) % m, h) * next;
    if e % 2 == 1 {
      assert e == 2 * h + 1 && Pow(b, e) == b * Pow(b, 2 * h);
      ReduceFactor(result * b, square, m);
      assert (result * b) * square == result * (b * square);
    } else {
      assert e == 2 * h;
    }
  }

  /** Square and multiply. */
  method ModPow(base: int, exponent: nat, m: int) returns (result: int)
    requires m > 1
    ensures result == Pow(base, exponent) % m
  {
    result := 1;
    var b, e := Mod(base, m), exponent;
    PowReduces(base, exponent, m);
    while e > 0
      invariant 0 <= result < m
      invariant (result * Pow(b, e)) % m == Pow(base, exponent) % m
    {
      PowTurn(result, b, e, m);
      if e % 2 == 1 { result := (result * b) % m; }
      b := (b * b) % m;
      e := e / 2;
    }
    assert result * Pow(b, 0) == result;
    RemainderUnique(result, 0, result, m);
  }

  /* ---------- inverses ---------- */

  /** No divisor but 1 and itself. */
  ghost predicate Prime(p: int) { p > 1 && forall d | 1 < d < p :: p % d != 0 }

  /** The extended Euclidean loop: the coefficient of the first argument at the end. */
  function Euclid(oldR: nat, r: nat, oldS: int, s: int): int
    decreases r
  {
    if r == 0 then oldS
    else
      var q := oldR / r;
      Euclid(r, oldR % r, s, oldS - q * s)
  }

  /** The inverse modulo m; meaningless for a multiple of m, for which nobody may ask. */
  function ModInv(value: int, m: int): (r: int)
    requires m > 0
    ensures 0 <= r < m
  {
    Euclid(Mod(value, m), m, 1, 0) % m
  }

  /** None where the source throws. */
  method ComputeModInv(value: int, m: int) returns (r: Option<int>)
    requires m > 0
    ensures r == if value % m == 0 then None else Some(ModInv(value, m))
  {
    var a := Mod(value, m);
    if a == 0 { return None; }
    var oldR: nat, r0: nat := a, m;
    var oldS, s := 1, 0;
    while r0 != 0
      invariant Euclid(oldR, r0, oldS, s) == Euclid(Mod(value, m), m, 1, 0)
      decreases r0
    {
      var q := oldR / r0;
      Remainder(oldR, r0);
      oldR, r0 := r0, oldR - q * r0;
      oldS, s := s, oldS - q * s;
    }
    r := Some(oldS % m);
  }

  lemma Remainder(a: nat, b: nat)
    requires b > 0
    ensures a - (a / b) * b == a % b
  {
    assert a == (a / b) * b + a % b;
  }

  predicate Divides(d: nat, x: int) { d > 0 && x % d == 0 }

  lemma DividesSum(d: nat, q: int, r: int, x: int)
    requires Divides(d, q) && Divides(d, r)
    ensures Divides(d, x * q + r)
  {
    var k := q / d;
    assert q == k * d by { assert q == (q / d) * d + q % d; }
    assert x * q + r == r + (x * k) * d by { assert x * (k * d) == (x * k) * d; }
    AddMultiple(r, x * k, d);
  }

  /** The loop keeps Bezout's identity modulo m, and ends on a common divisor. */
  lemma {:induction false} EuclidBezout(oldR: nat, r: nat, oldS: int, s: int, a: int, m: int) returns (g: nat)
    requires m > 0 && (oldR > 0 || r > 0)
    requires (oldS * a) % m == oldR % m && (s * a) % m == r % m
    ensures Divides(g, oldR) && Divides(g, r)
    ensures (Euclid(oldR, r, oldS, s) * a) % m == g % m
    decreases r
  {
    if r == 0 {
      g := oldR;
      assert oldR % oldR == 0 by { RemainderUnique(oldR, 1, 0, oldR); }
      assert 0 % oldR == 0 by { RemainderUnique(0, 0, 0, oldR); }
    } else {
      var q := oldR / r;
      var rest := oldR % r;
      Remainder(oldR, r);
      assert ((oldS - q * s) * a) % m == rest % m by {
        CongruentProduct(s * a, r, -q, m);
        CongruentSum((s * a) * -q, r * -q, oldS * a, m);
        CongruentSum(oldS * a, oldR, r * -q, m);
        assert (oldS - q * s) * a == (s * a) * -q + oldS * a;
        assert rest == oldR + r * -q;
      }
      g := EuclidBezout(r, rest, s, oldS - q * s, a, m);
      DividesSum(g, r, rest, q);
      assert oldR == q * r + rest;
    }
  }

  /** Modulo a prime everything but the multiples of it has its inverse computed. */
  lemma ModInvCorrect(value: int, p: int)
    requires Prime(p) && value % p != 0
    ensures (ModInv(value, p) * value) % p == 1
  {
    var a := value % p;
    assert (1 * a) % p == a % p && (0 * a) % p == p % p by {
      RemainderUnique(0, 0, 0, p);
      RemainderUnique(p, 1, 0, p);
    }
    var g := EuclidBezout(a, p, 1, 0, a, p);
    assert g == 1 by { PrimeDivisor(g, a, p); }
    var e := Euclid(a, p, 1, 0);
    RemainderUnique(1, 0, 1, p);
    ReduceFactor(e, a, p);
    CongruentProduct(a, value, e % p, p) by { RemainderUnique(a, 0, a, p); }
    assert (e % p) * a == a * (e % p) && (e % p) * value == value * (e % p);
  }

  lemma PrimeDivisor(g: nat, a: int, p: int)
    requires Prime(p) && 0 < a < p && Divides(g, a) && Divides(g, p)
    ensures g == 1
  {
    if g > a {
      RemainderUnique(a, 0, a, g);
      assert false;
    }
  }
}
