/** Arithmetic modulo a prime: cancelling, square roots, and the exponent that takes them. */
module Primes {
  import opened Modular
  import opened Ordering
  import Sums

  lemma SameProduct(a: int, b: int, c: int, d: int, m: int)
    requires m > 0 && a % m == b % m && c % m == d % m
    ensures (a * c) % m == (b * d) % m
  {
    CongruentProduct(a, b, c, m);
    CongruentProduct(c, d, b, m);
    assert c * b == b * c && d * b == b * d;
  }

  /** What is not a multiple of the prime can be cancelled. */
  lemma CancelFactor(a: int, b: int, c: int, p: int)
    requires Prime(p) && c % p != 0 && (a * c) % p == (b * c) % p
    ensures a % p == b % p
  {
    var i := ModInv(c, p);
    ModInvCorrect(c, p);
    RemainderUnique(1, 0, 1, p);
    CongruentProduct(a * c, b * c, i, p);
    CongruentProduct(i * c, 1, a, p);
    CongruentProduct(i * c, 1, b, p);
    Rearranged(a, c, i);
    Rearranged(b, c, i);
  }

  lemma Rearranged(a: int, c: int, i: int)
    ensures (a * c) * i == (i * c) * a && 1 * a == a
  {
    assert (a * c) * i == a * (c * i) && (i * c) * a == a * (i * c);
    assert c * i == i * c;
  }

  lemma ZeroProduct(a: int, b: int, p: int)
    requires Prime(p) && (a * b) % p == 0
    ensures a % p == 0 || b % p == 0
  {
    if b % p != 0 {
      assert 0 * b == 0;
      RemainderUnique(0, 0, 0, p);
      CancelFactor(a, 0, b, p);
    }
  }

  /** A square has no roots but one and its negative. */
  lemma TwoRoots(a: int, b: int, p: int)
    requires Prime(p) && 0 <= a < p && 0 < b < p && (a * a) % p == (b * b) % p
    ensures a == b || a == p - b
  {
    RemainderUnique(0, 0, 0, p);
    CongruentSum(a * a, b * b, -(b * b), p);
    assert (a - b) * (a + b) == a * a + -(b * b);
    ZeroProduct(a - b, a + b, p);
    if (a - b) % p == 0 {
      SmallMultiple(a - b, p);
    } else {
      SmallMultiple(a + b - p, p) by { AddMultiple(a + b, -1, p); }
    }
  }

  lemma SmallMultiple(d: int, p: int)
    requires p > 0 && -p < d < p && d % p == 0
    ensures d == 0
  {
    assert d == (d / p) * p;
    ScaleBound(d / p, p);
  }

  /* ---------- Fermat ---------- */

  function Product(s: seq<int>): int {
    if s == [] then 1 else Product(s[..|s| - 1]) * s[|s| - 1]
  }

  lemma {:induction false} ProductConcat(a: seq<int>, b: seq<int>)
    ensures Product(a + b) == Product(a) * Product(b)
  {
    if b == [] {
      assert a + b == a;
    } else {
      assert (a + b)[..|a + b| - 1] == a + b[..|b| - 1];
      ProductConcat(a, b[..|b| - 1]);
      var x, y, z := Product(a), Product(b[..|b| - 1]), b[|b| - 1];
      assert (x * y) * z == x * (y * z);
    }
  }

  lemma ProductRemove(s: seq<int>, i: nat)
    requires i < |s|
    ensures Product(s) == Product(s[..i] + s[i + 1..]) * s[i]
  {
    var a, b := s[..i], s[i + 1..];
    assert s[..i + 1][..i] == a;
    assert s == s[..i + 1] + b;
    ProductConcat(s[..i + 1], b);
    ProductConcat(a, b);
    SwapFactors(Product(a), s[i], Product(b));
  }

  lemma {:induction false} ProductSame(a: seq<int>, b: seq<int>)
    requires multiset(a) == multiset(b)
    ensures Product(a) == Product(b)
  {
    if a == [] {
      assert |multiset(b)| == 0;
      assert b == [];
    } else {
      var n := |a| - 1;
      assert a[n] in multiset(b);
      var i :| 0 <= i < |b| && b[i] == a[n];
      DropLast(a);
      Sums.RemoveAt(b, i);
      ProductRemove(b, i);
      ProductSame(a[..n], b[..i] + b[i + 1..]);
    }
  }

  /** 1, 2, ..., n, each times a modulo p. */
  function Multiples(a: int, n: nat, p: int): (s: seq<int>)
    requires p > 0
    ensures |s| == n && forall i | 0 <= i < n :: s[i] == a * (i + 1) % p
  {
    seq(n, i requires 0 <= i < n => a * (i + 1) % p)
  }

  function UpTo(n: nat): (s: seq<int>)
    ensures |s| == n && forall i | 0 <= i < n :: s[i] == i + 1
  {
    seq(n, i requires 0 <= i < n => i + 1)
  }

  /** Multiplying by a unit permutes the non-zero remainders. */
  lemma MultiplesPermute(a: int, p: int)
    requires Prime(p) && a % p != 0
    ensures multiset(Multiples(a, p - 1, p)) == multiset(UpTo(p - 1))
  {
    var s, t := Multiples(a, p - 1, p), UpTo(p - 1);
    forall i, j | 0 <= i < j < |s| ensures s[i] != s[j] {
      if s[i] == s[j] {
        assert a * (i + 1) == (i + 1) * a && a * (j + 1) == (j + 1) * a;
        CancelFactor(i + 1, j + 1, a, p);
        RemainderUnique(i + 1, 0, i + 1, p);
        RemainderUnique(j + 1, 0, j + 1, p);
      }
    }
    forall x | x in s ensures x in t {
      var i :| 0 <= i < |s| && s[i] == x;
      RemainderUnique(i + 1, 0, i + 1, p);
      if x == 0 { ZeroProduct(a, i + 1, p); }
      assert t[x - 1] == x;
    }
    Sums.DistinctPart(s, t);
    assert |multiset(t) - multiset(s)| == 0;
  }

  lemma {:induction false} MultiplesProduct(a: int, n: nat, p: int)
    requires p > 0
    ensures Product(Multiples(a, n, p)) % p == (Pow(a, n) * Product(UpTo(n))) % p
  {
    if n > 0 {
      MultiplesProduct(a, n - 1, p);
      var s, t := Multiples(a, n, p), UpTo(n);
      assert s[..n - 1] == Multiples(a, n - 1, p) && t[..n - 1] == UpTo(n - 1);
      var x, y := Product(s[..n - 1]), Pow(a, n - 1) * Product(t[..n - 1]);
      ReduceFactor(a * n, 1, p);
      SameProduct(x, y, a * n % p, a * n, p);
      Regroup(Pow(a, n - 1), Product(t[..n - 1]), a, n);
    }
  }

  lemma Regroup(q: int, f: int, a: int, n: int)
    ensures (q * f) * (a * n) == (a * q) * (f * n)
  {
    assert (q * f) * (a * n) == q * (f * (a * n)) && f * (a * n) == a * (f * n);
    assert q * (a * (f * n)) == (a * q) * (f * n);
  }

  lemma {:induction false} FactorialUnit(n: nat, p: int)
    requires Prime(p) && n < p
    ensures Product(UpTo(n)) % p != 0
  {
    if n == 0 {
      RemainderUnique(1, 0, 1, p);
    } else {
      FactorialUnit(n - 1, p);
      var t := UpTo(n);
      assert t[..n - 1] == UpTo(n - 1);
      RemainderUnique(n, 0, n, p);
      if Product(t) % p == 0 { ZeroProduct(Product(t[..n - 1]), n, p); }
    }
  }

  lemma UnitPower(a: int, p: int)
    requires Prime(p) && a % p != 0
    ensures Pow(a, p - 1) % p == 1 % p
  {
    var f := Product(UpTo(p - 1));
    MultiplesPermute(a, p);
    ProductSame(Multiples(a, p - 1, p), UpTo(p - 1));
    MultiplesProduct(a, p - 1, p);
    FactorialUnit(p - 1, p);
    CancelFactor(Pow(a, p - 1), 1, f, p);
  }

  /** Fermat's little theorem. */
  lemma Fermat(a: int, p: int)
    requires Prime(p)
    ensures Pow(a, p) % p == a % p
  {
    var q := Pow(a, p - 1);
    if a % p == 0 {
      RemainderUnique(0, 0, 0, p);
      CongruentProduct(a, 0, q, p);
    } else {
      UnitPower(a, p);
      CongruentProduct(q, 1, a, p);
      Rearranged(a, q, 1);
    }
  }

  lemma {:induction false} PowAdds(b: int, i: nat, j: nat)
    ensures Pow(b, i + j) == Pow(b, i) * Pow(b, j)
  {
    if i > 0 {
      PowAdds(b, i - 1, j);
      assert b * (Pow(b, i - 1) * Pow(b, j)) == (b * Pow(b, i - 1)) * Pow(b, j);
    }
  }

  /** Where p is 3 modulo 4, raising a square to (p + 1) / 4 takes a root of it. */
  lemma RootExponent(square: int, y: int, p: int)
    requires Prime(p) && p % 4 == 3 && square == (y * y) % p
    ensures var beta := Pow(square, (p + 1) / 4) % p; (beta * beta) % p == square
  {
    var e := (p + 1) / 4;
    var whole := Pow(y, 2 * e);
    PowReduces(y * y, e, p);
    PowSquares(y, e);
    var beta := Pow(square, e) % p;
    RemainderUnique(beta, 0, beta, p);
    SameProduct(beta, whole, beta, whole, p);
    PowAdds(y, 2 * e, 2 * e);
    assert 2 * e + 2 * e == p + 1;
    Fermat(y, p);
    CongruentProduct(Pow(y, p), y, y, p);
    assert Pow(y, p + 1) == y * Pow(y, p) == Pow(y, p) * y;
  }
}
