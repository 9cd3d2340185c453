/** Scalar multiples in an abelian group of a given order, over any representation of its elements. */
module Groups {
  import opened Modular

  datatype Group<!T> = Group(add: (T, T) -> T, zero: T, member: T -> bool, order: nat)

  /** The laws used here; they hold of every abelian group whose order is g.order. */
  ghost predicate IsGroup<T(!new)>(g: Group<T>) {
    && g.order > 0 && g.member(g.zero)
    && (forall a, b {:trigger Commutes(g, a, b)} :: Commutes(g, a, b))
    && (forall a, b, c {:trigger Associates(g, a, b, c)} :: Associates(g, a, b, c))
    && (forall a {:trigger Neutral(g, a)} :: Neutral(g, a))
  }

  predicate Commutes<T(==)>(g: Group<T>, a: T, b: T) {
    g.member(a) && g.member(b) ==> g.member(g.add(a, b)) && g.add(a, b) == g.add(b, a)
  }

  predicate Associates<T(==)>(g: Group<T>, a: T, b: T, c: T) {
    g.member(a) && g.member(b) && g.member(c) ==> g.add(g.add(a, b), c) == g.add(a, g.add(b, c))
  }

  predicate Neutral<T(==)>(g: Group<T>, a: T) {
    g.member(a) ==> g.add(g.zero, a) == a && Times(g, g.order, a) == g.zero
  }

  lemma Add<T(!new)>(g: Group<T>, a: T, b: T)
    requires IsGroup(g) && g.member(a) && g.member(b)
    ensures g.member(g.add(a, b)) && g.add(a, b) == g.add(b, a)
  {
    assert Commutes(g, a, b);
  }

  lemma Add3<T(!new)>(g: Group<T>, a: T, b: T, c: T)
    requires IsGroup(g) && g.member(a) && g.member(b) && g.member(c)
    ensures g.add(g.add(a, b), c) == g.add(a, g.add(b, c))
  {
    assert Associates(g, a, b, c);
  }

  lemma Zero<T(!new)>(g: Group<T>, a: T)
    requires IsGroup(g) && g.member(a)
    ensures g.add(g.zero, a) == a == g.add(a, g.zero) && Times(g, g.order, a) == g.zero
  {
    assert Neutral(g, a);
    Add(g, g.zero, a);
  }

  /** The element added to itself k times. */
  function Times<T>(g: Group<T>, k: nat, a: T): T {
    if k == 0 then g.zero else g.add(a, Times(g, k - 1, a))
  }

  lemma {:induction false} TimesMember<T(!new)>(g: Group<T>, k: nat, a: T)
    requires IsGroup(g) && g.member(a)
    ensures g.member(Times(g, k, a))
  {
    if k > 0 {
      TimesMember(g, k - 1, a);
      Add(g, a, Times(g, k - 1, a));
    }
  }

  lemma {:induction false} TimesSum<T(!new)>(g: Group<T>, j: nat, k: nat, a: T)
    requires IsGroup(g) && g.member(a)
    ensures Times(g, j + k, a) == g.add(Times(g, j, a), Times(g, k, a))
  {
    TimesMember(g, k, a);
    if j == 0 {
      Zero(g, Times(g, k, a));
    } else {
      TimesMember(g, j - 1, a);
      TimesSum(g, j - 1, k, a);
      Add3(g, a, Times(g, j - 1, a), Times(g, k, a));
    }
  }

  lemma {:induction false} TimesZero<T(!new)>(g: Group<T>, k: nat)
    requires IsGroup(g)
    ensures Times(g, k, g.zero) == g.zero
  {
    if k > 0 {
      TimesZero(g, k - 1);
      Zero(g, g.zero);
    }
  }

  lemma {:induction false} TimesProduct<T(!new)>(g: Group<T>, j: nat, k: nat, a: T)
    requires IsGroup(g) && g.member(a)
    ensures Times(g, j * k, a) == Times(g, j, Times(g, k, a))
  {
    if j == 0 {
      assert j * k == 0;
    } else {
      assert j * k == k + (j - 1) * k;
      TimesProduct(g, j - 1, k, a);
      TimesSum(g, k, (j - 1) * k, a);
    }
  }

  /** (a + b) + (c + d) == (a + c) + (b + d) */
  lemma Interchange<T(!new)>(g: Group<T>, a: T, b: T, c: T, d: T)
    requires IsGroup(g) && g.member(a) && g.member(b) && g.member(c) && g.member(d)
    ensures g.add(g.add(a, b), g.add(c, d)) == g.add(g.add(a, c), g.add(b, d))
  {
    Add(g, b, d);
    Add(g, c, d);
    Add(g, b, c);
    Add3(g, a, b, g.add(c, d));
    Add3(g, b, c, d);
    Add3(g, c, b, d);
    Add3(g, a, c, g.add(b, d));
  }

  lemma {:induction false} TimesDistributes<T(!new)>(g: Group<T>, k: nat, a: T, b: T)
    requires IsGroup(g) && g.member(a) && g.member(b)
    ensures Times(g, k, g.add(a, b)) == g.add(Times(g, k, a), Times(g, k, b))
  {
    if k == 0 {
      Zero(g, g.zero);
    } else {
      TimesDistributes(g, k - 1, a, b);
      TimesMember(g, k - 1, a);
      TimesMember(g, k - 1, b);
      Interchange(g, a, b, Times(g, k - 1, a), Times(g, k - 1, b));
    }
  }

  /** Only the scalar's remainder by the order matters. */
  lemma TimesReduced<T(!new)>(g: Group<T>, k: nat, a: T)
    requires IsGroup(g) && g.member(a)
    ensures Times(g, k % g.order, a) == Times(g, k, a)
  {
    var q, r := k / g.order, k % g.order;
    assert k == q * g.order + r;
    TimesSum(g, q * g.order, r, a);
    TimesProduct(g, q, g.order, a);
    TimesZero(g, q);
    TimesMember(g, r, a);
    Zero(g, a);
    Zero(g, Times(g, r, a));
  }

  lemma TimesCongruent<T(!new)>(g: Group<T>, j: nat, k: nat, a: T)
    requires IsGroup(g) && g.member(a) && j % g.order == k % g.order
    ensures Times(g, j, a) == Times(g, k, a)
  {
    TimesReduced(g, j, a);
    TimesReduced(g, k, a);
  }

  lemma TimesOne<T(!new)>(g: Group<T>, a: T)
    requires IsGroup(g) && g.member(a)
    ensures Times(g, 1, a) == a
  {
    assert Times(g, 0, a) == g.zero;
    Zero(g, a);
  }

  /** Elements with the same negative are the same. */
  lemma NegativeUnique<T(!new)>(g: Group<T>, a: T, b: T, c: T)
    requires IsGroup(g) && g.member(a) && g.member(b) && g.member(c)
    requires g.add(a, c) == g.zero && g.add(b, c) == g.zero
    ensures a == b
  {
    Add3(g, a, c, b);
    Add(g, c, b);
    Zero(g, a);
    Zero(g, b);
  }

  /** In a group of odd order nothing is its own negative but zero. */
  lemma NoHalves<T(!new)>(g: Group<T>, a: T)
    requires IsGroup(g) && g.member(a) && g.order % 2 == 1 && g.add(a, a) == g.zero
    ensures a == g.zero
  {
    var h := g.order / 2;
    TimesSum(g, h, h, a);
    TimesDistributes(g, h, a, a);
    TimesZero(g, h);
    assert Times(g, 2 * h, a) == g.zero;
    assert g.order == 2 * h + 1;
    assert Times(g, g.order, a) == g.add(a, Times(g, 2 * h, a));
    Zero(g, a);
  }

  /* ---------- double and add ---------- */

  function DoubleAndAdd<T>(g: Group<T>, k: nat, result: T, addend: T): T {
    if k == 0 then result
    else DoubleAndAdd(g, k / 2, if k % 2 == 1 then g.add(result, addend) else result, g.add(addend, addend))
  }

  lemma {:induction false} DoubleAndAddCorrect<T(!new)>(g: Group<T>, k: nat, result: T, addend: T)
    requires IsGroup(g) && g.member(result) && g.member(addend)
    ensures DoubleAndAdd(g, k, result, addend) == g.add(result, Times(g, k, addend))
    decreases k
  {
    if k == 0 {
      Zero(g, result);
    } else {
      var h := k / 2;
      var twice := g.add(addend, addend);
      Add(g, addend, addend);
      Add(g, result, addend);
      DoubleAndAddCorrect(g, h, if k % 2 == 1 then g.add(result, addend) else result, twice);
      TimesDistributes(g, h, addend, addend);
      TimesSum(g, h, h, addend);
      TimesMember(g, 2 * h, addend);
      assert Times(g, h, twice) == Times(g, 2 * h, addend);
      if k % 2 == 1 {
        assert Times(g, k, addend) == g.add(addend, Times(g, 2 * h, addend));
        Add3(g, result, addend, Times(g, 2 * h, addend));
      }
    }
  }

  /* ---------- the two identities behind ECDSA ---------- */

  /** The scalars verification works out: e / s and r / s modulo the order. */
  function Combination<T>(g: Group<T>, e: nat, r: nat, w: nat, base: T, key: T): T
    requires g.order > 0
  {
    g.add(Times(g, e * w % g.order, base), Times(g, r * w % g.order, key))
  }

  lemma CombinationIs<T(!new)>(g: Group<T>, e: nat, r: nat, w: nat, base: T, key: T)
    requires IsGroup(g) && g.member(base) && g.member(key)
    ensures Combination(g, e, r, w, base, key) == g.add(Times(g, e * w, base), Times(g, r * w, key))
  {
    TimesReduced(g, e * w, base);
    TimesReduced(g, r * w, key);
  }

  lemma Spread<T(!new)>(g: Group<T>, j: nat, a: nat, x: T, b: nat, y: T)
    requires IsGroup(g) && g.member(x) && g.member(y)
    ensures Times(g, j, g.add(Times(g, a, x), Times(g, b, y))) == g.add(Times(g, j * a, x), Times(g, j * b, y))
  {
    TimesMember(g, a, x);
    TimesMember(g, b, y);
    TimesDistributes(g, j, Times(g, a, x), Times(g, b, y));
    TimesProduct(g, j, a, x);
    TimesProduct(g, j, b, y);
  }

  lemma CancelBase<T(!new)>(g: Group<T>, u: nat, p: nat, q: nat, base: T, point: T)
    requires IsGroup(g) && g.member(base) && g.member(point)
    requires p % g.order == 1 % g.order && (u + q) % g.order == 0 % g.order
    ensures g.add(Times(g, u, base), g.add(Times(g, p, point), Times(g, q, base))) == point
  {
    TimesCongruent(g, p, 1, point);
    TimesOne(g, point);
    TimesCongruent(g, u + q, 0, base);
    TimesSum(g, u, q, base);
    var x, z := Times(g, u, base), Times(g, q, base);
    TimesMember(g, u, base);
    TimesMember(g, q, base);
    Add(g, point, z);
    Add3(g, x, z, point);
    Zero(g, point);
  }

  /** The key (s/r) R - (e/r) B verifies back to R. */
  lemma RecoveredKeyVerifies<T(!new)>(g: Group<T>, e: nat, r: nat, s: nat, v: nat, w: nat, base: T, point: T)
    requires IsGroup(g) && g.member(base) && g.member(point) && e <= g.order
    requires (v * r) % g.order == 1 % g.order && (w * s) % g.order == 1 % g.order
    ensures var key := g.add(Times(g, s * v % g.order, point), Times(g, (g.order - e) * v % g.order, base));
            g.member(key) && Combination(g, e, r, w, base, key) == point
  {
    UnitProduct(r, w, s, v, g.order);
    Cancels(e, r, v, w, g.order);
    ReducedBackToPoint(g, e * w, r * w, s * v, (g.order - e) * v, base, point);
  }

  lemma ReducedBackToPoint<T(!new)>(g: Group<T>, u: nat, j: nat, a: nat, b: nat, base: T, point: T)
    requires IsGroup(g) && g.member(base) && g.member(point)
    requires (j * a) % g.order == 1 % g.order && (u + j * b) % g.order == 0 % g.order
    ensures var key := g.add(Times(g, a % g.order, point), Times(g, b % g.order, base));
            g.member(key) && g.add(Times(g, u % g.order, base), Times(g, j % g.order, key)) == point
  {
    TimesReduced(g, a, point);
    TimesReduced(g, b, base);
    TimesMember(g, a, point);
    TimesMember(g, b, base);
    var key := g.add(Times(g, a, point), Times(g, b, base));
    Add(g, Times(g, a, point), Times(g, b, base));
    TimesReduced(g, u, base);
    TimesReduced(g, j, key);
    BackToPoint(g, u, j, a, b, base, point);
  }

  lemma BackToPoint<T(!new)>(g: Group<T>, u: nat, j: nat, a: nat, b: nat, base: T, point: T)
    requires IsGroup(g) && g.member(base) && g.member(point)
    requires (j * a) % g.order == 1 % g.order && (u + j * b) % g.order == 0 % g.order
    ensures g.add(Times(g, u, base), Times(g, j, g.add(Times(g, a, point), Times(g, b, base)))) == point
  {
    Spread(g, j, a, point, b, base);
    CancelBase(g, u, j * a, j * b, base, point);
  }

  /** r w (s v) is 1 when v and w are the inverses of r and s. */
  lemma UnitProduct(r: nat, w: nat, s: nat, v: nat, n: nat)
    requires n > 0 && (v * r) % n == 1 % n && (w * s) % n == 1 % n
    ensures (r * w * (s * v)) % n == 1 % n
  {
    assert r * w * (s * v) == (v * r) * (w * s);
    CongruentProduct(v * r, 1, w * s, n);
  }

  lemma Cancels(e: nat, r: nat, v: nat, w: nat, n: nat)
    requires n > 0 && e <= n && (v * r) % n == 1 % n
    ensures (e * w + r * w * ((n - e) * v)) % n == 0 % n
  {
    var c := w * (n - e);
    assert r * w * ((n - e) * v) == (v * r) * c;
    CongruentProduct(v * r, 1, c, n);
    CongruentSum((v * r) * c, c, e * w, n);
    assert c + e * w == 0 + w * n;
    AddMultiple(0, w, n);
  }

  lemma CombinedKey<T(!new)>(g: Group<T>, e: nat, r: nat, d: nat, w: nat, base: T)
    requires IsGroup(g) && g.member(base)
    ensures Combination(g, e, r, w, base, Times(g, d, base)) == Times(g, (e + r * d) * w, base)
  {
    TimesMember(g, d, base);
    CombinationIs(g, e, r, w, base, Times(g, d, base));
    TimesProduct(g, r * w, d, base);
    TimesSum(g, e * w, r * w * d, base);
    Distribute(e, r, d, w);
  }

  lemma Distribute(e: nat, r: nat, d: nat, w: nat)
    ensures e * w + r * w * d == (e + r * d) * w
  {
    assert r * w * d == r * d * w;
  }

  /** s k = m gives m / s = k. */
  lemma Quotient(m: nat, w: nat, s: nat, k: nat, n: nat)
    requires n > 0 && (w * s) % n == 1 % n && (s * k - m) % n == 0
    ensures (m * w) % n == k % n
  {
    CongruentProduct(w * s, 1, k, n);
    CongruentProduct(s * k - m, 0, w, n) by { RemainderUnique(0, 0, 0, n); }
    assert (w * s) * k == (s * k) * w && (s * k - m) * w == (s * k) * w - m * w && 0 * w == 0;
    CongruentSum((s * k) * w - m * w, 0, m * w, n);
  }

  /** s k = -m gives m / s = -k. */
  lemma NegatedQuotient(m: nat, w: nat, s: nat, k: nat, n: nat)
    requires n > 0 && k <= n && (w * s) % n == 1 % n && (s * k + m) % n == 0
    ensures (m * w) % n == (n - k) % n
  {
    CongruentProduct(w * s, 1, k, n);
    CongruentProduct(s * k + m, 0, w, n) by { RemainderUnique(0, 0, 0, n); }
    assert (w * s) * k == (s * k) * w && (s * k + m) * w == (s * k) * w + m * w && 0 * w == 0;
    CongruentSum((s * k) * w, k, m * w, n);
    CongruentSum(k + m * w, 0, n - k, n);
    AddMultiple(m * w, 1, n);
  }

  /** With d the secret scalar and s = (e + r d) / k, verification works out k B; with -s, its negative. */
  lemma SignatureVerifies<T(!new)>(g: Group<T>, e: nat, r: nat, d: nat, k: nat, s: nat, w: nat, base: T, negated: bool)
    requires IsGroup(g) && g.member(base) && k <= g.order && (w * s) % g.order == 1 % g.order
    requires (if negated then s * k + (e + r * d) else s * k - (e + r * d)) % g.order == 0
    ensures Combination(g, e, r, w, base, Times(g, d, base)) == Times(g, if negated then g.order - k else k, base)
  {
    var m := e + r * d;
    CombinedKey(g, e, r, d, w, base);
    if negated {
      NegatedQuotient(m, w, s, k, g.order);
      TimesCongruent(g, m * w, g.order - k, base);
    } else {
      Quotient(m, w, s, k, g.order);
      TimesCongruent(g, m * w, k, base);
    }
  }
}
