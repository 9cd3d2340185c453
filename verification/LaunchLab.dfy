/** The constant-product launch curve: virtual reserves and an exact-in buy, in integer arithmetic. */
module LaunchLab {
  import opened Bytes

  const FEE_RATE_DENOMINATOR := 1_000_000

  datatype Reserves = Reserves(virtualA: nat, virtualB: nat)
  datatype Bought = Bought(amountOut: nat, feeIn: nat)

  /** Every dividend is non-negative and every divisor positive, so truncation and flooring agree. */
  function Quotient(a: nat, b: nat): (q: nat)
    requires b > 0
    ensures q * b <= a < q * b + b
  {
    QuotientBounds(a, b);
    a / b
  }

  lemma QuotientBounds(a: nat, b: nat)
    requires b > 0
    ensures a / b >= 0 && (a / b) * b <= a < (a / b) * b + b
  {
    var q := a / b;
    assert a == q * b + a % b;
  }

  /** None where the source throws. */
  function ConstantCurveReserves(supply: nat, totalSellA: nat, totalFundRaisingB: nat, totalLocked: nat,
                                 migrateFee: nat): Option<Reserves>
  {
    var rest := supply - totalSellA - totalLocked;
    var kept := totalFundRaisingB - migrateFee;
    if rest <= 0 || kept <= 0 then None
    else
      var numerator := Quotient(kept * totalSellA * totalSellA, rest);
      var denominator := Quotient(kept * totalSellA, rest) - totalFundRaisingB;
      if denominator <= 0 then None
      else Some(Reserves(Quotient(numerator, denominator),
                         Quotient(totalFundRaisingB * totalFundRaisingB, denominator)))
  }

  function CeilDiv(amount: nat, numerator: nat, denominator: nat): nat
    requires denominator > 0
  {
    Quotient(amount * numerator + denominator - 1, denominator)
  }

  /** What a spend buys once the fee is off, before the cap. */
  function Uncapped(r: Reserves, swapIn: nat): nat
    requires swapIn > 0
  {
    Quotient(swapIn * r.virtualA, r.virtualB + swapIn)
  }

  /** None for a total fee rate above the whole. */
  function BuyExactIn(r: Reserves, amountIn: nat, feeRate: nat, totalSellA: nat): Option<Bought> {
    if feeRate > FEE_RATE_DENOMINATOR then None
    else
      var feeIn := CeilDiv(amountIn, feeRate, FEE_RATE_DENOMINATOR);
      var swapIn := amountIn - feeIn;
      if swapIn <= 0 then Some(Bought(0, feeIn))
      else
        var out := Uncapped(r, swapIn);
        Some(Bought(if out > totalSellA then totalSellA else out, feeIn))
  }

  /* ---------- arithmetic ---------- */

  lemma Multiply(a: int, b: int, c: nat)
    requires a <= b
    ensures a * c <= b * c && c * a <= c * b
  {
  }

  /** a / b is the largest q with q b <= a. */
  lemma QuotientLargest(a: nat, b: nat, q: nat)
    requires b > 0
    ensures q * b <= a <==> q <= Quotient(a, b)
  {
    var p := Quotient(a, b);
    if q <= p { Multiply(q, p, b); }
    if q > p { Multiply(p + 1, q, b); assert (p + 1) * b == p * b + b; }
  }

  lemma FeeWithinAmount(amountIn: nat, feeRate: nat)
    requires feeRate <= FEE_RATE_DENOMINATOR
    ensures CeilDiv(amountIn, feeRate, FEE_RATE_DENOMINATOR) <= amountIn
  {
    Multiply(feeRate, FEE_RATE_DENOMINATOR, amountIn);
  }

  /* ---------- one buy ---------- */

  /** The fee is part of the input, the buy never takes more than the curve sells, and what it takes is exactly the
      most that keeps the product of the reserves from falling. */
  lemma BuyKeepsTheProduct(r: Reserves, amountIn: nat, feeRate: nat, totalSellA: nat, more: nat)
    requires feeRate <= FEE_RATE_DENOMINATOR
    ensures BuyExactIn(r, amountIn, feeRate, totalSellA).Some?
    ensures var Bought(out, feeIn) := BuyExactIn(r, amountIn, feeRate, totalSellA).value;
            var swapIn := amountIn - feeIn;
            && 0 <= feeIn <= amountIn && out <= totalSellA && out <= r.virtualA
            && (r.virtualA - out) * (r.virtualB + swapIn) >= r.virtualA * r.virtualB
            && (swapIn > 0 ==>
                  (more <= out <==> more <= totalSellA
                                    && (r.virtualA - more) * (r.virtualB + swapIn) >= r.virtualA * r.virtualB))
  {
    FeeWithinAmount(amountIn, feeRate);
    var Bought(out, feeIn) := BuyExactIn(r, amountIn, feeRate, totalSellA).value;
    var swapIn := amountIn - feeIn;
    if swapIn > 0 {
      ProductIff(r, swapIn, more);
      ProductIff(r, swapIn, out);
      TakesNoMore(r, swapIn);
    } else {
      assert (r.virtualA - 0) * (r.virtualB + 0) == r.virtualA * r.virtualB;
    }
  }

  lemma ProductIff(r: Reserves, swapIn: nat, out: nat)
    requires swapIn > 0
    ensures out <= Uncapped(r, swapIn)
            <==> (r.virtualA - out) * (r.virtualB + swapIn) >= r.virtualA * r.virtualB
  {
    var t := r.virtualB + swapIn;
    QuotientLargest(swapIn * r.virtualA, t, out);
    assert (r.virtualA - out) * t == r.virtualA * r.virtualB + swapIn * r.virtualA - out * t;
  }

  lemma TakesNoMore(r: Reserves, swapIn: nat)
    requires swapIn > 0
    ensures Uncapped(r, swapIn) <= r.virtualA
  {
    var q := Uncapped(r, swapIn);
    var t := r.virtualB + swapIn;
    QuotientLargest(swapIn * r.virtualA, t, r.virtualA + 1);
    assert (r.virtualA + 1) * t == r.virtualA * r.virtualB + swapIn * r.virtualA + t;
    assert r.virtualA * r.virtualB >= 0;
  }

  /** Spending more never buys less, fees included. */
  lemma BuyMonotone(r: Reserves, less: nat, more: nat, feeRate: nat, totalSellA: nat)
    requires feeRate <= FEE_RATE_DENOMINATOR && less <= more
    ensures BuyExactIn(r, less, feeRate, totalSellA).value.amountOut
            <= BuyExactIn(r, more, feeRate, totalSellA).value.amountOut
    ensures less - BuyExactIn(r, less, feeRate, totalSellA).value.feeIn
            <= more - BuyExactIn(r, more, feeRate, totalSellA).value.feeIn
  {
    var a := less - CeilDiv(less, feeRate, FEE_RATE_DENOMINATOR);
    var b := more - CeilDiv(more, feeRate, FEE_RATE_DENOMINATOR);
    SwapMonotone(less, more, feeRate);
    if a > 0 {
      var q := Uncapped(r, a);
      ProductIff(r, a, q);
      // the same amount out of a larger input leaves the product at least as large
      TakesNoMore(r, a);
      Multiply(r.virtualB + a, r.virtualB + b, r.virtualA - q);
      ProductIff(r, b, q);
    }
  }

  lemma SwapMonotone(less: nat, more: nat, feeRate: nat)
    requires feeRate <= FEE_RATE_DENOMINATOR && less <= more
    ensures less - CeilDiv(less, feeRate, FEE_RATE_DENOMINATOR) <= more - CeilDiv(more, feeRate, FEE_RATE_DENOMINATOR)
  {
    var d := more - less;
    assert more * feeRate == less * feeRate + d * feeRate;
    Multiply(feeRate, FEE_RATE_DENOMINATOR, d);
  }

  /* ---------- the whole raise ---------- */

  lemma FloorScales(x: nat, s: nat, rest: nat)
    requires rest > 0
    ensures Quotient(x * s, rest) >= Quotient(x, rest) * s
  {
    var q := Quotient(x, rest);
    Multiply(q * rest, x, s);
    assert (q * s) * rest == (q * rest) * s;
    QuotientLargest(x * s, rest, q * s);
  }

  /** The core inequality: with reserves rounded down from d, the raise F buys at least S - 1. */
  lemma RaiseBuysEnough(d: nat, f: nat, s: nat, numerator: nat, vA: nat, vB: nat)
    requires d > 0 && s > 0 && f > 0 && numerator >= (d + f) * s
    requires numerator < vA * d + d && vB * d <= f * f
    ensures (s - 1) * (vB + f) < f * vA
  {
    var least := (d + f) * s - d + 1;
    var most := f * f + f * d;
    var paid, owed := vA * d, vB * d + f * d;
    Multiply(least, paid, f);
    Multiply(owed, most, s - 1);
    Surplus(d, f, s);
    Cleared(d, f, s, vA, vB);
    Positive(d, f * vA - (s - 1) * (vB + f), f * f + f);
  }

  /** The difference in question times d, without the rounded quotients. */
  lemma Cleared(d: nat, f: nat, s: nat, vA: nat, vB: nat)
    requires s > 0
    ensures d * (f * vA - (s - 1) * (vB + f)) == f * (vA * d) - (s - 1) * (vB * d + f * d)
  {
    assert d * (f * vA) == f * (vA * d);
    var t := vB + f;
    assert d * t == vB * d + f * d;
    assert d * ((s - 1) * t) == (s - 1) * (d * t);
    assert d * (f * vA - (s - 1) * t) == d * (f * vA) - d * ((s - 1) * t);
  }

  lemma Surplus(d: nat, f: nat, s: nat)
    ensures f * ((d + f) * s - d + 1) - (s - 1) * (f * f + f * d) == f * f + f
  {
    var p := f * (d + f);
    assert f * ((d + f) * s) == p * s;
    assert f * ((d + f) * s - d + 1) == f * ((d + f) * s) - f * d + f;
    assert f * f + f * d == p && (s - 1) * p == p * s - p;
  }

  lemma Positive(d: nat, goal: int, least: int)
    requires d > 0 && d * goal >= least > 0
    ensures goal > 0
  {
    if goal <= 0 {
      Multiply(goal, 0, d);
      assert false;
    }
  }

  /** Without fees the full raise buys everything for sale or one unit less, whatever the launch parameters. */
  lemma FullRaise(supply: nat, totalSellA: nat, totalFundRaisingB: nat, totalLocked: nat, migrateFee: nat)
    requires ConstantCurveReserves(supply, totalSellA, totalFundRaisingB, totalLocked, migrateFee).Some?
    ensures var r := ConstantCurveReserves(supply, totalSellA, totalFundRaisingB, totalLocked, migrateFee).value;
            var bought := BuyExactIn(r, totalFundRaisingB, 0, totalSellA).value;
            bought.feeIn == 0 && totalSellA - 1 <= bought.amountOut <= totalSellA
  {
    var rest := supply - totalSellA - totalLocked;
    var kept := totalFundRaisingB - migrateFee;
    var s, f := totalSellA, totalFundRaisingB;
    var numerator := Quotient(kept * s * s, rest);
    var d := Quotient(kept * s, rest) - f;
    var r := ConstantCurveReserves(supply, s, f, totalLocked, migrateFee).value;
    assert s == 0 ==> kept * s == 0;
    FloorScales(kept * s, s, rest);
    RaiseBuysEnough(d, f, s, numerator, r.virtualA, r.virtualB);
    assert f * 0 == 0 && CeilDiv(f, 0, FEE_RATE_DENOMINATOR) == 0;
    QuotientLargest(f * r.virtualA, r.virtualB + f, s - 1);
  }

  /** The fee is the least that is no less than the rate's share of what is spent. */
  lemma FeeIsLeast(r: Reserves, amountIn: nat, feeRate: nat, totalSellA: nat, fee: nat)
    requires BuyExactIn(r, amountIn, feeRate, totalSellA).Some?
    ensures BuyExactIn(r, amountIn, feeRate, totalSellA).value.feeIn <= fee <==> amountIn * feeRate <= fee * 1_000_000
  {
    var a := amountIn * feeRate;
    var q := CeilDiv(amountIn, feeRate, FEE_RATE_DENOMINATOR);
    assert q * 1_000_000 <= a + 999_999 < q * 1_000_000 + 1_000_000;
  }

  /* ---------- the closing price ---------- */

  /** The bounds a quotient's multiple satisfies, scaled. */
  lemma ScaledQuotient(a: nat, b: nat, k: nat)
    requires b > 0
    ensures var q := Quotient(a, b); (k * q) * b <= k * a <= (k * q) * b + k * (b - 1)
  {
    var q := Quotient(a, b);
    Multiply(q * b, a, k);
    Multiply(a, q * b + (b - 1), k);
    assert (k * q) * b == k * (q * b) && k * (q * b + (b - 1)) == k * (q * b) + k * (b - 1);
  }

  /** (vB + f) d lies within d below f D. */
  lemma ClosingB(f: nat, d: nat)
    requires d > 0
    ensures var t := Quotient(f * f, d) + f; f * (d + f) - (d - 1) <= t * d <= f * (d + f)
  {
    var q := Quotient(f * f, d);
    assert (q + f) * d == q * d + f * d && f * (d + f) == f * d + f * f;
  }

  /** (vA - s) d lies between s f - (d - 1) and s f + s - 1. */
  lemma ClosingA(k: nat, s: nat, rest: nat, f: nat, d: nat)
    requires rest > 0 && d > 0 && d + f == Quotient(k * s, rest)
    ensures var left := Quotient(Quotient(k * s * s, rest), d) - s;
            s * f - (d - 1) <= left * d <= s * f + s
  {
    var n := Quotient(k * s * s, rest);
    var q := Quotient(n, d);
    FloorScales(k * s, s, rest);
    NumeratorAbove(k * s, s, rest, d + f);
    assert s * (d + f) == s * d + s * f && (q - s) * d == q * d - s * d;
  }

  lemma NumeratorAbove(a: nat, s: nat, rest: nat, q: nat)
    requires rest > 0 && q == Quotient(a, rest)
    ensures s * q <= Quotient(a * s, rest) <= s * q + s
  {
    var n := Quotient(a * s, rest);
    ScaledQuotient(a, rest, s);
    assert s * a == a * s;
    QuotientLargest(a * s, rest, s * q);
    assert (s * q + s + 1) * rest == (s * q) * rest + s * rest + rest && s * (rest - 1) == s * rest - s;
    QuotientLargest(a * s, rest, s * q + s + 1);
  }

  /** Where the whole amount for sale is sold for the whole raise, the curve closes at the price the migrated pool
      opens at, what is kept of the raise over what is left of the supply: above it by less than one unit of the base
      in the pool's favour, and below it by less than what the divisions round off. */
  lemma ClosingPrice(supply: nat, totalSellA: nat, totalFundRaisingB: nat, totalLocked: nat, migrateFee: nat)
    requires ConstantCurveReserves(supply, totalSellA, totalFundRaisingB, totalLocked, migrateFee).Some?
    ensures var Reserves(vA, vB) :=
              ConstantCurveReserves(supply, totalSellA, totalFundRaisingB, totalLocked, migrateFee).value;
            var rest, kept := supply - totalSellA - totalLocked, totalFundRaisingB - migrateFee;
            var d := Quotient(kept * totalSellA, rest) - totalFundRaisingB;
            && d > 0
            && (vB + totalFundRaisingB) * rest * d < (vA - totalSellA + 1) * kept * d
            && (vA - totalSellA) * kept * d <= (vB + totalFundRaisingB) * rest * d + 2 * kept * totalSellA
  {
    var rest, kept := supply - totalSellA - totalLocked, totalFundRaisingB - migrateFee;
    var s, f := totalSellA, totalFundRaisingB;
    var d := Quotient(kept * s, rest) - f;
    var r := ConstantCurveReserves(supply, s, f, totalLocked, migrateFee).value;
    ClosingB(f, d);
    ClosingA(kept, s, rest, f, d);
    Balance(kept, s, rest, f, d, r.virtualB + f, r.virtualA - s);
  }

  lemma TimesSum(a: int, b: int, c: int)
    ensures (a + b) * c == a * c + b * c && c * (a + b) == a * c + b * c
  {
  }

  lemma Swap(a: int, b: int, c: int)
    ensures a * b * c == a * c * b && a * b * c == a * (b * c)
  {
  }

  /** The two sides, each near f (k s). */
  lemma Balance(k: nat, s: nat, rest: nat, f: nat, d: nat, t: int, left: int)
    requires rest > 0 && d > 0 && k > 0 && (d + f) * rest <= k * s < (d + f) * rest + rest
    requires f * (d + f) - (d - 1) <= t * d <= f * (d + f) && s * f - (d - 1) <= left * d <= s * f + s
    ensures t * rest * d < (left + 1) * k * d
    ensures left * k * d <= t * rest * d + 2 * k * s
  {
    var p, q := t * d, left * d;
    BaseSide(k, s, f, d, q);
    QuoteSide(k * s, rest, f, d, p);
    assert t * rest * d == p * rest by { Swap(t, rest, d); }
    assert left * k * d == q * k by { Swap(left, k, d); }
    OneMoreTimes(left, k, d);
    assert 2 * k * s == k * s + k * s;
  }

  lemma OneMoreTimes(left: int, k: int, d: int)
    ensures (left + 1) * k * d == left * k * d + d * k
  {
    TimesSum(left, 1, k);
    TimesSum(left * k, k, d);
  }

  lemma BaseSide(k: nat, s: int, f: int, d: int, q: int)
    requires k > 0 && d > 0 && s * f - (d - 1) <= q <= s * f + s
    ensures f * (k * s) < q * k + d * k && q * k <= f * (k * s) + k * s
  {
    Multiply(s * f - (d - 1), q, k);
    Multiply(q, s * f + s, k);
    TimesSum(s * f, s, k);
    TimesSum(s * f, 1 - d, k);
    TimesSum(1, -d, k);
    assert s * f * k == f * (k * s) && -d * k == -(d * k);
  }

  lemma QuoteSide(a: int, rest: int, f: nat, d: int, p: int)
    requires rest > 0 && d > 0 && (d + f) * rest <= a < (d + f) * rest + rest
    requires f * (d + f) - (d - 1) <= p <= f * (d + f)
    ensures f * a - a <= p * rest <= f * a
  {
    var m := (d + f) * rest;
    Multiply(p, f * (d + f), rest);
    Multiply(f * (d + f) - (d - 1), p, rest);
    Multiply(m, a, f);
    Multiply(a - rest, m, f);
    Swap(f, d + f, rest);
    TimesSum(f * (d + f), 1 - d, rest);
    TimesSum(1, -d, rest);
    TimesSum(d, f, rest);
    TimesSum(a, -rest, f);
    assert -d * rest == -(d * rest) && -rest * f == -(f * rest) && f * m == m * f && f * a == a * f;
  }

  /** Launch parameters have a curve exactly if something is left of the supply and of the raise, and the price the pool
      would open at asks more of what is sold than the whole raise. */
  lemma ReservesIff(supply: nat, totalSellA: nat, totalFundRaisingB: nat, totalLocked: nat, migrateFee: nat)
    ensures ConstantCurveReserves(supply, totalSellA, totalFundRaisingB, totalLocked, migrateFee).Some?
            <==> && supply > totalSellA + totalLocked && totalFundRaisingB > migrateFee
                 && (totalFundRaisingB - migrateFee) * totalSellA
                    >= (totalFundRaisingB + 1) * (supply - totalSellA - totalLocked)
  {
    var rest, kept := supply - totalSellA - totalLocked, totalFundRaisingB - migrateFee;
    if rest > 0 && kept > 0 { QuotientLargest(kept * totalSellA, rest, totalFundRaisingB + 1); }
  }
}
