/** The bech32m checksum of BIP 350, as ZIP 320 addresses use it. */
module Bech32m {

  /** The thirty bits a checksum state fits in, lowest first. */
  type Word = w: seq<bool> | |w| == 30 witness seq(30, _ => false)

  function Pow2(k: nat): (p: nat)
    ensures p > 0
  {
    if k == 0 then 1 else 2 * Pow2(k - 1)
  }

  function Bits(n: nat): Word { seq(30, i requires 0 <= i < 30 => n / Pow2(i) % 2 == 1) }

  /** `a ^ b` */
  function Xor(a: Word, b: Word): Word { seq(30, i requires 0 <= i < 30 => a[i] != b[i]) }

  /** `(chk & 0x1ffffff) << 5` */
  function Shifted(chk: Word): Word { [false, false, false, false, false] + chk[..25] }

  function Generator(i: nat): Word {
    Bits(if i == 0 then 0x3b6a57b2
         else if i == 1 then 0x26508e6d
         else if i == 2 then 0x1ea119fa
         else if i == 3 then 0x3d4233dd
         else 0x2a1462b3)
  }

  /** The word with the generators of the first n of the top five bits mixed in. */
  function Mixed(word: Word, top: seq<bool>, n: nat): Word
    requires n <= |top|
  {
    if n == 0 then word
    else
      var before := Mixed(word, top, n - 1);
      if top[n - 1] then Xor(before, Generator(n - 1)) else before
  }

  function Step(chk: Word, v: Word): Word { Mixed(Xor(Shifted(chk), v), chk[25..], 5) }

  function Fold(chk: Word, values: seq<Word>): Word
    decreases |values|
  {
    if values == [] then chk else Fold(Step(chk, values[0]), values[1..])
  }

  const BECH32M_CONST: Word := Bits(0x2bc830a3)

  function Polymod(values: seq<Word>): Word { Fold(Bits(1), values) }

  method ComputePolymod(values: seq<Word>) returns (chk: Word)
    ensures chk == Polymod(values)
  {
    chk := Bits(1);
    assert values[0..] == values;
    for k := 0 to |values|
      invariant Fold(chk, values[k..]) == Polymod(values)
    {
      assert values[k..][1..] == values[k + 1..];
      var top := chk[25..];
      ghost var word := Xor(Shifted(chk), values[k]);
      chk := Xor(Shifted(chk), values[k]);
      for i := 0 to 5
        invariant chk == Mixed(word, top, i)
      {
        if top[i] { chk := Xor(chk, Generator(i)); }
      }
    }
  }

  /* ---------- verification ---------- */

  /** The index of the last occurrence, or -1. */
  function LastIndexOf(s: string, c: char): (i: int)
    ensures -1 <= i < |s|
    ensures i >= 0 ==> s[i] == c
    ensures forall j | i < j < |s| :: s[j] != c
  {
    if s == "" then -1
    else if s[|s| - 1] == c then |s| - 1
    else LastIndexOf(s[..|s| - 1], c)
  }

  /** A character's position in the set "qpzry9x8gf2tvdw0s3jn54khce6mua7l", or -1. */
  function CharsetValue(c: char): int {
    if c == 'q' then 0 else if c == 'p' then 1 else if c == 'z' then 2 else if c == 'r' then 3
    else if c == 'y' then 4 else if c == '9' then 5 else if c == 'x' then 6 else if c == '8' then 7
    else if c == 'g' then 8 else if c == 'f' then 9 else if c == '2' then 10 else if c == 't' then 11
    else if c == 'v' then 12 else if c == 'd' then 13 else if c == 'w' then 14 else if c == '0' then 15
    else if c == 's' then 16 else if c == '3' then 17 else if c == 'j' then 18 else if c == 'n' then 19
    else if c == '5' then 20 else if c == '4' then 21 else if c == 'k' then 22 else if c == 'h' then 23
    else if c == 'c' then 24 else if c == 'e' then 25 else if c == '6' then 26 else if c == 'm' then 27
    else if c == 'u' then 28 else if c == 'a' then 29 else if c == '7' then 30 else if c == 'l' then 31
    else -1
  }

  function CharsetAt(v: int): char {
    if v == 0 then 'q' else if v == 1 then 'p' else if v == 2 then 'z' else if v == 3 then 'r'
    else if v == 4 then 'y' else if v == 5 then '9' else if v == 6 then 'x' else if v == 7 then '8'
    else if v == 8 then 'g' else if v == 9 then 'f' else if v == 10 then '2' else if v == 11 then 't'
    else if v == 12 then 'v' else if v == 13 then 'd' else if v == 14 then 'w' else if v == 15 then '0'
    else if v == 16 then 's' else if v == 17 then '3' else if v == 18 then 'j' else if v == 19 then 'n'
    else if v == 20 then '5' else if v == 21 then '4' else if v == 22 then 'k' else if v == 23 then 'h'
    else if v == 24 then 'c' else if v == 25 then 'e' else if v == 26 then '6' else if v == 27 then 'm'
    else if v == 28 then 'u' else if v == 29 then 'a' else if v == 30 then '7' else if v == 31 then 'l'
    else '-'
  }

  lemma CharsetInverse(c: char)
    requires CharsetValue(c) >= 0
    ensures CharsetValue(c) < 32 && CharsetAt(CharsetValue(c)) == c
  {
  }

  predicate Charted(s: string) { forall k | 0 <= k < |s| :: CharsetValue(s[k]) >= 0 }

  /** The data part's values. */
  function Values(s: string): (r: seq<Word>)
    requires Charted(s)
    ensures |r| == |s|
  {
    seq(|s|, k requires 0 <= k < |s| => Bits(CharsetValue(s[k])))
  }

  /** The prefix as values: high bits, a zero, low bits. */
  function HrpExpand(hrp: string): seq<Word> {
    seq(|hrp|, k requires 0 <= k < |hrp| => Bits(hrp[k] as int / 32))
    + [Bits(0)]
    + seq(|hrp|, k requires 0 <= k < |hrp| => Bits(hrp[k] as int % 32))
  }

  predicate VerifyBech32m(address: string, expectedHrp: string) {
    var pos := LastIndexOf(address, '1');
    && pos >= 1 && address[..pos] == expectedHrp
    && Charted(address[pos + 1..]) && |address[pos + 1..]| >= 6
    && Polymod(HrpExpand(expectedHrp) + Values(address[pos + 1..])) == BECH32M_CONST
  }

  /* ---------- differences ---------- */

  /** Mixing adds the same word to whatever it starts from. */
  function Mix(top: seq<bool>): Word
    requires |top| == 5
  {
    Mixed(Bits(0), top, 5)
  }

  lemma ZeroBits()
    ensures forall i | 0 <= i < 30 :: !Bits(0)[i]
  {
  }

  lemma {:induction false} MixedAdds(word: Word, top: seq<bool>, n: nat)
    requires n <= |top|
    ensures Mixed(word, top, n) == Xor(word, Mixed(Bits(0), top, n))
  {
    if n == 0 {
      ZeroBits();
    } else {
      MixedAdds(word, top, n - 1);
    }
  }

  /** The last five bits of the generators. */
  lemma LowGenerators()
    ensures Generator(0)[..5] == [false, true, false, false, true]
    ensures Generator(1)[..5] == [true, false, true, true, false]
    ensures Generator(2)[..5] == [false, true, false, true, true]
    ensures Generator(3)[..5] == [true, false, true, true, true]
    ensures Generator(4)[..5] == [true, true, false, false, true]
  {
    LowGenerator0();
    LowGenerator1();
    LowGenerator2();
    LowGenerator3();
    LowGenerator4();
  }

  lemma LowGenerator0()
    ensures Generator(0)[..5] == [false, true, false, false, true]
  {
    LowFive(0x3b6a57b2);
  }

  lemma LowGenerator1()
    ensures Generator(1)[..5] == [true, false, true, true, false]
  {
    LowFive(0x26508e6d);
  }

  lemma LowGenerator2()
    ensures Generator(2)[..5] == [false, true, false, true, true]
  {
    LowFive(0x1ea119fa);
  }

  lemma LowGenerator3()
    ensures Generator(3)[..5] == [true, false, true, true, true]
  {
    LowFive(0x3d4233dd);
  }

  lemma LowGenerator4()
    ensures Generator(4)[..5] == [true, true, false, false, true]
  {
    LowFive(0x2a1462b3);
  }

  lemma LowFive(n: nat)
    ensures Bits(n)[..5] == [n % 2 == 1, n / 2 % 2 == 1, n / 4 % 2 == 1, n / 8 % 2 == 1, n / 16 % 2 == 1]
  {
    assert Pow2(0) == 1 && Pow2(1) == 2 && Pow2(2) == 4 && Pow2(3) == 8 && Pow2(4) == 16;
  }

  /** Whether bit j of the mixed-in word is set. */
  lemma MixBit(top: seq<bool>, j: nat)
    requires |top| == 5 && j < 5
    ensures Mix(top)[j] == (((((top[0] && Generator(0)[j]) != (top[1] && Generator(1)[j]))
                              != (top[2] && Generator(2)[j])) != (top[3] && Generator(3)[j]))
                            != (top[4] && Generator(4)[j]))
  {
    ZeroBits();
    var zero := Bits(0);
    assert Mixed(zero, top, 0) == zero;
    assert Mixed(zero, top, 1)[j] == (top[0] && Generator(0)[j]);
    assert Mixed(zero, top, 2)[j] == (Mixed(zero, top, 1)[j] != (top[1] && Generator(1)[j]));
    assert Mixed(zero, top, 3)[j] == (Mixed(zero, top, 2)[j] != (top[2] && Generator(2)[j]));
    assert Mixed(zero, top, 4)[j] == (Mixed(zero, top, 3)[j] != (top[3] && Generator(3)[j]));
    assert Mixed(zero, top, 5)[j] == (Mixed(zero, top, 4)[j] != (top[4] && Generator(4)[j]));
  }

  /** The generators' low bits are independent: they tell every combination of the top bits apart. */
  lemma MixSeparates(a: seq<bool>, b: seq<bool>)
    requires |a| == 5 && |b| == 5 && Mix(a)[..5] == Mix(b)[..5]
    ensures a == b
  {
    forall j | 0 <= j < 5 ensures Mix(a)[j] == Mix(b)[j] { assert Mix(a)[j] == Mix(a)[..5][j] == Mix(b)[..5][j]; }
    forall i | 0 <= i < 5 ensures forall j | 0 <= j < 5 :: Generator(i)[j] == Generator(i)[..5][j] { }
    LowGenerators();
    MixBit(a, 0); MixBit(a, 1); MixBit(a, 2); MixBit(a, 3); MixBit(a, 4);
    MixBit(b, 0); MixBit(b, 1); MixBit(b, 2); MixBit(b, 3); MixBit(b, 4);
  }

  /** No two states step to the same one on the same value, and no two values lead from one state to the same. */
  lemma StepInjective(a: Word, b: Word, v: Word, w: Word)
    requires Step(a, v) == Step(b, w) && (v == w || a == b)
    ensures a == b && v == w
  {
    var m, n := Mix(a[25..]), Mix(b[25..]);
    MixedAdds(Xor(Shifted(a), v), a[25..], 5);
    MixedAdds(Xor(Shifted(b), w), b[25..], 5);
    Separated(a, b, v, w, m, n);
    if v == w {
      assert m[..5] == n[..5];
      MixSeparates(a[25..], b[25..]);
      assert a == a[..25] + a[25..] && b == b[..25] + b[25..];
    }
  }

  lemma Separated(a: Word, b: Word, v: Word, w: Word, m: Word, n: Word)
    requires Xor(Xor(Shifted(a), v), m) == Xor(Xor(Shifted(b), w), n)
    ensures v == w ==> m[..5] == n[..5]
    ensures v == w && m == n ==> a[..25] == b[..25]
    ensures a == b && m == n ==> v == w
  {
    forall i | 0 <= i < 30 ensures ((Shifted(a)[i] != v[i]) != m[i]) == ((Shifted(b)[i] != w[i]) != n[i]) {
      assert Xor(Xor(Shifted(a), v), m)[i] == Xor(Xor(Shifted(b), w), n)[i];
    }
    if v == w && m == n {
      forall i | 0 <= i < 25 ensures a[i] == b[i] { assert Shifted(a)[i + 5] == a[i] && Shifted(b)[i + 5] == b[i]; }
    }
  }

  /** Equal further input keeps two states apart. */
  lemma {:induction false} DifferenceLasts(a: Word, b: Word, values: seq<Word>)
    requires a != b
    ensures Fold(a, values) != Fold(b, values)
    decreases |values|
  {
    if values != [] {
      if Step(a, values[0]) == Step(b, values[0]) { StepInjective(a, b, values[0], values[0]); }
      DifferenceLasts(Step(a, values[0]), Step(b, values[0]), values[1..]);
    }
  }

  lemma {:induction false} FoldAppend(chk: Word, a: seq<Word>, b: seq<Word>)
    ensures Fold(chk, a + b) == Fold(Fold(chk, a), b)
    decreases |a|
  {
    if a == [] {
      assert a + b == b;
    } else {
      assert (a + b)[1..] == a[1..] + b;
      FoldAppend(Step(chk, a[0]), a[1..], b);
    }
  }

  lemma FoldMiddle(chk: Word, before: seq<Word>, v: Word, after: seq<Word>)
    ensures Fold(chk, before + [v] + after) == Fold(Step(Fold(chk, before), v), after)
  {
    FoldAppend(chk, before + [v], after);
    FoldAppend(chk, before, [v]);
    assert [v][1..] == [];
  }

  /** Changing one value changes the checksum. */
  lemma OneValueMatters(before: seq<Word>, v: Word, w: Word, after: seq<Word>)
    requires v != w
    ensures Polymod(before + [v] + after) != Polymod(before + [w] + after)
  {
    var chk := Fold(Bits(1), before);
    FoldMiddle(Bits(1), before, v, after);
    FoldMiddle(Bits(1), before, w, after);
    if Step(chk, v) == Step(chk, w) { StepInjective(chk, chk, v, w); }
    DifferenceLasts(Step(chk, v), Step(chk, w), after);
  }

  lemma ValuesDiffer(x: nat, y: nat)
    requires x < 32 && y < 32 && x != y
    ensures Bits(x) != Bits(y)
  {
    if Bits(x) == Bits(y) {
      LowFive(x);
      LowFive(y);
      var p, q := Bits(x)[..5], Bits(y)[..5];
      assert p[0] == q[0] && p[1] == q[1] && p[2] == q[2] && p[3] == q[3] && p[4] == q[4];
      Spelled(x, p[0], p[1], p[2], p[3], p[4]);
      Spelled(y, p[0], p[1], p[2], p[3], p[4]);
      assert false;
    }
  }

  function Weight(bit: bool, w: nat): nat { if bit then w else 0 }

  lemma Spelled(x: nat, a: bool, b: bool, c: bool, d: bool, e: bool)
    requires x < 32 && a == (x % 2 == 1) && b == (x / 2 % 2 == 1) && c == (x / 4 % 2 == 1)
    requires d == (x / 8 % 2 == 1) && e == (x / 16 % 2 == 1)
    ensures x == Weight(a, 1) + Weight(b, 2) + Weight(c, 4) + Weight(d, 8) + Weight(e, 16)
  {
    assert x == x % 2 + 2 * (x / 2) && x / 2 == x / 2 % 2 + 2 * (x / 4);
    assert x / 4 == x / 4 % 2 + 2 * (x / 8) && x / 8 == x / 8 % 2 + 2 * (x / 16);
  }

  lemma ChecksumDiffers(prefix: seq<Word>, a: string, b: string, j: nat)
    requires j < |a| && j < |b| && Charted(a) && Charted(b) && b == a[j := b[j]] && a[j] != b[j]
    ensures Polymod(prefix + Values(a)) != Polymod(prefix + Values(b))
  {
    CharsetInverse(a[j]);
    CharsetInverse(b[j]);
    ValuesDiffer(CharsetValue(a[j]), CharsetValue(b[j]));
    var u, w := Values(a), Values(b);
    var before, after := prefix + u[..j], u[j + 1..];
    assert w == u[j := w[j]];
    assert prefix + u == before + [u[j]] + after;
    assert prefix + w == before + [w[j]] + after;
    OneValueMatters(before, u[j], w[j], after);
  }

  /** One character after the separator replaced by any other, the separator and characters outside the set
      included: the address no longer verifies. */
  lemma SubstitutionDetected(address: string, hrp: string, k: nat, c: char)
    requires VerifyBech32m(address, hrp)
    requires LastIndexOf(address, '1') < k < |address| && address[k] != c
    ensures !VerifyBech32m(address[k := c], hrp)
  {
    var pos := LastIndexOf(address, '1');
    var other := address[k := c];
    var npos := LastIndexOf(other, '1');
    assert other[pos] == '1';
    if VerifyBech32m(other, hrp) {
      assert |other[..npos]| == |address[..pos]|;
      var a, b := address[pos + 1..], other[pos + 1..];
      var j := k - pos - 1;
      assert a[j] == address[k] && b == a[j := c];
      ChecksumDiffers(HrpExpand(hrp), a, b, j);
    }
  }

  /* ---------- what is verified ---------- */

  /** Times x in the field of 32 elements, whose modulus is x^5 + x^3 + 1: a bit that leaves comes back in places 3
      and 0. */
  function TimesX(v: Element): Element {
    if v < 16 then 2 * v else var t := 2 * v - 32; t + 1 + if t / 8 % 2 == 1 then -8 else 8
  }

  type Element = v: int | 0 <= v < 32

  /** x^i times a field element. */
  function TimesPower(i: nat, v: Element): Element { if i == 0 then v else TimesX(TimesPower(i - 1, v)) }

  /** Six field elements as one word, the constant term lowest. */
  function Packed(a: Element, b: Element, c: Element, d: Element, e: Element, f: Element): nat {
    a + 0x20 * b + 0x400 * c + 0x8000 * d + 0x10_0000 * e + 0x200_0000 * f
  }

  /** The generators are the code's polynomial, y^6 + 29 y^5 + 22 y^4 + 20 y^3 + 21 y^2 + 29 y + 18 over that field,
      times the powers of x that the bits of the leading element stand for. */
  lemma GeneratorsOfCode(i: nat)
    requires i < 5
    ensures Generator(i) == Bits(Packed(TimesPower(i, 18), TimesPower(i, 29), TimesPower(i, 21), TimesPower(i, 20),
                                        TimesPower(i, 22), TimesPower(i, 29)))
  {
    Powers18(i);
    Powers29(i);
    Powers21(i);
    Powers20(i);
    Powers22(i);
    PackedGenerators();
  }

  lemma PackedGenerators()
    ensures Packed(18, 29, 21, 20, 22, 29) == 0x3b6a57b2 && Packed(13, 19, 3, 1, 5, 19) == 0x26508e6d
    ensures Packed(26, 15, 6, 2, 10, 15) == 0x1ea119fa && Packed(29, 30, 12, 4, 20, 30) == 0x3d4233dd
    ensures Packed(19, 21, 24, 8, 1, 21) == 0x2a1462b3
  {
  }

  lemma Powers18(i: nat)
    requires i < 5
    ensures TimesPower(i, 18) == if i == 0 then 18 else if i == 1 then 13 else if i == 2 then 26 else if i == 3 then 29
                                 else 19
  {
    assert TimesPower(1, 18) == 13 && TimesPower(2, 18) == 26 && TimesPower(3, 18) == 29 && TimesPower(4, 18) == 19;
  }

  lemma Powers29(i: nat)
    requires i < 5
    ensures TimesPower(i, 29) == if i == 0 then 29 else if i == 1 then 19 else if i == 2 then 15 else if i == 3 then 30
                                 else 21
  {
    assert TimesPower(1, 29) == 19 && TimesPower(2, 29) == 15 && TimesPower(3, 29) == 30 && TimesPower(4, 29) == 21;
  }

  lemma Powers21(i: nat)
    requires i < 5
    ensures TimesPower(i, 21) == if i == 0 then 21 else if i == 1 then 3 else if i == 2 then 6 else if i == 3 then 12
                                 else 24
  {
    assert TimesPower(1, 21) == 3 && TimesPower(2, 21) == 6 && TimesPower(3, 21) == 12 && TimesPower(4, 21) == 24;
  }

  lemma Powers20(i: nat)
    requires i < 5
    ensures TimesPower(i, 20) == if i == 0 then 20 else if i == 1 then 1 else if i == 2 then 2 else if i == 3 then 4
                                 else 8
  {
    assert TimesPower(1, 20) == 1 && TimesPower(2, 20) == 2 && TimesPower(3, 20) == 4 && TimesPower(4, 20) == 8;
  }

  lemma Powers22(i: nat)
    requires i < 5
    ensures TimesPower(i, 22) == if i == 0 then 22 else if i == 1 then 5 else if i == 2 then 10 else if i == 3 then 20
                                 else 1
  {
    assert TimesPower(1, 22) == 5 && TimesPower(2, 22) == 10 && TimesPower(3, 22) == 20 && TimesPower(4, 22) == 1;
  }

  /** The prefix's characters as high bits, a zero, and low bits, each a value of its own. */
  predicate Expands(hrp: string, values: seq<Word>) {
    && |values| == 2 * |hrp| + 1 && values[|hrp|] == Bits(0)
    && forall k | 0 <= k < |hrp| ::
         values[k] == Bits(hrp[k] as int / 32) && values[|hrp| + 1 + k] == Bits(hrp[k] as int % 32)
  }

  /** The prefix, a separator, and at least six characters of the set, none of them the separator, whose values after
      the expanded prefix leave the remainder of BIP 350. */
  predicate Checksummed(address: string, hrp: string, data: string, values: seq<Word>) {
    && address == hrp + "1" + data && hrp != "" && '1' !in data && Charted(data) && |data| >= 6
    && Expands(hrp, values) && Polymod(values + Values(data)) == Bits(0x2bc830a3)
  }

  lemma VerifiedIsChecksummed(address: string, hrp: string)
    requires VerifyBech32m(address, hrp)
    ensures Checksummed(address, hrp, address[LastIndexOf(address, '1') + 1..], HrpExpand(hrp))
  {
    var pos := LastIndexOf(address, '1');
    var data := address[pos + 1..];
    assert address == hrp + "1" + data;
    assert '1' !in data by { assert forall k | 0 <= k < |data| :: data[k] == address[pos + 1 + k]; }
    assert Expands(hrp, HrpExpand(hrp));
  }

  lemma OneExpansion(hrp: string, values: seq<Word>)
    requires Expands(hrp, values)
    ensures values == HrpExpand(hrp)
  {
  }

  lemma ChecksummedVerifies(address: string, hrp: string, data: string, values: seq<Word>)
    requires Checksummed(address, hrp, data, values)
    ensures VerifyBech32m(address, hrp)
  {
    LastSeparator(hrp, data, address);
    assert address[..|hrp|] == hrp && address[|hrp| + 1..] == data;
    OneExpansion(hrp, values);
  }

  /** An address verifies exactly if it is checksummed. */
  lemma VerifiesIff(address: string, hrp: string)
    ensures VerifyBech32m(address, hrp)
            <==> exists data: string, values: seq<Word> :: Checksummed(address, hrp, data, values)
  {
    if VerifyBech32m(address, hrp) { VerifiedIsChecksummed(address, hrp); }
    if data: string, values: seq<Word> :| Checksummed(address, hrp, data, values) {
      ChecksummedVerifies(address, hrp, data, values);
    }
  }

  lemma LastIs(s: string, c: char, n: nat)
    requires n < |s| && s[n] == c && forall k | n < k < |s| :: s[k] != c
    ensures LastIndexOf(s, c) == n
  {
    var i := LastIndexOf(s, c);
    assert i >= n;
  }

  lemma AfterSeparator(hrp: string, data: string, address: string)
    requires address == hrp + "1" + data && '1' !in data
    ensures |address| == |hrp| + 1 + |data| && address[|hrp|] == '1'
    ensures forall k | |hrp| < k < |address| :: address[k] != '1'
  {
    var n := |hrp| + 1;
    assert forall k | n <= k < |address| :: address[k] == data[k - n];
  }

  lemma LastSeparator(hrp: string, data: string, address: string)
    requires address == hrp + "1" + data && '1' !in data
    ensures LastIndexOf(address, '1') == |hrp|
  {
    AfterSeparator(hrp, data, address);
    LastIs(address, '1', |hrp|);
  }
}
