/** Base58 by in-place digit arithmetic, against the value the digits spell. */
module Base58 {
  import opened Bytes
  import opened Modular

  /** A base and digits below it, most significant first. */
  type Base = b: nat | b >= 2 witness 2

  predicate DigitsOf(a: seq<nat>, base: Base) { forall i | 0 <= i < |a| :: a[i] < base }

  function Value(a: seq<nat>, base: Base): nat {
    if a == [] then 0 else Value(a[..|a| - 1], base) * base + a[|a| - 1]
  }

  /** The shortest digits of a value, least significant first; zero is one zero digit. */
  function Digits(v: nat, base: Base): (r: seq<nat>)
    ensures r != []
    decreases v
  {
    if v < base then [v] else [v % base] + Digits(Quotient(v, base), base)
  }

  function Quotient(v: nat, base: Base): (q: nat)
    ensures v >= base ==> 0 < q < v
    ensures v == q * base + v % base
  {
    QuotientSmaller(v, base);
    v / base
  }

  lemma DivisionBounds(v: nat, q: int, r: nat, base: nat)
    requires base >= 2 && v == q * base + r && r < base
    ensures 0 <= q <= v && (v >= base ==> 0 < q < v)
  {
    ScaleBound(q, base);
    assert q * base >= q * 2;
    if q == 0 { assert q * base == 0; }
  }

  lemma QuotientSmaller(v: nat, base: Base)
    ensures 0 <= v / base <= v && v == v / base * base + v % base
    ensures v >= base ==> 0 < v / base < v
  {
    DivisionBounds(v, v / base, v % base, base);
  }

  /** What a carry appends. */
  function CarryDigits(carry: nat, base: Base): seq<nat>
    decreases carry
  {
    if carry == 0 then []
    else if carry < base then [carry]
    else [carry % base] + CarryDigits(Quotient(carry, base), base)
  }

  /** Multiplies little-endian digits by a factor and adds a carry, digit by digit. */
  function MultiplyAdd(digits: seq<nat>, factor: nat, carry: nat, base: Base): seq<nat>
    decreases |digits|
  {
    if digits == [] then CarryDigits(carry, base)
    else
      var n := digits[0] * factor + carry;
      [n % base] + MultiplyAdd(digits[1..], factor, Quotient(n, base), base)
  }

  lemma {:induction false} CarryIsDigits(carry: nat, base: Base)
    requires carry > 0
    ensures CarryDigits(carry, base) == Digits(carry, base)
    decreases carry
  {
    if carry >= base {
      CarryIsDigits(Quotient(carry, base), base);
    }
  }

  lemma DivisionUnique(w: nat, q: nat, r: nat, base: Base)
    requires w == q * base + r && r < base
    ensures w % base == r && Quotient(w, base) == q
  {
    RemainderUnique(w, q, r, base);
  }

  lemma Product(h: nat, r: nat, factor: nat, carry: nat, q: nat, s: nat, base: nat)
    requires r * factor + carry == q * base + s
    ensures (h * base + r) * factor + carry == (h * factor + q) * base + s
  {
    assert (h * base + r) * factor == h * base * factor + r * factor;
    assert h * base * factor == h * factor * base;
    assert (h * factor + q) * base == h * factor * base + q * base;
  }

  lemma AtLeast(v: nat, factor: nat)
    requires factor > 0
    ensures v * factor >= v
  {
  }

  /** The lowest digit and the carry of a digit-by-digit product are those of the whole product. */
  lemma CarryStep(v: nat, factor: nat, carry: nat, base: Base)
    requires factor > 0 && v >= base
    ensures var n := (v % base) * factor + carry;
            var w := v * factor + carry;
            w >= base && w % base == n % base
            && Quotient(w, base) == Quotient(v, base) * factor + Quotient(n, base)
  {
    var h, r := Quotient(v, base), v % base;
    var n := r * factor + carry;
    var q, s := Quotient(n, base), n % base;
    Product(h, r, factor, carry, q, s, base);
    AtLeast(v, factor);
    DivisionUnique(v * factor + carry, h * factor + q, s, base);
  }

  lemma OneDigit(v: nat, factor: nat, carry: nat, base: Base)
    requires v < base
    ensures MultiplyAdd([v], factor, carry, base) == Digits(v * factor + carry, base)
  {
    var w := v * factor + carry;
    assert [v][1..] == [];
    PutDigit(w, Quotient(w, base), base);
  }

  /** A digit and its carry are the digits of the number. */
  lemma PutDigit(w: nat, q: nat, base: Base)
    requires q == Quotient(w, base)
    ensures [w % base] + CarryDigits(q, base) == Digits(w, base)
  {
    if w < base {
      DivisionUnique(w, 0, w, base);
    } else {
      CarryIsDigits(q, base);
    }
  }

  /** Digits stay the shortest digits: the loop's state is always the digits of the value so far. */
  lemma {:induction false} MultiplyAddDigits(v: nat, factor: nat, carry: nat, base: Base)
    requires factor > 0
    ensures MultiplyAdd(Digits(v, base), factor, carry, base) == Digits(v * factor + carry, base)
    decreases v
  {
    if v < base {
      OneDigit(v, factor, carry, base);
    } else {
      var h := Quotient(v, base);
      var n := (v % base) * factor + carry;
      var q := Quotient(n, base);
      CarryStep(v, factor, carry, base);
      MultiplyAddDigits(h, factor, q, base);
      MultiplyAddTail(v, h, factor, carry, n, q, base);
    }
  }

  lemma MultiplyAddTail(v: nat, h: nat, factor: nat, carry: nat, n: nat, q: nat, base: Base)
    requires v >= base && h == Quotient(v, base) && n == (v % base) * factor + carry && q == Quotient(n, base)
    ensures MultiplyAdd(Digits(v, base), factor, carry, base)
            == [n % base] + MultiplyAdd(Digits(h, base), factor, q, base)
  {
    assert Digits(v, base)[1..] == Digits(h, base) && Digits(v, base)[0] == v % base;
  }

  /** One turn of the loop over the digits. */
  lemma MultiplyAddTurn(before: seq<nat>, j: nat, factor: nat, carry: nat, base: Base, done: seq<nat>)
    requires j < |before|
    ensures var n := before[j] * factor + carry;
            done + MultiplyAdd(before[j..], factor, carry, base)
            == done + [n % base] + MultiplyAdd(before[j + 1..], factor, Quotient(n, base), base)
  {
    assert before[j..][0] == before[j] && before[j..][1..] == before[j + 1..];
  }

  /** Rewrites the digit list in place: the loop over it, then the carry. */
  method MultiplyAddInPlace(before: seq<nat>, factor: nat, addend: nat, base: Base) returns (digits: seq<nat>)
    ensures digits == MultiplyAdd(before, factor, addend, base)
  {
    digits := before;
    var carry: nat := addend;
    ghost var goal := MultiplyAdd(before, factor, addend, base);
    assert before[0..] == before;
    for j := 0 to |before|
      invariant |digits| == |before| && digits[j..] == before[j..]
      invariant digits[..j] + MultiplyAdd(before[j..], factor, carry, base) == goal
    {
      MultiplyAddTurn(before, j, factor, carry, base, digits[..j]);
      assert digits[j] == digits[j..][0] == before[j];
      var n := digits[j] * factor + carry;
      digits := SetDigit(digits, j, n % base);
      carry := Quotient(n, base);
    }
    digits := AppendCarry(digits, carry, base, goal);
  }

  /** `digits[j] = d`. */
  function SetDigit(digits: seq<nat>, j: nat, d: nat): (r: seq<nat>)
    requires j < |digits|
    ensures |r| == |digits| && r[..j + 1] == digits[..j] + [d] && r[j + 1..] == digits[j..][1..]
  {
    digits[j := d]
  }

  lemma CarryTurn(digits: seq<nat>, carry: nat, base: Base)
    requires carry > 0
    ensures digits + CarryDigits(carry, base)
            == digits + [carry % base] + CarryDigits(Quotient(carry, base), base)
    ensures Quotient(carry, base) < carry
  {
    if carry < base {
      DivisionUnique(carry, 0, carry, base);
      Associative(digits, [carry], []);
    } else {
      Associative(digits, [carry % base], CarryDigits(Quotient(carry, base), base));
    }
  }

  /** The second loop: pushes the carry's digits. */
  method AppendCarry(before: seq<nat>, carry: nat, base: Base, ghost goal: seq<nat>) returns (digits: seq<nat>)
    requires before + CarryDigits(carry, base) == goal
    ensures digits == goal
  {
    digits := before;
    var left: nat := carry;
    while left > 0
      invariant digits + CarryDigits(left, base) == goal
    {
      CarryTurn(digits, left, base);
      digits := digits + [left % base];
      left := Quotient(left, base);
    }
  }

  /* ---------- changing base ---------- */

  function Reversed(a: seq<nat>): (r: seq<nat>)
    ensures |r| == |a| && forall i | 0 <= i < |a| :: r[i] == a[|a| - 1 - i]
  {
    seq(|a|, i requires 0 <= i < |a| => a[|a| - 1 - i])
  }

  /** Leading zero digits. */
  function Lead(a: seq<nat>): (n: nat)
    ensures n <= |a|
    ensures forall i | 0 <= i < n :: a[i] == 0
    ensures n < |a| ==> a[n] != 0
  {
    if a == [] || a[0] != 0 then 0 else 1 + Lead(a[1..])
  }

  function ZeroDigits(n: nat): (r: seq<nat>)
    ensures |r| == n && forall i | 0 <= i < n :: r[i] == 0
  {
    seq(n, _ => 0)
  }

  /** One zero digit for each leading zero, then the value's digits. */
  function Recode(a: seq<nat>, from: Base, to: Base): seq<nat> {
    if a == [] then [] else ZeroDigits(Lead(a)) + Reversed(Digits(Value(a, from), to))
  }

  method ComputeRecode(a: seq<nat>, from: Base, to: Base) returns (r: seq<nat>)
    ensures r == Recode(a, from, to)
  {
    if a == [] { return []; }
    var digits: seq<nat> := [0];
    for i := 0 to |a|
      invariant digits == Digits(Value(a[..i], from), to)
    {
      assert a[..i + 1][..i] == a[..i];
      MultiplyAddDigits(Value(a[..i], from), from, a[i], to);
      digits := MultiplyAddInPlace(digits, from, a[i], to);
    }
    assert a[..|a|] == a;
    var zeros := 0;
    while zeros < |a| && a[zeros] == 0
      invariant zeros <= |a| && Lead(a) == zeros + Lead(a[zeros..])
    {
      assert a[zeros..][1..] == a[zeros + 1..];
      zeros := zeros + 1;
    }
    r := ZeroDigits(zeros) + Reversed(digits);
  }

  /* ---------- round trips ---------- */

  lemma ReversedPush(x: nat, a: seq<nat>)
    ensures Reversed([x] + a) == Reversed(a) + [x]
  {
  }

  lemma {:induction false} DigitsValue(v: nat, base: Base)
    ensures var d := Reversed(Digits(v, base));
            Value(d, base) == v && DigitsOf(d, base) && (v > 0 ==> d[0] != 0)
    decreases v
  {
    var d := Reversed(Digits(v, base));
    if v < base {
      assert d[..0] == [];
    } else {
      var q := Quotient(v, base);
      DigitsValue(q, base);
      ReversedPush(v % base, Digits(q, base));
      assert d[..|d| - 1] == Reversed(Digits(q, base));
    }
  }

  lemma {:induction false} ZerosHaveNoValue(a: seq<nat>, n: nat, base: Base)
    ensures Value(ZeroDigits(n) + a, base) == Value(a, base)
    decreases |a|, n
  {
    var z := ZeroDigits(n) + a;
    if a != [] {
      assert z[..|z| - 1] == ZeroDigits(n) + a[..|a| - 1];
      ZerosHaveNoValue(a[..|a| - 1], n, base);
    } else if n > 0 {
      assert z[..n - 1] == ZeroDigits(n - 1) + [];
      ZerosHaveNoValue([], n - 1, base);
    }
  }

  predicate SomeDigit(a: seq<nat>) { Lead(a) < |a| }

  lemma {:induction false} NoDigitNoValue(a: seq<nat>, base: Base)
    ensures SomeDigit(a) <==> Value(a, base) > 0
    decreases |a|
  {
    if a != [] {
      var front := a[..|a| - 1];
      NoDigitNoValue(front, base);
      LeadFront(a);
      if Value(front, base) > 0 { assert Value(front, base) * base > 0; }
    }
  }

  lemma LeadFront(a: seq<nat>)
    requires a != []
    ensures var front := a[..|a| - 1];
            Lead(a) == if SomeDigit(front) then Lead(front) else if a[|a| - 1] == 0 then |a| else |a| - 1
  {
    var front := a[..|a| - 1];
    var n := Lead(front);
    if SomeDigit(front) {
      assert a[n] == front[n];
      LeadIs(a, n);
    } else {
      forall i | 0 <= i < |a| - 1 ensures a[i] == 0 { assert a[i] == front[i]; }
      LeadIs(a, if a[|a| - 1] == 0 then |a| else |a| - 1);
    }
  }

  lemma LeadIs(a: seq<nat>, n: nat)
    requires n <= |a| && (forall i | 0 <= i < n :: a[i] == 0) && (n < |a| ==> a[n] != 0)
    ensures Lead(a) == n
  {
  }

  lemma DigitsPush(v: nat, d: nat, base: Base)
    requires d < base
    ensures Reversed(Digits(v * base + d, base)) == if v == 0 then [d] else Reversed(Digits(v, base)) + [d]
  {
    var w := v * base + d;
    if v == 0 {
      assert 0 * base == 0;
    } else {
      assert w >= base by { assert v * base >= base; }
      DivisionUnique(w, v, d, base);
      ReversedPush(d, Digits(v, base));
    }
  }

  /** Digits with something besides zeros are the leading zeros and the shortest digits of their value. */
  lemma {:induction false} CanonicalForm(a: seq<nat>, base: Base)
    requires DigitsOf(a, base) && SomeDigit(a)
    ensures a == ZeroDigits(Lead(a)) + Reversed(Digits(Value(a, base), base))
    decreases |a|
  {
    var front, d := a[..|a| - 1], a[|a| - 1];
    var v := Value(front, base);
    LeadFront(a);
    NoDigitNoValue(front, base);
    DigitsPush(v, d, base);
    if SomeDigit(front) {
      CanonicalForm(front, base);
      assert a == front + [d];
    } else {
      assert a == ZeroDigits(|front|) + [d];
    }
  }

  lemma ZeroLead(n: nat, a: seq<nat>)
    requires a != [] ==> a[0] != 0
    ensures Lead(ZeroDigits(n) + a) == n
  {
    LeadIs(ZeroDigits(n) + a, n);
  }

  /** There and back is the identity exactly on the empty string and on strings with a digit that is not zero; a
      string of n zeros comes back as n + 2. */
  lemma RecodeRoundTrip(a: seq<nat>, from: Base, to: Base)
    requires DigitsOf(a, from)
    ensures Recode(Recode(a, from, to), to, from) == a <==> a == [] || SomeDigit(a)
    ensures a != [] && !SomeDigit(a) ==> Recode(Recode(a, from, to), to, from) == ZeroDigits(|a| + 2)
    ensures DigitsOf(Recode(a, from, to), to) && (SomeDigit(Recode(a, from, to)) <==> SomeDigit(a))
  {
    if a != [] {
      var t := Recode(a, from, to);
      RecodeValue(a, from, to);
      NoDigitNoValue(a, from);
      NoDigitNoValue(t, to);
      if SomeDigit(a) {
        CanonicalForm(a, from);
      } else {
        ZerosBack(a, from, to);
      }
    }
  }

  /** Recoding keeps the value, and the leading zeros when there is a value. */
  lemma RecodeValue(a: seq<nat>, from: Base, to: Base)
    requires a != [] && DigitsOf(a, from)
    ensures var t := Recode(a, from, to);
            t != [] && DigitsOf(t, to) && Value(t, to) == Value(a, from) && (SomeDigit(a) ==> Lead(t) == Lead(a))
  {
    var v := Value(a, from);
    var d := Reversed(Digits(v, to));
    NoDigitNoValue(a, from);
    DigitsValue(v, to);
    ZerosHaveNoValue(d, Lead(a), to);
    if SomeDigit(a) { ZeroLead(Lead(a), d); }
  }

  /** Zeros gain one. */
  lemma ZerosRecode(n: nat, from: Base, to: Base)
    requires n > 0
    ensures Recode(ZeroDigits(n), from, to) == ZeroDigits(n + 1)
  {
    var a := ZeroDigits(n);
    LeadIs(a, n);
    NoDigitNoValue(a, from);
    assert Digits(0, to) == [0];
    OneZero(n);
  }

  lemma OneZero(n: nat)
    ensures ZeroDigits(n) + Reversed([0]) == ZeroDigits(n + 1)
  {
    assert Reversed([0]) == [0];
  }

  lemma ZerosBack(a: seq<nat>, from: Base, to: Base)
    requires a != [] && !SomeDigit(a)
    ensures var t := Recode(a, from, to);
            !SomeDigit(t) && Recode(t, to, from) == ZeroDigits(|a| + 2)
  {
    assert a == ZeroDigits(|a|);
    ZerosRecode(|a|, from, to);
    ZerosRecode(|a| + 1, to, from);
    LeadIs(ZeroDigits(|a| + 1), |a| + 1);
  }

  /* ---------- text ---------- */

  /** The alphabet 1-9, A-Z, a-z without I, O, l and the digit zero. */
  function Letter(d: nat): (c: char)
    requires d < 58
  {
    if d < 9 then '1' + d as char
    else if d < 17 then 'A' + (d - 9) as char
    else if d < 22 then 'J' + (d - 17) as char
    else if d < 33 then 'P' + (d - 22) as char
    else if d < 44 then 'a' + (d - 33) as char
    else 'm' + (d - 44) as char
  }

  /** The position of a character in the alphabet, or -1. */
  function LetterValue(c: char): (d: int)
    ensures -1 <= d < 58
  {
    if '1' <= c <= '9' then c as int - '1' as int
    else if 'A' <= c <= 'H' then c as int - 'A' as int + 9
    else if 'J' <= c <= 'N' then c as int - 'J' as int + 17
    else if 'P' <= c <= 'Z' then c as int - 'P' as int + 22
    else if 'a' <= c <= 'k' then c as int - 'a' as int + 33
    else if 'm' <= c <= 'z' then c as int - 'm' as int + 44
    else -1
  }

  function Spell(a: seq<nat>): (t: string)
    requires DigitsOf(a, 58)
    ensures |t| == |a|
  {
    seq(|a|, i requires 0 <= i < |a| => Letter(a[i]))
  }

  predicate Spelled(t: string) { forall i | 0 <= i < |t| :: LetterValue(t[i]) >= 0 }

  function Letters(t: string): (a: seq<nat>)
    requires Spelled(t)
    ensures |a| == |t| && DigitsOf(a, 58)
  {
    seq(|t|, i requires 0 <= i < |t| => LetterValue(t[i]))
  }

  function EncodeBase58(bytes: Bytes): (t: string) {
    Recoded(bytes);
    Spell(Recode(bytes, 256, 58))
  }

  lemma Recoded(bytes: Bytes)
    ensures DigitsOf(Recode(bytes, 256, 58), 58)
  {
    RecodeRoundTrip(bytes, 256, 58);
  }

  /** None where the source throws on a character outside the alphabet. */
  function DecodeBase58(t: string): Option<Bytes> {
    if !Spelled(t) then None
    else
      RecodeRoundTrip(Letters(t), 58, 256);
      Some(Recode(Letters(t), 58, 256))
  }

  predicate HasNonzero(b: Bytes) { exists i :: 0 <= i < |b| && b[i] != 0 }

  /** A character other than '1', the digit zero. */
  predicate HasLetter(t: string) { exists i :: 0 <= i < |t| && t[i] != '1' }

  lemma NonzeroIsDigit(b: Bytes)
    ensures HasNonzero(b) <==> SomeDigit(b)
  {
  }

  lemma LetterIsDigit(t: string)
    requires Spelled(t)
    ensures HasLetter(t) <==> SomeDigit(Letters(t))
  {
    var a := Letters(t);
    assert LetterValue('1') == 0;
    if HasLetter(t) {
      var i :| 0 <= i < |t| && t[i] != '1';
      assert Letter(0) == '1' && Letter(a[i]) == t[i];
      assert a[i] != 0;
    }
    if SomeDigit(a) {
      assert t[Lead(a)] != '1';
    }
  }

  lemma SpellLetters(a: seq<nat>)
    requires DigitsOf(a, 58)
    ensures Spelled(Spell(a)) && Letters(Spell(a)) == a
  {
  }

  lemma LettersSpell(t: string)
    requires Spelled(t)
    ensures Spell(Letters(t)) == t
  {
  }

  /** Bytes survive exactly when they are empty or not all zero; n zero bytes come back as n + 2. */
  lemma DecodeEncoded(bytes: Bytes)
    ensures DecodeBase58(EncodeBase58(bytes)) == Some(bytes) <==> bytes == [] || HasNonzero(bytes)
    ensures bytes != [] && !HasNonzero(bytes) ==> DecodeBase58(EncodeBase58(bytes)) == Some(Zeros(|bytes| + 2))
  {
    RecodeRoundTrip(bytes, 256, 58);
    SpellLetters(Recode(bytes, 256, 58));
    NonzeroIsDigit(bytes);
    if bytes != [] && !HasNonzero(bytes) {
      assert ZeroDigits(|bytes| + 2) == Zeros(|bytes| + 2);
    }
  }

  /** Text of the alphabet survives exactly when it is empty or has a character other than '1'. */
  lemma EncodeDecoded(t: string)
    requires Spelled(t)
    ensures DecodeBase58(t).Some? && (EncodeBase58(DecodeBase58(t).value) == t <==> t == "" || HasLetter(t))
    ensures HasNonzero(DecodeBase58(t).value) <==> HasLetter(t)
  {
    var a := Letters(t);
    RecodeRoundTrip(a, 58, 256);
    LetterIsDigit(t);
    LettersSpell(t);
    NonzeroIsDigit(DecodeBase58(t).value);
    var back := Recode(DecodeBase58(t).value, 256, 58);
    Recoded(DecodeBase58(t).value);
    SpellLetters(back);
    if EncodeBase58(DecodeBase58(t).value) == t {
      assert back == a;
    }
  }
}
