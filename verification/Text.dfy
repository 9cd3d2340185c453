/** Decimal numerals and newline-joined field lists, as the canonical preimages use them. */
module Text {

  function Digit(d: int): (c: char)
    requires 0 <= d < 10
    ensures '0' <= c <= '9'
  {
    '0' + d as char
  }

  /** `n.toString(10)` of a non-negative integer. */
  function Decimal(n: nat): (r: string)
    ensures r != "" && AllDigits(r)
  {
    if n < 10 then [Digit(n)] else Decimal(n / 10) + [Digit(n % 10)]
  }

  /** `String(n)` of an integer. */
  function Integer(n: int): string {
    if n < 0 then "-" + Decimal(-n) else Decimal(n)
  }

  predicate AllDigits(s: string) {
    forall i | 0 <= i < |s| :: '0' <= s[i] <= '9'
  }

  /** `BigInt(s)` of a run of decimal digits. */
  function Numeral(s: string): nat
    requires AllDigits(s)
  {
    if s == "" then 0
    else Numeral(s[..|s| - 1]) * 10 + (s[|s| - 1] as int - '0' as int)
  }

  lemma {:induction false} DecimalRoundTrip(n: nat)
    ensures Numeral(Decimal(n)) == n
  {
    var s := Decimal(n);
    if n < 10 {
      assert s[..0] == "";
    } else {
      DecimalRoundTrip(n / 10);
      assert s[..|s| - 1] == Decimal(n / 10);
    }
  }

  lemma DecimalInjective(m: nat, n: nat)
    requires Decimal(m) == Decimal(n)
    ensures m == n
  {
    DecimalRoundTrip(m);
    DecimalRoundTrip(n);
  }

  lemma NoSign(n: nat)
    ensures Decimal(n)[0] != '-'
  {
    assert Decimal(n)[0] in Decimal(n);
  }

  lemma IntegerInjective(m: int, n: int)
    requires Integer(m) == Integer(n)
    ensures m == n
  {
    NoSign(if m < 0 then 0 else m);
    NoSign(if n < 0 then 0 else n);
    if m < 0 && n < 0 {
      assert Integer(m)[1..] == Decimal(-m) && Integer(n)[1..] == Decimal(-n);
      DecimalInjective(-m, -n);
    } else if m >= 0 && n >= 0 {
      DecimalInjective(m, n);
    }
  }

  /** No line feed inside the field. */
  predicate OneLine(s: string) {
    '\n' !in s
  }

  /** `fields.join("\n")`. */
  function Lines(fields: seq<string>): string {
    if fields == [] then ""
    else if |fields| == 1 then fields[0]
    else fields[0] + "\n" + Lines(fields[1..])
  }

  lemma {:induction false} FirstLine(a: string, x: string, b: string, y: string)
    requires OneLine(a) && OneLine(b)
    requires a + "\n" + x == b + "\n" + y
    ensures a == b && x == y
  {
    var s := a + "\n" + x;
    assert s[|a|] == '\n' && s[|b|] == '\n';
    assert forall i | 0 <= i < |a| :: s[i] == a[i] && a[i] in a;
    assert forall i | 0 <= i < |b| :: s[i] == b[i] && b[i] in b;
    assert a == s[..|a|] == b;
    assert x == s[|a| + 1..] == y;
  }

  /** As many one-line fields join to the same text only if they are the same fields. */
  lemma {:induction false} LinesInjective(a: seq<string>, b: seq<string>)
    requires |a| == |b|
    requires forall s | s in a :: OneLine(s)
    requires forall s | s in b :: OneLine(s)
    requires Lines(a) == Lines(b)
    ensures a == b
  {
    if |a| > 1 {
      assert a[0] in a && b[0] in b;
      FirstLine(a[0], Lines(a[1..]), b[0], Lines(b[1..]));
      assert forall s | s in a[1..] :: s in a;
      assert forall s | s in b[1..] :: s in b;
      LinesInjective(a[1..], b[1..]);
      assert a == [a[0]] + a[1..] && b == [b[0]] + b[1..];
    }
  }
}
