/** Byte strings, little-endian integers and hexadecimal text. */
module Bytes {

  type Byte = b: int | 0 <= b < 256
  type Bytes = seq<Byte>

  datatype Option<+T> = None | Some(value: T) {
    predicate IsFailure() { None? }
    function PropagateFailure<U>(): Option<U> requires None? { None }
    function Extract(): T requires Some? { value }
  }

  function Zeros(n: nat): (r: Bytes)
    ensures |r| == n
    ensures forall i | 0 <= i < n :: r[i] == 0
  {
    seq(n, _ => 0)
  }

  lemma Associative<T>(a: seq<T>, b: seq<T>, c: seq<T>)
    ensures a + b + c == a + (b + c)
  {
  }

  /** The joined parts, in order. */
  function Concat(parts: seq<Bytes>): Bytes {
    if parts == [] then [] else parts[0] + Concat(parts[1..])
  }

  lemma {:induction false} ConcatAppend(a: seq<Bytes>, b: seq<Bytes>)
    ensures Concat(a + b) == Concat(a) + Concat(b)
  {
    if a == [] {
      assert a + b == b;
    } else {
      assert (a + b)[1..] == a[1..] + b;
      ConcatAppend(a[1..], b);
    }
  }

  lemma ConcatOne(parts: seq<Bytes>, i: nat)
    requires i < |parts|
    ensures Concat(parts[..i + 1]) == Concat(parts[..i]) + parts[i]
  {
    assert parts[..i + 1] == parts[..i] + [parts[i]];
    ConcatAppend(parts[..i], [parts[i]]);
    assert Concat([parts[i]]) == parts[i];
  }

  /** 256 to the n. */
  function Pow256(n: nat): (r: nat)
    ensures r > 0
  {
    if n == 0 then 1 else 256 * Pow256(n - 1)
  }

  /** The n low bytes of value, least significant first; wraps modulo 256^n. */
  function LittleEndian(value: int, n: nat): (r: Bytes)
    ensures |r| == n
    decreases n
  {
    if n == 0 then [] else [value % 256] + LittleEndian(value / 256, n - 1)
  }

  function FromLittleEndian(b: Bytes): (r: nat)
    ensures r < Pow256(|b|)
  {
    if b == [] then 0 else b[0] + 256 * FromLittleEndian(b[1..])
  }

  lemma {:induction false} LittleEndianRoundTrip(value: nat, n: nat)
    requires value < Pow256(n)
    ensures FromLittleEndian(LittleEndian(value, n)) == value
  {
    if n > 0 {
      LittleEndianRoundTrip(value / 256, n - 1);
      assert LittleEndian(value, n)[1..] == LittleEndian(value / 256, n - 1);
    }
  }

  lemma {:induction false} FromLittleEndianRoundTrip(b: Bytes)
    ensures LittleEndian(FromLittleEndian(b), |b|) == b
  {
    if b != [] {
      FromLittleEndianRoundTrip(b[1..]);
      var v := FromLittleEndian(b);
      assert v % 256 == b[0] && v / 256 == FromLittleEndian(b[1..]);
    }
  }

  const U32: int := 0x1_0000_0000
  const U64: int := 0x1_0000_0000_0000_0000

  lemma Pow256Values()
    ensures Pow256(1) == 256 && Pow256(2) == 0x1_0000
    ensures Pow256(4) == U32 && Pow256(8) == U64
  {
    assert Pow256(3) == 0x100_0000;
    assert Pow256(5) == 0x100_0000_0000;
    assert Pow256(6) == 0x1_0000_0000_0000;
    assert Pow256(7) == 0x100_0000_0000_0000;
  }

  /* ---------- hexadecimal ---------- */

  function HexDigit(d: int): (c: char)
    requires 0 <= d < 16
    ensures IsLowerHex(c)
  {
    if d < 10 then '0' + d as char else 'a' + (d - 10) as char
  }

  predicate IsLowerHex(c: char) {
    '0' <= c <= '9' || 'a' <= c <= 'f'
  }

  /** A digit's value in either case, or -1. */
  function HexValue(c: char): (v: int)
    ensures -1 <= v < 16
  {
    if '0' <= c <= '9' then c as int - '0' as int
    else if 'a' <= c <= 'f' then c as int - 'a' as int + 10
    else if 'A' <= c <= 'F' then c as int - 'A' as int + 10
    else -1
  }

  /** Lower-case hex, two digits a byte. */
  function ToHex(b: Bytes): (r: string)
    ensures |r| == 2 * |b|
    ensures forall c | c in r :: IsLowerHex(c)
  {
    if b == [] then "" else [HexDigit(b[0] / 16), HexDigit(b[0] % 16)] + ToHex(b[1..])
  }

  /** The bytes a hex text of either case names; None for an odd length or another character. */
  function FromHex(text: string): (r: Option<Bytes>)
    ensures r.Some? ==> |text| == 2 * |r.value|
  {
    if text == "" then Some([])
    else if |text| == 1 || HexValue(text[0]) < 0 || HexValue(text[1]) < 0 then None
    else match FromHex(text[2..])
      case None => None
      case Some(rest) => Some([16 * HexValue(text[0]) + HexValue(text[1])] + rest)
  }

  predicate LowerHex(text: string) {
    |text| % 2 == 0 && forall c | c in text :: IsLowerHex(c)
  }

  lemma DigitsOfByte(b: Byte)
    ensures HexValue(HexDigit(b / 16)) == b / 16 && HexValue(HexDigit(b % 16)) == b % 16
    ensures 16 * (b / 16) + b % 16 == b
  {
  }

  lemma {:induction false} HexRoundTrip(b: Bytes)
    ensures FromHex(ToHex(b)) == Some(b)
  {
    if b != [] {
      HexRoundTrip(b[1..]);
      DigitsOfByte(b[0]);
      var t := ToHex(b);
      assert t[2..] == ToHex(b[1..]);
      assert t[0] == HexDigit(b[0] / 16) && t[1] == HexDigit(b[0] % 16);
      assert b == [b[0]] + b[1..];
    }
  }

  lemma {:induction false} LowerHexRoundTrip(text: string)
    requires LowerHex(text)
    ensures FromHex(text).Some? && ToHex(FromHex(text).value) == text
  {
    if text != "" {
      assert text[0] in text && text[1] in text;
      assert forall c | c in text[2..] :: c in text;
      LowerHexRoundTrip(text[2..]);
      LowerPair(text[0], text[1]);
      PairThenRest(text, FromHex(text[2..]).value);
    }
  }

  lemma PairThenRest(text: string, rest: Bytes)
    requires |text| >= 2 && FromHex(text[2..]) == Some(rest) && ToHex(rest) == text[2..]
    requires HexValue(text[0]) >= 0 && HexValue(text[1]) >= 0
    requires var v := 16 * HexValue(text[0]) + HexValue(text[1]);
             0 <= v < 256 && HexDigit(v / 16) == text[0] && HexDigit(v % 16) == text[1]
    ensures FromHex(text).Some? && ToHex(FromHex(text).value) == text
  {
    var v := 16 * HexValue(text[0]) + HexValue(text[1]);
    assert FromHex(text) == Some([v] + rest);
    ToHexStep(v, rest);
    assert text == [text[0], text[1]] + text[2..];
  }

  lemma ToHexStep(v: Byte, rest: Bytes)
    ensures ToHex([v] + rest) == [HexDigit(v / 16), HexDigit(v % 16)] + ToHex(rest)
  {
    assert ([v] + rest)[1..] == rest;
  }

  lemma LowerPair(a: char, b: char)
    requires IsLowerHex(a) && IsLowerHex(b)
    ensures HexValue(a) >= 0 && HexValue(b) >= 0
    ensures var v := 16 * HexValue(a) + HexValue(b); 0 <= v < 256 && HexDigit(v / 16) == a && HexDigit(v % 16) == b
  {
  }

  /** The bytes in the opposite order. */
  function Reverse(b: Bytes): (r: Bytes)
    ensures |r| == |b|
    ensures forall i | 0 <= i < |b| :: r[i] == b[|b| - 1 - i]
  {
    seq(|b|, i requires 0 <= i < |b| => b[|b| - 1 - i])
  }

  lemma ReverseTwice(b: Bytes)
    ensures Reverse(Reverse(b)) == b
  {
  }

  /** `buf.set(bytes, at)`: overwrites a stretch of a buffer and leaves the rest. */
  method CopyInto(buf: array<Byte>, at: nat, bytes: Bytes)
    requires at + |bytes| <= buf.Length
    modifies buf
    ensures buf[..] == old(buf[..at]) + bytes + old(buf[at + |bytes|..])
  {
    for i := 0 to |bytes|
      invariant buf[..at] == old(buf[..at])
      invariant buf[at..at + i] == bytes[..i]
      invariant buf[at + |bytes|..] == old(buf[at + |bytes|..])
    {
      buf[at + i] := bytes[i];
    }
    assert buf[..] == buf[..at] + buf[at..at + |bytes|] + buf[at + |bytes|..];
  }

  /** A 32-byte hash value. */
  type Digest = d: Bytes | |d| == 32 witness Zeros(32)
}
