/** The burn intent carried in a Solana memo instruction. */
module Intent {
  import opened Base58
  import opened Bytes
  import opened Types

  datatype Intent = Intent(
    destinationNetwork: DestNetwork, destination: string, amountBase: int, mint: string, nonce: string)

  const INTENT_MAGIC: Bytes := [0x53, 0x54, 0x4d, 0x50]

  function NetworkCode(n: DestNetwork): Byte {
    match n case ZcashDemo => 0 case ZcashTest => 1 case ZcashMain => 2
  }

  function NetworkFromCode(b: Byte): Option<DestNetwork> {
    if b == 0 then Some(ZcashDemo) else if b == 1 then Some(ZcashTest) else if b == 2 then Some(ZcashMain) else None
  }

  /** `Buffer.from(text, "ascii")` keeps the low byte of each character. */
  function AsciiBytes(text: string): (b: Bytes)
    ensures |b| == |text|
  {
    seq(|text|, i requires 0 <= i < |text| => text[i] as int % 256)
  }

  /** `toString("ascii")` drops the high bit of each byte. */
  function AsciiText(b: Bytes): (t: string)
    ensures |t| == |b|
  {
    seq(|b|, i requires 0 <= i < |b| => (b[i] % 128) as char)
  }

  /** Where the encoder does not throw. */
  predicate Encodable(i: Intent) {
    && 1 <= |i.destination| <= 90
    && FromHex(i.nonce).Some? && |FromHex(i.nonce).value| == 16
    && DecodeBase58(i.mint).Some? && |DecodeBase58(i.mint).value| == 32
    && 0 <= i.amountBase < U64
  }

  function IntentBytes(i: Intent): (b: Bytes)
    requires Encodable(i)
    ensures |b| == 64 + |i.destination|
  {
    Record(INTENT_MAGIC, [0, 0, NetworkCode(i.destinationNetwork), |i.destination|], AsciiBytes(i.destination),
           LittleEndian(i.amountBase, 8), DecodeBase58(i.mint).value, FromHex(i.nonce).value)
  }

  function Record(magic: Bytes, head: Bytes, dest: Bytes, amount: Bytes, mint: Bytes, nonce: Bytes): (b: Bytes)
    ensures |b| == |magic| + |head| + |dest| + |amount| + |mint| + |nonce|
  {
    magic + head + dest + amount + mint + nonce
  }

  function EncodeIntent(i: Intent): Option<Bytes> {
    if Encodable(i) then Some(IntentBytes(i)) else None
  }

  /** Writes the fields into the buffer at their offsets. */
  method Fill(magic: Bytes, head: Bytes, dest: Bytes, amount: Bytes, mint: Bytes, nonce: Bytes)
    returns (buf: array<Byte>)
    requires |magic| == 4 && |head| == 4 && |amount| == 8 && |mint| == 32 && |nonce| == 16
    ensures buf[..] == magic + head + dest + amount + mint + nonce
  {
    var n := |dest|;
    buf := new Byte[64 + n](_ => 0);
    CopyInto(buf, 0, magic);
    CopyInto(buf, 4, head);
    assert buf[..8] == magic + head;
    CopyInto(buf, 8, dest);
    assert buf[..8 + n] == magic + head + dest;
    CopyInto(buf, 8 + n, amount);
    assert buf[..16 + n] == magic + head + dest + amount;
    CopyInto(buf, 16 + n, mint);
    assert buf[..48 + n] == magic + head + dest + amount + mint;
    CopyInto(buf, 48 + n, nonce);
  }

  method WriteIntent(i: Intent) returns (out: Option<Bytes>)
    ensures out == EncodeIntent(i)
  {
    if !Encodable(i) { return None; }
    var b := Fill(INTENT_MAGIC, [0, 0, NetworkCode(i.destinationNetwork), |i.destination|],
                  AsciiBytes(i.destination), LittleEndian(i.amountBase, 8), DecodeBase58(i.mint).value,
                  FromHex(i.nonce).value);
    out := Some(b[..]);
  }

  function DecodeIntent(data: Bytes): Option<Intent> {
    if |data| < 56 then None
    else if data[..4] != INTENT_MAGIC || data[4] != 0 || data[5] != 0 then None
    else match NetworkFromCode(data[6])
      case None => None
      case Some(network) =>
        var n: int := data[7];
        if n < 1 || n > 90 || |data| != 64 + n then None
        else Some(Intent(network, AsciiText(data[8..8 + n]), FromLittleEndian(data[8 + n..16 + n]),
                         EncodeBase58(data[16 + n..48 + n]), ToHex(data[48 + n..])))
  }

  predicate SevenBit(text: string) { forall k | 0 <= k < |text| :: text[k] as int < 128 }

  lemma AsciiRoundTrip(text: string)
    ensures AsciiText(AsciiBytes(text)) == text <==> SevenBit(text)
  {
    var back := AsciiText(AsciiBytes(text));
    forall k | 0 <= k < |text| ensures back[k] == text[k] <==> text[k] as int < 128 {
      assert back[k] as int == text[k] as int % 256 % 128;
    }
  }

  /** Where each field of the record lies. */
  lemma SixParts(a: Bytes, b: Bytes, c: Bytes, d: Bytes, e: Bytes, f: Bytes, n: nat)
    requires |a| == 4 && |b| == 4 && |c| == n && |d| == 8 && |e| == 32
    ensures var all := a + b + c + d + e + f;
            && all[..4] == a && all[4..8] == b && all[8..8 + n] == c && all[8 + n..16 + n] == d
            && all[16 + n..48 + n] == e && all[48 + n..] == f
  {
    var all := a + b + c + d + e + f;
    assert all[..48 + n] == a + b + c + d + e;
    assert all[..16 + n] == a + b + c + d;
    assert all[..8 + n] == a + b + c;
  }

  lemma Layout(i: Intent)
    requires Encodable(i)
    ensures var b := IntentBytes(i);
            var n := |i.destination|;
            && b[..4] == INTENT_MAGIC && b[4] == 0 && b[5] == 0
            && b[6] == NetworkCode(i.destinationNetwork) && b[7] == n
            && b[8..8 + n] == AsciiBytes(i.destination) && b[8 + n..16 + n] == LittleEndian(i.amountBase, 8)
            && b[16 + n..48 + n] == DecodeBase58(i.mint).value && b[48 + n..] == FromHex(i.nonce).value
  {
    var head: Bytes := [0, 0, NetworkCode(i.destinationNetwork), |i.destination|];
    SixParts(INTENT_MAGIC, head, AsciiBytes(i.destination), LittleEndian(i.amountBase, 8),
             DecodeBase58(i.mint).value, FromHex(i.nonce).value, |i.destination|);
    var b := IntentBytes(i);
    assert b[4..8][0] == b[4] && b[4..8][1] == b[5] && b[4..8][2] == b[6] && b[4..8][3] == b[7];
  }

  lemma NonceRoundTrip(nonce: string)
    requires FromHex(nonce).Some?
    ensures ToHex(FromHex(nonce).value) == nonce <==> LowerHex(nonce)
  {
    if LowerHex(nonce) { LowerHexRoundTrip(nonce); }
  }

  /** What a record with its fields in these places decodes to. */
  lemma DecodePlaces(b: Bytes, network: DestNetwork, n: nat, destination: Bytes, amount: nat, key: Bytes, nonce: Bytes)
    requires |b| == 64 + n && 1 <= n <= 90 && b[..4] == INTENT_MAGIC && b[4] == 0 && b[5] == 0 && b[7] == n
    requires NetworkFromCode(b[6]) == Some(network) && b[8..8 + n] == destination
    requires FromLittleEndian(b[8 + n..16 + n]) == amount && b[16 + n..48 + n] == key && b[48 + n..] == nonce
    ensures DecodeIntent(b) == Some(Intent(network, AsciiText(destination), amount, EncodeBase58(key), ToHex(nonce)))
  {
  }

  lemma CodeForth(network: DestNetwork)
    ensures NetworkFromCode(NetworkCode(network)) == Some(network)
  {
  }

  /** What an encoded intent reads back as. */
  lemma DecodeAfterEncode(i: Intent)
    requires Encodable(i)
    ensures DecodeIntent(IntentBytes(i))
            == Some(Intent(i.destinationNetwork, AsciiText(AsciiBytes(i.destination)), i.amountBase,
                           EncodeBase58(DecodeBase58(i.mint).value), ToHex(FromHex(i.nonce).value)))
  {
    Layout(i);
    Pow256Values();
    LittleEndianRoundTrip(i.amountBase, 8);
    CodeForth(i.destinationNetwork);
    DecodePlaces(IntentBytes(i), i.destinationNetwork, |i.destination|, AsciiBytes(i.destination), i.amountBase,
                 DecodeBase58(i.mint).value, FromHex(i.nonce).value);
  }

  /** An encodable intent reads back as itself exactly when its destination is 7-bit, its nonce is lower-case, and
      its mint is not the all-zero key. */
  lemma IntentRoundTrip(i: Intent)
    requires EncodeIntent(i).Some?
    ensures DecodeIntent(EncodeIntent(i).value) == Some(i)
            <==> SevenBit(i.destination) && LowerHex(i.nonce) && HasLetter(i.mint)
  {
    DecodeAfterEncode(i);
    AsciiRoundTrip(i.destination);
    EncodeDecoded(i.mint);
    NonceRoundTrip(i.nonce);
    assert i.mint != "" by { assert |DecodeBase58("").value| == 0; }
  }

  predicate SevenBitBytes(b: Bytes) { forall k | 0 <= k < |b| :: b[k] < 128 }

  /** The other way: what decodes encodes to the same bytes exactly when its destination bytes are 7-bit and its key
      is not all zeros. */
  lemma DecodedReencodes(data: Bytes)
    requires DecodeIntent(data).Some?
    ensures var n: int := data[7];
            EncodeIntent(DecodeIntent(data).value) == Some(data)
            <==> SevenBitBytes(data[8..8 + n]) && HasNonzero(data[16 + n..48 + n])
  {
    var n: int := data[7];
    var key := data[16 + n..48 + n];
    DecodedFields(data, n);
    DecodeEncoded(key);
    AsciiBack(data[8..8 + n]);
    if HasNonzero(key) { Reassembled(data, DecodeIntent(data).value, n); }
  }

  lemma DecodedFields(data: Bytes, n: nat)
    requires DecodeIntent(data).Some? && n == data[7]
    ensures var i := DecodeIntent(data).value;
            && |data| == 64 + n && 1 <= n <= 90
            && i.destination == AsciiText(data[8..8 + n]) && i.mint == EncodeBase58(data[16 + n..48 + n])
            && FromHex(i.nonce) == Some(data[48 + n..])
            && LittleEndian(i.amountBase, 8) == data[8 + n..16 + n] && 0 <= i.amountBase < U64
  {
    Pow256Values();
    FromLittleEndianRoundTrip(data[8 + n..16 + n]);
    HexRoundTrip(data[48 + n..]);
  }

  lemma Reassembled(data: Bytes, i: Intent, n: nat)
    requires DecodeIntent(data) == Some(i) && n == data[7]
    requires DecodeBase58(i.mint) == Some(data[16 + n..48 + n]) && FromHex(i.nonce) == Some(data[48 + n..])
    requires LittleEndian(i.amountBase, 8) == data[8 + n..16 + n] && 0 <= i.amountBase < U64
    ensures Encodable(i) && (IntentBytes(i) == data <==> AsciiBytes(i.destination) == data[8..8 + n])
  {
    Cut(data, n);
    HeadOf(data, i, n);
    SameButDestination(data[..4], data[4..8], AsciiBytes(i.destination), data[8..8 + n], data[8 + n..16 + n],
                       data[16 + n..48 + n], data[48 + n..]);
  }

  lemma SameButDestination(a: Bytes, b: Bytes, c: Bytes, c': Bytes, d: Bytes, e: Bytes, f: Bytes)
    requires |c| == |c'|
    ensures Record(a, b, c, d, e, f) == Record(a, b, c', d, e, f) <==> c == c'
  {
    if Record(a, b, c, d, e, f) == Record(a, b, c', d, e, f) {
      var lo, hi := |a| + |b|, |a| + |b| + |c|;
      assert (a + b + c + d + e + f)[lo..hi] == c && (a + b + c' + d + e + f)[lo..hi] == c';
    }
  }

  lemma Cut(data: Bytes, n: nat)
    requires |data| == 64 + n
    ensures data == Record(data[..4], data[4..8], data[8..8 + n], data[8 + n..16 + n], data[16 + n..48 + n],
                           data[48 + n..])
  {
    assert data[..8] == data[..4] + data[4..8];
    assert data[..8 + n] == data[..8] + data[8..8 + n];
    assert data[..16 + n] == data[..8 + n] + data[8 + n..16 + n];
    assert data[..48 + n] == data[..16 + n] + data[16 + n..48 + n];
    assert data == data[..48 + n] + data[48 + n..];
  }

  lemma CodeBack(b: Byte)
    ensures NetworkFromCode(b).Some? ==> NetworkCode(NetworkFromCode(b).value) == b
  {
  }

  lemma FourBytes(data: Bytes)
    requires |data| >= 8
    ensures data[4..8] == [data[4], data[5], data[6], data[7]]
  {
  }

  /** What the decoder has checked. */
  lemma Decoded(data: Bytes)
    requires DecodeIntent(data).Some?
    ensures |data| == 64 + data[7] && 1 <= data[7] <= 90 && |DecodeIntent(data).value.destination| == data[7]
    ensures data[..4] == INTENT_MAGIC && data[4] == 0 && data[5] == 0
    ensures NetworkFromCode(data[6]) == Some(DecodeIntent(data).value.destinationNetwork)
  {
  }

  lemma HeadOf(data: Bytes, i: Intent, n: nat)
    requires DecodeIntent(data) == Some(i) && n == data[7]
    ensures |data| == 64 + n && 1 <= n <= 90 && |i.destination| == n
    ensures data[..4] == INTENT_MAGIC && data[4..8] == [0, 0, NetworkCode(i.destinationNetwork), |i.destination|]
  {
    Decoded(data);
    CodeBack(data[6]);
    FourBytes(data);
  }

  lemma AsciiBack(b: Bytes)
    ensures AsciiBytes(AsciiText(b)) == b <==> SevenBitBytes(b)
  {
    var back := AsciiBytes(AsciiText(b));
    forall k | 0 <= k < |b| ensures back[k] == b[k] <==> b[k] < 128 {
      assert back[k] as int == b[k] as int % 128;
    }
  }
}
