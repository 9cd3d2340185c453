/** Parsing inverts serialization, and serialization inverts parsing of minimal encodings. */
module TransactionCodec {
  import opened Bytes
  import opened Transaction

  /* ---------- well-formed values: what the wire can carry ---------- */

  predicate InU32(v: int) { 0 <= v < U32 }
  predicate InI64(v: int) { -U64 / 2 <= v < U64 / 2 }

  predicate InputOk(i: TxInput) {
    && LowerHex(i.prevout.txid) && |i.prevout.txid| == 64 && InU32(i.prevout.index)
    && |i.scriptSig| <= MAX_SAFE_INTEGER && InU32(i.sequence)
  }

  predicate OutputOk(o: TxOutput) { InI64(o.value) && |o.scriptPubKey| <= MAX_SAFE_INTEGER }

  predicate SpendOk(s: SaplingSpend) { |s.cv| == 32 && |s.nullifier| == 32 && |s.rk| == 32 }

  predicate SaplingOutputOk(o: SaplingOutput) {
    && |o.cv| == 32 && |o.cmu| == 32 && |o.ephemeralKey| == 32
    && |o.encCiphertext| == ENC_CIPHERTEXT_BYTES && |o.outCiphertext| == OUT_CIPHERTEXT_BYTES
  }

  predicate ActionOk(a: OrchardAction) {
    && |a.cv| == 32 && |a.nullifier| == 32 && |a.rk| == 32 && |a.cmx| == 32 && |a.ephemeralKey| == 32
    && |a.encCiphertext| == ENC_CIPHERTEXT_BYTES && |a.outCiphertext| == OUT_CIPHERTEXT_BYTES
  }

  predicate AllOf<T>(ok: T -> bool, xs: seq<T>) { forall i | 0 <= i < |xs| :: ok(xs[i]) }

  function OfLength(n: nat): Bytes -> bool { (b: Bytes) => |b| == n }

  predicate SaplingOk(s: SaplingBundle) {
    && |s.spends| <= MAX_SAFE_INTEGER && |s.outputs| <= MAX_SAFE_INTEGER
    && AllOf(SpendOk, s.spends) && AllOf(SaplingOutputOk, s.outputs)
    && InI64(s.valueBalance)
    && (s.spends != [] ==> s.anchor.Some? && |s.anchor.value| == 32)
    && |s.spendProofs| == |s.spends| && AllOf(OfLength(SPEND_PROOF_BYTES), s.spendProofs)
    && |s.spendAuthSigs| == |s.spends| && AllOf(OfLength(REDJUBJUB_SIG_BYTES), s.spendAuthSigs)
    && |s.outputProofs| == |s.outputs| && AllOf(OfLength(OUTPUT_PROOF_BYTES), s.outputProofs)
    && s.bindingSig.Some? && |s.bindingSig.value| == REDJUBJUB_SIG_BYTES
  }

  predicate OrchardOk(o: OrchardBundle) {
    && |o.actions| <= MAX_SAFE_INTEGER && AllOf(ActionOk, o.actions)
    && 0 <= o.flags < 256 && InI64(o.valueBalance) && |o.anchor| == 32 && |o.proofs| <= MAX_SAFE_INTEGER
    && |o.spendAuthSigs| == |o.actions| && AllOf(OfLength(REDJUBJUB_SIG_BYTES), o.spendAuthSigs)
    && |o.bindingSig| == REDJUBJUB_SIG_BYTES
  }

  predicate TransactionOk(tx: TransactionV5) {
    && tx.version == TX_VERSION_V5 && tx.versionGroupId == VERSION_GROUP_ID_V5
    && InU32(tx.consensusBranchId) && InU32(tx.lockTime) && InU32(tx.expiryHeight)
    && |tx.inputs| <= MAX_SAFE_INTEGER && AllOf(InputOk, tx.inputs)
    && |tx.outputs| <= MAX_SAFE_INTEGER && AllOf(OutputOk, tx.outputs)
    && (!SaplingEmpty(tx.sapling) ==> SaplingOk(tx.sapling.value))
    && (!OrchardEmpty(tx.orchard) ==> OrchardOk(tx.orchard.value))
  }

  /** What a parser can return for a bundle: an empty one reads back as none, and an anchor nobody
      shares is not on the wire. */
  function CanonicalSapling(s: Option<SaplingBundle>): Option<SaplingBundle> {
    if SaplingEmpty(s) then None
    else Some(s.value.(anchor := if s.value.spends == [] then None else s.value.anchor))
  }

  function CanonicalOrchard(o: Option<OrchardBundle>): Option<OrchardBundle> {
    if OrchardEmpty(o) then None else o
  }

  function Canonical(tx: TransactionV5): TransactionV5 {
    tx.(sapling := CanonicalSapling(tx.sapling), orchard := CanonicalOrchard(tx.orchard))
  }

  /* ---------- lists ---------- */

  lemma {:induction false} ReadNRoundTrip<T(!new)>(read: Bytes -> Read<T>, encode: T -> Bytes, xs: seq<T>, rest: Bytes)
    requires forall i, r: Bytes | 0 <= i < |xs| :: read(encode(xs[i]) + r) == Ok(xs[i], r)
    ensures ReadN(read, |xs|, EncodeAll(encode, xs) + rest) == Ok(xs, rest)
  {
    if xs == [] {
      assert EncodeAll(encode, xs) + rest == rest;
    } else {
      var tail := EncodeAll(encode, xs[1..]) + rest;
      assert EncodeAll(encode, xs) + rest == encode(xs[0]) + tail;
      assert read(encode(xs[0]) + tail) == Ok(xs[0], tail);
      ReadNRoundTrip(read, encode, xs[1..], rest);
      assert xs == [xs[0]] + xs[1..];
    }
  }

  /** What one read guarantees, n reads guarantee of every element. */
  lemma {:induction false} ReadNAll<T(!new)>(read: Bytes -> Read<T>, ok: T -> bool, n: nat, s: Bytes)
    requires forall t: Bytes :: read(t).Ok? ==> ok(read(t).value)
    ensures ReadN(read, n, s).Ok? ==> AllOf(ok, ReadN(read, n, s).value)
  {
    if n > 0 && read(s).Ok? {
      ReadNAll(read, ok, n - 1, read(s).rest);
    }
  }

  lemma {:induction false} ReadNInverse<T(!new)>(read: Bytes -> Read<T>, encode: T -> Bytes, n: nat, s: Bytes)
    requires forall t: Bytes :: read(t).Ok? ==> t == encode(read(t).value) + read(t).rest
    ensures ReadN(read, n, s).Ok? ==> s == EncodeAll(encode, ReadN(read, n, s).value) + ReadN(read, n, s).rest
  {
    if n > 0 && read(s).Ok? {
      var mid := read(s).rest;
      ReadNInverse(read, encode, n - 1, mid);
      if ReadN(read, n, s).Ok? {
        var xs := ReadN(read, n, s).value;
        assert xs[1..] == ReadN(read, n - 1, mid).value;
      }
    }
  }

  lemma {:induction false} ReadNAgree<T(!new)>(a: Bytes -> Read<T>, b: Bytes -> Read<T>, n: nat, s: Bytes)
    requires forall t: Bytes :: a(t).Ok? ==> b(t) == a(t)
    ensures ReadN(a, n, s).Ok? ==> ReadN(b, n, s) == ReadN(a, n, s)
  {
    if n > 0 && a(s).Ok? {
      ReadNAgree(a, b, n - 1, a(s).rest);
    }
  }

  /* ---------- numbers ---------- */

  lemma TakeFront(b: Bytes, rest: Bytes)
    ensures Take(|b|, b + rest) == Ok(b, rest)
  {
    assert (b + rest)[..|b|] == b && (b + rest)[|b|..] == rest;
  }

  lemma U8RoundTrip(v: int, rest: Bytes)
    requires 0 <= v < 256
    ensures ReadU8(U8(v) + rest) == Ok(v, rest)
  {
    TakeFront(U8(v), rest);
  }

  lemma U32RoundTrip(v: int, rest: Bytes)
    requires InU32(v)
    ensures ReadU32(U32le(v) + rest) == Ok(v, rest)
  {
    TakeFront(U32le(v), rest);
    Pow256Values();
    LittleEndianRoundTrip(v, 4);
  }

  lemma U32Inverse(s: Bytes)
    requires ReadU32(s).Ok?
    ensures var Ok(v, rest) := ReadU32(s); InU32(v) && s == U32le(v) + rest
  {
    Pow256Values();
    FromLittleEndianRoundTrip(s[..4]);
  }

  /** A negative number is written as its two's complement. */
  lemma {:induction false} LittleEndianWraps(v: int, n: nat)
    ensures LittleEndian(v + Pow256(n), n) == LittleEndian(v, n)
    decreases n
  {
    if n > 0 {
      var q := Pow256(n - 1);
      assert (v + 256 * q) % 256 == v % 256 && (v + 256 * q) / 256 == v / 256 + q;
      LittleEndianWraps(v / 256, n - 1);
    }
  }

  lemma I64RoundTrip(v: int, rest: Bytes)
    requires InI64(v)
    ensures ReadI64(I64le(v) + rest) == Ok(v, rest)
  {
    TakeFront(I64le(v), rest);
    Pow256Values();
    if v < 0 {
      LittleEndianWraps(v, 8);
      LittleEndianRoundTrip(v + U64, 8);
    } else {
      LittleEndianRoundTrip(v, 8);
    }
  }

  lemma I64Inverse(s: Bytes)
    requires ReadI64(s).Ok?
    ensures var Ok(v, rest) := ReadI64(s); InI64(v) && s == I64le(v) + rest
  {
    Pow256Values();
    FromLittleEndianRoundTrip(s[..8]);
    LittleEndianWraps(FromLittleEndian(s[..8]) - U64, 8);
  }

  lemma CompactSizeRoundTrip(strict: bool, v: nat, rest: Bytes)
    requires v <= MAX_SAFE_INTEGER
    ensures ReadCompactSize(strict, CompactSize(v) + rest) == Ok(v, rest)
  {
    Pow256Values();
    var n := if v < 0xfd then 0 else if v <= 0xffff then 2 else if v <= 0xffff_ffff then 4 else 8;
    if n == 0 {
      TakeFront([v], rest);
    } else {
      var tag: Byte := if n == 2 then 0xfd else if n == 4 then 0xfe else 0xff;
      var b := LittleEndian(v, n);
      assert CompactSize(v) + rest == [tag] + (b + rest);
      TakeFront([tag], b + rest);
      TakeFront(b, rest);
      LittleEndianRoundTrip(v, n);
    }
  }

  lemma CompactSizeRange(strict: bool, s: Bytes)
    requires ReadCompactSize(strict, s).Ok?
    ensures ReadCompactSize(strict, s).value <= MAX_SAFE_INTEGER
    ensures ReadCompactSize(false, s) == ReadCompactSize(strict, s)
  {
    Pow256Values();
  }

  lemma CompactSizeInverse(s: Bytes)
    requires ReadCompactSize(true, s).Ok?
    ensures var Ok(v, rest) := ReadCompactSize(true, s); s == CompactSize(v) + rest
  {
    Pow256Values();
    var first := s[0];
    assert s[..1] == [first];
    if first >= 0xfd {
      var n := if first == 0xfd then 2 else if first == 0xfe then 4 else 8;
      var b := s[1..][..n];
      FromLittleEndianRoundTrip(b);
      assert s == [first] + (b + s[1..][n..]);
    }
  }

  lemma VarBytesRoundTrip(strict: bool, b: Bytes, rest: Bytes)
    requires |b| <= MAX_SAFE_INTEGER
    ensures ReadVarBytes(strict, VarBytes(b) + rest) == Ok(b, rest)
  {
    assert VarBytes(b) + rest == CompactSize(|b|) + (b + rest);
    CompactSizeRoundTrip(strict, |b|, b + rest);
    TakeFront(b, rest);
  }

  lemma VarBytesInverse(s: Bytes)
    requires ReadVarBytes(true, s).Ok?
    ensures var Ok(b, rest) := ReadVarBytes(true, s); s == VarBytes(b) + rest
  {
    CompactSizeInverse(s);
  }

  lemma VarBytesRange(strict: bool, s: Bytes)
    requires ReadVarBytes(strict, s).Ok?
    ensures |ReadVarBytes(strict, s).value| <= MAX_SAFE_INTEGER
    ensures ReadVarBytes(false, s) == ReadVarBytes(strict, s)
  {
    CompactSizeRange(strict, s);
  }

  /* ---------- inputs and outputs ---------- */

  /** A displayed id names its internal bytes and nothing else does. */
  lemma TxidRoundTrip(txid: string)
    requires LowerHex(txid) && |txid| == 64
    ensures TxidReadable(txid) && InternalToTxid(TxidToInternal(txid).value) == txid
  {
    LowerHexRoundTrip(txid);
    assert txid[1] in txid;
    ReverseTwice(FromHex(txid).value);
  }

  lemma InternalRoundTrip(b: Bytes)
    requires |b| == 32
    ensures var t := InternalToTxid(b); LowerHex(t) && |t| == 64 && TxidToInternal(t) == Some(b)
  {
    var t := InternalToTxid(b);
    assert t[1] in t;
    HexRoundTrip(Reverse(b));
    ReverseTwice(b);
  }

  /** The wire layout of an input, with the id's internal bytes in hand. */
  lemma InputLayout(i: TxInput, hash: Bytes, rest: Bytes)
    requires TxidToInternal(i.prevout.txid) == Some(hash)
    ensures EncodeInput(i) + rest
            == hash + (U32le(i.prevout.index) + (VarBytes(i.scriptSig) + (U32le(i.sequence) + rest)))
  {
    assert EncodeOutPoint(i.prevout) == hash + U32le(i.prevout.index);
  }

  lemma InputRoundTrip(strict: bool, i: TxInput, rest: Bytes)
    requires InputOk(i)
    ensures ReadInput(strict)(EncodeInput(i) + rest) == Ok(i, rest)
  {
    TxidRoundTrip(i.prevout.txid);
    var hash := TxidToInternal(i.prevout.txid).value;
    var s3 := U32le(i.sequence) + rest;
    var s2 := VarBytes(i.scriptSig) + s3;
    var s1 := U32le(i.prevout.index) + s2;
    InputLayout(i, hash, rest);
    TakeFront(hash, s1);
    U32RoundTrip(i.prevout.index, s2);
    VarBytesRoundTrip(strict, i.scriptSig, s3);
    U32RoundTrip(i.sequence, rest);
  }

  lemma InputRange(strict: bool, s: Bytes)
    requires ReadInput(strict)(s).Ok?
    ensures InputOk(ReadInput(strict)(s).value)
    ensures ReadInput(false)(s) == ReadInput(strict)(s)
  {
    var Ok(hash, s1) := Take(32, s);
    InternalRoundTrip(hash);
    U32Inverse(s1);
    var s2 := ReadU32(s1).rest;
    VarBytesRange(strict, s2);
    U32Inverse(ReadVarBytes(strict, s2).rest);
  }

  lemma InputInverse(s: Bytes)
    requires ReadInput(true)(s).Ok?
    ensures var Ok(i, rest) := ReadInput(true)(s); s == EncodeInput(i) + rest
  {
    var Ok(i, rest) := ReadInput(true)(s);
    var Ok(hash, s1) := Take(32, s);
    var s2 := ReadU32(s1).rest;
    var s3 := ReadVarBytes(true, s2).rest;
    InternalRoundTrip(hash);
    InputLayout(i, hash, rest);
    U32Inverse(s1);
    VarBytesInverse(s2);
    U32Inverse(s3);
  }

  lemma OutputRoundTrip(strict: bool, o: TxOutput, rest: Bytes)
    requires OutputOk(o)
    ensures ReadOutput(strict)(EncodeOutput(o) + rest) == Ok(o, rest)
  {
    var s1 := VarBytes(o.scriptPubKey) + rest;
    assert EncodeOutput(o) + rest == I64le(o.value) + s1;
    I64RoundTrip(o.value, s1);
    VarBytesRoundTrip(strict, o.scriptPubKey, rest);
  }

  lemma OutputRange(strict: bool, s: Bytes)
    requires ReadOutput(strict)(s).Ok?
    ensures OutputOk(ReadOutput(strict)(s).value)
    ensures ReadOutput(false)(s) == ReadOutput(strict)(s)
  {
    I64Inverse(s);
    VarBytesRange(strict, ReadI64(s).rest);
  }

  lemma OutputInverse(s: Bytes)
    requires ReadOutput(true)(s).Ok?
    ensures var Ok(o, rest) := ReadOutput(true)(s); s == EncodeOutput(o) + rest
  {
    I64Inverse(s);
    VarBytesInverse(ReadI64(s).rest);
  }

  /** The shortest of the four forms: one byte below 253, then a tag and two, four or eight bytes, least significant
      first. */
  lemma CompactSizeForms(v: nat)
    requires v < U64
    ensures CompactSize(v) == if v < 253 then [v] else if v < 0x1_0000 then [253] + LittleEndian(v, 2)
                              else if v < 0x1_0000_0000 then [254] + LittleEndian(v, 4)
                              else [255] + LittleEndian(v, 8)
  {
  }
}
