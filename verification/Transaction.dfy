/** The Zcash v5 transaction format of ZIP 225: structure, serialization and parsing. */
module Transaction {
  import opened Bytes

  datatype OutPoint = OutPoint(txid: string, index: int)
  datatype TxInput = TxInput(prevout: OutPoint, scriptSig: Bytes, sequence: int)
  datatype TxOutput = TxOutput(value: int, scriptPubKey: Bytes)

  datatype SaplingSpend = SaplingSpend(cv: Bytes, nullifier: Bytes, rk: Bytes)
  datatype SaplingOutput = SaplingOutput(
    cv: Bytes, cmu: Bytes, ephemeralKey: Bytes, encCiphertext: Bytes, outCiphertext: Bytes)
  datatype SaplingBundle = SaplingBundle(
    spends: seq<SaplingSpend>, outputs: seq<SaplingOutput>, valueBalance: int, anchor: Option<Bytes>,
    spendProofs: seq<Bytes>, spendAuthSigs: seq<Bytes>, outputProofs: seq<Bytes>, bindingSig: Option<Bytes>)

  datatype OrchardAction = OrchardAction(
    cv: Bytes, nullifier: Bytes, rk: Bytes, cmx: Bytes, ephemeralKey: Bytes, encCiphertext: Bytes,
    outCiphertext: Bytes)
  datatype OrchardBundle = OrchardBundle(
    actions: seq<OrchardAction>, flags: int, valueBalance: int, anchor: Bytes, proofs: Bytes,
    spendAuthSigs: seq<Bytes>, bindingSig: Bytes)

  datatype TransactionV5 = TransactionV5(
    version: int, versionGroupId: int, consensusBranchId: int, lockTime: int, expiryHeight: int,
    inputs: seq<TxInput>, outputs: seq<TxOutput>,
    sapling: Option<SaplingBundle>, orchard: Option<OrchardBundle>)

  const TX_VERSION_V5 := 5
  const OVERWINTERED_FLAG := 0x8000_0000
  const VERSION_GROUP_ID_V5 := 0x26a7_270a
  const SPEND_PROOF_BYTES := 192
  const OUTPUT_PROOF_BYTES := 192
  const REDJUBJUB_SIG_BYTES := 64
  const ENC_CIPHERTEXT_BYTES := 580
  const OUT_CIPHERTEXT_BYTES := 80
  const MAX_SAFE_INTEGER := 0x1f_ffff_ffff_ffff

  /* ---------- byte-level encodings ---------- */

  function U8(value: int): Bytes { [value % 256] }
  function U32le(value: int): (b: Bytes) ensures |b| == 4 { LittleEndian(value, 4) }
  function I64le(value: int): (b: Bytes) ensures |b| == 8 { LittleEndian(value, 8) }

  function CompactSize(value: nat): Bytes {
    if value < 0xfd then [value]
    else if value <= 0xffff then [0xfd] + LittleEndian(value, 2)
    else if value <= 0xffff_ffff then [0xfe] + LittleEndian(value, 4)
    else [0xff] + LittleEndian(value, 8)
  }

  function VarBytes(b: Bytes): Bytes { CompactSize(|b|) + b }

  /** Reads hex of either case with an optional `0x`. */
  function HexToBytes(hex: string): Option<Bytes> {
    if |hex| >= 2 && hex[..2] == "0x" then FromHex(hex[2..]) else FromHex(hex)
  }

  /** Ids are shown big-endian and serialized little-endian; None where the source throws. */
  function TxidToInternal(txid: string): Option<Bytes> {
    match HexToBytes(txid)
    case None => None
    case Some(b) => if |b| == 32 then Some(Reverse(b)) else None
  }

  function InternalToTxid(b: Bytes): string { ToHex(Reverse(b)) }

  predicate TxidReadable(txid: string) { TxidToInternal(txid).Some? }

  function EncodeOutPoint(o: OutPoint): (b: Bytes)
    ensures TxidReadable(o.txid) ==> |b| == 36
  {
    (match TxidToInternal(o.txid) case Some(b) => b case None => []) + U32le(o.index)
  }

  function EncodeInput(i: TxInput): Bytes {
    EncodeOutPoint(i.prevout) + (VarBytes(i.scriptSig) + U32le(i.sequence))
  }

  function EncodeOutput(o: TxOutput): Bytes { I64le(o.value) + VarBytes(o.scriptPubKey) }

  function EncodeSpend(s: SaplingSpend): Bytes { s.cv + (s.nullifier + s.rk) }

  function EncodeSaplingOutput(o: SaplingOutput): Bytes {
    o.cv + (o.cmu + (o.ephemeralKey + (o.encCiphertext + o.outCiphertext)))
  }

  function EncodeAction(a: OrchardAction): Bytes {
    a.cv + (a.nullifier + (a.rk + (a.cmx + (a.ephemeralKey + (a.encCiphertext + a.outCiphertext)))))
  }

  function Verbatim(b: Bytes): Bytes { b }

  /** `version | flag`, as an unsigned 32-bit number. */
  function OverwinteredVersion(version: int): int {
    var v := version % U32;
    if v < OVERWINTERED_FLAG then v + OVERWINTERED_FLAG else v
  }

  function EncodeHeader(tx: TransactionV5): (b: Bytes)
    ensures |b| == 20
  {
    U32le(OverwinteredVersion(tx.version)) + (U32le(tx.versionGroupId) + (U32le(tx.consensusBranchId)
    + (U32le(tx.lockTime) + U32le(tx.expiryHeight))))
  }

  /** The encodings of a list, one after another. */
  function EncodeAll<T>(encode: T -> Bytes, xs: seq<T>): Bytes {
    if xs == [] then [] else encode(xs[0]) + EncodeAll(encode, xs[1..])
  }

  /* ---------- serialization ---------- */

  predicate SaplingEmpty(s: Option<SaplingBundle>) {
    s.None? || (s.value.spends == [] && s.value.outputs == [])
  }

  predicate OrchardEmpty(o: Option<OrchardBundle>) {
    o.None? || o.value.actions == []
  }

  /** The anchor is on the wire only when there are spends to share it. */
  function AnchorBytes(s: SaplingBundle): Bytes {
    if s.spends != [] && s.anchor.Some? then s.anchor.value else []
  }

  function EncodeSapling(s: Option<SaplingBundle>): Bytes {
    if SaplingEmpty(s) then CompactSize(0) + CompactSize(0)
    else
      var b := s.value;
      CompactSize(|b.spends|) + (EncodeAll(EncodeSpend, b.spends)
      + (CompactSize(|b.outputs|) + (EncodeAll(EncodeSaplingOutput, b.outputs)
      + (I64le(b.valueBalance) + (AnchorBytes(b)
      + (EncodeAll(Verbatim, b.spendProofs) + (EncodeAll(Verbatim, b.spendAuthSigs)
      + (EncodeAll(Verbatim, b.outputProofs)
      + (match b.bindingSig case Some(sig) => sig case None => [])))))))))
  }

  function EncodeOrchard(o: Option<OrchardBundle>): Bytes {
    if OrchardEmpty(o) then CompactSize(0)
    else
      var b := o.value;
      CompactSize(|b.actions|) + (EncodeAll(EncodeAction, b.actions)
      + (U8(b.flags) + (I64le(b.valueBalance) + (b.anchor + (VarBytes(b.proofs)
      + (EncodeAll(Verbatim, b.spendAuthSigs) + b.bindingSig))))))
  }

  /** The conditions under which the serializer does not throw. */
  predicate Serializable(tx: TransactionV5) {
    && tx.version == TX_VERSION_V5 && tx.versionGroupId == VERSION_GROUP_ID_V5
    && (forall i | 0 <= i < |tx.inputs| :: TxidReadable(tx.inputs[i].prevout.txid))
    && (!SaplingEmpty(tx.sapling) ==>
          (tx.sapling.value.spends != [] ==> tx.sapling.value.anchor.Some?) && tx.sapling.value.bindingSig.Some?)
  }

  function TransactionBytes(tx: TransactionV5): Bytes {
    EncodeHeader(tx) + (CompactSize(|tx.inputs|) + (EncodeAll(EncodeInput, tx.inputs)
    + (CompactSize(|tx.outputs|) + (EncodeAll(EncodeOutput, tx.outputs)
    + (EncodeSapling(tx.sapling) + EncodeOrchard(tx.orchard))))))
  }

  function SerializeTransaction(tx: TransactionV5): Option<Bytes> {
    if Serializable(tx) then Some(TransactionBytes(tx)) else None
  }

  /* ---------- parsing ---------- */

  /** A value read off the front of a byte string and what remains, or a parse error. */
  datatype Read<+T> = Fail | Ok(value: T, rest: Bytes) {
    predicate IsFailure() { Fail? }
    function PropagateFailure<U>(): Read<U> requires Fail? { Fail }
    function Extract(): (T, Bytes) requires Ok? { (value, rest) }
  }

  function Take(n: nat, s: Bytes): (r: Read<Bytes>)
    ensures r.Ok? ==> |r.value| == n && s == r.value + r.rest
  {
    if n > |s| then Fail else Ok(s[..n], s[n..])
  }

  function TakeOf(n: nat): Bytes -> Read<Bytes> { (s: Bytes) => Take(n, s) }

  function ReadU8(s: Bytes): Read<int> {
    var (b, s) :- Take(1, s);
    Ok(b[0], s)
  }

  function ReadU32(s: Bytes): Read<int> {
    var (b, s) :- Take(4, s);
    Ok(FromLittleEndian(b), s)
  }

  function ReadI64(s: Bytes): Read<int> {
    var (b, s) :- Take(8, s);
    var v := FromLittleEndian(b);
    Ok(if v < U64 / 2 then v else v - U64, s)
  }

  /** Accepts every width; strict additionally refuses a width wider than the value needs. */
  function ReadCompactSize(strict: bool, s: Bytes): Read<nat> {
    var (first, s) :- ReadU8(s);
    if first < 0xfd then Ok(first, s)
    else
      var (b, s) :- Take(if first == 0xfd then 2 else if first == 0xfe then 4 else 8, s);
      var v := FromLittleEndian(b);
      if first == 0xff && v > MAX_SAFE_INTEGER then Fail
      else if strict && |CompactSize(v)| != 1 + |b| then Fail
      else Ok(v, s)
  }

  function ReadVarBytes(strict: bool, s: Bytes): Read<Bytes> {
    var (n, s) :- ReadCompactSize(strict, s);
    Take(n, s)
  }

  function ReadN<T>(read: Bytes -> Read<T>, n: nat, s: Bytes): (r: Read<seq<T>>)
    ensures r.Ok? ==> |r.value| == n
  {
    if n == 0 then Ok([], s)
    else
      var (x, s) :- read(s);
      var (xs, s) :- ReadN(read, n - 1, s);
      Ok([x] + xs, s)
  }

  function ReadOneInput(strict: bool, s: Bytes): Read<TxInput> {
    var (hash, s) :- Take(32, s);
    var (index, s) :- ReadU32(s);
    var (scriptSig, s) :- ReadVarBytes(strict, s);
    var (sequence, s) :- ReadU32(s);
    Ok(TxInput(OutPoint(InternalToTxid(hash), index), scriptSig, sequence), s)
  }

  function ReadInput(strict: bool): Bytes -> Read<TxInput> { (s: Bytes) => ReadOneInput(strict, s) }

  function ReadOneOutput(strict: bool, s: Bytes): Read<TxOutput> {
    var (value, s) :- ReadI64(s);
    var (script, s) :- ReadVarBytes(strict, s);
    Ok(TxOutput(value, script), s)
  }

  function ReadOutput(strict: bool): Bytes -> Read<TxOutput> { (s: Bytes) => ReadOneOutput(strict, s) }

  function ReadSpend(s: Bytes): Read<SaplingSpend> {
    var (cv, s) :- Take(32, s);
    var (nullifier, s) :- Take(32, s);
    var (rk, s) :- Take(32, s);
    Ok(SaplingSpend(cv, nullifier, rk), s)
  }

  function ReadSaplingOutput(s: Bytes): Read<SaplingOutput> {
    var (cv, s) :- Take(32, s);
    var (cmu, s) :- Take(32, s);
    var (ephemeralKey, s) :- Take(32, s);
    var (enc, s) :- Take(ENC_CIPHERTEXT_BYTES, s);
    var (out, s) :- Take(OUT_CIPHERTEXT_BYTES, s);
    Ok(SaplingOutput(cv, cmu, ephemeralKey, enc, out), s)
  }

  function ReadAction(s: Bytes): Read<OrchardAction> {
    var (cv, s) :- Take(32, s);
    var (nullifier, s) :- Take(32, s);
    var (rk, s) :- Take(32, s);
    var (cmx, s) :- Take(32, s);
    var (ephemeralKey, s) :- Take(32, s);
    var (enc, s) :- Take(ENC_CIPHERTEXT_BYTES, s);
    var (out, s) :- Take(OUT_CIPHERTEXT_BYTES, s);
    Ok(OrchardAction(cv, nullifier, rk, cmx, ephemeralKey, enc, out), s)
  }

  /** The part of a Sapling bundle that follows its descriptions. */
  function ReadSaplingTail(spends: seq<SaplingSpend>, outputs: seq<SaplingOutput>, s: Bytes): Read<SaplingBundle> {
    var (valueBalance, s) :- ReadI64(s);
    var (anchor, s) :- Take(if spends == [] then 0 else 32, s);
    var (spendProofs, s) :- ReadN(TakeOf(SPEND_PROOF_BYTES), |spends|, s);
    var (spendAuthSigs, s) :- ReadN(TakeOf(REDJUBJUB_SIG_BYTES), |spends|, s);
    var (outputProofs, s) :- ReadN(TakeOf(OUTPUT_PROOF_BYTES), |outputs|, s);
    var (bindingSig, s) :- Take(REDJUBJUB_SIG_BYTES, s);
    Ok(SaplingBundle(spends, outputs, valueBalance, if spends == [] then None else Some(anchor),
                     spendProofs, spendAuthSigs, outputProofs, Some(bindingSig)), s)
  }

  function ReadSapling(strict: bool, s: Bytes): Read<Option<SaplingBundle>> {
    var (spendCount, s) :- ReadCompactSize(strict, s);
    var (spends, s) :- ReadN(ReadSpend, spendCount, s);
    var (outputCount, s) :- ReadCompactSize(strict, s);
    var (outputs, s) :- ReadN(ReadSaplingOutput, outputCount, s);
    if spendCount == 0 && outputCount == 0 then Ok(None, s)
    else
      var (bundle, s) :- ReadSaplingTail(spends, outputs, s);
      Ok(Some(bundle), s)
  }

  function ReadOrchardTail(strict: bool, actions: seq<OrchardAction>, s: Bytes): Read<OrchardBundle> {
    var (flags, s) :- ReadU8(s);
    var (valueBalance, s) :- ReadI64(s);
    var (anchor, s) :- Take(32, s);
    var (proofs, s) :- ReadVarBytes(strict, s);
    var (spendAuthSigs, s) :- ReadN(TakeOf(REDJUBJUB_SIG_BYTES), |actions|, s);
    var (bindingSig, s) :- Take(REDJUBJUB_SIG_BYTES, s);
    Ok(OrchardBundle(actions, flags, valueBalance, anchor, proofs, spendAuthSigs, bindingSig), s)
  }

  function ReadOrchard(strict: bool, s: Bytes): Read<Option<OrchardBundle>> {
    var (actionCount, s) :- ReadCompactSize(strict, s);
    if actionCount == 0 then Ok(None, s)
    else
      var (actions, s) :- ReadN(ReadAction, actionCount, s);
      var (bundle, s) :- ReadOrchardTail(strict, actions, s);
      Ok(Some(bundle), s)
  }

  datatype Header = Header(consensusBranchId: int, lockTime: int, expiryHeight: int)

  /** Refuses anything but a v5 transaction of the v5 group. */
  function ReadHeader(s: Bytes): Read<Header> {
    var (header, s) :- ReadU32(s);
    if header < OVERWINTERED_FLAG || header - OVERWINTERED_FLAG != TX_VERSION_V5 then Fail
    else
      var (group, s) :- ReadU32(s);
      if group != VERSION_GROUP_ID_V5 then Fail
      else
        var (branch, s) :- ReadU32(s);
        var (lockTime, s) :- ReadU32(s);
        var (expiry, s) :- ReadU32(s);
        Ok(Header(branch, lockTime, expiry), s)
  }

  datatype Transparent = Transparent(inputs: seq<TxInput>, outputs: seq<TxOutput>)

  function ReadTransparent(strict: bool, s: Bytes): Read<Transparent> {
    var (inputCount, s) :- ReadCompactSize(strict, s);
    var (inputs, s) :- ReadN(ReadInput(strict), inputCount, s);
    var (outputCount, s) :- ReadCompactSize(strict, s);
    var (outputs, s) :- ReadN(ReadOutput(strict), outputCount, s);
    Ok(Transparent(inputs, outputs), s)
  }

  function ReadTransaction(strict: bool, s: Bytes): Read<TransactionV5> {
    var (h, s) :- ReadHeader(s);
    var (t, s) :- ReadTransparent(strict, s);
    var (sapling, s) :- ReadSapling(strict, s);
    var (orchard, s) :- ReadOrchard(strict, s);
    Ok(TransactionV5(TX_VERSION_V5, VERSION_GROUP_ID_V5, h.consensusBranchId, h.lockTime, h.expiryHeight,
                     t.inputs, t.outputs, sapling, orchard), s)
  }

  function ParseWith(strict: bool, raw: Bytes): Option<TransactionV5> {
    match ReadTransaction(strict, raw)
    case Fail => None
    case Ok(tx, rest) => if rest == [] then Some(tx) else None
  }

  /** None for anything that is not exactly one v5 transaction. */
  function ParseTransaction(raw: Bytes): Option<TransactionV5> { ParseWith(false, raw) }

  /** Every CompactSize of an accepted transaction is written in its shortest form. */
  predicate MinimalSizes(raw: Bytes) { ParseWith(true, raw).Some? }
}
