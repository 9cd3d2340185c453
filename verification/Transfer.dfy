/** stamp-exp/1 ownership records and the signed artifacts they commit to. */
module Transfer {
  import opened Bytes
  import Text

  datatype RecordKind = TransferRecord | OfferRecord

  datatype OnChainRecord = OnChainRecord(
    kind: RecordKind, stampCommitmentHex: string, sequence: int, artifactHashHex: string)

  datatype TransferAuthorization = TransferAuthorization(
    stampCommitmentHex: string, sequence: int, fromAddress: string, toAddress: string,
    offerHashHex: string, preimageHex: string, ownerPublicKeyHex: string, signatureHex: string)

  datatype SettlementOffer = SettlementOffer(
    stampCommitmentHex: string, sequence: int, sellerAddress: string, buyerAddress: string,
    priceZat: string, hashLockHex: string, expiryHeight: int,
    ownerPublicKeyHex: string, signatureHex: string)

  /** The primitives the protocol is built on: SHA-256, UTF-8, and the owner signature
      check over (address, public key, preimage, signature). */
  datatype Primitives = Primitives(
    sha256: Bytes -> Digest,
    utf8: string -> Bytes,
    ownerSigned: (string, string, string, string) -> bool)

  const PROTOCOL_ID := "stamp-exp"
  const OWNERSHIP_VERSION := 1

  function TransferPreimage(auth: TransferAuthorization): string {
    Text.Lines([PROTOCOL_ID, Text.Integer(OWNERSHIP_VERSION), "transfer", auth.stampCommitmentHex,
                Text.Integer(auth.sequence), auth.fromAddress, auth.toAddress, auth.offerHashHex,
                auth.preimageHex])
  }

  function OfferPreimage(offer: SettlementOffer): string {
    Text.Lines([PROTOCOL_ID, Text.Integer(OWNERSHIP_VERSION), "offer", offer.stampCommitmentHex,
                Text.Integer(offer.sequence), offer.sellerAddress, offer.buyerAddress, offer.priceZat,
                offer.hashLockHex, Text.Integer(offer.expiryHeight)])
  }

  function ArtifactHash(p: Primitives, preimage: string, signatureHex: string): string {
    ToHex(p.sha256(p.utf8(preimage + "\n" + signatureHex)))
  }

  function TransferHash(p: Primitives, auth: TransferAuthorization): string {
    ArtifactHash(p, TransferPreimage(auth), auth.signatureHex)
  }

  function OfferHash(p: Primitives, offer: SettlementOffer): string {
    ArtifactHash(p, OfferPreimage(offer), offer.signatureHex)
  }

  predicate TransferSigned(p: Primitives, auth: TransferAuthorization) {
    p.ownerSigned(auth.fromAddress, auth.ownerPublicKeyHex, TransferPreimage(auth), auth.signatureHex)
  }

  predicate OfferSigned(p: Primitives, offer: SettlementOffer) {
    p.ownerSigned(offer.sellerAddress, offer.ownerPublicKeyHex, OfferPreimage(offer), offer.signatureHex)
  }

  /** None where the source throws on text that is not hex. */
  function HashLockFor(p: Primitives, preimageHex: string): Option<string> {
    match FromHex(preimageHex)
    case None => None
    case Some(bytes) => Some(ToHex(p.sha256(bytes)))
  }

  predicate VerifyHashLock(p: Primitives, hashLockHex: string, preimageHex: string) {
    preimageHex != "none" && HashLockFor(p, preimageHex) == Some(hashLockHex)
  }

  /* ---------- the 74-byte OP_RETURN record ---------- */

  const TRANSFER_MAGIC: Bytes := [0x53, 0x54, 0x4d, 0x58]
  const OFFER_MAGIC: Bytes := [0x53, 0x54, 0x4d, 0x4f]
  const RECORD_PAYLOAD_LEN := 74

  function Magic(kind: RecordKind): Bytes {
    if kind.TransferRecord? then TRANSFER_MAGIC else OFFER_MAGIC
  }

  /** The fields a record must have for the encoder not to throw. */
  predicate Encodable(r: OnChainRecord) {
    && FromHex(r.stampCommitmentHex).Some? && |FromHex(r.stampCommitmentHex).value| == 32
    && FromHex(r.artifactHashHex).Some? && |FromHex(r.artifactHashHex).value| == 32
    && 0 <= r.sequence < U32
  }

  function RecordBytes(r: OnChainRecord): (b: Bytes)
    requires Encodable(r)
    ensures |b| == RECORD_PAYLOAD_LEN
  {
    Magic(r.kind) + LittleEndian(OWNERSHIP_VERSION, 2) + FromHex(r.stampCommitmentHex).value
    + LittleEndian(r.sequence, 4) + FromHex(r.artifactHashHex).value
  }

  function EncodeRecord(r: OnChainRecord): Option<Bytes> {
    if Encodable(r) then Some(RecordBytes(r)) else None
  }

  /** Fills the payload buffer field by field, at fixed offsets. */
  method WriteRecord(r: OnChainRecord) returns (out: Option<Bytes>)
    ensures out == EncodeRecord(r)
  {
    if !Encodable(r) {
      return None;
    }
    var commitment, artifact := FromHex(r.stampCommitmentHex).value, FromHex(r.artifactHashHex).value;
    var buf := new Byte[RECORD_PAYLOAD_LEN](_ => 0);
    CopyInto(buf, 0, Magic(r.kind));
    CopyInto(buf, 4, LittleEndian(OWNERSHIP_VERSION, 2));
    CopyInto(buf, 6, commitment);
    assert buf[..38] == Magic(r.kind) + LittleEndian(OWNERSHIP_VERSION, 2) + commitment;
    CopyInto(buf, 38, LittleEndian(r.sequence, 4));
    assert buf[..42] == Magic(r.kind) + LittleEndian(OWNERSHIP_VERSION, 2) + commitment + LittleEndian(r.sequence, 4);
    CopyInto(buf, 42, artifact);
    assert buf[..] == RecordBytes(r);
    out := Some(buf[..]);
  }

  function DecodeRecord(data: Bytes): Option<OnChainRecord> {
    if |data| != RECORD_PAYLOAD_LEN then None
    else if data[..4] != TRANSFER_MAGIC && data[..4] != OFFER_MAGIC then None
    else if FromLittleEndian(data[4..6]) != OWNERSHIP_VERSION then None
    else Some(OnChainRecord(
      if data[..4] == TRANSFER_MAGIC then TransferRecord else OfferRecord,
      ToHex(data[6..38]),
      FromLittleEndian(data[38..42]),
      ToHex(data[42..74])))
  }

  /** The spelling the decoder gives a record: 64 lower-case digits for each hash. */
  predicate CanonicalFields(r: OnChainRecord) {
    && LowerHex(r.stampCommitmentHex) && |r.stampCommitmentHex| == 64
    && LowerHex(r.artifactHashHex) && |r.artifactHashHex| == 64
    && 0 <= r.sequence < U32
  }

  /** What is published is what is read back. */
  lemma DecodeEncodedRecord(r: OnChainRecord)
    requires CanonicalFields(r)
    ensures EncodeRecord(r).Some? && DecodeRecord(EncodeRecord(r).value) == Some(r)
  {
    LowerHexRoundTrip(r.stampCommitmentHex);
    LowerHexRoundTrip(r.artifactHashHex);
    var b := RecordBytes(r);
    assert b[..4] == Magic(r.kind);
    assert b[4..6] == LittleEndian(OWNERSHIP_VERSION, 2);
    assert b[6..38] == FromHex(r.stampCommitmentHex).value;
    assert b[38..42] == LittleEndian(r.sequence, 4);
    assert b[42..74] == FromHex(r.artifactHashHex).value;
    Pow256Values();
    LittleEndianRoundTrip(OWNERSHIP_VERSION, 2);
    LittleEndianRoundTrip(r.sequence, 4);
  }

  /** A payload decodes to r exactly when r, in its canonical spelling, encodes to that payload. */
  lemma RecordCodec(data: Bytes, r: OnChainRecord)
    ensures DecodeRecord(data) == Some(r) <==> CanonicalFields(r) && EncodeRecord(r) == Some(data)
  {
    if DecodeRecord(data) == Some(r) {
      HexRoundTrip(data[6..38]);
      HexRoundTrip(data[42..74]);
      Pow256Values();
      FromLittleEndianRoundTrip(data[4..6]);
      FromLittleEndianRoundTrip(data[38..42]);
      assert data == data[..4] + data[4..6] + data[6..38] + data[38..42] + data[42..74];
    } else if CanonicalFields(r) {
      DecodeEncodedRecord(r);
    }
  }
}
