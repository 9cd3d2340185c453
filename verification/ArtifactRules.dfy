/** What a signed artifact's preimage and hash commit to, and the order records are replayed in. */
module ArtifactRules {
  import opened Bytes
  import opened Transfer
  import opened Ownership
  import opened OwnershipReplay
  import opened Ordering
  import Text

  /* ---------- preimages ---------- */

  /** No field of the artifact has a line feed in it. */
  predicate TransferOneLine(a: TransferAuthorization) {
    && Text.OneLine(a.stampCommitmentHex) && Text.OneLine(a.fromAddress) && Text.OneLine(a.toAddress)
    && Text.OneLine(a.offerHashHex) && Text.OneLine(a.preimageHex) && Text.OneLine(a.signatureHex)
  }

  predicate OfferOneLine(o: SettlementOffer) {
    && Text.OneLine(o.stampCommitmentHex) && Text.OneLine(o.sellerAddress) && Text.OneLine(o.buyerAddress)
    && Text.OneLine(o.priceZat) && Text.OneLine(o.hashLockHex) && Text.OneLine(o.signatureHex)
  }

  lemma IntegerOneLine(n: int)
    ensures Text.OneLine(Text.Integer(n))
  {
    var d := Text.Decimal(if n < 0 then -n else n);
    assert Text.AllDigits(d);
    assert "-"[0] == '-';
  }

  function TransferFields(a: TransferAuthorization): seq<string> {
    ["stamp-exp", "1", "transfer", a.stampCommitmentHex, Text.Integer(a.sequence), a.fromAddress, a.toAddress,
     a.offerHashHex, a.preimageHex]
  }

  function OfferFields(o: SettlementOffer): seq<string> {
    ["stamp-exp", "1", "offer", o.stampCommitmentHex, Text.Integer(o.sequence), o.sellerAddress, o.buyerAddress,
     o.priceZat, o.hashLockHex, Text.Integer(o.expiryHeight)]
  }

  lemma PreimagesAreLines(a: TransferAuthorization, o: SettlementOffer)
    ensures TransferPreimage(a) == Text.Lines(TransferFields(a)) && OfferPreimage(o) == Text.Lines(OfferFields(o))
  {
    assert Text.Integer(1) == "1";
  }

  lemma HeadersOneLine()
    ensures Text.OneLine("stamp-exp") && Text.OneLine("1") && Text.OneLine("transfer") && Text.OneLine("offer")
  {
  }

  lemma TransferFieldsOneLine(a: TransferAuthorization)
    requires TransferOneLine(a)
    ensures forall s | s in TransferFields(a) :: Text.OneLine(s)
  {
    HeadersOneLine();
    IntegerOneLine(a.sequence);
  }

  lemma OfferFieldsOneLine(o: SettlementOffer)
    requires OfferOneLine(o)
    ensures forall s | s in OfferFields(o) :: Text.OneLine(s)
  {
    HeadersOneLine();
    IntegerOneLine(o.sequence);
    IntegerOneLine(o.expiryHeight);
  }

  /** What is signed determines the whole authorization but the key and the signature themselves. */
  lemma TransferPreimageBinds(a: TransferAuthorization, b: TransferAuthorization)
    requires TransferOneLine(a) && TransferOneLine(b)
    ensures TransferPreimage(a) == TransferPreimage(b)
            <==> a.(ownerPublicKeyHex := "", signatureHex := "") == b.(ownerPublicKeyHex := "", signatureHex := "")
  {
    var o := SettlementOffer("", 0, "", "", "", "", 0, "", "");
    PreimagesAreLines(a, o);
    PreimagesAreLines(b, o);
    if TransferPreimage(a) == TransferPreimage(b) {
      TransferFieldsOneLine(a);
      TransferFieldsOneLine(b);
      var x, y := TransferFields(a), TransferFields(b);
      Text.LinesInjective(x, y);
      assert x[3] == y[3] && x[4] == y[4] && x[5] == y[5] && x[6] == y[6] && x[7] == y[7] && x[8] == y[8];
      Text.IntegerInjective(a.sequence, b.sequence);
    }
  }

  lemma OfferPreimageBinds(a: SettlementOffer, b: SettlementOffer)
    requires OfferOneLine(a) && OfferOneLine(b)
    ensures OfferPreimage(a) == OfferPreimage(b)
            <==> a.(ownerPublicKeyHex := "", signatureHex := "") == b.(ownerPublicKeyHex := "", signatureHex := "")
  {
    var t := TransferAuthorization("", 0, "", "", "", "", "", "");
    PreimagesAreLines(t, a);
    PreimagesAreLines(t, b);
    if OfferPreimage(a) == OfferPreimage(b) {
      OfferFieldsOneLine(a);
      OfferFieldsOneLine(b);
      var x, y := OfferFields(a), OfferFields(b);
      Text.LinesInjective(x, y);
      assert x[3] == y[3] && x[4] == y[4] && x[5] == y[5] && x[6] == y[6] && x[7] == y[7] && x[8] == y[8]
          && x[9] == y[9];
      Text.IntegerInjective(a.sequence, b.sequence);
      Text.IntegerInjective(a.expiryHeight, b.expiryHeight);
    }
  }

  /** A signature over one kind of artifact is never one over the other, whatever their fields hold. */
  lemma KindsNeverMeet(a: TransferAuthorization, o: SettlementOffer)
    ensures TransferPreimage(a) != OfferPreimage(o)
  {
    PreimagesAreLines(a, o);
    HeadersOneLine();
    assert |"transfer"| == 8 && |"offer"| == 5;
    var x, y := TransferFields(a), OfferFields(o);
    var p, q := x[1..][1..], y[1..][1..];
    assert Text.Lines(x) == "stamp-exp" + "\n" + Text.Lines(x[1..]);
    assert Text.Lines(y) == "stamp-exp" + "\n" + Text.Lines(y[1..]);
    assert Text.Lines(x[1..]) == "1" + "\n" + Text.Lines(p) && Text.Lines(y[1..]) == "1" + "\n" + Text.Lines(q);
    assert p[0] == "transfer" && q[0] == "offer" && |p| > 1 && |q| > 1;
    assert Text.Lines(p) == "transfer" + "\n" + Text.Lines(p[1..]);
    assert Text.Lines(q) == "offer" + "\n" + Text.Lines(q[1..]);
    if Text.Lines(x) == Text.Lines(y) {
      Text.FirstLine("stamp-exp", Text.Lines(x[1..]), "stamp-exp", Text.Lines(y[1..]));
      Text.FirstLine("1", Text.Lines(p), "1", Text.Lines(q));
      Text.FirstLine("transfer", Text.Lines(p[1..]), "offer", Text.Lines(q[1..]));
    }
  }

  /* ---------- hashes ---------- */

  /** The hash tells two texts apart. */
  predicate Separates(p: Primitives, x: string, y: string) { p.sha256(p.utf8(x)) == p.sha256(p.utf8(y)) ==> x == y }

  function Hashed(preimage: string, signatureHex: string): string { preimage + "\n" + signatureHex }

  lemma SameHash(p: Primitives, x: string, s: string, y: string, t: string)
    requires Separates(p, Hashed(x, s), Hashed(y, t)) && ArtifactHash(p, x, s) == ArtifactHash(p, y, t)
    ensures Hashed(x, s) == Hashed(y, t)
  {
    HexRoundTrip(p.sha256(p.utf8(Hashed(x, s))));
    HexRoundTrip(p.sha256(p.utf8(Hashed(y, t))));
  }

  /** The last line is the signature. */
  lemma LastLine(x: string, s: string, y: string, t: string)
    requires Text.OneLine(s) && Text.OneLine(t) && Hashed(x, s) == Hashed(y, t)
    ensures x == y && s == t
  {
    var all := Hashed(x, s);
    assert all[|x|] == '\n' && all[|y|] == '\n';
    assert forall i | |x| < i < |all| :: all[i] == s[i - |x| - 1] && all[i] in s;
    assert forall i | |y| < i < |all| :: all[i] == t[i - |y| - 1] && all[i] in t;
    assert |x| == |y|;
    assert x == all[..|x|] == y && s == all[|x| + 1..] == t;
  }

  /** Where the hash separates them, two authorizations have one hash exactly if they differ in nothing but the key. */
  lemma TransferHashBinds(p: Primitives, a: TransferAuthorization, b: TransferAuthorization)
    requires TransferOneLine(a) && TransferOneLine(b)
    requires Separates(p, Hashed(TransferPreimage(a), a.signatureHex), Hashed(TransferPreimage(b), b.signatureHex))
    ensures TransferHash(p, a) == TransferHash(p, b) <==> a.(ownerPublicKeyHex := "") == b.(ownerPublicKeyHex := "")
  {
    TransferPreimageBinds(a, b);
    if TransferHash(p, a) == TransferHash(p, b) {
      SameHash(p, TransferPreimage(a), a.signatureHex, TransferPreimage(b), b.signatureHex);
      LastLine(TransferPreimage(a), a.signatureHex, TransferPreimage(b), b.signatureHex);
    }
  }

  lemma OfferHashBinds(p: Primitives, a: SettlementOffer, b: SettlementOffer)
    requires OfferOneLine(a) && OfferOneLine(b)
    requires Separates(p, Hashed(OfferPreimage(a), a.signatureHex), Hashed(OfferPreimage(b), b.signatureHex))
    ensures OfferHash(p, a) == OfferHash(p, b) <==> a.(ownerPublicKeyHex := "") == b.(ownerPublicKeyHex := "")
  {
    OfferPreimageBinds(a, b);
    if OfferHash(p, a) == OfferHash(p, b) {
      SameHash(p, OfferPreimage(a), a.signatureHex, OfferPreimage(b), b.signatureHex);
      LastLine(OfferPreimage(a), a.signatureHex, OfferPreimage(b), b.signatureHex);
    }
  }

  /* ---------- the order of the replay ---------- */

  /** Not after by height, then transaction id, then place in the transaction. */
  predicate InPlace(a: CanonicalRecord, b: CanonicalRecord) {
    a.height < b.height
    || (a.height == b.height
        && (StringLess(a.txid, b.txid) || (a.txid == b.txid && a.outputIndex <= b.outputIndex)))
  }

  /** The replay reads records block by block, within a block by transaction id, and within a transaction in order. */
  lemma ReadInPlace(records: seq<CanonicalRecord>)
    ensures var sorted := Sort(RecordLess, records);
            && multiset(sorted) == multiset(records)
            && forall i, j | 0 <= i < j < |sorted| :: InPlace(sorted[i], sorted[j])
  {
    var sorted := Sort(RecordLess, records);
    CanonicalOrderIsWeak();
    SortSorted(RecordLess, records);
    SortMultiset(RecordLess, records);
    forall i, j | 0 <= i < j < |sorted| ensures InPlace(sorted[i], sorted[j]) {
      StringOrder(sorted[i].txid, sorted[j].txid);
    }
  }
}
