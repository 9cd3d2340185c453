/** What the ownership replay makes of the records the listing workflow publishes. */
module SettlementReplay {
  import opened Bytes
  import opened Types
  import opened Transfer
  import opened Ordering
  import opened Ownership
  import opened OwnershipReplay
  import opened OwnershipSafety
  import opened DemoChain
  import opened Settlement
  import opened SettlementRuns

  /* ---------- reading a published record back ---------- */

  /** However deep it is buried, the transaction a record is published in reads back as that one record. */
  lemma PublicationReads(p: Primitives, network: DestNetwork, height: int, record: OnChainRecord,
                         notice: Option<string>, confirmations: int)
    requires CanonicalFields(record)
    ensures EncodeRecord(record).Some?
    ensures var published := RecordPublication(p, network, height, EncodeRecord(record).value, notice);
      var z := published.(confirmations := confirmations);
      RecordsOfOutputs(z, z.outputs)
      == [CanonicalRecord(z.txid, height, |NoticeOutputs(notice)|, confirmations, true, network, record)]
  {
    DecodeEncodedRecord(record);
    var payload := EncodeRecord(record).value;
    var z := RecordPublication(p, network, height, payload, notice).(confirmations := confirmations);
    var n, data := NoticeOutputs(notice), ZcashOutput(|NoticeOutputs(notice)|, 0, None, Some(payload));
    assert z.outputs == n + [data];
    assert (n + [data])[..|n|] == n;
    assert RecordsOfOutputs(z, n) == [] by { if n != [] { assert n[..0] == []; } }
    assert RecordsOfOutputs(z, n + [data]) == [] + RecordsOfOutput(z, data);
  }

  /** A record in the spelling the decoder gives it: what the encoder took is canonical but for letter case. */
  lemma PublishedFields(record: OnChainRecord)
    requires EncodeRecord(record).Some? && LowerHex(record.stampCommitmentHex) && LowerHex(record.artifactHashHex)
    ensures CanonicalFields(record)
  {
  }

  /** The transaction a record is published in reads back as that one record. */
  lemma PublishedReadsBack(w: Wallet, c: Chain, record: OnChainRecord, notice: Option<string>)
    requires PublishRecord(w, c, record, notice).Some?
    requires LowerHex(record.stampCommitmentHex) && LowerHex(record.artifactHashHex)
    ensures var z := PublishRecord(w, c, record, notice).value.1;
      RecordsOf([z]) == [CanonicalRecord(z.txid, c.height + 1, |NoticeOutputs(notice)|, 0, true, w.network, record)]
  {
    var z := PublishRecord(w, c, record, notice).value.1;
    PublicationReads(w.p, w.network, c.height + 1, record, notice, 0);
    assert z.(confirmations := 0) == z;
    assert [z][..0] == [];
    assert RecordsOf([z]) == [] + RecordsOfOutputs(z, z.outputs);
  }

  /** Records of every publication seen are among the records. */
  lemma {:induction false} RecordsSeen(zs: seq<ZcashPublication>, z: ZcashPublication, r: CanonicalRecord)
    requires z in zs && r in RecordsOfOutputs(z, z.outputs)
    ensures r in RecordsOf(zs)
  {
    DropLast(zs);
    if z in zs[..|zs| - 1] { RecordsSeen(zs[..|zs| - 1], z, r); }
  }

  /* ---------- one listing's records ---------- */

  /** The stamp a listing sells, as the ledger stands when the seller may still move it. */
  predicate ReadyToSell(l: ListingRow, s: StampOwnership) {
    s.sequence == l.sequence - 1 && s.currentOwner == l.sellerAddress
  }

  /** The listing's own offer is the one bound at its sequence. */
  predicate OfferStands(p: Primitives, l: ListingRow, s: StampOwnership)
    requires l.offerArtifact.Some?
  {
    l.sequence in s.boundOffers && s.boundOffers[l.sequence].offerHashHex == OfferHash(p, l.offerArtifact.value)
  }

  /** The stamp has not moved since it was listed, and no other offer is bound at the listing's sequence. */
  predicate Open(p: Primitives, l: ListingRow, s: StampOwnership)
    requires l.offerArtifact.Some?
  {
    ReadyToSell(l, s) && (l.sequence in s.boundOffers ==> OfferStands(p, l, s))
  }

  /** The sale is in the books: the move at the listing's sequence goes from its seller to its buyer under its offer,
      and the sale row names its price. */
  predicate SaleBooked(p: Primitives, l: ListingRow, st: State)
    requires l.offerArtifact.Some?
  {
    && l.stampCommitmentHex in st.stamps
    && var history := st.stamps[l.stampCommitmentHex].history;
    && 1 <= l.sequence <= |history|
    && var e := history[l.sequence - 1];
    && e.fromAddress == l.sellerAddress && Some(e.toAddress) == l.buyerAddress
    && e.offerHashHex == OfferHash(p, l.offerArtifact.value) && e.priceZat == Some(l.priceZat)
    && Sale(l.stampCommitmentHex, l.sequence, e.fromAddress, e.toAddress, l.priceZat, e.txid, e.height) in st.sales
  }

  /** A published offer passes the replay's check for a stamp its seller may still move. */
  lemma OfferAccepted(p: Primitives, l: ListingRow, escrows: map<string, Htlc>, s: StampOwnership)
    requires RowOk(p, l, escrows) && l.offerArtifact.Some?
    requires ReadyToSell(l, s)
    ensures CheckOffer(p, s, l.offerArtifact.value, OfferRecordOf(p, l, l.offerArtifact.value)) == Passed
  {
  }

  /** The stored authorization passes the replay's check if and only if the stamp has not moved since it was listed and
      the listing's own offer is the one bound. The workflow sees to neither: it checks signatures, not bound offers. */
  lemma AuthorizationAcceptedIff(p: Primitives, l: ListingRow, escrows: map<string, Htlc>, s: StampOwnership)
    requires RowOk(p, l, escrows) && l.transferArtifact.Some?
    requires OfferStands(p, l, s) ==> s.boundOffers[l.sequence].offer == l.offerArtifact.value
    ensures CheckTransfer(p, s, l.transferArtifact.value, TransferRecordOf(p, l, l.transferArtifact.value)) == Passed
            <==> ReadyToSell(l, s) && OfferStands(p, l, s)
  {
    assert |OfferHash(p, l.offerArtifact.value)| == 64 && |"none"| == 4;
  }

  /** The listing's artifacts are public under their hashes and both its records are confirmed. */
  predicate Arrived(c: Context, l: ListingRow, offerEntry: CanonicalRecord, transferEntry: CanonicalRecord) {
    && l.offerArtifact.Some? && l.transferArtifact.Some?
    && var offer, auth := l.offerArtifact.value, l.transferArtifact.value;
    && ArtifactsPublic(c, l)
    && Confirmed(c, offerEntry) && offerEntry.record == OfferRecordOf(c.p, l, offer)
    && Confirmed(c, transferEntry) && transferEntry.record == TransferRecordOf(c.p, l, auth)
  }

  predicate ArtifactsPublic(c: Context, l: ListingRow)
    requires l.offerArtifact.Some? && l.transferArtifact.Some?
  {
    var offer, auth := l.offerArtifact.value, l.transferArtifact.value;
    && OfferHash(c.p, offer) in c.offers && c.offers[OfferHash(c.p, offer)] == offer
    && TransferHash(c.p, auth) in c.transfers && c.transfers[TransferHash(c.p, auth)] == auth
  }

  /** A booked sale was made under the listing's offer. */
  lemma BookedStands(c: Context, l: ListingRow, st: State, entries: seq<CanonicalRecord>)
    requires l.offerArtifact.Some? && l.stampCommitmentHex in st.stamps
    requires ChainSafe(c, l.stampCommitmentHex, st.stamps[l.stampCommitmentHex], entries)
    requires SaleBooked(c.p, l, st)
    ensures OfferStands(c.p, l, st.stamps[l.stampCommitmentHex])
  {
    var k := l.stampCommitmentHex;
    var i := l.sequence - 1;
    assert |OfferHash(c.p, l.offerArtifact.value)| == 64 && |"none"| == 4;
    assert MoveJustified(c, k, st.stamps[k], i, entries);
  }

  /** What the move past a standing offer was. */
  lemma MoveUnderOffer(c: Context, l: ListingRow, escrows: map<string, Htlc>, s: StampOwnership,
                       entries: seq<CanonicalRecord>)
    requires RowOk(c.p, l, escrows) && l.transferArtifact.Some? && ArtifactsPublic(c, l)
    requires ChainSafe(c, l.stampCommitmentHex, s, entries)
    requires l.sequence <= |s.history| && OfferStands(c.p, l, s)
    ensures l.sequence >= 1 && s.boundOffers[l.sequence].offer == l.offerArtifact.value
    ensures var e := s.history[l.sequence - 1];
      && e.fromAddress == l.sellerAddress && Some(e.toAddress) == l.buyerAddress
      && e.offerHashHex == OfferHash(c.p, l.offerArtifact.value) && e.priceZat == Some(l.priceZat)
  {
    var k := l.stampCommitmentHex;
    assert OfferJustified(c, k, s, l.sequence, entries);
    var i := l.sequence - 1;
    assert MoveJustified(c, k, s, i, entries);
  }

  lemma MoveIsBooked(st: State, k: string, n: int)
    requires SalesExact(st)
    requires k in st.stamps && n in st.stamps[k].boundOffers && 1 <= n <= |st.stamps[k].history|
    ensures var e := st.stamps[k].history[n - 1];
      Sale(k, n, e.fromAddress, e.toAddress, st.stamps[k].boundOffers[n].offer.priceZat, e.txid, e.height) in st.sales
  {
    assert SoldAt(st, k, n);
    var x :| x in st.sales && x.stampCommitmentHex == k && x.sequence == n;
    assert SaleRecordsMove(st, x);
  }

  /** A move past the listing's sequence with its offer standing is its sale. */
  lemma StandsBooked(c: Context, l: ListingRow, escrows: map<string, Htlc>, st: State, entries: seq<CanonicalRecord>)
    requires RowOk(c.p, l, escrows) && l.transferArtifact.Some? && ArtifactsPublic(c, l)
    requires l.stampCommitmentHex in st.stamps && SalesExact(st)
    requires ChainSafe(c, l.stampCommitmentHex, st.stamps[l.stampCommitmentHex], entries)
    requires l.sequence <= |st.stamps[l.stampCommitmentHex].history|
            && OfferStands(c.p, l, st.stamps[l.stampCommitmentHex])
    ensures SaleBooked(c.p, l, st)
  {
    MoveUnderOffer(c, l, escrows, st.stamps[l.stampCommitmentHex], entries);
    MoveIsBooked(st, l.stampCommitmentHex, l.sequence);
  }

  /** In a state the replay reaches, the sale is booked exactly when the stamp has moved past the listing's sequence
      with the listing's offer bound there. */
  lemma BookedIff(c: Context, l: ListingRow, escrows: map<string, Htlc>, st: State, entries: seq<CanonicalRecord>)
    requires RowOk(c.p, l, escrows) && l.transferArtifact.Some? && ArtifactsPublic(c, l)
    requires Safe(c, st, entries) && l.stampCommitmentHex in st.stamps
    ensures var s := st.stamps[l.stampCommitmentHex];
      SaleBooked(c.p, l, st) <==> l.sequence <= |s.history| && OfferStands(c.p, l, s)
  {
    var s := st.stamps[l.stampCommitmentHex];
    assert ChainSafe(c, l.stampCommitmentHex, s, entries);
    if SaleBooked(c.p, l, st) { BookedStands(c, l, st, entries); }
    if l.sequence <= |s.history| && OfferStands(c.p, l, s) { StandsBooked(c, l, escrows, st, entries); }
  }

  /* ---------- when a sale settles ---------- */

  /** The stamp as the replay has it after these records. */
  function StampAfter(c: Context, stamps: seq<IssuedStamp>, entries: seq<CanonicalRecord>, k: string): StampOwnership
    requires k in Replay(c, Start(stamps), entries).stamps
  {
    Replay(c, Start(stamps), entries).stamps[k]
  }

  /** Later records extend what earlier ones left, and both states are safe. */
  lemma Later(c: Context, stamps: seq<IssuedStamp>, a: seq<CanonicalRecord>, b: seq<CanonicalRecord>)
    ensures var st, end := Replay(c, Start(stamps), a), Replay(c, Start(stamps), a + b);
      && Safe(c, st, a) && Safe(c, end, a + b) && StateGrows(st, end) && end == Replay(c, st, b)
  {
    ReplaySafe(c, stamps, a);
    ReplaySafe(c, stamps, a + b);
    ReplayConcat(c, Start(stamps), a, b);
    ReplayGrows(c, Replay(c, Start(stamps), a), b);
  }

  /** The owner after n moves is settled once they are made. */
  lemma OwnerSettled(a: StampOwnership, b: StampOwnership, n: nat)
    requires StampGrows(a, b) && n <= |a.history|
    ensures OwnerAfter(a, n) == OwnerAfter(b, n)
  {
  }

  /** A stamp past its listing, sold by another or bound to another offer never comes to settle the listing's offer. */
  lemma ClosedStays(c: Context, l: ListingRow, escrows: map<string, Htlc>, s: StampOwnership, t: StampOwnership,
                    entries: seq<CanonicalRecord>, more: seq<CanonicalRecord>)
    requires RowOk(c.p, l, escrows) && l.transferArtifact.Some? && ArtifactsPublic(c, l)
    requires ChainSafe(c, l.stampCommitmentHex, s, entries) && ChainSafe(c, l.stampCommitmentHex, t, more)
    requires StampGrows(s, t) && s.sequence >= l.sequence - 1
    requires OfferStands(c.p, l, t) && !(l.sequence <= |s.history| && OfferStands(c.p, l, s))
    ensures Open(c.p, l, s)
  {
    assert OfferJustified(c, l.stampCommitmentHex, t, l.sequence, more);
    assert s.sequence == l.sequence - 1;
    OwnerSettled(s, t, l.sequence - 1);
  }

  /** Only the listing's offer record can bind its offer. */
  lemma {:induction false} NoCopyNoOffer(c: Context, l: ListingRow, st: State, entries: seq<CanonicalRecord>)
    requires l.offerArtifact.Some? && l.stampCommitmentHex in st.stamps
    requires forall e | e in entries :: e.record != OfferRecordOf(c.p, l, l.offerArtifact.value)
    requires !OfferStands(c.p, l, st.stamps[l.stampCommitmentHex])
    ensures l.stampCommitmentHex in Replay(c, st, entries).stamps
    ensures !OfferStands(c.p, l, Replay(c, st, entries).stamps[l.stampCommitmentHex])
  {
    if entries != [] {
      var front, last := entries[..|entries| - 1], entries[|entries| - 1];
      DropLast(entries);
      NoCopyNoOffer(c, l, st, front);
      assert last in entries;
      OtherRecordNoOffer(c, l, Replay(c, st, front), last);
    }
  }

  lemma OtherRecordNoOffer(c: Context, l: ListingRow, st: State, entry: CanonicalRecord)
    requires l.offerArtifact.Some? && l.stampCommitmentHex in st.stamps
    requires entry.record != OfferRecordOf(c.p, l, l.offerArtifact.value)
    requires !OfferStands(c.p, l, st.stamps[l.stampCommitmentHex])
    ensures l.stampCommitmentHex in Step(c, st, entry).stamps
    ensures !OfferStands(c.p, l, Step(c, st, entry).stamps[l.stampCommitmentHex])
  {
  }

  /** An offer for a sequence the stamp has not come to is refused, and only a copy of it could bind later. */
  lemma EarlyNeverBooks(c: Context, l: ListingRow, stamps: seq<IssuedStamp>, pre: seq<CanonicalRecord>,
                        offerEntry: CanonicalRecord, rest: seq<CanonicalRecord>)
    requires l.offerArtifact.Some? && offerEntry.record == OfferRecordOf(c.p, l, l.offerArtifact.value)
    requires l.stampCommitmentHex in Replay(c, Start(stamps), pre).stamps
    requires StampAfter(c, stamps, pre, l.stampCommitmentHex).sequence < l.sequence - 1
    requires forall e | e in rest :: e.record != offerEntry.record
    ensures !SaleBooked(c.p, l, Replay(c, Start(stamps), pre + [offerEntry] + rest))
  {
    var k := l.stampCommitmentHex;
    Later(c, stamps, pre, [offerEntry]);
    ReplaySingle(c, Replay(c, Start(stamps), pre), offerEntry);
    var s := StampAfter(c, stamps, pre, k);
    assert ChainSafe(c, k, s, pre);
    assert Step(c, Replay(c, Start(stamps), pre), offerEntry).stamps == Replay(c, Start(stamps), pre).stamps by {
      assert !Decide(c, Some(s), offerEntry).Binds? && !Decide(c, Some(s), offerEntry).Moves?;
    }
    Later(c, stamps, pre + [offerEntry], rest);
    NoCopyNoOffer(c, l, Replay(c, Start(stamps), pre + [offerEntry]), rest);
    var end := Replay(c, Start(stamps), pre + [offerEntry] + rest);
    if SaleBooked(c.p, l, end) {
      assert ChainSafe(c, k, end.stamps[k], pre + [offerEntry] + rest);
      BookedStands(c, l, end, pre + [offerEntry] + rest);
    }
  }

  /** If the stamp has moved on, changed hands or bound another offer by the time the listing's offer is confirmed, no
      later record ever books the sale. */
  lemma ClosedNeverBooks(c: Context, l: ListingRow, escrows: map<string, Htlc>, stamps: seq<IssuedStamp>,
                         pre: seq<CanonicalRecord>, rest: seq<CanonicalRecord>)
    requires RowOk(c.p, l, escrows) && l.transferArtifact.Some? && ArtifactsPublic(c, l)
    requires l.stampCommitmentHex in Replay(c, Start(stamps), pre).stamps
    requires var s := StampAfter(c, stamps, pre, l.stampCommitmentHex); s.sequence >= l.sequence - 1 && !Open(c.p, l, s)
    requires !SaleBooked(c.p, l, Replay(c, Start(stamps), pre))
    ensures !SaleBooked(c.p, l, Replay(c, Start(stamps), pre + rest))
  {
    var k := l.stampCommitmentHex;
    Later(c, stamps, pre, rest);
    var st, end := Replay(c, Start(stamps), pre), Replay(c, Start(stamps), pre + rest);
    assert ChainSafe(c, k, st.stamps[k], pre);
    BookedIff(c, l, escrows, st, pre);
    if SaleBooked(c.p, l, end) {
      assert ChainSafe(c, k, end.stamps[k], pre + rest);
      BookedStands(c, l, end, pre + rest);
      ClosedStays(c, l, escrows, st.stamps[k], end.stamps[k], pre, pre + rest);
    }
  }

  /** A confirmed offer of an open listing stands. */
  lemma OpenOfferStands(c: Context, l: ListingRow, escrows: map<string, Htlc>, st: State, offerEntry: CanonicalRecord)
    requires RowOk(c.p, l, escrows) && l.transferArtifact.Some? && ArtifactsPublic(c, l)
    requires Confirmed(c, offerEntry) && offerEntry.record == OfferRecordOf(c.p, l, l.offerArtifact.value)
    requires l.stampCommitmentHex in st.stamps && Open(c.p, l, st.stamps[l.stampCommitmentHex])
    ensures l.stampCommitmentHex in Step(c, st, offerEntry).stamps
    ensures OfferStands(c.p, l, Step(c, st, offerEntry).stamps[l.stampCommitmentHex])
  {
    var s := st.stamps[l.stampCommitmentHex];
    OfferAccepted(c.p, l, escrows, s);
    if l.sequence in s.boundOffers {
      assert Decide(c, Some(s), offerEntry) == Rejects(ConflictingOffer);
    } else {
      assert Decide(c, Some(s), offerEntry) == Binds(l.offerArtifact.value);
    }
  }

  lemma StandingOfferMoves(c: Context, l: ListingRow, escrows: map<string, Htlc>, s: StampOwnership,
                           entries: seq<CanonicalRecord>, transferEntry: CanonicalRecord)
    requires RowOk(c.p, l, escrows) && l.transferArtifact.Some? && ArtifactsPublic(c, l)
    requires Confirmed(c, transferEntry) && transferEntry.record == TransferRecordOf(c.p, l, l.transferArtifact.value)
    requires ChainSafe(c, l.stampCommitmentHex, s, entries)
    requires s.sequence == l.sequence - 1 && OfferStands(c.p, l, s)
    ensures Decide(c, Some(s), transferEntry) == Moves(l.transferArtifact.value)
  {
    assert OfferJustified(c, l.stampCommitmentHex, s, l.sequence, entries);
    AuthorizationAcceptedIff(c.p, l, escrows, s);
  }

  lemma StandingOfferPasses(c: Context, l: ListingRow, escrows: map<string, Htlc>, st: State,
                            entries: seq<CanonicalRecord>, transferEntry: CanonicalRecord)
    requires RowOk(c.p, l, escrows) && l.transferArtifact.Some? && ArtifactsPublic(c, l)
    requires Confirmed(c, transferEntry) && transferEntry.record == TransferRecordOf(c.p, l, l.transferArtifact.value)
    requires l.stampCommitmentHex in st.stamps
    requires var s := st.stamps[l.stampCommitmentHex];
      ChainSafe(c, l.stampCommitmentHex, s, entries) && l.sequence - 1 <= s.sequence && OfferStands(c.p, l, s)
    ensures var end, k := Step(c, st, transferEntry), l.stampCommitmentHex;
      k in end.stamps && l.sequence <= |end.stamps[k].history| && OfferStands(c.p, l, end.stamps[k])
  {
    var k := l.stampCommitmentHex;
    var s := st.stamps[k];
    StepGrows(c, st, transferEntry);
    assert StampGrows(s, Step(c, st, transferEntry).stamps[k]);
    if s.sequence == l.sequence - 1 { StandingOfferMoves(c, l, escrows, s, entries, transferEntry); }
  }

  /** With its offer standing, the listing's confirmed authorization leaves the sale booked, now or before. */
  lemma StandingOfferSells(c: Context, l: ListingRow, escrows: map<string, Htlc>, st: State,
                           entries: seq<CanonicalRecord>, transferEntry: CanonicalRecord)
    requires RowOk(c.p, l, escrows) && l.transferArtifact.Some? && ArtifactsPublic(c, l)
    requires Confirmed(c, transferEntry) && transferEntry.record == TransferRecordOf(c.p, l, l.transferArtifact.value)
    requires Safe(c, st, entries) && l.stampCommitmentHex in st.stamps
    requires var s := st.stamps[l.stampCommitmentHex]; l.sequence - 1 <= s.sequence && OfferStands(c.p, l, s)
    ensures SaleBooked(c.p, l, Step(c, st, transferEntry))
  {
    assert ChainSafe(c, l.stampCommitmentHex, st.stamps[l.stampCommitmentHex], entries);
    StandingOfferPasses(c, l, escrows, st, entries, transferEntry);
    StepSafe(c, st, entries, transferEntry);
    BookedIff(c, l, escrows, Step(c, st, transferEntry), entries + [transferEntry]);
  }

  /** Once booked, booked for good. */
  lemma BookedForGood(c: Context, l: ListingRow, a: State, b: State)
    requires l.offerArtifact.Some? && SaleBooked(c.p, l, a) && StateGrows(a, b)
    ensures SaleBooked(c.p, l, b)
  {
    assert StampGrows(a.stamps[l.stampCommitmentHex], b.stamps[l.stampCommitmentHex]);
  }

  /** An open listing whose two records are confirmed is sold, whatever else is recorded before, between and after. */
  lemma OpenSells(c: Context, l: ListingRow, escrows: map<string, Htlc>, stamps: seq<IssuedStamp>,
                  pre: seq<CanonicalRecord>, offerEntry: CanonicalRecord, mid: seq<CanonicalRecord>,
                  transferEntry: CanonicalRecord, post: seq<CanonicalRecord>)
    requires RowOk(c.p, l, escrows) && Arrived(c, l, offerEntry, transferEntry)
    requires l.stampCommitmentHex in Replay(c, Start(stamps), pre).stamps
    requires Open(c.p, l, StampAfter(c, stamps, pre, l.stampCommitmentHex))
    ensures SaleBooked(c.p, l, Replay(c, Start(stamps), pre + [offerEntry] + mid + [transferEntry] + post))
  {
    var k, start := l.stampCommitmentHex, Start(stamps);
    var one, two := pre + [offerEntry], pre + [offerEntry] + mid;
    var three := two + [transferEntry];
    Later(c, stamps, pre, [offerEntry]);
    ReplaySingle(c, Replay(c, start, pre), offerEntry);
    OpenOfferStands(c, l, escrows, Replay(c, start, pre), offerEntry);
    Later(c, stamps, one, mid);
    assert StampGrows(StampAfter(c, stamps, pre, k), StampAfter(c, stamps, one, k));
    assert StampGrows(StampAfter(c, stamps, one, k), StampAfter(c, stamps, two, k));
    Later(c, stamps, two, [transferEntry]);
    ReplaySingle(c, Replay(c, start, two), transferEntry);
    StandingOfferSells(c, l, escrows, Replay(c, start, two), two, transferEntry);
    Later(c, stamps, three, post);
    BookedForGood(c, l, Replay(c, start, three), Replay(c, start, three + post));
  }

  /** The stamp had come to the sequence it was listed at, as the adapter reads it from the ledger; failing that, nobody
      publishes the offer's record again. */
  predicate ListedInTime(l: ListingRow, s: StampOwnership, offerEntry: CanonicalRecord, rest: seq<CanonicalRecord>) {
    s.sequence >= l.sequence - 1 || forall e | e in rest :: e.record != offerEntry.record
  }

  /** Let a listing's two records be confirmed among any others. Then its sale ends up in the books if and only if,
      before its offer's record, the stamp still stood where it was listed, with its seller and no other offer bound at
      that sequence, or the sale was made already. */
  lemma SaleSettlesIff(c: Context, l: ListingRow, escrows: map<string, Htlc>, stamps: seq<IssuedStamp>,
                       pre: seq<CanonicalRecord>, offerEntry: CanonicalRecord, mid: seq<CanonicalRecord>,
                       transferEntry: CanonicalRecord, post: seq<CanonicalRecord>)
    requires RowOk(c.p, l, escrows) && Arrived(c, l, offerEntry, transferEntry)
    requires l.stampCommitmentHex in Replay(c, Start(stamps), pre).stamps
    requires ListedInTime(l, StampAfter(c, stamps, pre, l.stampCommitmentHex), offerEntry, mid + [transferEntry] + post)
    ensures SaleBooked(c.p, l, Replay(c, Start(stamps), pre + [offerEntry] + (mid + [transferEntry] + post)))
            <==> Open(c.p, l, StampAfter(c, stamps, pre, l.stampCommitmentHex))
                 || SaleBooked(c.p, l, Replay(c, Start(stamps), pre))
  {
    var after := mid + [transferEntry] + post;
    var rest := [offerEntry] + after;
    assert pre + [offerEntry] + after == pre + rest == pre + [offerEntry] + mid + [transferEntry] + post;
    var s := StampAfter(c, stamps, pre, l.stampCommitmentHex);
    if Open(c.p, l, s) {
      OpenSells(c, l, escrows, stamps, pre, offerEntry, mid, transferEntry, post);
    } else if SaleBooked(c.p, l, Replay(c, Start(stamps), pre)) {
      Later(c, stamps, pre, rest);
      BookedForGood(c, l, Replay(c, Start(stamps), pre), Replay(c, Start(stamps), pre + rest));
    } else if s.sequence >= l.sequence - 1 {
      ClosedNeverBooks(c, l, escrows, stamps, pre, rest);
    } else {
      EarlyNeverBooks(c, l, stamps, pre, offerEntry, after);
    }
  }

  /** What the escrow does not protect against: if the stamp is no longer open to the listing when its offer comes to be
      read, the seller can still claim the payment locked for it, and no further record ever books the sale. */
  lemma PaidForNothing(w: Wallet, world: World, l: ListingRow, c: Context, stamps: seq<IssuedStamp>,
                       pre: seq<CanonicalRecord>)
    requires RowOk(w.p, l, world.chain.escrows) && c.p == w.p
    requires l.state == PaymentLocked || l.state == TransferPublished
    requires world.chain.escrows[l.escrowId.value].state == EscrowState.Locked
    requires ArtifactsPublic(c, l) && l.stampCommitmentHex in Replay(c, Start(stamps), pre).stamps
    requires var s := StampAfter(c, stamps, pre, l.stampCommitmentHex); s.sequence >= l.sequence - 1 && !Open(c.p, l, s)
    requires !SaleBooked(c.p, l, Replay(c, Start(stamps), pre))
    ensures DoClaimPayment(w, world, l).Some?
    ensures forall rest :: !SaleBooked(c.p, l, Replay(c, Start(stamps), pre + rest))
  {
    SellerCanClaim(w, world, l);
    forall rest ensures !SaleBooked(c.p, l, Replay(c, Start(stamps), pre + rest)) {
      ClosedNeverBooks(c, l, world.chain.escrows, stamps, pre, rest);
    }
  }

  /** A booked sale closes its listing at the next reconciliation. */
  lemma BookedSettles(c: Context, l: ListingRow, st: State, entries: seq<CanonicalRecord>, height: int)
    requires l.offerArtifact.Some? && IsLive(l) && SaleBooked(c.p, l, st) && Safe(c, st, entries)
    ensures Reconciled(st.stamps, height, l).state == Settled
  {
    var k, i := l.stampCommitmentHex, l.sequence - 1;
    assert ChainSafe(c, k, st.stamps[k], entries);
    assert MoveJustified(c, k, st.stamps[k], i, entries);
    assert Delivered(st.stamps, l);
  }
}
