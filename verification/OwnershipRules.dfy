/** Exactly when a record binds an offer or moves a stamp. */
module OwnershipRules {
  import opened Bytes
  import opened Types
  import opened Transfer
  import opened Ownership

  /** A record of the chain in use, deep enough on it, that takes its stamp's next sequence. */
  predicate Ripe(c: Context, s: StampOwnership, entry: CanonicalRecord) {
    && entry.network == c.network && entry.inBestChain && entry.confirmations >= c.minConfirmations
    && entry.record.sequence == s.sequence + 1
  }

  /** The authorization is for this stamp and sequence, by its owner, and signed. */
  predicate AuthorizedBy(p: Primitives, s: StampOwnership, auth: TransferAuthorization, r: OnChainRecord) {
    && auth.stampCommitmentHex == r.stampCommitmentHex && auth.sequence == r.sequence
    && auth.fromAddress == s.currentOwner
    && p.ownerSigned(auth.fromAddress, auth.ownerPublicKeyHex, TransferPreimage(auth), auth.signatureHex)
  }

  /** It goes by the offer bound at its sequence, and names none where none is bound. */
  predicate GoesBy(p: Primitives, s: StampOwnership, auth: TransferAuthorization, sequence: int) {
    if sequence in s.boundOffers then
      var bound := s.boundOffers[sequence];
      && auth.offerHashHex == bound.offerHashHex && auth.toAddress == bound.offer.buyerAddress
      && auth.preimageHex != "none" && FromHex(auth.preimageHex).Some?
      && ToHex(p.sha256(FromHex(auth.preimageHex).value)) == bound.offer.hashLockHex
    else auth.offerHashHex == "none"
  }

  /** A record moves its stamp exactly if it is ripe, commits to a known authorization by the owner for it, and that
      goes by whatever offer is bound. */
  lemma MovesIff(c: Context, found: Option<StampOwnership>, entry: CanonicalRecord, auth: TransferAuthorization)
    ensures Decide(c, found, entry) == Moves(auth)
            <==> && found.Some? && Ripe(c, found.value, entry) && entry.record.kind == TransferRecord
                 && entry.record.artifactHashHex in c.transfers
                 && auth == c.transfers[entry.record.artifactHashHex]
                 && AuthorizedBy(c.p, found.value, auth, entry.record)
                 && GoesBy(c.p, found.value, auth, entry.record.sequence)
  {
  }

  /** A record binds an offer exactly if it is ripe, commits to a known offer of the owner for its stamp and
      sequence, and no other is bound there. */
  lemma BindsIff(c: Context, found: Option<StampOwnership>, entry: CanonicalRecord, offer: SettlementOffer)
    ensures Decide(c, found, entry) == Binds(offer)
            <==> && found.Some? && Ripe(c, found.value, entry) && entry.record.kind == OfferRecord
                 && entry.record.artifactHashHex in c.offers && offer == c.offers[entry.record.artifactHashHex]
                 && offer.stampCommitmentHex == entry.record.stampCommitmentHex
                 && offer.sequence == entry.record.sequence && offer.sellerAddress == found.value.currentOwner
                 && c.p.ownerSigned(offer.sellerAddress, offer.ownerPublicKeyHex, OfferPreimage(offer),
                                    offer.signatureHex)
                 && entry.record.sequence !in found.value.boundOffers
  {
  }

  /** A record waits exactly if it is of a known stamp and this network and is not deep enough, or commits to an
      artifact nobody has supplied. */
  lemma WaitsIff(c: Context, found: Option<StampOwnership>, entry: CanonicalRecord)
    ensures Decide(c, found, entry).Parks?
            <==> && found.Some? && entry.network == c.network
                 && (!(entry.inBestChain && entry.confirmations >= c.minConfirmations)
                     || entry.record.artifactHashHex !in (if entry.record.kind == OfferRecord then c.offers.Keys
                                                          else c.transfers.Keys))
  {
  }

  /** What a move makes of a stamp: one event more, from the owner to the recipient at the next sequence, and the
      recipient its owner. */
  lemma MovedTo(c: Context, found: Option<StampOwnership>, entry: CanonicalRecord, auth: TransferAuthorization)
    requires Decide(c, found, entry) == Moves(auth)
    ensures var s := found.value; var t := Moved(s, entry, auth);
            && t.history[..|s.history|] == s.history && |t.history| == |s.history| + 1
            && t.sequence == s.sequence + 1 && t.currentOwner == auth.toAddress && t.boundOffers == s.boundOffers
            && var e := t.history[|s.history|];
            && e.sequence == s.sequence + 1 && e.fromAddress == s.currentOwner && e.toAddress == auth.toAddress
            && e.txid == entry.txid && e.height == entry.height && e.offerHashHex == auth.offerHashHex
            && e.priceZat == if s.sequence + 1 in s.boundOffers then Some(s.boundOffers[s.sequence + 1].offer.priceZat)
                             else None
  {
  }

  /** What a record that moves its stamp adds to the stamp's history. */
  function EventOf(s: StampOwnership, entry: CanonicalRecord, auth: TransferAuthorization): OwnershipEvent {
    OwnershipEvent(s.sequence + 1, s.currentOwner, auth.toAddress, entry.txid, entry.height, auth.offerHashHex,
                   if s.sequence + 1 in s.boundOffers then Some(s.boundOffers[s.sequence + 1].offer.priceZat) else None)
  }

  /** The record moves the stamp. */
  predicate MovesStamp(c: Context, s: StampOwnership, entry: CanonicalRecord) {
    && Ripe(c, s, entry) && entry.record.kind == TransferRecord && entry.record.artifactHashHex in c.transfers
    && var auth := c.transfers[entry.record.artifactHashHex];
    AuthorizedBy(c.p, s, auth, entry.record) && GoesBy(c.p, s, auth, entry.record.sequence)
  }

  /** In every replay the next record adds to a stamp's history exactly if it names the stamp and moves it, and then
      that one event; so the history is the list of the records that did, in their order. */
  lemma {:induction false} HistoryIsMoves(c: Context, st: State, entries: seq<CanonicalRecord>, k: string)
    requires k in st.stamps
    ensures k in Replay(c, st, entries).stamps
    ensures Replay(c, st, entries).stamps[k].history == st.stamps[k].history + MovesOf(c, st, entries, k)
  {
    if entries != [] {
      var front, entry := entries[..|entries| - 1], entries[|entries| - 1];
      HistoryIsMoves(c, st, front, k);
      StepHistory(c, Replay(c, st, front), entry, k);
    }
  }

  /** The events of the records that moved the stamp, each judged by what the records before it made of the stamp. */
  function MovesOf(c: Context, st: State, entries: seq<CanonicalRecord>, k: string): seq<OwnershipEvent> {
    if entries == [] then []
    else
      var front, entry := entries[..|entries| - 1], entries[|entries| - 1];
      var before := Replay(c, st, front).stamps;
      MovesOf(c, st, front, k)
      + if k in before && entry.record.stampCommitmentHex == k && MovesStamp(c, before[k], entry)
        then [EventOf(before[k], entry, c.transfers[entry.record.artifactHashHex])] else []
  }

  lemma StepHistory(c: Context, st: State, entry: CanonicalRecord, k: string)
    requires k in st.stamps
    ensures k in Step(c, st, entry).stamps
    ensures Step(c, st, entry).stamps[k].history
            == st.stamps[k].history
               + if entry.record.stampCommitmentHex == k && MovesStamp(c, st.stamps[k], entry)
                 then [EventOf(st.stamps[k], entry, c.transfers[entry.record.artifactHashHex])] else []
  {
    var s := st.stamps[k];
    if entry.record.artifactHashHex in c.transfers {
      var auth := c.transfers[entry.record.artifactHashHex];
      MovesIff(c, Find(st, entry.record.stampCommitmentHex), entry, auth);
      if Decide(c, Some(s), entry) == Moves(auth) { MovedTo(c, Some(s), entry, auth); }
    }
    assert s.history + [] == s.history;
  }
}
