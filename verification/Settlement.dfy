/** The marketplace listing workflow: a stamp is listed, reserved for one buyer, offered and
    authorized by signature, paid into an escrow, and transferred. */
module Settlement {
  import opened Bytes
  import opened Types
  import opened Transfer
  import opened Ownership
  import opened DemoChain
  import Text

  datatype ListingState =
    | Listed | Reserved | OfferPublished | Authorized | PaymentLocked | TransferPublished
    | Settled | Cancelled | Expired | Failed

  datatype ListingRow = ListingRow(
    id: string, stampId: string, stampCommitmentHex: string, sequence: int, state: ListingState,
    sellerAddress: string, sellerPublicKeyHex: string,
    buyerAddress: Option<string>, buyerPublicKeyHex: Option<string>,
    priceZat: string, hashLockHex: Option<string>, preimageHex: Option<string>,
    offerArtifact: Option<SettlementOffer>, offerTxid: Option<string>,
    transferArtifact: Option<TransferAuthorization>, transferTxid: Option<string>,
    escrowId: Option<string>, expiryHeight: Option<int>, note: string)

  datatype TransferRow = TransferRow(
    id: string, stampId: string, stampCommitmentHex: string, sequence: int, listingId: Option<string>,
    txid: string, artifact: TransferAuthorization)

  datatype StampRow = StampRow(id: string, commitmentHex: string)

  /** The listing and transfer tables and the chain, as the steps see them. */
  datatype World = World(
    listings: map<string, ListingRow>, transfers: map<string, TransferRow>, chain: Chain)

  /** The wallet's verdicts on addresses and keys, over the protocol primitives. */
  datatype Wallet = Wallet(
    p: Primitives, network: DestNetwork, canAuthorize: string -> bool, addressForKey: string -> Option<string>)

  const HTLC_TIMEOUT_BLOCKS := 48

  predicate IsLive(listing: ListingRow) {
    listing.state !in {Settled, Cancelled, Expired, Failed}
  }

  predicate WalletVerifies(w: Wallet, address: string, key: string, preimage: string, signature: string) {
    w.canAuthorize(address) && w.p.ownerSigned(address, key, preimage, signature)
  }

  function Or<T>(o: Option<T>, default: T): T {
    match o case None => default case Some(v) => v
  }

  function UnsignedOffer(l: ListingRow): SettlementOffer {
    SettlementOffer(l.stampCommitmentHex, l.sequence, l.sellerAddress, Or(l.buyerAddress, ""), l.priceZat,
                    Or(l.hashLockHex, ""), Or(l.expiryHeight, 0), "", "")
  }

  function UnsignedTransfer(p: Primitives, l: ListingRow, offer: SettlementOffer): TransferAuthorization {
    TransferAuthorization(l.stampCommitmentHex, l.sequence, l.sellerAddress, Or(l.buyerAddress, ""),
                          OfferHash(p, offer), Or(l.preimageHex, ""), "", "")
  }

  function OfferRecordOf(p: Primitives, l: ListingRow, offer: SettlementOffer): OnChainRecord {
    OnChainRecord(OfferRecord, l.stampCommitmentHex, l.sequence, OfferHash(p, offer))
  }

  function TransferRecordOf(p: Primitives, l: ListingRow, auth: TransferAuthorization): OnChainRecord {
    OnChainRecord(TransferRecord, l.stampCommitmentHex, l.sequence, TransferHash(p, auth))
  }

  function Upsert(world: World, row: ListingRow): World {
    world.(listings := world.listings[row.id := row])
  }

  /** `publisher.publishRecord`: encodes, then publishes; None where either throws. */
  function PublishRecord(w: Wallet, c: Chain, record: OnChainRecord, notice: Option<string>)
    : Option<(Chain, ZcashPublication)>
  {
    match EncodeRecord(record)
    case None => None
    case Some(payload) => Published(w.p, c, w.network, payload, notice)
  }

  /* ---------- the steps, as functions; None where the adapter throws ---------- */

  predicate HasLiveListing(listings: map<string, ListingRow>, stampId: string) {
    exists id | id in listings :: listings[id].stampId == stampId && IsLive(listings[id])
  }

  function NewListing(id: string, stamp: StampRow, sequence: int, seller: string, sellerKey: string, priceZat: nat,
                      note: string): ListingRow
  {
    ListingRow(id, stamp.id, stamp.commitmentHex, sequence, Listed, seller, sellerKey, None, None,
               Text.Decimal(priceZat), None, None, None, None, None, None, None, None, note)
  }

  function DoList(w: Wallet, world: World, id: string, stamp: StampRow, owner: string, sequence: int,
                  seller: string, sellerKey: string, priceZat: int, note: string): Option<World> {
    if !w.canAuthorize(seller) then None
    else if seller != owner then None
    else if w.addressForKey(sellerKey) != Some(seller) then None
    else if priceZat <= 0 then None
    else if HasLiveListing(world.listings, stamp.id) then None
    else Some(Upsert(world, NewListing(id, stamp, sequence + 1, seller, sellerKey, priceZat, note)))
  }

  function ReservedRow(p: Primitives, l: ListingRow, buyer: string, buyerKey: string, secret: Digest,
                       height: int): ListingRow
  {
    l.(state := Reserved, buyerAddress := Some(buyer), buyerPublicKeyHex := Some(buyerKey),
       preimageHex := Some(ToHex(secret)), hashLockHex := HashLockFor(p, ToHex(secret)),
       expiryHeight := Some(height + HTLC_TIMEOUT_BLOCKS))
  }

  function DoReserve(w: Wallet, world: World, l: ListingRow, buyer: string, buyerKey: string,
                     secret: Digest): Option<World>
  {
    if l.state != Listed then None
    else if w.addressForKey(buyerKey) != Some(buyer) then None
    else if buyer == l.sellerAddress then None
    else Some(Upsert(world, ReservedRow(w.p, l, buyer, buyerKey, secret, world.chain.height)))
  }

  function DoPublishOffer(w: Wallet, world: World, l: ListingRow, signature: string, key: string): Option<World> {
    var unsigned := UnsignedOffer(l);
    var offer := unsigned.(ownerPublicKeyHex := key, signatureHex := signature);
    if l.state != Reserved then None
    else if !WalletVerifies(w, l.sellerAddress, key, OfferPreimage(unsigned), signature) then None
    else match PublishRecord(w, world.chain, OfferRecordOf(w.p, l, offer), None)
      case None => None
      case Some((chain, z)) =>
        Some(Upsert(world.(chain := chain),
                    l.(state := OfferPublished, offerArtifact := Some(offer), offerTxid := Some(z.txid))))
  }

  function DoAuthorize(w: Wallet, world: World, l: ListingRow, signature: string, key: string): Option<World> {
    if l.state != OfferPublished || l.offerArtifact.None? then None
    else
      var unsigned := UnsignedTransfer(w.p, l, l.offerArtifact.value);
      if !WalletVerifies(w, l.sellerAddress, key, TransferPreimage(unsigned), signature) then None
      else Some(Upsert(world, l.(state := Authorized,
        transferArtifact := Some(unsigned.(ownerPublicKeyHex := key, signatureHex := signature)))))
  }

  function DoLockPayment(w: Wallet, world: World, l: ListingRow): Option<World> {
    if l.state != Authorized || l.transferArtifact.None? || !Text.AllDigits(l.priceZat) then None
    else
      var h := EscrowOf(w.p, world.chain, l);
      Some(Upsert(world.(chain := Lock(world.chain, h)),
                  l.(state := PaymentLocked, escrowId := Some(h.id), expiryHeight := Some(h.expiryHeight))))
  }

  function EscrowOf(p: Primitives, c: Chain, l: ListingRow): Htlc
    requires Text.AllDigits(l.priceZat)
  {
    NewEscrow(p, c, Text.Numeral(l.priceZat), Or(l.hashLockHex, ""), Or(l.buyerAddress, ""), l.sellerAddress,
              HTLC_TIMEOUT_BLOCKS)
  }

  /** The key of a listing's row in the transfer table. */
  function TransferId(l: ListingRow): string {
    l.stampCommitmentHex + ":" + Text.Integer(l.sequence)
  }

  function TransferRowOf(l: ListingRow, auth: TransferAuthorization, txid: string): TransferRow {
    TransferRow(TransferId(l), l.stampId, l.stampCommitmentHex, l.sequence, Some(l.id), txid, auth)
  }

  function DoPublishTransfer(w: Wallet, world: World, l: ListingRow): Option<World> {
    if l.state != PaymentLocked || l.transferArtifact.None? then None
    else
      var auth := l.transferArtifact.value;
      match PublishRecord(w, world.chain, TransferRecordOf(w.p, l, auth), Some(auth.toAddress))
      case None => None
      case Some((chain, z)) =>
        var row := TransferRowOf(l, auth, z.txid);
        Some(Upsert(world.(chain := chain, transfers := world.transfers[row.id := row]),
                    l.(state := TransferPublished, transferTxid := Some(z.txid))))
  }

  function DoClaimPayment(w: Wallet, world: World, l: ListingRow): Option<World> {
    if l.state != PaymentLocked && l.state != TransferPublished then None
    else match Claim(w.p, world.chain, Or(l.escrowId, ""), Or(l.preimageHex, ""))
      case None => None
      case Some(chain) => Some(Upsert(world.(chain := chain), l))
  }

  function DoCancel(world: World, l: ListingRow): Option<World> {
    if l.state == PaymentLocked || l.state == TransferPublished then None
    else Some(Upsert(world, l.(state := Cancelled)))
  }

  /** The indexer already shows this listing's sequence delivered to its buyer. */
  predicate Delivered(stamps: map<string, StampOwnership>, l: ListingRow) {
    && l.stampCommitmentHex in stamps
    && exists i | 0 <= i < |stamps[l.stampCommitmentHex].history| ::
         var h := stamps[l.stampCommitmentHex].history[i];
         h.sequence == l.sequence && Some(h.toAddress) == l.buyerAddress
  }

  function Reconciled(stamps: map<string, StampOwnership>, height: int, l: ListingRow): ListingRow {
    if !IsLive(l) then l
    else if Delivered(stamps, l) then l.(state := Settled)
    else if l.state in {Listed, Reserved, OfferPublished, Authorized} && l.expiryHeight.Some?
      && height > l.expiryHeight.value
      then l.(state := Expired)
    else l
  }

  function DoReconcile(world: World, stamps: map<string, StampOwnership>): World {
    world.(listings := map id | id in world.listings :: Reconciled(stamps, world.chain.height, world.listings[id]))
  }

  /* ---------- the adapter ---------- */

  /** The demo settlement adapter over a listing table, a transfer table and the shared chain. */
  class DemoSettlementAdapter {
    const wallet: Wallet
    const chain: DemoZcashChain
    var listings: map<string, ListingRow>
    var transfers: map<string, TransferRow>

    constructor (wallet: Wallet, chain: DemoZcashChain)
      ensures this.wallet == wallet && this.chain == chain
      ensures View() == World(map[], map[], chain.State())
    {
      this.wallet, this.chain := wallet, chain;
      listings, transfers := map[], map[];
    }

    function View(): World
      reads this, chain
    {
      World(listings, transfers, chain.State())
    }

    /** A step either happens entirely or, where the source throws, changes nothing. */
    twostate predicate Took(ok: bool, next: Option<World>)
      reads this, chain
    {
      ok == next.Some? && View() == if ok then next.value else old(View())
    }

    method List(id: string, stamp: StampRow, owner: string, sequence: int, seller: string, sellerKey: string,
                priceZat: int, note: string)
      returns (ok: bool)
      modifies this`listings
      ensures Took(ok, DoList(wallet, old(View()), id, stamp, owner, sequence, seller, sellerKey, priceZat, note))
    {
      if !wallet.canAuthorize(seller) || seller != owner { return false; }
      if wallet.addressForKey(sellerKey) != Some(seller) { return false; }
      if priceZat <= 0 { return false; }
      var active := exists i | i in listings :: listings[i].stampId == stamp.id && IsLive(listings[i]);
      if active { return false; }
      listings := listings[id := NewListing(id, stamp, sequence + 1, seller, sellerKey, priceZat, note)];
      ok := true;
    }

    method Reserve(l: ListingRow, buyer: string, buyerKey: string, secret: Digest) returns (ok: bool)
      modifies this`listings
      ensures Took(ok, DoReserve(wallet, old(View()), l, buyer, buyerKey, secret))
    {
      if l.state != Listed { return false; }
      if wallet.addressForKey(buyerKey) != Some(buyer) { return false; }
      if buyer == l.sellerAddress { return false; }
      var preimageHex := ToHex(secret);
      listings := listings[l.id := l.(
        state := Reserved, buyerAddress := Some(buyer), buyerPublicKeyHex := Some(buyerKey),
        preimageHex := Some(preimageHex), hashLockHex := HashLockFor(wallet.p, preimageHex),
        expiryHeight := Some(chain.height + HTLC_TIMEOUT_BLOCKS))];
      ok := true;
    }

    method PublishOffer(l: ListingRow, signature: string, key: string) returns (ok: bool)
      modifies this`listings, chain
      ensures Took(ok, DoPublishOffer(wallet, old(View()), l, signature, key))
    {
      if l.state != Reserved { return false; }
      var unsigned := UnsignedOffer(l);
      if !WalletVerifies(wallet, l.sellerAddress, key, OfferPreimage(unsigned), signature) { return false; }
      var offer := unsigned.(ownerPublicKeyHex := key, signatureHex := signature);
      var payload := WriteRecord(OfferRecordOf(wallet.p, l, offer));
      if payload.None? { return false; }
      var publication := chain.PublishDemoRecord(wallet.p, wallet.network, payload.value, None);
      if publication.None? { return false; }
      listings := listings[l.id := l.(
        state := OfferPublished, offerArtifact := Some(offer), offerTxid := Some(publication.value.txid))];
      ok := true;
    }

    method Authorize(l: ListingRow, signature: string, key: string) returns (ok: bool)
      modifies this`listings
      ensures Took(ok, DoAuthorize(wallet, old(View()), l, signature, key))
    {
      if l.state != OfferPublished || l.offerArtifact.None? { return false; }
      var unsigned := UnsignedTransfer(wallet.p, l, l.offerArtifact.value);
      if !WalletVerifies(wallet, l.sellerAddress, key, TransferPreimage(unsigned), signature) { return false; }
      listings := listings[l.id := l.(
        state := Authorized,
        transferArtifact := Some(unsigned.(ownerPublicKeyHex := key, signatureHex := signature)))];
      ok := true;
    }

    method LockPayment(l: ListingRow) returns (ok: bool)
      modifies this`listings, chain
      ensures Took(ok, DoLockPayment(wallet, old(View()), l))
    {
      if l.state != Authorized || l.transferArtifact.None? || !Text.AllDigits(l.priceZat) { return false; }
      var h := chain.LockDemoHtlc(wallet.p, Text.Numeral(l.priceZat), Or(l.hashLockHex, ""),
                                  Or(l.buyerAddress, ""), l.sellerAddress, HTLC_TIMEOUT_BLOCKS);
      listings := listings[l.id := l.(
        state := PaymentLocked, escrowId := Some(h.id), expiryHeight := Some(h.expiryHeight))];
      ok := true;
    }

    method PublishTransfer(l: ListingRow) returns (ok: bool)
      modifies this, chain
      ensures Took(ok, DoPublishTransfer(wallet, old(View()), l))
    {
      if l.state != PaymentLocked || l.transferArtifact.None? { return false; }
      var auth := l.transferArtifact.value;
      var payload := WriteRecord(TransferRecordOf(wallet.p, l, auth));
      if payload.None? { return false; }
      var publication := chain.PublishDemoRecord(wallet.p, wallet.network, payload.value, Some(auth.toAddress));
      if publication.None? { return false; }
      var row := TransferRowOf(l, auth, publication.value.txid);
      transfers := transfers[row.id := row];
      listings := listings[l.id := l.(state := TransferPublished, transferTxid := Some(publication.value.txid))];
      ok := true;
    }

    method ClaimPayment(l: ListingRow) returns (ok: bool)
      modifies this`listings, chain
      ensures Took(ok, DoClaimPayment(wallet, old(View()), l))
    {
      if l.state != PaymentLocked && l.state != TransferPublished { return false; }
      ok := chain.ClaimDemoHtlc(wallet.p, Or(l.escrowId, ""), Or(l.preimageHex, ""));
      if ok {
        listings := listings[l.id := l];
      }
    }

    method Cancel(l: ListingRow) returns (ok: bool)
      modifies this`listings
      ensures Took(ok, DoCancel(old(View()), l))
    {
      if l.state == PaymentLocked || l.state == TransferPublished { return false; }
      listings := listings[l.id := l.(state := Cancelled)];
      ok := true;
    }

    /** Visits the rows in whatever order the store lists them. */
    method ReconcileListings(stamps: map<string, StampOwnership>)
      requires forall id | id in listings :: listings[id].id == id
      modifies this`listings
      ensures View() == DoReconcile(old(View()), stamps)
    {
      var rows := listings;
      var todo := rows.Keys;
      while todo != {}
        invariant todo <= rows.Keys == listings.Keys
        invariant forall id | id in rows ::
          listings[id] == if id in todo then rows[id] else Reconciled(stamps, chain.height, rows[id])
        decreases todo
      {
        var id :| id in todo;
        todo := todo - {id};
        var l := rows[id];
        if !IsLive(l) { continue; }
        if Delivered(stamps, l) {
          listings := listings[l.id := l.(state := Settled)];
          continue;
        }
        var beforePayment := l.state in {Listed, Reserved, OfferPublished, Authorized};
        if beforePayment && l.expiryHeight.Some? && chain.height > l.expiryHeight.value {
          listings := listings[l.id := l.(state := Expired)];
        }
      }
    }
  }
}
