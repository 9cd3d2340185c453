/** A run in which the buyer's escrow is claimed and the stamp stays with the seller: an offer left by a cancelled
    listing binds the sequence the stamp is listed at again. */
module SettlementResale {
  import opened Bytes
  import opened Types
  import opened Transfer
  import opened Ordering
  import opened Ownership
  import OwnershipOrder
  import OwnershipReplay
  import OwnershipSafety
  import opened DemoChain
  import opened Settlement
  import opened SettlementRuns
  import opened SettlementReplay
  import opened SettlementLog
  import Text

  /** The same stamp is listed twice at the same price for the same buyer, the first listing cancelled once its offer
      is on chain. */
  datatype Resale = Resale(
    first: string, second: string, stamp: StampRow, seller: string, sellerKey: string, buyer: string, buyerKey: string,
    priceZat: nat, firstSecret: Digest, secondSecret: Digest, firstSignature: string, secondSignature: string,
    authorization: string)

  function Attempt(x: Resale, id: string, secret: Digest, signature: string): seq<Action> {
    [List(id, x.stamp, x.seller, 0, x.seller, x.sellerKey, x.priceZat, ""),
     Reserve(id, x.buyer, x.buyerKey, secret),
     PublishOffer(id, signature, x.sellerKey)]
  }

  function PaymentActions(id: string, signature: string, key: string): seq<Action> {
    [Authorize(id, signature, key), LockPayment(id), PublishTransfer(id)] + [ClaimPayment(id)]
  }

  function FirstActions(x: Resale): seq<Action> {
    Attempt(x, x.first, x.firstSecret, x.firstSignature) + [Cancel(x.first)]
  }

  function Actions(x: Resale): seq<Action> {
    FirstActions(x) + Attempt(x, x.second, x.secondSecret, x.secondSignature)
    + PaymentActions(x.second, x.authorization, x.sellerKey)
  }

  /* ---------- composing runs ---------- */

  /** A run with fresh ids, nothing happening elsewhere, that ends in a world and publishes a log. */
  predicate Leads(w: Wallet, start: World, actions: seq<Action>, end: World, log: seq<ZcashPublication>) {
    && FreshRun(w, start, actions) && Run(w, start, actions) == end && Log(w, start, actions) == log
    && forall i | 0 <= i < |actions| :: !actions[i].Elsewhere?
  }

  lemma OneStep(w: Wallet, start: World, a: Action)
    requires FreshIds(w, start, a) && !a.Elsewhere?
    ensures Leads(w, start, [a], Perform(w, start, a), Broadcast(w, start, a))
  {
    assert [a][..0] == [];
  }

  lemma {:induction false} RunThenRun(w: Wallet, start: World, a: seq<Action>, b: seq<Action>)
    ensures Run(w, start, a + b) == Run(w, Run(w, start, a), b)
  {
    if b == [] {
      assert a + b == a;
    } else {
      assert (a + b)[..|a + b| - 1] == a + b[..|b| - 1];
      RunThenRun(w, start, a, b[..|b| - 1]);
    }
  }

  lemma {:induction false} LogThen(w: Wallet, start: World, a: seq<Action>, b: seq<Action>)
    ensures Log(w, start, a + b) == Log(w, start, a) + Log(w, Run(w, start, a), b)
  {
    if b == [] {
      assert a + b == a;
    } else {
      var front, last := b[..|b| - 1], b[|b| - 1];
      assert (a + b)[..|a + b| - 1] == a + front;
      LogThen(w, start, a, front);
      RunThenRun(w, start, a, front);
      Associative(Log(w, start, a), Log(w, Run(w, start, a), front), Broadcast(w, Run(w, start, a + front), last));
    }
  }

  lemma RunThen(w: Wallet, start: World, a: seq<Action>, b: seq<Action>)
    ensures Run(w, start, a + b) == Run(w, Run(w, start, a), b)
    ensures Log(w, start, a + b) == Log(w, start, a) + Log(w, Run(w, start, a), b)
  {
    RunThenRun(w, start, a, b);
    LogThen(w, start, a, b);
  }

  lemma FreshThen(w: Wallet, start: World, a: seq<Action>, b: seq<Action>, i: nat)
    requires FreshRun(w, start, a) && FreshRun(w, Run(w, start, a), b) && i < |a + b|
    ensures FreshIds(w, Run(w, start, (a + b)[..i]), (a + b)[i])
  {
    if i < |a| {
      assert (a + b)[..i] == a[..i];
    } else {
      assert (a + b)[..i] == a + b[..i - |a|];
      RunThen(w, start, a, b[..i - |a|]);
    }
  }

  lemma Then(w: Wallet, start: World, a: seq<Action>, mid: World, aLog: seq<ZcashPublication>, b: seq<Action>,
             end: World, bLog: seq<ZcashPublication>)
    requires Leads(w, start, a, mid, aLog) && Leads(w, mid, b, end, bLog)
    ensures Leads(w, start, a + b, end, aLog + bLog)
  {
    RunThen(w, start, a, b);
    forall i | 0 <= i < |a + b| ensures FreshIds(w, Run(w, start, (a + b)[..i]), (a + b)[i]) {
      FreshThen(w, start, a, b, i);
    }
  }

  /* ---------- the rows it makes ---------- */

  function Fresh(x: Resale, id: string): ListingRow {
    NewListing(id, x.stamp, 1, x.seller, x.sellerKey, x.priceZat, "")
  }

  function Held(p: Primitives, x: Resale, id: string, secret: Digest, height: int): ListingRow {
    ReservedRow(p, Fresh(x, id), x.buyer, x.buyerKey, secret, height)
  }

  function OfferOf(p: Primitives, x: Resale, id: string, secret: Digest, height: int,
                   signature: string): SettlementOffer
  {
    SignedOffer(Held(p, x, id, secret, height), signature, x.sellerKey)
  }

  function FirstOffer(w: Wallet, x: Resale, height: int): SettlementOffer {
    OfferOf(w.p, x, x.first, x.firstSecret, height, x.firstSignature)
  }

  /** By the second listing's turn the chain is one block higher. */
  function SecondHeld(w: Wallet, x: Resale, height: int): ListingRow {
    Held(w.p, x, x.second, x.secondSecret, height + 1)
  }

  function SecondOffer(w: Wallet, x: Resale, height: int): SettlementOffer {
    OfferOf(w.p, x, x.second, x.secondSecret, height + 1, x.secondSignature)
  }

  function AuthOf(w: Wallet, x: Resale, height: int): TransferAuthorization {
    UnsignedTransfer(w.p, SecondHeld(w, x, height), SecondOffer(w, x, height)).(
      ownerPublicKeyHex := x.sellerKey, signatureHex := x.authorization)
  }

  /** The wallets sign what they are asked to, and the two offers' hashes differ. */
  predicate Plausible(w: Wallet, x: Resale, height: int) {
    && x.first != x.second && x.priceZat > 0
    && w.canAuthorize(x.seller) && x.buyer != x.seller
    && w.addressForKey(x.sellerKey) == Some(x.seller) && w.addressForKey(x.buyerKey) == Some(x.buyer)
    && LowerHex(x.stamp.commitmentHex) && |x.stamp.commitmentHex| == 64
    && OfferSigned(w.p, FirstOffer(w, x, height)) && OfferSigned(w.p, SecondOffer(w, x, height))
    && TransferSigned(w.p, AuthOf(w, x, height))
    && OfferHash(w.p, FirstOffer(w, x, height)) != OfferHash(w.p, SecondOffer(w, x, height))
  }

  /** Three records and one notice. */
  const COSTS := 3 * PUBLICATION_FEE_ZAT + DESTINATION_NOTICE_ZAT

  lemma PublishesRecord(w: Wallet, c: Chain, record: OnChainRecord, notice: Option<string>)
    requires CanonicalFields(record) && c.fundedZat >= RecordCost(notice)
    ensures EncodeRecord(record).Some? && PublishRecord(w, c, record, notice).Some?
    ensures PublishRecord(w, c, record, notice).value.1
            == RecordPublication(w.p, w.network, c.height + 1, EncodeRecord(record).value, notice)
  {
    DecodeEncodedRecord(record);
  }

  lemma ListLeads(w: Wallet, x: Resale, world: World, id: string)
    requires id !in world.listings && !HasLiveListing(world.listings, x.stamp.id)
    requires x.priceZat > 0 && w.canAuthorize(x.seller) && w.addressForKey(x.sellerKey) == Some(x.seller)
    ensures Leads(w, world, [List(id, x.stamp, x.seller, 0, x.seller, x.sellerKey, x.priceZat, "")],
                  Upsert(world, Fresh(x, id)), [])
  {
    OneStep(w, world, List(id, x.stamp, x.seller, 0, x.seller, x.sellerKey, x.priceZat, ""));
  }

  lemma ReserveLeads(w: Wallet, x: Resale, world: World, id: string, secret: Digest)
    requires x.buyer != x.seller && w.addressForKey(x.buyerKey) == Some(x.buyer)
    ensures Leads(w, Upsert(world, Fresh(x, id)), [Reserve(id, x.buyer, x.buyerKey, secret)],
                  Upsert(world, Held(w.p, x, id, secret, world.chain.height)), [])
  {
    var l := Held(w.p, x, id, secret, world.chain.height);
    OneStep(w, Upsert(world, Fresh(x, id)), Reserve(id, x.buyer, x.buyerKey, secret));
    assert world.listings[id := Fresh(x, id)][id := l] == world.listings[id := l];
  }

  lemma ReservedLeads(w: Wallet, x: Resale, world: World, id: string, secret: Digest)
    requires id !in world.listings && !HasLiveListing(world.listings, x.stamp.id)
    requires x.priceZat > 0 && w.canAuthorize(x.seller) && w.addressForKey(x.sellerKey) == Some(x.seller)
    requires x.buyer != x.seller && w.addressForKey(x.buyerKey) == Some(x.buyer)
    ensures Leads(w, world, [List(id, x.stamp, x.seller, 0, x.seller, x.sellerKey, x.priceZat, ""),
                             Reserve(id, x.buyer, x.buyerKey, secret)],
                  Upsert(world, Held(w.p, x, id, secret, world.chain.height)), [])
  {
    var one, two := List(id, x.stamp, x.seller, 0, x.seller, x.sellerKey, x.priceZat, ""),
                    Reserve(id, x.buyer, x.buyerKey, secret);
    ListLeads(w, x, world, id);
    ReserveLeads(w, x, world, id, secret);
    Then(w, world, [one], Upsert(world, Fresh(x, id)), [], [two],
         Upsert(world, Held(w.p, x, id, secret, world.chain.height)), []);
    assert [one] + [two] == [one, two];
    var none: seq<ZcashPublication> := [];
    assert none + none == none;
  }

  /** The market once the offer of a reserved row is published. */
  function OfferedMarket(world: World, l: ListingRow, offer: SettlementOffer, z: ZcashPublication): World {
    var c := world.chain;
    World(world.listings[l.id := OfferedRow(l, offer, z)], world.transfers,
          Chain(c.height + 1, c.fundedZat - PUBLICATION_FEE_ZAT, c.txs[z.txid := z], c.escrows))
  }

  /** The transaction that publishes a record at a height. */
  function RecordTx(w: Wallet, height: int, record: OnChainRecord, notice: Option<string>): ZcashPublication
    requires EncodeRecord(record).Some?
  {
    RecordPublication(w.p, w.network, height, EncodeRecord(record).value, notice)
  }

  lemma OfferLeads(w: Wallet, x: Resale, world: World, id: string, secret: Digest, signature: string)
    requires world.chain.fundedZat >= PUBLICATION_FEE_ZAT && w.canAuthorize(x.seller)
    requires LowerHex(x.stamp.commitmentHex) && |x.stamp.commitmentHex| == 64
    requires OfferSigned(w.p, OfferOf(w.p, x, id, secret, world.chain.height, signature))
    ensures var l, offer := Held(w.p, x, id, secret, world.chain.height),
                            OfferOf(w.p, x, id, secret, world.chain.height, signature);
      && EncodeRecord(OfferRecordOf(w.p, l, offer)).Some?
      && var z := RecordTx(w, world.chain.height + 1, OfferRecordOf(w.p, l, offer), None);
      && Leads(w, Upsert(world, l), [PublishOffer(id, signature, x.sellerKey)], OfferedMarket(world, l, offer, z), [z])
  {
    var l, offer := Held(w.p, x, id, secret, world.chain.height),
                    OfferOf(w.p, x, id, secret, world.chain.height, signature);
    PublishesRecord(w, world.chain, OfferRecordOf(w.p, l, offer), None);
    var held, z := Upsert(world, l), RecordTx(w, world.chain.height + 1, OfferRecordOf(w.p, l, offer), None);
    assert OfferPreimage(UnsignedOffer(l)) == OfferPreimage(offer);
    OneStep(w, held, PublishOffer(id, signature, x.sellerKey));
    assert world.listings[id := l][id := OfferedRow(l, offer, z)] == world.listings[id := OfferedRow(l, offer, z)];
    assert Perform(w, held, PublishOffer(id, signature, x.sellerKey)) == OfferedMarket(world, l, offer, z);
  }

  /** Listing, reserving and offering, from any market without a live listing of the stamp. */
  lemma AttemptLeads(w: Wallet, x: Resale, world: World, id: string, secret: Digest, signature: string)
    requires id !in world.listings && !HasLiveListing(world.listings, x.stamp.id)
    requires x.priceZat > 0 && world.chain.fundedZat >= PUBLICATION_FEE_ZAT && w.canAuthorize(x.seller)
            && x.buyer != x.seller
    requires w.addressForKey(x.sellerKey) == Some(x.seller) && w.addressForKey(x.buyerKey) == Some(x.buyer)
    requires LowerHex(x.stamp.commitmentHex) && |x.stamp.commitmentHex| == 64
    requires OfferSigned(w.p, OfferOf(w.p, x, id, secret, world.chain.height, signature))
    ensures var l, offer := Held(w.p, x, id, secret, world.chain.height),
                            OfferOf(w.p, x, id, secret, world.chain.height, signature);
      && EncodeRecord(OfferRecordOf(w.p, l, offer)).Some?
      && var z := RecordTx(w, world.chain.height + 1, OfferRecordOf(w.p, l, offer), None);
      && Leads(w, world, Attempt(x, id, secret, signature), OfferedMarket(world, l, offer, z), [z])
  {
    var l, offer := Held(w.p, x, id, secret, world.chain.height),
                    OfferOf(w.p, x, id, secret, world.chain.height, signature);
    ReservedLeads(w, x, world, id, secret);
    OfferLeads(w, x, world, id, secret, signature);
    var z := RecordTx(w, world.chain.height + 1, OfferRecordOf(w.p, l, offer), None);
    var two := [List(id, x.stamp, x.seller, 0, x.seller, x.sellerKey, x.priceZat, ""),
                Reserve(id, x.buyer, x.buyerKey, secret)];
    var three := [PublishOffer(id, signature, x.sellerKey)];
    Then(w, world, two, Upsert(world, l), [], three, OfferedMarket(world, l, offer, z), [z]);
    assert two + three == Attempt(x, id, secret, signature) && [] + [z] == [z];
  }

  /* ---------- paying ---------- */

  function Authorization(p: Primitives, l: ListingRow, signature: string, key: string): TransferAuthorization
    requires l.offerArtifact.Some?
  {
    UnsignedTransfer(p, l, l.offerArtifact.value).(ownerPublicKeyHex := key, signatureHex := signature)
  }

  function AuthorizedRow(l: ListingRow, auth: TransferAuthorization): ListingRow {
    l.(state := Authorized, transferArtifact := Some(auth))
  }

  lemma AuthorizeLeads(w: Wallet, world: World, l: ListingRow, signature: string, key: string)
    requires l.id in world.listings && world.listings[l.id] == l && l.state == OfferPublished && l.offerArtifact.Some?
    requires w.canAuthorize(l.sellerAddress) && TransferSigned(w.p, Authorization(w.p, l, signature, key))
    ensures Leads(w, world, [Authorize(l.id, signature, key)],
                  Upsert(world, AuthorizedRow(l, Authorization(w.p, l, signature, key))), [])
  {
    var auth := Authorization(w.p, l, signature, key);
    assert TransferPreimage(UnsignedTransfer(w.p, l, l.offerArtifact.value)) == TransferPreimage(auth);
    OneStep(w, world, Authorize(l.id, signature, key));
    assert DoAuthorize(w, world, l, signature, key) == Some(Upsert(world, AuthorizedRow(l, auth)));
  }

  function LockedRow(l: ListingRow, h: Htlc): ListingRow {
    l.(state := PaymentLocked, escrowId := Some(h.id), expiryHeight := Some(h.expiryHeight))
  }

  lemma LockLeads(w: Wallet, world: World, l: ListingRow)
    requires l.id in world.listings && world.listings[l.id] == l && l.state == Authorized && l.transferArtifact.Some?
    requires Text.AllDigits(l.priceZat) && world.chain.escrows == map[]
    ensures var h := EscrowOf(w.p, world.chain, l);
      Leads(w, world, [LockPayment(l.id)], Upsert(world.(chain := Lock(world.chain, h)), LockedRow(l, h)), [])
  {
    OneStep(w, world, LockPayment(l.id));
  }

  lemma TransferLeads(w: Wallet, world: World, l: ListingRow) returns (end: World)
    requires l.id in world.listings && world.listings[l.id] == l && l.state == PaymentLocked && l.transferArtifact.Some?
    requires world.chain.fundedZat >= PUBLICATION_FEE_ZAT + DESTINATION_NOTICE_ZAT
    requires CanonicalFields(TransferRecordOf(w.p, l, l.transferArtifact.value))
    ensures EncodeRecord(TransferRecordOf(w.p, l, l.transferArtifact.value)).Some?
    ensures var auth := l.transferArtifact.value;
      var z := RecordTx(w, world.chain.height + 1, TransferRecordOf(w.p, l, auth), Some(auth.toAddress));
      && Leads(w, world, [PublishTransfer(l.id)], end, [z])
      && end.listings == world.listings[l.id := DeliveredRow(l, z)] && end.chain.escrows == world.chain.escrows
  {
    var auth := l.transferArtifact.value;
    PublishesRecord(w, world.chain, TransferRecordOf(w.p, l, auth), Some(auth.toAddress));
    OneStep(w, world, PublishTransfer(l.id));
    PublishTransferStep(w, world, l);
    end := Perform(w, world, PublishTransfer(l.id));
  }

  lemma ClaimLeads(w: Wallet, world: World, l: ListingRow) returns (end: World)
    requires l.id in world.listings && world.listings[l.id] == l && l.state == TransferPublished
    requires RowOk(w.p, l, world.chain.escrows) && world.chain.escrows[l.escrowId.value].state == EscrowState.Locked
    ensures Leads(w, world, [ClaimPayment(l.id)], end, [])
    ensures end.listings == world.listings && l.escrowId.value in end.chain.escrows
    ensures end.chain.escrows[l.escrowId.value].state == EscrowState.Claimed
  {
    SellerCanClaim(w, world, l);
    OneStep(w, world, ClaimPayment(l.id));
    end := Perform(w, world, ClaimPayment(l.id));
    assert world.listings[l.id := l] == world.listings;
  }

  /** The market once the buyer of an offered row has paid against its authorization. */
  function PaidMarket(w: Wallet, world: World, l: ListingRow, auth: TransferAuthorization): World
    requires Text.AllDigits(l.priceZat)
  {
    var h := EscrowOf(w.p, world.chain, l);
    Upsert(world.(chain := Lock(world.chain, h)), LockedRow(AuthorizedRow(l, auth), h))
  }

  /** Authorizing and paying for an offered row. */
  lemma PaidLeads(w: Wallet, world: World, l: ListingRow, signature: string, key: string)
    requires l.id in world.listings && world.listings[l.id] == l && l.state == OfferPublished && l.offerArtifact.Some?
    requires w.canAuthorize(l.sellerAddress) && TransferSigned(w.p, Authorization(w.p, l, signature, key))
    requires Text.AllDigits(l.priceZat) && world.chain.escrows == map[]
    ensures Leads(w, world, [Authorize(l.id, signature, key), LockPayment(l.id)],
                  PaidMarket(w, world, l, Authorization(w.p, l, signature, key)), [])
  {
    var auth, h := Authorization(w.p, l, signature, key), EscrowOf(w.p, world.chain, l);
    var authorized := AuthorizedRow(l, auth);
    AuthorizeLeads(w, world, l, signature, key);
    LockLeads(w, Upsert(world, authorized), authorized);
    assert world.listings[l.id := authorized][l.id := LockedRow(authorized, h)]
      == world.listings[l.id := LockedRow(authorized, h)];
    var paid := PaidMarket(w, world, l, auth);
    Then(w, world, [Authorize(l.id, signature, key)], Upsert(world, authorized), [], [LockPayment(l.id)], paid, []);
    assert [Authorize(l.id, signature, key)] + [LockPayment(l.id)]
      == [Authorize(l.id, signature, key), LockPayment(l.id)];
    var none: seq<ZcashPublication> := [];
    assert none + none == none;
  }

  lemma PaidFacts(w: Wallet, world: World, l: ListingRow, auth: TransferAuthorization)
    requires Text.AllDigits(l.priceZat)
    ensures var paid, h := PaidMarket(w, world, l, auth), EscrowOf(w.p, world.chain, l);
      && paid.listings == world.listings[l.id := LockedRow(AuthorizedRow(l, auth), h)]
      && paid.chain.height == world.chain.height + 1 && paid.chain.fundedZat == world.chain.fundedZat
      && h.id in paid.chain.escrows && paid.chain.escrows[h.id].state == EscrowState.Locked
  {
  }

  /** The row of a delivered stamp. */
  function SoldRow(w: Wallet, world: World, l: ListingRow, auth: TransferAuthorization, z: ZcashPublication): ListingRow
    requires Text.AllDigits(l.priceZat)
  {
    DeliveredRow(LockedRow(AuthorizedRow(l, auth), EscrowOf(w.p, world.chain, l)), z)
  }

  lemma DeliverPaid(w: Wallet, world: World, l: ListingRow, auth: TransferAuthorization) returns (end: World)
    requires Text.AllDigits(l.priceZat) && CanonicalFields(TransferRecordOf(w.p, l, auth))
    requires world.chain.fundedZat >= PUBLICATION_FEE_ZAT + DESTINATION_NOTICE_ZAT
    ensures EncodeRecord(TransferRecordOf(w.p, l, auth)).Some?
    ensures var z := RecordTx(w, world.chain.height + 2, TransferRecordOf(w.p, l, auth), Some(auth.toAddress));
      && Leads(w, PaidMarket(w, world, l, auth), [PublishTransfer(l.id)], end, [z])
      && end.listings == world.listings[l.id := SoldRow(w, world, l, auth, z)]
      && end.chain.escrows == PaidMarket(w, world, l, auth).chain.escrows
  {
    var locked, paid := LockedRow(AuthorizedRow(l, auth), EscrowOf(w.p, world.chain, l)), PaidMarket(w, world, l, auth);
    PaidFacts(w, world, l, auth);
    assert TransferRecordOf(w.p, locked, auth) == TransferRecordOf(w.p, l, auth);
    end := TransferLeads(w, paid, locked);
  }

  /** Authorizing, paying and delivering an offered row. */
  lemma DeliveryLeads(w: Wallet, world: World, l: ListingRow, signature: string, key: string) returns (end: World)
    requires l.id in world.listings && world.listings[l.id] == l && l.state == OfferPublished && l.offerArtifact.Some?
    requires w.canAuthorize(l.sellerAddress) && TransferSigned(w.p, Authorization(w.p, l, signature, key))
    requires Text.AllDigits(l.priceZat) && world.chain.escrows == map[]
    requires world.chain.fundedZat >= PUBLICATION_FEE_ZAT + DESTINATION_NOTICE_ZAT
    requires CanonicalFields(TransferRecordOf(w.p, l, Authorization(w.p, l, signature, key)))
    ensures var auth, h := Authorization(w.p, l, signature, key), EscrowOf(w.p, world.chain, l);
      && EncodeRecord(TransferRecordOf(w.p, l, auth)).Some?
      && var z := RecordTx(w, world.chain.height + 2, TransferRecordOf(w.p, l, auth), Some(auth.toAddress));
      && Leads(w, world, [Authorize(l.id, signature, key), LockPayment(l.id), PublishTransfer(l.id)], end, [z])
      && end.listings == world.listings[l.id := SoldRow(w, world, l, auth, z)]
      && h.id in end.chain.escrows && end.chain.escrows[h.id].state == EscrowState.Locked
  {
    var auth := Authorization(w.p, l, signature, key);
    PaidLeads(w, world, l, signature, key);
    PaidFacts(w, world, l, auth);
    end := DeliverPaid(w, world, l, auth);
    var z := RecordTx(w, world.chain.height + 2, TransferRecordOf(w.p, l, auth), Some(auth.toAddress));
    Then(w, world, [Authorize(l.id, signature, key), LockPayment(l.id)], PaidMarket(w, world, l, auth), [],
         [PublishTransfer(l.id)], end, [z]);
    assert [Authorize(l.id, signature, key), LockPayment(l.id)] + [PublishTransfer(l.id)]
        == [Authorize(l.id, signature, key), LockPayment(l.id), PublishTransfer(l.id)] && [] + [z] == [z];
  }

  /** An offered row the seller will authorize, in a market without escrows that can pay for one more record. */
  predicate Payable(w: Wallet, world: World, l: ListingRow, signature: string, key: string, auth: TransferAuthorization,
                    z: ZcashPublication)
  {
    && l.id in world.listings && world.listings[l.id] == l && l.state == OfferPublished && l.offerArtifact.Some?
    && auth == Authorization(w.p, l, signature, key)
    && w.canAuthorize(l.sellerAddress) && TransferSigned(w.p, auth)
    && Text.AllDigits(l.priceZat) && world.chain.escrows == map[]
    && world.chain.fundedZat >= PUBLICATION_FEE_ZAT + DESTINATION_NOTICE_ZAT
    && CanonicalFields(TransferRecordOf(w.p, l, auth)) && EncodeRecord(TransferRecordOf(w.p, l, auth)).Some?
    && z == RecordTx(w, world.chain.height + 2, TransferRecordOf(w.p, l, auth), Some(auth.toAddress))
  }

  /** From an offered row to a claimed payment. */
  lemma SaleLeads(w: Wallet, world: World, l: ListingRow, signature: string, key: string, auth: TransferAuthorization,
                  z: ZcashPublication)
    returns (end: World)
    requires Inv(w.p, world) && Payable(w, world, l, signature, key, auth, z)
    ensures Leads(w, world, PaymentActions(l.id, signature, key), end, [z])
    ensures end.listings == world.listings[l.id := SoldRow(w, world, l, auth, z)]
    ensures var h := EscrowOf(w.p, world.chain, l);
      h.id in end.chain.escrows && end.chain.escrows[h.id].state == EscrowState.Claimed
  {
    var delivered := DeliveryLeads(w, world, l, signature, key);
    var three := [Authorize(l.id, signature, key), LockPayment(l.id), PublishTransfer(l.id)];
    RunKeeps(w, world, three);
    assert RowOk(w.p, delivered.listings[l.id], delivered.chain.escrows);
    end := ClaimLeads(w, delivered, delivered.listings[l.id]);
    Then(w, world, three, delivered, [z], [ClaimPayment(l.id)], end, []);
    assert [z] + [] == [z];
  }

  /** Offered, and then cancelled. */
  lemma CancelLeads(w: Wallet, world: World, l: ListingRow)
    requires l.id in world.listings && world.listings[l.id] == l && l.state == OfferPublished
    ensures Leads(w, world, [Cancel(l.id)], Upsert(world, l.(state := Cancelled)), [])
  {
    OneStep(w, world, Cancel(l.id));
  }

  /* ---------- the run ---------- */

  function OfferRecordFor(w: Wallet, x: Resale, offer: SettlementOffer): OnChainRecord {
    OnChainRecord(OfferRecord, x.stamp.commitmentHex, 1, OfferHash(w.p, offer))
  }

  function TransferRecordFor(w: Wallet, x: Resale, auth: TransferAuthorization): OnChainRecord {
    OnChainRecord(TransferRecord, x.stamp.commitmentHex, 1, TransferHash(w.p, auth))
  }

  lemma CanonicalEncodes(r: OnChainRecord)
    requires LowerHex(r.stampCommitmentHex) && |r.stampCommitmentHex| == 64 && r.sequence == 1
    requires |r.artifactHashHex| == 64 && LowerHex(r.artifactHashHex)
    ensures CanonicalFields(r) && EncodeRecord(r).Some?
  {
    DecodeEncodedRecord(r);
  }

  lemma RecordsCanonical(w: Wallet, x: Resale, height: int)
    requires Plausible(w, x, height)
    ensures var a, b := OfferRecordFor(w, x, FirstOffer(w, x, height)), OfferRecordFor(w, x, SecondOffer(w, x, height));
      var t := TransferRecordFor(w, x, AuthOf(w, x, height));
      && CanonicalFields(a) && CanonicalFields(b) && CanonicalFields(t)
      && EncodeRecord(a).Some? && EncodeRecord(b).Some? && EncodeRecord(t).Some?
  {
    CanonicalEncodes(OfferRecordFor(w, x, FirstOffer(w, x, height)));
    CanonicalEncodes(OfferRecordFor(w, x, SecondOffer(w, x, height)));
    CanonicalEncodes(TransferRecordFor(w, x, AuthOf(w, x, height)));
  }

  function FirstTx(w: Wallet, x: Resale, height: int): ZcashPublication
    requires Plausible(w, x, height)
  {
    RecordsCanonical(w, x, height);
    RecordTx(w, height + 1, OfferRecordFor(w, x, FirstOffer(w, x, height)), None)
  }

  function SecondTx(w: Wallet, x: Resale, height: int): ZcashPublication
    requires Plausible(w, x, height)
  {
    RecordsCanonical(w, x, height);
    RecordTx(w, height + 2, OfferRecordFor(w, x, SecondOffer(w, x, height)), None)
  }

  function DeliveryTx(w: Wallet, x: Resale, height: int): ZcashPublication
    requires Plausible(w, x, height)
  {
    RecordsCanonical(w, x, height);
    RecordTx(w, height + 4, TransferRecordFor(w, x, AuthOf(w, x, height)), Some(x.buyer))
  }

  function FirstRow(w: Wallet, x: Resale, height: int): ListingRow
    requires Plausible(w, x, height)
  {
    OfferedRow(Held(w.p, x, x.first, x.firstSecret, height), FirstOffer(w, x, height), FirstTx(w, x, height))
  }

  /** The market after the first listing's offer. */
  function FirstMarket(w: Wallet, x: Resale, height: int, fundedZat: int): World
    requires Plausible(w, x, height)
  {
    OfferedMarket(EmptyMarket(height, fundedZat), Held(w.p, x, x.first, x.firstSecret, height),
                  FirstOffer(w, x, height), FirstTx(w, x, height))
  }

  /** And after it is cancelled. */
  function CancelledMarket(w: Wallet, x: Resale, height: int, fundedZat: int): World
    requires Plausible(w, x, height)
  {
    Upsert(FirstMarket(w, x, height, fundedZat), FirstRow(w, x, height).(state := Cancelled))
  }

  lemma FirstOffered(w: Wallet, x: Resale, height: int, fundedZat: int)
    requires Plausible(w, x, height) && fundedZat >= COSTS
    ensures Leads(w, EmptyMarket(height, fundedZat), Attempt(x, x.first, x.firstSecret, x.firstSignature),
                  FirstMarket(w, x, height, fundedZat), [FirstTx(w, x, height)])
  {
    var l, offer := Held(w.p, x, x.first, x.firstSecret, height), FirstOffer(w, x, height);
    AttemptLeads(w, x, EmptyMarket(height, fundedZat), x.first, x.firstSecret, x.firstSignature);
    assert OfferRecordOf(w.p, l, offer) == OfferRecordFor(w, x, offer);
  }

  lemma FirstLeads(w: Wallet, x: Resale, height: int, fundedZat: int)
    requires Plausible(w, x, height) && fundedZat >= COSTS
    ensures Leads(w, EmptyMarket(height, fundedZat), FirstActions(x), CancelledMarket(w, x, height, fundedZat),
                  [FirstTx(w, x, height)])
  {
    FirstOffered(w, x, height, fundedZat);
    var z := FirstTx(w, x, height);
    CancelLeads(w, FirstMarket(w, x, height, fundedZat), FirstRow(w, x, height));
    Then(w, EmptyMarket(height, fundedZat), Attempt(x, x.first, x.firstSecret, x.firstSignature),
         FirstMarket(w, x, height, fundedZat), [z], [Cancel(x.first)], CancelledMarket(w, x, height, fundedZat), []);
    assert [z] + [] == [z];
  }

  /** The market after the second listing's offer. */
  function ReofferedMarket(w: Wallet, x: Resale, height: int, fundedZat: int): World
    requires Plausible(w, x, height)
  {
    OfferedMarket(CancelledMarket(w, x, height, fundedZat), SecondHeld(w, x, height), SecondOffer(w, x, height),
                  SecondTx(w, x, height))
  }

  lemma SecondLeads(w: Wallet, x: Resale, height: int, fundedZat: int)
    requires Plausible(w, x, height) && fundedZat >= COSTS
    ensures Leads(w, CancelledMarket(w, x, height, fundedZat), Attempt(x, x.second, x.secondSecret, x.secondSignature),
                  ReofferedMarket(w, x, height, fundedZat), [SecondTx(w, x, height)])
  {
    var world, l, offer := CancelledMarket(w, x, height, fundedZat), SecondHeld(w, x, height),
                           SecondOffer(w, x, height);
    AttemptLeads(w, x, world, x.second, x.secondSecret, x.secondSignature);
    assert OfferRecordOf(w.p, l, offer) == OfferRecordFor(w, x, offer);
  }

  function ReofferedRow(w: Wallet, x: Resale, height: int): ListingRow
    requires Plausible(w, x, height)
  {
    OfferedRow(SecondHeld(w, x, height), SecondOffer(w, x, height), SecondTx(w, x, height))
  }

  function SecondRow(w: Wallet, x: Resale, height: int, fundedZat: int): ListingRow
    requires Plausible(w, x, height)
  {
    SoldRow(w, ReofferedMarket(w, x, height, fundedZat), ReofferedRow(w, x, height), AuthOf(w, x, height),
            DeliveryTx(w, x, height))
  }

  lemma ReofferedFacts(w: Wallet, x: Resale, height: int, fundedZat: int)
    requires Plausible(w, x, height)
    ensures var world, row := ReofferedMarket(w, x, height, fundedZat), ReofferedRow(w, x, height);
      && world.listings == map[x.first := FirstRow(w, x, height).(state := Cancelled), x.second := row]
      && world.chain.escrows == map[] && world.chain.height == height + 2
      && world.chain.fundedZat == fundedZat - 2 * PUBLICATION_FEE_ZAT
      && row.id == x.second && row.sellerAddress == x.seller && row.state == OfferPublished && row.offerArtifact.Some?
      && Text.AllDigits(row.priceZat)
  {
  }

  lemma ReofferedAuthorization(w: Wallet, x: Resale, height: int)
    requires Plausible(w, x, height)
    ensures var row, auth := ReofferedRow(w, x, height), AuthOf(w, x, height);
      && row.offerArtifact.Some? && Authorization(w.p, row, x.authorization, x.sellerKey) == auth
      && TransferRecordOf(w.p, row, auth) == TransferRecordFor(w, x, auth) && auth.toAddress == x.buyer
      && CanonicalFields(TransferRecordFor(w, x, auth)) && EncodeRecord(TransferRecordFor(w, x, auth)).Some?
      && DeliveryTx(w, x, height) == RecordTx(w, height + 4, TransferRecordFor(w, x, auth), Some(x.buyer))
  {
    RecordsCanonical(w, x, height);
  }

  lemma SecondRowFacts(w: Wallet, x: Resale, height: int, fundedZat: int)
    requires Plausible(w, x, height)
    ensures Text.AllDigits(ReofferedRow(w, x, height).priceZat)
    ensures var l := SecondRow(w, x, height, fundedZat);
      && l.state == TransferPublished
      && l.escrowId == Some(EscrowOf(w.p, ReofferedMarket(w, x, height, fundedZat).chain,
                                     ReofferedRow(w, x, height)).id)
      && l.offerArtifact == Some(SecondOffer(w, x, height)) && l.transferArtifact == Some(AuthOf(w, x, height))
  {
  }

  lemma BothOffered(w: Wallet, x: Resale, height: int, fundedZat: int)
    requires Plausible(w, x, height) && fundedZat >= COSTS
    ensures Leads(w, EmptyMarket(height, fundedZat),
                  FirstActions(x) + Attempt(x, x.second, x.secondSecret, x.secondSignature),
                  ReofferedMarket(w, x, height, fundedZat), [FirstTx(w, x, height)] + [SecondTx(w, x, height)])
  {
    FirstLeads(w, x, height, fundedZat);
    SecondLeads(w, x, height, fundedZat);
    Then(w, EmptyMarket(height, fundedZat), FirstActions(x), CancelledMarket(w, x, height, fundedZat),
         [FirstTx(w, x, height)],
         Attempt(x, x.second, x.secondSecret, x.secondSignature), ReofferedMarket(w, x, height, fundedZat),
         [SecondTx(w, x, height)]);
  }

  /** Both rows as they end up, and the escrow claimed. */
  predicate SoldAndClaimed(w: Wallet, x: Resale, height: int, fundedZat: int, end: World)
    requires Plausible(w, x, height)
  {
    && end.listings == map[x.first := FirstRow(w, x, height).(state := Cancelled),
                           x.second := SecondRow(w, x, height, fundedZat)]
    && var e := SecondRow(w, x, height, fundedZat).escrowId.value;
    && e in end.chain.escrows && end.chain.escrows[e].state == EscrowState.Claimed
  }

  lemma ReofferedPayable(w: Wallet, x: Resale, height: int, fundedZat: int)
    requires Plausible(w, x, height) && fundedZat >= COSTS
    ensures Payable(w, ReofferedMarket(w, x, height, fundedZat), ReofferedRow(w, x, height), x.authorization,
                    x.sellerKey, AuthOf(w, x, height), DeliveryTx(w, x, height))
  {
    ReofferedFacts(w, x, height, fundedZat);
    ReofferedAuthorization(w, x, height);
  }

  lemma PaymentLeads(w: Wallet, x: Resale, height: int, fundedZat: int) returns (end: World)
    requires Plausible(w, x, height) && fundedZat >= COSTS
    requires Inv(w.p, ReofferedMarket(w, x, height, fundedZat))
    ensures Leads(w, ReofferedMarket(w, x, height, fundedZat), PaymentActions(x.second, x.authorization, x.sellerKey),
                  end, [DeliveryTx(w, x, height)])
    ensures SoldAndClaimed(w, x, height, fundedZat, end)
  {
    ReofferedPayable(w, x, height, fundedZat);
    end := SaleLeads(w, ReofferedMarket(w, x, height, fundedZat), ReofferedRow(w, x, height), x.authorization,
                     x.sellerKey, AuthOf(w, x, height), DeliveryTx(w, x, height));
    SoldMarket(w, x, height, fundedZat, end);
  }

  lemma SoldMarket(w: Wallet, x: Resale, height: int, fundedZat: int, end: World)
    requires Plausible(w, x, height) && Text.AllDigits(ReofferedRow(w, x, height).priceZat)
    requires var offered, row := ReofferedMarket(w, x, height, fundedZat), ReofferedRow(w, x, height);
      && end.listings == offered.listings[row.id := SecondRow(w, x, height, fundedZat)]
      && var h := EscrowOf(w.p, offered.chain, row);
      && h.id in end.chain.escrows && end.chain.escrows[h.id].state == EscrowState.Claimed
    ensures SoldAndClaimed(w, x, height, fundedZat, end)
  {
    ReofferedFacts(w, x, height, fundedZat);
    SecondRowFacts(w, x, height, fundedZat);
  }

  /** The whole run: both offers and the delivery are published, and the seller has claimed the escrow. */
  lemma ResaleLeads(w: Wallet, x: Resale, height: int, fundedZat: int) returns (end: World)
    requires Plausible(w, x, height) && fundedZat >= COSTS
    ensures Leads(w, EmptyMarket(height, fundedZat), Actions(x), end,
                  [FirstTx(w, x, height)] + [SecondTx(w, x, height)] + [DeliveryTx(w, x, height)])
    ensures SoldAndClaimed(w, x, height, fundedZat, end)
  {
    var before := FirstActions(x) + Attempt(x, x.second, x.secondSecret, x.secondSignature);
    BothOffered(w, x, height, fundedZat);
    MarketSafe(w, height, fundedZat, before);
    end := PaymentLeads(w, x, height, fundedZat);
    Then(w, EmptyMarket(height, fundedZat), before, ReofferedMarket(w, x, height, fundedZat),
         [FirstTx(w, x, height)] + [SecondTx(w, x, height)], PaymentActions(x.second, x.authorization, x.sellerKey),
         end, [DeliveryTx(w, x, height)]);
  }

  /* ---------- what the ledger says of it ---------- */

  /** The log as the indexer sees it once it is deep enough. */
  function Buried(log: seq<ZcashPublication>, confirmations: int): seq<ZcashPublication> {
    seq(|log|, i requires 0 <= i < |log| => log[i].(confirmations := confirmations))
  }

  function EntryOf(w: Wallet, z: ZcashPublication, height: int, index: int, confirmations: int,
                   r: OnChainRecord): CanonicalRecord
  {
    CanonicalRecord(z.txid, height, index, confirmations, true, w.network, r)
  }

  lemma Ascending(a: CanonicalRecord, b: CanonicalRecord, c: CanonicalRecord)
    requires a.height < b.height < c.height
    ensures Sort(RecordLess, [a] + [b] + [c]) == [a] + [b] + [c]
  {
    OwnershipOrder.SortSingle(a);
    OwnershipOrder.SortSingle(b);
    OwnershipOrder.SortSingle(c);
    SortAppend(RecordLess, [a], [b]);
    SortAppend(RecordLess, [a] + [b], [c]);
  }

  /** The first offer binds, the second conflicts with it, and the transfer names the one that is not bound. */
  lemma EarlierOfferKeeps(c: Context, stamp: IssuedStamp, eA: CanonicalRecord, eB: CanonicalRecord, eT: CanonicalRecord)
    requires OwnershipSafety.Confirmed(c, eA) && OwnershipSafety.Confirmed(c, eB) && OwnershipSafety.Confirmed(c, eT)
    requires eA.record.kind.OfferRecord? && eB.record.kind.OfferRecord? && eT.record.kind.TransferRecord?
    requires eA.record.artifactHashHex in c.offers && eB.record.artifactHashHex in c.offers
    requires eT.record.artifactHashHex in c.transfers
    requires var k, a, b, t := stamp.commitmentHex, c.offers[eA.record.artifactHashHex],
                               c.offers[eB.record.artifactHashHex], c.transfers[eT.record.artifactHashHex];
      && eA.record.stampCommitmentHex == eB.record.stampCommitmentHex == eT.record.stampCommitmentHex == k
      && eA.record.sequence == eB.record.sequence == eT.record.sequence == 1
      && a.stampCommitmentHex == b.stampCommitmentHex == t.stampCommitmentHex == k
      && a.sequence == b.sequence == t.sequence == 1
      && a.sellerAddress == b.sellerAddress == t.fromAddress == stamp.originalRecipient
      && OfferSigned(c.p, a) && OfferSigned(c.p, b) && TransferSigned(c.p, t)
      && t.offerHashHex != eA.record.artifactHashHex
    ensures Replay(c, Start([stamp]), [eA] + [eB] + [eT])
            == State(map[stamp.commitmentHex := Bound(FreshStamp(stamp), eA, c.offers[eA.record.artifactHashHex])], [],
                     [RejectedRow(eB.txid, stamp.commitmentHex, ConflictingOffer),
                      RejectedRow(eT.txid, stamp.commitmentHex, OfferMismatch)], [])
  {
    var k, a := stamp.commitmentHex, c.offers[eA.record.artifactHashHex];
    var s0 := Start([stamp]);
    assert InitialStamps([stamp]) == map[k := FreshStamp(stamp)] by { assert [stamp][..0] == []; }
    var s1 := State(map[k := Bound(FreshStamp(stamp), eA, a)], [], [], []);
    assert Step(c, s0, eA) == s1;
    var s2 := s1.(rejected := [RejectedRow(eB.txid, k, ConflictingOffer)]);
    assert Step(c, s1, eB) == s2;
    OwnershipReplay.ReplaySingle(c, s0, eA);
    OwnershipReplay.ReplaySingle(c, s1, eB);
    OwnershipReplay.ReplaySingle(c, s2, eT);
    OwnershipReplay.ReplayConcat(c, s0, [eA], [eB]);
    OwnershipReplay.ReplayConcat(c, s0, [eA] + [eB], [eT]);
  }

  function FirstEntry(w: Wallet, x: Resale, height: int, confirmations: int): CanonicalRecord
    requires Plausible(w, x, height)
  {
    EntryOf(w, FirstTx(w, x, height), height + 1, 0, confirmations, OfferRecordFor(w, x, FirstOffer(w, x, height)))
  }

  function SecondEntry(w: Wallet, x: Resale, height: int, confirmations: int): CanonicalRecord
    requires Plausible(w, x, height)
  {
    EntryOf(w, SecondTx(w, x, height), height + 2, 0, confirmations, OfferRecordFor(w, x, SecondOffer(w, x, height)))
  }

  function DeliveryEntry(w: Wallet, x: Resale, height: int, confirmations: int): CanonicalRecord
    requires Plausible(w, x, height)
  {
    EntryOf(w, DeliveryTx(w, x, height), height + 4, |NoticeOutputs(Some(x.buyer))|, confirmations,
            TransferRecordFor(w, x, AuthOf(w, x, height)))
  }

  lemma RecordsAppend(zs: seq<ZcashPublication>, z: ZcashPublication)
    ensures RecordsOf(zs + [z]) == RecordsOf(zs) + RecordsOfOutputs(z, z.outputs)
  {
    assert (zs + [z])[..|zs|] == zs;
  }

  lemma BuriedAppend(log: seq<ZcashPublication>, z: ZcashPublication, confirmations: int)
    ensures Buried(log + [z], confirmations) == Buried(log, confirmations) + [z.(confirmations := confirmations)]
  {
  }

  /** A publication adds its record to those of the log. */
  lemma BuriedRecord(w: Wallet, log: seq<ZcashPublication>, height: int, r: OnChainRecord, notice: Option<string>,
                     confirmations: int)
    requires CanonicalFields(r)
    ensures EncodeRecord(r).Some?
    ensures var z := RecordTx(w, height, r, notice);
      RecordsOf(Buried(log + [z], confirmations))
      == RecordsOf(Buried(log, confirmations)) + [EntryOf(w, z, height, |NoticeOutputs(notice)|, confirmations, r)]
  {
    PublicationReads(w.p, w.network, height, r, notice, confirmations);
    var z := RecordTx(w, height, r, notice);
    BuriedAppend(log, z, confirmations);
    RecordsAppend(Buried(log, confirmations), z.(confirmations := confirmations));
  }

  lemma BuriedRecords(w: Wallet, x: Resale, height: int, confirmations: int)
    requires Plausible(w, x, height)
    ensures RecordsOf(Buried([FirstTx(w, x, height)] + [SecondTx(w, x, height)] + [DeliveryTx(w, x, height)],
                             confirmations))
            == [FirstEntry(w, x, height, confirmations)] + [SecondEntry(w, x, height, confirmations)]
               + [DeliveryEntry(w, x, height, confirmations)]
  {
    var a, b := [FirstTx(w, x, height)], [SecondTx(w, x, height)];
    RecordsCanonical(w, x, height);
    BuriedRecord(w, [], height + 1, OfferRecordFor(w, x, FirstOffer(w, x, height)), None, confirmations);
    BuriedRecord(w, a, height + 2, OfferRecordFor(w, x, SecondOffer(w, x, height)), None, confirmations);
    BuriedRecord(w, a + b, height + 4, TransferRecordFor(w, x, AuthOf(w, x, height)), Some(x.buyer), confirmations);
    assert [] + a == a && RecordsOf(Buried([], confirmations)) == [];
    assert [] + [FirstEntry(w, x, height, confirmations)] == [FirstEntry(w, x, height, confirmations)];
  }

  /** What the indexer is given once the run's publications are deep enough: the offers of both listings and the
      published authorization, for a stamp issued to the seller. */
  function IndexerInput(w: Wallet, x: Resale, height: int, confirmations: int,
                        log: seq<ZcashPublication>): OwnershipInput
  {
    OwnershipInput(w.network, confirmations, [IssuedStamp(x.stamp.commitmentHex, x.seller)],
                   Sort(RecordLess, RecordsOf(Buried(log, confirmations))),
                   [AuthOf(w, x, height)], [FirstOffer(w, x, height), SecondOffer(w, x, height)])
  }

  lemma ArtifactsIndexed(w: Wallet, x: Resale, height: int)
    requires Plausible(w, x, height)
    ensures var a, b, t := FirstOffer(w, x, height), SecondOffer(w, x, height), AuthOf(w, x, height);
      && IndexBy(TransferKey(w.p), [t]) == map[TransferHash(w.p, t) := t]
      && IndexBy(OfferKey(w.p), [a, b]) == map[OfferHash(w.p, a) := a, OfferHash(w.p, b) := b]
  {
    var a, b, t := FirstOffer(w, x, height), SecondOffer(w, x, height), AuthOf(w, x, height);
    assert [t][..0] == [] && [a, b][..1] == [a] && [a][..0] == [];
    assert TransferKey(w.p)(t) == TransferHash(w.p, t);
    assert OfferKey(w.p)(a) == OfferHash(w.p, a) && OfferKey(w.p)(b) == OfferHash(w.p, b);
    assert IndexBy(OfferKey(w.p), [a]) == map[OfferHash(w.p, a) := a];
  }

  /** The ledger keeps the stamp with the seller and books no sale. */
  lemma StampStays(w: Wallet, x: Resale, height: int, confirmations: int)
    requires Plausible(w, x, height)
    ensures var ledger := Resolution(w.p, IndexerInput(w, x, height, confirmations,
              [FirstTx(w, x, height)] + [SecondTx(w, x, height)] + [DeliveryTx(w, x, height)]));
      var k := x.stamp.commitmentHex;
      && ledger.sales == [] && k in ledger.stamps && ledger.stamps[k].currentOwner == x.seller
         && ledger.stamps[k].sequence == 0
      && ledger.rejected == [RejectedRow(SecondTx(w, x, height).txid, k, ConflictingOffer),
                             RejectedRow(DeliveryTx(w, x, height).txid, k, OfferMismatch)]
  {
    var eA, eB, eT := FirstEntry(w, x, height, confirmations), SecondEntry(w, x, height, confirmations),
                      DeliveryEntry(w, x, height, confirmations);
    BuriedRecords(w, x, height, confirmations);
    Ascending(eA, eB, eT);
    ArtifactsIndexed(w, x, height);
    var input := IndexerInput(w, x, height, confirmations,
                              [FirstTx(w, x, height)] + [SecondTx(w, x, height)] + [DeliveryTx(w, x, height)]);
    assert Sort(RecordLess, input.records) == [eA] + [eB] + [eT];
    EarlierOfferKeeps(ContextOf(w.p, input), IssuedStamp(x.stamp.commitmentHex, x.seller), eA, eB, eT);
  }

  lemma PaidInFull(w: Wallet, x: Resale, height: int, fundedZat: int) returns (end: World)
    requires Plausible(w, x, height) && fundedZat >= COSTS
    ensures Leads(w, EmptyMarket(height, fundedZat), Actions(x), end,
                  [FirstTx(w, x, height)] + [SecondTx(w, x, height)] + [DeliveryTx(w, x, height)])
    ensures x.first in end.listings && end.listings[x.first].offerArtifact == Some(FirstOffer(w, x, height))
    ensures x.second in end.listings && end.listings[x.second] == SecondRow(w, x, height, fundedZat)
    ensures var l := SecondRow(w, x, height, fundedZat);
      && l.escrowId.Some? && l.escrowId.value in end.chain.escrows
      && var escrow := end.chain.escrows[l.escrowId.value];
      && escrow.state == EscrowState.Claimed && escrow.amountZat == x.priceZat
      && escrow.buyerAddress == x.buyer && escrow.sellerAddress == x.seller
  {
    end := ResaleLeads(w, x, height, fundedZat);
    MarketSafe(w, height, fundedZat, Actions(x));
    SecondRowFacts(w, x, height, fundedZat);
    assert RowOk(w.p, end.listings[x.second], end.chain.escrows);
    Text.DecimalRoundTrip(x.priceZat);
  }

  /** The protocol promises the buyer a valid authorization before any money is at risk. Here every step is one
      the market takes: the seller lists, offers and cancels, and lists and offers again; the buyer pays against an
      authorization the market has verified; the seller claims exactly the price. The ledger refuses both of the
      second listing's records, because the first listing's offer still binds the sequence, and the stamp stays with
      the seller. */
  lemma BuyerPaysSellerKeeps(w: Wallet, x: Resale, height: int, fundedZat: int, confirmations: int)
    requires Plausible(w, x, height) && fundedZat >= COSTS
    ensures var start := EmptyMarket(height, fundedZat); var end := Run(w, start, Actions(x));
      && FreshRun(w, start, Actions(x)) && ChainGrows(w, start, Actions(x))
      && x.second in end.listings && x.first in end.listings
      && end.listings[x.first].offerArtifact == Some(FirstOffer(w, x, height))
      && var l := end.listings[x.second];
      && l.state == TransferPublished
      && l.offerArtifact == Some(SecondOffer(w, x, height)) && l.transferArtifact == Some(AuthOf(w, x, height))
      && l.escrowId.Some? && l.escrowId.value in end.chain.escrows
      && var escrow := end.chain.escrows[l.escrowId.value];
      && escrow.state == EscrowState.Claimed && escrow.amountZat == x.priceZat
      && escrow.buyerAddress == x.buyer && escrow.sellerAddress == x.seller
      && var ledger := Resolution(w.p, IndexerInput(w, x, height, confirmations, Log(w, start, Actions(x))));
      && ledger.sales == [] && x.stamp.commitmentHex in ledger.stamps
      && ledger.stamps[x.stamp.commitmentHex].currentOwner == x.seller
      && |ledger.rejected| == 2 && ledger.rejected[0].reason == ConflictingOffer
         && ledger.rejected[1].reason == OfferMismatch
  {
    var end := PaidInFull(w, x, height, fundedZat);
    SecondRowFacts(w, x, height, fundedZat);
    StampStays(w, x, height, confirmations);
  }

  /* ---------- an instance ---------- */

  /** A wallet that accepts every key and signature, over a hash of two values that reads the last character of a
      text. */
  function SampleWallet(): Wallet {
    Wallet(Primitives((b: Bytes) => if b == [0x31] then Zeros(32) else [1] + Zeros(31),
                      (text: string) => if text == "" then [] else [text[|text| - 1] as int % 256],
                      (_, _, _, _) => true),
           ZcashDemo, _ => true, (key: string) => Some(key))
  }

  function SampleResale(): Resale {
    Resale("1", "2", StampRow("stamp", seq(64, _ => '0')), "seller", "seller", "buyer", "buyer", 1, Zeros(32),
           Zeros(32), "1", "2", "3")
  }

  lemma LastCharacter(a: string, c: char)
    requires c as int < 256
    ensures SampleWallet().p.utf8(a + [c]) == [c as int]
  {
  }

  lemma SampleHash(offer: SettlementOffer, c: char)
    requires offer.signatureHex == [c] && c as int < 256
    ensures OfferHash(SampleWallet().p, offer) == ToHex(if c == '1' then Zeros(32) else [1] + Zeros(31))
  {
    var text := OfferPreimage(offer) + "\n";
    assert OfferPreimage(offer) + "\n" + offer.signatureHex == text + [c];
    LastCharacter(text, c);
  }

  lemma SampleOffersDiffer(height: int)
    ensures var w, x := SampleWallet(), SampleResale();
      OfferHash(w.p, FirstOffer(w, x, height)) != OfferHash(w.p, SecondOffer(w, x, height))
  {
    var w, x := SampleWallet(), SampleResale();
    SampleHash(FirstOffer(w, x, height), '1');
    SampleHash(SecondOffer(w, x, height), '2');
    HexRoundTrip(Zeros(32));
    HexRoundTrip([1] + Zeros(31));
    assert Zeros(32)[0] == 0 && ([1] + Zeros(31))[0] == 1;
  }

  lemma SampleSigned(offer: SettlementOffer, auth: TransferAuthorization)
    ensures OfferSigned(SampleWallet().p, offer) && TransferSigned(SampleWallet().p, auth)
  {
  }

  lemma SampleParties()
    ensures var w, x := SampleWallet(), SampleResale();
      && x.first != x.second && x.priceZat > 0 && w.canAuthorize(x.seller) && x.buyer != x.seller
      && w.addressForKey(x.sellerKey) == Some(x.seller) && w.addressForKey(x.buyerKey) == Some(x.buyer)
  {
    assert "1"[0] != "2"[0] && "seller"[0] != "buyer"[0];
  }

  lemma SampleCommitment()
    ensures LowerHex(SampleResale().stamp.commitmentHex) && |SampleResale().stamp.commitmentHex| == 64
  {
    assert forall c | c in SampleResale().stamp.commitmentHex :: c == '0';
  }

  /** The hypotheses of the run can be met. */
  lemma SamplePlausible(height: int)
    ensures Plausible(SampleWallet(), SampleResale(), height)
  {
    var w, x := SampleWallet(), SampleResale();
    SampleParties();
    SampleCommitment();
    SampleSigned(FirstOffer(w, x, height), AuthOf(w, x, height));
    SampleSigned(SecondOffer(w, x, height), AuthOf(w, x, height));
    SampleOffersDiffer(height);
  }
}
