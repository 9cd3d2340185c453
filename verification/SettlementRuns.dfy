/** What every run of the listing workflow keeps. */
module SettlementRuns {
  import opened Bytes
  import opened Types
  import opened Transfer
  import opened Ownership
  import opened DemoChain
  import opened Settlement
  import Text

  /** One call on the market, an escrow refund, or anything else that moves the chain. */
  datatype Action =
    | List(newId: string, stamp: StampRow, owner: string, sequence: int, seller: string, sellerKey: string,
           priceZat: int, note: string)
    | Reserve(id: string, buyer: string, buyerKey: string, secret: Digest)
    | PublishOffer(id: string, signature: string, key: string)
    | Authorize(id: string, signature: string, key: string)
    | LockPayment(id: string)
    | PublishTransfer(id: string)
    | ClaimPayment(id: string)
    | Cancel(id: string)
    | Reconcile(stamps: map<string, StampOwnership>)
    | RefundEscrow(escrowId: string)
    | Elsewhere(height: int, fundedZat: int, txs: map<string, ZcashPublication>, gifts: map<string, TransferRow>)

  predicate IsRowStep(a: Action) {
    !a.List? && !a.Reconcile? && !a.RefundEscrow? && !a.Elsewhere?
  }

  /** The listing an action works on, read from the store first as the market does. */
  function RowStep(w: Wallet, world: World, a: Action, l: ListingRow): Option<World>
    requires IsRowStep(a)
  {
    match a
    case Reserve(_, buyer, buyerKey, secret) => DoReserve(w, world, l, buyer, buyerKey, secret)
    case PublishOffer(_, signature, key) => DoPublishOffer(w, world, l, signature, key)
    case Authorize(_, signature, key) => DoAuthorize(w, world, l, signature, key)
    case LockPayment(_) => DoLockPayment(w, world, l)
    case PublishTransfer(_) => DoPublishTransfer(w, world, l)
    case ClaimPayment(_) => DoClaimPayment(w, world, l)
    case Cancel(_) => DoCancel(world, l)
  }

  /** Transfers outside any listing. A stamp's gift takes the next sequence, and none is made of a stamp with a live
      listing, so no row of the table is replaced. */
  function Gifts(gifts: map<string, TransferRow>): map<string, TransferRow> {
    map id | id in gifts :: gifts[id].(listingId := None)
  }

  /** The world after an action; a call that throws leaves it as it was. */
  function Perform(w: Wallet, world: World, a: Action): World {
    match a
    case List(id, stamp, owner, sequence, seller, sellerKey, priceZat, note) =>
      Or(DoList(w, world, id, stamp, owner, sequence, seller, sellerKey, priceZat, note), world)
    case Reconcile(stamps) => DoReconcile(world, stamps)
    case RefundEscrow(escrowId) => world.(chain := Or(Refund(world.chain, escrowId), world.chain))
    case Elsewhere(height, funded, txs, gifts) =>
      world.(chain := Chain(height, funded, txs, world.chain.escrows), transfers := Gifts(gifts) + world.transfers)
    case _ =>
      if a.id !in world.listings then world else Or(RowStep(w, world, a, world.listings[a.id]), world)
  }

  function Run(w: Wallet, world: World, actions: seq<Action>): World {
    if actions == [] then world
    else Perform(w, Run(w, world, actions[..|actions| - 1]), actions[|actions| - 1])
  }

  /** Listing ids are fresh UUIDs and escrow ids, half of a SHA-256 value, do not collide. */
  predicate FreshIds(w: Wallet, world: World, a: Action) {
    && (a.List? ==> a.newId !in world.listings)
    && (a.LockPayment? && a.id in world.listings && Text.AllDigits(world.listings[a.id].priceZat) ==>
          EscrowOf(w.p, world.chain, world.listings[a.id]).id !in world.chain.escrows)
  }

  predicate FreshRun(w: Wallet, world: World, actions: seq<Action>) {
    forall i | 0 <= i < |actions| :: FreshIds(w, Run(w, world, actions[..i]), actions[i])
  }

  /* ---------- the invariant ---------- */

  predicate HashLockKnown(p: Primitives, l: ListingRow) {
    l.hashLockHex.Some? ==>
      && l.buyerAddress.Some? && l.preimageHex.Some?
      && l.buyerAddress.value != l.sellerAddress
      && VerifyHashLock(p, l.hashLockHex.value, l.preimageHex.value)
  }

  /** The offer artifact is the listing's own terms, signed for the seller's address. */
  predicate OfferFits(p: Primitives, l: ListingRow) {
    l.offerArtifact.Some? ==>
      var o := l.offerArtifact.value;
      && l.hashLockHex.Some? && l.buyerAddress.Some?
      && o.stampCommitmentHex == l.stampCommitmentHex && o.sequence == l.sequence
      && o.sellerAddress == l.sellerAddress && o.buyerAddress == l.buyerAddress.value
      && o.priceZat == l.priceZat && o.hashLockHex == l.hashLockHex.value
      && OfferSigned(p, o)
  }

  /** The authorization artifact delivers the listed sequence to the buyer under that very offer. */
  predicate TransferFits(p: Primitives, l: ListingRow) {
    l.transferArtifact.Some? ==>
      var a := l.transferArtifact.value;
      && l.offerArtifact.Some? && l.hashLockHex.Some? && l.buyerAddress.Some? && l.preimageHex.Some?
      && a.stampCommitmentHex == l.stampCommitmentHex && a.sequence == l.sequence
      && a.fromAddress == l.sellerAddress && a.toAddress == l.buyerAddress.value
      && a.offerHashHex == OfferHash(p, l.offerArtifact.value)
      && a.preimageHex == l.preimageHex.value
      && TransferSigned(p, a)
  }

  /** The escrow holds exactly the asking price under the listing's hash lock. */
  predicate EscrowFits(l: ListingRow, escrows: map<string, Htlc>) {
    l.escrowId.Some? ==>
      && l.transferArtifact.Some? && l.hashLockHex.Some? && l.buyerAddress.Some?
      && l.escrowId.value in escrows && Text.AllDigits(l.priceZat)
      && var h := escrows[l.escrowId.value];
      && h.amountZat == Text.Numeral(l.priceZat) > 0 && h.hashLockHex == l.hashLockHex.value
      && h.buyerAddress == l.buyerAddress.value && h.sellerAddress == l.sellerAddress
  }

  /** How far a live listing has come. */
  function Stage(s: ListingState): int {
    match s
    case Listed => 0 case Reserved => 1 case OfferPublished => 2 case Authorized => 3
    case PaymentLocked => 4 case TransferPublished => 5 case _ => -1
  }

  predicate FieldsFollowState(l: ListingRow) {
    IsLive(l) ==>
      && (l.hashLockHex.Some? <==> Stage(l.state) >= 1)
      && (l.offerArtifact.Some? <==> Stage(l.state) >= 2)
      && (l.transferArtifact.Some? <==> Stage(l.state) >= 3)
      && (l.escrowId.Some? <==> Stage(l.state) >= 4)
  }

  predicate RowOk(p: Primitives, l: ListingRow, escrows: map<string, Htlc>) {
    && Text.AllDigits(l.priceZat) && Text.Numeral(l.priceZat) > 0
    && HashLockKnown(p, l) && OfferFits(p, l) && TransferFits(p, l) && EscrowFits(l, escrows)
    && FieldsFollowState(l)
  }

  predicate OneLivePerStamp(listings: map<string, ListingRow>) {
    forall a, b | a in listings && b in listings && a != b && IsLive(listings[a]) && IsLive(listings[b]) ::
      listings[a].stampId != listings[b].stampId
  }

  predicate IdsMatch(listings: map<string, ListingRow>) {
    forall id | id in listings :: listings[id].id == id
  }

  ghost predicate RowsOk(p: Primitives, listings: map<string, ListingRow>, escrows: map<string, Htlc>) {
    forall id | id in listings :: RowOk(p, listings[id], escrows)
  }

  predicate Backed(listings: map<string, ListingRow>, e: string) {
    exists id | id in listings :: listings[id].escrowId == Some(e)
  }

  /** No money is ever locked without a listing that holds the complete authorization for it. */
  predicate EscrowsBacked(listings: map<string, ListingRow>, escrows: map<string, Htlc>) {
    forall e | e in escrows :: Backed(listings, e)
  }

  ghost predicate Inv(p: Primitives, world: World) {
    && IdsMatch(world.listings)
    && RowsOk(p, world.listings, world.chain.escrows)
    && OneLivePerStamp(world.listings)
    && EscrowsBacked(world.listings, world.chain.escrows)
  }

  /** Escrows keep their terms; only their outcome changes. */
  predicate EscrowsKept(a: map<string, Htlc>, b: map<string, Htlc>) {
    forall e | e in a ::
      && e in b && b[e].amountZat == a[e].amountZat && b[e].hashLockHex == a[e].hashLockHex
      && b[e].buyerAddress == a[e].buyerAddress && b[e].sellerAddress == a[e].sellerAddress
  }

  lemma RowsKept(p: Primitives, l: ListingRow, a: map<string, Htlc>, b: map<string, Htlc>)
    requires RowOk(p, l, a) && EscrowsKept(a, b)
    ensures RowOk(p, l, b)
  {
  }

  lemma RowsReplaced(p: Primitives, listings: map<string, ListingRow>, row: ListingRow, a: map<string, Htlc>,
                     b: map<string, Htlc>)
    requires RowsOk(p, listings, a) && EscrowsKept(a, b) && RowOk(p, row, b)
    ensures RowsOk(p, listings[row.id := row], b)
  {
    forall id | id in listings && id != row.id ensures RowOk(p, listings[id], b) {
      RowsKept(p, listings[id], a, b);
    }
  }

  lemma BackedReplaced(listings: map<string, ListingRow>, row: ListingRow, a: map<string, Htlc>, b: map<string, Htlc>)
    requires EscrowsBacked(listings, a)
    requires row.id in listings && listings[row.id].escrowId.Some? ==> row.escrowId == listings[row.id].escrowId
    requires forall e | e in b :: e in a || row.escrowId == Some(e)
    ensures EscrowsBacked(listings[row.id := row], b)
  {
    var next := listings[row.id := row];
    forall e | e in b ensures Backed(next, e) {
      if e in a {
        assert Backed(listings, e);
        var id :| id in listings && listings[id].escrowId == Some(e);
        assert next[id].escrowId == Some(e);
      } else {
        assert next[row.id].escrowId == Some(e);
      }
    }
  }

  /** Replacing a row by a fitting one for the same stamp, no more alive than before, keeps the invariant. */
  lemma ReplaceRow(p: Primitives, world: World, l: ListingRow, chain: Chain, row: ListingRow,
                   transfers: map<string, TransferRow>)
    requires Inv(p, world)
    requires l.id in world.listings && world.listings[l.id] == l
    requires row.id == l.id && row.stampId == l.stampId && (IsLive(row) ==> IsLive(l))
    requires EscrowsKept(world.chain.escrows, chain.escrows)
    requires RowOk(p, row, chain.escrows)
    requires l.escrowId.Some? ==> row.escrowId == l.escrowId
    requires forall e | e in chain.escrows :: e in world.chain.escrows || row.escrowId == Some(e)
    ensures Inv(p, Upsert(World(world.listings, transfers, chain), row))
  {
    RowsReplaced(p, world.listings, row, world.chain.escrows, chain.escrows);
    BackedReplaced(world.listings, row, world.chain.escrows, chain.escrows);
  }

  lemma ListKeeps(w: Wallet, world: World, a: Action)
    requires Inv(w.p, world) && a.List? && FreshIds(w, world, a)
    ensures Inv(w.p, Perform(w, world, a))
  {
    if DoList(w, world, a.newId, a.stamp, a.owner, a.sequence, a.seller, a.sellerKey, a.priceZat, a.note).Some? {
      var row := NewListing(a.newId, a.stamp, a.sequence + 1, a.seller, a.sellerKey, a.priceZat, a.note);
      Text.DecimalRoundTrip(a.priceZat);
      RowsReplaced(w.p, world.listings, row, world.chain.escrows, world.chain.escrows);
      BackedReplaced(world.listings, row, world.chain.escrows, world.chain.escrows);
    }
  }

  /** A step that touches one row leaves it in order and no more alive, and spoils no escrow. */
  ghost predicate GoodStep(p: Primitives, world: World, l: ListingRow, next: World) {
    && l.id in next.listings
    && var row := next.listings[l.id];
    && next.listings == world.listings[l.id := row]
    && row.id == l.id && row.stampId == l.stampId && (IsLive(row) ==> IsLive(l))
    && RowOk(p, row, next.chain.escrows)
    && (l.escrowId.Some? ==> row.escrowId == l.escrowId)
    && EscrowsKept(world.chain.escrows, next.chain.escrows)
    && (forall e | e in next.chain.escrows :: e in world.chain.escrows || row.escrowId == Some(e))
  }

  lemma ReserveGood(w: Wallet, world: World, l: ListingRow, buyer: string, buyerKey: string, secret: Digest)
    requires RowOk(w.p, l, world.chain.escrows) && DoReserve(w, world, l, buyer, buyerKey, secret).Some?
    ensures GoodStep(w.p, world, l, DoReserve(w, world, l, buyer, buyerKey, secret).value)
  {
    HexRoundTrip(secret);
    assert |ToHex(secret)| == 64 && |"none"| == 4;
  }

  lemma PublishOfferGood(w: Wallet, world: World, l: ListingRow, signature: string, key: string)
    requires RowOk(w.p, l, world.chain.escrows) && DoPublishOffer(w, world, l, signature, key).Some?
    ensures GoodStep(w.p, world, l, DoPublishOffer(w, world, l, signature, key).value)
  {
  }

  lemma AuthorizeGood(w: Wallet, world: World, l: ListingRow, signature: string, key: string)
    requires RowOk(w.p, l, world.chain.escrows) && DoAuthorize(w, world, l, signature, key).Some?
    ensures GoodStep(w.p, world, l, DoAuthorize(w, world, l, signature, key).value)
  {
  }

  lemma LockPaymentGood(w: Wallet, world: World, l: ListingRow)
    requires RowOk(w.p, l, world.chain.escrows) && DoLockPayment(w, world, l).Some?
    requires EscrowOf(w.p, world.chain, l).id !in world.chain.escrows
    ensures GoodStep(w.p, world, l, DoLockPayment(w, world, l).value)
  {
  }

  lemma PublishTransferGood(w: Wallet, world: World, l: ListingRow)
    requires RowOk(w.p, l, world.chain.escrows) && DoPublishTransfer(w, world, l).Some?
    ensures GoodStep(w.p, world, l, DoPublishTransfer(w, world, l).value)
  {
  }

  lemma ClaimPaymentGood(w: Wallet, world: World, l: ListingRow)
    requires RowOk(w.p, l, world.chain.escrows) && DoClaimPayment(w, world, l).Some?
    ensures GoodStep(w.p, world, l, DoClaimPayment(w, world, l).value)
  {
    RowsKept(w.p, l, world.chain.escrows, DoClaimPayment(w, world, l).value.chain.escrows);
  }

  lemma CancelGood(p: Primitives, world: World, l: ListingRow)
    requires RowOk(p, l, world.chain.escrows) && DoCancel(world, l).Some?
    ensures GoodStep(p, world, l, DoCancel(world, l).value)
  {
  }

  lemma RowStepGood(w: Wallet, world: World, a: Action, l: ListingRow)
    requires IsRowStep(a) && RowStep(w, world, a, l).Some?
    requires RowOk(w.p, l, world.chain.escrows)
    requires a.LockPayment? ==> EscrowOf(w.p, world.chain, l).id !in world.chain.escrows
    ensures GoodStep(w.p, world, l, RowStep(w, world, a, l).value)
  {
    if a.Reserve? { ReserveGood(w, world, l, a.buyer, a.buyerKey, a.secret); }
    else if a.PublishOffer? { PublishOfferGood(w, world, l, a.signature, a.key); }
    else if a.Authorize? { AuthorizeGood(w, world, l, a.signature, a.key); }
    else if a.LockPayment? { LockPaymentGood(w, world, l); }
    else if a.PublishTransfer? { PublishTransferGood(w, world, l); }
    else if a.ClaimPayment? { ClaimPaymentGood(w, world, l); }
    else { CancelGood(w.p, world, l); }
  }

  lemma RowStepKeeps(w: Wallet, world: World, a: Action)
    requires Inv(w.p, world) && FreshIds(w, world, a)
    requires IsRowStep(a)
    requires a.id in world.listings && RowStep(w, world, a, world.listings[a.id]).Some?
    ensures Inv(w.p, RowStep(w, world, a, world.listings[a.id]).value)
  {
    var l := world.listings[a.id];
    var next := RowStep(w, world, a, l).value;
    assert RowOk(w.p, l, world.chain.escrows);
    RowStepGood(w, world, a, l);
    ReplaceRow(w.p, world, l, next.chain, next.listings[l.id], next.transfers);
    assert next == Upsert(World(world.listings, next.transfers, next.chain), next.listings[l.id]);
  }

  lemma ReconcileKeeps(p: Primitives, world: World, stamps: map<string, StampOwnership>)
    requires Inv(p, world)
    ensures Inv(p, DoReconcile(world, stamps))
  {
    ReconcileRows(p, world, stamps);
    ReconcileBacked(world, stamps);
    ReconcileOneLive(world, stamps);
  }

  lemma ReconcileOneLive(world: World, stamps: map<string, StampOwnership>)
    requires OneLivePerStamp(world.listings)
    ensures OneLivePerStamp(DoReconcile(world, stamps).listings)
  {
    var next := DoReconcile(world, stamps).listings;
    forall i, j | i in next && j in next && i != j && IsLive(next[i]) && IsLive(next[j])
      ensures next[i].stampId != next[j].stampId
    {
      assert IsLive(world.listings[i]) && IsLive(world.listings[j]);
    }
  }

  lemma ReconcileRows(p: Primitives, world: World, stamps: map<string, StampOwnership>)
    requires IdsMatch(world.listings) && RowsOk(p, world.listings, world.chain.escrows)
    ensures IdsMatch(DoReconcile(world, stamps).listings)
    ensures RowsOk(p, DoReconcile(world, stamps).listings, world.chain.escrows)
  {
    var next := DoReconcile(world, stamps);
    forall id | id in next.listings ensures RowOk(p, next.listings[id], next.chain.escrows) {
      ReconciledRow(p, stamps, world.chain.height, world.listings[id], world.chain.escrows);
    }
  }

  lemma ReconcileBacked(world: World, stamps: map<string, StampOwnership>)
    requires EscrowsBacked(world.listings, world.chain.escrows)
    ensures EscrowsBacked(DoReconcile(world, stamps).listings, world.chain.escrows)
  {
    var next := DoReconcile(world, stamps);
    forall e | e in next.chain.escrows ensures Backed(next.listings, e) {
      assert Backed(world.listings, e);
      var id :| id in world.listings && world.listings[id].escrowId == Some(e);
      assert next.listings[id].escrowId == Some(e);
    }
  }

  lemma ReconciledRow(p: Primitives, stamps: map<string, StampOwnership>, height: int, l: ListingRow,
                      escrows: map<string, Htlc>)
    requires RowOk(p, l, escrows)
    ensures RowOk(p, Reconciled(stamps, height, l), escrows)
  {
    var next := Reconciled(stamps, height, l);
    assert next == l || next == l.(state := Settled) || next == l.(state := Expired);
    OnlyStateMoved(p, l, next, escrows);
  }

  lemma OnlyStateMoved(p: Primitives, l: ListingRow, next: ListingRow, escrows: map<string, Htlc>)
    requires RowOk(p, l, escrows) && (next == l || next == l.(state := Settled) || next == l.(state := Expired))
    ensures HashLockKnown(p, next) && OfferFits(p, next) && TransferFits(p, next)
    ensures EscrowFits(next, escrows) && FieldsFollowState(next)
  {
  }

  lemma ChainMovesKeep(p: Primitives, world: World, chain: Chain, transfers: map<string, TransferRow>)
    requires Inv(p, world)
    requires EscrowsKept(world.chain.escrows, chain.escrows) && chain.escrows.Keys == world.chain.escrows.Keys
    ensures Inv(p, World(world.listings, transfers, chain))
  {
    forall id | id in world.listings ensures RowOk(p, world.listings[id], chain.escrows) {
      RowsKept(p, world.listings[id], world.chain.escrows, chain.escrows);
    }
  }

  lemma RefundKeeps(p: Primitives, world: World, escrowId: string)
    requires Inv(p, world) && Refund(world.chain, escrowId).Some?
    ensures Inv(p, World(world.listings, world.transfers, Refund(world.chain, escrowId).value))
  {
    var chain := Refund(world.chain, escrowId).value;
    assert chain.escrows.Keys == world.chain.escrows.Keys;
    ChainMovesKeep(p, world, chain, world.transfers);
  }

  /** Every action keeps the invariant. */
  lemma PerformKeeps(w: Wallet, world: World, a: Action)
    requires Inv(w.p, world) && FreshIds(w, world, a)
    ensures Inv(w.p, Perform(w, world, a))
  {
    if a.List? {
      ListKeeps(w, world, a);
    } else if a.Reconcile? {
      ReconcileKeeps(w.p, world, a.stamps);
    } else if a.RefundEscrow? {
      if Refund(world.chain, a.escrowId).Some? { RefundKeeps(w.p, world, a.escrowId); }
    } else if a.Elsewhere? {
      ChainMovesKeep(w.p, world, Chain(a.height, a.fundedZat, a.txs, world.chain.escrows),
                   Gifts(a.gifts) + world.transfers);
    } else if a.id in world.listings && RowStep(w, world, a, world.listings[a.id]).Some? {
      RowStepKeeps(w, world, a);
    }
  }

  lemma FreshFront(w: Wallet, start: World, actions: seq<Action>)
    requires FreshRun(w, start, actions) && actions != []
    ensures FreshRun(w, start, actions[..|actions| - 1])
    ensures FreshIds(w, Run(w, start, actions[..|actions| - 1]), actions[|actions| - 1])
  {
    var front := actions[..|actions| - 1];
    assert FreshIds(w, Run(w, start, actions[..|front|]), actions[|front|]);
    forall i | 0 <= i < |front| ensures FreshIds(w, Run(w, start, front[..i]), front[i]) {
      assert front[..i] == actions[..i];
      assert FreshIds(w, Run(w, start, actions[..i]), actions[i]);
    }
  }

  /** Every run keeps the invariant. */
  lemma {:induction false} RunKeeps(w: Wallet, start: World, actions: seq<Action>)
    requires Inv(w.p, start)
    requires FreshRun(w, start, actions)
    ensures Inv(w.p, Run(w, start, actions))
  {
    if actions != [] {
      var front, last := actions[..|actions| - 1], actions[|actions| - 1];
      FreshFront(w, start, actions);
      RunKeeps(w, start, front);
      PerformKeeps(w, Run(w, start, front), last);
    }
  }

  function EmptyMarket(height: int, fundedZat: int): World {
    World(map[], map[], Chain(height, fundedZat, map[], map[]))
  }

  /** Every state a run reaches from an empty market satisfies the invariant. */
  lemma MarketSafe(w: Wallet, height: int, fundedZat: int, actions: seq<Action>)
    requires FreshRun(w, EmptyMarket(height, fundedZat), actions)
    ensures Inv(w.p, Run(w, EmptyMarket(height, fundedZat), actions))
  {
    RunKeeps(w, EmptyMarket(height, fundedZat), actions);
  }

  /* ---------- closed listings stay closed ---------- */

  lemma PerformKeepsClosed(w: Wallet, world: World, a: Action, id: string)
    requires IdsMatch(world.listings) && FreshIds(w, world, a)
    requires id in world.listings && !IsLive(world.listings[id])
    ensures id in Perform(w, world, a).listings && !IsLive(Perform(w, world, a).listings[id])
  {
  }

  /** A listing that is settled, cancelled or expired at some point of a run is never live again. */
  lemma {:induction false} ClosedForever(w: Wallet, start: World, actions: seq<Action>, i: nat, id: string)
    requires Inv(w.p, start) && FreshRun(w, start, actions)
    requires i <= |actions|
    requires id in Run(w, start, actions[..i]).listings && !IsLive(Run(w, start, actions[..i]).listings[id])
    ensures id in Run(w, start, actions).listings && !IsLive(Run(w, start, actions).listings[id])
  {
    if i == |actions| {
      assert actions[..i] == actions;
    } else {
      var front, last := actions[..|actions| - 1], actions[|actions| - 1];
      FreshFront(w, start, actions);
      assert front[..i] == actions[..i];
      ClosedForever(w, start, front, i, id);
      RunKeeps(w, start, front);
      PerformKeepsClosed(w, Run(w, start, front), last, id);
    }
  }

  /* ---------- escrows pay out once ---------- */

  /** What may become of an escrow: its terms stand, a claim reveals a preimage of its lock, and once it is claimed or
      refunded nothing about it changes any more. */
  predicate Follows(p: Primitives, a: Htlc, b: Htlc) {
    && b.amountZat == a.amountZat && b.hashLockHex == a.hashLockHex && b.expiryHeight == a.expiryHeight
    && b.buyerAddress == a.buyerAddress && b.sellerAddress == a.sellerAddress
    && (a.state != EscrowState.Locked ==> b == a)
    && (a.state == EscrowState.Locked && b.state == EscrowState.Claimed ==>
          b.preimageHex.Some? && ToHex(p.sha256(LenientHex(b.preimageHex.value))) == a.hashLockHex)
  }

  ghost predicate EscrowsFollow(p: Primitives, a: map<string, Htlc>, b: map<string, Htlc>) {
    forall e | e in a :: e in b && Follows(p, a[e], b[e])
  }

  lemma EscrowsFollowOn(p: Primitives, a: map<string, Htlc>, b: map<string, Htlc>, c: map<string, Htlc>)
    requires EscrowsFollow(p, a, b) && EscrowsFollow(p, b, c)
    ensures EscrowsFollow(p, a, c)
  {
    forall e | e in a ensures e in c && Follows(p, a[e], c[e]) {
      assert Follows(p, a[e], b[e]) && Follows(p, b[e], c[e]);
    }
  }

  lemma PerformFollows(w: Wallet, world: World, a: Action)
    requires FreshIds(w, world, a)
    ensures EscrowsFollow(w.p, world.chain.escrows, Perform(w, world, a).chain.escrows)
  {
  }

  /** From any point of a run to its end every escrow keeps its terms, is claimed only against a preimage of its lock,
      and stays claimed or refunded for good: no escrow pays out twice. */
  lemma {:induction false} EscrowFinal(w: Wallet, start: World, actions: seq<Action>, i: nat)
    requires FreshRun(w, start, actions) && i <= |actions|
    ensures EscrowsFollow(w.p, Run(w, start, actions[..i]).chain.escrows, Run(w, start, actions).chain.escrows)
  {
    if i == |actions| {
      assert actions[..i] == actions;
    } else {
      var front, last := actions[..|actions| - 1], actions[|actions| - 1];
      FreshFront(w, start, actions);
      assert front[..i] == actions[..i];
      EscrowFinal(w, start, front, i);
      PerformFollows(w, Run(w, start, front), last);
      EscrowsFollowOn(w.p, Run(w, start, actions[..i]).chain.escrows, Run(w, start, front).chain.escrows,
                      Run(w, start, actions).chain.escrows);
    }
  }

  /* ---------- the parties can always finish ---------- */

  /** While its escrow is locked the seller can claim it: the stored preimage opens the lock. */
  lemma SellerCanClaim(w: Wallet, world: World, l: ListingRow)
    requires RowOk(w.p, l, world.chain.escrows)
    requires l.state == PaymentLocked || l.state == TransferPublished
    requires world.chain.escrows[l.escrowId.value].state == EscrowState.Locked
    ensures DoClaimPayment(w, world, l).Some?
  {
    LenientHexAgrees(l.preimageHex.value);
  }
}
