/** When the market's calls go through, whose keys it records, when a listing closes, and when money goes back. */
module SettlementRules {
  import opened Bytes
  import opened Types
  import opened Transfer
  import opened Ownership
  import opened OwnershipSafety
  import opened DemoChain
  import opened Settlement
  import opened SettlementRuns
  import Text

  /* ---------- refunds ---------- */

  lemma PerformRefunds(w: Wallet, world: World, a: Action, e: string)
    requires FreshIds(w, world, a)
    requires e in Perform(w, world, a).chain.escrows
    requires Perform(w, world, a).chain.escrows[e].state == EscrowState.Refunded
    requires e !in world.chain.escrows || world.chain.escrows[e].state != EscrowState.Refunded
    ensures a == RefundEscrow(e) && e in world.chain.escrows && world.chain.escrows[e].state == EscrowState.Locked
    ensures Perform(w, world, a).chain.escrows[e] == world.chain.escrows[e].(state := EscrowState.Refunded)
    ensures world.chain.height >= world.chain.escrows[e].expiryHeight
  {
  }

  /** No escrow is refunded but by a refund, of a locked escrow, at or past the height it expires at: for every escrow a
      run leaves refunded there is that call in it. */
  lemma {:induction false} RefundedInTime(w: Wallet, start: World, actions: seq<Action>, e: string) returns (i: nat)
    requires FreshRun(w, start, actions)
    requires e in Run(w, start, actions).chain.escrows
    requires Run(w, start, actions).chain.escrows[e].state == EscrowState.Refunded
    requires e !in start.chain.escrows || start.chain.escrows[e].state != EscrowState.Refunded
    ensures i < |actions| && actions[i] == RefundEscrow(e)
    ensures var held, end := Run(w, start, actions[..i]).chain, Run(w, start, actions).chain.escrows[e];
            && e in held.escrows && held.escrows[e] == end.(state := EscrowState.Locked)
            && held.height >= end.expiryHeight
  {
    var front, last := actions[..|actions| - 1], actions[|actions| - 1];
    var before := Run(w, start, front);
    FreshFront(w, start, actions);
    if e in before.chain.escrows && before.chain.escrows[e].state == EscrowState.Refunded {
      i := RefundedInTime(w, start, front, e);
      assert front[..i] == actions[..i];
      PerformFollows(w, before, last);
      assert Follows(w.p, before.chain.escrows[e], Run(w, start, actions).chain.escrows[e]);
    } else {
      i := |front|;
      PerformRefunds(w, before, last, e);
    }
  }

  /* ---------- whose keys ---------- */

  /** The keys a row records are those of its parties, and the seller may authorize. */
  predicate KeysFit(w: Wallet, l: ListingRow) {
    && w.addressForKey(l.sellerPublicKeyHex) == Some(l.sellerAddress) && w.canAuthorize(l.sellerAddress)
    && (l.buyerAddress.Some? <==> l.buyerPublicKeyHex.Some?)
    && (l.buyerAddress.Some? ==> w.addressForKey(l.buyerPublicKeyHex.value) == l.buyerAddress
                                 && l.buyerAddress.value != l.sellerAddress)
  }

  ghost predicate AllKeysFit(w: Wallet, world: World) {
    forall id | id in world.listings :: world.listings[id].id == id && KeysFit(w, world.listings[id])
  }

  lemma RowStepKeepsKeys(w: Wallet, world: World, a: Action, l: ListingRow)
    requires AllKeysFit(w, world) && IsRowStep(a) && l.id in world.listings && world.listings[l.id] == l
    requires RowStep(w, world, a, l).Some?
    ensures AllKeysFit(w, RowStep(w, world, a, l).value)
  {
    assert KeysFit(w, l);
  }

  lemma ReconcileKeepsKeys(w: Wallet, world: World, stamps: map<string, StampOwnership>)
    requires AllKeysFit(w, world)
    ensures AllKeysFit(w, DoReconcile(world, stamps))
  {
    forall id | id in world.listings ensures KeysFit(w, DoReconcile(world, stamps).listings[id]) {
      assert KeysFit(w, world.listings[id]);
    }
  }

  lemma PerformKeepsKeys(w: Wallet, world: World, a: Action)
    requires AllKeysFit(w, world)
    ensures AllKeysFit(w, Perform(w, world, a))
  {
    if a.Reconcile? {
      ReconcileKeepsKeys(w, world, a.stamps);
    } else if IsRowStep(a) {
      if a.id in world.listings && RowStep(w, world, a, world.listings[a.id]).Some? {
        RowStepKeepsKeys(w, world, a, world.listings[a.id]);
      }
    }
  }

  /** In every run from an empty market the keys on record belong to the parties on record. */
  lemma {:induction false} RecordedKeysFit(w: Wallet, height: int, fundedZat: int, actions: seq<Action>)
    ensures AllKeysFit(w, Run(w, EmptyMarket(height, fundedZat), actions))
  {
    if actions != [] {
      RecordedKeysFit(w, height, fundedZat, actions[..|actions| - 1]);
      PerformKeepsKeys(w, Run(w, EmptyMarket(height, fundedZat), actions[..|actions| - 1]), actions[|actions| - 1]);
    }
  }

  /* ---------- when the signed steps go through ---------- */

  /** The listing's stamp and sequence fit a record. */
  predicate Recordable(l: ListingRow) {
    FromHex(l.stampCommitmentHex).Some? && |l.stampCommitmentHex| == 64 && 0 <= l.sequence < 0x1_0000_0000
  }

  lemma RecordableIff(p: Primitives, l: ListingRow, kind: RecordKind, preimage: string, signatureHex: string)
    ensures Encodable(OnChainRecord(kind, l.stampCommitmentHex, l.sequence, ArtifactHash(p, preimage, signatureHex)))
            <==> Recordable(l)
  {
    HexRoundTrip(p.sha256(p.utf8(preimage + "\n" + signatureHex)));
  }

  /** An offer is published exactly for a reserved row whose seller may authorize and signed the row's own terms,
      while the publisher can pay for the record. */
  lemma OfferPublishedIff(w: Wallet, world: World, l: ListingRow, signature: string, key: string)
    ensures DoPublishOffer(w, world, l, signature, key).Some?
            <==> && l.state == Reserved && w.canAuthorize(l.sellerAddress)
                 && w.p.ownerSigned(l.sellerAddress, key, OfferPreimage(UnsignedOffer(l)), signature)
                 && Recordable(l) && world.chain.fundedZat >= 25_000
  {
    var offer := UnsignedOffer(l).(ownerPublicKeyHex := key, signatureHex := signature);
    RecordableIff(w.p, l, OfferRecord, OfferPreimage(offer), signature);
  }

  /** An authorization is stored exactly for a row with a published offer whose seller signed the delivery under it. */
  lemma AuthorizedIff(w: Wallet, world: World, l: ListingRow, signature: string, key: string)
    ensures DoAuthorize(w, world, l, signature, key).Some?
            <==> && l.state == OfferPublished && l.offerArtifact.Some? && w.canAuthorize(l.sellerAddress)
                 && w.p.ownerSigned(l.sellerAddress, key,
                                    TransferPreimage(UnsignedTransfer(w.p, l, l.offerArtifact.value)), signature)
  {
  }

  /** A delivery is published exactly once the payment is locked, while the publisher can pay for the record and,
      where the recipient has an address, the notice. */
  lemma TransferPublishedIff(w: Wallet, world: World, l: ListingRow)
    ensures DoPublishTransfer(w, world, l).Some?
            <==> && l.state == PaymentLocked && l.transferArtifact.Some? && Recordable(l)
                 && world.chain.fundedZat >= (if l.transferArtifact.value.toAddress == "" then 25_000 else 35_000)
  {
    if l.transferArtifact.Some? {
      var auth := l.transferArtifact.value;
      RecordableIff(w.p, l, TransferRecord, TransferPreimage(auth), auth.signatureHex);
    }
  }

  /* ---------- when a listing closes ---------- */

  /** The ledger's event at the listed sequence delivered the stamp to the row's buyer. */
  predicate DeliveredAt(history: seq<OwnershipEvent>, l: ListingRow) {
    1 <= l.sequence <= |history| && Some(history[l.sequence - 1].toAddress) == l.buyerAddress
  }

  /** Reconciling against the ledger closes a live listing as settled exactly if the ledger delivered its sequence to
      its buyer; otherwise as expired exactly if nothing is paid in and its height has passed; and otherwise leaves
      it. */
  lemma ReconciledIff(p: Primitives, input: OwnershipInput, height: int, l: ListingRow)
    requires IsLive(l)
    ensures var stamps, k := Resolution(p, input).stamps, l.stampCommitmentHex;
            var delivered := k in stamps && DeliveredAt(stamps[k].history, l);
            var late := Stage(l.state) < 4 && l.expiryHeight.Some? && l.expiryHeight.value < height;
            Reconciled(stamps, height, l)
            == l.(state := if delivered then Settled else if late then ListingState.Expired else l.state)
  {
    AlwaysContiguous(p, input);
    var stamps, k := Resolution(p, input).stamps, l.stampCommitmentHex;
    if k in stamps { DeliveredIff(stamps[k].history, l); }
  }

  lemma DeliveredIff(history: seq<OwnershipEvent>, l: ListingRow)
    requires forall i | 0 <= i < |history| :: history[i].sequence == i + 1
    ensures (exists i | 0 <= i < |history| ::
               history[i].sequence == l.sequence && Some(history[i].toAddress) == l.buyerAddress)
            <==> DeliveredAt(history, l)
  {
    if DeliveredAt(history, l) { assert history[l.sequence - 1].sequence == l.sequence; }
  }

  /* ---------- the key of a delivery ---------- */

  lemma IntegerHasNoColon(n: int)
    ensures ':' !in Text.Integer(n)
  {
    var d := Text.Decimal(if n < 0 then -n else n);
    assert Text.AllDigits(d);
    assert "-"[0] == '-';
  }

  lemma LastColon(x: string, s: string, y: string, t: string)
    requires ':' !in s && ':' !in t && x + ":" + s == y + ":" + t
    ensures x == y && s == t
  {
    var all := x + ":" + s;
    assert all[|x|] == ':' && all[|y|] == ':';
    assert forall i | |x| < i < |all| :: all[i] == s[i - |x| - 1] && all[i] in s;
    assert forall i | |y| < i < |all| :: all[i] == t[i - |y| - 1] && all[i] in t;
    assert |x| == |y|;
    assert x == all[..|x|] == y && s == all[|x| + 1..] == t;
  }

  /** Two listings share a row of the transfer table exactly if they deliver the same stamp at the same sequence. */
  lemma TransferIdsTell(l: ListingRow, m: ListingRow)
    ensures TransferId(l) == TransferId(m)
            <==> l.stampCommitmentHex == m.stampCommitmentHex && l.sequence == m.sequence
  {
    if TransferId(l) == TransferId(m) {
      IntegerHasNoColon(l.sequence);
      IntegerHasNoColon(m.sequence);
      LastColon(l.stampCommitmentHex, Text.Integer(l.sequence), m.stampCommitmentHex, Text.Integer(m.sequence));
      Text.IntegerInjective(l.sequence, m.sequence);
    }
  }
}
