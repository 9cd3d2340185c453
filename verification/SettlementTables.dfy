/** What the indexer reads from the market's own tables: the offers of its listings and the authorizations of its
    transfers. */
module SettlementTables {
  import opened Bytes
  import opened Types
  import opened Transfer
  import opened Ordering
  import opened Ownership
  import opened DemoChain
  import opened Settlement
  import opened SettlementRuns
  import opened SettlementLog
  import opened SettlementReplay

  /* ---------- the transfer table ---------- */

  /** A row of a listing is under its key and holds its authorization; other rows are gifts. */
  predicate RowOwned(listings: map<string, ListingRow>, key: string, t: TransferRow) {
    t.listingId.Some? ==>
      && t.listingId.value in listings
      && var l := listings[t.listingId.value];
      && l.transferTxid.Some? && TransferId(l) == key && l.transferArtifact == Some(t.artifact)
  }

  /** A listing that published its transfer has the row under its key, unless a later listing has taken it. */
  predicate RowKept(transfers: map<string, TransferRow>, l: ListingRow) {
    l.transferTxid.Some? ==> TransferId(l) in transfers && transfers[TransferId(l)].listingId.Some?
  }

  ghost predicate TableOk(world: World) {
    && (forall key | key in world.transfers :: RowOwned(world.listings, key, world.transfers[key]))
    && (forall id | id in world.listings :: RowKept(world.transfers, world.listings[id]))
  }

  /** What the row says of its transfer stands. */
  predicate KeepsTransfer(l: ListingRow, row: ListingRow) {
    && row.stampCommitmentHex == l.stampCommitmentHex && row.sequence == l.sequence
    && row.transferTxid == l.transferTxid && (l.transferTxid.Some? ==> row.transferArtifact == l.transferArtifact)
  }

  /** New gifts, and rows that say of their transfers what they said, leave the table in order. */
  lemma QuietTable(world: World, next: World)
    requires TableOk(world) && world.listings.Keys <= next.listings.Keys && world.transfers.Keys <= next.transfers.Keys
    requires forall key | key in next.transfers ::
               if key in world.transfers then next.transfers[key] == world.transfers[key]
               else next.transfers[key].listingId.None?
    requires forall id | id in world.listings :: KeepsTransfer(world.listings[id], next.listings[id])
    requires forall id | id in next.listings && id !in world.listings :: next.listings[id].transferTxid.None?
    ensures TableOk(next)
  {
    forall key | key in next.transfers ensures RowOwned(next.listings, key, next.transfers[key]) {
      if key in world.transfers { assert RowOwned(world.listings, key, world.transfers[key]); }
    }
    forall id | id in next.listings ensures RowKept(next.transfers, next.listings[id]) {
      if id in world.listings { assert RowKept(world.transfers, world.listings[id]); }
    }
  }

  /** Publishing a transfer puts its row under the listing's key. */
  lemma DeliveredTable(world: World, next: World, l: ListingRow, auth: TransferAuthorization, z: ZcashPublication)
    requires TableOk(world) && l.id in world.listings && world.listings[l.id] == l
    requires l.transferTxid.None? && l.transferArtifact == Some(auth)
    requires next.listings == world.listings[l.id := DeliveredRow(l, z)]
    requires next.transfers == world.transfers[TransferId(l) := TransferRowOf(l, auth, z.txid)]
    ensures TableOk(next)
  {
    forall key | key in next.transfers ensures RowOwned(next.listings, key, next.transfers[key]) {
      if key != TransferId(l) { assert RowOwned(world.listings, key, world.transfers[key]); }
    }
    forall id | id in next.listings ensures RowKept(next.transfers, next.listings[id]) {
      if id != l.id { assert RowKept(world.transfers, world.listings[id]); }
    }
  }

  lemma PublishTransferTable(w: Wallet, world: World, l: ListingRow)
    requires TableOk(world) && l.id in world.listings && world.listings[l.id] == l && l.transferTxid.None?
    requires DoPublishTransfer(w, world, l).Some?
    ensures TableOk(DoPublishTransfer(w, world, l).value)
  {
    PublishTransferStep(w, world, l);
    DeliveredTable(world, DoPublishTransfer(w, world, l).value, l, l.transferArtifact.value, TransferTx(w, world, l));
  }

  lemma OtherStepTable(w: Wallet, world: World, a: Action, l: ListingRow)
    requires TableOk(world) && l.id in world.listings && world.listings[l.id] == l
    requires IsRowStep(a) && !a.PublishTransfer? && RowStep(w, world, a, l).Some?
    requires IsLive(l) && Stage(l.state) < 5 ==> l.transferTxid.None?
    ensures TableOk(RowStep(w, world, a, l).value)
  {
    var next := RowStep(w, world, a, l).value;
    if a.PublishOffer? {
      PublishOfferStep(w, world, l, a.signature, a.key);
    } else {
      QuietStep(w, world, a, l);
    }
    assert KeepsTransfer(l, next.listings[l.id]);
    QuietTable(world, next);
  }

  lemma RowStepTable(w: Wallet, world: World, a: Action, log: seq<ZcashPublication>)
    requires IdsMatch(world.listings) && Logged(w, world, log) && TableOk(world)
    requires IsRowStep(a) && a.id in world.listings && RowStep(w, world, a, world.listings[a.id]).Some?
    ensures TableOk(RowStep(w, world, a, world.listings[a.id]).value)
  {
    var l := world.listings[a.id];
    UndeliveredRow(w, l, log);
    if a.PublishTransfer? { PublishTransferTable(w, world, l); } else { OtherStepTable(w, world, a, l); }
  }

  lemma UndeliveredRow(w: Wallet, l: ListingRow, log: seq<ZcashPublication>)
    requires RowLogged(w, l, log)
    ensures IsLive(l) && Stage(l.state) < 5 ==> l.transferTxid.None?
  {
  }

  lemma ListTable(w: Wallet, world: World, a: Action)
    requires TableOk(world) && a.List? && a.newId !in world.listings
    ensures TableOk(Perform(w, world, a))
  {
    QuietTable(world, Perform(w, world, a));
  }

  lemma ReconcileTable(world: World, stamps: map<string, StampOwnership>)
    requires TableOk(world)
    ensures TableOk(DoReconcile(world, stamps))
  {
    QuietTable(world, DoReconcile(world, stamps));
  }

  lemma ElsewhereTable(world: World, chain: Chain, gifts: map<string, TransferRow>)
    requires TableOk(world)
    ensures TableOk(World(world.listings, Gifts(gifts) + world.transfers, chain))
  {
    QuietTable(world, World(world.listings, Gifts(gifts) + world.transfers, chain));
  }

  lemma SameTables(world: World, chain: Chain)
    requires TableOk(world)
    ensures TableOk(world.(chain := chain))
  {
    QuietTable(world, world.(chain := chain));
  }

  lemma PerformTable(w: Wallet, world: World, a: Action, log: seq<ZcashPublication>)
    requires IdsMatch(world.listings) && FreshIds(w, world, a) && Logged(w, world, log) && TableOk(world)
    ensures TableOk(Perform(w, world, a))
  {
    if IsRowStep(a) {
      if a.id in world.listings && RowStep(w, world, a, world.listings[a.id]).Some? { RowStepTable(w, world, a, log); }
    } else if a.List? {
      ListTable(w, world, a);
    } else if a.Reconcile? {
      ReconcileTable(world, a.stamps);
    } else if a.Elsewhere? {
      ElsewhereTable(world, Chain(a.height, a.fundedZat, a.txs, world.chain.escrows), a.gifts);
    } else {
      SameTables(world, Or(Refund(world.chain, a.escrowId), world.chain));
    }
  }

  lemma LastStep(w: Wallet, height: int, fundedZat: int, actions: seq<Action>)
    requires actions != []
    requires FreshRun(w, EmptyMarket(height, fundedZat), actions)
            && ChainGrows(w, EmptyMarket(height, fundedZat), actions)
    ensures var start, front := EmptyMarket(height, fundedZat), actions[..|actions| - 1];
      var world := Run(w, start, front);
      && FreshRun(w, start, front) && ChainGrows(w, start, front)
      && IdsMatch(world.listings) && Logged(w, world, Log(w, start, front))
         && FreshIds(w, world, actions[|actions| - 1])
  {
    var start, front, last := EmptyMarket(height, fundedZat), actions[..|actions| - 1], actions[|actions| - 1];
    FreshFront(w, start, actions);
    GrowsFront(w, start, actions);
    RunKeeps(w, start, front);
    RunLogged(w, start, front);
  }

  lemma NextTable(w: Wallet, height: int, fundedZat: int, actions: seq<Action>)
    requires actions != []
    requires FreshRun(w, EmptyMarket(height, fundedZat), actions)
            && ChainGrows(w, EmptyMarket(height, fundedZat), actions)
    requires TableOk(Run(w, EmptyMarket(height, fundedZat), actions[..|actions| - 1]))
    ensures TableOk(Run(w, EmptyMarket(height, fundedZat), actions))
  {
    var start, front, last := EmptyMarket(height, fundedZat), actions[..|actions| - 1], actions[|actions| - 1];
    LastStep(w, height, fundedZat, actions);
    PerformTable(w, Run(w, start, front), last, Log(w, start, front));
    assert Run(w, start, actions) == Perform(w, Run(w, start, front), last);
  }

  /** In every state a run reaches from an empty market the table is in order. */
  lemma {:induction false} RunTable(w: Wallet, height: int, fundedZat: int, actions: seq<Action>)
    requires FreshRun(w, EmptyMarket(height, fundedZat), actions)
            && ChainGrows(w, EmptyMarket(height, fundedZat), actions)
    ensures TableOk(Run(w, EmptyMarket(height, fundedZat), actions))
  {
    if actions != [] {
      LastStep(w, height, fundedZat, actions);
      RunTable(w, height, fundedZat, actions[..|actions| - 1]);
      NextTable(w, height, fundedZat, actions);
    }
  }

  /* ---------- the indexer's lists ---------- */

  /** The indexer is given the artifacts the two tables hold. */
  ghost predicate FromTables(world: World, input: OwnershipInput) {
    && (forall o :: o in input.offerArtifacts <==>
          exists id | id in world.listings :: world.listings[id].offerArtifact == Some(o))
    && (forall t :: t in input.transferArtifacts <==>
          exists key | key in world.transfers :: world.transfers[key].artifact == t)
  }

  /** The hash tells the tables' artifacts apart. */
  ghost predicate OnePerHash(p: Primitives, world: World) {
    && (forall i, j | i in world.listings && j in world.listings
                      && world.listings[i].offerArtifact.Some? && world.listings[j].offerArtifact.Some? ::
          OfferHash(p, world.listings[i].offerArtifact.value) == OfferHash(p, world.listings[j].offerArtifact.value) ==>
            world.listings[i].offerArtifact == world.listings[j].offerArtifact)
    && (forall i, j | i in world.transfers && j in world.transfers ::
          TransferHash(p, world.transfers[i].artifact) == TransferHash(p, world.transfers[j].artifact) ==>
            world.transfers[i].artifact == world.transfers[j].artifact)
  }

  /** No other listing has published a transfer at the same stamp and sequence. */
  predicate OnlyDelivery(listings: map<string, ListingRow>, id: string)
    requires id in listings
  {
    forall j | j in listings && j != id && listings[j].transferTxid.Some? ::
      TransferId(listings[j]) != TransferId(listings[id])
  }

  /** Such a listing's row is still the table's. */
  lemma OwnRow(world: World, id: string)
    requires TableOk(world) && id in world.listings && world.listings[id].transferTxid.Some?
    requires OnlyDelivery(world.listings, id)
    ensures TransferId(world.listings[id]) in world.transfers
    ensures world.listings[id].transferArtifact == Some(world.transfers[TransferId(world.listings[id])].artifact)
  {
    var key := TransferId(world.listings[id]);
    assert RowKept(world.transfers, world.listings[id]);
    assert RowOwned(world.listings, key, world.transfers[key]);
  }

  /** Both its artifacts are in the lists read from the tables, alone under their hashes. */
  lemma TablesHoldArtifacts(p: Primitives, world: World, id: string, input: OwnershipInput)
    requires TableOk(world) && FromTables(world, input) && OnePerHash(p, world)
    requires id in world.listings && world.listings[id].transferTxid.Some? && world.listings[id].offerArtifact.Some?
    requires OnlyDelivery(world.listings, id)
    ensures world.listings[id].transferArtifact.Some? && ArtifactsSeen(p, input, world.listings[id])
  {
    var l := world.listings[id];
    OwnRow(world, id);
    assert world.listings[id].offerArtifact == Some(l.offerArtifact.value);
    assert world.transfers[TransferId(l)].artifact == l.transferArtifact.value;
  }

  /** The settling of a sale, with nothing assumed of the indexer's artifacts but that they come from the market's own
      tables and the hash tells them apart: for every run from an empty market, and every listing of it that published
      its transfer, as no other did at its sequence. */
  lemma TablesSaleSettlesIff(w: Wallet, height: int, fundedZat: int, actions: seq<Action>, id: string,
                             zs: seq<ZcashPublication>, input: OwnershipInput)
    returns (pre: seq<CanonicalRecord>, offerEntry: CanonicalRecord, rest: seq<CanonicalRecord>)
    requires FreshRun(w, EmptyMarket(height, fundedZat), actions)
            && ChainGrows(w, EmptyMarket(height, fundedZat), actions)
    requires var world := Run(w, EmptyMarket(height, fundedZat), actions);
      && FromTables(world, input) && OnePerHash(w.p, world)
      && id in world.listings && world.listings[id].transferTxid.Some? && OnlyDelivery(world.listings, id)
      && LowerHex(world.listings[id].stampCommitmentHex)
      && world.listings[id].stampCommitmentHex in InitialStamps(input.stamps)
    requires input.destinationNetwork == w.network && input.records == Sort(RecordLess, RecordsOf(zs))
    requires forall z | z in Log(w, EmptyMarket(height, fundedZat), actions) :: Seen(zs, z, input.minConfirmations)
    ensures Run(w, EmptyMarket(height, fundedZat), actions).listings[id].offerArtifact.Some?
    ensures DecidedAt(w.p, Run(w, EmptyMarket(height, fundedZat), actions).listings[id], input, pre, offerEntry, rest)
  {
    var world := Run(w, EmptyMarket(height, fundedZat), actions);
    ReachedListing(w, height, fundedZat, actions, id);
    RunTable(w, height, fundedZat, actions);
    BothPublished(w, world.listings[id], Log(w, EmptyMarket(height, fundedZat), actions));
    TablesHoldArtifacts(w.p, world, id, input);
    pre, offerEntry, rest := RunSaleSettlesIff(w, height, fundedZat, actions, id, zs, input);
  }

  lemma BothPublished(w: Wallet, l: ListingRow, log: seq<ZcashPublication>)
    requires RowLogged(w, l, log) && l.transferTxid.Some?
    ensures l.offerArtifact.Some? && l.transferArtifact.Some?
  {
    var i, j :| 0 <= i < j < |log| && CarriesOffer(w, l, log[i]) && CarriesTransfer(w, l, log[j]);
  }
}
