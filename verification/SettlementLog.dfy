/** From runs of the listing workflow to the ledger: what a run publishes, and when its sales settle. */
module SettlementLog {
  import opened Bytes
  import opened Types
  import opened Transfer
  import opened Ordering
  import opened Ownership
  import OwnershipReplay
  import OwnershipSafety
  import opened DemoChain
  import opened Settlement
  import opened SettlementRuns
  import opened SettlementReplay

  /* ---------- what a run publishes ---------- */

  function SignedOffer(l: ListingRow, signature: string, key: string): SettlementOffer {
    UnsignedOffer(l).(ownerPublicKeyHex := key, signatureHex := signature)
  }

  function OfferTx(w: Wallet, world: World, l: ListingRow, signature: string, key: string): ZcashPublication
    requires DoPublishOffer(w, world, l, signature, key).Some?
  {
    PublishRecord(w, world.chain, OfferRecordOf(w.p, l, SignedOffer(l, signature, key)), None).value.1
  }

  function TransferTx(w: Wallet, world: World, l: ListingRow): ZcashPublication
    requires DoPublishTransfer(w, world, l).Some?
  {
    var auth := l.transferArtifact.value;
    PublishRecord(w, world.chain, TransferRecordOf(w.p, l, auth), Some(auth.toAddress)).value.1
  }

  /** The transaction an action publishes, if it does. */
  function Broadcast(w: Wallet, world: World, a: Action): seq<ZcashPublication> {
    if !(a.PublishOffer? || a.PublishTransfer?) || a.id !in world.listings then []
    else if RowStep(w, world, a, world.listings[a.id]).None? then []
    else
      var l := world.listings[a.id];
      if a.PublishOffer? then [OfferTx(w, world, l, a.signature, a.key)] else [TransferTx(w, world, l)]
  }

  /** The record transactions of a run, first one first. */
  function Log(w: Wallet, start: World, actions: seq<Action>): seq<ZcashPublication> {
    if actions == [] then []
    else
      var front := actions[..|actions| - 1];
      Log(w, start, front) + Broadcast(w, Run(w, start, front), actions[|actions| - 1])
  }

  /** Nothing that happens outside the market turns the chain back. */
  predicate ChainGrows(w: Wallet, start: World, actions: seq<Action>) {
    forall i | 0 <= i < |actions| && actions[i].Elsewhere? ::
      actions[i].height >= Run(w, start, actions[..i]).chain.height
  }

  predicate CarriesOffer(w: Wallet, l: ListingRow, z: ZcashPublication) {
    && l.offerArtifact.Some? && l.offerTxid == Some(z.txid) && z.height.Some?
    && var payload := EncodeRecord(OfferRecordOf(w.p, l, l.offerArtifact.value));
    && payload.Some? && z == RecordPublication(w.p, w.network, z.height.value, payload.value, None)
  }

  predicate CarriesTransfer(w: Wallet, l: ListingRow, z: ZcashPublication) {
    && l.transferArtifact.Some? && l.transferTxid == Some(z.txid) && z.height.Some?
    && var auth := l.transferArtifact.value;
    && var payload := EncodeRecord(TransferRecordOf(w.p, l, auth));
    && payload.Some? && z == RecordPublication(w.p, w.network, z.height.value, payload.value, Some(auth.toAddress))
  }

  predicate OfferLogged(w: Wallet, l: ListingRow, log: seq<ZcashPublication>) {
    exists i | 0 <= i < |log| :: CarriesOffer(w, l, log[i])
  }

  predicate BothLogged(w: Wallet, l: ListingRow, log: seq<ZcashPublication>) {
    exists i, j | 0 <= i < j < |log| :: CarriesOffer(w, l, log[i]) && CarriesTransfer(w, l, log[j])
  }

  /** A row's published artifacts are in the log, its offer before its transfer. */
  predicate RowLogged(w: Wallet, l: ListingRow, log: seq<ZcashPublication>) {
    && (l.offerArtifact.Some? ==> OfferLogged(w, l, log))
    && (l.transferTxid.Some? ==> BothLogged(w, l, log))
    && (IsLive(l) && Stage(l.state) < 5 ==> l.transferTxid.None?)
  }

  predicate HeightsRise(log: seq<ZcashPublication>, height: int) {
    && (forall i | 0 <= i < |log| :: log[i].height.Some? && log[i].height.value <= height)
    && (forall i, j | 0 <= i < j < |log| :: log[i].height.value < log[j].height.value)
  }

  ghost predicate Logged(w: Wallet, world: World, log: seq<ZcashPublication>) {
    && HeightsRise(log, world.chain.height)
    && forall id | id in world.listings :: RowLogged(w, world.listings[id], log)
  }

  lemma LoggedMore(w: Wallet, l: ListingRow, log: seq<ZcashPublication>, z: ZcashPublication)
    requires RowLogged(w, l, log)
    ensures RowLogged(w, l, log + [z])
  {
    var more := log + [z];
    if l.offerArtifact.Some? {
      var i :| 0 <= i < |log| && CarriesOffer(w, l, log[i]);
      assert CarriesOffer(w, l, more[i]);
    }
    if l.transferTxid.Some? {
      var i, j :| 0 <= i < j < |log| && CarriesOffer(w, l, log[i]) && CarriesTransfer(w, l, log[j]);
      assert CarriesOffer(w, l, more[i]) && CarriesTransfer(w, l, more[j]);
    }
  }

  /** The row has published what it had published, and no transfer if it is live and short of that. */
  predicate SamePublished(l: ListingRow, row: ListingRow) {
    && row.id == l.id && row.stampCommitmentHex == l.stampCommitmentHex && row.sequence == l.sequence
    && row.offerArtifact == l.offerArtifact && row.offerTxid == l.offerTxid
    && row.transferTxid == l.transferTxid && (l.transferTxid.Some? ==> row.transferArtifact == l.transferArtifact)
    && (IsLive(row) && Stage(row.state) < 5 ==> l.transferTxid.None?)
  }

  lemma CarriesSame(w: Wallet, l: ListingRow, row: ListingRow, z: ZcashPublication)
    requires row.stampCommitmentHex == l.stampCommitmentHex && row.sequence == l.sequence
    requires row.offerArtifact == l.offerArtifact && row.offerTxid == l.offerTxid
    requires CarriesOffer(w, l, z)
    ensures CarriesOffer(w, row, z)
  {
  }

  /** A row that has published nothing else is as well logged. */
  lemma LoggedSame(w: Wallet, l: ListingRow, row: ListingRow, log: seq<ZcashPublication>)
    requires RowLogged(w, l, log) && SamePublished(l, row)
    ensures RowLogged(w, row, log)
  {
    if l.offerArtifact.Some? {
      var i :| 0 <= i < |log| && CarriesOffer(w, l, log[i]);
      assert CarriesOffer(w, row, log[i]);
    }
    if l.transferTxid.Some? {
      var i, j :| 0 <= i < j < |log| && CarriesOffer(w, l, log[i]) && CarriesTransfer(w, l, log[j]);
      assert CarriesOffer(w, row, log[i]) && CarriesTransfer(w, row, log[j]);
    }
  }

  function OfferedRow(l: ListingRow, offer: SettlementOffer, z: ZcashPublication): ListingRow {
    l.(state := OfferPublished, offerArtifact := Some(offer), offerTxid := Some(z.txid))
  }

  function DeliveredRow(l: ListingRow, z: ZcashPublication): ListingRow {
    l.(state := TransferPublished, transferTxid := Some(z.txid))
  }

  lemma HeightsMore(log: seq<ZcashPublication>, height: int, z: ZcashPublication)
    requires HeightsRise(log, height) && z.height == Some(height + 1)
    ensures HeightsRise(log + [z], height + 1)
  {
  }

  lemma Recorded(w: Wallet, c: Chain, record: OnChainRecord, notice: Option<string>)
    requires PublishRecord(w, c, record, notice).Some?
    ensures var (chain, z) := PublishRecord(w, c, record, notice).value;
      && chain.height == c.height + 1 && z.height == Some(c.height + 1) && EncodeRecord(record).Some?
      && z == RecordPublication(w.p, w.network, c.height + 1, EncodeRecord(record).value, notice)
  {
  }

  lemma OfferRowLogged(w: Wallet, l: ListingRow, log: seq<ZcashPublication>, z: ZcashPublication,
                       offer: SettlementOffer)
    requires l.transferTxid.None?
    requires CarriesOffer(w, OfferedRow(l, offer, z), z)
    ensures RowLogged(w, OfferedRow(l, offer, z), log + [z])
  {
    assert (log + [z])[|log|] == z;
  }

  lemma PublishOfferStep(w: Wallet, world: World, l: ListingRow, signature: string, key: string)
    requires DoPublishOffer(w, world, l, signature, key).Some?
    ensures var next, z := DoPublishOffer(w, world, l, signature, key).value, OfferTx(w, world, l, signature, key);
      var row := OfferedRow(l, SignedOffer(l, signature, key), z);
      && next.listings == world.listings[l.id := row] && next.chain.height == world.chain.height + 1
      && l.state == Reserved && z.height == Some(world.chain.height + 1) && CarriesOffer(w, row, z)
  {
    Recorded(w, world.chain, OfferRecordOf(w.p, l, SignedOffer(l, signature, key)), None);
  }

  lemma TransferRowLogged(w: Wallet, l: ListingRow, row: ListingRow, log: seq<ZcashPublication>, z: ZcashPublication)
    requires row.stampCommitmentHex == l.stampCommitmentHex && row.sequence == l.sequence
    requires row.offerArtifact == l.offerArtifact && row.offerTxid == l.offerTxid && row.state == TransferPublished
    requires OfferLogged(w, l, log) && CarriesTransfer(w, row, z)
    ensures RowLogged(w, row, log + [z])
  {
    var more := log + [z];
    var i :| 0 <= i < |log| && CarriesOffer(w, l, log[i]);
    CarriesSame(w, l, row, log[i]);
    assert more[i] == log[i] && more[|log|] == z;
  }

  lemma PublishTransferStep(w: Wallet, world: World, l: ListingRow)
    requires DoPublishTransfer(w, world, l).Some?
    ensures var next, z := DoPublishTransfer(w, world, l).value, TransferTx(w, world, l);
      var row := DeliveredRow(l, z);
      && next.listings == world.listings[l.id := row] && next.chain.height == world.chain.height + 1
      && z.height == Some(world.chain.height + 1) && CarriesTransfer(w, row, z)
  {
    var auth := l.transferArtifact.value;
    Recorded(w, world.chain, TransferRecordOf(w.p, l, auth), Some(auth.toAddress));
  }

  lemma QuietStep(w: Wallet, world: World, a: Action, l: ListingRow)
    requires IsRowStep(a) && !a.PublishOffer? && !a.PublishTransfer? && RowStep(w, world, a, l).Some?
    requires IsLive(l) && Stage(l.state) < 5 ==> l.transferTxid.None?
    ensures var next := RowStep(w, world, a, l).value;
      && l.id in next.listings && next.listings == world.listings[l.id := next.listings[l.id]]
      && SamePublished(l, next.listings[l.id]) && next.chain.height >= world.chain.height
  {
  }

  lemma OneRowLogged(w: Wallet, world: World, next: World, id: string, row: ListingRow, log: seq<ZcashPublication>,
                     more: seq<ZcashPublication>)
    requires Logged(w, world, log) && |more| <= 1
    requires next.listings == world.listings[id := row]
    requires RowLogged(w, row, log + more) && HeightsRise(log + more, next.chain.height)
    ensures Logged(w, next, log + more)
  {
    forall j | j in next.listings && j != id ensures RowLogged(w, next.listings[j], log + more) {
      if more == [] {
        assert log + more == log;
      } else {
        assert more == [more[0]];
        LoggedMore(w, world.listings[j], log, more[0]);
      }
    }
  }

  lemma PublishOfferLogged(w: Wallet, world: World, l: ListingRow, log: seq<ZcashPublication>, signature: string,
                           key: string)
    requires Logged(w, world, log) && l.id in world.listings && world.listings[l.id] == l
    requires DoPublishOffer(w, world, l, signature, key).Some?
    ensures Logged(w, DoPublishOffer(w, world, l, signature, key).value, log + [OfferTx(w, world, l, signature, key)])
  {
    PublishOfferStep(w, world, l, signature, key);
    var z, offer := OfferTx(w, world, l, signature, key), SignedOffer(l, signature, key);
    HeightsMore(log, world.chain.height, z);
    assert RowLogged(w, l, log);
    OfferRowLogged(w, l, log, z, offer);
    OneRowLogged(w, world, DoPublishOffer(w, world, l, signature, key).value, l.id, OfferedRow(l, offer, z), log, [z]);
  }

  lemma PublishTransferLogged(w: Wallet, world: World, l: ListingRow, log: seq<ZcashPublication>)
    requires Logged(w, world, log) && l.id in world.listings && world.listings[l.id] == l && l.offerArtifact.Some?
    requires DoPublishTransfer(w, world, l).Some?
    ensures Logged(w, DoPublishTransfer(w, world, l).value, log + [TransferTx(w, world, l)])
  {
    PublishTransferStep(w, world, l);
    var z := TransferTx(w, world, l);
    HeightsMore(log, world.chain.height, z);
    assert RowLogged(w, l, log);
    TransferRowLogged(w, l, DeliveredRow(l, z), log, z);
    OneRowLogged(w, world, DoPublishTransfer(w, world, l).value, l.id, DeliveredRow(l, z), log, [z]);
  }

  lemma QuietStepLogged(w: Wallet, world: World, a: Action, l: ListingRow, log: seq<ZcashPublication>)
    requires Logged(w, world, log) && l.id in world.listings && world.listings[l.id] == l
    requires IsRowStep(a) && !a.PublishOffer? && !a.PublishTransfer? && RowStep(w, world, a, l).Some?
    ensures Logged(w, RowStep(w, world, a, l).value, log)
  {
    assert RowLogged(w, l, log);
    QuietStep(w, world, a, l);
    var next := RowStep(w, world, a, l).value;
    LoggedSame(w, l, next.listings[l.id], log);
    assert log + [] == log;
    OneRowLogged(w, world, next, l.id, next.listings[l.id], log, []);
  }

  lemma RowStepLogged(w: Wallet, world: World, a: Action, log: seq<ZcashPublication>)
    requires Inv(w.p, world) && Logged(w, world, log)
    requires IsRowStep(a) && a.id in world.listings && RowStep(w, world, a, world.listings[a.id]).Some?
    ensures Logged(w, RowStep(w, world, a, world.listings[a.id]).value, log + Broadcast(w, world, a))
  {
    var l := world.listings[a.id];
    assert RowOk(w.p, l, world.chain.escrows);
    if a.PublishOffer? {
      PublishOfferLogged(w, world, l, log, a.signature, a.key);
    } else if a.PublishTransfer? {
      PublishTransferLogged(w, world, l, log);
    } else {
      QuietStepLogged(w, world, a, l, log);
      assert log + Broadcast(w, world, a) == log;
    }
  }

  lemma ReconcileLogged(w: Wallet, world: World, stamps: map<string, StampOwnership>, log: seq<ZcashPublication>)
    requires Logged(w, world, log)
    ensures Logged(w, DoReconcile(world, stamps), log)
  {
    var next := DoReconcile(world, stamps);
    forall id | id in next.listings ensures RowLogged(w, next.listings[id], log) {
      var l := world.listings[id];
      assert RowLogged(w, l, log);
      LoggedSame(w, l, next.listings[id], log);
    }
  }

  lemma ListLogged(w: Wallet, world: World, a: Action, log: seq<ZcashPublication>)
    requires Logged(w, world, log) && a.List?
    ensures Logged(w, Perform(w, world, a), log)
  {
    var next := Perform(w, world, a);
    forall id | id in next.listings ensures RowLogged(w, next.listings[id], log) {
      if id in world.listings && next.listings[id] == world.listings[id] {
        assert RowLogged(w, world.listings[id], log);
      }
    }
  }

  /** Every action adds what it publishes to the log, and leaves every row's publications in it. */
  lemma PerformLogged(w: Wallet, world: World, a: Action, log: seq<ZcashPublication>)
    requires Inv(w.p, world) && Logged(w, world, log)
    requires a.Elsewhere? ==> a.height >= world.chain.height
    ensures Logged(w, Perform(w, world, a), log + Broadcast(w, world, a))
  {
    if IsRowStep(a) {
      if a.id in world.listings && RowStep(w, world, a, world.listings[a.id]).Some? {
        RowStepLogged(w, world, a, log);
      } else {
        assert log + Broadcast(w, world, a) == log;
      }
    } else {
      assert log + Broadcast(w, world, a) == log;
      if a.List? { ListLogged(w, world, a, log); }
      if a.Reconcile? { ReconcileLogged(w, world, a.stamps, log); }
    }
  }

  lemma GrowsFront(w: Wallet, start: World, actions: seq<Action>)
    requires ChainGrows(w, start, actions) && actions != []
    ensures ChainGrows(w, start, actions[..|actions| - 1])
  {
    var front := actions[..|actions| - 1];
    forall i | 0 <= i < |front| && front[i].Elsewhere?
      ensures front[i].height >= Run(w, start, front[..i]).chain.height
    {
      assert front[..i] == actions[..i];
    }
  }

  lemma {:induction false} RunLogged(w: Wallet, start: World, actions: seq<Action>)
    requires Inv(w.p, start) && Logged(w, start, [])
    requires FreshRun(w, start, actions) && ChainGrows(w, start, actions)
    ensures Logged(w, Run(w, start, actions), Log(w, start, actions))
  {
    if actions != [] {
      var front, last := actions[..|actions| - 1], actions[|actions| - 1];
      FreshFront(w, start, actions);
      GrowsFront(w, start, actions);
      RunLogged(w, start, front);
      RunKeeps(w, start, front);
      PerformLogged(w, Run(w, start, front), last, Log(w, start, front));
    }
  }

  /* ---------- what the indexer makes of it ---------- */

  /** The indexer sees the publication in the best chain, deep enough. */
  ghost predicate Seen(zs: seq<ZcashPublication>, z: ZcashPublication, minConfirmations: int) {
    exists y | y in zs :: y == z.(confirmations := y.confirmations) && y.confirmations >= minConfirmations
  }

  /** Nothing else is published under the listing's two hashes. */
  ghost predicate ArtifactsSeen(p: Primitives, input: OwnershipInput, l: ListingRow)
    requires l.offerArtifact.Some? && l.transferArtifact.Some?
  {
    && l.offerArtifact.value in input.offerArtifacts && l.transferArtifact.value in input.transferArtifacts
    && (forall o | o in input.offerArtifacts && OfferHash(p, o) == OfferHash(p, l.offerArtifact.value) ::
          o == l.offerArtifact.value)
    && (forall a | a in input.transferArtifacts && TransferHash(p, a) == TransferHash(p, l.transferArtifact.value) ::
          a == l.transferArtifact.value)
  }

  lemma SeenArtifactsPublic(p: Primitives, input: OwnershipInput, l: ListingRow)
    requires l.offerArtifact.Some? && l.transferArtifact.Some? && ArtifactsSeen(p, input, l)
    ensures ArtifactsPublic(ContextOf(p, input), l)
  {
    OwnershipSafety.IndexByKey(OfferKey(p), input.offerArtifacts);
    OwnershipSafety.IndexByKey(TransferKey(p), input.transferArtifacts);
    assert OfferKey(p)(l.offerArtifact.value) == OfferHash(p, l.offerArtifact.value);
    assert TransferKey(p)(l.transferArtifact.value) == TransferHash(p, l.transferArtifact.value);
  }

  /** A record published at a height and seen there is one of the indexer's records. */
  lemma SeenRecord(w: Wallet, zs: seq<ZcashPublication>, height: int, record: OnChainRecord, notice: Option<string>,
                   minConfirmations: int)
    returns (entry: CanonicalRecord)
    requires EncodeRecord(record).Some? && LowerHex(record.stampCommitmentHex) && LowerHex(record.artifactHashHex)
    requires Seen(zs, RecordPublication(w.p, w.network, height, EncodeRecord(record).value, notice), minConfirmations)
    ensures entry in RecordsOf(zs) && entry.record == record && entry.height == height
    ensures entry.txid == RecordPublication(w.p, w.network, height, EncodeRecord(record).value, notice).txid
    ensures entry.network == w.network && entry.inBestChain && entry.confirmations >= minConfirmations
  {
    var z := RecordPublication(w.p, w.network, height, EncodeRecord(record).value, notice);
    var y :| y in zs && y == z.(confirmations := y.confirmations) && y.confirmations >= minConfirmations;
    PublishedFields(record);
    PublicationReads(w.p, w.network, height, record, notice, y.confirmations);
    entry := CanonicalRecord(z.txid, height, |NoticeOutputs(notice)|, y.confirmations, true, w.network, record);
    assert entry in RecordsOfOutputs(y, y.outputs);
    RecordsSeen(zs, y, entry);
  }

  /** Both records of a listing that published its transfer are among the indexer's, the offer's first. */
  lemma BothSeen(w: Wallet, l: ListingRow, log: seq<ZcashPublication>, height: int, zs: seq<ZcashPublication>,
                 input: OwnershipInput)
    returns (offerEntry: CanonicalRecord, transferEntry: CanonicalRecord)
    requires BothLogged(w, l, log) && HeightsRise(log, height) && LowerHex(l.stampCommitmentHex)
    requires forall z | z in log :: Seen(zs, z, input.minConfirmations)
    requires input.destinationNetwork == w.network && input.records == Sort(RecordLess, RecordsOf(zs))
    requires l.offerArtifact.Some? && l.transferArtifact.Some? && ArtifactsSeen(w.p, input, l)
    ensures offerEntry in input.records && transferEntry in input.records && offerEntry.height < transferEntry.height
    ensures Some(offerEntry.txid) == l.offerTxid && Some(transferEntry.txid) == l.transferTxid
    ensures Arrived(ContextOf(w.p, input), l, offerEntry, transferEntry)
  {
    var i, j :| 0 <= i < j < |log| && CarriesOffer(w, l, log[i]) && CarriesTransfer(w, l, log[j]);
    assert log[i] in log && log[j] in log;
    var auth := l.transferArtifact.value;
    offerEntry := SeenRecord(w, zs, log[i].height.value, OfferRecordOf(w.p, l, l.offerArtifact.value), None,
                             input.minConfirmations);
    transferEntry := SeenRecord(w, zs, log[j].height.value, TransferRecordOf(w.p, l, auth), Some(auth.toAddress),
                                input.minConfirmations);
    SortElements(RecordLess, RecordsOf(zs));
    SeenArtifactsPublic(w.p, input, l);
  }

  /** Two records of a sorted list, the lower first. */
  lemma SplitAtBoth(entries: seq<CanonicalRecord>, x: CanonicalRecord, y: CanonicalRecord)
    returns (pre: seq<CanonicalRecord>, mid: seq<CanonicalRecord>, post: seq<CanonicalRecord>)
    requires Sorted(RecordLess, entries) && x in entries && y in entries && x.height < y.height
    ensures entries == pre + [x] + (mid + [y] + post)
  {
    var i :| 0 <= i < |entries| && entries[i] == x;
    var j :| 0 <= j < |entries| && entries[j] == y;
    assert RecordLess(x, y);
    pre, mid, post := entries[..i], entries[i + 1..j], entries[j + 1..];
    assert entries[i..] == [x] + entries[i + 1..];
  }

  /** The indexer sees a run's publications confirmed, among any others, and the artifacts of one of its listings, whose
      stamp it knows by its lower-case commitment. */
  ghost predicate Indexed(w: Wallet, l: ListingRow, log: seq<ZcashPublication>, zs: seq<ZcashPublication>,
                          input: OwnershipInput)
  {
    && input.destinationNetwork == w.network && input.records == Sort(RecordLess, RecordsOf(zs))
    && (forall z | z in log :: Seen(zs, z, input.minConfirmations))
    && l.offerArtifact.Some? && l.transferArtifact.Some? && ArtifactsSeen(w.p, input, l)
    && LowerHex(l.stampCommitmentHex) && l.stampCommitmentHex in InitialStamps(input.stamps)
  }

  /** The resolution comes to the listing's offer after these records; with what it has then it decides the sale: it
      ends in the books exactly if the listing is open, or was sold already. */
  ghost predicate DecidedAt(p: Primitives, l: ListingRow, input: OwnershipInput, pre: seq<CanonicalRecord>,
                            offerEntry: CanonicalRecord, rest: seq<CanonicalRecord>)
    requires l.offerArtifact.Some?
  {
    var c, k := ContextOf(p, input), l.stampCommitmentHex;
    && Sort(RecordLess, input.records) == pre + [offerEntry] + rest
    && Some(offerEntry.txid) == l.offerTxid && offerEntry.record == OfferRecordOf(p, l, l.offerArtifact.value)
    && k in Replay(c, Start(input.stamps), pre).stamps
    && (ListedInTime(l, StampAfter(c, input.stamps, pre, k), offerEntry, rest) ==>
          (SaleBooked(p, l, Resolution(p, input))
           <==> Open(p, l, StampAfter(c, input.stamps, pre, k))
                || SaleBooked(p, l, Replay(c, Start(input.stamps), pre))))
  }

  lemma StillKnown(c: Context, stamps: seq<IssuedStamp>, entries: seq<CanonicalRecord>, k: string)
    requires k in InitialStamps(stamps)
    ensures k in Replay(c, Start(stamps), entries).stamps
  {
    OwnershipReplay.ReplayGrows(c, Start(stamps), entries);
  }

  lemma RecordsDecide(p: Primitives, l: ListingRow, escrows: map<string, Htlc>, input: OwnershipInput,
                      pre: seq<CanonicalRecord>, offerEntry: CanonicalRecord, mid: seq<CanonicalRecord>,
                      transferEntry: CanonicalRecord, post: seq<CanonicalRecord>)
    requires RowOk(p, l, escrows) && Arrived(ContextOf(p, input), l, offerEntry, transferEntry)
    requires l.stampCommitmentHex in InitialStamps(input.stamps) && Some(offerEntry.txid) == l.offerTxid
    requires Sort(RecordLess, input.records) == pre + [offerEntry] + (mid + [transferEntry] + post)
    ensures DecidedAt(p, l, input, pre, offerEntry, mid + [transferEntry] + post)
  {
    var c, rest := ContextOf(p, input), mid + [transferEntry] + post;
    StillKnown(c, input.stamps, pre, l.stampCommitmentHex);
    if ListedInTime(l, StampAfter(c, input.stamps, pre, l.stampCommitmentHex), offerEntry, rest) {
      SaleSettlesIff(c, l, escrows, input.stamps, pre, offerEntry, mid, transferEntry, post);
    }
  }

  lemma ListingDecided(w: Wallet, l: ListingRow, escrows: map<string, Htlc>, log: seq<ZcashPublication>, height: int,
                       zs: seq<ZcashPublication>, input: OwnershipInput)
    returns (pre: seq<CanonicalRecord>, offerEntry: CanonicalRecord, rest: seq<CanonicalRecord>)
    requires RowOk(w.p, l, escrows) && BothLogged(w, l, log) && HeightsRise(log, height)
            && Indexed(w, l, log, zs, input)
    ensures DecidedAt(w.p, l, input, pre, offerEntry, rest)
  {
    var transferEntry;
    offerEntry, transferEntry := BothSeen(w, l, log, height, zs, input);
    OwnershipReplay.CanonicalOrderIsWeak();
    SortSorted(RecordLess, input.records);
    SortElements(RecordLess, input.records);
    var mid, post;
    pre, mid, post := SplitAtBoth(Sort(RecordLess, input.records), offerEntry, transferEntry);
    rest := mid + [transferEntry] + post;
    RecordsDecide(w.p, l, escrows, input, pre, offerEntry, mid, transferEntry, post);
  }

  lemma ReachedListing(w: Wallet, height: int, fundedZat: int, actions: seq<Action>, id: string)
    requires FreshRun(w, EmptyMarket(height, fundedZat), actions)
            && ChainGrows(w, EmptyMarket(height, fundedZat), actions)
    requires id in Run(w, EmptyMarket(height, fundedZat), actions).listings
    ensures var world, log := Run(w, EmptyMarket(height, fundedZat), actions),
                              Log(w, EmptyMarket(height, fundedZat), actions);
      RowOk(w.p, world.listings[id], world.chain.escrows) && RowLogged(w, world.listings[id], log)
      && HeightsRise(log, world.chain.height)
  {
    RunKeeps(w, EmptyMarket(height, fundedZat), actions);
    RunLogged(w, EmptyMarket(height, fundedZat), actions);
  }

  /** For every run of the workflow from an empty market, and every listing of it that has published its transfer:
      once the indexer sees both, among whatever else is on the chain, the resolution books the listing's sale if and
      only if, when it comes to the listing's offer, the stamp still stands where it was listed, with its seller and
      no other listing's offer bound there, or the sale is made already. */
  lemma RunSaleSettlesIff(w: Wallet, height: int, fundedZat: int, actions: seq<Action>, id: string,
                          zs: seq<ZcashPublication>, input: OwnershipInput)
    returns (pre: seq<CanonicalRecord>, offerEntry: CanonicalRecord, rest: seq<CanonicalRecord>)
    requires FreshRun(w, EmptyMarket(height, fundedZat), actions)
            && ChainGrows(w, EmptyMarket(height, fundedZat), actions)
    requires id in Run(w, EmptyMarket(height, fundedZat), actions).listings
    requires Run(w, EmptyMarket(height, fundedZat), actions).listings[id].transferTxid.Some?
    requires Indexed(w, Run(w, EmptyMarket(height, fundedZat), actions).listings[id],
                     Log(w, EmptyMarket(height, fundedZat), actions), zs, input)
    ensures DecidedAt(w.p, Run(w, EmptyMarket(height, fundedZat), actions).listings[id], input, pre, offerEntry, rest)
  {
    var world, log := Run(w, EmptyMarket(height, fundedZat), actions), Log(w, EmptyMarket(height, fundedZat), actions);
    ReachedListing(w, height, fundedZat, actions, id);
    pre, offerEntry, rest := ListingDecided(w, world.listings[id], world.chain.escrows, log, world.chain.height, zs,
                                            input);
  }
}
