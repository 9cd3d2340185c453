/** Deterministic ownership resolution: the canonical records are sorted and folded into
    one ownership chain per stamp. */
module Ownership {
  import opened Bytes
  import opened Types
  import opened Transfer
  import opened Ordering

  datatype CanonicalRecord = CanonicalRecord(
    txid: string, height: int, outputIndex: int, confirmations: int, inBestChain: bool,
    network: DestNetwork, record: OnChainRecord)

  datatype OwnershipEvent = OwnershipEvent(
    sequence: int, fromAddress: string, toAddress: string, txid: string, height: int,
    offerHashHex: string, priceZat: Option<string>)

  datatype BoundOffer = BoundOffer(offerHashHex: string, offer: SettlementOffer)

  datatype StampOwnership = StampOwnership(
    stampCommitmentHex: string, originalRecipient: string, currentOwner: string, sequence: int,
    history: seq<OwnershipEvent>, boundOffers: map<int, BoundOffer>, transferable: bool)

  datatype IssuedStamp = IssuedStamp(commitmentHex: string, originalRecipient: string)

  datatype OwnershipInput = OwnershipInput(
    destinationNetwork: DestNetwork, minConfirmations: int, stamps: seq<IssuedStamp>,
    records: seq<CanonicalRecord>, transferArtifacts: seq<TransferAuthorization>,
    offerArtifacts: seq<SettlementOffer>)

  datatype RejectReason =
    | UnauthorizedTransfer | WrongSequence | ConflictingTransfer | ConflictingOffer
    | OfferMismatch | HashLockUnsatisfied | UnknownStamp | AuthorizationMissing | WrongNetwork

  datatype PendingReason =
    | AwaitingConfirmations | NotInBestChain | OfferArtifactUnavailable | AuthorizationUnavailable

  datatype PendingRow = PendingRow(txid: string, stampCommitmentHex: string, reason: PendingReason)
  datatype RejectedRow = RejectedRow(txid: string, stampCommitmentHex: string, reason: RejectReason)
  datatype Sale = Sale(
    stampCommitmentHex: string, sequence: int, seller: string, buyer: string, priceZat: string,
    txid: string, height: int)

  datatype State = State(
    stamps: map<string, StampOwnership>, pending: seq<PendingRow>, rejected: seq<RejectedRow>,
    sales: seq<Sale>)

  /** What stays fixed during a replay. */
  datatype Context = Context(
    p: Primitives, network: DestNetwork, minConfirmations: int,
    transfers: map<string, TransferAuthorization>, offers: map<string, SettlementOffer>)

  datatype Check = Passed | Refused(reason: RejectReason)

  /* ---------- canonical order ---------- */

  function CompareRecords(a: CanonicalRecord, b: CanonicalRecord): int {
    if a.height != b.height then a.height - b.height
    else if a.txid != b.txid then (if StringLess(a.txid, b.txid) then -1 else 1)
    else a.outputIndex - b.outputIndex
  }

  predicate RecordLess(a: CanonicalRecord, b: CanonicalRecord) {
    CompareRecords(a, b) < 0
  }

  /** The record an output carries, or none. */
  function RecordsOfOutput(z: ZcashPublication, output: ZcashOutput): seq<CanonicalRecord> {
    match output.nullData
    case None => []
    case Some(data) =>
      match DecodeRecord(data)
      case None => []
      case Some(record) =>
        [CanonicalRecord(z.txid, if z.height.Some? then z.height.value else 0, output.index,
                         z.confirmations, z.inBestChain, z.network, record)]
  }

  function RecordsOfOutputs(z: ZcashPublication, outputs: seq<ZcashOutput>): seq<CanonicalRecord> {
    if outputs == [] then []
    else RecordsOfOutputs(z, outputs[..|outputs| - 1]) + RecordsOfOutput(z, outputs[|outputs| - 1])
  }

  function RecordsOf(publications: seq<ZcashPublication>): seq<CanonicalRecord> {
    if publications == [] then []
    else
      var last := publications[|publications| - 1];
      RecordsOf(publications[..|publications| - 1]) + RecordsOfOutputs(last, last.outputs)
  }

  method RecordsFromPublications(publications: seq<ZcashPublication>) returns (out: seq<CanonicalRecord>)
    ensures out == Sort(RecordLess, RecordsOf(publications))
  {
    out := [];
    for i := 0 to |publications|
      invariant out == RecordsOf(publications[..i])
    {
      assert publications[..i + 1][..i] == publications[..i];
      out := AppendRecords(publications[i], out);
    }
    assert publications[..|publications|] == publications;
    out := Sort(RecordLess, out);
  }

  /** The inner loop over a publication's outputs. */
  method AppendRecords(z: ZcashPublication, before: seq<CanonicalRecord>) returns (out: seq<CanonicalRecord>)
    ensures out == before + RecordsOfOutputs(z, z.outputs)
  {
    out := before;
    for j := 0 to |z.outputs|
      invariant out == before + RecordsOfOutputs(z, z.outputs[..j])
    {
      assert z.outputs[..j + 1][..j] == z.outputs[..j];
      out := out + RecordsOfOutput(z, z.outputs[j]);
    }
    assert z.outputs[..|z.outputs|] == z.outputs;
  }

  /* ---------- the replay ---------- */

  function FreshStamp(stamp: IssuedStamp): StampOwnership {
    StampOwnership(stamp.commitmentHex, stamp.originalRecipient, stamp.originalRecipient, 0, [], map[], true)
  }

  function InitialStamps(stamps: seq<IssuedStamp>): map<string, StampOwnership> {
    if stamps == [] then map[]
    else
      var last := stamps[|stamps| - 1];
      InitialStamps(stamps[..|stamps| - 1])[last.commitmentHex := FreshStamp(last)]
  }

  /** `index.set(key(a), a)` over a list: the last artifact with a key wins. */
  function IndexBy<A>(key: A -> string, artifacts: seq<A>): map<string, A> {
    if artifacts == [] then map[]
    else
      var last := artifacts[|artifacts| - 1];
      IndexBy(key, artifacts[..|artifacts| - 1])[key(last) := last]
  }

  function TransferKey(p: Primitives): TransferAuthorization -> string { a => TransferHash(p, a) }

  function OfferKey(p: Primitives): SettlementOffer -> string { o => OfferHash(p, o) }

  function CheckTransfer(p: Primitives, stamp: StampOwnership, auth: TransferAuthorization,
                         record: OnChainRecord): Check
  {
    if auth.stampCommitmentHex != record.stampCommitmentHex || auth.sequence != record.sequence then
      Refused(UnauthorizedTransfer)
    else if record.sequence != stamp.sequence + 1 then Refused(WrongSequence)
    else if auth.fromAddress != stamp.currentOwner then Refused(UnauthorizedTransfer)
    else if !TransferSigned(p, auth) then Refused(UnauthorizedTransfer)
    else if record.sequence !in stamp.boundOffers then
      if auth.offerHashHex != "none" then Refused(OfferMismatch) else Passed
    else
      var bound := stamp.boundOffers[record.sequence];
      if auth.offerHashHex != bound.offerHashHex then Refused(OfferMismatch)
      else if auth.toAddress != bound.offer.buyerAddress then Refused(OfferMismatch)
      else if !VerifyHashLock(p, bound.offer.hashLockHex, auth.preimageHex) then Refused(HashLockUnsatisfied)
      else Passed
  }

  function CheckOffer(p: Primitives, stamp: StampOwnership, offer: SettlementOffer, record: OnChainRecord): Check {
    if offer.stampCommitmentHex != record.stampCommitmentHex || offer.sequence != record.sequence then
      Refused(OfferMismatch)
    else if record.sequence != stamp.sequence + 1 then Refused(WrongSequence)
    else if offer.sellerAddress != stamp.currentOwner then Refused(UnauthorizedTransfer)
    else if !OfferSigned(p, offer) then Refused(UnauthorizedTransfer)
    else Passed
  }

  /** What one record comes to. */
  datatype Outcome =
    | Rejects(reject: RejectReason)
    | Parks(park: PendingReason)
    | Binds(offer: SettlementOffer)
    | Moves(auth: TransferAuthorization)

  /** The verdict on a record, given the stamp it names. */
  function Decide(c: Context, found: Option<StampOwnership>, entry: CanonicalRecord): (o: Outcome)
    ensures o.Binds? || o.Moves? ==>
      && found.Some? && entry.network == c.network && entry.inBestChain && entry.confirmations >= c.minConfirmations
      && entry.record.sequence == found.value.sequence + 1
    ensures o.Binds? ==>
      && entry.record.sequence !in found.value.boundOffers
      && o.offer.sellerAddress == found.value.currentOwner && OfferSigned(c.p, o.offer)
    ensures o.Moves? ==> o.auth.fromAddress == found.value.currentOwner && TransferSigned(c.p, o.auth)
    ensures o.Moves? && entry.record.sequence in found.value.boundOffers ==>
      var bound := found.value.boundOffers[entry.record.sequence];
      && o.auth.offerHashHex == bound.offerHashHex && o.auth.toAddress == bound.offer.buyerAddress
      && VerifyHashLock(c.p, bound.offer.hashLockHex, o.auth.preimageHex)
  {
    var r := entry.record;
    if found.None? then Rejects(UnknownStamp)
    else if entry.network != c.network then Rejects(WrongNetwork)
    else if !entry.inBestChain || entry.confirmations < c.minConfirmations then
      Parks(if entry.inBestChain then AwaitingConfirmations else NotInBestChain)
    else if r.kind.OfferRecord? then
      if r.artifactHashHex !in c.offers then Parks(OfferArtifactUnavailable)
      else
        var offer := c.offers[r.artifactHashHex];
        var check := CheckOffer(c.p, found.value, offer, r);
        if check.Refused? then Rejects(check.reason)
        else if r.sequence in found.value.boundOffers then Rejects(ConflictingOffer)
        else Binds(offer)
    else if r.artifactHashHex !in c.transfers then Parks(AuthorizationUnavailable)
    else
      var auth := c.transfers[r.artifactHashHex];
      var check := CheckTransfer(c.p, found.value, auth, r);
      if check.Refused? then Rejects(check.reason) else Moves(auth)
  }

  function Bound(stamp: StampOwnership, entry: CanonicalRecord, offer: SettlementOffer): StampOwnership {
    stamp.(boundOffers := stamp.boundOffers[entry.record.sequence := BoundOffer(entry.record.artifactHashHex, offer)])
  }

  function PriceAt(stamp: StampOwnership, sequence: int): Option<string> {
    if sequence in stamp.boundOffers then Some(stamp.boundOffers[sequence].offer.priceZat) else None
  }

  function Moved(stamp: StampOwnership, entry: CanonicalRecord, auth: TransferAuthorization): StampOwnership {
    var n := entry.record.sequence;
    stamp.(
      history := stamp.history + [OwnershipEvent(n, auth.fromAddress, auth.toAddress, entry.txid, entry.height,
                                                 auth.offerHashHex, PriceAt(stamp, n))],
      currentOwner := auth.toAddress,
      sequence := n)
  }

  /** The sale row an accepted transfer adds: one if an offer is bound at its sequence. */
  function SaleRows(stamp: StampOwnership, entry: CanonicalRecord, auth: TransferAuthorization): seq<Sale> {
    match PriceAt(stamp, entry.record.sequence)
    case None => []
    case Some(price) => [Sale(entry.record.stampCommitmentHex, entry.record.sequence, auth.fromAddress,
                              auth.toAddress, price, entry.txid, entry.height)]
  }

  function Find(st: State, k: string): Option<StampOwnership> {
    if k in st.stamps then Some(st.stamps[k]) else None
  }

  /** Carries a verdict out. */
  function Execute(st: State, entry: CanonicalRecord, o: Outcome): State
    requires o.Binds? || o.Moves? ==> entry.record.stampCommitmentHex in st.stamps
  {
    var k := entry.record.stampCommitmentHex;
    match o
    case Rejects(reason) => st.(rejected := st.rejected + [RejectedRow(entry.txid, k, reason)])
    case Parks(reason) => st.(pending := st.pending + [PendingRow(entry.txid, k, reason)])
    case Binds(offer) => st.(stamps := st.stamps[k := Bound(st.stamps[k], entry, offer)])
    case Moves(auth) =>
      st.(stamps := st.stamps[k := Moved(st.stamps[k], entry, auth)],
          sales := st.sales + SaleRows(st.stamps[k], entry, auth))
  }

  /** One pass of the replay loop. */
  function Step(c: Context, st: State, entry: CanonicalRecord): State {
    Execute(st, entry, Decide(c, Find(st, entry.record.stampCommitmentHex), entry))
  }

  /** The state after a run of records, first record first. */
  function Replay(c: Context, st: State, entries: seq<CanonicalRecord>): State {
    if entries == [] then st
    else Step(c, Replay(c, st, entries[..|entries| - 1]), entries[|entries| - 1])
  }

  function Start(stamps: seq<IssuedStamp>): State {
    State(InitialStamps(stamps), [], [], [])
  }

  function ContextOf(p: Primitives, input: OwnershipInput): Context {
    Context(p, input.destinationNetwork, input.minConfirmations,
            IndexBy(TransferKey(p), input.transferArtifacts), IndexBy(OfferKey(p), input.offerArtifacts))
  }

  /** The replay as a function of its input. */
  function Resolution(p: Primitives, input: OwnershipInput): State {
    Replay(ContextOf(p, input), Start(input.stamps), Sort(RecordLess, input.records))
  }

  method IndexStamps(issued: seq<IssuedStamp>) returns (stamps: map<string, StampOwnership>)
    ensures stamps == InitialStamps(issued)
  {
    stamps := map[];
    for i := 0 to |issued|
      invariant stamps == InitialStamps(issued[..i])
    {
      var stamp := issued[i];
      stamps := stamps[stamp.commitmentHex := FreshStamp(stamp)];
      assert issued[..i + 1][..i] == issued[..i];
    }
    assert issued[..|issued|] == issued;
  }

  method ResolveOwnership(p: Primitives, input: OwnershipInput) returns (out: State)
    ensures out == Resolution(p, input)
  {
    var stamps := IndexStamps(input.stamps);
    var transfersByHash := IndexArtifacts(TransferKey(p), input.transferArtifacts);
    var offersByHash := IndexArtifacts(OfferKey(p), input.offerArtifacts);
    var c := Context(p, input.destinationNetwork, input.minConfirmations, transfersByHash, offersByHash);
    var sorted := Sort(RecordLess, input.records);
    ghost var start := Start(input.stamps);
    out := State(stamps, [], [], []);
    for i := 0 to |sorted|
      invariant out == Replay(c, start, sorted[..i])
    {
      assert sorted[..i + 1][..i] == sorted[..i];
      out := ApplyRecord(c, out, sorted[i]);
    }
    assert sorted[..|sorted|] == sorted;
  }

  /** The loop's body: files the record as rejected, pending, a binding offer or a move. */
  method ApplyRecord(c: Context, before: State, entry: CanonicalRecord) returns (after: State)
    ensures after == Step(c, before, entry)
  {
    var State(stamps, pending, rejected, sales) := before;
    var r := entry.record;
    if r.stampCommitmentHex !in stamps {
      rejected := rejected + [RejectedRow(entry.txid, r.stampCommitmentHex, UnknownStamp)];
    } else if entry.network != c.network {
      rejected := rejected + [RejectedRow(entry.txid, r.stampCommitmentHex, WrongNetwork)];
    } else if !entry.inBestChain || entry.confirmations < c.minConfirmations {
      pending := pending + [PendingRow(entry.txid, r.stampCommitmentHex,
                                       if entry.inBestChain then AwaitingConfirmations else NotInBestChain)];
    } else if r.kind.OfferRecord? {
      after := ApplyOffer(c, before, entry);
      return;
    } else {
      after := ApplyTransfer(c, before, entry);
      return;
    }
    after := State(stamps, pending, rejected, sales);
  }

  /** A settled record of a known stamp. */
  predicate Settled(c: Context, st: State, entry: CanonicalRecord) {
    && entry.record.stampCommitmentHex in st.stamps && entry.network == c.network
    && entry.inBestChain && entry.confirmations >= c.minConfirmations
  }

  method ApplyOffer(c: Context, before: State, entry: CanonicalRecord) returns (after: State)
    requires Settled(c, before, entry) && entry.record.kind.OfferRecord?
    ensures after == Step(c, before, entry)
  {
    var State(stamps, pending, rejected, sales) := before;
    var r := entry.record;
    var stamp := stamps[r.stampCommitmentHex];
    if r.artifactHashHex !in c.offers {
      pending := pending + [PendingRow(entry.txid, r.stampCommitmentHex, OfferArtifactUnavailable)];
    } else {
      var offer := c.offers[r.artifactHashHex];
      var check := CheckOffer(c.p, stamp, offer, r);
      if check.Refused? {
        rejected := rejected + [RejectedRow(entry.txid, r.stampCommitmentHex, check.reason)];
      } else if r.sequence in stamp.boundOffers {
        rejected := rejected + [RejectedRow(entry.txid, r.stampCommitmentHex, ConflictingOffer)];
      } else {
        stamps := stamps[r.stampCommitmentHex :=
          stamp.(boundOffers := stamp.boundOffers[r.sequence := BoundOffer(r.artifactHashHex, offer)])];
      }
    }
    after := State(stamps, pending, rejected, sales);
  }

  method ApplyTransfer(c: Context, before: State, entry: CanonicalRecord) returns (after: State)
    requires Settled(c, before, entry) && entry.record.kind.TransferRecord?
    ensures after == Step(c, before, entry)
  {
    var State(stamps, pending, rejected, sales) := before;
    var r := entry.record;
    var stamp := stamps[r.stampCommitmentHex];
    if r.artifactHashHex !in c.transfers {
      pending := pending + [PendingRow(entry.txid, r.stampCommitmentHex, AuthorizationUnavailable)];
    } else {
      var auth := c.transfers[r.artifactHashHex];
      var check := CheckTransfer(c.p, stamp, auth, r);
      if check.Refused? {
        rejected := rejected + [RejectedRow(entry.txid, r.stampCommitmentHex, check.reason)];
      } else {
        var price := PriceAt(stamp, r.sequence);
        stamp := stamp.(history := stamp.history + [
          OwnershipEvent(r.sequence, auth.fromAddress, auth.toAddress, entry.txid, entry.height,
                         auth.offerHashHex, price)]);
        stamp := stamp.(currentOwner := auth.toAddress);
        stamp := stamp.(sequence := r.sequence);
        stamps := stamps[r.stampCommitmentHex := stamp];
        if price.Some? {
          sales := sales + [Sale(r.stampCommitmentHex, r.sequence, auth.fromAddress, auth.toAddress,
                                 price.value, entry.txid, entry.height)];
        }
      }
    }
    after := State(stamps, pending, rejected, sales);
  }

  method IndexArtifacts<A>(key: A -> string, artifacts: seq<A>) returns (index: map<string, A>)
    ensures index == IndexBy(key, artifacts)
  {
    index := map[];
    for i := 0 to |artifacts|
      invariant index == IndexBy(key, artifacts[..i])
    {
      index := index[key(artifacts[i]) := artifacts[i]];
      assert artifacts[..i + 1][..i] == artifacts[..i];
    }
    assert artifacts[..|artifacts|] == artifacts;
  }
}
