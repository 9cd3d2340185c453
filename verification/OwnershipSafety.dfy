/** What holds of every state the ownership replay reaches, whatever records it is given. */
module OwnershipSafety {
  import opened Transfer
  import opened Ordering
  import opened Ownership

  /** The owner after the first n moves. */
  function OwnerAfter(s: StampOwnership, n: nat): string
    requires n <= |s.history|
  {
    if n == 0 then s.originalRecipient else s.history[n - 1].toAddress
  }

  predicate Confirmed(c: Context, entry: CanonicalRecord) {
    entry.network == c.network && entry.inBestChain && entry.confirmations >= c.minConfirmations
  }

  /** An authorization settles the offer bound at its sequence, if there is one: it names that offer and its
      buyer and reveals what the offer's hash lock asks for. */
  predicate Honours(p: Primitives, s: StampOwnership, n: int, auth: TransferAuthorization) {
    n in s.boundOffers ==>
      var b := s.boundOffers[n];
      && auth.offerHashHex == b.offerHashHex && auth.toAddress == b.offer.buyerAddress
      && VerifyHashLock(p, b.offer.hashLockHex, auth.preimageHex)
  }

  /** A confirmed record names a published authorization, signed by the owner before move i,
      that says exactly what move i did; a bound offer was honoured to the letter. */
  ghost predicate MoveJustifiedBy(c: Context, k: string, s: StampOwnership, i: nat, entry: CanonicalRecord)
    requires i < |s.history|
  {
    var e, r := s.history[i], entry.record;
    && Confirmed(c, entry) && r.kind.TransferRecord?
    && r.stampCommitmentHex == k && r.sequence == i + 1
    && r.artifactHashHex in c.transfers
    && var auth := c.transfers[r.artifactHashHex];
    && auth.stampCommitmentHex == k && auth.sequence == i + 1
    && TransferSigned(c.p, auth)
    && auth.fromAddress == OwnerAfter(s, i)
    && e == OwnershipEvent(i + 1, auth.fromAddress, auth.toAddress, entry.txid, entry.height,
                           auth.offerHashHex, PriceAt(s, i + 1))
    && (i + 1 !in s.boundOffers ==> auth.offerHashHex == "none")
    && Honours(c.p, s, i + 1, auth)
  }

  /** A confirmed record names the published offer bound at sequence q, signed by the owner then. */
  ghost predicate OfferJustifiedBy(c: Context, k: string, s: StampOwnership, q: int, entry: CanonicalRecord)
    requires q in s.boundOffers && 1 <= q <= |s.history| + 1
  {
    var b, r := s.boundOffers[q], entry.record;
    && Confirmed(c, entry) && r.kind.OfferRecord?
    && r.stampCommitmentHex == k && r.sequence == q && r.artifactHashHex == b.offerHashHex
    && b.offerHashHex in c.offers && c.offers[b.offerHashHex] == b.offer
    && b.offer.stampCommitmentHex == k && b.offer.sequence == q
    && b.offer.sellerAddress == OwnerAfter(s, q - 1)
    && OfferSigned(c.p, b.offer)
  }

  ghost predicate MoveJustified(c: Context, k: string, s: StampOwnership, i: nat, entries: seq<CanonicalRecord>)
    requires i < |s.history|
  {
    exists entry :: entry in entries && MoveJustifiedBy(c, k, s, i, entry)
  }

  ghost predicate OfferJustified(c: Context, k: string, s: StampOwnership, q: int, entries: seq<CanonicalRecord>)
    requires q in s.boundOffers && 1 <= q <= |s.history| + 1
  {
    exists entry :: entry in entries && OfferJustifiedBy(c, k, s, q, entry)
  }

  /** An unbroken, authorized chain from the original recipient to the current owner. */
  ghost predicate ChainSafe(c: Context, k: string, s: StampOwnership, entries: seq<CanonicalRecord>) {
    && s.stampCommitmentHex == k
    && s.sequence == |s.history|
    && s.currentOwner == OwnerAfter(s, |s.history|)
    && (forall i: nat | i < |s.history| :: MoveJustified(c, k, s, i, entries))
    && (forall q | q in s.boundOffers :: 1 <= q <= |s.history| + 1)
    && (forall q | q in s.boundOffers :: OfferJustified(c, k, s, q, entries))
  }

  ghost predicate AllChainsSafe(c: Context, st: State, entries: seq<CanonicalRecord>) {
    forall k | k in st.stamps :: ChainSafe(c, k, st.stamps[k], entries)
  }

  /** A sale row repeats the move at a sequence where an offer was bound, at that offer's price. */
  predicate SaleRecordsMove(st: State, x: Sale) {
    && x.stampCommitmentHex in st.stamps
    && var s := st.stamps[x.stampCommitmentHex];
    && 1 <= x.sequence <= |s.history|
    && var e := s.history[x.sequence - 1];
    && x.sequence in s.boundOffers
    && x == Sale(x.stampCommitmentHex, x.sequence, e.fromAddress, e.toAddress,
                 s.boundOffers[x.sequence].offer.priceZat, e.txid, e.height)
    && x.seller == s.boundOffers[x.sequence].offer.sellerAddress
    && x.buyer == s.boundOffers[x.sequence].offer.buyerAddress
  }

  predicate SoldAt(st: State, k: string, n: int) {
    exists x :: x in st.sales && x.stampCommitmentHex == k && x.sequence == n
  }

  /** The sales are the moves at bound sequences: each of them once, and nothing else. */
  ghost predicate SalesExact(st: State) {
    && (forall x | x in st.sales :: SaleRecordsMove(st, x))
    && (forall k, n: int | k in st.stamps && n in st.stamps[k].boundOffers && n <= |st.stamps[k].history| ::
          SoldAt(st, k, n))
    && (forall i, j | 0 <= i < j < |st.sales| ::
          (st.sales[i].stampCommitmentHex, st.sales[i].sequence)
          != (st.sales[j].stampCommitmentHex, st.sales[j].sequence))
  }

  ghost predicate Safe(c: Context, st: State, entries: seq<CanonicalRecord>) {
    AllChainsSafe(c, st, entries) && SalesExact(st)
  }

  lemma {:induction false} InitialStampsFresh(stamps: seq<IssuedStamp>)
    ensures forall k | k in InitialStamps(stamps) ::
              exists x :: x in stamps && x.commitmentHex == k && InitialStamps(stamps)[k] == FreshStamp(x)
  {
    if stamps != [] {
      var front, last := stamps[..|stamps| - 1], stamps[|stamps| - 1];
      InitialStampsFresh(front);
      var m := InitialStamps(stamps);
      forall k | k in m
        ensures exists x :: x in stamps && x.commitmentHex == k && m[k] == FreshStamp(x)
      {
        if k == last.commitmentHex {
          assert last in stamps;
        } else {
          assert k in InitialStamps(front);
          var x :| x in front && x.commitmentHex == k && InitialStamps(front)[k] == FreshStamp(x);
          assert x in stamps;
        }
      }
    }
  }

  lemma StartSafe(c: Context, stamps: seq<IssuedStamp>)
    ensures Safe(c, Start(stamps), [])
  {
    InitialStampsFresh(stamps);
  }

  /** More records do not undo a justification. */
  lemma ChainSafeMore(c: Context, k: string, s: StampOwnership, entries: seq<CanonicalRecord>, entry: CanonicalRecord)
    requires ChainSafe(c, k, s, entries)
    ensures ChainSafe(c, k, s, entries + [entry])
  {
    forall i: nat | i < |s.history| ensures MoveJustified(c, k, s, i, entries + [entry]) {
      assert MoveJustified(c, k, s, i, entries);
      var x :| x in entries && MoveJustifiedBy(c, k, s, i, x);
      assert x in entries + [entry];
    }
    forall q | q in s.boundOffers ensures OfferJustified(c, k, s, q, entries + [entry]) {
      assert OfferJustified(c, k, s, q, entries);
      var x :| x in entries && OfferJustifiedBy(c, k, s, q, x);
      assert x in entries + [entry];
    }
  }

  /** Binding an offer at the next sequence keeps the chain safe. */
  lemma BindSafe(c: Context, k: string, s: StampOwnership, entries: seq<CanonicalRecord>, entry: CanonicalRecord,
                 offer: SettlementOffer)
    requires ChainSafe(c, k, s, entries)
    requires Confirmed(c, entry) && entry.record.kind.OfferRecord? && entry.record.stampCommitmentHex == k
    requires entry.record.artifactHashHex in c.offers && c.offers[entry.record.artifactHashHex] == offer
    requires CheckOffer(c.p, s, offer, entry.record).Passed?
    requires entry.record.sequence !in s.boundOffers
    ensures ChainSafe(c, k, Bound(s, entry, offer),
                      entries + [entry])
  {
    var n := entry.record.sequence;
    var t := Bound(s, entry, offer);
    assert n == |s.history| + 1;
    ChainSafeMore(c, k, s, entries, entry);
    forall i: nat | i < |t.history| ensures MoveJustified(c, k, t, i, entries + [entry]) {
      assert MoveJustified(c, k, s, i, entries + [entry]);
      var x :| x in entries + [entry] && MoveJustifiedBy(c, k, s, i, x);
      assert MoveJustifiedBy(c, k, t, i, x);
    }
    forall q | q in t.boundOffers ensures 1 <= q <= |t.history| + 1 && OfferJustified(c, k, t, q, entries + [entry]) {
      if q == n {
        assert OfferJustifiedBy(c, k, t, q, entry);
      } else {
        assert q in s.boundOffers;
        assert OfferJustified(c, k, s, q, entries + [entry]);
        var x :| x in entries + [entry] && OfferJustifiedBy(c, k, s, q, x);
        assert OfferJustifiedBy(c, k, t, q, x);
      }
    }
  }

  /** An accepted transfer extends the chain by one justified move. */
  lemma MoveSafe(c: Context, k: string, s: StampOwnership, entries: seq<CanonicalRecord>, entry: CanonicalRecord,
                 auth: TransferAuthorization)
    requires ChainSafe(c, k, s, entries)
    requires Confirmed(c, entry) && entry.record.kind.TransferRecord? && entry.record.stampCommitmentHex == k
    requires entry.record.artifactHashHex in c.transfers && c.transfers[entry.record.artifactHashHex] == auth
    requires CheckTransfer(c.p, s, auth, entry.record).Passed?
    ensures ChainSafe(c, k, Moved(s, entry, auth), entries + [entry])
  {
    var t, more := Moved(s, entry, auth), entries + [entry];
    ChainSafeMore(c, k, s, entries, entry);
    forall i: nat | i < |t.history| ensures MoveJustified(c, k, t, i, more) {
      if i < |s.history| {
        assert MoveJustified(c, k, s, i, more);
        EarlierMoveStands(c, k, s, entry, auth, i, more);
      } else {
        assert entry in more && MoveJustifiedBy(c, k, t, i, entry);
      }
    }
    forall q | q in t.boundOffers ensures OfferJustified(c, k, t, q, more) {
      assert OfferJustified(c, k, s, q, more);
      OfferStands(c, k, s, entry, auth, q, more);
    }
  }

  lemma EarlierMoveStands(c: Context, k: string, s: StampOwnership, entry: CanonicalRecord, auth: TransferAuthorization,
                          i: nat, entries: seq<CanonicalRecord>)
    requires i < |s.history| && MoveJustified(c, k, s, i, entries)
    ensures MoveJustified(c, k, Moved(s, entry, auth), i, entries)
  {
    var x :| x in entries && MoveJustifiedBy(c, k, s, i, x);
    assert MoveJustifiedBy(c, k, Moved(s, entry, auth), i, x);
  }

  lemma OfferStands(c: Context, k: string, s: StampOwnership, entry: CanonicalRecord, auth: TransferAuthorization,
                    q: int, entries: seq<CanonicalRecord>)
    requires q in s.boundOffers && 1 <= q <= |s.history| + 1 && OfferJustified(c, k, s, q, entries)
    ensures OfferJustified(c, k, Moved(s, entry, auth), q, entries)
  {
    var x :| x in entries && OfferJustifiedBy(c, k, s, q, x);
    assert OfferJustifiedBy(c, k, Moved(s, entry, auth), q, x);
  }

  /** One stamp replaced, the rest as they were. */
  lemma OthersSafe(c: Context, st: State, st': State, k: string, entries: seq<CanonicalRecord>, entry: CanonicalRecord)
    requires AllChainsSafe(c, st, entries)
    requires k in st.stamps && st'.stamps.Keys == st.stamps.Keys
    requires forall j | j in st.stamps && j != k :: st'.stamps[j] == st.stamps[j]
    requires ChainSafe(c, k, st'.stamps[k], entries + [entry])
    ensures AllChainsSafe(c, st', entries + [entry])
  {
    forall j | j in st'.stamps ensures ChainSafe(c, j, st'.stamps[j], entries + [entry]) {
      if j != k { ChainSafeMore(c, j, st.stamps[j], entries, entry); }
    }
  }

  lemma SalesAfterBind(c: Context, st: State, entries: seq<CanonicalRecord>, entry: CanonicalRecord,
                       offer: SettlementOffer)
    requires Safe(c, st, entries)
    requires entry.record.stampCommitmentHex in st.stamps
    requires entry.record.sequence == |st.stamps[entry.record.stampCommitmentHex].history| + 1
    ensures SalesExact(Execute(st, entry, Binds(offer)))
  {
    var st' := Execute(st, entry, Binds(offer));
    forall x | x in st'.sales ensures SaleRecordsMove(st', x) {
      assert SaleRecordsMove(st, x);
    }
    forall k, n: int | k in st'.stamps && n in st'.stamps[k].boundOffers && n <= |st'.stamps[k].history|
      ensures SoldAt(st', k, n)
    {
      assert n in st.stamps[k].boundOffers;
      assert SoldAt(st, k, n);
    }
  }

  /** What an accepted transfer finds in a safe state. */
  lemma MoveFacts(c: Context, st: State, entries: seq<CanonicalRecord>, entry: CanonicalRecord,
                  auth: TransferAuthorization)
    requires AllChainsSafe(c, st, entries)
    requires entry.record.stampCommitmentHex in st.stamps
    requires CheckTransfer(c.p, st.stamps[entry.record.stampCommitmentHex], auth, entry.record).Passed?
    ensures var s := st.stamps[entry.record.stampCommitmentHex];
      && entry.record.sequence == |s.history| + 1
      && (entry.record.sequence in s.boundOffers ==>
            var b := s.boundOffers[entry.record.sequence];
            b.offer.sellerAddress == auth.fromAddress && b.offer.buyerAddress == auth.toAddress)
  {
    var k, n := entry.record.stampCommitmentHex, entry.record.sequence;
    var s := st.stamps[k];
    assert ChainSafe(c, k, s, entries);
    if n in s.boundOffers { assert OfferJustified(c, k, s, n, entries); }
  }

  lemma SalesRecordMoves(c: Context, st: State, entries: seq<CanonicalRecord>, entry: CanonicalRecord,
                         auth: TransferAuthorization, x: Sale)
    requires AllChainsSafe(c, st, entries)
    requires forall y | y in st.sales :: SaleRecordsMove(st, y)
    requires entry.record.stampCommitmentHex in st.stamps
    requires CheckTransfer(c.p, st.stamps[entry.record.stampCommitmentHex], auth, entry.record).Passed?
    requires x in Execute(st, entry, Moves(auth)).sales
    ensures SaleRecordsMove(Execute(st, entry, Moves(auth)), x)
  {
    MoveFacts(c, st, entries, entry, auth);
    if x in st.sales { assert SaleRecordsMove(st, x); }
  }

  lemma MovesRecorded(st: State, entry: CanonicalRecord, auth: TransferAuthorization, k: string, n: int)
    requires SalesExact(st)
    requires entry.record.stampCommitmentHex in st.stamps
    requires entry.record.sequence == |st.stamps[entry.record.stampCommitmentHex].history| + 1
    requires k in st.stamps && n in st.stamps[k].boundOffers
    requires n <= |Execute(st, entry, Moves(auth)).stamps[k].history|
    ensures SoldAt(Execute(st, entry, Moves(auth)), k, n)
  {
    var st', r := Execute(st, entry, Moves(auth)), entry.record;
    if k == r.stampCommitmentHex && n == r.sequence {
      assert st'.sales[|st'.sales| - 1] in st'.sales;
    } else {
      assert SoldAt(st, k, n);
      var x :| x in st.sales && x.stampCommitmentHex == k && x.sequence == n;
      assert x in st'.sales;
    }
  }

  lemma SalesAfterMove(c: Context, st: State, entries: seq<CanonicalRecord>, entry: CanonicalRecord,
                       auth: TransferAuthorization)
    requires Safe(c, st, entries)
    requires entry.record.stampCommitmentHex in st.stamps
    requires CheckTransfer(c.p, st.stamps[entry.record.stampCommitmentHex], auth, entry.record).Passed?
    ensures SalesExact(Execute(st, entry, Moves(auth)))
  {
    var st' := Execute(st, entry, Moves(auth));
    MoveFacts(c, st, entries, entry, auth);
    forall x | x in st'.sales ensures SaleRecordsMove(st', x) {
      SalesRecordMoves(c, st, entries, entry, auth, x);
    }
    forall k, n: int | k in st'.stamps && n in st'.stamps[k].boundOffers && n <= |st'.stamps[k].history|
      ensures SoldAt(st', k, n)
    {
      MovesRecorded(st, entry, auth, k, n);
    }
    forall i, j | 0 <= i < j < |st'.sales|
      ensures (st'.sales[i].stampCommitmentHex, st'.sales[i].sequence)
              != (st'.sales[j].stampCommitmentHex, st'.sales[j].sequence)
    {
      if j == |st.sales| {
        assert st.sales[i] in st.sales;
        assert SaleRecordsMove(st, st.sales[i]);
      }
    }
  }

  lemma SalesUnchanged(st: State, st': State)
    requires SalesExact(st) && st'.stamps == st.stamps && st'.sales == st.sales
    ensures SalesExact(st')
  {
    forall x | x in st'.sales ensures SaleRecordsMove(st', x) { assert SaleRecordsMove(st, x); }
    forall k, n: int | k in st'.stamps && n in st'.stamps[k].boundOffers && n <= |st'.stamps[k].history|
      ensures SoldAt(st', k, n)
    {
      assert SoldAt(st, k, n);
    }
  }

  /** Every pass of the loop keeps the state safe. */
  lemma StepSafe(c: Context, st: State, entries: seq<CanonicalRecord>, entry: CanonicalRecord)
    requires Safe(c, st, entries)
    ensures Safe(c, Step(c, st, entry), entries + [entry])
  {
    var st', k := Step(c, st, entry), entry.record.stampCommitmentHex;
    match Decide(c, Find(st, k), entry)
    case Binds(offer) =>
      BindSafe(c, k, st.stamps[k], entries, entry, offer);
      OthersSafe(c, st, st', k, entries, entry);
      SalesAfterBind(c, st, entries, entry, offer);
    case Moves(auth) =>
      MoveSafe(c, k, st.stamps[k], entries, entry, auth);
      OthersSafe(c, st, st', k, entries, entry);
      SalesAfterMove(c, st, entries, entry, auth);
    case _ =>
      SalesUnchanged(st, st');
      forall j | j in st'.stamps ensures ChainSafe(c, j, st'.stamps[j], entries + [entry]) {
        ChainSafeMore(c, j, st.stamps[j], entries, entry);
      }
  }

  lemma {:induction false} ReplaySafe(c: Context, stamps: seq<IssuedStamp>, entries: seq<CanonicalRecord>)
    ensures Safe(c, Replay(c, Start(stamps), entries), entries)
  {
    if entries == [] {
      StartSafe(c, stamps);
    } else {
      var front, last := entries[..|entries| - 1], entries[|entries| - 1];
      ReplaySafe(c, stamps, front);
      StepSafe(c, Replay(c, Start(stamps), front), front, last);
      assert entries == front + [last];
    }
  }

  lemma {:induction false} IndexByKey<A(!new)>(key: A -> string, artifacts: seq<A>)
    ensures forall h | h in IndexBy(key, artifacts) ::
              IndexBy(key, artifacts)[h] in artifacts && key(IndexBy(key, artifacts)[h]) == h
    ensures forall a | a in artifacts :: key(a) in IndexBy(key, artifacts)
  {
    if artifacts != [] {
      IndexByKey(key, artifacts[..|artifacts| - 1]);
    }
  }

  /** Whatever the records and artifacts, resolving them yields only authorized, unbroken chains,
      and a sale row for exactly the moves that settled a bound offer. */
  lemma ResolutionSafe(p: Primitives, input: OwnershipInput)
    ensures Safe(ContextOf(p, input), Resolution(p, input), input.records)
  {
    var c, sorted := ContextOf(p, input), Sort(RecordLess, input.records);
    var out := Resolution(p, input);
    ReplaySafe(c, input.stamps, sorted);
    SortElements(RecordLess, input.records);
    forall k | k in out.stamps ensures ChainSafe(c, k, out.stamps[k], input.records) {
      var s := out.stamps[k];
      assert ChainSafe(c, k, s, sorted);
      forall i: nat | i < |s.history| ensures MoveJustified(c, k, s, i, input.records) {
        assert MoveJustified(c, k, s, i, sorted);
        var x :| x in sorted && MoveJustifiedBy(c, k, s, i, x);
        assert x in input.records;
      }
      forall q | q in s.boundOffers ensures OfferJustified(c, k, s, q, input.records) {
        assert OfferJustified(c, k, s, q, sorted);
        var x :| x in sorted && OfferJustifiedBy(c, k, s, q, x);
        assert x in input.records;
      }
    }
  }

  /** The indexer's contiguity flag, as it computes it. */
  predicate ChainsContiguous(st: State) {
    forall k, i: nat | k in st.stamps && i < |st.stamps[k].history| :: st.stamps[k].history[i].sequence == i + 1
  }

  /** The flag is true of every resolution. */
  lemma AlwaysContiguous(p: Primitives, input: OwnershipInput)
    ensures ChainsContiguous(Resolution(p, input))
  {
    var c, out := ContextOf(p, input), Resolution(p, input);
    ResolutionSafe(p, input);
    forall k, i: nat | k in out.stamps && i < |out.stamps[k].history|
      ensures out.stamps[k].history[i].sequence == i + 1
    {
      assert ChainSafe(c, k, out.stamps[k], input.records);
      assert MoveJustified(c, k, out.stamps[k], i, input.records);
    }
  }

  /** The published artifact behind a move hashes to the commitment its record carries, and honours the offer
      bound at the move's sequence. */
  lemma MoveCommitted(p: Primitives, input: OwnershipInput, k: string, i: nat)
    requires k in Resolution(p, input).stamps && i < |Resolution(p, input).stamps[k].history|
    ensures exists entry, auth ::
              && entry in input.records && auth in input.transferArtifacts
              && TransferHash(p, auth) == entry.record.artifactHashHex
              && auth.stampCommitmentHex == entry.record.stampCommitmentHex == k
              && auth.sequence == i + 1 && TransferSigned(p, auth)
              && auth.toAddress == Resolution(p, input).stamps[k].history[i].toAddress
              && Honours(p, Resolution(p, input).stamps[k], i + 1, auth)
  {
    var c, s := ContextOf(p, input), Resolution(p, input).stamps[k];
    ResolutionSafe(p, input);
    assert ChainSafe(c, k, s, input.records);
    assert MoveJustified(c, k, s, i, input.records);
    var entry :| entry in input.records && MoveJustifiedBy(c, k, s, i, entry);
    IndexByKey(TransferKey(p), input.transferArtifacts);
    var auth := c.transfers[entry.record.artifactHashHex];
    assert auth in input.transferArtifacts && TransferHash(p, auth) == entry.record.artifactHashHex;
  }

  /** The late twin of a settled transfer is refused for its sequence: the replay never reports
      `conflicting_transfer`, although the protocol text names that reason. */
  lemma {:induction false} NeverConflictingTransfer(c: Context, stamps: seq<IssuedStamp>, entries: seq<CanonicalRecord>)
    ensures forall row | row in Replay(c, Start(stamps), entries).rejected ::
              row.reason != ConflictingTransfer && row.reason != AuthorizationMissing
  {
    if entries != [] {
      NeverConflictingTransfer(c, stamps, entries[..|entries| - 1]);
    }
  }
}
