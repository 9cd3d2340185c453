/** The replay forgets the order its records and artifacts arrive in; for the artifacts, exactly when those
    sharing a hash cannot be told apart. */
module OwnershipOrder {
  import opened Bytes
  import opened Transfer
  import opened Ordering
  import opened Ownership
  import opened OwnershipReplay
  import OwnershipSafety
  import Types

  /** No two different records claim the same output. */
  ghost predicate DistinctOutputs(records: seq<CanonicalRecord>) {
    forall a, b | a in records && b in records && a != b ::
      (a.height, a.txid, a.outputIndex) != (b.height, b.txid, b.outputIndex)
  }

  lemma DistinctOutputsNoTies(records: seq<CanonicalRecord>)
    requires DistinctOutputs(records)
    ensures NoTies(RecordLess, records)
  {
    forall a, b | a in records && b in records && a != b ensures RecordLess(a, b) || RecordLess(b, a) {
      StringOrder(a.txid, b.txid);
    }
  }

  /* ---------- artifacts that share a hash ---------- */

  /** The hash lock a revealed preimage opens, if any. */
  function LockOf(p: Primitives, preimageHex: string): Option<string> {
    if preimageHex == "none" then None else HashLockFor(p, preimageHex)
  }

  /** Nothing the replay reads of an authorization differs. */
  predicate SameTransfer(p: Primitives, a: TransferAuthorization, b: TransferAuthorization) {
    && a.stampCommitmentHex == b.stampCommitmentHex && a.sequence == b.sequence
    && TransferSigned(p, a) == TransferSigned(p, b)
    && (TransferSigned(p, a) ==>
          && a.fromAddress == b.fromAddress && a.toAddress == b.toAddress
          && a.offerHashHex == b.offerHashHex && LockOf(p, a.preimageHex) == LockOf(p, b.preimageHex))
  }

  /** An offer that can bind is kept whole, so nothing at all may differ then. */
  predicate SameOffer(p: Primitives, a: SettlementOffer, b: SettlementOffer) {
    && a.stampCommitmentHex == b.stampCommitmentHex && a.sequence == b.sequence
    && OfferSigned(p, a) == OfferSigned(p, b)
    && (OfferSigned(p, a) ==> a == b)
  }

  ghost predicate TransfersAgree(p: Primitives, transfers: seq<TransferAuthorization>) {
    forall a, b | a in transfers && b in transfers && TransferHash(p, a) == TransferHash(p, b) :: SameTransfer(p, a, b)
  }

  ghost predicate OffersAgree(p: Primitives, offers: seq<SettlementOffer>) {
    forall a, b | a in offers && b in offers && OfferHash(p, a) == OfferHash(p, b) :: SameOffer(p, a, b)
  }

  /** Two contexts that differ in artifacts the replay cannot tell apart. */
  ghost predicate SameContext(c: Context, d: Context) {
    && c.p == d.p && c.network == d.network && c.minConfirmations == d.minConfirmations
    && c.transfers.Keys == d.transfers.Keys && c.offers.Keys == d.offers.Keys
    && (forall h | h in c.transfers :: SameTransfer(c.p, c.transfers[h], d.transfers[h]))
    && (forall h | h in c.offers :: SameOffer(c.p, c.offers[h], d.offers[h]))
  }

  lemma SameTransferCheck(p: Primitives, s: StampOwnership, a: TransferAuthorization, b: TransferAuthorization,
                          r: OnChainRecord)
    requires SameTransfer(p, a, b)
    ensures CheckTransfer(p, s, a, r) == CheckTransfer(p, s, b, r)
    ensures CheckTransfer(p, s, a, r).Passed? ==> TransferSigned(p, a)
  {
    if r.sequence in s.boundOffers {
      var lock := s.boundOffers[r.sequence].offer.hashLockHex;
      assert VerifyHashLock(p, lock, a.preimageHex) <==> LockOf(p, a.preimageHex) == Some(lock);
      assert VerifyHashLock(p, lock, b.preimageHex) <==> LockOf(p, b.preimageHex) == Some(lock);
    }
  }

  lemma SameOfferCheck(p: Primitives, s: StampOwnership, a: SettlementOffer, b: SettlementOffer, r: OnChainRecord)
    requires SameOffer(p, a, b)
    ensures CheckOffer(p, s, a, r) == CheckOffer(p, s, b, r)
    ensures CheckOffer(p, s, a, r).Passed? ==> a == b
  {
  }

  lemma SameStep(c: Context, d: Context, st: State, entry: CanonicalRecord)
    requires SameContext(c, d)
    ensures Step(c, st, entry) == Step(d, st, entry)
  {
    var r, found := entry.record, Find(st, entry.record.stampCommitmentHex);
    var h := r.artifactHashHex;
    if found.Some? && r.kind.OfferRecord? && h in c.offers {
      SameOfferCheck(c.p, found.value, c.offers[h], d.offers[h], r);
    } else if found.Some? && r.kind.TransferRecord? && h in c.transfers {
      SameTransferCheck(c.p, found.value, c.transfers[h], d.transfers[h], r);
    }
  }

  lemma {:induction false} SameReplay(c: Context, d: Context, st: State, entries: seq<CanonicalRecord>)
    requires SameContext(c, d)
    ensures Replay(c, st, entries) == Replay(d, st, entries)
  {
    if entries != [] {
      SameReplay(c, d, st, entries[..|entries| - 1]);
      SameStep(c, d, Replay(c, st, entries[..|entries| - 1]), entries[|entries| - 1]);
    }
  }

  /** What a replay works with, apart from records. */
  function ContextFor(p: Primitives, network: Types.DestNetwork, minConfirmations: int,
                      transfers: seq<TransferAuthorization>, offers: seq<SettlementOffer>): Context
  {
    Context(p, network, minConfirmations, IndexBy(TransferKey(p), transfers), IndexBy(OfferKey(p), offers))
  }

  lemma AgreeingContexts(p: Primitives, network: Types.DestNetwork, minConfirmations: int,
                         t: seq<TransferAuthorization>, u: seq<TransferAuthorization>,
                         o: seq<SettlementOffer>, q: seq<SettlementOffer>)
    requires multiset(t) == multiset(u) && multiset(o) == multiset(q)
    requires TransfersAgree(p, t) && OffersAgree(p, o)
    ensures SameContext(ContextFor(p, network, minConfirmations, t, o), ContextFor(p, network, minConfirmations, u, q))
  {
    SameElements(t, u);
    SameElements(o, q);
    OwnershipSafety.IndexByKey(TransferKey(p), t);
    OwnershipSafety.IndexByKey(TransferKey(p), u);
    OwnershipSafety.IndexByKey(OfferKey(p), o);
    OwnershipSafety.IndexByKey(OfferKey(p), q);
  }

  /* ---------- telling artifacts apart ---------- */

  /** A stamp with one bound offer, as some history may have left it. */
  function StandingStamp(k: string, owner: string, sequence: int, bound: map<int, BoundOffer>): State {
    State(map[k := StampOwnership(k, owner, owner, sequence, [], bound, true)], [], [], [])
  }

  function ConfirmedEntry(c: Context, r: OnChainRecord): CanonicalRecord {
    CanonicalRecord("t", 1, 0, c.minConfirmations, true, c.network, r)
  }

  function OfferTo(buyer: string, lock: string): SettlementOffer {
    SettlementOffer("", 0, "", buyer, "", lock, 0, "", "")
  }

  /** Where two signed authorizations for the same move differ, some bound offer takes one and not the other. */
  function TellingOffer(p: Primitives, a: TransferAuthorization, b: TransferAuthorization): map<int, BoundOffer> {
    var lock := if LockOf(p, a.preimageHex).Some? then LockOf(p, a.preimageHex)
                else LockOf(p, b.preimageHex);
    if a.fromAddress != b.fromAddress then map[]
    else map[a.sequence := BoundOffer(a.offerHashHex, OfferTo(a.toAddress, if lock.Some? then lock.value else ""))]
  }

  /** Different verdicts on one record leave different states. */
  lemma TransferStepsDiffer(c: Context, d: Context, st: State, entry: CanonicalRecord)
    requires c.network == d.network && c.minConfirmations == d.minConfirmations
    requires entry.record.stampCommitmentHex in st.stamps && OwnershipSafety.Confirmed(c, entry)
    requires entry.record.kind.TransferRecord?
    requires entry.record.artifactHashHex in c.transfers && entry.record.artifactHashHex in d.transfers
    requires var s, r := st.stamps[entry.record.stampCommitmentHex], entry.record;
      CheckTransfer(c.p, s, c.transfers[r.artifactHashHex], r)
      != CheckTransfer(d.p, s, d.transfers[r.artifactHashHex], r)
    ensures Step(c, st, entry) != Step(d, st, entry)
  {
    var x, y := Step(c, st, entry).rejected, Step(d, st, entry).rejected;
    if x == y { assert x[|x| - 1] == y[|y| - 1]; }
  }

  lemma SignedTransfersTold(p: Primitives, s: StampOwnership, a: TransferAuthorization, b: TransferAuthorization,
                            r: OnChainRecord)
    requires TransferSigned(p, a) && TransferSigned(p, b) && !SameTransfer(p, a, b)
    requires a.stampCommitmentHex == b.stampCommitmentHex == r.stampCommitmentHex
    requires a.sequence == b.sequence == r.sequence == s.sequence + 1
    requires s.currentOwner == a.fromAddress && s.boundOffers == TellingOffer(p, a, b)
    ensures CheckTransfer(p, s, a, r) != CheckTransfer(p, s, b, r)
  {
    if a.fromAddress == b.fromAddress {
      var lock := s.boundOffers[r.sequence].offer.hashLockHex;
      assert VerifyHashLock(p, lock, a.preimageHex) <==> LockOf(p, a.preimageHex) == Some(lock);
      assert VerifyHashLock(p, lock, b.preimageHex) <==> LockOf(p, b.preimageHex) == Some(lock);
    }
  }

  lemma TransfersTold(c: Context, d: Context, h: string) returns (st: State, entry: CanonicalRecord)
    requires c.p == d.p && c.network == d.network && c.minConfirmations == d.minConfirmations
    requires h in c.transfers && h in d.transfers && !SameTransfer(c.p, c.transfers[h], d.transfers[h])
    requires TransferSigned(c.p, c.transfers[h]) || !TransferSigned(c.p, d.transfers[h])
    ensures Step(c, st, entry) != Step(d, st, entry)
  {
    var p, a, b := c.p, c.transfers[h], d.transfers[h];
    var k, n := a.stampCommitmentHex, a.sequence;
    entry := ConfirmedEntry(c, OnChainRecord(TransferRecord, k, n, h));
    if k != b.stampCommitmentHex || n != b.sequence {
      st := StandingStamp(k, a.fromAddress, n, map[]);
      assert CheckTransfer(p, st.stamps[k], a, entry.record) == Refused(WrongSequence);
      assert CheckTransfer(p, st.stamps[k], b, entry.record) == Refused(UnauthorizedTransfer);
    } else if !TransferSigned(p, b) {
      st := StandingStamp(k, a.fromAddress, n - 1, map[]);
      assert CheckTransfer(p, st.stamps[k], a, entry.record) != Refused(UnauthorizedTransfer);
      assert CheckTransfer(p, st.stamps[k], b, entry.record) == Refused(UnauthorizedTransfer);
    } else {
      st := StandingStamp(k, a.fromAddress, n - 1, TellingOffer(p, a, b));
      SignedTransfersTold(p, st.stamps[k], a, b, entry.record);
    }
    TransferStepsDiffer(c, d, st, entry);
  }

  lemma OffersTold(c: Context, d: Context, h: string) returns (st: State, entry: CanonicalRecord)
    requires c.p == d.p && c.network == d.network && c.minConfirmations == d.minConfirmations
    requires h in c.offers && h in d.offers && !SameOffer(c.p, c.offers[h], d.offers[h])
    requires OfferSigned(c.p, c.offers[h]) || !OfferSigned(c.p, d.offers[h])
    ensures Step(c, st, entry) != Step(d, st, entry)
  {
    var p, a, b := c.p, c.offers[h], d.offers[h];
    var k, n := a.stampCommitmentHex, a.sequence;
    entry := ConfirmedEntry(c, OnChainRecord(OfferRecord, k, n, h));
    var matched := k == b.stampCommitmentHex && n == b.sequence;
    st := StandingStamp(k, a.sellerAddress, if matched then n - 1 else n, map[]);
    var x, y := Step(c, st, entry), Step(d, st, entry);
    if matched {
      assert CheckOffer(p, st.stamps[k], a, entry.record).Passed?;
      assert x.stamps[k].boundOffers[n].offer == a;
      assert x.rejected == [];
      if y.rejected == [] { assert y.stamps[k].boundOffers[n].offer == b; }
    } else {
      assert CheckOffer(p, st.stamps[k], a, entry.record) == Refused(WrongSequence);
      assert CheckOffer(p, st.stamps[k], b, entry.record) == Refused(OfferMismatch);
      assert x.rejected[0].reason == WrongSequence && y.rejected[0].reason == OfferMismatch;
    }
  }

  /* ---------- exactly when artifact order does not matter ---------- */

  /** Whatever has been replayed so far and whatever records follow, every order of the two artifact lists
      leads to the same state. */
  ghost predicate ArtifactOrderFree(p: Primitives, network: Types.DestNetwork, minConfirmations: int,
                                    transfers: seq<TransferAuthorization>, offers: seq<SettlementOffer>)
  {
    forall t, o | multiset(t) == multiset(transfers) && multiset(o) == multiset(offers) ::
      forall st, entries ::
        Replay(ContextFor(p, network, minConfirmations, t, o), st, entries)
        == Replay(ContextFor(p, network, minConfirmations, transfers, offers), st, entries)
  }

  lemma MoveToEnd<A(!new)>(s: seq<A>, x: A) returns (t: seq<A>)
    requires x in s
    ensures multiset(t) == multiset(s) && t != [] && t[|t| - 1] == x
  {
    var i :| 0 <= i < |s| && s[i] == x;
    t := s[..i] + s[i + 1..] + [x];
    assert s == s[..i] + [x] + s[i + 1..];
  }

  lemma IndexLast<A(!new)>(key: A -> string, front: seq<A>, last: A)
    ensures key(last) in IndexBy(key, front + [last]) && IndexBy(key, front + [last])[key(last)] == last
  {
    assert (front + [last])[..|front|] == front;
  }

  /** Any artifact of a hash can be made the one that counts. */
  lemma PutLast<A(!new)>(key: A -> string, artifacts: seq<A>, x: A) returns (t: seq<A>)
    requires x in artifacts
    ensures multiset(t) == multiset(artifacts)
    ensures key(x) in IndexBy(key, t) && IndexBy(key, t)[key(x)] == x
  {
    t := MoveToEnd(artifacts, x);
    IndexLast(key, t[..|t| - 1], x);
    DropLast(t);
  }

  lemma TransfersMustAgree(p: Primitives, network: Types.DestNetwork, minConfirmations: int,
                           t: seq<TransferAuthorization>, o: seq<SettlementOffer>,
                           a: TransferAuthorization, b: TransferAuthorization)
    requires ArtifactOrderFree(p, network, minConfirmations, t, o)
    requires a in t && b in t && TransferHash(p, a) == TransferHash(p, b)
    requires TransferSigned(p, a) || !TransferSigned(p, b)
    ensures SameTransfer(p, a, b)
  {
    if !SameTransfer(p, a, b) {
      var ta := PutLast(TransferKey(p), t, a);
      var tb := PutLast(TransferKey(p), t, b);
      var c, d := ContextFor(p, network, minConfirmations, ta, o), ContextFor(p, network, minConfirmations, tb, o);
      var st, entry := TransfersTold(c, d, TransferHash(p, a));
      ReplaySingle(c, st, entry);
      ReplaySingle(d, st, entry);
    }
  }

  lemma OffersMustAgree(p: Primitives, network: Types.DestNetwork, minConfirmations: int,
                        t: seq<TransferAuthorization>, o: seq<SettlementOffer>, a: SettlementOffer, b: SettlementOffer)
    requires ArtifactOrderFree(p, network, minConfirmations, t, o)
    requires a in o && b in o && OfferHash(p, a) == OfferHash(p, b)
    requires OfferSigned(p, a) || !OfferSigned(p, b)
    ensures SameOffer(p, a, b)
  {
    if !SameOffer(p, a, b) {
      var oa := PutLast(OfferKey(p), o, a);
      var ob := PutLast(OfferKey(p), o, b);
      var c, d := ContextFor(p, network, minConfirmations, t, oa), ContextFor(p, network, minConfirmations, t, ob);
      var st, entry := OffersTold(c, d, OfferHash(p, a));
      ReplaySingle(c, st, entry);
      ReplaySingle(d, st, entry);
    }
  }

  /** The order of the artifacts never matters if and only if authorizations sharing a hash agree in stamp, sequence
      and whether their signature verifies, and if it does in everything a move uses; and offers sharing a hash
      agree in stamp, sequence and whether they are signed, and are equal if they are. The state in which a disagreement
      shows is one to resume from: it need not be one a replay of these artifacts reaches. ArtifactOrderCanMatter is
      about states that are. */
  lemma ArtifactOrderFreeIff(p: Primitives, network: Types.DestNetwork, minConfirmations: int,
                             transfers: seq<TransferAuthorization>, offers: seq<SettlementOffer>)
    ensures ArtifactOrderFree(p, network, minConfirmations, transfers, offers)
            <==> TransfersAgree(p, transfers) && OffersAgree(p, offers)
  {
    if TransfersAgree(p, transfers) && OffersAgree(p, offers) {
      var c := ContextFor(p, network, minConfirmations, transfers, offers);
      forall t, o | multiset(t) == multiset(transfers) && multiset(o) == multiset(offers)
        ensures forall st, entries ::
                  Replay(ContextFor(p, network, minConfirmations, t, o), st, entries) == Replay(c, st, entries)
      {
        AgreeingContexts(p, network, minConfirmations, transfers, t, offers, o);
        forall st: State, entries: seq<CanonicalRecord>
          ensures Replay(ContextFor(p, network, minConfirmations, t, o), st, entries) == Replay(c, st, entries)
        {
          SameReplay(c, ContextFor(p, network, minConfirmations, t, o), st, entries);
        }
      }
    }
    if ArtifactOrderFree(p, network, minConfirmations, transfers, offers) {
      forall a, b | a in transfers && b in transfers && TransferHash(p, a) == TransferHash(p, b)
        ensures SameTransfer(p, a, b)
      {
        if TransferSigned(p, a) || !TransferSigned(p, b) {
          TransfersMustAgree(p, network, minConfirmations, transfers, offers, a, b);
        } else {
          TransfersMustAgree(p, network, minConfirmations, transfers, offers, b, a);
        }
      }
      forall a, b | a in offers && b in offers && OfferHash(p, a) == OfferHash(p, b) ensures SameOffer(p, a, b) {
        if OfferSigned(p, a) || !OfferSigned(p, b) {
          OffersMustAgree(p, network, minConfirmations, transfers, offers, a, b);
        } else {
          OffersMustAgree(p, network, minConfirmations, transfers, offers, b, a);
        }
      }
    }
  }

  ghost predicate SameInputUpToOrder(a: OwnershipInput, b: OwnershipInput) {
    && a.destinationNetwork == b.destinationNetwork && a.minConfirmations == b.minConfirmations
    && a.stamps == b.stamps
    && multiset(a.records) == multiset(b.records)
    && multiset(a.transferArtifacts) == multiset(b.transferArtifacts)
    && multiset(a.offerArtifacts) == multiset(b.offerArtifacts)
  }

  /** Two validators with the same records and artifacts compute the same ownership state, provided an output
      carries one record and artifacts sharing a hash agree. */
  lemma OrderFree(p: Primitives, a: OwnershipInput, b: OwnershipInput)
    requires SameInputUpToOrder(a, b)
    requires DistinctOutputs(a.records)
    requires TransfersAgree(p, a.transferArtifacts) && OffersAgree(p, a.offerArtifacts)
    ensures Resolution(p, a) == Resolution(p, b)
  {
    CanonicalOrderIsWeak();
    DistinctOutputsNoTies(a.records);
    SortPermutation(RecordLess, a.records, b.records);
    AgreeingContexts(p, a.destinationNetwork, a.minConfirmations, a.transferArtifacts, b.transferArtifacts,
                     a.offerArtifacts, b.offerArtifacts);
    SameReplay(ContextOf(p, a), ContextOf(p, b), Start(a.stamps), Sort(RecordLess, a.records));
  }

  /** Authorizations under one hash at least speak of the same move, and never of a stamp's first. */
  ghost predicate NoFirstMoves(p: Primitives, transfers: seq<TransferAuthorization>) {
    && (forall a | a in transfers :: a.sequence != 1)
    && forall a, b | a in transfers && b in transfers && TransferHash(p, a) == TransferHash(p, b) ::
         a.stampCommitmentHex == b.stampCommitmentHex && a.sequence == b.sequence
  }

  ghost predicate EarlyContexts(c: Context, d: Context) {
    && c.p == d.p && c.network == d.network && c.minConfirmations == d.minConfirmations
    && c.transfers.Keys == d.transfers.Keys && c.offers.Keys == d.offers.Keys
    && (forall h | h in c.offers :: SameOffer(c.p, c.offers[h], d.offers[h]))
    && forall h | h in c.transfers ::
         && c.transfers[h].sequence == d.transfers[h].sequence != 1
         && c.transfers[h].stampCommitmentHex == d.transfers[h].stampCommitmentHex
  }

  ghost predicate Unmoved(st: State) {
    forall k | k in st.stamps :: st.stamps[k].sequence == 0
  }

  lemma EarlyStep(c: Context, d: Context, st: State, entry: CanonicalRecord)
    requires EarlyContexts(c, d) && Unmoved(st)
    ensures Step(c, st, entry) == Step(d, st, entry) && Unmoved(Step(c, st, entry))
  {
    var r, found := entry.record, Find(st, entry.record.stampCommitmentHex);
    var h := r.artifactHashHex;
    if found.Some? && r.kind.OfferRecord? && h in c.offers {
      SameOfferCheck(c.p, found.value, c.offers[h], d.offers[h], r);
    } else if found.Some? && r.kind.TransferRecord? && h in c.transfers {
      assert CheckTransfer(c.p, found.value, c.transfers[h], r).Refused?;
    }
  }

  lemma {:induction false} EarlyReplay(c: Context, d: Context, st: State, entries: seq<CanonicalRecord>)
    requires EarlyContexts(c, d) && Unmoved(st)
    ensures Replay(c, st, entries) == Replay(d, st, entries) && Unmoved(Replay(c, st, entries))
  {
    if entries != [] {
      EarlyReplay(c, d, st, entries[..|entries| - 1]);
      EarlyStep(c, d, Replay(c, st, entries[..|entries| - 1]), entries[|entries| - 1]);
    }
  }

  /** Why the exact condition speaks of replays resumed from any state: where no stamp can make its first move, later
      authorizations may share a hash and disagree, and still no order of the lists shows in a replay from the start. */
  lemma UnreachedNeverMatters(p: Primitives, a: OwnershipInput, b: OwnershipInput)
    requires SameInputUpToOrder(a, b) && DistinctOutputs(a.records)
    requires NoFirstMoves(p, a.transferArtifacts) && OffersAgree(p, a.offerArtifacts)
    ensures Resolution(p, a) == Resolution(p, b)
  {
    CanonicalOrderIsWeak();
    DistinctOutputsNoTies(a.records);
    SortPermutation(RecordLess, a.records, b.records);
    SameElements(a.transferArtifacts, b.transferArtifacts);
    SameElements(a.offerArtifacts, b.offerArtifacts);
    OwnershipSafety.IndexByKey(TransferKey(p), a.transferArtifacts);
    OwnershipSafety.IndexByKey(TransferKey(p), b.transferArtifacts);
    OwnershipSafety.IndexByKey(OfferKey(p), a.offerArtifacts);
    OwnershipSafety.IndexByKey(OfferKey(p), b.offerArtifacts);
    OwnershipSafety.InitialStampsFresh(a.stamps);
    EarlyReplay(ContextOf(p, a), ContextOf(p, b), Start(a.stamps), Sort(RecordLess, a.records));
  }

  /* ---------- one signature under two keys ---------- */

  /** All but one hash name the same authorizations. */
  ghost predicate DifferAt(c: Context, d: Context, h: string) {
    && c.p == d.p && c.network == d.network && c.minConfirmations == d.minConfirmations && c.offers == d.offers
    && (forall g | g != h :: g in c.transfers <==> g in d.transfers)
    && (forall g | g != h && g in c.transfers :: c.transfers[g] == d.transfers[g])
  }

  lemma StepUnaware(c: Context, d: Context, h: string, st: State, entry: CanonicalRecord)
    requires DifferAt(c, d, h) && entry.record.artifactHashHex != h
    ensures Step(c, st, entry) == Step(d, st, entry)
  {
    assert Decide(c, Find(st, entry.record.stampCommitmentHex), entry)
        == Decide(d, Find(st, entry.record.stampCommitmentHex), entry);
  }

  /** Records that name no artifact of this hash do not notice which artifact carries it. */
  lemma {:induction false} OthersUnaware(c: Context, d: Context, h: string, st: State, entries: seq<CanonicalRecord>)
    requires DifferAt(c, d, h)
    requires forall e | e in entries :: e.record.artifactHashHex != h
    ensures Replay(c, st, entries) == Replay(d, st, entries)
  {
    if entries != [] {
      DropLast(entries);
      OthersUnaware(c, d, h, st, entries[..|entries| - 1]);
      assert entries[|entries| - 1] in entries;
      StepUnaware(c, d, h, Replay(c, st, entries[..|entries| - 1]), entries[|entries| - 1]);
    }
  }

  /** One more record, and two more authorizations. */
  function Extended(input: OwnershipInput, entry: CanonicalRecord, first: TransferAuthorization,
                    last: TransferAuthorization)
    : OwnershipInput
  {
    input.(records := input.records + [entry], transferArtifacts := input.transferArtifacts + [first, last])
  }

  /** The record names these authorizations' hash for the first time, and sorts after all others. */
  ghost predicate NamesNext(p: Primitives, input: OwnershipInput, entry: CanonicalRecord, auth: TransferAuthorization) {
    && OwnershipSafety.Confirmed(ContextOf(p, input), entry)
    && entry.record == OnChainRecord(TransferRecord, auth.stampCommitmentHex, auth.sequence, TransferHash(p, auth))
    && auth.stampCommitmentHex in Resolution(p, input).stamps
    && forall e | e in input.records :: e.record.artifactHashHex != TransferHash(p, auth) && !RecordLess(entry, e)
  }

  /** Of two authorizations under one hash the last published is the one the replay reads. */
  lemma LastArtifactCounts(p: Primitives, input: OwnershipInput, first: TransferAuthorization,
                           last: TransferAuthorization, entry: CanonicalRecord)
    requires TransferHash(p, first) == TransferHash(p, last) && NamesNext(p, input, entry, last)
    ensures var c := ContextOf(p, Extended(input, entry, first, last));
      && TransferHash(p, last) in c.transfers && c.transfers[TransferHash(p, last)] == last
      && Resolution(p, Extended(input, entry, first, last)) == Step(c, Resolution(p, input), entry)
  {
    var more := Extended(input, entry, first, last);
    var c, d := ContextOf(p, input), ContextOf(p, more);
    var sorted := Sort(RecordLess, input.records);
    assert input.transferArtifacts + [first, last] == input.transferArtifacts + [first] + [last];
    IndexLast(TransferKey(p), input.transferArtifacts + [first], last);
    assert (input.transferArtifacts + [first] + [last])[..|input.transferArtifacts| + 1]
      == input.transferArtifacts + [first];
    assert (input.transferArtifacts + [first])[..|input.transferArtifacts|] == input.transferArtifacts;
    SortElements(RecordLess, input.records);
    OthersUnaware(c, d, TransferHash(p, last), Start(input.stamps), sorted);
    SortAppend(RecordLess, input.records, [entry]);
    SortSingle(entry);
    ReplayConcat(d, Start(input.stamps), sorted, [entry]);
    ReplaySingle(d, Resolution(p, input), entry);
  }

  lemma SortSingle(entry: CanonicalRecord)
    ensures Sort(RecordLess, [entry]) == [entry]
  {
    assert [entry][..0] == [];
  }

  lemma LastAccepted(p: Primitives, input: OwnershipInput, first: TransferAuthorization, last: TransferAuthorization,
                     entry: CanonicalRecord)
    requires TransferHash(p, first) == TransferHash(p, last) && NamesNext(p, input, entry, last)
    requires CheckTransfer(p, Resolution(p, input).stamps[last.stampCommitmentHex], last, entry.record).Passed?
    ensures var end, k := Resolution(p, Extended(input, entry, first, last)), last.stampCommitmentHex;
      k in end.stamps && end.stamps[k].currentOwner == last.toAddress && end.stamps[k].sequence == last.sequence
  {
    LastArtifactCounts(p, input, first, last, entry);
    var c, st := ContextOf(p, Extended(input, entry, first, last)), Resolution(p, input);
    assert Decide(c, Find(st, last.stampCommitmentHex), entry) == Moves(last);
  }

  lemma LastRefused(p: Primitives, input: OwnershipInput, first: TransferAuthorization, last: TransferAuthorization,
                    entry: CanonicalRecord)
    requires TransferHash(p, first) == TransferHash(p, last) && NamesNext(p, input, entry, last)
    requires CheckTransfer(p, Resolution(p, input).stamps[last.stampCommitmentHex], last, entry.record).Refused?
    ensures Resolution(p, Extended(input, entry, first, last)).stamps == Resolution(p, input).stamps
  {
    LastArtifactCounts(p, input, first, last, entry);
    var c, st := ContextOf(p, Extended(input, entry, first, last)), Resolution(p, input);
    assert Decide(c, Find(st, last.stampCommitmentHex), entry).Rejects?;
  }

  /** The hash leaves the public key out. Whatever has been replayed, let the owner of a stamp sign its next move and
      let that authorization be published under two keys, one of which verifies: the order of the artifact list then
      decides who owns the stamp. */
  lemma ArtifactOrderCanMatter(p: Primitives, input: OwnershipInput, good: TransferAuthorization,
                               bad: TransferAuthorization, entry: CanonicalRecord)
    requires bad == good.(ownerPublicKeyHex := bad.ownerPublicKeyHex) && !TransferSigned(p, bad)
    requires NamesNext(p, input, entry, good)
    requires CheckTransfer(p, Resolution(p, input).stamps[good.stampCommitmentHex], good, entry.record).Passed?
    ensures var k := good.stampCommitmentHex;
      var goodLast, badLast := Extended(input, entry, bad, good), Extended(input, entry, good, bad);
      && SameInputUpToOrder(goodLast, badLast)
      && Find(Resolution(p, goodLast), k).Some? && Find(Resolution(p, badLast), k).Some?
      && Find(Resolution(p, goodLast), k).value.currentOwner == good.toAddress
      && Find(Resolution(p, goodLast), k).value.sequence == good.sequence
      && Find(Resolution(p, badLast), k).value.currentOwner == good.fromAddress
      && Find(Resolution(p, badLast), k).value.sequence == good.sequence - 1
  {
    assert multiset([bad, good]) == multiset([good, bad]);
    SameHashSameRecord(p, input, good, bad, entry);
    LastAccepted(p, input, bad, good, entry);
    LastRefused(p, input, good, bad, entry);
  }

  lemma SameHashSameRecord(p: Primitives, input: OwnershipInput, good: TransferAuthorization,
                           bad: TransferAuthorization, entry: CanonicalRecord)
    requires bad == good.(ownerPublicKeyHex := bad.ownerPublicKeyHex) && !TransferSigned(p, bad)
    requires NamesNext(p, input, entry, good)
    ensures TransferHash(p, good) == TransferHash(p, bad) && NamesNext(p, input, entry, bad)
    ensures CheckTransfer(p, Resolution(p, input).stamps[bad.stampCommitmentHex], bad, entry.record).Refused?
  {
  }
}
