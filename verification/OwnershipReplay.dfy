/** The replay only ever appends, and treats each stamp on its own. */
module OwnershipReplay {
  import opened Bytes
  import opened Transfer
  import opened Ordering
  import opened Ownership

  /* ---------- the canonical order ---------- */

  lemma CompareTransitive(a: CanonicalRecord, b: CanonicalRecord, c: CanonicalRecord)
    requires !RecordLess(b, a) && !RecordLess(c, b)
    ensures !RecordLess(c, a)
  {
    StringOrder(a.txid, b.txid);
    StringOrder(b.txid, c.txid);
    StringOrder(a.txid, c.txid);
    if StringLess(a.txid, b.txid) && StringLess(b.txid, c.txid) {
      StringLessTransitive(a.txid, b.txid, c.txid);
    }
  }

  lemma CanonicalOrderIsWeak()
    ensures WeakOrder(RecordLess)
  {
    forall a, b | RecordLess(a, b) ensures !RecordLess(b, a) {
      StringOrder(a.txid, b.txid);
    }
    forall a, b, c | !RecordLess(b, a) && !RecordLess(c, b) ensures !RecordLess(c, a) {
      CompareTransitive(a, b, c);
    }
  }

  /* ---------- append-only ---------- */

  lemma ReplaySingle(c: Context, st: State, entry: CanonicalRecord)
    ensures Replay(c, st, [entry]) == Step(c, st, entry)
  {
    assert [entry][..0] == [];
  }

  lemma {:induction false} ReplayConcat(c: Context, st: State, a: seq<CanonicalRecord>, b: seq<CanonicalRecord>)
    ensures Replay(c, st, a + b) == Replay(c, Replay(c, st, a), b)
  {
    if b == [] {
      assert a + b == a;
    } else {
      assert (a + b)[..|a + b| - 1] == a + b[..|b| - 1];
      ReplayConcat(c, st, a, b[..|b| - 1]);
    }
  }

  /** Nothing already in a chain changes, and an offer can still bind only ahead of it. */
  ghost predicate StampGrows(a: StampOwnership, b: StampOwnership) {
    && a.stampCommitmentHex == b.stampCommitmentHex && a.originalRecipient == b.originalRecipient
    && a.history <= b.history
    && (forall q | q in a.boundOffers :: q in b.boundOffers && b.boundOffers[q] == a.boundOffers[q])
    && a.sequence <= b.sequence
    && (forall q | q in b.boundOffers && q !in a.boundOffers :: q > a.sequence)
  }

  ghost predicate StateGrows(a: State, b: State) {
    && a.stamps.Keys == b.stamps.Keys
    && (forall k | k in a.stamps :: StampGrows(a.stamps[k], b.stamps[k]))
    && a.pending <= b.pending && a.rejected <= b.rejected && a.sales <= b.sales
  }

  lemma StepGrows(c: Context, st: State, entry: CanonicalRecord)
    ensures StateGrows(st, Step(c, st, entry))
  {
    var k := entry.record.stampCommitmentHex;
    match Decide(c, Find(st, k), entry)
    case Binds(offer) => assert StampGrows(st.stamps[k], Bound(st.stamps[k], entry, offer));
    case Moves(auth) => assert StampGrows(st.stamps[k], Moved(st.stamps[k], entry, auth));
    case _ =>
  }

  lemma StateGrowsTransitive(a: State, b: State, c: State)
    requires StateGrows(a, b) && StateGrows(b, c)
    ensures StateGrows(a, c)
  {
    forall k | k in a.stamps ensures StampGrows(a.stamps[k], c.stamps[k]) {
      assert StampGrows(a.stamps[k], b.stamps[k]) && StampGrows(b.stamps[k], c.stamps[k]);
    }
  }

  lemma {:induction false} ReplayGrows(c: Context, st: State, entries: seq<CanonicalRecord>)
    ensures StateGrows(st, Replay(c, st, entries))
  {
    if entries != [] {
      var front, last := entries[..|entries| - 1], entries[|entries| - 1];
      ReplayGrows(c, st, front);
      StepGrows(c, Replay(c, st, front), last);
      StateGrowsTransitive(st, Replay(c, st, front), Replay(c, st, entries));
    }
  }

  /** Records that sort after everything seen extend every chain and rewrite none. */
  lemma AppendOnly(p: Primitives, input: OwnershipInput, more: seq<CanonicalRecord>)
    requires forall old_, new_ | old_ in input.records && new_ in more :: !RecordLess(new_, old_)
    ensures StateGrows(Resolution(p, input), Resolution(p, input.(records := input.records + more)))
  {
    var c, start := ContextOf(p, input), Start(input.stamps);
    SortAppend(RecordLess, input.records, more);
    ReplayConcat(c, start, Sort(RecordLess, input.records), Sort(RecordLess, more));
    ReplayGrows(c, Resolution(p, input), Sort(RecordLess, more));
  }

  /* ---------- stamp by stamp ---------- */

  /** All that a state says about one stamp. */
  datatype StampView = StampView(
    stamp: Option<StampOwnership>, pending: seq<PendingRow>, rejected: seq<RejectedRow>, sales: seq<Sale>)

  function Names(k: string): CanonicalRecord -> bool { (e: CanonicalRecord) => e.record.stampCommitmentHex == k }
  function PendingFor(k: string): PendingRow -> bool { (x: PendingRow) => x.stampCommitmentHex == k }
  function RejectedFor(k: string): RejectedRow -> bool { (x: RejectedRow) => x.stampCommitmentHex == k }
  function SaleOf(k: string): Sale -> bool { (x: Sale) => x.stampCommitmentHex == k }

  function View(k: string, st: State): StampView {
    StampView(Find(st, k),
              Filter(PendingFor(k), st.pending), Filter(RejectedFor(k), st.rejected), Filter(SaleOf(k), st.sales))
  }

  /** A verdict carried out on one stamp's view. */
  function ExecuteOn(v: StampView, entry: CanonicalRecord, o: Outcome): StampView
    requires o.Binds? || o.Moves? ==> v.stamp.Some?
  {
    var k := entry.record.stampCommitmentHex;
    match o
    case Rejects(reason) => v.(rejected := v.rejected + [RejectedRow(entry.txid, k, reason)])
    case Parks(reason) => v.(pending := v.pending + [PendingRow(entry.txid, k, reason)])
    case Binds(offer) => v.(stamp := Some(Bound(v.stamp.value, entry, offer)))
    case Moves(auth) => v.(stamp := Some(Moved(v.stamp.value, entry, auth)),
                           sales := v.sales + SaleRows(v.stamp.value, entry, auth))
  }

  /** At most one sale row is added, of one stamp. */
  lemma FilterAppendRows(k: string, sales: seq<Sale>, rows: seq<Sale>)
    requires |rows| <= 1
    ensures Filter(SaleOf(k), sales + rows)
            == Filter(SaleOf(k), sales) + if rows != [] && rows[0].stampCommitmentHex == k then rows else []
  {
    if rows == [] {
      assert sales + rows == sales;
    } else {
      assert rows == [rows[0]];
      FilterLast(SaleOf(k), sales, rows[0]);
    }
  }

  /** A verdict changes what is said of its own stamp only, and by what was said of it only. */
  lemma ViewExecute(k: string, st: State, entry: CanonicalRecord, o: Outcome)
    requires o.Binds? || o.Moves? ==> entry.record.stampCommitmentHex in st.stamps
    ensures View(k, Execute(st, entry, o))
            == if entry.record.stampCommitmentHex == k then ExecuteOn(View(k, st), entry, o) else View(k, st)
  {
    var j := entry.record.stampCommitmentHex;
    match o
    case Rejects(reason) => FilterLast(RejectedFor(k), st.rejected, RejectedRow(entry.txid, j, reason));
    case Parks(reason) => FilterLast(PendingFor(k), st.pending, PendingRow(entry.txid, j, reason));
    case Binds(offer) =>
    case Moves(auth) => FilterAppendRows(k, st.sales, SaleRows(st.stamps[j], entry, auth));
  }

  lemma StepView(c: Context, k: string, st: State, entry: CanonicalRecord)
    ensures View(k, Step(c, st, entry))
            == if entry.record.stampCommitmentHex == k
               then ExecuteOn(View(k, st), entry, Decide(c, View(k, st).stamp, entry)) else View(k, st)
  {
    ViewExecute(k, st, entry, Decide(c, Find(st, entry.record.stampCommitmentHex), entry));
  }

  lemma {:induction false} ReplayView(c: Context, k: string, st: State, entries: seq<CanonicalRecord>)
    ensures View(k, Replay(c, st, entries)) == View(k, Replay(c, st, Filter(Names(k), entries)))
  {
    if entries != [] {
      var front, last := entries[..|entries| - 1], entries[|entries| - 1];
      ReplayView(c, k, st, front);
      var kept := Filter(Names(k), front);
      StepView(c, k, Replay(c, st, front), last);
      if last.record.stampCommitmentHex == k {
        assert Filter(Names(k), entries) == kept + [last];
        ReplayConcat(c, st, kept, [last]);
        ReplaySingle(c, Replay(c, st, kept), last);
        StepView(c, k, Replay(c, st, kept), last);
      } else {
        assert Filter(Names(k), entries) == kept;
      }
    }
  }

  /** What the replay concludes about a stamp depends only on the records naming it. */
  lemma StampLocal(p: Primitives, input: OwnershipInput, k: string)
    ensures View(k, Resolution(p, input))
            == View(k, Resolution(p, input.(records := Filter(Names(k), input.records))))
  {
    CanonicalOrderIsWeak();
    SortFilter(RecordLess, Names(k), input.records);
    ReplayView(ContextOf(p, input), k, Start(input.stamps), Sort(RecordLess, input.records));
  }

  /** Moves, bound offers, parked rows and refusals, together. */
  function Entries(v: StampView): nat
    requires v.stamp.Some?
  {
    |v.stamp.value.history| + |v.stamp.value.boundOffers| + |v.pending| + |v.rejected|
  }

  lemma VerdictCounts(c: Context, v: StampView, entry: CanonicalRecord)
    requires v.stamp.Some?
    ensures var w := ExecuteOn(v, entry, Decide(c, v.stamp, entry));
      w.stamp.Some? && Entries(w) == Entries(v) + 1
  {
  }

  /** Every record naming a known stamp ends as exactly one of: a move, a bound offer, a parked row, a refusal. */
  lemma {:induction false} EveryRecordAccounted(c: Context, st: State, entries: seq<CanonicalRecord>, k: string)
    requires k in st.stamps
    ensures k in Replay(c, st, entries).stamps
    ensures Entries(View(k, Replay(c, st, entries))) == Entries(View(k, st)) + |Filter(Names(k), entries)|
  {
    if entries != [] {
      var front, last := entries[..|entries| - 1], entries[|entries| - 1];
      EveryRecordAccounted(c, st, front, k);
      var mid := Replay(c, st, front);
      StepView(c, k, mid, last);
      VerdictCounts(c, View(k, mid), last);
      StepGrows(c, mid, last);
    }
  }
}
