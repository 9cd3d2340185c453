/** The ledger issues each burn once, from one publication, for no more than was burned, in whatever order the
    chains are read. */
module LedgerRules {
  import opened Bytes
  import opened Issuance
  import opened Ledger
  import opened Ordering
  import opened Sums
  import opened Types
  import Text

  /* ---------- orders ---------- */

  lemma BurnOrder()
    ensures WeakOrder(EarlierBurn)
  {
    forall a: SolanaTx, b: SolanaTx ensures EarlierBurn(a, b) ==> !EarlierBurn(b, a) {
      StringOrder(a.signature, b.signature);
    }
    forall a: SolanaTx, b: SolanaTx, c: SolanaTx | !EarlierBurn(b, a) && !EarlierBurn(c, b) ensures !EarlierBurn(c, a) {
      NotLessChain(a.signature, b.signature, c.signature);
    }
  }

  lemma NotLessChain(a: string, b: string, c: string)
    ensures !StringLess(b, a) && !StringLess(c, b) ==> !StringLess(c, a)
  {
    if !StringLess(b, a) && !StringLess(c, b) && StringLess(c, a) {
      StringOrder(a, b);
      StringOrder(b, c);
      if a == b || b == c {
      } else {
        StringLessTransitive(a, b, c);
        StringOrder(a, c);
      }
    }
  }

  lemma TxidOrder()
    ensures WeakOrder(EarlierTxid)
  {
    forall a: ZcashPublication, b: ZcashPublication ensures EarlierTxid(a, b) ==> !EarlierTxid(b, a) {
      StringOrder(a.txid, b.txid);
    }
    forall a: ZcashPublication, b: ZcashPublication, c: ZcashPublication | !EarlierTxid(b, a) && !EarlierTxid(c, b)
      ensures !EarlierTxid(c, a)
    {
      NotLessChain(a.txid, b.txid, c.txid);
    }
  }

  lemma RowOrder()
    ensures WeakOrder(EarlierRow)
  {
    forall a: AcceptedIssuance, b: AcceptedIssuance ensures EarlierRow(a, b) ==> !EarlierRow(b, a) {
      StringOrder(a.issuance.sourceTx, b.issuance.sourceTx);
    }
    forall a: AcceptedIssuance, b: AcceptedIssuance, c: AcceptedIssuance | !EarlierRow(b, a) && !EarlierRow(c, b)
      ensures !EarlierRow(c, a)
    {
      RowChain(a, b, c);
    }
  }

  lemma RowChain(a: AcceptedIssuance, b: AcceptedIssuance, c: AcceptedIssuance)
    requires !EarlierRow(b, a) && !EarlierRow(c, b)
    ensures !EarlierRow(c, a)
  {
    var x, y, z := a.issuance.sourceTx, b.issuance.sourceTx, c.issuance.sourceTx;
    NotLessChain(x, y, z);
    StringOrder(x, y);
    StringOrder(y, z);
    StringOrder(x, z);
    if x == z && x == y { LocatorChain(a.issuance.burnLocator, b.issuance.burnLocator, c.issuance.burnLocator); }
  }

  lemma LocatorChain(a: Locator, b: Locator, c: Locator)
    requires CompareLocators(b, a) >= 0 && CompareLocators(c, b) >= 0
    ensures CompareLocators(c, a) >= 0
  {
  }

  /* ---------- one row for each burn event ---------- */

  datatype Event = Event(sourceTx: string, locator: Locator)

  function EventOf(row: AcceptedIssuance): Event { Event(row.issuance.sourceTx, row.issuance.burnLocator) }

  function OfEvent(e: Event): AcceptedIssuance -> bool { (row: AcceptedIssuance) => EventOf(row) == e }

  function PublishedIn(txid: string): AcceptedIssuance -> bool { (row: AcceptedIssuance) => row.zcashTx == txid }

  /** What the fold knows of every row it accepted. */
  predicate Issued(env: Env, input: RebuildInput, row: AcceptedIssuance, seen: set<string>) {
    row.issuance.sourceNetwork == input.sourceNetwork && EventId(row.issuance) in seen
  }

  lemma ClaimNetwork(env: Env, input: RebuildInput, tx: SolanaTx)
    requires Claim(env, input, tx).Passed?
    ensures Claim(env, input, tx).issuance.sourceNetwork == input.sourceNetwork
    ensures Claim(env, input, tx).issuance.destinationNetwork == input.destinationNetwork
    ensures Claim(env, input, tx).issuance.sourceTx == tx.signature
  {
  }

  /** One step adds at most one row, for an event not seen before. */
  lemma StepAccepts(env: Env, input: RebuildInput, st: State, tx: SolanaTx)
    ensures var next := Step(env, input, st, tx);
            && st.seen <= next.seen
            && (next.accepted == st.accepted
                || (Claim(env, input, tx).Passed?
                    && var f := Claim(env, input, tx).issuance;
                    && EventId(f) !in st.seen && EventId(f) in next.seen
                    && Matches(env, input, f) != []
                    && next.accepted == st.accepted + [AcceptIssuance(env, f, Matches(env, input, f)[0])]))
  {
  }

  lemma {:induction false} RowsIssued(env: Env, input: RebuildInput, txs: seq<SolanaTx>)
    ensures AllIssued(env, input, Run(env, input, txs))
  {
    if txs != [] {
      RowsIssued(env, input, txs[..|txs| - 1]);
      StepIssued(env, input, Run(env, input, txs[..|txs| - 1]), txs[|txs| - 1]);
    }
  }

  predicate AllIssued(env: Env, input: RebuildInput, st: State) {
    forall row | row in st.accepted :: Issued(env, input, row, st.seen)
  }

  lemma StepIssued(env: Env, input: RebuildInput, st: State, tx: SolanaTx)
    requires AllIssued(env, input, st)
    ensures AllIssued(env, input, Step(env, input, st, tx))
  {
    StepAccepts(env, input, st, tx);
    if Claim(env, input, tx).Passed? { ClaimNetwork(env, input, tx); }
  }

  lemma {:induction false} RunOneRowPerEvent(env: Env, input: RebuildInput, txs: seq<SolanaTx>, e: Event)
    ensures |Filter(OfEvent(e), Run(env, input, txs).accepted)| <= 1
  {
    if txs != [] {
      var front, tx := txs[..|txs| - 1], txs[|txs| - 1];
      var st := Run(env, input, front);
      RunOneRowPerEvent(env, input, front, e);
      StepAccepts(env, input, st, tx);
      var next := Run(env, input, txs);
      if next.accepted != st.accepted {
        var row := next.accepted[|next.accepted| - 1];
        FilterLast(OfEvent(e), st.accepted, row);
        if EventOf(row) == e {
          ClaimNetwork(env, input, tx);
          RowsIssued(env, input, front);
          NewEvent(env, input, st, row);
        }
      }
    }
  }

  /** A row for an event not seen is the first of its event. */
  lemma NewEvent(env: Env, input: RebuildInput, st: State, row: AcceptedIssuance)
    requires AllIssued(env, input, st)
    requires row.issuance.sourceNetwork == input.sourceNetwork && EventId(row.issuance) !in st.seen
    ensures Filter(OfEvent(EventOf(row)), st.accepted) == []
  {
    var keep := OfEvent(EventOf(row));
    forall earlier | earlier in st.accepted ensures !keep(earlier) {
      if keep(earlier) { EventIdOf(earlier, row); }
    }
    NoneKept(keep, st.accepted);
  }

  lemma {:induction false} NoneKept(keep: AcceptedIssuance -> bool, rows: seq<AcceptedIssuance>)
    requires forall r | r in rows :: !keep(r)
    ensures Filter(keep, rows) == []
  {
    if rows != [] {
      var front, last := rows[..|rows| - 1], rows[|rows| - 1];
      DropLast(rows);
      assert rows == front + [last];
      NoneKept(keep, front);
      FilterLast(keep, front, last);
    }
  }

  lemma EventIdOf(r: AcceptedIssuance, s: AcceptedIssuance)
    requires r.issuance.sourceNetwork == s.issuance.sourceNetwork && EventOf(r) == EventOf(s)
    ensures EventId(r.issuance) == EventId(s.issuance)
  {
  }

  lemma SortedCount(keep: AcceptedIssuance -> bool, rows: seq<AcceptedIssuance>)
    ensures |Filter(keep, Sort(EarlierRow, rows))| == |Filter(keep, rows)|
  {
    RowOrder();
    SortFilter(EarlierRow, keep, rows);
  }

  function Accepted(env: Env, input: RebuildInput): seq<AcceptedIssuance> {
    Sort(EarlierRow, FinalState(env, input).accepted)
  }

  /** No burn event is issued twice. */
  lemma OneRowPerEvent(env: Env, input: RebuildInput, e: Event)
    ensures |Filter(OfEvent(e), Accepted(env, input))| <= 1
  {
    RunOneRowPerEvent(env, input, Order(input), e);
    SortedCount(OfEvent(e), FinalState(env, input).accepted);
  }

  /* ---------- event ids name events ---------- */

  lemma {:induction false} DecimalHasOnlyDigits(n: nat, c: char)
    requires c in Text.Decimal(n)
    ensures '0' <= c <= '9'
  {
    var i :| 0 <= i < |Text.Decimal(n)| && Text.Decimal(n)[i] == c;
  }

  /** The letter o begins a locator and appears nowhere else in it. */
  lemma LocatorShape(l: Locator)
    ensures var s := Show(l); |s| > 6 && s[0] == 'o' && forall i | 0 < i < |s| :: s[i] != 'o'
  {
    var s := Show(l);
    var n := Text.Decimal(OuterOf(l));
    forall i | 0 < i < |s| ensures s[i] != 'o' {
      if l.Inner? {
        var m := Text.Decimal(l.inner);
        if 6 <= i < 6 + |n| { assert s[i] == n[i - 6] && s[i] in n; DecimalHasOnlyDigits(OuterOf(l), s[i]); }
        if i >= 13 + |n| { assert s[i] == m[i - 13 - |n|] && s[i] in m; DecimalHasOnlyDigits(l.inner, s[i]); }
      } else if i >= 6 {
        assert s[i] == n[i - 6] && s[i] in n;
        DecimalHasOnlyDigits(OuterOf(l), s[i]);
      }
    }
  }

  lemma ShowInjective(a: Locator, b: Locator)
    requires Show(a) == Show(b)
    ensures a == b
  {
    var s := Show(a);
    var m, n := Text.Decimal(OuterOf(a)), Text.Decimal(OuterOf(b));
    SlashAt(a);
    SlashAt(b);
    assert a.Inner? <==> b.Inner?;
    if a.Inner? {
      assert s[6 + |m|] == '/' && s[6 + |n|] == '/';
      assert |m| == |n|;
      assert m == s[6..6 + |m|] == n;
      assert Text.Decimal(a.inner) == s[13 + |m|..] == Text.Decimal(b.inner);
      Text.DecimalInjective(a.inner, b.inner);
    } else {
      assert m == s[6..] == n;
    }
    Text.DecimalInjective(OuterOf(a), OuterOf(b));
  }

  lemma SlashAt(l: Locator)
    ensures var s := Show(l); var n := |Text.Decimal(OuterOf(l))|;
            && (l.Outer? ==> forall i | 0 <= i < |s| :: s[i] != '/')
            && (l.Inner? ==> |s| > 13 + n && s[6 + n] == '/' && forall i | 0 <= i < |s| && i != 6 + n :: s[i] != '/')
  {
    var s := Show(l);
    var n := Text.Decimal(OuterOf(l));
    forall i | 0 <= i < |s| && (l.Inner? ==> i != 6 + |n|) ensures s[i] != '/' {
      if 6 <= i < 6 + |n| {
        assert s[i] == n[i - 6] && s[i] in n;
        DecimalHasOnlyDigits(OuterOf(l), s[i]);
      } else if l.Inner? && i >= 13 + |n| {
        var m := Text.Decimal(l.inner);
        assert s[i] == m[i - 13 - |n|] && s[i] in m;
        DecimalHasOnlyDigits(l.inner, s[i]);
      }
    }
  }

  lemma OneEnding(s: string, a: string, b: string)
    requires 0 < |a| <= |s| && 0 < |b| <= |s| && s[|s| - |a|..] == a && s[|s| - |b|..] == b
    requires a[0] == 'o' && forall i | 0 < i < |b| :: b[i] != 'o'
    ensures |a| >= |b|
  {
    var i := if |a| < |b| then |b| - |a| else 0;
    assert s[|s| - |b|..][i] == b[i];
    assert s[|s| - |a|..][0] == a[0];
  }

  /** A claim is turned away as a duplicate only for a burn event that was claimed. */
  lemma EventIdInjective(f: IssuanceFields, g: IssuanceFields)
    requires f.sourceNetwork == g.sourceNetwork && EventId(f) == EventId(g)
    ensures f.sourceTx == g.sourceTx && f.burnLocator == g.burnLocator
  {
    var s, net := EventId(f), SourceName(f.sourceNetwork) + ":";
    var a, b := Show(f.burnLocator), Show(g.burnLocator);
    LocatorShape(f.burnLocator);
    LocatorShape(g.burnLocator);
    assert s[|s| - |a|..] == a && s[|s| - |b|..] == b;
    OneEnding(s, a, b);
    OneEnding(s, b, a);
    ShowInjective(f.burnLocator, g.burnLocator);
    assert f.sourceTx == s[|net|..|s| - |a| - 1] == g.sourceTx;
  }

  /* ---------- one row for each publication ---------- */

  predicate FieldsOneLine(f: IssuanceFields) {
    && Text.OneLine(f.mint) && Text.OneLine(f.tokenProgram) && Text.OneLine(f.sourceTx)
    && Text.OneLine(f.destination) && Text.OneLine(f.burnAuthority) && Text.OneLine(f.nonce)
    && Text.OneLine(f.amountBase)
  }

  lemma DigitsOneLine(n: nat)
    ensures Text.OneLine(Text.Decimal(n))
  {
    forall c | c in Text.Decimal(n) ensures c != '\n' { DecimalHasOnlyDigits(n, c); }
  }

  lemma NamesOneLine(f: IssuanceFields)
    ensures Text.OneLine("stamp-exp") && Text.OneLine("0") && Text.OneLine(RoleName(f.authorityRole))
    ensures Text.OneLine(SourceName(f.sourceNetwork)) && Text.OneLine(DestName(f.destinationNetwork))
  {
  }

  lemma ShowOneLine(l: Locator)
    ensures Text.OneLine(Show(l))
  {
    DigitsOneLine(OuterOf(l));
    if l.Inner? { DigitsOneLine(l.inner); }
  }

  lemma AllFieldsOneLine(f: IssuanceFields)
    requires FieldsOneLine(f)
    ensures forall s | s in PreimageFields(f) :: Text.OneLine(s)
  {
    NamesOneLine(f);
    ShowOneLine(f.burnLocator);
    ShowOneLine(f.intentLocator);
    DigitsOneLine(if f.decimals < 0 then -f.decimals else f.decimals);
    assert Text.OneLine(Text.Integer(f.decimals));
    EachOneLine(PreimageFields(f), "stamp-exp", "0", SourceName(f.sourceNetwork), DestName(f.destinationNetwork),
                f.mint,
                f.tokenProgram, f.sourceTx, Show(f.burnLocator), f.amountBase, Text.Integer(f.decimals), f.destination,
                f.burnAuthority, RoleName(f.authorityRole), Show(f.intentLocator), f.nonce);
  }

  lemma EachOneLine(all: seq<string>, a: string, b: string, c: string, d: string, e: string, f: string, g: string,
                    h: string, i: string, j: string, k: string, l: string, m: string, n: string, o: string)
    requires all == [a, b, c, d, e, f, g, h, i, j, k, l, m, n, o]
    requires Text.OneLine(a) && Text.OneLine(b) && Text.OneLine(c) && Text.OneLine(d) && Text.OneLine(e)
    requires Text.OneLine(f) && Text.OneLine(g) && Text.OneLine(h) && Text.OneLine(i) && Text.OneLine(j)
    requires Text.OneLine(k) && Text.OneLine(l) && Text.OneLine(m) && Text.OneLine(n) && Text.OneLine(o)
    ensures forall s | s in all :: Text.OneLine(s)
  {
  }

  /** The preimage determines every field. */
  lemma PreimageInjective(f: IssuanceFields, g: IssuanceFields)
    requires FieldsOneLine(f) && FieldsOneLine(g) && CanonicalPreimage(f) == CanonicalPreimage(g)
    ensures f == g
  {
    AllFieldsOneLine(f);
    AllFieldsOneLine(g);
    Text.LinesInjective(PreimageFields(f), PreimageFields(g));
    var a, b := PreimageFields(f), PreimageFields(g);
    assert a[2] == b[2] && a[3] == b[3] && a[4] == b[4] && a[5] == b[5] && a[6] == b[6] && a[7] == b[7];
    assert a[8] == b[8] && a[9] == b[9] && a[10] == b[10] && a[11] == b[11] && a[12] == b[12] && a[13] == b[13];
    assert a[14] == b[14];
    ShowInjective(f.burnLocator, g.burnLocator);
    ShowInjective(f.intentLocator, g.intentLocator);
    Text.IntegerInjective(f.decimals, g.decimals);
    NamesDiffer(f, g);
  }

  lemma NamesDiffer(f: IssuanceFields, g: IssuanceFields)
    ensures SourceName(f.sourceNetwork) == SourceName(g.sourceNetwork) ==> f.sourceNetwork == g.sourceNetwork
    ensures DestName(f.destinationNetwork) == DestName(g.destinationNetwork)
            ==> f.destinationNetwork == g.destinationNetwork
    ensures RoleName(f.authorityRole) == RoleName(g.authorityRole) ==> f.authorityRole == g.authorityRole
  {
    assert |SourceName(SolanaDemo)| == 11 && |SourceName(SolanaDevnet)| == 13 && |SourceName(SolanaMainnet)| == 19;
    assert DestName(ZcashDemo)[6] == 'd' && DestName(ZcashTest)[6] == 't' && DestName(ZcashMain)[6] == 'm';
    assert |RoleName(Owner)| == 5 && |RoleName(Delegate)| == 8;
  }

  /** The hash tells the rows' preimages apart. */
  ghost predicate NoCollision(env: Env, rows: seq<AcceptedIssuance>) {
    forall r, s | r in rows && s in rows && CommitmentOf(env, r.issuance) == CommitmentOf(env, s.issuance) ::
      CanonicalPreimage(r.issuance) == CanonicalPreimage(s.issuance)
  }

  predicate UniqueTxids(zcash: seq<ZcashPublication>) {
    forall y, z | y in zcash && z in zcash && y.txid == z.txid :: y == z
  }

  /** The publication a row was accepted with. */
  ghost predicate BackedBy(env: Env, input: RebuildInput, row: AcceptedIssuance, z: ZcashPublication) {
    z in input.zcash && row == AcceptIssuance(env, row.issuance, z)
    && ValidPublication(env, row.issuance, z, input.minZcashConfirmations)
  }

  lemma MatchesValid(env: Env, input: RebuildInput, f: IssuanceFields)
    ensures forall z | z in Matches(env, input, f) ::
              z in input.zcash && ValidPublication(env, f, z, input.minZcashConfirmations)
  {
    var keep := Publishes(env, f, input.minZcashConfirmations);
    SortElements(EarlierTxid, Filter(keep, input.zcash));
    FilterElements(keep, input.zcash);
  }

  lemma {:induction false} RowsBacked(env: Env, input: RebuildInput, txs: seq<SolanaTx>)
    ensures forall row | row in Run(env, input, txs).accepted :: exists z :: BackedBy(env, input, row, z)
  {
    if txs != [] {
      var front, tx := txs[..|txs| - 1], txs[|txs| - 1];
      RowsBacked(env, input, front);
      StepAccepts(env, input, Run(env, input, front), tx);
      if Claim(env, input, tx).Passed? {
        var f := Claim(env, input, tx).issuance;
        MatchesValid(env, input, f);
        if Matches(env, input, f) != [] {
          var z := Matches(env, input, f)[0];
          assert z in Matches(env, input, f);
          assert BackedBy(env, input, AcceptIssuance(env, f, z), z);
        }
      }
    }
  }

  lemma SamePublicationSameIssuance(env: Env, input: RebuildInput, rows: seq<AcceptedIssuance>, r: AcceptedIssuance,
                                    s: AcceptedIssuance, y: ZcashPublication, z: ZcashPublication)
    requires UniqueTxids(input.zcash) && NoCollision(env, rows) && r in rows && s in rows && r.zcashTx == s.zcashTx
    requires BackedBy(env, input, r, y) && BackedBy(env, input, s, z)
    requires FieldsOneLine(r.issuance) && FieldsOneLine(s.issuance)
    ensures r.issuance == s.issuance
  {
    assert y.txid == r.zcashTx && z.txid == s.zcashTx;
    var a, b := CommitmentOf(env, r.issuance), CommitmentOf(env, s.issuance);
    assert EncodeOpReturnPayload(a) == EncodeOpReturnPayload(b);
    assert a == EncodeOpReturnPayload(a)[6..] && b == EncodeOpReturnPayload(b)[6..];
    PreimageInjective(r.issuance, s.issuance);
  }

  lemma {:induction false} FilterNarrower(p: AcceptedIssuance -> bool, q: AcceptedIssuance -> bool,
                                          rows: seq<AcceptedIssuance>)
    requires forall r | r in rows && p(r) :: q(r)
    ensures |Filter(p, rows)| <= |Filter(q, rows)|
  {
    if rows != [] {
      var front, last := rows[..|rows| - 1], rows[|rows| - 1];
      DropLast(rows);
      FilterNarrower(p, q, front);
      FilterLast(p, front, last);
      FilterLast(q, front, last);
      assert rows == front + [last] && last in rows;
    }
  }

  /** The fields that come from free text have no line feed. */
  predicate TextOneLine(f: IssuanceFields) {
    Text.OneLine(f.mint) && Text.OneLine(f.sourceTx) && Text.OneLine(f.destination) && Text.OneLine(f.burnAuthority)
  }

  /** The other fields of a claim never have one. */
  predicate PlainFields(f: IssuanceFields) {
    Text.OneLine(f.tokenProgram) && Text.OneLine(f.amountBase) && Text.OneLine(f.nonce)
  }

  lemma NonceOneLine(i: Instruction)
    ensures ReadIntent(i).Some? ==> Text.OneLine(ReadIntent(i).value.intent.nonce)
  {
  }

  lemma {:induction false} NoncesOneLine(instructions: seq<Instruction>)
    ensures forall i | i in IntentsIn(instructions) :: Text.OneLine(i.intent.nonce)
  {
    if instructions != [] {
      NonceOneLine(instructions[0]);
      NoncesOneLine(instructions[1..]);
    }
  }

  lemma ReadBurnProgram(i: Instruction)
    ensures ReadBurn(i).Some? ==>
              ReadBurn(i).value.programId == TOKEN_PROGRAM_ID || ReadBurn(i).value.programId == TOKEN_2022_PROGRAM_ID
  {
  }

  lemma {:induction false} FirstBurnProgram(instructions: seq<Instruction>)
    ensures var b := FirstBurn(instructions);
            b.Some? ==> b.value.programId == TOKEN_PROGRAM_ID || b.value.programId == TOKEN_2022_PROGRAM_ID
  {
    if instructions != [] {
      ReadBurnProgram(instructions[0]);
      FirstBurnProgram(instructions[1..]);
    }
  }

  lemma ProgramsOneLine()
    ensures Text.OneLine(TOKEN_PROGRAM_ID) && Text.OneLine(TOKEN_2022_PROGRAM_ID)
  {
  }

  lemma ClaimPlain(env: Env, input: RebuildInput, tx: SolanaTx)
    requires Claim(env, input, tx).Passed?
    ensures PlainFields(Claim(env, input, tx).issuance)
  {
    FirstBurnProgram(tx.instructions);
    ProgramsOneLine();
    NoncesOneLine(tx.instructions);
    DigitsOneLine(DecodeBurn(tx).value.amountBase);
    assert DecodeIntents(tx)[0] in DecodeIntents(tx);
  }

  lemma {:induction false} RowsPlain(env: Env, input: RebuildInput, txs: seq<SolanaTx>)
    ensures forall row | row in Run(env, input, txs).accepted :: PlainFields(row.issuance)
  {
    if txs != [] {
      var front, tx := txs[..|txs| - 1], txs[|txs| - 1];
      RowsPlain(env, input, front);
      StepAccepts(env, input, Run(env, input, front), tx);
      if Claim(env, input, tx).Passed? { ClaimPlain(env, input, tx); }
    }
  }

  /** No publication backs two rows. */
  lemma OneRowPerPublication(env: Env, input: RebuildInput, txid: string)
    requires UniqueTxids(input.zcash) && NoCollision(env, Accepted(env, input))
    requires forall row | row in Accepted(env, input) :: TextOneLine(row.issuance)
    ensures |Filter(PublishedIn(txid), Accepted(env, input))| <= 1
  {
    RowsPlain(env, input, Order(input));
    var rows := Accepted(env, input);
    FilterElements(PublishedIn(txid), rows);
    if Filter(PublishedIn(txid), rows) != [] {
      var r := Filter(PublishedIn(txid), rows)[0];
      assert r in Filter(PublishedIn(txid), rows);
      SortElements(EarlierRow, FinalState(env, input).accepted);
      RowsBacked(env, input, Order(input));
      var y :| BackedBy(env, input, r, y);
      forall s | s in rows && PublishedIn(txid)(s) ensures OfEvent(EventOf(r))(s) {
        var z :| BackedBy(env, input, s, z);
        SamePublicationSameIssuance(env, input, rows, r, s, y, z);
      }
      FilterNarrower(PublishedIn(txid), OfEvent(EventOf(r)), rows);
      OneRowPerEvent(env, input, EventOf(r));
    }
  }

  /* ---------- conservation ---------- */

  /** Base units of a mint a transaction destroyed for good. */
  function BurnedUnits(mint: string): SolanaTx -> int {
    (tx: SolanaTx) =>
      if tx.finalized && !tx.failed && DecodeBurn(tx).Some? && DecodeBurn(tx).value.mint == mint
      then DecodeBurn(tx).value.amountBase else 0
  }

  lemma {:induction false} UnitsAppend(rows: seq<AcceptedIssuance>, row: AcceptedIssuance, mint: string)
    ensures Units(rows + [row], mint)
            == Units(rows, mint) + if row.issuance.mint == mint && Text.AllDigits(row.issuance.amountBase)
                                   then Text.Numeral(row.issuance.amountBase) else 0
  {
    assert (rows + [row])[..|rows|] == rows;
  }

  /** A claim that passes is for exactly what its transaction destroyed. */
  lemma ClaimIsBurn(env: Env, input: RebuildInput, tx: SolanaTx, mint: string)
    requires Claim(env, input, tx).Passed?
    ensures var f := Claim(env, input, tx).issuance;
            && Text.AllDigits(f.amountBase)
            && BurnedUnits(mint)(tx) == if f.mint == mint then Text.Numeral(f.amountBase) else 0
  {
    Text.DecimalRoundTrip(DecodeBurn(tx).value.amountBase);
  }

  lemma {:induction false} RunConserves(env: Env, input: RebuildInput, txs: seq<SolanaTx>, mint: string)
    ensures Units(Run(env, input, txs).accepted, mint) <= Sum(BurnedUnits(mint), txs)
  {
    if txs != [] {
      var front, tx := txs[..|txs| - 1], txs[|txs| - 1];
      var st := Run(env, input, front);
      RunConserves(env, input, front, mint);
      StepAccepts(env, input, st, tx);
      if Claim(env, input, tx).Passed? {
        ClaimIsBurn(env, input, tx, mint);
        var f := Claim(env, input, tx).issuance;
        if Matches(env, input, f) != [] {
          UnitsAppend(st.accepted, AcceptIssuance(env, f, Matches(env, input, f)[0]), mint);
        }
      }
    }
  }

  function RowUnits(mint: string): AcceptedIssuance -> int {
    (row: AcceptedIssuance) =>
      if row.issuance.mint == mint && Text.AllDigits(row.issuance.amountBase)
      then Text.Numeral(row.issuance.amountBase) else 0
  }

  lemma {:induction false} UnitsAreSum(rows: seq<AcceptedIssuance>, mint: string)
    ensures Units(rows, mint) == Sum(RowUnits(mint), rows)
  {
    if rows != [] {
      UnitsAreSum(rows[..|rows| - 1], mint);
    }
  }

  /** The units issued are at most the units burned. */
  lemma UnitsBacked(env: Env, input: RebuildInput, mint: string)
    ensures Units(Accepted(env, input), mint) <= Sum(BurnedUnits(mint), input.solana)
  {
    var rows := FinalState(env, input).accepted;
    SortMultiset(EarlierRow, rows);
    UnitsAreSum(rows, mint);
    UnitsAreSum(Accepted(env, input), mint);
    SumPart(RowUnits(mint), Accepted(env, input), rows);
    RunConserves(env, input, Order(input), mint);
    SortMultiset(EarlierBurn, input.solana);
    SumPart(BurnedUnits(mint), Order(input), input.solana);
  }

  /* ---------- order independence ---------- */

  /** The same but for the reason a claim is pending, which looks at publications in the order given. */
  predicate SameButReasons(a: State, b: State) {
    && a.accepted == b.accepted && a.rejected == b.rejected && a.seen == b.seen && |a.pending| == |b.pending|
    && forall i | 0 <= i < |a.pending| :: a.pending[i].sourceTx == b.pending[i].sourceTx
  }

  lemma SameMatches(keep: ZcashPublication -> bool, a: seq<ZcashPublication>, b: seq<ZcashPublication>)
    requires multiset(a) == multiset(b)
    ensures multiset(Filter(keep, a)) == multiset(Filter(keep, b))
  {
    forall z ensures multiset(Filter(keep, a))[z] == multiset(Filter(keep, b))[z] {
      FilterCount(keep, a, z);
      FilterCount(keep, b, z);
    }
  }

  lemma MatchesOrderFree(env: Env, a: RebuildInput, b: RebuildInput, f: IssuanceFields)
    requires a.minZcashConfirmations == b.minZcashConfirmations
    requires multiset(a.zcash) == multiset(b.zcash) && UniqueTxids(a.zcash)
    ensures Matches(env, a, f) == Matches(env, b, f)
  {
    var keep := Publishes(env, f, a.minZcashConfirmations);
    TxidOrder();
    SameMatches(keep, a.zcash, b.zcash);
    FilterElements(keep, a.zcash);
    forall y, z | y in Filter(keep, a.zcash) && z in Filter(keep, a.zcash) && y != z
      ensures EarlierTxid(y, z) || EarlierTxid(z, y)
    {
      StringOrder(y.txid, z.txid);
    }
    SortPermutation(EarlierTxid, Filter(keep, a.zcash), Filter(keep, b.zcash));
  }

  lemma SameSettings(a: RebuildInput, b: RebuildInput)
    requires a.(solana := [], zcash := []) == b.(solana := [], zcash := [])
    ensures a.sourceNetwork == b.sourceNetwork && a.destinationNetwork == b.destinationNetwork
    ensures a.minZcashConfirmations == b.minZcashConfirmations
  {
    var c, d := a.(solana := [], zcash := []), b.(solana := [], zcash := []);
    assert a.sourceNetwork == c.sourceNetwork && a.destinationNetwork == c.destinationNetwork
        && a.minZcashConfirmations == c.minZcashConfirmations;
    assert d.sourceNetwork == b.sourceNetwork && d.destinationNetwork == b.destinationNetwork
        && d.minZcashConfirmations == b.minZcashConfirmations;
  }

  lemma StepOrderFree(env: Env, a: RebuildInput, b: RebuildInput, s: State, t: State, tx: SolanaTx)
    requires a.(solana := [], zcash := []) == b.(solana := [], zcash := [])
    requires multiset(a.zcash) == multiset(b.zcash) && UniqueTxids(a.zcash) && SameButReasons(s, t)
    ensures SameButReasons(Step(env, a, s, tx), Step(env, b, t, tx))
  {
    SameSettings(a, b);
    SameClaim(env, a, b, tx);
    if Claim(env, a, tx).Passed? { MatchesOrderFree(env, a, b, Claim(env, a, tx).issuance); }
    StepAlike(env, a, b, s, t, tx);
  }

  lemma SameClaim(env: Env, a: RebuildInput, b: RebuildInput, tx: SolanaTx)
    requires a.sourceNetwork == b.sourceNetwork && a.destinationNetwork == b.destinationNetwork
    ensures Claim(env, a, tx) == Claim(env, b, tx)
  {
  }

  lemma StepAlike(env: Env, a: RebuildInput, b: RebuildInput, s: State, t: State, tx: SolanaTx)
    requires SameButReasons(s, t) && Claim(env, a, tx) == Claim(env, b, tx)
    requires Claim(env, a, tx).Passed? ==>
               var f := Claim(env, a, tx).issuance; Matches(env, a, f) == Matches(env, b, f)
    ensures SameButReasons(Step(env, a, s, tx), Step(env, b, t, tx))
  {
  }

  lemma {:induction false} RunOrderFree(env: Env, a: RebuildInput, b: RebuildInput, txs: seq<SolanaTx>)
    requires a.(solana := [], zcash := []) == b.(solana := [], zcash := [])
    requires multiset(a.zcash) == multiset(b.zcash) && UniqueTxids(a.zcash)
    ensures SameButReasons(Run(env, a, txs), Run(env, b, txs))
  {
    if txs != [] {
      RunOrderFree(env, a, b, txs[..|txs| - 1]);
      StepOrderFree(env, a, b, Run(env, a, txs[..|txs| - 1]), Run(env, b, txs[..|txs| - 1]), txs[|txs| - 1]);
    }
  }

  predicate SignatureDetermines(solana: seq<SolanaTx>) {
    forall x, y | x in solana && y in solana && x.signature == y.signature :: x == y
  }

  lemma SameOrder(a: seq<SolanaTx>, b: seq<SolanaTx>)
    requires multiset(a) == multiset(b) && SignatureDetermines(a)
    ensures Sort(EarlierBurn, a) == Sort(EarlierBurn, b)
  {
    BurnOrder();
    forall x, y | x in a && y in a && x != y ensures EarlierBurn(x, y) || EarlierBurn(y, x) {
      StringOrder(x.signature, y.signature);
    }
    SortPermutation(EarlierBurn, a, b);
  }

  /** Two readers given the same transactions and publications in any two orders accept the same rows, and with them
      the same units. */
  lemma OrderFree(env: Env, a: RebuildInput, b: RebuildInput)
    requires a.(solana := [], zcash := []) == b.(solana := [], zcash := [])
    requires multiset(a.solana) == multiset(b.solana) && SignatureDetermines(a.solana)
    requires multiset(a.zcash) == multiset(b.zcash) && UniqueTxids(a.zcash)
    ensures SameButReasons(FinalState(env, a), FinalState(env, b)) && Accepted(env, a) == Accepted(env, b)
  {
    SameOrder(a.solana, b.solana);
    RunOrderFree(env, a, b, Order(a));
  }

  /* ---------- pending reasons ---------- */

  predicate Mentioned(z: ZcashPublication, commitment: Digest) { FirstOutput(z.outputs, Mentions(commitment)).Some? }

  predicate Deep(z: ZcashPublication, minConfirmations: int) { z.inBestChain && z.confirmations >= minConfirmations }

  /** The publications that mention a claim's commitment are all settled or all not. */
  predicate MentionsAgree(env: Env, input: RebuildInput, f: IssuanceFields) {
    forall y, z | y in input.zcash && z in input.zcash
                  && Mentioned(y, CommitmentOf(env, f)) && Mentioned(z, CommitmentOf(env, f)) ::
      Deep(y, input.minZcashConfirmations) == Deep(z, input.minZcashConfirmations)
  }

  lemma {:induction false} FirstMentionFacts(zcash: seq<ZcashPublication>, commitment: Digest)
    ensures var first := FirstMention(zcash, commitment);
            && (first.Some? ==> first.value in zcash && Mentioned(first.value, commitment))
            && (first.None? ==> forall z | z in zcash :: !Mentioned(z, commitment))
  {
    if zcash != [] {
      FirstMentionFacts(zcash[1..], commitment);
      assert zcash == [zcash[0]] + zcash[1..];
    }
  }

  lemma SameReason(env: Env, a: RebuildInput, b: RebuildInput, f: IssuanceFields)
    requires a.minZcashConfirmations == b.minZcashConfirmations && multiset(a.zcash) == multiset(b.zcash)
    requires MentionsAgree(env, a, f)
    ensures WhyPending(env, a, f) == WhyPending(env, b, f)
  {
    SameElements(a.zcash, b.zcash);
    FirstMentionFacts(a.zcash, CommitmentOf(env, f));
    FirstMentionFacts(b.zcash, CommitmentOf(env, f));
    var x, y := FirstMention(a.zcash, CommitmentOf(env, f)), FirstMention(b.zcash, CommitmentOf(env, f));
    if x.Some? && y.Some? { assert Deep(x.value, a.minZcashConfirmations) == Deep(y.value, a.minZcashConfirmations); }
  }

  /** With the publication listed first, it decides the reason. */
  lemma MentionFirst(env: Env, input: RebuildInput, f: IssuanceFields, z: ZcashPublication)
    returns (zcash: seq<ZcashPublication>)
    requires z in input.zcash && Mentioned(z, CommitmentOf(env, f))
    ensures multiset(zcash) == multiset(input.zcash)
    ensures WhyPending(env, input.(zcash := zcash), f)
            == if Deep(z, input.minZcashConfirmations) then PublicationPending else ConfirmationPending
  {
    var i :| 0 <= i < |input.zcash| && input.zcash[i] == z;
    zcash := [z] + (input.zcash[..i] + input.zcash[i + 1..]);
    RemoveAt(input.zcash, i);
    assert zcash[0] == z;
  }

  /** A claim is pending for the same reason whatever order the publications are given in if and only if those that
      mention its commitment are all settled or all not. */
  lemma ReasonOrderFreeIff(env: Env, input: RebuildInput, f: IssuanceFields)
    ensures MentionsAgree(env, input, f)
            <==> forall zcash | multiset(zcash) == multiset(input.zcash) ::
                   WhyPending(env, input.(zcash := zcash), f) == WhyPending(env, input, f)
  {
    if MentionsAgree(env, input, f) {
      forall zcash | multiset(zcash) == multiset(input.zcash)
        ensures WhyPending(env, input.(zcash := zcash), f) == WhyPending(env, input, f)
      {
        SameReason(env, input, input.(zcash := zcash), f);
      }
    } else {
      var c := CommitmentOf(env, f);
      var y, z :| y in input.zcash && z in input.zcash && Mentioned(y, c) && Mentioned(z, c)
                  && Deep(y, input.minZcashConfirmations) != Deep(z, input.minZcashConfirmations);
      var yFirst := MentionFirst(env, input, f, y);
      var zFirst := MentionFirst(env, input, f, z);
      assert WhyPending(env, input.(zcash := yFirst), f) != WhyPending(env, input.(zcash := zFirst), f);
    }
  }

  ghost predicate AllMentionsAgree(env: Env, input: RebuildInput) {
    forall tx | tx in input.solana && Claim(env, input, tx).Passed? ::
      MentionsAgree(env, input, Claim(env, input, tx).issuance)
  }

  lemma StepSame(env: Env, a: RebuildInput, b: RebuildInput, st: State, tx: SolanaTx)
    requires a.(solana := [], zcash := []) == b.(solana := [], zcash := [])
    requires multiset(a.zcash) == multiset(b.zcash) && UniqueTxids(a.zcash)
    requires Claim(env, a, tx).Passed? ==> MentionsAgree(env, a, Claim(env, a, tx).issuance)
    ensures Step(env, a, st, tx) == Step(env, b, st, tx)
  {
    SameSettings(a, b);
    assert Claim(env, a, tx) == Claim(env, b, tx);
    if Claim(env, a, tx).Passed? {
      MatchesOrderFree(env, a, b, Claim(env, a, tx).issuance);
      SameReason(env, a, b, Claim(env, a, tx).issuance);
    }
  }

  lemma {:induction false} RunSame(env: Env, a: RebuildInput, b: RebuildInput, txs: seq<SolanaTx>)
    requires a.(solana := [], zcash := []) == b.(solana := [], zcash := [])
    requires multiset(a.zcash) == multiset(b.zcash) && UniqueTxids(a.zcash)
    requires forall tx | tx in txs && Claim(env, a, tx).Passed? :: MentionsAgree(env, a, Claim(env, a, tx).issuance)
    ensures Run(env, a, txs) == Run(env, b, txs)
  {
    if txs != [] {
      DropLast(txs);
      assert txs[|txs| - 1] in txs;
      RunSame(env, a, b, txs[..|txs| - 1]);
      StepSame(env, a, b, Run(env, a, txs[..|txs| - 1]), txs[|txs| - 1]);
    }
  }

  /** And where that is so of every claim, the two readers agree on the pending rows too. */
  lemma ReasonsOrderFree(env: Env, a: RebuildInput, b: RebuildInput)
    requires a.(solana := [], zcash := []) == b.(solana := [], zcash := [])
    requires multiset(a.solana) == multiset(b.solana) && SignatureDetermines(a.solana)
    requires multiset(a.zcash) == multiset(b.zcash) && UniqueTxids(a.zcash)
    requires AllMentionsAgree(env, a)
    ensures FinalState(env, a) == FinalState(env, b)
  {
    SameOrder(a.solana, b.solana);
    SortElements(EarlierBurn, a.solana);
    RunSame(env, a, b, Order(a));
  }

  /* ---------- the recorded output ---------- */

  predicate DistinctIndexes(outputs: seq<ZcashOutput>) {
    forall i, j | 0 <= i < j < |outputs| :: outputs[i].index != outputs[j].index
  }

  /** The index a row records is the checked output's if and only if the first output to the destination is one that
      pays enough; otherwise it is the index of an output nobody checked. */
  lemma RecordedIsChecked(env: Env, f: IssuanceFields, z: ZcashPublication, minConfirmations: int)
    requires ValidPublication(env, f, z, minConfirmations) && DistinctIndexes(z.outputs)
    ensures var dest := FirstOutput(z.outputs, AddressedTo(f.destination));
            var paid := FirstOutput(z.outputs, PaidTo(f.destination, DESTINATION_NOTICE_ZATOSHIS));
            && dest.Some? && paid.Some?
            && (AcceptIssuance(env, f, z).zcashOutputIndex == paid.value.index
                <==> dest.value.valueZat >= DESTINATION_NOTICE_ZATOSHIS)
  {
    var dest := FirstOutput(z.outputs, AddressedTo(f.destination));
    var paid := FirstOutput(z.outputs, PaidTo(f.destination, DESTINATION_NOTICE_ZATOSHIS));
    FirstAddressed(z.outputs, f.destination);
    FirstOutputIn(z.outputs, AddressedTo(f.destination));
    FirstOutputIn(z.outputs, PaidTo(f.destination, DESTINATION_NOTICE_ZATOSHIS));
    if dest.value.index == paid.value.index {
      var i :| 0 <= i < |z.outputs| && z.outputs[i] == dest.value;
      var j :| 0 <= j < |z.outputs| && z.outputs[j] == paid.value;
      assert i == j;
    }
  }

  lemma {:induction false} FirstOutputIn(outputs: seq<ZcashOutput>, p: ZcashOutput -> bool)
    ensures FirstOutput(outputs, p).Some? ==> FirstOutput(outputs, p).value in outputs
  {
    if outputs != [] {
      FirstOutputIn(outputs[1..], p);
      assert outputs == [outputs[0]] + outputs[1..];
    }
  }

  /** A publication that pays the destination too little first, and enough after its commitment. */
  function LowFirst(env: Env, f: IssuanceFields, txid: string, low: int, confirmations: int): ZcashPublication {
    ZcashPublication(txid, f.destinationNetwork, Some(1), confirmations, true, [
      ZcashOutput(0, low, Some(f.destination), None),
      ZcashOutput(1, 0, None, Some(EncodeOpReturnPayload(CommitmentOf(env, f)))),
      ZcashOutput(2, DESTINATION_NOTICE_ZATOSHIS, Some(f.destination), None)])
  }

  /** For every claim such a publication is valid, and the row it yields records output 0, which failed the check. */
  lemma LowFirstRecorded(env: Env, f: IssuanceFields, txid: string, low: int, confirmations: int)
    requires low < DESTINATION_NOTICE_ZATOSHIS
    ensures var z := LowFirst(env, f, txid, low, confirmations);
            && ValidPublication(env, f, z, confirmations) && DistinctIndexes(z.outputs)
            && AcceptIssuance(env, f, z).zcashOutputIndex == 0
            && FirstOutput(z.outputs, PaidTo(f.destination, DESTINATION_NOTICE_ZATOSHIS)).Some?
            && FirstOutput(z.outputs, PaidTo(f.destination, DESTINATION_NOTICE_ZATOSHIS)).value.index == 2
  {
    var z, c := LowFirst(env, f, txid, low, confirmations), CommitmentOf(env, f);
    var p := EncodeOpReturnPayload(c);
    assert p[..4] == OP_RETURN_MAGIC && p[6..] == c;
    assert DecodeOpReturnPayload(p) == Some(c);
    var second, third := z.outputs[1..], z.outputs[1..][1..];
    assert second[0] == z.outputs[1] && third[0] == z.outputs[2];
    assert FirstOutput(z.outputs, CarriesPayload) == FirstOutput(second, CarriesPayload) == Some(z.outputs[1]);
    var enough := PaidTo(f.destination, DESTINATION_NOTICE_ZATOSHIS);
    assert !enough(z.outputs[0]) && !enough(z.outputs[1]) && enough(z.outputs[2]);
    assert FirstOutput(z.outputs, enough) == FirstOutput(second, enough);
    assert FirstOutput(second, enough) == FirstOutput(third, enough) == Some(z.outputs[2]);
  }

  lemma {:induction false} FirstAddressed(outputs: seq<ZcashOutput>, address: string)
    requires FirstOutput(outputs, PaidTo(address, DESTINATION_NOTICE_ZATOSHIS)).Some?
    ensures var dest := FirstOutput(outputs, AddressedTo(address));
            var paid := FirstOutput(outputs, PaidTo(address, DESTINATION_NOTICE_ZATOSHIS));
            && dest.Some? && paid.value.valueZat >= DESTINATION_NOTICE_ZATOSHIS
            && (dest.value.valueZat >= DESTINATION_NOTICE_ZATOSHIS ==> dest == paid)
  {
    if outputs[0].address != Some(address) {
      FirstAddressed(outputs[1..], address);
    } else if outputs[0].valueZat < DESTINATION_NOTICE_ZATOSHIS {
      PaidValue(outputs[1..], address);
    }
  }

  lemma {:induction false} PaidValue(outputs: seq<ZcashOutput>, address: string)
    ensures var paid := FirstOutput(outputs, PaidTo(address, DESTINATION_NOTICE_ZATOSHIS));
            paid.Some? ==> paid.value.valueZat >= DESTINATION_NOTICE_ZATOSHIS
  {
    if outputs != [] {
      PaidValue(outputs[1..], address);
    }
  }
}
