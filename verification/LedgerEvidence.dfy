/** Exactly which rows the ledger holds, told from the transactions and publications alone. */
module LedgerEvidence {
  import opened Bytes
  import opened Issuance
  import opened IssuanceEvidence
  import opened Ledger
  import opened LedgerRules
  import opened Ordering
  import opened Types

  /* ---------- publications ---------- */

  /** The four magic bytes, two zeros and 32 bytes more. */
  predicate Tagged(o: ZcashOutput) {
    o.nullData.Some? && |o.nullData.value| == 38 && o.nullData.value[..6] == [0x53, 0x54, 0x4d, 0x50, 0, 0]
  }

  lemma TaggedIff(o: ZcashOutput)
    ensures CarriesPayload(o) <==> Tagged(o)
  {
    if o.nullData.Some? && |o.nullData.value| == 38 {
      var d := o.nullData.value;
      assert d[..6] == d[..4] + [d[4], d[5]];
      assert [0x53, 0x54, 0x4d, 0x50, 0, 0] == OP_RETURN_MAGIC + [0, 0];
    }
  }

  /** Output k is the first that is tagged. */
  predicate FirstTagged(outputs: seq<ZcashOutput>, k: nat) {
    k < |outputs| && Tagged(outputs[k]) && forall j | 0 <= j < k :: !Tagged(outputs[j])
  }

  lemma {:induction false} FirstOutputAt(outputs: seq<ZcashOutput>, p: ZcashOutput -> bool) returns (k: nat)
    ensures k <= |outputs| && forall j | 0 <= j < k :: !p(outputs[j])
    ensures FirstOutput(outputs, p) == if k < |outputs| then Some(outputs[k]) else None
    ensures k < |outputs| ==> p(outputs[k])
  {
    if outputs == [] || p(outputs[0]) {
      k := 0;
    } else {
      var m := FirstOutputAt(outputs[1..], p);
      k := m + 1;
      forall j | 0 <= j < k ensures !p(outputs[j]) {
        if j > 0 { assert outputs[1..][j - 1] == outputs[j]; }
      }
    }
  }

  /** The first tagged output carries the issuance's commitment, some output pays its destination ten thousand
      zatoshi, and the transaction is deep enough on the right chain. */
  predicate Carries(env: Env, f: IssuanceFields, z: ZcashPublication, minConfirmations: int, k: nat) {
    && FirstTagged(z.outputs, k)
    && z.outputs[k].nullData == Some([0x53, 0x54, 0x4d, 0x50, 0, 0] + CommitmentOf(env, f))
    && (exists j | 0 <= j < |z.outputs| ::
          z.outputs[j].address == Some(f.destination) && z.outputs[j].valueZat >= 10_000)
    && z.network == f.destinationNetwork && z.inBestChain && z.confirmations >= minConfirmations
  }

  lemma FirstTaggedIs(outputs: seq<ZcashOutput>) returns (k: nat)
    ensures k <= |outputs|
    ensures k < |outputs| ==> FirstTagged(outputs, k) && FirstOutput(outputs, CarriesPayload) == Some(outputs[k])
    ensures k == |outputs| ==> FirstOutput(outputs, CarriesPayload) == None
    ensures forall m: nat | FirstTagged(outputs, m) :: m == k
  {
    k := FirstOutputAt(outputs, CarriesPayload);
    forall j | 0 <= j < |outputs| ensures CarriesPayload(outputs[j]) <==> Tagged(outputs[j]) { TaggedIff(outputs[j]); }
  }

  lemma PaidIff(outputs: seq<ZcashOutput>, address: string)
    ensures FirstOutput(outputs, PaidTo(address, DESTINATION_NOTICE_ZATOSHIS)).Some?
            <==> exists j | 0 <= j < |outputs| :: outputs[j].address == Some(address) && outputs[j].valueZat >= 10_000
  {
    var k := FirstOutputAt(outputs, PaidTo(address, DESTINATION_NOTICE_ZATOSHIS));
  }

  lemma PublicationIff(env: Env, f: IssuanceFields, z: ZcashPublication, minConfirmations: int)
    ensures ValidPublication(env, f, z, minConfirmations) <==> exists k: nat :: Carries(env, f, z, minConfirmations, k)
  {
    var k := FirstTaggedIs(z.outputs);
    PaidIff(z.outputs, f.destination);
    assert EncodeOpReturnPayload(CommitmentOf(env, f)) == [0x53, 0x54, 0x4d, 0x50, 0, 0] + CommitmentOf(env, f) by {
      assert OP_RETURN_MAGIC + [0, 0] == [0x53, 0x54, 0x4d, 0x50, 0, 0];
    }
    if ValidPublication(env, f, z, minConfirmations) { assert Carries(env, f, z, minConfirmations, k); }
  }

  /* ---------- rows ---------- */

  /** Of the publications that carry the issuance, this one has the smallest id. */
  ghost predicate Chosen(env: Env, input: RebuildInput, f: IssuanceFields, z: ZcashPublication) {
    && z in input.zcash && (exists k: nat :: Carries(env, f, z, input.minZcashConfirmations, k))
    && forall y, k: nat | y in input.zcash && Carries(env, f, y, input.minZcashConfirmations, k) ::
         !StringLess(y.txid, z.txid)
  }

  /** The row records the issuance, its commitment, the publication and the place of the commitment in it. */
  ghost predicate Records(env: Env, input: RebuildInput, row: AcceptedIssuance, z: ZcashPublication) {
    && row.commitmentHex == ToHex(CommitmentOf(env, row.issuance))
    && row.zcashTx == z.txid && row.confirmations == z.confirmations
    && row.zcashHeight == (if z.height.Some? then z.height.value else 0)
    && exists k: nat :: Carries(env, row.issuance, z, input.minZcashConfirmations, k)
                        && row.zcashNullDataIndex == z.outputs[k].index
  }

  lemma ChosenIsFirst(env: Env, input: RebuildInput, f: IssuanceFields)
    requires Matches(env, input, f) != []
    ensures Chosen(env, input, f, Matches(env, input, f)[0])
  {
    var keep := Publishes(env, f, input.minZcashConfirmations);
    var z := Matches(env, input, f)[0];
    MatchesValid(env, input, f);
    assert z in Matches(env, input, f);
    PublicationIff(env, f, z, input.minZcashConfirmations);
    TxidOrder();
    SortSorted(EarlierTxid, Filter(keep, input.zcash));
    SortElements(EarlierTxid, Filter(keep, input.zcash));
    FilterElements(keep, input.zcash);
    forall y, k: nat | y in input.zcash && Carries(env, f, y, input.minZcashConfirmations, k)
      ensures !StringLess(y.txid, z.txid)
    {
      PublicationIff(env, f, y, input.minZcashConfirmations);
      assert y in Matches(env, input, f);
      StringOrder(z.txid, z.txid);
    }
  }

  lemma MatchesEmptyIff(env: Env, input: RebuildInput, f: IssuanceFields)
    ensures Matches(env, input, f) == []
            <==> forall z, k: nat | z in input.zcash :: !Carries(env, f, z, input.minZcashConfirmations, k)
  {
    var keep := Publishes(env, f, input.minZcashConfirmations);
    SortElements(EarlierTxid, Filter(keep, input.zcash));
    FilterElements(keep, input.zcash);
    forall z ensures keep(z) <==> exists k: nat :: Carries(env, f, z, input.minZcashConfirmations, k) {
      PublicationIff(env, f, z, input.minZcashConfirmations);
    }
    if Matches(env, input, f) != [] {
      assert Matches(env, input, f)[0] in Matches(env, input, f);
    }
  }

  lemma AcceptRecords(env: Env, input: RebuildInput, f: IssuanceFields, z: ZcashPublication)
    requires exists k: nat :: Carries(env, f, z, input.minZcashConfirmations, k)
    ensures Records(env, input, AcceptIssuance(env, f, z), z) && AcceptIssuance(env, f, z).issuance == f
  {
    var k: nat :| Carries(env, f, z, input.minZcashConfirmations, k);
    var m := FirstTaggedIs(z.outputs);
    assert k == m;
  }

  /** What a row stands on: a transaction that issues, and the publication chosen for it. */
  ghost predicate Stands(env: Env, input: RebuildInput, row: AcceptedIssuance) {
    && (exists tx, b, l :: tx in input.solana && Issues(env, input, tx, b, l, row.issuance))
    && (exists z :: Chosen(env, input, row.issuance, z) && Records(env, input, row, z))
  }

  lemma {:induction false} RowsStand(env: Env, input: RebuildInput, txs: seq<SolanaTx>)
    requires forall tx | tx in txs :: tx in input.solana
    ensures forall row | row in Run(env, input, txs).accepted :: Stands(env, input, row)
  {
    if txs != [] {
      var front, tx := txs[..|txs| - 1], txs[|txs| - 1];
      assert forall t | t in front :: t in txs;
      assert tx in txs;
      RowsStand(env, input, front);
      StepAccepts(env, input, Run(env, input, front), tx);
      if Claim(env, input, tx).Passed? {
        var f := Claim(env, input, tx).issuance;
        PassedIff(env, input, tx, f);
        if Matches(env, input, f) != [] { NewRowStands(env, input, tx, f); }
      }
    }
  }

  lemma NewRowStands(env: Env, input: RebuildInput, tx: SolanaTx, f: IssuanceFields)
    requires tx in input.solana && (exists b, l :: Issues(env, input, tx, b, l, f)) && Matches(env, input, f) != []
    ensures Stands(env, input, AcceptIssuance(env, f, Matches(env, input, f)[0]))
  {
    var z := Matches(env, input, f)[0];
    ChosenIsFirst(env, input, f);
    AcceptRecords(env, input, f, z);
  }

  /* ---------- no issuance is left out ---------- */

  predicate IssuedAs(rows: seq<AcceptedIssuance>, f: IssuanceFields) {
    exists i | 0 <= i < |rows| :: rows[i].issuance == f
  }

  /** Whatever passed was seen, and whatever was seen and is published was issued. */
  ghost predicate Accounted(env: Env, input: RebuildInput, txs: seq<SolanaTx>, st: State) {
    forall tx | tx in txs && Claim(env, input, tx).Passed? ::
      var f := Claim(env, input, tx).issuance;
      EventId(f) in st.seen && (Matches(env, input, f) != [] ==> IssuedAs(st.accepted, f))
  }

  /** Nothing was seen but what passed. */
  ghost predicate SeenPassed(env: Env, input: RebuildInput, txs: seq<SolanaTx>, seen: set<string>) {
    forall id | id in seen ::
      exists tx :: tx in txs && Claim(env, input, tx).Passed? && EventId(Claim(env, input, tx).issuance) == id
  }

  lemma SignaturesInFront(front: seq<SolanaTx>, tx: SolanaTx)
    requires SignatureDetermines(front + [tx])
    ensures SignatureDetermines(front)
  {
    assert forall x | x in front :: x in front + [tx];
  }

  ghost predicate RunAccounted(env: Env, input: RebuildInput, txs: seq<SolanaTx>, st: State) {
    Accounted(env, input, txs, st) && SeenPassed(env, input, txs, st.seen)
  }

  lemma {:induction false} RunAccounts(env: Env, input: RebuildInput, txs: seq<SolanaTx>)
    requires SignatureDetermines(txs)
    ensures RunAccounted(env, input, txs, Run(env, input, txs))
  {
    if txs != [] {
      var front, tx := txs[..|txs| - 1], txs[|txs| - 1];
      assert txs == front + [tx];
      SignaturesInFront(front, tx);
      RunAccounts(env, input, front);
      StepAccounts(env, input, front, tx, Run(env, input, front));
    }
  }

  lemma SameEventSameTx(env: Env, input: RebuildInput, x: SolanaTx, y: SolanaTx, txs: seq<SolanaTx>)
    requires SignatureDetermines(txs) && x in txs && y in txs
    requires Claim(env, input, x).Passed? && Claim(env, input, y).Passed?
    requires EventId(Claim(env, input, x).issuance) == EventId(Claim(env, input, y).issuance)
    ensures x == y
  {
    ClaimNetwork(env, input, x);
    ClaimNetwork(env, input, y);
    EventIdInjective(Claim(env, input, x).issuance, Claim(env, input, y).issuance);
  }

  lemma StillIssued(rows: seq<AcceptedIssuance>, more: seq<AcceptedIssuance>, f: IssuanceFields)
    requires IssuedAs(rows, f)
    ensures IssuedAs(rows + more, f)
  {
    var i :| 0 <= i < |rows| && rows[i].issuance == f;
    assert (rows + more)[i] == rows[i];
  }

  lemma StepAccounts(env: Env, input: RebuildInput, front: seq<SolanaTx>, tx: SolanaTx, before: State)
    requires SignatureDetermines(front + [tx]) && RunAccounted(env, input, front, before)
    ensures RunAccounted(env, input, front + [tx], Step(env, input, before, tx))
  {
    var next := Step(env, input, before, tx);
    StepAccepts(env, input, before, tx);
    forall x | x in front + [tx] && Claim(env, input, x).Passed?
      ensures var f := Claim(env, input, x).issuance;
              EventId(f) in next.seen && (Matches(env, input, f) != [] ==> IssuedAs(next.accepted, f))
    {
      var f := Claim(env, input, x).issuance;
      if x in front {
        if Matches(env, input, f) != [] { StillIssued(before.accepted, next.accepted[|before.accepted|..], f); }
      } else if EventId(f) in before.seen {
        var y :| y in front && Claim(env, input, y).Passed? && EventId(Claim(env, input, y).issuance) == EventId(f);
        SameEventSameTx(env, input, x, y, front + [tx]);
      } else if Matches(env, input, f) != [] {
        assert next.accepted[|before.accepted|].issuance == f;
      }
    }
    forall id | id in next.seen
      ensures exists x :: x in front + [tx] && Claim(env, input, x).Passed?
                          && EventId(Claim(env, input, x).issuance) == id
    {
      if id in before.seen {
        var x :| x in front && Claim(env, input, x).Passed? && EventId(Claim(env, input, x).issuance) == id;
        assert x in front + [tx];
      } else {
        assert tx in front + [tx];
      }
    }
  }

  lemma AcceptedStand(env: Env, input: RebuildInput)
    ensures forall row | row in Accepted(env, input) :: Stands(env, input, row)
  {
    SortElements(EarlierBurn, input.solana);
    SortElements(EarlierRow, FinalState(env, input).accepted);
    RowsStand(env, input, Order(input));
  }

  lemma IssuedIsListed(env: Env, input: RebuildInput, tx: SolanaTx, f: IssuanceFields)
    requires SignatureDetermines(input.solana) && tx in input.solana
    requires Claim(env, input, tx) == Passed(f) && Matches(env, input, f) != []
    ensures exists row :: row in Accepted(env, input) && row.issuance == f
  {
    var rows := FinalState(env, input).accepted;
    SortElements(EarlierBurn, input.solana);
    SortElements(EarlierRow, rows);
    RunAccounts(env, input, Order(input));
    var i :| 0 <= i < |rows| && rows[i].issuance == f;
    assert rows[i] in rows;
  }

  /** Some transaction issues f. */
  ghost predicate IssuedOnce(env: Env, input: RebuildInput, f: IssuanceFields) {
    exists tx, b, l :: tx in input.solana && Issues(env, input, tx, b, l, f)
  }

  /** Some publication carries it. */
  ghost predicate Published(env: Env, input: RebuildInput, f: IssuanceFields) {
    exists z, k: nat :: z in input.zcash && Carries(env, f, z, input.minZcashConfirmations, k)
  }

  lemma StandsOnBoth(env: Env, input: RebuildInput, row: AcceptedIssuance)
    requires Stands(env, input, row)
    ensures IssuedOnce(env, input, row.issuance) && Published(env, input, row.issuance)
  {
    var z :| Chosen(env, input, row.issuance, z) && Records(env, input, row, z);
    var k: nat :| Carries(env, row.issuance, z, input.minZcashConfirmations, k);
  }

  lemma BothAreListed(env: Env, input: RebuildInput, f: IssuanceFields)
    requires SignatureDetermines(input.solana) && IssuedOnce(env, input, f) && Published(env, input, f)
    ensures exists row :: row in Accepted(env, input) && row.issuance == f
  {
    var tx, b, l :| tx in input.solana && Issues(env, input, tx, b, l, f);
    PassedIff(env, input, tx, f);
    MatchesEmptyIff(env, input, f);
    IssuedIsListed(env, input, tx, f);
  }

  /** Every row stands on a transaction that issues and the publication chosen for it; and an issuance is in the ledger
      exactly if a transaction issues it and a publication carries it. */
  lemma LedgerExactly(env: Env, input: RebuildInput, f: IssuanceFields)
    requires SignatureDetermines(input.solana)
    ensures forall row | row in Accepted(env, input) :: Stands(env, input, row)
    ensures (exists row :: row in Accepted(env, input) && row.issuance == f)
            <==> IssuedOnce(env, input, f) && Published(env, input, f)
  {
    AcceptedStand(env, input);
    if row :| row in Accepted(env, input) && row.issuance == f { StandsOnBoth(env, input, row); }
    if IssuedOnce(env, input, f) && Published(env, input, f) { BothAreListed(env, input, f); }
  }

  /* ---------- why not ---------- */

  predicate PartAt(text: string, part: string, i: nat) { i + |part| <= |text| && text[i..i + |part|] == part }

  lemma {:induction false} ContainsIff(text: string, part: string)
    ensures Contains(text, part) <==> exists i: nat :: PartAt(text, part, i)
  {
    if part <= text { assert PartAt(text, part, 0); }
    if text != "" {
      ContainsIff(text[1..], part);
      if i: nat :| PartAt(text[1..], part, i) {
        assert text[1..][i..i + |part|] == text[i + 1..i + 1 + |part|];
        assert PartAt(text, part, i + 1);
      }
      if i: nat :| PartAt(text, part, i) {
        if i > 0 {
          assert text[1..][i - 1..i - 1 + |part|] == text[i..i + |part|];
          assert PartAt(text[1..], part, i - 1);
        }
      }
    }
  }

  /** Some output's data, as hex, has the commitment's hex somewhere in it. */
  ghost predicate Naming(z: ZcashPublication, commitment: Digest) {
    exists j, i: nat :: 0 <= j < |z.outputs| && z.outputs[j].nullData.Some?
                        && PartAt(ToHex(z.outputs[j].nullData.value), ToHex(commitment), i)
  }

  lemma NamingIff(z: ZcashPublication, commitment: Digest)
    ensures FirstOutput(z.outputs, Mentions(commitment)).Some? <==> Naming(z, commitment)
  {
    var k := FirstOutputAt(z.outputs, Mentions(commitment));
    forall j | 0 <= j < |z.outputs| && z.outputs[j].nullData.Some?
      ensures Mentions(commitment)(z.outputs[j])
              <==> exists i: nat :: PartAt(ToHex(z.outputs[j].nullData.value), ToHex(commitment), i)
    {
      ContainsIff(ToHex(z.outputs[j].nullData.value), ToHex(commitment));
    }
  }

  ghost predicate FirstNaming(zcash: seq<ZcashPublication>, commitment: Digest, k: nat) {
    k < |zcash| && Naming(zcash[k], commitment) && forall j | 0 <= j < k :: !Naming(zcash[j], commitment)
  }

  lemma {:induction false} FirstMentionAt(zcash: seq<ZcashPublication>, commitment: Digest) returns (k: nat)
    ensures k <= |zcash| && forall j | 0 <= j < k :: !Naming(zcash[j], commitment)
    ensures k < |zcash| ==> Naming(zcash[k], commitment)
    ensures FirstMention(zcash, commitment) == if k < |zcash| then Some(zcash[k]) else None
  {
    k := 0;
    if zcash != [] {
      NamingIff(zcash[0], commitment);
      if !Naming(zcash[0], commitment) {
        var m := FirstMentionAt(zcash[1..], commitment);
        k := m + 1;
        forall j | 0 <= j < k ensures !Naming(zcash[j], commitment) {
          if j > 0 { assert zcash[1..][j - 1] == zcash[j]; }
        }
      }
    }
  }

  /** A claim is reported as waiting for confirmations exactly if the first listed publication that names its commitment
      anywhere is not deep enough. */
  lemma WaitsIff(env: Env, input: RebuildInput, f: IssuanceFields)
    ensures WhyPending(env, input, f) == ConfirmationPending
            <==> exists k: nat :: FirstNaming(input.zcash, CommitmentOf(env, f), k)
                   && !(input.zcash[k].inBestChain && input.zcash[k].confirmations >= input.minZcashConfirmations)
  {
    var k := FirstMentionAt(input.zcash, CommitmentOf(env, f));
    if k < |input.zcash| { assert FirstNaming(input.zcash, CommitmentOf(env, f), k); }
  }

  /** A transaction is turned away for want of an intent exactly if no memo in it is an intent for this network, or
      it burns nothing. */
  lemma MissingIntentIff(env: Env, input: RebuildInput, tx: SolanaTx)
    ensures Claim(env, input, tx) == Rejected(MissingIntent)
            <==> (forall j, l | 0 <= j < |tx.instructions| && IntentAt(tx.instructions[j], l) ::
                    l.intent.destinationNetwork != input.destinationNetwork)
                 || (forall b :: !FirstBurnIs(tx.instructions, b))
  {
    NetworkIntents(tx.instructions, input.destinationNetwork);
    if DecodeBurn(tx).Some? { FirstBurnIff(tx.instructions, DecodeBurn(tx).value); }
    forall b ensures FirstBurn(tx.instructions) == Some(b) <==> FirstBurnIs(tx.instructions, b) {
      FirstBurnIff(tx.instructions, b);
    }
    ReasonsFromChecks(env, input, tx);
  }

  lemma ReasonsFromChecks(env: Env, input: RebuildInput, tx: SolanaTx)
    ensures Claim(env, input, tx) == Rejected(MissingIntent)
            <==> FirstFor(DecodeIntents(tx), input.destinationNetwork).None? || DecodeBurn(tx).None?
  {
    ExtensionReasons(tx.mint.extensions);
  }

  lemma {:induction false} ExtensionReasons(extensions: seq<string>)
    ensures RejectExtensions(extensions) != Some(MissingIntent)
  {
    if extensions != [] { ExtensionReasons(extensions[1..]); }
  }

  lemma {:induction false} NetworkIntents(instructions: seq<Instruction>, network: DestNetwork)
    ensures FirstFor(IntentsIn(instructions), network).None?
            <==> NoneFor(instructions, network)
  {
    if instructions != [] {
      var rest := instructions[1..];
      NetworkIntents(rest, network);
      forall m ensures ReadIntent(instructions[0]) == Some(m) <==> IntentAt(instructions[0], m) {
        ReadIntentIff(instructions[0], m);
      }
      assert forall j | 0 <= j < |rest| :: rest[j] == instructions[j + 1];
      var head := ReadIntent(instructions[0]);
      if head.Some? {
        assert ([head.value] + IntentsIn(rest))[1..] == IntentsIn(rest);
      }
      NetworkLater(instructions, network);
    }
  }

  ghost predicate NoneFor(instructions: seq<Instruction>, network: DestNetwork) {
    forall j, l | 0 <= j < |instructions| && IntentAt(instructions[j], l) :: l.intent.destinationNetwork != network
  }

  lemma NetworkLater(instructions: seq<Instruction>, network: DestNetwork)
    requires instructions != []
    ensures NoneFor(instructions, network)
            <==> NoneFor(instructions[1..], network)
                 && forall l | IntentAt(instructions[0], l) :: l.intent.destinationNetwork != network
  {
    var rest := instructions[1..];
    assert forall j | 0 <= j < |rest| :: rest[j] == instructions[j + 1];
    if NoneFor(rest, network) && (forall l | IntentAt(instructions[0], l) :: l.intent.destinationNetwork != network) {
      forall j, l | 0 <= j < |instructions| && IntentAt(instructions[j], l)
        ensures l.intent.destinationNetwork != network
      {
        if j > 0 { assert IntentAt(rest[j - 1], l); }
      }
    }
  }

  /* ---------- orders ---------- */

  /** Where an instruction sits: outer instructions in order, each before the ones it invokes, those in order. */
  predicate NotAfter(a: Locator, b: Locator) {
    match (a, b)
    case (Outer(i), Outer(j)) => i <= j
    case (Outer(i), Inner(j, _)) => i <= j
    case (Inner(i, _), Outer(j)) => i < j
    case (Inner(i, m), Inner(j, n)) => i < j || (i == j && m <= n)
  }

  /** Transactions are read by slot, then signature, and rows are listed by transaction, then place in it. */
  lemma LedgerOrders(env: Env, input: RebuildInput)
    ensures var txs := Order(input);
            forall i, j | 0 <= i < j < |txs| ::
              txs[i].slot < txs[j].slot
              || (txs[i].slot == txs[j].slot && !StringLess(txs[j].signature, txs[i].signature))
    ensures var rows := Accepted(env, input);
            forall i, j | 0 <= i < j < |rows| ::
              StringLess(rows[i].issuance.sourceTx, rows[j].issuance.sourceTx)
              || (rows[i].issuance.sourceTx == rows[j].issuance.sourceTx
                  && NotAfter(rows[i].issuance.burnLocator, rows[j].issuance.burnLocator))
  {
    BurnOrder();
    RowOrder();
    SortSorted(EarlierBurn, input.solana);
    SortSorted(EarlierRow, FinalState(env, input).accepted);
    var rows := Accepted(env, input);
    forall i, j | 0 <= i < j < |rows|
      ensures StringLess(rows[i].issuance.sourceTx, rows[j].issuance.sourceTx)
              || (rows[i].issuance.sourceTx == rows[j].issuance.sourceTx
                  && NotAfter(rows[i].issuance.burnLocator, rows[j].issuance.burnLocator))
    {
      StringOrder(rows[i].issuance.sourceTx, rows[j].issuance.sourceTx);
    }
  }
}
