/** What stands behind a burn record: the instructions, memos and signing keys of the transaction it was read from. */
module BurnEvidence {
  import opened Bytes
  import opened Ordering
  import opened SolanaBurns
  import opened Inscriptions
  import opened InscriptionRules
  import opened Eligibility
  import Sums
  import Text

  /** The instruction is in the transaction, at the top or invoked by another program. */
  predicate Has(tx: ParsedTransaction, i: ParsedInstruction) {
    i in tx.instructions || exists j | 0 <= j < |tx.innerInstructions| :: i in tx.innerInstructions[j]
  }

  lemma {:induction false} FlattenHas<A>(parts: seq<seq<A>>, x: A)
    ensures x in Flatten(parts) <==> exists j | 0 <= j < |parts| :: x in parts[j]
  {
    if parts != [] {
      FlattenHas(parts[1..], x);
      if j :| 0 <= j < |parts[1..]| && x in parts[1..][j] { assert parts[j + 1] == parts[1..][j]; }
      if j :| 0 <= j < |parts| && x in parts[j] {
        if j > 0 { assert parts[1..][j - 1] == parts[j]; }
      }
    }
  }

  /** A burn of the classic or the 2022 token program: the mint, the amount in the form its kind has, and the
      authority or, where none is named, the multisig account. */
  predicate Burning(i: ParsedInstruction, b: BurnInstruction) {
    && (i.programId == "TokenkegQfeZyiNwAJbNbGKPFXCWuBvf9Ss623VQ5DA"
        || i.programId == "TokenzQdBNbLqP5VEhdkAS6EPFLC1PHnBqCXEpPxuEb")
    && i.parsed.ObjectParsed? && i.parsed.info.Some?
    && var info := i.parsed.info.value;
    && info.mint == Some(b.mint) && b.mint != "" && b.authority != ""
    && info.authority == (if info.authority.Some? then Some(b.authority) else None)
    && (info.authority.None? ==> info.multisigAuthority == Some(b.authority))
    && ((i.parsed.kind == "burn" && info.amount == Some(b.amount) && b.decimals.None?)
        || (i.parsed.kind == "burnChecked" && info.tokenAmount == Some(TokenAmount(Some(b.amount), b.decimals))))
  }

  lemma KindsDiffer()
    ensures "burn" != "burnChecked"
  {
    assert |"burn"| == 4;
  }

  lemma ReadBurnIff(i: ParsedInstruction, b: BurnInstruction)
    ensures ReadBurn(i) == Some(b) <==> Burning(i, b)
  {
    KindsDiffer();
  }

  /* ---------- amounts ---------- */

  function UnitsIn(mint: string): ParsedInstruction -> int {
    (i: ParsedInstruction) => UnitsRead(ReadBurn(i), mint)
  }

  function UnitsInAll(mint: string): seq<ParsedInstruction> -> int {
    (s: seq<ParsedInstruction>) => Sums.Sum(UnitsIn(mint), s)
  }

  function UnitsRead(b: Option<BurnInstruction>, mint: string): int {
    match b case Some(x) => if x.mint == mint then Text.Numeral(x.amount) else 0 case None => 0
  }

  lemma DestroyedNext(burns: seq<BurnInstruction>, b: Option<BurnInstruction>, mint: string)
    ensures Destroyed(burns + (match b case None => [] case Some(x) => [x]), mint)
            == Destroyed(burns, mint) + UnitsRead(b, mint)
  {
    match b
    case None => assert burns + [] == burns;
    case Some(x) => assert (burns + [x])[..|burns|] == burns;
  }

  lemma {:induction false} DestroyedIsSum(instructions: seq<ParsedInstruction>, mint: string)
    ensures Destroyed(Burns(instructions), mint) == Sums.Sum(UnitsIn(mint), instructions)
  {
    if instructions != [] {
      var n := |instructions| - 1;
      DestroyedIsSum(instructions[..n], mint);
      DestroyedNext(Burns(instructions[..n]), ReadBurn(instructions[n]), mint);
    }
  }

  lemma {:induction false} FlattenSum(lists: seq<seq<ParsedInstruction>>, mint: string)
    ensures Sums.Sum(UnitsIn(mint), Flatten(lists)) == Sums.Sum(UnitsInAll(mint), lists)
  {
    if lists != [] {
      FlattenSum(lists[1..], mint);
      Sums.SumConcat(UnitsIn(mint), lists[0], Flatten(lists[1..]));
      Sums.SumConcat(UnitsInAll(mint), [lists[0]], lists[1..]);
      assert lists == [lists[0]] + lists[1..] && [lists[0]][..0] == [];
    }
  }

  /** What a transaction destroys of a mint, over its own instructions and those they invoke. */
  function UnitsOf(tx: ParsedTransaction, mint: string): int {
    Sums.Sum(UnitsIn(mint), tx.instructions) + Sums.Sum(UnitsInAll(mint), tx.innerInstructions)
  }

  lemma DestroyedByTransaction(tx: ParsedTransaction, mint: string)
    ensures Destroyed(Burns(AllInstructions(tx)), mint) == UnitsOf(tx, mint)
  {
    DestroyedIsSum(AllInstructions(tx), mint);
    Sums.SumConcat(UnitsIn(mint), tx.instructions, Flatten(tx.innerInstructions));
    FlattenSum(tx.innerInstructions, mint);
  }

  /* ---------- memos and signers ---------- */

  predicate SignedFor(tx: ParsedTransaction, key: string) {
    exists k | 0 <= k < |tx.accountKeys| :: tx.accountKeys[k].signer && tx.accountKeys[k].pubkey == key
  }

  lemma {:induction false} SignersIff(keys: seq<AccountKey>, key: string)
    ensures key in Signers(keys) <==> exists k | 0 <= k < |keys| :: keys[k].signer && keys[k].pubkey == key
  {
    if keys != [] {
      SignersIff(keys[1..], key);
      if k :| 0 <= k < |keys[1..]| && keys[1..][k].signer && keys[1..][k].pubkey == key {
        assert keys[k + 1] == keys[1..][k];
      }
      if k :| 0 <= k < |keys| && keys[k].signer && keys[k].pubkey == key {
        if k > 0 { assert keys[1..][k - 1] == keys[k]; }
      }
    }
  }

  /** A memo of either memo program. */
  predicate MemoOf(i: ParsedInstruction, text: string) {
    && (i.programId == "Memo1UhkJRfHyvLMcVucJwxXeuD728EqVDDwQDxFMNo"
        || i.programId == "MemoSq4gqABAXKb96qnH8TysNcWxMyWCqXgDLGmfcHr")
    && i.parsed == TextParsed(text)
  }

  lemma {:induction false} MemosIff(instructions: seq<ParsedInstruction>, signers: seq<string>, m: Memo)
    ensures m in Memos(instructions, signers)
            <==> m.signers == signers && exists i :: i in instructions && MemoOf(i, m.text)
  {
    if instructions != [] {
      MemosIff(instructions[1..], signers, m);
      assert instructions == [instructions[0]] + instructions[1..];
      if m == Memo(m.text, signers) && MemoOf(instructions[0], m.text) { assert instructions[0] in instructions; }
    }
  }

  /* ---------- the first burn of a mint ---------- */

  /** Burn k is the first of the mint. */
  predicate FirstBurnOf(burns: seq<BurnInstruction>, mint: string, k: nat) {
    k < |burns| && burns[k].mint == mint && forall j | 0 <= j < k :: burns[j].mint != mint
  }

  /** The record has the first burn's authority and decimals, and everything else from the transaction. */
  ghost predicate FromFirst(r: ObservedBurn, tx: ParsedTransaction, memos: seq<Memo>, burns: seq<BurnInstruction>) {
    && r.slot == tx.slot && r.memos == memos
    && exists k: nat :: FirstBurnOf(burns, r.mint, k) && r.authority == burns[k].authority
                        && r.decimals == burns[k].decimals
  }

  lemma StillFirst(r: ObservedBurn, tx: ParsedTransaction, memos: seq<Memo>, front: seq<BurnInstruction>,
                   last: BurnInstruction, t: ObservedBurn)
    requires FromFirst(r, tx, memos, front) && t == r.(amountBase := t.amountBase)
    ensures FromFirst(t, tx, memos, front + [last])
  {
    var k: nat :| FirstBurnOf(front, r.mint, k) && r.authority == front[k].authority && r.decimals == front[k].decimals;
    assert FirstBurnOf(front + [last], t.mint, k);
  }

  lemma NewFirst(signature: string, tx: ParsedTransaction, finalized: bool, memos: seq<Memo>,
                 front: seq<BurnInstruction>, last: BurnInstruction)
    requires !Destroys(front, last.mint)
    ensures FromFirst(FreshRecord(signature, tx, finalized, memos, last), tx, memos, front + [last])
  {
    assert forall j | 0 <= j < |front| :: front[j].mint != last.mint;
    assert FirstBurnOf(front + [last], last.mint, |front|);
  }

  lemma {:induction false} TallyFromFirst(signature: string, tx: ParsedTransaction, finalized: bool, memos: seq<Memo>,
                                          burns: seq<BurnInstruction>, m: string)
    requires m in TallyOf(signature, tx, finalized, memos, burns).byMint
    ensures TallyOf(signature, tx, finalized, memos, burns).byMint[m].mint == m
    ensures FromFirst(TallyOf(signature, tx, finalized, memos, burns).byMint[m], tx, memos, burns)
  {
    var front, last := burns[..|burns| - 1], burns[|burns| - 1];
    var before := TallyOf(signature, tx, finalized, memos, front);
    assert burns == front + [last];
    TallyInvariant(signature, tx, finalized, memos, front);
    if m in before.byMint {
      TallyFromFirst(signature, tx, finalized, memos, front, m);
      StillFirst(before.byMint[m], tx, memos, front, last,
                 TallyOf(signature, tx, finalized, memos, burns).byMint[m]);
    } else {
      NewFirst(signature, tx, finalized, memos, front, last);
    }
  }

  /** Instruction k is the first in the transaction to burn the mint, and b is what it burns. */
  ghost predicate FirstBurning(all: seq<ParsedInstruction>, mint: string, k: nat, b: BurnInstruction) {
    && k < |all| && b.mint == mint && Burning(all[k], b)
    && forall j, other | 0 <= j < k && Burning(all[j], other) :: other.mint != mint
  }

  lemma {:induction false} BurnIsInstruction(all: seq<ParsedInstruction>, mint: string, k: nat) returns (i: nat)
    requires FirstBurnOf(Burns(all), mint, k)
    ensures FirstBurning(all, mint, i, Burns(all)[k])
  {
    var n := |all| - 1;
    var front := Burns(all[..n]);
    assert forall m | 0 <= m < |front| :: Burns(all)[m] == front[m];
    if k < |front| {
      assert FirstBurnOf(front, mint, k);
      i := BurnIsInstruction(all[..n], mint, k);
      assert all[..n][i] == all[i] && forall j | 0 <= j < i :: all[..n][j] == all[j];
    } else {
      i := n;
      ReadBurnIff(all[n], Burns(all)[k]);
      forall j, other | 0 <= j < n && Burning(all[j], other) ensures other.mint != mint {
        BurnListed(all[..n], j, other);
        var m :| 0 <= m < |front| && front[m] == other;
        assert Burns(all)[m] == other;
      }
    }
  }

  lemma {:induction false} BurnListed(all: seq<ParsedInstruction>, j: nat, b: BurnInstruction)
    requires j < |all| && Burning(all[j], b)
    ensures b in Burns(all)
  {
    var n := |all| - 1;
    if j < n {
      BurnListed(all[..n], j, b);
    } else {
      ReadBurnIff(all[n], b);
    }
  }

  /* ---------- the record ---------- */

  /** A record of a transaction: its amount is everything of the mint destroyed in it, its authority that of the mint's
      first burn, and its memos are the transaction's memos, each with all its signing keys. */
  ghost predicate Evidence(signature: string, tx: ParsedTransaction, finalized: bool, r: ObservedBurn) {
    && r.signature == signature && r.slot == tx.slot && r.finalized == finalized && r.failed == tx.failed
    && Text.Numeral(r.amountBase) == UnitsOf(tx, r.mint)
    && (exists k: nat, b ::
          FirstBurning(AllInstructions(tx), r.mint, k, b) && r.authority == b.authority && r.decimals == b.decimals)
    && (forall m | m in r.memos ::
          (exists i :: Has(tx, i) && MemoOf(i, m.text)) && forall key :: key in m.signers <==> SignedFor(tx, key))
    && (forall i, text | Has(tx, i) && MemoOf(i, text) :: exists m :: m in r.memos && m.text == text)
  }

  lemma MemoEvidence(tx: ParsedTransaction, memos: seq<Memo>)
    requires memos == Memos(AllInstructions(tx), Signers(tx.accountKeys))
    ensures forall m | m in memos ::
              (exists i :: Has(tx, i) && MemoOf(i, m.text)) && forall key :: key in m.signers <==> SignedFor(tx, key)
    ensures forall i, text | Has(tx, i) && MemoOf(i, text) :: exists m :: m in memos && m.text == text
  {
    var signers := Signers(tx.accountKeys);
    forall i ensures i in AllInstructions(tx) <==> Has(tx, i) { FlattenHas(tx.innerInstructions, i); }
    forall key ensures key in signers <==> SignedFor(tx, key) { SignersIff(tx.accountKeys, key); }
    forall m | m in memos ensures m.signers == signers && exists i :: Has(tx, i) && MemoOf(i, m.text) {
      MemosIff(AllInstructions(tx), signers, m);
      var i :| i in AllInstructions(tx) && MemoOf(i, m.text);
      assert Has(tx, i);
    }
    forall i, text | Has(tx, i) && MemoOf(i, text) ensures exists m :: m in memos && m.text == text {
      MemosIff(AllInstructions(tx), signers, Memo(text, signers));
      assert Memo(text, signers) in memos && Memo(text, signers).text == text;
    }
  }

  lemma RecordsHaveEvidence(signature: string, tx: ParsedTransaction, finalized: bool, r: ObservedBurn)
    requires r in DecodedBurns(signature, tx, finalized)
    ensures Evidence(signature, tx, finalized, r)
  {
    var all := AllInstructions(tx);
    var memos := Memos(all, Signers(tx.accountKeys));
    OneRecordPerMint(signature, tx, finalized);
    DestroyedByTransaction(tx, r.mint);
    FirstOfRecord(signature, tx, finalized, r);
    var k: nat :| FirstBurnOf(Burns(all), r.mint, k) && r.authority == Burns(all)[k].authority
                  && r.decimals == Burns(all)[k].decimals;
    var i := BurnIsInstruction(all, r.mint, k);
    MemoEvidence(tx, memos);
  }

  lemma FirstOfRecord(signature: string, tx: ParsedTransaction, finalized: bool, r: ObservedBurn)
    requires r in DecodedBurns(signature, tx, finalized)
    ensures FromFirst(r, tx, Memos(AllInstructions(tx), Signers(tx.accountKeys)), Burns(AllInstructions(tx)))
  {
    var burns, memos := Burns(AllInstructions(tx)), Memos(AllInstructions(tx), Signers(tx.accountKeys));
    TallyInvariant(signature, tx, finalized, memos, burns);
    var t := TallyOf(signature, tx, finalized, memos, burns);
    ValuesListed(t);
    SortElements(MintLess, Values(t));
    TallyFromFirst(signature, tx, finalized, memos, burns, r.mint);
  }

  lemma {:induction false} RecordFromSeen(seen: seq<SeenTransaction>, r: ObservedBurn) returns (t: SeenTransaction)
    requires r in AllBurns(seen)
    ensures t in seen && r in DecodedBurns(t.signature, t.tx, t.finalized)
  {
    var front, last := seen[..|seen| - 1], seen[|seen| - 1];
    if r in AllBurns(front) {
      t := RecordFromSeen(front, r);
      assert t in seen;
    } else {
      t := last;
    }
  }

  lemma AcceptedBurn(o: IndexOptions, a: AcceptedStamp)
    requires a in Index(o).accepted
    ensures a.burn in o.burns && a.burn.finalized && !a.burn.failed && NamedBy(a.burn, a.payload.to)
    ensures a.burn.signature == a.payload.burn && a.burn.mint == a.payload.mint && a.burn.amountBase == a.payload.amt
  {
    AcceptedComeFromInscriptions(o, a);
    var x :| x in o.inscriptions && Assess(o, x) == Eligible(a);
    EligibleIff(o, x, a);
    var n: nat :| Backs(o, a.payload, n) && a.burn == o.burns[n];
  }

  /** The memo and the first burn behind a record that names an address. */
  lemma NamingMemo(signature: string, tx: ParsedTransaction, finalized: bool, r: ObservedBurn, to: string)
    returns (k: nat, b: BurnInstruction, i: ParsedInstruction, text: string)
    requires Evidence(signature, tx, finalized, r) && NamedBy(r, to)
    ensures FirstBurning(AllInstructions(tx), r.mint, k, b) && SignedFor(tx, b.authority)
    ensures Has(tx, i) && MemoOf(i, text) && Trims(text, to)
  {
    k, b :| FirstBurning(AllInstructions(tx), r.mint, k, b) && r.authority == b.authority && r.decimals == b.decimals;
    var m :| 0 <= m < |r.memos| && Trims(r.memos[m].text, to) && r.authority in r.memos[m].signers;
    assert r.memos[m] in r.memos;
    text := r.memos[m].text;
    i :| Has(tx, i) && MemoOf(i, text);
  }

  /** From an accepted stamp back to the chain: a finalized, successful transaction with the cited signature, which
      destroyed exactly the claimed units of the mint, carries a memo that is the stamp's recipient and nothing but
      blanks, and was signed by the authority of the mint's first burn in it. */
  lemma BurnerChoseRecipient(o: IndexOptions, seen: seq<SeenTransaction>, a: AcceptedStamp)
    returns (t: SeenTransaction, k: nat, b: BurnInstruction, i: ParsedInstruction, text: string)
    requires o.burns == AllBurns(seen) && a in Index(o).accepted
    ensures t in seen && t.finalized && !t.tx.failed && t.signature == a.payload.burn
    ensures UnitsOf(t.tx, a.payload.mint) == Text.Numeral(a.payload.amt)
    ensures FirstBurning(AllInstructions(t.tx), a.payload.mint, k, b) && SignedFor(t.tx, b.authority)
    ensures Has(t.tx, i) && MemoOf(i, text) && Trims(text, a.payload.to)
  {
    AcceptedBurn(o, a);
    t := RecordFromSeen(seen, a.burn);
    RecordsHaveEvidence(t.signature, t.tx, t.finalized, a.burn);
    k, b, i, text := NamingMemo(t.signature, t.tx, t.finalized, a.burn, a.payload.to);
  }
}
