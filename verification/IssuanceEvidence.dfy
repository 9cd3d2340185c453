/** What an issued row stands on, told from the transaction and the publication alone. */
module IssuanceEvidence {
  import opened Bytes
  import opened Intent
  import opened Issuance
  import opened Ledger
  import opened LedgerRules
  import opened Ordering
  import opened Types
  import Text

  /* ---------- instructions ---------- */

  /** A Burn or BurnChecked of either token program, with its account, mint and authority in that order and the
      amount as eight little-endian bytes. */
  predicate BurnAt(i: Instruction, b: Burn) {
    && (i.programId == "TokenkegQfeZyiNwAJbNbGKPFXCWuBvf9Ss623VQ5DA"
        || i.programId == "TokenzQdBNbLqP5VEhdkAS6EPFLC1PHnBqCXEpPxuEb")
    && |i.data| >= 9 && |i.accounts| >= 3 && (i.data[0] == 8 || i.data[0] == 15)
    && b.locator == i.locator && b.programId == i.programId
    && b.tokenAccount == i.accounts[0] && b.mint == i.accounts[1] && b.authority == i.accounts[2]
    && b.amountBase < U64 && LittleEndian(b.amountBase, 8) == i.data[1..9]
    && (b.isChecked <==> i.data[0] == 15)
    && b.decimals == if i.data[0] == 15 && |i.data| > 9 then Some(i.data[9] as int) else None
  }

  lemma AmountIff(data: Bytes, amount: nat)
    requires |data| == 8
    ensures FromLittleEndian(data) == amount <==> amount < U64 && LittleEndian(amount, 8) == data
  {
    Pow256Values();
    FromLittleEndianRoundTrip(data);
    if amount < U64 { LittleEndianRoundTrip(amount, 8); }
  }

  lemma ReadBurnIff(i: Instruction, b: Burn)
    ensures ReadBurn(i) == Some(b) <==> BurnAt(i, b)
  {
    if |i.data| >= 9 { AmountIff(i.data[1..9], b.amountBase); }
  }

  /** b is the first burn of the transaction. */
  ghost predicate FirstBurnIs(instructions: seq<Instruction>, b: Burn) {
    exists k :: 0 <= k < |instructions| && BurnAt(instructions[k], b) && NoBurnBefore(instructions, k)
  }

  ghost predicate NoBurnBefore(instructions: seq<Instruction>, k: nat)
    requires k <= |instructions|
  {
    forall j, b | 0 <= j < k :: !BurnAt(instructions[j], b)
  }

  lemma {:induction false} FirstBurnIff(instructions: seq<Instruction>, b: Burn)
    ensures FirstBurn(instructions) == Some(b) <==> FirstBurnIs(instructions, b)
  {
    if instructions != [] {
      var rest := instructions[1..];
      FirstBurnIff(rest, b);
      forall c ensures ReadBurn(instructions[0]) == Some(c) <==> BurnAt(instructions[0], c) {
        ReadBurnIff(instructions[0], c);
      }
      if ReadBurn(instructions[0]).Some? {
        FirstIsHead(instructions, b);
      } else {
        assert forall c :: !BurnAt(instructions[0], c);
        FirstIsLater(instructions, b);
      }
    }
  }

  lemma FirstIsHead(instructions: seq<Instruction>, b: Burn)
    requires instructions != [] && exists c :: BurnAt(instructions[0], c)
    ensures FirstBurnIs(instructions, b) <==> BurnAt(instructions[0], b)
  {
    if BurnAt(instructions[0], b) { assert NoBurnBefore(instructions, 0); }
    if FirstBurnIs(instructions, b) {
      var k :| 0 <= k < |instructions| && BurnAt(instructions[k], b) && NoBurnBefore(instructions, k);
      assert k == 0;
    }
  }

  lemma FirstIsLater(instructions: seq<Instruction>, b: Burn)
    requires instructions != [] && forall c :: !BurnAt(instructions[0], c)
    ensures FirstBurnIs(instructions, b) <==> FirstBurnIs(instructions[1..], b)
  {
    var rest := instructions[1..];
    if k :| 0 <= k < |rest| && BurnAt(rest[k], b) && NoBurnBefore(rest, k) {
      assert NoBurnBefore(instructions, k + 1) by {
        forall j, c | 0 <= j < k + 1 ensures !BurnAt(instructions[j], c) {
          if j > 0 { assert instructions[j] == rest[j - 1]; }
        }
      }
      assert instructions[k + 1] == rest[k];
    }
    if k :| 0 <= k < |instructions| && BurnAt(instructions[k], b) && NoBurnBefore(instructions, k) {
      assert k > 0 && rest[k - 1] == instructions[k];
      assert NoBurnBefore(rest, k - 1) by {
        forall j, c | 0 <= j < k - 1 ensures !BurnAt(rest[j], c) { assert rest[j] == instructions[j + 1]; }
      }
    }
  }

  /** A memo of the memo program that decodes to an intent. */
  predicate IntentAt(i: Instruction, l: LocatedIntent) {
    && i.programId == "MemoSq4gqABAXKb96QnHj5ZbxdnGBnVWJChLWKFgS4"
    && DecodeIntent(i.data) == Some(l.intent) && l.locator == i.locator
  }

  /** The transaction carries this intent and no other. */
  ghost predicate OnlyIntent(instructions: seq<Instruction>, l: LocatedIntent) {
    exists k :: 0 <= k < |instructions| && IntentAt(instructions[k], l) && NoOtherIntent(instructions, k)
  }

  ghost predicate NoOtherIntent(instructions: seq<Instruction>, k: int) {
    forall j, m | 0 <= j < |instructions| && j != k :: !IntentAt(instructions[j], m)
  }

  lemma ReadIntentIff(i: Instruction, l: LocatedIntent)
    ensures ReadIntent(i) == Some(l) <==> IntentAt(i, l)
  {
  }

  ghost predicate NoIntentIn(instructions: seq<Instruction>) {
    forall j, m | 0 <= j < |instructions| :: !IntentAt(instructions[j], m)
  }

  lemma NoIntentLater(instructions: seq<Instruction>)
    requires instructions != []
    ensures NoIntentIn(instructions) <==> (forall m :: !IntentAt(instructions[0], m)) && NoIntentIn(instructions[1..])
  {
    var rest := instructions[1..];
    assert forall j | 0 <= j < |rest| :: rest[j] == instructions[j + 1];
    if (forall m :: !IntentAt(instructions[0], m)) && NoIntentIn(rest) {
      forall j, m | 0 <= j < |instructions| ensures !IntentAt(instructions[j], m) {
        if j > 0 { assert !IntentAt(rest[j - 1], m); }
      }
    }
  }

  lemma {:induction false} NoIntents(instructions: seq<Instruction>)
    ensures IntentsIn(instructions) == [] <==> NoIntentIn(instructions)
  {
    if instructions != [] {
      NoIntents(instructions[1..]);
      NoIntentLater(instructions);
      forall m ensures ReadIntent(instructions[0]) == Some(m) <==> IntentAt(instructions[0], m) {
        ReadIntentIff(instructions[0], m);
      }
    }
  }

  lemma IntentsWithHead(instructions: seq<Instruction>, l: LocatedIntent, head: LocatedIntent)
    requires instructions != [] && ReadIntent(instructions[0]) == Some(head)
    ensures IntentsIn(instructions) == [l] <==> l == head && IntentsIn(instructions[1..]) == []
  {
    var all := IntentsIn(instructions);
    assert all == [head] + IntentsIn(instructions[1..]);
    assert all[0] == head && all[1..] == IntentsIn(instructions[1..]);
  }

  lemma OnlyHead(instructions: seq<Instruction>, l: LocatedIntent)
    requires instructions != [] && IntentAt(instructions[0], l)
    ensures OnlyIntent(instructions, l) <==> NoIntentIn(instructions[1..])
  {
    var rest := instructions[1..];
    assert forall j | 0 <= j < |rest| :: rest[j] == instructions[j + 1];
    if NoIntentIn(rest) {
      forall j, m | 0 <= j < |instructions| && j != 0 ensures !IntentAt(instructions[j], m) {
        assert !IntentAt(rest[j - 1], m);
      }
      assert NoOtherIntent(instructions, 0);
    }
    if k :| 0 <= k < |instructions| && IntentAt(instructions[k], l) && NoOtherIntent(instructions, k) {
      assert k == 0;
    }
  }

  /** An intent in front leaves no room for another. */
  lemma OnlyIsHead(instructions: seq<Instruction>, l: LocatedIntent, head: LocatedIntent)
    requires instructions != [] && IntentAt(instructions[0], head) && OnlyIntent(instructions, l)
    ensures IntentAt(instructions[0], l)
  {
    var k :| 0 <= k < |instructions| && IntentAt(instructions[k], l) && NoOtherIntent(instructions, k);
    assert k == 0;
  }

  lemma {:induction false} OnlyIntentIff(instructions: seq<Instruction>, l: LocatedIntent)
    ensures IntentsIn(instructions) == [l] <==> OnlyIntent(instructions, l)
  {
    if instructions != [] {
      var head := ReadIntent(instructions[0]);
      if head.Some? {
        ReadIntentIff(instructions[0], head.value);
        ReadIntentIff(instructions[0], l);
        IntentsWithHead(instructions, l, head.value);
        NoIntents(instructions[1..]);
        if l == head.value { OnlyHead(instructions, l); }
        if OnlyIntent(instructions, l) { OnlyIsHead(instructions, l, head.value); }
      } else {
        OnlyIntentIff(instructions[1..], l);
        forall m ensures !IntentAt(instructions[0], m) { ReadIntentIff(instructions[0], m); }
        OnlyLater(instructions, l);
      }
    }
  }

  lemma OnlyLater(instructions: seq<Instruction>, l: LocatedIntent)
    requires instructions != [] && forall m :: !IntentAt(instructions[0], m)
    ensures OnlyIntent(instructions, l) <==> OnlyIntent(instructions[1..], l)
  {
    var rest := instructions[1..];
    if k :| 0 <= k < |rest| && IntentAt(rest[k], l) && NoOtherIntent(rest, k) {
      assert instructions[k + 1] == rest[k];
      assert NoOtherIntent(instructions, k + 1) by {
        forall j, m | 0 <= j < |instructions| && j != k + 1 ensures !IntentAt(instructions[j], m) {
          if j > 0 { assert instructions[j] == rest[j - 1]; }
        }
      }
    }
    if k :| 0 <= k < |instructions| && IntentAt(instructions[k], l) && NoOtherIntent(instructions, k) {
      assert k > 0 && rest[k - 1] == instructions[k];
      assert NoOtherIntent(rest, k - 1) by {
        forall j, m | 0 <= j < |rest| && j != k - 1 ensures !IntentAt(rest[j], m) {
          assert rest[j] == instructions[j + 1];
        }
      }
    }
  }

  /* ---------- what a burn must be to issue ---------- */

  predicate Allowed(e: string) { e == "metadataPointer" || e == "tokenMetadata" || e == "mintCloseAuthority" }

  predicate MintFits(tx: SolanaTx, b: Burn) {
    && b.mint == tx.mint.address && b.mint != "So11111111111111111111111111111111111111112"
    && tx.mint.programId == b.programId && tx.mint.initialized && b.amountBase > 0
    && (b.isChecked ==> b.decimals == Some(tx.mint.decimals))
    && forall e | e in tx.mint.extensions :: Allowed(e)
  }

  predicate OwnerBurns(tx: SolanaTx, b: Burn) {
    b.tokenAccount in tx.tokenAccounts && tx.tokenAccounts[b.tokenAccount].owner == b.authority
  }

  /** The account is the mint's and not frozen, and its owner, or a delegate for as much, signed the burn. */
  predicate AccountFits(tx: SolanaTx, b: Burn) {
    && b.tokenAccount in tx.tokenAccounts
    && var account := tx.tokenAccounts[b.tokenAccount];
    && account.mint == b.mint && !account.frozen && b.authority in tx.signers
    && (account.owner == b.authority
        || (account.delegate == Some(b.authority) && account.delegatedAmount >= b.amountBase))
  }

  predicate IntentFits(env: Env, input: RebuildInput, b: Burn, l: LocatedIntent) {
    && l.intent.mint == b.mint && l.intent.amountBase == b.amountBase
    && l.intent.destinationNetwork == input.destinationNetwork
    && env.destinationOk(input.destinationNetwork, l.intent.destination)
  }

  predicate FieldsFit(input: RebuildInput, tx: SolanaTx, b: Burn, l: LocatedIntent, f: IssuanceFields) {
    && f.sourceNetwork == input.sourceNetwork && f.destinationNetwork == input.destinationNetwork
    && f.mint == b.mint && f.tokenProgram == b.programId && f.sourceTx == tx.signature && f.burnLocator == b.locator
    && f.amountBase == Text.Decimal(b.amountBase) && f.decimals == tx.mint.decimals
    && f.destination == l.intent.destination && f.burnAuthority == b.authority
    && (f.authorityRole == Owner <==> OwnerBurns(tx, b)) && f.intentLocator == l.locator && f.nonce == l.intent.nonce
  }

  /** A finalized, successful transaction of the source network whose first burn may issue, with the one intent it
      carries. */
  ghost predicate Issues(env: Env, input: RebuildInput, tx: SolanaTx, b: Burn, l: LocatedIntent, f: IssuanceFields) {
    && tx.network == input.sourceNetwork && tx.finalized && !tx.failed
    && FirstBurnIs(tx.instructions, b) && OnlyIntent(tx.instructions, l)
    && MintFits(tx, b) && AccountFits(tx, b) && IntentFits(env, input, b, l) && FieldsFit(input, tx, b, l, f)
  }

  lemma {:induction false} ExtensionsIff(extensions: seq<string>)
    ensures RejectExtensions(extensions).None? <==> forall e | e in extensions :: Allowed(e)
  {
    if extensions != [] {
      var rest := extensions[1..];
      ExtensionsIff(rest);
      assert extensions == [extensions[0]] + rest && extensions[0] in extensions;
      if extensions[0] in REJECTED_EXTENSIONS { AllowedNotRejected(extensions[0]); }
      if forall e | e in extensions :: Allowed(e) {
        forall e | e in rest ensures Allowed(e) { assert e in extensions; }
      }
    }
  }

  lemma AllowedNotRejected(e: string)
    requires e in REJECTED_EXTENSIONS
    ensures !Allowed(e)
  {
    assert |"metadataPointer"| == 15 && |"tokenMetadata"| == 13 && |"mintCloseAuthority"| == 18;
    assert |e| != 13 && |e| != 18;
    if |e| == 15 {
      assert e == "nonTransferable";
      assert e[0] == 'n' && "metadataPointer"[0] == 'm';
    }
  }

  lemma MintIff(tx: SolanaTx, b: Burn, x: Expected)
    requires x.mint == tx.mint.address && x.amountBase == b.amountBase && x.decimals == tx.mint.decimals
    ensures CheckMint(tx, b, x).None? <==> MintFits(tx, b)
  {
    ExtensionsIff(tx.mint.extensions);
  }

  lemma AccountIff(tx: SolanaTx, b: Burn)
    ensures CheckAccount(tx, b).None? <==> AccountFits(tx, b)
  {
  }

  lemma IntentIff(env: Env, input: RebuildInput, b: Burn, l: LocatedIntent, x: Expected)
    requires x.destinationNetwork == input.destinationNetwork && x.destination == l.intent.destination
    ensures CheckIntent(env, [l], b, x).None? <==> IntentFits(env, input, b, l)
  {
  }

  /** The checks on a transaction with this first burn and this one intent. */
  lemma ClaimWith(env: Env, input: RebuildInput, tx: SolanaTx, b: Burn, l: LocatedIntent, f: IssuanceFields)
    requires DecodeBurn(tx) == Some(b) && DecodeIntents(tx) == [l]
    ensures Claim(env, input, tx) == Passed(f)
            <==> && tx.network == input.sourceNetwork && tx.finalized && !tx.failed
                 && MintFits(tx, b) && AccountFits(tx, b) && IntentFits(env, input, b, l)
                 && FieldsFit(input, tx, b, l, f)
  {
    assert FirstFor([l], input.destinationNetwork)
        == if l.intent.destinationNetwork == input.destinationNetwork then Some(l.intent.destination) else None by {
      assert [l][1..] == [];
    }
    var x := Expected(input.sourceNetwork, input.destinationNetwork, tx.mint.address, b.amountBase, tx.mint.decimals,
                      l.intent.destination);
    MintIff(tx, b, x);
    AccountIff(tx, b);
    IntentIff(env, input, b, l, x);
  }

  lemma PassedHasBoth(env: Env, input: RebuildInput, tx: SolanaTx)
    requires Claim(env, input, tx).Passed?
    ensures DecodeBurn(tx).Some? && |DecodeIntents(tx)| == 1
  {
  }

  /** A transaction passes exactly if it issues, and then with these fields. */
  lemma PassedIff(env: Env, input: RebuildInput, tx: SolanaTx, f: IssuanceFields)
    ensures Claim(env, input, tx) == Passed(f) <==> exists b, l :: Issues(env, input, tx, b, l, f)
  {
    if Claim(env, input, tx) == Passed(f) {
      PassedHasBoth(env, input, tx);
      var b, l := DecodeBurn(tx).value, DecodeIntents(tx)[0];
      FirstBurnIff(tx.instructions, b);
      OnlyIntentIff(tx.instructions, l);
      ClaimWith(env, input, tx, b, l, f);
      assert Issues(env, input, tx, b, l, f);
    }
    if b, l :| Issues(env, input, tx, b, l, f) {
      FirstBurnIff(tx.instructions, b);
      OnlyIntentIff(tx.instructions, l);
      ClaimWith(env, input, tx, b, l, f);
    }
  }
}
