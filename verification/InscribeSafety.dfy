/** Coin selection is optimal, money is conserved, fees survive signing, and signing moves no digest. */
module InscribeSafety {
  import opened Bytes
  import opened DigestTree
  import opened Envelope
  import opened Fees
  import opened Inscribe
  import opened Ordering
  import opened Sums
  import opened Transaction
  import Secp256k1
  import Sign
  import opened Zip244

  /* ---------- greedy selection ---------- */

  lemma LargerIsWeakOrder()
    ensures WeakOrder(Larger)
  {
  }

  /** One of some coins stands in for the largest, and the others come from the rest. */
  lemma PickOne(coins: seq<Utxo>, some: seq<Utxo>) returns (gone: Utxo, others: seq<Utxo>)
    requires Sorted(Larger, coins) && multiset(some) <= multiset(coins) && some != []
    ensures coins != [] && |others| == |some| - 1 && multiset(others) <= multiset(coins[1..])
    ensures Sum(ValueOf, some) == Sum(ValueOf, others) + ValueOf(gone) && ValueOf(gone) <= ValueOf(coins[0])
  {
    assert some[0] in multiset(coins);
    var top, rest := coins[0], coins[1..];
    assert coins == [top] + rest;
    var i := if top in some then FirstOf(some, top) else 0;
    gone, others := some[i], some[..i] + some[i + 1..];
    RemoveAt(some, i);
    SumRemove(ValueOf, some, i);
    WithoutOne(some, others, coins, rest, top, gone);
    assert gone in multiset(coins);
    HeadIsLargest(coins, gone);
  }

  /** No k coins are worth more than the k largest. */
  lemma {:induction false} LargestAreWorthMost(coins: seq<Utxo>, some: seq<Utxo>)
    requires Sorted(Larger, coins) && multiset(some) <= multiset(coins)
    ensures |some| <= |coins| && Sum(ValueOf, some) <= Sum(ValueOf, coins[..|some|])
    decreases |coins|
  {
    if some == [] {
      assert coins[..0] == [];
    } else {
      var gone, others := PickOne(coins, some);
      LargestAreWorthMost(coins[1..], others);
      HeadAndRest(coins, |some|);
    }
  }

  lemma HeadAndRest(coins: seq<Utxo>, n: nat)
    requires 1 <= n <= |coins|
    ensures Sum(ValueOf, coins[..n]) == ValueOf(coins[0]) + Sum(ValueOf, coins[1..][..n - 1])
  {
    assert coins[..n] == [coins[0]] + coins[1..][..n - 1];
    SumConcat(ValueOf, [coins[0]], coins[1..][..n - 1]);
    SumOne(ValueOf, coins[0]);
  }

  function FirstOf(s: seq<Utxo>, x: Utxo): (i: nat)
    requires x in s
    ensures i < |s| && s[i] == x
  {
    if s[0] == x then 0 else 1 + FirstOf(s[1..], x)
  }

  lemma WithoutOne(some: seq<Utxo>, others: seq<Utxo>, coins: seq<Utxo>, rest: seq<Utxo>, top: Utxo, gone: Utxo)
    requires multiset(some) <= multiset(coins) && multiset(coins) == multiset{top} + multiset(rest)
    requires gone in some && multiset(others) == multiset(some) - multiset{gone}
    requires top in some ==> gone == top
    ensures multiset(others) <= multiset(rest)
  {
    forall x ensures multiset(others)[x] <= multiset(rest)[x] {
      assert multiset(some)[x] <= multiset(coins)[x];
      if x == top && top !in some { assert multiset(some)[top] == 0; }
    }
  }

  lemma HeadIsLargest(coins: seq<Utxo>, x: Utxo)
    requires Sorted(Larger, coins) && x in coins
    ensures ValueOf(x) <= ValueOf(coins[0])
  {
    var i :| 0 <= i < |coins| && coins[i] == x;
    if i > 0 { assert !Larger(coins[i], coins[0]); }
  }

  /** Some coins pay when they cover the commit output and the fee of spending that many of them. */
  predicate CanPay(plan: Plan, some: seq<Utxo>) {
    some != [] && Sum(ValueOf, some) >= plan.commitOutputZat + FeeWithoutChange(plan, |some|)
  }

  lemma ChangeCostsMore(plan: Plan, changeScript: Bytes, k: nat)
    ensures FeeWithChange(plan, changeScript, k) >= FeeWithoutChange(plan, k)
  {
    SumTwo<nat>(OutputSize, |plan.commitScriptPubKey|, |changeScript|);
    SumOne<nat>(OutputSize, |plan.commitScriptPubKey|);
  }

  /** The search stops at the first k whose k largest coins can pay. */
  lemma {:induction false} FundStops(coins: seq<Utxo>, plan: Plan, changeScript: Bytes, k: nat)
    requires 1 <= k
    ensures match Fund(coins, plan, changeScript, k)
            case Unfunded => forall j | k <= j <= |coins| :: !CanPay(plan, coins[..j])
            case Funded(n, _, _) => k <= n <= |coins| && CanPay(plan, coins[..n])
                                    && forall j | k <= j < n :: !CanPay(plan, coins[..j])
    decreases |coins| - k
  {
    if k <= |coins| {
      ChangeCostsMore(plan, changeScript, k);
      if !CanPay(plan, coins[..k]) {
        FundStops(coins, plan, changeScript, k + 1);
      }
    }
  }

  /** Any choice of coins that can pay means the largest coins can, with no more of them: the builder reports
      insufficient funds only when no choice can pay, and otherwise spends the fewest coins any choice could. */
  lemma GreedyIsOptimal(plan: Plan, utxos: seq<Utxo>, changeScript: Bytes, some: seq<Utxo>)
    requires multiset(some) <= multiset(utxos) && CanPay(plan, some)
    ensures var f := Fund(Candidates(utxos), plan, changeScript, 1); f.Funded? && f.count <= |some|
  {
    var coins := Candidates(utxos);
    LargerIsWeakOrder();
    SortSorted(Larger, utxos);
    SortMultiset(Larger, utxos);
    LargestAreWorthMost(coins, some);
    assert CanPay(plan, coins[..|some|]);
    FundStops(coins, plan, changeScript, 1);
  }

  /** And what it spends is one of those choices. */
  lemma FundedIsAChoice(plan: Plan, utxos: seq<Utxo>, changeScript: Bytes)
    ensures var f := Fund(Candidates(utxos), plan, changeScript, 1);
            f.Funded? ==> f.count <= |utxos| && var chosen := Candidates(utxos)[..f.count];
                          multiset(chosen) <= multiset(utxos) && CanPay(plan, chosen)
  {
    var coins := Candidates(utxos);
    SortMultiset(Larger, utxos);
    FundStops(coins, plan, changeScript, 1);
    var f := Fund(coins, plan, changeScript, 1);
    if f.Funded? {
      assert coins == coins[..f.count] + coins[f.count..];
    }
  }

  /* ---------- what a built commit is ---------- */

  /** The shape of every commit the builder returns. */
  lemma CommitShape(env: Env, plan: Plan, utxos: seq<Utxo>, changeAddress: string, tip: int, expiry: Option<int>)
    requires BuildCommit(env, plan, utxos, changeAddress, tip, expiry).Built?
    ensures var u := BuildCommit(env, plan, utxos, changeAddress, tip, expiry).value;
            var script := ScriptForAddress(env, changeAddress);
            var f := Fund(Candidates(utxos), plan, script.value, 1);
            && script.Some? && f.Funded? && f.count <= |utxos| && u.feeZat == f.feeZat
            && var coins := Candidates(utxos)[..f.count];
            && u.tx.inputs == Inputs(coins) && SpentCoins(coins) == Some(u.spent)
            && u.tx.outputs == CommitOutputs(plan, script.value, f.changeZat)
            && TxidDigest(env.hash, u.tx).Some? && u.txid == InternalToTxid(TxidDigest(env.hash, u.tx).value)
  {
  }

  function SpentValueOf(s: SpentOutput): int { s.value }
  function PaidValueOf(o: TxOutput): int { o.value }

  lemma {:induction false} SpentTotals(coins: seq<Utxo>)
    requires SpentCoins(coins).Some?
    ensures Sum(SpentValueOf, SpentCoins(coins).value) == Sum(ValueOf, coins)
  {
    if coins != [] {
      SpentTotals(coins[1..]);
      var first := SpentOutput(coins[0].valueZat, HexToBytes(coins[0].scriptPubKeyHex).value);
      var rest := SpentCoins(coins[1..]).value;
      SumConcat(SpentValueOf, [first], rest);
      SumConcat(ValueOf, [coins[0]], coins[1..]);
      assert coins == [coins[0]] + coins[1..];
      SumOne(SpentValueOf, first);
      SumOne(ValueOf, coins[0]);
    }
  }

  lemma SumOne<T>(weight: T -> int, x: T)
    ensures Sum(weight, [x]) == weight(x)
  {
    assert [x][..0] == [];
  }

  lemma SumTwo<T>(weight: T -> int, x: T, y: T)
    ensures Sum(weight, [x, y]) == weight(x) + weight(y)
  {
    assert [x, y][..1] == [x];
    SumOne(weight, x);
  }

  lemma {:induction false} FundBalances(coins: seq<Utxo>, plan: Plan, changeScript: Bytes, k: nat)
    ensures match Fund(coins, plan, changeScript, k)
            case Unfunded => true
            case Funded(n, fee, change) =>
              && n <= |coins| && Sum(ValueOf, coins[..n]) == plan.commitOutputZat + fee + change
              && (change == 0 || change >= DUST_THRESHOLD_ZAT)
              && (change > 0 ==> fee == FeeWithChange(plan, changeScript, n))
              && (change == 0 ==> FeeWithoutChange(plan, n) <= fee < FeeWithChange(plan, changeScript, n)
                                                                       + DUST_THRESHOLD_ZAT)
    decreases |coins| - k
  {
    if k <= |coins| {
      var left := Sum(ValueOf, coins[..k]) - plan.commitOutputZat;
      if left - FeeWithChange(plan, changeScript, k) < DUST_THRESHOLD_ZAT && left < FeeWithoutChange(plan, k) {
        FundBalances(coins, plan, changeScript, k + 1);
      }
    }
  }

  /** With standard scripts a change output does not change the count of actions that sets the fee. */
  lemma ChangeIsFree(plan: Plan, changeScript: Bytes, k: nat)
    requires |plan.commitScriptPubKey| == 23 && (|changeScript| == 23 || |changeScript| == 25)
    ensures FeeWithChange(plan, changeScript, k) == FeeWithoutChange(plan, k)
  {
    SumTwo<nat>(OutputSize, 23, |changeScript|);
    SumOne<nat>(OutputSize, 23);
  }

  function Sizes<T>(size: T -> nat, xs: seq<T>): (r: seq<nat>)
    ensures |r| == |xs| && forall i | 0 <= i < |xs| :: r[i] == size(xs[i])
  {
    seq(|xs|, i requires 0 <= i < |xs| => size(xs[i]))
  }

  function ScriptSigSize(i: TxInput): nat { |i.scriptSig| }
  function ScriptPubKeySize(o: TxOutput): nat { |o.scriptPubKey| }

  /** The ZIP 317 fee of a transaction as it stands. */
  function RequiredFee(tx: TransactionV5): int {
    ConventionalFee(Sizes(ScriptSigSize, tx.inputs), Sizes(ScriptPubKeySize, tx.outputs))
  }

  /** The fee the unsigned commit was sized for: every input an ordinary P2PKH one. */
  function SizedFee(tx: TransactionV5): int {
    ConventionalFee(Copies(P2PKH_SCRIPTSIG_BYTES, |tx.inputs|), Sizes(ScriptPubKeySize, tx.outputs))
  }

  lemma SizedFeeOfCommit(plan: Plan, changeScript: Bytes, k: nat, change: int, tx: TransactionV5)
    requires |tx.inputs| == k && tx.outputs == CommitOutputs(plan, changeScript, change)
    ensures SizedFee(tx) == if change > 0 then FeeWithChange(plan, changeScript, k) else FeeWithoutChange(plan, k)
  {
    var a, b := |plan.commitScriptPubKey|, |changeScript|;
    if change > 0 {
      assert Sizes(ScriptPubKeySize, tx.outputs) == [a, b];
    } else {
      assert Sizes(ScriptPubKeySize, tx.outputs) == [a];
    }
  }

  /** Nothing is lost: the coins pay the outputs and the fee, the first output is the one the stamp's second
      transaction spends, any change is above dust, and the fee exceeds the one it was sized for by less than
      a dust output. */
  lemma CommitConserves(env: Env, plan: Plan, utxos: seq<Utxo>, changeAddress: string, tip: int, expiry: Option<int>)
    requires BuildCommit(env, plan, utxos, changeAddress, tip, expiry).Built?
    requires |plan.commitScriptPubKey| == 23
    ensures var u := BuildCommit(env, plan, utxos, changeAddress, tip, expiry).value;
            && |u.spent| == |u.tx.inputs| > 0
            && Sum(SpentValueOf, u.spent) == Sum(PaidValueOf, u.tx.outputs) + u.feeZat
            && 1 <= |u.tx.outputs| <= 2
            && u.tx.outputs[0] == TxOutput(plan.commitOutputZat, plan.commitScriptPubKey)
            && (|u.tx.outputs| == 2 ==> u.tx.outputs[1].value >= DUST_THRESHOLD_ZAT
                                        && Some(u.tx.outputs[1].scriptPubKey) == ScriptForAddress(env, changeAddress))
            && SizedFee(u.tx) <= u.feeZat <= SizedFee(u.tx) + DUST_THRESHOLD_ZAT - 1
  {
    CommitShape(env, plan, utxos, changeAddress, tip, expiry);
    var script := ScriptForAddress(env, changeAddress).value;
    var coins := Candidates(utxos);
    var f := Fund(coins, plan, script, 1);
    FundBalances(coins, plan, script, 1);
    FundStops(coins, plan, script, 1);
    SpentTotals(coins[..f.count]);
    var u := BuildCommit(env, plan, utxos, changeAddress, tip, expiry).value;
    ChangeIsFree(plan, script, f.count);
    SizedFeeOfCommit(plan, script, f.count, f.changeZat, u.tx);
    if f.changeZat > 0 {
      SumTwo(PaidValueOf, u.tx.outputs[0], u.tx.outputs[1]);
    } else {
      SumOne(PaidValueOf, u.tx.outputs[0]);
    }
  }

  /* ---------- fees after signing ---------- */

  /** A signature as the signer makes it: a compressed key and at most 72 bytes of DER. */
  predicate Standard(s: KeySignature) { |s.publicKey| == 33 && |s.signatureDer| <= 72 }

  lemma StandardScriptSig(s: KeySignature)
    requires Standard(s)
    ensures Attachable(s) && |P2pkhScriptSig(s)| <= P2PKH_SCRIPTSIG_BYTES
  {
  }

  /** Signing with standard keys never lifts the required fee above the one the commit was sized for. */
  lemma SignedCommitFee(unsigned: Unsigned, signatures: seq<KeySignature>)
    requires |signatures| == |unsigned.tx.inputs| && forall i | 0 <= i < |signatures| :: Standard(signatures[i])
    ensures var tx := FinalizeP2pkhInputs(unsigned, signatures);
            tx.Some? && RequiredFee(tx.value) <= SizedFee(unsigned.tx)
  {
    forall i | 0 <= i < |signatures|
      ensures Attachable(signatures[i]) && |P2pkhScriptSig(signatures[i])| <= P2PKH_SCRIPTSIG_BYTES
    {
      StandardScriptSig(signatures[i]);
    }
    var tx := FinalizeP2pkhInputs(unsigned, signatures).value;
    FeeMonotone(Sizes(ScriptSigSize, tx.inputs), Copies(P2PKH_SCRIPTSIG_BYTES, |tx.inputs|),
                Sizes(ScriptPubKeySize, tx.outputs));
  }

  /** A plan's numbers, whatever the payload. */
  lemma PlanShape(env: Env, body: Bytes, to: string, publicKey: Bytes, commitment: Bytes, dust: Option<int>)
    requires PlanInscription(env, body, to, publicKey, commitment, dust).Some?
    ensures var p := PlanInscription(env, body, to, publicKey, commitment, dust).value;
            && |p.commitScriptPubKey| == 23 && p.dustZat >= DUST_THRESHOLD_ZAT
            && p.commitOutputZat == p.dustZat + p.revealFeeZat
            && p.destination == to && ScriptForAddress(env, to).Some?
            && Some(p.redeemScript) == InscriptionRedeemScript(publicKey, commitment)
            && p.revealFeeZat == ConventionalFee([p.revealScriptSigBytes], [|ScriptForAddress(env, to).value|])
            && p.revealScriptSigBytes == |p.envelope| + 74 + |PushData(p.redeemScript)|
  {
  }

  /** The stamp's second transaction: its fee covers it once signed, and a standard signature always fits. */
  lemma SignedRevealFee(env: Env, body: Bytes, to: string, publicKey: Bytes, commitment: Bytes, dust: Option<int>,
                        commitTxid: string, index: int, tip: int, expiry: Option<int>, der: Bytes)
    requires PlanInscription(env, body, to, publicKey, commitment, dust).Some?
    requires var p := PlanInscription(env, body, to, publicKey, commitment, dust).value;
             BuildReveal(env, p, commitTxid, index, tip, expiry).Built?
    ensures var p := PlanInscription(env, body, to, publicKey, commitment, dust).value;
            var u := BuildReveal(env, p, commitTxid, index, tip, expiry).value;
            var tx := FinalizeReveal(u, p, der);
            && u.feeZat == p.revealFeeZat == p.commitOutputZat - p.dustZat
            && u.spent == [SpentOutput(p.commitOutputZat, p.commitScriptPubKey)]
            && (|der| <= 72 ==> tx.Some?)
            && (tx.Some? ==> RequiredFee(tx.value) <= u.feeZat)
  {
    PlanShape(env, body, to, publicKey, commitment, dust);
    var p := PlanInscription(env, body, to, publicKey, commitment, dust).value;
    RevealShape(env, p, commitTxid, index, tip, expiry);
    FinalizedRevealFee(BuildReveal(env, p, commitTxid, index, tip, expiry).value, p, der,
                       |ScriptForAddress(env, to).value|);
  }

  lemma RevealShape(env: Env, p: Plan, commitTxid: string, index: int, tip: int, expiry: Option<int>)
    requires BuildReveal(env, p, commitTxid, index, tip, expiry).Built?
    ensures var u := BuildReveal(env, p, commitTxid, index, tip, expiry).value;
            && u.feeZat == p.commitOutputZat - p.dustZat
            && u.spent == [SpentOutput(p.commitOutputZat, p.commitScriptPubKey)]
            && |u.tx.inputs| == |u.sighashes| == 1 && u.tx.inputs[0].prevout == OutPoint(commitTxid, index)
            && ScriptForAddress(env, p.destination).Some?
            && u.tx.outputs == [TxOutput(p.dustZat, ScriptForAddress(env, p.destination).value)]
  {
  }

  lemma FinalizedRevealFee(u: Unsigned, p: Plan, der: Bytes, scriptSize: nat)
    requires |u.tx.inputs| == 1 && |u.tx.outputs| == 1 && |u.tx.outputs[0].scriptPubKey| == scriptSize
    requires |p.redeemScript| <= MAX_SCRIPT_ELEMENT_SIZE
    requires p.revealScriptSigBytes == |p.envelope| + 74 + |PushData(p.redeemScript)|
    ensures |der| <= 72 ==> FinalizeReveal(u, p, der).Some?
    ensures FinalizeReveal(u, p, der).Some?
            ==> RequiredFee(FinalizeReveal(u, p, der).value) <= ConventionalFee([p.revealScriptSigBytes], [scriptSize])
  {
    var tx := FinalizeReveal(u, p, der);
    if tx.Some? {
      var sizes := Sizes(ScriptSigSize, tx.value.inputs);
      var outs := Sizes(ScriptPubKeySize, tx.value.outputs);
      assert outs == [scriptSize];
      FeeMonotone(sizes, [p.revealScriptSigBytes], outs);
    }
  }

  /** What the signer attaches for a digest: its own signature in DER, and a compressed key. */
  predicate SignedBy(c: Secp256k1.Curve, nonce: Sign.Nonce, scalar: nat, digest: Digest, s: KeySignature) {
    && |s.publicKey| == 33 && Sign.SignDigest(c, nonce, digest, scalar).Some?
    && var signature := Sign.SignDigest(c, nonce, digest, scalar).value;
    && signature.r >= 0 && signature.s >= 0 && s.signatureDer == Sign.EncodeDer(signature)
  }

  lemma SignerIsStandard(c: Secp256k1.Curve, nonce: Sign.Nonce, scalar: nat, digest: Digest, s: KeySignature)
    requires c.n <= Pow256(32) && SignedBy(c, nonce, scalar, digest, s)
    ensures Standard(s)
  {
    Sign.SignerFits(c, nonce, digest, scalar);
  }

  lemma CommitSighashes(env: Env, plan: Plan, utxos: seq<Utxo>, changeAddress: string, tip: int, expiry: Option<int>)
    requires BuildCommit(env, plan, utxos, changeAddress, tip, expiry).Built?
    ensures var u := BuildCommit(env, plan, utxos, changeAddress, tip, expiry).value; |u.sighashes| == |u.tx.inputs|
  {
  }

  /** Signed with the signer's own signatures over the digests it was built with, the commit can be finalized, and what
      its coins hold beyond its outputs is at least the conventional fee of its final size. */
  lemma SignerPaysCommitFee(env: Env, plan: Plan, utxos: seq<Utxo>, changeAddress: string, tip: int,
                            expiry: Option<int>,
                            c: Secp256k1.Curve, nonce: Sign.Nonce, scalar: nat, signatures: seq<KeySignature>)
    requires BuildCommit(env, plan, utxos, changeAddress, tip, expiry).Built? && |plan.commitScriptPubKey| == 23
    requires c.n <= Pow256(32)
    requires var u := BuildCommit(env, plan, utxos, changeAddress, tip, expiry).value;
             |signatures| == |u.sighashes| && forall i | 0 <= i < |signatures| ::
               SignedBy(c, nonce, scalar, u.sighashes[i], signatures[i])
    ensures var u := BuildCommit(env, plan, utxos, changeAddress, tip, expiry).value;
            var tx := FinalizeP2pkhInputs(u, signatures);
            && tx.Some? && tx.value.outputs == u.tx.outputs
            && Sum(SpentValueOf, u.spent) - Sum(PaidValueOf, tx.value.outputs) >= RequiredFee(tx.value)
  {
    var u := BuildCommit(env, plan, utxos, changeAddress, tip, expiry).value;
    CommitSighashes(env, plan, utxos, changeAddress, tip, expiry);
    forall i | 0 <= i < |signatures| ensures Standard(signatures[i]) {
      SignerIsStandard(c, nonce, scalar, u.sighashes[i], signatures[i]);
    }
    SignedCommitFee(u, signatures);
    CommitConserves(env, plan, utxos, changeAddress, tip, expiry);
  }

  /** Signed with the signer's own signature of its digest, the stamp's second transaction can be finalized, and what it
      spends beyond its output is at least the conventional fee of its final size. */
  lemma SignerPaysRevealFee(env: Env, body: Bytes, to: string, publicKey: Bytes, commitment: Bytes, dust: Option<int>,
                            commitTxid: string, index: int, tip: int, expiry: Option<int>,
                            c: Secp256k1.Curve, nonce: Sign.Nonce, scalar: nat, signature: KeySignature)
    requires PlanInscription(env, body, to, publicKey, commitment, dust).Some? && c.n <= Pow256(32)
    requires var p := PlanInscription(env, body, to, publicKey, commitment, dust).value;
             && BuildReveal(env, p, commitTxid, index, tip, expiry).Built?
             && var u := BuildReveal(env, p, commitTxid, index, tip, expiry).value;
             forall d | d in u.sighashes :: SignedBy(c, nonce, scalar, d, signature)
    ensures var p := PlanInscription(env, body, to, publicKey, commitment, dust).value;
            var u := BuildReveal(env, p, commitTxid, index, tip, expiry).value;
            var tx := FinalizeReveal(u, p, signature.signatureDer);
            && tx.Some? && tx.value.outputs == u.tx.outputs
            && Sum(SpentValueOf, u.spent) - Sum(PaidValueOf, tx.value.outputs) >= RequiredFee(tx.value)
  {
    var p := PlanInscription(env, body, to, publicKey, commitment, dust).value;
    var u := BuildReveal(env, p, commitTxid, index, tip, expiry).value;
    RevealShape(env, p, commitTxid, index, tip, expiry);
    assert u.sighashes[0] in u.sighashes;
    SignerIsStandard(c, nonce, scalar, u.sighashes[0], signature);
    SignedRevealFee(env, body, to, publicKey, commitment, dust, commitTxid, index, tip, expiry, signature.signatureDer);
    SumOne(SpentValueOf, u.spent[0]);
    SumOne(PaidValueOf, u.tx.outputs[0]);
  }

  /* ---------- signing moves no digest ---------- */

  /** The same transaction but for its scriptSigs. */
  predicate SameButScriptSigs(a: TransactionV5, b: TransactionV5) {
    && a.(inputs := []) == b.(inputs := []) && |a.inputs| == |b.inputs|
    && forall i | 0 <= i < |a.inputs| ::
         a.inputs[i].prevout == b.inputs[i].prevout && a.inputs[i].sequence == b.inputs[i].sequence
  }

  lemma FinalizingChangesScriptSigsOnly(unsigned: Unsigned, plan: Plan, der: Bytes, signatures: seq<KeySignature>)
    ensures FinalizeReveal(unsigned, plan, der).Some?
            ==> SameButScriptSigs(unsigned.tx, FinalizeReveal(unsigned, plan, der).value)
    ensures FinalizeP2pkhInputs(unsigned, signatures).Some?
            ==> SameButScriptSigs(unsigned.tx, FinalizeP2pkhInputs(unsigned, signatures).value)
  {
  }

  /** For every hash: filling scriptSigs in changes neither the id nor what any input signs. */
  lemma DigestsIgnoreScriptSigs(h: Hash, a: TransactionV5, b: TransactionV5, spent: seq<SpentOutput>, index: int,
                                hashType: int)
    requires SameButScriptSigs(a, b)
    ensures TxidDigest(h, a) == TxidDigest(h, b)
    ensures SignatureDigest(h, a, spent, index, hashType) == SignatureDigest(h, b, spent, index, hashType)
  {
    assert Prevouts(a.inputs) == Prevouts(b.inputs) && Sequences(a.inputs) == Sequences(b.inputs);
    assert a.outputs == b.outputs && a.sapling == b.sapling && a.orchard == b.orchard by {
      assert a.(inputs := []).outputs == a.outputs && b.(inputs := []).outputs == b.outputs;
    }
    SameRoot(h, a, b);
    assert PrevoutsReadable(a) <==> PrevoutsReadable(b);
    assert TransparentDigest(h, a) == TransparentDigest(h, b);
    assert TransparentSignatureDigest(h, a, spent, index, hashType)
        == TransparentSignatureDigest(h, b, spent, index, hashType) by {
      if |spent| == |a.inputs| && 0 <= index < |a.inputs| {
        assert SignedInput(a.inputs[index], spent[index]) == SignedInput(b.inputs[index], spent[index]);
        assert OutputsSigDigest(h, a, Base(hashType), index) == OutputsSigDigest(h, b, Base(hashType), index);
      }
    }
  }

  lemma SameRoot(h: Hash, a: TransactionV5, b: TransactionV5)
    requires SameButScriptSigs(a, b)
    ensures forall t: Digest :: CombineDigest(h, a, t) == CombineDigest(h, b, t)
  {
    assert a.(inputs := []).version == a.version && b.(inputs := []).version == b.version;
  }

  /** So finalizing either transaction leaves its id, and what any of its inputs signs, as they were when signed. */
  lemma FinalizingKeepsDigests(h: Hash, unsigned: Unsigned, plan: Plan, der: Bytes, signatures: seq<KeySignature>,
                               spent: seq<SpentOutput>, index: int, hashType: int)
    ensures var tx := FinalizeReveal(unsigned, plan, der);
            tx.Some? ==> TxidDigest(h, tx.value) == TxidDigest(h, unsigned.tx)
                         && SignatureDigest(h, tx.value, spent, index, hashType)
                            == SignatureDigest(h, unsigned.tx, spent, index, hashType)
    ensures var tx := FinalizeP2pkhInputs(unsigned, signatures);
            tx.Some? ==> TxidDigest(h, tx.value) == TxidDigest(h, unsigned.tx)
                         && SignatureDigest(h, tx.value, spent, index, hashType)
                            == SignatureDigest(h, unsigned.tx, spent, index, hashType)
  {
    FinalizingChangesScriptSigsOnly(unsigned, plan, der, signatures);
    var revealTx, commitTx := FinalizeReveal(unsigned, plan, der), FinalizeP2pkhInputs(unsigned, signatures);
    if revealTx.Some? { DigestsIgnoreScriptSigs(h, unsigned.tx, revealTx.value, spent, index, hashType); }
    if commitTx.Some? { DigestsIgnoreScriptSigs(h, unsigned.tx, commitTx.value, spent, index, hashType); }
  }

  lemma SignedCommitId(env: Env, plan: Plan, utxos: seq<Utxo>, changeAddress: string, tip: int, expiry: Option<int>,
                       signatures: seq<KeySignature>)
    requires BuildCommit(env, plan, utxos, changeAddress, tip, expiry).Built?
    ensures var commit := BuildCommit(env, plan, utxos, changeAddress, tip, expiry).value;
            var signed := FinalizeP2pkhInputs(commit, signatures);
            signed.Some? ==> var id := TxidDigest(env.hash, signed.value);
                             id.Some? && InternalToTxid(id.value) == commit.txid
  {
    var commit := BuildCommit(env, plan, utxos, changeAddress, tip, expiry).value;
    FinalizingKeepsDigests(env.hash, commit, plan, [], signatures, commit.spent, 0, SIGHASH_ALL);
  }

  /** The finished pair: the second transaction spends the commit's first output by the id the commit has
      before and after it is signed, for exactly the value and script that output carries, and the coins spent
      are the change, the two fees and the dust. */
  lemma StampPair(env: Env, plan: Plan, utxos: seq<Utxo>, changeAddress: string, tip: int, expiry: Option<int>,
                  signatures: seq<KeySignature>)
    requires BuildStamp(env, plan, utxos, changeAddress, tip, expiry).Built?
    requires |plan.commitScriptPubKey| == 23 && plan.commitOutputZat == plan.dustZat + plan.revealFeeZat
    ensures var s := BuildStamp(env, plan, utxos, changeAddress, tip, expiry).value;
            var signed := FinalizeP2pkhInputs(s.commit, signatures);
            && |s.revealTx.tx.inputs| == 1 && s.revealTx.tx.inputs[0].prevout == OutPoint(s.commit.txid, 0)
            && (signed.Some? ==> var id := TxidDigest(env.hash, signed.value);
                                 id.Some? && InternalToTxid(id.value) == s.commit.txid)
            && |s.commit.tx.outputs| >= 1
            && s.revealTx.spent == [SpentOutput(s.commit.tx.outputs[0].value, s.commit.tx.outputs[0].scriptPubKey)]
            && Sum(PaidValueOf, s.revealTx.tx.outputs) == plan.dustZat
            && s.revealTx.feeZat == plan.revealFeeZat
            && Sum(SpentValueOf, s.commit.spent)
               == Sum(PaidValueOf, s.commit.tx.outputs[1..]) + s.cost.totalZat
  {
    var s := BuildStamp(env, plan, utxos, changeAddress, tip, expiry).value;
    CommitConserves(env, plan, utxos, changeAddress, tip, expiry);
    CommitShape(env, plan, utxos, changeAddress, tip, expiry);
    SignedCommitId(env, plan, utxos, changeAddress, tip, expiry, signatures);
    SumOne(PaidValueOf, s.revealTx.tx.outputs[0]);
    FirstAndRest(s.commit.tx.outputs);
  }

  lemma FirstAndRest(outputs: seq<TxOutput>)
    requires outputs != []
    ensures Sum(PaidValueOf, outputs) == outputs[0].value + Sum(PaidValueOf, outputs[1..])
  {
    assert outputs == [outputs[0]] + outputs[1..];
    SumConcat(PaidValueOf, [outputs[0]], outputs[1..]);
    SumOne(PaidValueOf, outputs[0]);
  }
}
