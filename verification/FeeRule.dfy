/** The relay rule a fee must meet, counted on the bytes that go over the wire. */
module FeeRule {
  import opened Bytes
  import opened Fees
  import opened Inscribe
  import opened InscribeSafety
  import opened Sums
  import opened Transaction
  import Secp256k1
  import Sign
  import opened Zip244

  /** n actions are enough: two at least, one for every 150 bytes of inputs and one for every 34 bytes of outputs. */
  predicate Enough(tx: TransactionV5, n: int) {
    && n >= 2
    && 150 * n >= |EncodeAll(EncodeInput, tx.inputs)| && 34 * n >= |EncodeAll(EncodeOutput, tx.outputs)|
  }

  /** The fee is 5000 zatoshi for each of the fewest actions that are enough. */
  ghost predicate ConventionalFor(tx: TransactionV5, fee: int) {
    exists n: int :: fee == 5000 * n && Enough(tx, n) && forall m: int :: Enough(tx, m) ==> n <= m
  }

  lemma {:induction false} EncodedTotal<T>(encode: T -> Bytes, size: T -> nat, cost: nat -> int, xs: seq<T>)
    requires forall x | x in xs :: |encode(x)| == cost(size(x))
    ensures |EncodeAll(encode, xs)| == Sum(cost, Sizes(size, xs))
  {
    if xs == [] {
      assert Sizes(size, xs) == [];
    } else {
      var sizes, rest := Sizes(size, xs), Sizes(size, xs[1..]);
      assert xs[0] in xs && forall x | x in xs[1..] :: x in xs;
      EncodedTotal(encode, size, cost, xs[1..]);
      assert sizes == [size(xs[0])] + rest;
      SumConcat(cost, [size(xs[0])], rest);
      SumOne(cost, size(xs[0]));
    }
  }

  lemma CeilIsLeast(a: int, b: int)
    requires b > 0
    ensures b * DivCeil(a, b) >= a && forall n: int :: b * n >= a ==> n >= DivCeil(a, b)
  {
    var q := DivCeil(a, b);
    var r := (a + b - 1) % b;
    assert a + b - 1 == b * q + r;
    forall n: int | b * n >= a ensures n >= q {
      if n < q { Below(b, n, q); }
    }
  }

  lemma Below(b: int, m: int, n: int)
    requires b > 0 && m < n
    ensures b * m + b <= b * n
  {
    Scaled(b, m + 1, n);
    assert b * (m + 1) == b * m + b;
  }

  lemma Scaled(b: int, m: int, n: int)
    requires b > 0 && m <= n
    ensures b * m <= b * n
  {
  }

  /** The fee the builders ask for a transaction is the conventional one of its serialized inputs and outputs. */
  lemma RequiredFeeIsConventional(tx: TransactionV5)
    requires PrevoutsReadable(tx)
    ensures ConventionalFor(tx, RequiredFee(tx))
  {
    var a, b := Sizes(ScriptSigSize, tx.inputs), Sizes(ScriptPubKeySize, tx.outputs);
    forall i | i in tx.inputs ensures |EncodeInput(i)| == InputSize(ScriptSigSize(i)) {
      EncodedSizes(i, TxOutput(0, []));
    }
    EncodedTotal(EncodeInput, ScriptSigSize, InputSize, tx.inputs);
    EncodedTotal(EncodeOutput, ScriptPubKeySize, OutputSize, tx.outputs);
    CeilIsLeast(Sum(InputSize, a), 150);
    CeilIsLeast(Sum(OutputSize, b), 34);
    var n := Max(LogicalActions(a, b), GRACE_ACTIONS);
    assert RequiredFee(tx) == 5000 * n && Enough(tx, n);
  }

  /** What is paid is at least the conventional fee. */
  ghost predicate PaysRule(tx: TransactionV5, paid: int) { exists fee :: ConventionalFor(tx, fee) && paid >= fee }

  /** The fewest actions bound from below what a transaction must pay, whatever they were counted with. */
  lemma PaysIff(tx: TransactionV5, paid: int)
    requires PrevoutsReadable(tx)
    ensures PaysRule(tx, paid) <==> paid >= RequiredFee(tx)
  {
    RequiredFeeIsConventional(tx);
    if fee :| ConventionalFor(tx, fee) && paid >= fee { OneConventional(tx, fee, RequiredFee(tx)); }
  }

  lemma OneConventional(tx: TransactionV5, a: int, b: int)
    requires ConventionalFor(tx, a) && ConventionalFor(tx, b)
    ensures a == b
  {
    var m: int :| a == 5000 * m && Enough(tx, m) && forall k: int :: Enough(tx, k) ==> m <= k;
    var n: int :| b == 5000 * n && Enough(tx, n) && forall k: int :: Enough(tx, k) ==> n <= k;
  }

  lemma ReadableWhenSigned(a: TransactionV5, b: TransactionV5)
    requires SameButScriptSigs(a, b) && PrevoutsReadable(a)
    ensures PrevoutsReadable(b)
  {
    forall i | 0 <= i < |b.inputs| ensures TxidReadable(b.inputs[i].prevout.txid) {
      assert TxidReadable(a.inputs[i].prevout.txid) && a.inputs[i].prevout == b.inputs[i].prevout;
    }
  }

  lemma CommitReadable(env: Env, plan: Plan, utxos: seq<Utxo>, changeAddress: string, tip: int, expiry: Option<int>,
                       signatures: seq<KeySignature>)
    requires BuildCommit(env, plan, utxos, changeAddress, tip, expiry).Built?
    ensures var tx := FinalizeP2pkhInputs(BuildCommit(env, plan, utxos, changeAddress, tip, expiry).value, signatures);
            tx.Some? ==> PrevoutsReadable(tx.value)
  {
    var u := BuildCommit(env, plan, utxos, changeAddress, tip, expiry).value;
    CommitShape(env, plan, utxos, changeAddress, tip, expiry);
    FinalizingChangesScriptSigsOnly(u, plan, [], signatures);
    var tx := FinalizeP2pkhInputs(u, signatures);
    if tx.Some? { ReadableWhenSigned(u.tx, tx.value); }
  }

  lemma RevealReadable(env: Env, p: Plan, commitTxid: string, index: int, tip: int, expiry: Option<int>, der: Bytes)
    requires BuildReveal(env, p, commitTxid, index, tip, expiry).Built?
    ensures var tx := FinalizeReveal(BuildReveal(env, p, commitTxid, index, tip, expiry).value, p, der);
            tx.Some? ==> PrevoutsReadable(tx.value)
  {
    var u := BuildReveal(env, p, commitTxid, index, tip, expiry).value;
    BuiltReadable(env, p, commitTxid, index, tip, expiry);
    FinalizingChangesScriptSigsOnly(u, p, der, []);
    var tx := FinalizeReveal(u, p, der);
    if tx.Some? { ReadableWhenSigned(u.tx, tx.value); }
  }

  lemma BuiltReadable(env: Env, p: Plan, commitTxid: string, index: int, tip: int, expiry: Option<int>)
    requires BuildReveal(env, p, commitTxid, index, tip, expiry).Built?
    ensures PrevoutsReadable(BuildReveal(env, p, commitTxid, index, tip, expiry).value.tx)
  {
  }

  /** Signed with the signer's own signatures, the commit meets the relay rule on its final bytes. */
  lemma SignedCommitPaysRule(env: Env, plan: Plan, utxos: seq<Utxo>, changeAddress: string, tip: int,
                             expiry: Option<int>, c: Secp256k1.Curve, nonce: Sign.Nonce, scalar: nat,
                             signatures: seq<KeySignature>)
    requires BuildCommit(env, plan, utxos, changeAddress, tip, expiry).Built? && |plan.commitScriptPubKey| == 23
    requires c.n <= Pow256(32)
    requires var u := BuildCommit(env, plan, utxos, changeAddress, tip, expiry).value;
             |signatures| == |u.sighashes| && forall i | 0 <= i < |signatures| ::
               SignedBy(c, nonce, scalar, u.sighashes[i], signatures[i])
    ensures var u := BuildCommit(env, plan, utxos, changeAddress, tip, expiry).value;
            var tx := FinalizeP2pkhInputs(u, signatures);
            tx.Some? && PaysRule(tx.value, Sum(SpentValueOf, u.spent) - Sum(PaidValueOf, tx.value.outputs))
  {
    var u := BuildCommit(env, plan, utxos, changeAddress, tip, expiry).value;
    SignerPaysCommitFee(env, plan, utxos, changeAddress, tip, expiry, c, nonce, scalar, signatures);
    CommitReadable(env, plan, utxos, changeAddress, tip, expiry, signatures);
    var tx := FinalizeP2pkhInputs(u, signatures).value;
    PaysIff(tx, Sum(SpentValueOf, u.spent) - Sum(PaidValueOf, tx.outputs));
  }

  /** And so does the reveal. */
  lemma SignedRevealPaysRule(env: Env, body: Bytes, to: string, publicKey: Bytes, commitment: Bytes, dust: Option<int>,
                             commitTxid: string, index: int, tip: int, expiry: Option<int>,
                             c: Secp256k1.Curve, nonce: Sign.Nonce, scalar: nat, signature: KeySignature)
    requires PlanInscription(env, body, to, publicKey, commitment, dust).Some? && c.n <= Pow256(32)
    requires var p := PlanInscription(env, body, to, publicKey, commitment, dust).value;
             && BuildReveal(env, p, commitTxid, index, tip, expiry).Built?
             && var u := BuildReveal(env, p, commitTxid, index, tip, expiry).value;
             forall d | d in u.sighashes :: SignedBy(c, nonce, scalar, d, signature)
    ensures var p := PlanInscription(env, body, to, publicKey, commitment, dust).value;
            var u := BuildReveal(env, p, commitTxid, index, tip, expiry).value;
            var tx := FinalizeReveal(u, p, signature.signatureDer);
            tx.Some? && PaysRule(tx.value, Sum(SpentValueOf, u.spent) - Sum(PaidValueOf, tx.value.outputs))
  {
    var p := PlanInscription(env, body, to, publicKey, commitment, dust).value;
    var u := BuildReveal(env, p, commitTxid, index, tip, expiry).value;
    SignerPaysRevealFee(env, body, to, publicKey, commitment, dust, commitTxid, index, tip, expiry, c, nonce, scalar,
                        signature);
    RevealReadable(env, p, commitTxid, index, tip, expiry, signature.signatureDer);
    var tx := FinalizeReveal(u, p, signature.signatureDer).value;
    PaysIff(tx, Sum(SpentValueOf, u.spent) - Sum(PaidValueOf, tx.outputs));
  }
}
