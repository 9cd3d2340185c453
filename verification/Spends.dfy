/** The finished pair on chain: every script runs, and what the reveal carries reads back. */
module Spends {
  import opened Bytes
  import opened CompactSignatures
  import opened DigestTree
  import opened Envelope
  import opened Inscribe
  import opened InscribeSafety
  import opened KeyRecovery
  import opened Secp256k1
  import opened Sign
  import opened Sums
  import opened Transaction
  import opened Zip244

  type CheckSig = (Bytes, Bytes) -> bool

  const OP_DUP := 0x76
  const OP_HASH160 := 0xa9
  const OP_EQUALVERIFY := 0x88
  const OP_CHECKSIG := 0xac

  /* ---------- spending a key's coin ---------- */

  /** One step of the script machine, with the opcodes a key's output uses. */
  function Exec(item: Item, stack: seq<Bytes>, hash160: Bytes -> Bytes, checkSig: CheckSig): Option<seq<Bytes>> {
    var n := |stack|;
    if item == Op(OP_DUP) then if n < 1 then None else Some(stack + [stack[n - 1]])
    else if item == Op(OP_HASH160) then if n < 1 then None else Some(stack[..n - 1] + [hash160(stack[n - 1])])
    else if item == Op(OP_EQUALVERIFY) then
      if n < 2 || stack[n - 1] != stack[n - 2] then None else Some(stack[..n - 2])
    else if item == Op(OP_CHECKSIG) then
      if n < 2 then None else Some(stack[..n - 2] + [if checkSig(stack[n - 1], stack[n - 2]) then [1] else []])
    else Run(item, stack, checkSig)
  }

  function ExecAll(items: seq<Item>, stack: seq<Bytes>, hash160: Bytes -> Bytes, checkSig: CheckSig)
    : Option<seq<Bytes>>
  {
    if items == [] then Some(stack)
    else match Exec(items[0], stack, hash160, checkSig)
      case None => None
      case Some(next) => ExecAll(items[1..], next, hash160, checkSig)
  }

  /** The scriptSig, then the coin's script on what it left. */
  function Spend(scriptSig: Bytes, scriptPubKey: Bytes, hash160: Bytes -> Bytes, checkSig: CheckSig)
    : Option<seq<Bytes>>
  {
    match ExecAll(ParseScript(scriptSig), [], hash160, checkSig)
    case None => None
    case Some(stack) => ExecAll(ParseScript(scriptPubKey), stack, hash160, checkSig)
  }

  lemma ExecNext(item: Item, rest: seq<Item>, stack: seq<Bytes>, hash160: Bytes -> Bytes, checkSig: CheckSig)
    requires Exec(item, stack, hash160, checkSig).Some?
    ensures ExecAll([item] + rest, stack, hash160, checkSig)
            == ExecAll(rest, Exec(item, stack, hash160, checkSig).value, hash160, checkSig)
  {
    assert ([item] + rest)[1..] == rest;
  }

  lemma ExecTwo(a: Bytes, b: Bytes, hash160: Bytes -> Bytes, checkSig: CheckSig)
    requires |a| <= MAX_SCRIPT_ELEMENT_SIZE && |b| <= MAX_SCRIPT_ELEMENT_SIZE
    ensures ExecAll([Data(a), Data(b)], [], hash160, checkSig) == Some([a, b])
  {
    assert [Data(a), Data(b)] == [Data(a)] + ([Data(b)] + []);
    ExecNext(Data(a), [Data(b)] + [], [], hash160, checkSig);
    assert [] + [a] == [a] && [a] + [b] == [a, b];
    ExecNext(Data(b), [], [a], hash160, checkSig);
  }

  function KeyItems(keyHash: Bytes): seq<Item> {
    [Op(OP_DUP)] + ([Op(OP_HASH160)] + ([Data(keyHash)] + ([Op(OP_EQUALVERIFY)] + ([Op(OP_CHECKSIG)] + []))))
  }

  lemma ParseKeyScript(keyHash: Hash20)
    ensures ParseScript(P2pkhScript(keyHash)) == KeyItems(keyHash)
  {
    var tail: Bytes := [0x88, 0xac];
    assert tail == [0x88] + ([0xac] + []);
    ParseOp(0xac, []);
    ParseOp(0x88, [0xac] + []);
    ParsePush(keyHash, tail);
    ParseOp(0xa9, PushData(keyHash) + tail);
    ParseOp(0x76, [0xa9] + (PushData(keyHash) + tail));
    assert P2pkhScript(keyHash) == [0x76] + ([0xa9] + (PushData(keyHash) + tail));
    assert ParseScript(tail) == [Op(OP_EQUALVERIFY)] + ([Op(OP_CHECKSIG)] + []);
  }

  lemma CheckLast(signature: Bytes, key: Bytes, hash160: Bytes -> Bytes, checkSig: CheckSig)
    ensures ExecAll([Op(OP_CHECKSIG)] + [], [signature, key], hash160, checkSig)
            == Some([if checkSig(key, signature) then [1] else []])
  {
    var s, r := [signature, key], [if checkSig(key, signature) then [1] else []];
    assert s[..0] + r == r;
    ExecNext(Op(OP_CHECKSIG), [], s, hash160, checkSig);
    assert ExecAll([], r, hash160, checkSig) == Some(r);
  }

  /** The key's script accepts exactly its own key with a signature that checks. */
  lemma RunKeyScript(keyHash: Bytes, signature: Bytes, key: Bytes, hash160: Bytes -> Bytes, checkSig: CheckSig)
    requires |keyHash| <= MAX_SCRIPT_ELEMENT_SIZE
    ensures ExecAll(KeyItems(keyHash), [signature, key], hash160, checkSig)
            == if hash160(key) != keyHash then None else Some([if checkSig(key, signature) then [1] else []])
  {
    var last := [Op(OP_CHECKSIG)] + [];
    var fourth := [Op(OP_EQUALVERIFY)] + last;
    var s := [signature, key];
    ExecNext(Op(OP_DUP), [Op(OP_HASH160)] + ([Data(keyHash)] + fourth), s, hash160, checkSig);
    assert s + [key] == [signature, key, key];
    ExecNext(Op(OP_HASH160), [Data(keyHash)] + fourth, [signature, key, key], hash160, checkSig);
    assert [signature, key, key][..2] + [hash160(key)] == [signature, key, hash160(key)];
    ExecNext(Data(keyHash), fourth, [signature, key, hash160(key)], hash160, checkSig);
    var t := [signature, key, hash160(key), keyHash];
    assert [signature, key, hash160(key)] + [keyHash] == t;
    if hash160(key) == keyHash {
      ExecNext(Op(OP_EQUALVERIFY), last, t, hash160, checkSig);
      assert t[..2] == s;
      CheckLast(signature, key, hash160, checkSig);
    } else {
      assert fourth[0] == Op(OP_EQUALVERIFY) && ExecAll(fourth, t, hash160, checkSig) == None;
    }
  }

  /** A P2PKH scriptSig spends a key's coin exactly if the key hashes to the coin's and its signature checks. */
  lemma SpendKeyIff(keyHash: Hash20, s: KeySignature, hash160: Bytes -> Bytes, checkSig: CheckSig)
    requires Attachable(s) && |s.signatureDer| < MAX_SCRIPT_ELEMENT_SIZE
    ensures Spend(P2pkhScriptSig(s), P2pkhScript(keyHash), hash160, checkSig) == Some([[1]])
            <==> hash160(s.publicKey) == keyHash && checkSig(s.publicKey, s.signatureDer + [SIGHASH_ALL])
  {
    var signature := s.signatureDer + [SIGHASH_ALL];
    ParseLast(signature, s.publicKey);
    ExecTwo(signature, s.publicKey, hash160, checkSig);
    ParseKeyScript(keyHash);
    RunKeyScript(keyHash, signature, s.publicKey, hash160, checkSig);
  }

  /* ---------- the reveal's script ---------- */

  lemma RefusedRedeem(publicKey: Bytes, commitment: Bytes, below: seq<Bytes>, signature: Bytes, checkSig: CheckSig)
    requires |publicKey| == 33 && |commitment| == 32 && !checkSig(publicKey, signature)
    ensures RunAll(RedeemItems(publicKey, commitment), below + [signature], checkSig) == None
  {
    var items := RedeemItems(publicKey, commitment);
    var stack := below + [signature];
    assert Run(items[0], stack, checkSig) == Some(stack + [publicKey]);
    assert items[1..][0] == Op(OP_CHECKSIGVERIFY);
    var t := stack + [publicKey];
    assert t[|t| - 1] == publicKey && t[|t| - 2] == signature;
    assert RunAll(items[1..], t, checkSig) == None;
  }

  /** The reveal's scriptSig spends its coin, leaving one true value, exactly if the signature checks and the body takes
      two chunks. */
  lemma RevealSpendsIff(contentType: Bytes, body: Bytes, signature: Bytes, publicKey: Bytes, commitment: Bytes,
                        hash160: Bytes -> Bytes, checkSig: CheckSig)
    requires 0 < |contentType| <= MAX_SCRIPT_ELEMENT_SIZE && 0 < |signature| <= MAX_SCRIPT_ELEMENT_SIZE
    requires |publicKey| == 33 && |commitment| == 32
    ensures var redeem := InscriptionRedeemScript(publicKey, commitment).value;
            var scriptSig := InscriptionScriptSig(EncodeEnvelope(contentType, body), signature, redeem).value;
            SpendP2sh(scriptSig, hash160(redeem), hash160, checkSig) == Some([[1]])
            <==> 241 <= |body| <= 480 && checkSig(publicKey, signature)
  {
    if checkSig(publicKey, signature) {
      RevealBalance(contentType, body, signature, publicKey, commitment, hash160, checkSig);
    } else {
      var redeem := InscriptionRedeemScript(publicKey, commitment).value;
      var scriptSig := InscriptionScriptSig(EncodeEnvelope(contentType, body), signature, redeem).value;
      RunScriptSig(contentType, body, signature, redeem, checkSig);
      var stack := RunAll(ParseScript(scriptSig), [], checkSig).value;
      var below := stack[..|stack| - 2];
      assert stack == below + [signature] + [redeem] by { assert stack == below + stack[|stack| - 2..]; }
      SpendRunsRedeem(publicKey, commitment, scriptSig, below, signature, hash160, checkSig);
      ParseRedeem(publicKey, commitment);
      RefusedRedeem(publicKey, commitment, below, signature, checkSig);
    }
  }

  /** A plan's envelope and lock. */
  lemma PlanParts(env: Env, body: Bytes, to: string, publicKey: Bytes, commitment: Bytes, dust: Option<int>)
    requires PlanInscription(env, body, to, publicKey, commitment, dust).Some?
    ensures var p := PlanInscription(env, body, to, publicKey, commitment, dust).value;
            && |publicKey| == 33 && |commitment| == 32
            && Some(p.redeemScript) == InscriptionRedeemScript(publicKey, commitment)
            && p.envelope == EncodeEnvelope(CONTENT_TYPE, body)
            && p.commitScriptPubKey == P2shScript(env.hash160(p.redeemScript))
            && p.revealScriptSigBytes == |p.envelope| + 74 + |PushData(p.redeemScript)|
  {
  }

  lemma LockBytes(h: Hash20)
    ensures P2shScript(h) == [0xa9, 20] + h + [0x87] && P2shScript(h)[2..22] == h
  {
    assert PushData(h) == [20] + h;
  }

  /** What was signed fits its push, so it is at most 73 bytes with the hash type. */
  lemma FinalScriptSig(u: Unsigned, p: Plan, der: Bytes)
    requires |u.tx.inputs| == 1 && Pushable(p.redeemScript)
    requires p.revealScriptSigBytes == |p.envelope| + 74 + |PushData(p.redeemScript)|
    requires FinalizeReveal(u, p, der).Some?
    ensures var tx := FinalizeReveal(u, p, der).value;
            && |tx.inputs| == 1 && |der| <= 72
            && InscriptionScriptSig(p.envelope, der + [SIGHASH_ALL], p.redeemScript) == Some(tx.inputs[0].scriptSig)
  {
  }

  /** What the indexer decodes from the reveal's scriptSig. */
  lemma BodyReadsBack(body: Bytes, signature: Bytes, redeem: Bytes, scriptSig: Bytes)
    requires signature != []
    requires InscriptionScriptSig(EncodeEnvelope(CONTENT_TYPE, body), signature, redeem) == Some(scriptSig)
    ensures DecodeEnvelope(scriptSig) == Some(DecodedEnvelope(Ascii("application/json"), body)) <==> body != []
  {
    assert |CONTENT_TYPE| == 16;
    EnvelopeRoundTrip(CONTENT_TYPE, body, signature, redeem);
  }

  lemma RevealOpensLock(body: Bytes, signature: Bytes, publicKey: Bytes, commitment: Bytes, scriptSig: Bytes,
                        hash160: Bytes -> Bytes, checkSig: CheckSig)
    requires |publicKey| == 33 && |commitment| == 32 && 0 < |signature| <= 73
    requires InscriptionScriptSig(EncodeEnvelope(CONTENT_TYPE, body), signature,
                                  InscriptionRedeemScript(publicKey, commitment).value) == Some(scriptSig)
    ensures SpendP2sh(scriptSig, hash160(InscriptionRedeemScript(publicKey, commitment).value), hash160, checkSig)
            == Some([[1]])
            <==> 241 <= |body| <= 480 && checkSig(publicKey, signature)
  {
    assert |CONTENT_TYPE| == 16;
    RevealSpendsIff(CONTENT_TYPE, body, signature, publicKey, commitment, hash160, checkSig);
  }

  function Hash160Of(env: Env): Bytes -> Bytes { (b: Bytes) => env.hash160(b) }

  /** The scriptSig runs with the P2SH lock to one true value. */
  predicate Opens(env: Env, scriptSig: Bytes, lock: Bytes, checkSig: CheckSig) {
    && |lock| == 23 && lock == [0xa9, 20] + lock[2..22] + [0x87]
    && SpendP2sh(scriptSig, lock[2..22], Hash160Of(env), checkSig) == Some([[1]])
  }

  lemma OpensItsLock(env: Env, body: Bytes, signature: Bytes, publicKey: Bytes, commitment: Bytes, scriptSig: Bytes,
                     lock: Bytes, checkSig: CheckSig)
    requires |publicKey| == 33 && |commitment| == 32 && 0 < |signature| <= 73
    requires var redeem := InscriptionRedeemScript(publicKey, commitment).value;
             && InscriptionScriptSig(EncodeEnvelope(CONTENT_TYPE, body), signature, redeem) == Some(scriptSig)
             && lock == P2shScript(env.hash160(redeem))
    ensures |lock| == 23 && lock == [0xa9, 20] + lock[2..22] + [0x87]
    ensures SpendP2sh(scriptSig, lock[2..22], Hash160Of(env), checkSig) == Some([[1]])
            <==> 241 <= |body| <= 480 && checkSig(publicKey, signature)
  {
    var hash := Hash160Of(env);
    var h := env.hash160(InscriptionRedeemScript(publicKey, commitment).value);
    LockBytes(h);
    assert lock[2..22] == h && h == hash(InscriptionRedeemScript(publicKey, commitment).value);
    RevealOpensLock(body, signature, publicKey, commitment, scriptSig, hash, checkSig);
  }

  /** Both halves of a built stamp, finalized, as far as the lock is concerned. */
  lemma LockAndKey(env: Env, p: Plan, utxos: seq<Utxo>, changeAddress: string, tip: int, expiry: Option<int>,
                   der: Bytes)
    requires BuildStamp(env, p, utxos, changeAddress, tip, expiry).Built? && Pushable(p.redeemScript)
    requires p.revealScriptSigBytes == |p.envelope| + 74 + |PushData(p.redeemScript)|
    requires FinalizeReveal(BuildStamp(env, p, utxos, changeAddress, tip, expiry).value.revealTx, p, der).Some?
    ensures var s := BuildStamp(env, p, utxos, changeAddress, tip, expiry).value;
            var tx := FinalizeReveal(s.revealTx, p, der).value;
            && |s.commit.tx.outputs| >= 1 && s.commit.tx.outputs[0].scriptPubKey == p.commitScriptPubKey
            && |tx.inputs| == 1 && |der| <= 72
            && InscriptionScriptSig(p.envelope, der + [SIGHASH_ALL], p.redeemScript) == Some(tx.inputs[0].scriptSig)
  {
    var s := BuildStamp(env, p, utxos, changeAddress, tip, expiry).value;
    CommitShape(env, p, utxos, changeAddress, tip, expiry);
    RevealShape(env, p, s.commit.txid, 0, tip, expiry);
    FinalScriptSig(s.revealTx, p, der);
  }

  /** The built pair fits together on chain: the finalized reveal's scriptSig opens the P2SH lock that the bytes of the
      commit's first output spell, leaving one true value, exactly if its signature checks and the body is 241 to 480
      bytes; and the indexer reads the body back from that scriptSig. */
  lemma StampSpends(env: Env, body: Bytes, to: string, publicKey: Bytes, commitment: Bytes, dust: Option<int>,
                    p: Plan, utxos: seq<Utxo>, changeAddress: string, tip: int, expiry: Option<int>, s: Stamp,
                    der: Bytes, tx: TransactionV5, checkSig: CheckSig)
    requires PlanInscription(env, body, to, publicKey, commitment, dust) == Some(p)
    requires BuildStamp(env, p, utxos, changeAddress, tip, expiry) == Built(s)
    requires FinalizeReveal(s.revealTx, p, der) == Some(tx)
    ensures |s.commit.tx.outputs| >= 1 && |tx.inputs| == 1
    ensures Opens(env, tx.inputs[0].scriptSig, s.commit.tx.outputs[0].scriptPubKey, checkSig)
            <==> 241 <= |body| <= 480 && checkSig(publicKey, der + [SIGHASH_ALL])
    ensures DecodeEnvelope(tx.inputs[0].scriptSig) == Some(DecodedEnvelope(Ascii("application/json"), body))
            <==> body != []
  {
    PlanParts(env, body, to, publicKey, commitment, dust);
    LockAndKey(env, p, utxos, changeAddress, tip, expiry, der);
    OpensItsLock(env, body, der + [SIGHASH_ALL], publicKey, commitment, tx.inputs[0].scriptSig,
                 s.commit.tx.outputs[0].scriptPubKey, checkSig);
    BodyReadsBack(body, der + [SIGHASH_ALL], p.redeemScript, tx.inputs[0].scriptSig);
  }

  /* ---------- with the signer's own signatures ---------- */

  /** The signature verifies for the digest under the key. */
  predicate Accepts(c: Curve, digest: Option<Digest>, der: Option<Signature>, key: Bytes) {
    digest.Some? && der.Some? && VerifySignature(c, digest.value, der.value.r, der.value.s, DecodePoint(c, key))
  }

  /** What CHECKSIG means: the last byte is a hash type, and the rest a DER signature of this input's digest for it. */
  function OpCheckSig(c: Curve, h: Hash, tx: TransactionV5, spent: seq<SpentOutput>, index: int): CheckSig {
    (key: Bytes, signature: Bytes) =>
      signature != []
      && Accepts(c, SignatureDigest(h, tx, spent, index, signature[|signature| - 1]),
                 ReadDer(signature[..|signature| - 1]), key)
  }

  /** The signer's key, compressed, and its signature of a digest. */
  ghost predicate SignsWith(c: Curve, nonce: Nonce, scalar: nat, digest: Digest, s: KeySignature) {
    && SignedBy(c, nonce, scalar, digest, s) && Some(s.publicKey) == EncodePoint(PointMul(c, scalar, c.base), true)
  }

  /** A curve whose points and order fit 32 bytes, and a scalar that has a public key on it. */
  ghost predicate CanSign(c: Curve, scalar: nat) {
    RootCurve(c) && c.p <= Pow256(32) && c.n <= Pow256(32) && scalar % c.n != 0
  }

  lemma SignerVerifies(c: Curve, nonce: Nonce, scalar: nat, digest: Digest, s: KeySignature)
    requires CanSign(c, scalar) && SignsWith(c, nonce, scalar, digest, s)
    ensures Accepts(c, Some(digest), ReadDer(s.signatureDer), s.publicKey)
  {
    var signature := SignDigest(c, nonce, digest, scalar).value;
    SigningVerifies(c, nonce, digest, scalar);
    DerRoundTrip(signature);
    PublicKeyAffine(c, scalar);
    PointMulIsTimes(c, scalar, c.base);
    PointRoundTrip(c, PointMul(c, scalar, c.base), true);
  }

  lemma TypedSignature(der: Bytes)
    ensures var signature := der + [SIGHASH_ALL];
            signature != [] && signature[..|signature| - 1] == der && signature[|signature| - 1] == SIGHASH_ALL
  {
  }

  /** The signer's signature of this input's digest. */
  ghost predicate SignsInput(c: Curve, h: Hash, tx: TransactionV5, spent: seq<SpentOutput>, index: int, nonce: Nonce,
                             scalar: nat, digest: Digest, s: KeySignature) {
    && CanSign(c, scalar) && SignsWith(c, nonce, scalar, digest, s)
    && SignatureDigest(h, tx, spent, index, SIGHASH_ALL) == Some(digest)
  }

  lemma Checks(c: Curve, h: Hash, tx: TransactionV5, spent: seq<SpentOutput>, index: int, nonce: Nonce, scalar: nat,
               digest: Digest, s: KeySignature)
    requires SignsInput(c, h, tx, spent, index, nonce, scalar, digest, s)
    ensures OpCheckSig(c, h, tx, spent, index)(s.publicKey, s.signatureDer + [SIGHASH_ALL])
  {
    SignerVerifies(c, nonce, scalar, digest, s);
    TypedSignature(s.signatureDer);
  }

  lemma {:induction false} SighashAt(h: Hash, tx: TransactionV5, spent: seq<SpentOutput>, n: nat, i: nat)
    requires Sighashes(h, tx, spent, n).Some? && i < n
    ensures SignatureDigest(h, tx, spent, i, SIGHASH_ALL) == Some(Sighashes(h, tx, spent, n).value[i])
  {
    hide SignatureDigest;
    SighashesFront(h, tx, spent, n);
    if i < n - 1 { SighashAt(h, tx, spent, n - 1, i); }
  }

  lemma SighashesFront(h: Hash, tx: TransactionV5, spent: seq<SpentOutput>, n: nat)
    requires n > 0 && Sighashes(h, tx, spent, n).Some?
    ensures var front, last := Sighashes(h, tx, spent, n - 1), SignatureDigest(h, tx, spent, n - 1, SIGHASH_ALL);
            front.Some? && last.Some? && Sighashes(h, tx, spent, n).value == front.value + [last.value]
  {
  }

  lemma CommitSighash(env: Env, plan: Plan, utxos: seq<Utxo>, changeAddress: string, tip: int, expiry: Option<int>,
                      u: Unsigned, i: nat)
    requires BuildCommit(env, plan, utxos, changeAddress, tip, expiry) == Built(u) && i < |u.tx.inputs|
    ensures |u.sighashes| == |u.tx.inputs| == |u.spent|
    ensures SignatureDigest(env.hash, u.tx, u.spent, i, SIGHASH_ALL) == Some(u.sighashes[i])
  {
    SighashAt(env.hash, u.tx, u.spent, |u.tx.inputs|, i);
  }

  lemma RevealSighash(env: Env, plan: Plan, commitTxid: string, tip: int, expiry: Option<int>, u: Unsigned)
    requires BuildReveal(env, plan, commitTxid, 0, tip, expiry) == Built(u)
    ensures |u.sighashes| == 1 && SignatureDigest(env.hash, u.tx, u.spent, 0, SIGHASH_ALL) == Some(u.sighashes[0])
  {
    SighashAt(env.hash, u.tx, u.spent, 1, 0);
  }

  lemma SignedInputSpends(env: Env, tx: TransactionV5, spent: seq<SpentOutput>, i: nat, digest: Digest,
                          c: Curve, nonce: Nonce, scalar: nat, s: KeySignature)
    requires CanSign(c, scalar) && SignsWith(c, nonce, scalar, digest, s) && Attachable(s)
    requires i < |tx.inputs| && i < |spent| && tx.inputs[i].scriptSig == P2pkhScriptSig(s)
    requires spent[i].scriptPubKey == P2pkhScript(env.hash160(s.publicKey))
    requires SignatureDigest(env.hash, tx, spent, i, SIGHASH_ALL) == Some(digest)
    ensures Spend(tx.inputs[i].scriptSig, spent[i].scriptPubKey, Hash160Of(env),
                  OpCheckSig(c, env.hash, tx, spent, i)) == Some([[1]])
  {
    SignerIsStandard(c, nonce, scalar, digest, s);
    Checks(c, env.hash, tx, spent, i, nonce, scalar, digest, s);
    SpendKeyIff(env.hash160(s.publicKey), s, Hash160Of(env), OpCheckSig(c, env.hash, tx, spent, i));
  }

  /** Where the coins are the signer's own, the commit it signed spends every one of them: each scriptSig runs with its
      coin's script to one true value, the signature checked against the finished transaction's own digest. */
  lemma SignedCommitSpends(env: Env, plan: Plan, utxos: seq<Utxo>, changeAddress: string, tip: int, expiry: Option<int>,
                           u: Unsigned, c: Curve, nonce: Nonce, scalar: nat, signatures: seq<KeySignature>)
    requires BuildCommit(env, plan, utxos, changeAddress, tip, expiry) == Built(u) && CanSign(c, scalar)
    requires |signatures| == |u.sighashes| == |u.spent|
    requires forall i | 0 <= i < |signatures| ::
               SignsWith(c, nonce, scalar, u.sighashes[i], signatures[i])
               && u.spent[i].scriptPubKey == P2pkhScript(env.hash160(signatures[i].publicKey))
    ensures var tx := FinalizeP2pkhInputs(u, signatures);
            && tx.Some? && |tx.value.inputs| == |u.spent|
            && forall i | 0 <= i < |u.spent| ::
                 Spend(tx.value.inputs[i].scriptSig, u.spent[i].scriptPubKey, Hash160Of(env),
                       OpCheckSig(c, env.hash, tx.value, u.spent, i)) == Some([[1]])
  {
    CommitSighashes(env, plan, utxos, changeAddress, tip, expiry);
    forall i | 0 <= i < |signatures| ensures Standard(signatures[i]) && Attachable(signatures[i]) {
      SignerIsStandard(c, nonce, scalar, u.sighashes[i], signatures[i]);
      StandardScriptSig(signatures[i]);
    }
    SignedCommitFee(u, signatures);
    var tx := FinalizeP2pkhInputs(u, signatures).value;
    forall i | 0 <= i < |u.spent|
      ensures Spend(tx.inputs[i].scriptSig, u.spent[i].scriptPubKey, Hash160Of(env),
                    OpCheckSig(c, env.hash, tx, u.spent, i)) == Some([[1]])
    {
      CommitSighash(env, plan, utxos, changeAddress, tip, expiry, u, i);
      FinalizingKeepsDigests(env.hash, u, plan, [], signatures, u.spent, i, SIGHASH_ALL);
      SignedInputSpends(env, tx, u.spent, i, u.sighashes[i], c, nonce, scalar, signatures[i]);
    }
  }

  /** The scriptSig and lock of a reveal for this key. */
  predicate RevealOf(env: Env, body: Bytes, signature: Bytes, publicKey: Bytes, commitment: Bytes, redeem: Bytes,
                     scriptSig: Bytes, lock: Bytes) {
    && |publicKey| == 33 && |commitment| == 32 && 0 < |signature| <= 73
    && InscriptionRedeemScript(publicKey, commitment) == Some(redeem)
    && InscriptionScriptSig(EncodeEnvelope(CONTENT_TYPE, body), signature, redeem) == Some(scriptSig)
    && lock == P2shScript(env.hash160(redeem))
  }

  lemma CheckedOpensLock(env: Env, body: Bytes, signature: Bytes, publicKey: Bytes, commitment: Bytes, redeem: Bytes,
                         scriptSig: Bytes, lock: Bytes, checkSig: CheckSig)
    requires RevealOf(env, body, signature, publicKey, commitment, redeem, scriptSig, lock)
    requires checkSig(publicKey, signature)
    ensures Opens(env, scriptSig, lock, checkSig) <==> 241 <= |body| <= 480
  {
    OpensItsLock(env, body, signature, publicKey, commitment, scriptSig, lock, checkSig);
  }

  lemma SignerOpensLock(env: Env, body: Bytes, signature: Bytes, commitment: Bytes, redeem: Bytes, scriptSig: Bytes,
                        lock: Bytes, tx: TransactionV5, spent: seq<SpentOutput>, digest: Digest,
                        c: Curve, nonce: Nonce, scalar: nat, s: KeySignature)
    requires signature == s.signatureDer + [SIGHASH_ALL]
    requires RevealOf(env, body, signature, s.publicKey, commitment, redeem, scriptSig, lock)
    requires SignsInput(c, env.hash, tx, spent, 0, nonce, scalar, digest, s)
    ensures Opens(env, scriptSig, lock, OpCheckSig(c, env.hash, tx, spent, 0)) <==> 241 <= |body| <= 480
  {
    Checks(c, env.hash, tx, spent, 0, nonce, scalar, digest, s);
    CheckedOpensLock(env, body, signature, s.publicKey, commitment, redeem, scriptSig, lock,
                     OpCheckSig(c, env.hash, tx, spent, 0));
  }

  lemma SignedRevealSighash(env: Env, p: Plan, commitTxid: string, tip: int, expiry: Option<int>, u: Unsigned,
                            der: Bytes, tx: TransactionV5)
    requires BuildReveal(env, p, commitTxid, 0, tip, expiry) == Built(u) && FinalizeReveal(u, p, der) == Some(tx)
    ensures |u.sighashes| == 1 && SignatureDigest(env.hash, tx, u.spent, 0, SIGHASH_ALL) == Some(u.sighashes[0])
  {
    RevealSighash(env, p, commitTxid, tip, expiry, u);
    FinalizingKeepsDigests(env.hash, u, p, der, [], u.spent, 0, SIGHASH_ALL);
  }

  /** The first input's scriptSig and the first output's script. */
  function FirstScriptSig(tx: TransactionV5): Bytes { if tx.inputs == [] then [] else tx.inputs[0].scriptSig }
  function FirstLock(tx: TransactionV5): Bytes { if tx.outputs == [] then [] else tx.outputs[0].scriptPubKey }

  /** A plan under the signer's key, the stamp built from it, and the reveal finalized with the signer's signature. */
  ghost predicate SignedStamp(env: Env, body: Bytes, to: string, commitment: Bytes, dust: Option<int>, p: Plan,
                              utxos: seq<Utxo>, changeAddress: string, tip: int, expiry: Option<int>, s: Stamp,
                              c: Curve, nonce: Nonce, scalar: nat, digest: Digest, signature: KeySignature,
                              tx: TransactionV5) {
    && PlanInscription(env, body, to, signature.publicKey, commitment, dust) == Some(p)
    && BuildStamp(env, p, utxos, changeAddress, tip, expiry) == Built(s)
    && FinalizeReveal(s.revealTx, p, signature.signatureDer) == Some(tx)
    && s.revealTx.sighashes == [digest]
    && CanSign(c, scalar) && SignsWith(c, nonce, scalar, digest, signature)
  }

  lemma SignedStampParts(env: Env, body: Bytes, to: string, commitment: Bytes, dust: Option<int>, p: Plan,
                         utxos: seq<Utxo>, changeAddress: string, tip: int, expiry: Option<int>, s: Stamp,
                         c: Curve, nonce: Nonce, scalar: nat, digest: Digest, signature: KeySignature,
                         tx: TransactionV5, typed: Bytes)
    requires typed == signature.signatureDer + [SIGHASH_ALL]
    requires SignedStamp(env, body, to, commitment, dust, p, utxos, changeAddress, tip, expiry, s, c, nonce, scalar,
                         digest, signature, tx)
    ensures |s.commit.tx.outputs| >= 1 && |tx.inputs| == 1
    ensures RevealOf(env, body, typed, signature.publicKey, commitment, p.redeemScript, FirstScriptSig(tx),
                     FirstLock(s.commit.tx))
    ensures SignsInput(c, env.hash, tx, s.revealTx.spent, 0, nonce, scalar, digest, signature)
  {
    PlanParts(env, body, to, signature.publicKey, commitment, dust);
    LockAndKey(env, p, utxos, changeAddress, tip, expiry, signature.signatureDer);
    SignedRevealSighash(env, p, s.commit.txid, tip, expiry, s.revealTx, signature.signatureDer, tx);
  }

  /** And the reveal it signed, for a plan under its own key, opens the commit's first output exactly if the body is 241
      to 480 bytes: with any other it paid for an output it cannot spend, or leaves items on the stack. */
  lemma SignedRevealSpendsIff(env: Env, body: Bytes, to: string, commitment: Bytes, dust: Option<int>, p: Plan,
                              utxos: seq<Utxo>, changeAddress: string, tip: int, expiry: Option<int>, s: Stamp,
                              c: Curve, nonce: Nonce, scalar: nat, digest: Digest, signature: KeySignature,
                              tx: TransactionV5)
    requires SignedStamp(env, body, to, commitment, dust, p, utxos, changeAddress, tip, expiry, s, c, nonce, scalar,
                         digest, signature, tx)
    ensures |s.commit.tx.outputs| >= 1 && |tx.inputs| == 1
    ensures Opens(env, FirstScriptSig(tx), FirstLock(s.commit.tx), OpCheckSig(c, env.hash, tx, s.revealTx.spent, 0))
            <==> 241 <= |body| <= 480
  {
    var typed: Bytes := signature.signatureDer + [SIGHASH_ALL];
    hide *;
    SignedStampParts(env, body, to, commitment, dust, p, utxos, changeAddress, tip, expiry, s, c, nonce, scalar,
                     digest, signature, tx, typed);
    SignerOpensLock(env, body, typed, commitment, p.redeemScript, FirstScriptSig(tx), FirstLock(s.commit.tx), tx,
                    s.revealTx.spent, digest, c, nonce, scalar, signature);
  }

  /* ---------- the rest of what is built ---------- */

  /** A v5 transaction for the branch in force at its expiry, which lies past the tip, with no lock time and every input
      final. */
  predicate Shell(env: Env, tip: int, expiry: Option<int>, tx: TransactionV5) {
    && tx.version == 5 && tx.versionGroupId == 0x26a7270a && tx.lockTime == 0
    && tx.expiryHeight == (match expiry case Some(e) => e case None => tip + 40) && tx.expiryHeight > tip
    && env.branchAt(tx.expiryHeight) == Some(tx.consensusBranchId)
    && tx.sapling.None? && tx.orchard.None?
    && forall i | 0 <= i < |tx.inputs| :: tx.inputs[i].sequence == 0xffff_ffff && tx.inputs[i].scriptSig == []
  }

  /** The commit spends the largest coins, each by its own outpoint. */
  lemma CommitBuilt(env: Env, plan: Plan, utxos: seq<Utxo>, changeAddress: string, tip: int, expiry: Option<int>,
                    u: Unsigned)
    requires BuildCommit(env, plan, utxos, changeAddress, tip, expiry) == Built(u)
    ensures Shell(env, tip, expiry, u.tx)
    ensures |u.tx.inputs| <= |utxos| && |u.spent| == |u.tx.inputs|
    ensures forall i | 0 <= i < |u.tx.inputs| ::
              var coin := Candidates(utxos)[i];
              && u.tx.inputs[i].prevout == OutPoint(coin.txid, coin.index)
              && u.spent[i].value == coin.valueZat && Some(u.spent[i].scriptPubKey) == HexToBytes(coin.scriptPubKeyHex)
  {
    CommitShape(env, plan, utxos, changeAddress, tip, expiry);
    var n := |u.tx.inputs|;
    InputsOneByOne(Candidates(utxos)[..n]);
    SpentOneByOne(Candidates(utxos)[..n]);
    CommitFromShell(env, plan, utxos, changeAddress, tip, expiry, u);
    ShellFits(env, tip, expiry, u.tx.inputs, u.tx.outputs, u.tx);
  }

  lemma InputsOneByOne(coins: seq<Utxo>)
    ensures forall i | 0 <= i < |coins| ::
              Inputs(coins)[i] == TxInput(OutPoint(coins[i].txid, coins[i].index), [], 0xffff_ffff)
  {
  }

  lemma CommitFromShell(env: Env, plan: Plan, utxos: seq<Utxo>, changeAddress: string, tip: int, expiry: Option<int>,
                        u: Unsigned)
    requires BuildCommit(env, plan, utxos, changeAddress, tip, expiry) == Built(u)
    ensures TransactionShell(env, tip, expiry, u.tx.inputs, u.tx.outputs) == Some(u.tx)
  {
  }

  lemma ShellFits(env: Env, tip: int, expiry: Option<int>, inputs: seq<TxInput>, outputs: seq<TxOutput>,
                  tx: TransactionV5)
    requires TransactionShell(env, tip, expiry, inputs, outputs) == Some(tx)
    requires forall i | 0 <= i < |inputs| :: inputs[i].sequence == 0xffff_ffff && inputs[i].scriptSig == []
    ensures Shell(env, tip, expiry, tx)
  {
  }

  lemma {:induction false} SpentOneByOne(coins: seq<Utxo>)
    requires SpentCoins(coins).Some?
    ensures forall i | 0 <= i < |coins| ::
              var s := SpentCoins(coins).value[i];
              s.value == coins[i].valueZat && Some(s.scriptPubKey) == HexToBytes(coins[i].scriptPubKeyHex)
  {
    if coins != [] {
      SpentOneByOne(coins[1..]);
      var rest := SpentCoins(coins[1..]).value;
      assert forall i | 1 <= i < |coins| :: SpentCoins(coins).value[i] == rest[i - 1] && coins[1..][i - 1] == coins[i];
    }
  }

  lemma RevealBuilt(env: Env, plan: Plan, commitTxid: string, tip: int, expiry: Option<int>, u: Unsigned)
    requires BuildReveal(env, plan, commitTxid, 0, tip, expiry) == Built(u)
    ensures Shell(env, tip, expiry, u.tx)
    ensures u.tx.inputs == [TxInput(OutPoint(commitTxid, 0), [], 0xffff_ffff)]
  {
  }

  /* ---------- when something is built ---------- */

  /** There is a plan exactly for a compressed key, a 32-byte commitment, an address that decodes and enough dust. */
  lemma PlanIff(env: Env, body: Bytes, to: string, publicKey: Bytes, commitment: Bytes, dust: Option<int>)
    ensures PlanInscription(env, body, to, publicKey, commitment, dust).Some?
            <==> |publicKey| == 33 && |commitment| == 32 && env.decodeAddress(to).Some?
                 && (dust.Some? ==> dust.value >= 546)
  {
  }

  /** Every selected coin has a readable id and script. */
  predicate Readable(coins: seq<Utxo>) {
    forall i | 0 <= i < |coins| :: TxidReadable(coins[i].txid) && HexToBytes(coins[i].scriptPubKeyHex).Some?
  }

  /** Some choice of the coins can pay. */
  ghost predicate Payable(plan: Plan, utxos: seq<Utxo>) {
    exists some: seq<Utxo> :: multiset(some) <= multiset(utxos) && CanPay(plan, some)
  }

  lemma FundedIff(plan: Plan, utxos: seq<Utxo>, changeScript: Bytes)
    ensures Fund(Candidates(utxos), plan, changeScript, 1).Funded? <==> Payable(plan, utxos)
  {
    FundedIsAChoice(plan, utxos, changeScript);
    if some: seq<Utxo> :| multiset(some) <= multiset(utxos) && CanPay(plan, some) {
      GreedyIsOptimal(plan, utxos, changeScript, some);
    }
  }

  lemma {:induction false} SpentIff(coins: seq<Utxo>)
    ensures SpentCoins(coins).Some? <==> forall i | 0 <= i < |coins| :: HexToBytes(coins[i].scriptPubKeyHex).Some?
  {
    if coins != [] {
      SpentIff(coins[1..]);
      assert forall i | 1 <= i < |coins| :: coins[1..][i - 1] == coins[i];
    }
  }

  lemma {:induction false} SighashesDefined(h: Hash, tx: TransactionV5, spent: seq<SpentOutput>, n: nat)
    requires PrevoutsReadable(tx) && ShieldedDefined(tx) && |spent| == |tx.inputs| && n <= |tx.inputs|
    ensures Sighashes(h, tx, spent, n).Some?
  {
    if n > 0 {
      SighashesDefined(h, tx, spent, n - 1);
      assert TransparentSignatureDigest(h, tx, spent, n - 1, SIGHASH_ALL).Some?;
    }
  }

  lemma PreparedIff(env: Env, tx: TransactionV5, spent: seq<SpentOutput>, feeZat: int)
    requires |spent| == |tx.inputs| && tx.sapling.None?
    ensures Prepare(env, tx, spent, feeZat).Built? <==> PrevoutsReadable(tx)
  {
    if PrevoutsReadable(tx) { SighashesDefined(env.hash, tx, spent, |tx.inputs|); }
  }

  /** A height at which a transaction may expire. */
  predicate Expirable(env: Env, tip: int, expiry: Option<int>) {
    var height := match expiry case Some(e) => e case None => tip + 40;
    height > tip && env.branchAt(height).Some?
  }

  /** The builder reports too few coins exactly if the change address decodes and no choice of coins can pay, and
      builds a commit exactly if some can, the expiry fits, and the coins it takes are readable. */
  lemma CommitBuiltIff(env: Env, plan: Plan, utxos: seq<Utxo>, changeAddress: string, tip: int, expiry: Option<int>)
    ensures BuildCommit(env, plan, utxos, changeAddress, tip, expiry).InsufficientFunds?
            <==> env.decodeAddress(changeAddress).Some? && !Payable(plan, utxos)
    ensures BuildCommit(env, plan, utxos, changeAddress, tip, expiry).Built?
            <==> && env.decodeAddress(changeAddress).Some? && Payable(plan, utxos) && Expirable(env, tip, expiry)
                 && exists n: nat :: n <= |utxos| && CanPay(plan, Candidates(utxos)[..n])
                      && Readable(Candidates(utxos)[..n])
                      && forall j: nat | j < n :: !CanPay(plan, Candidates(utxos)[..j])
  {
    var script := ScriptForAddress(env, changeAddress);
    if script.Some? {
      FundedIff(plan, utxos, script.value);
      var f := Fund(Candidates(utxos), plan, script.value, 1);
      FundStops(Candidates(utxos), plan, script.value, 1);
      if f.Funded? {
        FinishIff(env, plan, script.value, Candidates(utxos), f.count, f.feeZat, f.changeZat, tip, expiry);
        OnlyCount(plan, utxos, f.count);
      }
    }
  }

  lemma OnlyCount(plan: Plan, utxos: seq<Utxo>, count: nat)
    requires count <= |utxos| && CanPay(plan, Candidates(utxos)[..count])
    requires forall j: nat | j < count :: !CanPay(plan, Candidates(utxos)[..j])
    ensures forall n: nat | n <= |utxos| && CanPay(plan, Candidates(utxos)[..n])
                            && forall j: nat | j < n :: !CanPay(plan, Candidates(utxos)[..j]) :: n == count
  {
  }

  lemma FinishIff(env: Env, plan: Plan, changeScript: Bytes, coins: seq<Utxo>, k: nat, feeZat: int, changeZat: int,
                  tip: int, expiry: Option<int>)
    requires k <= |coins|
    ensures FinishCommit(env, plan, changeScript, coins, k, feeZat, changeZat, tip, expiry).Built?
            <==> Expirable(env, tip, expiry) && Readable(coins[..k])
  {
    var inputs, outputs := Inputs(coins[..k]), CommitOutputs(plan, changeScript, changeZat);
    var shell := TransactionShell(env, tip, expiry, inputs, outputs);
    SpentIff(coins[..k]);
    IdsReadable(coins[..k]);
    ShellIff(env, tip, expiry, inputs, outputs);
    if shell.Some? && SpentCoins(coins[..k]).Some? {
      PreparedIff(env, shell.value, SpentCoins(coins[..k]).value, feeZat);
    }
  }

  lemma IdsReadable(coins: seq<Utxo>)
    ensures (forall i | 0 <= i < |coins| :: TxidReadable(Inputs(coins)[i].prevout.txid))
            <==> forall i | 0 <= i < |coins| :: TxidReadable(coins[i].txid)
  {
    InputsOneByOne(coins);
  }

  lemma ShellIff(env: Env, tip: int, expiry: Option<int>, inputs: seq<TxInput>, outputs: seq<TxOutput>)
    ensures var shell := TransactionShell(env, tip, expiry, inputs, outputs);
            && (shell.Some? <==> Expirable(env, tip, expiry))
            && (shell.Some? ==> shell.value.inputs == inputs && shell.value.sapling.None?)
  {
  }

  /** What the breakdown shown to the operator adds up from: what each transaction spends beyond its outputs, and
      what is delivered. */
  lemma CostAddsUp(env: Env, plan: Plan, utxos: seq<Utxo>, changeAddress: string, tip: int, expiry: Option<int>,
                   s: Stamp)
    requires BuildStamp(env, plan, utxos, changeAddress, tip, expiry) == Built(s)
    requires |plan.commitScriptPubKey| == 23 && plan.commitOutputZat == plan.dustZat + plan.revealFeeZat
    ensures s.cost.commitFeeZat == Sum(SpentValueOf, s.commit.spent) - Sum(PaidValueOf, s.commit.tx.outputs)
    ensures s.cost.revealFeeZat == Sum(SpentValueOf, s.revealTx.spent) - Sum(PaidValueOf, s.revealTx.tx.outputs)
    ensures s.cost.dustZat == Sum(PaidValueOf, s.revealTx.tx.outputs)
    ensures s.cost.totalZat == s.cost.commitFeeZat + s.cost.revealFeeZat + s.cost.dustZat
  {
    CommitConserves(env, plan, utxos, changeAddress, tip, expiry);
    RevealShape(env, plan, s.commit.txid, 0, tip, expiry);
    SumOne(SpentValueOf, s.revealTx.spent[0]);
    SumOne(PaidValueOf, s.revealTx.tx.outputs[0]);
  }
}
