/** The commit/reveal pair that writes a stamp: planning, coin selection, building and finalizing. */
module Inscribe {
  import opened Bytes
  import opened DigestTree
  import opened Envelope
  import opened Fees
  import opened Ordering
  import opened Sums
  import opened Transaction
  import opened Zip244

  type Hash20 = b: Bytes | |b| == 20 witness Zeros(20)

  /** A transparent address, checked and decoded. */
  datatype Address = Address(p2sh: bool, hash: Hash20)

  /** What the builders call on: address decoding, HASH160, the consensus branch schedule and BLAKE2b-256. */
  datatype Env = Env(
    decodeAddress: string -> Option<Address>, hash160: Bytes -> Hash20, branchAt: int -> Option<int>, hash: Hash)

  const SEQUENCE_FINAL := 0xffff_ffff
  const DEFAULT_EXPIRY_DELTA := 40
  const MAX_SIGNATURE_PUSH_BYTES := 73
  const P2PKH_SCRIPTSIG_BYTES: nat := 1 + MAX_SIGNATURE_PUSH_BYTES + 1 + 33
  const CONTENT_TYPE: Bytes := Ascii("application/json")

  datatype Utxo = Utxo(txid: string, index: int, valueZat: int, scriptPubKeyHex: string)

  datatype Plan = Plan(
    envelope: Bytes, redeemScript: Bytes, commitScriptPubKey: Bytes, destination: string,
    dustZat: int, revealFeeZat: int, commitOutputZat: int, revealScriptSigBytes: nat)

  datatype Unsigned = Unsigned(
    tx: TransactionV5, spent: seq<SpentOutput>, sighashes: seq<Digest>, txid: string, feeZat: int)

  /** Too few coins is the one failure with its own code. */
  datatype Outcome<T> = InsufficientFunds | Refused | Built(value: T)

  /* ---------- scripts ---------- */

  function P2pkhScript(keyHash: Hash20): (s: Bytes)
    ensures |s| == 25
  {
    [0x76, 0xa9] + PushData(keyHash) + [0x88, 0xac]
  }

  function P2shScript(scriptHash: Hash20): (s: Bytes)
    ensures |s| == 23
  {
    [0xa9] + PushData(scriptHash) + [0x87]
  }

  function ScriptForAddress(env: Env, address: string): (s: Option<Bytes>)
    ensures s.Some? ==> |s.value| == 23 || |s.value| == 25
  {
    match env.decodeAddress(address)
    case None => None
    case Some(a) => Some(if a.p2sh then P2shScript(a.hash) else P2pkhScript(a.hash))
  }

  /* ---------- the plan ---------- */

  function PlanInscription(env: Env, body: Bytes, to: string, publicKey: Bytes, commitment: Bytes, dust: Option<int>)
    : Option<Plan>
  {
    var dustZat := match dust case None => DUST_THRESHOLD_ZAT case Some(d) => d;
    match (InscriptionRedeemScript(publicKey, commitment), ScriptForAddress(env, to))
    case (Some(redeem), Some(destination)) =>
      if |redeem| > MAX_SCRIPT_ELEMENT_SIZE || dustZat < DUST_THRESHOLD_ZAT then None
      else
        var envelope := EncodeEnvelope(CONTENT_TYPE, body);
        var size := |envelope + (PushData(Zeros(MAX_SIGNATURE_PUSH_BYTES)) + PushData(redeem))|;
        var fee := ConventionalFee([size], [|destination|]);
        Some(Plan(envelope, redeem, P2shScript(env.hash160(redeem)), to, dustZat, fee, dustZat + fee, size))
    case (_, _) => None
  }

  /* ---------- coin selection ---------- */

  function ValueOf(u: Utxo): int { u.valueZat }

  predicate Larger(a: Utxo, b: Utxo) { a.valueZat > b.valueZat }

  function Copies<T>(x: T, n: nat): (s: seq<T>)
    ensures |s| == n && forall i | 0 <= i < n :: s[i] == x
  {
    seq(n, _ => x)
  }

  /** The fee of a commit with k P2PKH inputs, with and without a change output. */
  function FeeWithChange(plan: Plan, changeScript: Bytes, k: nat): int {
    ConventionalFee(Copies(P2PKH_SCRIPTSIG_BYTES, k), [|plan.commitScriptPubKey|, |changeScript|])
  }

  function FeeWithoutChange(plan: Plan, k: nat): int {
    ConventionalFee(Copies(P2PKH_SCRIPTSIG_BYTES, k), [|plan.commitScriptPubKey|])
  }

  datatype Funding = Unfunded | Funded(count: nat, feeZat: int, changeZat: int)

  /** Tries the first k coins, then one more, until they pay. */
  function Fund(coins: seq<Utxo>, plan: Plan, changeScript: Bytes, k: nat): Funding
    decreases |coins| - k
  {
    if k > |coins| then Unfunded
    else
      var left := Sum(ValueOf, coins[..k]) - plan.commitOutputZat;
      var withChange := FeeWithChange(plan, changeScript, k);
      if left - withChange >= DUST_THRESHOLD_ZAT then Funded(k, withChange, left - withChange)
      else if left >= FeeWithoutChange(plan, k) then Funded(k, left, 0)
      else Fund(coins, plan, changeScript, k + 1)
  }

  /* ---------- building ---------- */

  function CoinInput(u: Utxo): TxInput { TxInput(OutPoint(u.txid, u.index), [], SEQUENCE_FINAL) }

  function Inputs(coins: seq<Utxo>): (r: seq<TxInput>)
    ensures |r| == |coins|
  {
    seq(|coins|, i requires 0 <= i < |coins| => CoinInput(coins[i]))
  }

  /** None where a script is not hex. */
  function SpentCoins(coins: seq<Utxo>): (r: Option<seq<SpentOutput>>)
    ensures r.Some? ==> |r.value| == |coins|
  {
    if coins == [] then Some([])
    else match (HexToBytes(coins[0].scriptPubKeyHex), SpentCoins(coins[1..]))
      case (Some(script), Some(rest)) => Some([SpentOutput(coins[0].valueZat, script)] + rest)
      case (_, _) => None
  }

  function TransactionShell(env: Env, tipHeight: int, expiry: Option<int>, inputs: seq<TxInput>,
                            outputs: seq<TxOutput>): Option<TransactionV5>
  {
    var height := match expiry case None => tipHeight + DEFAULT_EXPIRY_DELTA case Some(e) => e;
    if height <= tipHeight then None
    else match env.branchAt(height)
      case None => None
      case Some(branch) =>
        Some(TransactionV5(TX_VERSION_V5, VERSION_GROUP_ID_V5, branch, 0, height, inputs, outputs, None, None))
  }

  /** One digest an input, in order, for the first n inputs. */
  function Sighashes(h: Hash, tx: TransactionV5, spent: seq<SpentOutput>, n: nat): (r: Option<seq<Digest>>)
    ensures r.Some? ==> |r.value| == n
  {
    if n == 0 then Some([])
    else match (Sighashes(h, tx, spent, n - 1), SignatureDigest(h, tx, spent, n - 1, SIGHASH_ALL))
      case (Some(front), Some(d)) => Some(front + [d])
      case (_, _) => None
  }

  function Prepare(env: Env, tx: TransactionV5, spent: seq<SpentOutput>, feeZat: int): Outcome<Unsigned> {
    match (Sighashes(env.hash, tx, spent, |tx.inputs|), TxidDigest(env.hash, tx))
    case (Some(hashes), Some(id)) => Built(Unsigned(tx, spent, hashes, InternalToTxid(id), feeZat))
    case (_, _) => Refused
  }

  function CommitOutputs(plan: Plan, changeScript: Bytes, changeZat: int): seq<TxOutput> {
    [TxOutput(plan.commitOutputZat, plan.commitScriptPubKey)]
    + if changeZat > 0 then [TxOutput(changeZat, changeScript)] else []
  }

  function Candidates(utxos: seq<Utxo>): seq<Utxo> { Sort(Larger, utxos) }

  function BuildCommit(env: Env, plan: Plan, utxos: seq<Utxo>, changeAddress: string, tipHeight: int,
                       expiry: Option<int>): Outcome<Unsigned>
  {
    match ScriptForAddress(env, changeAddress)
    case None => Refused
    case Some(changeScript) =>
      match Fund(Candidates(utxos), plan, changeScript, 1)
      case Unfunded => InsufficientFunds
      case Funded(k, feeZat, changeZat) => FinishCommit(env, plan, changeScript, Candidates(utxos), k, feeZat,
                                                        changeZat, tipHeight, expiry)
  }

  function FinishCommit(env: Env, plan: Plan, changeScript: Bytes, coins: seq<Utxo>, k: nat, feeZat: int,
                        changeZat: int, tipHeight: int, expiry: Option<int>): Outcome<Unsigned>
  {
    if k > |coins| then Refused
    else
      var shell := TransactionShell(env, tipHeight, expiry, Inputs(coins[..k]),
                                    CommitOutputs(plan, changeScript, changeZat));
      match (shell, SpentCoins(coins[..k]))
      case (Some(tx), Some(spent)) => Prepare(env, tx, spent, feeZat)
      case (_, _) => Refused
  }

  function BuildReveal(env: Env, plan: Plan, commitTxid: string, commitIndex: int, tipHeight: int,
                       expiry: Option<int>): Outcome<Unsigned>
  {
    match ScriptForAddress(env, plan.destination)
    case None => Refused
    case Some(script) =>
      var inputs := [TxInput(OutPoint(commitTxid, commitIndex), [], SEQUENCE_FINAL)];
      match TransactionShell(env, tipHeight, expiry, inputs, [TxOutput(plan.dustZat, script)])
      case None => Refused
      case Some(tx) => Prepare(env, tx, [SpentOutput(plan.commitOutputZat, plan.commitScriptPubKey)],
                               plan.commitOutputZat - plan.dustZat)
  }

  datatype Cost = Cost(commitFeeZat: int, revealFeeZat: int, dustZat: int, totalZat: int)
  datatype Stamp = Stamp(commit: Unsigned, revealTx: Unsigned, cost: Cost)

  function BuildStamp(env: Env, plan: Plan, utxos: seq<Utxo>, changeAddress: string, tipHeight: int,
                      expiry: Option<int>): Outcome<Stamp>
  {
    match BuildCommit(env, plan, utxos, changeAddress, tipHeight, expiry)
    case InsufficientFunds => InsufficientFunds
    case Refused => Refused
    case Built(commit) =>
      match BuildReveal(env, plan, commit.txid, 0, tipHeight, expiry)
      case Built(revealTx) =>
        Built(Stamp(commit, revealTx, Cost(commit.feeZat, plan.revealFeeZat, plan.dustZat,
                                         commit.feeZat + plan.revealFeeZat + plan.dustZat)))
      case _ => Refused
  }

  /* ---------- finalizing ---------- */

  /** None when the scriptSig outgrows the size its fee was worked out for. */
  function FinalizeReveal(unsigned: Unsigned, plan: Plan, signatureDer: Bytes): Option<TransactionV5> {
    match InscriptionScriptSig(plan.envelope, signatureDer + [SIGHASH_ALL], plan.redeemScript)
    case None => None
    case Some(scriptSig) =>
      if |scriptSig| > plan.revealScriptSigBytes then None
      else Some(unsigned.tx.(inputs := FirstSigned(unsigned.tx.inputs, scriptSig)))
  }

  function FirstSigned(inputs: seq<TxInput>, scriptSig: Bytes): (r: seq<TxInput>)
    ensures |r| == |inputs|
  {
    if inputs == [] then [] else [inputs[0].(scriptSig := scriptSig)] + inputs[1..]
  }

  datatype KeySignature = KeySignature(signatureDer: Bytes, publicKey: Bytes)

  /** Where pushing a signature and key does not throw. */
  predicate Attachable(s: KeySignature) {
    Pushable(s.signatureDer + [SIGHASH_ALL]) && (|s.publicKey| == 33 || |s.publicKey| == 65)
  }

  function P2pkhScriptSig(s: KeySignature): Bytes
    requires Attachable(s)
  {
    PushData(s.signatureDer + [SIGHASH_ALL]) + PushData(s.publicKey)
  }

  function FinalizeP2pkhInputs(unsigned: Unsigned, signatures: seq<KeySignature>): Option<TransactionV5> {
    var inputs := unsigned.tx.inputs;
    if |signatures| != |inputs| || !(forall i | 0 <= i < |signatures| :: Attachable(signatures[i])) then None
    else Some(unsigned.tx.(inputs := AllSigned(inputs, signatures)))
  }

  function AllSigned(inputs: seq<TxInput>, signatures: seq<KeySignature>): (r: seq<TxInput>)
    requires |inputs| == |signatures| && forall i | 0 <= i < |signatures| :: Attachable(signatures[i])
    ensures |r| == |inputs|
    ensures forall i | 0 <= i < |r| :: r[i] == inputs[i].(scriptSig := P2pkhScriptSig(signatures[i]))
  {
    if inputs == [] then []
    else [inputs[0].(scriptSig := P2pkhScriptSig(signatures[0]))] + AllSigned(inputs[1..], signatures[1..])
  }

  /* ---------- the selection loop ---------- */

  lemma SumNext(coins: seq<Utxo>, k: nat)
    requires k < |coins|
    ensures Sum(ValueOf, coins[..k + 1]) == Sum(ValueOf, coins[..k]) + coins[k].valueZat
  {
    assert coins[..k + 1][..k] == coins[..k];
  }

  /** Adds coins largest first, working out the fee again on every pass. */
  method SelectCoins(plan: Plan, candidates: seq<Utxo>, changeScript: Bytes) returns (r: Funding)
    ensures r == Fund(candidates, plan, changeScript, 1)
  {
    var chosen: seq<Utxo> := [];
    var total := 0;
    while |chosen| < |candidates|
      invariant |chosen| <= |candidates| && chosen == candidates[..|chosen|] && total == Sum(ValueOf, chosen)
      invariant Fund(candidates, plan, changeScript, 1) == Fund(candidates, plan, changeScript, |chosen| + 1)
    {
      var candidate := candidates[|chosen|];
      SumNext(candidates, |chosen|);
      chosen := chosen + [candidate];
      total := total + candidate.valueZat;
      var sizes := Copies(P2PKH_SCRIPTSIG_BYTES, |chosen|);
      var withChange := ConventionalFee(sizes, [|plan.commitScriptPubKey|, |changeScript|]);
      var remainder := total - plan.commitOutputZat - withChange;
      if remainder >= DUST_THRESHOLD_ZAT { return Funded(|chosen|, withChange, remainder); }
      var withoutChange := ConventionalFee(sizes, [|plan.commitScriptPubKey|]);
      if total - plan.commitOutputZat >= withoutChange {
        return Funded(|chosen|, total - plan.commitOutputZat, 0);
      }
    }
    r := Unfunded;
  }

  method SelectAndBuild(env: Env, plan: Plan, utxos: seq<Utxo>, changeAddress: string, tipHeight: int,
                        expiry: Option<int>) returns (r: Outcome<Unsigned>)
    ensures r == BuildCommit(env, plan, utxos, changeAddress, tipHeight, expiry)
  {
    var changeScript := ScriptForAddress(env, changeAddress);
    if changeScript.None? { return Refused; }
    var candidates := Candidates(utxos);
    var funding := SelectCoins(plan, candidates, changeScript.value);
    if funding.Unfunded? { return InsufficientFunds; }
    r := FinishCommit(env, plan, changeScript.value, candidates, funding.count, funding.feeZat, funding.changeZat,
                      tipHeight, expiry);
  }
}
