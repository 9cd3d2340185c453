/** The v5 transaction id and signature digests of ZIP 244, over any 32-byte personalized hash. */
module Zip244 {
  import opened Bytes
  import opened Transaction
  import opened DigestTree

  const SIGHASH_ALL := 0x01
  const SIGHASH_NONE := 0x02
  const SIGHASH_SINGLE := 0x03

  /** What the coin being spent looked like on chain. */
  datatype SpentOutput = SpentOutput(value: int, scriptPubKey: Bytes)

  function Ascii(s: string): Bytes {
    seq(|s|, i requires 0 <= i < |s| => s[i] as int % 256)
  }

  function RootPersonal(branch: int): Bytes { Ascii("ZcashTxHash_") + U32le(branch) }

  function Prevouts(inputs: seq<TxInput>): seq<OutPoint> {
    seq(|inputs|, i requires 0 <= i < |inputs| => inputs[i].prevout)
  }

  function Sequences(inputs: seq<TxInput>): seq<int> {
    seq(|inputs|, i requires 0 <= i < |inputs| => inputs[i].sequence)
  }

  /* ---------- what each hash covers ---------- */

  /** `subarray(lo, hi)`, which stops at the end of the buffer. */
  function Slice(b: Bytes, lo: nat, hi: nat): Bytes
    requires lo <= hi
  {
    b[if lo < |b| then lo else |b|..if hi < |b| then hi else |b|]
  }

  function Nullifier(s: SaplingSpend): Bytes { s.nullifier }

  /** The bundle's shared anchor sits between each spend's own fields. */
  function SpendNonCompact(anchor: Bytes): SaplingSpend -> Bytes { (s: SaplingSpend) => s.cv + (anchor + s.rk) }

  function OutputCompact(o: SaplingOutput): Bytes { o.cmu + (o.ephemeralKey + Slice(o.encCiphertext, 0, 52)) }
  function OutputMemo(o: SaplingOutput): Bytes { Slice(o.encCiphertext, 52, 564) }
  function OutputNonCompact(o: SaplingOutput): Bytes {
    o.cv + (Slice(o.encCiphertext, 564, 564 + |o.encCiphertext|) + o.outCiphertext)
  }

  function ActionCompact(a: OrchardAction): Bytes {
    a.nullifier + (a.cmx + (a.ephemeralKey + Slice(a.encCiphertext, 0, 52)))
  }
  function ActionMemo(a: OrchardAction): Bytes { Slice(a.encCiphertext, 52, 564) }
  function ActionNonCompact(a: OrchardAction): Bytes {
    a.cv + (a.rk + (Slice(a.encCiphertext, 564, 564 + |a.encCiphertext|) + a.outCiphertext))
  }

  function SharedAnchor(b: SaplingBundle): Bytes { match b.anchor case Some(a) => a case None => [] }

  function OrchardTail(b: OrchardBundle): Bytes { U8(b.flags) + (I64le(b.valueBalance) + b.anchor) }

  function SpentValue(s: SpentOutput): Bytes { I64le(s.value) }
  function SpentScript(s: SpentOutput): Bytes { VarBytes(s.scriptPubKey) }

  function SignedInput(i: TxInput, spent: SpentOutput): Bytes {
    EncodeOutPoint(i.prevout) + (I64le(spent.value) + (VarBytes(spent.scriptPubKey) + U32le(i.sequence)))
  }

  /* ---------- the digests ---------- */

  function HeaderDigest(h: Hash, tx: TransactionV5): Digest { h(Ascii("ZTxIdHeadersHash"), EncodeHeader(tx)) }

  function PrevoutsDigest(h: Hash, prevouts: seq<OutPoint>): Digest {
    h(Ascii("ZTxIdPrevoutHash"), EncodeAll(EncodeOutPoint, prevouts))
  }

  function SequenceDigest(h: Hash, sequences: seq<int>): Digest {
    h(Ascii("ZTxIdSequencHash"), EncodeAll(U32le, sequences))
  }

  function OutputsDigest(h: Hash, outputs: seq<TxOutput>): Digest {
    h(Ascii("ZTxIdOutputsHash"), EncodeAll(EncodeOutput, outputs))
  }

  function TransparentDigest(h: Hash, tx: TransactionV5): Digest {
    if tx.inputs == [] && tx.outputs == [] then h(Ascii("ZTxIdTranspaHash"), [])
    else h(Ascii("ZTxIdTranspaHash"),
           PrevoutsDigest(h, Prevouts(tx.inputs))
           + SequenceDigest(h, Sequences(tx.inputs))
           + OutputsDigest(h, tx.outputs))
  }

  function SaplingSpendsDigest(h: Hash, b: SaplingBundle): Digest {
    if b.spends == [] then h(Ascii("ZTxIdSSpendsHash"), [])
    else h(Ascii("ZTxIdSSpendsHash"),
           h(Ascii("ZTxIdSSpendCHash"), EncodeAll(Nullifier, b.spends))
           + h(Ascii("ZTxIdSSpendNHash"), EncodeAll(SpendNonCompact(SharedAnchor(b)), b.spends)))
  }

  function SaplingOutputsDigest(h: Hash, b: SaplingBundle): Digest {
    if b.outputs == [] then h(Ascii("ZTxIdSOutputHash"), [])
    else h(Ascii("ZTxIdSOutputHash"),
           h(Ascii("ZTxIdSOutC__Hash"), EncodeAll(OutputCompact, b.outputs))
           + h(Ascii("ZTxIdSOutM__Hash"), EncodeAll(OutputMemo, b.outputs))
           + h(Ascii("ZTxIdSOutN__Hash"), EncodeAll(OutputNonCompact, b.outputs)))
  }

  function SaplingDigest(h: Hash, s: Option<SaplingBundle>): Digest {
    if SaplingEmpty(s) then h(Ascii("ZTxIdSaplingHash"), [])
    else h(Ascii("ZTxIdSaplingHash"),
           SaplingSpendsDigest(h, s.value) + SaplingOutputsDigest(h, s.value) + I64le(s.value.valueBalance))
  }

  function OrchardDigest(h: Hash, o: Option<OrchardBundle>): Digest {
    if OrchardEmpty(o) then h(Ascii("ZTxIdOrchardHash"), [])
    else h(Ascii("ZTxIdOrchardHash"),
           h(Ascii("ZTxIdOrcActCHash"), EncodeAll(ActionCompact, o.value.actions))
           + h(Ascii("ZTxIdOrcActMHash"), EncodeAll(ActionMemo, o.value.actions))
           + h(Ascii("ZTxIdOrcActNHash"), EncodeAll(ActionNonCompact, o.value.actions))
           + OrchardTail(o.value))
  }

  /** The root shared by the id and signature trees. */
  function CombineDigest(h: Hash, tx: TransactionV5, transparent: Digest): Digest {
    h(RootPersonal(tx.consensusBranchId),
      HeaderDigest(h, tx) + transparent + SaplingDigest(h, tx.sapling) + OrchardDigest(h, tx.orchard))
  }

  /** Where the shielded digests do not throw. */
  predicate ShieldedDefined(tx: TransactionV5) {
    !SaplingEmpty(tx.sapling) && tx.sapling.value.spends != [] ==> tx.sapling.value.anchor.Some?
  }

  predicate PrevoutsReadable(tx: TransactionV5) {
    forall i | 0 <= i < |tx.inputs| :: TxidReadable(tx.inputs[i].prevout.txid)
  }

  /** The transaction id in internal byte order; None where the source throws. */
  function TxidDigest(h: Hash, tx: TransactionV5): Option<Digest> {
    if !PrevoutsReadable(tx) || !ShieldedDefined(tx) then None
    else Some(CombineDigest(h, tx, TransparentDigest(h, tx)))
  }

  function Base(hashType: int): int { hashType % 32 }

  predicate AnyoneCanPay(hashType: int) { hashType / 128 % 2 == 1 }

  function OutputsSigDigest(h: Hash, tx: TransactionV5, base: int, index: nat): Digest {
    if base == SIGHASH_ALL then OutputsDigest(h, tx.outputs)
    else if base == SIGHASH_SINGLE && index < |tx.outputs| then
      h(Ascii("ZTxIdOutputsHash"), EncodeOutput(tx.outputs[index]))
    else h(Ascii("ZTxIdOutputsHash"), [])
  }

  function TransparentSignatureDigest(h: Hash, tx: TransactionV5, spent: seq<SpentOutput>, index: int, hashType: int)
    : Option<Digest>
  {
    if |spent| != |tx.inputs| || !(0 <= index < |tx.inputs|) then None
    else if Base(hashType) !in {SIGHASH_ALL, SIGHASH_NONE, SIGHASH_SINGLE} then None
    else if !AnyoneCanPay(hashType) && !PrevoutsReadable(tx) then None
    else if !TxidReadable(tx.inputs[index].prevout.txid) then None
    else
      var any := AnyoneCanPay(hashType);
      Some(h(Ascii("ZTxIdTranspaHash"),
             U8(hashType)
             + (if any then h(Ascii("ZTxIdPrevoutHash"), []) else PrevoutsDigest(h, Prevouts(tx.inputs)))
             + h(Ascii("ZTxTrAmountsHash"), if any then [] else EncodeAll(SpentValue, spent))
             + h(Ascii("ZTxTrScriptsHash"), if any then [] else EncodeAll(SpentScript, spent))
             + (if any then h(Ascii("ZTxIdSequencHash"), []) else SequenceDigest(h, Sequences(tx.inputs)))
             + OutputsSigDigest(h, tx, Base(hashType), index)
             + h(Ascii("Zcash___TxInHash"), SignedInput(tx.inputs[index], spent[index]))))
  }

  /** What an input's signature is made over; refuses every type that does not commit to all outputs. */
  function SignatureDigest(h: Hash, tx: TransactionV5, spent: seq<SpentOutput>, index: int, hashType: int)
    : Option<Digest>
  {
    if Base(hashType) != SIGHASH_ALL || !ShieldedDefined(tx) then None
    else match TransparentSignatureDigest(h, tx, spent, index, hashType)
      case None => None
      case Some(d) => Some(CombineDigest(h, tx, d))
  }

  /* ---------- the same digests as hash trees ---------- */

  function HeaderTree(tx: TransactionV5): Tree { Leaf(Ascii("ZTxIdHeadersHash"), EncodeHeader(tx)) }
  function PrevoutsTree(data: Bytes): Tree { Leaf(Ascii("ZTxIdPrevoutHash"), data) }
  function SequenceTree(data: Bytes): Tree { Leaf(Ascii("ZTxIdSequencHash"), data) }
  function OutputsTree(outputs: seq<TxOutput>): Tree {
    Leaf(Ascii("ZTxIdOutputsHash"), EncodeAll(EncodeOutput, outputs))
  }

  function TransparentTree(tx: TransactionV5): Tree {
    if tx.inputs == [] && tx.outputs == [] then Leaf(Ascii("ZTxIdTranspaHash"), [])
    else Node(Ascii("ZTxIdTranspaHash"), [],
              More(PrevoutsTree(EncodeAll(EncodeOutPoint, Prevouts(tx.inputs))),
                   More(SequenceTree(EncodeAll(U32le, Sequences(tx.inputs))),
                        More(OutputsTree(tx.outputs), Empty))), [])
  }

  function SpendsTree(b: SaplingBundle): Tree {
    if b.spends == [] then Leaf(Ascii("ZTxIdSSpendsHash"), [])
    else Node(Ascii("ZTxIdSSpendsHash"), [],
              More(Leaf(Ascii("ZTxIdSSpendCHash"), EncodeAll(Nullifier, b.spends)),
                   More(Leaf(Ascii("ZTxIdSSpendNHash"), EncodeAll(SpendNonCompact(SharedAnchor(b)), b.spends)),
                        Empty)), [])
  }

  function ShieldedOutputsTree(b: SaplingBundle): Tree {
    if b.outputs == [] then Leaf(Ascii("ZTxIdSOutputHash"), [])
    else Node(Ascii("ZTxIdSOutputHash"), [],
              More(Leaf(Ascii("ZTxIdSOutC__Hash"), EncodeAll(OutputCompact, b.outputs)),
                   More(Leaf(Ascii("ZTxIdSOutM__Hash"), EncodeAll(OutputMemo, b.outputs)),
                        More(Leaf(Ascii("ZTxIdSOutN__Hash"), EncodeAll(OutputNonCompact, b.outputs)), Empty))), [])
  }

  function SaplingTree(s: Option<SaplingBundle>): Tree {
    if SaplingEmpty(s) then Leaf(Ascii("ZTxIdSaplingHash"), [])
    else Node(Ascii("ZTxIdSaplingHash"), [],
              More(SpendsTree(s.value), More(ShieldedOutputsTree(s.value), Empty)), I64le(s.value.valueBalance))
  }

  function OrchardTree(o: Option<OrchardBundle>): Tree {
    if OrchardEmpty(o) then Leaf(Ascii("ZTxIdOrchardHash"), [])
    else Node(Ascii("ZTxIdOrchardHash"), [],
              More(Leaf(Ascii("ZTxIdOrcActCHash"), EncodeAll(ActionCompact, o.value.actions)),
                   More(Leaf(Ascii("ZTxIdOrcActMHash"), EncodeAll(ActionMemo, o.value.actions)),
                        More(Leaf(Ascii("ZTxIdOrcActNHash"), EncodeAll(ActionNonCompact, o.value.actions)), Empty))),
              OrchardTail(o.value))
  }

  function RootTree(tx: TransactionV5, transparent: Tree): Tree {
    Node(RootPersonal(tx.consensusBranchId), [],
         More(HeaderTree(tx), More(transparent, More(SaplingTree(tx.sapling), More(OrchardTree(tx.orchard), Empty)))),
         [])
  }

  function TxidTree(tx: TransactionV5): Tree { RootTree(tx, TransparentTree(tx)) }

  /** The outputs a hash type commits to: all, the one at the input's own index if there is one, or none. */
  function SignedOutputs(tx: TransactionV5, hashType: int, index: nat): seq<TxOutput> {
    if hashType % 32 == 1 then tx.outputs
    else if hashType % 32 == 3 && index < |tx.outputs| then [tx.outputs[index]]
    else []
  }

  function SigningTree(tx: TransactionV5, spent: seq<SpentOutput>, index: nat, hashType: int): Tree
    requires |spent| == |tx.inputs| && index < |tx.inputs|
  {
    var any := AnyoneCanPay(hashType);
    Node(Ascii("ZTxIdTranspaHash"), U8(hashType),
         More(PrevoutsTree(if any then [] else EncodeAll(EncodeOutPoint, Prevouts(tx.inputs))),
         More(Leaf(Ascii("ZTxTrAmountsHash"), if any then [] else EncodeAll(SpentValue, spent)),
         More(Leaf(Ascii("ZTxTrScriptsHash"), if any then [] else EncodeAll(SpentScript, spent)),
         More(SequenceTree(if any then [] else EncodeAll(U32le, Sequences(tx.inputs))),
         More(OutputsTree(SignedOutputs(tx, hashType, index)),
         More(Leaf(Ascii("Zcash___TxInHash"), SignedInput(tx.inputs[index], spent[index])), Empty)))))), [])
  }

  function SighashTree(tx: TransactionV5, spent: seq<SpentOutput>, index: nat, hashType: int): Tree
    requires |spent| == |tx.inputs| && index < |tx.inputs|
  {
    RootTree(tx, SigningTree(tx, spent, index, hashType))
  }

  lemma SpendsAreTree(h: Hash, b: SaplingBundle)
    ensures SaplingSpendsDigest(h, b) == DigestOf(h, SpendsTree(b))
  {
    var t := SpendsTree(b);
    if t.Node? {
      Digests2(h, t.children.first, t.children.rest.first);
      assert Input(h, t) == Digests(h, t.children);
    }
  }

  lemma ShieldedOutputsAreTree(h: Hash, b: SaplingBundle)
    ensures SaplingOutputsDigest(h, b) == DigestOf(h, ShieldedOutputsTree(b))
  {
    var t := ShieldedOutputsTree(b);
    if t.Node? {
      Digests3(h, t.children.first, t.children.rest.first, t.children.rest.rest.first);
      assert Input(h, t) == Digests(h, t.children);
    }
  }

  lemma SaplingIsTree(h: Hash, s: Option<SaplingBundle>)
    ensures SaplingDigest(h, s) == DigestOf(h, SaplingTree(s))
  {
    if !SaplingEmpty(s) {
      var b := s.value;
      SpendsAreTree(h, b);
      ShieldedOutputsAreTree(h, b);
      Digests2(h, SpendsTree(b), ShieldedOutputsTree(b));
      assert Input(h, SaplingTree(s))
          == DigestOf(h, SpendsTree(b)) + DigestOf(h, ShieldedOutputsTree(b)) + I64le(b.valueBalance);
    }
  }

  lemma OrchardIsTree(h: Hash, o: Option<OrchardBundle>)
    ensures OrchardDigest(h, o) == DigestOf(h, OrchardTree(o))
  {
    if !OrchardEmpty(o) {
      var t := OrchardTree(o);
      Digests3(h, t.children.first, t.children.rest.first, t.children.rest.rest.first);
      assert Input(h, t) == Digests(h, t.children) + OrchardTail(o.value);
    }
  }

  lemma RootIsTree(h: Hash, tx: TransactionV5, transparent: Tree)
    ensures CombineDigest(h, tx, DigestOf(h, transparent)) == DigestOf(h, RootTree(tx, transparent))
  {
    SaplingIsTree(h, tx.sapling);
    OrchardIsTree(h, tx.orchard);
    var t := RootTree(tx, transparent);
    Digests4(h, HeaderTree(tx), transparent, SaplingTree(tx.sapling), OrchardTree(tx.orchard));
    assert Input(h, t) == Digests(h, t.children);
  }

  lemma TransparentIsTree(h: Hash, tx: TransactionV5)
    ensures TransparentDigest(h, tx) == DigestOf(h, TransparentTree(tx))
  {
    var t := TransparentTree(tx);
    if t.Node? {
      Digests3(h, t.children.first, t.children.rest.first, t.children.rest.rest.first);
      assert Input(h, t) == Digests(h, t.children);
    }
  }

  /** The id is the root of its tree. */
  lemma TxidIsTree(h: Hash, tx: TransactionV5)
    requires TxidDigest(h, tx).Some?
    ensures TxidDigest(h, tx) == Some(DigestOf(h, TxidTree(tx)))
  {
    TransparentIsTree(h, tx);
    RootIsTree(h, tx, TransparentTree(tx));
  }

  lemma Joined(u: Bytes, a: Bytes, b: Bytes, c: Bytes, d: Bytes, e: Bytes, f: Bytes)
    ensures u + (a + b + (c + d + e + f)) == u + a + b + c + d + e + f
  {
  }

  lemma OutputsSignedTree(h: Hash, tx: TransactionV5, hashType: int, index: nat)
    ensures OutputsSigDigest(h, tx, Base(hashType), index)
            == DigestOf(h, OutputsTree(SignedOutputs(tx, hashType, index)))
  {
    if hashType % 32 == 3 && index < |tx.outputs| {
      var one := [tx.outputs[index]];
      assert one[1..] == [] && EncodeAll(EncodeOutput, one[1..]) == [];
      assert EncodeAll(EncodeOutput, one) == EncodeOutput(tx.outputs[index]);
    }
  }

  /** For every hash type the signature digest of the transparent part is the root of its tree. */
  lemma SigningIsTree(h: Hash, tx: TransactionV5, spent: seq<SpentOutput>, index: int, hashType: int)
    requires TransparentSignatureDigest(h, tx, spent, index, hashType).Some?
    ensures TransparentSignatureDigest(h, tx, spent, index, hashType)
            == Some(DigestOf(h, SigningTree(tx, spent, index, hashType)))
  {
    OutputsSignedTree(h, tx, hashType, index);
    var t := SigningTree(tx, spent, index, hashType);
    var f := t.children;
    var g := f.rest.rest;
    Digests4(h, g.first, g.rest.first, g.rest.rest.first, g.rest.rest.rest.first);
    assert Digests(h, f.rest) == DigestOf(h, f.rest.first) + Digests(h, g);
    assert Digests(h, f) == DigestOf(h, f.first) + DigestOf(h, f.rest.first) + Digests(h, g);
    assert Input(h, t) == U8(hashType) + Digests(h, f);
    Joined(U8(hashType), DigestOf(h, f.first), DigestOf(h, f.rest.first), DigestOf(h, g.first),
           DigestOf(h, g.rest.first), DigestOf(h, g.rest.rest.first), DigestOf(h, g.rest.rest.rest.first));
  }

  /** So is the digest an input's signature is made over. */
  lemma SighashIsTree(h: Hash, tx: TransactionV5, spent: seq<SpentOutput>, index: int, hashType: int)
    requires SignatureDigest(h, tx, spent, index, hashType).Some?
    ensures SignatureDigest(h, tx, spent, index, hashType) == Some(DigestOf(h, SighashTree(tx, spent, index, hashType)))
  {
    SigningIsTree(h, tx, spent, index, hashType);
    RootIsTree(h, tx, SigningTree(tx, spent, index, hashType));
  }
}
