/** What the ZIP 244 digests commit to: equal digests, equal effects, and nothing else matters. */
module Zip244Binding {
  import opened Bytes
  import opened Transaction
  import opened TransactionCodec
  import opened DigestTree
  import opened Zip244

  /* ---------- the committed content ---------- */

  datatype SaplingEffects = SaplingEffects(
    spends: seq<SaplingSpend>, outputs: seq<SaplingOutput>, valueBalance: int, anchor: Option<Bytes>)

  datatype OrchardEffects = OrchardEffects(actions: seq<OrchardAction>, flags: int, valueBalance: int, anchor: Bytes)

  datatype Shared = Shared(
    branch: int, lockTime: int, expiryHeight: int, outputs: seq<TxOutput>,
    sapling: Option<SaplingEffects>, orchard: Option<OrchardEffects>)

  /** Everything a transaction does; proofs, signatures and scriptSigs are not part of it. */
  datatype Effects = Effects(shared: Shared, prevouts: seq<OutPoint>, sequences: seq<int>)

  function SaplingEffectsOf(s: Option<SaplingBundle>): Option<SaplingEffects> {
    if SaplingEmpty(s) then None
    else
      var b := s.value;
      Some(SaplingEffects(b.spends, b.outputs, b.valueBalance, if b.spends == [] then None else b.anchor))
  }

  function OrchardEffectsOf(o: Option<OrchardBundle>): Option<OrchardEffects> {
    if OrchardEmpty(o) then None
    else Some(OrchardEffects(o.value.actions, o.value.flags, o.value.valueBalance, o.value.anchor))
  }

  function SharedOf(tx: TransactionV5): Shared {
    Shared(tx.consensusBranchId, tx.lockTime, tx.expiryHeight, tx.outputs,
           SaplingEffectsOf(tx.sapling), OrchardEffectsOf(tx.orchard))
  }

  function EffectsOf(tx: TransactionV5): Effects {
    Effects(SharedOf(tx), Prevouts(tx.inputs), Sequences(tx.inputs))
  }

  datatype Coin = Coin(prevout: OutPoint, sequence: int, spent: SpentOutput)

  /** What one signature approves: all outputs, its own coin, and every coin unless anyone may pay. */
  datatype Approval = Approval(
    shared: Shared, hashType: int, coin: Coin, coins: Option<(seq<OutPoint>, seq<int>, seq<SpentOutput>)>)

  function ApprovalOf(tx: TransactionV5, spent: seq<SpentOutput>, index: nat, hashType: int): Approval
    requires |spent| == |tx.inputs| && index < |tx.inputs|
  {
    Approval(SharedOf(tx), hashType % 256,
             Coin(tx.inputs[index].prevout, tx.inputs[index].sequence, spent[index]),
             if AnyoneCanPay(hashType) then None
             else Some((Prevouts(tx.inputs), Sequences(tx.inputs), spent)))
  }

  /* ---------- encodings of lists are unambiguous ---------- */

  lemma {:induction false} EncodeAllLength<T>(encode: T -> Bytes, size: nat, xs: seq<T>)
    requires forall i | 0 <= i < |xs| :: |encode(xs[i])| == size
    ensures |EncodeAll(encode, xs)| == size * |xs|
  {
    if xs != [] {
      EncodeAllLength(encode, size, xs[1..]);
      assert size * |xs| == size + size * (|xs| - 1);
    }
  }

  /** Items of one size: the list of encodings can be read off the concatenation. */
  lemma {:induction false} FixedInjective<T>(encode: T -> Bytes, other: T -> Bytes, size: nat, xs: seq<T>, ys: seq<T>)
    requires size > 0 && EncodeAll(encode, xs) == EncodeAll(other, ys)
    requires forall i | 0 <= i < |xs| :: |encode(xs[i])| == size
    requires forall i | 0 <= i < |ys| :: |other(ys[i])| == size
    ensures |xs| == |ys| && forall i | 0 <= i < |xs| :: encode(xs[i]) == other(ys[i])
  {
    if xs != [] && ys != [] {
      var a := EncodeAll(encode, xs);
      assert a[..size] == encode(xs[0]) && a[size..] == EncodeAll(encode, xs[1..]);
      assert a[..size] == other(ys[0]) && a[size..] == EncodeAll(other, ys[1..]);
      FixedInjective(encode, other, size, xs[1..], ys[1..]);
      forall i | 0 <= i < |xs| ensures encode(xs[i]) == other(ys[i]) {
        if i > 0 { assert xs[i] == xs[1..][i - 1] && ys[i] == ys[1..][i - 1]; }
      }
    }
  }

  /** Self-delimiting items: a list's encoding determines what a reader recovers from each. */
  lemma {:induction false} PrefixFreeInjective<T(!new), K(!new)>(
      read: Bytes -> Read<K>, encode: T -> Bytes, key: T -> K, xs: seq<T>, ys: seq<T>)
    requires forall i, r: Bytes | 0 <= i < |xs| :: read(encode(xs[i]) + r) == Ok(key(xs[i]), r)
    requires forall i, r: Bytes | 0 <= i < |ys| :: read(encode(ys[i]) + r) == Ok(key(ys[i]), r)
    requires forall i | 0 <= i < |xs| :: encode(xs[i]) != []
    requires forall i | 0 <= i < |ys| :: encode(ys[i]) != []
    requires EncodeAll(encode, xs) == EncodeAll(encode, ys)
    ensures |xs| == |ys| && forall i | 0 <= i < |xs| :: key(xs[i]) == key(ys[i])
  {
    if xs != [] && ys != [] {
      var a := EncodeAll(encode, xs);
      assert a == encode(xs[0]) + EncodeAll(encode, xs[1..]);
      assert a == encode(ys[0]) + EncodeAll(encode, ys[1..]);
      assert read(a) == Ok(key(xs[0]), EncodeAll(encode, xs[1..]));
      assert read(a) == Ok(key(ys[0]), EncodeAll(encode, ys[1..]));
      PrefixFreeInjective(read, encode, key, xs[1..], ys[1..]);
      forall i | 0 <= i < |xs| ensures key(xs[i]) == key(ys[i]) {
        if i > 0 { assert xs[i] == xs[1..][i - 1] && ys[i] == ys[1..][i - 1]; }
      }
    }
  }

  /* ---------- field by field ---------- */

  lemma U32Injective(a: int, b: int)
    requires InU32(a) && InU32(b) && U32le(a) == U32le(b)
    ensures a == b
  {
    U32RoundTrip(a, []);
    U32RoundTrip(b, []);
  }

  lemma I64Injective(a: int, b: int)
    requires InI64(a) && InI64(b) && I64le(a) == I64le(b)
    ensures a == b
  {
    I64RoundTrip(a, []);
    I64RoundTrip(b, []);
  }

  predicate OutPointOk(o: OutPoint) { LowerHex(o.txid) && |o.txid| == 64 && InU32(o.index) }

  lemma OutPointInjective(a: OutPoint, b: OutPoint)
    requires OutPointOk(a) && OutPointOk(b) && EncodeOutPoint(a) == EncodeOutPoint(b)
    ensures a == b
  {
    TxidRoundTrip(a.txid);
    TxidRoundTrip(b.txid);
    var e := EncodeOutPoint(a);
    assert e[..32] == TxidToInternal(a.txid).value && e[32..] == U32le(a.index);
    assert e[..32] == TxidToInternal(b.txid).value && e[32..] == U32le(b.index);
    U32Injective(a.index, b.index);
  }

  lemma PrevoutsInjective(xs: seq<OutPoint>, ys: seq<OutPoint>)
    requires AllOf(OutPointOk, xs) && AllOf(OutPointOk, ys)
    requires EncodeAll(EncodeOutPoint, xs) == EncodeAll(EncodeOutPoint, ys)
    ensures xs == ys
  {
    forall i | 0 <= i < |xs| ensures |EncodeOutPoint(xs[i])| == 36 { TxidRoundTrip(xs[i].txid); }
    forall i | 0 <= i < |ys| ensures |EncodeOutPoint(ys[i])| == 36 { TxidRoundTrip(ys[i].txid); }
    FixedInjective(EncodeOutPoint, EncodeOutPoint, 36, xs, ys);
    forall i | 0 <= i < |xs| ensures xs[i] == ys[i] { OutPointInjective(xs[i], ys[i]); }
  }

  lemma SequencesInjective(xs: seq<int>, ys: seq<int>)
    requires AllOf(InU32, xs) && AllOf(InU32, ys)
    requires EncodeAll(U32le, xs) == EncodeAll(U32le, ys)
    ensures xs == ys
  {
    FixedInjective(U32le, U32le, 4, xs, ys);
    forall i | 0 <= i < |xs| ensures xs[i] == ys[i] { U32Injective(xs[i], ys[i]); }
  }

  lemma OutputsInjective(xs: seq<TxOutput>, ys: seq<TxOutput>)
    requires AllOf(OutputOk, xs) && AllOf(OutputOk, ys)
    requires EncodeAll(EncodeOutput, xs) == EncodeAll(EncodeOutput, ys)
    ensures xs == ys
  {
    forall o: TxOutput, r: Bytes | OutputOk(o) ensures ReadOutput(false)(EncodeOutput(o) + r) == Ok(o, r) {
      OutputRoundTrip(false, o, r);
    }
    PrefixFreeInjective(ReadOutput(false), EncodeOutput, o => o, xs, ys);
  }

  predicate SpentOk(s: SpentOutput) { InI64(s.value) && |s.scriptPubKey| <= MAX_SAFE_INTEGER }

  lemma SpentInjective(xs: seq<SpentOutput>, ys: seq<SpentOutput>)
    requires AllOf(SpentOk, xs) && AllOf(SpentOk, ys)
    requires EncodeAll(SpentValue, xs) == EncodeAll(SpentValue, ys)
    requires EncodeAll(SpentScript, xs) == EncodeAll(SpentScript, ys)
    ensures xs == ys
  {
    FixedInjective(SpentValue, SpentValue, 8, xs, ys);
    forall i | 0 <= i < |xs| ensures xs[i] == ys[i] {
      I64Injective(xs[i].value, ys[i].value);
      ScriptsInjective(xs, ys);
    }
  }

  function ScriptOf(s: SpentOutput): Bytes { s.scriptPubKey }
  function ReadScript(b: Bytes): Read<Bytes> { ReadVarBytes(false, b) }

  lemma ScriptReadsBack(s: SpentOutput, r: Bytes)
    requires SpentOk(s)
    ensures ReadScript(SpentScript(s) + r) == Ok(ScriptOf(s), r) && SpentScript(s) != []
  {
    VarBytesRoundTrip(false, s.scriptPubKey, r);
  }

  lemma ScriptsReadBack(xs: seq<SpentOutput>)
    requires AllOf(SpentOk, xs)
    ensures forall i, r: Bytes | 0 <= i < |xs| :: ReadScript(SpentScript(xs[i]) + r) == Ok(ScriptOf(xs[i]), r)
    ensures forall i | 0 <= i < |xs| :: SpentScript(xs[i]) != []
  {
    forall i, r: Bytes | 0 <= i < |xs| ensures ReadScript(SpentScript(xs[i]) + r) == Ok(ScriptOf(xs[i]), r) {
      ScriptReadsBack(xs[i], r);
    }
    forall i | 0 <= i < |xs| ensures SpentScript(xs[i]) != [] { ScriptReadsBack(xs[i], []); }
  }

  lemma ScriptsInjective(xs: seq<SpentOutput>, ys: seq<SpentOutput>)
    requires AllOf(SpentOk, xs) && AllOf(SpentOk, ys)
    requires EncodeAll(SpentScript, xs) == EncodeAll(SpentScript, ys)
    ensures |xs| == |ys| && forall i | 0 <= i < |xs| :: xs[i].scriptPubKey == ys[i].scriptPubKey
  {
    ScriptsReadBack(xs);
    ScriptsReadBack(ys);
    PrefixFreeInjective(ReadScript, SpentScript, ScriptOf, xs, ys);
    forall i | 0 <= i < |xs| ensures xs[i].scriptPubKey == ys[i].scriptPubKey {
      assert ScriptOf(xs[i]) == ScriptOf(ys[i]);
    }
  }

  lemma HeaderInjective(a: TransactionV5, b: TransactionV5)
    requires TransactionOk(a) && TransactionOk(b) && EncodeHeader(a) == EncodeHeader(b)
    ensures a.consensusBranchId == b.consensusBranchId && a.lockTime == b.lockTime && a.expiryHeight == b.expiryHeight
  {
    HeaderFields(a);
    HeaderFields(b);
    U32Injective(a.consensusBranchId, b.consensusBranchId);
    U32Injective(a.lockTime, b.lockTime);
    U32Injective(a.expiryHeight, b.expiryHeight);
  }

  lemma HeaderFields(a: TransactionV5)
    ensures EncodeHeader(a)[8..12] == U32le(a.consensusBranchId)
    ensures EncodeHeader(a)[12..16] == U32le(a.lockTime)
    ensures EncodeHeader(a)[16..20] == U32le(a.expiryHeight)
  {
  }

  /* ---------- shielded bundles ---------- */

  lemma SpendsInjective(a: SaplingBundle, b: SaplingBundle)
    requires SaplingOk(a) && SaplingOk(b) && SpendsTree(a) == SpendsTree(b)
    ensures a.spends == b.spends && (a.spends != [] ==> a.anchor == b.anchor)
  {
    if SpendsTree(a).Node? {
      var x, y := SharedAnchor(a), SharedAnchor(b);
      FixedInjective(Nullifier, Nullifier, 32, a.spends, b.spends);
      FixedInjective(SpendNonCompact(x), SpendNonCompact(y), 96, a.spends, b.spends);
      forall i | 0 <= i < |a.spends| ensures a.spends[i] == b.spends[i] && x == y {
        var s, t := a.spends[i], b.spends[i];
        var e := SpendNonCompact(x)(s);
        assert e == SpendNonCompact(y)(t) && Nullifier(s) == Nullifier(t);
        assert e[..32] == s.cv && e[32..64] == x && e[64..] == s.rk;
        assert e[..32] == t.cv && e[32..64] == y && e[64..] == t.rk;
      }
      assert a.spends[0] == b.spends[0];
    }
  }

  lemma ShieldedOutputsInjective(a: SaplingBundle, b: SaplingBundle)
    requires SaplingOk(a) && SaplingOk(b) && ShieldedOutputsTree(a) == ShieldedOutputsTree(b)
    ensures a.outputs == b.outputs
  {
    if ShieldedOutputsTree(a).Node? {
      FixedInjective(OutputCompact, OutputCompact, 116, a.outputs, b.outputs);
      FixedInjective(OutputMemo, OutputMemo, 512, a.outputs, b.outputs);
      FixedInjective(OutputNonCompact, OutputNonCompact, 128, a.outputs, b.outputs);
      forall i | 0 <= i < |a.outputs| ensures a.outputs[i] == b.outputs[i] {
        ShieldedOutputInjective(a.outputs[i], b.outputs[i]);
      }
    }
  }

  lemma ShieldedOutputInjective(s: SaplingOutput, t: SaplingOutput)
    requires SaplingOutputOk(s) && SaplingOutputOk(t)
    requires OutputCompact(s) == OutputCompact(t) && OutputMemo(s) == OutputMemo(t)
    requires OutputNonCompact(s) == OutputNonCompact(t)
    ensures s == t
  {
    Pieces(s.encCiphertext);
    Pieces(t.encCiphertext);
    var x, y := Slice(s.encCiphertext, 0, 52), Slice(t.encCiphertext, 0, 52);
    HeadsAgree(s.cmu, s.ephemeralKey + x, t.cmu, t.ephemeralKey + y);
    HeadsAgree(s.ephemeralKey, x, t.ephemeralKey, y);
    var d, e := Tail(s.encCiphertext), Tail(t.encCiphertext);
    HeadsAgree(s.cv, d + s.outCiphertext, t.cv, e + t.outCiphertext);
    HeadsAgree(d, s.outCiphertext, e, t.outCiphertext);
  }

  lemma HeadsAgree(a: Bytes, b: Bytes, c: Bytes, d: Bytes)
    requires a + b == c + d && |a| == |c|
    ensures a == c && b == d
  {
    assert (a + b)[..|a|] == a && (a + b)[|a|..] == b;
    assert (c + d)[..|a|] == c && (c + d)[|a|..] == d;
  }

  function Tail(enc: Bytes): Bytes { Slice(enc, 564, 564 + |enc|) }

  lemma Pieces(enc: Bytes)
    requires |enc| == ENC_CIPHERTEXT_BYTES
    ensures |Slice(enc, 0, 52)| == 52 && |Tail(enc)| == 16
    ensures enc == Slice(enc, 0, 52) + Slice(enc, 52, 564) + Tail(enc)
  {
  }

  lemma ActionsInjective(xs: seq<OrchardAction>, ys: seq<OrchardAction>)
    requires AllOf(ActionOk, xs) && AllOf(ActionOk, ys)
    requires EncodeAll(ActionCompact, xs) == EncodeAll(ActionCompact, ys)
    requires EncodeAll(ActionMemo, xs) == EncodeAll(ActionMemo, ys)
    requires EncodeAll(ActionNonCompact, xs) == EncodeAll(ActionNonCompact, ys)
    ensures xs == ys
  {
    FixedInjective(ActionCompact, ActionCompact, 148, xs, ys);
    FixedInjective(ActionMemo, ActionMemo, 512, xs, ys);
    FixedInjective(ActionNonCompact, ActionNonCompact, 160, xs, ys);
    forall i | 0 <= i < |xs| ensures xs[i] == ys[i] { ActionInjective(xs[i], ys[i]); }
  }

  lemma ActionInjective(s: OrchardAction, t: OrchardAction)
    requires ActionOk(s) && ActionOk(t)
    requires ActionCompact(s) == ActionCompact(t) && ActionMemo(s) == ActionMemo(t)
    requires ActionNonCompact(s) == ActionNonCompact(t)
    ensures s == t
  {
    Pieces(s.encCiphertext);
    Pieces(t.encCiphertext);
    var x, y := Slice(s.encCiphertext, 0, 52), Slice(t.encCiphertext, 0, 52);
    HeadsAgree(s.nullifier, s.cmx + (s.ephemeralKey + x), t.nullifier, t.cmx + (t.ephemeralKey + y));
    HeadsAgree(s.cmx, s.ephemeralKey + x, t.cmx, t.ephemeralKey + y);
    HeadsAgree(s.ephemeralKey, x, t.ephemeralKey, y);
    var d, e := Tail(s.encCiphertext), Tail(t.encCiphertext);
    HeadsAgree(s.cv, s.rk + (d + s.outCiphertext), t.cv, t.rk + (e + t.outCiphertext));
    HeadsAgree(s.rk, d + s.outCiphertext, t.rk, e + t.outCiphertext);
    HeadsAgree(d, s.outCiphertext, e, t.outCiphertext);
  }

  lemma SaplingInjective(a: TransactionV5, b: TransactionV5)
    requires TransactionOk(a) && TransactionOk(b) && SaplingTree(a.sapling) == SaplingTree(b.sapling)
    ensures SaplingEffectsOf(a.sapling) == SaplingEffectsOf(b.sapling)
  {
    if SaplingTree(a.sapling).Node? {
      SpendsInjective(a.sapling.value, b.sapling.value);
      ShieldedOutputsInjective(a.sapling.value, b.sapling.value);
      I64Injective(a.sapling.value.valueBalance, b.sapling.value.valueBalance);
    }
  }

  lemma OrchardTailInjective(x: OrchardBundle, y: OrchardBundle)
    requires OrchardOk(x) && OrchardOk(y) && OrchardTail(x) == OrchardTail(y)
    ensures x.flags == y.flags && x.valueBalance == y.valueBalance && x.anchor == y.anchor
  {
    ThreeParts(U8(x.flags), I64le(x.valueBalance), x.anchor);
    ThreeParts(U8(y.flags), I64le(y.valueBalance), y.anchor);
    U8RoundTrip(x.flags, []);
    U8RoundTrip(y.flags, []);
    I64Injective(x.valueBalance, y.valueBalance);
  }

  lemma OrchardInjective(a: TransactionV5, b: TransactionV5)
    requires TransactionOk(a) && TransactionOk(b) && OrchardTree(a.orchard) == OrchardTree(b.orchard)
    ensures OrchardEffectsOf(a.orchard) == OrchardEffectsOf(b.orchard)
  {
    if OrchardTree(a.orchard).Node? {
      var x, y := a.orchard.value, b.orchard.value;
      ActionsInjective(x.actions, y.actions);
      OrchardTailInjective(x, y);
    }
  }

  /* ---------- trees and effects determine each other ---------- */

  lemma OutputsAgree(a: TransactionV5, b: TransactionV5)
    requires TransactionOk(a) && TransactionOk(b) && OutputsTree(a.outputs) == OutputsTree(b.outputs)
    ensures a.outputs == b.outputs
  {
    OutputsInjective(a.outputs, b.outputs);
  }

  lemma CoinsInjective(a: TransactionV5, b: TransactionV5)
    requires TransactionOk(a) && TransactionOk(b)
    requires EncodeAll(EncodeOutPoint, Prevouts(a.inputs)) == EncodeAll(EncodeOutPoint, Prevouts(b.inputs))
    requires EncodeAll(U32le, Sequences(a.inputs)) == EncodeAll(U32le, Sequences(b.inputs))
    ensures Prevouts(a.inputs) == Prevouts(b.inputs) && Sequences(a.inputs) == Sequences(b.inputs)
  {
    PrevoutsInjective(Prevouts(a.inputs), Prevouts(b.inputs));
    SequencesInjective(Sequences(a.inputs), Sequences(b.inputs));
  }

  /** The shielded and header trees, taken together with the outputs. */
  lemma SharedInjective(a: TransactionV5, b: TransactionV5)
    requires TransactionOk(a) && TransactionOk(b) && a.outputs == b.outputs && HeaderTree(a) == HeaderTree(b)
    requires SaplingTree(a.sapling) == SaplingTree(b.sapling) && OrchardTree(a.orchard) == OrchardTree(b.orchard)
    ensures SharedOf(a) == SharedOf(b)
  {
    HeaderInjective(a, b);
    SaplingInjective(a, b);
    OrchardInjective(a, b);
  }

  lemma SaplingFromEffects(a: Option<SaplingBundle>, b: Option<SaplingBundle>)
    requires SaplingEffectsOf(a) == SaplingEffectsOf(b)
    ensures SaplingTree(a) == SaplingTree(b)
  {
    if !SaplingEmpty(a) {
      assert a.value.spends == b.value.spends && a.value.outputs == b.value.outputs;
      assert SpendsTree(a.value) == SpendsTree(b.value);
      assert ShieldedOutputsTree(a.value) == ShieldedOutputsTree(b.value);
    }
  }

  lemma OrchardFromEffects(a: Option<OrchardBundle>, b: Option<OrchardBundle>)
    requires OrchardEffectsOf(a) == OrchardEffectsOf(b)
    ensures OrchardTree(a) == OrchardTree(b)
  {
  }

  lemma RootFromShared(a: TransactionV5, b: TransactionV5, t: Tree)
    requires TransactionOk(a) && TransactionOk(b) && SharedOf(a) == SharedOf(b)
    ensures RootTree(a, t) == RootTree(b, t)
  {
    SaplingFromEffects(a.sapling, b.sapling);
    OrchardFromEffects(a.orchard, b.orchard);
  }

  lemma NoInputs(a: TransactionV5, b: TransactionV5)
    requires Prevouts(a.inputs) == Prevouts(b.inputs)
    ensures a.inputs == [] <==> b.inputs == []
  {
    assert |a.inputs| == |Prevouts(a.inputs)| && |b.inputs| == |Prevouts(b.inputs)|;
  }

  lemma TxidTreeIff(a: TransactionV5, b: TransactionV5)
    requires TransactionOk(a) && TransactionOk(b)
    ensures TxidTree(a) == TxidTree(b) <==> EffectsOf(a) == EffectsOf(b)
  {
    if TxidTree(a) == TxidTree(b) {
      assert TransparentTree(a) == TransparentTree(b);
      if TransparentTree(a).Node? {
        OutputsAgree(a, b);
        CoinsInjective(a, b);
      }
      assert EffectsOf(a).prevouts == EffectsOf(b).prevouts && EffectsOf(a).sequences == EffectsOf(b).sequences;
      SharedInjective(a, b);
    }
    if EffectsOf(a) == EffectsOf(b) {
      NoInputs(a, b);
      assert TransparentTree(a) == TransparentTree(b);
      RootFromShared(a, b, TransparentTree(a));
    }
  }

  lemma SignedInputInjective(x: TxInput, s: SpentOutput, y: TxInput, t: SpentOutput)
    requires InputOk(x) && InputOk(y) && SpentOk(s) && SpentOk(t) && SignedInput(x, s) == SignedInput(y, t)
    ensures x.prevout == y.prevout && x.sequence == y.sequence && s == t
  {
    TxidRoundTrip(x.prevout.txid);
    TxidRoundTrip(y.prevout.txid);
    var e := SignedInput(x, s);
    SignedInputParts(x, s);
    SignedInputParts(y, t);
    OutPointInjective(x.prevout, y.prevout);
    I64Injective(s.value, t.value);
    VarBytesRoundTrip(false, s.scriptPubKey, U32le(x.sequence));
    VarBytesRoundTrip(false, t.scriptPubKey, U32le(y.sequence));
    U32Injective(x.sequence, y.sequence);
  }

  lemma SignedInputParts(x: TxInput, s: SpentOutput)
    requires TxidReadable(x.prevout.txid)
    ensures var e := SignedInput(x, s);
            |e| >= 44 && e[..36] == EncodeOutPoint(x.prevout) && e[36..44] == I64le(s.value)
            && e[44..] == VarBytes(s.scriptPubKey) + U32le(x.sequence)
  {
    ThreeParts(EncodeOutPoint(x.prevout), I64le(s.value), VarBytes(s.scriptPubKey) + U32le(x.sequence));
  }

  lemma ThreeParts(a: Bytes, b: Bytes, c: Bytes)
    ensures var e := a + (b + c);
            e[..|a|] == a && e[|a|..|a| + |b|] == b && e[|a| + |b|..] == c
  {
  }

  /** An input that exists, with a coin for every input. */
  predicate Signs(tx: TransactionV5, spent: seq<SpentOutput>, index: nat) {
    TransactionOk(tx) && |spent| == |tx.inputs| && index < |tx.inputs| && AllOf(SpentOk, spent)
  }

  lemma SignedOutputsOk(tx: TransactionV5, hashType: int, index: nat)
    requires TransactionOk(tx)
    ensures AllOf(OutputOk, SignedOutputs(tx, hashType, index))
  {
  }

  lemma SigningTreeInjective(a: TransactionV5, s: seq<SpentOutput>, i: nat, p: int,
                             b: TransactionV5, t: seq<SpentOutput>, j: nat, q: int)
    requires Signs(a, s, i) && Signs(b, t, j) && SigningTree(a, s, i, p) == SigningTree(b, t, j, q)
    ensures SignedOutputs(a, p, i) == SignedOutputs(b, q, j) && p % 256 == q % 256
    ensures ApprovalOf(a, s, i, p).coin == ApprovalOf(b, t, j, q).coin
    ensures ApprovalOf(a, s, i, p).coins == ApprovalOf(b, t, j, q).coins
  {
    var x, y := SigningTree(a, s, i, p), SigningTree(b, t, j, q);
    assert x.head == [p % 256] && y.head == [q % 256];
    SameFlag(p, q);
    assert x.children.rest.rest.rest.rest.first == y.children.rest.rest.rest.rest.first;
    SignedOutputsOk(a, p, i);
    SignedOutputsOk(b, q, j);
    OutputsInjective(SignedOutputs(a, p, i), SignedOutputs(b, q, j));
    SignedInputInjective(a.inputs[i], s[i], b.inputs[j], t[j]);
    if !AnyoneCanPay(p) {
      CoinsInjective(a, b);
      SpentInjective(s, t);
    }
  }

  lemma SameFlag(p: int, q: int)
    requires p % 256 == q % 256
    ensures AnyoneCanPay(p) == AnyoneCanPay(q)
  {
    LowByte(p);
    LowByte(q);
  }

  lemma LowByte(p: int)
    ensures AnyoneCanPay(p) <==> p % 256 >= 128
  {
    var k := p / 256;
    assert p == 256 * k + p % 256;
    assert p / 128 == 2 * k + p % 256 / 128;
  }

  lemma SigningFromApproval(a: TransactionV5, s: seq<SpentOutput>, i: nat, p: int,
                            b: TransactionV5, t: seq<SpentOutput>, j: nat, q: int)
    requires Signs(a, s, i) && Signs(b, t, j) && SignedOutputs(a, p, i) == SignedOutputs(b, q, j)
    requires ApprovalOf(a, s, i, p).(shared := SharedOf(b)) == ApprovalOf(b, t, j, q)
    ensures SigningTree(a, s, i, p) == SigningTree(b, t, j, q)
  {
    SameFlag(p, q);
    assert U8(p) == U8(q);
    assert SignedInput(a.inputs[i], s[i]) == SignedInput(b.inputs[j], t[j]);
  }

  lemma SighashTreeIff(a: TransactionV5, s: seq<SpentOutput>, i: nat, p: int,
                       b: TransactionV5, t: seq<SpentOutput>, j: nat, q: int)
    requires Signs(a, s, i) && Signs(b, t, j) && p % 32 == 1 && q % 32 == 1
    ensures SighashTree(a, s, i, p) == SighashTree(b, t, j, q) <==> ApprovalOf(a, s, i, p) == ApprovalOf(b, t, j, q)
  {
    if SighashTree(a, s, i, p) == SighashTree(b, t, j, q) {
      SigningTreeInjective(a, s, i, p, b, t, j, q);
      SharedInjective(a, b);
    }
    if ApprovalOf(a, s, i, p) == ApprovalOf(b, t, j, q) {
      SigningFromApproval(a, s, i, p, b, t, j, q);
      RootFromShared(a, b, SigningTree(a, s, i, p));
    }
  }

  /* ---------- trees are split alike ---------- */

  lemma SpendsCompatible(a: SaplingBundle, b: SaplingBundle)
    ensures Compatible(SpendsTree(a), SpendsTree(b))
  {
    var x, y := SpendsTree(a), SpendsTree(b);
    if x.Node? && y.Node? {
      assert Leaves(x.children.rest) && Leaves(y.children.rest);
      LeavesCompatible(x.children, y.children);
    }
  }

  lemma ShieldedOutputsCompatible(a: SaplingBundle, b: SaplingBundle)
    ensures Compatible(ShieldedOutputsTree(a), ShieldedOutputsTree(b))
  {
    var x, y := ShieldedOutputsTree(a), ShieldedOutputsTree(b);
    if x.Node? && y.Node? {
      ThreeLeaves(x.children);
      ThreeLeaves(y.children);
      LeavesCompatible(x.children, y.children);
    }
  }

  lemma SaplingCompatible(a: Option<SaplingBundle>, b: Option<SaplingBundle>)
    ensures Compatible(SaplingTree(a), SaplingTree(b))
  {
    var x, y := SaplingTree(a), SaplingTree(b);
    if x.Node? && y.Node? {
      SpendsCompatible(a.value, b.value);
      ShieldedOutputsCompatible(a.value, b.value);
      assert CompatibleAll(x.children.rest, y.children.rest);
    }
  }

  lemma OrchardCompatible(a: Option<OrchardBundle>, b: Option<OrchardBundle>)
    ensures Compatible(OrchardTree(a), OrchardTree(b))
  {
    var x, y := OrchardTree(a), OrchardTree(b);
    if x.Node? && y.Node? {
      ThreeLeaves(x.children);
      ThreeLeaves(y.children);
      LeavesCompatible(x.children, y.children);
    }
  }

  lemma TwoCompatible(c: Tree, d: Tree, y: Tree, z: Tree)
    requires Compatible(c, y) && Compatible(d, z)
    ensures var f := More(c, More(d, Empty)); var g := More(y, More(z, Empty));
            CompatibleAll(f, g) && Count(f) == Count(g)
  {
    assert CompatibleAll(More(d, Empty), More(z, Empty));
  }

  lemma TwoMore(a: Tree, b: Tree, f: Forest, w: Tree, x: Tree, g: Forest)
    requires Compatible(a, w) && Compatible(b, x) && CompatibleAll(f, g) && Count(f) == Count(g)
    ensures CompatibleAll(More(a, More(b, f)), More(w, More(x, g)))
    ensures Count(More(a, More(b, f))) == Count(More(w, More(x, g)))
  {
    assert CompatibleAll(More(b, f), More(x, g));
  }

  lemma FourCompatible(a: Tree, b: Tree, c: Tree, d: Tree, w: Tree, x: Tree, y: Tree, z: Tree)
    requires Compatible(a, w) && Compatible(b, x) && Compatible(c, y) && Compatible(d, z)
    ensures var f := More(a, More(b, More(c, More(d, Empty)))); var g := More(w, More(x, More(y, More(z, Empty))));
            CompatibleAll(f, g) && Count(f) == Count(g)
  {
    var f2, g2 := More(c, More(d, Empty)), More(y, More(z, Empty));
    TwoCompatible(c, d, y, z);
    TwoMore(a, b, f2, w, x, g2);
  }

  lemma RootsCompatible(a: TransactionV5, x: Tree, b: TransactionV5, y: Tree)
    requires Compatible(x, y)
    ensures Compatible(RootTree(a, x), RootTree(b, y))
  {
    SaplingCompatible(a.sapling, b.sapling);
    OrchardCompatible(a.orchard, b.orchard);
    FourCompatible(HeaderTree(a), x, SaplingTree(a.sapling), OrchardTree(a.orchard),
                   HeaderTree(b), y, SaplingTree(b.sapling), OrchardTree(b.orchard));
  }

  lemma TransparentCompatible(a: TransactionV5, b: TransactionV5)
    ensures Compatible(TransparentTree(a), TransparentTree(b))
  {
    var x, y := TransparentTree(a), TransparentTree(b);
    if x.Node? && y.Node? {
      ThreeLeaves(x.children);
      ThreeLeaves(y.children);
      LeavesCompatible(x.children, y.children);
    }
  }

  lemma SigningLeaves(a: TransactionV5, s: seq<SpentOutput>, i: nat, p: int)
    requires |s| == |a.inputs| && i < |a.inputs|
    ensures var f := SigningTree(a, s, i, p).children; Leaves(f) && Count(f) == 6
  {
    var f := SigningTree(a, s, i, p).children;
    ThreeLeaves(f.rest.rest.rest);
    assert Leaves(f.rest.rest) && Count(f.rest.rest) == 4;
    assert Leaves(f.rest) && Count(f.rest) == 5;
  }

  lemma SigningCompatible(a: TransactionV5, s: seq<SpentOutput>, i: nat, p: int,
                          b: TransactionV5, t: seq<SpentOutput>, j: nat, q: int)
    requires |s| == |a.inputs| && i < |a.inputs| && |t| == |b.inputs| && j < |b.inputs|
    ensures Compatible(SigningTree(a, s, i, p), SigningTree(b, t, j, q))
  {
    SigningLeaves(a, s, i, p);
    SigningLeaves(b, t, j, q);
    LeavesCompatible(SigningTree(a, s, i, p).children, SigningTree(b, t, j, q).children);
  }

  /** Seven parts against at most three. */
  lemma SigningIsNotTransparent(a: TransactionV5, s: seq<SpentOutput>, i: nat, p: int, b: TransactionV5)
    requires |s| == |a.inputs| && i < |a.inputs|
    ensures Compatible(SigningTree(a, s, i, p), TransparentTree(b))
    ensures SigningTree(a, s, i, p) != TransparentTree(b)
  {
    SigningLeaves(a, s, i, p);
    var y := TransparentTree(b);
    if y.Node? { ThreeLeaves(y.children); }
  }

  /* ---------- the main results ---------- */

  lemma WellFormedDefined(h: Hash, tx: TransactionV5)
    requires TransactionOk(tx)
    ensures PrevoutsReadable(tx) && ShieldedDefined(tx) && TxidDigest(h, tx).Some?
  {
    forall i | 0 <= i < |tx.inputs| ensures TxidReadable(tx.inputs[i].prevout.txid) {
      TxidRoundTrip(tx.inputs[i].prevout.txid);
    }
  }

  lemma TxidDecides(h: Hash, a: TransactionV5, b: TransactionV5)
    requires NoCollision(h, Queries(h, TxidTree(a)) + Queries(h, TxidTree(b)))
    ensures DigestOf(h, TxidTree(a)) == DigestOf(h, TxidTree(b)) <==> TxidTree(a) == TxidTree(b)
  {
    TransparentCompatible(a, b);
    RootsCompatible(a, TransparentTree(a), b, TransparentTree(b));
    RootDecides(h, TxidTree(a), TxidTree(b));
  }

  /** Two transactions share an id exactly when they have the same effects, whatever signs them. */
  lemma TxidBinds(h: Hash, a: TransactionV5, b: TransactionV5)
    requires TransactionOk(a) && TransactionOk(b)
    requires NoCollision(h, Queries(h, TxidTree(a)) + Queries(h, TxidTree(b)))
    ensures TxidDigest(h, a) == TxidDigest(h, b) <==> EffectsOf(a) == EffectsOf(b)
  {
    WellFormedDefined(h, a);
    WellFormedDefined(h, b);
    TxidIsTree(h, a);
    TxidIsTree(h, b);
    TxidTreeIff(a, b);
    TxidDecides(h, a, b);
  }

  /** A digest to sign exists for exactly the types that commit to all outputs, and a digest of the transparent part for
      those that commit to all, to none, or to one. */
  lemma SighashDefined(h: Hash, tx: TransactionV5, spent: seq<SpentOutput>, index: nat, hashType: int)
    requires Signs(tx, spent, index)
    ensures SignatureDigest(h, tx, spent, index, hashType).Some? <==> hashType % 32 == 1
    ensures TransparentSignatureDigest(h, tx, spent, index, hashType).Some? <==> 1 <= hashType % 32 <= 3
  {
    WellFormedDefined(h, tx);
    assert TxidReadable(tx.inputs[index].prevout.txid);
  }

  lemma SighashDecides(h: Hash, a: TransactionV5, s: seq<SpentOutput>, i: nat, p: int,
                       b: TransactionV5, t: seq<SpentOutput>, j: nat, q: int)
    requires |s| == |a.inputs| && i < |a.inputs| && |t| == |b.inputs| && j < |b.inputs|
    requires NoCollision(h, Queries(h, SighashTree(a, s, i, p)) + Queries(h, SighashTree(b, t, j, q)))
    ensures DigestOf(h, SighashTree(a, s, i, p)) == DigestOf(h, SighashTree(b, t, j, q))
            <==> SighashTree(a, s, i, p) == SighashTree(b, t, j, q)
  {
    SigningCompatible(a, s, i, p, b, t, j, q);
    RootsCompatible(a, SigningTree(a, s, i, p), b, SigningTree(b, t, j, q));
    RootDecides(h, SighashTree(a, s, i, p), SighashTree(b, t, j, q));
  }

  /** A signature made for one input of one transaction serves another exactly when they are the same approval. */
  lemma SighashBinds(h: Hash, a: TransactionV5, s: seq<SpentOutput>, i: nat, p: int,
                     b: TransactionV5, t: seq<SpentOutput>, j: nat, q: int)
    requires Signs(a, s, i) && Signs(b, t, j) && p % 32 == 1 && q % 32 == 1
    requires NoCollision(h, Queries(h, SighashTree(a, s, i, p)) + Queries(h, SighashTree(b, t, j, q)))
    ensures SignatureDigest(h, a, s, i, p) == SignatureDigest(h, b, t, j, q)
            <==> ApprovalOf(a, s, i, p) == ApprovalOf(b, t, j, q)
  {
    SighashDefined(h, a, s, i, p);
    SighashDefined(h, b, t, j, q);
    SighashIsTree(h, a, s, i, p);
    SighashIsTree(h, b, t, j, q);
    SighashTreeIff(a, s, i, p, b, t, j, q);
    SighashDecides(h, a, s, i, p, b, t, j, q);
  }

  /** What a signature of any type would approve of the transparent part. */
  datatype Partial = Partial(hashType: int, outputs: seq<TxOutput>, coin: Coin,
                             coins: Option<(seq<OutPoint>, seq<int>, seq<SpentOutput>)>)

  function PartialOf(tx: TransactionV5, spent: seq<SpentOutput>, index: nat, hashType: int): Partial
    requires |spent| == |tx.inputs| && index < |tx.inputs|
  {
    var whole := ApprovalOf(tx, spent, index, hashType);
    Partial(whole.hashType, SignedOutputs(tx, hashType, index), whole.coin, whole.coins)
  }

  lemma SigningTreeIff(a: TransactionV5, s: seq<SpentOutput>, i: nat, p: int,
                       b: TransactionV5, t: seq<SpentOutput>, j: nat, q: int)
    requires Signs(a, s, i) && Signs(b, t, j)
    ensures SigningTree(a, s, i, p) == SigningTree(b, t, j, q) <==> PartialOf(a, s, i, p) == PartialOf(b, t, j, q)
  {
    if SigningTree(a, s, i, p) == SigningTree(b, t, j, q) { SigningTreeInjective(a, s, i, p, b, t, j, q); }
    if PartialOf(a, s, i, p) == PartialOf(b, t, j, q) { SigningFromApproval(a, s, i, p, b, t, j, q); }
  }

  lemma SigningDecides(h: Hash, a: TransactionV5, s: seq<SpentOutput>, i: nat, p: int,
                       b: TransactionV5, t: seq<SpentOutput>, j: nat, q: int)
    requires |s| == |a.inputs| && i < |a.inputs| && |t| == |b.inputs| && j < |b.inputs|
    requires NoCollision(h, Queries(h, SigningTree(a, s, i, p)) + Queries(h, SigningTree(b, t, j, q)))
    ensures DigestOf(h, SigningTree(a, s, i, p)) == DigestOf(h, SigningTree(b, t, j, q))
            <==> SigningTree(a, s, i, p) == SigningTree(b, t, j, q)
  {
    SigningCompatible(a, s, i, p, b, t, j, q);
    RootDecides(h, SigningTree(a, s, i, p), SigningTree(b, t, j, q));
  }

  /** Of every defined type, two digests of the transparent part agree exactly when they commit to the same outputs, the
      same coin and, unless anyone may pay, the same coins. */
  lemma TransparentSighashBinds(h: Hash, a: TransactionV5, s: seq<SpentOutput>, i: nat, p: int,
                                b: TransactionV5, t: seq<SpentOutput>, j: nat, q: int)
    requires Signs(a, s, i) && Signs(b, t, j) && 1 <= p % 32 <= 3 && 1 <= q % 32 <= 3
    requires NoCollision(h, Queries(h, SigningTree(a, s, i, p)) + Queries(h, SigningTree(b, t, j, q)))
    ensures TransparentSignatureDigest(h, a, s, i, p) == TransparentSignatureDigest(h, b, t, j, q)
            <==> PartialOf(a, s, i, p) == PartialOf(b, t, j, q)
  {
    SighashDefined(h, a, s, i, p);
    SighashDefined(h, b, t, j, q);
    SigningIsTree(h, a, s, i, p);
    SigningIsTree(h, b, t, j, q);
    SigningTreeIff(a, s, i, p, b, t, j, q);
    SigningDecides(h, a, s, i, p, b, t, j, q);
  }

  /** One call of the hash, under the root personalization, on four digests. */
  ghost predicate RootCalled(h: Hash, tx: TransactionV5, d: Digest) {
    exists data: Bytes :: |data| == 128 && d == h(RootName(tx), data)
  }

  lemma CombineCalls(h: Hash, tx: TransactionV5, transparent: Digest)
    ensures RootCalled(h, tx, CombineDigest(h, tx, transparent))
  {
    RootNamed(tx);
    var data := HeaderDigest(h, tx) + transparent + SaplingDigest(h, tx.sapling) + OrchardDigest(h, tx.orchard);
    assert |data| == 128 && CombineDigest(h, tx, transparent) == h(RootName(tx), data);
  }

  /** The id and the signature digests are made under the protocol's root personalization, twelve letters and the
      branch. */
  lemma RootCall(h: Hash, tx: TransactionV5, spent: seq<SpentOutput>, index: nat, hashType: int)
    requires Signs(tx, spent, index) && hashType % 32 == 1
    ensures TxidDigest(h, tx).Some? && RootCalled(h, tx, TxidDigest(h, tx).value)
    ensures var d := SignatureDigest(h, tx, spent, index, hashType); d.Some? && RootCalled(h, tx, d.value)
  {
    WellFormedDefined(h, tx);
    SighashDefined(h, tx, spent, index, hashType);
    CombineCalls(h, tx, TransparentDigest(h, tx));
    CombineCalls(h, tx, TransparentSignatureDigest(h, tx, spent, index, hashType).value);
  }

  /** "ZcashTxHash_" and the branch id, least significant byte first. */
  function RootName(tx: TransactionV5): Bytes {
    [90, 99, 97, 115, 104, 84, 120, 72, 97, 115, 104, 95] + LittleEndian(tx.consensusBranchId, 4)
  }

  lemma RootNamed(tx: TransactionV5)
    ensures RootPersonal(tx.consensusBranchId) == RootName(tx)
  {
    var s := "ZcashTxHash_";
    assert |s| == 12 && s[0] == 'Z' && s[1] == 'c' && s[2] == 'a' && s[3] == 's' && s[4] == 'h' && s[5] == 'T';
    assert s[6] == 'x' && s[7] == 'H' && s[8] == 'a' && s[9] == 's' && s[10] == 'h' && s[11] == '_';
    assert Ascii(s) == [90, 99, 97, 115, 104, 84, 120, 72, 97, 115, 104, 95];
  }

  lemma SighashTxidDecides(h: Hash, a: TransactionV5, s: seq<SpentOutput>, i: nat, p: int, b: TransactionV5)
    requires |s| == |a.inputs| && i < |a.inputs|
    requires NoCollision(h, Queries(h, SighashTree(a, s, i, p)) + Queries(h, TxidTree(b)))
    ensures DigestOf(h, SighashTree(a, s, i, p)) != DigestOf(h, TxidTree(b))
  {
    SigningIsNotTransparent(a, s, i, p, b);
    RootsCompatible(a, SigningTree(a, s, i, p), b, TransparentTree(b));
    RootDecides(h, SighashTree(a, s, i, p), TxidTree(b));
  }

  /** No signature is ever made over a transaction id. */
  lemma SighashIsNoTxid(h: Hash, a: TransactionV5, s: seq<SpentOutput>, i: nat, p: int, b: TransactionV5)
    requires Signs(a, s, i) && p % 32 == 1 && TransactionOk(b)
    requires NoCollision(h, Queries(h, SighashTree(a, s, i, p)) + Queries(h, TxidTree(b)))
    ensures SignatureDigest(h, a, s, i, p) != TxidDigest(h, b)
  {
    SighashDefined(h, a, s, i, p);
    WellFormedDefined(h, b);
    SighashIsTree(h, a, s, i, p);
    TxidIsTree(h, b);
    SighashTxidDecides(h, a, s, i, p, b);
  }
}
