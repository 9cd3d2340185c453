/** The shielded bundles, and the transaction as a whole: parse after serialize, serialize after parse. */
module TransactionRoundTrip {
  import opened Bytes
  import opened Transaction
  import opened TransactionCodec

  /* ---------- descriptions ---------- */

  lemma SpendRoundTrip(x: SaplingSpend, rest: Bytes)
    requires SpendOk(x)
    ensures ReadSpend(EncodeSpend(x) + rest) == Ok(x, rest)
  {
    assert EncodeSpend(x) + rest == x.cv + (x.nullifier + (x.rk + rest));
    TakeFront(x.cv, x.nullifier + (x.rk + rest));
    TakeFront(x.nullifier, x.rk + rest);
    TakeFront(x.rk, rest);
  }

  lemma SpendInverse(s: Bytes)
    requires ReadSpend(s).Ok?
    ensures SpendOk(ReadSpend(s).value) && s == EncodeSpend(ReadSpend(s).value) + ReadSpend(s).rest
  {
  }

  lemma SaplingOutputRoundTrip(x: SaplingOutput, rest: Bytes)
    requires SaplingOutputOk(x)
    ensures ReadSaplingOutput(EncodeSaplingOutput(x) + rest) == Ok(x, rest)
  {
    var s4 := x.outCiphertext + rest;
    var s3 := x.encCiphertext + s4;
    var s2 := x.ephemeralKey + s3;
    var s1 := x.cmu + s2;
    assert EncodeSaplingOutput(x) + rest == x.cv + s1;
    TakeFront(x.cv, s1);
    TakeFront(x.cmu, s2);
    TakeFront(x.ephemeralKey, s3);
    TakeFront(x.encCiphertext, s4);
    TakeFront(x.outCiphertext, rest);
  }

  lemma SaplingOutputInverse(s: Bytes)
    requires ReadSaplingOutput(s).Ok?
    ensures SaplingOutputOk(ReadSaplingOutput(s).value)
    ensures s == EncodeSaplingOutput(ReadSaplingOutput(s).value) + ReadSaplingOutput(s).rest
  {
  }

  lemma ActionRoundTrip(x: OrchardAction, rest: Bytes)
    requires ActionOk(x)
    ensures ReadAction(EncodeAction(x) + rest) == Ok(x, rest)
  {
    var s6 := x.outCiphertext + rest;
    var s5 := x.encCiphertext + s6;
    var s4 := x.ephemeralKey + s5;
    var s3 := x.cmx + s4;
    var s2 := x.rk + s3;
    var s1 := x.nullifier + s2;
    assert EncodeAction(x) + rest == x.cv + s1;
    TakeFront(x.cv, s1);
    TakeFront(x.nullifier, s2);
    TakeFront(x.rk, s3);
    TakeFront(x.cmx, s4);
    TakeFront(x.ephemeralKey, s5);
    TakeFront(x.encCiphertext, s6);
    TakeFront(x.outCiphertext, rest);
  }

  lemma ActionInverse(s: Bytes)
    requires ReadAction(s).Ok?
    ensures ActionOk(ReadAction(s).value) && s == EncodeAction(ReadAction(s).value) + ReadAction(s).rest
  {
    var Ok(cv, s1) := Take(32, s);
    var Ok(nullifier, s2) := Take(32, s1);
    var Ok(rk, s3) := Take(32, s2);
    var Ok(cmx, s4) := Take(32, s3);
    var Ok(ephemeralKey, s5) := Take(32, s4);
    var Ok(enc, s6) := Take(ENC_CIPHERTEXT_BYTES, s5);
    var Ok(out, rest) := Take(OUT_CIPHERTEXT_BYTES, s6);
    SevenThenRest(cv, nullifier, rk, cmx, ephemeralKey, enc, out, rest);
  }

  lemma SevenThenRest(a: Bytes, b: Bytes, c: Bytes, d: Bytes, e: Bytes, f: Bytes, g: Bytes, rest: Bytes)
    ensures a + (b + (c + (d + (e + (f + g))))) + rest == a + (b + (c + (d + (e + (f + (g + rest))))))
  {
  }

  /* ---------- lists of fixed-width fields ---------- */

  lemma FixedRoundTrip(n: nat, xs: seq<Bytes>, rest: Bytes)
    requires AllOf(OfLength(n), xs)
    ensures ReadN(TakeOf(n), |xs|, EncodeAll(Verbatim, xs) + rest) == Ok(xs, rest)
  {
    forall i, r: Bytes | 0 <= i < |xs| ensures TakeOf(n)(Verbatim(xs[i]) + r) == Ok(xs[i], r) {
      assert OfLength(n)(xs[i]);
      TakeFront(xs[i], r);
    }
    ReadNRoundTrip(TakeOf(n), Verbatim, xs, rest);
  }

  lemma FixedInverse(n: nat, count: nat, s: Bytes)
    requires ReadN(TakeOf(n), count, s).Ok?
    ensures var Ok(xs, rest) := ReadN(TakeOf(n), count, s);
      AllOf(OfLength(n), xs) && s == EncodeAll(Verbatim, xs) + rest
  {
    forall t: Bytes | TakeOf(n)(t).Ok?
      ensures OfLength(n)(TakeOf(n)(t).value) && t == Verbatim(TakeOf(n)(t).value) + TakeOf(n)(t).rest
    {
    }
    ReadNAll(TakeOf(n), OfLength(n), count, s);
    ReadNInverse(TakeOf(n), Verbatim, count, s);
  }

  /* ---------- the Sapling bundle ---------- */

  /** The bundle without an anchor nobody shares. */
  function Anchored(b: SaplingBundle): SaplingBundle {
    b.(anchor := if b.spends == [] then None else b.anchor)
  }

  /** The bytes after a Sapling bundle's descriptions. */
  function SaplingTail(b: SaplingBundle, rest: Bytes): Bytes
    requires b.bindingSig.Some?
  {
    I64le(b.valueBalance) + (AnchorBytes(b) + (EncodeAll(Verbatim, b.spendProofs)
    + (EncodeAll(Verbatim, b.spendAuthSigs) + (EncodeAll(Verbatim, b.outputProofs) + (b.bindingSig.value + rest)))))
  }

  lemma SaplingTailRoundTrip(b: SaplingBundle, rest: Bytes)
    requires SaplingOk(b)
    ensures ReadSaplingTail(b.spends, b.outputs, SaplingTail(b, rest)) == Ok(Anchored(b), rest)
  {
    var s5 := b.bindingSig.value + rest;
    var s4 := EncodeAll(Verbatim, b.outputProofs) + s5;
    var s3 := EncodeAll(Verbatim, b.spendAuthSigs) + s4;
    var s2 := EncodeAll(Verbatim, b.spendProofs) + s3;
    var s1 := AnchorBytes(b) + s2;
    I64RoundTrip(b.valueBalance, s1);
    TakeFront(AnchorBytes(b), s2);
    FixedRoundTrip(SPEND_PROOF_BYTES, b.spendProofs, s3);
    FixedRoundTrip(REDJUBJUB_SIG_BYTES, b.spendAuthSigs, s4);
    FixedRoundTrip(OUTPUT_PROOF_BYTES, b.outputProofs, s5);
    TakeFront(b.bindingSig.value, rest);
  }

  lemma SaplingTailInverse(spends: seq<SaplingSpend>, outputs: seq<SaplingOutput>, s: Bytes)
    requires ReadSaplingTail(spends, outputs, s).Ok?
    requires |spends| <= MAX_SAFE_INTEGER && |outputs| <= MAX_SAFE_INTEGER
    requires AllOf(SpendOk, spends) && AllOf(SaplingOutputOk, outputs)
    ensures var Ok(b, rest) := ReadSaplingTail(spends, outputs, s);
      b.spends == spends && b.outputs == outputs && SaplingOk(b) && Anchored(b) == b && s == SaplingTail(b, rest)
  {
    var Ok(b, rest) := ReadSaplingTail(spends, outputs, s);
    I64Inverse(s);
    var s1 := ReadI64(s).rest;
    var s2 := Take(if spends == [] then 0 else 32, s1).rest;
    FixedInverse(SPEND_PROOF_BYTES, |spends|, s2);
    var s3 := ReadN(TakeOf(SPEND_PROOF_BYTES), |spends|, s2).rest;
    FixedInverse(REDJUBJUB_SIG_BYTES, |spends|, s3);
    var s4 := ReadN(TakeOf(REDJUBJUB_SIG_BYTES), |spends|, s3).rest;
    FixedInverse(OUTPUT_PROOF_BYTES, |outputs|, s4);
    assert s1 == AnchorBytes(b) + s2;
  }

  lemma SaplingLayout(b: SaplingBundle, rest: Bytes)
    requires b.bindingSig.Some? && !SaplingEmpty(Some(b))
    ensures EncodeSapling(Some(b)) + rest
            == CompactSize(|b.spends|) + (EncodeAll(EncodeSpend, b.spends)
               + (CompactSize(|b.outputs|) + (EncodeAll(EncodeSaplingOutput, b.outputs) + SaplingTail(b, rest))))
  {
    var tail := I64le(b.valueBalance) + (AnchorBytes(b) + (EncodeAll(Verbatim, b.spendProofs)
                + (EncodeAll(Verbatim, b.spendAuthSigs) + (EncodeAll(Verbatim, b.outputProofs) + b.bindingSig.value))));
    SixThenRest(I64le(b.valueBalance), AnchorBytes(b), EncodeAll(Verbatim, b.spendProofs),
                EncodeAll(Verbatim, b.spendAuthSigs), EncodeAll(Verbatim, b.outputProofs), b.bindingSig.value, rest);
    FourThenRest(CompactSize(|b.spends|), EncodeAll(EncodeSpend, b.spends), CompactSize(|b.outputs|),
                 EncodeAll(EncodeSaplingOutput, b.outputs), tail, rest);
  }

  lemma FourThenRest(a: Bytes, b: Bytes, c: Bytes, d: Bytes, tail: Bytes, rest: Bytes)
    ensures a + (b + (c + (d + tail))) + rest == a + (b + (c + (d + (tail + rest))))
  {
  }

  lemma SixThenRest(a: Bytes, b: Bytes, c: Bytes, d: Bytes, e: Bytes, f: Bytes, rest: Bytes)
    ensures a + (b + (c + (d + (e + f)))) + rest == a + (b + (c + (d + (e + (f + rest)))))
  {
  }

  lemma SpendsRoundTrip(xs: seq<SaplingSpend>, rest: Bytes)
    requires AllOf(SpendOk, xs)
    ensures ReadN(ReadSpend, |xs|, EncodeAll(EncodeSpend, xs) + rest) == Ok(xs, rest)
  {
    forall i, r: Bytes | 0 <= i < |xs| ensures ReadSpend(EncodeSpend(xs[i]) + r) == Ok(xs[i], r) {
      SpendRoundTrip(xs[i], r);
    }
    ReadNRoundTrip(ReadSpend, EncodeSpend, xs, rest);
  }

  lemma SpendsInverse(n: nat, s: Bytes)
    requires ReadN(ReadSpend, n, s).Ok?
    ensures var Ok(xs, rest) := ReadN(ReadSpend, n, s); AllOf(SpendOk, xs) && s == EncodeAll(EncodeSpend, xs) + rest
  {
    forall t: Bytes | ReadSpend(t).Ok?
      ensures SpendOk(ReadSpend(t).value) && t == EncodeSpend(ReadSpend(t).value) + ReadSpend(t).rest
    {
      SpendInverse(t);
    }
    ReadNAll(ReadSpend, SpendOk, n, s);
    ReadNInverse(ReadSpend, EncodeSpend, n, s);
  }

  lemma SaplingOutputsRoundTrip(xs: seq<SaplingOutput>, rest: Bytes)
    requires AllOf(SaplingOutputOk, xs)
    ensures ReadN(ReadSaplingOutput, |xs|, EncodeAll(EncodeSaplingOutput, xs) + rest) == Ok(xs, rest)
  {
    forall i, r: Bytes | 0 <= i < |xs| ensures ReadSaplingOutput(EncodeSaplingOutput(xs[i]) + r) == Ok(xs[i], r) {
      SaplingOutputRoundTrip(xs[i], r);
    }
    ReadNRoundTrip(ReadSaplingOutput, EncodeSaplingOutput, xs, rest);
  }

  lemma SaplingOutputsInverse(n: nat, s: Bytes)
    requires ReadN(ReadSaplingOutput, n, s).Ok?
    ensures var Ok(xs, rest) := ReadN(ReadSaplingOutput, n, s);
      AllOf(SaplingOutputOk, xs) && s == EncodeAll(EncodeSaplingOutput, xs) + rest
  {
    forall t: Bytes | ReadSaplingOutput(t).Ok?
      ensures SaplingOutputOk(ReadSaplingOutput(t).value)
      ensures t == EncodeSaplingOutput(ReadSaplingOutput(t).value) + ReadSaplingOutput(t).rest
    {
      SaplingOutputInverse(t);
    }
    ReadNAll(ReadSaplingOutput, SaplingOutputOk, n, s);
    ReadNInverse(ReadSaplingOutput, EncodeSaplingOutput, n, s);
  }

  lemma SaplingRoundTrip(strict: bool, o: Option<SaplingBundle>, rest: Bytes)
    requires !SaplingEmpty(o) ==> SaplingOk(o.value)
    ensures ReadSapling(strict, EncodeSapling(o) + rest) == Ok(CanonicalSapling(o), rest)
  {
    if SaplingEmpty(o) {
      assert EncodeSapling(o) + rest == CompactSize(0) + (CompactSize(0) + rest);
      CompactSizeRoundTrip(strict, 0, CompactSize(0) + rest);
      CompactSizeRoundTrip(strict, 0, rest);
    } else {
      var b := o.value;
      var s3 := SaplingTail(b, rest);
      var s2 := EncodeAll(EncodeSaplingOutput, b.outputs) + s3;
      var s1 := CompactSize(|b.outputs|) + s2;
      SaplingLayout(b, rest);
      CompactSizeRoundTrip(strict, |b.spends|, EncodeAll(EncodeSpend, b.spends) + s1);
      SpendsRoundTrip(b.spends, s1);
      CompactSizeRoundTrip(strict, |b.outputs|, s2);
      SaplingOutputsRoundTrip(b.outputs, s3);
      SaplingTailRoundTrip(b, rest);
    }
  }

  /** Whatever a Sapling reader accepts is well formed, and the strict reader agrees with the lenient one. */
  lemma SaplingRange(strict: bool, s: Bytes)
    requires ReadSapling(strict, s).Ok?
    ensures var o := ReadSapling(strict, s).value;
      CanonicalSapling(o) == o && (!SaplingEmpty(o) ==> SaplingOk(o.value))
    ensures ReadSapling(false, s) == ReadSapling(strict, s)
  {
    CompactSizeRange(strict, s);
    var Ok(n, s1) := ReadCompactSize(strict, s);
    SpendsInverse(n, s1);
    var Ok(spends, s2) := ReadN(ReadSpend, n, s1);
    CompactSizeRange(strict, s2);
    var Ok(m, s3) := ReadCompactSize(strict, s2);
    SaplingOutputsInverse(m, s3);
    var Ok(outputs, s4) := ReadN(ReadSaplingOutput, m, s3);
    if n != 0 || m != 0 {
      SaplingTailInverse(spends, outputs, s4);
    }
  }

  /** The bytes of a bundle whose descriptions and tail were read one after another. */
  lemma SaplingAssembled(spends: seq<SaplingSpend>, outputs: seq<SaplingOutput>, b: SaplingBundle,
                         s: Bytes, s1: Bytes, s2: Bytes, s3: Bytes, s4: Bytes, rest: Bytes)
    requires s == CompactSize(|spends|) + s1 && s1 == EncodeAll(EncodeSpend, spends) + s2
    requires s2 == CompactSize(|outputs|) + s3 && s3 == EncodeAll(EncodeSaplingOutput, outputs) + s4
    requires b.spends == spends && b.outputs == outputs && b.bindingSig.Some? && !SaplingEmpty(Some(b))
    requires s4 == SaplingTail(b, rest)
    ensures s == EncodeSapling(Some(b)) + rest
  {
    SaplingLayout(b, rest);
  }

  lemma SaplingInverse(s: Bytes)
    requires ReadSapling(true, s).Ok?
    ensures s == EncodeSapling(ReadSapling(true, s).value) + ReadSapling(true, s).rest
  {
    var Ok(n, s1) := ReadCompactSize(true, s);
    var Ok(spends, s2) := ReadN(ReadSpend, n, s1);
    var Ok(m, s3) := ReadCompactSize(true, s2);
    var Ok(outputs, s4) := ReadN(ReadSaplingOutput, m, s3);
    CompactSizeInverse(s);
    CompactSizeInverse(s2);
    if n == 0 && m == 0 {
      assert s == CompactSize(0) + (CompactSize(0) + s4);
    } else {
      SaplingInverseTail(s, s1, s2, s3, s4, spends, outputs);
    }
  }

  lemma SaplingInverseTail(s: Bytes, s1: Bytes, s2: Bytes, s3: Bytes, s4: Bytes,
                           spends: seq<SaplingSpend>, outputs: seq<SaplingOutput>)
    requires ReadCompactSize(true, s) == Ok(|spends|, s1) && s == CompactSize(|spends|) + s1
    requires ReadN(ReadSpend, |spends|, s1) == Ok(spends, s2)
    requires ReadCompactSize(true, s2) == Ok(|outputs|, s3) && s2 == CompactSize(|outputs|) + s3
    requires ReadN(ReadSaplingOutput, |outputs|, s3) == Ok(outputs, s4)
    requires spends != [] || outputs != []
    requires ReadSaplingTail(spends, outputs, s4).Ok?
    ensures var Ok(b, rest) := ReadSaplingTail(spends, outputs, s4); s == EncodeSapling(Some(b)) + rest
  {
    CompactSizeRange(true, s);
    CompactSizeRange(true, s2);
    SpendsInverse(|spends|, s1);
    SaplingOutputsInverse(|outputs|, s3);
    SaplingTailInverse(spends, outputs, s4);
    var Ok(b, rest) := ReadSaplingTail(spends, outputs, s4);
    SaplingAssembled(spends, outputs, b, s, s1, s2, s3, s4, rest);
  }

  /* ---------- the Orchard bundle ---------- */

  function OrchardTail(b: OrchardBundle, rest: Bytes): Bytes {
    U8(b.flags) + (I64le(b.valueBalance) + (b.anchor + (VarBytes(b.proofs)
    + (EncodeAll(Verbatim, b.spendAuthSigs) + (b.bindingSig + rest)))))
  }

  lemma OrchardTailRoundTrip(strict: bool, b: OrchardBundle, rest: Bytes)
    requires OrchardOk(b)
    ensures ReadOrchardTail(strict, b.actions, OrchardTail(b, rest)) == Ok(b, rest)
  {
    var s5 := b.bindingSig + rest;
    var s4 := EncodeAll(Verbatim, b.spendAuthSigs) + s5;
    var s3 := VarBytes(b.proofs) + s4;
    var s2 := b.anchor + s3;
    var s1 := I64le(b.valueBalance) + s2;
    U8RoundTrip(b.flags, s1);
    I64RoundTrip(b.valueBalance, s2);
    TakeFront(b.anchor, s3);
    VarBytesRoundTrip(strict, b.proofs, s4);
    FixedRoundTrip(REDJUBJUB_SIG_BYTES, b.spendAuthSigs, s5);
    TakeFront(b.bindingSig, rest);
  }

  lemma OrchardTailInverse(strict: bool, actions: seq<OrchardAction>, s: Bytes)
    requires ReadOrchardTail(strict, actions, s).Ok?
    requires |actions| <= MAX_SAFE_INTEGER && AllOf(ActionOk, actions)
    ensures var Ok(b, rest) := ReadOrchardTail(strict, actions, s);
      b.actions == actions && OrchardOk(b) && (strict ==> s == OrchardTail(b, rest))
    ensures ReadOrchardTail(false, actions, s) == ReadOrchardTail(strict, actions, s)
  {
    var s1 := ReadU8(s).rest;
    I64Inverse(s1);
    var s2 := ReadI64(s1).rest;
    var s3 := Take(32, s2).rest;
    VarBytesRange(strict, s3);
    if strict { VarBytesInverse(s3); }
    FixedInverse(REDJUBJUB_SIG_BYTES, |actions|, ReadVarBytes(strict, s3).rest);
  }

  lemma ActionsRoundTrip(xs: seq<OrchardAction>, rest: Bytes)
    requires AllOf(ActionOk, xs)
    ensures ReadN(ReadAction, |xs|, EncodeAll(EncodeAction, xs) + rest) == Ok(xs, rest)
  {
    forall i, r: Bytes | 0 <= i < |xs| ensures ReadAction(EncodeAction(xs[i]) + r) == Ok(xs[i], r) {
      ActionRoundTrip(xs[i], r);
    }
    ReadNRoundTrip(ReadAction, EncodeAction, xs, rest);
  }

  lemma ActionsInverse(n: nat, s: Bytes)
    requires ReadN(ReadAction, n, s).Ok?
    ensures var Ok(xs, rest) := ReadN(ReadAction, n, s); AllOf(ActionOk, xs) && s == EncodeAll(EncodeAction, xs) + rest
  {
    forall t: Bytes | ReadAction(t).Ok?
      ensures ActionOk(ReadAction(t).value) && t == EncodeAction(ReadAction(t).value) + ReadAction(t).rest
    {
      ActionInverse(t);
    }
    ReadNAll(ReadAction, ActionOk, n, s);
    ReadNInverse(ReadAction, EncodeAction, n, s);
  }

  lemma EightThenRest(a: Bytes, b: Bytes, c: Bytes, d: Bytes, e: Bytes, f: Bytes, g: Bytes, h: Bytes, rest: Bytes)
    ensures a + (b + (c + (d + (e + (f + (g + h)))))) + rest == a + (b + (c + (d + (e + (f + (g + (h + rest)))))))
  {
  }

  lemma OrchardLayout(b: OrchardBundle, rest: Bytes)
    requires b.actions != []
    ensures EncodeOrchard(Some(b)) + rest
            == CompactSize(|b.actions|) + (EncodeAll(EncodeAction, b.actions) + OrchardTail(b, rest))
  {
    EightThenRest(CompactSize(|b.actions|), EncodeAll(EncodeAction, b.actions), U8(b.flags), I64le(b.valueBalance),
                  b.anchor, VarBytes(b.proofs), EncodeAll(Verbatim, b.spendAuthSigs), b.bindingSig, rest);
  }

  lemma OrchardRoundTrip(strict: bool, o: Option<OrchardBundle>, rest: Bytes)
    requires !OrchardEmpty(o) ==> OrchardOk(o.value)
    ensures ReadOrchard(strict, EncodeOrchard(o) + rest) == Ok(CanonicalOrchard(o), rest)
  {
    if OrchardEmpty(o) {
      CompactSizeRoundTrip(strict, 0, rest);
    } else {
      var b := o.value;
      OrchardLayout(b, rest);
      CompactSizeRoundTrip(strict, |b.actions|, EncodeAll(EncodeAction, b.actions) + OrchardTail(b, rest));
      ActionsRoundTrip(b.actions, OrchardTail(b, rest));
      OrchardTailRoundTrip(strict, b, rest);
    }
  }

  lemma OrchardInverse(strict: bool, s: Bytes)
    requires ReadOrchard(strict, s).Ok?
    ensures var Ok(o, rest) := ReadOrchard(strict, s);
      && CanonicalOrchard(o) == o && (!OrchardEmpty(o) ==> OrchardOk(o.value))
      && (strict ==> s == EncodeOrchard(o) + rest)
    ensures ReadOrchard(false, s) == ReadOrchard(strict, s)
  {
    CompactSizeRange(strict, s);
    if strict { CompactSizeInverse(s); }
    var Ok(n, s1) := ReadCompactSize(strict, s);
    if n != 0 {
      ActionsInverse(n, s1);
      var Ok(actions, s2) := ReadN(ReadAction, n, s1);
      OrchardTailInverse(strict, actions, s2);
      var Ok(b, rest) := ReadOrchardTail(strict, actions, s2);
      OrchardLayout(b, rest);
    }
  }

  /* ---------- header and transparent part ---------- */

  function HeaderBytes(h: Header, rest: Bytes): Bytes {
    U32le(OVERWINTERED_FLAG + TX_VERSION_V5) + (U32le(VERSION_GROUP_ID_V5) + (U32le(h.consensusBranchId)
    + (U32le(h.lockTime) + (U32le(h.expiryHeight) + rest))))
  }

  predicate HeaderOk(h: Header) { InU32(h.consensusBranchId) && InU32(h.lockTime) && InU32(h.expiryHeight) }

  lemma HeaderRoundTrip(h: Header, rest: Bytes)
    requires HeaderOk(h)
    ensures ReadHeader(HeaderBytes(h, rest)) == Ok(h, rest)
  {
    var s4 := U32le(h.expiryHeight) + rest;
    var s3 := U32le(h.lockTime) + s4;
    var s2 := U32le(h.consensusBranchId) + s3;
    var s1 := U32le(VERSION_GROUP_ID_V5) + s2;
    U32RoundTrip(OVERWINTERED_FLAG + TX_VERSION_V5, s1);
    U32RoundTrip(VERSION_GROUP_ID_V5, s2);
    U32RoundTrip(h.consensusBranchId, s3);
    U32RoundTrip(h.lockTime, s4);
    U32RoundTrip(h.expiryHeight, rest);
  }

  lemma HeaderInverse(s: Bytes)
    requires ReadHeader(s).Ok?
    ensures var Ok(h, rest) := ReadHeader(s); HeaderOk(h) && s == HeaderBytes(h, rest)
  {
    U32Inverse(s);
    var s1 := ReadU32(s).rest;
    U32Inverse(s1);
    var s2 := ReadU32(s1).rest;
    U32Inverse(s2);
    var s3 := ReadU32(s2).rest;
    U32Inverse(s3);
    U32Inverse(ReadU32(s3).rest);
  }

  predicate TransparentOk(t: Transparent) {
    && |t.inputs| <= MAX_SAFE_INTEGER && AllOf(InputOk, t.inputs)
    && |t.outputs| <= MAX_SAFE_INTEGER && AllOf(OutputOk, t.outputs)
  }

  function TransparentBytes(t: Transparent, rest: Bytes): Bytes {
    CompactSize(|t.inputs|) + (EncodeAll(EncodeInput, t.inputs)
    + (CompactSize(|t.outputs|) + (EncodeAll(EncodeOutput, t.outputs) + rest)))
  }

  lemma InputsRoundTrip(strict: bool, xs: seq<TxInput>, rest: Bytes)
    requires AllOf(InputOk, xs)
    ensures ReadN(ReadInput(strict), |xs|, EncodeAll(EncodeInput, xs) + rest) == Ok(xs, rest)
  {
    forall i, r: Bytes | 0 <= i < |xs| ensures ReadInput(strict)(EncodeInput(xs[i]) + r) == Ok(xs[i], r) {
      InputRoundTrip(strict, xs[i], r);
    }
    ReadNRoundTrip(ReadInput(strict), EncodeInput, xs, rest);
  }

  lemma OutputsRoundTrip(strict: bool, xs: seq<TxOutput>, rest: Bytes)
    requires AllOf(OutputOk, xs)
    ensures ReadN(ReadOutput(strict), |xs|, EncodeAll(EncodeOutput, xs) + rest) == Ok(xs, rest)
  {
    forall i, r: Bytes | 0 <= i < |xs| ensures ReadOutput(strict)(EncodeOutput(xs[i]) + r) == Ok(xs[i], r) {
      OutputRoundTrip(strict, xs[i], r);
    }
    ReadNRoundTrip(ReadOutput(strict), EncodeOutput, xs, rest);
  }

  lemma ReadTransparentSteps(strict: bool, s: Bytes, n: nat, s1: Bytes, inputs: seq<TxInput>, s2: Bytes,
                             m: nat, s3: Bytes, outputs: seq<TxOutput>, rest: Bytes)
    requires ReadCompactSize(strict, s) == Ok(n, s1)
    requires ReadN(ReadInput(strict), n, s1) == Ok(inputs, s2)
    requires ReadCompactSize(strict, s2) == Ok(m, s3)
    requires ReadN(ReadOutput(strict), m, s3) == Ok(outputs, rest)
    ensures ReadTransparent(strict, s) == Ok(Transparent(inputs, outputs), rest)
  {
  }

  lemma TransparentRoundTrip(strict: bool, t: Transparent, rest: Bytes)
    requires TransparentOk(t)
    ensures ReadTransparent(strict, TransparentBytes(t, rest)) == Ok(t, rest)
  {
    var s3 := EncodeAll(EncodeOutput, t.outputs) + rest;
    var s2 := CompactSize(|t.outputs|) + s3;
    var s1 := EncodeAll(EncodeInput, t.inputs) + s2;
    var s := CompactSize(|t.inputs|) + s1;
    CompactSizeRoundTrip(strict, |t.inputs|, s1);
    InputsRoundTrip(strict, t.inputs, s2);
    CompactSizeRoundTrip(strict, |t.outputs|, s3);
    OutputsRoundTrip(strict, t.outputs, rest);
    ReadTransparentSteps(strict, s, |t.inputs|, s1, t.inputs, s2, |t.outputs|, s3, t.outputs, rest);
  }

  lemma InputsInverse(strict: bool, n: nat, s: Bytes)
    requires ReadN(ReadInput(strict), n, s).Ok?
    ensures var Ok(xs, rest) := ReadN(ReadInput(strict), n, s);
      AllOf(InputOk, xs) && (strict ==> s == EncodeAll(EncodeInput, xs) + rest)
    ensures ReadN(ReadInput(false), n, s) == ReadN(ReadInput(strict), n, s)
  {
    forall t: Bytes | ReadInput(strict)(t).Ok?
      ensures InputOk(ReadInput(strict)(t).value) && ReadInput(false)(t) == ReadInput(strict)(t)
      ensures strict ==> t == EncodeInput(ReadInput(strict)(t).value) + ReadInput(strict)(t).rest
    {
      InputRange(strict, t);
      if strict { InputInverse(t); }
    }
    ReadNAll(ReadInput(strict), InputOk, n, s);
    ReadNAgree(ReadInput(strict), ReadInput(false), n, s);
    if strict { ReadNInverse(ReadInput(strict), EncodeInput, n, s); }
  }

  lemma OutputsInverse(strict: bool, n: nat, s: Bytes)
    requires ReadN(ReadOutput(strict), n, s).Ok?
    ensures var Ok(xs, rest) := ReadN(ReadOutput(strict), n, s);
      AllOf(OutputOk, xs) && (strict ==> s == EncodeAll(EncodeOutput, xs) + rest)
    ensures ReadN(ReadOutput(false), n, s) == ReadN(ReadOutput(strict), n, s)
  {
    forall t: Bytes | ReadOutput(strict)(t).Ok?
      ensures OutputOk(ReadOutput(strict)(t).value) && ReadOutput(false)(t) == ReadOutput(strict)(t)
      ensures strict ==> t == EncodeOutput(ReadOutput(strict)(t).value) + ReadOutput(strict)(t).rest
    {
      OutputRange(strict, t);
      if strict { OutputInverse(t); }
    }
    ReadNAll(ReadOutput(strict), OutputOk, n, s);
    ReadNAgree(ReadOutput(strict), ReadOutput(false), n, s);
    if strict { ReadNInverse(ReadOutput(strict), EncodeOutput, n, s); }
  }

  lemma TransparentInverse(strict: bool, s: Bytes)
    requires ReadTransparent(strict, s).Ok?
    ensures var Ok(t, rest) := ReadTransparent(strict, s);
      TransparentOk(t) && (strict ==> s == TransparentBytes(t, rest))
    ensures ReadTransparent(false, s) == ReadTransparent(strict, s)
  {
    CompactSizeRange(strict, s);
    var Ok(n, s1) := ReadCompactSize(strict, s);
    InputsInverse(strict, n, s1);
    var s2 := ReadN(ReadInput(strict), n, s1).rest;
    CompactSizeRange(strict, s2);
    var Ok(m, s3) := ReadCompactSize(strict, s2);
    OutputsInverse(strict, m, s3);
    if strict {
      CompactSizeInverse(s);
      CompactSizeInverse(s2);
    }
  }

  /* ---------- the transaction ---------- */

  function HeaderOf(tx: TransactionV5): Header { Header(tx.consensusBranchId, tx.lockTime, tx.expiryHeight) }
  function TransparentOf(tx: TransactionV5): Transparent { Transparent(tx.inputs, tx.outputs) }

  lemma TransactionLayout(tx: TransactionV5)
    requires tx.version == TX_VERSION_V5 && tx.versionGroupId == VERSION_GROUP_ID_V5
    ensures TransactionBytes(tx)
            == HeaderBytes(HeaderOf(tx), TransparentBytes(TransparentOf(tx),
                 EncodeSapling(tx.sapling) + (EncodeOrchard(tx.orchard) + [])))
  {
    assert EncodeOrchard(tx.orchard) + [] == EncodeOrchard(tx.orchard);
  }

  lemma OkIsSerializable(tx: TransactionV5)
    requires TransactionOk(tx)
    ensures Serializable(tx)
  {
    forall i | 0 <= i < |tx.inputs| ensures TxidReadable(tx.inputs[i].prevout.txid) {
      assert InputOk(tx.inputs[i]);
      TxidRoundTrip(tx.inputs[i].prevout.txid);
    }
  }

  lemma ReadTransactionSteps(strict: bool, s: Bytes, h: Header, s1: Bytes, t: Transparent, s2: Bytes,
                             sapling: Option<SaplingBundle>, s3: Bytes, orchard: Option<OrchardBundle>)
    requires ReadHeader(s) == Ok(h, s1)
    requires ReadTransparent(strict, s1) == Ok(t, s2)
    requires ReadSapling(strict, s2) == Ok(sapling, s3)
    requires ReadOrchard(strict, s3) == Ok(orchard, [])
    ensures ParseWith(strict, s)
            == Some(TransactionV5(TX_VERSION_V5, VERSION_GROUP_ID_V5, h.consensusBranchId, h.lockTime, h.expiryHeight,
                                  t.inputs, t.outputs, sapling, orchard))
  {
  }

  lemma RoundTripParts(strict: bool, tx: TransactionV5, s: Bytes, s1: Bytes, s2: Bytes, s3: Bytes)
    requires TransactionOk(tx)
    requires s == HeaderBytes(HeaderOf(tx), s1) && s1 == TransparentBytes(TransparentOf(tx), s2)
    requires s2 == EncodeSapling(tx.sapling) + s3 && s3 == EncodeOrchard(tx.orchard) + []
    ensures ParseWith(strict, s) == Some(Canonical(tx))
  {
    HeaderRoundTrip(HeaderOf(tx), s1);
    TransparentRoundTrip(strict, TransparentOf(tx), s2);
    SaplingRoundTrip(strict, tx.sapling, s3);
    OrchardRoundTrip(strict, tx.orchard, []);
    ReadTransactionSteps(strict, s, HeaderOf(tx), s1, TransparentOf(tx), s2, CanonicalSapling(tx.sapling), s3,
                         CanonicalOrchard(tx.orchard));
  }

  lemma RoundTripWith(strict: bool, tx: TransactionV5)
    requires TransactionOk(tx)
    ensures ParseWith(strict, TransactionBytes(tx)) == Some(Canonical(tx))
  {
    var s3 := EncodeOrchard(tx.orchard) + [];
    var s2 := EncodeSapling(tx.sapling) + s3;
    TransactionLayout(tx);
    RoundTripParts(strict, tx, TransactionBytes(tx), TransparentBytes(TransparentOf(tx), s2), s2, s3);
  }

  /** Every well-formed transaction serializes, and its bytes parse back to it. */
  lemma ParseAfterSerialize(tx: TransactionV5)
    requires TransactionOk(tx)
    ensures SerializeTransaction(tx).Some?
    ensures ParseTransaction(SerializeTransaction(tx).value) == Some(Canonical(tx))
  {
    OkIsSerializable(tx);
    RoundTripWith(false, tx);
  }

  /** So two transactions with the same bytes are the same transaction. */
  lemma SerializationInjective(a: TransactionV5, b: TransactionV5)
    requires TransactionOk(a) && TransactionOk(b)
    requires SerializeTransaction(a) == SerializeTransaction(b)
    ensures Canonical(a) == Canonical(b)
  {
    ParseAfterSerialize(a);
    ParseAfterSerialize(b);
  }

  /** The successive remainders of an accepted transaction. */
  lemma ParsedParts(strict: bool, raw: Bytes) returns (s1: Bytes, s2: Bytes, s3: Bytes)
    requires ParseWith(strict, raw).Some?
    ensures var tx := ParseWith(strict, raw).value;
      && tx.version == TX_VERSION_V5 && tx.versionGroupId == VERSION_GROUP_ID_V5
      && ReadHeader(raw) == Ok(HeaderOf(tx), s1)
      && ReadTransparent(strict, s1) == Ok(TransparentOf(tx), s2)
      && ReadSapling(strict, s2) == Ok(tx.sapling, s3)
      && ReadOrchard(strict, s3) == Ok(tx.orchard, [])
  {
    s1 := ReadHeader(raw).rest;
    s2 := ReadTransparent(strict, s1).rest;
    s3 := ReadSapling(strict, s2).rest;
  }

  /** Whatever parses is well formed and canonical. */
  lemma ParsedOk(strict: bool, raw: Bytes)
    requires ParseWith(strict, raw).Some?
    ensures TransactionOk(ParseWith(strict, raw).value)
    ensures Canonical(ParseWith(strict, raw).value) == ParseWith(strict, raw).value
  {
    var s1, s2, s3 := ParsedParts(strict, raw);
    HeaderInverse(raw);
    TransparentInverse(strict, s1);
    SaplingRange(strict, s2);
    OrchardInverse(strict, s3);
  }

  /** The strict parser reads nothing differently. */
  lemma StrictAgrees(raw: Bytes)
    requires ParseWith(true, raw).Some?
    ensures ParseTransaction(raw) == ParseWith(true, raw)
  {
    var tx := ParseWith(true, raw).value;
    var s1, s2, s3 := ParsedParts(true, raw);
    TransparentInverse(true, s1);
    SaplingRange(true, s2);
    OrchardInverse(true, s3);
    ReadTransactionSteps(false, raw, HeaderOf(tx), s1, TransparentOf(tx), s2, tx.sapling, s3, tx.orchard);
  }

  /** What the strict parser accepts is exactly the serialization of what it read. */
  lemma StrictInverse(raw: Bytes)
    requires ParseWith(true, raw).Some?
    ensures raw == TransactionBytes(ParseWith(true, raw).value)
  {
    var tx := ParseWith(true, raw).value;
    var s1, s2, s3 := ParsedParts(true, raw);
    HeaderInverse(raw);
    TransparentInverse(true, s1);
    SaplingInverse(s2);
    OrchardInverse(true, s3);
    TransactionLayout(tx);
  }

  /** Re-serializing an accepted transaction reproduces its bytes exactly when every CompactSize in
      them was written in its shortest form. */
  lemma SerializeAfterParseIff(raw: Bytes)
    requires ParseTransaction(raw).Some?
    ensures SerializeTransaction(ParseTransaction(raw).value) == Some(raw) <==> MinimalSizes(raw)
  {
    var tx := ParseTransaction(raw).value;
    ParsedOk(false, raw);
    OkIsSerializable(tx);
    if MinimalSizes(raw) {
      StrictAgrees(raw);
      StrictInverse(raw);
    }
    if SerializeTransaction(tx) == Some(raw) {
      RoundTripWith(true, tx);
    }
  }
}
