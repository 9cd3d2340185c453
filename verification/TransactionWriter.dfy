/** The serializer as it runs: a list of parts pushed one after another and joined at the end. */
module TransactionWriter {
  import opened Bytes
  import opened Transaction

  lemma {:induction false} EncodeAllNext<T>(encode: T -> Bytes, xs: seq<T>, k: nat)
    requires k < |xs|
    ensures EncodeAll(encode, xs[..k + 1]) == EncodeAll(encode, xs[..k]) + encode(xs[k])
  {
    if k == 0 {
      assert xs[..1] == [xs[0]] && [xs[0]][1..] == [] && xs[..0] == [];
    } else {
      EncodeAllNext(encode, xs[1..], k - 1);
      assert xs[..k + 1][1..] == xs[1..][..k] && xs[..k][1..] == xs[1..][..k - 1];
    }
  }

  /** The loop over a list of items: pushes each one's encoding. */
  method PushAll<T>(before: seq<Bytes>, encode: T -> Bytes, xs: seq<T>) returns (parts: seq<Bytes>)
    ensures Concat(parts) == Concat(before) + EncodeAll(encode, xs)
  {
    parts := before;
    assert xs[..0] == [];
    for k := 0 to |xs|
      invariant Concat(parts) == Concat(before) + EncodeAll(encode, xs[..k])
    {
      EncodeAllNext(encode, xs, k);
      parts := Push(parts, encode(xs[k]));
    }
    assert xs[..|xs|] == xs;
  }

  method Push(before: seq<Bytes>, part: Bytes) returns (parts: seq<Bytes>)
    ensures Concat(parts) == Concat(before) + part
  {
    parts := before + [part];
    ConcatAppend(before, [part]);
    assert Concat([part]) == part;
  }

  method PushSapling(before: seq<Bytes>, s: Option<SaplingBundle>) returns (r: Option<seq<Bytes>>)
    ensures r.Some?
            <==> SaplingEmpty(s) || ((s.value.spends != [] ==> s.value.anchor.Some?) && s.value.bindingSig.Some?)
    ensures r.Some? ==> Concat(r.value) == Concat(before) + EncodeSapling(s)
  {
    if SaplingEmpty(s) {
      var parts := Push(before, CompactSize(0) + CompactSize(0));
      return Some(parts);
    }
    var b := s.value;
    if (b.spends != [] && b.anchor.None?) || b.bindingSig.None? { return None; }
    var p1 := Push(before, CompactSize(|b.spends|));
    var p2 := PushAll(p1, EncodeSpend, b.spends);
    var p3 := Push(p2, CompactSize(|b.outputs|));
    var p4 := PushAll(p3, EncodeSaplingOutput, b.outputs);
    var p5 := Push(p4, I64le(b.valueBalance));
    var p6 := Push(p5, AnchorBytes(b));
    var p7 := PushAll(p6, Verbatim, b.spendProofs);
    var p8 := PushAll(p7, Verbatim, b.spendAuthSigs);
    var p9 := PushAll(p8, Verbatim, b.outputProofs);
    var p10 := Push(p9, b.bindingSig.value);
    TenParts(Concat(before), CompactSize(|b.spends|), EncodeAll(EncodeSpend, b.spends), CompactSize(|b.outputs|),
             EncodeAll(EncodeSaplingOutput, b.outputs), I64le(b.valueBalance), AnchorBytes(b),
             EncodeAll(Verbatim, b.spendProofs), EncodeAll(Verbatim, b.spendAuthSigs),
             EncodeAll(Verbatim, b.outputProofs), b.bindingSig.value);
    return Some(p10);
  }

  lemma TenParts(z: Bytes, a: Bytes, b: Bytes, c: Bytes, d: Bytes, e: Bytes, f: Bytes, g: Bytes, h: Bytes, i: Bytes,
                 j: Bytes)
    ensures z + a + b + c + d + e + f + g + h + i + j
            == z + (a + (b + (c + (d + (e + (f + (g + (h + (i + j)))))))))
  {
    EightParts(z + a + b, c, d, e, f, g, h, i, j);
  }

  lemma EightParts(z: Bytes, a: Bytes, b: Bytes, c: Bytes, d: Bytes, e: Bytes, f: Bytes, g: Bytes, h: Bytes)
    ensures z + a + b + c + d + e + f + g + h == z + (a + (b + (c + (d + (e + (f + (g + h)))))))
  {
  }

  method PushOrchard(before: seq<Bytes>, o: Option<OrchardBundle>) returns (parts: seq<Bytes>)
    ensures Concat(parts) == Concat(before) + EncodeOrchard(o)
  {
    if OrchardEmpty(o) {
      parts := Push(before, CompactSize(0));
      return;
    }
    var b := o.value;
    parts := Push(before, CompactSize(|b.actions|));
    parts := PushAll(parts, EncodeAction, b.actions);
    parts := Push(parts, U8(b.flags));
    parts := Push(parts, I64le(b.valueBalance));
    parts := Push(parts, b.anchor);
    parts := Push(parts, VarBytes(b.proofs));
    parts := PushAll(parts, Verbatim, b.spendAuthSigs);
    parts := Push(parts, b.bindingSig);
    EightParts(Concat(before), CompactSize(|b.actions|), EncodeAll(EncodeAction, b.actions), U8(b.flags),
               I64le(b.valueBalance), b.anchor, VarBytes(b.proofs), EncodeAll(Verbatim, b.spendAuthSigs), b.bindingSig);
  }

  /** None where the serializer throws. */
  method SerializeTransaction(tx: TransactionV5) returns (r: Option<Bytes>)
    ensures r == Transaction.SerializeTransaction(tx)
  {
    if tx.version != TX_VERSION_V5 || tx.versionGroupId != VERSION_GROUP_ID_V5 { return None; }
    if !(forall i | 0 <= i < |tx.inputs| :: TxidReadable(tx.inputs[i].prevout.txid)) { return None; }
    var p1 := Push([], EncodeHeader(tx));
    var p2 := Push(p1, CompactSize(|tx.inputs|));
    var p3 := PushAll(p2, EncodeInput, tx.inputs);
    var p4 := Push(p3, CompactSize(|tx.outputs|));
    var p5 := PushAll(p4, EncodeOutput, tx.outputs);
    var p6 := PushSapling(p5, tx.sapling);
    if p6.None? { return None; }
    var p7 := PushOrchard(p6.value, tx.orchard);
    r := Some(Concat(p7));
    SevenParts(EncodeHeader(tx), CompactSize(|tx.inputs|), EncodeAll(EncodeInput, tx.inputs), CompactSize(|tx.outputs|),
               EncodeAll(EncodeOutput, tx.outputs), EncodeSapling(tx.sapling), EncodeOrchard(tx.orchard));
  }

  lemma SevenParts(a: Bytes, b: Bytes, c: Bytes, d: Bytes, e: Bytes, f: Bytes, g: Bytes)
    ensures [] + a + b + c + d + e + f + g == a + (b + (c + (d + (e + (f + g)))))
  {
  }
}
