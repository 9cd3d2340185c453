/** The parser as it runs: a cursor moving over a fixed buffer, refining the reading functions. */
module TransactionReader {
  import opened Bytes
  import opened Transaction

  /** Reading i + j items is reading i and then j of what remains. */
  lemma {:induction false} ReadNSplit<T(!new)>(read: Bytes -> Read<T>, i: nat, j: nat, s: Bytes)
    ensures ReadN(read, i + j, s) ==
            match ReadN(read, i, s)
            case Fail => Fail
            case Ok(xs, mid) =>
              match ReadN(read, j, mid)
              case Fail => Fail
              case Ok(ys, rest) => Ok(xs + ys, rest)
  {
    if i == 0 {
      assert forall ys: seq<T> :: [] + ys == ys;
    } else if read(s).Ok? {
      var x := read(s).value;
      var mid := read(s).rest;
      ReadNSplit(read, i - 1, j, mid);
      if ReadN(read, i, s).Ok? && ReadN(read, i + j, s).Ok? {
        var xs := ReadN(read, i - 1, mid).value;
        var ys := ReadN(read, j, ReadN(read, i - 1, mid).rest).value;
        assert [x] + (xs + ys) == ([x] + xs) + ys;
      }
    }
  }

  /** One more turn of a reading loop: it stands at item i with xs in hand, and reads the next. */
  lemma ReadNNext<T(!new)>(read: Bytes -> Read<T>, i: nat, n: nat, s: Bytes, xs: seq<T>, mid: Bytes)
    requires i < n && ReadN(read, i, s) == Ok(xs, mid)
    ensures read(mid).Fail? ==> ReadN(read, n, s) == Fail
    ensures read(mid).Ok? ==> ReadN(read, i + 1, s) == Ok(xs + [read(mid).value], read(mid).rest)
  {
    ReadNSplit(read, i, n - i, s);
    ReadNSplit(read, i, 1, s);
    if read(mid).Ok? {
      assert ReadN(read, 0, read(mid).rest) == Ok([], read(mid).rest);
      assert [read(mid).value] + [] == [read(mid).value];
    }
  }

  class Reader {
    const bytes: Bytes
    var offset: nat

    ghost predicate Valid() reads this { offset <= |bytes| }

    ghost function Rest(): Bytes
      reads this
      requires Valid()
    {
      bytes[offset..]
    }

    /** The outcome agrees with the specification of the read, and so does what is left to read. */
    ghost predicate Gives<T(!new)>(spec: Read<T>, got: Option<T>)
      reads this
    {
      Valid() && if spec.Fail? then got == None else got == Some(spec.value) && Rest() == spec.rest
    }

    constructor (raw: Bytes)
      ensures Valid() && Rest() == raw
    {
      bytes := raw;
      offset := 0;
    }

    method Take(n: nat) returns (r: Option<Bytes>)
      requires Valid()
      modifies this
      ensures Gives(Transaction.Take(n, old(Rest())), r)
    {
      if offset + n > |bytes| { return None; }
      r := Some(bytes[offset..offset + n]);
      assert r.value == Rest()[..n];
      offset := offset + n;
    }

    method U8() returns (r: Option<int>)
      requires Valid()
      modifies this
      ensures Gives(ReadU8(old(Rest())), r)
    {
      var b :- Take(1);
      r := Some(b[0]);
    }

    method U32() returns (r: Option<int>)
      requires Valid()
      modifies this
      ensures Gives(ReadU32(old(Rest())), r)
    {
      var b :- Take(4);
      r := Some(FromLittleEndian(b));
    }

    method I64() returns (r: Option<int>)
      requires Valid()
      modifies this
      ensures Gives(ReadI64(old(Rest())), r)
    {
      var b :- Take(8);
      var v := FromLittleEndian(b);
      r := Some(if v < U64 / 2 then v else v - U64);
    }

    method CompactSize() returns (r: Option<nat>)
      requires Valid()
      modifies this
      ensures Gives(ReadCompactSize(false, old(Rest())), r)
    {
      var first :- U8();
      if first < 0xfd { return Some(first); }
      if first == 0xfd {
        var b :- Take(2);
        Low16(b);
        return Some(b[0] as int + 256 * b[1] as int);
      }
      if first == 0xfe {
        var v :- U32();
        return Some(v);
      }
      var b :- Take(8);
      var v := FromLittleEndian(b);
      if v > MAX_SAFE_INTEGER { return None; }
      r := Some(v);
    }

    method VarBytes() returns (r: Option<Bytes>)
      requires Valid()
      modifies this
      ensures Gives(ReadVarBytes(false, old(Rest())), r)
    {
      var n :- CompactSize();
      r := Take(n);
    }

    method Repeat(count: nat, length: nat) returns (r: Option<seq<Bytes>>)
      requires Valid()
      modifies this
      ensures Gives(ReadN(TakeOf(length), count, old(Rest())), r)
    {
      var out: seq<Bytes> := [];
      for i := 0 to count
        invariant Valid() && ReadN(TakeOf(length), i, old(Rest())) == Ok(out, Rest())
      {
        ReadNNext(TakeOf(length), i, count, old(Rest()), out, Rest());
        var b :- Take(length);
        out := out + [b];
      }
      r := Some(out);
    }

    method Input() returns (r: Option<TxInput>)
      requires Valid()
      modifies this
      ensures Gives(ReadInput(false)(old(Rest())), r)
    {
      var hash :- Take(32);
      var index :- U32();
      var scriptSig :- VarBytes();
      var sequence :- U32();
      r := Some(TxInput(OutPoint(InternalToTxid(hash), index), scriptSig, sequence));
    }

    method Output() returns (r: Option<TxOutput>)
      requires Valid()
      modifies this
      ensures Gives(ReadOutput(false)(old(Rest())), r)
    {
      var value :- I64();
      var script :- VarBytes();
      r := Some(TxOutput(value, script));
    }

    method Spend() returns (r: Option<SaplingSpend>)
      requires Valid()
      modifies this
      ensures Gives(ReadSpend(old(Rest())), r)
    {
      var cv :- Take(32);
      var nullifier :- Take(32);
      var rk :- Take(32);
      r := Some(SaplingSpend(cv, nullifier, rk));
    }

    method ShieldedOutput() returns (r: Option<SaplingOutput>)
      requires Valid()
      modifies this
      ensures Gives(ReadSaplingOutput(old(Rest())), r)
    {
      var cv :- Take(32);
      var cmu :- Take(32);
      var ephemeralKey :- Take(32);
      var enc :- Take(ENC_CIPHERTEXT_BYTES);
      var out :- Take(OUT_CIPHERTEXT_BYTES);
      r := Some(SaplingOutput(cv, cmu, ephemeralKey, enc, out));
    }

    method Action() returns (r: Option<OrchardAction>)
      requires Valid()
      modifies this
      ensures Gives(ReadAction(old(Rest())), r)
    {
      var cv :- Take(32);
      var nullifier :- Take(32);
      var rk :- Take(32);
      var cmx :- Take(32);
      var ephemeralKey :- Take(32);
      var enc :- Take(ENC_CIPHERTEXT_BYTES);
      var out :- Take(OUT_CIPHERTEXT_BYTES);
      r := Some(OrchardAction(cv, nullifier, rk, cmx, ephemeralKey, enc, out));
    }

    method Inputs(count: nat) returns (r: Option<seq<TxInput>>)
      requires Valid()
      modifies this
      ensures Gives(ReadN(ReadInput(false), count, old(Rest())), r)
    {
      ghost var s := Rest();
      var inputs: seq<TxInput> := [];
      for i := 0 to count
        invariant Valid() && ReadN(ReadInput(false), i, s) == Ok(inputs, Rest())
      {
        ReadNNext(ReadInput(false), i, count, s, inputs, Rest());
        var x := Input();
        if x.None? { return None; }
        inputs := inputs + [x.value];
      }
      r := Some(inputs);
    }

    method Outputs(count: nat) returns (r: Option<seq<TxOutput>>)
      requires Valid()
      modifies this
      ensures Gives(ReadN(ReadOutput(false), count, old(Rest())), r)
    {
      ghost var s := Rest();
      var outputs: seq<TxOutput> := [];
      for i := 0 to count
        invariant Valid() && ReadN(ReadOutput(false), i, s) == Ok(outputs, Rest())
      {
        ReadNNext(ReadOutput(false), i, count, s, outputs, Rest());
        var x := Output();
        if x.None? { return None; }
        outputs := outputs + [x.value];
      }
      r := Some(outputs);
    }

    method TransparentParts() returns (r: Option<Transparent>)
      requires Valid()
      modifies this
      ensures Gives(ReadTransparent(false, old(Rest())), r)
    {
      var inputCount :- CompactSize();
      var inputs :- Inputs(inputCount);
      var outputCount :- CompactSize();
      var outputs :- Outputs(outputCount);
      r := Some(Transparent(inputs, outputs));
    }

    method SaplingTail(spends: seq<SaplingSpend>, outputs: seq<SaplingOutput>) returns (r: Option<SaplingBundle>)
      requires Valid()
      modifies this
      ensures Gives(ReadSaplingTail(spends, outputs, old(Rest())), r)
    {
      var valueBalance :- I64();
      var anchor := None;
      if |spends| > 0 {
        anchor := Take(32);
        if anchor == None { return None; }
      }
      var spendProofs :- Repeat(|spends|, SPEND_PROOF_BYTES);
      var spendAuthSigs :- Repeat(|spends|, REDJUBJUB_SIG_BYTES);
      var outputProofs :- Repeat(|outputs|, OUTPUT_PROOF_BYTES);
      var bindingSig :- Take(REDJUBJUB_SIG_BYTES);
      r := Some(SaplingBundle(spends, outputs, valueBalance, anchor, spendProofs, spendAuthSigs, outputProofs,
                              Some(bindingSig)));
    }

    method Sapling() returns (r: Option<Option<SaplingBundle>>)
      requires Valid()
      modifies this
      ensures Gives(ReadSapling(false, old(Rest())), r)
    {
      var spendCount :- CompactSize();
      ghost var s1 := Rest();
      var spends: seq<SaplingSpend> := [];
      for i := 0 to spendCount
        invariant Valid() && ReadN(ReadSpend, i, s1) == Ok(spends, Rest())
      {
        ReadNNext(ReadSpend, i, spendCount, s1, spends, Rest());
        var x :- Spend();
        spends := spends + [x];
      }
      var outputCount :- CompactSize();
      ghost var s2 := Rest();
      var outputs: seq<SaplingOutput> := [];
      for i := 0 to outputCount
        invariant Valid() && ReadN(ReadSaplingOutput, i, s2) == Ok(outputs, Rest())
      {
        ReadNNext(ReadSaplingOutput, i, outputCount, s2, outputs, Rest());
        var x :- ShieldedOutput();
        outputs := outputs + [x];
      }
      if spendCount == 0 && outputCount == 0 { return Some(None); }
      var bundle :- SaplingTail(spends, outputs);
      r := Some(Some(bundle));
    }

    method Orchard() returns (r: Option<Option<OrchardBundle>>)
      requires Valid()
      modifies this
      ensures Gives(ReadOrchard(false, old(Rest())), r)
    {
      var actionCount :- CompactSize();
      if actionCount == 0 { return Some(None); }
      ghost var s1 := Rest();
      var actions: seq<OrchardAction> := [];
      for i := 0 to actionCount
        invariant Valid() && ReadN(ReadAction, i, s1) == Ok(actions, Rest())
      {
        ReadNNext(ReadAction, i, actionCount, s1, actions, Rest());
        var x :- Action();
        actions := actions + [x];
      }
      var flags :- U8();
      var valueBalance :- I64();
      var anchor :- Take(32);
      var proofs :- VarBytes();
      var spendAuthSigs :- Repeat(actionCount, REDJUBJUB_SIG_BYTES);
      var bindingSig :- Take(REDJUBJUB_SIG_BYTES);
      r := Some(Some(OrchardBundle(actions, flags, valueBalance, anchor, proofs, spendAuthSigs, bindingSig)));
    }

    method HeaderFields() returns (r: Option<Header>)
      requires Valid()
      modifies this
      ensures Gives(ReadHeader(old(Rest())), r)
    {
      var header :- U32();
      if header < OVERWINTERED_FLAG || header - OVERWINTERED_FLAG != TX_VERSION_V5 { return None; }
      var group :- U32();
      if group != VERSION_GROUP_ID_V5 { return None; }
      var branch :- U32();
      var lockTime :- U32();
      var expiry :- U32();
      r := Some(Header(branch, lockTime, expiry));
    }

    method WholeTransaction() returns (r: Option<TransactionV5>)
      requires Valid()
      modifies this
      ensures Gives(ReadTransaction(false, old(Rest())), r)
    {
      var h :- HeaderFields();
      var t :- TransparentParts();
      var sapling :- Sapling();
      var orchard :- Orchard();
      r := Some(TransactionV5(TX_VERSION_V5, VERSION_GROUP_ID_V5, h.consensusBranchId, h.lockTime, h.expiryHeight,
                              t.inputs, t.outputs, sapling, orchard));
    }
  }

  lemma Low16(b: Bytes)
    requires |b| == 2
    ensures FromLittleEndian(b) == b[0] as int + 256 * b[1] as int
  {
    assert FromLittleEndian(b[1..]) == b[1] as int + 256 * FromLittleEndian(b[1..][1..]);
  }

  /** Refuses trailing bytes and every other version. */
  method ParseTransaction(raw: Bytes) returns (r: Option<TransactionV5>)
    ensures r == Transaction.ParseTransaction(raw)
  {
    var reader := new Reader(raw);
    var tx := reader.WholeTransaction();
    if tx.None? || reader.offset != |reader.bytes| { return None; }
    r := tx;
  }
}
