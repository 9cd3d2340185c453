/** BLAKE2b's streaming buffer, against the one-shot definition of RFC 7693 section 3.3. */
module Blake2b {
  import opened Bytes

  const BLOCK_BYTES := 128

  type Bytes64 = b: Bytes | |b| == 64 witness Zeros(64)

  /** The parts RFC 7693 gives as word arithmetic: the initial state from the 64-byte parameter block, the
      compression function of a state, a block, the offset counter and the final flag, and the state's bytes. */
  datatype Core<!S> = Core(start: Bytes64 -> S, compress: (S, Bytes, nat, bool) -> S, output: S -> Bytes64)

  datatype Options = Options(digestLength: int, personal: Bytes, salt: Bytes, key: Bytes)

  predicate OptionsOk(o: Options) {
    1 <= o.digestLength <= 64 && |o.key| <= 64 && |o.salt| <= 16 && |o.personal| <= 16
  }

  function Padded(b: Bytes, width: nat): (r: Bytes)
    requires |b| <= width
    ensures |r| == width
  {
    b + Zeros(width - |b|)
  }

  /** Length, key length, fanout 1, depth 1, zeros, then salt and personalization. */
  function ParameterBlock(o: Options): Bytes64
    requires OptionsOk(o)
  {
    [o.digestLength, |o.key|, 1, 1] + Zeros(28) + Padded(o.salt, 16) + Padded(o.personal, 16)
  }

  /** Byte by byte, as section 2.5 of RFC 7693 and the BLAKE2 parameter block lay it out: digest length, key length,
      fanout and depth one, 28 zeros, then 16 bytes of salt and 16 of personalization, each padded with zeros. */
  lemma ParameterLayout(o: Options, i: nat)
    requires OptionsOk(o) && i < 64
    ensures ParameterBlock(o)[i] ==
            if i == 0 then o.digestLength else if i == 1 then |o.key| else if i < 4 then 1
            else if 32 <= i < 32 + |o.salt| then o.salt[i - 32]
            else if 48 <= i < 48 + |o.personal| then o.personal[i - 48]
            else 0
  {
    var head: Bytes := [o.digestLength, |o.key|, 1, 1];
    var block, left := ParameterBlock(o), head + Zeros(28);
    assert block[..32] == left && block[32..48] == Padded(o.salt, 16) && block[48..] == Padded(o.personal, 16);
    if i < 32 {
      assert block[i] == left[i];
    } else if i < 48 {
      assert block[i] == block[32..48][i - 32];
    } else {
      assert block[i] == block[48..][i - 48];
    }
  }

  /** Hashes of one length without key or salt start from different blocks exactly if their 16-byte personalizations
      differ: what separates one digest of a transaction from another. */
  lemma PersonalizationsSeparate(length: int, a: Bytes, b: Bytes)
    requires 1 <= length <= 64 && |a| == |b| == 16
    ensures ParameterBlock(Options(length, a, [], [])) == ParameterBlock(Options(length, b, [], [])) <==> a == b
  {
    var x, y := ParameterBlock(Options(length, a, [], [])), ParameterBlock(Options(length, b, [], []));
    if x == y {
      forall i | 0 <= i < 16 ensures a[i] == b[i] {
        ParameterLayout(Options(length, a, [], []), 48 + i);
        ParameterLayout(Options(length, b, [], []), 48 + i);
      }
    }
  }

  /** A key is absorbed as a block of its own before the message. */
  function KeyBlock(o: Options): Bytes
    requires OptionsOk(o)
  {
    if o.key == [] then [] else Padded(o.key, BLOCK_BYTES)
  }

  /* ---------- the one-shot definition ---------- */

  /** The state after the first k blocks of m, none of them final: block i counts the bytes through it. */
  function Absorb<S(!new)>(core: Core<S>, h: S, m: Bytes, k: nat): S
    requires BLOCK_BYTES * k <= |m|
  {
    if k == 0 then h
    else core.compress(Absorb(core, h, m, k - 1), m[BLOCK_BYTES * (k - 1)..BLOCK_BYTES * k], BLOCK_BYTES * k, false)
  }

  /** The blocks before the last one; an empty message is one empty block. */
  function FullBlocks(m: Bytes): (k: nat)
    ensures BLOCK_BYTES * k <= |m| <= BLOCK_BYTES * k + BLOCK_BYTES
    ensures m != [] ==> BLOCK_BYTES * k < |m|
  {
    if m == [] then 0 else (|m| - 1) / BLOCK_BYTES
  }

  /** Zero-pads the last block, and counts and flags it as the end. */
  function Final<S(!new)>(core: Core<S>, h: S, m: Bytes): Bytes64 {
    var k := FullBlocks(m);
    core.output(core.compress(Absorb(core, h, m, k), Padded(m[BLOCK_BYTES * k..], BLOCK_BYTES), |m|, true))
  }

  function Rfc7693<S(!new)>(core: Core<S>, o: Options, message: Bytes): (r: Bytes)
    requires OptionsOk(o)
    ensures |r| == o.digestLength
  {
    Final(core, core.start(ParameterBlock(o)), KeyBlock(o) + message)[..o.digestLength]
  }

  lemma {:induction false} AbsorbPrefix<S(!new)>(core: Core<S>, h: S, m: Bytes, more: Bytes, k: nat)
    requires BLOCK_BYTES * k <= |m|
    ensures Absorb(core, h, m + more, k) == Absorb(core, h, m, k)
  {
    if k > 0 {
      AbsorbPrefix(core, h, m, more, k - 1);
      var lo, hi := BLOCK_BYTES * (k - 1), BLOCK_BYTES * k;
      assert (m + more)[lo..hi] == m[lo..hi];
    }
  }

  lemma Joined(a: Bytes, b: Bytes, c: Bytes)
    ensures a + b + c == a + (b + c)
  {
  }

  /* ---------- the streaming form ---------- */

  class Hasher<S(!new)> {
    const core: Core<S>
    const digestLength: nat
    const block: array<Byte>
    var h: S
    var blockLength: nat
    /** Bytes absorbed, including the buffered ones. */
    var counter: nat
    var finished: bool
    /** The initial state, everything absorbed so far, and how many of its blocks are compressed. */
    ghost const start: S
    ghost var absorbed: Bytes
    ghost var compressed: nat

    ghost predicate Tracks()
      reads this, block
    {
      && block.Length == BLOCK_BYTES && blockLength <= BLOCK_BYTES && digestLength <= 64
      && counter == |absorbed| == BLOCK_BYTES * compressed + blockLength
      && h == Absorb(core, start, absorbed, compressed)
      && block[..blockLength] == absorbed[BLOCK_BYTES * compressed..]
    }

    /** Between calls a full block is held back until more arrives. */
    ghost predicate Valid()
      reads this, block
    {
      Tracks() && (absorbed != [] ==> blockLength > 0)
    }

    constructor (core: Core<S>, o: Options)
      requires OptionsOk(o)
      ensures Valid() && fresh(block) && !finished
      ensures this.core == core && digestLength == o.digestLength && start == core.start(ParameterBlock(o))
      ensures absorbed == KeyBlock(o)
    {
      this.core := core;
      digestLength := o.digestLength;
      block := new Byte[BLOCK_BYTES](_ => 0);
      h := core.start(ParameterBlock(o));
      start := core.start(ParameterBlock(o));
      blockLength, counter, finished := 0, 0, false;
      absorbed, compressed := [], 0;
      new;
      if |o.key| > 0 {
        var ok := Update(Padded(o.key, BLOCK_BYTES));
      }
    }

    /** Refuses after the digest was taken. */
    method Update(input: Bytes) returns (ok: bool)
      requires Valid()
      modifies this, block
      ensures Valid() && finished == old(finished) && ok == !finished
      ensures absorbed == if finished then old(absorbed) else old(absorbed) + input
    {
      if finished { return false; }
      var offset := 0;
      ghost var before := absorbed;
      while offset < |input|
        invariant 0 <= offset <= |input| && Valid() && !finished
        invariant absorbed == before + input[..offset]
      {
        var take := Fill(input[offset..]);
        assert input[..offset + take] == input[..offset] + input[offset..][..take];
        offset := offset + take;
      }
      assert input[..offset] == input;
      return true;
    }

    /** One turn of the loop: makes room if the block is full, and buffers what fits. */
    method Fill(input: Bytes) returns (take: nat)
      requires Valid() && input != []
      modifies this, block
      ensures Valid() && finished == old(finished)
      ensures 0 < take <= |input| && absorbed == old(absorbed) + input[..take]
    {
      if blockLength == BLOCK_BYTES { Flush(); }
      var room := BLOCK_BYTES - blockLength;
      take := if room < |input| then room else |input|;
      Buffer(input[..take]);
    }

    /** Compresses the held block, not as the last one. */
    method Flush()
      requires Tracks() && blockLength == BLOCK_BYTES
      modifies this
      ensures Tracks() && blockLength == 0
      ensures absorbed == old(absorbed) && finished == old(finished)
    {
      assert block[..] == block[..BLOCK_BYTES];
      assert absorbed[BLOCK_BYTES * compressed..BLOCK_BYTES * (compressed + 1)] == block[..];
      h := core.compress(h, block[..], counter, false);
      blockLength := 0;
      compressed := compressed + 1;
    }

    /** Appends to the buffer what fits in it. */
    method Buffer(part: Bytes)
      requires Tracks() && 0 < |part| && blockLength + |part| <= BLOCK_BYTES
      modifies this, block
      ensures Valid() && finished == old(finished) && absorbed == old(absorbed) + part
    {
      CopyInto(block, blockLength, part);
      blockLength := blockLength + |part|;
      counter := counter + |part|;
      AbsorbPrefix(core, start, absorbed, part, compressed);
      absorbed := absorbed + part;
    }

    /** Any number of updates amounts to one with everything joined. */
    method UpdateAll(parts: seq<Bytes>)
      requires Valid() && !finished
      modifies this, block
      ensures Valid() && !finished && absorbed == old(absorbed) + Concat(parts)
      decreases |parts|
    {
      if parts == [] { return; }
      ghost var before := absorbed;
      var ok := Update(parts[0]);
      UpdateAll(parts[1..]);
      Joined(before, parts[0], Concat(parts[1..]));
    }

    /** None after the first call. */
    method Digest() returns (out: Option<Bytes>)
      requires Valid()
      modifies this, block
      ensures finished && absorbed == old(absorbed)
      ensures out == if old(finished) then None else Some(Final(core, start, absorbed)[..digestLength])
    {
      if finished { return None; }
      finished := true;
      CopyInto(block, blockLength, Zeros(BLOCK_BYTES - blockLength));
      assert FullBlocks(absorbed) == compressed;
      assert block[..] == Padded(absorbed[BLOCK_BYTES * compressed..], BLOCK_BYTES);
      h := core.compress(h, block[..], counter, true);
      out := Some(core.output(h)[..digestLength]);
    }
  }

  /** However a message is split into updates, the digest is the one-shot hash of the whole; None for options
      out of range. */
  method Hash<S(!new)>(core: Core<S>, o: Options, parts: seq<Bytes>) returns (out: Option<Bytes>)
    ensures out == if OptionsOk(o) then Some(Rfc7693(core, o, Concat(parts))) else None
  {
    if !OptionsOk(o) { return None; }
    var hasher := new Hasher(core, o);
    hasher.UpdateAll(parts);
    out := hasher.Digest();
  }
}
