/** The inscription envelope, the reveal's scriptSig and the redeem script it satisfies. */
module Envelope {
  import opened Bytes

  const OP_0 := 0x00
  const OP_1 := 0x51
  const OP_2 := 0x52
  const OP_DROP := 0x75
  const OP_CHECKSIGVERIFY := 0xad
  const OP_PUSHDATA1 := 0x4c
  const OP_PUSHDATA2 := 0x4d
  const CHUNK_BYTES := 240
  const MAX_SCRIPT_ELEMENT_SIZE := 520
  const INSCRIPTION_DROPS := 8

  /** "ord" */
  const MAGIC: Bytes := [0x6f, 0x72, 0x64]

  /* ---------- writing ---------- */

  /** The source throws above the two-byte push length. */
  predicate Pushable(b: Bytes) { |b| <= 0xffff }

  function PushData(b: Bytes): (r: Bytes)
    requires Pushable(b)
    ensures |r| <= |b| + 3
  {
    if |b| < 0x4c then [|b|] + b
    else if |b| <= 0xff then [OP_PUSHDATA1, |b|] + b
    else [OP_PUSHDATA2, |b| % 256, |b| / 256] + b
  }

  function Front(body: Bytes): nat { if |body| <= CHUNK_BYTES then |body| else CHUNK_BYTES }

  /** The body in 240-byte pushes, each behind its tag. */
  function Chunks(body: Bytes, tag: Byte): Bytes {
    if body == [] then []
    else [tag] + (PushData(body[..Front(body)]) + Chunks(body[Front(body)..], OP_0))
  }

  function EncodeEnvelope(contentType: Bytes, body: Bytes): Bytes
    requires Pushable(contentType)
  {
    PushData(MAGIC) + ([OP_2] + (PushData(contentType) + Chunks(body, OP_1)))
  }

  /** None unless the key is compressed and the commitment 32 bytes. */
  function InscriptionRedeemScript(publicKey: Bytes, commitment: Bytes): Option<Bytes> {
    if |publicKey| != 33 || |commitment| != 32 then None
    else Some(PushData(publicKey) + ([OP_CHECKSIGVERIFY] + (PushData(commitment)
              + (Drops(INSCRIPTION_DROPS) + [OP_1]))))
  }

  function Drops(n: nat): (r: Bytes)
    ensures |r| == n
  {
    if n == 0 then [] else [OP_DROP] + Drops(n - 1)
  }

  function InscriptionScriptSig(envelope: Bytes, signature: Bytes, redeemScript: Bytes): Option<Bytes> {
    if |redeemScript| > MAX_SCRIPT_ELEMENT_SIZE || !Pushable(signature) then None
    else Some(envelope + (PushData(signature) + PushData(redeemScript)))
  }

  /* ---------- reading ---------- */

  datatype Item = Op(opcode: Byte) | Data(bytes: Bytes)

  /** How many bytes the opcode at the front announces and how long its header is; None for a bare opcode. */
  function PushHeader(s: Bytes): Option<(nat, nat)>
    requires s != []
  {
    if 0x01 <= s[0] <= 0x4b then Some((s[0], 1))
    else if s[0] == OP_PUSHDATA1 && |s| > 1 then Some((s[1], 2))
    else if s[0] == OP_PUSHDATA2 then
      Some(((if |s| > 1 then s[1] as int else 0) + (if |s| > 2 then 256 * s[2] as int else 0), 3))
    else None
  }

  /** Pushes and bare opcodes; stops at a truncated push. A PUSHDATA1 that ends the script has no length to
      compare, and yields an empty push. */
  function ParseScript(s: Bytes): seq<Item> {
    if s == [] then []
    else if s == [OP_PUSHDATA1] then [Data([])]
    else match PushHeader(s)
      case None => [Op(s[0])] + ParseScript(s[1..])
      case Some((n, header)) =>
        if header + n > |s| then [] else [Data(s[header..header + n])] + ParseScript(s[header + n..])
  }

  datatype Reading = Nothing | ContentType | Body
  datatype DecodedEnvelope = DecodedEnvelope(contentType: Bytes, body: Bytes)
  datatype Scan = Scan(reading: Reading, contentType: Bytes, chunks: seq<Bytes>)

  /** The text "ord", with or without the byte order mark a UTF-8 decoder removes. */
  predicate IsMagic(item: Item) {
    item.Data? && (item.bytes == MAGIC || item.bytes == [0xef, 0xbb, 0xbf] + MAGIC)
  }

  function Absorb(scan: Scan, item: Item): Scan {
    if item == Op(OP_2) then scan.(reading := ContentType)
    else if item == Op(OP_1) || item == Op(OP_0) then scan.(reading := Body)
    else if item.Op? then scan
    else match scan.reading
      case ContentType => Scan(Nothing, item.bytes, scan.chunks)
      case Body => Scan(Nothing, scan.contentType, scan.chunks + [item.bytes])
      case Nothing => scan
  }

  function AbsorbAll(scan: Scan, items: seq<Item>): Scan
    decreases |items|
  {
    if items == [] then scan else AbsorbAll(Absorb(scan, items[0]), items[1..])
  }

  function AfterMagic(items: seq<Item>): Option<seq<Item>> {
    if items == [] then None
    else if IsMagic(items[0]) then Some(items[1..])
    else AfterMagic(items[1..])
  }

  function DecodeEnvelope(script: Bytes): Option<DecodedEnvelope> { DecodeItems(ParseScript(script)) }

  function DecodeItems(all: seq<Item>): Option<DecodedEnvelope> {
    match AfterMagic(all)
    case None => None
    case Some(items) =>
      var scan := AbsorbAll(Scan(Nothing, [], []), items);
      if scan.chunks == [] then None else Some(DecodedEnvelope(scan.contentType, Concat(scan.chunks)))
  }

  /* ---------- the loops ---------- */

  lemma {:induction false} ChunksAppend(body: Bytes, at: nat, tag: Byte)
    requires at < |body|
    ensures var next := at + Front(body[at..]);
            next <= |body|
            && Chunks(body[at..], tag) == [tag] + (PushData(body[at..next]) + Chunks(body[next..], OP_0))
  {
    var next := at + Front(body[at..]);
    assert body[at..][..Front(body[at..])] == body[at..next];
    assert body[at..][Front(body[at..])..] == body[next..];
  }

  /** `concatBytes`: fills a buffer of the total size part by part. */
  method ConcatBytes(parts: seq<Bytes>) returns (out: array<Byte>)
    ensures fresh(out) && out[..] == Concat(parts)
  {
    var n := 0;
    for i := 0 to |parts|
      invariant n == |Concat(parts[..i])|
    {
      ConcatOne(parts, i);
      n := n + |parts[i]|;
    }
    assert parts[..|parts|] == parts;
    out := new Byte[n];
    var offset := 0;
    for i := 0 to |parts|
      invariant offset == |Concat(parts[..i])| <= n && out[..offset] == Concat(parts[..i])
    {
      ConcatOne(parts, i);
      ConcatPrefix(parts, i + 1);
      CopyInto(out, offset, parts[i]);
      offset := offset + |parts[i]|;
    }
  }

  lemma ConcatPrefix(parts: seq<Bytes>, i: nat)
    requires i <= |parts|
    ensures |Concat(parts[..i])| <= |Concat(parts)|
  {
    assert parts == parts[..i] + parts[i..];
    ConcatAppend(parts[..i], parts[i..]);
  }

  lemma ConcatPair(parts: seq<Bytes>, a: Bytes, b: Bytes)
    ensures Concat(parts + [a, b]) == Concat(parts) + (a + b)
  {
    ConcatAppend(parts, [a, b]);
    assert Concat([b]) == b;
  }

  lemma Regroup(a: Bytes, b: Bytes, c: Bytes, d: Bytes)
    ensures a + (b + c) + d == a + (b + (c + d))
  {
  }

  lemma ConcatThree(a: Bytes, b: Bytes, c: Bytes)
    ensures Concat([a, b, c]) == a + (b + c)
  {
    ConcatPair([a], b, c);
    assert [a] + [b, c] == [a, b, c] && Concat([a]) == a;
  }

  /** One turn of the writing loop. */
  lemma ChunkTurn(parts: seq<Bytes>, body: Bytes, at: nat, tag: Byte, next: nat, chunk: Bytes, all: Bytes)
    requires at < |body| && next == at + Front(body[at..]) && chunk == PushData(body[at..next])
    requires Concat(parts) + Chunks(body[at..], tag) == all
    ensures Concat(parts + [[tag], chunk]) + Chunks(body[next..], OP_0) == all
  {
    ChunksAppend(body, at, tag);
    ConcatPair(parts, [tag], chunk);
    Regroup(Concat(parts), [tag], chunk, Chunks(body[next..], OP_0));
  }

  lemma EnvelopeStart(contentType: Bytes, body: Bytes)
    requires Pushable(contentType)
    ensures Concat([PushData(MAGIC), [OP_2], PushData(contentType)]) + Chunks(body, OP_1)
            == EncodeEnvelope(contentType, body)
  {
    ConcatThree(PushData(MAGIC), [OP_2], PushData(contentType));
    Regroup(PushData(MAGIC), [OP_2], PushData(contentType), Chunks(body, OP_1));
  }

  method WriteEnvelope(contentType: Bytes, body: Bytes) returns (out: array<Byte>)
    requires Pushable(contentType)
    ensures fresh(out) && out[..] == EncodeEnvelope(contentType, body)
  {
    var parts: seq<Bytes> := [PushData(MAGIC), [OP_2], PushData(contentType)];
    var offset := 0;
    ghost var all := EncodeEnvelope(contentType, body);
    EnvelopeStart(contentType, body);
    assert body[0..] == body;
    while offset < |body|
      invariant 0 <= offset <= |body|
      invariant Concat(parts) + Chunks(body[offset..], if offset == 0 then OP_1 else OP_0) == all
    {
      var tag: Byte := if offset == 0 then OP_1 else OP_0;
      var next := if offset + CHUNK_BYTES < |body| then offset + CHUNK_BYTES else |body|;
      var chunk := PushData(body[offset..next]);
      ChunkTurn(parts, body, offset, tag, next, chunk, all);
      parts := parts + [[tag], chunk];
      offset := next;
    }
    out := ConcatBytes(parts);
  }

  /** One turn of the reading loop, on a script cut at the cursor. */
  lemma ParseTurn(script: Bytes, offset: nat, length: nat, header: nat)
    requires offset < |script| && PushHeader(script[offset..]) == Some((length, header)) && header > 0
    requires script[offset..] != [OP_PUSHDATA1]
    ensures var end := offset + header + length;
            ParseScript(script[offset..])
            == if end > |script| then [] else [Data(script[offset + header..end])] + ParseScript(script[end..])
  {
    var s := script[offset..];
    if header + length <= |s| {
      Within(script, offset, header, header + length);
    }
  }

  lemma Within(s: Bytes, offset: nat, lo: nat, hi: nat)
    requires lo <= hi && offset + hi <= |s|
    ensures s[offset..][lo..hi] == s[offset + lo..offset + hi] && s[offset..][hi..] == s[offset + hi..]
  {
  }

  lemma ParseBare(script: Bytes, offset: nat)
    requires offset < |script| && PushHeader(script[offset..]).None? && script[offset..] != [OP_PUSHDATA1]
    ensures ParseScript(script[offset..]) == [Op(script[offset])] + ParseScript(script[offset + 1..])
  {
    assert script[offset..][1..] == script[offset + 1..];
  }

  lemma ParseLone(script: Bytes, offset: nat)
    requires offset + 1 == |script| && script[offset] == OP_PUSHDATA1
    ensures ParseScript(script[offset..]) == [Data([])] + ParseScript(script[|script|..])
  {
    assert script[offset..] == [OP_PUSHDATA1] && script[|script|..] == [];
    assert [Data([])] + [] == [Data([])];
  }

  method ReadPushHeader(script: Bytes, offset: nat) returns (r: Option<(nat, nat)>)
    requires offset < |script|
    ensures r == PushHeader(script[offset..])
  {
    var opcode := script[offset];
    if 0x01 <= opcode <= 0x4b { return Some((opcode, 1)); }
    if opcode == OP_PUSHDATA1 && offset + 1 < |script| { return Some((script[offset + 1], 2)); }
    if opcode == OP_PUSHDATA2 {
      var low: int := if offset + 1 < |script| then script[offset + 1] else 0;
      var high: int := if offset + 2 < |script| then script[offset + 2] else 0;
      return Some((low + 256 * high, 3));
    }
    return None;
  }

  /** The item at the cursor and where the next one starts; None where reading stops. */
  method ReadItem(script: Bytes, offset: nat) returns (item: Option<Item>, next: nat)
    requires offset < |script|
    ensures item.Some? ==> offset < next <= |script|
    ensures ParseScript(script[offset..])
            == if item.None? then [] else [item.value] + ParseScript(script[next..])
  {
    if script[offset] == OP_PUSHDATA1 && offset + 1 == |script| {
      ParseLone(script, offset);
      return Some(Data([])), |script|;
    }
    var announced := ReadPushHeader(script, offset);
    if announced.None? {
      ParseBare(script, offset);
      return Some(Op(script[offset])), offset + 1;
    }
    var (length, header) := announced.value;
    ParseTurn(script, offset, length, header);
    var start := offset + header;
    if start + length > |script| { return None, |script|; }
    return Some(Data(script[start..start + length])), start + length;
  }

  method ReadScript(script: Bytes) returns (items: seq<Item>)
    ensures items == ParseScript(script)
  {
    items := [];
    var offset := 0;
    ghost var all := ParseScript(script);
    assert script[0..] == script;
    while offset < |script|
      invariant 0 <= offset <= |script|
      invariant items + ParseScript(script[offset..]) == all
    {
      var item, next := ReadItem(script, offset);
      if item.None? { return; }
      items := items + [item.value];
      offset := next;
    }
  }

  method ReadEnvelope(script: Bytes) returns (r: Option<DecodedEnvelope>)
    ensures r == DecodeEnvelope(script)
  {
    var items := ReadScript(script);
    var start := 0;
    while start < |items| && !IsMagic(items[start])
      invariant 0 <= start <= |items|
      invariant AfterMagic(items[start..]) == AfterMagic(items)
    {
      start := start + 1;
    }
    if start == |items| { return None; }
    ghost var rest := items[start + 1..];
    var scan := Scan(Nothing, [], []);
    for i := start + 1 to |items|
      invariant AbsorbAll(scan, items[i..]) == AbsorbAll(Scan(Nothing, [], []), rest)
    {
      scan := Absorb(scan, items[i]);
    }
    if scan.chunks == [] { return None; }
    r := Some(DecodedEnvelope(scan.contentType, Concat(scan.chunks)));
  }

  /* ---------- reading back what was written ---------- */

  /** A push reads back as its data, except that an empty one is the opcode zero. */
  function Pushed(b: Bytes): Item { if b == [] then Op(OP_0) else Data(b) }

  lemma ParsePush(b: Bytes, rest: Bytes)
    requires Pushable(b)
    ensures ParseScript(PushData(b) + rest) == [Pushed(b)] + ParseScript(rest)
  {
    var n := |b|;
    var header: Bytes :=
      if n < 0x4c then [n] else if n <= 0xff then [OP_PUSHDATA1, n] else [OP_PUSHDATA2, n % 256, n / 256];
    Associative(header, b, rest);
    if b == [] {
      assert [] + rest == rest;
      ParseOp(OP_0, rest);
    } else {
      HeaderAnnounces(n, header, b + rest);
      ParseAfterHeader(header, b, rest);
    }
  }

  lemma HeaderAnnounces(n: nat, header: Bytes, tail: Bytes)
    requires 0 < n <= 0xffff
    requires header == if n < 0x4c then [n] else if n <= 0xff then [OP_PUSHDATA1, n]
                       else [OP_PUSHDATA2, n % 256, n / 256]
    ensures PushHeader(header + tail) == Some((n, |header|))
  {
  }

  lemma ParseAfterHeader(header: Bytes, b: Bytes, rest: Bytes)
    requires header != [] && b != [] && PushHeader(header + (b + rest)) == Some((|b|, |header|))
    ensures ParseScript(header + (b + rest)) == [Data(b)] + ParseScript(rest)
  {
    var s := header + (b + rest);
    assert s[|header|..|header| + |b|] == b && s[|header| + |b|..] == rest;
  }

  lemma ParseOp(op: Byte, rest: Bytes)
    requires op == 0 || op > OP_PUSHDATA2
    ensures ParseScript([op] + rest) == [Op(op)] + ParseScript(rest)
  {
    assert ([op] + rest)[1..] == rest;
  }

  function ChunkList(body: Bytes): seq<Bytes> {
    if body == [] then [] else [body[..Front(body)]] + ChunkList(body[Front(body)..])
  }

  lemma {:induction false} ChunkListJoins(body: Bytes)
    ensures Concat(ChunkList(body)) == body
    ensures |ChunkList(body)| == (|body| + CHUNK_BYTES - 1) / CHUNK_BYTES
  {
    if body != [] {
      ChunkListJoins(body[Front(body)..]);
    }
  }

  function TaggedItems(chunks: seq<Bytes>, tag: Byte): seq<Item> {
    if chunks == [] then [] else [Op(tag), Data(chunks[0])] + TaggedItems(chunks[1..], OP_0)
  }

  lemma {:induction false} ParseChunks(body: Bytes, tag: Byte, rest: Bytes)
    requires tag == OP_0 || tag == OP_1
    ensures ParseScript(Chunks(body, tag) + rest) == TaggedItems(ChunkList(body), tag) + ParseScript(rest)
  {
    if body == [] {
      assert Chunks(body, tag) + rest == rest;
    } else {
      var k := Front(body);
      var more := Chunks(body[k..], OP_0) + rest;
      var push := PushData(body[..k]);
      assert Chunks(body, tag) + rest == [tag] + (push + more);
      ParseTagged(tag, body[..k], more);
      ParseChunks(body[k..], OP_0, rest);
      TaggedNext(body[..k], ChunkList(body[k..]), tag, ParseScript(rest));
    }
  }

  lemma ParseTagged(tag: Byte, b: Bytes, more: Bytes)
    requires (tag == OP_0 || tag == OP_1) && b != [] && Pushable(b)
    ensures ParseScript([tag] + (PushData(b) + more)) == [Op(tag), Data(b)] + ParseScript(more)
  {
    ParseOp(tag, PushData(b) + more);
    ParsePush(b, more);
  }

  lemma TaggedNext(b: Bytes, chunks: seq<Bytes>, tag: Byte, rest: seq<Item>)
    ensures [Op(tag), Data(b)] + (TaggedItems(chunks, OP_0) + rest) == TaggedItems([b] + chunks, tag) + rest
  {
    assert ([b] + chunks)[1..] == chunks;
  }

  function EnvelopeItems(contentType: Bytes, body: Bytes): seq<Item> {
    [Data(MAGIC), Op(OP_2), Pushed(contentType)] + TaggedItems(ChunkList(body), OP_1)
  }

  lemma ParseEnvelope(contentType: Bytes, body: Bytes, rest: Bytes)
    requires Pushable(contentType)
    ensures ParseScript(EncodeEnvelope(contentType, body) + rest)
            == EnvelopeItems(contentType, body) + ParseScript(rest)
  {
    var chunks := Chunks(body, OP_1);
    FourParts(PushData(MAGIC), [OP_2], PushData(contentType), chunks, rest);
    ParseHead(contentType, chunks + rest);
    ParseChunks(body, OP_1, rest);
    Associative([Data(MAGIC), Op(OP_2), Pushed(contentType)], TaggedItems(ChunkList(body), OP_1), ParseScript(rest));
  }

  lemma FourParts(a: Bytes, b: Bytes, c: Bytes, d: Bytes, e: Bytes)
    ensures a + (b + (c + d)) + e == a + (b + (c + (d + e)))
  {
  }

  lemma ParseHead(contentType: Bytes, rest: Bytes)
    requires Pushable(contentType)
    ensures ParseScript(PushData(MAGIC) + ([OP_2] + (PushData(contentType) + rest)))
            == [Data(MAGIC), Op(OP_2), Pushed(contentType)] + ParseScript(rest)
  {
    var s2 := PushData(contentType) + rest;
    var items := ParseScript(rest);
    ParsePush(contentType, rest);
    ParseOp(OP_2, s2);
    ParsePush(MAGIC, [OP_2] + s2);
    assert [Data(MAGIC)] + ([Op(OP_2)] + ([Pushed(contentType)] + items))
        == [Data(MAGIC), Op(OP_2), Pushed(contentType)] + items;
  }

  lemma {:induction false} AbsorbAppend(scan: Scan, a: seq<Item>, b: seq<Item>)
    ensures AbsorbAll(scan, a + b) == AbsorbAll(AbsorbAll(scan, a), b)
    decreases |a|
  {
    if a == [] {
      assert a + b == b;
    } else {
      assert (a + b)[1..] == a[1..] + b;
      AbsorbAppend(Absorb(scan, a[0]), a[1..], b);
    }
  }

  lemma {:induction false} AbsorbChunks(scan: Scan, chunks: seq<Bytes>, tag: Byte)
    requires scan.reading == Nothing && (tag == OP_0 || tag == OP_1)
    ensures AbsorbAll(scan, TaggedItems(chunks, tag)) == scan.(chunks := scan.chunks + chunks)
    decreases |chunks|
  {
    if chunks == [] {
      assert scan.chunks + chunks == scan.chunks;
    } else {
      var items := TaggedItems(chunks, tag);
      var next := Absorb(Absorb(scan, items[0]), items[1]);
      assert next == scan.(chunks := scan.chunks + [chunks[0]]);
      assert items[1..][1..] == TaggedItems(chunks[1..], OP_0);
      AbsorbChunks(next, chunks[1..], OP_0);
      assert scan.chunks + [chunks[0]] + chunks[1..] == scan.chunks + chunks;
    }
  }

  lemma AbsorbEnvelope(contentType: Bytes, body: Bytes)
    requires contentType != []
    ensures var items := EnvelopeItems(contentType, body);
            AbsorbAll(Scan(Nothing, [], []), items[1..]) == Scan(Nothing, contentType, ChunkList(body))
  {
    var items := EnvelopeItems(contentType, body);
    var tagged := TaggedItems(ChunkList(body), OP_1);
    assert items[1..][1..][1..] == tagged;
    var scan := Scan(Nothing, contentType, []);
    assert Absorb(Absorb(Scan(Nothing, [], []), items[1]), items[2]) == scan;
    assert AbsorbAll(Scan(Nothing, [], []), items[1..]) == AbsorbAll(scan, tagged);
    AbsorbChunks(scan, ChunkList(body), OP_1);
    assert [] + ChunkList(body) == ChunkList(body);
  }

  lemma ParseLast(signature: Bytes, redeemScript: Bytes)
    requires Pushable(signature) && Pushable(redeemScript)
    ensures ParseScript(PushData(signature) + PushData(redeemScript)) == [Pushed(signature), Pushed(redeemScript)]
  {
    ParsePush(signature, PushData(redeemScript));
    ParsePush(redeemScript, []);
    assert PushData(redeemScript) + [] == PushData(redeemScript);
  }

  /** Following the envelope with the signature and redeem script pushes leaves the body readable, exactly
      when there is a body and neither push is taken for one more chunk. */
  lemma EnvelopeRoundTrip(contentType: Bytes, body: Bytes, signature: Bytes, redeemScript: Bytes)
    requires contentType != [] && Pushable(contentType) && Pushable(signature) && Pushable(redeemScript)
    ensures DecodeEnvelope(EncodeEnvelope(contentType, body) + (PushData(signature) + PushData(redeemScript)))
            == Some(DecodedEnvelope(contentType, body))
            <==> body != [] && (signature != [] || redeemScript == [])
  {
    ParseEnvelope(contentType, body, PushData(signature) + PushData(redeemScript));
    ParseLast(signature, redeemScript);
    DecodeWithLast(contentType, body, Pushed(signature), Pushed(redeemScript));
    AbsorbLast(Scan(Nothing, contentType, ChunkList(body)), signature, redeemScript);
    ChunkListJoins(body);
    if signature == [] && redeemScript != [] { OneChunkMore(body, redeemScript); }
  }

  /** An empty signature push turns the redeem script into one more chunk. */
  lemma AbsorbLast(scan: Scan, signature: Bytes, redeemScript: Bytes)
    requires scan.reading == Nothing
    ensures var end := Absorb(Absorb(scan, Pushed(signature)), Pushed(redeemScript));
            && end.contentType == scan.contentType
            && end.chunks == if signature == [] && redeemScript != [] then scan.chunks + [redeemScript] else scan.chunks
  {
  }

  lemma OneChunkMore(body: Bytes, extra: Bytes)
    requires extra != []
    ensures Concat(ChunkList(body) + [extra]) != body
  {
    ConcatAppend(ChunkList(body), [extra]);
    ChunkListJoins(body);
    assert Concat([extra]) == extra;
  }

  /** What an envelope's items and two more decode to. */
  lemma DecodeWithLast(contentType: Bytes, body: Bytes, a: Item, b: Item)
    requires contentType != []
    ensures var end := Absorb(Absorb(Scan(Nothing, contentType, ChunkList(body)), a), b);
            DecodeItems(EnvelopeItems(contentType, body) + [a, b])
            == if end.chunks == [] then None else Some(DecodedEnvelope(end.contentType, Concat(end.chunks)))
  {
    var items, last := EnvelopeItems(contentType, body), [a, b];
    assert (items + last)[1..] == items[1..] + last;
    AbsorbEnvelope(contentType, body);
    AbsorbAppend(Scan(Nothing, [], []), items[1..], last);
    AbsorbTwo(Scan(Nothing, contentType, ChunkList(body)), a, b);
  }

  lemma AbsorbTwo(scan: Scan, a: Item, b: Item)
    ensures AbsorbAll(scan, [a, b]) == Absorb(Absorb(scan, a), b)
  {
    assert [a, b][1..] == [b] && [b][1..] == [];
    assert AbsorbAll(Absorb(scan, a), [b]) == AbsorbAll(Absorb(Absorb(scan, a), b), []);
  }

  /* ---------- redeem script ---------- */

  lemma {:induction false} ParseDrops(n: nat, rest: Bytes)
    ensures ParseScript(Drops(n) + rest) == seq(n, _ => Op(OP_DROP)) + ParseScript(rest)
  {
    if n == 0 {
      assert Drops(0) + rest == rest;
    } else {
      assert Drops(n) + rest == [OP_DROP] + (Drops(n - 1) + rest);
      ParseOp(OP_DROP, Drops(n - 1) + rest);
      ParseDrops(n - 1, rest);
    }
  }

  function RedeemItems(publicKey: Bytes, commitment: Bytes): seq<Item> {
    [Data(publicKey), Op(OP_CHECKSIGVERIFY), Data(commitment)] + (seq(INSCRIPTION_DROPS, _ => Op(OP_DROP)) + [Op(OP_1)])
  }

  lemma ParseRedeem(publicKey: Bytes, commitment: Bytes)
    requires |publicKey| == 33 && |commitment| == 32
    ensures ParseScript(InscriptionRedeemScript(publicKey, commitment).value) == RedeemItems(publicKey, commitment)
  {
    var s4: Bytes := [OP_1];
    var s3 := Drops(INSCRIPTION_DROPS) + s4;
    var s2 := PushData(commitment) + s3;
    var s1 := [OP_CHECKSIGVERIFY] + s2;
    ParsePush(publicKey, s1);
    ParseOp(OP_CHECKSIGVERIFY, s2);
    ParsePush(commitment, s3);
    ParseDrops(INSCRIPTION_DROPS, s4);
    assert ParseScript(s4) == [Op(OP_1)] by { ParseOp(OP_1, []); assert s4 + [] == s4; }
    ThreeThen(Data(publicKey), Op(OP_CHECKSIGVERIFY), Data(commitment), ParseScript(s3));
  }

  lemma ThreeThen(a: Item, b: Item, c: Item, rest: seq<Item>)
    ensures [a] + ([b] + ([c] + rest)) == [a, b, c] + rest
  {
  }

  datatype RevealScript = RevealScript(publicKey: Bytes, commitment: Bytes, drops: nat)

  /** The first push of the given length. */
  function FirstPush(items: seq<Item>, length: nat): Option<Bytes> {
    if items == [] then None
    else if items[0].Data? && |items[0].bytes| == length then Some(items[0].bytes)
    else FirstPush(items[1..], length)
  }

  function CountDrops(items: seq<Item>): nat {
    if items == [] then 0 else (if items[0] == Op(OP_DROP) then 1 else 0) + CountDrops(items[1..])
  }

  function DecodeRedeemScript(script: Bytes): Option<RevealScript> {
    var items := ParseScript(script);
    match (FirstPush(items, 33), FirstPush(items, 32))
    case (Some(key), Some(commitment)) => Some(RevealScript(key, commitment, CountDrops(items)))
    case (_, _) => None
  }

  lemma {:induction false} CountAllDrops(n: nat)
    ensures CountDrops(seq(n, _ => Op(OP_DROP)) + [Op(OP_1)]) == n
  {
    var items := seq(n, _ => Op(OP_DROP)) + [Op(OP_1)];
    if n > 0 {
      assert items[1..] == seq(n - 1, _ => Op(OP_DROP)) + [Op(OP_1)];
      CountAllDrops(n - 1);
    }
  }

  /** The redeem script names its key and commitment, and its eight drops. */
  lemma RedeemRoundTrip(publicKey: Bytes, commitment: Bytes)
    ensures var script := InscriptionRedeemScript(publicKey, commitment);
            script.Some? ==> DecodeRedeemScript(script.value) == Some(RevealScript(publicKey, commitment, 8))
  {
    if InscriptionRedeemScript(publicKey, commitment).Some? {
      ParseRedeem(publicKey, commitment);
      RedeemFields(publicKey, commitment, seq(INSCRIPTION_DROPS, _ => Op(OP_DROP)) + [Op(OP_1)]);
      CountAllDrops(INSCRIPTION_DROPS);
    }
  }

  lemma RedeemFields(publicKey: Bytes, commitment: Bytes, rest: seq<Item>)
    requires |publicKey| == 33 && |commitment| == 32
    ensures var items := [Data(publicKey), Op(OP_CHECKSIGVERIFY), Data(commitment)] + rest;
            FirstPush(items, 33) == Some(publicKey) && FirstPush(items, 32) == Some(commitment)
            && CountDrops(items) == CountDrops(rest)
  {
    var items := [Data(publicKey), Op(OP_CHECKSIGVERIFY), Data(commitment)] + rest;
    var a, b := items[1..], items[1..][1..];
    assert a == [Op(OP_CHECKSIGVERIFY), Data(commitment)] + rest && b == [Data(commitment)] + rest && b[1..] == rest;
    assert FirstPush(b, 32) == Some(commitment) && CountDrops(b) == CountDrops(rest);
    assert FirstPush(a, 32) == FirstPush(b, 32) && CountDrops(a) == CountDrops(b);
  }

  /* ---------- running the reveal ---------- */

  /** One step of the script machine, for the opcodes a reveal uses; the stack's top is its last item.
      None when the script fails. */
  function Run(item: Item, stack: seq<Bytes>, checkSig: (Bytes, Bytes) -> bool): Option<seq<Bytes>> {
    match item
    case Data(b) => if |b| > MAX_SCRIPT_ELEMENT_SIZE then None else Some(stack + [b])
    case Op(op) =>
      if op == OP_0 then Some(stack + [[]])
      else if op == OP_1 then Some(stack + [[1]])
      else if op == OP_2 then Some(stack + [[2]])
      else if op == OP_DROP then if stack == [] then None else Some(stack[..|stack| - 1])
      else if op == OP_CHECKSIGVERIFY then
        if |stack| < 2 || !checkSig(stack[|stack| - 1], stack[|stack| - 2]) then None
        else Some(stack[..|stack| - 2])
      else None
  }

  function RunAll(items: seq<Item>, stack: seq<Bytes>, checkSig: (Bytes, Bytes) -> bool): Option<seq<Bytes>> {
    if items == [] then Some(stack)
    else match Run(items[0], stack, checkSig)
      case None => None
      case Some(next) => RunAll(items[1..], next, checkSig)
  }

  /** BIP 16: the scriptSig runs, its top item must hash to the coin's script hash, and runs on the rest. */
  function SpendP2sh(scriptSig: Bytes, scriptHash: Bytes, hash160: Bytes -> Bytes, checkSig: (Bytes, Bytes) -> bool)
    : Option<seq<Bytes>>
  {
    match RunAll(ParseScript(scriptSig), [], checkSig)
    case None => None
    case Some(stack) =>
      if stack == [] || hash160(stack[|stack| - 1]) != scriptHash then None
      else RunAll(ParseScript(stack[|stack| - 1]), stack[..|stack| - 1], checkSig)
  }

  lemma {:induction false} RunAppend(a: seq<Item>, b: seq<Item>, stack: seq<Bytes>, checkSig: (Bytes, Bytes) -> bool)
    ensures RunAll(a + b, stack, checkSig)
            == match RunAll(a, stack, checkSig) case None => None case Some(mid) => RunAll(b, mid, checkSig)
  {
    if a == [] {
      assert a + b == b;
    } else {
      assert (a + b)[1..] == a[1..] + b;
      match Run(a[0], stack, checkSig)
      case None =>
      case Some(next) => RunAppend(a[1..], b, next, checkSig);
    }
  }

  /** Items that only push. */
  predicate PushOnly(items: seq<Item>) { forall i | 0 <= i < |items| :: Pushes(items[i]) }

  predicate Pushes(item: Item) {
    match item
    case Op(op) => op == OP_0 || op == OP_1 || op == OP_2
    case Data(b) => |b| <= MAX_SCRIPT_ELEMENT_SIZE
  }

  lemma {:induction false} RunPushes(items: seq<Item>, stack: seq<Bytes>, checkSig: (Bytes, Bytes) -> bool)
    requires PushOnly(items)
    ensures var r := RunAll(items, stack, checkSig);
            r.Some? && |r.value| == |stack| + |items| && r.value[..|stack|] == stack
  {
    if items != [] {
      var next := Run(items[0], stack, checkSig).value;
      assert next[..|stack|] == stack;
      RunPushes(items[1..], next, checkSig);
      var r := RunAll(items, stack, checkSig).value;
      assert r[..|stack|] == r[..|next|][..|stack|];
    }
  }

  lemma {:induction false} RunDrops(n: nat, stack: seq<Bytes>, checkSig: (Bytes, Bytes) -> bool)
    ensures RunAll(seq(n, _ => Op(OP_DROP)), stack, checkSig)
            == if n <= |stack| then Some(stack[..|stack| - n]) else None
  {
    var items := seq(n, _ => Op(OP_DROP));
    if n == 0 {
      assert items == [] && stack[..|stack|] == stack;
    } else if stack != [] {
      assert items[1..] == seq(n - 1, _ => Op(OP_DROP));
      var next := stack[..|stack| - 1];
      RunDrops(n - 1, next, checkSig);
      if n <= |stack| { assert next[..|next| - (n - 1)] == stack[..|stack| - n]; }
    }
  }

  /** The redeem script consumes the signature, then seven more items, and leaves a true value on top. */
  lemma RunRedeem(publicKey: Bytes, commitment: Bytes, below: seq<Bytes>, signature: Bytes,
                  checkSig: (Bytes, Bytes) -> bool)
    requires |publicKey| == 33 && |commitment| == 32 && checkSig(publicKey, signature)
    ensures RunAll(RedeemItems(publicKey, commitment), below + [signature], checkSig)
            == if |below| < 7 then None else Some(below[..|below| - 7] + [[1]])
  {
    var drops := seq(INSCRIPTION_DROPS, _ => Op(OP_DROP));
    var head := [Data(publicKey), Op(OP_CHECKSIGVERIFY), Data(commitment)];
    var stack := below + [signature];
    RunAppend(head, drops + [Op(OP_1)], stack, checkSig);
    RunAppend(drops, [Op(OP_1)], below + [commitment], checkSig);
    RunHead(publicKey, commitment, below, signature, checkSig);
    RunDrops(INSCRIPTION_DROPS, below + [commitment], checkSig);
    if |below| >= 7 {
      assert (below + [commitment])[..|below| + 1 - 8] == below[..|below| - 7];
      RunOne(below[..|below| - 7], checkSig);
    }
  }

  lemma RunHead(publicKey: Bytes, commitment: Bytes, below: seq<Bytes>, signature: Bytes,
                checkSig: (Bytes, Bytes) -> bool)
    requires |publicKey| == 33 && |commitment| == 32 && checkSig(publicKey, signature)
    ensures RunAll([Data(publicKey), Op(OP_CHECKSIGVERIFY), Data(commitment)], below + [signature], checkSig)
            == Some(below + [commitment])
  {
    var head := [Data(publicKey), Op(OP_CHECKSIGVERIFY), Data(commitment)];
    var stack := below + [signature];
    assert Run(head[0], stack, checkSig) == Some(stack + [publicKey]);
    assert (stack + [publicKey])[..|stack| - 1] == below;
    assert head[1..][1..][1..] == [];
    assert RunAll(head[1..][1..], below, checkSig) == Some(below + [commitment]);
    assert RunAll(head[1..], stack + [publicKey], checkSig) == Some(below + [commitment]);
  }

  lemma RunOne(stack: seq<Bytes>, checkSig: (Bytes, Bytes) -> bool)
    ensures RunAll([Op(OP_1)], stack, checkSig) == Some(stack + [[1]])
  {
    assert [Op(OP_1)][1..] == [];
  }

  lemma {:induction false} TaggedPushOnly(chunks: seq<Bytes>, tag: Byte)
    requires tag == OP_0 || tag == OP_1
    requires forall c | c in chunks :: |c| <= CHUNK_BYTES
    ensures PushOnly(TaggedItems(chunks, tag)) && |TaggedItems(chunks, tag)| == 2 * |chunks|
  {
    if chunks != [] {
      assert chunks[0] in chunks;
      TaggedPushOnly(chunks[1..], OP_0);
    }
  }

  lemma {:induction false} ChunksSmall(body: Bytes)
    ensures forall c | c in ChunkList(body) :: |c| <= CHUNK_BYTES
  {
    if body != [] {
      ChunksSmall(body[Front(body)..]);
    }
  }

  /** The stack a reveal's scriptSig leaves: three items for the envelope's head, two a chunk, the signature
      and the redeem script. */
  lemma RunScriptSig(contentType: Bytes, body: Bytes, signature: Bytes, redeemScript: Bytes,
                     checkSig: (Bytes, Bytes) -> bool)
    requires 0 < |contentType| <= MAX_SCRIPT_ELEMENT_SIZE
    requires 0 < |signature| <= MAX_SCRIPT_ELEMENT_SIZE && 0 < |redeemScript| <= MAX_SCRIPT_ELEMENT_SIZE
    ensures var s := InscriptionScriptSig(EncodeEnvelope(contentType, body), signature, redeemScript);
            s.Some?
            && var r := RunAll(ParseScript(s.value), [], checkSig);
            r.Some? && |r.value| == 5 + 2 * |ChunkList(body)|
            && r.value[|r.value| - 2..] == [signature, redeemScript]
  {
    ParseEnvelope(contentType, body, PushData(signature) + PushData(redeemScript));
    ParseLast(signature, redeemScript);
    ChunksSmall(body);
    TaggedPushOnly(ChunkList(body), OP_1);
    RunWithLast(EnvelopeItems(contentType, body), signature, redeemScript, checkSig);
  }

  lemma RunWithLast(items: seq<Item>, signature: Bytes, redeemScript: Bytes, checkSig: (Bytes, Bytes) -> bool)
    requires PushOnly(items) && |signature| <= MAX_SCRIPT_ELEMENT_SIZE && |redeemScript| <= MAX_SCRIPT_ELEMENT_SIZE
    ensures var r := RunAll(items + [Data(signature), Data(redeemScript)], [], checkSig);
            r.Some? && |r.value| == |items| + 2 && r.value[|r.value| - 2..] == [signature, redeemScript]
  {
    RunPushes(items, [], checkSig);
    RunAppend(items, [Data(signature), Data(redeemScript)], [], checkSig);
    RunTwo(signature, redeemScript, RunAll(items, [], checkSig).value, checkSig);
  }

  lemma RunTwo(a: Bytes, b: Bytes, stack: seq<Bytes>, checkSig: (Bytes, Bytes) -> bool)
    requires |a| <= MAX_SCRIPT_ELEMENT_SIZE && |b| <= MAX_SCRIPT_ELEMENT_SIZE
    ensures RunAll([Data(a), Data(b)], stack, checkSig) == Some(stack + [a] + [b])
  {
    var items := [Data(a), Data(b)];
    assert items[1..] == [Data(b)] && items[1..][1..] == [];
    assert RunAll(items[1..], stack + [a], checkSig) == Some(stack + [a] + [b]);
  }

  /** With a valid signature the drops clear the envelope exactly when the body takes two chunks. One chunk
      or none underflows the stack; three or more succeed with 2c - 4 items left below the true value. */
  lemma RevealBalance(contentType: Bytes, body: Bytes, signature: Bytes, publicKey: Bytes, commitment: Bytes,
                      hash160: Bytes -> Bytes, checkSig: (Bytes, Bytes) -> bool)
    requires 0 < |contentType| <= MAX_SCRIPT_ELEMENT_SIZE && 0 < |signature| <= MAX_SCRIPT_ELEMENT_SIZE
    requires |publicKey| == 33 && |commitment| == 32 && checkSig(publicKey, signature)
    ensures var redeem := InscriptionRedeemScript(publicKey, commitment).value;
            var scriptSig := InscriptionScriptSig(EncodeEnvelope(contentType, body), signature, redeem).value;
            var r := SpendP2sh(scriptSig, hash160(redeem), hash160, checkSig);
            && (r.None? <==> |body| <= 240)
            && (r == Some([[1]]) <==> 241 <= |body| <= 480)
            && (r.Some? ==> |r.value| == 2 * ((|body| + 239) / 240) - 3 && r.value[|r.value| - 1] == [1])
  {
    var redeem := InscriptionRedeemScript(publicKey, commitment).value;
    RunScriptSig(contentType, body, signature, redeem, checkSig);
    var scriptSig := InscriptionScriptSig(EncodeEnvelope(contentType, body), signature, redeem).value;
    var stack := RunAll(ParseScript(scriptSig), [], checkSig).value;
    var c := |ChunkList(body)|;
    SpendStack(publicKey, commitment, scriptSig, stack, signature, hash160, checkSig, c);
    ChunkListJoins(body);
    assert c < 2 <==> |body| <= 240;
    assert c == 2 <==> 241 <= |body| <= 480;
  }

  /** The spend runs the redeem script on what the scriptSig left below it. */
  lemma SpendRunsRedeem(publicKey: Bytes, commitment: Bytes, scriptSig: Bytes, below: seq<Bytes>, signature: Bytes,
                        hash160: Bytes -> Bytes, checkSig: (Bytes, Bytes) -> bool)
    requires |publicKey| == 33 && |commitment| == 32
    requires RunAll(ParseScript(scriptSig), [], checkSig)
             == Some(below + [signature] + [InscriptionRedeemScript(publicKey, commitment).value])
    ensures var redeem := InscriptionRedeemScript(publicKey, commitment).value;
            SpendP2sh(scriptSig, hash160(redeem), hash160, checkSig)
            == RunAll(ParseScript(redeem), below + [signature], checkSig)
  {
    var redeem := InscriptionRedeemScript(publicKey, commitment).value;
    var stack := below + [signature] + [redeem];
    assert stack[|stack| - 1] == redeem && stack[..|stack| - 1] == below + [signature];
  }

  /** The spend, from the stack the scriptSig left. */
  lemma SpendStack(publicKey: Bytes, commitment: Bytes, scriptSig: Bytes, stack: seq<Bytes>, signature: Bytes,
                   hash160: Bytes -> Bytes, checkSig: (Bytes, Bytes) -> bool, c: nat)
    requires |publicKey| == 33 && |commitment| == 32 && checkSig(publicKey, signature)
    requires RunAll(ParseScript(scriptSig), [], checkSig) == Some(stack) && |stack| == 5 + 2 * c
    requires stack[|stack| - 2..] == [signature, InscriptionRedeemScript(publicKey, commitment).value]
    ensures var redeem := InscriptionRedeemScript(publicKey, commitment).value;
            var r := SpendP2sh(scriptSig, hash160(redeem), hash160, checkSig);
            && (r.None? <==> c < 2)
            && (r == Some([[1]]) <==> c == 2)
            && (r.Some? ==> |r.value| == 2 * c - 3 && r.value[|r.value| - 1] == [1])
  {
    var redeem := InscriptionRedeemScript(publicKey, commitment).value;
    var below := stack[..|stack| - 2];
    assert stack == below + [signature] + [redeem] by { assert stack == below + stack[|stack| - 2..]; }
    SpendRunsRedeem(publicKey, commitment, scriptSig, below, signature, hash160, checkSig);
    ParseRedeem(publicKey, commitment);
    RunRedeem(publicKey, commitment, below, signature, checkSig);
    if c >= 2 { OneOnTop(below[..2 * c - 4], below[..|below| - 7] + [[1]]); }
  }

  lemma OneOnTop(left: seq<Bytes>, stack: seq<Bytes>)
    requires stack == left + [[1]]
    ensures |stack| == |left| + 1 && stack[|stack| - 1] == [1] && (stack == [[1]] <==> left == [])
  {
  }

  /** Reading starts after the first push that is "ord", with or without a byte order mark, and passes over any
      other. */
  lemma MagicStarts(b: Bytes, rest: Bytes)
    requires b != [] && Pushable(b)
    ensures AfterMagic(ParseScript(PushData(b) + rest))
            == if b == [0x6f, 0x72, 0x64] || b == [0xef, 0xbb, 0xbf, 0x6f, 0x72, 0x64] then Some(ParseScript(rest))
               else AfterMagic(ParseScript(rest))
  {
    ParsePush(b, rest);
    var items := [Data(b)] + ParseScript(rest);
    assert items[1..] == ParseScript(rest);
    assert [0xef, 0xbb, 0xbf] + MAGIC == [0xef, 0xbb, 0xbf, 0x6f, 0x72, 0x64];
  }
}
