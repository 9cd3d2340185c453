/** Curve points and recoverable signatures as bytes, and what a wallet's signature proves. */
module CompactSignatures {
  import opened Bytes
  import opened KeyRecovery
  import opened Modular
  import opened Secp256k1
  import opened Sign

  /** SEC 1: a tag and both coordinates, or a parity tag and the abscissa; None at infinity, where the source throws. */
  function EncodePoint(a: Point, compressed: bool): (b: Option<Bytes>)
    ensures a.Affine? ==> b.Some? && |b.value| == if compressed then 33 else 65
  {
    if a.Infinity? then None
    else if compressed then Some([if a.y % 2 == 1 then 0x03 else 0x02] + BigEndian(a.x, 32))
    else Some([0x04] + BigEndian(a.x, 32) + BigEndian(a.y, 32))
  }

  /** Infinity where the source answers null. */
  function DecodePoint(c: Curve, b: Bytes): Point {
    if |b| == 65 && b[0] == 0x04 then
      var a := Affine(FromBigEndian(b[1..33]), FromBigEndian(b[33..]));
      if OnCurve(c, a) then a else Infinity
    else if |b| == 33 && (b[0] == 0x02 || b[0] == 0x03) then
      var x := FromBigEndian(b[1..]);
      if x >= c.p then Infinity
      else
        var alpha := Mod(x * x * x + c.b, c.p);
        var beta := Pow(alpha, (c.p + 1) / 4) % c.p;
        if Mod(beta * beta, c.p) != alpha then Infinity
        else Affine(x, if beta % 2 == b[0] - 2 then beta else c.p - beta)
    else Infinity
  }

  lemma TagAndAbscissa(t: Byte, x: Bytes)
    requires |x| == 32
    ensures ([t] + x)[0] == t && ([t] + x)[1..] == x
  {
  }

  /** Both coordinates fit their 32 bytes. */
  lemma Coordinates(c: Curve, a: Point, x: Bytes, y: Bytes)
    requires c.p <= Pow256(32) && Valid(c, a) && a.Affine? && x == BigEndian(a.x, 32) && y == BigEndian(a.y, 32)
    ensures FromBigEndian(x) == a.x && FromBigEndian(y) == a.y
  {
    BigEndianRoundTrip(a.x, 32);
    BigEndianRoundTrip(a.y, 32);
  }

  lemma UncompressedRead(c: Curve, a: Point, x: Bytes, y: Bytes)
    requires Valid(c, a) && a.Affine? && |x| == 32 && |y| == 32 && FromBigEndian(x) == a.x && FromBigEndian(y) == a.y
    ensures DecodePoint(c, [0x04] + x + y) == a
  {
    HeadAndHalves(0x04, x, y);
  }

  lemma CompressedRead(c: Curve, a: Point, x: Bytes)
    requires RootCurve(c) && Valid(c, a) && a.Affine? && |x| == 32 && FromBigEndian(x) == a.x
    ensures DecodePoint(c, [if a.y % 2 == 1 then 0x03 else 0x02] + x) == a
  {
    RootOf(c, a);
    TagAndAbscissa(if a.y % 2 == 1 then 0x03 else 0x02, x);
  }

  /** Either encoding of a point reads back as the point. */
  lemma PointRoundTrip(c: Curve, a: Point, compressed: bool)
    requires RootCurve(c) && c.p <= Pow256(32) && Valid(c, a) && a.Affine?
    ensures DecodePoint(c, EncodePoint(a, compressed).value) == a
  {
    var x, y := BigEndian(a.x, 32), BigEndian(a.y, 32);
    Coordinates(c, a, x, y);
    if compressed { CompressedRead(c, a, x); } else { UncompressedRead(c, a, x, y); }
  }

  datatype Recovered = Recovered(publicKey: Bytes, compressed: bool)

  /** A 65-byte signature: a header with the id and whether the key is compressed, then r and s. */
  function RecoverFromCompact(c: Curve, digest: Bytes, signature: Bytes): Option<Recovered> {
    if |signature| != 65 || signature[0] < 27 || signature[0] > 34 then None
    else
      var compressed := signature[0] >= 31;
      var point := RecoverPublicKey(c, digest, FromBigEndian(signature[1..33]), FromBigEndian(signature[33..65]),
                                    (signature[0] - 27) % 4);
      if point.Infinity? then None
      else Some(Recovered(EncodePoint(point, compressed).value, compressed))
  }

  function Header(id: int, compressed: bool): (h: Byte)
    requires 0 <= id <= 3
    ensures 27 <= h <= 34 && (h >= 31 <==> compressed) && (h - 27) % 4 == id
  {
    27 + id + if compressed then 4 else 0
  }

  /** How a wallet lays a signature out. */
  function CompactSignature(signature: Signature, id: int, compressed: bool): (b: Bytes)
    requires 0 <= id <= 3 && signature.r >= 0 && signature.s >= 0
    ensures |b| == 65
  {
    [Header(id, compressed)] + BigEndian(signature.r, 32) + BigEndian(signature.s, 32)
  }

  lemma HeadAndHalves(h: Byte, x: Bytes, y: Bytes)
    requires |x| == 32 && |y| == 32
    ensures var b := [h] + x + y; b[0] == h && b[1..33] == x && b[33..] == y && b[33..65] == y
  {
  }

  lemma CompactParts(signature: Signature, id: int, compressed: bool, x: Bytes, y: Bytes)
    requires 0 <= id <= 3 && signature.r >= 0 && signature.s >= 0
    requires x == BigEndian(signature.r, 32) && y == BigEndian(signature.s, 32)
    ensures var b := CompactSignature(signature, id, compressed);
            && 27 <= b[0] <= 34 && (b[0] >= 31 <==> compressed) && (b[0] - 27) % 4 == id
            && b[1..33] == x && b[33..65] == y
  {
    HeadAndHalves(Header(id, compressed), x, y);
  }

  lemma CompactFields(signature: Signature, id: int, compressed: bool)
    requires 0 <= id <= 3 && 0 <= signature.r < Pow256(32) && 0 <= signature.s < Pow256(32)
    ensures var b := CompactSignature(signature, id, compressed);
            && 27 <= b[0] <= 34 && (b[0] >= 31 <==> compressed) && (b[0] - 27) % 4 == id
            && FromBigEndian(b[1..33]) == signature.r && FromBigEndian(b[33..65]) == signature.s
  {
    BigEndianRoundTrip(signature.r, 32);
    BigEndianRoundTrip(signature.s, 32);
    CompactParts(signature, id, compressed, BigEndian(signature.r, 32), BigEndian(signature.s, 32));
  }

  /** The blob gives what recovery gives, encoded. */
  lemma CompactReturns(c: Curve, digest: Bytes, signature: Signature, id: int, compressed: bool)
    requires RootCurve(c) && c.p <= Pow256(32)
    requires 0 <= id <= 3 && 0 <= signature.r < Pow256(32) && 0 <= signature.s < Pow256(32)
    ensures var out := RecoverFromCompact(c, digest, CompactSignature(signature, id, compressed));
            var key := RecoverPublicKey(c, digest, signature.r, signature.s, id);
            && (out.Some? <==> key.Affine?)
            && (key.Affine? ==> Valid(c, key) && out == Some(Recovered(EncodePoint(key, compressed).value, compressed))
                                && DecodePoint(c, out.value.publicKey) == key)
  {
    CompactFields(signature, id, compressed);
    var key := RecoverPublicKey(c, digest, signature.r, signature.s, id);
    if key.Affine? {
      RecoveryVerifies(c, digest, signature.r, signature.s, id);
      PointRoundTrip(c, key, compressed);
    }
  }

  /** The blob under this id gives back the key, in the form its header asks for, and that form reads back as the
      key. */
  predicate Proves(c: Curve, digest: Bytes, signature: Signature, id: int, compressed: bool, key: Point)
    requires 0 <= id <= 3 && signature.r >= 0 && signature.s >= 0 && key.Affine?
  {
    var out := RecoverFromCompact(c, digest, CompactSignature(signature, id, compressed));
    && out == Some(Recovered(EncodePoint(key, compressed).value, compressed))
    && DecodePoint(c, out.value.publicKey) == key
  }

  /** A wallet's signature proves its own key, and under exactly one of the four ids. */
  lemma CompactProvesKey(c: Curve, nonce: Nonce, digest: Bytes, scalar: nat, compressed: bool) returns (id: int)
    requires RootCurve(c) && c.p <= Pow256(32) && c.n <= Pow256(32)
    requires scalar % c.n != 0 && SignDigest(c, nonce, digest, scalar).Some?
    ensures var signature, key := SignDigest(c, nonce, digest, scalar).value, PointMul(c, scalar, c.base);
            && signature.r >= 0 && signature.s >= 0 && key.Affine? && 0 <= id <= 3
            && forall i | 0 <= i <= 3 :: Proves(c, digest, signature, i, compressed, key) <==> i == id
  {
    var signature, key := SignDigest(c, nonce, digest, scalar).value, PointMul(c, scalar, c.base);
    id := SignThenRecover(c, nonce, digest, scalar);
    SignerFits(c, nonce, digest, scalar);
    PublicKeyAffine(c, scalar);
    forall i | 0 <= i <= 3 ensures Proves(c, digest, signature, i, compressed, key) <==> i == id {
      CompactReturns(c, digest, signature, i, compressed);
    }
  }

  lemma MirrorRoot(p: int, y: int, rest: int)
    requires p > 0 && (y * y) % p == rest % p
    ensures ((p - y) * (p - y)) % p == rest % p
  {
    MirrorSquare(p, y);
    AddMultiple(y * y, p - 2 * y, p);
  }

  /** Whatever decodes is on the curve, in either form. */
  lemma DecodedOnCurve(c: Curve, b: Bytes)
    ensures OnCurve(c, DecodePoint(c, b))
  {
    var a := DecodePoint(c, b);
    if |b| == 33 && a.Affine? {
      var rest := a.x * a.x * a.x + c.b;
      var alpha := Mod(rest, c.p);
      var beta := Pow(alpha, (c.p + 1) / 4) % c.p;
      MirrorRoot(c.p, beta, rest);
      CubeMinus(a.x, a.y, c.b, c.p);
    }
  }
}
