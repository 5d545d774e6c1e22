/** The bare block layout: an encoder after the same Serialization section, and both round
    trips with the block parser. */
module SszBlock {
  import opened Common
  import opened LittleEndian
  import opened Quotients
  import opened Ssz

  const U64_LEN: nat := 8

  /** Slot, proposer, two roots, the offset of the body, the body. */
  function BlockBytes(b: BeaconBlock): seq<byte> {
    Bytes(b.slot, U64_LEN) + Bytes(b.proposerIndex, U64_LEN) + b.parentRoot + b.stateRoot
    + LeBytes(BEACON_BLOCK_FIXED_LEN) + b.body
  }

  /** A block whose integers fit 64 bits and whose roots are 32 bytes. */
  predicate Encodable(b: BeaconBlock) {
    && b.slot < Pow256(U64_LEN) && b.proposerIndex < Pow256(U64_LEN)
    && |b.parentRoot| == 32 && |b.stateRoot| == 32
  }

  lemma CutBlock(s: seq<byte>, p: seq<byte>, x: seq<byte>, y: seq<byte>, o: seq<byte>, z: seq<byte>)
    requires |s| == 8 && |p| == 8 && |x| == 32 && |y| == 32 && |o| == 4
    ensures var f := s + p + x + y + o + z;
            && |f| == 84 + |z|
            && f[0..8] == s && f[8..16] == p && f[16..48] == x && f[48..80] == y && f[80..84] == o && f[84..] == z
  {
  }

  lemma {:induction false} WordValue(n: nat)
    requires n < Pow256(U64_LEN)
    ensures Value(Bytes(n, U64_LEN)) == n
  {
    ValueOfBytes(n, U64_LEN);
    QuotientIs(n, Pow256(U64_LEN), 0, n);
  }

  /** Parsing an encoded block gives back every field in its place. */
  lemma ParseOfBlockBytes(b: BeaconBlock)
    requires Encodable(b)
    ensures BlockFields(BlockBytes(b), 0, |BlockBytes(b)|) == Ok(b)
  {
    var f := BlockBytes(b);
    CutBlock(Bytes(b.slot, U64_LEN), Bytes(b.proposerIndex, U64_LEN), b.parentRoot, b.stateRoot,
             LeBytes(BEACON_BLOCK_FIXED_LEN), b.body);
    WordValue(b.slot);
    WordValue(b.proposerIndex);
    LeBytesValue(BEACON_BLOCK_FIXED_LEN);
    U32Slice(f, 80, 84, 0);
    assert f[84..|f|] == f[84..];
  }

  lemma JoinBlock(f: seq<byte>)
    requires 84 <= |f|
    ensures f == f[0..8] + f[8..16] + f[16..48] + f[48..80] + f[80..84] + f[84..]
  {
  }

  /** Encoding a parsed block reproduces the bytes exactly when its body starts right behind
      the fixed part; otherwise the gap is lost. */
  lemma BlockBytesOfParse(bytes: seq<byte>)
    requires BlockFields(bytes, 0, |bytes|).Ok?
    ensures Encodable(BlockFields(bytes, 0, |bytes|).value)
    ensures BlockBytes(BlockFields(bytes, 0, |bytes|).value) == bytes <==> U32(bytes, 80) == BEACON_BLOCK_FIXED_LEN
  {
    var b := BlockFields(bytes, 0, |bytes|).value;
    assert |BlockBytes(b)| == 84 + |b.body|;
    if U32(bytes, 80) == BEACON_BLOCK_FIXED_LEN {
      JoinBlock(bytes);
      BytesOfValue(bytes[0..8]);
      BytesOfValue(bytes[8..16]);
      WordAt(bytes, 80);
      assert bytes[84..|bytes|] == bytes[84..];
    }
  }
}
