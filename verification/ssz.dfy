/**
 * SSZ container framing of `crates/beacon/src/ssz_deser.rs`: offset-table parsers and
 * encoders for block payloads, after the "Vectors, containers, lists" part of the
 * Serialization section of the consensus-specs document `ssz/simple-serialize.md`.
 */
module Ssz {
  import opened Common
  import opened LittleEndian

  const TWO_32: nat := 0x1_0000_0000

  const BLOCK_CONTENTS_FIXED_LEN: nat := 12
  const GLOAS_BLOCK_CONTENTS_FIXED_LEN: nat := 16
  const BEACON_BLOCK_FIXED_LEN: nat := 84
  const MIN_BEACON_BLOCK_HEADER_LEN: nat := 16
  const SIGNED_BEACON_BLOCK_MESSAGE_OFFSET: nat := 100
  const SSZ_SIGNATURE_LEN: nat := 96

  // ----- little-endian integers -----

  const U32_LEN: nat := 4

  function U32(b: seq<byte>, at: nat): (n: nat)
    requires at + 4 <= |b|
    ensures n < TWO_32
  {
    assert Pow256(4) == TWO_32;
    Value(b[at..at + U32_LEN])
  }

  function U64(b: seq<byte>, at: nat): nat
    requires at + 8 <= |b|
  {
    Value(b[at..at + 8])
  }

  /** `to_le_bytes` of the value after an `as u32` cast. */
  function LeBytes(n: nat): (b: seq<byte>)
    ensures |b| == 4
  {
    Bytes(n, U32_LEN)
  }

  lemma LeBytesValue(n: nat)
    ensures U32(LeBytes(n), 0) == n % TWO_32
  {
    ValueOfBytes(n, 4);
    assert Pow256(4) == TWO_32;
    assert LeBytes(n)[0..4] == LeBytes(n);
  }

  lemma LeBytesInjective(x: seq<byte>)
    requires |x| == 4
    ensures LeBytes(U32(x, 0)) == x
  {
    assert x[0..4] == x;
    BytesOfValue(x);
  }

  // ----- cutting byte strings -----

  lemma Join(s: seq<byte>, i: nat, j: nat, k: nat)
    requires i <= j <= k <= |s|
    ensures s[i..j] + s[j..k] == s[i..k]
  {
  }

  lemma CutTwice(s: seq<byte>, i: nat, j: nat, a: nat, b: nat)
    requires i <= j <= |s| && a <= b <= j - i
    ensures s[i..j][a..b] == s[i + a..i + b]
  {
    forall x | 0 <= x < b - a
      ensures s[i..j][a..b][x] == s[i + a..i + b][x]
    {
      assert s[i..j][a + x] == s[i + a + x];
    }
  }

  /** Three words and three regions, cut apart again. */
  lemma CutFrame(a: seq<byte>, b: seq<byte>, c: seq<byte>, x: seq<byte>, y: seq<byte>, z: seq<byte>)
    requires |a| == |b| == |c| == 4
    ensures var f := a + b + c + x + y + z;
            && |f| == 12 + |x| + |y| + |z|
            && f[0..4] == a && f[4..8] == b && f[8..12] == c
            && f[12..12 + |x|] == x && f[12 + |x|..12 + |x| + |y|] == y && f[12 + |x| + |y|..] == z
  {
  }

  /** A byte string is the concatenation of its cuts at 4, 8, 12, `k` and `l`. */
  lemma CutTogether(f: seq<byte>, k: nat, l: nat)
    requires 12 <= k <= l <= |f|
    ensures f == f[0..4] + f[4..8] + f[8..12] + f[12..k] + f[k..l] + f[l..]
  {
  }

  // ----- parsers -----

  datatype BeaconBlock = BeaconBlock(
    slot: nat, proposerIndex: nat, parentRoot: seq<byte>, stateRoot: seq<byte>, body: seq<byte>)

  datatype Format = BareBlock | Contents

  datatype SszError =
    | TooShort
    | OffsetInsideFixedPart
    | RegionBeforeBlock
    | RegionPastEnd
    | OffsetsNotMonotonic
    | BlockTooShort
    | BodyInsideFixedPart
    | BodyPastRegion
    | WrongFormat
    | BadSignatureLength

  function ResolveBlockOffset(bytes: seq<byte>, format: Format): (r: Result<nat, SszError>)
    ensures r.Ok? && format.Contents? ==> 12 <= r.value && 12 <= |bytes|
  {
    if format.BareBlock? then Ok(0)
    else if |bytes| < BLOCK_CONTENTS_FIXED_LEN then Err(TooShort)
    else if U32(bytes, 0) < BLOCK_CONTENTS_FIXED_LEN then Err(OffsetInsideFixedPart)
    else Ok(U32(bytes, 0))
  }

  function ResolveRegionEnd(bytes: seq<byte>, format: Format, blockOffset: nat): (r: Result<nat, SszError>)
    requires ResolveBlockOffset(bytes, format) == Ok(blockOffset)
    ensures r.Ok? ==> blockOffset <= r.value <= |bytes|
  {
    if format.BareBlock? then Ok(|bytes|)
    else
      var kzg := U32(bytes, 4);
      if kzg < blockOffset then Err(RegionBeforeBlock)
      else if |bytes| < kzg then Err(RegionPastEnd)
      else Ok(kzg)
  }

  /** The fixed fields and body of the block in `bytes[offset..end]`. */
  function BlockFields(bytes: seq<byte>, offset: nat, end: nat): (r: Result<BeaconBlock, SszError>)
    requires end <= |bytes|
  {
    if end < offset + BEACON_BLOCK_FIXED_LEN then Err(BlockTooShort)
    else
      var bodyOffset := U32(bytes, offset + 80);
      if bodyOffset < BEACON_BLOCK_FIXED_LEN then Err(BodyInsideFixedPart)
      else if end < offset + bodyOffset then Err(BodyPastRegion)
      else Ok(BeaconBlock(U64(bytes, offset), U64(bytes, offset + 8),
                          bytes[offset + 16..offset + 48], bytes[offset + 48..offset + 80],
                          bytes[offset + bodyOffset..end]))
  }

  datatype Header = Header(slot: nat, proposerIndex: nat)

  function ExtractHeader(bytes: seq<byte>, format: Format): Result<Header, SszError> {
    var offset := ResolveBlockOffset(bytes, format);
    if offset.Err? then Err(offset.error)
    else if |bytes| < offset.value + MIN_BEACON_BLOCK_HEADER_LEN then Err(BlockTooShort)
    else Ok(Header(U64(bytes, offset.value), U64(bytes, offset.value + 8)))
  }

  function DeserializeBlock(bytes: seq<byte>, format: Format): Result<(BeaconBlock, nat), SszError> {
    var offset := ResolveBlockOffset(bytes, format);
    if offset.Err? then Err(offset.error)
    else
      var end := ResolveRegionEnd(bytes, format, offset.value);
      if end.Err? then Err(end.error)
      else
        var block := BlockFields(bytes, offset.value, end.value);
        if block.Err? then Err(block.error) else Ok((block.value, offset.value))
  }

  datatype BlockContents = BlockContents(
    block: BeaconBlock, blockSsz: seq<byte>, kzgProofs: seq<byte>, blobs: seq<byte>)

  function DeserializeContents(bytes: seq<byte>, format: Format): Result<BlockContents, SszError> {
    if !format.Contents? then Err(WrongFormat)
    else
      var offset := ResolveBlockOffset(bytes, format);
      if offset.Err? then Err(offset.error)
      else
        var kzg := ResolveRegionEnd(bytes, format, offset.value);
        if kzg.Err? then Err(kzg.error)
        else
          var blobs := U32(bytes, 8);
          if blobs < kzg.value || |bytes| < blobs then Err(OffsetsNotMonotonic)
          else
            var block := BlockFields(bytes, offset.value, kzg.value);
            if block.Err? then Err(block.error)
            else Ok(BlockContents(block.value, bytes[offset.value..kzg.value], bytes[kzg.value..blobs], bytes[blobs..]))
  }

  datatype GloasContents = GloasContents(
    block: BeaconBlock, blockSsz: seq<byte>, envelope: seq<byte>, kzgProofs: seq<byte>, blobs: seq<byte>)

  /** The four offsets are ordered and inside the buffer. */
  predicate GloasOffsetsOrdered(bytes: seq<byte>)
    requires GLOAS_BLOCK_CONTENTS_FIXED_LEN <= |bytes|
  {
    U32(bytes, 0) <= U32(bytes, 4) <= U32(bytes, 8) <= U32(bytes, 12) <= |bytes|
  }

  predicate LooksLikeGloas(bytes: seq<byte>) {
    && GLOAS_BLOCK_CONTENTS_FIXED_LEN <= |bytes|
    && U32(bytes, 0) == GLOAS_BLOCK_CONTENTS_FIXED_LEN
    && GloasOffsetsOrdered(bytes)
  }

  function DeserializeGloas(bytes: seq<byte>): Result<GloasContents, SszError> {
    if |bytes| < GLOAS_BLOCK_CONTENTS_FIXED_LEN then Err(TooShort)
    else if U32(bytes, 0) < GLOAS_BLOCK_CONTENTS_FIXED_LEN then Err(OffsetInsideFixedPart)
    else if !GloasOffsetsOrdered(bytes) then Err(OffsetsNotMonotonic)
    else
      var (b, e, k, l) := (U32(bytes, 0), U32(bytes, 4), U32(bytes, 8), U32(bytes, 12));
      var block := BlockFields(bytes, b, e);
      if block.Err? then Err(block.error)
      else Ok(GloasContents(block.value, bytes[b..e], bytes[e..k], bytes[k..l], bytes[l..]))
  }

  // ----- encoders -----

  /** Three offsets and three regions. The offsets are `u32` sums and wrap. */
  function Frame(first: seq<byte>, second: seq<byte>, third: seq<byte>): seq<byte> {
    LeBytes(12) + LeBytes(12 + |first|) + LeBytes(12 + |first| + |second|) + first + second + third
  }

  /** The `u32` arithmetic of the encoder: cast each length, add, wrap. */
  method WrappedOffsets(first: nat, second: nat) returns (o1: nat, o2: nat)
    ensures o1 < TWO_32 && o2 < TWO_32
    ensures LeBytes(o1) == LeBytes(12 + first) && LeBytes(o2) == LeBytes(12 + first + second)
  {
    o1 := (12 + first % TWO_32) % TWO_32;
    o2 := (o1 + second % TWO_32) % TWO_32;
    assert o1 % TWO_32 == (12 + first) % TWO_32 by {
      WrapSum(first, 12);
    }
    assert o2 % TWO_32 == (12 + first + second) % TWO_32 by {
      WrapSum(first, 12);
      WrapSum(second, o1);
      WrapSum(12 + first, second);
    }
    LeBytesWrap(12 + first, o1);
    LeBytesWrap(12 + first + second, o2);
  }

  /** `encode_signed_envelope_contents` and `serialize_signed_block_contents_ssz`. */
  method EncodeContents(first: seq<byte>, second: seq<byte>, third: seq<byte>) returns (out: seq<byte>)
    ensures out == Frame(first, second, third)
    ensures |out| == 12 + |first| + |second| + |third|
    ensures out[12..] == first + second + third
  {
    var o1, o2 := WrappedOffsets(|first|, |second|);
    out := LeBytes(12);
    out := out + LeBytes(o1);
    out := out + LeBytes(o2);
    out := out + first;
    out := out + second;
    out := out + third;
    FrameBody(first, second, third);
  }

  lemma WrapSum(a: nat, b: nat)
    ensures (a % TWO_32 + b) % TWO_32 == (a + b) % TWO_32
  {
  }

  lemma FrameBody(first: seq<byte>, second: seq<byte>, third: seq<byte>)
    ensures var f := Frame(first, second, third);
            && |f| == 12 + |first| + |second| + |third|
            && f[12..] == first + second + third
  {
  }

  /** Bytes beyond the fourth do not matter, so a cast before the encoding is harmless. */
  lemma LeBytesWrap(n: nat, m: nat)
    requires n % TWO_32 == m % TWO_32
    ensures LeBytes(n) == LeBytes(m)
  {
    LeBytesInjective(LeBytes(n));
    LeBytesInjective(LeBytes(m));
    LeBytesValue(n);
    LeBytesValue(m);
  }

  /** `[offset = 100][96-byte signature][block]`: both parts can be cut out again. */
  method SerializeSignedBlock(block: seq<byte>, signature: seq<byte>) returns (r: Result<seq<byte>, SszError>)
    ensures r.Ok? <==> |signature| == 96
    ensures r.Ok? ==> && |r.value| == 100 + |block| && U32(r.value, 0) == 100
                      && r.value[4..100] == signature && r.value[U32(r.value, 0)..] == block
  {
    if |signature| != SSZ_SIGNATURE_LEN { return Err(BadSignatureLength); }
    var out := LeBytes(SIGNED_BEACON_BLOCK_MESSAGE_OFFSET);
    out := out + signature;
    out := out + block;
    r := Ok(out);
    LeBytesValue(100);
    assert out[0..4] == LeBytes(100) == LeBytes(100)[0..4];
  }

  // ----- parsing depends only on the block's own region -----

  lemma WordAt(bytes: seq<byte>, at: nat)
    requires at + 4 <= |bytes|
    ensures LeBytes(U32(bytes, at)) == bytes[at..at + 4]
  {
    LeBytesInjective(bytes[at..at + 4]);
    assert bytes[at..at + 4][0..4] == bytes[at..at + 4];
  }

  lemma U32Slice(bytes: seq<byte>, from: nat, to: nat, at: nat)
    requires from <= to <= |bytes| && from + at + 4 <= to
    ensures U32(bytes[from..to], at) == U32(bytes, from + at)
  {
    CutTwice(bytes, from, to, at, at + 4);
  }

  /** A block is read from its region alone: cutting the region out gives the same
      block, or the same refusal. */
  lemma BlockFieldsOfRegion(bytes: seq<byte>, offset: nat, end: nat)
    requires offset <= end <= |bytes|
    ensures BlockFields(bytes, offset, end) == BlockFields(bytes[offset..end], 0, end - offset)
  {
    var b := bytes[offset..end];
    if offset + 84 <= end {
      U32Slice(bytes, offset, end, 80);
      var bodyOffset := U32(b, 80);
      CutTwice(bytes, offset, end, 0, 8);
      CutTwice(bytes, offset, end, 8, 16);
      CutTwice(bytes, offset, end, 16, 48);
      CutTwice(bytes, offset, end, 48, 80);
      if offset + bodyOffset <= end {
        CutTwice(bytes, offset, end, bodyOffset, end - offset);
      }
    }
  }

  /** No byte at or past the kzg_proofs offset influences a `BlockContents` block. */
  lemma ProofsAndBlobsDoNotInfluenceTheBlock(bytes: seq<byte>, other: seq<byte>)
    requires DeserializeBlock(bytes, Contents).Ok?
    requires U32(bytes, 4) <= |other| && other[..U32(bytes, 4)] == bytes[..U32(bytes, 4)]
    ensures DeserializeBlock(other, Contents) == DeserializeBlock(bytes, Contents)
  {
    var offset, kzg := U32(bytes, 0), U32(bytes, 4);
    assert forall i :: 0 <= i < kzg ==> other[i] == bytes[i] by {
      assert forall i :: 0 <= i < kzg ==> other[..kzg][i] == bytes[..kzg][i];
    }
    assert other[0..4] == bytes[0..4] && other[4..8] == bytes[4..8];
    BlockFieldsOfRegion(bytes, offset, kzg);
    BlockFieldsOfRegion(other, offset, kzg);
    assert other[offset..kzg] == bytes[offset..kzg];
  }

  /** The cheap header read agrees with the full parse wherever the latter succeeds. */
  lemma HeaderAgreesWithBlock(bytes: seq<byte>, format: Format)
    requires DeserializeBlock(bytes, format).Ok?
    ensures ExtractHeader(bytes, format)
            == Ok(Header(DeserializeBlock(bytes, format).value.0.slot,
                         DeserializeBlock(bytes, format).value.0.proposerIndex))
  {
  }

  /** The header read needs sixteen bytes behind the block's offset and nothing else: of a
      container only its first word, which may not point into the offset table. */
  lemma HeaderReadIff(bytes: seq<byte>, format: Format)
    ensures format.BareBlock? ==> (ExtractHeader(bytes, format).Ok? <==> 16 <= |bytes|)
    ensures format.Contents? ==>
            (ExtractHeader(bytes, format).Ok? <==>
             12 <= |bytes| && 12 <= U32(bytes, 0) && U32(bytes, 0) + 16 <= |bytes|)
    ensures ExtractHeader(bytes, format).Ok? ==>
            var at := if format.BareBlock? then 0 else U32(bytes, 0);
            ExtractHeader(bytes, format) == Ok(Header(Value(bytes[at..at + 8]), Value(bytes[at + 8..at + 16])))
  {
  }

  /** The four Gloas regions tile the payload from the block offset to its end. */
  lemma GloasRegionsTile(bytes: seq<byte>)
    requires DeserializeGloas(bytes).Ok?
    ensures var c := DeserializeGloas(bytes).value;
            && c.blockSsz + c.envelope + c.kzgProofs + c.blobs == bytes[U32(bytes, 0)..]
            && BlockFields(c.blockSsz, 0, |c.blockSsz|) == Ok(c.block)
  {
    var (b, e, k, l) := (U32(bytes, 0), U32(bytes, 4), U32(bytes, 8), U32(bytes, 12));
    BlockFieldsOfRegion(bytes, b, e);
    Join(bytes, b, e, k);
    Join(bytes, b, k, l);
    Join(bytes, b, l, |bytes|);
  }

  // ----- round trips -----

  lemma FrameOffsets(first: seq<byte>, second: seq<byte>, third: seq<byte>)
    ensures var f := Frame(first, second, third);
            && U32(f, 0) == 12
            && U32(f, 4) == (12 + |first|) % TWO_32
            && U32(f, 8) == (12 + |first| + |second|) % TWO_32
  {
    CutFrame(LeBytes(12), LeBytes(12 + |first|), LeBytes(12 + |first| + |second|), first, second, third);
    LeBytesValue(12);
    LeBytesValue(12 + |first|);
    LeBytesValue(12 + |first| + |second|);
    assert forall n :: LeBytes(n)[0..4] == LeBytes(n);
  }

  /** A container with its block directly behind the table parses region by region. */
  lemma ContentsByRegion(f: seq<byte>, block: seq<byte>, proofs: seq<byte>, blobs: seq<byte>)
    requires |f| == 12 + |block| + |proofs| + |blobs|
    requires U32(f, 0) == 12 && U32(f, 4) == 12 + |block| && U32(f, 8) == 12 + |block| + |proofs|
    requires f[12..12 + |block|] == block && f[12 + |block|..12 + |block| + |proofs|] == proofs
    requires f[12 + |block| + |proofs|..] == blobs
    ensures var bare := BlockFields(block, 0, |block|);
            DeserializeContents(f, Contents)
            == if bare.Ok? then Ok(BlockContents(bare.value, block, proofs, blobs)) else Err(bare.error)
  {
    BlockFieldsOfRegion(f, 12, 12 + |block|);
  }

  lemma FrameLayout(block: seq<byte>, proofs: seq<byte>, blobs: seq<byte>)
    requires 12 + |block| + |proofs| < TWO_32
    ensures var f := Frame(block, proofs, blobs);
            var k, l := 12 + |block|, 12 + |block| + |proofs|;
            && |f| == l + |blobs| && U32(f, 0) == 12 && U32(f, 4) == k && U32(f, 8) == l
            && f[12..k] == block && f[k..l] == proofs && f[l..] == blobs
  {
    FrameOffsets(block, proofs, blobs);
    CutFrame(LeBytes(12), LeBytes(12 + |block|), LeBytes(12 + |block| + |proofs|), block, proofs, blobs);
  }

  /** A frame whose offsets fit parses to its own regions, or fails as its block does. */
  lemma ParseOfFittingFrame(block: seq<byte>, proofs: seq<byte>, blobs: seq<byte>)
    requires 12 + |block| + |proofs| < TWO_32
    ensures var parsed := DeserializeContents(Frame(block, proofs, blobs), Contents);
            var bare := BlockFields(block, 0, |block|);
            parsed == if bare.Ok? then Ok(BlockContents(bare.value, block, proofs, blobs)) else Err(bare.error)
  {
    FrameLayout(block, proofs, blobs);
    ContentsByRegion(Frame(block, proofs, blobs), block, proofs, blobs);
  }

  predicate SplitsInto(parsed: Result<BlockContents, SszError>, block: seq<byte>, proofs: seq<byte>, blobs: seq<byte>) {
    parsed.Ok? && parsed.value.blockSsz == block && parsed.value.kzgProofs == proofs && parsed.value.blobs == blobs
  }

  /** Parsing a frame gives the three regions back exactly when the bare block parses
      and both computed offsets fit in a `u32`. */
  lemma ParseOfFrame(block: seq<byte>, proofs: seq<byte>, blobs: seq<byte>)
    ensures SplitsInto(DeserializeContents(Frame(block, proofs, blobs), Contents), block, proofs, blobs)
            <==> BlockFields(block, 0, |block|).Ok? && 12 + |block| + |proofs| < TWO_32
  {
    if 12 + |block| + |proofs| < TWO_32 {
      ParseOfFittingFrame(block, proofs, blobs);
    } else {
      var f := Frame(block, proofs, blobs);
      FrameOffsets(block, proofs, blobs);
      if DeserializeContents(f, Contents).Ok? {
        assert |f[12..U32(f, 4)]| == U32(f, 4) - 12;
        assert |f[U32(f, 4)..U32(f, 8)]| == U32(f, 8) - U32(f, 4);
      }
    }
  }

  lemma FrameOfWords(bytes: seq<byte>, k: nat, l: nat)
    requires 12 <= k <= l <= |bytes|
    requires LeBytes(12) == bytes[0..4] && LeBytes(k) == bytes[4..8] && LeBytes(l) == bytes[8..12]
    ensures Frame(bytes[12..k], bytes[k..l], bytes[l..]) == bytes
  {
    CutTogether(bytes, k, l);
    assert 12 + |bytes[12..k]| == k && k + |bytes[k..l]| == l;
  }

  /** Framing the regions of a parsed container again reproduces the container exactly
      when its block sits directly behind the offset table. */
  lemma FrameOfParse(bytes: seq<byte>)
    requires DeserializeContents(bytes, Contents).Ok?
    ensures var c := DeserializeContents(bytes, Contents).value;
            Frame(c.blockSsz, c.kzgProofs, c.blobs) == bytes <==> U32(bytes, 0) == 12
  {
    var c := DeserializeContents(bytes, Contents).value;
    FrameOffsets(c.blockSsz, c.kzgProofs, c.blobs);
    if U32(bytes, 0) == 12 {
      WordAt(bytes, 0);
      WordAt(bytes, 4);
      WordAt(bytes, 8);
      FrameOfWords(bytes, U32(bytes, 4), U32(bytes, 8));
    }
  }

  // ----- the Gloas container -----

  /** Four offsets and four regions. */
  function GloasFrame(block: seq<byte>, envelope: seq<byte>, proofs: seq<byte>, blobs: seq<byte>): seq<byte> {
    LeBytes(16) + LeBytes(16 + |block|) + LeBytes(16 + |block| + |envelope|)
    + LeBytes(16 + |block| + |envelope| + |proofs|) + block + envelope + proofs + blobs
  }

  lemma CutGloasFrame(a: seq<byte>, b: seq<byte>, c: seq<byte>, d: seq<byte>,
                      w: seq<byte>, x: seq<byte>, y: seq<byte>, z: seq<byte>)
    requires |a| == |b| == |c| == |d| == 4
    ensures var f := a + b + c + d + w + x + y + z;
            var k, l, m := 16 + |w|, 16 + |w| + |x|, 16 + |w| + |x| + |y|;
            && |f| == m + |z|
            && f[0..4] == a && f[4..8] == b && f[8..12] == c && f[12..16] == d
            && f[16..k] == w && f[k..l] == x && f[l..m] == y && f[m..] == z
  {
    var f := a + b + c + d + w + x + y + z;
    assert f == (a + b + c + d) + (w + x + y + z);
  }

  lemma WordIs(f: seq<byte>, at: nat, n: nat)
    requires at + 4 <= |f| && f[at..at + 4] == LeBytes(n) && n < TWO_32
    ensures U32(f, at) == n
  {
    LeBytesValue(n);
    assert LeBytes(n)[0..4] == LeBytes(n);
  }

  lemma GloasFrameWords(block: seq<byte>, envelope: seq<byte>, proofs: seq<byte>, blobs: seq<byte>)
    requires 16 + |block| + |envelope| + |proofs| + |blobs| < TWO_32
    ensures var f := GloasFrame(block, envelope, proofs, blobs);
            && U32(f, 0) == 16 && U32(f, 4) == 16 + |block| && U32(f, 8) == 16 + |block| + |envelope|
            && U32(f, 12) == 16 + |block| + |envelope| + |proofs|
  {
    var k, l, m := 16 + |block|, 16 + |block| + |envelope|, 16 + |block| + |envelope| + |proofs|;
    CutGloasFrame(LeBytes(16), LeBytes(k), LeBytes(l), LeBytes(m), block, envelope, proofs, blobs);
    var f := GloasFrame(block, envelope, proofs, blobs);
    WordIs(f, 0, 16);
    WordIs(f, 4, k);
    WordIs(f, 8, l);
    WordIs(f, 12, m);
  }

  /** Every framed container is recognised, fails exactly when its block does, and is cut
      back into the four regions it was put together from. */
  lemma GloasRoundTrip(block: seq<byte>, envelope: seq<byte>, proofs: seq<byte>, blobs: seq<byte>)
    requires 16 + |block| + |envelope| + |proofs| + |blobs| < TWO_32
    ensures LooksLikeGloas(GloasFrame(block, envelope, proofs, blobs))
    ensures DeserializeGloas(GloasFrame(block, envelope, proofs, blobs))
            == match BlockFields(block, 0, |block|)
               case Ok(b) => Ok(GloasContents(b, block, envelope, proofs, blobs))
               case Err(e) => Err(e)
  {
    var f := GloasFrame(block, envelope, proofs, blobs);
    GloasFrameWords(block, envelope, proofs, blobs);
    CutGloasFrame(LeBytes(16), LeBytes(16 + |block|), LeBytes(16 + |block| + |envelope|),
                  LeBytes(16 + |block| + |envelope| + |proofs|), block, envelope, proofs, blobs);
    BlockFieldsOfRegion(f, 16, 16 + |block|);
  }

  // ----- the Gloas sniff -----

  /** A positive sniff settles the offset table: only the inner block can still fail. */
  lemma SniffedContainerFailsOnlyInTheBlock(bytes: seq<byte>)
    requires LooksLikeGloas(bytes)
    ensures DeserializeGloas(bytes).Ok? <==> BlockFields(bytes, 16, U32(bytes, 4)).Ok?
    ensures DeserializeGloas(bytes).Err? ==> DeserializeGloas(bytes).error == BlockFields(bytes, 16, U32(bytes, 4)).error
  {
  }

  /** A bare block with a slot below 2^36 + 16 is never taken for a container. */
  lemma SniffNeverClaimsABareBlock(bytes: seq<byte>)
    requires DeserializeBlock(bytes, BareBlock).Ok?
    requires DeserializeBlock(bytes, BareBlock).value.0.slot < 0x10_0000_0000 + 16
    ensures !LooksLikeGloas(bytes)
  {
    SlotWords(bytes);
  }

  function Zeros(n: nat): (z: seq<byte>)
    ensures |z| == n && forall i :: 0 <= i < n ==> z[i] == 0
  {
    seq(n, i => 0)
  }

  /** The bound is exact: slot 2^36 + 16 itself can be mistaken. */
  lemma SniffBoundIsTight()
    ensures var bytes := LeBytes(16) + LeBytes(16) + LeBytes(16) + LeBytes(16) + Zeros(64) + LeBytes(84);
            && DeserializeBlock(bytes, BareBlock).Ok?
            && DeserializeBlock(bytes, BareBlock).value.0.slot == 0x10_0000_0000 + 16
            && LooksLikeGloas(bytes)
  {
    var w, z, e := LeBytes(16), Zeros(64), LeBytes(84);
    var bytes := w + w + w + w + z + e;
    CutFrame(w, w, w, w, z, e);
    LeBytesValue(16);
    LeBytesValue(84);
    assert w[0..4] == w && e[0..4] == e && bytes[80..84] == bytes[80..];
    SlotWords(bytes);
  }

  lemma SlotWords(bytes: seq<byte>)
    requires 8 <= |bytes|
    ensures U64(bytes, 0) == U32(bytes, 0) + TWO_32 * U32(bytes, 4)
  {
    ValueSplit(bytes[0..8], 4);
    assert bytes[0..8][..4] == bytes[0..4] && bytes[0..8][4..] == bytes[4..8];
    assert Pow256(4) == TWO_32;
  }
}
