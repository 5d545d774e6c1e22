/** Capped body reading of `crates/beacon/src/http_caps.rs`. */
module HttpCaps {
  import opened Common
  import opened LittleEndian

  /** What the transport delivers: data chunks, or a read error. */
  datatype Chunk = Data(bytes: seq<byte>) | Broken

  datatype Body = Body(contentLength: Option<nat>, chunks: seq<Chunk>)

  datatype BodyError = TooLarge(expected: nat, gotSoFar: nat) | ChunkUnreadable

  function Concat(chunks: seq<Chunk>): seq<byte>
    decreases |chunks|
  {
    if chunks == [] then []
    else
      var n := |chunks| - 1;
      Concat(chunks[..n]) + if chunks[n].Data? then chunks[n].bytes else []
  }

  ghost predicate AllData(chunks: seq<Chunk>) {
    forall c :: c in chunks ==> c.Data?
  }

  lemma {:induction false} ConcatGrows(chunks: seq<Chunk>, i: nat)
    requires i <= |chunks|
    ensures |Concat(chunks[..i])| <= |Concat(chunks)|
    decreases |chunks|
  {
    var n := |chunks| - 1;
    if i < |chunks| {
      assert chunks[..n][..i] == chunks[..i];
      ConcatGrows(chunks[..n], i);
    } else {
      assert chunks[..i] == chunks;
    }
  }

  ghost predicate Fits(body: Body, cap: nat) {
    && (body.contentLength.Some? ==> body.contentLength.value <= cap)
    && AllData(body.chunks)
    && |Concat(body.chunks)| <= cap
  }

  lemma {:induction false} OverflowingPrefix(chunks: seq<Chunk>, i: nat, cap: nat)
    requires i < |chunks| && chunks[i].Data? && cap < |Concat(chunks[..i])| + |chunks[i].bytes|
    ensures cap < |Concat(chunks)|
  {
    assert chunks[..i + 1][..i] == chunks[..i];
    ConcatGrows(chunks, i + 1);
  }

  /** The announced length is within the cap and the first `i` chunks are data that fit. */
  ghost predicate ReadUpTo(body: Body, cap: nat, i: nat) {
    && (body.contentLength.Some? ==> body.contentLength.value <= cap)
    && i < |body.chunks| && (forall j :: 0 <= j < i ==> body.chunks[j].Data?)
    && |Concat(body.chunks[..i])| <= cap
  }

  /** What an error reports: the announced length if that is too large, else the first chunk
      that cannot be read or that takes the total over the cap, and that total. */
  ghost predicate Reports(body: Body, cap: nat, e: BodyError) {
    match e
    case TooLarge(expected, gotSoFar) =>
      && expected == cap < gotSoFar
      && (|| body.contentLength == Some(gotSoFar)
          || exists i: nat :: ReadUpTo(body, cap, i) && body.chunks[i].Data? && gotSoFar == |Concat(body.chunks[..i + 1])|)
    case ChunkUnreadable => exists i: nat :: ReadUpTo(body, cap, i) && body.chunks[i].Broken?
  }

  /** Succeeds exactly when the announced and the actual length stay within the cap and
      every chunk can be read, and then returns the chunks put together. */
  method ReadBodyCapped(body: Body, cap: nat) returns (r: Result<seq<byte>, BodyError>)
    ensures r.Ok? <==> Fits(body, cap)
    ensures r.Ok? ==> r.value == Concat(body.chunks)
    ensures r.Err? ==> Reports(body, cap, r.error)
  {
    if body.contentLength.Some? && cap < body.contentLength.value {
      return Err(TooLarge(cap, body.contentLength.value));
    }
    var buffer: seq<byte> := [];
    var chunks := body.chunks;
    for i := 0 to |chunks|
      invariant forall j :: 0 <= j < i ==> chunks[j].Data?
      invariant buffer == Concat(chunks[..i]) && |buffer| <= cap
    {
      assert ReadUpTo(body, cap, i);
      if chunks[i].Broken? {
        assert chunks[i] in chunks;
        return Err(ChunkUnreadable);
      }
      assert chunks[..i + 1][..i] == chunks[..i];
      var total := |buffer| + |chunks[i].bytes|;
      if cap < total {
        OverflowingPrefix(chunks, i, cap);
        return Err(TooLarge(cap, total));
      }
      buffer := buffer + chunks[i].bytes;
    }
    assert chunks[..|chunks|] == chunks;
    r := Ok(buffer);
  }
}
