/** `encode` and `decode` as encoder.js writes them: a loop
    that steps through the text four code units at a time and pushes one
    word per chunk, and a loop that appends the decoded chunks. Each is
    proved to compute the function of the same name in module TextSpec. */
module TextCodec {
  import opened Bits
  import ChunkSpec
  import ChunkCodec
  import TextSpec

  /** encode: the words of the chunks of `text`, in order. */
  method Encode(text: seq<Byte>) returns (results: seq<Word>)
    ensures results == TextSpec.Encode(text)
  {
    results := [];
    var i := 0;
    while i < |text|
      invariant 0 <= i <= |text| + 3 && 4 * |results| == i
      invariant forall k | 0 <= k < |results| ::
        results[k] == ChunkSpec.EncodeChunk(TextSpec.ChunkAt(text, k))
    {
      var chunk := text[i .. TextSpec.Min(i + 4, |text|)];
      var encoded := ChunkCodec.EncodeChunk(chunk);
      results := results + [encoded];
      i := i + 4;
    }
    assert |results| == TextSpec.ChunkCount(|text|);
  }

  /** decode: the decoded chunks of `encodedArray`, concatenated in order. */
  method Decode(encodedArray: seq<Word>) returns (result: seq<Byte>)
    ensures result == TextSpec.Decode(encodedArray)
  {
    result := [];
    for k := 0 to |encodedArray|
      invariant result == TextSpec.Decode(encodedArray[..k])
    {
      var chunk := ChunkCodec.DecodeChunk(encodedArray[k]);
      assert encodedArray[..k + 1][..k] == encodedArray[..k];
      result := result + chunk;
    }
    assert encodedArray[..|encodedArray|] == encodedArray;
  }
}
