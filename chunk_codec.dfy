/** `encodeChunk` and `decodeChunk` as encoder.js writes them:
    a byte array filled in a loop, the little-endian pack and unpack, and
    the nested bit-position / byte-index loops. Each is proved to compute
    the function of the same name in module ChunkSpec. */
module ChunkCodec {
  import opened Bits
  import ChunkSpec

  /** encodeChunk: pads or cuts `input` to four code units and interleaves
      their bits into one word. */
  method EncodeChunk(input: seq<Byte>) returns (encoded: Word)
    ensures encoded == ChunkSpec.EncodeChunk(input)
  {
    var paddedInput := ChunkSpec.Pad(input);

    var bytes := new Byte[4];
    for i := 0 to 4
      invariant bytes[..i] == paddedInput[..i]
    {
      bytes[i] := paddedInput[i];
    }
    assert bytes[..] == paddedInput;

    var rawValue := ChunkSpec.Pack(bytes[..]);
    var inputBytes := ChunkSpec.Unpack(rawValue);
    ChunkSpec.UnpackPack(paddedInput);

    encoded := 0;
    var bitPosition: Word := 0;
    while bitPosition < 8
      invariant bitPosition <= 8
      invariant encoded == ChunkSpec.Spread(inputBytes, bitPosition * 4)
      decreases 8 - bitPosition
    {
      var byteIndex: Word := 0;
      while byteIndex < 4
        invariant byteIndex <= 4
        invariant encoded == ChunkSpec.Spread(inputBytes, bitPosition * 4 + byteIndex)
        decreases 4 - byteIndex
      {
        var bit := (inputBytes[byteIndex] >> bitPosition) & 1;
        var outputPosition := bitPosition * 4 + byteIndex;
        ChunkSpec.SpreadNext(inputBytes, bitPosition, byteIndex);
        encoded := encoded | ((bit as Word) << outputPosition);
        assert encoded == ChunkSpec.Spread(inputBytes, bitPosition * 4 + byteIndex + 1);
        byteIndex := byteIndex + 1;
      }
      assert bitPosition * 4 + byteIndex == (bitPosition + 1) * 4;
      bitPosition := bitPosition + 1;
    }
    ChunkSpec.InterleaveIsMorton(paddedInput);
  }

  /** decodeChunk: gathers the interleaved bits back into four bytes and
      returns them without their trailing NULs. The local array
      `outputBytes` is a local sequence here, updated one byte at a time. */
  method DecodeChunk(encoded: Word) returns (chunk: seq<Byte>)
    ensures chunk == ChunkSpec.DecodeChunk(encoded)
  {
    var outputBytes: seq<Byte> := [0, 0, 0, 0];

    var bitPosition: Word := 0;
    while bitPosition < 8
      invariant bitPosition <= 8
      invariant outputBytes == ChunkSpec.Gather(encoded, bitPosition * 4)
      decreases 8 - bitPosition
    {
      var byteIndex: Word := 0;
      while byteIndex < 4
        invariant byteIndex <= 4
        invariant outputBytes == ChunkSpec.Gather(encoded, bitPosition * 4 + byteIndex)
        decreases 4 - byteIndex
      {
        var outputPosition := bitPosition * 4 + byteIndex;
        var bit := (encoded >> outputPosition) & 1;
        ChunkSpec.GatherNext(encoded, bitPosition, byteIndex);
        outputBytes := outputBytes[byteIndex := outputBytes[byteIndex] | ((bit as Byte) << bitPosition)];
        byteIndex := byteIndex + 1;
      }
      assert bitPosition * 4 + byteIndex == (bitPosition + 1) * 4;
      bitPosition := bitPosition + 1;
    }

    var rawValue := ChunkSpec.Pack(outputBytes);
    var originalBytes := ChunkSpec.Unpack(rawValue);
    ChunkSpec.UnpackPack(outputBytes);

    var result: seq<Byte> := [];
    for i := 0 to 4
      invariant result == originalBytes[..i]
    {
      result := result + [originalBytes[i]];
    }
    assert result == ChunkSpec.Deinterleave(encoded);
    chunk := ChunkSpec.TrimNul(result);
  }
}
