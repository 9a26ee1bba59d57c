# Weird Text Format codec in Dafny

This project models the Weird Text Format codec of `encoder.js` and proves its
laws. The codec turns text into 32-bit words and back:

- `encodeChunk` takes up to four characters. It pads a short chunk with NUL
  and cuts a long one to four. It packs the four code units into a
  little-endian word and unpacks them again. Then it interleaves their bits:
  bit `p` of code unit `i` becomes bit `p * 4 + i` of the result.
- `decodeChunk` undoes the interleaving into four bytes. It packs and
  unpacks them the same way, builds a four-character string and strips its
  trailing run of NULs.
- `encode` walks the text four characters at a time and pushes the encoding
  of each chunk.
- `decode` appends the decodings of the words in order.

Characters are code units `0..255` (type `Byte = bv8`), and a text is a
`seq<Byte>`. Words are `bv32` (type `Word`).

The modules follow the layers of the codec:

- `Bits`: bit predicates on bytes and words, and bit extensionality.
- `ChunkSpec`: what `encodeChunk` and `decodeChunk` compute, as pure
  functions. It also holds their bit laws and the chunk round trips. A
  Morton (Z-order) closed form of the interleaving serves as an independent
  reference definition.
- `ChunkCodec`: `encodeChunk` and `decodeChunk` as `encoder.js` writes them.
  These are methods with the byte-copy loop, the pack and unpack, the nested
  bit-position / byte-index loops, and the loop that builds the result. Each
  is proved to compute its `ChunkSpec` function.
- `TextSpec`: chunking, `encode` and `decode` as pure functions. It also
  holds append laws and the text round trip.
- `TextCodec`: the `encode` and `decode` loops as methods. Each is proved to
  compute its `TextSpec` function.
- `Vectors`: the literal vectors of `test.js`, stated about the model.

The doc comment of `decode` (encoder.js:92) says it gives back the original
text, and the round-trip test (test.js:113-138) checks this on strings
without NUL. The code keeps that promise only in part. `decodeChunk` strips
every trailing NUL of a chunk, including NULs that belong to the text. The
model states this as a property of the code:

- `TextSpec.DecodeEncodeIff` shows that a text survives a round trip exactly
  when none of its chunks ends in NUL.
- `TextSpec.NulAtChunkEndIsLost` shows that `"a\0"` comes back as `"a"`.
- `TextSpec.DecodeEncode` proves the round trip for text without NUL, which
  covers every round-trip string of `test.js`.

## Model

| member | source | states |
|---|---|---|
| ChunkSpec.Pad | encoder.js:6 | the four code units are the chunk's first four, with NUL wherever the chunk is shorter |
| ChunkSpec.UnpackPack | encoder.js:15-23 | packing four bytes little-endian into a word and taking its bytes back gives the same four bytes, so the round trip through `rawValue` changes nothing (the same step recurs at encoder.js:58-67) |
| ChunkSpec.Pack | encoder.js:15-16 | the packed word holds code unit `i` in its `i`-th byte, counting from the lowest, for the four code units |
| ChunkSpec.Unpack | encoder.js:18-23 | the four bytes of a word, lowest first, pack back into the word: the converse of UnpackPack, so Pack and Unpack are inverse bijections between words and four-byte sequences |
| ChunkSpec.Spread | encoder.js:25-34 | the word the interleaving loops have built once every position below `k` is handled; its bit law is SpreadBit and one loop step is SpreadNext |
| ChunkSpec.SpreadNext | encoder.js:28-34 | one step of the interleaving loops ORs bit `p` of byte `i` into position `p * 4 + i` of the word |
| ChunkSpec.SpreadBit | encoder.js:28-34 | once the loops have handled every position below `k`, bit `p * 4 + i` of the word is bit `p` of byte `i` if that position is below `k`, and clear otherwise |
| ChunkSpec.Interleave | encoder.js:28-34 | the word the interleaving loops leave after all 32 positions; its bit law is InterleaveBit and its inverse is Deinterleave |
| ChunkSpec.InterleaveBit | encoder.js:25-34 | bit `p * 4 + i` of the interleaved word is bit `p` of byte `i`, for all 32 positions |
| ChunkSpec.Gather | encoder.js:46-55 | the four bytes the de-interleaving loops have built once every position below `k` is handled; its bit law is GatherBit and one loop step is GatherNext |
| ChunkSpec.GatherNext | encoder.js:49-55 | one step of the de-interleaving loops ORs bit `p * 4 + i` of the word into bit `p` of byte `i` |
| ChunkSpec.GatherBit | encoder.js:49-55 | once the loops have handled every position below `k`, bit `p` of byte `i` is bit `p * 4 + i` of the word if that position is below `k`, and clear otherwise |
| ChunkSpec.Deinterleave | encoder.js:49-55 | four bytes, those the de-interleaving loops leave after all 32 positions; its bit law is DeinterleaveBit and its inverse is Interleave |
| ChunkSpec.DeinterleaveBit | encoder.js:46-55 | bit `p` of byte `i` of the de-interleaved bytes is bit `p * 4 + i` of the word |
| ChunkSpec.DeinterleaveInterleave | encoder.js:49-55 | de-interleaving the interleaving of four bytes gives them back |
| ChunkSpec.InterleaveDeinterleave | encoder.js:28-34 | interleaving the de-interleaved bytes of a word gives the word back |
| ChunkSpec.MortonBit | encoder.js:27 | bit `p * 4 + i` of the Morton code of four bytes is bit `p` of byte `i` |
| ChunkSpec.InterleaveIsMorton | encoder.js:28-34 | the interleaving loops compute the Morton code of the four bytes |
| ChunkSpec.TrimNul | encoder.js:76 | the result is a prefix of the input that does not end in NUL, and every code unit after it is NUL, so only the trailing run is removed and interior NULs stay |
| ChunkSpec.TrimNulUnique | encoder.js:76 | any prefix with those three properties is the result of TrimNul |
| ChunkSpec.TrimNulFixed | encoder.js:76 | stripping leaves a string unchanged exactly when it does not end in NUL |
| ChunkSpec.TrimNulAppendNuls | encoder.js:76 | appending NULs to a string does not change what stripping returns |
| ChunkSpec.TrimNulPad | encoder.js:6 | stripping the NUL-padded chunk gives the same result as stripping the chunk |
| ChunkSpec.EncodeChunk | encoder.js:4-37 | bit `p * 4 + i` of the encoding is bit `p` of the `i`-th code unit of the NUL-padded chunk, for all 32 positions |
| ChunkSpec.EncodeChunkUnique | encoder.js:25-36 | a word that obeys that bit law at all 32 positions is the encoding, so no other bits are set |
| ChunkSpec.DecodeChunk | encoder.js:42-77 | the decoded chunk has at most four code units and does not end in NUL, and NUL-padding it gives exactly the de-interleaved bytes |
| ChunkSpec.EncodeChunkTruncates | test.js:28-33 | only the first four code units matter: appending anything to a chunk of four or more code units leaves its encoding unchanged |
| ChunkSpec.EncodeChunkPads | test.js:35-39 | appending a NUL to any chunk leaves its encoding unchanged, so a short chunk encodes as if padded with NULs |
| ChunkSpec.DecodeEncodeChunkTrims | encoder.js:76 | decoding the encoding of a chunk of at most four code units gives the chunk without its trailing NULs |
| ChunkSpec.DecodeEncodeChunk | test.js:54-63 | a chunk of at most four code units that does not end in NUL decodes from its encoding to itself |
| ChunkSpec.EncodeDecodeChunk | encoder.js:42-77 | every 32-bit word is the encoding of its decoding |
| ChunkCodec.EncodeChunk | encoder.js:4-37 | the byte-copy loop, the pack and unpack, and the nested loops compute the chunk encoding |
| ChunkCodec.DecodeChunk | encoder.js:42-77 | the nested loops, the pack and unpack, the string-building loop and the NUL strip compute the chunk decoding |
| TextSpec.ChunkAt | encoder.js:85 | chunk `k` holds `min(4, n - 4k)` code units, and they are the code units of the text from position `4k` on |
| TextSpec.Chunks | encoder.js:84-85 | the text is cut into `ceil(n / 4)` chunks, chunk `k` is ChunkAt `k`, and they form a chunking: one to four code units each, four in all but the last |
| TextSpec.ConcatChunks | encoder.js:84-85 | joining the chunks of a text gives the text back |
| TextSpec.ChunksConcat | encoder.js:84-85 | cutting the join of a chunking gives its chunks back; with ConcatChunks, Chunks and Concat are inverse bijections between texts and chunkings |
| TextSpec.MapChunks | encoder.js:82-89 | for any chunk encoder, the loop yields one word per chunk, and word `k` is the encoding of chunk `k` |
| TextSpec.Encode | encoder.js:82-89 | encode yields `ceil(n / 4)` words, and word `k` is the chunk encoding of chunk `k`, in text order |
| TextSpec.EncodeAppend | encoder.js:82-89 | encoding a text cut at a chunk boundary encodes the two parts apart and appends the results |
| TextSpec.Decode | encoder.js:94-100 | decode yields at most four code units per word |
| TextSpec.JoinMap | encoder.js:95-98 | the loop of decode for any chunk decoder: the decodings of the words appended in word order, as JoinMapIsConcat and JoinMapAppend state |
| TextSpec.DecodeIsConcat | encoder.js:94-100 | decode is the join, in word order, of the chunk decodings of the words |
| TextSpec.DecodeAppend | encoder.js:94-100 | decoding two word arrays one after the other appends their decodings |
| TextSpec.DecodeEncodeTrims | encoder.js:76 | decoding the encoding of a text joins its chunks, each without its trailing NULs |
| TextSpec.ConcatTrimAll | encoder.js:76 | stripping each chunk's trailing NULs never lengthens the text, and leaves it unchanged exactly when no chunk ends in NUL |
| TextSpec.DecodeEncodeLength | encoder.js:82-100 | a round trip never lengthens a text |
| TextSpec.DecodeEncodeIff | encoder.js:82-100 | a text comes back from a round trip exactly when none of its chunks ends in NUL |
| TextSpec.DecodeEncode | test.js:113-138 | every text without NUL comes back unchanged from a round trip |
| TextSpec.NulAtChunkEndIsLost | encoder.js:76 | a two-character text ending in NUL comes back without the NUL |
| TextCodec.Encode | encoder.js:82-89 | the loop that steps through the text by four computes encode |
| TextCodec.Decode | encoder.js:94-100 | the loop that appends the decoded chunks computes decode |
| Vectors.ChunkVectors | test.js:5-52 | the eight challenge chunks encode to the listed words and decode back from them |
| Vectors.TextVector | test.js:67-101 | chunks that encode one by one to the given words, none ending in NUL, make a text that encodes to those words and decodes back from them |
| Vectors.TacocatVector | test.js:68 | "tacocat" encodes to [267487694, 125043731] and decodes back from it |
| Vectors.NeverOddVector | test.js:69 | "never odd or even" encodes to its five listed words and decodes back from them |
| Vectors.LagerSirVector | test.js:70 | "lager, sir, is regal" encodes to its five listed words and decodes back from them |
| Vectors.SalamiVector | test.js:71 | "go hang a salami, I'm a lasagna hog" encodes to its nine listed words and decodes back from them |
| Vectors.EgadBaseVector | test.js:72 | "egad, a base tone denotes a bad age" encodes to its nine listed words and decodes back from them |
| Vectors.FootBirdVector | test.js:75-80 | "footBIRD" encodes to the words of "foot" and "BIRD" |
| Vectors.FootVector | test.js:107-110 | [267939702] decodes to "foot" |
| Vectors.EmptyVectors | test.js:88-91 | the empty text encodes to no words, and no words decode to the empty text |

## Left out

- The command-line front end `cli.js` is not part of this model. It does argument parsing, file reading, JSON parsing, console output and exit codes, all I/O around `encode` and `decode`.
- Code units above 255 are left out, because text is `seq<Byte>`. `charCodeAt` returns 16-bit units, and for those the shifts of `encodeChunk` mix bits across bytes, a behaviour the format leaves undefined.
- JavaScript number semantics are left out. Words are `bv32`. The signed `<<` that can yield a negative number before `>>> 0`, and the `>>> 0` that `decodeChunk` applies to non-integer or out-of-range arguments, are not modelled. On 32-bit values they give the same bit patterns as the `bv32` operations used here.
- The regular expression `/\0+$/` of `decodeChunk` is modelled by `ChunkSpec.TrimNul`, which removes the trailing run of NULs.
- ChunkSpec.EncodeChunk and ChunkSpec.DecodeChunk leave out the pack and unpack through `rawValue`, because `ChunkSpec.UnpackPack` shows it is the identity. The methods `ChunkCodec.EncodeChunk` and `ChunkCodec.DecodeChunk` perform it as the code does.
- ChunkCodec.DecodeChunk keeps `outputBytes` as a local sequence that each step replaces with an updated copy, not as an array. The array is local to the call and never shared, so there is no aliasing to model.
- The `test.js` checks that `encodeChunk('')` and `encodeChunk('A')` return non-negative numbers hold by the `bv32` type and are not restated. The same goes for the check that `encode('hello')` has two words, which follows from `TextSpec.Encode`'s length law.
- The round-trip strings of `test.js` (lines 113-138) and the chunk round-trip strings (lines 54-63) are covered by `TextSpec.DecodeEncode` and `ChunkSpec.DecodeEncodeChunk` for every such input, not one literal at a time.
