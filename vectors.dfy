/** The literal vectors of the codec's test suite (test.js), stated about
    the model. Text is written as its code units, cut into its chunks of
    four; the string each list spells is given beside it. */
module Vectors {
  import opened Bits
  import opened ChunkSpec
  import opened TextSpec

  /** encodeChunk and decodeChunk on the eight challenge chunks. */
  lemma ChunkVectors()
    ensures EncodeChunk([0x66, 0x6f, 0x6f]) == 124807030 && DecodeChunk(124807030) == [0x66, 0x6f, 0x6f]  // "foo"
    ensures EncodeChunk([0x20, 0x66, 0x6f, 0x6f]) == 250662636 && DecodeChunk(250662636) == [0x20, 0x66, 0x6f, 0x6f]  // " foo"
    ensures EncodeChunk([0x66, 0x6f, 0x6f, 0x74]) == 267939702 && DecodeChunk(267939702) == [0x66, 0x6f, 0x6f, 0x74]  // "foot"
    ensures EncodeChunk([0x42, 0x49, 0x52, 0x44]) == 251930706 && DecodeChunk(251930706) == [0x42, 0x49, 0x52, 0x44]  // "BIRD"
    ensures EncodeChunk([0x2e, 0x2e, 0x2e, 0x2e]) == 15794160 && DecodeChunk(15794160) == [0x2e, 0x2e, 0x2e, 0x2e]  // "...."
    ensures EncodeChunk([0x5e, 0x5e, 0x5e, 0x5e]) == 252706800 && DecodeChunk(252706800) == [0x5e, 0x5e, 0x5e, 0x5e]  // "^^^^"
    ensures EncodeChunk([0x57, 0x6f, 0x6f, 0x74]) == 266956663 && DecodeChunk(266956663) == [0x57, 0x6f, 0x6f, 0x74]  // "Woot"
    ensures EncodeChunk([0x6e, 0x6f]) == 53490482 && DecodeChunk(53490482) == [0x6e, 0x6f]  // "no"
  {
    DecodeEncodeChunk([0x66, 0x6f, 0x6f]);
    DecodeEncodeChunk([0x20, 0x66, 0x6f, 0x6f]);
    DecodeEncodeChunk([0x66, 0x6f, 0x6f, 0x74]);
    DecodeEncodeChunk([0x42, 0x49, 0x52, 0x44]);
    DecodeEncodeChunk([0x2e, 0x2e, 0x2e, 0x2e]);
    DecodeEncodeChunk([0x5e, 0x5e, 0x5e, 0x5e]);
    DecodeEncodeChunk([0x57, 0x6f, 0x6f, 0x74]);
    DecodeEncodeChunk([0x6e, 0x6f]);
  }

  /** A chunking whose parts are free of trailing NULs and encode, one by
      one, to the words of `ws`: encode of its join is `ws`, and decode of
      `ws` is its join. */
  lemma {:induction false} TextVector(cs: seq<seq<Byte>>, ws: seq<Word>)
    requires IsChunking(cs) && |cs| == |ws|
    requires forall k | 0 <= k < |cs| :: EncodeChunk(cs[k]) == ws[k] && !EndsInNul(cs[k])
    ensures Encode(Concat(cs)) == ws && Decode(ws) == Concat(cs)
  {
    var t := Concat(cs);
    ChunksConcat(cs);
    assert forall k | 0 <= k < |cs| :: ChunkAt(t, k) == cs[k];
    assert Encode(t) == ws;
    forall k: nat | 4 * k < |t| ensures !EndsInNul(ChunkAt(t, k)) {
      assert k < |cs|;
    }
    DecodeEncodeIff(t);
  }

  /** encode and decode on "tacocat", cut as "taco" "cat". */
  lemma TacocatVector()
    ensures var cs := [[0x74, 0x61, 0x63, 0x6f], [0x63, 0x61, 0x74]];
      Encode(Concat(cs)) == [267487694, 125043731] && Decode([267487694, 125043731]) == Concat(cs)
  {
    TextVector([[0x74, 0x61, 0x63, 0x6f], [0x63, 0x61, 0x74]], [267487694, 125043731]);
  }

  /** encode and decode on "never odd or even", cut as "neve" "r od" "d or" " eve" "n". */
  lemma NeverOddVector()
    ensures var cs := [[0x6e, 0x65, 0x76, 0x65], [0x72, 0x20, 0x6f, 0x64], [0x64, 0x20, 0x6f, 0x72], [0x20, 0x65, 0x76, 0x65], [0x6e]];
      Encode(Concat(cs)) == [267657050, 233917524, 234374596, 250875466, 17830160] && Decode([267657050, 233917524, 234374596, 250875466, 17830160]) == Concat(cs)
  {
    TextVector([[0x6e, 0x65, 0x76, 0x65], [0x72, 0x20, 0x6f, 0x64], [0x64, 0x20, 0x6f, 0x72], [0x20, 0x65, 0x76, 0x65], [0x6e]], [267657050, 233917524, 234374596, 250875466, 17830160]);
  }

  /** encode and decode on "lager, sir, is regal", cut as "lage" "r, s" "ir, " "is r" "egal". */
  lemma LagerSirVector()
    ensures var cs := [[0x6c, 0x61, 0x67, 0x65], [0x72, 0x2c, 0x20, 0x73], [0x69, 0x72, 0x2c, 0x20], [0x69, 0x73, 0x20, 0x72], [0x65, 0x67, 0x61, 0x6c]];
      Encode(Concat(cs)) == [267394382, 167322264, 66212897, 200937635, 267422503] && Decode([267394382, 167322264, 66212897, 200937635, 267422503]) == Concat(cs)
  {
    TextVector([[0x6c, 0x61, 0x67, 0x65], [0x72, 0x2c, 0x20, 0x73], [0x69, 0x72, 0x2c, 0x20], [0x69, 0x73, 0x20, 0x72], [0x65, 0x67, 0x61, 0x6c]], [267394382, 167322264, 66212897, 200937635, 267422503]);
  }

  /** encode and decode on "go hang a salami, I'm a lasagna hog", cut as "go h" "ang " "a sa" "lami" ", I'" "m a " "lasa" "gna " "hog". */
  lemma SalamiVector()
    ensures var cs := [[0x67, 0x6f, 0x20, 0x68], [0x61, 0x6e, 0x67, 0x20], [0x61, 0x20, 0x73, 0x61], [0x6c, 0x61, 0x6d, 0x69], [0x2c, 0x20, 0x49, 0x27], [0x6d, 0x20, 0x61, 0x20], [0x6c, 0x61, 0x73, 0x61], [0x67, 0x6e, 0x61, 0x20], [0x68, 0x6f, 0x67]];
      Encode(Concat(cs)) == [200319795, 133178981, 234094669, 267441422, 78666124, 99619077, 267653454, 133178165, 124794470] && Decode([200319795, 133178981, 234094669, 267441422, 78666124, 99619077, 267653454, 133178165, 124794470]) == Concat(cs)
  {
    TextVector([[0x67, 0x6f, 0x20, 0x68], [0x61, 0x6e, 0x67, 0x20], [0x61, 0x20, 0x73, 0x61], [0x6c, 0x61, 0x6d, 0x69], [0x2c, 0x20, 0x49, 0x27], [0x6d, 0x20, 0x61, 0x20], [0x6c, 0x61, 0x73, 0x61], [0x67, 0x6e, 0x61, 0x20], [0x68, 0x6f, 0x67]], [200319795, 133178981, 234094669, 267441422, 78666124, 99619077, 267653454, 133178165, 124794470]);
  }

  /** encode and decode on "egad, a base tone denotes a bad age", cut as "egad" ", a " "base" " ton" "e de" "note" "s a " "bad " "age". */
  lemma EgadBaseVector()
    ensures var cs := [[0x65, 0x67, 0x61, 0x64], [0x2c, 0x20, 0x61, 0x20], [0x62, 0x61, 0x73, 0x65], [0x20, 0x74, 0x6f, 0x6e], [0x65, 0x20, 0x64, 0x65], [0x6e, 0x6f, 0x74, 0x65], [0x73, 0x20, 0x61, 0x20], [0x62, 0x61, 0x64, 0x20], [0x61, 0x67, 0x65]];
      Encode(Concat(cs)) == [267389735, 82841860, 267651166, 250793668, 233835785, 267665210, 99680277, 133170194, 124782119] && Decode([267389735, 82841860, 267651166, 250793668, 233835785, 267665210, 99680277, 133170194, 124782119]) == Concat(cs)
  {
    TextVector([[0x65, 0x67, 0x61, 0x64], [0x2c, 0x20, 0x61, 0x20], [0x62, 0x61, 0x73, 0x65], [0x20, 0x74, 0x6f, 0x6e], [0x65, 0x20, 0x64, 0x65], [0x6e, 0x6f, 0x74, 0x65], [0x73, 0x20, 0x61, 0x20], [0x62, 0x61, 0x64, 0x20], [0x61, 0x67, 0x65]], [267389735, 82841860, 267651166, 250793668, 233835785, 267665210, 99680277, 133170194, 124782119]);
  }

  /** encode and decode on "footBIRD", cut as "foot" "BIRD". */
  lemma FootBirdVector()
    ensures var cs := [[0x66, 0x6f, 0x6f, 0x74], [0x42, 0x49, 0x52, 0x44]];
      Encode(Concat(cs)) == [267939702, 251930706] && Decode([267939702, 251930706]) == Concat(cs)
  {
    TextVector([[0x66, 0x6f, 0x6f, 0x74], [0x42, 0x49, 0x52, 0x44]], [267939702, 251930706]);
  }

  /** encode and decode on "foot", cut as "foot". */
  lemma FootVector()
    ensures var cs := [[0x66, 0x6f, 0x6f, 0x74]];
      Encode(Concat(cs)) == [267939702] && Decode([267939702]) == Concat(cs)
  {
    TextVector([[0x66, 0x6f, 0x6f, 0x74]], [267939702]);
  }

  /** The empty text encodes to no words, and no words decode to the empty
      text. */
  lemma EmptyVectors()
    ensures Encode([]) == [] && Decode([]) == []
  {
  }
}
