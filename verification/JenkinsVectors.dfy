/** Values of the Jenkins hash that others published: they fix every rotation of its mixing and where it starts. */
module JenkinsVectors {
  import opened Machine
  import opened Jenkins

  lemma BitsOfValue(b: bv32)
    ensures Bits(Value(b)) == b
  {
  }

  lemma FoldIs(x: bv32, y: bv32, k: nat)
    requires 0 < k < 32
    ensures Fold(Value(x), Value(y), k) == Minus(Value(XorBits(x, y)), Value(RotBits(y, k)))
  {
    hide Value, Bits, XorBits, RotBits, Minus;
    BitsOfValue(x);
    BitsOfValue(y);
  }

  lemma TurnIs(d: bv32, x: bv32, z: bv32, k: nat)
    requires 0 < k < 32 && Minus(Value(x), Value(z)) == Value(d)
    ensures Turn(Value(x), Value(z), k) == Value(XorBits(d, RotBits(z, k)))
  {
    hide Value, Bits, XorBits, RotBits, Minus;
    BitsOfValue(d);
    BitsOfValue(z);
    BitsOfValue(RotBits(z, k));
  }

  // ---------- "apple" ----------

  const APPLE: seq<Byte> := [97, 112, 112, 108, 101]

  lemma AppleFinal(s: Trio)
    requires s == Trio(0x4b1e2f62, 0xdeadbf66, 0xdeadbf01)
    ensures Final(s) == 0x55f9f550
  {
    hide Fold;
    AppleFinalFolds();
  }

  lemma AppleFinalFolds()
    ensures Fold(0xdeadbf01, 0xdeadbf66, 14) == 0x902648bc
    ensures Fold(0x4b1e2f62, 0x902648bc, 11) == 0xa8f2835d
    ensures Fold(0xdeadbf66, 0xa8f2835d, 25) == 0xbb0d5735
    ensures Fold(0x902648bc, 0xbb0d5735, 16) == 0xd3f5647c
    ensures Fold(0xa8f2835d, 0xd3f5647c, 4) == 0x3bb19f54
    ensures Fold(0xbb0d5735, 0x3bb19f54, 14) == 0x18e7b975
    ensures Fold(0xd3f5647c, 0x18e7b975, 24) == 0x55f9f550
  {
    hide Fold;
    FoldIs(0xdeadbf01, 0xdeadbf66, 14);
    FoldIs(0x4b1e2f62, 0x902648bc, 11);
    FoldIs(0xdeadbf66, 0xa8f2835d, 25);
    FoldIs(0x902648bc, 0xbb0d5735, 16);
    FoldIs(0xa8f2835d, 0xd3f5647c, 4);
    FoldIs(0xbb0d5735, 0x3bb19f54, 14);
    FoldIs(0xd3f5647c, 0x18e7b975, 24);
  }

  lemma AppleWords()
    ensures WordAt(APPLE, 0) == 0x6c707061
    ensures WordAt(APPLE, 4) == 0x00000065
    ensures WordAt(APPLE, 8) == 0x00000000
  {
  }

  /** The first value of libmemcached/tests/hash_results.h:129. */
  lemma Apple(key: seq<Byte>)
    requires key == APPLE
    ensures Hash(key) == 1442444624
  {
    hide Final, WordAt;
    AppleWords();
    AppleFinal(Trio(0x4b1e2f62, 0xdeadbf66, 0xdeadbf01));
  }

  // ---------- "mushrooms" ----------

  const MUSHROOMS: seq<Byte> := [109, 117, 115, 104, 114, 111, 111, 109, 115]

  lemma MushroomsFinal(s: Trio)
    requires s == Trio(0x47213472, 0x4c1d2e77, 0xdeadbf78)
    ensures Final(s) == 0x9001106f
  {
    hide Fold;
    MushroomsFinalFolds();
  }

  lemma MushroomsFinalFolds()
    ensures Fold(0xdeadbf78, 0x4c1d2e77, 14) == 0x4712be08
    ensures Fold(0x47213472, 0x4712be08, 11) == 0x6a434842
    ensures Fold(0x4c1d2e77, 0x6a434842, 25) == 0xa189dfa5
    ensures Fold(0x4712be08, 0xa189dfa5, 16) == 0x06f5c024
    ensures Fold(0x6a434842, 0x06f5c024, 4) == 0xfd5a8626
    ensures Fold(0xa189dfa5, 0xfd5a8626, 14) == 0xbb499a2d
    ensures Fold(0x06f5c024, 0xbb499a2d, 24) == 0x9001106f
  {
    hide Fold;
    FoldIs(0xdeadbf78, 0x4c1d2e77, 14);
    FoldIs(0x47213472, 0x4712be08, 11);
    FoldIs(0x4c1d2e77, 0x6a434842, 25);
    FoldIs(0x4712be08, 0xa189dfa5, 16);
    FoldIs(0x6a434842, 0x06f5c024, 4);
    FoldIs(0xa189dfa5, 0xfd5a8626, 14);
    FoldIs(0x06f5c024, 0xbb499a2d, 24);
  }

  lemma MushroomsWords()
    ensures WordAt(MUSHROOMS, 0) == 0x6873756d
    ensures WordAt(MUSHROOMS, 4) == 0x6d6f6f72
    ensures WordAt(MUSHROOMS, 8) == 0x00000073
  {
  }

  /** A key that reaches the third word: the thirteenth value of that table. */
  lemma Mushrooms(key: seq<Byte>)
    requires key == MUSHROOMS
    ensures Hash(key) == 2415988847
  {
    hide Final, WordAt;
    MushroomsWords();
    MushroomsFinal(Trio(0x47213472, 0x4c1d2e77, 0xdeadbf78));
  }

  // ---------- "Four score and seven years ago" ----------

  const ADDRESS: seq<Byte> :=
    [70, 111, 117, 114, 32, 115, 99, 111, 114, 101, 32, 97,
     110, 100, 32, 115, 101, 118, 101, 110, 32, 121, 101, 97,
     114, 115, 32, 97, 103, 111]

  lemma FirstMix(s: Trio)
    requires s == Trio(0x51232e53, 0x4e11322d, 0x3fce247f)
    ensures Mix(s) == Trio(0xf859ad7a, 0x04bc57ae, 0x40dddd7e)
  {
    hide Turn;
    FirstMixHalf();
    FirstMixRest();
  }

  lemma FirstMixHalf()
    ensures Turn(0x51232e53, 0x3fce247f, 4) == 0xedb74e27
    ensures Turn(0x4e11322d, 0xedb74e27, 6) == 0x0d8a6dfd
    ensures Turn(0x8ddf56ac, 0x0d8a6dfd, 8) == 0x0a3915a2
  {
    hide Turn;
    TurnIs(0x115509d4, 0x51232e53, 0x3fce247f, 4);
    TurnIs(0x6059e406, 0x4e11322d, 0xedb74e27, 6);
    TurnIs(0x8054e8af, 0x8ddf56ac, 0x0d8a6dfd, 8);
  }

  lemma FirstMixRest()
    ensures Turn(0x7b96a4d3, 0x0a3915a2, 16) == 0x64ff8508
    ensures Turn(0x892112d0, 0x64ff8508, 19) == 0x0c62aa34
    ensures Turn(0x935a2872, 0x0c62aa34, 4) == 0x40dddd7e
  {
    hide Turn;
    TurnIs(0x715d8f31, 0x7b96a4d3, 0x0a3915a2, 16);
    TurnIs(0x24218dc8, 0x892112d0, 0x64ff8508, 19);
    TurnIs(0x86f77e3e, 0x935a2872, 0x0c62aa34, 4);
  }

  lemma SecondMix(s: Trio)
    requires s == Trio(0x6b7a11e8, 0x7321ce13, 0xa243569e)
    ensures Mix(s) == Trio(0x336aded2, 0x059f2642, 0xbd02ebd5)
  {
    hide Turn;
    SecondMixHalf();
    SecondMixRest();
  }

  lemma SecondMixHalf()
    ensures Turn(0x6b7a11e8, 0xa243569e, 4) == 0xed03d2a0
    ensures Turn(0x7321ce13, 0xed03d2a0, 6) == 0xc6e95348
    ensures Turn(0x156524b1, 0xc6e95348, 8) == 0xa72899af
  {
    hide Turn;
    TurnIs(0xc936bb4a, 0x6b7a11e8, 0xa243569e, 4);
    TurnIs(0x861dfb73, 0x7321ce13, 0xed03d2a0, 6);
    TurnIs(0x4e7bd169, 0x156524b1, 0xc6e95348, 8);
  }

  lemma SecondMixRest()
    ensures Turn(0x0268f751, 0xa72899af, 16) == 0xc2effa8a
    ensures Turn(0xc9524a99, 0xc2effa8a, 19) == 0xd2344770
    ensures Turn(0x707ae448, 0xd2344770, 4) == 0xbd02ebd5
  {
    hide Turn;
    TurnIs(0x5b405da2, 0x0268f751, 0xa72899af, 16);
    TurnIs(0x0662500f, 0xc9524a99, 0xc2effa8a, 19);
    TurnIs(0x9e469cd8, 0x707ae448, 0xd2344770, 4);
  }

  lemma LastFinal(s: Trio)
    requires s == Trio(0x948b5244, 0x059f95a9, 0xbd02ebd5)
    ensures Final(s) == 0x17770551
  {
    hide Fold;
    LastFinalFolds();
  }

  lemma LastFinalFolds()
    ensures Fold(0xbd02ebd5, 0x059f95a9, 14) == 0xd3333d15
    ensures Fold(0x948b5244, 0xd3333d15, 11) == 0xadcfc0b8
    ensures Fold(0x059f95a9, 0xadcfc0b8, 25) == 0x36f4b590
    ensures Fold(0xd3333d15, 0x36f4b590, 16) == 0x30375191
    ensures Fold(0xadcfc0b8, 0x30375191, 4) == 0x9a837816
    ensures Fold(0x36f4b590, 0x9a837816, 14) == 0xce7226e6
    ensures Fold(0x30375191, 0xce7226e6, 24) == 0x17770551
  {
    hide Fold;
    FoldIs(0xbd02ebd5, 0x059f95a9, 14);
    FoldIs(0x948b5244, 0xd3333d15, 11);
    FoldIs(0x059f95a9, 0xadcfc0b8, 25);
    FoldIs(0xd3333d15, 0x36f4b590, 16);
    FoldIs(0xadcfc0b8, 0x30375191, 4);
    FoldIs(0x36f4b590, 0x9a837816, 14);
    FoldIs(0x30375191, 0xce7226e6, 24);
  }

  lemma FirstWords()
    ensures WordAt(ADDRESS, 0) == 0x72756f46
    ensures WordAt(ADDRESS, 4) == 0x6f637320
    ensures WordAt(ADDRESS, 8) == 0x61206572
  {
  }

  lemma SecondWords()
    ensures WordAt(ADDRESS[12..], 0) == 0x7320646e
    ensures WordAt(ADDRESS[12..], 4) == 0x6e657665
    ensures WordAt(ADDRESS[12..], 8) == 0x61657920
  {
  }

  lemma LastWords()
    ensures WordAt(ADDRESS[24..], 0) == 0x61207372
    ensures WordAt(ADDRESS[24..], 4) == 0x00006f67
    ensures WordAt(ADDRESS[24..], 8) == 0x00000000
  {
  }

  lemma Fed(s: Trio, key: seq<Byte>, w0: Word, w1: Word, w2: Word)
    requires WordAt(key, 0) == w0 && WordAt(key, 4) == w1 && WordAt(key, 8) == w2
    ensures Feed(s, key) == Trio((s.a + w0) % TWO32, (s.b + w1) % TWO32, (s.c + w2) % TWO32)
  {
    hide WordAt;
  }

  /** The value lookup3.c gives for this text in its own driver, where the initial value is 0: two blocks and a rest. */
  lemma Address(key: seq<Byte>, s: Trio)
    requires key == ADDRESS && s == Trio(0xdeadbeef + |key|, 0xdeadbeef + |key|, 0xdeadbeef + |key|)
    ensures Digest(s, key) == 0x17770551
  {
    hide Mix, Final, Feed, WordAt;
    FirstWords();
    SecondWords();
    LastWords();
    Fed(s, key, 0x72756f46, 0x6f637320, 0x61206572);
    FirstMix(Trio(0x51232e53, 0x4e11322d, 0x3fce247f));
    var second := Trio(0xf859ad7a, 0x04bc57ae, 0x40dddd7e);
    Fed(second, key[12..], 0x7320646e, 0x6e657665, 0x61657920);
    SecondMix(Trio(0x6b7a11e8, 0x7321ce13, 0xa243569e));
    var last := Trio(0x336aded2, 0x059f2642, 0xbd02ebd5);
    Fed(last, key[24..], 0x61207372, 0x00006f67, 0x00000000);
    LastFinal(Trio(0x948b5244, 0x059f95a9, 0xbd02ebd5));
    assert key[12..][12..] == key[24..];
  }
}
