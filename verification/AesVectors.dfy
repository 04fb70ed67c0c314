/**
 * Published answers of FIPS 197: the key schedule of appendix A.3 and the cipher of appendix C.3. They fix the S-box,
 * the row shift, the column mixing, the round constants and the key expansion.
 */
module AesVectors {
  import opened Gf256
  import opened Fips197
  import Rijndael

  function W(w: bv32): Column {
    Rijndael.Bytes(w)
  }

  function S(w0: bv32, w1: bv32, w2: bv32, w3: bv32): State {
    State(W(w0), W(w1), W(w2), W(w3))
  }

  // ---------- eight words of a 256-bit schedule at a time ----------

  /** A key of 32 bytes from its eight words. */
  function KeyOf(w0: bv32, w1: bv32, w2: bv32, w3: bv32, w4: bv32, w5: bv32, w6: bv32, w7: bv32): (key: seq<bv8>)
    ensures |key| == 32
  {
    Rijndael.ToBlock(S(w0, w1, w2, w3)) + Rijndael.ToBlock(S(w4, w5, w6, w7))
  }

  ghost predicate IsWord(key: seq<bv8>, i: nat, w: bv32) {
    32 <= |key| && ScheduleWord(key, 8, i) == W(w)
  }

  ghost predicate IsHalf(key: seq<bv8>, i: nat, w0: bv32, w1: bv32, w2: bv32, w3: bv32) {
    IsWord(key, i, w0) && IsWord(key, i + 1, w1) && IsWord(key, i + 2, w2) && IsWord(key, i + 3, w3)
  }

  /** Words i to i + 7 of the expansion of the key. */
  ghost predicate IsTurn(key: seq<bv8>, i: nat, w0: bv32, w1: bv32, w2: bv32, w3: bv32,
                         w4: bv32, w5: bv32, w6: bv32, w7: bv32) {
    IsHalf(key, i, w0, w1, w2, w3) && IsHalf(key, i + 4, w4, w5, w6, w7)
  }

  lemma FirstTurn(w0: bv32, w1: bv32, w2: bv32, w3: bv32, w4: bv32, w5: bv32, w6: bv32, w7: bv32)
    ensures IsTurn(KeyOf(w0, w1, w2, w3, w4, w5, w6, w7), 0, w0, w1, w2, w3, w4, w5, w6, w7)
  {
    hide W, Rijndael.ToBlock;
    var key, s, t := KeyOf(w0, w1, w2, w3, w4, w5, w6, w7), S(w0, w1, w2, w3), S(w4, w5, w6, w7);
    Rijndael.StateOfBlock(s);
    Rijndael.StateOfBlock(t);
    assert key[..16] == Rijndael.ToBlock(s) && key[16..] == Rijndael.ToBlock(t);
    HalfKey(key, 0);
    HalfKey(key, 4);
  }

  /** Four words of the key from its half. */
  lemma HalfKey(key: seq<bv8>, i: nat)
    requires |key| == 32 && (i == 0 || i == 4)
    ensures Rijndael.ToState(key[4 * i..4 * i + 16]) ==
            State(KeyWord(key, i), KeyWord(key, i + 1), KeyWord(key, i + 2), KeyWord(key, i + 3))
  {
  }

  /** The recurrence, from the words it reads. */
  lemma NextWord(key: seq<bv8>, i: nat, back: bv32, before: bv32, w: bv32)
    requires 8 <= i && IsWord(key, i - 8, back) && IsWord(key, i - 1, before)
    requires Xor(W(back), Feed(8, i, W(before))) == W(w)
    ensures IsWord(key, i, w)
  {
    hide Xor, Feed, W;
  }

  lemma PlainWord(key: seq<bv8>, i: nat, back: bv32, before: bv32)
    requires 8 <= i && IsWord(key, i - 8, back) && IsWord(key, i - 1, before) && i % 8 != 0 && i % 8 != 4
    ensures IsWord(key, i, Rijndael.XorWord(back, before))
  {
    hide ScheduleWord, IsWord, Xor, Rijndael.Bytes, Rijndael.XorWord;
    Rijndael.BytesXor(back, before);
    NextWord(key, i, back, before, Rijndael.XorWord(back, before));
  }

  /** Two substituted words fix the next turn; the others are exclusive ors. */
  lemma NextTurn(key: seq<bv8>, i: nat, a0: bv32, a1: bv32, a2: bv32, a3: bv32, a4: bv32, a5: bv32, a6: bv32, a7: bv32,
                 b0: bv32, b4: bv32)
    requires i % 8 == 0 && IsTurn(key, i, a0, a1, a2, a3, a4, a5, a6, a7)
    requires Xor(W(a0), Feed(8, i + 8, W(a7))) == W(b0)
    requires var b3 := Rijndael.XorWord(a3, Rijndael.XorWord(a2, Rijndael.XorWord(a1, b0)));
      Xor(W(a4), Feed(8, i + 12, W(b3))) == W(b4)
    ensures var b1 := Rijndael.XorWord(a1, b0);
      var b2 := Rijndael.XorWord(a2, b1);
      var b5 := Rijndael.XorWord(a5, b4);
      var b6 := Rijndael.XorWord(a6, b5);
      IsTurn(key, i + 8, b0, b1, b2, Rijndael.XorWord(a3, b2), b4, b5, b6, Rijndael.XorWord(a7, b6))
  {
    hide Xor, Feed, W, IsWord, Rijndael.XorWord;
    var b1 := Rijndael.XorWord(a1, b0);
    var b2 := Rijndael.XorWord(a2, b1);
    var b3 := Rijndael.XorWord(a3, b2);
    var b5 := Rijndael.XorWord(a5, b4);
    var b6 := Rijndael.XorWord(a6, b5);
    NextWord(key, i + 8, a0, a7, b0);
    PlainWord(key, i + 9, a1, b0);
    PlainWord(key, i + 10, a2, b1);
    PlainWord(key, i + 11, a3, b2);
    NextWord(key, i + 12, a4, b3, b4);
    PlainWord(key, i + 13, a5, b4);
    PlainWord(key, i + 14, a6, b5);
    PlainWord(key, i + 15, a7, b6);
  }

  /** The round keys lie in the turns, two to each. */
  lemma RoundKeyOf(key: seq<bv8>, r: nat, w0: bv32, w1: bv32, w2: bv32, w3: bv32)
    requires |key| == 32 && r <= 14 && IsHalf(key, 4 * r, w0, w1, w2, w3)
    ensures RoundKey(Expand(key, 8, 14), r) == S(w0, w1, w2, w3)
  {
    hide ScheduleWord, W;
  }

  lemma EvenRoundKey(key: seq<bv8>, r: nat, w0: bv32, w1: bv32, w2: bv32, w3: bv32,
                     w4: bv32, w5: bv32, w6: bv32, w7: bv32)
    requires |key| == 32 && r < 14 && r % 2 == 0 && IsTurn(key, 4 * r, w0, w1, w2, w3, w4, w5, w6, w7)
    ensures RoundKey(Expand(key, 8, 14), r) == S(w0, w1, w2, w3)
    ensures RoundKey(Expand(key, 8, 14), r + 1) == S(w4, w5, w6, w7)
  {
    hide IsWord, S, Expand, RoundKey;
    RoundKeyOf(key, r, w0, w1, w2, w3);
    RoundKeyOf(key, r + 1, w4, w5, w6, w7);
  }

  // ---------- rounds ----------

  lemma FirstState(w: seq<Column>, pt: State)
    requires 4 <= |w|
    ensures Rounds(w, pt, 0) == AddRoundKey(pt, RoundKey(w, 0))
  {
  }

  lemma NextRound(w: seq<Column>, pt: State, k: nat)
    requires k > 0 && 4 * k + 4 <= |w|
    ensures Rounds(w, pt, k) == AddRoundKey(MixColumns(ShiftRows(SubBytes(Rounds(w, pt, k - 1)))), RoundKey(w, k))
  {
  }

  lemma Substituted(a0: bv32, a1: bv32, a2: bv32, a3: bv32, b0: bv32, b1: bv32, b2: bv32, b3: bv32)
    requires SubColumn(W(a0)) == W(b0) && SubColumn(W(a1)) == W(b1)
    requires SubColumn(W(a2)) == W(b2) && SubColumn(W(a3)) == W(b3)
    ensures SubBytes(S(a0, a1, a2, a3)) == S(b0, b1, b2, b3)
  {
    hide SubColumn, W;
  }

  lemma LastRound(w: seq<Column>, pt: State, nr: nat)
    requires nr > 0 && 4 * nr + 4 <= |w|
    ensures Cipher(w, nr, pt) == AddRoundKey(ShiftRows(SubBytes(Rounds(w, pt, nr - 1))), RoundKey(w, nr))
  {
  }

  // ---------- appendix A.3 ----------

  function A3Key(): seq<bv8> {
    KeyOf(0x603deb10, 0x15ca71be, 0x2b73aef0, 0x857d7781,
          0x1f352c07, 0x3b6108d7, 0x2d9810a3, 0x0914dff4)
  }

  lemma A3Sums0()
    ensures Xor(W(0x603deb10), Feed(8, 8, W(0x0914dff4))) == W(0x9ba35411)
    ensures Xor(W(0x1f352c07), Feed(8, 12, W(0x2067fcde))) == W(0xa8b09c1a)
    ensures Xor(W(0x9ba35411), Feed(8, 16, W(0xb75d5b9a))) == W(0xd59aecb8)
    ensures Xor(W(0xa8b09c1a), Feed(8, 20, W(0xde8ebe96))) == W(0xb5a9328a)
  {
  }

  lemma A3Sums24()
    ensures Xor(W(0xd59aecb8), Feed(8, 24, W(0x2f6c79b3))) == W(0x812c81ad)
    ensures Xor(W(0xb5a9328a), Feed(8, 28, W(0xfab8b464))) == W(0x98c5bfc9)
    ensures Xor(W(0x812c81ad), Feed(8, 32, W(0x09e04214))) == W(0x68007bac)
    ensures Xor(W(0x98c5bfc9), Feed(8, 36, W(0x6c518d80))) == W(0xc814e204)
  {
  }

  lemma A3Sums40()
    ensures Xor(W(0x68007bac), Feed(8, 40, W(0x59c58239))) == W(0xde136967)
    ensures Xor(W(0xc814e204), Feed(8, 44, W(0x9674ee15))) == W(0x5886ca5d)
    ensures Xor(W(0xde136967), Feed(8, 48, W(0x27cf73c3))) == W(0x749c47ab)
    ensures Xor(W(0x5886ca5d), Feed(8, 52, W(0x7401905a))) == W(0xcafaaae3)
    ensures Xor(W(0x749c47ab), Feed(8, 56, W(0xbd10190d))) == W(0xfe4890d1)
  {
  }

  /** Words 0 to 23. */
  lemma A3Words0()
    ensures IsTurn(A3Key(), 0, 0x603deb10, 0x15ca71be, 0x2b73aef0, 0x857d7781,
                   0x1f352c07, 0x3b6108d7, 0x2d9810a3, 0x0914dff4)
    ensures IsTurn(A3Key(), 8, 0x9ba35411, 0x8e6925af, 0xa51a8b5f, 0x2067fcde,
                   0xa8b09c1a, 0x93d194cd, 0xbe49846e, 0xb75d5b9a)
    ensures IsTurn(A3Key(), 16, 0xd59aecb8, 0x5bf3c917, 0xfee94248, 0xde8ebe96,
                   0xb5a9328a, 0x2678a647, 0x98312229, 0x2f6c79b3)
  {
    hide W, IsTurn, IsWord, ScheduleWord, Feed, Xor, KeyOf;
    FirstTurn(0x603deb10, 0x15ca71be, 0x2b73aef0, 0x857d7781,
              0x1f352c07, 0x3b6108d7, 0x2d9810a3, 0x0914dff4);
    A3Sums0();
    NextTurn(A3Key(), 0, 0x603deb10, 0x15ca71be, 0x2b73aef0, 0x857d7781,
             0x1f352c07, 0x3b6108d7, 0x2d9810a3, 0x0914dff4, 0x9ba35411, 0xa8b09c1a);
    NextTurn(A3Key(), 8, 0x9ba35411, 0x8e6925af, 0xa51a8b5f, 0x2067fcde,
             0xa8b09c1a, 0x93d194cd, 0xbe49846e, 0xb75d5b9a, 0xd59aecb8, 0xb5a9328a);
  }

  /** Words 24 to 39. */
  lemma A3Words24()
    ensures IsTurn(A3Key(), 24, 0x812c81ad, 0xdadf48ba, 0x24360af2, 0xfab8b464,
                   0x98c5bfc9, 0xbebd198e, 0x268c3ba7, 0x09e04214)
    ensures IsTurn(A3Key(), 32, 0x68007bac, 0xb2df3316, 0x96e939e4, 0x6c518d80,
                   0xc814e204, 0x76a9fb8a, 0x5025c02d, 0x59c58239)
  {
    hide W, IsTurn, IsWord, ScheduleWord, Feed, Xor, KeyOf;
    A3Words0();
    A3Sums24();
    NextTurn(A3Key(), 16, 0xd59aecb8, 0x5bf3c917, 0xfee94248, 0xde8ebe96,
             0xb5a9328a, 0x2678a647, 0x98312229, 0x2f6c79b3, 0x812c81ad, 0x98c5bfc9);
    NextTurn(A3Key(), 24, 0x812c81ad, 0xdadf48ba, 0x24360af2, 0xfab8b464,
             0x98c5bfc9, 0xbebd198e, 0x268c3ba7, 0x09e04214, 0x68007bac, 0xc814e204);
  }

  /** Words 40 to 55. */
  lemma A3Words40()
    ensures IsTurn(A3Key(), 40, 0xde136967, 0x6ccc5a71, 0xfa256395, 0x9674ee15,
                   0x5886ca5d, 0x2e2f31d7, 0x7e0af1fa, 0x27cf73c3)
    ensures IsTurn(A3Key(), 48, 0x749c47ab, 0x18501dda, 0xe2757e4f, 0x7401905a,
                   0xcafaaae3, 0xe4d59b34, 0x9adf6ace, 0xbd10190d)
  {
    hide W, IsTurn, IsWord, ScheduleWord, Feed, Xor, KeyOf;
    A3Words24();
    A3Sums40();
    NextTurn(A3Key(), 32, 0x68007bac, 0xb2df3316, 0x96e939e4, 0x6c518d80,
             0xc814e204, 0x76a9fb8a, 0x5025c02d, 0x59c58239, 0xde136967, 0x5886ca5d);
    NextTurn(A3Key(), 40, 0xde136967, 0x6ccc5a71, 0xfa256395, 0x9674ee15,
             0x5886ca5d, 0x2e2f31d7, 0x7e0af1fa, 0x27cf73c3, 0x749c47ab, 0xcafaaae3);
  }

  /** The last four words. */
  lemma A3Words56()
    ensures IsHalf(A3Key(), 56, 0xfe4890d1, 0xe6188d0b, 0x046df344, 0x706c631e)
  {
    hide W, IsWord, ScheduleWord, Feed, Xor, KeyOf;
    A3Words40();
    A3Sums40();
    NextWord(A3Key(), 56, 0x749c47ab, 0xbd10190d, 0xfe4890d1);
    PlainWord(A3Key(), 57, 0x18501dda, 0xfe4890d1);
    PlainWord(A3Key(), 58, 0xe2757e4f, 0xe6188d0b);
    PlainWord(A3Key(), 59, 0x7401905a, 0x046df344);
  }

  // ---------- appendix C.3 ----------

  function C3Key(): seq<bv8> {
    KeyOf(0x00010203, 0x04050607, 0x08090a0b, 0x0c0d0e0f,
          0x10111213, 0x14151617, 0x18191a1b, 0x1c1d1e1f)
  }

  lemma C3Sums0()
    ensures Xor(W(0x00010203), Feed(8, 8, W(0x1c1d1e1f))) == W(0xa573c29f)
    ensures Xor(W(0x10111213), Feed(8, 12, W(0xa572c09c))) == W(0x1651a8cd)
    ensures Xor(W(0xa573c29f), Feed(8, 16, W(0x0640bade))) == W(0xae87dff0)
    ensures Xor(W(0x1651a8cd), Feed(8, 20, W(0x03fc1567))) == W(0x6de1f148)
  {
  }

  lemma C3Sums24()
    ensures Xor(W(0xae87dff0), Feed(8, 24, W(0x73b8518d))) == W(0xc656827f)
    ensures Xor(W(0x6de1f148), Feed(8, 28, W(0x6cd5598b))) == W(0x3de23a75)
    ensures Xor(W(0xc656827f), Feed(8, 32, W(0x5407cf39))) == W(0x0bdc905f)
    ensures Xor(W(0x3de23a75), Feed(8, 36, W(0xc1871c2f))) == W(0x45f5a660)
  {
  }

  lemma C3Sums40()
    ensures Xor(W(0x0bdc905f), Feed(8, 40, W(0x640a820a))) == W(0x7ccff71c)
    ensures Xor(W(0x45f5a660), Feed(8, 44, W(0xd261a7df))) == W(0xf01afafe)
    ensures Xor(W(0x7ccff71c), Feed(8, 48, W(0xb3afe640))) == W(0x2541fe71)
    ensures Xor(W(0xf01afafe), Feed(8, 52, W(0x5a721c0a))) == W(0x4e5a6699)
    ensures Xor(W(0x2541fe71), Feed(8, 56, W(0xcdf8cdea))) == W(0x24fc79cc)
  {
  }

  /** Words 0 to 23. */
  lemma C3Words0()
    ensures IsTurn(C3Key(), 0, 0x00010203, 0x04050607, 0x08090a0b, 0x0c0d0e0f,
                   0x10111213, 0x14151617, 0x18191a1b, 0x1c1d1e1f)
    ensures IsTurn(C3Key(), 8, 0xa573c29f, 0xa176c498, 0xa97fce93, 0xa572c09c,
                   0x1651a8cd, 0x0244beda, 0x1a5da4c1, 0x0640bade)
    ensures IsTurn(C3Key(), 16, 0xae87dff0, 0x0ff11b68, 0xa68ed5fb, 0x03fc1567,
                   0x6de1f148, 0x6fa54f92, 0x75f8eb53, 0x73b8518d)
  {
    hide W, IsTurn, IsWord, ScheduleWord, Feed, Xor, KeyOf;
    FirstTurn(0x00010203, 0x04050607, 0x08090a0b, 0x0c0d0e0f,
              0x10111213, 0x14151617, 0x18191a1b, 0x1c1d1e1f);
    C3Sums0();
    NextTurn(C3Key(), 0, 0x00010203, 0x04050607, 0x08090a0b, 0x0c0d0e0f,
             0x10111213, 0x14151617, 0x18191a1b, 0x1c1d1e1f, 0xa573c29f, 0x1651a8cd);
    NextTurn(C3Key(), 8, 0xa573c29f, 0xa176c498, 0xa97fce93, 0xa572c09c,
             0x1651a8cd, 0x0244beda, 0x1a5da4c1, 0x0640bade, 0xae87dff0, 0x6de1f148);
  }

  /** Words 24 to 39. */
  lemma C3Words24()
    ensures IsTurn(C3Key(), 24, 0xc656827f, 0xc9a79917, 0x6f294cec, 0x6cd5598b,
                   0x3de23a75, 0x524775e7, 0x27bf9eb4, 0x5407cf39)
    ensures IsTurn(C3Key(), 32, 0x0bdc905f, 0xc27b0948, 0xad5245a4, 0xc1871c2f,
                   0x45f5a660, 0x17b2d387, 0x300d4d33, 0x640a820a)
  {
    hide W, IsTurn, IsWord, ScheduleWord, Feed, Xor, KeyOf;
    C3Words0();
    C3Sums24();
    NextTurn(C3Key(), 16, 0xae87dff0, 0x0ff11b68, 0xa68ed5fb, 0x03fc1567,
             0x6de1f148, 0x6fa54f92, 0x75f8eb53, 0x73b8518d, 0xc656827f, 0x3de23a75);
    NextTurn(C3Key(), 24, 0xc656827f, 0xc9a79917, 0x6f294cec, 0x6cd5598b,
             0x3de23a75, 0x524775e7, 0x27bf9eb4, 0x5407cf39, 0x0bdc905f, 0x45f5a660);
  }

  /** Words 40 to 55. */
  lemma C3Words40()
    ensures IsTurn(C3Key(), 40, 0x7ccff71c, 0xbeb4fe54, 0x13e6bbf0, 0xd261a7df,
                   0xf01afafe, 0xe7a82979, 0xd7a5644a, 0xb3afe640)
    ensures IsTurn(C3Key(), 48, 0x2541fe71, 0x9bf50025, 0x8813bbd5, 0x5a721c0a,
                   0x4e5a6699, 0xa9f24fe0, 0x7e572baa, 0xcdf8cdea)
  {
    hide W, IsTurn, IsWord, ScheduleWord, Feed, Xor, KeyOf;
    C3Words24();
    C3Sums40();
    NextTurn(C3Key(), 32, 0x0bdc905f, 0xc27b0948, 0xad5245a4, 0xc1871c2f,
             0x45f5a660, 0x17b2d387, 0x300d4d33, 0x640a820a, 0x7ccff71c, 0xf01afafe);
    NextTurn(C3Key(), 40, 0x7ccff71c, 0xbeb4fe54, 0x13e6bbf0, 0xd261a7df,
             0xf01afafe, 0xe7a82979, 0xd7a5644a, 0xb3afe640, 0x2541fe71, 0x4e5a6699);
  }

  /** The last four words. */
  lemma C3Words56()
    ensures IsHalf(C3Key(), 56, 0x24fc79cc, 0xbf0979e9, 0x371ac23c, 0x6d68de36)
  {
    hide W, IsWord, ScheduleWord, Feed, Xor, KeyOf;
    C3Words40();
    C3Sums40();
    NextWord(C3Key(), 56, 0x2541fe71, 0xcdf8cdea, 0x24fc79cc);
    PlainWord(C3Key(), 57, 0x9bf50025, 0x24fc79cc);
    PlainWord(C3Key(), 58, 0x8813bbd5, 0xbf0979e9);
    PlainWord(C3Key(), 59, 0x5a721c0a, 0x371ac23c);
  }

  function C3Block(): State {
    S(0x00112233, 0x44556677, 0x8899aabb, 0xccddeeff)
  }

  function C3Schedule(): (w: seq<Column>)
    ensures |w| == 60
  {
    Expand(C3Key(), 8, 14)
  }

  lemma KeyLength()
    ensures |C3Key()| == 32
  {
  }

  lemma ScheduleOfKey()
    ensures C3Schedule() == Expand(C3Key(), 8, 14)
  {
    hide Expand;
  }

  lemma C3Start()
    ensures AddRoundKey(C3Block(), S(0x00010203, 0x04050607, 0x08090a0b, 0x0c0d0e0f)) ==
            S(0x00102030, 0x40506070, 0x8090a0b0, 0xc0d0e0f0)
  {
  }

  lemma C3Sub1()
    ensures SubColumn(W(0x00102030)) == W(0x63cab704)
    ensures SubColumn(W(0x40506070)) == W(0x0953d051)
    ensures SubColumn(W(0x8090a0b0)) == W(0xcd60e0e7)
    ensures SubColumn(W(0xc0d0e0f0)) == W(0xba70e18c)
  {
  }

  lemma C3Sub2()
    ensures SubColumn(W(0x4f637606)) == W(0x84fb386f)
    ensures SubColumn(W(0x43e0aa85)) == W(0x1ae1ac97)
    ensures SubColumn(W(0xefa72132)) == W(0xdf5cfd23)
    ensures SubColumn(W(0x01a4e705)) == W(0x7c49946b)
  {
  }

  lemma C3Sub3()
    ensures SubColumn(W(0x1859fbc2)) == W(0xadcb0f25)
    ensures SubColumn(W(0x8a1c00a0)) == W(0x7e9c63e0)
    ensures SubColumn(W(0x78ed8aad)) == W(0xbc557e95)
    ensures SubColumn(W(0xc42f6109)) == W(0x1c15ef01)
  {
  }

  lemma C3Sub4()
    ensures SubColumn(W(0x975c66c1)) == W(0x884a3378)
    ensures SubColumn(W(0xcb9f3fa8)) == W(0x1fdb75c2)
    ensures SubColumn(W(0xa93a28df)) == W(0xd380349e)
    ensures SubColumn(W(0x8ee10f63)) == W(0x19f876fb)
  {
  }

  lemma C3Sub5()
    ensures SubColumn(W(0x1c05f271)) == W(0x9c6b89a3)
    ensures SubColumn(W(0xa417e04f)) == W(0x49f0e184)
    ensures SubColumn(W(0xf921c5c1)) == W(0x99fda678)
    ensures SubColumn(W(0x04701554)) == W(0xf2515920)
  {
  }

  lemma C3Sub6()
    ensures SubColumn(W(0xc357aae1)) == W(0x2e5bacf8)
    ensures SubColumn(W(0x1b45b7b0)) == W(0xaf6ea9e7)
    ensures SubColumn(W(0xa2c7bd28)) == W(0x3ac67a34)
    ensures SubColumn(W(0xa8dc99fa)) == W(0xc286ee2d)
  {
  }

  lemma C3Sub7()
    ensures SubColumn(W(0x7f074143)) == W(0xd2c5831a)
    ensures SubColumn(W(0xcb4e243e)) == W(0x1f2f36b2)
    ensures SubColumn(W(0xc10c815d)) == W(0x78fe0c4c)
    ensures SubColumn(W(0x8375d54c)) == W(0xec9d0329)
  {
  }

  lemma C3Sub8()
    ensures SubColumn(W(0xd653a469)) == W(0xf6ed49f9)
    ensures SubColumn(W(0x6ca0bc0f)) == W(0x50e06576)
    ensures SubColumn(W(0x5acaab5d)) == W(0xbe74624c)
    ensures SubColumn(W(0xb96c5e7d)) == W(0x565058ff)
  {
  }

  lemma C3Sub9()
    ensures SubColumn(W(0x5aa85839)) == W(0xbec26a12)
    ensures SubColumn(W(0x5fd28d7d)) == W(0xcfb55dff)
    ensures SubColumn(W(0x05e1a388)) == W(0x6bf80ac4)
    ensures SubColumn(W(0x68f3b9c5)) == W(0x450d56a6)
  {
  }

  lemma C3Sub10()
    ensures SubColumn(W(0x4a824851)) == W(0xd61352d1)
    ensures SubColumn(W(0xc57e7e47)) == W(0xa6f3f3a0)
    ensures SubColumn(W(0x643de50c)) == W(0x4327d9fe)
    ensures SubColumn(W(0x2af3e8c9)) == W(0xe50d9bdd)
  {
  }

  lemma C3Sub11()
    ensures SubColumn(W(0xc14907f6)) == W(0x783bc542)
    ensures SubColumn(W(0xca3b3aa0)) == W(0x74e280e0)
    ensures SubColumn(W(0x70e9aa31)) == W(0x511eacc7)
    ensures SubColumn(W(0x3b52b5ec)) == W(0xe200d5ce)
  {
  }

  lemma C3Sub12()
    ensures SubColumn(W(0x5f9c6abf)) == W(0xcfde0208)
    ensures SubColumn(W(0xbac634aa)) == W(0xf4b418ac)
    ensures SubColumn(W(0x50409fa7)) == W(0x5309db5c)
    ensures SubColumn(W(0x66677653)) == W(0x338538ed)
  {
  }

  lemma C3Sub13()
    ensures SubColumn(W(0x51660495)) == W(0xd133f22a)
    ensures SubColumn(W(0x43539503)) == W(0x1aed2a7b)
    ensures SubColumn(W(0x14fb86e4)) == W(0xfa0f4469)
    ensures SubColumn(W(0x01922521)) == W(0x7c4f3ffd)
  {
  }

  lemma C3Sub14()
    ensures SubColumn(W(0x627bceb9)) == W(0xaa218b56)
    ensures SubColumn(W(0x999d5aaa)) == W(0xee5ebeac)
    ensures SubColumn(W(0xc945ecf4)) == W(0xdd6ecebf)
    ensures SubColumn(W(0x23f56da5)) == W(0x26e63c06)
  {
  }

  lemma C3Rounds1()
    ensures AddRoundKey(MixColumns(ShiftRows(S(0x63cab704, 0x0953d051, 0xcd60e0e7, 0xba70e18c))),
                        S(0x10111213, 0x14151617, 0x18191a1b, 0x1c1d1e1f)) ==
            S(0x4f637606, 0x43e0aa85, 0xefa72132, 0x01a4e705)
    ensures AddRoundKey(MixColumns(ShiftRows(S(0x84fb386f, 0x1ae1ac97, 0xdf5cfd23, 0x7c49946b))),
                        S(0xa573c29f, 0xa176c498, 0xa97fce93, 0xa572c09c)) ==
            S(0x1859fbc2, 0x8a1c00a0, 0x78ed8aad, 0xc42f6109)
  {
  }

  lemma C3Rounds3()
    ensures AddRoundKey(MixColumns(ShiftRows(S(0xadcb0f25, 0x7e9c63e0, 0xbc557e95, 0x1c15ef01))),
                        S(0x1651a8cd, 0x0244beda, 0x1a5da4c1, 0x0640bade)) ==
            S(0x975c66c1, 0xcb9f3fa8, 0xa93a28df, 0x8ee10f63)
    ensures AddRoundKey(MixColumns(ShiftRows(S(0x884a3378, 0x1fdb75c2, 0xd380349e, 0x19f876fb))),
                        S(0xae87dff0, 0x0ff11b68, 0xa68ed5fb, 0x03fc1567)) ==
            S(0x1c05f271, 0xa417e04f, 0xf921c5c1, 0x04701554)
  {
  }

  lemma C3Rounds5()
    ensures AddRoundKey(MixColumns(ShiftRows(S(0x9c6b89a3, 0x49f0e184, 0x99fda678, 0xf2515920))),
                        S(0x6de1f148, 0x6fa54f92, 0x75f8eb53, 0x73b8518d)) ==
            S(0xc357aae1, 0x1b45b7b0, 0xa2c7bd28, 0xa8dc99fa)
    ensures AddRoundKey(MixColumns(ShiftRows(S(0x2e5bacf8, 0xaf6ea9e7, 0x3ac67a34, 0xc286ee2d))),
                        S(0xc656827f, 0xc9a79917, 0x6f294cec, 0x6cd5598b)) ==
            S(0x7f074143, 0xcb4e243e, 0xc10c815d, 0x8375d54c)
  {
  }

  lemma C3Rounds7()
    ensures AddRoundKey(MixColumns(ShiftRows(S(0xd2c5831a, 0x1f2f36b2, 0x78fe0c4c, 0xec9d0329))),
                        S(0x3de23a75, 0x524775e7, 0x27bf9eb4, 0x5407cf39)) ==
            S(0xd653a469, 0x6ca0bc0f, 0x5acaab5d, 0xb96c5e7d)
    ensures AddRoundKey(MixColumns(ShiftRows(S(0xf6ed49f9, 0x50e06576, 0xbe74624c, 0x565058ff))),
                        S(0x0bdc905f, 0xc27b0948, 0xad5245a4, 0xc1871c2f)) ==
            S(0x5aa85839, 0x5fd28d7d, 0x05e1a388, 0x68f3b9c5)
  {
  }

  lemma C3Rounds9()
    ensures AddRoundKey(MixColumns(ShiftRows(S(0xbec26a12, 0xcfb55dff, 0x6bf80ac4, 0x450d56a6))),
                        S(0x45f5a660, 0x17b2d387, 0x300d4d33, 0x640a820a)) ==
            S(0x4a824851, 0xc57e7e47, 0x643de50c, 0x2af3e8c9)
    ensures AddRoundKey(MixColumns(ShiftRows(S(0xd61352d1, 0xa6f3f3a0, 0x4327d9fe, 0xe50d9bdd))),
                        S(0x7ccff71c, 0xbeb4fe54, 0x13e6bbf0, 0xd261a7df)) ==
            S(0xc14907f6, 0xca3b3aa0, 0x70e9aa31, 0x3b52b5ec)
  {
  }

  lemma C3Rounds11()
    ensures AddRoundKey(MixColumns(ShiftRows(S(0x783bc542, 0x74e280e0, 0x511eacc7, 0xe200d5ce))),
                        S(0xf01afafe, 0xe7a82979, 0xd7a5644a, 0xb3afe640)) ==
            S(0x5f9c6abf, 0xbac634aa, 0x50409fa7, 0x66677653)
    ensures AddRoundKey(MixColumns(ShiftRows(S(0xcfde0208, 0xf4b418ac, 0x5309db5c, 0x338538ed))),
                        S(0x2541fe71, 0x9bf50025, 0x8813bbd5, 0x5a721c0a)) ==
            S(0x51660495, 0x43539503, 0x14fb86e4, 0x01922521)
  {
  }

  lemma C3Rounds13()
    ensures AddRoundKey(MixColumns(ShiftRows(S(0xd133f22a, 0x1aed2a7b, 0xfa0f4469, 0x7c4f3ffd))),
                        S(0x4e5a6699, 0xa9f24fe0, 0x7e572baa, 0xcdf8cdea)) ==
            S(0x627bceb9, 0x999d5aaa, 0xc945ecf4, 0x23f56da5)
    ensures AddRoundKey(ShiftRows(S(0xaa218b56, 0xee5ebeac, 0xdd6ecebf, 0x26e63c06)),
                        S(0x24fc79cc, 0xbf0979e9, 0x371ac23c, 0x6d68de36)) ==
            S(0x8ea2b7ca, 0x516745bf, 0xeafc4990, 0x4b496089)
  {
  }

  /** The state after every second round. */
  lemma C3State2()
    ensures Rounds(C3Schedule(), C3Block(), 2) == S(0x1859fbc2, 0x8a1c00a0, 0x78ed8aad, 0xc42f6109)
  {
    hide *;
    KeyLength();
    ScheduleOfKey();
    C3Words0();
    EvenRoundKey(C3Key(), 0, 0x00010203, 0x04050607, 0x08090a0b, 0x0c0d0e0f,
                 0x10111213, 0x14151617, 0x18191a1b, 0x1c1d1e1f);
    EvenRoundKey(C3Key(), 2, 0xa573c29f, 0xa176c498, 0xa97fce93, 0xa572c09c,
                 0x1651a8cd, 0x0244beda, 0x1a5da4c1, 0x0640bade);
    C3Start();
    FirstState(C3Schedule(), C3Block());
    C3Rounds1();
    C3Sub1();
    Substituted(0x00102030, 0x40506070, 0x8090a0b0, 0xc0d0e0f0,
                0x63cab704, 0x0953d051, 0xcd60e0e7, 0xba70e18c);
    NextRound(C3Schedule(), C3Block(), 1);
    C3Sub2();
    Substituted(0x4f637606, 0x43e0aa85, 0xefa72132, 0x01a4e705,
                0x84fb386f, 0x1ae1ac97, 0xdf5cfd23, 0x7c49946b);
    NextRound(C3Schedule(), C3Block(), 2);
  }

  lemma C3State4()
    ensures Rounds(C3Schedule(), C3Block(), 4) == S(0x1c05f271, 0xa417e04f, 0xf921c5c1, 0x04701554)
  {
    hide *;
    KeyLength();
    ScheduleOfKey();
    C3Words0();
    EvenRoundKey(C3Key(), 2, 0xa573c29f, 0xa176c498, 0xa97fce93, 0xa572c09c,
                 0x1651a8cd, 0x0244beda, 0x1a5da4c1, 0x0640bade);
    EvenRoundKey(C3Key(), 4, 0xae87dff0, 0x0ff11b68, 0xa68ed5fb, 0x03fc1567,
                 0x6de1f148, 0x6fa54f92, 0x75f8eb53, 0x73b8518d);
    C3State2();
    C3Rounds3();
    C3Sub3();
    Substituted(0x1859fbc2, 0x8a1c00a0, 0x78ed8aad, 0xc42f6109,
                0xadcb0f25, 0x7e9c63e0, 0xbc557e95, 0x1c15ef01);
    NextRound(C3Schedule(), C3Block(), 3);
    C3Sub4();
    Substituted(0x975c66c1, 0xcb9f3fa8, 0xa93a28df, 0x8ee10f63,
                0x884a3378, 0x1fdb75c2, 0xd380349e, 0x19f876fb);
    NextRound(C3Schedule(), C3Block(), 4);
  }

  lemma C3State6()
    ensures Rounds(C3Schedule(), C3Block(), 6) == S(0x7f074143, 0xcb4e243e, 0xc10c815d, 0x8375d54c)
  {
    hide *;
    KeyLength();
    ScheduleOfKey();
    C3Words0();
    C3Words24();
    EvenRoundKey(C3Key(), 4, 0xae87dff0, 0x0ff11b68, 0xa68ed5fb, 0x03fc1567,
                 0x6de1f148, 0x6fa54f92, 0x75f8eb53, 0x73b8518d);
    EvenRoundKey(C3Key(), 6, 0xc656827f, 0xc9a79917, 0x6f294cec, 0x6cd5598b,
                 0x3de23a75, 0x524775e7, 0x27bf9eb4, 0x5407cf39);
    C3State4();
    C3Rounds5();
    C3Sub5();
    Substituted(0x1c05f271, 0xa417e04f, 0xf921c5c1, 0x04701554,
                0x9c6b89a3, 0x49f0e184, 0x99fda678, 0xf2515920);
    NextRound(C3Schedule(), C3Block(), 5);
    C3Sub6();
    Substituted(0xc357aae1, 0x1b45b7b0, 0xa2c7bd28, 0xa8dc99fa,
                0x2e5bacf8, 0xaf6ea9e7, 0x3ac67a34, 0xc286ee2d);
    NextRound(C3Schedule(), C3Block(), 6);
  }

  lemma C3State8()
    ensures Rounds(C3Schedule(), C3Block(), 8) == S(0x5aa85839, 0x5fd28d7d, 0x05e1a388, 0x68f3b9c5)
  {
    hide *;
    KeyLength();
    ScheduleOfKey();
    C3Words24();
    EvenRoundKey(C3Key(), 6, 0xc656827f, 0xc9a79917, 0x6f294cec, 0x6cd5598b,
                 0x3de23a75, 0x524775e7, 0x27bf9eb4, 0x5407cf39);
    EvenRoundKey(C3Key(), 8, 0x0bdc905f, 0xc27b0948, 0xad5245a4, 0xc1871c2f,
                 0x45f5a660, 0x17b2d387, 0x300d4d33, 0x640a820a);
    C3State6();
    C3Rounds7();
    C3Sub7();
    Substituted(0x7f074143, 0xcb4e243e, 0xc10c815d, 0x8375d54c,
                0xd2c5831a, 0x1f2f36b2, 0x78fe0c4c, 0xec9d0329);
    NextRound(C3Schedule(), C3Block(), 7);
    C3Sub8();
    Substituted(0xd653a469, 0x6ca0bc0f, 0x5acaab5d, 0xb96c5e7d,
                0xf6ed49f9, 0x50e06576, 0xbe74624c, 0x565058ff);
    NextRound(C3Schedule(), C3Block(), 8);
  }

  lemma C3State10()
    ensures Rounds(C3Schedule(), C3Block(), 10) == S(0xc14907f6, 0xca3b3aa0, 0x70e9aa31, 0x3b52b5ec)
  {
    hide *;
    KeyLength();
    ScheduleOfKey();
    C3Words24();
    C3Words40();
    EvenRoundKey(C3Key(), 8, 0x0bdc905f, 0xc27b0948, 0xad5245a4, 0xc1871c2f,
                 0x45f5a660, 0x17b2d387, 0x300d4d33, 0x640a820a);
    EvenRoundKey(C3Key(), 10, 0x7ccff71c, 0xbeb4fe54, 0x13e6bbf0, 0xd261a7df,
                 0xf01afafe, 0xe7a82979, 0xd7a5644a, 0xb3afe640);
    C3State8();
    C3Rounds9();
    C3Sub9();
    Substituted(0x5aa85839, 0x5fd28d7d, 0x05e1a388, 0x68f3b9c5,
                0xbec26a12, 0xcfb55dff, 0x6bf80ac4, 0x450d56a6);
    NextRound(C3Schedule(), C3Block(), 9);
    C3Sub10();
    Substituted(0x4a824851, 0xc57e7e47, 0x643de50c, 0x2af3e8c9,
                0xd61352d1, 0xa6f3f3a0, 0x4327d9fe, 0xe50d9bdd);
    NextRound(C3Schedule(), C3Block(), 10);
  }

  lemma C3State12()
    ensures Rounds(C3Schedule(), C3Block(), 12) == S(0x51660495, 0x43539503, 0x14fb86e4, 0x01922521)
  {
    hide *;
    KeyLength();
    ScheduleOfKey();
    C3Words40();
    EvenRoundKey(C3Key(), 10, 0x7ccff71c, 0xbeb4fe54, 0x13e6bbf0, 0xd261a7df,
                 0xf01afafe, 0xe7a82979, 0xd7a5644a, 0xb3afe640);
    EvenRoundKey(C3Key(), 12, 0x2541fe71, 0x9bf50025, 0x8813bbd5, 0x5a721c0a,
                 0x4e5a6699, 0xa9f24fe0, 0x7e572baa, 0xcdf8cdea);
    C3State10();
    C3Rounds11();
    C3Sub11();
    Substituted(0xc14907f6, 0xca3b3aa0, 0x70e9aa31, 0x3b52b5ec,
                0x783bc542, 0x74e280e0, 0x511eacc7, 0xe200d5ce);
    NextRound(C3Schedule(), C3Block(), 11);
    C3Sub12();
    Substituted(0x5f9c6abf, 0xbac634aa, 0x50409fa7, 0x66677653,
                0xcfde0208, 0xf4b418ac, 0x5309db5c, 0x338538ed);
    NextRound(C3Schedule(), C3Block(), 12);
  }

  /** The block 00112233445566778899aabbccddeeff under the key 00, 01, 02, ... of 32 bytes. */
  lemma C3Answer()
    ensures Cipher(C3Schedule(), 14, C3Block()) == S(0x8ea2b7ca, 0x516745bf, 0xeafc4990, 0x4b496089)
  {
    hide *;
    KeyLength();
    ScheduleOfKey();
    C3Words40();
    C3Words56();
    EvenRoundKey(C3Key(), 12, 0x2541fe71, 0x9bf50025, 0x8813bbd5, 0x5a721c0a,
                 0x4e5a6699, 0xa9f24fe0, 0x7e572baa, 0xcdf8cdea);
    RoundKeyOf(C3Key(), 14, 0x24fc79cc, 0xbf0979e9, 0x371ac23c, 0x6d68de36);
    C3State12();
    C3Rounds13();
    C3Sub13();
    Substituted(0x51660495, 0x43539503, 0x14fb86e4, 0x01922521,
                0xd133f22a, 0x1aed2a7b, 0xfa0f4469, 0x7c4f3ffd);
    NextRound(C3Schedule(), C3Block(), 13);
    C3Sub14();
    Substituted(0x627bceb9, 0x999d5aaa, 0xc945ecf4, 0x23f56da5,
                0xaa218b56, 0xee5ebeac, 0xdd6ecebf, 0x26e63c06);
    LastRound(C3Schedule(), C3Block(), 14);
  }
}
