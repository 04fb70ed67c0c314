/** The table-driven implementation of Rijndael: rounds on 32-bit words, key schedules built in place. */
module Rijndael {
  import opened Gf256
  import opened Fips197
  import opened Sequences

  // ---------- words and bytes ----------

  function B0(w: bv32): bv8 {
    (w >> 24) as bv8
  }

  function B1(w: bv32): bv8 {
    ((w >> 16) & 0xff) as bv8
  }

  function B2(w: bv32): bv8 {
    ((w >> 8) & 0xff) as bv8
  }

  function B3(w: bv32): bv8 {
    (w & 0xff) as bv8
  }

  function Word(b0: bv8, b1: bv8, b2: bv8, b3: bv8): bv32 {
    ((b0 as bv32) << 24) ^ ((b1 as bv32) << 16) ^ ((b2 as bv32) << 8) ^ (b3 as bv32)
  }

  /** The column a word stands for, most significant byte on top. */
  function Bytes(w: bv32): Column {
    Column(B0(w), B1(w), B2(w), B3(w))
  }

  lemma BytesWord(b0: bv8, b1: bv8, b2: bv8, b3: bv8)
    ensures Bytes(Word(b0, b1, b2, b3)) == Column(b0, b1, b2, b3)
  {
  }

  function XorWord(x: bv32, y: bv32): bv32 {
    x ^ y
  }

  /** The exclusive or of four words, left to right as the code writes it. */
  function Xor4(a: bv32, b: bv32, c: bv32, d: bv32): bv32 {
    XorWord(XorWord(XorWord(a, b), c), d)
  }

  lemma BytesXor(x: bv32, y: bv32)
    ensures Bytes(XorWord(x, y)) == Xor(Bytes(x), Bytes(y))
  {
  }

  // ---------- the tables, rijndael.cc:68-80 ----------

  function Te0(x: bv8): bv32 {
    Word(Xtime(Sub(x)), Sub(x), Sub(x), By3(Sub(x)))
  }

  function Te1(x: bv8): bv32 {
    Word(By3(Sub(x)), Xtime(Sub(x)), Sub(x), Sub(x))
  }

  function Te2(x: bv8): bv32 {
    Word(Sub(x), By3(Sub(x)), Xtime(Sub(x)), Sub(x))
  }

  function Te3(x: bv8): bv32 {
    Word(Sub(x), Sub(x), By3(Sub(x)), Xtime(Sub(x)))
  }

  function Te4(x: bv8): bv32 {
    Word(Sub(x), Sub(x), Sub(x), Sub(x))
  }

  function Td0(x: bv8): bv32 {
    Word(ByE(InvSub(x)), By9(InvSub(x)), ByD(InvSub(x)), ByB(InvSub(x)))
  }

  function Td1(x: bv8): bv32 {
    Word(ByB(InvSub(x)), ByE(InvSub(x)), By9(InvSub(x)), ByD(InvSub(x)))
  }

  function Td2(x: bv8): bv32 {
    Word(ByD(InvSub(x)), ByB(InvSub(x)), ByE(InvSub(x)), By9(InvSub(x)))
  }

  function Td3(x: bv8): bv32 {
    Word(By9(InvSub(x)), ByD(InvSub(x)), ByB(InvSub(x)), ByE(InvSub(x)))
  }

  function Td4(x: bv8): bv32 {
    Word(InvSub(x), InvSub(x), InvSub(x), InvSub(x))
  }

  const RCON: seq<bv32> := [0x01000000, 0x02000000, 0x04000000, 0x08000000, 0x10000000,
                            0x20000000, 0x40000000, 0x80000000, 0x1B000000, 0x36000000]

  // ---------- the expressions the code builds from the tables ----------

  /** One word of a full encryption round. */
  function EncWord(x0: bv8, x1: bv8, x2: bv8, x3: bv8, k: bv32): bv32 {
    XorWord(Xor4(Te0(x0), Te1(x1), Te2(x2), Te3(x3)), k)
  }

  /** One word of a full decryption round. */
  function DecWord(x0: bv8, x1: bv8, x2: bv8, x3: bv8, k: bv32): bv32 {
    XorWord(Xor4(Td0(x0), Td1(x1), Td2(x2), Td3(x3)), k)
  }

  /** Four masked lookups in Te4: substitution without mixing. */
  function SubWord(x0: bv8, x1: bv8, x2: bv8, x3: bv8): bv32 {
    Xor4(Te4(x0) & 0xff000000, Te4(x1) & 0x00ff0000, Te4(x2) & 0x0000ff00, Te4(x3) & 0x000000ff)
  }

  function InvSubWord(x0: bv8, x1: bv8, x2: bv8, x3: bv8): bv32 {
    Xor4(Td4(x0) & 0xff000000, Td4(x1) & 0x00ff0000, Td4(x2) & 0x0000ff00, Td4(x3) & 0x000000ff)
  }

  /** InvMixColumns on one schedule word, reached through Te4 so that the S-box inside the Td tables cancels. */
  function InvMixWord(w: bv32): bv32 {
    Xor4(Td0(B3(Te4(B0(w)))), Td1(B3(Te4(B1(w)))), Td2(B3(Te4(B2(w)))), Td3(B3(Te4(B3(w)))))
  }

  lemma Sum4Reorders(a: bv8, b: bv8, c: bv8, d: bv8)
    ensures Add(Add(Add(a, b), c), d) == Sum(a, b, c, d)
    ensures Add(Add(Add(d, a), b), c) == Sum(a, b, c, d)
    ensures Add(Add(Add(c, d), a), b) == Sum(a, b, c, d)
    ensures Add(Add(Add(b, c), d), a) == Sum(a, b, c, d)
  {
    hide Add, Sum;
    Reorder(a, b, c, d);
    AddAssociates(Add(a, b), c, d);
    AddAssociates(Add(d, a), b, c);
    AddAssociates(Add(c, d), a, b);
    AddAssociates(Add(b, c), d, a);
  }

  lemma BytesXor4(a: bv32, b: bv32, c: bv32, d: bv32)
    ensures Bytes(Xor4(a, b, c, d)) == Xor(Xor(Xor(Bytes(a), Bytes(b)), Bytes(c)), Bytes(d))
  {
    hide Bytes, Xor, XorWord;
    BytesXor(a, b);
    BytesXor(XorWord(a, b), c);
    BytesXor(XorWord(XorWord(a, b), c), d);
  }

  lemma EncWordMixes(x0: bv8, x1: bv8, x2: bv8, x3: bv8, k: bv32)
    ensures Bytes(EncWord(x0, x1, x2, x3, k)) == Xor(MixColumn(Column(Sub(x0), Sub(x1), Sub(x2), Sub(x3))), Bytes(k))
  {
    hide Bytes, Word, Xor4, XorWord, Sub, Xtime, By3, Add, Sum;
    var s0, s1, s2, s3 := Sub(x0), Sub(x1), Sub(x2), Sub(x3);
    BytesXor4(Te0(x0), Te1(x1), Te2(x2), Te3(x3));
    BytesXor(Xor4(Te0(x0), Te1(x1), Te2(x2), Te3(x3)), k);
    BytesWord(Xtime(s0), s0, s0, By3(s0));
    BytesWord(By3(s1), Xtime(s1), s1, s1);
    BytesWord(s2, By3(s2), Xtime(s2), s2);
    BytesWord(s3, s3, By3(s3), Xtime(s3));
    Sum4Reorders(Xtime(s0), By3(s1), s2, s3);
    Sum4Reorders(Xtime(s1), By3(s2), s3, s0);
    Sum4Reorders(Xtime(s2), By3(s3), s0, s1);
    Sum4Reorders(Xtime(s3), By3(s0), s1, s2);
  }

  /** The four Td tables, indexed by bytes whose inverse substitutions are s0..s3, add up to InvMixColumns. */
  lemma TdMixes(x0: bv8, x1: bv8, x2: bv8, x3: bv8)
    ensures Bytes(Xor4(Td0(x0), Td1(x1), Td2(x2), Td3(x3))) ==
            InvMixColumn(Column(InvSub(x0), InvSub(x1), InvSub(x2), InvSub(x3)))
  {
    hide Bytes, Word, Xor4, InvSub, By9, ByB, ByD, ByE, Add, Sum;
    var s0, s1, s2, s3 := InvSub(x0), InvSub(x1), InvSub(x2), InvSub(x3);
    BytesXor4(Td0(x0), Td1(x1), Td2(x2), Td3(x3));
    BytesWord(ByE(s0), By9(s0), ByD(s0), ByB(s0));
    BytesWord(ByB(s1), ByE(s1), By9(s1), ByD(s1));
    BytesWord(ByD(s2), ByB(s2), ByE(s2), By9(s2));
    BytesWord(By9(s3), ByD(s3), ByB(s3), ByE(s3));
    Sum4Reorders(ByE(s0), ByB(s1), ByD(s2), By9(s3));
    Sum4Reorders(ByE(s1), ByB(s2), ByD(s3), By9(s0));
    Sum4Reorders(ByE(s2), ByB(s3), ByD(s0), By9(s1));
    Sum4Reorders(ByE(s3), ByB(s0), ByD(s1), By9(s2));
  }

  lemma DecWordMixes(x0: bv8, x1: bv8, x2: bv8, x3: bv8, k: bv32)
    ensures Bytes(DecWord(x0, x1, x2, x3, k)) ==
            Xor(InvMixColumn(Column(InvSub(x0), InvSub(x1), InvSub(x2), InvSub(x3))), Bytes(k))
  {
    hide Bytes, Xor4, XorWord, Xor, InvMixColumn, InvSub, Td0, Td1, Td2, Td3;
    TdMixes(x0, x1, x2, x3);
    BytesXor(Xor4(Td0(x0), Td1(x1), Td2(x2), Td3(x3)), k);
  }

  lemma InvMixWordMixes(w: bv32)
    ensures Bytes(InvMixWord(w)) == InvMixColumn(Bytes(w))
  {
    hide Word, Sub, InvSub, Xor4, InvMixColumn, Td0, Td1, Td2, Td3, B0, B1, B2, B3;
    var c := Bytes(w);
    BytesWord(Sub(c.b0), Sub(c.b0), Sub(c.b0), Sub(c.b0));
    BytesWord(Sub(c.b1), Sub(c.b1), Sub(c.b1), Sub(c.b1));
    BytesWord(Sub(c.b2), Sub(c.b2), Sub(c.b2), Sub(c.b2));
    BytesWord(Sub(c.b3), Sub(c.b3), Sub(c.b3), Sub(c.b3));
    TdMixes(Sub(c.b0), Sub(c.b1), Sub(c.b2), Sub(c.b3));
    InvSubSub(c.b0);
    InvSubSub(c.b1);
    InvSubSub(c.b2);
    InvSubSub(c.b3);
  }

  lemma MaskBytes(w: bv32)
    ensures Bytes(w & 0xff000000) == Column(B0(w), 0, 0, 0)
    ensures Bytes(w & 0x00ff0000) == Column(0, B1(w), 0, 0)
    ensures Bytes(w & 0x0000ff00) == Column(0, 0, B2(w), 0)
    ensures Bytes(w & 0x000000ff) == Column(0, 0, 0, B3(w))
  {
  }

  lemma Disjoint(x: bv8)
    ensures Add(x, 0) == x && Add(0, x) == x
  {
  }

  lemma SubWordSubstitutes(x0: bv8, x1: bv8, x2: bv8, x3: bv8)
    ensures Bytes(SubWord(x0, x1, x2, x3)) == Column(Sub(x0), Sub(x1), Sub(x2), Sub(x3))
  {
    hide Word, Sub, Xor4, Bytes, Add, B0, B1, B2, B3, Te4;
    MaskedTe(x0);
    MaskedTe(x1);
    MaskedTe(x2);
    MaskedTe(x3);
    BytesXor4(Te4(x0) & 0xff000000, Te4(x1) & 0x00ff0000, Te4(x2) & 0x0000ff00, Te4(x3) & 0x000000ff);
    Disjoint(Sub(x0));
    Disjoint(Sub(x1));
    Disjoint(Sub(x2));
    Disjoint(Sub(x3));
    Disjoint(0);
  }

  lemma MaskedTe(x: bv8)
    ensures Bytes(Te4(x) & 0xff000000) == Column(Sub(x), 0, 0, 0)
    ensures Bytes(Te4(x) & 0x00ff0000) == Column(0, Sub(x), 0, 0)
    ensures Bytes(Te4(x) & 0x0000ff00) == Column(0, 0, Sub(x), 0)
    ensures Bytes(Te4(x) & 0x000000ff) == Column(0, 0, 0, Sub(x))
  {
    BytesWord(Sub(x), Sub(x), Sub(x), Sub(x));
    MaskBytes(Te4(x));
    hide Word, Sub, B0, B1, B2, B3;
  }

  lemma InvSubWordSubstitutes(x0: bv8, x1: bv8, x2: bv8, x3: bv8)
    ensures Bytes(InvSubWord(x0, x1, x2, x3)) == Column(InvSub(x0), InvSub(x1), InvSub(x2), InvSub(x3))
  {
    hide Word, InvSub, Xor4, Bytes, Add, B0, B1, B2, B3, Td4;
    MaskedTd(x0);
    MaskedTd(x1);
    MaskedTd(x2);
    MaskedTd(x3);
    BytesXor4(Td4(x0) & 0xff000000, Td4(x1) & 0x00ff0000, Td4(x2) & 0x0000ff00, Td4(x3) & 0x000000ff);
    Disjoint(InvSub(x0));
    Disjoint(InvSub(x1));
    Disjoint(InvSub(x2));
    Disjoint(InvSub(x3));
    Disjoint(0);
  }

  lemma MaskedTd(x: bv8)
    ensures Bytes(Td4(x) & 0xff000000) == Column(InvSub(x), 0, 0, 0)
    ensures Bytes(Td4(x) & 0x00ff0000) == Column(0, InvSub(x), 0, 0)
    ensures Bytes(Td4(x) & 0x0000ff00) == Column(0, 0, InvSub(x), 0)
    ensures Bytes(Td4(x) & 0x000000ff) == Column(0, 0, 0, InvSub(x))
  {
    BytesWord(InvSub(x), InvSub(x), InvSub(x), InvSub(x));
    MaskBytes(Td4(x));
    hide Word, InvSub, B0, B1, B2, B3;
  }

  // ---------- blocks ----------

  function Columns(s0: bv32, s1: bv32, s2: bv32, s3: bv32): State {
    State(Bytes(s0), Bytes(s1), Bytes(s2), Bytes(s3))
  }

  /** The state a block of sixteen bytes stands for, column by column. */
  function ToState(p: seq<bv8>): State
    requires |p| == 16
  {
    State(KeyWord(p, 0), KeyWord(p, 1), KeyWord(p, 2), KeyWord(p, 3))
  }

  function ColumnBytes(c: Column): (p: seq<bv8>)
    ensures |p| == 4
  {
    [c.b0, c.b1, c.b2, c.b3]
  }

  function ToBlock(s: State): (p: seq<bv8>)
    ensures |p| == 16
  {
    ColumnBytes(s.c0) + ColumnBytes(s.c1) + ColumnBytes(s.c2) + ColumnBytes(s.c3)
  }

  lemma ColumnOfBytes(c: Column, before: seq<bv8>, after: seq<bv8>, i: nat)
    requires |before| == 4 * i
    ensures KeyWord(before + ColumnBytes(c) + after, i) == c
  {
  }

  lemma BytesOfColumn(p: seq<bv8>, i: nat)
    requires 4 * i + 4 <= |p|
    ensures ColumnBytes(KeyWord(p, i)) == p[4 * i..4 * i + 4]
  {
  }

  lemma StateOfBlock(s: State)
    ensures ToState(ToBlock(s)) == s
  {
    hide ColumnBytes, KeyWord;
    var b0, b1, b2, b3 := ColumnBytes(s.c0), ColumnBytes(s.c1), ColumnBytes(s.c2), ColumnBytes(s.c3);
    ColumnOfBytes(s.c0, [], b1 + b2 + b3, 0);
    ColumnOfBytes(s.c1, b0, b2 + b3, 1);
    ColumnOfBytes(s.c2, b0 + b1, b3, 2);
    ColumnOfBytes(s.c3, b0 + b1 + b2, [], 3);
    assert [] + b0 + (b1 + b2 + b3) == ToBlock(s);
    assert b0 + b1 + (b2 + b3) == ToBlock(s);
    assert b0 + b1 + b2 + b3 + [] == ToBlock(s);
  }

  lemma BlockOfState(p: seq<bv8>)
    requires |p| == 16
    ensures ToBlock(ToState(p)) == p
  {
    hide ColumnBytes, KeyWord;
    BytesOfColumn(p, 0);
    BytesOfColumn(p, 1);
    BytesOfColumn(p, 2);
    BytesOfColumn(p, 3);
  }

  function GetU32(p: seq<bv8>, at: nat): bv32
    requires at + 4 <= |p|
  {
    Word(p[at], p[at + 1], p[at + 2], p[at + 3])
  }

  method PutU32(ct: array<bv8>, at: nat, st: bv32)
    requires at + 4 <= ct.Length
    modifies ct
    ensures ct[..] == Splice(old(ct[..]), at, ColumnBytes(Bytes(st)))
  {
    hide B0, B1, B2, B3;
    ct[at] := B0(st);
    ct[at + 1] := B1(st);
    ct[at + 2] := B2(st);
    ct[at + 3] := B3(st);
  }

  /** The schedule held in the first n words of rk. */
  function Words(rk: seq<bv32>, n: nat): (w: seq<Column>)
    requires n <= |rk|
    ensures |w| == n
  {
    seq(n, i requires 0 <= i < n => Bytes(rk[i]))
  }

  lemma RoundKeyWords(rk: seq<bv32>, nr: nat, r: nat)
    requires 4 * nr + 4 <= |rk| && r <= nr
    ensures Columns(rk[4 * r], rk[4 * r + 1], rk[4 * r + 2], rk[4 * r + 3]) == RoundKey(Words(rk, 4 * nr + 4), r)
  {
    hide Bytes;
  }

  // ---------- the ciphers ----------

  lemma EncRound(w: seq<Column>, pt: State, k: nat, s0: bv32, s1: bv32, s2: bv32, s3: bv32,
                 k0: bv32, k1: bv32, k2: bv32, k3: bv32)
    requires 4 * (k + 1) + 4 <= |w|
    requires Columns(s0, s1, s2, s3) == Rounds(w, pt, k)
    requires Columns(k0, k1, k2, k3) == RoundKey(w, k + 1)
    ensures Columns(EncWord(B0(s0), B1(s1), B2(s2), B3(s3), k0), EncWord(B0(s1), B1(s2), B2(s3), B3(s0), k1),
                    EncWord(B0(s2), B1(s3), B2(s0), B3(s1), k2), EncWord(B0(s3), B1(s0), B2(s1), B3(s2), k3)) ==
            Rounds(w, pt, k + 1)
  {
    hide EncWord, Sub, MixColumn, Xor, B0, B1, B2, B3;
    EncWordMixes(B0(s0), B1(s1), B2(s2), B3(s3), k0);
    EncWordMixes(B0(s1), B1(s2), B2(s3), B3(s0), k1);
    EncWordMixes(B0(s2), B1(s3), B2(s0), B3(s1), k2);
    EncWordMixes(B0(s3), B1(s0), B2(s1), B3(s2), k3);
  }

  lemma DecRound(w: seq<Column>, ct: State, k: nat, s0: bv32, s1: bv32, s2: bv32, s3: bv32,
                 k0: bv32, k1: bv32, k2: bv32, k3: bv32)
    requires 4 * (k + 1) + 4 <= |w|
    requires Columns(s0, s1, s2, s3) == InvRounds(w, ct, k)
    requires Columns(k0, k1, k2, k3) == RoundKey(w, k + 1)
    ensures Columns(DecWord(B0(s0), B1(s3), B2(s2), B3(s1), k0), DecWord(B0(s1), B1(s0), B2(s3), B3(s2), k1),
                    DecWord(B0(s2), B1(s1), B2(s0), B3(s3), k2), DecWord(B0(s3), B1(s2), B2(s1), B3(s0), k3)) ==
            InvRounds(w, ct, k + 1)
  {
    hide DecWord, InvSub, InvMixColumn, Xor, B0, B1, B2, B3;
    DecWordMixes(B0(s0), B1(s3), B2(s2), B3(s1), k0);
    DecWordMixes(B0(s1), B1(s0), B2(s3), B3(s2), k1);
    DecWordMixes(B0(s2), B1(s1), B2(s0), B3(s3), k2);
    DecWordMixes(B0(s3), B1(s2), B2(s1), B3(s0), k3);
  }

  lemma FirstRound(p: seq<bv8>, k0: bv32, k1: bv32, k2: bv32, k3: bv32)
    requires |p| == 16
    ensures Columns(XorWord(GetU32(p, 0), k0), XorWord(GetU32(p, 4), k1),
                    XorWord(GetU32(p, 8), k2), XorWord(GetU32(p, 12), k3)) ==
            AddRoundKey(ToState(p), Columns(k0, k1, k2, k3))
  {
    hide Bytes, Word, Xor, XorWord;
    BytesXor(GetU32(p, 0), k0);
    BytesXor(GetU32(p, 4), k1);
    BytesXor(GetU32(p, 8), k2);
    BytesXor(GetU32(p, 12), k3);
    BytesWord(p[0], p[1], p[2], p[3]);
    BytesWord(p[4], p[5], p[6], p[7]);
    BytesWord(p[8], p[9], p[10], p[11]);
    BytesWord(p[12], p[13], p[14], p[15]);
  }

  lemma LastEncWord(x0: bv8, x1: bv8, x2: bv8, x3: bv8, k: bv32)
    ensures Bytes(XorWord(SubWord(x0, x1, x2, x3), k)) == Xor(Column(Sub(x0), Sub(x1), Sub(x2), Sub(x3)), Bytes(k))
  {
    hide Bytes, SubWord, Xor, XorWord, Sub;
    SubWordSubstitutes(x0, x1, x2, x3);
    BytesXor(SubWord(x0, x1, x2, x3), k);
  }

  lemma LastDecWord(x0: bv8, x1: bv8, x2: bv8, x3: bv8, k: bv32)
    ensures Bytes(XorWord(InvSubWord(x0, x1, x2, x3), k)) ==
            Xor(Column(InvSub(x0), InvSub(x1), InvSub(x2), InvSub(x3)), Bytes(k))
  {
    hide Bytes, InvSubWord, Xor, XorWord, InvSub;
    InvSubWordSubstitutes(x0, x1, x2, x3);
    BytesXor(InvSubWord(x0, x1, x2, x3), k);
  }

  lemma LastEncRound(w: seq<Column>, nr: nat, pt: State, t0: bv32, t1: bv32, t2: bv32, t3: bv32,
                     k0: bv32, k1: bv32, k2: bv32, k3: bv32)
    requires nr > 0 && 4 * nr + 4 <= |w|
    requires Columns(t0, t1, t2, t3) == Rounds(w, pt, nr - 1)
    requires Columns(k0, k1, k2, k3) == RoundKey(w, nr)
    ensures Columns(XorWord(SubWord(B0(t0), B1(t1), B2(t2), B3(t3)), k0),
                    XorWord(SubWord(B0(t1), B1(t2), B2(t3), B3(t0)), k1),
                    XorWord(SubWord(B0(t2), B1(t3), B2(t0), B3(t1)), k2),
                    XorWord(SubWord(B0(t3), B1(t0), B2(t1), B3(t2)), k3)) == Cipher(w, nr, pt)
  {
    hide SubWord, XorWord, Sub, Xor, B0, B1, B2, B3;
    LastEncWord(B0(t0), B1(t1), B2(t2), B3(t3), k0);
    LastEncWord(B0(t1), B1(t2), B2(t3), B3(t0), k1);
    LastEncWord(B0(t2), B1(t3), B2(t0), B3(t1), k2);
    LastEncWord(B0(t3), B1(t0), B2(t1), B3(t2), k3);
  }

  lemma LastDecRound(w: seq<Column>, nr: nat, ct: State, t0: bv32, t1: bv32, t2: bv32, t3: bv32,
                     k0: bv32, k1: bv32, k2: bv32, k3: bv32)
    requires nr > 0 && 4 * nr + 4 <= |w|
    requires Columns(t0, t1, t2, t3) == InvRounds(w, ct, nr - 1)
    requires Columns(k0, k1, k2, k3) == RoundKey(w, nr)
    ensures Columns(XorWord(InvSubWord(B0(t0), B1(t3), B2(t2), B3(t1)), k0),
                    XorWord(InvSubWord(B0(t1), B1(t0), B2(t3), B3(t2)), k1),
                    XorWord(InvSubWord(B0(t2), B1(t1), B2(t0), B3(t3)), k2),
                    XorWord(InvSubWord(B0(t3), B1(t2), B2(t1), B3(t0)), k3)) == EqInvCipher(w, nr, ct)
  {
    hide InvSubWord, XorWord, InvSub, Xor, B0, B1, B2, B3;
    LastDecWord(B0(t0), B1(t3), B2(t2), B3(t1), k0);
    LastDecWord(B0(t1), B1(t0), B2(t3), B3(t2), k1);
    LastDecWord(B0(t2), B1(t1), B2(t0), B3(t3), k2);
    LastDecWord(B0(t3), B1(t2), B2(t1), B3(t0), k3);
  }

  /** Writes the four words of the final state as sixteen bytes. */
  method PutBlock(ct: array<bv8>, at: nat, s0: bv32, s1: bv32, s2: bv32, s3: bv32)
    requires at + 16 <= ct.Length
    modifies ct
    ensures ct[..] == Splice(old(ct[..]), at, ToBlock(Columns(s0, s1, s2, s3)))
  {
    hide Bytes, ColumnBytes, Splice;
    ghost var was := ct[..];
    ghost var b0, b1 := ColumnBytes(Bytes(s0)), ColumnBytes(Bytes(s1));
    ghost var b2, b3 := ColumnBytes(Bytes(s2)), ColumnBytes(Bytes(s3));
    PutU32(ct, at, s0);
    PutU32(ct, at + 4, s1);
    PutU32(ct, at + 8, s2);
    PutU32(ct, at + 12, s3);
    SpliceTwice(was, at, b0, b1);
    SpliceTwice(was, at, b0 + b1, b2);
    SpliceTwice(was, at, b0 + b1 + b2, b3);
  }

  /** Encrypts one block with an even number of rounds, two rounds per turn of the loop. */
  method Encrypt(rk: array<bv32>, nr: nat, pt: seq<bv8>, ct: array<bv8>, at: nat)
    requires nr >= 2 && nr % 2 == 0 && rk.Length >= 4 * nr + 4
    requires |pt| == 16 && at + 16 <= ct.Length
    modifies ct
    ensures ct[..] == Splice(old(ct[..]), at, ToBlock(Cipher(Words(rk[..], 4 * nr + 4), nr, ToState(pt))))
  {
    hide *;
    ghost var keys := rk[..];
    ghost var w := Words(keys, 4 * nr + 4);
    ghost var start := ToState(pt);
    var s0 := XorWord(GetU32(pt, 0), rk[0]);
    var s1 := XorWord(GetU32(pt, 4), rk[1]);
    var s2 := XorWord(GetU32(pt, 8), rk[2]);
    var s3 := XorWord(GetU32(pt, 12), rk[3]);
    FirstRound(pt, rk[0], rk[1], rk[2], rk[3]);
    RoundKeyWords(keys, nr, 0);
    StartRounds(w, start);
    var t0, t1, t2, t3 := 0, 0, 0, 0;
    var p := 0;
    var r := nr / 2;
    while true
      invariant 0 < r && p == 4 * (nr - 2 * r) && p >= 0
      invariant Columns(s0, s1, s2, s3) == Rounds(w, start, nr - 2 * r)
      invariant ct[..] == old(ct[..])
      decreases r
    {
      t0 := EncWord(B0(s0), B1(s1), B2(s2), B3(s3), rk[p + 4]);
      t1 := EncWord(B0(s1), B1(s2), B2(s3), B3(s0), rk[p + 5]);
      t2 := EncWord(B0(s2), B1(s3), B2(s0), B3(s1), rk[p + 6]);
      t3 := EncWord(B0(s3), B1(s0), B2(s1), B3(s2), rk[p + 7]);
      RoundKeyWords(keys, nr, nr - 2 * r + 1);
      EncRound(w, start, nr - 2 * r, s0, s1, s2, s3, rk[p + 4], rk[p + 5], rk[p + 6], rk[p + 7]);
      p := p + 8;
      r := r - 1;
      if r == 0 {
        break;
      }
      s0 := EncWord(B0(t0), B1(t1), B2(t2), B3(t3), rk[p]);
      s1 := EncWord(B0(t1), B1(t2), B2(t3), B3(t0), rk[p + 1]);
      s2 := EncWord(B0(t2), B1(t3), B2(t0), B3(t1), rk[p + 2]);
      s3 := EncWord(B0(t3), B1(t0), B2(t1), B3(t2), rk[p + 3]);
      RoundKeyWords(keys, nr, nr - 2 * r);
      EncRound(w, start, nr - 2 * r - 1, t0, t1, t2, t3, rk[p], rk[p + 1], rk[p + 2], rk[p + 3]);
    }
    s0 := XorWord(SubWord(B0(t0), B1(t1), B2(t2), B3(t3)), rk[p]);
    s1 := XorWord(SubWord(B0(t1), B1(t2), B2(t3), B3(t0)), rk[p + 1]);
    s2 := XorWord(SubWord(B0(t2), B1(t3), B2(t0), B3(t1)), rk[p + 2]);
    s3 := XorWord(SubWord(B0(t3), B1(t0), B2(t1), B3(t2)), rk[p + 3]);
    RoundKeyWords(keys, nr, nr);
    LastEncRound(w, nr, start, t0, t1, t2, t3, rk[p], rk[p + 1], rk[p + 2], rk[p + 3]);
    PutBlock(ct, at, s0, s1, s2, s3);
    assert rk[..] == keys;
  }

  lemma StartRounds(w: seq<Column>, s: State)
    requires |w| >= 4
    ensures AddRoundKey(s, RoundKey(w, 0)) == Rounds(w, s, 0) == InvRounds(w, s, 0)
  {
    hide AddRoundKey;
  }

  /** Decrypts one block; the loop mirrors Encrypt with the Td tables and the rows shifted the other way. */
  method Decrypt(rk: array<bv32>, nr: nat, ct: seq<bv8>, pt: array<bv8>, at: nat)
    requires nr >= 2 && nr % 2 == 0 && rk.Length >= 4 * nr + 4
    requires |ct| == 16 && at + 16 <= pt.Length
    modifies pt
    ensures pt[..] == Splice(old(pt[..]), at, ToBlock(EqInvCipher(Words(rk[..], 4 * nr + 4), nr, ToState(ct))))
  {
    hide *;
    ghost var keys := rk[..];
    ghost var w := Words(keys, 4 * nr + 4);
    ghost var start := ToState(ct);
    var s0 := XorWord(GetU32(ct, 0), rk[0]);
    var s1 := XorWord(GetU32(ct, 4), rk[1]);
    var s2 := XorWord(GetU32(ct, 8), rk[2]);
    var s3 := XorWord(GetU32(ct, 12), rk[3]);
    FirstRound(ct, rk[0], rk[1], rk[2], rk[3]);
    RoundKeyWords(keys, nr, 0);
    StartRounds(w, start);
    var t0, t1, t2, t3 := 0, 0, 0, 0;
    var p := 0;
    var r := nr / 2;
    while true
      invariant 0 < r && p == 4 * (nr - 2 * r) && p >= 0
      invariant Columns(s0, s1, s2, s3) == InvRounds(w, start, nr - 2 * r)
      invariant pt[..] == old(pt[..])
      decreases r
    {
      t0 := DecWord(B0(s0), B1(s3), B2(s2), B3(s1), rk[p + 4]);
      t1 := DecWord(B0(s1), B1(s0), B2(s3), B3(s2), rk[p + 5]);
      t2 := DecWord(B0(s2), B1(s1), B2(s0), B3(s3), rk[p + 6]);
      t3 := DecWord(B0(s3), B1(s2), B2(s1), B3(s0), rk[p + 7]);
      RoundKeyWords(keys, nr, nr - 2 * r + 1);
      DecRound(w, start, nr - 2 * r, s0, s1, s2, s3, rk[p + 4], rk[p + 5], rk[p + 6], rk[p + 7]);
      p := p + 8;
      r := r - 1;
      if r == 0 {
        break;
      }
      s0 := DecWord(B0(t0), B1(t3), B2(t2), B3(t1), rk[p]);
      s1 := DecWord(B0(t1), B1(t0), B2(t3), B3(t2), rk[p + 1]);
      s2 := DecWord(B0(t2), B1(t1), B2(t0), B3(t3), rk[p + 2]);
      s3 := DecWord(B0(t3), B1(t2), B2(t1), B3(t0), rk[p + 3]);
      RoundKeyWords(keys, nr, nr - 2 * r);
      DecRound(w, start, nr - 2 * r - 1, t0, t1, t2, t3, rk[p], rk[p + 1], rk[p + 2], rk[p + 3]);
    }
    s0 := XorWord(InvSubWord(B0(t0), B1(t3), B2(t2), B3(t1)), rk[p]);
    s1 := XorWord(InvSubWord(B0(t1), B1(t0), B2(t3), B3(t2)), rk[p + 1]);
    s2 := XorWord(InvSubWord(B0(t2), B1(t1), B2(t0), B3(t3)), rk[p + 2]);
    s3 := XorWord(InvSubWord(B0(t3), B1(t2), B2(t1), B3(t0)), rk[p + 3]);
    RoundKeyWords(keys, nr, nr);
    LastDecRound(w, nr, start, t0, t1, t2, t3, rk[p], rk[p + 1], rk[p + 2], rk[p + 3]);
    PutBlock(pt, at, s0, s1, s2, s3);
    assert rk[..] == keys;
  }

  // ---------- the key schedules ----------

  /** The number of key bytes read; any size but 128, 192 and 256 reads 32 and expands nothing. */
  function KeyBytes(keyBits: int): nat {
    if keyBits == 128 then 16 else if keyBits == 192 then 24 else 32
  }

  function KeyRounds(keyBits: int): nat {
    if keyBits == 128 then 10 else if keyBits == 192 then 12 else if keyBits == 256 then 14 else 0
  }

  /** The first n words of rk are those of the expansion. */
  ghost predicate Filled(rk: seq<bv32>, key: seq<bv8>, nk: nat, n: nat)
    requires nk > 0 && |key| >= 4 * nk
  {
    n <= |rk| && forall i :: 0 <= i < n ==> Bytes(rk[i]) == ScheduleWord(key, nk, i)
  }

  lemma RconTable(i: nat)
    requires i < 10
    ensures Bytes(RCON[i]) == Rcon(i + 1)
  {
    if i > 0 {
      RconTable(i - 1);
    }
  }

  /** rk[n] = rk[n - nk] ^ f, which is the next word of the expansion when f is what the recurrence feeds in. */
  method StoreNext(rk: array<bv32>, ghost key: seq<bv8>, nk: nat, n: nat, f: bv32)
    requires 0 < nk <= n < rk.Length && |key| >= 4 * nk && Filled(rk[..], key, nk, n)
    requires Bytes(f) == Feed(nk, n, ScheduleWord(key, nk, n - 1))
    modifies rk
    ensures Filled(rk[..], key, nk, n + 1)
    ensures forall i :: n < i < rk.Length ==> rk[i] == old(rk[i])
  {
    hide Bytes, XorWord, Xor, Feed;
    BytesXor(rk[n - nk], f);
    rk[n] := XorWord(rk[n - nk], f);
  }

  predicate Plain(nk: nat, n: nat)
    requires nk > 0
  {
    n % nk != 0 && (nk <= 6 || n % nk != 4)
  }

  /** rk[n] = rk[n - nk] ^ rk[n - 1], the recurrence away from the substituted words. */
  method StorePlain(rk: array<bv32>, ghost key: seq<bv8>, nk: nat, n: nat)
    requires 0 < nk <= n < rk.Length && |key| >= 4 * nk && Filled(rk[..], key, nk, n) && Plain(nk, n)
    modifies rk
    ensures Filled(rk[..], key, nk, n + 1)
    ensures forall i :: n < i < rk.Length ==> rk[i] == old(rk[i])
  {
    hide Bytes, ScheduleWord, Xor, XorWord;
    StoreNext(rk, key, nk, n, rk[n - 1]);
  }

  /** Loads the key words from..to of the cipher key. */
  method LoadKey(rk: array<bv32>, key: seq<bv8>, nk: nat, from: nat, to: nat)
    requires from <= to <= nk && 0 < nk && to <= rk.Length && |key| >= 4 * nk && Filled(rk[..], key, nk, from)
    modifies rk
    ensures Filled(rk[..], key, nk, to)
    ensures forall j :: to <= j < rk.Length ==> rk[j] == old(rk[j])
  {
    hide Bytes, Word, Xor, Feed;
    for i := from to to
      invariant Filled(rk[..], key, nk, i)
      invariant forall j :: to <= j < rk.Length ==> rk[j] == old(rk[j])
    {
      BytesWord(key[4 * i], key[4 * i + 1], key[4 * i + 2], key[4 * i + 3]);
      rk[i] := GetU32(key, 4 * i);
    }
  }

  /** RotWord and SubWord of temp plus the round constant, as one masked table expression. */
  lemma RotSubRcon(temp: bv32, i: nat)
    requires i < 10
    ensures Bytes(XorWord(SubWord(B1(temp), B2(temp), B3(temp), B0(temp)), RCON[i])) ==
            Xor(SubColumn(RotWord(Bytes(temp))), Rcon(i + 1))
  {
    hide SubWord, XorWord, Xor, Sub, B0, B1, B2, B3, Rcon;
    SubWordSubstitutes(B1(temp), B2(temp), B3(temp), B0(temp));
    BytesXor(SubWord(B1(temp), B2(temp), B3(temp), B0(temp)), RCON[i]);
    RconTable(i);
  }

  /** rk[n] = rk[n - nk] ^ SubWord(RotWord(rk[n - 1])) ^ rcon[i], the first word of each turn. */
  method StoreFirst(rk: array<bv32>, ghost key: seq<bv8>, nk: nat, n: nat, i: nat)
    requires 0 < nk <= n < rk.Length && |key| >= 4 * nk && Filled(rk[..], key, nk, n)
    requires i < 10 && n % nk == 0 && n / nk == i + 1
    modifies rk
    ensures Filled(rk[..], key, nk, n + 1)
    ensures forall j :: n < j < rk.Length ==> rk[j] == old(rk[j])
  {
    hide Bytes, SubWord, XorWord, Xor, SubColumn, RotWord, Rcon, ScheduleWord, B0, B1, B2, B3;
    var temp := rk[n - 1];
    RotSubRcon(temp, i);
    StoreNext(rk, key, nk, n, XorWord(SubWord(B1(temp), B2(temp), B3(temp), B0(temp)), RCON[i]));
  }

  method Expand128(rk: array<bv32>, key: seq<bv8>)
    requires rk.Length >= 44 && |key| >= 16 && Filled(rk[..], key, 4, 4)
    modifies rk
    ensures Filled(rk[..], key, 4, 44)
    ensures forall j :: 44 <= j < rk.Length ==> rk[j] == old(rk[j])
  {
    hide Filled;
    var i, p := 0, 0;
    while true
      invariant 0 <= i < 10 && p == 4 * i
      invariant Filled(rk[..], key, 4, p + 4)
      invariant forall j :: 44 <= j < rk.Length ==> rk[j] == old(rk[j])
      decreases 10 - i
    {
      StoreFirst(rk, key, 4, p + 4, i);
      StorePlain(rk, key, 4, p + 5);
      StorePlain(rk, key, 4, p + 6);
      StorePlain(rk, key, 4, p + 7);
      i := i + 1;
      if i == 10 {
        return;
      }
      p := p + 4;
    }
  }

  method Expand192(rk: array<bv32>, key: seq<bv8>)
    requires rk.Length >= 52 && |key| >= 24 && Filled(rk[..], key, 6, 6)
    modifies rk
    ensures Filled(rk[..], key, 6, 52)
    ensures forall j :: 52 <= j < rk.Length ==> rk[j] == old(rk[j])
  {
    hide Filled;
    var i, p := 0, 0;
    while true
      invariant 0 <= i < 8 && p == 6 * i
      invariant Filled(rk[..], key, 6, p + 6)
      invariant forall j :: 52 <= j < rk.Length ==> rk[j] == old(rk[j])
      decreases 8 - i
    {
      StoreFirst(rk, key, 6, p + 6, i);
      StorePlain(rk, key, 6, p + 7);
      StorePlain(rk, key, 6, p + 8);
      StorePlain(rk, key, 6, p + 9);
      i := i + 1;
      if i == 8 {
        return;
      }
      StorePlain(rk, key, 6, p + 10);
      StorePlain(rk, key, 6, p + 11);
      p := p + 6;
    }
  }

  /** The fifth word of each turn of a 256-bit expansion, substituted without rotation. */
  method StoreFifth(rk: array<bv32>, ghost key: seq<bv8>, n: nat)
    requires 8 <= n < rk.Length && n % 8 == 4 && |key| >= 32 && Filled(rk[..], key, 8, n)
    modifies rk
    ensures Filled(rk[..], key, 8, n + 1)
    ensures forall j :: n < j < rk.Length ==> rk[j] == old(rk[j])
  {
    hide SubWord, XorWord, Xor, Sub, ScheduleWord, B0, B1, B2, B3;
    var temp := rk[n - 1];
    SubWordSubstitutes(B0(temp), B1(temp), B2(temp), B3(temp));
    StoreNext(rk, key, 8, n, SubWord(B0(temp), B1(temp), B2(temp), B3(temp)));
  }

  method Expand256(rk: array<bv32>, key: seq<bv8>)
    requires rk.Length >= 60 && |key| >= 32 && Filled(rk[..], key, 8, 8)
    modifies rk
    ensures Filled(rk[..], key, 8, 60)
    ensures forall j :: 60 <= j < rk.Length ==> rk[j] == old(rk[j])
  {
    hide Filled;
    var i, p := 0, 0;
    while true
      invariant 0 <= i < 7 && p == 8 * i
      invariant Filled(rk[..], key, 8, p + 8)
      invariant forall j :: 60 <= j < rk.Length ==> rk[j] == old(rk[j])
      decreases 7 - i
    {
      StoreFirst(rk, key, 8, p + 8, i);
      StorePlain(rk, key, 8, p + 9);
      StorePlain(rk, key, 8, p + 10);
      StorePlain(rk, key, 8, p + 11);
      i := i + 1;
      if i == 7 {
        return;
      }
      StoreFifth(rk, key, p + 12);
      StorePlain(rk, key, 8, p + 13);
      StorePlain(rk, key, 8, p + 14);
      StorePlain(rk, key, 8, p + 15);
      p := p + 8;
    }
  }

  /** How many words of rk a setup writes. */
  function WordsWritten(keyBits: int): nat {
    if KeyRounds(keyBits) == 0 then 8 else 4 * KeyRounds(keyBits) + 4
  }

  lemma FilledWords(rk: seq<bv32>, key: seq<bv8>, nk: nat, nr: nat)
    requires nk > 0 && |key| >= 4 * nk && 4 * nr + 4 <= |rk|
    requires Filled(rk, key, nk, 4 * nr + 4)
    ensures Words(rk, 4 * nr + 4) == Expand(key, nk, nr)
  {
    hide Bytes, ScheduleWord;
  }

  /**
   * Section 5.2 of FIPS 197 over the words of the schedule themselves: rotation, substitution and round constant at
   * every multiple of the key length, substitution alone half-way between them for a 256-bit key, else neither.
   */
  ghost predicate Recurs(rk: seq<bv32>, nk: nat, i: nat)
    requires 0 < nk <= i < |rk|
  {
    var c, back, t := Bytes(rk[i]), Bytes(rk[i - nk]), Bytes(rk[i - 1]);
    if i % nk == 0 then
      c == Column(Add(Add(back.b0, Sub(t.b1)), Power(i / nk - 1)), Add(back.b1, Sub(t.b2)),
                  Add(back.b2, Sub(t.b3)), Add(back.b3, Sub(t.b0)))
    else if nk == 8 && i % 8 == 4 then
      c == Column(Add(back.b0, Sub(t.b0)), Add(back.b1, Sub(t.b1)), Add(back.b2, Sub(t.b2)), Add(back.b3, Sub(t.b3)))
    else c == Column(Add(back.b0, t.b0), Add(back.b1, t.b1), Add(back.b2, t.b2), Add(back.b3, t.b3))
  }

  lemma FilledRecurs(rk: seq<bv32>, key: seq<bv8>, nk: nat, n: nat, i: nat)
    requires 0 < nk <= 8 && |key| >= 4 * nk && Filled(rk, key, nk, n) && nk <= i < n && (nk <= 6 || nk == 8)
    ensures Recurs(rk, nk, i)
  {
    hide Bytes, Sub, Add, Power;
    var back, t := Bytes(rk[i - nk]), Bytes(rk[i - 1]);
    assert Bytes(rk[i]) == Xor(back, Feed(nk, i, t));
    if i % nk == 0 {
      AddAssociates(back.b0, Sub(t.b1), Power(i / nk - 1));
      Disjoint(Sub(t.b2));
      Disjoint(Sub(t.b3));
      Disjoint(Sub(t.b0));
    }
  }

  /** What every setup of a supported size makes of the schedule, word by word. */
  lemma FilledSchedule(rk: seq<bv32>, key: seq<bv8>, nk: nat, n: nat)
    requires (nk == 4 || nk == 6 || nk == 8) && |key| >= 4 * nk && Filled(rk, key, nk, n) && nk <= n
    ensures forall i :: 0 <= i < nk ==> Bytes(rk[i]) == KeyWord(key, i)
    ensures forall i :: nk <= i < n ==> Recurs(rk, nk, i)
  {
    hide Bytes, Xor, Feed, Recurs;
    forall i | nk <= i < n
      ensures Recurs(rk, nk, i)
    {
      FilledRecurs(rk, key, nk, n, i);
    }
  }

  /** Expands the cipher key into the encryption schedule and returns the number of rounds. */
  method KeySetupEnc(rk: array<bv32>, cipherKey: seq<bv8>, keyBits: int) returns (nr: nat)
    requires |cipherKey| >= KeyBytes(keyBits) && rk.Length >= WordsWritten(keyBits)
    modifies rk
    ensures nr == KeyRounds(keyBits)
    ensures nr > 0 ==> Words(rk[..], 4 * nr + 4) == Expand(cipherKey, KeyBytes(keyBits) / 4, nr)
    ensures forall i :: 0 <= i < KeyBytes(keyBits) / 4 ==> Bytes(rk[i]) == KeyWord(cipherKey, i)
    ensures nr > 0 ==> forall i :: KeyBytes(keyBits) / 4 <= i < 4 * nr + 4 ==> Recurs(rk[..], KeyBytes(keyBits) / 4, i)
    ensures nr == 0 ==> Words(rk[..], 8) == seq(8, i requires 0 <= i < 8 => KeyWord(cipherKey, i))
    ensures forall j :: WordsWritten(keyBits) <= j < rk.Length ==> rk[j] == old(rk[j])
  {
    hide Bytes, Recurs, KeyWord;
    if keyBits == 128 {
      LoadKey(rk, cipherKey, 4, 0, 4);
      Expand128(rk, cipherKey);
      FilledWords(rk[..], cipherKey, 4, 10);
      FilledSchedule(rk[..], cipherKey, 4, 44);
      return 10;
    }
    if keyBits == 192 {
      LoadKey(rk, cipherKey, 6, 0, 6);
      Expand192(rk, cipherKey);
      FilledWords(rk[..], cipherKey, 6, 12);
      FilledSchedule(rk[..], cipherKey, 6, 52);
      return 12;
    }
    LoadKey(rk, cipherKey, 8, 0, 8);
    if keyBits == 256 {
      Expand256(rk, cipherKey);
      FilledWords(rk[..], cipherKey, 8, 14);
      FilledSchedule(rk[..], cipherKey, 8, 60);
      return 14;
    }
    return 0;
  }

  /** Where word i goes when the round keys are put in reverse order. */
  function Mirror(nr: nat, i: nat): (m: nat)
    requires i < 4 * nr + 4
    ensures m < 4 * nr + 4
  {
    4 * (nr - i / 4) + i % 4
  }

  lemma MirrorBlock(nr: nat, a: nat, x: nat)
    requires a <= nr && 4 * a <= x < 4 * a + 4
    ensures Mirror(nr, x) == 4 * (nr - a) + (x - 4 * a)
  {
    assert x / 4 == a && x % 4 == x - 4 * a;
  }

  method SwapWord<T>(rk: array<T>, i: nat, j: nat)
    requires i < j < rk.Length
    modifies rk
    ensures rk[i] == old(rk[j]) && rk[j] == old(rk[i])
    ensures forall x :: 0 <= x < rk.Length && x != i && x != j ==> rk[x] == old(rk[x])
  {
    var temp := rk[i];
    rk[i] := rk[j];
    rk[j] := temp;
  }

  /** The word that ends up at x when the round keys at i and j change places. */
  function Swapped(i: nat, j: nat, x: nat): (y: nat)
    requires i <= j
    ensures y <= x || y < j + 4
  {
    if i <= x < i + 4 then x + j - i else if j <= x < j + 4 then x - j + i else x
  }

  method SwapRoundKeys<T>(rk: array<T>, i: nat, j: nat)
    requires i + 4 <= j && j + 4 <= rk.Length
    modifies rk
    ensures forall x :: 0 <= x < rk.Length ==> rk[x] == old(rk[..])[Swapped(i, j, x)]
  {
    SwapWord(rk, i, j);
    SwapWord(rk, i + 1, j + 1);
    SwapWord(rk, i + 2, j + 2);
    SwapWord(rk, i + 3, j + 3);
  }

  /** The word at x once the outer a round keys on either side have been exchanged. */
  function Reversed(nr: nat, a: nat, x: nat): (y: nat)
    requires x < 4 * nr + 4
    ensures y < 4 * nr + 4
  {
    if x < 4 * a || x >= 4 * (nr + 1 - a) then Mirror(nr, x) else x
  }

  lemma ReversedStep(nr: nat, a: nat, x: nat)
    requires 2 * a < nr && x < 4 * nr + 4
    ensures Swapped(4 * a, 4 * (nr - a), x) < 4 * nr + 4
    ensures Reversed(nr, a, Swapped(4 * a, 4 * (nr - a), x)) == Reversed(nr, a + 1, x)
  {
    hide Mirror;
    if 4 * a <= x < 4 * a + 4 {
      MirrorBlock(nr, a, x);
    } else if 4 * (nr - a) <= x < 4 * (nr - a) + 4 {
      MirrorBlock(nr, nr - a, x);
    }
  }

  lemma ReversedAll(nr: nat, a: nat, x: nat)
    requires 2 * a >= nr && x < 4 * nr + 4
    ensures Reversed(nr, a, x) == Mirror(nr, x)
  {
    hide Mirror;
    if 2 * a == nr && 4 * a <= x < 4 * a + 4 {
      MirrorBlock(nr, a, x);
    }
  }

  /** s holds the first words of start with the outer a round keys on either side exchanged, the rest unchanged. */
  ghost predicate ReversedTo<T>(start: seq<T>, s: seq<T>, nr: nat, a: nat) {
    && |s| == |start| >= 4 * nr + 4
    && (forall x :: 0 <= x < 4 * nr + 4 ==> s[x] == start[Reversed(nr, a, x)])
    && (forall x :: 4 * nr + 4 <= x < |s| ==> s[x] == start[x])
  }

  lemma ReversedToStart<T>(start: seq<T>, nr: nat)
    requires |start| >= 4 * nr + 4
    ensures ReversedTo(start, start, nr, 0)
  {
    hide Mirror;
  }

  lemma ReversedToStep<T>(start: seq<T>, s: seq<T>, t: seq<T>, nr: nat, a: nat)
    requires ReversedTo(start, s, nr, a) && |t| == |s| && 2 * a < nr
    requires forall x :: 0 <= x < |t| ==> t[x] == s[Swapped(4 * a, 4 * (nr - a), x)]
    ensures ReversedTo(start, t, nr, a + 1)
  {
    forall x | 0 <= x < 4 * nr + 4
      ensures t[x] == start[Reversed(nr, a + 1, x)]
    {
      hide Reversed, Swapped;
      ReversedStep(nr, a, x);
    }
  }

  lemma ReversedToEnd<T>(start: seq<T>, s: seq<T>, nr: nat, a: nat)
    requires ReversedTo(start, s, nr, a) && 2 * a >= nr
    ensures forall x :: 0 <= x < 4 * nr + 4 ==> s[x] == start[Mirror(nr, x)]
    ensures forall x :: 4 * nr + 4 <= x < |s| ==> s[x] == start[x]
  {
    hide Mirror, Reversed;
    forall x | 0 <= x < 4 * nr + 4
      ensures s[x] == start[Mirror(nr, x)]
    {
      ReversedAll(nr, a, x);
    }
  }

  /** Inverts the order of the round keys. */
  method ReverseRoundKeys<T>(rk: array<T>, nr: nat)
    requires rk.Length >= 4 * nr + 4
    modifies rk
    ensures forall x :: 0 <= x < 4 * nr + 4 ==> rk[x] == old(rk[..])[Mirror(nr, x)]
    ensures forall x :: 4 * nr + 4 <= x < rk.Length ==> rk[x] == old(rk[..])[x]
  {
    hide *;
    ghost var start := rk[..];
    ReversedToStart(start, nr);
    var i, j := 0, 4 * nr;
    ghost var a := 0;
    while i < j
      invariant 0 <= a && i == 4 * a && j == 4 * (nr - a)
      invariant ReversedTo(start, rk[..], nr, a)
    {
      ghost var before := rk[..];
      SwapRoundKeys(rk, i, j);
      ReversedToStep(start, before, rk[..], nr, a);
      a := a + 1;
      i := i + 4;
      j := j - 4;
    }
    ReversedToEnd(start, rk[..], nr, a);
  }

  /** Applies InvMixColumns to every round key but the first and the last. */
  method MixRoundKeys(rk: array<bv32>, nr: nat)
    requires rk.Length >= 4 * nr + 4
    modifies rk
    ensures forall x :: 0 <= x < rk.Length ==>
      rk[x] == if 4 <= x < 4 * nr then InvMixWord(old(rk[x])) else old(rk[x])
  {
    hide InvMixWord;
    var i, p := 1, 0;
    while i < nr
      invariant 1 <= i && (i == 1 || i <= nr) && p == 4 * (i - 1)
      invariant forall x :: 0 <= x < rk.Length ==>
        rk[x] == if 4 <= x < 4 * i then InvMixWord(old(rk[x])) else old(rk[x])
    {
      p := p + 4;
      rk[p] := InvMixWord(rk[p]);
      rk[p + 1] := InvMixWord(rk[p + 1]);
      rk[p + 2] := InvMixWord(rk[p + 2]);
      rk[p + 3] := InvMixWord(rk[p + 3]);
      i := i + 1;
    }
  }

  lemma MirroredMixed(w: seq<Column>, rk: seq<bv32>, dk: seq<bv32>, nr: nat)
    requires |w| == 4 * nr + 4 <= |rk| && |dk| == |rk| && Words(rk, 4 * nr + 4) == w
    requires forall x :: 0 <= x < 4 * nr + 4 ==>
      dk[x] == if 4 <= x < 4 * nr then InvMixWord(rk[Mirror(nr, x)]) else rk[Mirror(nr, x)]
    ensures Words(dk, 4 * nr + 4) == InverseSchedule(w, nr)
  {
    hide Bytes, InvMixWord, InvMixColumn;
    forall x | 0 <= x < 4 * nr + 4
      ensures Bytes(dk[x]) == InverseWord(w, nr, x)
    {
      assert w[Mirror(nr, x)] == Bytes(rk[Mirror(nr, x)]);
      InvMixWordMixes(rk[Mirror(nr, x)]);
    }
  }

  /** Expands the cipher key into the decryption schedule and returns the number of rounds. */
  method KeySetupDec(rk: array<bv32>, cipherKey: seq<bv8>, keyBits: int) returns (nr: nat)
    requires |cipherKey| >= KeyBytes(keyBits) && rk.Length >= WordsWritten(keyBits)
    modifies rk
    ensures nr == KeyRounds(keyBits)
    ensures nr > 0 ==>
      Words(rk[..], 4 * nr + 4) == InverseSchedule(Expand(cipherKey, KeyBytes(keyBits) / 4, nr), nr)
    ensures nr == 0 ==> Words(rk[..], 8) == seq(8, i requires 0 <= i < 8 => KeyWord(cipherKey, i))
    ensures forall j :: WordsWritten(keyBits) <= j < rk.Length ==> rk[j] == old(rk[j])
  {
    hide Bytes, InvMixWord, InverseSchedule, Expand;
    nr := KeySetupEnc(rk, cipherKey, keyBits);
    ghost var ek := rk[..];
    ReverseRoundKeys(rk, nr);
    MixRoundKeys(rk, nr);
    if nr > 0 {
      MirroredMixed(Expand(cipherKey, KeyBytes(keyBits) / 4, nr), ek, rk[..], nr);
    } else {
      assert rk[..] == ek;
    }
  }

  // ---------- the whole cipher ----------

  /** On blocks, under the two schedules of one key, decryption undoes encryption. */
  lemma DecryptUndoesEncrypt(key: seq<bv8>, nk: nat, nr: nat, pt: seq<bv8>)
    requires nk > 0 && |key| >= 4 * nk && nr > 0 && |pt| == 16
    ensures var w := Expand(key, nk, nr);
            ToBlock(EqInvCipher(InverseSchedule(w, nr), nr, ToState(ToBlock(Cipher(w, nr, ToState(pt)))))) == pt
  {
    hide *;
    var w := Expand(key, nk, nr);
    StateOfBlock(Cipher(w, nr, ToState(pt)));
    EqInvCipherCorrect(w, nr, ToState(pt));
    BlockOfState(pt);
  }

  /** Both setups, one encryption and one decryption, run as the library runs them: the block comes back. */
  method EncryptThenDecrypt(cipherKey: seq<bv8>, keyBits: int, pt: seq<bv8>) returns (back: seq<bv8>)
    requires keyBits in {128, 192, 256} && |cipherKey| >= KeyBytes(keyBits) && |pt| == 16
    ensures back == pt
  {
    hide Words, Expand, Cipher, EqInvCipher, InverseSchedule, ToState, ToBlock;
    var ek, dk := new bv32[60], new bv32[60];
    var nd := KeySetupDec(dk, cipherKey, keyBits);
    var ne := KeySetupEnc(ek, cipherKey, keyBits);
    var ct, out := new bv8[16], new bv8[16];
    ghost var w := Expand(cipherKey, KeyBytes(keyBits) / 4, ne);
    Encrypt(ek, ne, pt, ct, 0);
    assert ct[..] == ToBlock(Cipher(w, ne, ToState(pt)));
    Decrypt(dk, nd, ct[..], out, 0);
    assert out[..] == ToBlock(EqInvCipher(InverseSchedule(w, ne), ne, ToState(ct[..])));
    DecryptUndoesEncrypt(cipherKey, KeyBytes(keyBits) / 4, ne, pt);
    back := out[..];
  }
}
