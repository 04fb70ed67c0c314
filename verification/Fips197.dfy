/** The cipher and the key expansion of FIPS 197, stated on columns of four bytes. */
module Fips197 {
  import opened Gf256

  /** One column of the state, top byte first; also one word of the key schedule. */
  datatype Column = Column(b0: bv8, b1: bv8, b2: bv8, b3: bv8)

  datatype State = State(c0: Column, c1: Column, c2: Column, c3: Column)

  function Xor(x: Column, y: Column): Column {
    Column(Add(x.b0, y.b0), Add(x.b1, y.b1), Add(x.b2, y.b2), Add(x.b3, y.b3))
  }

  function SubColumn(c: Column): Column {
    Column(Sub(c.b0), Sub(c.b1), Sub(c.b2), Sub(c.b3))
  }

  function InvSubColumn(c: Column): Column {
    Column(InvSub(c.b0), InvSub(c.b1), InvSub(c.b2), InvSub(c.b3))
  }

  function MixColumn(c: Column): Column {
    Column(MixByte(c.b0, c.b1, c.b2, c.b3), MixByte(c.b1, c.b2, c.b3, c.b0),
           MixByte(c.b2, c.b3, c.b0, c.b1), MixByte(c.b3, c.b0, c.b1, c.b2))
  }

  function InvMixColumn(c: Column): Column {
    Column(InvMixByte(c.b0, c.b1, c.b2, c.b3), InvMixByte(c.b1, c.b2, c.b3, c.b0),
           InvMixByte(c.b2, c.b3, c.b0, c.b1), InvMixByte(c.b3, c.b0, c.b1, c.b2))
  }

  function SubBytes(s: State): State {
    State(SubColumn(s.c0), SubColumn(s.c1), SubColumn(s.c2), SubColumn(s.c3))
  }

  function InvSubBytes(s: State): State {
    State(InvSubColumn(s.c0), InvSubColumn(s.c1), InvSubColumn(s.c2), InvSubColumn(s.c3))
  }

  function ShiftRows(s: State): State {
    State(Column(s.c0.b0, s.c1.b1, s.c2.b2, s.c3.b3), Column(s.c1.b0, s.c2.b1, s.c3.b2, s.c0.b3),
          Column(s.c2.b0, s.c3.b1, s.c0.b2, s.c1.b3), Column(s.c3.b0, s.c0.b1, s.c1.b2, s.c2.b3))
  }

  function InvShiftRows(s: State): State {
    State(Column(s.c0.b0, s.c3.b1, s.c2.b2, s.c1.b3), Column(s.c1.b0, s.c0.b1, s.c3.b2, s.c2.b3),
          Column(s.c2.b0, s.c1.b1, s.c0.b2, s.c3.b3), Column(s.c3.b0, s.c2.b1, s.c1.b2, s.c0.b3))
  }

  function MixColumns(s: State): State {
    State(MixColumn(s.c0), MixColumn(s.c1), MixColumn(s.c2), MixColumn(s.c3))
  }

  function InvMixColumns(s: State): State {
    State(InvMixColumn(s.c0), InvMixColumn(s.c1), InvMixColumn(s.c2), InvMixColumn(s.c3))
  }

  function AddRoundKey(s: State, k: State): State {
    State(Xor(s.c0, k.c0), Xor(s.c1, k.c1), Xor(s.c2, k.c2), Xor(s.c3, k.c3))
  }

  function RoundKey(w: seq<Column>, r: nat): State
    requires 4 * r + 4 <= |w|
  {
    State(w[4 * r], w[4 * r + 1], w[4 * r + 2], w[4 * r + 3])
  }

  // ---------- the cipher, section 5.1 ----------

  /** The state after the initial key addition and k full rounds. */
  function Rounds(w: seq<Column>, pt: State, k: nat): State
    requires 4 * k + 4 <= |w|
  {
    if k == 0 then AddRoundKey(pt, RoundKey(w, 0))
    else AddRoundKey(MixColumns(ShiftRows(SubBytes(Rounds(w, pt, k - 1)))), RoundKey(w, k))
  }

  function Cipher(w: seq<Column>, nr: nat, pt: State): State
    requires nr > 0 && 4 * nr + 4 <= |w|
  {
    AddRoundKey(ShiftRows(SubBytes(Rounds(w, pt, nr - 1))), RoundKey(w, nr))
  }

  // ---------- the equivalent inverse cipher, section 5.3.5 ----------

  function InvRounds(dw: seq<Column>, ct: State, k: nat): State
    requires 4 * k + 4 <= |dw|
  {
    if k == 0 then AddRoundKey(ct, RoundKey(dw, 0))
    else AddRoundKey(InvMixColumns(InvShiftRows(InvSubBytes(InvRounds(dw, ct, k - 1)))), RoundKey(dw, k))
  }

  function EqInvCipher(dw: seq<Column>, nr: nat, ct: State): State
    requires nr > 0 && 4 * nr + 4 <= |dw|
  {
    AddRoundKey(InvShiftRows(InvSubBytes(InvRounds(dw, ct, nr - 1))), RoundKey(dw, nr))
  }

  // ---------- key expansion, section 5.2 ----------

  function RotWord(c: Column): Column {
    Column(c.b1, c.b2, c.b3, c.b0)
  }

  function Power(i: nat): bv8 {
    if i == 0 then 1 else Xtime(Power(i - 1))
  }

  function Rcon(i: nat): Column
    requires i > 0
  {
    Column(Power(i - 1), 0, 0, 0)
  }

  function KeyWord(key: seq<bv8>, i: nat): Column
    requires 4 * i + 4 <= |key|
  {
    Column(key[4 * i], key[4 * i + 1], key[4 * i + 2], key[4 * i + 3])
  }

  /** What is added to w[i - nk] to make w[i], given the word before it. */
  function Feed(nk: nat, i: nat, before: Column): Column
    requires 0 < nk <= i
  {
    if i % nk == 0 then Xor(SubColumn(RotWord(before)), Rcon(i / nk))
    else if nk > 6 && i % nk == 4 then SubColumn(before)
    else before
  }

  /** Word i of the expansion of a key of nk words. */
  function ScheduleWord(key: seq<bv8>, nk: nat, i: nat): Column
    requires nk > 0 && |key| >= 4 * nk
  {
    if i < nk then KeyWord(key, i)
    else Xor(ScheduleWord(key, nk, i - nk), Feed(nk, i, ScheduleWord(key, nk, i - 1)))
  }

  function Expand(key: seq<bv8>, nk: nat, nr: nat): (w: seq<Column>)
    requires nk > 0 && |key| >= 4 * nk
    ensures |w| == 4 * nr + 4
  {
    seq(4 * nr + 4, i requires 0 <= i => ScheduleWord(key, nk, i))
  }

  /** The schedule of the equivalent inverse cipher: reversed, with InvMixColumns on the inner round keys. */
  function InverseWord(w: seq<Column>, nr: nat, i: nat): Column
    requires |w| == 4 * nr + 4 && i < |w|
  {
    var c := w[4 * (nr - i / 4) + i % 4];
    if 0 < i / 4 < nr then InvMixColumn(c) else c
  }

  function InverseSchedule(w: seq<Column>, nr: nat): (dw: seq<Column>)
    requires |w| == 4 * nr + 4
    ensures |dw| == |w|
  {
    seq(|w|, i requires 0 <= i < |w| => InverseWord(w, nr, i))
  }

  // ---------- each step of the inverse cipher undoes its counterpart ----------

  /** InvSubBytes commutes with the row shift, so a round's substitution and shift are undone together. */
  lemma InvShiftSub(s: State)
    ensures InvShiftRows(InvSubBytes(ShiftRows(SubBytes(s)))) == s
  {
    hide Sub, InvSub;
    InvSubSubColumn(s.c0);
    InvSubSubColumn(s.c1);
    InvSubSubColumn(s.c2);
    InvSubSubColumn(s.c3);
  }

  lemma InvSubSubColumn(c: Column)
    ensures InvSubColumn(SubColumn(c)) == c
  {
    hide Sub, InvSub;
    InvSubSub(c.b0);
    InvSubSub(c.b1);
    InvSubSub(c.b2);
    InvSubSub(c.b3);
  }

  lemma InvMixMixColumn(c: Column)
    ensures InvMixColumn(MixColumn(c)) == c
  {
    hide MixByte, InvMixByte;
    InvMixMixByte(c.b0, c.b1, c.b2, c.b3);
    InvMixMixByte(c.b1, c.b2, c.b3, c.b0);
    InvMixMixByte(c.b2, c.b3, c.b0, c.b1);
    InvMixMixByte(c.b3, c.b0, c.b1, c.b2);
  }

  lemma InvMixColumnXor(c: Column, d: Column)
    ensures InvMixColumn(Xor(c, d)) == Xor(InvMixColumn(c), InvMixColumn(d))
  {
    hide Add, InvMixByte;
    InvMixByteAdd(c.b0, c.b1, c.b2, c.b3, d.b0, d.b1, d.b2, d.b3);
    InvMixByteAdd(c.b1, c.b2, c.b3, c.b0, d.b1, d.b2, d.b3, d.b0);
    InvMixByteAdd(c.b2, c.b3, c.b0, c.b1, d.b2, d.b3, d.b0, d.b1);
    InvMixByteAdd(c.b3, c.b0, c.b1, c.b2, d.b3, d.b0, d.b1, d.b2);
  }

  lemma XorTwice(c: Column, d: Column)
    ensures Xor(Xor(c, d), d) == c
  {
    AddTwice(c.b0, d.b0);
    AddTwice(c.b1, d.b1);
    AddTwice(c.b2, d.b2);
    AddTwice(c.b3, d.b3);
    hide Add;
  }

  lemma AddTwice(x: bv8, y: bv8)
    ensures Add(Add(x, y), y) == x
  {
    hide Add;
    AddAssociates(x, y, y);
    AddZero(y);
    AddZero(x);
  }

  lemma AddRoundKeyTwice(s: State, k: State)
    ensures AddRoundKey(AddRoundKey(s, k), k) == s
  {
    hide Xor;
    XorTwice(s.c0, k.c0);
    XorTwice(s.c1, k.c1);
    XorTwice(s.c2, k.c2);
    XorTwice(s.c3, k.c3);
  }

  /** Adding the transformed round key after InvMixColumns cancels the round key added before it. */
  lemma InvMixAddRoundKey(s: State, k: State)
    ensures AddRoundKey(InvMixColumns(AddRoundKey(MixColumns(s), k)), InvMixColumns(k)) == s
  {
    hide Xor, MixColumn, InvMixColumn;
    InvMixXorColumn(s.c0, k.c0);
    InvMixXorColumn(s.c1, k.c1);
    InvMixXorColumn(s.c2, k.c2);
    InvMixXorColumn(s.c3, k.c3);
  }

  lemma InvMixXorColumn(c: Column, k: Column)
    ensures Xor(InvMixColumn(Xor(MixColumn(c), k)), InvMixColumn(k)) == c
  {
    hide Xor, MixColumn, InvMixColumn;
    InvMixColumnXor(MixColumn(c), k);
    InvMixMixColumn(c);
    XorTwice(c, InvMixColumn(k));
  }

  lemma InverseRoundKey(w: seq<Column>, nr: nat, r: nat)
    requires |w| == 4 * nr + 4 && r <= nr
    ensures RoundKey(InverseSchedule(w, nr), r) ==
            if 0 < r < nr then InvMixColumns(RoundKey(w, nr - r)) else RoundKey(w, nr - r)
  {
    hide InvMixColumn;
    var dw := InverseSchedule(w, nr);
    assert dw[4 * r] == InverseWord(w, nr, 4 * r + 0) && (4 * r) / 4 == r;
    assert dw[4 * r + 1] == InverseWord(w, nr, 4 * r + 1) && (4 * r + 1) / 4 == r;
    assert dw[4 * r + 2] == InverseWord(w, nr, 4 * r + 2) && (4 * r + 2) / 4 == r;
    assert dw[4 * r + 3] == InverseWord(w, nr, 4 * r + 3) && (4 * r + 3) / 4 == r;
  }

  /** After k inverse rounds the state is what the cipher had just before mixing in round nr - k. */
  lemma {:induction false} InvRoundsRetrace(w: seq<Column>, nr: nat, pt: State, k: nat)
    requires nr > 0 && |w| == 4 * nr + 4 && k < nr
    ensures InvRounds(InverseSchedule(w, nr), Cipher(w, nr, pt), k) == ShiftRows(SubBytes(Rounds(w, pt, nr - 1 - k)))
  {
    hide AddRoundKey, InvMixColumns, MixColumns, SubBytes, InvSubBytes, ShiftRows, InvShiftRows, InverseSchedule;
    InverseRoundKey(w, nr, k);
    if k == 0 {
      AddRoundKeyTwice(ShiftRows(SubBytes(Rounds(w, pt, nr - 1))), RoundKey(w, nr));
    } else {
      InvRoundsRetrace(w, nr, pt, k - 1);
      InvShiftSub(Rounds(w, pt, nr - k));
      InvMixAddRoundKey(ShiftRows(SubBytes(Rounds(w, pt, nr - k - 1))), RoundKey(w, nr - k));
    }
  }

  /** The equivalent inverse cipher under the inverse schedule undoes the cipher. */
  lemma EqInvCipherCorrect(w: seq<Column>, nr: nat, pt: State)
    requires nr > 0 && |w| == 4 * nr + 4
    ensures EqInvCipher(InverseSchedule(w, nr), nr, Cipher(w, nr, pt)) == pt
  {
    hide AddRoundKey, InvMixColumns, MixColumns, SubBytes, InvSubBytes, ShiftRows, InvShiftRows, InverseSchedule;
    InvRoundsRetrace(w, nr, pt, nr - 1);
    InverseRoundKey(w, nr, nr);
    InvShiftSub(Rounds(w, pt, 0));
    AddRoundKeyTwice(pt, RoundKey(w, 0));
  }
}
