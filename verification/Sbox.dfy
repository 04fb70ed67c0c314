/** Where the S-box and the column constants come from: the field, its inverses and one affine map. */
module Sbox {
  import opened Gf256

  /** x if the bit is set in y, else nothing. */
  function Part(y: bv8, bit: bv8, x: bv8): bv8 {
    if y & bit == 0 then 0 else x
  }

  /** The product in GF(2^8), section 4.2 of FIPS 197. */
  function Mul(x: bv8, y: bv8): bv8 {
    var x1 := Xtime(x);
    var x2 := Xtime(x1);
    var x3 := Xtime(x2);
    var x4 := Xtime(x3);
    var x5 := Xtime(x4);
    var x6 := Xtime(x5);
    var x7 := Xtime(x6);
    Part(y, 1, x) ^ Part(y, 2, x1) ^ Part(y, 4, x2) ^ Part(y, 8, x3) ^
    Part(y, 16, x4) ^ Part(y, 32, x5) ^ Part(y, 64, x6) ^ Part(y, 128, x7)
  }

  function Rotl(b: bv8, k: nat): bv8
    requires 0 < k < 8
  {
    (b << k) | (b >> (8 - k))
  }

  /** The affine map of section 5.1.1. */
  function Affine(b: bv8): bv8 {
    b ^ Rotl(b, 1) ^ Rotl(b, 2) ^ Rotl(b, 3) ^ Rotl(b, 4) ^ 0x63
  }

  function Unaffine(c: bv8): bv8 {
    Rotl(c, 1) ^ Rotl(c, 3) ^ Rotl(c, 6) ^ 0x05
  }

  lemma AffineUnaffine(c: bv8)
    ensures Affine(Unaffine(c)) == c
  {
  }

  /** y is the inverse of x, zero being its own. */
  predicate Inverts(x: bv8, y: bv8) {
    if x == 0 then y == 0 else Mul(x, y) == 1
  }

  lemma SubInverts0(x: bv8)
    requires x >> 5 == 0
    ensures Inverts(x, Unaffine(Sub(x)))
  {
  }

  lemma SubInverts1(x: bv8)
    requires x >> 5 == 1
    ensures Inverts(x, Unaffine(Sub(x)))
  {
  }

  lemma SubInverts2(x: bv8)
    requires x >> 5 == 2
    ensures Inverts(x, Unaffine(Sub(x)))
  {
  }

  lemma SubInverts3(x: bv8)
    requires x >> 5 == 3
    ensures Inverts(x, Unaffine(Sub(x)))
  {
  }

  lemma SubInverts4(x: bv8)
    requires x >> 5 == 4
    ensures Inverts(x, Unaffine(Sub(x)))
  {
  }

  lemma SubInverts5(x: bv8)
    requires x >> 5 == 5
    ensures Inverts(x, Unaffine(Sub(x)))
  {
  }

  lemma SubInverts6(x: bv8)
    requires x >> 5 == 6
    ensures Inverts(x, Unaffine(Sub(x)))
  {
  }

  lemma SubInverts7(x: bv8)
    requires x >> 5 == 7
    ensures Inverts(x, Unaffine(Sub(x)))
  {
  }

  /** The S-box is the affine map of the inverse, on every byte. */
  lemma SubIsAffine(x: bv8) returns (y: bv8)
    ensures Inverts(x, y) && Sub(x) == Affine(y)
  {
    hide Sub, Inverts, Affine, Unaffine;
    y := Unaffine(Sub(x));
    AffineUnaffine(Sub(x));
    var top := x >> 5;
    if top == 0 {
      SubInverts0(x);
    } else if top == 1 {
      SubInverts1(x);
    } else if top == 2 {
      SubInverts2(x);
    } else if top == 3 {
      SubInverts3(x);
    } else if top == 4 {
      SubInverts4(x);
    } else if top == 5 {
      SubInverts5(x);
    } else if top == 6 {
      SubInverts6(x);
    } else {
      SubInverts7(x);
    }
  }

  lemma Times2(x: bv8)
    ensures Xtime(x) == Mul(x, 2)
  {
  }

  lemma Times3(x: bv8)
    ensures By3(x) == Mul(x, 3)
  {
  }

  lemma Times9(x: bv8)
    ensures By9(x) == Mul(x, 9)
  {
  }

  lemma TimesB(x: bv8)
    ensures ByB(x) == Mul(x, 11)
  {
  }

  lemma TimesD(x: bv8)
    ensures ByD(x) == Mul(x, 13)
  {
  }

  lemma TimesE(x: bv8)
    ensures ByE(x) == Mul(x, 14)
  {
  }

  /** The constants of MixColumns and InvMixColumns are the products they are named for. */
  lemma ProductsAreMul(x: bv8)
    ensures Xtime(x) == Mul(x, 2) && By3(x) == Mul(x, 3) && By9(x) == Mul(x, 9)
    ensures ByB(x) == Mul(x, 11) && ByD(x) == Mul(x, 13) && ByE(x) == Mul(x, 14)
  {
    hide *;
    Times2(x);
    Times3(x);
    Times9(x);
    TimesB(x);
    TimesD(x);
    TimesE(x);
  }
}
