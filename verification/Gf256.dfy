/** Arithmetic in GF(2^8) as section 4 of FIPS 197 defines it, and the S-box with its inverse. */
module Gf256 {

  /** Multiplication by x modulo x^8 + x^4 + x^3 + x + 1. */
  function Xtime(b: bv8): bv8 {
    (b << 1) ^ ((b >> 7) * 0x1b)
  }

  /** Addition is exclusive or. */
  function Add(x: bv8, y: bv8): bv8 {
    x ^ y
  }

  function Sum(x: bv8, y: bv8, z: bv8, w: bv8): bv8 {
    Add(Add(x, y), Add(z, w))
  }

  // Products with the constants of MixColumns and InvMixColumns.

  function By3(b: bv8): bv8 {
    Add(Xtime(b), b)
  }

  function By9(b: bv8): bv8 {
    Add(Xtime(Xtime(Xtime(b))), b)
  }

  function ByB(b: bv8): bv8 {
    Add(By9(b), Xtime(b))
  }

  function ByD(b: bv8): bv8 {
    Add(By9(b), Xtime(Xtime(b)))
  }

  function ByE(b: bv8): bv8 {
    Add(Xtime(Xtime(Xtime(b))), Add(Xtime(Xtime(b)), Xtime(b)))
  }

  /** Selects one of sixteen values by the low four bits of n. */
  function Pick(n: bv8,
                v0: bv8, v1: bv8, v2: bv8, v3: bv8, v4: bv8, v5: bv8, v6: bv8, v7: bv8,
                v8: bv8, v9: bv8, v10: bv8, v11: bv8, v12: bv8, v13: bv8, v14: bv8, v15: bv8): bv8
  {
    (if n & 8 == 0 then
      (if n & 4 == 0 then
        (if n & 2 == 0 then
          (if n & 1 == 0 then v0 else v1)
        else
          (if n & 1 == 0 then v2 else v3))
      else
        (if n & 2 == 0 then
          (if n & 1 == 0 then v4 else v5)
        else
          (if n & 1 == 0 then v6 else v7)))
    else
      (if n & 4 == 0 then
        (if n & 2 == 0 then
          (if n & 1 == 0 then v8 else v9)
        else
          (if n & 1 == 0 then v10 else v11))
      else
        (if n & 2 == 0 then
          (if n & 1 == 0 then v12 else v13)
        else
          (if n & 1 == 0 then v14 else v15))))
  }

  /** The S-box of section 5.1.1 of FIPS 197. */
  function Sub(x: bv8): bv8 {
    var n := x & 0x0f;
    Pick(x >> 4,
         Pick(n, 0x63, 0x7c, 0x77, 0x7b, 0xf2, 0x6b, 0x6f, 0xc5, 0x30, 0x01, 0x67, 0x2b, 0xfe, 0xd7, 0xab, 0x76),
         Pick(n, 0xca, 0x82, 0xc9, 0x7d, 0xfa, 0x59, 0x47, 0xf0, 0xad, 0xd4, 0xa2, 0xaf, 0x9c, 0xa4, 0x72, 0xc0),
         Pick(n, 0xb7, 0xfd, 0x93, 0x26, 0x36, 0x3f, 0xf7, 0xcc, 0x34, 0xa5, 0xe5, 0xf1, 0x71, 0xd8, 0x31, 0x15),
         Pick(n, 0x04, 0xc7, 0x23, 0xc3, 0x18, 0x96, 0x05, 0x9a, 0x07, 0x12, 0x80, 0xe2, 0xeb, 0x27, 0xb2, 0x75),
         Pick(n, 0x09, 0x83, 0x2c, 0x1a, 0x1b, 0x6e, 0x5a, 0xa0, 0x52, 0x3b, 0xd6, 0xb3, 0x29, 0xe3, 0x2f, 0x84),
         Pick(n, 0x53, 0xd1, 0x00, 0xed, 0x20, 0xfc, 0xb1, 0x5b, 0x6a, 0xcb, 0xbe, 0x39, 0x4a, 0x4c, 0x58, 0xcf),
         Pick(n, 0xd0, 0xef, 0xaa, 0xfb, 0x43, 0x4d, 0x33, 0x85, 0x45, 0xf9, 0x02, 0x7f, 0x50, 0x3c, 0x9f, 0xa8),
         Pick(n, 0x51, 0xa3, 0x40, 0x8f, 0x92, 0x9d, 0x38, 0xf5, 0xbc, 0xb6, 0xda, 0x21, 0x10, 0xff, 0xf3, 0xd2),
         Pick(n, 0xcd, 0x0c, 0x13, 0xec, 0x5f, 0x97, 0x44, 0x17, 0xc4, 0xa7, 0x7e, 0x3d, 0x64, 0x5d, 0x19, 0x73),
         Pick(n, 0x60, 0x81, 0x4f, 0xdc, 0x22, 0x2a, 0x90, 0x88, 0x46, 0xee, 0xb8, 0x14, 0xde, 0x5e, 0x0b, 0xdb),
         Pick(n, 0xe0, 0x32, 0x3a, 0x0a, 0x49, 0x06, 0x24, 0x5c, 0xc2, 0xd3, 0xac, 0x62, 0x91, 0x95, 0xe4, 0x79),
         Pick(n, 0xe7, 0xc8, 0x37, 0x6d, 0x8d, 0xd5, 0x4e, 0xa9, 0x6c, 0x56, 0xf4, 0xea, 0x65, 0x7a, 0xae, 0x08),
         Pick(n, 0xba, 0x78, 0x25, 0x2e, 0x1c, 0xa6, 0xb4, 0xc6, 0xe8, 0xdd, 0x74, 0x1f, 0x4b, 0xbd, 0x8b, 0x8a),
         Pick(n, 0x70, 0x3e, 0xb5, 0x66, 0x48, 0x03, 0xf6, 0x0e, 0x61, 0x35, 0x57, 0xb9, 0x86, 0xc1, 0x1d, 0x9e),
         Pick(n, 0xe1, 0xf8, 0x98, 0x11, 0x69, 0xd9, 0x8e, 0x94, 0x9b, 0x1e, 0x87, 0xe9, 0xce, 0x55, 0x28, 0xdf),
         Pick(n, 0x8c, 0xa1, 0x89, 0x0d, 0xbf, 0xe6, 0x42, 0x68, 0x41, 0x99, 0x2d, 0x0f, 0xb0, 0x54, 0xbb, 0x16))
  }

  /** The inverse S-box of section 5.3.2 of FIPS 197. */
  function InvSub(x: bv8): bv8 {
    var n := x & 0x0f;
    Pick(x >> 4,
         Pick(n, 0x52, 0x09, 0x6a, 0xd5, 0x30, 0x36, 0xa5, 0x38, 0xbf, 0x40, 0xa3, 0x9e, 0x81, 0xf3, 0xd7, 0xfb),
         Pick(n, 0x7c, 0xe3, 0x39, 0x82, 0x9b, 0x2f, 0xff, 0x87, 0x34, 0x8e, 0x43, 0x44, 0xc4, 0xde, 0xe9, 0xcb),
         Pick(n, 0x54, 0x7b, 0x94, 0x32, 0xa6, 0xc2, 0x23, 0x3d, 0xee, 0x4c, 0x95, 0x0b, 0x42, 0xfa, 0xc3, 0x4e),
         Pick(n, 0x08, 0x2e, 0xa1, 0x66, 0x28, 0xd9, 0x24, 0xb2, 0x76, 0x5b, 0xa2, 0x49, 0x6d, 0x8b, 0xd1, 0x25),
         Pick(n, 0x72, 0xf8, 0xf6, 0x64, 0x86, 0x68, 0x98, 0x16, 0xd4, 0xa4, 0x5c, 0xcc, 0x5d, 0x65, 0xb6, 0x92),
         Pick(n, 0x6c, 0x70, 0x48, 0x50, 0xfd, 0xed, 0xb9, 0xda, 0x5e, 0x15, 0x46, 0x57, 0xa7, 0x8d, 0x9d, 0x84),
         Pick(n, 0x90, 0xd8, 0xab, 0x00, 0x8c, 0xbc, 0xd3, 0x0a, 0xf7, 0xe4, 0x58, 0x05, 0xb8, 0xb3, 0x45, 0x06),
         Pick(n, 0xd0, 0x2c, 0x1e, 0x8f, 0xca, 0x3f, 0x0f, 0x02, 0xc1, 0xaf, 0xbd, 0x03, 0x01, 0x13, 0x8a, 0x6b),
         Pick(n, 0x3a, 0x91, 0x11, 0x41, 0x4f, 0x67, 0xdc, 0xea, 0x97, 0xf2, 0xcf, 0xce, 0xf0, 0xb4, 0xe6, 0x73),
         Pick(n, 0x96, 0xac, 0x74, 0x22, 0xe7, 0xad, 0x35, 0x85, 0xe2, 0xf9, 0x37, 0xe8, 0x1c, 0x75, 0xdf, 0x6e),
         Pick(n, 0x47, 0xf1, 0x1a, 0x71, 0x1d, 0x29, 0xc5, 0x89, 0x6f, 0xb7, 0x62, 0x0e, 0xaa, 0x18, 0xbe, 0x1b),
         Pick(n, 0xfc, 0x56, 0x3e, 0x4b, 0xc6, 0xd2, 0x79, 0x20, 0x9a, 0xdb, 0xc0, 0xfe, 0x78, 0xcd, 0x5a, 0xf4),
         Pick(n, 0x1f, 0xdd, 0xa8, 0x33, 0x88, 0x07, 0xc7, 0x31, 0xb1, 0x12, 0x10, 0x59, 0x27, 0x80, 0xec, 0x5f),
         Pick(n, 0x60, 0x51, 0x7f, 0xa9, 0x19, 0xb5, 0x4a, 0x0d, 0x2d, 0xe5, 0x7a, 0x9f, 0x93, 0xc9, 0x9c, 0xef),
         Pick(n, 0xa0, 0xe0, 0x3b, 0x4d, 0xae, 0x2a, 0xf5, 0xb0, 0xc8, 0xeb, 0xbb, 0x3c, 0x83, 0x53, 0x99, 0x61),
         Pick(n, 0x17, 0x2b, 0x04, 0x7e, 0xba, 0x77, 0xd6, 0x26, 0xe1, 0x69, 0x14, 0x63, 0x55, 0x21, 0x0c, 0x7d))
  }

  lemma InvSubSub0(x: bv8)
    requires x >> 5 == 0
    ensures InvSub(Sub(x)) == x
  {
  }

  lemma InvSubSub1(x: bv8)
    requires x >> 5 == 1
    ensures InvSub(Sub(x)) == x
  {
  }

  lemma InvSubSub2(x: bv8)
    requires x >> 5 == 2
    ensures InvSub(Sub(x)) == x
  {
  }

  lemma InvSubSub3(x: bv8)
    requires x >> 5 == 3
    ensures InvSub(Sub(x)) == x
  {
  }

  lemma InvSubSub4(x: bv8)
    requires x >> 5 == 4
    ensures InvSub(Sub(x)) == x
  {
  }

  lemma InvSubSub5(x: bv8)
    requires x >> 5 == 5
    ensures InvSub(Sub(x)) == x
  {
  }

  lemma InvSubSub6(x: bv8)
    requires x >> 5 == 6
    ensures InvSub(Sub(x)) == x
  {
  }

  lemma InvSubSub7(x: bv8)
    requires x >> 5 == 7
    ensures InvSub(Sub(x)) == x
  {
  }

  /** The inverse S-box undoes the S-box on every byte. */
  lemma InvSubSub(x: bv8)
    ensures InvSub(Sub(x)) == x
  {
    hide Sub, InvSub;
    var top := x >> 5;
    if top == 0 {
      InvSubSub0(x);
    } else if top == 1 {
      InvSubSub1(x);
    } else if top == 2 {
      InvSubSub2(x);
    } else if top == 3 {
      InvSubSub3(x);
    } else if top == 4 {
      InvSubSub4(x);
    } else if top == 5 {
      InvSubSub5(x);
    } else if top == 6 {
      InvSubSub6(x);
    } else {
      InvSubSub7(x);
    }
  }

  lemma XtimeAdd(x: bv8, y: bv8)
    ensures Xtime(Add(x, y)) == Add(Xtime(x), Xtime(y))
  {
  }

  lemma AddCommutes(x: bv8, y: bv8)
    ensures Add(x, y) == Add(y, x)
  {
  }

  lemma AddAssociates(x: bv8, y: bv8, z: bv8)
    ensures Add(x, Add(y, z)) == Add(Add(x, y), z)
  {
  }

  lemma AddZero(x: bv8)
    ensures Add(x, 0) == x
    ensures Add(x, x) == 0
  {
  }

  lemma Interchange(a: bv8, b: bv8, c: bv8, d: bv8)
    ensures Add(Add(a, b), Add(c, d)) == Add(Add(a, c), Add(b, d))
  {
    hide Add;
    AddAssociates(a, b, Add(c, d));
    AddAssociates(b, c, d);
    AddCommutes(b, c);
    AddAssociates(c, b, d);
    AddAssociates(a, c, Add(b, d));
  }

  /** Multiplication by each constant distributes over addition. */
  lemma ProductsAdd(x: bv8, y: bv8)
    ensures By3(Add(x, y)) == Add(By3(x), By3(y))
    ensures By9(Add(x, y)) == Add(By9(x), By9(y))
    ensures ByB(Add(x, y)) == Add(ByB(x), ByB(y))
    ensures ByD(Add(x, y)) == Add(ByD(x), ByD(y))
    ensures ByE(Add(x, y)) == Add(ByE(x), ByE(y))
  {
    hide Xtime, Add;
    var x2, y2 := Xtime(x), Xtime(y);
    var x4, y4 := Xtime(x2), Xtime(y2);
    var x8, y8 := Xtime(x4), Xtime(y4);
    XtimeAdd(x, y);
    XtimeAdd(x2, y2);
    XtimeAdd(x4, y4);
    Interchange(x2, y2, x, y);
    Interchange(x8, y8, x, y);
    Interchange(By9(x), By9(y), x2, y2);
    Interchange(By9(x), By9(y), x4, y4);
    Interchange(x4, y4, x2, y2);
    Interchange(x8, y8, Add(x4, x2), Add(y4, y2));
  }

  /** One byte of MixColumns, section 5.1.3 of FIPS 197. */
  function MixByte(x: bv8, y: bv8, z: bv8, w: bv8): bv8 {
    Sum(Xtime(x), By3(y), z, w)
  }

  /** One byte of InvMixColumns, section 5.3.3 of FIPS 197. */
  function InvMixByte(x: bv8, y: bv8, z: bv8, w: bv8): bv8 {
    Sum(ByE(x), ByB(y), ByD(z), By9(w))
  }

  lemma SumAdd(a: bv8, b: bv8, c: bv8, d: bv8, e: bv8, f: bv8, g: bv8, h: bv8)
    ensures Sum(Add(a, e), Add(b, f), Add(c, g), Add(d, h)) == Add(Sum(a, b, c, d), Sum(e, f, g, h))
  {
    hide Add;
    Interchange(a, e, b, f);
    Interchange(c, g, d, h);
    Interchange(Add(a, b), Add(e, f), Add(c, d), Add(g, h));
  }

  lemma InvMixByteAdd(x: bv8, y: bv8, z: bv8, w: bv8, x': bv8, y': bv8, z': bv8, w': bv8)
    ensures InvMixByte(Add(x, x'), Add(y, y'), Add(z, z'), Add(w, w')) ==
            Add(InvMixByte(x, y, z, w), InvMixByte(x', y', z', w'))
  {
    hide Add, Sum, By9, ByB, ByD, ByE;
    ProductsAdd(x, x');
    ProductsAdd(y, y');
    ProductsAdd(z, z');
    ProductsAdd(w, w');
    SumAdd(ByE(x), ByB(y), ByD(z), By9(w), ByE(x'), ByB(y'), ByD(z'), By9(w'));
  }

  // The coefficients of the product of the two polynomials: one, and three zeros.

  lemma Coefficient0(x: bv8)
    ensures InvMixByte(Xtime(x), x, x, By3(x)) == x
  {
  }

  lemma Coefficient1(x: bv8)
    ensures InvMixByte(By3(x), Xtime(x), x, x) == 0
  {
  }

  lemma Coefficient2(x: bv8)
    ensures InvMixByte(x, By3(x), Xtime(x), x) == 0
  {
  }

  lemma Coefficient3(x: bv8)
    ensures InvMixByte(x, x, By3(x), Xtime(x)) == 0
  {
  }

  lemma Reorder(a: bv8, b: bv8, c: bv8, d: bv8)
    ensures Sum(a, b, c, d) == Add(Add(a, b), Add(c, d))
    ensures Sum(a, b, c, d) == Add(Add(d, a), Add(b, c))
    ensures Sum(a, b, c, d) == Add(Add(c, d), Add(a, b))
    ensures Sum(a, b, c, d) == Add(Add(b, c), Add(d, a))
  {
    hide Add;
    AddCommutes(Add(a, b), Add(c, d));
    AddCommutes(c, d);
    AddCommutes(b, c);
    Interchange(d, c, a, b);
    AddCommutes(Add(d, a), Add(b, c));
  }

  /** InvMixColumns undoes MixColumns, one byte at a time. */
  lemma InvMixMixByte(x: bv8, y: bv8, z: bv8, w: bv8)
    ensures InvMixByte(MixByte(x, y, z, w), MixByte(y, z, w, x), MixByte(z, w, x, y), MixByte(w, x, y, z)) == x
  {
    hide Add, Sum, By3, InvMixByte, Xtime;
    Reorder(Xtime(x), By3(y), z, w);
    Reorder(Xtime(y), By3(z), w, x);
    Reorder(Xtime(z), By3(w), x, y);
    Reorder(Xtime(w), By3(x), y, z);
    InvMixByteAdd(Add(Xtime(x), By3(y)), Add(x, Xtime(y)), Add(x, y), Add(By3(x), y),
                  Add(z, w), Add(By3(z), w), Add(Xtime(z), By3(w)), Add(z, Xtime(w)));
    InvMixByteAdd(Xtime(x), x, x, By3(x), By3(y), Xtime(y), y, y);
    InvMixByteAdd(z, By3(z), Xtime(z), z, w, w, By3(w), Xtime(w));
    Coefficient0(x);
    Coefficient1(y);
    Coefficient2(z);
    Coefficient3(w);
    AddZero(x);
    AddZero(0);
  }
}
