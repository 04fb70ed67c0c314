/**
 * Bob Jenkins' lookup3 hash: three alignment-specific code paths against one definition over bytes.
 * A 32-bit word is a number below 2^32; adding wraps, masking the low bits is a remainder and shifting
 * a short value left is a multiplication. Only the mixing works on bit vectors.
 */
module Jenkins {
  import opened Machine

  // ---------- the definition ----------

  datatype Trio = Trio(a: Word, b: Word, c: Word)

  function Plus(x: Word, y: nat): Word {
    (x + y) % TWO32
  }

  function Minus(x: Word, y: Word): Word {
    (x + TWO32 - y) % TWO32
  }

  function Bits(x: Word): bv32 {
    x as bv32
  }

  function Value(b: bv32): Word {
    b as nat
  }

  function XorBits(x: bv32, y: bv32): bv32 {
    x ^ y
  }

  function RotBits(x: bv32, k: nat): bv32
    requires 0 < k < 32
  {
    (x << k) | (x >> (32 - k))
  }

  function Xor(x: Word, y: Word): Word {
    Value(XorBits(Bits(x), Bits(y)))
  }

  function Rot(x: Word, k: nat): Word
    requires 0 < k < 32
  {
    Value(RotBits(Bits(x), k))
  }

  /** One half line of mix: x -= z; x ^= rot(z, k). */
  function Turn(x: Word, z: Word, k: nat): Word
    requires 0 < k < 32
  {
    Xor(Minus(x, z), Rot(z, k))
  }

  function Mix(s: Trio): Trio {
    var a1 := Turn(s.a, s.c, 4);
    var c1 := Plus(s.c, s.b);
    var b1 := Turn(s.b, a1, 6);
    var a2 := Plus(a1, c1);
    var c2 := Turn(c1, b1, 8);
    var b2 := Plus(b1, a2);
    var a3 := Turn(a2, c2, 16);
    var c3 := Plus(c2, b2);
    var b3 := Turn(b2, a3, 19);
    var a4 := Plus(a3, c3);
    var c4 := Turn(c3, b3, 4);
    var b4 := Plus(b3, a4);
    Trio(a4, b4, c4)
  }

  /** One line of final: x ^= y; x -= rot(y, k). */
  function Fold(x: Word, y: Word, k: nat): Word
    requires 0 < k < 32
  {
    Minus(Xor(x, y), Rot(y, k))
  }

  function Final(s: Trio): Word {
    var c1 := Fold(s.c, s.b, 14);
    var a1 := Fold(s.a, c1, 11);
    var b1 := Fold(s.b, a1, 25);
    var c2 := Fold(c1, b1, 16);
    var a2 := Fold(a1, c2, 4);
    var b2 := Fold(b1, a2, 14);
    Fold(c2, b2, 24)
  }

  /** Four bytes as a word, least significant first. */
  function Le(b0: Byte, b1: Byte, b2: Byte, b3: Byte): Word {
    b0 + 0x100 * b1 + 0x10000 * b2 + 0x1000000 * b3
  }

  /** The key as if zero bytes followed it for ever. */
  function ByteAt(key: seq<Byte>, i: nat): Byte {
    if i < |key| then key[i] else 0
  }

  function WordAt(key: seq<Byte>, i: nat): Word {
    Le(ByteAt(key, i), ByteAt(key, i + 1), ByteAt(key, i + 2), ByteAt(key, i + 3))
  }

  /** Adds the first twelve bytes of the zero-extended key. */
  function Feed(s: Trio, key: seq<Byte>): Trio {
    Trio(Plus(s.a, WordAt(key, 0)), Plus(s.b, WordAt(key, 4)), Plus(s.c, WordAt(key, 8)))
  }

  /** Full blocks are mixed, the last one is finished, and an empty key is not mixed at all. */
  function Digest(s: Trio, key: seq<Byte>): Word
    decreases |key|
  {
    if key == [] then s.c
    else if |key| <= 12 then Final(Feed(s, key))
    else Digest(Mix(Feed(s, key)), key[12..])
  }

  function Start(length: nat): Trio {
    var x := (0xdeadbeef + length % TWO32 + 13) % TWO32;
    Trio(x, x, x)
  }

  function Hash(key: seq<Byte>): Word {
    Digest(Start(|key|), key)
  }

  // ---------- memory ----------

  /** Memory as bytes by address; a machine word never straddles its end. */
  predicate Memory(mem: seq<Byte>) {
    |mem| % 4 == 0
  }

  function Load32(mem: seq<Byte>, p: nat): Word
    requires p + 4 <= |mem|
  {
    Le(mem[p], mem[p + 1], mem[p + 2], mem[p + 3])
  }

  function Load16(mem: seq<Byte>, p: nat): (h: nat)
    requires p + 2 <= |mem|
    ensures h < 0x10000
  {
    var low: nat, high: nat := mem[p], mem[p + 1];
    low + 0x100 * high
  }

  function Load8(mem: seq<Byte>, p: nat): (b: nat)
    requires p < |mem|
    ensures b < 256
  {
    mem[p]
  }

  /** The key that starts at address p. */
  function Key(mem: seq<Byte>, p: nat, length: nat): (key: seq<Byte>)
    requires p + length <= |mem|
    ensures |key| == length
  {
    mem[p..p + length]
  }

  /** One block consumed: the rest of the key starts twelve bytes on. */
  lemma DigestBlock(mem: seq<Byte>, p: nat, length: nat, s: Trio)
    requires p + length <= |mem| && length > 12
    ensures Digest(s, Key(mem, p, length)) ==
            Digest(Mix(Trio(Plus(s.a, Load32(mem, p)), Plus(s.b, Load32(mem, p + 4)), Plus(s.c, Load32(mem, p + 8)))),
                   Key(mem, p + 12, length - 12))
  {
    hide Mix, Plus, Le;
    assert Key(mem, p, length)[12..] == Key(mem, p + 12, length - 12);
  }

  // ---------- 32-bit reads ----------

  /** Masking a word is the same as reading zeros beyond the end. */
  lemma Masked(b0: Byte, b1: Byte, b2: Byte, b3: Byte)
    ensures Le(b0, b1, b2, b3) % 0x1000000 == Le(b0, b1, b2, 0)
    ensures Le(b0, b1, b2, b3) % 0x10000 == Le(b0, b1, 0, 0)
    ensures Le(b0, b1, b2, b3) % 0x100 == Le(b0, 0, 0, 0)
  {
    Low24(Le(b0, b1, b2, 0), b3);
    Low16(Le(b0, b1, 0, 0), b2 + 0x100 * b3 as nat);
    Low8(b0, b1 + 0x100 * b2 as nat + 0x10000 * b3 as nat);
  }

  lemma Low24(x: nat, y: nat)
    requires x < 0x1000000
    ensures (x + 0x1000000 * y) % 0x1000000 == x
  {
  }

  lemma Low16(x: nat, y: nat)
    requires x < 0x10000
    ensures (x + 0x10000 * y) % 0x10000 == x
  {
  }

  lemma Low8(x: nat, y: nat)
    requires x < 0x100
    ensures (x + 0x100 * y) % 0x100 == x
  {
  }

  /** The word at address p with only its first n bytes kept, as the masks keep them. */
  function Keep(w: Word, n: nat): Word {
    if n >= 4 then w else if n == 3 then w % 0x1000000 else if n == 2 then w % 0x10000 else w % 0x100
  }

  /** Reading past the end and masking gives the zero-extended word, whatever lies past the end. */
  lemma KeepIsWordAt(mem: seq<Byte>, p: nat, length: nat, i: nat)
    requires i < length && p + length <= |mem| && p + i + 4 <= |mem|
    ensures WordAt(Key(mem, p, length), i) == Keep(Load32(mem, p + i), length - i)
  {
    hide Le;
    Masked(mem[p + i], mem[p + i + 1], mem[p + i + 2], mem[p + i + 3]);
  }

  lemma PastEnd(mem: seq<Byte>, p: nat, length: nat, i: nat)
    requires p + length <= |mem| && length <= i
    ensures WordAt(Key(mem, p, length), i) == 0
  {
  }

  /** The last block of the 32-bit path. */
  method WordTail(mem: seq<Byte>, p: nat, length: nat, s: Trio) returns (h: Word)
    requires Memory(mem) && p % 4 == 0 && p + length <= |mem| && length <= 12
    ensures h == Digest(s, Key(mem, p, length))
  {
    hide Final, Le, Load32, WordAt;
    var a, b, c := s.a, s.b, s.c;
    ghost var key := Key(mem, p, length);
    if length > 0 { KeepIsWordAt(mem, p, length, 0); } else { PastEnd(mem, p, length, 0); }
    if length > 4 { KeepIsWordAt(mem, p, length, 4); } else { PastEnd(mem, p, length, 4); }
    if length > 8 { KeepIsWordAt(mem, p, length, 8); } else { PastEnd(mem, p, length, 8); }
    match length {
      case 12 =>
        c := Plus(c, Load32(mem, p + 8));
        b := Plus(b, Load32(mem, p + 4));
        a := Plus(a, Load32(mem, p));
      case 11 =>
        c := Plus(c, Load32(mem, p + 8) % 0x1000000);
        b := Plus(b, Load32(mem, p + 4));
        a := Plus(a, Load32(mem, p));
      case 10 =>
        c := Plus(c, Load32(mem, p + 8) % 0x10000);
        b := Plus(b, Load32(mem, p + 4));
        a := Plus(a, Load32(mem, p));
      case 9 =>
        c := Plus(c, Load32(mem, p + 8) % 0x100);
        b := Plus(b, Load32(mem, p + 4));
        a := Plus(a, Load32(mem, p));
      case 8 =>
        b := Plus(b, Load32(mem, p + 4));
        a := Plus(a, Load32(mem, p));
      case 7 =>
        b := Plus(b, Load32(mem, p + 4) % 0x1000000);
        a := Plus(a, Load32(mem, p));
      case 6 =>
        b := Plus(b, Load32(mem, p + 4) % 0x10000);
        a := Plus(a, Load32(mem, p));
      case 5 =>
        b := Plus(b, Load32(mem, p + 4) % 0x100);
        a := Plus(a, Load32(mem, p));
      case 4 =>
        a := Plus(a, Load32(mem, p));
      case 3 =>
        a := Plus(a, Load32(mem, p) % 0x1000000);
      case 2 =>
        a := Plus(a, Load32(mem, p) % 0x10000);
      case 1 =>
        a := Plus(a, Load32(mem, p) % 0x100);
      case _ =>
        return c;
    }
    h := Final(Trio(a, b, c));
  }

  method WordPath(mem: seq<Byte>, p: nat, length: nat, s: Trio) returns (h: Word)
    requires Memory(mem) && p % 4 == 0 && p + length <= |mem|
    ensures h == Digest(s, Key(mem, p, length))
  {
    hide Mix, Load32, Key, Plus, Digest;
    var k: nat, n: nat, t := p, length, s;
    while n > 12
      invariant k % 4 == 0 && k + n <= |mem|
      invariant Digest(t, Key(mem, k, n)) == Digest(s, Key(mem, p, length))
    {
      DigestBlock(mem, k, n, t);
      t := Mix(Trio(Plus(t.a, Load32(mem, k)), Plus(t.b, Load32(mem, k + 4)), Plus(t.c, Load32(mem, k + 8))));
      n := n - 12;
      k := k + 12;
    }
    h := WordTail(mem, k, n, t);
  }

  // ---------- 16-bit reads ----------

  lemma PlusTwice(x: Word, y: nat, z: nat)
    ensures Plus(Plus(x, y), z) == Plus(x, y + z)
  {
  }

  lemma LoadHalves(mem: seq<Byte>, p: nat)
    requires p + 4 <= |mem|
    ensures Load16(mem, p) + 0x10000 * Load16(mem, p + 2) == Load32(mem, p)
  {
  }

  /** The zero-extended word at offset i of the key, by how many of its bytes the key holds. */
  lemma WordAtBytes(mem: seq<Byte>, p: nat, length: nat, i: nat)
    requires p + length <= |mem|
    ensures length >= i + 4 ==> WordAt(Key(mem, p, length), i) == Load32(mem, p + i)
    ensures length == i + 3 ==> WordAt(Key(mem, p, length), i) == 0x10000 * Load8(mem, p + i + 2) + Load16(mem, p + i)
    ensures length == i + 2 ==> WordAt(Key(mem, p, length), i) == Load16(mem, p + i)
    ensures length == i + 1 ==> WordAt(Key(mem, p, length), i) == Load8(mem, p + i)
    ensures length <= i ==> WordAt(Key(mem, p, length), i) == 0
  {
  }

  /** x += k[0] + (k[1] << 16). */
  method AddHalves(mem: seq<Byte>, p: nat, x: Word) returns (y: Word)
    requires p + 4 <= |mem|
    ensures y == Plus(x, Load32(mem, p))
  {
    LoadHalves(mem, p);
    y := Plus(x, Load16(mem, p) + 0x10000 * Load16(mem, p + 2));
  }

  /** x += k8[2] << 16, falling through to x += k[0]. */
  method AddThree(mem: seq<Byte>, p: nat, x: Word) returns (y: Word)
    requires p + 3 <= |mem|
    ensures y == Plus(x, 0x10000 * Load8(mem, p + 2) + Load16(mem, p))
  {
    PlusTwice(x, 0x10000 * Load8(mem, p + 2), Load16(mem, p));
    y := Plus(x, 0x10000 * Load8(mem, p + 2));
    y := Plus(y, Load16(mem, p));
  }

  /** The last block of the 16-bit path; k8 reads are single bytes. */
  method HalfTail(mem: seq<Byte>, p: nat, length: nat, s: Trio) returns (h: Word)
    requires p + length <= |mem| && length <= 12
    ensures h == Digest(s, Key(mem, p, length))
  {
    hide Final, Load32, Load16, Load8, WordAt;
    var a, b, c := s.a, s.b, s.c;
    WordAtBytes(mem, p, length, 0);
    WordAtBytes(mem, p, length, 4);
    WordAtBytes(mem, p, length, 8);
    match length {
      case 12 =>
        c := AddHalves(mem, p + 8, c);
        b := AddHalves(mem, p + 4, b);
        a := AddHalves(mem, p, a);
      case 11 =>
        c := AddThree(mem, p + 8, c);
        b := AddHalves(mem, p + 4, b);
        a := AddHalves(mem, p, a);
      case 10 =>
        c := Plus(c, Load16(mem, p + 8));
        b := AddHalves(mem, p + 4, b);
        a := AddHalves(mem, p, a);
      case 9 =>
        c := Plus(c, Load8(mem, p + 8));
        b := AddHalves(mem, p + 4, b);
        a := AddHalves(mem, p, a);
      case 8 =>
        b := AddHalves(mem, p + 4, b);
        a := AddHalves(mem, p, a);
      case 7 =>
        b := AddThree(mem, p + 4, b);
        a := AddHalves(mem, p, a);
      case 6 =>
        b := Plus(b, Load16(mem, p + 4));
        a := AddHalves(mem, p, a);
      case 5 =>
        b := Plus(b, Load8(mem, p + 4));
        a := AddHalves(mem, p, a);
      case 4 =>
        a := AddHalves(mem, p, a);
      case 3 =>
        a := AddThree(mem, p, a);
      case 2 =>
        a := Plus(a, Load16(mem, p));
      case 1 =>
        a := Plus(a, Load8(mem, p));
      case _ =>
        return c;
    }
    h := Final(Trio(a, b, c));
  }

  method HalfPath(mem: seq<Byte>, p: nat, length: nat, s: Trio) returns (h: Word)
    requires p + length <= |mem|
    ensures h == Digest(s, Key(mem, p, length))
  {
    hide Mix, Load32, Load16, Key, Plus, Digest;
    var k: nat, n: nat, t := p, length, s;
    while n > 12
      invariant k + n <= |mem|
      invariant Digest(t, Key(mem, k, n)) == Digest(s, Key(mem, p, length))
    {
      DigestBlock(mem, k, n, t);
      var a := AddHalves(mem, k, t.a);
      var b := AddHalves(mem, k + 4, t.b);
      var c := AddHalves(mem, k + 8, t.c);
      t := Mix(Trio(a, b, c));
      n := n - 12;
      k := k + 12;
    }
    h := HalfTail(mem, k, n, t);
  }

  // ---------- byte reads ----------

  /** Four bytes added from the lowest up, as the byte-wise block loop adds them. */
  method AddUp(mem: seq<Byte>, p: nat, x: Word) returns (y: Word)
    requires p + 4 <= |mem|
    ensures y == Plus(x, Load32(mem, p))
  {
    hide Plus;
    var b0, b1, b2, b3 := Load8(mem, p), Load8(mem, p + 1), Load8(mem, p + 2), Load8(mem, p + 3);
    PlusTwice(x, b0, 0x100 * b1);
    PlusTwice(x, b0 + 0x100 * b1, 0x10000 * b2);
    PlusTwice(x, b0 + 0x100 * b1 + 0x10000 * b2, 0x1000000 * b3);
    y := Plus(x, b0);
    y := Plus(y, 0x100 * b1);
    y := Plus(y, 0x10000 * b2);
    y := Plus(y, 0x1000000 * b3);
  }

  /** At most four bytes added from the highest down, as the cases fall through. */
  method AddDown(mem: seq<Byte>, p: nat, n: nat, x: Word) returns (y: Word)
    requires p + n <= |mem| && n <= 4
    ensures y == Plus(x, WordAt(Key(mem, p, n), 0))
  {
    y := x;
    ghost var sum: nat := 0;
    if n >= 4 {
      y := Plus(y, 0x1000000 * Load8(mem, p + 3));
      sum := 0x1000000 * Load8(mem, p + 3);
    }
    if n >= 3 {
      PlusTwice(x, sum, 0x10000 * Load8(mem, p + 2));
      y := Plus(y, 0x10000 * Load8(mem, p + 2));
      sum := sum + 0x10000 * Load8(mem, p + 2);
    }
    if n >= 2 {
      PlusTwice(x, sum, 0x100 * Load8(mem, p + 1));
      y := Plus(y, 0x100 * Load8(mem, p + 1));
      sum := sum + 0x100 * Load8(mem, p + 1);
    }
    if n >= 1 {
      PlusTwice(x, sum, Load8(mem, p));
      y := Plus(y, Load8(mem, p));
      sum := sum + Load8(mem, p);
    }
    assert y == Plus(x, sum);
  }

  lemma WordAtOffset(mem: seq<Byte>, p: nat, length: nat, i: nat)
    requires p + length <= |mem| && i <= length
    ensures WordAt(Key(mem, p, length), i) == WordAt(Key(mem, p + i, if length - i < 4 then length - i else 4), 0)
  {
    hide Le;
  }

  /** The last block of the byte-wise path: twelve cases, each falling through to the next. */
  method ByteTail(mem: seq<Byte>, p: nat, length: nat, s: Trio) returns (h: Word)
    requires p + length <= |mem| && length <= 12
    ensures h == Digest(s, Key(mem, p, length))
  {
    hide Final, WordAt;
    if length == 0 {
      return s.c;
    }
    var a, b, c := s.a, s.b, s.c;
    if length > 8 {
      WordAtOffset(mem, p, length, 8);
      c := AddDown(mem, p + 8, length - 8, c);
    } else {
      PastEnd(mem, p, length, 8);
    }
    if length > 4 {
      WordAtOffset(mem, p, length, 4);
      b := AddDown(mem, p + 4, if length - 4 < 4 then length - 4 else 4, b);
    } else {
      PastEnd(mem, p, length, 4);
    }
    WordAtOffset(mem, p, length, 0);
    a := AddDown(mem, p, if length < 4 then length else 4, a);
    h := Final(Trio(a, b, c));
  }

  method BytePath(mem: seq<Byte>, p: nat, length: nat, s: Trio) returns (h: Word)
    requires p + length <= |mem|
    ensures h == Digest(s, Key(mem, p, length))
  {
    hide Mix, Load32, Key, Plus, Digest;
    var k: nat, n: nat, t := p, length, s;
    while n > 12
      invariant k + n <= |mem|
      invariant Digest(t, Key(mem, k, n)) == Digest(s, Key(mem, p, length))
    {
      DigestBlock(mem, k, n, t);
      var a := AddUp(mem, k, t.a);
      var b := AddUp(mem, k + 4, t.b);
      var c := AddUp(mem, k + 8, t.c);
      t := Mix(Trio(a, b, c));
      n := n - 12;
      k := k + 12;
    }
    h := ByteTail(mem, k, n, t);
  }

  // ---------- the whole hash ----------

  /** hashkit_jenkins on a key at address p: the path depends on p, the hash only on the bytes of the key. */
  method HashkitJenkins(mem: seq<Byte>, p: nat, length: nat) returns (h: Word)
    requires Memory(mem) && p + length <= |mem|
    ensures h == Hash(Key(mem, p, length))
  {
    var s := Start(length);
    if p % 4 == 0 {
      h := WordPath(mem, p, length, s);
    } else if p % 2 == 0 {
      h := HalfPath(mem, p, length, s);
    } else {
      h := BytePath(mem, p, length, s);
    }
  }

  /** The three paths on three copies of one key, wherever they lie and whatever surrounds them. */
  method PathsAgree(mem: seq<Byte>, p: nat, q: nat, r: nat, length: nat, s: Trio)
    returns (word: Word, half: Word, byte: Word)
    requires Memory(mem) && p % 4 == 0 && p + length <= |mem| && q + length <= |mem| && r + length <= |mem|
    requires Key(mem, p, length) == Key(mem, q, length) == Key(mem, r, length)
    ensures word == half == byte
  {
    word := WordPath(mem, p, length, s);
    half := HalfPath(mem, q, length, s);
    byte := BytePath(mem, r, length, s);
  }
}
