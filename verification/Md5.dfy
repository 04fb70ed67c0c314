/**
 * The buffered MD5 of md5.cc against sections 3.1, 3.2 and 3.4 of RFC 1321. The block transform is a parameter;
 * 32-bit words are numbers below 2^32 and every wrap-around is written out.
 */
module Md5 {
  import opened Machine
  import opened Sequences

  const TWO29: nat := 0x2000_0000
  const TWO64: nat := 0x1_0000_0000_0000_0000

  type Block = b: seq<Byte> | |b| == 64 witness seq(64, _ => 0)

  datatype State = State(a: Word, b: Word, c: Word, d: Word)

  /** The effect of MD5Transform on the four state words. */
  type Transform = (State, Block) -> State

  const INIT := State(0x67452301, 0xefcdab89, 0x98badcfe, 0x10325476)

  // ---------- words as bytes ----------

  function EncodeWord(w: Word): (s: seq<Byte>)
    ensures |s| == 4
  {
    [w % 256, w / 0x100 % 256, w / 0x10000 % 256, w / 0x1000000 % 256]
  }

  function Horner(low: nat, high: nat): nat {
    low + 0x100 * high
  }

  function DecodeWord(s: seq<Byte>): Word
    requires |s| == 4
  {
    var b0: nat, b1: nat, b2: nat, b3: nat := s[0], s[1], s[2], s[3];
    b0 + 0x100 * b1 + 0x10000 * b2 + 0x1000000 * b3
  }

  lemma DecodeEncodeWord(w: Word)
    ensures DecodeWord(EncodeWord(w)) == w
  {
    Quotients(w);
    var q := w / 256 / 256;
    assert w == w % 256 + 0x100 * (w / 256 % 256) + 0x10000 * (q % 256) + 0x1000000 * (q / 256);
    assert q / 256 < 256;
  }

  lemma HornerDigits(low: Byte, high: nat)
    ensures Horner(low, high) % 256 == low && Horner(low, high) / 256 == high
  {
  }

  lemma Quotients(w: nat)
    ensures w / 0x10000 == w / 256 / 256 && w / 0x1000000 == w / 256 / 256 / 256
  {
  }

  lemma EncodeDecodeWord(s: seq<Byte>)
    requires |s| == 4
    ensures EncodeWord(DecodeWord(s)) == s
  {
    var w := DecodeWord(s);
    var h2 := Horner(s[2], s[3]);
    var h1 := Horner(s[1], h2);
    assert w == Horner(s[0], h1);
    hide DecodeWord, Horner;
    HornerDigits(s[0], h1);
    HornerDigits(s[1], h2);
    HornerDigits(s[2], s[3]);
    Quotients(w);
  }

  /** The bytes of a list of words, low-order byte first. */
  function EncodeAll(ws: seq<Word>): (s: seq<Byte>)
    ensures |s| == 4 * |ws|
  {
    if ws == [] then [] else EncodeAll(ws[..|ws| - 1]) + EncodeWord(ws[|ws| - 1])
  }

  function DecodeAll(s: seq<Byte>): (ws: seq<Word>)
    requires |s| % 4 == 0
    ensures |ws| == |s| / 4
  {
    if s == [] then [] else DecodeAll(s[..|s| - 4]) + [DecodeWord(s[|s| - 4..])]
  }

  lemma {:induction false} DecodeEncode(ws: seq<Word>)
    ensures DecodeAll(EncodeAll(ws)) == ws
  {
    hide EncodeWord, DecodeWord;
    if ws != [] {
      var init, last := EncodeAll(ws[..|ws| - 1]), EncodeWord(ws[|ws| - 1]);
      assert (init + last)[..|init + last| - 4] == init && (init + last)[|init + last| - 4..] == last;
      DecodeEncode(ws[..|ws| - 1]);
      DecodeEncodeWord(ws[|ws| - 1]);
    }
  }

  lemma {:induction false} EncodeDecode(s: seq<Byte>)
    requires |s| % 4 == 0
    ensures EncodeAll(DecodeAll(s)) == s
  {
    hide EncodeWord, DecodeWord;
    if s != [] {
      var init, last := s[..|s| - 4], s[|s| - 4..];
      EncodeDecode(init);
      EncodeDecodeWord(last);
      var ws := DecodeAll(s);
      assert ws[..|ws| - 1] == DecodeAll(init) && ws[|ws| - 1] == DecodeWord(last);
      assert init + last == s;
    }
  }

  /** Encode: the first length bytes of output receive the words of input. */
  method Encode(output: array<Byte>, input: seq<Word>, length: nat)
    requires length % 4 == 0 && length <= output.Length && length / 4 <= |input|
    modifies output
    ensures output[..] == Splice(old(output[..]), 0, EncodeAll(input[..length / 4]))
  {
    hide EncodeWord;
    var i: nat, j: nat := 0, 0;
    while j < length
      invariant j == 4 * i <= length
      invariant output[..j] == EncodeAll(input[..i])
      invariant forall k :: j <= k < output.Length ==> output[k] == old(output[k])
    {
      assert input[..i + 1][..i] == input[..i];
      ghost var done := output[..j];
      PutWord(output, j, input[i]);
      assert output[..j] == done;
      i, j := i + 1, j + 4;
    }
    assert old(output[..])[length..] == output[length..];
  }

  method PutWord(output: array<Byte>, j: nat, w: Word)
    requires j + 4 <= output.Length
    modifies output
    ensures output[j..j + 4] == EncodeWord(w)
    ensures forall k :: 0 <= k < output.Length && !(j <= k < j + 4) ==> output[k] == old(output[k])
  {
    output[j] := w % 256;
    output[j + 1] := w / 0x100 % 256;
    output[j + 2] := w / 0x10000 % 256;
    output[j + 3] := w / 0x1000000 % 256;
  }

  /** Decode: the words of the first length bytes of input. */
  method Decode(output: array<Word>, input: seq<Byte>, length: nat)
    requires length % 4 == 0 && length <= |input| && length / 4 <= output.Length
    modifies output
    ensures output[..] == Splice(old(output[..]), 0, DecodeAll(input[..length]))
  {
    hide DecodeWord;
    var i: nat, j: nat := 0, 0;
    while j < length
      invariant j == 4 * i <= length
      invariant output[..i] == DecodeAll(input[..j])
      invariant forall k :: i <= k < output.Length ==> output[k] == old(output[k])
    {
      assert input[..j + 4][..j] == input[..j];
      output[i] := DecodeWord(input[j..j + 4]);
      i, j := i + 1, j + 4;
    }
    assert old(output[..])[length / 4..] == output[length / 4..];
  }

  // ---------- the padded message ----------

  predicate Blocks(n: nat) {
    n % 64 == 0
  }

  /** Applies the transform to each 64-byte block in turn. */
  function Process(f: Transform, s: seq<Byte>): State
    requires Blocks(|s|)
  {
    if s == [] then INIT else f(Process(f, s[..|s| - 64]), s[|s| - 64..])
  }

  /** Section 3.2: the bit count as two words, low-order word first. */
  function LengthBytes(n: nat): (s: seq<Byte>)
    ensures |s| == 8
  {
    EncodeAll([8 * n % TWO64 % TWO32, 8 * n % TWO64 / TWO32])
  }

  /** How many zero bytes follow the marker. */
  function Zeros(n: nat): nat {
    (119 - n % 64) % 64
  }

  function Padding(n: nat): (s: seq<Byte>)
    ensures |s| == n
  {
    seq(n, i => if i == 0 then 0x80 else 0)
  }

  /** Sections 3.1 and 3.2. */
  function Pad(m: seq<Byte>): (p: seq<Byte>)
    ensures Blocks(|p|)
  {
    m + Padding(1 + Zeros(|m|)) + LengthBytes(|m|)
  }

  /** Bit number n of a byte, counted from the high-order end as section 2 of RFC 1321 orders bits. */
  predicate Bit(b: Byte, n: nat)
    requires n < 8
  {
    b / [128, 64, 32, 16, 8, 4, 2, 1][n] % 2 == 1
  }

  /** Section 3.1: after the message a single one bit, high-order bit first, then only zero bits up to the length. */
  lemma PadBits(m: seq<Byte>, i: nat)
    requires |m| <= i < |Pad(m)| - 8
    ensures Pad(m)[..|m|] == m
    ensures forall bit :: 0 <= bit < 8 ==> (Bit(Pad(m)[i], bit) <==> i == |m| && bit == 0)
  {
    hide LengthBytes, Zeros;
    assert Pad(m)[i] == Padding(1 + Zeros(|m|))[i - |m|];
  }

  lemma EncodeTwo(low: Word, high: Word)
    ensures EncodeAll([low, high]) == EncodeWord(low) + EncodeWord(high)
  {
    hide EncodeWord;
    assert [low, high][..1] == [low];
    assert EncodeAll([low]) == EncodeAll([]) + EncodeWord(low);
  }

  /** Section 3.2: the last eight bytes are the bit count modulo 2^64, low-order byte first. */
  lemma PadLengthField(m: seq<Byte>)
    ensures var f := Pad(m)[|Pad(m)| - 8..];
      && |f| == 8
      && 8 * |m| % TWO64 == Horner(f[0], Horner(f[1], Horner(f[2], Horner(f[3],
                              Horner(f[4], Horner(f[5], Horner(f[6], f[7])))))))
  {
    hide EncodeAll, EncodeWord, Zeros;
    var count := 8 * |m| % TWO64;
    var low, high := count % TWO32, count / TWO32;
    assert Pad(m)[|Pad(m)| - 8..] == LengthBytes(|m|);
    EncodeTwo(low, high);
    DecodeEncodeWord(low);
    DecodeEncodeWord(high);
  }

  /** Section 3.3: the registers start as the bytes 01 23 45 67, 89 ab cd ef, fe dc ba 98, 76 54 32 10. */
  lemma InitBytes()
    ensures EncodeAll(StateWords(INIT)) ==
            [0x01, 0x23, 0x45, 0x67, 0x89, 0xab, 0xcd, 0xef, 0xfe, 0xdc, 0xba, 0x98, 0x76, 0x54, 0x32, 0x10]
  {
    var ws := StateWords(INIT);
    assert EncodeWord(ws[0]) == [0x01, 0x23, 0x45, 0x67] && EncodeWord(ws[1]) == [0x89, 0xab, 0xcd, 0xef];
    assert EncodeWord(ws[2]) == [0xfe, 0xdc, 0xba, 0x98] && EncodeWord(ws[3]) == [0x76, 0x54, 0x32, 0x10];
    hide EncodeWord;
    EncodeTwo(ws[0], ws[1]);
    assert ws[..2] == [ws[0], ws[1]] && ws[..3][..2] == ws[..2] && ws[..4] == ws;
    assert EncodeAll(ws[..3]) == EncodeAll(ws[..2]) + EncodeWord(ws[2]);
    assert EncodeAll(ws) == EncodeAll(ws[..3]) + EncodeWord(ws[3]);
  }

  /** The fewest zero bytes that bring the length to 56 modulo 64. */
  lemma ZerosLeast(n: nat, z: nat)
    requires (n + 1 + z) % 64 == 56
    ensures (n + 1 + Zeros(n)) % 64 == 56 && Zeros(n) <= z
  {
    if n % 64 < 56 {
      assert Zeros(n) == 55 - n % 64;
    } else {
      assert Zeros(n) == 119 - n % 64;
    }
  }

  lemma {:induction false} EncodeAllInjective(x: seq<Word>, y: seq<Word>)
    requires EncodeAll(x) == EncodeAll(y)
    ensures x == y
  {
    hide EncodeAll, DecodeAll;
    DecodeEncode(x);
    DecodeEncode(y);
  }

  /** Two messages of fewer than 2^61 bytes with one padded form are the same message. */
  lemma PadInjective(x: seq<Byte>, y: seq<Byte>)
    requires 8 * |x| < TWO64 && 8 * |y| < TWO64 && Pad(x) == Pad(y)
    ensures x == y
  {
    hide EncodeAll;
    var p := Pad(x);
    assert LengthBytes(|x|) == p[|p| - 8..] == LengthBytes(|y|);
    EncodeAllInjective([8 * |x| % TWO64 % TWO32, 8 * |x| % TWO64 / TWO32],
                       [8 * |y| % TWO64 % TWO32, 8 * |y| % TWO64 / TWO32]);
    WordsOfCount(8 * |x|, 8 * |y|);
    assert x == p[..|x|] && y == p[..|x|];
  }

  lemma WordsOfCount(x: nat, y: nat)
    requires x < TWO64 && y < TWO64
    requires [x % TWO64 % TWO32, x % TWO64 / TWO32] == [y % TWO64 % TWO32, y % TWO64 / TWO32]
    ensures x == y
  {
    var xs, ys := [x % TWO64 % TWO32, x % TWO64 / TWO32], [y % TWO64 % TWO32, y % TWO64 / TWO32];
    assert xs[0] == ys[0] && xs[1] == ys[1];
  }

  // ---------- the bit count ----------

  lemma Remainder(x: nat, r: nat, q: int)
    requires r < TWO64 && x == r + TWO64 * q
    ensures x % TWO64 == r
  {
  }

  /** The two words hold the bit count of n bytes modulo 2^64. */
  ghost predicate Counts(c0: Word, c1: Word, n: nat) {
    c0 + TWO32 * c1 == 8 * n % TWO64
  }

  lemma Carry(c0: Word, inc: Word)
    ensures var s0 := (c0 + inc) % TWO32; s0 + (if s0 < inc then TWO32 else 0) == c0 + inc
  {
  }

  lemma HighBits(length: nat)
    ensures 8 * length == 8 * length % TWO32 + TWO32 * (length / TWO29)
  {
  }

  lemma HighWord(x: nat, y: nat)
    ensures (x % TWO32 + y) % TWO32 + TWO32 * ((x % TWO32 + y) / TWO32 + x / TWO32) == x + y
  {
  }

  /** The carry out of the low word is noticed by comparing the sum with what was added. */
  lemma CountAdds(c0: Word, c1: Word, n: nat, length: nat)
    requires Counts(c0, c1, n) && length < TWO32
    ensures var inc := 8 * length % TWO32;
            var s0 := (c0 + inc) % TWO32;
            var s1 := ((if s0 < inc then (c1 + 1) % TWO32 else c1) + length / TWO29) % TWO32;
            Counts(s0, s1, n + length)
  {
    var inc := 8 * length % TWO32;
    var s0 := (c0 + inc) % TWO32;
    var carry := if s0 < inc then 1 else 0;
    Carry(c0, inc);
    HighBits(length);
    var high := (c1 + carry) % TWO32 + length / TWO29;
    var s1 := high % TWO32;
    var k := high / TWO32 + (c1 + carry) / TWO32;
    HighWord(c1 + carry, length / TWO29);
    Remainder(8 * (n + length), s0 + TWO32 * s1, 8 * n / TWO64 + k);
  }

  lemma SameIndex(x: nat, y: nat, q: nat)
    requires x == y + 64 * q
    ensures x % 64 == y % 64
  {
  }

  lemma CountIndex(c0: Word, c1: Word, n: nat)
    requires Counts(c0, c1, n)
    ensures c0 / 8 % 64 == n % 64
  {
    var q := c1 + TWO32 * (8 * n / TWO64);
    var e := n - TWO29 * q;
    assert c0 == 8 * e by {
      assert 8 * n == c0 + TWO32 * q;
    }
    SameIndex(n, e, 0x800000 * q);
  }

  lemma CountWords(c0: Word, c1: Word, n: nat)
    requires Counts(c0, c1, n)
    ensures EncodeAll([c0, c1]) == LengthBytes(n)
  {
    hide EncodeAll;
    assert 8 * n % TWO64 % TWO32 == c0 && 8 * n % TWO64 / TWO32 == c1;
  }

  // ---------- the context ----------

  /** How much of a message fills whole blocks. */
  function WholeLength(n: nat): (w: nat)
    ensures Blocks(w) && w <= n < w + 64
  {
    n - n % 64
  }

  lemma ProcessStep(f: Transform, s: seq<Byte>, n: nat)
    requires Blocks(n) && n + 64 <= |s|
    ensures Blocks(n + 64)
    ensures Process(f, s[..n + 64]) == f(Process(f, s[..n]), s[n..n + 64])
  {
    var t := s[..n + 64];
    assert t[..|t| - 64] == s[..n] && t[|t| - 64..] == s[n..n + 64];
  }

  /** The block loop's test, on an index that may wrap around. */
  predicate More(i: nat, length: nat) {
    (i + 63) % TWO32 < length
  }

  /** Where what is left of the input no longer fills a block, in blocks counted from partLen. */
  function LastStart(partLen: nat, length: nat): nat
    requires partLen <= length
  {
    length - (length - partLen) % 64
  }

  /** The index of the block loop stays below 2^32. */
  predicate Sound(partLen: nat, length: nat) {
    length < partLen || LastStart(partLen, length) + 63 < TWO32
  }

  /** The condition is exact: it holds if and only if the loop's test says no at the last start. */
  lemma SoundIff(partLen: nat, length: nat)
    requires 0 < partLen <= length < TWO32
    ensures Sound(partLen, length) <==> !More(LastStart(partLen, length), length)
  {
  }

  /** A block boundary and any input below 2^32 bytes, or any input that is not within 64 bytes of that, are sound. */
  lemma SoundInputs(partLen: nat, length: nat)
    requires 0 < partLen <= 64 && length < TWO32 && (partLen == 64 || length <= TWO32 - 64)
    ensures Sound(partLen, length)
  {
  }

  /** When sound, the loop goes on exactly while a whole block is left. */
  lemma NoWrap(i: nat, partLen: nat, length: nat, n: nat)
    requires partLen <= i <= length < TWO32 && Blocks(n + i) && Blocks(n + partLen) && Sound(partLen, length)
    ensures More(i, length) <==> i + 64 <= length
  {
    assert (i - partLen) % 64 == 0;
    NotPastLast(i - partLen, length - partLen);
  }

  lemma NotPastLast(x: nat, y: nat)
    requires x <= y && x % 64 == 0
    ensures x <= y - y % 64
  {
  }

  lemma SliceBehind(m: seq<Byte>, input: seq<Byte>, i: nat)
    requires i + 64 <= |input|
    ensures (m + input)[|m| + i..|m| + i + 64] == input[i..i + 64]
  {
  }

  lemma BufferFull(buffer: seq<Byte>, m: seq<Byte>, input: seq<Byte>, idx: nat)
    requires idx == |m| % 64 && |input| >= 64 - idx && |buffer| == 64
    requires buffer == m[WholeLength(|m|)..] + input[..64 - idx]
    ensures buffer == (m + input)[WholeLength(|m|)..WholeLength(|m|) + 64]
    ensures (m + input)[..WholeLength(|m|)] == m[..WholeLength(|m|)]
  {
  }

  /** The part of message m that is not yet a whole block sits at the front of the buffer. */
  ghost predicate Held(buffer: seq<Byte>, m: seq<Byte>) {
    |buffer| == 64 && buffer[..|m| % 64] == m[WholeLength(|m|)..]
  }

  /** A short input joins what the buffer holds. */
  lemma HeldLonger(buffer: seq<Byte>, m: seq<Byte>, input: seq<Byte>)
    requires Held(buffer, m) && |m| % 64 + |input| < 64
    ensures Held(Splice(buffer, |m| % 64, input), m + input)
    ensures WholeLength(|m + input|) == WholeLength(|m|)
    ensures (m + input)[..WholeLength(|m|)] == m[..WholeLength(|m|)]
  {
    assert |m + input| == WholeLength(|m|) + (|m| % 64 + |input|);
    assert |m + input| % 64 == |m| % 64 + |input|;
  }

  /** What follows the last whole block starts the buffer afresh. */
  lemma HeldAfresh(buffer: seq<Byte>, m: seq<Byte>, input: seq<Byte>, i: nat)
    requires |buffer| == 64 && i <= |input| < i + 64 && Blocks(|m| + i)
    ensures Held(Splice(buffer, 0, input[i..]), m + input)
    ensures WholeLength(|m + input|) == |m| + i
  {
    assert |m + input| % 64 == |input| - i;
  }

  class Context {
    const transform: Transform
    const buffer: array<Byte>
    var state: State
    var count0: Word
    var count1: Word

    /** The context stands for message m: whole blocks are in the state, the rest is in the buffer. */
    ghost predicate Absorbed(m: seq<Byte>)
      reads this, buffer
    {
      && buffer.Length == 64
      && Counts(count0, count1, |m|)
      && state == Process(transform, m[..WholeLength(|m|)])
      && Held(buffer[..], m)
    }

    /** MD5Init, on a context whose buffer holds anything. */
    constructor (transform: Transform, buffer: array<Byte>)
      requires buffer.Length == 64
      ensures this.transform == transform && this.buffer == buffer && Absorbed([])
    {
      this.transform := transform;
      this.buffer := buffer;
      count0, count1 := 0, 0;
      state := INIT;
    }

    /** The bit count of a message grown by length bytes. */
    method AddCount(length: nat, ghost n: nat)
      requires length < TWO32 && Counts(count0, count1, n)
      modifies this`count0, this`count1
      ensures Counts(count0, count1, n + length)
    {
      CountAdds(count0, count1, n, length);
      var inc := 8 * length % TWO32;
      count0 := (count0 + inc) % TWO32;
      if count0 < inc {
        count1 := (count1 + 1) % TWO32;
      }
      count1 := (count1 + length / TWO29) % TWO32;
    }

    /** The blocks of input from partLen on; i is where the buffered rest starts. */
    method TransformBlocks(input: seq<Byte>, partLen: nat, ghost m: seq<Byte>) returns (i: nat)
      requires partLen <= |input| < TWO32 && Blocks(|m| + partLen)
      requires Sound(partLen, |input|)
      requires state == Process(transform, (m + input)[..|m| + partLen])
      modifies this`state
      ensures partLen <= i <= |input| < i + 64 && Blocks(|m| + i)
      ensures state == Process(transform, (m + input)[..|m| + i])
    {
      hide Process, Blocks, More, Sound;
      ghost var all := m + input;
      i := partLen;
      NoWrap(i, partLen, |input|, |m|);
      while More(i, |input|)
        invariant partLen <= i <= |input| && Blocks(|m| + i)
        invariant More(i, |input|) <==> i + 64 <= |input|
        invariant state == Process(transform, all[..|m| + i])
        decreases |input| - i
      {
        ProcessStep(transform, all, |m| + i);
        SliceBehind(m, input, i);
        state := transform(state, input[i..i + 64]);
        i := i + 64;
        NoWrap(i, partLen, |input|, |m|);
      }
    }

    /** Completes the buffered block with the first bytes of input and transforms it. */
    method TransformBuffer(input: seq<Byte>, idx: nat, ghost m: seq<Byte>)
      requires state == Process(transform, m[..WholeLength(|m|)]) && buffer.Length == 64 && Held(buffer[..], m)
      requires idx == |m| % 64 && |input| >= 64 - idx
      modifies this`state, buffer
      ensures Blocks(|m| + (64 - idx))
      ensures state == Process(transform, (m + input)[..|m| + (64 - idx)])
    {
      hide Process;
      ghost var all := m + input;
      CopyInto(buffer, idx, input[..64 - idx]);
      BufferFull(buffer[..], m, input, idx);
      ProcessStep(transform, all, WholeLength(|m|));
      state := transform(state, buffer[..]);
    }

    /** MD5Update. */
    method Update(input: seq<Byte>, ghost m: seq<Byte>)
      requires Absorbed(m) && |input| < TWO32
      requires Sound(64 - |m| % 64, |input|)
      modifies this, buffer
      ensures Absorbed(m + input)
    {
      hide Process, Held, Splice, Counts, Blocks, WholeLength, Sound;
      CountIndex(count0, count1, |m|);
      var idx := count0 / 8 % 64;
      AddCount(|input|, |m|);
      var partLen := 64 - idx;
      var i: nat := 0;
      if |input| >= partLen {
        TransformBuffer(input, idx, m);
        i := TransformBlocks(input, partLen, m);
        idx := 0;
        HeldAfresh(buffer[..], m, input, i);
      } else {
        HeldLonger(buffer[..], m, input);
      }
      CopyInto(buffer, idx, input[i..]);
    }

    /** MD5Final: the digest of the padded message, and a context wiped clean. */
    method Final(digest: array<Byte>, ghost m: seq<Byte>)
      requires Absorbed(m) && digest.Length >= 16 && digest != buffer
      modifies this, buffer, digest
      ensures digest[..] == Splice(old(digest[..]), 0, EncodeAll(StateWords(Process(transform, Pad(m)))))
      ensures state == State(0, 0, 0, 0) && count0 == count1 == 0 && buffer[..] == seq(64, _ => 0)
    {
      hide Process, Held, Counts, Blocks, WholeLength, EncodeAll, Zeros, PadLen, Padding, LengthBytes, Sound;
      var bits := new Byte[8];
      Encode(bits, [count0, count1], 8);
      CountWords(count0, count1, |m|);
      assert [count0, count1][..2] == [count0, count1];
      assert bits[..] == LengthBytes(|m|);
      CountIndex(count0, count1, |m|);
      var idx := count0 / 8 % 64;
      var padLen := PadLen(idx);
      PadLength(|m|);
      SoundInputs(64 - |m| % 64, padLen);
      SoundInputs(64 - |m + Padding(padLen)| % 64, 8);
      Update(PADDING[..padLen], m);
      Update(bits[..], m + Padding(padLen));
      assert m + Padding(padLen) + LengthBytes(|m|) == Pad(m);
      AbsorbedBlocks(Pad(m));
      Encode(digest, StateWords(state), 16);
      assert StateWords(state)[..4] == StateWords(state);
      Wipe();
    }

    /** Once the message is whole blocks nothing is left in the buffer. */
    lemma AbsorbedBlocks(m: seq<Byte>)
      requires Absorbed(m) && Blocks(|m|)
      ensures state == Process(transform, m) && |m| % 64 == 0
    {
      hide Process;
      assert m[..WholeLength(|m|)] == m;
    }

    method Wipe()
      requires buffer.Length == 64
      modifies this, buffer
      ensures state == State(0, 0, 0, 0) && count0 == count1 == 0 && buffer[..] == seq(64, _ => 0)
    {
      state, count0, count1 := State(0, 0, 0, 0), 0, 0;
      CopyInto(buffer, 0, seq(64, _ => 0));
    }
  }

  function StateWords(s: State): (ws: seq<Word>)
    ensures |ws| == 4
  {
    [s.a, s.b, s.c, s.d]
  }

  const PADDING: seq<Byte> := [0x80] + seq(63, _ => 0)

  /** Pads out to 56 modulo 64. */
  function PadLen(idx: nat): nat
    requires idx < 64
  {
    if idx < 56 then 56 - idx else 120 - idx
  }

  /** The pad length the code computes is the marker and the least number of zeros. */
  lemma PadLength(n: nat)
    ensures PadLen(n % 64) == 1 + Zeros(n) <= 64
    ensures PADDING[..1 + Zeros(n)] == Padding(1 + Zeros(n))
  {
  }

  /** md5_signature: the transform meets exactly the blocks of the padded key. */
  method Signature(transform: Transform, key: seq<Byte>, result: array<Byte>)
    requires |key| < TWO32 && result.Length >= 16
    modifies result
    ensures result[..] == Splice(old(result[..]), 0, EncodeAll(StateWords(Process(transform, Pad(key)))))
  {
    hide Process, Pad, EncodeAll, Splice, Held, Counts, Blocks, WholeLength, Sound;
    SoundInputs(64, |key|);
    var buffer := new Byte[64](_ => 0);
    var context := new Context(transform, buffer);
    context.Update(key, []);
    assert [] + key == key;
    context.Final(result, key);
  }

  /** hashkit_md5: the first word of the state, read back from the digest's bytes. */
  method HashkitMd5(transform: Transform, key: seq<Byte>) returns (h: Word)
    ensures h == Process(transform, Pad(key[..|key| % TWO32])).a
  {
    hide Process, Pad, EncodeAll, EncodeWord, DecodeWord;
    var results := new Byte[16](_ => 0);
    Signature(transform, key[..|key| % TWO32], results);
    ghost var st := Process(transform, Pad(key[..|key| % TWO32]));
    FirstWord(StateWords(st));
    DecodeEncodeWord(st.a);
    assert results[..4] == EncodeAll(StateWords(st))[..4];
    h := DecodeWord(results[..4]);
  }

  lemma {:induction false} FirstWord(ws: seq<Word>)
    requires ws != []
    ensures EncodeAll(ws)[..4] == EncodeWord(ws[0])
  {
    hide EncodeWord;
    if |ws| > 1 {
      FirstWord(ws[..|ws| - 1]);
    }
  }
}
