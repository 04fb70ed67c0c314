/** aes.cc: key folding, and encryption of whole messages with the padding of section 6.3 of RFC 5652. */
module Aes {
  import opened Wrappers
  import opened Sequences
  import opened HashkitString
  import Gf256
  import Fips197
  import Rijndael

  type Block = b: seq<bv8> | |b| == 16 witness seq(16, _ => 0)

  type BlockCipher = Block -> Block

  // ---------- messages as blocks ----------

  predicate Blocks(n: nat) {
    n % 16 == 0
  }

  /** f on each block of s in turn. */
  function Each(f: BlockCipher, s: seq<bv8>): (r: seq<bv8>)
    requires Blocks(|s|)
    ensures |r| == |s|
  {
    if s == [] then [] else Each(f, s[..|s| - 16]) + f(s[|s| - 16..])
  }

  lemma EachStep(f: BlockCipher, s: seq<bv8>, n: nat)
    requires Blocks(n) && n + 16 <= |s|
    ensures Blocks(n + 16) && Each(f, s[..n + 16]) == Each(f, s[..n]) + f(s[n..n + 16])
  {
    var t := s[..n + 16];
    assert t[..|t| - 16] == s[..n] && t[|t| - 16..] == s[n..n + 16];
  }

  ghost predicate Inverse(f: BlockCipher, g: BlockCipher) {
    forall b: Block :: g(f(b)) == b
  }

  lemma {:induction false} EachInverse(f: BlockCipher, g: BlockCipher, s: seq<bv8>)
    requires Inverse(f, g) && Blocks(|s|)
    ensures Each(g, Each(f, s)) == s
  {
    if s != [] {
      var init, last := Each(f, s[..|s| - 16]), f(s[|s| - 16..]);
      EachInverse(f, g, s[..|s| - 16]);
      assert (init + last)[..|s| - 16] == init && (init + last)[|s| - 16..] == last;
    }
  }

  /** The number of padding bytes, from 1 to 16. */
  function PadLen(n: nat): nat {
    16 - n % 16
  }

  function Pad(s: seq<bv8>): (p: seq<bv8>)
    ensures Blocks(|p|) && |p| == 16 * (|s| / 16 + 1)
  {
    s + seq(PadLen(|s|), _ => PadLen(|s|) as bv8)
  }

  /** Strips as many bytes as the last byte says; a count above one block is refused. */
  function Unpad(p: seq<bv8>): Option<seq<bv8>>
    requires |p| >= 16
  {
    var n := p[|p| - 1] as nat;
    if n > 16 then None else Some(p[..|p| - n])
  }

  lemma UnpadPad(s: seq<bv8>)
    ensures Unpad(Pad(s)) == Some(s)
  {
    var p := Pad(s);
    var n := PadLen(|s|);
    assert p[|p| - 1] == n as bv8;
    ByteOfCount(n);
  }

  /** Section 6.3 of RFC 5652: from one to sixteen bytes follow the message, and each of them is their number. */
  lemma PadBytes(s: seq<bv8>, i: nat)
    requires |s| <= i < |Pad(s)|
    ensures 1 <= |Pad(s)| - |s| <= 16 && Pad(s)[..|s|] == s && Pad(s)[i] as nat == |Pad(s)| - |s|
  {
    ByteOfCount(PadLen(|s|));
  }

  lemma ByteOfCount(n: nat)
    requires n <= 16
    ensures (n as bv8) as nat == n
  {
  }

  function Seal(f: BlockCipher, s: seq<bv8>): (c: seq<bv8>)
    ensures Blocks(|c|) && |c| >= 16
  {
    Each(f, Pad(s))
  }

  /** None for a message that is not a positive number of blocks or whose last byte is no pad length. */
  function Open(g: BlockCipher, c: seq<bv8>): Option<seq<bv8>> {
    if !Blocks(|c|) || |c| == 0 then None else Unpad(Each(g, c))
  }

  /** For any pair of inverse block ciphers, opening undoes sealing, on every message. */
  lemma OpenSeal(f: BlockCipher, g: BlockCipher, s: seq<bv8>)
    requires Inverse(f, g)
    ensures Open(g, Seal(f, s)) == Some(s)
  {
    hide Each, Pad, Unpad, Inverse;
    EachInverse(f, g, Pad(s));
    UnpadPad(s);
  }

  // ---------- the key ----------

  /** The exclusive or of the bytes of key[..n] whose positions are i modulo 32. */
  function FoldAt(key: seq<bv8>, n: nat, i: nat): bv8
    requires n <= |key|
  {
    if n == 0 then 0
    else if (n - 1) % 32 == i then Gf256.Add(FoldAt(key, n - 1, i), key[n - 1])
    else FoldAt(key, n - 1, i)
  }

  function Folded(key: seq<bv8>): (r: seq<bv8>)
    ensures |r| == 32
  {
    seq(32, i requires 0 <= i < 32 => FoldAt(key, |key|, i))
  }

  /** A key of at most 32 bytes is extended with zeros. */
  lemma FoldShort(key: seq<bv8>, n: nat, i: nat)
    requires n <= |key| && n <= 32 && i < 32
    ensures FoldAt(key, n, i) == if i < n then key[i] else 0
  {
    if n > 0 {
      FoldShort(key, n - 1, i);
      Rijndael.Disjoint(key[n - 1]);
    }
  }

  lemma FoldedShort(key: seq<bv8>)
    requires |key| <= 32
    ensures Folded(key) == key + seq(32 - |key|, _ => 0)
  {
    forall i | 0 <= i < 32
      ensures Folded(key)[i] == if i < |key| then key[i] else 0
    {
      FoldShort(key, |key|, i);
    }
  }

  lemma {:induction false} FoldLonger(a: seq<bv8>, b: seq<bv8>, n: nat, i: nat)
    requires |a| % 32 == 0 && n <= |b|
    ensures FoldAt(a + b, |a| + n, i) == Gf256.Add(FoldAt(a, |a|, i), FoldAt(b, n, i))
  {
    hide Gf256.Add, FoldAt;
    if n == 0 {
      FoldStep(b, 0, i);
      FoldPrefix(a, b, |a|, i);
      AddNothing(FoldAt(a, |a|, i));
    } else {
      FoldLonger(a, b, n - 1, i);
      SamePlace(|a|, n - 1);
      FoldStep(a + b, |a| + n, i);
      FoldStep(b, n, i);
      AddGroups(FoldAt(a, |a|, i), FoldAt(b, n - 1, i), b[n - 1]);
    }
  }

  lemma SamePlace(m: nat, n: nat)
    requires m % 32 == 0
    ensures (m + n) % 32 == n % 32
  {
  }

  lemma FoldStep(key: seq<bv8>, n: nat, i: nat)
    requires n <= |key|
    ensures FoldAt(key, n, i) ==
            if n == 0 then 0
            else if (n - 1) % 32 == i then Gf256.Add(FoldAt(key, n - 1, i), key[n - 1])
            else FoldAt(key, n - 1, i)
  {
  }

  lemma {:induction false} FoldPrefix(a: seq<bv8>, b: seq<bv8>, n: nat, i: nat)
    requires n <= |a|
    ensures FoldAt(a + b, n, i) == FoldAt(a, n, i)
  {
    hide Gf256.Add;
    if n > 0 {
      FoldPrefix(a, b, n - 1, i);
    }
  }

  lemma AddNothing(x: bv8)
    ensures Gf256.Add(x, 0) == x
  {
  }

  lemma AddGroups(x: bv8, y: bv8, z: bv8)
    ensures Gf256.Add(Gf256.Add(x, y), z) == Gf256.Add(x, Gf256.Add(y, z))
  {
  }

  /** A longer key is cut into pieces of 32 bytes, which are added byte by byte. */
  lemma FoldedLong(a: seq<bv8>, b: seq<bv8>, i: nat)
    requires |a| % 32 == 0 && i < 32
    ensures Folded(a + b)[i] == Gf256.Add(Folded(a)[i], Folded(b)[i])
  {
    hide Gf256.Add, FoldAt;
    FoldLonger(a, b, |b|, i);
  }

  /** The folding loop of aes_create_key: ptr runs round rkey while sptr runs along the key. */
  method FoldKey(key: seq<bv8>) returns (rkey: array<bv8>)
    ensures fresh(rkey) && rkey[..] == Folded(key)
  {
    hide Gf256.Add, FoldAt, Abreast;
    rkey := new bv8[32](_ => 0);
    var ptr: nat, sptr: nat := 0, 0;
    FoldNothing(key);
    while sptr < |key|
      invariant sptr <= |key| && Abreast(ptr, sptr) && rkey.Length == 32
      invariant forall i :: 0 <= i < 32 ==> rkey[i] == FoldAt(key, sptr, i)
    {
      AbreastNext(ptr, sptr);
      if ptr == 32 {
        ptr := 0;
      }
      rkey[ptr] := Gf256.Add(rkey[ptr], key[sptr]);
      FoldNext(key, sptr, ptr);
      ptr, sptr := ptr + 1, sptr + 1;
    }
  }

  /** Before the wrap test ptr may stand one past the end of rkey. */
  ghost predicate Abreast(ptr: nat, sptr: nat) {
    ptr <= 32 && ptr % 32 == sptr % 32
  }

  lemma AbreastNext(ptr: nat, sptr: nat)
    requires Abreast(ptr, sptr)
    ensures ptr <= 32
    ensures var p := if ptr == 32 then 0 else ptr; p == sptr % 32 && Abreast(p + 1, sptr + 1)
  {
  }

  lemma FoldNothing(key: seq<bv8>)
    ensures Abreast(0, 0) && forall i {:trigger FoldAt(key, 0, i)} :: 0 <= i < 32 ==> FoldAt(key, 0, i) == 0
  {
  }

  lemma FoldNext(key: seq<bv8>, n: nat, slot: nat)
    requires n < |key| && slot == n % 32
    ensures forall i :: 0 <= i < 32 ==>
      FoldAt(key, n + 1, i) == if i == slot then Gf256.Add(FoldAt(key, n, i), key[n]) else FoldAt(key, n, i)
  {
    hide Gf256.Add;
  }

  function Encipher(w: seq<Fips197.Column>): BlockCipher
    requires |w| == 60
  {
    (b: Block) => Rijndael.ToBlock(Fips197.Cipher(w, 14, Rijndael.ToState(b)))
  }

  function Decipher(w: seq<Fips197.Column>): BlockCipher
    requires |w| == 60
  {
    (b: Block) => Rijndael.ToBlock(Fips197.EqInvCipher(w, 14, Rijndael.ToState(b)))
  }

  class Key {
    const encode: array<bv32>
    const decode: array<bv32>
    var encodeRounds: nat
    var decodeRounds: nat

    ghost predicate Valid()
      reads this
    {
      encode.Length == 60 && decode.Length == 60 && encodeRounds == 14 && decodeRounds == 14
    }

    ghost function Encryption(): BlockCipher
      requires Valid()
      reads this, encode
    {
      Encipher(Rijndael.Words(encode[..], 60))
    }

    ghost function Decryption(): BlockCipher
      requires Valid()
      reads this, decode
    {
      Decipher(Rijndael.Words(decode[..], 60))
    }

    /** aes_create_key. */
    constructor (key: seq<bv8>)
      ensures Valid() && fresh(encode) && fresh(decode)
      ensures Rijndael.Words(encode[..], 60) == Fips197.Expand(Folded(key), 8, 14)
      ensures Rijndael.Words(decode[..], 60) == Fips197.InverseSchedule(Fips197.Expand(Folded(key), 8, 14), 14)
    {
      hide Rijndael.Words, Folded, Fips197.Expand, Fips197.InverseSchedule;
      var ek, dk := new bv32[60](_ => 0), new bv32[60](_ => 0);
      var rkey := FoldKey(key);
      var nd := Rijndael.KeySetupDec(dk, rkey[..], 256);
      var ne := Rijndael.KeySetupEnc(ek, rkey[..], 256);
      encode, decode, encodeRounds, decodeRounds := ek, dk, ne, nd;
    }
  }

  /** The two block ciphers of one created key are inverses. */
  lemma KeyInverse(rkey: seq<bv8>)
    requires |rkey| == 32
    ensures var w := Fips197.Expand(rkey, 8, 14);
            Inverse(Encipher(w), Decipher(Fips197.InverseSchedule(w, 14)))
  {
    hide Rijndael.ToBlock, Rijndael.ToState, Fips197.Cipher, Fips197.EqInvCipher, Fips197.InverseSchedule,
         Fips197.Expand;
    var w := Fips197.Expand(rkey, 8, 14);
    var f, g := Encipher(w), Decipher(Fips197.InverseSchedule(w, 14));
    forall b: Block
      ensures g(f(b)) == b
    {
      Rijndael.DecryptUndoesEncrypt(rkey, 8, 14, b);
    }
  }

  // ---------- messages ----------

  /** aes_encrypt on a message that is not empty. */
  method Encrypt(key: Key?, source: seq<bv8>) returns (destination: ByteString?)
    requires key != null ==> key.Valid()
    requires 0 < |source| < SIZE
    ensures destination != null <==> key != null && Grown(0, 0, |source|) < SIZE
    ensures destination != null ==>
      && fresh(destination) && fresh(destination.data) && destination.Valid()
      && destination.size == Grown(0, 0, |source|)
      && destination.Contents() == Seal(key.Encryption(), source)
  {
    hide Seal, Encipher, Grown;
    if key == null {
      return null;
    }
    var numBlocks := |source| / 16;
    destination := Create(|source|);
    if destination == null {
      return;
    }
    CapacityCoversPadding(|source|);
    EncryptBlocks(key, source, numBlocks, destination.data);
    destination.SetLength(16 * (numBlocks + 1));
  }

  /** One more block has been written behind the first at bytes. */
  lemma EachWritten(f: BlockCipher, p: seq<bv8>, at: nat, before: seq<bv8>, after: seq<bv8>)
    requires Blocks(at) && at + 16 <= |p| && at + 16 <= |before|
    requires before[..at] == Each(f, p[..at])
    requires after == Splice(before, at, f(p[at..at + 16]))
    ensures Blocks(at + 16) && after[..at + 16] == Each(f, p[..at + 16])
  {
    hide Each;
    EachStep(f, p, at);
  }

  /** The blocks of the padded message are those of the message and one that is made up. */
  lemma PaddedBlocks(source: seq<bv8>, at: nat)
    requires at + 16 <= |source|
    ensures Pad(source)[at..at + 16] == source[at..at + 16]
  {
  }

  lemma LastPadded(source: seq<bv8>, at: nat, padLen: nat)
    requires at == 16 * (|source| / 16) && padLen == 16 - (|source| - at)
    ensures |Pad(source)| == at + 16 && Pad(source)[..at + 16] == Pad(source)
    ensures Pad(source)[at..at + 16] == source[at..at + 16 - padLen] + seq(padLen, _ => padLen as bv8)
  {
    assert padLen == PadLen(|source|);
  }

  method EncryptOne(key: Key, block: Block, dest: array<bv8>, at: nat)
    requires key.Valid() && at + 16 <= dest.Length
    modifies dest
    ensures dest[..] == Splice(old(dest[..]), at, key.Encryption()(block))
  {
    hide Fips197.Cipher, Rijndael.Words, Rijndael.ToBlock, Rijndael.ToState, Splice;
    Rijndael.Encrypt(key.encode, key.encodeRounds, block, dest, at);
  }

  method DecryptOne(key: Key, block: Block, dest: array<bv8>, at: nat)
    requires key.Valid() && at + 16 <= dest.Length
    modifies dest
    ensures dest[..] == Splice(old(dest[..]), at, key.Decryption()(block))
  {
    hide Fips197.EqInvCipher, Rijndael.Words, Rijndael.ToBlock, Rijndael.ToState, Splice;
    Rijndael.Decrypt(key.decode, key.decodeRounds, block, dest, at);
  }

  /** Every complete block in turn, then the padded rest. */
  method EncryptBlocks(key: Key, source: seq<bv8>, numBlocks: nat, dest: array<bv8>)
    requires key.Valid() && numBlocks == |source| / 16 && dest.Length >= 16 * (numBlocks + 1)
    modifies dest
    ensures dest[..16 * (numBlocks + 1)] == Seal(key.Encryption(), source)
  {
    hide Each, Pad, Splice, Encipher;
    ghost var f, p := key.Encryption(), Pad(source);
    var at: nat, x: nat := 0, numBlocks;
    EachNothing(f, p);
    while x > 0
      invariant x <= numBlocks && at == 16 * (numBlocks - x) && Blocks(at)
      invariant dest[..at] == Each(f, p[..at])
    {
      PaddedBlocks(source, at);
      ghost var before := dest[..];
      EncryptOne(key, source[at..at + 16], dest, at);
      EachWritten(f, p, at, before, dest[..]);
      at, x := at + 16, x - 1;
    }
    var padLen := 16 - (|source| - 16 * numBlocks);
    var block := source[at..at + 16 - padLen] + seq(padLen, _ => padLen as bv8);
    LastPadded(source, at, padLen);
    ghost var before := dest[..];
    EncryptOne(key, block, dest, at);
    EachWritten(f, p, at, before, dest[..]);
  }

  lemma EachNothing(f: BlockCipher, p: seq<bv8>)
    ensures Each(f, p[..0]) == []
  {
  }

  /**
   * aes_decrypt: null for a missing key, a length that is no positive number of blocks, or an impossible pad
   * length.
   */
  method Decrypt(key: Key?, source: seq<bv8>) returns (destination: ByteString?)
    requires key != null ==> key.Valid()
    requires |source| < SIZE
    ensures destination != null <==>
      key != null && Grown(0, 0, |source|) < SIZE && Open(key.Decryption(), source).Some?
    ensures destination != null ==>
      && fresh(destination) && fresh(destination.data) && destination.Valid()
      && destination.size == Grown(0, 0, |source|)
      && Open(key.Decryption(), source) == Some(destination.Contents())
  {
    hide Each, Unpad, Decipher, Grown;
    if key == null {
      return null;
    }
    var numBlocks := |source| / 16;
    if |source| != numBlocks * 16 || numBlocks == 0 {
      return null;
    }
    destination := Create(|source|);
    if destination == null {
      return;
    }
    var length := DecryptBlocks(key, source, numBlocks, destination.data);
    if length.None? {
      return null;
    }
    destination.SetLength(length.value);
  }

  /** Every block but the last in turn. */
  method DecryptLeading(key: Key, source: seq<bv8>, numBlocks: nat, dest: array<bv8>) returns (at: nat)
    requires key.Valid() && numBlocks > 0 && |source| == 16 * numBlocks <= dest.Length
    modifies dest
    ensures Blocks(at) && at + 16 == |source| && dest[..at] == Each(key.Decryption(), source[..at])
  {
    hide Each, Splice, Decipher;
    ghost var g := key.Decryption();
    at := 0;
    var x: nat := numBlocks - 1;
    EachNothing(g, source);
    while x > 0
      invariant x <= numBlocks - 1 && at == 16 * (numBlocks - 1 - x) && Blocks(at)
      invariant dest[..at] == Each(g, source[..at])
    {
      ghost var before := dest[..];
      DecryptOne(key, source[at..at + 16], dest, at);
      EachWritten(g, source, at, before, dest[..]);
      at, x := at + 16, x - 1;
    }
  }

  /** Every block but the last in turn, then as much of the last as its final byte leaves. */
  method DecryptBlocks(key: Key, source: seq<bv8>, numBlocks: nat, dest: array<bv8>) returns (length: Option<nat>)
    requires key.Valid() && numBlocks > 0 && |source| == 16 * numBlocks <= dest.Length
    modifies dest
    ensures length.Some? <==> Open(key.Decryption(), source).Some?
    ensures length.Some? ==> length.value <= |source| && Open(key.Decryption(), source) == Some(dest[..length.value])
  {
    hide Each, Splice, Decipher;
    var at := DecryptLeading(key, source, numBlocks, dest);
    var block := new bv8[16];
    LastBlock(key.Decryption(), source, at, block[..]);
    DecryptOne(key, source[at..at + 16], block, 0);
    var padLen := block[15] as nat;
    if padLen > 16 {
      return None;
    }
    StripWritten(dest[..], at, block[..], padLen);
    CopyInto(dest, at, block[..16 - padLen]);
    return Some(16 * numBlocks - padLen);
  }

  lemma StripWritten(before: seq<bv8>, at: nat, block: seq<bv8>, n: nat)
    requires at + 16 <= |before| && |block| == 16 && n <= 16
    ensures Splice(before, at, block[..16 - n])[..at + 16 - n] == (before[..at] + block)[..at + 16 - n]
  {
  }

  lemma LastBlock(g: BlockCipher, source: seq<bv8>, at: nat, start: seq<bv8>)
    requires Blocks(at) && |source| == at + 16 && |start| == 16
    ensures Each(g, source) == Each(g, source[..at]) + Splice(start, 0, g(source[at..at + 16]))
  {
    hide Each;
    EachStep(g, source, at);
    assert source[..at + 16] == source;
    assert Splice(start, 0, g(source[at..at + 16])) == g(source[at..at + 16]);
  }

  /** One key string, one message, both operations: the message comes back whenever there is room for it. */
  method SealThenOpen(passphrase: seq<bv8>, source: seq<bv8>) returns (back: ByteString?)
    requires 0 < |source| && Grown(0, 0, |source|) < SIZE
    ensures back != null <==> Grown(0, 0, 16 * (|source| / 16 + 1)) < SIZE
    ensures back != null ==> back.Valid() && back.Contents() == source
  {
    hide Each, Encipher, Decipher, Pad, Unpad, Inverse, Fips197.Expand, Fips197.InverseSchedule, Folded, Rijndael.Words;
    var key := new Key(passphrase);
    KeyInverse(Folded(passphrase));
    OpenSeal(key.Encryption(), key.Decryption(), source);
    CapacityCoversPadding(|source|);
    var sealed := Encrypt(key, source);
    back := Decrypt(key, sealed.data[..sealed.end]);
  }
}
