/** The global 64-bit counter that makes key prefixes: eight bytes, each with bit 0x10 set. */
module KeyPrefix {

  const LIMIT: nat := 0x1_0000_0000_0000_0000
  const BASE: nat := 0x1010101010101010

  /** Bit 0x10 is set. */
  predicate Marked(b: nat) {
    (b / 16) % 2 == 1
  }

  function OrByte(b: nat): (r: nat)
    requires b < 256
    ensures b <= r < 256 && Marked(r)
  {
    if Marked(b) then b else b + 16
  }

  lemma OrByteIsOr(b: bv8)
    ensures OrByte(b as nat) == (b | 0x10) as nat
  {
  }

  /** x | 0x10...10 on the k low bytes of x. */
  function OrMask(x: nat, k: nat): nat
    decreases k
  {
    if k == 0 then 0 else OrByte(x % 256) + 256 * OrMask(x / 256, k - 1)
  }

  function Power256(k: nat): nat {
    if k == 0 then 1 else 256 * Power256(k - 1)
  }

  function Prefix(s: nat): nat {
    OrMask(s, 8)
  }

  class Counter {
    var seqNum: nat
    ghost var calls: nat             // how many prefixes have been handed out

    ghost predicate Valid()
      reads this
    {
      seqNum == if calls == 0 then BASE else (Nth(calls - 1) + 1) % LIMIT
    }

    constructor ()
      ensures Valid() && calls == 0
    {
      seqNum, calls := BASE, 0;
    }

    /** ms_get_key_prefix: call after call returns the successive prefixes. */
    method Next() returns (prefix: nat)
      requires Valid()
      modifies this
      ensures Valid() && calls == old(calls) + 1 && prefix == Nth(old(calls))
    {
      hide OrMask;
      seqNum := OrMask(seqNum, 8);
      prefix := seqNum;
      seqNum := (seqNum + 1) % LIMIT;
      calls := calls + 1;
    }
  }

  /** The prefix the n-th call returns, counting from zero. */
  function Nth(n: nat): nat {
    if n == 0 then Prefix(BASE) else Prefix((Nth(n - 1) + 1) % LIMIT)
  }

  /** No call before the n-th has handed out the last value of the counter. */
  ghost predicate NoWrap(n: nat) {
    forall i :: 0 <= i < n ==> Nth(i) != LIMIT - 1
  }

  lemma {:induction false} OrMaskBounds(x: nat, k: nat)
    requires x < Power256(k)
    ensures x <= OrMask(x, k) < Power256(k)
    decreases k
  {
    if k > 0 {
      OrMaskBounds(x / 256, k - 1);
    }
  }

  lemma PrefixBounds(s: nat)
    requires s < LIMIT
    ensures s <= Prefix(s) < LIMIT
  {
    assert Power256(8) == LIMIT by {
      assert Power256(2) == 0x1_0000;
      assert Power256(4) == 0x1_0000_0000;
      assert Power256(6) == 0x1_0000_0000_0000;
    }
    OrMaskBounds(s, 8);
  }

  lemma {:induction false} NthBelowLimit(n: nat)
    ensures Nth(n) < LIMIT
  {
    hide Prefix;
    if n > 0 {
      PrefixBounds((Nth(n - 1) + 1) % LIMIT);
    } else {
      PrefixBounds(BASE);
    }
  }

  /** Until the counter wraps, prefixes strictly increase, so no two are equal. */
  lemma {:induction false} PrefixesIncrease(i: nat, j: nat)
    requires i < j && NoWrap(j)
    ensures Nth(i) < Nth(j)
  {
    hide Prefix;
    NthBelowLimit(j - 1);
    PrefixBounds((Nth(j - 1) + 1) % LIMIT);
    if i < j - 1 {
      assert NoWrap(j - 1);
      PrefixesIncrease(i, j - 1);
    }
  }

  function ByteAt(p: nat, i: nat): (b: nat)
    ensures b < 256
  {
    if i == 0 then p % 256 else ByteAt(p / 256, i - 1)
  }

  lemma OrMaskParts(x: nat, k: nat)
    requires k > 0
    ensures OrMask(x, k) % 256 == OrByte(x % 256) && OrMask(x, k) / 256 == OrMask(x / 256, k - 1)
  {
    hide OrByte, Marked;
  }

  /** Each of the low bytes has its bit set and is the byte it was otherwise. */
  lemma {:induction false} OrMaskBytes(x: nat, k: nat, i: nat)
    requires i < k
    ensures ByteAt(OrMask(x, k), i) == OrByte(ByteAt(x, i))
    decreases k
  {
    hide OrMask, OrByte, Marked;
    OrMaskParts(x, k);
    if i > 0 {
      OrMaskBytes(x / 256, k - 1, i - 1);
    }
  }

  lemma MarkedPrintable(b: nat)
    requires Marked(b)
    ensures b !in {0x00, 0x0a, 0x0d, 0x20}
  {
  }

  /** No byte of any prefix is NUL, LF, CR or space. */
  lemma PrefixBytesPrintable(s: nat, i: nat)
    requires i < 8
    ensures ByteAt(Prefix(s), i) !in {0x00, 0x0a, 0x0d, 0x20}
  {
    hide OrMask, ByteAt, Marked;
    OrMaskBytes(s, 8, i);
    MarkedPrintable(ByteAt(Prefix(s), i));
  }
}
