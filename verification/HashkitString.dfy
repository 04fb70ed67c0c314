/** The growable byte string of string.cc; sizes are size_t of the 32-bit build, so they wrap at 2^32. */
module HashkitString {
  import opened Sequences

  const SIZE: nat := 0x1_0000_0000
  const BLOCK: nat := 1024

  /** The capacity that need more bytes ask for, before any wrap-around. */
  function Grown(size: nat, end: nat, need: nat): (g: nat)
    requires end <= size
    ensures g >= size && g - end >= need
    ensures size % BLOCK == 0 ==> g % BLOCK == 0
  {
    if need <= size - end then size else size + BLOCK * ((need - (size - end)) / BLOCK + 1)
  }

  lemma GrownSum(size: nat, end: nat, need: nat)
    requires end <= size
    ensures need <= size - end ==> Grown(size, end, need) == size
    ensures need > size - end ==> Grown(size, end, need) == ((need - (size - end)) / BLOCK + 1) * BLOCK + size
  {
  }

  /** The wrapped size passes for enough although it is not: a full string at the very top, grown by whole blocks. */
  predicate Deceived(end: nat, need: nat) {
    end == SIZE - BLOCK && need > 0 && need % BLOCK == 0
  }

  /** A string that is at least need bytes short grows to the next block boundary after its new length. */
  lemma GrownToBoundary(size: nat, end: nat, need: nat)
    requires end <= size && size % BLOCK == 0 && need > size - end
    ensures Grown(size, end, need) == need + end - (need + end) % BLOCK + BLOCK
  {
    var b := size / BLOCK;
    var extra := need - (size - end);
    assert need + end == extra + BLOCK * b;
    assert (need + end) % BLOCK == extra % BLOCK;
  }

  /** The overflow test of _string_check is right exactly when the string is not Deceived. */
  lemma OverflowTest(size: nat, end: nat, need: nat)
    requires end <= size < SIZE && size % BLOCK == 0 && size - end < need < SIZE
    ensures (Grown(size, end, need) % SIZE < need <==> Grown(size, end, need) >= SIZE) <==> !Deceived(end, need)
  {
    GrownToBoundary(size, end, need);
    var g, r := Grown(size, end, need), (need + end) % BLOCK;
    assert size <= SIZE - BLOCK;
    hide Grown;
    if end == SIZE - BLOCK {
      assert r == need % BLOCK;
    }
    if g >= SIZE {
      assert g % SIZE == g - SIZE;
    }
  }

  lemma DeceivedIsFull(size: nat, end: nat, need: nat)
    requires end <= size < SIZE && size % BLOCK == 0
    ensures Deceived(end, need) ==> size == end && need > 0
  {
  }

  /** Deceived, the wrapped size is need itself, which the string already exceeds or just reaches. */
  lemma DeceivedShrinks(size: nat, end: nat, need: nat)
    requires end <= size < SIZE && size % BLOCK == 0 && size - end < need < SIZE
    ensures Deceived(end, need) ==> Grown(size, end, need) % SIZE == need <= end == size
  {
    GrownToBoundary(size, end, need);
    hide Grown;
    if Deceived(end, need) {
      assert (need + end) % BLOCK == 0;
    }
  }

  /** The size that the arithmetic of _string_check arrives at, and what the comparison with need then says. */
  lemma WrappedSize(size: nat, end: nat, need: nat)
    requires end <= size < SIZE && size % BLOCK == 0 && size - end < need < SIZE
    ensures var g := Grown(size, end, need);
      var w := (((need - (size - end)) / BLOCK + 1) * BLOCK + size) % SIZE;
      && (w < need <==> g >= SIZE && !Deceived(end, need))
      && (w >= need && !Deceived(end, need) ==> w == g < SIZE && g % BLOCK == 0)
      && (Deceived(end, need) ==> w == need <= end == size)
  {
    hide Grown, Deceived;
    GrownSum(size, end, need);
    OverflowTest(size, end, need);
    DeceivedShrinks(size, end, need);
  }

  class ByteString {
    var data: array<bv8>
    var end: nat
    var size: nat

    ghost predicate Valid()
      reads this
    {
      size == data.Length && size < SIZE && size % BLOCK == 0 && end <= size
    }

    ghost function Contents(): seq<bv8>
      requires Valid()
      reads this, data
    {
      data[..end]
    }

    /** calloc: no buffer, no capacity. */
    constructor ()
      ensures Valid() && size == 0 && end == 0 && fresh(data)
    {
      data := new bv8[0];
      end, size := 0, 0;
    }

    /** realloc: the bytes that fit are kept. */
    method Realloc(newSize: nat)
      modifies this`data
      ensures fresh(data) && data.Length == newSize
      ensures forall i :: 0 <= i < newSize && i < old(data.Length) ==> data[i] == old(data[i])
    {
      var value := new bv8[newSize](i requires 0 <= i < newSize reads this, data =>
                                      if i < data.Length then data[i] else 0);
      data := value;
    }

    /**
     * _string_check: makes room for need more bytes, keeping the contents; false exactly when no size can hold them.
     * A deceived string shrinks to need bytes and reports success without the room.
     */
    method Check(need: nat) returns (ok: bool)
      requires Valid() && need < SIZE
      modifies this
      ensures end == old(end) && size == data.Length
      ensures data == old(data) || fresh(data)
      ensures !Deceived(end, need) ==>
        && Valid() && Contents() == old(Contents())
        && (size == old(size) ==> data == old(data))
        && (ok <==> Grown(old(size), end, need) < SIZE)
        && size == if ok then Grown(old(size), end, need) else old(size)
      ensures Deceived(end, need) ==>
        ok && size == need <= end && size - end < need && data[..] == old(data[..])[..need]
    {
      hide Grown, Deceived;
      GrownSum(size, end, need);
      DeceivedIsFull(size, end, need);
      if need > 0 && need > size - end {
        WrappedSize(size, end, need);
        var adjust := (need - (size - end)) / BLOCK + 1;
        var newSize := (adjust * BLOCK + size) % SIZE;
        if newSize < need {
          return false;
        }
        Realloc(newSize);
        size := (size + BLOCK * adjust) % SIZE;
      }
      return true;
    }

    /** hashkit_string_append; the source asserts that a buffer exists. */
    method Append(value: seq<bv8>) returns (ok: bool)
      requires Valid() && |value| < SIZE && !Deceived(end, |value|) && (value != [] || size > 0)
      modifies this, data
      ensures Valid()
      ensures ok <==> Grown(old(size), old(end), |value|) < SIZE
      ensures size == if ok then Grown(old(size), old(end), |value|) else old(size)
      ensures Contents() == if ok then old(Contents()) + value else old(Contents())
      ensures data == old(data) || fresh(data)
    {
      ok := Check(|value|);
      if ok {
        CopyInto(data, end, value);
        end := end + |value|;
      }
    }

    /** hashkit_string_set_length: within the free capacity nothing moves and no byte changes. */
    method SetLength(length: nat)
      requires Valid() && length < SIZE
      modifies this
      ensures Valid()
      ensures !Deceived(old(end), length) ==>
        if Grown(old(size), old(end), length) < SIZE then end == length && size == Grown(old(size), old(end), length)
        else end == old(end) && size == old(size)
      ensures Deceived(old(end), length) ==> end == size == length && data[..] == old(data[..])[..length]
      ensures length <= old(size) - old(end) ==> data == old(data) && size == old(size) && end == length
      ensures data == old(data) || fresh(data)
    {
      var ok := Check(length);
      if ok {
        end := length;
      }
    }
  }

  /** hashkit_string_create; null when no size can hold initialSize bytes. */
  method Create(initialSize: nat) returns (s: ByteString?)
    requires initialSize < SIZE
    ensures s != null <==> Grown(0, 0, initialSize) < SIZE
    ensures s != null ==> fresh(s) && fresh(s.data) && s.Valid() && s.end == 0 && s.size == Grown(0, 0, initialSize)
  {
    var self := new ByteString();
    var ok := self.Check(initialSize);
    return if ok then self else null;
  }

  /** Room for a source is room for its padded form exactly when the source is not empty. */
  lemma CapacityCoversPadding(n: nat)
    ensures 16 * (n / 16 + 1) <= Grown(0, 0, n) <==> n > 0
  {
    if n > 0 {
      GrownToBoundary(0, 0, n);
      var b := n / BLOCK + 1;
      assert Grown(0, 0, n) == BLOCK * b && n < 16 * (64 * b);
      hide Grown;
      assert n / 16 < 64 * b;
    }
  }
}
