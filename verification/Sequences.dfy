/** Sequence operations shared by the buffer-handling modules. */
module Sequences {

  /** s with |v| elements from position at on replaced by v. */
  function Splice<T>(s: seq<T>, at: nat, v: seq<T>): (r: seq<T>)
    requires at + |v| <= |s|
    ensures |r| == |s|
  {
    s[..at] + v + s[at + |v|..]
  }

  /** Two adjacent replacements are one. */
  lemma SpliceTwice<T>(s: seq<T>, at: nat, u: seq<T>, v: seq<T>)
    requires at + |u| + |v| <= |s|
    ensures Splice(Splice(s, at, u), at + |u|, v) == Splice(s, at, u + v)
  {
  }

  /** memcpy of v to position at of a. */
  method CopyInto<T>(a: array<T>, at: nat, v: seq<T>)
    requires at + |v| <= a.Length
    modifies a
    ensures a[..] == Splice(old(a[..]), at, v)
  {
    for i := 0 to |v|
      invariant forall k :: at <= k < at + i ==> a[k] == v[k - at]
      invariant forall k :: 0 <= k < a.Length && !(at <= k < at + i) ==> a[k] == old(a[k])
    {
      a[at + i] := v[i];
    }
  }
}
