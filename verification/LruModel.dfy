/**
 * The LRU store as values: buckets, each an item map and an index of stamps kept in order,
 * and one function per critical section of the code.
 */
module LruModel {
  import opened Wrappers

  type Key = string

  const BUCKETS: nat := 10
  const ULONG_MAX: nat := 0xFFFF_FFFF
  const SIZEOF_STAMP: nat := 4

  /** Arithmetic of unsigned long on the 32-bit build. */
  function Wrap(x: int): (r: nat)
    ensures r <= ULONG_MAX
  {
    x % 0x1_0000_0000
  }

  datatype Entry = Entry(value: string, flags: string, cas: string, expiry: nat, stamp: nat)

  datatype Stamp = Stamp(at: nat, key: Key)

  datatype Bucket = Bucket(items: map<Key, Entry>, index: seq<Stamp>)

  /** Expired, or stamped before the last flush that fired. */
  predicate Dead(e: Entry, now: nat, flushed: nat) {
    e.expiry < now || e.stamp < flushed
  }

  // ---------- the index: a set ordered by stamp, at most one key per stamp ----------

  ghost predicate Ordered(index: seq<Stamp>) {
    forall i, j :: 0 <= i < j < |index| ==> index[i].at < index[j].at
  }

  predicate HasStamp(index: seq<Stamp>, at: nat) {
    exists i :: 0 <= i < |index| && index[i].at == at
  }

  /** std::set::insert: nothing happens when the stamp is taken. */
  function InsertStamp(index: seq<Stamp>, s: Stamp): seq<Stamp> {
    if index == [] || s.at < index[0].at then [s] + index
    else if s.at == index[0].at then index
    else [index[0]] + InsertStamp(index[1..], s)
  }

  /** std::set::erase by value: the comparison looks at the stamp only. */
  function EraseStamp(index: seq<Stamp>, at: nat): seq<Stamp> {
    if index == [] then []
    else if index[0].at == at then index[1..]
    else [index[0]] + EraseStamp(index[1..], at)
  }

  lemma {:induction false} InsertStampCorrect(index: seq<Stamp>, s: Stamp)
    requires Ordered(index)
    ensures Ordered(InsertStamp(index, s))
    ensures forall x :: x in InsertStamp(index, s) <==> x in index || (x == s && !HasStamp(index, s.at))
    ensures |InsertStamp(index, s)| == |index| + (if HasStamp(index, s.at) then 0 else 1)
  {
    var r := InsertStamp(index, s);
    if index == [] || s.at < index[0].at {
      assert r[0] == s && r[1..] == index;
    } else if s.at == index[0].at {
    } else {
      InsertStampCorrect(index[1..], s);
      var rest := InsertStamp(index[1..], s);
      assert forall x :: x in index <==> x == index[0] || x in index[1..];
      assert HasStamp(index, s.at) == HasStamp(index[1..], s.at) by {
        if HasStamp(index, s.at) {
          var i :| 0 <= i < |index| && index[i].at == s.at;
          assert index[1..][i - 1].at == s.at;
        }
      }
      forall j | 0 < j < |r|
        ensures r[0].at < r[j].at
      {
        assert r[j] == rest[j - 1] && rest[j - 1] in rest;
      }
    }
  }

  lemma TailMembers(index: seq<Stamp>, at: nat)
    requires index != [] && Ordered(index)
    ensures Ordered(index[1..])
    ensures forall x :: x in index <==> x == index[0] || x in index[1..]
    ensures HasStamp(index, at) <==> index[0].at == at || HasStamp(index[1..], at)
    ensures forall x :: x in index[1..] ==> index[0].at < x.at
  {
    var tail := index[1..];
    assert forall i :: 0 <= i < |tail| ==> tail[i] == index[i + 1];
    if HasStamp(index, at) && index[0].at != at {
      var i :| 0 <= i < |index| && index[i].at == at;
      assert tail[i - 1].at == at;
    }
  }

  lemma HeadOrdered(head: Stamp, rest: seq<Stamp>)
    requires Ordered(rest) && forall x :: x in rest ==> head.at < x.at
    ensures Ordered([head] + rest)
  {
    var r := [head] + rest;
    forall i, j | 0 <= i < j < |r|
      ensures r[i].at < r[j].at
    {
      assert r[j] == rest[j - 1] && rest[j - 1] in rest;
      if i > 0 {
        assert r[i] == rest[i - 1];
      }
    }
  }

  lemma {:induction false} EraseStampCorrect(index: seq<Stamp>, at: nat)
    requires Ordered(index)
    ensures Ordered(EraseStamp(index, at))
    ensures forall x :: x in EraseStamp(index, at) <==> x in index && x.at != at
    ensures |EraseStamp(index, at)| == |index| - (if HasStamp(index, at) then 1 else 0)
  {
    hide Ordered, HasStamp;
    if index == [] {
      NothingStamped(at);
    } else {
      TailMembers(index, at);
      if index[0].at != at {
        EraseStampCorrect(index[1..], at);
        HeadOrdered(index[0], EraseStamp(index[1..], at));
      } else {
        NotAgain(index[1..], at);
      }
    }
  }

  lemma NothingStamped(at: nat)
    ensures Ordered([]) && !HasStamp([], at)
  {
  }

  lemma NotAgain(rest: seq<Stamp>, at: nat)
    requires forall x :: x in rest ==> at < x.at
    ensures !HasStamp(rest, at) && forall x :: x in rest ==> x.at != at
  {
    assert forall i :: 0 <= i < |rest| ==> rest[i] in rest;
  }

  // ---------- the bucket of a key, src/dblru.cpp:82-99 ----------

  /** A char of the key as the signed char it is. */
  function CharValue(c: char): int {
    var n := c as int % 256;
    if n < 128 then n else n - 256
  }

  /** The sum of key[lo..hi], without wrap-around. */
  function CharSum(key: Key, lo: nat, hi: nat): int
    requires lo <= hi <= |key|
  {
    if lo == hi then 0 else CharSum(key, lo, hi - 1) + CharValue(key[hi - 1])
  }

  /** The sum of the last five characters, reduced once to unsigned int and once to a bucket. */
  function BucketOf(key: Key): (b: nat)
    ensures b < BUCKETS
  {
    Wrap(CharSum(key, if |key| < 5 then 0 else |key| - 5, |key|)) % BUCKETS
  }

  lemma WrapAdd(x: int, y: int)
    ensures Wrap(Wrap(x) + y) == Wrap(x + y)
  {
  }

  // ---------- eviction, src/dblru.cpp:211-306 ----------

  /** The key of index entry i is gone from the map, or its entry is dead. */
  predicate Stale(b: Bucket, i: nat, now: nat, flushed: nat)
    requires i < |b.index|
  {
    b.index[i].key !in b.items || Dead(b.items[b.index[i].key], now, flushed)
  }

  /** The index entry an eviction removes, given the flush stamps read for the oldest entry and for the next. */
  function VictimAcross(b: Bucket, now: nat, first: nat, second: nat): (v: nat)
    requires b.index != []
    ensures v < |b.index| && v < 2
  {
    if Stale(b, 0, now, first) || |b.index| == 1 then 0
    else if Stale(b, 1, now, second) then 1
    else if |b.items[b.index[0].key].value| < |b.items[b.index[1].key].value| then 1
    else 0
  }

  /** The same when no flush is published during the scan. */
  function Victim(b: Bucket, now: nat, flushed: nat): (v: nat)
    requires b.index != []
    ensures v < |b.index| && v < 2
  {
    VictimAcross(b, now, flushed, flushed)
  }

  function WithoutStampAt(b: Bucket, v: nat): Bucket
    requires v < |b.index|
  {
    Bucket(b.items - {b.index[v].key}, b.index[..v] + b.index[v + 1..])
  }

  function RemoveLru(b: Bucket, now: nat, flushed: nat): Bucket {
    if b.index == [] then b else WithoutStampAt(b, Victim(b, now, flushed))
  }

  function RemoveLruAcross(b: Bucket, now: nat, first: nat, second: nat): Bucket {
    if b.index == [] then b else WithoutStampAt(b, VictimAcross(b, now, first, second))
  }

  // ---------- the sections that hold the map lock ----------

  datatype Request = Request(key: Key, flags: string, cas: string, value: string, expiry: nat)

  datatype Put = Mismatch | Missing | Taken | Overwrote(prior: nat) | Created

  function NewExpiry(now: nat, expiry: nat): nat {
    if expiry != 0 then Wrap(now + expiry) else ULONG_MAX
  }

  function NewEntry(req: Request, now: nat, token: string, ts: nat): Entry {
    Entry(req.value, req.flags, token, NewExpiry(now, req.expiry), ts)
  }

  /** What an overwrite leaves: new fields under the old stamp, expiry always relative. */
  function Overwritten(req: Request, now: nat, token: string, e: Entry): Entry {
    Entry(req.value, req.flags, token, Wrap(now + req.expiry), e.stamp)
  }

  /** The map section of dbInsertElement, src/dblru.cpp:384-436. */
  function PutItem(items: map<Key, Entry>, req: Request, now: nat, token: string, ts: nat): (map<Key, Entry>, Put) {
    if req.key in items then
      var e := items[req.key];
      if req.cas != "" && e.cas != req.cas then (items, Mismatch)
      else (items[req.key := Overwritten(req, now, token, e)], Overwrote(e.stamp))
    else if req.cas != "" then (items, Missing)
    else (items[req.key := NewEntry(req, now, token, ts)], Created)
  }

  /** The map section of dbAddElement, src/dblru.cpp:518-558. */
  function AddItem(items: map<Key, Entry>, req: Request, now: nat, flushed: nat, token: string, ts: nat)
    : (map<Key, Entry>, Put)
  {
    if req.key in items then
      var e := items[req.key];
      if Dead(e, now, flushed) then (items[req.key := Overwritten(req, now, token, e)], Overwrote(e.stamp))
      else (items, Taken)
    else (items[req.key := NewEntry(req, now, token, ts)], Created)
  }

  /** items' is items but for key, and put says what happened to key. */
  ghost predicate Wrote(items: map<Key, Entry>, items': map<Key, Entry>, put: Put, req: Request, token: string,
                        ts: nat) {
    && (forall k :: k != req.key ==> (k in items' <==> k in items) && (k in items ==> items'[k] == items[k]))
    && (put.Created? || put.Overwrote? ==>
          req.key in items' && var e := items'[req.key]; e.value == req.value && e.flags == req.flags && e.cas == token)
    && (put.Created? ==> req.key !in items && items'[req.key].stamp == ts)
    && (put.Overwrote? ==> req.key in items && items'[req.key].stamp == items[req.key].stamp == put.prior)
    && (put.Mismatch? || put.Missing? || put.Taken? ==> items' == items)
  }

  lemma PutItemWrote(items: map<Key, Entry>, req: Request, now: nat, token: string, ts: nat)
    ensures var (items', put) := PutItem(items, req, now, token, ts); Wrote(items, items', put, req, token, ts)
  {
  }

  lemma AddItemWrote(items: map<Key, Entry>, req: Request, now: nat, flushed: nat, token: string, ts: nat)
    ensures var (items', put) := AddItem(items, req, now, flushed, token, ts); Wrote(items, items', put, req, token, ts)
  {
  }

  /** The map section of dbGetElement, src/dblru.cpp:630-651. */
  function FetchItem(items: map<Key, Entry>, key: Key, now: nat, flushed: nat, ts: nat)
    : (map<Key, Entry>, Option<Entry>)
  {
    if key !in items then (items, None)
    else
      var e := items[key];
      if Dead(e, now, flushed) then (items - {key}, None)
      else (items[key := e.(stamp := ts)], Some(e))
  }

  /** The map section of dbDeleteElement, src/dblru.cpp:582-610; true for SUCCESS. */
  function DeleteItem(items: map<Key, Entry>, key: Key, expiry: nat, now: nat, flushed: nat): (map<Key, Entry>, bool) {
    if key !in items || Dead(items[key], now, flushed) then (items, false)
    else if expiry == 0 then (items - {key}, true)
    else (items[key := items[key].(expiry := Wrap(now + expiry))], true)
  }
}
