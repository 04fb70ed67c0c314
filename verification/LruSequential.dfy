/** The store run by one thread: every operation as a function on the whole store. */
module LruSequential {
  import opened Wrappers
  import opened LruModel

  datatype Store = Store(buckets: seq<Bucket>, clock: nat, stored: nat, limit: nat,
                         flushed: nat, flushTime: nat, flushSet: bool)

  datatype Status = SUCCESS | MEMORY_FULL | EXIST | NOT_EXIST

  predicate Shaped(s: Store) {
    |s.buckets| == BUCKETS
  }

  function Empty(limit: nat): Store {
    Store(seq(BUCKETS, _ => Bucket(map[], [])), 0, 0, limit, 0, 0, false)
  }

  // ---------- sizes, as the code adds and subtracts them ----------

  function EntrySize(e: Entry): nat {
    |e.cas| + |e.flags| + |e.value|
  }

  function Freed(b: Bucket, v: nat): nat
    requires v < |b.index|
  {
    var key := b.index[v].key;
    if key in b.items then 2 * |key| + 2 * SIZEOF_STAMP + EntrySize(b.items[key]) else |key| + SIZEOF_STAMP
  }

  function InsertNeed(req: Request, token: string): nat {
    2 * |req.key| + 2 * SIZEOF_STAMP + |req.flags| + |token| + SIZEOF_STAMP + |req.value|
  }

  function AddNeed(req: Request): nat {
    2 * |req.key| + 2 * SIZEOF_STAMP + SIZEOF_STAMP + |req.value|
  }

  // ---------- eviction ----------

  /** removeLRUElement on one bucket. */
  function Evict(s: Store, h: nat, now: nat): (r: Store)
    requires Shaped(s) && h < BUCKETS
    ensures Shaped(r)
  {
    var b := s.buckets[h];
    if b.index == [] then s
    else s.(buckets := s.buckets[h := RemoveLru(b, now, s.flushed)],
            stored := Wrap(s.stored - Freed(b, Victim(b, now, s.flushed))))
  }

  function Total(buckets: seq<Bucket>): nat {
    if buckets == [] then 0 else |buckets[0].index| + Total(buckets[1..])
  }

  lemma {:induction false} TotalUpdate(buckets: seq<Bucket>, h: nat, b: Bucket)
    requires h < |buckets|
    ensures Total(buckets[h := b]) == Total(buckets) - |buckets[h].index| + |b.index|
  {
    if h == 0 {
      assert buckets[h := b][1..] == buckets[1..];
    } else {
      assert buckets[h := b][1..] == buckets[1..][h - 1 := b];
      TotalUpdate(buckets[1..], h - 1, b);
    }
  }

  lemma EvictTotal(s: Store, h: nat, now: nat)
    requires Shaped(s) && h < BUCKETS
    ensures Total(Evict(s, h, now).buckets) == Total(s.buckets) - (if s.buckets[h].index == [] then 0 else 1)
  {
    TotalUpdate(s.buckets, h, RemoveLru(s.buckets[h], now, s.flushed));
  }

  function Next(h: nat): (r: nat)
    requires h < BUCKETS
    ensures r < BUCKETS
  {
    if h != BUCKETS - 1 then h + 1 else 0
  }

  /** How many buckets lie between h and home, going round. */
  function Ahead(h: nat, home: nat): nat
    requires h < BUCKETS && home < BUCKETS
  {
    if h < home then home - h - 1 else home + BUCKETS - 1 - h
  }

  /**
   * The loop that frees space: evict from bucket h while it has index entries, else move on; give up on
   * coming back to home. The loop of add evicts from the next bucket without looking at its size first.
   */
  function MakeRoom(s: Store, need: nat, home: nat, h: nat, now: nat, look: bool): (r: (Store, bool))
    requires Shaped(s) && home < BUCKETS && h < BUCKETS
    ensures Shaped(r.0)
    decreases Total(s.buckets), Ahead(h, home)
  {
    if Wrap(s.stored + need) < s.limit then (s, true)
    else if s.buckets[h].index != [] then
      EvictTotal(s, h, now);
      MakeRoom(Evict(s, h, now), need, home, h, now, look)
    else
      var g := Next(h);
      if g == home then (s, false)
      else if look then MakeRoom(s, need, home, g, now, look)
      else
        EvictTotal(s, g, now);
        MakeRoom(Evict(s, g, now), need, home, g, now, look)
  }

  // ---------- the operations ----------

  function WithBucket(s: Store, key: Key, items: map<Key, Entry>, index: seq<Stamp>): (r: Store)
    requires Shaped(s)
    ensures Shaped(r)
  {
    s.(buckets := s.buckets[BucketOf(key) := Bucket(items, index)])
  }

  function Tick(s: Store): Store {
    s.(clock := s.clock + 1)
  }

  function Insert(s: Store, req: Request, now: nat, token: string): (r: (Store, Status))
    requires Shaped(s)
    ensures Shaped(r.0)
  {
    var ts := s.clock;
    var h := BucketOf(req.key);
    var (s1, fits) := MakeRoom(Tick(s), InsertNeed(req, token), h, h, now, true);
    if !fits then (s1, MEMORY_FULL)
    else
      var b := s1.buckets[h];
      var (items, put) := PutItem(b.items, req, now, token, ts);
      match put
      case Mismatch => (s1, EXIST)
      case Taken => (s1, EXIST)
      case Missing => (s1, NOT_EXIST)
      case Created =>
        (WithBucket(s1, req.key, items, InsertStamp(b.index, Stamp(ts, req.key)))
         .(stored := Wrap(s1.stored + 2 * |req.key| + 2 * SIZEOF_STAMP + |token| + |req.flags| + SIZEOF_STAMP
                          + |req.value|)),
         SUCCESS)
      case Overwrote(prior) =>
        var diff := EntrySize(b.items[req.key]) - |token| - |req.flags| - |req.value|;
        (WithBucket(s1, req.key, items, InsertStamp(EraseStamp(b.index, prior), Stamp(ts, req.key)))
         .(stored := Wrap(s1.stored - diff)),
         SUCCESS)
  }

  function Add(s: Store, req: Request, now: nat, token: string): (r: (Store, Status))
    requires Shaped(s)
    ensures Shaped(r.0)
  {
    var ts := s.clock;
    var h := BucketOf(req.key);
    var (s1, fits) := MakeRoom(Tick(s), AddNeed(req), h, h, now, false);
    if !fits then (s1, MEMORY_FULL)
    else
      var b := s1.buckets[h];
      var (items, put) := AddItem(b.items, req, now, s1.flushed, token, ts);
      match put
      case Mismatch => (s1, EXIST)
      case Taken => (s1, EXIST)
      case Missing => (s1, NOT_EXIST)
      case Created =>
        (WithBucket(s1, req.key, items, InsertStamp(b.index, Stamp(ts, req.key)))
         .(stored := Wrap(s1.stored + 2 * |req.key| + 2 * SIZEOF_STAMP + |token| + |req.flags| + SIZEOF_STAMP
                          + |req.value|)),
         SUCCESS)
      case Overwrote(prior) =>
        (WithBucket(s1, req.key, items, InsertStamp(EraseStamp(b.index, prior), Stamp(ts, req.key))), SUCCESS)
  }

  function Delete(s: Store, key: Key, expiry: nat, now: nat): (r: (Store, Status))
    requires Shaped(s)
    ensures Shaped(r.0)
  {
    var b := s.buckets[BucketOf(key)];
    var (items, done) := DeleteItem(b.items, key, expiry, now, s.flushed);
    (WithBucket(s, key, items, b.index), if done then SUCCESS else NOT_EXIST)
  }

  /** The entry returned is the one found, before its stamp is renewed. */
  function Get(s: Store, key: Key, now: nat): (r: (Store, Option<Entry>))
    requires Shaped(s)
    ensures Shaped(r.0)
  {
    var ts := s.clock;
    var b := s.buckets[BucketOf(key)];
    var (items, found) := FetchItem(b.items, key, now, s.flushed, ts);
    match found
    case None => (WithBucket(Tick(s), key, items, b.index), None)
    case Some(e) =>
      (WithBucket(Tick(s), key, items, InsertStamp(EraseStamp(b.index, e.stamp), Stamp(ts, key))), Some(e))
  }

  function SetFlush(s: Store, expiry: nat, now: nat): Store {
    s.(flushSet := true, flushTime := Wrap(now + expiry))
  }

  predicate Fires(s: Store, now: nat) {
    s.flushSet && s.flushTime <= now
  }

  function HandleFlush(s: Store, now: nat): Store {
    if Fires(s, now) then s.(clock := s.clock + 1, flushed := s.clock + 1, flushSet := false) else s
  }

  // ---------- what an eviction removes, and where the loop ends ----------

  /**
   * An eviction takes exactly one index entry, one of the two oldest, together with its key's item: the first of the
   * two that is stale; if both are live the one with the larger value, the older on a tie; the only one there is.
   */
  lemma EvictionLaw(b: Bucket, now: nat, flushed: nat)
    requires Ordered(b.index) && b.index != []
    ensures var r := RemoveLru(b, now, flushed);
      exists v :: 0 <= v < 2 && v < |b.index|
        && r.index == b.index[..v] + b.index[v + 1..] && |r.index| == |b.index| - 1 && Ordered(r.index)
        && r.items == b.items - {b.index[v].key}
        && (forall x :: x in r.index && x.at < b.index[v].at ==> x == b.index[0])
        && (Stale(b, 0, now, flushed) || |b.index| == 1 ==> v == 0)
        && (!Stale(b, 0, now, flushed) && |b.index| > 1 ==>
              if Stale(b, 1, now, flushed) then v == 1
              else v == 1 <==> |b.items[b.index[0].key].value| < |b.items[b.index[1].key].value|)
  {
    hide Ordered, Dead;
    var v := Victim(b, now, flushed);
    var r := RemoveLru(b, now, flushed);
    RemovedAt(b.index, v);
    assert 0 <= v < 2 && r.index == b.index[..v] + b.index[v + 1..];
  }

  lemma RemovedAt(index: seq<Stamp>, v: nat)
    requires Ordered(index) && v < |index| && v < 2
    ensures var r := index[..v] + index[v + 1..];
      Ordered(r) && forall x :: x in r && x.at < index[v].at ==> x == index[0]
  {
    var r := index[..v] + index[v + 1..];
    assert forall i :: 0 <= i < |r| ==> r[i] == (if i < v then index[i] else index[i + 1]);
  }

  /** The buckets already passed on the way from home to h have empty indexes. */
  ghost predicate Passed(s: Store, home: nat, h: nat)
    requires Shaped(s) && home < BUCKETS && h < BUCKETS
  {
    forall g :: 0 <= g < BUCKETS && Ahead(g, home) > Ahead(h, home) ==> s.buckets[g].index == []
  }

  ghost predicate AllEmpty(s: Store)
    requires Shaped(s)
  {
    forall g :: 0 <= g < BUCKETS ==> s.buckets[g].index == []
  }

  lemma NothingPassed(s: Store, home: nat)
    requires Shaped(s) && home < BUCKETS
    ensures Passed(s, home, home)
  {
  }

  lemma PassedNext(s: Store, home: nat, h: nat)
    requires Shaped(s) && home < BUCKETS && h < BUCKETS && Passed(s, home, h) && s.buckets[h].index == []
    ensures Next(h) == home ==> AllEmpty(s)
    ensures Next(h) != home ==> Passed(s, home, Next(h)) && Ahead(Next(h), home) == Ahead(h, home) - 1
  {
  }

  lemma PassedEvict(s: Store, home: nat, h: nat, now: nat)
    requires Shaped(s) && home < BUCKETS && h < BUCKETS && Passed(s, home, h)
    ensures Passed(Evict(s, h, now), home, h)
  {
  }

  /** The loop ends with room for the element, or with nothing left to evict in any of the ten indexes. */
  lemma {:induction false} MakeRoomOutcome(s: Store, need: nat, home: nat, h: nat, now: nat, look: bool)
    requires Shaped(s) && home < BUCKETS && h < BUCKETS && Passed(s, home, h)
    ensures var (r, fits) := MakeRoom(s, need, home, h, now, look);
      (fits <==> Wrap(r.stored + need) < r.limit) && (!fits ==> AllEmpty(r))
    decreases Total(s.buckets), Ahead(h, home)
  {
    hide Evict, Next, Ahead, Passed, AllEmpty, Total, Wrap;
    if Wrap(s.stored + need) < s.limit {
    } else if s.buckets[h].index != [] {
      EvictTotal(s, h, now);
      PassedEvict(s, home, h, now);
      MakeRoomOutcome(Evict(s, h, now), need, home, h, now, look);
    } else {
      PassedNext(s, home, h);
      var g := Next(h);
      if g == home {
      } else if look {
        MakeRoomOutcome(s, need, home, g, now, look);
      } else {
        EvictTotal(s, g, now);
        PassedEvict(s, home, g, now);
        MakeRoomOutcome(Evict(s, g, now), need, home, g, now, look);
      }
    }
  }
}
