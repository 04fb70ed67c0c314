/**
 * The byte count of the store against what the store holds. An item is worth its key, one stamp and its fields; an
 * index entry is worth its key and one stamp.
 */
module LruLedger {
  import opened Wrappers
  import opened LruModel
  import opened LruSequential
  import opened LruHistory
  import opened LruRuns
  import opened LruStatus

  // ---------- what the store holds ----------

  function Half(key: Key): nat {
    |key| + SIZEOF_STAMP
  }

  function ItemWorth(key: Key, e: Entry): nat {
    Half(key) + EntrySize(e)
  }

  ghost function ItemsWorth(items: map<Key, Entry>): nat {
    if items == map[] then 0
    else
      var k :| k in items;
      ItemWorth(k, items[k]) + ItemsWorth(items - {k})
  }

  function IndexWorth(index: seq<Stamp>): nat {
    if index == [] then 0 else Half(index[0].key) + IndexWorth(index[1..])
  }

  ghost function BucketWorth(b: Bucket): nat {
    ItemsWorth(b.items) + IndexWorth(b.index)
  }

  ghost function Worth(buckets: seq<Bucket>): nat {
    if buckets == [] then 0 else BucketWorth(buckets[0]) + Worth(buckets[1..])
  }

  lemma {:induction false} ItemsRemove(items: map<Key, Entry>, k: Key)
    requires k in items
    ensures ItemsWorth(items) == ItemWorth(k, items[k]) + ItemsWorth(items - {k})
  {
    hide ItemWorth;
    var j :| j in items && ItemsWorth(items) == ItemWorth(j, items[j]) + ItemsWorth(items - {j});
    if j != k {
      ItemsRemove(items - {j}, k);
      ItemsRemove(items - {k}, j);
      assert items - {j} - {k} == items - {k} - {j};
    }
  }

  /** Whatever was under k, e is there now. */
  lemma ItemsPut(items: map<Key, Entry>, k: Key, e: Entry)
    ensures ItemsWorth(items[k := e]) ==
            ItemWorth(k, e) + ItemsWorth(items) - (if k in items then ItemWorth(k, items[k]) else 0)
  {
    hide ItemWorth, ItemsWorth;
    ItemsRemove(items[k := e], k);
    assert items[k := e] - {k} == items - {k};
    if k in items {
      ItemsRemove(items, k);
    } else {
      assert items - {k} == items;
    }
  }

  lemma {:induction false} IndexRemove(index: seq<Stamp>, v: nat)
    requires v < |index|
    ensures IndexWorth(index) == Half(index[v].key) + IndexWorth(index[..v] + index[v + 1..])
  {
    hide Half;
    var rest := index[..v] + index[v + 1..];
    if v == 0 {
      assert rest == index[1..];
    } else {
      IndexRemove(index[1..], v - 1);
      assert rest[1..] == index[1..][..v - 1] + index[1..][v..];
    }
  }

  lemma {:induction false} IndexInsert(index: seq<Stamp>, s: Stamp)
    requires forall x :: x in index ==> x.at < s.at
    ensures IndexWorth(InsertStamp(index, s)) == IndexWorth(index) + Half(s.key)
  {
    hide Half;
    if index != [] {
      assert index[0] in index;
      assert forall x :: x in index[1..] ==> x in index;
      IndexInsert(index[1..], s);
    }
  }

  lemma {:induction false} IndexErase(index: seq<Stamp>, at: nat, k: Key)
    requires Ordered(index) && forall x :: x in index && x.at == at ==> x.key == k
    ensures IndexWorth(EraseStamp(index, at)) == IndexWorth(index) - (if HasStamp(index, at) then Half(k) else 0)
  {
    hide Half, Ordered, HasStamp;
    if index == [] {
      NothingStamped(at);
    } else {
      TailMembers(index, at);
      if index[0].at != at {
        IndexErase(index[1..], at, k);
      }
    }
  }

  lemma {:induction false} WorthUpdate(buckets: seq<Bucket>, h: nat, b: Bucket)
    requires h < |buckets|
    ensures Worth(buckets[h := b]) == Worth(buckets) - BucketWorth(buckets[h]) + BucketWorth(b)
  {
    hide BucketWorth;
    if h == 0 {
      assert buckets[h := b][1..] == buckets[1..];
    } else {
      assert buckets[h := b][1..] == buckets[1..][h - 1 := b];
      WorthUpdate(buckets[1..], h - 1, b);
    }
  }

  // ---------- stamps in a bucket ----------

  /** Every stamp was drawn before clock, and an index entry under an item's stamp is for that item's key. */
  ghost predicate Dated(b: Bucket, clock: nat) {
    && Ordered(b.index)
    && (forall x :: x in b.index ==> x.at < clock)
    && (forall k :: k in b.items ==> b.items[k].stamp < clock)
    && (forall k, x :: k in b.items && x in b.index && x.at == b.items[k].stamp ==> x.key == k)
  }

  ghost predicate AllDated(s: Store, clock: nat) {
    Shaped(s) && s.stored <= ULONG_MAX && forall h :: 0 <= h < BUCKETS ==> Dated(s.buckets[h], clock)
  }

  lemma FewerOrdered(index: seq<Stamp>, v: nat)
    requires Ordered(index) && v < |index|
    ensures var r := index[..v] + index[v + 1..]; Ordered(r) && forall x :: x in r ==> x in index
  {
    var r := index[..v] + index[v + 1..];
    assert forall i :: 0 <= i < |r| ==> r[i] == (if i < v then index[i] else index[i + 1]);
  }

  lemma DatedRemoved(b: Bucket, v: nat, clock: nat)
    requires Dated(b, clock) && v < |b.index|
    ensures Dated(WithoutStampAt(b, v), clock)
  {
    hide Ordered;
    FewerOrdered(b.index, v);
  }

  lemma RemovedWorth(b: Bucket, v: nat)
    requires v < |b.index|
    ensures BucketWorth(WithoutStampAt(b, v)) == BucketWorth(b) - Freed(b, v)
  {
    hide ItemsWorth, IndexWorth;
    IndexRemove(b.index, v);
    var key := b.index[v].key;
    if key in b.items {
      ItemsRemove(b.items, key);
    } else {
      assert b.items - {key} == b.items;
    }
  }

  // ---------- the gap between the count and the worth ----------

  ghost function Gap(s: Store): int {
    s.stored - Worth(s.buckets)
  }

  /** The count moved away from the worth by d, modulo 2^32. */
  ghost predicate Drifts(s: Store, s': Store, d: int) {
    Wrap(Gap(s')) == Wrap(Gap(s) + d)
  }

  lemma WrapSame(x: int, y: int, d: int)
    requires Wrap(x) == Wrap(y)
    ensures Wrap(x + d) == Wrap(y + d)
  {
    WrapAdd(x, d);
    WrapAdd(y, d);
  }

  lemma DriftsThen(s: Store, m: Store, s': Store, d: int, e: int)
    requires Drifts(s, m, d) && Drifts(m, s', e)
    ensures Drifts(s, s', d + e)
  {
    hide Wrap, Worth;
    WrapSame(Gap(m), Gap(s) + d, e);
    assert Gap(s) + d + e == Gap(s) + (d + e);
  }

  /** One bucket is replaced and the count moves by c, wrapping. */
  lemma BucketDrifts(s: Store, s': Store, h: nat, b: Bucket, c: int)
    requires Shaped(s) && h < BUCKETS && s'.buckets == s.buckets[h := b] && s'.stored == Wrap(s.stored + c)
    ensures Drifts(s, s', c + BucketWorth(s.buckets[h]) - BucketWorth(b))
  {
    hide BucketWorth, Worth, Wrap;
    WorthUpdate(s.buckets, h, b);
    WrapAdd(s.stored + c, 0 - Worth(s'.buckets));
    assert s.stored + c - Worth(s'.buckets) == Gap(s) + (c + BucketWorth(s.buckets[h]) - BucketWorth(b));
  }

  lemma StaysDated(b: Bucket, clock: nat, later: nat)
    requires Dated(b, clock) && clock <= later
    ensures Dated(b, later)
  {
  }

  /** An eviction gives back exactly what its victim was worth. */
  lemma EvictLedger(s: Store, clock: nat, h: nat, now: nat)
    requires AllDated(s, clock) && h < BUCKETS
    ensures AllDated(Evict(s, h, now), clock) && Drifts(s, Evict(s, h, now), 0) && Evict(s, h, now).limit == s.limit
  {
    hide Dated, Wrap, BucketWorth, Worth, Freed, Victim, Drifts;
    var b := s.buckets[h];
    if b.index == [] {
      DriftsNot(s);
    } else {
      var v := Victim(b, now, s.flushed);
      DatedRemoved(b, v, clock);
      RemovedWorth(b, v);
      BucketDrifts(s, Evict(s, h, now), h, WithoutStampAt(b, v), 0 - Freed(b, v));
    }
  }

  lemma DriftsNot(s: Store)
    ensures Drifts(s, s, 0)
  {
  }

  /** Making room never loses track, however much is evicted. */
  lemma {:induction false} MakeRoomLedger(s: Store, clock: nat, need: nat, home: nat, h: nat, now: nat,
                                          look: bool)
    requires AllDated(s, clock) && home < BUCKETS && h < BUCKETS
    ensures var r := MakeRoom(s, need, home, h, now, look).0;
      AllDated(r, clock) && Drifts(s, r, 0) && r.limit == s.limit
    decreases Total(s.buckets), Ahead(h, home)
  {
    hide Evict, Next, Ahead, Total, Wrap, AllDated, Drifts;
    AreShaped(s, clock);
    var r := MakeRoom(s, need, home, h, now, look).0;
    if Wrap(s.stored + need) < s.limit {
      DriftsNot(s);
    } else if s.buckets[h].index != [] {
      EvictTotal(s, h, now);
      EvictLedger(s, clock, h, now);
      MakeRoomLedger(Evict(s, h, now), clock, need, home, h, now, look);
      DriftsThen(s, Evict(s, h, now), r, 0, 0);
    } else {
      var g := Next(h);
      if g == home {
        DriftsNot(s);
      } else {
        NextAhead(h, home);
        if look {
          MakeRoomLedger(s, clock, need, home, g, now, look);
        } else {
          EvictTotal(s, g, now);
          EvictLedger(s, clock, g, now);
          MakeRoomLedger(Evict(s, g, now), clock, need, home, g, now, look);
          DriftsThen(s, Evict(s, g, now), r, 0, 0);
        }
      }
    }
  }

  lemma AreShaped(s: Store, clock: nat)
    requires AllDated(s, clock)
    ensures Shaped(s) && s.stored <= ULONG_MAX
  {
  }

  // ---------- one write, one fetch ----------

  /** A fresh item under a fresh stamp, or an item written over under its old stamp, and the index entry of ts. */
  lemma WriteLedger(b: Bucket, k: Key, e: Entry, ts: nat)
    requires Dated(b, ts) && (if k in b.items then e.stamp == b.items[k].stamp || e.stamp == ts else e.stamp == ts)
    ensures var erased := if k in b.items then EraseStamp(b.index, b.items[k].stamp) else b.index;
      var b' := Bucket(b.items[k := e], InsertStamp(erased, Stamp(ts, k)));
      && Dated(b', ts + 1)
      && BucketWorth(b') == BucketWorth(b) + ItemWorth(k, e)
         + (if k !in b.items then Half(k)
            else (if HasStamp(b.index, b.items[k].stamp) then 0 else Half(k)) - ItemWorth(k, b.items[k]))
  {
    hide ItemWorth, Half, ItemsWorth, IndexWorth, HasStamp, Ordered, EraseStamp, InsertStamp;
    ItemsPut(b.items, k, e);
    var erased := b.index;
    if k in b.items {
      var at := b.items[k].stamp;
      EraseStampCorrect(b.index, at);
      IndexErase(b.index, at, k);
      erased := EraseStamp(b.index, at);
    }
    InsertStampCorrect(erased, Stamp(ts, k));
    IndexInsert(erased, Stamp(ts, k));
  }

  /** An item goes and its index entry stays behind. */
  lemma ForgetLedger(b: Bucket, k: Key, ts: nat)
    requires Dated(b, ts) && k in b.items
    ensures var b' := Bucket(b.items - {k}, b.index);
      Dated(b', ts) && BucketWorth(b') == BucketWorth(b) - ItemWorth(k, b.items[k])
  {
    hide ItemWorth, ItemsWorth, IndexWorth, Ordered;
    ItemsRemove(b.items, k);
  }

  // ---------- how far each operation moves the count away ----------

  predicate Indexed(s: Store, k: Key, at: nat)
    requires Shaped(s)
  {
    HasStamp(s.buckets[BucketOf(k)].index, at)
  }

  /** What an overwrite or a renewal moves: nothing if the stamp it replaces is indexed, else an entry not counted. */
  function Renewal(s: Store, k: Key): int
    requires Shaped(s)
  {
    if ItemOf(s, k).Some? && !Indexed(s, k, ItemOf(s, k).value.stamp) then 0 - Half(k) else 0
  }

  /** A new element is counted with its expiry, which no eviction gives back. */
  function InsertDrift(s: Store, req: Request, now: nat, token: string): int
    requires Shaped(s)
  {
    var room := InsertRoom(s, req, now, token).0;
    if Insert(s, req, now, token).1 != SUCCESS then 0
    else if ItemOf(room, req.key).None? then SIZEOF_STAMP
    else Renewal(room, req.key)
  }

  /** An add over a dead item leaves the count alone, whatever the sizes. */
  function AddDrift(s: Store, req: Request, now: nat, token: string): int
    requires Shaped(s)
  {
    var room := AddRoom(s, req, now).0;
    var was := ItemOf(room, req.key);
    if Add(s, req, now, token).1 != SUCCESS then 0
    else if was.None? then SIZEOF_STAMP
    else Renewal(room, req.key) + EntrySize(was.value) - (|token| + |req.flags| + |req.value|)
  }

  /** A deleted item is never taken off the count; its index entry is, when it is evicted. */
  function DeleteDrift(s: Store, k: Key, expiry: nat, now: nat): int
    requires Shaped(s)
  {
    if Live(s, k, now) && expiry == 0 then ItemWorth(k, ItemOf(s, k).value) else 0
  }

  /** Nor is a dead item that a get drops. */
  function GetDrift(s: Store, k: Key, now: nat): int
    requires Shaped(s)
  {
    if Live(s, k, now) then Renewal(s, k)
    else if ItemOf(s, k).Some? then ItemWorth(k, ItemOf(s, k).value)
    else 0
  }

  function Drift(s: Store, op: Op): int
    requires Shaped(s)
  {
    match op
    case DoInsert(req, now, token) => InsertDrift(s, req, now, token)
    case DoAdd(req, now, token) => AddDrift(s, req, now, token)
    case DoDelete(key, expiry, now) => DeleteDrift(s, key, expiry, now)
    case DoGet(key, now) => GetDrift(s, key, now)
    case DoSetFlush(_, _) => 0
    case DoHandleFlush(_) => 0
  }

  lemma TickLedger(s: Store, clock: nat)
    requires AllDated(s, clock)
    ensures AllDated(Tick(s), clock) && Drifts(s, Tick(s), 0)
  {
    hide Dated, Worth;
  }

  lemma AllDatedWith(s: Store, s': Store, h: nat, b: Bucket, clock: nat)
    requires AllDated(s, clock) && h < BUCKETS && s'.buckets == s.buckets[h := b] && Dated(b, clock + 1)
    requires s'.stored <= ULONG_MAX
    ensures AllDated(s', clock + 1)
  {
    hide Dated;
    forall g | 0 <= g < BUCKETS
      ensures Dated(s'.buckets[g], clock + 1)
    {
      StaysDated(s.buckets[g], clock, clock + 1);
    }
  }

  lemma AllDatedLater(s: Store, clock: nat)
    requires AllDated(s, clock)
    ensures AllDated(s, clock + 1)
  {
    hide Dated;
    forall g | 0 <= g < BUCKETS
      ensures Dated(s.buckets[g], clock + 1)
    {
      StaysDated(s.buckets[g], clock, clock + 1);
    }
  }

  /** The bucket of k after e was written under it with stamp ts. */
  function PutBucket(s: Store, k: Key, e: Entry, ts: nat): Bucket
    requires Shaped(s)
  {
    var b := s.buckets[BucketOf(k)];
    var erased := if k in b.items then EraseStamp(b.index, b.items[k].stamp) else b.index;
    Bucket(b.items[k := e], InsertStamp(erased, Stamp(ts, k)))
  }

  /** The section that writes e under k with stamp ts, once there is room. */
  lemma PutLedger(room: Store, s': Store, k: Key, e: Entry, ts: nat, c: int)
    requires AllDated(room, ts)
    requires var was := ItemOf(room, k); if was.Some? then e.stamp in {was.value.stamp, ts} else e.stamp == ts
    requires s'.buckets == room.buckets[BucketOf(k) := PutBucket(room, k, e, ts)]
    requires s'.stored == Wrap(room.stored + c)
    ensures AllDated(s', ts + 1)
    ensures var was := ItemOf(room, k);
      var before := if was.None? then 0 - Half(k) else Renewal(room, k) + ItemWorth(k, was.value);
      Drifts(room, s', c - ItemWorth(k, e) + before)
  {
    hide Dated, BucketWorth, Worth, BucketOf, EraseStamp, InsertStamp, Wrap, Drifts, ItemWorth, Half, HasStamp;
    var h := BucketOf(k);
    WriteLedger(room.buckets[h], k, e, ts);
    AllDatedWith(room, s', h, s'.buckets[h], ts);
    BucketDrifts(room, s', h, s'.buckets[h], c);
  }

  lemma InsertRoomLedger(s: Store, req: Request, now: nat, token: string)
    requires AllDated(s, s.clock)
    ensures var room := InsertRoom(s, req, now, token).0;
      AllDated(room, s.clock) && Drifts(s, room, 0) && room.clock == s.clock + 1 && room.limit == s.limit
  {
    hide MakeRoom, AllDated, BucketOf, Wrap, Drifts;
    AreShaped(s, s.clock);
    var h := BucketOf(req.key);
    TickLedger(s, s.clock);
    MakeRoomLedger(Tick(s), s.clock, InsertNeed(req, token), h, h, now, true);
    MakeRoomThins(Tick(s), InsertNeed(req, token), h, h, now, true);
    DriftsThen(s, Tick(s), InsertRoom(s, req, now, token).0, 0, 0);
  }

  /** What a successful insert does once it has its room. */
  lemma InsertPuts(s: Store, req: Request, now: nat, token: string)
    requires Shaped(s)
    ensures var (s', status) := Insert(s, req, now, token);
      var room := InsertRoom(s, req, now, token).0;
      var was := ItemOf(room, req.key);
      && (status != SUCCESS ==> s' == room)
      && (status == SUCCESS ==>
            && ItemOf(s', req.key).Some?
            && var e := ItemOf(s', req.key).value;
               && EntrySize(e) == |token| + |req.flags| + |req.value|
               && e.stamp == (if was.Some? then was.value.stamp else s.clock)
               && s'.buckets == room.buckets[BucketOf(req.key) := PutBucket(room, req.key, e, s.clock)]
               && s'.clock == room.clock && s'.limit == room.limit
               && s'.stored == Wrap(room.stored + EntrySize(e)
                    + (if was.Some? then 0 - EntrySize(was.value) else 2 * Half(req.key) + SIZEOF_STAMP)))
  {
    var h := BucketOf(req.key);
    MakeRoomThins(Tick(s), InsertNeed(req, token), h, h, now, true);
    hide MakeRoom, BucketOf, InsertStamp, EraseStamp, Wrap, Thinned;
  }

  lemma InsertLedger(s: Store, req: Request, now: nat, token: string)
    requires AllDated(s, s.clock)
    ensures var s' := Insert(s, req, now, token).0;
      AllDated(s', s'.clock) && Drifts(s, s', InsertDrift(s, req, now, token)) && s'.limit == s.limit
  {
    hide AllDated, BucketOf, EraseStamp, InsertStamp, Wrap, Drifts, HasStamp, Insert, InsertRoom, Renewal, EntrySize;
    AreShaped(s, s.clock);
    var k, ts, room, s' := req.key, s.clock, InsertRoom(s, req, now, token).0, Insert(s, req, now, token).0;
    InsertRoomLedger(s, req, now, token);
    InsertPuts(s, req, now, token);
    AllDatedLater(room, ts);
    if Insert(s, req, now, token).1 == SUCCESS {
      var e, was := ItemOf(s', k).value, ItemOf(room, k);
      PutLedger(room, s', k, e, ts,
                EntrySize(e) + (if was.Some? then 0 - EntrySize(was.value) else 2 * Half(k) + SIZEOF_STAMP));
      DriftsThen(s, room, s', 0, InsertDrift(s, req, now, token));
    }
  }

  lemma AddRoomLedger(s: Store, req: Request, now: nat)
    requires AllDated(s, s.clock)
    ensures var room := AddRoom(s, req, now).0;
      AllDated(room, s.clock) && Drifts(s, room, 0) && room.clock == s.clock + 1 && room.limit == s.limit
  {
    hide MakeRoom, AllDated, BucketOf, Wrap, Drifts;
    AreShaped(s, s.clock);
    var h := BucketOf(req.key);
    TickLedger(s, s.clock);
    MakeRoomLedger(Tick(s), s.clock, AddNeed(req), h, h, now, false);
    MakeRoomThins(Tick(s), AddNeed(req), h, h, now, false);
    DriftsThen(s, Tick(s), AddRoom(s, req, now).0, 0, 0);
  }

  /** What a successful add does once it has its room. */
  lemma AddPuts(s: Store, req: Request, now: nat, token: string)
    requires Shaped(s)
    ensures var (s', status) := Add(s, req, now, token);
      var room := AddRoom(s, req, now).0;
      var was := ItemOf(room, req.key);
      && (status != SUCCESS ==> s' == room)
      && (status == SUCCESS ==>
            && ItemOf(s', req.key).Some?
            && var e := ItemOf(s', req.key).value;
               && EntrySize(e) == |token| + |req.flags| + |req.value|
               && e.stamp == (if was.Some? then was.value.stamp else s.clock)
               && s'.buckets == room.buckets[BucketOf(req.key) := PutBucket(room, req.key, e, s.clock)]
               && s'.clock == room.clock && s'.limit == room.limit
               && (was.Some? ==> s'.stored == room.stored)
               && (was.None? ==> s'.stored == Wrap(room.stored + EntrySize(e) + 2 * Half(req.key) + SIZEOF_STAMP)))
  {
    var h := BucketOf(req.key);
    MakeRoomThins(Tick(s), AddNeed(req), h, h, now, false);
    hide MakeRoom, BucketOf, InsertStamp, EraseStamp, Wrap, Thinned;
  }

  lemma AddLedger(s: Store, req: Request, now: nat, token: string)
    requires AllDated(s, s.clock)
    ensures var s' := Add(s, req, now, token).0;
      AllDated(s', s'.clock) && Drifts(s, s', AddDrift(s, req, now, token)) && s'.limit == s.limit
  {
    hide AllDated, BucketOf, EraseStamp, InsertStamp, Wrap, Drifts, HasStamp, Add, AddRoom, Renewal, EntrySize;
    AreShaped(s, s.clock);
    var k, ts, room, s' := req.key, s.clock, AddRoom(s, req, now).0, Add(s, req, now, token).0;
    AddRoomLedger(s, req, now);
    AddPuts(s, req, now, token);
    AllDatedLater(room, ts);
    if Add(s, req, now, token).1 == SUCCESS {
      var e, was := ItemOf(s', k).value, ItemOf(room, k);
      AreShaped(room, ts);
      WrapNot(room.stored);
      PutLedger(room, s', k, e, ts, if was.Some? then 0 else EntrySize(e) + 2 * Half(k) + SIZEOF_STAMP);
      DriftsThen(s, room, s', 0, AddDrift(s, req, now, token));
    }
  }

  /** The item of k goes, its index entry and the count stay. */
  lemma DropLedger(s: Store, s': Store, k: Key, clock: nat)
    requires AllDated(s, clock) && ItemOf(s, k).Some? && s'.stored == s.stored
    requires var b := s.buckets[BucketOf(k)];
      s'.buckets == s.buckets[BucketOf(k) := Bucket(b.items - {k}, b.index)]
    ensures AllDated(s', clock) && Drifts(s, s', ItemWorth(k, ItemOf(s, k).value))
  {
    hide Dated, BucketWorth, Worth, BucketOf, Drifts, ItemWorth;
    var h := BucketOf(k);
    ForgetLedger(s.buckets[h], k, clock);
    BucketDrifts(s, s', h, s'.buckets[h], 0);
  }

  /** The item of k changes in its expiry alone. */
  lemma ExpiryLedger(s: Store, s': Store, k: Key, e: Entry, clock: nat)
    requires AllDated(s, clock) && ItemOf(s, k).Some? && s'.stored == s.stored
    requires EntrySize(e) == EntrySize(ItemOf(s, k).value) && e.stamp == ItemOf(s, k).value.stamp
    requires var b := s.buckets[BucketOf(k)];
      s'.buckets == s.buckets[BucketOf(k) := Bucket(b.items[k := e], b.index)]
    ensures AllDated(s', clock) && Drifts(s, s', 0)
  {
    hide Worth, BucketOf, Drifts, Ordered, ItemsWorth, IndexWorth, EntrySize;
    var h := BucketOf(k);
    ItemsPut(s.buckets[h].items, k, e);
    BucketDrifts(s, s', h, s'.buckets[h], 0);
  }

  lemma DeleteLedger(s: Store, k: Key, expiry: nat, now: nat)
    requires AllDated(s, s.clock)
    ensures var s' := Delete(s, k, expiry, now).0;
      AllDated(s', s'.clock) && Drifts(s, s', DeleteDrift(s, k, expiry, now)) && s'.limit == s.limit
  {
    hide AllDated, BucketOf, Drifts, Wrap, ItemWorth;
    AreShaped(s, s.clock);
    var s', b := Delete(s, k, expiry, now).0, s.buckets[BucketOf(k)];
    if !Live(s, k, now) {
      assert s' == s by { assert s.buckets[BucketOf(k) := b] == s.buckets; }
      DriftsNot(s);
    } else if expiry == 0 {
      DropLedger(s, s', k, s.clock);
    } else {
      ExpiryLedger(s, s', k, b.items[k].(expiry := Wrap(now + expiry)), s.clock);
    }
  }

  lemma GetLedger(s: Store, k: Key, now: nat)
    requires AllDated(s, s.clock)
    ensures var s' := Get(s, k, now).0;
      AllDated(s', s'.clock) && Drifts(s, s', GetDrift(s, k, now)) && s'.limit == s.limit
  {
    hide AllDated, BucketOf, Drifts, Wrap, ItemWorth, EraseStamp, InsertStamp, Renewal;
    AreShaped(s, s.clock);
    var s', b := Get(s, k, now).0, s.buckets[BucketOf(k)];
    if ItemOf(s, k).None? {
      assert s' == Tick(s) by { assert s.buckets[BucketOf(k) := b] == s.buckets; }
      TickLedger(s, s.clock);
      AllDatedLater(Tick(s), s.clock);
    } else if !Live(s, k, now) {
      DropLedger(s, s', k, s.clock);
      AllDatedLater(s', s.clock);
    } else {
      var e := b.items[k].(stamp := s.clock);
      WrapNot(s.stored);
      PutLedger(s, s', k, e, s.clock, 0);
      assert ItemWorth(k, e) == ItemWorth(k, b.items[k]) by { SameWorth(k, e, b.items[k]); }
    }
  }

  lemma WrapNot(x: nat)
    requires x <= ULONG_MAX
    ensures Wrap(x) == x
  {
  }

  lemma SameWorth(k: Key, e: Entry, f: Entry)
    requires EntrySize(e) == EntrySize(f)
    ensures ItemWorth(k, e) == ItemWorth(k, f)
  {
  }

  /** Every operation, whatever it evicts, moves the count away from the worth by exactly its drift. */
  lemma PerformLedger(s: Store, op: Op)
    requires AllDated(s, s.clock)
    ensures var s' := Perform(s, op).0;
      AllDated(s', s'.clock) && Drifts(s, s', Drift(s, op)) && s'.limit == s.limit
  {
    hide Insert, Add, Delete, Get, Drifts, AllDated, InsertDrift, AddDrift, DeleteDrift, GetDrift;
    AreShaped(s, s.clock);
    match op
    case DoInsert(req, now, token) => InsertLedger(s, req, now, token);
    case DoAdd(req, now, token) => AddLedger(s, req, now, token);
    case DoDelete(key, expiry, now) => DeleteLedger(s, key, expiry, now);
    case DoGet(key, now) => GetLedger(s, key, now);
    case DoSetFlush(expiry, now) => FlushLedger(s, SetFlush(s, expiry, now));
    case DoHandleFlush(now) => FlushLedger(s, HandleFlush(s, now));
  }

  lemma FlushLedger(s: Store, s': Store)
    requires AllDated(s, s.clock) && s'.buckets == s.buckets && s'.stored == s.stored && s.clock <= s'.clock
    ensures AllDated(s', s'.clock) && Drifts(s, s', 0)
  {
    hide Dated, Worth;
    forall g | 0 <= g < BUCKETS
      ensures Dated(s'.buckets[g], s'.clock)
    {
      StaysDated(s.buckets[g], s.clock, s'.clock);
    }
  }

  // ---------- recency ----------

  lemma {:induction false} NewestLast(index: seq<Stamp>, x: Stamp)
    requires forall y :: y in index ==> y.at < x.at
    ensures InsertStamp(index, x) == index + [x]
  {
    if index != [] {
      assert index[0] in index;
      assert forall y :: y in index[1..] ==> y in index;
      NewestLast(index[1..], x);
      assert index == [index[0]] + index[1..];
    }
  }

  lemma PutIsNewest(room: Store, k: Key, e: Entry, ts: nat)
    requires AllDated(room, ts)
    ensures var b, b' := room.buckets[BucketOf(k)], PutBucket(room, k, e, ts);
      && b'.index != [] && b'.index[|b'.index| - 1] == Stamp(ts, k) && Ordered(b'.index)
      && forall x :: x in b'.index <==>
           x == Stamp(ts, k) || (x in b.index && (k in b.items ==> x.at != b.items[k].stamp))
  {
    hide BucketOf, EraseStamp, InsertStamp, Ordered;
    var b := room.buckets[BucketOf(k)];
    assert Dated(b, ts);
    var erased := b.index;
    if k in b.items {
      EraseStampCorrect(b.index, b.items[k].stamp);
      erased := EraseStamp(b.index, b.items[k].stamp);
    }
    NewestLast(erased, Stamp(ts, k));
    InsertStampCorrect(erased, Stamp(ts, k));
  }

  /** The key an operation has stored or fetched is the newest of its bucket. */
  lemma UsedIsNewest(s: Store, op: Op)
    requires AllDated(s, s.clock) && (Perform(s, op).1.Stored? || Perform(s, op).1.Fetched?)
    ensures var k := Perform(s, op).1.key;
      var index := Perform(s, op).0.buckets[BucketOf(k)].index;
      index != [] && index[|index| - 1] == Stamp(s.clock, k)
  {
    hide Insert, Add, AllDated, BucketOf, EraseStamp, InsertStamp, InsertRoom, AddRoom, Wrap, PutBucket;
    AreShaped(s, s.clock);
    match op
    case DoInsert(req, now, token) =>
      var room := InsertRoom(s, req, now, token).0;
      InsertRoomLedger(s, req, now, token);
      InsertPuts(s, req, now, token);
      PutIsNewest(room, req.key, ItemOf(Insert(s, req, now, token).0, req.key).value, s.clock);
    case DoAdd(req, now, token) =>
      var room := AddRoom(s, req, now).0;
      AddRoomLedger(s, req, now);
      AddPuts(s, req, now, token);
      PutIsNewest(room, req.key, ItemOf(Add(s, req, now, token).0, req.key).value, s.clock);
    case DoGet(key, now) =>
      GetPuts(s, key, now);
      PutIsNewest(s, key, ItemOf(Get(s, key, now).0, key).value, s.clock);
    case _ =>
  }

  lemma GetPuts(s: Store, k: Key, now: nat)
    requires Shaped(s) && Live(s, k, now)
    ensures var s' := Get(s, k, now).0;
      ItemOf(s', k).Some? && s'.buckets[BucketOf(k)] == PutBucket(s, k, ItemOf(s', k).value, s.clock)
  {
    hide BucketOf, EraseStamp, InsertStamp;
  }

  // ---------- whole runs ----------

  /** The drift of the first i operations of a run. */
  function TotalDrift(states: seq<Store>, ops: seq<Op>, i: nat): int
    requires i <= |ops| <= |states| && forall j :: 0 <= j < |states| ==> Shaped(states[j])
  {
    if i == 0 then 0 else TotalDrift(states, ops, i - 1) + Drift(states[i - 1], ops[i - 1])
  }

  lemma {:induction false} NothingWorth(buckets: seq<Bucket>)
    requires forall h :: 0 <= h < |buckets| ==> buckets[h] == Bucket(map[], [])
    ensures Worth(buckets) == 0
  {
    if buckets != [] {
      NothingWorth(buckets[1..]);
    }
  }

  lemma EmptyLedger(limit: nat)
    ensures AllDated(Empty(limit), 0) && Gap(Empty(limit)) == 0
  {
    NothingWorth(Empty(limit).buckets);
  }

  lemma {:induction false} RunDrifts(states: seq<Store>, events: seq<Event>, ops: seq<Op>, limit: nat, i: nat)
    requires IsRun(states, events, ops, limit) && i < |states|
    ensures AllDated(states[i], states[i].clock) && states[i].limit == limit
    ensures Drifts(states[0], states[i], TotalDrift(states, ops, i))
  {
    hide AllDated, Drifts, Perform, Drift;
    if i == 0 {
      EmptyLedger(limit);
      DriftsNot(states[0]);
    } else {
      RunDrifts(states, events, ops, limit, i - 1);
      assert Performed(states[i - 1], ops[i - 1], states[i], events[i - 1]);
      PerformLedger(states[i - 1], ops[i - 1]);
      DriftsThen(states[0], states[i - 1], states[i], TotalDrift(states, ops, i - 1), Drift(states[i - 1], ops[i - 1]));
    }
  }

  /** In every run the count is what the store holds and the drifts of the operations so far, modulo 2^32. */
  lemma CountIsWorthAndDrift(states: seq<Store>, events: seq<Event>, ops: seq<Op>, limit: nat, i: nat)
    requires IsRun(states, events, ops, limit) && i < |states|
    ensures states[i].stored == Wrap(Worth(states[i].buckets) + TotalDrift(states, ops, i))
  {
    hide Drift, Worth, Wrap, Perform;
    RunDrifts(states, events, ops, limit, i);
    StartsEmpty(states, events, ops, limit);
    EmptyLedger(limit);
    WrapSame(Gap(states[i]), TotalDrift(states, ops, i), Worth(states[i].buckets));
    AreShaped(states[i], states[i].clock);
    WrapNot(states[i].stored);
  }

  lemma StartsEmpty(states: seq<Store>, events: seq<Event>, ops: seq<Op>, limit: nat)
    requires IsRun(states, events, ops, limit)
    ensures states[0] == Empty(limit)
  {
  }

  /** So while no operation has moved it down and it has not wrapped, the count covers what the store holds. */
  lemma CountCovers(states: seq<Store>, events: seq<Event>, ops: seq<Op>, limit: nat, i: nat)
    requires IsRun(states, events, ops, limit) && i < |states|
    requires forall j :: 0 <= j < i ==> Drift(states[j], ops[j]) >= 0
    requires Worth(states[i].buckets) + TotalDrift(states, ops, i) <= ULONG_MAX
    ensures Worth(states[i].buckets) <= states[i].stored
  {
    hide Drift, Worth, Perform;
    CountIsWorthAndDrift(states, events, ops, limit, i);
    DriftsUp(states, ops, i);
  }

  lemma {:induction false} DriftsUp(states: seq<Store>, ops: seq<Op>, i: nat)
    requires i <= |ops| <= |states| && forall j :: 0 <= j < |states| ==> Shaped(states[j])
    requires forall j :: 0 <= j < i ==> Drift(states[j], ops[j]) >= 0
    ensures TotalDrift(states, ops, i) >= 0
  {
    hide Drift;
    if i > 0 {
      DriftsUp(states, ops, i - 1);
    }
  }

  /** The operations that move it down: those that leave an index entry uncounted, and an add of more than was there. */
  lemma DriftsDownIff(s: Store, op: Op)
    requires Shaped(s)
    ensures Drift(s, op) < 0 <==>
      match op
      case DoInsert(req, now, token) =>
        var room := InsertRoom(s, req, now, token).0;
        Insert(s, req, now, token).1 == SUCCESS && Uncounted(room, req.key)
      case DoAdd(req, now, token) =>
        var room := AddRoom(s, req, now).0;
        && Add(s, req, now, token).1 == SUCCESS && ItemOf(room, req.key).Some?
        && EntrySize(ItemOf(room, req.key).value)
           < |token| + |req.flags| + |req.value| + (if Uncounted(room, req.key) then Half(req.key) else 0)
      case DoGet(key, now) => Live(s, key, now) && Uncounted(s, key)
      case _ => false
  {
    hide Insert, Add, InsertRoom, AddRoom, HasStamp, BucketOf;
  }

  /** The key has an item whose stamp is not in the index: it was overwritten and not fetched since. */
  predicate Uncounted(s: Store, k: Key)
    requires Shaped(s)
  {
    ItemOf(s, k).Some? && !Indexed(s, k, ItemOf(s, k).value.stamp)
  }

  // ---------- the memory limit ----------

  /** An insert that creates its item leaves the count below the limit, and so what it covers. */
  lemma CreatedWithinLimit(s: Store, req: Request, now: nat, token: string)
    requires AllDated(s, s.clock) && Insert(s, req, now, token).1 == SUCCESS
    requires ItemOf(InsertRoom(s, req, now, token).0, req.key).None?
    ensures Insert(s, req, now, token).0.stored < s.limit
  {
    hide AllDated, MakeRoom, Insert, BucketOf, Wrap, Drifts;
    AreShaped(s, s.clock);
    var h := BucketOf(req.key);
    InsertRoomLedger(s, req, now, token);
    InsertPuts(s, req, now, token);
    InsertAnswers(s, req, now, token);
    NothingPassed(Tick(s), h);
    MakeRoomOutcome(Tick(s), InsertNeed(req, token), h, h, now, true);
  }

  /** An add of a key that is not there, with room for it. */
  lemma FreshAdd(s: Store, req: Request, now: nat, token: string)
    requires AllDated(s, s.clock) && ItemOf(s, req.key).None? && Wrap(s.stored + AddNeed(req)) < s.limit
    ensures var (r, status) := Add(s, req, now, token);
      && status == SUCCESS && AllDated(r, r.clock) && Drifts(s, r, SIZEOF_STAMP) && SameBut(s, r, req.key)
      && r.clock == s.clock + 1 && r.limit == s.limit && r.flushed == s.flushed
      && r.stored == Wrap(s.stored + |token| + |req.flags| + |req.value| + 2 * Half(req.key) + SIZEOF_STAMP)
      && ItemOf(r, req.key).Some? && Carries(ItemOf(r, req.key).value, req, token, now, None, s.clock)
      && Indexed(r, req.key, s.clock)
  {
    hide AllDated, BucketOf, Wrap, Drifts, Add, InsertStamp;
    AreShaped(s, s.clock);
    assert AddRoom(s, req, now) == (Tick(s), true);
    TickKeeps(s);
    AddAnswers(s, req, now, token);
    AddPuts(s, req, now, token);
    AddLedger(s, req, now, token);
    AddFlushed(s, req, now, token);
    StampInserted(s.buckets[BucketOf(req.key)].index, Stamp(s.clock, req.key));
  }

  lemma {:induction false} StampInserted(index: seq<Stamp>, x: Stamp)
    ensures HasStamp(InsertStamp(index, x), x.at)
  {
    if index == [] || x.at <= index[0].at {
      assert InsertStamp(index, x)[0].at == x.at;
    } else {
      StampInserted(index[1..], x);
      var i :| 0 <= i < |InsertStamp(index[1..], x)| && InsertStamp(index[1..], x)[i].at == x.at;
      assert InsertStamp(index, x)[i + 1].at == x.at;
    }
  }

  lemma AddFlushed(s: Store, req: Request, now: nat, token: string)
    requires Shaped(s)
    ensures Add(s, req, now, token).0.flushed == s.flushed
  {
    var h := BucketOf(req.key);
    MakeRoomThins(Tick(s), AddNeed(req), h, h, now, false);
    hide MakeRoom, BucketOf, InsertStamp, EraseStamp, Wrap;
  }

  /** An add over a dead item whose stamp is indexed, with room for it. */
  lemma DeadAdd(s: Store, req: Request, now: nat, token: string)
    requires AllDated(s, s.clock) && ItemOf(s, req.key).Some? && !Live(s, req.key, now)
    requires Indexed(s, req.key, ItemOf(s, req.key).value.stamp) && Wrap(s.stored + AddNeed(req)) < s.limit
    ensures var (r, status) := Add(s, req, now, token);
      && status == SUCCESS && AllDated(r, r.clock) && SameBut(s, r, req.key)
      && r.limit == s.limit && r.flushed == s.flushed && r.stored == s.stored
      && Drifts(s, r, EntrySize(ItemOf(s, req.key).value) - (|token| + |req.flags| + |req.value|))
      && ItemOf(r, req.key).Some? && Carries(ItemOf(r, req.key).value, req, token, now, ItemOf(s, req.key), s.clock)
  {
    hide AllDated, BucketOf, Wrap, Drifts, Add, InsertStamp, EraseStamp, EntrySize, HasStamp;
    AreShaped(s, s.clock);
    assert AddRoom(s, req, now) == (Tick(s), true);
    TickKeeps(s);
    AddAnswers(s, req, now, token);
    AddPuts(s, req, now, token);
    AddLedger(s, req, now, token);
    AddFlushed(s, req, now, token);
  }

  /** An insert of a key that is not there, with room for it. */
  lemma FreshInsert(s: Store, req: Request, now: nat, token: string)
    requires AllDated(s, s.clock) && ItemOf(s, req.key).None? && Wrap(s.stored + InsertNeed(req, token)) < s.limit
    requires req.cas == ""
    ensures var (r, status) := Insert(s, req, now, token);
      && status == SUCCESS && Drifts(s, r, SIZEOF_STAMP) && SameBut(s, r, req.key) && r.limit == s.limit
      && r.stored == Wrap(s.stored + InsertNeed(req, token))
  {
    hide AllDated, BucketOf, Wrap, Drifts, Insert, InsertStamp, EraseStamp;
    AreShaped(s, s.clock);
    assert InsertRoom(s, req, now, token) == (Tick(s), true);
    TickKeeps(s);
    InsertAnswers(s, req, now, token);
    InsertPuts(s, req, now, token);
    InsertLedger(s, req, now, token);
  }

  /**
   * The limit can be exceeded: a small item expires, an add writes a large value over it without counting it, and a
   * second large value is let in beside it. The store holds 1822 bytes under a limit of 1000 and counts 931.
   */
  lemma LimitExceeded(k: Key, j: Key, big: string)
    requires |k| == |j| == 1 && k != j && |big| == 900
    ensures var (s1, first) := Add(Empty(1000), Request(k, "", "", "a", 1), 5, "1");
      var (s2, second) := Add(s1, Request(k, "", "", big, 100), 7, "2");
      var (s3, third) := Insert(s2, Request(j, "", "", big, 100), 7, "3");
      && first == second == third == SUCCESS
      && s3.limit == 1000 && s3.stored == 931 && Worth(s3.buckets) >= 1822
  {
    hide AllDated, BucketOf, Drifts, Insert, Add, Worth, LruRuns.ItemOf, Live, Carries, Empty, Indexed, SameBut;
    var s0 := Empty(1000);
    EmptyLedger(1000);
    EmptyHas(1000, k);
    EmptyHas(1000, j);
    SmallAdd(s0, k, j);
    var s1 := Add(s0, Request(k, "", "", "a", 1), 5, "1").0;
    DeadAdd(s1, Request(k, "", "", big, 100), 7, "2");
    var s2 := Add(s1, Request(k, "", "", big, 100), 7, "2").0;
    assert ItemOf(s2, j).None? by { OthersSame(s1, s2, k, j); }
    FreshInsert(s2, Request(j, "", "", big, 100), 7, "3");
    var s3 := Insert(s2, Request(j, "", "", big, 100), 7, "3").0;
    DriftsThen(s0, s1, s2, 4, -899);
    DriftsThen(s0, s2, s3, -895, 4);
    WorthFrom(s0, s3, -891);
  }

  lemma OthersSame(s: Store, t: Store, k: Key, j: Key)
    requires Shaped(s) && Shaped(t) && SameBut(s, t, k) && j != k
    ensures ItemOf(t, j) == ItemOf(s, j)
  {
  }

  lemma EmptyHas(limit: nat, k: Key)
    ensures var s := Empty(limit);
      Shaped(s) && s.stored == 0 && s.limit == limit && s.clock == 0 && ItemOf(s, k).None?
  {
    hide BucketOf;
  }

  /** The first step of that run. */
  lemma SmallAdd(s0: Store, k: Key, j: Key)
    requires AllDated(s0, 0) && s0.stored == 0 && s0.limit == 1000 && s0.clock == 0
    requires |k| == 1 && k != j && ItemOf(s0, k).None? && ItemOf(s0, j).None?
    ensures var (s, status) := Add(s0, Request(k, "", "", "a", 1), 5, "1");
      && status == SUCCESS && s.stored == 16 && s.limit == 1000
      && AllDated(s, s.clock) && Drifts(s0, s, 4) && ItemOf(s, j).None?
      && ItemOf(s, k).Some? && !Live(s, k, 7) && EntrySize(ItemOf(s, k).value) == 2
      && Indexed(s, k, ItemOf(s, k).value.stamp)
  {
    hide AllDated, BucketOf, Drifts, Add, LruRuns.ItemOf, Worth, Indexed;
    FreshAdd(s0, Request(k, "", "", "a", 1), 5, "1");
  }

  lemma WorthFrom(s: Store, s': Store, d: int)
    requires Gap(s) == 0 && Drifts(s, s', d) && 0 <= s'.stored - d <= ULONG_MAX
    ensures Worth(s'.buckets) >= s'.stored - d
  {
    hide Worth;
    var w := Worth(s'.buckets);
    assert Wrap(s'.stored - w) == Wrap(d);
    WrapSame(s'.stored - w, d, w - d);
    WrapNot(s'.stored - d);
  }
}
