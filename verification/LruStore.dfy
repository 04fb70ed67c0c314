/** The store as the code keeps it: global maps, index sets and counters updated in place. */
module LruStore {
  import opened Wrappers
  import opened LruModel
  import opened LruSequential

  class Cache {
    var buckets: seq<Bucket>
    var clock: nat
    var stored: nat
    const limit: nat
    var flushed: nat
    var flushTime: nat
    var flushSet: bool

    function Contents(): Store
      reads this
    {
      Store(buckets, clock, stored, limit, flushed, flushTime, flushSet)
    }

    ghost predicate Valid()
      reads this
    {
      LruSequential.Shaped(Contents())
    }

    constructor (memLimit: nat)
      ensures Valid() && Contents() == Empty(memLimit)
    {
      buckets := seq(BUCKETS, _ => Bucket(map[], []));
      clock, stored, flushed, flushTime, flushSet := 0, 0, 0, 0, false;
      limit := memLimit;
    }

    /** getHashTblNbrFromKey. */
    static method HashTblNbrFromKey(key: Key) returns (h: nat)
      ensures h == BucketOf(key)
    {
      var maxLen := |key|;
      var tableNbr := 0;
      var i: nat := if maxLen < 5 then 0 else maxLen - 5;
      ghost var start := i;
      while i < maxLen
        invariant start <= i <= maxLen && tableNbr == Wrap(CharSum(key, start, i))
      {
        WrapAdd(CharSum(key, start, i), CharValue(key[i]));
        tableNbr := Wrap(tableNbr + CharValue(key[i]));
        i := i + 1;
      }
      h := tableNbr % BUCKETS;
    }

    /** removeLRUElement: scan for the first stale entry among the two oldest, else compare their sizes. */
    method RemoveLruElement(h: nat, now: nat)
      requires Valid() && h < BUCKETS
      modifies this
      ensures Valid() && Contents() == Evict(old(Contents()), h, now)
    {
      var b := buckets[h];
      var end := |b.index|;
      var one, two := end, end;
      var it := 0;
      var victim := end;
      while it != end
        invariant it == 0 || (it == 1 && one == 0 && 1 <= end && !Stale(b, 0, now, flushed))
        invariant it == 0 ==> one == end
        invariant two == end && victim == end && end == |b.index|
        invariant Contents() == old(Contents())
        decreases end - it
      {
        var key := b.index[it].key;
        if key !in b.items {
          stored := Wrap(stored - (|key| + SIZEOF_STAMP));
          buckets := buckets[h := Bucket(b.items, b.index[..it] + b.index[it + 1..])];
          assert b.items - {key} == b.items;
          return;
        }
        if b.items[key].expiry < now || b.items[key].stamp < flushed {
          stored := Wrap(stored - (2 * |key| + 2 * SIZEOF_STAMP + EntrySize(b.items[key])));
          buckets := buckets[h := Bucket(b.items - {key}, b.index[..it] + b.index[it + 1..])];
          return;
        }
        if one == end {
          one := it;
          it := it + 1;
          continue;
        }
        two := it;
        victim := if |b.items[b.index[one].key].value| < |b.items[b.index[two].key].value| then two else one;
        break;
      }
      if two == end {
        victim := one;
      }
      if victim == end {
        return;
      }
      var key := b.index[victim].key;
      stored := Wrap(stored - (2 * |key| + 2 * SIZEOF_STAMP + EntrySize(b.items[key])));
      buckets := buckets[h := Bucket(b.items - {key}, b.index[..victim] + b.index[victim + 1..])];
    }

    /**
     * The loop that frees space in dbInsertElement and dbAddElement. It takes at most one turn for each index
     * entry plus ten, and leaves room for the element or all ten indexes empty.
     */
    method MakeSpace(need: nat, home: nat, now: nat, look: bool) returns (fits: bool, ghost turns: nat)
      requires Valid() && home < BUCKETS
      modifies this
      ensures Valid() && (Contents(), fits) == MakeRoom(old(Contents()), need, home, home, now, look)
      ensures fits ==> Wrap(stored + need) < limit
      ensures !fits ==> AllEmpty(Contents())
      ensures turns <= Total(old(buckets)) + BUCKETS
    {
      hide Evict, Wrap, Total, AllEmpty, Passed;
      var h: nat := home;
      turns := 0;
      ghost var start := Contents();
      assert Passed(start, home, home) by { NothingPassed(start, home); }
      MakeRoomOutcome(start, need, home, home, now, look);
      while true
        invariant Valid() && h < BUCKETS
        invariant MakeRoom(Contents(), need, home, h, now, look) == MakeRoom(start, need, home, home, now, look)
        invariant turns + Total(buckets) + Ahead(h, home) + 1 <= Total(start.buckets) + BUCKETS
        decreases Total(buckets), Ahead(h, home)
      {
        turns := turns + 1;
        if Wrap(stored + need) < limit {
          fits := true;
          break;
        }
        if |buckets[h].index| == 0 {
          h := if h != BUCKETS - 1 then h + 1 else 0;
          if home == h {
            fits := false;
            break;
          }
          if look {
            continue;
          }
        }
        EvictTotal(Contents(), h, now);
        RemoveLruElement(h, now);
      }
    }

    /** dbInsertElement; token is the fresh cas value the generator draws. */
    method InsertElement(req: Request, now: nat, token: string) returns (status: Status)
      requires Valid()
      modifies this
      ensures Valid() && (Contents(), status) == Insert(old(Contents()), req, now, token)
    {
      hide MakeRoom, Wrap, InsertStamp, EraseStamp;
      var home := HashTblNbrFromKey(req.key);
      var ts := clock;
      clock := clock + 1;
      var casCheck := req.cas != "";
      var fits, turns := MakeSpace(InsertNeed(req, token), home, now, true);
      if !fits {
        return MEMORY_FULL;
      }
      var b := buckets[home];
      if req.key in b.items {
        var e := b.items[req.key];
        var sizeDiff := EntrySize(e) - |token| - |req.flags| - |req.value|;
        if casCheck && e.cas != req.cas {
          return EXIST;
        }
        var items := b.items[req.key := Entry(req.value, req.flags, token, Wrap(now + req.expiry), e.stamp)];
        stored := Wrap(stored - sizeDiff);
        buckets := buckets[home := Bucket(items, InsertStamp(EraseStamp(b.index, e.stamp), Stamp(ts, req.key)))];
      } else {
        if casCheck {
          return NOT_EXIST;
        }
        var expiry := if req.expiry != 0 then Wrap(now + req.expiry) else ULONG_MAX;
        var items := b.items[req.key := Entry(req.value, req.flags, token, expiry, ts)];
        stored := Wrap(stored + 2 * |req.key| + 2 * SIZEOF_STAMP + |token| + |req.flags| + SIZEOF_STAMP + |req.value|);
        buckets := buckets[home := Bucket(items, InsertStamp(b.index, Stamp(ts, req.key)))];
      }
      return SUCCESS;
    }

    /** dbAddElement. */
    method AddElement(req: Request, now: nat, token: string) returns (status: Status)
      requires Valid()
      modifies this
      ensures Valid() && (Contents(), status) == Add(old(Contents()), req, now, token)
    {
      hide MakeRoom, Wrap, InsertStamp, EraseStamp;
      var home := HashTblNbrFromKey(req.key);
      var ts := clock;
      clock := clock + 1;
      var fits, turns := MakeSpace(AddNeed(req), home, now, false);
      if !fits {
        return MEMORY_FULL;
      }
      var b := buckets[home];
      if req.key in b.items {
        var e := b.items[req.key];
        if e.expiry < now || e.stamp < flushed {
          var items := b.items[req.key := Entry(req.value, req.flags, token, Wrap(now + req.expiry), e.stamp)];
          buckets := buckets[home := Bucket(items, InsertStamp(EraseStamp(b.index, e.stamp), Stamp(ts, req.key)))];
          return SUCCESS;
        }
        return EXIST;
      }
      var expiry := if req.expiry != 0 then Wrap(now + req.expiry) else ULONG_MAX;
      var items := b.items[req.key := Entry(req.value, req.flags, token, expiry, ts)];
      stored := Wrap(stored + 2 * |req.key| + 2 * SIZEOF_STAMP + |token| + |req.flags| + SIZEOF_STAMP + |req.value|);
      buckets := buckets[home := Bucket(items, InsertStamp(b.index, Stamp(ts, req.key)))];
      return SUCCESS;
    }

    /** dbDeleteElement. */
    method DeleteElement(key: Key, expiry: nat, now: nat) returns (status: Status)
      requires Valid()
      modifies this`buckets
      ensures Valid() && (Contents(), status) == Delete(old(Contents()), key, expiry, now)
    {
      var h := HashTblNbrFromKey(key);
      var b := buckets[h];
      assert buckets[h := b] == buckets;
      if key in b.items {
        var e := b.items[key];
        if e.expiry < now || e.stamp < flushed {
          return NOT_EXIST;
        }
        if expiry == 0 {
          buckets := buckets[h := b.(items := b.items - {key})];
          return SUCCESS;
        }
        buckets := buckets[h := b.(items := b.items[key := e.(expiry := Wrap(now + expiry))])];
        return SUCCESS;
      }
      return NOT_EXIST;
    }

    /** dbGetElement: the entry found, if any; on a hit its stamp is renewed in map and index. */
    method GetElement(key: Key, now: nat) returns (found: Option<Entry>)
      requires Valid()
      modifies this`buckets, this`clock
      ensures Valid() && (Contents(), found) == Get(old(Contents()), key, now)
    {
      hide InsertStamp, EraseStamp;
      var h := HashTblNbrFromKey(key);
      var ts := clock;
      clock := clock + 1;
      var b := buckets[h];
      assert buckets[h := b] == buckets;
      if key in b.items {
        var e := b.items[key];
        if e.expiry < now || e.stamp < flushed {
          buckets := buckets[h := b.(items := b.items - {key})];
          return None;
        }
        var index := InsertStamp(EraseStamp(b.index, e.stamp), Stamp(ts, key));
        buckets := buckets[h := Bucket(b.items[key := e.(stamp := ts)], index)];
        return Some(e);
      }
      return None;
    }

    /** dbSetFlushAll. */
    method SetFlushAll(expiry: nat, now: nat)
      requires Valid()
      modifies this`flushSet, this`flushTime
      ensures Valid() && Contents() == SetFlush(old(Contents()), expiry, now)
    {
      flushSet := true;
      flushTime := Wrap(now + expiry);
    }

    /** dbHandleFlushAll: called before every command. */
    method HandleFlushAll(now: nat)
      requires Valid()
      modifies this`clock, this`flushed, this`flushSet
      ensures Valid() && Contents() == HandleFlush(old(Contents()), now)
    {
      if !flushSet {
        return;
      }
      if flushTime <= now {
        clock := clock + 1;
        flushed := clock;
        flushSet := false;
      }
    }
  }
}
