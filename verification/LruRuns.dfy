/** Whole runs of the sequential store: what a get can return, and what a flush hides. */
module LruRuns {
  import opened Wrappers
  import opened LruModel
  import opened LruHistory
  import opened LruSequential

  // ---------- runs ----------

  datatype Op =
    | DoInsert(req: Request, now: nat, token: string)
    | DoAdd(req: Request, now: nat, token: string)
    | DoDelete(key: Key, expiry: nat, now: nat)
    | DoGet(key: Key, now: nat)
    | DoSetFlush(expiry: nat, now: nat)
    | DoHandleFlush(now: nat)

  function Written(req: Request, token: string, status: Status): Event {
    if status == SUCCESS then Stored(req.key, Payload(req.value, req.flags, token)) else Quiet
  }

  function Perform(s: Store, op: Op): (r: (Store, Event))
    requires Shaped(s)
    ensures Shaped(r.0)
  {
    match op
    case DoInsert(req, now, token) =>
      var (s', status) := Insert(s, req, now, token); (s', Written(req, token, status))
    case DoAdd(req, now, token) =>
      var (s', status) := Add(s, req, now, token); (s', Written(req, token, status))
    case DoDelete(key, expiry, now) =>
      var (s', status) := Delete(s, key, expiry, now);
      (s', if status == SUCCESS && expiry == 0 then Deleted(key) else Quiet)
    case DoGet(key, now) =>
      var (s', found) := Get(s, key, now);
      (s', if found.Some? then Fetched(key, PayloadOf(found.value)) else Quiet)
    case DoSetFlush(expiry, now) => (SetFlush(s, expiry, now), Quiet)
    case DoHandleFlush(now) => (HandleFlush(s, now), if Fires(s, now) then Fired else Quiet)
  }

  /** states and events of the run of ops from the empty store. */
  ghost predicate IsRun(states: seq<Store>, events: seq<Event>, ops: seq<Op>, limit: nat) {
    && |states| == |ops| + 1 && |events| == |ops|
    && states[0] == Empty(limit)
    && (forall i :: 0 <= i < |states| ==> Shaped(states[i]))
    && forall i :: 0 <= i < |ops| ==> Performed(states[i], ops[i], states[i + 1], events[i])
  }

  ghost predicate Performed(s: Store, op: Op, s': Store, e: Event)
    requires Shaped(s)
  {
    s' == Perform(s, op).0 && e == Perform(s, op).1
  }

  lemma RunEffect(states: seq<Store>, events: seq<Event>, ops: seq<Op>, limit: nat, i: nat)
    requires IsRun(states, events, ops, limit) && i < |ops| && !events[i].Fired?
    ensures Effect(states[i], states[i + 1], events[i])
  {
    hide Perform, Effect;
    assert Performed(states[i], ops[i], states[i + 1], events[i]);
    PerformEffect(states[i], ops[i]);
  }

  // ---------- what each operation does to one key ----------

  function ItemOf(s: Store, k: Key): Option<Entry>
    requires Shaped(s)
  {
    var items := s.buckets[BucketOf(k)].items;
    if k in items then Some(items[k]) else None
  }

  ghost predicate Hidden(s: Store, k: Key)
    requires Shaped(s)
  {
    ItemOf(s, k).Some? && ItemOf(s, k).value.stamp < s.flushed
  }

  /** t is s after some evictions: items may be gone, the rest is as it was. */
  ghost predicate Thinned(s: Store, t: Store)
    requires Shaped(s)
  {
    && Shaped(t)
    && t.clock == s.clock && t.flushed == s.flushed
    && forall k :: ItemOf(t, k).None? || ItemOf(t, k) == ItemOf(s, k)
  }

  lemma EvictThins(s: Store, h: nat, now: nat)
    requires Shaped(s) && h < BUCKETS
    ensures Thinned(s, Evict(s, h, now))
  {
  }

  lemma {:induction false} MakeRoomThins(s: Store, need: nat, home: nat, h: nat, now: nat, look: bool)
    requires Shaped(s) && home < BUCKETS && h < BUCKETS
    ensures Thinned(s, MakeRoom(s, need, home, h, now, look).0)
    decreases Total(s.buckets), Ahead(h, home)
  {
    hide Evict, Next, Ahead, Total, Wrap, BucketOf;
    if Wrap(s.stored + need) < s.limit {
    } else if s.buckets[h].index != [] {
      EvictTotal(s, h, now);
      EvictThins(s, h, now);
      MakeRoomThins(Evict(s, h, now), need, home, h, now, look);
    } else {
      var g := Next(h);
      if g == home {
      } else if look {
        NextAhead(h, home);
        MakeRoomThins(s, need, home, g, now, look);
      } else {
        NextAhead(h, home);
        EvictTotal(s, g, now);
        EvictThins(s, g, now);
        MakeRoomThins(Evict(s, g, now), need, home, g, now, look);
      }
    }
  }

  lemma NextAhead(h: nat, home: nat)
    requires h < BUCKETS && home < BUCKETS && Next(h) != home
    ensures Ahead(Next(h), home) == Ahead(h, home) - 1
  {
  }

  /** Key k after an operation that fired no flush: gone, or untouched but for its stamp, or just written. */
  ghost predicate KeyEffect(s: Store, s': Store, e: Event, k: Key)
    requires Shaped(s) && Shaped(s')
  {
    var before, after := ItemOf(s, k), ItemOf(s', k);
    after.Some? ==>
      if e.Stored? && e.key == k then
        && PayloadOf(after.value) == e.payload
        && (after.value.stamp == s.clock || (before.Some? && after.value.stamp == before.value.stamp))
      else
        && !(e.Deleted? && e.key == k)
        && before.Some? && PayloadOf(after.value) == PayloadOf(before.value)
        && (after.value.stamp == before.value.stamp
            || (after.value.stamp == s.clock && before.value.stamp >= s.flushed))
  }

  ghost predicate Effect(s: Store, s': Store, e: Event)
    requires Shaped(s)
  {
    && Shaped(s') && !e.Fired?
    && s'.flushed == s.flushed && s'.clock >= s.clock
    && (forall k :: KeyEffect(s, s', e, k))
    && (forall k :: ItemOf(s', k).Some? && ItemOf(s', k).value.stamp == s.clock ==>
          s'.clock > s.clock || (ItemOf(s, k).Some? && ItemOf(s, k).value.stamp == s.clock))
    && (e.Fetched? ==> ItemOf(s, e.key).Some? && PayloadOf(ItemOf(s, e.key).value) == e.payload && !Hidden(s, e.key))
  }

  /** Evictions, then one write section on req.key's bucket. */
  lemma WriteEffect(s: Store, s1: Store, s': Store, req: Request, token: string,
                    items: map<Key, Entry>, index: seq<Stamp>, put: Put)
    requires Shaped(s) && Thinned(Tick(s), s1) && Shaped(s')
    requires Wrote(s1.buckets[BucketOf(req.key)].items, items, put, req, token, s.clock)
    requires s'.buckets == s1.buckets[BucketOf(req.key) := Bucket(items, index)]
    requires s'.clock == s1.clock && s'.flushed == s1.flushed
    ensures Effect(s, s', Written(req, token, if put.Created? || put.Overwrote? then SUCCESS else EXIST))
  {
    hide BucketOf;
    var e := Written(req, token, if put.Created? || put.Overwrote? then SUCCESS else EXIST);
    forall k
      ensures KeyEffect(s, s', e, k)
    {
      assert ItemOf(Tick(s), k) == ItemOf(s, k);
      if k != req.key {
        assert ItemOf(s', k) == ItemOf(s1, k);
      }
    }
  }

  lemma InsertEffect(s: Store, req: Request, now: nat, token: string)
    requires Shaped(s)
    ensures var (s', status) := Insert(s, req, now, token); Effect(s, s', Written(req, token, status))
  {
    var h := BucketOf(req.key);
    var (s1, fits) := MakeRoom(Tick(s), InsertNeed(req, token), h, h, now, true);
    MakeRoomThins(Tick(s), InsertNeed(req, token), h, h, now, true);
    var b := s1.buckets[h];
    PutItemWrote(b.items, req, now, token, s.clock);
    var (items, put) := PutItem(b.items, req, now, token, s.clock);
    var s' := Insert(s, req, now, token).0;
    hide MakeRoom, PutItem, BucketOf, InsertStamp, EraseStamp, Wrap, Effect, Thinned, Wrote;
    assert s1.buckets == s1.buckets[h := b];
    if !fits {
      WriteEffect(s, s1, s', req, token, b.items, b.index, Taken) by { UnchangedWrote(b.items, req, token, s.clock); }
    } else {
      WroteNothing(b.items, items, put, req, token, s.clock);
      WriteEffect(s, s1, s', req, token, items, s'.buckets[h].index, put);
    }
  }

  lemma UnchangedWrote(items: map<Key, Entry>, req: Request, token: string, ts: nat)
    ensures Wrote(items, items, Taken, req, token, ts)
  {
  }

  lemma WroteNothing(items: map<Key, Entry>, items': map<Key, Entry>, put: Put, req: Request, token: string, ts: nat)
    requires Wrote(items, items', put, req, token, ts)
    ensures put.Mismatch? || put.Missing? || put.Taken? ==> items' == items
  {
  }

  lemma AddEffect(s: Store, req: Request, now: nat, token: string)
    requires Shaped(s)
    ensures var (s', status) := Add(s, req, now, token); Effect(s, s', Written(req, token, status))
  {
    var h := BucketOf(req.key);
    var (s1, fits) := MakeRoom(Tick(s), AddNeed(req), h, h, now, false);
    MakeRoomThins(Tick(s), AddNeed(req), h, h, now, false);
    var b := s1.buckets[h];
    AddItemWrote(b.items, req, now, s1.flushed, token, s.clock);
    var (items, put) := AddItem(b.items, req, now, s1.flushed, token, s.clock);
    var s' := Add(s, req, now, token).0;
    hide MakeRoom, AddItem, BucketOf, InsertStamp, EraseStamp, Wrap, Effect, Thinned, Wrote;
    assert s1.buckets == s1.buckets[h := b];
    if !fits {
      WriteEffect(s, s1, s', req, token, b.items, b.index, Taken) by { UnchangedWrote(b.items, req, token, s.clock); }
    } else {
      WroteNothing(b.items, items, put, req, token, s.clock);
      WriteEffect(s, s1, s', req, token, items, s'.buckets[h].index, put);
    }
  }

  lemma PerformEffect(s: Store, op: Op)
    requires Shaped(s) && !Perform(s, op).1.Fired?
    ensures Effect(s, Perform(s, op).0, Perform(s, op).1)
  {
    match op
    case DoInsert(req, now, token) => InsertEffect(s, req, now, token);
    case DoAdd(req, now, token) => AddEffect(s, req, now, token);
    case _ => hide BucketOf, InsertStamp, EraseStamp, Wrap;
  }

  // ---------- the invariant of a run ----------

  /** The events after the last flush that fired. */
  function SinceFlush(events: seq<Event>): seq<Event> {
    if events == [] || events[|events| - 1].Fired? then []
    else SinceFlush(events[..|events| - 1]) + [events[|events| - 1]]
  }

  /** Item e under k is the latest write; if it is not hidden, the latest write since the last flush. */
  ghost predicate KeyInv(s: Store, events: seq<Event>, k: Key)
    requires Shaped(s)
  {
    ItemOf(s, k).Some? ==>
      var e := ItemOf(s, k).value;
      && e.stamp < s.clock
      && LastWrite(events, k) == Some(PayloadOf(e))
      && (e.stamp >= s.flushed ==> LastWrite(SinceFlush(events), k) == Some(PayloadOf(e)))
  }

  ghost predicate RunInv(s: Store, events: seq<Event>) {
    && Shaped(s)
    && s.flushed <= s.clock
    && forall k :: KeyInv(s, events, k)
  }

  lemma LastWriteSnoc(events: seq<Event>, e: Event, k: Key)
    ensures LastWrite(events + [e], k) == After(LastWrite(events, k), e, k)
    ensures SinceFlush(events + [e]) == if e.Fired? then [] else SinceFlush(events) + [e]
  {
    assert (events + [e])[..|events|] == events;
    LastWriteNext(events, e, k);
  }

  lemma EffectKeepsInv(s: Store, s': Store, events: seq<Event>, e: Event)
    requires RunInv(s, events) && Effect(s, s', e)
    ensures RunInv(s', events + [e])
  {
    hide KeyInv, KeyEffect;
    forall k
      ensures KeyInv(s', events + [e], k)
    {
      assert KeyInv(s, events, k) && KeyEffect(s, s', e, k);
      KeyInvKept(s, s', events, e, k);
    }
  }

  lemma KeyInvKept(s: Store, s': Store, events: seq<Event>, e: Event, k: Key)
    requires Shaped(s) && s.flushed <= s.clock && KeyInv(s, events, k) && Effect(s, s', e)
    ensures KeyInv(s', events + [e], k)
  {
    hide ItemOf;
    assert KeyEffect(s, s', e, k);
    LastWriteSnoc(events, e, k);
    LastWriteSnoc(SinceFlush(events), e, k);
  }

  lemma FireKeepsInv(s: Store, events: seq<Event>, now: nat)
    requires RunInv(s, events) && Fires(s, now)
    ensures RunInv(HandleFlush(s, now), events + [Fired])
  {
    hide BucketOf;
    var s' := HandleFlush(s, now);
    forall k
      ensures KeyInv(s', events + [Fired], k)
    {
      assert KeyInv(s, events, k) && ItemOf(s', k) == ItemOf(s, k);
      LastWriteSnoc(events, Fired, k);
    }
  }

  lemma StepRunInv(s: Store, events: seq<Event>, op: Op)
    requires Shaped(s) && RunInv(s, events)
    ensures RunInv(Perform(s, op).0, events + [Perform(s, op).1])
  {
    if Perform(s, op).1.Fired? {
      hide RunInv;
      FireKeepsInv(s, events, op.now);
    } else {
      hide Perform, RunInv, Effect;
      PerformEffect(s, op);
      EffectKeepsInv(s, Perform(s, op).0, events, Perform(s, op).1);
    }
  }

  lemma {:induction false} RunKeepsInv(states: seq<Store>, events: seq<Event>, ops: seq<Op>, limit: nat, i: nat)
    requires IsRun(states, events, ops, limit) && i < |states|
    ensures RunInv(states[i], events[..i])
  {
    if i > 0 {
      RunKeepsInv(states, events, ops, limit, i - 1);
      assert Performed(states[i - 1], ops[i - 1], states[i], events[i - 1]);
      hide Perform;
      StepRunInv(states[i - 1], events[..i - 1], ops[i - 1]);
      assert events[..i] == events[..i - 1] + [events[i - 1]];
    }
  }

  // ---------- the laws of a run ----------

  /** A get that succeeds returns the latest successful write of its key, whatever was evicted or expired. */
  lemma GetReturnsLastWrite(states: seq<Store>, events: seq<Event>, ops: seq<Op>, limit: nat, j: nat)
    requires IsRun(states, events, ops, limit) && j < |ops| && events[j].Fetched?
    ensures LastWrite(events[..j], events[j].key) == Some(events[j].payload)
  {
    RunKeepsInv(states, events, ops, limit, j);
    RunEffect(states, events, ops, limit, j);
    assert KeyInv(states[j], events[..j], events[j].key);
  }

  lemma {:induction false} LastWriteConcat(a: seq<Event>, b: seq<Event>, k: Key)
    requires LastWrite(b, k).Some?
    ensures LastWrite(a + b, k) == LastWrite(b, k)
  {
    var b', e := b[..|b| - 1], b[|b| - 1];
    assert a + b == a + b' + [e] && b == b' + [e];
    LastWriteSnoc(a + b', e, k);
    LastWriteSnoc(b', e, k);
    if LastWrite(b', k).Some? {
      LastWriteConcat(a, b', k);
    }
  }

  lemma {:induction false} SinceFlushIsSuffix(events: seq<Event>, i: nat) returns (a: seq<Event>)
    requires i < |events| && events[i].Fired?
    ensures events[i + 1..] == a + SinceFlush(events)
  {
    var last := |events| - 1;
    if events[last].Fired? {
      a := events[i + 1..];
      assert a + [] == a;
    } else {
      a := SinceFlushIsSuffix(events[..last], i);
      assert events[i + 1..] == events[..last][i + 1..] + [events[last]];
    }
  }

  /** Once a flush has fired, a get returns only what was written after it. */
  lemma FlushHidesEarlierWrites(states: seq<Store>, events: seq<Event>, ops: seq<Op>, limit: nat, i: nat, j: nat)
    requires IsRun(states, events, ops, limit) && i < j < |ops| && events[i].Fired? && events[j].Fetched?
    ensures LastWrite(events[i + 1..j], events[j].key) == Some(events[j].payload)
  {
    RunKeepsInv(states, events, ops, limit, j);
    RunEffect(states, events, ops, limit, j);
    var k := events[j].key;
    assert KeyInv(states[j], events[..j], k);
    assert LastWrite(SinceFlush(events[..j]), k) == Some(events[j].payload);
    hide Effect, KeyInv, RunInv, IsRun;
    assert events[..j][i] == events[i];
    var a := SinceFlushIsSuffix(events[..j], i);
    assert events[..j][i + 1..] == events[i + 1..j];
    LastWriteConcat(a, SinceFlush(events[..j]), k);
  }

  /** A key that is not hidden, for instance absent, stays unhidden until the next flush fires. */
  lemma {:induction false} UnhiddenStaysUnhidden(states: seq<Store>, events: seq<Event>, ops: seq<Op>, limit: nat,
                                                 k: Key, i: nat, j: nat)
    requires IsRun(states, events, ops, limit) && i <= j < |states|
    requires forall m :: i <= m < j ==> !events[m].Fired?
    requires !Hidden(states[i], k)
    ensures !Hidden(states[j], k)
  {
    hide Perform, ItemOf;
    if i < j {
      UnhiddenStaysUnhidden(states, events, ops, limit, k, i, j - 1);
      RunKeepsInv(states, events, ops, limit, j - 1);
      RunEffect(states, events, ops, limit, j - 1);
      assert KeyEffect(states[j - 1], states[j], events[j - 1], k);
    }
  }

  lemma ThinnedHidden(s: Store, t: Store, k: Key)
    requires Shaped(s) && Thinned(s, t)
    ensures Hidden(t, k) <==> Hidden(s, k) && ItemOf(t, k).Some?
  {
    hide ItemOf;
  }

  /**
   * When a successful insert is invisible: exactly when the key was hidden before the call and no eviction took it;
   * an overwrite keeps the old stamp. With room for the element, exactly when the key was hidden before the call.
   */
  lemma InsertHiddenIff(s: Store, req: Request, now: nat, token: string)
    requires Shaped(s) && s.flushed <= s.clock && Insert(s, req, now, token).1 == SUCCESS
    ensures var h := BucketOf(req.key);
      Hidden(Insert(s, req, now, token).0, req.key) <==>
      Hidden(s, req.key) && ItemOf(MakeRoom(Tick(s), InsertNeed(req, token), h, h, now, true).0, req.key).Some?
    ensures Wrap(s.stored + InsertNeed(req, token)) < s.limit ==>
      (Hidden(Insert(s, req, now, token).0, req.key) <==> Hidden(s, req.key))
  {
    var h := BucketOf(req.key);
    var s1 := MakeRoom(Tick(s), InsertNeed(req, token), h, h, now, true).0;
    assert Wrap(s.stored + InsertNeed(req, token)) < s.limit ==> s1 == Tick(s);
    MakeRoomThins(Tick(s), InsertNeed(req, token), h, h, now, true);
    ThinnedHidden(Tick(s), s1, req.key);
    PutItemWrote(s1.buckets[h].items, req, now, token, s.clock);
    hide MakeRoom, PutItem, BucketOf, InsertStamp, EraseStamp, Wrap, Thinned;
  }

  /** The same for add, whose branch for stale items overwrites too. */
  lemma AddHiddenIff(s: Store, req: Request, now: nat, token: string)
    requires Shaped(s) && s.flushed <= s.clock && Add(s, req, now, token).1 == SUCCESS
    ensures var h := BucketOf(req.key);
      Hidden(Add(s, req, now, token).0, req.key) <==>
      Hidden(s, req.key) && ItemOf(MakeRoom(Tick(s), AddNeed(req), h, h, now, false).0, req.key).Some?
    ensures Wrap(s.stored + AddNeed(req)) < s.limit ==>
      (Hidden(Add(s, req, now, token).0, req.key) <==> Hidden(s, req.key))
  {
    var h := BucketOf(req.key);
    var s1 := MakeRoom(Tick(s), AddNeed(req), h, h, now, false).0;
    assert Wrap(s.stored + AddNeed(req)) < s.limit ==> s1 == Tick(s);
    MakeRoomThins(Tick(s), AddNeed(req), h, h, now, false);
    ThinnedHidden(Tick(s), s1, req.key);
    AddItemWrote(s1.buckets[h].items, req, now, s1.flushed, token, s.clock);
    hide MakeRoom, AddItem, BucketOf, InsertStamp, EraseStamp, Wrap, Thinned;
  }

  /** Why a get misses: the key is absent, hidden by the last flush, or expired. */
  lemma GetMissesIff(s: Store, k: Key, now: nat)
    requires Shaped(s)
    ensures Get(s, k, now).1 == None <==> ItemOf(s, k) == None || Hidden(s, k) || ItemOf(s, k).value.expiry < now
  {
    hide BucketOf;
  }

  /** So a set on a flushed key that needs no eviction reports success, and the next get misses. */
  lemma OverwriteStaysHidden(s: Store, req: Request, now: nat, token: string, later: nat)
    requires Shaped(s) && Hidden(s, req.key) && req.cas == ""
    requires Wrap(s.stored + InsertNeed(req, token)) < s.limit
    ensures Insert(s, req, now, token).1 == SUCCESS
    ensures Get(Insert(s, req, now, token).0, req.key, later).1 == None
  {
    hide BucketOf, InsertStamp, EraseStamp, Wrap;
  }

  /** And so does an add. */
  lemma AddStaysHidden(s: Store, req: Request, now: nat, token: string, later: nat)
    requires Shaped(s) && Hidden(s, req.key)
    requires Wrap(s.stored + AddNeed(req)) < s.limit
    ensures Add(s, req, now, token).1 == SUCCESS
    ensures Get(Add(s, req, now, token).0, req.key, later).1 == None
  {
    hide BucketOf, InsertStamp, EraseStamp, Wrap;
  }

  lemma InsertFresh(s: Store, req: Request, now: nat, token: string)
    requires Shaped(s) && ItemOf(s, req.key) == None && req.cas == ""
    requires Wrap(s.stored + InsertNeed(req, token)) < s.limit
    ensures var (s', status) := Insert(s, req, now, token);
      && status == SUCCESS && ItemOf(s', req.key) == Some(NewEntry(req, now, token, s.clock))
      && s'.clock == s.clock + 1 && s'.flushed == s.flushed && s'.limit == s.limit
      && s'.stored == Wrap(s.stored + InsertNeed(req, token))
  {
    hide BucketOf, InsertStamp, Wrap;
  }

  function SetRequest(key: Key, value: string): Request {
    Request(key, "0", "", value, 0)
  }

  /** From the empty store: set, flush_all, set again with success, and the get misses. */
  lemma SetFlushSetGetMisses(limit: nat, key: Key)
    requires limit > 1000 && |key| < 100
    ensures var s1 := Insert(Empty(limit), SetRequest(key, "a"), 5, "1").0;
      var s2 := HandleFlush(SetFlush(s1, 0, 5), 5);
      var (s3, status) := Insert(s2, SetRequest(key, "b"), 5, "2");
      status == SUCCESS && Get(s3, key, 5).1 == None
  {
    InsertFresh(Empty(limit), SetRequest(key, "a"), 5, "1");
    hide Insert, BucketOf, Get;
    var s1 := Insert(Empty(limit), SetRequest(key, "a"), 5, "1").0;
    var s2 := HandleFlush(SetFlush(s1, 0, 5), 5);
    assert ItemOf(s2, key) == ItemOf(s1, key);
    OverwriteStaysHidden(s2, SetRequest(key, "b"), 5, "2", 5);
  }

  /** The same run with add for the second set. */
  lemma SetFlushAddGetMisses(limit: nat, key: Key)
    requires limit > 1000 && |key| < 100
    ensures var s1 := Insert(Empty(limit), SetRequest(key, "a"), 5, "1").0;
      var s2 := HandleFlush(SetFlush(s1, 0, 5), 5);
      var (s3, status) := Add(s2, SetRequest(key, "b"), 5, "2");
      status == SUCCESS && Get(s3, key, 5).1 == None
  {
    InsertFresh(Empty(limit), SetRequest(key, "a"), 5, "1");
    hide Insert, Add, BucketOf, Get;
    var s1 := Insert(Empty(limit), SetRequest(key, "a"), 5, "1").0;
    var s2 := HandleFlush(SetFlush(s1, 0, 5), 5);
    assert ItemOf(s2, key) == ItemOf(s1, key);
    AddStaysHidden(s2, SetRequest(key, "b"), 5, "2", 5);
  }
}
