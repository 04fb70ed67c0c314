/** What each operation of the store answers, and what it leaves under its key, in terms of what was there before. */
module LruStatus {
  import opened Wrappers
  import opened LruModel
  import opened LruHistory
  import opened LruSequential
  import opened LruRuns
  import C = LruConcurrent

  const TWO32: nat := 0x1_0000_0000

  /** k is in the map, not hidden by the last flush and not expired. */
  predicate Live(s: Store, k: Key, now: nat)
    requires Shaped(s)
  {
    ItemOf(s, k).Some? && ItemOf(s, k).value.stamp >= s.flushed && ItemOf(s, k).value.expiry >= now
  }

  /** No key but k differs between s and t. */
  ghost predicate SameBut(s: Store, t: Store, k: Key)
    requires Shaped(s) && Shaped(t)
  {
    forall j :: j != k ==> ItemOf(t, j) == ItemOf(s, j)
  }

  /** The entry carries the request: a new one never expires without an expiry, and keeps an old one's stamp. */
  predicate Carries(e: Entry, req: Request, token: string, now: nat, was: Option<Entry>, clock: nat) {
    && e.value == req.value && e.flags == req.flags && e.cas == token
    && e.stamp == (if was.Some? then was.value.stamp else clock)
    && e.expiry == (if was.None? && req.expiry == 0 then TWO32 - 1 else (now + req.expiry) % TWO32)
  }

  // ---------- insert ----------

  /** The store once an insert has made room, and whether it could. */
  function InsertRoom(s: Store, req: Request, now: nat, token: string): (r: (Store, bool))
    requires Shaped(s)
    ensures Shaped(r.0)
  {
    MakeRoom(Tick(s), InsertNeed(req, token), BucketOf(req.key), BucketOf(req.key), now, true)
  }

  lemma InsertAnswers(s: Store, req: Request, now: nat, token: string)
    requires Shaped(s)
    ensures var (r, status) := Insert(s, req, now, token);
      var (room, fits) := InsertRoom(s, req, now, token);
      var was := ItemOf(room, req.key);
      && (status == MEMORY_FULL <==> !fits)
      && (status == SUCCESS <==> fits && (req.cas == "" || (was.Some? && was.value.cas == req.cas)))
      && (status == EXIST <==> fits && req.cas != "" && was.Some? && was.value.cas != req.cas)
      && (status == NOT_EXIST <==> fits && req.cas != "" && was.None?)
      && SameBut(room, r, req.key)
      && (status != SUCCESS ==> ItemOf(r, req.key) == was)
      && (status == SUCCESS ==>
            ItemOf(r, req.key).Some? && Carries(ItemOf(r, req.key).value, req, token, now, was, s.clock))
  {
    var h := BucketOf(req.key);
    MakeRoomThins(Tick(s), InsertNeed(req, token), h, h, now, true);
    hide MakeRoom, BucketOf, InsertStamp, EraseStamp;
  }

  // ---------- add ----------

  function AddRoom(s: Store, req: Request, now: nat): (r: (Store, bool))
    requires Shaped(s)
    ensures Shaped(r.0)
  {
    MakeRoom(Tick(s), AddNeed(req), BucketOf(req.key), BucketOf(req.key), now, false)
  }

  lemma AddAnswers(s: Store, req: Request, now: nat, token: string)
    requires Shaped(s)
    ensures var (r, status) := Add(s, req, now, token);
      var (room, fits) := AddRoom(s, req, now);
      var was := ItemOf(room, req.key);
      && (status == MEMORY_FULL <==> !fits)
      && (status == EXIST <==> fits && Live(room, req.key, now))
      && (status == SUCCESS <==> fits && !Live(room, req.key, now))
      && SameBut(room, r, req.key)
      && (status != SUCCESS ==> ItemOf(r, req.key) == was)
      && (status == SUCCESS ==>
            ItemOf(r, req.key).Some? && Carries(ItemOf(r, req.key).value, req, token, now, was, s.clock))
  {
    var h := BucketOf(req.key);
    MakeRoomThins(Tick(s), AddNeed(req), h, h, now, false);
    hide MakeRoom, BucketOf, InsertStamp, EraseStamp;
  }

  /** With room for the element: an add of a live key is refused and changes nothing, any other succeeds. */
  lemma AddWithRoom(s: Store, req: Request, now: nat, token: string)
    requires Shaped(s) && Wrap(s.stored + AddNeed(req)) < s.limit
    ensures var (r, status) := Add(s, req, now, token);
      && (status == EXIST <==> Live(s, req.key, now))
      && (status == SUCCESS <==> !Live(s, req.key, now))
      && (status == EXIST ==> forall k :: ItemOf(r, k) == ItemOf(s, k))
  {
    hide BucketOf, Wrap, Add, LruRuns.ItemOf;
    assert AddRoom(s, req, now) == (Tick(s), true);
    AddAnswers(s, req, now, token);
    TickKeeps(s);
  }

  /** With room for the element: what a set, or a cas with its comparison, answers. */
  lemma InsertWithRoom(s: Store, req: Request, now: nat, token: string)
    requires Shaped(s) && Wrap(s.stored + InsertNeed(req, token)) < s.limit
    ensures var status, was := Insert(s, req, now, token).1, ItemOf(s, req.key);
      && (status == SUCCESS <==> req.cas == "" || (was.Some? && was.value.cas == req.cas))
      && (status == EXIST <==> req.cas != "" && was.Some? && was.value.cas != req.cas)
      && (status == NOT_EXIST <==> req.cas != "" && was.None?)
  {
    hide BucketOf, Wrap, Insert, LruRuns.ItemOf;
    assert InsertRoom(s, req, now, token) == (Tick(s), true);
    InsertAnswers(s, req, now, token);
    TickKeeps(s);
  }

  lemma TickKeeps(s: Store)
    requires Shaped(s)
    ensures Shaped(Tick(s)) && Tick(s).flushed == s.flushed && forall k :: ItemOf(Tick(s), k) == ItemOf(s, k)
  {
    hide BucketOf;
  }

  // ---------- delete and get ----------

  lemma DeleteAnswers(s: Store, k: Key, expiry: nat, now: nat)
    requires Shaped(s)
    ensures var (r, status) := Delete(s, k, expiry, now);
      && (status == SUCCESS <==> Live(s, k, now)) && (status == NOT_EXIST <==> !Live(s, k, now))
      && SameBut(s, r, k)
      && (status == NOT_EXIST ==> ItemOf(r, k) == ItemOf(s, k))
      && (status == SUCCESS && expiry == 0 ==> ItemOf(r, k) == None)
      && (status == SUCCESS && expiry != 0 ==>
            ItemOf(r, k) == Some(ItemOf(s, k).value.(expiry := (now + expiry) % TWO32)))
  {
    hide BucketOf;
  }

  lemma GetAnswers(s: Store, k: Key, now: nat)
    requires Shaped(s)
    ensures var (r, found) := Get(s, k, now);
      && found == (if Live(s, k, now) then ItemOf(s, k) else None)
      && SameBut(s, r, k) && r.clock == s.clock + 1
      && ItemOf(r, k) == if Live(s, k, now) then Some(ItemOf(s, k).value.(stamp := s.clock)) else None
  {
    hide BucketOf, InsertStamp, EraseStamp;
  }

  // ---------- flush ----------

  /** An armed flush fires from now plus its delay on, and not before. */
  lemma FlushIsDelayed(s: Store, expiry: nat, now: nat, later: nat)
    requires Shaped(s)
    ensures Fires(SetFlush(s, expiry, now), later) <==> (now + expiry) % TWO32 <= later
    ensures forall k :: ItemOf(SetFlush(s, expiry, now), k) == ItemOf(s, k)
    ensures SetFlush(s, expiry, now).flushed == s.flushed && SetFlush(s, expiry, now).clock == s.clock
  {
    hide BucketOf;
  }

  /** It fires once: afterwards it is disarmed, and every item then in the map is hidden. */
  lemma FlushFiresOnce(s: Store, now: nat, later: nat)
    requires Shaped(s)
    ensures !Fires(s, now) ==> HandleFlush(s, now) == s
    ensures Fires(s, now) ==> !Fires(HandleFlush(s, now), later)
    ensures Fires(s, now) ==> forall k :: ItemOf(HandleFlush(s, now), k) == ItemOf(s, k)
    ensures Fires(s, now) && (forall k :: ItemOf(s, k).Some? ==> ItemOf(s, k).value.stamp < s.clock) ==>
      forall k :: !Live(HandleFlush(s, now), k, later)
  {
    hide BucketOf;
  }

  // ---------- the same sections between other threads' steps ----------

  /** The map section of an add logs a write if and only if the key was absent, expired or hidden. */
  lemma AddSectionLogsIff(s: C.State, a: C.Action)
    requires C.Enabled(s, a) && a.StoreItem? && s.threads[a.t].add
    ensures var pc := s.threads[a.t];
      var k, items := pc.req.key, s.buckets[BucketOf(pc.req.key)].items;
      && (C.Step(s, a).log == s.log + [Stored(k, Payload(pc.req.value, pc.req.flags, pc.token))] <==>
            (k in items ==> items[k].expiry < pc.now || items[k].stamp < s.flushed))
      && (k in items && items[k].expiry >= pc.now && items[k].stamp >= s.flushed ==>
            C.Step(s, a).log == s.log && C.Step(s, a).buckets == s.buckets)
  {
    hide BucketOf;
  }

  /** That of an insert if and only if there is no cas to compare, or the key is there with that cas. */
  lemma InsertSectionLogsIff(s: C.State, a: C.Action)
    requires C.Enabled(s, a) && a.StoreItem? && !s.threads[a.t].add
    ensures var pc := s.threads[a.t];
      var k, items := pc.req.key, s.buckets[BucketOf(pc.req.key)].items;
      && (C.Step(s, a).log == s.log + [Stored(k, Payload(pc.req.value, pc.req.flags, pc.token))] <==>
            pc.req.cas == "" || (k in items && items[k].cas == pc.req.cas))
      && (C.Step(s, a).log == s.log || |C.Step(s, a).log| == |s.log| + 1)
  {
    hide BucketOf;
  }
}
