/**
 * Worker threads over the store, interleaved at lock granularity: every step is one atomic
 * counter operation or one critical section.
 */
module LruConcurrent {
  import opened Wrappers
  import opened LruModel
  import opened LruHistory

  /** Where a thread is between two of its steps. */
  datatype Pc =
    | Idle
    | Storing(req: Request, add: bool, ts: nat, now: nat, token: string)
    | Fetching(key: Key, ts: nat, now: nat)
    | Relinking(key: Key, prior: nat, ts: nat, together: bool)
    | Linking(key: Key, ts: nat)
    | Flushing(ts: nat)

  /** owner records, for the proof, the key each stamp was drawn for; log what the map sections did, in lock order. */
  datatype State = State(buckets: seq<Bucket>, clock: nat, flushed: nat, threads: seq<Pc>,
                         owner: map<nat, Key>, log: seq<Event>)

  /**
   * The eviction scan reads the flush stamp once per entry without a lock that a publication takes; first and
   * second are whatever it reads.
   */
  datatype Action =
    | BeginStore(t: nat, req: Request, add: bool, now: nat, token: string)
    | BeginGet(t: nat, key: Key, now: nat)
    | Evict(t: nat, b: nat, now: nat, first: nat, second: nat)
    | GiveUp(t: nat)
    | StoreItem(t: nat)
    | GetItem(t: nat)
    | Delete(t: nat, key: Key, expiry: nat, now: nat)
    | EraseOld(t: nat)
    | EraseAndLink(t: nat)
    | Link(t: nat)
    | DrawFlush(t: nat)
    | PublishFlush(t: nat)

  function Init(workers: nat): State {
    State(seq(BUCKETS, _ => Bucket(map[], [])), 0, 0, seq(workers, _ => Idle), map[], [])
  }

  predicate Shaped(s: State) {
    |s.buckets| == BUCKETS
  }

  predicate Enabled(s: State, a: Action) {
    && Shaped(s)
    && a.t < |s.threads|
    && var pc := s.threads[a.t];
    match a
    case BeginStore(_, _, _, _, _) => pc.Idle?
    case BeginGet(_, _, _) => pc.Idle?
    case Evict(_, b, _, _, _) => pc.Storing? && b < BUCKETS
    case GiveUp(_) => pc.Storing?
    case StoreItem(_) => pc.Storing?
    case GetItem(_) => pc.Fetching?
    case Delete(_, _, _, _) => pc.Idle?
    case EraseOld(_) => pc.Relinking? && !pc.together
    case EraseAndLink(_) => pc.Relinking? && pc.together
    case Link(_) => pc.Linking?
    case DrawFlush(_) => pc.Idle?
    case PublishFlush(_) => pc.Flushing?
  }

  function Moved(s: State, t: nat, pc: Pc): State
    requires t < |s.threads|
  {
    s.(threads := s.threads[t := pc])
  }

  function WithItems(s: State, b: nat, items: map<Key, Entry>): State
    requires b < |s.buckets|
  {
    s.(buckets := s.buckets[b := s.buckets[b].(items := items)])
  }

  function WithIndex(s: State, b: nat, index: seq<Stamp>): State
    requires b < |s.buckets|
  {
    s.(buckets := s.buckets[b := s.buckets[b].(index := index)])
  }

  function Draw(s: State, key: Key): State {
    s.(clock := s.clock + 1, owner := s.owner[s.clock := key])
  }

  function Logged(s: State, e: Event): State {
    s.(log := s.log + [e])
  }

  function StoreSection(items: map<Key, Entry>, pc: Pc, flushed: nat): (map<Key, Entry>, Put)
    requires pc.Storing?
  {
    if pc.add then AddItem(items, pc.req, pc.now, flushed, pc.token, pc.ts)
    else PutItem(items, pc.req, pc.now, pc.token, pc.ts)
  }

  lemma StoreSectionWrote(items: map<Key, Entry>, pc: Pc, flushed: nat)
    requires pc.Storing?
    ensures var (items', put) := StoreSection(items, pc, flushed); Wrote(items, items', put, pc.req, pc.token, pc.ts)
  {
    AddItemWrote(items, pc.req, pc.now, flushed, pc.token, pc.ts);
    PutItemWrote(items, pc.req, pc.now, pc.token, pc.ts);
  }

  function Step(s: State, a: Action): State
    requires Enabled(s, a)
  {
    var pc := s.threads[a.t];
    match a
    case BeginStore(t, req, add, now, token) =>
      Moved(Draw(s, req.key), t, Storing(req, add, s.clock, now, token))
    case BeginGet(t, key, now) =>
      Moved(Draw(s, key), t, Fetching(key, s.clock, now))
    case Evict(t, b, now, first, second) =>
      s.(buckets := s.buckets[b := RemoveLruAcross(s.buckets[b], now, first, second)])
    case GiveUp(t) =>
      Moved(s, t, Idle)
    case StoreItem(t) =>
      var b := BucketOf(pc.req.key);
      var (items', put) := StoreSection(s.buckets[b].items, pc, s.flushed);
      var s' := WithItems(s, b, items');
      var stored := Stored(pc.req.key, Payload(pc.req.value, pc.req.flags, pc.token));
      (match put
       case Overwrote(prior) => Moved(Logged(s', stored), t, Relinking(pc.req.key, prior, pc.ts, pc.add))
       case Created => Moved(Logged(s', stored), t, Linking(pc.req.key, pc.ts))
       case _ => Moved(s', t, Idle))
    case GetItem(t) =>
      var b := BucketOf(pc.key);
      var (items', found) := FetchItem(s.buckets[b].items, pc.key, pc.now, s.flushed, pc.ts);
      var s' := WithItems(s, b, items');
      (match found
       case None => Moved(s', t, Idle)
       case Some(e) => Moved(Logged(s', Fetched(pc.key, PayloadOf(e))), t, Relinking(pc.key, e.stamp, pc.ts, true)))
    case Delete(t, key, expiry, now) =>
      var b := BucketOf(key);
      var (items', done) := DeleteItem(s.buckets[b].items, key, expiry, now, s.flushed);
      var s' := WithItems(s, b, items');
      if done && expiry == 0 then Logged(s', Deleted(key)) else s'
    case EraseOld(t) =>
      var b := BucketOf(pc.key);
      Moved(WithIndex(s, b, EraseStamp(s.buckets[b].index, pc.prior)), t, Linking(pc.key, pc.ts))
    case EraseAndLink(t) =>
      var b := BucketOf(pc.key);
      Moved(WithIndex(s, b, InsertStamp(EraseStamp(s.buckets[b].index, pc.prior), Stamp(pc.ts, pc.key))), t, Idle)
    case Link(t) =>
      var b := BucketOf(pc.key);
      Moved(WithIndex(s, b, InsertStamp(s.buckets[b].index, Stamp(pc.ts, pc.key))), t, Idle)
    case DrawFlush(t) =>
      Moved(s.(clock := s.clock + 1), t, Flushing(s.clock + 1))
    case PublishFlush(t) =>
      Moved(s.(flushed := pc.ts), t, Idle)
  }

  /** states are the successive states of the run of these actions. */
  ghost predicate IsRun(states: seq<State>, run: seq<Action>, workers: nat) {
    && |states| == |run| + 1
    && states[0] == Init(workers)
    && forall i :: 0 <= i < |run| ==> Enabled(states[i], run[i]) && states[i + 1] == Step(states[i], run[i])
  }

  // ---------- the invariant between map and index ----------

  /** The stamp a thread holds and has not put into an index yet. */
  function Held(pc: Pc): Option<nat> {
    match pc
    case Storing(_, _, ts, _, _) => Some(ts)
    case Fetching(_, ts, _) => Some(ts)
    case Relinking(_, _, ts, _) => Some(ts)
    case Linking(_, ts) => Some(ts)
    case _ => None
  }

  /** The thread has still to insert an index entry for k. */
  predicate Owes(pc: Pc, k: Key) {
    (pc.Relinking? || pc.Linking?) && pc.key == k
  }

  predicate Owns(owner: map<nat, Key>, at: nat, k: Key) {
    at in owner && owner[at] == k
  }

  ghost predicate PcOwned(owner: map<nat, Key>, pc: Pc) {
    match pc
    case Storing(req, _, ts, _, _) => Owns(owner, ts, req.key)
    case Fetching(key, ts, _) => Owns(owner, ts, key)
    case Relinking(key, prior, ts, _) => Owns(owner, ts, key) && Owns(owner, prior, key)
    case Linking(key, ts) => Owns(owner, ts, key)
    case _ => true
  }

  /** Every stamp in the bucket belongs to its key, and every key to the bucket. */
  ghost predicate BucketOwned(owner: map<nat, Key>, b: nat, bucket: Bucket) {
    && Ordered(bucket.index)
    && (forall x :: x in bucket.index ==> Owns(owner, x.at, x.key) && BucketOf(x.key) == b)
    && (forall k :: k in bucket.items ==> Owns(owner, bucket.items[k].stamp, k) && BucketOf(k) == b)
  }

  ghost predicate Indexed(index: seq<Stamp>, k: Key) {
    exists x :: x in index && x.key == k
  }

  ghost predicate Owed(threads: seq<Pc>, k: Key) {
    exists t :: 0 <= t < |threads| && Owes(threads[t], k)
  }

  /** Every key of the bucket's map has an index entry, or a thread that owes one. */
  ghost predicate Linked(bucket: Bucket, threads: seq<Pc>) {
    forall k :: k in bucket.items ==> Indexed(bucket.index, k) || Owed(threads, k)
  }

  /** Held stamps are in no index and no two threads hold the same one. */
  ghost predicate HeldApart(s: State) {
    && (forall t, b, x :: 0 <= t < |s.threads| && 0 <= b < |s.buckets| && x in s.buckets[b].index ==>
          Held(s.threads[t]) != Some(x.at))
    && (forall t, u :: 0 <= t < u < |s.threads| && Held(s.threads[t]).Some? ==>
          Held(s.threads[t]) != Held(s.threads[u]))
  }

  ghost predicate Inv(s: State) {
    && Shaped(s)
    && (forall at :: at in s.owner ==> at < s.clock)
    && (forall b :: 0 <= b < BUCKETS ==> BucketOwned(s.owner, b, s.buckets[b]))
    && (forall t :: 0 <= t < |s.threads| ==> PcOwned(s.owner, s.threads[t]))
    && HeldApart(s)
    && (forall b :: 0 <= b < BUCKETS ==> Linked(s.buckets[b], s.threads))
  }

  lemma InitInv(workers: nat)
    ensures Inv(Init(workers))
  {
  }

  // Drawing a stamp.

  lemma DrawInv(s: State, t: nat, key: Key, pc: Pc)
    requires Inv(s) && t < |s.threads| && s.threads[t].Idle?
    requires Held(pc) == Some(s.clock) && PcOwned(Draw(s, key).owner, pc)
    ensures Inv(Moved(Draw(s, key), t, pc))
  {
    var s' := Moved(Draw(s, key), t, pc);
    forall b | 0 <= b < BUCKETS
      ensures BucketOwned(s'.owner, b, s'.buckets[b]) && Linked(s'.buckets[b], s'.threads)
    {
      assert BucketOwned(s.owner, b, s.buckets[b]);
      StillLinked(s.buckets[b], s.threads, t, pc);
    }
    forall u | 0 <= u < |s'.threads|
      ensures PcOwned(s'.owner, s'.threads[u])
    {
      assert PcOwned(s.owner, s.threads[u]);
    }
    forall u, b, x | 0 <= u < |s'.threads| && 0 <= b < |s'.buckets| && x in s'.buckets[b].index
      ensures Held(s'.threads[u]) != Some(x.at)
    {
      assert BucketOwned(s.owner, b, s.buckets[b]);
    }
    forall u | 0 <= u < |s.threads| && u != t
      ensures Held(s.threads[u]) != Some(s.clock)
    {
      assert PcOwned(s.owner, s.threads[u]);
    }
  }

  /** A thread that owed nothing can move anywhere without unlinking a key. */
  lemma StillLinked(bucket: Bucket, threads: seq<Pc>, t: nat, pc: Pc)
    requires Linked(bucket, threads) && t < |threads|
    requires !(threads[t].Relinking? || threads[t].Linking?)
    ensures Linked(bucket, threads[t := pc])
  {
    forall k | k in bucket.items && !Indexed(bucket.index, k)
      ensures Owed(threads[t := pc], k)
    {
      var u :| 0 <= u < |threads| && Owes(threads[u], k);
      assert Owes(threads[t := pc][u], k);
    }
  }

  /**
   * A section in bucket b by thread t: new bucket, new pc. Stamps already in the index may go, and
   * the one stamp that may come is the one the thread held and now gives up.
   */
  lemma SectionInv(s: State, s': State, t: nat, b: nat)
    requires Inv(s) && t < |s.threads| && b < BUCKETS && |s'.threads| == |s.threads| && Shaped(s')
    requires s'.threads == s.threads[t := s'.threads[t]] && s'.buckets == s.buckets[b := s'.buckets[b]]
    requires s'.owner == s.owner && s'.clock >= s.clock
    requires BucketOwned(s.owner, b, s'.buckets[b]) && PcOwned(s.owner, s'.threads[t])
    requires Held(s'.threads[t]).None? || Held(s'.threads[t]) == Held(s.threads[t])
    requires forall x :: x in s'.buckets[b].index ==>
      x in s.buckets[b].index || (Some(x.at) == Held(s.threads[t]) && Held(s'.threads[t]).None?)
    requires forall k :: Owes(s.threads[t], k) ==> BucketOf(k) == b
    requires Linked(s'.buckets[b], s'.threads)
    ensures Inv(s')
  {
    forall c | 0 <= c < BUCKETS
      ensures BucketOwned(s'.owner, c, s'.buckets[c])
    {
      assert BucketOwned(s.owner, c, s.buckets[c]);
    }
    forall u | 0 <= u < |s'.threads|
      ensures PcOwned(s'.owner, s'.threads[u])
    {
      assert PcOwned(s.owner, s.threads[u]);
    }
    forall c | 0 <= c < BUCKETS
      ensures Linked(s'.buckets[c], s'.threads)
    {
      if c != b {
        OtherBucketLinked(s.owner, s.buckets[c], c, s.threads, t, s'.threads[t], b);
      }
    }
  }

  lemma OtherBucketLinked(owner: map<nat, Key>, bucket: Bucket, c: nat, threads: seq<Pc>, t: nat, pc: Pc, b: nat)
    requires Linked(bucket, threads) && BucketOwned(owner, c, bucket) && t < |threads| && c != b
    requires forall k :: Owes(threads[t], k) ==> BucketOf(k) == b
    ensures Linked(bucket, threads[t := pc])
  {
    forall k | k in bucket.items && !Indexed(bucket.index, k)
      ensures Owed(threads[t := pc], k)
    {
      var u :| 0 <= u < |threads| && Owes(threads[u], k);
      assert Owes(threads[t := pc][u], k);
    }
  }

  lemma EvictInv(s: State, a: Action)
    requires Inv(s) && a.Evict? && Enabled(s, a)
    ensures Inv(Step(s, a))
  {
    hide BucketOf, Wrap;
    var s', b := Step(s, a), a.b;
    var bucket, bucket' := s.buckets[b], s'.buckets[b];
    assert BucketOwned(s.owner, b, bucket) && Linked(bucket, s.threads);
    if bucket.index != [] {
      var v := VictimAcross(bucket, a.now, a.first, a.second);
      assert bucket'.index == bucket.index[..v] + bucket.index[v + 1..];
      forall k | k in bucket'.items && Indexed(bucket.index, k)
        ensures Indexed(bucket'.index, k)
      {
        var x :| x in bucket.index && x.key == k;
        assert x != bucket.index[v];
        assert x in bucket'.index;
      }
      assert s'.threads == s.threads;
    }
    SectionInv(s, s', a.t, b);
  }

  lemma StoreItemInv(s: State, a: Action)
    requires Inv(s) && a.StoreItem? && Enabled(s, a)
    ensures Inv(Step(s, a))
  {
    var s', pc := Step(s, a), s.threads[a.t];
    var key, b := pc.req.key, BucketOf(pc.req.key);
    assert PcOwned(s.owner, pc) && BucketOwned(s.owner, b, s.buckets[b]) && Linked(s.buckets[b], s.threads);
    hide StoreSection, BucketOf;
    StoreSectionWrote(s.buckets[b].items, pc, s.flushed);
    StillLinked(s.buckets[b], s.threads, a.t, s'.threads[a.t]);
    if key in s'.buckets[b].items && key !in s.buckets[b].items {
      assert Owes(s'.threads[a.t], key);
    }
    SectionInv(s, s', a.t, b);
  }

  lemma GetItemInv(s: State, a: Action)
    requires Inv(s) && a.GetItem? && Enabled(s, a)
    ensures Inv(Step(s, a))
  {
    hide BucketOf, Wrap;
    var s', pc := Step(s, a), s.threads[a.t];
    var b := BucketOf(pc.key);
    assert PcOwned(s.owner, pc) && BucketOwned(s.owner, b, s.buckets[b]) && Linked(s.buckets[b], s.threads);
    StillLinked(s.buckets[b], s.threads, a.t, s'.threads[a.t]);
    SectionInv(s, s', a.t, b);
  }

  lemma DeleteInv(s: State, a: Action)
    requires Inv(s) && a.Delete? && Enabled(s, a)
    ensures Inv(Step(s, a))
  {
    hide BucketOf, Wrap;
    var s', b := Step(s, a), BucketOf(a.key);
    assert BucketOwned(s.owner, b, s.buckets[b]) && Linked(s.buckets[b], s.threads);
    SectionInv(s, s', a.t, b);
  }

  /** Erasing a stamp drawn for one key leaves every other key's index entries alone. */
  lemma EraseTouchesOwnKey(s: State, b: nat, prior: nat, key: Key)
    requires Inv(s) && b < BUCKETS && Owns(s.owner, prior, key)
    ensures forall x :: x in s.buckets[b].index && x.key != key ==> x in EraseStamp(s.buckets[b].index, prior)
  {
    assert BucketOwned(s.owner, b, s.buckets[b]);
    EraseStampCorrect(s.buckets[b].index, prior);
  }

  lemma EraseOldInv(s: State, a: Action)
    requires Inv(s) && a.EraseOld? && Enabled(s, a)
    ensures Inv(Step(s, a))
  {
    var s', pc := Step(s, a), s.threads[a.t];
    var b := BucketOf(pc.key);
    assert PcOwned(s.owner, pc) && BucketOwned(s.owner, b, s.buckets[b]) && Linked(s.buckets[b], s.threads);
    EraseTouchesOwnKey(s, b, pc.prior, pc.key);
    EraseStampCorrect(s.buckets[b].index, pc.prior);
    StillLinkedBut(s.buckets[b], s'.buckets[b].index, s.threads, a.t, s'.threads[a.t], pc.key);
    assert Owes(s'.threads[a.t], pc.key);
    SectionInv(s, s', a.t, b);
  }

  lemma EraseAndLinkInv(s: State, a: Action)
    requires Inv(s) && a.EraseAndLink? && Enabled(s, a)
    ensures Inv(Step(s, a))
  {
    var s', pc := Step(s, a), s.threads[a.t];
    var b := BucketOf(pc.key);
    var erased := EraseStamp(s.buckets[b].index, pc.prior);
    assert PcOwned(s.owner, pc) && BucketOwned(s.owner, b, s.buckets[b]) && Linked(s.buckets[b], s.threads);
    EraseTouchesOwnKey(s, b, pc.prior, pc.key);
    EraseStampCorrect(s.buckets[b].index, pc.prior);
    InsertStampCorrect(erased, Stamp(pc.ts, pc.key));
    assert !HasStamp(erased, pc.ts);
    assert Stamp(pc.ts, pc.key) in s'.buckets[b].index;
    StillLinkedBut(s.buckets[b], s'.buckets[b].index, s.threads, a.t, Idle, pc.key);
    SectionInv(s, s', a.t, b);
  }

  lemma LinkInv(s: State, a: Action)
    requires Inv(s) && a.Link? && Enabled(s, a)
    ensures Inv(Step(s, a))
  {
    var s', pc := Step(s, a), s.threads[a.t];
    var b := BucketOf(pc.key);
    assert PcOwned(s.owner, pc) && BucketOwned(s.owner, b, s.buckets[b]) && Linked(s.buckets[b], s.threads);
    InsertStampCorrect(s.buckets[b].index, Stamp(pc.ts, pc.key));
    assert !HasStamp(s.buckets[b].index, pc.ts);
    assert Stamp(pc.ts, pc.key) in s'.buckets[b].index;
    StillLinkedBut(s.buckets[b], s'.buckets[b].index, s.threads, a.t, Idle, pc.key);
    SectionInv(s, s', a.t, b);
  }

  /** Changing only key's index entries and thread t, which owes only key, keeps the other keys linked. */
  lemma StillLinkedBut(bucket: Bucket, index: seq<Stamp>, threads: seq<Pc>, t: nat, pc: Pc, key: Key)
    requires Linked(bucket, threads) && t < |threads|
    requires forall k :: Owes(threads[t], k) ==> k == key
    requires forall x :: x in bucket.index && x.key != key ==> x in index
    ensures forall k :: k in bucket.items && k != key ==> Indexed(index, k) || Owed(threads[t := pc], k)
  {
    forall k | k in bucket.items && k != key && !Indexed(index, k)
      ensures Owed(threads[t := pc], k)
    {
      var u :| 0 <= u < |threads| && Owes(threads[u], k);
      assert Owes(threads[t := pc][u], k);
    }
  }

  lemma StepInv(s: State, a: Action)
    requires Inv(s) && Enabled(s, a)
    ensures Inv(Step(s, a))
  {
    var s' := Step(s, a);
    match a
    case BeginStore(t, req, add, now, token) => DrawInv(s, t, req.key, Storing(req, add, s.clock, now, token));
    case BeginGet(t, key, now) => DrawInv(s, t, key, Fetching(key, s.clock, now));
    case Evict(_, _, _, _, _) => EvictInv(s, a);
    case StoreItem(_) => StoreItemInv(s, a);
    case GetItem(_) => GetItemInv(s, a);
    case Delete(_, _, _, _) => DeleteInv(s, a);
    case EraseOld(_) => EraseOldInv(s, a);
    case EraseAndLink(_) => EraseAndLinkInv(s, a);
    case Link(_) => LinkInv(s, a);
    case _ =>
      assert BucketOwned(s.owner, 0, s.buckets[0]) && Linked(s.buckets[0], s.threads);
      StillLinked(s.buckets[0], s.threads, a.t, s'.threads[a.t]);
      SectionInv(s, s', a.t, 0);
  }

  lemma {:induction false} RunInv(states: seq<State>, run: seq<Action>, workers: nat, i: nat)
    requires IsRun(states, run, workers) && i < |states|
    ensures Inv(states[i])
  {
    if i == 0 {
      InitInv(workers);
    } else {
      RunInv(states, run, workers, i - 1);
      StepInv(states[i - 1], run[i - 1]);
    }
  }

  /**
   * In every state of every run: a key in a bucket's map has an index entry in the same bucket, or a
   * thread still owes it; and no stamp appears twice, in one index or across two, or is still held.
   */
  lemma MapAndIndexStayLinked(states: seq<State>, run: seq<Action>, workers: nat, i: nat)
    requires IsRun(states, run, workers) && i < |states|
    ensures var s := states[i];
      && Shaped(s)
      && (forall b, k :: 0 <= b < BUCKETS && k in s.buckets[b].items ==>
            BucketOf(k) == b && (Indexed(s.buckets[b].index, k) || Owed(s.threads, k)))
      && (forall b, c, x, y | 0 <= b < BUCKETS && 0 <= c < BUCKETS && x in s.buckets[b].index && y in s.buckets[c].index
            :: x.at == y.at ==> x == y && b == c)
      && HeldApart(s)
  {
    RunInv(states, run, workers, i);
    var s := states[i];
    forall b, k | 0 <= b < BUCKETS && k in s.buckets[b].items
      ensures BucketOf(k) == b && (Indexed(s.buckets[b].index, k) || Owed(s.threads, k))
    {
      assert BucketOwned(s.owner, b, s.buckets[b]) && Linked(s.buckets[b], s.threads);
    }
    forall b, c, x, y | 0 <= b < BUCKETS && 0 <= c < BUCKETS && x in s.buckets[b].index && y in s.buckets[c].index
      ensures x.at == y.at ==> x == y && b == c
    {
      assert BucketOwned(s.owner, b, s.buckets[b]) && BucketOwned(s.owner, c, s.buckets[c]);
    }
  }

  /** In every run, an erase by stamp removes nothing that belongs to another key. */
  lemma EraseIsPrivate(states: seq<State>, run: seq<Action>, workers: nat, i: nat, b: nat, x: Stamp)
    requires IsRun(states, run, workers) && i < |run| && (run[i].EraseOld? || run[i].EraseAndLink?)
    requires b < BUCKETS && Shaped(states[i]) && Shaped(states[i + 1]) && run[i].t < |states[i].threads|
    requires x in states[i].buckets[b].index && x !in states[i + 1].buckets[b].index
    ensures x.key == states[i].threads[run[i].t].key
  {
    RunInv(states, run, workers, i);
    var s, pc := states[i], states[i].threads[run[i].t];
    var c := BucketOf(pc.key);
    assert PcOwned(s.owner, pc) && BucketOwned(s.owner, c, s.buckets[c]);
    EraseTouchesOwnKey(s, c, pc.prior, pc.key);
    EraseStampCorrect(s.buckets[c].index, pc.prior);
    InsertStampCorrect(EraseStamp(s.buckets[c].index, pc.prior), Stamp(pc.ts, pc.key));
  }

  // ---------- refinement of a map that never evicts ----------

  /** Whatever the bucket still holds is what the plain map holds. */
  ghost predicate ItemsWritten(items: map<Key, Entry>, log: seq<Event>) {
    forall k :: k in items ==> LastWrite(log, k) == Some(PayloadOf(items[k]))
  }

  ghost predicate FetchesFaithful(log: seq<Event>) {
    forall i :: 0 <= i < |log| && log[i].Fetched? ==> LastWrite(log[..i], log[i].key) == Some(log[i].payload)
  }

  ghost predicate Contained(s: State) {
    && Shaped(s)
    && (forall b :: 0 <= b < BUCKETS ==> ItemsWritten(s.buckets[b].items, s.log))
    && (forall b, k :: 0 <= b < BUCKETS && k in s.buckets[b].items ==> BucketOf(k) == b)
    && FetchesFaithful(s.log)
  }

  lemma LoggedWrites(log: seq<Event>, e: Event)
    ensures forall k :: LastWrite(log + [e], k) == After(LastWrite(log, k), e, k)
    ensures forall i :: 0 <= i < |log| ==> (log + [e])[..i] == log[..i]
    ensures (log + [e])[..|log|] == log
  {
    assert (log + [e])[..|log + [e]| - 1] == log;
  }

  /** A map section on key's bucket that logs at most one event about key keeps the store inside the plain map. */
  lemma SectionContained(s: State, s': State, key: Key)
    requires Contained(s) && Shaped(s')
    requires s'.buckets == s.buckets[BucketOf(key) := s'.buckets[BucketOf(key)]]
    requires s'.log == s.log || exists e: Event :: About(e, key) && s'.log == s.log + [e]
    requires forall k :: k in s'.buckets[BucketOf(key)].items && k != key ==>
      k in s.buckets[BucketOf(key)].items &&
      PayloadOf(s'.buckets[BucketOf(key)].items[k]) == PayloadOf(s.buckets[BucketOf(key)].items[k])
    requires key in s'.buckets[BucketOf(key)].items ==>
      LastWrite(s'.log, key) == Some(PayloadOf(s'.buckets[BucketOf(key)].items[key]))
    requires FetchesFaithful(s'.log)
    ensures Contained(s')
  {
    if s'.log != s.log {
      LoggedWrites(s.log, s'.log[|s.log|]);
    }
  }

  lemma FetchLogged(log: seq<Event>, e: Event)
    requires FetchesFaithful(log)
    requires e.Fetched? ==> LastWrite(log, e.key) == Some(e.payload)
    ensures FetchesFaithful(log + [e])
  {
    LoggedWrites(log, e);
  }

  lemma StoreItemContained(s: State, a: Action)
    requires Contained(s) && a.StoreItem? && Enabled(s, a)
    ensures Contained(Step(s, a))
  {
    var s', pc := Step(s, a), s.threads[a.t];
    var e := Stored(pc.req.key, Payload(pc.req.value, pc.req.flags, pc.token));
    hide StoreSection, BucketOf;
    StoreSectionWrote(s.buckets[BucketOf(pc.req.key)].items, pc, s.flushed);
    LoggedWrites(s.log, e);
    FetchLogged(s.log, e);
    SectionContained(s, s', pc.req.key);
  }

  lemma GetItemContained(s: State, a: Action)
    requires Contained(s) && a.GetItem? && Enabled(s, a)
    ensures Contained(Step(s, a))
  {
    hide BucketOf, LastWrite;
    var s', pc := Step(s, a), s.threads[a.t];
    var items := s.buckets[BucketOf(pc.key)].items;
    assert ItemsWritten(items, s.log);
    if pc.key in items {
      var e := Fetched(pc.key, PayloadOf(items[pc.key]));
      LoggedWrites(s.log, e);
      FetchLogged(s.log, e);
    }
    SectionContained(s, s', pc.key);
  }

  lemma DeleteContained(s: State, a: Action)
    requires Contained(s) && a.Delete? && Enabled(s, a)
    ensures Contained(Step(s, a))
  {
    hide BucketOf, LastWrite, Wrap;
    var s' := Step(s, a);
    assert ItemsWritten(s.buckets[BucketOf(a.key)].items, s.log);
    LoggedWrites(s.log, Deleted(a.key));
    FetchLogged(s.log, Deleted(a.key));
    SectionContained(s, s', a.key);
  }

  lemma StepContained(s: State, a: Action)
    requires Contained(s) && Enabled(s, a)
    ensures Contained(Step(s, a))
  {
    match a
    case StoreItem(_) => StoreItemContained(s, a);
    case GetItem(_) => GetItemContained(s, a);
    case Delete(_, _, _, _) => DeleteContained(s, a);
    case Evict(_, b, now, first, second) =>
      assert ItemsWritten(s.buckets[b].items, s.log);
      assert RemoveLruAcross(s.buckets[b], now, first, second).items.Keys <= s.buckets[b].items.Keys;
    case _ =>
  }

  /**
   * Over every run the cache refines a map that never evicts: each value a get returned is that of the
   * latest successful insert or add on its key, with no successful immediate delete in between.
   */
  lemma {:induction false} GetsReturnLastWrite(states: seq<State>, run: seq<Action>, workers: nat, i: nat)
    requires IsRun(states, run, workers) && i < |states|
    ensures Contained(states[i])
    ensures forall n :: 0 <= n < |states[i].log| && states[i].log[n].Fetched? ==>
      LastWrite(states[i].log[..n], states[i].log[n].key) == Some(states[i].log[n].payload)
  {
    hide LastWrite;
    if i > 0 {
      GetsReturnLastWrite(states, run, workers, i - 1);
      StepContained(states[i - 1], run[i - 1]);
    }
  }
}
