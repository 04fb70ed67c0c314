/**
 * Flushes over every interleaving. The flush stamp is drawn in one step and published in another, so what a flush
 * hides is decided at its publication: exactly the items whose stamps lie below the flush stamp then.
 */
module LruFlush {
  import opened Wrappers
  import opened LruModel
  import opened LruHistory
  import opened LruConcurrent

  function Items(s: State, k: Key): map<Key, Entry>
    requires Shaped(s)
  {
    s.buckets[BucketOf(k)].items
  }

  /** k is absent, or hidden by the last published flush. */
  predicate Swept(s: State, k: Key)
    requires Shaped(s)
  {
    k in Items(s, k) ==> Items(s, k)[k].stamp < s.flushed
  }

  /** k's stamp, if k is in the map. */
  function StampOf(s: State, k: Key): Option<nat>
    requires Shaped(s)
  {
    if k in Items(s, k) then Some(Items(s, k)[k].stamp) else None
  }

  /** k is absent, still hidden under its stamp of then, or what was last written to it since the log had n events. */
  ghost predicate SweptOrNew(s: State, n: nat, k: Key, past: Option<nat>)
    requires Shaped(s) && n <= |s.log|
  {
    k in Items(s, k) ==>
      || (past == StampOf(s, k) && Items(s, k)[k].stamp < s.flushed)
      || LastWrite(s.log[n..], k) == Some(PayloadOf(Items(s, k)[k]))
  }

  /** s' logs nothing, or one event; a fetch of k is of what was written since the log had n events. */
  ghost predicate LogsOne(s: State, s': State, n: nat, k: Key)
    requires n <= |s.log|
  {
    || s'.log == s.log
    || exists e: Event :: s'.log == s.log + [e] &&
         (e.Fetched? && e.key == k ==> LastWrite(s.log[n..], k) == Some(e.payload))
  }

  lemma SinceLogged(log: seq<Event>, e: Event, n: nat, k: Key)
    requires n <= |log|
    ensures LastWrite((log + [e])[n..], k) == After(LastWrite(log[n..], k), e, k)
  {
    assert (log + [e])[n..] == log[n..] + [e];
    LoggedWrites(log[n..], e);
  }

  /** A step that keeps k's payload and stamp, or drops k, and does not write or delete k. */
  lemma Untouched(s: State, s': State, n: nat, k: Key, past: Option<nat>)
    requires Shaped(s) && Shaped(s') && n <= |s.log| && SweptOrNew(s, n, k, past) && s'.flushed == s.flushed
    requires k in Items(s', k) ==> k in Items(s, k) && Items(s', k)[k].stamp == Items(s, k)[k].stamp
                                   && PayloadOf(Items(s', k)[k]) == PayloadOf(Items(s, k)[k])
    requires s'.log == s.log || exists e: Event :: s'.log == s.log + [e] && !About(e, k)
    ensures SweptOrNew(s', n, k, past) && LogsOne(s, s', n, k)
  {
    hide LastWrite, BucketOf;
    if s'.log != s.log {
      var e: Event :| s'.log == s.log + [e] && !About(e, k);
      SinceLogged(s.log, e, n, k);
    }
  }

  lemma StoreSweeps(s: State, a: Action, n: nat, k: Key, past: Option<nat>)
    requires Enabled(s, a) && a.StoreItem? && n <= |s.log| && SweptOrNew(s, n, k, past)
    ensures SweptOrNew(Step(s, a), n, k, past) && LogsOne(s, Step(s, a), n, k)
  {
    hide LastWrite, BucketOf;
    var s', pc := Step(s, a), s.threads[a.t];
    var items := s.buckets[BucketOf(pc.req.key)].items;
    StoreSectionWrote(items, pc, s.flushed);
    var put := StoreSection(items, pc, s.flushed).1;
    if pc.req.key == k && (put.Created? || put.Overwrote?) {
      var e := Stored(k, Payload(pc.req.value, pc.req.flags, pc.token));
      assert s'.log == s.log + [e];
      SinceLogged(s.log, e, n, k);
    } else {
      Untouched(s, s', n, k, past);
    }
  }

  lemma GetSweeps(s: State, a: Action, n: nat, k: Key, past: Option<nat>)
    requires Enabled(s, a) && a.GetItem? && n <= |s.log| && SweptOrNew(s, n, k, past)
    ensures SweptOrNew(Step(s, a), n, k, past) && LogsOne(s, Step(s, a), n, k)
  {
    hide LastWrite, BucketOf;
    var s', pc := Step(s, a), s.threads[a.t];
    if pc.key == k && FetchItem(Items(s, k), k, pc.now, s.flushed, pc.ts).1.Some? {
      var e := Fetched(k, PayloadOf(Items(s, k)[k]));
      assert s'.log == s.log + [e];
      SinceLogged(s.log, e, n, k);
    } else {
      Untouched(s, s', n, k, past);
    }
  }

  lemma DeleteSweeps(s: State, a: Action, n: nat, k: Key, past: Option<nat>)
    requires Enabled(s, a) && a.Delete? && n <= |s.log| && SweptOrNew(s, n, k, past)
    ensures SweptOrNew(Step(s, a), n, k, past) && LogsOne(s, Step(s, a), n, k)
  {
    hide LastWrite, BucketOf;
    var s' := Step(s, a);
    if a.key == k && s'.log != s.log {
      assert s'.log == s.log + [Deleted(k)];
      SinceLogged(s.log, Deleted(k), n, k);
    } else {
      Untouched(s, s', n, k, past);
    }
  }

  /** A publication is past a stamp when it publishes a greater one. */
  predicate PublishesPast(s: State, a: Action, stamp: Option<nat>)
    requires Enabled(s, a)
  {
    a.PublishFlush? && stamp.Some? ==> s.threads[a.t].ts > stamp.value
  }

  lemma StepSweeps(s: State, a: Action, n: nat, k: Key, past: Option<nat>)
    requires Enabled(s, a) && PublishesPast(s, a, past) && n <= |s.log| && SweptOrNew(s, n, k, past)
    ensures Shaped(Step(s, a)) && n <= |Step(s, a).log|
    ensures SweptOrNew(Step(s, a), n, k, past) && LogsOne(s, Step(s, a), n, k)
  {
    hide LastWrite, BucketOf, InsertStamp, EraseStamp;
    if a.StoreItem? {
      StoreSweeps(s, a, n, k, past);
    } else if a.GetItem? {
      GetSweeps(s, a, n, k, past);
    } else if a.Delete? {
      DeleteSweeps(s, a, n, k, past);
    } else if !a.PublishFlush? {
      Untouched(s, Step(s, a), n, k, past);
    }
  }

  lemma {:induction false} RunSweeps(states: seq<State>, run: seq<Action>, workers: nat, i: nat, j: nat, k: Key)
    requires IsRun(states, run, workers) && i <= j < |states| && Shaped(states[i]) && Swept(states[i], k)
    requires forall m :: i <= m < j ==> PublishesPast(states[m], run[m], StampOf(states[i], k))
    ensures Shaped(states[j]) && |states[i].log| <= |states[j].log|
    ensures SweptOrNew(states[j], |states[i].log|, k, StampOf(states[i], k))
  {
    hide LastWrite, BucketOf, Step;
    if j > i {
      RunSweeps(states, run, workers, i, j - 1, k);
      StepSweeps(states[j - 1], run[j - 1], |states[i].log|, k, StampOf(states[i], k));
    }
  }

  /**
   * In every interleaving: a key that a flush swept at its publication is never served again except with a value
   * whose write was logged after it, as long as no later publication falls back to the key's stamp of then. For a
   * key that was absent there is no condition.
   */
  lemma SweptIsNotServed(states: seq<State>, run: seq<Action>, workers: nat, i: nat, j: nat, k: Key, p: Payload)
    requires IsRun(states, run, workers) && i < j < |run| && run[i].PublishFlush?
    requires Shaped(states[i + 1]) && Swept(states[i + 1], k)
    requires forall m :: i < m <= j ==> PublishesPast(states[m], run[m], StampOf(states[i + 1], k))
    requires states[j + 1].log == states[j].log + [Fetched(k, p)]
    ensures |states[i + 1].log| <= |states[j].log|
    ensures LastWrite(states[j].log[|states[i + 1].log|..], k) == Some(p)
  {
    hide LastWrite, BucketOf, Step;
    RunSweeps(states, run, workers, i + 1, j, k);
    StepSweeps(states[j], run[j], |states[i + 1].log|, k, StampOf(states[i + 1], k));
    assert states[j + 1].log[|states[j].log|] == Fetched(k, p);
  }

  /** A publication that does not lower gFlushAllTimestamp. */
  predicate Raises(s: State, a: Action)
    requires Enabled(s, a)
  {
    a.PublishFlush? ==> s.threads[a.t].ts >= s.flushed
  }

  lemma {:induction false} RaisesPast(states: seq<State>, run: seq<Action>, workers: nat, i: nat, j: nat)
    requires IsRun(states, run, workers) && i <= j < |states|
    requires forall m :: i <= m < j ==> Raises(states[m], run[m])
    ensures states[i].flushed <= states[j].flushed
  {
    hide BucketOf, InsertStamp, EraseStamp;
    if j > i {
      RaisesPast(states, run, workers, i, j - 1);
      assert states[j] == Step(states[j - 1], run[j - 1]);
    }
  }

  /** In particular when no later publication lowers the flush stamp. */
  lemma SweptWhileRaising(states: seq<State>, run: seq<Action>, workers: nat, i: nat, j: nat, k: Key, p: Payload)
    requires IsRun(states, run, workers) && i < j < |run| && run[i].PublishFlush?
    requires Shaped(states[i + 1]) && Swept(states[i + 1], k)
    requires forall m :: i < m <= j ==> Raises(states[m], run[m])
    requires states[j + 1].log == states[j].log + [Fetched(k, p)]
    ensures |states[i + 1].log| <= |states[j].log|
    ensures LastWrite(states[j].log[|states[i + 1].log|..], k) == Some(p)
  {
    hide LastWrite, BucketOf, Step, Swept;
    forall m | i < m <= j
      ensures PublishesPast(states[m], run[m], StampOf(states[i + 1], k))
    {
      RaisesPast(states, run, workers, i + 1, m);
      SweptStamp(states[i + 1], k);
    }
    SweptIsNotServed(states, run, workers, i, j, k, p);
  }

  lemma SweptStamp(s: State, k: Key)
    requires Shaped(s) && Swept(s, k)
    ensures StampOf(s, k).Some? ==> StampOf(s, k).value < s.flushed
  {
  }

  /** The condition is exact: a publication keeps a swept key swept if and only if it publishes past the key's stamp. */
  lemma PublicationSweepsIff(s: State, a: Action, k: Key)
    requires Enabled(s, a) && a.PublishFlush?
    ensures Swept(Step(s, a), k) <==> PublishesPast(s, a, StampOf(s, k))
  {
    hide BucketOf;
  }

  /** And one that it did not sweep is served at once: a get by any idle thread returns the value from before it. */
  lemma SurvivorIsServed(s: State, t: nat, k: Key, now: nat)
    requires Shaped(s) && t < |s.threads| && s.threads[t] == Idle
    requires !Swept(s, k) && Items(s, k)[k].expiry >= now
    ensures var a, b := BeginGet(t, k, now), GetItem(t);
      Enabled(s, a) && Enabled(Step(s, a), b) &&
      Step(Step(s, a), b).log == s.log + [Fetched(k, PayloadOf(Items(s, k)[k]))]
  {
    hide BucketOf;
  }

  // ---------- what a flush must not hide ----------

  /** k is not hidden by a flush with stamp f. */
  predicate Seen(s: State, k: Key, f: nat)
    requires Shaped(s)
  {
    k in Items(s, k) ==> Items(s, k)[k].stamp >= f
  }

  /** The thread drew a stamp below f for k and can still put it on k: by a get, or by a store that may create k. */
  predicate Late(pc: Pc, k: Key, f: nat) {
    || (pc.Fetching? && pc.key == k && pc.ts < f)
    || (pc.Storing? && pc.req.key == k && pc.ts < f && (pc.add || pc.req.cas == ""))
  }

  ghost predicate NoneLate(s: State, k: Key, f: nat) {
    forall t :: 0 <= t < |s.threads| ==> !Late(s.threads[t], k, f)
  }

  /** The step by which a late thread hides k: a get that finds k live, or a store that creates it. */
  predicate Lowers(s: State, a: Action, k: Key, f: nat)
    requires Enabled(s, a)
  {
    var pc := s.threads[a.t];
    && Late(pc, k, f)
    && if a.GetItem? then k in Items(s, k) && !Dead(Items(s, k)[k], pc.now, s.flushed)
       else a.StoreItem? && k !in Items(s, k)
  }

  /** A key that is not hidden by f becomes so in exactly these steps, publications of other flushes included. */
  lemma HiddenByStepIff(s: State, a: Action, k: Key, f: nat)
    requires Enabled(s, a) && Seen(s, k, f)
    ensures !Seen(Step(s, a), k, f) <==> Lowers(s, a, k, f)
  {
    hide BucketOf, InsertStamp, EraseStamp;
    if a.StoreItem? {
      var pc := s.threads[a.t];
      StoreSectionWrote(s.buckets[BucketOf(pc.req.key)].items, pc, s.flushed);
    }
  }

  /** Stamps drawn once the clock has reached f are not late, so no thread becomes late. */
  lemma NoneBecomesLate(s: State, a: Action, k: Key, f: nat)
    requires Enabled(s, a) && f <= s.clock && NoneLate(s, k, f)
    ensures f <= Step(s, a).clock && NoneLate(Step(s, a), k, f)
  {
    hide BucketOf, InsertStamp, EraseStamp, StoreSection, FetchItem, DeleteItem;
  }

  /** states are the successive states of a run of these actions that starts in s. */
  ghost predicate Continues(s: State, states: seq<State>, run: seq<Action>) {
    && |states| == |run| + 1
    && states[0] == s
    && forall i :: 0 <= i < |run| ==> Enabled(states[i], run[i]) && states[i + 1] == Step(states[i], run[i])
  }

  lemma {:induction false} StaysSeen(s: State, states: seq<State>, run: seq<Action>, k: Key, f: nat, j: nat)
    requires Continues(s, states, run) && j < |states|
    requires Shaped(s) && f <= s.clock && Seen(s, k, f) && NoneLate(s, k, f)
    ensures Shaped(states[j]) && f <= states[j].clock && Seen(states[j], k, f) && NoneLate(states[j], k, f)
  {
    hide BucketOf, Step, Seen, NoneLate;
    if j > 0 {
      StaysSeen(s, states, run, k, f, j - 1);
      NotLateNotLowered(states[j - 1], run[j - 1], k, f);
      HiddenByStepIff(states[j - 1], run[j - 1], k, f);
      NoneBecomesLate(states[j - 1], run[j - 1], k, f);
      StepShaped(states[j - 1], run[j - 1]);
    }
  }

  lemma NotLateNotLowered(s: State, a: Action, k: Key, f: nat)
    requires Enabled(s, a) && NoneLate(s, k, f)
    ensures !Lowers(s, a, k, f)
  {
  }

  lemma StepShaped(s: State, a: Action)
    requires Enabled(s, a)
    ensures Shaped(Step(s, a))
  {
    hide BucketOf, InsertStamp, EraseStamp, StoreSection, FetchItem, DeleteItem;
  }

  ghost predicate FlushesDrawn(s: State) {
    s.flushed <= s.clock && forall t :: 0 <= t < |s.threads| && s.threads[t].Flushing? ==> s.threads[t].ts <= s.clock
  }

  lemma {:induction false} RunFlushesDrawn(states: seq<State>, run: seq<Action>, workers: nat, i: nat)
    requires IsRun(states, run, workers) && i < |states|
    ensures FlushesDrawn(states[i])
  {
    hide FlushesDrawn, Step;
    if i > 0 {
      RunFlushesDrawn(states, run, workers, i - 1);
      StepFlushesDrawn(states[i - 1], run[i - 1]);
    } else {
      NoFlushDrawn(workers);
    }
  }

  lemma StepFlushesDrawn(s: State, a: Action)
    requires Enabled(s, a) && FlushesDrawn(s)
    ensures FlushesDrawn(Step(s, a))
  {
    hide BucketOf, InsertStamp, EraseStamp, StoreSection, FetchItem, DeleteItem, RemoveLruAcross;
  }

  lemma NoFlushDrawn(workers: nat)
    ensures FlushesDrawn(Init(workers))
  {
  }

  /** However the run goes on from s, k is not hidden by f. */
  ghost predicate NeverHidden(s: State, k: Key, f: nat) {
    forall states, run :: Continues(s, states, run) ==> Shaped(states[|run|]) && Seen(states[|run|], k, f)
  }

  /** The system times that gets have read fit an unsigned long. */
  ghost predicate TimesFit(s: State) {
    forall t :: 0 <= t < |s.threads| && s.threads[t].Fetching? ==> s.threads[t].now <= ULONG_MAX
  }

  /** A late get hides k once another thread has stored it. */
  lemma LateGetHides(s: State, t: nat, u: nat, k: Key) returns (states: seq<State>, run: seq<Action>)
    requires Shaped(s) && t < |s.threads| && u < |s.threads| && s.threads[u] == Idle && s.flushed <= s.clock
    requires Seen(s, k, s.flushed) && s.threads[t].Fetching? && Late(s.threads[t], k, s.flushed)
    requires s.threads[t].now <= ULONG_MAX
    ensures Continues(s, states, run) && Shaped(states[|run|]) && !Seen(states[|run|], k, s.flushed)
  {
    hide BucketOf, Step;
    run := [BeginStore(u, Request(k, "", "", "", 0), false, s.threads[t].now, ""), StoreItem(u), GetItem(t)];
    var s1 := Step(s, run[0]);
    SetBegins(s, u, k, s.threads[t].now);
    assert Shaped(s1) && Items(s1, k) == Items(s, k) && s1.threads[t] == s.threads[t];
    assert s1.threads[u] == Storing(Request(k, "", "", "", 0), false, s.clock, s.threads[t].now, "");
    var s2 := Step(s1, run[1]);
    SetStores(s1, u, k, s.flushed);
    HiddenByStepIff(s2, run[2], k, s.flushed);
    StepShaped(s2, run[2]);
    states := [s, s1, s2, Step(s2, run[2])];
  }

  /** A set without expiry draws its stamp. */
  lemma SetBegins(s: State, u: nat, k: Key, now: nat)
    requires Shaped(s) && u < |s.threads| && s.threads[u] == Idle
    ensures var a := BeginStore(u, Request(k, "", "", "", 0), false, now, "");
      && Enabled(s, a)
      && Step(s, a) == s.(clock := s.clock + 1, owner := s.owner[s.clock := k],
                          threads := s.threads[u := Storing(Request(k, "", "", "", 0), false, s.clock, now, "")])
  {
  }

  /** And leaves k in the map, in sight as before and live at its time. */
  lemma SetStores(s: State, u: nat, k: Key, f: nat)
    requires Shaped(s) && u < |s.threads| && s.threads[u].Storing? && s.threads[u].req == Request(k, "", "", "", 0)
    requires !s.threads[u].add && s.threads[u].now <= ULONG_MAX && f <= s.threads[u].ts && Seen(s, k, f)
    ensures var a := StoreItem(u); var s' := Step(s, a);
      && Enabled(s, a) && Shaped(s') && s'.flushed == s.flushed
      && (forall t :: 0 <= t < |s.threads| && t != u ==> t < |s'.threads| && s'.threads[t] == s.threads[t])
      && k in Items(s', k) && Seen(s', k, f) && Items(s', k)[k].expiry >= s.threads[u].now
  {
    hide BucketOf;
  }

  /** A late store hides k, once another thread has dropped or deleted it if it is there, whatever the time. */
  lemma LateStoreHides(s: State, t: nat, u: nat, k: Key, now: nat) returns (states: seq<State>, run: seq<Action>)
    requires Shaped(s) && t < |s.threads| && u < |s.threads| && s.threads[u] == Idle
    requires Seen(s, k, s.flushed) && s.threads[t].Storing? && Late(s.threads[t], k, s.flushed)
    ensures Continues(s, states, run) && Shaped(states[|run|]) && !Seen(states[|run|], k, s.flushed)
  {
    hide BucketOf, Step;
    if k in Items(s, k) && Items(s, k)[k].expiry < now {
      run := [BeginGet(u, k, now), GetItem(u), StoreItem(t)];
      GetDrops(s, u, k, now);
      var s1 := Step(s, run[0]);
      var s2 := Step(s1, run[1]);
      HiddenByStepIff(s2, run[2], k, s.flushed);
      StepShaped(s2, run[2]);
      states := [s, s1, s2, Step(s2, run[2])];
    } else {
      run := [Delete(u, k, 0, now), StoreItem(t)];
      DeleteDrops(s, u, k, now);
      var s1 := Step(s, run[0]);
      HiddenByStepIff(s1, run[1], k, s.flushed);
      StepShaped(s1, run[1]);
      states := [s, s1, Step(s1, run[1])];
    }
  }

  /** A get of an expired key drops it and leaves the other threads alone. */
  lemma GetDrops(s: State, u: nat, k: Key, now: nat)
    requires Shaped(s) && u < |s.threads| && s.threads[u] == Idle
    requires k in Items(s, k) && Items(s, k)[k].expiry < now
    ensures var a, b := BeginGet(u, k, now), GetItem(u);
      && Enabled(s, a) && Enabled(Step(s, a), b)
      && var s' := Step(Step(s, a), b);
      && Shaped(s') && k !in Items(s', k) && s'.threads == s.threads && s'.flushed == s.flushed
  {
    hide BucketOf;
  }

  lemma DeleteDrops(s: State, u: nat, k: Key, now: nat)
    requires Shaped(s) && u < |s.threads| && s.threads[u] == Idle
    requires k in Items(s, k) ==> Items(s, k)[k].expiry >= now && Items(s, k)[k].stamp >= s.flushed
    ensures var a := Delete(u, k, 0, now);
      && Enabled(s, a) && var s' := Step(s, a);
      && Shaped(s') && k !in Items(s', k) && s'.threads == s.threads && s'.flushed == s.flushed
  {
    hide BucketOf;
  }

  /**
   * A key that a flush leaves in sight at its publication, for instance by its absence, is never hidden by that flush,
   * whatever follows, if and only if no thread then holds an earlier stamp that it can still put on the key.
   */
  lemma StaysInSightIff(states: seq<State>, run: seq<Action>, workers: nat, i: nat, k: Key)
    requires IsRun(states, run, workers) && i < |run| && run[i].PublishFlush? && Shaped(states[i + 1])
    requires Seen(states[i + 1], k, states[i + 1].flushed)
    requires TimesFit(states[i + 1])
    ensures NoneLate(states[i + 1], k, states[i + 1].flushed) <==> NeverHidden(states[i + 1], k, states[i + 1].flushed)
  {
    var s := states[i + 1];
    var f := s.flushed;
    RunFlushesDrawn(states, run, workers, i + 1);
    assert s.threads[run[i].t] == Idle && run[i].t < |s.threads|;
    hide BucketOf, Step, Seen, IsRun;
    if NoneLate(s, k, f) {
      forall more, acts | Continues(s, more, acts)
        ensures Shaped(more[|acts|]) && Seen(more[|acts|], k, f)
      {
        StaysSeen(s, more, acts, k, f, |acts|);
      }
    } else {
      var t :| 0 <= t < |s.threads| && Late(s.threads[t], k, f);
      if s.threads[t].Fetching? {
        var more, acts := LateGetHides(s, t, run[i].t, k);
        assert Continues(s, more, acts);
      } else {
        var more, acts := LateStoreHides(s, t, run[i].t, k, s.threads[t].now);
        assert Continues(s, more, acts);
      }
    }
  }

  // ---------- what a flush must hide, for good ----------

  /** Every flush that is drawn but not published has a stamp past this one. */
  ghost predicate PendingPast(s: State, past: Option<nat>) {
    past.Some? ==>
      forall t: nat :: t < |s.threads| && s.threads[t].Flushing? ==> s.threads[t].ts > past.value
  }

  ghost predicate FlushesPast(s: State, past: Option<nat>) {
    PendingPast(s, past) && (past.Some? ==> past.value < s.clock)
  }

  /** Then so is every flush still to be drawn, and every publication. */
  lemma StepFlushesPast(s: State, a: Action, past: Option<nat>)
    requires Enabled(s, a) && FlushesPast(s, past)
    ensures PublishesPast(s, a, past) && FlushesPast(Step(s, a), past)
  {
    hide BucketOf, InsertStamp, EraseStamp, StoreSection, FetchItem, DeleteItem, RemoveLruAcross;
  }

  /** Each fetch of k logged from n on is of what was written to k since then. */
  ghost predicate ServesNew(log: seq<Event>, n: nat, k: Key) {
    forall m :: n <= m < |log| && log[m].Fetched? && log[m].key == k ==> LastWrite(log[n..m], k) == Some(log[m].payload)
  }

  lemma ServesNewNext(s: State, s': State, n: nat, k: Key)
    requires n <= |s.log| && ServesNew(s.log, n, k) && LogsOne(s, s', n, k)
    ensures ServesNew(s'.log, n, k)
  {
    hide LastWrite;
    assert forall m :: n <= m <= |s.log| ==> s'.log[n..m] == s.log[n..m];
  }

  lemma {:induction false} StaysSwept(s: State, states: seq<State>, run: seq<Action>, k: Key, j: nat)
    requires Continues(s, states, run) && j < |states|
    requires Shaped(s) && Swept(s, k) && FlushesPast(s, StampOf(s, k))
    ensures Shaped(states[j]) && |s.log| <= |states[j].log| && FlushesPast(states[j], StampOf(s, k))
    ensures SweptOrNew(states[j], |s.log|, k, StampOf(s, k)) && ServesNew(states[j].log, |s.log|, k)
  {
    hide LastWrite, BucketOf, Step, FlushesPast;
    if j > 0 {
      StaysSwept(s, states, run, k, j - 1);
      StepFlushesPast(states[j - 1], run[j - 1], StampOf(s, k));
      StepSweeps(states[j - 1], run[j - 1], |s.log|, k, StampOf(s, k));
      ServesNewNext(states[j - 1], states[j], |s.log|, k);
    }
  }

  /** However the run goes on from s, k is served only with what was written after s. */
  ghost predicate OnlyNewServed(s: State, k: Key) {
    forall states: seq<State>, run: seq<Action> :: Continues(s, states, run) ==>
      ServesNew(states[|run|].log, |s.log|, k)
  }

  /** Serving an old value is a continuation that gives the lie to that. */
  lemma OldIsServed(s: State, s1: State, lead: seq<Action>, u: nat, k: Key, now: nat)
    requires Shaped(s1) && u < |s1.threads| && s1.threads[u] == Idle && s1.log == s.log
    requires !Swept(s1, k) && Items(s1, k)[k].expiry >= now
    requires (lead == [] && s1 == s) || (|lead| == 1 && Enabled(s, lead[0]) && s1 == Step(s, lead[0]))
    ensures !OnlyNewServed(s, k)
  {
    hide BucketOf, Step, Enabled, OnlyNewServed, LastWrite;
    SurvivorIsServed(s1, u, k, now);
    var a, b := BeginGet(u, k, now), GetItem(u);
    var s2 := Step(s1, a);
    var s3 := Step(s2, b);
    if lead == [] {
      OldFetched(s, [s, s2, s3], [a, b], k, PayloadOf(Items(s1, k)[k]));
    } else {
      OldFetched(s, [s, s1, s2, s3], [lead[0], a, b], k, PayloadOf(Items(s1, k)[k]));
    }
  }

  lemma OldFetched(s: State, states: seq<State>, run: seq<Action>, k: Key, p: Payload)
    requires Continues(s, states, run) && states[|run|].log == s.log + [Fetched(k, p)]
    ensures !OnlyNewServed(s, k)
  {
    hide Step, Enabled;
    var log, n := states[|run|].log, |s.log|;
    assert log[n] == Fetched(k, p) && log[n..n] == [];
    assert !ServesNew(log, n, k);
  }

  lemma StampBelowClock(s: State, k: Key)
    requires Inv(s) && StampOf(s, k).Some?
    ensures StampOf(s, k).value < s.clock
  {
    assert BucketOwned(s.owner, BucketOf(k), s.buckets[BucketOf(k)]);
  }

  /**
   * From a publication on, a key that has not expired is never again served with a value from before it, however the
   * run goes on, if and only if the flush has swept it and every flush drawn but not yet published is past its stamp.
   */
  lemma OnlyNewServedIff(states: seq<State>, run: seq<Action>, workers: nat, i: nat, k: Key, now: nat)
    requires IsRun(states, run, workers) && i < |run| && run[i].PublishFlush? && Shaped(states[i + 1])
    requires k in Items(states[i + 1], k) ==> Items(states[i + 1], k)[k].expiry >= now
    ensures Swept(states[i + 1], k) && PendingPast(states[i + 1], StampOf(states[i + 1], k)) <==>
            OnlyNewServed(states[i + 1], k)
  {
    var s, u := states[i + 1], run[i].t;
    RunInv(states, run, workers, i + 1);
    assert s.threads[u] == Idle && u < |s.threads|;
    hide BucketOf, IsRun, Inv, LastWrite, Step, OnlyNewServed;
    if StampOf(s, k).Some? {
      StampBelowClock(s, k);
    }
    if !Swept(s, k) {
      OldIsServed(s, s, [], u, k, now);
    } else if !PendingPast(s, StampOf(s, k)) {
      var t: nat :| t < |s.threads| && s.threads[t].Flushing? && s.threads[t].ts <= StampOf(s, k).value;
      FallsBack(s, t, u, k);
      OldIsServed(s, Step(s, PublishFlush(t)), [PublishFlush(t)], u, k, now);
    } else {
      AllContinuationsSwept(s, k);
    }
  }

  /** The publication of a flush that is not past k's stamp brings k back, and nothing else happens. */
  lemma FallsBack(s: State, t: nat, u: nat, k: Key)
    requires Shaped(s) && t < |s.threads| && s.threads[t].Flushing? && u < |s.threads| && s.threads[u] == Idle
    requires StampOf(s, k).Some? && s.threads[t].ts <= StampOf(s, k).value
    ensures Enabled(s, PublishFlush(t))
    ensures var s' := Step(s, PublishFlush(t));
      && Shaped(s') && u < |s'.threads| && s'.threads[u] == Idle && s'.log == s.log
      && Items(s', k) == Items(s, k) && !Swept(s', k)
  {
    hide BucketOf;
  }

  lemma AllContinuationsSwept(s: State, k: Key)
    requires Shaped(s) && Swept(s, k) && FlushesPast(s, StampOf(s, k))
    ensures OnlyNewServed(s, k)
  {
    hide BucketOf, Step, LastWrite, Swept, FlushesPast, SweptOrNew;
    forall states: seq<State>, run: seq<Action> | Continues(s, states, run)
      ensures ServesNew(states[|run|].log, |s.log|, k)
    {
      StaysSwept(s, states, run, k, |run|);
    }
  }

  // ---------- a get between the two steps of a flush ----------

  function SetAction(t: nat, key: Key): Action {
    BeginStore(t, Request(key, "0", "", "a", 0), false, 5, "1")
  }

  /** The three steps of a set by thread t. */
  function SetActions(t: nat, key: Key): (run: seq<Action>)
    ensures |run| == 3
  {
    [SetAction(t, key), StoreItem(t), Link(t)]
  }

  function Value(): Payload {
    Payload("a", "0", "1")
  }

  /** A set of an absent key: the key's new stamp is the clock, and thread t is idle again. */
  lemma SetRuns(s: State, t: nat, key: Key) returns (r: seq<State>)
    requires Shaped(s) && t < |s.threads| && s.threads[t] == Idle && key !in Items(s, key)
    ensures |r| == 4 && r[0] == s
    ensures forall i :: 0 <= i < 3 ==>
      Enabled(r[i], SetActions(t, key)[i]) && r[i + 1] == Step(r[i], SetActions(t, key)[i])
    ensures Shaped(r[3]) && r[3].threads == s.threads && r[3].clock == s.clock + 1 && r[3].flushed == s.flushed
    ensures r[3].log == s.log + [Stored(key, Value())] && StampOf(r[3], key) == Some(s.clock)
    ensures PayloadOf(Items(r[3], key)[key]) == Value() && Items(r[3], key)[key].expiry >= 5
  {
    hide BucketOf, InsertStamp;
    var run := SetActions(t, key);
    var s1 := Step(s, run[0]);
    var s2 := Step(s1, run[1]);
    r := [s, s1, s2, Step(s2, run[2])];
  }

  /** A set and a get by thread 0, with the draw and the publication of a flush by thread 1 around the get. */
  function Race(key: Key): (run: seq<Action>)
    ensures |run| == 8
  {
    SetActions(0, key) + [DrawFlush(1), BeginGet(0, key, 5), GetItem(0), EraseAndLink(0), PublishFlush(1)]
  }

  /** The flush draws stamp 2, the get renews the item with stamp 2, then the flush is published. */
  lemma RaceFlush(key: Key, s3: State) returns (s: seq<State>)
    requires Shaped(s3) && s3.threads == [Idle, Idle] && s3.clock == 1 && s3.flushed == 0 && key in Items(s3, key)
    requires var e := Items(s3, key)[key]; PayloadOf(e) == Value() && e.stamp == 0 && e.expiry >= 5
    ensures |s| == 6 && s[0] == s3
    ensures forall i :: 0 <= i < 5 ==> Enabled(s[i], Race(key)[3 + i]) && s[i + 1] == Step(s[i], Race(key)[3 + i])
    ensures Shaped(s[5]) && s[5].threads == [Idle, Idle] && s[5].flushed == 2
    ensures s[5].log == s3.log + [Fetched(key, Value())]
    ensures key in Items(s[5], key)
    ensures var e := Items(s[5], key)[key]; PayloadOf(e) == Value() && e.stamp == 2 && e.expiry >= 5
  {
    hide BucketOf, InsertStamp, EraseStamp;
    var run := Race(key);
    var s4 := Step(s3, run[3]);
    var s5 := Step(s4, run[4]);
    var s6 := Step(s5, run[5]);
    var s7 := Step(s6, run[6]);
    var s8 := Step(s7, run[7]);
    s := [s3, s4, s5, s6, s7, s8];
  }

  lemma AbsentAtFirst(workers: nat, key: Key)
    ensures Shaped(Init(workers)) && key !in Items(Init(workers), key)
    ensures Init(workers).clock == 0 && Init(workers).flushed == 0 && Init(workers).log == []
    ensures |Init(workers).threads| == workers && forall t :: 0 <= t < workers ==> Init(workers).threads[t] == Idle
  {
  }

  /**
   * So a flush can leave a value stored before it in service: after this run, which ends with the publication, the
   * item is not swept, and the next get returns it.
   */
  lemma FlushCanMiss(key: Key) returns (states: seq<State>)
    ensures IsRun(states, Race(key), 2) && Shaped(states[8]) && !Swept(states[8], key)
    ensures var a, b := BeginGet(0, key, 5), GetItem(0);
      Enabled(states[8], a) && Enabled(Step(states[8], a), b) &&
      Step(Step(states[8], a), b).log ==
        [Stored(key, Value()), Fetched(key, Value()), Fetched(key, Value())]
  {
    hide Step, Enabled, BucketOf;
    AbsentAtFirst(2, key);
    var u := SetRuns(Init(2), 0, key);
    var v := RaceFlush(key, u[3]);
    states := u + v[1..];
    SurvivorIsServed(states[8], 0, key, 5);
  }

  // ---------- a get that is older than a flush ----------

  /** Thread 0 draws for a get, thread 1 flushes, thread 2 sets the key, and only then does the get run its section. */
  function LateGet(key: Key): (run: seq<Action>)
    ensures |run| == 7
  {
    [BeginGet(0, key, 5), DrawFlush(1), PublishFlush(1)] + SetActions(2, key) + [GetItem(0)]
  }

  lemma LateGetFlush(key: Key) returns (s: seq<State>)
    ensures |s| == 4 && s[0] == Init(3)
    ensures forall i :: 0 <= i < 3 ==> Enabled(s[i], LateGet(key)[i]) && s[i + 1] == Step(s[i], LateGet(key)[i])
    ensures Shaped(s[3]) && s[3].threads == [Fetching(key, 0, 5), Idle, Idle] && s[3].clock == 2 && s[3].flushed == 2
    ensures s[3].log == [] && key !in Items(s[3], key)
  {
    hide BucketOf;
    var run := LateGet(key);
    var s1 := Step(Init(3), run[0]);
    var s2 := Step(s1, run[1]);
    s := [Init(3), s1, s2, Step(s2, run[2])];
  }

  /**
   * So a flush can hide a value stored after it: the key is absent when the flush is published, is set afterwards, is
   * in sight, and a get whose stamp is older than the flush puts it out of sight.
   */
  lemma FlushCanHideLater(key: Key) returns (states: seq<State>)
    ensures IsRun(states, LateGet(key), 3)
    ensures Shaped(states[3]) && StampOf(states[3], key) == None && states[3].log == []
    ensures Shaped(states[6]) && Seen(states[6], key, states[3].flushed) && states[6].flushed == states[3].flushed
    ensures Shaped(states[7]) && !Seen(states[7], key, states[3].flushed) && states[7].flushed == states[3].flushed
    ensures states[7].log == [Stored(key, Value()), Fetched(key, Value())]
  {
    hide Step, Enabled, BucketOf;
    var u := LateGetFlush(key);
    var v := SetRuns(u[3], 2, key);
    LateGetRuns(v[3], key);
    states := u + v[1..] + [Step(v[3], GetItem(0))];
  }

  lemma LateGetRuns(s: State, key: Key)
    requires Shaped(s) && s.threads == [Fetching(key, 0, 5), Idle, Idle] && StampOf(s, key) == Some(2) && s.flushed == 2
    requires PayloadOf(Items(s, key)[key]) == Value() && Items(s, key)[key].expiry >= 5
    ensures Enabled(s, GetItem(0))
    ensures var s' := Step(s, GetItem(0));
      Shaped(s') && StampOf(s', key) == Some(0) && s'.flushed == 2 && s'.log == s.log + [Fetched(key, Value())]
  {
    hide BucketOf;
  }

  // ---------- two flushes published out of order ----------

  /** Threads 0 and 1 both flush; thread 2's set lies between their draws, and the later draw is published first. */
  function Crossed(key: Key): (run: seq<Action>)
    ensures |run| == 7
  {
    [DrawFlush(0)] + SetActions(2, key) + [DrawFlush(1), PublishFlush(1), PublishFlush(0)]
  }

  lemma FirstDraw(key: Key)
    ensures Enabled(Init(3), DrawFlush(0))
    ensures var s := Step(Init(3), DrawFlush(0));
      && Shaped(s) && s.threads == [Flushing(1), Idle, Idle] && s.clock == 1 && s.flushed == 0
      && s.log == [] && key !in Items(s, key)
  {
    hide BucketOf;
  }

  lemma CrossedFlushes(s4: State, key: Key) returns (s: seq<State>)
    requires Shaped(s4) && s4.threads == [Flushing(1), Idle, Idle] && s4.clock == 2 && StampOf(s4, key) == Some(1)
    ensures |s| == 4 && s[0] == s4
    ensures forall i :: 0 <= i < 3 ==> Enabled(s[i], Crossed(key)[4 + i]) && s[i + 1] == Step(s[i], Crossed(key)[4 + i])
    ensures Shaped(s[2]) && s[2].flushed == 3 && s[2].buckets == s4.buckets
    ensures s[3] == s[2].(flushed := 1, threads := [Idle, Idle, Idle]) && s[3].log == s4.log
  {
    hide BucketOf;
    var run := Crossed(key);
    var s5 := Step(s4, run[4]);
    var s6 := Step(s5, run[5]);
    s := [s4, s5, s6, Step(s6, run[6])];
  }

  /** The second publication brings a swept value back into service: the next get returns it. */
  lemma FlushesCanCross(key: Key) returns (states: seq<State>)
    ensures IsRun(states, Crossed(key), 3)
    ensures Shaped(states[6]) && StampOf(states[6], key) == Some(1) && Swept(states[6], key)
    ensures Shaped(states[7]) && !Swept(states[7], key) && states[7].flushed < states[6].flushed
    ensures var a, b := BeginGet(2, key, 5), GetItem(2);
      Enabled(states[7], a) && Enabled(Step(states[7], a), b) &&
      Step(Step(states[7], a), b).log == [Stored(key, Value()), Fetched(key, Value())]
  {
    hide Step, Enabled, BucketOf;
    FirstDraw(key);
    var u := SetRuns(Step(Init(3), DrawFlush(0)), 2, key);
    var v := CrossedFlushes(u[3], key);
    states := [Init(3)] + u + v[1..];
    SurvivorIsServed(v[3], 2, key, 5);
  }
}
