/**
 * The dispatcher and its pool of workers: a queue of descriptors, three locks, and every interleaving of
 * their steps. A worker holds threadNotifyMutex from the moment its wait returns until it has taken a descriptor.
 */
module ThreadPool {

  type Fd = nat

  datatype Pc =
    | Outside                 // wants threadNotifyMutex: starting, woken, or done with a descriptor
    | Checking                // holds it and evaluates the wait predicate
    | Ready                   // the wait has returned; sockDescMutex is next
    | Section                 // holds both locks
    | Stuck                   // the queue was empty: back to waiting with sockDescMutex still locked
    | Took(fd: Fd)            // sockDescMutex released, descriptor in hand
    | Working(fd: Fd)         // both released, handling the connection

  /** The dispatcher between pushing a descriptor and clearing it from the set select watches. */
  datatype Main = Selecting | Pushed(fd: Fd)

  datatype Holder = Free | Worker(t: nat)

  datatype Take = Take(t: nat, fd: Fd)

  datatype State = State(queue: seq<Fd>, notify: Holder, sock: Holder, workers: seq<Pc>, main: Main,
                         master: set<Fd>, maxSd: Fd, listen: Fd, pushed: seq<Fd>, takes: seq<Take>)

  datatype Action =
    | Acquire(t: nat)         // threadNotifyMutex.lock
    | Check(t: nat)           // the wait predicate; false gives the lock back
    | Enter(t: nat)           // sockDescMutex.lock
    | TakeFront(t: nat)       // the body of the section
    | Leave(t: nat)           // l.unlock
    | Finish(t: nat)          // the connection has been handled
    | Push(fd: Fd)            // dispatcher: a readable descriptor goes into the queue
    | Clear                   // dispatcher: and out of master_set
    | Accept(fd: Fd)          // dispatcher: a new connection joins master_set

  function Init(workers: nat, listen: Fd): State {
    State([], Free, Free, seq(workers, _ => Outside), Selecting, {listen}, listen, listen, [], [])
  }

  // ---------- the sections under masterMutex, src/ssock.cpp:385-389 and 408-415 ----------

  ghost predicate IsMax(s: set<Fd>, m: Fd) {
    m in s && forall x :: x in s ==> x <= m
  }

  /** The largest member of s not above m, given that low is one. */
  function MaxUpTo(s: set<Fd>, m: Fd, low: Fd): (r: Fd)
    requires low in s && low <= m
    ensures low <= r <= m && r in s && forall x :: x in s && x <= m ==> x <= r
  {
    if m in s then m else MaxUpTo(s, m - 1, low)
  }

  function Cleared(s: set<Fd>, maxSd: Fd, fd: Fd, listen: Fd): (set<Fd>, Fd)
    requires listen in s && fd != listen && listen <= maxSd
  {
    (s - {fd}, if fd == maxSd then MaxUpTo(s - {fd}, maxSd, listen) else maxSd)
  }

  /** FD_CLR and the scan for the new maximum. */
  method ClearDescriptor(master: set<Fd>, maxSd: Fd, fd: Fd, ghost listen: Fd) returns (master': set<Fd>, maxSd': Fd)
    requires listen in master && fd != listen && IsMax(master, maxSd)
    ensures (master', maxSd') == Cleared(master, maxSd, fd, listen)
    ensures forall d :: d in master' <==> d in master && d != fd
    ensures IsMax(master', maxSd')
  {
    master' := master - {fd};
    maxSd' := maxSd;
    if fd == maxSd {
      while maxSd' !in master'
        invariant listen <= maxSd' <= maxSd && MaxUpTo(master', maxSd', listen) == MaxUpTo(master', maxSd, listen)
        decreases maxSd'
      {
        maxSd' := maxSd' - 1;
      }
    }
  }

  // ---------- steps ----------

  predicate WorkerAt(s: State, t: nat, pc: Pc) {
    t < |s.workers| && s.workers[t] == pc
  }

  /** select reports members of master_set, and the loop over them reaches each once before the set is copied anew. */
  predicate Enabled(s: State, a: Action) {
    match a
    case Acquire(t) => t < |s.workers| && (s.workers[t] == Outside) && s.notify == Free
    case Check(t) => WorkerAt(s, t, Checking)
    case Enter(t) => WorkerAt(s, t, Ready) && s.sock == Free
    case TakeFront(t) => WorkerAt(s, t, Section)
    case Leave(t) => t < |s.workers| && s.workers[t].Took?
    case Finish(t) => t < |s.workers| && s.workers[t].Working?
    case Push(fd) => s.main == Selecting && s.sock == Free && fd in s.master && fd != s.listen
    case Clear => s.main.Pushed? && s.listen in s.master && s.main.fd != s.listen && s.listen <= s.maxSd
    case Accept(fd) => s.main == Selecting
  }

  function At(s: State, t: nat, pc: Pc): State
    requires t < |s.workers|
  {
    s.(workers := s.workers[t := pc])
  }

  function Step(s: State, a: Action): State
    requires Enabled(s, a)
  {
    match a
    case Acquire(t) => At(s, t, Checking).(notify := Worker(t))
    case Check(t) => if s.queue != [] then At(s, t, Ready) else At(s, t, Outside).(notify := Free)
    case Enter(t) => At(s, t, Section).(sock := Worker(t))
    case TakeFront(t) =>
      if s.queue == [] then At(s, t, Stuck)
      else
        var fd := s.queue[0];
        At(s, t, Took(fd)).(queue := s.queue[1..], sock := Free, takes := s.takes + [Take(t, fd)])
    case Leave(t) => At(s, t, Working(s.workers[t].fd)).(notify := Free)
    case Finish(t) => At(s, t, Outside)
    case Push(fd) => s.(queue := s.queue + [fd], pushed := s.pushed + [fd], main := Pushed(fd))
    case Clear =>
      var (master, maxSd) := Cleared(s.master, s.maxSd, s.main.fd, s.listen);
      s.(master := master, maxSd := maxSd, main := Selecting)
    case Accept(fd) => s.(master := s.master + {fd}, maxSd := if fd > s.maxSd then fd else s.maxSd)
  }

  ghost predicate IsRun(states: seq<State>, run: seq<Action>, workers: nat, listen: Fd) {
    && |states| == |run| + 1
    && states[0] == Init(workers, listen)
    && forall i :: 0 <= i < |run| ==> Enabled(states[i], run[i]) && states[i + 1] == Step(states[i], run[i])
  }

  // ---------- the invariant ----------

  predicate HoldsNotify(pc: Pc) {
    pc == Checking || pc == Ready || pc == Section || pc.Took?
  }

  function TakenFds(takes: seq<Take>): (fds: seq<Fd>)
    ensures |fds| == |takes|
  {
    seq(|takes|, i requires 0 <= i < |takes| => takes[i].fd)
  }

  /** Who holds which lock, and that nobody between the wait and the take sees an empty queue. */
  ghost predicate Locks(s: State) {
    && (forall t :: 0 <= t < |s.workers| ==> (HoldsNotify(s.workers[t]) <==> s.notify == Worker(t)))
    && (forall t :: 0 <= t < |s.workers| ==> (s.workers[t] == Section <==> s.sock == Worker(t)))
    && (forall t :: 0 <= t < |s.workers| ==> s.workers[t] != Stuck)
    && (forall t :: 0 <= t < |s.workers| && (s.workers[t] == Ready || s.workers[t] == Section) ==> s.queue != [])
    && (s.notify.Worker? ==> s.notify.t < |s.workers|) && (s.sock.Worker? ==> s.sock.t < |s.workers|)
  }

  ghost predicate Watched(s: State) {
    && (s.main.Pushed? ==> s.main.fd != s.listen)
    && IsMax(s.master, s.maxSd) && s.listen in s.master
  }

  ghost predicate Inv(s: State) {
    Locks(s) && Watched(s) && s.pushed == TakenFds(s.takes) + s.queue
  }

  lemma StepLocks(s: State, a: Action)
    requires Locks(s) && Enabled(s, a)
    ensures Locks(Step(s, a))
  {
    hide Cleared, IsMax;
    if a.TakeFront? {
      assert s.workers[a.t] == Section;
    }
  }

  lemma StepWatched(s: State, a: Action)
    requires Watched(s) && Enabled(s, a)
    ensures Watched(Step(s, a))
  {
  }

  lemma StepHistory(s: State, a: Action)
    requires Enabled(s, a) && s.pushed == TakenFds(s.takes) + s.queue
    ensures Step(s, a).pushed == TakenFds(Step(s, a).takes) + Step(s, a).queue
  {
    hide Cleared;
    var s' := Step(s, a);
    match a
    case TakeFront(t) =>
      if s.queue != [] {
        assert TakenFds(s'.takes) == TakenFds(s.takes) + [s.queue[0]];
      }
    case Push(fd) =>
      assert TakenFds(s.takes) + s.queue + [fd] == TakenFds(s.takes) + (s.queue + [fd]);
    case _ =>
  }

  lemma StepInv(s: State, a: Action)
    requires Inv(s) && Enabled(s, a)
    ensures Inv(Step(s, a))
  {
    hide Locks, Watched, Step, Enabled;
    StepLocks(s, a);
    StepWatched(s, a);
    StepHistory(s, a);
  }

  lemma {:induction false} RunInv(states: seq<State>, run: seq<Action>, workers: nat, listen: Fd, i: nat)
    requires IsRun(states, run, workers, listen) && i < |states|
    ensures Inv(states[i])
  {
    if i > 0 {
      RunInv(states, run, workers, listen, i - 1);
      StepInv(states[i - 1], run[i - 1]);
    } else {
      assert TakenFds([]) == [];
    }
  }

  /** Descriptors are taken in the order they were pushed: the n-th take is of the n-th push, by one worker. */
  lemma TakesAreFifo(states: seq<State>, run: seq<Action>, workers: nat, listen: Fd, i: nat)
    requires IsRun(states, run, workers, listen) && i < |states|
    ensures var s := states[i];
      && |s.takes| + |s.queue| == |s.pushed|
      && (forall n :: 0 <= n < |s.takes| ==> s.takes[n].fd == s.pushed[n])
      && (forall n :: 0 <= n < |s.queue| ==> s.queue[n] == s.pushed[|s.takes| + n])
  {
    RunInv(states, run, workers, listen, i);
    var s := states[i];
    forall n | 0 <= n < |s.takes|
      ensures s.takes[n].fd == s.pushed[n]
    {
      assert TakenFds(s.takes)[n] == s.takes[n].fd;
    }
  }

  /** A worker in the section never finds the queue empty, so none ever waits with sockDescMutex locked. */
  lemma SectionFindsDescriptor(states: seq<State>, run: seq<Action>, workers: nat, listen: Fd, i: nat, t: nat)
    requires IsRun(states, run, workers, listen) && i < |states| && t < |states[i].workers|
    ensures states[i].workers[t] == Section ==> states[i].queue != []
    ensures states[i].workers[t] != Stuck
  {
    RunInv(states, run, workers, listen, i);
  }

  /** Whenever masterMutex is free, max_sd is the largest member of master_set. */
  lemma MaxSdIsMaximum(states: seq<State>, run: seq<Action>, workers: nat, listen: Fd, i: nat)
    requires IsRun(states, run, workers, listen) && i < |states|
    ensures IsMax(states[i].master, states[i].maxSd)
  {
    RunInv(states, run, workers, listen, i);
  }

  /** Between push and clear the dispatcher can always clear, and its scan for the new maximum ends. */
  lemma ClearIsPossible(states: seq<State>, run: seq<Action>, workers: nat, listen: Fd, i: nat)
    requires IsRun(states, run, workers, listen) && i < |states| && states[i].main.Pushed?
    ensures Enabled(states[i], Clear)
  {
    RunInv(states, run, workers, listen, i);
  }

  /** A descriptor that was handed over and not accepted anew since is not watched, once the dispatcher moved on. */
  lemma {:induction false} HandedOver(states: seq<State>, run: seq<Action>, workers: nat, listen: Fd, fd: Fd, i: nat,
                                      j: nat)
    requires IsRun(states, run, workers, listen) && i < j < |states| && run[i] == Push(fd)
    requires forall k :: i < k < j ==> run[k] != Accept(fd)
    ensures states[j].main == Pushed(fd) || fd !in states[j].master
  {
    if j > i + 1 {
      HandedOver(states, run, workers, listen, fd, i, j - 1);
    }
    assert states[j] == Step(states[j - 1], run[j - 1]);
  }

  /** Between two hand-overs of one descriptor it was accepted anew: two workers never serve one connection. */
  lemma PushedOncePerAccept(states: seq<State>, run: seq<Action>, workers: nat, listen: Fd, fd: Fd, i: nat, j: nat)
    requires IsRun(states, run, workers, listen) && i < j < |run| && run[i] == Push(fd) == run[j]
    ensures exists k :: i < k < j && run[k] == Accept(fd)
  {
    if forall k :: i < k < j ==> run[k] != Accept(fd) {
      HandedOver(states, run, workers, listen, fd, i, j);
    }
  }

  /** Nothing but accepting brings a descriptor into the set, so the first hand-over follows one too. */
  lemma {:induction false} WatchedWasAccepted(states: seq<State>, run: seq<Action>, workers: nat, listen: Fd, fd: Fd,
                                              j: nat)
    requires IsRun(states, run, workers, listen) && j < |states| && fd in states[j].master && fd != listen
    ensures exists k :: 0 <= k < j && run[k] == Accept(fd)
  {
    if j > 0 {
      assert states[j] == Step(states[j - 1], run[j - 1]);
      if run[j - 1] != Accept(fd) {
        WatchedWasAccepted(states, run, workers, listen, fd, j - 1);
      }
    }
  }
}
