/** The read-write lock on a mutex and two condition variables
    (glthread_rwlock_*_multithreaded in glthread/lock.c). A thread holds the mutex from
    its entry until it waits or returns, so each such stretch is one atomic step. */
module CondLock {
  import opened Threads

  /** The fields of gl_rwlock_t; waiters is waiting_writers_count. */
  datatype Lock = Lock(runcount: int, waiters: int)

  /** Which condition variable unlocking signals or broadcasts. */
  datatype Wake = NoOne | OneWriter | AllReaders
  datatype Unlocked = Refused | Released(lock: Lock, wake: Wake)

  /** One evaluation of the rdlock loop condition, and whether the thread has to wait. */
  function RdEnter(l: Lock): (Lock, bool) {
    if l.runcount + 1 > 0 && l.waiters == 0 then (l.(runcount := l.runcount + 1), false) else (l, true)
  }

  function WrEnter(l: Lock): (Lock, bool) {
    if l.runcount == 0 then (l.(runcount := -1), false) else (l.(waiters := l.waiters + 1), true)
  }

  function Unlock(l: Lock): Unlocked {
    if l.runcount < -1 || l.runcount == 0 then Refused
    else
      var l' := l.(runcount := if l.runcount < 0 then 0 else l.runcount - 1);
      Released(l', if l'.runcount != 0 then NoOne else if l'.waiters > 0 then OneWriter else AllReaders)
  }

  /** The lock object. Ghost fields count the threads that hold the lock, and the writers that
      are blocked or have been woken and not resumed. */
  class RwLock {
    var runcount: int
    var waitingWritersCount: int
    ghost var readers: nat
    ghost var writers: nat
    ghost var queued: nat

    function Value(): Lock
      reads this
    {
      Lock(runcount, waitingWritersCount)
    }

    /** The fields say who holds the lock, which is not both a reader and a writer nor two
        writers, and how many writers wait. */
    ghost predicate Valid()
      reads this
    {
      && writers <= 1 && (writers == 0 || readers == 0)
      && runcount == readers - writers && waitingWritersCount == queued
    }

    constructor ()
      ensures Value() == Lock(0, 0) && Valid() && readers == writers == queued == 0
    {
      runcount, waitingWritersCount := 0, 0;
      readers, writers, queued := 0, 0, 0;
    }

    /** rdlock up to the wait or the return; also what a woken reader does. A reader gets in
        unless a writer holds the lock or waits for it. */
    method RdLock() returns (wait: bool)
      modifies this
      ensures (Value(), wait) == RdEnter(old(Value()))
      ensures old(Valid()) ==>
        && Valid() && (wait <==> old(writers > 0 || queued > 0))
        && readers == old(readers) + (if wait then 0 else 1) && writers == old(writers) && queued == old(queued)
    {
      if !(runcount + 1 > 0 && waitingWritersCount == 0) {
        return true;
      }
      runcount := runcount + 1;
      readers := readers + 1;
      return false;
    }

    /** wrlock up to the wait or the return; resumed says that the thread comes back from
        waiting, which first takes it out of the count. A writer gets in if nobody holds the
        lock, and is otherwise among those who wait. */
    method WrLock(resumed: bool) returns (wait: bool)
      modifies this
      ensures (Value(), wait) ==
        WrEnter(old(if resumed then Value().(waiters := waitingWritersCount - 1) else Value()))
      ensures old(Valid() && (resumed ==> queued > 0)) ==>
        && Valid() && (wait <==> old(readers > 0 || writers > 0))
        && queued == old(queued) - (if resumed then 1 else 0) + (if wait then 1 else 0)
        && writers == old(writers) + (if wait then 0 else 1) && readers == old(readers)
    {
      if resumed {
        waitingWritersCount := waitingWritersCount - 1;
        queued := if queued > 0 then queued - 1 else 0;
      }
      if !(runcount == 0) {
        waitingWritersCount := waitingWritersCount + 1;
        queued := queued + 1;
        return true;
      }
      runcount := runcount - 1;
      writers := writers + 1;
      return false;
    }

    /** The holder leaves; once nobody holds the lock a waiting writer is woken, or else the
        readers are. Nobody can leave a lock that is free. */
    method UnLock() returns (ok: bool, wake: Wake)
      modifies this
      ensures match Unlock(old(Value()))
              case Refused => !ok && Value() == old(Value())
              case Released(l, w) => ok && Value() == l && wake == w
      ensures old(Valid()) ==>
        && Valid() && (ok <==> old(readers > 0 || writers > 0)) && queued == old(queued)
        && readers + writers == old(readers + writers) - (if ok then 1 else 0)
        && (ok ==> wake == if readers > 0 then NoOne else if queued > 0 then OneWriter else AllReaders)
    {
      ok, wake := true, NoOne;
      if runcount < 0 {
        if !(runcount == -1) {
          ok := false;
          return;
        }
        runcount := 0;
        writers := 0;
      } else {
        if !(runcount > 0) {
          ok := false;
          return;
        }
        runcount := runcount - 1;
        readers := if readers > 0 then readers - 1 else 0;
      }
      if runcount == 0 {
        if waitingWritersCount > 0 {
          wake := OneWriter;
        } else {
          wake := AllReaders;
        }
      }
    }
  }

  /** Where a thread is. Woken means that its wait is over but that it has not yet got the
      mutex back. */
  datatype Pc = Idle | RdBlocked | RdWoken | Reading | WrBlocked | WrWoken | Writing

  datatype State = State(lock: Lock, pc: map<Tid, Pc>)

  predicate Init(s: State) {
    s.lock == Lock(0, 0) && forall t :: t in s.pc ==> s.pc[t] == Idle
  }

  function Woken(p: Pc): Pc {
    if p == RdBlocked then RdWoken else if p == WrBlocked then WrWoken else p
  }

  function WakeUp(pc: map<Tid, Pc>, woken: set<Tid>): map<Tid, Pc> {
    map t | t in pc :: if t in woken then Woken(pc[t]) else pc[t]
  }

  /** The sets of threads that a signal may wake: pthread_cond_signal wakes at least one. */
  predicate MayWake(pc: map<Tid, Pc>, wake: Wake, woken: set<Tid>) {
    match wake
    case NoOne => woken == {}
    case OneWriter => woken <= At(pc, {WrBlocked}) && (At(pc, {WrBlocked}) != {} ==> woken != {})
    case AllReaders => woken == At(pc, {RdBlocked})
  }

  predicate RdLockStep(s: State, s': State, t: Tid) {
    && t in s.pc && s.pc[t] in {Idle, RdWoken}
    && var (l, wait) := RdEnter(s.lock);
       s' == State(l, s.pc[t := if wait then RdBlocked else Reading])
  }

  predicate WrLockStep(s: State, s': State, t: Tid) {
    && t in s.pc && s.pc[t] in {Idle, WrWoken}
    && var (l, wait) := WrEnter(if s.pc[t] == WrWoken then s.lock.(waiters := s.lock.waiters - 1) else s.lock);
       s' == State(l, s.pc[t := if wait then WrBlocked else Writing])
  }

  /** Only a thread that holds the lock unlocks it. */
  predicate UnlockStep(s: State, s': State, t: Tid, woken: set<Tid>) {
    && t in s.pc && s.pc[t] in {Reading, Writing}
    && match Unlock(s.lock)
       case Refused => s' == s && woken == {}
       case Released(l, wake) => MayWake(s.pc, wake, woken) && s' == State(l, WakeUp(s.pc[t := Idle], woken))
  }

  /** A wait may end without a signal. */
  predicate SpuriousStep(s: State, s': State, t: Tid) {
    t in s.pc && s.pc[t] in {RdBlocked, WrBlocked} && s' == s.(pc := s.pc[t := Woken(s.pc[t])])
  }

  ghost predicate StepOf(s: State, s': State, t: Tid) {
    || RdLockStep(s, s', t) || WrLockStep(s, s', t) || SpuriousStep(s, s', t)
    || exists woken :: UnlockStep(s, s', t, woken)
  }

  ghost predicate Next(s: State, s': State) { exists t :: StepOf(s, s', t) }

  ghost predicate Steps(trace: seq<State>) {
    |trace| > 0 && forall i :: 0 < i < |trace| ==> Next(trace[i - 1], trace[i])
  }

  ghost predicate Run(trace: seq<State>) { Steps(trace) && Init(trace[0]) }

  /** The threads that the invariant is about. */
  datatype Crowd = Crowd(r: set<Tid>, w: set<Tid>, rb: set<Tid>, wb: set<Tid>, wk: set<Tid>)

  function CrowdOf(pc: map<Tid, Pc>): Crowd {
    Crowd(At(pc, {Reading}), At(pc, {Writing}), At(pc, {RdBlocked}), At(pc, {WrBlocked}), At(pc, {WrWoken}))
  }

  /** Who holds the lock and how many writers wait is what the fields say, and when the
      lock is free a waiting thread has a woken writer to rely on. */
  ghost predicate Good(l: Lock, c: Crowd) {
    && (|| (l.runcount == |c.r| && c.w == {})
        || (l.runcount == -1 && c.r == {} && |c.w| == 1))
    && l.waiters == |c.wb| + |c.wk|
    && (l.runcount == 0 && c.wb != {} ==> c.wk != {})
    && (l.runcount == 0 && l.waiters == 0 ==> c.rb == {})
  }

  ghost predicate Inv(s: State) { Good(s.lock, CrowdOf(s.pc)) }

  function Put(s: set<Tid>, t: Tid, b: bool): set<Tid> { if b then s + {t} else s - {t} }

  lemma PutCount(s: set<Tid>, t: Tid, b: bool)
    ensures |Put(s, t, b)| == |s| + (if b then 1 else 0) - (if t in s then 1 else 0)
    ensures (t in s <==> b) ==> Put(s, t, b) == s
  {
    if b && t in s { assert s + {t} == s; }
    if !b && t !in s { assert s - {t} == s; }
  }

  /** The crowd after thread t has moved to p. */
  function MovedTo(c: Crowd, t: Tid, p: Pc): Crowd {
    Crowd(Put(c.r, t, p == Reading), Put(c.w, t, p == Writing), Put(c.rb, t, p == RdBlocked),
          Put(c.wb, t, p == WrBlocked), Put(c.wk, t, p == WrWoken))
  }

  lemma Moved(pc: map<Tid, Pc>, t: Tid, p: Pc)
    requires t in pc
    ensures CrowdOf(pc[t := p]) == MovedTo(CrowdOf(pc), t, p)
  {
    AtUpdate(pc, t, p, {Reading});
    AtUpdate(pc, t, p, {Writing});
    AtUpdate(pc, t, p, {RdBlocked});
    AtUpdate(pc, t, p, {WrBlocked});
    AtUpdate(pc, t, p, {WrWoken});
  }

  /** Thread t is at p, as far as the crowd can tell. */
  predicate Placed(c: Crowd, t: Tid, p: Pc) {
    && (t in c.r <==> p == Reading) && (t in c.w <==> p == Writing) && (t in c.rb <==> p == RdBlocked)
    && (t in c.wb <==> p == WrBlocked) && (t in c.wk <==> p == WrWoken)
  }

  lemma MovedCounts(c: Crowd, t: Tid, p: Pc, q: Pc, c': Crowd)
    requires Placed(c, t, p) && c' == MovedTo(c, t, q)
    ensures |c'.r| == |c.r| + (if q == Reading then 1 else 0) - (if p == Reading then 1 else 0)
    ensures |c'.w| == |c.w| + (if q == Writing then 1 else 0) - (if p == Writing then 1 else 0)
    ensures |c'.wb| == |c.wb| + (if q == WrBlocked then 1 else 0) - (if p == WrBlocked then 1 else 0)
    ensures |c'.wk| == |c.wk| + (if q == WrWoken then 1 else 0) - (if p == WrWoken then 1 else 0)
    ensures |c'.rb| == |c.rb| + (if q == RdBlocked then 1 else 0) - (if p == RdBlocked then 1 else 0)
  {
    PutCount(c.r, t, q == Reading);
    PutCount(c.w, t, q == Writing);
    PutCount(c.wb, t, q == WrBlocked);
    PutCount(c.wk, t, q == WrWoken);
    PutCount(c.rb, t, q == RdBlocked);
  }

  lemma Empty(s: set<Tid>)
    ensures s == {} <==> |s| == 0
  {}

  /** Good, with sets counted instead of compared with the empty set. */
  lemma GoodCounts(l: Lock, c: Crowd)
    ensures Good(l, c) <==>
      && (|| (l.runcount == |c.r| && |c.w| == 0) || (l.runcount == -1 && |c.r| == 0 && |c.w| == 1))
      && l.waiters == |c.wb| + |c.wk|
      && (l.runcount == 0 && |c.wb| > 0 ==> |c.wk| > 0)
      && (l.runcount == 0 && l.waiters == 0 ==> |c.rb| == 0)
  {
    Empty(c.r); Empty(c.w); Empty(c.rb); Empty(c.wb); Empty(c.wk);
  }

  lemma RdLockInv(s: State, s': State, t: Tid)
    requires Inv(s) && RdLockStep(s, s', t)
    ensures Inv(s')
  {
    hide CrowdOf, Good, Placed, MovedTo;
    var c, c' := CrowdOf(s.pc), CrowdOf(s'.pc);
    PlacedAt(s.pc, t);
    Moved(s.pc, t, s'.pc[t]);
    MovedCounts(c, t, s.pc[t], s'.pc[t], c');
    GoodCounts(s.lock, c);
    GoodCounts(s'.lock, c');
  }

  lemma WrLockInv(s: State, s': State, t: Tid)
    requires Inv(s) && WrLockStep(s, s', t)
    ensures Inv(s')
  {
    hide CrowdOf, Good, Placed, MovedTo;
    var c, c' := CrowdOf(s.pc), CrowdOf(s'.pc);
    PlacedAt(s.pc, t);
    Moved(s.pc, t, s'.pc[t]);
    MovedCounts(c, t, s.pc[t], s'.pc[t], c');
    GoodCounts(s.lock, c);
    GoodCounts(s'.lock, c');
  }

  lemma SpuriousInv(s: State, s': State, t: Tid)
    requires Inv(s) && SpuriousStep(s, s', t)
    ensures Inv(s')
  {
    hide CrowdOf, Good, Placed, MovedTo;
    var c, c' := CrowdOf(s.pc), CrowdOf(s'.pc);
    PlacedAt(s.pc, t);
    Moved(s.pc, t, s'.pc[t]);
    MovedCounts(c, t, s.pc[t], s'.pc[t], c');
    GoodCounts(s.lock, c);
    GoodCounts(s'.lock, c');
  }

  /** What waking does to the crowd. */
  lemma WakeUpCrowd(pc: map<Tid, Pc>, woken: set<Tid>)
    ensures var c, c' := CrowdOf(pc), CrowdOf(WakeUp(pc, woken));
      c' == Crowd(c.r, c.w, c.rb - woken, c.wb - woken, c.wk + woken * c.wb)
  {}

  lemma CrowdFacts(pc: map<Tid, Pc>)
    ensures var c := CrowdOf(pc);
      c.rb !! c.wb && c.wb !! c.wk && c.rb == At(pc, {RdBlocked}) && c.wb == At(pc, {WrBlocked})
  {}

  lemma PlacedAt(pc: map<Tid, Pc>, t: Tid)
    requires t in pc
    ensures Placed(CrowdOf(pc), t, pc[t])
  {}

  lemma WakeUpCounts(c: Crowd, wake: Wake, woken: set<Tid>, c': Crowd)
    requires c' == Crowd(c.r, c.w, c.rb - woken, c.wb - woken, c.wk + woken * c.wb)
    requires c.rb !! c.wb && c.wb !! c.wk
    requires match wake
             case NoOne => woken == {}
             case OneWriter => woken <= c.wb && (c.wb != {} ==> woken != {})
             case AllReaders => woken == c.rb
    ensures |c'.wb| + |c'.wk| == |c.wb| + |c.wk|
    ensures wake == NoOne ==> |c'.rb| == |c.rb|
    ensures wake == OneWriter && |c.wb| + |c.wk| > 0 ==> |c'.wk| > 0
    ensures wake == AllReaders ==> |c'.rb| == 0 && |c'.wb| == |c.wb|
  {
    Transfer(c.wb, c.wk, woken);
    match wake
    case OneWriter => SomeWoken(c, woken, c'.wk);
    case AllReaders =>
      assert c.wb - woken == c.wb;
      assert c.rb - woken == {};
    case NoOne =>
      assert c.rb - woken == c.rb;
  }

  lemma SomeWoken(c: Crowd, woken: set<Tid>, wk: set<Tid>)
    requires wk == c.wk + woken * c.wb && woken <= c.wb && (c.wb != {} ==> woken != {})
    ensures |c.wb| + |c.wk| > 0 ==> |wk| > 0
  {
    if c.wb != {} {
      var u :| u in woken;
      assert u in wk;
    } else {
      assert wk == c.wk;
    }
  }

  /** Waking does not move holders, and the sum over the waiting writers stays. */
  lemma WokenGood(l: Lock, c: Crowd, wake: Wake, woken: set<Tid>, c': Crowd)
    requires c' == Crowd(c.r, c.w, c.rb - woken, c.wb - woken, c.wk + woken * c.wb)
    requires c.rb !! c.wb && c.wb !! c.wk
    requires wake == if l.runcount != 0 then NoOne else if l.waiters > 0 then OneWriter else AllReaders
    requires match wake
             case NoOne => woken == {}
             case OneWriter => woken <= c.wb && (c.wb != {} ==> woken != {})
             case AllReaders => woken == c.rb
    requires l.runcount == |c.r| && |c.w| == 0 && l.waiters == |c.wb| + |c.wk|
    ensures Good(l, c')
  {
    WakeUpCounts(c, wake, woken, c');
    GoodCounts(l, c');
  }

  /** Whoever holds the lock can unlock it without an error, and the invariant stays. */
  lemma UnlockInv(s: State, s': State, t: Tid, woken: set<Tid>)
    requires Inv(s) && UnlockStep(s, s', t, woken)
    ensures Inv(s') && Unlock(s.lock).Released?
  {
    hide CrowdOf, Good, Placed, At, WakeUp;
    var pc1 := s.pc[t := Idle];
    var c, c1, c' := CrowdOf(s.pc), CrowdOf(pc1), CrowdOf(s'.pc);
    PlacedAt(s.pc, t);
    Moved(s.pc, t, Idle);
    MovedCounts(c, t, s.pc[t], Idle, c1);
    GoodCounts(s.lock, c);
    assert Unlock(s.lock).Released?;
    StillBlocked(c, t, s.pc[t], c1);
    WakeUpCrowd(pc1, woken);
    CrowdFacts(s.pc);
    CrowdFacts(pc1);
    WokenGood(s'.lock, c1, Unlock(s.lock).wake, woken, c');
  }

  lemma StillBlocked(c: Crowd, t: Tid, p: Pc, c1: Crowd)
    requires Placed(c, t, p) && p in {Reading, Writing} && c1 == MovedTo(c, t, Idle)
    ensures c1.rb == c.rb && c1.wb == c.wb
  {
    PutCount(c.rb, t, false);
    PutCount(c.wb, t, false);
  }

  /** Every step keeps the invariant. */
  lemma NextInv(s: State, s': State)
    requires Inv(s) && Next(s, s')
    ensures Inv(s')
  {
    var t :| StepOf(s, s', t);
    hide Inv;
    if RdLockStep(s, s', t) {
      RdLockInv(s, s', t);
    } else if WrLockStep(s, s', t) {
      WrLockInv(s, s', t);
    } else if SpuriousStep(s, s', t) {
      SpuriousInv(s, s', t);
    } else {
      var woken :| UnlockStep(s, s', t, woken);
      UnlockInv(s, s', t, woken);
    }
  }

  lemma {:induction false} RunInv(trace: seq<State>, i: nat)
    requires Run(trace) && i < |trace|
    ensures Inv(trace[i])
  {
    if i == 0 {
      assert CrowdOf(trace[0].pc) == Crowd({}, {}, {}, {}, {});
    } else {
      RunInv(trace, i - 1);
      NextInv(trace[i - 1], trace[i]);
    }
  }

  /** In every state of every run: readers and a writer never hold the lock together, nor
      two writers; waiting_writers_count is the number of writers that are blocked or woken
      but not yet resumed; and a free lock with a blocked thread has a woken writer. */
  lemma {:induction false} EveryRun(trace: seq<State>, i: nat)
    requires Run(trace) && i < |trace|
    ensures var s := trace[i];
      var readers, writers := |At(s.pc, {Reading})|, |At(s.pc, {Writing})|;
      && writers <= 1 && (writers == 1 ==> readers == 0)
      && s.lock.runcount == (if writers == 1 then -1 else readers)
      && s.lock.waiters == |At(s.pc, {WrBlocked, WrWoken})|
      && (s.lock.runcount == 0 ==>
            forall t :: t in s.pc && s.pc[t] in {RdBlocked, WrBlocked} ==> exists u :: u in s.pc && s.pc[u] == WrWoken)
  {
    RunInv(trace, i);
    var s := trace[i];
    var c := CrowdOf(s.pc);
    GoodCounts(s.lock, c);
    assert At(s.pc, {WrBlocked, WrWoken}) == c.wb + c.wk && c.wb !! c.wk;
    if s.lock.runcount == 0 {
      forall t | t in s.pc && s.pc[t] in {RdBlocked, WrBlocked}
        ensures exists u :: u in s.pc && s.pc[u] == WrWoken
      {
        assert t in c.rb || t in c.wb;
        Empty(c.wk);
        var u :| u in c.wk;
        assert u in s.pc;
      }
    }
  }

  /** How far the threads still have to go, each blocked one three steps, until all are idle. */
  function Distance(s: State): nat {
    3 * |At(s.pc, {RdBlocked, WrBlocked})| + 2 * |At(s.pc, {RdWoken, WrWoken})| + |At(s.pc, {Reading, Writing})|
  }

  lemma DistanceMoved(s: State, l: Lock, t: Tid, p: Pc)
    requires t in s.pc && p in {Reading, Writing, Idle}
    requires s.pc[t] in {RdWoken, WrWoken} || (s.pc[t] in {Reading, Writing} && p == Idle)
    ensures Distance(State(l, s.pc[t := p])) < Distance(s)
  {
    CountUpdate(s.pc, t, p, {RdBlocked, WrBlocked});
    CountUpdate(s.pc, t, p, {RdWoken, WrWoken});
    CountUpdate(s.pc, t, p, {Reading, Writing});
  }

  lemma DistanceWoken(l: Lock, pc: map<Tid, Pc>, woken: set<Tid>)
    ensures Distance(State(l, WakeUp(pc, woken))) <= Distance(State(l, pc))
  {
    hide At, WakeUp;
    var b, k := At(pc, {RdBlocked, WrBlocked}), At(pc, {RdWoken, WrWoken});
    WakeUpPlaces(pc, woken);
    Transfer(b, k, woken);
    SubsetCount(b - woken, b);
  }

  lemma WakeUpPlaces(pc: map<Tid, Pc>, woken: set<Tid>)
    ensures var b, k, pc' := At(pc, {RdBlocked, WrBlocked}), At(pc, {RdWoken, WrWoken}), WakeUp(pc, woken);
      && At(pc', {RdBlocked, WrBlocked}) == b - woken
      && At(pc', {RdWoken, WrWoken}) == k + woken * b
      && At(pc', {Reading, Writing}) == At(pc, {Reading, Writing})
      && b !! k
  {}

  /** Unless all are idle, some thread can take a step towards that. */
  lemma Progress(s: State) returns (s': State)
    requires Inv(s) && exists t :: t in s.pc && s.pc[t] != Idle
    ensures Next(s, s') && Distance(s') < Distance(s) && s'.pc.Keys == s.pc.Keys
  {
    var c := CrowdOf(s.pc);
    Empty(c.r); Empty(c.w); Empty(c.wk);
    if t :| t in s.pc && s.pc[t] in {Reading, Writing} {
      assert t in c.r || t in c.w;
      assert Unlock(s.lock).Released?;
      var Released(l, wake) := Unlock(s.lock);
      var woken := match wake case NoOne => {} case OneWriter => c.wb case AllReaders => c.rb;
      s' := State(l, WakeUp(s.pc[t := Idle], woken));
      assert UnlockStep(s, s', t, woken);
      assert StepOf(s, s', t);
      DistanceMoved(s, l, t, Idle);
      DistanceWoken(l, s.pc[t := Idle], woken);
    } else {
      assert c.r == {} && c.w == {} && s.lock.runcount == 0;
      var t :| t in s.pc && s.pc[t] in {RdWoken, WrWoken} && (c.wk != {} ==> s.pc[t] == WrWoken) by {
        var t0 :| t0 in s.pc && s.pc[t0] != Idle;
        assert t0 in c.rb || t0 in c.wb || t0 in c.wk || s.pc[t0] == RdWoken;
        if c.wk != {} { var u :| u in c.wk; assert s.pc[u] == WrWoken; }
      }
      var p := if s.pc[t] == WrWoken then Writing else Reading;
      s' := State(if p == Writing then Lock(-1, s.lock.waiters - 1) else Lock(1, s.lock.waiters), s.pc[t := p]);
      assert p == Reading ==> s.lock.waiters == 0 by { Empty(c.wb); }
      assert RdLockStep(s, s', t) || WrLockStep(s, s', t);
      assert StepOf(s, s', t);
      DistanceMoved(s, s'.lock, t, p);
    }
  }

  /** The lock never deadlocks: from every state of every run, the threads that have called
      it can all get it and give it back, with no call from any other thread. */
  lemma {:induction false} CanDrain(s: State) returns (trace: seq<State>)
    requires Inv(s)
    ensures Steps(trace) && trace[0] == s
    ensures var last := trace[|trace| - 1];
      last.pc.Keys == s.pc.Keys && forall t :: t in last.pc ==> last.pc[t] == Idle
    decreases Distance(s)
  {
    if exists t :: t in s.pc && s.pc[t] != Idle {
      var s' := Progress(s);
      NextInv(s, s');
      var rest := CanDrain(s');
      trace := [s] + rest;
      forall i | 0 < i < |trace|
        ensures Next(trace[i - 1], trace[i])
      {
        assert trace[i] == rest[i - 1];
        if i > 1 { assert trace[i - 1] == rest[i - 2]; }
      }
    } else {
      trace := [s];
    }
  }
}
