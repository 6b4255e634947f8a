/** The hand-off read-write lock (glthread_rwlock_*_func in glthread/lock.c): whoever
    releases the lock grants it to waiting threads before it wakes them. */
module HandoffLock {
  import opened Threads
  import opened WaitQueue

  /** The fields of gl_rwlock_t; a waiting event is named after the thread that waits for it. */
  datatype Lock = Lock(runcount: int, readers: seq<Tid>, writers: seq<Tid>)

  /** What unlocking does: refused with an error code, abort, or a new state of the lock
      and the events that were signalled. */
  datatype Unlocked = Refused | Abort | Released(lock: Lock, signalled: seq<Tid>)

  /** The critical section of rdlock, and whether the thread then has to wait. */
  function RdEnter(l: Lock, t: Tid): (Lock, bool) {
    if l.runcount + 1 > 0 then (l.(runcount := l.runcount + 1), false)
    else (l.(readers := l.readers + [t]), true)
  }

  function WrEnter(l: Lock, t: Tid): (Lock, bool) {
    if l.runcount == 0 then (l.(runcount := -1), false)
    else (l.(writers := l.writers + [t]), true)
  }

  /** The hand-off: with the lock free, one writer is granted it, or else all readers. */
  function HandOff(l: Lock): Unlocked {
    if |l.writers| > 0 then Released(l.(runcount := l.runcount - 1, writers := l.writers[1..]), l.writers[..1])
    else Released(l.(runcount := l.runcount + |l.readers|, readers := []), l.readers)
  }

  function Unlock(l: Lock): Unlocked {
    if l.runcount < -1 then Abort
    else if l.runcount == 0 then Refused
    else
      var l' := l.(runcount := if l.runcount < 0 then 0 else l.runcount - 1);
      if l'.runcount == 0 then HandOff(l') else Released(l', [])
  }

  /** The lock object. Its methods are the critical sections, which the lock's own
      CRITICAL_SECTION makes atomic. */
  class RwLock {
    var runcount: int
    const waitingReaders: CircularQueue
    const waitingWriters: CircularQueue

    ghost predicate Valid()
      reads this, waitingReaders, waitingWriters
    {
      && waitingReaders.Valid() && waitingWriters.Valid()
      && waitingReaders != waitingWriters && waitingReaders.arr != waitingWriters.arr
    }

    ghost function Value(): Lock
      requires Valid()
      reads this, waitingReaders, waitingWriters, waitingReaders.arr, waitingWriters.arr
    {
      Lock(runcount, waitingReaders.Contents(), waitingWriters.Contents())
    }

    constructor ()
      ensures Valid() && Value() == Lock(0, [], [])
      ensures fresh(waitingReaders) && fresh(waitingReaders.arr) && fresh(waitingWriters) && fresh(waitingWriters.arr)
    {
      waitingReaders := new CircularQueue();
      waitingWriters := new CircularQueue();
      runcount := 0;
    }

    method RdLock(event: Handle) returns (wait: bool)
      requires Valid()
      modifies this, waitingReaders, waitingReaders.arr
      ensures Valid() && (Value(), wait) == RdEnter(old(Value()), event)
      ensures wait <==> old(runcount) < 0
      ensures runcount == old(runcount) + (if wait then 0 else 1)
      ensures waitingReaders.Contents() == old(waitingReaders.Contents()) + (if wait then [event] else [])
      ensures waitingReaders.arr == old(waitingReaders.arr) || fresh(waitingReaders.arr)
    {
      wait := false;
      if !(runcount + 1 > 0) {
        waitingReaders.Add(event);
        wait := true;
        return;
      }
      runcount := runcount + 1;
    }

    method WrLock(event: Handle) returns (wait: bool)
      requires Valid()
      modifies this, waitingWriters, waitingWriters.arr
      ensures Valid() && (Value(), wait) == WrEnter(old(Value()), event)
      ensures wait <==> old(runcount) != 0
      ensures runcount == if wait then old(runcount) else -1
      ensures waitingWriters.Contents() == old(waitingWriters.Contents()) + (if wait then [event] else [])
      ensures waitingWriters.arr == old(waitingWriters.arr) || fresh(waitingWriters.arr)
    {
      wait := false;
      if !(runcount == 0) {
        waitingWriters.Add(event);
        wait := true;
        return;
      }
      runcount := runcount - 1;
    }

    /** abort stands for the call of abort in the C code: the lock is left as it was. A free lock
        is refused. When nobody is left, the writer that has waited longest is granted the lock
        and signalled, or else all readers are, in the order in which they came. */
    method UnLock() returns (ok: bool, abort: bool, signalled: seq<Handle>)
      requires Valid()
      modifies this, waitingReaders, waitingWriters
      ensures Valid()
      ensures ok <==> old(runcount) == -1 || old(runcount) > 0
      ensures abort <==> old(runcount) < -1
      ensures !ok ==>
        && signalled == [] && runcount == old(runcount)
        && waitingReaders.Contents() == old(waitingReaders.Contents())
        && waitingWriters.Contents() == old(waitingWriters.Contents())
      ensures old(runcount) > 1 ==>
        && signalled == [] && runcount == old(runcount) - 1
        && waitingReaders.Contents() == old(waitingReaders.Contents())
        && waitingWriters.Contents() == old(waitingWriters.Contents())
      ensures (old(runcount) == 1 || old(runcount) == -1) && old(waitingWriters.Contents()) != [] ==>
        && signalled == [old(waitingWriters.Contents())[0]] && runcount == -1
        && waitingWriters.Contents() == old(waitingWriters.Contents())[1..]
        && waitingReaders.Contents() == old(waitingReaders.Contents())
      ensures (old(runcount) == 1 || old(runcount) == -1) && old(waitingWriters.Contents()) == [] ==>
        && signalled == old(waitingReaders.Contents()) && runcount == |signalled|
        && waitingWriters.Contents() == waitingReaders.Contents() == []
      ensures match Unlock(old(Value()))
              case Refused => !ok && !abort && Value() == old(Value()) && signalled == []
              case Abort => !ok && abort && Value() == old(Value()) && signalled == []
              case Released(l, sig) => ok && !abort && Value() == l && signalled == sig
    {
      ok, abort, signalled := true, false, [];
      if runcount < 0 {
        if !(runcount == -1) {
          ok, abort := false, true;
          return;
        }
        runcount := 0;
      } else {
        if !(runcount > 0) {
          ok := false;
          return;
        }
        runcount := runcount - 1;
      }
      if runcount == 0 {
        if waitingWriters.count > 0 {
          runcount := runcount - 1;
          var first := waitingWriters.NotifyFirst();
          signalled := [first];
          assert old(waitingWriters.Contents())[1..] == waitingWriters.Contents();
        } else {
          runcount := runcount + waitingReaders.count;
          signalled := waitingReaders.NotifyAll();
        }
      }
    }
  }

  /** Where a thread is. Granted means that its event has been signalled, but that it has
      not yet run; it then checks the runcount, outside the critical section. */
  datatype Pc = Idle | WaitingRead | GrantedRead | Reading | WaitingWrite | GrantedWrite | Writing | Aborted

  datatype State = State(lock: Lock, pc: map<Tid, Pc>)

  predicate Init(s: State) {
    s.lock == Lock(0, [], []) && forall t :: t in s.pc ==> s.pc[t] == Idle
  }

  function Granted(p: Pc): Pc {
    if p == WaitingRead then GrantedRead else if p == WaitingWrite then GrantedWrite else p
  }

  /** What signalling events does to the threads that wait for them. */
  function Signal(pc: map<Tid, Pc>, signalled: seq<Tid>): map<Tid, Pc> {
    map t | t in pc :: if t in signalled then Granted(pc[t]) else pc[t]
  }

  predicate RdLockStep(s: State, s': State, t: Tid) {
    && t in s.pc && s.pc[t] == Idle
    && var (l, wait) := RdEnter(s.lock, t);
       s' == State(l, s.pc[t := if wait then WaitingRead else Reading])
  }

  predicate WrLockStep(s: State, s': State, t: Tid) {
    && t in s.pc && s.pc[t] == Idle
    && var (l, wait) := WrEnter(s.lock, t);
       s' == State(l, s.pc[t := if wait then WaitingWrite else Writing])
  }

  /** Only a thread that holds the lock unlocks it. */
  predicate UnlockStep(s: State, s': State, t: Tid) {
    && t in s.pc && s.pc[t] in {Reading, Writing}
    && match Unlock(s.lock)
       case Refused => s' == s
       case Abort => s' == s.(pc := s.pc[t := Aborted])
       case Released(l, signalled) => s' == State(l, Signal(s.pc[t := Idle], signalled))
  }

  predicate ResumeReadStep(s: State, s': State, t: Tid) {
    && t in s.pc && s.pc[t] == GrantedRead
    && s' == s.(pc := s.pc[t := if s.lock.runcount > 0 then Reading else Aborted])
  }

  predicate ResumeWriteStep(s: State, s': State, t: Tid) {
    && t in s.pc && s.pc[t] == GrantedWrite
    && s' == s.(pc := s.pc[t := if s.lock.runcount == -1 then Writing else Aborted])
  }

  predicate StepOf(s: State, s': State, t: Tid) {
    || RdLockStep(s, s', t) || WrLockStep(s, s', t) || UnlockStep(s, s', t)
    || ResumeReadStep(s, s', t) || ResumeWriteStep(s, s', t)
  }

  ghost predicate Next(s: State, s': State) { exists t :: StepOf(s, s', t) }

  ghost predicate Run(trace: seq<State>) {
    && |trace| > 0 && Init(trace[0])
    && forall i :: 0 < i < |trace| ==> Next(trace[i - 1], trace[i])
  }

  /** The threads that own the lock, having been granted it or running with it. */
  function ReadOwners(s: State): set<Tid> { At(s.pc, {GrantedRead, Reading}) }
  function WriteOwners(s: State): set<Tid> { At(s.pc, {GrantedWrite, Writing}) }

  ghost predicate Distinct(q: seq<Tid>) {
    forall i, j :: 0 <= i < j < |q| ==> q[i] != q[j]
  }

  /** A queue holds exactly the threads that wait in it, each once. */
  ghost predicate Queues(q: seq<Tid>, waiting: set<Tid>) {
    Distinct(q) && forall t :: t in waiting <==> t in q
  }

  /** The invariant, on the lock and the sets of its read and write owners, of the threads
      that wait to read and to write, and of those that called abort. */
  ghost predicate Good(l: Lock, r: set<Tid>, w: set<Tid>, wr: set<Tid>, ww: set<Tid>, dead: set<Tid>) {
    && (|| (l.runcount == |r| && w == {})
        || (l.runcount == -1 && r == {} && |w| == 1))
    && Queues(l.readers, wr) && Queues(l.writers, ww)
    && (l.runcount >= 0 ==> l.readers == [])
    && (l.runcount == 0 ==> l.writers == [])
    && dead == {}
  }

  ghost predicate Inv(s: State) {
    Good(s.lock, ReadOwners(s), WriteOwners(s), At(s.pc, {WaitingRead}), At(s.pc, {WaitingWrite}), At(s.pc, {Aborted}))
  }

  lemma {:induction false} DistinctCount(q: seq<Tid>, s: set<Tid>)
    requires Queues(q, s)
    ensures |s| == |q|
  {
    if |q| == 0 {
      assert s == {};
    } else {
      var last := q[|q| - 1];
      assert last in s;
      assert forall t :: t in s - {last} <==> t in q[..|q| - 1];
      DistinctCount(q[..|q| - 1], s - {last});
    }
  }

  lemma InitInv(s: State)
    requires Init(s)
    ensures Inv(s)
  {
    assert ReadOwners(s) == {} && WriteOwners(s) == {};
  }

  /** All the sets of the invariant after one thread t has moved to p. */
  lemma Moved(s: State, l: Lock, t: Tid, p: Pc, s': State)
    requires t in s.pc && s' == State(l, s.pc[t := p])
    ensures ReadOwners(s') == if p in {GrantedRead, Reading} then ReadOwners(s) + {t} else ReadOwners(s) - {t}
    ensures WriteOwners(s') == if p in {GrantedWrite, Writing} then WriteOwners(s) + {t} else WriteOwners(s) - {t}
    ensures At(s'.pc, {WaitingRead}) == if p == WaitingRead then At(s.pc, {WaitingRead}) + {t} else At(s.pc, {WaitingRead}) - {t}
    ensures At(s'.pc, {WaitingWrite}) ==
      if p == WaitingWrite then At(s.pc, {WaitingWrite}) + {t} else At(s.pc, {WaitingWrite}) - {t}
    ensures At(s'.pc, {Aborted}) == if p == Aborted then At(s.pc, {Aborted}) + {t} else At(s.pc, {Aborted}) - {t}
  {
    AtUpdate(s.pc, t, p, {GrantedRead, Reading});
    AtUpdate(s.pc, t, p, {GrantedWrite, Writing});
    AtUpdate(s.pc, t, p, {WaitingRead});
    AtUpdate(s.pc, t, p, {WaitingWrite});
    AtUpdate(s.pc, t, p, {Aborted});
  }

  lemma RdEnterGood(l: Lock, r: set<Tid>, w: set<Tid>, wr: set<Tid>, ww: set<Tid>, t: Tid)
    requires Good(l, r, w, wr, ww, {}) && t !in r && t !in wr
    ensures var (l', wait) := RdEnter(l, t);
            if wait then Good(l', r, w, wr + {t}, ww, {}) else Good(l', r + {t}, w, wr, ww, {})
  {}

  lemma WrEnterGood(l: Lock, r: set<Tid>, w: set<Tid>, wr: set<Tid>, ww: set<Tid>, t: Tid)
    requires Good(l, r, w, wr, ww, {}) && t !in w && t !in ww
    ensures var (l', wait) := WrEnter(l, t);
            if wait then Good(l', r, w, wr, ww + {t}, {}) else Good(l', r, w + {t}, wr, ww, {})
  {}

  lemma Unfolded(s: State, t: Tid)
    requires Inv(s) && t in s.pc
    ensures t in ReadOwners(s) <==> s.pc[t] in {GrantedRead, Reading}
    ensures t in WriteOwners(s) <==> s.pc[t] in {GrantedWrite, Writing}
    ensures t in At(s.pc, {WaitingRead}) <==> s.pc[t] == WaitingRead
    ensures t in At(s.pc, {WaitingWrite}) <==> s.pc[t] == WaitingWrite
    ensures At(s.pc, {Aborted}) == {} && At(s.pc, {WaitingRead}) !! At(s.pc, {WaitingWrite})
    ensures Good(s.lock, ReadOwners(s), WriteOwners(s), At(s.pc, {WaitingRead}), At(s.pc, {WaitingWrite}), {})
  {
    var dead := At(s.pc, {Aborted});
    assert dead == {};
  }

  lemma Folded(s: State, r: set<Tid>, w: set<Tid>, wr: set<Tid>, ww: set<Tid>)
    requires ReadOwners(s) == r && WriteOwners(s) == w && At(s.pc, {WaitingRead}) == wr
    requires At(s.pc, {WaitingWrite}) == ww && At(s.pc, {Aborted}) == {}
    requires Good(s.lock, r, w, wr, ww, {})
    ensures Inv(s)
  {}

  lemma Absent(t: Tid, r: set<Tid>, w: set<Tid>, wr: set<Tid>, ww: set<Tid>)
    ensures t !in r ==> r - {t} == r
    ensures t !in w ==> w - {t} == w
    ensures t !in wr ==> wr - {t} == wr
    ensures t !in ww ==> ww - {t} == ww
    ensures {} - {t} == {}
  {}

  lemma RdLockInv(s: State, s': State, t: Tid)
    requires Inv(s) && RdLockStep(s, s', t)
    ensures Inv(s')
  {
    hide At, ReadOwners, WriteOwners, Good, Inv, RdEnter;
    var r, w, wr, ww := ReadOwners(s), WriteOwners(s), At(s.pc, {WaitingRead}), At(s.pc, {WaitingWrite});
    Unfolded(s, t);
    Moved(s, s'.lock, t, s'.pc[t], s');
    RdEnterGood(s.lock, r, w, wr, ww, t);
    Absent(t, r, w, wr, ww);
    if s'.pc[t] == Reading {
      Folded(s', r + {t}, w, wr, ww);
    } else {
      Folded(s', r, w, wr + {t}, ww);
    }
  }

  lemma WrLockInv(s: State, s': State, t: Tid)
    requires Inv(s) && WrLockStep(s, s', t)
    ensures Inv(s')
  {
    hide At, ReadOwners, WriteOwners, Good, Inv, WrEnter;
    var r, w, wr, ww := ReadOwners(s), WriteOwners(s), At(s.pc, {WaitingRead}), At(s.pc, {WaitingWrite});
    Unfolded(s, t);
    Moved(s, s'.lock, t, s'.pc[t], s');
    WrEnterGood(s.lock, r, w, wr, ww, t);
    Absent(t, r, w, wr, ww);
    if s'.pc[t] == Writing {
      Folded(s', r, w + {t}, wr, ww);
    } else {
      Folded(s', r, w, wr, ww + {t});
    }
  }

  /** An owner of the lock is counted in the runcount. */
  lemma OwnerCounted(l: Lock, r: set<Tid>, w: set<Tid>, wr: set<Tid>, ww: set<Tid>, t: Tid)
    requires Good(l, r, w, wr, ww, {})
    ensures t in r ==> l.runcount > 0 && t !in w
    ensures t in w ==> l.runcount == -1 && t !in r
  {
    if t in r { assert |r| > 0; }
  }

  /** The checks after waking up succeed: a granted thread is counted in the runcount. */
  lemma ResumeInv(s: State, s': State, t: Tid)
    requires Inv(s) && (ResumeReadStep(s, s', t) || ResumeWriteStep(s, s', t))
    ensures Inv(s') && s'.pc[t] != Aborted
  {
    hide At, ReadOwners, WriteOwners, Good, Inv;
    var r, w, wr, ww := ReadOwners(s), WriteOwners(s), At(s.pc, {WaitingRead}), At(s.pc, {WaitingWrite});
    Unfolded(s, t);
    OwnerCounted(s.lock, r, w, wr, ww, t);
    Moved(s, s'.lock, t, s'.pc[t], s');
    assert wr - {t} == wr && ww - {t} == ww && {} - {t} == {};
    assert t in r ==> r + {t} == r && w - {t} == w;
    assert t in w ==> w + {t} == w && r - {t} == r;
    Folded(s', r, w, wr, ww);
  }

  /** A reader leaves and others stay: nobody is woken. */
  lemma LeaveGood(l: Lock, r: set<Tid>, w: set<Tid>, wr: set<Tid>, ww: set<Tid>, t: Tid)
    requires Good(l, r, w, wr, ww, {}) && (t in r || t in w) && l.runcount > 1
    ensures Unlock(l) == Released(l.(runcount := l.runcount - 1), [])
    ensures Good(l.(runcount := l.runcount - 1), r - {t}, w - {t}, wr, ww, {})
  {
    assert |r - {t}| == |r| - 1;
  }

  /** The last holder leaves. */
  lemma LastLeaves(l: Lock, r: set<Tid>, w: set<Tid>, wr: set<Tid>, ww: set<Tid>, t: Tid)
    requires Good(l, r, w, wr, ww, {}) && (t in r || t in w) && l.runcount <= 1
    ensures Unlock(l) == HandOff(l.(runcount := 0))
    ensures r - {t} == {} && w - {t} == {}
  {
    if t in r {
      assert |r - {t}| == |r| - 1;
      assert |r| > 0;
    } else {
      assert |w - {t}| == 0;
    }
  }

  function Elements(q: seq<Tid>): set<Tid> { set t | t in q }

  /** A free lock is handed to the first waiting writer, or else to all waiting readers. */
  lemma HandOffGood(l: Lock, wr: set<Tid>, ww: set<Tid>)
    requires l.runcount == 0 && Queues(l.readers, wr) && Queues(l.writers, ww)
    ensures HandOff(l).Released?
    ensures var Released(l', signalled) := HandOff(l);
            var woken := Elements(signalled);
            if l.writers != [] then woken <= ww && Good(l', {}, woken, wr, ww - woken, {})
            else woken == wr && ww == {} && Good(l', wr, {}, {}, {}, {})
  {
    if l.writers != [] {
      var rest := l.writers[1..];
      assert Elements(l.writers[..1]) == {l.writers[0]};
      assert l.writers == [l.writers[0]] + rest;
      assert forall t :: t in ww - {l.writers[0]} <==> t in rest;
    } else {
      assert ww == {};
      DistinctCount(l.readers, wr);
      assert Elements(l.readers) == wr;
    }
  }

  /** What signalling does to the sets of the invariant. */
  lemma SignalMoves(s: State, l: Lock, signalled: seq<Tid>, s': State)
    requires s' == State(l, Signal(s.pc, signalled))
    ensures var woken := Elements(signalled);
      && ReadOwners(s') == ReadOwners(s) + (woken * At(s.pc, {WaitingRead}))
      && WriteOwners(s') == WriteOwners(s) + (woken * At(s.pc, {WaitingWrite}))
      && At(s'.pc, {WaitingRead}) == At(s.pc, {WaitingRead}) - woken
      && At(s'.pc, {WaitingWrite}) == At(s.pc, {WaitingWrite}) - woken
      && At(s'.pc, {Aborted}) == At(s.pc, {Aborted})
  {}

  lemma UnlockQuietly(s: State, s': State, t: Tid)
    requires Inv(s) && UnlockStep(s, s', t) && s.lock.runcount > 1
    ensures Inv(s') && Unlock(s.lock).Released?
  {
    hide At, ReadOwners, WriteOwners, Good, Inv, Queues, Unlock, HandOff, Elements, Signal;
    var l, r, w := s.lock, ReadOwners(s), WriteOwners(s);
    var wr, ww := At(s.pc, {WaitingRead}), At(s.pc, {WaitingWrite});
    Unfolded(s, t);
    OwnerCounted(l, r, w, wr, ww, t);
    var s1 := State(l, s.pc[t := Idle]);
    Moved(s, l, t, Idle, s1);
    Absent(t, r, w, wr, ww);
    LeaveGood(l, r, w, wr, ww, t);
    SignalMoves(s1, s'.lock, [], s');
    NothingSignalled(r - {t}, w - {t}, wr, ww);
    Folded(s', r - {t}, w - {t}, wr, ww);
  }

  lemma NothingSignalled(r: set<Tid>, w: set<Tid>, wr: set<Tid>, ww: set<Tid>)
    ensures Elements([]) == {} && r + {} * wr == r && w + {} * ww == w && wr - {} == wr && ww - {} == ww
  {}

  lemma UnlockLast(s: State, s': State, t: Tid)
    requires Inv(s) && UnlockStep(s, s', t) && s.lock.runcount <= 1
    ensures Inv(s') && Unlock(s.lock).Released?
  {
    hide At, ReadOwners, WriteOwners, Good, Inv, Queues, Unlock, HandOff, Elements, Signal;
    var l, r, w := s.lock, ReadOwners(s), WriteOwners(s);
    var wr, ww := At(s.pc, {WaitingRead}), At(s.pc, {WaitingWrite});
    Unfolded(s, t);
    OwnerCounted(l, r, w, wr, ww, t);
    var s1 := State(l, s.pc[t := Idle]);
    Moved(s, l, t, Idle, s1);
    Absent(t, r, w, wr, ww);
    LastLeaves(l, r, w, wr, ww, t);
    GoodQueues(l, r, w, wr, ww);
    HandOffGood(l.(runcount := 0), wr, ww);
    var Released(l', signalled) := HandOff(l.(runcount := 0));
    SignalMoves(s1, l', signalled, s');
    Woken(Elements(signalled), wr, ww);
    if l.writers != [] {
      Folded(s', {}, Elements(signalled), wr, ww - Elements(signalled));
    } else {
      Folded(s', wr, {}, {}, {});
    }
  }

  lemma Woken(woken: set<Tid>, wr: set<Tid>, ww: set<Tid>)
    requires wr !! ww
    ensures woken <= ww ==> {} + woken * wr == {} && {} + woken * ww == woken && wr - woken == wr
    ensures woken == wr && ww == {} ==> {} + woken * wr == wr && {} + woken * ww == {} && wr - woken == {} && ww - woken == {}
  {}

  /** Whoever holds the lock can unlock it without an error, and the invariant stays. */
  lemma UnlockInv(s: State, s': State, t: Tid)
    requires Inv(s) && UnlockStep(s, s', t)
    ensures Inv(s') && Unlock(s.lock).Released?
  {
    hide Inv;
    if s.lock.runcount > 1 {
      UnlockQuietly(s, s', t);
    } else {
      UnlockLast(s, s', t);
    }
  }

  lemma GoodQueues(l: Lock, r: set<Tid>, w: set<Tid>, wr: set<Tid>, ww: set<Tid>)
    requires Good(l, r, w, wr, ww, {})
    ensures Queues(l.readers, wr) && Queues(l.writers, ww)
  {}

  /** Every step keeps the invariant. */
  lemma NextInv(s: State, s': State)
    requires Inv(s) && Next(s, s')
    ensures Inv(s')
  {
    var t :| StepOf(s, s', t);
    hide Inv;
    if RdLockStep(s, s', t) {
      RdLockInv(s, s', t);
    } else if WrLockStep(s, s', t) {
      WrLockInv(s, s', t);
    } else if UnlockStep(s, s', t) {
      UnlockInv(s, s', t);
    } else {
      ResumeInv(s, s', t);
    }
  }

  lemma {:induction false} RunInv(trace: seq<State>, i: nat)
    requires Run(trace) && i < |trace|
    ensures Inv(trace[i])
  {
    if i == 0 {
      InitInv(trace[0]);
    } else {
      RunInv(trace, i - 1);
      NextInv(trace[i - 1], trace[i]);
    }
  }

  /** In every state of every run: the runcount is -1 exactly when one writer owns the lock
      or has been granted it, and otherwise it is the number of owning readers; a free lock
      has nobody waiting; no woken thread has called abort. */
  lemma {:induction false} EveryRun(trace: seq<State>, i: nat)
    requires Run(trace) && i < |trace|
    ensures var s := trace[i];
      var readers, writers := |ReadOwners(s)|, |WriteOwners(s)|;
      && writers <= 1 && (writers == 1 ==> readers == 0)
      && s.lock.runcount == (if writers == 1 then -1 else readers)
      && (s.lock.runcount == 0 ==> s.lock.readers == [] && s.lock.writers == [])
      && (forall t :: t in s.pc && s.pc[t] in {WaitingRead, WaitingWrite} ==> readers + writers > 0)
      && (forall t :: t in s.pc ==> s.pc[t] != Aborted)
      && (forall t :: t in s.lock.readers <==> t in s.pc && s.pc[t] == WaitingRead)
      && (forall t :: t in s.lock.writers <==> t in s.pc && s.pc[t] == WaitingWrite)
  {
    RunInv(trace, i);
    var s := trace[i];
    var wr, ww, dead := At(s.pc, {WaitingRead}), At(s.pc, {WaitingWrite}), At(s.pc, {Aborted});
    assert dead == {};
    assert forall t :: t in s.pc && s.pc[t] == Aborted ==> t in dead;
    assert forall t :: t in s.pc && s.pc[t] == WaitingRead <==> t in wr;
    assert forall t :: t in s.pc && s.pc[t] == WaitingWrite <==> t in ww;
  }

  /** Thread t waits, and u neither waits before it nor has got the lock to write. */
  ghost predicate WaitsBefore(s: State, t: Tid, u: Tid) {
    && t in s.pc && s.pc[t] == WaitingWrite
    && (u in s.pc ==> s.pc[u] != GrantedWrite && s.pc[u] != Writing)
    && (u in s.lock.writers ==> InOrder(s.lock.writers, t, u))
  }

  ghost predicate InOrder(q: seq<Tid>, t: Tid, u: Tid) {
    exists i, j :: 0 <= i < j < |q| && q[i] == t && q[j] == u
  }

  lemma OrderKept(q: seq<Tid>, t: Tid, u: Tid, last: Tid)
    requires InOrder(q, t, u)
    ensures InOrder(q + [last], t, u)
    ensures q != [] && q[0] != t ==> InOrder(q[1..], t, u)
  {
    var i, j :| 0 <= i < j < |q| && q[i] == t && q[j] == u;
    assert (q + [last])[i] == t && (q + [last])[j] == u;
    if q[0] != t { assert q[1..][i - 1] == t && q[1..][j - 1] == u; }
  }

  lemma OrderGained(q: seq<Tid>, t: Tid, u: Tid)
    requires t in q
    ensures InOrder(q + [u], t, u)
  {
    var i :| 0 <= i < |q| && q[i] == t;
    assert (q + [u])[i] == t && (q + [u])[|q|] == u;
  }

  lemma Waiting(s: State, t: Tid)
    requires Inv(s) && t in s.pc
    ensures s.pc[t] == WaitingWrite <==> t in s.lock.writers
    ensures s.pc[t] == WaitingRead <==> t in s.lock.readers
    ensures t in s.lock.writers ==> s.lock.runcount != 0
    ensures Distinct(s.lock.writers)
  {
    assert t in At(s.pc, {WaitingWrite}) <==> s.pc[t] == WaitingWrite;
    assert t in At(s.pc, {WaitingRead}) <==> s.pc[t] == WaitingRead;
  }

  /** A newcomer joins the queue at its end. */
  lemma EnterBehind(s: State, s': State, v: Tid, t: Tid, u: Tid)
    requires Inv(s) && (RdLockStep(s, s', v) || WrLockStep(s, s', v)) && WaitsBefore(s, t, u)
    ensures v != t ==> WaitsBefore(s', t, u)
  {
    hide Inv;
    Waiting(s, t);
    if s'.lock.writers == s.lock.writers + [v] && v != t {
      if v == u {
        OrderGained(s.lock.writers, t, u);
      } else if u in s.lock.writers {
        OrderKept(s.lock.writers, t, u, v);
      }
    }
  }

  /** Unlocking takes nobody but the first writer from the queue. */
  lemma UnlockInOrder(s: State, s': State, v: Tid, t: Tid, u: Tid)
    requires Inv(s) && UnlockStep(s, s', v) && WaitsBefore(s, t, u) && s'.pc[t] == WaitingWrite
    ensures WaitsBefore(s', t, u)
  {
    hide Inv, InOrder;
    var q := s.lock.writers;
    Waiting(s, t);
    if u in s.pc { Waiting(s, u); }
    if u in q {
      OrderKept(q, t, u, v);
      SecondInOrder(q, t, u);
    }
  }

  lemma SecondInOrder(q: seq<Tid>, t: Tid, u: Tid)
    requires InOrder(q, t, u) && Distinct(q)
    ensures t in q && q[0] != u
  {}

  lemma StillBefore(s: State, s': State, t: Tid, u: Tid)
    requires Inv(s) && Next(s, s') && WaitsBefore(s, t, u) && t in s'.pc && s'.pc[t] == WaitingWrite
    ensures WaitsBefore(s', t, u)
  {
    hide Inv, InOrder;
    var v :| StepOf(s, s', v);
    if RdLockStep(s, s', v) || WrLockStep(s, s', v) {
      EnterBehind(s, s', v, t, u);
    } else if UnlockStep(s, s', v) {
      UnlockInOrder(s, s', v, t, u);
    }
  }

  /** First come, first served, among writers: while t waits to write, a thread that was not
      waiting before t, and did not have the lock to write then, does not get it to write. */
  lemma {:induction false} WritersInOrder(trace: seq<State>, i: nat, j: nat, t: Tid, u: Tid)
    requires Run(trace) && i <= j < |trace| && WaitsBefore(trace[i], t, u)
    requires forall k :: i <= k <= j ==> t in trace[k].pc && trace[k].pc[t] == WaitingWrite
    ensures WaitsBefore(trace[j], t, u)
    ensures u in trace[j].pc ==> trace[j].pc[u] != GrantedWrite && trace[j].pc[u] != Writing
    decreases j
  {
    hide Inv, InOrder, Next;
    if i < j {
      WritersInOrder(trace, i, j - 1, t, u);
      RunInv(trace, j - 1);
      assert Next(trace[j - 1], trace[j]);
      StillBefore(trace[j - 1], trace[j], t, u);
    }
  }

  /** Readers and a writer never run together, nor do two writers. */
  lemma MutualExclusion(trace: seq<State>, i: nat, t: Tid, u: Tid)
    requires Run(trace) && i < |trace|
    requires t in trace[i].pc && u in trace[i].pc && t != u
    requires trace[i].pc[t] == Writing
    ensures trace[i].pc[u] !in {Reading, Writing}
  {
    EveryRun(trace, i);
    var s := trace[i];
    assert t in WriteOwners(s);
    if u in WriteOwners(s) { SingletonSet(WriteOwners(s), t, u); }
    assert u !in ReadOwners(s) by { assert ReadOwners(s) == {}; }
  }

  /** Among the steps that unlock, the error return and the abort never happen. */
  lemma UnlockSucceeds(trace: seq<State>, i: nat, s': State, t: Tid)
    requires Run(trace) && i < |trace| && UnlockStep(trace[i], s', t)
    ensures Unlock(trace[i].lock).Released?
    ensures s'.lock.runcount != 0 || (s'.lock.readers == [] && s'.lock.writers == [])
  {
    RunInv(trace, i);
    UnlockInv(trace[i], s', t);
  }

  ghost predicate Steps(trace: seq<State>) {
    |trace| > 0 && forall i :: 0 < i < |trace| ==> Next(trace[i - 1], trace[i])
  }

  /** How far the threads still have to go, each waiting one three steps, until all are idle. */
  function Distance(s: State): nat {
    3 * |At(s.pc, {WaitingRead, WaitingWrite})| + 2 * |At(s.pc, {GrantedRead, GrantedWrite})| + |At(s.pc, {Reading, Writing})|
  }

  lemma DistanceMoved(s: State, l: Lock, t: Tid, p: Pc)
    requires t in s.pc && p in {Reading, Writing, Idle}
    requires s.pc[t] in {GrantedRead, GrantedWrite} || (s.pc[t] in {Reading, Writing} && p == Idle)
    ensures Distance(State(l, s.pc[t := p])) < Distance(s)
  {
    CountUpdate(s.pc, t, p, {WaitingRead, WaitingWrite});
    CountUpdate(s.pc, t, p, {GrantedRead, GrantedWrite});
    CountUpdate(s.pc, t, p, {Reading, Writing});
  }

  lemma DistanceSignalled(l: Lock, pc: map<Tid, Pc>, l': Lock, signalled: seq<Tid>)
    ensures Distance(State(l', Signal(pc, signalled))) <= Distance(State(l, pc))
  {
    hide At, Signal;
    var b, k := At(pc, {WaitingRead, WaitingWrite}), At(pc, {GrantedRead, GrantedWrite});
    SignalPlaces(pc, signalled);
    Transfer(b, k, Elements(signalled));
    SubsetCount(b - Elements(signalled), b);
  }

  lemma SignalPlaces(pc: map<Tid, Pc>, signalled: seq<Tid>)
    ensures var b, k, pc' := At(pc, {WaitingRead, WaitingWrite}), At(pc, {GrantedRead, GrantedWrite}), Signal(pc, signalled);
      var woken := Elements(signalled);
      && At(pc', {WaitingRead, WaitingWrite}) == b - woken
      && At(pc', {GrantedRead, GrantedWrite}) == k + woken * b
      && At(pc', {Reading, Writing}) == At(pc, {Reading, Writing})
      && b !! k
  {}

  /** Unless all threads are idle, one of them can take a step towards that. */
  lemma Progress(s: State) returns (s': State)
    requires Inv(s) && exists t :: t in s.pc && s.pc[t] != Idle
    ensures Next(s, s') && Distance(s') < Distance(s) && s'.pc.Keys == s.pc.Keys
  {
    if t :| t in s.pc && s.pc[t] in {Reading, Writing} {
      UnlockReleases(s, t);
      var Released(l, signalled) := Unlock(s.lock);
      s' := State(l, Signal(s.pc[t := Idle], signalled));
      assert StepOf(s, s', t) by { assert UnlockStep(s, s', t); }
      DistanceMoved(s, l, t, Idle);
      DistanceSignalled(l, s.pc[t := Idle], l, signalled);
    } else {
      var t := SomeGranted(s);
      Unfolded(s, t);
      OwnerCounted(s.lock, ReadOwners(s), WriteOwners(s), At(s.pc, {WaitingRead}), At(s.pc, {WaitingWrite}), t);
      var p := if s.pc[t] == GrantedRead then Reading else Writing;
      s' := s.(pc := s.pc[t := p]);
      assert StepOf(s, s', t) by { assert ResumeReadStep(s, s', t) || ResumeWriteStep(s, s', t); }
      DistanceMoved(s, s.lock, t, p);
    }
  }

  lemma UnlockReleases(s: State, t: Tid)
    requires Inv(s) && t in s.pc && s.pc[t] in {Reading, Writing}
    ensures Unlock(s.lock).Released?
  {
    hide Inv, Good, At, ReadOwners, WriteOwners;
    Unfolded(s, t);
    OwnerCounted(s.lock, ReadOwners(s), WriteOwners(s), At(s.pc, {WaitingRead}), At(s.pc, {WaitingWrite}), t);
  }

  /** With nobody running, somebody has been granted the lock, for a free lock has no queue. */
  lemma SomeGranted(s: State) returns (t: Tid)
    requires Inv(s) && exists u :: u in s.pc && s.pc[u] != Idle
    requires forall u :: u in s.pc ==> s.pc[u] !in {Reading, Writing}
    ensures t in s.pc && s.pc[t] in {GrantedRead, GrantedWrite}
  {
    var u :| u in s.pc && s.pc[u] != Idle;
    var wr, ww, dead := At(s.pc, {WaitingRead}), At(s.pc, {WaitingWrite}), At(s.pc, {Aborted});
    assert dead == {};
    assert s.pc[u] == Aborted ==> u in dead;
    if s.pc[u] in {GrantedRead, GrantedWrite} {
      t := u;
    } else {
      assert u in wr || u in ww;
      assert s.lock.readers != [] || s.lock.writers != [];
      assert s.lock.runcount != 0;
      NonEmptySet(ReadOwners(s));
      NonEmptySet(WriteOwners(s));
      if |ReadOwners(s)| > 0 {
        t :| t in ReadOwners(s);
      } else {
        t :| t in WriteOwners(s);
      }
    }
  }

  /** No deadlock: from every state of every run, the threads that have called the lock can all
      get it and give it back, with no call from any other thread. */
  lemma {:induction false} CanDrain(s: State) returns (trace: seq<State>)
    requires Inv(s)
    ensures Steps(trace) && trace[0] == s
    ensures var last := trace[|trace| - 1];
      last.pc.Keys == s.pc.Keys && forall t :: t in last.pc ==> last.pc[t] == Idle
    decreases Distance(s)
  {
    hide Inv, Distance;
    if exists t :: t in s.pc && s.pc[t] != Idle {
      var s' := Progress(s);
      NextInv(s, s');
      var rest := CanDrain(s');
      trace := [s] + rest;
      forall i | 0 < i < |trace|
        ensures Next(trace[i - 1], trace[i])
      {
        assert trace[i] == rest[i - 1];
        if i > 1 { assert trace[i - 1] == rest[i - 2]; }
      }
    } else {
      trace := [s];
    }
  }
}
