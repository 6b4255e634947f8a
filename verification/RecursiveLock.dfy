/** The recursive lock on a plain mutex (glthread_recursive_lock_*_multithreaded in
    glthread/lock.c). Its owner field is read without the mutex, and depth is a plain
    counter, so every read and every write of a shared field is a step of its own. */
module RecursiveLock {
  import opened Options
  import opened Threads

  /** The number of values of an unsigned long. */
  const WRAP := 0x1_0000_0000_0000_0000

  /** ++ and -- of an unsigned long. */
  function Inc(d: int): int { if d == WRAP - 1 then 0 else d + 1 }
  function Dec(d: int): int { if d == 0 then WRAP - 1 else d - 1 }

  /** Where a thread is. Load and Store are the two halves of changing depth, and the value of
      a Store is the one about to be written. */
  datatype Pc =
    | Idle
    | Locking | Claiming | LockLoad | LockStore(v: int) | Undo
    | UnlockCheck | UnlockLoad | UnlockStore(v: int) | Disowning | Releasing

  datatype Call = Lock | Unlock

  /** What a step means for the caller: the call goes on or returns. */
  datatype Outcome = Underway | Success | EAGAIN | EPERM | EINVAL

  /** The fields of gl_recursive_lock_t, the places of the threads, and as history how many
      locks each thread has taken and not given back. */
  datatype State = State(mutex: Option<Tid>, owner: Option<Tid>, depth: int, pc: map<Tid, Pc>, nest: map<Tid, int>)

  predicate Init(s: State) {
    && s.mutex == None && s.owner == None && s.depth == 0
    && s.nest.Keys == s.pc.Keys && forall t :: t in s.pc ==> s.pc[t] == Idle && s.nest[t] == 0
  }

  function Goto(s: State, t: Tid, p: Pc): State { s.(pc := s.pc[t := p]) }

  /** What thread t does next, given the call that it makes when it is idle; no value when it
      has to wait for the mutex. */
  function Act(s: State, t: Tid, call: Call): Option<(State, Outcome)>
    requires t in s.pc && t in s.nest
  {
    match s.pc[t]
    case Idle =>
      if call == Lock then Some((Goto(s, t, if s.owner != Some(t) then Locking else LockLoad), Underway))
      else if s.owner != Some(t) then Some((s, EPERM))
      else Some((Goto(s, t, UnlockCheck), Underway))
    case Locking =>
      if s.mutex == None then Some((Goto(s, t, Claiming).(mutex := Some(t)), Underway)) else None
    case Claiming => Some((Goto(s, t, LockLoad).(owner := Some(t)), Underway))
    case LockLoad => Some((Goto(s, t, LockStore(Inc(s.depth))), Underway))
    case LockStore(v) =>
      if v == 0 then Some((Goto(s, t, Undo).(depth := v), Underway))
      else Some((Goto(s, t, Idle).(depth := v, nest := s.nest[t := s.nest[t] + 1]), Success))
    case Undo => Some((Goto(s, t, Idle).(depth := Dec(s.depth)), EAGAIN))
    case UnlockCheck =>
      if s.depth == 0 then Some((Goto(s, t, Idle), EINVAL)) else Some((Goto(s, t, UnlockLoad), Underway))
    case UnlockLoad => Some((Goto(s, t, UnlockStore(Dec(s.depth))), Underway))
    case UnlockStore(v) =>
      var s' := s.(depth := v, nest := s.nest[t := s.nest[t] - 1]);
      if v == 0 then Some((Goto(s', t, Disowning), Underway)) else Some((Goto(s', t, Idle), Success))
    case Disowning => Some((Goto(s, t, Releasing).(owner := None), Underway))
    case Releasing => Some((Goto(s, t, Idle).(mutex := None), Success))
  }

  ghost predicate StepOf(s: State, s': State, t: Tid) {
    t in s.pc && t in s.nest && exists call :: Act(s, t, call).Some? && Act(s, t, call).value.0 == s'
  }

  ghost predicate Next(s: State, s': State) { exists t :: StepOf(s, s', t) }

  ghost predicate Run(trace: seq<State>) {
    && |trace| > 0 && Init(trace[0])
    && forall i :: 0 < i < |trace| ==> Next(trace[i - 1], trace[i])
  }

  /** What holds of a thread at p with n locks, by whether it is in the mutex and whether
      owner names it; the mutex makes depth its own. */
  predicate Local(p: Pc, n: int, inMutex: bool, isOwner: bool, depth: int) {
    && 0 <= n < WRAP
    && (inMutex <==> p != Locking && (p == Idle ==> n > 0))
    && (isOwner <==> inMutex && p != Claiming && p != Releasing)
    && (p == Locking || p == Claiming || p == Disowning || p == Releasing ==> n == 0)
    && (p == UnlockCheck || p == UnlockLoad || p.UnlockStore? ==> n > 0)
    && (p.LockStore? ==> p.v == Inc(n))
    && (p.UnlockStore? ==> p.v == n - 1)
    && (p == Undo ==> n == WRAP - 1)
    && (inMutex ==> depth == if p == Undo then 0 else n)
  }

  predicate Sound(s: State, t: Tid)
    requires t in s.pc && t in s.nest
  {
    Local(s.pc[t], s.nest[t], s.mutex == Some(t), s.owner == Some(t), s.depth)
  }

  ghost predicate Inv(s: State) {
    && s.nest.Keys == s.pc.Keys
    && (s.mutex == None ==> s.depth == 0)
    && (s.mutex.Some? ==> s.mutex.value in s.pc)
    && (s.owner.Some? ==> s.owner.value in s.pc)
    && forall t :: t in s.pc ==> Sound(s, t)
  }

  /** The step of t moves only t, and touches depth and owner only inside the mutex. */
  lemma Frame(s: State, t: Tid, call: Call)
    requires Inv(s) && t in s.pc && Act(s, t, call).Some?
    ensures var s' := Act(s, t, call).value.0;
      && s'.nest.Keys == s'.pc.Keys == s.pc.Keys
      && (forall u :: u in s.pc && u != t ==> s'.pc[u] == s.pc[u] && s'.nest[u] == s.nest[u])
      && (s'.mutex == s.mutex || (s.mutex == None && s'.mutex == Some(t)) || (s.mutex == Some(t) && s'.mutex == None))
      && (s'.owner == s.owner || (s.mutex == Some(t) && (s'.owner == None || s'.owner == Some(t))))
      && (s.mutex != Some(t) ==> s'.depth == s.depth)
  {
    assert Sound(s, t);
  }

  /** The places inside lock. */
  predicate Locks(p: Pc) { p.Locking? || p.Claiming? || p.LockLoad? || p.LockStore? || p.Undo? }

  lemma SoundAfterLock(s: State, t: Tid, call: Call)
    requires Inv(s) && t in s.pc && Act(s, t, call).Some? && (Locks(s.pc[t]) || s.pc[t].Idle?)
    ensures var s' := Act(s, t, call).value.0;
      t in s'.pc && t in s'.nest && Sound(s', t) && (s'.mutex == None ==> s'.depth == 0)
  {
    assert Sound(s, t);
    hide Inv;
  }

  lemma SoundAfterUnlock(s: State, t: Tid, call: Call)
    requires Inv(s) && t in s.pc && Act(s, t, call).Some? && !Locks(s.pc[t]) && !s.pc[t].Idle?
    ensures var s' := Act(s, t, call).value.0;
      t in s'.pc && t in s'.nest && Sound(s', t) && (s'.mutex == None ==> s'.depth == 0)
  {
    assert Sound(s, t);
    hide Inv;
  }

  lemma SoundAfter(s: State, t: Tid, call: Call)
    requires Inv(s) && t in s.pc && Act(s, t, call).Some?
    ensures var s' := Act(s, t, call).value.0;
      t in s'.pc && t in s'.nest && Sound(s', t) && (s'.mutex == None ==> s'.depth == 0)
  {
    hide Act, Sound, Inv;
    if Locks(s.pc[t]) || s.pc[t].Idle? {
      SoundAfterLock(s, t, call);
    } else {
      SoundAfterUnlock(s, t, call);
    }
  }

  lemma SoundForOthers(s: State, t: Tid, call: Call, u: Tid)
    requires Inv(s) && t in s.pc && Act(s, t, call).Some? && u in s.pc && u != t
    ensures var s' := Act(s, t, call).value.0; u in s'.pc && u in s'.nest && Sound(s', u)
  {
    var s' := Act(s, t, call).value.0;
    hide Act;
    Frame(s, t, call);
    assert Sound(s, t) && Sound(s, u);
    assert (s'.mutex == Some(u)) == (s.mutex == Some(u));
    assert s.owner == Some(u) ==> s.mutex == Some(u);
    assert (s'.owner == Some(u)) == (s.owner == Some(u));
  }

  /** Every step keeps the invariant. */
  lemma NextInv(s: State, s': State)
    requires Inv(s) && Next(s, s')
    ensures Inv(s')
  {
    var t :| StepOf(s, s', t);
    var call :| Act(s, t, call).Some? && Act(s, t, call).value.0 == s';
    hide Act, Sound;
    Frame(s, t, call);
    SoundAfter(s, t, call);
    forall u | u in s'.pc
      ensures Sound(s', u)
    {
      if u != t { SoundForOthers(s, t, call, u); }
    }
  }

  lemma {:induction false} RunInv(trace: seq<State>, i: nat)
    requires Run(trace) && i < |trace|
    ensures Inv(trace[i])
  {
    if i > 0 {
      RunInv(trace, i - 1);
      NextInv(trace[i - 1], trace[i]);
    }
  }

  /** In every state of every run: no two threads have the lock, whoever has it holds the
      mutex, and between its calls depth is how often it has locked. The unguarded test of
      owner is exact: an idle thread reads its own name there just when it has the lock. */
  lemma {:induction false} EveryRun(trace: seq<State>, i: nat, t: Tid, u: Tid)
    requires Run(trace) && i < |trace|
    requires t in trace[i].pc && u in trace[i].pc
    ensures var s := trace[i];
      && t in s.nest && u in s.nest
      && (t != u && s.nest[t] > 0 ==> s.nest[u] == 0 && s.mutex == Some(t))
      && (s.pc[t] == Idle ==> (s.owner == Some(t) <==> s.nest[t] > 0))
      && (s.pc[t] == Idle && s.nest[t] > 0 ==> s.depth == s.nest[t])
  {
    RunInv(trace, i);
    assert Sound(trace[i], t) && Sound(trace[i], u);
  }

  /** What callers are told: unlock fails just for threads that do not have the lock, lock
      fails just when depth is at its limit, EINVAL is never returned, and only the last
      unlock lets others in. */
  lemma {:induction false} Answers(trace: seq<State>, i: nat, t: Tid, call: Call)
    requires Run(trace) && i < |trace| && t in trace[i].pc && t in trace[i].nest
    requires Act(trace[i], t, call).Some?
    ensures var s := trace[i];
      var (s', answer) := Act(s, t, call).value;
      && (s.pc[t] == Idle ==> (answer == EPERM <==> call == Unlock && s.nest[t] == 0))
      && (s.pc[t] != Idle ==> answer != EPERM)
      && answer != EINVAL
      && (answer == EAGAIN ==> s.nest[t] == WRAP - 1 && s' == Goto(s, t, Idle).(depth := WRAP - 1))
      && (s.mutex == Some(t) && s'.mutex == None <==> s.pc[t] == Releasing && s.nest[t] == 0)
  {
    RunInv(trace, i);
    assert Sound(trace[i], t);
  }
}
