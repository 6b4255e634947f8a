/** The hand-off lock step by step: unlocking writes the runcount and signals the events one
    after the other, while woken threads read the runcount outside the critical section. Every
    such run does what a run with unlocking in one step does. */
module HandoffSteps {
  import opened Threads
  import opened HandoffLock

  /** Who is in the critical section: nobody, or thread t in the middle of unlocking. It has
      given up its own hold, and then has granted the lock to others, of whom some are still to
      be signalled. The other critical sections write one shared field at most. */
  datatype Section = Free | Dropped(t: Tid) | Granting(t: Tid, rest: seq<Tid>)

  datatype Fine = Fine(s: State, section: Section)

  predicate DropStep(f: Fine, f': Fine, t: Tid) {
    && f.section == Free && t in f.s.pc && f.s.pc[t] in {Reading, Writing}
    && match Unlock(f.s.lock)
       case Refused => f' == f
       case Abort => f' == f.(s := f.s.(pc := f.s.pc[t := Aborted]))
       case Released(_, _) =>
         var runcount := f.s.lock.runcount;
         f' == Fine(f.s.(lock := f.s.lock.(runcount := if runcount < 0 then 0 else runcount - 1)), Dropped(t))
  }

  /** The lock is handed over if it is free now; otherwise the section is left. */
  predicate GrantStep(f: Fine, f': Fine, t: Tid) {
    && f.section == Dropped(t) && t in f.s.pc
    && if f.s.lock.runcount != 0 then f' == Fine(f.s.(pc := f.s.pc[t := Idle]), Free)
       else
         match HandOff(f.s.lock)
         case Released(l, signalled) => f' == Fine(f.s.(lock := l), Granting(t, signalled))
         case _ => false
  }

  predicate SignalStep(f: Fine, f': Fine, t: Tid) {
    && f.section.Granting? && f.section.t == t && f.section.rest != []
    && f' == Fine(f.s.(pc := Signal(f.s.pc, [f.section.rest[0]])), Granting(t, f.section.rest[1..]))
  }

  predicate LeaveStep(f: Fine, f': Fine, t: Tid) {
    f.section == Granting(t, []) && t in f.s.pc && f' == Fine(f.s.(pc := f.s.pc[t := Idle]), Free)
  }

  /** A woken thread reads the runcount at any time. */
  predicate CheckStep(f: Fine, f': Fine, t: Tid) {
    (ResumeReadStep(f.s, f'.s, t) || ResumeWriteStep(f.s, f'.s, t)) && f'.section == f.section
  }

  predicate EnterStep(f: Fine, f': Fine, t: Tid) {
    && f.section == Free && f'.section == Free
    && (RdLockStep(f.s, f'.s, t) || WrLockStep(f.s, f'.s, t))
  }

  predicate FineStep(f: Fine, f': Fine, t: Tid) {
    || EnterStep(f, f', t) || DropStep(f, f', t) || GrantStep(f, f', t) || SignalStep(f, f', t)
    || LeaveStep(f, f', t) || CheckStep(f, f', t)
  }

  ghost predicate FineNext(f: Fine, f': Fine) { exists t :: FineStep(f, f', t) }

  ghost predicate FineRun(trace: seq<Fine>) {
    && |trace| > 0 && Init(trace[0].s) && trace[0].section == Free
    && forall i :: 0 < i < |trace| ==> FineNext(trace[i - 1], trace[i])
  }

  /** The state with the unlocking under way undone as long as nobody has been granted anything,
      and otherwise completed. */
  function Whole(f: Fine): State {
    match f.section
    case Free => f.s
    case Dropped(t) =>
      var held := t in f.s.pc && f.s.pc[t] == Writing;
      f.s.(lock := f.s.lock.(runcount := if held then -1 else f.s.lock.runcount + 1))
    case Granting(t, rest) => f.s.(pc := Signal(f.s.pc[t := Idle], rest))
  }

  ghost predicate FineInv(f: Fine) {
    && Inv(Whole(f))
    && match f.section
       case Free => true
       case Dropped(t) =>
         && t in f.s.pc && f.s.pc[t] in {Reading, Writing}
         && f.s.lock.runcount >= 0 && (f.s.pc[t] == Writing ==> f.s.lock.runcount == 0)
       case Granting(t, _) => t in f.s.pc && f.s.pc[t] in {Reading, Writing}
  }

  lemma SignalNobody(pc: map<Tid, Pc>)
    ensures Signal(pc, []) == pc
  {}

  lemma SignalFirst(pc: map<Tid, Pc>, t: Tid, rest: seq<Tid>)
    requires t in pc && rest != []
    ensures Signal(Signal(pc, [rest[0]])[t := Idle], rest[1..]) == Signal(pc[t := Idle], rest)
  {
    assert forall u :: u in rest <==> u == rest[0] || u in rest[1..];
  }

  /** A thread that has been granted the lock is not concerned by signals to others. */
  lemma SignalBeside(pc: map<Tid, Pc>, t: Tid, rest: seq<Tid>, u: Tid, p: Pc)
    requires t in pc && u in pc && u != t && pc[u] in {GrantedRead, GrantedWrite} && p in {Reading, Writing, Aborted}
    ensures Signal(pc[t := Idle], rest)[u] == pc[u]
    ensures Signal(pc[u := p][t := Idle], rest) == Signal(pc[t := Idle], rest)[u := p]
  {}

  /** What the holders say about the runcount. */
  lemma HolderCounts(s: State, t: Tid)
    requires Inv(s) && t in s.pc && s.pc[t] in {Reading, Writing}
    ensures s.pc[t] == Writing ==> s.lock.runcount == -1
    ensures s.pc[t] == Reading ==> s.lock.runcount > 0
    ensures forall u :: u in s.pc && u != t && s.pc[u] == GrantedRead ==> s.pc[t] == Reading && s.lock.runcount > 1
    ensures forall u :: u in s.pc && u != t ==> s.pc[u] != GrantedWrite
  {
    var r, w := ReadOwners(s), WriteOwners(s);
    assert t in r || t in w;
    forall u | u in s.pc && u != t && s.pc[u] == GrantedRead
      ensures s.pc[t] == Reading && s.lock.runcount > 1
    {
      assert u in r;
      if s.pc[t] == Reading { SubsetCount({t, u}, r); }
    }
    forall u | u in s.pc && u != t
      ensures s.pc[u] != GrantedWrite
    {
      if s.pc[u] == GrantedWrite {
        assert u in w;
        if t in w { SubsetCount({t, u}, w); }
      }
    }
  }

  /** Stuttering, or a step of the lock whose unlocking is one step. */
  ghost predicate Simulates(f: Fine, f': Fine) { Whole(f') == Whole(f) || Next(Whole(f), Whole(f')) }

  lemma DropSimulates(f: Fine, f': Fine, t: Tid)
    requires FineInv(f) && DropStep(f, f', t)
    ensures FineInv(f') && Simulates(f, f')
  {
    hide Inv;
    HolderCounts(f.s, t);
  }

  lemma GrantSimulates(f: Fine, f': Fine, t: Tid)
    requires FineInv(f) && GrantStep(f, f', t)
    ensures FineInv(f') && Simulates(f, f')
  {
    hide Inv;
    var s, s' := Whole(f), Whole(f');
    HolderCounts(s, t);
    SignalNobody(f.s.pc[t := Idle]);
    assert UnlockStep(s, s', t);
    assert StepOf(s, s', t);
    NextInv(s, s');
  }

  lemma SignalSimulates(f: Fine, f': Fine, t: Tid)
    requires FineInv(f) && (SignalStep(f, f', t) || LeaveStep(f, f', t))
    ensures FineInv(f') && Simulates(f, f')
  {
    hide Inv;
    if SignalStep(f, f', t) {
      SignalFirst(f.s.pc, t, f.section.rest);
    } else {
      SignalNobody(f.s.pc[t := Idle]);
    }
  }

  lemma EnterSimulates(f: Fine, f': Fine, t: Tid)
    requires FineInv(f) && EnterStep(f, f', t)
    ensures FineInv(f') && Simulates(f, f')
  {
    hide Inv;
    assert StepOf(f.s, f'.s, t);
    NextInv(f.s, f'.s);
  }

  /** Whatever an unlocking thread has written so far, the runcount passes the check. */
  lemma CheckSimulates(f: Fine, f': Fine, u: Tid)
    requires FineInv(f) && CheckStep(f, f', u)
    ensures FineInv(f') && Simulates(f, f') && f'.s.pc[u] != Aborted
  {
    hide Inv;
    var s, s' := Whole(f), Whole(f');
    if f.section.Dropped? {
      HolderCounts(s, f.section.t);
    } else if f.section.Granting? {
      SignalBeside(f.s.pc, f.section.t, f.section.rest, u, f'.s.pc[u]);
    }
    assert ResumeReadStep(s, s', u) || ResumeWriteStep(s, s', u);
    assert StepOf(s, s', u);
    ResumeInv(s, s', u);
  }

  lemma StepSimulates(f: Fine, f': Fine, t: Tid)
    requires FineInv(f) && FineStep(f, f', t)
    ensures FineInv(f') && Simulates(f, f')
  {
    hide FineInv, Simulates, EnterStep, DropStep, GrantStep, SignalStep, LeaveStep, CheckStep;
    if EnterStep(f, f', t) {
      EnterSimulates(f, f', t);
    } else if DropStep(f, f', t) {
      DropSimulates(f, f', t);
    } else if GrantStep(f, f', t) {
      GrantSimulates(f, f', t);
    } else if CheckStep(f, f', t) {
      CheckSimulates(f, f', t);
    } else {
      SignalSimulates(f, f', t);
    }
  }

  lemma {:induction false} FineRunInv(trace: seq<Fine>, i: nat)
    requires FineRun(trace) && i < |trace|
    ensures FineInv(trace[i])
  {
    hide FineInv, FineStep;
    if i == 0 {
      StartInv(trace[0]);
    } else {
      FineRunInv(trace, i - 1);
      var t :| FineStep(trace[i - 1], trace[i], t);
      StepSimulates(trace[i - 1], trace[i], t);
    }
  }

  lemma StartInv(f: Fine)
    requires Init(f.s) && f.section == Free
    ensures FineInv(f)
  {
    InitInv(f.s);
  }

  lemma NobodyAborted(f: Fine)
    requires FineInv(f)
    ensures forall t :: t in f.s.pc ==> f.s.pc[t] != Aborted
  {
    var s := Whole(f);
    forall t | t in f.s.pc
      ensures f.s.pc[t] != Aborted
    {
      assert t in s.pc && (t in At(s.pc, {Aborted}) <==> s.pc[t] == Aborted);
    }
  }

  /** In every state of every run in single steps: no thread has aborted; a thread that may look
      at the runcount finds what it needs; and the state, with the unlocking under way undone or
      completed, has the invariant of the lock. */
  lemma {:induction false} EveryFineRun(trace: seq<Fine>, i: nat)
    requires FineRun(trace) && i < |trace|
    ensures var f := trace[i];
      && Inv(Whole(f))
      && (forall t :: t in f.s.pc ==> f.s.pc[t] != Aborted)
      && (forall t :: t in f.s.pc && f.s.pc[t] == GrantedRead ==> f.s.lock.runcount > 0)
      && (forall t :: t in f.s.pc && f.s.pc[t] == GrantedWrite ==> f.s.lock.runcount == -1)
    ensures i > 0 ==> Simulates(trace[i - 1], trace[i])
  {
    hide FineStep, Simulates, CheckStep, Inv;
    FineRunInv(trace, i);
    if i > 0 {
      FineRunInv(trace, i - 1);
      var t :| FineStep(trace[i - 1], trace[i], t);
      StepSimulates(trace[i - 1], trace[i], t);
    }
    var f := trace[i];
    NobodyAborted(f);
    forall t | t in f.s.pc && f.s.pc[t] in {GrantedRead, GrantedWrite}
      ensures if f.s.pc[t] == GrantedRead then f.s.lock.runcount > 0 else f.s.lock.runcount == -1
    {
      MayLook(f, t);
    }
  }

  lemma MayLook(f: Fine, t: Tid)
    requires FineInv(f) && t in f.s.pc && f.s.pc[t] in {GrantedRead, GrantedWrite}
    ensures if f.s.pc[t] == GrantedRead then f.s.lock.runcount > 0 else f.s.lock.runcount == -1
  {
    hide Inv;
    var toRead := f.s.pc[t] == GrantedRead;
    var ok := if toRead then f.s.lock.runcount > 0 else f.s.lock.runcount == -1;
    var p := if !ok then Aborted else if toRead then Reading else Writing;
    var f' := f.(s := f.s.(pc := f.s.pc[t := p]));
    assert CheckStep(f, f', t);
    CheckSimulates(f, f', t);
  }
}
