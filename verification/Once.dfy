/** One-time execution on top of interlocked counters and a lock that is itself created
    by the first caller (glthread_once_func in glthread/lock.c). Each read or write of a
    shared field is one atomic step. */
module Once {
  import opened Options
  import opened Threads

  /** Where a thread is in a call; the places of the winner come in program order. */
  datatype Pc =
    | Idle
    | Incrementing                    // has seen inited <= 0
    | Creating | Entering | Marking | Calling | Running | Finishing | Leaving   // the winner
    | Undoing | Spinning | Checking | Blocking | Passing | Verifying            // a loser
    | Returned | Aborted

  /** Which thread has won the race to initialise, if any. */
  datatype Phase = Nobody | Working(t: Tid) | Over

  /** The fields of gl_once_t. The lock field is split into whether it has been created and
      who is inside. The last three record the history: who won, how often the init
      function has been called and how often it has returned. */
  datatype State = State(
    started: int, inited: int, created: bool, inside: Option<Tid>,
    pc: map<Tid, Pc>,
    phase: Phase, calls: nat, finished: nat)

  predicate Init(s: State) {
    && s.started == -1 && s.inited == -1 && !s.created && s.inside == None
    && s.phase == Nobody && s.calls == 0 && s.finished == 0
    && forall t :: t in s.pc ==> s.pc[t] == Idle
  }

  function Goto(s: State, t: Tid, p: Pc): State { s.(pc := s.pc[t := p]) }

  /** What thread t does next; no value when it has to wait for the lock. */
  function Act(s: State, t: Tid): Option<State>
    requires t in s.pc
  {
    match s.pc[t]
    case Idle => Some(Goto(s, t, if s.inited <= 0 then Incrementing else Returned))
    case Incrementing =>
      var n := s.started + 1;
      if n == 0 then Some(Goto(s, t, Creating).(started := n, phase := Working(t)))
      else Some(Goto(s, t, Undoing).(started := n))
    case Creating => Some(Goto(s, t, Entering).(created := true))
    case Entering => if s.inside == None then Some(Goto(s, t, Marking).(inside := Some(t))) else None
    case Marking => Some(Goto(s, t, Calling).(inited := 0))
    case Calling => Some(Goto(s, t, Running).(calls := s.calls + 1))
    case Running => Some(Goto(s, t, Finishing).(finished := s.finished + 1))
    case Finishing => Some(Goto(s, t, Leaving).(inited := 1))
    case Leaving => Some(Goto(s, t, Returned).(inside := None, phase := Over))
    case Undoing => Some(Goto(s, t, Spinning).(started := s.started - 1))
    case Spinning => Some(if s.inited < 0 then s else Goto(s, t, Checking))
    case Checking => Some(Goto(s, t, if s.inited <= 0 then Blocking else Returned))
    case Blocking => if s.inside == None then Some(Goto(s, t, Passing).(inside := Some(t))) else None
    case Passing => Some(Goto(s, t, Verifying).(inside := None))
    case Verifying => Some(Goto(s, t, if s.inited > 0 then Returned else Aborted))
    case Returned => Some(Goto(s, t, Idle))
    case Aborted => None
  }

  ghost predicate Next(s: State, s': State) {
    exists t :: t in s.pc && Act(s, t) == Some(s')
  }

  ghost predicate Run(trace: seq<State>) {
    && |trace| > 0 && Init(trace[0])
    && forall i :: 0 < i < |trace| ==> Next(trace[i - 1], trace[i])
  }

  /** Whether p is a place of the winner. */
  predicate OfWinner(p: Pc) {
    p.Creating? || p.Entering? || p.Marking? || p.Calling? || p.Running? || p.Finishing? || p.Leaving?
  }

  predicate Holds(p: Pc) {
    p.Marking? || p.Calling? || p.Running? || p.Finishing? || p.Leaving? || p.Passing?
  }

  /** The threads that have raised started without winning and will lower it again. */
  function Losers(s: State): set<Tid> { At(s.pc, {Undoing}) }

  /** How far the initialisation is: its fields and history as the winner's place has them. */
  ghost predicate Progress(s: State) {
    match s.phase
    case Nobody => s.inited == -1 && !s.created && s.calls == 0 && s.finished == 0 && Losers(s) == {}
    case Over => s.inited == 1 && s.created && s.calls == 1 && s.finished == 1
    case Working(t) =>
      t in s.pc &&
      var p := s.pc[t];
      && s.inited == (if p.Creating? || p.Entering? || p.Marking? then -1 else if p.Leaving? then 1 else 0)
      && s.created == !p.Creating?
      && s.calls == (if p.Running? || p.Finishing? || p.Leaving? then 1 else 0)
      && s.finished == (if p.Finishing? || p.Leaving? then 1 else 0)
  }

  /** What thread t may rely on at its place. */
  ghost predicate Sound(s: State, t: Tid)
    requires t in s.pc
  {
    var p := s.pc[t];
    && (OfWinner(p) <==> s.phase == Working(t))
    && (Holds(p) <==> s.inside == Some(t))
    && (p.Undoing? || p.Spinning? ==> s.phase != Nobody)
    && (p.Checking? || p.Blocking? ==> s.inited >= 0)
    && (p.Passing? || p.Verifying? || p.Returned? ==> s.inited == 1)
    && !p.Aborted?
  }

  ghost predicate Inv(s: State) {
    && s.started == |Losers(s)| - (if s.phase == Nobody then 1 else 0)
    && Progress(s)
    && (s.inside.Some? ==> s.inside.value in s.pc)
    && forall t :: t in s.pc ==> Sound(s, t)
  }

  lemma OnlyOneMoves(s: State, t: Tid, s': State)
    requires t in s.pc && Act(s, t) == Some(s')
    ensures t in s'.pc && s'.pc == s.pc[t := s'.pc[t]]
  {}

  /** The started counter changes with the set of losers. */
  lemma LosersAfter(s: State, t: Tid, s': State)
    requires t in s.pc && Act(s, t) == Some(s')
    ensures t in s'.pc
    ensures |Losers(s')| == |Losers(s)| + (if s'.pc[t].Undoing? then 1 else 0) - (if s.pc[t].Undoing? then 1 else 0)
    ensures s.phase == Nobody && Losers(s) == {} && !s'.pc[t].Undoing? ==> Losers(s') == {}
  {
    hide Act;
    OnlyOneMoves(s, t, s');
    CountUpdate(s.pc, t, s'.pc[t], {Undoing});
    AtUpdate(s.pc, t, s'.pc[t], {Undoing});
  }

  /** The step of thread t keeps what holds of the shared fields. */
  lemma ProgressAfter(s: State, t: Tid, s': State)
    requires Inv(s) && t in s.pc && Act(s, t) == Some(s')
    ensures Progress(s') && s'.started == |Losers(s')| - (if s'.phase == Nobody then 1 else 0)
    ensures s.inited <= s'.inited
    ensures s'.inside == s.inside || s'.inside == None || (s.inside == None && s'.inside == Some(t))
    ensures s'.phase == s.phase || (s.phase == Nobody && s'.phase == Working(t)) || (s.phase == Working(t) && s'.phase == Over)
  {
    hide Losers;
    assert Sound(s, t);
    LosersAfter(s, t, s');
    OnlyOneMoves(s, t, s');
    if s.phase == Nobody { assert |Losers(s)| == 0; }
  }

  lemma SoundAfter(s: State, t: Tid, s': State)
    requires Inv(s) && t in s.pc && Act(s, t) == Some(s')
    ensures t in s'.pc && Sound(s', t)
  {
    hide Losers;
    assert Sound(s, t);
  }

  lemma SoundForOthers(s: State, t: Tid, s': State, u: Tid)
    requires Inv(s) && t in s.pc && Act(s, t) == Some(s') && u in s'.pc && u != t
    ensures Sound(s', u)
  {
    assert Sound(s, t);
    OnlyOneMoves(s, t, s');
    ProgressAfter(s, t, s');
    assert s'.inside == None ==> s.inside == None || s.inside == Some(t) by { hide Losers; }
    assert u in s.pc && s'.pc[u] == s.pc[u] && Sound(s, u);
    hide Act, Losers, Progress, Inv;
  }

  /** Every step keeps the invariant. */
  lemma NextInv(s: State, s': State)
    requires Inv(s) && Next(s, s')
    ensures Inv(s')
  {
    var t :| t in s.pc && Act(s, t) == Some(s');
    hide Act, Losers, Progress, Sound;
    OnlyOneMoves(s, t, s');
    ProgressAfter(s, t, s');
    forall u | u in s'.pc
      ensures Sound(s', u)
    {
      if u == t { SoundAfter(s, t, s'); } else { SoundForOthers(s, t, s', u); }
    }
  }

  lemma {:induction false} RunInv(trace: seq<State>, i: nat)
    requires Run(trace) && i < |trace|
    ensures Inv(trace[i])
  {
    if i == 0 {
      assert Losers(trace[0]) == {};
    } else {
      RunInv(trace, i - 1);
      NextInv(trace[i - 1], trace[i]);
    }
  }

  /** In every state of every run the init function has been called at most once, a caller
      that has returned finds it finished, the lock exists before anyone enters it, and the
      final check never fails. */
  lemma {:induction false} EveryRun(trace: seq<State>, i: nat)
    requires Run(trace) && i < |trace|
    ensures var s := trace[i];
      && s.finished <= s.calls <= 1
      && (forall t :: t in s.pc && s.pc[t] == Returned ==> s.finished == 1)
      && (forall t :: t in s.pc && s.pc[t] in {Entering, Blocking, Passing} ==> s.created)
      && (forall t :: t in s.pc ==> s.pc[t] != Aborted)
  {
    RunInv(trace, i);
    var s := trace[i];
    forall t | t in s.pc
      ensures s.pc[t] == Returned ==> s.finished == 1
      ensures s.pc[t] in {Entering, Blocking, Passing} ==> s.created
      ensures s.pc[t] != Aborted
    {
      assert Sound(s, t);
    }
  }

  /** No deadlock: while a call is under way, some caller can take a step that is not
      another turn of the waiting loop. */
  lemma {:induction false} NoDeadlock(trace: seq<State>, i: nat)
    requires Run(trace) && i < |trace|
    requires exists t :: t in trace[i].pc && trace[i].pc[t] !in {Idle, Returned}
    ensures var s := trace[i];
      exists t :: t in s.pc && s.pc[t] !in {Idle, Returned} && Act(s, t).Some? && Act(s, t) != Some(s)
  {
    RunInv(trace, i);
    var s := trace[i];
    var t :| t in s.pc && s.pc[t] !in {Idle, Returned};
    assert Sound(s, t);
    var u := if s.phase.Working? then s.phase.t
             else if s.inside.Some? then s.inside.value
             else t;
    assert Sound(s, u);
    if s.inside.Some? { assert Sound(s, s.inside.value); }
    assert Act(s, u).Some?;
    assert Act(s, u).value.pc[u] != s.pc[u];
  }
}
