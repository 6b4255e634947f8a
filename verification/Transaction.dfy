/** Statements, transactions and the connection (requiemdb-sql.c), and the deletion of a
    message under them (delete_message in classic-delete.c). */
module Transaction {
  import opened Options

  /** The statements; Delete(i) is the i-th of the deletion. */
  datatype Stmt = Begin | Commit | Rollback | Delete(i: nat)

  /** What becomes of a statement. When the connection is lost the client does not learn
      whether the statement has been carried out. */
  datatype Outcome = Done | Failed | Lost(carriedOut: bool)

  /** What happens between client and server. */
  datatype Event = Open(ok: bool) | Sent(stmt: Stmt, outcome: Outcome)

  /** The fields of requiemdb_sql_t, with the two status bits apart and the depth to which the
      thread holds the recursive mutex; log is the history of its dealings with the server. */
  class Sql {
    var connected: bool
    var transaction: bool
    var internalTransactionDisabled: bool
    var depth: int
    var log: seq<Event>

    /** Opening a connection assigns the whole status, so that the transaction bit is lost. */
    method Connect() returns (ok: bool)
      modifies this
      ensures log == old(log) + [Open(ok)]
      ensures connected == (ok || old(connected)) && transaction == (!ok && old(transaction))
      ensures depth == old(depth) && internalTransactionDisabled == old(internalTransactionDisabled)
    {
      ok := *;
      log := log + [Open(ok)];
      if ok {
        connected, transaction := true, false;
      }
    }

    /** Send a statement, after connecting if need be; None when there is no connection. */
    method Query(stmt: Stmt) returns (r: Option<Outcome>)
      modifies this
      ensures depth == old(depth) && internalTransactionDisabled == old(internalTransactionDisabled)
      ensures r.None? ==> !old(connected) && !connected && log == old(log) + [Open(false)]
      ensures r.Some? ==> log == old(log) + (if old(connected) then [] else [Open(true)]) + [Sent(stmt, r.value)]
      ensures r.Some? ==> connected == !r.value.Lost?
      ensures transaction == (old(transaction) && (r.None? || old(connected)))
    {
      depth := depth + 1;
      if !connected {
        var ok := Connect();
        if !ok {
          depth := depth - 1;
          return None;
        }
      }
      var outcome: Outcome := *;
      log := log + [Sent(stmt, outcome)];
      if outcome.Lost? {
        connected := false;
      }
      depth := depth - 1;
      return Some(outcome);
    }

    method TransactionStart() returns (ok: bool)
      modifies this
      ensures internalTransactionDisabled == old(internalTransactionDisabled)
      ensures internalTransactionDisabled ==>
        ok && connected == old(connected) && transaction == old(transaction) && depth == old(depth) && log == old(log)
      ensures !internalTransactionDisabled && old(transaction) ==>
        !ok && connected == old(connected) && transaction && depth == old(depth) && log == old(log)
      ensures !internalTransactionDisabled && !old(transaction) ==>
        && depth == old(depth) + (if ok then 1 else 0) && transaction == ok && (ok ==> connected)
        && (ok ==> log == old(log) + Opening(old(connected)) + [Sent(Begin, Done)])
        && (!ok ==> FailedStart(old(log), log, old(connected)))
    {
      if internalTransactionDisabled {
        return true;
      }
      depth := depth + 1;
      if transaction {
        depth := depth - 1;
        return false;
      }
      var r := Query(Begin);
      if r != Some(Done) {
        depth := depth - 1;
        return false;
      }
      transaction := true;
      return true;
    }

    /** COMMIT; an error outside a transaction. Sending it may have to connect again first. */
    method TransactionEnd() returns (ok: bool)
      modifies this
      ensures internalTransactionDisabled == old(internalTransactionDisabled)
      ensures internalTransactionDisabled ==>
        ok && connected == old(connected) && transaction == old(transaction) && depth == old(depth) && log == old(log)
      ensures !internalTransactionDisabled && !old(transaction) ==>
        !ok && connected == old(connected) && !transaction && depth == old(depth) && log == old(log)
      ensures !internalTransactionDisabled && old(transaction) ==>
        && depth == old(depth) - 1 && !transaction
        && exists tail :: CommitTail(tail, old(connected), ok) && log == old(log) + tail
    {
      if internalTransactionDisabled {
        return true;
      }
      if !transaction {
        return false;
      }
      var r := Query(Commit);
      transaction := false;
      depth := depth - 1;
      ok := r == Some(Done);
      ghost var tail := if r.None? then [Open(false)] else Opening(old(connected)) + [Sent(Commit, r.value)];
      assert CommitTail(tail, old(connected), ok);
      assert log == old(log) + tail;
    }

    /** verbose says whether the thread has an error text, which decides whether ROLLBACK is
        tried on a closed connection. */
    method TransactionAbort(verbose: bool) returns (ok: bool)
      modifies this
      ensures internalTransactionDisabled == old(internalTransactionDisabled)
      ensures internalTransactionDisabled ==>
        ok && connected == old(connected) && transaction == old(transaction) && depth == old(depth) && log == old(log)
      ensures !internalTransactionDisabled && !old(transaction) ==>
        !ok && connected == old(connected) && !transaction && depth == old(depth) && log == old(log)
      ensures !internalTransactionDisabled && old(transaction) ==>
        && depth == old(depth) - 1 && !transaction
        && exists tail :: UndoTail(tail, old(connected)) && log == old(log) + tail
      ensures !internalTransactionDisabled && old(transaction) && verbose && !old(connected) ==> !ok && log == old(log)
      ensures !internalTransactionDisabled && old(transaction) ==>
        (ok <==> log == old(log) + (if old(connected) then [] else [Open(true)]) + [Sent(Rollback, Done)])
      ensures !internalTransactionDisabled && old(transaction) && !(verbose && !old(connected)) ==>
        log == old(log) + [Open(false)] || exists o :: log == old(log) + Opening(old(connected)) + [Sent(Rollback, o)]
    {
      if internalTransactionDisabled {
        return true;
      }
      if !transaction {
        return false;
      }
      transaction := false;
      if verbose && !connected {
        depth := depth - 1;
        assert log == old(log) + [];
        return false;
      }
      var r := Query(Rollback);
      ghost var tail := if r.None? then [Open(false)] else Opening(old(connected)) + [Sent(Rollback, r.value)];
      assert UndoTail(tail, old(connected));
      assert log == old(log) + tail;
      depth := depth - 1;
      ok := r == Some(Done);
      if r.Some? {
        assert log == old(log) + Opening(old(connected)) + [Sent(Rollback, r.value)];
        assert log[|log| - 1] == Sent(Rollback, r.value);
      } else {
        assert |log| == |old(log)| + 1 && log[|log| - 1] == Open(false);
      }
    }

    /** The loop over the deletes. It stops at the first one, the i-th, that is not carried
        out; r is what became of that one. */
    method SendDeletes(count: nat) returns (ok: bool, ghost i: nat, ghost r: Option<Outcome>)
      modifies this
      ensures depth == old(depth) && internalTransactionDisabled == old(internalTransactionDisabled)
      ensures transaction == (old(transaction) && (old(connected) || count == 0 || (!ok && r == None)))
      ensures ok ==> log == old(log) + (if count == 0 then [] else Opening(old(connected)) + Deletes(count))
      ensures ok ==> connected == (count > 0 || old(connected))
      ensures !ok && r.None? ==> !old(connected) && !connected && count > 0 && log == old(log) + [Open(false)]
      ensures !ok && r.Some? ==> FailsAt(i, r.value, count) && connected == !r.value.Lost?
      ensures !ok && r.Some? ==> log == old(log) + Opening(old(connected)) + Deletes(i) + [Sent(Delete(i), r.value)]
    {
      ok, r := true, None;
      ghost var start := log;
      assert Deletes(0) == [];
      for n := 0 to count
        invariant depth == old(depth) && internalTransactionDisabled == old(internalTransactionDisabled)
        invariant n == 0 ==> log == start && connected == old(connected) && transaction == old(transaction)
        invariant n > 0 ==> connected && transaction == (old(transaction) && old(connected))
        invariant n > 0 ==> log == start + Opening(old(connected)) + Deletes(n)
      {
        ghost var before := log;
        var outcome := Query(Delete(n));
        i, r := n, outcome;
        if outcome.Some? {
          assert log == start + Opening(old(connected)) + Deletes(n) + [Sent(Delete(n), outcome.value)];
        }
        if outcome != Some(Done) {
          return false, i, r;
        }
        assert Deletes(n) + [Sent(Delete(n), Done)] == Deletes(n + 1);
      }
      return true, count, None;
    }

    /** Delete a message by count statements. */
    method DeleteMessage(count: nat) returns (ok: bool)
      modifies this
      ensures depth == old(depth) && internalTransactionDisabled == old(internalTransactionDisabled)
      ensures !internalTransactionDisabled && old(transaction) ==> !ok && transaction && log == old(log)
      ensures !internalTransactionDisabled && !old(transaction) ==>
        && !transaction
        && exists tail :: DeletionTail(tail, old(connected), count, ok) && log == old(log) + tail
      ensures internalTransactionDisabled ==>
        && transaction == (old(transaction) && (old(connected) || count == 0 || log == old(log) + [Open(false)]))
        && exists tail :: BareTail(tail, old(connected), count, ok) && log == old(log) + tail
    {
      if internalTransactionDisabled {
        ok := DeleteBare(count);
      } else {
        ok := DeleteInTransaction(count);
      }
    }

    /** delete_message inside the caller's transaction, where starting and ending do nothing. */
    method DeleteBare(count: nat) returns (ok: bool)
      requires internalTransactionDisabled
      modifies this
      ensures depth == old(depth) && internalTransactionDisabled
      ensures transaction == (old(transaction) && (old(connected) || count == 0 || log == old(log) + [Open(false)]))
      ensures exists tail :: BareTail(tail, old(connected), count, ok) && log == old(log) + tail
    {
      var started := TransactionStart();
      ghost var i, r;
      ok, i, r := SendDeletes(count);
      ghost var tail :=
        if ok then if count == 0 then [] else Opening(old(connected)) + Deletes(count)
        else if r.None? then [Open(false)]
        else Opening(old(connected)) + Deletes(i) + [Sent(Delete(i), r.value)];
      assert log == old(log) + tail;
      assert BareTail(tail, old(connected), count, ok);
      if !ok && r.Some? { assert tail[|tail| - 1] == Sent(Delete(i), r.value); }
      if !ok {
        var verbose: bool := *;
        var undone := TransactionAbort(verbose);
        return false;
      }
      if count > 0 { assert tail[|tail| - 1] == Sent(Delete(count - 1), Done); }
      ok := TransactionEnd();
    }

    /** delete_message with a transaction of its own. */
    method DeleteInTransaction(count: nat) returns (ok: bool)
      requires !internalTransactionDisabled
      modifies this
      ensures depth == old(depth) && !internalTransactionDisabled
      ensures old(transaction) ==> !ok && transaction && log == old(log)
      ensures !old(transaction) ==>
        && !transaction
        && exists tail :: DeletionTail(tail, old(connected), count, ok) && log == old(log) + tail
    {
      hide Opening, Deletes, DeletionTail, UndoTail, CommitTail, Interrupted, FailsAt, FailedStart;
      var started := TransactionStart();
      if !started {
        if !old(transaction) { NotStarted(old(log), old(connected), count, log); }
        return false;
      }
      ghost var i, r;
      ok, i, r := SendDeletes(count);
      ghost var before := log;
      if !ok {
        var verbose: bool := *;
        var undone := TransactionAbort(verbose);
        ghost var undo :| UndoTail(undo, !r.value.Lost?) && log == before + undo;
        RolledBack(old(log), old(connected), count, i, r.value, undo, log);
        return false;
      }
      ok := TransactionEnd();
      ghost var ending :| CommitTail(ending, true, ok) && log == before + ending;
      ghost var o := Committed(ending, ok);
      Ended(old(log), old(connected), count, o, log);
    }
  }

  lemma NotStarted(start: seq<Event>, connected: bool, count: nat, log: seq<Event>)
    requires FailedStart(start, log, connected)
    ensures exists tail :: DeletionTail(tail, connected, count, false) && log == start + tail
  {
    var tail := log[|start|..];
    assert FailedStart([], tail, connected);
    assert DeletionTail(tail, connected, count, false);
  }

  lemma IsInterrupted(i: nat, o: Outcome, undo: seq<Event>, count: nat)
    requires FailsAt(i, o, count) && UndoTail(undo, !o.Lost?)
    ensures Interrupted(i, o, undo, count)
  {}

  lemma OpeningNothing()
    ensures Opening(true) == []
  {}

  lemma Reassociated(a: seq<Event>, b: seq<Event>, c: seq<Event>, d: seq<Event>, e: seq<Event>)
    ensures a + b + c + d + e == a + (b + c + d + e)
  {}

  lemma RolledBack(start: seq<Event>, connected: bool, count: nat, i: nat, o: Outcome, undo: seq<Event>, log: seq<Event>)
    requires FailsAt(i, o, count) && UndoTail(undo, !o.Lost?)
    requires log == start + Opening(connected) + [Sent(Begin, Done)] + Opening(true) + Deletes(i) + [Sent(Delete(i), o)] + undo
    ensures exists tail :: DeletionTail(tail, connected, count, false) && log == start + tail
  {
    hide Deletes, UndoTail, Opening, Interrupted;
    IsInterrupted(i, o, undo, count);
    OpeningNothing();
    var tail := Opening(connected) + [Sent(Begin, Done)] + Deletes(i) + [Sent(Delete(i), o)] + undo;
    assert DeletionTail(tail, connected, count, false);
    Reassociated(start, Opening(connected), [Sent(Begin, Done)], Deletes(i), [Sent(Delete(i), o)] + undo);
    assert tail == Opening(connected) + [Sent(Begin, Done)] + Deletes(i) + ([Sent(Delete(i), o)] + undo);
    assert log == start + Opening(connected) + [Sent(Begin, Done)] + Deletes(i) + ([Sent(Delete(i), o)] + undo);
  }

  lemma Ended(start: seq<Event>, connected: bool, count: nat, o: Outcome, log: seq<Event>)
    requires log == start + Opening(connected) + [Sent(Begin, Done)]
      + (if count == 0 then [] else Opening(true) + Deletes(count)) + [Sent(Commit, o)]
    ensures exists tail :: DeletionTail(tail, connected, count, o == Done) && log == start + tail
  {
    assert Deletes(0) == [];
    hide Deletes, UndoTail, Interrupted;
    var tail := Opening(connected) + [Sent(Begin, Done)] + Deletes(count) + [Sent(Commit, o)];
    assert DeletionTail(tail, connected, count, o == Done);
    assert log == start + tail;
  }

  function Opening(connected: bool): seq<Event> { if connected then [] else [Open(true)] }

  /** The first n deletes, all carried out. */
  function Deletes(n: nat): seq<Event> { seq(n, i requires 0 <= i => Sent(Delete(i), Done)) }

  ghost predicate FailedStart(before: seq<Event>, after: seq<Event>, connected: bool) {
    || (!connected && after == before + [Open(false)])
    || exists o :: o != Done && after == before + Opening(connected) + [Sent(Begin, o)]
  }

  /** COMMIT, perhaps after connecting again; nothing but the attempt to if that fails. */
  ghost predicate CommitTail(tail: seq<Event>, connected: bool, ok: bool) {
    || (!ok && !connected && tail == [Open(false)])
    || exists o :: ok == (o == Done) && tail == Opening(connected) + [Sent(Commit, o)]
  }

  lemma Committed(tail: seq<Event>, ok: bool) returns (o: Outcome)
    requires CommitTail(tail, true, ok)
    ensures ok == (o == Done) && tail == [Sent(Commit, o)]
  {
    o :| ok == (o == Done) && tail == Opening(true) + [Sent(Commit, o)];
  }

  /** What follows a failed delete: nothing on a closed connection, or an attempt to roll back,
      which may have to connect again. */
  ghost predicate UndoTail(tail: seq<Event>, connected: bool) {
    || (!connected && (tail == [] || tail == [Open(false)]))
    || exists o :: tail == Opening(connected) + [Sent(Rollback, o)]
  }

  /** A deletion in a transaction of its own: BEGIN, a prefix of the deletes, then COMMIT when
      all of them succeeded, and otherwise an attempt to roll back. */
  ghost predicate DeletionTail(tail: seq<Event>, connected: bool, count: nat, ok: bool) {
    || (!ok && FailedStart([], tail, connected))
    || (exists o ::
          && ok == (o == Done)
          && tail == Opening(connected) + [Sent(Begin, Done)] + Deletes(count) + [Sent(Commit, o)])
    || (!ok && (exists i, o, undo ::
                  && Interrupted(i, o, undo, count)
                  && tail == Opening(connected) + [Sent(Begin, Done)] + Deletes(i) + [Sent(Delete(i), o)] + undo))
  }

  /** The i-th delete does not succeed, and undo follows. */
  ghost predicate Interrupted(i: nat, o: Outcome, undo: seq<Event>, count: nat) {
    i < count && o != Done && UndoTail(undo, !o.Lost?)
  }

  /** A deletion inside the caller's transaction: only deletes, until one does not succeed. */
  ghost predicate BareTail(tail: seq<Event>, connected: bool, count: nat, ok: bool) {
    || (ok && tail == if count == 0 then [] else Opening(connected) + Deletes(count))
    || (!ok && !connected && count > 0 && tail == [Open(false)])
    || (!ok && exists i, o :: FailsAt(i, o, count) && tail == Opening(connected) + Deletes(i) + [Sent(Delete(i), o)])
  }

  ghost predicate FailsAt(i: nat, o: Outcome, count: nat) { i < count && o != Done }

  // What the server makes of it.

  /** The deletes that are permanent, and those of the open transaction if there is one. */
  datatype Server = Server(committed: seq<nat>, pending: Option<seq<nat>>)

  function Execute(s: Server, stmt: Stmt): Server {
    match stmt
    case Begin => s.(pending := Some([]))
    case Commit => if s.pending.Some? then Server(s.committed + s.pending.value, None) else s
    case Rollback => s.(pending := None)
    case Delete(i) =>
      if s.pending.Some? then s.(pending := Some(s.pending.value + [i])) else s.(committed := s.committed + [i])
  }

  /** A transaction does not outlive its connection. */
  function Serve(s: Server, e: Event): Server {
    match e
    case Open(_) => s.(pending := None)
    case Sent(stmt, Done) => Execute(s, stmt)
    case Sent(stmt, Failed) => s
    case Sent(stmt, Lost(carriedOut)) => (if carriedOut then Execute(s, stmt) else s).(pending := None)
  }

  function Replay(s: Server, log: seq<Event>): Server {
    if log == [] then s else Serve(Replay(s, log[..|log| - 1]), log[|log| - 1])
  }

  lemma {:induction false} ReplayThen(s: Server, a: seq<Event>, b: seq<Event>)
    ensures Replay(s, a + b) == Replay(Replay(s, a), b)
  {
    if b == [] {
      assert a + b == a;
    } else {
      var m := |b| - 1;
      assert (a + b)[..|a| + m] == a + b[..m];
      ReplayThen(s, a, b[..m]);
    }
  }

  lemma ReplayNothing(s: Server)
    ensures Replay(s, []) == s
  {}

  lemma ReplayOne(s: Server, e: Event)
    ensures Replay(s, [e]) == Serve(s, e)
  {
    assert [e][..0] == [];
  }

  /** An event on a connection that is open, or else opened first. */
  lemma ReplayOpened(s: Server, connected: bool, e: Event)
    ensures Replay(s, Opening(connected) + [e]) == Serve(if connected then s else s.(pending := None), e)
  {
    var s0 := if connected then s else s.(pending := None);
    ReplayThen(s, Opening(connected), [e]);
    ReplayOne(s, Open(true));
    ReplayOne(s0, e);
  }

  function UpTo(n: nat): seq<nat> { seq(n, i => i) }

  lemma {:induction false} ReplayDeletes(s: Server, n: nat)
    requires s.pending.Some?
    ensures Replay(s, Deletes(n)) == s.(pending := Some(s.pending.value + UpTo(n)))
  {
    if n == 0 {
      assert UpTo(0) == [];
      assert s.pending.value + [] == s.pending.value;
    } else {
      assert Deletes(n)[..n - 1] == Deletes(n - 1);
      ReplayDeletes(s, n - 1);
      assert s.pending.value + UpTo(n - 1) + [n - 1] == s.pending.value + UpTo(n);
    }
  }

  lemma ReplayUndo(s: Server, undo: seq<Event>, connected: bool)
    requires UndoTail(undo, connected)
    ensures Replay(s, undo).committed == s.committed
  {
    hide Replay, Opening;
    if undo == [] {
      ReplayNothing(s);
    } else if undo == [Open(false)] {
      ReplayOne(s, Open(false));
    } else {
      var o :| undo == Opening(connected) + [Sent(Rollback, o)];
      ReplayOpened(s, connected, Sent(Rollback, o));
    }
  }

  lemma ReplayBegin(s: Server, connected: bool)
    requires s.pending == None
    ensures Replay(s, Opening(connected) + [Sent(Begin, Done)]) == Server(s.committed, Some([]))
  {
    ReplayOpened(s, connected, Sent(Begin, Done));
  }

  /** Deleting a message in a transaction of its own is atomic: whatever becomes of each
      statement, all of the deletes become permanent or none of them does, and all of them do
      when success is reported. */
  lemma DeletionAtomic(s: Server, tail: seq<Event>, connected: bool, count: nat, ok: bool)
    requires s.pending == None && DeletionTail(tail, connected, count, ok)
    ensures var s' := Replay(s, tail);
      && (s'.committed == s.committed || s'.committed == s.committed + UpTo(count))
      && (ok ==> s' == Server(s.committed + UpTo(count), None))
  {
    if FailedStart([], tail, connected) && !ok {
      StartFails(s, tail, connected);
    } else if o :| ok == (o == Done) && tail == Opening(connected) + [Sent(Begin, Done)] + Deletes(count) + [Sent(Commit, o)] {
      var begun := Opening(connected) + [Sent(Begin, Done)];
      ReplayBegin(s, connected);
      ReplayThen(s, begun, Deletes(count));
      ReplayDeletes(Server(s.committed, Some([])), count);
      assert [] + UpTo(count) == UpTo(count);
      ReplayThen(s, begun + Deletes(count), [Sent(Commit, o)]);
      ReplayOne(Server(s.committed, Some(UpTo(count))), Sent(Commit, o));
    } else {
      var i, o, undo :| Interrupted(i, o, undo, count)
        && tail == Opening(connected) + [Sent(Begin, Done)] + Deletes(i) + [Sent(Delete(i), o)] + undo;
      DeleteFails(s, connected, i, o, undo);
    }
  }

  lemma StartFails(s: Server, tail: seq<Event>, connected: bool)
    requires s.pending == None && FailedStart([], tail, connected)
    ensures Replay(s, tail).committed == s.committed
  {
    hide Replay, Opening;
    if tail == [Open(false)] {
      ReplayOne(s, Open(false));
    } else {
      var o :| o != Done && tail == [] + Opening(connected) + [Sent(Begin, o)];
      assert tail == Opening(connected) + [Sent(Begin, o)];
      ReplayOpened(s, connected, Sent(Begin, o));
    }
  }

  lemma DeleteFails(s: Server, connected: bool, i: nat, o: Outcome, undo: seq<Event>)
    requires s.pending == None && o != Done && UndoTail(undo, !o.Lost?)
    ensures Replay(s, Opening(connected) + [Sent(Begin, Done)] + Deletes(i) + [Sent(Delete(i), o)] + undo).committed
      == s.committed
  {
    var begun := Opening(connected) + [Sent(Begin, Done)];
    ReplayBegin(s, connected);
    ReplayThen(s, begun, Deletes(i));
    ReplayDeletes(Server(s.committed, Some([])), i);
    ReplayThen(s, begun + Deletes(i), [Sent(Delete(i), o)]);
    var open := Replay(s, begun + Deletes(i));
    ReplayOne(open, Sent(Delete(i), o));
    ReplayThen(s, begun + Deletes(i) + [Sent(Delete(i), o)], undo);
    ReplayUndo(Serve(open, Sent(Delete(i), o)), undo, !o.Lost?);
  }

  // The deletion inside the caller's transaction.

  /** How many deletes the server has carried out. */
  function CarriedOut(tail: seq<Event>): nat {
    if tail == [] then 0
    else
      var e := tail[|tail| - 1];
      CarriedOut(tail[..|tail| - 1])
      + if e.Sent? && e.stmt.Delete? && (e.outcome == Done || e.outcome == Lost(true)) then 1 else 0
  }

  lemma CarriedMore(done: seq<Event>, e: Event)
    ensures CarriedOut(done + [e]) == CarriedOut(done) +
      if e.Sent? && e.stmt.Delete? && (e.outcome == Done || e.outcome == Lost(true)) then 1 else 0
  {
    assert (done + [e])[..|done|] == done;
  }

  lemma {:induction false} CarriedDeletes(n: nat)
    ensures CarriedOut(Deletes(n)) == n && CarriedOut([Open(true)] + Deletes(n)) == n
  {
    if n == 0 {
      assert [Open(true)] + Deletes(0) == [Open(true)];
      assert [Open(true)][..0] == [];
    } else {
      CarriedDeletes(n - 1);
      assert Deletes(n)[..n - 1] == Deletes(n - 1);
      assert ([Open(true)] + Deletes(n))[..n] == [Open(true)] + Deletes(n - 1);
    }
  }

  /** Without a transaction each delete is permanent at once. */
  lemma {:induction false} ReplayDeletesAlone(s: Server, n: nat)
    requires s.pending == None
    ensures Replay(s, Deletes(n)) == s.(committed := s.committed + UpTo(n))
  {
    if n == 0 {
      assert UpTo(0) == [];
      assert s.committed + [] == s.committed;
    } else {
      assert Deletes(n)[..n - 1] == Deletes(n - 1);
      ReplayDeletesAlone(s, n - 1);
      assert s.committed + UpTo(n - 1) + [n - 1] == s.committed + UpTo(n);
    }
  }

  /** Opening a connection anew, if need be, and then n deletes that are carried out. */
  lemma ReplayBare(s: Server, connected: bool, n: nat)
    requires connected ==> s.pending.Some?
    ensures var s', tail := Replay(s, Opening(connected) + Deletes(n)), Opening(connected) + Deletes(n);
      && CarriedOut(tail) == n
      && s' == if connected then s.(pending := Some(s.pending.value + UpTo(n))) else Server(s.committed + UpTo(n), None)
  {
    ReplayThen(s, Opening(connected), Deletes(n));
    ReplayOne(s, Open(true));
    CarriedDeletes(n);
    if connected {
      ReplayDeletes(s, n);
      assert [] + Deletes(n) == Deletes(n);
    } else {
      ReplayDeletesAlone(Server(s.committed, None), n);
    }
  }

  /** The i-th delete does not succeed. */
  lemma ReplayBareFailure(s: Server, connected: bool, i: nat, o: Outcome)
    requires (connected ==> s.pending.Some?) && o != Done
    ensures var tail := Opening(connected) + Deletes(i) + [Sent(Delete(i), o)];
      && Replay(s, tail).committed == (if connected then s.committed else s.committed + UpTo(CarriedOut(tail)))
      && CarriedOut(tail) == i + (if o == Lost(true) then 1 else 0)
  {
    hide Replay, Deletes, Opening, CarriedOut;
    var done, e := Opening(connected) + Deletes(i), Sent(Delete(i), o);
    ReplayBare(s, connected, i);
    ReplayThen(s, done, [e]);
    ReplayOne(Replay(s, done), e);
    CarriedMore(done, e);
    assert s.committed + UpTo(i) + [i] == s.committed + UpTo(i + 1);
  }

  /** Deleting inside the caller's transaction: as long as the connection is the one on which
      the transaction was begun, nothing becomes permanent. On a new one there is no transaction,
      so that every delete carried out is permanent at once, whatever the caller does later. */
  lemma BareDeletion(s: Server, tail: seq<Event>, connected: bool, count: nat, ok: bool)
    requires (connected ==> s.pending.Some?) && BareTail(tail, connected, count, ok)
    ensures var s' := Replay(s, tail);
      && (connected && ok ==> s' == s.(pending := Some(s.pending.value + UpTo(count))))
      && (!connected && ok && count > 0 ==> s' == Server(s.committed + UpTo(count), None))
      && s'.committed == (if connected then s.committed else s.committed + UpTo(CarriedOut(tail)))
      && (s'.committed == s.committed <==> connected || CarriedOut(tail) == 0)
  {
    hide Replay, Deletes, Opening;
    if ok && count == 0 {
      BareNothing(s, connected);
    } else if ok {
      ReplayBare(s, connected, count);
      hide CarriedOut;
    } else if !connected && tail == [Open(false)] {
      BareNothing(s, connected);
    } else {
      var i, o :| FailsAt(i, o, count) && tail == Opening(connected) + Deletes(i) + [Sent(Delete(i), o)];
      ReplayBareFailure(s, connected, i, o);
    }
  }

  lemma BareNothing(s: Server, connected: bool)
    ensures Replay(s, []) == s && Replay(s, [Open(false)]) == s.(pending := None)
    ensures CarriedOut([]) == 0 && CarriedOut([Open(false)]) == 0 && UpTo(0) == [] && s.committed + [] == s.committed
    ensures s.pending.Some? ==> s.pending.value + [] == s.pending.value
  {
    ReplayOne(s, Open(false));
    assert [Open(false)][..0] == [];
  }
}
