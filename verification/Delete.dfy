/** Erasing messages (classic-delete.c). */
module Delete {
  import opened Options
  import opened Idmef
  import opened Storage
  import Insert

  /** The condition on _parent_type in a DELETE. */
  datatype Cond = Any | IsA | NotH | IsH

  predicate Meets(c: Cond, p: Parent) {
    match c case Any => true case IsA => p == A case NotH => p != H case IsH => p == H
  }

  datatype Query = Query(table: Table, cond: Cond)

  predicate Matches(q: Query, idents: set<nat>, k: Key) {
    k.table == q.table && k.ident in idents && Meets(q.cond, k.parent)
  }

  /** The queries in the order of the code, in two halves. */
  const ALERTQUERIES := ALERTQUERIES0 + ALERTQUERIES1

  const ALERTQUERIES0 := [
    Query(Action, Any), Query(AdditionalData, IsA), Query(Address, NotH), Query(Table.Alert, Any),
    Query(Alertident, Any), Query(Table.Analyzer, IsA), Query(AnalyzerTime, IsA), Query(Table.Assessment, Any),
    Query(Table.Classification, Any), Query(Reference, Any), Query(Confidence, Any),
    Query(Table.CorrelationAlert, Any), Query(CreateTime, IsA), Query(DetectTime, Any), Query(Table.File, Any),
    Query(Table.FileAccess, Any), Query(Permission, Any), Query(Impact, Any)]

  const ALERTQUERIES1 := [
    Query(Inode, Any), Query(Checksum, Any), Query(Linkage, Any), Query(Table.Node, NotH),
    Query(Table.OverflowAlert, Any), Query(Table.Process, NotH), Query(ProcessArg, NotH), Query(ProcessEnv, NotH),
    Query(Table.SnmpService, Any), Query(Table.Service, Any), Query(Table.Source, Any), Query(Table.Target, Any),
    Query(Table.ToolAlert, Any), Query(Table.User, Any), Query(UserId, Any), Query(Table.WebService, Any),
    Query(WebServiceArg, Any)]

  const HEARTBEATQUERIES := [
    Query(AdditionalData, IsH), Query(Address, IsH), Query(Table.Analyzer, IsH), Query(AnalyzerTime, IsH),
    Query(CreateTime, IsH), Query(Table.Node, IsH), Query(Table.Process, IsH), Query(ProcessArg, IsH),
    Query(ProcessEnv, IsH), Query(Table.Heartbeat, Any)]

  /** Whether one of the queries removes the row with key k. */
  predicate Removed(queries: seq<Query>, idents: set<nat>, k: Key) {
    exists q :: q in queries && Matches(q, idents, k)
  }

  /** The statements of a deletion, all of them successful. */
  method DeleteAll(db: Database, queries: seq<Query>, idents: set<nat>)
    modifies db
    ensures forall k :: Row(db.rows, k) == if Removed(queries, idents, k) then None else Row(old(db.rows), k)
  {
    for i := 0 to |queries|
      invariant forall k :: Row(db.rows, k) == if Removed(queries[..i], idents, k) then None else Row(old(db.rows), k)
    {
      ghost var before := db.rows;
      var q := queries[i];
      db.rows := map k | k in db.rows && !Matches(q, idents, k) :: db.rows[k];
      forall k
        ensures Row(db.rows, k) == if Removed(queries[..i + 1], idents, k) then None else Row(old(db.rows), k)
      {
        assert queries[..i + 1] == queries[..i] + [q];
        assert Row(db.rows, k) == if Matches(q, idents, k) then None else Row(before, k);
      }
    }
    assert queries[..|queries|] == queries;
  }

  method DeleteAlerts(db: Database, idents: set<nat>)
    modifies db
    ensures forall k :: Row(db.rows, k) == if Removed(ALERTQUERIES, idents, k) then None else Row(old(db.rows), k)
  {
    DeleteAll(db, ALERTQUERIES, idents);
  }

  method DeleteHeartbeats(db: Database, idents: set<nat>)
    modifies db
    ensures forall k :: Row(db.rows, k) == if Removed(HEARTBEATQUERIES, idents, k) then None else Row(old(db.rows), k)
  {
    DeleteAll(db, HEARTBEATQUERIES, idents);
  }

  /** The condition that the deletion of alerts uses for a table. */
  function CondOf(t: Table): Cond {
    if t == AdditionalData || t == Table.Analyzer || t == AnalyzerTime || t == CreateTime then IsA
    else if t == Address || t == Table.Node || t == Table.Process || t == ProcessArg || t == ProcessEnv then NotH
    else Any
  }

  /** The tables of the first half. */
  predicate InFirstHalf(t: Table) {
    match t
    case Action | AdditionalData | Address | Alert | Alertident | Analyzer | AnalyzerTime | Assessment | Classification => true
    case Reference | Confidence | CorrelationAlert | CreateTime | DetectTime | File | FileAccess | Permission | Impact => true
    case _ => false
  }

  lemma FirstHalf(t: Table)
    requires InFirstHalf(t)
    ensures Query(t, CondOf(t)) in ALERTQUERIES0
  {
    var i :=
      if t == Table.Action then 0 else if t == Table.AdditionalData then 1 else if t == Table.Address then 2
      else if t == Table.Alert then 3 else if t == Table.Alertident then 4 else if t == Table.Analyzer then 5
      else if t == Table.AnalyzerTime then 6 else if t == Table.Assessment then 7
      else if t == Table.Classification then 8 else if t == Table.Reference then 9
      else if t == Table.Confidence then 10 else if t == Table.CorrelationAlert then 11
      else if t == Table.CreateTime then 12 else if t == Table.DetectTime then 13
      else if t == Table.File then 14 else if t == Table.FileAccess then 15
      else if t == Table.Permission then 16 else 17;
    assert ALERTQUERIES0[i] == Query(t, CondOf(t));
  }

  lemma SecondHalf(t: Table)
    requires !InFirstHalf(t) && t != Table.Heartbeat
    ensures Query(t, CondOf(t)) in ALERTQUERIES1
  {
    var i :=
      if t == Table.Inode then 0 else if t == Table.Checksum then 1 else if t == Table.Linkage then 2
      else if t == Table.Node then 3 else if t == Table.OverflowAlert then 4 else if t == Table.Process then 5
      else if t == Table.ProcessArg then 6 else if t == Table.ProcessEnv then 7
      else if t == Table.SnmpService then 8 else if t == Table.Service then 9 else if t == Table.Source then 10
      else if t == Table.Target then 11 else if t == Table.ToolAlert then 12 else if t == Table.User then 13
      else if t == Table.UserId then 14 else if t == Table.WebService then 15 else 16;
    assert ALERTQUERIES1[i] == Query(t, CondOf(t));
  }

  lemma FirstConds(q: Query)
    requires q in ALERTQUERIES0
    ensures q.table != Table.Heartbeat && q.cond == CondOf(q.table)
  {}

  lemma SecondConds(q: Query)
    requires q in ALERTQUERIES1
    ensures q.table != Table.Heartbeat && q.cond == CondOf(q.table)
  {}

  lemma HeartbeatConds(q: Query)
    requires q in HEARTBEATQUERIES
    ensures q.cond == if q.table == Table.Heartbeat then Any else IsH
  {}

  /** Between them the queries name every table of an alert, with the parent types that
      alerts use there. */
  lemma AlertQueriesExact(idents: set<nat>, k: Key)
    requires Shaped(k)
    ensures Removed(ALERTQUERIES, idents, k) <==> k.ident in idents && !OfHeartbeat(k)
  {
    hide ALERTQUERIES0, ALERTQUERIES1;
    if Removed(ALERTQUERIES, idents, k) {
      var q :| q in ALERTQUERIES && Matches(q, idents, k);
      if q in ALERTQUERIES0 { FirstConds(q); } else { SecondConds(q); }
    }
    if k.ident in idents && !OfHeartbeat(k) {
      if InFirstHalf(k.table) { FirstHalf(k.table); } else { SecondHalf(k.table); }
      assert Matches(Query(k.table, CondOf(k.table)), idents, k);
    }
  }

  lemma HeartbeatQueriesExact(idents: set<nat>, k: Key)
    requires Shaped(k)
    ensures Removed(HEARTBEATQUERIES, idents, k) <==> k.ident in idents && OfHeartbeat(k)
  {
    if Removed(HEARTBEATQUERIES, idents, k) {
      var q :| q in HEARTBEATQUERIES && Matches(q, idents, k);
      HeartbeatConds(q);
    }
    if k.ident in idents && OfHeartbeat(k) {
      var q := Query(k.table, if k.table == Table.Heartbeat then Any else IsH);
      EveryHeartbeatTable(k);
      assert Matches(q, idents, k);
    }
  }

  lemma EveryHeartbeatTable(k: Key)
    requires Shaped(k) && OfHeartbeat(k)
    ensures Query(k.table, if k.table == Table.Heartbeat then Any else IsH) in HEARTBEATQUERIES
  {
    var t := k.table;
    var q := Query(t, if t == Table.Heartbeat then Any else IsH);
    var i :=
      if t == AdditionalData then 0 else if t == Address then 1 else if t == Table.Analyzer then 2
      else if t == AnalyzerTime then 3 else if t == CreateTime then 4 else if t == Table.Node then 5
      else if t == Table.Process then 6 else if t == ProcessArg then 7 else if t == ProcessEnv then 8 else 9;
    assert HEARTBEATQUERIES[i] == q;
  }

  ghost predicate AllShaped(rows: Rows) {
    forall k :: k in rows ==> Shaped(k)
  }

  lemma AlertRowShaped(ident: nat, a: Alert, k: Key)
    ensures AlertRow(ident, a, k).Some? ==> Shaped(k)
  {
    if k.table == Table.Target || OfFile(k) || (OfPart(k) && k.parent == T) {
      TargetRowShaped(ident, a.targets, k);
    } else if k.table == Table.Source || (OfPart(k) && k.parent == S) {
    } else if k.table == Table.Analyzer || OfPart(k) {
    }
  }

  lemma TargetRowShaped(ident: nat, xs: seq<Target>, k: Key)
    ensures TargetsRow(ident, xs, |xs|, true, k).Some? ==> Shaped(k)
  {}

  lemma HeartbeatRowShaped(ident: nat, h: Heartbeat, k: Key)
    ensures HeartbeatRow(ident, h, k).Some? ==> Shaped(k)
  {}

  /** Storing an alert under a fresh ident and then deleting it restores the database. */
  lemma DeleteUndoesInsert(rows: Rows, with: Rows, without: Rows, ident: nat, a: Alert)
    requires AllShaped(rows) && FreeForAlert(rows, ident)
    requires forall k :: Row(with, k) == Over(AlertRow(ident, a, k), Row(rows, k))
    requires forall k :: Row(without, k) == if Removed(ALERTQUERIES, {ident}, k) then None else Row(with, k)
    ensures without == rows && AllShaped(with)
  {
    hide AlertRow, ALERTQUERIES;
    forall k
      ensures Row(without, k) == Row(rows, k) && (Row(with, k).Some? ==> Shaped(k))
    {
      AlertRowShaped(ident, a, k);
      if Shaped(k) { AlertQueriesExact({ident}, k); }
    }
    assert forall k :: k in without <==> Row(without, k).Some?;
    assert forall k :: k in rows <==> Row(rows, k).Some?;
  }

  lemma DeleteUndoesInsertOfHeartbeat(rows: Rows, with: Rows, without: Rows, ident: nat, h: Heartbeat)
    requires AllShaped(rows) && FreeForHeartbeat(rows, ident)
    requires forall k :: Row(with, k) == Over(HeartbeatRow(ident, h, k), Row(rows, k))
    requires forall k :: Row(without, k) == if Removed(HEARTBEATQUERIES, {ident}, k) then None else Row(with, k)
    ensures without == rows && AllShaped(with)
  {
    hide HeartbeatRow, HEARTBEATQUERIES;
    forall k
      ensures Row(without, k) == Row(rows, k) && (Row(with, k).Some? ==> Shaped(k))
    {
      HeartbeatRowShaped(ident, h, k);
      if Shaped(k) { HeartbeatQueriesExact({ident}, k); }
    }
    assert forall k :: k in without <==> Row(without, k).Some?;
    assert forall k :: k in rows <==> Row(rows, k).Some?;
  }

  /** Deleting alerts changes no other alert and no heartbeat, whatever its ident. */
  lemma DeleteAlertsIsolated(rows: Rows, without: Rows, idents: set<nat>, k: Key)
    requires AllShaped(rows)
    requires Row(without, k) == if Removed(ALERTQUERIES, idents, k) then None else Row(rows, k)
    ensures Row(without, k) == if k.ident in idents && !OfHeartbeat(k) then None else Row(rows, k)
  {
    if Shaped(k) { AlertQueriesExact(idents, k); }
  }

  lemma DeleteHeartbeatsIsolated(rows: Rows, without: Rows, idents: set<nat>, k: Key)
    requires AllShaped(rows)
    requires Row(without, k) == if Removed(HEARTBEATQUERIES, idents, k) then None else Row(rows, k)
    ensures Row(without, k) == if k.ident in idents && OfHeartbeat(k) then None else Row(rows, k)
  {
    if Shaped(k) { HeartbeatQueriesExact(idents, k); }
  }

  /** What is stored of other messages is still stored after alerts have been deleted. */
  lemma OthersSurvive(rows: Rows, without: Rows, idents: set<nat>, ident: nat, a: Alert, h: Heartbeat)
    requires AllShaped(rows)
    requires forall k :: Row(without, k) == if Removed(ALERTQUERIES, idents, k) then None else Row(rows, k)
    ensures ident !in idents && HoldsAlert(rows, ident, a) ==> HoldsAlert(without, ident, a)
    ensures HoldsHeartbeat(rows, ident, h) ==> HoldsHeartbeat(without, ident, h)
    ensures ident in idents ==> FreeForAlert(without, ident)
  {
    hide AlertRow, HeartbeatRow, ALERTQUERIES, AllShaped;
    forall k
      ensures Row(without, k) == if k.ident in idents && !OfHeartbeat(k) then None else Row(rows, k)
    {
      DeleteAlertsIsolated(rows, without, idents, k);
    }
    assert forall k :: k in without <==> Row(without, k).Some?;
  }

  /** The life of an alert: stored, then deleted, in a database with any other rows. */
  method InsertThenDelete(db: Database, ident: nat, a: Alert)
    requires AllShaped(db.rows) && FreeForAlert(db.rows, ident)
    modifies db
    ensures db.rows == old(db.rows)
  {
    hide AlertRow, ALERTQUERIES;
    Insert.InsertAlert(db, ident, a);
    ghost var with := db.rows;
    DeleteAlerts(db, {ident});
    DeleteUndoesInsert(old(db.rows), with, db.rows, ident, a);
  }
}
