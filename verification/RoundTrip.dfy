/** Storing a message and reading it back, in a database with any other messages. */
module RoundTrip {
  import opened Options
  import opened Idmef
  import opened Storage
  import opened Insert
  import opened Get
  import opened Delete

  method StoreAndReadAlert(db: Database, ident: nat, a: Alert) returns (r: Option<Alert>)
    requires FreeForAlert(db.rows, ident)
    modifies db
    ensures r == Some(ReadAlert(a))
    ensures |a.analyzers| <= 128 && |a.sources| <= 128 && |a.targets| <= 128 ==> r == Some(a)
  {
    hide AlertRow, ReadAlert;
    InsertAlert(db, ident, a);
    r := GetAlert(db, ident, a);
    ReadsTheSame(a);
  }

  method StoreAndReadHeartbeat(db: Database, ident: nat, h: Heartbeat) returns (r: Option<Heartbeat>)
    requires FreeForHeartbeat(db.rows, ident)
    modifies db
    ensures r == Some(ReadHeartbeat(h))
    ensures |h.analyzers| <= 128 ==> r == Some(h)
  {
    hide HeartbeatRow;
    InsertHeartbeat(db, ident, h);
    r := GetHeartbeat(db, ident, h);
    ReadsSameAnalyzers(h.analyzers);
    hide ArgsAt;
    if |h.analyzers| <= 128 { assert ArgsKept(AnalyzerProcesses(h.analyzers)) by { FewKept(AnalyzerProcesses(h.analyzers)); } }
  }

  lemma FewKept(processes: seq<Option<Process>>)
    requires |processes| <= 128
    ensures ArgsKept(processes)
  {}

  /** An alert stays readable while other messages come and go: a second alert and a heartbeat
      are stored, the heartbeat under the same ident, and others are deleted. */
  method ReadAmongOthers(db: Database, ident: nat, a: Alert, other: nat, b: Alert, h: Heartbeat,
                       gone: set<nat>, goneBeats: set<nat>)
    returns (r: Option<Alert>)
    requires AllShaped(db.rows) && ident != other && ident !in gone
    requires FreeForAlert(db.rows, ident) && FreeForAlert(db.rows, other) && FreeForHeartbeat(db.rows, ident)
    modifies db
    ensures r == Some(ReadAlert(a))
  {
    hide AlertRow, HeartbeatRow, ReadAlert, ALERTQUERIES, HEARTBEATQUERIES;
    ghost var start := db.rows;
    InsertAlert(db, ident, a);
    AlertKeepsShape(start, db.rows, ident, a);
    ghost var one := db.rows;
    assert FreeForAlert(one, other) && FreeForHeartbeat(one, ident) by { StillFree(start, one, ident, a, other); }
    InsertAlert(db, other, b);
    ghost var two := db.rows;
    AlertKeepsShape(one, two, other, b);
    assert HoldsAlert(two, ident, a);
    assert FreeForHeartbeat(two, ident) by { StillFree(one, two, other, b, ident); }
    InsertHeartbeat(db, ident, h);
    ghost var three := db.rows;
    HeartbeatKeepsShape(two, three, ident, h);
    assert HoldsAlert(three, ident, a);
    DeleteAlerts(db, gone);
    ghost var four := db.rows;
    OthersSurvive(three, four, gone, ident, a, h);
    DeletionKeepsShape(three, four);
    DeleteHeartbeats(db, goneBeats);
    forall k: Key
      ensures !OfHeartbeat(k) ==> Row(db.rows, k) == Row(four, k)
    {
      DeleteHeartbeatsIsolated(four, db.rows, goneBeats, k);
    }
    assert HoldsAlert(db.rows, ident, a);
    r := GetAlert(db, ident, a);
  }

  lemma AlertKeepsShape(rows: Rows, with: Rows, ident: nat, a: Alert)
    requires AllShaped(rows) && forall k :: Row(with, k) == Over(AlertRow(ident, a, k), Row(rows, k))
    ensures AllShaped(with)
  {
    hide AlertRow;
    forall k | k in with
      ensures Shaped(k)
    {
      AlertRowShaped(ident, a, k);
      assert Row(with, k).Some?;
      assert Row(rows, k).Some? ==> k in rows;
    }
  }

  lemma DeletionKeepsShape(rows: Rows, without: Rows)
    requires AllShaped(rows) && forall k :: Row(without, k) == None || Row(without, k) == Row(rows, k)
    ensures AllShaped(without)
  {
    forall k | k in without
      ensures k in rows
    {
      assert Row(without, k).Some?;
    }
  }

  lemma HeartbeatKeepsShape(rows: Rows, with: Rows, ident: nat, h: Heartbeat)
    requires AllShaped(rows) && forall k :: Row(with, k) == Over(HeartbeatRow(ident, h, k), Row(rows, k))
    ensures AllShaped(with)
  {
    hide HeartbeatRow;
    forall k | k in with
      ensures Shaped(k)
    {
      HeartbeatRowShaped(ident, h, k);
      assert Row(with, k).Some?;
      assert Row(rows, k).Some? ==> k in rows;
    }
  }

  /** Storing an alert takes no other ident, and none of the heartbeats' idents. */
  lemma StillFree(rows: Rows, with: Rows, ident: nat, a: Alert, other: nat)
    requires forall k :: Row(with, k) == Over(AlertRow(ident, a, k), Row(rows, k))
    ensures other != ident && FreeForAlert(rows, other) ==> FreeForAlert(with, other)
    ensures FreeForHeartbeat(rows, other) ==> FreeForHeartbeat(with, other)
    ensures FreeForHeartbeat(rows, ident) ==> FreeForHeartbeat(with, ident)
  {
    hide AlertRow;
    forall k | k in with
      ensures k in rows || (k.ident == ident && !OfHeartbeat(k))
    {
      assert Row(with, k).Some?;
      assert Row(rows, k).Some? ==> k in rows;
    }
  }
}
