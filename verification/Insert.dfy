/** Storing messages (classic-insert.c). Each method adds to the database the rows of one
    part of the tree, and never one whose primary key is taken. */
module Insert {
  import opened Options
  import opened Idmef
  import opened Storage

  /** The loop over a list of simple elements, and the copy of the last one. */
  method InsertList(db: Database, own: Key, xs: seq<Payload>, copy: bool)
    requires forall k :: ListRow(own, xs, |xs|, copy, k).Some? ==> Row(db.rows, k).None?
    modifies db
    ensures forall k :: Row(db.rows, k) == Over(ListRow(own, xs, |xs|, copy, k), Row(old(db.rows), k))
  {
    var index := 0;
    var last := None;
    while index < |xs|
      invariant index <= |xs| && last == (if index == 0 then None else Some(xs[index - 1]))
      invariant forall k :: Row(db.rows, k) == Over(ListRow(own, xs, index, false, k), Row(old(db.rows), k))
    {
      assert ListRow(own, xs, |xs|, copy, own.(i := index)).Some?;
      assert Row(db.rows, own.(i := index)).None?;
      db.Add(own.(i := index), xs[index]);
      last := Some(xs[index]);
      index := index + 1;
    }
    if last.Some? && copy {
      assert ListRow(own, xs, |xs|, copy, own.(i := -1)).Some?;
      assert Row(db.rows, own.(i := -1)).None?;
      db.Add(own.(i := -1), last.value);
    }
  }

  method InsertNode(db: Database, own: Key, node: Option<Node>)
    requires forall k :: NodeRow(own, node, k).Some? ==> Row(db.rows, k).None?
    modifies db
    ensures forall k :: Row(db.rows, k) == Over(NodeRow(own, node, k), Row(old(db.rows), k))
  {
    if node == None {
      return;
    }
    var n := node.value;
    var own1, own2 := own.(table := Table.Node), own.(table := Table.Address);
    assert NodeRow(own, node, own1).Some?;
    db.Add(own1, n.row);
    forall k | ListRow(own2, n.addresses, |n.addresses|, true, k).Some? ensures Row(db.rows, k).None? {
      assert NodeRow(own, node, k).Some?;
    }
    InsertList(db, own2, n.addresses, true);
  }

  method InsertUser(db: Database, own: Key, user: Option<User>)
    requires forall k :: UserRow(own, user, k).Some? ==> Row(db.rows, k).None?
    modifies db
    ensures forall k :: Row(db.rows, k) == Over(UserRow(own, user, k), Row(old(db.rows), k))
  {
    if user == None {
      return;
    }
    var u := user.value;
    assert UserRow(own, user, own.(table := Table.User)).Some?;
    db.Add(own.(table := Table.User), u.row);
    InsertList(db, own.(table := Table.UserId), u.userIds, true);
  }

  method InsertProcess(db: Database, own: Key, process: Option<Process>)
    requires forall k :: ProcessRow(own, process, k).Some? ==> Row(db.rows, k).None?
    modifies db
    ensures forall k :: Row(db.rows, k) == Over(ProcessRow(own, process, k), Row(old(db.rows), k))
  {
    if process == None {
      return;
    }
    var p := process.value;
    assert ProcessRow(own, process, own.(table := Table.Process)).Some?;
    db.Add(own.(table := Table.Process), p.row);
    InsertList(db, own.(table := Table.ProcessArg), p.args, false);
    InsertList(db, own.(table := Table.ProcessEnv), p.env, false);
  }

  method InsertServiceKind(db: Database, own: Key, kind: ServiceKind)
    requires forall k :: ServiceKindRow(own, kind, k).Some? ==> Row(db.rows, k).None?
    modifies db
    ensures forall k :: Row(db.rows, k) == Over(ServiceKindRow(own, kind, k), Row(old(db.rows), k))
  {
    match kind
    case PlainService =>
    case WebService(row, args) =>
      assert ServiceKindRow(own, kind, own.(table := Table.WebService)).Some?;
      db.Add(own.(table := Table.WebService), row);
      InsertList(db, own.(table := Table.WebServiceArg), args, true);
    case SnmpService(row) =>
      assert ServiceKindRow(own, kind, own.(table := Table.SnmpService)).Some?;
      db.Add(own.(table := Table.SnmpService), row);
  }

  method InsertService(db: Database, own: Key, service: Option<Service>)
    requires forall k :: ServiceRow(own, service, k).Some? ==> Row(db.rows, k).None?
    modifies db
    ensures forall k :: Row(db.rows, k) == Over(ServiceRow(own, service, k), Row(old(db.rows), k))
  {
    hide ServiceKindRow;
    if service == None {
      return;
    }
    var s := service.value;
    assert ServiceRow(own, service, own.(table := Table.Service)).Some?;
    db.Add(own.(table := Table.Service), s.row);
    InsertServiceKind(db, own, s.kind);
  }

  method InsertParts(db: Database, own: Key, parts: Parts)
    requires forall k :: PartsRow(own, parts, k).Some? ==> Row(db.rows, k).None?
    modifies db
    ensures forall k :: Row(db.rows, k) == Over(PartsRow(own, parts, k), Row(old(db.rows), k))
  {
    hide NodeRow, UserRow, ProcessRow, ServiceRow;
    InsertNode(db, own, parts.node);
    InsertUser(db, own, parts.user);
    InsertProcess(db, own, parts.process);
    InsertService(db, own, parts.service);
  }

  method InsertSource(db: Database, ident: nat, i: int, s: Source)
    requires forall k :: SourceRow(ident, i, s, k).Some? ==> Row(db.rows, k).None?
    modifies db
    ensures forall k :: Row(db.rows, k) == Over(SourceRow(ident, i, s, k), Row(old(db.rows), k))
  {
    hide PartsRow;
    var own := Key(Table.Source, NoParent, ident, 0, 0, 0, i);
    assert SourceRow(ident, i, s, own).Some?;
    db.Add(own, s.row);
    InsertParts(db, Key(Table.Source, S, ident, i, 0, 0, 0), s.parts);
  }

  method InsertAccess(db: Database, ident: nat, i: int, f: int, x: int, access: FileAccess)
    requires forall k :: AccessRow(ident, i, f, x, access, k).Some? ==> Row(db.rows, k).None?
    modifies db
    ensures forall k :: Row(db.rows, k) == Over(AccessRow(ident, i, f, x, access, k), Row(old(db.rows), k))
  {
    var own := Key(Table.FileAccess, NoParent, ident, i, f, 0, x);
    assert AccessRow(ident, i, f, x, access, own).Some?;
    db.Add(own, []);
    InsertList(db, Key(Table.Permission, NoParent, ident, i, f, x, 0), access.permissions, true);
    var user := Key(Table.UserId, F, ident, i, f, x, 0);
    assert AccessRow(ident, i, f, x, access, user).Some?;
    db.Add(user, access.userId);
  }

  /** All accesses in order, and the last one again under -1. */
  method InsertAccesses(db: Database, ident: nat, i: int, f: int, accesses: seq<FileAccess>)
    requires forall k :: AccessesRow(ident, i, f, accesses, |accesses|, true, k).Some? ==> Row(db.rows, k).None?
    modifies db
    ensures forall k :: Row(db.rows, k) == Over(AccessesRow(ident, i, f, accesses, |accesses|, true, k), Row(old(db.rows), k))
  {
    hide AccessRow;
    var index := 0;
    var last := None;
    while index < |accesses|
      invariant index <= |accesses| && last == (if index == 0 then None else Some(accesses[index - 1]))
      invariant forall k :: Row(db.rows, k) == Over(AccessesRow(ident, i, f, accesses, index, false, k), Row(old(db.rows), k))
    {
      InsertAccess(db, ident, i, f, index, accesses[index]);
      last := Some(accesses[index]);
      index := index + 1;
    }
    if last.Some? {
      InsertAccess(db, ident, i, f, -1, last.value);
    }
  }

  method InsertDetails(db: Database, own: Key, file: File)
    requires forall k :: DetailRow(own, file, k).Some? ==> Row(db.rows, k).None?
    modifies db
    ensures forall k :: Row(db.rows, k) == Over(DetailRow(own, file, k), Row(old(db.rows), k))
  {
    InsertList(db, own.(table := Table.Linkage), file.linkages, true);
    if file.inode.Some? {
      assert DetailRow(own, file, own.(table := Table.Inode)).Some?;
      db.Add(own.(table := Table.Inode), file.inode.value);
    }
    InsertList(db, own.(table := Table.Checksum), file.checksums, true);
  }

  method InsertFile(db: Database, ident: nat, i: int, f: int, file: File)
    requires forall k :: FileRow(ident, i, f, file, k).Some? ==> Row(db.rows, k).None?
    modifies db
    ensures forall k :: Row(db.rows, k) == Over(FileRow(ident, i, f, file, k), Row(old(db.rows), k))
  {
    hide AccessesRow;
    var own := Key(Table.File, NoParent, ident, i, 0, 0, f);
    assert FileRow(ident, i, f, file, own).Some?;
    db.Add(own, file.row);
    InsertAccesses(db, ident, i, f, file.accesses);
    InsertDetails(db, Key(Table.File, NoParent, ident, i, f, 0, 0), file);
  }

  method InsertFiles(db: Database, ident: nat, i: int, files: seq<File>)
    requires forall k :: FilesRow(ident, i, files, |files|, true, k).Some? ==> Row(db.rows, k).None?
    modifies db
    ensures forall k :: Row(db.rows, k) == Over(FilesRow(ident, i, files, |files|, true, k), Row(old(db.rows), k))
  {
    hide FileRow;
    var index := 0;
    var last := None;
    while index < |files|
      invariant index <= |files| && last == (if index == 0 then None else Some(files[index - 1]))
      invariant forall k :: Row(db.rows, k) == Over(FilesRow(ident, i, files, index, false, k), Row(old(db.rows), k))
    {
      InsertFile(db, ident, i, index, files[index]);
      last := Some(files[index]);
      index := index + 1;
    }
    if last.Some? {
      InsertFile(db, ident, i, -1, last.value);
    }
  }

  method InsertTarget(db: Database, ident: nat, i: int, t: Target)
    requires forall k :: TargetRow(ident, i, t, k).Some? ==> Row(db.rows, k).None?
    modifies db
    ensures forall k :: Row(db.rows, k) == Over(TargetRow(ident, i, t, k), Row(old(db.rows), k))
  {
    hide FilesRow, PartsRow;
    var own := Key(Table.Target, NoParent, ident, 0, 0, 0, i);
    assert TargetRow(ident, i, t, own).Some?;
    db.Add(own, t.row);
    InsertParts(db, Key(Table.Target, T, ident, i, 0, 0, 0), t.parts);
    InsertFiles(db, ident, i, t.files);
  }

  method InsertAnalyzer(db: Database, parent: Parent, ident: nat, i: int, a: Analyzer)
    requires forall k :: AnalyzerRow(parent, ident, i, a, k).Some? ==> Row(db.rows, k).None?
    modifies db
    ensures forall k :: Row(db.rows, k) == Over(AnalyzerRow(parent, ident, i, a, k), Row(old(db.rows), k))
  {
    hide NodeRow, ProcessRow;
    var own := Key(Table.Analyzer, parent, ident, 0, 0, 0, i);
    assert AnalyzerRow(parent, ident, i, a, own).Some?;
    db.Add(own, a.row);
    InsertNode(db, Key(Table.Analyzer, parent, ident, i, 0, 0, 0), a.node);
    InsertProcess(db, Key(Table.Analyzer, parent, ident, i, 0, 0, 0), a.process);
  }

  method InsertAnalyzers(db: Database, parent: Parent, ident: nat, analyzers: seq<Analyzer>)
    requires forall k :: AnalyzersRow(parent, ident, analyzers, |analyzers|, true, k).Some? ==> Row(db.rows, k).None?
    modifies db
    ensures forall k ::
      Row(db.rows, k) == Over(AnalyzersRow(parent, ident, analyzers, |analyzers|, true, k), Row(old(db.rows), k))
  {
    hide AnalyzerRow;
    var index := 0;
    var last := None;
    while index < |analyzers|
      invariant index <= |analyzers| && last == (if index == 0 then None else Some(analyzers[index - 1]))
      invariant forall k :: Row(db.rows, k) == Over(AnalyzersRow(parent, ident, analyzers, index, false, k), Row(old(db.rows), k))
    {
      InsertAnalyzer(db, parent, ident, index, analyzers[index]);
      last := Some(analyzers[index]);
      index := index + 1;
    }
    if last.Some? {
      InsertAnalyzer(db, parent, ident, -1, last.value);
    }
  }

  method InsertSources(db: Database, ident: nat, sources: seq<Source>)
    requires forall k :: SourcesRow(ident, sources, |sources|, true, k).Some? ==> Row(db.rows, k).None?
    modifies db
    ensures forall k :: Row(db.rows, k) == Over(SourcesRow(ident, sources, |sources|, true, k), Row(old(db.rows), k))
  {
    hide SourceRow;
    var index := 0;
    var last := None;
    while index < |sources|
      invariant index <= |sources| && last == (if index == 0 then None else Some(sources[index - 1]))
      invariant forall k :: Row(db.rows, k) == Over(SourcesRow(ident, sources, index, false, k), Row(old(db.rows), k))
    {
      InsertSource(db, ident, index, sources[index]);
      last := Some(sources[index]);
      index := index + 1;
    }
    if last.Some? {
      InsertSource(db, ident, -1, last.value);
    }
  }

  method InsertTargets(db: Database, ident: nat, targets: seq<Target>)
    requires forall k :: TargetsRow(ident, targets, |targets|, true, k).Some? ==> Row(db.rows, k).None?
    modifies db
    ensures forall k :: Row(db.rows, k) == Over(TargetsRow(ident, targets, |targets|, true, k), Row(old(db.rows), k))
  {
    hide TargetRow;
    var index := 0;
    var last := None;
    while index < |targets|
      invariant index <= |targets| && last == (if index == 0 then None else Some(targets[index - 1]))
      invariant forall k :: Row(db.rows, k) == Over(TargetsRow(ident, targets, index, false, k), Row(old(db.rows), k))
    {
      InsertTarget(db, ident, index, targets[index]);
      last := Some(targets[index]);
      index := index + 1;
    }
    if last.Some? {
      InsertTarget(db, ident, -1, last.value);
    }
  }

  method InsertOnce(db: Database, table: Table, parent: Parent, ident: nat, row: Option<Payload>)
    requires forall k :: OnceRow(table, parent, ident, row, k).Some? ==> Row(db.rows, k).None?
    modifies db
    ensures forall k :: Row(db.rows, k) == Over(OnceRow(table, parent, ident, row, k), Row(old(db.rows), k))
  {
    if row.Some? {
      assert OnceRow(table, parent, ident, row, Key(table, parent, ident, 0, 0, 0, 0)).Some?;
      db.Add(Key(table, parent, ident, 0, 0, 0, 0), row.value);
    }
  }

  method InsertAssessment(db: Database, ident: nat, assessment: Option<Assessment>)
    requires forall k :: AssessmentRow(ident, assessment, k).Some? ==> Row(db.rows, k).None?
    modifies db
    ensures forall k :: Row(db.rows, k) == Over(AssessmentRow(ident, assessment, k), Row(old(db.rows), k))
  {
    if assessment == None {
      return;
    }
    var a := assessment.value;
    InsertOnce(db, Table.Assessment, NoParent, ident, Some([]));
    InsertOnce(db, Table.Impact, NoParent, ident, a.impact);
    InsertOnce(db, Table.Confidence, NoParent, ident, a.confidence);
    InsertList(db, Key(Table.Action, NoParent, ident, 0, 0, 0, 0), a.actions, true);
  }

  method InsertKind(db: Database, ident: nat, kind: AlertKind)
    requires forall k :: KindRow(ident, kind, k).Some? ==> Row(db.rows, k).None?
    modifies db
    ensures forall k :: Row(db.rows, k) == Over(KindRow(ident, kind, k), Row(old(db.rows), k))
  {
    match kind
    case DefaultAlert =>
    case ToolAlert(row, idents) =>
      InsertOnce(db, Table.ToolAlert, NoParent, ident, Some(row));
      InsertList(db, Key(Table.Alertident, T, ident, 0, 0, 0, 0), idents, false);
    case OverflowAlert(row) =>
      InsertOnce(db, Table.OverflowAlert, NoParent, ident, Some(row));
    case CorrelationAlert(row, idents) =>
      InsertOnce(db, Table.CorrelationAlert, NoParent, ident, Some(row));
      InsertList(db, Key(Table.Alertident, C, ident, 0, 0, 0, 0), idents, true);
  }

  method InsertClassification(db: Database, ident: nat, classification: Option<Classification>)
    requires forall k :: ClassificationRow(ident, classification, k).Some? ==> Row(db.rows, k).None?
    modifies db
    ensures forall k :: Row(db.rows, k) == Over(ClassificationRow(ident, classification, k), Row(old(db.rows), k))
  {
    if classification == None {
      return;
    }
    var c := classification.value;
    InsertOnce(db, Table.Classification, NoParent, ident, Some(c.row));
    InsertList(db, Key(Table.Reference, NoParent, ident, 0, 0, 0, 0), c.references, true);
  }

  method InsertHead(db: Database, ident: nat, a: Alert)
    requires forall k :: HeadRow(ident, a, k).Some? ==> Row(db.rows, k).None?
    modifies db
    ensures forall k :: Row(db.rows, k) == Over(HeadRow(ident, a, k), Row(old(db.rows), k))
  {
    hide OnceRow, AssessmentRow, KindRow;
    InsertOnce(db, Table.Alert, NoParent, ident, Some(a.row));
    InsertOnce(db, Table.CreateTime, A, ident, Some(a.createTime));
    InsertOnce(db, Table.DetectTime, NoParent, ident, a.detectTime);
    InsertOnce(db, Table.AnalyzerTime, A, ident, a.analyzerTime);
    InsertAssessment(db, ident, a.assessment);
    InsertKind(db, ident, a.kind);
  }

  method InsertAlert(db: Database, ident: nat, a: Alert)
    requires FreeForAlert(db.rows, ident)
    modifies db
    ensures forall k :: Row(db.rows, k) == Over(AlertRow(ident, a, k), Row(old(db.rows), k))
    ensures HoldsAlert(db.rows, ident, a)
  {
    hide HeadRow, AnalyzersRow, SourcesRow, TargetsRow, ClassificationRow, ListRow;
    InsertHead(db, ident, a);
    InsertAnalyzers(db, A, ident, a.analyzers);
    InsertSources(db, ident, a.sources);
    InsertTargets(db, ident, a.targets);
    InsertClassification(db, ident, a.classification);
    InsertList(db, Key(Table.AdditionalData, A, ident, 0, 0, 0, 0), a.additionalData, true);
  }

  method InsertHeartbeat(db: Database, ident: nat, h: Heartbeat)
    requires FreeForHeartbeat(db.rows, ident)
    modifies db
    ensures forall k :: Row(db.rows, k) == Over(HeartbeatRow(ident, h, k), Row(old(db.rows), k))
    ensures HoldsHeartbeat(db.rows, ident, h)
  {
    hide OnceRow, AnalyzersRow, ListRow;
    InsertOnce(db, Table.Heartbeat, NoParent, ident, Some(h.row));
    InsertAnalyzers(db, H, ident, h.analyzers);
    InsertOnce(db, Table.CreateTime, H, ident, Some(h.createTime));
    InsertOnce(db, Table.AnalyzerTime, H, ident, h.analyzerTime);
    InsertList(db, Key(Table.AdditionalData, H, ident, 0, 0, 0, 0), h.additionalData, true);
  }
}
