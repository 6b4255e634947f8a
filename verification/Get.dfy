/** Reading messages back (classic-get.c). Each method is specified by what it returns when
    the database holds a certain part of a tree; that part is the ghost parameter. */
module Get {
  import opened Options
  import opened Idmef
  import opened Storage

  // What it means that the database holds a part of a tree at its place.

  ghost predicate HoldsList(rows: Rows, own: Key, xs: seq<Payload>, copy: bool) {
    forall k: Key :: k == own.(i := k.i) ==> Row(rows, k) == ListRow(own, xs, |xs|, copy, k)
  }

  ghost predicate HoldsNode(rows: Rows, own: Key, node: Option<Node>) {
    forall k: Key :: k == own.(table := k.table, i := k.i) && (k.table == Table.Node || k.table == Table.Address)
      ==> Row(rows, k) == NodeRow(own, node, k)
  }

  ghost predicate HoldsUser(rows: Rows, own: Key, user: Option<User>) {
    forall k: Key :: k == own.(table := k.table, i := k.i) && (k.table == Table.User || k.table == Table.UserId)
      ==> Row(rows, k) == UserRow(own, user, k)
  }

  ghost predicate HoldsProcess(rows: Rows, own: Key, process: Option<Process>) {
    forall k: Key :: k == own.(table := k.table, i := k.i)
      && (k.table == Table.Process || k.table == Table.ProcessArg || k.table == Table.ProcessEnv)
      ==> Row(rows, k) == ProcessRow(own, process, k)
  }

  ghost predicate HoldsService(rows: Rows, own: Key, service: Option<Service>) {
    forall k: Key :: k == own.(table := k.table, i := k.i)
      && (k.table == Table.Service || k.table == Table.WebService || k.table == Table.WebServiceArg
          || k.table == Table.SnmpService)
      ==> Row(rows, k) == ServiceRow(own, service, k)
  }

  ghost predicate HoldsServiceKind(rows: Rows, own: Key, kind: ServiceKind) {
    forall k: Key :: k == own.(table := k.table, i := k.i)
      && (k.table == Table.WebService || k.table == Table.WebServiceArg || k.table == Table.SnmpService)
      ==> Row(rows, k) == ServiceKindRow(own, kind, k)
  }

  ghost predicate HoldsParts(rows: Rows, own: Key, parts: Parts) {
    forall k: Key :: k == own.(table := k.table, i := k.i) && OfPart(k) ==> Row(rows, k) == PartsRow(own, parts, k)
  }

  ghost predicate HoldsSources(rows: Rows, ident: nat, xs: seq<Source>) {
    forall k: Key :: k.ident == ident && !OfHeartbeat(k) && (k.table == Table.Source || (OfPart(k) && k.parent == S))
      ==> Row(rows, k) == SourcesRow(ident, xs, |xs|, true, k)
  }

  ghost predicate HoldsAccesses(rows: Rows, ident: nat, i: int, f: int, xs: seq<FileAccess>) {
    forall k: Key :: k.ident == ident && !OfHeartbeat(k) && k.p0 == i && k.p1 == f
      && (k.table == Table.FileAccess || (k.table == Table.UserId && k.parent == F) || k.table == Table.Permission)
      ==> Row(rows, k) == AccessesRow(ident, i, f, xs, |xs|, true, k)
  }

  ghost predicate HoldsDetails(rows: Rows, own: Key, file: File) {
    forall k: Key :: k == own.(table := k.table, i := k.i)
      && (k.table == Table.Linkage || k.table == Table.Inode || k.table == Table.Checksum)
      ==> Row(rows, k) == DetailRow(own, file, k)
  }

  ghost predicate HoldsFiles(rows: Rows, ident: nat, i: int, xs: seq<File>) {
    forall k: Key :: k.ident == ident && !OfHeartbeat(k) && k.p0 == i && OfFile(k)
      ==> Row(rows, k) == FilesRow(ident, i, xs, |xs|, true, k)
  }

  ghost predicate HoldsTargets(rows: Rows, ident: nat, xs: seq<Target>) {
    forall k: Key :: k.ident == ident && !OfHeartbeat(k)
      && (k.table == Table.Target || OfFile(k) || (OfPart(k) && k.parent == T))
      ==> Row(rows, k) == TargetsRow(ident, xs, |xs|, true, k)
  }

  ghost predicate HoldsAnalyzers(rows: Rows, parent: Parent, ident: nat, xs: seq<Analyzer>) {
    forall k: Key :: k.ident == ident && (k.table == Table.Analyzer || OfPart(k)) && k.parent == parent
      ==> Row(rows, k) == AnalyzersRow(parent, ident, xs, |xs|, true, k)
  }

  // What is read back. The parent index that the arguments of a process are looked up with
  // goes through a char, so that they may be those of another element.

  /** An int converted to a signed char of 8 bits. */
  function SignedChar(i: int): int {
    var x := i % 256;
    if x >= 128 then x - 256 else x
  }

  function ArgsOf(process: Option<Process>): seq<Payload> {
    match process case None => [] case Some(p) => p.args
  }

  function WithArgs(process: Option<Process>, args: seq<Payload>): Option<Process> {
    match process case None => None case Some(p) => Some(p.(args := args))
  }

  /** The arguments under the index that the i-th of n elements is looked up with. */
  function ArgsAt(processes: seq<Option<Process>>, i: nat): seq<Payload> {
    match Entry(processes, |processes|, true, SignedChar(i))
    case None => []
    case Some(process) => ArgsOf(process)
  }

  function SourceProcesses(xs: seq<Source>): seq<Option<Process>> {
    seq(|xs|, i requires 0 <= i < |xs| => xs[i].parts.process)
  }

  function TargetProcesses(xs: seq<Target>): seq<Option<Process>> {
    seq(|xs|, i requires 0 <= i < |xs| => xs[i].parts.process)
  }

  function AnalyzerProcesses(xs: seq<Analyzer>): seq<Option<Process>> {
    seq(|xs|, i requires 0 <= i < |xs| => xs[i].process)
  }

  function ReadParts(parts: Parts, args: seq<Payload>): Parts {
    parts.(process := WithArgs(parts.process, args))
  }

  function ReadSources(xs: seq<Source>): seq<Source> {
    seq(|xs|, i requires 0 <= i < |xs| => xs[i].(parts := ReadParts(xs[i].parts, ArgsAt(SourceProcesses(xs), i))))
  }

  function ReadTargets(xs: seq<Target>): seq<Target> {
    seq(|xs|, i requires 0 <= i < |xs| => xs[i].(parts := ReadParts(xs[i].parts, ArgsAt(TargetProcesses(xs), i))))
  }

  function ReadAnalyzers(xs: seq<Analyzer>): seq<Analyzer> {
    seq(|xs|, i requires 0 <= i < |xs| => xs[i].(process := WithArgs(xs[i].process, ArgsAt(AnalyzerProcesses(xs), i))))
  }

  /** A list of simple elements; whether there is a copy of the last one does not matter. */
  method GetList(db: Database, own: Key, ghost xs: seq<Payload>, ghost copy: bool) returns (r: seq<Payload>)
    ensures HoldsList(db.rows, own, xs, copy) ==> r == xs
  {
    var indexes, found := db.Select(own);
    r := found;
    if HoldsList(db.rows, own, xs, copy) {
      ListRead(db.rows, own, xs, copy, indexes, found);
    }
  }

  lemma ListRead(rows: Rows, own: Key, xs: seq<Payload>, copy: bool, indexes: seq<int>, found: seq<Payload>)
    requires HoldsList(rows, own, xs, copy)
    requires |found| == |indexes| && Ascending(indexes)
    requires forall j :: 0 <= j < |indexes| ==>
      indexes[j] != -1 && Row(rows, own.(i := indexes[j])) == Some(found[j])
    requires forall x :: x != -1 && Row(rows, own.(i := x)).Some? ==> x in indexes
    ensures found == xs
  {
    forall x
      ensures x in indexes <==> 0 <= x < |xs|
    {
      assert Row(rows, own.(i := x)) == ListRow(own, xs, |xs|, copy, own.(i := x));
    }
    Positions(indexes, |xs|);
    assert forall j :: 0 <= j < |xs| ==>
      Some(found[j]) == Row(rows, own.(i := indexes[j])) == ListRow(own, xs, |xs|, copy, own.(i := indexes[j])) == Some(xs[j]);
  }

  method GetNode(db: Database, own: Key, ghost want: Option<Node>) returns (node: Option<Node>)
    ensures HoldsNode(db.rows, own, want) ==> node == want
  {
    var row := db.Fetch(own.(table := Table.Node));
    assert HoldsNode(db.rows, own, want) ==> row == NodeRow(own, want, own.(table := Table.Node));
    if row == None {
      return None;
    }
    ghost var xs := if want.Some? then want.value.addresses else [];
    assert HoldsNode(db.rows, own, want) ==> HoldsList(db.rows, own.(table := Table.Address), xs, true);
    var addresses := GetList(db, own.(table := Table.Address), xs, true);
    node := Some(Node.Node(row.value, addresses));
  }

  method GetUser(db: Database, own: Key, ghost want: Option<User>) returns (user: Option<User>)
    ensures HoldsUser(db.rows, own, want) ==> user == want
  {
    var row := db.Fetch(own.(table := Table.User));
    assert HoldsUser(db.rows, own, want) ==> row == UserRow(own, want, own.(table := Table.User));
    if row == None {
      return None;
    }
    ghost var xs := if want.Some? then want.value.userIds else [];
    assert HoldsUser(db.rows, own, want) ==> HoldsList(db.rows, own.(table := Table.UserId), xs, true);
    var userIds := GetList(db, own.(table := Table.UserId), xs, true);
    user := Some(User.User(row.value, userIds));
  }

  /** args is what the database holds under the index that the arguments are looked up with. */
  method GetProcess(db: Database, own: Key, ghost want: Option<Process>, ghost args: seq<Payload>)
    returns (process: Option<Process>)
    ensures HoldsProcess(db.rows, own, want)
      && HoldsList(db.rows, own.(table := Table.ProcessArg, p0 := SignedChar(own.p0)), args, false)
      ==> process == WithArgs(want, args)
  {
    var row := db.Fetch(own.(table := Table.Process));
    assert HoldsProcess(db.rows, own, want) ==> row == ProcessRow(own, want, own.(table := Table.Process));
    if row == None {
      return None;
    }
    var arg := GetList(db, own.(table := Table.ProcessArg, p0 := SignedChar(own.p0)), args, false);
    ghost var xs := if want.Some? then want.value.env else [];
    assert HoldsProcess(db.rows, own, want) ==> HoldsList(db.rows, own.(table := Table.ProcessEnv), xs, false);
    var env := GetList(db, own.(table := Table.ProcessEnv), xs, false);
    process := Some(Process.Process(row.value, arg, env));
  }

  lemma WebArgsHeld(rows: Rows, own: Key, kind: ServiceKind, xs: seq<Payload>)
    requires HoldsServiceKind(rows, own, kind) && xs == (if kind.WebService? then kind.args else [])
    ensures HoldsList(rows, own.(table := Table.WebServiceArg), xs, true)
  {}

  method GetServiceKind(db: Database, own: Key, ghost want: ServiceKind) returns (kind: ServiceKind)
    ensures HoldsServiceKind(db.rows, own, want) ==> kind == want
  {
    kind := PlainService;
    ghost var holds := HoldsServiceKind(db.rows, own, want);
    var web := db.Fetch(own.(table := Table.WebService));
    assert holds ==> web == ServiceKindRow(own, want, own.(table := Table.WebService));
    if web.Some? {
      ghost var xs := if want.WebService? then want.args else [];
      if holds { WebArgsHeld(db.rows, own, want, xs); }
      var args := GetList(db, own.(table := Table.WebServiceArg), xs, true);
      kind := ServiceKind.WebService(web.value, args);
    }
    var snmp := db.Fetch(own.(table := Table.SnmpService));
    assert holds ==> snmp == ServiceKindRow(own, want, own.(table := Table.SnmpService));
    if snmp.Some? {
      kind := ServiceKind.SnmpService(snmp.value);
    }
  }

  method GetService(db: Database, own: Key, ghost want: Option<Service>) returns (service: Option<Service>)
    ensures HoldsService(db.rows, own, want) ==> service == want
  {
    hide ServiceKindRow;
    var row := db.Fetch(own.(table := Table.Service));
    assert HoldsService(db.rows, own, want) ==> row == ServiceRow(own, want, own.(table := Table.Service));
    if row == None {
      return None;
    }
    ghost var w := if want.Some? then want.value.kind else PlainService;
    assert HoldsService(db.rows, own, want) ==> HoldsServiceKind(db.rows, own, w);
    var kind := GetServiceKind(db, own, w);
    service := Some(Service.Service(row.value, kind));
  }

  method GetParts(db: Database, own: Key, ghost want: Parts, ghost args: seq<Payload>) returns (parts: Parts)
    ensures HoldsParts(db.rows, own, want)
      && HoldsList(db.rows, own.(table := Table.ProcessArg, p0 := SignedChar(own.p0)), args, false)
      ==> parts == ReadParts(want, args)
  {
    if HoldsParts(db.rows, own, want) {
      NodeAndUserHeld(db.rows, own, want);
      ProcessAndServiceHeld(db.rows, own, want);
    }
    var node := GetNode(db, own, want.node);
    var user := GetUser(db, own, want.user);
    var process := GetProcess(db, own, want.process, args);
    var service := GetService(db, own, want.service);
    parts := Parts.Parts(node, user, process, service);
  }

  lemma NodeAndUserHeld(rows: Rows, own: Key, parts: Parts)
    requires HoldsParts(rows, own, parts)
    ensures HoldsNode(rows, own, parts.node) && HoldsUser(rows, own, parts.user)
  {
    hide NodeRow, UserRow, ProcessRow, ServiceRow;
  }

  lemma ProcessAndServiceHeld(rows: Rows, own: Key, parts: Parts)
    requires HoldsParts(rows, own, parts)
    ensures HoldsProcess(rows, own, parts.process) && HoldsService(rows, own, parts.service)
  {
    hide NodeRow, UserRow, ProcessRow, ServiceRow;
  }

  lemma EmptyList(own: Key, k: Key)
    ensures ListRow(own, [], 0, false, k) == None
  {}

  /** The arguments of a part, as a list of their own. */
  lemma ArgsOfParts(own: Key, parts: Parts, k: Key)
    requires k == own.(table := Table.ProcessArg, i := k.i)
    ensures PartsRow(own, parts, k)
      == ListRow(own.(table := Table.ProcessArg), ArgsOf(parts.process), |ArgsOf(parts.process)|, false, k)
  {}

  lemma SourcePartsHeld(rows: Rows, ident: nat, xs: seq<Source>, i: nat)
    requires HoldsSources(rows, ident, xs) && i < |xs|
    ensures HoldsParts(rows, Key(Table.Source, S, ident, i, 0, 0, 0), xs[i].parts)
  {
    hide PartsRow;
    var own := Key(Table.Source, S, ident, i, 0, 0, 0);
    forall k: Key | k == own.(table := k.table, i := k.i) && OfPart(k)
      ensures Row(rows, k) == PartsRow(own, xs[i].parts, k)
    {
      assert Row(rows, k) == SourcesRow(ident, xs, |xs|, true, k);
    }
  }

  /** The arguments that the sources have under any index. */
  lemma SourceArgsRow(ident: nat, xs: seq<Source>, k: Key)
    requires k == Key(Table.ProcessArg, S, ident, k.p0, 0, 0, k.i)
    ensures SourcesRow(ident, xs, |xs|, true, k) ==
      match Entry(xs, |xs|, true, k.p0)
      case None => None
      case Some(s) => ListRow(k.(i := 0), ArgsOf(s.parts.process), |ArgsOf(s.parts.process)|, false, k)
  {
    hide PartsRow, ListRow;
    match Entry(xs, |xs|, true, k.p0)
    case None =>
    case Some(s) => ArgsOfParts(Key(Table.Source, S, ident, k.p0, 0, 0, 0), s.parts, k);
  }

  lemma SourceArgsAt(xs: seq<Source>, i: nat)
    ensures ArgsAt(SourceProcesses(xs), i) ==
      match Entry(xs, |xs|, true, SignedChar(i)) case None => [] case Some(s) => ArgsOf(s.parts.process)
  {}

  lemma SourceArgsHeld(rows: Rows, ident: nat, xs: seq<Source>, i: nat)
    requires HoldsSources(rows, ident, xs) && i < |xs|
    ensures HoldsList(rows, Key(Table.ProcessArg, S, ident, SignedChar(i), 0, 0, 0), ArgsAt(SourceProcesses(xs), i), false)
  {
    hide SourcesRow, ListRow, ArgsAt, SourceProcesses, SignedChar;
    SourceArgsAt(xs, i);
    var own := Key(Table.ProcessArg, S, ident, SignedChar(i), 0, 0, 0);
    var args := ArgsAt(SourceProcesses(xs), i);
    forall k: Key | k == own.(i := k.i)
      ensures Row(rows, k) == ListRow(own, args, |args|, false, k)
    {
      assert Row(rows, k) == SourcesRow(ident, xs, |xs|, true, k);
      SourceArgsRow(ident, xs, k);
      EmptyList(own, k);
    }
  }

  lemma SourceHeadsHeld(rows: Rows, ident: nat, xs: seq<Source>, heads: seq<Payload>)
    requires HoldsSources(rows, ident, xs)
    requires |heads| == |xs| && forall i :: 0 <= i < |xs| ==> heads[i] == xs[i].row
    ensures HoldsList(rows, Key(Table.Source, NoParent, ident, 0, 0, 0, 0), heads, true)
  {
    hide PartsRow;
    forall k: Key | k == Key(Table.Source, NoParent, ident, 0, 0, 0, k.i)
      ensures Row(rows, k) == ListRow(Key(Table.Source, NoParent, ident, 0, 0, 0, 0), heads, |heads|, true, k)
    {
      assert Row(rows, k) == SourcesRow(ident, xs, |xs|, true, k);
    }
  }

  const NOPARTS := Parts.Parts(None, None, None, None)

  method GetSources(db: Database, ident: nat, ghost want: seq<Source>) returns (r: seq<Source>)
    ensures HoldsSources(db.rows, ident, want) ==> r == ReadSources(want)
  {
    hide HoldsSources, HoldsList, HoldsParts, ArgsAt, ReadParts;
    ghost var holds := HoldsSources(db.rows, ident, want);
    ghost var heads := seq(|want|, i requires 0 <= i < |want| => want[i].row);
    if holds { SourceHeadsHeld(db.rows, ident, want, heads); }
    var rows := GetList(db, Key(Table.Source, NoParent, ident, 0, 0, 0, 0), heads, true);
    r := [];
    for n := 0 to |rows|
      invariant |r| == n && forall j :: 0 <= j < n ==> r[j] == Source.Source(rows[j], NOPARTS)
    {
      r := r + [Source.Source(rows[n], NOPARTS)];
    }
    for cnt := 0 to |r|
      invariant |r| == |rows| && (holds ==> rows == heads)
      invariant forall j :: 0 <= j < |r| ==> r[j].row == rows[j]
      invariant holds ==> forall j :: 0 <= j < cnt ==> r[j] == ReadSources(want)[j]
    {
      if holds {
        SourcePartsHeld(db.rows, ident, want, cnt);
        SourceArgsHeld(db.rows, ident, want, cnt);
      }
      var parts := GetParts(db, Key(Table.Source, S, ident, cnt, 0, 0, 0),
        if holds then want[cnt].parts else NOPARTS, ArgsAt(SourceProcesses(want), cnt));
      r := r[cnt := r[cnt].(parts := parts)];
    }
  }

  // Files.

  lemma UserIdHeld(rows: Rows, ident: nat, i: int, f: int, xs: seq<FileAccess>, x: nat)
    requires HoldsAccesses(rows, ident, i, f, xs) && x < |xs|
    ensures HoldsList(rows, Key(Table.UserId, F, ident, i, f, x, 0), [xs[x].userId], false)
  {
    forall k: Key | k == Key(Table.UserId, F, ident, i, f, x, k.i)
      ensures Row(rows, k) == if k.i == 0 then Some(xs[x].userId) else None
    {
      assert Row(rows, k) == AccessesRow(ident, i, f, xs, |xs|, true, k);
    }
  }

  lemma PermissionsHeld(rows: Rows, ident: nat, i: int, f: int, xs: seq<FileAccess>, x: nat)
    requires HoldsAccesses(rows, ident, i, f, xs) && x < |xs|
    ensures HoldsList(rows, Key(Table.Permission, NoParent, ident, i, f, x, 0), xs[x].permissions, true)
  {
    hide ListRow;
  }

  lemma AccessesCounted(rows: Rows, ident: nat, i: int, f: int, xs: seq<FileAccess>, heads: seq<Payload>)
    requires HoldsAccesses(rows, ident, i, f, xs)
    requires |heads| == |xs| && forall x :: 0 <= x < |xs| ==> heads[x] == []
    ensures HoldsList(rows, Key(Table.FileAccess, NoParent, ident, i, f, 0, 0), heads, true)
  {
    forall k: Key | k == Key(Table.FileAccess, NoParent, ident, i, f, 0, k.i)
      ensures Row(rows, k) == ListRow(Key(Table.FileAccess, NoParent, ident, i, f, 0, 0), heads, |heads|, true, k)
    {
      assert Row(rows, k) == AccessesRow(ident, i, f, xs, |xs|, true, k);
    }
  }

  /** The accesses are counted first; each then takes its user id and its permissions. */
  method GetAccesses(db: Database, ident: nat, i: int, f: int, ghost want: seq<FileAccess>) returns (r: seq<FileAccess>)
    ensures HoldsAccesses(db.rows, ident, i, f, want) ==> r == want
  {
    hide HoldsAccesses, HoldsList;
    ghost var holds := HoldsAccesses(db.rows, ident, i, f, want);
    ghost var heads: seq<Payload> := seq(|want|, x => []);
    if holds { AccessesCounted(db.rows, ident, i, f, want, heads); }
    var all := GetList(db, Key(Table.FileAccess, NoParent, ident, i, f, 0, 0), heads, true);
    r := [];
    for cnt := 0 to |all|
      invariant |r| == cnt && (holds ==> |all| == |want|)
      invariant holds ==> forall x :: 0 <= x < cnt ==> r[x] == want[x]
    {
      ghost var w := if holds then want[cnt] else FileAccess.FileAccess([], []);
      if holds {
        UserIdHeld(db.rows, ident, i, f, want, cnt);
        PermissionsHeld(db.rows, ident, i, f, want, cnt);
      }
      var userIds := GetList(db, Key(Table.UserId, F, ident, i, f, cnt, 0), [w.userId], false);
      var userId := if userIds == [] then [] else userIds[|userIds| - 1];
      var permissions := GetList(db, Key(Table.Permission, NoParent, ident, i, f, cnt, 0), w.permissions, true);
      r := r + [FileAccess.FileAccess(permissions, userId)];
    }
  }

  lemma FileHeld(rows: Rows, ident: nat, i: int, xs: seq<File>, f: nat)
    requires HoldsFiles(rows, ident, i, xs) && f < |xs|
    ensures HoldsAccesses(rows, ident, i, f, xs[f].accesses)
  {
    hide AccessesRow;
  }

  lemma DetailsHeld(rows: Rows, ident: nat, i: int, xs: seq<File>, f: nat)
    requires HoldsFiles(rows, ident, i, xs) && f < |xs|
    ensures HoldsDetails(rows, Key(Table.File, NoParent, ident, i, f, 0, 0), xs[f])
  {
    hide DetailRow;
  }

  lemma FileHeadsHeld(rows: Rows, ident: nat, i: int, xs: seq<File>, heads: seq<Payload>)
    requires HoldsFiles(rows, ident, i, xs)
    requires |heads| == |xs| && forall f :: 0 <= f < |xs| ==> heads[f] == xs[f].row
    ensures HoldsList(rows, Key(Table.File, NoParent, ident, i, 0, 0, 0), heads, true)
  {
    hide AccessesRow, DetailRow;
    forall k: Key | k == Key(Table.File, NoParent, ident, i, 0, 0, k.i)
      ensures Row(rows, k) == ListRow(Key(Table.File, NoParent, ident, i, 0, 0, 0), heads, |heads|, true, k)
    {
      assert Row(rows, k) == FilesRow(ident, i, xs, |xs|, true, k);
    }
  }

  const NOFILE := File.File([], [], [], None, [])

  /** What a file has besides its accesses. */
  method GetDetails(db: Database, own: Key, ghost want: File)
    returns (linkages: seq<Payload>, inode: Option<Payload>, checksums: seq<Payload>)
    ensures HoldsDetails(db.rows, own, want) ==>
      linkages == want.linkages && inode == want.inode && checksums == want.checksums
  {
    linkages := GetList(db, own.(table := Table.Linkage), want.linkages, true);
    inode := db.Fetch(own.(table := Table.Inode));
    checksums := GetList(db, own.(table := Table.Checksum), want.checksums, true);
  }

  method GetFiles(db: Database, ident: nat, i: int, ghost want: seq<File>) returns (r: seq<File>)
    ensures HoldsFiles(db.rows, ident, i, want) ==> r == want
  {
    hide HoldsFiles, HoldsList, HoldsAccesses, HoldsDetails;
    ghost var holds := HoldsFiles(db.rows, ident, i, want);
    ghost var heads := seq(|want|, f requires 0 <= f < |want| => want[f].row);
    if holds { FileHeadsHeld(db.rows, ident, i, want, heads); }
    var rows := GetList(db, Key(Table.File, NoParent, ident, i, 0, 0, 0), heads, true);
    r := [];
    for n := 0 to |rows|
      invariant |r| == n && forall j :: 0 <= j < n ==> r[j] == NOFILE.(row := rows[j])
    {
      r := r + [NOFILE.(row := rows[n])];
    }
    for cnt := 0 to |r|
      invariant |r| == |rows| && (holds ==> rows == heads)
      invariant forall j :: 0 <= j < |r| ==> r[j].row == rows[j]
      invariant holds ==> forall j :: 0 <= j < cnt ==> r[j] == want[j]
    {
      ghost var w := if holds then want[cnt] else NOFILE;
      if holds {
        FileHeld(db.rows, ident, i, want, cnt);
        DetailsHeld(db.rows, ident, i, want, cnt);
      }
      var accesses := GetAccesses(db, ident, i, cnt, w.accesses);
      var linkages, inode, checksums := GetDetails(db, Key(Table.File, NoParent, ident, i, cnt, 0, 0), w);
      r := r[cnt := File.File(r[cnt].row, accesses, linkages, inode, checksums)];
    }
  }

  // Targets and analyzers, like sources.

  lemma TargetPartsHeld(rows: Rows, ident: nat, xs: seq<Target>, i: nat)
    requires HoldsTargets(rows, ident, xs) && i < |xs|
    ensures HoldsParts(rows, Key(Table.Target, T, ident, i, 0, 0, 0), xs[i].parts)
    ensures HoldsFiles(rows, ident, i, xs[i].files)
  {
    hide PartsRow, FilesRow;
    var own := Key(Table.Target, T, ident, i, 0, 0, 0);
    forall k: Key | k == own.(table := k.table, i := k.i) && OfPart(k)
      ensures Row(rows, k) == PartsRow(own, xs[i].parts, k)
    {
      assert Row(rows, k) == TargetsRow(ident, xs, |xs|, true, k);
    }
  }

  /** The arguments that the targets have under any index. */
  lemma TargetArgsRow(ident: nat, xs: seq<Target>, k: Key)
    requires k == Key(Table.ProcessArg, T, ident, k.p0, 0, 0, k.i)
    ensures TargetsRow(ident, xs, |xs|, true, k) ==
      match Entry(xs, |xs|, true, k.p0)
      case None => None
      case Some(t) => ListRow(k.(i := 0), ArgsOf(t.parts.process), |ArgsOf(t.parts.process)|, false, k)
  {
    hide PartsRow, FilesRow, ListRow;
    match Entry(xs, |xs|, true, k.p0)
    case None =>
    case Some(t) => ArgsOfParts(Key(Table.Target, T, ident, k.p0, 0, 0, 0), t.parts, k);
  }

  lemma TargetArgsAt(xs: seq<Target>, i: nat)
    ensures ArgsAt(TargetProcesses(xs), i) ==
      match Entry(xs, |xs|, true, SignedChar(i)) case None => [] case Some(t) => ArgsOf(t.parts.process)
  {}

  lemma TargetArgsHeld(rows: Rows, ident: nat, xs: seq<Target>, i: nat)
    requires HoldsTargets(rows, ident, xs) && i < |xs|
    ensures HoldsList(rows, Key(Table.ProcessArg, T, ident, SignedChar(i), 0, 0, 0), ArgsAt(TargetProcesses(xs), i), false)
  {
    hide TargetsRow, ListRow, ArgsAt, TargetProcesses, SignedChar;
    TargetArgsAt(xs, i);
    var own := Key(Table.ProcessArg, T, ident, SignedChar(i), 0, 0, 0);
    var args := ArgsAt(TargetProcesses(xs), i);
    forall k: Key | k == own.(i := k.i)
      ensures Row(rows, k) == ListRow(own, args, |args|, false, k)
    {
      assert Row(rows, k) == TargetsRow(ident, xs, |xs|, true, k);
      TargetArgsRow(ident, xs, k);
      EmptyList(own, k);
    }
  }

  lemma TargetHeadsHeld(rows: Rows, ident: nat, xs: seq<Target>, heads: seq<Payload>)
    requires HoldsTargets(rows, ident, xs)
    requires |heads| == |xs| && forall i :: 0 <= i < |xs| ==> heads[i] == xs[i].row
    ensures HoldsList(rows, Key(Table.Target, NoParent, ident, 0, 0, 0, 0), heads, true)
  {
    hide PartsRow, FilesRow;
    forall k: Key | k == Key(Table.Target, NoParent, ident, 0, 0, 0, k.i)
      ensures Row(rows, k) == ListRow(Key(Table.Target, NoParent, ident, 0, 0, 0, 0), heads, |heads|, true, k)
    {
      assert Row(rows, k) == TargetsRow(ident, xs, |xs|, true, k);
    }
  }

  method GetTargets(db: Database, ident: nat, ghost want: seq<Target>) returns (r: seq<Target>)
    ensures HoldsTargets(db.rows, ident, want) ==> r == ReadTargets(want)
  {
    hide HoldsTargets, HoldsFiles, HoldsList, HoldsParts, ArgsAt, ReadParts;
    ghost var holds := HoldsTargets(db.rows, ident, want);
    ghost var heads := seq(|want|, i requires 0 <= i < |want| => want[i].row);
    if holds { TargetHeadsHeld(db.rows, ident, want, heads); }
    var rows := GetList(db, Key(Table.Target, NoParent, ident, 0, 0, 0, 0), heads, true);
    r := [];
    for n := 0 to |rows|
      invariant |r| == n && forall j :: 0 <= j < n ==> r[j] == Target.Target(rows[j], NOPARTS, [])
    {
      r := r + [Target.Target(rows[n], NOPARTS, [])];
    }
    for cnt := 0 to |r|
      invariant |r| == |rows| && (holds ==> rows == heads)
      invariant forall j :: 0 <= j < |r| ==> r[j].row == rows[j]
      invariant holds ==> forall j :: 0 <= j < cnt ==> r[j] == ReadTargets(want)[j]
    {
      if holds {
        TargetPartsHeld(db.rows, ident, want, cnt);
        TargetArgsHeld(db.rows, ident, want, cnt);
      }
      var parts := GetParts(db, Key(Table.Target, T, ident, cnt, 0, 0, 0),
        if holds then want[cnt].parts else NOPARTS, ArgsAt(TargetProcesses(want), cnt));
      var files := GetFiles(db, ident, cnt, if holds then want[cnt].files else []);
      r := r[cnt := Target.Target(r[cnt].row, parts, files)];
    }
  }

  lemma AnalyzerPartsHeld(rows: Rows, parent: Parent, ident: nat, xs: seq<Analyzer>, i: nat)
    requires HoldsAnalyzers(rows, parent, ident, xs) && i < |xs|
    ensures HoldsNode(rows, Key(Table.Analyzer, parent, ident, i, 0, 0, 0), xs[i].node)
    ensures HoldsProcess(rows, Key(Table.Analyzer, parent, ident, i, 0, 0, 0), xs[i].process)
  {
    hide NodeRow, ProcessRow;
    var own := Key(Table.Analyzer, parent, ident, i, 0, 0, 0);
    forall k: Key | k == own.(table := k.table, i := k.i) && OfPart(k)
      ensures Row(rows, k) == AnalyzerRow(parent, ident, i, xs[i], k)
    {
      assert Row(rows, k) == AnalyzersRow(parent, ident, xs, |xs|, true, k);
    }
  }

  lemma AnalyzerArgsHeld(rows: Rows, parent: Parent, ident: nat, xs: seq<Analyzer>, i: nat)
    requires HoldsAnalyzers(rows, parent, ident, xs) && i < |xs|
    ensures HoldsList(rows, Key(Table.ProcessArg, parent, ident, SignedChar(i), 0, 0, 0), ArgsAt(AnalyzerProcesses(xs), i), false)
  {
    hide NodeRow, ListRow;
    var p0 := SignedChar(i);
    var own := Key(Table.ProcessArg, parent, ident, p0, 0, 0, 0);
    var args := ArgsAt(AnalyzerProcesses(xs), i);
    forall k: Key | k == own.(i := k.i)
      ensures Row(rows, k) == ListRow(own, args, |args|, false, k)
    {
      assert Row(rows, k) == AnalyzersRow(parent, ident, xs, |xs|, true, k);
      EmptyList(own, k);
    }
  }

  lemma AnalyzerHeadsHeld(rows: Rows, parent: Parent, ident: nat, xs: seq<Analyzer>, heads: seq<Payload>)
    requires HoldsAnalyzers(rows, parent, ident, xs)
    requires |heads| == |xs| && forall i :: 0 <= i < |xs| ==> heads[i] == xs[i].row
    ensures HoldsList(rows, Key(Table.Analyzer, parent, ident, 0, 0, 0, 0), heads, true)
  {
    hide NodeRow, ProcessRow;
    forall k: Key | k == Key(Table.Analyzer, parent, ident, 0, 0, 0, k.i)
      ensures Row(rows, k) == ListRow(Key(Table.Analyzer, parent, ident, 0, 0, 0, 0), heads, |heads|, true, k)
    {
      assert Row(rows, k) == AnalyzersRow(parent, ident, xs, |xs|, true, k);
    }
  }

  /** The index that the parts of an analyzer are looked up with is counted while reading. */
  method GetAnalyzers(db: Database, parent: Parent, ident: nat, ghost want: seq<Analyzer>) returns (r: seq<Analyzer>)
    ensures HoldsAnalyzers(db.rows, parent, ident, want) ==> r == ReadAnalyzers(want)
  {
    hide HoldsAnalyzers, HoldsList, HoldsNode, HoldsProcess, ArgsAt, WithArgs;
    ghost var holds := HoldsAnalyzers(db.rows, parent, ident, want);
    ghost var heads := seq(|want|, i requires 0 <= i < |want| => want[i].row);
    if holds { AnalyzerHeadsHeld(db.rows, parent, ident, want, heads); }
    var rows := GetList(db, Key(Table.Analyzer, parent, ident, 0, 0, 0, 0), heads, true);
    r := [];
    for index := 0 to |rows|
      invariant |r| == index && (holds ==> rows == heads)
      invariant holds ==> forall j :: 0 <= j < index ==> r[j] == ReadAnalyzers(want)[j]
    {
      ghost var w := if holds then want[index] else Analyzer.Analyzer([], None, None);
      if holds {
        AnalyzerPartsHeld(db.rows, parent, ident, want, index);
        AnalyzerArgsHeld(db.rows, parent, ident, want, index);
      }
      var own := Key(Table.Analyzer, parent, ident, index, 0, 0, 0);
      var node := GetNode(db, own, w.node);
      var process := GetProcess(db, own, w.process, ArgsAt(AnalyzerProcesses(want), index));
      r := r + [Analyzer.Analyzer(rows[index], node, process)];
    }
  }

  // Messages.

  ghost predicate HoldsAssessment(rows: Rows, ident: nat, a: Option<Assessment>) {
    forall k: Key :: k.ident == ident && k.parent == NoParent
      && (k.table == Table.Assessment || k.table == Table.Impact || k.table == Table.Confidence || k.table == Table.Action)
      ==> Row(rows, k) == AssessmentRow(ident, a, k)
  }

  ghost predicate HoldsKind(rows: Rows, ident: nat, kind: AlertKind) {
    forall k: Key :: k.ident == ident && !OfHeartbeat(k)
      && (k.table == Table.ToolAlert || k.table == Table.OverflowAlert || k.table == Table.CorrelationAlert
          || k.table == Table.Alertident)
      ==> Row(rows, k) == KindRow(ident, kind, k)
  }

  ghost predicate HoldsClassification(rows: Rows, ident: nat, c: Option<Classification>) {
    forall k: Key :: k.ident == ident && k.parent == NoParent && (k.table == Table.Classification || k.table == Table.Reference)
      ==> Row(rows, k) == ClassificationRow(ident, c, k)
  }

  function Once(table: Table, parent: Parent, ident: nat): Key { Key(table, parent, ident, 0, 0, 0, 0) }

  lemma AssessmentHeld(rows: Rows, ident: nat, a: Option<Assessment>)
    requires HoldsAssessment(rows, ident, a)
    ensures Row(rows, Once(Table.Assessment, NoParent, ident)) == (if a.Some? then Some([]) else None)
    ensures Row(rows, Once(Table.Impact, NoParent, ident)) == (if a.Some? then a.value.impact else None)
    ensures Row(rows, Once(Table.Confidence, NoParent, ident)) == (if a.Some? then a.value.confidence else None)
    ensures HoldsList(rows, Once(Table.Action, NoParent, ident), if a.Some? then a.value.actions else [], true)
  {}

  method GetAssessment(db: Database, ident: nat, ghost want: Option<Assessment>) returns (r: Option<Assessment>)
    ensures HoldsAssessment(db.rows, ident, want) ==> r == want
  {
    if HoldsAssessment(db.rows, ident, want) { AssessmentHeld(db.rows, ident, want); }
    hide HoldsAssessment, HoldsList, Once, Row;
    var row := db.Fetch(Once(Table.Assessment, NoParent, ident));
    if row == None {
      return None;
    }
    var impact := db.Fetch(Once(Table.Impact, NoParent, ident));
    var confidence := db.Fetch(Once(Table.Confidence, NoParent, ident));
    var actions :=
      GetList(db, Once(Table.Action, NoParent, ident), if want.Some? then want.value.actions else [], true);
    r := Some(Assessment.Assessment(impact, confidence, actions));
  }

  method GetClassification(db: Database, ident: nat, ghost want: Option<Classification>) returns (r: Option<Classification>)
    ensures HoldsClassification(db.rows, ident, want) ==> r == want
  {
    ghost var holds := HoldsClassification(db.rows, ident, want);
    var row := db.Fetch(Once(Table.Classification, NoParent, ident));
    assert holds ==> row == ClassificationRow(ident, want, Once(Table.Classification, NoParent, ident));
    if row == None {
      return None;
    }
    ghost var xs := if want.Some? then want.value.references else [];
    assert holds ==> HoldsList(db.rows, Once(Table.Reference, NoParent, ident), xs, true);
    var references := GetList(db, Once(Table.Reference, NoParent, ident), xs, true);
    r := Some(Classification.Classification(row.value, references));
  }

  lemma IdentsHeld(rows: Rows, ident: nat, kind: AlertKind)
    requires HoldsKind(rows, ident, kind)
    ensures kind.ToolAlert? ==> HoldsList(rows, Once(Table.Alertident, T, ident), kind.idents, false)
    ensures kind.CorrelationAlert? ==> HoldsList(rows, Once(Table.Alertident, C, ident), kind.idents, true)
  {}

  lemma KindHeld(rows: Rows, ident: nat, kind: AlertKind)
    requires HoldsKind(rows, ident, kind)
    ensures Row(rows, Once(Table.ToolAlert, NoParent, ident)) == (if kind.ToolAlert? then Some(kind.row) else None)
    ensures Row(rows, Once(Table.CorrelationAlert, NoParent, ident))
      == (if kind.CorrelationAlert? then Some(kind.row) else None)
    ensures Row(rows, Once(Table.OverflowAlert, NoParent, ident)) == (if kind.OverflowAlert? then Some(kind.row) else None)
  {}

  /** The three special kinds are looked for one after the other. */
  method GetKind(db: Database, ident: nat, ghost want: AlertKind) returns (kind: AlertKind)
    ensures HoldsKind(db.rows, ident, want) ==> kind == want
  {
    if HoldsKind(db.rows, ident, want) {
      IdentsHeld(db.rows, ident, want);
      KindHeld(db.rows, ident, want);
    }
    hide HoldsKind, HoldsList, Once, Row;
    kind := DefaultAlert;
    var tool := db.Fetch(Once(Table.ToolAlert, NoParent, ident));
    var correlation := db.Fetch(Once(Table.CorrelationAlert, NoParent, ident));
    var overflow := db.Fetch(Once(Table.OverflowAlert, NoParent, ident));
    if tool.Some? {
      var idents := GetList(db, Once(Table.Alertident, T, ident), if want.ToolAlert? then want.idents else [], false);
      kind := AlertKind.ToolAlert(tool.value, idents);
    }
    if correlation.Some? {
      var idents := GetList(db, Once(Table.Alertident, C, ident), if want.CorrelationAlert? then want.idents else [], true);
      kind := AlertKind.CorrelationAlert(correlation.value, idents);
    }
    if overflow.Some? {
      kind := AlertKind.OverflowAlert(overflow.value);
    }
  }

  /** What reading back an alert gives. */
  function ReadAlert(a: Alert): Alert {
    a.(analyzers := ReadAnalyzers(a.analyzers), sources := ReadSources(a.sources), targets := ReadTargets(a.targets))
  }

  function ReadHeartbeat(h: Heartbeat): Heartbeat {
    h.(analyzers := ReadAnalyzers(h.analyzers))
  }

  lemma AlertPartsHeld(rows: Rows, ident: nat, a: Alert)
    requires HoldsAlert(rows, ident, a)
    ensures HoldsAnalyzers(rows, A, ident, a.analyzers) && HoldsSources(rows, ident, a.sources)
  {
    hide AnalyzersRow, SourcesRow;
  }

  lemma AlertTargetsHeld(rows: Rows, ident: nat, a: Alert)
    requires HoldsAlert(rows, ident, a)
    ensures HoldsTargets(rows, ident, a.targets)
  {
    hide TargetsRow;
  }

  lemma AlertOnceHeld(rows: Rows, ident: nat, a: Alert)
    requires HoldsAlert(rows, ident, a)
    ensures Row(rows, Once(Table.Alert, NoParent, ident)) == Some(a.row)
    ensures Row(rows, Once(Table.CreateTime, A, ident)) == Some(a.createTime)
    ensures Row(rows, Once(Table.DetectTime, NoParent, ident)) == a.detectTime
    ensures Row(rows, Once(Table.AnalyzerTime, A, ident)) == a.analyzerTime
  {}

  lemma AlertHeadHeld(rows: Rows, ident: nat, a: Alert)
    requires HoldsAlert(rows, ident, a)
    ensures HoldsAssessment(rows, ident, a.assessment) && HoldsKind(rows, ident, a.kind)
  {
    hide AssessmentRow, KindRow;
  }

  lemma AlertTailHeld(rows: Rows, ident: nat, a: Alert)
    requires HoldsAlert(rows, ident, a)
    ensures HoldsClassification(rows, ident, a.classification)
    ensures HoldsList(rows, Once(Table.AdditionalData, A, ident), a.additionalData, true)
  {
    hide ClassificationRow, ListRow;
  }

  /** Reading an alert that is not there is an error. */
  method GetAlert(db: Database, ident: nat, ghost want: Alert) returns (r: Option<Alert>)
    ensures HoldsAlert(db.rows, ident, want) ==> r == Some(ReadAlert(want))
    ensures Row(db.rows, Once(Table.Alert, NoParent, ident)).None? ==> r == None
  {
    if HoldsAlert(db.rows, ident, want) {
      AlertPartsHeld(db.rows, ident, want);
      AlertTargetsHeld(db.rows, ident, want);
      AlertOnceHeld(db.rows, ident, want);
      AlertHeadHeld(db.rows, ident, want);
      AlertTailHeld(db.rows, ident, want);
    }
    hide HoldsAlert, HoldsAssessment, HoldsAnalyzers, HoldsSources, HoldsTargets, HoldsClassification, HoldsList, HoldsKind;
    var row := db.Fetch(Once(Table.Alert, NoParent, ident));
    if row == None {
      return None;
    }
    var assessment := GetAssessment(db, ident, want.assessment);
    var analyzers := GetAnalyzers(db, A, ident, want.analyzers);
    var createTime := db.Fetch(Once(Table.CreateTime, A, ident));
    var detectTime := db.Fetch(Once(Table.DetectTime, NoParent, ident));
    var analyzerTime := db.Fetch(Once(Table.AnalyzerTime, A, ident));
    var sources := GetSources(db, ident, want.sources);
    var targets := GetTargets(db, ident, want.targets);
    var classification := GetClassification(db, ident, want.classification);
    var additionalData := GetList(db, Once(Table.AdditionalData, A, ident), want.additionalData, true);
    var kind := GetKind(db, ident, want.kind);
    r := Some(Alert.Alert(row.value, if createTime.Some? then createTime.value else [], detectTime, analyzerTime,
      assessment, kind, analyzers, sources, targets, classification, additionalData));
  }

  lemma HeartbeatListsHeld(rows: Rows, ident: nat, h: Heartbeat)
    requires HoldsHeartbeat(rows, ident, h)
    ensures HoldsAnalyzers(rows, H, ident, h.analyzers)
    ensures HoldsList(rows, Once(Table.AdditionalData, H, ident), h.additionalData, true)
  {
    hide AnalyzersRow, OnceRow;
  }

  lemma HeartbeatPartsHeld(rows: Rows, ident: nat, h: Heartbeat)
    requires HoldsHeartbeat(rows, ident, h)
    ensures Row(rows, Once(Table.Heartbeat, NoParent, ident)) == Some(h.row)
    ensures Row(rows, Once(Table.CreateTime, H, ident)) == Some(h.createTime)
    ensures Row(rows, Once(Table.AnalyzerTime, H, ident)) == h.analyzerTime
  {
    hide AnalyzersRow, ListRow;
  }

  method GetHeartbeat(db: Database, ident: nat, ghost want: Heartbeat) returns (r: Option<Heartbeat>)
    ensures HoldsHeartbeat(db.rows, ident, want) ==> r == Some(ReadHeartbeat(want))
    ensures Row(db.rows, Once(Table.Heartbeat, NoParent, ident)).None? ==> r == None
  {
    if HoldsHeartbeat(db.rows, ident, want) {
      HeartbeatListsHeld(db.rows, ident, want);
      HeartbeatPartsHeld(db.rows, ident, want);
    }
    hide HoldsHeartbeat, HoldsAnalyzers, HoldsList;
    var row := db.Fetch(Once(Table.Heartbeat, NoParent, ident));
    if row == None {
      return None;
    }
    var analyzers := GetAnalyzers(db, H, ident, want.analyzers);
    var createTime := db.Fetch(Once(Table.CreateTime, H, ident));
    var analyzerTime := db.Fetch(Once(Table.AnalyzerTime, H, ident));
    var additionalData := GetList(db, Once(Table.AdditionalData, H, ident), want.additionalData, true);
    r := Some(Heartbeat.Heartbeat(row.value, analyzers, if createTime.Some? then createTime.value else [],
      analyzerTime, additionalData));
  }

  // When what is read back is what was stored.

  /** The arguments of the process whose index is i modulo 256, if that is below 128, of the
      last one if that is 255, and otherwise none. */
  function ArgsModulo(processes: seq<Option<Process>>, i: nat): seq<Payload>
    requires i < |processes|
  {
    var m := i % 256;
    if m < 128 then ArgsOf(processes[m]) else if m == 255 then ArgsOf(processes[|processes| - 1]) else []
  }

  /** Each process beyond the first 128 has the arguments that its index modulo 256 leads to. */
  ghost predicate ArgsKept(processes: seq<Option<Process>>) {
    forall i :: 128 <= i < |processes| && processes[i].Some? ==> processes[i].value.args == ArgsModulo(processes, i)
  }

  /** What the arguments of the i-th process are read as. */
  lemma ArgsByIndex(processes: seq<Option<Process>>, i: nat)
    requires i < |processes|
    ensures ArgsAt(processes, i) == ArgsModulo(processes, i)
    ensures i < 128 ==> ArgsAt(processes, i) == ArgsOf(processes[i])
  {}

  /** Reading back gives the alert itself exactly when the arguments of all processes beyond
      the first 128 sources, targets or analyzers are kept; with at most 128 of each they are. */
  lemma ReadsTheSame(a: Alert)
    ensures ReadAlert(a) == a <==>
      && ArgsKept(AnalyzerProcesses(a.analyzers)) && ArgsKept(SourceProcesses(a.sources))
      && ArgsKept(TargetProcesses(a.targets))
    ensures |a.analyzers| <= 128 && |a.sources| <= 128 && |a.targets| <= 128 ==> ReadAlert(a) == a
  {
    ReadsSameAnalyzers(a.analyzers);
    ReadsSameSources(a.sources);
    ReadsSameTargets(a.targets);
    hide ReadAnalyzers, ReadSources, ReadTargets, ArgsModulo;
    assert |a.analyzers| <= 128 ==> ArgsKept(AnalyzerProcesses(a.analyzers));
    assert |a.sources| <= 128 ==> ArgsKept(SourceProcesses(a.sources));
    assert |a.targets| <= 128 ==> ArgsKept(TargetProcesses(a.targets));
  }

  lemma ReadsSameAnalyzers(xs: seq<Analyzer>)
    ensures ReadAnalyzers(xs) == xs <==> ArgsKept(AnalyzerProcesses(xs))
  {
    hide ArgsAt, ArgsModulo;
    var ps := AnalyzerProcesses(xs);
    forall i | 0 <= i < |xs|
      ensures ReadAnalyzers(xs)[i] == xs[i] <==> (ps[i].Some? ==> ps[i].value.args == ArgsAt(ps, i))
      ensures i < 128 ==> ArgsAt(ps, i) == ArgsOf(ps[i])
      ensures ArgsAt(ps, i) == ArgsModulo(ps, i)
    {
      ArgsByIndex(ps, i);
    }
  }

  lemma ReadsSameSources(xs: seq<Source>)
    ensures ReadSources(xs) == xs <==> ArgsKept(SourceProcesses(xs))
  {
    hide ArgsAt, ArgsModulo;
    var ps := SourceProcesses(xs);
    forall i | 0 <= i < |xs|
      ensures ReadSources(xs)[i] == xs[i] <==> (ps[i].Some? ==> ps[i].value.args == ArgsAt(ps, i))
      ensures i < 128 ==> ArgsAt(ps, i) == ArgsOf(ps[i])
      ensures ArgsAt(ps, i) == ArgsModulo(ps, i)
    {
      ArgsByIndex(ps, i);
    }
  }

  lemma ReadsSameTargets(xs: seq<Target>)
    ensures ReadTargets(xs) == xs <==> ArgsKept(TargetProcesses(xs))
  {
    hide ArgsAt, ArgsModulo;
    var ps := TargetProcesses(xs);
    forall i | 0 <= i < |xs|
      ensures ReadTargets(xs)[i] == xs[i] <==> (ps[i].Some? ==> ps[i].value.args == ArgsAt(ps, i))
      ensures i < 128 ==> ArgsAt(ps, i) == ArgsOf(ps[i])
      ensures ArgsAt(ps, i) == ArgsModulo(ps, i)
    {
      ArgsByIndex(ps, i);
    }
  }

  /** With a 129th source whose process has arguments, reading loses them. */
  lemma LateArgumentsLost(a: Alert)
    requires |a.sources| == 129 && a.sources[128].parts.process.Some? && a.sources[128].parts.process.value.args != []
    ensures ReadAlert(a) != a && ReadAlert(a).sources[128].parts.process.value.args == []
  {
    ArgsByIndex(SourceProcesses(a.sources), 128);
    hide ArgsAt;
    assert ReadAlert(a).sources[128] != a.sources[128];
  }
}
