/** Alerts and heartbeats (section 4.2 of RFC 4765) as trees, and the rows that the classic
    format keeps for them. The scalar columns of a row are an opaque payload. */
module Idmef {
  import opened Options

  type Payload = seq<string>

  datatype Node = Node(row: Payload, addresses: seq<Payload>)
  datatype User = User(row: Payload, userIds: seq<Payload>)
  datatype Process = Process(row: Payload, args: seq<Payload>, env: seq<Payload>)
  datatype ServiceKind = PlainService | WebService(row: Payload, args: seq<Payload>) | SnmpService(row: Payload)
  datatype Service = Service(row: Payload, kind: ServiceKind)
  datatype FileAccess = FileAccess(permissions: seq<Payload>, userId: Payload)
  datatype File = File(row: Payload, accesses: seq<FileAccess>, linkages: seq<Payload>,
                       inode: Option<Payload>, checksums: seq<Payload>)
  /** What sources and targets have in common. */
  datatype Parts = Parts(node: Option<Node>, user: Option<User>, process: Option<Process>, service: Option<Service>)
  datatype Source = Source(row: Payload, parts: Parts)
  datatype Target = Target(row: Payload, parts: Parts, files: seq<File>)
  datatype Analyzer = Analyzer(row: Payload, node: Option<Node>, process: Option<Process>)
  datatype Classification = Classification(row: Payload, references: seq<Payload>)
  datatype Assessment = Assessment(impact: Option<Payload>, confidence: Option<Payload>, actions: seq<Payload>)
  datatype AlertKind =
    | DefaultAlert
    | ToolAlert(row: Payload, idents: seq<Payload>)
    | OverflowAlert(row: Payload)
    | CorrelationAlert(row: Payload, idents: seq<Payload>)
  datatype Alert = Alert(
    row: Payload, createTime: Payload, detectTime: Option<Payload>, analyzerTime: Option<Payload>,
    assessment: Option<Assessment>, kind: AlertKind, analyzers: seq<Analyzer>, sources: seq<Source>,
    targets: seq<Target>, classification: Option<Classification>, additionalData: seq<Payload>)
  datatype Heartbeat = Heartbeat(
    row: Payload, analyzers: seq<Analyzer>, createTime: Payload, analyzerTime: Option<Payload>,
    additionalData: seq<Payload>)

  datatype Table =
    | Alert | CreateTime | DetectTime | AnalyzerTime
    | Assessment | Impact | Confidence | Action
    | ToolAlert | OverflowAlert | CorrelationAlert | Alertident
    | Analyzer | Classification | Reference | AdditionalData
    | Source | Target
    | Node | Address | User | UserId | Process | ProcessArg | ProcessEnv
    | Service | WebService | WebServiceArg | SnmpService
    | File | FileAccess | Permission | Linkage | Inode | Checksum
    | Heartbeat

  /** The _parent_type column; NoParent for the tables that lack it. */
  datatype Parent = NoParent | A | H | S | T | F | C

  /** The key of a row: _message_ident, _parent0_index to _parent2_index and _index. A column
      that the table lacks counts as 0. */
  datatype Key = Key(table: Table, parent: Parent, ident: nat, p0: int, p1: int, p2: int, i: int)

  type Rows = map<Key, Payload>

  function Row(rows: Rows, k: Key): Option<Payload> { if k in rows then Some(rows[k]) else None }

  /** Later rows over earlier ones. */
  function Over(later: Option<Payload>, earlier: Option<Payload>): Option<Payload> {
    if later.Some? then later else earlier
  }

  /** The element of a list that has index i once the first n have been stored: the position,
      or -1 for the extra copy of the last element if there is one. */
  function Entry<X>(xs: seq<X>, n: nat, copy: bool, i: int): (e: Option<X>)
    requires n <= |xs|
  {
    if 0 <= i < n then Some(xs[i]) else if i == -1 && copy && xs != [] then Some(xs[|xs| - 1]) else None
  }

  /** The rows of heartbeats, and of nothing else. */
  predicate OfHeartbeat(k: Key) { k.table == Table.Heartbeat || k.parent == H }

  /** Whether a row belongs to a file rather than to a target itself. */
  predicate OfFile(k: Key) {
    match k.table
    case File | FileAccess | Permission | Linkage | Inode | Checksum => true
    case UserId => k.parent == F
    case _ => false
  }

  /** Whether a row belongs to a part of a source, target or analyzer. */
  predicate OfPart(k: Key) {
    match k.table
    case Node | Address | User | UserId | Process | ProcessArg | ProcessEnv
      | Service | WebService | WebServiceArg | SnmpService => true
    case _ => false
  }

  // For each part of a tree, the payload that it has under a key. These functions follow a
  // key down the tree; the part's own place is given by the leading parameters.

  /** A list of simple elements; own is the key of any of them but for its _index. */
  function ListRow(own: Key, xs: seq<Payload>, n: nat, copy: bool, k: Key): (r: Option<Payload>)
    requires n <= |xs|
    ensures r.Some? ==> k == own.(i := k.i)
  {
    if k == own.(i := k.i) then Entry(xs, n, copy, k.i) else None
  }

  function NodeRow(own: Key, node: Option<Node>, k: Key): (r: Option<Payload>)
    ensures r.Some? ==> k == own.(table := k.table, i := k.i) && (k.table == Table.Node || k.table == Table.Address)
  {
    match node
    case None => None
    case Some(n) =>
      if k.table == Table.Node then if k == own.(table := k.table) then Some(n.row) else None
      else ListRow(own.(table := Table.Address), n.addresses, |n.addresses|, true, k)
  }

  function UserRow(own: Key, user: Option<User>, k: Key): (r: Option<Payload>)
    ensures r.Some? ==> k == own.(table := k.table, i := k.i) && (k.table == Table.User || k.table == Table.UserId)
  {
    match user
    case None => None
    case Some(u) =>
      if k.table == Table.User then if k == own.(table := k.table) then Some(u.row) else None
      else ListRow(own.(table := Table.UserId), u.userIds, |u.userIds|, true, k)
  }

  function ProcessRow(own: Key, process: Option<Process>, k: Key): (r: Option<Payload>)
    ensures r.Some? ==> k == own.(table := k.table, i := k.i)
    ensures r.Some? ==>
      k.table == Table.Process || k.table == Table.ProcessArg || k.table == Table.ProcessEnv
  {
    match process
    case None => None
    case Some(p) =>
      if k.table == Table.Process then if k == own.(table := k.table) then Some(p.row) else None
      else if k.table == Table.ProcessArg then ListRow(own.(table := k.table), p.args, |p.args|, false, k)
      else ListRow(own.(table := Table.ProcessEnv), p.env, |p.env|, false, k)
  }

  function ServiceRow(own: Key, service: Option<Service>, k: Key): (r: Option<Payload>)
    ensures r.Some? ==> k == own.(table := k.table, i := k.i)
    ensures r.Some? ==>
      k.table == Table.Service || k.table == Table.WebService || k.table == Table.WebServiceArg || k.table == Table.SnmpService
  {
    match service
    case None => None
    case Some(s) =>
      if k.table == Table.Service then if k == own.(table := k.table) then Some(s.row) else None
      else ServiceKindRow(own, s.kind, k)
  }

  function ServiceKindRow(own: Key, kind: ServiceKind, k: Key): (r: Option<Payload>)
    ensures r.Some? ==> k == own.(table := k.table, i := k.i)
    ensures r.Some? ==>
      k.table == Table.WebService || k.table == Table.WebServiceArg || k.table == Table.SnmpService
  {
    match kind
    case PlainService => None
    case WebService(row, args) =>
      if k.table == Table.WebService then if k == own.(table := k.table) then Some(row) else None
      else ListRow(own.(table := Table.WebServiceArg), args, |args|, true, k)
    case SnmpService(row) => if k == own.(table := Table.SnmpService) then Some(row) else None
  }

  function PartsRow(own: Key, parts: Parts, k: Key): (r: Option<Payload>)
    ensures r.Some? ==> OfPart(k) && k == own.(table := k.table, i := k.i)
  {
    var t := k.table;
    if t == Table.Node || t == Table.Address then NodeRow(own, parts.node, k)
    else if t == Table.User || t == Table.UserId then UserRow(own, parts.user, k)
    else if t == Table.Process || t == Table.ProcessArg || t == Table.ProcessEnv then ProcessRow(own, parts.process, k)
    else ServiceRow(own, parts.service, k)
  }

  /** A source at index i. */
  function SourceRow(ident: nat, i: int, s: Source, k: Key): (r: Option<Payload>)
    ensures r.Some? ==> ((k.table == Table.Source || (OfPart(k) && k.parent == S)) && k.ident == ident
      && i == (if k.table == Table.Source then k.i else k.p0))
    ensures r.Some? ==> !OfHeartbeat(k)
  {
    if k.table == Table.Source then if k == Key(Table.Source, NoParent, ident, 0, 0, 0, i) then Some(s.row) else None
    else PartsRow(Key(Table.Source, S, ident, i, 0, 0, 0), s.parts, k)
  }

  /** An access of the f-th file of the i-th target, at index x. */
  function AccessRow(ident: nat, i: int, f: int, x: int, access: FileAccess, k: Key): (r: Option<Payload>)
    ensures r.Some? ==> (OfFile(k) && k.ident == ident && k.p0 == i && k.p1 == f
      && x == (if k.table == Table.FileAccess then k.i else k.p2))
    ensures r.Some? ==> !OfHeartbeat(k)
  {
    match k.table
    case FileAccess => if k == Key(Table.FileAccess, NoParent, ident, i, f, 0, x) then Some([]) else None
    case UserId => if k == Key(Table.UserId, F, ident, i, f, x, 0) then Some(access.userId) else None
    case Permission =>
      ListRow(Key(Table.Permission, NoParent, ident, i, f, x, 0), access.permissions, |access.permissions|, true, k)
    case _ => None
  }

  function AccessesRow(ident: nat, i: int, f: int, xs: seq<FileAccess>, n: nat, copy: bool, k: Key): (r: Option<Payload>)
    requires n <= |xs|
    ensures r.Some? ==> (OfFile(k) && (k.table == Table.FileAccess || k.table == Table.UserId || k.table == Table.Permission)
      && k.ident == ident && k.p0 == i && k.p1 == f)
    ensures r.Some? ==> !OfHeartbeat(k)
  {
    var x := if k.table == Table.FileAccess then k.i else k.p2;
    match Entry(xs, n, copy, x)
    case None => None
    case Some(access) => AccessRow(ident, i, f, x, access, k)
  }

  /** The linkages, the inode and the checksums of a file. */
  function DetailRow(own: Key, file: File, k: Key): (r: Option<Payload>)
    ensures r.Some? ==> k == own.(table := k.table, i := k.i) && OfFile(k)
  {
    var t := k.table;
    if t == Table.Linkage then ListRow(own.(table := t), file.linkages, |file.linkages|, true, k)
    else if t == Table.Inode then if k == own.(table := t) then file.inode else None
    else ListRow(own.(table := Table.Checksum), file.checksums, |file.checksums|, true, k)
  }

  /** The file at index f of the i-th target. */
  function FileRow(ident: nat, i: int, f: int, file: File, k: Key): (r: Option<Payload>)
    ensures r.Some? ==> OfFile(k) && k.ident == ident && k.p0 == i && f == (if k.table == Table.File then k.i else k.p1)
    ensures r.Some? ==> !OfHeartbeat(k)
  {
    match k.table
    case File => if k == Key(Table.File, NoParent, ident, i, 0, 0, f) then Some(file.row) else None
    case FileAccess | UserId | Permission => AccessesRow(ident, i, f, file.accesses, |file.accesses|, true, k)
    case Linkage | Inode | Checksum => DetailRow(Key(Table.File, NoParent, ident, i, f, 0, 0), file, k)
    case _ => None
  }

  function FilesRow(ident: nat, i: int, files: seq<File>, n: nat, copy: bool, k: Key): (r: Option<Payload>)
    requires n <= |files|
    ensures r.Some? ==> OfFile(k) && k.ident == ident && k.p0 == i
    ensures r.Some? ==> !OfHeartbeat(k)
  {
    var f := if k.table == Table.File then k.i else k.p1;
    match Entry(files, n, copy, f)
    case None => None
    case Some(file) => FileRow(ident, i, f, file, k)
  }

  /** A target at index i. */
  function TargetRow(ident: nat, i: int, t: Target, k: Key): (r: Option<Payload>)
    ensures r.Some? ==> ((k.table == Table.Target || OfFile(k) || (OfPart(k) && k.parent == T)) && k.ident == ident
      && i == (if k.table == Table.Target then k.i else k.p0))
    ensures r.Some? ==> !OfHeartbeat(k)
  {
    if k.table == Table.Target then if k == Key(Table.Target, NoParent, ident, 0, 0, 0, i) then Some(t.row) else None
    else if OfFile(k) then FilesRow(ident, i, t.files, |t.files|, true, k)
    else PartsRow(Key(Table.Target, T, ident, i, 0, 0, 0), t.parts, k)
  }

  /** An analyzer at index i of an alert or a heartbeat. */
  function AnalyzerRow(parent: Parent, ident: nat, i: int, a: Analyzer, k: Key): (r: Option<Payload>)
    ensures r.Some? ==> ((k.table == Table.Analyzer || OfPart(k)) && k.parent == parent && k.ident == ident
      && i == (if k.table == Table.Analyzer then k.i else k.p0))
  {
    var own := Key(Table.Analyzer, parent, ident, i, 0, 0, 0);
    var t := k.table;
    if t == Table.Analyzer then if k == Key(t, parent, ident, 0, 0, 0, i) then Some(a.row) else None
    else if t == Table.Node || t == Table.Address then NodeRow(own, a.node, k)
    else ProcessRow(own, a.process, k)
  }

  function AnalyzersRow(parent: Parent, ident: nat, xs: seq<Analyzer>, n: nat, copy: bool, k: Key): (r: Option<Payload>)
    requires n <= |xs|
    ensures r.Some? ==> (k.table == Table.Analyzer || OfPart(k)) && k.parent == parent && k.ident == ident
  {
    var i := if k.table == Table.Analyzer then k.i else k.p0;
    match Entry(xs, n, copy, i)
    case None => None
    case Some(a) => AnalyzerRow(parent, ident, i, a, k)
  }

  function SourcesRow(ident: nat, xs: seq<Source>, n: nat, copy: bool, k: Key): (r: Option<Payload>)
    requires n <= |xs|
    ensures r.Some? ==> (k.table == Table.Source || (OfPart(k) && k.parent == S)) && k.ident == ident
    ensures r.Some? ==> !OfHeartbeat(k)
  {
    var i := if k.table == Table.Source then k.i else k.p0;
    match Entry(xs, n, copy, i)
    case None => None
    case Some(s) => SourceRow(ident, i, s, k)
  }

  function TargetsRow(ident: nat, xs: seq<Target>, n: nat, copy: bool, k: Key): (r: Option<Payload>)
    requires n <= |xs|
    ensures r.Some? ==> (k.table == Table.Target || OfFile(k) || (OfPart(k) && k.parent == T)) && k.ident == ident
    ensures r.Some? ==> !OfHeartbeat(k)
  {
    var i := if k.table == Table.Target then k.i else k.p0;
    match Entry(xs, n, copy, i)
    case None => None
    case Some(t) => TargetRow(ident, i, t, k)
  }

  /** A row that a message has once. */
  function OnceRow(table: Table, parent: Parent, ident: nat, row: Option<Payload>, k: Key): (r: Option<Payload>)
    ensures r.Some? ==> k == Key(table, parent, ident, 0, 0, 0, 0)
  {
    if k == Key(table, parent, ident, 0, 0, 0, 0) then row else None
  }

  function AssessmentRow(ident: nat, assessment: Option<Assessment>, k: Key): (r: Option<Payload>)
    ensures r.Some? ==> !OfHeartbeat(k)
    ensures r.Some? && k.table != Table.Assessment && k.table != Table.Impact && k.table != Table.Confidence
      ==> k.table == Table.Action
    ensures r.Some? ==> k.ident == ident
  {
    match assessment
    case None => None
    case Some(a) =>
      match k.table
      case Assessment => OnceRow(k.table, NoParent, ident, Some([]), k)
      case Impact => OnceRow(k.table, NoParent, ident, a.impact, k)
      case Confidence => OnceRow(k.table, NoParent, ident, a.confidence, k)
      case Action => ListRow(Key(k.table, NoParent, ident, 0, 0, 0, 0), a.actions, |a.actions|, true, k)
      case _ => None
  }

  /** Tool alerts store no copy of their last ident, correlation alerts do. */
  function KindRow(ident: nat, kind: AlertKind, k: Key): (r: Option<Payload>)
    ensures r.Some? ==> !OfHeartbeat(k)
    ensures r.Some? && k.table != Table.ToolAlert && k.table != Table.OverflowAlert && k.table != Table.CorrelationAlert
      ==> k.table == Table.Alertident
    ensures r.Some? ==> k.ident == ident
  {
    match kind
    case DefaultAlert => None
    case ToolAlert(row, idents) =>
      if k.table == Table.ToolAlert then OnceRow(k.table, NoParent, ident, Some(row), k)
      else ListRow(Key(Table.Alertident, T, ident, 0, 0, 0, 0), idents, |idents|, false, k)
    case OverflowAlert(row) => OnceRow(Table.OverflowAlert, NoParent, ident, Some(row), k)
    case CorrelationAlert(row, idents) =>
      if k.table == Table.CorrelationAlert then OnceRow(k.table, NoParent, ident, Some(row), k)
      else ListRow(Key(Table.Alertident, C, ident, 0, 0, 0, 0), idents, |idents|, true, k)
  }

  function ClassificationRow(ident: nat, classification: Option<Classification>, k: Key): (r: Option<Payload>)
    ensures r.Some? ==> k.ident == ident && (k.table == Table.Classification || k.table == Table.Reference)
    ensures r.Some? ==> !OfHeartbeat(k)
  {
    match classification
    case None => None
    case Some(c) =>
      if k.table == Table.Classification then OnceRow(k.table, NoParent, ident, Some(c.row), k)
      else ListRow(Key(Table.Reference, NoParent, ident, 0, 0, 0, 0), c.references, |c.references|, true, k)
  }

  /** The times, assessment and kind of an alert. */
  function HeadRow(ident: nat, a: Alert, k: Key): (r: Option<Payload>)
    ensures r.Some? ==> k.ident == ident && !OfPart(k) && !OfFile(k)
    ensures r.Some? ==> k.table != Table.Classification && k.table != Table.Reference && k.table != Table.AdditionalData
    ensures r.Some? ==> k.table != Table.Analyzer && k.table != Table.Source && k.table != Table.Target
    ensures r.Some? ==> !OfHeartbeat(k)
  {
    var t := k.table;
    if t == Table.Alert then OnceRow(t, NoParent, ident, Some(a.row), k)
    else if t == Table.CreateTime then OnceRow(t, A, ident, Some(a.createTime), k)
    else if t == Table.DetectTime then OnceRow(t, NoParent, ident, a.detectTime, k)
    else if t == Table.AnalyzerTime then OnceRow(t, A, ident, a.analyzerTime, k)
    else if t == Table.Assessment || t == Table.Impact || t == Table.Confidence || t == Table.Action then
      AssessmentRow(ident, a.assessment, k)
    else KindRow(ident, a.kind, k)
  }

  /** An alert: every key leads to at most one of its parts. */
  function AlertRow(ident: nat, a: Alert, k: Key): (r: Option<Payload>)
    ensures r.Some? ==> k.ident == ident && !OfHeartbeat(k)
  {
    var t := k.table;
    if t == Table.Target || OfFile(k) || (OfPart(k) && k.parent == T) then
      TargetsRow(ident, a.targets, |a.targets|, true, k)
    else if t == Table.Source || (OfPart(k) && k.parent == S) then
      SourcesRow(ident, a.sources, |a.sources|, true, k)
    else if t == Table.Analyzer || OfPart(k) then
      AnalyzersRow(A, ident, a.analyzers, |a.analyzers|, true, k)
    else if t == Table.Classification || t == Table.Reference then ClassificationRow(ident, a.classification, k)
    else if t == Table.AdditionalData then
      ListRow(Key(t, A, ident, 0, 0, 0, 0), a.additionalData, |a.additionalData|, true, k)
    else HeadRow(ident, a, k)
  }

  function HeartbeatRow(ident: nat, h: Heartbeat, k: Key): (r: Option<Payload>)
    ensures r.Some? ==> k.ident == ident && OfHeartbeat(k)
  {
    var t := k.table;
    if t == Table.Heartbeat then OnceRow(t, NoParent, ident, Some(h.row), k)
    else if t == Table.CreateTime then OnceRow(t, H, ident, Some(h.createTime), k)
    else if t == Table.AnalyzerTime then OnceRow(t, H, ident, h.analyzerTime, k)
    else if t == Table.AdditionalData then
      ListRow(Key(t, H, ident, 0, 0, 0, 0), h.additionalData, |h.additionalData|, true, k)
    else AnalyzersRow(H, ident, h.analyzers, |h.analyzers|, true, k)
  }

  /** The database holds exactly alert a under an ident, among rows of other messages. */
  ghost predicate HoldsAlert(rows: Rows, ident: nat, a: Alert) {
    forall k: Key :: k.ident == ident && !OfHeartbeat(k) ==> Row(rows, k) == AlertRow(ident, a, k)
  }

  ghost predicate HoldsHeartbeat(rows: Rows, ident: nat, h: Heartbeat) {
    forall k: Key :: k.ident == ident && OfHeartbeat(k) ==> Row(rows, k) == HeartbeatRow(ident, h, k)
  }

  /** No row of an alert, or of a heartbeat, has the ident. */
  ghost predicate FreeForAlert(rows: Rows, ident: nat) {
    forall k :: k in rows && k.ident == ident ==> OfHeartbeat(k)
  }

  ghost predicate FreeForHeartbeat(rows: Rows, ident: nat) {
    forall k :: k in rows && k.ident == ident ==> !OfHeartbeat(k)
  }

  /** The values that _parent_type can have in a table. */
  predicate Shaped(k: Key) {
    var t, p := k.table, k.parent;
    if t == Alertident then p == T || p == C
    else if t == Table.Analyzer || t == CreateTime || t == AnalyzerTime || t == AdditionalData then p == A || p == H
    else if t == Table.Node || t == Address || t == Table.Process || t == ProcessArg || t == ProcessEnv then
      p == A || p == H || p == S || p == T
    else if t == UserId then p == S || p == T || p == F
    else if OfPart(k) then p == S || p == T
    else p == NoParent
  }

  /** The key with the columns that its table lacks set to 0. The columns of user ids depend
      on whose they are. */
  function Trimmed(k: Key): Key {
    match k.table
    case Alertident | Analyzer | Reference | AdditionalData | Source | Target | Action => k.(p0 := 0, p1 := 0, p2 := 0)
    case Node | User | Process | Service | WebService | SnmpService => k.(p1 := 0, p2 := 0, i := 0)
    case Address | ProcessArg | ProcessEnv | WebServiceArg | File => k.(p1 := 0, p2 := 0)
    case UserId => if k.parent == F then k.(i := 0) else k.(p1 := 0, p2 := 0)
    case Inode => k.(p2 := 0, i := 0)
    case FileAccess | Linkage | Checksum => k.(p2 := 0)
    case Permission => k
    case _ => k.(p0 := 0, p1 := 0, p2 := 0, i := 0)
  }

  /** A key that a row of the database can have. */
  predicate WellKeyed(k: Key) { Shaped(k) && k == Trimmed(k) }
}
