/** What paths find: the elements of a message at a place, and the rows that the compiled
    conditions select from a database in which the message is stored. */
module Selection {
  import opened Options
  import opened Idmef
  import opened Join
  import opened Storage
  import Insert

  // Walking down a tree to a place whose indexes are all given.

  /** The element at a position of a list, or its last one for -1. */
  function ElementAt<X>(xs: seq<X>, index: Index): Option<X> {
    match index
    case Position(n) => if n == -1 && xs != [] then Some(xs[|xs| - 1]) else if 0 <= n < |xs| then Some(xs[n]) else None
    case _ => None
  }

  function FindInNode(node: Option<Node>, part: PartPlace): Option<Payload> {
    if node.None? then None
    else match part
      case NodePlace => Some(node.value.row)
      case AddressPlace(j) => ElementAt(node.value.addresses, j)
      case _ => None
  }

  function FindInUser(user: Option<User>, part: PartPlace): Option<Payload> {
    if user.None? then None
    else match part
      case UserPlace => Some(user.value.row)
      case UserIdPlace(j) => ElementAt(user.value.userIds, j)
      case _ => None
  }

  function FindInProcess(process: Option<Process>, part: PartPlace): Option<Payload> {
    if process.None? then None
    else match part
      case ProcessPlace => Some(process.value.row)
      case ArgPlace(j) => ElementAt(process.value.args, j)
      case EnvPlace(j) => ElementAt(process.value.env, j)
      case _ => None
  }

  function FindInService(service: Option<Service>, part: PartPlace): Option<Payload> {
    if service.None? then None
    else match part
      case ServicePlace => Some(service.value.row)
      case WebServicePlace => if service.value.kind.WebService? then Some(service.value.kind.row) else None
      case WebServiceArgPlace(j) =>
        if service.value.kind.WebService? then ElementAt(service.value.kind.args, j) else None
      case SnmpServicePlace => if service.value.kind.SnmpService? then Some(service.value.kind.row) else None
      case _ => None
  }

  function FindInParts(parts: Parts, part: PartPlace): Option<Payload> {
    match part
    case NodePlace => FindInNode(parts.node, part)
    case AddressPlace(_) => FindInNode(parts.node, part)
    case UserPlace => FindInUser(parts.user, part)
    case UserIdPlace(_) => FindInUser(parts.user, part)
    case ProcessPlace => FindInProcess(parts.process, part)
    case ArgPlace(_) => FindInProcess(parts.process, part)
    case EnvPlace(_) => FindInProcess(parts.process, part)
    case _ => FindInService(parts.service, part)
  }

  function FindInAnalyzers(xs: seq<Analyzer>, place: Place): Option<Payload> {
    match place
    case AnalyzerPlace(i) =>
      var x := ElementAt(xs, i);
      if x.None? then None else Some(x.value.row)
    case AnalyzerPart(i, part) =>
      var x := ElementAt(xs, i);
      if x.None? then None else FindInParts(Parts.Parts(x.value.node, None, x.value.process, None), part)
    case _ => None
  }

  function FindInSources(xs: seq<Source>, place: Place): Option<Payload> {
    match place
    case SourcePlace(i) =>
      var x := ElementAt(xs, i);
      if x.None? then None else Some(x.value.row)
    case SourcePart(i, part) =>
      var x := ElementAt(xs, i);
      if x.None? then None else FindInParts(x.value.parts, part)
    case _ => None
  }

  function FindInAccesses(xs: seq<FileAccess>, place: Place): Option<Payload> {
    match place
    case AccessUserPlace(_, _, x) =>
      var access := ElementAt(xs, x);
      if access.None? then None else Some(access.value.userId)
    case PermissionPlace(_, _, x, j) =>
      var access := ElementAt(xs, x);
      if access.None? then None else ElementAt(access.value.permissions, j)
    case _ => None
  }

  function FileAt(xs: seq<Target>, i: Index, f: Index): Option<File> {
    var x := ElementAt(xs, i);
    if x.None? then None else ElementAt(x.value.files, f)
  }

  function FindInFile(file: Option<File>, place: Place): Option<Payload> {
    if file.None? then None
    else match place
      case FilePlace(_, _) => Some(file.value.row)
      case LinkagePlace(_, _, j) => ElementAt(file.value.linkages, j)
      case InodePlace(_, _) => file.value.inode
      case ChecksumPlace(_, _, j) => ElementAt(file.value.checksums, j)
      case _ => FindInAccesses(file.value.accesses, place)
  }

  function FindInTargets(xs: seq<Target>, place: Place): Option<Payload> {
    match place
    case TargetPlace(i) =>
      var x := ElementAt(xs, i);
      if x.None? then None else Some(x.value.row)
    case TargetPart(i, part) =>
      var x := ElementAt(xs, i);
      if x.None? then None else FindInParts(x.value.parts, part)
    case FilePlace(i, f) => FindInFile(FileAt(xs, i, f), place)
    case LinkagePlace(i, f, _) => FindInFile(FileAt(xs, i, f), place)
    case InodePlace(i, f) => FindInFile(FileAt(xs, i, f), place)
    case ChecksumPlace(i, f, _) => FindInFile(FileAt(xs, i, f), place)
    case AccessUserPlace(i, f, _) => FindInFile(FileAt(xs, i, f), place)
    case PermissionPlace(i, f, _, _) => FindInFile(FileAt(xs, i, f), place)
    case _ => None
  }

  function FindInHead(a: Alert, place: Place): Option<Payload> {
    match place
    case CreateTimePlace => Some(a.createTime)
    case DetectTimePlace => a.detectTime
    case AnalyzerTimePlace => a.analyzerTime
    case ImpactPlace => if a.assessment.Some? then a.assessment.value.impact else None
    case ConfidencePlace => if a.assessment.Some? then a.assessment.value.confidence else None
    case ActionPlace(j) => if a.assessment.Some? then ElementAt(a.assessment.value.actions, j) else None
    case ToolAlertPlace => if a.kind.ToolAlert? then Some(a.kind.row) else None
    case ToolIdentPlace(j) => if a.kind.ToolAlert? then ElementAt(a.kind.idents, j) else None
    case CorrelationAlertPlace => if a.kind.CorrelationAlert? then Some(a.kind.row) else None
    case CorrelationIdentPlace(j) => if a.kind.CorrelationAlert? then ElementAt(a.kind.idents, j) else None
    case OverflowAlertPlace => if a.kind.OverflowAlert? then Some(a.kind.row) else None
    case ClassificationPlace => if a.classification.Some? then Some(a.classification.value.row) else None
    case ReferencePlace(j) => if a.classification.Some? then ElementAt(a.classification.value.references, j) else None
    case AdditionalDataPlace(j) => ElementAt(a.additionalData, j)
    case _ => None
  }

  /** The element of an alert at a place, if there is one. */
  function Find(a: Alert, place: Place): Option<Payload> {
    if place.AnalyzerPlace? || place.AnalyzerPart? then FindInAnalyzers(a.analyzers, place)
    else if place.SourcePlace? || place.SourcePart? then FindInSources(a.sources, place)
    else if place.TargetPlace? || place.TargetPart? || InFile(place) then FindInTargets(a.targets, place)
    else FindInHead(a, place)
  }

  /** The same for the places that heartbeats have. */
  function FindInHeartbeat(h: Heartbeat, place: Place): Option<Payload> {
    match place
    case CreateTimePlace => Some(h.createTime)
    case AnalyzerTimePlace => h.analyzerTime
    case AdditionalDataPlace(j) => ElementAt(h.additionalData, j)
    case _ => FindInAnalyzers(h.analyzers, place)
  }

  // The places that a path without all indexes stands for, and the rows at them.

  /** A position for a list whose index is not given, or else the index itself. */
  predicate Fits(c: Index, index: Index) {
    match index
    case Undefined => c.Position? && c.n != -1
    case _ => c == index
  }

  predicate PartInstance(c: PartPlace, part: PartPlace) {
    match part
    case AddressPlace(j) => c.AddressPlace? && Fits(c.j, j)
    case UserIdPlace(j) => c.UserIdPlace? && Fits(c.j, j)
    case ArgPlace(j) => c.ArgPlace? && Fits(c.j, j)
    case EnvPlace(j) => c.EnvPlace? && Fits(c.j, j)
    case WebServiceArgPlace(j) => c.WebServiceArgPlace? && Fits(c.j, j)
    case _ => c == part
  }

  /** The places that a place stands for: all positions of the lists without an index. */
  predicate Instance(c: Place, place: Place) {
    match place
    case AnalyzerPlace(i) => c.AnalyzerPlace? && Fits(c.i, i)
    case AnalyzerPart(i, part) => c.AnalyzerPart? && Fits(c.i, i) && PartInstance(c.part, part)
    case AdditionalDataPlace(j) => c.AdditionalDataPlace? && Fits(c.j, j)
    case ActionPlace(j) => c.ActionPlace? && Fits(c.j, j)
    case ToolIdentPlace(j) => c.ToolIdentPlace? && Fits(c.j, j)
    case CorrelationIdentPlace(j) => c.CorrelationIdentPlace? && Fits(c.j, j)
    case ReferencePlace(j) => c.ReferencePlace? && Fits(c.j, j)
    case SourcePlace(i) => c.SourcePlace? && Fits(c.i, i)
    case SourcePart(i, part) => c.SourcePart? && Fits(c.i, i) && PartInstance(c.part, part)
    case TargetPlace(i) => c.TargetPlace? && Fits(c.i, i)
    case TargetPart(i, part) => c.TargetPart? && Fits(c.i, i) && PartInstance(c.part, part)
    case FilePlace(i, f) => c.FilePlace? && Fits(c.i, i) && Fits(c.f, f)
    case LinkagePlace(i, f, j) => c.LinkagePlace? && Fits(c.i, i) && Fits(c.f, f) && Fits(c.j, j)
    case InodePlace(i, f) => c.InodePlace? && Fits(c.i, i) && Fits(c.f, f)
    case ChecksumPlace(i, f, j) => c.ChecksumPlace? && Fits(c.i, i) && Fits(c.f, f) && Fits(c.j, j)
    case AccessUserPlace(i, f, x) => c.AccessUserPlace? && Fits(c.i, i) && Fits(c.f, f) && Fits(c.x, x)
    case PermissionPlace(i, f, x, j) =>
      c.PermissionPlace? && Fits(c.i, i) && Fits(c.f, f) && Fits(c.x, x) && Fits(c.j, j)
    case _ => c == place
  }

  function Number(index: Index): int { if index.Position? then index.n else 0 }

  function PartKey(own: Key, part: PartPlace): Key { own.(table := PartTable(part), i := Number(PartIndex(part))) }

  /** The key of the row for a place whose indexes are all given. */
  function KeyOf(top: Parent, ident: nat, place: Place): Key {
    match place
    case CreateTimePlace => Key(CreateTime, top, ident, 0, 0, 0, 0)
    case AnalyzerTimePlace => Key(AnalyzerTime, top, ident, 0, 0, 0, 0)
    case AnalyzerPlace(i) => Key(Table.Analyzer, top, ident, 0, 0, 0, Number(i))
    case AnalyzerPart(i, part) => PartKey(Key(Table.Analyzer, top, ident, Number(i), 0, 0, 0), part)
    case AdditionalDataPlace(j) => Key(AdditionalData, top, ident, 0, 0, 0, Number(j))
    case DetectTimePlace => Key(DetectTime, NoParent, ident, 0, 0, 0, 0)
    case ImpactPlace => Key(Impact, NoParent, ident, 0, 0, 0, 0)
    case ConfidencePlace => Key(Confidence, NoParent, ident, 0, 0, 0, 0)
    case ActionPlace(j) => Key(Action, NoParent, ident, 0, 0, 0, Number(j))
    case ToolAlertPlace => Key(Table.ToolAlert, NoParent, ident, 0, 0, 0, 0)
    case ToolIdentPlace(j) => Key(Alertident, T, ident, 0, 0, 0, Number(j))
    case CorrelationAlertPlace => Key(Table.CorrelationAlert, NoParent, ident, 0, 0, 0, 0)
    case CorrelationIdentPlace(j) => Key(Alertident, C, ident, 0, 0, 0, Number(j))
    case OverflowAlertPlace => Key(Table.OverflowAlert, NoParent, ident, 0, 0, 0, 0)
    case ClassificationPlace => Key(Table.Classification, NoParent, ident, 0, 0, 0, 0)
    case ReferencePlace(j) => Key(Reference, NoParent, ident, 0, 0, 0, Number(j))
    case SourcePlace(i) => Key(Table.Source, NoParent, ident, 0, 0, 0, Number(i))
    case SourcePart(i, part) => PartKey(Key(Table.Source, S, ident, Number(i), 0, 0, 0), part)
    case TargetPlace(i) => Key(Table.Target, NoParent, ident, 0, 0, 0, Number(i))
    case TargetPart(i, part) => PartKey(Key(Table.Target, T, ident, Number(i), 0, 0, 0), part)
    case FilePlace(i, f) => Key(Table.File, NoParent, ident, Number(i), 0, 0, Number(f))
    case LinkagePlace(i, f, j) => Key(Linkage, NoParent, ident, Number(i), Number(f), 0, Number(j))
    case InodePlace(i, f) => Key(Inode, NoParent, ident, Number(i), Number(f), 0, 0)
    case ChecksumPlace(i, f, j) => Key(Checksum, NoParent, ident, Number(i), Number(f), 0, Number(j))
    case AccessUserPlace(i, f, x) => Key(UserId, F, ident, Number(i), Number(f), Number(x), 0)
    case PermissionPlace(i, f, x, j) => Key(Permission, NoParent, ident, Number(i), Number(f), Number(x), Number(j))
  }

  function FixedIndex(index: Index, n: int): Index { if index.Undefined? then Position(n) else index }

  function FixedPart(part: PartPlace, n: int): PartPlace {
    match part
    case AddressPlace(j) => AddressPlace(FixedIndex(j, n))
    case UserIdPlace(j) => UserIdPlace(FixedIndex(j, n))
    case ArgPlace(j) => ArgPlace(FixedIndex(j, n))
    case EnvPlace(j) => EnvPlace(FixedIndex(j, n))
    case WebServiceArgPlace(j) => WebServiceArgPlace(FixedIndex(j, n))
    case _ => part
  }

  /** The place with the missing indexes taken from a row. */
  function Fixed(place: Place, k: Key): Place {
    match place
    case AnalyzerPlace(i) => AnalyzerPlace(FixedIndex(i, k.i))
    case AnalyzerPart(i, part) => AnalyzerPart(FixedIndex(i, k.p0), FixedPart(part, k.i))
    case AdditionalDataPlace(j) => AdditionalDataPlace(FixedIndex(j, k.i))
    case ActionPlace(j) => ActionPlace(FixedIndex(j, k.i))
    case ToolIdentPlace(j) => ToolIdentPlace(FixedIndex(j, k.i))
    case CorrelationIdentPlace(j) => CorrelationIdentPlace(FixedIndex(j, k.i))
    case ReferencePlace(j) => ReferencePlace(FixedIndex(j, k.i))
    case SourcePlace(i) => SourcePlace(FixedIndex(i, k.i))
    case SourcePart(i, part) => SourcePart(FixedIndex(i, k.p0), FixedPart(part, k.i))
    case TargetPlace(i) => TargetPlace(FixedIndex(i, k.i))
    case TargetPart(i, part) => TargetPart(FixedIndex(i, k.p0), FixedPart(part, k.i))
    case FilePlace(i, f) => FilePlace(FixedIndex(i, k.p0), FixedIndex(f, k.i))
    case LinkagePlace(i, f, j) => LinkagePlace(FixedIndex(i, k.p0), FixedIndex(f, k.p1), FixedIndex(j, k.i))
    case InodePlace(i, f) => InodePlace(FixedIndex(i, k.p0), FixedIndex(f, k.p1))
    case ChecksumPlace(i, f, j) => ChecksumPlace(FixedIndex(i, k.p0), FixedIndex(f, k.p1), FixedIndex(j, k.i))
    case AccessUserPlace(i, f, x) => AccessUserPlace(FixedIndex(i, k.p0), FixedIndex(f, k.p1), FixedIndex(x, k.p2))
    case PermissionPlace(i, f, x, j) =>
      PermissionPlace(FixedIndex(i, k.p0), FixedIndex(f, k.p1), FixedIndex(x, k.p2), FixedIndex(j, k.i))
    case _ => place
  }

  // A place denotes the rows at its instances, one for each.

  lemma PartInstances(part: PartPlace, own: Key, k: Key, c: PartPlace)
    requires PartIndexed(part) && own.p1 == own.p2 == own.i == 0
    ensures PartDenotes(part, own, k) ==> PartInstance(FixedPart(part, k.i), part) && k == PartKey(own, FixedPart(part, k.i))
    ensures PartInstance(c, part) && k == PartKey(own, c) ==> PartDenotes(part, own, k) && c == FixedPart(part, k.i)
  {}

  lemma UnderInstances(t: Table, parent: Parent, ident: nat, i: Index, part: PartPlace, k: Key, ci: Index, c: PartPlace)
    requires Indexed(i) && PartIndexed(part)
    ensures PartDenotes(part, Key(k.table, parent, ident, k.p0, 0, 0, 0), k) && At(i, k.p0) ==>
      && Fits(FixedIndex(i, k.p0), i) && PartInstance(FixedPart(part, k.i), part)
      && k == PartKey(Key(t, parent, ident, Number(FixedIndex(i, k.p0)), 0, 0, 0), FixedPart(part, k.i))
    ensures Fits(ci, i) && PartInstance(c, part) && k == PartKey(Key(t, parent, ident, Number(ci), 0, 0, 0), c) ==>
      && PartDenotes(part, Key(k.table, parent, ident, k.p0, 0, 0, 0), k) && At(i, k.p0)
      && ci == FixedIndex(i, k.p0) && c == FixedPart(part, k.i)
  {
    hide PartInstance, PartDenotes, FixedPart, PartTable, PartIndex;
    PartInstances(part, Key(k.table, parent, ident, k.p0, 0, 0, 0), k, c);
  }

  lemma FileInstances(top: Parent, place: Place, ident: nat, k: Key, c: Place)
    requires PlaceIndexed(place) && InFile(place)
    ensures Denotes(top, ident, place, k) ==> Instance(Fixed(place, k), place) && k == KeyOf(top, ident, Fixed(place, k))
    ensures Instance(c, place) && k == KeyOf(top, ident, c) ==> Denotes(top, ident, place, k) && c == Fixed(place, k)
  {}

  predicate InPart(place: Place) { place.AnalyzerPart? || place.SourcePart? || place.TargetPart? }

  lemma PartPlaceInstances(top: Parent, place: Place, ident: nat, k: Key, c: Place)
    requires PlaceIndexed(place) && InPart(place)
    ensures Denotes(top, ident, place, k) ==> Instance(Fixed(place, k), place) && k == KeyOf(top, ident, Fixed(place, k))
    ensures Instance(c, place) && k == KeyOf(top, ident, c) ==> Denotes(top, ident, place, k) && c == Fixed(place, k)
  {
    hide PartInstance, PartDenotes, FixedPart, PartKey, FixedIndex, Fits, At, PartIndexed;
    var i, part := place.i, place.part;
    var ci, cp := if InPart(c) then c.i else i, if InPart(c) then c.part else part;
    if place.AnalyzerPart? {
      UnderInstances(Table.Analyzer, top, ident, i, part, k, ci, cp);
    } else if place.SourcePart? {
      UnderInstances(Table.Source, S, ident, i, part, k, ci, cp);
    } else {
      UnderInstances(Table.Target, T, ident, i, part, k, ci, cp);
    }
  }

  lemma ListedInstances(top: Parent, place: Place, ident: nat, k: Key, c: Place)
    requires PlaceIndexed(place) && Listed(place)
    ensures Denotes(top, ident, place, k) ==> Instance(Fixed(place, k), place) && k == KeyOf(top, ident, Fixed(place, k))
    ensures Instance(c, place) && k == KeyOf(top, ident, c) ==> Denotes(top, ident, place, k) && c == Fixed(place, k)
  {
    hide *;
    ListedFixed(top, place, ident, k);
    if Instance(c, place) && k == KeyOf(top, ident, c) { ListedInstance(top, place, ident, k, c); }
  }

  lemma ListedFixed(top: Parent, place: Place, ident: nat, k: Key)
    requires PlaceIndexed(place) && Listed(place)
    ensures Denotes(top, ident, place, k) ==> Instance(Fixed(place, k), place) && k == KeyOf(top, ident, Fixed(place, k))
  {}

  lemma ListedInstance(top: Parent, place: Place, ident: nat, k: Key, c: Place)
    requires PlaceIndexed(place) && Listed(place) && Instance(c, place) && k == KeyOf(top, ident, c)
    ensures Denotes(top, ident, place, k) && c == Fixed(place, k)
  {}

  lemma OtherInstances(top: Parent, place: Place, ident: nat, k: Key, c: Place)
    requires PlaceIndexed(place) && !InFile(place) && !InPart(place) && !Listed(place)
    ensures Denotes(top, ident, place, k) ==> Instance(Fixed(place, k), place) && k == KeyOf(top, ident, Fixed(place, k))
    ensures Instance(c, place) && k == KeyOf(top, ident, c) ==> Denotes(top, ident, place, k) && c == Fixed(place, k)
  {}

  /** Fixed gives, for each row that a place denotes, the one instance that it is the row of. */
  lemma PlaceInstances(top: Parent, place: Place, ident: nat, k: Key, c: Place)
    requires PlaceIndexed(place)
    ensures Denotes(top, ident, place, k) ==> Instance(Fixed(place, k), place) && k == KeyOf(top, ident, Fixed(place, k))
    ensures Instance(c, place) && k == KeyOf(top, ident, c) ==> Denotes(top, ident, place, k) && c == Fixed(place, k)
  {
    hide *;
    if InFile(place) {
      FileInstances(top, place, ident, k, c);
    } else if InPart(place) {
      PartPlaceInstances(top, place, ident, k, c);
    } else if Listed(place) {
      ListedInstances(top, place, ident, k, c);
    } else {
      OtherInstances(top, place, ident, k, c);
    }
  }

  // What is stored under the key of a place is what is found there.

  predicate Given(index: Index) { index.Position? }

  predicate PartGiven(part: PartPlace) {
    match part
    case AddressPlace(j) => Given(j)
    case UserIdPlace(j) => Given(j)
    case ArgPlace(j) => Given(j)
    case EnvPlace(j) => Given(j)
    case WebServiceArgPlace(j) => Given(j)
    case _ => true
  }

  /** Whether all indexes of a place are given. */
  predicate PlaceGiven(place: Place) {
    match place
    case AnalyzerPlace(i) => Given(i)
    case AnalyzerPart(i, part) => Given(i) && PartGiven(part)
    case AdditionalDataPlace(j) => Given(j)
    case ActionPlace(j) => Given(j)
    case ToolIdentPlace(j) => Given(j)
    case CorrelationIdentPlace(j) => Given(j)
    case ReferencePlace(j) => Given(j)
    case SourcePlace(i) => Given(i)
    case SourcePart(i, part) => Given(i) && PartGiven(part)
    case TargetPlace(i) => Given(i)
    case TargetPart(i, part) => Given(i) && PartGiven(part)
    case FilePlace(i, f) => Given(i) && Given(f)
    case LinkagePlace(i, f, j) => Given(i) && Given(f) && Given(j)
    case InodePlace(i, f) => Given(i) && Given(f)
    case ChecksumPlace(i, f, j) => Given(i) && Given(f) && Given(j)
    case AccessUserPlace(i, f, x) => Given(i) && Given(f) && Given(x)
    case PermissionPlace(i, f, x, j) => Given(i) && Given(f) && Given(x) && Given(j)
    case _ => true
  }

  predicate PartLastStored(part: PartPlace) {
    match part
    case ArgPlace(j) => j != Position(-1)
    case EnvPlace(j) => j != Position(-1)
    case _ => true
  }

  /** False for the last element of the lists that are stored without a copy of it. */
  predicate LastStored(place: Place) {
    match place
    case AnalyzerPart(_, part) => PartLastStored(part)
    case SourcePart(_, part) => PartLastStored(part)
    case TargetPart(_, part) => PartLastStored(part)
    case ToolIdentPlace(j) => j != Position(-1)
    case _ => true
  }

  function StoredIf(stored: bool, found: Option<Payload>): Option<Payload> { if stored then found else None }

  lemma PartStored(own: Key, parts: Parts, part: PartPlace)
    requires PartGiven(part) && own.i == 0
    ensures PartsRow(own, parts, PartKey(own, part)) == StoredIf(PartLastStored(part), FindInParts(parts, part))
  {}

  lemma AnalyzersStored(top: Parent, ident: nat, xs: seq<Analyzer>, c: Place)
    requires PlaceGiven(c) && (c.AnalyzerPlace? || c.AnalyzerPart?)
    ensures AnalyzersRow(top, ident, xs, |xs|, true, KeyOf(top, ident, c)) == StoredIf(LastStored(c), FindInAnalyzers(xs, c))
  {
    hide FindInParts, PartLastStored, PartGiven, PartsRow;
    if c.AnalyzerPart? {
      var x := ElementAt(xs, c.i);
      if x.Some? {
        var own := Key(Table.Analyzer, top, ident, Number(c.i), 0, 0, 0);
        PartStored(own, Parts.Parts(x.value.node, None, x.value.process, None), c.part);
        AnalyzerParts(top, ident, Number(c.i), x.value, c.part);
      }
    }
  }

  lemma AnalyzerParts(top: Parent, ident: nat, i: int, a: Analyzer, part: PartPlace)
    ensures var own := Key(Table.Analyzer, top, ident, i, 0, 0, 0);
      AnalyzerRow(top, ident, i, a, PartKey(own, part))
        == PartsRow(own, Parts.Parts(a.node, None, a.process, None), PartKey(own, part))
  {
    hide NodeRow;
  }

  lemma SourcesStored(ident: nat, xs: seq<Source>, c: Place)
    requires PlaceGiven(c) && (c.SourcePlace? || c.SourcePart?)
    ensures SourcesRow(ident, xs, |xs|, true, KeyOf(A, ident, c)) == StoredIf(LastStored(c), FindInSources(xs, c))
  {
    hide FindInParts, PartLastStored, PartGiven, PartsRow;
    if c.SourcePart? {
      var x := ElementAt(xs, c.i);
      if x.Some? { PartStored(Key(Table.Source, S, ident, Number(c.i), 0, 0, 0), x.value.parts, c.part); }
    }
  }

  lemma TargetsStored(ident: nat, xs: seq<Target>, c: Place)
    requires PlaceGiven(c) && (c.TargetPlace? || c.TargetPart?)
    ensures TargetsRow(ident, xs, |xs|, true, KeyOf(A, ident, c)) == StoredIf(LastStored(c), FindInTargets(xs, c))
  {
    hide FindInParts, PartLastStored, PartGiven, PartsRow;
    if c.TargetPart? {
      var x := ElementAt(xs, c.i);
      if x.Some? { PartStored(Key(Table.Target, T, ident, Number(c.i), 0, 0, 0), x.value.parts, c.part); }
    }
  }

  lemma FileStored(ident: nat, i: int, f: int, file: File, c: Place)
    requires PlaceGiven(c) && InFile(c) && Number(c.i) == i && Number(c.f) == f
    ensures FileRow(ident, i, f, file, KeyOf(A, ident, c)) == FindInFile(Some(file), c)
  {}

  /** The columns of the rows in a file. */
  lemma FileColumns(ident: nat, c: Place)
    requires PlaceGiven(c) && InFile(c)
    ensures var k := KeyOf(A, ident, c);
      && OfFile(k) && k.p0 == Number(c.i) && Number(c.f) == (if k.table == Table.File then k.i else k.p1)
      && c.i.Position? && c.f.Position? && k.table != Table.Target
    ensures forall xs :: FindInTargets(xs, c) == FindInFile(FileAt(xs, c.i, c.f), c)
  {}

  lemma FilesStored(ident: nat, xs: seq<Target>, c: Place)
    requires PlaceGiven(c) && InFile(c)
    ensures TargetsRow(ident, xs, |xs|, true, KeyOf(A, ident, c)) == FindInTargets(xs, c)
  {
    hide FileRow, FindInFile, FindInTargets, KeyOf, OfFile, PlaceGiven;
    FileColumns(ident, c);
    var file := FileAt(xs, c.i, c.f);
    if file.Some? {
      FileStored(ident, Number(c.i), Number(c.f), file.value, c);
    } else {
      FindNoFile(c);
    }
  }

  lemma FindNoFile(c: Place)
    ensures FindInFile(None, c) == None
  {}

  lemma HeadStored(ident: nat, a: Alert, c: Place)
    requires PlaceGiven(c) && !InFile(c) && !InPart(c) && !c.AnalyzerPlace? && !c.SourcePlace? && !c.TargetPlace?
    ensures AlertRow(ident, a, KeyOf(A, ident, c)) == StoredIf(LastStored(c), FindInHead(a, c))
  {}

  /** Which of the lists of an alert the row of a place belongs to. */
  lemma RowOfPlace(ident: nat, a: Alert, c: Place)
    ensures var k, r := KeyOf(A, ident, c), AlertRow(ident, a, KeyOf(A, ident, c));
      if c.AnalyzerPlace? || c.AnalyzerPart? then r == AnalyzersRow(A, ident, a.analyzers, |a.analyzers|, true, k)
      else if c.SourcePlace? || c.SourcePart? then r == SourcesRow(ident, a.sources, |a.sources|, true, k)
      else if c.TargetPlace? || c.TargetPart? || InFile(c) then r == TargetsRow(ident, a.targets, |a.targets|, true, k)
      else true
  {
    hide AnalyzersRow, SourcesRow, TargetsRow, ClassificationRow, ListRow, HeadRow;
  }

  /** Under the key of a place is stored what is found there, except for the last elements of
      three kinds of list. */
  lemma FoundIsStored(ident: nat, a: Alert, c: Place)
    requires PlaceGiven(c)
    ensures AlertRow(ident, a, KeyOf(A, ident, c)) == StoredIf(LastStored(c), Find(a, c))
  {
    hide PlaceGiven, FindInAnalyzers, FindInSources, FindInTargets, FindInHead,
      AnalyzersRow, SourcesRow, TargetsRow, AlertRow, KeyOf;
    RowOfPlace(ident, a, c);
    if c.AnalyzerPlace? || c.AnalyzerPart? {
      AnalyzersStored(A, ident, a.analyzers, c);
    } else if c.SourcePlace? || c.SourcePart? {
      SourcesStored(ident, a.sources, c);
    } else if c.TargetPlace? || c.TargetPart? {
      TargetsStored(ident, a.targets, c);
    } else if InFile(c) {
      FilesStored(ident, a.targets, c);
    } else {
      HeadStored(ident, a, c);
    }
  }

  lemma FoundIsStoredInHeartbeat(ident: nat, h: Heartbeat, c: Place)
    requires PlaceGiven(c) && Common(c)
    ensures HeartbeatRow(ident, h, KeyOf(H, ident, c)) == StoredIf(LastStored(c), FindInHeartbeat(h, c))
  {
    hide FindInAnalyzers, AnalyzersRow;
    if c.AnalyzerPlace? || c.AnalyzerPart? { AnalyzersStored(H, ident, h.analyzers, c); }
  }

  // Selecting from a database that holds the message.

  lemma PartInstanceGiven(c: PartPlace, part: PartPlace)
    requires PartIndexed(part) && PartInstance(c, part)
    ensures PartGiven(c) && PartLastStored(c) == PartLastStored(part)
  {}

  lemma InstanceGiven(c: Place, place: Place)
    requires PlaceIndexed(place) && Instance(c, place)
    ensures PlaceGiven(c) && LastStored(c) == LastStored(place)
  {
    hide PartIndexed, PartInstance, PartGiven, PartLastStored;
    if InPart(place) { PartInstanceGiven(c.part, place.part); }
  }

  /** A key that some row can have, for all rows. */
  ghost predicate AllWellKeyed(rows: Rows) { forall k :: k in rows ==> WellKeyed(k) }

  /** A row of the database that the compiled path selects for a message. */
  ghost predicate Chosen(rows: Rows, top: Table, ident: nat, place: Place, k: Key) {
    k in rows && Selected(PathTo(top, place), ident, k)
  }

  /** The key belongs to an element of the alert that the path stands for. */
  ghost predicate FoundAt(a: Alert, ident: nat, place: Place, k: Key) {
    exists c :: Instance(c, place) && KeyOf(A, ident, c) == k && Find(a, c).Some?
  }

  ghost predicate FoundInHeartbeatAt(h: Heartbeat, ident: nat, place: Place, k: Key) {
    exists c :: Instance(c, place) && KeyOf(H, ident, c) == k && FindInHeartbeat(h, c).Some?
  }

  lemma KeyOfAlert(ident: nat, c: Place)
    ensures KeyOf(A, ident, c).ident == ident && !OfHeartbeat(KeyOf(A, ident, c))
  {}

  lemma KeyOfHeartbeat(ident: nat, c: Place)
    requires Common(c)
    ensures KeyOf(H, ident, c).ident == ident && OfHeartbeat(KeyOf(H, ident, c))
  {}

  lemma InstanceRow(rows: Rows, ident: nat, a: Alert, place: Place, c: Place)
    requires HoldsAlert(rows, ident, a) && PlaceIndexed(place) && Instance(c, place)
    ensures Row(rows, KeyOf(A, ident, c)) == StoredIf(LastStored(place), Find(a, c))
  {
    hide Instance, KeyOf, Find, AlertRow, OfHeartbeat, PlaceIndexed, PlaceGiven, LastStored;
    InstanceGiven(c, place);
    FoundIsStored(ident, a, c);
    KeyOfAlert(ident, c);
  }

  lemma CommonInstance(c: Place, place: Place)
    requires Common(place)
    ensures !place.PermissionPlace? && (Instance(c, place) ==> Common(c))
  {}

  lemma HeartbeatInstanceRow(rows: Rows, ident: nat, h: Heartbeat, place: Place, c: Place)
    requires HoldsHeartbeat(rows, ident, h) && PlaceIndexed(place) && Common(place) && Instance(c, place)
    ensures Row(rows, KeyOf(H, ident, c)) == StoredIf(LastStored(place), FindInHeartbeat(h, c))
  {
    hide Instance, KeyOf, FindInHeartbeat, HeartbeatRow, OfHeartbeat, PlaceIndexed, PlaceGiven, LastStored, Common;
    CommonInstance(c, place);
    InstanceGiven(c, place);
    FoundIsStoredInHeartbeat(ident, h, c);
    KeyOfHeartbeat(ident, c);
  }

  /** What a place denotes among the rows is what it finds in the alert. */
  lemma FoundDenoted(rows: Rows, ident: nat, a: Alert, place: Place, k: Key)
    requires HoldsAlert(rows, ident, a) && PlaceIndexed(place)
    ensures k in rows && Denotes(A, ident, place, k) <==> LastStored(place) && FoundAt(a, ident, place, k)
    ensures forall c :: Instance(c, place) && KeyOf(A, ident, c) == k && k in rows ==> Find(a, c) == Some(rows[k])
  {
    hide Denotes, Instance, KeyOf, Find, Fixed, AlertRow, OfHeartbeat, PlaceIndexed, LastStored, HoldsAlert;
    forall c | Instance(c, place) && KeyOf(A, ident, c) == k
      ensures Row(rows, k) == StoredIf(LastStored(place), Find(a, c))
      ensures Denotes(A, ident, place, k)
    {
      InstanceRow(rows, ident, a, place, c);
      PlaceInstances(A, place, ident, k, c);
    }
    PlaceInstances(A, place, ident, k, place);
  }

  /** In a database that holds an alert among any other messages, a path selects one row for
      each element that it stands for, and no others; if it asks for the last element of a list
      that is stored without a copy of it, it selects nothing. */
  lemma JoinFinds(rows: Rows, ident: nat, a: Alert, place: Place, k: Key)
    requires AllWellKeyed(rows) && HoldsAlert(rows, ident, a)
    requires PlaceIndexed(place) && !place.PermissionPlace?
    ensures Chosen(rows, Table.Alert, ident, place, k) <==> LastStored(place) && FoundAt(a, ident, place, k)
    ensures forall c :: Instance(c, place) && KeyOf(A, ident, c) == k && k in rows ==> Find(a, c) == Some(rows[k])
  {
    hide WellKeyed, Selected, PathTo, Denotes, Instance, KeyOf, Find, FoundAt, PlaceIndexed, LastStored, HoldsAlert;
    FoundDenoted(rows, ident, a, place, k);
    if k in rows { JoinExact(place, ident, k); }
  }

  lemma JoinFindsInHeartbeat(rows: Rows, ident: nat, h: Heartbeat, place: Place, k: Key)
    requires AllWellKeyed(rows) && HoldsHeartbeat(rows, ident, h)
    requires PlaceIndexed(place) && Common(place)
    ensures Chosen(rows, Table.Heartbeat, ident, place, k) <==> LastStored(place) && FoundInHeartbeatAt(h, ident, place, k)
    ensures forall c :: Instance(c, place) && KeyOf(H, ident, c) == k && k in rows ==> FindInHeartbeat(h, c) == Some(rows[k])
  {
    hide WellKeyed, Selected, PathTo, Denotes, Instance, KeyOf, FindInHeartbeat, Fixed, HeartbeatRow, OfHeartbeat,
      PlaceIndexed, LastStored, HoldsHeartbeat, Common;
    CommonInstance(place, place);
    forall c | Instance(c, place) && KeyOf(H, ident, c) == k
      ensures Row(rows, k) == StoredIf(LastStored(place), FindInHeartbeat(h, c))
      ensures Denotes(H, ident, place, k)
    {
      HeartbeatInstanceRow(rows, ident, h, place, c);
      PlaceInstances(H, place, ident, k, c);
    }
    if k in rows {
      JoinExact(place, ident, k);
      PlaceInstances(H, place, ident, k, place);
    }
  }

  // Paths to the permissions of a file access, which lose the index of the access.

  /** The path selects the row of each element that it stands for, and no other row. */
  ghost predicate Exact(rows: Rows, ident: nat, a: Alert, place: Place) {
    forall k :: Chosen(rows, Table.Alert, ident, place, k) <==> FoundAt(a, ident, place, k)
  }

  /** Whether the m-th access of a file has a permission at an index. */
  predicate Permitted(a: Alert, i: Index, f: Index, m: int, j: Index) {
    var file := FileAt(a.targets, i, f);
    file.Some? && 0 <= m < |file.value.accesses| && ElementAt(file.value.accesses[m].permissions, j).Some?
  }

  predicate LastAccess(a: Alert, i: Index, f: Index, m: int) {
    var file := FileAt(a.targets, i, f);
    file.Some? && m == |file.value.accesses| - 1
  }

  /** In the files and at the positions that the path asks for, only accesses that it asks for
      have a permission, and none of these is the last of its file. */
  ghost predicate OnlyThere(a: Alert, i: Index, f: Index, x: Index, j: Index) {
    forall ci, cf, cj, m :: Fits(ci, i) && Fits(cf, f) && Fits(cj, j) && Permitted(a, ci, cf, m, cj) ==>
      At(x, m) && !LastAccess(a, ci, cf, m)
  }

  /** The permission stored under an index of accesses, -1 being the copy of the last one. */
  lemma PermissionRow(rows: Rows, ident: nat, a: Alert, i: Index, f: Index, n: int, j: Index)
    requires HoldsAlert(rows, ident, a) && Given(i) && Given(f) && Given(j)
    ensures Row(rows, KeyOf(A, ident, PermissionPlace(i, f, Position(n), j))).Some? <==>
      (exists m :: Permitted(a, i, f, m, j) && (n == m || (n == -1 && LastAccess(a, i, f, m))))
  {
    var c := PermissionPlace(i, f, Position(n), j);
    hide KeyOf, AlertRow, OfHeartbeat, FileAt;
    FoundIsStored(ident, a, c);
    KeyOfAlert(ident, c);
    var file := FileAt(a.targets, i, f);
    if file.Some? {
      var m := if n == -1 then |file.value.accesses| - 1 else n;
      assert Find(a, c).Some? <==> Permitted(a, i, f, m, j);
    }
  }

  /** A row that is selected without being asked for. */
  predicate Surplus(i: Index, f: Index, x: Index, j: Index, p0: int, p1: int, p2: int, n: int) {
    At(i, p0) && At(f, p1) && !At(x, p2) && At(j, n)
  }

  function PermissionAt(p0: int, p1: int, p2: int, n: int): Place {
    PermissionPlace(Position(p0), Position(p1), Position(p2), Position(n))
  }

  /** The rows of permissions that a path selects without standing for them. */
  lemma SurplusPermission(i: Index, f: Index, x: Index, j: Index, ident: nat, k: Key)
    requires Indexed(i) && Indexed(f) && Indexed(x) && Indexed(j) && WellKeyed(k)
    ensures var place := PermissionPlace(i, f, x, j);
      && (Denotes(A, ident, place, k) ==> Selected(PathTo(Table.Alert, place), ident, k))
      && (Selected(PathTo(Table.Alert, place), ident, k) && !Denotes(A, ident, place, k) <==>
            k == KeyOf(A, ident, PermissionAt(k.p0, k.p1, k.p2, k.i)) && Surplus(i, f, x, j, k.p0, k.p1, k.p2, k.i))
  {
    hide Selected, PathTo, WellKeyed, Indexed;
    PermissionsSelected(i, f, x, j, ident, k);
  }

  /** No row is surplus just when only accesses that are asked for, and not last, have such a
      permission. */
  lemma NoSurplus(rows: Rows, ident: nat, a: Alert, i: Index, f: Index, x: Index, j: Index)
    requires HoldsAlert(rows, ident, a)
    requires Indexed(i) && Indexed(f) && Indexed(x) && Indexed(j)
    ensures (forall p0, p1, p2, n :: Surplus(i, f, x, j, p0, p1, p2, n) ==>
               KeyOf(A, ident, PermissionAt(p0, p1, p2, n)) !in rows)
      <==> OnlyThere(a, i, f, x, j)
  {
    hide KeyOf, HoldsAlert, Permitted, LastAccess, Indexed, Fits, At;
    if OnlyThere(a, i, f, x, j) {
      forall p0, p1, p2, n | Surplus(i, f, x, j, p0, p1, p2, n)
        ensures KeyOf(A, ident, PermissionAt(p0, p1, p2, n)) !in rows
      {
        Placed(i, f, j, p0, p1, n);
        PermissionRow(rows, ident, a, Position(p0), Position(p1), p2, Position(n));
      }
    } else {
      var ci, cf, cj, m :| Fits(ci, i) && Fits(cf, f) && Fits(cj, j) && Permitted(a, ci, cf, m, cj)
        && !(At(x, m) && !LastAccess(a, ci, cf, m));
      FitsGiven(ci, i);
      FitsGiven(cf, f);
      FitsGiven(cj, j);
      var p2 := if At(x, m) then -1 else m;
      if At(x, m) { PermittedAt(a, ci, cf, m, cj, x); }
      PermissionRow(rows, ident, a, ci, cf, p2, cj);
      assert Surplus(i, f, x, j, ci.n, cf.n, p2, cj.n);
      assert KeyOf(A, ident, PermissionAt(ci.n, cf.n, p2, cj.n)) in rows;
    }
  }

  lemma Placed(i: Index, f: Index, j: Index, p0: int, p1: int, n: int)
    requires Indexed(i) && Indexed(f) && Indexed(j) && At(i, p0) && At(f, p1) && At(j, n)
    ensures Fits(Position(p0), i) && Fits(Position(p1), f) && Fits(Position(n), j)
  {}

  lemma FitsGiven(c: Index, index: Index)
    requires Indexed(index) && Fits(c, index)
    ensures c.Position? && At(index, c.n)
  {}

  /** An access asked for by its position is not asked for as the last one. */
  lemma PermittedAt(a: Alert, i: Index, f: Index, m: int, j: Index, x: Index)
    requires Permitted(a, i, f, m, j) && At(x, m)
    ensures !At(x, -1)
  {}

  /** A path to permissions is right for an alert exactly when, of the accesses in question, only
      those asked for have such a permission, and none of them is the last of its file. */
  lemma PermissionsExactInAlert(rows: Rows, ident: nat, a: Alert, i: Index, f: Index, x: Index, j: Index)
    requires AllWellKeyed(rows) && HoldsAlert(rows, ident, a)
    requires Indexed(i) && Indexed(f) && Indexed(x) && Indexed(j)
    ensures Exact(rows, ident, a, PermissionPlace(i, f, x, j)) <==> OnlyThere(a, i, f, x, j)
  {
    hide WellKeyed, Selected, PathTo, Denotes, KeyOf, HoldsAlert, Indexed, Surplus, OnlyThere, FoundAt;
    var place := PermissionPlace(i, f, x, j);
    forall k
      ensures (Chosen(rows, Table.Alert, ident, place, k) <==> FoundAt(a, ident, place, k)) <==>
        !(k in rows && k == KeyOf(A, ident, PermissionAt(k.p0, k.p1, k.p2, k.i)) && Surplus(i, f, x, j, k.p0, k.p1, k.p2, k.i))
    {
      FoundDenoted(rows, ident, a, place, k);
      if k in rows { SurplusPermission(i, f, x, j, ident, k); }
    }
    forall p0, p1, p2, n
      ensures var k := KeyOf(A, ident, PermissionAt(p0, p1, p2, n)); k.p0 == p0 && k.p1 == p1 && k.p2 == p2 && k.i == n
    {
      PermissionColumns(ident, p0, p1, p2, n);
    }
    NoSurplus(rows, ident, a, i, f, x, j);
  }

  lemma PermissionColumns(ident: nat, p0: int, p1: int, p2: int, n: int)
    ensures var k := KeyOf(A, ident, PermissionAt(p0, p1, p2, n)); k.p0 == p0 && k.p1 == p1 && k.p2 == p2 && k.i == n
  {}

  /** An alert with one target, one file, one access and one permission. */
  function OneAccess(): Alert {
    var file := File.File([], [FileAccess.FileAccess([["read"]], [])], [], None, []);
    Alert.Alert([], [], None, None, None, DefaultAlert, [], [],
      [Target.Target([], Parts.Parts(None, None, None, None), [file])], None, [])
  }

  /** The path to this one permission selects it twice. */
  lemma OneAccessSelectedTwice(rows: Rows, ident: nat)
    requires AllWellKeyed(rows) && HoldsAlert(rows, ident, OneAccess())
    ensures var first := Position(0);
      var place := PermissionPlace(first, first, first, first);
      && Chosen(rows, Table.Alert, ident, place, Key(Permission, NoParent, ident, 0, 0, 0, 0))
      && Chosen(rows, Table.Alert, ident, place, Key(Permission, NoParent, ident, 0, 0, -1, 0))
      && !Exact(rows, ident, OneAccess(), place)
  {
    hide WellKeyed, Selected, PathTo, HoldsAlert, OnlyThere;
    var a, first := OneAccess(), Position(0);
    assert Permitted(a, first, first, 0, first);
    PermissionRow(rows, ident, a, first, first, 0, first);
    PermissionRow(rows, ident, a, first, first, -1, first);
    SurplusPermission(first, first, first, first, ident, Key(Permission, NoParent, ident, 0, 0, 0, 0));
    SurplusPermission(first, first, first, first, ident, Key(Permission, NoParent, ident, 0, 0, -1, 0));
    NotOnlyThere(a, first, first, 0, first, first);
    PermissionsExactInAlert(rows, ident, a, first, first, first, first);
  }

  lemma NotOnlyThere(a: Alert, i: Index, f: Index, m: int, x: Index, j: Index)
    requires i.Position? && f.Position? && j.Position? && Permitted(a, i, f, m, j) && LastAccess(a, i, f, m)
    ensures !OnlyThere(a, i, f, x, j)
  {
    hide Permitted, LastAccess;
    assert Fits(i, i) && Fits(f, f) && Fits(j, j);
  }

  /** Different places that a path stands for have different rows. */
  lemma OneRowEach(ident: nat, place: Place, c: Place, d: Place)
    requires PlaceIndexed(place) && Instance(c, place) && Instance(d, place)
    requires KeyOf(A, ident, c) == KeyOf(A, ident, d)
    ensures c == d
  {
    hide *;
    PlaceInstances(A, place, ident, KeyOf(A, ident, c), c);
    PlaceInstances(A, place, ident, KeyOf(A, ident, c), d);
  }

  // Databases that are filled by storing messages have no other keys.

  lemma TargetWellKeyed(ident: nat, xs: seq<Target>, k: Key)
    ensures TargetsRow(ident, xs, |xs|, true, k).Some? ==> WellKeyed(k)
  {}

  lemma SourceWellKeyed(ident: nat, xs: seq<Source>, k: Key)
    ensures SourcesRow(ident, xs, |xs|, true, k).Some? ==> WellKeyed(k)
  {}

  lemma AlertWellKeyed(ident: nat, a: Alert, k: Key)
    ensures AlertRow(ident, a, k).Some? ==> WellKeyed(k)
  {
    hide SourcesRow, TargetsRow;
    SourceWellKeyed(ident, a.sources, k);
    TargetWellKeyed(ident, a.targets, k);
  }

  lemma HeartbeatWellKeyed(ident: nat, h: Heartbeat, k: Key)
    ensures HeartbeatRow(ident, h, k).Some? ==> WellKeyed(k)
  {}

  lemma AlertKeepsKeys(rows: Rows, with: Rows, ident: nat, a: Alert)
    requires AllWellKeyed(rows) && forall k :: Row(with, k) == Over(AlertRow(ident, a, k), Row(rows, k))
    ensures AllWellKeyed(with)
  {
    hide AlertRow, WellKeyed;
    forall k | k in with
      ensures WellKeyed(k)
    {
      AlertWellKeyed(ident, a, k);
      assert Row(with, k).Some?;
      assert Row(rows, k).Some? ==> k in rows;
    }
  }

  /** The places whose paths the join gets right. */
  predicate Joined(place: Place) { PlaceIndexed(place) && !place.PermissionPlace? && LastStored(place) }

  /** Storing an alert next to other messages: every path selects just the elements that it
      stands for. */
  method StoreAndSelect(db: Database, ident: nat, a: Alert)
    requires AllWellKeyed(db.rows) && FreeForAlert(db.rows, ident)
    modifies db
    ensures AllWellKeyed(db.rows)
    ensures forall place, k :: Joined(place) ==>
      (Chosen(db.rows, Table.Alert, ident, place, k) <==> FoundAt(a, ident, place, k))
    ensures forall place, c, k ::
      Joined(place) && Instance(c, place) && k == KeyOf(A, ident, c) && Chosen(db.rows, Table.Alert, ident, place, k) ==>
      Find(a, c) == Some(db.rows[k])
  {
    hide AlertRow, Selected, PathTo, FoundAt, PlaceIndexed, LastStored, Instance, KeyOf, Find, AllWellKeyed;
    ghost var rows := db.rows;
    Insert.InsertAlert(db, ident, a);
    AlertKeepsKeys(rows, db.rows, ident, a);
    forall place, k | Joined(place)
      ensures Chosen(db.rows, Table.Alert, ident, place, k) <==> FoundAt(a, ident, place, k)
      ensures forall c :: Instance(c, place) && KeyOf(A, ident, c) == k && k in db.rows ==> Find(a, c) == Some(db.rows[k])
    {
      JoinFinds(db.rows, ident, a, place, k);
    }
  }

  lemma HeartbeatKeepsKeys(rows: Rows, with: Rows, ident: nat, h: Heartbeat)
    requires AllWellKeyed(rows) && forall k :: Row(with, k) == Over(HeartbeatRow(ident, h, k), Row(rows, k))
    ensures AllWellKeyed(with)
  {
    hide HeartbeatRow, WellKeyed;
    forall k | k in with
      ensures WellKeyed(k)
    {
      HeartbeatWellKeyed(ident, h, k);
      assert Row(with, k).Some?;
      assert Row(rows, k).Some? ==> k in rows;
    }
  }

  /** Storing a heartbeat next to other messages, likewise. */
  method StoreHeartbeatAndSelect(db: Database, ident: nat, h: Heartbeat)
    requires AllWellKeyed(db.rows) && FreeForHeartbeat(db.rows, ident)
    modifies db
    ensures AllWellKeyed(db.rows)
    ensures forall place, k :: Joined(place) && Common(place) ==>
      (Chosen(db.rows, Table.Heartbeat, ident, place, k) <==> FoundInHeartbeatAt(h, ident, place, k))
    ensures forall place, c, k ::
      Joined(place) && Common(place) && Instance(c, place) && k == KeyOf(H, ident, c)
        && Chosen(db.rows, Table.Heartbeat, ident, place, k) ==>
      FindInHeartbeat(h, c) == Some(db.rows[k])
  {
    hide HeartbeatRow, Selected, PathTo, FoundInHeartbeatAt, PlaceIndexed, LastStored, Instance, KeyOf, FindInHeartbeat,
      AllWellKeyed, Common;
    ghost var rows := db.rows;
    Insert.InsertHeartbeat(db, ident, h);
    HeartbeatKeepsKeys(rows, db.rows, ident, h);
    forall place, k | Joined(place) && Common(place)
      ensures Chosen(db.rows, Table.Heartbeat, ident, place, k) <==> FoundInHeartbeatAt(h, ident, place, k)
      ensures forall c :: Instance(c, place) && KeyOf(H, ident, c) == k && k in db.rows ==>
        FindInHeartbeat(h, c) == Some(db.rows[k])
    {
      JoinFindsInHeartbeat(db.rows, ident, h, place, k);
    }
  }
}
