/** Paths and the conditions on rows that they are compiled to (classic-sql-join.c, and the
    choice of the table in classic-path-resolve.c). */
module Join {
  import opened Options
  import opened Idmef

  /** Names of path elements: a class, which is named like its table, or a scalar. */
  datatype Leaf = CreateTimeLeaf | DetectTimeLeaf | AnalyzerTimeLeaf | ArgLeaf | EnvLeaf | PermissionLeaf | OtherLeaf
  datatype Name = Class(table: Table) | Scalar(leaf: Leaf)

  /** The index of a path element: none is possible, none is given, or a position; -1 is the
      last one. */
  datatype Index = Forbidden | Undefined | Position(n: int)

  datatype Element = Element(name: Name, index: Index)
  type Path = seq<Element>

  function NameAt(path: Path, d: nat): Name { if d < |path| then path[d].name else Scalar(OtherLeaf) }

  // The value of _parent_type to ask for, if any.

  function FileParentType(path: Path): Parent {
    if NameAt(path, 3) == Class(Table.FileAccess) && NameAt(path, 4) == Class(UserId) then F else NoParent
  }

  function TargetParentType(path: Path): Parent {
    if |path| == 3 then NoParent
    else if NameAt(path, 2) == Class(Table.File) then FileParentType(path)
    else T
  }

  function SourceParentType(path: Path): Parent { if |path| > 3 then S else NoParent }

  function AlertParentType(path: Path): Parent
    requires |path| > 0
  {
    var n := NameAt(path, 1);
    if n == Class(Table.Classification) || n == Class(Table.Assessment) || n == Class(Table.OverflowAlert) then NoParent
    else if n == Class(Table.ToolAlert) then if NameAt(path, 2) == Class(Alertident) then T else NoParent
    else if n == Class(Table.CorrelationAlert) then if NameAt(path, 2) == Class(Alertident) then C else NoParent
    else if n == Class(Table.Source) then SourceParentType(path)
    else if n == Class(Table.Target) then TargetParentType(path)
    else if path[|path| - 1].name == Scalar(DetectTimeLeaf) then NoParent
    else A
  }

  function ParentType(path: Path): Parent
    requires |path| > 0
  {
    if NameAt(path, 0) == Class(Table.Heartbeat) then H else AlertParentType(path)
  }

  /** _index or a _parentN_index compared with a number. */
  datatype Column = OwnIndex | ParentIndex(level: nat)
  datatype Constraint = Constraint(column: Column, equal: bool, value: int)

  function IndexConstraint(column: Column, index: Index): Constraint
    requires index != Forbidden
  {
    match index
    case Position(n) => Constraint(column, true, n)
    case _ => Constraint(column, false, -1)
  }

  /** The constraints from the elements d to end - 1, with parent levels counted from level. */
  function ParentConstraints(path: Path, d: nat, end: int, level: nat): seq<Constraint>
    requires end <= |path|
    decreases end - d
  {
    if d >= end then []
    else if path[d].index == Forbidden then ParentConstraints(path, d + 1, end, level)
    else [IndexConstraint(ParentIndex(level), path[d].index)] + ParentConstraints(path, d + 1, end, level + 1)
  }

  /** The constraint on _index: from the last element, or else from the one before. */
  function OwnConstraint(path: Path): seq<Constraint>
    requires |path| >= 2
  {
    var index1, index2 := path[|path| - 1].index, path[|path| - 2].index;
    if index1 != Forbidden then [IndexConstraint(OwnIndex, index1)]
    else if index2 != Forbidden then [IndexConstraint(OwnIndex, index2)]
    else []
  }

  function Constraints(path: Path): seq<Constraint>
    requires |path| >= 2
  {
    ParentConstraints(path, 1, |path| - 2, 0) + OwnConstraint(path)
  }

  /** A path of fewer than two elements is a query error. */
  method ResolveIndexes(path: Path) returns (r: Option<seq<Constraint>>)
    ensures r == if |path| < 2 then None else Some(Constraints(path))
  {
    if |path| < 2 {
      return None;
    }
    var constraints, parentLevel, depth := [], 0, 1;
    while depth < |path| - 2
      invariant 1 <= depth && (depth == 1 || depth <= |path| - 2)
      invariant constraints + ParentConstraints(path, depth, |path| - 2, parentLevel)
        == ParentConstraints(path, 1, |path| - 2, 0)
    {
      var index := path[depth].index;
      if index != Forbidden {
        constraints := constraints + [IndexConstraint(ParentIndex(parentLevel), index)];
        parentLevel := parentLevel + 1;
      }
      depth := depth + 1;
    }
    assert constraints + [] == constraints;
    var index1, index2 := path[|path| - 1].index, path[|path| - 2].index;
    if index1 != Forbidden {
      constraints := constraints + [IndexConstraint(OwnIndex, index1)];
    } else if index2 != Forbidden {
      constraints := constraints + [IndexConstraint(OwnIndex, index2)];
    }
    return Some(constraints);
  }

  // What a row has to be like to be selected.

  function Value(column: Column, k: Key): int {
    match column
    case OwnIndex => k.i
    case ParentIndex(level) => if level == 0 then k.p0 else if level == 1 then k.p1 else k.p2
  }

  predicate Meets(c: Constraint, k: Key) {
    if c.equal then Value(c.column, k) == c.value else Value(c.column, k) != c.value
  }

  /** The condition of the joined table on its rows, for the message with the given ident. */
  predicate Selected(path: Path, ident: nat, k: Key)
    requires |path| >= 2
  {
    && k.table == TableFor(path)
    && (ParentType(path) != NoParent ==> k.parent == ParentType(path))
    && k.ident == ident
    && forall c :: c in Constraints(path) ==> Meets(c, k)
  }

  /** The table that a path is looked up in: that of the class before the last element,
      except for some scalars that have a table of their own. */
  function TableFor(path: Path): Table
    requires |path| >= 2
  {
    var owner, leaf := path[|path| - 2].name, path[|path| - 1].name;
    if owner == Class(Table.Alert) || owner == Class(Table.Heartbeat) then
      if leaf == Scalar(CreateTimeLeaf) then CreateTime
      else if leaf == Scalar(DetectTimeLeaf) then DetectTime
      else if leaf == Scalar(AnalyzerTimeLeaf) then AnalyzerTime
      else owner.table
    else if owner == Class(Table.Process) then
      if leaf == Scalar(ArgLeaf) then ProcessArg else if leaf == Scalar(EnvLeaf) then ProcessEnv else Table.Process
    else if owner == Class(Table.FileAccess) then
      if leaf == Scalar(PermissionLeaf) then Permission else Table.FileAccess
    else if owner == Class(Table.WebService) then
      if leaf == Scalar(ArgLeaf) then WebServiceArg else Table.WebService
    else if owner.Class? then owner.table
    else Table.Alert
  }

  /** The places in a message that paths lead to, with the indexes of the lists on the way. */
  datatype PartPlace =
    | NodePlace | AddressPlace(j: Index) | UserPlace | UserIdPlace(j: Index)
    | ProcessPlace | ArgPlace(j: Index) | EnvPlace(j: Index)
    | ServicePlace | WebServicePlace | WebServiceArgPlace(j: Index) | SnmpServicePlace

  datatype Place =
    | CreateTimePlace | AnalyzerTimePlace | AnalyzerPlace(i: Index) | AnalyzerPart(i: Index, part: PartPlace)
    | AdditionalDataPlace(j: Index)
    | DetectTimePlace | ImpactPlace | ConfidencePlace | ActionPlace(j: Index)
    | ToolAlertPlace | ToolIdentPlace(j: Index) | CorrelationAlertPlace | CorrelationIdentPlace(j: Index)
    | OverflowAlertPlace | ClassificationPlace | ReferencePlace(j: Index)
    | SourcePlace(i: Index) | SourcePart(i: Index, part: PartPlace)
    | TargetPlace(i: Index) | TargetPart(i: Index, part: PartPlace)
    | FilePlace(i: Index, f: Index) | LinkagePlace(i: Index, f: Index, j: Index) | InodePlace(i: Index, f: Index)
    | ChecksumPlace(i: Index, f: Index, j: Index)
    | AccessUserPlace(i: Index, f: Index, x: Index) | PermissionPlace(i: Index, f: Index, x: Index, j: Index)

  function Of(table: Table, index: Index): Element { Element(Class(table), index) }
  function End(leaf: Leaf): Element { Element(Scalar(leaf), Forbidden) }

  function PartPath(part: PartPlace): Path {
    match part
    case NodePlace => [Of(Table.Node, Forbidden), End(OtherLeaf)]
    case AddressPlace(j) => [Of(Table.Node, Forbidden), Of(Address, j), End(OtherLeaf)]
    case UserPlace => [Of(Table.User, Forbidden), End(OtherLeaf)]
    case UserIdPlace(j) => [Of(Table.User, Forbidden), Of(UserId, j), End(OtherLeaf)]
    case ProcessPlace => [Of(Table.Process, Forbidden), End(OtherLeaf)]
    case ArgPlace(j) => [Of(Table.Process, Forbidden), Element(Scalar(ArgLeaf), j)]
    case EnvPlace(j) => [Of(Table.Process, Forbidden), Element(Scalar(EnvLeaf), j)]
    case ServicePlace => [Of(Table.Service, Forbidden), End(OtherLeaf)]
    case WebServicePlace => [Of(Table.Service, Forbidden), Of(Table.WebService, Forbidden), End(OtherLeaf)]
    case WebServiceArgPlace(j) =>
      [Of(Table.Service, Forbidden), Of(Table.WebService, Forbidden), Element(Scalar(ArgLeaf), j)]
    case SnmpServicePlace => [Of(Table.Service, Forbidden), Of(Table.SnmpService, Forbidden), End(OtherLeaf)]
  }

  function PathFrom(place: Place): Path {
    match place
    case CreateTimePlace => [End(CreateTimeLeaf)]
    case AnalyzerTimePlace => [End(AnalyzerTimeLeaf)]
    case AnalyzerPlace(i) => [Of(Table.Analyzer, i), End(OtherLeaf)]
    case AnalyzerPart(i, part) => [Of(Table.Analyzer, i)] + PartPath(part)
    case AdditionalDataPlace(j) => [Of(AdditionalData, j), End(OtherLeaf)]
    case DetectTimePlace => [End(DetectTimeLeaf)]
    case ImpactPlace => [Of(Table.Assessment, Forbidden), Of(Impact, Forbidden), End(OtherLeaf)]
    case ConfidencePlace => [Of(Table.Assessment, Forbidden), Of(Confidence, Forbidden), End(OtherLeaf)]
    case ActionPlace(j) => [Of(Table.Assessment, Forbidden), Of(Action, j), End(OtherLeaf)]
    case ToolAlertPlace => [Of(Table.ToolAlert, Forbidden), End(OtherLeaf)]
    case ToolIdentPlace(j) => [Of(Table.ToolAlert, Forbidden), Of(Alertident, j), End(OtherLeaf)]
    case CorrelationAlertPlace => [Of(Table.CorrelationAlert, Forbidden), End(OtherLeaf)]
    case CorrelationIdentPlace(j) => [Of(Table.CorrelationAlert, Forbidden), Of(Alertident, j), End(OtherLeaf)]
    case OverflowAlertPlace => [Of(Table.OverflowAlert, Forbidden), End(OtherLeaf)]
    case ClassificationPlace => [Of(Table.Classification, Forbidden), End(OtherLeaf)]
    case ReferencePlace(j) => [Of(Table.Classification, Forbidden), Of(Reference, j), End(OtherLeaf)]
    case SourcePlace(i) => [Of(Table.Source, i), End(OtherLeaf)]
    case SourcePart(i, part) => [Of(Table.Source, i)] + PartPath(part)
    case TargetPlace(i) => [Of(Table.Target, i), End(OtherLeaf)]
    case TargetPart(i, part) => [Of(Table.Target, i)] + PartPath(part)
    case FilePlace(i, f) => [Of(Table.Target, i), Of(Table.File, f), End(OtherLeaf)]
    case LinkagePlace(i, f, j) => [Of(Table.Target, i), Of(Table.File, f), Of(Linkage, j), End(OtherLeaf)]
    case InodePlace(i, f) => [Of(Table.Target, i), Of(Table.File, f), Of(Inode, Forbidden), End(OtherLeaf)]
    case ChecksumPlace(i, f, j) => [Of(Table.Target, i), Of(Table.File, f), Of(Checksum, j), End(OtherLeaf)]
    case AccessUserPlace(i, f, x) =>
      [Of(Table.Target, i), Of(Table.File, f), Of(Table.FileAccess, x), Of(UserId, Forbidden), End(OtherLeaf)]
    case PermissionPlace(i, f, x, j) =>
      [Of(Table.Target, i), Of(Table.File, f), Of(Table.FileAccess, x), Element(Scalar(PermissionLeaf), j)]
  }

  /** The whole path to a place, from the top of the message. */
  function PathTo(top: Table, place: Place): (path: Path)
    ensures |path| >= 2
  {
    [Of(top, Forbidden)] + PathFrom(place)
  }

  /** The lists on the way have an index, or none is given. */
  predicate Indexed(index: Index) { index.Undefined? || (index.Position? && index.n >= -1) }

  predicate PartIndexed(part: PartPlace) {
    match part
    case AddressPlace(j) => Indexed(j)
    case UserIdPlace(j) => Indexed(j)
    case ArgPlace(j) => Indexed(j)
    case EnvPlace(j) => Indexed(j)
    case WebServiceArgPlace(j) => Indexed(j)
    case _ => true
  }

  predicate PlaceIndexed(place: Place) {
    match place
    case AnalyzerPlace(i) => Indexed(i)
    case AnalyzerPart(i, part) => Indexed(i) && PartIndexed(part)
    case AdditionalDataPlace(j) => Indexed(j)
    case ActionPlace(j) => Indexed(j)
    case ToolIdentPlace(j) => Indexed(j)
    case CorrelationIdentPlace(j) => Indexed(j)
    case ReferencePlace(j) => Indexed(j)
    case SourcePlace(i) => Indexed(i)
    case SourcePart(i, part) => Indexed(i) && PartIndexed(part)
    case TargetPlace(i) => Indexed(i)
    case TargetPart(i, part) => Indexed(i) && PartIndexed(part)
    case FilePlace(i, f) => Indexed(i) && Indexed(f)
    case LinkagePlace(i, f, j) => Indexed(i) && Indexed(f) && Indexed(j)
    case InodePlace(i, f) => Indexed(i) && Indexed(f)
    case ChecksumPlace(i, f, j) => Indexed(i) && Indexed(f) && Indexed(j)
    case AccessUserPlace(i, f, x) => Indexed(i) && Indexed(f) && Indexed(x)
    case PermissionPlace(i, f, x, j) => Indexed(i) && Indexed(f) && Indexed(x) && Indexed(j)
    case _ => true
  }

  // What a place denotes: the elements at its positions, all of them where no index is given.

  /** Whether an index of a stored row is one that the path asks for. */
  predicate At(index: Index, v: int) {
    match index
    case Position(n) => v == n
    case _ => v != -1
  }

  /** The part at a place, of the source, target or analyzer whose parts are stored with the
      columns of own. */
  predicate PartDenotes(part: PartPlace, own: Key, k: Key) {
    match part
    case NodePlace => k == own.(table := Table.Node)
    case AddressPlace(j) => k == own.(table := Address, i := k.i) && At(j, k.i)
    case UserPlace => k == own.(table := Table.User)
    case UserIdPlace(j) => k == own.(table := UserId, i := k.i) && At(j, k.i)
    case ProcessPlace => k == own.(table := Table.Process)
    case ArgPlace(j) => k == own.(table := ProcessArg, i := k.i) && At(j, k.i)
    case EnvPlace(j) => k == own.(table := ProcessEnv, i := k.i) && At(j, k.i)
    case ServicePlace => k == own.(table := Table.Service)
    case WebServicePlace => k == own.(table := Table.WebService)
    case WebServiceArgPlace(j) => k == own.(table := WebServiceArg, i := k.i) && At(j, k.i)
    case SnmpServicePlace => k == own.(table := Table.SnmpService)
  }

  predicate Denotes(top: Parent, ident: nat, place: Place, k: Key) {
    match place
    case CreateTimePlace => k == Key(CreateTime, top, ident, 0, 0, 0, 0)
    case AnalyzerTimePlace => k == Key(AnalyzerTime, top, ident, 0, 0, 0, 0)
    case AnalyzerPlace(i) => k == Key(Table.Analyzer, top, ident, 0, 0, 0, k.i) && At(i, k.i)
    case AnalyzerPart(i, part) => PartDenotes(part, Key(k.table, top, ident, k.p0, 0, 0, 0), k) && At(i, k.p0)
    case AdditionalDataPlace(j) => k == Key(AdditionalData, top, ident, 0, 0, 0, k.i) && At(j, k.i)
    case DetectTimePlace => k == Key(DetectTime, NoParent, ident, 0, 0, 0, 0)
    case ImpactPlace => k == Key(Impact, NoParent, ident, 0, 0, 0, 0)
    case ConfidencePlace => k == Key(Confidence, NoParent, ident, 0, 0, 0, 0)
    case ActionPlace(j) => k == Key(Action, NoParent, ident, 0, 0, 0, k.i) && At(j, k.i)
    case ToolAlertPlace => k == Key(Table.ToolAlert, NoParent, ident, 0, 0, 0, 0)
    case ToolIdentPlace(j) => k == Key(Alertident, T, ident, 0, 0, 0, k.i) && At(j, k.i)
    case CorrelationAlertPlace => k == Key(Table.CorrelationAlert, NoParent, ident, 0, 0, 0, 0)
    case CorrelationIdentPlace(j) => k == Key(Alertident, C, ident, 0, 0, 0, k.i) && At(j, k.i)
    case OverflowAlertPlace => k == Key(Table.OverflowAlert, NoParent, ident, 0, 0, 0, 0)
    case ClassificationPlace => k == Key(Table.Classification, NoParent, ident, 0, 0, 0, 0)
    case ReferencePlace(j) => k == Key(Reference, NoParent, ident, 0, 0, 0, k.i) && At(j, k.i)
    case SourcePlace(i) => k == Key(Table.Source, NoParent, ident, 0, 0, 0, k.i) && At(i, k.i)
    case SourcePart(i, part) => PartDenotes(part, Key(k.table, S, ident, k.p0, 0, 0, 0), k) && At(i, k.p0)
    case TargetPlace(i) => k == Key(Table.Target, NoParent, ident, 0, 0, 0, k.i) && At(i, k.i)
    case TargetPart(i, part) => PartDenotes(part, Key(k.table, T, ident, k.p0, 0, 0, 0), k) && At(i, k.p0)
    case FilePlace(i, f) => k == Key(Table.File, NoParent, ident, k.p0, 0, 0, k.i) && At(i, k.p0) && At(f, k.i)
    case LinkagePlace(i, f, j) =>
      k == Key(Linkage, NoParent, ident, k.p0, k.p1, 0, k.i) && At(i, k.p0) && At(f, k.p1) && At(j, k.i)
    case InodePlace(i, f) => k == Key(Inode, NoParent, ident, k.p0, k.p1, 0, 0) && At(i, k.p0) && At(f, k.p1)
    case ChecksumPlace(i, f, j) =>
      k == Key(Checksum, NoParent, ident, k.p0, k.p1, 0, k.i) && At(i, k.p0) && At(f, k.p1) && At(j, k.i)
    case AccessUserPlace(i, f, x) =>
      k == Key(UserId, F, ident, k.p0, k.p1, k.p2, 0) && At(i, k.p0) && At(f, k.p1) && At(x, k.p2)
    case PermissionPlace(i, f, x, j) =>
      && k == Key(Permission, NoParent, ident, k.p0, k.p1, k.p2, k.i)
      && At(i, k.p0) && At(f, k.p1) && At(x, k.p2) && At(j, k.i)
  }

  // The proof that the two agree.

  /** The parent constraints, met one by one. */
  predicate ParentsMet(path: Path, d: nat, end: int, level: nat, k: Key)
    requires end <= |path|
    decreases end - d
  {
    if d >= end then true
    else if path[d].index == Forbidden then ParentsMet(path, d + 1, end, level, k)
    else At(path[d].index, Value(ParentIndex(level), k)) && ParentsMet(path, d + 1, end, level + 1, k)
  }

  lemma {:induction false} ParentConstraintsMet(path: Path, d: nat, end: int, level: nat, k: Key)
    requires end <= |path|
    ensures (forall c :: c in ParentConstraints(path, d, end, level) ==> Meets(c, k)) <==> ParentsMet(path, d, end, level, k)
    decreases end - d
  {
    if d < end {
      if path[d].index == Forbidden {
        ParentConstraintsMet(path, d + 1, end, level, k);
      } else {
        var c0 := IndexConstraint(ParentIndex(level), path[d].index);
        var rest := ParentConstraints(path, d + 1, end, level + 1);
        ParentConstraintsMet(path, d + 1, end, level + 1, k);
        assert ParentConstraints(path, d, end, level) == [c0] + rest;
        assert Meets(c0, k) <==> At(path[d].index, Value(ParentIndex(level), k));
        assert c0 in [c0] + rest;
        assert forall c :: c in rest ==> c in [c0] + rest;
        assert forall c :: c in [c0] + rest ==> c == c0 || c in rest;
      }
    }
  }

  predicate OwnMet(path: Path, k: Key)
    requires |path| >= 2
  {
    var index1, index2 := path[|path| - 1].index, path[|path| - 2].index;
    if index1 != Forbidden then At(index1, k.i) else if index2 != Forbidden then At(index2, k.i) else true
  }

  lemma SelectedUnfolds(path: Path, ident: nat, k: Key)
    requires |path| >= 2
    ensures Selected(path, ident, k) <==>
      && k.table == TableFor(path)
      && (ParentType(path) != NoParent ==> k.parent == ParentType(path))
      && k.ident == ident
      && ParentsMet(path, 1, |path| - 2, 0, k) && OwnMet(path, k)
  {
    var parents, own := ParentConstraints(path, 1, |path| - 2, 0), OwnConstraint(path);
    ParentConstraintsMet(path, 1, |path| - 2, 0, k);
    assert (forall c :: c in parents + own ==> Meets(c, k))
      <==> (forall c :: c in parents ==> Meets(c, k)) && (forall c :: c in own ==> Meets(c, k)) by {
      assert forall c :: c in parents ==> c in parents + own;
      assert forall c :: c in own ==> c in parents + own;
    }
    assert (forall c :: c in own ==> Meets(c, k)) <==> OwnMet(path, k) by {
      if own != [] { assert own[0] in own; }
    }
  }

  function PartTable(part: PartPlace): Table {
    match part
    case NodePlace => Table.Node
    case AddressPlace(_) => Address
    case UserPlace => Table.User
    case UserIdPlace(_) => UserId
    case ProcessPlace => Table.Process
    case ArgPlace(_) => ProcessArg
    case EnvPlace(_) => ProcessEnv
    case ServicePlace => Table.Service
    case WebServicePlace => Table.WebService
    case WebServiceArgPlace(_) => WebServiceArg
    case SnmpServicePlace => Table.SnmpService
  }

  function PartIndex(part: PartPlace): Index {
    match part
    case AddressPlace(j) => j
    case UserIdPlace(j) => j
    case ArgPlace(j) => j
    case EnvPlace(j) => j
    case WebServiceArgPlace(j) => j
    case _ => Forbidden
  }

  lemma PartPathMeaning(path: Path, e0: Element, e1: Element, part: PartPlace, k: Key)
    requires path == [e0, e1] + PartPath(part) && e0.name.Class? && e1.index != Forbidden && PartIndexed(part)
    ensures |path| > 3 && TableFor(path) == PartTable(part)
    ensures path[1] == e1 && path[2].index == Forbidden && |path| <= 5
    ensures NameAt(path, 0) == e0.name && NameAt(path, 1) == e1.name && NameAt(path, 2) != Class(Table.File)
    ensures path[|path| - 1].name != Scalar(DetectTimeLeaf)
    ensures OwnMet(path, k) <==> PartIndex(part) == Forbidden || At(PartIndex(part), k.i)
  {
    var q := PartPath(part);
    var n := |q|;
    assert |path| == n + 2 && path[n + 1] == q[n - 1] && path[n] == q[n - 2] && path[2] == q[0];
  }

  lemma OneParent(path: Path, k: Key)
    requires 4 <= |path| <= 5 && path[1].index != Forbidden && path[2].index == Forbidden
    ensures ParentsMet(path, 1, |path| - 2, 0, k) <==> At(path[1].index, k.p0)
  {
    if |path| == 5 { assert ParentsMet(path, 2, 3, 1, k) == ParentsMet(path, 3, 3, 1, k); }
  }

  lemma PartDenoted(part: PartPlace, own: Key, k: Key)
    requires PartIndexed(part) && own.p1 == own.p2 == own.i == 0
    requires k.parent != F && (k.table == PartTable(part) ==> k == Trimmed(k))
    ensures PartDenotes(part, own, k) <==>
      && k == own.(table := PartTable(part), i := k.i) && (PartIndex(part) == Forbidden || At(PartIndex(part), k.i))
  {}

  lemma PartKey(part: PartPlace, k: Key)
    requires WellKeyed(k) && k.table == PartTable(part) && k.parent != F
    ensures k.p1 == 0 && k.p2 == 0
  {}

  lemma PartDenotedUnder(part: PartPlace, own: Key, k: Key)
    ensures PartDenotes(part, own, k) ==> k.parent == own.parent
  {}

  lemma SourcePartFacts(i: Index, part: PartPlace, k: Key)
    requires Indexed(i) && PartIndexed(part)
    ensures var path := PathTo(Table.Alert, SourcePart(i, part));
      && TableFor(path) == PartTable(part) && ParentType(path) == S
      && (ParentsMet(path, 1, |path| - 2, 0, k) <==> At(i, k.p0))
      && (OwnMet(path, k) <==> PartIndex(part) == Forbidden || At(PartIndex(part), k.i))
  {
    hide TableFor, OwnMet, ParentsMet, PartPath, PartTable, PartIndex;
    var path := PathTo(Table.Alert, SourcePart(i, part));
    assert path == [Of(Table.Alert, Forbidden), Of(Table.Source, i)] + PartPath(part);
    PartPathMeaning(path, Of(Table.Alert, Forbidden), Of(Table.Source, i), part, k);
    OneParent(path, k);
  }

  lemma ExactForSourcePart(i: Index, part: PartPlace, ident: nat, k: Key)
    requires Indexed(i) && PartIndexed(part) && WellKeyed(k)
    ensures Selected(PathTo(Table.Alert, SourcePart(i, part)), ident, k) <==> Denotes(A, ident, SourcePart(i, part), k)
  {
    hide Selected, TableFor, ParentType, OwnMet, ParentsMet, PathTo, PartDenotes, PartTable, PartIndex, Trimmed, Shaped;
    SourcePartFacts(i, part, k);
    SelectedUnfolds(PathTo(Table.Alert, SourcePart(i, part)), ident, k);
    PartDenotedUnder(part, Key(k.table, S, ident, k.p0, 0, 0, 0), k);
    if k.parent == S {
      PartDenoted(part, Key(k.table, S, ident, k.p0, 0, 0, 0), k);
      if k.table == PartTable(part) { PartKey(part, k); }
    }
  }

  lemma TargetPartFacts(i: Index, part: PartPlace, k: Key)
    requires Indexed(i) && PartIndexed(part)
    ensures var path := PathTo(Table.Alert, TargetPart(i, part));
      && TableFor(path) == PartTable(part) && ParentType(path) == T
      && (ParentsMet(path, 1, |path| - 2, 0, k) <==> At(i, k.p0))
      && (OwnMet(path, k) <==> PartIndex(part) == Forbidden || At(PartIndex(part), k.i))
  {
    hide TableFor, OwnMet, ParentsMet, PartPath, PartTable, PartIndex;
    var path := PathTo(Table.Alert, TargetPart(i, part));
    assert path == [Of(Table.Alert, Forbidden), Of(Table.Target, i)] + PartPath(part);
    PartPathMeaning(path, Of(Table.Alert, Forbidden), Of(Table.Target, i), part, k);
    OneParent(path, k);
  }

  lemma ExactForTargetPart(i: Index, part: PartPlace, ident: nat, k: Key)
    requires Indexed(i) && PartIndexed(part) && WellKeyed(k)
    ensures Selected(PathTo(Table.Alert, TargetPart(i, part)), ident, k) <==> Denotes(A, ident, TargetPart(i, part), k)
  {
    hide Selected, TableFor, ParentType, OwnMet, ParentsMet, PathTo, PartDenotes, PartTable, PartIndex, Trimmed, Shaped;
    TargetPartFacts(i, part, k);
    SelectedUnfolds(PathTo(Table.Alert, TargetPart(i, part)), ident, k);
    PartDenotedUnder(part, Key(k.table, T, ident, k.p0, 0, 0, 0), k);
    if k.parent == T {
      PartDenoted(part, Key(k.table, T, ident, k.p0, 0, 0, 0), k);
      if k.table == PartTable(part) { PartKey(part, k); }
    }
  }

  /** The parent type of a message's own tables, by the class of the message. */
  function TopParent(top: Table): Parent { if top == Table.Heartbeat then H else A }

  lemma AnalyzerPartFacts(top: Table, i: Index, part: PartPlace, k: Key)
    requires top == Table.Alert || top == Table.Heartbeat
    requires Indexed(i) && PartIndexed(part)
    ensures var path := PathTo(top, AnalyzerPart(i, part));
      && TableFor(path) == PartTable(part) && ParentType(path) == TopParent(top)
      && (ParentsMet(path, 1, |path| - 2, 0, k) <==> At(i, k.p0))
      && (OwnMet(path, k) <==> PartIndex(part) == Forbidden || At(PartIndex(part), k.i))
  {
    hide TableFor, OwnMet, ParentsMet, PartPath, PartTable, PartIndex;
    var path := PathTo(top, AnalyzerPart(i, part));
    assert path == [Of(top, Forbidden), Of(Table.Analyzer, i)] + PartPath(part);
    PartPathMeaning(path, Of(top, Forbidden), Of(Table.Analyzer, i), part, k);
    OneParent(path, k);
  }

  lemma ExactForAnalyzerPart(top: Table, i: Index, part: PartPlace, ident: nat, k: Key)
    requires top == Table.Alert || top == Table.Heartbeat
    requires Indexed(i) && PartIndexed(part) && WellKeyed(k)
    ensures Selected(PathTo(top, AnalyzerPart(i, part)), ident, k) <==> Denotes(TopParent(top), ident, AnalyzerPart(i, part), k)
  {
    hide Selected, TableFor, ParentType, OwnMet, ParentsMet, PathTo, PartDenotes, PartTable, PartIndex, Trimmed, Shaped;
    AnalyzerPartFacts(top, i, part, k);
    SelectedUnfolds(PathTo(top, AnalyzerPart(i, part)), ident, k);
    var own := Key(k.table, TopParent(top), ident, k.p0, 0, 0, 0);
    PartDenotedUnder(part, own, k);
    if k.parent == TopParent(top) {
      PartDenoted(part, own, k);
      if k.table == PartTable(part) { PartKey(part, k); }
    }
  }

  /** The places that heartbeats have as well. */
  predicate Common(place: Place) {
    match place
    case CreateTimePlace => true
    case AnalyzerTimePlace => true
    case AnalyzerPlace(_) => true
    case AnalyzerPart(_, _) => true
    case AdditionalDataPlace(_) => true
    case _ => false
  }

  lemma ExactForTimes(top: Table, place: Place, ident: nat, k: Key)
    requires top == Table.Alert || top == Table.Heartbeat
    requires (place.CreateTimePlace? || place.AnalyzerTimePlace?) && WellKeyed(k)
    ensures Selected(PathTo(top, place), ident, k) <==> Denotes(TopParent(top), ident, place, k)
  {
    hide Selected;
    SelectedUnfolds(PathTo(top, place), ident, k);
  }

  lemma ExactForAnalyzer(top: Table, i: Index, ident: nat, k: Key)
    requires top == Table.Alert || top == Table.Heartbeat
    requires Indexed(i) && WellKeyed(k)
    ensures Selected(PathTo(top, AnalyzerPlace(i)), ident, k) <==> Denotes(TopParent(top), ident, AnalyzerPlace(i), k)
  {
    hide Selected;
    SelectedUnfolds(PathTo(top, AnalyzerPlace(i)), ident, k);
  }

  lemma ExactForData(top: Table, j: Index, ident: nat, k: Key)
    requires top == Table.Alert || top == Table.Heartbeat
    requires Indexed(j) && WellKeyed(k)
    ensures Selected(PathTo(top, AdditionalDataPlace(j)), ident, k)
      <==> Denotes(TopParent(top), ident, AdditionalDataPlace(j), k)
  {
    hide Selected;
    SelectedUnfolds(PathTo(top, AdditionalDataPlace(j)), ident, k);
  }

  /** Whether a place is inside a file. */
  predicate InFile(place: Place) {
    match place
    case FilePlace(_, _) => true
    case LinkagePlace(_, _, _) => true
    case InodePlace(_, _) => true
    case ChecksumPlace(_, _, _) => true
    case AccessUserPlace(_, _, _) => true
    case PermissionPlace(_, _, _, _) => true
    case _ => false
  }

  /** Whether a place is an element of a list. */
  predicate Listed(place: Place) {
    match place
    case ActionPlace(_) => true
    case ToolIdentPlace(_) => true
    case CorrelationIdentPlace(_) => true
    case ReferencePlace(_) => true
    case SourcePlace(_) => true
    case TargetPlace(_) => true
    case _ => false
  }

  lemma ExactForEnds(place: Place, ident: nat, k: Key)
    requires (place.SourcePlace? || place.TargetPlace?) && PlaceIndexed(place) && WellKeyed(k)
    ensures Selected(PathTo(Table.Alert, place), ident, k) <==> Denotes(A, ident, place, k)
  {
    hide Selected;
    SelectedUnfolds(PathTo(Table.Alert, place), ident, k);
  }

  lemma ExactForIdents(place: Place, ident: nat, k: Key)
    requires (place.ToolIdentPlace? || place.CorrelationIdentPlace?) && PlaceIndexed(place) && WellKeyed(k)
    ensures Selected(PathTo(Table.Alert, place), ident, k) <==> Denotes(A, ident, place, k)
  {
    hide Selected;
    SelectedUnfolds(PathTo(Table.Alert, place), ident, k);
  }

  lemma ExactForRest(place: Place, ident: nat, k: Key)
    requires (place.ActionPlace? || place.ReferencePlace?) && PlaceIndexed(place) && WellKeyed(k)
    ensures Selected(PathTo(Table.Alert, place), ident, k) <==> Denotes(A, ident, place, k)
  {
    hide Selected;
    SelectedUnfolds(PathTo(Table.Alert, place), ident, k);
  }

  lemma ExactForListed(place: Place, ident: nat, k: Key)
    requires Listed(place) && PlaceIndexed(place) && WellKeyed(k)
    ensures Selected(PathTo(Table.Alert, place), ident, k) <==> Denotes(A, ident, place, k)
  {
    hide Selected, Denotes, PathTo, WellKeyed, PlaceIndexed;
    if place.SourcePlace? || place.TargetPlace? {
      ExactForEnds(place, ident, k);
    } else if place.ToolIdentPlace? || place.CorrelationIdentPlace? {
      ExactForIdents(place, ident, k);
    } else {
      ExactForRest(place, ident, k);
    }
  }

  lemma ExactForSingle(place: Place, ident: nat, k: Key)
    requires !Common(place) && !InFile(place) && !place.SourcePart? && !place.TargetPart? && !Listed(place)
    requires WellKeyed(k)
    ensures Selected(PathTo(Table.Alert, place), ident, k) <==> Denotes(A, ident, place, k)
  {
    hide Selected;
    SelectedUnfolds(PathTo(Table.Alert, place), ident, k);
  }

  /** The parents of something in a file of a target. */
  lemma FileParents(path: Path, k: Key)
    requires 4 <= |path| <= 6 && path[1].index != Forbidden && path[2].index != Forbidden
    ensures ParentsMet(path, 1, |path| - 2, 0, k) <==>
      && At(path[1].index, k.p0)
      && (|path| > 4 ==> At(path[2].index, k.p1))
      && (|path| > 5 && path[3].index != Forbidden ==> At(path[3].index, k.p2))
  {
    if |path| > 4 {
      assert ParentsMet(path, 2, |path| - 2, 1, k) <==> At(path[2].index, k.p1) && ParentsMet(path, 3, |path| - 2, 2, k);
      if |path| > 5 { assert ParentsMet(path, 4, |path| - 2, 3, k); }
    }
  }

  lemma FileFacts(i: Index, f: Index, k: Key)
    requires Indexed(i) && Indexed(f)
    ensures var path := PathTo(Table.Alert, FilePlace(i, f));
      && TableFor(path) == Table.File && ParentType(path) == NoParent
      && (ParentsMet(path, 1, |path| - 2, 0, k) <==> At(i, k.p0))
      && (OwnMet(path, k) <==> At(f, k.i))
  {
    hide ParentsMet;
    FileParents(PathTo(Table.Alert, FilePlace(i, f)), k);
  }

  lemma ExactForFile(i: Index, f: Index, ident: nat, k: Key)
    requires Indexed(i) && Indexed(f) && WellKeyed(k)
    ensures Selected(PathTo(Table.Alert, FilePlace(i, f)), ident, k) <==> Denotes(A, ident, FilePlace(i, f), k)
  {
    hide Selected, TableFor, ParentType, OwnMet, ParentsMet, PathTo;
    FileFacts(i, f, k);
    SelectedUnfolds(PathTo(Table.Alert, FilePlace(i, f)), ident, k);
  }

  lemma InodeFacts(i: Index, f: Index, k: Key)
    requires Indexed(i) && Indexed(f)
    ensures var path := PathTo(Table.Alert, InodePlace(i, f));
      && TableFor(path) == Inode && ParentType(path) == NoParent
      && (ParentsMet(path, 1, |path| - 2, 0, k) <==> At(i, k.p0) && At(f, k.p1))
      && (OwnMet(path, k) <==> true)
  {
    hide ParentsMet;
    FileParents(PathTo(Table.Alert, InodePlace(i, f)), k);
  }

  lemma ExactForInode(i: Index, f: Index, ident: nat, k: Key)
    requires Indexed(i) && Indexed(f) && WellKeyed(k)
    ensures Selected(PathTo(Table.Alert, InodePlace(i, f)), ident, k) <==> Denotes(A, ident, InodePlace(i, f), k)
  {
    hide Selected, TableFor, ParentType, OwnMet, ParentsMet, PathTo;
    InodeFacts(i, f, k);
    SelectedUnfolds(PathTo(Table.Alert, InodePlace(i, f)), ident, k);
  }

  lemma LinkageFacts(i: Index, f: Index, j: Index, k: Key)
    requires Indexed(i) && Indexed(f) && Indexed(j)
    ensures var path := PathTo(Table.Alert, LinkagePlace(i, f, j));
      && TableFor(path) == Linkage && ParentType(path) == NoParent
      && (ParentsMet(path, 1, |path| - 2, 0, k) <==> At(i, k.p0) && At(f, k.p1))
      && (OwnMet(path, k) <==> At(j, k.i))
  {
    hide ParentsMet;
    FileParents(PathTo(Table.Alert, LinkagePlace(i, f, j)), k);
  }

  lemma ExactForLinkage(i: Index, f: Index, j: Index, ident: nat, k: Key)
    requires Indexed(i) && Indexed(f) && Indexed(j) && WellKeyed(k)
    ensures Selected(PathTo(Table.Alert, LinkagePlace(i, f, j)), ident, k) <==> Denotes(A, ident, LinkagePlace(i, f, j), k)
  {
    hide Selected, TableFor, ParentType, OwnMet, ParentsMet, PathTo;
    LinkageFacts(i, f, j, k);
    SelectedUnfolds(PathTo(Table.Alert, LinkagePlace(i, f, j)), ident, k);
  }

  lemma ChecksumFacts(i: Index, f: Index, j: Index, k: Key)
    requires Indexed(i) && Indexed(f) && Indexed(j)
    ensures var path := PathTo(Table.Alert, ChecksumPlace(i, f, j));
      && TableFor(path) == Checksum && ParentType(path) == NoParent
      && (ParentsMet(path, 1, |path| - 2, 0, k) <==> At(i, k.p0) && At(f, k.p1))
      && (OwnMet(path, k) <==> At(j, k.i))
  {
    hide ParentsMet;
    FileParents(PathTo(Table.Alert, ChecksumPlace(i, f, j)), k);
  }

  lemma ExactForChecksum(i: Index, f: Index, j: Index, ident: nat, k: Key)
    requires Indexed(i) && Indexed(f) && Indexed(j) && WellKeyed(k)
    ensures Selected(PathTo(Table.Alert, ChecksumPlace(i, f, j)), ident, k) <==> Denotes(A, ident, ChecksumPlace(i, f, j), k)
  {
    hide Selected, TableFor, ParentType, OwnMet, ParentsMet, PathTo;
    ChecksumFacts(i, f, j, k);
    SelectedUnfolds(PathTo(Table.Alert, ChecksumPlace(i, f, j)), ident, k);
  }

  lemma AccessUserFacts(i: Index, f: Index, x: Index, k: Key)
    requires Indexed(i) && Indexed(f) && Indexed(x)
    ensures var path := PathTo(Table.Alert, AccessUserPlace(i, f, x));
      && TableFor(path) == UserId && ParentType(path) == F
      && (ParentsMet(path, 1, |path| - 2, 0, k) <==> At(i, k.p0) && At(f, k.p1) && At(x, k.p2))
      && (OwnMet(path, k) <==> true)
  {
    hide ParentsMet;
    FileParents(PathTo(Table.Alert, AccessUserPlace(i, f, x)), k);
  }

  lemma ExactForAccessUser(i: Index, f: Index, x: Index, ident: nat, k: Key)
    requires Indexed(i) && Indexed(f) && Indexed(x) && WellKeyed(k)
    ensures Selected(PathTo(Table.Alert, AccessUserPlace(i, f, x)), ident, k) <==> Denotes(A, ident, AccessUserPlace(i, f, x), k)
  {
    hide Selected, TableFor, ParentType, OwnMet, ParentsMet, PathTo;
    AccessUserFacts(i, f, x, k);
    SelectedUnfolds(PathTo(Table.Alert, AccessUserPlace(i, f, x)), ident, k);
  }

  /** The compiled conditions select exactly the rows of the elements that the path denotes,
      for every path but those to the permissions of a file access. */
  lemma JoinExact(place: Place, ident: nat, k: Key)
    requires !place.PermissionPlace? && PlaceIndexed(place) && WellKeyed(k)
    ensures Selected(PathTo(Table.Alert, place), ident, k) <==> Denotes(A, ident, place, k)
    ensures Common(place) ==> (Selected(PathTo(Table.Heartbeat, place), ident, k) <==> Denotes(H, ident, place, k))
  {
    hide Selected, Denotes, PathTo, WellKeyed;
    match place
    case AnalyzerPlace(i) =>
      ExactForAnalyzer(Table.Alert, i, ident, k);
      ExactForAnalyzer(Table.Heartbeat, i, ident, k);
    case AdditionalDataPlace(j) =>
      ExactForData(Table.Alert, j, ident, k);
      ExactForData(Table.Heartbeat, j, ident, k);
    case AnalyzerPart(i, part) =>
      ExactForAnalyzerPart(Table.Alert, i, part, ident, k);
      ExactForAnalyzerPart(Table.Heartbeat, i, part, ident, k);
    case SourcePart(i, part) => ExactForSourcePart(i, part, ident, k);
    case TargetPart(i, part) => ExactForTargetPart(i, part, ident, k);
    case FilePlace(i, f) => ExactForFile(i, f, ident, k);
    case InodePlace(i, f) => ExactForInode(i, f, ident, k);
    case LinkagePlace(i, f, j) => ExactForLinkage(i, f, j, ident, k);
    case ChecksumPlace(i, f, j) => ExactForChecksum(i, f, j, ident, k);
    case AccessUserPlace(i, f, x) => ExactForAccessUser(i, f, x, ident, k);
    case _ =>
      if place.CreateTimePlace? || place.AnalyzerTimePlace? {
        ExactForTimes(Table.Alert, place, ident, k);
        ExactForTimes(Table.Heartbeat, place, ident, k);
      } else if Listed(place) {
        ExactForListed(place, ident, k);
      } else {
        ExactForSingle(place, ident, k);
      }
  }

  /** A path to permissions loses the constraint on the file access: it selects the
      permissions at its position of all accesses of the file, and their copies. */
  lemma PermissionsSelected(i: Index, f: Index, x: Index, j: Index, ident: nat, k: Key)
    requires Indexed(i) && Indexed(f) && Indexed(x) && Indexed(j) && WellKeyed(k)
    ensures Selected(PathTo(Table.Alert, PermissionPlace(i, f, x, j)), ident, k) <==>
      && k == Key(Permission, NoParent, ident, k.p0, k.p1, k.p2, k.i)
      && At(i, k.p0) && At(f, k.p1) && At(j, k.i)
  {
    hide Selected, ParentsMet;
    var path := PathTo(Table.Alert, PermissionPlace(i, f, x, j));
    SelectedUnfolds(path, ident, k);
    FileParents(path, k);
  }

  /** So such a path selects what it denotes exactly when no other access of the chosen files
      has a permission at the chosen position. */
  lemma PermissionsExact(i: Index, f: Index, x: Index, j: Index, ident: nat, rows: Rows)
    requires Indexed(i) && Indexed(f) && Indexed(x) && Indexed(j) && forall k :: k in rows ==> WellKeyed(k)
    ensures var place := PermissionPlace(i, f, x, j);
      (forall k :: k in rows ==> (Selected(PathTo(Table.Alert, place), ident, k) <==> Denotes(A, ident, place, k)))
      <==> (forall p0, p1, p2, n :: At(i, p0) && At(f, p1) && At(j, n) && !At(x, p2) ==>
              Key(Permission, NoParent, ident, p0, p1, p2, n) !in rows)
  {
    hide Selected, PathTo;
    var place := PermissionPlace(i, f, x, j);
    forall k | k in rows
      ensures (Selected(PathTo(Table.Alert, place), ident, k) <==> Denotes(A, ident, place, k)) <==>
        !(k == Key(Permission, NoParent, ident, k.p0, k.p1, k.p2, k.i) && At(i, k.p0) && At(f, k.p1) && At(j, k.i)
          && !At(x, k.p2))
    {
      PermissionsSelected(i, f, x, j, ident, k);
    }
  }
}
