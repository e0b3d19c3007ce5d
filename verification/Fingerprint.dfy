/**
 The schema fingerprint: tables, columns and constraints are brought into one order, printed as
 JSON, and the text is hashed.

 What the printed text keeps of a schema is stated without any order (`Content`); two schemas print
 the same text exactly when they have the same content.
 */
module Fingerprint {
  import opened JsonText
  import opened Options
  import opened Sorting

  // ---------- Schemas ----------

  datatype Default =
    | NoDefault
    | TextDefault(text: Str)     // a literal SQL text
    | ClauseDefault(text: Str)   // any other default clause, rendered
    | OtherDefault(repr: Str)

  /** The name of the Python type, if there is one, the name of the class, and everything else about the type. */
  datatype ColumnType = ColumnType(pythonName: Option<Str>, className: Str, details: Str)

  datatype Column = Column(
    name: Str, sqlType: ColumnType, default: Default, nullable: bool, primaryKey: bool, unique: bool)

  /**
   Each constraint carries the representation it is first sorted by.  A foreign key has a local column
   and a target table for each of its elements.
   */
  datatype Constraint =
    | ForeignKey(repr: Str, locals: seq<Str>, targets: seq<Str>, onDelete: Option<Str>, onUpdate: Option<Str>)
    | PrimaryKey(repr: Str, columns: seq<Str>)
    | Unique(repr: Str, columns: seq<Str>)
    | Check(repr: Str, text: Str)
    | Other(repr: Str)

  datatype Table = Table(name: Str, columns: seq<Column>, constraints: seq<Constraint>)

  // ---------- Canonical tuples ----------

  datatype ColumnTuple = ColumnTuple(
    name: Str, typeName: Str, default: Str, nullable: bool, primaryKey: bool, unique: bool)

  datatype ConstraintTuple = Fk(target: Str, onDelete: Str, onUpdate: Str) | Uq(columns: seq<Str>) | Ck(text: Str)

  datatype TableRepr = TableRepr(name: Str, columns: seq<ColumnTuple>, constraints: seq<ConstraintTuple>)

  /** An ASCII literal as code points. */
  function Ascii(s: string): Str
    requires forall c | c in s :: c < '\U{0080}'
  {
    seq(|s|, i requires 0 <= i < |s| => (assert s[i] in s; s[i] as int))
  }

  predicate IsSpace(c: CodePoint) {
    9 <= c <= 13 || 28 <= c <= 32
  }

  function LowerPoint(c: CodePoint): CodePoint { if 65 <= c <= 90 then c + 32 else c }

  function UpperPoint(c: CodePoint): CodePoint { if 97 <= c <= 122 then c - 32 else c }

  function StripFront(s: Str): Str {
    if s != [] && IsSpace(s[0]) then StripFront(s[1..]) else s
  }

  function StripBack(s: Str): Str {
    if s != [] && IsSpace(s[|s| - 1]) then StripBack(s[..|s| - 1]) else s
  }

  function Upper(s: Str): Str { Map(UpperPoint, s) }

  function CanonicalType(t: ColumnType): Str {
    if t.pythonName.Some? then t.pythonName.value else t.className
  }

  function CanonicalDefault(d: Default): Str {
    match d
    case NoDefault => Ascii("None")
    case TextDefault(text) => text
    case ClauseDefault(text) => StripBack(StripFront(Map(LowerPoint, text)))
    case OtherDefault(repr) => repr
  }

  function Action(a: Option<Str>): Str {
    match a case None => [] case Some(s) => Upper(s)
  }

  predicate SoleColumn(c: Constraint, name: Str) {
    c.Unique? && c.columns == [name]
  }

  /** Declared unique by flag, or the sole column of a unique constraint. */
  ghost predicate UniqueIn(col: Column, constraints: multiset<Constraint>) {
    col.unique || exists c :: c in constraints && SoleColumn(c, col.name)
  }

  ghost function TupleOf(table: Table): Column -> ColumnTuple {
    var constraints := multiset(table.constraints);
    (col: Column) => ColumnTuple(col.name, CanonicalType(col.sqlType), CanonicalDefault(col.default), col.nullable,
                                 col.primaryKey, UniqueIn(col, constraints))
  }

  /** What one constraint contributes: a tuple per element of a foreign key, one for a proper unique or check. */
  function TuplesOf(c: Constraint): seq<ConstraintTuple> {
    match c
    case ForeignKey(_, _, targets, onDelete, onUpdate) =>
      Map((t: Str) => Fk(t, Action(onDelete), Action(onUpdate)), targets)
    case Unique(_, columns) => if columns == [] then [] else [Uq(Sort(StrLe, columns))]
    case Check(_, text) => [Ck(text)]
    case PrimaryKey(_, _) => []
    case Other(_) => []
  }

  // ---------- Orders ----------

  function PointLe(a: CodePoint, b: CodePoint): bool { a <= b }

  function StrLe(a: Str, b: Str): bool { Lex(PointLe, a, b) }

  function StrsLe(a: seq<Str>, b: seq<Str>): bool { Lex(StrLe, a, b) }

  function KindOf(t: ConstraintTuple): nat {
    match t case Ck(_) => 0 case Fk(_, _, _) => 1 case Uq(_) => 2
  }

  function PartsOf(t: ConstraintTuple): seq<Str> {
    match t
    case Ck(text) => [text]
    case Fk(target, onDelete, onUpdate) => [target, onDelete, onUpdate]
    case Uq(columns) => columns
  }

  function TupleLe(a: ConstraintTuple, b: ConstraintTuple): bool {
    KindOf(a) < KindOf(b) || (KindOf(a) == KindOf(b) && StrsLe(PartsOf(a), PartsOf(b)))
  }

  function ColumnLe(a: Column, b: Column): bool { StrLe(a.name, b.name) }

  function ConstraintLe(a: Constraint, b: Constraint): bool { StrLe(a.repr, b.repr) }

  function TableLe(a: Table, b: Table): bool { StrLe(a.name, b.name) }

  // ---------- The canonical form ----------

  ghost function ReprOf(table: Table): TableRepr {
    TableRepr(
      table.name,
      Map(TupleOf(table), Sort(ColumnLe, table.columns)),
      Sort(TupleLe, Collect(TuplesOf, Sort(ConstraintLe, table.constraints))))
  }

  ghost function Canonical(tables: seq<Table>): seq<TableRepr> {
    Map(ReprOf, Sort(TableLe, tables))
  }

  function TextOf(s: Str): Value { Text(Utf16(s)) }

  function ColumnValue(c: ColumnTuple): Value {
    List([TextOf(c.name), TextOf(c.typeName), TextOf(c.default), Flag(c.nullable), Flag(c.primaryKey), Flag(c.unique)])
  }

  function ConstraintValue(t: ConstraintTuple): Value {
    match t
    case Fk(target, onDelete, onUpdate) =>
      List([TextOf(Ascii("fk")), TextOf(target), TextOf(onDelete), TextOf(onUpdate)])
    case Uq(columns) => List([TextOf(Ascii("uq")), List(Map(TextOf, columns))])
    case Ck(text) => List([TextOf(Ascii("ck")), TextOf(text)])
  }

  function TableValue(t: TableRepr): Value {
    List([TextOf(t.name), List(Map(ColumnValue, t.columns)), List(Map(ConstraintValue, t.constraints))])
  }

  function Serialise(reprs: seq<TableRepr>): string {
    Print(List(Map(TableValue, reprs)))
  }

  ghost function Serialised(tables: seq<Table>): string {
    Serialise(Canonical(tables))
  }

  // ---------- The same, in the loops of the program ----------

  method ColumnUniqueInTable(col: Column, table: Table) returns (unique: bool)
    ensures unique <==> UniqueIn(col, multiset(table.constraints))
  {
    if col.unique {
      return true;
    }
    for i := 0 to |table.constraints|
      invariant forall j | 0 <= j < i :: !SoleColumn(table.constraints[j], col.name)
    {
      var c := table.constraints[i];
      if c.Unique? && |c.columns| == 1 && c.columns[0] == col.name {
        assert c in multiset(table.constraints) && SoleColumn(c, col.name);
        return true;
      }
    }
    return false;
  }

  method BuildTableRepr(table: Table) returns (repr: TableRepr)
    ensures repr == ReprOf(table)
  {
    var columnTuples: seq<ColumnTuple> := [];
    var columns := Sort(ColumnLe, table.columns);
    ghost var tuple := TupleOf(table);
    for i := 0 to |columns|
      invariant |columnTuples| == i && forall j | 0 <= j < i :: columnTuples[j] == tuple(columns[j])
    {
      var col := columns[i];
      var unique := ColumnUniqueInTable(col, table);
      columnTuples := columnTuples + [ColumnTuple(
        col.name, CanonicalType(col.sqlType), CanonicalDefault(col.default), col.nullable, col.primaryKey, unique)];
    }
    assert columnTuples == Map(tuple, columns);
    var constraints := Sort(ConstraintLe, table.constraints);
    var constraintTuples := BuildConstraintTuples(constraints);
    return TableRepr(table.name, columnTuples, Sort(TupleLe, constraintTuples));
  }

  method BuildConstraintTuples(constraints: seq<Constraint>) returns (tuples: seq<ConstraintTuple>)
    ensures tuples == Collect(TuplesOf, constraints)
  {
    hide Sort, StrLe, Action;
    tuples := [];
    for i := 0 to |constraints|
      invariant tuples == Collect(TuplesOf, constraints[..i])
    {
      CollectAppend(TuplesOf, constraints[..i], [constraints[i]]);
      assert constraints[..i] + [constraints[i]] == constraints[..i + 1];
      assert Collect(TuplesOf, [constraints[i]]) == TuplesOf(constraints[i]) + Collect(TuplesOf, []);
      match constraints[i] {
        case ForeignKey(_, _, targets, onDelete, onUpdate) =>
          ghost var before := tuples;
          for k := 0 to |targets|
            invariant |tuples| == |before| + k && tuples[..|before|] == before
            invariant forall j | 0 <= j < k :: tuples[|before| + j] == Fk(targets[j], Action(onDelete), Action(onUpdate))
          {
            tuples := tuples + [Fk(targets[k], Action(onDelete), Action(onUpdate))];
          }
          assert tuples == before + TuplesOf(constraints[i]);
        case Unique(_, columns) =>
          if columns != [] {
            tuples := tuples + [Uq(Sort(StrLe, columns))];
          }
        case Check(_, text) =>
          tuples := tuples + [Ck(text)];
        case PrimaryKey(_, _) =>
        case Other(_) =>
      }
    }
    assert constraints[..|constraints|] == constraints;
  }

  method SchemaFingerprint(digest: string -> string, tables: seq<Table>) returns (fingerprint: string)
    ensures fingerprint == digest(Serialised(tables))
  {
    hide ReprOf, Sort, TableLe, Serialise;
    var reprs: seq<TableRepr> := [];
    var sorted := Sort(TableLe, tables);
    for i := 0 to |sorted|
      invariant |reprs| == i && forall j | 0 <= j < i :: reprs[j] == ReprOf(sorted[j])
    {
      var repr := BuildTableRepr(sorted[i]);
      reprs := reprs + [repr];
    }
    assert reprs == Canonical(tables);
    return digest(Serialise(reprs));
  }
}
