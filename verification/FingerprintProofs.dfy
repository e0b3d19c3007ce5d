/**
 What the fingerprinted text says about a schema: exactly its content, which is defined here
 without any order.
 */
module FingerprintProofs {
  import opened Fingerprint
  import opened JsonText
  import opened Options
  import opened Sorting

  // ---------- Content without order ----------

  datatype Fact = FkFact(target: Str, onDelete: Str, onUpdate: Str) | UqFact(columns: multiset<Str>) | CkFact(text: Str)

  datatype Content = Content(name: Str, columns: multiset<ColumnTuple>, facts: multiset<Fact>)

  ghost function FactsOf(c: Constraint): seq<Fact> {
    match c
    case ForeignKey(_, _, targets, onDelete, onUpdate) =>
      Map((t: Str) => FkFact(t, Action(onDelete), Action(onUpdate)), targets)
    case Unique(_, columns) => if columns == [] then [] else [UqFact(multiset(columns))]
    case Check(_, text) => [CkFact(text)]
    case PrimaryKey(_, _) => []
    case Other(_) => []
  }

  ghost function ContentOf(table: Table): Content {
    Content(table.name, multiset(Map(TupleOf(table), table.columns)), multiset(Collect(FactsOf, table.constraints)))
  }

  ghost predicate SameContent(a: seq<Table>, b: seq<Table>) {
    multiset(Map(ContentOf, a)) == multiset(Map(ContentOf, b))
  }

  ghost predicate DistinctTables(tables: seq<Table>) {
    forall i, j | 0 <= i < j < |tables| :: tables[i].name != tables[j].name
  }

  ghost predicate DistinctColumns(table: Table) {
    forall i, j | 0 <= i < j < |table.columns| :: table.columns[i].name != table.columns[j].name
  }

  /** What the schema library guarantees: names are keys. */
  ghost predicate WellFormed(tables: seq<Table>) {
    DistinctTables(tables) && forall t | t in tables :: DistinctColumns(t)
  }

  // ---------- The orders ----------

  lemma {:induction false} StrOrder()
    ensures Order(StrLe)
  {
    assert Order(PointLe);
    forall x: Str, y: Str
      ensures StrLe(x, y) || StrLe(y, x)
      ensures StrLe(x, y) && StrLe(y, x) ==> x == y
    {
      LexTotal(PointLe, x, y);
    }
    forall x: Str, y: Str, z: Str | StrLe(x, y) && StrLe(y, z)
      ensures StrLe(x, z)
    {
      LexTransitive(PointLe, x, y, z);
    }
  }

  lemma {:induction false} SamePartsSameTuple(x: ConstraintTuple, y: ConstraintTuple)
    requires KindOf(x) == KindOf(y) && PartsOf(x) == PartsOf(y)
    ensures x == y
  {
    match x
    case Ck(_) => assert x.text == PartsOf(x)[0] == PartsOf(y)[0];
    case Fk(_, _, _) =>
      assert x.target == PartsOf(x)[0] == PartsOf(y)[0] == y.target;
      assert x.onDelete == PartsOf(x)[1] == PartsOf(y)[1] == y.onDelete;
      assert x.onUpdate == PartsOf(x)[2] == PartsOf(y)[2] == y.onUpdate;
    case Uq(_) =>
  }

  lemma {:induction false} TupleOrder()
    ensures Order(TupleLe)
  {
    StrOrder();
    forall x, y
      ensures TupleLe(x, y) || TupleLe(y, x)
      ensures TupleLe(x, y) && TupleLe(y, x) ==> x == y
    {
      LexTotal(StrLe, PartsOf(x), PartsOf(y));
      if KindOf(x) == KindOf(y) && PartsOf(x) == PartsOf(y) {
        assert PartsOf(x)[..] == PartsOf(y)[..];
        SamePartsSameTuple(x, y);
      }
    }
    forall x, y, z | TupleLe(x, y) && TupleLe(y, z)
      ensures TupleLe(x, z)
    {
      if KindOf(x) == KindOf(y) == KindOf(z) {
        LexTransitive(StrLe, PartsOf(x), PartsOf(y), PartsOf(z));
      }
    }
  }

  // ---------- From the canonical form to the content ----------

  ghost function FactOf(t: ConstraintTuple): Fact {
    match t
    case Fk(target, onDelete, onUpdate) => FkFact(target, onDelete, onUpdate)
    case Uq(columns) => UqFact(multiset(columns))
    case Ck(text) => CkFact(text)
  }

  ghost function ContentFrom(r: TableRepr): Content {
    Content(r.name, multiset(r.columns), multiset(Map(FactOf, r.constraints)))
  }

  lemma {:induction false} FactsOfOne(c: Constraint)
    ensures FactsOf(c) == Map(FactOf, TuplesOf(c))
  {
    if c.Unique? {
      SortKeeps(StrLe, c.columns);
    }
  }

  lemma {:induction false} MapAppend<T, U>(f: T -> U, a: seq<T>, b: seq<T>)
    ensures Map(f, a + b) == Map(f, a) + Map(f, b)
  {
  }

  lemma {:induction false} FactsAreTupleFacts(constraints: seq<Constraint>)
    ensures Collect(FactsOf, constraints) == Map(FactOf, Collect(TuplesOf, constraints))
  {
    if constraints == [] {
    } else {
      hide FactsOf, TuplesOf, FactOf;
      FactsAreTupleFacts(constraints[1..]);
      FactsOfOne(constraints[0]);
      MapAppend(FactOf, TuplesOf(constraints[0]), Collect(TuplesOf, constraints[1..]));
    }
  }

  /** The canonical form of a table determines its content. */
  lemma {:induction false} ReprKeepsContent(table: Table)
    ensures ContentFrom(ReprOf(table)) == ContentOf(table)
  {
    var columns, constraints := table.columns, table.constraints;
    SortKeeps(ColumnLe, columns);
    MapForgetsOrder(TupleOf(table), Sort(ColumnLe, columns), columns);
    var sorted := Sort(ConstraintLe, constraints);
    var tuples := Collect(TuplesOf, sorted);
    SortKeeps(ConstraintLe, constraints);
    SortKeeps(TupleLe, tuples);
    CollectForgetsOrder(FactsOf, sorted, constraints);
    FactsAreTupleFacts(sorted);
    MapForgetsOrder(FactOf, Sort(TupleLe, tuples), tuples);
  }

  // ---------- From the content to the canonical form ----------

  ghost predicate Tidy(t: ConstraintTuple) {
    t.Uq? ==> Sorted(StrLe, t.columns)
  }

  lemma {:induction false} TidyFacts(x: ConstraintTuple, y: ConstraintTuple)
    requires Tidy(x) && Tidy(y) && FactOf(x) == FactOf(y)
    ensures x == y
  {
    if x.Uq? {
      StrOrder();
      SortedUnique(StrLe, x.columns, y.columns);
    }
  }

  lemma {:induction false} CollectedTidy(constraints: seq<Constraint>)
    ensures forall t | t in Collect(TuplesOf, constraints) :: Tidy(t)
  {
    if constraints == [] {
    } else {
      CollectedTidy(constraints[1..]);
      StrOrder();
      if constraints[0].Unique? {
        SortSorts(StrLe, constraints[0].columns);
      }
    }
  }

  lemma {:induction false} CountByFact(tuples: seq<ConstraintTuple>, x: ConstraintTuple)
    requires Tidy(x) && forall t | t in tuples :: Tidy(t)
    ensures multiset(tuples)[x] == multiset(Map(FactOf, tuples))[FactOf(x)]
  {
    if tuples == [] {
    } else {
      assert tuples == [tuples[0]] + tuples[1..];
      var facts := Map(FactOf, tuples);
      assert facts == [FactOf(tuples[0])] + Map(FactOf, tuples[1..]);
      CountByFact(tuples[1..], x);
      if FactOf(tuples[0]) == FactOf(x) {
        TidyFacts(tuples[0], x);
      }
    }
  }

  lemma {:induction false} FactsDetermineTuples(a: seq<ConstraintTuple>, b: seq<ConstraintTuple>)
    requires forall t | t in a :: Tidy(t)
    requires forall t | t in b :: Tidy(t)
    requires multiset(Map(FactOf, a)) == multiset(Map(FactOf, b))
    ensures multiset(a) == multiset(b)
  {
    forall x
      ensures multiset(a)[x] == multiset(b)[x]
    {
      if Tidy(x) {
        CountByFact(a, x);
        CountByFact(b, x);
      } else {
        assert x !in a && x !in b;
      }
    }
  }

  ghost function ColumnTupleLe(): (ColumnTuple, ColumnTuple) -> bool {
    (a: ColumnTuple, b: ColumnTuple) => StrLe(a.name, b.name)
  }

  ghost function ContentLe(): (Content, Content) -> bool {
    (a: Content, b: Content) => StrLe(a.name, b.name)
  }

  lemma {:induction false} ColumnOrders()
    ensures Preorder(ColumnLe) && Preorder(ColumnTupleLe())
  {
    hide StrLe;
    StrOrder();
  }

  lemma TuplesKeepOrder(table: Table)
    ensures forall x, y :: ColumnLe(x, y) <==> ColumnTupleLe()(TupleOf(table)(x), TupleOf(table)(y))
  {
  }

  lemma {:induction false} ColumnsNotLevel(table: Table)
    requires DistinctColumns(table)
    ensures forall i, j | 0 <= i < j < |table.columns| ::
              !(ColumnLe(table.columns[i], table.columns[j]) && ColumnLe(table.columns[j], table.columns[i]))
  {
    hide StrLe;
    StrOrder();
  }

  lemma {:induction false} ColumnsDetermined(a: Table, b: Table)
    requires DistinctColumns(a)
    requires multiset(Map(TupleOf(a), a.columns)) == multiset(Map(TupleOf(b), b.columns))
    ensures ReprOf(a).columns == ReprOf(b).columns
  {
    hide StrLe, TupleOf, ColumnLe, ColumnTupleLe, Sort, Preorder;
    ColumnOrders();
    TuplesKeepOrder(a);
    TuplesKeepOrder(b);
    ColumnsNotLevel(a);
    MappedSortUnique(TupleOf(a), TupleOf(b), ColumnLe, ColumnTupleLe(), a.columns, b.columns);
  }

  lemma {:induction false} ConstraintsDetermined(a: Table, b: Table)
    requires multiset(Collect(FactsOf, a.constraints)) == multiset(Collect(FactsOf, b.constraints))
    ensures ReprOf(a).constraints == ReprOf(b).constraints
  {
    TupleOrder();
    var sa, sb := Sort(ConstraintLe, a.constraints), Sort(ConstraintLe, b.constraints);
    SortKeeps(ConstraintLe, a.constraints);
    SortKeeps(ConstraintLe, b.constraints);
    CollectForgetsOrder(FactsOf, sa, a.constraints);
    CollectForgetsOrder(FactsOf, sb, b.constraints);
    FactsAreTupleFacts(sa);
    FactsAreTupleFacts(sb);
    CollectedTidy(sa);
    CollectedTidy(sb);
    FactsDetermineTuples(Collect(TuplesOf, sa), Collect(TuplesOf, sb));
    SortForgetsOrder(TupleLe, Collect(TuplesOf, sa), Collect(TuplesOf, sb));
  }

  /** Tables with the same content have the same canonical form. */
  lemma {:induction false} ContentDeterminesRepr(a: Table, b: Table)
    requires DistinctColumns(a) && ContentOf(a) == ContentOf(b)
    ensures ReprOf(a) == ReprOf(b)
  {
    ColumnsDetermined(a, b);
    ConstraintsDetermined(a, b);
  }

  lemma {:induction false} SameContents(sa: seq<Table>, sb: seq<Table>)
    requires Map(ReprOf, sa) == Map(ReprOf, sb)
    ensures Map(ContentOf, sa) == Map(ContentOf, sb)
  {
    assert |sa| == |Map(ReprOf, sa)| == |sb|;
    forall i | 0 <= i < |sa|
      ensures ContentOf(sa[i]) == ContentOf(sb[i])
    {
      assert Map(ReprOf, sa)[i] == Map(ReprOf, sb)[i];
      ReprKeepsContent(sa[i]);
      ReprKeepsContent(sb[i]);
    }
  }

  lemma {:induction false} SortedContents(a: seq<Table>, b: seq<Table>)
    requires DistinctTables(a) && SameContent(a, b)
    ensures Map(ContentOf, Sort(TableLe, a)) == Map(ContentOf, Sort(TableLe, b))
  {
    StrOrder();
    MappedSortUnique(ContentOf, ContentOf, TableLe, ContentLe(), a, b);
  }

  lemma {:induction false} SameReprs(sa: seq<Table>, sb: seq<Table>)
    requires Map(ContentOf, sa) == Map(ContentOf, sb)
    requires forall t | t in sa :: DistinctColumns(t)
    ensures Map(ReprOf, sa) == Map(ReprOf, sb)
  {
    assert |sa| == |Map(ContentOf, sa)| == |sb|;
    forall i | 0 <= i < |sa|
      ensures ReprOf(sa[i]) == ReprOf(sb[i])
    {
      assert Map(ContentOf, sa)[i] == Map(ContentOf, sb)[i];
      assert sa[i] in sa;
      ContentDeterminesRepr(sa[i], sb[i]);
    }
  }

  /** Two schemas have the same canonical form exactly when they have the same content. */
  lemma {:induction false} CanonicalIff(a: seq<Table>, b: seq<Table>)
    requires WellFormed(a) && WellFormed(b)
    ensures Canonical(a) == Canonical(b) <==> SameContent(a, b)
  {
    var sa, sb := Sort(TableLe, a), Sort(TableLe, b);
    SortKeeps(TableLe, a);
    SortKeeps(TableLe, b);
    MapForgetsOrder(ContentOf, sa, a);
    MapForgetsOrder(ContentOf, sb, b);
    assert forall t | t in sa :: t in multiset(sa);
    if Canonical(a) == Canonical(b) {
      SameContents(sa, sb);
    }
    if SameContent(a, b) {
      SortedContents(a, b);
      SameReprs(sa, sb);
    }
  }

  // ---------- From the text to the canonical form ----------

  ghost predicate TuplePairFree(t: ConstraintTuple) {
    forall s | s in PartsOf(t) :: PairFree(s)
  }

  ghost predicate ColumnPairFree(c: ColumnTuple) {
    PairFree(c.name) && PairFree(c.typeName) && PairFree(c.default)
  }

  ghost predicate ReprPairFree(r: TableRepr) {
    && PairFree(r.name)
    && (forall c | c in r.columns :: ColumnPairFree(c))
    && (forall t | t in r.constraints :: TuplePairFree(t))
  }

  ghost predicate AllPairFree(reprs: seq<TableRepr>) {
    forall r | r in reprs :: ReprPairFree(r)
  }

  lemma {:induction false} TextInjective(s: Str, t: Str)
    requires TextOf(s) == TextOf(t) && PairFree(s) && PairFree(t)
    ensures s == t
  {
    Utf16Injective(s, t);
  }

  lemma {:induction false} ColumnValueInjective(a: ColumnTuple, b: ColumnTuple)
    requires ColumnPairFree(a) && ColumnPairFree(b) && ColumnValue(a) == ColumnValue(b)
    ensures a == b
  {
    var va, vb := ColumnValue(a).items, ColumnValue(b).items;
    assert va[0] == vb[0] && va[1] == vb[1] && va[2] == vb[2] && va[3] == vb[3] && va[4] == vb[4] && va[5] == vb[5];
    TextInjective(a.name, b.name);
    TextInjective(a.typeName, b.typeName);
    TextInjective(a.default, b.default);
  }

  lemma {:induction false} KindTags()
    ensures TextOf(Ascii("fk")) != TextOf(Ascii("uq"))
    ensures TextOf(Ascii("fk")) != TextOf(Ascii("ck"))
    ensures TextOf(Ascii("uq")) != TextOf(Ascii("ck"))
  {
    var fk, uq, ck := Ascii("fk"), Ascii("uq"), Ascii("ck");
    assert fk[0] == 0x66 && uq[0] == 0x75 && ck[0] == 0x63;
    assert Utf16(fk)[0] == 0x66 && Utf16(uq)[0] == 0x75 && Utf16(ck)[0] == 0x63;
  }

  lemma {:induction false} ConstraintValueInjective(a: ConstraintTuple, b: ConstraintTuple)
    requires TuplePairFree(a) && TuplePairFree(b) && ConstraintValue(a) == ConstraintValue(b)
    ensures a == b
  {
    KindTags();
    var va, vb := ConstraintValue(a).items, ConstraintValue(b).items;
    assert va[0] == vb[0] && va[1] == vb[1];
    match a {
      case Fk(target, onDelete, onUpdate) =>
        assert va[2] == vb[2] && va[3] == vb[3];
        assert target in PartsOf(a) && onDelete in PartsOf(a) && onUpdate in PartsOf(a);
        assert b.target in PartsOf(b) && b.onDelete in PartsOf(b) && b.onUpdate in PartsOf(b);
        TextInjective(target, b.target);
        TextInjective(onDelete, b.onDelete);
        TextInjective(onUpdate, b.onUpdate);
      case Uq(columns) =>
        var la, lb := Map(TextOf, columns), Map(TextOf, b.columns);
        assert la == lb;
        assert |columns| == |la| == |b.columns|;
        forall i | 0 <= i < |columns|
          ensures columns[i] == b.columns[i]
        {
          assert la[i] == lb[i];
          assert columns[i] in PartsOf(a) && b.columns[i] in PartsOf(b);
          TextInjective(columns[i], b.columns[i]);
        }
      case Ck(text) =>
        assert text in PartsOf(a) && b.text in PartsOf(b);
        TextInjective(text, b.text);
    }
  }

  lemma {:induction false} TableValueInjective(a: TableRepr, b: TableRepr)
    requires ReprPairFree(a) && ReprPairFree(b) && TableValue(a) == TableValue(b)
    ensures a == b
  {
    var va, vb := TableValue(a).items, TableValue(b).items;
    assert va[0] == vb[0] && va[1] == vb[1] && va[2] == vb[2];
    TextInjective(a.name, b.name);
    var ca, cb := Map(ColumnValue, a.columns), Map(ColumnValue, b.columns);
    assert ca == cb;
    assert |a.columns| == |ca| == |b.columns|;
    forall i | 0 <= i < |a.columns|
      ensures a.columns[i] == b.columns[i]
    {
      assert ca[i] == cb[i];
      ColumnValueInjective(a.columns[i], b.columns[i]);
    }
    var ka, kb := Map(ConstraintValue, a.constraints), Map(ConstraintValue, b.constraints);
    assert ka == kb;
    assert |a.constraints| == |ka| == |b.constraints|;
    forall i | 0 <= i < |a.constraints|
      ensures a.constraints[i] == b.constraints[i]
    {
      assert ka[i] == kb[i];
      ConstraintValueInjective(a.constraints[i], b.constraints[i]);
    }
  }

  /** Before hashing nothing is lost: the text determines the canonical form. */
  lemma {:induction false} SerialiseInjective(a: seq<TableRepr>, b: seq<TableRepr>)
    requires AllPairFree(a) && AllPairFree(b) && Serialise(a) == Serialise(b)
    ensures a == b
  {
    var va, vb := Map(TableValue, a), Map(TableValue, b);
    assert Print(List(va)) + "" == Print(List(va)) && Print(List(vb)) + "" == Print(List(vb));
    PrintInjective(List(va), List(vb), "", "");
    assert |a| == |va| == |b|;
    forall i | 0 <= i < |a|
      ensures a[i] == b[i]
    {
      assert va[i] == vb[i];
      TableValueInjective(a[i], b[i]);
    }
  }

  /** Two schemas give the same text exactly when they have the same content. */
  lemma {:induction false} SameTextIff(a: seq<Table>, b: seq<Table>)
    requires WellFormed(a) && WellFormed(b)
    requires AllPairFree(Canonical(a)) && AllPairFree(Canonical(b))
    ensures Serialised(a) == Serialised(b) <==> SameContent(a, b)
  {
    CanonicalIff(a, b);
    if Serialised(a) == Serialised(b) {
      SerialiseInjective(Canonical(a), Canonical(b));
    }
  }

  // ---------- Strings with surrogates ----------

  function JoinedColumn(c: ColumnTuple): ColumnTuple {
    c.(name := Joined(c.name), typeName := Joined(c.typeName), default := Joined(c.default))
  }

  function JoinedTuple(t: ConstraintTuple): ConstraintTuple {
    match t
    case Fk(target, onDelete, onUpdate) => Fk(Joined(target), Joined(onDelete), Joined(onUpdate))
    case Uq(columns) => Uq(Map(Joined, columns))
    case Ck(text) => Ck(Joined(text))
  }

  /** The canonical form of a table with every written-out surrogate pair joined. */
  function JoinedTable(r: TableRepr): TableRepr {
    TableRepr(Joined(r.name), Map(JoinedColumn, r.columns), Map(JoinedTuple, r.constraints))
  }

  lemma {:induction false} JoinedPrints(s: Str)
    ensures TextOf(Joined(s)) == TextOf(s) && PairFree(Joined(s))
  {
    JoinedUnits(s);
    JoinedIsPairFree(s);
  }

  lemma {:induction false} JoinedColumnPrints(c: ColumnTuple)
    ensures ColumnValue(JoinedColumn(c)) == ColumnValue(c) && ColumnPairFree(JoinedColumn(c))
  {
    hide Joined, Utf16, PairFree;
    JoinedPrints(c.name);
    JoinedPrints(c.typeName);
    JoinedPrints(c.default);
  }

  lemma {:induction false} JoinedTuplePrints(t: ConstraintTuple)
    ensures ConstraintValue(JoinedTuple(t)) == ConstraintValue(t) && TuplePairFree(JoinedTuple(t))
  {
    hide Joined, Utf16, PairFree, Ascii;
    var parts := PartsOf(t);
    forall i | 0 <= i < |parts|
      ensures TextOf(Joined(parts[i])) == TextOf(parts[i]) && PairFree(Joined(parts[i]))
    {
      JoinedPrints(parts[i]);
    }
    match t
    case Fk(target, onDelete, onUpdate) =>
      assert target == parts[0] && onDelete == parts[1] && onUpdate == parts[2];
    case Uq(columns) =>
      assert Map(TextOf, Map(Joined, columns)) == Map(TextOf, columns);
    case Ck(text) =>
      assert text == parts[0];
  }

  lemma {:induction false} JoinedTablePrints(r: TableRepr)
    ensures TableValue(JoinedTable(r)) == TableValue(r) && ReprPairFree(JoinedTable(r))
  {
    hide JoinedColumn, JoinedTuple, ColumnValue, ConstraintValue, Joined, Utf16, PairFree, ColumnPairFree, TuplePairFree;
    JoinedPrints(r.name);
    forall i | 0 <= i < |r.columns|
      ensures ColumnValue(JoinedColumn(r.columns[i])) == ColumnValue(r.columns[i])
      ensures ColumnPairFree(JoinedColumn(r.columns[i]))
    {
      JoinedColumnPrints(r.columns[i]);
    }
    forall i | 0 <= i < |r.constraints|
      ensures ConstraintValue(JoinedTuple(r.constraints[i])) == ConstraintValue(r.constraints[i])
      ensures TuplePairFree(JoinedTuple(r.constraints[i]))
    {
      JoinedTuplePrints(r.constraints[i]);
    }
    assert Map(ColumnValue, Map(JoinedColumn, r.columns)) == Map(ColumnValue, r.columns);
    assert Map(ConstraintValue, Map(JoinedTuple, r.constraints)) == Map(ConstraintValue, r.constraints);
  }

  lemma {:induction false} JoinedSerialises(a: seq<TableRepr>)
    ensures Serialise(Map(JoinedTable, a)) == Serialise(a) && AllPairFree(Map(JoinedTable, a))
  {
    hide JoinedTable, TableValue, ReprPairFree;
    forall i | 0 <= i < |a|
      ensures TableValue(JoinedTable(a[i])) == TableValue(a[i]) && ReprPairFree(JoinedTable(a[i]))
    {
      JoinedTablePrints(a[i]);
    }
    assert Map(TableValue, Map(JoinedTable, a)) == Map(TableValue, a);
  }

  /**
   For canonical forms over any strings: the texts are equal if and only if the forms are, once
   written-out surrogate pairs are joined.
   */
  lemma {:induction false} SerialiseIff(a: seq<TableRepr>, b: seq<TableRepr>)
    ensures Serialise(a) == Serialise(b) <==> Map(JoinedTable, a) == Map(JoinedTable, b)
  {
    JoinedSerialises(a);
    JoinedSerialises(b);
    if Serialise(a) == Serialise(b) {
      SerialiseInjective(Map(JoinedTable, a), Map(JoinedTable, b));
    }
  }

  // ---------- What does not matter ----------

  /** A rewriting of constraints that keeps what they contribute. */
  ghost predicate Harmless(form: Constraint -> Constraint) {
    forall c :: FactsOf(form(c)) == FactsOf(c) && forall name :: SoleColumn(form(c), name) <==> SoleColumn(c, name)
  }

  /** Tables that differ in the order of columns and constraints and in what the rewriting erases. */
  ghost predicate AlikeUnder(form: Constraint -> Constraint, a: Table, b: Table) {
    && a.name == b.name
    && multiset(a.columns) == multiset(b.columns)
    && multiset(Map(form, a.constraints)) == multiset(Map(form, b.constraints))
  }

  lemma {:induction false} UniqueByForm(form: Constraint -> Constraint, col: Column, constraints: seq<Constraint>)
    requires Harmless(form)
    ensures UniqueIn(col, multiset(constraints)) <==> UniqueIn(col, multiset(Map(form, constraints)))
  {
    hide FactsOf, SoleColumn;
    var forms := Map(form, constraints);
    if c :| c in multiset(constraints) && SoleColumn(c, col.name) {
      var i :| 0 <= i < |constraints| && constraints[i] == c;
      assert forms[i] in multiset(forms) && SoleColumn(forms[i], col.name);
    }
    if c :| c in multiset(forms) && SoleColumn(c, col.name) {
      var i :| 0 <= i < |forms| && forms[i] == c;
      assert constraints[i] in multiset(constraints) && SoleColumn(constraints[i], col.name);
    }
  }

  lemma {:induction false} FactsByForm(form: Constraint -> Constraint, constraints: seq<Constraint>)
    requires Harmless(form)
    ensures Collect(FactsOf, constraints) == Collect(FactsOf, Map(form, constraints))
  {
    hide FactsOf, SoleColumn;
    if constraints == [] {
    } else {
      FactsByForm(form, constraints[1..]);
      assert Map(form, constraints) == [form(constraints[0])] + Map(form, constraints[1..]);
    }
  }

  lemma {:induction false} AlikeKeepsContent(form: Constraint -> Constraint, a: Table, b: Table)
    requires Harmless(form) && AlikeUnder(form, a, b)
    ensures ContentOf(a) == ContentOf(b)
  {
    hide FactsOf, SoleColumn, UniqueIn, Harmless;
    forall col: Column
      ensures TupleOf(a)(col) == TupleOf(b)(col)
    {
      UniqueByForm(form, col, a.constraints);
      UniqueByForm(form, col, b.constraints);
    }
    MapForgetsOrder(TupleOf(a), a.columns, b.columns);
    assert Map(TupleOf(a), b.columns) == Map(TupleOf(b), b.columns);
    FactsByForm(form, a.constraints);
    FactsByForm(form, b.constraints);
    CollectForgetsOrder(FactsOf, Map(form, a.constraints), Map(form, b.constraints));
  }

  /** A constraint with its representation erased and the columns of a unique constraint put in order. */
  function Shape(c: Constraint): Constraint {
    match c
    case ForeignKey(_, locals, targets, onDelete, onUpdate) => ForeignKey([], locals, targets, onDelete, onUpdate)
    case PrimaryKey(_, columns) => PrimaryKey([], columns)
    case Unique(_, columns) => Unique([], Sort(StrLe, columns))
    case Check(_, text) => Check([], text)
    case Other(_) => Other([])
  }

  /** A constraint with its representation, local columns of a foreign key, and columns of a primary key erased. */
  function Unkeyed(c: Constraint): Constraint {
    match c
    case ForeignKey(_, _, targets, onDelete, onUpdate) => ForeignKey([], [], targets, onDelete, onUpdate)
    case PrimaryKey(_, _) => PrimaryKey([], [])
    case Unique(_, columns) => Unique([], columns)
    case Check(_, text) => Check([], text)
    case Other(_) => Other([])
  }

  lemma {:induction false} SortedSingleton(columns: seq<Str>, name: Str)
    ensures columns == [name] <==> Sort(StrLe, columns) == [name]
  {
    SortKeeps(StrLe, columns);
    var sorted := Sort(StrLe, columns);
    if |columns| == 1 {
      assert columns[0] in multiset(columns) && sorted[0] in multiset(sorted);
      assert columns[0] in sorted;
    }
  }

  lemma {:induction false} ShapeKeeps(c: Constraint)
    ensures FactsOf(Shape(c)) == FactsOf(c)
    ensures forall name :: SoleColumn(Shape(c), name) <==> SoleColumn(c, name)
  {
    hide Sort, StrLe;
    if c.Unique? {
      SortKeeps(StrLe, c.columns);
      forall name
        ensures c.columns == [name] <==> Sort(StrLe, c.columns) == [name]
      {
        SortedSingleton(c.columns, name);
      }
    }
  }

  lemma {:induction false} ShapeIsHarmless()
    ensures Harmless(Shape)
  {
    forall c: Constraint
      ensures FactsOf(Shape(c)) == FactsOf(c)
      ensures forall name :: SoleColumn(Shape(c), name) <==> SoleColumn(c, name)
    {
      ShapeKeeps(c);
    }
  }

  lemma {:induction false} UnkeyedIsHarmless()
    ensures Harmless(Unkeyed)
  {
    forall c: Constraint
      ensures FactsOf(Unkeyed(c)) == FactsOf(c)
    {
    }
  }

  /** The same table declared in another order; constraint representations may change with it. */
  ghost predicate Reordered(a: Table, b: Table) {
    AlikeUnder(Shape, a, b)
  }

  lemma {:induction false} ReorderedKeepsContent(a: Table, b: Table)
    requires Reordered(a, b)
    ensures ContentOf(a) == ContentOf(b)
  {
    ShapeIsHarmless();
    AlikeKeepsContent(Shape, a, b);
  }

  /**
   Which local columns a foreign key has, and which columns a primary key has in which order, is not
   part of the text: tables that differ in nothing else are printed alike.
   */
  lemma {:induction false} KeyColumnsAreUnseen(a: seq<Table>, b: seq<Table>)
    requires WellFormed(a) && WellFormed(b)
    requires |a| == |b| && forall i | 0 <= i < |a| :: AlikeUnder(Unkeyed, a[i], b[i])
    ensures Serialised(a) == Serialised(b)
  {
    hide AlikeUnder, ContentOf, Harmless, WellFormed;
    forall i | 0 <= i < |a|
      ensures ContentOf(a[i]) == ContentOf(b[i])
    {
      UnkeyedIsHarmless();
      AlikeKeepsContent(Unkeyed, a[i], b[i]);
    }
    assert Map(ContentOf, a) == Map(ContentOf, b);
    CanonicalIff(a, b);
  }

  /** A table over columns a and b with a foreign key on the given one and a primary key in the given order. */
  function Keyed(name: Str, local: Str, key: seq<Str>): Table {
    var column := (n: Str) => Column(n, ColumnType(Some(Ascii("int")), [], []), NoDefault, false, true, false);
    Table(name, [column(Ascii("a")), column(Ascii("b"))],
          [ForeignKey([], [local], [Ascii("t")], None, None), PrimaryKey([], key)])
  }

  /** Moving a foreign key to another column and turning a primary key round go unnoticed. */
  lemma {:induction false} MovedKeyIsUnseen(name: Str)
    ensures
      var a, b := Ascii("a"), Ascii("b");
      && Keyed(name, a, [a, b]) != Keyed(name, b, [b, a])
      && Serialised([Keyed(name, a, [a, b])]) == Serialised([Keyed(name, b, [b, a])])
  {
    var a, b := Ascii("a"), Ascii("b");
    assert a[0] == 97 && b[0] == 98;
    var t, u := Keyed(name, a, [a, b]), Keyed(name, b, [b, a]);
    assert t.constraints[0].locals[0] == a && u.constraints[0].locals[0] == b;
    assert Map(Unkeyed, t.constraints) == Map(Unkeyed, u.constraints);
    assert t.columns == u.columns && DistinctColumns(t) && DistinctColumns(u);
    KeyColumnsAreUnseen([t], [u]);
  }

  /**
   Reordering the tables, and within each table its columns, its constraints and the columns of a
   unique constraint, leaves the fingerprint alone, whatever the digest.
   */
  lemma {:induction false} FingerprintForgetsOrder(
    digest: string -> string, a: seq<Table>, inner: seq<Table>, b: seq<Table>)
    requires WellFormed(a) && WellFormed(b)
    requires |a| == |inner| && forall i | 0 <= i < |a| :: Reordered(a[i], inner[i])
    requires multiset(inner) == multiset(b)
    ensures digest(Serialised(a)) == digest(Serialised(b))
  {
    forall i | 0 <= i < |a|
      ensures ContentOf(a[i]) == ContentOf(inner[i])
    {
      ReorderedKeepsContent(a[i], inner[i]);
    }
    assert Map(ContentOf, a) == Map(ContentOf, inner);
    MapForgetsOrder(ContentOf, inner, b);
    CanonicalIff(a, b);
  }
}
