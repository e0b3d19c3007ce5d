/**
 Which changes of a column the fingerprint sees: another type, another default, or any other column
 under the same name, over all strings.
 */
module FingerprintColumns {
  import opened Fingerprint
  import opened FingerprintDefaults
  import opened FingerprintProofs
  import opened JsonText
  import opened Options
  import opened Sorting

  // ---------- Strings with surrogate pairs spelt out ----------

  function JoinedDefault(d: Default): Default {
    match d
    case NoDefault => NoDefault
    case TextDefault(text) => TextDefault(Joined(text))
    case ClauseDefault(text) => ClauseDefault(Joined(text))
    case OtherDefault(repr) => OtherDefault(Joined(repr))
  }

  lemma {:induction false} JoinedLower(s: Str)
    ensures Joined(Map(LowerPoint, s)) == Map(LowerPoint, Joined(s))
  {
    if s == [] {
    } else if |s| > 1 && High(s[0]) && Low(s[1]) {
      JoinedLower(s[2..]);
      assert Map(LowerPoint, s)[2..] == Map(LowerPoint, s[2..]);
      assert Joined(s)[1..] == Joined(s[2..]);
    } else {
      JoinedLower(s[1..]);
      assert Map(LowerPoint, s)[1..] == Map(LowerPoint, s[1..]);
      assert Joined(s)[1..] == Joined(s[1..]);
    }
  }

  lemma {:induction false} JoinedFront(s: Str)
    ensures Joined(StripFront(s)) == StripFront(Joined(s))
  {
    if s == [] {
    } else if IsSpace(s[0]) {
      JoinedFront(s[1..]);
      assert Joined(s)[1..] == Joined(s[1..]);
    } else {
      assert !IsSpace(Joined(s)[0]);
    }
  }

  lemma {:induction false} JoinedAppend(s: Str, c: CodePoint)
    requires !Low(c)
    ensures Joined(s + [c]) == Joined(s) + [c]
  {
    hide Paired;
    if s == [] {
      assert Joined([c][1..]) == [];
    } else {
      assert (s + [c])[1..] == s[1..] + [c];
      if |s| > 1 && High(s[0]) && Low(s[1]) {
        assert (s + [c])[2..] == s[2..] + [c];
        JoinedAppend(s[2..], c);
      } else {
        JoinedAppend(s[1..], c);
      }
    }
  }

  lemma PairIsNoSpace(high: CodePoint, low: CodePoint)
    requires High(high) && Low(low)
    ensures !IsSpace(Paired(high, low))
  {
  }

  lemma JoinedStep(s: Str)
    requires s != []
    ensures |s| > 1 && High(s[0]) && Low(s[1]) ==> Joined(s) == [Paired(s[0], s[1])] + Joined(s[2..])
    ensures !(|s| > 1 && High(s[0]) && Low(s[1])) ==> Joined(s) == [s[0]] + Joined(s[1..])
  {
    if |s| == 1 {
      assert s[1..] == [];
    }
  }

  lemma NothingJoined()
    ensures Joined([]) == []
  {
  }

  lemma {:induction false} JoinedLast(s: Str)
    requires s != [] && !IsSpace(s[|s| - 1])
    ensures Joined(s) != [] && !IsSpace(Joined(s)[|Joined(s)| - 1])
  {
    hide IsSpace, Paired, Joined;
    JoinedStep(s);
    if |s| > 1 && High(s[0]) && Low(s[1]) {
      PairIsNoSpace(s[0], s[1]);
      if |s| == 2 {
        assert s[2..] == [];
        NothingJoined();
      } else {
        JoinedLast(s[2..]);
      }
    } else if |s| == 1 {
      assert s[1..] == [];
      NothingJoined();
    } else {
      JoinedLast(s[1..]);
    }
  }

  lemma {:induction false} JoinedBack(s: Str)
    ensures Joined(StripBack(s)) == StripBack(Joined(s))
  {
    hide Joined;
    if s == [] {
      NothingJoined();
    } else if IsSpace(s[|s| - 1]) {
      var front, c := s[..|s| - 1], s[|s| - 1];
      JoinedBack(front);
      assert s == front + [c];
      JoinedAppend(front, c);
      assert (Joined(front) + [c])[..|Joined(front)|] == Joined(front);
    } else {
      JoinedLast(s);
    }
  }

  lemma NoneIsJoined()
    ensures Joined(Ascii("None")) == Ascii("None")
  {
    PairFreeIsJoined(Ascii("None"));
  }

  /** Joining commutes with bringing a default into its canonical form. */
  lemma {:induction false} JoinedCanonical(d: Default)
    ensures Joined(CanonicalDefault(d)) == CanonicalDefault(JoinedDefault(d))
  {
    hide StripFront, StripBack;
    match d
    case NoDefault =>
      NoneIsJoined();
    case TextDefault(_) =>
    case ClauseDefault(text) =>
      JoinedLower(text);
      JoinedFront(Map(LowerPoint, text));
      JoinedBack(StripFront(Map(LowerPoint, text)));
    case OtherDefault(_) =>
  }

  // ---------- Another column under the same name ----------

  function WithColumn(table: Table, j: nat, col: Column): Table
    requires j < |table.columns|
  {
    table.(columns := table.columns[j := col])
  }

  function Changed(tables: seq<Table>, i: nat, j: nat, col: Column): seq<Table>
    requires i < |tables| && j < |tables[i].columns|
  {
    tables[i := WithColumn(tables[i], j, col)]
  }

  /** By the name of the Python type, or that of the class where there is none, the types read the same. */
  ghost predicate SameType(a: ColumnType, b: ColumnType) {
    match (a.pythonName, b.pythonName)
    case (Some(m), Some(n)) => Joined(m) == Joined(n)
    case (Some(m), None) => Joined(m) == Joined(b.className)
    case (None, Some(n)) => Joined(a.className) == Joined(n)
    case (None, None) => Joined(a.className) == Joined(b.className)
  }

  /** By its flag, or by a constraint on it alone. */
  ghost predicate DeclaredUnique(table: Table, col: Column) {
    || col.unique
    || exists k :: 0 <= k < |table.constraints|
                && table.constraints[k].Unique? && table.constraints[k].columns == [col.name]
  }

  /** Type and default read the same once spelt-out surrogate pairs are joined, and the flags are the same. */
  ghost predicate LookAlike(table: Table, a: Column, b: Column) {
    && SameType(a.sqlType, b.sqlType)
    && SameDefault(JoinedDefault(a.default), JoinedDefault(b.default))
    && a.nullable == b.nullable
    && a.primaryKey == b.primaryKey
    && (DeclaredUnique(table, a) <==> DeclaredUnique(table, b))
  }

  lemma UniqueIsDeclared(table: Table, col: Column)
    ensures UniqueIn(col, multiset(table.constraints)) <==> DeclaredUnique(table, col)
  {
    forall k | 0 <= k < |table.constraints|
      ensures table.constraints[k] in multiset(table.constraints)
    {
    }
  }

  lemma LookAlikeIff(table: Table, a: Column, b: Column)
    requires a.name == b.name
    ensures JoinedColumn(TupleOf(table)(a)) == JoinedColumn(TupleOf(table)(b)) <==> LookAlike(table, a, b)
  {
    hide Joined, UniqueIn, DeclaredUnique, CanonicalDefault, SameDefault, JoinedDefault;
    UniqueIsDeclared(table, a);
    UniqueIsDeclared(table, b);
    JoinedCanonical(a.default);
    JoinedCanonical(b.default);
    DefaultsCollideIff(JoinedDefault(a.default), JoinedDefault(b.default));
  }

  lemma {:induction false} MapReplaced<T, U>(f: T -> U, s: seq<T>, p: nat, x: T)
    requires p < |s|
    ensures Map(f, s[p := x]) == Map(f, s)[p := f(x)]
  {
  }

  /** Two lists that differ in one member have the same images exactly if the two members have. */
  lemma {:induction false} ReplacedIff<T, U>(f: T -> U, s: seq<T>, p: nat, x: T)
    requires p < |s|
    ensures Map(f, s[p := x]) == Map(f, s) <==> f(x) == f(s[p])
  {
    MapReplaced(f, s, p, x);
    assert Map(f, s)[p := f(x)][p] == f(x);
  }

  lemma NamesLevel(a: Column, b: Column)
    requires a.name == b.name
    ensures ColumnLe(a, b) && ColumnLe(b, a)
  {
    hide StrLe;
    StrOrder();
  }

  lemma SameTuples(table: Table, j: nat, col: Column)
    requires j < |table.columns|
    ensures forall s: seq<Column> :: Map(TupleOf(WithColumn(table, j, col)), s) == Map(TupleOf(table), s)
  {
    hide CanonicalDefault, CanonicalType, UniqueIn;
    forall s: seq<Column>
      ensures Map(TupleOf(WithColumn(table, j, col)), s) == Map(TupleOf(table), s)
    {
      assert forall k | 0 <= k < |s| :: TupleOf(WithColumn(table, j, col))(s[k]) == TupleOf(table)(s[k]);
    }
  }

  lemma {:induction false} ReprWithColumn(table: Table, j: nat, col: Column) returns (p: nat)
    requires j < |table.columns| && DistinctColumns(table) && col.name == table.columns[j].name
    ensures p < |ReprOf(table).columns| && ReprOf(table).columns[p] == TupleOf(table)(table.columns[j])
    ensures ReprOf(WithColumn(table, j, col))
         == ReprOf(table).(columns := ReprOf(table).columns[p := TupleOf(table)(col)])
  {
    hide Sort, StrLe, TupleOf, TuplesOf, Preorder;
    var changed := WithColumn(table, j, col);
    ColumnOrders();
    ColumnsNotLevel(table);
    NamesLevel(table.columns[j], col);
    p := SortReplaced(ColumnLe, table.columns, j, col);
    SameTuples(table, j, col);
    MapReplaced(TupleOf(table), Sort(ColumnLe, table.columns), p, col);
  }

  lemma {:induction false} JoinedTableIff(table: Table, j: nat, col: Column)
    requires j < |table.columns| && DistinctColumns(table) && col.name == table.columns[j].name
    ensures JoinedTable(ReprOf(WithColumn(table, j, col))) == JoinedTable(ReprOf(table))
       <==> LookAlike(table, table.columns[j], col)
  {
    hide ReprOf, JoinedColumn, JoinedTuple, TupleOf, LookAlike, Joined, DistinctColumns;
    var p := ReprWithColumn(table, j, col);
    ReplacedIff(JoinedColumn, ReprOf(table).columns, p, TupleOf(table)(col));
    LookAlikeIff(table, table.columns[j], col);
  }

  lemma {:induction false} CanonicalWithTable(tables: seq<Table>, i: nat, table: Table) returns (p: nat)
    requires i < |tables| && DistinctTables(tables) && table.name == tables[i].name
    ensures p < |Canonical(tables)| && Canonical(tables)[p] == ReprOf(tables[i])
    ensures Canonical(tables[i := table]) == Canonical(tables)[p := ReprOf(table)]
  {
    hide Sort, ReprOf, StrLe;
    StrOrder();
    p := SortReplaced(TableLe, tables, i, table);
    MapReplaced(ReprOf, Sort(TableLe, tables), p, table);
  }

  /** Another column under the same name leaves the hashed text alone exactly if the two look alike. */
  lemma {:induction false} ColumnChangeIff(tables: seq<Table>, i: nat, j: nat, col: Column)
    requires WellFormed(tables) && i < |tables| && j < |tables[i].columns| && col.name == tables[i].columns[j].name
    ensures Serialised(Changed(tables, i, j, col)) == Serialised(tables)
       <==> LookAlike(tables[i], tables[i].columns[j], col)
  {
    hide Canonical, Serialise, JoinedTable, LookAlike, ReprOf;
    var table := WithColumn(tables[i], j, col);
    var p := CanonicalWithTable(tables, i, table);
    assert tables[i] in tables;
    SerialiseIff(Canonical(Changed(tables, i, j, col)), Canonical(tables));
    ReplacedIff(JoinedTable, Canonical(tables), p, ReprOf(table));
    JoinedTableIff(tables[i], j, col);
  }

  // ---------- Another type ----------

  lemma SameFlag(table: Table, a: Column, b: Column)
    requires a.name == b.name && a.unique == b.unique
    ensures DeclaredUnique(table, a) <==> DeclaredUnique(table, b)
  {
  }

  lemma {:induction false} SameDefaultItself(d: Default)
    ensures SameDefault(d, d)
  {
    hide SameDefault;
    DefaultsCollideIff(d, d);
  }

  /** Another type shows exactly if its Python name, or its class name where it has none, reads otherwise. */
  lemma {:induction false} TypeChangeIff(tables: seq<Table>, i: nat, j: nat, t: ColumnType)
    requires WellFormed(tables) && i < |tables| && j < |tables[i].columns|
    ensures
      var before := tables[i].columns[j];
      Serialised(Changed(tables, i, j, before.(sqlType := t))) == Serialised(tables) <==> SameType(before.sqlType, t)
  {
    hide Serialised, SameDefault, JoinedDefault, SameType, DeclaredUnique;
    var before := tables[i].columns[j];
    ColumnChangeIff(tables, i, j, before.(sqlType := t));
    SameFlag(tables[i], before, before.(sqlType := t));
    SameDefaultItself(JoinedDefault(before.default));
  }

  /** An integer column that becomes a text column shows in every schema. */
  lemma {:induction false} IntegerToTextShows(tables: seq<Table>, i: nat, j: nat, details: Str)
    requires WellFormed(tables) && i < |tables| && j < |tables[i].columns|
    requires tables[i].columns[j].sqlType == ColumnType(Some(Ascii("int")), Ascii("BigInteger"), [])
    ensures
      var text := ColumnType(Some(Ascii("str")), Ascii("Text"), details);
      Serialised(Changed(tables, i, j, tables[i].columns[j].(sqlType := text))) != Serialised(tables)
  {
    hide Serialised;
    var int_, str := Ascii("int"), Ascii("str");
    TypeChangeIff(tables, i, j, ColumnType(Some(str), Ascii("Text"), details));
    assert int_[0] == 105 && str[0] == 115 && PairFree(int_) && PairFree(str);
    PairFreeIsJoined(int_);
    PairFreeIsJoined(str);
  }

  /** The unique flag of a column shows exactly if no constraint says the same. */
  lemma {:induction false} UniqueFlagIff(tables: seq<Table>, i: nat, j: nat)
    requires WellFormed(tables) && i < |tables| && j < |tables[i].columns| && !tables[i].columns[j].unique
    ensures
      var before := tables[i].columns[j];
      Serialised(Changed(tables, i, j, before.(unique := true))) == Serialised(tables)
      <==> exists k :: 0 <= k < |tables[i].constraints|
                    && tables[i].constraints[k].Unique? && tables[i].constraints[k].columns == [before.name]
  {
    hide Serialised, SameDefault, JoinedDefault, Joined;
    var before := tables[i].columns[j];
    ColumnChangeIff(tables, i, j, before.(unique := true));
    SameDefaultItself(JoinedDefault(before.default));
  }

  function StringOf(length: string): ColumnType
    requires forall c | c in length :: c < '\U{0080}'
  {
    ColumnType(Some(Ascii("str")), Ascii("String"), Ascii(length))
  }

  /** `String(192)` and `String(64)` are two types, and one may take the place of the other unseen. */
  lemma {:induction false} LengthIsUnseen(tables: seq<Table>, i: nat, j: nat)
    requires WellFormed(tables) && i < |tables| && j < |tables[i].columns|
    requires tables[i].columns[j].sqlType == StringOf("192")
    ensures Changed(tables, i, j, tables[i].columns[j].(sqlType := StringOf("64"))) != tables
    ensures Serialised(Changed(tables, i, j, tables[i].columns[j].(sqlType := StringOf("64")))) == Serialised(tables)
  {
    hide Serialised, Joined;
    TypeChangeIff(tables, i, j, StringOf("64"));
    assert |Ascii("192")| != |Ascii("64")|;
    var before := tables[i].columns[j];
    assert Changed(tables, i, j, before.(sqlType := StringOf("64")))[i].columns[j] != before;
  }

  // ---------- Another default ----------

  /** Another default shows exactly if it and the old one, joined, are not taken for one another. */
  lemma {:induction false} DefaultChangeIff(tables: seq<Table>, i: nat, j: nat, d: Default)
    requires WellFormed(tables) && i < |tables| && j < |tables[i].columns|
    ensures
      var before := tables[i].columns[j];
      Serialised(Changed(tables, i, j, before.(default := d))) == Serialised(tables)
      <==> SameDefault(JoinedDefault(before.default), JoinedDefault(d))
  {
    hide Serialised, JoinedDefault, SameDefault, DeclaredUnique;
    var before := tables[i].columns[j];
    var col := before.(default := d);
    ColumnChangeIff(tables, i, j, col);
    SameFlag(tables[i], before, col);
  }
}
