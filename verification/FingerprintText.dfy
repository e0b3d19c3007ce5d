/** The hashed text itself: how a list prints, and the text of a table with a column and one constraint of each kind. */
module FingerprintText {
  import opened Fingerprint
  import opened FingerprintDefaults
  import opened FingerprintProofs
  import opened JsonText
  import opened Options
  import opened Sorting

  /** Printable ASCII without quotes and backslashes. */
  predicate Plain(s: string) {
    forall c | c in s :: ' ' <= c <= '~' && c != '"' && c != '\\'
  }

  function Quoted(s: string): string { "\"" + s + "\"" }

  function Separated(parts: seq<string>): string {
    if parts == [] then ""
    else if |parts| == 1 then parts[0]
    else parts[0] + ", " + Separated(parts[1..])
  }

  function Bracketed(parts: seq<string>): string { "[" + Separated(parts) + "]" }

  function Word(on: bool): string { if on then "true" else "false" }

  // ---------- Strings and lists ----------

  lemma PlainUnit(c: char)
    requires Plain([c])
    ensures UnitsOf(c as int) == [c as int] && Escape(c as int) == [c]
  {
    assert c in [c];
  }

  lemma AsciiStep(s: string)
    requires Plain(s) && s != ""
    ensures Plain(s[1..]) && Plain([s[0]]) && s[0] < '\U{0080}'
    ensures |Ascii(s)| == |s| && Ascii(s)[0] == s[0] as int && Ascii(s)[1..] == Ascii(s[1..])
  {
    assert s[0] in s && forall c | c in s[1..] :: c in s;
  }

  lemma UnitsStep(a: Str)
    requires a != [] && a[0] < 0x80
    ensures Utf16(a) != [] && Utf16(a)[0] == a[0] && Utf16(a)[1..] == Utf16(a[1..])
  {
    assert Utf16(a) == [a[0]] + Utf16(a[1..]);
  }

  lemma PrintStep(us: seq<Unit>)
    requires us != []
    ensures PrintUnits(us) == Escape(us[0]) + PrintUnits(us[1..])
  {
  }

  lemma NoUnits()
    ensures PrintUnits(Utf16(Ascii(""))) == "\""
  {
  }

  lemma {:induction false} PlainUnits(s: string)
    requires Plain(s)
    ensures PrintUnits(Utf16(Ascii(s))) == s + "\""
  {
    if s == "" {
      NoUnits();
    } else {
      AsciiStep(s);
      hide *;
      PlainUnits(s[1..]);
      UnitsStep(Ascii(s));
      PrintStep(Utf16(Ascii(s)));
      PlainUnit(s[0]);
      Associate([s[0]], s[1..], "\"");
      assert [s[0]] + s[1..] == s;
    }
  }

  /** A plain string prints between quotes as it stands. */
  lemma {:induction false} PlainPrints(s: string)
    requires Plain(s)
    ensures Print(TextOf(Ascii(s))) == Quoted(s)
  {
    hide Utf16, Ascii, PrintUnits;
    PlainUnits(s);
    assert "\"" + (s + "\"") == Quoted(s);
  }

  function Prints(items: seq<Value>): (r: seq<string>)
    ensures |r| == |items| && forall i | 0 <= i < |items| :: r[i] == Print(items[i])
  {
    if items == [] then [] else [Print(items[0])] + Prints(items[1..])
  }

  lemma SeparatedStep(first: string, parts: seq<string>)
    requires parts != []
    ensures Separated([first] + parts) == first + ", " + Separated(parts)
  {
    assert ([first] + parts)[1..] == parts;
  }

  lemma TailStep(items: seq<Value>)
    requires items != []
    ensures PrintTail(items) == ", " + Print(items[0]) + PrintTail(items[1..])
    ensures Prints(items) == [Print(items[0])] + Prints(items[1..])
  {
  }

  lemma NoTail(first: string)
    ensures PrintTail([]) == "]" && Separated([first] + Prints([])) == first
  {
    assert [first] + [] == [first];
  }

  lemma {:induction false} TailSeparated(first: string, items: seq<Value>)
    ensures first + PrintTail(items) == Separated([first] + Prints(items)) + "]"
    decreases |items|
  {
    hide *;
    if items == [] {
      NoTail(first);
    } else {
      var next, rest, parts := Print(items[0]), PrintTail(items[1..]), Prints(items);
      TailSeparated(next, items[1..]);
      TailStep(items);
      SeparatedStep(first, parts);
      Associate(", ", next, rest);
      Associate(first, ", ", next + rest);
      Associate(first + ", ", Separated(parts), "]");
    }
  }

  /** A list prints as the texts of its items, separated by a comma and a space, between brackets. */
  lemma {:induction false} ListPrints(items: seq<Value>)
    ensures Print(List(items)) == Bracketed(Prints(items))
  {
    if items == [] {
    } else {
      hide Separated, PrintTail, Prints;
      TailSeparated(Print(items[0]), items[1..]);
      TailStep(items);
      Associate("[", Separated(Prints(items)), "]");
    }
  }

  // ---------- One table ----------

  lemma SortsAlone<T>(le: (T, T) -> bool, x: T)
    ensures Sort(le, [x]) == [x]
  {
    assert [x][1..] == [];
  }

  lemma {:induction false} CollectThree<T, U>(f: T -> seq<U>, x: T, y: T, z: T)
    ensures Collect(f, [x, y, z]) == f(x) + f(y) + f(z)
  {
    assert [x, y, z][1..] == [y, z] && [y, z][1..] == [z] && [z][1..] == [];
    assert Collect(f, [z]) == f(z) + Collect(f, []);
  }

  lemma ThreeTurned<T>(x: T, y: T, z: T)
    ensures multiset([x] + [y] + [z]) == multiset([z, x, y])
  {
  }

  lemma {:induction false} ThreeFound(
    constraints: seq<Constraint>, ck: ConstraintTuple, fk: ConstraintTuple, uq: ConstraintTuple)
    requires |constraints| == 3
    requires TuplesOf(constraints[0]) == [fk] && TuplesOf(constraints[1]) == [uq] && TuplesOf(constraints[2]) == [ck]
    ensures multiset(Collect(TuplesOf, Sort(ConstraintLe, constraints))) == multiset([ck, fk, uq])
  {
    hide *;
    SortKeeps(ConstraintLe, constraints);
    CollectForgetsOrder(TuplesOf, Sort(ConstraintLe, constraints), constraints);
    assert constraints == [constraints[0], constraints[1], constraints[2]];
    CollectThree(TuplesOf, constraints[0], constraints[1], constraints[2]);
    ThreeTurned(fk, uq, ck);
  }

  lemma {:induction false} ThreeSorted(ck: ConstraintTuple, fk: ConstraintTuple, uq: ConstraintTuple)
    requires ck.Ck? && fk.Fk? && uq.Uq?
    ensures Sorted(TupleLe, [ck, fk, uq])
  {
    hide StrsLe;
    assert TupleLe(ck, fk) && TupleLe(fk, uq) && TupleLe(ck, uq);
  }

  /** The three tuples come out in the order of their kinds, whatever order the constraints are sorted into first. */
  lemma {:induction false} ThreeConstraints(
    constraints: seq<Constraint>, ck: ConstraintTuple, fk: ConstraintTuple, uq: ConstraintTuple)
    requires |constraints| == 3 && ck.Ck? && fk.Fk? && uq.Uq?
    requires TuplesOf(constraints[0]) == [fk] && TuplesOf(constraints[1]) == [uq] && TuplesOf(constraints[2]) == [ck]
    ensures Sort(TupleLe, Collect(TuplesOf, Sort(ConstraintLe, constraints))) == [ck, fk, uq]
  {
    hide TuplesOf, Sort, TupleLe, ConstraintLe, Collect, Sorted;
    var found := Collect(TuplesOf, Sort(ConstraintLe, constraints));
    TupleOrder();
    ThreeFound(constraints, ck, fk, uq);
    ThreeSorted(ck, fk, uq);
    SortSorts(TupleLe, found);
    SortKeeps(TupleLe, found);
    SortedUnique(TupleLe, Sort(TupleLe, found), [ck, fk, uq]);
  }

  lemma {:induction false} ColumnPrints(
    name: string, typeName: string, default: string, nullable: bool, key: bool, unique: bool)
    requires Plain(name) && Plain(typeName) && Plain(default)
    ensures Print(ColumnValue(ColumnTuple(Ascii(name), Ascii(typeName), Ascii(default), nullable, key, unique)))
         == Bracketed([Quoted(name), Quoted(typeName), Quoted(default), Word(nullable), Word(key), Word(unique)])
  {
    hide Bracketed, Quoted, Ascii, Prints, Utf16;
    PlainPrints(name);
    PlainPrints(typeName);
    PlainPrints(default);
    var value := ColumnValue(ColumnTuple(Ascii(name), Ascii(typeName), Ascii(default), nullable, key, unique));
    ListPrints(value.items);
    assert Prints(value.items)
        == [Quoted(name), Quoted(typeName), Quoted(default), Word(nullable), Word(key), Word(unique)];
  }

  lemma {:induction false} CheckPrints(text: string)
    requires Plain(text)
    ensures Print(ConstraintValue(Ck(Ascii(text)))) == Bracketed(["\"ck\"", Quoted(text)])
  {
    PlainPrints("ck");
    PlainPrints(text);
    hide Bracketed, Ascii, Prints, Print, Utf16;
    var value := ConstraintValue(Ck(Ascii(text)));
    ListPrints(value.items);
    assert Quoted("ck") == "\"ck\"";
    assert Prints(value.items) == [Quoted("ck"), Quoted(text)];
  }

  lemma {:induction false} KeyPrints(target: string, onDelete: string, onUpdate: string)
    requires Plain(target) && Plain(onDelete) && Plain(onUpdate)
    ensures Print(ConstraintValue(Fk(Ascii(target), Ascii(onDelete), Ascii(onUpdate))))
         == Bracketed(["\"fk\"", Quoted(target), Quoted(onDelete), Quoted(onUpdate)])
  {
    PlainPrints("fk");
    PlainPrints(target);
    PlainPrints(onDelete);
    PlainPrints(onUpdate);
    hide Bracketed, Ascii, Prints, Print, Utf16;
    var value := ConstraintValue(Fk(Ascii(target), Ascii(onDelete), Ascii(onUpdate)));
    ListPrints(value.items);
    assert Quoted("fk") == "\"fk\"";
    assert Prints(value.items) == [Quoted("fk"), Quoted(target), Quoted(onDelete), Quoted(onUpdate)];
  }

  lemma {:induction false} UniquePrints(column: string)
    requires Plain(column)
    ensures Print(ConstraintValue(Uq([Ascii(column)]))) == Bracketed(["\"uq\"", Bracketed([Quoted(column)])])
  {
    PlainPrints("uq");
    PlainPrints(column);
    hide Bracketed, Ascii, Prints, Print, Utf16;
    var value := ConstraintValue(Uq([Ascii(column)]));
    ListPrints(value.items);
    assert value.items[1] == List([TextOf(Ascii(column))]) by {
      assert Map(TextOf, [Ascii(column)]) == [TextOf(Ascii(column))];
    }
    ListPrints([TextOf(Ascii(column))]);
    assert Prints([TextOf(Ascii(column))]) == [Quoted(column)];
    assert Quoted("uq") == "\"uq\"";
    assert Prints(value.items) == [Quoted("uq"), Bracketed([Quoted(column)])];
  }

  function Printed(name: string, column: string, constraints: seq<string>): string {
    Bracketed([Bracketed([Quoted(name), Bracketed([column]), Bracketed(constraints)])])
  }

  lemma {:induction false} TablePrints(r: TableRepr, name: string, column: string, ck: string, fk: string, uq: string)
    requires Plain(name) && r.name == Ascii(name) && |r.columns| == 1 && |r.constraints| == 3
    requires Print(ColumnValue(r.columns[0])) == column
    requires Print(ConstraintValue(r.constraints[0])) == ck
    requires Print(ConstraintValue(r.constraints[1])) == fk
    requires Print(ConstraintValue(r.constraints[2])) == uq
    ensures Serialise([r]) == Printed(name, column, [ck, fk, uq])
  {
    hide Bracketed, Ascii, ColumnValue, ConstraintValue, Prints, Utf16;
    PlainPrints(name);
    var columns, constraints := Map(ColumnValue, r.columns), Map(ConstraintValue, r.constraints);
    ListPrints(columns);
    ListPrints(constraints);
    assert Prints(columns) == [column];
    assert Prints(constraints) == [ck, fk, uq];
    var value := TableValue(r);
    ListPrints(value.items);
    assert Prints(value.items) == [Quoted(name), Bracketed([column]), Bracketed([ck, fk, uq])];
    ListPrints([value]);
    assert Prints([value]) == [Print(value)];
    assert Map(TableValue, [r]) == [value];
  }

  lemma SameNameIff(a: string, b: string)
    requires Plain(a) && Plain(b)
    ensures Ascii(a) == Ascii(b) <==> a == b
  {
    if Ascii(a) == Ascii(b) {
      assert |a| == |Ascii(a)| == |b|;
      forall i | 0 <= i < |a|
        ensures a[i] == b[i]
      {
        assert Ascii(a)[i] == Ascii(b)[i];
      }
    }
  }

  lemma {:induction false} UniqueHere(table: Table, column: string, unique: string)
    requires Plain(column) && Plain(unique) && |table.columns| == 1 && |table.constraints| == 3
    requires table.columns[0].name == Ascii(column)
    requires table.constraints[0].ForeignKey? && table.constraints[2].Check?
    requires table.constraints[1].Unique? && table.constraints[1].columns == [Ascii(unique)]
    ensures UniqueIn(table.columns[0], multiset(table.constraints))
       <==> table.columns[0].unique || Ascii(unique) == Ascii(column)
  {
    hide Ascii;
    var cs := table.constraints;
    assert cs[1] in multiset(cs);
    assert forall c | c in multiset(cs) :: c == cs[0] || c == cs[1] || c == cs[2];
  }

  /**
   The hashed text of a table with one column and a foreign key, a unique constraint and a check: in
   double brackets the name, the column and the three constraints, the check first and the unique
   constraint last.  The column counts as unique if it says so or if the constraint is on it.
   */
  lemma {:induction false} TableText(
    table: Table, name: string, column: string, typeName: string, default: string,
    target: string, onDelete: string, onUpdate: string, unique: string, check: string)
    requires Plain(name) && Plain(column) && Plain(typeName) && Plain(default)
    requires Plain(target) && Plain(onDelete) && Plain(onUpdate) && Plain(unique) && Plain(check)
    requires table.name == Ascii(name) && |table.columns| == 1 && |table.constraints| == 3
    requires table.columns[0].name == Ascii(column) && table.columns[0].sqlType.pythonName == Some(Ascii(typeName))
    requires table.columns[0].default == TextDefault(Ascii(default))
    requires
      var fk := table.constraints[0];
      && fk.ForeignKey? && fk.targets == [Ascii(target)]
      && fk.onDelete == Some(Ascii(onDelete)) && Upper(Ascii(onDelete)) == Ascii(onDelete)
      && fk.onUpdate == Some(Ascii(onUpdate)) && Upper(Ascii(onUpdate)) == Ascii(onUpdate)
    requires table.constraints[1].Unique? && table.constraints[1].columns == [Ascii(unique)]
    requires table.constraints[2].Check? && table.constraints[2].text == Ascii(check)
    ensures
      var col := table.columns[0];
      Serialised([table]) == Printed(
        name,
        Bracketed([Quoted(column), Quoted(typeName), Quoted(default), Word(col.nullable), Word(col.primaryKey),
                   Word(col.unique || unique == column)]),
        [Bracketed(["\"ck\"", Quoted(check)]),
         Bracketed(["\"fk\"", Quoted(target), Quoted(onDelete), Quoted(onUpdate)]),
         Bracketed(["\"uq\"", Bracketed([Quoted(unique)])])])
  {
    hide Bracketed, Quoted, Printed, Serialise, Upper, StrLe, Sort, Ascii;
    var col, r := table.columns[0], ReprOf(table);
    SortsAlone(TableLe, table);
    SortsAlone(ColumnLe, col);
    SortsAlone(StrLe, Ascii(unique));
    assert table.columns == [col];
    assert r.columns == [TupleOf(table)(col)];
    var fk, uq, ck := Fk(Ascii(target), Ascii(onDelete), Ascii(onUpdate)), Uq([Ascii(unique)]), Ck(Ascii(check));
    assert TuplesOf(table.constraints[0]) == [fk];
    ThreeConstraints(table.constraints, ck, fk, uq);
    SameNameIff(unique, column);
    UniqueHere(table, column, unique);
    ColumnPrints(column, typeName, default, col.nullable, col.primaryKey, col.unique || unique == column);
    CheckPrints(check);
    KeyPrints(target, onDelete, onUpdate);
    UniquePrints(unique);
    TablePrints(r, name, Print(ColumnValue(r.columns[0])), Print(ConstraintValue(ck)), Print(ConstraintValue(fk)),
                Print(ConstraintValue(uq)));
    assert Canonical([table]) == [r];
  }

  // ---------- The order of what is printed ----------

  ghost predicate PrecedesAt(s: Str, t: Str, k: nat) {
    k <= |s| && k < |t| && s[..k] == t[..k] && (k == |s| || s[k] < t[k])
  }

  /** The first string ends where the second goes on, or has the smaller code point at the first difference. */
  ghost predicate Precedes(s: Str, t: Str) {
    exists k: nat :: PrecedesAt(s, t, k)
  }

  lemma {:induction false} StrLeIff(s: Str, t: Str)
    ensures StrLe(s, t) <==> s == t || Precedes(s, t)
  {
    LexIff(PointLe, s, t);
    hide Lex;
    if k: nat :| AgreeUpTo(PointLe, s, t, k) {
      if k < |t| {
        assert PrecedesAt(s, t, k);
      } else {
        assert s == t;
      }
    }
    if k: nat :| PrecedesAt(s, t, k) {
      assert AgreeUpTo(PointLe, s, t, k);
    }
    if s == t {
      assert AgreeUpTo(PointLe, s, t, |s|);
    }
  }

  ghost predicate TablesRise(reprs: seq<TableRepr>) {
    forall i, j | 0 <= i < j < |reprs| :: Precedes(reprs[i].name, reprs[j].name)
  }

  ghost predicate ColumnsRise(r: TableRepr) {
    forall i, j | 0 <= i < j < |r.columns| :: Precedes(r.columns[i].name, r.columns[j].name)
  }

  /** Checks come before foreign keys, these before unique constraints; checks and keys rise by what they name first. */
  ghost predicate MayPrecede(a: ConstraintTuple, b: ConstraintTuple) {
    if a.Ck? then b.Ck? ==> a.text == b.text || Precedes(a.text, b.text)
    else if a.Fk? then b.Uq? || (b.Fk? && (a.target == b.target || Precedes(a.target, b.target)))
    else b.Uq?
  }

  ghost predicate ConstraintsRise(r: TableRepr) {
    forall i, j | 0 <= i < j < |r.constraints| :: MayPrecede(r.constraints[i], r.constraints[j])
  }

  lemma SortedMembers<T(!new)>(le: (T, T) -> bool, s: seq<T>)
    requires Preorder(le)
    ensures Sorted(le, Sort(le, s)) && multiset(Sort(le, s)) == multiset(s)
  {
    SortSorts(le, s);
    SortKeeps(le, s);
  }

  lemma {:induction false} OneOfEach<T(!new)>(s: seq<T>, x: T, le: (T, T) -> bool)
    requires le(x, x) && forall a, b | 0 <= a < b < |s| :: !(le(s[a], s[b]) && le(s[b], s[a]))
    ensures multiset(s)[x] <= 1
  {
    if s == [] {
    } else {
      OneOfEach(s[1..], x, le);
      assert s == [s[0]] + s[1..];
      if s[0] == x {
        forall b | 0 <= b < |s[1..]|
          ensures s[1..][b] != x
        {
          assert !(le(s[0], s[b + 1]) && le(s[b + 1], s[0]));
        }
      }
    }
  }

  lemma {:induction false} TwoOf<T>(t: seq<T>, i: nat, j: nat)
    requires i < j < |t| && t[i] == t[j]
    ensures multiset(t)[t[i]] >= 2
  {
    assert t == t[..j] + t[j..];
    assert t[..j][i] in multiset(t[..j]) && t[j..][0] in multiset(t[j..]);
  }

  /** A list that keeps the members of one without ties has none either. */
  lemma {:induction false} StillNoTies<T(!new)>(le: (T, T) -> bool, s: seq<T>, t: seq<T>, i: nat, j: nat)
    requires multiset(s) == multiset(t) && i < j < |t|
    requires forall a, b | 0 <= a < b < |s| :: !(le(s[a], s[b]) && le(s[b], s[a]))
    ensures !(le(t[i], t[j]) && le(t[j], t[i]))
  {
    if le(t[i], t[j]) && le(t[j], t[i]) {
      IndexedNoTies(le, s);
      assert t[i] in multiset(t) && t[j] in multiset(t);
      assert t[i] == t[j];
      OneOfEach(s, t[i], le);
      TwoOf(t, i, j);
    }
  }

  lemma NamesOf(tables: seq<Table>)
    ensures |Canonical(tables)| == |Sort(TableLe, tables)|
    ensures forall i | 0 <= i < |Canonical(tables)| :: Canonical(tables)[i].name == Sort(TableLe, tables)[i].name
  {
    hide Sort, TupleOf, TuplesOf, Collect;
  }

  /** The tables are printed in the order of their names. */
  lemma {:induction false} TablesInOrder(tables: seq<Table>)
    requires DistinctTables(tables)
    ensures TablesRise(Canonical(tables))
  {
    hide Precedes, ReprOf, StrLe, Sort;
    StrOrder();
    var sorted := Sort(TableLe, tables);
    SortedMembers(TableLe, tables);
    forall i, j | 0 <= i < j < |sorted|
      ensures Precedes(sorted[i].name, sorted[j].name)
    {
      StillNoTies(TableLe, tables, sorted, i, j);
      StrLeIff(sorted[i].name, sorted[j].name);
    }
    NamesOf(tables);
  }

  lemma {:induction false} TuplesRise(a: ConstraintTuple, b: ConstraintTuple)
    requires TupleLe(a, b)
    ensures MayPrecede(a, b)
  {
    hide Precedes, StrLe;
    var s, t := PartsOf(a), PartsOf(b);
    if KindOf(a) == KindOf(b) && !a.Uq? {
      StrLeIff(s[0], t[0]);
    }
  }

  lemma {:induction false} ConstraintsInOrder(table: Table)
    ensures ConstraintsRise(ReprOf(table))
  {
    hide MayPrecede, Sort, TupleLe, TuplesOf, Collect;
    var tuples := Collect(TuplesOf, Sort(ConstraintLe, table.constraints));
    var sorted := Sort(TupleLe, tuples);
    TupleOrder();
    SortedMembers(TupleLe, tuples);
    forall i, j | 0 <= i < j < |sorted|
      ensures MayPrecede(sorted[i], sorted[j])
    {
      TuplesRise(sorted[i], sorted[j]);
    }
  }

  /** The columns of a table too, and its constraints by kind. */
  lemma {:induction false} PartsInOrder(table: Table)
    requires DistinctColumns(table)
    ensures ColumnsRise(ReprOf(table)) && ConstraintsRise(ReprOf(table))
  {
    hide Precedes, StrLe, Sort, TuplesOf, CanonicalDefault, UniqueIn;
    var sorted := Sort(ColumnLe, table.columns);
    ColumnOrders();
    ColumnsNotLevel(table);
    SortedMembers(ColumnLe, table.columns);
    forall i, j | 0 <= i < j < |sorted|
      ensures Precedes(sorted[i].name, sorted[j].name)
    {
      StillNoTies(ColumnLe, table.columns, sorted, i, j);
      StrLeIff(sorted[i].name, sorted[j].name);
    }
    ConstraintsInOrder(table);
  }
}
