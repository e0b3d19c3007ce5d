/** Which changes of a foreign key's referential actions the fingerprint sees. */
module FingerprintActions {
  import opened Fingerprint
  import opened FingerprintDefaults
  import opened FingerprintProofs
  import opened JsonText
  import opened Options
  import opened Sorting

  /** An action as it is written; one that is not given is empty. */
  function Written(action: Option<Str>): Str {
    if action.Some? then action.value else []
  }

  /** The two are written alike, but for the case of letters. */
  ghost predicate SameAction(a: Option<Str>, b: Option<Str>) {
    SameLetters(Written(a), Written(b))
  }

  /** What stands for an action in the hashed text: its letters as capitals. */
  lemma {:induction false} ActionIs(a: Option<Str>)
    ensures |Action(a)| == |Written(a)|
    ensures forall k | 0 <= k < |Action(a)| ::
              Action(a)[k] == if 97 <= Written(a)[k] <= 122 then Written(a)[k] - 32 else Written(a)[k]
  {
  }

  lemma {:induction false} ActionsAgreeIff(a: Option<Str>, b: Option<Str>)
    ensures Action(a) == Action(b) <==> SameAction(a, b)
  {
    ActionIs(a);
    ActionIs(b);
    hide Action;
    var s, t := Written(a), Written(b);
    if Action(a) == Action(b) {
      forall k | 0 <= k < |s|
        ensures SameLetter(s[k], t[k])
      {
        assert Action(a)[k] == Action(b)[k];
      }
    }
  }

  function WithActions(table: Table, k: nat, onDelete: Option<Str>, onUpdate: Option<Str>): Table
    requires k < |table.constraints| && table.constraints[k].ForeignKey?
  {
    table.(constraints := table.constraints[k := table.constraints[k].(onDelete := onDelete, onUpdate := onUpdate)])
  }

  lemma {:induction false} ReplacedMember<T>(s: seq<T>, k: nat, x: T)
    requires k < |s|
    ensures multiset(s[k := x]) == multiset(s) <==> s[k] == x
  {
    var t := s[k := x];
    assert multiset(t) == multiset(s) - multiset{s[k]} + multiset{x};
    assert multiset(t)[x] == multiset(s)[x] + if s[k] == x then 0 else 1;
  }

  /** Another foreign key in its place makes no column more or less unique. */
  lemma {:induction false} SameUniqueness(table: Table, k: nat, fk: Constraint, col: Column)
    requires k < |table.constraints| && table.constraints[k].ForeignKey? && fk.ForeignKey?
    ensures UniqueIn(col, multiset(table.constraints[k := fk])) <==> UniqueIn(col, multiset(table.constraints))
  {
    var was, now := table.constraints, table.constraints[k := fk];
    if c :| c in multiset(was) && SoleColumn(c, col.name) {
      var i :| 0 <= i < |was| && was[i] == c;
      assert now[i] == c && now[i] in multiset(now);
    }
    if c :| c in multiset(now) && SoleColumn(c, col.name) {
      var i :| 0 <= i < |now| && now[i] == c;
      assert was[i] == c && was[i] in multiset(was);
    }
  }

  lemma {:induction false} SameColumns(table: Table, k: nat, onDelete: Option<Str>, onUpdate: Option<Str>)
    requires k < |table.constraints| && table.constraints[k].ForeignKey?
    ensures var changed := WithActions(table, k, onDelete, onUpdate);
      Map(TupleOf(changed), changed.columns) == Map(TupleOf(table), table.columns)
  {
    hide UniqueIn, CanonicalDefault, CanonicalType;
    var changed := WithActions(table, k, onDelete, onUpdate);
    forall j | 0 <= j < |table.columns|
      ensures TupleOf(changed)(table.columns[j]) == TupleOf(table)(table.columns[j])
    {
      SameUniqueness(table, k, changed.constraints[k], table.columns[j]);
    }
  }

  /** A foreign key's facts, and when they are those of another with the same targets. */
  lemma {:induction false} KeyFactsIff(a: Constraint, b: Constraint)
    requires a.ForeignKey? && b.ForeignKey? && a.targets == b.targets
    ensures multiset(FactsOf(a)) == multiset(FactsOf(b))
       <==> a.targets == [] || (Action(a.onDelete) == Action(b.onDelete) && Action(a.onUpdate) == Action(b.onUpdate))
  {
    hide Action;
    if a.targets != [] && multiset(FactsOf(a)) == multiset(FactsOf(b)) {
      var fact := FactsOf(a)[0];
      assert fact in FactsOf(a);
      assert fact in multiset(FactsOf(b));
      var i :| 0 <= i < |FactsOf(b)| && FactsOf(b)[i] == fact;
    }
    if a.targets != [] && Action(a.onDelete) == Action(b.onDelete) && Action(a.onUpdate) == Action(b.onUpdate) {
      assert FactsOf(a) == FactsOf(b);
    }
  }

  lemma SameRest<T>(a: multiset<T>, b: multiset<T>, rest: multiset<T>)
    ensures a + rest == b + rest <==> a == b
  {
    assert a == (a + rest) - rest && b == (b + rest) - rest;
  }

  lemma {:induction false} ContentWithActionsIff(table: Table, k: nat, onDelete: Option<Str>, onUpdate: Option<Str>)
    requires k < |table.constraints| && table.constraints[k].ForeignKey?
    ensures
      var fk := table.constraints[k];
      ContentOf(WithActions(table, k, onDelete, onUpdate)) == ContentOf(table)
      <==> fk.targets == [] || (SameAction(fk.onDelete, onDelete) && SameAction(fk.onUpdate, onUpdate))
  {
    hide FactsOf, Map, Action, SameAction;
    var changed := WithActions(table, k, onDelete, onUpdate);
    var was, now := table.constraints, changed.constraints;
    SameColumns(table, k, onDelete, onUpdate);
    CollectWithout(FactsOf, was, k);
    CollectWithout(FactsOf, now, k);
    assert was[..k] + was[k + 1..] == now[..k] + now[k + 1..];
    var rest := multiset(Collect(FactsOf, was[..k] + was[k + 1..]));
    assert multiset(FactsOf(now[k])) + rest == multiset(FactsOf(was[k])) + rest
      <==> multiset(FactsOf(now[k])) == multiset(FactsOf(was[k])) by {
      SameRest(multiset(FactsOf(now[k])), multiset(FactsOf(was[k])), rest);
    }
    KeyFactsIff(now[k], was[k]);
    ActionsAgreeIff(was[k].onDelete, onDelete);
    ActionsAgreeIff(was[k].onUpdate, onUpdate);
  }

  lemma {:induction false} StaysWellFormed(tables: seq<Table>, i: nat, table: Table)
    requires i < |tables| && WellFormed(tables) && table.name == tables[i].name && DistinctColumns(table)
    ensures WellFormed(tables[i := table])
  {
    forall t | t in tables[i := table]
      ensures DistinctColumns(t)
    {
      assert t == table || t in tables;
    }
  }

  lemma {:induction false} SameContentIff(tables: seq<Table>, i: nat, table: Table)
    requires i < |tables|
    ensures SameContent(tables[i := table], tables) <==> ContentOf(table) == ContentOf(tables[i])
  {
    hide ContentOf;
    assert Map(ContentOf, tables[i := table]) == Map(ContentOf, tables)[i := ContentOf(table)];
    ReplacedMember(Map(ContentOf, tables), i, ContentOf(table));
  }

  lemma OneIsDistinct(tables: seq<Table>, i: nat)
    requires WellFormed(tables) && i < |tables|
    ensures DistinctColumns(tables[i])
  {
  }

  /**
   Other actions of a foreign key show in the hashed text exactly if the key has an element and an action
   differs in more than the case of its letters; for strings without spelt-out surrogate pairs.
   */
  lemma {:induction false} ActionChangeIff(
    tables: seq<Table>, i: nat, k: nat, onDelete: Option<Str>, onUpdate: Option<Str>)
    requires WellFormed(tables) && i < |tables|
    requires k < |tables[i].constraints| && tables[i].constraints[k].ForeignKey?
    requires
      var changed := tables[i := WithActions(tables[i], k, onDelete, onUpdate)];
      AllPairFree(Canonical(tables)) && AllPairFree(Canonical(changed))
    ensures
      var fk, changed := tables[i].constraints[k], tables[i := WithActions(tables[i], k, onDelete, onUpdate)];
      Serialised(changed) == Serialised(tables)
      <==> fk.targets == [] || (SameAction(fk.onDelete, onDelete) && SameAction(fk.onUpdate, onUpdate))
  {
    hide AllPairFree, Serialised, Canonical, SameAction, ContentOf, SameContent, WellFormed;
    var table := WithActions(tables[i], k, onDelete, onUpdate);
    OneIsDistinct(tables, i);
    StaysWellFormed(tables, i, table);
    SameTextIff(tables[i := table], tables);
    SameContentIff(tables, i, table);
    ContentWithActionsIff(tables[i], k, onDelete, onUpdate);
  }

  /** No action and CASCADE differ; CASCADE in capitals and in small letters do not. */
  lemma {:induction false} CascadeShows()
    ensures !SameAction(None, Some(Ascii("CASCADE")))
    ensures SameAction(Some(Ascii("cascade")), Some(Ascii("CASCADE")))
  {
    var low, cap := Ascii("cascade"), Ascii("CASCADE");
    assert |cap| == 7 && |low| == 7;
    assert low[0] == 99 && low[1] == 97 && low[2] == 115 && low[3] == 99;
    assert low[4] == 97 && low[5] == 100 && low[6] == 101;
    assert cap[0] == 67 && cap[1] == 65 && cap[2] == 83 && cap[3] == 67 && cap[4] == 65 && cap[5] == 68 && cap[6] == 69;
  }
}
