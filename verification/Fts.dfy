/**
 One content table, the full-text index declared over it (FTS5, external content), and the
 three row triggers that keep the two in step.

 The index is a set of postings.  It never looks at the content table: an insert command adds
 the postings of the text it is given, and the special delete command drops, for the row it
 names, the entry of every token of the text it is given.  A delete command that names another
 text than the indexed one, or an insert command for a row that still has entries, leaves an
 index whose answers SQLite does not define; `exact` records that this never happened.

 The tokenizer is a parameter of everything here.
 */
module Fts {

  type Tokenizer = string -> seq<string>

  datatype Posting = Posting(token: string, rowid: int, position: nat)

  datatype Index = Index(postings: set<Posting>, exact: bool)

  /** A row: its foreign key, its indexed text, and its remaining columns by name. */
  datatype Row = Row(parent: int, text: string, others: map<string, string>)

  datatype Trigger = AfterInsert | AfterUpdate | AfterDelete

  datatype Table = Table(rows: map<int, Row>, triggers: set<Trigger>, index: Index)

  const ALL_TRIGGERS: set<Trigger> := {AfterInsert, AfterUpdate, AfterDelete}

  const NO_INDEX: Index := Index({}, true)

  // ---------- The index and its commands ----------

  /** The postings of one text under one rowid. */
  function DocPostings(tok: Tokenizer, id: int, text: string): set<Posting> {
    set k | 0 <= k < |tok(text)| :: Posting(tok(text)[k], id, k)
  }

  /** What a rebuild from the content table puts into the index. */
  function Rebuilt(tok: Tokenizer, rows: map<int, Row>): set<Posting> {
    set id, k | id in rows && 0 <= k < |tok(rows[id].text)| :: Posting(tok(rows[id].text)[k], id, k)
  }

  function Entry(postings: set<Posting>, id: int): set<Posting> {
    set p | p in postings && p.rowid == id
  }

  function InsertCommand(tok: Tokenizer, ix: Index, id: int, text: string): Index {
    Index(ix.postings + DocPostings(tok, id, text), ix.exact && Entry(ix.postings, id) == {})
  }

  function DeleteCommand(tok: Tokenizer, ix: Index, id: int, text: string): Index {
    Index(
      (set p | p in ix.postings && !(p.rowid == id && p.token in tok(text))),
      ix.exact && Entry(ix.postings, id) == DocPostings(tok, id, text))
  }

  // ---------- Row changes, with the triggers they fire ----------

  /** A second row under the same primary key is refused and changes nothing. */
  function Inserted(tok: Tokenizer, t: Table, id: int, row: Row): Table {
    if id in t.rows then t
    else t.(rows := t.rows[id := row],
            index := if AfterInsert in t.triggers then InsertCommand(tok, t.index, id, row.text) else t.index)
  }

  function TextUpdated(tok: Tokenizer, t: Table, id: int, text: string): Table {
    if id !in t.rows then t
    else
      var was := t.rows[id].text;
      t.(rows := t.rows[id := t.rows[id].(text := text)],
         index := if AfterUpdate in t.triggers
                  then InsertCommand(tok, DeleteCommand(tok, t.index, id, was), id, text)
                  else t.index)
  }

  /** An update that does not set the indexed column fires no trigger. */
  function OtherUpdated(t: Table, id: int, parent: int, others: map<string, string>): Table {
    if id !in t.rows then t
    else t.(rows := t.rows[id := Row(parent, t.rows[id].text, others)])
  }

  /** The rows named by `ids` are gone and each has fired its delete trigger, in whatever order. */
  function RowsDeleted(tok: Tokenizer, t: Table, ids: set<int>): Table {
    Table(
      t.rows - ids,
      t.triggers,
      if AfterDelete in t.triggers then
        Index(
          (set p | p in t.index.postings &&
                   !(p.rowid in ids && p.rowid in t.rows && p.token in tok(t.rows[p.rowid].text))),
          t.index.exact && forall id | id in ids && id in t.rows ::
            Entry(t.index.postings, id) == DocPostings(tok, id, t.rows[id].text))
      else t.index)
  }

  function ChildrenOf(rows: map<int, Row>, parents: set<int>): set<int> {
    set id | id in rows && rows[id].parent in parents
  }

  // ---------- Schema steps ----------

  /** Creating the virtual table and its triggers; no rebuild command is issued. */
  function FtsCreated(t: Table): Table {
    t.(triggers := ALL_TRIGGERS, index := NO_INDEX)
  }

  function FtsDropped(t: Table): Table {
    t.(triggers := {}, index := NO_INDEX)
  }

  function ColumnAdded(t: Table, name: string, value: string): Table {
    t.(rows := map id | id in t.rows :: t.rows[id].(others := t.rows[id].others[name := value]))
  }

  function ColumnDropped(t: Table, name: string): Table {
    t.(rows := map id | id in t.rows :: t.rows[id].(others := t.rows[id].others - {name}))
  }

  /** A copy-and-move re-creation of the content table: the rows survive, the triggers do not. */
  function Recreated(t: Table): Table {
    t.(triggers := {})
  }

  // ---------- What is kept ----------

  ghost predicate IndexExact(tok: Tokenizer, t: Table) {
    t.index.exact && t.index.postings == Rebuilt(tok, t.rows)
  }

  ghost predicate Synced(tok: Tokenizer, t: Table) {
    t.triggers == ALL_TRIGGERS && IndexExact(tok, t)
  }

  /** In an exact index the entry of a row is the postings of its current text, or nothing. */
  lemma {:induction false} EntryOfExactIndex(tok: Tokenizer, rows: map<int, Row>, id: int)
    ensures Entry(Rebuilt(tok, rows), id) == if id in rows then DocPostings(tok, id, rows[id].text) else {}
  {
    if id in rows {
      forall p | p in DocPostings(tok, id, rows[id].text)
        ensures p in Rebuilt(tok, rows)
      {
        var k :| 0 <= k < |tok(rows[id].text)| && p == Posting(tok(rows[id].text)[k], id, k);
        assert id in rows && 0 <= k < |tok(rows[id].text)|;
      }
    }
  }

  /** Rebuilding after one row got a (new) text: that row's old entry out, its new entry in. */
  lemma {:induction false} RebuiltWithRow(tok: Tokenizer, rows: map<int, Row>, id: int, row: Row)
    ensures Rebuilt(tok, rows[id := row])
         == (Rebuilt(tok, rows) - Entry(Rebuilt(tok, rows), id)) + DocPostings(tok, id, row.text)
  {
    var after := rows[id := row];
    forall p
      ensures p in Rebuilt(tok, after) <==>
              p in (Rebuilt(tok, rows) - Entry(Rebuilt(tok, rows), id)) + DocPostings(tok, id, row.text)
    {
      if p.rowid == id {
        EntryOfExactIndex(tok, after, id);
        assert p in Rebuilt(tok, after) <==> p in Entry(Rebuilt(tok, after), id);
      } else {
        EntryOfExactIndex(tok, after, p.rowid);
        EntryOfExactIndex(tok, rows, p.rowid);
        assert p in Rebuilt(tok, after) <==> p in Entry(Rebuilt(tok, after), p.rowid);
        assert p in Rebuilt(tok, rows) <==> p in Entry(Rebuilt(tok, rows), p.rowid);
      }
    }
  }

  lemma {:induction false} RebuiltIgnoresOtherColumns(tok: Tokenizer, before: map<int, Row>, after: map<int, Row>)
    requires before.Keys == after.Keys
    requires forall id | id in before :: before[id].text == after[id].text
    ensures Rebuilt(tok, before) == Rebuilt(tok, after)
  {
    forall p
      ensures p in Rebuilt(tok, before) <==> p in Rebuilt(tok, after)
    {
      EntryOfExactIndex(tok, before, p.rowid);
      EntryOfExactIndex(tok, after, p.rowid);
      assert p in Rebuilt(tok, before) <==> p in Entry(Rebuilt(tok, before), p.rowid);
      assert p in Rebuilt(tok, after) <==> p in Entry(Rebuilt(tok, after), p.rowid);
    }
  }

  lemma {:induction false} InsertKeepsSynced(tok: Tokenizer, t: Table, id: int, row: Row)
    requires Synced(tok, t)
    ensures Synced(tok, Inserted(tok, t, id, row))
  {
    EntryOfExactIndex(tok, t.rows, id);
    RebuiltWithRow(tok, t.rows, id, row);
  }

  lemma {:induction false} TextUpdateKeepsSynced(tok: Tokenizer, t: Table, id: int, text: string)
    requires Synced(tok, t)
    ensures Synced(tok, TextUpdated(tok, t, id, text))
  {
    if id in t.rows {
      var was := t.rows[id].text;
      var cleared := DeleteCommand(tok, t.index, id, was);
      EntryOfExactIndex(tok, t.rows, id);
      RebuiltWithRow(tok, t.rows, id, t.rows[id].(text := text));
      forall p | p in t.index.postings
        ensures p in cleared.postings <==> p !in Entry(t.index.postings, id)
      {
        assert p.rowid == id ==> p in DocPostings(tok, id, was);
      }
      assert cleared.postings == t.index.postings - Entry(t.index.postings, id);
    }
  }

  lemma {:induction false} OtherUpdateKeepsSynced(
    tok: Tokenizer, t: Table, id: int, parent: int, others: map<string, string>)
    requires Synced(tok, t)
    ensures Synced(tok, OtherUpdated(t, id, parent, others))
  {
    RebuiltIgnoresOtherColumns(tok, t.rows, OtherUpdated(t, id, parent, others).rows);
  }

  lemma {:induction false} DeleteKeepsSynced(tok: Tokenizer, t: Table, ids: set<int>)
    requires Synced(tok, t)
    ensures Synced(tok, RowsDeleted(tok, t, ids))
  {
    var after := RowsDeleted(tok, t, ids);
    forall p
      ensures p in after.index.postings <==> p in Rebuilt(tok, after.rows)
    {
      EntryOfExactIndex(tok, t.rows, p.rowid);
      EntryOfExactIndex(tok, after.rows, p.rowid);
      assert p in Rebuilt(tok, t.rows) <==> p in Entry(Rebuilt(tok, t.rows), p.rowid);
      assert p in Rebuilt(tok, after.rows) <==> p in Entry(Rebuilt(tok, after.rows), p.rowid);
    }
    forall id | id in ids && id in t.rows
      ensures Entry(t.index.postings, id) == DocPostings(tok, id, t.rows[id].text)
    {
      EntryOfExactIndex(tok, t.rows, id);
    }
  }

  /** Deleting in two rounds is deleting the union: a cascade may take its rows in any order. */
  lemma {:induction false} DeleteRounds(tok: Tokenizer, t: Table, first: set<int>, second: set<int>)
    ensures RowsDeleted(tok, RowsDeleted(tok, t, first), second) == RowsDeleted(tok, t, first + second)
  {
    var one := RowsDeleted(tok, t, first);
    var two := RowsDeleted(tok, one, second);
    var all := RowsDeleted(tok, t, first + second);
    assert two.rows == all.rows;
    if AfterDelete in t.triggers {
      assert two.index.postings == all.index.postings;
      forall id | id in second && id in one.rows
        ensures Entry(one.index.postings, id) == Entry(t.index.postings, id)
      {
      }
      assert two.index.exact <==> all.index.exact;
    }
  }

  /** The plain column steps leave both the triggers and the exactness of the index alone. */
  lemma {:induction false} ColumnStepsKeepSynced(tok: Tokenizer, t: Table, name: string, value: string)
    ensures Synced(tok, ColumnAdded(t, name, value)) <==> Synced(tok, t)
    ensures Synced(tok, ColumnDropped(t, name)) <==> Synced(tok, t)
  {
    RebuiltIgnoresOtherColumns(tok, t.rows, ColumnAdded(t, name, value).rows);
    RebuiltIgnoresOtherColumns(tok, t.rows, ColumnDropped(t, name).rows);
  }

  lemma {:induction false} TokenlessHasNoPostings(tok: Tokenizer, id: int, text: string)
    ensures tok(text) == [] <==> DocPostings(tok, id, text) == {}
  {
    if tok(text) != [] {
      assert Posting(tok(text)[0], id, 0) in DocPostings(tok, id, text);
    }
  }

  /**
   Creating the index over a table that already has rows, without a rebuild command, gives an exact
   index precisely when none of those rows has a token.
   */
  lemma {:induction false} CreatedExactIff(tok: Tokenizer, t: Table)
    ensures Synced(tok, FtsCreated(t)) <==> forall id | id in t.rows :: tok(t.rows[id].text) == []
  {
    forall id | id in t.rows
      ensures tok(t.rows[id].text) == [] <==> Entry(Rebuilt(tok, t.rows), id) == {}
    {
      EntryOfExactIndex(tok, t.rows, id);
      if tok(t.rows[id].text) != [] {
        assert Posting(tok(t.rows[id].text)[0], id, 0) in DocPostings(tok, id, t.rows[id].text);
      }
    }
    if Rebuilt(tok, t.rows) != {} {
      var p :| p in Rebuilt(tok, t.rows);
      assert p in Entry(Rebuilt(tok, t.rows), p.rowid);
    }
  }

  lemma {:induction false} SharedToken(tok: Tokenizer, id: int, a: string, b: string, k: nat)
    requires DocPostings(tok, id, a) <= DocPostings(tok, id, b) && k < |tok(a)|
    ensures k < |tok(b)| && tok(a)[k] == tok(b)[k]
  {
    assert Posting(tok(a)[k], id, k) in DocPostings(tok, id, a);
  }

  lemma {:induction false} FewerPostingsPrefix(tok: Tokenizer, id: int, a: string, b: string)
    requires DocPostings(tok, id, a) <= DocPostings(tok, id, b)
    ensures tok(a) <= tok(b)
  {
    forall k: nat | k < |tok(a)|
      ensures k < |tok(b)| && tok(a)[k] == tok(b)[k]
    {
      SharedToken(tok, id, a, b, k);
    }
    if tok(a) != [] {
      SharedToken(tok, id, a, b, |tok(a)| - 1);
    }
  }

  lemma {:induction false} SamePostingsSameTokens(tok: Tokenizer, id: int, a: string, b: string)
    ensures DocPostings(tok, id, a) == DocPostings(tok, id, b) <==> tok(a) == tok(b)
  {
    if DocPostings(tok, id, a) == DocPostings(tok, id, b) {
      FewerPostingsPrefix(tok, id, a, b);
      FewerPostingsPrefix(tok, id, b, a);
    }
  }

  // ---------- A whole run without triggers ----------

  datatype Change =
    | AddRow(id: int, row: Row)
    | SetRowText(id: int, text: string)
    | SetRowOther(id: int, parent: int, others: map<string, string>)
    | RemoveRows(ids: set<int>)
    | AddRowColumn(name: string, value: string)
    | DropRowColumn(name: string)

  function Changed(tok: Tokenizer, t: Table, c: Change): Table {
    match c
    case AddRow(id, row) => Inserted(tok, t, id, row)
    case SetRowText(id, text) => TextUpdated(tok, t, id, text)
    case SetRowOther(id, parent, others) => OtherUpdated(t, id, parent, others)
    case RemoveRows(ids) => RowsDeleted(tok, t, ids)
    case AddRowColumn(name, value) => ColumnAdded(t, name, value)
    case DropRowColumn(name) => ColumnDropped(t, name)
  }

  function ChangedAll(tok: Tokenizer, t: Table, cs: seq<Change>): Table
    decreases |cs|
  {
    if cs == [] then t else ChangedAll(tok, Changed(tok, t, cs[0]), cs[1..])
  }

  /** The tokens of a row's text; a row that is not there has none. */
  function TokensAt(tok: Tokenizer, rows: map<int, Row>, id: int): seq<string> {
    if id in rows then tok(rows[id].text) else []
  }

  lemma {:induction false} FrozenIndex(tok: Tokenizer, t: Table, cs: seq<Change>)
    requires t.triggers == {}
    ensures ChangedAll(tok, t, cs).triggers == {} && ChangedAll(tok, t, cs).index == t.index
    decreases |cs|
  {
    if cs == [] {
    } else {
      FrozenIndex(tok, Changed(tok, t, cs[0]), cs[1..]);
    }
  }

  lemma {:induction false} SameEntryIff(tok: Tokenizer, a: map<int, Row>, b: map<int, Row>, id: int)
    ensures Entry(Rebuilt(tok, a), id) == Entry(Rebuilt(tok, b), id) <==> TokensAt(tok, a, id) == TokensAt(tok, b, id)
  {
    hide Rebuilt, Entry, DocPostings;
    EntryOfExactIndex(tok, a, id);
    EntryOfExactIndex(tok, b, id);
    if id in a {
      TokenlessHasNoPostings(tok, id, a[id].text);
    }
    if id in b {
      TokenlessHasNoPostings(tok, id, b[id].text);
    }
    if id in a && id in b {
      SamePostingsSameTokens(tok, id, a[id].text, b[id].text);
    }
  }

  /** Two tables have the same rebuild exactly if every row has the same tokens in both. */
  lemma {:induction false} SameRebuildIff(tok: Tokenizer, a: map<int, Row>, b: map<int, Row>)
    ensures Rebuilt(tok, a) == Rebuilt(tok, b) <==> forall id :: TokensAt(tok, a, id) == TokensAt(tok, b, id)
  {
    hide DocPostings;
    forall id
      ensures Entry(Rebuilt(tok, a), id) == Entry(Rebuilt(tok, b), id) <==> TokensAt(tok, a, id) == TokensAt(tok, b, id)
    {
      SameEntryIff(tok, a, b, id);
    }
    if forall id :: TokensAt(tok, a, id) == TokensAt(tok, b, id) {
      forall p
        ensures p in Rebuilt(tok, a) <==> p in Rebuilt(tok, b)
      {
        assert p in Rebuilt(tok, a) <==> p in Entry(Rebuilt(tok, a), p.rowid);
        assert p in Rebuilt(tok, b) <==> p in Entry(Rebuilt(tok, b), p.rowid);
      }
    }
  }

  lemma {:induction false} SameRowsWithout(tok: Tokenizer, t: Table, u: Table, cs: seq<Change>)
    requires t.rows == u.rows
    ensures ChangedAll(tok, t, cs).rows == ChangedAll(tok, u, cs).rows
    decreases |cs|
  {
    if cs == [] {
    } else {
      hide InsertCommand, DeleteCommand;
      SameRowsWithout(tok, Changed(tok, t, cs[0]), Changed(tok, u, cs[0]), cs[1..]);
    }
  }

  /**
   After a re-creation that loses the triggers, and then any run of changes, the rows are those of the
   same run with triggers, and the index is exact if and only if every row, present or not, has the
   tokens it had when the triggers were lost.
   */
  lemma {:induction false} RunAfterRecreation(tok: Tokenizer, t: Table, cs: seq<Change>)
    requires Synced(tok, t)
    ensures
      var after := ChangedAll(tok, Recreated(t), cs);
      && after.triggers == {}
      && after.rows == ChangedAll(tok, t, cs).rows
      && (IndexExact(tok, after) <==> forall id :: TokensAt(tok, after.rows, id) == TokensAt(tok, t.rows, id))
  {
    hide Rebuilt, TokensAt;
    FrozenIndex(tok, Recreated(t), cs);
    SameRowsWithout(tok, Recreated(t), t, cs);
    SameRebuildIff(tok, ChangedAll(tok, Recreated(t), cs).rows, t.rows);
  }

  /**
   Why the delete command is given the old text.  An update whose delete command names `named`
   leaves the right postings precisely when every old token is named or is at its place in the new text.
   */
  lemma {:induction false} NamedTextMatters(tok: Tokenizer, t: Table, id: int, named: string, text: string)
    requires Synced(tok, t) && id in t.rows
    ensures
      var olds, news := tok(t.rows[id].text), tok(text);
      InsertCommand(tok, DeleteCommand(tok, t.index, id, named), id, text).postings
        == Rebuilt(tok, TextUpdated(tok, t, id, text).rows)
      <==> forall k | 0 <= k < |olds| :: olds[k] in tok(named) || (k < |news| && news[k] == olds[k])
  {
    var olds, news := tok(t.rows[id].text), tok(text);
    var got := InsertCommand(tok, DeleteCommand(tok, t.index, id, named), id, text).postings;
    var want := Rebuilt(tok, TextUpdated(tok, t, id, text).rows);
    EntryOfExactIndex(tok, t.rows, id);
    RebuiltWithRow(tok, t.rows, id, t.rows[id].(text := text));
    forall k | 0 <= k < |olds|
      ensures Posting(olds[k], id, k) in t.index.postings
      ensures Posting(olds[k], id, k) in want <==> k < |news| && news[k] == olds[k]
    {
      assert Posting(olds[k], id, k) in DocPostings(tok, id, t.rows[id].text);
    }
    assert want <= got;
    forall p | p in got && p !in want
      ensures 0 <= p.position < |olds| && p == Posting(olds[p.position], id, p.position) && p.token !in tok(named)
    {
      assert p in Entry(t.index.postings, id);
    }
  }

  /**
   Why the delete comes first.  With the two commands of an update swapped, the index has the right
   postings precisely when the old and the new text share no token.
   */
  lemma {:induction false} SwappedOrderExactIff(tok: Tokenizer, t: Table, id: int, text: string)
    requires Synced(tok, t) && id in t.rows
    ensures
      var was := t.rows[id].text;
      DeleteCommand(tok, InsertCommand(tok, t.index, id, text), id, was).postings
        == Rebuilt(tok, TextUpdated(tok, t, id, text).rows)
      <==> forall k | 0 <= k < |tok(text)| :: tok(text)[k] !in tok(was)
  {
    var was, news := t.rows[id].text, tok(text);
    var got := DeleteCommand(tok, InsertCommand(tok, t.index, id, text), id, was).postings;
    var want := Rebuilt(tok, TextUpdated(tok, t, id, text).rows);
    EntryOfExactIndex(tok, t.rows, id);
    RebuiltWithRow(tok, t.rows, id, t.rows[id].(text := text));
    forall k | 0 <= k < |news|
      ensures Posting(news[k], id, k) in want
      ensures Posting(news[k], id, k) in got <==> news[k] !in tok(was)
    {
      assert Posting(news[k], id, k) in DocPostings(tok, id, text);
    }
    assert got <= want;
  }

  /** A delete command is noticed to name another text exactly if that has other tokens. */
  lemma {:induction false} WrongTextNoticedIff(tok: Tokenizer, t: Table, id: int, named: string)
    requires Synced(tok, t)
    ensures DeleteCommand(tok, t.index, id, named).exact <==> tok(named) == TokensAt(tok, t.rows, id)
  {
    EntryOfExactIndex(tok, t.rows, id);
    TokenlessHasNoPostings(tok, id, named);
    if id in t.rows {
      SamePostingsSameTokens(tok, id, t.rows[id].text, named);
    }
  }

  /** An insert command is noticed to come on top of an entry exactly if the row has tokens already. */
  lemma {:induction false} SecondInsertNoticedIff(tok: Tokenizer, t: Table, id: int, text: string)
    requires Synced(tok, t)
    ensures InsertCommand(tok, t.index, id, text).exact <==> TokensAt(tok, t.rows, id) == []
  {
    EntryOfExactIndex(tok, t.rows, id);
    if id in t.rows {
      TokenlessHasNoPostings(tok, id, t.rows[id].text);
    }
  }

  // ---------- Queries ----------

  ghost predicate IndexMatchesAt(postings: set<Posting>, id: int, phrase: seq<string>, at: nat) {
    forall k | 0 <= k < |phrase| :: Posting(phrase[k], id, at + k) in postings
  }

  /** A phrase query over the index: the rows with consecutive postings of the phrase's tokens. */
  ghost predicate IndexMatches(postings: set<Posting>, id: int, phrase: seq<string>) {
    exists at: nat :: IndexMatchesAt(postings, id, phrase, at)
  }

  ghost predicate TextMatchesAt(tokens: seq<string>, phrase: seq<string>, at: nat) {
    at + |phrase| <= |tokens| && tokens[at..at + |phrase|] == phrase
  }

  /** The same question put to the text itself. */
  ghost predicate TextMatches(tokens: seq<string>, phrase: seq<string>) {
    exists at: nat :: TextMatchesAt(tokens, phrase, at)
  }

  lemma {:induction false} PostingInExactIndex(tok: Tokenizer, t: Table, p: Posting)
    requires IndexExact(tok, t)
    ensures p in t.index.postings <==>
            p.rowid in t.rows && p.position < |tok(t.rows[p.rowid].text)|
            && tok(t.rows[p.rowid].text)[p.position] == p.token
  {
    EntryOfExactIndex(tok, t.rows, p.rowid);
    assert p in t.index.postings <==> p in Entry(t.index.postings, p.rowid);
  }

  /** A query on an exact index returns the rows that a scan of the table would, and no others. */
  lemma {:induction false} QueryIsScan(tok: Tokenizer, t: Table, id: int, phrase: seq<string>)
    requires IndexExact(tok, t) && phrase != []
    ensures IndexMatches(t.index.postings, id, phrase)
       <==> id in t.rows && TextMatches(tok(t.rows[id].text), phrase)
  {
    if IndexMatches(t.index.postings, id, phrase) {
      var at: nat :| IndexMatchesAt(t.index.postings, id, phrase, at);
      forall k | 0 <= k < |phrase|
        ensures id in t.rows && at + k < |tok(t.rows[id].text)| && tok(t.rows[id].text)[at + k] == phrase[k]
      {
        PostingInExactIndex(tok, t, Posting(phrase[k], id, at + k));
      }
      PostingInExactIndex(tok, t, Posting(phrase[|phrase| - 1], id, at + (|phrase| - 1)));
      assert TextMatchesAt(tok(t.rows[id].text), phrase, at);
    }
    if id in t.rows && TextMatches(tok(t.rows[id].text), phrase) {
      var tokens := tok(t.rows[id].text);
      var at: nat :| TextMatchesAt(tokens, phrase, at);
      forall k | 0 <= k < |phrase|
        ensures Posting(phrase[k], id, at + k) in t.index.postings
      {
        assert tokens[at..at + |phrase|][k] == tokens[at + k];
        PostingInExactIndex(tok, t, Posting(phrase[k], id, at + k));
      }
      assert IndexMatchesAt(t.index.postings, id, phrase, at);
    }
  }

  /** An index created over a table with one row that has a token misses that row. */
  lemma {:induction false} CreatedOverRows(tok: Tokenizer, id: int, row: Row)
    requires tok(row.text) != []
    ensures
      var t := FtsCreated(Table(map[id := row], {}, NO_INDEX));
      && !Synced(tok, t)
      && TextMatches(tok(t.rows[id].text), [tok(row.text)[0]]) && !IndexMatches(t.index.postings, id, [tok(row.text)[0]])
  {
    var t := Table(map[id := row], {}, NO_INDEX);
    CreatedExactIff(tok, t);
    assert id in t.rows;
    var phrase := [tok(row.text)[0]];
    assert TextMatchesAt(tok(row.text), phrase, 0);
    forall at: nat
      ensures !IndexMatchesAt({}, id, phrase, at)
    {
      assert Posting(phrase[0], id, at + 0) !in {};
    }
  }
}
