/**
 What the statements achieve: which rows stand after each of them and after any run, what they say,
 and what a phrase query then finds.  Everything is said of the statements themselves.
 */
module StoreAnswers {
  import opened Fts
  import opened Store

  /** The two indexed tables. */
  datatype Side = Messages | Chunks

  function TableAt(db: Database, side: Side): Table {
    if side.Messages? then db.messages else db.chunks
  }

  // ---------- One statement ----------

  /** The statement inserts a row under this id, and the row's parent is there. */
  ghost predicate Adds(db: Database, side: Side, s: Statement, id: int) {
    match s
    case InsertMessage(m, row) => side.Messages? && m == id && row.parent in db.chats
    case InsertChunk(k, row) => side.Chunks? && k == id && row.parent in db.documents
    case _ => false
  }

  /** The statement deletes the row: by name, or with its parent, or with its parent's owner. */
  ghost predicate Removes(db: Database, side: Side, s: Statement, id: int) {
    id in TableAt(db, side).rows
    && var parent := TableAt(db, side).rows[id].parent;
       match s
       case DeleteMessages(ids) => side.Messages? && id in ids
       case DeleteChunks(ids) => side.Chunks? && id in ids
       case DeleteChat(chat) => side.Messages? && parent == chat
       case DeleteDocument(document) => side.Chunks? && parent == document
       case DeleteUser(user) =>
         if side.Messages? then parent in db.chats && db.chats[parent] == user
         else parent in db.documents && db.documents[parent] == user
       case _ => false
  }

  /** The statement gives a standing row this text. */
  ghost predicate SetsText(side: Side, s: Statement, id: int, text: string) {
    s == if side.Messages? then SetMessageText(id, text) else SetChunkText(id, text)
  }

  /** The statement gives a row that stands, or comes to stand, this text. */
  ghost predicate WritesText(db: Database, side: Side, s: Statement, id: int, text: string) {
    if id in TableAt(db, side).rows then SetsText(side, s, id, text)
    else Adds(db, side, s, id) && s.row.text == text
  }

  lemma {:induction false} StepUsers(tok: Tokenizer, db: Database, s: Statement, user: int)
    ensures user in Step(tok, db, s).users <==> s == InsertUser(user) || (user in db.users && s != DeleteUser(user))
  {
  }

  /** Chats come with their statement if their user is there, and go with theirs or with their user's. */
  lemma {:induction false} StepChats(tok: Tokenizer, db: Database, s: Statement, chat: int)
    ensures
      var after := Step(tok, db, s).chats;
      && (chat in after <==>
            || (s.InsertChat? && s.id == chat && s.user in db.users)
            || (chat in db.chats && s != DeleteChat(chat) && s != DeleteUser(db.chats[chat])))
      && (chat in after && chat in db.chats ==> after[chat] == db.chats[chat])
      && (chat in after && chat !in db.chats ==> s == InsertChat(chat, after[chat]))
  {
  }

  lemma {:induction false} StepDocuments(tok: Tokenizer, db: Database, s: Statement, document: int)
    ensures
      var after := Step(tok, db, s).documents;
      && (document in after <==>
            || (s.InsertDocument? && s.id == document && s.user in db.users)
            || (document in db.documents && s != DeleteDocument(document) && s != DeleteUser(db.documents[document])))
      && (document in after && document in db.documents ==> after[document] == db.documents[document])
      && (document in after && document !in db.documents ==> s == InsertDocument(document, after[document]))
  {
  }

  /** Which rows stand after a statement: those it adds, and those there were that it does not remove. */
  lemma {:induction false} StepRows(tok: Tokenizer, db: Database, side: Side, s: Statement, id: int)
    requires NoOrphans(db)
    ensures
      var before, after := TableAt(db, side).rows, TableAt(Step(tok, db, s), side).rows;
      && (id in after <==> Adds(db, side, s, id) || (id in before && !Removes(db, side, s, id)))
      && (id in after && id !in before ==>
            s == if side.Messages? then InsertMessage(id, after[id]) else InsertChunk(id, after[id]))
  {
    hide InsertCommand, DeleteCommand;
  }

  /** What a row says that stood before and stands after: only its own statement, or a column step, changes it. */
  lemma {:induction false} StepKeepsRow(tok: Tokenizer, db: Database, side: Side, s: Statement, id: int)
    requires id in TableAt(db, side).rows && id in TableAt(Step(tok, db, s), side).rows
    ensures
      var before, after := TableAt(db, side).rows[id], TableAt(Step(tok, db, s), side).rows[id];
      match s
      case SetMessageText(m, text) => after == if side.Messages? && m == id then before.(text := text) else before
      case SetChunkText(k, text) => after == if side.Chunks? && k == id then before.(text := text) else before
      case SetMessageOther(m, parent, others) =>
        after == if side.Messages? && m == id && parent in db.chats then Row(parent, before.text, others) else before
      case SetChunkOther(k, parent, others) =>
        after == if side.Chunks? && k == id && parent in db.documents then Row(parent, before.text, others) else before
      case AddMessageColumn(name) =>
        after == if side.Messages? then before.(others := before.others[name := "NULL"]) else before
      case DropMessageColumn(name) =>
        after == if side.Messages? then before.(others := before.others - {name}) else before
      case _ => after == before
  {
    hide InsertCommand, DeleteCommand;
  }

  // ---------- What a query finds after one statement ----------

  /** A phrase query on the index of the table finds the row. */
  ghost predicate Found(db: Database, side: Side, id: int, phrase: seq<string>) {
    IndexMatches(TableAt(db, side).index.postings, id, phrase)
  }

  lemma {:induction false} FoundIff(tok: Tokenizer, db: Database, side: Side, id: int, phrase: seq<string>)
    requires Sound(tok, db) && phrase != []
    ensures Found(db, side, id, phrase)
       <==> id in TableAt(db, side).rows && TextMatches(tok(TableAt(db, side).rows[id].text), phrase)
  {
    QueryIsScan(tok, TableAt(db, side), id, phrase);
  }

  function Insertion(side: Side, id: int, row: Row): Statement {
    if side.Messages? then InsertMessage(id, row) else InsertChunk(id, row)
  }

  function TextUpdate(side: Side, id: int, text: string): Statement {
    if side.Messages? then SetMessageText(id, text) else SetChunkText(id, text)
  }

  function ParentsAt(db: Database, side: Side): map<int, int> {
    if side.Messages? then db.chats else db.documents
  }

  /** A statement that adds or rewrites this one row, seen on the whole table. */
  lemma {:induction false} SameRows(tok: Tokenizer, db: Database, side: Side, s: Statement, row: Row, id: int)
    requires NoOrphans(db)
    requires
      || (s == Insertion(side, id, row) && id !in TableAt(db, side).rows && row.parent in ParentsAt(db, side))
      || (id in TableAt(db, side).rows && s == TextUpdate(side, id, row.text)
          && row == TableAt(db, side).rows[id].(text := row.text))
    ensures TableAt(Step(tok, db, s), side).rows == TableAt(db, side).rows[id := row]
  {
    hide Step, NoOrphans;
    var before, after := TableAt(db, side).rows, TableAt(Step(tok, db, s), side).rows;
    forall other
      ensures other in after <==> other in before || other == id
      ensures other in after ==> after[other] == before[id := row][other]
    {
      StepRows(tok, db, side, s, other);
      if other in before && other in after {
        StepKeepsRow(tok, db, side, s, other);
      }
    }
    assert after.Keys == before[id := row].Keys;
  }

  /**
   A row inserted under a fresh id and an existing parent stands as it was given, and is found by exactly
   the phrases of its text; all other rows, and what is found of them, stay.
   */
  lemma {:induction false} RowInserted(tok: Tokenizer, db: Database, side: Side, id: int, row: Row)
    requires Sound(tok, db) && id !in TableAt(db, side).rows && row.parent in ParentsAt(db, side)
    ensures
      var after := Step(tok, db, Insertion(side, id, row));
      && TableAt(after, side).rows == TableAt(db, side).rows[id := row]
      && forall phrase: seq<string> | phrase != [] ::
           && (Found(after, side, id, phrase) <==> TextMatches(tok(row.text), phrase))
           && forall other | other != id :: Found(after, side, other, phrase) <==> Found(db, side, other, phrase)
  {
    hide Found, TextMatches, Synced, IndexExact;
    var s := Insertion(side, id, row);
    var after := Step(tok, db, s);
    StepKeepsSound(tok, db, s);
    SameRows(tok, db, side, s, row, id);
    forall phrase: seq<string>, other: int | phrase != []
      ensures other == id ==> (Found(after, side, other, phrase) <==> TextMatches(tok(row.text), phrase))
      ensures other != id ==> (Found(after, side, other, phrase) <==> Found(db, side, other, phrase))
    {
      FoundIff(tok, db, side, other, phrase);
      FoundIff(tok, after, side, other, phrase);
    }
  }

  /** An update of a standing row's text changes that text alone, and what is found of that row alone. */
  lemma {:induction false} TextSet(tok: Tokenizer, db: Database, side: Side, id: int, text: string)
    requires Sound(tok, db) && id in TableAt(db, side).rows
    ensures
      var after := Step(tok, db, TextUpdate(side, id, text));
      && TableAt(after, side).rows == TableAt(db, side).rows[id := TableAt(db, side).rows[id].(text := text)]
      && forall phrase: seq<string> | phrase != [] ::
           && (Found(after, side, id, phrase) <==> TextMatches(tok(text), phrase))
           && forall other | other != id :: Found(after, side, other, phrase) <==> Found(db, side, other, phrase)
  {
    hide Found, TextMatches, Synced, IndexExact;
    var s := TextUpdate(side, id, text);
    var after := Step(tok, db, s);
    StepKeepsSound(tok, db, s);
    SameRows(tok, db, side, s, TableAt(db, side).rows[id].(text := text), id);
    forall phrase: seq<string>, other: int | phrase != []
      ensures other == id ==> (Found(after, side, other, phrase) <==> TextMatches(tok(text), phrase))
      ensures other != id ==> (Found(after, side, other, phrase) <==> Found(db, side, other, phrase))
    {
      FoundIff(tok, db, side, other, phrase);
      FoundIff(tok, after, side, other, phrase);
    }
  }

  // ---------- Any run ----------

  /** The database after the first i statements of a run. */
  function At(tok: Tokenizer, ss: seq<Statement>, i: nat): Database
    requires i <= |ss|
  {
    Run(tok, Migrated(), ss[..i])
  }

  lemma {:induction false} RunAppend(tok: Tokenizer, db: Database, ss: seq<Statement>, s: Statement)
    ensures Run(tok, db, ss + [s]) == Step(tok, Run(tok, db, ss), s)
    decreases |ss|
  {
    if ss == [] {
      assert [s][1..] == [];
    } else {
      assert (ss + [s])[1..] == ss[1..] + [s];
      RunAppend(tok, Step(tok, db, ss[0]), ss[1..], s);
    }
  }

  /** A run without its last statement. */
  lemma {:induction false} LastStep(tok: Tokenizer, ss: seq<Statement>)
    requires ss != []
    ensures
      var n := |ss| - 1;
      && At(tok, ss, |ss|) == Step(tok, At(tok, ss, n), ss[n])
      && At(tok, ss, n) == At(tok, ss[..n], n)
      && forall i | 0 <= i <= n :: At(tok, ss[..n], i) == At(tok, ss, i)
  {
    hide Step, Run;
    var n := |ss| - 1;
    assert ss[..|ss|] == ss[..n] + [ss[n]];
    RunAppend(tok, Migrated(), ss[..n], ss[n]);
    assert forall i | 0 <= i <= n :: ss[..n][..i] == ss[..i];
  }

  /** From statement i on, none removes the row. */
  ghost predicate StaysFrom(tok: Tokenizer, ss: seq<Statement>, side: Side, i: nat, id: int) {
    forall j | i <= j < |ss| :: !Removes(At(tok, ss, j), side, ss[j], id)
  }

  ghost predicate AddedToStay(tok: Tokenizer, ss: seq<Statement>, side: Side, i: nat, id: int) {
    i < |ss| && Adds(At(tok, ss, i), side, ss[i], id) && StaysFrom(tok, ss, side, i + 1, id)
  }

  lemma {:induction false} StaysLast(tok: Tokenizer, ss: seq<Statement>, side: Side, i: nat, id: int)
    requires i < |ss|
    ensures var n := |ss| - 1;
      StaysFrom(tok, ss, side, i, id)
      <==> StaysFrom(tok, ss[..n], side, i, id) && !Removes(At(tok, ss, n), side, ss[n], id)
    ensures StaysFrom(tok, ss, side, |ss|, id)
  {
    hide Removes, At;
    LastStep(tok, ss);
    var n := |ss| - 1;
    assert forall j | i <= j < n :: ss[..n][j] == ss[j];
  }

  lemma {:induction false} AddedLast(tok: Tokenizer, ss: seq<Statement>, side: Side, i: nat, id: int)
    requires ss != []
    ensures var n := |ss| - 1;
      AddedToStay(tok, ss, side, i, id)
      <==> if i == n then Adds(At(tok, ss, n), side, ss[n], id)
           else AddedToStay(tok, ss[..n], side, i, id) && !Removes(At(tok, ss, n), side, ss[n], id)
  {
    hide Adds, Removes, StaysFrom, At;
    LastStep(tok, ss);
    var n := |ss| - 1;
    if i < n {
      StaysLast(tok, ss, side, i + 1, id);
    } else {
      StaysLast(tok, ss, side, n, id);
    }
  }

  lemma NotYet(tok: Tokenizer, ss: seq<Statement>, side: Side, id: int)
    ensures !AddedToStay(tok, ss, side, |ss|, id)
  {
  }

  /** A row stands after a run exactly if some statement added it and none since has removed it. */
  lemma {:induction false} RowStandsIff(tok: Tokenizer, ss: seq<Statement>, side: Side, id: int)
    ensures id in TableAt(At(tok, ss, |ss|), side).rows <==> exists i: nat :: AddedToStay(tok, ss, side, i, id)
  {
    if ss == [] {
    } else {
      var n := |ss| - 1;
      var front := ss[..n];
      RowStandsIff(tok, front, side, id);
      LastStep(tok, ss);
      EveryRunSound(tok, front);
      StepRows(tok, At(tok, ss, n), side, ss[n], id);
      hide Adds, Removes, AddedToStay, Run, Step, At;
      forall i: nat
        ensures AddedToStay(tok, ss, side, i, id)
           <==> if i == n then Adds(At(tok, ss, n), side, ss[n], id)
                else AddedToStay(tok, front, side, i, id) && !Removes(At(tok, ss, n), side, ss[n], id)
      {
        AddedLast(tok, ss, side, i, id);
      }
      assert !AddedToStay(tok, front, side, n, id) by {
        NotYet(tok, front, side, id);
      }
      if id in TableAt(At(tok, front, n), side).rows {
        var i: nat :| AddedToStay(tok, front, side, i, id);
        assert i != n;
      }
    }
  }

  ghost predicate Rewrites(side: Side, s: Statement, id: int) {
    if side.Messages? then s.SetMessageText? && s.id == id else s.SetChunkText? && s.id == id
  }

  /** Statement i writes the row's text, and from then on none rewrites it and none removes the row. */
  ghost predicate WrittenToStay(tok: Tokenizer, ss: seq<Statement>, side: Side, i: nat, id: int, text: string) {
    && i < |ss|
    && WritesText(At(tok, ss, i), side, ss[i], id, text)
    && StaysFrom(tok, ss, side, i + 1, id)
    && forall j | i < j < |ss| :: !Rewrites(side, ss[j], id)
  }

  ghost predicate Says(db: Database, side: Side, id: int, text: string) {
    id in TableAt(db, side).rows && TableAt(db, side).rows[id].text == text
  }

  /** A row says a text after a statement that wrote it, or if it said so before and is left alone. */
  lemma {:induction false} StepText(tok: Tokenizer, db: Database, side: Side, s: Statement, id: int, text: string)
    requires NoOrphans(db)
    ensures Says(Step(tok, db, s), side, id, text)
       <==> || WritesText(db, side, s, id, text)
            || (Says(db, side, id, text) && !Rewrites(side, s, id) && !Removes(db, side, s, id))
  {
    hide Step;
    StepRows(tok, db, side, s, id);
    if id in TableAt(db, side).rows && id in TableAt(Step(tok, db, s), side).rows {
      StepKeepsRow(tok, db, side, s, id);
    }
  }

  lemma {:induction false} WrittenLast(tok: Tokenizer, ss: seq<Statement>, side: Side, i: nat, id: int, text: string)
    requires ss != []
    ensures var n := |ss| - 1;
      WrittenToStay(tok, ss, side, i, id, text)
      <==> if i == n then WritesText(At(tok, ss, n), side, ss[n], id, text)
           else && WrittenToStay(tok, ss[..n], side, i, id, text)
                && !Removes(At(tok, ss, n), side, ss[n], id) && !Rewrites(side, ss[n], id)
  {
    hide WritesText, Removes, Rewrites, StaysFrom, At;
    LastStep(tok, ss);
    var n := |ss| - 1;
    if i < n {
      StaysLast(tok, ss, side, i + 1, id);
      assert forall j | i < j < n :: ss[..n][j] == ss[j];
    } else {
      StaysLast(tok, ss, side, n, id);
    }
  }

  lemma NotYetWritten(tok: Tokenizer, ss: seq<Statement>, side: Side, id: int, text: string)
    ensures !WrittenToStay(tok, ss, side, |ss|, id, text)
  {
  }

  /** What a row says after a run is what was last written to it, and it stands if it was not removed since. */
  lemma {:induction false} TextStandsIff(tok: Tokenizer, ss: seq<Statement>, side: Side, id: int, text: string)
    ensures Says(At(tok, ss, |ss|), side, id, text) <==> exists i: nat :: WrittenToStay(tok, ss, side, i, id, text)
  {
    if ss == [] {
    } else {
      var n := |ss| - 1;
      var front := ss[..n];
      TextStandsIff(tok, front, side, id, text);
      LastStep(tok, ss);
      EveryRunSound(tok, front);
      StepText(tok, At(tok, ss, n), side, ss[n], id, text);
      hide WritesText, Removes, Rewrites, Says, WrittenToStay, Run, Step, At;
      forall i: nat
        ensures WrittenToStay(tok, ss, side, i, id, text)
           <==> if i == n then WritesText(At(tok, ss, n), side, ss[n], id, text)
                else && WrittenToStay(tok, front, side, i, id, text)
                     && !Removes(At(tok, ss, n), side, ss[n], id) && !Rewrites(side, ss[n], id)
      {
        WrittenLast(tok, ss, side, i, id, text);
      }
      assert !WrittenToStay(tok, front, side, n, id, text) by {
        NotYetWritten(tok, front, side, id, text);
      }
      if Says(At(tok, front, n), side, id, text) {
        var i: nat :| WrittenToStay(tok, front, side, i, id, text);
        assert i != n;
      }
    }
  }

  /** From the statements to the answer: a run's index finds a row by exactly the phrases last written to it. */
  lemma {:induction false} FoundAfterRunIff(
    tok: Tokenizer, ss: seq<Statement>, side: Side, id: int, phrase: seq<string>)
    requires phrase != []
    ensures Found(At(tok, ss, |ss|), side, id, phrase)
       <==> exists i: nat, text: string :: WrittenToStay(tok, ss, side, i, id, text) && TextMatches(tok(text), phrase)
  {
    hide WrittenToStay, Found, TextMatches;
    var db := At(tok, ss, |ss|);
    assert ss[..|ss|] == ss;
    EveryRunSound(tok, ss);
    FoundIff(tok, db, side, id, phrase);
    if Found(db, side, id, phrase) {
      TextStandsIff(tok, ss, side, id, TableAt(db, side).rows[id].text);
    }
    if i: nat, text: string :| WrittenToStay(tok, ss, side, i, id, text) && TextMatches(tok(text), phrase) {
      TextStandsIff(tok, ss, side, id, text);
    }
  }

  // ---------- Users and owners after any run ----------

  /** Statement i inserts the user, and from then on none deletes them. */
  ghost predicate UserToStay(ss: seq<Statement>, i: nat, user: int) {
    i < |ss| && ss[i] == InsertUser(user) && forall j | i < j < |ss| :: ss[j] != DeleteUser(user)
  }

  lemma {:induction false} UserLast(ss: seq<Statement>, i: nat, user: int)
    requires ss != []
    ensures var n := |ss| - 1;
      UserToStay(ss, i, user)
      <==> if i == n then ss[n] == InsertUser(user) else UserToStay(ss[..n], i, user) && ss[n] != DeleteUser(user)
  {
    var n := |ss| - 1;
    assert forall j | 0 <= j < n :: ss[..n][j] == ss[j];
  }

  /** A user stands after a run exactly if some statement inserted them and none since has deleted them. */
  lemma {:induction false} UserStandsIff(tok: Tokenizer, ss: seq<Statement>, user: int)
    ensures user in At(tok, ss, |ss|).users <==> exists i: nat :: UserToStay(ss, i, user)
  {
    if ss == [] {
    } else {
      var n := |ss| - 1;
      var front := ss[..n];
      UserStandsIff(tok, front, user);
      LastStep(tok, ss);
      StepUsers(tok, At(tok, ss, n), ss[n], user);
      hide Step, Run, At;
      forall i: nat
        ensures UserToStay(ss, i, user)
           <==> if i == n then ss[n] == InsertUser(user) else UserToStay(front, i, user) && ss[n] != DeleteUser(user)
      {
        UserLast(ss, i, user);
      }
      assert !UserToStay(front, n, user);
    }
  }

  function OwnerInsertion(side: Side, id: int, user: int): Statement {
    if side.Messages? then InsertChat(id, user) else InsertDocument(id, user)
  }

  function OwnerDeletion(side: Side, id: int): Statement {
    if side.Messages? then DeleteChat(id) else DeleteDocument(id)
  }

  /** Statement i gives a chat, or a document, to a user who is there, and from then on nothing takes it away. */
  ghost predicate OwnedToStay(tok: Tokenizer, ss: seq<Statement>, side: Side, i: nat, id: int, user: int) {
    && i < |ss| && ss[i] == OwnerInsertion(side, id, user)
    && user in At(tok, ss, i).users && id !in ParentsAt(At(tok, ss, i), side)
    && forall j | i < j < |ss| :: ss[j] != OwnerDeletion(side, id) && ss[j] != DeleteUser(user)
  }

  lemma {:induction false} OwnedLast(tok: Tokenizer, ss: seq<Statement>, side: Side, i: nat, id: int, user: int)
    requires ss != []
    ensures var n := |ss| - 1;
      OwnedToStay(tok, ss, side, i, id, user)
      <==> if i == n then && ss[n] == OwnerInsertion(side, id, user)
                          && user in At(tok, ss, n).users && id !in ParentsAt(At(tok, ss, n), side)
           else && OwnedToStay(tok, ss[..n], side, i, id, user)
                && ss[n] != OwnerDeletion(side, id) && ss[n] != DeleteUser(user)
  {
    hide At, OwnerInsertion, OwnerDeletion, ParentsAt;
    LastStep(tok, ss);
    var n := |ss| - 1;
    assert forall j | 0 <= j < n :: ss[..n][j] == ss[j];
  }

  ghost predicate Owns(db: Database, side: Side, id: int, user: int) {
    id in ParentsAt(db, side) && ParentsAt(db, side)[id] == user
  }

  lemma {:induction false} StepOwns(tok: Tokenizer, db: Database, side: Side, s: Statement, id: int, user: int)
    ensures Owns(Step(tok, db, s), side, id, user)
       <==> || (s == OwnerInsertion(side, id, user) && user in db.users && id !in ParentsAt(db, side))
            || (Owns(db, side, id, user) && s != OwnerDeletion(side, id) && s != DeleteUser(user))
  {
    hide Step;
    StepChats(tok, db, s, id);
    StepDocuments(tok, db, s, id);
  }

  lemma NotYetOwned(tok: Tokenizer, ss: seq<Statement>, side: Side, id: int, user: int)
    ensures !OwnedToStay(tok, ss, side, |ss|, id, user)
  {
  }

  /** Who owns a chat or a document after a run: whoever it was inserted for, if nothing took it away since. */
  lemma {:induction false} OwnerIff(tok: Tokenizer, ss: seq<Statement>, side: Side, id: int, user: int)
    ensures Owns(At(tok, ss, |ss|), side, id, user) <==> exists i: nat :: OwnedToStay(tok, ss, side, i, id, user)
  {
    if ss == [] {
    } else {
      var n := |ss| - 1;
      var front := ss[..n];
      OwnerIff(tok, front, side, id, user);
      LastStep(tok, ss);
      StepOwns(tok, At(tok, ss, n), side, ss[n], id, user);
      hide Step, Run, At, OwnedToStay, Owns, ParentsAt, OwnerInsertion, OwnerDeletion;
      forall i: nat
        ensures OwnedToStay(tok, ss, side, i, id, user)
           <==> if i == n then && ss[n] == OwnerInsertion(side, id, user)
                               && user in At(tok, ss, n).users && id !in ParentsAt(At(tok, ss, n), side)
                else && OwnedToStay(tok, front, side, i, id, user)
                     && ss[n] != OwnerDeletion(side, id) && ss[n] != DeleteUser(user)
      {
        OwnedLast(tok, ss, side, i, id, user);
      }
      NotYetOwned(tok, front, side, id, user);
      if Owns(At(tok, front, n), side, id, user) {
        var i: nat :| OwnedToStay(tok, front, side, i, id, user);
        assert i != n;
      }
    }
  }
}
