/**
 The two indexed tables inside the database that owns them: users own chats and documents, chats
 own messages, documents own chunks, and every one of these foreign keys deletes on cascade.

 The value part of the module gives each statement a meaning; the classes below it carry the
 statements out in place, row by row, and are proved against that meaning.
 */
module Store {
  import opened Fts

  datatype Database = Database(
    users: set<int>,
    chats: map<int, int>,       // chat -> owning user
    documents: map<int, int>,   // document -> owning user
    messages: Table,            // parent: a chat
    chunks: Table)              // parent: a document

  datatype Statement =
    | InsertUser(id: int)
    | InsertChat(id: int, user: int)
    | InsertDocument(id: int, user: int)
    | InsertMessage(id: int, row: Row)
    | InsertChunk(id: int, row: Row)
    | SetMessageText(id: int, text: string)
    | SetChunkText(id: int, text: string)
    | SetMessageOther(id: int, parent: int, others: map<string, string>)
    | SetChunkOther(id: int, parent: int, others: map<string, string>)
    | DeleteMessages(ids: set<int>)
    | DeleteChunks(ids: set<int>)
    | DeleteChat(id: int)
    | DeleteDocument(id: int)
    | DeleteUser(id: int)
    | AddMessageColumn(name: string)
    | DropMessageColumn(name: string)

  const SQL_NULL: string := "NULL"

  function OwnedBy(owner: map<int, int>, user: int): set<int> {
    set id | id in owner && owner[id] == user
  }

  /** A statement that violates a key is refused and changes nothing. */
  function Step(tok: Tokenizer, db: Database, s: Statement): Database {
    match s
    case InsertUser(id) => db.(users := db.users + {id})
    case InsertChat(id, user) =>
      if user in db.users && id !in db.chats then db.(chats := db.chats[id := user]) else db
    case InsertDocument(id, user) =>
      if user in db.users && id !in db.documents then db.(documents := db.documents[id := user]) else db
    case InsertMessage(id, row) =>
      if row.parent in db.chats then db.(messages := Inserted(tok, db.messages, id, row)) else db
    case InsertChunk(id, row) =>
      if row.parent in db.documents then db.(chunks := Inserted(tok, db.chunks, id, row)) else db
    case SetMessageText(id, text) => db.(messages := TextUpdated(tok, db.messages, id, text))
    case SetChunkText(id, text) => db.(chunks := TextUpdated(tok, db.chunks, id, text))
    case SetMessageOther(id, parent, others) =>
      if parent in db.chats then db.(messages := OtherUpdated(db.messages, id, parent, others)) else db
    case SetChunkOther(id, parent, others) =>
      if parent in db.documents then db.(chunks := OtherUpdated(db.chunks, id, parent, others)) else db
    case DeleteMessages(ids) => db.(messages := RowsDeleted(tok, db.messages, ids))
    case DeleteChunks(ids) => db.(chunks := RowsDeleted(tok, db.chunks, ids))
    case DeleteChat(id) => ChatsDeleted(tok, db, {id})
    case DeleteDocument(id) => DocumentsDeleted(tok, db, {id})
    case DeleteUser(id) =>
      var less := db.(users := db.users - {id});
      DocumentsDeleted(tok, ChatsDeleted(tok, less, OwnedBy(db.chats, id)), OwnedBy(db.documents, id))
    case AddMessageColumn(name) => db.(messages := ColumnAdded(db.messages, name, SQL_NULL))
    case DropMessageColumn(name) => db.(messages := ColumnDropped(db.messages, name))
  }

  function ChatsDeleted(tok: Tokenizer, db: Database, ids: set<int>): Database {
    db.(chats := db.chats - ids, messages := RowsDeleted(tok, db.messages, ChildrenOf(db.messages.rows, ids)))
  }

  function DocumentsDeleted(tok: Tokenizer, db: Database, ids: set<int>): Database {
    db.(documents := db.documents - ids, chunks := RowsDeleted(tok, db.chunks, ChildrenOf(db.chunks.rows, ids)))
  }

  function Run(tok: Tokenizer, db: Database, ss: seq<Statement>): Database
    decreases |ss|
  {
    if ss == [] then db else Run(tok, Step(tok, db, ss[0]), ss[1..])
  }

  /** The database right after the migrations: no rows, both indexes and all triggers created. */
  function Migrated(): Database {
    Database({}, map[], map[], FtsCreated(Table(map[], {}, NO_INDEX)), FtsCreated(Table(map[], {}, NO_INDEX)))
  }

  // ---------- What every run keeps ----------

  ghost predicate NoOrphans(db: Database) {
    && (forall c | c in db.chats :: db.chats[c] in db.users)
    && (forall d | d in db.documents :: db.documents[d] in db.users)
    && (forall m | m in db.messages.rows :: db.messages.rows[m].parent in db.chats)
    && (forall k | k in db.chunks.rows :: db.chunks.rows[k].parent in db.documents)
  }

  ghost predicate Sound(tok: Tokenizer, db: Database) {
    NoOrphans(db) && Synced(tok, db.messages) && Synced(tok, db.chunks)
  }

  lemma {:induction false} StepKeepsKeys(tok: Tokenizer, db: Database, s: Statement)
    requires NoOrphans(db)
    ensures NoOrphans(Step(tok, db, s))
  {
  }

  lemma {:induction false} StepKeepsIndexes(tok: Tokenizer, db: Database, s: Statement)
    requires Synced(tok, db.messages) && Synced(tok, db.chunks)
    ensures Synced(tok, Step(tok, db, s).messages) && Synced(tok, Step(tok, db, s).chunks)
  {
    hide Synced, Inserted, TextUpdated, OtherUpdated, RowsDeleted, ColumnAdded, ColumnDropped, ChildrenOf, OwnedBy;
    match s
    case InsertMessage(id, row) => InsertKeepsSynced(tok, db.messages, id, row);
    case InsertChunk(id, row) => InsertKeepsSynced(tok, db.chunks, id, row);
    case SetMessageText(id, text) => TextUpdateKeepsSynced(tok, db.messages, id, text);
    case SetChunkText(id, text) => TextUpdateKeepsSynced(tok, db.chunks, id, text);
    case SetMessageOther(id, parent, others) => OtherUpdateKeepsSynced(tok, db.messages, id, parent, others);
    case SetChunkOther(id, parent, others) => OtherUpdateKeepsSynced(tok, db.chunks, id, parent, others);
    case DeleteMessages(ids) => DeleteKeepsSynced(tok, db.messages, ids);
    case DeleteChunks(ids) => DeleteKeepsSynced(tok, db.chunks, ids);
    case DeleteChat(id) => DeleteKeepsSynced(tok, db.messages, ChildrenOf(db.messages.rows, {id}));
    case DeleteDocument(id) => DeleteKeepsSynced(tok, db.chunks, ChildrenOf(db.chunks.rows, {id}));
    case DeleteUser(id) =>
      DeleteKeepsSynced(tok, db.messages, ChildrenOf(db.messages.rows, OwnedBy(db.chats, id)));
      DeleteKeepsSynced(tok, db.chunks, ChildrenOf(db.chunks.rows, OwnedBy(db.documents, id)));
    case AddMessageColumn(name) => ColumnStepsKeepSynced(tok, db.messages, name, SQL_NULL);
    case DropMessageColumn(name) => ColumnStepsKeepSynced(tok, db.messages, name, SQL_NULL);
    case _ =>
  }

  lemma {:induction false} StepKeepsSound(tok: Tokenizer, db: Database, s: Statement)
    requires Sound(tok, db)
    ensures Sound(tok, Step(tok, db, s))
  {
    hide Step, NoOrphans, Synced;
    StepKeepsKeys(tok, db, s);
    StepKeepsIndexes(tok, db, s);
  }

  lemma {:induction false} RunKeepsSound(tok: Tokenizer, db: Database, ss: seq<Statement>)
    requires Sound(tok, db)
    ensures Sound(tok, Run(tok, db, ss))
    decreases |ss|
  {
    if ss == [] {
    } else {
      StepKeepsSound(tok, db, ss[0]);
      RunKeepsSound(tok, Step(tok, db, ss[0]), ss[1..]);
    }
  }

  /** From the migrated database on, after any run both indexes are exactly what a rebuild would give. */
  lemma {:induction false} EveryRunSound(tok: Tokenizer, ss: seq<Statement>)
    ensures Sound(tok, Run(tok, Migrated(), ss))
  {
    assert Sound(tok, Migrated());
    RunKeepsSound(tok, Migrated(), ss);
  }

  /** After any run, a phrase query on the message index returns exactly the rows a scan would. */
  lemma {:induction false} EveryRunAnswersQueries(tok: Tokenizer, ss: seq<Statement>, id: int, phrase: seq<string>)
    requires phrase != []
    ensures
      var db := Run(tok, Migrated(), ss);
      && (IndexMatches(db.messages.index.postings, id, phrase)
          <==> id in db.messages.rows && TextMatches(tok(db.messages.rows[id].text), phrase))
      && (IndexMatches(db.chunks.index.postings, id, phrase)
          <==> id in db.chunks.rows && TextMatches(tok(db.chunks.rows[id].text), phrase))
  {
    EveryRunSound(tok, ss);
    var db := Run(tok, Migrated(), ss);
    QueryIsScan(tok, db.messages, id, phrase);
    QueryIsScan(tok, db.chunks, id, phrase);
  }

  /** Deleting a user takes exactly the rows below that user, in both chains, and no posting of theirs stays. */
  lemma {:induction false} DeleteUserTakesExactlyTheirs(tok: Tokenizer, db: Database, user: int)
    requires Sound(tok, db)
    ensures
      var after := Step(tok, db, DeleteUser(user));
      && (forall m :: m in after.messages.rows <==> m in db.messages.rows && db.chats[db.messages.rows[m].parent] != user)
      && (forall k :: k in after.chunks.rows <==> k in db.chunks.rows && db.documents[db.chunks.rows[k].parent] != user)
      && (forall p :: p in after.messages.index.postings <==>
                      p in db.messages.index.postings && db.chats[db.messages.rows[p.rowid].parent] != user)
      && (forall p :: p in after.chunks.index.postings <==>
                      p in db.chunks.index.postings && db.documents[db.chunks.rows[p.rowid].parent] != user)
  {
    var after := Step(tok, db, DeleteUser(user));
    StepKeepsSound(tok, db, DeleteUser(user));
    forall p
      ensures p in after.messages.index.postings <==>
              p in db.messages.index.postings && db.chats[db.messages.rows[p.rowid].parent] != user
      ensures p in after.chunks.index.postings <==>
              p in db.chunks.index.postings && db.documents[db.chunks.rows[p.rowid].parent] != user
    {
      PostingInExactIndex(tok, db.messages, p);
      PostingInExactIndex(tok, after.messages, p);
      PostingInExactIndex(tok, db.chunks, p);
      PostingInExactIndex(tok, after.chunks, p);
    }
  }

  // ---------- The statements carried out in place ----------

  /** Cascading chats in two rounds is cascading the union. */
  lemma {:induction false} ChatRounds(tok: Tokenizer, db: Database, first: set<int>, second: set<int>)
    ensures ChatsDeleted(tok, ChatsDeleted(tok, db, first), second) == ChatsDeleted(tok, db, first + second)
    ensures ChatsDeleted(tok, db, {}) == db
  {
    var rows := db.messages.rows;
    var rest := RowsDeleted(tok, db.messages, ChildrenOf(rows, first)).rows;
    DeleteRounds(tok, db.messages, ChildrenOf(rows, first), ChildrenOf(rest, second));
    assert ChildrenOf(rows, first) + ChildrenOf(rest, second) == ChildrenOf(rows, first + second);
    assert ChildrenOf(rows, {}) == {} && rows - {} == rows && db.chats - {} == db.chats;
  }

  lemma {:induction false} DocumentRounds(tok: Tokenizer, db: Database, first: set<int>, second: set<int>)
    ensures DocumentsDeleted(tok, DocumentsDeleted(tok, db, first), second)
         == DocumentsDeleted(tok, db, first + second)
    ensures DocumentsDeleted(tok, db, {}) == db
  {
    var rows := db.chunks.rows;
    var rest := RowsDeleted(tok, db.chunks, ChildrenOf(rows, first)).rows;
    DeleteRounds(tok, db.chunks, ChildrenOf(rows, first), ChildrenOf(rest, second));
    assert ChildrenOf(rows, first) + ChildrenOf(rest, second) == ChildrenOf(rows, first + second);
    assert ChildrenOf(rows, {}) == {} && rows - {} == rows && db.documents - {} == db.documents;
  }

  /** The next row a statement happens to visit. */
  method AnyOf<T(==)>(s: set<T>) returns (x: T)
    requires s != {}
    ensures x in s
  {
    x :| x in s;
  }

  /** A content table with its triggers and its index. */
  class IndexedTable {
    const tok: Tokenizer
    var rows: map<int, Row>
    var triggers: set<Trigger>
    var index: Index

    ghost function State(): Table
      reads this
    {
      Table(rows, triggers, index)
    }

    constructor (tok: Tokenizer)
      ensures this.tok == tok && State() == Table(map[], {}, NO_INDEX)
    {
      this.tok := tok;
      rows, triggers, index := map[], {}, NO_INDEX;
    }

    method CreateFts()
      modifies this
      ensures State() == FtsCreated(old(State()))
      ensures rows == old(rows) && triggers == {AfterInsert, AfterUpdate, AfterDelete} && index == Index({}, true)
    {
      index := NO_INDEX;
      triggers := {AfterInsert};
      triggers := triggers + {AfterUpdate};
      triggers := triggers + {AfterDelete};
    }

    method DropFts()
      modifies this
      ensures State() == FtsDropped(old(State()))
      ensures rows == old(rows) && triggers == {} && index == Index({}, true)
    {
      triggers := triggers - {AfterDelete};
      triggers := triggers - {AfterUpdate};
      triggers := triggers - {AfterInsert};
      index := NO_INDEX;
      assert triggers == {} by {
        assert forall x :: x in old(triggers) ==> x.AfterInsert? || x.AfterUpdate? || x.AfterDelete?;
      }
    }

    method Insert(id: int, row: Row)
      modifies this
      ensures State() == Inserted(tok, old(State()), id, row)
      ensures Synced(tok, old(State())) ==> Synced(tok, State())
    {
      ghost var before := State();
      if Synced(tok, before) {
        InsertKeepsSynced(tok, before, id, row);
      }
      if id in rows {
        return;
      }
      rows := rows[id := row];
      if AfterInsert in triggers {
        index := InsertCommand(tok, index, id, row.text);
      }
    }

    method SetText(id: int, text: string)
      modifies this
      ensures State() == TextUpdated(tok, old(State()), id, text)
      ensures Synced(tok, old(State())) ==> Synced(tok, State())
    {
      ghost var before := State();
      if Synced(tok, before) {
        TextUpdateKeepsSynced(tok, before, id, text);
      }
      if id !in rows {
        return;
      }
      var was := rows[id];
      rows := rows[id := was.(text := text)];
      if AfterUpdate in triggers {
        index := DeleteCommand(tok, index, id, was.text);
        index := InsertCommand(tok, index, id, text);
      }
    }

    method SetOther(id: int, parent: int, others: map<string, string>)
      modifies this
      ensures State() == OtherUpdated(old(State()), id, parent, others)
      ensures Synced(tok, old(State())) ==> Synced(tok, State())
    {
      ghost var before := State();
      if Synced(tok, before) {
        OtherUpdateKeepsSynced(tok, before, id, parent, others);
      }
      if id in rows {
        rows := rows[id := Row(parent, rows[id].text, others)];
      }
    }

    method DeleteRow(id: int)
      modifies this
      ensures State() == RowsDeleted(tok, old(State()), {id})
      ensures Synced(tok, old(State())) ==> Synced(tok, State())
    {
      ghost var before := State();
      if Synced(tok, before) {
        DeleteKeepsSynced(tok, before, {id});
      }
      if id in rows {
        var was := rows[id];
        rows := rows - {id};
        if AfterDelete in triggers {
          index := DeleteCommand(tok, index, id, was.text);
        }
      } else {
        assert rows - {id} == rows;
      }
    }

    /** One statement, many rows: the rows go one at a time, each firing its trigger. */
    method DeleteRows(ids: set<int>)
      modifies this
      ensures State() == RowsDeleted(tok, old(State()), ids)
      ensures Synced(tok, old(State())) ==> Synced(tok, State())
    {
      ghost var before := State();
      if Synced(tok, before) {
        DeleteKeepsSynced(tok, before, ids);
      }
      var left := ids;
      assert rows - {} == rows;
      while left != {}
        invariant left <= ids
        invariant State() == RowsDeleted(tok, old(State()), ids - left)
        decreases left
      {
        var id := AnyOf(left);
        DeleteRow(id);
        DeleteRounds(tok, old(State()), ids - left, {id});
        assert ids - left + {id} == ids - (left - {id});
        left := left - {id};
      }
      assert ids - left == ids;
    }

    method AddColumn(name: string, value: string)
      modifies this
      ensures State() == ColumnAdded(old(State()), name, value)
      ensures Synced(tok, old(State())) ==> Synced(tok, State())
    {
      ghost var before := State();
      if Synced(tok, before) {
        ColumnStepsKeepSynced(tok, before, name, value);
      }
      rows := map id | id in rows :: rows[id].(others := rows[id].others[name := value]);
    }

    method DropColumn(name: string)
      modifies this
      ensures State() == ColumnDropped(old(State()), name)
      ensures Synced(tok, old(State())) ==> Synced(tok, State())
    {
      ghost var before := State();
      if Synced(tok, before) {
        ColumnStepsKeepSynced(tok, before, name, "");
      }
      rows := map id | id in rows :: rows[id].(others := rows[id].others - {name});
    }
  }

  /** The database, with one object per table that carries an index. */
  class Server {
    const tok: Tokenizer
    const messages: IndexedTable
    const chunks: IndexedTable
    var users: set<int>
    var chats: map<int, int>
    var documents: map<int, int>

    ghost predicate Valid()
    {
      messages != chunks && messages.tok == tok && chunks.tok == tok
    }

    ghost function State(): Database
      reads this, messages, chunks
    {
      Database(users, chats, documents, messages.State(), chunks.State())
    }

    constructor (tok: Tokenizer)
      ensures Valid() && fresh(messages) && fresh(chunks)
      ensures State() == Migrated()
    {
      this.tok := tok;
      var m := new IndexedTable(tok);
      var k := new IndexedTable(tok);
      m.CreateFts();
      k.CreateFts();
      messages, chunks := m, k;
      users, chats, documents := {}, map[], map[];
    }

    /** The cascade of one chat: its row goes, then each of its messages. */
    method RemoveChat(chat: int)
      requires Valid()
      modifies this`chats, messages
      ensures State() == Step(tok, old(State()), DeleteChat(chat))
    {
      chats := chats - {chat};
      messages.DeleteRows(set id | id in messages.rows && messages.rows[id].parent == chat);
      assert (set id | id in old(messages.rows) && old(messages.rows)[id].parent == chat)
          == ChildrenOf(old(messages.rows), {chat});
    }

    method RemoveDocument(document: int)
      requires Valid()
      modifies this`documents, chunks
      ensures State() == Step(tok, old(State()), DeleteDocument(document))
    {
      documents := documents - {document};
      chunks.DeleteRows(set id | id in chunks.rows && chunks.rows[id].parent == document);
      assert (set id | id in old(chunks.rows) && old(chunks.rows)[id].parent == document)
          == ChildrenOf(old(chunks.rows), {document});
    }

    /** The chats of one user, one cascade each, in any order. */
    method RemoveChatsOf(user: int)
      requires Valid()
      modifies this`chats, messages
      ensures State() == ChatsDeleted(tok, old(State()), OwnedBy(old(chats), user))
    {
      var left := set c | c in chats && chats[c] == user;
      ghost var all := left;
      ChatRounds(tok, State(), {}, {});
      while left != {}
        invariant left <= all
        invariant State() == ChatsDeleted(tok, old(State()), all - left)
        decreases left
      {
        var chat := AnyOf(left);
        RemoveChat(chat);
        ChatRounds(tok, old(State()), all - left, {chat});
        assert all - left + {chat} == all - (left - {chat});
        left := left - {chat};
      }
      assert all - left == all;
    }

    method RemoveDocumentsOf(user: int)
      requires Valid()
      modifies this`documents, chunks
      ensures State() == DocumentsDeleted(tok, old(State()), OwnedBy(old(documents), user))
    {
      var left := set d | d in documents && documents[d] == user;
      ghost var all := left;
      DocumentRounds(tok, State(), {}, {});
      while left != {}
        invariant left <= all
        invariant State() == DocumentsDeleted(tok, old(State()), all - left)
        decreases left
      {
        var document := AnyOf(left);
        RemoveDocument(document);
        DocumentRounds(tok, old(State()), all - left, {document});
        assert all - left + {document} == all - (left - {document});
        left := left - {document};
      }
      assert all - left == all;
    }

    /** The cascade of one user: the user row, then that user's chats, then their documents. */
    method RemoveUser(user: int)
      requires Valid()
      modifies this, messages, chunks
      ensures State() == Step(tok, old(State()), DeleteUser(user))
    {
      users := users - {user};
      RemoveChatsOf(user);
      RemoveDocumentsOf(user);
    }

    method Execute(s: Statement)
      requires Valid()
      modifies this, messages, chunks
      ensures State() == Step(tok, old(State()), s)
    {
      match s
      case InsertUser(id) => users := users + {id};
      case InsertChat(id, user) =>
        if user in users && id !in chats {
          chats := chats[id := user];
        }
      case InsertDocument(id, user) =>
        if user in users && id !in documents {
          documents := documents[id := user];
        }
      case InsertMessage(id, row) =>
        if row.parent in chats {
          messages.Insert(id, row);
        }
      case InsertChunk(id, row) =>
        if row.parent in documents {
          chunks.Insert(id, row);
        }
      case SetMessageText(id, text) => messages.SetText(id, text);
      case SetChunkText(id, text) => chunks.SetText(id, text);
      case SetMessageOther(id, parent, others) =>
        if parent in chats {
          messages.SetOther(id, parent, others);
        }
      case SetChunkOther(id, parent, others) =>
        if parent in documents {
          chunks.SetOther(id, parent, others);
        }
      case DeleteMessages(ids) => messages.DeleteRows(ids);
      case DeleteChunks(ids) => chunks.DeleteRows(ids);
      case DeleteChat(id) => RemoveChat(id);
      case DeleteDocument(id) => RemoveDocument(id);
      case DeleteUser(id) => RemoveUser(id);
      case AddMessageColumn(name) => messages.AddColumn(name, SQL_NULL);
      case DropMessageColumn(name) => messages.DropColumn(name);
    }
  }
}
