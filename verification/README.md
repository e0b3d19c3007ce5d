# lm-chat in Dafny

A model of the algorithmic cores of lm-chat, a self-hosted chat server, and of its quality gate, with proofs of
what each of them is for. `dafny verify dfyconfig.toml` checks everything.

| files | what they model |
|---|---|
| `Fts.dfy`, `Store.dfy`, `StoreAnswers.dfy` | the SQLite full-text indexes over messages and document chunks: an index that only ever sees commands, three row triggers, cascading deletes and schema steps. In every reachable state the index is what a rebuild would give, and a query finds a row by exactly what was last written to it. |
| `Sse.dfy`, `SseFrames.dfy`, `EventStream.dfy`, `SsePrinter.dfy`, `SseAnswers.dfy`, `ChatPayload.dfy` | the event-stream parser, against the line-by-line machine of sections 9.2.5 and 9.2.6 of the WHATWG HTML Living Standard, against a printer, and under composition |
| `Sorting.dfy`, `JsonText.dfy`, `Fingerprint.dfy`, `FingerprintProofs.dfy`, `FingerprintDefaults.dfy`, `FingerprintColumns.dfy`, `FingerprintActions.dfy`, `FingerprintText.dfy` | the schema fingerprint: its canonical form forgets order and nothing else, and the JSON text that is hashed (strings as in section 7 of RFC 8259) determines the canonical form |
| `Cosine.dfy`, `VectorFormat.dfy` | embedding vectors: cosine similarity over the reals, and the storage format of single-precision words (section 3.4 of IEEE 754-2019), least significant byte first |
| `EngineCache.dfy` | the cached database engine: any number of threads that get it, dispose it, or dispose it asynchronously, step by step |
| `FlakeFilter.dfy`, `FlakeFilterProofs.dfy`, `FlakeAnswers.dfy` | the flake filter, which rewrites a JUnit tree and its counters in place |
| `GateReport.dfy`, `GateAnswers.dfy` | the aggregator of the gate: its verdict, its findings, and the sub-tool files that have no say |
| `LayerCombiner.dfy`, `CombinerAnswers.dfy` | the combiner that writes a layer's own file out of its sub-tools' files |
| `GarakBuckets.dfy`, `GarakGate.dfy` | the garak report folded into buckets, turned into test cases, combined into its layer's file, and decided on by the gate |
| `Scoping.dfy`, `ScopingAnswers.dfy`, `ScopingRule.dfy` | the scanner that looks for memory queries without user scoping, and the rule it documents |
| `Retry.dfy` | retrying database writes |
| `AuthDocs.dfy` | the 401 and 403 responses added to the generated API description |
| `Options.dfy`, `Strings.dfy` | an optional value, and searching text |

What is passed in as a parameter, and so holds for every choice of it: the tokenizer, JSON decoding, the digest,
the glob matcher, reading an integer attribute and writing one, the square root (assumed exact), the conversion
between floats and words, stripping and upper-casing text in the garak report, what counts as white space for the
scoping scanner and where the comments of its input are, and the outcomes of the callback that is retried. In the
fingerprint, lower case, upper case and white space are those of ASCII.

Code that works in place is modelled in place (classes and loops), and each such method is proved to have the
effect of a function on values; the theorems are about these functions.  What the functions give is stated once more
without them, by the fields, files and statements alone (`*Answers.dfy`, `FingerprintText.dfy`).

## Where the code and what is said about it part

* **Retries.** The module comment of `src/lmchat/db/retry.py` speaks of 50, 200 and 500 ms, about 750 ms in all, and a
  table of these delays is defined but unused. The code sleeps 50 and 200 ms (`Retry.DefaultWait`).
* **Fingerprint.** The comment promises that any change of a column's type or default changes the fingerprint. A change
  of type does exactly if the name of its Python type, or of its class where it has none, changes
  (`FingerprintColumns.TypeChangeIff`), so `String(192)` may become `String(64)` unseen
  (`FingerprintColumns.LengthIsUnseen`). A change of default does exactly if the two are not taken for one another
  (`FingerprintColumns.DefaultChangeIff`): a missing default and the default `None` are, and so are clauses that differ
  in case and outer white space only (`FingerprintDefaults.CapitalsCollide`). The local columns of a foreign key and the
  order of a primary key are not part of the hashed content at all (`FingerprintProofs.KeyColumnsAreUnseen`,
  `FingerprintProofs.MovedKeyIsUnseen`). A string that spells a surrogate pair as two code points prints like one with
  the character it stands for, and that is the only way for two strings to print alike
  (`JsonText.SurrogatePairCollides`, `JsonText.SameUnitsIff`).
* **Engine.** `get_engine` reads the global again after its check, and after giving back the lock, without holding the
  lock. It returns `None` exactly if the last write by the other threads before that read clears the global
  (`EngineCache.ReturnsNoneIff`, with schedules for both reads in `EngineCache.OvertakenGettersReturnNone`). It returns
  an engine that is disposed already exactly if it reads between the synchronous disposer's two steps
  (`EngineCache.ReturnsDisposedIff`, with a schedule in `EngineCache.DisposedEngineReturned`). Without disposers every
  caller gets the one engine (`EngineCache.GettersShareOneEngine`). The two disposers differ when an engine's dispose
  raises: the synchronous one leaves the engine cached, the asynchronous one has let go of it, and nothing will dispose
  it again (`EngineCache.SyncFailureKeepsEngine`, `EngineCache.AsyncFailureLosesEngine`, `EngineCache.LostForever`).
* **Event streams.** The standard discards an event that the stream does not close with a blank line; the parser reads
  it. `EventStream.UnfinishedEventIff` says exactly when this shows, `EventStream.UnfinishedEventDiffers` gives a
  stream on which it does. A line that is just `data` adds an empty line under the standard and nothing here;
  `EventStream.ParserMeetsRuleIff` says exactly when this shows, and it does on `EventStream.BareDataDiffers`.
  A comment in the parser promises that a payload which is no JSON falls back to plain text; the code passes it over
  (`SseAnswers.PlainTextSkipped`).
* **Full-text index.** Migration 0002 creates the index without a rebuild, so it starts exact only over a table without
  tokens (`Fts.CreatedExactIff`, `Fts.CreatedOverRows`); the theorems about runs start from the freshly migrated, empty
  database.
* **Gate.** A negative failure counter lets a suite with failures pass (`GateReport.PassesWithFindingsIff`,
  `GateReport.NegativeCounterPasses`); an open gate has no findings exactly if no layer's own file has such a counter
  (`GateReport.OpenGateCleanIff`). The combiner drops a sub-tool file it cannot parse and puts a skip in the place of a
  missing one, so neither can close the gate (`LayerCombiner.CombinedGreenIff`). Its exit code only
  adds counters up: it is zero over a red layer exactly if some suite fails that counts nothing, or nothing that can be
  read (`LayerCombiner.VerdictIff`, `LayerCombiner.MissedBecause`, `LayerCombiner.ExitCodeMisses`).
* **Flake filter.** In nested suites a case is converted once but only the outermost suite's counters move, so an inner
  suite's counters go stale exactly where it shares a converted case (`FlakeFilterProofs.StaysExactIff`,
  `FlakeFilterProofs.NestedSuiteGoesStale`). A root that is itself a suite is summed into itself: it stays exact only if
  nothing is converted or no suite below it counts anything (`FlakeFilterProofs.RootSuiteExactIff`,
  `FlakeFilterProofs.RootSuiteCountsTwice`).
* **Garak report.** The test whether a prompt was sampled before compares the whole prompt with the shortened samples,
  so prompts of more than 200 characters can leave one sample twice (`GarakBuckets.SamplesDistinctIff`,
  `GarakBuckets.SharedStartRepeats`).
* **Scoping scanner.** The documented rule asks the function around every query for a `where` call that refers to the
  user (by a keyword, by an attribute of the table, or in the left side of a comparison) or for the marker
  `# scoped: cross-user` in its docstring or a comment. Whether the call must stand on the query's own chain it does not
  say; both readings are proved. The function is the outermost one around the query, as the comments of the scanner want
  it. Rule and scan differ in both directions, and the theorems say exactly where.
  A clean scan does not show the rule for queries outside of all functions, and where only a `user_id` parameter, a
  `values` call, `user_id` in some other place of a `where` call, or a marker without its number sign speaks for a query
  (`ScopingRule.CleanShowsRuleIff`; inputs: `ScopingRule.BareQueryPasses`, `ScopingRule.ParameterOnlyPasses`,
  `ScopingRule.RightSidePasses`, `ScopingRule.SharedClausePasses`).
  The rule does not give a clean scan where only a comment behind code, or a reference inside the value of a keyword or
  as a keyword in the left side of a comparison, speaks for a query (`ScopingRule.RuleShowsCleanIff`,
  `ScopingRule.HiddenReferenceIff`; input: `ScopingRule.TrailingCommentReported`). One clause or parameter in a function
  speaks for all its queries (`Scoping.ExcuseIsShared`).

## Model

| member | source | states |
|---|---|---|
| Fts.InsertKeepsSynced | migrations/versions/0002_fts5_messages.py:81-85 | an insert, with the trigger it fires, keeps "all triggers installed, index equal to a rebuild, every delete command named the indexed text" |
| Fts.TextUpdateKeepsSynced | migrations/versions/0002_fts5_messages.py:87-101 | delete-then-insert on an update of the indexed column keeps it, also when old and new text share tokens |
| Fts.OtherUpdateKeepsSynced | migrations/versions/0002_fts5_messages.py:95-96 | an update of other columns fires nothing and keeps it |
| Fts.DeleteKeepsSynced | migrations/versions/0002_fts5_messages.py:103-109 | deleting any set of rows keeps it |
| Fts.DeleteRounds | migrations/versions/0002_fts5_messages.py:103-109 | deleting in two rounds is deleting the union, so the order in which a cascade visits rows is immaterial |
| Fts.RebuiltWithRow | migrations/versions/0002_fts5_messages.py:96-101 | a rebuild after writing one row is the rebuild before with that row's entry exchanged |
| Fts.NamedTextMatters | migrations/versions/0002_fts5_messages.py:87-101 | exactly which texts may be named in the delete command of an update so that the result is still a rebuild: every old token is among the named ones or stays in its place |
| Fts.SwappedOrderExactIff | migrations/versions/0002_fts5_messages.py:95-101 | insert-then-delete gives the rebuild exactly when no new token occurs in the old text |
| Fts.WrongTextNoticedIff | migrations/versions/0002_fts5_messages.py:95-99 | a delete command is recorded as naming another text exactly if that text has other tokens than the row |
| Fts.SecondInsertNoticedIff | migrations/versions/0002_fts5_messages.py:81-85 | an insert command is recorded as coming on top of an entry exactly if the row has tokens already |
| Fts.CreatedExactIff | migrations/versions/0002_fts5_messages.py:70-85 | creating the index without a rebuild over a table with rows is exact exactly when no row has a token |
| Fts.ColumnStepsKeepSynced | migrations/versions/0037_compactions.py:110-142 | adding or dropping a column neither makes nor breaks the invariant |
| Fts.RunAfterRecreation | migrations/versions/0037_compactions.py:40-45 | after a re-creation that loses the triggers and any run of changes the rows are those of the same run with triggers, and the index is exact exactly if every row, present or not, has the tokens it had then |
| Fts.SameRebuildIff | migrations/versions/0002_fts5_messages.py:70-78 | two tables have the same rebuild exactly if every row has the same tokens in both |
| Fts.CreatedOverRows | migrations/versions/0002_fts5_messages.py:70-85 | an index created over a table with a row that has tokens misses it in queries |
| Fts.PostingInExactIndex | migrations/versions/0002_fts5_messages.py:70-78 | a posting is in an exact index exactly when the row's text has that token at that position |
| Fts.QueryIsScan | migrations/versions/0002_fts5_messages.py:70-78 | a phrase query on an exact index returns exactly the rows a scan of the texts would |
| Store.StepKeepsSound | migrations/versions/0001_baseline.py:207-267 | every statement, cascades included, keeps both indexes exact, all triggers installed and no orphan rows |
| Store.RunKeepsSound | migrations/versions/0001_baseline.py:207-267 | so does every run |
| Store.EveryRunSound | migrations/versions/0002_fts5_messages.py:70-109 | every run from the freshly migrated database ends in such a state |
| Store.EveryRunAnswersQueries | migrations/versions/0002_fts5_messages.py:70-109 | after every run, queries on either index agree with a scan |
| StoreAnswers.StepRows | migrations/versions/0001_baseline.py:207-267 | exactly which messages and chunks stand after a statement: those it adds under a parent that is there, and those there were that it does not remove by name, with their parent, or with its owner |
| StoreAnswers.StepKeepsRow | migrations/versions/0002_fts5_messages.py:87-101 | what a row that stays says after each statement: text, parent and columns change only by the statement that names them |
| StoreAnswers.StepUsers | migrations/versions/0001_baseline.py:207-267 | which users are there after a statement |
| StoreAnswers.StepChats | migrations/versions/0001_baseline.py:235-267 | which chats are there, and whose they are |
| StoreAnswers.StepDocuments | migrations/versions/0003_documents.py:104-133 | the same for documents |
| StoreAnswers.RowInserted | migrations/versions/0002_fts5_messages.py:81-85 | an inserted message or chunk stands exactly as given, is found by exactly the phrases of its text, and changes no other row and no other answer |
| StoreAnswers.TextSet | migrations/versions/0002_fts5_messages.py:87-101 | an updated text replaces the old one and its answers, and changes no other row and no other answer |
| StoreAnswers.RowStandsIff | migrations/versions/0002_fts5_messages.py:70-109 | after any run a row stands exactly if some statement added it and none since has removed it |
| StoreAnswers.TextStandsIff | migrations/versions/0002_fts5_messages.py:70-109 | and it says what was last written to it |
| StoreAnswers.FoundAfterRunIff | migrations/versions/0002_fts5_messages.py:70-109 | after any run a phrase query finds a row exactly if the text last written to it, and not removed since, has the phrase |
| StoreAnswers.UserStandsIff | migrations/versions/0001_baseline.py:207-267 | after any run a user is there exactly if some statement inserted them and none since has deleted them |
| StoreAnswers.OwnerIff | migrations/versions/0001_baseline.py:207-267 | after any run a chat or document belongs to the user it was inserted for, if neither it nor the user was deleted since |
| Store.DeleteUserTakesExactlyTheirs | migrations/versions/0003_documents.py:104-133 | deleting a user removes exactly the messages and chunks, and exactly the postings, that hang below that user |
| Store.ChatRounds | migrations/versions/0001_baseline.py:235-267 | deleting chats in two rounds is deleting them at once |
| Store.DocumentRounds | migrations/versions/0003_documents.py:104-133 | the same for documents |
| Store.IndexedTable.CreateFts | migrations/versions/0002_fts5_messages.py:70-109 | installs an empty index and the three triggers, and nothing else |
| Store.IndexedTable.DropFts | migrations/versions/0002_fts5_messages.py:121-124 | removes index and triggers |
| Store.IndexedTable.DeleteRow | migrations/versions/0002_fts5_messages.py:103-109 | row and index after one delete |
| Store.IndexedTable.DeleteRows | migrations/versions/0003_documents.py:171-177 | a row-by-row delete of a set, in any order, has the effect of deleting the set |
| Store.Server.RemoveChat | migrations/versions/0001_baseline.py:267 | a chat and its messages, index included |
| Store.Server.RemoveDocument | migrations/versions/0003_documents.py:129-133 | a document and its chunks, index included |
| Store.Server.RemoveChatsOf | migrations/versions/0001_baseline.py:235 | all chats of a user, one by one, in any order |
| Store.Server.RemoveDocumentsOf | migrations/versions/0003_documents.py:104-108 | all documents of a user, one by one, in any order |
| Store.Server.RemoveUser | migrations/versions/0001_baseline.py:235-267 | the two cascade chains below a user |
| Store.Server.Execute | migrations/versions/0003_documents.py:143-177 | the in-place execution of any statement is the meaning the runs are about |
| Sse.ParseSseText | tools/garak_sse_generator.py:57-110 | the parser's loops compute the text of the payloads up to the first [DONE] |
| Sse.CollectDataLines | tools/garak_sse_generator.py:85-92 | the inner loop collects the values of the data lines, one leading space removed |
| SseFrames.BlockIsGroup | tools/garak_sse_generator.py:79-82 | inside one block, stripping newlines and splitting gives the one run of non-blank lines |
| SseFrames.BlocksAreGroups | tools/garak_sse_generator.py:79-97 | splitting on double newlines and stripping yields the payloads of the maximal runs of non-blank lines |
| SseFrames.PayloadsByLines | tools/garak_sse_generator.py:79-97 | the same for a whole body with either line ending |
| SseFrames.ReplaceAcross | tools/garak_sse_generator.py:79 | the CR LF replacement distributes over concatenation unless a CR LF is split |
| SseFrames.PayloadsAcross | tools/garak_sse_generator.py:79-97 | any run of two or more newlines separates frames: payloads before plus payloads after |
| SseFrames.TextAcross | tools/garak_sse_generator.py:79-110 | the same for the text, where a [DONE] before the gap silences all after it; the length of the gap is immaterial |
| SseFrames.TrailingCrIsAbsorbed | tools/garak_sse_generator.py:79 | a lone CR before the gap is swallowed by the replacement and costs nothing |
| SseFrames.SilentFramesChangeNothing | tools/garak_sse_generator.py:81-108 | inserting frames that contribute nothing (comments, other fields, malformed JSON) changes nothing |
| SseFrames.NoDataNoPayload | tools/garak_sse_generator.py:93-97 | frames without a data line have no payload |
| SseFrames.TextOfAppend | tools/garak_sse_generator.py:98-110 | text of concatenated payload lists, cut at [DONE] |
| EventStream.FieldDataIs | tools/garak_sse_generator.py:87-92 | the standard's field processing and the parser's prefix test differ only on a bare data line |
| EventStream.BufferIs | tools/garak_sse_generator.py:85-95 | the standard's data buffer after a run of lines is the joined values, plus one newline for every bare data line |
| EventStream.EndedLinesAreLines | tools/garak_sse_generator.py:79-86 | the standard's line reading and splitting after the CR LF replacement agree on streams without a lone CR |
| EventStream.EventsByRuns | tools/garak_sse_generator.py:79-97 | the line-by-line machine dispatches one event per run of non-blank lines |
| EventStream.AgreementByRun | tools/garak_sse_generator.py:79-97 | machine and parser agree exactly if each run is free of a bare data line that shows |
| EventStream.ParserMeetsRuleIff | tools/garak_sse_generator.py:79-97 | on closed streams without lone CR or BOM the parser's payloads are the standard's events exactly if no frame has such a line |
| EventStream.ParserTextIsRuleText | tools/garak_sse_generator.py:57-110 | without bare data lines the parser's text is that of the standard's event list up to [DONE] |
| EventStream.PayloadsAreEventsAndOpenIff | tools/garak_sse_generator.py:79-97 | on streams without a lone CR and without a byte order mark, closed or not, the payloads are the events of the standard followed by what is still pending, exactly if no closed frame has a bare data line that shows |
| EventStream.UnfinishedEventIff | tools/garak_sse_generator.py:79-110 | on such streams without such a closed frame, parser and standard give the same text exactly if the pending event says nothing or comes after [DONE] |
| EventStream.UnfinishedEventDiffers | tools/garak_sse_generator.py:79-110 | an unclosed stream on which they differ |
| EventStream.BareDataDiffers | tools/garak_sse_generator.py:87-92 | a closed stream with a bare data line, whose event and payload differ |
| SsePrinter.FrameRoundTrip | tools/garak_sse_generator.py:85-95 | a printed payload, leading spaces and newlines included, is read back |
| SsePrinter.CrlfUndone | tools/garak_sse_generator.py:79 | rewriting LF as CR LF is undone |
| SsePrinter.RoundTrip | tools/garak_sse_generator.py:79-97 | every list of CR-free, non-empty payloads is read back from its printed form, with either line ending |
| SsePrinter.TextRoundTrip | tools/garak_sse_generator.py:57-110 | the parsed text of a printed list is the concatenation of what its payloads contribute |
| SseAnswers.PrintedTexts | tools/garak_sse_generator.py:57-110 | payloads with given texts are parsed to exactly these texts one after the other, each where the ones before it end; a payload that cannot be read adds nothing |
| SseAnswers.LineRead | tools/garak_sse_generator.py:87-95 | a single data line is one payload |
| SseAnswers.DoneLineSilences | tools/garak_sse_generator.py:98-99 | a literal data: [DONE] line silences whatever follows it |
| SseAnswers.ChatTexts | tools/garak_sse_generator.py:57-155 | printed chat payloads of any of the five shapes are parsed to the texts they carry, in order |
| SseAnswers.PlainTextSkipped | tools/garak_sse_generator.py:100-106 | a payload that is no JSON adds no text |
| ChatPayload.ExtractTextByPaths | tools/garak_sse_generator.py:113-155 | the case analysis returns the first string on a fixed list of paths, or nothing |
| ChatPayload.AtPaths | tools/garak_sse_generator.py:125-154 | what those paths are in terms of the accepted shapes |
| ChatPayload.TextOfShapes | tools/garak_sse_generator.py:113-155 | what each of the five shapes of a payload says, by its members |
| ChatPayload.MuteFramesChangeNothing | tools/garak_sse_generator.py:102-109 | frames with malformed JSON, or JSON of another shape, can be inserted anywhere |
| Fingerprint.ColumnUniqueInTable | src/lmchat/db/fingerprint.py:99-119 | the search finds a flag or a sole-column unique constraint exactly if there is one |
| Fingerprint.BuildTableRepr | src/lmchat/db/fingerprint.py:122-165 | the loops build the canonical form of a table |
| Fingerprint.BuildConstraintTuples | src/lmchat/db/fingerprint.py:143-161 | the constraint loop builds the constraint tuples in order |
| Fingerprint.SchemaFingerprint | src/lmchat/db/fingerprint.py:168-196 | the digest of the printed canonical forms |
| FingerprintProofs.TupleOrder | src/lmchat/db/fingerprint.py:163 | the order of constraint tuples is total, transitive and without ties |
| FingerprintProofs.ReprKeepsContent | src/lmchat/db/fingerprint.py:132-165 | the canonical form keeps the column tuples and, with multiplicity, the constraint facts |
| FingerprintProofs.ContentDeterminesRepr | src/lmchat/db/fingerprint.py:132-165 | and nothing else: equal content, equal canonical form, wherever the two sorts started |
| FingerprintProofs.CanonicalIff | src/lmchat/db/fingerprint.py:190-193 | two schemas have the same canonical form exactly if they have the same content |
| FingerprintProofs.SerialiseInjective | src/lmchat/db/fingerprint.py:194 | equal printed text, equal canonical form, for strings without surrogate pairs spelt as two code points |
| FingerprintProofs.SameTextIff | src/lmchat/db/fingerprint.py:190-194 | the hashed texts are equal exactly if the schemas have the same content, for strings without surrogate pairs spelt out |
| FingerprintProofs.SerialiseIff | src/lmchat/db/fingerprint.py:194 | for any strings: equal texts exactly if the canonical forms agree once spelt-out surrogate pairs are joined |
| FingerprintProofs.AlikeKeepsContent | src/lmchat/db/fingerprint.py:133-161 | tables that differ in order, and in nothing their constraints contribute, have the same content |
| FingerprintProofs.KeyColumnsAreUnseen | src/lmchat/db/fingerprint.py:145-161 | schemas that differ only in the local columns of foreign keys and the columns of primary keys print alike |
| FingerprintProofs.MovedKeyIsUnseen | src/lmchat/db/fingerprint.py:145-161 | two such schemas |
| FingerprintProofs.ReorderedKeepsContent | src/lmchat/db/fingerprint.py:133-156 | permuting columns, constraints, and columns inside a constraint keeps the content |
| FingerprintProofs.FingerprintForgetsOrder | src/lmchat/db/fingerprint.py:168-196 | so the fingerprint is invariant under all these permutations and that of the tables |
| FingerprintText.TableText | src/lmchat/db/fingerprint.py:122-196 | the hashed text itself, of a table with one column and a constraint of each kind |
| FingerprintText.ListPrints | src/lmchat/db/fingerprint.py:194 | a list prints as the texts of its items, separated by a comma and a space, between brackets |
| FingerprintText.TablesInOrder | src/lmchat/db/fingerprint.py:190-193 | tables are printed in the order of their names, code point by code point |
| FingerprintText.PartsInOrder | src/lmchat/db/fingerprint.py:133-163 | so are the columns; checks come before foreign keys and these before unique constraints |
| FingerprintDefaults.DefaultsCollideIff | src/lmchat/db/fingerprint.py:69-96 | which two defaults are taken for one another: equal texts, None for a missing one, clauses equal up to case and outer white space, and a text that is such a clause in lower case |
| FingerprintDefaults.NoDefaultCollidesIff | src/lmchat/db/fingerprint.py:90-96 | which defaults are taken for a missing one: exactly the two that spell None |
| FingerprintDefaults.CapitalsCollide | src/lmchat/db/fingerprint.py:92-95 | two different clauses, and a clause and a text, that are taken for one another |
| FingerprintColumns.ColumnChangeIff | src/lmchat/db/fingerprint.py:133-141 | for any strings: another column under the same name leaves the hashed text alone exactly if the types read the same, the defaults are taken for one another, and nullability, key and uniqueness, by flag or constraint, are the same |
| FingerprintColumns.TypeChangeIff | src/lmchat/db/fingerprint.py:48-66 | another column type shows exactly if it reads otherwise: Python names are compared where both have one, class names where neither has, and one with the other where they differ in this |
| FingerprintColumns.IntegerToTextShows | src/lmchat/db/fingerprint.py:48-66 | in any schema an integer column that becomes a text column shows |
| FingerprintColumns.UniqueFlagIff | src/lmchat/db/fingerprint.py:99-119 | setting a column's unique flag stays unseen exactly if a unique constraint on it alone says the same |
| FingerprintColumns.LengthIsUnseen | src/lmchat/db/fingerprint.py:61-66 | in any schema a String(192) may become a String(64) without changing the hashed text |
| FingerprintColumns.JoinedCanonical | src/lmchat/db/fingerprint.py:69-96 | joining surrogate pairs commutes with lower-casing and stripping a default |
| FingerprintColumns.DefaultChangeIff | src/lmchat/db/fingerprint.py:168-196 | for any strings: another default of one column changes the hashed text exactly if the two, surrogate pairs joined, are not taken for one another |
| FingerprintActions.ActionChangeIff | src/lmchat/db/fingerprint.py:145-153 | other referential actions of a foreign key show exactly if the key has an element and an action differs in more than the case of its letters; for strings without surrogate pairs spelt out |
| FingerprintActions.CascadeShows | src/lmchat/db/fingerprint.py:145-153 | CASCADE and no action differ, CASCADE in capitals and in small letters do not |
| JsonText.PrintInjective | src/lmchat/db/fingerprint.py:194 | printed JSON determines the value, whatever text follows |
| JsonText.EscapeInjective | src/lmchat/db/fingerprint.py:194 | so does the escape of one code unit |
| JsonText.Utf16Injective | src/lmchat/db/fingerprint.py:194 | code units determine a string that has no high surrogate right before a low one |
| JsonText.SameUnitsIff | src/lmchat/db/fingerprint.py:194 | two strings print alike exactly if they are equal once spelt-out surrogate pairs are joined |
| JsonText.SurrogatePairCollides | src/lmchat/db/fingerprint.py:194 | every surrogate pair, spelt out, prints like the character it stands for |
| Sorting.SortForgetsOrder | src/lmchat/db/fingerprint.py:133 | sorting without ties does not depend on the starting order |
| Sorting.SortSorts | src/lmchat/db/fingerprint.py:144 | the sort used throughout sorts |
| Sorting.SortKeeps | src/lmchat/db/fingerprint.py:144 | and permutes |
| Cosine.CauchySchwarz | src/lmchat/embedding/vector_math.py:93-95 | the Cauchy-Schwarz inequality for sequences, with its equality case |
| Cosine.SimilarityBounds | src/lmchat/embedding/vector_math.py:74-95 | the similarity lies in [-1, 1], and at an end exactly for non-zero vectors on one line |
| Cosine.CosineLaw | src/lmchat/embedding/vector_math.py:88-95 | what the number is: the squared distance of the vectors is the sum of their squared lengths less twice the similarity times the lengths; vectors of different lengths are refused |
| Cosine.SimilarityEnds | src/lmchat/embedding/vector_math.py:93-95 | it is 1 exactly for vectors of one direction and -1 exactly for opposite ones |
| Cosine.SimilarityNegated | src/lmchat/embedding/vector_math.py:93-95 | a negative factor on either vector turns the sign round |
| Cosine.SimilaritySymmetric | src/lmchat/embedding/vector_math.py:88-95 | it is symmetric, the length error included |
| Cosine.SimilarityScaleFree | src/lmchat/embedding/vector_math.py:93-95 | it is unchanged by positive scaling of either argument |
| Cosine.SimilaritySelf | src/lmchat/embedding/vector_math.py:93-95 | it is 1 of a non-zero vector with itself |
| Cosine.SimilarityOfZero | src/lmchat/embedding/vector_math.py:95 | it is 0 when either vector is zero |
| VectorFormat.PackLength | src/lmchat/embedding/vector_math.py:45-56 | four bytes a component |
| VectorFormat.PackedAt | src/lmchat/embedding/vector_math.py:56 | each byte of the packed words is a digit of its word, least significant first |
| VectorFormat.PackFails | src/lmchat/embedding/vector_math.py:56 | a vector that cannot be packed fails with the error of its first bad component |
| VectorFormat.PackAppend | src/lmchat/embedding/vector_math.py:45-56 | packing distributes over concatenation |
| VectorFormat.UnpackPack | src/lmchat/embedding/vector_math.py:56-71 | unpacking packed words gives the words |
| VectorFormat.PackUnpack | src/lmchat/embedding/vector_math.py:56-71 | a blob unpacks exactly if its length is a multiple of four, and packing gives it back |
| VectorFormat.PackInjective | src/lmchat/embedding/vector_math.py:45-56 | different words, different bytes |
| VectorFormat.PackEmbeddingIsWords | src/lmchat/embedding/vector_math.py:56 | packing fails exactly if a component overflows, and otherwise packs the components' words |
| VectorFormat.VectorRoundTripIff | src/lmchat/embedding/vector_math.py:45-71 | a packed vector is read back unchanged exactly if every component is representable |
| VectorFormat.BlobRoundTripIff | src/lmchat/embedding/vector_math.py:45-71 | a blob is restored exactly if each of its words is what its value is converted back to |
| EngineCache.StepKeepsInvariant | src/lmchat/db/engine.py:109-171 | every step of every thread keeps the lock discipline, the threads' views and the books on every engine |
| EngineCache.RunKeepsInvariant | src/lmchat/db/engine.py:109-171 | so does every interleaving |
| EngineCache.EveryEngineAccounted | src/lmchat/db/engine.py:109-171 | in every reachable state every engine ever built is exactly one of: cached, in the hands of one thread, disposed once, or lost to a failed asynchronous dispose; none is disposed twice |
| EngineCache.QuietRunLeaksNothing | src/lmchat/db/engine.py:109-171 | when all threads are idle every engine but the cached one has been disposed once or was lost to a failed asynchronous dispose |
| EngineCache.SyncFailureKeepsEngine | src/lmchat/db/engine.py:142-149 | a synchronous dispose that raises leaves its engine in the cache, undisposed |
| EngineCache.AsyncFailureLosesEngine | src/lmchat/db/engine.py:161-171 | an asynchronous one that raises has cleared the cache and gives its engine up |
| EngineCache.LostForever | src/lmchat/db/engine.py:161-171 | a lost engine is never cached, held or disposed again, whatever the threads do |
| EngineCache.SomeThreadCanMove | src/lmchat/db/engine.py:122-168 | no interleaving deadlocks: while a thread is busy some thread can move |
| EngineCache.GettersShareOneEngine | src/lmchat/db/engine.py:119-129 | with getters only, at most one engine is built and every caller gets it |
| EngineCache.ReturnsNoneIff | src/lmchat/db/engine.py:119-129 | from the moment a getter has seen an engine, and after any actions of other threads, it returns none exactly if the last write to the cache before its last read clears it, and otherwise the engine stored last or the one it saw |
| EngineCache.ReaderHasSeenEngine | src/lmchat/db/engine.py:119-129 | a getter comes to its last, unlocked read only after it has seen or stored an engine |
| EngineCache.LockedReaderReturnsEngine | src/lmchat/db/engine.py:122-126 | the read under the lock never misses |
| EngineCache.ReturnsDisposedIff | src/lmchat/db/engine.py:142-149 | a getter returns a disposed engine exactly if a thread stands between disposing it and clearing the cache |
| EngineCache.OvertakenGettersReturnNone | src/lmchat/db/engine.py:119-129 | schedules on which each of the two unlocked reads returns no engine |
| EngineCache.DisposedEngineReturned | src/lmchat/db/engine.py:142-149 | a schedule on which a getter returns a disposed engine |
| EngineCache.GetAlone | src/lmchat/db/engine.py:109-129 | an undisturbed getter returns the cached engine or builds, caches and returns a new one |
| EngineCache.SyncAlone | src/lmchat/db/engine.py:132-149 | an undisturbed sync dispose disposes the cached engine once and clears the cache |
| EngineCache.AsyncAlone | src/lmchat/db/engine.py:152-171 | the same for the async one |
| EngineCache.DisposersAgreeAlone | src/lmchat/db/engine.py:132-171 | the two disposers have the same effect when undisturbed |
| EngineCache.EngineModule.GetEngine | src/lmchat/db/engine.py:109-129 | the in-place getter has the effect of the step machine run alone |
| EngineCache.EngineModule.DisposeEngine | src/lmchat/db/engine.py:132-149 | the same for the sync dispose |
| EngineCache.EngineModule.AsyncDisposeEngine | src/lmchat/db/engine.py:152-171 | the same for the async dispose |
| FlakeFilter.Document.FindEntry | tools/schemathesis_flake_filter.py:98-101 | the first allowlist entry that matches |
| FlakeFilter.Document.CollectReplacements | tools/schemathesis_flake_filter.py:93-101 | the children to replace, in order, each with its first matching entry |
| FlakeFilter.Document.ReplaceChildren | tools/schemathesis_flake_filter.py:103-131 | removing and inserting one after the other converts exactly those children in their places, and counts them by kind |
| FlakeFilter.Document.FilterCase | tools/schemathesis_flake_filter.py:89-131 | one test case in place, all others untouched |
| FlakeFilter.Document.FilterCasesOf | tools/schemathesis_flake_filter.py:89-131 | all test cases below a suite, those already done by an outer suite not counted again |
| FlakeFilter.Document.FilterSuite | tools/schemathesis_flake_filter.py:85-147 | one suite: its cases, its counters and the number converted |
| FlakeFilter.Document.FilterXml | tools/schemathesis_flake_filter.py:73-164 | the whole document in place: cases, suite counters, re-summed root counters, and the number returned |
| FlakeFilterProofs.ChildrenKept | tools/schemathesis_flake_filter.py:93-126 | every child keeps its position, and is changed exactly if an entry matches it, into a skip |
| FlakeAnswers.ConvertedIff | tools/schemathesis_flake_filter.py:54-126 | a failure or error becomes a skip exactly if some entry's pattern fits its case and the entry's text stands in its message or body; the skip tells of the first such entry, its rationale without outer white space |
| FlakeAnswers.CountersAre | tools/schemathesis_flake_filter.py:67-70 | what the counters of a suite become, down to zero, whatever they were |
| FlakeFilterProofs.CaseCounts | tools/schemathesis_flake_filter.py:128-131 | the elements a case loses as failures and errors it gains as skips |
| FlakeFilterProofs.ExactSuiteIff | tools/schemathesis_flake_filter.py:140-147 | an exact suite stays exact exactly if no case with a conversion was taken by an earlier suite; no exact counter is ever clamped |
| FlakeFilterProofs.StaysExactIff | tools/schemathesis_flake_filter.py:85-147 | the same for all suites of the document |
| FlakeFilterProofs.NestedSuiteGoesStale | tools/schemathesis_flake_filter.py:85-147 | two suites, one inside the other, around a case with a conversion: exact before and not after |
| FlakeFilterProofs.RootSuiteExactIff | tools/schemathesis_flake_filter.py:118-164 | over a whole run: a root that is itself an exact suite holding all cases is exact afterwards exactly if nothing is converted or no other suite counts anything before the run |
| FlakeFilterProofs.RootSuiteCountsTwice | tools/schemathesis_flake_filter.py:149-164 | a root suite with one suite below it, exact before the run and not after |
| FlakeFilterProofs.UnNestedStaysExact | tools/schemathesis_flake_filter.py:85-147 | un-nested suites whose counters match their elements keep doing so, and clamping never fires |
| FlakeFilterProofs.SumsConserved | tools/schemathesis_flake_filter.py:140-164 | failures plus errors fall and skips rise by the number of conversions, which is returned |
| FlakeFilterProofs.RootStaysExact | tools/schemathesis_flake_filter.py:149-164 | the root counters stay the sums and keep their total |
| FlakeFilterProofs.SecondRunChangesNothing | tools/schemathesis_flake_filter.py:73-164 | a second run converts nothing and changes nothing, nested suites and a root that is a suite included |
| GateReport.CollectTitled | tools/aggregate_junit.py:281-294 | one finding for each direct failure or error element |
| GateReport.CollectCases | tools/aggregate_junit.py:279-294 | the findings of all cases in document order |
| GateReport.ParseSuites | tools/aggregate_junit.py:250-294 | the verdict of a layer is that none of its suites fails, beside its tools and findings |
| GateReport.ParseLayer | tools/aggregate_junit.py:199-299 | a layer file, the missing, unreadable and wrongly rooted ones included |
| GateReport.SumSuites | tools/aggregate_junit.py:366-378 | all suites of a sub-tool file |
| GateReport.AddSubTools | tools/aggregate_junit.py:341-378 | sub-tools are added beside the tools a layer has, never over them |
| GateReport.CollectLayers | tools/aggregate_junit.py:326-382 | all layers and their findings, the aggregator's own layer without a file |
| GateReport.AllGreen | tools/aggregate_junit.py:385-389 | the gate is open exactly if no required layer is red or missing |
| GateReport.Aggregate | tools/aggregate_junit.py:319-411 | the report and its exit code |
| GateReport.DirectCounts | tools/aggregate_junit.py:263-294 | a suite with a direct failure counts it exactly if its counter is not negative |
| GateReport.PassesWithFindingsIff | tools/aggregate_junit.py:263-294 | a suite that passes has findings exactly if a negative counter hides them |
| GateReport.NegativeCounterPasses | tools/aggregate_junit.py:263-294 | a suite that passes with a failure |
| GateReport.GreenHasNoFindings | tools/aggregate_junit.py:199-299 | with non-negative counters a green layer has no findings |
| GateReport.OkIffLayersGreen | tools/aggregate_junit.py:385-389 | the gate is open exactly if every required layer file is there, readable and without failing suites |
| GateReport.OpenGateCleanIff | tools/aggregate_junit.py:326-397 | an open gate has no findings exactly if in no layer's own file, the report's own apart, a negative counter hides some |
| GateReport.OpenGateIsClean | tools/aggregate_junit.py:385-397 | with non-negative counters in the files of the layers it reads an open gate has no findings, and production-ready means open and without stubs |
| GateAnswers.OpenIff | tools/aggregate_junit.py:334-389 | by file names and attributes: the gate is open exactly if each of the nine files is there, readable, rightly rooted, and has no suite with a positive counter, or with a failure or error element behind a zero or absent one |
| GateAnswers.ReadyIff | tools/aggregate_junit.py:187-196 | ready for production exactly if, besides, none of the nine files is a stub (each suite a single skipped case named not-yet-implemented) and no test case has an error as a child |
| GateAnswers.ReportedIff | tools/aggregate_junit.py:209-294 | the findings are exactly those of the nine files: missing, unreadable, wrongly rooted, or one kind for each direct failure and error, with severity, tool, title and layer |
| GateAnswers.LayerIs | tools/aggregate_junit.py:326-380 | what the report shows of each layer: verdict, missing, stub, and which tools |
| GateAnswers.OwnLayerIs | tools/aggregate_junit.py:327-333 | the aggregator's own layer |
| GateAnswers.ToolsAre | tools/aggregate_junit.py:254-272 | the numbers shown of each suite name, from its last suite |
| GateAnswers.SubToolShown | tools/aggregate_junit.py:341-378 | what is shown of a sub-tool whose file is missing, unreadable or there |
| GateAnswers.SubToolTotals | tools/aggregate_junit.py:366-377 | a sub-tool whose suites count their elements shows the totals |
| GateReport.SubToolShowsFailureIff | tools/aggregate_junit.py:366-378 | with non-negative counters a sub-tool's sum is positive exactly if some suite of its file has a positive count |
| GateReport.SubToolsHaveNoSay | tools/aggregate_junit.py:337-389 | changing any files but those of the layers it reads changes neither verdict, nor findings, nor readiness |
| GateReport.OwnToolsKept | tools/aggregate_junit.py:341-378 | the tools of a layer's own file survive the merge, and every named sub-tool appears |
| GarakBuckets.AddRecord | tools/junit_from_garak.py:109-129 | one record's update of its bucket keeps the bucket a summary of the records so far |
| GarakBuckets.BucketByProbe | tools/junit_from_garak.py:78-130 | one bucket for every probe with a counted record, in order of appearance, each the summary of its records: attempts, hits, highest severity, samples |
| GarakBuckets.EmitCases | tools/junit_from_garak.py:176-213 | one case per probe, with the counters of the cases emitted |
| GarakBuckets.Convert | tools/junit_from_garak.py:143-218 | a suite with one case per probe seen, sorted, counters equal to the elements; or the one case that says there was nothing |
| GarakBuckets.HitsAreAttempts | tools/junit_from_garak.py:111-120 | hits never exceed attempts, and a case is clean exactly if its probe never fired |
| GarakBuckets.FailureIff | tools/junit_from_garak.py:113-127 | by the fields of the records: a probe fails exactly if some counted record of it did not pass, or scored at least 0.5, and is HIGH or CRITICAL or gives no severity; it is clean exactly if none hit |
| GarakBuckets.SeverityIs | tools/junit_from_garak.py:121-125 | a case shows the gravest severity among its hits, tried from CRITICAL down, and UNKNOWN where none is known |
| GarakBuckets.NumbersAre | tools/junit_from_garak.py:111-120 | attempts and hits are the numbers of the records that try the probe and that hit it |
| GarakBuckets.CountersCount | tools/junit_from_garak.py:197-217 | the counters of the suite are the numbers of its failing and skipped cases |
| GarakBuckets.ClassIs | tools/junit_from_garak.py:181-184 | the class of a case is its probe up to the first full stop |
| GarakBuckets.NamesRise | tools/junit_from_garak.py:151-152 | the cases stand in the order of their names |
| GarakBuckets.TopSeverityUnique | tools/junit_from_garak.py:119-125 | the promoted severity depends on nothing but the set of records |
| GarakBuckets.CaseForgetsOrder | tools/junit_from_garak.py:102-130 | attempts, hits, severity and verdict of a probe are the same for every order of the records |
| GarakBuckets.SuiteForgetsOrder | tools/junit_from_garak.py:143-218 | so is the whole suite, apart from the prompts sampled |
| GarakBuckets.SamplesAre | tools/junit_from_garak.py:126-129 | at most three samples, each the first 200 characters of a prompt that hit; with fewer than three, no prompt that hit is left out |
| GarakBuckets.SamplesDistinctIff | tools/junit_from_garak.py:126-129 | for every record list: the samples of a probe differ pairwise exactly if no hit with a prompt over 200 characters comes while there is room and its start is a sample already |
| GarakBuckets.ShortPromptsDiffer | tools/junit_from_garak.py:126-129 | they do if no hit has a prompt over 200 characters |
| GarakBuckets.SharedStartRepeats | tools/junit_from_garak.py:126-129 | two different prompts that leave one sample twice |
| GarakGate.GateReadsCounters | tools/aggregate_junit.py:359-378 | as a sub-tool file the written report shows the converter's counters |
| GarakGate.FailuresIffGrave | tools/junit_from_garak.py:200-206 | the suite counts a failure exactly if some record hits and is HIGH or CRITICAL, or gives no severity |
| GarakGate.CaseWritten | tools/junit_from_garak.py:176-213 | each written case: its attributes and its one child with its message |
| GarakGate.ReportedOfSuite | tools/aggregate_junit.py:279-294 | of the written suite the gate reports one kind of finding for each failing case, with its numbers |
| GarakGate.FileFailsIffGrave | tools/junit_from_garak.py:221-231 | no suite of the written file fails exactly if there is no such record |
| LayerCombiner.Combine | tools/combine_layer_junit.py:22-82 | the combined file: every suite found, a placeholder for a missing file, nothing for an unreadable one; and the exit code |
| LayerCombiner.FlattenedSuites | tools/combine_layer_junit.py:61-69 | appending a tree's suites one by one, nested ones again, adds no suite and loses none |
| LayerCombiner.CombinedGreenIff | tools/combine_layer_junit.py:33-69 | the combined file is green exactly if no suite fails in the sub-tool files that can be read |
| LayerCombiner.VerdictIff | tools/combine_layer_junit.py:62-82 | with non-negative counters the combined file is green exactly if the exit code is zero and no suite is missed: one that the gate fails and from which the combiner adds no failure or error |
| LayerCombiner.MissedBecause | tools/combine_layer_junit.py:62-68 | a missed suite has a counter that cannot be read, or a counter at zero over elements of its kind |
| LayerCombiner.ExitCodeMisses | tools/combine_layer_junit.py:62-82 | a suite with a failure and no counter: exit code zero, verdict red |
| CombinerAnswers.CombinedHolds | tools/combine_layer_junit.py:33-69 | the suites of the combined file are those of the readable files, nested ones included, and one for each missing file |
| CombinerAnswers.PlaceholderSays | tools/combine_layer_junit.py:38-49 | what stands for a missing file |
| CombinerAnswers.RootShowsSums | tools/combine_layer_junit.py:50-73 | if all counters can be read, the root's counters are the sums over the suites in it |
| GarakGate.LayerGreenIff | tools/combine_layer_junit.py:33-69 | the layer's file is green exactly if no counted record that fired is HIGH or CRITICAL and nothing fails in the other readable sub-tool files |
| GarakGate.GateOpenIff | tools/aggregate_junit.py:319-411 | from the records to the verdict: the gate is open exactly if, besides, the other layers are green |
| Scoping.CollectReferenced | tools/check_memory_query_scoping.py:272-278 | the names in the arguments and keyword values of a call |
| Scoping.CallMentionsUser | tools/check_memory_query_scoping.py:121-132 | whether a call mentions user_id: any argument by name or attribute, a keyword by its own name or a name in its value |
| Scoping.WhereArgsContainUserId | tools/check_memory_query_scoping.py:105-133 | the early-return search finds a where or values call that mentions the user exactly if there is one below the function |
| Scoping.HasCrossUserAnnotation | tools/check_memory_query_scoping.py:136-163 | the marker is in the docstring or in a comment among the function's lines |
| Scoping.CollectNested | tools/check_memory_query_scoping.py:232-240 | the functions that stand under another one of the list |
| Scoping.CollectTopLevelFuncs | tools/check_memory_query_scoping.py:202-242 | what remains after removing nested functions are exactly the outermost ones, in order |
| Scoping.FindUserParam | tools/check_memory_query_scoping.py:301-308 | whether a function or one nested in it has user_id among its named parameters |
| Scoping.ScanCall | tools/check_memory_query_scoping.py:266-322 | one call: a violation for each scoped table it names, unless its function is excused |
| Scoping.ScanFunction | tools/check_memory_query_scoping.py:262-322 | all calls below one function, in walk order |
| Scoping.ScanFile | tools/check_memory_query_scoping.py:245-324 | the scan of a file; one that does not parse has no violations |
| Scoping.KeptAboveIff | tools/check_memory_query_scoping.py:234-242 | the kept function above a node is its topmost function |
| Scoping.KeptFunctionsCover | tools/check_memory_query_scoping.py:202-242 | kept functions are an antichain, and each function has exactly one of them at or above it |
| Scoping.ExaminedOnce | tools/check_memory_query_scoping.py:261-266 | a node inside a function is examined exactly once, one outside of all functions never |
| Scoping.CleanIff | tools/check_memory_query_scoping.py:245-324 | the scan is clean exactly if every query inside a function stands below an outermost function that is excused |
| ScopingAnswers.ViolationIff | tools/check_memory_query_scoping.py:245-324 | by nodes and lines: the violations are exactly those of each query of a scoped table below an outermost function without an excuse, with function, call, table and line |
| ScopingAnswers.QueryIff | tools/check_memory_query_scoping.py:94-102 | a query is a call of select, update, delete or insert with memory_facts or memory_insights in an argument |
| ScopingAnswers.ExcusedIff | tools/check_memory_query_scoping.py:262-308 | what excuses a function: the marker, a where or values call that tells the user, or a parameter, anywhere below it |
| ScopingAnswers.UnderIff | tools/check_memory_query_scoping.py:265 | a node is below another exactly if a chain of parents leads there |
| ScopingRule.CleanShowsRuleIff | tools/check_memory_query_scoping.py:13-32 | under either reading of the rule, a clean scan means it is met exactly if every query stands in a function and none in one where only a parameter, a call that is no clause in the rule's sense, or a marker that is none in its sense speaks for it |
| ScopingRule.RuleShowsCleanIff | tools/check_memory_query_scoping.py:13-32 | a source that meets the rule is scanned clean exactly if no query depends on a marker behind code or on a clause in which the scan finds no user |
| ScopingRule.HiddenReferenceIff | tools/check_memory_query_scoping.py:25-28 | a where call without a mention the scan sees refers to the user exactly by an attribute or comparison in a keyword's value, or a keyword in the left side of a comparison |
| ScopingRule.CommentSeen | tools/check_memory_query_scoping.py:30-32 | the scan sees every comment with the marker that does not stand behind code |
| ScopingRule.BareQueryPasses | tools/check_memory_query_scoping.py:202-242 | a module that only says select(memory_facts) breaks the rule and is clean |
| ScopingRule.ParameterOnlyPasses | tools/check_memory_query_scoping.py:294-308 | so does a function with a user_id parameter it never uses |
| ScopingRule.RightSidePasses | tools/check_memory_query_scoping.py:121-127 | and a where clause with user_id only on the right of a comparison with another column |
| ScopingRule.SharedClausePasses | tools/check_memory_query_scoping.py:289-292 | a function with two queries and one clause is clean; it meets the rule if a clause may stand anywhere in the function, and not if it must stand on the query's own chain |
| ScopingRule.TrailingCommentReported | tools/check_memory_query_scoping.py:152-161 | a query with the marker behind it on its line meets the rule, and the scan reports it |
| Scoping.ExcuseIsShared | tools/check_memory_query_scoping.py:289-308 | one user clause or parameter anywhere in a kept function silences all its calls |
| Retry.WithWriteRetry | src/lmchat/db/retry.py:69-103 | the loop's result, number of calls and sleeps for every sequence of outcomes |
| Retry.LockIff | src/lmchat/db/retry.py:76-79 | a lock is an operational error whose text has the words database is locked somewhere |
| Retry.RetriedUnique | src/lmchat/db/retry.py:69-103 | that description leaves exactly one possibility |
| Retry.ReturnsIff | src/lmchat/db/retry.py:73-75 | a value is returned exactly if an allowed call succeeds with it after nothing but lock errors |
| Retry.RaisesLockIff | src/lmchat/db/retry.py:80-103 | a lock error is raised exactly if every allowed call meets one; it is the last one; the defensive error never is |
| Retry.ForeignEndsIt | src/lmchat/db/retry.py:76-79 | the first other error ends the loop at once |
| Retry.TotalDelay | src/lmchat/db/retry.py:81-90 | three times the sum of k sleeps is the next delay, base times 4^k, less base |
| Retry.SleepBound | src/lmchat/db/retry.py:81-90 | one sleep fewer than calls, and never more than the run that always meets a lock |
| Retry.DefaultWait | src/lmchat/db/retry.py:40-45 | with the defaults at most 0.05 s and 0.2 s are slept, a quarter of a second in all |
| AuthDocs.CallsInDependant | src/lmchat/app.py:1219-1228 | the explicit-stack walk ends and returns exactly the calls in the tree |
| AuthDocs.DocumentItem | src/lmchat/app.py:1255-1262 | the operations of one path item that a route serves |
| AuthDocs.DocumentRoutes | src/lmchat/app.py:1243-1262 | the route-by-route pass gives every operation what all routes together call for |
| AuthDocs.App.CustomOpenapi | src/lmchat/app.py:1233-1264 | the first call documents and caches, every later one returns the cache |
| AuthDocs.DocumentsExactly | src/lmchat/app.py:1247-1262 | 401 afterwards exactly where it was or a guard stands, 403 exactly where it was or an admin guard stands; nothing overwritten, nothing else added; a new 401 and a new 403 each say what they are for |
| AuthDocs.GuardedIff | src/lmchat/app.py:1244-1256 | an operation is guarded exactly if a route with its path and, in small letters, its method depends on a guard somewhere in its tree |
| AuthDocs.OutlineKept | src/lmchat/app.py:1236-1243 | title, version, paths and method names stay |
| AuthDocs.DocumentedTwice | src/lmchat/app.py:1259-1262 | a second pass over its own result changes nothing |
| AuthDocs.RouteOrderIsIrrelevant | src/lmchat/app.py:1244-1262 | neither the order of the routes nor repetition matters |

## Left out

- FTS5 internals: the index is a set of postings; segment structure, ranking, snippets and the behaviour of a malformed index are not modelled, only whether a command sequence is one FTS5 defines.
- Postgres: the dialect branches of the migrations, which skip the full-text tables there.
- The `compactions` table and its set-null key, sessions, attachments and every other table; primary-key updates and INSERT OR REPLACE; transactions and rollback.
- EventStream.ParserMeetsRuleIff: like the theorems about unclosed streams, is about streams without a lone CR and without a byte order mark; the standard ends a line at a lone CR and drops the mark, the parser does neither.
- FingerprintProofs.SameTextIff: stops at the text that is hashed; that the digest of different texts differs is not claimed. Spelt-out surrogate pairs are covered by `FingerprintProofs.SerialiseIff` on canonical forms.
- Fingerprint: case and white space beyond ASCII in server defaults and referential actions.
- ScopingRule.IsToken: parameters of a lambda inside a `where` call are no tokens of the model.
- The sort key of constraints is an arbitrary text in the model; the reprs that SQLAlchemy produces are not modelled.
- Cosine: floating-point rounding; the theorems are over the reals with an exact square root, so a computed similarity may leave [-1, 1] by an ulp.
- VectorFormat: rounding to single precision, overflow and NaN payloads are properties of the conversion that is passed in.
- FlakeFilter.Document.FilterXml: counter attributes that are no integers, shared element objects, and the positions of suites in the tree.
- FlakeAnswers.ConvertedIff: white space around a rationale is space, tab, line feed and carriage return only.
- GateReport: durations, timestamps, the commit, the HTML dashboard and writing files; an attribute such as `inf` that makes the integer reader raise.
- LayerCombiner.Combine: writing and indenting the file, and its messages.
- GarakBuckets.Convert: the text bodies of test cases; that JSON truthiness and `str` turn a field into the text the record holds; the suite emitted when there is no report file.
- Scoping.ScanFile: parsing, `ast.walk` (nodes are numbered in its order), cleaning of docstrings, and the path and message of a violation.
- Retry.WithWriteRetry: delays are real numbers and the callback is a sequence of outcomes; cancellation while sleeping and logging are not modelled.
- AuthDocs.App.CustomOpenapi: the generator is a parameter; that the inserted response objects are shared between operations is not modelled, as nothing updates them.
- AuthDocs: lower-casing of method names is ASCII.
- HTTP, subprocesses, Docker, command lines, XML and JSON libraries, the chat service layer, React routes and the remaining migrations: plumbing, user interface or data.
- `ensure_schema_ready`, the IDOR grid, the SBOM de-duplication, the other JUnit converters and the regex scanners: settled by reading a branch, or bound to the regex engine and the clock.
