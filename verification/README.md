# AuraDB Python client: a verified model

The project models the hard parts of the AuraDB Python client and proves what they are for:

* the in-memory reference database: transactions over deep-copied overlays, mutations of primary-key
  tables, server cursors, keyset pagination of ranked search, multi-key ordering, graph traversal,
  grouping and facets;
* the compiler from the query IR to SQL: every text it writes is lexed and parsed back as SQL, executed
  under three-valued logic, and compared with the reference database;
* the wire protocol: the frame codec, reassembly of frames from arbitrary chunks, and the correlation
  of responses with concurrently waiting requests;
* the bounded leader redirect, the schema differ, the LIMIT/OFFSET stream, and the conversion of byte
  to character offsets.

`dafny verify dfyconfig.toml` checks all of it.

## How the pieces fit

| files | contents |
|---|---|
| `Values`, `Predicates`, `Sorting`, `Ordering` | scalar values and their order, the predicate tree and its evaluation on a row, stable sorting specified apart from any algorithm, the pass-per-term sort |
| `Tables`, `Records`, `Transactions`, `ReferenceStore` | tables as values and the four mutations; the same mutations in place on row objects; traces of requests of many transactions; the server class that refines them |
| `Selects`, `SearchPaging`, `TextRanking`, `Cursors`, `Traversal`, `Grouping` | the read side of the reference database |
| `SqlText`, `SqlSearch`, `SqlLike` | the target: spelling and lexing of SQL text, parsing and evaluation of search conditions, LIKE |
| `SqlCompiler`, `SqlStatements`, `SqlMutations`, `SqlCounting`, `SqlInserts`, `SqlSpelling` | the compiler, method by method: SELECT, UPDATE and DELETE, COUNT and EXISTS, INSERT and native UPSERT; and its texts word by word |
| `SqlMeaning`, `SqlRoundTrip`, `SqlInsertParsing`, `SqlAgreement`, `SqlExecution` | the compiled text, read back, means what the IR means |
| `SqlDatabase`, `SqlAgainstEngine`, `SqlUpserts`, `SqlStreaming` | statements run on a table with a primary key, against the reference database |
| `Codec`, `Reassembly`, `Correlation`, `TcpTransport` | frames, streams, and waiting requests |
| `Redirect`, `SchemaDiff`, `Snippets` | the smaller cores |

Imperative code is modelled by classes and loops; each method is tied to a function or a step on
values, and the theorems are about those, over every input, run or interleaving.

## The SQL semantics used

Search conditions, comparisons, IN and LIKE follow sections 8.12, 8.2, 8.4 and 8.5 of ISO/IEC
9075:1992, delimited identifiers and character literals sections 5.2 and 5.3. LIKE is case-sensitive
and has no escape character unless ESCAPE gives one. NULL sorts below everything and ties keep table
order: the standard leaves both to the implementation, and this is the choice that the reference
database makes. The lexer numbers `?` and `%s` in order of appearance and reads `$n` literally.
Texts compare by code point and without padding. A table refuses, as a whole, a statement that names a
column it does not have, or whose outcome would hold a value of another type than the column's, or a
primary key that is null or twice (section 11.7); these are looked at when the statement ends.

## Findings

* `SqlAgreement.Safe` is sufficient for a compiled predicate to agree with the reference database on a
  row, and exact on single comparisons other than LIKE. The reference engine treats `None != 5` and
  `not (None == 5)` as true, SQL as UNKNOWN.
* A regular expression built from a LIKE pattern differs from SQL LIKE on strings that contain a
  newline, and only there (`SqlLike.LikesAgreeIffNoNewline`).
* An empty `operands` list, however deep, compiles to `()`; a compiled predicate or SELECT is SQL if and
  only if it holds none (`SqlRoundTrip.ParsesExactlyWhenGrounded`, `SqlExecution.SelectParsesExactly`).
  So is an INSERT if and only if its rows have a key between them (`SqlInsertParsing.InsertRoundTrip`).
* Search pages lose the rest of a tie in (score, stable key) that straddles a page boundary, and only
  then (`SearchPaging.CompleteExactlyWithoutTies`). While the table changes between fetches, an unchanged
  row can be missed if and only if it overtakes an entry that was ranked ahead of it
  (`SearchPaging.ReturnedExactlyWithoutOvertaking`), and a key can come twice if and only if its score
  drops on a row that does not end the ranking (`SearchPaging.RepeatsExactlyWhenAScoreDrops`). Scores of
  the row alone make a row overtake nothing unless it is itself rewritten, but BM25 and hybrid scores
  depend on all rows: rewriting one row can make another be missed and a third come twice
  (`TextRanking.ANeighbourDecides`). The stable key
  is the first scalar of the stored row, which after a trip over the wire is the alphabetically first
  scalar field and need not be unique.
* COMMIT replaces the whole base store: the last committer wins and whatever was committed or written
  since its BEGIN is lost. `docs/TRANSACTIONS.md` describes first-committer-wins conflict detection,
  which is a guarantee of the real server; the reference engine has none. Under transaction id 0 a
  COMMIT even undoes the transaction's own writes.
* An update that assigns the primary key leaves the row under its old key; a multi-row insert that
  fails keeps the rows before the failing one, where the database keeps none of them.
* The reference engine stores fields that are no columns, and orders and projects by them as nulls; the
  database refuses such statements, and values of another type (`SqlAgainstEngine.BackendsAgreeOnInsert`,
  `SqlAgainstEngine.BackendsAgreeOnUpdate`, `SqlExecution.SelectPreservesMeaning`).
* Following a collection keys the rows it finds by their key field, so that of rows that an update gave
  one key field only the last is found; otherwise a traversal loses nothing
  (`Traversal.ChainsAreReachedExactly`, `Traversal.RekeyedRowIsLost`).
* A SQL upsert updates every row with the key, the reference upsert only the first; the database refuses
  when that gives a primary key twice, and for a new row whose primary key is taken, where the reference
  engine overwrites (`SqlUpserts.SqlUpsert`).
* After a protocol or read error the transport still counts as connected but reads no more, so requests
  only time out and `connect` does nothing; bytes left in the buffer by one connection spoil the first
  frame of the next; and a close settles every request, whenever it comes, if and only if no id is sent
  or dropped while another request waits under it (`Correlation.SettledExactlyWhenOrderly`).
* A redirect in the middle of an operation of several requests repeats the requests applied before it:
  operations apply exactly once, whatever the cluster does, if and only if they are of at most one
  request or no redirect is allowed (`Redirect.RedirectsRepeatExactly`).
* A plan without destructive changes keeps all rows valid, but it may add a uniqueness that existing
  rows violate, since adding an index attribute is never classified as destructive;
  `SchemaDiff.SafePlansKeepTablesExactly` says for which plans it does.

## Model

| member | source | states |
|---|---|---|
| `Ordering.ApplyOrder` | src/aura/transport/memory.py:747-757 | the loop that sorts once per term, last term first, produces the sorted stable rearrangement of the rows under the single lexicographic multi-key order |
| `Ordering.OrderLeqIsOrderBy` | src/aura/backends/sql/compiler.py:240-253 | that order is the one an ORDER BY list denotes: the first term on which two rows differ decides, in its own direction |
| `Sorting.SortTwice` | src/aura/transport/memory.py:753-756 | sorting by a minor key and then stably by a major one equals one sort by the lexicographic order |
| `Sorting.StableSortUnique` | src/aura/transport/memory.py:747-757 | the specification of a stable sort has one solution, so any stable sort returns these rows in this order |
| `Predicates.TypedNeverFaults` | src/aura/transport/memory.py:934-982 | a predicate whose literals fit its columns evaluates without error on every conforming row |
| `Predicates.CompareDecides` | src/aura/transport/memory.py:934-982 | a comparison fails if and only if its parameter is unbound or it orders values of different kinds; a null on the left is ordered before nothing; equality never fails |
| `Predicates.ComparesNumbers` | src/aura/transport/memory.py:934-982 | the six comparisons of numbers |
| `Predicates.PatternDecides` | src/aura/transport/memory.py:934-982 | when a text filter fails: an unbound parameter, a number searched for a text, a text searched for something else |
| `Predicates.PatternsFind` | src/aura/transport/memory.py:934-982 | contains, startswith and endswith find the text anywhere, at the front and at the back |
| `Predicates.ConnectivesDecide` | src/aura/transport/memory.py:934-944 | and, or and not of operands that are all evaluated, a failing one failing the whole |
| `Predicates.MatchesAllDecides` | src/aura/transport/memory.py:931-932 | a filter list holds if every filter does, and fails with the first that fails if all before it hold |
| `Values.LeqIs` | src/aura/transport/memory.py:1032-1035 | null before numbers before texts, numbers by size, texts by their first different character |
| `SearchPaging.PagingUnderConcurrentWrites` | src/aura/transport/memory.py:515-566 | whatever tables the fetches meet, and for scores that may depend on the whole table: when the cursor is empty every row that never overtook an entry has been returned, a row whose own score stayed exactly once, and no stable key is returned twice unless a score drops |
| `SearchPaging.PagesNeverRepeat` | src/aura/transport/memory.py:533-547 | over any sequence of tables, scored each by its own rows, the entries returned are strictly ranked |
| `SearchPaging.PagesMissNothing` | src/aura/transport/memory.py:549-555 | a row that is ranked at every fetch and from one to the next overtakes no entry is returned by every finished run |
| `SearchPaging.OvertakingRowIsMissed` | src/aura/transport/memory.py:538-555 | for any two tables between which a row overtakes an entry that was ranked ahead of it, some finished run does not return it |
| `SearchPaging.ReturnedExactlyWithoutOvertaking` | src/aura/transport/memory.py:515-566 | a row ranked in both of two tables is returned by every finished run over them, whenever the table changes and for every page size, if and only if it overtakes no entry |
| `SearchPaging.KeysNeverRepeat` | src/aura/transport/memory.py:533-555 | over any sequence of tables in which no score drops, scores being free to rise or appear and to depend on all rows, no stable key is returned twice |
| `SearchPaging.DroppedScoreReturnsTwice` | src/aura/transport/memory.py:538-547 | for any two tables between which a score drops, on a row that does not end the first ranking, some schedule of fetches of size one returns the key twice |
| `SearchPaging.RepeatsExactlyWhenAScoreDrops` | src/aura/transport/memory.py:515-566 | between two tables no schedule of fetches and no page size repeats a key if and only if no such score drops |
| `SearchPaging.PageIsSlice` | src/aura/transport/memory.py:549-566 | a page is the slice of the ranking past the cursor, at most a page long, and carries a cursor exactly when entries remain |
| `SearchPaging.PageRefusedExactly` | src/aura/transport/memory.py:522-541 | a page is refused if and only if its size is below one or its cursor is of another search; a page reports the size of the ranking |
| `SearchPaging.RankingIs` | src/aura/transport/memory.py:568-595 | a ranking holds every scored row as often as it is stored, higher scores first and then smaller stable keys |
| `SearchPaging.StableKeyIsFirstScalar` | src/aura/transport/memory.py:1000-1004 | the stable key is the first scalar of the row |
| `SearchPaging.SearchPages` | src/aura/client.py:737-765 | the client loop over an unchanged ranking returns all of it, ranked 1 to n, in max(1, ceil(n / page size)) fetches |
| `SearchPaging.CompleteExactlyWithoutTies` | src/aura/transport/memory.py:538-547 | paging a sorted ranking returns all of it if and only if no tie straddles a page boundary |
| `SearchPaging.FollowedIsFetched` | src/aura/client.py:753-765 | the pages fetched from a static table finish and hold exactly what that condition is about |
| `SearchPaging.TiedKeysLoseARow` | src/aura/transport/memory.py:1000-1004 | two rows with one stable key and one score, page size 1: the second is never returned |
| `SearchPaging.RescoredKeyReturnsTwice` | src/aura/transport/memory.py:538-547 | the smallest such run: a row whose score drops between two fetches is returned under both scores |
| `TextRanking.Bm25Scores` | src/aura/transport/memory.py:597-640 | the loops over documents and terms compute the specified scores by stable key |
| `TextRanking.Bm25OfRow` | src/aura/transport/memory.py:597-665 | with distinct keys a row is scored by its own text against all texts, and not at all without a text |
| `TextRanking.ScoreIs` | src/aura/transport/memory.py:623-639 | a document is scored if and only if it holds a term, or every term if all are asked for |
| `TextRanking.OneTermScoreIs` | src/aura/transport/memory.py:626-637 | for one term the score is the logarithm of its rarity times the frequency part |
| `TextRanking.ScoresAddUp` | src/aura/transport/memory.py:626-637 | one more term adds its own score to that of the terms before it |
| `TextRanking.SaturationIs` | src/aura/transport/memory.py:636-637 | the frequency part times tf + k1 (1 - b + b length / average) is tf (k1 + 1) |
| `TextRanking.SaturationGrows` | src/aura/transport/memory.py:600-637 | more occurrences weigh more, but always less than k1 + 1 |
| `TextRanking.LongerTextsWeighLess` | src/aura/transport/memory.py:600-637 | longer texts weigh less |
| `TextRanking.RarityIs` | src/aura/transport/memory.py:635 | the rarity of a term is (n + 1) / (df + 1/2), smaller for terms in more documents |
| `TextRanking.AverageIs` | src/aura/transport/memory.py:618-619 | the average length is the mean of the lengths, but at least one |
| `TextRanking.CountsAre` | src/aura/transport/memory.py:620-630 | term and document frequencies count occurrences and documents |
| `TextRanking.ScoresArePositive` | src/aura/transport/memory.py:597-640 | a score is positive, however frequent the terms |
| `TextRanking.ANeighbourDecides` | src/aura/transport/memory.py:597-640 | rewriting one row between two fetches of a text search makes another, unchanged row be missed and a third, unchanged one be returned twice, for every weighting and every increasing logarithm |
| `Tables.MutationKeeps` | src/aura/transport/memory.py:833-910 | every mutation, failing or not, keeps keys distinct, and keeps each row under its own primary key unless it writes that key into existing rows |
| `Tables.UpdateKeepsKeysExactly` | src/aura/transport/memory.py:875-883 | an update that assigns the primary key keeps every row under its own key if and only if each row it changes had that key already |
| `Tables.UpdateDoesNotRekey` | src/aura/transport/memory.py:879-882 | a row given a new primary key stays under the old one |
| `Tables.DeleteRemovesTheMatching` | src/aura/transport/memory.py:885-890 | a delete that succeeds removes exactly the rows that satisfy the filters |
| `Tables.FiltersDecide` | src/aura/transport/memory.py:875-890 | an update or delete fails if and only if the filters fail on some row, with the first error; otherwise it reports the number of matching rows and returns none |
| `Tables.UpdateWrites` | src/aura/transport/memory.py:875-883 | every row keeps its place and key; the matching rows before the first error get the assigned values and keep their other fields |
| `Tables.InsertLeaves` | src/aura/transport/memory.py:850-873 | under each key a successful insert leaves the last row given, when conflicts replace, and otherwise the stored or else the first row given; it reports as many rows as it stored |
| `Tables.InsertReturns` | src/aura/transport/memory.py:850-873 | the rows returned are those stored, in order and without their collections |
| `Tables.UpsertDecides` | src/aura/transport/memory.py:892-910 | an upsert writes over the first agreeing row or stores the merged row under its primary key, and returns that row; without a primary key it fails and changes nothing |
| `Tables.FailedInsertKeepsEarlierRows` | src/aura/transport/memory.py:850-873 | a failing multi-row insert stops at the first refused row and leaves what inserting the rows before it leaves |
| `Records.InsertRecords` | src/aura/transport/memory.py:850-873 | the insert loop over row objects leaves the specified table and result, creating fresh objects only |
| `Records.UpdateRecords` | src/aura/transport/memory.py:875-883 | the in-place update loop changes the matching rows before the first filter error, no other, and counts them |
| `Records.DeleteRecords` | src/aura/transport/memory.py:885-890 | collecting keys and then deleting leaves the specified table; a filter error deletes nothing |
| `Records.UpsertRecord` | src/aura/transport/memory.py:892-910 | the upsert updates the first agreeing row in place or stores the merged row |
| `Transactions.SnapshotWithOwnWrites` | src/aura/transport/memory.py:125-184 | over every interleaving, an open transaction sees the base store of its BEGIN with its own operations replayed in order |
| `Transactions.CommitInstallsTheView` | src/aura/transport/memory.py:131-137 | COMMIT makes the base exactly that view and touches no other overlay |
| `Transactions.OpenTransactionsAreInvisible` | src/aura/transport/memory.py:177-184 | up to its own overlay, a server that ran an open transaction equals one that never received its requests, so every other transaction reads the same |
| `Transactions.RollbackLeavesNoTrace` | src/aura/transport/memory.py:139-143 | a rolled-back transaction leaves the server as if it had never been, whatever ran in between |
| `Transactions.UndisturbedCommitIsSerial` | src/aura/transport/memory.py:125-137 | a transaction whose life no commit and no direct write falls into commits serializably |
| `Transactions.LastCommitterWins` | src/aura/transport/memory.py:131-137 | when two transactions overlap, nothing of the first committer is left after the second commits |
| `Transactions.CommitZeroRestoresTheSnapshot` | src/aura/transport/memory.py:177-180 | under id 0 a COMMIT undoes every change since its BEGIN, its own included |
| `Transactions.RunsKeepKeys` | src/aura/transport/memory.py:101-166 | over every run every table of every store stays keyed, and consistently so while no request writes a primary key into existing rows |
| `ReferenceStore.Store.Copy` | src/aura/transport/memory.py:126 | the deep copy at BEGIN has the same contents and only new row objects |
| `ReferenceStore.Store.Perform` | src/aura/transport/memory.py:833-848 | an operation in place on a store refines the operation on values, and the store keeps its row objects to itself |
| `ReferenceStore.ReferenceServer.Dispatch` | src/aura/transport/memory.py:101-166 | one request on the heap is one step of the trace model, and afterwards no two stores share a row object |
| `ReferenceStore.ReferenceServer.Begin` | src/aura/transport/memory.py:125-129 | BEGIN on the heap refines the step that stores a snapshot, keeping the stores apart |
| `ReferenceStore.ReferenceServer.Commit` | src/aura/transport/memory.py:131-137 | COMMIT on the heap refines the step that swaps the overlay in |
| `ReferenceStore.ReferenceServer.Rollback` | src/aura/transport/memory.py:139-143 | ROLLBACK on the heap refines the step that drops the overlay |
| `Selects.ExecuteSelect` | src/aura/transport/memory.py:201-232 | the select loop computes the specified rows or error |
| `Selects.SelectReturns` | src/aura/transport/memory.py:201-232 | the answer of a select: of the matching rows, each as often as it is stored and in the stable order asked for, those from the offset up to the limit; of each exactly the named fields and the primary key that it has, with their values, or all fields |
| `Selects.SelectFailsExactly` | src/aura/transport/memory.py:201-204 | a select fails if and only if its filters fail on some stored row |
| `Selects.KeepMatching` | src/aura/transport/memory.py:204 | the filter keeps exactly the matching rows in order, or fails with the first failing row |
| `Cursors.CursorsConserveRows` | src/aura/transport/memory.py:240-279 | over every interleaving of requests, openings, fetches and closings, the rows a cursor has returned followed by those it holds are those it held at first |
| `Cursors.PagesAreTheOneShotResult` | src/aura/transport/memory.py:225-279 | whatever mutations, commits and other cursors come between, first page, later pages and remainder together are the result of the select on what its transaction saw when the cursor was opened |
| `Cursors.TablesIgnoreCursors` | src/aura/transport/memory.py:240-279 | opening, fetching and closing cursors leave tables and transactions to the requests alone |
| `Cursors.PagesAreFull` | src/aura/transport/memory.py:263-279 | a page is never empty, never exceeds the batch, is full unless it is the last, and is the last exactly when its cursor is gone |
| `Cursors.FirstPageIs` | src/aura/transport/memory.py:240-261 | the first page holds the rows up to the size asked for, 1000 by default; there is a cursor if and only if rows are left, and it holds exactly these |
| `Cursors.NextPageIs` | src/aura/transport/memory.py:263-279 | a later page holds the next rows up to the size asked for or else that of the first page |
| `Cursors.CloseIs` | src/aura/transport/memory.py:155-159 | a close drops its cursor alone and says whether there was one |
| `Cursors.TokensAreNeverReused` | src/aura/transport/memory.py:250-256 | a token whose cursor is gone is never issued again and never answers again |
| `Cursors.Stream` | src/aura/backends/auradb.py:318-369 | a streaming client gets the first rows wanted of the select at opening time, any mutations, commits and foreign cursors being served between its fetches, and leaves no cursor behind, drained or stopped early; a failing select opens none |
| `Cursors.CursorServer.FetchCursor` | src/aura/transport/memory.py:263-279 | a fetch on the heap refines the cursor step: page, remainder, removal when drained |
| `Cursors.CursorServer.OpenCursor` | src/aura/transport/memory.py:201-261 | opening runs the select on the store its transaction sees and keeps the remainder in new row objects |
| `Cursors.CursorServer.Serve` | src/aura/transport/memory.py:101-166 | a request changes tables in place and no row that a cursor holds |
| `Cursors.CursorServer.CloseCursor` | src/aura/transport/memory.py:155-159 | closing refines the step that drops the cursor |
| `Traversal.Traverse` | src/aura/transport/memory.py:314-370 | before its limit a traversal returns, once each and in the determined order, exactly the rows to which the steps lead from a start row, of those a collection step leads to with one key field the last, and that pass the final filters; it fails if and only if a filter fails on a row it is put to, the steps are too many, or a relationship is unknown, looked at in this order |
| `Traversal.Filter` | src/aura/transport/memory.py:318-322 | filtering fails if and only if the filters fail on some row of the table, with the first error, and keeps exactly the matching rows in their order |
| `Traversal.ReachedIsAChain` | src/aura/transport/memory.py:328-361 | every row reached ends a chain of stored rows, each related to the next by the step between them, from a row satisfying the start filters |
| `Traversal.ChainIsReached` | src/aura/transport/memory.py:328-361 | conversely, where no primary key was updated, the end of every such chain is reached |
| `Traversal.ChainsAreReachedExactly` | src/aura/transport/memory.py:328-361 | the end of every chain along every first part of the steps is reached if and only if no collection step leads to two rows with one key field |
| `Traversal.RekeyedRowIsLost` | src/aura/transport/memory.py:342-359 | two orders of one customer that an update gave one key field: the first is not found |
| `Traversal.FollowLink` | src/aura/transport/memory.py:336-341 | following a link collects exactly the target rows some current row links to, once each, in the order of the first row that links to each |
| `Traversal.FollowBack` | src/aura/transport/memory.py:342-359 | following a collection collects, of the target rows that link back to some current row, the last for each key field, once each, in the place of the first with that key field |
| `Traversal.ListIsDetermined` | src/aura/transport/memory.py:314-370 | the rows reached come in one determined order, so a limit keeps determined rows |
| `Traversal.FirstCounts` | src/aura/transport/memory.py:328-352 | of several relationships with one name, or links back, the first counts |
| `Grouping.ComputeGroups` | src/aura/transport/memory.py:476-513 | the groups are the first of all group keys in count-descending, key-ascending order, each with the count of exactly its rows and, for each metric asked for, the least or greatest integer some row of it holds, their mean, or nothing if no row holds one |
| `Grouping.MetricIsHeld` | src/aura/transport/memory.py:444-474 | min and max are integers that a row holds and none goes below or above; avg times the number of integers is their sum; none of them has a value if and only if no row holds an integer; count is the number of rows |
| `Grouping.GroupsComeInOrder` | src/aura/transport/memory.py:496-508 | larger counts come first, then smaller keys, and 50 groups unless a limit is given |
| `Grouping.ComputeFacet` | src/aura/transport/memory.py:400-416 | a facet lists the first of the same keys with their counts |
| `Grouping.FacetsComeInOrder` | src/aura/transport/memory.py:400-416 | larger counts come first, then smaller values, and 10 values unless a limit is given |
| `Grouping.GroupsConserveRows` | src/aura/transport/memory.py:491-499 | the counts of all groups add up to the rows that have a value to group by |
| `Grouping.GroupKeysAreDetermined` | src/aura/transport/memory.py:498 | the ordered list of group keys does not depend on the order of the rows |
| `Grouping.MetricsIgnoreOrder` | src/aura/transport/memory.py:444-474 | count, min, max and avg depend on the rows as a multiset |
| `Grouping.FacetsAgreeWithGroups` | src/aura/transport/memory.py:400-513 | two orders of the same rows have the same group keys, and the same count and metrics for each |
| `Grouping.FacetsAreGroups` | src/aura/transport/memory.py:400-416 | a facet and a grouping by one field with one positive limit, over rows in any two orders, list the same values with the same counts |
| `SqlText.LexPhrase` | src/aura/backends/sql/dialects.py:49-54 | lexing a compiled text recovers its tokens: every quoted identifier exactly, the i-th placeholder as the i-th bound value, in every dialect |
| `SqlCompiler.ParameterCollector.Add` | src/aura/backends/sql/parameters.py:44-51 | binds one more value and answers with its placeholder, numbered by position |
| `SqlCompiler.Predicate` | src/aura/backends/sql/compiler.py:182-192 | compiles a predicate to the text of its phrase and collects exactly its values, in order, or reports the first error |
| `SqlCompiler.Comparison` | src/aura/backends/sql/compiler.py:194-221 | the same for each comparison, null tests and error cases included |
| `SqlCompiler.InClause` | src/aura/backends/sql/compiler.py:223-231 | the same for membership, the empty list becoming a constant truth |
| `SqlSpelling.DialectsSpell` | src/aura/backends/sql/dialects.py:49-54 | quotes and placeholders of each dialect |
| `SqlSpelling.QuotesDouble` | src/aura/backends/sql/dialects.py:49-54 | a quote inside a name is doubled, any other character stays |
| `SqlSpelling.ComparisonText` | src/aura/backends/sql/compiler.py:194-205 | the text of each comparison, null tests for equality with null |
| `SqlSpelling.NullTestText` | src/aura/backends/sql/compiler.py:216-220 | IS NULL and IS NOT NULL |
| `SqlSpelling.PatternText` | src/aura/backends/sql/compiler.py:209-234 | LIKE with a placeholder, and with ESCAPE but for plain LIKE |
| `SqlSpelling.MembershipText` | src/aura/backends/sql/compiler.py:223-231 | IN and NOT IN with a placeholder for each value |
| `SqlSpelling.EmptyListText` | src/aura/backends/sql/compiler.py:226-228 | membership in an empty list is a constant truth |
| `SqlSpelling.ConnectiveText` | src/aura/backends/sql/compiler.py:182-187 | operands in parentheses between AND or OR |
| `SqlSpelling.NegationText` | src/aura/backends/sql/compiler.py:188-189 | NOT in parentheses |
| `SqlSpelling.JoinedText` | src/aura/backends/sql/compiler.py:185-186 | each operand is numbered after the values of those before it |
| `SqlSpelling.LeavesFail` | src/aura/backends/sql/compiler.py:272-300 | what a comparison cannot compile: a path, a NUL in the name, and then an unbound parameter |
| `SqlSpelling.TreesFail` | src/aura/backends/sql/compiler.py:182-192 | of several predicates the first that fails decides |
| `SqlSpelling.SelectText` | src/aura/backends/sql/compiler.py:69-81 | the text of a SELECT, clause by clause, empty clauses left out |
| `SqlSpelling.CountText` | src/aura/backends/sql/compiler.py:83-88 | the text of a COUNT |
| `SqlSpelling.ExistsTextIs` | src/aura/backends/sql/compiler.py:90-97 | the text of an EXISTS |
| `SqlSpelling.UpdateText` | src/aura/backends/sql/compiler.py:120-131 | the text of an UPDATE |
| `SqlSpelling.DeleteText` | src/aura/backends/sql/compiler.py:133-138 | the text of a DELETE |
| `SqlSpelling.InsertText` | src/aura/backends/sql/compiler.py:100-118 | the text of an INSERT in each dialect and conflict mode |
| `SqlSpelling.UpsertText` | src/aura/backends/sql/compiler.py:140-174 | the text of a native UPSERT in each dialect |
| `SqlSpelling.StatementsFail` | src/aura/backends/sql/compiler.py:69-131 | which SELECT and UPDATE statements are not written, and with which error |
| `SqlSpelling.InsertsFail` | src/aura/backends/sql/compiler.py:100-118 | which INSERT statements are not written, and with which error |
| `SqlMeaning.PredAligned` | src/aura/backends/sql/compiler.py:182-231 | every predicate's text is well spaced and its i-th placeholder binds the i-th collected value |
| `SqlRoundTrip.PredParses` | src/aura/backends/sql/compiler.py:182-231 | parsed with SQL precedence, a predicate's text gives back the condition it stands for and consumes nothing else |
| `SqlRoundTrip.JoinedParses` | src/aura/backends/sql/compiler.py:176-187 | so do predicates joined by AND or OR |
| `SqlRoundTrip.ParsesExactlyWhenGrounded` | src/aura/backends/sql/compiler.py:182-192 | a compiled predicate is a search condition if and only if it holds no empty operand list at any depth |
| `SqlLike.EscapingIsExact` | src/aura/backends/sql/compiler.py:209-238 | for all strings the escaped pattern is well-formed and matches under ESCAPE exactly the strings that contain, start or end with the value |
| `SqlLike.EscapeLikeIsEscapeEach` | src/aura/backends/sql/compiler.py:236-238 | the three sequential replaces are one escape per character |
| `SqlLike.RegexIsLike` | src/aura/transport/memory.py:1023-1029 | on strings without newline the engine's regular expression accepts exactly what SQL LIKE accepts |
| `SqlLike.LikeMeans` | src/aura/backends/sql/compiler.py:216-217 | the SQL pattern: `%` any string, `_` any character, anything else itself |
| `SqlLike.RegexMeans` | src/aura/transport/memory.py:1023-1029 | the engine's pattern: `%` a string without newline, `_` a character other than newline, anything else itself, a final newline allowed |
| `SqlLike.LikesAgreeIffNoNewline` | src/aura/transport/memory.py:1023-1029 | the two LIKEs agree on a string for all patterns if and only if it has no newline |
| `SqlLike.LikesDisagree` | src/aura/transport/memory.py:1023-1029 | for every string with a newline there is a pattern on which they differ |
| `SqlAgreement.LeafAgrees` | src/aura/backends/sql/compiler.py:194-231 | a comparison agrees with the engine on a row, read positively or negatively, if it is safe there, and for all but LIKE only if |
| `SqlAgreement.PredAgrees` | src/aura/transport/memory.py:934-982 | a compiled predicate agrees with the engine on every row on which it is safe |
| `SqlAgreement.AgreesWithoutNulls` | src/aura/transport/memory.py:931-982 | on rows whose read columns are not null, and hold no newline where LIKE reads them, the condition is never UNKNOWN and is the engine's verdict, for every predicate |
| `SqlAgreement.WherePreservesMeaning` | src/aura/backends/sql/compiler.py:176-180 | lexed, parsed and evaluated, a WHERE clause is TRUE exactly when all filters match |
| `SqlAgreement.NegationFreeWhere` | src/aura/backends/sql/compiler.py:176-180 | without `not`, `!=` and `not in` this holds on every row without a newline where LIKE reads, nulls included |
| `SqlAgreement.NegatedEqualityDiffersOnNull` | src/aura/transport/memory.py:939-955 | `not (c == 1)` on a null column: the engine matches, SQL says UNKNOWN |
| `SqlAgreement.EmptyOperandsDoNotParse` | src/aura/backends/sql/compiler.py:184-187 | an and/or without operands compiles to `()`, which does not parse whatever follows |
| `SqlStatements.CompileSelect` | src/aura/backends/sql/compiler.py:69-81 | compiles a query to the text of its phrase with the filters' values, or reports the first error in the order the clauses are compiled |
| `SqlStatements.Where` | src/aura/backends/sql/compiler.py:176-180 | the WHERE clause, numbered after the values bound before it |
| `SqlStatements.OrderBy` | src/aura/backends/sql/compiler.py:240-253 | the ORDER BY clause, or the first field that cannot be quoted |
| `SqlStatements.QuoteNames` | src/aura/backends/sql/compiler.py:359-371 | the projected columns, quoted and joined, or the first that cannot be |
| `SqlExecution.SelectRoundTrip` | src/aura/backends/sql/compiler.py:69-81 | lexing and parsing the compiled SELECT recovers columns, table, condition, order and window |
| `SqlExecution.SelectParsesExactly` | src/aura/backends/sql/compiler.py:69-81 | a compiled SELECT reads back at all if and only if none of its filters holds an empty operand list |
| `SqlExecution.SelectPreservesMeaning` | src/aura/backends/sql/compiler.py:69-81 | the compiled SELECT, read back and run, returns exactly the rows, in exactly the order, that the reference engine returns, or is refused if and only if a projected or ordering field is no column |
| `SqlExecution.ExecuteReturns` | src/aura/backends/sql/compiler.py:69-81 | the answer of a query read back: the rows for which the condition is TRUE, in the stable order of its list, the window of them, of each exactly the listed columns or all |
| `SqlExecution.KnownExactly` | src/aura/backends/sql/compiler.py:69-81 | the query read back names only columns of the table if and only if the fields of projection, order and filters are columns, those of empty memberships aside |
| `SqlMutations.CompileUpdate` | src/aura/backends/sql/compiler.py:120-131 | drops collection fields, then compiles UPDATE with the assigned values before the filters' values, or reports the first error, the empty assignment included |
| `SqlMutations.CompileDelete` | src/aura/backends/sql/compiler.py:133-138 | compiles DELETE to its phrase, or reports the error |
| `SqlMutations.UpdateRoundTrip` | src/aura/backends/sql/compiler.py:120-131 | reading the compiled UPDATE recovers table, condition, and for each column the index of its own value |
| `SqlMutations.DeleteRoundTrip` | src/aura/backends/sql/compiler.py:133-138 | reading the compiled DELETE recovers table and condition |
| `SqlMutations.ValuesNeverReachTheText` | src/aura/backends/sql/compiler.py:182-231 | SELECT, UPDATE and DELETE statements that differ only in literal values, of one nullness and list length, compile to identical text |
| `SqlMutations.ShapeDecidesText` | src/aura/backends/sql/compiler.py:182-231 | the same for each predicate, wherever its numbering starts |
| `SqlCounting.CompileCount` | src/aura/backends/sql/compiler.py:83-88 | compiles COUNT to its phrase with the filters' values, or reports the first error |
| `SqlCounting.CompileExists` | src/aura/backends/sql/compiler.py:90-97 | compiles EXISTS to its phrase with the filters' values, or reports the first error |
| `SqlCounting.CountRoundTrip` | src/aura/backends/sql/compiler.py:83-88 | reading the compiled COUNT recovers table and condition |
| `SqlCounting.ExistsRoundTrip` | src/aura/backends/sql/compiler.py:90-97 | reading the compiled EXISTS recovers table and condition of the inner SELECT |
| `SqlCounting.CountPreservesMeaning` | src/aura/backends/sql/compiler.py:83-88 | the compiled COUNT, read back and run, answers with the number of rows the reference engine counts |
| `SqlCounting.ExistsPreservesMeaning` | src/aura/backends/sql/compiler.py:90-97 | the compiled EXISTS, read back and run, is true if and only if the reference engine finds a row |
| `SqlCounting.ProbesShowNoValue` | src/aura/backends/sql/compiler.py:83-97 | COUNT and EXISTS statements of one shape compile to identical text |
| `SqlInserts.ColumnsOf` | src/aura/backends/sql/compiler.py:315-330 | the loops with their set of names seen compute the specified column list |
| `SqlInserts.ColumnsHoldEveryKeyOnce` | src/aura/backends/sql/compiler.py:315-330 | the columns are the keys of all rows, once each, the declared ones first and in schema order |
| `SqlInserts.MatrixAt` | src/aura/backends/sql/compiler.py:107-109 | the value bound at row times width plus column is the row's value for that column, or null where the row has none |
| `SqlInserts.CompileInsert` | src/aura/backends/sql/compiler.py:100-118 | compiles INSERT in each dialect and conflict mode to its phrase with the matrix of values, or reports the first error |
| `SqlInserts.CompileUpsert` | src/aura/backends/sql/compiler.py:140-174 | compiles native UPSERT to its phrase with the merged values before the updated ones, or reports the first error |
| `SqlInsertParsing.InsertRoundTrip` | src/aura/backends/sql/compiler.py:100-118 | reading the compiled INSERT recovers verb, table, columns, rows of placeholders, conflict action and RETURNING, and fails if and only if there is no column |
| `SqlInsertParsing.InsertBindsEveryCell` | src/aura/backends/sql/compiler.py:107-109 | the placeholder read at row r and column c binds the value of that column in that row, or null |
| `SqlInsertParsing.InsertTextIsItsShape` | src/aura/backends/sql/compiler.py:100-118 | two INSERT texts are equal if and only if their columns and numbers of rows are |
| `SqlInsertParsing.SameKeysSameText` | src/aura/backends/sql/compiler.py:100-118 | rows of equal key sets compile to identical text if every key is declared, and so do rows of equal key lists |
| `SqlInsertParsing.UpsertRoundTrip` | src/aura/backends/sql/compiler.py:140-174 | reading the compiled UPSERT recovers columns, conflict target and updates, and fails if and only if there is no column or ON CONFLICT no target |
| `SqlInsertParsing.UpsertBindsEveryValue` | src/aura/backends/sql/compiler.py:149-165 | each column binds its merged value, and each updated column binds its new value a second time |
| `SqlInsertParsing.UpsertTextIsItsShape` | src/aura/backends/sql/compiler.py:140-174 | upserts of equal key and value names compile to identical text |
| `SqlDatabase.InsertAddsTheRows` | src/aura/backends/sql/compiler.py:100-118 | an INSERT of the compiled placeholders, run with the compiled values, adds the rows of the IR, absent columns null, and loses no field if its columns are the table's |
| `SqlAgainstEngine.BackendsAgreeOnUpdate` | src/aura/backends/sql/compiler.py:120-131 | the compiled UPDATE, read back and run on a table, leaves the rows that the reference engine's update leaves, or is refused if and only if it assigns a column the table does not have, gives a row a value of another type, or gives a matching row a null key or one that another row has |
| `SqlAgainstEngine.KeyedAfterUpdate` | src/aura/transport/memory.py:875-883 | the rows after an update have distinct keys if and only if it assigns no key, matches nothing, or gives one row a key that no other row has |
| `SqlAgainstEngine.TypedAfterUpdate` | src/aura/transport/memory.py:875-883 | the rows after an update hold only values of their columns' types if and only if the assigned values are or no row matches |
| `SqlAgainstEngine.BackendsAgreeOnInsert` | src/aura/transport/memory.py:850-873 | the compiled INSERT, read back and run, succeeds if and only if the reference engine's insert does and every field is a column with a value of its type, and then leaves the same rows |
| `SqlAgainstEngine.BackendsAgreeOnDelete` | src/aura/backends/sql/compiler.py:133-138 | the compiled DELETE, read back and run, leaves the rows that the reference engine's delete leaves |
| `SqlUpserts.SqlUpsert` | src/aura/backends/sql/_backend.py:134-171 | the upsert, run through the compiled EXISTS, UPDATE and INSERT texts: for an existing key it is refused if and only if the values give a primary key twice or none, and else leaves the reference upsert's rows if and only if no further row with the key changes; for a new key it is refused if and only if the row has no primary key or a taken one, and else leaves the same rows |
| `SqlUpserts.KeyFiltersFindTheKey` | src/aura/backends/sql/_backend.py:173-180 | the key filters hold of exactly the rows the reference upsert looks for, null key values included |
| `SqlUpserts.ProbeFindsTheKey` | src/aura/backends/sql/_backend.py:148-149 | some row matches the key filters if and only if the reference upsert finds one |
| `SqlUpserts.Exists` | src/aura/backends/sql/_backend.py:148-149 | the compiled EXISTS, read back and run, finds a row if and only if the reference upsert does |
| `SqlUpserts.UpdateByKey` | src/aura/backends/sql/_backend.py:151-159 | the compiled UPDATE, read back and run, updates every row with the key, or is refused by the primary key |
| `SqlUpserts.InsertMerged` | src/aura/backends/sql/_backend.py:164-165 | the compiled INSERT, read back and run, appends the merged row, or is refused by the primary key |
| `SqlUpserts.ClashIsRefusal` | src/aura/backends/sql/_backend.py:151-159 | the primary key refuses the update if and only if the values assign it null or a key that another row has or is given too |
| `SqlUpserts.UpdatedLikeTheEngine` | src/aura/transport/memory.py:892-904 | updating all rows with the key is updating the first if and only if no further one changes |
| `SqlUpserts.UpsertsOfAnExistingRow` | src/aura/transport/memory.py:892-904 | for a key some row has, both upserts leave the same rows if and only if the values change no row with the key after the first |
| `SqlUpserts.UpsertsOfANewRow` | src/aura/transport/memory.py:905-910 | for a key no row has, the reference engine appends the merged row if its primary key is free, replaces the row that holds it otherwise, and fails without one |
| `SqlStreaming.StreamQuery` | src/aura/backends/sql/_backend.py:186-211 | walking windows yields exactly the rows of the one SQL query with the caller's limit and offset, for any filters that are SQL, no window exceeding the batch, and terminates; it fails if and only if a window is due and the query does not compile, is not SQL, or names a column the table does not have |
| `SqlStreaming.FetchWindow` | src/aura/backends/sql/_backend.py:201-202 | one window: compiled, read back and run, it is that slice of the whole result, or fails as the compiler, the parser or the table does |
| `SqlStreaming.ExecutedIsWindow` | src/aura/backends/sql/compiler.py:255-270 | executing the compiled query is windowing its result without limit and offset |
| `SqlStreaming.StreamedIsReference` | src/aura/backends/sql/_backend.py:186-211 | for filters safe on every row the stream is the reference answer to the query |
| `SqlStreaming.FullWindow` | src/aura/backends/sql/_backend.py:205-211 | after a full window the rest of the result is the query with limit and offset moved on by it |
| `Codec.DecodeAfterEncode` | src/aura/protocol/codec.py:27-144 | decoding an encoded frame, whatever follows it, gives the frame back up to the two flags the codec owns and consumes exactly what was encoded, or refuses a version the encoder did not check |
| `Codec.WholeExactly` | src/aura/protocol/codec.py:65-144 | a frame is delivered if and only if magic, version, header checksum, opcode, length and marker are good, all its bytes are there, its body passes the checksum that bit 1 of the flags announces, and it decompresses if marked; and which frame, byte by byte |
| `Codec.MalformedExactly` | src/aura/protocol/codec.py:85-131 | data is refused with an error if and only if that check fails and all before it pass |
| `Codec.IncompleteExactly` | src/aura/protocol/codec.py:74-118 | there is no decision if and only if the header is short, or good and announces more bytes than there are |
| `Codec.EncodedBytes` | src/aura/protocol/codec.py:47-71 | what is sent, byte by byte: header fields, header checksum, body and trailer |
| `Codec.EncodeFailsExactly` | src/aura/protocol/codec.py:48-68 | a frame is not encoded if and only if its body exceeds the limit or a field its width |
| `Codec.PrefixIsIncomplete` | src/aura/protocol/codec.py:85-121 | every strict prefix of an encoded frame is incomplete, never an error |
| `Codec.DecisionsAreFinal` | src/aura/protocol/codec.py:74-144 | a frame or an error decided on a prefix is not changed by later bytes |
| `Codec.UnpackPack` | src/aura/protocol/codec.py:22-23 | big-endian fields survive packing and unpacking within their width |
| `Reassembly.ChunkIndependence` | src/aura/transport/tcp.py:135-165 | for every byte stream, valid or not, the frames delivered, the error and the rest of the buffer do not depend on how it was cut into chunks |
| `Reassembly.FramesSurviveTheStream` | src/aura/transport/tcp.py:154-165 | however encoded frames are cut, exactly they come out, in order, and the buffer ends empty |
| `Reassembly.DrainMore` | src/aura/transport/tcp.py:154-165 | draining in two goes is draining once, unless an error came first |
| `Reassembly.DrainStops` | src/aura/transport/tcp.py:154-165 | draining stops where what is left is refused, with that error, or holds no whole frame |
| `Reassembly.DrainStarts` | src/aura/transport/tcp.py:154-165 | the first frame drained is the first that decodes, the others those of the bytes behind it |
| `Reassembly.StaleByteBreaksTheStream` | src/aura/transport/tcp.py:58-85 | a byte left over in front of a frame makes it unreadable |
| `Correlation.RunsCorrelate` | src/aura/transport/tcp.py:87-165 | over every interleaving a request that completes gets a frame with its own id, and no request is settled twice; nothing is assumed of ids or bytes |
| `Correlation.StepSettles` | src/aura/transport/tcp.py:87-165 | every event settles exactly the futures it should, each with its outcome: answers complete the first registered, a protocol error, a read error, the end of the stream and a close fail the registered, an expiry times out its own |
| `Correlation.ErrorFailsTheWaiting` | src/aura/transport/tcp.py:149-150 | a protocol error fails every waiting request that the bytes before it do not answer, with that error; nothing stays registered, nobody reads on, and the transport counts as connected |
| `Correlation.StepConnection` | src/aura/transport/tcp.py:58-152 | who is registered after each event, whether the transport is connected, whether anybody reads, and what is left in the buffer |
| `Correlation.DeliverAllSettles` | src/aura/transport/tcp.py:154-165 | delivering frames completes exactly the registered requests they answer, with their first answers |
| `Correlation.ClosingSettlesEveryone` | src/aura/transport/tcp.py:87-106 | over every orderly interleaving whoever waits is still registered, and once the transport is disconnected every request is settled |
| `Correlation.OrderlyExactly` | src/aura/transport/tcp.py:108-133 | a step leaves every waiting request registered if and only if it is orderly: it sends no id that is waiting and forgets no id that another request took over |
| `Correlation.ClosingSettlesExactly` | src/aura/transport/tcp.py:87-106 | a close settles every request if and only if every waiting one is registered |
| `Correlation.SettledExactlyWhenOrderly` | src/aura/transport/tcp.py:87-133 | a run is orderly throughout if and only if a close at any moment of it would settle every request |
| `Correlation.UniqueIdsAreOrderly` | src/aura/transport/tcp.py:108-133 | distinct request ids make every interleaving orderly |
| `Correlation.AnswerCompletes` | src/aura/transport/tcp.py:154-165 | a waiting request completes with the first frame carrying its id |
| `Correlation.ResponsesReachTheirRequests` | src/aura/transport/tcp.py:135-165 | encoded responses, cut into any chunks, complete the waiting requests they answer and leave the buffer empty |
| `Correlation.ReusedIdIsForgotten` | src/aura/transport/tcp.py:108-112 | the smallest such run: of two requests under one id the first is not settled even by a close |
| `Correlation.StrandedAfterAnError` | src/aura/transport/tcp.py:58-60 | after a protocol or read error no request settles short of a timeout or a close, and connecting again does nothing |
| `TcpTransport.TCPTransport.DrainBuffer` | src/aura/transport/tcp.py:154-165 | the loop takes every whole frame off the buffer and hands each to the request it answers, as the step on values does |
| `TcpTransport.TCPTransport.FailPending` | src/aura/transport/tcp.py:102-106 | every registered request still waiting fails, and nothing stays registered |
| `TcpTransport.TCPTransport.Request` | src/aura/transport/tcp.py:108-125 | a request is refused when not connected; else its future is registered before encoding, and stays when encoding fails |
| `TcpTransport.TCPTransport.Read` | src/aura/transport/tcp.py:135-152 | one turn of the read loop refines the chunk or end-of-stream step |
| `TcpTransport.TCPTransport.Close` | src/aura/transport/tcp.py:87-100 | closing refines the close step |
| `TcpTransport.RequestIds.Next` | src/aura/backends/auradb.py:459-461 | the n-th call returns n modulo 2^63, with 1 for 0 |
| `TcpTransport.IdsDistinctExactlyBelowTheWrap` | src/aura/backends/auradb.py:459-461 | the first n ids are distinct if and only if n < 2^63 |
| `TcpTransport.FreshIdsSettleEveryone` | src/aura/transport/tcp.py:87-165 | a client with ids from the counter and fewer than 2^63 requests has no unsettled request once disconnected, whatever the order of events |
| `Redirect.BoundedAttempts` | src/aura/client.py:1048-1067 | at most max_redirects + 1 attempts, all but the last answered "not leader"; the last one decides the outcome |
| `Redirect.SingleWritesApplyAtMostOnce` | src/aura/client.py:1048-1067 | a single-request write is applied exactly once if it returns, never if it ends in not-leader, a refused redirect or a failed connection, and at most once otherwise |
| `Redirect.RepeatedExactlyWhenPartlyApplied` | src/aura/client.py:1072-1084 | an operation of several requests that returns was applied at least once per request, and exactly so if and only if no earlier attempt had applied any |
| `Redirect.RedirectsRepeatExactly` | src/aura/client.py:1048-1084 | every returning run applies exactly its n requests, in every world, if and only if n is at most one or no redirect is left |
| `Redirect.ReachedByTheRun` | src/aura/client.py:1048-1067 | the configurations reached number one more than the reconnections tried, and the run ends in the last |
| `Redirect.OnlyTheAddressChanges` | src/aura/client.py:580-603 | every configuration reached, those of failed connections included, differs from the first only in host and port |
| `Redirect.SecureClientsNeverDowngrade` | src/aura/client.py:488-513 | every configuration a secure client moves to, those of failed connections included, is one an answer named without an insecure scheme |
| `Redirect.ResolveExactly` | src/aura/client.py:488-513 | a target is refused if and only if it does not read, or names a plain scheme to a client that is secure and was not told to allow it |
| `Redirect.PointedAtIs` | src/aura/client.py:596 | following an address changes host and port and nothing else |
| `Redirect.Client.RunWithRedirects` | src/aura/client.py:1048-1067 | the loop makes the attempts, reaches the configurations and ends with the outcome of the functions the theorems are about |
| `Redirect.Client.ReconnectBackendTo` | src/aura/client.py:580-603 | a refused address changes nothing; else the configuration has changed even if the connection then fails |
| `SchemaDiff.DiffSchemas` | src/aura/schema/migrations.py:435-481 | the loops and the final sort produce the plan |
| `SchemaDiff.ModelChangesOf` | src/aura/schema/migrations.py:361-432 | the changes of one model, additions, removals and alterations by name |
| `SchemaDiff.FieldChangesOf` | src/aura/schema/migrations.py:277-358 | the changes of one field in the order they are looked for |
| `SchemaDiff.PlanIsWhatIsDue` | src/aura/schema/migrations.py:277-481 | a plan holds, once each, exactly these changes: additions of what only the new schema has, drops of what only the old one has, alterations of what differs, attributes turned on and off; and each is destructive exactly as its kind and the nullability and default of an added field say |
| `SchemaDiff.EmptyPlanMeansAgreement` | src/aura/schema/migrations.py:435-481 | the plan is empty if and only if the schemas agree on all tracked attributes |
| `SchemaDiff.PlanReverses` | src/aura/schema/migrations.py:435-481 | swapping old and new reverses the plan as a multiset of kinds, models and targets |
| `SchemaDiff.SafePlansKeepRows` | src/aura/schema/migrations.py:153-158 | after a plan without destructive changes every model and every stored value survives, and every row that fitted the old fields fits the new ones |
| `SchemaDiff.SafePlansKeepTablesExactly` | src/aura/schema/migrations.py:331-358 | after such a plan every table that fitted the old fields, uniqueness included, fits the new ones if and only if no field becomes unique or a primary key, no nullable unique one becomes a primary key, and no unique field with a default or primary key is added |
| `SchemaDiff.SafePlanBreaksUniqueness` | src/aura/schema/migrations.py:331-344 | two users with one address: making the address unique is a safe plan that the table does not survive |
| `SchemaDiff.AddedUniquenessIsNeverDestructive` | src/aura/schema/migrations.py:331-344 | no plan that only turns uniqueness on is destructive |
| `SchemaDiff.PlanIsOrdered` | src/aura/schema/migrations.py:476 | the plan comes by model, kind and target and holds exactly the changes found |
| `SchemaDiff.PlanComesInOrder` | src/aura/schema/migrations.py:476 | an earlier change has the smaller model, or the earlier kind, or the smaller target |
| `SchemaDiff.KindsComeInOrder` | src/aura/schema/migrations.py:43-54 | the order of the ten kinds |
| `SchemaDiff.DictIgnoresOrder` | src/aura/schema/migrations.py:250-274 | permuting declarations with distinct names gives the same dictionary |
| `SchemaDiff.PlanIgnoresDeclarationOrder` | src/aura/schema/migrations.py:435-481 | permuting the declared models, fields and relationships of either schema gives the same plan |
| `Snippets.BestLowerApproximation` | src/aura/snippets.py:62-69 | a character offset is the converted one if and only if its characters fit before the clamped byte offset and one more would not |
| `Snippets.OffsetsAreMonotone` | src/aura/snippets.py:62-69 | larger byte offsets never give smaller character offsets, and none exceeds the text |
| `Snippets.AlignedRangesAreExact` | src/aura/snippets.py:72-84 | a range on character boundaries slices out exactly the bytes it named |
| `Snippets.PrefixDecodes` | src/aura/snippets.py:66-69 | the bytes before an offset decode to the characters lying wholly before it, a partial one dropped |
| `Snippets.DecodeEncode` | src/aura/snippets.py:75 | decoding undoes encoding for every text |
| `Snippets.EncodedOne` | src/aura/snippets.py:75 | the bytes of a character: how many, their marks and their bits |
| `Snippets.OutsideOffsets` | src/aura/snippets.py:62-69 | offsets outside the text are its ends |

## Left out

- Values other than null, integers and text: booleans, floats, bytes, and containers, with the JSON columns and document paths that hold them; a path into a scalar reads as null, as in the source.
- The dynamic type errors of comparing keys of different kinds: `Values.Leq` orders integers before text, which the paging and grouping theorems use; the source's tagged keys do the same where they are used, and raw stable keys are assumed to be of one kind.
- `SearchPaging.StableKey`: a row without any scalar falls back on the object's address in the source; here it has the null key.
- `SearchPaging.Scoring`: scores are any function of the table and the row; of the source's scores only BM25 is spelled out, with exact reals, a parameter for logarithm and tokenizer, k1 positive and b between 0 and 1. Vector and hybrid scores are not, nor that hybrid search keeps one row per stable key.
- `SqlInserts.CompileUpsert`: native UPSERT, ON CONFLICT DO NOTHING, INSERT IGNORE and REPLACE are compiled and read back, but run only as plain INSERT, since the upsert of the SQL backend does not use them.
- `SqlDatabase.Checked`: of the constraints of a table only column types and the primary key are modelled, not UNIQUE, NOT NULL and foreign keys; nor are schema DDL, what SQLite lets in (null primary keys, values of another type, and unknown delimited names read as text), or the order in which a database looks at the rows of one UPDATE.
- `SqlUpserts.SqlUpsert`: the fields must be columns, no collections among them, with values of the columns' types; the row returned by RETURNING or by the SELECT after the write is not described.
- `SqlText.Lex`: MySQL's reading of backslashes in literals, and the substitution of `%s` by its driver over the whole text, quoted names included: a name that holds a `%` shifts or breaks the placeholders there. A delimited name of length zero is read as a name, which section 5.2 does not allow; a table without such a column refuses it.
- SQLite's case-insensitive LIKE, and implementation-defined placement of nulls and ties.
- `SqlExecution.SelectPreservesMeaning`: tables longer than the LIMIT sentinel 18446744073709551615 are excluded, since outside SQLite an OFFSET alone prints that limit, and filters must be typed and safe on every row.
- `SqlStreaming.FetchWindow`: a condition that fails on a row, as a comparison of text with a number may, counts as not TRUE there; the database's error is not modelled.
- Link values given as nested objects, and the includes of a select; `Tables.Normalized` only drops collection fields.
- SCHEMA requests in the middle of a run, the raw-statement subset, and the empty tables that a traversal creates by naming models; `Transactions.Catalog` is fixed.
- `Cursors.Stream`: other clients are lists of events served between two fetches, and know no token but their own.
- Task cancellation inside `close`, writing to the socket and its errors, and durations: only the steps connect, request, chunk, end of stream, read failure, timeout in two parts, and close are modelled.
- CRC32 and zlib are functions of which only the width of the checksum and `decompress(compress(x)) == x` are assumed; error detection strength is not stated.
- `Redirect.World`: the parsing of addresses, connection attempts and the cluster's answers are parameters; that "not leader" means "not applied" is the hypothesis `Redirect.Operation`.
- `Grouping.ComputeGroups`: aggregations without a field or with an unknown operator, which raise, are not modelled.
- Rollback texts, detail texts and versions of migration plans; `SchemaDiff.SafePlansKeepTablesExactly`: a default is one value for all rows, not a factory, and nulls never count as equal.
- Automatic retries, where the source makes no at-most-once promise, hydration, metaclass models, profiles, metrics, and the MongoDB, Redis and AWP 1 codecs.
