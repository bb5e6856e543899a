# A verified model of the embedded SpiceDB datastore layer

The project models the behaviour of five parts of the repository and proves what they promise:

- **The relationship query compiler and its reference interpreter.** `sql.go` compiles a relationships
  filter, a sort order and a cursor into a WHERE tree, remembers which columns the filter pins, leaves
  those out of the SELECT list and of the cursor comparison, and puts them back when a row is scanned.
  `memdb/readonly.go` interprets the same filter and cursor row by row. The two are proved to agree.
- **The in-memory multi-version store.** Write attempts allocate a revision, open a transaction, mutate,
  abort or commit, append a changelog entry and a snapshot; readers pick a snapshot; watchers read the
  changelog. Attempts of any number of goroutines interleave freely.
- **The change tracker**, which merges mutations per revision, drains incrementally and keeps a byte budget.
- **Revision arithmetic**: the cache of quantized revisions, the garbage-collection window and the text
  form of hybrid-logical-clock revisions.
- **The debounced schema file watcher.**

Code that changes state is a class or a method with loops (`SchemaQueryFilterer`, `ScanTarget`, `Changes`,
`MemdbDatastore`, `Watcher`, `RemoteClockRevisions`, `FileWatcher`); each method is proved against a
value-level specification (`Query`, `Tracker`, `StoreState`, `Watching`, the candidate list, `State`), and the
theorems are about those specifications, over every input, every chain of calls or every run. What a specification
function means is stated a second time without it, on the fields of its inputs and results (`FilterMeaning`, the laws in
`Mutations`, `PublicMatches`, `ReadsBack`, `Asked`, `SentExactly`, `AnswerMeaning`, `ParseMeaning`).

| file | contents |
|---|---|
| `Wrappers.dfy`, `Strings.dfy`, `Decimal.dfy` | results, Go string order and prefixes, `strconv` conversions |
| `SqlClauses.dfy`, `LikePrefix.dfy`, `QueryFilterer.dfy`, `ColumnElision.dfy` | WHERE trees with three-valued truth, LIKE, the filterer, SELECT and scan |
| `MemdbFilter.dfy`, `FilterMeaning.dfy` | the interpreter, and what filters and single calls mean field by field |
| `Keyset.dfy`, `Pagination.dfy`, `SqlPaging.dfy` | cursors, reading page by page in both backends |
| `ChangeTracker.dfy`, `TrackerLaws.dfy`, `ByteBudget.dfy` | the tracker, its algebra, its byte accounting |
| `Mutations.dfy`, `MemdbStore.dfy`, `StoreRuns.dfy` | write transactions, the store, runs of it |
| `RelationshipDelete.dfy`, `WatchDelivery.dfy` | delete by filter, the changelog watcher |
| `RevisionCache.dfy`, `HlcRevision.dfy` | quantized revisions, hybrid logical clocks |
| `Debounce.dfy` | the file watcher |

## Where a promise needs a condition

Several promises do not hold for every input of the code. The code is modelled as it is, and the exact
condition is proved:

- `FilterToSubjectFilter` compares the subject relation with the requested one but records the ellipsis as
  the column's value (`sql.go:652-657`), so an optimized query reads the relation back wrongly,
  unless a later call makes the column vary (`ColumnElision.SubjectFilterExact`, `ColumnElision.ChainReadsExactly`,
  `ColumnElision.MispinExample`).
- `After` adds no condition at all once every sort column is pinned (`Keyset.KeysetExact`), and reading such a query page
  by page returns the first page for ever (`SqlPaging.CompiledPagesConcatenate`).
- Adding a changed caveat gives back the size of the *namespace* of the same name (`changes.go:272`), so the byte
  counter falls behind exactly when that namespace entry is larger than the caveat being replaced
  (`ByteBudget.CaveatAccountingExact`), and the underflow branch can be reached (`ByteBudget.SharedNameUnderflows`).
- At most one write transaction is open in any run, because go-memdb has one writer lock (`StoreRuns.OneTransaction`).
  `activeWriteTxn` names it exactly while no step loses track: a callback that succeeds without a transaction while
  another attempt's is open still clears the mark (`memdb.go:318`), and an early return because the changelog entry
  cannot be built leaves it set (`StoreRuns.ActiveNamesOpenExactly`). A run that keeps track never waits for the writer
  lock (`StoreRuns.NeverBlocks`). After a cleared mark the next attempt waits for it while it holds the store's mutex, and
  nothing moves any more (`StoreRuns.UnopenedCommitBlocks`); after a failed entry the lock is never released and no
  attempt gets a transaction again (`StoreRuns.FailedEntryIsFinal`).
- `newRevisionID` avoids only equality with the head and releases the lock before the transaction opens, so two
  attempts can get one revision, or a later commit a lower one. Revisions stay strictly increasing exactly under the
  condition of `StoreRuns.RevisionsIncreaseExactly`, which is read off where attempts open and where callbacks succeed
  without a transaction. The interleavings that break it have their exact clocks in `StoreRuns.CommitBetweenReorders` and
  `StoreRuns.ClockBehindReorders`, and `StoreRuns.EqualRevisionsLoseAnEntry` shows what is lost. Replay, repeatable reads
  and the watch are proved for every run of an open store whose commits have increasing revisions, with no other
  condition: runs that lose track, block or fail to build an entry are included.
- The first snapshot is the live database, so reads at the initial revision are not repeatable
  (`StoreRuns.RepeatableExactly`).
- In `loadChanges` the schema flag guards only the changed definitions, because `&&` binds tighter than `||`
  (`watch.go:127-130`): a watcher of relationships also receives schema deletions, and can receive one entry
  twice (`WatchDelivery.RelationshipWatchExact`). Replaying the stream is nevertheless right
  (`WatchDelivery.WatcherReachesHead`).
- Capping the staleness at the garbage-collection window (`remoteclock.go:28-34`) does not by itself keep answers
  inside the window (`RevisionCache.CapIsNotEnough`); the exact condition is `RevisionCache.AcceptedExactly`.
- `logicalClockOffset` converts the float 1e11 to `uint32`, which is out of range and platform-dependent; the
  offset is a parameter here. Round trips and order hold exactly while clock plus offset does not wrap
  (`HlcRevision.ClockRoundTrip`, `HlcRevision.OrderExactly`).
- HLC revisions declare themselves byte-sortable; that holds over a span of times exactly when its ends have
  the same number of digits (`HlcRevision.ByteSortableExactly`).

## Conventions

- Row-value comparison and LIKE are those of ISO/IEC 9075:1992, sections 8.2 and 8.5, with the backslash as the
  escape character; an empty And is true and an empty Or is false. Text compares byte-wise.
- The column names are distinct. The tracker map is shared between copies of a filterer in the source; the model
  covers one linear chain of calls.
- `SubjectRelationFilter.IsEmpty` is not part of the repository; it is taken as all three fields unset.
  `tuple.MustString` is taken to print everything but the integrity data.
- The go-memdb library is taken as ordered tables with immutable roots, and `tx.Changes()` as the net change of every
  touched key. Its writer lock is part of the store's state: `Txn(true)` takes it, or waits for it with the store's mutex
  in hand, and the transaction's `Commit` and `Abort` release it. Reads and watch rounds of a blocked store, which would
  wait as well, are given the unchanged state.
- Clocks, random draws and timer expiry are parameters or events. Integers are unbounded except where a width
  matters (`HlcRevision`, `Decimal`).

## Model

| member | source | states |
|---|---|---|
| LikePrefix.TwoPassesEscapeEachChar | internal/datastore/common/sql.go:983-989 | escaping backslash first and underscore second is the same as escaping every character once: the second pass never touches what the first wrote |
| LikePrefix.LikePrefixExact | internal/datastore/common/sql.go:978-990 | the clause is built exactly for the non-empty prefixes without a percent sign, and its pattern then matches a string under LIKE iff the string starts with the prefix |
| QueryFilterer.SchemaQueryFilterer.constructor | internal/datastore/common/sql.go:153-171 | a new filterer has no conjunct and no tracked column |
| QueryFilterer.SchemaQueryFilterer.RecordColumnValue | internal/datastore/common/sql.go:373-382 | a first value pins the column, the same value again keeps it, a different one marks it as varying for good |
| QueryFilterer.SchemaQueryFilterer.RecordVaryingColumnValue | internal/datastore/common/sql.go:384-388 | the column is marked as varying, whatever was known |
| QueryFilterer.SchemaQueryFilterer.FilterToResourceType | internal/datastore/common/sql.go:367-371 | one equality conjunct more and the column's value recorded |
| QueryFilterer.SchemaQueryFilterer.FilterToResourceID | internal/datastore/common/sql.go:390-394 | one equality conjunct more and the column's value recorded |
| QueryFilterer.SchemaQueryFilterer.FilterToRelation | internal/datastore/common/sql.go:460-464 | one equality conjunct more and the column's value recorded |
| QueryFilterer.SchemaQueryFilterer.FilterWithCaveatName | internal/datastore/common/sql.go:664-668 | one equality conjunct more and the column's value recorded |
| QueryFilterer.SchemaQueryFilterer.FilterWithNoCaveat | internal/datastore/common/sql.go:671-679 | NULL or empty caveat name, column marked as varying |
| QueryFilterer.SchemaQueryFilterer.FilterWithResourceIDPrefix | internal/datastore/common/sql.go:406-417 | accepted exactly when the LIKE clause can be built; otherwise nothing changes |
| QueryFilterer.SchemaQueryFilterer.FilterToResourceIDs | internal/datastore/common/sql.go:429-458 | accepted exactly when no ID is empty; the loop builds the IN list and records every value |
| QueryFilterer.SchemaQueryFilterer.AddSelector | internal/datastore/common/sql.go:564-635 | the conjuncts of one selector and the columns it records, or an error exactly on an empty subject ID; `MemdbFilter.SelectorAgrees` says which rows they keep |
| QueryFilterer.SchemaQueryFilterer.AddRelations | internal/datastore/common/sql.go:597-627 | one relation is compared directly, several form an Or |
| QueryFilterer.SchemaQueryFilterer.FilterWithSubjectsSelectors | internal/datastore/common/sql.go:555-641 | the selectors form one Or; with more than one selector the subject columns vary; `FilterMeaning.SelectorsMeaning` says which rows that keeps |
| QueryFilterer.SchemaQueryFilterer.FilterToSubjectFilter | internal/datastore/common/sql.go:643-662 | filters on type, ID and requested relation and records the ellipsis; `FilterMeaning.SubjectFilterMeaning` says which rows that keeps |
| QueryFilterer.SchemaQueryFilterer.FilterWithRelationshipsFilter | internal/datastore/common/sql.go:476-543 | the stages in the source's order, accepted exactly when no stage fails; `MemdbFilter.FilterCompilationAgrees` says which rows they keep and `FilterMeaning.FilterPins` what they pin |
| QueryFilterer.SchemaQueryFilterer.After | internal/datastore/common/sql.go:307-365 | accepted exactly for a sort order over key columns; the comparison covers the unpinned sort columns only and is left out when there is none |
| QueryFilterer.SchemaQueryFilterer.AfterTuple | internal/datastore/common/sql.go:316-328 | the loop builds the row-value comparison of the unpinned columns |
| QueryFilterer.SchemaQueryFilterer.AfterExpanded | internal/datastore/common/sql.go:330-361 | the nested loop builds, for every unpinned column, equality on the earlier ones and greater on it |
| ColumnElision.ChainSound | internal/datastore/common/sql.go:85-98 | after any linear chain of error-free filter calls, none of which mispins, every pinned value is implied by WHERE |
| ColumnElision.RelationshipsSound | internal/datastore/common/sql.go:476-543 | every value the relationships filter pins is implied by the conjuncts it adds |
| ColumnElision.SelectorsSound | internal/datastore/common/sql.go:555-641 | every value the subject selectors pin is implied by their disjunction |
| ColumnElision.ScanTarget.StaticValueOrAddColumn | internal/datastore/common/sql.go:912-930 | either the pinned value is stored or a scan slot is added, in step with the SELECT list |
| ColumnElision.ScanTarget.ColumnsToSelect | internal/datastore/common/sql.go:932-975 | slot i receives what SELECT expression i produces, for every i, and the elided columns are already filled |
| ColumnElision.ScanTarget.Scan | internal/datastore/common/relationships.go:145-152 | scanning a row fills exactly the columns that have a slot |
| ColumnElision.QueryRelationships | internal/datastore/common/relationships.go:99-205 | over any result set, each yielded relationship has the pinned value in every elided key column and the row's value elsewhere; it has the row's caveat and context, expiration and integrity data exactly when the flags ask for them and the row has them |
| ColumnElision.SoundReadsEverything | internal/datastore/common/relationships.go:145-195 | with nothing skipped, a row that a query with implied pins returns is read back with every field it has |
| ColumnElision.SelectedExactly | internal/datastore/common/sql.go:853-885 | exactly the unpinned key columns, and the caveat, expiration and integrity columns by their flags, are selected; the literal 1 only when nothing is |
| ColumnElision.ElisionPreservesRows | internal/datastore/common/sql.go:853-975 | after a clean chain of calls every returned row is read back with all six key columns intact, and the whole yielded relationship is the one an unpinned query yields |
| ColumnElision.ChainReadsExactly | internal/datastore/common/sql.go:853-975 | over all accepted chains, with optimization on: a returned row is read back whole iff no call mispinned the subject relation or the final tracker no longer pins it |
| ColumnElision.SubjectFilterExact | internal/datastore/common/sql.go:643-662 | with optimization on, a row FilterToSubjectFilter returns is read back whole iff the call does not mispin the relation |
| ColumnElision.MispinExample | internal/datastore/common/sql.go:652-657 | a concrete row that is returned but misread |
| MemdbFilter.SelectorAgrees | internal/datastore/memdb/readonly.go:424-446 | the conjuncts of one subject selector are true on a row, and memdb's selector accepts it, iff its subject matches the selector's type, IDs and relation filter, field by field |
| MemdbFilter.RelationsMeaning | internal/datastore/memdb/readonly.go:435-442 | a relation is listed iff it is the ellipsis and that is included, or the non-ellipsis relation that is set |
| MemdbFilter.InterpreterAgrees | internal/datastore/memdb/readonly.go:391-463 | memdb keeps a row iff it matches every field the filter sets |
| MemdbFilter.FilterCompilationAgrees | internal/datastore/memdb/readonly.go:391-463 | for every accepted filter the WHERE tree is true on a row iff the earlier conjuncts are and the row matches every field the filter sets, and those are the rows memdb's filter function keeps |
| FilterMeaning.AcceptedMeaning | internal/datastore/common/sql.go:476-543 | a filter is accepted iff it has not both IDs and a prefix, no empty resource or subject ID, no percent sign in the prefix, and a known caveat option |
| FilterMeaning.ResourceTypeMeaning | internal/datastore/common/sql.go:367-371 | of the rows selected before, exactly those with the resource type stay |
| FilterMeaning.ResourceIDMeaning | internal/datastore/common/sql.go:390-394 | exactly those with the resource ID stay |
| FilterMeaning.RelationMeaning | internal/datastore/common/sql.go:460-464 | exactly those with the relation stay |
| FilterMeaning.CaveatNameMeaning | internal/datastore/common/sql.go:664-668 | exactly those with the caveat name stay |
| FilterMeaning.NoCaveatMeaning | internal/datastore/common/sql.go:671-679 | exactly the rows without a caveat or with an empty caveat name stay |
| FilterMeaning.ResourceIDsMeaning | internal/datastore/common/sql.go:429-458 | accepted iff no ID is empty; then exactly the rows with one of the IDs stay |
| FilterMeaning.PrefixMeaning | internal/datastore/common/sql.go:406-417 | accepted iff the prefix is not empty and has no percent sign; then exactly the rows whose resource ID starts with it stay |
| FilterMeaning.SelectorsMeaning | internal/datastore/common/sql.go:555-641 | accepted iff no subject ID is empty; then exactly the rows that match some selector stay |
| FilterMeaning.SubjectFilterMeaning | internal/datastore/common/sql.go:643-662 | exactly the rows with the requested subject type, with the ID if one is given, and with the relation if one is given, the empty one meaning the ellipsis, stay |
| FilterMeaning.SubjectFilterPins | internal/datastore/common/sql.go:643-662 | it pins the subject type, the ID if given, and the ellipsis for any given relation |
| FilterMeaning.RecordMeaning | internal/datastore/common/sql.go:373-382 | a list of recorded values pins the column iff there is a value and all of them are the same |
| FilterMeaning.FilterPins | internal/datastore/common/sql.go:476-543 | a relationships filter pins exactly what it asks for: type, relation and caveat name, the ID if all are the same, and the same for the subject columns if there is exactly one selector |
| Keyset.KeyLessWitness | internal/datastore/common/sql.go:330-361 | lexicographic order means: equal up to some position and smaller there |
| Keyset.BothFormsAgree | internal/datastore/common/sql.go:307-363 | for any column list the tuple form and the expanded form are the same lexicographic "strictly after" |
| Keyset.DroppingPinnedColumns | internal/datastore/common/sql.go:317-347 | leaving out columns on which cursor and row agree does not change the comparison |
| Keyset.KeysetExact | internal/datastore/common/sql.go:307-363 | with a cursor that carries the pinned values, After keeps, of the rows selected before, exactly those strictly after the cursor in the full order, iff some sort column is unpinned |
| Keyset.MemdbCursorExact | internal/datastore/memdb/readonly.go:465-495 | memdb's cursor filter keeps exactly the rows strictly after the cursor in the default column order |
| Keyset.BackendsAgree | internal/datastore/memdb/readonly.go:391-495 | filter and cursor together agree on a row in both backends iff the filter drops the row or some sort column is not pinned |
| Pagination.TupleIterator | internal/datastore/memdb/readonly.go:555-594 | the loop returns the first visible rows, up to the limit |
| Pagination.SubjectSortedIterator | internal/datastore/memdb/readonly.go:497-539 | the visible rows sorted by subject, cut to the limit |
| Pagination.QueryRelationships | internal/datastore/memdb/readonly.go:109-167 | the page of the request, or an error exactly for a cursor without an order |
| Pagination.SortSorts | internal/datastore/memdb/readonly.go:522-531 | sorting by subject orders the rows strictly and is a permutation |
| Pagination.SortIsUnique | internal/datastore/memdb/readonly.go:522-531 | two strictly ordered lists with the same rows are equal, so the sorting algorithm does not matter |
| Pagination.IndexLosesNothing | internal/datastore/memdb/readonly.go:360-389 | the index that is iterated never hides a row the filter keeps |
| Pagination.PageMeaning | internal/datastore/memdb/readonly.go:497-594 | the unlimited page has exactly the rows that match every field of the filter, lie strictly after the cursor, have not expired and are not skipped, in strict order; a limited page is its first `limit` rows |
| Pagination.NextPage | internal/datastore/memdb/readonly.go:465-495 | using the last row of a page as the cursor continues right after that page |
| Pagination.PagesConcatenate | internal/datastore/memdb/readonly.go:497-594 | the pages concatenate to the whole filtered, sorted result iff the limit is positive or there is nothing to return; the result is strictly ordered and has exactly the rows asked for, field by field |
| SqlPaging.CompiledContinues | internal/datastore/common/sql.go:307-363 | with a sort column unpinned, the compiled query with the cursor of any row returns exactly the rows after it, in order |
| SqlPaging.CompiledPagesConcatenate | internal/datastore/common/sql.go:696-760 | reading the compiled query page by page ends with the whole ordered result iff there is nothing to return, or the limit is positive and some sort column is unpinned |
| ChangeTracker.Changes.AdjustByteSize | internal/datastore/common/changes.go:119-140 | the new count and whether the call fails by underflow or by exceeding the budget |
| ChangeTracker.Changes.RecordForRevision | internal/datastore/common/changes.go:166-184 | an empty record is created for a new revision, others are left alone |
| ChangeTracker.Changes.AddTouch | internal/datastore/common/changes.go:66-113 | a touch replaces a delete of the same key and gives its size back |
| ChangeTracker.Changes.AddDelete | internal/datastore/common/changes.go:66-113 | a delete is dropped when the key was touched |
| ChangeTracker.Changes.AddDeletedNamespace | internal/datastore/common/changes.go:186-210 | a deletion is dropped when the namespace was changed |
| ChangeTracker.Changes.AddDeletedCaveat | internal/datastore/common/changes.go:212-236 | a deletion is dropped when the caveat was changed |
| ChangeTracker.Changes.AddChangedDefinition | internal/datastore/common/changes.go:239-289 | a changed definition replaces a deletion of the same name, with the source's size bookkeeping |
| ChangeTracker.Changes.AsRevisionChanges | internal/datastore/common/changes.go:293-295 | every record exactly once in strictly increasing revision order |
| ChangeTracker.Changes.FilterAndRemoveRevisionChanges | internal/datastore/common/changes.go:299-371 | returns exactly the records below the bound in strictly increasing order and leaves exactly the rest |
| TrackerLaws.RelationshipNormalForm | internal/datastore/common/changes.go:66-113 | for any history: a key is touched iff some touch was added, with the last touched row, and deleted iff it was deleted and never touched, with the last deleted row |
| TrackerLaws.NamespaceNormalForm | internal/datastore/common/changes.go:186-289 | a namespace's definition is the last changed one; it is deleted iff it was deleted and never changed |
| TrackerLaws.CaveatNormalForm | internal/datastore/common/changes.go:212-289 | a caveat's definition is the last changed one; it is deleted iff it was deleted and never changed |
| TrackerLaws.OrderIndependent | internal/datastore/common/changes.go:66-289 | any reordering of a history gives the same revisions, and per revision the same touched, deleted and changed sets |
| TrackerLaws.ListsUnique | internal/datastore/common/changes.go:309-360 | there is only one strictly increasing list of a tracker's records |
| TrackerLaws.HeldOrDrained | internal/datastore/common/changes.go:299-371 | over any further additions and drains a held record stays held until a drain delivers it |
| TrackerLaws.DrainEqualsOneShot | internal/datastore/common/changes.go:293-371 | the drained lists followed by the rest are what one AsRevisionChanges would have returned, iff nothing was added at or below a revision already drained |
| TrackerLaws.LateIsOutOfOrder | internal/datastore/common/changes.go:299-371 | an addition at or below a drained revision comes out of order |
| ByteBudget.CallAccounting | internal/datastore/common/changes.go:66-140 | every successful call moves the distance between counter and retained bytes by an amount that depends only on the operation and the record it meets |
| ByteBudget.FailsExactly | internal/datastore/common/changes.go:119-140 | when a call fails, and what the records and the counter are afterwards, whatever is watched and also without a limit |
| ByteBudget.CaveatAccountingExact | internal/datastore/common/changes.go:239-289 | a changed caveat keeps the counter from falling behind iff the same-named namespace entry it gives back is no larger than the caveat entry it replaces |
| ByteBudget.SlackIsBalance | internal/datastore/common/changes.go:66-140 | over any successful history the distance between counter and retained bytes is exactly the sum of the additions' gains and of what the drains release |
| ByteBudget.NoSharedNameSuffices | internal/datastore/common/changes.go:239-289 | no addition loses bytes when no caveat shares its name with a namespace changed at the same revision |
| ByteBudget.BudgetSound | internal/datastore/common/changes.go:119-140 | over any additions and drains in which no call failed and no addition loses bytes: retained bytes <= counter <= maximum, and no next call, whatever it is, can underflow |
| ByteBudget.NoUnderflow | internal/datastore/common/changes.go:119-140 | no call at all reaches the underflow branch while the counter does not undercount |
| ByteBudget.SharedNameUnderflows | internal/datastore/common/changes.go:272-278 | a namespace and a caveat of one name in one revision reach the underflow branch |
| MemdbStore.MemdbDatastore.constructor | internal/datastore/memdb/memdb.go:42-83 | an empty database whose first snapshot is the live database |
| MemdbStore.MemdbDatastore.NewRevisionID | internal/datastore/memdb/revisions.go:17-39 | the clock, or one more when it equals the head |
| MemdbStore.MemdbDatastore.TxSource | internal/datastore/memdb/memdb.go:167-191 | every call of an attempt: the first gets a transaction on the current root, is refused, or waits for the writer lock with the mutex in hand; a later one returns what the first left, nil without an error after a refusal |
| MemdbStore.MemdbDatastore.Write | internal/datastore/memdb/readwrite.go:52-126 | fails iff some create meets a key the earlier updates leave present; otherwise the last update of every key decides its row, and keys without an update keep theirs |
| Mutations.WritesExactly | internal/datastore/memdb/readwrite.go:52-126 | the same normal form for every list of updates on every transaction |
| Mutations.TouchedRow | internal/datastore/memdb/readwrite.go:99-112 | a touch leaves the stored row alone iff it prints the same, and replaces it otherwise |
| Mutations.FailedWrite | internal/datastore/memdb/readwrite.go:87-95 | a failing write leaves the updates before the failing create applied, and nothing after them |
| Mutations.WriteMarks | internal/datastore/memdb/readwrite.go:52-126 | a write touches relationships only, and marks exactly the keys whose value some update changed |
| MemdbStore.MemdbDatastore.WriteNamespaces | internal/datastore/memdb/readwrite.go:275-299 | every written name has its last definition and every other namespace keeps its own |
| Mutations.PutNamespacesExactly | internal/datastore/memdb/readwrite.go:275-299 | the same for every transaction; the written names are marked and nothing else changes |
| MemdbStore.MemdbDatastore.DeleteNamespaces | internal/datastore/memdb/readwrite.go:301-339 | succeeds iff every name is present and none is repeated, with the relationships of that type going too when asked; otherwise stops at the first missing name |
| MemdbStore.MemdbDatastore.WriteCaveats | internal/datastore/memdb/caveat.go:111-141 | succeeds iff no name is repeated within the call; otherwise stops at the first repetition |
| MemdbStore.MemdbDatastore.DeleteCaveats | internal/datastore/memdb/caveat.go:143-156 | succeeds iff every name is present and none is repeated; otherwise stops at the first missing name |
| Mutations.DropNamespacesExactly | internal/datastore/memdb/readwrite.go:314-336 | a deletion succeeds iff all names are present and distinct, and then exactly the named namespaces are gone |
| Mutations.DropNamespacesMeaning | internal/datastore/memdb/readwrite.go:301-339 | the other namespaces keep their definitions; the relationships of the deleted types go exactly when asked, the others keep their rows; exactly what went is marked and nothing else changes |
| Mutations.PutCaveatsMeaning | internal/datastore/memdb/caveat.go:111-141 | written caveats have their definitions and are marked, the others keep theirs, nothing else changes |
| Mutations.DropCaveatsExactly | internal/datastore/memdb/caveat.go:150-154 | a deletion succeeds iff all names are present and distinct, and then exactly the named caveats are gone |
| Mutations.DropCaveatsMeaning | internal/datastore/memdb/caveat.go:143-156 | the other caveats keep their definitions, the deleted ones are marked, nothing else changes |
| MemdbStore.MemdbDatastore.AbortAttempt | internal/datastore/memdb/memdb.go:195-215 | database and snapshots stay, the active mark is cleared only by the attempt that opened |
| MemdbStore.MemdbDatastore.CommitAttempt | internal/datastore/memdb/memdb.go:217-327 | database, changelog and snapshots move together; a closed store commits but takes no snapshot |
| MemdbStore.MemdbDatastore.AbandonEntry | internal/datastore/memdb/memdb.go:220-314 | an entry that cannot be built returns early: nothing is committed, activeWriteTxn stays set and the writer lock taken |
| MemdbStore.MemdbDatastore.TrackChanges | internal/datastore/memdb/memdb.go:217-303 | running the net changes through a fresh tracker yields the revision's record |
| MemdbStore.MemdbDatastore.TrackChange | internal/datastore/memdb/memdb.go:228-287 | one net change goes to the tracker as a touch, a delete, a changed or a deleted definition |
| MemdbStore.MemdbDatastore.Close | internal/datastore/memdb/memdb.go:364-383 | closed, with the snapshots replaced |
| MemdbStore.MemdbDatastore.SearchRevisions | internal/datastore/memdb/memdb.go:132-134 | the index sort.Search ends at for any snapshots; on increasing ones exactly those before it are below the revision |
| MemdbStore.MemdbDatastore.CheckRevision | internal/datastore/memdb/revisions.go:85-118 | accepted iff the revision is the head, or inside the window and not beyond both clock and head; otherwise the source's error |
| MemdbStore.MemdbDatastore.SnapshotReader | internal/datastore/memdb/memdb.go:114-150 | closed, not ready, stale or undetermined exactly in these cases, else the content of the snapshot the search ends at, or of the last one, for any snapshots |
| StoreRuns.EntryOfKey | internal/datastore/memdb/memdb.go:217-303 | a commit's entry touches a key iff the transaction left it present, with its final row, and deletes it iff the transaction removed it |
| StoreRuns.EntryOfNamespace | internal/datastore/memdb/memdb.go:217-303 | the entry holds the definition of every written namespace that is still there, and names as deleted exactly those the transaction removed |
| StoreRuns.EntryOfCaveat | internal/datastore/memdb/memdb.go:217-303 | the same for caveats |
| StoreRuns.EntryReplays | internal/datastore/memdb/memdb.go:217-327 | replaying the entry on the transaction's base gives the relationships, namespaces and caveats it committed |
| StoreRuns.ActiveNamesOpenExactly | internal/datastore/memdb/memdb.go:167-328 | for any clocks and interleavings, including Close: activeWriteTxn names the open transaction throughout a run iff no step loses track of it |
| StoreRuns.OneTransaction | internal/datastore/memdb/memdb.go:173-190 | in every run whatsoever at most one transaction is open, and it started from the database its commit replaces, so no update is lost |
| StoreRuns.NeverBlocks | internal/datastore/memdb/memdb.go:173-190 | a run that keeps track never waits for the writer lock |
| StoreRuns.RevisionsIncreaseExactly | internal/datastore/memdb/memdb.go:193-327 | in every run of an open store the revisions stay strictly increasing iff every attempt that opens and goes on to commit was allocated above the head it opened on, and every callback that succeeds without a transaction has a revision above the head and below that of an open transaction that goes on to commit |
| StoreRuns.InvExactly | internal/datastore/memdb/memdb.go:167-328 | after any run of an open store the whole invariant holds iff the revisions are strictly increasing |
| StoreRuns.StepKeepsInv | internal/datastore/memdb/memdb.go:167-328 | every step of an open store whose commit lies above the head keeps the open transaction's base, the chain of changelog and snapshots, and the snapshots already taken |
| StoreRuns.RunKeepsInv | internal/datastore/memdb/memdb.go:167-328 | so does every run of such steps, whatever the clocks, the interleaving and the callbacks |
| StoreRuns.MvccRunInvariant | internal/datastore/memdb/memdb.go:167-328 | with clocks not behind the head, no commit between newRevisionID and the first txSource call, callbacks that open before they succeed and entries that can be built: at most one transaction is open, activeWriteTxn names it, revisions are strictly increasing, and nobody waits for the writer lock |
| StoreRuns.ReplayEqualsSnapshot | internal/datastore/memdb/memdb.go:217-327 | in every state that a run with increasing revisions reaches, the changelog of (r, r'] turns the relationships, namespaces and caveats of snapshot r into exactly those of snapshot r' |
| StoreRuns.RunsReplay | internal/datastore/memdb/memdb.go:217-327 | the same for every run of a fresh, open store whose revisions ended up strictly increasing |
| StoreRuns.RepeatableReads | internal/datastore/memdb/memdb.go:114-150 | a revision above the initial one and at or below the head reads the least commit at or above it, and the same content after any further run with increasing revisions |
| StoreRuns.RepeatableExactly | internal/datastore/memdb/memdb.go:70-75 | those bounds on the revision are exact: otherwise one more commit changes what is read |
| StoreRuns.CommitBetweenReorders | internal/datastore/memdb/memdb.go:193-193 | for all clocks: with a commit between another attempt's newRevisionID and its first txSource call, revisions stay increasing iff the committing clock is not behind the head and the other attempt got the later revision |
| StoreRuns.EqualRevisionsLoseAnEntry | internal/datastore/memdb/revisions.go:17-39 | two attempts that read the same clock share a revision; the second commit overwrites the first one's changelog entry, so the changelog no longer leads to the database |
| StoreRuns.UnopenedCommitBlocks | internal/datastore/memdb/memdb.go:318-326 | a successful callback that never opened a transaction clears the mark of the open one; the next first txSource call waits with the mutex in hand and no run changes the database or the snapshots any more |
| StoreRuns.BlockedForever | internal/datastore/memdb/memdb.go:173-190 | once a goroutine waits there, every continuation leaves database, snapshots and mark as they are |
| StoreRuns.ClockBehindReorders | internal/datastore/memdb/revisions.go:17-39 | for all clocks: an attempt alone keeps the revisions increasing iff its clock is not behind the head |
| StoreRuns.FailedEntryIsFinal | internal/datastore/memdb/memdb.go:220-314 | after an entry that cannot be built no run gives any attempt a transaction again, and the database never changes, whatever the callbacks do |
| StoreRuns.ClosedForever | internal/datastore/memdb/memdb.go:364-383 | after Close every run leaves the store closed, gives no attempt a transaction, adds no snapshot, and every read fails with the closed error |
| RelationshipDelete.CollectDeletions | internal/datastore/memdb/readwrite.go:158-189 | exactly the first `limit` rows the filter keeps, and the limit is met iff there are that many |
| RelationshipDelete.DeleteWithLock | internal/datastore/memdb/readwrite.go:158-191 | with the table the open transaction's relationships form: never fails; without a limit exactly the relationships that match every field of the filter are gone; the count is the number of keys that went, and the limit is met iff it is that number |
| RelationshipDelete.IndexCoversHits | internal/datastore/memdb/readonly.go:360-389 | the iterated index never hides a row the delete is about |
| RelationshipDelete.DeletionsRemove | internal/datastore/memdb/readwrite.go:114-119 | deleting rows that are present never fails, removes their keys and nothing else, and marks them for the changelog |
| RelationshipDelete.DeleteIsExact | internal/datastore/memdb/readwrite.go:158-191 | exactly the chosen relationships go, every other one keeps its row, and the remaining table is the old one without them |
| RelationshipDelete.UnlimitedDelete | internal/datastore/memdb/readwrite.go:361-392 | without a limit a relationship goes iff it matches every field the filter sets (resource type, ID, prefix and relation, subject type, ID and relation), and every other one keeps its row |
| RelationshipDelete.LimitedDelete | internal/datastore/memdb/readwrite.go:158-191 | with a limit at most that many go, all of them matching; if a matching one stays, exactly that many went and all of them come before it in resource order |
| RelationshipDelete.NamespaceDelete | internal/datastore/memdb/readwrite.go:329-336 | the delete by filter that goes with a namespace removes exactly the relationships of that resource type |
| RelationshipDelete.BatchesDeleteAll | internal/datastore/memdb/readwrite.go:158-191 | repeating a limited delete until it no longer meets its limit deletes exactly what one unlimited delete does, and the counts add up |
| RelationshipDelete.BatchesLeave | internal/datastore/memdb/readwrite.go:158-191 | what stays after such batches are exactly the rows that miss some field of the filter |
| WatchDelivery.LoadChanges | internal/datastore/memdb/watch.go:102-148 | the messages of every entry above the last revision in order, and the new last revision; an error exactly when closed |
| WatchDelivery.Watcher.Round | internal/datastore/memdb/watch.go:63-96 | one round sends what was loaded and threads the revision, or stops when the store is closed |
| WatchDelivery.SentExactly | internal/datastore/memdb/watch.go:118-140 | for every watched content and every stretch of the changelog: how often each entry and each checkpoint is sent, nothing else, and in which order |
| WatchDelivery.WatchDelivers | internal/datastore/memdb/watch.go:63-148 | however commits of increasing revision, aborts, retries and rounds interleave, and whatever else the callbacks of an open store do, what was sent is exactly what the changelog between the start and the reached revision emits: nothing skipped, repeated or reordered |
| WatchDelivery.WatchIsComplete | internal/datastore/memdb/watch.go:63-148 | from the start of the watch, and one more round leaves no later entry outstanding |
| WatchDelivery.RelationshipWatchExact | internal/datastore/memdb/watch.go:123-130 | a relationships-only watcher receives exactly the relationship-bearing entries, once each and in order, iff no entry in range deletes a namespace or a caveat |
| WatchDelivery.WantedIncreases | internal/datastore/memdb/watch.go:118-140 | the revisions of those messages are strictly increasing |
| WatchDelivery.WatcherReachesHead | internal/datastore/memdb/watch.go:63-148 | a consumer that applies the received entries to the snapshot the watch began at holds, after the next round, exactly the head's relationships if it watches them, and exactly its namespaces and caveats if it watches the schema, duplicates and all |
| WatchDelivery.InsertKeepsOrder | internal/datastore/memdb/memdb.go:305-314 | the changelog stays ordered by revision; a new entry takes the place of one at its revision and every other entry stays |
| WatchDelivery.LateEntryIsMissed | internal/datastore/memdb/watch.go:113-140 | an entry is loaded by a later round iff its revision is above the watcher's: one committed behind it is lost |
| RevisionCache.RemoteClockRevisions.constructor | internal/datastore/revisions/remoteclock.go:27-49 | staleness above the window is capped to one less than the window; the cache starts empty |
| RevisionCache.RemoteClockRevisions.OptimizedRevisionFunc | internal/datastore/revisions/remoteclock.go:51-81 | the quantized revision with Go's truncated remainder |
| RevisionCache.RemoteClockRevisions.OptimizedRevision | internal/datastore/revisions/optimized.go:41-99 | the first candidate valid at the adjusted time, else a fresh one is returned and stored after pruning the expired prefix; a failing clock changes nothing |
| RevisionCache.RemoteClockRevisions.CheckRevision | internal/datastore/revisions/remoteclock.go:88-125 | accepted iff there is a revision, the clock can be read, and the revision lies in the window up to now; otherwise the source's error |
| RevisionCache.AnswerMeaning | internal/datastore/revisions/optimized.go:41-99 | the first candidate not expired at the adjusted time is returned and nothing changes; otherwise a fresh revision is returned and stored after the candidates that have not definitely expired, unless the clock fails |
| RevisionCache.QuantizedMeaning | internal/datastore/revisions/remoteclock.go:66-73 | for every time: the neighbouring multiple of the quantum in the direction of zero, expiring one quantum after it; without a quantum the delayed time, valid at once only |
| RevisionCache.QuantizedNotAhead | internal/datastore/revisions/remoteclock.go:66-73 | exactly when the quantized revision does not run ahead of the delayed time, for negative times too |
| RevisionCache.CacheStaysGood | internal/datastore/revisions/optimized.go:55-89 | in every one-clock run the candidates are ones the clock produced, strictly increasing in validThrough when there is a quantum |
| RevisionCache.AnswerLag | internal/datastore/revisions/optimized.go:41-99 | every answer lies between MaxLag and the follower read delay behind the clock |
| RevisionCache.WorstRunLags | internal/datastore/revisions/optimized.go:41-99 | for all settings a run reaches MaxLag, so the bound is tight |
| RevisionCache.AcceptedExactly | internal/datastore/revisions/remoteclock.go:88-125 | every answer of every run passes CheckRevision iff the delay is not negative and MaxLag fits the window |
| RevisionCache.WithinWindow | internal/datastore/revisions/remoteclock.go:88-125 | in particular when delay, quantum and staleness add up to at most the window |
| RevisionCache.CapIsNotEnough | internal/datastore/revisions/remoteclock.go:28-34 | for every window, delay and quantum: exactly when a capped configuration is safe; with a quantum and a window of two nanoseconds or more, delay plus quantum at most three |
| RevisionCache.FreshExactly | internal/datastore/revisions/optimized.go:45-63 | caching is invisible on every run iff the staleness is at most one nanosecond, or two without a quantum |
| RevisionCache.PruneIsExact | internal/datastore/revisions/optimized.go:76-87 | pruning the prefix drops exactly the definitely expired candidates |
| RevisionCache.PruningUnobservable | internal/datastore/revisions/optimized.go:76-89 | for all settings a never-pruned cache gives the same answers, whatever the remote clock says |
| RevisionCache.CacheIsBounded | internal/datastore/revisions/optimized.go:76-89 | after a refresh at most floor(staleness / quantum) + 2 candidates remain, one when the staleness is negative |
| RevisionCache.BoundIsReached | internal/datastore/revisions/optimized.go:76-89 | that bound is reached for all settings |
| HlcRevision.RoundTrip | internal/datastore/revisions/hlcrevision.go:34-74 | printing and parsing gives the revision back iff its stored clock is not below the offset; otherwise printing panics or the text does not parse |
| HlcRevision.ClockRoundTrip | internal/datastore/revisions/hlcrevision.go:132-135 | for every offset, time and clock: the round trip holds iff clock plus offset stays below 2^32 |
| HlcRevision.ParseMeaning | internal/datastore/revisions/hlcrevision.go:34-74 | a text with a point parses iff a 64-bit number stands before the point and at most ten digits whose clock fits 32 bits after it, and to which revision |
| HlcRevision.PrintedShape | internal/datastore/revisions/hlcrevision.go:132-135 | a printed revision is its time, a point and ten characters; it prints iff the clock less the offset takes at most ten |
| HlcRevision.TrailingZeros | internal/datastore/revisions/hlcrevision.go:54-73 | a trailing zero of a fraction shorter than ten characters never changes the outcome, valid or not |
| HlcRevision.PlainTimestamp | internal/datastore/revisions/hlcrevision.go:36-43 | a text without a point means the same as with an empty fraction |
| HlcRevision.OrderExactly | internal/datastore/revisions/hlcrevision.go:114-130 | comparison is the order on (time, clock) iff the times differ or both or neither clock wraps |
| HlcRevision.TextOrder | internal/datastore/revisions/hlcrevision.go:101-135 | for nonnegative times of one decimal width the text order is the revision order |
| HlcRevision.ByteSortableExactly | internal/datastore/revisions/hlcrevision.go:101-103 | over a span of times the texts sort as the revisions iff the first and the last time have the same number of digits |
| Decimal.ParseOfFormat | internal/datastore/revisions/hlcrevision.go:49-52 | an int64 survives FormatInt and ParseInt |
| Decimal.ParseInt64Meaning | internal/datastore/revisions/hlcrevision.go:49-52 | exactly the decimal texts of 64-bit numbers parse, with or without a sign, to their values |
| Debounce.FileWatcher.constructor | internal/watch/watcher.go:33-64 | nothing pending, no timer, not stopped |
| Debounce.FileWatcher.OnEvent | internal/watch/watcher.go:110-137 | only writes and creations of watched files are taken up |
| Debounce.FileWatcher.HandleFileChange | internal/watch/watcher.go:144-190 | the change becomes pending, the old timer is stopped unless it fired, a new one is armed; nothing after Stop |
| Debounce.FileWatcher.PassContextCheck | internal/watch/watcher.go:161-166 | a callback ends early iff the context is cancelled |
| Debounce.FileWatcher.CallbackBody | internal/watch/watcher.go:168-189 | reloads iff not stopped and something is pending, and clears what is pending |
| Debounce.FileWatcher.Stop | internal/watch/watcher.go:94-108 | stopped, timer stopped, nothing pending, context cancelled |
| Debounce.NothingIsLost | internal/watch/watcher.go:144-190 | in every interleaving, pending changes of a running watcher have a callback armed or in flight, at most one timer is armed, and reloads never outnumber accepted changes |
| Debounce.AcceptedExactly | internal/watch/watcher.go:110-137 | exactly a write to or creation of a watched file on a running watcher is accepted; any other notification changes nothing |
| Debounce.ReloadedExactly | internal/watch/watcher.go:161-189 | the reload function is called exactly by a callback past its context check, while the watcher runs and something is pending, and clears what is pending |
| Debounce.AcceptedIsAnswered | internal/watch/watcher.go:144-190 | every accepted change is followed by a reload while its file is pending, or by a Stop, in every run that leaves no callback behind |
| Debounce.DrainReloads | internal/watch/watcher.go:161-189 | from any state with pending changes the current timer's callback reloads within three steps |
| Debounce.NoReloadAfterStop | internal/watch/watcher.go:94-108 | once stopped no reload starts, whatever callbacks are still in flight |
| Debounce.NonePassesCancelled | internal/watch/watcher.go:161-166 | once the context is cancelled no callback gets past its check any more, in any run |
| Debounce.BurstReloadsOnce | internal/watch/watcher.go:155-189 | a burst of any number of changes on an idle watcher leads to exactly one reload |

## Left out

- SQL text, placeholders, index hints, EXPLAIN and driver row scanning: the model stops at the WHERE tree, the selected columns and the scan slots.
- The expiration clause and expiration timing across backends: SQL keeps strictly later expirations and memdb keeps equal ones, so the agreement theorems cover the filter and cursor predicates only.
- Concurrent use of copies of a filterer that share one tracker map: one linear chain of calls is modelled.
- The filterer after a call that returned an error, `FilterToResourceIDs` above the configured ID count, and an unknown pagination type: the source panics or discards the filterer.
- Cursors whose pinned columns differ from the query's: such a cursor does not come from a returned row.
- Reverse queries, counters, bulk load, statistics, namespace and caveat readers: they add only members of kinds already present.
- The retry limit and the sleeps of `ReadWriteTx`: any number of attempts may run and interleave.
- Why a changelog entry cannot be built (a stored caveat context or definition that does not decode): the failure itself is an event of the model.
- `RelationshipsFilterFromPublicFilter` is not part of this model: it is defined outside the repository; the index it leads to depends on the resource type and relation only.
- The order of updates inside one revision's changes, which follows Go's map order, and transaction metadata.
- 64-bit overflow of the byte counter, of revisions and of durations.
- The watch channel's buffer, its write timeout and cancellation: a watcher that disconnects has received a prefix.
- Concurrent calls to the revision cache and its singleflight group: runs are sequences of calls.
- Decimal and floating-point forms of HLC revisions; timestamp and transaction-ID revisions.
- QueryFilterer.SchemaQueryFilterer.FilterToResourceIDs: an empty ID list is an empty IN here, where the source writes one placeholder without an argument.
- File-system paths and the registration of watches in `Start`: the watcher is modelled from the events on.
