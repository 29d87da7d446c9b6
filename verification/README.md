# Verification model of the custom DBMS

A Dafny model of the storage engine and of the cluster coordinator, with proofs.  `dafny verify dfyconfig.toml` checks all
of it.  Mutable state is always tied to something simpler:

- **The B\*+ tree index** (`BStarPlusTree`, built on `Tree*`, `NodeEdits`, `SortedMap`, `Keys`).  Nodes are heap objects with
  parent-to-child references and a doubly linked leaf chain that crosses subtrees; every method of the source is a method
  here and works in place.  The specification is a map from key to a list of row ids without repetition.  A ghost tree
  value describes the shape; repairs are compositions of two operations on it, joining neighbours and cutting a node.
  Byte strings are compared through an order embedding into the reals, so bounds are real intervals.
- **Tables** (`Values`, `Predicates`, `TableIndex`, `FilterRows`, `History`, `TableStatements`, `TableChanges`,
  `TableRevert`, `TableRuns`, `TableEffects`, `ClauseMeaning`, `StatementMeaning`, `FailureMeaning`, `TableStore`, `TableRuntime`,
  `IndexTrees`).  Heap, indexes and append-only history are three
  views of one table.  Each statement is a function or relation on these views, and a method on heap, indexes and change
  log that is proved to compute it.  The `Meaning` modules say what these functions come to, row by row and value by value,
  without them.
- **The engine** (`Databases`, `Workspace`, `Transactions`, `DbmsEngine`, `Recovery`, `RecoveredFiles`, `NullDefaults`,
  `WriteAheadLog`, `TextLines`).
  A transaction owns a clone of every table; that clones and shared objects never overlap is part of the engine's invariant.
  Requests of any number of sessions form runs.  Files are texts, and an append can be cut off after any byte.
- **The cluster** (`TwoPhaseCommit`, `ClusterCommands`, `ShardRouting`, `ShardedCluster`, `RenderedLiterals`).  Two-phase
  commit is a state machine over requests, replies and their loss, with any number of coordinators; the coordinator's loop
  and the node's command branch are methods that take its steps.  A sharded table is one table state per node, and its runs
  start from empty nodes.  The hash is an arbitrary function.
- **Codecs** (`RecordText`, `RecordFields`, `StateFile`, `HistoryFile`, `RuntimePersistence`, `Base64Url`).

Times are natural numbers from a clock that never goes backwards where order matters, and arbitrary otherwise; parsing is an
arbitrary function from text to statements that knows `BEGIN;`, `COMMIT;` and `ROLLBACK;`; network losses and node verdicts
are parameters.

Where code and intent differ, the model follows the code and says when they agree:

- Comparing 64-bit integers by subtracting them orders them correctly exactly when the difference does not overflow
  (`Values.CompareSignExact`, `Values.CompareOverflows`).
- The formulas by which the tree cuts and gathers nodes yield sizes between half and full exactly for even capacities from
  6 on (`TreeInsertion.CapacityIsExact`); the engine uses 8, and the tree is proved for every even capacity from 6 on.
- A statement with a newline does not survive the log; exactly the others do (`WriteAheadLog.StatementSurvives`).
- A transaction of statements without newlines is appended atomically at every byte (`WriteAheadLog.TornTransaction`); one
  with a newline need not be (`WriteAheadLog.NewlineTearsTransaction`).  A single statement without newlines is atomic exactly
  at the cuts that `WriteAheadLog.StatementCutIsAtomic` names; at the others a beginning of it is loaded as a statement, and
  any beginning can be (`WriteAheadLog.AnyBeginningIsLoaded`, `WriteAheadLog.TornStatementExample`), which start-up then runs
  (`Recovery.StatementRecovers`).
- What is saved is loaded as it was exactly if no string in it contains a newline, no column of a table or of a recorded
  schema declares DEFAULT NULL, and no recorded schema is without columns (`RuntimePersistence.ExactExactlyWhen`,
  `RuntimePersistence.NewlineIsLost`, `RuntimePersistence.NullDefaultIsLost`).  Without newlines only these defaults and
  schemas are forgotten (`RuntimePersistence.LoadInvertsSave`); no modification notices (`NullDefaults.RunForgetful`), nor
  does the filter of a query (`NullDefaults.ScanIgnoresNullDefaults`).
- A modification outside a transaction that fails leaves memory ahead of the files exactly if it has recorded something
  before the error (`Recovery.SyncedStep`, `TableEffects.FailedWithoutTrace`, `Recovery.FailedInsertIsNotSaved`).
- A coordinator writes a backslash before backslashes and quotes of string literals, and the lexer keeps it.  A sharded INSERT
  therefore stores another string than it was given, and possibly on a node where that does not belong, exactly if the string
  contains a backslash or a quote (`ShardedCluster.SentWhereItBelongs`, `ShardedCluster.BackslashStrays`).
- A refused transaction stays prepared on a node exactly if the node's ABORT, or its own agreement, was lost on the way
  (`TwoPhaseCommit.HeldAfterRefusal`, `TwoPhaseCommit.LostAnswerHolds`).
- The repository's README says that UPDATE and DELETE without a shard key fan out; `src/server/entrypoint.cpp:412-430`
  answers 502, although the nodes answer, exactly in the cases of `ShardedCluster.RefusedExactly`, for instance when a clause
  names two values of the shard key (`ShardedCluster.TwoValuesRefused`).

## Model

| member | source | states |
|---|---|---|
| `BStarPlusTree.BStarPlusTree.constructor` | src/index/b_star_plus_tree.cpp:9-11 | a new tree is valid, holds nothing, and has the capacity asked for |
| `BStarPlusTree.BStarPlusTree.Insert` | src/index/b_star_plus_tree.cpp:431-440 | the content becomes the old map with the row once in the key's list: the row is in the new list, the old list is a beginning of it, its length grows by one exactly if the row was absent, and every other key keeps its list; search order, equal leaf depth, sizes, distinct nodes and the doubly linked leaf chain are kept |
| `BStarPlusTree.BStarPlusTree.Remove` | src/index/b_star_plus_tree.cpp:775-781 | the content becomes the old map without the row in the key's list: the other rows keep their order, the key is gone exactly if the row was its only one, every other key keeps its list; every invariant is kept through borrowing, 3-to-2, merging and root collapse |
| `BStarPlusTree.BStarPlusTree.Apply` | src/index/b_star_plus_tree.cpp:431-440 | any sequence of insertions and removals does to the map what the sequence says and leaves a valid tree |
| `BStarPlusTree.BStarPlusTree.Find` | src/index/b_star_plus_tree.cpp:783-790 | the list of a key is the map's list, none if the map lacks it |
| `BStarPlusTree.BStarPlusTree.FindLeaf` | src/index/b_star_plus_tree.cpp:42-49 | the descent ends at the one leaf, with its place among the leaves, whose bounds cover the key |
| `BStarPlusTree.BStarPlusTree.RangeScan` | src/index/b_star_plus_tree.cpp:792-811 | walking the chain yields exactly the entries with lower <= key < upper, strictly ascending, for any bounds, and ends |
| `BStarPlusTree.BStarPlusTree.SplitLeaf` | src/index/b_star_plus_tree.cpp:51-73 | a leaf is cut at half its keys, the right part is new and linked in behind it, also when the next leaf belongs to another subtree |
| `BStarPlusTree.BStarPlusTree.SplitInternal` | src/index/b_star_plus_tree.cpp:75-98 | an inner node is cut at half its keys and the middle key leaves it |
| `BStarPlusTree.BStarPlusTree.TryRedistributeLeafWithLeft` | src/index/b_star_plus_tree.cpp:100-120 | succeeds exactly when the left neighbour has room; then one entry moves over and the separator follows |
| `BStarPlusTree.BStarPlusTree.TryRedistributeLeafWithRight` | src/index/b_star_plus_tree.cpp:122-142 | succeeds exactly when the right neighbour has room; then one entry moves over and the separator follows |
| `BStarPlusTree.BStarPlusTree.TryTwoToThreeSplitLeafWithRight` | src/index/b_star_plus_tree.cpp:144-214 | succeeds exactly on two full neighbouring leaves; they become three, cut at the thirds, in the chain in order |
| `BStarPlusTree.BStarPlusTree.TryRedistributeInternalWithLeft` | src/index/b_star_plus_tree.cpp:224-246 | succeeds exactly when the left neighbour has room; one child is rotated through the separator |
| `BStarPlusTree.BStarPlusTree.TryRedistributeInternalWithRight` | src/index/b_star_plus_tree.cpp:248-271 | succeeds exactly when the right neighbour has room; one child is rotated through the separator |
| `BStarPlusTree.BStarPlusTree.TryTwoToThreeSplitInternalWithRight` | src/index/b_star_plus_tree.cpp:273-358 | succeeds exactly on two full neighbouring inner nodes; they become three with two separators |
| `BStarPlusTree.BStarPlusTree.MakeRoom` | src/index/b_star_plus_tree.cpp:386-410 | after evening out the node holds the same entries and at most one key more, never more than the maximum, and then the child to descend into is not full |
| `BStarPlusTree.BStarPlusTree.InsertRecursive` | src/index/b_star_plus_tree.cpp:368-429 | the subtree, or the two it was split into, holds the old entries with the row added; a node entered with fewer than the maximum of keys is not split |
| `BStarPlusTree.BStarPlusTree.BorrowForLeaf` | src/index/b_star_plus_tree.cpp:442-461 | one entry is lent and the separator moved |
| `BStarPlusTree.BStarPlusTree.BorrowForInternal` | src/index/b_star_plus_tree.cpp:482-504 | one child is rotated through the separator |
| `BStarPlusTree.BStarPlusTree.MergeLeaves` | src/index/b_star_plus_tree.cpp:463-480 | two leaves become one and the chain closes over the gap |
| `BStarPlusTree.BStarPlusTree.MergeInternal` | src/index/b_star_plus_tree.cpp:506-520 | two inner nodes and their separator become one |
| `BStarPlusTree.BStarPlusTree.TryThreeToTwoLeaf` | src/index/b_star_plus_tree.cpp:522-581 | succeeds exactly when three leaves fit into two half-full ones; they are gathered in two |
| `BStarPlusTree.BStarPlusTree.TryThreeToTwoInternal` | src/index/b_star_plus_tree.cpp:583-661 | succeeds exactly when three inner nodes fit into two half-full ones; they are gathered in two |
| `BStarPlusTree.BStarPlusTree.FixChildUnderflow` | src/index/b_star_plus_tree.cpp:663-741 | some repair always succeeds: afterwards every child is at least half full, with the same contents and chain |
| `BStarPlusTree.BStarPlusTree.RemoveRecursive` | src/index/b_star_plus_tree.cpp:743-773 | the subtree holds the old entries without the row and may be one key short; nothing happens if the row is not there |
| `BStarPlusTree.BStarPlusTree.ValidateNode` | src/index/b_star_plus_tree.cpp:813-895 | the recursive check accepts exactly the subtrees that are ordered within their bounds, of equal depth, of the right sizes and strung in order |
| `BStarPlusTree.BStarPlusTree.ValidateCanonicalInvariants` | src/index/b_star_plus_tree.cpp:897-921 | accepts a tree exactly if it is canonical; then lookups and scans are right; every tree that insertions and removals lead to is accepted |
| `BStarPlusTree.BStarPlusTree.HeightIsLogarithmic` | src/index/b_star_plus_tree.cpp:15-21 | a tree of height h >= 1 holds at least 2 * (M/2) * (M/2 + 1)^(h-1) keys |
| `BStarPlusTree.BStarPlusTree.ShapeIsHidden` | src/index/b_star_plus_tree.cpp:783-811 | valid trees with the same content hold the same entries in the same order, whatever their nodes |
| `TreeInsertion.CapacityIsExact` | src/index/b_star_plus_tree.cpp:173-179 | arithmetic of the size formulas: every third of two full nodes is at least half full, and merging a short inner node with a minimal one does not overfill it, exactly for even capacities from 6 on |
| `TreeInsertion.ThirdSizes` | src/index/b_star_plus_tree.cpp:308-315 | each third of two full neighbours is at least half full and not full |
| `TreeDeletion.AlwaysGatherable` | src/index/b_star_plus_tree.cpp:547-558 | if no neighbour can lend, any three children around the short one can be gathered in two |
| `TreeDeletion.RemovedBelow` | src/index/b_star_plus_tree.cpp:743-773 | removing from the routed child is removing from the node, which keeps order, distinct nodes and all sizes but the child's |
| `TreeInsertion.InsertedContents` | src/index/b_star_plus_tree.cpp:368-429 | inserting into the routed child is inserting into the node |
| `TreeValidation.BoundsApart` | src/index/b_star_plus_tree.cpp:813-895 | internal separators need no comparison with the inherited bounds: non-empty leaves force the bounds apart |
| `TreeValidation.PassesIff` | src/index/b_star_plus_tree.cpp:813-895 | the check without the chain decides search order, equal depth and sizes, both directions |
| `TreeValidation.StrungIsLinked` | src/index/b_star_plus_tree.cpp:871-895 | for a search tree the chain that the check follows is the doubly linked list of the in-order leaves, both directions |
| `TreeValidation.CanonicalIff` | src/index/b_star_plus_tree.cpp:897-921 | canonical is the conjunction of what the routine computes |
| `TreeValidation.SizesMean` | src/index/b_star_plus_tree.cpp:818-838 | the sizes are right exactly if every node, by whatever way it is reached from the root, has at most M keys, and at least half of that from depth 2 on |
| `TreeLookup.RangeOfMap` | src/index/b_star_plus_tree.cpp:792-811 | the entries between two bounds, as a map, are the restriction of the content to the keys between them |
| `TreeLookup.FindHits` | src/index/b_star_plus_tree.cpp:783-790 | a key of the responsible leaf has its list there |
| `TreeLookup.FindMisses` | src/index/b_star_plus_tree.cpp:783-790 | a key that the responsible leaf lacks is nowhere in the tree |
| `TreeHeight.HeightBound` | src/index/b_star_plus_tree.cpp:15-21 | by induction on the subtree: the least number of keys at each height |
| `SortedMap.UpsertIsMapInsert` | src/index/b_star_plus_tree.cpp:368-384 | adding to the sorted entries is adding to the map |
| `SortedMap.DropIsMapRemove` | src/index/b_star_plus_tree.cpp:743-760 | dropping from the sorted entries is removing from the map |
| `SortedMap.UpdatesKeepNoRepeats` | src/index/b_star_plus_tree.cpp:37-40 | the lists of row ids never repeat an id |
| `SortedMap.InsertAddsRow` | src/index/b_star_plus_tree.cpp:368-384 | the row is in the new list of the key, the old list is a beginning of it, its length grows by one exactly if the row was absent, and every other key keeps its list |
| `SortedMap.RemoveTakesRow` | src/index/b_star_plus_tree.cpp:743-760 | the list of the key loses the first occurrence of the row and keeps the order of the rest; the key goes exactly if the row was its only one; every other key keeps its list |
| `Keys.RankOrdersLexicographically` | src/index/b_star_plus_tree.cpp:23-35 | byte strings can be embedded in the reals so that their lexicographic order is the numeric one |
| `Values.CompareIsOrder` | src/common/types.cpp:8-22 | if the 64-bit difference does not overflow, the sign of the comparison decides <, == and > |
| `Values.CompareSignExact` | src/common/types.cpp:17-19 | for integers the sign is right if and only if the difference fits in 64 bits |
| `Values.CompareOverflows` | src/common/types.cpp:17-19 | a concrete pair for which the order comes out wrong |
| `Values.EncodeKeepsOrder` | src/execution/execution_engine.cpp:56-72 | index keys are injective and order as their values do |
| `Values.ScanBounds` | src/execution/execution_engine.cpp:436-480 | the bounds used for one-sided scans lie below and above every key they should |
| `Predicates.ScanInOrder` | src/execution/execution_engine.cpp:246-364 | filtering yields the rows at exactly the positions where the clause is evaluated to true, in ascending order; `ClauseMeaning.ScanMeans` says it without the evaluation |
| `ClauseMeaning.ValueMeans` | src/execution/execution_engine.cpp:366-390 | an operand is evaluated to a value exactly if it is that literal, or a column whose first occurrence holds the value in the row |
| `ClauseMeaning.HoldsMeans` | src/execution/execution_engine.cpp:280-301 | each of =, !=, <, >, <=, >= is decided as the mathematical relation between the two values, orderings as long as the difference does not overflow |
| `ClauseMeaning.ClauseMeans` | src/execution/execution_engine.cpp:246-364 | a clause is evaluated exactly if its columns exist and it compares values of one type; then AND, OR, comparisons, BETWEEN (lower bound included, upper one not) and plain operands are true exactly if what they say of the row's values is |
| `ClauseMeaning.ScanMeans` | src/execution/execution_engine.cpp:246-364 | filtering answers the rows, in their order, at exactly the positions of which the clause is true |
| `FailureMeaning.ClauseFails` | src/execution/execution_engine.cpp:246-364 | a clause fails exactly if an operand or a comparison in it is at fault, with the error of the leftmost one |
| `FilterRows.IndexPathIsScan` | src/execution/execution_engine.cpp:392-561 | looking up the ids between two keys and filtering their rows gives the scan's rows, ascending by the column |
| `FilterRows.PassingIsWithin` | src/execution/execution_engine.cpp:436-530 | a row that satisfies ==, <, <=, >, >= or BETWEEN has its key in the chosen range, and the clause fails on no row |
| `FilterRows.AccessAnswers` | src/execution/execution_engine.cpp:392-561 | the chosen access path together with the clause answers what the scan answers |
| `FilterRows.AnswerMeans` | src/execution/execution_engine.cpp:392-561 | what the index path answers are exactly the rows whose column value is in the clause's relation to its literals, for =, <, <=, >, >= and BETWEEN |
| `FilterRows.FilterRows` | src/execution/execution_engine.cpp:392-561 | the index path is taken exactly when a covered comparison names an indexed column; it answers exactly the rows whose value in that column stands in the clause's relation to the literal, ascending by the column; otherwise the answer is the rows of which the clause is true, in their order, or the scan's error |
| `TableStore.TableHeap.Insert` | src/storage/table_heap.cpp:10-18 | the row goes last with a new or given id and the counter stays beyond it |
| `TableStore.TableHeap.ReplaceAll` | src/storage/table_heap.cpp:32-40 | the counter becomes one more than the greatest id left |
| `TableStore.TableHeap.FindByRowId` | src/storage/table_heap.cpp:22-30 | finds a row of that id if and only if there is one |
| `TableStore.VersionStore.Append` | src/versioning/version_store.cpp:11-17 | the history of one table grows by the event and no other history changes |
| `TableStore.VersionStore.HistoryForTable` | src/versioning/version_store.cpp:29-40 | the events of the table, in order |
| `TableStore.VersionStore.LatestTimestampForTable` | src/versioning/version_store.cpp:42-55 | the greatest recorded time of the table |
| `TableStore.VersionStore.LatestTimestampAtOrBefore` | src/versioning/version_store.cpp:57-72 | the greatest recorded time not after the given one |
| `TableStore.VersionStore.HasExactTimestampForTable` | src/versioning/version_store.cpp:74-85 | whether something was recorded exactly then |
| `TableStore.LogsOnlyHere` | src/versioning/version_store.cpp:11-17 | records added for one table are its new events in order and leave every other history alone |
| `History.LatestIsGreatest` | src/versioning/version_store.cpp:57-72 | the time found is recorded, not after the given one, and no recorded time lies between |
| `History.PastIsFixed` | src/execution/execution_engine.cpp:195-244 | what is recorded later does not change a replay as of an earlier time |
| `History.LastDecides` | src/execution/execution_engine.cpp:195-232 | as of any time, a row is what the last event about it up to then has left: its after-image, or nothing after a deletion or after the creation or removal of the table |
| `History.NoneDecides` | src/execution/execution_engine.cpp:195-232 | a row that no event up to then is about is not there |
| `TableStatements.BuildAgrees` | src/execution/execution_engine.cpp:109-148 | an index built from rows with distinct keys is exactly the map from key to owner |
| `TableStatements.InsertKeeps` | src/execution/execution_engine.cpp:773-831 | INSERT keeps heap, indexes and history in step, even when it stops at a rejected row |
| `StatementMeaning.ValidatedMeans` | src/execution/execution_engine.cpp:81-107 | validation puts defaults in place of NULLs and succeeds exactly if then every column can hold its value: NULL unless NOT NULL or indexed, else a value of its type |
| `StatementMeaning.ConformsMeans` | src/execution/execution_engine.cpp:96-105 | a row fits its schema exactly if each column can hold its value |
| `StatementMeaning.InsertOneMeans` | src/execution/execution_engine.cpp:773-816 | a row is accepted exactly if every column can hold what it gets, no indexed column is NULL, and no row there has the same value in an indexed column |
| `StatementMeaning.InsertMeans` | src/execution/execution_engine.cpp:755-832 | INSERT appends, with ids counting up from the counter, the rows that its input rows give by column name, NULL elsewhere and defaults filled in, up to the first one turned down, and records each |
| `StatementMeaning.PlacedMeans` | src/execution/execution_engine.cpp:760-790 | an input row gives each column the literal of the last listed name that is the column, and NULL to the others; it is refused exactly if it has something else than literals |
| `FailureMeaning.UnknownColumnFails` | src/execution/execution_engine.cpp:760-771 | an INSERT that names an unknown column fails and does nothing |
| `FailureMeaning.InsertStops` | src/execution/execution_engine.cpp:773-831 | an INSERT that fails has inserted the input rows before the one at fault, which has something else than literals or which the table cannot take then; the error says which |
| `TableChanges.UpdateKeeps` | src/execution/execution_engine.cpp:863-922 | a successful UPDATE keeps heap, indexes and history in step |
| `StatementMeaning.AssignedMeans` | src/execution/execution_engine.cpp:881-898 | assignments take effect one after another: each sets the first column of its name to what its expression stands for on the row before it |
| `StatementMeaning.AssignedIf` | src/execution/execution_engine.cpp:881-898 | assignments succeed exactly if their columns exist and their expressions are literals or existing columns |
| `StatementMeaning.LastAssignmentCounts` | src/execution/execution_engine.cpp:881-898 | a column holds the value of the last assignment to it, evaluated on the row as the earlier ones left it; a column without one keeps its value |
| `StatementMeaning.CanRebuildMeans` | src/execution/execution_engine.cpp:109-148 | indexes can be rebuilt exactly if no indexed column is NULL and no two rows share the value of one |
| `StatementMeaning.UpdateMeans` | src/execution/execution_engine.cpp:863-922 | after a successful UPDATE every row of which the clause is true holds the assigned values, defaults in place of NULLs; every other row is unchanged; one change per such row is recorded, with these images, in order |
| `FailureMeaning.UpdateEnds` | src/execution/execution_engine.cpp:863-922 | an UPDATE that can update every row succeeds exactly if no indexed column becomes NULL and no two rows come to share the value of one; otherwise the table keeps its rows |
| `FailureMeaning.UpdateStops` | src/execution/execution_engine.cpp:863-922 | an UPDATE stops with the error of the first row that cannot be updated, having recorded the changes of the rows before it and changed nothing else |
| `FailureMeaning.UpdatedFails` | src/execution/execution_engine.cpp:863-908 | the error of a row that cannot be updated: the clause's, else that of the first assignment at fault, else that a column cannot hold what it gets |
| `FailureMeaning.AssignedFails` | src/execution/execution_engine.cpp:881-898 | assignments fail with the error of the first one that is at fault |
| `TableChanges.DeleteNeverConflicts` | src/execution/execution_engine.cpp:957-986 | the rebuild after a DELETE never finds a duplicate or a NULL |
| `TableChanges.DeleteConsistent` | src/execution/execution_engine.cpp:957-986 | a DELETE keeps heap, indexes and history in step |
| `StatementMeaning.DeleteMeans` | src/execution/execution_engine.cpp:957-986 | after a successful DELETE the rows left are exactly those of which the clause is false, in order; one change per other row is recorded, holding that row |
| `StatementMeaning.DeleteLeavesNone` | src/execution/execution_engine.cpp:957-986 | no row that is left satisfies the clause, and a DELETE without a clause leaves none |
| `FailureMeaning.DeleteStops` | src/execution/execution_engine.cpp:957-986 | a DELETE fails with the first fault of its clause on the first row on which it has one, having changed nothing but the history |
| `FailureMeaning.DeleteEnds` | src/execution/execution_engine.cpp:957-986 | a DELETE whose clause has no fault on any row succeeds |
| `TableRevert.RevertIsTimeTravel` | src/execution/execution_engine.cpp:1169-1264 | after REVERT to t the heap is the replay up to t, the full replay agrees again, and replays of earlier times are unchanged |
| `TableRevert.RevertLatestIsIdle` | src/execution/execution_engine.cpp:1169-1264 | REVERT LATEST changes nothing and records nothing |
| `TableRevert.TargetMeans` | src/execution/execution_engine.cpp:1169-1200 | REVERT goes back to the greatest recorded time not after the given one, to exactly the given one if something was recorded then, or to the greatest of all; both directions, and when there is none |
| `FailureMeaning.RevertFails` | src/execution/execution_engine.cpp:1171-1262 | which error REVERT answers and when: no such time, a malformed time or rows of another width leave everything as it was; NULLs or repetitions in indexed columns leave all but the history |
| `TableRevert.RevertToBoundary` | src/execution/execution_engine.cpp:1169-1264 | REVERT to a statement boundary never reports a duplicate and restores rows, counter and indexes of that boundary exactly |
| `TableRevert.DeltaReachesTarget` | src/execution/execution_engine.cpp:1218-1253 | the recorded delta, in any order, leads from the current rows to the target |
| `TableRuns.RunSound` | src/execution/execution_engine.cpp:773-986 | over every run: replaying the history gives the heap, every index is exactly the map from value to owner, ids ascend, the counter is one beyond the greatest |
| `TableRuns.RevertInRun` | src/execution/execution_engine.cpp:1169-1264 | in every run, from any state, REVERT to any earlier boundary succeeds and restores it; reverting forward again is the same with a later boundary |
| `TableEffects.EffectAlike` | src/execution/execution_engine.cpp:773-986 | on tables that differ in their histories only, and whatever the clock, INSERT, UPDATE and DELETE answer alike and record the same changes |
| `TableEffects.EffectIntact` | src/execution/execution_engine.cpp:773-1264 | every statement, failed ones included, leaves exact indexes, ascending ids and the right counter |
| `TableEffects.FailedWithoutTrace` | src/execution/execution_engine.cpp:755-1264 | a failed INSERT, UPDATE, DELETE or REVERT leaves the table as it was if and only if it had nothing to record: unknown columns or a rejected first row; every row that it would change comes after one at which it stops; no target, a misshapen one or an empty delta |
| `TableEffects.FailsExactly` | src/execution/execution_engine.cpp:755-1264 | whether a statement fails is decided by the table before it: an unknown column or rejected row, an error in the sweep or rows that cannot be indexed after it, no target or a misshapen one |
| `TableRuntime.TableRuntime.constructor` | src/execution/execution_engine.cpp:668-700 | CREATE TABLE leaves an empty heap, empty indexes and one recorded event |
| `TableRuntime.TableRuntime.Insert` | src/execution/execution_engine.cpp:755-832 | heap, indexes and history become what inserting the rows one by one, up to the first rejected one, makes of them |
| `TableRuntime.TableRuntime.ValidateRowAgainstSchema` | src/execution/execution_engine.cpp:81-107 | NULLs give way to defaults, then types and NULL constraints decide, column by column |
| `TableRuntime.TableRuntime.RebuildIndexes` | src/execution/execution_engine.cpp:109-148 | succeeds exactly if no indexed value is NULL or repeated; otherwise the old indexes stay |
| `TableRuntime.TableRuntime.Update` | src/execution/execution_engine.cpp:863-922 | sweep, recorded changes and rebuild give the specified outcome, also when they stop half-way |
| `TableRuntime.TableRuntime.Delete` | src/execution/execution_engine.cpp:957-986 | sweep, recorded changes and rebuild give the specified outcome, also when they stop half-way |
| `TableRuntime.TableRuntime.ReconstructTableStateAt` | src/execution/execution_engine.cpp:195-244 | the replayed rows, sorted by id |
| `TableRuntime.TableRuntime.RowValuesEqual` | src/execution/execution_engine.cpp:157-172 | true exactly for equal values, in spite of the wrapping subtraction |
| `TableRuntime.TableRuntime.RecordDelta` | src/execution/execution_engine.cpp:1218-1253 | one change for every row that differs and no other |
| `TableRuntime.TableRuntime.Revert` | src/execution/execution_engine.cpp:1169-1264 | the outcome that the specification of REVERT allows, errors included |
| `TableRuntime.TableRuntime.Clone` | src/core/runtime_state.cpp:43-87 | rows and ids are copied, the counter is one beyond the greatest id, the indexes are those of the rows |
| `TableRuntime.TableRuntime.ValidateIndexConsistency` | src/core/runtime_state.cpp:104-152 | passes exactly if every indexed value is held once and found |
| `TableRuntime.TableRuntime.RebuildAndCheck` | src/core/runtime_state.cpp:154-186 | indexes become those of the rows; answers whether the check passes |
| `IndexTrees.BuildTree` | src/core/runtime_state.cpp:154-183 | inserting the rows one after another makes a valid tree whose content is the table's index; the index path of SELECT can use it |
| `IndexTrees.CheckTree` | src/core/runtime_state.cpp:104-152 | the check of one index, the tree's own invariants included, passes exactly if the tree is canonical and every row is the only one under its key and found; on a valid tree the self-check never decides |
| `IndexTrees.RebuildAndCheckTree` | src/core/runtime_state.cpp:154-186 | rebuilding a tree and checking it succeeds exactly if no two rows share a key |
| `TableRuntime.TableRuntime.ConsistentMeansExact` | src/core/runtime_state.cpp:43-186 | on consistent tables a clone is exact, CHECK INDEX passes and REBUILD INDEX changes nothing |
| `Databases.PerformsIntact` | src/execution/execution_engine.cpp:572-1290 | every statement keeps every table intact and only adds to the log |
| `Databases.PerformsTimeless` | src/execution/execution_engine.cpp:752-986 | on states that differ in recorded times only, a modification answers alike and leaves states that differ in recorded times only |
| `Databases.FailingExactly` | src/execution/execution_engine.cpp:752-1264 | whether a modification fails is decided by the state before it |
| `Databases.FailedModification` | src/execution/execution_engine.cpp:752-1264 | a modification that fails leaves the whole state as it was if and only if it names no table or had nothing to record |
| `Databases.ResolveMeans` | src/execution/execution_engine.cpp:740-758 | a table name stands for the table of that name in the given database, or else in the current one, and nothing else |
| `Databases.UseMeans` | src/execution/execution_engine.cpp:605-616 | after USE, names without a database stand for tables of the named one; an unknown one is an error that changes nothing |
| `Databases.UnknownTable` | src/execution/execution_engine.cpp:740-758 | a modification of an unknown table, or without any database, is refused with the right error and changes nothing |
| `Workspace.Workspace.Execute` | src/execution/execution_engine.cpp:572-1290 | one statement on the objects of a whole state has the specified outcome |
| `Workspace.Workspace.ModifyTarget` | src/execution/execution_engine.cpp:752-986 | only the named table and its records change; unknown databases and tables are errors that change nothing |
| `Workspace.Workspace.ModifyTable` | src/execution/execution_engine.cpp:755-1264 | INSERT, UPDATE, DELETE or REVERT has the outcome of its specification |
| `Workspace.Workspace.ValidateRuntimeIndexConsistency` | src/core/runtime_state.cpp:104-152 | always passes |
| `Workspace.Workspace.RebuildRuntimeIndexes` | src/core/runtime_state.cpp:154-186 | always passes and changes nothing |
| `Workspace.Workspace.Clone` | src/core/runtime_state.cpp:89-102 | a copy that shares no object with the original and has exactly its tables, ids, counters, indexes and records |
| `Transactions.TransactionsArePrivate` | src/core/dbms_engine.cpp:100-123 | no request changes what another session sees inside its transaction; inside a transaction nothing but COMMIT changes what others see, or the files |
| `Transactions.RolledBackIsInvisible` | src/core/dbms_engine.cpp:83-97 | in any interleaving the requests of a session that only rolls back can be left out: every other request is answered alike, and the end is the same |
| `Transactions.KeyIsClient` | src/core/dbms_engine.cpp:184-190 | two sessions share a transaction exactly if they have the same client id, none at all counting as the default one |
| `Transactions.ClientsArePrivate` | src/core/dbms_engine.cpp:100-123 | no request of one client changes what another client's open transaction consists of; inside a transaction nothing but COMMIT changes what another client reads |
| `Transactions.RolledBackClientIsInvisible` | src/core/dbms_engine.cpp:83-97 | the requests of a client that only rolls back can be left out of any run: every other client's requests are answered alike |
| `Transactions.ControlMeans` | src/core/dbms_engine.cpp:32-97 | BEGIN opens a transaction on the shared state exactly if the session has none, COMMIT and ROLLBACK end the one it has; otherwise they are refused without effect |
| `Transactions.NotedMeans` | src/core/dbms_engine.cpp:99-123 | inside a transaction exactly the modifications that succeed are noted for the log; creating, dropping, checking and rebuilding are refused |
| `Transactions.FilesMean` | src/core/dbms_engine.cpp:50-147 | something is written exactly for COMMIT, and outside a transaction for modifications and rebuilds, that succeed; then the data file holds the shared state, and a log that is not to be written is left alone |
| `Transactions.TransactionIsDirect` | src/core/dbms_engine.cpp:100-123 | what a transaction has made of its private copy is what its statements make when run directly, with the same answers |
| `Transactions.CommitMeansStatements` | src/core/dbms_engine.cpp:32-81 | BEGIN, statements, COMMIT alone end in the same rows, ids, counters, indexes and events as the statements run directly, failing ones included |
| `Transactions.EveryDirectRunAgrees` | src/core/dbms_engine.cpp:32-81 | every direct run of the same statements, by whatever engine and with whatever clocks, ends in the state that COMMIT publishes, times aside, and answers alike |
| `DbmsEngine.DbmsEngine.Begin` | src/core/dbms_engine.cpp:32-48 | a private clone equal to the shared state; an error if the session has a transaction |
| `DbmsEngine.DbmsEngine.Commit` | src/core/dbms_engine.cpp:50-81 | the private state becomes the shared one; block to the log, save, new log, in that order |
| `DbmsEngine.DbmsEngine.Rollback` | src/core/dbms_engine.cpp:83-97 | the transaction is gone and nothing else has changed |
| `DbmsEngine.DbmsEngine.ExecuteInside` | src/core/dbms_engine.cpp:99-123 | only the transaction's own objects change; DDL and index services are refused; successful modifications are noted for the log |
| `DbmsEngine.DbmsEngine.ExecuteDirectly` | src/core/dbms_engine.cpp:125-147 | the shared objects change; a successful modification is logged, saved and struck from the log, in that order |
| `DbmsEngine.DbmsEngine.ExecuteSqlImpl` | src/core/dbms_engine.cpp:22-148 | the answer, the new state and every state of the files in between are those of the specification; transactions stay disjoint from each other and from the shared objects |
| `DbmsEngine.DbmsEngine.ExecuteSql` | src/core/dbms_engine.cpp:17-20 | the same for a session's request, which is written to the log |
| `DbmsEngine.DbmsEngine.ReplayWal` | src/core/dbms_engine.cpp:192-234 | the recovery session runs the entries in order until one fails, rolls a failing transaction back, and starts the log over if all succeed |
| `DbmsEngine.DbmsEngine.Start` | src/core/dbms_engine.cpp:7-15 | start-up from the files: replay, and a log that is malformed or fails is set aside |
| `TextLines.UnescapeEscape` | src/core/wal_manager.cpp:145-172 | unescaping undoes escaping, for every string |
| `TextLines.CutJoined` | src/core/wal_manager.cpp:52-113 | whole lines appended to a file are read back as these lines |
| `WriteAheadLog.WalManager.AppendSql` | src/core/wal_manager.cpp:21-32 | header if the file is empty, then one escaped line |
| `WriteAheadLog.WalManager.AppendTransaction` | src/core/wal_manager.cpp:34-50 | header if the file is empty, then the block of the transaction |
| `WriteAheadLog.WalManager.LoadAll` | src/core/wal_manager.cpp:52-113 | false exactly if the file is malformed; else its entries, without a transaction that is not finished |
| `WriteAheadLog.WalManager.QuarantineCorrupted` | src/core/wal_manager.cpp:125-143 | the malformed file is out of the way and an empty log is there |
| `WriteAheadLog.TornTransaction` | src/core/wal_manager.cpp:34-113 | cut an appended transaction, of statements without newlines, off at any byte: loading yields the old entries or finds the file malformed, and the whole transaction only if no more than the last newline is missing |
| `WriteAheadLog.NewlineTearsTransaction` | src/core/wal_manager.cpp:34-113 | a transaction with a newline in its statement, and the cut at which a transaction with the beginning of the statement is loaded instead |
| `WriteAheadLog.TornStatement` | src/core/wal_manager.cpp:21-113 | a single statement, without newlines, lacks this: cut off anywhere, either the old entries are loaded, or the file is malformed, or the whole statement, or a proper prefix of it as a statement |
| `WriteAheadLog.StatementCutIsAtomic` | src/core/wal_manager.cpp:21-113 | for every cut, if the statement has no newline: the old entries, nothing because the file is malformed, or the whole statement is loaded if and only if the cut lies before the end of the tag or leaves out at most the last newline |
| `WriteAheadLog.AnyBeginningIsLoaded` | src/core/wal_manager.cpp:21-113 | for every statement in one line and every beginning of it there is a cut at which exactly that beginning is loaded as a statement |
| `WriteAheadLog.TornStatementExample` | src/core/wal_manager.cpp:21-113 | a concrete statement and cut at which another, shorter statement is loaded |
| `WriteAheadLog.StatementSurvives` | src/core/wal_manager.cpp:21-32 | an appended statement is loaded as it was if and only if it contains no newline |
| `WriteAheadLog.TransactionSurvives` | src/core/wal_manager.cpp:34-50 | an appended transaction is loaded as it was if and only if no statement contains a newline |
| `WriteAheadLog.LoadedArePlain` | src/core/wal_manager.cpp:52-113 | no loaded statement contains a newline |
| `WriteAheadLog.MalformedExactly` | src/core/wal_manager.cpp:52-113 | a log is malformed exactly if its first line is no header of version 1 or 2 or some other line is out of place: a transaction begun in another, its statements or end outside one, a single statement inside one, or anything else |
| `WriteAheadLog.HeaderMeans` | src/core/wal_manager.cpp:62-68 | the headers are those of versions 1 and 2 |
| `Recovery.SyncedStep` | src/core/dbms_engine.cpp:50-147 | memory, data file and log stay in step if and only if the request is no modification outside a transaction that, on the state before it, fails and has something to record first |
| `Recovery.FailedInsertIsNotSaved` | src/core/dbms_engine.cpp:125-147 | for instance a two-row INSERT whose second row repeats the first: the first row is in memory and in no file |
| `Recovery.LogIsTexts` | src/core/dbms_engine.cpp:118-121 | what a transaction notes for the log is its statements in order |
| `Recovery.ReplayFollows` | src/core/dbms_engine.cpp:213-230 | the replay of a logged transaction follows it statement by statement without errors, whatever the clocks |
| `Recovery.CommitIsAtomic` | src/core/dbms_engine.cpp:58-75 | a crash at any byte of the appended block, or after it and before the save, recovers to the committed state (times aside) or exactly to the state before |
| `Recovery.StatementRecovers` | src/core/dbms_engine.cpp:134-139 | a crash at any byte of a statement's append, or after it and before the save: start-up makes the state after the statement if at most the last newline is missing, the state before it if the tag is incomplete, and otherwise what running a proper beginning of the statement makes of it |
| `Recovery.StatementIsDurable` | src/core/dbms_engine.cpp:134-139 | a crash after a statement's append and before the save recovers to the state after it, times aside |
| `Recovery.CommitWrites` | src/core/dbms_engine.cpp:58-75 | COMMIT writes its block, the state and an empty log, in that order; a crash after the first or third write recovers to the committed state, after the second one start-up begins with the committed state and runs the block again |
| `Recovery.StatementWrites` | src/core/dbms_engine.cpp:134-143 | the same for the three writes of a modification outside a transaction |
| `NullDefaults.EffectIgnoresNullDefaults` | src/execution/execution_engine.cpp:81-107 | no INSERT, UPDATE, DELETE or REVERT has another outcome if columns with DEFAULT NULL declare nothing |
| `NullDefaults.ScanIgnoresNullDefaults` | src/execution/execution_engine.cpp:246-364 | a filter answers the same rows, and fails alike, if columns with DEFAULT NULL declare nothing |
| `NullDefaults.AnswersForgetful` | src/core/dbms_engine.cpp:22-148 | an engine that has forgotten the defaults of NULL gives every modification and control statement the same answer and stays the same otherwise |
| `NullDefaults.RunForgetful` | src/core/dbms_engine.cpp:22-148 | so does it over any interleaving of sessions |
| `RecoveredFiles.WrittenMeans` | src/core/runtime_persistence.cpp:263-397 | the text of the two files of any reachable state without newlines in strings means that state, defaults of NULL aside |
| `RecoveredFiles.CommitIsAtomicInFiles` | src/core/dbms_engine.cpp:7-75 | from the text of the files that a crash leaves at any byte of the appended block, start-up makes the committed state or exactly the state before, defaults of NULL and, if committed, times aside |
| `RecoveredFiles.StatementRecoversInFiles` | src/core/dbms_engine.cpp:134-139 | the same for a single statement at any byte of its append: the state after it, the state before it, or what running a proper beginning of it makes of the loaded state |
| `RecordText.SplitByTab` | src/core/runtime_persistence.cpp:153-177 | the fields of a line |
| `RecordText.SplitTabbed` | src/core/runtime_persistence.cpp:153-177 | splitting a line gives back the fields it was joined from, tabs and backslashes in them included |
| `RecordText.FindFieldValue` | src/core/runtime_persistence.cpp:38-52 | the value of the first field with that key |
| `RecordText.PairParses` | src/core/runtime_persistence.cpp:27-36 | key and value are told apart at the first equals sign |
| `RecordText.DecodeEncode` | src/core/runtime_persistence.cpp:179-230 | every value is decoded as what was encoded |
| `RecordText.ReadsInt` | src/core/runtime_persistence.cpp:179-230 | every 64-bit integer is read back from its decimal text |
| `RecordText.ReadsNumber` | src/core/runtime_persistence.cpp:179-230 | a text of spaces, a sign or none, and digits is read as that number, up to the first other character |
| `RecordText.NumberReads` | src/core/runtime_persistence.cpp:179-230 | no other text is read as a number |
| `RecordFields.KindReads` | src/core/runtime_persistence.cpp:78-122 | every kind of change is read back from its name |
| `RecordFields.ColumnReads` | src/core/runtime_persistence.cpp:489-592 | a column is read back from its record; DEFAULT NULL reads as no default |
| `RecordFields.ValuesRead` | src/core/runtime_persistence.cpp:594-660 | the values of a row are read back, after whatever other fields |
| `StateFile.TableTaken` | src/core/runtime_persistence.cpp:454-677 | the lines of a table add the table: columns, rows with ids, counter, indexes |
| `StateFile.LoadInvertsSave` | src/core/runtime_persistence.cpp:263-322 | loading the saved lines gives everything back, in whatever order the hash maps were written |
| `HistoryFile.EventRead` | src/core/runtime_persistence.cpp:710-848 | the block of a change is read back as the change |
| `HistoryFile.LoadInvertsSave` | src/core/runtime_persistence.cpp:333-397 | the whole history is read back in order |
| `HistoryFile.LoadedInBlocks` | src/core/runtime_persistence.cpp:684-853 | a history that is loaded consists of whole blocks, each begun outside another, with columns and images only inside, one for each record |
| `HistoryFile.OtherFormatRefused` | src/core/runtime_persistence.cpp:423-432 | a file that names another format is refused |
| `RuntimePersistence.LoadInvertsSave` | src/core/runtime_persistence.cpp:263-860 | loading both saved files succeeds, passes the index check, and gives back databases, schemas, rows, ids, counters, indexes and events |
| `RuntimePersistence.StateExactlyWhen` | src/core/runtime_persistence.cpp:263-322 | the state comes back exactly as saved if and only if no column declares DEFAULT NULL and no string in it contains a newline |
| `RuntimePersistence.HistoryExactlyWhen` | src/core/runtime_persistence.cpp:333-397 | the change log comes back exactly as saved if and only if no string in it contains a newline, no recorded schema declares DEFAULT NULL and none is without columns |
| `RuntimePersistence.ExactExactlyWhen` | src/core/runtime_persistence.cpp:263-397 | both files together give back exactly what was saved if and only if both conditions hold |
| `RuntimePersistence.FindsEveryMeans` | src/core/runtime_persistence.cpp:855-858 | the index check at the end of loading passes, for a column without NULLs, exactly if no two rows share a value and each value is listed with its row and no other |
| `RuntimePersistence.NullDefaultIsLost` | src/core/runtime_persistence.cpp:284-299 | a concrete table that comes back without its DEFAULT NULL |
| `RuntimePersistence.NewlineIsLost` | src/core/runtime_persistence.cpp:302-318 | a concrete table, with a newline in a row, that does not come back |
| `StateFile.LoadedStatePlain` | src/core/runtime_persistence.cpp:399-677 | no string of a loaded state contains a newline, whatever the file |
| `HistoryFile.LoadedHistoryPlain` | src/core/runtime_persistence.cpp:680-860 | no string of a loaded change log contains a newline, whatever the file |
| `RuntimePersistence.IntactIsStorable` | src/core/runtime_persistence.cpp:263-397 | every state that statements lead to can be saved and loaded, if no string contains a newline |
| `RuntimePersistence.RuntimePersistence.Save` | src/core/runtime_persistence.cpp:263-397 | both files hold the lines of the state and of the log, in some order that lists every database and table once |
| `RuntimePersistence.RuntimePersistence.Load` | src/core/runtime_persistence.cpp:399-860 | what loading makes of the files: untouched without a state file, an empty log without a history file, false on malformed files or failing indexes |
| `TwoPhaseCommit.RunKeepsInv` | src/server/entrypoint.cpp:480-561 | every step of any interleaving keeps what messages, nodes and coordinators know of each other |
| `TwoPhaseCommit.CommitOnlyAfterAllPrepared` | src/server/entrypoint.cpp:1920-1952 | COMMIT is sent, and a statement run, only after every node has answered PREPARE with 200 |
| `TwoPhaseCommit.FailedPrepareNeverExecutes` | src/server/entrypoint.cpp:1932-1940 | once a PREPARE has failed no node ever runs the transaction |
| `TwoPhaseCommit.ExecutesAtMostOnce` | src/server/entrypoint.cpp:520-545 | no node runs a transaction twice |
| `TwoPhaseCommit.AnswerMeansExecuted` | src/server/entrypoint.cpp:1944-1952 | the answer 200 means that every node has run it, successfully and exactly once, for good |
| `TwoPhaseCommit.HeldAfterRefusal` | src/server/entrypoint.cpp:1932-1940 | once a transaction is refused and none of its requests is on its way, exactly these nodes still hold it: those whose ABORT was lost, and the one whose PREPARE failed for the coordinator if it had agreed |
| `TwoPhaseCommit.LostAnswerHolds` | src/server/entrypoint.cpp:1932-1940 | a concrete run in which a node holds a refused transaction for good because its answer was lost |
| `ClusterCommands.ParseAfterRender` | src/server/entrypoint.cpp:1930-1946 | a node reads every request as it was meant, whatever the statement contains |
| `ClusterCommands.StorageNode.ParseClusterCommand` | src/server/entrypoint.cpp:480-561 | the node's state and answer are those of its step in the protocol; malformed commands change nothing |
| `ClusterCommands.ExecuteTwoPhaseCommit` | src/server/entrypoint.cpp:1920-1952 | the coordinator's loop takes only steps of the protocol; 200 means every target has run the transaction once, a refusal that none has; with distinct nodes it answers 200 exactly if every PREPARE and every COMMIT was served, and otherwise names the first request that was not |
| `ClusterCommands.AbortPrepared` | src/server/entrypoint.cpp:1932-1939 | ABORT goes to every node that answered its PREPARE, whatever they reply |
| `ShardRouting.PassingRowHasValue` | src/server/entrypoint.cpp:1271-1312 | a row that satisfies the clause has the extracted value in its shard key column |
| `ShardRouting.ShardKeyMeans` | src/server/entrypoint.cpp:1256-1270 | the shard key is the first indexed integer column, or the first indexed column if no integer one is indexed |
| `ShardRouting.OthersHaveNone` | src/server/entrypoint.cpp:1329-1376 | when a query is routed to one node and rows are where their shard keys hash to, no other node has a row that satisfies it |
| `ShardRouting.TargetedSeesAll` | src/server/entrypoint.cpp:1329-1376 | then a targeted query answers exactly what a fan-out over the cluster would |
| `ShardRouting.FanOutMore` | src/server/entrypoint.cpp:1837-1889 | a fan-out to one more node adds that node's answer, or fails if the node does |
| `ShardRouting.SplitInsertByShard` | src/server/entrypoint.cpp:1540-1593 | every input row goes to exactly the node that its shard key hashes to; refused exactly if the table has no shard key, the column list does not name it, a row is too short for it, or a row has something else than literals |
| `ShardRouting.SharesAddUp` | src/server/entrypoint.cpp:1571-1593 | no input row is lost and none is sent twice |
| `ShardRouting.ShareConcat` | src/server/entrypoint.cpp:1571-1593 | a share keeps the order of the input rows |
| `ShardRouting.UpdateStaysPlaced` | src/server/entrypoint.cpp:1314-1327 | an UPDATE that does not assign the shard key leaves every row where it belongs |
| `ShardedCluster.RefusedExactly` | src/server/entrypoint.cpp:378-435 | UPDATE and DELETE are refused if and only if they have a clause, and the table has no shard key or no part of the clause joined by AND is an equation of the shard key with a literal |
| `ShardedCluster.SentToOne` | src/server/entrypoint.cpp:1271-1376 | a statement goes to the node of the value to which the first part of its clause that fixes the shard key fixes it |
| `ShardedCluster.SentEverywhere` | src/server/entrypoint.cpp:367-435 | a query goes everywhere exactly if no part of its clause fixes the shard key, a modification exactly if it has no clause |
| `ShardedCluster.TwoValuesRefused` | src/server/entrypoint.cpp:378-435 | for instance a clause that names two values of the shard key is refused, and one that names one goes to one node |
| `ShardedCluster.RunSettles` | src/server/entrypoint.cpp:367-435 | over every run of sharded INSERTs, UPDATEs, DELETEs and REVERTs, from empty nodes, reaching all nodes or some: every row that a node holds or has held belongs there |
| `ShardedCluster.TargetedInRun` | src/server/entrypoint.cpp:1329-1376 | in every state of a run, a query that is sent to one node answers exactly what a fan-out over the cluster would |
| `ShardedCluster.TargetedChangesAll` | src/server/entrypoint.cpp:412-430 | in every state of a run, an UPDATE or DELETE that is sent to one node would change nothing on any other node that can evaluate it |
| `ShardedCluster.SentWhereItBelongs` | src/server/entrypoint.cpp:1458-1477 | the node that a shard key is sent to is the one of the value stored there, for every hash, if and only if it contains no backslash or quote |
| `ShardedCluster.BackslashStrays` | src/server/entrypoint.cpp:1458-1593 | a concrete INSERT after which a row is not where its shard key hashes to |
| `RenderedLiterals.RenderString` | src/server/entrypoint.cpp:1465-1476 | quotes and backslashes get a backslash before them |
| `RenderedLiterals.ReadString` | src/parser/lexer.cpp:27-42 | a string token ends behind the first quote that no backslash precedes |
| `RenderedLiterals.TokenIsLexable` | src/parser/lexer.cpp:27-42 | the contents that string tokens inside a statement can have: every quote follows a backslash, and the last character is none |
| `RenderedLiterals.RenderedReads` | src/server/entrypoint.cpp:1458-1477 | a rendered string is read as one token whatever follows; it is read as itself if and only if it contains no backslash |
| `Base64Url.Base64UrlEncode` | src/catalog/rbac.cpp:644-682 | three-byte blocks and a last one or two bytes are written as their six-bit digits |
| `Base64Url.Base64UrlDecode` | src/catalog/rbac.cpp:684-714 | the decoder computes its specification, digit by digit |
| `Base64Url.RoundTrip` | src/catalog/rbac.cpp:644-714 | decoding the encoding of any byte string gives it back, although the accumulator wraps at 32 bits |
| `Base64Url.CharOfIsAlphabet` | src/catalog/rbac.cpp:27 | the alphabet is A-Z, a-z, 0-9, - and _, in this order |
| `Base64Url.Vectors` | src/catalog/rbac.cpp:644-682 | test vectors of the standard for each length of the tail, and the two characters that differ from plain Base64 |
| `Base64Url.BlockReadsBack` | src/catalog/rbac.cpp:692-706 | four digits give back three bytes whatever the accumulator held |
| `Base64Url.RejectsOnlyForeignCharacters` | src/catalog/rbac.cpp:697-710 | a text is rejected if and only if it has a character outside the alphabet: the test for one, three or five unused bits never fires |

## Left out

- SELECT lists, aggregates, LIKE, USE resolution in the planner, lexer and parser: statements start parsed; LIKE depends on a regular expression library, so the clauses of `ClauseMeaning` are those without it.
- What SELECT answers inside the engine: `FilterRows` covers its filter, `Databases` only that it changes nothing.
- CREATE and DROP of databases and tables as requests: only their refusal inside a transaction and the state that CREATE TABLE leaves; the engine's requests run on a fixed set of tables.
- Odd capacities and capacities below 6: not proved there; the size formulas fail, but no tree is shown to lose its sizes.
- Null child pointers and empty trees with zero thirds, against which the tree code guards: no tree that it builds has them.
- Table indexes as trees inside `TableRuntime`: indexes are maps there, which is what the tree is proved to hold; `IndexTrees` builds and checks the trees of a table's rows, `FilterRows` uses them.
- TableRuntime.TableRuntime.ValidateIndexConsistency: leaves out the self-check of the trees, which `IndexTrees.CheckTree` includes and shows to pass on every tree that a table can have.
- TableRuntime.TableRuntime.RebuildAndCheck: leaves out the same self-check; `IndexTrees.RebuildAndCheckTree` has it.
- Workspace.Workspace.ValidateRuntimeIndexConsistency: leaves out the same self-check.
- Workspace.Workspace.RebuildRuntimeIndexes: leaves out the same self-check.
- TreeInsertion.CapacityIsExact: says nothing of trees with other capacities, only of the formulas.
- ShardRouting.SplitInsertByShard: gives a NULL shard key a node, where the source throws; the SQL text that is sent is left to `RenderedLiterals`.
- ShardedCluster.RunSettles: requires shard keys without backslashes, quotes and NULL, and no assignment to the shard key; rebalancing is not a step.
- NULL or ill-typed literals on indexed columns and shard keys: these paths throw in the source.
- Integer widths of row ids and timestamps: row ids do not wrap around at 64 bits; saved row ids are below 2^64.
- Hash-map iteration order is arbitrary wherever it can be seen (index checks, REVERT's delta, saved files).
- UPDATE, DELETE and REVERT that fail, as steps of a table's run: they may record changes that the heap does not have; indexes, ids and counters stay right (`TableEffects.EffectIntact`).
- StateFile.LoadInvertsSave: requires that no string contains a newline; `RuntimePersistence.StateExactlyWhen` says exactly when it does not matter.
- HistoryFile.LoadInvertsSave: likewise; `RuntimePersistence.HistoryExactlyWhen` says exactly when.
- RuntimePersistence.LoadInvertsSave: likewise; `RuntimePersistence.ExactExactlyWhen` says exactly when.
- RuntimePersistence.ExactExactlyWhen: requires row ids below 2^64, and other than 2^64 - 1 in tables, as the source's are.
- RecoveredFiles.WrittenMeans: requires that no string contains a newline.
- WriteAheadLog.TornTransaction: requires statements without newlines.
- TwoPhaseCommit.HeldAfterRefusal: requires that the targets are distinct nodes.
- Serializability of concurrent transactions: the last COMMIT installs its whole snapshot.
- A crash between the save and the new log: the logged statements are then run a second time (`Recovery.CommitWrites`, `Recovery.StatementWrites`); what that comes to is not described.
- Crashes in the middle of writing the data file: it is replaced as a whole.
- Failing file operations: every append, save and reset succeeds.
- Replaying statements that relied on USE: the recovery session has no current database.
- Lines of older formats (positional fields, `DB` lines) in the state file, rows whose indexed value has another type, and the legend comments: loading stops at the former in the model, the latter are skipped.
- Index definitions inside recorded schemas: a schema is its columns here.
- The string pool: strings are values.
- What a coordinator's answer other than 200 means after COMMITs have been sent: some nodes may have run the transaction.
- Cluster metadata, rebalancing, heartbeats, the rendering of SQL for other nodes but for string literals, telemetry, access log, asynchronous jobs, sockets, command line, JSON.
- Access control, tokens and passwords, except the Base64url pair.
- TableRuntime.TableRuntime.Revert: requires that rows of the table's shape in its history fit the schema, which every run of statements on one table keeps; a table dropped and created again with other types does not.
- TableRuntime.TableRuntime.Clone: requires non-null typed values in indexed columns, which every statement keeps.
- FilterRows.FilterRows: requires literals of the column's type, and for <, <=, >, >= and BETWEEN integer differences that fit in 64 bits.
- DbmsEngine.DbmsEngine.ExecuteSqlImpl: requires that DDL comes inside a transaction and that no input row of an INSERT is longer than its column list, which the parser guarantees.
- DbmsEngine.DbmsEngine.ExecuteSql: requires the same.
- DbmsEngine.DbmsEngine.ReplayWal: requires the same of every logged statement.
- RuntimePersistence.RuntimePersistence.Load: says of a load that fails only that it fails; the source keeps what it has read so far.
- ClusterCommands.StorageNode.ParseClusterCommand: leaves out the current database that PREPARE remembers for COMMIT.
- ClusterCommands.ExecuteTwoPhaseCommit: no other coordinator acts while its loop runs; all interleavings are in `TwoPhaseCommit`.
- Databases.PerformsIntact: covers neither CREATE and DROP nor BEGIN, COMMIT and ROLLBACK.
- Recovery.CommitIsAtomic: takes the data file as a value; `RecoveredFiles.CommitIsAtomicInFiles` takes it as text.
- Recovery.StatementIsDurable: likewise; `RecoveredFiles.StatementRecoversInFiles` takes it as text.
- Workspace.Workspace.Execute: says of SELECT only that it changes nothing and reports unknown tables.
