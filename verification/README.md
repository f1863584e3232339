# A Dafny model of bytdb

bytdb layers a SQL engine over an ordered key-value store. This project models the parts
of it where a fast form must agree with a simple one, or where every run of a state
machine must keep a global invariant, and proves that they do.

| files | component |
|---|---|
| `Values`, `Schema`, `Condition`, `Seqs` | values and their two orders, tables and access paths, three-valued conditions (section 9.1 of the PostgreSQL manual) |
| `Tuple`, `Float64` | the order-preserving key encoding |
| `Planner`, `Scan`, `Rebind`, `Sorting`, `Ordering` | access-path choice, bounded scans with early stops, plans rebound in place, the stable sort and when it is dropped |
| `Join`, `JoinProof`, `JoinExec` | join chains as rebound nested loops or hash probes |
| `SubExpr`, `SubCache`, `SubCode` | correlated subqueries, template binding and the statement's memo |
| `Store`, `Table`, `TableProof`, `TableScan`, `TableDDL`, `Rebuild`, `TableRun` | rows and secondary indexes in one key space |
| `Columns`, `ColumnOps`, `ColumnRun`, `MixedRun` | columns added, dropped and renamed over rows tagged by column ID, alone and mixed with everything else |
| `ReadSet`, `Serial`, `TxnOps` | marked reads, and histories of optimistic transactions |
| `Counter`, `Identity`, `SeqObj` | the watermark allocator, identity columns, sequence objects |
| `ForeignKeys`, `Cascade`, `FKUpdate` | referential checks (section 11.8 of ISO/IEC 9075-2, MATCH SIMPLE, NO ACTION) and the cascade worklist |
| `Session`, `SessionProof`, `SessionCode` | transaction blocks and savepoints |
| `Replica`, `ReplicaProof`, `Restore` | shipping log chunks, pruning generations, restoring |
| `TextArray`, `TextArrayCode` | text[] literals and their binary form (section 8.15.6 of the PostgreSQL manual) |
| `Lexer`, `Splitter` | the two scanners of SQL text (sections 4.1.2.2 and 4.1.5 of the PostgreSQL manual) |

How it is written. Code that only computes is a function; a loop or an object that is
updated is a method or a class, proved equal to a function, and the theorems are about
that function. Machine integers are explicit where they matter (`Counter`, `Identity`,
`SeqObj`, the int32 fields of `TextArrayCode`, the words of `Tuple` and `Float64`, the
saturated OFFSET + LIMIT). The store is a finite map with snapshots and a commit that
fails when a written key, or a marked key or range, changed since the snapshot. Condition
leaves the planner cannot look into are deterministic functions of the row; the subquery
modules evaluate them. `dafny verify dfyconfig.toml` checks the whole project.

Where the code and its comments disagree, the model follows the code:

- `sql/exec.go:1163-1166` says key shuffles inside one UPDATE work. They are refused when
  a child row holds an old key, even if another row answers it now: `FKUpdate.ShuffleRefused`
  gives the statement, `FKUpdate.ExecUpdate` the exact condition, and `FKUpdate.OverRefused`
  exactly which statements are refused without need.
- `txn.go:119-124` lists uniqueness probes among the reads validated at commit. They are
  not marked (`dml.go:121-125`); a probe that finds nothing is covered by the write that
  follows, and one that fails is not: `ReadSet.ProbeUnmarked` gives an instance, and
  `ReadSet.ExecSame` with `ReadSet.ProbeEscapes` shows that failed probes are exactly the
  results that can change unnoticed. It matters only to a transaction that goes on after
  such a failure.

Two laws hold under conditions the code states or implies, and the conditions are exact:

- The splitter and the lexer read an escape string that directly follows a digit
  differently (`pgwire/split.go:111-117`): `Splitter.LeavesTogether`, `Splitter.DigitBeforeE`.
- The sequence step's wraparound test is right from a position within the bounds, and from
  outside exactly when the step reaches them: `SeqObj.WrapCaught`, `SeqObj.StepExactly`,
  `SeqObj.OutsideMissed`.

## Model

| member | source | states |
|---|---|---|
| `Values.CompareIsKeyOrder` | sql/exec.go:365-398 | within one column type, SQL comparison with a literal is the key order of the coerced literal |
| `Values.TupleCmpOrder` | tuple/tuple.go:273-280 | directed tuple order is antisymmetric and separates distinct tuples |
| `Values.TupleCmpTrans` | tuple/tuple.go:273-280 | directed tuple order is transitive, strictly when one step is strict |
| `Tuple.EncodeOrder` | tuple/tuple.go:51-128 | byte order of encoded tuples is the directed order of the tuples, for every mix of ASC and DESC and of NULL, bool, int64, float64, bytes and string |
| `Tuple.EncodePrefix` | tuple/tuple.go:51-128 | an encoded tuple has an encoded bound as byte prefix iff the bound is a prefix of the tuple |
| `Tuple.DecodeEncode` | tuple/tuple.go:148-267 | decoding an element gives the value and exactly the bytes after it, in both directions |
| `Tuple.PrefixEnd` | tuple/tuple.go:378-387 | the end of a prefix's range; none exactly when all bytes are 0xFF |
| `Tuple.PrefixRange` | tuple/tuple.go:375-387 | the byte range from a prefix to its end holds exactly the strings with that prefix |
| `Tuple.ScanBounds` | index.go:347-368 | byte bounds hold exactly the tuples at or above, below, or starting with the bound |
| `Tuple.AppendDirected` | index.go:300-316 | the loop appends the encoding of each value in its direction |
| `Float64.StepsGrow` | tuple/tuple.go:102-110 | a larger magnitude pattern is a larger number, subnormals and every exponent included |
| `Float64.BitsOrder` | tuple/tuple.go:102-110 | the stored word of a float orders as the number does, across zero and up to both infinities |
| `Float64.BitsRoundTrip` | tuple/tuple.go:183-194 | reading the stored word gives the number back |
| `Condition.AndMeaning` | sql/exec.go:165-208 | short-circuit AND is true iff every operand is, false iff some operand is |
| `Condition.OrMeaning` | sql/exec.go:165-208 | short-circuit OR is true iff some operand is, false iff every operand is |
| `Condition.ConjunctsHold` | sql/plan.go:254-269 | a row on which a condition is definitely true satisfies every conjunct taken from it |
| `Condition.FlipSame` | sql/join.go:270-273 | comparing the other way round with the mirrored operator is the same test |
| `Planner.PlanScanOrdered` | sql/plan.go:68-216 | the planner's maps and loops compute the specified plan |
| `Planner.PickBounds` | sql/plan.go:100-125 | the first usable equality, lower and upper conjunct of each column |
| `Planner.ChoosePath` | sql/plan.go:137-166 | the best-scoring path, ties to one that serves the sort |
| `Planner.BestIsBest` | sql/plan.go:137-166 | no path scores higher than the chosen one; the primary index loses ties only to one that serves the sort when it does not |
| `Planner.PushBounds` | sql/plan.go:167-216 | bounds, stops and pushed conjuncts of the chosen path |
| `Planner.PushEqualities` | sql/plan.go:173-179 | the equality prefix of the bounds |
| `Planner.PushRange` | sql/plan.go:180-216 | the range bound and stop, in ascending and descending layout |
| `Planner.PlanJustified` | sql/plan.go:68-216 | whatever path is chosen, the WHERE requires each bound pushed, and the whole WHERE stays as filter |
| `Scan.ScanPlan` | sql/exec.go:35-100 | the scan with a consumer that may stop collects a prefix of the specified rows |
| `Scan.WalkRows` | sql/exec.go:75-141 | the walk with early stops and residual filter |
| `Scan.StopSound` | sql/exec.go:102-141 | once a row at or above the entry bound hits a stop, no later row matches, NULLs included |
| `Scan.WalkExact` | sql/exec.go:35-141 | a forward walk yields exactly the matching rows, in key order |
| `Scan.BetweenExact` | sql/plan.go:441-466 | the reverse bounds cut no matching row |
| `Scan.LookupExact` | sql/exec.go:41-56 | the point get is the naive filter |
| `Scan.ScanExact` | sql/exec.go:35-141 | every justified plan yields exactly the rows on which the whole condition is definitely true, in path order or its reverse |
| `Scan.PlannedScanExact` | sql/plan.go:68-216 | the planner's choice, run over its path, equals filtering every row |
| `Rebind.LivePlan.Rebind` | sql/plan.go:218-252 | in place: path kept, point key, lower bound and stops re-read from the conjuncts |
| `Rebind.LivePlan.RebindGet` | sql/plan.go:228-234 | the point key refreshed value by value |
| `Rebind.LivePlan.RebindBounds` | sql/plan.go:235-252 | lower bound and stops refreshed, in both range layouts |
| `Rebind.RebindPrefix` | sql/plan.go:235-244 | the equality prefix refreshed in bounds and stops alike |
| `Rebind.RebindIsReplan` | sql/plan.go:173-252 | rebinding gives exactly the plan that planning afresh with values of the same kinds gives |
| `Ordering.ChooseOrderedPlan` | sql/plan.go:331-356 | when the sort can be dropped, and by which path and direction |
| `Ordering.ChosenServes` | sql/plan.go:377-439 | a plan that drops the sort is justified and walks its keys in ORDER BY order, pinned columns aside |
| `Ordering.KeyColumnOrder` | sql/exec.go:755-768 | on columns without NULL, ORDER BY's comparison is key order |
| `Ordering.SortDropped` | sql/plan.go:331-466 | the forward or reverse walk emits a permutation of the matching rows, sorted by ORDER BY |
| `Ordering.ChosenWalk` | sql/plan.go:331-466 | the chosen plan over its own path's rows yields the matching rows, sorted when the sort was dropped |
| `Ordering.CutKeepsSlice` | sql/exec.go:503-551 | stopping at the saturated OFFSET + LIMIT keeps the same slice |
| `Ordering.SelectOrdered` | sql/exec.go:503-620 | sort dropped or run, cut early or not, the rows are those of collecting the whole walk, sorting it stably and slicing: an OFFSET/LIMIT slice of a sorted permutation of the matching rows |
| `Ordering.SortedWalk` | sql/plan.go:331-466 | sorting the chosen walk gives a stable order of it, and the walk itself when the sort is dropped |
| `Sorting.KeysCmpTrans` | sql/exec.go:755-768 | on the rows of one table, comparison by any list of keys is transitive, NULLs and mixed directions included |
| `Sorting.KeysCmpFlips` | sql/exec.go:505-516 | and turns its sign with its sides |
| `Sorting.SortRows` | sql/exec.go:503-517 | the sort itself |
| `Sorting.SortIsStable` | sql/exec.go:499-517 | its result is in order, a permutation, and keeps every group of ties as it came |
| `Sorting.SortIsOnly` | sql/exec.go:499-517 | no other list is, so any stable sort returns the same rows in the same order |
| `Sorting.SortedStays` | sql/plan.go:331-356 | rows already in order are left as they are |
| `Ordering.SatAdd` | sql/exec.go:543-551 | int64 addition, saturating exactly on overflow |
| `JoinExec.PrepareFrom` | sql/join.go:237-282 | steps with their static conjuncts, templates and hash keys |
| `JoinExec.PrepareOne` | sql/join.go:254-281 | one prepared step |
| `JoinExec.SplitConjuncts` | sql/join.go:254-275 | the usable conjuncts split into statics and templates |
| `JoinExec.BuildHash` | sql/join.go:538-588 | each key's bucket holds exactly the build rows with that key, in order; NULL keys go nowhere |
| `JoinExec.JoinRun.constructor` | sql/join.go:380-401 | a run starts with nothing emitted and whatever plans earlier runs left |
| `JoinExec.JoinRun.RowPlan` | sql/join.go:473-508 | the cached plan, rebound, is what fresh planning for this outer row gives |
| `JoinExec.JoinRun.HashFor` | sql/join.go:538-588 | the build table, made once from the statically filtered rows |
| `JoinExec.JoinRun.StepRows` | sql/join.go:417-460 | the candidates of a step: bucket, scan or virtual rows; none on a NULL source |
| `JoinExec.JoinRun.TryRow` | sql/join.go:510-531 | the step's ON decides, then the rest of the chain runs |
| `JoinExec.JoinRun.StepNext` | sql/join.go:510-531 | every candidate in turn, until the consumer stops; whether any matched |
| `JoinExec.JoinRun.Rec` | sql/join.go:403-471 | from any step and outer row, exactly the specified rows up to the consumer's limit |
| `JoinExec.RunPlan` | sql/join.go:375-387 | a run from cached plans emits what a fresh run emits, and leaves plans fit for the next |
| `JoinExec.RunJoin` | sql/join.go:375-387 | the multiset of the declarative join, or a prefix of the run under a limit |
| `JoinProof.ScanIsFilter` | sql/join.go:440-455 | a planned inner scan reads the rows satisfying the pushed condition |
| `JoinProof.CandidatesAre` | sql/join.go:403-607 | a step's candidates are exactly the rows it offers, each as often as stored |
| `JoinProof.SameHashKey` | sql/join.go:350-373 | rows that satisfy the equality conjuncts have equal keys, for any normaliser that respects equality |
| `JoinProof.EmitIsDecl` | sql/join.go:403-607 | from any outer row, the narrowed chain emits the declared rows |
| `JoinProof.SoundJoinMeans` | sql/join.go:403-607 | a chain whose steps offer every needed row has the declarative meaning |
| `JoinProof.PreparedStepSound` | sql/join.go:231-313 | statics, templates and hash keys never lose a needed row; LEFT JOINs take no WHERE conjunct |
| `JoinProof.PreparedJoinMeans` | sql/join.go:237-607 | every chain of inner and LEFT joins with any ON and WHERE yields exactly the multiset "join everything, then filter" |
| `SubExpr.ResolveName` | sql/join.go:65-93 | the loops find the one column a reference can mean, or none |
| `SubExpr.ResolveQualified` | sql/join.go:68-79 | a qualified reference |
| `SubExpr.ResolveBare` | sql/join.go:80-92 | an unqualified reference must be unambiguous |
| `SubExpr.DecorrelateMeans` | sql/expr.go:1589-1627 | binding what resolves locally and lowering the rest judges every full row as looking each name up would |
| `SubExpr.LocalEval` | sql/subcache.go:233-259 | an expression that passes the local-only walk has one value inside every environment |
| `SubExpr.LocalCond` | sql/subcache.go:191-231 | a condition that passes the walk, bound in any scope, judges every row alike inside every environment |
| `SubCache.SpecsTrue` | sql/corrsub.go:182-232 | rows the WHERE accepts satisfy every collected template with the outer row's values, whatever environment it was collected under |
| `SubCache.TemplatesJustified` | sql/corrsub.go:135-180 | every attached template may narrow its step's scan, in whatever environment it is bound later |
| `SubCache.BindMeans` | sql/corrsub.go:251-283 | all values present and non-NULL, or one NULL, or one unavailable |
| `SubCache.NullMeansNone` | sql/corrsub.go:261-268 | a NULL operand means the subquery has no row |
| `SubCache.CachedIsFresh` | sql/corrsub.go:96-283 | binding, skipping on NULL and falling back yields the row multiset of fresh untemplated preparation |
| `SubCache.BoundMeans` | sql/corrsub.go:123-283 | with the outer row's values installed, the narrowed chain has the query's declarative meaning |
| `SubCache.LocalRows` | sql/subcache.go:138-175 | a local-only subquery has the same rows for every outer row |
| `SubCache.LocalYields` | sql/subcache.go:50-111 | what a local-only subquery yields for one outer row it yields for all, so the memo may answer |
| `SubCode.SubPrep.constructor` | sql/corrsub.go:85-122 | a fresh preparation holds its templates, no values and no plan |
| `SubCode.SubPrep.Install` | sql/corrsub.go:269-280 | one value installed; the step's plan dropped exactly when the type changes |
| `SubCode.SubPrep.BindAll` | sql/corrsub.go:254-283 | the outer row's values installed, or NULL, or unavailable |
| `SubCode.SubPrep.Run` | sql/corrsub.go:123-133 | a run from the plans of earlier outer rows emits what the bound chain specifies |
| `SubCode.SubPrep.Invoke` | sql/corrsub.go:96-133 | one invocation gives the fresh rows in some order, cut at the consumer's limit |
| `SubCode.CutYields` | sql/expr.go:1565-1587 | stopping at the first row (EXISTS) or the second (scalar) loses nothing |
| `SubCode.Finish` | sql/expr.go:1312-1465 | EXISTS, count(*), ANY/ALL column and scalar results of a list of rows |
| `SubCode.Column` | sql/expr.go:468-517 | the ANY/ALL elements of a list of rows |
| `SubCode.SubMemo.PrepFor` | sql/corrsub.go:103-122 | the cached preparation of this enclosing scope, or a new one |
| `SubCode.SubMemo.Rows` | sql/corrsub.go:96-133 | cached invocations keep every cached preparation valid |
| `SubCode.SubMemo.RunSub` | sql/expr.go:1316-1587 | a run gives the result of fresh preparation for this outer row |
| `SubCode.SubMemo.Uncorrelated` | sql/subcache.go:123-132 | the kept verdict is the static test |
| `SubCode.SubMemo.Eval` | sql/subcache.go:50-111 | memoised or run, every evaluation gives what fresh preparation for this outer row gives: EXISTS answer, count, elements, scalar |
| `Table.RowRoundTrip` | dml.go:785-838 | decoding an encoded row gives it back |
| `Table.DecodeRowLoop` | dml.go:804-838 | the two loops: key columns from the key, the rest by column ID |
| `TableProof.InsertConsistent` | dml.go:96-168 | an insert adds exactly its row and exactly its entries |
| `TableProof.UpdateConsistent` | dml.go:199-305 | an update, key-moving included, replaces exactly its row and moves exactly its entries |
| `TableProof.DeleteConsistent` | dml.go:354-385 | a delete removes exactly its row and its entries |
| `TableProof.EntryOwner` | index.go:318-346 | an entry belongs to one row |
| `TableProof.UniqueHolds` | index.go:318-346 | two rows never share unique values that are all non-NULL |
| `TableProof.MoveTakenBy` | dml.go:261-286 | an update's probes find a unique entry taken iff a row other than the one it replaces holds the values |
| `TableProof.OtherTablesKept` | engine.go:864-917 | writes to one table leave every other as it was |
| `TableScan.EntryOrder` | index.go:318-346 | entries compare as their rows do in directed index order with primary-key ties |
| `TableScan.EntryInRange` | index.go:347-368 | an entry is in the key range iff its row is between the bounds |
| `TableScan.EntryResolves` | index.go:370-411 | a row's entry leads back to it |
| `TableScan.PathKeyResolves` | index.go:370-411 | every entry leads to a stored row that derives it |
| `TableScan.ListingListed` | index.go:265-299 | a full index scan is in directed index order |
| `TableScan.ListingMembers` | index.go:265-299 | it lists exactly the stored rows |
| `TableScan.ListingsAgree` | index.go:265-299 | every path lists the same multiset of rows |
| `TableScan.BoundedScan` | index.go:265-368 | a bounded scan yields exactly the rows in range, in order |
| `TableScan.StoreIsSource` | dml.go:414-448 | a consistent store is what the scan and join theorems assume |
| `TableDDL.TruncateConsistent` | txn.go:505-543 | rows and entries gone, other tables untouched |
| `TableDDL.NewIndex` | index.go:43-86 | the exact refusals, and a fresh ID over distinct declared columns |
| `TableDDL.CollectEntries` | index.go:94-110 | the backfill reads each row's entry |
| `TableDDL.FillIndex` | index.go:111-118 | the backfill stops exactly when an entry repeats |
| `TableDDL.Backfill` | index.go:87-118 | it stops exactly when two rows clash in a unique index |
| `TableDDL.IndexComplete` | index.go:87-126 | the filled index is complete and nothing else changed |
| `TableDDL.CreateIndex` | index.go:43-126 | refused exactly for a bad definition or clashing rows; otherwise the declared index, complete, rows and other tables unchanged |
| `TableDDL.DropIndexConsistent` | index.go:129-166 | the index's entries go, rows and other indexes stay exact |
| `Rebuild.PutProbed` | alter.go:316-328 | entries written in order, stopping exactly at a taken unique one |
| `Rebuild.PutRow` | alter.go:300-329 | a rebuilt row goes in exactly when an insert would |
| `Rebuild.InsertCollides` | alter.go:300-329 | an insert fails exactly when it collides with a held row |
| `Rebuild.RewriteRows` | alter.go:268-293 | the read pass fails exactly when some row does not rewrite |
| `Rebuild.WriteBack` | alter.go:295-331 | the write pass succeeds exactly when no two rows collide |
| `Rebuild.WriteRows` | alter.go:295-331 | the write loop stops at the first row an insert would refuse |
| `Rebuild.RebuildTable` | alter.go:266-331 | both passes: it succeeds exactly when every row rewrites and no two rewritten rows collide, and the store is then the rewritten rows inserted in key order into the emptied table |
| `Rebuild.RebuiltHolds` | alter.go:266-331 | that store holds exactly the rewritten rows, fully indexed, other tables untouched |
| `Rebuild.StoredIsListing` | alter.go:268-293 | the rows read are the table's rows in primary-key order |
| `TableRun.RunConsistent` | dml.go:96-385 | over any list of inserts, updates, deletes, TRUNCATEs, index creations and drops and rebuilds, refused ones included, from one consistent store, indexes hold exactly what the rows derive |
| `TableRun.StepKeeps` | dml.go:96-385 | every single operation, defined by what it does to store and descriptor, keeps indexes exact |
| `TableRun.AnyIndexServes` | index.go:265-411 | at every point, every index lists the table's rows in its own order |
| `ReadSet.InsertSame` | dml.go:96-168 | a successful insert is determined by the keys it writes |
| `ReadSet.UpdateSame` | dml.go:205-305 | a successful update by its marked key and the keys it writes |
| `ReadSet.DeleteSame` | dml.go:355-385 | a delete by its marked key |
| `ReadSet.ScanSame` | dml.go:415-515 | a scan, early stops included, by its marked range and fetched row keys |
| `ReadSet.ExecSame` | engine.go:822-852 | marks and written keys determine result, writes and marks of every operation but a failed probe |
| `ReadSet.WritesSame` | dml.go:96-385 | an operation that writes is determined by the written keys alone |
| `ReadSet.ProbeUnmarked` | dml.go:121-158 | a failed duplicate probe is not determined by its marks |
| `ReadSet.ProbeEscapes` | dml.go:121-158 | every operation that failed on a probe succeeds on some view that agrees with its marks, so the exception to ExecSame is exact |
| `Serial.Serializable` | txn.go:119-142 | an admitted history of serializable transactions has the store and the traces of running them in commit order |
| `Serial.RunSame` | txn.go:119-142 | a transaction's trace is determined by what it marked and wrote |
| `Serial.Undisturbed` | txn.go:119-142 | nothing a committed transaction depends on changed since its snapshot |
| `Serial.HistoryConsistent` | txn.go:119-142 | under any mix of isolation levels every index stays exact at every commit |
| `TxnOps.Tx.InsertRow` | dml.go:96-168 | in place: the specified outcome, nothing staged on failure |
| `TxnOps.Tx.UpdateRow` | dml.go:205-305 | in place: the specified outcome and mark, nothing staged on failure |
| `TxnOps.Tx.CheckUpdate` | dml.go:226-286 | phase one checks everything before anything is written |
| `TxnOps.Tx.ReplaceRow` | dml.go:288-305 | phase two writes the row and the moved entries |
| `TxnOps.Tx.DeleteRow` | dml.go:355-385 | in place: the specified outcome, the key marked hit or miss |
| `TxnOps.Tx.GetRow` | txn.go:558-578 | the row, marked hit or miss |
| `TxnOps.Tx.ScanRange` | dml.go:415-515 | rows, range mark and row-key marks of a scan in either direction |
| `TxnOps.Tx.FetchRows` | index.go:370-411 | rows behind entries, each row key marked as it is fetched |
| `TxnOps.Tx.ProbeUnique` | dml.go:136-158 | whether some unique entry is taken |
| `TxnOps.Tx.ProbeMoves` | dml.go:261-286 | whether a moved unique entry is taken, and the moves |
| `TxnOps.Tx.ProbeMove` | dml.go:261-286 | one index: whether its moved entry is taken, and the move |
| `TxnOps.Tx.PutEntries` | dml.go:159-163 | the entries of a new row |
| `TxnOps.Tx.RemoveEntries` | dml.go:369-383 | the entries of a deleted row |
| `TxnOps.Tx.MoveEntries` | dml.go:288-295 | old entries out, new ones in, in order |
| `TxnOps.ApplySets` | dml.go:226-249 | SET applied to a stored row, refused when a value does not fit |
| `Columns.DecodeByID` | dml.go:804-838 | a decoded row holds, in each column, what its ID reads |
| `Columns.BuildOrdByID` | engine.go:250-288 | the lookup table agrees with the linear scan for every ID; absent exactly past the cap |
| `ColumnOps.BackfillColumn` | ddl.go:280-371 | each row gains one pair and nothing else changes |
| `ColumnOps.FillRows` | ddl.go:232-272 | the backfill, skipped when the new column reads NULL anyway |
| `ColumnOps.AddColumn` | ddl.go:175-371 | exact refusals, exact descriptor, rows and identity counter (left one past the numbered rows); old rows read the default, NULL or 1..n, other columns unchanged |
| `ColumnOps.ShiftDesc` | ddl.go:455-488 | every ordinal shifted to keep naming its column |
| `ColumnOps.ShiftCols` | ddl.go:457-487 | the in-place loop over one list of ordinals |
| `ColumnOps.DropColumn` | ddl.go:404-499 | exact refusals; rows untouched, the column's ID and its identity counter gone, every ordinal shifted |
| `ColumnOps.RenameColumn` | ddl.go:801-854 | exact refusals; the exact descriptor: one column's name, and the names in the foreign keys that reference the table itself |
| `ColumnOps.CarriedConsistent` | ddl.go:190-499 | a column change that carries rows keeps every index exact |
| `ColumnRun.StepKeeps` | ddl.go:175-854 | every ADD, DROP or RENAME COLUMN, refused ones included, takes a good table to a good one, carrying what each surviving column reads |
| `ColumnRun.RunIsChain` | ddl.go:175-854 | so does every operation of any list of them, from one good table |
| `ColumnRun.ReadsForever` | ddl.go:175-854 | over any list of column operations a row reads the same for each column there before and after |
| `ColumnRun.NeverBack` | ddl.go:175-499 | over any list of them a dropped ID never returns |
| `ColumnRun.DroppedForever` | ddl.go:404-499 | a dropped column's data and identity counter never resurface, even when the name is added again |
| `ColumnRun.DefaultForever` | ddl.go:175-371 | every row there was reads a new column's default, NULL or number for as long as the column stays |
| `ColumnRun.IdentityNext` | ddl.go:321-371 | a new identity column numbers the rows from 1 and draws next one past the last |
| `ColumnRun.KeysForever` | ddl.go:175-854 | key, index and foreign-key ordinals name the same column IDs throughout, and every index stays exact |
| `MixedRun.StepKeeps` | ddl.go:175-854 | every row operation, index change, rebuild and column change keeps indexes exact, index names distinct and stored pairs below the next column ID |
| `MixedRun.RunWhole` | ddl.go:175-854 | so does any list of them, mixed in any order, from one such table |
| `MixedRun.AnyIndexServes` | index.go:265-411 | at every point of a mixed run, every index lists the table's rows in its own order |
| `MixedRun.ReadsOn` | dml.go:785-838 | through any mix of operations that do not touch it, a row reads the same for every column there before and after |
| `MixedRun.WrittenReads` | dml.go:96-305 | a row inserted or updated at any point reads what was written, whatever columns, indexes and other rows come and go after it |
| `MixedRun.NewColumnReads` | ddl.go:175-371 | and in a column added later, the default, NULL or number it was given |
| `MixedRun.NeverBack` | ddl.go:404-499 | an ID that is gone stays gone through a mixed run too |
| `Counter.NeverTwice` | seqalloc.go:102-371 | over any interleaving of draws, bumps, invalidations, forward sets and crashes, no value is handed out twice; unhanded ranges are disjoint and below the stored watermark |
| `Counter.FreshHolds` | seqalloc.go:102-133 | any stored counter with no allocator is a start |
| `Counter.ExtensionRespectsSets` | seqalloc.go:209-261 | an extension continues exactly from the stored value or leaves it alone: a backward set is never overwritten |
| `Counter.DeletedStaysDeleted` | seqalloc.go:209-261 | allocators that saw the key never re-create a deleted one |
| `Counter.DrawIsSteps` | seqalloc.go:289-304 | a draw is the machine's anchor, extend and hand steps |
| `Counter.BumpIsSteps` | seqalloc.go:306-341 | a bump is anchor, then skip or raise |
| `Counter.CounterAlloc.LoadLocked` | seqalloc.go:186-207 | the first use anchors at the stored value |
| `Counter.CounterAlloc.ReserveLocked` | seqalloc.go:228-261 | the watermark moves before any value is handed; a reset or exhaustion changes nothing |
| `Counter.CounterAlloc.TakeLocked` | seqalloc.go:292-304 | the steps of one draw |
| `Counter.CounterAlloc.BumpLocked` | seqalloc.go:310-341 | the steps of one bump |
| `Counter.Slot.AllocCounter` | seqalloc.go:263-288 | the retry loop ends in a value or exhaustion, and restarts a deleted counter |
| `Identity.FillIdentity` | identity.go:41-102 | in either mode, each identity column drawn or bumped against its own counter in one pass; the first refusal ends the row, and exactly the counters up to it have moved |
| `Identity.DrawFills` | identity.go:66-82 | watermark mode: a draw leaves counter and allocator in step and past the value, refused or not |
| `Identity.BumpFills` | identity.go:84-97 | watermark mode: so does an explicit value |
| `Identity.SerialFresh` | seq.go:24-65 | transactional mode: a drawn value is none of the values inserted before, in any run with rollbacks |
| `Identity.SharedFresh` | seqalloc.go:263-341 | watermark mode: the same over draws, explicit values and crashes; never refused for a reset |
| `SeqObj.WrapCaught` | seqobj.go:216-251 | int64 wraparound is caught exactly when the true sum leaves the bounds |
| `SeqObj.StepExactly` | seqobj.go:223-251 | from any position, the machine step is the true step iff it does not fall short of the bounds it moves toward |
| `SeqObj.OutsideMissed` | seqobj.go:223-251 | from outside the bounds the check can miss |
| `SeqObj.SeqObjAlloc.ReserveLocked` | seqalloc.go:439-477 | up to CACHE steps reserved; an error only when not even one exists |
| `SeqObj.SeqObjAlloc.Draw` | seqalloc.go:479-507 | a cached draw is one single step, bound errors and cycling included |
| `SeqObj.CachedDrawKeeps` | seqalloc.go:439-507 | the reserved range stays ahead of the position |
| `SeqObj.CacheInvisible` | seqalloc.go:439-507 | n cached draws are n single steps |
| `SeqObj.InOrder` | seqalloc.go:439-507 | one allocator at a time hands its values out in order, and the stored position is past all of them |
| `SeqObj.DrawIsSteps` | seqalloc.go:479-507 | a draw is the refill and hand steps of the machine with many allocators |
| `SeqObj.NeverRepeats` | seqalloc.go:413-531 | over any interleaving of any number of allocators, orphans of an invalidation included, with forward setvals and crashes, a non-cycling sequence never repeats a value and its stored position is past every one |
| `ForeignKeys.RefTupleLoop` | sql/fk.go:84-98 | the referenced values; none when one is NULL |
| `ForeignKeys.VerifyRow` | sql/fk.go:27-58 | a row passes iff each fully non-NULL reference is answered |
| `ForeignKeys.RowExists` | sql/fk.go:224-247 | whether some parent carries the values |
| `ForeignKeys.InsertRows` | sql/exec.go:1036-1048 | accepted iff each row, once stored, has a free key, is refused by no other constraint and has answered references; then exactly those rows are added and nothing dangles |
| `ForeignKeys.InsertUnique` | dml.go:121-158 | an accepted INSERT leaves no two rows sharing unique values, when refusals include the unique indexes' |
| `Cascade.ReferencingFKs` | fk.go:224-255 | every foreign key of any table that points at one |
| `Cascade.CascadeRef` | sql/fk.go:189-222 | the children of removed rows through one constraint |
| `Cascade.CascadeEntry` | sql/fk.go:137-165 | the children through every cascading constraint, queued by table |
| `Cascade.RunCascades` | sql/fk.go:134-166 | the worklist ends on every foreign-key graph |
| `Cascade.VerifyReferenced` | sql/fk.go:60-82 | whether a kept row references a removed one through a constraint that does not cascade |
| `Cascade.VerifyAll` | sql/fk.go:167-187 | the check over everything removed |
| `Cascade.RemovalSound` | sql/fk.go:110-187 | with cascades closed and no orphan, nothing dangles |
| `Cascade.ExecDelete` | sql/exec.go:1281-1325 | exactly the least set closed under CASCADE goes; refused exactly when a kept row references a removed one |
| `FKUpdate.RefColsChangedLoop` | sql/fk.go:258-278 | whether a referenced column changed |
| `FKUpdate.WriteImage` | sql/exec.go:1172-1247 | one row written, its references checked, its old image listed when a referenced column changed |
| `FKUpdate.WriteImages` | sql/exec.go:1172-1247 | every reference is answered or on the list, after any number of rows |
| `FKUpdate.VerifyImages` | sql/exec.go:1248-1252 | whether a child still holds an old key |
| `FKUpdate.ExecUpdate` | sql/exec.go:1163-1252 | the exact success condition; then exactly the images are stored and nothing dangles |
| `FKUpdate.UpdateUnique` | dml.go:261-286 | so does an accepted UPDATE, row by row, key-moving included |
| `FKUpdate.ShuffleRefused` | sql/exec.go:1163-1252 | a shuffle that leaves nothing dangling is still refused |
| `FKUpdate.OverRefused` | sql/exec.go:1163-1252 | when every row is fine, the end state dangles nowhere iff each old key still held is answered there: refused without need are exactly the statements where some is held and all are answered |
| `FKUpdate.ValidateExistingRefs` | fk.go:138-195 | accepted iff every existing child row is answered |
| `FKUpdate.AddFKSound` | fk.go:25-106 | adding a validated constraint leaves nothing dangling |
| `SessionProof.StacksAligned` | txn.go:326-386 | in every script the three savepoint stacks hold the same savepoints, and the write count matches |
| `SessionProof.CommitPublishes` | sql/session.go:423-540 | COMMIT publishes exactly the statements that succeeded and were not undone by a later ROLLBACK TO; a failed block publishes nothing |
| `SessionProof.OnlyCommitPublishes` | sql/session.go:168-221 | nothing else publishes but a statement that commits by itself |
| `SessionProof.SerializableTracked` | sql/session.go:306-349 | a writable block reported serializable under concurrent writes tracked every read |
| `SessionCode.Txn.Savepoint` | txn.go:326-344 | marks on both stacks |
| `SessionCode.Txn.SaveMark` | txn.go:376-386 | the topmost mark, searched from the top |
| `SessionCode.Txn.RollbackTo` | txn.go:346-361 | effects, stacks and count restored; the savepoint stays |
| `SessionCode.Txn.Release` | txn.go:363-374 | the savepoint and those above it go, effects stay |
| `SessionCode.Connection.Run` | sql/session.go:166-221 | every statement takes the session through one step of the machine |
| `SessionCode.Connection.DataStmt` | sql/session.go:188-218 | a data or schema statement, in its own transaction or staged in the block |
| `SessionCode.Connection.TxnControl` | sql/session.go:423-486 | BEGIN, COMMIT and ROLLBACK, in and out of failed blocks |
| `SessionCode.Connection.SavepointControl` | sql/session.go:488-540 | SAVEPOINT, RELEASE and ROLLBACK TO, and what aborts the block |
| `SessionCode.Connection.FindSave` | sql/session.go:495-540 | the most recent savepoint of a name |
| `SessionCode.Connection.ReleaseAt` | sql/session.go:495-540 | RELEASE on both stacks |
| `SessionCode.Connection.RollbackAt` | sql/session.go:495-540 | ROLLBACK TO on both stacks, reviving a failed block |
| `SessionCode.Connection.SetTxnIso` | sql/session.go:306-349 | the isolation level of the block, refused once a statement has run in it |
| `ReplicaProof.StepIsShip` | replicate/replicator.go:216-285 | a ship of the world is the replicator's ship |
| `ReplicaProof.StepKeeps` | replicate/replicator.go:196-380 | appends, compactions, restarts, ships, prunes and failing puts and deletes keep the invariant |
| `ReplicaProof.NewestKept` | replicate/replicator.go:327-380 | the newest certified generation is never pruned |
| `ReplicaProof.Run` | replicate/replicator.go:196-380 | every run of such events keeps the invariant, and certified generations stay certified |
| `ReplicaProof.StartHolds` | replicate/replicator.go:128-132 | an empty replica is a start |
| `Replica.ChooseVictims` | replicate/replicator.go:340-380 | the generations pruning picks |
| `Replica.Replicator.ShipChunks` | replicate/replicator.go:243-267 | the watermark advances only over stored chunks |
| `Replica.Replicator.ShipLocked` | replicate/replicator.go:216-285 | roll, upload, certify, prune, in place |
| `Restore.ContiguousChain` | replicate/restore.go:166-202 | of refs in start order, the longest prefix that starts at 0 and leaves no gap |
| `Restore.Assemble` | replicate/restore.go:204-261 | the joined bytes, or nothing when a chunk is missing or not of the size its name declares |
| `Restore.RestoreNewest` | replicate/restore.go:76-143 | the first complete generation; only if none was ever certified, the first chain at all |
| `Restore.RestoreUncertified` | replicate/restore.go:126-143 | the fallback: the first generation with a chain at all |
| `Restore.WholeRestores` | replicate/restore.go:76-261 | a generation whose chunks tile its log restores to that log |
| `Restore.NewestRestores` | replicate/restore.go:76-143 | the newest certified generation is complete and joins to at least its certified size |
| `Restore.RestoreAfterRun` | replicate/restore.go:76-143 | after any run that certified a generation, Restore returns a byte-exact prefix of the newest certified one's log, at least as long as certified |
| `TextArray.ParseFormat` | types.go:140-285 | parsing a formatted list gives the list back |
| `TextArray.CanonIdempotent` | types.go:294-304 | canonicalising twice is canonicalising once |
| `TextArray.CanonEquates` | types.go:294-304 | two literals share a canonical form iff their elements are equal |
| `TextArrayCode.ParseTextArray` | types.go:170-251 | the parser with its three kinds of result |
| `TextArrayCode.ParseBody` | types.go:182-251 | the element loop |
| `TextArrayCode.ReadElement` | types.go:187-237 | one element, quoted or bare |
| `TextArrayCode.QuotedElement` | types.go:193-217 | a quoted element with backslash escapes |
| `TextArrayCode.BareElement` | types.go:218-237 | a bare element up to a comma; braces and quotes refused |
| `TextArrayCode.FormatTextArray` | types.go:253-285 | the formatter |
| `TextArrayCode.AppendElem` | types.go:261-282 | one element, quoted when it must be |
| `TextArrayCode.AppendQuoted` | types.go:274-281 | quotes and backslashes escaped |
| `TextArrayCode.EncodeTextArrayBinary` | pgwire/values.go:320-356 | the wire form of a valid literal |
| `TextArrayCode.DecodeTextArrayBinary` | pgwire/values.go:358-418 | the text of a valid wire form, everything else refused |
| `TextArrayCode.DecodeEncode` | pgwire/values.go:311-418 | binary encoding then decoding gives the elements back, within the int32 limits |
| `TextArrayCode.BinaryIsCanonical` | pgwire/values.go:311-418 | a literal crosses the wire as its canonical text |
| `Lexer.Lex` | sql/lexer.go:34-101 | the token loop |
| `Lexer.NextLexeme` | sql/lexer.go:34-101 | the kind and extent of the lexeme at an offset |
| `Lexer.BlockCommentEnd` | sql/lexer.go:103-132 | nested comments |
| `Lexer.ScanQuoted` | sql/lexer.go:134-157 | doubled quotes |
| `Lexer.ScanEString` | sql/lexer.go:159-196 | backslash escapes |
| `Lexer.ScanNumber` | sql/lexer.go:198-222 | fraction and exponent |
| `Splitter.Cuts` | pgwire/split.go:36-74 | the splitter's one-pass loop |
| `Splitter.SkipQuotedLoop` | pgwire/split.go:76-103 | quoted regions, with escapes when it takes them for an escape string |
| `Splitter.SkipLine` | pgwire/split.go:62-65 | line comments |
| `Splitter.LexemeAgrees` | pgwire/split.go:36-123 | over one lexeme of any kind the splitter cuts exactly at a semicolon and is back in step |
| `Splitter.LeavesTogether` | pgwire/split.go:105-123 | it leaves an escape string where the lexer does iff no digit precedes it or the same bytes read as a plain string end there too |
| `Splitter.ClosesWhere` | pgwire/split.go:76-103 | read without escapes, the splitter's closing quote is where the lexer's plain string ends |
| `Splitter.SplitsAtSemicolons` | pgwire/split.go:36-123 | under that condition it cuts exactly at the lexer's semicolons, through comments, quotes and escapes |
| `Splitter.DigitBeforeE` | pgwire/split.go:105-123 | without it, it can cut inside a string |

## Left out

- The parser, window functions, GROUP BY, set operations, upsert resolution (ON CONFLICT), EXPLAIN, parameter binding and the system catalog.
- Connection handling, authentication, TLS, the shell, metrics, memory and row budgets, timeouts, cancellation and panic recovery.
- Floats are reals and two infinities: NaN and rounding are not modelled; dates, UUID and JSON values are left out.
- Tuple.AppendDirected: the rejection of NaN and of other Go types, and the widening of narrower integers, are left out.
- Comparing values of different kinds is unknown in the model; the coercion of text literals at comparison time and the errors it can raise are left out.
- An expression that fails to evaluate inside a subquery's condition is not true in the model, while the engine aborts the statement; templates can hide such an error by skipping the row.
- SubCode.Finish: DISTINCT, LIMIT, OFFSET, ARRAY(...) and aggregates other than count(*) are left out.
- SubCode.SubMemo.RunSub: the same result kinds as Finish.
- SubCode.SubMemo.Eval: the same result kinds as Finish.
- Subqueries: nested subqueries and windows are deterministic functions of the environment; aggregate items inside conditions, and writes by the running statement are left out.
- Splitter.SplitsAtSemicolons: one way only; a text outside its condition may still be cut right when no semicolon follows, and the exact statement is per string, in LeavesTogether.
- Splitter.Cuts: the cut positions; trimming each statement's text and skipping empty ones are left out.
- Lexer.Lex: kinds and extents of tokens, not their decoded text.
- Lexer.NextLexeme: kind and extent, not the decoded text.
- Lexer.ScanQuoted: the extent, not the decoded text.
- Lexer.ScanEString: the extent, not the decoded text.
- TableDDL.DropIndexConsistent: the guard that keeps a unique index a foreign key relies on is left out.
- TableDDL.TruncateConsistent: RESTART IDENTITY is left out.
- AlterColumnType's casts and SetPrimaryKey's checks before rebuildTable, VARCHAR limits, CHECK constraints and the write caps.
- Serial.Serializable: for transactions that do not go on after a failed duplicate probe, which is the exact exception of ReadSet.ProbeEscapes.
- SeqObj.NeverRepeats: ALTER SEQUENCE, DROP and a setval back, which can repeat a value, are left out.
- Sorting.SortRows: an insertion sort stands for the library's stable sort; SortIsOnly makes their results equal.
- Ordering.SelectOrdered: ORDER BY over columns of the table; keys that are expressions or select-list positions are left out.
- Identity.SharedFresh: RESTART, invalidation of the allocator and updates of the identity column, which can repeat a value.
- Counter.Slot.AllocCounter: one caller at a time; interleavings are those of the step machine of NeverTwice.
- Replication: a put that is stored but reported as failed, two replicators on one prefix, encryption and the object-store client.
- FKUpdate.AddFKSound: AddForeignKey's check that a unique key covers the referenced columns is left out, and so are DropForeignKey and the choice of index for the lookups.
- FKUpdate.ExecUpdate: refusals by unique indexes, NOT NULL and CHECK are a parameter that sees the row replaced; UniqueRefusal is what the unique indexes refuse, and NOT NULL and CHECK are not spelled out.
- FKUpdate.WriteImage: the same parameter as ExecUpdate.
- FKUpdate.WriteImages: the same parameter as ExecUpdate.
- ForeignKeys.InsertRows: the same parameter as ExecUpdate.
- Restore.ContiguousChain: parsing chunk names and sorting them by start is left out; the list is given in that order.
- ColumnOps.AddColumn: the default is given evaluated, and the list of row keys as read.
- The session's variables other than the isolation level, read-only enforcement by statement kind, and cancellation.
