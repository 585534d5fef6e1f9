# DuckDB core pieces, modelled in Dafny

This project models five pieces of an early DuckDB, the embedded analytical SQL
database, and proves properties of each:

- **Column references in the parser** (`transform_columnref.dfy`, module
  `TransformColumnRef`). The parser turns the field list of a PostgreSQL-style
  column reference into one of three things:
  - a column reference `column` or `table.column`, which carries its query location;
  - a `table.*` star;
  - a bare `*`.
  Every other shape raises "ColumnRef not implemented!".
- **Operator binding** (`bind_operator_expression.dfy`, module `BindOperator`).
  The binder first binds every child of an operator expression.
  - If a child fails, the first error is the result.
  - Otherwise the binder resolves the operator's type:
    - `IS [NOT] NULL` leaves its children alone;
    - `[NOT] IN` casts all children to the maximum of their types;
    - `NOT` casts its single child to BOOLEAN.
  - The result is always BOOLEAN.
  The children live in an array and are cast in place.
- **Bitwise aggregates** (`bitagg.dfy`, module `BitAggregates`): BIT_AND, BIT_OR and BIT_XOR.
  - The state is an `is_set` flag plus a value. An unset state finalizes to NULL.
  - NULL inputs are ignored.
  - Combining two partial states gives the same result as feeding all their rows to one state.
  - Only the integral types TINYINT … HUGEINT get a function. Any other type raises NotImplemented.
- **Aggregate planning** (`plan_aggregate.dfy`, module `PlanAggregate`). The
  physical planner projects the groups and the aggregate arguments below the
  aggregate and replaces them with references into that projection. It then picks
  one operator:
  - a simple aggregate when there are no groups;
  - a perfect-hash aggregate when every group is an integer column whose statistics
    give a range narrow enough that all the groups' bits fit a threshold;
  - a hash aggregate otherwise.
- **The catalog set** (`catalog_set.dfy`, module `CatalogSets`). This is the
  multi-version map from names to catalog entries:
  - **Storage:** every name maps to a chain of mapping values and every entry index to a chain of entry versions. Chains are held newest first.
  - **Reads:** a transaction sees the first version whose timestamp it may use. A name whose mapping links it may not use reads as absent. An entry whose versions it may not use reads as its oldest version, which is always the deleted placeholder its creation put there.
  - **Writes:** create, alter and drop push new versions, and report write conflicts before changing anything. Undo pops a version again.
  - **Queries:** Scan visits the visible, non-deleted version of every entry. SimilarEntry picks the bound name that is closest under an edit distance.

`wrappers.dfy` holds `Option`, `Result` and `Outcome`.

Each module separates two layers:
- **Specification:** functions over values, with lemmas about them.
- **Operations:** the source's operations that change state become methods of a
  class (`CatalogSet`, `BitState`, `LogicalAggregate`) or methods on arrays. Each
  method is proved equal to its specification function.

Collaborators whose code is not part of this model are parameters:
- the transaction predicates `UseTimestamp` and `HasConflict`;
- `MaxLogicalType` and `AddCastToType`;
- `BindChild`;
- the Levenshtein distance;
- the function that applies an `AlterInfo`.

Integer widths are explicit where they matter:
- int64 overflow of the statistics subtraction;
- the int64 → uint32 conversion at `RequiredBitsForValue`'s parameter;
- the bit widths of the aggregate states.

## Model

| member | source | states |
|---|---|---|
| TransformColumnRef.Transform | src/parser/transform/expression/transform_columnref.cpp:11-51 | succeeds exactly for the accepted shapes; every failure is the "ColumnRef not implemented!" error; column references carry the node's location; a leading star gives `*` whatever follows |
| TransformColumnRef.TransformFieldsOf | src/parser/transform/expression/transform_columnref.cpp:19-46 | round trip: transforming the canonical field list of any column reference, table star or star gives that expression back, located at the node |
| TransformColumnRef.TransformDenotes | src/parser/transform/expression/transform_columnref.cpp:19-46 | converse: every accepted field list is the canonical list of its result, or a star head with an ignored tail, or an explicit empty table name |
| TransformColumnRef.SingleStringIsColumn | src/parser/transform/expression/transform_columnref.cpp:19-23 | one string field is an unqualified column at the node's location |
| TransformColumnRef.QualifiedColumn | src/parser/transform/expression/transform_columnref.cpp:24-33 | two string fields are `table.column` |
| BindOperator.ReturnTypes | src/planner/binder/expression/bind_operator_expression.cpp:17-19 | one return type per child, position by position |
| BindOperator.CastAll | src/planner/binder/expression/bind_operator_expression.cpp:22-24 | every child is cast to the target, in place, and the count is kept |
| BindOperator.MaxTypeOfUniform | src/planner/binder/expression/bind_operator_expression.cpp:17-20 | when the children share one type, the fold of MaxLogicalType gives that type back, provided the maximum is idempotent |
| BindOperator.MaxTypeIsUpperBound | src/planner/binder/expression/bind_operator_expression.cpp:17-20 | the folded maximum is at least every child's type under any preorder for which MaxLogicalType is an upper bound |
| BindOperator.MaxChildType | src/planner/binder/expression/bind_operator_expression.cpp:17-20 | the loop over the children array computes the left fold of MaxLogicalType over their return types |
| BindOperator.ResolveNotType | src/planner/binder/expression/bind_operator_expression.cpp:8-13 | NOT's single child is cast to BOOLEAN in place and the result type is BOOLEAN |
| BindOperator.ResolveInType | src/planner/binder/expression/bind_operator_expression.cpp:15-27 | every child is cast in place to the maximum type of all children and the result type is BOOLEAN |
| BindOperator.ResolveOperatorType | src/planner/binder/expression/bind_operator_expression.cpp:29-42 | dispatch: IS [NOT] NULL leaves its children alone, [NOT] IN and NOT resolve as above, and the result type is always BOOLEAN |
| BindOperator.InChildrenShareType | src/planner/binder/expression/bind_operator_expression.cpp:21-24 | after resolving [NOT] IN, every child has the children's maximum type, when the cast yields its target type |
| BindOperator.ResolvedChildTypes | src/planner/binder/expression/bind_operator_expression.cpp:29-42 | after resolution IS [NOT] NULL children keep their types and NOT's child is BOOLEAN |
| BindOperator.BindAll | src/planner/binder/expression/bind_operator_expression.cpp:46-52 | binding all children yields one bound child per child |
| BindOperator.BindAllOutcome | src/planner/binder/expression/bind_operator_expression.cpp:46-52 | binding succeeds exactly when every child binds; the results are the children's, in order; a failure reports the error of the first child that fails |
| BindOperator.BindShape | src/planner/binder/expression/bind_operator_expression.cpp:44-67 | the bound operator exists exactly when every child binds; it keeps the operator type and the child count and is BOOLEAN |
| BindOperator.BindExpression | src/planner/binder/expression/bind_operator_expression.cpp:44-67 | the binding loop, the extraction into an array, type resolution and the move into the result equal the specification Bind |
| BitAggregates.GetBitfieldUnaryAggregate | src/function/aggregate/distributive/bitagg.cpp:14-29 | an aggregate exists exactly for TINYINT, SMALLINT, INTEGER, BIGINT and HUGEINT, with the state width of the type and the type as argument and result; any other type raises NotImplemented with the source's message |
| BitAggregates.ApplyAssociative | src/function/aggregate/distributive/bitagg.cpp:37-45 | AND, OR and XOR of bit patterns are associative |
| BitAggregates.ApplyIdempotent | src/function/aggregate/distributive/bitagg.cpp:47-51 | AND and OR absorb a repeated operand |
| BitAggregates.XorCancels | src/function/aggregate/distributive/bitagg.cpp:153-158 | XOR by the same value twice cancels |
| BitAggregates.ApplyFits | src/function/aggregate/distributive/bitagg.cpp:9-12 | the result of AND, OR or XOR fits the state width whenever both operands do |
| BitAggregates.UpdateAppend | src/function/aggregate/distributive/bitagg.cpp:37-45 | feeding two batches of rows one after the other equals feeding their concatenation |
| BitAggregates.MergeUpdate | src/function/aggregate/distributive/bitagg.cpp:62-73 | combining a partial state built from an unset state into a target equals feeding its rows to the target |
| BitAggregates.CombineAgreesWithUpdate | src/function/aggregate/distributive/bitagg.cpp:62-73 | combining the partial states of two row batches equals aggregating both batches in one state |
| BitAggregates.ConstantOperationAsWritten | src/function/aggregate/distributive/bitagg.cpp:47-51 | the constant-vector update as written applies the first row once, whatever the count |
| BitAggregates.IdempotentConstant | src/function/aggregate/distributive/bitagg.cpp:47-51 | for BIT_AND and BIT_OR, applying the row once equals applying it count times, so the as-written constant update is right |
| BitAggregates.XorConstantCounterexample | src/function/aggregate/distributive/bitagg.cpp:162-165 | for BIT_XOR, two identical rows should cancel to 0, but the as-written constant update keeps the row |
| BitAggregates.XorRepeatParity | src/function/aggregate/distributive/bitagg.cpp:162-165 | XOR over count copies of a row depends on the parity of count: an odd count applies the row once, an even count leaves the state's value or 0 |
| BitAggregates.BitState.constructor | src/function/aggregate/distributive/bitagg.cpp:9-12 | a state of the given width satisfies the width invariant |
| BitAggregates.BitState.Initialize | src/function/aggregate/distributive/bitagg.cpp:32-35 | the state becomes unset |
| BitAggregates.BitState.Operation | src/function/aggregate/distributive/bitagg.cpp:37-45 | an unset state takes the row; a set state applies AND/OR/XOR; either way the state equals the specification fed that row, and the width invariant holds |
| BitAggregates.BitState.ConstantOperation | src/function/aggregate/distributive/bitagg.cpp:47-51 | corrected: the state equals feeding count copies of the constant row, for all three operations |
| BitAggregates.BitState.Finalize | src/function/aggregate/distributive/bitagg.cpp:53-60 | an unset state sets the null flag at idx, a set state writes its value at idx, and nothing else in either array changes |
| BitAggregates.BitState.Combine | src/function/aggregate/distributive/bitagg.cpp:62-73 | an unset source leaves the target; an unset target takes the source; otherwise the operation is applied; the result equals the specification Merge |
| BitAggregates.NullsIgnored | src/function/aggregate/distributive/bitagg.cpp:75-77 | aggregating rows with NULLs equals aggregating only the non-NULL rows (IgnoreNull is true for all three aggregates, and the row update skips NULL rows by it) |
| PlanAggregate.RequiredBitsForValue | src/execution/physical_plan/plan_aggregate.cpp:15-22 | the loop counts the bit length of a uint32 value |
| PlanAggregate.BitLengthIsLeast | src/execution/physical_plan/plan_aggregate.cpp:15-22 | n < 2^bits, and for n > 0 the bit before is set: the bit length is the least width that holds n |
| PlanAggregate.BitLengthBound | src/execution/physical_plan/plan_aggregate.cpp:15-22 | a value below 2^k has a bit length of at most k |
| PlanAggregate.TrySubtract | src/execution/physical_plan/plan_aggregate.cpp:84-90 | the int64 subtraction succeeds exactly when the difference fits int64, and then yields it |
| PlanAggregate.CheckGroupSpec | src/execution/physical_plan/plan_aggregate.cpp:33-105 | a group is accepted only if it has an integer type, and has statistics or is INT8/INT16 (which assume the full range); accepted statistics are the given or full-range ones, with a range below INT32_MAX and bits equal to the bit length of range plus two |
| PlanAggregate.CheckGroupAccepts | src/execution/physical_plan/plan_aggregate.cpp:33-105 | both directions: a group is accepted exactly when it has an integer type, has statistics or is INT8/INT16, and its statistics (the given ones, or the full range) have both bounds, no int64 overflow in max - min for INT64, and a range below INT32_MAX; it is then accepted with those statistics and the bit length of range plus two |
| PlanAggregate.RejectionCases | src/execution/physical_plan/plan_aggregate.cpp:66-95 | NULL min or max, an int64 overflow, or a range of at least INT32_MAX rejects the group |
| PlanAggregate.SmallTypesWithoutStats | src/execution/physical_plan/plan_aggregate.cpp:45-63 | without statistics exactly INT8 and INT16 are accepted, with 9 and 17 bits |
| PlanAggregate.AcceptedBitsCoverRange | src/execution/physical_plan/plan_aggregate.cpp:72-105 | an accepted group needs at most 32 bits, and its bits address its whole range plus the NULL slot |
| PlanAggregate.InspectGroup | src/execution/physical_plan/plan_aggregate.cpp:29-105 | one iteration of the group loop equals the group check |
| PlanAggregate.InspectGroupAt | src/execution/physical_plan/plan_aggregate.cpp:29-105 | the same iteration at position i agrees with the check of group i, and keeps the group's given statistics |
| PlanAggregate.SumPrefix | src/execution/physical_plan/plan_aggregate.cpp:96-105 | the bits counted so far never exceed the total |
| PlanAggregate.OverBudget | src/execution/physical_plan/plan_aggregate.cpp:100-103 | once the running bit count passes the threshold, the groups as a whole cannot fit |
| PlanAggregate.CheckGroupsForPerfectHash | src/execution/physical_plan/plan_aggregate.cpp:26-106 | true exactly when every group is accepted and their bits sum to at most the threshold; then it returns each group's bits and statistics; in every case each group's statistics are either kept or filled in from its check |
| PlanAggregate.SupportsPerfectHashAggregates | src/execution/physical_plan/plan_aggregate.cpp:107-113 | true exactly when no aggregate is DISTINCT and every one has a combine function |
| PlanAggregate.CanUsePerfectHashAggregate | src/execution/physical_plan/plan_aggregate.cpp:24-115 | true exactly when every group is accepted within the threshold and every aggregate supports it; the bits and statistics it fills into the operator are the groups' checks |
| PlanAggregate.ProjectGroups | src/execution/physical_plan/plan_aggregate.cpp:177-183 | the groups are moved into the projection and replaced by references to positions 0 … n-1, with their types |
| PlanAggregate.ProjectArguments | src/execution/physical_plan/plan_aggregate.cpp:185-194 | one aggregate's arguments are appended to the projection and replaced by references to their new positions |
| PlanAggregate.ProjectAggregates | src/execution/physical_plan/plan_aggregate.cpp:185-194 | all aggregates' arguments are appended in order and every aggregate is rewritten to reference them |
| PlanAggregate.ExtractAggregateExpressions | src/execution/physical_plan/plan_aggregate.cpp:170-201 | the operator's groups and arguments become references, its statistics are kept, and the plan is a projection of the groups then the arguments over the child, or the child itself when there are none |
| PlanAggregate.GroupReferencesResolve | src/execution/physical_plan/plan_aggregate.cpp:177-183 | each group reference has the group's type and points at the projected column holding that group |
| PlanAggregate.ArgumentReferencesResolve | src/execution/physical_plan/plan_aggregate.cpp:185-194 | each argument reference has the argument's type and points at the projected column holding it; the aggregates keep their DISTINCT, combine and simple-update flags |
| PlanAggregate.RewriteKeepsFlags | src/execution/physical_plan/plan_aggregate.cpp:121-129 | rewriting the arguments changes neither eligibility for simple or perfect-hash aggregation nor all-combinable |
| PlanAggregate.AllCombinableAggregates | src/execution/physical_plan/plan_aggregate.cpp:121-129 | true exactly when every aggregate has a combine function |
| PlanAggregate.SimpleAggregationSupported | src/execution/physical_plan/plan_aggregate.cpp:137-145 | true exactly when no aggregate is DISTINCT and every one has a simple update |
| PlanAggregate.PlanChoice | src/execution/physical_plan/plan_aggregate.cpp:117-168 | the plan is an aggregate over the projection; it is simple exactly when there are no groups and every aggregate allows it; with groups it is perfect-hash exactly when every group check accepts, the bits sum to at most the threshold and every aggregate supports it, and a hash aggregate otherwise |
| PlanAggregate.PerfectHashPlanFits | src/execution/physical_plan/plan_aggregate.cpp:154-165 | a perfect-hash plan has one bit count and statistics per group, a total within the threshold, and per-group bits that cover the range plus NULL |
| PlanAggregate.CreatePlan | src/execution/physical_plan/plan_aggregate.cpp:117-168 | the method builds exactly the specification plan from the operator's groups, statistics and aggregates; the aggregates and groups are moved out, leaving them empty; the statistics are moved out with a perfect-hash plan, kept without groups, and with a hash plan each is kept or filled in from its group's accepted check |
| CatalogSets.NewMappingValue | src/include/duckdb/catalog/catalog_set.hpp:29-30 | a new mapping value points at its index, with timestamp 0 and not deleted |
| CatalogSets.EmptyState | src/include/duckdb/catalog/catalog_set.hpp:105-110 | the empty set satisfies the catalog invariant, with no names, no entries and the entry counter at 0 |
| CatalogSets.FirstUsableUnique | src/include/duckdb/catalog/catalog_set.hpp:90-91 | the visible version is the unique position where no newer version is usable and the version itself is usable or the oldest |
| CatalogSets.LookUpInValid | src/include/duckdb/catalog/catalog_set.hpp:55-56 | in a valid set a bound name's entry exists and carries the name; the lookup finds it exactly when the visible version is not deleted |
| CatalogSets.UsableLinkSpec | src/include/duckdb/catalog/catalog_set.hpp:97 | the transaction reads a mapping link exactly when one of the name's links is usable to it, and then it reads the newest usable one |
| CatalogSets.VisibleLiveIsUsable | src/include/duckdb/catalog/catalog_set.hpp:90-91 | in a chain ending in a deletion, a live version the transaction reads has a timestamp it may use |
| CatalogSets.LookUpIsUsable | src/include/duckdb/catalog/catalog_set.hpp:55-56 | snapshot reads: the entry GetEntry returns, and the mapping link it goes through, have timestamps the transaction may use |
| CatalogSets.RootEntry | src/include/duckdb/catalog/catalog_set.hpp:86-87 | the newest entry for a name, regardless of transaction, is absent exactly when the name is unmapped, and it carries the name |
| CatalogSets.SlotsOfCalls | src/include/duckdb/catalog/catalog_set.hpp:66-77 | the set of indexes visited by a scan holds exactly the indexes of its calls |
| CatalogSets.ScanOfVisible | src/include/duckdb/catalog/catalog_set.hpp:70-75 | every callback gets the transaction's visible version of a stored entry, and never a deleted one |
| CatalogSets.ScanOfSlots | src/include/duckdb/catalog/catalog_set.hpp:70-75 | the scan visits exactly the indexes whose visible version is not deleted |
| CatalogSets.ScanOfOnce | src/include/duckdb/catalog/catalog_set.hpp:70-75 | over distinct indexes, no entry is visited twice |
| CatalogSets.ScanOfIsUsable | src/include/duckdb/catalog/catalog_set.hpp:70-75 | snapshot scans: every version handed to the callback has a timestamp the transaction may use |
| CatalogSets.ScanVisitsVisibleSlots | src/include/duckdb/catalog/catalog_set.hpp:66-77 | a scan over all stored entries calls back exactly once for each entry whose visible version is not deleted |
| CatalogSets.CreatedValid | src/include/duckdb/catalog/catalog_set.hpp:46-49 | creating an entry keeps the catalog invariant, including that every entry chain ends in the deleted, timestamp-0 placeholder of its creation |
| CatalogSets.AlteredValid | src/include/duckdb/catalog/catalog_set.hpp:51 | altering an entry keeps the catalog invariant |
| CatalogSets.DroppedValid | src/include/duckdb/catalog/catalog_set.hpp:53 | dropping an entry keeps the catalog invariant |
| CatalogSets.UndoneValid | src/include/duckdb/catalog/catalog_set.hpp:62-64 | undoing a version keeps the catalog invariant |
| CatalogSets.CreateThenLookUp | src/include/duckdb/catalog/catalog_set.hpp:46-56 | after a create, the creating transaction sees its new entry, and every other name looks up as before |
| CatalogSets.AlterThenLookUp | src/include/duckdb/catalog/catalog_set.hpp:51-56 | after an alter, the altering transaction sees the altered version |
| CatalogSets.DropThenLookUp | src/include/duckdb/catalog/catalog_set.hpp:53-56 | after a drop, the dropping transaction no longer finds the name |
| CatalogSets.VisibleSkipsUnusable | src/include/duckdb/catalog/catalog_set.hpp:90-91 | a version pushed with a timestamp the transaction may not use does not change the version it reads |
| CatalogSets.UsableLinkSkipsUnusable | src/include/duckdb/catalog/catalog_set.hpp:97 | a mapping link pushed with a timestamp the transaction may not use does not change the link it reads |
| CatalogSets.CreateIsolated | src/include/duckdb/catalog/catalog_set.hpp:46-56 | a transaction that may not use the creator's timestamp reads every name exactly as before the create |
| CatalogSets.AlterIsolated | src/include/duckdb/catalog/catalog_set.hpp:51-56 | a transaction that may not use the altering transaction's timestamp reads every name exactly as before the alter |
| CatalogSets.DropIsolated | src/include/duckdb/catalog/catalog_set.hpp:53-56 | a transaction that may not use the dropping transaction's timestamp reads every name exactly as before the drop, the dropped name included |
| CatalogSets.UndoCreate | src/include/duckdb/catalog/catalog_set.hpp:62-64 | undoing a create restores the name mapping and every lookup; only the deleted placeholder of the consumed index remains |
| CatalogSets.ConcurrentCreateConflicts | src/include/duckdb/catalog/catalog_set.hpp:46-49 | when a second transaction cannot see a first one's uncommitted create of a name and conflicts with it, its own create of that name is a write conflict, or false if an older binding is visible to it; it never succeeds |
| CatalogSets.UndoCreateThenCreate | src/include/duckdb/catalog/catalog_set.hpp:46-49 | after a create is undone, every transaction's create has the outcome it had before; a new name can be created again |
| CatalogSets.UnlinkCreation | src/include/duckdb/catalog/catalog_set.hpp:62-64 | undoing a create unlinks its mapping link and leaves only the placeholder at the new index |
| CatalogSets.UnlinkHeads | src/include/duckdb/catalog/catalog_set.hpp:62-64 | undoing a version pushed together with a deletion marker gives back the state before both |
| CatalogSets.UnlinkHead | src/include/duckdb/catalog/catalog_set.hpp:62-64 | undoing a version pushed over a live entry whose name is bound gives back the state before it |
| CatalogSets.UndoDrop | src/include/duckdb/catalog/catalog_set.hpp:62-64 | undoing a drop restores the catalog exactly |
| CatalogSets.UndoAlter | src/include/duckdb/catalog/catalog_set.hpp:62-64 | undoing an alter of a live entry restores the catalog exactly |
| CatalogSets.ReadVersion | src/include/duckdb/catalog/catalog_set.hpp:90-91 | the walk down a version chain returns the transaction's visible version |
| CatalogSets.ReadMapping | src/include/duckdb/catalog/catalog_set.hpp:97 | the walk down a mapping chain returns the newest usable link, or nothing when no link is usable |
| CatalogSets.ScanEntries | src/include/duckdb/catalog/catalog_set.hpp:70-76 | the loop over the stored entries makes exactly the callbacks of the scan specification |
| CatalogSets.IsBound | src/include/duckdb/catalog/catalog_set.hpp:58-60 | true exactly when the name is mapped and its visible link is live for the transaction |
| CatalogSets.ClosestName | src/include/duckdb/catalog/catalog_set.hpp:58-60 | with no bound names the result is empty; otherwise it is a bound name at minimal distance |
| CatalogSets.CatalogSet.constructor | src/include/duckdb/catalog/catalog_set.hpp:44 | a new catalog set is empty |
| CatalogSets.CatalogSet.GetEntryForTransaction | src/include/duckdb/catalog/catalog_set.hpp:90-91 | returns the visible version of the stored entry |
| CatalogSets.CatalogSet.GetMapping | src/include/duckdb/catalog/catalog_set.hpp:97 | returns the newest link (get_latest) or the newest usable link of the name; nothing for an unmapped name or when no link is usable |
| CatalogSets.CatalogSet.GetEntry | src/include/duckdb/catalog/catalog_set.hpp:55-56 | returns the visible live entry of the name, or nothing when it is unbound or deleted |
| CatalogSets.CatalogSet.GetRootEntry | src/include/duckdb/catalog/catalog_set.hpp:86-87 | returns the newest entry for the name regardless of transaction |
| CatalogSets.CatalogSet.CreateEntry | src/include/duckdb/catalog/catalog_set.hpp:46-49 | false when the name is bound for the transaction, a write conflict when the name's newest link conflicts, else true with a fresh entry index and mapping; nothing changes unless it succeeds; the invariant holds |
| CatalogSets.CatalogSet.PutMapping | src/include/duckdb/catalog/catalog_set.hpp:98 | pushes a live link to the index, stamped with the transaction, over the name's chain |
| CatalogSets.CatalogSet.DeleteMapping | src/include/duckdb/catalog/catalog_set.hpp:99 | pushes a deleted link, stamped with the transaction, to the same index |
| CatalogSets.CatalogSet.GetEntryInternal | src/include/duckdb/catalog/catalog_set.hpp:92-93 | false when the name is not live for the transaction, a write conflict on the entry's newest version, else true with the entry's index and visible version |
| CatalogSets.CatalogSet.AlterEntry | src/include/duckdb/catalog/catalog_set.hpp:51 | outcome as in GetEntryInternal; on success a new altered version is pushed; otherwise nothing changes; the invariant holds |
| CatalogSets.CatalogSet.DropEntry | src/include/duckdb/catalog/catalog_set.hpp:53-54 | outcome as in GetEntryInternal, plus a dependency error without cascade when dependents exist; on success a deleted version and a deleted mapping link are pushed; the invariant holds |
| CatalogSets.CatalogSet.Undo | src/include/duckdb/catalog/catalog_set.hpp:62-64 | the newer version above the given one is removed and a deleted or dummy mapping head is popped; the invariant holds |
| CatalogSets.CatalogSet.Scan | src/include/duckdb/catalog/catalog_set.hpp:66-77 | the callbacks are exactly the scan specification over the stored entries |
| CatalogSets.CatalogSet.SimilarEntry | src/include/duckdb/catalog/catalog_set.hpp:58-60 | the empty string when no name is bound for the transaction, otherwise a bound name at minimal distance to the given one |

## Left out

- Catalog: the implementation of the catalog set (`catalog_set.cpp`) is not part of this model. The operations follow the header: walk a chain newest first to the first timestamp the transaction may use, detect conflicts before any change, and push versions. A transaction that may use none of a name's mapping links reads the name as absent. CreateEntry therefore checks the newest link for a conflict whenever it does not see a binding.
- Catalog: `catalog_lock` and the per-set lock map (`set_lock_map_t`) are left out. The model is sequential.
- Catalog: the `DependencyManager` is not part of this model. DropEntry takes `cascade` and whether the entry has dependents as parameters. Cascading drops into other sets (`DropEntryInternal`'s lock set) are not modelled.
- Catalog: the `DefaultGenerator` that creates built-in entries on first lookup is left out.
- Catalog: applying an `AlterInfo`, and renames through it, are not part of this model. AlterEntry takes the alteration as a function on entries.
- Catalog: `GetEntryIndex`, `GetEntryFromIndex`, `UpdateTimestamp` and the index-based `GetEntryInternal` overload are left out. Their bodies are not part of this model, and the transaction manager that calls them is not either.
- Catalog: `UseTimestamp` and `HasConflict` are transaction-manager predicates. They are parameters of the client context.
- Catalog: the callback of `Scan` is replaced by the sequence of calls it would receive. The hash-table iteration order is a parameter.
- CatalogSets.ClosestName: the Levenshtein distance is a parameter. The starting score of "no best yet" is an absent value rather than the maximum `idx_t`. Among equally close names, which one wins depends on the iteration order, so the contract only says the result is at minimal distance.
- Catalog: entries carry a name, a timestamp, a deleted flag and an optional content. Dummy versions have no content. The entry class hierarchy is left out.
- Binder: `BindChild` is not part of this model. It is a parameter that returns a bound child or an error. As in DuckDB's expression binder, the first error is reported.
- Binder: `MaxLogicalType` and `AddCastToType` are parameters. The binder's depth argument and the `BoundExpression` wrappers are left out. Casting is in place on an array of bound children.
- Binder: an operator type other than IS [NOT] NULL, [NOT] IN and NOT takes the NOT branch, as the source's default does once its debug assertion is compiled out.
- Bitwise aggregates: vectors, selection vectors and the `AggregateFunction` templates are left out. A state is updated row by row, so the vector loops of the aggregate executor are not part of this model. Values are bit patterns of at most 128 bits, held as two 64-bit words; narrower types are zero-extended.
- Bitwise aggregates: `RegisterFunction` and the function-set registration are left out.
- Planning: the physical operators are data. Their construction and `op.types` are not modelled beyond what the plan holds. A move-from leaves the moved member empty. Column statistics are assumed to lie within the column type.
- PlanAggregate.CanUsePerfectHashAggregate: when it returns false, the contract says only that each group's statistics are kept or filled in from its check. It does not say exactly how far the loop got before it stopped.
- Transform: a field list is never empty. The source reads its head before the length check, so the `fields->length < 1` branch cannot be reached; the model requires at least one field.

## Findings

| source | as written | input that shows it | evidently intended | confidence | as-written member | corrected member |
|---|---|---|---|---|---|---|
| src/function/aggregate/distributive/bitagg.cpp:162-165 | BIT_XOR's ConstantOperation applies the constant row once and ignores `count` | an unset state, the constant row 1, count 2: as written the result is 1, but XOR over two rows equal to 1 is 0 | apply the row `count` times, which for XOR means once when `count` is odd and not at all (the value 0 for an unset state) when it is even | not executed | BitAggregates.XorConstantCounterexample | BitAggregates.BitState.ConstantOperation |
