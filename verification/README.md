# migra-go, verified

migra-go compares two PostgreSQL schemas and turns the differences into an executed migration. This
project models the four parts that do so and proves what they promise, and where they do not keep a
promise, exactly when.

- **Planner.** The dependency graph over operations with its object-key index, the FIFO topological
  sort, the three stages, the concatenated plan (`Graphs`, `Dag`, `Planner`, `PlanTheorems`,
  `CreationOrder`, `Cycles`).
- **Differ.** What is emitted for two schemas, rename detection included; what the operations do to
  the source, in emission order and in the order of a plan; when they can be carried out; what a
  second diff then finds (`DiffSpec`, `Differ`, `RenameTheory`, `Semantics`, `Execution`, `Locality`,
  the `*Migration` and `*Plans` modules, `Convergence`, `PlannedDiff`, `PlanApplies`,
  `EmissionOrder`, `Resolution`, `PlanOrder`, `Removal`, `PlanExecution`, `SafeExecution`,
  `SafeMode`, `SafeTypes`, `Destruction`, `Agreement`).
- **Push.** The transaction, the prompt and what may be executed (`Push`), and the logs that runs
  leave (`RunLog`).
- **Schema store.** Tables with three views of their columns, mutations that work on them in place,
  deep copies, canonicalization in place (`Store`, `SchemaStore`, `Normalize`, `Canonical`,
  `MutationSpec`, `Mutations`, `Confluence`, `MutationMeaning`), and the whole computation on schema objects
  (`Pipeline`).

Code that changes state is modelled by classes and methods with loops, each tied to a function of
its inputs or of the old state; the theorems are about those functions. Values of the schema are
datatypes (`Catalog`); the objects of `Store` and `SchemaStore` have them as snapshots. The order in
which Go walks a map is a parameter where it shows (`walk`: the columns that are dropped) and proved
irrelevant where the code sorts. A context is polled, and an uncancelled run is one in which no poll
reports a cancellation.

How to read the main notions:

- `IsPlan(ops, plan)`: `plan` is what planning makes of `ops`. There is one exactly when planning
  succeeds, and never two (`PlanTheorems.PlanExists`, `PlanTheorems.PlanUnique`).
- `Apply(ops, s)`: the effect of operations on a schema, looking at the objects that they create,
  change or remove (`Semantics`); it fails as soon as one does not apply.
- `Execute(ops, s, outside)`: carrying them out, which besides needs the tables and columns that an
  index, a constraint or a foreign key names, and refuses to drop a table that another one refers to
  (`Execution`). `outside` are tables of namespaces that are not compared. What PostgreSQL checks
  beyond that is listed under "Left out"; "can be carried out" is meant in this sense.
- `Migrated(order, s, t, r)`: `r` is `s` after all operations towards `t`, object by object, when they
  run `AsEmitted` or `AsPlanned`. It is the target but for what is spelled out there: inexpressible
  changes of columns, renamed columns' identities, labels that cannot be appended, indexes of new or
  moved tables.
- `SchemasAgree(s, t)` and `Reached(order, s, t, r)`: agreement of two schemas, and `Migrated`, told
  field by field without the differ's own comparisons (`Agreement`).
- `CanLose(op)`: there is a schema from which the operation takes something away (`Destruction`).
- `Settles(order, s, t)`: after that, a second diff finds nothing. A condition on the two schemas
  alone.

## Model

| member | source | states |
|---|---|---|
| Graphs.ScheduleFullIffAcyclic | internal/plan/dag.go:114-143 | The queue takes in every node exactly when the graph has no cycle, and then every node comes after its dependencies |
| Graphs.ScheduleUnique | internal/plan/dag.go:114-139 | The graph alone determines the order that the queue produces |
| Graphs.EqualDependenciesKeepOrder | internal/plan/dag.go:114-139 | Nodes with the same dependencies keep their input order |
| Graphs.RootsLead | internal/plan/dag.go:107-117 | Nodes without dependencies come first, in input order |
| Graphs.NoEdgesUnchanged | internal/plan/dag.go:107-139 | A graph without edges is left in input order |
| Dag.DAG.AddDependency | internal/plan/dag.go:48-58 | Adds one edge in both directions, or nothing for a nil end, a self-dependency or an edge that is there; both directions go on agreeing |
| Dag.DAG.FindNodeByObjectKey | internal/plan/dag.go:90-101 | The first DROP CONSTRAINT with the key if there is one, else the first operation with it |
| Dag.BuildDAG | internal/plan/dag.go:61-84 | The objects represent the graph in which every operation points at what its keys resolve to, itself excluded |
| Dag.DAG.GetExecutionOrder | internal/plan/dag.go:104-147 | Uninterrupted, succeeds exactly when the graph is acyclic; then the result is a permutation in which dependencies come first; interrupted only when cancelled |
| Dag.TopoSort | internal/plan/plan.go:108-111 | The same for a list of operations: a cycle is reported exactly when there is one |
| Planner.Plan | internal/plan/plan.go:57-74 | Uninterrupted, each stage holds its operations in input order; interrupted only by a cancellation |
| Planner.FilterDestructiveOps | internal/app/pipeline.go:56-84 | Keeps exactly what is allowed, in order, which is what can take nothing away (Destruction.DestructiveExact, SafeTypes.DiffAllowedExact); no warning if nothing was removed, else the number of removed operations, kind and key of each in order, and the hint |
| Destruction.DestructiveExact | internal/diff/operation_column.go:194-502 | An operation counts as destructive exactly when there is a schema from which it takes away an object, the identity of a column or its type. Three choices are named: a change of collation may restate the type, a view that is dropped to be created again counts as kept, and a change from a type to itself counts as destructive |
| Destruction.ColumnsExact | internal/diff/operation_column.go:31-502 | Of the operations on columns exactly drops, changes of type and drops of identities can take something away: SET and DROP NOT NULL, SET and DROP DEFAULT, ADD and SET IDENTITY, renames, additions and changes of collation stay |
| SafeTypes.DiffAllowedExact | internal/app/pipeline.go:66-74 | Of what the differ emits, exactly the operations stay in the default mode that take nothing away from any schema |
| Destruction.RemovalTells | internal/app/pipeline.go:75-80 | Kind and key in a warning tell what the removed operation does to which object, of columns and constraints up to a dot in the names |
| Planner.BuildExecutionPlan | internal/app/pipeline.go:89-116 | Uninterrupted, fails exactly when some stage has a cycle, and otherwise returns the plan |
| PlanTheorems.PlanConserves | internal/app/pipeline.go:96-115 | A plan is a permutation of its input in three blocks: pre-deploy, deploy, post-deploy |
| PlanTheorems.PlanUnique | internal/plan/dag.go:104-147 | Two plans of the same operations are equal |
| PlanTheorems.PlanExists | internal/app/pipeline.go:89-116 | There is a plan exactly when no stage has a cycle |
| PlanTheorems.SortIsStable | internal/plan/dag.go:114-139 | Operations that wait for the same keys, none of them theirs, stay in input order among themselves |
| PlanTheorems.DropBeforeAdd | internal/plan/dag.go:86-101 | Inside one sort, a constraint is dropped before it is added again |
| CreationOrder.WaitsExactly | internal/plan/dag.go:61-101 | If no other operation has its key, an operation is waited for by exactly those that work on what it makes, changes or removes: changes of a table's columns, its indexes and constraints, tables with foreign keys to it, labels of a type |
| CreationOrder.MadeFirst | internal/app/pipeline.go:89-116 | In any plan of any operations a table or enum type that is made once comes before everything that works on it |
| Cycles.PlanningFailsExactlyOnReferenceCycles | internal/plan/dag.go:78-101 | With every table added once, planning fails exactly when two or more new tables refer to each other in a cycle; self-references, repeated keys and the later stages never make it fail |
| Cycles.DeployUnchanged | internal/plan/plan.go:86-104 | Sorting the deploy stage leaves it as it is |
| PlannedDiff.DiffPlanningFails | internal/diff/operation_table.go:94-102 | Planning what the differ emits, with or without drops, fails exactly on such a cycle |
| PlannedDiff.CreateSchemaFirst | internal/diff/differ.go:36-60 | In a plan everything for a new namespace comes after its CREATE SCHEMA |
| RenameTheory.SignatureRefinesCandidates | internal/diff/diff_tables.go:312-328 | Rename candidates share a signature; for readable columns a shared signature means a candidate pair, unless one default is absent and the other empty |
| RenameTheory.RenamesExact | internal/diff/diff_tables.go:196-240 | A pair is renamed exactly when the source name is the smallest and the target name the largest of those left over with its signature |
| RenameTheory.RenamesInjective | internal/diff/diff_tables.go:215-240 | No column is renamed twice, and no name is taken twice |
| RenameTheory.OneRenamePerSignature | internal/diff/diff_tables.go:196-240 | A signature that is left over on both sides gives exactly one rename |
| Differ.DiffContext.DiffTableColumns | internal/diff/diff_tables.go:195-266 | The loops append exactly the specified renames, additions, removals and alterations |
| Differ.Diff | internal/diff/differ.go:29-97 | Uncancelled, the imperative differ emits exactly the specified operations and warnings, whatever order the maps yield their keys in, but for the walk over the columns to drop (what these are worth: Agreement.NothingExactly, Agreement.DiffReaches); cancelled from the start, nothing |
| Agreement.NothingToDo | internal/diff/differ.go:36-97 | A well-formed schema compared with itself gives no operations and no warnings |
| Agreement.NothingExactly | internal/diff/differ.go:29-97 | Two well-formed schemas give no operations exactly when they agree field by field: tables, columns, constraints of each kind, indexes, labels, views, sequences, versions; neither a difference that is overlooked nor one that is made up |
| Agreement.NoWarningExactly | internal/diff/differ.go:179-199 | They give no warnings exactly when the labels of every type stay or are extended, and `public` stays |
| Agreement.DiffReaches | internal/diff/diff_tables.go:78-176 | After the emitted operations every constraint of a common table agrees with the target in kind and columns, a foreign key also in what it refers to and its actions, a CHECK in its expression, and stays untouched if it agreed before; indexes that are there agree in uniqueness, method, condition and elements; views and sequences are the target's; columns, labels, versions and new tables are, but for what is named |
| Agreement.PlanReaches | internal/app/pipeline.go:89-116 | So it is after any plan that can be carried out |
| TableMigration.EmittedColumns | internal/diff/diff_tables.go:195-266 | In emission order every column operation applies at its turn, and the columns by name become what the differ intends |
| StagedMigration.StagedColumns | internal/app/pipeline.go:96-115 | So they do stage by stage, and the result is the same |
| StagedMigration.MigrationExact | internal/diff/diff_columns.go:8-52 | That result is the target exactly when every change of a common column can be expressed and renamed columns agree with their targets |
| StagedMigration.RenamesDifferInIdentityOnly | internal/diff/diff_tables.go:178-192 | For readable signatures, renamed columns can disagree in their identity only |
| PlannedDiff.PlannedColumns | internal/app/pipeline.go:89-116 | In any plan of the whole diff a table's column operations apply at their turns and end in the same columns, equal to the target under the same exact condition |
| PlannedDiff.PlannedLabels | internal/diff/differ.go:179-199 | In any plan the labels of a type are appended in target order if they extend the source's; otherwise there is no label operation, and a warning exactly when the labels stay different |
| SchemaMigration.DiffApplies | internal/diff/differ.go:36-97 | For all well-formed schemas every emitted operation applies to its own object, in emission order, and every object becomes what is described |
| Execution.ExecuteExact | internal/diff/operation_table.go:148-160 | A run can be carried out exactly when it applies and every operation finds what it names and drops no table that is referred to; it then has the effect it has by itself |
| EmissionOrder.TurnOrder | internal/diff/diff_tables.go:32-74 | Of two tables all operations on one are emitted before all on the other: by namespace, then new, old and common tables, then by name; namespaces that are dropped come last |
| EmissionOrder.ColumnsFirst | internal/diff/diff_tables.go:70-74 | A common table's columns are dealt with before its new indexes and constraints |
| Resolution.DiffCreates | internal/diff/diff_tables.go:32-118 | The tables, indexes and constraints that are created, read off the two schemas |
| Removal.DiffExecutes | internal/diff/differ.go:36-97 | In emission order the operations can be carried out exactly when all that is created finds what it names - at the target in earlier tables and its own, at the source in later ones - and no table is dropped that another one then refers to; the result is the one described |
| Convergence.DiffApplyDiff | internal/diff/diff_tables.go:12-118 | After the emitted operations have been applied a second diff is empty exactly when every table settles: the types of common columns do, renamed columns agree, new tables have no indexes, no index is dropped after its creation |
| Convergence.TwoRounds | internal/diff/diff_tables.go:195-266 | A third diff, after a second round, is empty exactly when the types of renamed columns settle |
| Convergence.TypedSettles | internal/diff/diff_columns.go:29-37 | They always do when every column of the target has a type, so that two rounds suffice |
| Convergence.RenamesSettleOnIdentity | internal/diff/diff_tables.go:178-192 | For readable signatures a renamed column settles exactly when its identity agrees |
| PlannedDiff.PlannedReplacementFails | internal/plan/plan.go:77-104 | The operations for a constraint of a common table always apply in emission order, and in a plan exactly when the constraint is not a changed one |
| PlanApplies.PlanTakesEffect | internal/app/pipeline.go:89-116 | Every operation of a plan of the whole diff applies to its own object exactly when the plan replaces no constraint, no view that has to be dropped first and no index that does not say IF NOT EXISTS; the result is then the one described |
| PlanApplies.PlanApplyDiff | internal/app/pipeline.go:89-116 | After a plan that applies a second diff is empty exactly when every table settles in planned order |
| PlanExecution.PlanRuns | internal/app/pipeline.go:89-116 | A plan of the whole diff can be carried out on the source exactly when it replaces nothing in that sense, all that it creates finds what it names among what is there before deploy, and no table is dropped that the target or a later table's source refers to; the result is then the one described |
| PlanExecution.IndexResolves | internal/diff/operation_index.go:62-74 | For an index whose columns are the target's: it finds them in a plan exactly when none of them is a rename target |
| PlanExecution.ConstraintResolvesOwn | internal/diff/operation_constraint.go:47-52 | So does a constraint that is no foreign key |
| PlanExecution.NewTablesInOrder | internal/diff/operation_table.go:94-102 | In any plan, with or without drops, every new table comes after the other new tables that it refers to |
| PlanExecution.ForeignKeysInOrder | internal/diff/operation_constraint.go:47-52 | In any plan a constraint added to a common table comes after a new table exactly when that waits for no other new table and is emitted earlier, or, if an earlier addition has the same key, when all that it waits for are so |
| PlanOrder.ColumnPlace | internal/plan/dag.go:104-139 | In the sorted pre-deploy stage a column added to a common table comes before what is created exactly when that waits for something, is on the same table or is emitted later |
| Graphs.WaitingOrder | internal/plan/dag.go:119-139 | Against a node that waits for one root, another node comes first exactly when all that it waits for are roots that come before that root in the input |
| Removal.PostUnchanged | internal/plan/plan.go:86-104 | Sorting the differ's post-deploy stage leaves it as it was emitted |
| SafeExecution.SafePlanIsKept | internal/app/pipeline.go:56-116 | The plan made without destructive operations is the full plan without them |
| SafeExecution.SafePlanRuns | internal/app/pipeline.go:56-116 | In the default mode a plan can be carried out exactly when nothing has to make room for its replacement and all that is created finds what it names |
| PlanExecution.PlanTwice | internal/app/pipeline.go:89-116 | If the target's indexes name columns of their tables: a plan of what is found after a first plan that was carried out can always be carried out, and a third diff is empty exactly when the types of renamed columns settle |
| SafeMode.SafePlanLosesNothing | internal/app/pipeline.go:56-84 | A plan without destructive operations, whichever of its operations fail, loses no namespace, table, constraint or index name, type, label, sequence, extension or identity, and leaves every column under its own name or the one it was renamed to; types change only with a collation, to what the change restates, and views disappear only where they change between plain and materialized |
| SafeTypes.SafePlanTypes | internal/diff/diff_columns.go:32-39 | In the default mode a common column ends with the target's type if its collation changes and that type is given, and keeps its own otherwise |
| RunLog.ClosedOnce | internal/app/push/push_service.go:48-53 | A finished run has one successful commit and no rollback, or none and exactly one rollback; at most one commit was attempted |
| RunLog.NothingAfterTheEnd | internal/app/push/push_service.go:134-147 | Nothing is executed after a commit, failed or not, or a rollback |
| Push.TransactionState.ExecuteAuto | internal/app/push/push_service.go:149-170 | Attempts exactly the statements that may run, in plan order, up to where it stops; succeeds and commits exactly when it is not cancelled, none fails, none is non-transactional and the commit works. Interrupted exactly when cancelled with something to do, and then at once if it was due; a failed execution exactly when one failed, with the statement; a non-transactional statement is the first one |
| Push.TransactionState.ExecuteInteractive | internal/app/push/push_service.go:172-243 | The same failures for the same causes; whatever is executed was answered with yes or covered by apply-all; while apply-all is in force only blocked statements are asked about; every answer is heeded - agreed to, the statement is executed next, no rolls back, skip goes on to a later one, anything else asks again; the answers are the lines typed, in order; success means that all was executed or skipped and committed, or declined and rolled back |
| Push.Console.ReadUserInput | internal/app/push/push_service.go:246-252 | The next line in normal form; the end of input reads as no, so that prompting ends |
| Push.AnswerExact | internal/app/push/push_service.go:193-252 | An answer is y, n, a or s exactly when that letter was typed, in either case, with nothing but white space around it |
| Push.ExecutePlan | internal/app/push/push_service.go:97-122 | Failing to connect or to begin are the errors for exactly these causes, and nothing happens; otherwise all of the above holds of the whole run, the rollback of what was left open included, and an error means that nothing was committed |
| Store.Leaf.Clone | internal/model/clone.go:27-51 | A new object with the same content |
| Store.ColumnObject.Clone | internal/model/clone.go:85-98 | A new column with a default expression of its own |
| Store.Table.constructor | internal/model/table.go:54-65 | An empty table whose three views of its columns are right |
| Store.Table.AddColumn | internal/model/table.go:73-77 | Under a new name, appends the column to all three views |
| Store.Table.RemoveColumn | internal/model/table.go:81-95 | Removes exactly the named column, moving the last into its place; a name the index map lacks changes nothing, and a name it has at the wrong place makes the views disagree |
| Store.Table.RenameColumn | internal/parser/rename_column_mutation.go:34-51 | Slice and lookup go on agreeing and the column keeps its place |
| Store.CloneTable | internal/model/clone.go:148-178 | From distinct column names alone: equal content, no shared object down to the default expressions, and three views that are right even where the index map of the original is stale |
| SchemaStore.CloneNamespace | internal/model/clone.go:181-209 | Equal content, no shared object, all index maps right |
| SchemaStore.CloneSchema | internal/model/clone.go:212-223 | The same for a schema |
| SchemaStore.FilterNamespaces | internal/app/pipeline.go:16-41 | Keeps the listed namespaces of both schemas, all if none is listed, and warns exactly when names were listed and nothing is left |
| Normalize.CanonicalizeTable | internal/normalize/normalize.go:44-76 | Overwrites columns, default expressions, constraints and indexes in place and builds the lookup anew; the contents become those that Canonical.TableIsCanonical describes field by field |
| Normalize.CanonicalizeSchema | internal/normalize/normalize.go:13-42 | Every object of the schema gets the canonical form that Canonical.SchemaIsCanonical describes field by field, and nothing outside the schema changes |
| Canonical.SchemaIsCanonical | internal/normalize/normalize.go:13-118 | Exactly the named strings of every object change, to their canonical forms; an index with elements keeps them and one without gets one plain element for each column, in order; every other field of every object stays, and so do the keys, but columns are found under their new names |
| Canonical.TableIsCanonical | internal/normalize/normalize.go:44-104 | The same for a table |
| Canonical.DatabaseAndFileAlike | internal/normalize/normalize.go:89-101 | A schema whose indexes are given by columns, as read from a database, and the same with the matching elements, as read from a file, have the same canonical form |
| Canonical.CanonicalStays | internal/normalize/normalize.go:70-118 | Where all strings are canonical already, nothing changes but the elements of indexes without any |
| Mutations.CompleteOne | internal/parser/mutation.go:99-125 | CREATE TABLE on a placeholder keeps the columns that are there with the same type, appends the rest and completes the table; a type mismatch stops it half-way; on a complete table it fails |
| Mutations.DropOne | internal/parser/mutation.go:206-213 | Drops a column that is there, and reports one that is not |
| Mutations.EnterOne | internal/parser/index_mutation.go:24-59 | Enters a new index, and its columns as the primary key if it is one; one that is there fails or, with IF NOT EXISTS, stays |
| Mutations.ApplyMutation | internal/parser/mutation.go:99-408 | Every mutation does to the objects what is specified for their contents, failures and half-way failures included, and disturbs no index map but that of a table it renames in |
| Mutations.MutationApplier.Apply | internal/parser/applier.go:17-34 | A list of mutations goes on after failures and collects them, provided that no column is dropped from a table after a rename in that table |
| Confluence.CreateAnywhere | internal/parser/mutation.go:99-163 | Wherever CREATE TABLE stands among ADD COLUMNs of other names, nothing fails and columns by name, primary key and constraints are the same; the table is no placeholder |
| MutationMeaning.OperationIsMutation | internal/parser/mutation.go:151-408 | An operation that applies to a created table does what its mutation does, which does not fail |
| MutationMeaning.EnumMeaning | internal/parser/mutation.go:181-188 | So it is for a new enum type |
| MutationMeaning.SchemaMeaning | internal/parser/create_schema_handler.go:43-46 | CREATE SCHEMA always applies and does what its mutation does |
| MutationMeaning.CreateTableMeaning | internal/parser/mutation.go:99-133 | ADD TABLE makes what CREATE TABLE with its columns in order and its constraints in any order makes |
| Pipeline.ComputeDiff | internal/app/pipeline.go:120-143 | The two schemas stay as they are although their copies are overwritten; uncancelled, the result is the plan of what the differ emits for the selected canonical namespaces, and it fails exactly when there is none; a cancelled run gives the empty plan and no error exactly when nothing that is allowed had been emitted, and an error otherwise; the removals that are warned about and whether nothing was selected are as for the emitted operations and the selected schemas |
| Pipeline.DatabaseMatchesFile | internal/normalize/normalize.go:87-101 | A schema as read from a database, with indexes given by columns, and the same as read from a file give no operations and no warnings |
| Pipeline.ComputeCancelled | internal/app/pipeline.go:120-143 | Under a context that is cancelled from the start any two schemas give the empty plan and no error |
| Pipeline.DiffWithClone | internal/model/clone.go:212-223 | A schema compared with its copy gives no operations and no warnings |
| Quoting.IdentifierRoundTrip | internal/util/util.go:10-14 | Reading a delimited identifier back, as in section 4.1.1 of the PostgreSQL manual, recovers any name and what follows it |
| Quoting.QualifiedRoundTrip | internal/util/util.go:17-19 | So it does a qualified name |
| Quoting.QuoteIdentifierList | internal/util/util.go:22-28 | And the loop's list, the empty one included |
| Quoting.QuotingIsInjective | internal/util/util.go:10-28 | Different names, pairs or lists are never written alike |
| RenameTheory.SignatureCollisions | internal/diff/diff_tables.go:312-328 | Two pairs of columns that share a signature and are no rename candidates |
| Findings.ReplacedConstraint | internal/plan/plan.go:77-104 | A changed CHECK: in emission order the operations can be carried out, there is a plan, and no plan can |
| Findings.ReplacedView | internal/diff/differ.go:202-283 | The same for a materialized view with a new definition |
| Findings.ReplacedIndex | internal/diff/diff_tables.go:269-308 | The same for an index that becomes unique |
| Findings.LostIndex | internal/diff/diff_tables.go:269-308 | If that index says IF NOT EXISTS the plan can be carried out, and then the table has no index |
| Findings.LostIndexPlanned | internal/app/pipeline.go:89-116 | There is such a plan |
| Findings.NewTableWithIndex | internal/diff/diff_tables.go:12-75 | A new table with an index: after one round the differ still finds something to do |
| Findings.MovedIndex | internal/diff/diff_tables.go:269-308 | So it does after an index has moved to a table with an earlier name, index names being per table |
| Findings.NoPlan | internal/diff/operation_table.go:94-102 | Two new tables that refer to each other have no plan |
| StuckPlans.RenamedIndex | internal/plan/plan.go:84-99 | A column that is renamed and gets an index: in emission order the operations can be carried out, and in no plan |
| StuckPlans.ForeignKeyTooEarly | internal/diff/operation_constraint.go:47-52 | A new foreign key to a new table that refers to another new table: in every plan the key comes before its table, and the plan cannot be carried out |
| StuckPlans.TableBeforeColumn | internal/diff/operation_table.go:94-102 | A new table that refers to a column that an old table gets: no plan can be carried out |
| StuckPlans.TableDroppedFirst | internal/diff/diff_tables.go:47-74 | A table that is dropped together with the foreign key that refers to it: no plan can be carried out |
| StuckPlans.OnlyPlanRuns | internal/diff/operation_table.go:94-102 | A new table that refers to a later one: a plan can be carried out, the operations as emitted cannot |
| Findings.ReplacementVanishes | internal/parser/mutation.go:364-408 | Read as mutations, the statements for a changed constraint succeed in both orders; in emission order they leave the new constraint, in a plan none |
| SafeTypes.ShortenedAnyway | internal/diff/operation_column.go:472-502 | A text column that is to become shorter and to get a collation: every plan of the default mode holds no change of type, can be carried out, and makes the column shorter |
| SafeTypes.ShortenedPlanned | internal/app/pipeline.go:89-116 | There is such a plan |
| Store.RenameThenDrop | internal/model/table.go:81-95 | A renamed column is not dropped: the drop changes nothing |
| Store.RenameTwiceThenDrop | internal/model/table.go:81-95 | If another column takes a renamed column's old name and is dropped, the renamed one leaves the slice and the views disagree |

## Findings

Each is proved: the inputs are concrete schemas (most in `Findings` and `StuckPlans`), and "exactly when"
points at the member with both directions.

| what | input | exactly when |
|---|---|---|
| A plan adds a changed constraint before it drops the old one, although internal/plan/dag.go:86-89 means to drop first: ADD CONSTRAINT is pre-deploy, DROP CONSTRAINT post-deploy, and stages are sorted one by one. PostgreSQL stops at the ADD; the parser's mutations end without the constraint. | Findings.ReplacedConstraint, Findings.ReplacementVanishes | PlannedDiff.PlannedReplacementFails, PlanExecution.PlanRuns |
| A plan creates a materialized view, or one whose kind changes, before it drops the old one. | Findings.ReplacedView | PlanExecution.PlanRuns |
| A plan creates a changed index before it drops the old one; with IF NOT EXISTS the index is lost instead. | Findings.ReplacedIndex, Findings.LostIndex | PlanExecution.PlanRuns, PlanApplies.PlanApplyDiff |
| A plan creates an index or adds a constraint on a renamed column under the new name before it renames the column: CREATE INDEX and ADD CONSTRAINT are pre-deploy, RENAME COLUMN is deploy. | StuckPlans.RenamedIndex | PlanExecution.PlanRuns, PlanExecution.IndexResolves, PlanExecution.ConstraintResolvesOwn |
| ADD CONSTRAINT depends on its own table and key only, not on the table that a foreign key refers to: a new table that waits for another one is created after the key is added. | StuckPlans.ForeignKeyTooEarly | PlanExecution.ForeignKeysInOrder, PlanExecution.PlanRuns |
| ADD TABLE depends on the tables it refers to, not on their columns: a new table that waits for no other one is created before an old table of its namespace gets the column that its foreign key needs. | StuckPlans.TableBeforeColumn | PlanOrder.ColumnPlace, PlanExecution.PlanRuns |
| Old tables are dropped before the foreign keys of the common tables of their namespace are, in emission order and in plans: PostgreSQL refuses to drop a table that is still referred to. | StuckPlans.TableDroppedFirst | Removal.DiffExecutes, PlanExecution.PlanRuns |
| New tables are emitted by name: the operations as emitted, unlike a plan, can create a table before one that it refers to. | StuckPlans.OnlyPlanRuns | Removal.DiffExecutes |
| ADD TABLE carries no indexes, so the first migration leaves a new table without them. | Findings.NewTableWithIndex | Convergence.DiffApplyDiff |
| DROP INDEX names no table: an index that moves to a table with an earlier name is created and then dropped. That is so for index names per table, as the repository keeps them; in PostgreSQL they are per schema, and the creation already meets the old index. | Findings.MovedIndex | Convergence.DiffApplyDiff |
| Two new tables that refer to each other cannot be planned. | Findings.NoPlan | PlannedDiff.DiffPlanningFails |
| Columns with equal signatures can differ in what the pairwise comparison looks at. | RenameTheory.SignatureCollisions | RenameTheory.SignatureRefinesCandidates |
| A rename does not touch the index map: a later drop of the column does nothing, or takes another column out of the slice. | Store.RenameThenDrop, Store.RenameTwiceThenDrop | Store.Table.RemoveColumn |
| The default mode leaves ALTER COLUMN TYPE out as destructive, but a change of collation, which is not destructive, writes the target's type (internal/diff/diff_columns.go:32-39): the type changes all the same. | SafeTypes.ShortenedAnyway | SafeTypes.SafePlanTypes |
| A cancelled diff that has emitted nothing yet gives the empty plan and no error. | Pipeline.ComputeCancelled | Pipeline.ComputeDiff |

## Left out

- Parsing with pg_query and the statement handlers, database introspection, loading, hooks, command line, JSON output and printing: input and output around the modelled core.
- The text of rendered SQL beyond quoting; in the push service rendering and the test for non-transactional statements are opaque functions of the operation.
- The string functions of internal/normalize/normalize.go are parameters of module Normalize: regular expressions and Unicode case are not modelled. They are not idempotent in general (a quoted mixed-case identifier first loses its quotes, then its case), and nothing is claimed about canonicalizing twice.
- Normalize.CanonicalizeTable: requires that no two columns of a table have the same canonical name; the code lets them collapse into one entry of the lookup while both stay in the slice.
- Pipeline.ComputeDiff: requires the same of both schemas; and since objects can be renamed under unchanged map keys, its two snapshots need not be well-formed in the sense in which the theorems about the differ ask for it.
- Store.Table.AddColumn: requires a new name, since the code appends a second column of the same name without looking; so do the mutations that add columns (MutationSpec.AllAddable).
- Mutations.MutationApplier.Apply: requires that no column is dropped from a table after a rename in that table; what happens otherwise is Store.RenameThenDrop and Store.RenameTwiceThenDrop.
- Convergence.TwoRounds: speaks of emission order and of the effect of operations (`Apply`); PlanExecution.PlanTwice is its counterpart for plans that are carried out.
- SchemaMigration.DiffApplies: looks at the objects that the operations create, change or remove only; Removal.DiffExecutes adds what they refer to.
- PlanApplies.PlanTakesEffect: the same for plans; PlanExecution.PlanRuns adds the rest.
- PlanExecution.PlanTwice: requires that the target's indexes name columns of their tables, as they do in any database.
- Column order: the theorems about columns are about columns by name and a slice without duplicates; positions change with additions and removals.
- What PostgreSQL checks and `Execution.Execute` does not: names inside expressions, types, index conditions and view queries, so that nothing is said about tables and the enum types they use or views and the tables they use; the unique key that a foreign key needs; the data; what depends on an object that is dropped, other than foreign keys on a table that DROP TABLE removes; relation names that are unique per schema, those of the indexes behind constraints included.
- Mutations for views, sequences, extensions and drops of whole objects: the repository has none; their operations mean what their fields say.
- Slices of strings inside an object (the columns of an index, the labels of a type) are values: no code overwrites their elements, so sharing them would not show.
- Objects that a mutation carries are values that are copied in; the code keeps pointers into the mutation, which it does not use again.
- Nil pointers other than those that the code tests for, and sequence values beyond 64 bits.
- Lower-casing of answers at the prompt is modelled for ASCII letters.
- Cancellation and signals show through polls only; concurrency with the outside world is not modelled.
- Connecting, beginning, executing and committing are answered by oracles; what a database does with a statement is module Semantics and module Execution, not Push.
