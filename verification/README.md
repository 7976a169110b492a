# DBBuddy: a verified model of its concurrency, join planning, caching and failover

DBBuddy turns questions into SQL. This project models the parts of it that are decided by
state and algorithms rather than by text heuristics, and proves what they promise.

- **The concurrency ceiling.** `SlotLeases` is the lease semaphore over a Redis sorted set.
  `SlotCeiling` is every interleaving of attempts, lost attempts' clean-ups, releases, crashes,
  time, key expiry and the fallback to per-process semaphores. `RateLimiter` is the
  sliding-window limit.
- **Join planning.** `RelationshipGraph` builds the join graph; `DeclaredGraph` and `KeyEdges` tell
  what it holds by the catalog. `JoinSearch` is the breadth-first path search and `JoinOrder` its
  choice among shortest paths. `JoinPlan`, `JoinPruning`, `JoinPasses` and `PlanFinish` are the join
  list and the passes that rewrite it, and `PlanKeys` what a finished plan joins on. `ColumnRepair`
  is the last repair of a column name, `PlanRepair` its walk
  over a plan. `GroupBy` is the GROUP BY decision, `GroupByRepair` what the repair makes of its
  hidden keys, and `GroupByPlan` what the finished plan keeps of it.
  `PlanExamples` holds plans that do not fare as they should.
- **Schemas and contexts.** `SchemaFlights` is the shared schema read over every interleaving of
  its callers, `ContextKeys` the cache keys, `ContextStore` the store of prepared contexts with
  its callers interleaved, and `ContextHistory` what it holds, told by what happened.
- **AI providers.** `CircuitBreaker`, `ProviderRetry`, `AiMetrics` and `ProviderChain` are the
  breaker, the retries, the counters and the ordered failover.
- **Exact algorithms.** `SegmentToken` is a word-break dynamic program, `SequenceGaps` the audit
  log's gap report, `Calendar` and `TemporalRange` the calendar and its date phrases.

Code that changes state is modelled by classes and by methods with loops, each proved against a
specification function or predicate; the theorems are about those. Protocols with several callers
are transition systems, and their theorems range over all runs. `dafny verify dfyconfig.toml`
checks everything.

## What the code does that its documentation does not say

- `PEXPIRE` is given `int(lease * 1000)`. When the lease is not a whole number of milliseconds the
  key can vanish up to a millisecond before the leases in it end, and a full house can then be
  joined by one call more. The ceiling holds in all runs exactly when the limit is zero, or the lease
  is negative or a whole number of milliseconds (`SlotCeiling.CeilingIffWholeMillis`,
  `SlotCeiling.BrokenMillisecondOverAdmits`).
- Rebasing a plan says that no reference is lost. Its test lower-cases the name it looks for among
  a table's neighbours, the path search does not; a reference spelled in another case can pass the
  test and then lose its condition (`PlanFinish.RebasedKeeps` says exactly which conditions stay,
  `PlanExamples.RebaseCanDropACondition` gives a plan that loses one).
- Reconciling is to join whatever the finished plan names and the graph can reach. It looks for the
  first spelling of each name only, so a table that is next to the base but is named first in a
  spelling the graph does not have is selected from and never joined
  (`PlanFinish.ReachableIsJoinedIff` says exactly when it is,
  `PlanExamples.ReachableCanBeLeftOut` gives a plan).
- A key that is added to GROUP BY is hidden so as not to be selected. It is looked for as it is
  written, so a column that names the key in another case or by a qualified name is selected all the
  same (`GroupBy.HiddenKeysNotProjected`), and a near miss of the key becomes the key when columns
  are repaired. `GroupByRepair.ShowsKeyIff` says exactly when a hidden key is shown;
  `GroupByRepair.StaffKeyIsShown`, `GroupByRepair.StaffKeyInCapitals` and
  `GroupByRepair.StaffKeyQualified` are questions where it is.
- Repair treats SELECT column by column, so two columns of a question can become one
  (`GroupByPlan.ColumnsMergeIff`, `GroupByPlan.StaffColumnsMerge`).
- Grouping columns are cut down to one table unless the first of them has no table's name
  (`GroupBy.OneTableIff`, `GroupBy.UnnamedTableMixes`).
- Invalidation is to drop all that is cached of a database. With no schema selected it also drops
  the contexts of that database's selected schemas, but leaves their cached schemas and pools
  (`ContextStore.InvalidationUnevenIff` says exactly when that happens,
  `ContextStore.UnselectedInvalidationIsUneven`).
- A context keyed by the schema a call resolved can hold column types and keys of another version:
  a schema served from the short cache has no rich half, and that is read again
  (`ContextStore.NeverMixedIff` says exactly in which runs, `ContextStore.StoreCanMixVersions`).
- The counters `retries` and `rate_limited` lose what a provider did that ends by refusing or by an
  answer that is not parsed (`ProviderChain.RetriesCountedIff`, `ProviderChain.RetryNotCounted`).
- Column repair is said to be made only when it is unambiguous, but among columns that differ from
  the name in separators only, the last one wins (`ColumnRepair.RepairIsUniqueIff`,
  `ColumnRepair.SeparatorsTie`).
- The hint a refused request gets is enough to wait exactly when some request is allowed at all
  (`RateLimiter.HintSuffices`): with a limit of zero or less there is a hint too.

## Model

| member | source | states |
|---|---|---|
| JoinSearch.FindJoinPath | dbbuddy_core/planner_utils.py:59-90 | The loop that marks nodes only when dequeued terminates on every finite graph and returns the specified breadth-first path. |
| JoinSearch.Drains | dbbuddy_core/planner_utils.py:72-90 | From any step on, the queue with its duplicates runs empty. |
| JoinSearch.ShortestJoinPath | dbbuddy_core/planner_utils.py:59-90 | A path found is a simple chain of graph edges from start to target, and no chain is shorter. |
| JoinSearch.EmptyJoinPath | dbbuddy_core/planner_utils.py:78-90 | The path is empty exactly when start is the target or nothing joins them. |
| JoinSearch.JoinPathPrefixes | dbbuddy_core/planner_utils.py:72-88 | The path found to any table on a path is that path's own prefix. |
| JoinOrder.FirstOfShortest | dbbuddy_core/planner_utils.py:72-90 | Of all shortest join paths the answer is the first: where another parts from it, the answer goes on to the neighbour that comes earlier in the row. |
| RelationshipGraph.GraphBuilder.AddEdge | dbbuddy_core/relationship_graph.py:34-46 | One edge is added, or one more alternate kept on it, and nothing else in the graph changes. |
| RelationshipGraph.GraphBuilder.DeclareForeignKeys | dbbuddy_core/relationship_graph.py:72-79 | Declared keys between known tables are linked both ways, in order; others are skipped. |
| RelationshipGraph.GraphBuilder.AddPrimaryKeyEdges | dbbuddy_core/relationship_graph.py:100-138 | A column is linked to the one table whose single-column key it repeats, by defaults only. |
| RelationshipGraph.BuildRelationshipGraph | dbbuddy_core/relationship_graph.py:49-97 | The graph built in place is the one the theorems speak of. |
| RelationshipGraph.DeclaredPairs | dbbuddy_core/relationship_graph.py:34-46 | An edge carries, first to last, each distinct pair declared between its two tables once. |
| RelationshipGraph.LinkMirrors | dbbuddy_core/relationship_graph.py:76-79 | Linking two tables keeps the graph its own mirror, alternates included. |
| RelationshipGraph.BuiltIsMirrored | dbbuddy_core/relationship_graph.py:49-97 | For distinct tables, a to b carries pairs and alternates exactly when b to a carries them swapped in the same order. |
| RelationshipGraph.BuiltKeepsDeclared | dbbuddy_core/relationship_graph.py:72-83 | No declared key between known tables is lost and none is overwritten by key-name edges. |
| RelationshipGraph.PutKeepsOrder | dbbuddy_core/relationship_graph.py:34-46 | Neighbours stay in the order they were first linked in. |
| DeclaredGraph.EdgeIsDeclared | dbbuddy_core/relationship_graph.py:72-79 | Between two known tables that any declared key joins, the graph holds exactly the columns of the declared keys, from whichever side each was declared. |
| DeclaredGraph.DeclaredKeyIsLinked | dbbuddy_core/relationship_graph.py:76-79 | Every key the catalog declares between known tables can be followed both ways. |
| DeclaredGraph.FirstDeclaredIsDefault | dbbuddy_core/relationship_graph.py:34-46 | Of several keys between two tables the first that is declared is the default. |
| KeyEdges.KeyGuessIff | dbbuddy_core/relationship_graph.py:117-138 | A column is linked to a table exactly when it has the name of that table's one-column key, no other known table has such a key, and it is no part of its own table's key. |
| KeyEdges.UndeclaredEdgeIff | dbbuddy_core/relationship_graph.py:85-138 | Two tables that no declared key joins are linked exactly when a column of one is taken for a reference to the other, on the columns of such a guess. |
| RelationshipGraph.GuessesNeverOverwrite | dbbuddy_core/relationship_graph.py:130-138 | Guessed edges never change an edge that is there. |
| RelationshipGraph.DistanceIsSymmetric | dbbuddy_core/planner_utils.py:59-90 | On a mirrored graph the join distance is the same both ways. |
| JoinPlan.ResolveJoins | dbbuddy_core/planner_utils.py:93-122 | The join list is the paths to each table, end to end. |
| JoinPlan.ResolvedIsTree | dbbuddy_core/planner_utils.py:93-122 | It is a breadth-first tree rooted at the base in topological order, repeats are exact, and every table with a path is reached. |
| JoinPlan.ResolvedFollows | dbbuddy_core/planner_utils.py:114-120 | Every join is made on the default columns of an edge of the graph, each in its own table. |
| JoinPlan.ResolvedConcat | dbbuddy_core/planner_utils.py:106-120 | Tables are joined in the order they are asked for. |
| JoinPruning.DedupeJoins | dbbuddy_core/query_planner.py:1009-1033 | The loop keeps the first join of every table. |
| JoinPruning.DedupeDropsOnlyRepeats | dbbuddy_core/query_planner.py:1009-1033 | On resolved joins dedupe loses no join, and then no table is joined twice nor the base again. |
| JoinPruning.DedupedIsTree | dbbuddy_core/query_planner.py:1009-1033 | Dedupe of any join tree is a join tree of the same tables. |
| JoinPruning.WalkBack | dbbuddy_core/query_planner.py:1036-1074 | The reverse pass computes the specified selection. |
| JoinPruning.KeepsExactlyAncestors | dbbuddy_core/query_planner.py:1036-1074 | The joins kept are exactly those whose table is an ancestor, or itself, of a referenced table. |
| JoinPruning.PrunedIsTree | dbbuddy_core/query_planner.py:1036-1074 | Pruning keeps every join's left table in scope before it, and every referenced table that was joined. |
| JoinPruning.PrunedTwice | dbbuddy_core/query_planner.py:1036-1074 | Pruning twice is pruning once. |
| JoinPasses.TablesReferenced | dbbuddy_core/query_planner.py:825-859 | The tables a plan's clauses refer to, the first spelling of each, in order. |
| JoinPlan.GatheredInOrder | dbbuddy_core/query_planner.py:847-858 | Names are gathered clause by clause, in the order of the clauses. |
| JoinPlan.ReferencedInOrder | dbbuddy_core/query_planner.py:847-858 | That order is SELECT to HAVING. |
| JoinPlan.KeepFirstNext | dbbuddy_core/query_planner.py:836-842 | A name is added exactly when it is the first spelling of its name. |
| JoinPasses.ItemIsReferenced | dbbuddy_core/query_planner.py:825-859 | A table or qualifier named anywhere in a clause is among them, up to case. |
| JoinPasses.ReconciledIsTree | dbbuddy_core/query_planner.py:1183-1207 | Reconciling keeps the join tree, adds exactly the tables on the missing paths, and brings every reachable reference in scope. |
| JoinPasses.ReconciledFollows | dbbuddy_core/query_planner.py:1199-1206 | Reconciling rewrites no join, and each one it adds is made on the columns of an edge. |
| JoinPasses.InScopeClauseIs | dbbuddy_core/query_planner.py:1091-1142 | Dropping removes exactly the conditions whose table is not in scope, and is no change when there are none. |
| JoinPasses.JudgedBy | dbbuddy_core/query_planner.py:1091-1142 | A condition is judged by its own table, and by its column's qualifier only when it has none. |
| PlanFinish.Plan.RebaseOnReferencedTable | dbbuddy_core/query_planner.py:1145-1180 | The base moves to the first referenced table that can carry the rest, and the joins are cleared, only when the base is wrong. |
| PlanFinish.Plan.ReconcileJoins | dbbuddy_core/query_planner.py:1183-1207 | The joins become the reconciled ones; nothing else changes. |
| PlanFinish.Plan.DropUnreachableFilters | dbbuddy_core/query_planner.py:1091-1142 | The conditions become those in scope; nothing else changes. |
| PlanFinish.Plan.PruneUnusedJoins | dbbuddy_core/query_planner.py:1036-1074 | The joins become the deduped and pruned ones; nothing else changes. |
| PlanFinish.Plan.AssertColumnsExist | dbbuddy_core/query_planner.py:914-1006 | Every item of every clause, and the measure the aggregation nests, is repaired in place where it can be; what cannot be is what the refusal lists. |
| PlanFinish.Plan.Finish | dbbuddy_core/query_planner.py:1834-1838 | The five passes in sequence compute the finished plan; a plan with a reference that cannot be repaired is refused before it is pruned. |
| PlanFinish.FinishedIsTree | dbbuddy_core/query_planner.py:1834-1838 | A finished plan's joins are a tree from its base in topological order with no table joined twice. |
| PlanFinish.FinishedFollows | dbbuddy_core/query_planner.py:1834-1838 | Every join of a finished plan is one it had, or is made on the columns of an edge. |
| PlanKeys.JoinsOnDeclaredKeys | dbbuddy_core/query_planner.py:1199-1206 | From the catalog to the finished plan: two tables that a declared key joins are joined on the columns of a declared key, each in the table it was declared of. |
| PlanFinish.MovesIff | dbbuddy_core/query_planner.py:1153-1180 | A plan is moved exactly when its base holds nothing referenced, cannot reach all that is, and some table referenced can carry the rest; and then onto the first of those. |
| PlanFinish.ConditionsInScope | dbbuddy_core/query_planner.py:1834-1838 | Every table that a where, having or order-by condition of the finished plan names is in join scope, repaired or not. |
| PlanFinish.ReachableIsJoinedIff | dbbuddy_core/query_planner.py:1183-1207 | A reachable table that any item of the finished plan names is joined, once, exactly when that is the first spelling of its name, or the name was in scope from the start or lies on the way to another missing table. |
| PlanFinish.ReachableIsJoined | dbbuddy_core/query_planner.py:1183-1207 | When references are spelled as the graph spells them, every reachable table the finished plan names is joined. |
| PlanFinish.OutputStays | dbbuddy_core/query_planner.py:1091-1142 | The output clauses lose no item; they change by the repair only. |
| PlanFinish.JoinsAreNeeded | dbbuddy_core/query_planner.py:1036-1074 | Every join left leads to a referenced table. |
| PlanFinish.RebasedKeeps | dbbuddy_core/query_planner.py:1145-1180 | After a rebase a condition stays exactly when its table is the new base or on the way to a referenced table. |
| PlanFinish.RebaseDropsNothing | dbbuddy_core/query_planner.py:1145-1180 | When every reference is spelled as the graph spells it, a rebased plan drops nothing and changes by the repair only. |
| PlanExamples.RebaseCanDropACondition | dbbuddy_core/query_planner.py:1172-1175 | A plan that is rebased and loses a condition for its spelling. |
| PlanExamples.ReachableCanBeLeftOut | dbbuddy_core/query_planner.py:1192-1207 | A plan that selects from a table next to its base and never joins it. |
| GroupBy.AddHiddenKeys | dbbuddy_core/query_planner.py:1641-1671 | The key of every table grouped by a person's name is added once, hidden, unless grouped already, whatever order tables come in. |
| GroupBy.DecideGrouping | dbbuddy_core/query_planner.py:1552-1733 | SELECT is the visible grouping columns in order and the measure; grouping is by the chosen columns of one table and their hidden keys, or by nothing when the question only aggregates. |
| GroupBy.ChosenIs | dbbuddy_core/query_planner.py:1589-1639 | A question with dimensions is grouped by those it asks for, in its order; one without by the base table's name-like column, when it has a grouping word or ranks. |
| GroupBy.DisplayColumnIs | dbbuddy_core/query_planner.py:1575-1584 | The name-like column is the first of name, title and description that the table has. |
| GroupBy.KeyColumnIs | dbbuddy_core/query_planner.py:1281-1297 | A table's declared key stands for it, else its last column called id in any case, and there is none exactly when it has neither. |
| GroupBy.HiddenKeyIff | dbbuddy_core/query_planner.py:1654-1677 | What is hidden is exactly the key of each table that is grouped by a person's name and not by that key. |
| GroupBy.PureAggregation | dbbuddy_core/query_planner.py:1709-1733 | A question with no grouping word, HAVING or ranking is answered by its measure alone. |
| GroupBy.HiddenKeysNotProjected | dbbuddy_core/query_planner.py:1652-1704 | No column of SELECT but the measure is written as a hidden key is, the others are the chosen columns, and one is the key's all the same exactly when a chosen column names the key in another case or by a qualified name. |
| GroupBy.OneTableIff | dbbuddy_core/query_planner.py:1673-1677 | All grouping columns are of one table exactly when the question does not group, or the first column it chooses is of a named table, or none is. |
| GroupBy.UnnamedTableMixes | dbbuddy_core/query_planner.py:1673-1677 | A question whose grouping columns are of two tables. |
| GroupBy.GroupsDimensionsOnly | dbbuddy_core/query_planner.py:767-788 | A plan never groups by a measure, nor visibly by a raw id: its columns are dimensions asked for or the base's display column. |
| GroupBy.GroupsEveryDimension | dbbuddy_core/query_planner.py:1589-1639 | It groups by every dimension asked for of the table it groups. |
| GroupByPlan.RepairKeepsMatch | dbbuddy_core/query_planner.py:914-999 | The plan that leaves the passes selects exactly what its own GROUP BY has in the open, in order, and then the measure as its aggregation names it; SELECT is refused for just the references those are refused for. |
| GroupByPlan.ColumnsMergeIff | dbbuddy_core/query_planner.py:979-999 | Two columns a question groups by are one column in the finished SELECT exactly when they mean one table and come to one column of it, each to its own if the table has it and to the nearest if not. |
| GroupByPlan.StaffColumnsMerge | dbbuddy_core/query_planner.py:899-903 | Two columns that come to one. |
| GroupByRepair.ShowsKeyIff | dbbuddy_core/query_planner.py:1641-1704 | The repaired SELECT shows a hidden key's column exactly when a column the question groups by names the key that is added, in any case and qualified or not, or is no column of that table and is mended to the key. |
| GroupByRepair.NearKeyIff | dbbuddy_core/query_planner.py:979-999 | The same for one column and one key: after repair both mean one column exactly when they did before or the column is mended to the key. |
| GroupByRepair.StaffKeyIsShown | dbbuddy_core/query_planner.py:1641-1704 | A question whose hidden key is shown by a near miss of its name. |
| GroupByRepair.StaffKeyInCapitals | dbbuddy_core/query_planner.py:1652-1665 | One whose hidden key is shown by its name in capitals, before any repair. |
| GroupByRepair.StaffKeyQualified | dbbuddy_core/query_planner.py:1652-1665 | One whose hidden key is shown by its qualified name. |
| ColumnRepair.RepairIsNearest | dbbuddy_core/query_planner.py:878-911 | A repair is a column as near to the name as any, and there is none exactly when no column is near or several only contain the name. |
| ColumnRepair.RepairIsUniqueIff | dbbuddy_core/query_planner.py:881-904 | It is the only nearest column exactly when columns do not tie on separators. |
| ColumnRepair.RepairIsLast | dbbuddy_core/query_planner.py:895-903 | Of columns that differ in case, or from the name in separators, only, the last is the repair. |
| ColumnRepair.EntryIs | dbbuddy_core/query_planner.py:933 | A table is found by its name without case, the last of several, and none only when there is none. |
| ColumnRepair.SeparatorsTie | dbbuddy_core/query_planner.py:901-903 | Two columns and a name for which the last column wins. |
| ColumnRepair.RepairSettles | dbbuddy_core/query_planner.py:951-999 | A repaired reference, plain, qualified or an aggregate call, names the nearest column of the table meant; when its text is read back as written, nothing is left to repair. |
| ColumnRepair.CallIsRead | dbbuddy_core/query_planner.py:872-875 | A formatted aggregate is read as its function and its argument. |
| PlanRepair.NothingMissed | dbbuddy_core/query_planner.py:934-1006 | A plan is let through exactly when every reference of its clauses and the measure its aggregation nests is settled or can be repaired. |
| PlanRepair.MissingInAre | dbbuddy_core/query_planner.py:966-997 | What a plan is refused for is exactly its references that cannot be repaired. |
| PlanRepair.NoSchemaNoRepair | dbbuddy_core/query_planner.py:931-932 | With an empty schema no plan is refused and none is changed. |
| PlanRepair.RepairKeepsTable | dbbuddy_core/query_planner.py:962-999 | The table a reference names by a qualifier is the same after repair, up to case, whether or not it names one of its own. |
| SlotLeases.AdmitsIffRoom | dbbuddy_core/erp_concurrency.py:194-208 | An attempt is admitted exactly when fewer than the limit other leases run. |
| SlotLeases.LeaseOutlivesStatement | dbbuddy_core/erp_concurrency.py:97-113 | A lease outlives the statement timeout by its margin. |
| SlotLeases.KeyLifeIs | dbbuddy_core/erp_concurrency.py:200 | The key's life is the lease less at most a millisecond, and equal to it exactly for whole milliseconds. |
| SlotLeases.Redis.ClaimPipeline | dbbuddy_core/erp_concurrency.py:196-201 | Prune, add, count and expire as one step, with its effect on every key. |
| SlotLeases.SharedSlots.Acquire | dbbuddy_core/erp_concurrency.py:174-208 | An admitted token holds a lease, a lost attempt leaves none of its own, and no other target changes. |
| SlotLeases.SharedSlots.Release | dbbuddy_core/erp_concurrency.py:210-211 | Releasing removes one token's lease and nothing else. |
| SlotCeiling.SharedCeiling | dbbuddy_core/erp_concurrency.py:249-315 | In every run the slots granted, not released and within lease never exceed the limit, and each has its entry. |
| SlotCeiling.EntriesEndWithinLease | dbbuddy_core/erp_concurrency.py:194-208 | In every run, whatever the lease, every entry ends within one lease, orphans included. |
| SlotCeiling.MixedCeiling | dbbuddy_core/erp_concurrency.py:264-296 | With the per-process fallback mixed in, W workers hold at most (W+1) times the limit. |
| SlotCeiling.RunningCeiling | dbbuddy_core/erp_concurrency.py:249-315 | If blocks finish within their lease, no more than that run at once. |
| SlotCeiling.AttemptIffRoom | dbbuddy_core/erp_concurrency.py:194-208 | In every run an attempt is granted exactly when fewer than the limit other unexpired entries exist. |
| SlotCeiling.EntryAfter | dbbuddy_core/erp_concurrency.py:194-211 | After any event an entry is there exactly when its call has just claimed it, or it was there and was not taken out by its own call, dropped with the key or pruned after its end. |
| SlotCeiling.ReleaseFreesItsSlot | dbbuddy_core/erp_concurrency.py:205-211 | A release or clean-up that worked frees exactly its own slot; one that failed without effect changes no entry. |
| SlotCeiling.FreedSlotIsGranted | dbbuddy_core/erp_concurrency.py:194-211 | The attempt after it is granted exactly when fewer than the limit other entries still count, the one taken out left aside. |
| SlotCeiling.PhaseByLastEvent | dbbuddy_core/erp_concurrency.py:264-315 | A call's phase is told by the last that happened to it: once Redis has failed it, it waits for its own process's semaphore. |
| SlotCeiling.NextPossible | dbbuddy_core/erp_concurrency.py:279-315 | What a call can do next on the shared count, told by the same. |
| SlotCeiling.NextLocal | dbbuddy_core/erp_concurrency.py:264-296 | A call in line for its own process gets a permit exactly when fewer than the limit are out there. |
| SlotCeiling.KeyLivesFromLastClaim | dbbuddy_core/erp_concurrency.py:196-201 | The key's life runs from the last claim that reached it. |
| SlotCeiling.KeyCoversIffWholeMillis | dbbuddy_core/erp_concurrency.py:200 | The key's life covers a lease exactly when the lease is negative or a whole number of milliseconds. |
| SlotCeiling.ExpiryOnlyEndedIff | dbbuddy_core/erp_concurrency.py:194-208 | In every run key expiry removes only leases that have ended, orphans included, for exactly those leases. |
| SlotCeiling.BrokenMillisecondOverAdmits | dbbuddy_core/erp_concurrency.py:200 | Otherwise there is a run with one holder more than the limit. |
| SlotCeiling.CeilingIffWholeMillis | dbbuddy_core/erp_concurrency.py:174-211 | The exact leases for which the ceiling holds in all runs. |
| RateLimiter.Limiter.CheckRateLimit | dbbuddy_core/rate_limiter.py:57-91 | A check changes its own user's log as specified and no other user's. |
| RateLimiter.WindowNeverOverfull | dbbuddy_core/rate_limiter.py:57-91 | In every run no window of the configured length, wherever it lies, holds more accepted requests than the maximum. |
| RateLimiter.AcceptedIs | dbbuddy_core/rate_limiter.py:57-91 | What counts as accepted is every request that was allowed, whatever Redis dropped since, and the key lives one window from the last of them. |
| RateLimiter.RefusedIffFull | dbbuddy_core/rate_limiter.py:61-72 | A request is refused exactly when the window is full of accepted ones: trimming and expiry forget nothing that matters. |
| RateLimiter.NextAllowedFrom | dbbuddy_core/rate_limiter.py:66-72 | When exactly a refused user is allowed again, and what the hint is. |
| RateLimiter.HintSuffices | dbbuddy_core/rate_limiter.py:67-70 | Waiting the hinted seconds without other traffic is enough exactly when the maximum is positive. |
| SchemaFlights.OneLeaderPerDatabase | dbbuddy_core/context_store.py:466-474 | At most one call leads the registered read of a database, in every run. |
| SchemaFlights.DoneIsRetired | dbbuddy_core/context_store.py:484-494 | A flight leaves the registry before its waiters wake, whatever became of its read. |
| SchemaFlights.JoinsLiveFlight | dbbuddy_core/context_store.py:466-474 | Nobody joins a retired flight or one of another database. |
| SchemaFlights.OwnFailuresOnly | dbbuddy_core/context_store.py:476-482 | A leader's failure never becomes a waiter's; a shared answer is what the leader loaded for the same database. |
| SchemaFlights.WakeShares | dbbuddy_core/context_store.py:476-478 | Waking on a flight whose leader loaded a schema answers the call with that schema and reads nothing more. |
| SchemaFlights.ReadsAloneIff | dbbuddy_core/context_store.py:476-482 | A call that joined a flight reads for itself exactly when its wait timed out or it was woken after the flight's read had failed. |
| SchemaFlights.SharesIff | dbbuddy_core/context_store.py:476-478 | It is answered by the flight exactly when it was woken and the flight's leader had loaded the schema. |
| SchemaFlights.WaiterCanMove | dbbuddy_core/context_store.py:476-494 | A waiter can give up at any time, and can wake exactly once the leader has woken its waiters. |
| SchemaFlights.LeaderGoesOn | dbbuddy_core/context_store.py:484-494 | Whatever its read comes to, a leader takes its flight out and wakes its waiters. |
| SchemaFlights.TwoCallsShare | dbbuddy_core/context_store.py:459-494 | Two calls answered by one read. |
| SchemaFlights.ReadsAreLeadersAndLoners | dbbuddy_core/context_store.py:466-489 | Physical reads are the leaders plus the waiters that gave up, and both counters agree. |
| ContextKeys.SplitJoin | dbbuddy_core/context_store.py:252-288 | Fields free of bars can be read back from a key. |
| ContextKeys.ExtendsIffMoreFields | dbbuddy_core/context_store.py:274-288 | A key extends another by whole fields exactly when its fields do. |
| ContextKeys.KeysIdentify | dbbuddy_core/context_store.py:264-288 | Keys are equal exactly for the same database, schema and schema version. |
| ContextKeys.MatchesIffReaches | dbbuddy_core/context_store.py:748-759 | The prefix scan finds exactly the contexts of that database, or of its selected schema. |
| ContextKeys.BarsConfuse | dbbuddy_core/context_store.py:264-271 | With a bar inside a field two databases can share a key. |
| ContextStore.Store.GetPool | dbbuddy_core/context_store.py:299-314 | The pool kept for a database, or a new one, and no other pool changes. |
| ContextStore.Store.Resolve | dbbuddy_core/context_store.py:436-456 | A schema younger than the time to live is served from the cache, else what is read is stored and served. |
| ContextStore.Store.Look | dbbuddy_core/context_store.py:541-547 | What is found answers this call's database and schema, with its pool. |
| ContextStore.Store.Install | dbbuddy_core/context_store.py:647-651 | A built context replaces what is under its key and nothing else. |
| ContextStore.Store.GetContextEx | dbbuddy_core/context_store.py:507-653 | The context returned answers what the call asked and resolved, and is the only one changed. |
| ContextStore.Store.Invalidate | dbbuddy_core/context_store.py:748-763 | The matching contexts, the cached schema and the pool go; the rest stays. |
| ContextStore.Store.ApplyRemoteInvalidation | dbbuddy_core/context_store.py:818-832 | The same for a key from the channel; anything else on it does nothing. |
| ContextStore.ReturnsResolvedSchema | dbbuddy_core/context_store.py:507-653 | In every run a call returns only a context built for the database it asked about and the schema it resolved. |
| ContextStore.NeverMixedIff | dbbuddy_core/context_store.py:508-653 | In a run the store never holds a context of two schema versions exactly when every build put into it had the rich half in hand, or read nothing or the same version again. |
| ContextStore.StoreCanMixVersions | dbbuddy_core/context_store.py:436-456 | A run after which the store holds such a context. |
| ContextHistory.CachedIsLastRead | dbbuddy_core/context_store.py:444-456 | What is cached of a connection is the last schema read of it since it was invalidated. |
| ContextHistory.ServedFromCacheIff | dbbuddy_core/context_store.py:444-450 | A call is served from the cache exactly when a schema was read of its connection less than the time to live ago, and gets that one. |
| ContextHistory.PoolIsLast | dbbuddy_core/context_store.py:299-314 | A connection's pool is that of its first call since it was invalidated, or of the last that asked for a new build. |
| ContextHistory.ContextAfter | dbbuddy_core/context_store.py:541-763 | After any event a context is kept exactly when it was just installed, or was kept and no invalidation dropped it; it changes only by being installed or by taking the pool of a call that finds it. |
| ContextHistory.FindsIff | dbbuddy_core/context_store.py:541-547 | A call returns what it finds exactly when it did not ask for a new build and one is kept for its connection and schema. |
| ContextHistory.BuildsReturn | dbbuddy_core/context_store.py:549-653 | Any other builds, installs what it built and returns it. |
| ContextStore.InvalidationExact | dbbuddy_core/context_store.py:748-763 | In every run invalidation drops every version of the database's contexts and none of another host, database or engine. |
| ContextStore.InvalidationUnevenIff | dbbuddy_core/context_store.py:748-763 | Invalidation drops a context but leaves its connection's cached schema and pool exactly when it reaches the context of another connection. |
| ContextStore.UnselectedInvalidationIsUneven | dbbuddy_core/context_store.py:748-763 | With no schema selected that happens to every selected schema of the same database. |
| CircuitBreaker.Breaker.Allow | dbbuddy_core/ai_providers.py:470-481 | Who is let through, and what that does to the entry. |
| CircuitBreaker.Breaker.RecordFailure | dbbuddy_core/ai_providers.py:487-504 | What a failure does to the provider's entry; no other changes. |
| CircuitBreaker.BreakerStands | dbbuddy_core/ai_providers.py:441-504 | Closed exactly with no trip since the last success; the k-th trip cools for its cooldown and never beyond the maximum; half open exactly one request was let through since the last result. |
| CircuitBreaker.OpenUntilCooled | dbbuddy_core/ai_providers.py:470-481 | In every run an open breaker refuses until its cooldown is over; the request then let through leaves it half open, and a refused one changes nothing. |
| CircuitBreaker.LetThroughIff | dbbuddy_core/ai_providers.py:470-504 | A request is let through exactly when the breaker has not tripped since the last success, or none was let through since the last result and the k-th trip lies base * 2^(k-1), or the maximum, back. |
| CircuitBreaker.ModeIs | dbbuddy_core/ai_providers.py:441-504 | Open from a trip until a request is let through, half open from then until its result. |
| CircuitBreaker.FailuresBelowThresholdIff | dbbuddy_core/ai_providers.py:487-504 | Failures stay below the threshold in all runs exactly when it is at least one. |
| CircuitBreaker.TripsIff | dbbuddy_core/ai_providers.py:487-504 | It trips on any failure while half open, and else on the transient failure that completes the streak. |
| CircuitBreaker.TripsByHistory | dbbuddy_core/ai_providers.py:487-504 | The same told by trips, requests let through and failures alone. |
| CircuitBreaker.CooldownGrows | dbbuddy_core/ai_providers.py:499-504 | Cooldowns double until the maximum. |
| CircuitBreaker.ProbeOutstanding | dbbuddy_core/ai_providers.py:470-481 | Until the probe reports, every request is refused, however long that takes. |
| ProviderRetry.GenerateWithRetries | dbbuddy_core/ai_providers.py:396-433 | The reply is that of the first attempt not retried; attempts and total sleep are bounded for any hints and jitter. |
| ProviderRetry.DelayWithinMax | dbbuddy_core/ai_providers.py:382-393 | No wait is negative or longer than the maximum delay, Retry-After (section 10.2.3 of RFC 9110) included. |
| ProviderRetry.RetryDelayIs | dbbuddy_core/ai_providers.py:382-393 | A hint is followed up to the maximum delay and not above the cap; without one the wait is the drawn share of the backoff. |
| ProviderRetry.BackoffDoubles | dbbuddy_core/ai_providers.py:392 | The backoff starts at the base delay and doubles up to the maximum. |
| ProviderRetry.LastTransientIff | dbbuddy_core/ai_providers.py:418-428 | A provider is left with a transient failure only when its attempts are used up or the server asks for a longer wait than the cap. |
| ProviderRetry.LastIff | dbbuddy_core/ai_providers.py:396-433 | Exactly one number of attempts fits the replies. |
| AiMetrics.Metrics.Record | dbbuddy_core/ai_metrics.py:43-70 | A report moves its own bucket's counters and no other bucket. |
| AiMetrics.RecordedBalanced | dbbuddy_core/ai_metrics.py:54-70 | Calls are successes plus failovers in every bucket, whatever is recorded. |
| AiMetrics.RecordedSums | dbbuddy_core/ai_metrics.py:54-70 | After any reports a counter is what it was and the sum of what each report to its bucket adds. |
| ProviderChain.GenerateWithChain | dbbuddy_core/ai_providers.py:539-617 | The answer is that of the first provider in order that is admitted and succeeds; none after it is touched. |
| ProviderChain.KnownBy | dbbuddy_core/ai_providers.py:578-582 | A provider goes by its name, or its adapter when it has none, before the breaker and in the metrics. |
| ProviderChain.BreakerHears | dbbuddy_core/ai_providers.py:583-617 | The breaker hears a success when the last reply is parsed, and else a failure that is transient exactly when that reply was. |
| ProviderChain.MetricsCountOnce | dbbuddy_core/ai_providers.py:577-617 | Every counter of every bucket moves by what happened under its name in the chain: tries, skips, answers, failovers, and the retries and rate limits of those that do not end badly. |
| ProviderChain.BreakerHearsOnce | dbbuddy_core/ai_providers.py:577-617 | Each breaker hears of every turn of its provider, and of one result for each that was let through. |
| ProviderChain.ChainBalanced | dbbuddy_core/ai_metrics.py:54-70 | A chain keeps calls equal to successes plus failovers in every bucket. |
| ProviderChain.RetriesCountedIff | dbbuddy_core/ai_providers.py:595-607 | A bucket's retries and rate-limited counters grow by what was really made and hit exactly when no tried provider of it that had any ends by refusing or unparsed. |
| ProviderChain.RetryNotCounted | dbbuddy_core/ai_providers.py:603-607 | A chain whose only retry and rate limit are never counted. |
| SegmentToken.SegmentToken | dbbuddy_core/intent_builder.py:693-732 | Pieces concatenate to the token, are words long enough and cut where back pointers pick the longest last piece; there is a result exactly when the token is no word and can be segmented. |
| SegmentToken.CutsAreWords | dbbuddy_core/intent_builder.py:724-732 | Following the back pointers spells the token in words. |
| SegmentToken.WordsReach | dbbuddy_core/intent_builder.py:715-721 | Every segmentation is found by the table. |
| SequenceGaps.SequenceReport | backend/app_db/audit_integrity.py:162-209 | The ranges are the maximal runs of absent values, their lengths add up to what is missing, and present, duplicates and unsequenced to the input. |
| SequenceGaps.Runs | backend/app_db/audit_integrity.py:191-202 | The scan finds the sorted, disjoint, non-adjacent runs, and none is open at its end. |
| SequenceGaps.GapListUnique | backend/app_db/audit_integrity.py:191-202 | There is only one such list of runs. |
| SequenceGaps.ReportIgnoresOrder | backend/app_db/audit_integrity.py:162-163 | The report does not depend on the order of the values. |
| TemporalRange.AddMonthsComposes | dbbuddy_core/type_handlers.py:134-137 | Month shifts compose, can be undone, and go forward exactly when positive. |
| TemporalRange.ThisCovers | dbbuddy_core/type_handlers.py:140-166 | "this P" holds exactly the dates in one period with today, so periods tile the calendar. |
| TemporalRange.PreviousIsThePeriodBefore | dbbuddy_core/type_handlers.py:151-166 | "last P" ends where "this P" starts and is the whole period before. |
| TemporalRange.PhraseCovers | dbbuddy_core/type_handlers.py:151-166 | What each named phrase covers, day by day: one day, the days in one period with today, or those of the period before. |
| TemporalRange.RangesAreNotEmpty | dbbuddy_core/type_handlers.py:145-181 | Every range starts before it ends and lies in the calendar. |
| TemporalRange.RollingCovers | dbbuddy_core/type_handlers.py:170-180 | A window of N days or weeks covers exactly those days and today, or from today on; there is one exactly when N is positive and the window lies in the calendar. |
| Calendar.OrdinalOrders | dbbuddy_core/type_handlers.py:134-181 | Day numbers follow the calendar and name each date. |
| Calendar.DateOfOrdinal | dbbuddy_core/type_handlers.py:152-166 | Dates and day numbers undo each other. |

## Left out

- Names are compared by their ASCII case only; Unicode case folding, identifiers and digits are not modelled.
- Naming heuristics of the join graph (`_resolve_referenced_table`, `_primary_key_of`) are a parameter that may guess anything.
- The theorems on finished plans assume that table names in the graph are not empty and stay distinct when case is ignored.
- RelationshipGraph.GraphBuilder.AddEdge: an edge's alternates are a value, so two edges sharing one list object are not captured.
- PlanFinish.Plan.Finish: leaves out the confidence and ambiguity notes, which the planner overwrites later.
- Role selection among alternates (`_apply_join_roles`), the early join pass and the row limit guardrail are not modelled.
- PlanFinish.Plan.AssertColumnsExist: the refusal's text and sorting are not modelled; an aggregate call of an item without a table is left alone, where the original would look for a table called "none".
- GroupBy.DecideGrouping: is about plans that have an aggregation and intents without a group entity; whether the question has a grouping word, the role of a column and the inference of a missing aggregation are inputs.
- GroupBy.HiddenKeysNotProjected: is about the decision before repair; `GroupByRepair.ShowsKeyIff` is about the repaired plan. An aggregate of the key, written as a column, does not count as the key.
- GroupByRepair.NearKeyIff: takes no column of the schema to have a dot or an opening parenthesis in its name, and so do `GroupByRepair.ShowsKeyIff` and `GroupByPlan.ColumnsMergeIff`; such a name would be read as a qualified name or a call.
- PlanRepair.RepairKeepsTable: takes no column to have a dot in its name when the reference names a table of its own, and so does `PlanFinish.ReachableIsJoined` for such an item's qualifier.
- SlotCeiling.KeyCoversIffWholeMillis: products are exact here. In floating point it is the computed product `lease * 1000` that must be whole: for a lease of 64.1 seconds it is truncated to 64099.
- CircuitBreaker.BreakerStands: cooldowns are exact; the original doubles a float, which overflows at the 1025th trip without a success and leaves the breaker half open.
- Retry pauses, queue timeouts and log lines of `query_slot` are left out: any waiting call may try again or give up at any time.
- `reset()`, `snapshot()` and other administrative calls, and Redis losing its data, are not modelled.
- The rate limiter's check and record are one step; two checks interleaved, and its failing open on errors, are not modelled.
- RateLimiter.Limiter.CheckRateLimit: the wording of the message is not modelled, only its seconds.
- SchemaFlights.OwnFailuresOnly: a read that returns nothing counts as failed, as `_read_schema` raises then.
- ContextStore.Store.GetContextEx: the semantic layer, the index and the join graph of a context are not modelled, only what they were built for. The hash is taken to be injective and free of bars, and key fields to be free of bars.
- ContextStore.ReturnsResolvedSchema: a context object's pool may be replaced later by another caller; the theorem is about the moment of return.
- The deadline of a schema flight's wait is not a number: a waiter may give up at any time.
- ProviderChain.GenerateWithChain: outcomes are those the chain handles; an exception it does not handle leaves a breaker half open, which `CircuitBreaker.ProbeOutstanding` covers. Latencies, timestamps and error notes are not modelled.
- AiMetrics.Metrics.Record: latency, last outcome and adapter fields are not modelled.
- SegmentToken.SegmentToken: is for a minimum piece of at least one, as its callers use it.
- TemporalRange.RollingCovers: phrases come recognised; the regular expression that reads them is not modelled.
- Network, drivers, dialects, the SQL compiler, routes, files and text extraction are not part of this model.
