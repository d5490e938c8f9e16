# Vitaledge Cypher engine: a Dafny model

A model of the parts of the Vitaledge graph database in which the correctness of Cypher queries and of its
property indexes is decided, with proofs of what those parts promise. `dafny verify dfyconfig.toml` verifies
everything.

* **Durable index builds** (`IndexStore`, `IndexMachine`, `IndexFrozen`, `IndexPasses`, `IndexExecutor`, `JobId`).
  A background worker builds property indexes vertex by vertex and keeps its checkpoint as revisioned records in
  the store, so that a crash between any two store transactions loses only memory. `IndexMachine` is the machine
  over single transactions, DDL calls, vertex writers and crashes; its theorems are about every run.
  `IndexExecutor` holds the calls themselves as methods on a store and a catalog, each proved to perform exactly
  the machine's transactions, for every number of transactions that the process lives for. One module covers
  vertex and edge indexes: the source has the code twice, and here a key carries its kind.
* **Two query fast paths** (`TwoHop`, `TwoHopFast`, `CollectDistinct`). Adjacency maps, label caches, nested loops
  and one batch of writes, proved to leave what the query means.
* **The compiler chain** (`Semantic`, `Logical`, `Physical`, `Engine`, `Forcing`, `HopPatterns`, `Rewrites`,
  `ClauseMeaning`, `Pipeline`, `Unions`, `Sorting`). Clauses are scattered into buckets of intents, merged back by
  ordinal, lowered to a chain of physical operators with pruning, anti-probes and top-k sorting, and run by a recursive
  visit. `Pipeline.RunQuery` says that what runs for one part of a statement are the lowerings of its clauses in source
  order, once each; `Rewrites.RewritesPreserveRows` that the rewrites do not change the rows, and
  `ClauseMeaning.PlainMeansExactly` when these are the rows that the clauses mean. `Unions.RunStatement` is about whole
  statements: the parts of a UNION are compiled and run one by one, and their rows put together. The plan over several
  parts (`Pipeline.BuildPlan`) is for the output of EXPLAIN and PROFILE only; nothing runs it. A MATCH ... RETURN
  statement is turned into a query of clauses before it is planned, so its own model builder is not on the way to its
  execution. Node identifiers n1, n2, ... and p1, p2, ... are numbers here, with 0 for the empty one.
* **Parsers** (`Split`, `Positions`, `Where`, `WherePrinting`, `Chain`, `ChainPrinting`). The statement splitter,
  source positions through nested EXPLAIN and PROFILE, the WHERE parser and the chain-pattern parser, each loop
  proved against a function on byte strings, and those against printers or the lexical structure.
* **The calendar** (`Calendar`, `Truncation`). ISO week dates and temporal truncation over the proleptic Gregorian
  calendar (week dates: section 4.1.4 of ISO 8601:2004).

Texts are sequences of bytes (`Text`), with strings.TrimSpace modelled to the byte, Unicode white space included.
Where the code counts in machine integers and it can matter (hop bounds, SKIP plus LIMIT, integer literals), the
64-bit arithmetic is written out.

## What the proofs found

* `SKIP $s LIMIT 5`: the planner counts a SKIP that is no literal as 0 when it cuts a sort off at SKIP + LIMIT, so
  rows are lost as soon as the parameter is positive (`Rewrites.SkipByParameter`). `Rewrites.TopKExactly` states exactly
  when the cut is invisible.
* A MATCH behind a MATCH that found nothing starts over from an empty row: the expansion operator cannot tell "no
  rows yet" from "no rows left". `ClauseMeaning.PlainMeansExactly` says when a chain of clauses is not affected,
  `ClauseMeaning.RestartGivesRow` gives one that is.
* Every negated relationship in a WHERE text without OR becomes an anti-probe. That is right exactly for those the text
  forces to be absent (`Rewrites.ProbesHarmlessExactly`, `Forcing.ForcedExactly`). Under a further NOT, under XOR, or
  with labels, properties or hop bounds in the pattern it is not, and rows are lost (`Rewrites.UnforcedProbeLosesRow`).
* An expansion is pruned if the first type in its pattern counts as empty. That is right exactly for patterns that
  ask for a hop and name no other type (`HopPatterns.PruningByTypeExactly`): `(a)-[:T*0..2]->(b)` and
  `(a)-[:T|U]->(b)` can lose rows by it.
* Dropping an index can void another one whose name differs only in case, or that shares tenant, name and property
  across labels and edge types (`IndexMachine.HarmlessDropExactly`).
* Decade, century and millennium truncation rounds negative years up, so it is a floor exactly for the years
  `Truncation.FloorExactly` names; `Truncation.DecadeBeforeYearZero` is a day for which it is not.
* The collect-DISTINCT fast path leaves out the group of sources without the property
  (`CollectDistinct.NullGroupMissing`). It takes two property names that differ in case for the same and then reads the
  targets under the name meant for the sources, so that l.name with collect(DISTINCT r.Name) collects names
  (`CollectDistinct.CaseMixedUp`). It orders its rows by key texts, which puts the number 10 before 2
  (`CollectDistinct.NumbersOutOfOrder`). `CollectDistinct.FastIsPlainExactly` says that nothing else goes wrong.
* Pair keys joined with `|` collide if IDs contain one, and then the two-hop path can lose an edge
  (`TwoHop.BarsLoseEdge`); it finds everything in every order of its loops exactly if no keys clash
  (`TwoHop.AllKeptExactly`).
* isoWeekDate accepts week 53 of every year; in a year with 52 weeks that is week 1 of the next year
  (`Calendar.IsoWeekDateExactly`, `Calendar.Week53RunsOn`).

## Premises

* Vertex IDs are trimmed and not blank; store calls succeed; a transaction is atomic.
* DDL calls and worker passes do not interleave, and no crash falls inside a drop. Writers leave alone an entry
  that is right before and after their transaction.
* Stored edge counts are exact, and of the plan at hand: a pattern whose edge type counts as empty needs an edge of it
  for every row, each negated relationship that the planner reads in a WHERE text is one the text forces to be absent,
  and literals in SKIP and LIMIT evaluate to themselves (`Rewrites.Sane` collects these).
* What regular expressions accept is a parameter: comparisons in WHERE, vertex tokens in chains, relations and edge
  types found in pattern texts, the parts of an UNWIND clause.

## Model

| member | source | states |
|---|---|---|
| JobId.EscapeRoundTrip | internal/cypher/executor/index_jobs.go:79-107 | unescaping a query-escaped field gives the field back, for every byte string |
| JobId.EscapeIsPlain | internal/cypher/executor/index_jobs.go:79-81 | escaping emits visible ASCII only and never the separator |
| JobId.JobIdRoundTrip | internal/cypher/executor/index_jobs.go:79-107 | parsing a job ID gives the trimmed triple back, and nothing exactly if a field is blank |
| JobId.JobIdInjective | internal/cypher/executor/index_jobs.go:79-81 | two triples share a job ID exactly if they agree up to surrounding white space |
| JobId.JobIdTrimmed | internal/cypher/executor/index_jobs.go:190-196 | trimming the stored entity ID before parsing never changes a job ID |
| IndexStore.LatestNone | internal/cypher/executor/index_jobs.go:182-216 | a job has a latest record exactly if it has a record |
| IndexStore.PutNewer | internal/cypher/executor/index_jobs.go:109-153 | a record above all others of its job becomes the latest one, keeps revisions unique, and leaves the latest records of other jobs alone |
| IndexStore.ReplaceLatest | internal/cypher/executor/index_jobs.go:333-359 | deleting the latest record and putting a higher one in one transaction moves the job to it and leaves all other jobs alone |
| IndexStore.NextVertexSpec | internal/graph/store.go:58 | the scan from a checkpoint finds the least vertex ID after it, and nothing only if none is left |
| IndexStore.ContributionBelongs | internal/cypher/executor/index_jobs.go:296-331 | every entry of a vertex lies in the keyspace of the index and names that vertex |
| IndexMachine.InvKeeps | internal/cypher/executor/index_jobs.go:109-359 | every event, arbitrary edits and drops included, keeps revisions unique and the record in hand the latest one |
| IndexMachine.ReachableInv | internal/cypher/executor/index_jobs.go:109-359 | so every world that any run reaches from an empty store has these properties |
| IndexMachine.StepKeeps | internal/cypher/executor/index_jobs.go:239-359 | every event (writer, worker transaction, crash, DDL call) keeps the checkpoint-prefix invariant and the promise of the durable record, for every entry that the graph goes on calling for |
| IndexMachine.RunKeeps | internal/cypher/executor/index_jobs.go:182-359 | so does every run, as long as the drops in it are harmless to the index |
| IndexMachine.CheckpointKeeps | internal/cypher/executor/index_jobs.go:333-359 | the checkpoint transaction keeps the invariant: what is at or before the new checkpoint is indexed |
| IndexMachine.FillKeeps | internal/cypher/executor/index_jobs.go:296-331 | writing the entries of one vertex, in one transaction or entry by entry, keeps the invariant |
| IndexMachine.DropKeeps | internal/cypher/executor/index_ddl.go:60-100 | a harmless drop keeps the promise for the other indexes |
| IndexMachine.PromiseMade | internal/cypher/executor/index_ddl.go:21-136 | create, async create, restart and synchronous backfill each establish the promise |
| IndexMachine.CompletedJobCovers | internal/cypher/executor/index_jobs.go:182-359 | in every run, whatever came before the enqueue: once the latest record is completed, every entry is there that the graph called for all the time since the enqueue, whatever else changed about its vertex |
| IndexMachine.CatalogKeepsPromise | internal/cypher/executor/index_ddl.go:21-136 | in every run, harmless drops included: if the catalog lists the index and its latest record is not pending, every entry is there that the graph called for since the last enqueue or synchronous backfill |
| IndexMachine.DropClears | internal/cypher/executor/index_ddl.go:60-100 | after a drop there is no catalog key, no pending job and no entry of the index |
| IndexMachine.SpoilerSpoils | internal/cypher/executor/index_ddl.go:502-550 | a drop that shares the keyspace of another index, or its spelling up to case, can break the promise of that index: a concrete world, reached from an empty store |
| IndexMachine.HarmlessDropExactly | internal/cypher/executor/index_ddl.go:60-100 | a drop keeps the promise of another index in every reachable world exactly if the two share neither the keyspace nor, within their kind, the spelling up to case, whatever case folding is |
| IndexMachine.ClosedUnderWork | internal/cypher/executor/index_jobs.go:239-270 | a set of worlds closed under events is closed under any number of worker transactions |
| IndexFrozen.PassedNext | internal/cypher/executor/index_jobs.go:272-294 | checkpointing the next vertex passes exactly that vertex |
| IndexFrozen.StepTally | internal/cypher/executor/index_jobs.go:239-270 | on a quiet graph every event keeps revision and counter equal to what the passed vertices call for |
| IndexFrozen.TotalCountsMatches | internal/cypher/executor/index_jobs.go:239-270 | for a vertex index the counter is the number of vertices that carry the label and the property |
| IndexFrozen.TotalCountsEdges | internal/cypher/executor/index_jobs.go:604-659 | for an edge index it is the number of edges of the type, with an ID, that carry the property |
| IndexFrozen.FrozenBuildIsExact | internal/cypher/executor/index_jobs.go:239-270 | on a frozen graph of n vertices a build enqueued at revision r ends at revision r+n+1, through any crashes, with the exact counter and exactly the entries of a synchronous backfill |
| IndexFrozen.EntriesForAll | internal/cypher/executor/index_ddl.go:220-299 | visiting only the vertices that have entries gives the entries of a full scan |
| IndexPasses.OnePass | internal/cypher/executor/index_jobs.go:239-270 | one crash-free pass either completes the build or leaves it pending with 64 vertices fewer to go |
| IndexPasses.BuildTakes | internal/cypher/executor/index_jobs.go:239-270 | crash-free, a build over n vertices completes in pass n/64+1 and in no earlier one |
| IndexExecutor.Catalog.Add | internal/cypher/indexschema/catalog.go:33-48 | adds a key with no blank part exactly if it is new, and says so |
| IndexExecutor.Catalog.Remove | internal/cypher/indexschema/catalog.go:60-72 | removes a key exactly if it is there, and says so |
| IndexExecutor.Executor.ListAllRecords | internal/cypher/executor/index_jobs.go:182-216 | finds the latest record of every job and no other |
| IndexExecutor.Executor.ListPendingRecords | internal/cypher/executor/index_jobs.go:167-180 | the latest records that are not completed |
| IndexExecutor.Executor.Enqueue | internal/cypher/executor/index_jobs.go:109-136 | writes a fresh record one revision above the latest |
| IndexExecutor.Executor.FillOneByOne | internal/cypher/executor/index_ddl.go:373-418 | entry-by-entry writing ends in the same entries and count as the batch, or with the process dead in between |
| IndexExecutor.Executor.FillVertex | internal/cypher/executor/index_jobs.go:296-331 | the entries of one vertex, whether or not they fit into one batch |
| IndexExecutor.Executor.SaveCheckpoint | internal/cypher/executor/index_jobs.go:333-359 | the latest record moves to the new checkpoint, atomically |
| IndexExecutor.Executor.RunPass | internal/cypher/executor/index_jobs.go:239-270 | the pass performs exactly the transactions of the machine, as many as the process lives for |
| IndexExecutor.Executor.ProcessJob | internal/cypher/executor/index_jobs.go:239-270 | a call, cut short anywhere by a crash, leaves what that many machine transactions leave; it reports completion exactly if the record is completed |
| IndexExecutor.Executor.ProcessPendingJobs | internal/cypher/executor/index_jobs.go:218-237 | a pass over all pending jobs is a run of the machine; it counts the jobs that it completed |
| IndexExecutor.Executor.BackfillVertices | internal/cypher/executor/index_ddl.go:220-299 | with or without a label scan, the entries and the count of a full backfill |
| IndexExecutor.Executor.BackfillEdges | internal/cypher/executor/index_ddl.go:301-371 | backfilling by source IDs gives the entries of a full backfill |
| IndexExecutor.LabelledSuffice | internal/cypher/executor/index_ddl.go:220-299 | vertices without the label have no entries, so a label scan suffices |
| IndexExecutor.EdgeSourcesSuffice | internal/cypher/executor/index_ddl.go:301-334 | sources of edges of the type suffice for an edge index |
| IndexExecutor.Executor.CreateIndex | internal/cypher/executor/index_ddl.go:21-58 | registers and backfills a new index; an existing one is left alone or refused |
| IndexExecutor.Executor.CreateIndexAsync | internal/cypher/executor/index_ddl.go:102-136 | registers a new index and enqueues its build; an existing one is left alone or refused |
| IndexExecutor.Executor.CollectEntries | internal/cypher/executor/index_ddl.go:427-452 | collects every entry of the index that has an entity ID |
| IndexExecutor.Executor.DeleteEntries | internal/cypher/executor/index_ddl.go:454-500 | batch or one by one, exactly the given entries are deleted and counted |
| IndexExecutor.Executor.CompleteBuilds | internal/cypher/executor/index_ddl.go:527-550 | completes every pending job whose name matches up to case, and no other |
| IndexExecutor.Executor.DropIndex | internal/cypher/executor/index_ddl.go:60-100 | an uncut drop leaves the world of the machine after a drop |
| TwoHop.AddsUnique | internal/cypher/executor/runtime_pipeline.go:1602-1620 | the result graph is pinned down by the set of added edges |
| TwoHop.PairKeyInjective | internal/cypher/executor/runtime_pipeline.go:1554 | pairs have distinct keys as long as left IDs hold no bar |
| TwoHop.EdgeIdInjective | internal/cypher/executor/write.go:23691-23693 | so do the identifiers of new edges |
| TwoHop.BarFreeIsSafe | internal/cypher/executor/runtime_pipeline.go:1554 | without bars in the IDs of sources no keys and no edge identifiers clash |
| TwoHop.AllKeptExactly | internal/cypher/executor/runtime_pipeline.go:1512-1577 | every order of the outer loop keeps all suggestions exactly if no suggestion shares its key with another pair that a labelled path joins |
| TwoHop.BarsLosePair | internal/cypher/executor/runtime_pipeline.go:1554-1577 | with bars in IDs a graph on which every order of the loops loses a suggestion |
| TwoHop.BarsLoseEdge | internal/cypher/executor/runtime_pipeline.go:1554-1620 | the fast path accepts that graph (trimmed IDs, no clash of identifiers), and what it leaves lacks the edge of a suggestion, whatever the order of its loops |
| TwoHop.MergeRowAdds | internal/cypher/executor/runtime_pipeline.go:1584-1620 | MERGE of one more row adds that row's edge unless there is one |
| TwoHop.MergeRowsAdd | internal/cypher/executor/runtime_pipeline.go:1584-1620 | MERGE row by row, in any order and with any repetition, adds one edge for each distinct pair that had none |
| TwoHopFast.BuildOutAdjacency | internal/cypher/executor/runtime_pipeline.go:1408-1428 | the map holds exactly the pairs joined by an edge of the type |
| TwoHopFast.BuildUndirectedAdjacency | internal/cypher/executor/runtime_pipeline.go:1430-1464 | the map holds exactly the pairs joined in either direction |
| TwoHopFast.MatchesLabels | internal/cypher/executor/runtime_pipeline.go:1482-1510 | with or without the cache, exactly the vertices with all wanted labels |
| TwoHopFast.FoundArePaths | internal/cypher/executor/runtime_pipeline.go:1512-1540 | a path in the maps between distinct ends is a labelled path over two edges, and the other way round |
| TwoHopFast.EligibleAreSuggested | internal/cypher/executor/runtime_pipeline.go:1541-1577 | with the checks on its right end it is a match over two different edges, and the other way round |
| TwoHopFast.Collector.VisitAll | internal/cypher/executor/runtime_pipeline.go:1512-1577 | the nested loops come across exactly the pairs with distinct ends that a labelled path joins |
| TwoHopFast.CollectPairs | internal/cypher/executor/runtime_pipeline.go:1470-1577 | in whatever order the loops run, the pairs kept are exactly the distinct rows of the query whose key no earlier left end has taken, for any IDs |
| TwoHopFast.ProbeExisting | internal/cypher/executor/runtime_pipeline.go:1588-1601 | the batch probe and the probes one by one give the same answers |
| TwoHopFast.CreateMissing | internal/cypher/executor/runtime_pipeline.go:1602-1620 | one new edge for each probe without one |
| TwoHopFast.Execute | internal/cypher/executor/runtime_pipeline.go:1342-1620 | the fast path adds exactly the edges of the pairs kept; if no keys clash it leaves the graph of MERGE over the distinct (l, r) rows, run in any order |
| CollectDistinct.KeyInjective | internal/cypher/executor/runtime_pipeline.go:1126-1138 | tagged keys tell values apart |
| CollectDistinct.GroupBySource | internal/cypher/executor/runtime_pipeline.go:1211-1240 | the map holds exactly the matched pairs, grouped by source vertex |
| CollectDistinct.AddTargets | internal/cypher/executor/runtime_pipeline.go:1264-1273 | adds exactly the values of the given targets that are not null |
| CollectDistinct.GroupByValue | internal/cypher/executor/runtime_pipeline.go:1246-1274 | groups by source value: the keys, their first values and the values reached, each once |
| CollectDistinct.SortKeys | internal/cypher/executor/runtime_pipeline.go:1276-1278 | the keys in ascending order, none lost or repeated |
| CollectDistinct.ListValues | internal/cypher/executor/runtime_pipeline.go:1281-1288 | each value of a group once, in no particular order |
| CollectDistinct.Execute | internal/cypher/executor/runtime_pipeline.go:1118-1299 | one row per source value that is not null, ordered by key, with exactly the distinct values that the targets of all sources sharing it have under the name that the query gives the source property |
| CollectDistinct.FastIsPlainExactly | internal/cypher/executor/runtime_pipeline.go:1097-1299 | for values of any kind, any two property names and any order of values: the rows answer the query (group by, collect DISTINCT, ORDER BY) exactly if no matched source lacks the value, every group reaches the same values under both names, and the keys are in the order of the values |
| CollectDistinct.StringsAgree | internal/cypher/executor/runtime_pipeline.go:1126-1138 | with one property name and string values the last two conditions hold |
| CollectDistinct.NullGroupMissing | internal/cypher/executor/runtime_pipeline.go:1250-1256 | a graph with a source without the property, whose group is missing |
| CollectDistinct.CaseMixedUp | internal/cypher/executor/runtime_pipeline.go:1102-1104 | a graph on which l.name with collect(DISTINCT r.Name) collects the name instead of the Name, all sources having string names |
| CollectDistinct.NumbersOutOfOrder | internal/cypher/executor/runtime_pipeline.go:1276-1278 | a graph whose number 10 comes before its number 2 |
| Semantic.IntentsIncrease | internal/cypher/semantic/builder.go:78-121 | the intents of a query carry strictly increasing ordinals below the number of clauses |
| Semantic.BucketsConserve | internal/cypher/semantic/builder.go:68-124 | the four buckets together hold each intent of the query exactly once |
| Semantic.ModelGathers | internal/cypher/semantic/builder.go:78-121 | clause by clause, the model gathers the intents of the query |
| Semantic.KeepItems | internal/cypher/semantic/builder.go:134-143 | items without an expression are dropped, the others trimmed |
| Semantic.CollectOrdering | internal/cypher/semantic/builder.go:145-153 | sort items without an expression are dropped, the others trimmed |
| Semantic.Model.AppendProjection | internal/cypher/semantic/builder.go:126-174 | one more projection, its sort items and its pagination |
| Semantic.Model.AppendClause | internal/cypher/semantic/builder.go:80-119 | the intent of the clause goes into its bucket; clauses without one change nothing |
| Semantic.BuildFromQuery | internal/cypher/semantic/builder.go:68-124 | the model of all UNION parts counted through |
| Semantic.BuildFromMatchQuery | internal/cypher/semantic/builder.go:38-66 | the builder for MATCH ... RETURN gives the model of the general builder on the same clauses |
| Sorting.StableSortOrders | internal/cypher/logical/builder.go:59-64 | sorting puts the elements in order |
| Sorting.OnlyOrdered | internal/cypher/logical/builder.go:59-64 | a strictly ordered arrangement is the only ordered one |
| Logical.SortedSteps | internal/cypher/logical/builder.go:35-64 | sorting the steps of the four buckets by ordinal puts the intents back into source order |
| Logical.Builder.AppendNode | internal/cypher/logical/builder.go:16-24 | the plan stays a chain |
| Logical.Builder.AppendIntent | internal/cypher/logical/builder.go:66-134 | an intent appends its operators in order, SORT and PAGINATION behind their PROJECT |
| Logical.Build | internal/cypher/logical/builder.go:13-141 | for every query the logical plan is the chain of its clauses' operators in source order |
| Physical.Dedupe | internal/cypher/physical/builder.go:496-513 | first occurrences only |
| Physical.ProbesExactly | internal/cypher/physical/builder.go:432-514 | sorting and deduplicating the anti-probes loses none, adds none and repeats none |
| Physical.ProbesOrdered | internal/cypher/physical/builder.go:480-494 | they come in a weak order: higher hit rates first, then by names |
| Physical.MapChildren | internal/cypher/physical/builder.go:66-71 | a single mapped child is mapped, no child stays no child |
| Physical.AppendProbes | internal/cypher/physical/builder.go:100-107 | anti-probes spliced behind an expansion keep the plan a chain |
| Physical.BuildWithStats | internal/cypher/physical/builder.go:56-121 | the physical plan of a logical chain is again a chain: every node's lowering in order, with its anti-probes behind it |
| Engine.VisitSound | internal/cypher/runtime/engine.go:108-170 | a visit adds nodes once, each after its existing children, and ends with the node itself |
| Engine.OrderIsSound | internal/cypher/runtime/engine.go:106-183 | on every acyclic plan (shared or dangling children, unreachable nodes) each existing node runs exactly once, after its existing children |
| Engine.ErrorStays | internal/cypher/runtime/engine.go:172-182 | once a node failed, nothing later changes the outcome |
| Engine.Execution.Visit | internal/cypher/runtime/engine.go:108-170 | the recursive visit terminates and runs the nodes in visit order, up to the first error |
| Engine.Execution.VisitRootThenAll | internal/cypher/runtime/engine.go:172-183 | the sweep that is always taken re-runs no node |
| Engine.Execute | internal/cypher/runtime/engine.go:81-190 | the result is that of running the nodes in this order and stopping at the first error |
| Pipeline.ChainOrder | internal/cypher/runtime/engine.go:106-183 | a chain runs front to back, and the sweep finds everything done |
| Pipeline.Compile | internal/cypher/executor/runtime_pipeline.go:2067-2080 | the three stages compile a query to the chain of its clauses' lowerings |
| Pipeline.BuildPlan | internal/cypher/executor/explain.go:132-142 | the plan over all parts of a statement, which EXPLAIN and PROFILE show and nothing runs, is the chain of all clauses' lowerings |
| Pipeline.RunQuery | internal/cypher/executor/runtime_pipeline.go:81-104 | a query of one part runs the lowerings of its clauses in source order, each exactly once, up to the first error |
| Pipeline.RunMatchQuery | internal/cypher/semantic/builder.go:38-66 | a MATCH ... RETURN query planned by its own builder would run the same chain; the executor turns it into clauses first (runtimeQueryStatementFromStatement) |
| Pipeline.RunRows | internal/cypher/physical/builder.go:56-121 | through all stages and with all rewrites, the rows of the plain operators of one part's clauses in source order, which are the rows the clauses mean if no expansion starts over |
| Unions.DistinctRows | internal/cypher/executor/runtime_pipeline.go:161-176 | keeps the first row of each signature |
| Unions.RunUnion | internal/cypher/executor/runtime_pipeline.go:106-148 | the parts run one by one from no rows, each on the graph it finds, and stop at the first error; the result is the union of the rows that the plain operators of each part give, and of the rows that the parts mean if in none of them an expansion starts over |
| Unions.RunStatement | internal/cypher/executor/runtime_pipeline.go:56-79 | the same for every statement, which is one part or a union |
| Unions.AppendsExactly | internal/cypher/executor/runtime_pipeline.go:122-142 | the result has the rows of all parts in turn, under the columns of the first, exactly if no part fails and all agree on the names of their columns |
| Unions.FirstsExactly | internal/cypher/executor/runtime_pipeline.go:161-176 | UNION DISTINCT keeps in order exactly the rows whose signature has not come before |
| Unions.UnionIsNoChain | internal/cypher/executor/runtime_pipeline.go:122-132 | two parts that answer with one row each, while the plan over both parts would go on from the row of the first |
| Pipeline.SortSeesOwnPage | internal/cypher/physical/builder.go:247-268 | what the planner takes for a sort's SKIP and LIMIT are those of its own projection |
| ClauseMeaning.PlainMeansExactly | internal/cypher/runtime/operators/default_handlers.go:357-364 | after every clause the operators give what the clauses mean, exactly if no MATCH is reached without rows while it finds something from the unit row |
| ClauseMeaning.RestartGivesRow | internal/cypher/runtime/operators/default_handlers.go:357-364 | two MATCH clauses that mean no rows and give one |
| ClauseMeaning.RestartMasked | internal/cypher/runtime/operators/default_handlers.go:357-364 | three that start over on the way and end with the rows they mean: for the last rows alone the condition is not needed |
| Rewrites.CountsByUpper | internal/cypher/executor/runtime_pipeline.go:2110-2138 | planner counts are stored counts under their upper-cased type, with an entry for every type that is not blank |
| Rewrites.StoredCountsExact | internal/cypher/executor/runtime_pipeline.go:2110-2138 | they are exact if the stored ones are and types differ not only in case |
| Rewrites.PruningIsSafe | internal/cypher/physical/builder.go:378-413 | with exact counts a pruned expansion had no rows to give |
| HopPatterns.PruningByTypeExactly | internal/cypher/physical/builder.go:398-430 | a relationship pattern finds nothing on every graph without its first type, exactly if it asks for a hop and names no other type, or has bounds that no number of hops meets |
| HopPatterns.OneTypeNeedsEdges | internal/cypher/physical/builder.go:398-430 | patterns of this kind meet the premise of the pruning |
| Forcing.ForcedExactly | internal/cypher/physical/builder.go:432-445 | a WHERE text of any AND, OR, XOR and NOT without repeated leaves rules a relation out exactly if a walk over the connectives arrives at it |
| Rewrites.ProbesHarmlessExactly | internal/cypher/physical/builder.go:432-514 | for a MATCH that finds something: with anti-probes the plan gives the same rows, however its WHERE text comes out, exactly if the text forces every relation that the planner reads in it |
| Rewrites.UnforcedProbeLosesRow | internal/cypher/physical/builder.go:12-14 | for the texts NOT (c.x AND NOT ((a)-[:T]-(b))), NOT ((a)-[:T {p: 1}]-(b)) and c.x XOR NOT ((a)-[:T]-(b)), each a plan that loses its only row |
| Rewrites.ProbesKeep | internal/cypher/physical/builder.go:432-514 | behind the filter of a WHERE text that forces what the planner reads in it, no anti-probe drops a row |
| Rewrites.CutKeepsPage | internal/cypher/physical/builder.go:291-301 | a sort cut off at k shows the same page if SKIP is at most what the planner saw |
| Rewrites.CutLosesRows | internal/cypher/physical/builder.go:291-301 | it loses rows if SKIP is larger |
| Rewrites.TopKExactly | internal/cypher/physical/builder.go:270-301 | the cut is invisible for all rows exactly if the value of SKIP is at most the literal the planner saw (0 for a SKIP that is no literal) |
| Rewrites.SkipByParameter | internal/cypher/physical/builder.go:270-301 | for SKIP $s LIMIT 5 the sort is cut off at 5, which is invisible exactly if $s is 0 |
| Rewrites.RewritesPreserveRows | internal/cypher/physical/builder.go:56-121 | with pruning, anti-probes and top-k sorting a plan gives the same rows in the same order as without; every premise is about the texts of that plan |
| Split.SplitStatements | internal/cypher/parser/split.go:11-119 | the loop gives the pieces between the cuts that are not blank, numbered from 1 |
| Split.PiecesCover | internal/cypher/parser/split.go:11-119 | the pieces joined with semicolons are the text: outside the segments there is only white space and semicolons |
| Split.NumberedHolds | internal/cypher/parser/split.go:88-93 | each segment is a piece that is not blank, and indices have no gaps |
| Split.NumberedKeeps | internal/cypher/parser/split.go:88-93 | each piece that is not blank is a segment |
| Split.SplitAgain | internal/cypher/parser/split.go:11-119 | splitting the text of a segment gives that one segment |
| Split.HomomorphicExactly | internal/cypher/parser/split.go:11-119 | splitting a;b gives the segments of a and then those of b, moved, for every b, exactly if a leaves no quote or comment open |
| Split.CutsExactly | internal/cypher/parser/split.go:11-119 | a semicolon ends a statement exactly if the text before it is lexically closed |
| Positions.LineColAtOffset | internal/cypher/parser/split.go:121-142 | the position of a byte, with offsets outside the text clamped |
| Positions.PositionMeans | internal/cypher/parser/split.go:121-142 | the line counts the newlines before the byte, the column the bytes since the last one |
| Positions.LocalToGlobal | internal/cypher/parser/split.go:144-150 | a local position moved behind the position of the segment |
| Positions.PositionsAgree | internal/cypher/parser/split.go:121-150 | for a segment cut from a text, the moved local position is the position in the text |
| Positions.SplitStatementPrefix | internal/cypher/parser/parser.go:122-144 | recognizes a keyword up to case that no word byte follows, and where the statement behind it begins |
| Positions.UnwrapSegment | internal/cypher/parser/parser.go:52-76 | unwraps nested EXPLAIN and PROFILE, and refuses one without a query |
| Positions.UnwrapCutsFrom | internal/cypher/parser/parser.go:52-76 | however deep the nesting, the inner segment is cut from the text at its own offset |
| Positions.ReportedPositionsAreTrue | internal/cypher/parser/parser.go:52-76 | for every statement of a batch, through any nesting, reported positions are positions in the batch |
| Calendar.YearLength | internal/cypher/executor/executor.go:1647-1658 | years have 366 days exactly if they are leap years |
| Calendar.CivilInverts | internal/cypher/executor/executor.go:1647-1658 | dates and day numbers correspond one to one |
| Calendar.FirstThursday | internal/cypher/executor/executor.go:1651-1656 | week 1 is the week of the year's first Thursday |
| Calendar.CountedFromWeek1 | internal/cypher/executor/executor.go:1647-1658 | every day is its ISO weekday in its ISO week, counted from the Monday of week 1 of its ISO year |
| Calendar.IsoWeekDate | internal/cypher/executor/executor.go:1647-1658 | computes the date, and refuses weeks and weekdays out of range |
| Calendar.IsoWeekDateInverts | internal/cypher/executor/executor.go:1647-1658 | inverts the ISO week numbering on every Gregorian date |
| Calendar.IsoYearLength | internal/cypher/executor/executor.go:1651-1656 | consecutive week-1 Mondays are 364 or 371 days apart |
| Calendar.IsoWeekDateExactly | internal/cypher/executor/executor.go:1647-1658 | the date for (year, week, weekday) has that ISO year, week and weekday exactly if the year has that week |
| Calendar.Week53RunsOn | internal/cypher/executor/executor.go:1647-1658 | week 53 of a year without one is week 1 of the next year |
| Truncation.TruncateDate | internal/cypher/executor/executor.go:1565-1609 | the day each date unit truncates to |
| Truncation.YearFloor | internal/cypher/executor/executor.go:1573-1582 | year, decade, century and millennium round down exactly if the year is not negative or a multiple |
| Truncation.DecadeBeforeYearZero | internal/cypher/executor/executor.go:1579-1581 | the first day of year -5 is truncated to the first day of year 0, a later one |
| Truncation.DayFloorExactly | internal/cypher/executor/executor.go:1565-1609 | each date truncation is the last day up to the input on which the unit begins, exactly for the years that round down |
| Truncation.FloorExactly | internal/cypher/executor/executor.go:1546-1612 | the same for instants and all units |
| Truncation.TruncationIdempotentAndMonotone | internal/cypher/executor/executor.go:1546-1612 | truncation is idempotent and monotone, in all years |
| Truncation.MarksNest | internal/cypher/executor/executor.go:1565-1609 | where a coarse unit begins a finer one begins |
| Truncation.FinerFirst | internal/cypher/executor/executor.go:1565-1609 | truncating to a finer unit first makes no difference, in all years |
| Truncation.ApplyTruncation | internal/cypher/executor/executor.go:1538-1612 | the fields of the truncated time; an invalid month or day leaves the fields alone |
| Truncation.FieldsTruncate | internal/cypher/executor/executor.go:1546-1619 | for fields in range, what is left in the map is the truncated time, for every unit |
| Where.SplitBoolean | internal/cypher/executor/runtime_pipeline.go:2547-2620 | the loop splits at the token outside quotes and parentheses, and gives nothing for an open quote or parenthesis or a blank part |
| Where.SplitShorter | internal/cypher/executor/runtime_pipeline.go:2547-2620 | several parts are each shorter than the whole, so the parser ends |
| Where.TrimOuterParensOnce | internal/cypher/executor/runtime_pipeline.go:2633-2686 | takes off the outer parentheses if they belong together |
| Where.StripOuterParens | internal/cypher/executor/runtime_pipeline.go:2622-2631 | takes off all of them |
| Where.ParseWhereNode | internal/cypher/executor/runtime_pipeline.go:2408-2429 | splits at OR and combines from the left, else goes on to AND |
| Where.ParseWhereAndNode | internal/cypher/executor/runtime_pipeline.go:2431-2499 | splits at AND and combines from the left, else takes one comparison |
| Where.WalkFinds | internal/cypher/executor/runtime_pipeline.go:2521-2545 | the walk finds whether all connectives are the same, and which |
| Where.ParseWhereExpr | internal/cypher/executor/runtime_pipeline.go:2391-2406 | the comparisons from left to right; OR logic exactly if OR is the only connective |
| WherePrinting.StepWithin | internal/cypher/executor/runtime_pipeline.go:2560-2609 | between harmless edges the scanner moves over a part of a text as over the part alone |
| WherePrinting.PastedSplits | internal/cypher/executor/runtime_pipeline.go:2547-2620 | two closed parts around a token are split at that token |
| WherePrinting.PastedClean | internal/cypher/executor/runtime_pipeline.go:2547-2620 | and not at the other token |
| WherePrinting.StripPasted | internal/cypher/executor/runtime_pipeline.go:2633-2686 | the parentheses of the first part are not taken for outer ones |
| WherePrinting.ParsePrinted | internal/cypher/executor/runtime_pipeline.go:2391-2499 | for every AND/OR tree over well-formed comparisons, parsing its fully parenthesized print gives the tree |
| Chain.ConsumeVertexSegment | internal/cypher/executor/pattern.go:1205-1222 | the end of the vertex the text begins with |
| Chain.ConsumeRelationshipSegment | internal/cypher/executor/pattern.go:1354-1424 | the end of the bracketed step the text begins with; brackets in quotes do not count |
| Chain.ParseBound | internal/cypher/executor/pattern.go:820-832 | decimal digits, with 64-bit wrap-around |
| Chain.NormalizeClauseBody | internal/cypher/executor/write.go:23626-23682 | white space outside quotes is dropped |
| Chain.ParseLinks | internal/cypher/executor/pattern.go:1317-1345 | steps and vertices in turn, up to the end of the text |
| Chain.ParseChain | internal/cypher/executor/pattern.go:1303-1352 | a chain of two or more segments |
| Chain.TokensCover | internal/cypher/executor/pattern.go:1303-1352 | on every accepted text the tokens make up the whole normalized text, each read where it stands as its vertex or segment, with one more vertex than segments |
| ChainPrinting.HopsRoundTrip | internal/cypher/executor/pattern.go:788-832 | printed hop bounds are read back |
| ChainPrinting.TypesRoundTrip | internal/cypher/executor/pattern.go:1118-1142 | printed type alternatives are read back |
| ChainPrinting.EdgeRoundTrip | internal/cypher/executor/pattern.go:1070-1116 | variable, types and properties of a printed fixed-length edge are read back |
| ChainPrinting.VariableEdgeRoundTrip | internal/cypher/executor/pattern.go:756-786 | so are those of a variable-length edge, with its bounds |
| ChainPrinting.SegmentRoundTrip | internal/cypher/executor/pattern.go:1426-1474 | a printed bracketed step is read back with its direction and everything in it |
| ChainPrinting.StepThen | internal/cypher/executor/pattern.go:1227-1243 | a printed step, arrow or bracketed, is one token wherever a vertex follows |
| ChainPrinting.ChainRoundTrip | internal/cypher/executor/pattern.go:1303-1352 | a printed chain is read back with its vertices, directions, types and bounds exactly if it has two or more segments; shorter ones are refused |

## Left out

- IndexMachine.CompletedJobCovers: runs interleave worker transactions with writers and crashes, but not with a restart or drop of a job that the worker has in hand, because both may write the same next revision.
- IndexMachine.DropClears: a crash inside a drop is not modelled, because a pending job then resumes past deleted entries.
- IndexExecutor.Executor.FillVertex: the write-batch limit counts entries, not bytes, because the size of a record is the store's business.
- TwoHopFast.Execute: assumes trimmed IDs, that no two new edges get the same identifier, and that no stored edge has taken the identifier of a different pair.
- CollectDistinct.Execute: the order within a collected list is left open, because it is the order of a Go map.
- CollectDistinct.FastIsPlainExactly: a value is its tag and its text, and how the query orders values is a parameter.
- Rewrites.RewritesPreserveRows: assumes of the plan at hand that a pattern whose edge type counts as empty needs an edge for every row (`HopPatterns.OneTypeDecides` says for which patterns), and that its WHERE texts force the relations read in them; errors while evaluating a row are not modelled.
- Pipeline.RunRows: expansions are functions of pattern and row on a graph that stands still, so a MATCH that reads what an earlier clause of the same part wrote is not captured; each part of a UNION has a graph of its own.
- Unions.RunStatement: refusals of unsupported shapes, the columns of a part, the normal form of result values and the text that equal rows share are parameters.
- Unions.AppendsExactly: parts without any columns are excluded; after them the next part's columns are taken.
- ClauseMeaning.PlainMeansExactly: for the rows of the last clause alone the condition suffices but is not needed, because a later MATCH without rows covers up an earlier restart (`ClauseMeaning.RestartMasked`).
- HopPatterns.PruningByTypeExactly: labels, properties and further relationships of a pattern are not in it; they only take rows away.
- Forcing.ForcedExactly: leaves that occur twice are excluded, because two occurrences of a leaf can contradict each other.
- Engine.Execute: cyclic plans are excluded; on them the visit does not end.
- Positions.ReportedPositionsAreTrue: columns count bytes; the lexer counts characters, and the EXISTS and REDUCE rewrites before it move text.
- WherePrinting.ParsePrinted: comparisons whose identifier is itself AND or OR are excluded.
- ChainPrinting.ChainRoundTrip: vertices and properties with quotes or white space, and properties with brackets or `*`, are excluded.
- Truncation.ApplyTruncation: time zones with transitions, the entries for a zone name, and truncation overrides are not modelled.
- The JSON state of a job is taken as an injective encoding, and job records are kept apart from index entries instead of in a reserved keyspace.
- Upper and lower case of edge types, WHERE texts and keywords are modelled for ASCII; case folding of index names is an arbitrary function.
- The estimates of build progress, and starting and stopping the worker.
- Detecting whether a query has the shape of a fast path; the model starts from the accepted pattern.
- Access paths, operator variants, typed-domain guardrails and selectivity heuristics: they choose among executions of the same operator.
- The standalone-OR scan of WHERE texts and the regular expressions of the planner are parameters of the plan builder.
- Parsing the text of an UNWIND clause.
- The literal syntax of comparisons and the label filters of vertex tokens.
- Operators other than expansion, anti-probe, sort and pagination are arbitrary functions on rows.
- ANTLR parsing, EXISTS and REDUCE placeholders, EXPLAIN output, observability counters, the Pebble store, the gRPC server and the command line.
