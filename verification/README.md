# A columnar query engine, modelled and proved in Dafny

The engine reads CSV into a chunked columnar file and runs query plans over such files with several threads. This
project models three of its parts and proves that they do what they are for:

- **Query execution.** A plan tree is compiled into an ordered list of pipelines; each pipeline is run by N tasks that
  share a source, pass batches through transforms with selection vectors, and feed a sink that is the source of a later
  pipeline. Compilation and the operators are methods on mutable state; the task protocol is a state machine whose steps
  are the atomic actions of `Pipeline::Execute`. A plan tree compiles exactly if its names resolve on the tree
  (`PlanForms.CompilesExactly`), and collecting it, for every order in which tasks act, every assignment of batches to
  threads and every choice of a sink, yields rows that the relational meaning of the plan allows
  (`PlanCollect.CollectPlan`, `PlanMeaning.PlanIsMeant`), with every column asked for, in the order asked for. What each
  node means is also said in plain numbers and bytes, without the functions that the operators are made of
  (`PlainMeanings`, `GroupMeanings`).
- **Storage path.** Tokenizer over a refilled buffer, string tables over one run of bytes, conversion into 8192-row
  chunks, file writer, footer parser and chunk reader, joined end to end: what is read back from a converted file is what
  the CSV text said (`CsvArchive.StoredColumn`, `CsvArchive.PrintedTable`), together with the exact condition under
  which the last rows of the text are lost (`CsvChunks.NothingLost`). With the engine's own field parsers, a printed typed
  table becomes a file from which a query scans its rows (`CsvTables.ArchivedTableScans`).
- **Codecs.** Dates, timestamps, 128-bit decimal text and run-length encoding.

`dafny verify dfyconfig.toml` checks everything.

## Where to start reading

| part | modules |
|---|---|
| values, batches, builders | `Values`, `Batches`, `Builders` |
| transforms | `Filters`, `Scalars`, `Operators` |
| tasks and pipelines | `Pipelines`, `PipelineRows`, `Execution`, `TaskRuns`, `LimitPlacement`, `SeveralLimits`, `ThreadPools` |
| grouping and aggregates | `Keys`, `Aggregates`, `Groupings`, `GroupBy`, `GlobalAggregation` |
| sorting | `Rankings`, `Orderings`, `OrderBy`, `ColumnlessSorts` |
| plans | `Names`, `Plans`, `PlanShapes`, `PlanForms`, `FunctionReads`, `NamedRows`, `PlainMeanings`, `GroupMeanings`, `PlanRuns`, `PlanTypes`, `PlanMeaning`, `EmptySorts`, `ChosenColumns`, `PlanCollect` |
| storage | `Bytes`, `ColumnCodes`, `FileLayout`, `ColumnarFile`, `StringTables`, `CsvRows`, `CsvTokenizers`, `CsvReaders`, `CsvRoundTrip`, `CsvSyntax`, `CsvChunks`, `CsvToColumnar`, `CsvArchive`, `FieldTexts`, `CsvTables` |
| codecs | `Dates`, `Timestamps`, `Int128Text`, `Rle` |

Values are integers (INT16 to INT128, CHAR as a signed byte, DATE, TIMESTAMP) or byte strings, and wrap-around is written
out where the engine's machine arithmetic has it. Hash maps and hash sets are finite maps and sets; where the engine
iterates over one, the model picks the next entry arbitrarily. The aggregation functions' per-thread state lives in the
sink that owns them. A read of LIMIT's done flag may be stale. Standard-library sorts are small verified methods with the contract
of the C++ algorithm, so ties may fall either way.

## Results that are not the obvious ones

- A transform above LIMIT in the same pipeline is not always applied. A finished run applies it to everything LIMIT let
  through if and only if the limit is zero or fewer rows than the limit reach LIMIT in all, for every source, number of
  tasks and interleaving (`LimitPlacement.NothingSkippedExactly`). Otherwise the piece that reaches the limit is sunk as
  it is (`LimitPlacement.SkippedBehindLimit`), and so may be the batch of a task that only read another task's flag
  (`LimitPlacement.StoppedByAnother`). So a well-formed plan has nothing but a sort or an aggregation on top of a LIMIT.
- Nor does a second LIMIT have to be met: LIMIT 5 of LIMIT 10 over one batch of 20 rows delivers 10. For one task and one
  batch both limits hold exactly if the first is not above the second, or is not reached
  (`SeveralLimits.TwoLimitsExactly`). For any source and tasks, a first LIMIT that is zero or above all rows that reach it
  changes nothing behind it (`SeveralLimits.FirstLimitUnseen`), and the second then counts what it should
  (`SeveralLimits.SecondLimitCounts`).
- A projection may not read, over a scan, a column that it computes itself: the functions would compile one after the
  other, but the column is asked of the child as well (`PlanForms.SiblingUseFails`, `PlanForms.SiblingsOverScan`).
- DATE_TRUNC of a DATE column compiles, and the schema then says DATE of a column that holds timestamps. Schema and columns
  agree throughout a tree exactly if it has no such DATE_TRUNC (`PlanForms.TypesAgreeExactly`, `PlanForms.DateTruncOfDate`).
- A CASE whose branch is a column of another type than the CASE declares compiles too, and the column is then read as the
  declared type (`FunctionReads.CaseOfOtherType`). The functions of a compiled tree read columns of their own types
  exactly if the tree has neither such a CASE nor such a DATE_TRUNC (`FunctionReads.ReadsAgreeExactly`).
- An ORDER BY hands on a batch without columns exactly if no row reached it or its limit and offset together are 0
  (`OrderBy.OrderBySink.Finalize`). The pipeline above such a batch is safe exactly when its first transform reads no
  column, or is a LIMIT, or is missing (`Execution.BareBatchFaults`), and nothing else in a compiled plan can fault
  (`PlanCollect.PlanNeverFaults`). Told on the tree: a query stops only if a node that reads a column stands right above a
  sort whose child may mean no rows or whose limit and offset are 0; it does stop if one stands above a sort for which that
  is always so; and where nothing filters or groups a choice of rows below a sort the two conditions are one
  (`PlanCollect.CollectPlan`). So a filter over ORDER BY ... LIMIT 0 is never answered, whatever its table holds
  (`PlanCollect.LimitZeroStarves`).
- An ORDER BY of rows without columns answers only for the last batch of each thread. It delivers as many rows as it should
  exactly if no earlier batch has rows, or its limit or offset hides the difference (`ColumnlessSorts.SinkColumnless`).
- A constant column added to a batch that was filtered and then lost every column is as long as the rows left, and the batch
  is in order exactly if the filter had kept rows from the front (`Scalars.ConstantOnNoColumns`).
- A SUM is right exactly if the true sum fits its accumulator, whatever wraps on the way (`Aggregates.ResultIsAggregate`,
  `GlobalAggregation.SinkAll`).
- `limit + offset` is computed modulo 2^64. Every answer is a legal one exactly when the sum does not wrap, or wraps
  without effect (`OrderBy.LegalUnlessWrapped`).
- A conversion drops its last rows when a row that fills the byte cache is also the last row of the text
  (`CsvChunks.NothingLost`, with a one-row example in `CsvChunks.OneLongFieldIsLost`).
- YEAR truncation of a date gives 1 January of the following year (`Dates.YearTruncationIsNextNewYear`), and MONTH
  truncation of a timestamp rounds the day number toward zero, which before 1970 can give the start of the following
  month (`Timestamps.MonthTruncationExact`).
- The last line of a text may lack its line feed, but an empty field at its end is then not seen (`CsvSyntax.LastRowReads`).
- YEAR truncation of a timestamp gives the start of the following year, and before 1970, inside the last day of a year,
  the start of the year after that (`Timestamps.YearTruncationExact`).
- Printing and parsing INT128 is the identity exactly off the least value (`Int128Text.ParseFormat`).
- CSV fields survive exactly if they hold no CR and do not end in a blank (`CsvRoundTrip.TableRoundTrip`). The delimiter
  may be a blank: only a quote or a line feed is excluded.
- A thread pool without workers never executes anything; with one or more it executes each task once
  (`ThreadPools.EveryTaskOnce`).

## Model

| member | source | states |
|---|---|---|
| `PlanCollect.CollectPlan` | src/execution/ExecutionApi.h:127-156 | Collect as a whole: it fails to compile exactly if a name does not resolve; it stops only if a node that reads a column stands right above a sort whose child may mean no rows or whose limit + offset is 0, stops for certain if that sort is always so, and exactly then where the tree settles the row counts of its sorts' inputs; otherwise it collects a result the plan means, typed as the schema says, with every column the query asks for (all fields of the table for "*"), in the order asked for; no assumption on rows, sinks or runs |
| `ChosenColumns.ChosenAreDelivered` | src/execution/ExecutionLogic.cpp:5-307 | whatever the requests of filters and sorts add, the columns a query asks for are in the compiled schema, in the order asked for: those of the scan, then outputs of projections, less those dropped; the list of a reordering; group-by columns and aggregates |
| `PlainMeanings.ScanMeans` | src/execution/OperatorsBase.cpp:37-65 | a scan means every row of every chunk once, each cell under the name of its field, in any order |
| `PlainMeanings.FilterMeans` | src/execution/OperatorsBase.cpp:73-82 | a filter means exactly the rows on which its condition is true, in order, comparisons told by numbers and bytes |
| `PlainMeanings.FilterGreater` | src/execution/expressions/FilterFunctions.h:62-87 | c > k is true of a row exactly if its number is greater |
| `PlainMeanings.FilterNested` | src/execution/expressions/FilterFunctions.h:187-229 | (a > k AND b LIKE t) OR c <= m is true of a row exactly if its cells say so |
| `PlainMeanings.LimitMeans` | src/execution/OperatorsBase.cpp:140-169 | a limit means the first min(n, all) rows |
| `PlainMeanings.ProjectMeans` | src/execution/OperatorsBase.cpp:91-96 | a projection adds its columns one after the other and changes no other: sums within the width, byte lengths, minutes, starts of time units, branches |
| `PlainMeanings.ProjectAdds` | src/execution/expressions/ScalarFunctions.h:119-132 | a + k under the name b is the sum wherever 64 bits hold it |
| `PlainMeanings.OutputTypes` | src/execution/expressions/ScalarExpressions.h:40-240 | the column type of each kind of computed column |
| `PlainMeanings.DropMeans` | src/execution/OperatorsBase.cpp:104-118 | DROP means the rows without those columns |
| `PlainMeanings.ReorderMeans` | src/execution/OperatorsBase.cpp:119-133 | a reordering means the rows with those columns only |
| `PlainMeanings.OrderMeans` | src/execution/OperatorsBase.cpp:394-490 | a sort means rows p[offset .. min(offset + limit, all)] of an arrangement p in which, on the first keys that differ, numbers and bytes stand in the order asked for |
| `PlainMeanings.OrderOfNumbers` | src/execution/OperatorsBase.cpp:451-459 | a first key on numbers ascends, or descends |
| `GroupMeanings.TotalsMean` | src/execution/expressions/AggregationFunctions.h:150-206 | aggregates without groups mean one row: number of rows, number of different cells, sum, least and greatest cell of all rows |
| `GroupMeanings.GroupsMean` | src/execution/OperatorsBase.cpp:212-322 | with groups every row has a key that occurs, keys of different rows differ, every input row is in a group, and aggregates are those of exactly the rows with the key |
| `GroupMeanings.ExtremeNumbers` | src/execution/expressions/AggregationFunctions.h:60-84 | MIN and MAX of numbers are numbers of the column that none is below, or above |
| `GroupMeanings.TypesOfAggregates` | src/execution/expressions/AggregationExpressions.h:11-36 | the column type of each aggregate |
| `PlanCollect.RunPipeline` | src/execution/ExecutionApi.h:147-150 | any pipeline whose source batch has the columns its first transform reads runs to its end, and its sink answers for all rows delivered to it by whatever threads |
| `PlanCollect.RunIsManageable` | src/execution/OperatorsBase.cpp:212-262 | the rows that reach the sink of any run are typed, at most 2^32, and within the limits of its SUMs: derived from the table, not assumed |
| `PlanCollect.PlanNeverFaults` | src/execution/Pipeline.h:59-69 | no task of any pipeline of a compiled plan ever indexes a missing column, in any interleaving, if and only if the pipeline does not have a first transform that reads a column and start from a sort which no row reached or whose limit + offset is 0 |
| `PlanCollect.StarvesOrNot` | src/execution/ExecutionApi.h:127-156 | runs that stop do so because the tree can starve, runs that finish show that it need not, and where row counts are settled the tree alone decides |
| `PlanCollect.LimitZeroStarves` | src/execution/OperatorsBase.cpp:386-388 | a filter over ORDER BY ... LIMIT 0 of a table with a row is well-formed and must starve |
| `EmptySorts.FedBareExactly` | src/execution/OperatorsBase.cpp:418-422 | in any runs, what a pipeline starts from has no columns exactly if it is a sort that no row reached or whose limit + offset is 0 |
| `EmptySorts.NeedsColumnExactly` | src/execution/OperatorsBase.cpp:73-133 | which nodes right above a sort read a column: every filter, a reorder that lists columns, a drop that leaves some, a projection that begins with a computed column but none of constants |
| `EmptySorts.StarvedBelow` | src/execution/ExecutionLogic.cpp:5-307 | a starved pipeline points to a node of the tree that reads a column right above a sort that can be left with no row |
| `EmptySorts.StarvedAbove` | src/execution/ExecutionLogic.cpp:5-307 | if such a node stands above a sort that is always left with no row, every execution has a starved pipeline |
| `EmptySorts.SameCount` | src/execution/ExecutionLogic.cpp:5-307 | two meanings of a tree in which no filter or GROUP BY stands above a choice of rows have the same number of rows |
| `EmptySorts.CanIsMust` | src/execution/ExecutionLogic.cpp:5-307 | where the inputs of the sorts are such trees, a tree that can starve must |
| `PlanMeaning.PlanIsMeant` | src/execution/ExecutionApi.h:127-156 | every well-formed plan compiles, and any finished execution of its pipelines collects rows that, by the names of the final schema, are a result the plan means; column i has the type of schema position i |
| `PlanMeaning.BuiltIsMeant` | src/execution/ExecutionLogic.cpp:5-307 | by induction on a well-formed tree: whatever order the source's rows arrive in, the pipelines built for a node, run in order, yield a result the node means, whatever columns the parent asked for |
| `PlanMeaning.TransformStep` | src/execution/ExecutionLogic.cpp:128-307 | one filter, limit, projection, drop or reorder on positions agrees with the same node on names |
| `PlanMeaning.BreakerStep` | src/execution/ExecutionLogic.cpp:51-189 | a sink's answer by position is an answer of its ORDER BY or aggregation by name |
| `PlanForms.CompilesExactly` | src/execution/ExecutionLogic.cpp:5-307 | a tree with nodes in their places compiles if and only if every name is found, with a fitting type, where the tree says it is shown; the schema has exactly the shown names, which for a scan are all fields for "*", or those listed, and the required ones |
| `PlanForms.CompiledOk` | src/execution/ExecutionLogic.cpp:5-307 | every well-formed tree compiles: indices are in range, schema position i names and types batch column i, and each pipeline reads only results of earlier ones |
| `PlanForms.PushDownKeepsRequired` | src/execution/ExecutionLogic.cpp:5-47 | pruning loses nothing: each column a parent requires and a well-formed plan offers is in the compiled schema, with its type |
| `PlanForms.PruningIsSafe` | src/execution/ExecutionLogic.cpp:5-307 | if every node finds its columns in what its child means, and every DROP and REORDER in what its child shows when nobody asks for anything, all of them are still found after the push-down |
| `PlanForms.ShownGrows` | src/execution/ExecutionLogic.cpp:5-47 | asking a tree for more columns never hides one that it shows |
| `PlanForms.SiblingUseFails` | src/execution/ExecutionLogic.cpp:202-236 | a projection that reads a column its child does not have fails to compile wherever requests reach the scan, even if it computes that column itself |
| `PlanForms.SiblingsOverScan` | src/execution/ExecutionLogic.cpp:202-236 | b = a + 1 and c = b + 1 over a scan of a: the functions compile in turn, the plan does not |
| `PlanForms.TypesAgreeExactly` | src/execution/expressions/ScalarExpressions.h:70-81 | the schema gives the columns' types at every node of a compiled tree if and only if no DATE_TRUNC reads a DATE |
| `PlanForms.DateTruncOfDate` | src/execution/expressions/ScalarExpressions.h:70-81 | the failing input: the schema says DATE, the column is a TIMESTAMP |
| `FunctionReads.ReadsAgreeExactly` | src/execution/expressions/ScalarExpressions.h:212-237 | every function of a compiled tree reads columns of its own type if and only if no DATE_TRUNC reads a DATE and no CASE branch is a column of another type than the CASE declares |
| `FunctionReads.CaseOfOtherType` | src/execution/expressions/ScalarFunctions.h:158-171 | the failing input: an INT64 column as a branch of a CASE declared INT32 compiles to a function that reads it as INT32 |
| `PlanShapes.KeepsRequired` | src/execution/ExecutionLogic.cpp:5-47 | whenever a tree compiles, well-formed or not, each column required and offered is in its schema |
| `PlanTypes.CompiledTyped` | src/execution/ExecutionLogic.cpp:5-307 | every pipeline of a well-formed plan over typed tables and literals computes typed columns, and its sinks' SUMs can take as many rows as the table has |
| `PlanTypes.ThroughTyped` | src/execution/OperatorsBase.cpp:73-133 | a chain of transforms leaves typed rows typed and adds none |
| `PlanTypes.ResultBounded` | src/execution/OperatorsBase.cpp:178-490 | what a sort or aggregation gives is again typed, and no more rows than it was given, or one |
| `Plans.PipelineBuildContext.BuildPipelines` | src/execution/ExecutionLogic.cpp:5-307 | the mutating compiler succeeds exactly when the recursive definition does, and leaves exactly its pipelines, source, transforms and schema in the context |
| `Plans.PipelineBuildContext.BuildBreaker` | src/execution/ExecutionLogic.cpp:51-124 | a breaker completes its child's pipeline and makes itself the source of the outer one |
| `Plans.PipelineBuildContext.BuildScan` | src/execution/ExecutionLogic.cpp:5-47 | for "*" the schema begins with all fields of the table in their order, otherwise with the columns listed; behind them stand only required columns, each at its first position in the table; it fails exactly if a listed or required column is not in the table |
| `Plans.PipelineBuildContext.AddTransform` | src/execution/ExecutionLogic.cpp:128-307 | one operator is appended to the transforms before it, each name of the node at its first position in the schema below (what DROP keeps: all other positions in order); DROP and REORDER fail exactly on a missing name, and an error changes nothing |
| `Plans.FindField` | src/column/Schema.h:50-57 | the search loop finds the first field of the name, or fails exactly if there is none |
| `Plans.KeepOthers` | src/execution/ExecutionLogic.cpp:259-268 | the loop keeps exactly the positions whose names are not dropped, in order |
| `Plans.MakeScalars` | src/execution/ExecutionLogic.cpp:229-232 | each expression is compiled against the schema as the ones before it have extended it |
| `Plans.IndicesOf` | src/column/Schema.h:50-57 | all names resolve, each to its first position, or the lookup fails |
| `Names.SortErase` | src/execution/ExecutionLogic.cpp:137-139 | sort then unique yields the strictly sorted list of the same names |
| `Names.SortedUnique` | src/execution/ExecutionLogic.cpp:137-139 | only one strictly sorted list has given members |
| `PlanRuns.RunSink` | src/execution/Pipeline.h:74-98 | the breaker objects, fed batches in any order on any threads and finalized, give the answer the plan theorem uses |
| `PlanRuns.ScanRows` | src/execution/OperatorsBase.cpp:37-65 | the batches a scan hands out hold the chosen columns of all table rows, in chunk order; without columns a single batch counts them |
| `PlanRuns.TableRun` | src/execution/OperatorsBase.cpp:37-65 | a finished pipeline over a table sank its transforms' rows for some arrangement of the table's rows |
| `PlanRuns.BreakerRun` | src/execution/OperatorsBase.cpp:492-498 | a finished pipeline over a breaker's single batch sank its transforms' rows in the breaker's order |
| `Pipelines.ReachesInvariant` | src/execution/Pipeline.h:48-99 | every state of every interleaving keeps the accounting of taken, arrived and sunk batches |
| `Pipelines.FinishedRun` | src/execution/Pipeline.h:48-99 | after Finalize all tasks have finished, each surviving batch was sunk once with LIMIT's cut, and tasks stopped early only with the limit covered |
| `Pipelines.FinishedRowCount` | src/execution/OperatorsBase.cpp:140-169 | a finished pipeline ending in LIMIT sank exactly min(limit, rows available) rows |
| `Pipelines.PiecesTile` | src/execution/OperatorsBase.cpp:140-169 | the pieces that the atomic row counter lets through tile [0, min(limit, counted)) |
| `Pipelines.StepTouchesOwnLane` | src/execution/Pipeline.h:53-88 | a step of one task changes no other task and no other thread's sink state, and happens before Finalize |
| `Pipelines.StepDecreases` | src/execution/Pipeline.h:53-99 | every step of every run lowers a measure on batches left and positions of tasks |
| `Pipelines.RunsAreBounded` | src/execution/Pipeline.h:53-99 | no run is longer than the measure of its start |
| `Pipelines.NoDeadlock` | src/execution/Pipeline.h:91-96 | an unfinished run in which no task faulted has a next step |
| `Pipelines.SafeSupplyNeverFaults` | src/execution/Pipeline.h:59-69 | if every batch of the source goes through the transforms alone, no task of any interleaving faults |
| `Pipelines.Completes` | src/execution/Pipeline.h:53-99 | whatever has happened so far, a run over a safe source can be carried on to its end |
| `TaskRuns.Act` | src/execution/Pipeline.h:53-88 | the next action of any unfinished task, on real batches, is a step of the state machine |
| `TaskRuns.Execute` | src/execution/Pipeline.h:48-99 | letting any unfinished task act until all are done ends, and is a finished run of the state machine |
| `PipelineRows.RunRows` | src/execution/Pipeline.h:48-99 | the rows sunk are the first `limit` of some ordering of all rows the transforms leave; in source order if the source has one batch |
| `Execution.RunRows` | src/execution/Pipeline.h:48-99 | the same for record batches and relational transforms, with the types of the sunk batches |
| `Execution.RunNeverFaults` | src/execution/Pipeline.h:59-69 | transforms that fit the source's shape never index a missing column, in any interleaving |
| `Execution.BareBatchFaults` | src/execution/OperatorsBase.cpp:418-422 | above a batch without rows and columns no run faults, if and only if the first transform fits a batch without columns, is LIMIT or is missing |
| `LimitPlacement.NothingSkippedExactly` | src/execution/Pipeline.h:59-83 | with transforms before and behind a LIMIT, any source and any tasks: no task of a finished run was told to stop with a batch in hand if and only if the limit is zero or more than the rows that reach it |
| `LimitPlacement.TransformedBelowLimit` | src/execution/Pipeline.h:59-83 | in that case every finished run sinks what the pipeline leaves with LIMIT taken out (with nothing passing, if the limit is zero), each batch once |
| `LimitPlacement.SkippedBehindLimit` | src/execution/Pipeline.h:65-68 | in the other case every finished run has sunk the piece that reaches the limit as LIMIT cut it, untouched by the transforms behind |
| `LimitPlacement.StoppedByAnother` | src/execution/Pipeline.h:65-68 | a run of two tasks in which the one that stays below the limit reads the other's flag and sinks its whole batch untransformed |
| `LimitPlacement.OneBatchExactly` | src/execution/Pipeline.h:65-68 | the smallest case in full: what one task sinks of one batch with one transform behind LIMIT, for every batch and limit |
| `Execution.LimitInside` | src/execution/OperatorsBase.cpp:140-169 | the engine's batches and transforms are an instance of these |
| `SeveralLimits.FirstLimitUnseen` | src/execution/Pipeline.h:59-83 | with a first LIMIT that is zero or above all rows that reach it, and anything behind it, every run sinks what some run without that LIMIT (or with nothing passing) sinks |
| `SeveralLimits.SecondLimitCounts` | src/execution/Pipeline.h:59-83 | in that case a pipeline with a second LIMIT at its end sinks exactly as many rows as that limit and the rows that should reach it allow |
| `SeveralLimits.TwoLimitsExactly` | src/execution/Pipeline.h:65-68 | LIMIT m of LIMIT n, one task and one batch: what is sunk for all n and m, and both limits hold if and only if n is at most m or is not reached |
| `Execution.LimitOfLimit` | src/execution/OperatorsBase.cpp:140-169 | the same for the engine's batches |
| `ThreadPools.OnePlace` | src/utils/ThreadPool.h:14-57 | at every moment of every run each enqueued task is in exactly one of: the vector, a worker's hand, the executed list |
| `ThreadPools.EveryTaskOnce` | src/utils/ThreadPool.h:47-57 | when the destructor has returned each task was executed exactly once, if and only if there is a worker or no task |
| `ThreadPools.NotStuck` | src/utils/ThreadPool.h:14-57 | until the destructor has returned some step other than enqueueing can be taken: the owner can begin to destroy the pool, and from then on a worker can take, finish or leave, or the owner can join one |
| `ThreadPools.RunsAreBounded` | src/utils/ThreadPool.h:14-57 | a run is no longer than 2 threads + 1 + 4 enqueues |
| `Filters.Evaluate` | src/execution/expressions/FilterFunctions.h:187-229 | for any And/Or tree the selection is strictly increasing and holds exactly the selected physical rows on which the tree is true, its comparisons told by numbers and bytes |
| `Filters.EvaluateCompare` | src/execution/expressions/FilterFunctions.h:13-136 | the same for one comparison, with or without an earlier selection |
| `Filters.PassesOnNumbers` | src/execution/expressions/FilterFunctions.h:13-136 | the seven comparisons on numbers |
| `Filters.PassesOnStrings` | src/execution/expressions/FilterFunctions.h:13-185 | the seven comparisons on strings: the first differing byte, or a prefix, decides, and LIKE finds the pattern at some position |
| `Filters.SelectsNumbers` | src/execution/expressions/FilterFunctions.h:13-136 | a selected row of a column of numbers is in the selection exactly if its number compares so |
| `Filters.SelectsNested` | src/execution/expressions/FilterFunctions.h:187-229 | (c > k AND d LIKE t) OR e <= m selects exactly the rows whose cells say so |
| `Filters.FilterKeeps` | src/execution/OperatorsBase.cpp:73-82 | the rows a filter leaves are those on which the tree is true, in order |
| `Filters.SetIntersection` | src/execution/expressions/FilterFunctions.h:193-202 | merge of two strictly increasing lists: members of both, strictly increasing |
| `Filters.SetUnion` | src/execution/expressions/FilterFunctions.h:215-224 | merge of two strictly increasing lists: members of either, strictly increasing |
| `Filters.MatchingUnique` | src/execution/expressions/FilterFunctions.h:187-229 | a tree's selection is determined by its meaning |
| `Filters.FilterBatchRows` | src/execution/OperatorsBase.cpp:73-82 | the logical rows after a filter are the logical rows before it on which the tree holds, in order; a null batch exactly if there are none |
| `Filters.ExecuteFilter` | src/execution/OperatorsBase.cpp:73-82 | the operator returns that batch, keeps the batch invariant, and selects exactly the rows on which the tree is true |
| `Filters.StackedFilters` | src/execution/OperatorsBase.cpp:73-82 | two filters in a row equal one filter with their conjunction |
| `Scalars.EvaluateCaseWhen` | src/execution/expressions/ScalarFunctions.h:158-194 | the cursor merge takes the true branch on exactly the selected rows where the condition holds, at every physical index |
| `Scalars.EvaluatePerRow` | src/execution/expressions/AggExpHelper.h:9-23 | the value goes to the physical index of each logical row, and it is the sum, length, minute or start of a time unit that the query asks for; other positions keep the default |
| `Scalars.ScalarColumnMeaning` | src/execution/expressions/ScalarFunctions.h:21-194 | at the physical index of a logical row the column holds the function's value on that row, which `Scalars.MeaningComputes` tells in numbers |
| `Scalars.MeaningComputes` | src/execution/expressions/ScalarFunctions.h:21-194 | constants, sums reduced to the width of the column, byte lengths, minutes of the hour, starts of time units, and the branch a condition chooses |
| `Scalars.AddsExactly` | src/execution/expressions/ScalarFunctions.h:119-132 | AddConst gives the number in the range of the column that differs from the sum by a multiple of its size |
| `Scalars.AddsInRange` | src/execution/expressions/ScalarFunctions.h:119-132 | so it is the sum wherever the column can hold it |
| `Scalars.StartsExactly` | src/types/Timestamp.h:71-99 | DATE_TRUNC gives the stated start for each unit |
| `Scalars.AppendComputed` | src/execution/OperatorsBase.cpp:91-96 | appending the column extends every logical row by the function's value on it |
| `Scalars.ConstantOnNoColumns` | src/execution/expressions/ScalarFunctions.h:85-105 | a constant added to a filtered batch of which no column is left gives a valid batch if and only if the filter had kept the rows from the front |
| `Scalars.ConstantAfterSecondRow` | src/execution/expressions/ScalarFunctions.h:85-105 | the failing input: of two rows the second was kept |
| `Operators.ExecuteScalar` | src/execution/OperatorsBase.cpp:91-96 | the functions are appended one after the other, each seeing the columns of those before, and each cell is what the query asks for on its row |
| `Operators.AddsToRow` | src/execution/expressions/ScalarFunctions.h:119-132 | a constant added to a 64-bit column: the row with the sum behind it, wherever the sum fits |
| `Operators.PickRows` | src/execution/OperatorsBase.cpp:104-133 | dropping or reordering columns picks the same positions from every logical row |
| `Operators.ClipRows` | src/execution/OperatorsBase.cpp:155-168 | LIMIT's cut leaves the first n logical rows, with or without a selection vector |
| `Batches.RowCells` | src/execution/expressions/AggExpHelper.h:9-23 | logical row i is physical row sel[i], or i without a selection |
| `Operators.ApplyRefinesRows` | src/execution/OperatorsBase.cpp:73-133 | every transform on a batch is its relational counterpart on the batch's rows |
| `Operators.ApplyToConcat` | src/execution/OperatorsBase.cpp:73-133 | transforms work batch by batch: on concatenated rows they give the concatenated results |
| `Builders.CopySelection` | src/execution/ExecutionHelper.h:123-162 | a builder receives the values at the chosen indices, or all |
| `Builders.BatchRowsStacked` | src/execution/OperatorsBase.cpp:381-385 | copying a batch's columns into builders appends exactly its logical rows |
| `Keys.HashKeys` | src/execution/ExecutionHelper.h:67-121 | each key is extended in place by the code of its row's cell |
| `Keys.CompositeKeys` | src/execution/OperatorsBase.cpp:225-229 | key i is the concatenated codes of logical row i's group-by cells |
| `Keys.CellCodePrefixFree` | src/execution/ExecutionHelper.h:67-121 | a cell's code followed by anything determines the cell and what follows |
| `Keys.KeysDecideEquality` | src/execution/ExecutionHelper.h:67-121 | composite keys are equal if and only if the rows agree on every group-by column |
| `Aggregates.UpdateRepresents` | src/execution/expressions/AggregationFunctions.h:169-182 | a state that represents rows represents one row more after an update |
| `Aggregates.CombineRepresents` | src/execution/expressions/AggregationFunctions.h:184-196 | combining two states represents both lists of rows: count, sum, least, greatest, distinct count |
| `Aggregates.ResultIsAggregate` | src/execution/expressions/AggregationFunctions.h:199-205 | the value written is the mathematical aggregate if and only if the accumulator can hold it |
| `Aggregates.SumLimitIsExact` | src/execution/expressions/AggregationExpressions.h:11-36 | all sums of n typed values fit the widened accumulator if and only if n is at most 2^16, 2^32 or 2^64 for INT16, INT32, INT64 |
| `Aggregates.SumWithinLimit` | src/execution/expressions/AggregationFunctions.h:60-65 | no sum within the limit leaves the accumulator's range |
| `Aggregates.AggregateOfBag` | src/execution/expressions/AggregationFunctions.h:150-206 | an aggregate depends only on the bag of rows |
| `Aggregates.AggregateUnique` | src/execution/expressions/AggregationFunctions.h:150-206 | rows have one aggregate value |
| `Aggregates.LeastOfNumbers` | src/execution/expressions/AggregationFunctions.h:60-84 | MIN of numbers is one of them and not above any |
| `Aggregates.GreatestOfNumbers` | src/execution/expressions/AggregationFunctions.h:60-84 | MAX of numbers is one of them and not below any |
| `Aggregates.ExtremesExactly` | src/execution/expressions/AggregationFunctions.h:60-84 | the same for any column, strings byte by byte |
| `Aggregates.SumBuilds` | src/execution/expressions/AggregationFunctions.h:60-84 | SUM of nothing is 0 and a row adds its number |
| `Aggregates.CountsExactly` | src/execution/expressions/AggregationFunctions.h:150-206 | COUNT is the number of rows, DISTINCT COUNT of different cells |
| `Aggregates.AggregateTypes` | src/execution/expressions/AggregationExpressions.h:11-36 | the column types of counts, extremes and widened sums |
| `Groupings.AssignGroups` | src/execution/OperatorsBase.cpp:231-248 | ids number distinct keys in order of first appearance, and the new groups' rows are recorded by physical index |
| `Groupings.GroupIsSelection` | src/execution/OperatorsBase.cpp:231-248 | each group is, up to order, the input rows with its key, and not empty |
| `Groupings.KeyHasGroup` | src/execution/OperatorsBase.cpp:231-248 | every input row's key has a group |
| `GroupBy.UpdateStates` | src/execution/expressions/AggregationFunctions.h:169-182 | each row updates the state of its group id, so states represent the spread groups |
| `GroupBy.Resize` | src/execution/expressions/AggregationFunctions.h:161-167 | new groups start with a state that represents no rows |
| `GroupBy.CombineStates` | src/execution/expressions/AggregationFunctions.h:184-196 | a local group's state joins the target group |
| `GroupBy.SinkBatch` | src/execution/OperatorsBase.cpp:212-262 | a batch's rows join a thread's groups; keys, builders and states stay aligned by group id |
| `GroupBy.MergeEntry` | src/execution/OperatorsBase.cpp:284-308 | one hash-map entry, whichever comes next, joins its rows to the global group of its key |
| `GroupBy.MergeThread` | src/execution/OperatorsBase.cpp:273-311 | a whole local table is merged, for every iteration order |
| `GroupBy.GroupBySink.Sink` | src/execution/OperatorsBase.cpp:212-262 | thread t's state takes the batch's rows and no other thread's state changes |
| `GroupBy.GroupBySink.Finalize` | src/execution/OperatorsBase.cpp:264-322 | the result holds each distinct key once, with key columns and aggregates of exactly the rows with that key, provided each group's sums fit their accumulators |
| `GroupBy.GroupRowMeaning` | src/execution/expressions/AggregationFunctions.h:199-205 | one group's row is right if and only if its sums fit |
| `GroupBy.GroupBySink.GetData` | src/execution/OperatorsBase.cpp:324-330 | the result goes to the first caller only |
| `GroupBy.SinkAll` | src/execution/OperatorsBase.cpp:212-322 | for every distribution of batches to threads the outcome is the sequential GROUP BY of all rows |
| `GlobalAggregation.UpdateState` | src/execution/expressions/AggregationFunctions.h:102-114 | one thread's state comes to represent the batch's rows too |
| `GlobalAggregation.WriteResult` | src/execution/expressions/AggregationFunctions.h:117-142 | folding the threads' states gives the aggregate over all threads' rows, if and only if the accumulator can hold it |
| `GlobalAggregation.AggregationSink.Sink` | src/execution/OperatorsBase.cpp:178-182 | only thread t's states change, and they take in the batch's rows |
| `GlobalAggregation.AggregationSink.Finalize` | src/execution/OperatorsBase.cpp:184-191 | one row, with every aggregate of the input in whatever order it came, if and only if the accumulators can hold them |
| `GlobalAggregation.SinkAll` | src/execution/OperatorsBase.cpp:178-191 | the same for every distribution of batches to threads |
| `Orderings.BeforeIsLexicographic` | src/execution/OperatorsBase.cpp:451-459 | the comparator is true exactly if some sort column decides and all earlier ones tie |
| `Orderings.NotBeforeExactly` | src/execution/OperatorsBase.cpp:358-369 | a row may stand before another exactly if on the first keys that differ the cells are in the order asked for, numbers by size and strings byte by byte |
| `Orderings.SortedExactly` | src/execution/OperatorsBase.cpp:451-465 | a list is sorted for the comparator exactly if all its rows stand so |
| `Orderings.NumbersInOrder` | src/execution/OperatorsBase.cpp:358-369 | numbers of a first key ascend, or descend |
| `Orderings.StringsInOrder` | src/execution/OperatorsBase.cpp:358-369 | strings of a first key ascend byte by byte, a proper prefix first |
| `Orderings.TiesInOrder` | src/execution/OperatorsBase.cpp:451-459 | rows that tie on the first key are in the order of the second |
| `Values.LessExactly` | src/execution/OperatorsBase.cpp:358-369 | < on the elements of a column is < on numbers, and on strings the first differing byte or the prefix |
| `Orderings.RowOrderIsWeak` | src/execution/OperatorsBase.cpp:451-459 | the comparator is a strict weak order |
| `Rankings.PartialSort` | src/execution/OperatorsBase.cpp:461-464 | a permutation whose first n are sorted and not above the rest |
| `Rankings.NthElement` | src/execution/OperatorsBase.cpp:500-572 | a permutation whose first n are not above the rest |
| `Rankings.TrimDominates` | src/execution/OperatorsBase.cpp:500-572 | after a trim every row ever discarded still has k kept rows not greater than it |
| `Rankings.KeptTopIsTop` | src/execution/OperatorsBase.cpp:394-490 | the top k of the kept rows are a top k of all rows |
| `OrderBy.OrderBySink.Sink` | src/execution/OperatorsBase.cpp:371-390 | thread t takes the rows and may trim; kept and discarded rows together are what it has seen, and other threads are untouched |
| `OrderBy.OrderBySink.TrimLocalBatch` | src/execution/OperatorsBase.cpp:500-572 | at most limit+offset rows stay, and the discarded ones remain dominated |
| `OrderBy.OrderBySink.Finalize` | src/execution/OperatorsBase.cpp:394-490 | the result is the window of some sorted permutation of all rows seen, in the order of the keys by numbers and bytes, and exactly the rows asked for unless limit + offset wraps; it has no columns if and only if no row was seen or limit + offset is 0 |
| `OrderBy.SinkAll` | src/execution/OperatorsBase.cpp:371-490 | the same for every split of batches over threads, the order of the rows and the column-less result included |
| `OrderBy.LegalUnlessWrapped` | src/execution/OperatorsBase.cpp:461-476 | every deliverable answer is P[offset .. min(limit+offset, N)] of a sorted permutation P, if and only if limit+offset does not wrap to matter |
| `OrderBy.DeliversLegal` | src/execution/OperatorsBase.cpp:461-476 | the direction a caller uses |
| `OrderBy.LegalExactly` | src/execution/OperatorsBase.cpp:451-490 | an answer is legal exactly if it is p[offset .. min(offset + limit, N)] of all input rows put into the order of the keys, told by numbers and bytes |
| `OrderBy.WindowExactly` | src/execution/OperatorsBase.cpp:461-476 | the window has that many rows, row i of it being row offset + i |
| `ColumnlessSorts.SinkColumnless` | src/execution/OperatorsBase.cpp:371-490 | over batches without columns the operator answers for each thread's last batch; it delivers as many rows as asked for if and only if no earlier batch has rows, or the limit or offset hides them |
| `ColumnlessSorts.LastIsAll` | src/execution/OperatorsBase.cpp:371-379 | the last batches hold all rows if and only if no batch before a thread's last one has any |
| `ColumnlessSorts.ForgetsTheFirst` | src/execution/OperatorsBase.cpp:371-379 | two batches of one row for one thread give one row |
| `Dates.CivilOfDaysOf` | src/types/Date.h:21-40 | days-to-civil inverts civil-to-days on every valid date, of any year |
| `Dates.DaysOfCivilOf` | src/types/Date.h:21-40 | civil-to-days inverts days-to-civil on every integer, and the date is valid |
| `Dates.NextDayIsNextNumber` | src/types/Date.h:21-27 | the successor of a date is the next integer |
| `Dates.FourDigitYearRange` | src/types/Date.h:30-40 | years 0 to 9999 are exactly the integers -719528 to 2932896 |
| `Dates.Format` | src/types/Date.h:30-53 | the digit-writing loop produces the four, two and two digits of the civil date |
| `Dates.PrintedDate` | src/types/Date.h:30-53 | the ten characters printed: digits of year, month and day of the calendar, with dashes |
| `Dates.ParseFormat` | src/types/Date.h:11-53 | parsing the printed date returns the day |
| `Dates.FormatParse` | src/types/Date.h:11-53 | printing a parsed date text returns the text |
| `Dates.EpochIsZero` | src/types/Date.h:11-28 | 1970-01-01 is day 0 |
| `Dates.MonthTruncation` | src/types/Date.h:73-75 | day 1 of the same month, idempotent, at most 30 days back |
| `Dates.MonthChanges` | src/types/Date.h:73-75 | consecutive days truncate alike exactly unless the second is a first of a month |
| `Dates.YearTruncationIsNextNewYear` | src/types/Date.h:76-81 | YEAR truncation gives 1 January of the following year, after the input |
| `Timestamps.TruncateIsFloor` | src/types/Timestamp.h:71-88 | DAY, HOUR, MINUTE: the greatest multiple of the unit not above the input, for negative seconds too |
| `Timestamps.TruncateNests` | src/types/Timestamp.h:71-88 | truncations nest, are idempotent and monotone |
| `Timestamps.ExtractMinuteIsPrinted` | src/types/Timestamp.h:63-69 | the minute extracted is the minute printed |
| `Timestamps.ParseFormat` | src/types/Timestamp.h:10-60 | parsing the printed timestamp returns the seconds |
| `Timestamps.FormatParse` | src/types/Timestamp.h:10-60 | printing a parsed timestamp text returns the text |
| `Timestamps.MonthTruncationExact` | src/types/Timestamp.h:89-93 | the value of MONTH truncation for all seconds: the start of the month, except before 1970 inside the last day of a month, where it is the start of the following month, after the instant |
| `Timestamps.MonthTruncationFails` | src/types/Timestamp.h:89-93 | second -1 truncates to the wrong month |
| `Timestamps.YearTruncationExact` | src/types/Timestamp.h:94-98 | the value of YEAR truncation for all seconds: the start of the following year, after the instant, and one year more before 1970 inside the last day of a year |
| `Timestamps.TruncatesSeconds` | src/types/Timestamp.h:71-100 | MINUTE, HOUR and DAY take off the remainder, SECOND changes nothing |
| `Timestamps.PrintedTime` | src/types/Timestamp.h:33-60 | the characters printed behind the date: digits of hours, minutes and seconds |
| `Int128Text.Format` | src/execution/ExecutionHelper.h:42-61 | the digit loop prints the decimal text, the sign alone for the least value |
| `Int128Text.Parse` | src/column/NumericColumn.h:60-78 | the digit loop yields the number the digits denote, wrapped to 128 bits, or an error at a non-digit |
| `Int128Text.ParseFormat` | src/column/NumericColumn.h:60-78 | parsing the printed form returns v if and only if v is not -2^127 |
| `Int128Text.NoStepOverflows` | src/column/NumericColumn.h:68-73 | no intermediate value wraps if the number fits |
| `Int128Text.TextDenotes` | src/execution/ExecutionHelper.h:42-61 | the printed text is a minus, if need be, and digits without a leading zero that denote the value |
| `Int128Text.NumberBuilds` | src/column/NumericColumn.h:68-73 | a digit more makes ten times the number and the digit |
| `Rle.Encode` | src/column/Codec.h:38-56 | the bytes of maximal runs that expand to the data and whose counts sum to its length |
| `Rle.Decode` | src/column/Codec.h:58-71 | decoding expands the runs and consumes the buffer exactly |
| `Rle.RoundTrip` | src/column/Codec.h:38-79 | decoding an encoding returns the data |
| `Rle.SampleRuns` | src/column/Codec.h:38-56 | two runs, byte by byte |
| `Bytes.DecodeEncode` | src/io/ColumnarWriter.cpp:114-138 | a fixed-width integer reads back |
| `Bytes.SignedRoundTrip` | src/io/ColumnarWriter.cpp:77-86 | two's complement values read back |
| `Bytes.FourBytes` | src/io/ColumnarWriter.cpp:114-138 | four bytes of a number, the lowest first |
| `ColumnCodes.WriteColumn` | src/io/ColumnarWriter.cpp:43-92 | the bytes of one chunk, value after value |
| `ColumnCodes.ReadStrings` | src/column/StringColumn.h:39-50 | the length-prefixed loop yields the strings, or stops where it would read past the buffer |
| `ColumnCodes.ReadFixed` | src/column/NumericColumn.h:137-144 | the fixed-width values, or an error if the size is no multiple of the width |
| `ColumnCodes.ColumnRoundTrip` | src/column/StringColumn.h:39-50 | a stored column of any type decodes to itself |
| `FileLayout.ChunkAt` | src/io/ColumnarWriter.cpp:43-98 | the bytes at a chunk's place are that chunk's, before the footer |
| `FileLayout.ChunksDisjoint` | src/io/ColumnarWriter.cpp:43-98 | chunk ranges follow each other without overlap |
| `FileLayout.FooterReadsBack` | src/io/ColumnarWriter.cpp:114-138 | parsing a finished file returns its column table and row count |
| `ColumnarFile.ColumnarWriter.WriteHeader` | src/io/ColumnarWriter.cpp:17-34 | magic and empty metadata, once only |
| `ColumnarFile.ColumnarWriter.WriteBatch` | src/io/ColumnarWriter.cpp:36-102 | the file grows by one chunk per column, whose places enter the metadata; errors change nothing |
| `ColumnarFile.ColumnarWriter.Finalize` | src/io/ColumnarWriter.cpp:104-138 | the file is exactly the encoding of header and batches |
| `ColumnarFile.ParseMetadata` | src/io/ColumnarReader.cpp:12-83 | the running-offset parser finds the table that the trailer points at, or reports what is wrong |
| `ColumnarFile.ReadColumnMeta` | src/io/ColumnarReader.cpp:53-82 | one column's name, type tag and chunk places, and where the next starts |
| `ColumnarFile.GetColumnData` | src/io/ColumnarReader.cpp:109-150 | the decoded chunk, or the error for a bad index, place or type |
| `ColumnarFile.FileRoundTrip` | src/io/ColumnarReader.cpp:12-150 | a finished file reads back as the names, types, row count, chunk table and every column of every batch |
| `ColumnarFile.SampleFile` | src/io/ColumnarWriter.cpp:17-138 | a file of one column and two numbers, byte by byte |
| `ColumnarFile.TagsAre` | src/types/ColumnType.h:7-19 | the number of each type in the file |
| `ColumnarFile.NumberBytes` | src/io/ColumnarWriter.cpp:74-86 | how many bytes a number takes in a column of each type |
| `ColumnarFile.StringBytes` | src/io/ColumnarWriter.cpp:50-72 | a string is its length in four bytes, the lowest first, and its bytes |
| `StringTables.VectorOfStrings.PushBack` | src/utils/VectorOfStrings.h:17-20 | the list grows by the string |
| `StringTables.VectorOfStrings.GetString` | src/utils/VectorOfStrings.h:22-26 | the string at an index |
| `StringTables.VectorOfStrings2D.EndAddString` | src/utils/VectorOfStrings.h:133-142 | the string being added becomes the next of the current row |
| `StringTables.VectorOfStrings2D.StartNewLine` | src/utils/VectorOfStrings.h:144-150 | the current row becomes the last finished one |
| `StringTables.VectorOfStrings2D.PopLastChar` | src/utils/VectorOfStrings.h:129-131 | takes one byte off the string being added and touches no finished string |
| `StringTables.VectorOfStrings2D.GetString2D` | src/utils/VectorOfStrings.h:168-174 | string j of row i, if rows have one width |
| `StringTables.CellAt` | src/utils/VectorOfStrings.h:168-174 | in a rectangular table string j of row i is string i * width + j of all |
| `CsvTokenizers.CsvTokenizer.RefillBuffer` | src/io/CsvTokenizer.cpp:14-27 | the next block replaces a used-up buffer; end of file is found exactly when nothing is left |
| `CsvTokenizers.CsvTokenizer.TakeQuoted` | src/io/CsvTokenizer.cpp:56-81 | the quote look-ahead, across a refill or not, equals one step of the character machine |
| `CsvTokenizers.CsvTokenizer.GetNextRow` | src/io/CsvTokenizer.cpp:29-114 | for every buffer size the row, the rest and the end-of-file flag are those of the one-character machine on the whole text |
| `CsvTokenizers.EndTrimmed` | src/io/CsvTokenizer.cpp:86-93 | trimming takes trailing blanks off the last string only |
| `CsvSyntax.TokenizesRow` | src/io/CsvTokenizer.cpp:29-114 | for every buffer size the tokenizer takes a row of plain, quoted, partly quoted and empty fields, with blanks around them, as those fields |
| `CsvSyntax.RowReads` | src/io/CsvTokenizer.cpp:29-114 | such a row is read field by field: plain text as it stands without carriage returns, quoted text also without blanks at its end |
| `CsvSyntax.LastRowReads` | src/io/CsvTokenizer.cpp:105-114 | so is a last row without a line feed, except for an empty field at its end |
| `CsvSyntax.TextReads` | src/io/CsvTokenizer.cpp:29-114 | a text of such lines is read line by line |
| `CsvSyntax.ReadAsWritten` | src/io/CsvTokenizer.cpp:29-114 | a field without carriage returns and blank ends keeps its text, plain or in quotes |
| `CsvSyntax.TakesPieces` | src/io/CsvTokenizer.cpp:56-101 | a quote behind plain text opens a quoted part of the same field, and plain text may follow its end |
| `CsvSyntax.PartlyQuoted` | src/io/CsvTokenizer.cpp:79-101 | a and a comma in quotes behind it are one field |
| `CsvSyntax.UnclosedQuote` | src/io/CsvTokenizer.cpp:56-114 | a quote that is never closed takes the rest of the text into its field |
| `CsvSyntax.OneTwo` | src/io/CsvTokenizer.cpp:29-114 | the text 1,2 and a line feed gives the fields 1 and 2 |
| `CsvReaders.CsvReader.ReadRow` | src/io/CsvReader.cpp:41-60 | rows of the text in order, false exactly after the last, an error exactly on a wrong width |
| `CsvReaders.CsvReader.ReadHeader` | src/io/CsvReader.cpp:10-39 | names and types of the first row, whose width the others must have |
| `CsvReaders.HeaderCellReadsBack` | src/io/CsvReader.cpp:19-38 | a TYPE:name cell gives back type and name, colons in the name included |
| `CsvReaders.HeaderTypesNamed` | src/io/CsvReader.cpp:28-36 | the eleven type names, letter by letter |
| `CsvReaders.OtherHeadersRefused` | src/io/CsvReader.cpp:19-38 | a cell is taken if and only if a type name stands before its first colon |
| `CsvRoundTrip.TableReadsBack` | src/io/CsvTokenizer.cpp:29-114 | a printed table reads back row by row, each field without CRs and trailing blanks |
| `CsvRoundTrip.TableRoundTrip` | src/io/CsvTokenizer.cpp:29-114 | it reads back unchanged if and only if every row has a field and no field has a CR or a blank end |
| `CsvChunks.ChunkSizes` | src/io/CsvToColumnar.cpp:17-58 | chunks have 1 to 8192 rows, all but the last exactly 8192 |
| `CsvChunks.ChunksHold` | src/io/CsvToColumnar.cpp:17-58 | the chunks are the rows in order, without the leftover if that is a whole number of full caches |
| `CsvChunks.NothingLost` | src/io/CsvToColumnar.cpp:38-40 | all rows are written if and only if none is left over or the leftover does not end with the row that fills a cache |
| `CsvChunks.OneLongFieldIsLost` | src/io/CsvToColumnar.cpp:38-40 | one row with a field of 2^20 bytes is not written |
| `CsvChunks.CacheGrows` | src/utils/VectorOfStrings.h:215-217 | a cached row counts its bytes and eight for each field; the cache is full from 2^20 on |
| `CsvToColumnar.FillCache` | src/io/CsvToColumnar.cpp:25-36 | the cache takes the next rows until it is full, the chunk is, or the text ends, and says which |
| `CsvToColumnar.AddBatch` | src/column/NumericColumn.h:159-167 | for any field parser, a builder takes the parsed fields of its column, or fails exactly if one does not parse; `FieldTexts.ParseField` is the engine's |
| `CsvToColumnar.Turn` | src/io/CsvToColumnar.cpp:24-59 | each turn keeps: all rows are the written chunks, the held rows and the unread ones, and what is still to be written completes the chunks |
| `CsvToColumnar.WriteToColumnar` | src/io/CsvToColumnar.cpp:11-62 | succeeds exactly when every row parses, and writes exactly the file of the rows' chunks |
| `CsvToColumnar.Convert` | src/io/CsvToColumnar.cpp:64-77 | succeeds exactly when header and rows parse, with the names and types of the header |
| `CsvArchive.ReadsBack` | src/io/CsvToColumnar.cpp:64-77 | a converted file reads back with the header's names and types and the chunks of the rows |
| `CsvArchive.StoredColumn` | src/io/CsvToColumnar.cpp:64-77 | a column's chunks, read back and joined, are the parsed fields of that column in the rows kept |
| `CsvArchive.PrintedTable` | src/io/CsvToColumnar.cpp:64-77 | a table printed under its header line is what the conversion takes in |
| `FieldTexts.FieldReadsBack` | src/column/NumericColumn.h:18-79 | the builder of a column of any modelled type reads a printed value back: integers of all widths, characters, strings, dates, times |
| `FieldTexts.PrintedSurvives` | src/execution/ExecutionHelper.h:22-61 | printed numbers, dates and times contain nothing that CSV reading drops |
| `FieldTexts.NumbersParse` | src/column/NumericColumn.h:18-56 | digits, with or without a minus, are read as the number they denote if the column can hold it, and refused if not |
| `FieldTexts.ParsedFits` | src/column/NumericColumn.h:18-56 | a field that parses gives a value its column can hold |
| `FieldTexts.ToTextDenotes` | src/execution/ExecutionHelper.h:22-41 | a printed number is a minus, if need be, and digits that denote it |
| `FieldTexts.CharsAndStrings` | src/column/NumericColumn.h:159-167 | a character is a signed byte, a field of another length is refused, and a string is its field |
| `CsvTables.ConvertedTable` | src/io/CsvToColumnar.cpp:64-77 | a converted file holds a table in order whose rows, chunk by chunk, are the parsed rows kept |
| `CsvTables.Archive` | src/io/CsvToColumnar.cpp:64-77 | converting a printed typed table succeeds with the engine's field parsers |
| `CsvTables.ArchivedTableScans` | src/execution/OperatorsBase.cpp:37-65 | what a query scans from that file are the chosen columns of the table's rows, in order: of all rows exactly if the conversion drops none |

## Left out

- Floating point (FLOAT, DOUBLE, LONGDOUBLE values and AVG): the column types keep tags and widths, but no values.
- The hash function and the regular-expression replacement. LIKE is a substring search in the filter trees; that its pattern loses its first and last character when the expression is built is left out.
- Real files, `pread`, streams, the schema file and console display: files are byte sequences, and a file that cannot be opened is outside the model.
- Weak memory ordering other than a stale done flag: all other atomics are sequentially consistent steps; condition variables are modelled by their predicates, so a waiting thread whose predicate holds may step.
- `CodecDictionary`, which has no decoder, and the size hints (`reserve`) everywhere.
- `column_sizes_`, `adding_string_` and `AddString` of VectorOfStrings2D: nothing modelled here reads them.
- Reads and writes past the end of a buffer, which the engine leaves undefined, appear as errors of the parsers.
- `std::from_chars` and `std::to_string` are taken by their definition, not loop by loop. A DATE or TIMESTAMP field with bytes above 127, which the engine reads as negative digits, is read as large ones here.
- The wording of errors, and default output names of expressions (a plan node carries its output name).
- What a query with DATE_TRUNC of a DATE column, or with a CASE branch from a column of another type, computes: such trees are not well-formed here, and only which columns are misread is settled.
- A month or year truncation of a timestamp whose day number does not fit 32 bits, which the engine narrows.
- PlanCollect.CollectPlan: asks for a table of at most 2^32 rows with typed cells, literals of their declared types and SUMs whose accumulators can take that many values of any size, because group ids and sort indices are 32-bit and sums wrap beyond them (the operators themselves only ask that the sums fit); MIN and MAX of floating-point columns are excluded, and so are a sort of a child without columns and a computed column over a filtered child of which no column is left.
- PlanMeaning.PlanIsMeant: takes each sink's answer as part of what an execution is; PlanCollect.CollectPlan derives it.
- PlanMeaning.BuiltIsMeant: does so too.
- GroupBy.GroupBySink.Finalize: requires at most 2^32 rows in all; beyond that the engine's 32-bit group ids wrap.
- OrderBy.OrderBySink.Finalize: requires at most 2^32 rows held, and of a sort without columns says only how many rows it delivers; ColumnlessSorts.SinkColumnless says when that is right.
- CsvToColumnar.WriteToColumnar: asks for rows of one width unless the reader checks widths; without a header the engine indexes a ragged table by its first row's width.
- StringTables.VectorOfStrings2D.GetString2D: requires rows of one width for the same reason.
- Timestamps.ParseFormat: years 0 to 9999, as for dates; the text form has four digits.
