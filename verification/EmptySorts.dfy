/**
 The one fault of compiled plans: an ORDER BY that is left with no row hands on a batch without columns
 (src/execution/OperatorsBase.cpp, OrderBySinkSourceOperator::Finalize), and an operator right above it that reads a
 column indexes a missing one.  Told first on runs, then on the plan tree and its tables alone.
 */
module EmptySorts {
  import opened Values
  import opened Wrappers
  import opened Batches
  import opened Builders
  import opened Names
  import opened Operators
  import opened Orderings
  import opened Execution
  import opened PipelineRows
  import opened Plans
  import opened PlanShapes
  import opened PlanForms
  import opened NamedRows
  import opened PlanRuns
  import opened PlanMeaning
  import Aggregates
  import Filters
  import Groupings
  import OrderBys = OrderBy
  import P = Pipelines
  import Rankings
  import Scalars
  import Sequences

  // ----- runs -----

  /** The first transform works on a batch without columns. */
  predicate BareFits(ts: seq<Transform>) {
    ts == [] ||
    match ts[0]
    case Filter(f) => Filters.Fits(f, 0)
    case Scalar(fs) => ScalarsFit(fs, 0)
    case Drop(stay) => stay == []
    case Reorder(ix) => ix == []
    case Limit(_) => true
  }

  lemma BareFitsIs(ts: seq<Transform>)
    ensures BareFits(ts) <==> ts == [] || ts[0].Limit? || Fits(ts[0], Shape(0, true))
  {
    if ts != [] && (ts[0].Drop? || ts[0].Reorder?) {
      var ix := if ts[0].Drop? then ts[0].stay else ts[0].indices;
      assert ix != [] ==> ix[0] >= 0;
    }
  }

  /** The run's sink is a sort that got no row, or whose limit and offset together ask for none. */
  ghost predicate LeftBare(sink: Sink, run: Run) {
    var sunk := P.SunkBatches(run.state.sunk);
    sink.SortInto? && AllValid(sunk) && OrderBys.NothingLeft(AllRows(sunk), sink.limit, sink.offset)
  }

  /** The pipeline starts from a sort that is left with no row, and its first transform needs a column. */
  ghost predicate Starved(p: Pipe, pipes: seq<Pipe>, runs: seq<Run>) {
    && p.source.FromBreaker? && p.source.id < |pipes| && p.source.id < |runs|
    && LeftBare(pipes[p.source.id].sink, runs[p.source.id]) && !BareFits(p.transforms)
  }

  /** The same, seen on the batch that the sort made. */
  predicate FedBare(p: Pipe, runs: seq<Run>) {
    p.source.FromBreaker? && p.source.id < |runs| && runs[p.source.id].result == BARE && !BareFits(p.transforms)
  }

  lemma TypedNotBare(b: RecordBatch, types: seq<ColumnType>)
    requires TypesOf(b.columns) == types != []
    ensures b != BARE
  {
    assert |b.columns| == |TypesOf(b.columns)|;
  }

  /** Only a sort makes a batch without columns, and exactly when it is left with no row. */
  lemma SinkBare(sink: Sink, rows: seq<Row>, result: RecordBatch, types: seq<ColumnType>)
    requires SinkGives(sink, rows, result) && SinkOk(sink, types) && !sink.Collect?
    ensures result == BARE <==> sink.SortInto? && OrderBys.NothingLeft(rows, sink.limit, sink.offset)
  {
    if sink.GroupInto? {
      assert (sink.types + Aggregates.ResultTypes(sink.functions))[0] == sink.types[0];
      TypedNotBare(result, sink.types + Aggregates.ResultTypes(sink.functions));
    }
  }

  /** What a pipeline starts from has no columns exactly if the sort below it is left with no row. */
  lemma FedBareExactly(pipes: seq<Pipe>, runs: seq<Run>, j: nat, threads: nat)
    requires PipesOk(pipes) && threads > 0 && j < |pipes| && RunsOk(pipes, runs, j, threads)
    ensures FedBare(pipes[j], runs[..j]) <==> Starved(pipes[j], pipes, runs[..j])
  {
    assert PipeOk(pipes, j);
    if pipes[j].source.FromBreaker? {
      var id := pipes[j].source.id;
      assert pipes[..j][id] == pipes[id] && runs[..j][id] == runs[id];
      ResultsShaped(pipes, runs, id, threads);
      assert RunOk(pipes, runs, id, threads) && PipeOk(pipes, id);
      var r := RunOutcome(pipes, runs, id, threads);
      var types := ChainTypes(Body(pipes[id].transforms), SourceTypes(pipes[id].source, pipes[..id]));
      SinkBare(pipes[id].sink, AllRows(P.SunkBatches(runs[id].state.sunk)), runs[id].result, types);
    }
  }

  /** Later runs do not matter. */
  lemma StarvedEarlier(pipes: seq<Pipe>, runs: seq<Run>, j: nat)
    requires PipesOk(pipes) && j < |pipes| && j <= |runs|
    ensures Starved(pipes[j], pipes, runs[..j]) <==> Starved(pipes[j], pipes, runs)
  {
    assert PipeOk(pipes, j);
  }

  // ----- plan trees -----

  /** The node's own operator, first in its pipeline, looks for a column where there may be none. */
  predicate NeedsColumn(plan: Plan, required: Option<seq<Name>>, done: seq<Pipe>) {
    var b := Compile(plan, required, done);
    b.Ok? && !BareFits(b.value.transforms)
  }

  /** The sort may be left with no row. */
  ghost predicate CanBeBare(sort: Plan)
    requires sort.OrderBy?
  {
    OrderBys.TotalLimit(sort.limit, sort.offset) == Some(0) || Means(sort.child, [])
  }

  /** The sort is left with no row, whatever its child delivers. */
  ghost predicate MustBeBare(sort: Plan)
    requires sort.OrderBy?
  {
    OrderBys.TotalLimit(sort.limit, sort.offset) == Some(0) || forall r: seq<Named> :: Means(sort.child, r) ==> r == []
  }

  /** Some node that reads a column stands right above a sort that may be left with no row. */
  ghost predicate CanStarve(plan: Plan, required: Option<seq<Name>>, done: seq<Pipe>) {
    !plan.Scan? &&
    (CanStarve(plan.child, ChildNeeds(plan, required), done)
     || (plan.child.OrderBy? && NeedsColumn(plan, required, done) && CanBeBare(plan.child)))
  }

  /** Some node that reads a column stands right above a sort that is always left with no row. */
  ghost predicate MustStarve(plan: Plan, required: Option<seq<Name>>, done: seq<Pipe>) {
    !plan.Scan? &&
    (MustStarve(plan.child, ChildNeeds(plan, required), done)
     || (plan.child.OrderBy? && NeedsColumn(plan, required, done) && MustBeBare(plan.child)))
  }

  lemma {:induction false} FiltersRead(e: FilterExpr, schema: seq<Field>)
    requires CompileFilter(e, schema).Ok?
    ensures !Filters.Fits(CompileFilter(e, schema).value, 0)
  {
    if !e.Cmp? {
      FiltersRead(e.left, schema);
    }
  }

  lemma {:induction false} ConstantsReadNothing(es: seq<ScalarExpr>, schema: seq<Field>)
    requires CompileScalars(es, schema).Ok?
    ensures forall k :: 0 <= k < |es| && es[k].Literal? ==> CompileScalars(es, schema).value.0[k].Constant?
    ensures es != [] && !es[0].Literal? ==> !Scalars.Fits(CompileScalars(es, schema).value.0[0], 0)
    decreases |es|
  {
    if es != [] {
      var n := |es| - 1;
      ConstantsReadNothing(es[..n], schema);
      if n == 0 && es[0].CaseWhen? {
        FiltersRead(es[0].cond, schema + CompileScalars(es[..0], schema).value.1);
      }
    }
  }

  /** The operator of a node right above a sort, told by what the node says. */
  lemma OperatorReads(plan: Plan, b: Built)
    requires !plan.Scan? && b.transforms == [] && CompileNode(plan, b).Ok?
    ensures var ts := CompileNode(plan, b).value.transforms;
            && (plan.Filter? ==> !BareFits(ts)) && (plan.Limit? || plan.OrderBy? || plan.Aggregate? ==> BareFits(ts))
            && (plan.Reorder? ==> (BareFits(ts) <==> plan.names == []))
            && (plan.Drop? ==> (BareFits(ts) <==> CompileNode(plan, b).value.schema == []))
  {
    match plan
    case Filter(_, cond) => FiltersRead(cond, b.schema);
    case _ =>
  }

  lemma FunctionsRead(plan: Plan, b: Built)
    requires plan.Project? && b.transforms == [] && CompileNode(plan, b).Ok?
    ensures (forall k :: 0 <= k < |plan.scalars| ==> plan.scalars[k].Literal?) ==> BareFits(CompileNode(plan, b).value.transforms)
    ensures plan.scalars != [] && !plan.scalars[0].Literal? ==> !BareFits(CompileNode(plan, b).value.transforms)
  {
    ConstantsReadNothing(plan.scalars, b.schema);
  }

  lemma SchemaShown(plan: Plan, required: Option<seq<Name>>, done: seq<Pipe>)
    requires PipesOk(done) && WellFormed(plan, required)
    ensures Compile(plan, required, done).Ok?
    ensures Compile(plan, required, done).value.schema == [] <==> Shown(plan, required) == {}
  {
    CompiledOk(plan, required, done);
    ShowsNames(Compile(plan, required, done).value.schema, Shown(plan, required));
  }

  /** Which nodes right above a sort read a column of their first batch. */
  lemma NeedsColumnExactly(plan: Plan, required: Option<seq<Name>>, done: seq<Pipe>)
    requires PipesOk(done) && WellFormed(plan, required) && !plan.Scan? && plan.child.OrderBy?
    ensures plan.Filter? ==> NeedsColumn(plan, required, done)
    ensures plan.Reorder? ==> (NeedsColumn(plan, required, done) <==> plan.names != [])
    ensures plan.Drop? ==> (NeedsColumn(plan, required, done) <==> Shown(plan, required) != {})
    ensures plan.Project? && (forall k :: 0 <= k < |plan.scalars| ==> plan.scalars[k].Literal?) ==> !NeedsColumn(plan, required, done)
    ensures plan.Project? && plan.scalars != [] && !plan.scalars[0].Literal? ==> NeedsColumn(plan, required, done)
    ensures plan.Limit? || plan.OrderBy? || plan.Aggregate? ==> !NeedsColumn(plan, required, done)
  {
    var b := ChildFacts(plan, required, done);
    NeedsOfNode(plan, required, done, b);
    if plan.Project? {
      FunctionsRead(plan, b);
    } else {
      if plan.Drop? {
        SchemaShown(plan, required, done);
      }
      OperatorReads(plan, b);
    }
  }

  lemma NeedsOfNode(plan: Plan, required: Option<seq<Name>>, done: seq<Pipe>, b: Built)
    requires !plan.Scan? && plan.child.OrderBy? && Compile(plan.child, ChildNeeds(plan, required), done) == Ok(b)
    ensures b.transforms == []
    ensures NeedsColumn(plan, required, done) <==> CompileNode(plan, b).Ok? && !BareFits(CompileNode(plan, b).value.transforms)
  {
  }

  /** A filter right above a sort that is always left with no row. */
  lemma FilterStarves(plan: Plan, required: Option<seq<Name>>, done: seq<Pipe>)
    requires PipesOk(done) && WellFormed(plan, required) && plan.Filter? && plan.child.OrderBy? && MustBeBare(plan.child)
    ensures MustStarve(plan, required, done)
  {
    NeedsColumnExactly(plan, required, done);
  }

  // ----- from runs to trees -----

  /** A pipeline without transforms above a breaker belongs to that breaker. */
  lemma RightAbove(plan: Plan, required: Option<seq<Name>>, done: seq<Pipe>, b: Built)
    requires Compile(plan, required, done) == Ok(b) && b.transforms == [] && (b.source.FromBreaker? || plan.OrderBy?)
    ensures (plan.OrderBy? || plan.Aggregate?) && |b.done| > 0 && b.source.id == |b.done| - 1
    ensures b.done[|b.done| - 1].sink.SortInto? <==> plan.OrderBy?
    ensures b.source == FromBreaker(|b.done| - 1)
    ensures plan.OrderBy? ==> b.done[|b.done| - 1].sink.limit == plan.limit && b.done[|b.done| - 1].sink.offset == plan.offset
  {
  }

  /** The rows that reach a sort are, by name, what its child means. */
  lemma SortInput(sort: Plan, required: Option<seq<Name>>, done: seq<Pipe>, b: Built, pipes: seq<Pipe>, runs: seq<Run>,
                  threads: nat)
    returns (full: seq<Named>)
    requires sort.OrderBy? && PipesOk(done) && WellFormed(sort, required) && Compile(sort, required, done) == Ok(b) && threads > 0
    requires PipesOk(pipes) && b.done <= pipes && RunsOk(pipes, runs, |b.done|, threads)
    ensures |b.done| > 0 && Means(sort.child, full)
    ensures var sunk := P.SunkBatches(runs[|b.done| - 1].state.sunk); AllValid(sunk) && |AllRows(sunk)| == |full|
  {
    var needs := ChildNeeds(sort, required);
    var b0 := ChildFacts(sort, required, done);
    BreakerOutcome(sort, b0, runs, []);
    var r := ChildOutcome(b0, Env(sort.child), b.done[|b0.done|].sink, pipes, runs, threads);
    FewerRuns(pipes, runs, |b0.done|, threads);
    full := BuiltIsMeant(sort.child, needs, done, b0, pipes, runs, threads, r);
  }

  /** A run's sort is bare if it must be, and only if it can be. */
  lemma SortLeftBare(sort: Plan, required: Option<seq<Name>>, done: seq<Pipe>, b: Built, pipes: seq<Pipe>, runs: seq<Run>,
                     threads: nat)
    requires sort.OrderBy? && PipesOk(done) && WellFormed(sort, required) && Compile(sort, required, done) == Ok(b) && threads > 0
    requires PipesOk(pipes) && b.done <= pipes && RunsOk(pipes, runs, |b.done|, threads)
    ensures |b.done| > 0
    ensures MustBeBare(sort) ==> LeftBare(pipes[|b.done| - 1].sink, runs[|b.done| - 1])
    ensures LeftBare(pipes[|b.done| - 1].sink, runs[|b.done| - 1]) ==> CanBeBare(sort)
  {
    var full := SortInput(sort, required, done, b, pipes, runs, threads);
    RightAbove(sort, required, done, b);
  }

  /** Pipeline j of the child is pipeline j of the node, up to transforms that the node adds behind. */
  ghost predicate Extends(b0: Built, b: Built, j: nat) {
    && b0.done <= b.done && j < |AllPipes(b0)| && j < |AllPipes(b)|
    && AllPipes(b)[j].source == AllPipes(b0)[j].source && AllPipes(b0)[j].transforms <= AllPipes(b)[j].transforms
  }

  /** The pipelines of a node's child are among those of the node. */
  lemma ChildPipes(plan: Plan, b0: Built, b: Built, j: nat)
    requires !plan.Scan? && CompileNode(plan, b0) == Ok(b)
    ensures b0.done <= b.done && (j <= |b0.done| ==> Extends(b0, b, j))
  {
  }

  /** What a node has beyond its child's pipelines: transforms behind the last of them, or a pipeline without any. */
  lemma OwnPipe(plan: Plan, b0: Built, b: Built, j: nat)
    requires !plan.Scan? && CompileNode(plan, b0) == Ok(b) && |b0.done| <= j < |AllPipes(b)|
    ensures if j == |b.done| then AllPipes(b)[j] == Pipe(b.source, b.transforms, Collect) else AllPipes(b)[j].transforms == b0.transforms
    ensures if b.transforms == [] then |b.done| == |b0.done| + 1 else b.done == b0.done && b.source == b0.source
  {
  }

  lemma BareFront(front: seq<Transform>, ts: seq<Transform>)
    requires front <= ts && front != []
    ensures BareFits(front) <==> BareFits(ts)
  {
  }

  /** Transforms behind the first change nothing. */
  lemma StarvedSame(b0: Built, b: Built, pipes: seq<Pipe>, runs: seq<Run>, j: nat)
    requires Extends(b0, b, j)
    ensures Starved(AllPipes(b0)[j], pipes, runs) ==> Starved(AllPipes(b)[j], pipes, runs)
    ensures AllPipes(b0)[j].transforms != [] && Starved(AllPipes(b)[j], pipes, runs) ==> Starved(AllPipes(b0)[j], pipes, runs)
  {
    if AllPipes(b0)[j].transforms != [] {
      BareFront(AllPipes(b0)[j].transforms, AllPipes(b)[j].transforms);
    }
  }

  /** A starved pipeline points to a node of the tree right above a sort that may be left with no row. */
  lemma {:induction false} StarvedBelow(plan: Plan, required: Option<seq<Name>>, done: seq<Pipe>, b: Built, pipes: seq<Pipe>,
                                        runs: seq<Run>, j: nat, threads: nat)
    requires PipesOk(done) && WellFormed(plan, required) && Compile(plan, required, done) == Ok(b) && threads > 0
    requires PipesOk(pipes) && b.done <= pipes && RunsOk(pipes, runs, j, threads)
    requires |done| <= j < |AllPipes(b)| && Starved(AllPipes(b)[j], pipes, runs)
    ensures CanStarve(plan, required, done)
    decreases plan
  {
    if !plan.Scan? {
      var b0 := ChildFacts(plan, required, done);
      ChildPipes(plan, b0, b, j);
      if j < |AllPipes(b0)| && AllPipes(b0)[j].transforms != [] {
        StarvedSame(b0, b, pipes, runs, j);
        StarvedBelow(plan.child, ChildNeeds(plan, required), done, b0, pipes, runs, j, threads);
      } else {
        NewlyStarved(plan, b0, b, pipes, runs, j);
        StarvedHere(plan, required, done, b0, b, pipes, runs, threads);
      }
    }
  }

  /** A starved pipeline that the child does not have is the node's own, above a child without transforms. */
  lemma NewlyStarved(plan: Plan, b0: Built, b: Built, pipes: seq<Pipe>, runs: seq<Run>, j: nat)
    requires !plan.Scan? && CompileNode(plan, b0) == Ok(b) && j < |AllPipes(b)| && Starved(AllPipes(b)[j], pipes, runs)
    requires j < |AllPipes(b0)| ==> AllPipes(b0)[j].transforms == []
    ensures j == |b.done| == |b0.done| && b.done == b0.done && b.source == b0.source && b0.transforms == []
    ensures Starved(Pipe(b.source, b.transforms, Collect), pipes, runs)
  {
    if j < |b0.done| {
      ChildPipes(plan, b0, b, j);
      SameBefore(b0, b, j);
    } else {
      OwnPipe(plan, b0, b, j);
    }
  }

  lemma SameBefore(b0: Built, b: Built, j: nat)
    requires b0.done <= b.done && j < |b0.done|
    ensures AllPipes(b)[j] == AllPipes(b0)[j]
  {
  }

  lemma StarvedHere(plan: Plan, required: Option<seq<Name>>, done: seq<Pipe>, b0: Built, b: Built, pipes: seq<Pipe>,
                    runs: seq<Run>, threads: nat)
    requires PipesOk(done) && WellFormed(plan, required) && !plan.Scan? && CompileNode(plan, b0) == Ok(b) && threads > 0
    requires Compile(plan.child, ChildNeeds(plan, required), done) == Ok(b0)
    requires PipesOk(pipes) && b.done <= pipes && RunsOk(pipes, runs, |b.done|, threads)
    requires b.done == b0.done && b.source == b0.source && b0.transforms == []
    requires Starved(Pipe(b.source, b.transforms, Collect), pipes, runs)
    ensures plan.child.OrderBy? && NeedsColumn(plan, required, done) && CanBeBare(plan.child)
  {
    RightAbove(plan.child, ChildNeeds(plan, required), done, b0);
    StarvedBySort(b0, b, pipes, runs);
    NeedsOfNode(plan, required, done, b0);
    SortLeftBare(plan.child, ChildNeeds(plan, required), done, b0, pipes, runs, threads);
  }

  lemma StarvedBySort(b0: Built, b: Built, pipes: seq<Pipe>, runs: seq<Run>)
    requires |b0.done| > 0 && b0.done <= pipes && b.source == FromBreaker(|b0.done| - 1)
    requires Starved(Pipe(b.source, b.transforms, Collect), pipes, runs)
    ensures b0.done[|b0.done| - 1].sink.SortInto? && !BareFits(b.transforms) && |b0.done| <= |runs|
    ensures LeftBare(pipes[|b0.done| - 1].sink, runs[|b0.done| - 1])
  {
  }

  /** If the tree must starve, one of its pipelines is starved in every run. */
  lemma {:induction false} StarvedAbove(plan: Plan, required: Option<seq<Name>>, done: seq<Pipe>, b: Built, pipes: seq<Pipe>,
                                        runs: seq<Run>, threads: nat)
    returns (j: nat)
    requires PipesOk(done) && WellFormed(plan, required) && Compile(plan, required, done) == Ok(b) && threads > 0
    requires PipesOk(pipes) && b.done <= pipes && RunsOk(pipes, runs, |b.done|, threads) && MustStarve(plan, required, done)
    ensures j < |AllPipes(b)| && Starved(AllPipes(b)[j], pipes, runs)
    decreases plan
  {
    var b0 := ChildFacts(plan, required, done);
    if MustStarve(plan.child, ChildNeeds(plan, required), done) {
      ChildPipes(plan, b0, b, 0);
      FirstRuns(pipes, runs, |b0.done|, |b.done|, threads);
      j := StarvedAbove(plan.child, ChildNeeds(plan, required), done, b0, pipes, runs, threads);
      ChildPipes(plan, b0, b, j);
      StarvedSame(b0, b, pipes, runs, j);
    } else {
      j := |b.done|;
      AlwaysStarved(plan, required, done, b0, b, pipes, runs, threads);
    }
  }

  lemma AlwaysStarved(plan: Plan, required: Option<seq<Name>>, done: seq<Pipe>, b0: Built, b: Built, pipes: seq<Pipe>,
                      runs: seq<Run>, threads: nat)
    requires PipesOk(done) && WellFormed(plan, required) && !plan.Scan? && CompileNode(plan, b0) == Ok(b) && threads > 0
    requires Compile(plan.child, ChildNeeds(plan, required), done) == Ok(b0)
    requires PipesOk(pipes) && b.done <= pipes && RunsOk(pipes, runs, |b.done|, threads)
    requires plan.child.OrderBy? && NeedsColumn(plan, required, done) && MustBeBare(plan.child)
    ensures Starved(AllPipes(b)[|b.done|], pipes, runs)
  {
    NeedsOfNode(plan, required, done, b0);
    RightAbove(plan.child, ChildNeeds(plan, required), done, b0);
    NeedyIsTransform(plan, b0, b);
    SortLeftBare(plan.child, ChildNeeds(plan, required), done, b0, pipes, runs, threads);
    StarvedAtEnd(b, pipes, runs);
  }

  /** A node that reads a column of the sort below it is in the pipeline that starts from that sort. */
  lemma NeedyIsTransform(plan: Plan, b0: Built, b: Built)
    requires !plan.Scan? && CompileNode(plan, b0) == Ok(b) && !BareFits(b.transforms)
    ensures b.done == b0.done && b.source == b0.source
  {
  }

  lemma StarvedAtEnd(b: Built, pipes: seq<Pipe>, runs: seq<Run>)
    requires |b.done| > 0 && |b.done| <= |pipes| && |b.done| <= |runs| && b.source == FromBreaker(|b.done| - 1)
    requires LeftBare(pipes[|b.done| - 1].sink, runs[|b.done| - 1]) && !BareFits(b.transforms)
    ensures Starved(AllPipes(b)[|b.done|], pipes, runs)
  {
  }

  lemma FirstRuns(pipes: seq<Pipe>, runs: seq<Run>, m: nat, n: nat, threads: nat)
    requires m <= n && RunsOk(pipes, runs, n, threads)
    ensures RunsOk(pipes, runs, m, threads)
  {
  }

  // ----- trees that settle how many rows they deliver -----

  /** Nothing but filters, computed, dropped or moved columns, and sorts that keep every row. */
  predicate KeepsBag(plan: Plan) {
    match plan
    case Scan(_, _) => true
    case Filter(child, _) => KeepsBag(child)
    case Project(child, _) => KeepsBag(child)
    case Drop(child, _) => KeepsBag(child)
    case Reorder(child, _) => KeepsBag(child)
    case OrderBy(child, _, limit, offset) => KeepsBag(child) && limit.None? && (offset == None || offset == Some(0))
    case Limit(_, _) => false
    case Aggregate(_, _, _) => false
  }

  /** No filter or GROUP BY stands above a choice of rows: every meaning has as many rows as every other. */
  predicate Settled(plan: Plan) {
    match plan
    case Scan(_, _) => true
    case Filter(child, _) => KeepsBag(child)
    case Aggregate(child, groupBy, _) => groupBy == [] || KeepsBag(child)
    case _ => Settled(plan.child)
  }

  /** How many rows reach each sort is settled. */
  predicate SortsSettled(plan: Plan) {
    plan.Scan? || (SortsSettled(plan.child) && (plan.OrderBy? ==> Settled(plan.child)))
  }

  lemma {:induction false} KeptCount(e: FilterExpr, rows: seq<Named>, x: Named)
    ensures multiset(KeepNamed(e, rows))[x] == if HoldsNamed(e, x) then multiset(rows)[x] else 0
    decreases |rows|
  {
    if rows != [] {
      KeptCount(e, rows[1..], x);
      assert rows == [rows[0]] + rows[1..];
    }
  }

  lemma KeptBag(e: FilterExpr, a: seq<Named>, b: seq<Named>)
    requires multiset(a) == multiset(b)
    ensures multiset(KeepNamed(e, a)) == multiset(KeepNamed(e, b))
  {
    forall x: Named ensures multiset(KeepNamed(e, a))[x] == multiset(KeepNamed(e, b))[x] {
      KeptCount(e, a, x);
      KeptCount(e, b, x);
    }
  }

  lemma MappedBag<A, B>(f: A -> B, xs: seq<A>, ys: seq<A>)
    requires multiset(xs) == multiset(ys)
    ensures multiset(Groupings.Mapped(f, xs)) == multiset(Groupings.Mapped(f, ys))
  {
    var qs, at := Sequences.RearrangeWith(xs, Groupings.Mapped(f, xs), ys);
    assert qs == Groupings.Mapped(f, ys);
  }

  /** Two meanings of such a tree differ in the order of rows only. */
  lemma {:induction false} SameBag(plan: Plan, a: seq<Named>, b: seq<Named>)
    requires KeepsBag(plan) && Means(plan, a) && Means(plan, b)
    ensures multiset(a) == multiset(b)
    decreases plan
  {
    match plan
    case Scan(_, _) =>
    case Filter(child, cond) =>
      var a0 := Filtered(plan, a);
      var b0 := Filtered(plan, b);
      SameBag(child, a0, b0);
      KeptBag(cond, a0, b0);
    case OrderBy(child, keys, limit, offset) =>
      var a0 := OrderedAll(plan, a);
      var b0 := OrderedAll(plan, b);
      SameBag(child, a0, b0);
    case Limit(_, _) =>
    case Aggregate(_, _, _) =>
    case _ =>
      var f, a0 := EachRow(plan, a);
      var g, b0 := EachRow(plan, b);
      SameBag(plan.child, a0, b0);
      MappedBag(f, a0, b0);
  }

  lemma Filtered(plan: Plan, a: seq<Named>) returns (a0: seq<Named>)
    requires plan.Filter? && Means(plan, a)
    ensures Means(plan.child, a0) && a == KeepNamed(plan.cond, a0)
  {
    a0 :| Means(plan.child, a0) && a == KeepNamed(plan.cond, a0);
  }

  lemma Ordered(plan: Plan, a: seq<Named>) returns (a0: seq<Named>, p: seq<Named>)
    requires plan.OrderBy? && Means(plan, a)
    ensures Means(plan.child, a0) && multiset(p) == multiset(a0) && |p| == |a0| && a == OrderBys.Window(p, plan.limit, plan.offset)
  {
    a0, p :| Means(plan.child, a0) && Rankings.Arranges(NamedOrder(plan.keys), p, a0) && a == OrderBys.Window(p, plan.limit, plan.offset);
    Sequences.SameBagSameLength(p, a0);
  }

  lemma OrderedAll(plan: Plan, a: seq<Named>) returns (a0: seq<Named>)
    requires plan.OrderBy? && KeepsBag(plan) && Means(plan, a)
    ensures Means(plan.child, a0) && multiset(a) == multiset(a0)
  {
    var p;
    a0, p := Ordered(plan, a);
    assert OrderBys.Window(p, plan.limit, plan.offset) == p;
  }

  lemma Limited(plan: Plan, a: seq<Named>) returns (a0: seq<Named>)
    requires plan.Limit? && Means(plan, a)
    ensures Means(plan.child, a0) && |a| == if |a0| <= plan.rows then |a0| else plan.rows
  {
    a0 :| Means(plan.child, a0) && a == Take(a0, Some(plan.rows));
  }

  /** How many rows a window leaves depends on how many there are. */
  lemma WindowCount<T>(p: seq<T>, q: seq<T>, limit: Option<nat>, offset: Option<nat>)
    requires |p| == |q|
    ensures |OrderBys.Window(p, limit, offset)| == |OrderBys.Window(q, limit, offset)|
  {
  }

  /** What a projection, drop or reordering makes of one row. */
  function RowFunction(plan: Plan): Named -> Named {
    match plan
    case Project(child, es) => r => ExtendNamed(es, Env(child), r)
    case Drop(_, names) => r => DropNamed(names, r)
    case Reorder(_, names) => r => OnlyNamed(names, r)
    case _ => r => r
  }

  lemma EachRow(plan: Plan, a: seq<Named>) returns (f: Named -> Named, a0: seq<Named>)
    requires (plan.Project? || plan.Drop? || plan.Reorder?) && Means(plan, a)
    ensures f == RowFunction(plan) && Means(plan.child, a0) && a == Groupings.Mapped(f, a0)
  {
    f := RowFunction(plan);
    match plan
    case Project(child, es) =>
      a0 :| Means(child, a0) && a == Groupings.Mapped(r => ExtendNamed(es, Env(child), r), a0);
    case Drop(child, names) =>
      a0 :| Means(child, a0) && a == Groupings.Mapped(r => DropNamed(names, r), a0);
    case Reorder(child, names) =>
      a0 :| Means(child, a0) && a == Groupings.Mapped(r => OnlyNamed(names, r), a0);
  }

  lemma GroupsNotMore<K>(key: Named -> K, ks: seq<K>, a: seq<Named>, ls: seq<K>, b: seq<Named>)
    requires Groupings.Distinct(ks) && Groupings.KeysCover(key, ks, a) && Groupings.KeysCover(key, ls, b)
    requires multiset(a) == multiset(b)
    ensures |ks| <= |ls|
  {
    forall g | 0 <= g < |ks| ensures ks[g] in ls {
      var i :| 0 <= i < |a| && Groupings.Mapped(key, a)[i] == ks[g];
      var j := Sequences.Locate(a, b, a[i]);
    }
    Groupings.DistinctAtMost(ks, ls);
  }

  lemma Grouped(plan: Plan, a: seq<Named>) returns (a0: seq<Named>, ks: seq<seq<Value>>)
    requires plan.Aggregate? && plan.groupBy != [] && Means(plan, a)
    ensures Means(plan.child, a0) && |ks| == |a| && Groupings.Distinct(ks)
    ensures Groupings.KeysCover(NamedKey(plan.groupBy), ks, a0)
  {
    a0 :| Means(plan.child, a0) && IsGroupedNamed(plan.groupBy, plan.exprs, Env(plan.child), a, a0);
    ks :|
      && |ks| == |a| && Groupings.Distinct(ks) && Groupings.KeysCover(NamedKey(plan.groupBy), ks, a0)
      && forall g :: 0 <= g < |ks| ==>
           GroupNamed(plan.groupBy, plan.exprs, Env(plan.child), a[g], ks[g], Groupings.WithKey(NamedKey(plan.groupBy), ks[g], a0));
  }

  lemma SameGroups(plan: Plan, a: seq<Named>, b: seq<Named>)
    requires plan.Aggregate? && plan.groupBy != [] && KeepsBag(plan.child) && Means(plan, a) && Means(plan, b)
    ensures |a| == |b|
  {
    var a0, ks := Grouped(plan, a);
    var b0, ls := Grouped(plan, b);
    SameBag(plan.child, a0, b0);
    GroupsNotMore(NamedKey(plan.groupBy), ks, a0, ls, b0);
    GroupsNotMore(NamedKey(plan.groupBy), ls, b0, ks, a0);
  }

  /** Two meanings of a settled tree have as many rows. */
  lemma {:induction false} SameCount(plan: Plan, a: seq<Named>, b: seq<Named>)
    requires Settled(plan) && Means(plan, a) && Means(plan, b)
    ensures |a| == |b|
    decreases plan
  {
    match plan
    case Scan(_, _) => Sequences.SameBagSameLength(a, b);
    case Filter(_, _) =>
      SameBag(plan, a, b);
      Sequences.SameBagSameLength(a, b);
    case Limit(child, n) =>
      var a0 := Limited(plan, a);
      var b0 := Limited(plan, b);
      SameCount(child, a0, b0);
    case OrderBy(child, _, limit, offset) =>
      var a0, p := Ordered(plan, a);
      var b0, q := Ordered(plan, b);
      SameCount(child, a0, b0);
      WindowCount(p, q, limit, offset);
    case Aggregate(_, groupBy, _) =>
      if groupBy != [] {
        SameGroups(plan, a, b);
      }
    case _ =>
      var f, a0 := EachRow(plan, a);
      var g, b0 := EachRow(plan, b);
      SameCount(plan.child, a0, b0);
  }

  /** Where the rows that reach the sorts are settled in number, what may starve must. */
  lemma {:induction false} CanIsMust(plan: Plan, required: Option<seq<Name>>, done: seq<Pipe>)
    requires SortsSettled(plan)
    ensures CanStarve(plan, required, done) ==> MustStarve(plan, required, done)
    decreases plan
  {
    if !plan.Scan? {
      CanIsMust(plan.child, ChildNeeds(plan, required), done);
      if plan.child.OrderBy? && CanBeBare(plan.child) {
        BareForGood(plan.child);
      }
    }
  }

  lemma BareForGood(sort: Plan)
    requires sort.OrderBy? && Settled(sort.child) && CanBeBare(sort)
    ensures MustBeBare(sort)
  {
    if Means(sort.child, []) {
      forall r: seq<Named> | Means(sort.child, r) ensures r == [] {
        SameCount(sort.child, r, []);
      }
    }
  }
}
