/**
 Collecting a plan's result (src/execution/ExecutionApi.h, DataFrame::Collect): compile, run the pipelines one after
 the other, each by tasks acting in any order, and let every sink make its result before the next pipeline starts.
 */
module PlanCollect {
  import opened Values
  import opened Wrappers
  import opened Batches
  import opened Builders
  import opened Names
  import opened Operators
  import opened Execution
  import opened PipelineRows
  import opened Plans
  import opened PlanShapes
  import opened PlanForms
  import opened NamedRows
  import opened PlanRuns
  import opened PlanTypes
  import opened PlanMeaning
  import opened EmptySorts
  import ChosenColumns
  import P = Pipelines
  import Filters
  import Sequences
  import TaskRuns

  /** The column types at the end of pipeline j, where its sink is. */
  function EndTypes(pipes: seq<Pipe>, j: nat): seq<ColumnType>
    requires j < |pipes|
  {
    ChainTypes(Body(pipes[j].transforms), SourceTypes(pipes[j].source, pipes[..j]))
  }

  // ----- rows stay typed and few -----

  /** The results of the first j runs are what later pipelines can work on. */
  ghost predicate ResultsBounded(pipes: seq<Pipe>, runs: seq<Run>, j: nat, n: nat)
    requires j <= |pipes| && j <= |runs|
  {
    forall i :: 0 <= i < j && !pipes[i].sink.Collect? ==>
      ResultShaped(runs[i].result, SinkTypes(pipes[i].sink)) && RowsBounded(View(runs[i].result), SinkTypes(pipes[i].sink), n)
  }

  /** What a run sinks is typed and bounded, whatever its interleaving. */
  lemma SunkBounded(pipes: seq<Pipe>, runs: seq<Run>, j: nat, threads: nat, n: nat)
    requires PipesOk(pipes) && PipesTyped(pipes, n) && j < |pipes| && j < |runs| && threads > 0
    requires ResultsBounded(pipes, runs, j, n) && SourceOk(pipes[j].source) && Ran(pipes, runs, j, threads)
    ensures var sunk, types := P.SunkBatches(runs[j].state.sunk), EndTypes(pipes, j);
            AllValid(sunk) && AllTyped(sunk, types) && RowsBounded(AllRows(sunk), types, n)
  {
    var r := RunOutcome(pipes, runs, j, threads);
    assert PipeOk(pipes, j) && PipeTyped(pipes, j, n);
    var source, before := pipes[j].source, pipes[..j];
    if source.FromBreaker? {
      assert before[source.id] == pipes[source.id] && runs[..j][source.id] == runs[source.id];
    }
    ArrivalBounded(source, before, runs[..j], r, n);
    OutcomeBounded(source, pipes[j].transforms, before, r, n);
  }

  /** So the sink of every run was given rows it can work on: nothing has to be assumed of the rows. */
  lemma RunIsManageable(pipes: seq<Pipe>, runs: seq<Run>, j: nat, threads: nat, n: nat)
    requires PipesOk(pipes) && PipesTyped(pipes, n) && j < |pipes| && j < |runs| && threads > 0 && n <= TWO_32
    requires ResultsBounded(pipes, runs, j, n) && SourceOk(pipes[j].source) && Ran(pipes, runs, j, threads)
    ensures var sunk, types := P.SunkBatches(runs[j].state.sunk), EndTypes(pipes, j);
            && AllValid(sunk) && AllTyped(sunk, types) && SinkOk(pipes[j].sink, types)
            && Manageable(pipes[j].sink, AllRows(sunk), types)
  {
    SunkBounded(pipes, runs, j, threads, n);
    assert PipeOk(pipes, j) && PipeTyped(pipes, j, n);
    BoundedIsManageable(pipes[j].sink, AllRows(P.SunkBatches(runs[j].state.sunk)), EndTypes(pipes, j), n);
  }

  lemma OneMoreBounded(pipes: seq<Pipe>, runs: seq<Run>, j: nat, threads: nat, n: nat)
    requires PipesOk(pipes) && PipesTyped(pipes, n) && j < |pipes| && j < |runs| && threads > 0 && 0 < n <= TWO_32
    requires ResultsBounded(pipes, runs, j, n) && SourceOk(pipes[j].source) && RunOk(pipes, runs, j, threads)
    ensures ResultsBounded(pipes, runs, j + 1, n)
  {
    if !pipes[j].sink.Collect? {
      SunkBounded(pipes, runs, j, threads, n);
      assert PipeOk(pipes, j) && PipeTyped(pipes, j, n);
      var rows, types := AllRows(P.SunkBatches(runs[j].state.sunk)), EndTypes(pipes, j);
      assert SinkGives(pipes[j].sink, rows, runs[j].result);
      GivesShaped(pipes[j].sink, rows, runs[j].result);
      ResultBounded(pipes[j].sink, rows, runs[j].result, types, n);
    }
  }

  /** Over any executions of a typed plan's pipelines, every result is typed and has at most n rows. */
  lemma {:induction false} AllBounded(pipes: seq<Pipe>, runs: seq<Run>, j: nat, threads: nat, n: nat)
    requires PipesOk(pipes) && PipesTyped(pipes, n) && RunsOk(pipes, runs, j, threads) && threads > 0 && 0 < n <= TWO_32
    ensures ResultsBounded(pipes, runs, j, n)
    decreases j
  {
    if j > 0 {
      FewerRuns(pipes, runs, j - 1, threads);
      AllBounded(pipes, runs, j - 1, threads, n);
      assert RunOk(pipes, runs, j - 1, threads);
      OneMoreBounded(pipes, runs, j - 1, threads, n);
    }
  }

  // ----- which pipelines can fault -----

  /** A supply of the source's shape, or the bare batch under a transform that fits it, goes through without a fault. */
  lemma SupplyIsSafe(source: Source, ts: seq<Transform>, done: seq<Pipe>, runs: seq<Run>, supply: seq<RecordBatch>, threads: nat)
    requires ChainOk(source, ts, done) && Supplies(source, runs, supply)
    requires source.FromBreaker? ==> ResultShaped(runs[source.id].result, SourceTypes(source, done))
    requires !FedBare(Pipe(source, ts, Collect), runs)
    ensures P.SafeSupply(ConfigOf(supply, ts, threads))
  {
    var sh, types := SourceShape(source, done), SourceTypes(source, done);
    match source
    case FromTable(table, ix) =>
      ScanShape(table, ix);
      SupplyLeaves(supply, ts, threads, sh, types);
    case FromBreaker(id) =>
      if runs[id].result == BARE {
        BareFitsIs(ts);
        BareIsSafe(ts, threads);
      } else {
        ResultSafe(runs[id].result, ts, types, threads);
      }
  }

  lemma ResultSafe(b: RecordBatch, ts: seq<Transform>, types: seq<ColumnType>, threads: nat)
    requires NoLimits(Body(ts)) && FitsAll(Body(ts), Shape(|types|, true))
    requires Valid(b) && b.sel.None? && TypesOf(b.columns) == types
    ensures P.SafeSupply(ConfigOf([b], ts, threads))
  {
    assert |b.columns| == |TypesOf(b.columns)|;
    SupplyLeaves([b], ts, threads, Shape(|types|, true), types);
  }

  /**
   No task of any pipeline of a well-formed plan ever indexes a missing column, in any interleaving, except exactly in
   a pipeline whose first transform needs a column and that starts from an ORDER BY which no row has reached, or whose
   limit and offset together are 0.
   */
  lemma PlanNeverFaults(plan: Plan, runs: seq<Run>, j: nat, threads: nat, supply: seq<RecordBatch>)
    requires WellFormed(plan, None) && threads > 0 && j < |PipesOf(plan)| && RunsOk(PipesOf(plan), runs, j, threads)
    requires SourceOk(PipesOf(plan)[j].source) && Supplies(PipesOf(plan)[j].source, runs[..j], supply)
    ensures var c := ConfigOf(supply, PipesOf(plan)[j].transforms, threads);
            (forall s, n :: P.Reaches(c, s, n) ==> P.NoFaults(c, s)) <==> !Starved(PipesOf(plan)[j], PipesOf(plan), runs[..j])
  {
    var pipes := PipesOf(plan);
    CompiledOk(plan, None, []);
    CollectOk(Compile(plan, None, []).value, Env(plan));
    ResultsShaped(pipes, runs, j, threads);
    PipeFaults(pipes, runs, j, threads, supply);
    FedBareExactly(pipes, runs, j, threads);
  }

  lemma PipeFaults(pipes: seq<Pipe>, runs: seq<Run>, j: nat, threads: nat, supply: seq<RecordBatch>)
    requires PipesOk(pipes) && threads > 0 && j < |pipes| && j <= |runs| && SourceOk(pipes[j].source)
    requires forall i :: 0 <= i < j && !pipes[i].sink.Collect? ==> ResultShaped(runs[i].result, SinkTypes(pipes[i].sink))
    requires Supplies(pipes[j].source, runs[..j], supply)
    ensures var c := ConfigOf(supply, pipes[j].transforms, threads);
            (forall s, n :: P.Reaches(c, s, n) ==> P.NoFaults(c, s)) <==> !FedBare(pipes[j], runs[..j])
  {
    var source, ts, before := pipes[j].source, pipes[j].transforms, pipes[..j];
    assert PipeOk(pipes, j);
    if source.FromBreaker? {
      assert before[source.id] == pipes[source.id] && runs[..j][source.id] == runs[source.id];
    }
    if FedBare(pipes[j], runs[..j]) {
      BareFitsIs(ts);
      BareBatchFaults(ts, threads);
    } else {
      SupplyIsSafe(source, ts, before, runs[..j], supply, threads);
      ConfigIsGood(supply, ts, threads);
      NeverFaults(ConfigOf(supply, ts, threads));
    }
  }

  lemma NeverFaults(c: PConfig)
    requires P.GoodConfig(c) && P.SafeSupply(c)
    ensures forall s, n :: P.Reaches(c, s, n) ==> P.NoFaults(c, s)
  {
    forall s, n | P.Reaches(c, s, n) ensures P.NoFaults(c, s) {
      P.SafeSupplyNeverFaults(c, s, n);
    }
  }

  // ----- collecting -----

  /** ScanOperator: one batch per chunk with the chosen columns, or one batch that only counts the rows. */
  method ScanAll(table: Table, ix: seq<nat>) returns (supply: seq<RecordBatch>)
    requires TableOk(table) && forall j :: 0 <= j < |ix| ==> ix[j] < |table.fields|
    ensures supply == ScanBatches(table, ix)
  {
    if ix == [] {
      return [RecordBatch(RowCount(table.chunks), None, [])];
    }
    supply := [];
    for j := 0 to |table.chunks|
      invariant |supply| == j && forall i :: 0 <= i < j ==> supply[i] == ScanBatches(table, ix)[i]
    {
      var chunk := RecordBatch(table.chunks[j].size, None, table.chunks[j].columns);
      var picked := ExecutePick(ix, chunk);
      supply := supply + [picked];
    }
  }

  /** What the source of the next pipeline hands out. */
  method Supply(source: Source, runs: seq<Run>) returns (supply: seq<RecordBatch>)
    requires SourceOk(source) && (source.FromBreaker? ==> source.id < |runs|)
    ensures Supplies(source, runs, supply)
  {
    match source
    case FromTable(table, ix) => supply := ScanAll(table, ix);
    case FromBreaker(id) => supply := [runs[id].result];
  }

  /** Which thread made each delivery. */
  function Threads(ds: seq<P.Delivery<RecordBatch>>): (r: seq<nat>)
    ensures |r| == |ds| && forall i :: 0 <= i < |r| ==> r[i] == ds[i].thread
  {
    seq(|ds|, i requires 0 <= i < |ds| => ds[i].thread)
  }

  /** One pipeline: tasks act until all are done, then the sink makes its result of what each thread delivered. */
  method RunPipeline(pipes: seq<Pipe>, runs: seq<Run>, threads: nat, ghost n: nat) returns (run: Run)
    requires PipesOk(pipes) && PipesTyped(pipes, n) && |runs| < |pipes| && threads > 0 && 0 < n <= TWO_32
    requires RunsOk(pipes, runs, |runs|, threads) && !FedBare(pipes[|runs|], runs)
    ensures RunsOk(pipes, runs + [run], |runs| + 1, threads)
  {
    ghost var before := pipes[..|runs|];
    var p := pipes[|runs|];
    assert PipeOk(pipes, |runs|);
    AllBounded(pipes, runs, |runs|, threads, n);
    var supply := Supply(p.source, runs);
    assert p.source.FromBreaker? ==> before[p.source.id] == pipes[p.source.id];
    SupplyIsSafe(p.source, p.transforms, before, runs, supply, threads);
    var state := TaskRuns.Execute(supply, p.transforms, threads);
    var result := BARE;
    var sunk := P.SunkBatches(state.sunk);
    RanNext(pipes, runs, Run(supply, state, BARE), threads, n);
    if !p.sink.Collect? {
      result := RunSink(p.sink, sunk, Threads(state.sunk), threads, EndTypes(pipes, |runs|));
    }
    run := Run(supply, state, result);
    NextOk(pipes, runs, run, threads);
  }

  /** A run that was added last. */
  lemma RanNext(pipes: seq<Pipe>, runs: seq<Run>, run: Run, threads: nat, n: nat)
    requires PipesOk(pipes) && PipesTyped(pipes, n) && |runs| < |pipes| && threads > 0 && 0 < n <= TWO_32
    requires ResultsBounded(pipes, runs, |runs|, n) && SourceOk(pipes[|runs|].source)
    requires Supplies(pipes[|runs|].source, runs, run.supply) && IsRun(run.supply, pipes[|runs|].transforms, threads, run.state)
    ensures var sink, sunk, types := pipes[|runs|].sink, P.SunkBatches(run.state.sunk), EndTypes(pipes, |runs|);
            AllValid(sunk) && AllTyped(sunk, types) && SinkOk(sink, types) && Manageable(sink, AllRows(sunk), types)
  {
    var all, j := runs + [run], |runs|;
    assert all[..j] == runs && all[j] == run;
    RunIsManageable(pipes, all, j, threads, n);
  }

  lemma NextOk(pipes: seq<Pipe>, runs: seq<Run>, run: Run, threads: nat)
    requires |runs| < |pipes| && RunsOk(pipes, runs, |runs|, threads) && SourceOk(pipes[|runs|].source)
    requires Supplies(pipes[|runs|].source, runs, run.supply) && IsRun(run.supply, pipes[|runs|].transforms, threads, run.state)
    requires AllValid(P.SunkBatches(run.state.sunk)) && !pipes[|runs|].sink.Collect? ==>
               SinkGives(pipes[|runs|].sink, AllRows(P.SunkBatches(run.state.sunk)), run.result)
    ensures RunsOk(pipes, runs + [run], |runs| + 1, threads)
  {
    var all := runs + [run];
    forall i | 0 <= i < |all| ensures SourceOk(pipes[i].source) && RunOk(pipes, all, i, threads) {
      assert all[..i] == runs[..i];
      if i < |runs| {
        assert RunOk(pipes, runs, i, threads);
      } else {
        assert runs[..i] == runs;
      }
    }
  }

  /** None of the runs started from a sort left with no row, with a transform that needs a column. */
  ghost predicate NoneStarved(pipes: seq<Pipe>, runs: seq<Run>) {
    forall j :: 0 <= j < |runs| && j < |pipes| ==> !Starved(pipes[j], pipes, runs[..j])
  }

  lemma OneMoreFed(pipes: seq<Pipe>, runs: seq<Run>, run: Run)
    requires NoneStarved(pipes, runs) && |runs| < |pipes| && !Starved(pipes[|runs|], pipes, runs)
    ensures NoneStarved(pipes, runs + [run])
  {
    forall j | 0 <= j <= |runs| ensures !Starved(pipes[j], pipes, (runs + [run])[..j]) {
      assert (runs + [run])[..j] == runs[..j];
      assert j == |runs| ==> runs[..j] == runs;
    }
  }

  /** The pipelines one after the other, up to one that is starved. */
  method RunAll(pipes: seq<Pipe>, threads: nat, ghost n: nat) returns (runs: seq<Run>, starved: bool)
    requires PipesOk(pipes) && PipesTyped(pipes, n) && threads > 0 && 0 < n <= TWO_32
    ensures RunsOk(pipes, runs, |runs|, threads) && NoneStarved(pipes, runs)
    ensures if starved then |runs| < |pipes| && Starved(pipes[|runs|], pipes, runs) else |runs| == |pipes|
  {
    runs := [];
    for j := 0 to |pipes|
      invariant |runs| == j && RunsOk(pipes, runs, j, threads) && NoneStarved(pipes, runs)
    {
      assert runs[..j] == runs;
      FedBareExactly(pipes, runs, j, threads);
      if FedBare(pipes[j], runs) {
        return runs, true;
      }
      var run := RunPipeline(pipes, runs, threads, n);
      OneMoreFed(pipes, runs, run);
      runs := runs + [run];
    }
    starved := false;
  }

  /** A finished query, a name that is not there, or a pipeline that needs a column above a sort left with no row. */
  datatype Answer = UnknownName | EmptySort(pipe: nat) | Collected(schema: seq<Field>, batches: seq<RecordBatch>)

  /** The batches are a result of the plan, column i under name i of the schema. */
  ghost predicate Answers(plan: Plan, schema: seq<Field>, batches: seq<RecordBatch>) {
    && AllValid(batches) && AllTyped(batches, TypesIn(schema))
    && exists full: seq<Named> :: Means(plan, full) && Matches(full, AllRows(batches), schema)
  }

  /**
   Collect.  The query fails to compile exactly if a name does not resolve.  It stops only if a node of the tree that
   reads a column stands right above a sort that may be left with no row, and it does stop if one stands above a sort
   that always is; where the tree settles how many rows reach its sorts, the two are one condition.  In every other
   case, for every order in which tasks act, every scheduling of batches to threads and every choice a sink has, what
   is collected is a result that the plan means, with every column that the query asks for, in the order asked for.
   */
  method CollectPlan(plan: Plan, threads: nat, ghost n: nat) returns (answer: Answer, ghost runs: seq<Run>)
    requires Placed(plan, None) && DateTruncFree(plan) && CasesTyped(plan) && PlanTyped(plan, n) && 0 < n <= TWO_32 && threads > 0
    ensures answer.UnknownName? <==> !Resolves(plan, None)
    ensures !answer.UnknownName? ==> |runs| <= |PipesOf(plan)| && RunsOk(PipesOf(plan), runs, |runs|, threads)
    ensures answer.EmptySort? ==> answer.pipe == |runs| < |PipesOf(plan)| && Starved(PipesOf(plan)[answer.pipe], PipesOf(plan), runs)
    ensures answer.EmptySort? ==> CanStarve(plan, None, [])
    ensures answer.Collected? ==> !MustStarve(plan, None, [])
    ensures SortsSettled(plan) && !answer.UnknownName? ==> (answer.Collected? <==> !CanStarve(plan, None, []))
    ensures answer.Collected? ==> |runs| == |PipesOf(plan)| && Answers(plan, answer.schema, answer.batches)
    ensures answer.Collected? ==>
              && ChosenColumns.StandIn(ChosenColumns.Chosen(plan), NamesOf(answer.schema))
              && (forall x: Name :: x in ChosenColumns.Chosen(plan) ==> x in NamesOf(answer.schema))
              && SchemaIn(answer.schema, Env(plan))
    ensures NoneStarved(PipesOf(plan), runs)
  {
    CompilesExactly(plan, None, []);
    var built := BuildPlan(plan);
    runs := [];
    if built.None? {
      return UnknownName, runs;
    }
    var b := built.value;
    assert AllPipes(b) == PipesOf(plan);
    SchemaOfAnswer(plan, b);
    var finished, starved := RunBuilt(plan, b, threads, n);
    if starved {
      return EmptySort(|finished|), finished;
    }
    answer, runs := Collected(b.schema, P.SunkBatches(finished[|finished| - 1].state.sunk)), finished;
  }

  /** The pipelines of a compiled plan, run one after the other. */
  method RunBuilt(plan: Plan, b: Built, threads: nat, ghost n: nat) returns (runs: seq<Run>, starved: bool)
    requires WellFormed(plan, None) && PlanTyped(plan, n) && 0 < n <= TWO_32 && threads > 0 && Compile(plan, None, []) == Ok(b)
    ensures RunsOk(AllPipes(b), runs, |runs|, threads) && NoneStarved(AllPipes(b), runs)
    ensures if starved then |runs| < |AllPipes(b)| && Starved(AllPipes(b)[|runs|], AllPipes(b), runs) else |runs| == |AllPipes(b)|
    ensures starved ==> CanStarve(plan, None, [])
    ensures !starved ==> !MustStarve(plan, None, [])
    ensures SortsSettled(plan) ==> (starved <==> CanStarve(plan, None, []))
    ensures !starved ==> runs != [] && Answers(plan, b.schema, P.SunkBatches(runs[|runs| - 1].state.sunk))
  {
    PreparedPlan(plan, b, n);
    runs, starved := RunAll(AllPipes(b), threads, n);
    StarvesOrNot(plan, b, runs, starved, threads);
    if !starved {
      AnswersPlan(plan, b, runs, threads);
    }
  }

  /** The builder's context at the end, if every name was found. */
  method BuildPlan(plan: Plan) returns (built: Option<Built>)
    ensures built.Some? <==> Compile(plan, None, []).Ok?
    ensures built.Some? ==> Compile(plan, None, []) == Ok(built.value)
  {
    var ctx := new PipelineBuildContext();
    var error := ctx.BuildPipelines(plan, None);
    if error.Some? {
      return None;
    }
    built := Some(Built(ctx.completed, ctx.source.value, ctx.transforms, ctx.schema));
  }

  /** The columns asked for are there, in the order asked for, and the schema tells the plan's types. */
  lemma SchemaOfAnswer(plan: Plan, b: Built)
    requires WellFormed(plan, None) && Compile(plan, None, []) == Ok(b)
    ensures ChosenColumns.StandIn(ChosenColumns.Chosen(plan), NamesOf(b.schema))
    ensures forall x: Name :: x in ChosenColumns.Chosen(plan) ==> x in NamesOf(b.schema)
    ensures SchemaIn(b.schema, Env(plan))
  {
    ChosenColumns.ChosenAreDelivered(plan, None, []);
    CompiledOk(plan, None, []);
  }

  lemma AnswersPlan(plan: Plan, b: Built, runs: seq<Run>, threads: nat)
    requires WellFormed(plan, None) && Compile(plan, None, []) == Ok(b) && threads > 0
    requires |runs| == |AllPipes(b)| && RunsOk(AllPipes(b), runs, |runs|, threads)
    ensures runs != [] && Answers(plan, b.schema, P.SunkBatches(runs[|runs| - 1].state.sunk))
  {
    var full := PlanIsMeant(plan, runs, threads);
  }

  /** Runs that stop do so at a node that can starve, and runs that do not have none that must. */
  lemma StarvesOrNot(plan: Plan, b: Built, runs: seq<Run>, starved: bool, threads: nat)
    requires WellFormed(plan, None) && Compile(plan, None, []) == Ok(b) && threads > 0 && PipesOk(AllPipes(b))
    requires RunsOk(AllPipes(b), runs, |runs|, threads) && NoneStarved(AllPipes(b), runs)
    requires if starved then |runs| < |AllPipes(b)| && Starved(AllPipes(b)[|runs|], AllPipes(b), runs) else |runs| == |AllPipes(b)|
    ensures starved ==> CanStarve(plan, None, [])
    ensures !starved ==> !MustStarve(plan, None, [])
    ensures SortsSettled(plan) ==> (starved <==> CanStarve(plan, None, []))
  {
    if SortsSettled(plan) {
      CanIsMust(plan, None, []);
    }
    if starved {
      StarvedBelow(plan, None, [], b, AllPipes(b), runs, |runs|, threads);
    } else {
      NothingStarves(plan, b, runs, threads);
    }
  }

  /** A tree that must starve does not get through. */
  lemma NothingStarves(plan: Plan, b: Built, runs: seq<Run>, threads: nat)
    requires WellFormed(plan, None) && Compile(plan, None, []) == Ok(b) && threads > 0 && PipesOk(AllPipes(b))
    requires |runs| == |AllPipes(b)| && RunsOk(AllPipes(b), runs, |runs|, threads) && NoneStarved(AllPipes(b), runs)
    ensures !MustStarve(plan, None, [])
  {
    if MustStarve(plan, None, []) {
      FirstRuns(AllPipes(b), runs, |b.done|, |runs|, threads);
      var j := StarvedAbove(plan, None, [], b, AllPipes(b), runs, threads);
      StarvedEarlier(AllPipes(b), runs, j);
    }
  }

  lemma PreparedPlan(plan: Plan, b: Built, n: nat)
    requires WellFormed(plan, None) && PlanTyped(plan, n) && n <= TWO_32 && Compile(plan, None, []) == Ok(b)
    ensures PipesOk(AllPipes(b)) && PipesTyped(AllPipes(b), n)
  {
    CompiledOk(plan, None, []);
    CompiledTyped(plan, None, [], n);
    CollectOk(b, Env(plan));
    CutTyped(b, Collect, [], n);
    assert AllPipes(b) == Cut(b, Collect, []).done;
  }

  // ----- a limit of 0 -----

  const ONE_ROW: Table := Table([Field(A, INT64)], [Chunk(1, [Column(INT64, [Int(5)])])])

  /** SELECT ... WHERE a > 0 over (SELECT ... ORDER BY a LIMIT 0). */
  const LIMIT_ZERO: Plan :=
    Plan.Filter(OrderBy(Scan(ONE_ROW, [A]), [OrderKey(A, false)], Some(0), None), Cmp(A, Filters.Greater, INT64, Int(0)))

  lemma ScanOfA(needs: Option<seq<Name>>)
    requires forall x: Name :: x in Requested(needs) ==> x == A
    ensures Shown(Scan(ONE_ROW, [A]), needs) == {A} == FieldEnv(ONE_ROW.fields).Keys
    ensures FieldEnv(ONE_ROW.fields)[A] == INT64
  {
    FieldEnvFirst(ONE_ROW.fields, A);
    assert A in ScanNames(ONE_ROW, [A], needs);
    forall x: Name | x in FieldEnv(ONE_ROW.fields) ensures x == A {
      FieldEnvFirst(ONE_ROW.fields, x);
    }
  }

  lemma ScanFormedOfA(needs: Option<seq<Name>>)
    requires forall x: Name :: x in Requested(needs) ==> x == A
    ensures WellFormed(Scan(ONE_ROW, [A]), needs)
  {
    ScanOfA(needs);
  }

  lemma SortFormed(sort: Plan, required: Option<seq<Name>>)
    requires sort.OrderBy? && WellFormed(sort.child, ChildNeeds(sort, required)) && sort.limit == Some(0) && sort.offset == None
    requires SetOf(KeyNames(sort.keys)) <= Shown(sort.child, ChildNeeds(sort, required)) != {}
    ensures WellFormed(sort, required) && Shown(sort, required) == Shown(sort.child, ChildNeeds(sort, required))
  {
  }

  lemma ZeroFormed()
    ensures WellFormed(LIMIT_ZERO, None)
  {
    var sort, needs := LIMIT_ZERO.child, ChildNeeds(LIMIT_ZERO, None);
    ScanFormedOfA(ChildNeeds(sort, needs));
    ScanOfA(ChildNeeds(sort, needs));
    assert KeyNames(sort.keys) == [A];
    SortFormed(sort, needs);
  }

  lemma ZeroTyped()
    ensures PlanTyped(LIMIT_ZERO, 1) && RowCount(ONE_ROW.chunks) == 1
  {
    assert RowCount(ONE_ROW.chunks[..0]) == 0;
  }

  /** The table has a row, the plan is in order, and it cannot be collected. */
  lemma LimitZeroStarves()
    ensures WellFormed(LIMIT_ZERO, None) && PlanTyped(LIMIT_ZERO, 1) && RowCount(ONE_ROW.chunks) == 1
    ensures MustStarve(LIMIT_ZERO, None, [])
  {
    ZeroFormed();
    ZeroTyped();
    FilterStarves(LIMIT_ZERO, None, []);
  }
}
