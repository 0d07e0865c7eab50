/**
 Why sinks only ever see rows they can work on: from tables with typed cells and literals of their declared types,
 every row that reaches a sink is typed, and no pipeline makes more rows than its table has, or one.
 */
module PlanTypes {
  import opened Values
  import opened Arithmetic
  import opened Wrappers
  import opened Batches
  import opened Builders
  import opened Names
  import opened Operators
  import opened Orderings
  import opened Execution
  import opened PipelineRows
  import opened Plans
  import opened PlanShapes
  import opened PlanForms
  import opened FunctionReads
  import opened NamedRows
  import opened PlanRuns
  import Aggregates
  import Filters
  import GlobalAggregation
  import Groupings
  import GroupBys = GroupBy
  import OrderBys = OrderBy
  import Rankings
  import Scalars
  import Sequences
  import Timestamps

  // ----- typed functions -----

  predicate RowTyped(row: Row, types: seq<ColumnType>) {
    |row| == |types| && forall c :: 0 <= c < |types| ==> HasType(row[c], types[c])
  }

  predicate BranchTyped(b: Scalars.Branch, ty: ColumnType) {
    b.Literal? ==> HasType(b.value, ty)
  }

  predicate ConstantsTyped(f: Scalars.ScalarFunction) {
    match f
    case Constant(ty, v) => HasType(v, ty)
    case AddConstant(ty, _, _) => Addable(ty)
    case CaseWhen(ty, _, yes, no) => BranchTyped(yes, ty) && BranchTyped(no, ty)
    case _ => true
  }

  /** The function's columns have the types it works on, and its constants their declared type. */
  predicate FunctionTyped(f: Scalars.ScalarFunction, types: seq<ColumnType>) {
    ReadsOwn(f, types) && ConstantsTyped(f)
  }

  predicate FunctionsTyped(fs: seq<Scalars.ScalarFunction>, types: seq<ColumnType>) {
    fs == [] ||
    var n := |fs| - 1;
    FunctionsTyped(fs[..n], types) && FunctionTyped(fs[n], types + Operators.ResultTypes(fs[..n]))
  }

  lemma WrapInRange(half: int, x: int)
    requires half > 0
    ensures -half <= Wrap(half, x) < half
  {
  }

  lemma MinuteInRange(total: int)
    ensures 0 <= Timestamps.ExtractMinute(total) < 60
  {
    Timestamps.DaySplit(total);
  }

  lemma MeaningTyped(f: Scalars.ScalarFunction, row: Row, types: seq<ColumnType>)
    requires FunctionTyped(f, types) && RowTyped(row, types) && Scalars.Fits(f, |row|)
    ensures HasType(Scalars.Meaning(f, row), Scalars.ResultType(f))
  {
    match f
    case ExtractMinute(c) => MinuteInRange(row[c].i);
    case TimeTrunc(c, unit) => WrapInRange(TWO_63, Timestamps.Truncate(row[c].i, unit));
    case Length(c) =>
      assert HasType(row[c], STRING);
      WrapInRange(TWO_63, |row[c].s|);
    case AddConstant(ty, c, k) =>
      assert HasType(row[c], ty);
      WrapInRange(HalfRange(ty), row[c].i + k);
    case Constant(_, _) =>
    case CaseWhen(_, _, _, _) =>
  }

  lemma {:induction false} ExtendTyped(fs: seq<Scalars.ScalarFunction>, row: Row, types: seq<ColumnType>)
    requires FunctionsTyped(fs, types) && RowTyped(row, types) && ScalarsFit(fs, |row|)
    ensures RowTyped(ExtendRow(fs, row), types + Operators.ResultTypes(fs))
    decreases |fs|
  {
    if fs == [] {
      Sequences.Empties(types);
    } else {
      var n := |fs| - 1;
      assert fs == fs[..n] + [fs[n]];
      ExtendRowSnoc(fs[..n], fs[n], row);
      ExtendTyped(fs[..n], row, types);
      var before := types + Operators.ResultTypes(fs[..n]);
      MeaningTyped(fs[n], ExtendRow(fs[..n], row), before);
      assert Operators.ResultTypes(fs) == Operators.ResultTypes(fs[..n]) + [Scalars.ResultType(fs[n])];
      Sequences.Regroup(types, Operators.ResultTypes(fs[..n]), [Scalars.ResultType(fs[n])]);
    }
  }

  // ----- typed chains -----

  predicate TransformTyped(t: Transform, types: seq<ColumnType>) {
    t.Scalar? ==> FunctionsTyped(t.functions, types)
  }

  predicate ChainTyped(ts: seq<Transform>, types: seq<ColumnType>) {
    ts == [] ||
    var n := |ts| - 1;
    ChainTyped(ts[..n], types) && TransformTyped(ts[n], ChainTypes(ts[..n], types))
  }

  lemma {:induction false} FilterAmong(f: Filters.FilterFunction, rows: seq<Row>, types: seq<ColumnType>)
    requires Filters.AllFit(f, rows) && RowsTyped(rows, types)
    ensures RowsTyped(Filters.FilterRows(f, rows), types) && |Filters.FilterRows(f, rows)| <= |rows|
  {
    if rows != [] {
      FilterAmong(f, rows[1..], types);
    }
  }

  lemma PickTyped(row: Row, ix: seq<nat>, types: seq<ColumnType>)
    requires RowTyped(row, types) && forall j :: 0 <= j < |ix| ==> ix[j] < |types|
    ensures RowTyped(PickRow(row, ix), PickTypes(types, ix))
  {
  }

  /** A transform leaves typed rows typed and adds none. */
  lemma AppliedTyped(t: Transform, rows: seq<Row>, types: seq<ColumnType>)
    requires !t.Limit? && Fits(t, Shape(|types|, true)) && RowsTyped(rows, types) && TransformTyped(t, types)
    ensures RowsTyped(ApplyToRows(t, rows, |types|), TypesAfter(t, types)) && |ApplyToRows(t, rows, |types|)| <= |rows|
  {
    match t
    case Filter(f) => FilterAmong(f, rows, types);
    case Scalar(fs) =>
      forall i | 0 <= i < |rows| ensures RowTyped(ExtendRow(fs, rows[i]), TypesAfter(t, types)) {
        ExtendTyped(fs, rows[i], types);
      }
    case Drop(ix) =>
      forall i | 0 <= i < |rows| ensures RowTyped(PickRow(rows[i], ix), TypesAfter(t, types)) {
        PickTyped(rows[i], ix, types);
      }
    case Reorder(ix) =>
      forall i | 0 <= i < |rows| ensures RowTyped(PickRow(rows[i], ix), TypesAfter(t, types)) {
        PickTyped(rows[i], ix, types);
      }
  }

  lemma {:induction false} ShapeIsTypes(ts: seq<Transform>, sh: Shape, types: seq<ColumnType>)
    requires sh.width == |types|
    ensures ShapeAfter(ts, sh).width == |ChainTypes(ts, types)|
  {
    if ts != [] {
      ShapeIsTypes(ts[..|ts| - 1], sh, types);
    }
  }

  lemma {:induction false} ThroughTyped(ts: seq<Transform>, rows: seq<Row>, sh: Shape, types: seq<ColumnType>)
    requires NoLimits(ts) && FitsAll(ts, sh) && sh.width == |types| && RowsTyped(rows, types) && ChainTyped(ts, types)
    ensures AllWidth(rows, sh.width)
    ensures RowsTyped(RowsThrough(ts, rows, sh), ChainTypes(ts, types)) && |RowsThrough(ts, rows, sh)| <= |rows|
    decreases |ts|
  {
    if ts != [] {
      var front, t := ts[..|ts| - 1], ts[|ts| - 1];
      ThroughTyped(front, rows, sh, types);
      ShapeIsTypes(front, sh, types);
      var before := RowsThrough(front, rows, sh);
      ApplyToRowsWidth(t, before, ShapeAfter(front, sh));
      AppliedTyped(t, before, ChainTypes(front, types));
    }
  }

  // ----- what sinks make of typed rows -----

  lemma SubBagTyped(xs: seq<Row>, ys: seq<Row>, types: seq<ColumnType>)
    requires RowsTyped(ys, types) && multiset(xs) <= multiset(ys)
    ensures RowsTyped(xs, types)
  {
    forall i | 0 <= i < |xs| ensures RowTyped(xs[i], types) {
      var j := Sequences.Locate(xs, ys, xs[i]);
    }
  }

  lemma SortedTyped(keys: seq<SortKey>, out: seq<Row>, rows: seq<Row>, types: seq<ColumnType>, limit: Option<nat>, offset: Option<nat>)
    requires RowsTyped(rows, types) && OrderBys.Delivers(keys, out, rows, limit, offset)
    ensures RowsTyped(out, types) && |out| <= |rows|
  {
    var p :| Rankings.Arranges(RowOrder(keys), p, rows)
          && out == OrderBys.Skip(OrderBys.FirstRows(p, OrderBys.TotalLimit(limit, offset)), offset);
    Sequences.SameBagSameLength(p, rows);
    SubBagTyped(p, rows, types);
  }

  lemma {:induction false} SetOfSmall(vs: seq<Value>)
    ensures |Aggregates.SetOf(vs)| <= |vs|
  {
    if vs != [] {
      var n := |vs| - 1;
      SetOfSmall(vs[..n]);
      assert vs == vs[..n] + [vs[n]];
      Aggregates.SetOfBoth(vs[..n], [vs[n]]);
      assert Aggregates.SetOf([vs[n]]) == {vs[n]} by { assert [vs[n]][0] in Aggregates.SetOf([vs[n]]); }
    }
  }

  /** An aggregate of typed rows within the bounds has its type. */
  lemma AggregateTyped(f: Aggregates.AggFunction, v: Value, rows: seq<Row>, types: seq<ColumnType>)
    requires AggFits(f, types) && RowsTyped(rows, types) && Aggregates.NoOverflow(f, |rows|)
    requires Aggregates.AllRead(f, rows) && Aggregates.IsAggregate(f, v, rows)
    ensures HasType(v, Aggregates.ResultType(f)) || (rows == [] && v == DefaultValue(Aggregates.ResultType(f)))
  {
    match f
    case Count =>
    case Sum(col, ty) => Aggregates.SumWithinLimit(rows, col, ty);
    case Min(col, _) => if rows != [] { AmongTyped(v, rows, col, types); }
    case Max(col, _) => if rows != [] { AmongTyped(v, rows, col, types); }
    case DistinctCount(col, _) => SetOfSmall(Aggregates.ValuesOf(rows, col));
  }

  lemma AmongTyped(v: Value, rows: seq<Row>, col: nat, types: seq<ColumnType>)
    requires RowsTyped(rows, types) && col < |types| && v in Aggregates.ValuesOf(rows, col)
    ensures HasType(v, types[col])
  {
    var i :| 0 <= i < |rows| && Aggregates.ValuesOf(rows, col)[i] == v;
    assert RowTyped(rows[i], types);
  }

  /** The value that MIN and MAX write over no rows has the column's type; no floating-point value is modelled. */
  predicate DefaultTyped(f: Aggregates.AggFunction) {
    f.Min? || f.Max? ==> HasType(DefaultValue(f.ty), f.ty)
  }

  /** SUMs of that many rows fit their accumulators. */
  predicate AggsBounded(fs: seq<Aggregates.AggFunction>, n: nat) {
    forall a :: 0 <= a < |fs| ==> Aggregates.NoOverflow(fs[a], n) && DefaultTyped(fs[a])
  }

  lemma FewerBounded(fs: seq<Aggregates.AggFunction>, m: nat, n: nat)
    requires AggsBounded(fs, n) && m <= n
    ensures AggsBounded(fs, m)
  {
    assert forall a :: 0 <= a < |fs| ==> Aggregates.NoOverflow(fs[a], n) && DefaultTyped(fs[a]);
  }

  /** The aggregates' cells of one result row. */
  lemma CellsTyped(fs: seq<Aggregates.AggFunction>, cells: seq<Value>, rows: seq<Row>, types: seq<ColumnType>)
    requires (forall a :: 0 <= a < |fs| ==> AggFits(fs[a], types)) && RowsTyped(rows, types) && AggsBounded(fs, |rows|)
    requires |cells| == |fs|
    requires forall a :: 0 <= a < |fs| ==> Aggregates.AllRead(fs[a], rows) && Aggregates.IsAggregate(fs[a], cells[a], rows)
    ensures RowTyped(cells, Aggregates.ResultTypes(fs))
  {
    forall a | 0 <= a < |fs| ensures HasType(cells[a], Aggregates.ResultTypes(fs)[a]) {
      assert Aggregates.NoOverflow(fs[a], |rows|) && DefaultTyped(fs[a]);
      AggregateTyped(fs[a], cells[a], rows, types);
    }
  }

  lemma {:induction false} GroupAmong(cols: seq<nat>, k: seq<Value>, rows: seq<Row>, types: seq<ColumnType>)
    requires RowsTyped(rows, types)
    ensures RowsTyped(Groupings.WithKey(GroupBys.KeyFn(cols), k, rows), types)
    ensures |Groupings.WithKey(GroupBys.KeyFn(cols), k, rows)| <= |rows|
    decreases |rows|
  {
    if rows != [] {
      GroupAmong(cols, k, rows[..|rows| - 1], types);
    }
  }

  lemma KeyTyped(cols: seq<nat>, keyTypes: seq<ColumnType>, k: seq<Value>, rows: seq<Row>, types: seq<ColumnType>)
    requires RowsTyped(rows, types) && |keyTypes| == |cols| && k in Groupings.Mapped(GroupBys.KeyFn(cols), rows)
    requires forall j :: 0 <= j < |cols| ==> cols[j] < |types| && keyTypes[j] == types[cols[j]]
    ensures RowTyped(k, keyTypes)
  {
    var m :| 0 <= m < |rows| && Groupings.Mapped(GroupBys.KeyFn(cols), rows)[m] == k;
    assert RowTyped(rows[m], types) && GroupBys.InRow(cols, rows[m]);
  }

  lemma JoinTyped(k: Row, cells: Row, a: seq<ColumnType>, b: seq<ColumnType>)
    requires RowTyped(k, a) && RowTyped(cells, b)
    ensures RowTyped(k + cells, a + b)
  {
  }

  lemma MemberCells(fs: seq<Aggregates.AggFunction>, out: Row, k: seq<Value>, members: seq<Row>, types: seq<ColumnType>)
    requires (forall a :: 0 <= a < |fs| ==> AggFits(fs[a], types)) && RowsTyped(members, types) && AggsBounded(fs, |members|)
    requires GroupBys.IsGroupRow(fs, out, k, members)
    ensures RowTyped(out[|k|..], Aggregates.ResultTypes(fs)) && out == k + out[|k|..]
  {
    var cells := out[|k|..];
    forall a | 0 <= a < |fs| ensures Aggregates.AllRead(fs[a], members) && Aggregates.IsAggregate(fs[a], cells[a], members) {
      assert cells[a] == out[|k| + a];
    }
    CellsTyped(fs, cells, members, types);
    assert out == out[..|k|] + cells;
  }

  lemma GroupRowTyped(cols: seq<nat>, keyTypes: seq<ColumnType>, fs: seq<Aggregates.AggFunction>, out: Row, k: seq<Value>,
                      rows: seq<Row>, types: seq<ColumnType>)
    requires SinkOk(GroupInto(cols, keyTypes, fs), types) && RowsTyped(rows, types) && AggsBounded(fs, |rows|)
    requires k in Groupings.Mapped(GroupBys.KeyFn(cols), rows)
    requires GroupBys.IsGroupRow(fs, out, k, Groupings.WithKey(GroupBys.KeyFn(cols), k, rows))
    ensures RowTyped(out, keyTypes + Aggregates.ResultTypes(fs))
  {
    var members := Groupings.WithKey(GroupBys.KeyFn(cols), k, rows);
    GroupAmong(cols, k, rows, types);
    KeyTyped(cols, keyTypes, k, rows, types);
    FewerBounded(fs, |members|, |rows|);
    MemberCells(fs, out, k, members, types);
    JoinTyped(k, out[|k|..], keyTypes, Aggregates.ResultTypes(fs));
  }

  /** Groups are typed and not more than rows. */
  lemma GroupedTyped(cols: seq<nat>, keyTypes: seq<ColumnType>, fs: seq<Aggregates.AggFunction>, out: seq<Row>,
                     rows: seq<Row>, types: seq<ColumnType>)
    requires SinkOk(GroupInto(cols, keyTypes, fs), types) && RowsTyped(rows, types) && AggsBounded(fs, |rows|)
    requires GroupBys.IsGroupBy(cols, fs, out, rows)
    ensures RowsTyped(out, keyTypes + Aggregates.ResultTypes(fs)) && |out| <= |rows|
  {
    var ks: seq<seq<Value>> :|
      && |ks| == |out| && Groupings.Distinct(ks) && Groupings.KeysCover(GroupBys.KeyFn(cols), ks, rows)
      && forall g :: 0 <= g < |ks| ==>
           GroupBys.IsGroupRow(fs, out[g], ks[g], Groupings.WithKey(GroupBys.KeyFn(cols), ks[g], rows));
    Groupings.DistinctAtMost(ks, Groupings.Mapped(GroupBys.KeyFn(cols), rows));
    forall g | 0 <= g < |out| ensures RowTyped(out[g], keyTypes + Aggregates.ResultTypes(fs)) {
      GroupRowTyped(cols, keyTypes, fs, out[g], ks[g], rows, types);
    }
  }

  predicate SinkBounded(sink: Sink, n: nat) {
    match sink
    case GroupInto(_, _, fs) => AggsBounded(fs, n)
    case TotalInto(fs) => AggsBounded(fs, n)
    case _ => true
  }

  /** The rows are typed and at most n. */
  ghost predicate RowsBounded(rows: seq<Row>, types: seq<ColumnType>, n: nat) {
    RowsTyped(rows, types) && |rows| <= n
  }

  /** Typed and few rows are what a sink can work on. */
  lemma BoundedIsManageable(sink: Sink, rows: seq<Row>, types: seq<ColumnType>, n: nat)
    requires SinkOk(sink, types) && RowsBounded(rows, types, n) && SinkBounded(sink, n) && n <= TWO_32
    ensures Manageable(sink, rows, types)
  {
    match sink
    case GroupInto(cols, _, fs) =>
      forall k: seq<Value> | k in Groupings.Mapped(GroupBys.KeyFn(cols), rows)
        ensures GroupBys.GroupExact(fs, Groupings.WithKey(GroupBys.KeyFn(cols), k, rows))
      {
        GroupAmong(cols, k, rows, types);
        FewExact(fs, Groupings.WithKey(GroupBys.KeyFn(cols), k, rows), types, n);
      }
    case TotalInto(fs) => FewExact(fs, rows, types, n);
    case _ =>
  }

  /** Few typed rows keep every accumulator in its range. */
  lemma FewExact(fs: seq<Aggregates.AggFunction>, rows: seq<Row>, types: seq<ColumnType>, n: nat)
    requires (forall a :: 0 <= a < |fs| ==> AggFits(fs[a], types)) && RowsBounded(rows, types, n) && AggsBounded(fs, n)
    ensures forall a :: 0 <= a < |fs| ==> Aggregates.AllRead(fs[a], rows) && Aggregates.Exact(fs[a], rows)
  {
    FewerBounded(fs, |rows|, n);
    forall a | 0 <= a < |fs| ensures Aggregates.AllRead(fs[a], rows) && Aggregates.Exact(fs[a], rows) {
      assert Aggregates.NoOverflow(fs[a], |rows|);
      forall i | 0 <= i < |rows| ensures Aggregates.Reads(fs[a], rows[i]) {
        RowReads(fs[a], rows[i], types);
      }
      Aggregates.FewIsExact(fs[a], rows);
    }
  }

  /** What a sink gives is again typed, and no more rows than it was given, or one. */
  lemma ResultBounded(sink: Sink, rows: seq<Row>, result: RecordBatch, types: seq<ColumnType>, n: nat)
    requires SinkOk(sink, types) && !sink.Collect? && SinkGives(sink, rows, result)
    requires RowsBounded(rows, types, n) && SinkBounded(sink, n) && n > 0
    ensures RowsBounded(View(result), SinkTypes(sink), n)
  {
    match sink
    case SortInto(keys, sinkTypes, limit, offset) => SortedTyped(keys, View(result), rows, types, limit, offset);
    case GroupInto(cols, keyTypes, fs) =>
      FewerBounded(fs, |rows|, n);
      GroupedTyped(cols, keyTypes, fs, Rows(result), rows, types);
    case TotalInto(fs) =>
      FewerBounded(fs, |rows|, n);
      CellsTyped(fs, Rows(result)[0], rows, types);
  }

  // ----- typed tables and plans -----

  ghost predicate TableTyped(table: Table) {
    forall j, c, i :: 0 <= j < |table.chunks| && 0 <= c < |table.chunks[j].columns| && 0 <= i < |table.chunks[j].columns[c].data| ==>
      HasType(table.chunks[j].columns[c].data[i], table.chunks[j].columns[c].ty)
  }

  /** Literals have their declared type. */
  predicate LiteralsTyped(e: ScalarExpr) {
    match e
    case Literal(ty, v, _) => HasType(v, ty)
    case CaseWhen(_, yes, no, ty, _) =>
      (yes.LiteralBranch? ==> HasType(yes.value, ty)) && (no.LiteralBranch? ==> HasType(no.value, ty))
    case _ => true
  }

  /** n values of the column's type cannot overflow a SUM; MIN and MAX are not over floating-point columns. */
  predicate AggExprBounded(e: AggExpr, env: map<Name, ColumnType>, n: nat) {
    var ty := if e.col in env then env[e.col] else INT64;
    match e.kind
    case SumOf => n <= Aggregates.SumLimit(ty)
    case MinOf => HasType(DefaultValue(ty), ty)
    case MaxOf => HasType(DefaultValue(ty), ty)
    case _ => true
  }

  predicate NodeTyped(plan: Plan, n: nat) {
    match plan
    case Project(_, es) => forall k :: 0 <= k < |es| ==> LiteralsTyped(es[k])
    case Aggregate(child, _, es) => forall a :: 0 <= a < |es| ==> AggExprBounded(es[a], Env(child), n)
    case _ => true
  }

  /** The plan's table has typed cells and at most n rows, its literals are typed, and its SUMs can take n rows. */
  ghost predicate PlanTyped(plan: Plan, n: nat) {
    match plan
    case Scan(table, _) => TableTyped(table) && RowCount(table.chunks) <= n
    case _ => PlanTyped(plan.child, n) && NodeTyped(plan, n)
  }

  // ----- compiled pipelines of typed plans -----

  ghost predicate SourceTyped(source: Source, n: nat) {
    source.FromTable? ==> TableTyped(source.table) && RowCount(source.table.chunks) <= n
  }

  ghost predicate PipeTyped(pipes: seq<Pipe>, j: nat, n: nat)
    requires j < |pipes|
  {
    && SourceTyped(pipes[j].source, n) && SinkBounded(pipes[j].sink, n)
    && ChainTyped(Body(pipes[j].transforms), SourceTypes(pipes[j].source, pipes[..j]))
  }

  ghost predicate PipesTyped(pipes: seq<Pipe>, n: nat) {
    forall j :: 0 <= j < |pipes| ==> PipeTyped(pipes, j, n)
  }

  ghost predicate BuiltTyped(b: Built, n: nat) {
    PipesTyped(b.done, n) && SourceTyped(b.source, n) && ChainTyped(Body(b.transforms), SourceTypes(b.source, b.done))
  }

  lemma LiteralsFrom(e: ScalarExpr, schema: seq<Field>)
    requires CompileScalar(e, schema).Ok? && LiteralsTyped(e)
    ensures ConstantsTyped(CompileScalar(e, schema).value.0)
  {
  }

  lemma {:induction false} FunctionsFrom(es: seq<ScalarExpr>, schema: seq<Field>)
    requires CompileScalars(es, schema).Ok? && FunctionsReadOwn(CompileScalars(es, schema).value.0, TypesIn(schema))
    requires forall k :: 0 <= k < |es| ==> LiteralsTyped(es[k])
    ensures FunctionsTyped(CompileScalars(es, schema).value.0, TypesIn(schema))
    decreases |es|
  {
    if es != [] {
      var n := |es| - 1;
      var front := CompileScalars(es[..n], schema).value;
      var fs := CompileScalars(es, schema).value.0;
      assert fs[..n] == front.0;
      FunctionsFrom(es[..n], schema);
      LiteralsFrom(es[n], schema + front.1);
    }
  }

  lemma AggsFrom(es: seq<AggExpr>, schema: seq<Field>, env: map<Name, ColumnType>, n: nat)
    requires CompileAggs(es, schema).Ok? && SchemaIn(schema, env) && n <= TWO_32
    requires forall a :: 0 <= a < |es| ==> AggExprBounded(es[a], env, n)
    ensures AggsBounded(CompileAggs(es, schema).value, n)
  {
    var fs := CompileAggs(es, schema).value;
    forall a | 0 <= a < |es| ensures Aggregates.NoOverflow(fs[a], n) && DefaultTyped(fs[a]) {
      assert CompileAgg(es[a], schema) == Ok(fs[a]) && AggExprBounded(es[a], env, n);
    }
  }

  lemma PushTyped(b: Built, t: Transform, schema: seq<Field>, n: nat)
    requires BuiltTyped(b, n) && Open(b)
    requires !t.Limit? ==> TransformTyped(t, ChainTypes(b.transforms, SourceTypes(b.source, b.done)))
    ensures BuiltTyped(Push(b, t, schema), n)
  {
    BodyOfOpen(b, t);
    assert (b.transforms + [t])[..|b.transforms|] == b.transforms;
  }

  lemma CutTyped(b: Built, sink: Sink, schema: seq<Field>, n: nat)
    requires BuiltTyped(b, n) && SinkBounded(sink, n)
    ensures BuiltTyped(Cut(b, sink, schema), n)
  {
    var r := Cut(b, sink, schema);
    forall j | 0 <= j < |r.done| ensures PipeTyped(r.done, j, n) {
      if j < |b.done| {
        assert r.done[..j] == b.done[..j] && PipeTyped(b.done, j, n);
      } else {
        assert r.done[..j] == b.done;
      }
    }
  }

  lemma NodeKeepsTyped(plan: Plan, b: Built, n: nat)
    requires !plan.Scan? && BuiltOk(b, Env(plan.child)) && SoundNode(plan, b) && CompileNode(plan, b).Ok?
    requires BuiltTyped(b, n) && NodeTyped(plan, n) && n <= TWO_32
    requires plan.Project? ==> FunctionsReadOwn(CompileScalars(plan.scalars, b.schema).value.0, TypesIn(b.schema))
    ensures BuiltTyped(CompileNode(plan, b).value, n)
  {
    match plan
    case Filter(_, cond) => PushTyped(b, Operators.Filter(CompileFilter(cond, b.schema).value), b.schema, n);
    case Limit(_, m) => PushTyped(b, Operators.Limit(m), b.schema, n);
    case Project(_, es) =>
      var fs := CompileScalars(es, b.schema).value;
      FunctionsFrom(es, b.schema);
      BodyOfOpen(b, Operators.Scalar(fs.0));
      PushTyped(b, Operators.Scalar(fs.0), b.schema + fs.1, n);
    case Drop(_, names) =>
      var stay := StayIndices(b.schema, names);
      PushTyped(b, Operators.Drop(stay), FieldsAt(b.schema, stay), n);
    case Reorder(_, names) =>
      var ix := IndicesOf(b.schema, names).value;
      PickedNames(b.schema, names, ix);
      PushTyped(b, Operators.Reorder(ix), FieldsAt(b.schema, ix), n);
    case OrderBy(_, keys, limit, offset) =>
      var ix := IndicesOf(b.schema, KeyNames(keys)).value;
      CutTyped(b, SortInto(SortKeys(keys, ix), TypesIn(b.schema), limit, offset), b.schema, n);
    case Aggregate(_, groupBy, es) =>
      var ix, fs := IndicesOf(b.schema, groupBy).value, CompileAggs(es, b.schema).value;
      PickedNames(b.schema, groupBy, ix);
      AggsFrom(es, b.schema, Env(plan.child), n);
      var keyFields := FieldsAt(b.schema, ix);
      CutTyped(b, if groupBy == [] then TotalInto(fs) else GroupInto(ix, TypesIn(keyFields), fs), keyFields + AggFields(es, fs), n);
  }

  /** Every pipeline of a well-formed, typed plan works on typed rows of a bounded number. */
  lemma {:induction false} CompiledTyped(plan: Plan, required: Option<seq<Name>>, done: seq<Pipe>, n: nat)
    requires PipesOk(done) && PipesTyped(done, n) && WellFormed(plan, required) && PlanTyped(plan, n) && n <= TWO_32
    ensures Compile(plan, required, done).Ok? && BuiltTyped(Compile(plan, required, done).value, n)
    decreases plan
  {
    CompiledOk(plan, required, done);
    if !plan.Scan? {
      var needs := ChildNeeds(plan, required);
      CompiledTyped(plan.child, needs, done, n);
      CompiledOk(plan.child, needs, done);
      if plan.Project? {
        ProjectReadsOwn(plan, required, done);
      }
      NodeKeepsTyped(plan, Compile(plan.child, needs, done).value, n);
    }
  }

  // ----- rows that arrive -----

  lemma HeldTyped(columns: seq<Column>, size: nat)
    requires Aligned(columns, size)
    requires forall c, i :: 0 <= c < |columns| && 0 <= i < |columns[c].data| ==> HasType(columns[c].data[i], columns[c].ty)
    ensures RowsTyped(HeldRows(columns, size), TypesOf(columns))
  {
    forall i | 0 <= i < size ensures RowTyped(HeldRows(columns, size)[i], TypesOf(columns)) {
      assert HeldRows(columns, size)[i] == RowAt(columns, i);
    }
  }

  lemma {:induction false} TableRowsTyped(table: Table, k: nat)
    requires TableOk(table) && TableTyped(table) && k <= |table.chunks|
    ensures RowsTyped(TableRows(table.chunks[..k]), TypesIn(table.fields))
    decreases k
  {
    if k > 0 {
      TableRowsTyped(table, k - 1);
      assert table.chunks[..k][..k - 1] == table.chunks[..k - 1];
      var chunk := table.chunks[k - 1];
      HeldTyped(chunk.columns, chunk.size);
    }
  }

  /** What a scan supplies is typed, and as many rows as the table has. */
  lemma ScanTyped(table: Table, ix: seq<nat>, n: nat)
    requires TableOk(table) && TableTyped(table) && RowCount(table.chunks) <= n
    requires forall j :: 0 <= j < |ix| ==> ix[j] < |table.fields|
    ensures AllValid(ScanBatches(table, ix))
    ensures RowsBounded(AllRows(ScanBatches(table, ix)), PickTypes(TypesIn(table.fields), ix), n)
  {
    ScanRows(table, ix);
    RowCountIsLength(table.chunks);
    TableRowsTyped(table, |table.chunks|);
    assert table.chunks[..|table.chunks|] == table.chunks;
    var rows, types := TableRows(table.chunks), TypesIn(table.fields);
    forall i | 0 <= i < |rows| ensures RowTyped(PickRow(rows[i], ix), PickTypes(types, ix)) {
      PickTyped(rows[i], ix, types);
    }
  }

  /** However the source's rows are arranged, they are typed and bounded. */
  lemma ArrivalBounded(source: Source, done: seq<Pipe>, runs: seq<Run>, r: seq<Row>, n: nat)
    requires SourceOk(source) && Arrival(source, runs, r) && SourceTyped(source, n)
    requires source.FromBreaker? ==>
               source.id < |runs| && source.id < |done| && RowsBounded(View(runs[source.id].result), SinkTypes(done[source.id].sink), n)
    ensures RowsBounded(r, SourceTypes(source, done), n)
  {
    if source.FromTable? {
      ScanTyped(source.table, source.indices, n);
      Sequences.SameBagSameLength(r, AllRows(ScanBatches(source.table, source.indices)));
      SubBagTyped(r, AllRows(ScanBatches(source.table, source.indices)), SourceTypes(source, done));
    }
  }

  lemma OutcomeBounded(source: Source, ts: seq<Transform>, done: seq<Pipe>, r: seq<Row>, n: nat)
    requires ChainOk(source, ts, done) && AllWidth(r, SourceShape(source, done).width)
    requires RowsBounded(r, SourceTypes(source, done), n) && ChainTyped(Body(ts), SourceTypes(source, done))
    ensures RowsBounded(Outcome(source, ts, done, r), ChainTypes(Body(ts), SourceTypes(source, done)), n)
  {
    ThroughTyped(Body(ts), r, SourceShape(source, done), SourceTypes(source, done));
  }
}
