/**
 What compilation guarantees before anything runs: every index a compiled operator holds is in range of the batches
 it will see, schema position i names and types batch column i, and a pipeline only reads from an earlier one.
 */
module PlanShapes {
  import opened Values
  import opened Wrappers
  import opened Batches
  import opened Builders
  import opened Names
  import opened Operators
  import opened Execution
  import opened Plans
  import Aggregates
  import Filters
  import Scalars

  // ----- the columns a plan offers -----

  /** Column types by name; of two fields with one name the first counts. */
  function FieldEnv(fields: seq<Field>): (env: map<Name, ColumnType>) {
    if fields == [] then map[] else FieldEnv(fields[1..])[fields[0].name := fields[0].ty]
  }

  lemma {:induction false} FieldEnvFirst(fields: seq<Field>, name: Name)
    ensures name in FieldEnv(fields) <==> IndexOf(fields, name).Some?
    ensures name in FieldEnv(fields) ==> FieldEnv(fields)[name] == fields[IndexOf(fields, name).value].ty
  {
    if fields != [] && fields[0].name != name {
      FieldEnvFirst(fields[1..], name);
    }
  }

  function ScalarType(e: ScalarExpr, env: map<Name, ColumnType>): ColumnType {
    match e
    case ExtractMinute(_, _) => INT32
    case TimeTrunc(_, _, _) => TIMESTAMP
    case Length(_, _) => INT64
    case Literal(ty, _, _) => ty
    case AddConst(col, _, _) => if col in env then env[col] else INT64
    case CaseWhen(_, _, _, ty, _) => ty
  }

  function ProjectEnv(es: seq<ScalarExpr>, env: map<Name, ColumnType>): map<Name, ColumnType> {
    if es == [] then env
    else
      var before := ProjectEnv(es[..|es| - 1], env);
      before[es[|es| - 1].output := ScalarType(es[|es| - 1], before)]
  }

  function AggType(e: AggExpr, env: map<Name, ColumnType>): ColumnType {
    var ty := if e.col in env then env[e.col] else INT64;
    match e.kind
    case SumOf => Aggregates.ResultType(Aggregates.Sum(0, ty))
    case MinOf => ty
    case MaxOf => ty
    case _ => INT64
  }

  function OutputEnv(es: seq<AggExpr>, env: map<Name, ColumnType>): map<Name, ColumnType> {
    if es == [] then map[] else OutputEnv(es[..|es| - 1], env)[es[|es| - 1].output := AggType(es[|es| - 1], env)]
  }

  /** The columns, by name, that the plan's meaning has; the compiled schema is some of them. */
  function Env(plan: Plan): map<Name, ColumnType> {
    match plan
    case Scan(table, _) => FieldEnv(table.fields)
    case Filter(child, _) => Env(child)
    case Limit(child, _) => Env(child)
    case OrderBy(child, _, _, _) => Env(child)
    case Project(child, es) => ProjectEnv(es, Env(child))
    case Drop(child, names) => map n | n in Env(child) && n !in names :: Env(child)[n]
    case Reorder(child, names) => map n | n in Env(child) && n in names :: Env(child)[n]
    case Aggregate(child, groupBy, es) =>
      (map n | n in Env(child) && n in groupBy :: Env(child)[n]) + OutputEnv(es, Env(child))
  }

  /** Every field of the schema is a column of the environment, with its type. */
  ghost predicate SchemaIn(schema: seq<Field>, env: map<Name, ColumnType>) {
    forall i :: 0 <= i < |schema| ==> schema[i].name in env && env[schema[i].name] == schema[i].ty
  }

  // ----- what the engine asks of a plan -----

  ghost predicate TableOk(table: Table) {
    forall j :: 0 <= j < |table.chunks| ==>
      && |table.chunks[j].columns| == |table.fields|
      && Aligned(table.chunks[j].columns, table.chunks[j].size)
      && TypesOf(table.chunks[j].columns) == TypesIn(table.fields)
  }

  /** The current pipeline does not yet end in LIMIT. */
  predicate Open(b: Built) {
    b.transforms == [] || !b.transforms[|b.transforms| - 1].Limit?
  }

  /** Computed columns do not reuse a name of the schema or of each other. */
  predicate Fresh(outputs: seq<Name>, taken: seq<Name>) {
    && (forall i :: 0 <= i < |outputs| ==> outputs[i] !in taken)
    && forall i, j :: 0 <= i < j < |outputs| ==> outputs[i] != outputs[j]
  }

  function AggOutputs(es: seq<AggExpr>): (r: seq<Name>)
    ensures |r| == |es| && forall a :: 0 <= a < |es| ==> r[a] == es[a].output
  {
    seq(|es|, a requires 0 <= a < |es| => es[a].output)
  }

  /** DATE_TRUNC on a DATE column is accepted by the compiler but reads the column as timestamps; excluded here. */
  predicate NoDateTrunc(es: seq<ScalarExpr>, fields: seq<Field>) {
    |fields| == |es| && forall k :: 0 <= k < |es| && es[k].TimeTrunc? ==> fields[k].ty == TIMESTAMP
  }

  function SourceTypes(source: Source, done: seq<Pipe>): seq<ColumnType> {
    match source
    case FromTable(table, ix) => PickTypes(TypesIn(table.fields), ix)
    case FromBreaker(id) => if id < |done| then SinkTypes(done[id].sink) else []
  }

  function SinkTypes(sink: Sink): seq<ColumnType> {
    match sink
    case SortInto(_, types, _, _) => types
    case GroupInto(_, types, fs) => types + Aggregates.ResultTypes(fs)
    case TotalInto(fs) => Aggregates.ResultTypes(fs)
    case Collect => []
  }

  function SourceShape(source: Source, done: seq<Pipe>): Shape {
    Shape(|SourceTypes(source, done)|, true)
  }

  /** Node by node, the preconditions the engine does not check. */
  ghost predicate SoundNode(plan: Plan, b: Built)
    requires !plan.Scan?
  {
    match plan
    case Project(_, es) =>
      && Open(b) && Fresh(Outputs(es), NamesOf(b.schema))
      && (b.schema != [] || es == [] || ShapeAfter(b.transforms, SourceShape(b.source, b.done)).whole)
      && (CompileScalars(es, b.schema).Ok? ==> NoDateTrunc(es, CompileScalars(es, b.schema).value.1))
    case OrderBy(_, _, limit, offset) =>
      && b.schema != [] && (limit.Some? ==> limit.value < TWO_64) && (offset.Some? ==> offset.value < TWO_64)
      && (limit.Some? && offset.Some? ==> limit.value + offset.value < TWO_64)
    case Aggregate(_, groupBy, es) => Fresh(AggOutputs(es), groupBy)
    case _ => Open(b)
  }

  ghost predicate Sound(plan: Plan, required: Option<seq<Name>>, done: seq<Pipe>) {
    match plan
    case Scan(table, _) => TableOk(table)
    case _ =>
      && Sound(plan.child, ChildNeeds(plan, required), done)
      && var r := Compile(plan.child, ChildNeeds(plan, required), done);
         r.Ok? ==> SoundNode(plan, r.value)
  }

  // ----- what compilation yields -----

  ghost predicate ChainOk(source: Source, ts: seq<Transform>, done: seq<Pipe>) {
    && NoLimits(Body(ts)) && FitsAll(Body(ts), SourceShape(source, done))
    && (source.FromBreaker? ==> source.id < |done| && !done[source.id].sink.Collect?)
    && (source.FromTable? ==> TableOk(source.table) && forall j :: 0 <= j < |source.indices| ==> source.indices[j] < |source.table.fields|)
    && ShapeAfter(Body(ts), SourceShape(source, done)).width == |ChainTypes(Body(ts), SourceTypes(source, done))|
  }

  /** The aggregate's column exists in rows of these types and has the type it was compiled for. */
  predicate AggFits(f: Aggregates.AggFunction, types: seq<ColumnType>) {
    f.Count? || (f.col < |types| && f.ty == types[f.col] && (f.Sum? ==> Aggregates.SumType(f.ty).Some?))
  }

  /** The sink's indices and types fit the rows that reach it. */
  ghost predicate SinkOk(sink: Sink, types: seq<ColumnType>) {
    match sink
    case SortInto(keys, sinkTypes, limit, offset) =>
      && sinkTypes == types != [] && (forall k :: 0 <= k < |keys| ==> keys[k].col < |types|)
      && (limit.Some? ==> limit.value < TWO_64) && (offset.Some? ==> offset.value < TWO_64)
      && (limit.Some? && offset.Some? ==> limit.value + offset.value < TWO_64)
    case GroupInto(cols, keyTypes, fs) =>
      && |keyTypes| == |cols| > 0
      && (forall k :: 0 <= k < |cols| ==> cols[k] < |types| && keyTypes[k] == types[cols[k]])
      && forall a :: 0 <= a < |fs| ==> AggFits(fs[a], types)
    case TotalInto(fs) => forall a :: 0 <= a < |fs| ==> AggFits(fs[a], types)
    case Collect => true
  }

  /** A completed pipeline reads from a table or from the sink of an earlier pipeline. */
  ghost predicate PipeOk(pipes: seq<Pipe>, j: nat)
    requires j < |pipes|
  {
    var p, before := pipes[j], pipes[..j];
    ChainOk(p.source, p.transforms, before) && SinkOk(p.sink, ChainTypes(Body(p.transforms), SourceTypes(p.source, before)))
  }

  ghost predicate PipesOk(pipes: seq<Pipe>) {
    forall j :: 0 <= j < |pipes| ==> PipeOk(pipes, j)
  }

  ghost predicate BuiltOk(b: Built, env: map<Name, ColumnType>) {
    && PipesOk(b.done) && ChainOk(b.source, b.transforms, b.done)
    && ChainTypes(Body(b.transforms), SourceTypes(b.source, b.done)) == TypesIn(b.schema)
    && SchemaIn(b.schema, env)
  }

  // ----- one node at a time -----

  lemma BodyOfOpen(b: Built, t: Transform)
    requires Open(b)
    ensures Body(b.transforms) == b.transforms
    ensures Body(b.transforms + [t]) == if t.Limit? then b.transforms else b.transforms + [t]
  {
    if t.Limit? {
      assert (b.transforms + [t])[..|b.transforms|] == b.transforms;
    }
  }

  lemma ChainSnoc(ts: seq<Transform>, t: Transform, sh: Shape, types: seq<ColumnType>)
    ensures ShapeAfter(ts + [t], sh) == After(t, ShapeAfter(ts, sh))
    ensures ChainTypes(ts + [t], types) == TypesAfter(t, ChainTypes(ts, types))
    ensures FitsAll(ts + [t], sh) <==> FitsAll(ts, sh) && Fits(t, ShapeAfter(ts, sh))
  {
    assert (ts + [t])[..|ts|] == ts;
  }

  /** Pushing a fitting transform keeps the chain in order. */
  lemma PushOk(b: Built, t: Transform, schema: seq<Field>, env: map<Name, ColumnType>, env': map<Name, ColumnType>)
    requires BuiltOk(b, env) && Open(b) && !t.Limit?
    requires Fits(t, ShapeAfter(b.transforms, SourceShape(b.source, b.done)))
    requires TypesAfter(t, TypesIn(b.schema)) == TypesIn(schema) && SchemaIn(schema, env')
    requires After(t, ShapeAfter(b.transforms, SourceShape(b.source, b.done))).width == |schema|
    ensures BuiltOk(Push(b, t, schema), env')
  {
    BodyOfOpen(b, t);
    ChainSnoc(b.transforms, t, SourceShape(b.source, b.done), SourceTypes(b.source, b.done));
  }

  lemma PushLimitOk(b: Built, n: nat, env: map<Name, ColumnType>)
    requires BuiltOk(b, env) && Open(b)
    ensures BuiltOk(Push(b, Operators.Limit(n), b.schema), env)
  {
    BodyOfOpen(b, Operators.Limit(n));
  }

  lemma {:induction false} FilterFits(e: FilterExpr, schema: seq<Field>)
    requires CompileFilter(e, schema).Ok?
    ensures Filters.Fits(CompileFilter(e, schema).value, |schema|)
  {
    if !e.Cmp? {
      FilterFits(e.left, schema);
      FilterFits(e.right, schema);
    }
  }

  lemma ScalarFits(e: ScalarExpr, schema: seq<Field>)
    requires CompileScalar(e, schema).Ok?
    ensures Scalars.Fits(CompileScalar(e, schema).value.0, |schema|)
    ensures var r := CompileScalar(e, schema).value;
            r.1.name == e.output && (!e.TimeTrunc? || r.1.ty == TIMESTAMP ==> Scalars.ResultType(r.0) == r.1.ty)
  {
    if e.CaseWhen? {
      FilterFits(e.cond, schema);
    }
  }

  lemma ScalarTypeIs(e: ScalarExpr, schema: seq<Field>, env: map<Name, ColumnType>)
    requires CompileScalar(e, schema).Ok? && SchemaIn(schema, env)
    requires !e.TimeTrunc? || CompileScalar(e, schema).value.1.ty == TIMESTAMP
    ensures CompileScalar(e, schema).value.1.ty == ScalarType(e, env)
  {
  }

  lemma {:induction false} ScalarNames(es: seq<ScalarExpr>, schema: seq<Field>)
    requires CompileScalars(es, schema).Ok?
    ensures NamesOf(CompileScalars(es, schema).value.1) == Outputs(es)
    decreases |es|
  {
    if es != [] {
      var n := |es| - 1;
      var front := CompileScalars(es[..n], schema).value;
      ScalarNames(es[..n], schema);
      ScalarFits(es[n], schema + front.1);
      assert Outputs(es) == Outputs(es[..n]) + [es[n].output];
    }
  }

  /** One more computed column of a new name. */
  lemma ScalarStep(fs: seq<Scalars.ScalarFunction>, fields: seq<Field>, f: Scalars.ScalarFunction, field: Field,
                   schema: seq<Field>, env: map<Name, ColumnType>)
    requires |fs| == |fields| && ScalarsFit(fs, |schema|) && Operators.ResultTypes(fs) == TypesIn(fields)
    requires Scalars.Fits(f, |schema| + |fs|) && Scalars.ResultType(f) == field.ty && SchemaIn(schema + fields, env)
    requires field.name !in NamesOf(schema) && field.name !in NamesOf(fields)
    ensures ScalarsFit(fs + [f], |schema|) && Operators.ResultTypes(fs + [f]) == TypesIn(fields + [field])
    ensures SchemaIn(schema + (fields + [field]), env[field.name := field.ty])
  {
    assert TypesIn(fields + [field]) == TypesIn(fields) + [field.ty];
    assert Operators.ResultTypes(fs + [f]) == Operators.ResultTypes(fs) + [field.ty];
    var all := schema + (fields + [field]);
    forall i | 0 <= i < |all| - 1 ensures all[i] == (schema + fields)[i] && all[i].name != field.name {
      if i < |schema| {
        assert NamesOf(schema)[i] == all[i].name;
      } else {
        assert NamesOf(fields)[i - |schema|] == all[i].name;
      }
    }
  }

  lemma {:induction false} ScalarsOk(es: seq<ScalarExpr>, schema: seq<Field>, env: map<Name, ColumnType>)
    requires CompileScalars(es, schema).Ok? && NoDateTrunc(es, CompileScalars(es, schema).value.1)
    requires SchemaIn(schema, env) && Fresh(Outputs(es), NamesOf(schema))
    ensures var r := CompileScalars(es, schema).value;
            && ScalarsFit(r.0, |schema|) && Operators.ResultTypes(r.0) == TypesIn(r.1)
            && SchemaIn(schema + r.1, ProjectEnv(es, env))
    decreases |es|
  {
    if es == [] {
      assert schema + [] == schema;
    } else {
      var n := |es| - 1;
      var front := CompileScalars(es[..n], schema).value;
      FrontIsSound(es, schema);
      ScalarsOk(es[..n], schema, env);
      OneScalarMore(es[n], front.0, front.1, schema, ProjectEnv(es[..n], env));
    }
  }

  lemma OneScalarMore(e: ScalarExpr, fs: seq<Scalars.ScalarFunction>, fields: seq<Field>, schema: seq<Field>,
                      env: map<Name, ColumnType>)
    requires CompileScalar(e, schema + fields).Ok? && e.output !in NamesOf(schema) && e.output !in NamesOf(fields)
    requires e.TimeTrunc? ==> CompileScalar(e, schema + fields).value.1.ty == TIMESTAMP
    requires ScalarsFit(fs, |schema|) && Operators.ResultTypes(fs) == TypesIn(fields) && SchemaIn(schema + fields, env)
    ensures var last := CompileScalar(e, schema + fields).value;
            && ScalarsFit(fs + [last.0], |schema|) && Operators.ResultTypes(fs + [last.0]) == TypesIn(fields + [last.1])
            && SchemaIn(schema + (fields + [last.1]), env[e.output := ScalarType(e, env)])
  {
    var last := CompileScalar(e, schema + fields).value;
    ScalarFits(e, schema + fields);
    ScalarTypeIs(e, schema + fields, env);
    ScalarStep(fs, fields, last.0, last.1, schema, env);
  }

  lemma FrontIsSound(es: seq<ScalarExpr>, schema: seq<Field>)
    requires es != [] && CompileScalars(es, schema).Ok? && NoDateTrunc(es, CompileScalars(es, schema).value.1)
    requires Fresh(Outputs(es), NamesOf(schema))
    ensures var n := |es| - 1;
            && NoDateTrunc(es[..n], CompileScalars(es[..n], schema).value.1)
            && Fresh(Outputs(es[..n]), NamesOf(schema))
            && es[n].output !in NamesOf(schema) && es[n].output !in NamesOf(CompileScalars(es[..n], schema).value.1)
            && CompileScalar(es[n], schema + CompileScalars(es[..n], schema).value.1).Ok?
            && (es[n].TimeTrunc? ==>
                  CompileScalar(es[n], schema + CompileScalars(es[..n], schema).value.1).value.1.ty == TIMESTAMP)
  {
    var n := |es| - 1;
    var front, all := CompileScalars(es[..n], schema).value, CompileScalars(es, schema).value;
    ScalarNames(es[..n], schema);
    assert Outputs(es[..n]) == Outputs(es)[..n];
    assert all.1[..n] == front.1 && all.1[n] == CompileScalar(es[n], schema + front.1).value.1;
    assert Outputs(es)[n] == es[n].output;
  }

  lemma FieldsAtTypes(schema: seq<Field>, ix: seq<nat>)
    requires forall j :: 0 <= j < |ix| ==> ix[j] < |schema|
    ensures TypesIn(FieldsAt(schema, ix)) == PickTypes(TypesIn(schema), ix)
  {
  }

  lemma FieldsAtIn(schema: seq<Field>, ix: seq<nat>, env: map<Name, ColumnType>, env': map<Name, ColumnType>)
    requires SchemaIn(schema, env) && forall j :: 0 <= j < |ix| ==> ix[j] < |schema|
    requires forall j :: 0 <= j < |ix| && schema[ix[j]].name in env ==>
               schema[ix[j]].name in env' && env'[schema[ix[j]].name] == env[schema[ix[j]].name]
    ensures SchemaIn(FieldsAt(schema, ix), env')
  {
  }

  lemma AggsFit(es: seq<AggExpr>, schema: seq<Field>)
    requires CompileAggs(es, schema).Ok?
    ensures forall a :: 0 <= a < |es| ==> AggFits(CompileAggs(es, schema).value[a], TypesIn(schema))
  {
    var fs := CompileAggs(es, schema).value;
    forall a | 0 <= a < |es| ensures AggFits(fs[a], TypesIn(schema)) {
      assert CompileAgg(es[a], schema) == Ok(fs[a]);
    }
  }

  lemma {:induction false} OutputEnvHas(es: seq<AggExpr>, env: map<Name, ColumnType>, a: nat)
    requires a < |es| && forall i, j :: 0 <= i < j < |es| ==> es[i].output != es[j].output
    ensures es[a].output in OutputEnv(es, env) && OutputEnv(es, env)[es[a].output] == AggType(es[a], env)
    decreases |es|
  {
    if a < |es| - 1 {
      OutputEnvHas(es[..|es| - 1], env, a);
    }
  }

  lemma {:induction false} OutputEnvOnly(es: seq<AggExpr>, env: map<Name, ColumnType>, x: Name)
    requires forall a :: 0 <= a < |es| ==> es[a].output != x
    ensures x !in OutputEnv(es, env)
    decreases |es|
  {
    if es != [] {
      OutputEnvOnly(es[..|es| - 1], env, x);
    }
  }

  lemma AggFieldType(e: AggExpr, schema: seq<Field>, env: map<Name, ColumnType>)
    requires CompileAgg(e, schema).Ok? && SchemaIn(schema, env)
    ensures Aggregates.ResultType(CompileAgg(e, schema).value) == AggType(e, env)
  {
  }

  /** The fields of an aggregation: its keys, then its outputs. */
  lemma AggregateFields(plan: Plan, schema: seq<Field>, ix: seq<nat>, fs: seq<Aggregates.AggFunction>)
    requires plan.Aggregate? && SchemaIn(schema, Env(plan.child)) && Fresh(AggOutputs(plan.exprs), plan.groupBy)
    requires IndicesOf(schema, plan.groupBy) == Ok(ix) && CompileAggs(plan.exprs, schema) == Ok(fs)
    ensures SchemaIn(FieldsAt(schema, ix) + AggFields(plan.exprs, fs), Env(plan))
  {
    var keys, outs, env, es := FieldsAt(schema, ix), AggFields(plan.exprs, fs), Env(plan.child), plan.exprs;
    assert forall i, j :: 0 <= i < j < |es| ==> AggOutputs(es)[i] != AggOutputs(es)[j];
    forall i | 0 <= i < |keys| ensures keys[i].name in Env(plan) && Env(plan)[keys[i].name] == keys[i].ty {
      assert keys[i].name == plan.groupBy[i];
      forall a | 0 <= a < |es| ensures es[a].output != keys[i].name {
        assert AggOutputs(es)[a] !in plan.groupBy;
      }
      OutputEnvOnly(es, env, keys[i].name);
    }
    forall a | 0 <= a < |es| ensures outs[a].name in Env(plan) && Env(plan)[outs[a].name] == outs[a].ty {
      OutputEnvHas(es, env, a);
      assert CompileAgg(es[a], schema) == Ok(fs[a]);
      AggFieldType(es[a], schema, env);
    }
  }

  /** Completing a pipeline keeps the list in order. */
  lemma CutOk(b: Built, env: map<Name, ColumnType>, sink: Sink, schema: seq<Field>, env': map<Name, ColumnType>)
    requires BuiltOk(b, env) && SinkOk(sink, TypesIn(b.schema)) && !sink.Collect?
    requires SinkTypes(sink) == TypesIn(schema) && SchemaIn(schema, env')
    ensures BuiltOk(Cut(b, sink, schema), env') && b.done <= Cut(b, sink, schema).done
  {
    var r := Cut(b, sink, schema);
    forall j | 0 <= j < |r.done| ensures PipeOk(r.done, j) {
      if j < |b.done| {
        assert r.done[..j] == b.done[..j] && PipeOk(b.done, j);
      } else {
        assert r.done[..j] == b.done;
      }
    }
  }

  lemma ProjectOk(plan: Plan, b: Built)
    requires plan.Project? && BuiltOk(b, Env(plan.child)) && SoundNode(plan, b) && CompileNode(plan, b).Ok?
    ensures BuiltOk(CompileNode(plan, b).value, Env(plan)) && b.done <= CompileNode(plan, b).value.done
  {
    var fs := CompileScalars(plan.scalars, b.schema).value;
    var sh := ShapeAfter(b.transforms, SourceShape(b.source, b.done));
    ScalarsOk(plan.scalars, b.schema, Env(plan.child));
    BodyOfOpen(b, Operators.Scalar(fs.0));
    TypesInConcat(b.schema, fs.1);
    assert sh.width == |b.schema|;
    PushOk(b, Operators.Scalar(fs.0), b.schema + fs.1, Env(plan.child), Env(plan));
  }

  lemma PickOk(plan: Plan, b: Built)
    requires (plan.Drop? || plan.Reorder?) && BuiltOk(b, Env(plan.child)) && SoundNode(plan, b) && CompileNode(plan, b).Ok?
    ensures BuiltOk(CompileNode(plan, b).value, Env(plan)) && b.done <= CompileNode(plan, b).value.done
  {
    var t, ix := if plan.Drop? then Operators.Drop(StayIndices(b.schema, plan.names)) else Operators.Reorder(IndicesOf(b.schema, plan.names).value),
                 if plan.Drop? then StayIndices(b.schema, plan.names) else IndicesOf(b.schema, plan.names).value;
    forall j | 0 <= j < |ix| ensures ix[j] < |b.schema| && (b.schema[ix[j]].name in plan.names <==> plan.Reorder?) {
      if plan.Reorder? { assert IndexOf(b.schema, plan.names[j]) == Some(ix[j]); }
    }
    FieldsAtTypes(b.schema, ix);
    FieldsAtIn(b.schema, ix, Env(plan.child), Env(plan));
    BodyOfOpen(b, t);
    PushOk(b, t, FieldsAt(b.schema, ix), Env(plan.child), Env(plan));
  }

  lemma AggregateSink(schema: seq<Field>, groupBy: seq<Name>, es: seq<AggExpr>, ix: seq<nat>, fs: seq<Aggregates.AggFunction>)
    requires IndicesOf(schema, groupBy) == Ok(ix) && CompileAggs(es, schema) == Ok(fs)
    ensures forall k :: 0 <= k < |ix| ==> ix[k] < |schema|
    ensures groupBy != [] ==> SinkOk(GroupInto(ix, TypesIn(FieldsAt(schema, ix)), fs), TypesIn(schema))
    ensures SinkOk(TotalInto(fs), TypesIn(schema))
    ensures TypesIn(FieldsAt(schema, ix) + AggFields(es, fs)) == TypesIn(FieldsAt(schema, ix)) + Aggregates.ResultTypes(fs)
  {
    AggsFit(es, schema);
    KeysInRange(schema, groupBy, ix);
    FieldsAtTypes(schema, ix);
    AggFieldTypes(es, fs);
    TypesInConcat(FieldsAt(schema, ix), AggFields(es, fs));
  }

  lemma KeysInRange(schema: seq<Field>, groupBy: seq<Name>, ix: seq<nat>)
    requires IndicesOf(schema, groupBy) == Ok(ix)
    ensures forall k :: 0 <= k < |ix| ==> ix[k] < |schema|
  {
    forall k | 0 <= k < |ix| ensures ix[k] < |schema| {
      assert IndexOf(schema, groupBy[k]) == Some(ix[k]);
    }
  }

  lemma AggFieldTypes(es: seq<AggExpr>, fs: seq<Aggregates.AggFunction>)
    requires |fs| == |es|
    ensures TypesIn(AggFields(es, fs)) == Aggregates.ResultTypes(fs)
  {
  }

  lemma TypesInConcat(a: seq<Field>, b: seq<Field>)
    ensures TypesIn(a + b) == TypesIn(a) + TypesIn(b)
  {
  }

  lemma AggregateOk(plan: Plan, b: Built)
    requires plan.Aggregate? && BuiltOk(b, Env(plan.child)) && SoundNode(plan, b) && CompileNode(plan, b).Ok?
    ensures BuiltOk(CompileNode(plan, b).value, Env(plan)) && b.done <= CompileNode(plan, b).value.done
  {
    var ix, fs := IndicesOf(b.schema, plan.groupBy).value, CompileAggs(plan.exprs, b.schema).value;
    AggregateSink(b.schema, plan.groupBy, plan.exprs, ix, fs);
    AggregateFields(plan, b.schema, ix, fs);
    var keyFields := FieldsAt(b.schema, ix);
    var sink := if plan.groupBy == [] then TotalInto(fs) else GroupInto(ix, TypesIn(keyFields), fs);
    var schema := keyFields + AggFields(plan.exprs, fs);
    assert SinkTypes(sink) == TypesIn(schema) by {
      if plan.groupBy == [] { assert TypesIn(keyFields) == []; }
    }
    CutOk(b, Env(plan.child), sink, schema, Env(plan));
  }

  lemma SortOk(plan: Plan, b: Built)
    requires plan.OrderBy? && BuiltOk(b, Env(plan.child)) && SoundNode(plan, b) && CompileNode(plan, b).Ok?
    ensures BuiltOk(CompileNode(plan, b).value, Env(plan)) && b.done <= CompileNode(plan, b).value.done
  {
    var ix := IndicesOf(b.schema, KeyNames(plan.keys)).value;
    forall k | 0 <= k < |ix| ensures ix[k] < |b.schema| {
      assert IndexOf(b.schema, KeyNames(plan.keys)[k]) == Some(ix[k]);
    }
    CutOk(b, Env(plan.child), SortInto(SortKeys(plan.keys, ix), TypesIn(b.schema), plan.limit, plan.offset), b.schema, Env(plan));
  }

  lemma NodeOk(plan: Plan, b: Built)
    requires !plan.Scan? && BuiltOk(b, Env(plan.child)) && SoundNode(plan, b) && CompileNode(plan, b).Ok?
    ensures BuiltOk(CompileNode(plan, b).value, Env(plan)) && b.done <= CompileNode(plan, b).value.done
  {
    match plan
    case Filter(_, cond) =>
      FilterFits(cond, b.schema);
      BodyOfOpen(b, Operators.Filter(CompileFilter(cond, b.schema).value));
      PushOk(b, Operators.Filter(CompileFilter(cond, b.schema).value), b.schema, Env(plan.child), Env(plan));
    case Limit(_, n) => PushLimitOk(b, n, Env(plan.child));
    case Project(_, _) => ProjectOk(plan, b);
    case Drop(_, _) => PickOk(plan, b);
    case Reorder(_, _) => PickOk(plan, b);
    case OrderBy(_, _, _, _) => SortOk(plan, b);
    case Aggregate(_, _, _) => AggregateOk(plan, b);
  }

  lemma ScanOk(plan: Plan, required: Option<seq<Name>>, done: seq<Pipe>)
    requires plan.Scan? && PipesOk(done) && Sound(plan, required, done) && Compile(plan, required, done).Ok?
    ensures BuiltOk(Compile(plan, required, done).value, Env(plan)) && Compile(plan, required, done).value.done == done
  {
    var fields, names := plan.table.fields, ScanNames(plan.table, plan.columns, required);
    var ix := IndicesOf(fields, names).value;
    forall j | 0 <= j < |ix|
      ensures ix[j] < |fields| && fields[ix[j]].name in Env(plan) && Env(plan)[fields[ix[j]].name] == fields[ix[j]].ty
    {
      assert IndexOf(fields, names[j]) == Some(ix[j]);
      FieldEnvFirst(fields, names[j]);
    }
    FieldsAtTypes(fields, ix);
  }

  /** What a compiled tree is like if each of its nodes found its preconditions met. */
  lemma {:induction false} SoundIsOk(plan: Plan, required: Option<seq<Name>>, done: seq<Pipe>)
    requires PipesOk(done) && Sound(plan, required, done) && Compile(plan, required, done).Ok?
    ensures BuiltOk(Compile(plan, required, done).value, Env(plan))
    ensures done <= Compile(plan, required, done).value.done
    decreases plan
  {
    if plan.Scan? {
      ScanOk(plan, required, done);
    } else {
      SoundIsOk(plan.child, ChildNeeds(plan, required), done);
      NodeOk(plan, Compile(plan.child, ChildNeeds(plan, required), done).value);
    }
  }

  // ----- push-down loses nothing -----

  /** The name resolves in the schema. */
  predicate Has(schema: seq<Field>, name: Name) {
    IndexOf(schema, name).Some?
  }

  lemma HasAt(schema: seq<Field>, i: nat)
    requires i < |schema|
    ensures Has(schema, schema[i].name)
  {
  }

  lemma {:induction false} ProjectEnvFrom(es: seq<ScalarExpr>, env: map<Name, ColumnType>, x: Name)
    requires x in ProjectEnv(es, env)
    ensures x in env || x in Outputs(es)
    decreases |es|
  {
    if es != [] {
      var n := |es| - 1;
      assert Outputs(es)[n] == es[n].output;
      if x != es[n].output {
        ProjectEnvFrom(es[..n], env, x);
        assert Outputs(es[..n]) == Outputs(es)[..n];
      }
    }
  }

  lemma {:induction false} OutputEnvFrom(es: seq<AggExpr>, env: map<Name, ColumnType>, x: Name)
    requires x in OutputEnv(es, env)
    ensures x in AggOutputs(es)
    decreases |es|
  {
    var n := |es| - 1;
    assert AggOutputs(es)[n] == es[n].output;
    if x != es[n].output {
      OutputEnvFrom(es[..n], env, x);
      assert AggOutputs(es[..n]) == AggOutputs(es)[..n];
    }
  }

  lemma ProjectKeeps(plan: Plan, required: Option<seq<Name>>, b: Built, x: Name)
    requires plan.Project?
    requires CompileNode(plan, b).Ok? && x in Requested(required) && x in Env(plan)
    requires x in Requested(ChildNeeds(plan, required)) && x in Env(plan.child) ==> Has(b.schema, x)
    ensures Has(CompileNode(plan, b).value.schema, x)
  {
    var es := plan.scalars;
    ScalarNames(es, b.schema);
    ProjectEnvFrom(es, Env(plan.child), x);
    var more := CompileScalars(es, b.schema).value.1;
    if x in Outputs(es) {
      HasBehind(b.schema, more, x);
    } else {
      HasInFront(b.schema, more, x);
    }
  }

  lemma HasInFront(schema: seq<Field>, more: seq<Field>, x: Name)
    requires Has(schema, x)
    ensures Has(schema + more, x)
  {
    HasAt(schema + more, IndexOf(schema, x).value);
  }

  lemma HasBehind(schema: seq<Field>, more: seq<Field>, x: Name)
    requires x in NamesOf(more)
    ensures Has(schema + more, x)
  {
    var k :| 0 <= k < |more| && NamesOf(more)[k] == x;
    HasAt(schema + more, |schema| + k);
  }

  lemma PickKeeps(plan: Plan, required: Option<seq<Name>>, b: Built, x: Name)
    requires plan.Drop? || plan.Reorder?
    requires CompileNode(plan, b).Ok? && x in Requested(required) && x in Env(plan)
    requires x in Requested(ChildNeeds(plan, required)) && x in Env(plan.child) ==> Has(b.schema, x)
    ensures Has(CompileNode(plan, b).value.schema, x)
  {
    if plan.Drop? {
      var stay, i := StayIndices(b.schema, plan.names), IndexOf(b.schema, x).value;
      var j :| 0 <= j < |stay| && stay[j] == i;
      HasAt(CompileNode(plan, b).value.schema, j);
    } else {
      var ix := IndicesOf(b.schema, plan.names).value;
      var k :| 0 <= k < |plan.names| && plan.names[k] == x;
      assert IndexOf(b.schema, plan.names[k]) == Some(ix[k]);
      HasAt(CompileNode(plan, b).value.schema, k);
    }
  }

  lemma AggregateKeeps(plan: Plan, b: Built, x: Name)
    requires plan.Aggregate? && CompileNode(plan, b).Ok? && x in Env(plan)
    ensures Has(CompileNode(plan, b).value.schema, x)
  {
    var ix, fs := IndicesOf(b.schema, plan.groupBy).value, CompileAggs(plan.exprs, b.schema).value;
    if x !in plan.groupBy {
      OutputEnvFrom(plan.exprs, Env(plan.child), x);
    }
    KeysAndOutputs(b.schema, plan.groupBy, plan.exprs, ix, fs, x);
  }

  /** The schema of an aggregation has its keys and its outputs. */
  lemma KeysAndOutputs(schema: seq<Field>, groupBy: seq<Name>, es: seq<AggExpr>, ix: seq<nat>, fs: seq<Aggregates.AggFunction>, x: Name)
    requires IndicesOf(schema, groupBy) == Ok(ix) && |fs| == |es| && (x in groupBy || x in AggOutputs(es))
    ensures (forall j :: 0 <= j < |ix| ==> ix[j] < |schema|) && Has(FieldsAt(schema, ix) + AggFields(es, fs), x)
  {
    KeysInRange(schema, groupBy, ix);
    var fields := FieldsAt(schema, ix) + AggFields(es, fs);
    if x in groupBy {
      var k :| 0 <= k < |groupBy| && groupBy[k] == x;
      assert IndexOf(schema, groupBy[k]) == Some(ix[k]) && fields[k].name == x;
      HasAt(fields, k);
    } else {
      var a :| 0 <= a < |es| && AggOutputs(es)[a] == x;
      assert fields[|ix| + a].name == x;
      HasAt(fields, |ix| + a);
    }
  }

  /** A name asked of a built child and offered by it is there for the node above, or comes from the node itself. */
  lemma NodeKeeps(plan: Plan, required: Option<seq<Name>>, b: Built, x: Name)
    requires !plan.Scan?
    requires CompileNode(plan, b).Ok? && x in Requested(required) && x in Env(plan)
    requires x in Requested(ChildNeeds(plan, required)) && x in Env(plan.child) ==> Has(b.schema, x)
    ensures Has(CompileNode(plan, b).value.schema, x)
  {
    match plan
    case Filter(_, _) =>
    case Limit(_, _) =>
    case OrderBy(_, _, _, _) =>
    case Project(_, _) => ProjectKeeps(plan, required, b, x);
    case Drop(_, _) => PickKeeps(plan, required, b, x);
    case Reorder(_, _) => PickKeeps(plan, required, b, x);
    case Aggregate(_, _, _) => AggregateKeeps(plan, b, x);
  }

  /** Whenever a tree compiles at all, whatever is asked for and offered by the plan is in the compiled schema. */
  lemma {:induction false} KeepsRequired(plan: Plan, required: Option<seq<Name>>, done: seq<Pipe>, x: Name)
    requires Compile(plan, required, done).Ok? && x in Requested(required) && x in Env(plan)
    ensures Has(Compile(plan, required, done).value.schema, x)
    decreases plan
  {
    if plan.Scan? {
      var names := ScanNames(plan.table, plan.columns, required);
      var k :| 0 <= k < |names| && names[k] == x;
      assert IndexOf(plan.table.fields, names[k]).Some?;
      HasAt(Compile(plan, required, done).value.schema, k);
    } else {
      var b := Compile(plan.child, ChildNeeds(plan, required), done).value;
      if x in Requested(ChildNeeds(plan, required)) && x in Env(plan.child) {
        KeepsRequired(plan.child, ChildNeeds(plan, required), done, x);
      }
      NodeKeeps(plan, required, b, x);
    }
  }
}
