/**
 Plan compilation (src/execution/ExecutionLogic.cpp): a tree of plan nodes becomes a list of pipelines.  Column
 requirements are pushed down to the scans, names become column indices, and every ORDER BY or aggregation cuts
 the plan: the pipeline below it ends in a sink, the one above it starts at that sink's result.
 */
module Plans {
  import opened Values
  import opened Wrappers
  import opened Batches
  import opened Builders
  import opened Names
  import opened Operators
  import opened Orderings
  import Aggregates
  import Dates
  import Filters
  import Scalars

  datatype Field = Field(name: Name, ty: ColumnType)

  /** One row group of a columnar file, with the columns of all fields. */
  datatype Chunk = Chunk(size: nat, columns: seq<Column>)

  datatype Table = Table(fields: seq<Field>, chunks: seq<Chunk>)

  // ----- expressions and plans -----

  /** `lit` is a column type whose value type is that of the literal. */
  datatype FilterExpr =
    | Cmp(col: Name, op: Filters.Comparison, lit: ColumnType, target: Value)
    | AndExpr(left: FilterExpr, right: FilterExpr)
    | OrExpr(left: FilterExpr, right: FilterExpr)

  datatype BranchExpr = ColRef(col: Name) | LiteralBranch(value: Value)

  /** `output` is what GetOutputName returns. */
  datatype ScalarExpr =
    | ExtractMinute(col: Name, output: Name)
    | TimeTrunc(col: Name, unit: Dates.TimeUnit, output: Name)
    | Length(col: Name, output: Name)
    | Literal(ty: ColumnType, value: Value, output: Name)
    | AddConst(col: Name, constant: int, output: Name)
    | CaseWhen(cond: FilterExpr, yes: BranchExpr, no: BranchExpr, ty: ColumnType, output: Name)

  datatype AggKind = CountRows | SumOf | MinOf | MaxOf | DistinctOf

  datatype AggExpr = AggExpr(kind: AggKind, col: Name, output: Name)

  datatype OrderKey = OrderKey(col: Name, desc: bool)

  datatype Plan =
    | Scan(table: Table, columns: seq<Name>)
    | Aggregate(child: Plan, groupBy: seq<Name>, exprs: seq<AggExpr>)
    | Filter(child: Plan, cond: FilterExpr)
    | OrderBy(child: Plan, keys: seq<OrderKey>, limit: Option<nat>, offset: Option<nat>)
    | Limit(child: Plan, rows: nat)
    | Project(child: Plan, scalars: seq<ScalarExpr>)
    | Drop(child: Plan, names: seq<Name>)
    | Reorder(child: Plan, names: seq<Name>)

  // ----- pipelines -----

  datatype Source = FromTable(table: Table, indices: seq<nat>) | FromBreaker(id: nat)

  datatype Sink =
    | SortInto(keys: seq<SortKey>, types: seq<ColumnType>, limit: Option<nat>, offset: Option<nat>)
    | GroupInto(cols: seq<nat>, types: seq<ColumnType>, functions: seq<Aggregates.AggFunction>)
    | TotalInto(functions: seq<Aggregates.AggFunction>)
    | Collect

  datatype Pipe = Pipe(source: Source, transforms: seq<Transform>, sink: Sink)

  /** The context after a node was built: finished pipelines, the current one without its sink, and its schema. */
  datatype Built = Built(done: seq<Pipe>, source: Source, transforms: seq<Transform>, schema: seq<Field>)

  // ----- names -----

  function NamesOf(schema: seq<Field>): (r: seq<Name>)
    ensures |r| == |schema| && forall i :: 0 <= i < |r| ==> r[i] == schema[i].name
  {
    seq(|schema|, i requires 0 <= i < |schema| => schema[i].name)
  }

  function TypesIn(schema: seq<Field>): (r: seq<ColumnType>)
    ensures |r| == |schema| && forall i :: 0 <= i < |r| ==> r[i] == schema[i].ty
  {
    seq(|schema|, i requires 0 <= i < |schema| => schema[i].ty)
  }

  /** GetColumnIndexByName: the first field of that name. */
  function IndexOf(schema: seq<Field>, name: Name): (r: Option<nat>)
    ensures r.Some? ==> r.value < |schema| && schema[r.value].name == name
    ensures r.None? ==> forall i :: 0 <= i < |schema| ==> schema[i].name != name
  {
    if schema == [] then None
    else if schema[0].name == name then Some(0)
    else
      match IndexOf(schema[1..], name)
      case None =>
        assert forall i :: 1 <= i < |schema| ==> schema[i] == schema[1..][i - 1];
        None
      case Some(i) => Some(i + 1)
  }

  function Missing<T>(): Result<T> { Err("column not found in schema") }

  /** All names resolved, in order, or an error. */
  function IndicesOf(schema: seq<Field>, names: seq<Name>): (r: Result<seq<nat>>)
    ensures r.Ok? ==> |r.value| == |names|
    ensures r.Ok? ==> forall i :: 0 <= i < |names| ==> IndexOf(schema, names[i]) == Some(r.value[i])
    ensures r.Ok? <==> forall i :: 0 <= i < |names| ==> IndexOf(schema, names[i]).Some?
  {
    if names == [] then Ok([])
    else
      var n := |names| - 1;
      match (IndicesOf(schema, names[..n]), IndexOf(schema, names[n]))
      case (Ok(ix), Some(i)) => Ok(ix + [i])
      case (_, _) => Missing()
  }

  function FieldsAt(schema: seq<Field>, ix: seq<nat>): (r: seq<Field>)
    requires forall i :: 0 <= i < |ix| ==> ix[i] < |schema|
    ensures |r| == |ix|
  {
    seq(|ix|, i requires 0 <= i < |ix| => schema[ix[i]])
  }

  /** Names not yet present are appended, in order. */
  function AddMissing(names: seq<Name>, more: seq<Name>): (r: seq<Name>)
    ensures names <= r
    ensures forall x: Name :: x in r <==> x in names || x in more
    ensures forall i :: |names| <= i < |r| ==> r[i] in more && r[i] !in names
  {
    if more == [] then names
    else
      var n := |more| - 1;
      var before := AddMissing(names, more[..n]);
      assert more == more[..n] + [more[n]];
      if more[n] in before then before else before + [more[n]]
  }

  function Requested(required: Option<seq<Name>>): seq<Name> {
    if required.Some? then required.value else []
  }

  // ----- expressions -----

  function NonEmpty(name: Name): seq<Name> {
    if name == [] then [] else [name]
  }

  function FilterColumns(e: FilterExpr): seq<Name> {
    match e
    case Cmp(col, _, _, _) => NonEmpty(col)
    case AndExpr(l, r) => FilterColumns(l) + FilterColumns(r)
    case OrExpr(l, r) => FilterColumns(l) + FilterColumns(r)
  }

  /** Column types that share a C++ value type. */
  function ValueClass(ty: ColumnType): ColumnType {
    if ty == DATE then INT32 else if ty == TIMESTAMP then INT64 else ty
  }

  /** CreateFilterFunction: the column must exist and hold the literal's value type; LIKE needs strings. */
  function CompileFilter(e: FilterExpr, schema: seq<Field>): Result<Filters.FilterFunction> {
    match e
    case Cmp(col, op, lit, target) =>
      (match IndexOf(schema, col)
       case None => Missing()
       case Some(i) =>
         if ValueClass(schema[i].ty) == (if op.Like? || op.NotLike? then STRING else ValueClass(lit))
         then Ok(Filters.Compare(i, op, target)) else Err("not implemented"))
    case AndExpr(l, r) =>
      (match (CompileFilter(l, schema), CompileFilter(r, schema))
       case (Ok(f), Ok(g)) => Ok(Filters.And(f, g))
       case (_, _) => Err("filter"))
    case OrExpr(l, r) =>
      (match (CompileFilter(l, schema), CompileFilter(r, schema))
       case (Ok(f), Ok(g)) => Ok(Filters.Or(f, g))
       case (_, _) => Err("filter"))
  }

  function BranchColumns(b: BranchExpr): seq<Name> {
    if b.ColRef? then NonEmpty(b.col) else []
  }

  function ScalarColumns(e: ScalarExpr): seq<Name> {
    match e
    case Literal(_, _, _) => []
    case CaseWhen(cond, yes, no, _, _) => FilterColumns(cond) + BranchColumns(yes) + BranchColumns(no)
    case _ => NonEmpty(e.col)
  }

  function AllScalarColumns(es: seq<ScalarExpr>): (r: seq<Name>)
    ensures forall k, x: Name :: 0 <= k < |es| && x in ScalarColumns(es[k]) ==> x in r
  {
    if es == [] then [] else AllScalarColumns(es[..|es| - 1]) + ScalarColumns(es[|es| - 1])
  }

  function CompileBranch(b: BranchExpr, schema: seq<Field>): Result<Scalars.Branch> {
    match b
    case LiteralBranch(v) => Ok(Scalars.Literal(v))
    case ColRef(col) =>
      match IndexOf(schema, col)
      case None => Missing()
      case Some(i) => Ok(Scalars.ColumnRef(i))
  }

  predicate Addable(ty: ColumnType) {
    ty != STRING && ty != CHAR && ty != DATE && ty != TIMESTAMP
  }

  /** CreateScalarFunction: the function and the field it adds to the schema. */
  function CompileScalar(e: ScalarExpr, schema: seq<Field>): Result<(Scalars.ScalarFunction, Field)> {
    match e
    case Literal(ty, v, out) => Ok((Scalars.Constant(ty, v), Field(out, ty)))
    case CaseWhen(cond, yes, no, ty, out) =>
      (match (CompileFilter(cond, schema), CompileBranch(yes, schema), CompileBranch(no, schema))
       case (Ok(f), Ok(y), Ok(n)) => Ok((Scalars.CaseWhen(ty, f, y, n), Field(out, ty)))
       case (_, _, _) => Err("case when"))
    case _ =>
      match IndexOf(schema, e.col)
      case None => Missing()
      case Some(i) =>
        var ty := schema[i].ty;
        match e
        case ExtractMinute(_, out) =>
          if ty == TIMESTAMP then Ok((Scalars.ExtractMinute(i), Field(out, INT32))) else Err("requires TIMESTAMP column")
        case TimeTrunc(_, unit, out) =>
          if ty == TIMESTAMP || ty == DATE then Ok((Scalars.TimeTrunc(i, unit), Field(out, ty)))
          else Err("requires TIMESTAMP or DATE column")
        case Length(_, out) =>
          if ty == STRING then Ok((Scalars.Length(i), Field(out, INT64))) else Err("requires STRING column")
        case AddConst(_, k, out) =>
          if Addable(ty) then Ok((Scalars.AddConstant(ty, i, k), Field(out, ty))) else Err("not supported")
        case _ => Err("unreachable")
  }

  /** The functions of a Project, each compiled against the schema extended by the ones before it. */
  function CompileScalars(es: seq<ScalarExpr>, schema: seq<Field>): (r: Result<(seq<Scalars.ScalarFunction>, seq<Field>)>)
    ensures r.Ok? ==> |r.value.0| == |r.value.1| == |es|
  {
    if es == [] then Ok(([], []))
    else
      match CompileScalars(es[..|es| - 1], schema)
      case Err(m) => Err(m)
      case Ok(front) =>
        match CompileScalar(es[|es| - 1], schema + front.1)
        case Err(m) => Err(m)
        case Ok(last) => Ok((front.0 + [last.0], front.1 + [last.1]))
  }

  function AggColumns(e: AggExpr): seq<Name> {
    if e.col == [] || e.col == STAR then [] else [e.col]
  }

  function AllAggColumns(es: seq<AggExpr>): (r: seq<Name>)
    ensures forall k, x: Name :: 0 <= k < |es| && x in AggColumns(es[k]) ==> x in r
  {
    if es == [] then [] else AllAggColumns(es[..|es| - 1]) + AggColumns(es[|es| - 1])
  }

  /** Create{Global,Grouped}AggregationFunction; SUM of a type without a modelled accumulator is an error here. */
  function CompileAgg(e: AggExpr, schema: seq<Field>): Result<Aggregates.AggFunction> {
    if e.kind.CountRows? then Ok(Aggregates.Count)
    else
      match IndexOf(schema, e.col)
      case None => Missing()
      case Some(i) =>
        var ty := schema[i].ty;
        match e.kind
        case SumOf => if Aggregates.SumType(ty).Some? then Ok(Aggregates.Sum(i, ty)) else Err("not supported for this column type")
        case MinOf => Ok(Aggregates.Min(i, ty))
        case MaxOf => Ok(Aggregates.Max(i, ty))
        case DistinctOf => Ok(Aggregates.DistinctCount(i, ty))
        case CountRows => Ok(Aggregates.Count)
  }

  function CompileAggs(es: seq<AggExpr>, schema: seq<Field>): (r: Result<seq<Aggregates.AggFunction>>)
    ensures r.Ok? ==> |r.value| == |es| && forall a :: 0 <= a < |es| ==> CompileAgg(es[a], schema) == Ok(r.value[a])
  {
    if es == [] then Ok([])
    else
      match (CompileAggs(es[..|es| - 1], schema), CompileAgg(es[|es| - 1], schema))
      case (Ok(front), Ok(last)) => Ok(front + [last])
      case (_, _) => Err("aggregate")
  }

  /** The fields aggregates add to the output schema. */
  function AggFields(es: seq<AggExpr>, fs: seq<Aggregates.AggFunction>): (r: seq<Field>)
    requires |fs| == |es|
    ensures |r| == |es| && forall a :: 0 <= a < |es| ==> r[a] == Field(es[a].output, Aggregates.ResultType(fs[a]))
  {
    seq(|es|, a requires 0 <= a < |es| => Field(es[a].output, Aggregates.ResultType(fs[a])))
  }

  function Outputs(es: seq<ScalarExpr>): (r: seq<Name>)
    ensures |r| == |es| && forall k :: 0 <= k < |r| ==> r[k] == es[k].output
  {
    seq(|es|, k requires 0 <= k < |es| => es[k].output)
  }

  function Without(names: seq<Name>, gone: seq<Name>): (r: seq<Name>)
    ensures forall x: Name :: x in r <==> x in names && x !in gone
  {
    if names == [] then []
    else
      var n := |names| - 1;
      assert names == names[..n] + [names[n]];
      Without(names[..n], gone) + (if names[n] in gone then [] else [names[n]])
  }

  function KeyNames(keys: seq<OrderKey>): (r: seq<Name>)
    ensures |r| == |keys| && forall k :: 0 <= k < |r| ==> r[k] == keys[k].col
  {
    seq(|keys|, k requires 0 <= k < |keys| => keys[k].col)
  }

  function SortKeys(keys: seq<OrderKey>, ix: seq<nat>): (r: seq<SortKey>)
    requires |ix| == |keys|
    ensures |r| == |keys| && forall k :: 0 <= k < |r| ==> r[k] == SortKey(ix[k], keys[k].desc)
  {
    seq(|keys|, k requires 0 <= k < |keys| => SortKey(ix[k], keys[k].desc))
  }

  /** Positions of the fields DROP keeps. */
  function StayIndices(schema: seq<Field>, gone: seq<Name>): (r: seq<nat>)
    ensures StrictlyIncreasing(r)
    ensures forall j :: 0 <= j < |r| ==> r[j] < |schema| && schema[r[j]].name !in gone
    ensures forall i :: 0 <= i < |schema| && schema[i].name !in gone ==> i in r
  {
    if schema == [] then []
    else
      var n := |schema| - 1;
      var before := StayIndices(schema[..n], gone);
      if schema[n].name in gone then before else before + [n]
  }

  // ----- building pipelines -----

  /** A transform joins the current pipeline. */
  function Push(b: Built, t: Transform, schema: seq<Field>): Built {
    b.(transforms := b.transforms + [t], schema := schema)
  }

  /** The current pipeline is completed by a sink, whose result the next pipeline starts from. */
  function Cut(b: Built, sink: Sink, schema: seq<Field>): Built {
    Built(b.done + [Pipe(b.source, b.transforms, sink)], FromBreaker(|b.done|), [], schema)
  }

  function ScanNames(table: Table, columns: seq<Name>, required: Option<seq<Name>>): seq<Name> {
    AddMissing(if columns == [STAR] then NamesOf(table.fields) else columns, Requested(required))
  }

  /** What a node asks of its child. */
  function ChildNeeds(plan: Plan, required: Option<seq<Name>>): Option<seq<Name>>
    requires !plan.Scan?
  {
    match plan
    case Filter(_, cond) => Some(SortUnique(FilterColumns(cond) + Requested(required)))
    case OrderBy(_, keys, _, _) => Some(SortUnique(Requested(required) + KeyNames(keys)))
    case Project(_, es) => Some(SortUnique(Without(Requested(required), Outputs(es)) + AllScalarColumns(es)))
    case Aggregate(_, groupBy, es) => Some(SortUnique(groupBy + AllAggColumns(es)))
    case _ => required
  }

  /** BuildPipelines, with the finished pipelines so far in `done` and a fresh current pipeline. */
  function Compile(plan: Plan, required: Option<seq<Name>>, done: seq<Pipe>): Result<Built> {
    match plan
    case Scan(table, columns) =>
      (match IndicesOf(table.fields, ScanNames(table, columns, required))
       case Err(m) => Err(m)
       case Ok(ix) => Ok(Built(done, FromTable(table, ix), [], FieldsAt(table.fields, ix))))
    case _ =>
      match Compile(plan.child, ChildNeeds(plan, required), done)
      case Err(m) => Err(m)
      case Ok(b) => CompileNode(plan, b)
  }

  /** A node on top of its built child. */
  function CompileNode(plan: Plan, b: Built): Result<Built>
    requires !plan.Scan?
  {
    match plan
    case Filter(_, cond) =>
      (match CompileFilter(cond, b.schema)
       case Err(m) => Err(m)
       case Ok(f) => Ok(Push(b, Operators.Filter(f), b.schema)))
    case Limit(_, n) => Ok(Push(b, Operators.Limit(n), b.schema))
    case Project(_, es) =>
      (match CompileScalars(es, b.schema)
       case Err(m) => Err(m)
       case Ok(fs) => Ok(Push(b, Operators.Scalar(fs.0), b.schema + fs.1)))
    case Drop(_, names) =>
      (match IndicesOf(b.schema, names)
       case Err(m) => Err("cannot drop column: not found in dataframe")
       case Ok(_) =>
         var stay := StayIndices(b.schema, names);
         Ok(Push(b, Operators.Drop(stay), FieldsAt(b.schema, stay))))
    case Reorder(_, names) =>
      (match IndicesOf(b.schema, names)
       case Err(m) => Err("cannot reorder column: not found in dataframe")
       case Ok(ix) => Ok(Push(b, Operators.Reorder(ix), FieldsAt(b.schema, ix))))
    case OrderBy(_, keys, limit, offset) =>
      (match IndicesOf(b.schema, KeyNames(keys))
       case Err(m) => Err(m)
       case Ok(ix) => Ok(Cut(b, SortInto(SortKeys(keys, ix), TypesIn(b.schema), limit, offset), b.schema)))
    case Aggregate(_, groupBy, es) =>
      match (IndicesOf(b.schema, groupBy), CompileAggs(es, b.schema))
      case (Ok(ix), Ok(fs)) =>
        var keyFields := FieldsAt(b.schema, ix);
        var sink := if groupBy == [] then TotalInto(fs) else GroupInto(ix, TypesIn(keyFields), fs);
        Ok(Cut(b, sink, keyFields + AggFields(es, fs)))
      case (_, _) => Missing()
  }

  // ----- the loops of the compiler -----

  lemma {:induction false} FirstIndex(schema: seq<Field>, name: Name, i: nat)
    requires i < |schema| && schema[i].name == name && forall j :: 0 <= j < i ==> schema[j].name != name
    ensures IndexOf(schema, name) == Some(i)
  {
    if i > 0 {
      FirstIndex(schema[1..], name, i - 1);
    }
  }

  /** Searches the fields from the first. */
  method FindField(schema: seq<Field>, name: Name) returns (r: Option<nat>)
    ensures r == IndexOf(schema, name)
    ensures r.Some? <==> exists i :: 0 <= i < |schema| && schema[i].name == name
  {
    for i := 0 to |schema|
      invariant forall j :: 0 <= j < i ==> schema[j].name != name
    {
      if schema[i].name == name {
        FirstIndex(schema, name, i);
        return Some(i);
      }
    }
    r := None;
  }

  /** Looks names up one by one, stopping at the first that is missing. */
  method ResolveNames(schema: seq<Field>, names: seq<Name>) returns (r: Option<seq<nat>>)
    ensures r.Some? <==> IndicesOf(schema, names).Ok?
    ensures r.Some? ==> IndicesOf(schema, names) == Ok(r.value)
  {
    var ix: seq<nat> := [];
    for k := 0 to |names|
      invariant IndicesOf(schema, names[..k]) == Ok(ix)
    {
      var found := FindField(schema, names[k]);
      if found.None? {
        return None;
      }
      assert names[..k + 1][..k] == names[..k];
      ix := ix + [found.value];
    }
    assert names[..|names|] == names;
    r := Some(ix);
  }

  /** Copies the fields at the positions, in their order. */
  method CopyFields(schema: seq<Field>, ix: seq<nat>) returns (r: seq<Field>)
    requires forall j :: 0 <= j < |ix| ==> ix[j] < |schema|
    ensures r == FieldsAt(schema, ix)
  {
    r := [];
    for j := 0 to |ix|
      invariant |r| == j && forall i :: 0 <= i < j ==> r[i] == schema[ix[i]]
    {
      r := r + [schema[ix[j]]];
    }
  }

  /** The positions of the fields whose names are not listed. */
  method KeepOthers(schema: seq<Field>, gone: seq<Name>) returns (stay: seq<nat>)
    ensures stay == StayIndices(schema, gone)
    ensures forall i: nat :: i in stay <==> i < |schema| && schema[i].name !in gone
  {
    stay := [];
    for i := 0 to |schema|
      invariant stay == StayIndices(schema[..i], gone)
    {
      assert schema[..i + 1][..i] == schema[..i];
      if schema[i].name !in gone {
        stay := stay + [i];
      }
    }
    assert schema[..|schema|] == schema;
  }

  method AppendMissing(names: seq<Name>, more: seq<Name>) returns (r: seq<Name>)
    ensures r == AddMissing(names, more)
  {
    r := names;
    for k := 0 to |more|
      invariant r == AddMissing(names, more[..k])
    {
      assert more[..k + 1][..k] == more[..k];
      if more[k] !in r {
        r := r + [more[k]];
      }
    }
    assert more[..|more|] == more;
  }

  /** The required names that no expression of the projection computes. */
  method NotComputed(required: seq<Name>, outputs: seq<Name>) returns (r: seq<Name>)
    ensures r == Without(required, outputs)
  {
    r := [];
    for k := 0 to |required|
      invariant r == Without(required[..k], outputs)
    {
      assert required[..k + 1][..k] == required[..k];
      if required[k] !in outputs {
        r := r + [required[k]];
      }
    }
    assert required[..|required|] == required;
  }

  /** Each expression is compiled against the schema that the ones before it have extended. */
  method MakeScalars(es: seq<ScalarExpr>, schema: seq<Field>)
    returns (r: Option<(seq<Scalars.ScalarFunction>, seq<Field>)>)
    ensures r.Some? <==> CompileScalars(es, schema).Ok?
    ensures r.Some? ==> CompileScalars(es, schema) == Ok(r.value)
  {
    var functions: seq<Scalars.ScalarFunction>, added: seq<Field> := [], [];
    for k := 0 to |es|
      invariant CompileScalars(es[..k], schema) == Ok((functions, added))
    {
      assert es[..k + 1][..k] == es[..k];
      var one := CompileScalar(es[k], schema + added);
      if one.Err? {
        ScalarsStop(es, schema, k + 1);
        return None;
      }
      functions, added := functions + [one.value.0], added + [one.value.1];
    }
    assert es[..|es|] == es;
    r := Some((functions, added));
  }

  /** An expression that fails makes the whole list fail. */
  lemma {:induction false} ScalarsStop(es: seq<ScalarExpr>, schema: seq<Field>, k: nat)
    requires k <= |es| && CompileScalars(es[..k], schema).Err?
    ensures CompileScalars(es, schema).Err?
    decreases |es|
  {
    if k == |es| {
      assert es[..k] == es;
    } else {
      assert es[..|es| - 1][..k] == es[..k];
      ScalarsStop(es[..|es| - 1], schema, k);
    }
  }

  /** Each aggregate is compiled against the child's schema and adds its field to the output. */
  method MakeAggregates(es: seq<AggExpr>, schema: seq<Field>)
    returns (r: Option<(seq<Aggregates.AggFunction>, seq<Field>)>)
    ensures r.Some? <==> CompileAggs(es, schema).Ok?
    ensures r.Some? ==> CompileAggs(es, schema) == Ok(r.value.0) && |r.value.0| == |es| && r.value.1 == AggFields(es, r.value.0)
  {
    var functions: seq<Aggregates.AggFunction>, added: seq<Field> := [], [];
    for k := 0 to |es|
      invariant CompileAggs(es[..k], schema) == Ok(functions) && |added| == k
      invariant forall a :: 0 <= a < k ==> added[a] == Field(es[a].output, Aggregates.ResultType(functions[a]))
    {
      assert es[..k + 1][..k] == es[..k];
      var one := CompileAgg(es[k], schema);
      if one.Err? {
        assert CompileAgg(es[k], schema).Err?;
        return None;
      }
      functions, added := functions + [one.value], added + [Field(es[k].output, Aggregates.ResultType(one.value))];
    }
    assert es[..|es|] == es;
    r := Some((functions, added));
  }

  method MakeSortKeys(keys: seq<OrderKey>, schema: seq<Field>) returns (r: Option<seq<SortKey>>)
    ensures r.Some? <==> IndicesOf(schema, KeyNames(keys)).Ok?
    ensures r.Some? ==> r.value == SortKeys(keys, IndicesOf(schema, KeyNames(keys)).value)
  {
    var ix := ResolveNames(schema, KeyNames(keys));
    if ix.None? {
      return None;
    }
    var made: seq<SortKey> := [];
    for k := 0 to |keys|
      invariant |made| == k && forall j :: 0 <= j < k ==> made[j] == SortKey(ix.value[j], keys[j].desc)
    {
      made := made + [SortKey(ix.value[k], keys[k].desc)];
    }
    r := Some(made);
  }

  predicate Offered(schema: seq<Field>, name: Name) {
    exists i :: 0 <= i < |schema| && schema[i].name == name
  }

  lemma AllOffered(schema: seq<Field>, names: seq<Name>)
    ensures IndicesOf(schema, names).Ok? <==> forall k :: 0 <= k < |names| ==> Offered(schema, names[k])
  {
    forall k | 0 <= k < |names| ensures IndexOf(schema, names[k]).Some? <==> Offered(schema, names[k]) {
      var i := IndexOf(schema, names[k]);
    }
  }

  /** What a pushed operator is, told by positions and names of the schema below it. */
  ghost predicate Resolved(plan: Plan, t: Transform, below: seq<Field>, above: seq<Field>)
    requires plan.Filter? || plan.Limit? || plan.Project? || plan.Drop? || plan.Reorder?
  {
    match plan
    case Filter(_, cond) => t.Filter? && CompileFilter(cond, below) == Ok(t.filter) && above == below
    case Limit(_, n) => t == Operators.Limit(n) && above == below
    case Project(_, es) =>
      t.Scalar? && |t.functions| == |es| && below <= above && CompileScalars(es, below) == Ok((t.functions, above[|below|..]))
    case Drop(_, names) =>
      && t.Drop? && StrictlyIncreasing(t.stay) && (forall i: nat :: i in t.stay <==> i < |below| && below[i].name !in names)
      && |above| == |t.stay| && forall j :: 0 <= j < |above| ==> t.stay[j] < |below| && above[j] == below[t.stay[j]]
    case Reorder(_, names) =>
      && t.Reorder? && |t.indices| == |names| == |above|
      && forall j :: 0 <= j < |names| ==>
           && t.indices[j] < |below| && above[j] == below[t.indices[j]] && above[j].name == names[j]
           && forall i :: 0 <= i < t.indices[j] ==> below[i].name != names[j]
  }

  /** The operator of a node and the schema above it, or nothing if a name is missing or a type does not fit. */
  method MakeTransform(plan: Plan, schema: seq<Field>, ghost b: Built) returns (r: Option<(Transform, seq<Field>)>)
    requires plan.Filter? || plan.Limit? || plan.Project? || plan.Drop? || plan.Reorder?
    requires b.schema == schema
    ensures r.Some? <==> CompileNode(plan, b).Ok?
    ensures r.Some? ==> CompileNode(plan, b) == Ok(Push(b, r.value.0, r.value.1)) && Resolved(plan, r.value.0, schema, r.value.1)
    ensures plan.Limit? ==> r.Some?
    ensures plan.Drop? || plan.Reorder? ==> (r.Some? <==> forall k :: 0 <= k < |plan.names| ==> Offered(schema, plan.names[k]))
  {
    match plan
    case Filter(_, cond) =>
      var f := CompileFilter(cond, schema);
      r := if f.Ok? then Some((Operators.Filter(f.value), schema)) else None;
    case Limit(_, n) =>
      r := Some((Operators.Limit(n), schema));
    case Project(_, es) =>
      var made := MakeScalars(es, schema);
      r := if made.Some? then Some((Operators.Scalar(made.value.0), schema + made.value.1)) else None;
    case Drop(_, names) =>
      AllOffered(schema, names);
      var known := ResolveNames(schema, names);
      if known.None? {
        return None;
      }
      var stay := KeepOthers(schema, names);
      var fields := CopyFields(schema, stay);
      r := Some((Operators.Drop(stay), fields));
    case Reorder(_, names) =>
      AllOffered(schema, names);
      var indices := ResolveNames(schema, names);
      if indices.None? {
        return None;
      }
      FirstPositions(schema, names, indices.value);
      var fields := CopyFields(schema, indices.value);
      r := Some((Operators.Reorder(indices.value), fields));
  }

  /** A resolved name stands at its position and nowhere before it. */
  lemma FirstPositions(schema: seq<Field>, names: seq<Name>, ix: seq<nat>)
    requires IndicesOf(schema, names) == Ok(ix)
    ensures forall j :: 0 <= j < |ix| ==> ix[j] < |schema| && schema[ix[j]].name == names[j]
    ensures forall j, i :: 0 <= j < |ix| && 0 <= i < ix[j] ==> schema[i].name != names[j]
  {
    forall j | 0 <= j < |ix|
      ensures ix[j] < |schema| && schema[ix[j]].name == names[j] && forall i :: 0 <= i < ix[j] ==> schema[i].name != names[j]
    {
      assert IndexOf(schema, names[j]) == Some(ix[j]);
      NotBefore(schema, names[j]);
    }
  }

  lemma {:induction false} NotBefore(schema: seq<Field>, name: Name)
    requires IndexOf(schema, name).Some?
    ensures forall i :: 0 <= i < IndexOf(schema, name).value ==> schema[i].name != name
  {
    if schema[0].name != name {
      NotBefore(schema[1..], name);
      assert forall i :: 1 <= i < |schema| ==> schema[i] == schema[1..][i - 1];
    }
  }

  /** The sink of ORDER BY or an aggregation over its child's schema, and the schema above it. */
  method MakeSink(plan: Plan, schema: seq<Field>, ghost b: Built) returns (r: Option<(Sink, seq<Field>)>)
    requires (plan.OrderBy? || plan.Aggregate?) && b.schema == schema
    ensures r.Some? <==> CompileNode(plan, b).Ok?
    ensures r.Some? ==> CompileNode(plan, b) == Ok(Cut(b, r.value.0, r.value.1))
  {
    match plan
    case OrderBy(_, keys, limit, offset) =>
      var made := MakeSortKeys(keys, schema);
      if made.None? {
        return None;
      }
      var types := CopyTypes(schema);
      r := Some((SortInto(made.value, types, limit, offset), schema));
    case Aggregate(_, groupBy, es) =>
      var indices := ResolveNames(schema, groupBy);
      if indices.None? {
        return None;
      }
      FirstPositions(schema, groupBy, indices.value);
      var keyFields := CopyFields(schema, indices.value);
      var made := MakeAggregates(es, schema);
      if made.None? {
        return None;
      }
      var types := CopyTypes(keyFields);
      var sink := if groupBy == [] then TotalInto(made.value.0) else GroupInto(indices.value, types, made.value.0);
      r := Some((sink, keyFields + made.value.1));
  }

  method CopyTypes(fields: seq<Field>) returns (r: seq<ColumnType>)
    ensures r == TypesIn(fields)
  {
    r := [];
    for i := 0 to |fields|
      invariant |r| == i && forall j :: 0 <= j < i ==> r[j] == fields[j].ty
    {
      r := r + [fields[i].ty];
    }
  }

  /** The columns a scan reads: those of the query, or all, and the required ones that are not among them. */
  method ScanColumns(table: Table, columns: seq<Name>, required: Option<seq<Name>>) returns (names: seq<Name>)
    ensures names == ScanNames(table, columns, required)
    ensures forall x: Name :: x in Requested(required) ==> x in names
  {
    names := columns;
    if |columns| == 1 && columns[0] == STAR {
      names := [];
      for i := 0 to |table.fields|
        invariant |names| == i && forall j :: 0 <= j < i ==> names[j] == table.fields[j].name
      {
        names := names + [table.fields[i].name];
      }
      assert names == NamesOf(table.fields);
    }
    names := AppendMissing(names, Requested(required));
  }

  /**
   The columns a scan delivers: all fields of the table in their order if the query asks for "*" (byte 42), and those it
   lists otherwise; behind them only columns that somebody requires.
   */
  ghost predicate ScanDelivers(table: Table, columns: seq<Name>, required: Option<seq<Name>>, names: seq<Name>) {
    var asked := if columns == [[42]] then |table.fields| else |columns|;
    && asked <= |names|
    && (columns == [[42]] ==> forall i :: 0 <= i < |table.fields| ==> names[i] == table.fields[i].name)
    && (columns != [[42]] ==> forall i :: 0 <= i < |columns| ==> names[i] == columns[i])
    && (forall i :: asked <= i < |names| ==> names[i] in Requested(required) && names[i] !in names[..asked])
    && forall x: Name :: x in Requested(required) ==> x in names
  }

  lemma ScanReads(table: Table, columns: seq<Name>, required: Option<seq<Name>>)
    ensures var names := ScanNames(table, columns, required);
            && (if columns == [[42]] then NamesOf(table.fields) else columns) <= names
            && ScanDelivers(table, columns, required, names)
  {
    var asked := if columns == [[42]] then NamesOf(table.fields) else columns;
    var names := ScanNames(table, columns, required);
    assert names[..|asked|] == asked;
  }

  /** A scan compiles exactly if the table has the columns that are listed and those that are required. */
  lemma ScanFinds(table: Table, columns: seq<Name>, required: Option<seq<Name>>)
    ensures IndicesOf(table.fields, ScanNames(table, columns, required)).Ok? <==>
            && (columns == [[42]] || forall k :: 0 <= k < |columns| ==> Offered(table.fields, columns[k]))
            && forall x: Name :: x in Requested(required) ==> Offered(table.fields, x)
  {
    var names := ScanNames(table, columns, required);
    ScanReads(table, columns, required);
    AllOffered(table.fields, names);
    if (columns == [[42]] || forall k :: 0 <= k < |columns| ==> Offered(table.fields, columns[k]))
       && forall x: Name :: x in Requested(required) ==> Offered(table.fields, x) {
      forall k | 0 <= k < |names| ensures Offered(table.fields, names[k]) {
        if columns == [[42]] && k < |table.fields| {
          assert table.fields[k].name == names[k];
        }
      }
    }
    if IndicesOf(table.fields, names).Ok? {
      forall x: Name | x in Requested(required) ensures Offered(table.fields, x) {
        var k :| 0 <= k < |names| && names[k] == x;
      }
      forall k | columns != [[42]] && 0 <= k < |columns| ensures Offered(table.fields, columns[k]) {
        assert names[k] == columns[k];
      }
    }
  }

  /** Positions and fields of the columns that a scan reads. */
  method ResolveScan(table: Table, columns: seq<Name>, required: Option<seq<Name>>) returns (r: Option<(seq<nat>, seq<Field>)>)
    ensures var names := ScanNames(table, columns, required);
            && (r.Some? <==> IndicesOf(table.fields, names).Ok?)
            && (r.Some? ==>
                  && IndicesOf(table.fields, names) == Ok(r.value.0) && (forall j :: 0 <= j < |r.value.0| ==> r.value.0[j] < |table.fields|)
                  && r.value.1 == FieldsAt(table.fields, r.value.0) && NamesOf(r.value.1) == names)
  {
    var names := ScanColumns(table, columns, required);
    var indices := ResolveNames(table.fields, names);
    if indices.None? {
      return None;
    }
    FirstPositions(table.fields, names, indices.value);
    var fields := CopyFields(table.fields, indices.value);
    r := Some((indices.value, fields));
  }

  /** The mutable context that BuildPipelines works on; every node builds into the current pipeline. */
  class PipelineBuildContext {
    var completed: seq<Pipe>
    var source: Option<Source>
    var transforms: seq<Transform>
    var schema: seq<Field>

    constructor ()
      ensures completed == [] && source.None? && transforms == [] && schema == []
    {
      completed, source, transforms, schema := [], None, [], [];
    }

    /** The context is what `Compile` describes; on an error its state is not used any further. */
    method BuildPipelines(plan: Plan, required: Option<seq<Name>>) returns (error: Option<string>)
      requires transforms == []
      modifies this
      ensures error.None? <==> Compile(plan, required, old(completed)).Ok?
      ensures error.None? ==>
                source.Some? && Built(completed, source.value, transforms, schema) == Compile(plan, required, old(completed)).value
      decreases plan
    {
      match plan
      case Scan(table, columns) =>
        error := BuildScan(table, columns, required);
      case Filter(_, cond) =>
        var needed := SortErase(FilterColumns(cond) + Requested(required));
        error := BuildOnChild(plan, required, Some(needed));
      case Limit(_, _) =>
        error := BuildOnChild(plan, required, required);
      case Project(_, es) =>
        var below := NotComputed(Requested(required), Outputs(es));
        var needed := SortErase(below + AllScalarColumns(es));
        error := BuildOnChild(plan, required, Some(needed));
      case Drop(_, _) =>
        error := BuildOnChild(plan, required, required);
      case Reorder(_, _) =>
        error := BuildOnChild(plan, required, required);
      case OrderBy(child, keys, _, _) =>
        var needed := SortErase(Requested(required) + KeyNames(keys));
        error := BuildBreaker(plan, child, needed);
      case Aggregate(child, groupBy, es) =>
        var needed := SortErase(groupBy + AllAggColumns(es));
        error := BuildBreaker(plan, child, needed);
    }

    /** The child builds into the current pipeline, then the node's operator joins it. */
    method BuildOnChild(plan: Plan, ghost required: Option<seq<Name>>, needed: Option<seq<Name>>) returns (error: Option<string>)
      requires plan.Filter? || plan.Limit? || plan.Project? || plan.Drop? || plan.Reorder?
      requires transforms == [] && needed == ChildNeeds(plan, required)
      modifies this
      ensures error.None? <==> Compile(plan, required, old(completed)).Ok?
      ensures error.None? ==>
                source.Some? && Built(completed, source.value, transforms, schema) == Compile(plan, required, old(completed)).value
      decreases plan, 0
    {
      error := BuildPipelines(plan.child, needed);
      if error.None? {
        error := AddTransform(plan);
      }
    }

    /** The scan becomes the source; its fields are those of the columns read, in the order asked for. */
    method BuildScan(table: Table, columns: seq<Name>, required: Option<seq<Name>>) returns (error: Option<string>)
      modifies this`source, this`schema
      ensures var names := ScanNames(table, columns, required);
              && (error.None? <==> IndicesOf(table.fields, names).Ok?)
              && (error.None? ==>
                    var ix := IndicesOf(table.fields, names).value;
                    && (forall j :: 0 <= j < |ix| ==> ix[j] < |table.fields|)
                    && source == Some(FromTable(table, ix)) && schema == FieldsAt(table.fields, ix) && NamesOf(schema) == names)
      ensures error.None? ==> ScanDelivers(table, columns, required, NamesOf(schema))
      ensures error.None? <==>
                && (columns == [[42]] || forall k :: 0 <= k < |columns| ==> Offered(table.fields, columns[k]))
                && forall x: Name :: x in Requested(required) ==> Offered(table.fields, x)
    {
      ScanReads(table, columns, required);
      ScanFinds(table, columns, required);
      var found := ResolveScan(table, columns, required);
      if found.None? {
        return Some("column not found in table schema");
      }
      source, schema := Some(FromTable(table, found.value.0)), found.value.1;
      error := None;
    }

    /**
     Filter, Limit, Project, Drop and Reorder push one operator onto the current pipeline, with every name of the
     node resolved in the schema so far.  Drop and Reorder fail exactly on a name the schema does not have.
     */
    method AddTransform(plan: Plan) returns (error: Option<string>)
      requires plan.Filter? || plan.Limit? || plan.Project? || plan.Drop? || plan.Reorder?
      requires source.Some?
      modifies this`transforms, this`schema
      ensures var r := CompileNode(plan, Built(completed, source.value, old(transforms), old(schema)));
              && (error.None? <==> r.Ok?)
              && (error.None? ==> Built(completed, source.value, transforms, schema) == r.value)
      ensures error.None? ==>
                && |transforms| == |old(transforms)| + 1 && transforms[..|old(transforms)|] == old(transforms)
                && Resolved(plan, transforms[|old(transforms)|], old(schema), schema)
      ensures plan.Drop? || plan.Reorder? ==>
                (error.Some? <==> exists k :: 0 <= k < |plan.names| && !Offered(old(schema), plan.names[k]))
      ensures error.Some? ==> transforms == old(transforms) && schema == old(schema)
    {
      var made := MakeTransform(plan, schema, Built(completed, source.value, transforms, schema));
      if made.None? {
        return Some("the schema lacks a column or its type does not fit");
      }
      transforms, schema := transforms + [made.value.0], made.value.1;
      error := None;
    }

    /** ORDER BY and aggregation: the child builds into an inner pipeline, which their sink completes. */
    method BuildBreaker(plan: Plan, child: Plan, needed: seq<Name>) returns (error: Option<string>)
      requires (plan.OrderBy? || plan.Aggregate?) && plan.child == child && transforms == []
      modifies this
      ensures var r := Compile(child, Some(needed), old(completed));
              && (error.None? <==> r.Ok? && CompileNode(plan, r.value).Ok?)
              && (error.None? ==>
                    source.Some? && Built(completed, source.value, transforms, schema) == CompileNode(plan, r.value).value)
      decreases plan, 0
    {
      var outer := transforms;
      error := BuildPipelines(child, Some(needed));
      if error.None? {
        ghost var inner := Built(completed, source.value, transforms, schema);
        var made := MakeSink(plan, schema, inner);
        if made.None? {
          return Some("the schema lacks a column or its type does not fit");
        }
        var finished, cut := completed + [Pipe(source.value, transforms, made.value.0)], FromBreaker(|completed|);
        assert Built(finished, cut, [], made.value.1) == Cut(inner, made.value.0, made.value.1);
        completed, source, transforms, schema := finished, Some(cut), outer, made.value.1;
      }
    }
  }
}
