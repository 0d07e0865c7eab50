/**
 The relational meaning of a plan on rows that carry their columns by name, and its agreement, node by node, with
 compiled operators on rows that carry them by position.
 */
module NamedRows {
  import opened Values
  import opened Wrappers
  import opened Batches
  import opened Builders
  import opened Names
  import opened Operators
  import opened Orderings
  import opened Plans
  import opened PlanShapes
  import opened PipelineRows
  import Aggregates
  import Filters
  import Groupings
  import OrderBys = OrderBy
  import Rankings
  import Scalars
  import Sequences

  type Named = map<Name, Value>

  function Get(r: Named, name: Name): Value {
    if name in r then r[name] else Int(0)
  }

  // ----- rows by name and rows by position -----

  /** The row's cells are the named columns that the schema lists. */
  ghost predicate RowMatches(named: Named, row: Row, schema: seq<Field>) {
    |row| == |schema| && forall c :: 0 <= c < |schema| ==> schema[c].name in named && named[schema[c].name] == row[c]
  }

  ghost predicate Matches(full: seq<Named>, out: seq<Row>, schema: seq<Field>) {
    |full| == |out| && forall i :: 0 <= i < |out| ==> RowMatches(full[i], out[i], schema)
  }

  lemma CellOf(named: Named, row: Row, schema: seq<Field>, name: Name)
    requires RowMatches(named, row, schema) && IndexOf(schema, name).Some?
    ensures IndexOf(schema, name).value < |row| && row[IndexOf(schema, name).value] == Get(named, name)
  {
  }

  /** All fields of a table row by name; of two fields with one name the first counts. */
  function NameRow(fields: seq<Field>, row: Row): Named
    requires |row| == |fields|
  {
    if fields == [] then map[] else NameRow(fields[1..], row[1..])[fields[0].name := row[0]]
  }

  lemma {:induction false} NameRowFirst(fields: seq<Field>, row: Row, name: Name)
    requires |row| == |fields|
    ensures name in NameRow(fields, row) <==> IndexOf(fields, name).Some?
    ensures name in NameRow(fields, row) ==> NameRow(fields, row)[name] == row[IndexOf(fields, name).value]
  {
    if fields != [] && fields[0].name != name {
      NameRowFirst(fields[1..], row[1..], name);
    }
  }

  // ----- filters -----

  predicate HoldsNamed(e: FilterExpr, r: Named) {
    match e
    case Cmp(col, op, _, target) => Filters.Passes(op, Get(r, col), target)
    case AndExpr(a, b) => HoldsNamed(a, r) && HoldsNamed(b, r)
    case OrExpr(a, b) => HoldsNamed(a, r) || HoldsNamed(b, r)
  }

  function KeepNamed(e: FilterExpr, rows: seq<Named>): seq<Named> {
    if rows == [] then []
    else (if HoldsNamed(e, rows[0]) then [rows[0]] else []) + KeepNamed(e, rows[1..])
  }

  lemma {:induction false} FilterMatches(e: FilterExpr, schema: seq<Field>, named: Named, row: Row)
    requires CompileFilter(e, schema).Ok? && RowMatches(named, row, schema)
    ensures Filters.Fits(CompileFilter(e, schema).value, |row|)
    ensures Filters.Holds(CompileFilter(e, schema).value, row) <==> HoldsNamed(e, named)
  {
    FilterFits(e, schema);
    if e.Cmp? {
      CellOf(named, row, schema, e.col);
    } else {
      FilterMatches(e.left, schema, named, row);
      FilterMatches(e.right, schema, named, row);
    }
  }

  lemma {:induction false} KeepMatches(e: FilterExpr, schema: seq<Field>, full: seq<Named>, rows: seq<Row>)
    requires CompileFilter(e, schema).Ok? && Matches(full, rows, schema)
    ensures var f := CompileFilter(e, schema).value;
            Filters.AllFit(f, rows) && Matches(KeepNamed(e, full), Filters.FilterRows(f, rows), schema)
    decreases |rows|
  {
    if rows != [] {
      FilterMatches(e, schema, full[0], rows[0]);
      KeepMatches(e, schema, full[1..], rows[1..]);
    }
  }

  // ----- computed columns -----

  function BranchNamed(b: BranchExpr, r: Named): Value {
    match b
    case ColRef(col) => Get(r, col)
    case LiteralBranch(v) => v
  }

  /** The value of a scalar expression; the environment gives the width in which AddConst wraps. */
  function EvalScalar(e: ScalarExpr, env: map<Name, ColumnType>, r: Named): Value {
    match e
    case ExtractMinute(col, _) => Scalars.CellFunction(Scalars.ExtractMinute(0), Get(r, col))
    case TimeTrunc(col, unit, _) => Scalars.CellFunction(Scalars.TimeTrunc(0, unit), Get(r, col))
    case Length(col, _) => Scalars.CellFunction(Scalars.Length(0), Get(r, col))
    case Literal(_, v, _) => v
    case AddConst(col, k, _) => Scalars.CellFunction(Scalars.AddConstant(ScalarType(e, env), 0, k), Get(r, col))
    case CaseWhen(cond, yes, no, _, _) => if HoldsNamed(cond, r) then BranchNamed(yes, r) else BranchNamed(no, r)
  }

  /** A row with the computed columns, each expression seeing the ones before it. */
  function ExtendNamed(es: seq<ScalarExpr>, env: map<Name, ColumnType>, r: Named): Named {
    if es == [] then r
    else
      var n := |es| - 1;
      var before := ExtendNamed(es[..n], env, r);
      before[es[n].output := EvalScalar(es[n], ProjectEnv(es[..n], env), before)]
  }

  lemma ScalarMatches(e: ScalarExpr, schema: seq<Field>, env: map<Name, ColumnType>, named: Named, row: Row)
    requires CompileScalar(e, schema).Ok? && RowMatches(named, row, schema) && SchemaIn(schema, env)
    ensures var f := CompileScalar(e, schema).value.0;
            Scalars.Fits(f, |row|) && Scalars.Meaning(f, row) == EvalScalar(e, env, named)
  {
    ScalarFits(e, schema);
    match e
    case Literal(_, _, _) =>
    case CaseWhen(cond, yes, no, _, _) =>
      FilterMatches(cond, schema, named, row);
      if yes.ColRef? { CellOf(named, row, schema, yes.col); }
      if no.ColRef? { CellOf(named, row, schema, no.col); }
    case _ => CellOf(named, row, schema, e.col);
  }

  lemma {:induction false} ExtendRowSnoc(fs: seq<Scalars.ScalarFunction>, f: Scalars.ScalarFunction, row: Row)
    requires ScalarsFit(fs + [f], |row|)
    ensures ScalarsFit(fs, |row|) && Scalars.Fits(f, |ExtendRow(fs, row)|)
    ensures ExtendRow(fs + [f], row) == ExtendRow(fs, row) + [Scalars.Meaning(f, ExtendRow(fs, row))]
    decreases |fs|
  {
    var all := fs + [f];
    assert all[|fs|] == f && forall j :: 0 <= j < |fs| ==> all[j] == fs[j];
    assert forall j :: 0 <= j < |all[1..]| ==> all[1..][j] == all[j + 1];
    if fs == [] {
      assert ExtendRow(all, row) == ExtendRow(all[1..], row + [Scalars.Meaning(f, row)]);
    } else {
      assert all[1..] == fs[1..] + [f] && all[0] == fs[0];
      ExtendRowSnoc(fs[1..], f, row + [Scalars.Meaning(fs[0], row)]);
    }
  }

  /** One more cell of a new name. */
  lemma RowMatchesSnoc(named: Named, row: Row, schema: seq<Field>, field: Field, v: Value)
    requires RowMatches(named, row, schema) && forall i :: 0 <= i < |schema| ==> schema[i].name != field.name
    ensures RowMatches(named[field.name := v], row + [v], schema + [field])
  {
  }

  lemma {:induction false} ScalarsMatch(es: seq<ScalarExpr>, schema: seq<Field>, env: map<Name, ColumnType>, named: Named, row: Row)
    requires CompileScalars(es, schema).Ok? && NoDateTrunc(es, CompileScalars(es, schema).value.1)
    requires SchemaIn(schema, env) && Fresh(Outputs(es), NamesOf(schema)) && RowMatches(named, row, schema)
    ensures var r := CompileScalars(es, schema).value;
            && ScalarsFit(r.0, |row|)
            && RowMatches(ExtendNamed(es, env, named), ExtendRow(r.0, row), schema + r.1)
    decreases |es|
  {
    ScalarsOk(es, schema, env);
    if es == [] {
      assert schema + [] == schema;
    } else {
      var n := |es| - 1;
      var front := CompileScalars(es[..n], schema).value;
      var last := CompileScalar(es[n], schema + front.1).value;
      FrontIsSound(es, schema);
      ScalarsMatch(es[..n], schema, env, named, row);
      ScalarsOk(es[..n], schema, env);
      ExtendRowSnoc(front.0, last.0, row);
      ScalarMatches(es[n], schema + front.1, ProjectEnv(es[..n], env), ExtendNamed(es[..n], env, named), ExtendRow(front.0, row));
      NewNameIsNew(es, schema);
      ScalarFits(es[n], schema + front.1);
      RowMatchesSnoc(ExtendNamed(es[..n], env, named), ExtendRow(front.0, row), schema + front.1, last.1,
                     Scalars.Meaning(last.0, ExtendRow(front.0, row)));
      Sequences.Regroup(schema, front.1, [last.1]);
    }
  }

  lemma NewNameIsNew(es: seq<ScalarExpr>, schema: seq<Field>)
    requires es != [] && CompileScalars(es, schema).Ok? && NoDateTrunc(es, CompileScalars(es, schema).value.1)
    requires Fresh(Outputs(es), NamesOf(schema))
    ensures var fields := schema + CompileScalars(es[..|es| - 1], schema).value.1;
            forall i :: 0 <= i < |fields| ==> fields[i].name != es[|es| - 1].output
  {
    var n := |es| - 1;
    var front := CompileScalars(es[..n], schema).value;
    FrontIsSound(es, schema);
    forall i | 0 <= i < |schema + front.1| ensures (schema + front.1)[i].name != es[n].output {
      if i < |schema| {
        assert NamesOf(schema)[i] == schema[i].name;
      } else {
        assert NamesOf(front.1)[i - |schema|] == front.1[i - |schema|].name;
      }
    }
  }

  // ----- dropping and reordering -----

  function DropNamed(names: seq<Name>, r: Named): Named {
    map n | n in r && n !in names :: r[n]
  }

  function OnlyNamed(names: seq<Name>, r: Named): Named {
    map n | n in r && n in names :: r[n]
  }

  lemma PickMatches(named: Named, named': Named, row: Row, schema: seq<Field>, ix: seq<nat>)
    requires RowMatches(named, row, schema) && forall j :: 0 <= j < |ix| ==> ix[j] < |schema|
    requires forall j :: 0 <= j < |ix| ==>
               schema[ix[j]].name in named' && named'[schema[ix[j]].name] == Get(named, schema[ix[j]].name)
    ensures RowMatches(named', PickRow(row, ix), FieldsAt(schema, ix))
  {
  }

  // ----- sorting -----

  predicate NamedBefore(keys: seq<OrderKey>, a: Named, b: Named) {
    if keys == [] then false
    else
      var x, y := Get(a, keys[0].col), Get(b, keys[0].col);
      if Less(x, y) then !keys[0].desc
      else if Less(y, x) then keys[0].desc
      else NamedBefore(keys[1..], a, b)
  }

  lemma {:induction false} BeforeMatches(keys: seq<OrderKey>, schema: seq<Field>, ix: seq<nat>, a: Named, ra: Row, b: Named, rb: Row)
    requires |ix| == |keys| && RowMatches(a, ra, schema) && RowMatches(b, rb, schema)
    requires forall k :: 0 <= k < |keys| ==> IndexOf(schema, keys[k].col) == Some(ix[k])
    ensures Before(SortKeys(keys, ix), ra, rb) <==> NamedBefore(keys, a, b)
    decreases |keys|
  {
    if keys != [] {
      CellOf(a, ra, schema, keys[0].col);
      CellOf(b, rb, schema, keys[0].col);
      BeforeMatches(keys[1..], schema, ix[1..], a, ra, b, rb);
      assert SortKeys(keys, ix)[1..] == SortKeys(keys[1..], ix[1..]);
    }
  }

  function NamedOrder(keys: seq<OrderKey>): Rankings.Comparator<Named> {
    (a: Named, b: Named) => NamedBefore(keys, a, b)
  }

  // ----- grouping -----

  function NamedKey(names: seq<Name>): Named -> seq<Value> {
    (r: Named) => seq(|names|, (i: int) requires 0 <= i < |names| => Get(r, names[i]))
  }

  /** The aggregate on a one-column table. */
  function AggOf(e: AggExpr, env: map<Name, ColumnType>): Aggregates.AggFunction {
    var ty := if e.col in env then env[e.col] else INT64;
    match e.kind
    case CountRows => Aggregates.Count
    case SumOf => Aggregates.Sum(0, ty)
    case MinOf => Aggregates.Min(0, ty)
    case MaxOf => Aggregates.Max(0, ty)
    case DistinctOf => Aggregates.DistinctCount(0, ty)
  }

  /** One column of named rows. */
  function ColumnOf(rows: seq<Named>, name: Name): (r: seq<Row>)
    ensures |r| == |rows| && forall i :: 0 <= i < |r| ==> r[i] == [Get(rows[i], name)]
  {
    seq(|rows|, i requires 0 <= i < |rows| => [Get(rows[i], name)])
  }

  /** `v` is the aggregate of the named column over the rows. */
  ghost predicate IsAggNamed(e: AggExpr, env: map<Name, ColumnType>, v: Value, rows: seq<Named>) {
    && Aggregates.AllRead(AggOf(e, env), ColumnOf(rows, e.col))
    && Aggregates.IsAggregate(AggOf(e, env), v, ColumnOf(rows, e.col))
  }

  ghost predicate AggsNamed(es: seq<AggExpr>, env: map<Name, ColumnType>, row: Named, rows: seq<Named>) {
    forall a :: 0 <= a < |es| ==> es[a].output in row && IsAggNamed(es[a], env, row[es[a].output], rows)
  }

  /** The row of a group: its key under the group-by names, and the aggregates of its members. */
  ghost predicate GroupNamed(groupBy: seq<Name>, es: seq<AggExpr>, env: map<Name, ColumnType>, row: Named, k: seq<Value>,
                             members: seq<Named>) {
    && |k| == |groupBy| && (forall i :: 0 <= i < |groupBy| ==> groupBy[i] in row && row[groupBy[i]] == k[i])
    && AggsNamed(es, env, row, members)
  }

  ghost predicate IsGroupedNamed(groupBy: seq<Name>, es: seq<AggExpr>, env: map<Name, ColumnType>, rows: seq<Named>, input: seq<Named>) {
    exists ks: seq<seq<Value>> ::
      && |ks| == |rows| && Groupings.Distinct(ks) && Groupings.KeysCover(NamedKey(groupBy), ks, input)
      && forall g :: 0 <= g < |ks| ==>
           GroupNamed(groupBy, es, env, rows[g], ks[g], Groupings.WithKey(NamedKey(groupBy), ks[g], input))
  }

  // ----- the meaning of a plan -----

  /** All rows of the table, chunk by chunk, with all fields. */
  ghost function TableRows(chunks: seq<Chunk>): seq<Row>
    requires forall j :: 0 <= j < |chunks| ==> Aligned(chunks[j].columns, chunks[j].size)
  {
    if chunks == [] then []
    else
      var n := |chunks| - 1;
      TableRows(chunks[..n]) + HeldRows(chunks[n].columns, chunks[n].size)
  }

  ghost predicate Widths(rows: seq<Row>, width: nat) {
    forall i :: 0 <= i < |rows| ==> |rows[i]| == width
  }

  ghost function NameAll(fields: seq<Field>, rows: seq<Row>): (r: seq<Named>)
    requires Widths(rows, |fields|)
    ensures |r| == |rows|
  {
    seq(|rows|, i requires 0 <= i < |rows| => NameRow(fields, rows[i]))
  }

  lemma {:induction false} TableRowsWidth(chunks: seq<Chunk>, width: nat)
    requires forall j :: 0 <= j < |chunks| ==> Aligned(chunks[j].columns, chunks[j].size) && |chunks[j].columns| == width
    ensures Widths(TableRows(chunks), width)
    decreases |chunks|
  {
    if chunks != [] {
      TableRowsWidth(chunks[..|chunks| - 1], width);
    }
  }

  /**
   `rows` is a result the plan may have.  A scan may deliver the table's rows in any order; sorting leaves ties
   free; a limit keeps a prefix of what its child delivers; groups come in any order.
   */
  ghost predicate Means(plan: Plan, rows: seq<Named>) {
    match plan
    case Scan(table, _) =>
      TableOk(table) && Widths(TableRows(table.chunks), |table.fields|)
      && multiset(rows) == multiset(NameAll(table.fields, TableRows(table.chunks)))
    case Filter(child, cond) => exists r0: seq<Named> :: Means(child, r0) && rows == KeepNamed(cond, r0)
    case Limit(child, n) => exists r0: seq<Named> :: Means(child, r0) && rows == Take(r0, Some(n))
    case Project(child, es) =>
      exists r0: seq<Named> :: Means(child, r0) && rows == Groupings.Mapped(r => ExtendNamed(es, Env(child), r), r0)
    case Drop(child, names) => exists r0: seq<Named> :: Means(child, r0) && rows == Groupings.Mapped(r => DropNamed(names, r), r0)
    case Reorder(child, names) => exists r0: seq<Named> :: Means(child, r0) && rows == Groupings.Mapped(r => OnlyNamed(names, r), r0)
    case OrderBy(child, keys, limit, offset) =>
      exists r0: seq<Named>, p: seq<Named> ::
        Means(child, r0) && Rankings.Arranges(NamedOrder(keys), p, r0) && rows == OrderBys.Window(p, limit, offset)
    case Aggregate(child, groupBy, es) =>
      exists r0: seq<Named> ::
        Means(child, r0) &&
        if groupBy == [] then |rows| == 1 && AggsNamed(es, Env(child), rows[0], r0)
        else IsGroupedNamed(groupBy, es, Env(child), rows, r0)
  }
}
