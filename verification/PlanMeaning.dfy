/**
 The engine's end-to-end contract: compiling a plan and running its pipelines in order gives rows of the plan's
 relational meaning, on the columns of the final schema.
 */
module PlanMeaning {
  import opened Values
  import opened Wrappers
  import opened Batches
  import opened Builders
  import opened Names
  import opened Operators
  import opened Orderings
  import opened Execution
  import opened PipelineRows
  import opened Plans
  import opened PlanShapes
  import opened PlanForms
  import opened NamedRows
  import opened PlanRuns
  import Aggregates
  import Filters
  import GlobalAggregation
  import Groupings
  import GroupBys = GroupBy
  import OrderBys = OrderBy
  import P = Pipelines
  import Rankings
  import Scalars
  import Sequences

  /** What the current pipeline makes of source rows. */
  ghost function BuiltOutcome(b: Built, r: seq<Row>): seq<Row>
    requires ChainOk(b.source, b.transforms, b.done) && AllWidth(r, SourceShape(b.source, b.done).width)
  {
    Outcome(b.source, b.transforms, b.done, r)
  }

  // ----- transforms -----

  /** A pushed transform acts on what the pipeline made so far. */
  lemma PushOutcome(b: Built, t: Transform, schema: seq<Field>, env: map<Name, ColumnType>, r: seq<Row>)
    requires BuiltOk(b, env) && Open(b) && AllWidth(r, SourceShape(b.source, b.done).width)
    requires ChainOk(b.source, Push(b, t, schema).transforms, b.done)
    ensures var before := BuiltOutcome(b, r);
            && AllWidth(before, |b.schema|)
            && (t.Limit? ==> BuiltOutcome(Push(b, t, schema), r) == Take(before, Some(t.limit)))
            && (!t.Limit? ==>
                  Fits(t, Shape(|b.schema|, true)) && BuiltOutcome(Push(b, t, schema), r) == ApplyToRows(t, before, |b.schema|))
  {
    var sh := SourceShape(b.source, b.done);
    BodyOfOpen(b, t);
    ChainSnoc(b.transforms, t, sh, SourceTypes(b.source, b.done));
    assert |TypesIn(b.schema)| == |b.schema|;
    if !t.Limit? {
      var ts := b.transforms + [t];
      assert ts[..|ts| - 1] == b.transforms && ts[|ts| - 1] == t;
      ApplyToRowsWidth(t, RowsThrough(b.transforms, r, sh), ShapeAfter(b.transforms, sh));
    }
  }

  lemma FilterStep(plan: Plan, b: Built, full: seq<Named>, rows: seq<Row>)
    requires plan.Filter? && CompileFilter(plan.cond, b.schema).Ok? && Means(plan.child, full) && Matches(full, rows, b.schema)
    requires AllWidth(rows, |b.schema|)
    ensures var t := Operators.Filter(CompileFilter(plan.cond, b.schema).value);
            && Fits(t, Shape(|b.schema|, true))
            && Means(plan, KeepNamed(plan.cond, full))
            && Matches(KeepNamed(plan.cond, full), ApplyToRows(t, rows, |b.schema|), b.schema)
  {
    FilterFits(plan.cond, b.schema);
    KeepMatches(plan.cond, b.schema, full, rows);
  }

  lemma ProjectStep(plan: Plan, b: Built, full: seq<Named>, rows: seq<Row>) returns (full': seq<Named>)
    requires plan.Project? && CompileScalars(plan.scalars, b.schema).Ok? && Means(plan.child, full)
    requires SoundNode(plan, b) && SchemaIn(b.schema, Env(plan.child))
    requires Matches(full, rows, b.schema) && AllWidth(rows, |b.schema|)
    ensures var r := CompileScalars(plan.scalars, b.schema).value;
            Fits(Operators.Scalar(r.0), Shape(|b.schema|, true))
            && Means(plan, full')
            && Matches(full', ApplyToRows(Operators.Scalar(r.0), rows, |b.schema|), b.schema + r.1)
  {
    var r := CompileScalars(plan.scalars, b.schema).value;
    ScalarsOk(plan.scalars, b.schema, Env(plan.child));
    var f := (n: Named) => ExtendNamed(plan.scalars, Env(plan.child), n);
    full' := Groupings.Mapped(f, full);
    var out := ApplyToRows(Operators.Scalar(r.0), rows, |b.schema|);
    forall i | 0 <= i < |rows| ensures RowMatches(full'[i], out[i], b.schema + r.1) {
      ScalarsMatch(plan.scalars, b.schema, Env(plan.child), full[i], rows[i]);
    }
    assert Means(plan, full');
  }

  lemma DropStep(plan: Plan, b: Built, full: seq<Named>, rows: seq<Row>) returns (full': seq<Named>)
    requires plan.Drop? && Means(plan.child, full) && Matches(full, rows, b.schema) && AllWidth(rows, |b.schema|)
    ensures var stay := StayIndices(b.schema, plan.names);
            Fits(Operators.Drop(stay), Shape(|b.schema|, true)) && Means(plan, full')
            && Matches(full', ApplyToRows(Operators.Drop(stay), rows, |b.schema|), FieldsAt(b.schema, stay))
  {
    var stay := StayIndices(b.schema, plan.names);
    var f := (n: Named) => DropNamed(plan.names, n);
    full' := Groupings.Mapped(f, full);
    var out := ApplyToRows(Operators.Drop(stay), rows, |b.schema|);
    forall i | 0 <= i < |rows| ensures RowMatches(full'[i], out[i], FieldsAt(b.schema, stay)) {
      DropOne(plan.names, b.schema, stay, full[i], rows[i]);
    }
    MeansDrop(plan, full);
  }

  lemma DropOne(names: seq<Name>, schema: seq<Field>, stay: seq<nat>, named: Named, row: Row)
    requires RowMatches(named, row, schema)
    requires forall j :: 0 <= j < |stay| ==> stay[j] < |schema| && schema[stay[j]].name !in names
    ensures RowMatches(DropNamed(names, named), PickRow(row, stay), FieldsAt(schema, stay))
  {
    PickMatches(named, DropNamed(names, named), row, schema, stay);
  }

  lemma MeansDrop(plan: Plan, full: seq<Named>)
    requires plan.Drop? && Means(plan.child, full)
    ensures Means(plan, Groupings.Mapped((n: Named) => DropNamed(plan.names, n), full))
  {
  }

  lemma ReorderStep(plan: Plan, b: Built, full: seq<Named>, rows: seq<Row>, ix: seq<nat>) returns (full': seq<Named>)
    requires plan.Reorder? && IndicesOf(b.schema, plan.names) == Ok(ix)
    requires Means(plan.child, full) && Matches(full, rows, b.schema) && AllWidth(rows, |b.schema|)
    ensures forall j :: 0 <= j < |ix| ==> ix[j] < |b.schema|
    ensures Fits(Operators.Reorder(ix), Shape(|b.schema|, true)) && Means(plan, full')
    ensures Matches(full', ApplyToRows(Operators.Reorder(ix), rows, |b.schema|), FieldsAt(b.schema, ix))
  {
    forall j | 0 <= j < |ix| ensures ix[j] < |b.schema| && b.schema[ix[j]].name == plan.names[j] {
      assert IndexOf(b.schema, plan.names[j]) == Some(ix[j]);
    }
    var f := (n: Named) => OnlyNamed(plan.names, n);
    full' := Groupings.Mapped(f, full);
    var out := ApplyToRows(Operators.Reorder(ix), rows, |b.schema|);
    forall i | 0 <= i < |rows| ensures RowMatches(full'[i], out[i], FieldsAt(b.schema, ix)) {
      PickMatches(full[i], full'[i], rows[i], b.schema, ix);
    }
    assert Means(plan, full');
  }

  // ----- sorting -----

  lemma RearrangedMatch(full: seq<Named>, rows: seq<Row>, schema: seq<Field>, p: seq<Row>) returns (q: seq<Named>)
    requires Matches(full, rows, schema) && multiset(p) == multiset(rows)
    ensures multiset(q) == multiset(full) && Matches(q, p, schema)
  {
    var at;
    q, at := Sequences.RearrangeWith(rows, full, p);
  }

  lemma WindowMatches(full: seq<Named>, rows: seq<Row>, schema: seq<Field>, limit: Option<nat>, offset: Option<nat>)
    requires Matches(full, rows, schema)
    ensures Matches(OrderBys.Window(full, limit, offset), OrderBys.Window(rows, limit, offset), schema)
  {
  }

  lemma SortedMatches(keys: seq<OrderKey>, schema: seq<Field>, ix: seq<nat>, q: seq<Named>, p: seq<Row>)
    requires |ix| == |keys| && Matches(q, p, schema)
    requires forall k :: 0 <= k < |keys| ==> IndexOf(schema, keys[k].col) == Some(ix[k])
    requires Rankings.Sorted(RowOrder(SortKeys(keys, ix)), p)
    ensures Rankings.Sorted(NamedOrder(keys), q)
  {
    forall i, j | 0 <= i < j < |q| ensures !NamedOrder(keys)(q[j], q[i]) {
      BeforeMatches(keys, schema, ix, q[j], p[j], q[i], p[i]);
      assert !RowOrder(SortKeys(keys, ix))(p[j], p[i]);
    }
  }

  /** A sort's result is a result of ORDER BY on the named rows. */
  lemma SortStep(plan: Plan, schema: seq<Field>, ix: seq<nat>, full: seq<Named>, rows: seq<Row>, out: seq<Row>)
    returns (full': seq<Named>)
    requires plan.OrderBy? && IndicesOf(schema, KeyNames(plan.keys)) == Ok(ix)
    requires Means(plan.child, full) && Matches(full, rows, schema)
    requires OrderBys.Delivers(SortKeys(plan.keys, ix), out, rows, plan.limit, plan.offset)
    requires OrderBys.SizeT(plan.limit) && OrderBys.SizeT(plan.offset) && OrderBys.NoWrap(plan.limit, plan.offset, |rows|)
    ensures Means(plan, full') && Matches(full', out, schema)
  {
    var keys := SortKeys(plan.keys, ix);
    OrderBys.DeliversLegal(keys, out, rows, plan.limit, plan.offset);
    var p :| Rankings.Arranges(RowOrder(keys), p, rows) && out == OrderBys.Window(p, plan.limit, plan.offset);
    var q := RearrangedMatch(full, rows, schema, p);
    forall k | 0 <= k < |plan.keys| ensures IndexOf(schema, plan.keys[k].col) == Some(ix[k]) {
      assert IndexOf(schema, KeyNames(plan.keys)[k]) == Some(ix[k]);
    }
    SortedMatches(plan.keys, schema, ix, q, p);
    WindowMatches(q, p, schema, plan.limit, plan.offset);
    full' := OrderBys.Window(q, plan.limit, plan.offset);
    MeansSort(plan, full, q);
  }

  lemma MeansSort(plan: Plan, full: seq<Named>, q: seq<Named>)
    requires plan.OrderBy? && Means(plan.child, full) && Rankings.Arranges(NamedOrder(plan.keys), q, full)
    ensures Means(plan, OrderBys.Window(q, plan.limit, plan.offset))
  {
  }

  // ----- aggregation -----

  /** An aggregate only looks at its column. */
  lemma {:induction false} SameColumnSum(xs: seq<Row>, c: nat, ys: seq<Row>, d: nat)
    requires |xs| == |ys| && forall i :: 0 <= i < |xs| ==> c < |xs[i]| && d < |ys[i]| && xs[i][c] == ys[i][d]
    ensures Aggregates.SumOf(xs, c) == Aggregates.SumOf(ys, d)
    decreases |xs|
  {
    if xs != [] {
      SameColumnSum(xs[..|xs| - 1], c, ys[..|ys| - 1], d);
    }
  }

  lemma SameColumnAggregate(f: Aggregates.AggFunction, rows: seq<Row>, g: Aggregates.AggFunction, rows': seq<Row>, v: Value)
    requires Aggregates.AllRead(f, rows) && Aggregates.IsAggregate(f, v, rows) && |rows'| == |rows|
    requires (f.Count? && g.Count?)
          || (!f.Count? && !g.Count? && g == f.(col := g.col)
              && forall i :: 0 <= i < |rows| ==> g.col < |rows'[i]| && rows'[i][g.col] == rows[i][f.col])
    ensures Aggregates.AllRead(g, rows') && Aggregates.IsAggregate(g, v, rows')
  {
    if !f.Count? {
      SameColumnSum(rows, f.col, rows', g.col);
      assert Aggregates.ValuesOf(rows, f.col) == Aggregates.ValuesOf(rows', g.col);
    }
  }

  /** A compiled aggregate of positional rows is the plan's aggregate of the named rows. */
  lemma AggregateMatches(e: AggExpr, schema: seq<Field>, env: map<Name, ColumnType>, full: seq<Named>, rows: seq<Row>, v: Value)
    requires CompileAgg(e, schema).Ok? && SchemaIn(schema, env) && Matches(full, rows, schema)
    requires Aggregates.AllRead(CompileAgg(e, schema).value, rows) && Aggregates.IsAggregate(CompileAgg(e, schema).value, v, rows)
    ensures IsAggNamed(e, env, v, full)
  {
    var f, g := CompileAgg(e, schema).value, AggOf(e, env);
    if !e.kind.CountRows? {
      forall i | 0 <= i < |rows| ensures ColumnOf(full, e.col)[i][0] == rows[i][f.col] {
        CellOf(full[i], rows[i], schema, e.col);
      }
    }
    SameColumnAggregate(f, rows, g, ColumnOf(full, e.col), v);
  }

  lemma AggregatesMatch(es: seq<AggExpr>, fs: seq<Aggregates.AggFunction>, schema: seq<Field>, env: map<Name, ColumnType>,
                        full: seq<Named>, rows: seq<Row>, cells: seq<Value>, named: Named)
    requires CompileAggs(es, schema) == Ok(fs) && SchemaIn(schema, env) && Matches(full, rows, schema) && |cells| == |fs|
    requires forall a :: 0 <= a < |fs| ==> Aggregates.AllRead(fs[a], rows) && Aggregates.IsAggregate(fs[a], cells[a], rows)
    requires forall a :: 0 <= a < |es| ==> es[a].output in named && named[es[a].output] == cells[a]
    ensures AggsNamed(es, env, named, full)
  {
    forall a | 0 <= a < |es| ensures IsAggNamed(es[a], env, named[es[a].output], full) {
      assert CompileAgg(es[a], schema) == Ok(fs[a]);
      AggregateMatches(es[a], schema, env, full, rows, cells[a]);
    }
  }

  /** A row under its schema, when equal names come with equal cells. */
  lemma NameRowMatches(schema: seq<Field>, row: Row)
    requires |row| == |schema|
    requires forall i, j :: 0 <= i < |schema| && 0 <= j < |schema| && schema[i].name == schema[j].name ==> row[i] == row[j]
    ensures RowMatches(NameRow(schema, row), row, schema)
  {
    forall c | 0 <= c < |schema|
      ensures schema[c].name in NameRow(schema, row) && NameRow(schema, row)[schema[c].name] == row[c]
    {
      NameRowFirst(schema, row, schema[c].name);
    }
  }

  lemma TotalStep(plan: Plan, b: Built, fs: seq<Aggregates.AggFunction>, full: seq<Named>, rows: seq<Row>, out: Row)
    returns (named: Named)
    requires plan.Aggregate? && plan.groupBy == [] && CompileAggs(plan.exprs, b.schema) == Ok(fs)
    requires SchemaIn(b.schema, Env(plan.child)) && Fresh(AggOutputs(plan.exprs), [])
    requires Means(plan.child, full) && Matches(full, rows, b.schema) && GlobalAggregation.IsTotal(fs, out, rows)
    ensures Means(plan, [named]) && RowMatches(named, out, AggFields(plan.exprs, fs))
  {
    var fields, es := AggFields(plan.exprs, fs), plan.exprs;
    forall i, j | 0 <= i < |es| && 0 <= j < |es| && fields[i].name == fields[j].name ensures i == j {
      assert AggOutputs(es)[i] == es[i].output && AggOutputs(es)[j] == es[j].output;
    }
    named := NameRow(fields, out);
    NameRowMatches(fields, out);
    forall a | 0 <= a < |es| ensures es[a].output in named && named[es[a].output] == out[a] {
      assert fields[a].name == es[a].output;
    }
    AggregatesMatch(es, fs, b.schema, Env(plan.child), full, rows, out, named);
    assert Means(plan, [named]);
  }

  /** Selecting by key keeps rows and their named versions together. */
  lemma {:induction false} SelectionMatches(cols: seq<nat>, names: seq<Name>, schema: seq<Field>, k: seq<Value>,
                                            full: seq<Named>, rows: seq<Row>)
    requires Matches(full, rows, schema)
    requires forall i :: 0 <= i < |rows| ==> GroupBys.KeyFn(cols)(rows[i]) == NamedKey(names)(full[i])
    ensures Matches(Groupings.WithKey(NamedKey(names), k, full), Groupings.WithKey(GroupBys.KeyFn(cols), k, rows), schema)
    decreases |rows|
  {
    if rows != [] {
      var n := |rows| - 1;
      var key, keyOf := GroupBys.KeyFn(cols), NamedKey(names);
      SelectionMatches(cols, names, schema, k, full[..n], rows[..n]);
      assert Groupings.WithKey(key, k, rows)
          == Groupings.WithKey(key, k, rows[..n]) + (if key(rows[n]) == k then [rows[n]] else []);
      assert Groupings.WithKey(keyOf, k, full)
          == Groupings.WithKey(keyOf, k, full[..n]) + (if keyOf(full[n]) == k then [full[n]] else []);
      MatchesConcat(Groupings.WithKey(keyOf, k, full[..n]), Groupings.WithKey(key, k, rows[..n]), full[n], rows[n], schema);
    }
  }

  lemma MatchesConcat(full: seq<Named>, rows: seq<Row>, named: Named, row: Row, schema: seq<Field>)
    requires Matches(full, rows, schema) && RowMatches(named, row, schema)
    ensures Matches(full + [named], rows + [row], schema) && Matches(full + [], rows + [], schema)
  {
  }

  lemma KeyMatches(schema: seq<Field>, names: seq<Name>, ix: seq<nat>, named: Named, row: Row)
    requires IndicesOf(schema, names) == Ok(ix) && RowMatches(named, row, schema)
    ensures GroupBys.InRow(ix, row) && GroupBys.KeyFn(ix)(row) == NamedKey(names)(named)
  {
    forall k | 0 <= k < |ix| ensures ix[k] < |row| && row[ix[k]] == Get(named, names[k]) {
      assert IndexOf(schema, names[k]) == Some(ix[k]);
      CellOf(named, row, schema, names[k]);
    }
  }

  /** The result row of one group, by name. */
  lemma GroupStep(plan: Plan, schema: seq<Field>, ix: seq<nat>, fs: seq<Aggregates.AggFunction>, k: seq<Value>, out: Row,
                  members: seq<Named>, rows: seq<Row>)
    returns (named: Named)
    requires plan.Aggregate? && CompileAggs(plan.exprs, schema) == Ok(fs) && IndicesOf(schema, plan.groupBy) == Ok(ix)
    requires SchemaIn(schema, Env(plan.child)) && Fresh(AggOutputs(plan.exprs), plan.groupBy)
    requires |k| == |ix| && (forall i, j :: 0 <= i < |ix| && 0 <= j < |ix| && ix[i] == ix[j] ==> k[i] == k[j])
    requires Matches(members, rows, schema) && GroupBys.IsGroupRow(fs, out, k, rows)
    ensures (forall j :: 0 <= j < |ix| ==> ix[j] < |schema|)
    ensures GroupNamed(plan.groupBy, plan.exprs, Env(plan.child), named, k, members)
    ensures RowMatches(named, out, FieldsAt(schema, ix) + AggFields(plan.exprs, fs))
  {
    GroupFieldNames(schema, plan.groupBy, plan.exprs, ix, fs);
    var fields := FieldsAt(schema, ix) + AggFields(plan.exprs, fs);
    EqualNamesEqualCells(plan, schema, ix, fs, k, out);
    named := NameRow(fields, out);
    NameRowMatches(fields, out);
    GroupCells(fields, plan.groupBy, plan.exprs, named, k, out);
    GroupAggregates(plan.exprs, fs, schema, Env(plan.child), members, rows, k, out, named);
  }

  /** Keys first, then outputs. */
  lemma GroupFieldNames(schema: seq<Field>, groupBy: seq<Name>, es: seq<AggExpr>, ix: seq<nat>, fs: seq<Aggregates.AggFunction>)
    requires IndicesOf(schema, groupBy) == Ok(ix) && |fs| == |es|
    ensures |ix| == |groupBy| && forall j :: 0 <= j < |ix| ==> ix[j] < |schema|
    ensures var fields := FieldsAt(schema, ix) + AggFields(es, fs);
            && (forall j :: 0 <= j < |ix| ==> fields[j].name == groupBy[j])
            && forall a :: 0 <= a < |es| ==> fields[|ix| + a].name == es[a].output
  {
    forall j | 0 <= j < |ix| ensures ix[j] < |schema| && schema[ix[j]].name == groupBy[j] {
      assert IndexOf(schema, groupBy[j]) == Some(ix[j]);
    }
  }

  /** A row under key names and outputs, cell by cell. */
  lemma GroupCells(fields: seq<Field>, groupBy: seq<Name>, es: seq<AggExpr>, named: Named, k: seq<Value>, out: Row)
    requires RowMatches(named, out, fields) && |fields| == |groupBy| + |es| && |k| == |groupBy| && out[..|k|] == k
    requires forall j :: 0 <= j < |groupBy| ==> fields[j].name == groupBy[j]
    requires forall a :: 0 <= a < |es| ==> fields[|k| + a].name == es[a].output
    ensures forall i :: 0 <= i < |groupBy| ==> groupBy[i] in named && named[groupBy[i]] == k[i]
    ensures forall a :: 0 <= a < |es| ==> es[a].output in named && named[es[a].output] == out[|k|..][a]
  {
    forall i | 0 <= i < |groupBy| ensures groupBy[i] in named && named[groupBy[i]] == k[i] {
      assert fields[i].name in named && out[..|k|][i] == out[i];
    }
    forall a | 0 <= a < |es| ensures es[a].output in named && named[es[a].output] == out[|k|..][a] {
      assert fields[|k| + a].name in named;
    }
  }

  lemma GroupAggregates(es: seq<AggExpr>, fs: seq<Aggregates.AggFunction>, schema: seq<Field>, env: map<Name, ColumnType>,
                        members: seq<Named>, rows: seq<Row>, k: seq<Value>, out: Row, named: Named)
    requires CompileAggs(es, schema) == Ok(fs) && SchemaIn(schema, env) && Matches(members, rows, schema)
    requires GroupBys.IsGroupRow(fs, out, k, rows)
    requires forall a :: 0 <= a < |es| ==> es[a].output in named && named[es[a].output] == out[|k|..][a]
    ensures AggsNamed(es, env, named, members)
  {
    var cells := out[|k|..];
    forall a | 0 <= a < |fs| ensures Aggregates.AllRead(fs[a], rows) && Aggregates.IsAggregate(fs[a], cells[a], rows) {
      assert cells[a] == out[|k| + a];
    }
    AggregatesMatch(es, fs, schema, env, members, rows, cells, named);
  }

  lemma EqualNamesEqualCells(plan: Plan, schema: seq<Field>, ix: seq<nat>, fs: seq<Aggregates.AggFunction>, k: seq<Value>, out: Row)
    requires plan.Aggregate? && CompileAggs(plan.exprs, schema) == Ok(fs) && IndicesOf(schema, plan.groupBy) == Ok(ix)
    requires forall j :: 0 <= j < |ix| ==> ix[j] < |schema|
    requires Fresh(AggOutputs(plan.exprs), plan.groupBy)
    requires |k| == |ix| && (forall i, j :: 0 <= i < |ix| && 0 <= j < |ix| && ix[i] == ix[j] ==> k[i] == k[j])
    requires |out| == |k| + |fs| && out[..|k|] == k
    ensures var fields := FieldsAt(schema, ix) + AggFields(plan.exprs, fs);
            forall i, j :: 0 <= i < |fields| && 0 <= j < |fields| && fields[i].name == fields[j].name ==> out[i] == out[j]
  {
    var fields, es, n := FieldsAt(schema, ix) + AggFields(plan.exprs, fs), plan.exprs, |ix|;
    forall i | 0 <= i < n ensures schema[ix[i]].name == plan.groupBy[i] {
      assert IndexOf(schema, plan.groupBy[i]) == Some(ix[i]);
    }
    assert NamesOf(fields) == plan.groupBy + AggOutputs(es);
    forall i, j | 0 <= i < n && 0 <= j < n && plan.groupBy[i] == plan.groupBy[j] ensures k[i] == k[j] {
      assert IndexOf(schema, plan.groupBy[i]) == Some(ix[i]) && IndexOf(schema, plan.groupBy[j]) == Some(ix[j]);
    }
    assert out == k + out[n..];
    EqualCells(plan.groupBy, AggOutputs(es), k, out[n..]);
    forall i, j | 0 <= i < |fields| && 0 <= j < |fields| && fields[i].name == fields[j].name ensures out[i] == out[j] {
      assert NamesOf(fields)[i] == NamesOf(fields)[j];
    }
  }

  /** Key names that repeat carry one value, and outputs are new names. */
  lemma EqualCells(keyNames: seq<Name>, outputs: seq<Name>, k: seq<Value>, cells: seq<Value>)
    requires |k| == |keyNames| && |cells| == |outputs| && Fresh(outputs, keyNames)
    requires forall i, j :: 0 <= i < |k| && 0 <= j < |k| && keyNames[i] == keyNames[j] ==> k[i] == k[j]
    ensures var names, row := keyNames + outputs, k + cells;
            forall i, j :: 0 <= i < |names| && 0 <= j < |names| && names[i] == names[j] ==> row[i] == row[j]
  {
    var names, row, n := keyNames + outputs, k + cells, |k|;
    forall i, j | 0 <= i < |names| && 0 <= j < |names| && names[i] == names[j] ensures row[i] == row[j] {
      if i < n && j >= n {
        assert false;
      } else if i >= n && j < n {
        assert false;
      } else if i >= n {
        assert outputs[i - n] == outputs[j - n];
      }
    }
  }

  /** GROUP BY's result rows are a grouping of the named rows. */
  lemma GroupedStep(plan: Plan, schema: seq<Field>, ix: seq<nat>, fs: seq<Aggregates.AggFunction>, full: seq<Named>,
                    rows: seq<Row>, out: seq<Row>)
    returns (full': seq<Named>)
    requires plan.Aggregate? && plan.groupBy != [] && CompileAggs(plan.exprs, schema) == Ok(fs)
    requires IndicesOf(schema, plan.groupBy) == Ok(ix) && forall j :: 0 <= j < |ix| ==> ix[j] < |schema|
    requires SchemaIn(schema, Env(plan.child)) && Fresh(AggOutputs(plan.exprs), plan.groupBy)
    requires Means(plan.child, full) && Matches(full, rows, schema) && GroupBys.IsGroupBy(ix, fs, out, rows)
    ensures Means(plan, full') && Matches(full', out, FieldsAt(schema, ix) + AggFields(plan.exprs, fs))
  {
    var ks := GroupKeys(ix, fs, out, rows);
    KeysAgree(schema, plan.groupBy, ix, full, rows);
    var member := MemberOf(plan, FieldsAt(schema, ix) + AggFields(plan.exprs, fs), full, ks, out);
    forall g: nat | g < |out| ensures Sequences.Possible(member, g) {
      var named := MemberStep(plan, schema, ix, fs, full, rows, ks, out, g);
      assert member(g, named);
    }
    full' := Sequences.Choose(|out|, member);
    MembersAre(plan, FieldsAt(schema, ix) + AggFields(plan.exprs, fs), full, ks, out, full');
    Groupings.SameCover(GroupBys.KeyFn(ix), NamedKey(plan.groupBy), ks, rows, full);
    MeansGroups(plan, full, full', ks);
  }

  lemma KeysAgree(schema: seq<Field>, names: seq<Name>, ix: seq<nat>, full: seq<Named>, rows: seq<Row>)
    requires IndicesOf(schema, names) == Ok(ix) && Matches(full, rows, schema)
    ensures forall i :: 0 <= i < |rows| ==> GroupBys.KeyFn(ix)(rows[i]) == NamedKey(names)(full[i])
  {
    forall i | 0 <= i < |rows| ensures GroupBys.KeyFn(ix)(rows[i]) == NamedKey(names)(full[i]) {
      KeyMatches(schema, names, ix, full[i], rows[i]);
    }
  }

  ghost predicate MemberGroup(plan: Plan, named: Named, k: seq<Value>, full: seq<Named>)
    requires plan.Aggregate?
  {
    GroupNamed(plan.groupBy, plan.exprs, Env(plan.child), named, k, Groupings.WithKey(NamedKey(plan.groupBy), k, full))
  }

  /** `named` can stand for result row g. */
  ghost function MemberOf(plan: Plan, schema: seq<Field>, full: seq<Named>, ks: seq<seq<Value>>, out: seq<Row>): (nat, Named) -> bool
    requires plan.Aggregate?
  {
    (g: nat, named: Named) => g < |ks| && g < |out| && RowMatches(named, out[g], schema) && MemberGroup(plan, named, ks[g], full)
  }

  lemma MembersAre(plan: Plan, schema: seq<Field>, full: seq<Named>, ks: seq<seq<Value>>, out: seq<Row>, full': seq<Named>)
    requires plan.Aggregate? && |full'| == |out| == |ks|
    requires forall g: nat :: g < |out| ==> MemberOf(plan, schema, full, ks, out)(g, full'[g])
    ensures Matches(full', out, schema) && forall h :: 0 <= h < |ks| ==> MemberGroup(plan, full'[h], ks[h], full)
  {
    forall h | 0 <= h < |out| ensures RowMatches(full'[h], out[h], schema) && MemberGroup(plan, full'[h], ks[h], full) {
      assert MemberOf(plan, schema, full, ks, out)(h, full'[h]);
    }
  }

  lemma MemberStep(plan: Plan, schema: seq<Field>, ix: seq<nat>, fs: seq<Aggregates.AggFunction>, full: seq<Named>,
                   rows: seq<Row>, ks: seq<seq<Value>>, out: seq<Row>, g: nat)
    returns (named: Named)
    requires plan.Aggregate? && CompileAggs(plan.exprs, schema) == Ok(fs) && IndicesOf(schema, plan.groupBy) == Ok(ix)
    requires forall j :: 0 <= j < |ix| ==> ix[j] < |schema|
    requires SchemaIn(schema, Env(plan.child)) && Fresh(AggOutputs(plan.exprs), plan.groupBy) && Matches(full, rows, schema)
    requires forall i :: 0 <= i < |rows| ==> GroupBys.KeyFn(ix)(rows[i]) == NamedKey(plan.groupBy)(full[i])
    requires Groupings.KeysCover(GroupBys.KeyFn(ix), ks, rows) && g < |ks| == |out|
    requires GroupBys.IsGroupRow(fs, out[g], ks[g], Groupings.WithKey(GroupBys.KeyFn(ix), ks[g], rows))
    ensures RowMatches(named, out[g], FieldsAt(schema, ix) + AggFields(plan.exprs, fs)) && MemberGroup(plan, named, ks[g], full)
  {
    SelectionMatches(ix, plan.groupBy, schema, ks[g], full, rows);
    KeyRepeats(schema, ix, rows, ks, g);
    named := GroupStep(plan, schema, ix, fs, ks[g], out[g], Groupings.WithKey(NamedKey(plan.groupBy), ks[g], full),
                       Groupings.WithKey(GroupBys.KeyFn(ix), ks[g], rows));
  }

  lemma MeansGroups(plan: Plan, full: seq<Named>, full': seq<Named>, ks: seq<seq<Value>>)
    requires plan.Aggregate? && plan.groupBy != [] && Means(plan.child, full) && |full'| == |ks| && Groupings.Distinct(ks)
    requires Groupings.KeysCover(NamedKey(plan.groupBy), ks, full)
    requires forall h :: 0 <= h < |ks| ==> MemberGroup(plan, full'[h], ks[h], full)
    ensures Means(plan, full')
  {
    assert IsGroupedNamed(plan.groupBy, plan.exprs, Env(plan.child), full', full);
  }

  lemma GroupKeys(ix: seq<nat>, fs: seq<Aggregates.AggFunction>, out: seq<Row>, rows: seq<Row>) returns (ks: seq<seq<Value>>)
    requires GroupBys.IsGroupBy(ix, fs, out, rows)
    ensures |ks| == |out| && Groupings.Distinct(ks) && Groupings.KeysCover(GroupBys.KeyFn(ix), ks, rows)
    ensures forall g :: 0 <= g < |ks| ==>
              GroupBys.IsGroupRow(fs, out[g], ks[g], Groupings.WithKey(GroupBys.KeyFn(ix), ks[g], rows))
  {
    ks :|
      && |ks| == |out| && Groupings.Distinct(ks) && Groupings.KeysCover(GroupBys.KeyFn(ix), ks, rows)
      && forall g :: 0 <= g < |ks| ==>
           GroupBys.IsGroupRow(fs, out[g], ks[g], Groupings.WithKey(GroupBys.KeyFn(ix), ks[g], rows));
  }

  /** A key is the projection of some row, so it has a value per group-by column, repeated where the column repeats. */
  lemma KeyRepeats(schema: seq<Field>, ix: seq<nat>, rows: seq<Row>, ks: seq<seq<Value>>, g: nat)
    requires Groupings.KeysCover(GroupBys.KeyFn(ix), ks, rows) && g < |ks|
    requires forall i :: 0 <= i < |rows| ==> |rows[i]| == |schema|
    requires forall j :: 0 <= j < |ix| ==> ix[j] < |schema|
    ensures |ks[g]| == |ix| && forall i, j :: 0 <= i < |ix| && 0 <= j < |ix| && ix[i] == ix[j] ==> ks[g][i] == ks[g][j]
  {
    assert ks[g] in Groupings.Mapped(GroupBys.KeyFn(ix), rows);
    var m :| 0 <= m < |rows| && Groupings.Mapped(GroupBys.KeyFn(ix), rows)[m] == ks[g];
    assert GroupBys.InRow(ix, rows[m]);
  }

  // ----- whole plans -----

  /** Run j is a finished execution of pipeline j on what its source supplies. */
  ghost predicate Ran(pipes: seq<Pipe>, runs: seq<Run>, j: nat, threads: nat)
    requires j < |pipes| && j < |runs| && SourceOk(pipes[j].source)
  {
    && Supplies(pipes[j].source, runs[..j], runs[j].supply)
    && IsRun(runs[j].supply, pipes[j].transforms, threads, runs[j].state)
  }

  /** The sink of run j answered as `RunSink` shows the sink operators do. */
  ghost predicate Answered(pipes: seq<Pipe>, runs: seq<Run>, j: nat)
    requires j < |pipes| && j < |runs|
  {
    AllValid(P.SunkBatches(runs[j].state.sunk)) && !pipes[j].sink.Collect? ==>
      SinkGives(pipes[j].sink, AllRows(P.SunkBatches(runs[j].state.sunk)), runs[j].result)
  }

  ghost predicate RunOk(pipes: seq<Pipe>, runs: seq<Run>, j: nat, threads: nat)
    requires j < |pipes| && j < |runs| && SourceOk(pipes[j].source)
  {
    Ran(pipes, runs, j, threads) && Answered(pipes, runs, j)
  }

  ghost predicate RunsOk(pipes: seq<Pipe>, runs: seq<Run>, upTo: nat, threads: nat) {
    && upTo <= |pipes| && upTo <= |runs|
    && forall j :: 0 <= j < upTo ==> SourceOk(pipes[j].source) && RunOk(pipes, runs, j, threads)
  }

  /** What run j sank is its pipeline's outcome on some arrangement of its source's rows. */
  lemma RunOutcome(pipes: seq<Pipe>, runs: seq<Run>, j: nat, threads: nat) returns (r: seq<Row>)
    requires PipesOk(pipes) && j < |pipes| && j < |runs| && threads > 0
    requires SourceOk(pipes[j].source) && Ran(pipes, runs, j, threads)
    requires forall i :: 0 <= i < j && !pipes[i].sink.Collect? ==> ResultShaped(runs[i].result, SinkTypes(pipes[i].sink))
    ensures AllValid(P.SunkBatches(runs[j].state.sunk))
    ensures ChainOk(pipes[j].source, pipes[j].transforms, pipes[..j])
    ensures AllTyped(P.SunkBatches(runs[j].state.sunk),
                     ChainTypes(Body(pipes[j].transforms), SourceTypes(pipes[j].source, pipes[..j])))
    ensures Arrival(pipes[j].source, runs[..j], r) && AllWidth(r, SourceShape(pipes[j].source, pipes[..j]).width)
    ensures AllRows(P.SunkBatches(runs[j].state.sunk)) == Outcome(pipes[j].source, pipes[j].transforms, pipes[..j], r)
  {
    assert PipeOk(pipes, j);
    var p, before := pipes[j], pipes[..j];
    match p.source
    case FromTable(table, ix) =>
      r := TableRun(table, ix, p.transforms, before, runs[..j], threads, runs[j].state);
    case FromBreaker(id) =>
      assert before[id] == pipes[id] && runs[..j][id] == runs[id];
      r := BreakerRun(id, p.transforms, before, runs[..j], threads, runs[j].state);
  }

  lemma GivesShaped(sink: Sink, rows: seq<Row>, result: RecordBatch)
    requires SinkGives(sink, rows, result) && !sink.Collect?
    ensures ResultShaped(result, SinkTypes(sink))
  {
  }

  lemma RunGives(pipes: seq<Pipe>, runs: seq<Run>, j: nat, threads: nat)
    requires RunsOk(pipes, runs, j + 1, threads) && AllValid(P.SunkBatches(runs[j].state.sunk))
    ensures SinkGives(pipes[j].sink, AllRows(P.SunkBatches(runs[j].state.sunk)), runs[j].result)
  {
    assert RunOk(pipes, runs, j, threads);
  }

  lemma LastShaped(pipes: seq<Pipe>, runs: seq<Run>, j: nat, threads: nat)
    requires PipesOk(pipes) && RunsOk(pipes, runs, j + 1, threads) && threads > 0 && !pipes[j].sink.Collect?
    requires forall i :: 0 <= i < j && !pipes[i].sink.Collect? ==> ResultShaped(runs[i].result, SinkTypes(pipes[i].sink))
    ensures ResultShaped(runs[j].result, SinkTypes(pipes[j].sink))
  {
    assert RunOk(pipes, runs, j, threads);
    var r := RunOutcome(pipes, runs, j, threads);
    RunGives(pipes, runs, j, threads);
    GivesShaped(pipes[j].sink, AllRows(P.SunkBatches(runs[j].state.sunk)), runs[j].result);
  }

  lemma FewerRuns(pipes: seq<Pipe>, runs: seq<Run>, n: nat, threads: nat)
    requires RunsOk(pipes, runs, n + 1, threads)
    ensures RunsOk(pipes, runs, n, threads)
  {
  }

  /** Every breaker's result has the shape that the next pipeline expects. */
  lemma {:induction false} ResultsShaped(pipes: seq<Pipe>, runs: seq<Run>, n: nat, threads: nat)
    requires PipesOk(pipes) && RunsOk(pipes, runs, n, threads) && threads > 0
    ensures forall i :: 0 <= i < n && !pipes[i].sink.Collect? ==> ResultShaped(runs[i].result, SinkTypes(pipes[i].sink))
    decreases n
  {
    if n > 0 {
      FewerRuns(pipes, runs, n - 1, threads);
      ResultsShaped(pipes, runs, n - 1, threads);
      NextShaped(pipes, runs, n - 1, threads);
    }
  }

  lemma NextShaped(pipes: seq<Pipe>, runs: seq<Run>, n: nat, threads: nat)
    requires PipesOk(pipes) && RunsOk(pipes, runs, n + 1, threads) && threads > 0
    requires forall i :: 0 <= i < n && !pipes[i].sink.Collect? ==> ResultShaped(runs[i].result, SinkTypes(pipes[i].sink))
    ensures forall i :: 0 <= i <= n && !pipes[i].sink.Collect? ==> ResultShaped(runs[i].result, SinkTypes(pipes[i].sink))
  {
    if !pipes[n].sink.Collect? {
      LastShaped(pipes, runs, n, threads);
    }
  }

  // ----- the theorem, by induction over the plan -----

  lemma SubBagWidth(xs: seq<Row>, ys: seq<Row>, width: nat)
    requires AllWidth(ys, width) && multiset(xs) == multiset(ys)
    ensures AllWidth(xs, width)
  {
    forall i | 0 <= i < |xs| ensures |xs[i]| == width {
      var j := Sequences.Locate(xs, ys, xs[i]);
    }
  }

  lemma ArrivalWidth(b: Built, env: map<Name, ColumnType>, runs: seq<Run>, r: seq<Row>)
    requires BuiltOk(b, env) && Arrival(b.source, runs, r)
    requires b.source.FromBreaker? ==> b.source.id < |runs| && ResultShaped(runs[b.source.id].result, SourceTypes(b.source, b.done))
    ensures AllWidth(r, SourceShape(b.source, b.done).width)
  {
    match b.source
    case FromTable(table, ix) =>
      ScanShape(table, ix);
      SupplyWidth(ScanBatches(table, ix), Shape(|ix|, true));
      SubBagWidth(r, AllRows(ScanBatches(table, ix)), |ix|);
    case FromBreaker(id) =>
      var result := runs[id].result;
      assert |result.columns| == |TypesOf(result.columns)|;
      assert result == BARE ==> |View(result)| == 0;
  }

  /** A scan delivers the table's rows, in some order, under the schema's names. */
  lemma ScanStep(plan: Plan, required: Option<seq<Name>>, done: seq<Pipe>, runs: seq<Run>, r: seq<Row>) returns (full: seq<Named>)
    requires plan.Scan? && PipesOk(done) && TableOk(plan.table) && Compile(plan, required, done).Ok?
    requires SourceOk(Compile(plan, required, done).value.source) && Arrival(Compile(plan, required, done).value.source, runs, r)
    ensures Means(plan, full) && Matches(full, r, Compile(plan, required, done).value.schema)
  {
    var table, b := plan.table, Compile(plan, required, done).value;
    var ix := b.source.indices;
    var names := ScanNames(table, plan.columns, required);
    TableRowsWidth(table.chunks, |table.fields|);
    ScanRows(table, ix);
    var rows := TableRows(table.chunks);
    var at;
    full, at := Sequences.RearrangeWith(AllRows(ScanBatches(table, ix)), NameAll(table.fields, rows), r);
    forall i | 0 <= i < |r| ensures RowMatches(full[i], r[i], b.schema) {
      var row := rows[at[i]];
      assert full[i] == NameRow(table.fields, row) && r[i] == PickRow(row, ix);
      forall c | 0 <= c < |ix| ensures b.schema[c].name in full[i] && full[i][b.schema[c].name] == r[i][c] {
        assert IndexOf(table.fields, names[c]) == Some(ix[c]);
        NameRowFirst(table.fields, row, names[c]);
      }
    }
  }

  /** A dropping or reordering on top of a meant child. */
  lemma PickStep(plan: Plan, b: Built, r: seq<Row>, full: seq<Named>) returns (full': seq<Named>)
    requires plan.Drop? || plan.Reorder?
    requires BuiltOk(b, Env(plan.child)) && SoundNode(plan, b) && CompileNode(plan, b).Ok?
    requires BuiltOk(CompileNode(plan, b).value, Env(plan))
    requires AllWidth(r, SourceShape(b.source, b.done).width)
    requires Means(plan.child, full) && Matches(full, BuiltOutcome(b, r), b.schema)
    ensures Means(plan, full') && Matches(full', BuiltOutcome(CompileNode(plan, b).value, r), CompileNode(plan, b).value.schema)
  {
    var before := BuiltOutcome(b, r);
    if plan.Drop? {
      var stay := StayIndices(b.schema, plan.names);
      PushOutcome(b, Operators.Drop(stay), FieldsAt(b.schema, stay), Env(plan.child), r);
      full' := DropStep(plan, b, full, before);
    } else {
      var ix := IndicesOf(b.schema, plan.names).value;
      full' := ReorderStep(plan, b, full, before, ix);
      PushOutcome(b, Operators.Reorder(ix), FieldsAt(b.schema, ix), Env(plan.child), r);
    }
  }

  lemma FewerStep(plan: Plan, b: Built, r: seq<Row>, full: seq<Named>) returns (full': seq<Named>)
    requires plan.Filter? || plan.Limit?
    requires BuiltOk(b, Env(plan.child)) && SoundNode(plan, b) && CompileNode(plan, b).Ok?
    requires BuiltOk(CompileNode(plan, b).value, Env(plan))
    requires AllWidth(r, SourceShape(b.source, b.done).width)
    requires Means(plan.child, full) && Matches(full, BuiltOutcome(b, r), b.schema)
    ensures Means(plan, full') && Matches(full', BuiltOutcome(CompileNode(plan, b).value, r), CompileNode(plan, b).value.schema)
  {
    var before := BuiltOutcome(b, r);
    if plan.Filter? {
      PushOutcome(b, Operators.Filter(CompileFilter(plan.cond, b.schema).value), b.schema, Env(plan.child), r);
      FilterStep(plan, b, full, before);
      full' := KeepNamed(plan.cond, full);
    } else {
      PushOutcome(b, Operators.Limit(plan.rows), b.schema, Env(plan.child), r);
      full' := Take(full, Some(plan.rows));
    }
  }

  /** A filter, limit, projection, drop or reordering on top of a meant child. */
  lemma TransformStep(plan: Plan, b: Built, r: seq<Row>, full: seq<Named>) returns (full': seq<Named>)
    requires plan.Filter? || plan.Limit? || plan.Project? || plan.Drop? || plan.Reorder?
    requires BuiltOk(b, Env(plan.child)) && SoundNode(plan, b) && CompileNode(plan, b).Ok?
    requires BuiltOk(CompileNode(plan, b).value, Env(plan))
    requires AllWidth(r, SourceShape(b.source, b.done).width)
    requires Means(plan.child, full) && Matches(full, BuiltOutcome(b, r), b.schema)
    ensures Means(plan, full') && Matches(full', BuiltOutcome(CompileNode(plan, b).value, r), CompileNode(plan, b).value.schema)
  {
    var before := BuiltOutcome(b, r);
    if plan.Drop? || plan.Reorder? {
      full' := PickStep(plan, b, r, full);
    } else if plan.Project? {
      var fs := CompileScalars(plan.scalars, b.schema).value;
      PushOutcome(b, Operators.Scalar(fs.0), b.schema + fs.1, Env(plan.child), r);
      full' := ProjectStep(plan, b, full, before);
    } else {
      full' := FewerStep(plan, b, r, full);
    }
  }

  /** What an aggregation was compiled to. */
  lemma AggregateFacts(plan: Plan, b: Built) returns (ix: seq<nat>, fs: seq<Aggregates.AggFunction>)
    requires plan.Aggregate? && CompileNode(plan, b).Ok?
    ensures IndicesOf(b.schema, plan.groupBy) == Ok(ix) && CompileAggs(plan.exprs, b.schema) == Ok(fs)
    ensures |fs| == |plan.exprs| && forall k :: 0 <= k < |ix| ==> ix[k] < |b.schema|
    ensures CompileNode(plan, b).value.schema == FieldsAt(b.schema, ix) + AggFields(plan.exprs, fs)
    ensures CompileNode(plan, b).value.done[|b.done|].sink
         == if plan.groupBy == [] then TotalInto(fs) else GroupInto(ix, TypesIn(FieldsAt(b.schema, ix)), fs)
  {
    ix, fs := IndicesOf(b.schema, plan.groupBy).value, CompileAggs(plan.exprs, b.schema).value;
    KeysInRange(b.schema, plan.groupBy, ix);
  }

  /** Without keys, the fields are those of the aggregates. */
  lemma NoKeyFields(schema: seq<Field>, ix: seq<nat>, more: seq<Field>)
    requires ix == []
    ensures FieldsAt(schema, ix) + more == more
  {
  }

  lemma AggregateStep(plan: Plan, b: Built, rows: seq<Row>, result: RecordBatch, full: seq<Named>) returns (full': seq<Named>)
    requires plan.Aggregate? && CompileNode(plan, b).Ok?
    requires SchemaIn(b.schema, Env(plan.child)) && Fresh(AggOutputs(plan.exprs), plan.groupBy)
    requires Means(plan.child, full) && Matches(full, rows, b.schema)
    requires SinkGives(CompileNode(plan, b).value.done[|b.done|].sink, rows, result)
    ensures Means(plan, full') && Matches(full', View(result), CompileNode(plan, b).value.schema)
  {
    var ix, fs := AggregateFacts(plan, b);
    full' := AggregatedStep(plan, b, ix, fs, rows, result, full);
  }

  /** The same, told by what the aggregation was compiled to. */
  lemma AggregatedStep(plan: Plan, b: Built, ix: seq<nat>, fs: seq<Aggregates.AggFunction>, rows: seq<Row>, result: RecordBatch,
                       full: seq<Named>)
    returns (full': seq<Named>)
    requires plan.Aggregate? && IndicesOf(b.schema, plan.groupBy) == Ok(ix) && CompileAggs(plan.exprs, b.schema) == Ok(fs)
    requires |fs| == |plan.exprs| && forall k :: 0 <= k < |ix| ==> ix[k] < |b.schema|
    requires SchemaIn(b.schema, Env(plan.child)) && Fresh(AggOutputs(plan.exprs), plan.groupBy)
    requires Means(plan.child, full) && Matches(full, rows, b.schema)
    requires SinkGives(if plan.groupBy == [] then TotalInto(fs) else GroupInto(ix, TypesIn(FieldsAt(b.schema, ix)), fs), rows, result)
    ensures Means(plan, full') && Matches(full', View(result), FieldsAt(b.schema, ix) + AggFields(plan.exprs, fs))
  {
    if plan.groupBy == [] {
      NoKeyFields(b.schema, ix, AggFields(plan.exprs, fs));
      full' := TotalledStep(plan, b, fs, rows, result, full);
    } else {
      full' := GroupedStep(plan, b.schema, ix, fs, full, rows, View(result));
    }
  }

  lemma TotalledStep(plan: Plan, b: Built, fs: seq<Aggregates.AggFunction>, rows: seq<Row>, result: RecordBatch, full: seq<Named>)
    returns (full': seq<Named>)
    requires plan.Aggregate? && plan.groupBy == [] && CompileAggs(plan.exprs, b.schema) == Ok(fs)
    requires SchemaIn(b.schema, Env(plan.child)) && Fresh(AggOutputs(plan.exprs), [])
    requires Means(plan.child, full) && Matches(full, rows, b.schema) && SinkGives(TotalInto(fs), rows, result)
    ensures Means(plan, full') && Matches(full', View(result), AggFields(plan.exprs, fs))
  {
    var named := TotalStep(plan, b, fs, full, rows, Rows(result)[0]);
    full' := [named];
  }

  /** A sort or aggregation on top of a meant child, given its sink's answer. */
  lemma BreakerStep(plan: Plan, b: Built, rows: seq<Row>, result: RecordBatch, full: seq<Named>) returns (full': seq<Named>)
    requires plan.OrderBy? || plan.Aggregate?
    requires BuiltOk(b, Env(plan.child)) && SoundNode(plan, b) && CompileNode(plan, b).Ok?
    requires Means(plan.child, full) && Matches(full, rows, b.schema)
    requires SinkGives(CompileNode(plan, b).value.done[|b.done|].sink, rows, result)
    ensures Means(plan, full') && Matches(full', View(result), CompileNode(plan, b).value.schema)
  {
    if plan.OrderBy? {
      full' := SortStep(plan, b.schema, IndicesOf(b.schema, KeyNames(plan.keys)).value, full, rows, View(result));
    } else {
      full' := AggregateStep(plan, b, rows, result, full);
    }
  }

  /** Arrivals at a pipeline only depend on the runs before it. */
  lemma ArrivalPrefix(source: Source, runs: seq<Run>, j: nat, r: seq<Row>)
    requires SourceOk(source) && j <= |runs| && Arrival(source, runs[..j], r)
    ensures Arrival(source, runs, r)
  {
  }

  /** What the pipeline cut off below a breaker sank, as an outcome of the breaker's child. */
  lemma ChildOutcome(b: Built, env: map<Name, ColumnType>, sink: Sink, pipes: seq<Pipe>, runs: seq<Run>, threads: nat)
    returns (r: seq<Row>)
    requires BuiltOk(b, env) && threads > 0 && !sink.Collect?
    requires PipesOk(pipes) && RunsOk(pipes, runs, |b.done| + 1, threads)
    requires b.done + [Pipe(b.source, b.transforms, sink)] <= pipes
    ensures SourceOk(b.source) && Arrival(b.source, runs, r) && AllWidth(r, SourceShape(b.source, b.done).width)
    ensures SinkGives(sink, BuiltOutcome(b, r), runs[|b.done|].result)
    ensures AllValid(P.SunkBatches(runs[|b.done|].state.sunk)) && AllRows(P.SunkBatches(runs[|b.done|].state.sunk)) == BuiltOutcome(b, r)
  {
    var j := |b.done|;
    assert pipes[j] == Pipe(b.source, b.transforms, sink) && pipes[..j] == b.done;
    FewerRuns(pipes, runs, j, threads);
    ResultsShaped(pipes, runs, j, threads);
    assert RunOk(pipes, runs, j, threads);
    r := RunOutcome(pipes, runs, j, threads);
    ArrivalPrefix(b.source, runs, j, r);
    RunGives(pipes, runs, j, threads);
  }

  /** The source rows of a built pipeline have the source's width. */
  lemma BuiltWidth(b: Built, env: map<Name, ColumnType>, pipes: seq<Pipe>, runs: seq<Run>, threads: nat, r: seq<Row>)
    requires BuiltOk(b, env) && threads > 0 && PipesOk(pipes) && b.done <= pipes
    requires RunsOk(pipes, runs, |b.done|, threads) && Arrival(b.source, runs, r)
    ensures AllWidth(r, SourceShape(b.source, b.done).width)
  {
    ResultsShaped(pipes, runs, |b.done|, threads);
    SourceShaped(b, pipes, runs);
    ArrivalWidth(b, env, runs, r);
  }

  /** The pipeline above a breaker starts with the breaker's result and nothing else. */
  lemma BreakerOutcome(plan: Plan, b0: Built, runs: seq<Run>, r: seq<Row>)
    requires (plan.OrderBy? || plan.Aggregate?) && CompileNode(plan, b0).Ok?
    ensures var b := CompileNode(plan, b0).value;
            && |b.done| == |b0.done| + 1 && b.done == b0.done + [Pipe(b0.source, b0.transforms, b.done[|b0.done|].sink)]
            && !b.done[|b0.done|].sink.Collect? && b.source == FromBreaker(|b0.done|)
            && (Arrival(b.source, runs, r) ==> r == View(runs[|b0.done|].result))
            && (ChainOk(b.source, b.transforms, b.done) && AllWidth(r, SourceShape(b.source, b.done).width) ==> BuiltOutcome(b, r) == r)
  {
  }

  /** What a compiled node says about its child. */
  lemma ChildFacts(plan: Plan, required: Option<seq<Name>>, done: seq<Pipe>) returns (b0: Built)
    requires !plan.Scan? && PipesOk(done) && WellFormed(plan, required)
    ensures WellFormed(plan.child, ChildNeeds(plan, required)) && Compile(plan.child, ChildNeeds(plan, required), done) == Ok(b0)
    ensures Compile(plan, required, done).Ok? && CompileNode(plan, b0) == Compile(plan, required, done)
    ensures SoundNode(plan, b0) && BuiltOk(b0, Env(plan.child)) && BuiltOk(Compile(plan, required, done).value, Env(plan))
    ensures var b := Compile(plan, required, done).value;
            !plan.OrderBy? && !plan.Aggregate? ==> b.done == b0.done && b.source == b0.source
  {
    CompiledOk(plan, required, done);
    CompiledOk(plan.child, ChildNeeds(plan, required), done);
    b0 := Compile(plan.child, ChildNeeds(plan, required), done).value;
  }

  /**
   For every arrangement in which the source's rows may arrive, the built pipeline's outcome is meant by the plan.
   */
  lemma {:induction false} BuiltIsMeant(plan: Plan, required: Option<seq<Name>>, done: seq<Pipe>, b: Built, pipes: seq<Pipe>,
                                        runs: seq<Run>, threads: nat, r: seq<Row>)
    returns (full: seq<Named>)
    requires PipesOk(done) && WellFormed(plan, required) && Compile(plan, required, done) == Ok(b) && threads > 0
    requires BuiltOk(b, Env(plan)) && PipesOk(pipes) && b.done <= pipes
    requires RunsOk(pipes, runs, |b.done|, threads) && Arrival(b.source, runs, r)
    requires AllWidth(r, SourceShape(b.source, b.done).width)
    ensures Means(plan, full) && Matches(full, BuiltOutcome(b, r), b.schema)
    decreases plan, 1
  {
    if plan.Scan? {
      full := ScanStep(plan, required, done, runs, r);
    } else if plan.OrderBy? || plan.Aggregate? {
      full := BreakerIsMeant(plan, required, done, b, pipes, runs, threads, r);
    } else {
      full := TransformIsMeant(plan, required, done, b, pipes, runs, threads, r);
    }
  }

  lemma {:induction false} TransformIsMeant(plan: Plan, required: Option<seq<Name>>, done: seq<Pipe>, b: Built, pipes: seq<Pipe>,
                                            runs: seq<Run>, threads: nat, r: seq<Row>)
    returns (full: seq<Named>)
    requires !plan.Scan? && !plan.OrderBy? && !plan.Aggregate? && PipesOk(done) && WellFormed(plan, required) && threads > 0
    requires Compile(plan, required, done) == Ok(b) && BuiltOk(b, Env(plan)) && PipesOk(pipes) && b.done <= pipes
    requires RunsOk(pipes, runs, |b.done|, threads) && Arrival(b.source, runs, r)
    requires AllWidth(r, SourceShape(b.source, b.done).width)
    ensures Means(plan, full) && Matches(full, BuiltOutcome(b, r), b.schema)
    decreases plan, 0
  {
    var b0 := ChildFacts(plan, required, done);
    var full0 := BuiltIsMeant(plan.child, ChildNeeds(plan, required), done, b0, pipes, runs, threads, r);
    full := TransformStep(plan, b0, r, full0);
  }

  lemma {:induction false} BreakerIsMeant(plan: Plan, required: Option<seq<Name>>, done: seq<Pipe>, b: Built, pipes: seq<Pipe>,
                                          runs: seq<Run>, threads: nat, r: seq<Row>)
    returns (full: seq<Named>)
    requires (plan.OrderBy? || plan.Aggregate?) && PipesOk(done) && WellFormed(plan, required) && threads > 0
    requires Compile(plan, required, done) == Ok(b) && BuiltOk(b, Env(plan)) && PipesOk(pipes) && b.done <= pipes
    requires RunsOk(pipes, runs, |b.done|, threads) && Arrival(b.source, runs, r)
    requires AllWidth(r, SourceShape(b.source, b.done).width)
    ensures Means(plan, full) && Matches(full, BuiltOutcome(b, r), b.schema)
    decreases plan, 0
  {
    var b0 := ChildFacts(plan, required, done);
    BreakerOutcome(plan, b0, runs, r);
    var r0 := ChildOutcome(b0, Env(plan.child), b.done[|b0.done|].sink, pipes, runs, threads);
    FewerRuns(pipes, runs, |b0.done|, threads);
    var full0 := BuiltIsMeant(plan.child, ChildNeeds(plan, required), done, b0, pipes, runs, threads, r0);
    full := BreakerStep(plan, b0, BuiltOutcome(b0, r0), runs[|b0.done|].result, full0);
  }

  lemma SourceShaped(b: Built, pipes: seq<Pipe>, runs: seq<Run>)
    requires b.done <= pipes && |b.done| <= |runs|
    requires forall i :: 0 <= i < |b.done| && !pipes[i].sink.Collect? ==> ResultShaped(runs[i].result, SinkTypes(pipes[i].sink))
    requires ChainOk(b.source, b.transforms, b.done)
    ensures b.source.FromBreaker? ==> b.source.id < |runs| && ResultShaped(runs[b.source.id].result, SourceTypes(b.source, b.done))
  {
    if b.source.FromBreaker? {
      assert pipes[b.source.id] == b.done[b.source.id];
    }
  }

  /** The pipelines of a compiled plan, the last one collecting the result. */
  function AllPipes(b: Built): seq<Pipe> {
    b.done + [Pipe(b.source, b.transforms, Collect)]
  }

  lemma CollectOk(b: Built, env: map<Name, ColumnType>)
    requires BuiltOk(b, env)
    ensures PipesOk(AllPipes(b)) && b.done <= AllPipes(b)
  {
    var pipes := AllPipes(b);
    forall j | 0 <= j < |pipes| ensures PipeOk(pipes, j) {
      if j < |b.done| {
        assert pipes[..j] == b.done[..j] && PipeOk(b.done, j);
      } else {
        assert pipes[..j] == b.done;
      }
    }
  }

  function PipesOf(plan: Plan): seq<Pipe> {
    match Compile(plan, None, [])
    case Ok(b) => AllPipes(b)
    case Err(_) => []
  }

  /** What the last pipeline collects is the built pipeline's outcome on some arrangement of its source's rows. */
  lemma LastOutcome(b: Built, env: map<Name, ColumnType>, runs: seq<Run>, threads: nat) returns (r: seq<Row>)
    requires BuiltOk(b, env) && threads > 0 && |runs| == |b.done| + 1 && RunsOk(AllPipes(b), runs, |b.done| + 1, threads)
    ensures PipesOk(AllPipes(b)) && b.done <= AllPipes(b) && RunsOk(AllPipes(b), runs, |b.done|, threads)
    ensures Arrival(b.source, runs, r) && AllWidth(r, SourceShape(b.source, b.done).width)
    ensures var sunk := P.SunkBatches(runs[|b.done|].state.sunk);
            AllValid(sunk) && AllTyped(sunk, TypesIn(b.schema)) && AllRows(sunk) == BuiltOutcome(b, r)
  {
    var pipes, j := AllPipes(b), |b.done|;
    CollectOk(b, env);
    FewerRuns(pipes, runs, j, threads);
    ResultsShaped(pipes, runs, j, threads);
    assert RunOk(pipes, runs, j, threads);
    r := RunOutcome(pipes, runs, j, threads);
    assert pipes[..j] == b.done;
    ArrivalPrefix(b.source, runs, j, r);
    BuiltWidth(b, env, pipes, runs, threads, r);
  }

  /**
   Every well-formed plan compiles, and any finished execution of its pipelines collects rows that the plan means:
   position i of the final schema names column i of every batch, and the rows are, by name, a result of the plan.
   */
  lemma PlanIsMeant(plan: Plan, runs: seq<Run>, threads: nat) returns (full: seq<Named>)
    requires WellFormed(plan, None) && threads > 0
    requires |runs| == |PipesOf(plan)| && RunsOk(PipesOf(plan), runs, |PipesOf(plan)|, threads)
    ensures Compile(plan, None, []).Ok? && runs != []
    ensures var b, sunk := Compile(plan, None, []).value, P.SunkBatches(runs[|runs| - 1].state.sunk);
            && AllValid(sunk) && AllTyped(sunk, TypesIn(b.schema))
            && Means(plan, full) && Matches(full, AllRows(sunk), b.schema)
  {
    CompiledOk(plan, None, []);
    var b := Compile(plan, None, []).value;
    var r := LastOutcome(b, Env(plan), runs, threads);
    full := BuiltIsMeant(plan, None, [], b, AllPipes(b), runs, threads, r);
  }
}
