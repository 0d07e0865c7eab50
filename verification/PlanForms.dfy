/**
 Which plan trees compile, told on the tree alone: the names and types a node finds in its child, fresh output names,
 LIMIT last in its pipeline.  For such trees compilation succeeds, loses no column, and is in order throughout.
 */
module PlanForms {
  import opened Values
  import opened Wrappers
  import opened Batches
  import opened Names
  import opened Operators
  import opened Execution
  import opened Plans
  import opened PlanShapes
  import Aggregates
  import Dates
  import Scalars
  import Sequences

  // ----- the names a node shows to its parent -----

  function SetOf(names: seq<Name>): (r: set<Name>)
    ensures forall x: Name :: x in r <==> x in names
  {
    set x | x in names
  }

  /** The names of the compiled schema, after the columns nobody asked for were pruned. */
  function Shown(plan: Plan, required: Option<seq<Name>>): set<Name> {
    match plan
    case Scan(table, columns) => SetOf(if columns == [[42]] then NamesOf(table.fields) else columns) + SetOf(Requested(required))
    case Filter(child, _) => Shown(child, ChildNeeds(plan, required))
    case Limit(child, _) => Shown(child, ChildNeeds(plan, required))
    case OrderBy(child, _, _, _) => Shown(child, ChildNeeds(plan, required))
    case Project(child, es) => Shown(child, ChildNeeds(plan, required)) + SetOf(Outputs(es))
    case Drop(child, names) => Shown(child, ChildNeeds(plan, required)) - SetOf(names)
    case Reorder(child, names) => SetOf(names)
    case Aggregate(child, groupBy, es) => SetOf(groupBy) + SetOf(AggOutputs(es))
  }

  /** No filter stands between the plan and its source. */
  predicate Unfiltered(plan: Plan) {
    match plan
    case Filter(_, _) => false
    case Limit(_, _) => false
    case Project(child, _) => Unfiltered(child)
    case Drop(child, _) => Unfiltered(child)
    case Reorder(child, _) => Unfiltered(child)
    case _ => true
  }

  // ----- what the compiler looks up -----

  predicate FilterResolves(e: FilterExpr, shown: set<Name>, env: map<Name, ColumnType>) {
    match e
    case Cmp(col, op, lit, _) =>
      && col in shown && col in env
      && ValueClass(env[col]) == if op.Like? || op.NotLike? then STRING else ValueClass(lit)
    case AndExpr(l, r) => FilterResolves(l, shown, env) && FilterResolves(r, shown, env)
    case OrExpr(l, r) => FilterResolves(l, shown, env) && FilterResolves(r, shown, env)
  }

  predicate BranchResolves(b: BranchExpr, shown: set<Name>) {
    b.ColRef? ==> b.col in shown
  }

  predicate ScalarResolves(e: ScalarExpr, shown: set<Name>, env: map<Name, ColumnType>) {
    match e
    case Literal(_, _, _) => true
    case CaseWhen(cond, yes, no, _, _) =>
      FilterResolves(cond, shown, env) && BranchResolves(yes, shown) && BranchResolves(no, shown)
    case ExtractMinute(col, _) => col in shown && col in env && env[col] == TIMESTAMP
    case TimeTrunc(col, _, _) => col in shown && col in env && (env[col] == TIMESTAMP || env[col] == DATE)
    case Length(col, _) => col in shown && col in env && env[col] == STRING
    case AddConst(col, _, _) => col in shown && col in env && Addable(env[col])
  }

  /** Each expression finds its columns in the child or among the outputs of the expressions before it. */
  predicate ScalarsResolve(es: seq<ScalarExpr>, shown: set<Name>, env: map<Name, ColumnType>) {
    es == [] ||
    var n := |es| - 1;
    && ScalarsResolve(es[..n], shown, env)
    && ScalarResolves(es[n], shown + SetOf(Outputs(es[..n])), ProjectEnv(es[..n], env))
  }

  predicate AggResolves(e: AggExpr, shown: set<Name>, env: map<Name, ColumnType>) {
    e.kind.CountRows? || (e.col in shown && e.col in env && (e.kind.SumOf? ==> Aggregates.SumType(env[e.col]).Some?))
  }

  /** The node's names are among those its child shows, with types it can work on. */
  predicate NodeResolves(plan: Plan, shown: set<Name>, env: map<Name, ColumnType>)
    requires !plan.Scan?
  {
    match plan
    case Filter(_, cond) => FilterResolves(cond, shown, env)
    case Limit(_, _) => true
    case Project(_, es) => ScalarsResolve(es, shown, env)
    case Drop(_, names) => SetOf(names) <= shown
    case Reorder(_, names) => SetOf(names) <= shown
    case OrderBy(_, keys, _, _) => SetOf(KeyNames(keys)) <= shown
    case Aggregate(_, groupBy, es) => SetOf(groupBy) <= shown && forall a :: 0 <= a < |es| ==> AggResolves(es[a], shown, env)
  }

  /** Every name of the tree is found where it is looked up. */
  predicate Resolves(plan: Plan, required: Option<seq<Name>>) {
    match plan
    case Scan(_, _) => Shown(plan, required) <= Env(plan).Keys
    case _ =>
      && Resolves(plan.child, ChildNeeds(plan, required))
      && NodeResolves(plan, Shown(plan.child, ChildNeeds(plan, required)), Env(plan.child))
  }

  // ----- what the compiler does not check -----

  /** Computed columns do not reuse a name of the child or of each other. */
  predicate FreshNames(outputs: seq<Name>, taken: set<Name>) {
    && (forall i :: 0 <= i < |outputs| ==> outputs[i] !in taken)
    && forall i, j :: 0 <= i < j < |outputs| ==> outputs[i] != outputs[j]
  }

  predicate NodePlaced(plan: Plan, shown: set<Name>)
    requires !plan.Scan?
  {
    match plan
    case Project(child, es) =>
      !child.Limit? && FreshNames(Outputs(es), shown) && (shown != {} || es == [] || Unfiltered(child))
    case OrderBy(_, _, limit, offset) =>
      && shown != {} && (limit.Some? ==> limit.value < TWO_64) && (offset.Some? ==> offset.value < TWO_64)
      && (limit.Some? && offset.Some? ==> limit.value + offset.value < TWO_64)
    case Aggregate(_, groupBy, es) => Fresh(AggOutputs(es), groupBy)
    case Filter(child, _) => !child.Limit?
    case Limit(child, _) => !child.Limit?
    case Drop(child, _) => !child.Limit?
    case Reorder(child, _) => !child.Limit?
  }

  /** Tables are in order, output names are new, nothing but a sort or an aggregation stands on a LIMIT. */
  ghost predicate Placed(plan: Plan, required: Option<seq<Name>>) {
    match plan
    case Scan(table, _) => TableOk(table)
    case _ =>
      && Placed(plan.child, ChildNeeds(plan, required))
      && NodePlaced(plan, Shown(plan.child, ChildNeeds(plan, required)))
  }

  /** No DATE_TRUNC reads a DATE column. */
  predicate TruncFree(es: seq<ScalarExpr>, env: map<Name, ColumnType>) {
    es == [] ||
    var n := |es| - 1;
    var before := ProjectEnv(es[..n], env);
    TruncFree(es[..n], env) && !(es[n].TimeTrunc? && es[n].col in before && before[es[n].col] == DATE)
  }

  predicate DateTruncFree(plan: Plan) {
    plan.Scan? || (DateTruncFree(plan.child) && (plan.Project? ==> TruncFree(plan.scalars, Env(plan.child))))
  }

  /** A branch that names a column names one of the type that the CASE declares. */
  predicate BranchAgrees(b: BranchExpr, ty: ColumnType, env: map<Name, ColumnType>) {
    b.ColRef? && b.col in env ==> env[b.col] == ty
  }

  predicate CasesAgree(es: seq<ScalarExpr>, env: map<Name, ColumnType>) {
    es == [] ||
    var n := |es| - 1;
    var before := ProjectEnv(es[..n], env);
    && CasesAgree(es[..n], env)
    && (es[n].CaseWhen? ==> BranchAgrees(es[n].yes, es[n].ty, before) && BranchAgrees(es[n].no, es[n].ty, before))
  }

  /** No CASE takes a branch from a column of another type than it declares. */
  predicate CasesTyped(plan: Plan) {
    plan.Scan? || (CasesTyped(plan.child) && (plan.Project? ==> CasesAgree(plan.scalars, Env(plan.child))))
  }

  ghost predicate WellFormed(plan: Plan, required: Option<seq<Name>>) {
    Placed(plan, required) && DateTruncFree(plan) && CasesTyped(plan) && Resolves(plan, required)
  }

  // ----- looking a name up in a compiled schema -----

  /** The schema has the shown names and no other. */
  ghost predicate Shows(schema: seq<Field>, shown: set<Name>) {
    forall x: Name :: Has(schema, x) <==> x in shown
  }

  lemma LookUp(schema: seq<Field>, shown: set<Name>, env: map<Name, ColumnType>, x: Name)
    requires Shows(schema, shown) && SchemaIn(schema, env)
    ensures IndexOf(schema, x).Some? <==> x in shown
    ensures x in shown ==> x in env && schema[IndexOf(schema, x).value].ty == env[x]
  {
    assert Has(schema, x) <==> x in shown;
  }

  lemma ShowsNames(schema: seq<Field>, shown: set<Name>)
    requires Shows(schema, shown)
    ensures forall x: Name :: x in NamesOf(schema) <==> x in shown
    ensures schema == [] <==> shown == {}
  {
    forall x: Name ensures x in NamesOf(schema) <==> x in shown {
      NameHas(schema, x);
    }
    if schema != [] {
      assert schema[0].name in NamesOf(schema) by { assert NamesOf(schema)[0] == schema[0].name; }
    }
    if shown != {} {
      var x :| x in shown;
      assert x in NamesOf(schema);
    }
  }

  lemma NameHas(schema: seq<Field>, x: Name)
    ensures Has(schema, x) <==> x in NamesOf(schema)
  {
    if Has(schema, x) {
      assert NamesOf(schema)[IndexOf(schema, x).value] == x;
    }
    if x in NamesOf(schema) {
      var i :| 0 <= i < |schema| && NamesOf(schema)[i] == x;
      HasAt(schema, i);
    }
  }

  lemma ListShows(schema: seq<Field>, names: seq<Name>)
    requires NamesOf(schema) == names
    ensures Shows(schema, SetOf(names))
  {
    forall x: Name ensures Has(schema, x) <==> x in SetOf(names) {
      NameHas(schema, x);
    }
  }

  lemma ConcatShows(schema: seq<Field>, more: seq<Field>, shown: set<Name>, names: seq<Name>)
    requires Shows(schema, shown) && NamesOf(more) == names
    ensures Shows(schema + more, shown + SetOf(names))
  {
    assert NamesOf(schema + more) == NamesOf(schema) + names;
    forall x: Name ensures Has(schema + more, x) <==> x in shown + SetOf(names) {
      NameHas(schema + more, x);
      NameHas(schema, x);
    }
  }

  lemma IndicesResolve(schema: seq<Field>, shown: set<Name>, names: seq<Name>)
    requires Shows(schema, shown)
    ensures IndicesOf(schema, names).Ok? <==> SetOf(names) <= shown
  {
    forall k | 0 <= k < |names| ensures IndexOf(schema, names[k]).Some? <==> names[k] in shown {
      assert Has(schema, names[k]) <==> names[k] in shown;
    }
    if IndicesOf(schema, names).Ok? {
      forall x | x in SetOf(names) ensures x in shown {
        var k :| 0 <= k < |names| && names[k] == x;
      }
    } else {
      var k :| 0 <= k < |names| && IndexOf(schema, names[k]).None?;
      assert names[k] in SetOf(names);
    }
  }

  lemma {:induction false} FilterIff(e: FilterExpr, schema: seq<Field>, shown: set<Name>, env: map<Name, ColumnType>)
    requires Shows(schema, shown) && SchemaIn(schema, env)
    ensures CompileFilter(e, schema).Ok? <==> FilterResolves(e, shown, env)
  {
    match e
    case Cmp(col, _, _, _) => LookUp(schema, shown, env, col);
    case AndExpr(l, r) =>
      FilterIff(l, schema, shown, env);
      FilterIff(r, schema, shown, env);
    case OrExpr(l, r) =>
      FilterIff(l, schema, shown, env);
      FilterIff(r, schema, shown, env);
  }

  lemma ScalarIff(e: ScalarExpr, schema: seq<Field>, shown: set<Name>, env: map<Name, ColumnType>)
    requires Shows(schema, shown) && SchemaIn(schema, env)
    ensures CompileScalar(e, schema).Ok? <==> ScalarResolves(e, shown, env)
    ensures CompileScalar(e, schema).Ok? && e.TimeTrunc? ==>
              e.col in env && CompileScalar(e, schema).value.1.ty == env[e.col]
              && (env[e.col] == TIMESTAMP || env[e.col] == DATE)
  {
    match e
    case Literal(_, _, _) =>
    case CaseWhen(cond, yes, no, _, _) =>
      FilterIff(cond, schema, shown, env);
      if yes.ColRef? { LookUp(schema, shown, env, yes.col); }
      if no.ColRef? { LookUp(schema, shown, env, no.col); }
    case _ => LookUp(schema, shown, env, e.col);
  }

  /** A projection's functions compile exactly if their columns are found, and DATE_TRUNC is the only liar about types. */
  lemma {:induction false} ScalarsIff(es: seq<ScalarExpr>, schema: seq<Field>, shown: set<Name>, env: map<Name, ColumnType>)
    requires Shows(schema, shown) && SchemaIn(schema, env) && Fresh(Outputs(es), NamesOf(schema)) && TruncFree(es, env)
    ensures CompileScalars(es, schema).Ok? <==> ScalarsResolve(es, shown, env)
    ensures CompileScalars(es, schema).Ok? ==> NoDateTrunc(es, CompileScalars(es, schema).value.1)
    decreases |es|
  {
    if es != [] {
      var n := |es| - 1;
      FreshFront(es, schema);
      ScalarsIff(es[..n], schema, shown, env);
      if CompileScalars(es[..n], schema).Ok? {
        NextScalarIff(es, schema, shown, env);
      }
    }
  }

  /** The last expression, once those before it are compiled. */
  lemma NextScalarIff(es: seq<ScalarExpr>, schema: seq<Field>, shown: set<Name>, env: map<Name, ColumnType>)
    requires es != [] && CompileScalars(es[..|es| - 1], schema).Ok? && Shows(schema, shown) && SchemaIn(schema, env)
    requires NoDateTrunc(es[..|es| - 1], CompileScalars(es[..|es| - 1], schema).value.1)
    requires Fresh(Outputs(es[..|es| - 1]), NamesOf(schema))
    ensures var e, n := es[|es| - 1], |es| - 1;
            var r := CompileScalar(e, schema + CompileScalars(es[..n], schema).value.1);
            && (r.Ok? <==> ScalarResolves(e, shown + SetOf(Outputs(es[..n])), ProjectEnv(es[..n], env)))
            && (r.Ok? && e.TimeTrunc? ==>
                  var before := ProjectEnv(es[..n], env);
                  e.col in before && r.value.1.ty == before[e.col] && (before[e.col] == TIMESTAMP || before[e.col] == DATE))
  {
    var n := |es| - 1;
    var front := CompileScalars(es[..n], schema).value;
    ScalarsOk(es[..n], schema, env);
    ScalarNames(es[..n], schema);
    ConcatShows(schema, front.1, shown, Outputs(es[..n]));
    ScalarIff(es[n], schema + front.1, shown + SetOf(Outputs(es[..n])), ProjectEnv(es[..n], env));
  }

  lemma FreshFront(es: seq<ScalarExpr>, schema: seq<Field>)
    requires es != [] && Fresh(Outputs(es), NamesOf(schema))
    ensures Fresh(Outputs(es[..|es| - 1]), NamesOf(schema))
  {
    assert Outputs(es[..|es| - 1]) == Outputs(es)[..|es| - 1];
  }

  lemma AggIff(e: AggExpr, schema: seq<Field>, shown: set<Name>, env: map<Name, ColumnType>)
    requires Shows(schema, shown) && SchemaIn(schema, env)
    ensures CompileAgg(e, schema).Ok? <==> AggResolves(e, shown, env)
  {
    LookUp(schema, shown, env, e.col);
  }

  lemma {:induction false} AggsIff(es: seq<AggExpr>, schema: seq<Field>, shown: set<Name>, env: map<Name, ColumnType>)
    requires Shows(schema, shown) && SchemaIn(schema, env)
    ensures CompileAggs(es, schema).Ok? <==> forall a :: 0 <= a < |es| ==> AggResolves(es[a], shown, env)
    decreases |es|
  {
    if es != [] {
      var n := |es| - 1;
      AggsIff(es[..n], schema, shown, env);
      AggIff(es[n], schema, shown, env);
      assert forall a :: 0 <= a < n ==> es[..n][a] == es[a];
    }
  }

  // ----- one node -----

  /** What is known of a compiled subtree besides its own order: the names it shows, and where LIMIT and filters are. */
  ghost predicate Faithful(plan: Plan, required: Option<seq<Name>>, b: Built) {
    && Shows(b.schema, Shown(plan, required)) && (Open(b) <==> !plan.Limit?)
    && (Open(b) ==> ShapeAfter(b.transforms, SourceShape(b.source, b.done)).whole == Unfiltered(plan))
  }

  /** The node compiles exactly if it resolves, and the compiler's blind spots are covered by its place. */
  lemma NodeIff(plan: Plan, shown: set<Name>, b: Built)
    requires !plan.Scan? && BuiltOk(b, Env(plan.child)) && Shows(b.schema, shown)
    requires NodePlaced(plan, shown) && (plan.Project? ==> TruncFree(plan.scalars, Env(plan.child)))
    ensures CompileNode(plan, b).Ok? <==> NodeResolves(plan, shown, Env(plan.child))
  {
    var schema, env := b.schema, Env(plan.child);
    ShowsNames(schema, shown);
    match plan
    case Filter(_, cond) => FilterIff(cond, schema, shown, env);
    case Limit(_, _) =>
    case Project(_, es) => ScalarsIff(es, schema, shown, env);
    case Drop(_, names) => IndicesResolve(schema, shown, names);
    case Reorder(_, names) => IndicesResolve(schema, shown, names);
    case OrderBy(_, keys, _, _) => IndicesResolve(schema, shown, KeyNames(keys));
    case Aggregate(_, groupBy, es) =>
      IndicesResolve(schema, shown, groupBy);
      AggsIff(es, schema, shown, env);
  }

  lemma NodeSound(plan: Plan, needs: Option<seq<Name>>, b: Built)
    requires !plan.Scan? && BuiltOk(b, Env(plan.child)) && Faithful(plan.child, needs, b)
    requires NodePlaced(plan, Shown(plan.child, needs)) && (plan.Project? ==> TruncFree(plan.scalars, Env(plan.child)))
    ensures SoundNode(plan, b)
  {
    ShowsNames(b.schema, Shown(plan.child, needs));
    if plan.Project? {
      ScalarsIff(plan.scalars, b.schema, Shown(plan.child, needs), Env(plan.child));
    }
  }

  lemma DropShows(schema: seq<Field>, names: seq<Name>, stay: seq<nat>, shown: set<Name>)
    requires Shows(schema, shown) && stay == StayIndices(schema, names)
    ensures Shows(FieldsAt(schema, stay), shown - SetOf(names))
  {
    var kept := FieldsAt(schema, stay);
    forall x: Name ensures Has(kept, x) <==> x in shown - SetOf(names) {
      assert Has(schema, x) <==> x in shown;
      if Has(kept, x) {
        HasAt(schema, stay[IndexOf(kept, x).value]);
      }
      if x in shown - SetOf(names) {
        var j :| 0 <= j < |stay| && stay[j] == IndexOf(schema, x).value;
        HasAt(kept, j);
      }
    }
  }

  lemma PickedNames(schema: seq<Field>, names: seq<Name>, ix: seq<nat>)
    requires IndicesOf(schema, names) == Ok(ix)
    ensures (forall j :: 0 <= j < |ix| ==> ix[j] < |schema|) && NamesOf(FieldsAt(schema, ix)) == names
  {
    forall j | 0 <= j < |ix| ensures ix[j] < |schema| && schema[ix[j]].name == names[j] {
      assert IndexOf(schema, names[j]) == Some(ix[j]);
    }
  }

  lemma NodeShows(plan: Plan, required: Option<seq<Name>>, b: Built)
    requires !plan.Scan? && Shows(b.schema, Shown(plan.child, ChildNeeds(plan, required))) && CompileNode(plan, b).Ok?
    ensures Shows(CompileNode(plan, b).value.schema, Shown(plan, required))
  {
    var shown := Shown(plan.child, ChildNeeds(plan, required));
    match plan
    case Filter(_, _) =>
    case Limit(_, _) =>
    case OrderBy(_, _, _, _) =>
    case Project(_, es) =>
      ScalarNames(es, b.schema);
      ConcatShows(b.schema, CompileScalars(es, b.schema).value.1, shown, Outputs(es));
    case Drop(_, names) => DropShows(b.schema, names, StayIndices(b.schema, names), shown);
    case Reorder(_, names) =>
      var ix := IndicesOf(b.schema, names).value;
      PickedNames(b.schema, names, ix);
      ListShows(FieldsAt(b.schema, ix), names);
    case Aggregate(_, groupBy, es) =>
      var ix, fs := IndicesOf(b.schema, groupBy).value, CompileAggs(es, b.schema).value;
      PickedNames(b.schema, groupBy, ix);
      ListShows(FieldsAt(b.schema, ix), groupBy);
      assert NamesOf(AggFields(es, fs)) == AggOutputs(es);
      ConcatShows(FieldsAt(b.schema, ix), AggFields(es, fs), SetOf(groupBy), AggOutputs(es));
  }

  /** Where a pushed or cut pipeline stands. */
  lemma NodeOpen(plan: Plan, b: Built)
    requires !plan.Scan? && CompileNode(plan, b).Ok?
    requires Open(b) <==> !plan.child.Limit?
    requires Open(b) ==> ShapeAfter(b.transforms, SourceShape(b.source, b.done)).whole == Unfiltered(plan.child)
    requires plan.child.Limit? ==> plan.OrderBy? || plan.Aggregate?
    ensures var r := CompileNode(plan, b).value;
            && (Open(r) <==> !plan.Limit?)
            && (Open(r) ==> ShapeAfter(r.transforms, SourceShape(r.source, r.done)).whole == Unfiltered(plan))
  {
    var r := CompileNode(plan, b).value;
    if !plan.OrderBy? && !plan.Aggregate? {
      var t := r.transforms[|r.transforms| - 1];
      assert r.transforms == b.transforms + [t];
      ChainSnoc(b.transforms, t, SourceShape(b.source, b.done), SourceTypes(b.source, b.done));
    }
  }

  // ----- whole trees -----

  /** The names read are those shown. */
  lemma ScanShows(plan: Plan, required: Option<seq<Name>>)
    requires plan.Scan?
    ensures SetOf(ScanNames(plan.table, plan.columns, required)) == Shown(plan, required)
  {
  }

  lemma ScanResolves(plan: Plan, required: Option<seq<Name>>)
    requires plan.Scan?
    ensures IndicesOf(plan.table.fields, ScanNames(plan.table, plan.columns, required)).Ok? <==> Resolves(plan, required)
  {
    var fields, names := plan.table.fields, ScanNames(plan.table, plan.columns, required);
    ScanShows(plan, required);
    forall k | 0 <= k < |names| ensures IndexOf(fields, names[k]).Some? <==> names[k] in Env(plan) {
      FieldEnvFirst(fields, names[k]);
    }
    InKeys(names, Env(plan));
  }

  lemma InKeys(names: seq<Name>, env: map<Name, ColumnType>)
    ensures SetOf(names) <= env.Keys <==> forall k :: 0 <= k < |names| ==> names[k] in env
  {
    if SetOf(names) <= env.Keys {
      forall k | 0 <= k < |names| ensures names[k] in env {
        assert names[k] in SetOf(names);
      }
    }
  }

  lemma ScanFormed(plan: Plan, required: Option<seq<Name>>, done: seq<Pipe>)
    requires plan.Scan? && PipesOk(done) && Placed(plan, required)
    ensures Compile(plan, required, done).Ok? <==> Resolves(plan, required)
    ensures Compile(plan, required, done).Ok? ==>
              && Sound(plan, required, done) && BuiltOk(Compile(plan, required, done).value, Env(plan))
              && Faithful(plan, required, Compile(plan, required, done).value)
  {
    ScanResolves(plan, required);
    if Compile(plan, required, done).Ok? {
      var fields, names := plan.table.fields, ScanNames(plan.table, plan.columns, required);
      ScanOk(plan, required, done);
      PickedNames(fields, names, IndicesOf(fields, names).value);
      ListShows(Compile(plan, required, done).value.schema, names);
      ScanShows(plan, required);
    }
  }

  /** A node above a subtree that compiled. */
  lemma NodeFormed(plan: Plan, required: Option<seq<Name>>, done: seq<Pipe>, b: Built)
    requires !plan.Scan? && PipesOk(done) && Compile(plan.child, ChildNeeds(plan, required), done) == Ok(b)
    requires Sound(plan.child, ChildNeeds(plan, required), done) && BuiltOk(b, Env(plan.child))
    requires Faithful(plan.child, ChildNeeds(plan, required), b)
    requires NodePlaced(plan, Shown(plan.child, ChildNeeds(plan, required)))
    requires plan.Project? ==> TruncFree(plan.scalars, Env(plan.child))
    ensures Compile(plan, required, done).Ok?
        <==> NodeResolves(plan, Shown(plan.child, ChildNeeds(plan, required)), Env(plan.child))
    ensures Compile(plan, required, done).Ok? ==>
              && Sound(plan, required, done) && BuiltOk(Compile(plan, required, done).value, Env(plan))
              && Faithful(plan, required, Compile(plan, required, done).value)
  {
    NodeIff(plan, Shown(plan.child, ChildNeeds(plan, required)), b);
    NodeSound(plan, ChildNeeds(plan, required), b);
    assert Compile(plan, required, done) == CompileNode(plan, b);
    if CompileNode(plan, b).Ok? {
      NodeOk(plan, b);
      NodeShows(plan, required, b);
      NodeOpen(plan, b);
    }
  }

  /**
   A tree whose nodes stand in their places compiles if and only if each of its names is found where it is looked up;
   the compiled schema then has exactly the names that the tree shows.
   */
  lemma {:induction false} CompilesExactly(plan: Plan, required: Option<seq<Name>>, done: seq<Pipe>)
    requires PipesOk(done) && Placed(plan, required) && DateTruncFree(plan)
    ensures Compile(plan, required, done).Ok? <==> Resolves(plan, required)
    ensures Compile(plan, required, done).Ok? ==>
              && Sound(plan, required, done) && BuiltOk(Compile(plan, required, done).value, Env(plan))
              && Faithful(plan, required, Compile(plan, required, done).value)
    decreases plan
  {
    if plan.Scan? {
      ScanFormed(plan, required, done);
    } else {
      CompilesExactly(plan.child, ChildNeeds(plan, required), done);
      if Compile(plan.child, ChildNeeds(plan, required), done).Ok? {
        NodeFormed(plan, required, done, Compile(plan.child, ChildNeeds(plan, required), done).value);
      }
    }
  }

  /**
   Whatever well-formed tree is compiled: compilation succeeds, every operator's indices fit the batches it will get,
   schema position i names and types batch column i, and every pipeline reads from a table or an earlier pipeline.
   */
  lemma CompiledOk(plan: Plan, required: Option<seq<Name>>, done: seq<Pipe>)
    requires PipesOk(done) && WellFormed(plan, required)
    ensures Compile(plan, required, done).Ok? && Sound(plan, required, done)
    ensures var b := Compile(plan, required, done).value;
            BuiltOk(b, Env(plan)) && done <= b.done && forall x: Name :: Has(b.schema, x) <==> x in Shown(plan, required)
  {
    CompilesExactly(plan, required, done);
    PlanShapes.SoundIsOk(plan, required, done);
  }

  // ----- pruning loses nothing -----

  /** A name asked of a tree that has it is among the names the tree still shows after pruning. */
  lemma {:induction false} PushDownShows(plan: Plan, required: Option<seq<Name>>, x: Name)
    requires x in Requested(required) && x in Env(plan)
    ensures x in Shown(plan, required)
    decreases plan
  {
    if !plan.Scan? {
      if plan.Project? {
        ProjectEnvFrom(plan.scalars, Env(plan.child), x);
      }
      if plan.Aggregate? && x !in plan.groupBy {
        OutputEnvFrom(plan.exprs, Env(plan.child), x);
      }
      if x in Requested(ChildNeeds(plan, required)) && x in Env(plan.child) {
        PushDownShows(plan.child, ChildNeeds(plan, required), x);
      }
    }
  }

  /**
   Push-down loses no column that a node above needs: whatever is asked for and offered by a well-formed plan is in
   the compiled schema with its type, through every filter, projection, drop, reordering, sort and aggregation.
   */
  lemma PushDownKeepsRequired(plan: Plan, required: Option<seq<Name>>, done: seq<Pipe>, x: Name)
    requires PipesOk(done) && WellFormed(plan, required) && x in Requested(required) && x in Env(plan)
    ensures Compile(plan, required, done).Ok?
    ensures var schema := Compile(plan, required, done).value.schema;
            IndexOf(schema, x).Some? && schema[IndexOf(schema, x).value].ty == Env(plan)[x]
  {
    CompiledOk(plan, required, done);
    PushDownShows(plan, required, x);
    assert Has(Compile(plan, required, done).value.schema, x);
  }

  /** The columns a node itself reads by name and asks its child for. */
  function OwnColumns(plan: Plan): seq<Name> {
    match plan
    case Filter(_, cond) => FilterColumns(cond)
    case Project(_, es) => AllScalarColumns(es)
    case OrderBy(_, keys, _, _) => KeyNames(keys)
    case Aggregate(_, groupBy, es) => groupBy + AllAggColumns(es)
    case _ => []
  }

  /**
   The node's columns are among all columns its child has before any pruning, with fitting types.  Drop and Reorder
   ask for nothing, so their names must be among those the child shows even if nobody asks it for a column.  "" and
   "*" stand for "no column".
   */
  predicate NodeOffered(plan: Plan, env: map<Name, ColumnType>)
    requires !plan.Scan?
  {
    && SetOf(OwnColumns(plan)) <= env.Keys
    && match plan
       case Filter(_, cond) => [] !in env && FilterResolves(cond, env.Keys, env)
       case Project(_, es) => [] !in env && ScalarsResolve(es, env.Keys, env)
       case Aggregate(_, _, es) =>
         forall a :: 0 <= a < |es| ==>
           AggResolves(es[a], env.Keys, env) && (!es[a].kind.CountRows? ==> es[a].col != [] && es[a].col != STAR)
       case Drop(child, names) => SetOf(names) <= Shown(child, None)
       case Reorder(child, names) => SetOf(names) <= Shown(child, None)
       case OrderBy(_, _, _, _) => true
       case Limit(_, _) => true
  }

  /** Every node finds its columns in what its child means, before pruning and whatever is asked for above. */
  predicate Offered(plan: Plan) {
    match plan
    case Scan(_, columns) => columns == [STAR] || SetOf(columns) <= Env(plan).Keys
    case _ => Offered(plan.child) && NodeOffered(plan, Env(plan.child))
  }

  /** Asking for more columns never hides one. */
  lemma {:induction false} ShownGrows(plan: Plan, few: Option<seq<Name>>, many: Option<seq<Name>>)
    requires SetOf(Requested(few)) <= SetOf(Requested(many))
    ensures Shown(plan, few) <= Shown(plan, many)
    decreases plan
  {
    if plan.Scan? {
      ScanGrows(plan.table, plan.columns, few, many);
    } else {
      NeedsGrow(plan, few, many);
      ShownGrows(plan.child, ChildNeeds(plan, few), ChildNeeds(plan, many));
    }
  }

  lemma NeedsGrow(plan: Plan, few: Option<seq<Name>>, many: Option<seq<Name>>)
    requires !plan.Scan? && SetOf(Requested(few)) <= SetOf(Requested(many))
    ensures SetOf(Requested(ChildNeeds(plan, few))) <= SetOf(Requested(ChildNeeds(plan, many)))
  {
    forall x | x in Requested(ChildNeeds(plan, few)) ensures x in Requested(ChildNeeds(plan, many)) {
      assert x in SetOf(Requested(few)) ==> x in Requested(many);
    }
  }

  lemma ScanGrows(table: Table, columns: seq<Name>, few: Option<seq<Name>>, many: Option<seq<Name>>)
    requires SetOf(Requested(few)) <= SetOf(Requested(many))
    ensures SetOf(ScanNames(table, columns, few)) <= SetOf(ScanNames(table, columns, many))
  {
    forall x | x in ScanNames(table, columns, few) ensures x in ScanNames(table, columns, many) {
      assert x in SetOf(Requested(few)) ==> x in Requested(many);
    }
  }

  lemma {:induction false} FilterGrow(e: FilterExpr, a: set<Name>, b: set<Name>, env: map<Name, ColumnType>)
    requires FilterResolves(e, a, env)
    requires forall x: Name :: x in a && (x == [] || x in FilterColumns(e)) ==> x in b
    ensures FilterResolves(e, b, env)
  {
    if !e.Cmp? {
      FilterGrow(e.left, a, b, env);
      FilterGrow(e.right, a, b, env);
    }
  }

  lemma ScalarGrow(e: ScalarExpr, a: set<Name>, b: set<Name>, env: map<Name, ColumnType>)
    requires ScalarResolves(e, a, env)
    requires forall x: Name :: x in a && (x == [] || x in ScalarColumns(e)) ==> x in b
    ensures ScalarResolves(e, b, env)
  {
    if e.CaseWhen? {
      FilterGrow(e.cond, a, b, env);
    }
  }

  lemma {:induction false} ScalarsGrow(es: seq<ScalarExpr>, a: set<Name>, b: set<Name>, env: map<Name, ColumnType>)
    requires ScalarsResolve(es, a, env) && [] !in a
    requires forall x: Name :: x in a && x in AllScalarColumns(es) ==> x in b
    ensures ScalarsResolve(es, b, env)
    decreases |es|
  {
    if es != [] {
      var n := |es| - 1;
      var outs := SetOf(Outputs(es[..n]));
      ScalarsGrow(es[..n], a, b, env);
      ScalarGrow(es[n], a + outs, b + outs, ProjectEnv(es[..n], env));
    }
  }

  /** What a node asks of its child is there, if what is asked of the node is. */
  lemma NeedsOffered(plan: Plan, required: Option<seq<Name>>)
    requires !plan.Scan? && NodeOffered(plan, Env(plan.child)) && SetOf(Requested(required)) <= Env(plan).Keys
    ensures SetOf(Requested(ChildNeeds(plan, required))) <= Env(plan.child).Keys
  {
    forall x | x in Requested(ChildNeeds(plan, required)) ensures x in Env(plan.child) {
      if x !in OwnColumns(plan) {
        assert x in SetOf(Requested(required));
        if plan.Project? {
          ProjectEnvFrom(plan.scalars, Env(plan.child), x);
        }
      } else {
        assert x in SetOf(OwnColumns(plan));
      }
    }
  }

  /** What a node reads in its child's meaning it also finds in the pruned child. */
  lemma OfferedNode(plan: Plan, required: Option<seq<Name>>)
    requires !plan.Scan? && NodeOffered(plan, Env(plan.child))
    ensures NodeResolves(plan, Shown(plan.child, ChildNeeds(plan, required)), Env(plan.child))
  {
    var shown, env := Shown(plan.child, ChildNeeds(plan, required)), Env(plan.child);
    forall x: Name | x in OwnColumns(plan) ensures x in shown {
      assert x in SetOf(OwnColumns(plan));
      PushDownShows(plan.child, ChildNeeds(plan, required), x);
    }
    match plan
    case Filter(_, cond) => FilterGrow(cond, env.Keys, shown, env);
    case Project(_, es) => ScalarsGrow(es, env.Keys, shown, env);
    case Aggregate(_, groupBy, es) =>
      forall a | 0 <= a < |es| ensures AggResolves(es[a], shown, env) {
        assert AggResolves(es[a], env.Keys, env);
        if !es[a].kind.CountRows? {
          assert es[a].col in AggColumns(es[a]);
        }
      }
    case Drop(child, _) => ShownGrows(child, None, ChildNeeds(plan, required));
    case Reorder(child, _) => ShownGrows(child, None, ChildNeeds(plan, required));
    case _ =>
  }

  /**
   Column pruning never makes a tree fail: if every node finds its columns in what its child means, all of them are
   still found after the push-down.
   */
  lemma {:induction false} PruningIsSafe(plan: Plan, required: Option<seq<Name>>)
    requires Offered(plan) && SetOf(Requested(required)) <= Env(plan).Keys
    ensures Resolves(plan, required)
    decreases plan
  {
    if plan.Scan? {
      forall x | x in ScanNames(plan.table, plan.columns, required) ensures x in Env(plan) {
        ScanOffers(plan.table, plan.columns, required, x);
      }
    } else {
      NeedsOffered(plan, required);
      PruningIsSafe(plan.child, ChildNeeds(plan, required));
      OfferedNode(plan, required);
    }
  }

  lemma ScanOffers(table: Table, columns: seq<Name>, required: Option<seq<Name>>, x: Name)
    requires columns == [STAR] || SetOf(columns) <= FieldEnv(table.fields).Keys
    requires SetOf(Requested(required)) <= FieldEnv(table.fields).Keys && x in ScanNames(table, columns, required)
    ensures x in FieldEnv(table.fields)
  {
    if x in Requested(required) {
      assert x in SetOf(Requested(required));
    } else if columns == [STAR] {
      NameHas(table.fields, x);
      FieldEnvFirst(table.fields, x);
    } else {
      assert x in SetOf(columns);
    }
  }

  // ----- a column computed beside the one that reads it -----

  /** Trees that hand a request down to their scan: no aggregation, drop or reordering. */
  predicate Transparent(plan: Plan) {
    match plan
    case Scan(_, _) => true
    case Filter(child, _) => Transparent(child)
    case Limit(child, _) => Transparent(child)
    case Project(child, _) => Transparent(child)
    case OrderBy(child, _, _, _) => Transparent(child)
    case _ => false
  }

  /** A name that such a tree is asked for and does not have makes compilation fail. */
  lemma {:induction false} UnknownNameFails(plan: Plan, required: Option<seq<Name>>, done: seq<Pipe>, x: Name)
    requires Transparent(plan) && x in Requested(required) && x !in Env(plan)
    ensures Compile(plan, required, done).Err?
    decreases plan
  {
    if plan.Scan? {
      var fields, names := plan.table.fields, ScanNames(plan.table, plan.columns, required);
      FieldEnvFirst(fields, x);
      var k :| 0 <= k < |names| && names[k] == x;
      assert IndexOf(fields, names[k]).None?;
    } else {
      if plan.Project? {
        NotProjected(plan.scalars, Env(plan.child), x);
      }
      UnknownNameFails(plan.child, ChildNeeds(plan, required), done, x);
    }
  }

  lemma {:induction false} NotProjected(es: seq<ScalarExpr>, env: map<Name, ColumnType>, x: Name)
    requires x !in ProjectEnv(es, env)
    ensures x !in env && x !in Outputs(es)
    decreases |es|
  {
    if es != [] {
      var n := |es| - 1;
      NotProjected(es[..n], env, x);
      assert Outputs(es) == Outputs(es[..n]) + [es[n].output];
    }
  }

  /**
   An expression that reads a column computed beside it: the functions would compile one after the other, but the
   column is asked of the child too, and a child that hands requests down to its scan fails on it.
   */
  lemma SiblingUseFails(plan: Plan, required: Option<seq<Name>>, done: seq<Pipe>, k: nat, x: Name)
    requires plan.Project? && Transparent(plan.child) && k < |plan.scalars| && x in ScalarColumns(plan.scalars[k])
    requires x !in Env(plan.child)
    ensures Compile(plan, required, done).Err?
  {
    assert x in AllScalarColumns(plan.scalars);
    UnknownNameFails(plan.child, ChildNeeds(plan, required), done, x);
  }

  const A: Name := [97]
  const B: Name := [98]
  const C: Name := [99]

  /** b is a + 1, and c is b + 1. */
  const SIBLINGS: seq<ScalarExpr> := [AddConst(A, 1, B), AddConst(B, 1, C)]

  const ONE_COLUMN: Table := Table([Field(A, INT64)], [])

  lemma NextScalar(es: seq<ScalarExpr>, e: ScalarExpr, schema: seq<Field>, fs: seq<Scalars.ScalarFunction>, fields: seq<Field>)
    requires CompileScalars(es, schema) == Ok((fs, fields)) && CompileScalar(e, schema + fields).Ok?
    ensures var last := CompileScalar(e, schema + fields).value;
            CompileScalars(es + [e], schema) == Ok((fs + [last.0], fields + [last.1]))
  {
    assert (es + [e])[..|es|] == es;
  }

  lemma FirstScalar(e: ScalarExpr, schema: seq<Field>)
    requires CompileScalar(e, schema).Ok?
    ensures var last := CompileScalar(e, schema).value; CompileScalars([e], schema) == Ok(([last.0], [last.1]))
  {
    Sequences.Empties(schema);
    Sequences.Empties([e]);
    NextScalar([], e, schema, [], []);
    var last := CompileScalar(e, schema).value;
    Sequences.Empties([last.0]);
    Sequences.Empties([last.1]);
  }

  /** Over a scan of a the two functions compile in turn, and the plan does not. */
  lemma SiblingsOverScan()
    ensures CompileScalars(SIBLINGS, [Field(A, INT64)]).Ok?
    ensures Compile(Project(Scan(ONE_COLUMN, [A]), SIBLINGS), None, []).Err?
  {
    var schema, b := [Field(A, INT64)], Field(B, INT64);
    assert IndexOf(schema, A) == Some(0);
    FirstScalar(SIBLINGS[0], schema);
    FirstIndex(schema + [b], B, 1);
    NextScalar([SIBLINGS[0]], SIBLINGS[1], schema, [Scalars.AddConstant(INT64, 0, 1)], [b]);
    assert SIBLINGS == [SIBLINGS[0]] + [SIBLINGS[1]];
    FieldEnvFirst(schema, B);
    SiblingUseFails(Project(Scan(ONE_COLUMN, [A]), SIBLINGS), None, [], 1, B);
  }

  // ----- DATE_TRUNC of a date -----

  /** Schema position i types batch column i. */
  predicate TypeClause(b: Built) {
    ChainTypes(Body(b.transforms), SourceTypes(b.source, b.done)) == TypesIn(b.schema)
  }

  /** The schema's types are the columns' types at every node of the tree. */
  predicate TypesAgree(plan: Plan, required: Option<seq<Name>>, done: seq<Pipe>) {
    plan.Scan? ||
    (TypesAgree(plan.child, ChildNeeds(plan, required), done)
     && (Compile(plan, required, done).Ok? ==> TypeClause(Compile(plan, required, done).value)))
  }

  lemma {:induction false} ScalarTypesIff(es: seq<ScalarExpr>, schema: seq<Field>, shown: set<Name>, env: map<Name, ColumnType>)
    requires Shows(schema, shown) && SchemaIn(schema, env) && Fresh(Outputs(es), NamesOf(schema)) && CompileScalars(es, schema).Ok?
    ensures var r := CompileScalars(es, schema).value;
            Operators.ResultTypes(r.0) == TypesIn(r.1) <==> TruncFree(es, env)
    decreases |es|
  {
    if es != [] {
      var n := |es| - 1;
      FreshFront(es, schema);
      ScalarTypesIff(es[..n], schema, shown, env);
      var front := CompileScalars(es[..n], schema).value;
      var last := CompileScalar(es[n], schema + front.1).value;
      LastTypes(front.0, front.1, last.0, last.1);
      if TruncFree(es[..n], env) {
        ScalarsIff(es[..n], schema, shown, env);
        ScalarsOk(es[..n], schema, env);
        ScalarNames(es[..n], schema);
        ConcatShows(schema, front.1, shown, Outputs(es[..n]));
        ScalarIff(es[n], schema + front.1, shown + SetOf(Outputs(es[..n])), ProjectEnv(es[..n], env));
        OneTypeIff(es[n], schema + front.1);
      }
    }
  }

  /** A function's column has the type of its field, but for DATE_TRUNC of a date. */
  lemma OneTypeIff(e: ScalarExpr, schema: seq<Field>)
    requires CompileScalar(e, schema).Ok?
    ensures var r := CompileScalar(e, schema).value;
            Scalars.ResultType(r.0) == r.1.ty <==> !(e.TimeTrunc? && r.1.ty != TIMESTAMP)
  {
  }

  lemma LastTypes(fs: seq<Scalars.ScalarFunction>, fields: seq<Field>, f: Scalars.ScalarFunction, field: Field)
    requires |fs| == |fields|
    ensures Operators.ResultTypes(fs + [f]) == TypesIn(fields + [field])
        <==> Operators.ResultTypes(fs) == TypesIn(fields) && Scalars.ResultType(f) == field.ty
  {
    var a, b := Operators.ResultTypes(fs + [f]), TypesIn(fields + [field]);
    assert a == Operators.ResultTypes(fs) + [Scalars.ResultType(f)] && b == TypesIn(fields) + [field.ty];
    assert a[..|fs|] == Operators.ResultTypes(fs) && b[..|fs|] == TypesIn(fields);
    assert a[|fs|] == Scalars.ResultType(f) && b[|fs|] == field.ty;
  }

  lemma ProjectTypesIff(plan: Plan, needs: Option<seq<Name>>, b: Built)
    requires plan.Project? && BuiltOk(b, Env(plan.child)) && Faithful(plan.child, needs, b)
    requires NodePlaced(plan, Shown(plan.child, needs)) && CompileNode(plan, b).Ok?
    ensures TypeClause(CompileNode(plan, b).value) <==> TruncFree(plan.scalars, Env(plan.child))
  {
    var fs := CompileScalars(plan.scalars, b.schema).value;
    ShowsNames(b.schema, Shown(plan.child, needs));
    ScalarTypesIff(plan.scalars, b.schema, Shown(plan.child, needs), Env(plan.child));
    BodyOfOpen(b, Operators.Scalar(fs.0));
    ChainSnoc(b.transforms, Operators.Scalar(fs.0), SourceShape(b.source, b.done), SourceTypes(b.source, b.done));
    SameFront(TypesIn(b.schema), Operators.ResultTypes(fs.0), TypesIn(fs.1));
    TypesInConcat(b.schema, fs.1);
  }

  lemma SameFront<T>(a: seq<T>, x: seq<T>, y: seq<T>)
    ensures a + x == a + y <==> x == y
  {
    assert (a + x)[|a|..] == x && (a + y)[|a|..] == y;
  }

  /**
   The schema types the columns throughout a tree that compiles if and only if no DATE_TRUNC in it reads a DATE: there
   the schema keeps DATE, and the function makes a TIMESTAMP column.
   */
  lemma {:induction false} TypesAgreeExactly(plan: Plan, required: Option<seq<Name>>, done: seq<Pipe>)
    requires PipesOk(done) && Placed(plan, required) && Compile(plan, required, done).Ok?
    ensures TypesAgree(plan, required, done) <==> DateTruncFree(plan)
    decreases plan
  {
    if !plan.Scan? {
      var needs := ChildNeeds(plan, required);
      TypesAgreeExactly(plan.child, needs, done);
      if DateTruncFree(plan.child) {
        CompilesExactly(plan.child, needs, done);
        if plan.Project? {
          ProjectTypesIff(plan, needs, Compile(plan.child, needs, done).value);
        } else {
          CompilesExactly(plan, required, done);
        }
      }
    }
  }

  const D: Name := [100]

  const ONE_DATE: Table := Table([Field(D, DATE)], [])

  lemma NamesOfOne(table: Table, x: Name, required: Option<seq<Name>>)
    requires NamesOf(table.fields) == [x]
    requires required == None || required == Some([x])
    ensures ScanNames(table, [x], required) == [x]
  {
    assert [x][..0] == [];
    assert AddMissing([x], []) == [x];
    assert AddMissing([x], [x][..0]) == [x];
    assert AddMissing([x], [x]) == [x];
  }

  lemma IndicesOfOne(field: Field)
    ensures IndicesOf([field], [field.name]) == Ok([0])
    ensures FieldsAt([field], [0]) == [field]
  {
    assert [field.name][..0] == [];
    assert IndexOf([field], field.name) == Some(0);
    assert IndicesOf([field], []) == Ok([]);
    assert [] + [0] == [0];
  }

  /** A table of one column, scanned for it. */
  lemma ScanOfOne(field: Field, required: Option<seq<Name>>, done: seq<Pipe>)
    requires required == None || required == Some([field.name])
    ensures var table := Table([field], []);
            Compile(Scan(table, [field.name]), required, done) == Ok(Built(done, FromTable(table, [0]), [], [field]))
  {
    var table := Table([field], []);
    assert NamesOf([field]) == [field.name];
    NamesOfOne(table, field.name, required);
    IndicesOfOne(field);
  }

  lemma NeedsOfOne(e: ScalarExpr, x: Name)
    requires ScalarColumns(e) == [x]
    ensures ScalarColumnsOf(e) == [x]
  {
    assert AllScalarColumns([e][..0]) == [];
    assert SortUnique([x][..0]) == [];
  }

  /** One expression over a scan of one column. */
  lemma ProjectOfOne(e: ScalarExpr, field: Field, fs: seq<Scalars.ScalarFunction>, more: seq<Field>)
    requires ScalarColumnsOf(e) == [field.name] && CompileScalars([e], [field]) == Ok((fs, more))
    ensures Compile(Project(Scan(Table([field], []), [field.name]), [e]), None, [])
         == Ok(Built([], FromTable(Table([field], []), [0]), [Operators.Scalar(fs)], [field] + more))
  {
    var scan := Scan(Table([field], []), [field.name]);
    assert ChildNeeds(Project(scan, [e]), None) == Some([field.name]);
    ScanOfOne(field, Some([field.name]), []);
    ProjectOn(scan, [e], None, [], [field], fs, more);
  }

  lemma ProjectOn(child: Plan, es: seq<ScalarExpr>, required: Option<seq<Name>>, done: seq<Pipe>, schema: seq<Field>,
                  fs: seq<Scalars.ScalarFunction>, more: seq<Field>)
    requires child.Scan? && Compile(child, ChildNeeds(Project(child, es), required), done).Ok?
    requires var b := Compile(child, ChildNeeds(Project(child, es), required), done).value; b.schema == schema && b.transforms == []
    requires CompileScalars(es, schema) == Ok((fs, more))
    ensures Compile(Project(child, es), required, done).Ok?
    ensures var b := Compile(child, ChildNeeds(Project(child, es), required), done).value;
            Compile(Project(child, es), required, done).value == Built(b.done, b.source, [Operators.Scalar(fs)], schema + more)
  {
  }

  /** What a projection of one expression asks its child for, when nothing is asked of it. */
  function ScalarColumnsOf(e: ScalarExpr): seq<Name> {
    SortUnique(Without([], Outputs([e])) + AllScalarColumns([e]))
  }

  /** The month of a date column: the plan compiles to a schema that says DATE of a column that is a TIMESTAMP. */
  lemma DateTruncOfDate()
    ensures var r := Compile(Project(Scan(ONE_DATE, [D]), [TimeTrunc(D, Dates.MONTH, B)]), None, []);
            && r.Ok? && TypesIn(r.value.schema) == [DATE, DATE]
            && ChainTypes(Body(r.value.transforms), SourceTypes(r.value.source, r.value.done)) == [DATE, TIMESTAMP]
  {
    var e, field, f := TimeTrunc(D, Dates.MONTH, B), Field(D, DATE), Scalars.TimeTrunc(0, Dates.MONTH);
    NeedsOfOne(e, D);
    assert IndexOf([field], D) == Some(0);
    FirstScalar(e, [field]);
    ProjectOfOne(e, field, [f], [Field(B, DATE)]);
    DateChain(f);
  }

  lemma DateChain(f: Scalars.ScalarFunction)
    requires f.TimeTrunc?
    ensures ChainTypes(Body([Operators.Scalar([f])]), SourceTypes(FromTable(ONE_DATE, [0]), [])) == [DATE, TIMESTAMP]
  {
    var ts := [Operators.Scalar([f])];
    assert ts[..0] == [] && ChainTypes(ts[..0], [DATE]) == [DATE];
    assert ChainTypes(ts, [DATE]) == TypesAfter(ts[0], [DATE]) == [DATE] + Operators.ResultTypes([f]);
    assert PickTypes(TypesIn(ONE_DATE.fields), [0]) == [DATE];
  }
}
