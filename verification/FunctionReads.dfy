/**
 Whether the functions of a compiled plan read columns of the types they were made for
 (src/execution/expressions/ScalarExpressions.h, ScalarFunctions.h): the functions cast a column to their own column
 class without a check, and two expressions are compiled without looking at the column's type closely enough.
 */
module FunctionReads {
  import opened Values
  import opened Wrappers
  import opened Batches
  import opened Builders
  import opened Names
  import opened Operators
  import opened Execution
  import opened Plans
  import opened PlanShapes
  import opened PlanForms
  import Filters
  import Scalars
  import Sequences

  predicate BranchOwn(b: Scalars.Branch, ty: ColumnType, types: seq<ColumnType>) {
    b.ColumnRef? ==> b.col < |types| && types[b.col] == ty
  }

  /** Each column that the function casts has the type it is cast to. */
  predicate ReadsOwn(f: Scalars.ScalarFunction, types: seq<ColumnType>) {
    match f
    case ExtractMinute(c) => c < |types| && types[c] == TIMESTAMP
    case TimeTrunc(c, _) => c < |types| && types[c] == TIMESTAMP
    case Length(c) => c < |types| && types[c] == STRING
    case Constant(_, _) => true
    case AddConstant(ty, c, _) => c < |types| && types[c] == ty
    case CaseWhen(ty, _, yes, no) => BranchOwn(yes, ty, types) && BranchOwn(no, ty, types)
  }

  /** The functions of a projection, each on the columns extended by the ones before it. */
  predicate FunctionsReadOwn(fs: seq<Scalars.ScalarFunction>, types: seq<ColumnType>) {
    fs == [] ||
    var n := |fs| - 1;
    FunctionsReadOwn(fs[..n], types) && ReadsOwn(fs[n], types + Operators.ResultTypes(fs[..n]))
  }

  /** The functions of every projection of the tree, on the columns that its batches really have. */
  predicate ReadsAgree(plan: Plan, required: Option<seq<Name>>, done: seq<Pipe>) {
    plan.Scan? ||
    var below := Compile(plan.child, ChildNeeds(plan, required), done);
    && ReadsAgree(plan.child, ChildNeeds(plan, required), done)
    && (plan.Project? && below.Ok? && CompileScalars(plan.scalars, below.value.schema).Ok? ==>
          var b := below.value;
          FunctionsReadOwn(CompileScalars(plan.scalars, b.schema).value.0,
                           ChainTypes(Body(b.transforms), SourceTypes(b.source, b.done))))
  }

  /** One expression misreads a column only as a DATE_TRUNC of a DATE or in a CASE branch of another type. */
  lemma ScalarReads(e: ScalarExpr, schema: seq<Field>, shown: set<Name>, env: map<Name, ColumnType>)
    requires Shows(schema, shown) && SchemaIn(schema, env) && CompileScalar(e, schema).Ok?
    ensures ReadsOwn(CompileScalar(e, schema).value.0, TypesIn(schema))
        <==> !(e.TimeTrunc? && e.col in env && env[e.col] == DATE)
             && (e.CaseWhen? ==> BranchAgrees(e.yes, e.ty, env) && BranchAgrees(e.no, e.ty, env))
  {
    match e
    case Literal(_, _, _) =>
    case CaseWhen(_, yes, no, _, _) =>
      if yes.ColRef? { LookUp(schema, shown, env, yes.col); }
      if no.ColRef? { LookUp(schema, shown, env, no.col); }
    case _ => LookUp(schema, shown, env, e.col);
  }

  lemma {:induction false} ScalarsRead(es: seq<ScalarExpr>, schema: seq<Field>, shown: set<Name>, env: map<Name, ColumnType>)
    requires Shows(schema, shown) && SchemaIn(schema, env) && Fresh(Outputs(es), NamesOf(schema)) && CompileScalars(es, schema).Ok?
    ensures FunctionsReadOwn(CompileScalars(es, schema).value.0, TypesIn(schema)) <==> TruncFree(es, env) && CasesAgree(es, env)
    decreases |es|
  {
    if es != [] {
      var n := |es| - 1;
      var front := CompileScalars(es[..n], schema).value;
      FreshFront(es, schema);
      ScalarsRead(es[..n], schema, shown, env);
      assert CompileScalars(es, schema).value.0[..n] == front.0;
      if TruncFree(es[..n], env) {
        ScalarTypesIff(es[..n], schema, shown, env);
        ScalarsIff(es[..n], schema, shown, env);
        ScalarsOk(es[..n], schema, env);
        ScalarNames(es[..n], schema);
        ConcatShows(schema, front.1, shown, Outputs(es[..n]));
        TypesInConcat(schema, front.1);
        ScalarReads(es[n], schema + front.1, shown + SetOf(Outputs(es[..n])), ProjectEnv(es[..n], env));
      }
    }
  }

  /**
   In a tree that compiles, every function reads columns of its own type if and only if no DATE_TRUNC reads a DATE
   and no CASE takes a branch from a column of another type than it declares.
   */
  lemma {:induction false} ReadsAgreeExactly(plan: Plan, required: Option<seq<Name>>, done: seq<Pipe>)
    requires PipesOk(done) && Placed(plan, required) && Compile(plan, required, done).Ok?
    ensures ReadsAgree(plan, required, done) <==> DateTruncFree(plan) && CasesTyped(plan)
    decreases plan
  {
    if !plan.Scan? {
      var needs := ChildNeeds(plan, required);
      ReadsAgreeExactly(plan.child, needs, done);
      if DateTruncFree(plan.child) && plan.Project? {
        CompilesExactly(plan.child, needs, done);
        ProjectReads(plan, needs, Compile(plan.child, needs, done).value);
      }
    }
  }

  lemma ProjectReads(plan: Plan, needs: Option<seq<Name>>, b: Built)
    requires plan.Project? && BuiltOk(b, Env(plan.child)) && Faithful(plan.child, needs, b)
    requires NodePlaced(plan, Shown(plan.child, needs)) && CompileNode(plan, b).Ok?
    ensures FunctionsReadOwn(CompileScalars(plan.scalars, b.schema).value.0, ChainTypes(Body(b.transforms), SourceTypes(b.source, b.done)))
        <==> TruncFree(plan.scalars, Env(plan.child)) && CasesAgree(plan.scalars, Env(plan.child))
  {
    ShowsNames(b.schema, Shown(plan.child, needs));
    ScalarsRead(plan.scalars, b.schema, Shown(plan.child, needs), Env(plan.child));
  }

  /** The functions of a well-formed projection read columns of their own types. */
  lemma ProjectReadsOwn(plan: Plan, required: Option<seq<Name>>, done: seq<Pipe>)
    requires plan.Project? && PipesOk(done) && WellFormed(plan, required)
    ensures Compile(plan.child, ChildNeeds(plan, required), done).Ok?
    ensures var b := Compile(plan.child, ChildNeeds(plan, required), done).value;
            CompileScalars(plan.scalars, b.schema).Ok? && FunctionsReadOwn(CompileScalars(plan.scalars, b.schema).value.0, TypesIn(b.schema))
  {
    var needs := ChildNeeds(plan, required);
    CompiledOk(plan, required, done);
    CompilesExactly(plan.child, needs, done);
    ProjectReads(plan, needs, Compile(plan.child, needs, done).value);
  }

  // ----- a branch of another type -----

  /** CASE WHEN a > 0 THEN a ELSE 0 END, declared INT32. */
  const NARROW: ScalarExpr :=
    CaseWhen(Cmp(A, Filters.Greater, INT64, Int(0)), ColRef(A), LiteralBranch(Int(0)), INT32, B)

  /** What the CASE is compiled to over a first column a. */
  const NARROWED: Scalars.ScalarFunction :=
    Scalars.CaseWhen(INT32, Filters.Compare(0, Filters.Greater, Int(0)), Scalars.ColumnRef(0), Scalars.Literal(Int(0)))

  /** Over a column a of INT64 it compiles, to a function that reads that column as INT32. */
  lemma CaseOfOtherType()
    ensures var plan := Project(Scan(ONE_COLUMN, [A]), [NARROW]);
            && Compile(plan, None, []) == Ok(Built([], FromTable(ONE_COLUMN, [0]), [Operators.Scalar([NARROWED])], [Field(A, INT64), Field(B, INT32)]))
            && SourceTypes(FromTable(ONE_COLUMN, [0]), []) == [INT64] && !ReadsOwn(NARROWED, [INT64]) && !CasesTyped(plan)
  {
    CaseNeeds();
    CaseCompiles();
    ProjectOfOne(NARROW, Field(A, INT64), [NARROWED], [Field(B, INT32)]);
    CaseMisreads();
  }

  lemma CaseMisreads()
    ensures SourceTypes(FromTable(ONE_COLUMN, [0]), []) == [INT64] && !ReadsOwn(NARROWED, [INT64])
    ensures !CasesTyped(Project(Scan(ONE_COLUMN, [A]), [NARROW]))
    ensures [Field(A, INT64)] + [Field(B, INT32)] == [Field(A, INT64), Field(B, INT32)]
  {
    CaseDisagrees();
    assert PickTypes(TypesIn(ONE_COLUMN.fields), [0]) == [INT64];
  }

  lemma CaseCompiles()
    ensures CompileScalars([NARROW], [Field(A, INT64)]) == Ok(([NARROWED], [Field(B, INT32)]))
  {
    assert IndexOf([Field(A, INT64)], A) == Some(0);
    FirstScalar(NARROW, [Field(A, INT64)]);
  }

  lemma CaseNeeds()
    ensures ScalarColumnsOf(NARROW) == [A]
  {
    assert AllScalarColumns([NARROW][..0]) == [];
    var names := Without([], Outputs([NARROW])) + AllScalarColumns([NARROW]);
    SortUniqueSorted(names);
    SortedUnique([A], SortUnique(names));
  }

  lemma CaseDisagrees()
    ensures !CasesAgree([NARROW], FieldEnv([Field(A, INT64)]))
  {
    FieldEnvFirst([Field(A, INT64)], A);
    assert [NARROW][..0] == [];
  }
}
