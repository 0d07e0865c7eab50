/**
 What the aggregates of a query mean, told by the cells (src/execution/expressions/AggregationFunctions.h): counts of
 rows and of different cells, sums added up, least and greatest cells, over all rows or over those that agree on the
 group-by columns.
 */
module GroupMeanings {
  import opened Values
  import opened Wrappers
  import opened Batches
  import opened Names
  import opened Plans
  import opened PlanShapes
  import opened NamedRows
  import Aggregates
  import Groupings

  // ----- one aggregate -----

  function Total(cells: seq<Value>): int {
    if cells == [] then 0
    else Total(cells[..|cells| - 1]) + if cells[|cells| - 1].Int? then cells[|cells| - 1].i else 0
  }

  /** `v` is the aggregate of the cells of its column, one for each row. */
  ghost predicate IsAggregateOf(kind: AggKind, ty: ColumnType, v: Value, cells: seq<Value>) {
    match kind
    case CountRows => v == Int(|cells|)
    case SumOf => v == Int(Total(cells))
    case DistinctOf => v == Int(|set i | 0 <= i < |cells| :: cells[i]|)
    case MinOf =>
      if cells == [] then v == (if ty == STRING then Str([]) else Int(0))
      else v in cells && forall i :: 0 <= i < |cells| ==> InOrder(v, cells[i], false)
    case MaxOf =>
      if cells == [] then v == (if ty == STRING then Str([]) else Int(0))
      else v in cells && forall i :: 0 <= i < |cells| ==> InOrder(v, cells[i], true)
  }

  function Cells(rows: seq<Named>, col: Name): (r: seq<Value>)
    ensures |r| == |rows| && forall i :: 0 <= i < |r| ==> r[i] == Get(rows[i], col)
  {
    seq(|rows|, i requires 0 <= i < |rows| => Get(rows[i], col))
  }

  lemma {:induction false} SumIsTotal(rows: seq<Row>, cells: seq<Value>)
    requires |rows| == |cells| && forall i :: 0 <= i < |rows| ==> rows[i] == [cells[i]]
    ensures Aggregates.SumOf(rows, 0) == Total(cells)
    decreases |rows|
  {
    if rows != [] {
      SumIsTotal(rows[..|rows| - 1], cells[..|rows| - 1]);
    }
  }

  /** The type of an aggregate's column in the child. */
  function ColumnType(e: AggExpr, env: map<Name, ColumnType>): ColumnType {
    if e.col in env then env[e.col] else INT64
  }

  lemma AggregateIsOf(e: AggExpr, env: map<Name, ColumnType>, v: Value, rows: seq<Named>)
    requires IsAggNamed(e, env, v, rows)
    ensures IsAggregateOf(e.kind, ColumnType(e, env), v, Cells(rows, e.col))
  {
    var cells, column, f := Cells(rows, e.col), ColumnOf(rows, e.col), AggOf(e, env);
    match e.kind
    case CountRows =>
    case SumOf => SumIsTotal(column, cells);
    case DistinctOf =>
      Aggregates.CountsExactly(0, ColumnType(e, env), v, column);
      assert (set i | 0 <= i < |column| :: column[i][0]) == (set i | 0 <= i < |cells| :: cells[i]);
    case _ =>
      if cells == [] {
        assert column == [];
        Aggregates.ExtremesOfNothing(0, f.ty, v);
      } else {
        ExtremeIsOf(f, v, column, cells);
      }
  }

  lemma ExtremeIsOf(f: Aggregates.AggFunction, v: Value, column: seq<Row>, cells: seq<Value>)
    requires (f.Min? || f.Max?) && f.col == 0 && |column| == |cells| && forall i :: 0 <= i < |cells| ==> column[i] == [cells[i]]
    requires Aggregates.AllRead(f, column) && Aggregates.IsAggregate(f, v, column) && cells != []
    ensures v in cells && forall i :: 0 <= i < |cells| ==> InOrder(v, cells[i], f.Max?)
  {
    Aggregates.ExtremesExactly(f, v, column);
    var i :| 0 <= i < |column| && column[i][0] == v;
    assert cells[i] == v;
    forall j | 0 <= j < |cells| ensures InOrder(v, cells[j], f.Max?) {
      assert column[j][0] == cells[j];
    }
  }

  ghost predicate AggregatesOf(es: seq<AggExpr>, env: map<Name, ColumnType>, row: Named, members: seq<Named>) {
    forall a :: 0 <= a < |es| ==>
      && es[a].output in row
      && IsAggregateOf(es[a].kind, ColumnType(es[a], env), row[es[a].output], Cells(members, es[a].col))
  }

  lemma AggregatesAreOf(es: seq<AggExpr>, env: map<Name, ColumnType>, row: Named, members: seq<Named>)
    requires AggsNamed(es, env, row, members)
    ensures AggregatesOf(es, env, row, members)
  {
    forall a | 0 <= a < |es|
      ensures es[a].output in row
           && IsAggregateOf(es[a].kind, ColumnType(es[a], env), row[es[a].output], Cells(members, es[a].col))
    {
      AggregateIsOf(es[a], env, row[es[a].output], members);
    }
  }

  // ----- aggregates over all rows -----

  /** Without group-by columns there is one row with the aggregates of all rows. */
  lemma TotalsMean(child: Plan, es: seq<AggExpr>, rows: seq<Named>) returns (r0: seq<Named>)
    requires Means(Plan.Aggregate(child, [], es), rows)
    ensures Means(child, r0) && |rows| == 1 && AggregatesOf(es, Env(child), rows[0], r0)
  {
    r0 :| Means(child, r0) && |rows| == 1 && AggsNamed(es, Env(child), rows[0], r0);
    AggregatesAreOf(es, Env(child), rows[0], r0);
  }

  /** MIN and MAX of a column of numbers are numbers of the column, and none is smaller, or larger. */
  lemma ExtremeNumbers(ty: ColumnType, v: Value, cells: seq<Value>)
    requires cells != [] && forall i :: 0 <= i < |cells| ==> cells[i].Int?
    ensures IsAggregateOf(MinOf, ty, v, cells) <==> v in cells && forall i :: 0 <= i < |cells| ==> v.Int? && v.i <= cells[i].i
    ensures IsAggregateOf(MaxOf, ty, v, cells) <==> v in cells && forall i :: 0 <= i < |cells| ==> v.Int? && v.i >= cells[i].i
  {
  }

  /** The types of the aggregates' columns; a SUM is widened. */
  lemma TypesOfAggregates(child: Plan, e: AggExpr)
    requires e.col in Env(child)
    ensures var env, ty := Env(Plan.Aggregate(child, [], [e])), Env(child)[e.col];
            && e.output in env
            && match e.kind
               case CountRows => env[e.output] == INT64
               case DistinctOf => env[e.output] == INT64
               case MinOf => env[e.output] == ty
               case MaxOf => env[e.output] == ty
               case SumOf =>
                 && (ty == INT16 ==> env[e.output] == INT32) && (ty == INT32 ==> env[e.output] == INT64)
                 && (ty == INT64 || ty == INT128 ==> env[e.output] == INT128)
  {
    assert [e][..0] == [];
    assert OutputEnv([e], Env(child)) == OutputEnv([e][..0], Env(child))[e.output := AggType(e, Env(child))];
  }

  // ----- aggregates by group -----

  /** The input row has the key of the result row. */
  ghost predicate SameKey(groupBy: seq<Name>, row: Named, input: Named) {
    forall k :: 0 <= k < |groupBy| ==> groupBy[k] in row && row[groupBy[k]] == Get(input, groupBy[k])
  }

  function At<T>(rows: seq<T>, at: seq<nat>): (r: seq<T>)
    requires forall i :: 0 <= i < |at| ==> at[i] < |rows|
    ensures |r| == |at|
  {
    seq(|at|, i requires 0 <= i < |at| => rows[at[i]])
  }

  lemma AtOneMore<T>(rows: seq<T>, at: seq<nat>, n: nat)
    requires n < |rows| && forall i :: 0 <= i < |at| ==> at[i] < n
    ensures At(rows, at) == At(rows[..n], at) && At(rows, at + [n]) == At(rows[..n], at) + [rows[n]]
  {
  }

  lemma LaterPosition(front: seq<nat>, n: nat, taken: bool) returns (at: seq<nat>)
    requires StrictlyIncreasing(front) && forall i :: 0 <= i < |front| ==> front[i] < n
    ensures at == (if taken then front + [n] else front) && StrictlyIncreasing(at)
    ensures forall j: nat :: j in at <==> j in front || (taken && j == n)
    ensures forall i :: 0 <= i < |at| ==> at[i] <= n
  {
    at := if taken then front + [n] else front;
  }

  lemma {:induction false} WithKeyAt<R, K>(key: R -> K, k: K, rows: seq<R>) returns (at: seq<nat>)
    ensures StrictlyIncreasing(at) && forall j: nat :: j in at <==> j < |rows| && key(rows[j]) == k
    ensures (forall i :: 0 <= i < |at| ==> at[i] < |rows|) && At(rows, at) == Groupings.WithKey(key, k, rows)
    decreases |rows|
  {
    if rows == [] {
      return [];
    }
    var n := |rows| - 1;
    var front := WithKeyAt(key, k, rows[..n]);
    AtOneMore(rows, front, n);
    at := LaterPosition(front, n, key(rows[n]) == k);
    forall j: nat | j < n ensures rows[..n][j] == rows[j] { }
    WithKeyOneMore(key, k, rows);
  }

  lemma WithKeyOneMore<R, K>(key: R -> K, k: K, rows: seq<R>)
    requires rows != []
    ensures var n := |rows| - 1;
            Groupings.WithKey(key, k, rows)
              == if key(rows[n]) == k then Groupings.WithKey(key, k, rows[..n]) + [rows[n]] else Groupings.WithKey(key, k, rows[..n])
  {
  }

  /** Row g of the result and the positions of its members: exactly the input rows with its key, in order, at least one. */
  ghost predicate IsGroup(groupBy: seq<Name>, es: seq<AggExpr>, env: map<Name, ColumnType>, row: Named, input: seq<Named>, at: seq<nat>) {
    && at != [] && StrictlyIncreasing(at) && (forall i :: 0 <= i < |at| ==> at[i] < |input|)
    && (forall j: nat :: j in at <==> j < |input| && SameKey(groupBy, row, input[j]))
    && AggregatesOf(es, env, row, At(input, at))
  }

  lemma KeyIs(groupBy: seq<Name>, row: Named, k: seq<Value>, input: Named)
    requires |k| == |groupBy| && forall i :: 0 <= i < |groupBy| ==> groupBy[i] in row && row[groupBy[i]] == k[i]
    ensures NamedKey(groupBy)(input) == k <==> SameKey(groupBy, row, input)
  {
    var own := NamedKey(groupBy)(input);
    assert |own| == |k|;
    if SameKey(groupBy, row, input) {
      forall i | 0 <= i < |k| ensures own[i] == k[i] {
      }
      assert own == k;
    }
  }

  lemma GroupAt(groupBy: seq<Name>, es: seq<AggExpr>, env: map<Name, ColumnType>, row: Named, k: seq<Value>, input: seq<Named>)
    returns (at: seq<nat>)
    requires k in Groupings.Mapped(NamedKey(groupBy), input)
    requires GroupNamed(groupBy, es, env, row, k, Groupings.WithKey(NamedKey(groupBy), k, input))
    ensures IsGroup(groupBy, es, env, row, input, at)
  {
    at := WithKeyAt(NamedKey(groupBy), k, input);
    forall j: nat | j < |input| ensures NamedKey(groupBy)(input[j]) == k <==> SameKey(groupBy, row, input[j]) {
      KeyIs(groupBy, row, k, input[j]);
    }
    var j :| 0 <= j < |input| && Groupings.Mapped(NamedKey(groupBy), input)[j] == k;
    assert j in at;
    AggregatesAreOf(es, env, row, At(input, at));
  }

  ghost predicate InSomeGroup(groupBy: seq<Name>, rows: seq<Named>, input: Named) {
    exists g :: 0 <= g < |rows| && SameKey(groupBy, rows[g], input)
  }

  /** They differ in a group-by column. */
  ghost predicate KeysDiffer(groupBy: seq<Name>, a: Named, b: Named) {
    exists k :: 0 <= k < |groupBy| && groupBy[k] in a && groupBy[k] in b && a[groupBy[k]] != b[groupBy[k]]
  }

  ghost predicate HasGroup(groupBy: seq<Name>, es: seq<AggExpr>, env: map<Name, ColumnType>, row: Named, input: seq<Named>) {
    exists at: seq<nat> :: IsGroup(groupBy, es, env, row, input, at)
  }

  /**
   With group-by columns every input row is a member of some group, no two groups have one key, and each has one row
   with the key and the aggregates of its members.
   */
  lemma GroupsMean(child: Plan, groupBy: seq<Name>, es: seq<AggExpr>, rows: seq<Named>) returns (r0: seq<Named>)
    requires groupBy != [] && Means(Plan.Aggregate(child, groupBy, es), rows)
    ensures Means(child, r0)
    ensures forall g :: 0 <= g < |rows| ==> HasGroup(groupBy, es, Env(child), rows[g], r0)
    ensures forall j :: 0 <= j < |r0| ==> InSomeGroup(groupBy, rows, r0[j])
    ensures forall g, h :: 0 <= g < h < |rows| ==> KeysDiffer(groupBy, rows[g], rows[h])
  {
    r0 :| Means(child, r0) && IsGroupedNamed(groupBy, es, Env(child), rows, r0);
    GroupsOf(groupBy, es, Env(child), rows, r0);
  }

  lemma GroupsOf(groupBy: seq<Name>, es: seq<AggExpr>, env: map<Name, ColumnType>, rows: seq<Named>, input: seq<Named>)
    requires IsGroupedNamed(groupBy, es, env, rows, input)
    ensures forall g :: 0 <= g < |rows| ==> HasGroup(groupBy, es, env, rows[g], input)
    ensures forall j :: 0 <= j < |input| ==> InSomeGroup(groupBy, rows, input[j])
    ensures forall g, h :: 0 <= g < h < |rows| ==> KeysDiffer(groupBy, rows[g], rows[h])
  {
    var ks: seq<seq<Value>> :|
      && |ks| == |rows| && Groupings.Distinct(ks) && Groupings.KeysCover(NamedKey(groupBy), ks, input)
      && forall g :: 0 <= g < |ks| ==>
           GroupNamed(groupBy, es, env, rows[g], ks[g], Groupings.WithKey(NamedKey(groupBy), ks[g], input));
    forall g | 0 <= g < |rows| ensures HasGroup(groupBy, es, env, rows[g], input) && ShowsKey(groupBy, rows[g], ks[g]) {
      var at := GroupAt(groupBy, es, env, rows[g], ks[g], input);
    }
    KeysFound(groupBy, rows, ks, input);
    KeysApart(groupBy, rows, ks);
  }

  ghost predicate ShowsKey(groupBy: seq<Name>, row: Named, k: seq<Value>) {
    |k| == |groupBy| && forall i :: 0 <= i < |groupBy| ==> groupBy[i] in row && row[groupBy[i]] == k[i]
  }

  lemma KeysFound(groupBy: seq<Name>, rows: seq<Named>, ks: seq<seq<Value>>, input: seq<Named>)
    requires |ks| == |rows| && forall g :: 0 <= g < |rows| ==> ShowsKey(groupBy, rows[g], ks[g])
    requires Groupings.KeysCover(NamedKey(groupBy), ks, input)
    ensures forall j :: 0 <= j < |input| ==> InSomeGroup(groupBy, rows, input[j])
  {
    forall j | 0 <= j < |input| ensures InSomeGroup(groupBy, rows, input[j]) {
      var k := NamedKey(groupBy)(input[j]);
      assert k in ks;
      var g :| 0 <= g < |ks| && ks[g] == k;
      assert ShowsKey(groupBy, rows[g], ks[g]);
      KeyIs(groupBy, rows[g], ks[g], input[j]);
      assert SameKey(groupBy, rows[g], input[j]);
    }
  }

  lemma KeysApart(groupBy: seq<Name>, rows: seq<Named>, ks: seq<seq<Value>>)
    requires |ks| == |rows| && Groupings.Distinct(ks) && forall g :: 0 <= g < |rows| ==> ShowsKey(groupBy, rows[g], ks[g])
    ensures forall g, h :: 0 <= g < h < |rows| ==> KeysDiffer(groupBy, rows[g], rows[h])
  {
    forall g, h | 0 <= g < h < |rows| ensures KeysDiffer(groupBy, rows[g], rows[h]) {
      assert ShowsKey(groupBy, rows[g], ks[g]) && ShowsKey(groupBy, rows[h], ks[h]);
      DifferAt(ks[g], ks[h]);
    }
  }

  lemma DifferAt<T>(a: seq<T>, b: seq<T>)
    requires |a| == |b| && a != b
    ensures exists k :: 0 <= k < |a| && a[k] != b[k]
  {
  }
}
