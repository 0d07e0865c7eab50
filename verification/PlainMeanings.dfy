/**
 What a plan means, node by node, told by the cells: numbers compared as numbers, strings byte by byte, sums and lengths
 written out.  The meaning of NamedRows is built from the functions that the operators use; here it is said without them.
 */
module PlainMeanings {
  import opened Values
  import opened Wrappers
  import opened Batches
  import opened Builders
  import opened Names
  import opened Orderings
  import opened Plans
  import opened PlanShapes
  import opened NamedRows
  import Filters
  import Groupings
  import OrderBys = OrderBy
  import PipelineRows
  import Rankings
  import Scalars

  // ----- WHERE -----

  ghost predicate TrueOf(e: FilterExpr, r: Named) {
    match e
    case Cmp(_, _, _, _) => Filters.Meets(e.op, Get(r, e.col), e.target)
    case AndExpr(a, b) => TrueOf(a, r) && TrueOf(b, r)
    case OrExpr(a, b) => TrueOf(a, r) || TrueOf(b, r)
  }

  lemma {:induction false} HoldsNamedExactly(e: FilterExpr, r: Named)
    ensures HoldsNamed(e, r) <==> TrueOf(e, r)
  {
    match e
    case Cmp(col, op, _, target) => Filters.PassesExactly(op, Get(r, col), target);
    case AndExpr(a, b) =>
      HoldsNamedExactly(a, r);
      HoldsNamedExactly(b, r);
    case OrExpr(a, b) =>
      HoldsNamedExactly(a, r);
      HoldsNamedExactly(b, r);
  }

  lemma {:induction false} KeptNamed(e: FilterExpr, rows: seq<Named>) returns (kept: seq<nat>)
    ensures StrictlyIncreasing(kept) && |kept| == |KeepNamed(e, rows)|
    ensures forall i :: 0 <= i < |kept| ==> kept[i] < |rows| && KeepNamed(e, rows)[i] == rows[kept[i]]
    ensures forall j: nat :: j in kept <==> j < |rows| && TrueOf(e, rows[j])
    decreases |rows|
  {
    if rows == [] {
      return [];
    }
    var later := KeptNamed(e, rows[1..]);
    HoldsNamedExactly(e, rows[0]);
    kept := KeptAhead(rows, KeepNamed(e, rows[1..]), later, TrueOf(e, rows[0]));
    forall j: nat ensures j in kept <==> j < |rows| && TrueOf(e, rows[j]) {
      if 0 < j < |rows| {
        assert rows[1..][j - 1] == rows[j];
      }
    }
  }

  /** A filter leaves the rows on which its condition is true, in their order. */
  lemma FilterMeans(child: Plan, cond: FilterExpr, rows: seq<Named>) returns (r0: seq<Named>, kept: seq<nat>)
    requires Means(Plan.Filter(child, cond), rows)
    ensures Means(child, r0) && StrictlyIncreasing(kept) && |kept| == |rows|
    ensures forall i :: 0 <= i < |rows| ==> kept[i] < |r0| && rows[i] == r0[kept[i]]
    ensures forall j: nat :: j in kept <==> j < |r0| && TrueOf(cond, r0[j])
  {
    r0 :| Means(child, r0) && rows == KeepNamed(cond, r0);
    kept := KeptNamed(cond, r0);
  }

  /** a > k on a column of numbers: such a row of the child is kept, and no other. */
  lemma FilterGreater(col: Name, ty: ColumnType, k: int, r: Named)
    requires col in r && r[col].Int?
    ensures TrueOf(Cmp(col, Filters.Greater, ty, Int(k)), r) <==> r[col].i > k
  {
  }

  /** (a > k and b LIKE t) or c <= m on the columns of one row. */
  lemma FilterNested(a: Name, k: int, b: Name, t: seq<Byte>, c: Name, m: int, ty: ColumnType, r: Named)
    requires a in r && r[a].Int? && b in r && r[b].Str? && c in r && r[c].Int?
    ensures TrueOf(OrExpr(AndExpr(Cmp(a, Filters.Greater, ty, Int(k)), Cmp(b, Filters.Like, STRING, Str(t))),
                          Cmp(c, Filters.LessEq, ty, Int(m))), r)
       <==> (r[a].i > k && exists j: nat :: j <= |r[b].s| && t <= r[b].s[j..]) || r[c].i <= m
  {
    var left := AndExpr(Cmp(a, Filters.Greater, ty, Int(k)), Cmp(b, Filters.Like, STRING, Str(t)));
    assert TrueOf(left, r) <==> r[a].i > k && Filters.Meets(Filters.Like, r[b], Str(t));
    assert TrueOf(Cmp(c, Filters.LessEq, ty, Int(m)), r) <==> r[c].i <= m;
  }

  // ----- LIMIT -----

  /** A limit leaves the first rows, as many as it allows. */
  lemma LimitMeans(child: Plan, n: nat, rows: seq<Named>) returns (r0: seq<Named>)
    requires Means(Plan.Limit(child, n), rows)
    ensures Means(child, r0) && |rows| == (if n < |r0| then n else |r0|)
    ensures forall i :: 0 <= i < |rows| ==> rows[i] == r0[i]
  {
    r0 :| Means(child, r0) && rows == PipelineRows.Take(r0, Some(n));
  }

  // ----- computed columns -----

  ghost predicate IsBranchOf(b: BranchExpr, r: Named, v: Value) {
    if b.ColRef? then b.col in r ==> v == r[b.col] else v == b.value
  }

  /** What a reader of the query expects of the value of an expression on a row. */
  ghost predicate ComputesOn(e: ScalarExpr, env: map<Name, ColumnType>, r: Named, v: Value) {
    match e
    case Literal(_, c, _) => v == c
    case AddConst(_, _, _) =>
      e.col in env && e.col in r && r[e.col].Int? ==> v.Int? && Scalars.Adds(env[e.col], r[e.col].i, e.constant, v.i)
    case Length(_, _) => e.col in r && r[e.col].Str? && Scalars.InInt64(|r[e.col].s|) ==> v == Int(|r[e.col].s|)
    case ExtractMinute(_, _) => e.col in r && r[e.col].Int? ==> v == Int(r[e.col].i % 86400 % 3600 / 60)
    case TimeTrunc(_, _, _) => e.col in r && r[e.col].Int? ==> Scalars.IsStart(e.unit, r[e.col].i, v)
    case CaseWhen(_, _, _, _, _) => if TrueOf(e.cond, r) then IsBranchOf(e.yes, r, v) else IsBranchOf(e.no, r, v)
  }

  /** The row with one more column, or with that column replaced, and all others as they were. */
  ghost predicate OneMore(e: ScalarExpr, env: map<Name, ColumnType>, before: Named, after: Named) {
    && after.Keys == before.Keys + {e.output}
    && (forall x | x in before && x != e.output :: after[x] == before[x])
    && ComputesOn(e, env, before, after[e.output])
  }

  /** One expression after the other, each on what the ones before it have left. */
  ghost predicate Extended(es: seq<ScalarExpr>, env: map<Name, ColumnType>, before: Named, after: Named) {
    exists steps: seq<Named> ::
      && |steps| == |es| + 1 && steps[0] == before && steps[|es|] == after
      && forall k :: 0 <= k < |es| ==> OneMore(es[k], ProjectEnv(es[..k], env), steps[k], steps[k + 1])
  }

  lemma EvalComputes(e: ScalarExpr, env: map<Name, ColumnType>, r: Named)
    ensures ComputesOn(e, env, r, EvalScalar(e, env, r))
  {
    match e
    case Literal(_, _, _) =>
    case CaseWhen(_, _, _, _, _) => HoldsNamedExactly(e.cond, r);
    case AddConst(_, _, _) => Scalars.CellComputes(Scalars.AddConstant(ScalarType(e, env), 0, e.constant), [Get(r, e.col)]);
    case Length(_, _) => Scalars.CellComputes(Scalars.Length(0), [Get(r, e.col)]);
    case ExtractMinute(_, _) => Scalars.CellComputes(Scalars.ExtractMinute(0), [Get(r, e.col)]);
    case TimeTrunc(_, _, _) => Scalars.CellComputes(Scalars.TimeTrunc(0, e.unit), [Get(r, e.col)]);
  }

  lemma {:induction false} ExtendedSteps(es: seq<ScalarExpr>, env: map<Name, ColumnType>, r: Named) returns (steps: seq<Named>)
    ensures |steps| == |es| + 1 && steps[0] == r && steps[|es|] == ExtendNamed(es, env, r)
    ensures forall k :: 0 <= k < |es| ==> OneMore(es[k], ProjectEnv(es[..k], env), steps[k], steps[k + 1])
    decreases |es|
  {
    if es == [] {
      return [r];
    }
    var n := |es| - 1;
    var front := ExtendedSteps(es[..n], env, r);
    EvalComputes(es[n], ProjectEnv(es[..n], env), front[n]);
    steps := front + [ExtendNamed(es, env, r)];
    forall k | 0 <= k < |es| ensures OneMore(es[k], ProjectEnv(es[..k], env), steps[k], steps[k + 1]) {
      if k < n {
        assert es[..n][..k] == es[..k];
        assert OneMore(es[..n][k], ProjectEnv(es[..n][..k], env), front[k], front[k + 1]);
      }
    }
  }

  /** A projection adds its columns to every row and leaves the others alone. */
  lemma ProjectMeans(child: Plan, es: seq<ScalarExpr>, rows: seq<Named>) returns (r0: seq<Named>)
    requires Means(Plan.Project(child, es), rows)
    ensures Means(child, r0) && |rows| == |r0|
    ensures forall i :: 0 <= i < |rows| ==> Extended(es, Env(child), r0[i], rows[i])
  {
    r0 :| Means(child, r0) && rows == Groupings.Mapped(r => ExtendNamed(es, Env(child), r), r0);
    forall i | 0 <= i < |rows| ensures Extended(es, Env(child), r0[i], rows[i]) {
      var steps := ExtendedSteps(es, Env(child), r0[i]);
    }
  }

  /** a + k under the name b, for a column a of 64-bit numbers whose sums fit. */
  lemma ProjectAdds(a: Name, k: int, b: Name, env: map<Name, ColumnType>, before: Named, after: Named)
    requires a in env && env[a] == INT64 && a in before && before[a].Int?
    requires -0x8000_0000_0000_0000 <= before[a].i + k < 0x8000_0000_0000_0000
    requires OneMore(AddConst(a, k, b), env, before, after)
    ensures after[b] == Int(before[a].i + k)
  {
    Scalars.AddsInRange(INT64, before[a].i, k, after[b].i);
  }

  /** The types of the new columns. */
  lemma OutputTypes(child: Plan, e: ScalarExpr)
    ensures var env := Env(Plan.Project(child, [e]));
            && e.output in env
            && match e
               case Literal(ty, _, _) => env[e.output] == ty
               case AddConst(_, _, _) => e.col in Env(child) ==> env[e.output] == Env(child)[e.col]
               case Length(_, _) => env[e.output] == INT64
               case ExtractMinute(_, _) => env[e.output] == INT32
               case TimeTrunc(_, _, _) => env[e.output] == TIMESTAMP
               case CaseWhen(_, _, _, ty, _) => env[e.output] == ty
  {
    assert [e][..0] == [];
    assert ProjectEnv([e], Env(child)) == ProjectEnv([e][..0], Env(child))[e.output := ScalarType(e, Env(child))];
  }

  // ----- dropping and reordering columns -----

  /** DROP takes the columns out of every row and leaves the others alone. */
  lemma DropMeans(child: Plan, names: seq<Name>, rows: seq<Named>) returns (r0: seq<Named>)
    requires Means(Plan.Drop(child, names), rows)
    ensures Means(child, r0) && |rows| == |r0|
    ensures forall i, x :: 0 <= i < |rows| ==> (x in rows[i] <==> x in r0[i] && x !in names)
    ensures forall i, x :: 0 <= i < |rows| && x in rows[i] ==> rows[i][x] == r0[i][x]
  {
    r0 :| Means(child, r0) && rows == Groupings.Mapped(r => DropNamed(names, r), r0);
  }

  /** A reordering keeps the listed columns only. */
  lemma ReorderMeans(child: Plan, names: seq<Name>, rows: seq<Named>) returns (r0: seq<Named>)
    requires Means(Plan.Reorder(child, names), rows)
    ensures Means(child, r0) && |rows| == |r0|
    ensures forall i, x :: 0 <= i < |rows| ==> (x in rows[i] <==> x in r0[i] && x in names)
    ensures forall i, x :: 0 <= i < |rows| && x in rows[i] ==> rows[i][x] == r0[i][x]
  {
    r0 :| Means(child, r0) && rows == Groupings.Mapped(r => OnlyNamed(names, r), r0);
  }

  // ----- ORDER BY -----

  ghost predicate AgreeOn(keys: seq<OrderKey>, a: Named, b: Named, k: nat)
    requires k <= |keys|
  {
    forall i :: 0 <= i < k ==> Get(a, keys[i].col) == Get(b, keys[i].col)
  }

  /** On every key up to which the rows agree, the cell of `a` may stand before that of `b`. */
  ghost predicate MayPrecede(keys: seq<OrderKey>, a: Named, b: Named) {
    forall k: nat {:trigger AgreeOn(keys, a, b, k)} :: k < |keys| && AgreeOn(keys, a, b, k) ==>
      InOrder(Get(a, keys[k].col), Get(b, keys[k].col), keys[k].desc)
  }

  lemma {:induction false} MayPrecedeIs(keys: seq<OrderKey>, a: Named, b: Named)
    ensures !NamedBefore(keys, b, a) ==> MayPrecede(keys, a, b)
    decreases |keys|
  {
    if keys != [] && !NamedBefore(keys, b, a) {
      var x, y := Get(a, keys[0].col), Get(b, keys[0].col);
      InOrderExactly(x, y, keys[0].desc);
      LessIsStrictTotal(x, y, x);
      if x == y {
        MayPrecedeIs(keys[1..], a, b);
      }
      forall k: nat | k < |keys| && AgreeOn(keys, a, b, k) ensures InOrder(Get(a, keys[k].col), Get(b, keys[k].col), keys[k].desc) {
        if k > 0 {
          assert Get(a, keys[0].col) == Get(b, keys[0].col);
          AgreeOnRest(keys, a, b, k);
        }
      }
    }
  }

  lemma AgreeOnRest(keys: seq<OrderKey>, a: Named, b: Named, k: nat)
    requires 0 < k < |keys| && AgreeOn(keys, a, b, k)
    ensures AgreeOn(keys[1..], a, b, k - 1) && keys[1..][k - 1] == keys[k]
  {
    forall i | 0 <= i < k - 1 ensures Get(a, keys[1..][i].col) == Get(b, keys[1..][i].col) {
      assert keys[1..][i] == keys[i + 1];
    }
  }

  /** A sort delivers a window of its child's rows put into the order of the keys. */
  lemma OrderMeans(child: Plan, keys: seq<OrderKey>, limit: Option<nat>, offset: Option<nat>, rows: seq<Named>)
    returns (r0: seq<Named>, p: seq<Named>)
    requires Means(Plan.OrderBy(child, keys, limit, offset), rows)
    ensures Means(child, r0) && multiset(p) == multiset(r0)
    ensures forall i, j :: 0 <= i < j < |p| ==> MayPrecede(keys, p[i], p[j])
    ensures var from := if offset.Some? then offset.value else 0;
            && |rows| == (if from >= |p| then 0 else if limit.Some? && limit.value < |p| - from then limit.value else |p| - from)
            && forall i :: 0 <= i < |rows| ==> rows[i] == p[from + i]
  {
    r0, p :| Means(child, r0) && Rankings.Arranges(NamedOrder(keys), p, r0) && rows == OrderBys.Window(p, limit, offset);
    OrderBys.WindowExactly(rows, p, limit, offset);
    forall i, j | 0 <= i < j < |p| ensures MayPrecede(keys, p[i], p[j]) {
      assert !NamedOrder(keys)(p[j], p[i]);
      MayPrecedeIs(keys, p[i], p[j]);
    }
  }

  /** By a column of numbers, ascending or descending. */
  lemma OrderOfNumbers(keys: seq<OrderKey>, a: Named, b: Named)
    requires keys != [] && MayPrecede(keys, a, b)
    requires keys[0].col in a && keys[0].col in b && a[keys[0].col].Int? && b[keys[0].col].Int?
    ensures if keys[0].desc then a[keys[0].col].i >= b[keys[0].col].i else a[keys[0].col].i <= b[keys[0].col].i
  {
    assert AgreeOn(keys, a, b, 0);
  }

  // ----- the scan -----

  /** Rows of the chunks before chunk j. */
  function RowsBefore(chunks: seq<Chunk>, j: nat): nat
    requires j <= |chunks|
  {
    if j == 0 then 0 else RowsBefore(chunks, j - 1) + chunks[j - 1].size
  }

  lemma {:induction false} RowsBeforeFront(chunks: seq<Chunk>, n: nat, j: nat)
    requires j <= n <= |chunks|
    ensures RowsBefore(chunks[..n], j) == RowsBefore(chunks, j)
    decreases j
  {
    if j > 0 {
      RowsBeforeFront(chunks, n, j - 1);
    }
  }

  lemma {:induction false} TableRowAt(chunks: seq<Chunk>, j: nat, i: nat)
    requires forall m :: 0 <= m < |chunks| ==> Aligned(chunks[m].columns, chunks[m].size)
    requires j < |chunks| && i < chunks[j].size
    ensures |TableRows(chunks)| == RowsBefore(chunks, |chunks|)
    ensures RowsBefore(chunks, j) + i < |TableRows(chunks)|
    ensures TableRows(chunks)[RowsBefore(chunks, j) + i] == RowAt(chunks[j].columns, i)
    decreases |chunks|
  {
    var n := |chunks| - 1;
    TableSize(chunks[..n]);
    TableSize(chunks);
    RowsBeforeFront(chunks, n, n);
    RowsBeforeFront(chunks, n, j);
    if j < n {
      TableRowAt(chunks[..n], j, i);
    }
  }

  lemma {:induction false} TableSize(chunks: seq<Chunk>)
    requires forall m :: 0 <= m < |chunks| ==> Aligned(chunks[m].columns, chunks[m].size)
    ensures |TableRows(chunks)| == RowsBefore(chunks, |chunks|)
    decreases |chunks|
  {
    if chunks != [] {
      TableSize(chunks[..|chunks| - 1]);
      RowsBeforeFront(chunks, |chunks| - 1, |chunks| - 1);
    }
  }

  /** The row of a chunk has each cell under the name of its field; of two fields with one name the first counts. */
  ghost predicate RowOfChunk(table: Table, j: nat, i: nat, r: Named)
    requires j < |table.chunks|
  {
    forall c :: 0 <= c < |table.fields| && (forall d :: 0 <= d < c ==> table.fields[d].name != table.fields[c].name) ==>
      && c < |table.chunks[j].columns| && i < |table.chunks[j].columns[c].data|
      && table.fields[c].name in r && r[table.fields[c].name] == table.chunks[j].columns[c].data[i]
  }

  lemma NamedOfChunk(table: Table, j: nat, i: nat)
    requires TableOk(table) && j < |table.chunks| && i < table.chunks[j].size
    ensures RowOfChunk(table, j, i, NameRow(table.fields, RowAt(table.chunks[j].columns, i)))
  {
    var row := RowAt(table.chunks[j].columns, i);
    forall c | 0 <= c < |table.fields| && (forall d :: 0 <= d < c ==> table.fields[d].name != table.fields[c].name)
      ensures table.fields[c].name in NameRow(table.fields, row) && NameRow(table.fields, row)[table.fields[c].name] == row[c]
    {
      FirstIndex(table.fields, table.fields[c].name, c);
      NameRowFirst(table.fields, row, table.fields[c].name);
    }
  }

  /** Row i of chunk j stands behind the rows of the chunks before it. */
  ghost predicate StandsAt(table: Table, all: seq<Named>, j: nat, i: nat)
    requires j < |table.chunks|
  {
    RowsBefore(table.chunks, j) + i < |all| && RowOfChunk(table, j, i, all[RowsBefore(table.chunks, j) + i])
  }

  /** A scan delivers every row of every chunk once, in any order. */
  lemma ScanMeans(table: Table, columns: seq<Name>, rows: seq<Named>) returns (all: seq<Named>)
    requires Means(Plan.Scan(table, columns), rows)
    ensures multiset(rows) == multiset(all) && |all| == RowsBefore(table.chunks, |table.chunks|)
    ensures forall j, i :: 0 <= j < |table.chunks| && 0 <= i < table.chunks[j].size ==> StandsAt(table, all, j, i)
  {
    all := NameAll(table.fields, TableRows(table.chunks));
    TableSize(table.chunks);
    forall j, i | 0 <= j < |table.chunks| && 0 <= i < table.chunks[j].size ensures StandsAt(table, all, j, i) {
      TableRowAt(table.chunks, j, i);
      NamedOfChunk(table, j, i);
    }
  }
}
