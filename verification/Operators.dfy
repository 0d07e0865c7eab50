/**
 Transform operators (src/execution/OperatorsBase.cpp): what each does to one batch, and to its logical rows.
 LIMIT shares a row counter between tasks, so here it is only its cut of one batch; the counter is in Pipelines.
 */
module Operators {
  import opened Values
  import opened Wrappers
  import opened Batches
  import opened Builders
  import Filters
  import Sequences
  import Scalars

  datatype Transform =
    | Filter(filter: Filters.FilterFunction)
    | Scalar(functions: seq<Scalars.ScalarFunction>)
    | Drop(stay: seq<nat>)
    | Reorder(indices: seq<nat>)
    | Limit(limit: nat)

  // ----- the shape a transform needs and leaves -----

  /** What is known before a run about the batches between two transforms: width, and that nothing was filtered. */
  datatype Shape = Shape(width: nat, whole: bool)

  predicate ScalarsFit(fs: seq<Scalars.ScalarFunction>, width: nat) {
    forall j :: 0 <= j < |fs| ==> Scalars.Fits(fs[j], width + j)
  }

  /**
   The operator's indices exist, a moved-out column is not moved twice, and no column is computed for a
   batch that was filtered and then lost all its columns.
   */
  ghost predicate Fits(t: Transform, sh: Shape) {
    match t
    case Filter(f) => Filters.Fits(f, sh.width)
    case Scalar(fs) => ScalarsFit(fs, sh.width) && (sh.width > 0 || sh.whole || fs == [])
    case Drop(stay) => StrictlyIncreasing(stay) && forall j :: 0 <= j < |stay| ==> stay[j] < sh.width
    case Reorder(ix) => forall j :: 0 <= j < |ix| ==> ix[j] < sh.width
    case Limit(_) => true
  }

  function After(t: Transform, sh: Shape): Shape {
    match t
    case Filter(_) => Shape(sh.width, false)
    case Scalar(fs) => Shape(sh.width + |fs|, sh.whole)
    case Drop(stay) => Shape(|stay|, sh.whole)
    case Reorder(ix) => Shape(|ix|, sh.whole)
    case Limit(_) => Shape(sh.width, false)
  }

  ghost predicate HasShape(b: RecordBatch, sh: Shape) {
    Valid(b) && |b.columns| == sh.width && (sh.whole ==> b.sel.None?)
  }

  function ShapeOf(b: RecordBatch): Shape {
    Shape(|b.columns|, b.sel.None?)
  }

  // ----- scalar columns, one after the other -----

  ghost function AppendAll(fs: seq<Scalars.ScalarFunction>, b: RecordBatch): (r: RecordBatch)
    requires Valid(b) && ScalarsFit(fs, |b.columns|) && (Sized(b) || fs == [])
    ensures Valid(r) && r.numRows == b.numRows && r.sel == b.sel && |r.columns| == |b.columns| + |fs|
    decreases |fs|
  {
    if fs == [] then b
    else
      Scalars.AppendComputed(fs[0], b);
      var c := b.(columns := b.columns + [Scalars.ScalarColumn(fs[0], b)]);
      assert forall j :: 0 <= j < |fs[1..]| ==> fs[1..][j] == fs[j + 1];
      AppendAll(fs[1..], c)
  }

  /** A row extended by the values of the functions, each seeing the ones before it. */
  ghost function ExtendRow(fs: seq<Scalars.ScalarFunction>, row: Row): (r: Row)
    requires ScalarsFit(fs, |row|)
    ensures |r| == |row| + |fs|
    decreases |fs|
  {
    if fs == [] then row
    else
      assert forall j :: 0 <= j < |fs[1..]| ==> fs[1..][j] == fs[j + 1];
      ExtendRow(fs[1..], row + [Scalars.Meaning(fs[0], row)])
  }

  lemma {:induction false} AppendAllRows(fs: seq<Scalars.ScalarFunction>, b: RecordBatch)
    requires Valid(b) && ScalarsFit(fs, |b.columns|) && (Sized(b) || fs == [])
    ensures forall i :: 0 <= i < b.numRows ==> Rows(AppendAll(fs, b))[i] == ExtendRow(fs, Rows(b)[i])
    decreases |fs|
  {
    if fs != [] {
      Scalars.AppendComputed(fs[0], b);
      var c := b.(columns := b.columns + [Scalars.ScalarColumn(fs[0], b)]);
      assert forall j :: 0 <= j < |fs[1..]| ==> fs[1..][j] == fs[j + 1];
      AppendAllRows(fs[1..], c);
    }
  }

  /** `after` is the row with one more cell per function, each computed from the row and the cells before it. */
  ghost predicate RowComputed(fs: seq<Scalars.ScalarFunction>, before: Row, after: Row)
    requires ScalarsFit(fs, |before|)
  {
    && |after| == |before| + |fs| && after[..|before|] == before
    && forall j :: 0 <= j < |fs| ==> Scalars.Computes(fs[j], after[..|before| + j], after[|before| + j])
  }

  lemma {:induction false} ExtendComputes(fs: seq<Scalars.ScalarFunction>, row: Row)
    requires ScalarsFit(fs, |row|)
    ensures RowComputed(fs, row, ExtendRow(fs, row))
    decreases |fs|
  {
    if fs != [] {
      assert forall j :: 0 <= j < |fs[1..]| ==> fs[1..][j] == fs[j + 1];
      var v := Scalars.Meaning(fs[0], row);
      Scalars.MeaningComputes(fs[0], row);
      ExtendComputes(fs[1..], row + [v]);
      FirstComputed(fs, row, v, ExtendRow(fs, row));
    }
  }

  lemma FirstComputed(fs: seq<Scalars.ScalarFunction>, row: Row, v: Value, after: Row)
    requires fs != [] && ScalarsFit(fs, |row|) && Scalars.Computes(fs[0], row, v)
    requires ScalarsFit(fs[1..], |row| + 1) && RowComputed(fs[1..], row + [v], after)
    ensures RowComputed(fs, row, after)
  {
    assert after[..|row| + 1][..|row|] == after[..|row|] && after[..|row| + 1] == row + [v];
    assert (row + [v])[..|row|] == row && after[|row|] == (row + [v])[|row|];
    forall j | 0 <= j < |fs| ensures Scalars.Computes(fs[j], after[..|row| + j], after[|row| + j]) {
      if j > 0 {
        assert fs[1..][j - 1] == fs[j] && |row + [v]| + (j - 1) == |row| + j;
      }
    }
  }

  /** A constant added to a column of 64-bit numbers, wherever the sum fits. */
  lemma AddsToRow(col: nat, k: int, before: Row, after: Row)
    requires col < |before| && before[col].Int? && -0x8000_0000_0000_0000 <= before[col].i + k < 0x8000_0000_0000_0000
    requires RowComputed([Scalars.AddConstant(INT64, col, k)], before, after)
    ensures after == before + [Int(before[col].i + k)]
  {
    var n, fs := |before|, [Scalars.AddConstant(INT64, col, k)];
    assert Scalars.Computes(fs[0], after[..n + 0], after[n + 0]);
    Scalars.AddsInRange(INT64, before[col].i, k, after[n].i);
  }

  /** ScalarTransformOperator::Execute. */
  method ExecuteScalar(fs: seq<Scalars.ScalarFunction>, b: RecordBatch) returns (r: RecordBatch)
    requires Valid(b) && ScalarsFit(fs, |b.columns|) && (Sized(b) || fs == [])
    ensures r == AppendAll(fs, b)
    ensures forall i :: 0 <= i < b.numRows ==> RowComputed(fs, Rows(b)[i], Rows(r)[i])
  {
    r := b;
    for k := 0 to |fs|
      invariant Valid(r) && (Sized(r) || fs == []) && |r.columns| == |b.columns| + k
      invariant ScalarsFit(fs[k..], |r.columns|) && AppendAll(fs[k..], r) == AppendAll(fs, b)
    {
      var column := Scalars.Evaluate(fs[k], r);
      Scalars.AppendComputed(fs[k], r);
      assert fs[k..][0] == fs[k] && fs[k..][1..] == fs[k + 1..];
      r := r.(columns := r.columns + [column]);
    }
    assert AppendAll(fs[|fs|..], r) == r;
    AllRowsComputed(fs, b);
  }

  lemma AllRowsComputed(fs: seq<Scalars.ScalarFunction>, b: RecordBatch)
    requires Valid(b) && ScalarsFit(fs, |b.columns|) && (Sized(b) || fs == [])
    ensures forall i :: 0 <= i < b.numRows ==> RowComputed(fs, Rows(b)[i], Rows(AppendAll(fs, b))[i])
  {
    AppendAllRows(fs, b);
    forall i | 0 <= i < b.numRows ensures RowComputed(fs, Rows(b)[i], Rows(AppendAll(fs, b))[i]) {
      ExtendComputes(fs, Rows(b)[i]);
    }
  }

  // ----- picking columns -----

  ghost function PickColumns(columns: seq<Column>, ix: seq<nat>): (r: seq<Column>)
    requires forall j :: 0 <= j < |ix| ==> ix[j] < |columns|
    ensures |r| == |ix| && forall j :: 0 <= j < |r| ==> r[j] == columns[ix[j]]
  {
    seq(|ix|, j requires 0 <= j < |ix| => columns[ix[j]])
  }

  ghost function PickRow(row: Row, ix: seq<nat>): (r: Row)
    requires forall j :: 0 <= j < |ix| ==> ix[j] < |row|
    ensures |r| == |ix|
  {
    seq(|ix|, j requires 0 <= j < |ix| => row[ix[j]])
  }

  /** DropTransformOperator and ReorderTransformOperator: the listed columns, in the listed order. */
  method ExecutePick(ix: seq<nat>, b: RecordBatch) returns (r: RecordBatch)
    requires forall j :: 0 <= j < |ix| ==> ix[j] < |b.columns|
    ensures r == b.(columns := PickColumns(b.columns, ix))
  {
    var columns: seq<Column> := [];
    for j := 0 to |ix|
      invariant |columns| == j && forall k :: 0 <= k < j ==> columns[k] == b.columns[ix[k]]
    {
      columns := columns + [b.columns[ix[j]]];
    }
    assert columns == PickColumns(b.columns, ix);
    r := b.(columns := columns);
  }

  lemma PickRows(ix: seq<nat>, b: RecordBatch)
    requires Valid(b) && forall j :: 0 <= j < |ix| ==> ix[j] < |b.columns|
    ensures var r := b.(columns := PickColumns(b.columns, ix));
            Valid(r) && forall i :: 0 <= i < b.numRows ==> Rows(r)[i] == PickRow(Rows(b)[i], ix)
  {
    var r := b.(columns := PickColumns(b.columns, ix));
    SelectedInRange(b);
    if ix != [] {
      assert PhysicalSize(r) == |b.columns[ix[0]].data| == PhysicalSize(b);
    }
    assert Valid(r);
    assert Selected(r) == Selected(b);
    SelectedInRange(r);
    forall i | 0 <= i < b.numRows ensures Rows(r)[i] == PickRow(Rows(b)[i], ix) {
      var p := Selected(b)[i];
      assert Rows(b)[i] == RowAt(b.columns, p) && Rows(r)[i] == RowAt(r.columns, p);
    }
  }

  // ----- LIMIT's cut -----

  /** The first `n` logical rows of a batch, as LIMIT cuts them: a prefix of the selection, or 0..n. */
  function Clip(b: RecordBatch, n: nat): RecordBatch
    requires b.sel.Some? ==> n <= |b.sel.value|
  {
    RecordBatch(n, Some(if b.sel.Some? then b.sel.value[..n] else seq(n, (i: nat) => i)), b.columns)
  }

  lemma ClipRows(b: RecordBatch, n: nat)
    requires Valid(b) && n <= b.numRows
    ensures Valid(Clip(b, n)) && Rows(Clip(b, n)) == Rows(b)[..n]
  {
    var r := Clip(b, n);
    SelectedInRange(b);
    assert PhysicalSize(b) == PhysicalSize(r) || b.columns == [];
    assert Valid(r);
    SelectedInRange(r);
    assert Selected(r) == Selected(b)[..n];
    forall i | 0 <= i < n ensures Rows(r)[i] == Rows(b)[..n][i] {
      assert Rows(b)[i] == RowAt(b.columns, Selected(b)[i]);
      assert Rows(r)[i] == RowAt(b.columns, Selected(r)[i]);
    }
  }

  // ----- one transform on one batch -----

  /** Execute of every transform but LIMIT; `None` is the null batch. */
  ghost function Apply(t: Transform, b: RecordBatch): (r: Option<RecordBatch>)
    requires !t.Limit? && Valid(b) && Fits(t, ShapeOf(b))
    ensures r.Some? ==> HasShape(r.value, After(t, ShapeOf(b)))
  {
    match t
    case Filter(f) =>
      Filters.FilterBatchRows(f, b);
      Filters.FilterBatch(f, b)
    case Scalar(fs) => Some(AppendAll(fs, b))
    case Drop(stay) =>
      PickRows(stay, b);
      Some(b.(columns := PickColumns(b.columns, stay)))
    case Reorder(ix) =>
      PickRows(ix, b);
      Some(b.(columns := PickColumns(b.columns, ix)))
  }

  method Execute(t: Transform, b: RecordBatch) returns (r: Option<RecordBatch>)
    requires !t.Limit? && Valid(b) && Fits(t, ShapeOf(b))
    ensures r == Apply(t, b)
  {
    match t
    case Filter(f) =>
      r := Filters.ExecuteFilter(f, b);
    case Scalar(fs) =>
      var c := ExecuteScalar(fs, b);
      r := Some(c);
    case Drop(stay) =>
      var c := ExecutePick(stay, b);
      r := Some(c);
    case Reorder(ix) =>
      var c := ExecutePick(ix, b);
      r := Some(c);
  }

  lemma ApplyShape(t: Transform, b: RecordBatch, sh: Shape)
    requires !t.Limit? && HasShape(b, sh) && Fits(t, sh)
    ensures Fits(t, ShapeOf(b))
    ensures Apply(t, b).Some? ==> HasShape(Apply(t, b).value, After(t, sh))
  {
  }

  // ----- column types -----

  function ResultTypes(fs: seq<Scalars.ScalarFunction>): (r: seq<ColumnType>)
    ensures |r| == |fs| && forall j :: 0 <= j < |r| ==> r[j] == Scalars.ResultType(fs[j])
  {
    seq(|fs|, j requires 0 <= j < |fs| => Scalars.ResultType(fs[j]))
  }

  function PickTypes(types: seq<ColumnType>, ix: seq<nat>): (r: seq<ColumnType>)
    ensures |r| == |ix|
  {
    seq(|ix|, j requires 0 <= j < |ix| => if ix[j] < |types| then types[ix[j]] else STRING)
  }

  /** The types of the columns a transform leaves. */
  function TypesAfter(t: Transform, types: seq<ColumnType>): seq<ColumnType> {
    match t
    case Filter(_) => types
    case Scalar(fs) => types + ResultTypes(fs)
    case Drop(stay) => PickTypes(types, stay)
    case Reorder(ix) => PickTypes(types, ix)
    case Limit(_) => types
  }

  lemma TypesGrow(fs: seq<Scalars.ScalarFunction>, columns: seq<Column>, column: Column)
    requires fs != [] && column.ty == Scalars.ResultType(fs[0])
    ensures TypesOf(columns + [column]) + ResultTypes(fs[1..]) == TypesOf(columns) + ResultTypes(fs)
  {
    assert TypesOf(columns + [column]) == TypesOf(columns) + [column.ty];
    Sequences.Regroup(TypesOf(columns), [column.ty], ResultTypes(fs[1..]));
    assert ResultTypes(fs) == [column.ty] + ResultTypes(fs[1..]) by { ResultTypesFront(fs); }
  }

  lemma ResultTypesFront(fs: seq<Scalars.ScalarFunction>)
    requires fs != []
    ensures ResultTypes(fs) == [Scalars.ResultType(fs[0])] + ResultTypes(fs[1..])
  {
  }

  lemma {:induction false} AppendAllTypes(fs: seq<Scalars.ScalarFunction>, b: RecordBatch)
    requires Valid(b) && ScalarsFit(fs, |b.columns|) && (Sized(b) || fs == [])
    ensures TypesOf(AppendAll(fs, b).columns) == TypesOf(b.columns) + ResultTypes(fs)
    decreases |fs|
  {
    if fs != [] {
      Scalars.AppendComputed(fs[0], b);
      var column := Scalars.ScalarColumn(fs[0], b);
      var c := b.(columns := b.columns + [column]);
      assert forall j :: 0 <= j < |fs[1..]| ==> fs[1..][j] == fs[j + 1];
      AppendAllTypes(fs[1..], c);
      TypesGrow(fs, b.columns, column);
    }
  }

  lemma ApplyTypes(t: Transform, b: RecordBatch)
    requires !t.Limit? && Valid(b) && Fits(t, ShapeOf(b))
    ensures Apply(t, b).Some? ==> TypesOf(Apply(t, b).value.columns) == TypesAfter(t, TypesOf(b.columns))
  {
    if t.Scalar? {
      AppendAllTypes(t.functions, b);
    }
  }

  ghost predicate AllWidth(rs: seq<Row>, width: nat) {
    forall i :: 0 <= i < |rs| ==> |rs[i]| == width
  }

  /** The relational meaning of a transform on a list of rows. */
  ghost function ApplyToRows(t: Transform, rs: seq<Row>, width: nat): (out: seq<Row>)
    requires !t.Limit? && Fits(t, Shape(width, true)) && AllWidth(rs, width)
  {
    match t
    case Filter(f) => Filters.FilterRows(f, rs)
    case Scalar(fs) => seq(|rs|, i requires 0 <= i < |rs| => ExtendRow(fs, rs[i]))
    case Drop(stay) => seq(|rs|, i requires 0 <= i < |rs| => PickRow(rs[i], stay))
    case Reorder(ix) => seq(|rs|, i requires 0 <= i < |rs| => PickRow(rs[i], ix))
  }

  /** On logical rows every transform is its relational meaning, whatever the physical layout of the batch. */
  lemma ApplyRefinesRows(t: Transform, b: RecordBatch)
    requires !t.Limit? && Valid(b) && Fits(t, ShapeOf(b))
    ensures match Apply(t, b)
            case None => ApplyToRows(t, Rows(b), |b.columns|) == []
            case Some(r) => Rows(r) == ApplyToRows(t, Rows(b), |b.columns|)
  {
    match t
    case Filter(f) =>
      Filters.FilterBatchRows(f, b);
    case Scalar(fs) =>
      AppendAllRows(fs, b);
      assert Rows(AppendAll(fs, b)) == ApplyToRows(t, Rows(b), |b.columns|);
    case Drop(stay) =>
      PickRows(stay, b);
      assert Rows(Apply(t, b).value) == ApplyToRows(t, Rows(b), |b.columns|);
    case Reorder(ix) =>
      PickRows(ix, b);
      assert Rows(Apply(t, b).value) == ApplyToRows(t, Rows(b), |b.columns|);
  }

  /** A transform works row by row: the rows it leaves of a concatenation are those it leaves of the parts. */
  lemma ApplyToConcat(t: Transform, xs: seq<Row>, ys: seq<Row>, width: nat)
    requires !t.Limit? && Fits(t, Shape(width, true)) && AllWidth(xs, width) && AllWidth(ys, width)
    ensures AllWidth(xs + ys, width)
    ensures ApplyToRows(t, xs + ys, width) == ApplyToRows(t, xs, width) + ApplyToRows(t, ys, width)
  {
    if t.Filter? {
      FilterConcat(t.filter, xs, ys);
    }
  }

  lemma FilterFront(f: Filters.FilterFunction, rs: seq<Row>)
    requires rs != [] && Filters.AllFit(f, rs)
    ensures Filters.FilterRows(f, rs) == (if Filters.Holds(f, rs[0]) then [rs[0]] else []) + Filters.FilterRows(f, rs[1..])
  {
  }

  lemma {:induction false} FilterConcat(f: Filters.FilterFunction, xs: seq<Row>, ys: seq<Row>)
    requires Filters.AllFit(f, xs) && Filters.AllFit(f, ys)
    ensures Filters.AllFit(f, xs + ys)
    ensures Filters.FilterRows(f, xs + ys) == Filters.FilterRows(f, xs) + Filters.FilterRows(f, ys)
  {
    if xs == [] {
      assert xs + ys == ys;
    } else {
      FilterConcat(f, xs[1..], ys);
      assert (xs + ys)[1..] == xs[1..] + ys && (xs + ys)[0] == xs[0];
      FilterFront(f, xs + ys);
      FilterFront(f, xs);
      Sequences.Regroup(if Filters.Holds(f, xs[0]) then [xs[0]] else [], Filters.FilterRows(f, xs[1..]), Filters.FilterRows(f, ys));
    }
  }

  lemma {:induction false} FilterWidth(f: Filters.FilterFunction, rs: seq<Row>, width: nat)
    requires Filters.AllFit(f, rs) && AllWidth(rs, width)
    ensures AllWidth(Filters.FilterRows(f, rs), width)
  {
    if rs != [] {
      FilterWidth(f, rs[1..], width);
    }
  }

  lemma ApplyToRowsWidth(t: Transform, rs: seq<Row>, sh: Shape)
    requires !t.Limit? && Fits(t, sh) && AllWidth(rs, sh.width)
    ensures Fits(t, Shape(sh.width, true))
    ensures AllWidth(ApplyToRows(t, rs, sh.width), After(t, sh).width)
  {
    if t.Filter? {
      FilterWidth(t.filter, rs, sh.width);
    }
  }
}
