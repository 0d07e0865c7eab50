/**
 Scalar functions (src/execution/expressions/ScalarFunctions.h): each adds one column of the physical size,
 filled at the physical indices of the logical rows.
 */
module Scalars {
  import opened Values
  import opened Wrappers
  import opened Batches
  import Filters
  import Arithmetic
  import Dates
  import Timestamps

  /** A CASE branch after name resolution: a column index or a constant. */
  datatype Branch = ColumnRef(col: nat) | Literal(value: Value)

  datatype ScalarFunction =
    | ExtractMinute(col: nat)
    | TimeTrunc(col: nat, unit: Dates.TimeUnit)
    | Length(col: nat)
    | Constant(ty: ColumnType, value: Value)
    | AddConstant(ty: ColumnType, col: nat, constant: int)
    | CaseWhen(ty: ColumnType, cond: Filters.FilterFunction, yes: Branch, no: Branch)

  predicate BranchFits(b: Branch, width: nat) {
    b.ColumnRef? ==> b.col < width
  }

  predicate Fits(f: ScalarFunction, width: nat) {
    match f
    case ExtractMinute(col) => col < width
    case TimeTrunc(col, _) => col < width
    case Length(col) => col < width
    case Constant(_, _) => true
    case AddConstant(_, col, _) => col < width
    case CaseWhen(_, cond, yes, no) => Filters.Fits(cond, width) && BranchFits(yes, width) && BranchFits(no, width)
  }

  /** Type of the column a function produces. */
  function ResultType(f: ScalarFunction): ColumnType {
    match f
    case ExtractMinute(_) => INT32
    case TimeTrunc(_, _) => TIMESTAMP
    case Length(_) => INT64
    case Constant(ty, _) => ty
    case AddConstant(ty, _, _) => ty
    case CaseWhen(ty, _, _, _) => ty
  }

  function BranchValue(b: Branch, row: Row): Value
    requires BranchFits(b, |row|)
  {
    match b
    case ColumnRef(col) => row[col]
    case Literal(v) => v
  }

  /** The sum, wrapped to the column's width. */
  function AddWrapped(ty: ColumnType, x: int, k: int): int {
    if HalfRange(ty) > 0 then Wrap(HalfRange(ty), x + k) else x + k
  }

  predicate PerRow(f: ScalarFunction) { !f.Constant? && !f.CaseWhen? }

  /** The lambda body a per-row function applies to the element of its column. */
  function CellFunction(f: ScalarFunction, v: Value): Value
    requires PerRow(f)
  {
    match f
    case ExtractMinute(_) => if v.Int? then Int(Timestamps.ExtractMinute(v.i)) else v
    case TimeTrunc(_, unit) => if v.Int? then Int(Wrap(TWO_63, Timestamps.Truncate(v.i, unit))) else v
    case Length(_) => if v.Str? then Int(Wrap(TWO_63, |v.s|)) else v
    case AddConstant(ty, _, k) => if v.Int? then Int(AddWrapped(ty, v.i, k)) else v
  }

  /** The value of the function on one row. */
  function Meaning(f: ScalarFunction, row: Row): Value
    requires Fits(f, |row|)
  {
    match f
    case Constant(_, v) => v
    case CaseWhen(_, cond, yes, no) => if Filters.Holds(cond, row) then BranchValue(yes, row) else BranchValue(no, row)
    case _ => CellFunction(f, row[f.col])
  }

  // ----- what the functions compute, told by the numbers and bytes -----

  /** r is x + k where a column of the type can hold that, and else the number it can hold that differs by a multiple of its size. */
  ghost predicate Adds(ty: ColumnType, x: int, k: int, r: int) {
    match ty
    case INT16 => -0x8000 <= r < 0x8000 && (r - (x + k)) % 0x1_0000 == 0
    case INT32 => -0x8000_0000 <= r < 0x8000_0000 && (r - (x + k)) % 0x1_0000_0000 == 0
    case INT64 => -0x8000_0000_0000_0000 <= r < 0x8000_0000_0000_0000 && (r - (x + k)) % 0x1_0000_0000_0000_0000 == 0
    case INT128 =>
      && -0x8000_0000_0000_0000_0000_0000_0000_0000 <= r < 0x8000_0000_0000_0000_0000_0000_0000_0000
      && (r - (x + k)) % 0x1_0000_0000_0000_0000_0000_0000_0000_0000 == 0
    case _ => true
  }

  /** The start of the unit, in seconds; a year's is that of the following year, and before 1970 a started day counts as the next. */
  ghost predicate Starts(unit: Dates.TimeUnit, t: int, r: int) {
    var day := if t < 0 && t % 86400 != 0 then t / 86400 + 1 else t / 86400;
    match unit
    case SECOND => r == t
    case MINUTE => r == t - t % 60
    case HOUR => r == t - t % 3600
    case DAY => r == t - t % 86400
    case MONTH => r == Dates.DaysOf(Dates.CivilOf(day).(day := 1)) * 86400
    case YEAR => r == Dates.DaysOf(Dates.Civil(Dates.CivilOf(day).year + 1, 1, 1)) * 86400
  }

  predicate InInt64(n: int) { -0x8000_0000_0000_0000 <= n < 0x8000_0000_0000_0000 }

  /** The start, where a column of timestamps can hold it. */
  ghost predicate IsStart(unit: Dates.TimeUnit, t: int, v: Value) {
    forall r :: InInt64(r) && Starts(unit, t, r) ==> v == Int(r)
  }

  ghost predicate IsBranch(b: Branch, row: Row, v: Value)
    requires BranchFits(b, |row|)
  {
    match b
    case ColumnRef(col) => v == row[col]
    case Literal(w) => v == w
  }

  /** What a reader of the query expects of the new cell `v` of a row. */
  ghost predicate Computes(f: ScalarFunction, row: Row, v: Value)
    requires Fits(f, |row|)
  {
    match f
    case Constant(_, c) => v == c
    case AddConstant(ty, col, k) => row[col].Int? ==> v.Int? && Adds(ty, row[col].i, k, v.i)
    case Length(col) => row[col].Str? && InInt64(|row[col].s|) ==> v == Int(|row[col].s|)
    case ExtractMinute(col) => row[col].Int? ==> v == Int(row[col].i % 86400 % 3600 / 60)
    case TimeTrunc(col, unit) => row[col].Int? ==> IsStart(unit, row[col].i, v)
    case CaseWhen(_, cond, yes, no) => if Filters.IsTrue(cond, row) then IsBranch(yes, row, v) else IsBranch(no, row, v)
  }

  lemma AddsExactly(ty: ColumnType, x: int, k: int)
    ensures Adds(ty, x, k, AddWrapped(ty, x, k))
  {
    if HalfRange(ty) > 0 {
      WrapCongruent(HalfRange(ty), x + k);
    }
  }

  /** A sum that the type can hold is the sum; this is the only number that `Adds` allows. */
  lemma AddsInRange(ty: ColumnType, x: int, k: int, r: int)
    requires Addable(ty) && Adds(ty, x, k, r) && HasType(Int(x + k), ty)
    ensures r == x + k
  {
    TypeRanges(Int(x + k), ty);
    match ty
    case INT16 => SmallMultiple(r - (x + k), 0x1_0000);
    case INT32 => SmallMultiple(r - (x + k), 0x1_0000_0000);
    case INT64 => SmallMultiple(r - (x + k), 0x1_0000_0000_0000_0000);
    case INT128 => SmallMultiple(r - (x + k), 0x1_0000_0000_0000_0000_0000_0000_0000_0000);
  }

  predicate Addable(ty: ColumnType) { ty == INT16 || ty == INT32 || ty == INT64 || ty == INT128 }

  lemma SmallMultiple(d: int, m: int)
    requires m > 0 && -m < d < m && d % m == 0
    ensures d == 0
  {
  }

  lemma StartsExactly(unit: Dates.TimeUnit, t: int)
    ensures Starts(unit, t, Timestamps.Truncate(t, unit))
  {
    Timestamps.TruncatesSeconds(t);
    Timestamps.DayUsed(t);
    var day := Arithmetic.TruncDiv(t, 86400);
    if unit.MONTH? {
      Dates.MonthTruncation(day);
      Dates.DaysOfCivilOf(Dates.Truncate(day, Dates.MONTH));
    } else if unit.YEAR? {
      Dates.YearTruncationDay(day);
    }
  }

  lemma StartIsOne(unit: Dates.TimeUnit, t: int, r: int)
    requires Starts(unit, t, r)
    ensures r == Timestamps.Truncate(t, unit)
  {
    StartsExactly(unit, t);
  }

  lemma CellComputes(f: ScalarFunction, row: Row)
    requires Fits(f, |row|) && PerRow(f)
    ensures Computes(f, row, CellFunction(f, row[f.col]))
  {
    var v := row[f.col];
    match f
    case AddConstant(ty, _, k) =>
      if v.Int? { AddsExactly(ty, v.i, k); }
    case Length(_) =>
      if v.Str? && InInt64(|v.s|) { WrapRange(TWO_63, |v.s|); }
    case ExtractMinute(_) =>
      if v.Int? { Timestamps.DaySplit(v.i); }
    case TimeTrunc(_, unit) =>
      if v.Int? {
        forall r | InInt64(r) && Starts(unit, v.i, r) ensures CellFunction(f, v) == Int(r) {
          StartIsOne(unit, v.i, r);
          WrapRange(TWO_63, r);
        }
      }
  }

  /** On every row the function computes what a reader of the query expects. */
  lemma MeaningComputes(f: ScalarFunction, row: Row)
    requires Fits(f, |row|)
    ensures Computes(f, row, Meaning(f, row))
  {
    if f.CaseWhen? {
      Filters.HoldsExactly(f.cond, row);
    } else if PerRow(f) {
      CellComputes(f, row);
    }
  }

  /** The new column holds that on every logical row. */
  ghost predicate ColumnComputes(f: ScalarFunction, b: RecordBatch, column: Column)
    requires Valid(b) && Fits(f, |b.columns|)
  {
    SelectedInRange(b);
    forall p :: p in Selected(b) ==> p < |column.data| && Computes(f, RowAt(b.columns, p), column.data[p])
  }

  lemma ScalarColumnComputes(f: ScalarFunction, b: RecordBatch)
    requires Valid(b) && Sized(b) && Fits(f, |b.columns|)
    ensures ColumnComputes(f, b, ScalarColumn(f, b))
  {
    SelectedInRange(b);
    forall p | p in Selected(b) ensures p < PhysicalSize(b) && Computes(f, RowAt(b.columns, p), ScalarColumn(f, b).data[p]) {
      var i :| 0 <= i < b.numRows && Selected(b)[i] == p;
      ScalarColumnMeaning(f, b, i);
      MeaningComputes(f, RowAt(b.columns, p));
    }
  }

  /** ViewVariant indexing: a flat column view or a constant view. */
  function ViewAt(branch: Branch, columns: seq<Column>, p: nat): Value
    requires BranchFits(branch, |columns|)
    requires forall c :: 0 <= c < |columns| ==> p < |columns[c].data|
  {
    match branch
    case ColumnRef(col) => columns[col].data[p]
    case Literal(v) => v
  }

  /** The element written at physical index `p`: constants and CASE fill every index, the rest only selected ones. */
  ghost function CellAt(f: ScalarFunction, b: RecordBatch, p: nat): Value
    requires Valid(b) && Sized(b) && Fits(f, |b.columns|) && p < PhysicalSize(b)
  {
    match f
    case Constant(_, v) => v
    case CaseWhen(_, cond, yes, no) =>
      if p in Filters.Matching(cond, b) then ViewAt(yes, b.columns, p) else ViewAt(no, b.columns, p)
    case _ => if p in Selected(b) then Meaning(f, RowAt(b.columns, p)) else DefaultValue(ResultType(f))
  }

  /** The column the function adds to a batch. */
  ghost function ScalarColumn(f: ScalarFunction, b: RecordBatch): (column: Column)
    requires Valid(b) && Sized(b) && Fits(f, |b.columns|)
  {
    Column(ResultType(f), seq(PhysicalSize(b), p requires 0 <= p < PhysicalSize(b) => CellAt(f, b, p)))
  }

  /** On every logical row the new column holds the function's value on that row. */
  lemma ScalarColumnMeaning(f: ScalarFunction, b: RecordBatch, i: nat)
    requires Valid(b) && Sized(b) && Fits(f, |b.columns|) && i < b.numRows
    ensures i < |Selected(b)| && Selected(b)[i] < PhysicalSize(b)
    ensures ScalarColumn(f, b).data[Selected(b)[i]] == Meaning(f, RowAt(b.columns, Selected(b)[i]))
  {
    SelectedInRange(b);
    assert Selected(b)[i] in Selected(b);
  }

  /** Functions that write `result_data[real_ind]` through IterateColumnData. */
  method EvaluatePerRow(f: ScalarFunction, b: RecordBatch) returns (column: Column)
    requires Valid(b) && Sized(b) && Fits(f, |b.columns|) && b.columns != []
    requires PerRow(f)
    ensures column == ScalarColumn(f, b) && ColumnComputes(f, b, column)
  {
    var physicalSize := |b.columns[0].data|;
    var data := new Value[physicalSize](_ => DefaultValue(ResultType(f)));
    var source := b.columns[f.col].data;
    SelectedInRange(b);
    ghost var s := Selected(b);
    for i := 0 to b.numRows
      invariant forall p :: 0 <= p < physicalSize ==>
        data[p] == if p in s[..i] then CellFunction(f, source[p]) else DefaultValue(ResultType(f))
    {
      var realInd := if b.sel.None? then i else b.sel.value[i];
      assert s[..i + 1] == s[..i] + [s[i]];
      data[realInd] := CellFunction(f, source[realInd]);
    }
    assert s[..b.numRows] == s;
    column := Column(ResultType(f), data[..]);
    assert forall p :: 0 <= p < physicalSize ==> data[p] == CellAt(f, b, p);
    ScalarColumnComputes(f, b);
  }

  function ConstantColumn(ty: ColumnType, v: Value, n: nat): Column {
    Column(ty, seq(n, _ => v))
  }

  method EvaluateConstant(ty: ColumnType, v: Value, b: RecordBatch) returns (column: Column)
    requires Valid(b)
    ensures column == ConstantColumn(ty, v, PhysicalSize(b))
    ensures Sized(b) ==> column == ScalarColumn(Constant(ty, v), b)
  {
    var physicalSize := if b.columns == [] then b.numRows else |b.columns[0].data|;
    var data: seq<Value> := [];
    for i := 0 to physicalSize
      invariant |data| == i && forall k :: 0 <= k < i ==> data[k] == v
    {
      data := data + [v];
    }
    column := Column(ty, data);
  }

  /** One pass over all physical indices with a cursor into the matching ones. */
  method PickBranches(hits: seq<nat>, yes: Branch, no: Branch, columns: seq<Column>, physicalSize: nat) returns (data: seq<Value>)
    requires StrictlyIncreasing(hits) && Aligned(columns, physicalSize) && BranchFits(yes, |columns|) && BranchFits(no, |columns|)
    requires forall k :: 0 <= k < |hits| ==> hits[k] < physicalSize
    ensures |data| == physicalSize
    ensures forall p :: 0 <= p < physicalSize ==> data[p] == if p in hits then ViewAt(yes, columns, p) else ViewAt(no, columns, p)
  {
    data := [];
    var cur := 0;
    for p := 0 to physicalSize
      invariant |data| == p && 0 <= cur <= |hits|
      invariant forall k :: 0 <= k < cur ==> hits[k] < p
      invariant forall k :: cur <= k < |hits| ==> p <= hits[k]
      invariant forall k :: 0 <= k < p ==> data[k] == if k in hits then ViewAt(yes, columns, k) else ViewAt(no, columns, k)
    {
      if cur < |hits| && hits[cur] == p {
        assert p in hits;
        data := data + [ViewAt(yes, columns, p)];
        cur := cur + 1;
      } else {
        NotAHit(hits, cur, p);
        data := data + [ViewAt(no, columns, p)];
      }
    }
  }

  /** CASE WHEN: the true branch is taken on exactly the selected rows where the condition holds. */
  method EvaluateCaseWhen(ty: ColumnType, cond: Filters.FilterFunction, yes: Branch, no: Branch, b: RecordBatch)
    returns (column: Column)
    requires Valid(b) && Sized(b) && Fits(CaseWhen(ty, cond, yes, no), |b.columns|)
    ensures |column.data| == PhysicalSize(b)
    ensures forall p :: 0 <= p < PhysicalSize(b) ==>
      column.data[p] == if p in Filters.Matching(cond, b) then ViewAt(yes, b.columns, p) else ViewAt(no, b.columns, p)
    ensures column == ScalarColumn(CaseWhen(ty, cond, yes, no), b)
  {
    var hits := Filters.Evaluate(cond, b);
    Filters.MatchingUnique(cond, b, hits);
    Filters.MatchingInRange(cond, b);
    var physicalSize := if b.columns == [] then b.numRows else |b.columns[0].data|;
    var data := PickBranches(hits, yes, no, b.columns, physicalSize);
    column := Column(ty, data);
    CaseWhenColumn(ty, cond, yes, no, b, data);
  }

  lemma CaseWhenColumn(ty: ColumnType, cond: Filters.FilterFunction, yes: Branch, no: Branch, b: RecordBatch, data: seq<Value>)
    requires Valid(b) && Sized(b) && Fits(CaseWhen(ty, cond, yes, no), |b.columns|) && |data| == PhysicalSize(b)
    requires forall p :: 0 <= p < PhysicalSize(b) ==>
               data[p] == if p in Filters.Matching(cond, b) then ViewAt(yes, b.columns, p) else ViewAt(no, b.columns, p)
    ensures Column(ty, data) == ScalarColumn(CaseWhen(ty, cond, yes, no), b)
  {
  }

  lemma NotAHit(hits: seq<nat>, cur: nat, p: nat)
    requires StrictlyIncreasing(hits) && cur <= |hits| && (cur < |hits| ==> hits[cur] != p)
    requires (forall k :: 0 <= k < cur ==> hits[k] < p) && (forall k :: cur <= k < |hits| ==> p <= hits[k])
    ensures p !in hits
  {
    forall k | cur < k < |hits| ensures hits[cur] < hits[k] {
    }
  }

  method Evaluate(f: ScalarFunction, b: RecordBatch) returns (column: Column)
    requires Valid(b) && Sized(b) && Fits(f, |b.columns|)
    ensures column == ScalarColumn(f, b) && ColumnComputes(f, b, column)
  {
    ScalarColumnComputes(f, b);
    match f
    case Constant(ty, v) => column := EvaluateConstant(ty, v, b);
    case CaseWhen(ty, cond, yes, no) => column := EvaluateCaseWhen(ty, cond, yes, no, b);
    case ExtractMinute(_) => column := EvaluatePerRow(f, b);
    case TimeTrunc(_, _) => column := EvaluatePerRow(f, b);
    case Length(_) => column := EvaluatePerRow(f, b);
    case AddConstant(_, _, _) => column := EvaluatePerRow(f, b);
  }

  /** Appending the column extends every logical row by the function's value on it. */
  lemma AppendComputed(f: ScalarFunction, b: RecordBatch)
    requires Valid(b) && Sized(b) && Fits(f, |b.columns|)
    ensures var r := b.(columns := b.columns + [ScalarColumn(f, b)]);
            && Valid(r)
            && forall i :: 0 <= i < b.numRows ==>
                 Fits(f, |Rows(b)[i]|) && Rows(r)[i] == Rows(b)[i] + [Meaning(f, Rows(b)[i])]
  {
    var column := ScalarColumn(f, b);
    var r := b.(columns := b.columns + [column]);
    SelectedInRange(b);
    assert PhysicalSize(r) == PhysicalSize(b);
    assert Selected(r) == Selected(b);
    SelectedInRange(r);
    forall i | 0 <= i < b.numRows
      ensures Fits(f, |Rows(b)[i]|) && Rows(r)[i] == Rows(b)[i] + [Meaning(f, Rows(b)[i])]
    {
      var p := Selected(b)[i];
      ScalarColumnMeaning(f, b, i);
      assert Rows(b)[i] == RowAt(b.columns, p);
      assert Rows(r)[i] == RowAt(r.columns, p);
      assert RowAt(r.columns, p) == RowAt(b.columns, p) + [column.data[p]];
    }
  }

  // ----- a constant beside no column -----

  /** Increasing entries are at least their positions, and below n at most the positions that leave room for the rest. */
  lemma {:induction false} IncreasingAtLeast(s: seq<nat>, i: nat)
    requires StrictlyIncreasing(s) && i < |s|
    ensures i <= s[i]
    decreases i
  {
    if i > 0 {
      IncreasingAtLeast(s, i - 1);
    }
  }

  lemma {:induction false} IncreasingAtMost(s: seq<nat>, i: nat)
    requires StrictlyIncreasing(s) && i < |s| && s[|s| - 1] < |s|
    ensures s[i] <= i
    decreases |s| - i
  {
    if i < |s| - 1 {
      IncreasingAtMost(s, i + 1);
    }
  }

  /**
   A batch that was filtered and then lost every column has forgotten its physical size: a constant added to it gets
   one cell per logical row, and the batch is in order exactly if the filter had kept the rows from the front.
   */
  lemma ConstantOnNoColumns(ty: ColumnType, v: Value, b: RecordBatch)
    requires Valid(b) && b.columns == [] && b.sel.Some?
    ensures Valid(b.(columns := [ConstantColumn(ty, v, PhysicalSize(b))])) <==> forall i :: 0 <= i < b.numRows ==> b.sel.value[i] == i
  {
    var s := b.sel.value;
    if Valid(b.(columns := [ConstantColumn(ty, v, PhysicalSize(b))])) {
      forall i | 0 <= i < |s| ensures s[i] == i {
        IncreasingAtLeast(s, i);
        IncreasingAtMost(s, i);
      }
    }
  }

  /** Of two rows the second was kept: the constant column ends before it. */
  lemma ConstantAfterSecondRow()
    ensures var b := RecordBatch(1, Some([1]), []);
            Valid(b) && !Valid(b.(columns := [ConstantColumn(INT64, Int(7), PhysicalSize(b))]))
  {
    ConstantOnNoColumns(INT64, Int(7), RecordBatch(1, Some([1]), []));
    assert RecordBatch(1, Some([1]), []).sel.value[0] == 1;
  }
}
