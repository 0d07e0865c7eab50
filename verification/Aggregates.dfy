/**
 Aggregation functions (src/execution/expressions/AggregationFunctions.h): the state one thread keeps for one
 group, how it is updated and combined, and what it stands for.  AVG is not part of this model.
 */
module Aggregates {
  import opened Values
  import opened Wrappers
  import opened Arithmetic
  import Sequences

  datatype AggFunction =
    | Count
    | Sum(col: nat, ty: ColumnType)
    | Min(col: nat, ty: ColumnType)
    | Max(col: nat, ty: ColumnType)
    | DistinctCount(col: nat, ty: ColumnType)

  /** A value that may be missing, a counter, or a set of values. */
  datatype AggState = Counter(n: int) | Single(hasData: bool, value: Value) | Hashed(values: set<Value>)

  // ----- types -----

  /** SumResultTrait: the accumulator's type; the other types are rejected when the plan is compiled. */
  function SumType(ty: ColumnType): Option<ColumnType> {
    match ty
    case INT16 => Some(INT32)
    case INT32 => Some(INT64)
    case INT64 => Some(INT128)
    case INT128 => Some(INT128)
    case _ => None
  }

  function ResultType(f: AggFunction): ColumnType {
    match f
    case Count => INT64
    case Sum(_, ty) => if SumType(ty).Some? then SumType(ty).value else INT64
    case Min(_, ty) => ty
    case Max(_, ty) => ty
    case DistinctCount(_, _) => INT64
  }

  function ResultTypes(fs: seq<AggFunction>): (r: seq<ColumnType>)
    ensures |r| == |fs| && forall a :: 0 <= a < |r| ==> r[a] == ResultType(fs[a])
  {
    seq(|fs|, a requires 0 <= a < |fs| => ResultType(fs[a]))
  }

  /** The function's column exists and holds values of its type; SUM has an integer type. */
  predicate Reads(f: AggFunction, row: Row) {
    f.Count? || (f.col < |row| && HasType(row[f.col], f.ty) && (f.Sum? ==> SumType(f.ty).Some?))
  }

  ghost predicate AllRead(f: AggFunction, rows: seq<Row>) {
    forall i :: 0 <= i < |rows| ==> Reads(f, rows[i])
  }

  lemma SummandRange(v: Value, ty: ColumnType)
    requires HasType(v, ty) && SumType(ty).Some?
    ensures v.Int? && -HalfRange(SumType(ty).value) <= v.i < HalfRange(SumType(ty).value)
  {
  }

  // ----- operations on one state -----

  function Fresh(f: AggFunction): AggState {
    match f
    case Count => Counter(0)
    case DistinctCount(_, _) => Hashed({})
    case _ => Single(false, DefaultValue(ResultType(f)))
  }

  /** The state belongs to the function. */
  predicate Shaped(f: AggFunction, st: AggState) {
    match f
    case Count => st.Counter?
    case DistinctCount(_, _) => st.Hashed?
    case _ => st.Single?
  }

  /** Operation::Apply: `+=` in the accumulator's width, or keep the smaller or larger value. */
  function Merged(f: AggFunction, old_: Value, v: Value): Value
    requires f.Sum? || f.Min? || f.Max?
  {
    match f
    case Sum(_, _) =>
      if old_.Int? && v.Int? && HalfRange(ResultType(f)) > 0 then Int(Wrap(HalfRange(ResultType(f)), old_.i + v.i)) else old_
    case Min(_, _) => if Less(v, old_) then v else old_
    case Max(_, _) => if Less(old_, v) then v else old_
  }

  /** The element of the function's column; COUNT looks at none. */
  function Input(f: AggFunction, row: Row): Value
    requires Reads(f, row)
  {
    if f.Count? then Int(0) else row[f.col]
  }

  /** The lambda of Update: one value into one state. */
  function Step(f: AggFunction, st: AggState, v: Value): (r: AggState)
    requires Shaped(f, st)
    ensures Shaped(f, r)
  {
    match f
    case Count => Counter(Wrap(TWO_63, st.n + 1))
    case DistinctCount(_, _) => Hashed(st.values + {v})
    case _ => if !st.hasData then Single(true, v) else Single(true, Merged(f, st.value, v))
  }

  function Update(f: AggFunction, st: AggState, row: Row): (r: AggState)
    requires Shaped(f, st) && Reads(f, row)
    ensures Shaped(f, r)
  {
    Step(f, st, Input(f, row))
  }

  /** CombineState, and the per-thread loop of the global WriteResult. */
  function Combine(f: AggFunction, into: AggState, src: AggState): (r: AggState)
    requires Shaped(f, into) && Shaped(f, src)
    ensures Shaped(f, r)
  {
    match f
    case Count => Counter(Wrap(TWO_63, into.n + src.n))
    case DistinctCount(_, _) => Hashed(into.values + src.values)
    case _ =>
      if !src.hasData then into
      else if !into.hasData then src
      else Single(true, Merged(f, into.value, src.value))
  }

  /** WriteResult; without data the value-initialised element is written. */
  function FinalValue(f: AggFunction, st: AggState): Value
    requires Shaped(f, st)
  {
    match f
    case Count => Int(st.n)
    case DistinctCount(_, _) => Int(|st.values|)
    case _ => if st.hasData then st.value else DefaultValue(ResultType(f))
  }

  // ----- what a state stands for -----

  function SumOf(rows: seq<Row>, col: nat): int
    requires forall i :: 0 <= i < |rows| ==> col < |rows[i]|
  {
    if rows == [] then 0
    else
      var v := rows[|rows| - 1][col];
      SumOf(rows[..|rows| - 1], col) + if v.Int? then v.i else 0
  }

  ghost function ValuesOf(rows: seq<Row>, col: nat): (r: seq<Value>)
    requires forall i :: 0 <= i < |rows| ==> col < |rows[i]|
    ensures |r| == |rows| && forall i :: 0 <= i < |r| ==> r[i] == rows[i][col]
  {
    seq(|rows|, i requires 0 <= i < |rows| => rows[i][col])
  }

  /** `v` occurs in the list and nothing there is smaller. */
  ghost predicate IsLeast(v: Value, vs: seq<Value>) {
    v in vs && forall i :: 0 <= i < |vs| ==> !Less(vs[i], v)
  }

  ghost predicate IsGreatest(v: Value, vs: seq<Value>) {
    v in vs && forall i :: 0 <= i < |vs| ==> !Less(v, vs[i])
  }

  ghost function SetOf(vs: seq<Value>): set<Value> {
    set i | 0 <= i < |vs| :: vs[i]
  }

  /** The state is what the rows amount to, in whatever order and split they came. */
  ghost predicate Represents(f: AggFunction, st: AggState, rows: seq<Row>)
    requires AllRead(f, rows)
  {
    && Shaped(f, st)
    && match f
       case Count => st.n == Wrap(TWO_63, |rows|)
       case DistinctCount(col, _) => st.values == SetOf(ValuesOf(rows, col))
       case Sum(col, _) =>
         (st.hasData <==> rows != []) && (rows != [] ==> st.value == Int(Wrap(HalfRange(ResultType(f)), SumOf(rows, col))))
       case Min(col, _) => (st.hasData <==> rows != []) && (rows != [] ==> IsLeast(st.value, ValuesOf(rows, col)))
       case Max(col, _) => (st.hasData <==> rows != []) && (rows != [] ==> IsGreatest(st.value, ValuesOf(rows, col)))
  }

  lemma FreshRepresents(f: AggFunction)
    ensures Represents(f, Fresh(f), [])
  {
    if f.Count? {
      WrapRange(TWO_63, 0);
    }
  }

  lemma {:induction false} SumOfConcat(xs: seq<Row>, ys: seq<Row>, col: nat)
    requires forall i :: 0 <= i < |xs| ==> col < |xs[i]|
    requires forall i :: 0 <= i < |ys| ==> col < |ys[i]|
    ensures forall i :: 0 <= i < |xs + ys| ==> col < |(xs + ys)[i]|
    ensures SumOf(xs + ys, col) == SumOf(xs, col) + SumOf(ys, col)
    decreases |ys|
  {
    if ys == [] {
      assert xs + ys == xs;
    } else {
      SumOfConcat(xs, ys[..|ys| - 1], col);
      assert (xs + ys)[..|xs + ys| - 1] == xs + ys[..|ys| - 1];
    }
  }

  /** One more row is like combining with the state of that row alone. */
  lemma UpdateIsCombine(f: AggFunction, st: AggState, row: Row)
    requires Shaped(f, st) && Reads(f, row)
    ensures Update(f, st, row) == Combine(f, st, Update(f, Fresh(f), row))
    ensures Represents(f, Update(f, Fresh(f), row), [row])
  {
    if f.Count? {
      WrapRange(TWO_63, 1);
    } else {
      var v := row[f.col];
      assert ValuesOf([row], f.col) == [v];
      if f.Sum? {
        SummandRange(v, f.ty);
        WrapRange(HalfRange(ResultType(f)), v.i);
        assert SumOf([row], f.col) == SumOf([row][..0], f.col) + v.i;
      } else if f.DistinctCount? {
        assert SetOf([v]) == {v} by { assert [v][0] in SetOf([v]); }
      } else {
        LessIsStrictTotal(v, v, v);
      }
    }
  }

  lemma UpdateRepresents(f: AggFunction, st: AggState, rows: seq<Row>, row: Row)
    requires AllRead(f, rows) && Reads(f, row) && Represents(f, st, rows)
    ensures AllRead(f, rows + [row]) && Represents(f, Update(f, st, row), rows + [row])
  {
    UpdateIsCombine(f, st, row);
    CombineRepresents(f, st, rows, Update(f, Fresh(f), row), [row]);
  }

  /** Combining two states represents both lists of rows. */
  lemma CombineRepresents(f: AggFunction, a: AggState, xs: seq<Row>, b: AggState, ys: seq<Row>)
    requires AllRead(f, xs) && AllRead(f, ys) && Represents(f, a, xs) && Represents(f, b, ys)
    ensures AllRead(f, xs + ys) && Represents(f, Combine(f, a, b), xs + ys)
  {
    match f
    case Count => WrapTwice(TWO_63, |xs|, |ys|);
    case Sum(col, _) => CombineSums(f, a, xs, b, ys);
    case Min(_, _) => CombineLeast(f, a, xs, b, ys);
    case Max(_, _) => CombineGreatest(f, a, xs, b, ys);
    case DistinctCount(col, _) =>
      ValuesOfBoth(xs, ys, col);
      SetOfBoth(ValuesOf(xs, col), ValuesOf(ys, col));
  }

  lemma ValuesOfBoth(xs: seq<Row>, ys: seq<Row>, col: nat)
    requires forall i :: 0 <= i < |xs| ==> col < |xs[i]|
    requires forall i :: 0 <= i < |ys| ==> col < |ys[i]|
    ensures forall i :: 0 <= i < |xs + ys| ==> col < |(xs + ys)[i]|
    ensures ValuesOf(xs + ys, col) == ValuesOf(xs, col) + ValuesOf(ys, col)
  {
  }

  lemma CombineLeast(f: AggFunction, a: AggState, xs: seq<Row>, b: AggState, ys: seq<Row>)
    requires f.Min? && AllRead(f, xs) && AllRead(f, ys) && Represents(f, a, xs) && Represents(f, b, ys)
    ensures AllRead(f, xs + ys) && Represents(f, Combine(f, a, b), xs + ys)
  {
    ValuesOfBoth(xs, ys, f.col);
    if xs == [] {
      Sequences.Empties(ys);
    } else if ys == [] {
      Sequences.Empties(xs);
    } else {
      LeastOfBoth(a.value, ValuesOf(xs, f.col), b.value, ValuesOf(ys, f.col));
    }
  }

  lemma CombineGreatest(f: AggFunction, a: AggState, xs: seq<Row>, b: AggState, ys: seq<Row>)
    requires f.Max? && AllRead(f, xs) && AllRead(f, ys) && Represents(f, a, xs) && Represents(f, b, ys)
    ensures AllRead(f, xs + ys) && Represents(f, Combine(f, a, b), xs + ys)
  {
    ValuesOfBoth(xs, ys, f.col);
    if xs == [] {
      Sequences.Empties(ys);
    } else if ys == [] {
      Sequences.Empties(xs);
    } else {
      GreatestOfBoth(a.value, ValuesOf(xs, f.col), b.value, ValuesOf(ys, f.col));
    }
  }

  lemma CombineSums(f: AggFunction, a: AggState, xs: seq<Row>, b: AggState, ys: seq<Row>)
    requires f.Sum? && AllRead(f, xs) && AllRead(f, ys) && Represents(f, a, xs) && Represents(f, b, ys)
    ensures AllRead(f, xs + ys) && Represents(f, Combine(f, a, b), xs + ys)
  {
    SumOfConcat(xs, ys, f.col);
    if xs == [] {
      assert xs + ys == ys;
    } else if ys == [] {
      assert xs + ys == xs;
    } else {
      SummandRange(xs[0][f.col], f.ty);
      WrapTwice(HalfRange(ResultType(f)), SumOf(xs, f.col), SumOf(ys, f.col));
    }
  }

  lemma LeastOfBoth(a: Value, xs: seq<Value>, b: Value, ys: seq<Value>)
    requires IsLeast(a, xs) && IsLeast(b, ys)
    ensures IsLeast(if Less(b, a) then b else a, xs + ys)
  {
    forall i | 0 <= i < |xs + ys| ensures !Less((xs + ys)[i], if Less(b, a) then b else a) {
      var v := (xs + ys)[i];
      LessIsStrictTotal(v, b, a);
      LessIsStrictTotal(v, a, b);
      LessIsStrictTotal(a, b, v);
    }
  }

  lemma GreatestOfBoth(a: Value, xs: seq<Value>, b: Value, ys: seq<Value>)
    requires IsGreatest(a, xs) && IsGreatest(b, ys)
    ensures IsGreatest(if Less(a, b) then b else a, xs + ys)
  {
    forall i | 0 <= i < |xs + ys| ensures !Less(if Less(a, b) then b else a, (xs + ys)[i]) {
      var v := (xs + ys)[i];
      LessIsStrictTotal(a, b, v);
      LessIsStrictTotal(b, a, v);
    }
  }

  lemma SetOfBoth(xs: seq<Value>, ys: seq<Value>)
    ensures SetOf(xs + ys) == SetOf(xs) + SetOf(ys)
  {
    forall v ensures v in SetOf(xs + ys) <==> v in SetOf(xs) + SetOf(ys) {
      if v in SetOf(xs) {
        var i :| 0 <= i < |xs| && xs[i] == v;
        assert (xs + ys)[i] == v;
      }
      if v in SetOf(ys) {
        var i :| 0 <= i < |ys| && ys[i] == v;
        assert (xs + ys)[|xs| + i] == v;
      }
    }
  }

  // ----- the meaning of an aggregate -----

  /** `v` is the aggregate of the rows, independently of how it is computed. */
  ghost predicate IsAggregate(f: AggFunction, v: Value, rows: seq<Row>)
    requires AllRead(f, rows)
  {
    match f
    case Count => v == Int(|rows|)
    case Sum(col, _) => v == Int(SumOf(rows, col))
    case Min(col, ty) => if rows == [] then v == DefaultValue(ty) else IsLeast(v, ValuesOf(rows, col))
    case Max(col, ty) => if rows == [] then v == DefaultValue(ty) else IsGreatest(v, ValuesOf(rows, col))
    case DistinctCount(col, _) => v == Int(|SetOf(ValuesOf(rows, col))|)
  }

  /** How many rows a SUM accumulator of this input type can take, whatever their values. */
  function SumLimit(ty: ColumnType): nat {
    match ty
    case INT16 => 0x1_0000
    case INT32 => 0x1_0000_0000
    case INT64 => 0x1_0000_0000_0000_0000
    case _ => 1
  }

  predicate NoOverflow(f: AggFunction, rows: nat) {
    match f
    case Sum(_, ty) => rows <= SumLimit(ty)
    case _ => rows < TWO_63
  }

  /** The accumulator can hold the true result: what may be added up on the way does not matter. */
  ghost predicate Exact(f: AggFunction, rows: seq<Row>)
    requires AllRead(f, rows)
  {
    match f
    case Count => |rows| < TWO_63
    case Sum(col, ty) => rows == [] || -HalfRange(ResultType(f)) <= SumOf(rows, col) < HalfRange(ResultType(f))
    case _ => true
  }

  /** The result read from a state is the aggregate of the rows it represents exactly if the accumulator can hold it. */
  lemma ResultIsAggregate(f: AggFunction, st: AggState, rows: seq<Row>)
    requires AllRead(f, rows) && Represents(f, st, rows)
    ensures IsAggregate(f, FinalValue(f, st), rows) <==> Exact(f, rows)
  {
    match f
    case Count => WrapExactly(TWO_63, |rows|);
    case Sum(col, ty) =>
      if rows != [] {
        SummandRange(rows[0][col], ty);
        WrapExactly(HalfRange(ResultType(f)), SumOf(rows, col));
      }
    case _ =>
  }

  lemma WrapExactly(half: int, x: int)
    requires half > 0
    ensures Wrap(half, x) == x <==> -half <= x < half
  {
    if -half <= x < half {
      WrapRange(half, x);
    }
  }

  /** Few enough rows cannot overflow whatever they hold. */
  lemma FewIsExact(f: AggFunction, rows: seq<Row>)
    requires AllRead(f, rows) && NoOverflow(f, |rows|)
    ensures Exact(f, rows)
  {
    if f.Sum? && rows != [] {
      SummandRange(rows[0][f.col], f.ty);
      SumWithinLimit(rows, f.col, f.ty);
    }
  }

  ghost predicate TypedColumn(rows: seq<Row>, col: nat, ty: ColumnType) {
    forall i :: 0 <= i < |rows| ==> col < |rows[i]| && HasType(rows[i][col], ty)
  }

  lemma {:induction false} SumBounds(rows: seq<Row>, col: nat, half: int)
    requires forall i :: 0 <= i < |rows| ==> col < |rows[i]| && rows[i][col].Int? && -half <= rows[i][col].i <= half - 1
    ensures -(|rows| * half) <= SumOf(rows, col) <= |rows| * half - |rows|
  {
    if rows != [] {
      var n := |rows| - 1;
      SumBounds(rows[..n], col, half);
      assert |rows| * half == n * half + half;
    }
  }

  /** No sum of that many values leaves the accumulator; so none of any part of them does either. */
  lemma SumWithinLimit(rows: seq<Row>, col: nat, ty: ColumnType)
    requires TypedColumn(rows, col, ty) && SumType(ty).Some? && |rows| <= SumLimit(ty)
    ensures -HalfRange(SumType(ty).value) <= SumOf(rows, col) < HalfRange(SumType(ty).value)
  {
    SumBounds(rows, col, HalfRange(ty));
    var n, h := |rows|, HalfRange(ty);
    if n == 0 { return; }
    MulMonotone(n, SumLimit(ty), h);
    assert SumLimit(ty) * h == HalfRange(SumType(ty).value);
  }

  /** n rows of the least value. */
  ghost function LeastRows(n: nat, col: nat, ty: ColumnType): (rows: seq<Row>)
    requires SumType(ty).Some?
    ensures |rows| == n && TypedColumn(rows, col, ty)
  {
    seq(n, _ => seq(col + 1, _ => Int(-HalfRange(ty))))
  }

  lemma {:induction false} LeastRowsSum(n: nat, col: nat, ty: ColumnType)
    requires SumType(ty).Some?
    ensures SumOf(LeastRows(n, col, ty), col) == -(n * HalfRange(ty))
  {
    if n > 0 {
      LeastRowsSum(n - 1, col, ty);
      assert LeastRows(n, col, ty)[..n - 1] == LeastRows(n - 1, col, ty);
    }
  }

  /** The limit is exact: n rows can never overflow the accumulator if and only if n is within it. */
  lemma SumLimitIsExact(col: nat, ty: ColumnType, n: nat)
    requires SumType(ty).Some?
    ensures n <= SumLimit(ty)
       <==> forall rows :: |rows| == n && TypedColumn(rows, col, ty) ==>
              -HalfRange(SumType(ty).value) <= SumOf(rows, col) < HalfRange(SumType(ty).value)
  {
    if n <= SumLimit(ty) {
      forall rows | |rows| == n && TypedColumn(rows, col, ty)
        ensures -HalfRange(SumType(ty).value) <= SumOf(rows, col) < HalfRange(SumType(ty).value)
      {
        SumWithinLimit(rows, col, ty);
      }
    } else {
      var h := HalfRange(ty);
      LeastRowsSum(n, col, ty);
      MulMonotone(SumLimit(ty) + 1, n, h);
      assert (SumLimit(ty) + 1) * h > HalfRange(SumType(ty).value);
      assert !(-HalfRange(SumType(ty).value) <= SumOf(LeastRows(n, col, ty), col));
    }
  }

  // ----- order does not matter -----

  lemma {:induction false} SumOfRemove(rows: seq<Row>, j: nat, col: nat)
    requires j < |rows| && forall i :: 0 <= i < |rows| ==> col < |rows[i]|
    ensures SumOf(rows, col)
         == SumOf(rows[..j] + rows[j + 1..], col) + (if rows[j][col].Int? then rows[j][col].i else 0)
    decreases |rows|
  {
    var n := |rows| - 1;
    var rest := rows[..j] + rows[j + 1..];
    if j == n {
      assert rest == rows[..n];
    } else {
      SumOfRemove(rows[..n], j, col);
      assert rest[..n - 1] == rows[..n][..j] + rows[..n][j + 1..];
    }
  }

  lemma {:induction false} SumOfBag(xs: seq<Row>, ys: seq<Row>, col: nat)
    requires forall i :: 0 <= i < |xs| ==> col < |xs[i]|
    requires forall i :: 0 <= i < |ys| ==> col < |ys[i]|
    requires multiset(xs) == multiset(ys)
    ensures SumOf(xs, col) == SumOf(ys, col)
    decreases |xs|
  {
    if xs == [] {
      Sequences.SameBagSameLength(xs, ys);
    } else {
      var n := |xs| - 1;
      var j := Sequences.DropLastFromBoth(xs, ys);
      SumOfBag(xs[..n], ys[..j] + ys[j + 1..], col);
      SumOfRemove(ys, j, col);
    }
  }

  lemma SameElements(xs: seq<Row>, ys: seq<Row>, col: nat)
    requires forall i :: 0 <= i < |xs| ==> col < |xs[i]|
    requires forall i :: 0 <= i < |ys| ==> col < |ys[i]|
    requires multiset(xs) == multiset(ys)
    ensures forall v :: v in ValuesOf(xs, col) ==> v in ValuesOf(ys, col)
  {
    forall v | v in ValuesOf(xs, col) ensures v in ValuesOf(ys, col) {
      var i :| 0 <= i < |xs| && xs[i][col] == v;
      var j := Sequences.Locate(xs, ys, xs[i]);
      assert ValuesOf(ys, col)[j] == v;
    }
  }

  lemma AggregateOfBag(f: AggFunction, v: Value, xs: seq<Row>, ys: seq<Row>)
    requires AllRead(f, xs) && multiset(xs) == multiset(ys) && IsAggregate(f, v, xs)
    ensures AllRead(f, ys) && IsAggregate(f, v, ys)
  {
    Sequences.SameBagSameLength(xs, ys);
    forall j | 0 <= j < |ys| ensures Reads(f, ys[j]) {
      var i := Sequences.Locate(ys, xs, ys[j]);
    }
    if !f.Count? {
      SameElements(xs, ys, f.col);
      SameElements(ys, xs, f.col);
      SumOfBag(xs, ys, f.col);
      assert SetOf(ValuesOf(xs, f.col)) == SetOf(ValuesOf(ys, f.col)) by {
        SetOfIn(ValuesOf(xs, f.col));
        SetOfIn(ValuesOf(ys, f.col));
      }
      forall j | 0 <= j < |ys| ensures ValuesOf(ys, f.col)[j] in ValuesOf(xs, f.col) { }
    }
  }

  lemma ExactOfBag(f: AggFunction, xs: seq<Row>, ys: seq<Row>)
    requires AllRead(f, xs) && AllRead(f, ys) && multiset(xs) == multiset(ys)
    ensures Exact(f, xs) <==> Exact(f, ys)
  {
    Sequences.SameBagSameLength(xs, ys);
    if f.Sum? {
      SumOfBag(xs, ys, f.col);
    }
  }

  /** A value is, or is not, an aggregate of the rows whatever their order, and so is its being representable. */
  lemma SameForBag(f: AggFunction, v: Value, xs: seq<Row>, ys: seq<Row>)
    requires AllRead(f, xs) && multiset(xs) == multiset(ys)
    ensures AllRead(f, ys) && (IsAggregate(f, v, xs) <==> IsAggregate(f, v, ys)) && (Exact(f, xs) <==> Exact(f, ys))
  {
    forall j | 0 <= j < |ys| ensures Reads(f, ys[j]) {
      var i := Sequences.Locate(ys, xs, ys[j]);
    }
    ExactOfBag(f, xs, ys);
    if IsAggregate(f, v, xs) {
      AggregateOfBag(f, v, xs, ys);
    }
    if IsAggregate(f, v, ys) {
      AggregateOfBag(f, v, ys, xs);
    }
  }

  lemma SetOfIn(vs: seq<Value>)
    ensures forall v :: v in SetOf(vs) <==> v in vs
  {
  }

  /** An aggregate of a column is unique. */
  lemma AggregateUnique(f: AggFunction, v: Value, w: Value, rows: seq<Row>)
    requires AllRead(f, rows) && IsAggregate(f, v, rows) && IsAggregate(f, w, rows)
    ensures v == w
  {
    LessIsStrictTotal(v, w, v);
  }

  // ----- aggregates, told by the cells -----

  /** MIN of numbers is one of them and not above any other. */
  lemma LeastOfNumbers(col: nat, ty: ColumnType, v: Value, rows: seq<Row>)
    requires AllRead(Min(col, ty), rows) && rows != [] && ty != STRING
    ensures IsAggregate(Min(col, ty), v, rows) <==>
            v.Int? && (exists i :: 0 <= i < |rows| && rows[i][col] == v)
            && forall i :: 0 <= i < |rows| ==> rows[i][col].Int? && v.i <= rows[i][col].i
  {
    var vs := ValuesOf(rows, col);
    forall i | 0 <= i < |rows| ensures rows[i][col].Int? && (Less(vs[i], v) <==> Above(v, rows[i][col])) {
      assert Reads(Min(col, ty), rows[i]);
      LessExactly(rows[i][col], v);
    }
    assert v in vs <==> exists i :: 0 <= i < |rows| && rows[i][col] == v;
  }

  /** MAX of numbers is one of them and not below any other. */
  lemma GreatestOfNumbers(col: nat, ty: ColumnType, v: Value, rows: seq<Row>)
    requires AllRead(Max(col, ty), rows) && rows != [] && ty != STRING
    ensures IsAggregate(Max(col, ty), v, rows) <==>
            v.Int? && (exists i :: 0 <= i < |rows| && rows[i][col] == v)
            && forall i :: 0 <= i < |rows| ==> rows[i][col].Int? && v.i >= rows[i][col].i
  {
    var vs := ValuesOf(rows, col);
    forall i | 0 <= i < |rows| ensures rows[i][col].Int? && (Less(v, vs[i]) <==> Above(rows[i][col], v)) {
      assert Reads(Max(col, ty), rows[i]);
      LessExactly(v, rows[i][col]);
    }
    assert v in vs <==> exists i :: 0 <= i < |rows| && rows[i][col] == v;
  }

  /** MIN and MAX of any column, strings byte by byte. */
  lemma ExtremesExactly(f: AggFunction, v: Value, rows: seq<Row>)
    requires (f.Min? || f.Max?) && AllRead(f, rows) && rows != []
    ensures IsAggregate(f, v, rows) <==>
            (exists i :: 0 <= i < |rows| && rows[i][f.col] == v)
            && forall i :: 0 <= i < |rows| ==> InOrder(v, rows[i][f.col], f.Max?)
  {
    var vs := ValuesOf(rows, f.col);
    forall i | 0 <= i < |rows| ensures InOrder(v, vs[i], f.Max?) <==> !(if f.Max? then Less(v, vs[i]) else Less(vs[i], v)) {
      InOrderExactly(v, vs[i], f.Max?);
    }
    assert v in vs <==> exists i :: 0 <= i < |rows| && rows[i][f.col] == v;
  }

  /** SUM of no rows is 0, and a row adds its number. */
  lemma SumBuilds(col: nat, ty: ColumnType, rows: seq<Row>, row: Row, v: Value)
    requires AllRead(Sum(col, ty), rows) && Reads(Sum(col, ty), row)
    ensures IsAggregate(Sum(col, ty), Int(0), [])
    ensures v.Int? && IsAggregate(Sum(col, ty), v, rows) ==>
              row[col].Int? && AllRead(Sum(col, ty), rows + [row]) && IsAggregate(Sum(col, ty), Int(v.i + row[col].i), rows + [row])
  {
    SummandRange(row[col], ty);
    assert (rows + [row])[..|rows|] == rows;
  }

  /** COUNT is the number of rows, DISTINCT COUNT the number of different cells. */
  lemma CountsExactly(col: nat, ty: ColumnType, v: Value, rows: seq<Row>)
    requires AllRead(DistinctCount(col, ty), rows)
    ensures IsAggregate(Count, v, rows) <==> v == Int(|rows|)
    ensures IsAggregate(DistinctCount(col, ty), v, rows) <==> v == Int(|set i | 0 <= i < |rows| :: rows[i][col]|)
  {
    var cells := set i | 0 <= i < |rows| :: rows[i][col];
    assert SetOf(ValuesOf(rows, col)) == cells by {
      forall x ensures x in SetOf(ValuesOf(rows, col)) <==> x in cells {
        if x in cells {
          var i :| 0 <= i < |rows| && rows[i][col] == x;
          assert ValuesOf(rows, col)[i] == x;
        }
      }
    }
  }

  /** Over no rows MIN and MAX are the element a column starts with: 0, or the empty string. */
  lemma ExtremesOfNothing(col: nat, ty: ColumnType, v: Value)
    ensures IsAggregate(Min(col, ty), v, []) <==> v == if ty == STRING then Str([]) else Int(0)
    ensures IsAggregate(Max(col, ty), v, []) <==> v == if ty == STRING then Str([]) else Int(0)
  {
  }

  /** The accumulators of SUM and the column types of the other aggregates. */
  lemma AggregateTypes(col: nat, ty: ColumnType)
    ensures ResultType(Count) == INT64 && ResultType(DistinctCount(col, ty)) == INT64
    ensures ResultType(Min(col, ty)) == ty && ResultType(Max(col, ty)) == ty
    ensures ResultType(Sum(col, INT16)) == INT32 && ResultType(Sum(col, INT32)) == INT64
    ensures ResultType(Sum(col, INT64)) == INT128 && ResultType(Sum(col, INT128)) == INT128
  {
  }
}
