/**
 Filter functions (src/execution/expressions/FilterFunctions.h): each reads a batch through its selection
 vector and returns the physical indices of the rows that pass.
 */
module Filters {
  import opened Values
  import opened Wrappers
  import opened Batches

  datatype Comparison = NotEq | Eq | Greater | GreaterEq | LessEq | Like | NotLike

  datatype FilterFunction =
    | Compare(col: nat, op: Comparison, target: Value)
    | And(left: FilterFunction, right: FilterFunction)
    | Or(left: FilterFunction, right: FilterFunction)

  /** `value.find(pattern) != npos`. */
  predicate Contains(s: seq<Byte>, pattern: seq<Byte>) {
    exists k :: 0 <= k <= |s| && pattern <= s[k..]
  }

  predicate Passes(op: Comparison, v: Value, target: Value) {
    match op
    case NotEq => v != target
    case Eq => v == target
    case Greater => Less(target, v)
    case GreaterEq => !Less(v, target)
    case LessEq => !Less(target, v)
    case Like => v.Str? && target.Str? && Contains(v.s, target.s)
    case NotLike => v.Str? && target.Str? && !Contains(v.s, target.s)
  }

  /** What a comparison asks of a value, told by the numbers and bytes themselves. */
  ghost predicate Meets(op: Comparison, v: Value, target: Value) {
    match op
    case NotEq => v != target
    case Eq => v == target
    case Greater => Above(v, target)
    case GreaterEq => v == target || Above(v, target)
    case LessEq => v == target || Above(target, v)
    case Like => v.Str? && target.Str? && exists k: nat :: k <= |v.s| && target.s <= v.s[k..]
    case NotLike => v.Str? && target.Str? && forall k: nat :: k <= |v.s| ==> !(target.s <= v.s[k..])
  }

  lemma PassesExactly(op: Comparison, v: Value, target: Value)
    ensures Passes(op, v, target) <==> Meets(op, v, target)
  {
    LessExactly(v, target);
    LessExactly(target, v);
    LessIsStrictTotal(v, target, v);
  }

  /** The seven comparisons on numbers. */
  lemma PassesOnNumbers(op: Comparison, x: int, y: int)
    ensures Passes(op, Int(x), Int(y)) <==>
            match op
            case NotEq => x != y
            case Eq => x == y
            case Greater => x > y
            case GreaterEq => x >= y
            case LessEq => x <= y
            case Like => false
            case NotLike => false
  {
    PassesExactly(op, Int(x), Int(y));
  }

  /** The seven comparisons on strings. */
  lemma PassesOnStrings(op: Comparison, x: seq<Byte>, y: seq<Byte>)
    ensures Passes(op, Str(x), Str(y)) <==>
            match op
            case NotEq => x != y
            case Eq => x == y
            case Greater => BytesBefore(y, x)
            case GreaterEq => !BytesBefore(x, y)
            case LessEq => !BytesBefore(y, x)
            case Like => exists k: nat :: k <= |x| && y <= x[k..]
            case NotLike => forall k: nat :: k <= |x| ==> !(y <= x[k..])
  {
    LessExactly(Str(x), Str(y));
    LessExactly(Str(y), Str(x));
  }

  /** All columns the tree reads exist in a batch of this width. */
  predicate Fits(f: FilterFunction, width: nat) {
    match f
    case Compare(col, _, _) => col < width
    case And(l, r) => Fits(l, width) && Fits(r, width)
    case Or(l, r) => Fits(l, width) && Fits(r, width)
  }

  /** The boolean meaning of the tree on one row. */
  predicate Holds(f: FilterFunction, row: Row)
    requires Fits(f, |row|)
  {
    match f
    case Compare(col, op, target) => Passes(op, row[col], target)
    case And(l, r) => Holds(l, row) && Holds(r, row)
    case Or(l, r) => Holds(l, row) || Holds(r, row)
  }

  /** The tree as a reader of the query takes it. */
  ghost predicate IsTrue(f: FilterFunction, row: Row)
    requires Fits(f, |row|)
  {
    match f
    case Compare(col, op, target) => Meets(op, row[col], target)
    case And(l, r) => IsTrue(l, row) && IsTrue(r, row)
    case Or(l, r) => IsTrue(l, row) || IsTrue(r, row)
  }

  lemma {:induction false} HoldsExactly(f: FilterFunction, row: Row)
    requires Fits(f, |row|)
    ensures Holds(f, row) <==> IsTrue(f, row)
  {
    match f
    case Compare(col, op, target) => PassesExactly(op, row[col], target);
    case And(l, r) =>
      HoldsExactly(l, row);
      HoldsExactly(r, row);
    case Or(l, r) =>
      HoldsExactly(l, row);
      HoldsExactly(r, row);
  }

  /** The selected physical rows on which the tree is true, in order. */
  ghost predicate Selects(f: FilterFunction, b: RecordBatch, sel: seq<nat>)
    requires Valid(b) && Fits(f, |b.columns|)
  {
    SelectedInRange(b);
    StrictlyIncreasing(sel) && forall p :: p in sel <==> p in Selected(b) && IsTrue(f, RowAt(b.columns, p))
  }

  lemma MatchingSelects(f: FilterFunction, b: RecordBatch, sel: seq<nat>)
    requires Valid(b) && Fits(f, |b.columns|)
    ensures IsMatching(f, b, sel) <==> Selects(f, b, sel)
  {
    SelectedInRange(b);
    forall p | p in Selected(b) ensures Holds(f, RowAt(b.columns, p)) <==> IsTrue(f, RowAt(b.columns, p)) {
      HoldsExactly(f, RowAt(b.columns, p));
    }
  }

  /** A comparison on a column of numbers selects a row exactly if its number compares so with the target. */
  lemma SelectsNumbers(col: nat, op: Comparison, target: int, b: RecordBatch, sel: seq<nat>, p: nat)
    requires Valid(b) && col < |b.columns| && Selects(Compare(col, op, Int(target)), b, sel)
    requires p in Selected(b) && p < |b.columns[col].data| && b.columns[col].data[p].Int?
    ensures p in sel <==>
            match op
            case NotEq => b.columns[col].data[p].i != target
            case Eq => b.columns[col].data[p].i == target
            case Greater => b.columns[col].data[p].i > target
            case GreaterEq => b.columns[col].data[p].i >= target
            case LessEq => b.columns[col].data[p].i <= target
            case Like => false
            case NotLike => false
  {
    SelectedInRange(b);
    assert RowAt(b.columns, p)[col] == b.columns[col].data[p];
  }

  /** (c > k and d LIKE t) or e <= m, for any three columns: such rows are selected, and no others. */
  lemma SelectsNested(c: nat, k: int, d: nat, t: seq<Byte>, e: nat, m: int, b: RecordBatch, sel: seq<nat>, p: nat)
    requires Valid(b) && c < |b.columns| && d < |b.columns| && e < |b.columns|
    requires Fits(Or(And(Compare(c, Greater, Int(k)), Compare(d, Like, Str(t))), Compare(e, LessEq, Int(m))), |b.columns|)
    requires Selects(Or(And(Compare(c, Greater, Int(k)), Compare(d, Like, Str(t))), Compare(e, LessEq, Int(m))), b, sel)
    requires p in Selected(b) && p < |b.columns[c].data| && p < |b.columns[d].data| && p < |b.columns[e].data|
    requires b.columns[c].data[p].Int? && b.columns[d].data[p].Str? && b.columns[e].data[p].Int?
    ensures p in sel <==>
            || (b.columns[c].data[p].i > k
                && exists j: nat :: j <= |b.columns[d].data[p].s| && t <= b.columns[d].data[p].s[j..])
            || b.columns[e].data[p].i <= m
  {
    SelectedInRange(b);
    var row := RowAt(b.columns, p);
    var left := And(Compare(c, Greater, Int(k)), Compare(d, Like, Str(t)));
    assert row[c] == b.columns[c].data[p] && row[d] == b.columns[d].data[p] && row[e] == b.columns[e].data[p];
    assert IsTrue(left, row) <==> row[c].i > k && Meets(Like, row[d], Str(t));
    assert IsTrue(Compare(e, LessEq, Int(m)), row) <==> row[e].i <= m;
    assert p in sel <==> IsTrue(left, row) || IsTrue(Compare(e, LessEq, Int(m)), row);
  }

  /** What a filter must return: the selected physical rows on which it holds, and nothing else, in order. */
  ghost predicate IsMatching(f: FilterFunction, b: RecordBatch, sel: seq<nat>)
    requires Valid(b) && Fits(f, |b.columns|)
  {
    SelectedInRange(b);
    && StrictlyIncreasing(sel)
    && (forall p :: p in sel ==> p in Selected(b) && Holds(f, RowAt(b.columns, p)))
    && (forall p :: p in Selected(b) && Holds(f, RowAt(b.columns, p)) ==> p in sel)
  }

  /** A strictly increasing list is determined by its set of elements, so `IsMatching` has one solution. */
  lemma {:induction false} IncreasingUnique(s: seq<nat>, t: seq<nat>)
    requires StrictlyIncreasing(s) && StrictlyIncreasing(t)
    requires forall p :: p in s <==> p in t
    ensures s == t
  {
    if s != [] { assert s[0] in s; }
    if t != [] { assert t[0] in t; }
    assert s == [] <==> t == [];
    if s != [] {
      assert s[0] in t && t[0] in s;
      assert s[0] == t[0];
      forall p ensures p in s[1..] <==> p in t[1..] {
        if p in s[1..] { assert p in t && p != t[0]; }
        if p in t[1..] { assert p in s && p != s[0]; }
      }
      IncreasingUnique(s[1..], t[1..]);
      assert s == [s[0]] + s[1..] && t == [t[0]] + t[1..];
    }
  }

  /** IterateColumnData: the physical indices of the logical rows that pass, in the order of the rows. */
  method IterateColumn(col: nat, op: Comparison, target: Value, b: RecordBatch) returns (sel: seq<nat>)
    requires Valid(b) && col < |b.columns|
    ensures IsMatching(Compare(col, op, target), b, sel)
  {
    sel := [];
    SelectedInRange(b);
    ghost var s := Selected(b);
    var data := b.columns[col].data;
    ghost var f := Compare(col, op, target);
    var i := 0;
    while i < b.numRows
      invariant 0 <= i <= b.numRows
      invariant StrictlyIncreasing(sel)
      invariant forall p :: p in sel ==> p in s[..i] && Holds(f, RowAt(b.columns, p))
      invariant forall k :: 0 <= k < i && Holds(f, RowAt(b.columns, s[k])) ==> s[k] in sel
    {
      var realInd := if b.sel.None? then i else b.sel.value[i];
      assert realInd == s[i] && s[..i + 1] == s[..i] + [s[i]];
      if Passes(op, data[realInd], target) {
        AppendIncreasing(sel, realInd);
        sel := sel + [realInd];
      }
      i := i + 1;
    }
    assert s[..i] == s;
  }

  /** One comparison leaf. */
  method EvaluateCompare(col: nat, op: Comparison, target: Value, b: RecordBatch) returns (sel: seq<nat>)
    requires Valid(b) && col < |b.columns|
    ensures IsMatching(Compare(col, op, target), b, sel) && Selects(Compare(col, op, target), b, sel)
  {
    sel := IterateColumn(col, op, target, b);
    MatchingSelects(Compare(col, op, target), b, sel);
  }

  /** `std::set_intersection` of two increasing ranges. */
  method SetIntersection(a: seq<nat>, b: seq<nat>) returns (r: seq<nat>)
    requires StrictlyIncreasing(a) && StrictlyIncreasing(b)
    ensures StrictlyIncreasing(r)
    ensures forall p :: p in r <==> p in a && p in b
  {
    r := [];
    var i, j := 0, 0;
    while i < |a| && j < |b|
      invariant 0 <= i <= |a| && 0 <= j <= |b|
      invariant StrictlyIncreasing(r)
      invariant forall p :: p in r <==> p in a[..i] && p in b[..j]
      invariant forall p :: p in r ==> (i < |a| ==> p < a[i]) && (j < |b| ==> p < b[j])
      invariant i < |a| ==> forall p :: p in b[..j] ==> p < a[i]
      invariant j < |b| ==> forall p :: p in a[..i] ==> p < b[j]
      decreases |a| + |b| - i - j
    {
      assert a[..i + 1] == a[..i] + [a[i]] && b[..j + 1] == b[..j] + [b[j]];
      if a[i] < b[j] {
        i := i + 1;
      } else if b[j] < a[i] {
        j := j + 1;
      } else {
        AppendIncreasing(r, a[i]);
        r := r + [a[i]];
        i, j := i + 1, j + 1;
      }
    }
    RestIsLarger(a, i);
    RestIsLarger(b, j);
  }

  lemma RestIsLarger(s: seq<nat>, i: nat)
    requires i <= |s| && StrictlyIncreasing(s)
    ensures forall p :: p in s <==> p in s[..i] || p in s[i..]
    ensures i < |s| ==> forall p :: p in s[i..] ==> s[i] <= p
  {
    assert s == s[..i] + s[i..];
  }

  /** `std::set_union` of two increasing ranges. */
  method SetUnion(a: seq<nat>, b: seq<nat>) returns (r: seq<nat>)
    requires StrictlyIncreasing(a) && StrictlyIncreasing(b)
    ensures StrictlyIncreasing(r)
    ensures forall p :: p in r <==> p in a || p in b
  {
    r := [];
    var i, j := 0, 0;
    while i < |a| || j < |b|
      invariant 0 <= i <= |a| && 0 <= j <= |b|
      invariant StrictlyIncreasing(r)
      invariant forall p :: p in r <==> p in a[..i] || p in b[..j]
      invariant forall p :: p in r ==> (i < |a| ==> p < a[i]) && (j < |b| ==> p < b[j])
      decreases |a| + |b| - i - j
    {
      if i < |a| { assert a[..i + 1] == a[..i] + [a[i]]; }
      if j < |b| { assert b[..j + 1] == b[..j] + [b[j]]; }
      if j == |b| || (i < |a| && a[i] < b[j]) {
        AppendIncreasing(r, a[i]);
        r := r + [a[i]];
        i := i + 1;
      } else if i == |a| || b[j] < a[i] {
        AppendIncreasing(r, b[j]);
        r := r + [b[j]];
        j := j + 1;
      } else {
        AppendIncreasing(r, a[i]);
        r := r + [a[i]];
        i, j := i + 1, j + 1;
      }
    }
    assert a[..i] == a && b[..j] == b;
  }

  /** FilterFunction::Evaluate on the whole tree. */
  method Evaluate(f: FilterFunction, b: RecordBatch) returns (sel: seq<nat>)
    requires Valid(b) && Fits(f, |b.columns|)
    ensures IsMatching(f, b, sel) && Selects(f, b, sel)
  {
    match f
    case Compare(col, op, target) =>
      sel := EvaluateCompare(col, op, target, b);
    case And(l, r) =>
      var x := Evaluate(l, b);
      var y := Evaluate(r, b);
      sel := SetIntersection(x, y);
      MatchingSelects(f, b, sel);
    case Or(l, r) =>
      var x := Evaluate(l, b);
      var y := Evaluate(r, b);
      sel := SetUnion(x, y);
      MatchingSelects(f, b, sel);
  }

  /** The selection the methods above compute, as a function. */
  ghost function Keep(f: FilterFunction, columns: seq<Column>, s: seq<nat>): (r: seq<nat>)
    requires Fits(f, |columns|)
    requires InRange(columns, s)
  {
    if s == [] then []
    else (if Holds(f, RowAt(columns, s[0])) then [s[0]] else []) + Keep(f, columns, s[1..])
  }

  lemma {:induction false} KeepMembers(f: FilterFunction, columns: seq<Column>, s: seq<nat>)
    requires Fits(f, |columns|) && StrictlyIncreasing(s)
    requires InRange(columns, s)
    ensures forall p :: p in s ==> forall c :: 0 <= c < |columns| ==> p < |columns[c].data|
    ensures forall p :: p in Keep(f, columns, s) <==> p in s && Holds(f, RowAt(columns, p))
    ensures StrictlyIncreasing(Keep(f, columns, s))
  {
    if s != [] {
      KeepMembers(f, columns, s[1..]);
      assert s == [s[0]] + s[1..];
      assert forall p :: p in s[1..] ==> s[0] < p;
      PrependIncreasing(s[0], Keep(f, columns, s[1..]));
    }
  }

  ghost function Matching(f: FilterFunction, b: RecordBatch): (sel: seq<nat>)
    requires Valid(b) && Fits(f, |b.columns|)
    ensures IsMatching(f, b, sel)
  {
    SelectedInRange(b);
    KeepMembers(f, b.columns, Selected(b));
    Keep(f, b.columns, Selected(b))
  }

  /** Any result that meets the contract of `Evaluate` is `Matching`. */
  lemma MatchingUnique(f: FilterFunction, b: RecordBatch, sel: seq<nat>)
    requires Valid(b) && Fits(f, |b.columns|) && IsMatching(f, b, sel)
    ensures sel == Matching(f, b)
  {
    IncreasingUnique(sel, Matching(f, b));
  }

  ghost predicate AllFit(f: FilterFunction, rs: seq<Row>) {
    forall i :: 0 <= i < |rs| ==> Fits(f, |rs[i]|)
  }

  /** Relational selection on rows. */
  ghost function FilterRows(f: FilterFunction, rs: seq<Row>): (out: seq<Row>)
    requires AllFit(f, rs)
  {
    if rs == [] then [] else (if Holds(f, rs[0]) then [rs[0]] else []) + FilterRows(f, rs[1..])
  }

  /** The rows left are those, in order, on which the tree is true. */
  lemma {:induction false} FilterKeeps(f: FilterFunction, rs: seq<Row>) returns (kept: seq<nat>)
    requires AllFit(f, rs)
    ensures StrictlyIncreasing(kept) && |kept| == |FilterRows(f, rs)|
    ensures forall i :: 0 <= i < |kept| ==> kept[i] < |rs| && FilterRows(f, rs)[i] == rs[kept[i]]
    ensures forall j: nat :: j in kept <==> j < |rs| && IsTrue(f, rs[j])
    decreases |rs|
  {
    if rs == [] {
      return [];
    }
    var later := FilterKeeps(f, rs[1..]);
    HoldsExactly(f, rs[0]);
    kept := KeptAhead(rs, FilterRows(f, rs[1..]), later, IsTrue(f, rs[0]));
    forall j: nat ensures j in kept <==> j < |rs| && IsTrue(f, rs[j]) {
      if 0 < j < |rs| {
        assert rs[1..][j - 1] == rs[j];
      }
    }
  }

  lemma {:induction false} KeepIsFilter(f: FilterFunction, columns: seq<Column>, s: seq<nat>)
    requires Fits(f, |columns|)
    requires InRange(columns, s)
    ensures InRange(columns, Keep(f, columns, s))
    ensures AllFit(f, RowsOf(columns, s))
    ensures RowsOf(columns, Keep(f, columns, s)) == FilterRows(f, RowsOf(columns, s))
  {
    if s != [] {
      KeepIsFilter(f, columns, s[1..]);
      assert RowsOf(columns, s)[1..] == RowsOf(columns, s[1..]);
      if Holds(f, RowAt(columns, s[0])) {
        RowsOfConcat(columns, [s[0]], Keep(f, columns, s[1..]));
        assert RowsOf(columns, [s[0]]) == [RowAt(columns, s[0])];
      }
    }
  }

  /** FilterTransformOperator::Execute: a null batch when nothing passes, else the same columns re-selected. */
  ghost function FilterBatch(f: FilterFunction, b: RecordBatch): (r: Option<RecordBatch>)
    requires Valid(b) && Fits(f, |b.columns|)
  {
    var sel := Matching(f, b);
    if sel == [] then None else Some(RecordBatch(|sel|, Some(sel), b.columns))
  }

  method ExecuteFilter(f: FilterFunction, b: RecordBatch) returns (r: Option<RecordBatch>)
    requires Valid(b) && Fits(f, |b.columns|)
    ensures r == FilterBatch(f, b)
    ensures r.Some? ==> Valid(r.value) && r.value.columns == b.columns && r.value.sel.Some? && Selects(f, b, r.value.sel.value)
    ensures r.None? ==> Selects(f, b, [])
  {
    var sel := Evaluate(f, b);
    MatchingUnique(f, b, sel);
    if sel == [] {
      return None;
    }
    MatchingInRange(f, b);
    r := Some(b.(numRows := |sel|, sel := Some(sel)));
  }

  lemma {:induction false} FitsNeedsColumn(f: FilterFunction, width: nat)
    requires Fits(f, width)
    ensures width > 0
  {
    match f
    case Compare(_, _, _) =>
    case And(l, _) => FitsNeedsColumn(l, width);
    case Or(l, _) => FitsNeedsColumn(l, width);
  }

  /** The logical rows after a filter are exactly the logical rows before it on which the tree holds, in order. */
  lemma FilterBatchRows(f: FilterFunction, b: RecordBatch)
    requires Valid(b) && Fits(f, |b.columns|)
    ensures AllFit(f, Rows(b))
    ensures match FilterBatch(f, b)
            case None => FilterRows(f, Rows(b)) == []
            case Some(r) => Valid(r) && r.numRows > 0 && r.columns == b.columns && Rows(r) == FilterRows(f, Rows(b))
  {
    SelectedInRange(b);
    FitsNeedsColumn(f, |b.columns|);
    KeepIsFilter(f, b.columns, Selected(b));
    var sel := Matching(f, b);
    if sel != [] {
      MatchingInRange(f, b);
    }
  }

  lemma MatchingInRange(f: FilterFunction, b: RecordBatch)
    requires Valid(b) && Fits(f, |b.columns|)
    ensures forall i :: 0 <= i < |Matching(f, b)| ==> Matching(f, b)[i] < PhysicalSize(b)
    ensures b.columns != []
    ensures Valid(RecordBatch(|Matching(f, b)|, Some(Matching(f, b)), b.columns))
  {
    SelectedInRange(b);
    FitsNeedsColumn(f, |b.columns|);
    var sel := Matching(f, b);
    forall i | 0 <= i < |sel| ensures sel[i] < PhysicalSize(b) {
      assert sel[i] in sel;
    }
  }

  /** Two stacked filters leave exactly the rows of their conjunction. */
  lemma {:induction false} StackedFilters(f: FilterFunction, g: FilterFunction, rs: seq<Row>)
    requires AllFit(f, rs) && AllFit(g, rs)
    ensures AllFit(g, FilterRows(f, rs)) && AllFit(And(f, g), rs)
    ensures FilterRows(g, FilterRows(f, rs)) == FilterRows(And(f, g), rs)
  {
    if rs != [] {
      StackedFilters(f, g, rs[1..]);
      var rest := FilterRows(f, rs[1..]);
      if Holds(f, rs[0]) {
        assert FilterRows(f, rs) == [rs[0]] + rest && ([rs[0]] + rest)[1..] == rest;
      } else {
        assert FilterRows(f, rs) == [] + rest == rest;
      }
    }
  }
}
