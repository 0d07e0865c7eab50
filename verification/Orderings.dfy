/**
 The ORDER BY comparator (src/execution/OperatorsBase.cpp, `cmp` in Finalize and TrimLocalBatch): column by
 column, descending where asked, equal rows incomparable.
 */
module Orderings {
  import opened Values
  import opened Rankings

  datatype SortKey = SortKey(col: nat, desc: bool)

  /** The element of a row; every sort column exists in practice, the default only keeps this total. */
  function Cell(row: Row, col: nat): Value {
    if col < |row| then row[col] else Int(0)
  }

  /** The first column on which the rows differ decides. */
  predicate Before(keys: seq<SortKey>, a: Row, b: Row) {
    if keys == [] then false
    else
      var x, y := Cell(a, keys[0].col), Cell(b, keys[0].col);
      if Less(x, y) then !keys[0].desc
      else if Less(y, x) then keys[0].desc
      else Before(keys[1..], a, b)
  }

  /** `a` and `b` agree on the columns of the first j keys, and `a` wins on key j. */
  ghost predicate WinsAt(keys: seq<SortKey>, a: Row, b: Row, j: nat)
    requires j < |keys|
  {
    && (forall i :: 0 <= i < j ==> Cell(a, keys[i].col) == Cell(b, keys[i].col))
    && var x, y := Cell(a, keys[j].col), Cell(b, keys[j].col);
       if keys[j].desc then Less(y, x) else Less(x, y)
  }

  /** What the loop over the sort columns decides, without the loop. */
  lemma {:induction false} BeforeIsLexicographic(keys: seq<SortKey>, a: Row, b: Row)
    ensures Before(keys, a, b) <==> exists j :: 0 <= j < |keys| && WinsAt(keys, a, b, j)
  {
    if keys != [] {
      var x, y, rest := Cell(a, keys[0].col), Cell(b, keys[0].col), keys[1..];
      LessIsStrictTotal(x, y, x);
      BeforeIsLexicographic(rest, a, b);
      if Before(keys, a, b) {
        if x == y {
          var j :| 0 <= j < |rest| && WinsAt(rest, a, b, j);
          forall i | 0 <= i < j + 1 ensures Cell(a, keys[i].col) == Cell(b, keys[i].col) {
            if i > 0 { assert keys[i] == rest[i - 1]; }
          }
          assert WinsAt(keys, a, b, j + 1);
        } else {
          assert WinsAt(keys, a, b, 0);
        }
      }
      if j :| 0 <= j < |keys| && WinsAt(keys, a, b, j) {
        if j > 0 {
          forall i | 0 <= i < j - 1 ensures Cell(a, rest[i].col) == Cell(b, rest[i].col) {
            assert rest[i] == keys[i + 1];
          }
          assert WinsAt(rest, a, b, j - 1);
        }
      }
    }
  }

  lemma {:induction false} BeforeAsymmetric(keys: seq<SortKey>, a: Row, b: Row)
    ensures Before(keys, a, b) ==> !Before(keys, b, a)
  {
    if keys != [] {
      LessIsStrictTotal(Cell(a, keys[0].col), Cell(b, keys[0].col), Cell(a, keys[0].col));
      BeforeAsymmetric(keys[1..], a, b);
    }
  }

  lemma {:induction false} BeforeNegativelyTransitive(keys: seq<SortKey>, a: Row, b: Row, c: Row)
    ensures Before(keys, a, b) ==> Before(keys, a, c) || Before(keys, c, b)
  {
    if keys != [] {
      var x, y, z := Cell(a, keys[0].col), Cell(b, keys[0].col), Cell(c, keys[0].col);
      LessIsStrictTotal(x, y, z);
      LessIsStrictTotal(y, z, x);
      LessIsStrictTotal(z, x, y);
      LessIsStrictTotal(x, z, y);
      BeforeNegativelyTransitive(keys[1..], a, b, c);
    }
  }

  ghost function RowOrder(keys: seq<SortKey>): Comparator<Row> {
    (a: Row, b: Row) => Before(keys, a, b)
  }

  /** The comparator meets the requirement of `std::sort`, `partial_sort` and `nth_element`. */
  lemma RowOrderIsWeak(keys: seq<SortKey>)
    ensures WeakOrder(RowOrder(keys))
  {
    forall a, b | Before(keys, a, b) ensures !Before(keys, b, a) {
      BeforeAsymmetric(keys, a, b);
    }
    forall a, b, c | Before(keys, a, b) ensures Before(keys, a, c) || Before(keys, c, b) {
      BeforeNegativelyTransitive(keys, a, b, c);
    }
  }

  // ----- the order of rows, told by the cells -----

  ghost predicate Agree(keys: seq<SortKey>, a: Row, b: Row, k: nat)
    requires k <= |keys|
  {
    forall i :: 0 <= i < k ==> Cell(a, keys[i].col) == Cell(b, keys[i].col)
  }

  /** On every key up to which the rows agree, the cell of `a` may stand before that of `b`. */
  ghost predicate RowsInOrder(keys: seq<SortKey>, a: Row, b: Row) {
    forall k: nat {:trigger Agree(keys, a, b, k)} :: k < |keys| && Agree(keys, a, b, k) ==>
      InOrder(Cell(a, keys[k].col), Cell(b, keys[k].col), keys[k].desc)
  }

  /** `b` does not precede `a` exactly if the first cells in which they differ are in the order asked for. */
  lemma NotBeforeExactly(keys: seq<SortKey>, a: Row, b: Row)
    ensures !Before(keys, b, a) <==> RowsInOrder(keys, a, b)
  {
    BeforeIsLexicographic(keys, b, a);
    forall k: nat | k < |keys|
      ensures WinsAt(keys, b, a, k) <==>
              Agree(keys, a, b, k) && !InOrder(Cell(a, keys[k].col), Cell(b, keys[k].col), keys[k].desc)
    {
      InOrderExactly(Cell(a, keys[k].col), Cell(b, keys[k].col), keys[k].desc);
    }
  }

  ghost predicate InKeyOrder(keys: seq<SortKey>, rows: seq<Row>) {
    forall i, j :: 0 <= i < j < |rows| ==> RowsInOrder(keys, rows[i], rows[j])
  }

  /** What a sort makes of its rows is what the keys ask for. */
  lemma SortedExactly(keys: seq<SortKey>, rows: seq<Row>)
    ensures Sorted(RowOrder(keys), rows) <==> InKeyOrder(keys, rows)
  {
    forall i, j | 0 <= i < j < |rows| ensures !Before(keys, rows[j], rows[i]) <==> RowsInOrder(keys, rows[i], rows[j]) {
      NotBeforeExactly(keys, rows[i], rows[j]);
    }
    if Sorted(RowOrder(keys), rows) {
      assert forall i, j :: 0 <= i < j < |rows| ==> !Before(keys, rows[j], rows[i]);
    }
  }

  /** A first key on numbers: they ascend, or descend, from the first row to the last. */
  lemma NumbersInOrder(keys: seq<SortKey>, rows: seq<Row>, i: nat, j: nat)
    requires keys != [] && InKeyOrder(keys, rows) && i < j < |rows|
    requires keys[0].col < |rows[i]| && keys[0].col < |rows[j]| && rows[i][keys[0].col].Int? && rows[j][keys[0].col].Int?
    ensures if keys[0].desc then rows[i][keys[0].col].i >= rows[j][keys[0].col].i
                            else rows[i][keys[0].col].i <= rows[j][keys[0].col].i
  {
    assert Agree(keys, rows[i], rows[j], 0);
  }

  /** A first key on strings: the first differing byte decides, and a proper prefix comes first. */
  lemma StringsInOrder(keys: seq<SortKey>, rows: seq<Row>, i: nat, j: nat)
    requires keys != [] && InKeyOrder(keys, rows) && i < j < |rows| && !keys[0].desc
    requires keys[0].col < |rows[i]| && keys[0].col < |rows[j]| && rows[i][keys[0].col].Str? && rows[j][keys[0].col].Str?
    ensures var x, y := rows[i][keys[0].col].s, rows[j][keys[0].col].s;
            x == y || exists k: nat :: k <= |x| && k < |y| && x[..k] == y[..k] && (k == |x| || x[k] < y[k])
  {
    assert Agree(keys, rows[i], rows[j], 0);
  }

  /** Rows with the same number in the first key are in the order of the second. */
  lemma TiesInOrder(keys: seq<SortKey>, rows: seq<Row>, i: nat, j: nat)
    requires |keys| >= 2 && InKeyOrder(keys, rows) && i < j < |rows|
    requires keys[0].col < |rows[i]| && keys[0].col < |rows[j]| && rows[i][keys[0].col] == rows[j][keys[0].col]
    requires keys[1].col < |rows[i]| && keys[1].col < |rows[j]| && rows[i][keys[1].col].Int? && rows[j][keys[1].col].Int?
    ensures if keys[1].desc then rows[i][keys[1].col].i >= rows[j][keys[1].col].i
                            else rows[i][keys[1].col].i <= rows[j][keys[1].col].i
  {
    assert Agree(keys, rows[i], rows[j], 1);
  }
}
