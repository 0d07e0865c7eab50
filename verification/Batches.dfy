/**
 RecordBatch: columns of one physical size plus an optional selection vector of physical row indices.
 The logical rows of a batch are what every operator is specified on.
 */
module Batches {
  import opened Values
  import opened Wrappers

  datatype Column = Column(ty: ColumnType, data: seq<Value>)

  datatype RecordBatch = RecordBatch(numRows: nat, sel: Option<seq<nat>>, columns: seq<Column>)

  /** No rows and no columns at all: what an ORDER BY makes when no thread is left with a row. */
  const BARE: RecordBatch := RecordBatch(0, None, [])

  function PhysicalSize(b: RecordBatch): nat {
    if b.columns == [] then b.numRows else |b.columns[0].data|
  }

  ghost predicate StrictlyIncreasing(s: seq<nat>) {
    forall i, j :: 0 <= i < j < |s| ==> s[i] < s[j]
  }

  /** The columns all have `size` elements. */
  ghost predicate Aligned(columns: seq<Column>, size: nat) {
    forall c :: 0 <= c < |columns| ==> |columns[c].data| == size
  }

  /**
   The batch invariant: without a selection vector the physical size is `numRows`; with one it has `numRows`
   strictly increasing entries, each below the physical size when there is a column to index.
   */
  ghost predicate Valid(b: RecordBatch) {
    && Aligned(b.columns, PhysicalSize(b))
    && match b.sel
       case None => PhysicalSize(b) == b.numRows
       case Some(s) =>
         && |s| == b.numRows && StrictlyIncreasing(s)
         && (b.columns != [] ==> forall i :: 0 <= i < |s| ==> s[i] < PhysicalSize(b))
  }

  /** The physical size is known: it is lost when every column of a selected batch is dropped. */
  predicate Sized(b: RecordBatch) {
    b.columns != [] || b.sel.None?
  }

  /** The physical indices of the logical rows, in order. */
  function Selected(b: RecordBatch): (s: seq<nat>)
    ensures b.sel.None? ==> |s| == b.numRows
  {
    match b.sel
    case None => seq(b.numRows, (i: nat) => i)
    case Some(s) => s
  }

  function RowAt(columns: seq<Column>, p: nat): (r: Row)
    requires forall c :: 0 <= c < |columns| ==> p < |columns[c].data|
    ensures |r| == |columns| && forall c :: 0 <= c < |r| ==> r[c] == columns[c].data[p]
  {
    seq(|columns|, c requires 0 <= c < |columns| => columns[c].data[p])
  }

  /** Every listed physical index exists in every column. */
  ghost predicate InRange(columns: seq<Column>, s: seq<nat>) {
    forall i, c :: 0 <= i < |s| && 0 <= c < |columns| ==> s[i] < |columns[c].data|
  }

  ghost function RowsOf(columns: seq<Column>, s: seq<nat>): (rs: seq<Row>)
    requires InRange(columns, s)
    ensures |rs| == |s| && forall i :: 0 <= i < |rs| ==> rs[i] == RowAt(columns, s[i])
  {
    seq(|s|, i requires 0 <= i < |s| => RowAt(columns, s[i]))
  }

  lemma RowsOfConcat(columns: seq<Column>, s: seq<nat>, t: seq<nat>)
    requires InRange(columns, s) && InRange(columns, t)
    ensures InRange(columns, s + t)
    ensures RowsOf(columns, s + t) == RowsOf(columns, s) + RowsOf(columns, t)
  {
  }

  lemma SelectedInRange(b: RecordBatch)
    requires Valid(b)
    ensures |Selected(b)| == b.numRows && StrictlyIncreasing(Selected(b)) && InRange(b.columns, Selected(b))
    ensures Sized(b) ==> forall i :: 0 <= i < |Selected(b)| ==> Selected(b)[i] < PhysicalSize(b)
  {
  }

  /** The logical rows of a batch. */
  ghost function Rows(b: RecordBatch): (rs: seq<Row>)
    requires Valid(b)
    ensures |rs| == b.numRows
    ensures forall i :: 0 <= i < |rs| ==> |rs[i]| == |b.columns|
  {
    SelectedInRange(b);
    RowsOf(b.columns, Selected(b))
  }

  /** Logical row i is the i-th selected physical row, or physical row i if nothing was selected. */
  lemma RowCells(b: RecordBatch, i: nat, c: nat)
    requires Valid(b) && i < b.numRows && c < |b.columns|
    ensures var p := if b.sel.Some? then b.sel.value[i] else i;
            p < |b.columns[c].data| && Rows(b)[i][c] == b.columns[c].data[p]
  {
    SelectedInRange(b);
    assert Rows(b)[i] == RowAt(b.columns, Selected(b)[i]);
  }

  lemma AppendIncreasing(s: seq<nat>, p: nat)
    requires StrictlyIncreasing(s) && forall q :: q in s ==> q < p
    ensures StrictlyIncreasing(s + [p])
  {
    forall i, j | 0 <= i < j < |s + [p]| ensures (s + [p])[i] < (s + [p])[j] {
      assert (s + [p])[i] == s[i] && s[i] in s;
    }
  }

  lemma PrependIncreasing(p: nat, s: seq<nat>)
    requires StrictlyIncreasing(s) && forall q :: q in s ==> p < q
    ensures StrictlyIncreasing([p] + s)
  {
    forall i, j | 0 <= i < j < |[p] + s| ensures ([p] + s)[i] < ([p] + s)[j] {
      assert ([p] + s)[j] == s[j - 1] && s[j - 1] in s;
    }
  }

  /** Positions in a list seen from one element further to the front, which may itself be taken. */
  lemma ShiftPositions(later: seq<nat>, first: bool) returns (kept: seq<nat>)
    requires StrictlyIncreasing(later)
    ensures StrictlyIncreasing(kept) && |kept| == |later| + if first then 1 else 0
    ensures forall j: nat :: j in kept <==> if j == 0 then first else j - 1 in later
    ensures first ==> kept[0] == 0
    ensures forall i :: 0 <= i < |later| ==> kept[if first then i + 1 else i] == later[i] + 1
  {
    var shifted := OneFurther(later);
    kept := if first then [0] + shifted else shifted;
  }

  /** The same for what stands at those positions. */
  lemma KeptAhead<T>(s: seq<T>, rest: seq<T>, later: seq<nat>, first: bool) returns (kept: seq<nat>)
    requires s != [] && StrictlyIncreasing(later) && |later| == |rest|
    requires forall i :: 0 <= i < |later| ==> later[i] + 1 < |s| && rest[i] == s[later[i] + 1]
    ensures var out := (if first then [s[0]] else []) + rest;
            StrictlyIncreasing(kept) && |kept| == |out| && forall i :: 0 <= i < |kept| ==> kept[i] < |s| && out[i] == s[kept[i]]
    ensures forall j: nat :: j in kept <==> if j == 0 then first else j - 1 in later
  {
    kept := ShiftPositions(later, first);
    var out := (if first then [s[0]] else []) + rest;
    forall i | 0 <= i < |kept| ensures kept[i] < |s| && out[i] == s[kept[i]] {
      var k := if first then i - 1 else i;
      if k >= 0 {
        assert kept[i] == later[k] + 1 && out[i] == rest[k];
      }
    }
  }

  lemma OneFurther(later: seq<nat>) returns (shifted: seq<nat>)
    requires StrictlyIncreasing(later)
    ensures |shifted| == |later| && forall i :: 0 <= i < |later| ==> shifted[i] == later[i] + 1
    ensures StrictlyIncreasing(shifted) && forall j: nat :: j in shifted <==> j > 0 && j - 1 in later
  {
    shifted := seq(|later|, (i: nat) requires i < |later| => later[i] + 1);
    forall j: nat ensures j in shifted <==> j > 0 && j - 1 in later {
      if j > 0 && j - 1 in later {
        var i :| 0 <= i < |later| && later[i] == j - 1;
        assert shifted[i] == j;
      }
    }
  }

  ghost predicate AllValid(bs: seq<RecordBatch>) {
    forall i :: 0 <= i < |bs| ==> Valid(bs[i])
  }

  /** Concatenated logical rows of a list of batches. */
  ghost function AllRows(bs: seq<RecordBatch>): (rs: seq<Row>)
    requires AllValid(bs)
  {
    if bs == [] then [] else Rows(bs[0]) + AllRows(bs[1..])
  }

  lemma {:induction false} AllRowsConcat(xs: seq<RecordBatch>, ys: seq<RecordBatch>)
    requires AllValid(xs) && AllValid(ys)
    ensures AllValid(xs + ys)
    ensures AllRows(xs + ys) == AllRows(xs) + AllRows(ys)
  {
    if xs == [] {
      assert xs + ys == ys;
    } else {
      assert (xs + ys)[1..] == xs[1..] + ys;
      AllRowsConcat(xs[1..], ys);
      assert AllRows(xs + ys) == Rows(xs[0]) + AllRows(xs[1..] + ys);
    }
  }

  lemma AllRowsSnoc(bs: seq<RecordBatch>)
    requires bs != [] && AllValid(bs)
    ensures AllRows(bs) == AllRows(bs[..|bs| - 1]) + Rows(bs[|bs| - 1])
  {
    var front, last := bs[..|bs| - 1], bs[|bs| - 1];
    assert bs == front + [last];
    AllRowsConcat(front, [last]);
    AllRowsOne(last);
  }

  lemma AllRowsOne(b: RecordBatch)
    requires Valid(b)
    ensures AllValid([b]) && AllRows([b]) == Rows(b)
  {
    assert [b][1..] == [];
    assert AllRows([b]) == Rows(b) + AllRows([b][1..]);
  }

  lemma PrefixRows(bs: seq<RecordBatch>, i: nat)
    requires AllValid(bs) && i < |bs|
    ensures AllValid(bs[..i]) && AllValid(bs[..i + 1])
    ensures AllRows(bs[..i + 1]) == AllRows(bs[..i]) + Rows(bs[i])
    ensures |AllRows(bs[..i])| + bs[i].numRows <= |AllRows(bs)|
  {
    var front, rest := bs[..i + 1], bs[i + 1..];
    assert bs == front + rest;
    AllRowsConcat(front, rest);
    assert front[..i] == bs[..i] && front[i] == bs[i];
    AllRowsSnoc(front);
  }
}
