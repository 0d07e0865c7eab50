/**
 Column builders (src/execution/ExecutionHelper.h, CopySelection): appending chosen elements of one column to
 another, and what that does to the rows the columns hold together.  A builder is its column so far.
 */
module Builders {
  import opened Values
  import opened Wrappers
  import opened Batches
  import Sequences

  function Iota(n: nat): (s: seq<nat>)
    ensures |s| == n && forall i :: 0 <= i < n ==> s[i] == i
  {
    seq(n, (i: nat) => i)
  }

  /** The chosen physical indices: all of them when there is no selection. */
  function Chosen(sel: Option<seq<nat>>, size: nat): seq<nat> {
    match sel
    case None => Iota(size)
    case Some(s) => s
  }

  function Gather(data: seq<Value>, ix: seq<nat>): (r: seq<Value>)
    requires forall i :: 0 <= i < |ix| ==> ix[i] < |data|
    ensures |r| == |ix| && forall i :: 0 <= i < |r| ==> r[i] == data[ix[i]]
  {
    seq(|ix|, i requires 0 <= i < |ix| => data[ix[i]])
  }

  /** CopySelection: `AddValue` for every chosen element, in order. */
  method CopySelection(dest: Column, src: Column, sel: Option<seq<nat>>) returns (r: Column)
    requires forall i :: 0 <= i < |Chosen(sel, |src.data|)| ==> Chosen(sel, |src.data|)[i] < |src.data|
    ensures r == Column(dest.ty, dest.data + Gather(src.data, Chosen(sel, |src.data|)))
  {
    var data := dest.data;
    ghost var ix := Chosen(sel, |src.data|);
    if sel.None? {
      for i := 0 to |src.data|
        invariant data == dest.data + Gather(src.data, ix)[..i]
      {
        data := data + [src.data[i]];
      }
      assert Gather(src.data, ix)[..|src.data|] == Gather(src.data, ix);
    } else {
      var s := sel.value;
      for i := 0 to |s|
        invariant data == dest.data + Gather(src.data, ix)[..i]
      {
        data := data + [src.data[s[i]]];
      }
      assert Gather(src.data, ix)[..|s|] == Gather(src.data, ix);
    }
    r := Column(dest.ty, data);
  }

  function TypesOf(columns: seq<Column>): (r: seq<ColumnType>)
    ensures |r| == |columns|
  {
    seq(|columns|, c requires 0 <= c < |columns| => columns[c].ty)
  }

  lemma TypesOfConcat(xs: seq<Column>, ys: seq<Column>)
    ensures TypesOf(xs + ys) == TypesOf(xs) + TypesOf(ys)
  {
  }

  function EmptyBuilders(types: seq<ColumnType>): (r: seq<Column>)
    ensures |r| == |types| && Aligned(r, 0) && TypesOf(r) == types
  {
    seq(|types|, c requires 0 <= c < |types| => Column(types[c], []))
  }

  /** The builders after copying the chosen rows of `src` behind those of `dest`. */
  ghost function Stacked(dest: seq<Column>, src: seq<Column>, ix: seq<nat>): (r: seq<Column>)
    requires |dest| <= |src| && InRange(src, ix)
    ensures |r| == |dest|
  {
    seq(|dest|, c requires 0 <= c < |dest| => Column(dest[c].ty, dest[c].data + Gather(src[c].data, ix)))
  }

  /** One CopySelection per column. */
  method CopyColumns(dest: seq<Column>, src: seq<Column>, sel: Option<seq<nat>>, size: nat) returns (r: seq<Column>)
    requires |dest| <= |src| && Aligned(src, size) && InRange(src, Chosen(sel, size))
    ensures r == Stacked(dest, src, Chosen(sel, size))
  {
    r := [];
    ghost var goal := Stacked(dest, src, Chosen(sel, size));
    for c := 0 to |dest|
      invariant r == goal[..c]
    {
      var column := CopySelection(dest[c], src[c], sel);
      r := r + [column];
    }
  }

  // ----- rows -----

  /** The rows held by aligned columns. */
  ghost function HeldRows(columns: seq<Column>, n: nat): (rs: seq<Row>)
    requires Aligned(columns, n)
    ensures |rs| == n && forall i :: 0 <= i < n ==> rs[i] == RowAt(columns, i)
  {
    RowsOf(columns, Iota(n))
  }

  lemma StackedRows(dest: seq<Column>, n: nat, src: seq<Column>, ix: seq<nat>)
    requires Aligned(dest, n) && |dest| == |src| && InRange(src, ix)
    ensures Aligned(Stacked(dest, src, ix), n + |ix|)
    ensures HeldRows(Stacked(dest, src, ix), n + |ix|) == HeldRows(dest, n) + RowsOf(src, ix)
  {
    var r := Stacked(dest, src, ix);
    forall i | 0 <= i < n + |ix| ensures HeldRows(r, n + |ix|)[i] == (HeldRows(dest, n) + RowsOf(src, ix))[i] {
      if i < n {
        assert RowAt(r, i) == RowAt(dest, i);
      } else {
        assert RowAt(r, i) == RowAt(src, ix[i - n]);
      }
    }
  }

  /** Copying a batch through its selection vector appends its logical rows. */
  lemma BatchRowsStacked(dest: seq<Column>, n: nat, b: RecordBatch)
    requires Aligned(dest, n) && Valid(b) && |dest| == |b.columns|
    ensures InRange(b.columns, Chosen(b.sel, PhysicalSize(b))) && |Chosen(b.sel, PhysicalSize(b))| == b.numRows
    ensures var r := Stacked(dest, b.columns, Chosen(b.sel, PhysicalSize(b)));
            Aligned(r, n + b.numRows) && HeldRows(r, n + b.numRows) == HeldRows(dest, n) + Rows(b)
  {
    SelectedInRange(b);
    assert Chosen(b.sel, PhysicalSize(b)) == Selected(b);
    StackedRows(dest, n, b.columns, Selected(b));
  }

  lemma HeldIsBatch(columns: seq<Column>, n: nat)
    requires Aligned(columns, n)
    ensures Valid(RecordBatch(n, None, columns)) && Rows(RecordBatch(n, None, columns)) == HeldRows(columns, n)
  {
    assert Selected(RecordBatch(n, None, columns)) == Iota(n);
  }

  /** Equal bags of row numbers pick equal bags of rows. */
  lemma {:induction false} RowsOfBag(columns: seq<Column>, s: seq<nat>, t: seq<nat>)
    requires InRange(columns, s) && InRange(columns, t) && multiset(s) == multiset(t)
    ensures multiset(RowsOf(columns, s)) == multiset(RowsOf(columns, t))
    decreases |s|
  {
    if s == [] {
      Sequences.SameBagSameLength(s, t);
    } else {
      var n := |s| - 1;
      var j := Sequences.DropLastFromBoth(s, t);
      var rest := t[..j] + t[j + 1..];
      RowsOfBag(columns, s[..n], rest);
      assert RowsOf(columns, s) == RowsOf(columns, s[..n]) + [RowAt(columns, s[n])];
      Sequences.RemoveAt(RowsOf(columns, t), j);
      assert RowsOf(columns, rest) == RowsOf(columns, t)[..j] + RowsOf(columns, t)[j + 1..];
    }
  }
}
