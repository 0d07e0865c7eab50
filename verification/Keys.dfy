/**
 HashKeys (src/execution/ExecutionHelper.h): the composite GROUP BY key of a row is the concatenation of one code
 per column.  Equal keys mean equal rows because each code can be read back without looking past its end.
 */
module Keys {
  import opened Values
  import opened Wrappers
  import opened Batches
  import opened Builders
  import Bytes
  import Sequences

  type Key = seq<Byte>

  /** One column's code: 8-byte length and the bytes for strings, the raw bytes of the element otherwise. */
  function CellCode(v: Value, ty: ColumnType): Key {
    match v
    case Str(s) => Bytes.Encode(|s|, 8) + s
    case Int(i) => Bytes.EncodeSigned(i, Width(ty))
  }

  function Codes(values: seq<Value>, types: seq<ColumnType>): (r: seq<Key>)
    requires |values| == |types|
    ensures |r| == |values| && forall j :: 0 <= j < |r| ==> r[j] == CellCode(values[j], types[j])
  {
    seq(|values|, j requires 0 <= j < |values| => CellCode(values[j], types[j]))
  }

  /** All columns' codes, in group-by order. */
  function KeyOf(values: seq<Value>, types: seq<ColumnType>): Key
    requires |values| == |types|
  {
    Sequences.Concat(Codes(values, types))
  }

  ghost predicate Typed(values: seq<Value>, types: seq<ColumnType>) {
    |values| == |types| && forall j :: 0 <= j < |values| ==> HasType(values[j], types[j])
  }

  /** A code followed by anything determines its value and what follows. */
  lemma CellCodePrefixFree(x: Value, y: Value, ty: ColumnType, rest: Key, rest': Key)
    requires HasType(x, ty) && HasType(y, ty)
    requires CellCode(x, ty) + rest == CellCode(y, ty) + rest'
    ensures x == y && rest == rest'
  {
    if ty == STRING {
      var a, b := Bytes.Encode(|x.s|, 8), Bytes.Encode(|y.s|, 8);
      assert a == (a + x.s + rest)[..8] && b == (b + y.s + rest')[..8];
      Bytes.Widths();
      Bytes.DecodeEncode(|x.s|, 8);
      Bytes.DecodeEncode(|y.s|, 8);
      var n := |x.s|;
      assert x.s == (a + x.s + rest)[8..8 + n] && y.s == (b + y.s + rest')[8..8 + n];
      assert rest == (a + x.s + rest)[8 + n..] && rest' == (b + y.s + rest')[8 + n..];
    } else {
      var a, b, w := CellCode(x, ty), CellCode(y, ty), Width(ty);
      assert a == (a + rest)[..w] && b == (b + rest')[..w];
      assert rest == (a + rest)[w..] && rest' == (b + rest')[w..];
      Bytes.TypedRange(x.i, ty);
      Bytes.TypedRange(y.i, ty);
      Bytes.SignedRoundTrip(x.i, w);
      Bytes.SignedRoundTrip(y.i, w);
    }
  }

  lemma KeyFront(a: seq<Value>, types: seq<ColumnType>)
    requires |a| == |types| > 0
    ensures KeyOf(a, types) == CellCode(a[0], types[0]) + KeyOf(a[1..], types[1..])
  {
    Sequences.ConcatFront(Codes(a, types));
    assert Codes(a, types)[1..] == Codes(a[1..], types[1..]);
  }

  lemma {:induction false} KeyPrefixFree(a: seq<Value>, b: seq<Value>, types: seq<ColumnType>)
    requires Typed(a, types) && Typed(b, types) && KeyOf(a, types) == KeyOf(b, types)
    ensures a == b
    decreases |a|
  {
    if a != [] {
      KeyFront(a, types);
      KeyFront(b, types);
      CellCodePrefixFree(a[0], b[0], types[0], KeyOf(a[1..], types[1..]), KeyOf(b[1..], types[1..]));
      KeyPrefixFree(a[1..], b[1..], types[1..]);
      assert a == [a[0]] + a[1..] && b == [b[0]] + b[1..];
    }
  }

  /** Composite keys are equal exactly when the rows agree on every group-by column. */
  lemma KeysDecideEquality(a: seq<Value>, b: seq<Value>, types: seq<ColumnType>)
    requires Typed(a, types) && Typed(b, types)
    ensures KeyOf(a, types) == KeyOf(b, types) <==> a == b
  {
    if KeyOf(a, types) == KeyOf(b, types) {
      KeyPrefixFree(a, b, types);
    }
  }

  // ----- building the keys of a batch -----

  /** HashKeys: appends the column's code to the key of every chosen row, in place. */
  method HashKeys(column: Column, keys: array<Key>, sel: Option<seq<nat>>)
    requires |Chosen(sel, |column.data|)| == keys.Length
    requires forall i :: 0 <= i < keys.Length ==> Chosen(sel, |column.data|)[i] < |column.data|
    modifies keys
    ensures forall i :: 0 <= i < keys.Length ==>
              keys[i] == old(keys[i]) + CellCode(column.data[Chosen(sel, |column.data|)[i]], column.ty)
  {
    for i := 0 to keys.Length
      invariant forall j :: 0 <= j < i ==>
                  keys[j] == old(keys[j]) + CellCode(column.data[Chosen(sel, |column.data|)[j]], column.ty)
      invariant forall j :: i <= j < keys.Length ==> keys[j] == old(keys[j])
    {
      var idx := if sel.Some? then sel.value[i] else i;
      keys[i] := keys[i] + CellCode(column.data[idx], column.ty);
    }
  }

  function Project(row: Row, cols: seq<nat>): (r: seq<Value>)
    requires forall j :: 0 <= j < |cols| ==> cols[j] < |row|
    ensures |r| == |cols|
  {
    seq(|cols|, j requires 0 <= j < |cols| => row[cols[j]])
  }

  function ColumnTypes(columns: seq<Column>, cols: seq<nat>): (r: seq<ColumnType>)
    requires forall j :: 0 <= j < |cols| ==> cols[j] < |columns|
    ensures |r| == |cols|
  {
    seq(|cols|, j requires 0 <= j < |cols| => columns[cols[j]].ty)
  }

  /** The codes of every logical row of a batch. */
  ghost function RowCodes(b: RecordBatch, cols: seq<nat>): (r: seq<seq<Key>>)
    requires Valid(b) && forall j :: 0 <= j < |cols| ==> cols[j] < |b.columns|
    ensures |r| == b.numRows
    ensures forall i :: 0 <= i < |r| ==> r[i] == Codes(Project(Rows(b)[i], cols), ColumnTypes(b.columns, cols))
  {
    seq(b.numRows, i requires 0 <= i < b.numRows => Codes(Project(Rows(b)[i], cols), ColumnTypes(b.columns, cols)))
  }

  lemma ColumnCodes(b: RecordBatch, cols: seq<nat>, k: nat)
    requires Valid(b) && (forall j :: 0 <= j < |cols| ==> cols[j] < |b.columns|) && k < |cols|
    ensures var data, ix := b.columns[cols[k]].data, Chosen(b.sel, |b.columns[cols[k]].data|);
            && |ix| == b.numRows
            && forall i :: 0 <= i < b.numRows ==>
                 ix[i] < |data| && |RowCodes(b, cols)[i]| == |cols|
                 && RowCodes(b, cols)[i][k] == CellCode(data[ix[i]], b.columns[cols[k]].ty)
  {
    SelectedInRange(b);
    var column := b.columns[cols[k]];
    assert Chosen(b.sel, |column.data|) == Selected(b);
    forall i | 0 <= i < b.numRows
      ensures RowCodes(b, cols)[i][k] == CellCode(column.data[Selected(b)[i]], column.ty)
    {
      assert Rows(b)[i] == RowAt(b.columns, Selected(b)[i]);
      assert Project(Rows(b)[i], cols)[k] == Rows(b)[i][cols[k]];
    }
  }

  method HashColumn(column: Column, keys: array<Key>, sel: Option<seq<nat>>, ghost codes: seq<seq<Key>>, ghost k: nat)
    requires |Chosen(sel, |column.data|)| == keys.Length == |codes|
    requires forall i :: 0 <= i < keys.Length ==> Chosen(sel, |column.data|)[i] < |column.data|
    requires forall i :: 0 <= i < keys.Length ==> |codes[i]| > k && keys[i] == Sequences.Concat(codes[i][..k])
    requires forall i :: 0 <= i < keys.Length ==>
               codes[i][k] == CellCode(column.data[Chosen(sel, |column.data|)[i]], column.ty)
    modifies keys
    ensures forall i :: 0 <= i < keys.Length ==> keys[i] == Sequences.Concat(codes[i][..k + 1])
  {
    HashKeys(column, keys, sel);
    forall i | 0 <= i < keys.Length ensures keys[i] == Sequences.Concat(codes[i][..k + 1]) {
      assert codes[i][..k + 1] == codes[i][..k] + [codes[i][k]];
      Sequences.ConcatSnoc(codes[i][..k], codes[i][k]);
    }
  }

  /** The key of every logical row of a batch. */
  method CompositeKeys(b: RecordBatch, cols: seq<nat>) returns (keys: array<Key>)
    requires Valid(b) && forall j :: 0 <= j < |cols| ==> cols[j] < |b.columns|
    ensures fresh(keys) && keys.Length == b.numRows
    ensures forall i :: 0 <= i < b.numRows ==> keys[i] == KeyOf(Project(Rows(b)[i], cols), ColumnTypes(b.columns, cols))
  {
    keys := new Key[b.numRows](_ => []);
    ghost var codes := RowCodes(b, cols);
    for k := 0 to |cols|
      invariant forall i :: 0 <= i < b.numRows ==> |codes[i]| == |cols| && keys[i] == Sequences.Concat(codes[i][..k])
    {
      ColumnCodes(b, cols, k);
      HashColumn(b.columns[cols[k]], keys, b.sel, codes, k);
    }
    assert forall i :: 0 <= i < b.numRows ==> codes[i][..|cols|] == codes[i];
  }
}
