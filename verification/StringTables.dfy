/**
 VectorOfStrings and VectorOfStrings2D (src/utils/VectorOfStrings.h): strings kept as one run of bytes and the offsets
 at which they end.  The ghost fields hold the list, or the table, that the flat representation stands for.
 */
module StringTables {
  import opened Arithmetic
  import opened Values
  import Sequences

  type Text = seq<Byte>

  // ----- the flat representation -----

  /** `data` and `offsets` hold the finished strings `cells` one behind the other, then the unfinished string `open`. */
  ghost predicate Holds(data: seq<Byte>, offsets: seq<nat>, cells: seq<Text>, open: Text) {
    && |offsets| == |cells| + 1 && offsets[0] == 0
    && (forall i :: 0 <= i < |cells| ==> StringAt(data, offsets, i, cells[i]))
    && offsets[|cells|] <= |data| && data[offsets[|cells|]..] == open
  }

  ghost predicate StringAt(data: seq<Byte>, offsets: seq<nat>, i: nat, s: Text)
    requires i + 1 < |offsets|
  {
    offsets[i] <= offsets[i + 1] <= |data| && data[offsets[i]..offsets[i + 1]] == s
  }

  lemma {:induction false} OffsetsRise(data: seq<Byte>, offsets: seq<nat>, cells: seq<Text>, open: Text, i: nat, k: nat)
    requires Holds(data, offsets, cells, open) && i <= k < |offsets|
    ensures offsets[i] <= offsets[k]
    decreases k - i
  {
    if i < k {
      assert StringAt(data, offsets, i, cells[i]);
      OffsetsRise(data, offsets, cells, open, i + 1, k);
    }
  }

  /** Changing only the bytes behind the finished strings keeps them. */
  lemma Reopened(data: seq<Byte>, offsets: seq<nat>, cells: seq<Text>, open: Text, data': seq<Byte>)
    requires Holds(data, offsets, cells, open)
    requires offsets[|cells|] <= |data'| && data'[..offsets[|cells|]] == data[..offsets[|cells|]]
    ensures Holds(data', offsets, cells, data'[offsets[|cells|]..])
  {
    var n := offsets[|cells|];
    forall i | 0 <= i < |cells| ensures StringAt(data', offsets, i, cells[i]) {
      assert StringAt(data, offsets, i, cells[i]);
      OffsetsRise(data, offsets, cells, open, i + 1, |cells|);
      assert data'[offsets[i]..offsets[i + 1]] == data'[..n][offsets[i]..offsets[i + 1]];
      assert data[offsets[i]..offsets[i + 1]] == data[..n][offsets[i]..offsets[i + 1]];
    }
  }

  lemma Appended(data: seq<Byte>, offsets: seq<nat>, cells: seq<Text>, open: Text, more: seq<Byte>)
    requires Holds(data, offsets, cells, open)
    ensures Holds(data + more, offsets, cells, open + more)
  {
    var n := offsets[|cells|];
    assert (data + more)[..n] == data[..n] && (data + more)[n..] == open + more;
    Reopened(data, offsets, cells, open, data + more);
  }

  lemma LastDropped(data: seq<Byte>, offsets: seq<nat>, cells: seq<Text>, open: Text)
    requires Holds(data, offsets, cells, open) && open != []
    ensures Holds(data[..|data| - 1], offsets, cells, open[..|open| - 1]) && data[|data| - 1] == open[|open| - 1]
  {
    var n, d := offsets[|cells|], data[..|data| - 1];
    assert d[..n] == data[..n] && d[n..] == open[..|open| - 1];
    Reopened(data, offsets, cells, open, d);
  }

  lemma Closed(data: seq<Byte>, offsets: seq<nat>, cells: seq<Text>, open: Text)
    requires Holds(data, offsets, cells, open)
    ensures Holds(data, offsets + [|data|], cells + [open], [])
  {
    var o, c := offsets + [|data|], cells + [open];
    forall i | 0 <= i < |c| ensures StringAt(data, o, i, c[i]) {
      if i < |cells| {
        assert StringAt(data, offsets, i, cells[i]);
      } else {
        assert data[o[i]..o[i + 1]] == data[offsets[i]..];
      }
    }
  }

  // ----- lists -----

  class VectorOfStrings {
    var data: seq<Byte>
    var offsets: seq<nat>
    ghost var strings: seq<Text>

    ghost predicate Valid()
      reads this
    {
      Holds(data, offsets, strings, [])
    }

    constructor ()
      ensures Valid() && strings == []
    {
      data, offsets, strings := [], [0], [];
    }

    method PushBack(str: Text)
      requires Valid()
      modifies this
      ensures Valid() && strings == old(strings) + [str]
    {
      Appended(data, offsets, strings, [], str);
      assert [] + str == str;
      Closed(data + str, offsets, strings, str);
      data := data + str;
      offsets := offsets + [|data|];
      strings := strings + [str];
    }

    function Size(): (n: nat)
      requires Valid()
      reads this
      ensures n == |strings|
    {
      |offsets| - 1
    }

    method GetString(index: nat) returns (s: Text)
      requires Valid() && index < |strings|
      ensures s == strings[index]
    {
      assert StringAt(data, offsets, index, strings[index]);
      s := data[offsets[index]..offsets[index + 1]];
    }

    method Clear()
      modifies this
      ensures Valid() && strings == []
    {
      data, offsets, strings := [], [0], [];
    }
  }

  // ----- tables -----

  /** The strings of all rows in order. */
  function Cells(rows: seq<seq<Text>>, line: seq<Text>): seq<Text> {
    Sequences.Concat(rows) + line
  }

  lemma CellsOfNewLine(rows: seq<seq<Text>>, line: seq<Text>)
    ensures Cells(rows + [line], []) == Cells(rows, line)
  {
    Sequences.ConcatSnoc(rows, line);
    Sequences.Empties(Sequences.Concat(rows) + line);
  }

  /** Every row has w strings. */
  ghost predicate Rectangular(rows: seq<seq<Text>>, w: nat) {
    forall i :: 0 <= i < |rows| ==> |rows[i]| == w
  }

  lemma {:induction false} RectangularLength(rows: seq<seq<Text>>, w: nat)
    requires Rectangular(rows, w)
    ensures |Sequences.Concat(rows)| == |rows| * w
  {
    if rows != [] {
      var n := |rows| - 1;
      RectangularLength(rows[..n], w);
      assert n * w + w == (n + 1) * w;
    }
  }

  /** In a rectangular table, row i's string j is string i * w + j of all. */
  lemma {:induction false} CellAt(rows: seq<seq<Text>>, w: nat, i: nat, j: nat)
    requires Rectangular(rows, w) && i < |rows| && j < w
    ensures i * w + j < |Sequences.Concat(rows)| && Sequences.Concat(rows)[i * w + j] == rows[i][j]
    decreases |rows|
  {
    var n := |rows| - 1;
    RectangularLength(rows[..n], w);
    assert Sequences.Concat(rows) == Sequences.Concat(rows[..n]) + rows[n];
    if i < n {
      CellAt(rows[..n], w, i, j);
    }
  }

  class VectorOfStrings2D {
    var data: seq<Byte>
    var offsets: seq<nat>
    var lines: nat
    var columns: nat
    var columnsInLine: nat
    /** Finished rows, the finished strings of the current row, and the string being added. */
    ghost var rows: seq<seq<Text>>
    ghost var line: seq<Text>
    ghost var text: Text

    ghost predicate Valid()
      reads this
    {
      && Holds(data, offsets, Cells(rows, line), text)
      && lines == |rows| + 1 && columnsInLine == |line| && columns == if rows == [] then 0 else |rows[0]|
    }

    constructor ()
      ensures Valid() && rows == [] && line == [] && text == []
    {
      data, offsets, lines, columns, columnsInLine := [], [0], 1, 0, 0;
      rows, line, text := [], [], [];
    }

    method Clear()
      modifies this
      ensures Valid() && rows == [] && line == [] && text == []
    {
      data, offsets, lines, columns, columnsInLine := [], [0], 1, 0, 0;
      rows, line, text := [], [], [];
    }

    method ContinueAddString(c: Byte)
      requires Valid()
      modifies this
      ensures Valid() && text == old(text) + [c] && rows == old(rows) && line == old(line)
    {
      Appended(data, offsets, Cells(rows, line), text, [c]);
      data, text := data + [c], text + [c];
    }

    predicate EmptyLastString()
      requires Valid()
      reads this
      ensures EmptyLastString() <==> text == []
    {
      offsets[|offsets| - 1] == |data|
    }

    method BackLastString() returns (c: Byte)
      requires Valid() && text != []
      ensures c == text[|text| - 1]
    {
      LastDropped(data, offsets, Cells(rows, line), text);
      c := data[|data| - 1];
    }

    method PopLastChar()
      requires Valid() && text != []
      modifies this
      ensures Valid() && text == old(text[..|text| - 1]) && rows == old(rows) && line == old(line)
    {
      LastDropped(data, offsets, Cells(rows, line), text);
      data, text := data[..|data| - 1], text[..|text| - 1];
    }

    method EndAddString()
      requires Valid()
      modifies this
      ensures Valid() && line == old(line + [text]) && text == [] && rows == old(rows)
    {
      Closed(data, offsets, Cells(rows, line), text);
      Sequences.Regroup(Sequences.Concat(rows), line, [text]);
      offsets, columnsInLine := offsets + [|data|], columnsInLine + 1;
      line, text := line + [text], [];
    }

    method StartNewLine()
      requires Valid()
      modifies this
      ensures Valid() && rows == old(rows + [line]) && line == [] && text == old(text)
    {
      ghost var next := rows + [line];
      CellsOfNewLine(rows, line);
      assert next[0] == if rows == [] then line else rows[0];
      assert Holds(data, offsets, Cells(next, []), text);
      columns := if lines == 1 then columnsInLine else columns;
      lines, columnsInLine, rows, line := lines + 1, 0, next, [];
    }

    function Width(): (w: nat)
      requires Valid()
      reads this
      ensures w == if rows == [] then |line| else |rows[0]|
    {
      if lines == 1 then columnsInLine else columns
    }

    /** A row counts once it holds a string. */
    function Height(): (h: nat)
      requires Valid()
      reads this
      ensures h == if line == [] then |rows| else |rows| + 1
    {
      if columnsInLine == 0 then lines - 1 else lines
    }

    function ColumnsInCurrentLine(): (n: nat)
      requires Valid()
      reads this
      ensures n == |line|
    {
      columnsInLine
    }

    function ApproxByteSize(): nat
      reads this
    {
      |data| + 8 * |offsets|
    }

    method GetString(index: nat) returns (s: Text)
      requires Valid() && index < |Cells(rows, line)|
      ensures s == Cells(rows, line)[index]
    {
      assert StringAt(data, offsets, index, Cells(rows, line)[index]);
      s := data[offsets[index]..offsets[index + 1]];
    }

    /** The rows that Height counts. */
    ghost function Table(): (t: seq<seq<Text>>)
      requires Valid()
      reads this
      ensures |t| == Height()
    {
      if line == [] then rows else rows + [line]
    }

    /** Strings are found by the width of a row alone, so this needs rows of one width. */
    method GetString2D(i: nat, j: nat) returns (s: Text)
      requires Valid() && Rectangular(Table(), Width()) && i < Height() && j < Width()
      ensures s == Table()[i][j]
    {
      var rowWidth := if lines == 1 then columnsInLine else columns;
      CellAt(Table(), rowWidth, i, j);
      Sequences.ConcatSnoc(rows, line);
      ghost var cells := Cells(rows, line);
      assert cells == Sequences.Concat(Table());
      var at := i * rowWidth + j;
      assert StringAt(data, offsets, at, cells[at]);
      s := data[offsets[at]..offsets[at + 1]];
    }
  }
}
