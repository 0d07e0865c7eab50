/**
 Writing a table as CSV in the style of section 2 of RFC 4180, every field quoted and every row ended by a line feed,
 and reading it back with the tokenizer's rules (src/io/CsvTokenizer.cpp).
 */
module CsvRoundTrip {
  import opened Values
  import opened StringTables
  import opened CsvRows
  import Sequences

  // ----- printing -----

  function Doubled(field: Text): Text {
    if field == [] then []
    else (if field[0] == QUOTE then [QUOTE, QUOTE] else [field[0]]) + Doubled(field[1..])
  }

  function PrintField(field: Text): Text {
    [QUOTE] + (Doubled(field) + [QUOTE])
  }

  function PrintRow(row: seq<Text>, delim: Byte): Text {
    if row == [] then [NEWLINE]
    else if |row| == 1 then PrintField(row[0]) + [NEWLINE]
    else PrintField(row[0]) + ([delim] + PrintRow(row[1..], delim))
  }

  function PrintTable(rows: seq<seq<Text>>, delim: Byte): Text {
    if rows == [] then [] else PrintRow(rows[0], delim) + PrintTable(rows[1..], delim)
  }

  // ----- what a printed field reads back as -----

  function DropReturns(field: Text): Text {
    if field == [] then []
    else (if field[0] == RETURN then [] else [field[0]]) + DropReturns(field[1..])
  }

  function ReadBack(field: Text): Text {
    Trim(DropReturns(field))
  }

  function ReadBackFields(row: seq<Text>): (r: seq<Text>)
    ensures |r| == |row| && forall i :: 0 <= i < |r| ==> r[i] == ReadBack(row[i])
  {
    if row == [] then [] else [ReadBack(row[0])] + ReadBackFields(row[1..])
  }

  /** A row without fields prints as an empty line, which reads as one empty field. */
  function ReadBackRow(row: seq<Text>): seq<Text> {
    if row == [] then [[]] else ReadBackFields(row)
  }

  function ReadBackTable(rows: seq<seq<Text>>): (r: seq<seq<Text>>)
    ensures |r| == |rows| && forall i :: 0 <= i < |r| ==> r[i] == ReadBackRow(rows[i])
  {
    if rows == [] then [] else [ReadBackRow(rows[0])] + ReadBackTable(rows[1..])
  }

  predicate Separator(c: Byte) {
    c != QUOTE && c != NEWLINE
  }

  // ----- reading -----

  /** One character that does not end the row. */
  lemma OneCharacter(c: Byte, rest: seq<Byte>, delim: Byte, r: Reading)
    requires r.mode == Quoted || c != NEWLINE
    ensures ReadFrom([c] + rest, delim, r) == ReadFrom(rest, delim, Step(r, c, delim))
  {
    assert ([c] + rest)[1..] == rest;
  }

  lemma {:induction false} QuotedPart(field: Text, tail: seq<Byte>, delim: Byte, cells: seq<Text>, text: Text)
    ensures ReadFrom(Doubled(field) + ([QUOTE] + tail), delim, Reading(cells, text, Quoted))
         == ReadFrom(tail, delim, Reading(cells, text + DropReturns(field), Closing))
    decreases |field|
  {
    var end := [QUOTE] + tail;
    if field == [] {
      assert Doubled(field) + end == end && text + [] == text;
      OneCharacter(QUOTE, tail, delim, Reading(cells, text, Quoted));
    } else {
      var c, more := field[0], Doubled(field[1..]) + end;
      if c == QUOTE {
        assert Doubled(field) + end == [QUOTE] + ([QUOTE] + more);
        OneCharacter(QUOTE, [QUOTE] + more, delim, Reading(cells, text, Quoted));
        OneCharacter(QUOTE, more, delim, Reading(cells, text, Closing));
      } else {
        assert Doubled(field) + end == [c] + more;
        OneCharacter(c, more, delim, Reading(cells, text, Quoted));
      }
      var kept := if c == RETURN then [] else [c];
      assert text + [] == text;
      Sequences.Regroup(text, kept, DropReturns(field[1..]));
      QuotedPart(field[1..], tail, delim, cells, text + kept);
    }
  }

  lemma FieldReadsBack(field: Text, tail: seq<Byte>, delim: Byte, cells: seq<Text>)
    ensures ReadFrom(PrintField(field) + tail, delim, Reading(cells, [], Between))
         == ReadFrom(tail, delim, Reading(cells, DropReturns(field), Closing))
  {
    var inner := Doubled(field) + ([QUOTE] + tail);
    Sequences.Regroup([QUOTE], Doubled(field) + [QUOTE], tail);
    Sequences.Regroup(Doubled(field), [QUOTE], tail);
    OneCharacter(QUOTE, inner, delim, Reading(cells, [], Between));
    assert [] + DropReturns(field) == DropReturns(field);
    QuotedPart(field, tail, delim, cells, []);
  }

  lemma {:induction false} RowReadsBack(row: seq<Text>, tail: seq<Byte>, delim: Byte, cells: seq<Text>)
    requires Separator(delim) && row != []
    ensures ReadFrom(PrintRow(row, delim) + tail, delim, Reading(cells, [], Between))
         == RowRead(cells + ReadBackFields(row), tail, false)
    decreases |row|
  {
    var closing := Reading(cells, DropReturns(row[0]), Closing);
    if |row| == 1 {
      Sequences.Regroup(PrintField(row[0]), [NEWLINE], tail);
      FieldReadsBack(row[0], [NEWLINE] + tail, delim, cells);
      assert ([NEWLINE] + tail)[1..] == tail;
      assert ReadBackFields(row) == [ReadBack(row[0])];
    } else {
      var more := PrintRow(row[1..], delim) + tail;
      Sequences.Regroup(PrintField(row[0]), [delim] + PrintRow(row[1..], delim), tail);
      Sequences.Regroup([delim], PrintRow(row[1..], delim), tail);
      FieldReadsBack(row[0], [delim] + more, delim, cells);
      OneCharacter(delim, more, delim, closing);
      RowReadsBack(row[1..], tail, delim, cells + [ReadBack(row[0])]);
      Sequences.Regroup(cells, [ReadBack(row[0])], ReadBackFields(row[1..]));
    }
  }

  lemma LineReadsBack(row: seq<Text>, tail: seq<Byte>, delim: Byte)
    requires Separator(delim)
    ensures NextRow(PrintRow(row, delim) + tail, delim) == RowRead(ReadBackRow(row), tail, false)
  {
    if row == [] {
      assert ([NEWLINE] + tail)[1..] == tail && [] + [Trim([])] == [[]];
    } else {
      RowReadsBack(row, tail, delim, []);
      assert [] + ReadBackFields(row) == ReadBackFields(row);
    }
  }

  /** A printed table reads back row by row. */
  lemma {:induction false} TableReadsBack(rows: seq<seq<Text>>, delim: Byte)
    requires Separator(delim)
    ensures TextRows(PrintTable(rows, delim), delim) == ReadBackTable(rows)
  {
    if rows != [] {
      LineReadsBack(rows[0], PrintTable(rows[1..], delim), delim);
      TableReadsBack(rows[1..], delim);
    }
  }

  // ----- which fields survive -----

  predicate Survives(field: Text) {
    RETURN !in field && (field == [] || !Blank(field[|field| - 1]))
  }

  lemma {:induction false} DroppedReturns(field: Text)
    ensures |DropReturns(field)| <= |field|
    ensures DropReturns(field) == field <==> RETURN !in field
    ensures RETURN in field ==> |DropReturns(field)| < |field|
  {
    if field != [] {
      DroppedReturns(field[1..]);
      assert field == [field[0]] + field[1..];
      assert field[0] != RETURN ==> DropReturns(field)[1..] == DropReturns(field[1..]);
    }
  }

  lemma {:induction false} Trimmed(t: Text)
    ensures |Trim(t)| <= |t| && (|Trim(t)| == |t| <==> t == [] || !Blank(t[|t| - 1]))
  {
    if t != [] {
      Trimmed(t[..|t| - 1]);
    }
  }

  lemma FieldSurvives(field: Text)
    ensures ReadBack(field) == field <==> Survives(field)
  {
    DroppedReturns(field);
    Trimmed(DropReturns(field));
  }

  /** The row has a field, and no field has a CR or a blank end. */
  ghost predicate RowSurvives(row: seq<Text>) {
    row != [] && forall j :: 0 <= j < |row| ==> Survives(row[j])
  }

  lemma RowReadsBackAs(row: seq<Text>)
    ensures ReadBackRow(row) == row <==> RowSurvives(row)
  {
    forall j | 0 <= j < |row| ensures ReadBack(row[j]) == row[j] <==> Survives(row[j]) {
      FieldSurvives(row[j]);
    }
    if row != [] && ReadBackRow(row) == row {
      forall j | 0 <= j < |row| ensures Survives(row[j]) {
        assert ReadBackFields(row)[j] == row[j];
      }
    }
  }

  /** Reading back gives the printed table exactly when every row survives. */
  lemma TableRoundTrip(rows: seq<seq<Text>>, delim: Byte)
    requires Separator(delim)
    ensures TextRows(PrintTable(rows, delim), delim) == rows <==> forall i :: 0 <= i < |rows| ==> RowSurvives(rows[i])
  {
    TableReadsBack(rows, delim);
    forall i | 0 <= i < |rows| ensures ReadBackTable(rows)[i] == rows[i] <==> RowSurvives(rows[i]) {
      RowReadsBackAs(rows[i]);
    }
  }
}
