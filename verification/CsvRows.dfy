/**
 CSV rows, read one character at a time from the whole text: the definition that the buffered tokenizer is proved
 against.  A quote inside quotes may be the first of a doubled one, so it has a mode of its own.
 */
module CsvRows {
  import opened Values
  import opened StringTables

  const QUOTE: Byte := 34
  const NEWLINE: Byte := 10
  const RETURN: Byte := 13

  predicate Blank(c: Byte) {
    c == 32 || c == 9 || c == RETURN
  }

  /** Without the blanks at the end. */
  function Trim(t: Text): Text {
    if t != [] && Blank(t[|t| - 1]) then Trim(t[..|t| - 1]) else t
  }

  datatype Mode = Between | Plain | Quoted | Closing

  /** The finished cells of the row, the cell being read, and how the next character is taken. */
  datatype Reading = Reading(cells: seq<Text>, text: Text, mode: Mode)

  const START := Reading([], [], Between)

  function Step(r: Reading, ch: Byte, delim: Byte): Reading {
    if r.mode == Quoted then
      if ch == QUOTE then r.(mode := Closing) else if ch == RETURN then r else r.(text := r.text + [ch])
    else if r.mode == Closing && ch == QUOTE then r.(text := r.text + [QUOTE], mode := Quoted)
    else if r.mode == Between && Blank(ch) then r
    else if ch == QUOTE then r.(mode := Quoted)
    else if ch == delim then Reading(r.cells + [Trim(r.text)], [], Between)
    else if ch == RETURN then r.(mode := Plain)
    else r.(text := r.text + [ch], mode := Plain)
  }

  /** A row, what follows it, and whether the text ran out before the row's end. */
  datatype RowRead = RowRead(cells: seq<Text>, rest: seq<Byte>, ranOut: bool)

  function ReadFrom(s: seq<Byte>, delim: Byte, r: Reading): (row: RowRead)
    ensures |row.rest| <= |s| && (row.ranOut ==> row.rest == []) && (!row.ranOut ==> row.cells != [] && |row.rest| < |s|)
  {
    if s == [] then RowRead(if r.mode == Between then r.cells else r.cells + [Trim(r.text)], [], true)
    else if r.mode != Quoted && s[0] == NEWLINE then RowRead(r.cells + [Trim(r.text)], s[1..], false)
    else ReadFrom(s[1..], delim, Step(r, s[0], delim))
  }

  function NextRow(s: seq<Byte>, delim: Byte): RowRead {
    ReadFrom(s, delim, START)
  }

  /** All rows of a text; a last row without a newline counts unless it is empty. */
  function TextRows(s: seq<Byte>, delim: Byte): seq<seq<Text>>
    decreases |s|
  {
    var r := NextRow(s, delim);
    if !r.ranOut then [r.cells] + TextRows(r.rest, delim)
    else if r.cells == [] then []
    else [r.cells]
  }

  /** With no second quote behind it, a closing quote leaves the cell in plain mode. */
  lemma ClosedQuote(s: seq<Byte>, delim: Byte, r: Reading)
    requires r.mode == Closing && (s == [] || s[0] != QUOTE)
    ensures ReadFrom(s, delim, r) == ReadFrom(s, delim, r.(mode := Plain))
  {
  }
}
