/**
 CSV as it is written by hand or by other programs: fields in quotes or plain, empty ones, blanks around them, and a
 last line that may lack its line feed (src/io/CsvTokenizer.cpp).  Characters are given by their codes here: 34 is the
 quote, 10 the line feed, 13 the carriage return, 32 and 9 are blank and tab.
 */
module CsvSyntax {
  import opened Values
  import opened StringTables
  import opened CsvRows
  import opened CsvRoundTrip
  import opened CsvTokenizers
  import Sequences

  /** Part of a field that is partly in quotes. */
  datatype Piece = Raw(text: Text) | Quote(text: Text)

  /** A field with the blanks around it. */
  datatype Written =
    | Empty(before: Text)
    | AsIs(before: Text, text: Text, after: Text)
    | InQuotes(before: Text, text: Text, after: Text)
    | Mixed(before: Text, pieces: seq<Piece>)

  predicate BlankCode(c: Byte) {
    c == 32 || c == 9 || c == 13
  }

  predicate Blanks(t: Text, delim: Byte) {
    forall i :: 0 <= i < |t| ==> BlankCode(t[i]) && t[i] != delim
  }

  /** Text that needs no quotes: no quote, delimiter or line feed in it, and no blank at either end. */
  predicate Unquoted(t: Text, delim: Byte) {
    && t != [] && !BlankCode(t[0]) && !BlankCode(t[|t| - 1])
    && forall i :: 0 <= i < |t| ==> t[i] != 34 && t[i] != delim && t[i] != 10
  }

  /** No quote, delimiter or line feed. */
  predicate Ordinary(t: Text, delim: Byte) {
    forall i :: 0 <= i < |t| ==> t[i] != 34 && t[i] != delim && t[i] != 10
  }

  /** Quotes with nothing between them would read as a doubled quote. */
  predicate PiecesOk(pieces: seq<Piece>, delim: Byte) {
    && (forall i :: 0 <= i < |pieces| && pieces[i].Raw? ==> pieces[i].text != [] && Ordinary(pieces[i].text, delim))
    && forall i :: 0 < i < |pieces| && pieces[i - 1].Quote? ==> pieces[i].Raw?
  }

  /** An empty field needs a delimiter that is not itself a blank. */
  predicate Writable(w: Written, delim: Byte) {
    match w
    case Empty(b) => Blanks(b, delim) && !BlankCode(delim)
    case AsIs(b, t, a) => Blanks(b, delim) && Unquoted(t, delim) && Blanks(a, delim)
    case InQuotes(b, t, a) => Blanks(b, delim) && Blanks(a, delim)
    case Mixed(b, pieces) =>
      Blanks(b, delim) && pieces != [] && PiecesOk(pieces, delim) && (pieces[0].Raw? ==> !BlankCode(pieces[0].text[0]))
  }

  predicate AllWritable(row: seq<Written>, delim: Byte) {
    forall i :: 0 <= i < |row| ==> Writable(row[i], delim)
  }

  function ShowPieces(pieces: seq<Piece>): Text {
    if pieces == [] then []
    else if pieces[0].Raw? then pieces[0].text + ShowPieces(pieces[1..])
    else [34] + (Doubled(pieces[0].text) + ([34] + ShowPieces(pieces[1..])))
  }

  /** Quotes inside quotes are doubled. */
  function Show(w: Written): Text {
    match w
    case Empty(b) => b
    case AsIs(b, t, a) => b + (t + a)
    case InQuotes(b, t, a) => b + ([34] + (Doubled(t) + ([34] + a)))
    case Mixed(b, pieces) => b + ShowPieces(pieces)
  }

  function ShowRow(row: seq<Written>, delim: Byte): Text {
    if row == [] then []
    else if |row| == 1 then Show(row[0])
    else Show(row[0]) + ([delim] + ShowRow(row[1..], delim))
  }

  function PiecesText(pieces: seq<Piece>): Text {
    if pieces == [] then [] else DropReturns(pieces[0].text) + PiecesText(pieces[1..])
  }

  /** Carriage returns are dropped, and what ends in blanks inside quotes loses them. */
  function ValueOf(w: Written): Text {
    match w
    case Empty(_) => []
    case AsIs(_, t, _) => DropReturns(t)
    case InQuotes(_, t, _) => ReadBack(t)
    case Mixed(_, pieces) => Trim(PiecesText(pieces))
  }

  function ValuesOf(row: seq<Written>): (r: seq<Text>)
    ensures |r| == |row| && forall i :: 0 <= i < |r| ==> r[i] == ValueOf(row[i])
  {
    if row == [] then [] else [ValueOf(row[0])] + ValuesOf(row[1..])
  }

  /** A text without carriage returns and blank ends is read as it stands, plain or in quotes. */
  lemma ReadAsWritten(w: Written)
    requires !w.Mixed?
    requires w.Empty? || (13 !in w.text && (w.InQuotes? && w.text != [] ==> !BlankCode(w.text[|w.text| - 1])))
    ensures ValueOf(w) == if w.Empty? then [] else w.text
  {
    if !w.Empty? {
      DroppedReturns(w.text);
      Trimmed(w.text);
    }
  }

  // ----- reading blanks and plain text -----

  lemma {:induction false} SkipsBlanks(b: Text, tail: seq<Byte>, delim: Byte, cells: seq<Text>)
    requires Blanks(b, delim)
    ensures ReadFrom(b + tail, delim, Reading(cells, [], Between)) == ReadFrom(tail, delim, Reading(cells, [], Between))
    decreases |b|
  {
    if b == [] {
      assert b + tail == tail;
    } else {
      assert b + tail == [b[0]] + (b[1..] + tail);
      OneCharacter(b[0], b[1..] + tail, delim, Reading(cells, [], Between));
      SkipsBlanks(b[1..], tail, delim, cells);
    }
  }

  lemma {:induction false} TakesPlain(t: Text, tail: seq<Byte>, delim: Byte, cells: seq<Text>, text: Text)
    requires Ordinary(t, delim)
    ensures ReadFrom(t + tail, delim, Reading(cells, text, Mode.Plain))
         == ReadFrom(tail, delim, Reading(cells, text + DropReturns(t), Mode.Plain))
    decreases |t|
  {
    if t == [] {
      assert t + tail == tail && text + [] == text;
    } else {
      var kept := if t[0] == 13 then [] else [t[0]];
      assert t + tail == [t[0]] + (t[1..] + tail);
      OneCharacter(t[0], t[1..] + tail, delim, Reading(cells, text, Mode.Plain));
      assert text + [] == text;
      TakesPlain(t[1..], tail, delim, cells, text + kept);
      Sequences.Regroup(text, kept, DropReturns(t[1..]));
    }
  }

  lemma BlanksAreOrdinary(b: Text, delim: Byte)
    requires Blanks(b, delim)
    ensures Ordinary(b, delim)
  {
  }

  /** A plain field, from the first of its characters on. */
  lemma TakesUnquoted(t: Text, after: Text, tail: seq<Byte>, delim: Byte, cells: seq<Text>)
    requires Unquoted(t, delim) && Blanks(after, delim)
    ensures ReadFrom(t + (after + tail), delim, Reading(cells, [], Between))
         == ReadFrom(tail, delim, Reading(cells, DropReturns(t) + DropReturns(after), Mode.Plain))
  {
    var more := after + tail;
    assert t + more == [t[0]] + (t[1..] + more);
    OneCharacter(t[0], t[1..] + more, delim, Reading(cells, [], Between));
    assert [] + [t[0]] == [t[0]];
    TakesPlain(t[1..], more, delim, cells, [t[0]]);
    BlanksAreOrdinary(after, delim);
    TakesPlain(after, tail, delim, cells, [t[0]] + DropReturns(t[1..]));
  }

  /** A field in quotes and the blanks behind it; what follows starts with no quote. */
  lemma TakesQuoted(t: Text, after: Text, tail: seq<Byte>, delim: Byte, cells: seq<Text>)
    requires Blanks(after, delim) && (tail == [] || tail[0] != 34)
    ensures ReadFrom([34] + (Doubled(t) + ([34] + (after + tail))), delim, Reading(cells, [], Between))
         == ReadFrom(tail, delim, Reading(cells, DropReturns(t) + DropReturns(after), Mode.Plain))
  {
    var more := after + tail;
    OneCharacter(34, Doubled(t) + ([34] + more), delim, Reading(cells, [], Between));
    QuotedPart(t, more, delim, cells, []);
    assert [] + DropReturns(t) == DropReturns(t);
    if after == [] { assert more == tail; } else { assert more[0] == after[0]; }
    ClosedQuote(more, delim, Reading(cells, DropReturns(t), Closing));
    BlanksAreOrdinary(after, delim);
    TakesPlain(after, tail, delim, cells, DropReturns(t));
  }

  // ----- fields partly in quotes -----

  /** What is no blank starts a field as it would go on with one. */
  lemma StartsField(s: seq<Byte>, delim: Byte, cells: seq<Text>)
    requires s != [] && !BlankCode(s[0])
    ensures ReadFrom(s, delim, Reading(cells, [], Between)) == ReadFrom(s, delim, Reading(cells, [], Mode.Plain))
  {
    assert s == [s[0]] + s[1..];
    if s[0] != 10 {
      OneCharacter(s[0], s[1..], delim, Reading(cells, [], Between));
      OneCharacter(s[0], s[1..], delim, Reading(cells, [], Mode.Plain));
    }
  }

  /** A quoted piece behind text that is already there. */
  lemma TakesQuote(t: Text, tail: seq<Byte>, delim: Byte, cells: seq<Text>, text: Text)
    requires tail == [] || tail[0] != 34
    ensures ReadFrom([34] + (Doubled(t) + ([34] + tail)), delim, Reading(cells, text, Mode.Plain))
         == ReadFrom(tail, delim, Reading(cells, text + DropReturns(t), Mode.Plain))
  {
    OneCharacter(34, Doubled(t) + ([34] + tail), delim, Reading(cells, text, Mode.Plain));
    QuotedPart(t, tail, delim, cells, text);
    ClosedQuote(tail, delim, Reading(cells, text + DropReturns(t), Closing));
  }

  lemma PiecesBehind(pieces: seq<Piece>, tail: seq<Byte>, delim: Byte)
    requires PiecesOk(pieces, delim) && pieces != [] && pieces[0].Quote? && (tail == [] || tail[0] != 34)
    ensures PiecesOk(pieces[1..], delim) && (ShowPieces(pieces[1..]) + tail == [] || (ShowPieces(pieces[1..]) + tail)[0] != 34)
  {
    if |pieces| > 1 {
      assert pieces[1..][0].Raw?;
    }
  }

  lemma PiecesRest(pieces: seq<Piece>, delim: Byte)
    requires PiecesOk(pieces, delim) && pieces != []
    ensures PiecesOk(pieces[1..], delim)
  {
  }

  lemma {:induction false} TakesPieces(pieces: seq<Piece>, tail: seq<Byte>, delim: Byte, cells: seq<Text>, text: Text)
    requires PiecesOk(pieces, delim) && (tail == [] || tail[0] != 34)
    ensures ReadFrom(ShowPieces(pieces) + tail, delim, Reading(cells, text, Mode.Plain))
         == ReadFrom(tail, delim, Reading(cells, text + PiecesText(pieces), Mode.Plain))
    decreases |pieces|
  {
    if pieces == [] {
      assert ShowPieces(pieces) + tail == tail && text + [] == text;
    } else {
      var t, rest := pieces[0].text, ShowPieces(pieces[1..]);
      PiecesRest(pieces, delim);
      if pieces[0].Raw? {
        Sequences.Regroup(t, rest, tail);
        TakesPlain(t, rest + tail, delim, cells, text);
      } else {
        PiecesBehind(pieces, tail, delim);
        QuoteFirst(Doubled(t), rest, tail);
        TakesQuote(t, rest + tail, delim, cells, text);
      }
      TakesPieces(pieces[1..], tail, delim, cells, text + DropReturns(t));
      Sequences.Regroup(text, DropReturns(t), PiecesText(pieces[1..]));
    }
  }

  lemma QuoteFirst(b: Text, c: Text, d: Text)
    ensures [34] + (b + ([34] + c)) + d == [34] + (b + ([34] + (c + d)))
  {
  }

  /** a and a comma in quotes behind it: one field. */
  lemma PartlyQuoted()
    ensures Show(Mixed([], [Raw([97]), Quote([44])])) == [97, 34, 44, 34]
    ensures ValueOf(Mixed([], [Raw([97]), Quote([44])])) == [97, 44]
  {
    var pieces, last := [Raw([97]), Quote([44])], [Quote([44])];
    assert pieces[1..] == last && last[1..] == [];
    assert Doubled([44]) == [44] && DropReturns([44]) == [44] && DropReturns([97]) == [97];
    assert ShowPieces(last) == [34, 44, 34];
    assert ShowPieces(pieces) == [97] + [34, 44, 34];
    assert PiecesText(last) == [44] + [];
    assert PiecesText(pieces) == [97, 44];
  }

  // ----- what is kept of a field -----

  lemma {:induction false} TrimsBlanks(t: Text, b: Text)
    requires forall i :: 0 <= i < |b| ==> BlankCode(b[i])
    ensures Trim(t + b) == Trim(t)
    decreases |b|
  {
    if b == [] {
      assert t + b == t;
    } else {
      assert (t + b)[..|t + b| - 1] == t + b[..|b| - 1];
      TrimsBlanks(t, b[..|b| - 1]);
    }
  }

  lemma {:induction false} DroppedAreKept(t: Text)
    ensures forall i :: 0 <= i < |DropReturns(t)| ==> DropReturns(t)[i] in t
    ensures t != [] && t[|t| - 1] != 13 ==> DropReturns(t) != [] && DropReturns(t)[|DropReturns(t)| - 1] == t[|t| - 1]
  {
    if t != [] {
      DroppedAreKept(t[1..]);
      assert t == [t[0]] + t[1..];
    }
  }

  lemma PlainKept(t: Text, after: Text, delim: Byte)
    requires Unquoted(t, delim) && Blanks(after, delim)
    ensures Trim(DropReturns(t) + DropReturns(after)) == DropReturns(t)
  {
    DroppedAreKept(t);
    DroppedAreKept(after);
    TrimsBlanks(DropReturns(t), DropReturns(after));
    Trimmed(DropReturns(t));
  }

  lemma QuotedKept(t: Text, after: Text, delim: Byte)
    requires Blanks(after, delim)
    ensures Trim(DropReturns(t) + DropReturns(after)) == ReadBack(t)
  {
    DroppedAreKept(after);
    TrimsBlanks(DropReturns(t), DropReturns(after));
  }

  /** After a field that is not empty the reader holds text that is trimmed to its value. */
  lemma FieldTaken(w: Written, tail: seq<Byte>, delim: Byte, cells: seq<Text>) returns (text: Text)
    requires Writable(w, delim) && !w.Empty? && (tail == [] || tail[0] != 34)
    ensures ReadFrom(Show(w) + tail, delim, Reading(cells, [], Between)) == ReadFrom(tail, delim, Reading(cells, text, Mode.Plain))
    ensures Trim(text) == ValueOf(w)
  {
    if w.AsIs? {
      text := DropReturns(w.text) + DropReturns(w.after);
      Layered(w.before, w.text, w.after, tail);
      SkipsBlanks(w.before, w.text + (w.after + tail), delim, cells);
      TakesUnquoted(w.text, w.after, tail, delim, cells);
      PlainKept(w.text, w.after, delim);
    } else if w.Mixed? {
      text := MixedTaken(w, tail, delim, cells);
    } else {
      text := DropReturns(w.text) + DropReturns(w.after);
      var inner := [34] + (Doubled(w.text) + ([34] + (w.after + tail)));
      QuoteLayered(w.before, Doubled(w.text), w.after, tail);
      SkipsBlanks(w.before, inner, delim, cells);
      TakesQuoted(w.text, w.after, tail, delim, cells);
      QuotedKept(w.text, w.after, delim);
    }
  }

  lemma MixedTaken(w: Written, tail: seq<Byte>, delim: Byte, cells: seq<Text>) returns (text: Text)
    requires Writable(w, delim) && w.Mixed? && (tail == [] || tail[0] != 34)
    ensures ReadFrom(Show(w) + tail, delim, Reading(cells, [], Between)) == ReadFrom(tail, delim, Reading(cells, text, Mode.Plain))
    ensures Trim(text) == ValueOf(w)
  {
    var shown := ShowPieces(w.pieces);
    text := PiecesText(w.pieces);
    Sequences.Regroup(w.before, shown, tail);
    SkipsBlanks(w.before, shown + tail, delim, cells);
    StartsField(shown + tail, delim, cells);
    TakesPieces(w.pieces, tail, delim, cells, []);
    assert [] + text == text;
  }

  lemma Layered(a: Text, b: Text, c: Text, d: Text)
    ensures a + (b + c) + d == a + (b + (c + d))
  {
  }

  lemma QuoteLayered(a: Text, b: Text, c: Text, d: Text)
    ensures a + ([34] + (b + ([34] + c))) + d == a + ([34] + (b + ([34] + (c + d))))
  {
  }

  // ----- whole rows -----

  lemma RowLayered(field: Text, delim: Byte, more: Text, tail: Text)
    ensures field + ([delim] + more) + tail == field + ([delim] + (more + tail))
  {
  }

  /** A field and the delimiter behind it. */
  lemma FieldEnds(w: Written, tail: seq<Byte>, delim: Byte, cells: seq<Text>)
    requires Writable(w, delim) && Separator(delim)
    ensures ReadFrom(Show(w) + ([delim] + tail), delim, Reading(cells, [], Between))
         == ReadFrom(tail, delim, Reading(cells + [ValueOf(w)], [], Between))
  {
    var end := [delim] + tail;
    if w.Empty? {
      SkipsBlanks(w.before, end, delim, cells);
      OneCharacter(delim, tail, delim, Reading(cells, [], Between));
    } else {
      var text := FieldTaken(w, end, delim, cells);
      OneCharacter(delim, tail, delim, Reading(cells, text, Mode.Plain));
    }
  }

  lemma LastFieldEnds(w: Written, tail: seq<Byte>, delim: Byte, cells: seq<Text>)
    requires Writable(w, delim)
    ensures ReadFrom(Show(w) + ([10] + tail), delim, Reading(cells, [], Between)) == RowRead(cells + [ValueOf(w)], tail, false)
  {
    var end := [10] + tail;
    assert end[1..] == tail;
    if w.Empty? {
      SkipsBlanks(w.before, end, delim, cells);
    } else {
      var text := FieldTaken(w, end, delim, cells);
    }
  }

  lemma {:induction false} RowReadsFrom(row: seq<Written>, tail: seq<Byte>, delim: Byte, cells: seq<Text>)
    requires row != [] && AllWritable(row, delim) && Separator(delim)
    ensures ReadFrom(ShowRow(row, delim) + ([10] + tail), delim, Reading(cells, [], Between))
         == RowRead(cells + ValuesOf(row), tail, false)
    decreases |row|
  {
    if |row| == 1 {
      LastFieldEnds(row[0], tail, delim, cells);
      assert ValuesOf(row) == [ValueOf(row[0])];
    } else {
      var rest := ShowRow(row[1..], delim);
      RowLayered(Show(row[0]), delim, rest, [10] + tail);
      FieldEnds(row[0], rest + ([10] + tail), delim, cells);
      RowReadsFrom(row[1..], tail, delim, cells + [ValueOf(row[0])]);
      Sequences.Regroup(cells, [ValueOf(row[0])], ValuesOf(row[1..]));
    }
  }

  /** A row of plain, quoted and empty fields with any blanks around them, ended by a line feed, is read field by field. */
  lemma RowReads(row: seq<Written>, tail: seq<Byte>, delim: Byte)
    requires row != [] && AllWritable(row, delim) && delim != 34 && delim != 10
    ensures NextRow(ShowRow(row, delim) + ([10] + tail), delim) == RowRead(ValuesOf(row), tail, false)
  {
    RowReadsFrom(row, tail, delim, []);
    assert [] + ValuesOf(row) == ValuesOf(row);
  }

  /** Fields of a last row without its line feed: one that is empty at the end is not seen. */
  function SeenOf(row: seq<Written>): seq<Written> {
    if row != [] && row[|row| - 1].Empty? then row[..|row| - 1] else row
  }

  lemma LastFieldRunsOut(w: Written, delim: Byte, cells: seq<Text>)
    requires Writable(w, delim)
    ensures ReadFrom(Show(w), delim, Reading(cells, [], Between)) == RowRead(cells + ValuesOf(SeenOf([w])), [], true)
  {
    assert Show(w) + [] == Show(w) && cells + [] == cells;
    if w.Empty? {
      SkipsBlanks(w.before, [], delim, cells);
      assert ValuesOf(SeenOf([w])) == [];
    } else {
      var text := FieldTaken(w, [], delim, cells);
      assert ValuesOf([w]) == [ValueOf(w)];
    }
  }

  lemma SeenFront(row: seq<Written>)
    requires |row| > 1
    ensures ValuesOf(SeenOf(row)) == [ValueOf(row[0])] + ValuesOf(SeenOf(row[1..]))
  {
    assert row[1..][|row| - 2] == row[|row| - 1];
    if row[|row| - 1].Empty? {
      assert SeenOf(row)[1..] == SeenOf(row[1..]);
    }
  }

  lemma {:induction false} RowRunsOut(row: seq<Written>, delim: Byte, cells: seq<Text>)
    requires row != [] && AllWritable(row, delim) && Separator(delim)
    ensures ReadFrom(ShowRow(row, delim), delim, Reading(cells, [], Between)) == RowRead(cells + ValuesOf(SeenOf(row)), [], true)
    decreases |row|
  {
    if |row| == 1 {
      assert row == [row[0]];
      LastFieldRunsOut(row[0], delim, cells);
    } else {
      FieldEnds(row[0], ShowRow(row[1..], delim), delim, cells);
      RowRunsOut(row[1..], delim, cells + [ValueOf(row[0])]);
      SeenFront(row);
      Sequences.Regroup(cells, [ValueOf(row[0])], ValuesOf(SeenOf(row[1..])));
    }
  }

  /** The last row of a text may lack its line feed; an empty field at its end is then lost. */
  lemma LastRowReads(row: seq<Written>, delim: Byte)
    requires row != [] && AllWritable(row, delim) && delim != 34 && delim != 10
    ensures NextRow(ShowRow(row, delim), delim) == RowRead(ValuesOf(SeenOf(row)), [], true)
  {
    RowRunsOut(row, delim, []);
    assert [] + ValuesOf(SeenOf(row)) == ValuesOf(SeenOf(row));
  }

  /** The tokenizer on such a row, for any size of its buffer: it takes the fields' values and stops behind the line feed. */
  method TokenizesRow(tokenizer: CsvTokenizer, rows: VectorOfStrings2D, ghost row: seq<Written>, ghost tail: seq<Byte>)
    requires tokenizer.Valid() && rows.Valid() && rows.text == [] && tokenizer.delim != 34 && tokenizer.delim != 10
    requires row != [] && AllWritable(row, tokenizer.delim)
    requires tokenizer.rest == ShowRow(row, tokenizer.delim) + ([10] + tail)
    modifies tokenizer, tokenizer.buffer, rows
    ensures tokenizer.Valid() && rows.Valid() && rows.rows == old(rows.rows)
    ensures rows.line == old(rows.line) + ValuesOf(row) && tokenizer.rest == tail && !tokenizer.eofReached
  {
    RowReads(row, tail, tokenizer.delim);
    tokenizer.GetNextRow(rows);
  }

  // ----- a quote that is never closed -----

  /** One character inside quotes, doubled if it is a quote. */
  lemma QuotedCharacter(c: Byte, more: seq<Byte>, delim: Byte, cells: seq<Text>, text: Text)
    ensures ReadFrom((if c == 34 then [34, 34] else [c]) + more, delim, Reading(cells, text, Quoted))
         == ReadFrom(more, delim, Reading(cells, text + (if c == 13 then [] else [c]), Quoted))
  {
    assert text + [] == text;
    if c == 34 {
      assert [34, 34] + more == [34] + ([34] + more);
      OneCharacter(34, [34] + more, delim, Reading(cells, text, Quoted));
      OneCharacter(34, more, delim, Reading(cells, text, Closing));
    } else {
      OneCharacter(c, more, delim, Reading(cells, text, Quoted));
    }
  }

  lemma {:induction false} QuotedToTheEnd(t: Text, delim: Byte, cells: seq<Text>, text: Text)
    ensures ReadFrom(Doubled(t), delim, Reading(cells, text, Quoted)) == RowRead(cells + [Trim(text + DropReturns(t))], [], true)
    decreases |t|
  {
    if t == [] {
      assert text + [] == text;
    } else {
      var kept := if t[0] == 13 then [] else [t[0]];
      QuotedCharacter(t[0], Doubled(t[1..]), delim, cells, text);
      QuotedToTheEnd(t[1..], delim, cells, text + kept);
      Sequences.Regroup(text, kept, DropReturns(t[1..]));
    }
  }

  /** It takes everything up to the end of the text into the field, line feeds and delimiters too. */
  lemma UnclosedQuote(t: Text, delim: Byte)
    ensures NextRow([34] + Doubled(t), delim) == RowRead([ReadBack(t)], [], true)
  {
    OneCharacter(34, Doubled(t), delim, Reading([], [], Between));
    QuotedToTheEnd(t, delim, [], []);
    assert [] + DropReturns(t) == DropReturns(t) && [] + [ReadBack(t)] == [ReadBack(t)];
  }

  // ----- whole texts -----

  function ShowLines(rows: seq<seq<Written>>, delim: Byte): Text {
    if rows == [] then [] else ShowRow(rows[0], delim) + ([10] + ShowLines(rows[1..], delim))
  }

  predicate LinesWritable(rows: seq<seq<Written>>, delim: Byte) {
    forall i :: 0 <= i < |rows| ==> rows[i] != [] && AllWritable(rows[i], delim)
  }

  function LineValues(rows: seq<seq<Written>>): (r: seq<seq<Text>>)
    ensures |r| == |rows| && forall i :: 0 <= i < |r| ==> r[i] == ValuesOf(rows[i])
  {
    if rows == [] then [] else [ValuesOf(rows[0])] + LineValues(rows[1..])
  }

  /** A text of such lines is read line by line. */
  lemma {:induction false} TextReads(rows: seq<seq<Written>>, delim: Byte)
    requires LinesWritable(rows, delim) && delim != 34 && delim != 10
    ensures TextRows(ShowLines(rows, delim), delim) == LineValues(rows)
  {
    if rows != [] {
      RowReads(rows[0], ShowLines(rows[1..], delim), delim);
      TextReads(rows[1..], delim);
    }
  }

  /** The text 1,2 and a line feed. */
  lemma OneTwo()
    ensures NextRow([49, 44, 50, 10], 44) == RowRead([[49], [50]], [], false)
  {
    var row := [AsIs([], [49], []), AsIs([], [50], [])];
    assert ShowRow(row[1..], 44) == [50];
    assert ShowRow(row, 44) + ([10] + []) == [49, 44, 50, 10];
    RowReads(row, [], 44);
    ReadAsWritten(row[0]);
    ReadAsWritten(row[1]);
    assert ValuesOf(row) == [[49], [50]];
  }
}
