/**
 From CSV text to columns read out of the columnar file: the storage path as a whole.
 */
module CsvArchive {
  import opened Values
  import opened Wrappers
  import opened Batches
  import opened StringTables
  import opened CsvRows
  import opened CsvRoundTrip
  import opened CsvReaders
  import opened CsvChunks
  import opened CsvToColumnar
  import opened FileLayout
  import opened ColumnarFile
  import Sequences

  // ----- a stored column, chunk by chunk -----

  ghost predicate Readable(file: seq<Byte>, footer: Footer, i: nat, n: nat) {
    forall k :: 0 <= k < n ==> Chunk(file, footer, i, k).Ok?
  }

  ghost function ColumnParts(file: seq<Byte>, footer: Footer, i: nat, n: nat): (r: seq<seq<Value>>)
    requires Readable(file, footer, i, n)
    ensures |r| == n
  {
    seq(n, k requires 0 <= k < n => Chunk(file, footer, i, k).value.data)
  }

  // ----- chunks of a column join to the column -----

  ghost function PartsOf(chunks: seq<seq<seq<Text>>>, i: nat, ty: ColumnType, parser: FieldParser): (r: seq<seq<Value>>)
    requires forall k :: 0 <= k < |chunks| ==> ColumnParses(chunks[k], i, ty, parser)
    ensures |r| == |chunks|
  {
    seq(|chunks|, k requires 0 <= k < |chunks| => ColumnOf(chunks[k], i, ty, parser))
  }

  lemma {:induction false} PartsJoin(chunks: seq<seq<seq<Text>>>, i: nat, ty: ColumnType, parser: FieldParser)
    requires forall k :: 0 <= k < |chunks| ==> ColumnParses(chunks[k], i, ty, parser)
    ensures ColumnParses(Sequences.Concat(chunks), i, ty, parser)
    ensures Sequences.Concat(PartsOf(chunks, i, ty, parser)) == ColumnOf(Sequences.Concat(chunks), i, ty, parser)
  {
    if chunks != [] {
      var n := |chunks| - 1;
      PartsJoin(chunks[..n], i, ty, parser);
      assert PartsOf(chunks, i, ty, parser)[..n] == PartsOf(chunks[..n], i, ty, parser);
      ColumnsJoin(Sequences.Concat(chunks[..n]), chunks[n], i, ty, parser);
    }
  }

  lemma ColumnsJoin(a: seq<seq<Text>>, b: seq<seq<Text>>, i: nat, ty: ColumnType, parser: FieldParser)
    requires ColumnParses(a, i, ty, parser) && ColumnParses(b, i, ty, parser)
    ensures ColumnParses(a + b, i, ty, parser)
    ensures ColumnOf(a, i, ty, parser) + ColumnOf(b, i, ty, parser) == ColumnOf(a + b, i, ty, parser)
  {
  }

  // ----- the stored table -----

  /** The rows that reach the file. */
  ghost function Kept(rows: seq<seq<Text>>): seq<seq<Text>> {
    Sequences.Concat(ChunksOf(rows))
  }

  lemma BatchColumn(chunks: seq<seq<seq<Text>>>, types: seq<ColumnType>, parser: FieldParser, k: nat, i: nat)
    requires ChunksParse(chunks, types, parser) && k < |chunks| && i < |types|
    ensures ColumnParses(chunks[k], i, types[i], parser)
    ensures BatchesOf(chunks, types, parser)[k][i] == Column(types[i], ColumnOf(chunks[k], i, types[i], parser))
  {
    assert AllParse(chunks[k], types, parser);
  }

  /** Chunk k of column i holds the parsed fields of the k-th rows. */
  ghost predicate Stored(file: seq<Byte>, footer: Footer, i: nat, ty: ColumnType, chunks: seq<seq<seq<Text>>>,
                         parser: FieldParser)
  {
    forall k :: 0 <= k < |chunks| ==>
      ColumnParses(chunks[k], i, ty, parser) && Chunk(file, footer, i, k) == Ok(Column(ty, ColumnOf(chunks[k], i, ty, parser)))
  }

  lemma StoredChunks(file: seq<Byte>, footer: Footer, names: seq<Text>, types: seq<ColumnType>, chunks: seq<seq<seq<Text>>>,
                     parser: FieldParser, i: nat)
    requires ChunksParse(chunks, types, parser) && i < |names| == |types| && ParseFile(file) == Ok(footer)
    requires ReadsAs(file, names, types, BatchesOf(chunks, types, parser))
    ensures Stored(file, footer, i, types[i], chunks, parser)
  {
    forall k | 0 <= k < |chunks|
      ensures ColumnParses(chunks[k], i, types[i], parser)
      ensures Chunk(file, footer, i, k) == Ok(Column(types[i], ColumnOf(chunks[k], i, types[i], parser)))
    {
      BatchColumn(chunks, types, parser, k, i);
    }
  }

  lemma ChunksJoin(file: seq<Byte>, footer: Footer, i: nat, ty: ColumnType, chunks: seq<seq<seq<Text>>>, parser: FieldParser)
    requires Stored(file, footer, i, ty, chunks, parser)
    ensures Readable(file, footer, i, |chunks|) && ColumnParses(Sequences.Concat(chunks), i, ty, parser)
    ensures Sequences.Concat(ColumnParts(file, footer, i, |chunks|)) == ColumnOf(Sequences.Concat(chunks), i, ty, parser)
  {
    assert ColumnParts(file, footer, i, |chunks|) == PartsOf(chunks, i, ty, parser);
    PartsJoin(chunks, i, ty, parser);
  }

  /** A converted file has the header's names and types. */
  lemma ReadsBack(file: seq<Byte>, names: seq<Text>, types: seq<ColumnType>, rows: seq<seq<Text>>, parser: FieldParser)
    requires |names| == |types| && Converted(file, names, types, rows, parser)
    requires Fits(names, BatchesOf(ChunksOf(rows), types, parser), file)
    ensures ReadsAs(file, names, types, BatchesOf(ChunksOf(rows), types, parser))
  {
    FileRoundTrip(names, types, BatchesOf(ChunksOf(rows), types, parser));
  }

  /**
   The chunks of a column of a converted file, read back and joined, are the parsed fields of that column in the rows
   kept; NothingLost says when those are all rows.
   */
  lemma StoredColumn(file: seq<Byte>, names: seq<Text>, types: seq<ColumnType>, rows: seq<seq<Text>>, parser: FieldParser,
                     i: nat)
    requires |names| == |types| && Converted(file, names, types, rows, parser) && i < |names|
    requires Fits(names, BatchesOf(ChunksOf(rows), types, parser), file)
    ensures ParseFile(file).Ok?
    ensures var footer, n := ParseFile(file).value, |ChunksOf(rows)|;
            && Readable(file, footer, i, n) && ColumnParses(Kept(rows), i, types[i], parser)
            && Sequences.Concat(ColumnParts(file, footer, i, n)) == ColumnOf(Kept(rows), i, types[i], parser)
  {
    ReadsBack(file, names, types, rows, parser);
    StoredChunks(file, ParseFile(file).value, names, types, ChunksOf(rows), parser, i);
    ChunksJoin(file, ParseFile(file).value, i, types[i], ChunksOf(rows), parser);
  }

  // ----- a printed table -----

  ghost function HeaderRow(names: seq<Text>, types: seq<ColumnType>): (r: seq<Text>)
    requires |names| == |types|
    ensures |r| == |names|
  {
    seq(|names|, i requires 0 <= i < |names| => HeaderCell(names[i], types[i]))
  }

  lemma HeaderCellSurvives(name: Text, ty: ColumnType)
    requires Survives(name)
    ensures Survives(HeaderCell(name, ty))
  {
    var cell := HeaderCell(name, ty);
    assert RETURN !in TypeName(ty);
    assert cell[|cell| - 1] == if name == [] then COLON else name[|name| - 1];
  }

  lemma HeaderReadsBack(names: seq<Text>, types: seq<ColumnType>)
    requires |names| == |types|
    ensures var header := HeaderRow(names, types);
            HeaderParses(header) && HeaderNames(header) == names && HeaderTypes(header) == types
  {
    var header := HeaderRow(names, types);
    forall i | 0 <= i < |header| ensures HeaderField(header[i]) == Some((names[i], types[i])) {
      HeaderCellReadsBack(names[i], types[i]);
    }
  }

  lemma HeaderSurvives(names: seq<Text>, types: seq<ColumnType>)
    requires |names| == |types| > 0 && RowSurvives(names)
    ensures RowSurvives(HeaderRow(names, types))
  {
    forall i | 0 <= i < |names| ensures Survives(HeaderRow(names, types)[i]) {
      HeaderCellSurvives(names[i], types[i]);
    }
  }

  /**
   A table printed as CSV below its header line is what Convert takes in: the same names, types and rows.
   */
  lemma PrintedTable(names: seq<Text>, types: seq<ColumnType>, rows: seq<seq<Text>>)
    requires |names| == |types| && RowSurvives(names) && forall i :: 0 <= i < |rows| ==> RowSurvives(rows[i])
    ensures var read := TextRows(PrintTable([HeaderRow(names, types)] + rows, COMMA), COMMA);
            && HeaderParses(HeaderOf(read)) && HeaderNames(HeaderOf(read)) == names && HeaderTypes(HeaderOf(read)) == types
            && BodyOf(read) == rows
  {
    var header := HeaderRow(names, types);
    HeaderReadsBack(names, types);
    HeaderSurvives(names, types);
    PrintedBelow(header, rows);
  }

  lemma PrintedBelow(header: seq<Text>, rows: seq<seq<Text>>)
    requires RowSurvives(header) && forall i :: 0 <= i < |rows| ==> RowSurvives(rows[i])
    ensures var read := TextRows(PrintTable([header] + rows, COMMA), COMMA);
            HeaderOf(read) == header && BodyOf(read) == rows
  {
    TableRoundTrip([header] + rows, COMMA);
  }
}
