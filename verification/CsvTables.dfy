/**
 A typed table printed as CSV, converted into a columnar file, and scanned by a query: the storage path and the query
 engine joined.
 */
module CsvTables {
  import opened Values
  import opened Wrappers
  import opened Batches
  import opened Builders
  import opened StringTables
  import opened CsvRows
  import opened CsvRoundTrip
  import opened CsvReaders
  import opened CsvChunks
  import opened CsvToColumnar
  import opened CsvArchive
  import opened FieldTexts
  import opened FileLayout
  import opened ColumnarFile
  import opened ColumnCodes
  import NamedRows
  import Plans
  import PlanRuns
  import PlanShapes
  import PlanTypes
  import Sequences

  // ----- the table that is in a file -----

  function FieldsOf(names: seq<Text>, types: seq<ColumnType>): (r: seq<Plans.Field>)
    requires |names| == |types|
    ensures |r| == |names| && forall i :: 0 <= i < |r| ==> r[i] == Plans.Field(names[i], types[i])
  {
    seq(|names|, i requires 0 <= i < |names| => Plans.Field(names[i], types[i]))
  }

  /** The metadata of a stored column names and types the field, and lists as many chunks. */
  predicate FieldIn(meta: ColumnMeta, field: Plans.Field, chunks: nat) {
    meta.name == field.name && TypeOfTag(meta.tag) == Some(field.ty) && |meta.offsets| == chunks
  }

  predicate ChunkIn(file: seq<Byte>, footer: Footer, chunk: Plans.Chunk, i: nat, k: nat) {
    i < |chunk.columns| && Chunk(file, footer, i, k) == Ok(chunk.columns[i])
  }

  /** The file's metadata and chunks are those of the table. */
  ghost predicate InFile(file: seq<Byte>, table: Plans.Table) {
    && ParseFile(file).Ok?
    && var footer := ParseFile(file).value;
    && |footer.columns| == |table.fields|
    && (forall i :: 0 <= i < |footer.columns| ==> FieldIn(footer.columns[i], table.fields[i], |table.chunks|))
    && forall i, k :: 0 <= i < |footer.columns| && 0 <= k < |table.chunks| ==> ChunkIn(file, footer, table.chunks[k], i, k)
  }

  /** The rows of fields as rows of values. */
  ghost function Parsed(rows: seq<seq<Text>>, types: seq<ColumnType>, parser: FieldParser): (r: seq<Row>)
    requires AllParse(rows, types, parser)
    ensures |r| == |rows| && forall i :: 0 <= i < |r| ==>
              |r[i]| == |types| && forall j :: 0 <= j < |types| ==> parser(types[j], rows[i][j]) == Some(r[i][j])
  {
    seq(|rows|, i requires 0 <= i < |rows| =>
      assert RowParses(rows[i], types, parser);
      seq(|types|, j requires 0 <= j < |types| => parser(types[j], rows[i][j]).value))
  }

  ghost function ChunkTable(names: seq<Text>, types: seq<ColumnType>, chunks: seq<seq<seq<Text>>>, parser: FieldParser): (t: Plans.Table)
    requires |names| == |types| && ChunksParse(chunks, types, parser)
    ensures |t.chunks| == |chunks| && t.fields == FieldsOf(names, types)
    ensures forall k :: 0 <= k < |chunks| ==>
              AllParse(chunks[k], types, parser) && t.chunks[k] == Plans.Chunk(|chunks[k]|, BatchOf(chunks[k], types, parser))
  {
    Plans.Table(FieldsOf(names, types),
                seq(|chunks|, k requires 0 <= k < |chunks| => Plans.Chunk(|chunks[k]|, BatchOf(chunks[k], types, parser))))
  }

  lemma BatchShape(rows: seq<seq<Text>>, types: seq<ColumnType>, parser: FieldParser)
    requires AllParse(rows, types, parser)
    ensures Aligned(BatchOf(rows, types, parser), |rows|) && TypesOf(BatchOf(rows, types, parser)) == types
    ensures HeldRows(BatchOf(rows, types, parser), |rows|) == Parsed(rows, types, parser)
  {
    var columns := BatchOf(rows, types, parser);
    forall j | 0 <= j < |types| ensures columns[j].ty == types[j] && |columns[j].data| == |rows| {
      assert ColumnParses(rows, j, types[j], parser);
    }
    forall i | 0 <= i < |rows| ensures HeldRows(columns, |rows|)[i] == Parsed(rows, types, parser)[i] {
      assert RowParses(rows[i], types, parser) && HeldRows(columns, |rows|)[i] == RowAt(columns, i);
      forall j | 0 <= j < |types| ensures RowAt(columns, i)[j] == Parsed(rows, types, parser)[i][j] {
        assert columns[j].data == ColumnOf(rows, j, types[j], parser);
      }
    }
  }

  lemma {:induction false} ChunksParsed(names: seq<Text>, types: seq<ColumnType>, chunks: seq<seq<seq<Text>>>, parser: FieldParser)
    requires |names| == |types| && ChunksParse(chunks, types, parser)
    ensures var table := ChunkTable(names, types, chunks, parser);
            PlanShapes.TableOk(table) && AllParse(Sequences.Concat(chunks), types, parser)
            && NamedRows.TableRows(table.chunks) == Parsed(Sequences.Concat(chunks), types, parser)
    decreases |chunks|
  {
    var table := ChunkTable(names, types, chunks, parser);
    assert Plans.TypesIn(table.fields) == types;
    forall k | 0 <= k < |chunks|
      ensures Aligned(table.chunks[k].columns, table.chunks[k].size) && TypesOf(table.chunks[k].columns) == types
    {
      BatchShape(chunks[k], types, parser);
    }
    if chunks != [] {
      var n := |chunks| - 1;
      ChunksParsed(names, types, chunks[..n], parser);
      assert ChunkTable(names, types, chunks[..n], parser).chunks == table.chunks[..n];
      BatchShape(chunks[n], types, parser);
      ParsedJoin(Sequences.Concat(chunks[..n]), chunks[n], types, parser);
    }
  }

  lemma ParsedJoin(a: seq<seq<Text>>, b: seq<seq<Text>>, types: seq<ColumnType>, parser: FieldParser)
    requires AllParse(a, types, parser) && AllParse(b, types, parser)
    ensures AllParse(a + b, types, parser) && Parsed(a + b, types, parser) == Parsed(a, types, parser) + Parsed(b, types, parser)
  {
  }

  lemma TableReads(file: seq<Byte>, table: Plans.Table, names: seq<Text>, types: seq<ColumnType>, batches: seq<seq<Column>>)
    requires |names| == |types| && ReadsAs(file, names, types, batches) && table.fields == FieldsOf(names, types)
    requires |table.chunks| == |batches| && forall k :: 0 <= k < |batches| ==> table.chunks[k].columns == batches[k]
    ensures InFile(file, table)
  {
    var footer := ParseFile(file).value;
    forall i | 0 <= i < |names| ensures FieldIn(footer.columns[i], table.fields[i], |table.chunks|) {
      assert table.fields[i] == Plans.Field(names[i], types[i]);
    }
    forall i, k | 0 <= i < |names| && 0 <= k < |batches| ensures ChunkIn(file, footer, table.chunks[k], i, k) {
      var stored := Chunk(file, footer, i, k);
      assert i < |batches[k]| && stored == Ok(batches[k][i]);
      assert table.chunks[k].columns == batches[k];
    }
  }

  /** A converted file holds a table in order, whose rows are the parsed rows kept. */
  lemma ConvertedTable(file: seq<Byte>, names: seq<Text>, types: seq<ColumnType>, rows: seq<seq<Text>>, parser: FieldParser)
    returns (table: Plans.Table)
    requires |names| == |types| && Converted(file, names, types, rows, parser)
    requires ColumnarFile.Fits(names, BatchesOf(ChunksOf(rows), types, parser), file)
    ensures InFile(file, table) && table.fields == FieldsOf(names, types) && PlanShapes.TableOk(table)
    ensures AllParse(Kept(rows), types, parser) && NamedRows.TableRows(table.chunks) == Parsed(Kept(rows), types, parser)
  {
    var chunks := ChunksOf(rows);
    table := ChunkTable(names, types, chunks, parser);
    ChunksParsed(names, types, chunks, parser);
    ReadsBack(file, names, types, rows, parser);
    TableReads(file, table, names, types, BatchesOf(chunks, types, parser));
  }

  // ----- typed rows -----

  /** Values whose text reads back; strings and characters have no CR and no blank end. */
  ghost predicate RowPrintable(row: Row, types: seq<ColumnType>) {
    && |row| == |types|
    && forall j :: 0 <= j < |types| ==>
         && Printable(types[j], row[j])
         && (types[j] == STRING || types[j] == CHAR ==> Survives(PrintValue(types[j], row[j])))
  }

  ghost predicate RowsPrintable(rows: seq<Row>, types: seq<ColumnType>) {
    forall i :: 0 <= i < |rows| ==> RowPrintable(rows[i], types)
  }

  function PrintCells(row: Row, types: seq<ColumnType>): (r: seq<Text>)
    requires |row| == |types| && forall j :: 0 <= j < |types| ==> Printable(types[j], row[j])
    ensures |r| == |types| && forall j :: 0 <= j < |r| ==> r[j] == PrintValue(types[j], row[j])
  {
    seq(|types|, j requires 0 <= j < |types| => PrintValue(types[j], row[j]))
  }

  ghost function PrintRows(rows: seq<Row>, types: seq<ColumnType>): (r: seq<seq<Text>>)
    requires RowsPrintable(rows, types)
    ensures |r| == |rows|
    ensures forall i :: 0 <= i < |r| ==> RowPrintable(rows[i], types) && r[i] == PrintCells(rows[i], types)
  {
    seq(|rows|, i requires 0 <= i < |rows| =>
      assert RowPrintable(rows[i], types);
      PrintCells(rows[i], types))
  }

  /** Printed rows parse back to themselves. */
  lemma PrintedParse(rows: seq<Row>, types: seq<ColumnType>)
    requires RowsPrintable(rows, types)
    ensures AllParse(PrintRows(rows, types), types, ParseField) && Parsed(PrintRows(rows, types), types, ParseField) == rows
  {
    var printed := PrintRows(rows, types);
    forall i | 0 <= i < |rows| ensures RowParses(printed[i], types, ParseField) {
      forall j | 0 <= j < |types| ensures ParseField(types[j], printed[i][j]) == Some(rows[i][j]) {
        FieldTexts.FieldReadsBack(types[j], rows[i][j]);
      }
    }
    var back := Parsed(printed, types, ParseField);
    forall i | 0 <= i < |rows| ensures back[i] == rows[i] {
      forall j | 0 <= j < |types| ensures back[i][j] == rows[i][j] {
        FieldTexts.FieldReadsBack(types[j], rows[i][j]);
      }
    }
  }

  lemma PrintedRowsSurvive(rows: seq<Row>, types: seq<ColumnType>)
    requires RowsPrintable(rows, types) && types != []
    ensures forall i :: 0 <= i < |rows| ==> RowSurvives(PrintRows(rows, types)[i])
  {
    forall i | 0 <= i < |rows| ensures RowSurvives(PrintRows(rows, types)[i]) {
      assert RowPrintable(rows[i], types);
      forall j | 0 <= j < |types| ensures Survives(PrintCells(rows[i], types)[j]) {
        if types[j] != STRING && types[j] != CHAR {
          PrintedSurvives(types[j], rows[i][j]);
        }
      }
    }
  }

  /** A prefix of the printed rows is the print of that prefix of the rows. */
  lemma KeptRows(rows: seq<Row>, types: seq<ColumnType>) returns (m: nat)
    requires RowsPrintable(rows, types)
    ensures m <= |rows| && RowsPrintable(rows[..m], types) && Kept(PrintRows(rows, types)) == PrintRows(rows[..m], types)
    ensures m == |rows| <==> Kept(PrintRows(rows, types)) == PrintRows(rows, types)
    ensures |rows| < m + 8192
  {
    var printed := PrintRows(rows, types);
    ChunksHold(printed);
    LastRowsAre(printed);
    m := |Kept(printed)|;
    assert Kept(printed) == printed[..m];
    assert PrintRows(rows[..m], types) == printed[..m];
  }

  /** The typed cells that a table of printable rows has. */
  lemma PrintableTyped(table: Plans.Table, rows: seq<Row>, types: seq<ColumnType>)
    requires PlanShapes.TableOk(table) && Plans.TypesIn(table.fields) == types && RowsPrintable(rows, types)
    requires NamedRows.TableRows(table.chunks) == rows
    ensures PlanTypes.TableTyped(table)
  {
    forall k, c, i | 0 <= k < |table.chunks| && 0 <= c < |table.chunks[k].columns| && 0 <= i < |table.chunks[k].columns[c].data|
      ensures HasType(table.chunks[k].columns[c].data[i], table.chunks[k].columns[c].ty)
    {
      CellAmongRows(table, k, c, i, rows);
      assert TypesOf(table.chunks[k].columns)[c] == types[c];
    }
  }

  /** Every cell of a table is a cell of one of its rows. */
  lemma CellAmongRows(table: Plans.Table, k: nat, c: nat, i: nat, rows: seq<Row>)
    requires PlanShapes.TableOk(table) && NamedRows.TableRows(table.chunks) == rows
    requires k < |table.chunks| && c < |table.chunks[k].columns| && i < |table.chunks[k].columns[c].data|
    ensures exists r :: 0 <= r < |rows| && c < |rows[r]| && rows[r][c] == table.chunks[k].columns[c].data[i]
  {
    var chunk := table.chunks[k];
    var held := HeldRows(chunk.columns, chunk.size);
    assert held[i] == RowAt(chunk.columns, i) && held[i][c] == chunk.columns[c].data[i];
    var r := ChunkRowAt(table.chunks, k, i);
  }

  lemma {:induction false} ChunkRowAt(chunks: seq<Plans.Chunk>, k: nat, i: nat) returns (r: nat)
    requires (forall j :: 0 <= j < |chunks| ==> Aligned(chunks[j].columns, chunks[j].size)) && k < |chunks| && i < chunks[k].size
    ensures r < |NamedRows.TableRows(chunks)| && NamedRows.TableRows(chunks)[r] == HeldRows(chunks[k].columns, chunks[k].size)[i]
    decreases |chunks|
  {
    var n := |chunks| - 1;
    if k < n {
      r := ChunkRowAt(chunks[..n], k, i);
    } else {
      r := |NamedRows.TableRows(chunks[..n])| + i;
    }
  }

  /** What Convert is given, and what it makes of it. */
  method Archive(names: seq<Text>, types: seq<ColumnType>, ghost rows: seq<Row>, content: seq<Byte>, bufferSize: nat)
    returns (file: seq<Byte>)
    requires |names| == |types| > 0 && bufferSize > 0 && RowSurvives(names) && RowsPrintable(rows, types)
    requires content == PrintTable([HeaderRow(names, types)] + PrintRows(rows, types), COMMA)
    ensures Converted(file, names, types, PrintRows(rows, types), ParseField)
  {
    PrintedRowsSurvive(rows, types);
    PrintedTable(names, types, PrintRows(rows, types));
    PrintedParse(rows, types);
    var converted := Convert(content, bufferSize, ParseField);
    file := converted.value;
  }

  /**
   A typed table printed as CSV and converted is a table in order and typed, and what a query scans from it are the
   chosen columns of its rows: of all of them exactly if the conversion drops none (NothingLost says when), and otherwise
   of all but the last ones, fewer than a chunk.
   */
  lemma ArchivedTableScans(file: seq<Byte>, names: seq<Text>, types: seq<ColumnType>, rows: seq<Row>, ix: seq<nat>)
    returns (table: Plans.Table, m: nat)
    requires |names| == |types| && RowsPrintable(rows, types) && forall j :: 0 <= j < |ix| ==> ix[j] < |types|
    requires Converted(file, names, types, PrintRows(rows, types), ParseField)
    requires ColumnarFile.Fits(names, BatchesOf(ChunksOf(PrintRows(rows, types)), types, ParseField), file)
    ensures InFile(file, table) && table.fields == FieldsOf(names, types)
    ensures PlanShapes.TableOk(table) && PlanTypes.TableTyped(table) && PlanRuns.RowCount(table.chunks) == m
    ensures m <= |rows| < m + 8192 && NamedRows.TableRows(table.chunks) == rows[..m]
    ensures m == |rows| <==> Kept(PrintRows(rows, types)) == PrintRows(rows, types)
    ensures AllValid(PlanRuns.ScanBatches(table, ix)) && PlanRuns.InWidth(rows[..m], ix)
    ensures AllRows(PlanRuns.ScanBatches(table, ix)) == PlanRuns.PickEach(rows[..m], ix)
  {
    m := KeptRows(rows, types);
    table := ConvertedTable(file, names, types, PrintRows(rows, types), ParseField);
    PrintedParse(rows[..m], types);
    assert Plans.TypesIn(table.fields) == types;
    PrintableTyped(table, rows[..m], types);
    PlanRuns.RowCountIsLength(table.chunks);
    PlanRuns.ScanRows(table, ix);
  }
}
