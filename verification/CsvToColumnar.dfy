/**
 CsvToColumnar (src/io/CsvToColumnar.cpp): rows go from the reader into a cache, from there into one builder per
 column, and from the builders into chunks of the columnar file.
 */
module CsvToColumnar {
  import opened Values
  import opened Wrappers
  import opened Batches
  import opened StringTables
  import opened CsvRows
  import opened CsvReaders
  import opened CsvChunks
  import opened ColumnarFile
  import Sequences

  /** How a builder turns a field into a value of its column; `None` where it throws. */
  type FieldParser = (ColumnType, Text) -> Option<Value>

  // ----- rows as columns -----

  ghost predicate RowParses(row: seq<Text>, types: seq<ColumnType>, parser: FieldParser) {
    |row| == |types| && forall j :: 0 <= j < |types| ==> parser(types[j], row[j]).Some?
  }

  ghost predicate AllParse(rows: seq<seq<Text>>, types: seq<ColumnType>, parser: FieldParser) {
    forall i :: 0 <= i < |rows| ==> RowParses(rows[i], types, parser)
  }

  ghost predicate ColumnParses(rows: seq<seq<Text>>, j: nat, ty: ColumnType, parser: FieldParser) {
    forall i :: 0 <= i < |rows| ==> j < |rows[i]| && parser(ty, rows[i][j]).Some?
  }

  ghost function ColumnOf(rows: seq<seq<Text>>, j: nat, ty: ColumnType, parser: FieldParser): (r: seq<Value>)
    requires ColumnParses(rows, j, ty, parser)
    ensures |r| == |rows|
  {
    seq(|rows|, i requires 0 <= i < |rows| => parser(ty, rows[i][j]).value)
  }

  ghost function BatchOf(rows: seq<seq<Text>>, types: seq<ColumnType>, parser: FieldParser): (r: seq<Column>)
    requires AllParse(rows, types, parser)
    ensures |r| == |types|
  {
    seq(|types|, j requires 0 <= j < |types| =>
      assert ColumnParses(rows, j, types[j], parser);
      Column(types[j], ColumnOf(rows, j, types[j], parser)))
  }

  ghost predicate ChunksParse(chunks: seq<seq<seq<Text>>>, types: seq<ColumnType>, parser: FieldParser) {
    forall k :: 0 <= k < |chunks| ==> AllParse(chunks[k], types, parser)
  }

  ghost function BatchesOf(chunks: seq<seq<seq<Text>>>, types: seq<ColumnType>, parser: FieldParser): (r: seq<seq<Column>>)
    requires ChunksParse(chunks, types, parser)
    ensures |r| == |chunks| && Shaped(types, r)
  {
    seq(|chunks|, k requires 0 <= k < |chunks| => BatchOf(chunks[k], types, parser))
  }

  lemma {:induction false} ChunksOfParse(rows: seq<seq<Text>>, types: seq<ColumnType>, parser: FieldParser)
    requires AllParse(rows, types, parser)
    ensures ChunksParse(ChunksOf(rows), types, parser)
    decreases |rows|
  {
    if |rows| >= 8192 {
      ChunksOfParse(rows[8192..], types, parser);
    }
  }

  /** The builders hold these rows. */
  ghost predicate Built(builders: seq<seq<Value>>, rows: seq<seq<Text>>, types: seq<ColumnType>, parser: FieldParser) {
    && |builders| == |types| && AllParse(rows, types, parser)
    && forall j :: 0 <= j < |types| ==> BuiltColumn(builders[j], rows, j, types[j], parser)
  }

  ghost predicate BuiltColumn(data: seq<Value>, rows: seq<seq<Text>>, j: nat, ty: ColumnType, parser: FieldParser) {
    ColumnParses(rows, j, ty, parser) && data == ColumnOf(rows, j, ty, parser)
  }

  // ----- builders -----

  /** ColumnBuilder::AddBatch: column j of the cached rows behind the values already there. */
  method AddBatch(batch: VectorOfStrings2D, j: nat, ty: ColumnType, parser: FieldParser, data: seq<Value>,
                  ghost held: seq<seq<Text>>)
    returns (r: Option<seq<Value>>)
    requires batch.Valid() && batch.line == [] && Rectangular(batch.rows, batch.Width()) && j < batch.Width()
    requires BuiltColumn(data, held, j, ty, parser)
    ensures r.Some? <==> ColumnParses(batch.rows, j, ty, parser)
    ensures r.Some? ==> BuiltColumn(r.value, held + batch.rows, j, ty, parser)
  {
    var built := data;
    for i := 0 to batch.Height()
      invariant forall k :: 0 <= k < i ==> parser(ty, batch.rows[k][j]).Some?
      invariant |built| == |held| + i && built[..|held|] == data
      invariant forall k :: 0 <= k < i ==> built[|held| + k] == parser(ty, batch.rows[k][j]).value
    {
      var field := batch.GetString2D(i, j);
      var value := parser(ty, field);
      if value.None? {
        return None;
      }
      built := built + [value.value];
    }
    r := Some(built);
  }

  /** The loop over the columns of the cache. */
  method AddToBuilders(batch: VectorOfStrings2D, types: seq<ColumnType>, parser: FieldParser, builders: seq<seq<Value>>,
                       ghost held: seq<seq<Text>>)
    returns (r: Option<seq<seq<Value>>>)
    requires batch.Valid() && batch.line == [] && batch.rows != [] && Rectangular(batch.rows, |types|)
    requires Built(builders, held, types, parser)
    ensures r.Some? <==> AllParse(batch.rows, types, parser)
    ensures r.Some? ==> Built(r.value, held + batch.rows, types, parser)
  {
    var built: seq<seq<Value>> := [];
    for j := 0 to batch.Width()
      invariant |built| == j && forall k :: 0 <= k < j ==>
                  ColumnParses(batch.rows, k, types[k], parser) && BuiltColumn(built[k], held + batch.rows, k, types[k], parser)
    {
      var data := AddBatch(batch, j, types[j], parser, builders[j], held);
      if data.None? {
        return None;
      }
      built := built + [data.value];
    }
    forall i | 0 <= i < |batch.rows| ensures RowParses(batch.rows[i], types, parser) {
      forall j | 0 <= j < |types| ensures parser(types[j], batch.rows[i][j]).Some? {
        assert ColumnParses(batch.rows, j, types[j], parser);
      }
    }
    r := Some(built);
  }

  /** Finish of every builder. */
  method FinishAll(builders: seq<seq<Value>>, types: seq<ColumnType>, parser: FieldParser, ghost held: seq<seq<Text>>)
    returns (columns: seq<Column>)
    requires Built(builders, held, types, parser)
    ensures columns == BatchOf(held, types, parser)
  {
    columns := [];
    for j := 0 to |builders|
      invariant |columns| == j && forall k :: 0 <= k < j ==> columns[k] == Column(types[k], builders[k])
    {
      columns := columns + [Column(types[j], builders[j])];
    }
  }

  // ----- the cache -----

  ghost predicate Widths(rows: seq<seq<Text>>, expected: nat) {
    expected == 0 || Rectangular(rows, expected)
  }

  /** The cache took the first rows, each while it was not full; the others are unread. */
  ghost predicate Cached(cache: seq<seq<Text>>, unread: seq<seq<Text>>, rows: seq<seq<Text>>, expected: nat) {
    rows == cache + unread && Widths(cache, expected) && FilledInTurn(cache)
  }

  lemma OneMoreCached(cache: seq<seq<Text>>, unread: seq<seq<Text>>, rows: seq<seq<Text>>, expected: nat)
    requires Cached(cache, unread, rows, expected) && unread != [] && !CacheFull(cache)
    requires expected == 0 || |unread[0]| == expected
    ensures Cached(cache + [unread[0]], unread[1..], rows, expected)
  {
    var more := cache + [unread[0]];
    forall i | 0 <= i < |more| ensures !CacheFull(more[..i]) {
      assert more[..i] == cache[..i];
      assert cache[..|cache|] == cache;
    }
  }

  lemma BadWidth(cache: seq<seq<Text>>, unread: seq<seq<Text>>, rows: seq<seq<Text>>, expected: nat)
    requires Cached(cache, unread, rows, expected) && unread != [] && expected != 0 && |unread[0]| != expected
    ensures !Widths(rows, expected)
  {
    assert rows[|cache|] == unread[0];
  }

  /** Why the cache was filled no further. */
  ghost predicate FillEnds(cache: seq<seq<Text>>, unread: seq<seq<Text>>, accumulated: nat, atEnd: bool) {
    && accumulated + |cache| <= 8192
    && if atEnd then unread == [] && accumulated + |cache| < 8192 && !CacheFull(cache)
       else CacheFull(cache) || accumulated + |cache| == 8192
  }

  /** The inner loop of WriteToColumnar: rows into the empty cache; Ok(false) if it met the end. */
  method FillCache(reader: CsvReader, batch: VectorOfStrings2D, accumulated: nat) returns (more: Result<bool>, cacheRows: nat)
    requires reader.Valid() && batch.Valid() && batch.rows == [] && batch.line == [] && batch.text == []
    requires accumulated < 8192
    modifies reader.tokenizer, reader.tokenizer.buffer, batch
    ensures reader.Valid() && batch.Valid()
    ensures more.Err? ==> !Widths(old(reader.Remaining()), reader.expectedColumns)
    ensures more.Ok? ==>
              && Cached(batch.rows, reader.Remaining(), old(reader.Remaining()), reader.expectedColumns)
              && cacheRows == |batch.rows| && batch.line == [] && batch.text == []
              && FillEnds(batch.rows, reader.Remaining(), accumulated, !more.value)
  {
    ghost var rows, expected := reader.Remaining(), reader.expectedColumns;
    cacheRows := 0;
    SizeOfCache(batch);
    assert [] + rows == rows;
    while batch.ApproxByteSize() < 0x10_0000 && accumulated + cacheRows < 8192
      invariant reader.Valid() && batch.Valid() && batch.line == [] && batch.text == []
      invariant Cached(batch.rows, reader.Remaining(), rows, expected)
      invariant cacheRows == |batch.rows| && batch.ApproxByteSize() == CacheBytes(batch.rows) && accumulated + cacheRows <= 8192
      decreases 8192 - cacheRows
    {
      ghost var cache, unread := batch.rows, reader.Remaining();
      var next := reader.ReadRow(batch);
      if next.Err? {
        BadWidth(cache, unread, rows, expected);
        return Err(next.error), cacheRows;
      }
      if !next.value {
        return Ok(false), cacheRows;
      }
      OneMoreCached(cache, unread, rows, expected);
      batch.StartNewLine();
      SizeOfCache(batch);
      cacheRows := cacheRows + 1;
    }
    more := Ok(true);
  }

  lemma SizeOfCache(batch: VectorOfStrings2D)
    requires batch.Valid() && batch.line == [] && batch.text == []
    ensures batch.ApproxByteSize() == CacheBytes(batch.rows)
  {
    BytesHeld(batch.data, batch.offsets, Cells(batch.rows, []), []);
  }

  // ----- progress -----

  /**
   The rows are the written chunks, then those held in the builders, then those unread; and what is still to be written
   completes the chunks of the whole.
   */
  ghost predicate Progress(rows: seq<seq<Text>>, written: seq<seq<seq<Text>>>, held: seq<seq<Text>>, unread: seq<seq<Text>>) {
    && |held| < 8192
    && Sequences.Concat(written) + held + unread == rows
    && written + StillWritten(held, unread) == ChunksOf(rows)
  }

  ghost function HeldAfter(held: seq<seq<Text>>, atEnd: bool): seq<seq<Text>> {
    if |held| >= 8192 || atEnd then [] else held
  }

  ghost function WrittenAfter(written: seq<seq<seq<Text>>>, held: seq<seq<Text>>, atEnd: bool): seq<seq<seq<Text>>> {
    if |held| >= 8192 || atEnd then written + [held] else written
  }

  lemma ProgressBegins(rows: seq<seq<Text>>)
    ensures Progress(rows, [], [], rows)
  {
    FromTheStart(rows);
    assert [] + [] + rows == rows;
    assert [] + ChunksOf(rows) == ChunksOf(rows);
  }

  lemma ProgressMoved(rows: seq<seq<Text>>, written: seq<seq<seq<Text>>>, held: seq<seq<Text>>, cache: seq<seq<Text>>,
                      unread: seq<seq<Text>>)
    requires Progress(rows, written, held, cache + unread) && cache != [] && |held| + |cache| < 8192
    requires FilledInTurn(cache) && CacheFull(cache)
    ensures Progress(rows, written, held + cache, unread)
  {
    CacheMoved(held, cache, unread);
    Sequences.Regroup(Sequences.Concat(written) + held, cache, unread);
    Sequences.Regroup(Sequences.Concat(written), held, cache);
  }

  lemma ProgressWritten(rows: seq<seq<Text>>, written: seq<seq<seq<Text>>>, held: seq<seq<Text>>, cache: seq<seq<Text>>,
                        unread: seq<seq<Text>>)
    requires Progress(rows, written, held, cache + unread)
    requires StillWritten(held, cache + unread) == [held + cache] + StillWritten([], unread)
    ensures Progress(rows, written + [held + cache], [], unread)
  {
    var chunk, w := held + cache, Sequences.Concat(written);
    Sequences.ConcatSnoc(written, chunk);
    Sequences.Regroup(w + held, cache, unread);
    Sequences.Regroup(w, held, cache);
    assert w + chunk + [] == w + chunk;
    Sequences.Regroup(written, [chunk], StillWritten([], unread));
  }

  lemma ProgressMade(rows: seq<seq<Text>>, written: seq<seq<seq<Text>>>, held: seq<seq<Text>>, cache: seq<seq<Text>>,
                     unread: seq<seq<Text>>, atEnd: bool)
    requires Progress(rows, written, held, cache + unread) && cache != [] && FilledInTurn(cache)
    requires FillEnds(cache, unread, |held|, atEnd)
    ensures Progress(rows, WrittenAfter(written, held + cache, atEnd), HeldAfter(held + cache, atEnd), unread)
  {
    if |held| + |cache| >= 8192 {
      ChunkReached(held, cache, unread);
      ProgressWritten(rows, written, held, cache, unread);
    } else if atEnd {
      EndReached(held, cache);
      ProgressWritten(rows, written, held, cache, unread);
    } else {
      ProgressMoved(rows, written, held, cache, unread);
    }
  }

  lemma ProgressEnds(rows: seq<seq<Text>>, written: seq<seq<seq<Text>>>, held: seq<seq<Text>>)
    requires Progress(rows, written, held, [])
    ensures written == ChunksOf(rows)
  {
    assert written + [] == written;
  }

  // ----- the conversion -----

  /** Rows of another width are an error, or do not occur. */
  ghost predicate WidthsChecked(rows: seq<seq<Text>>, expected: nat, w: nat) {
    rows == [] || (w > 0 && (expected == w || (expected == 0 && Rectangular(rows, w))))
  }

  /** The writer's batches are these chunks. */
  ghost predicate Holding(writer: ColumnarWriter, names: seq<Text>, types: seq<ColumnType>, parser: FieldParser,
                          written: seq<seq<seq<Text>>>)
    reads writer
  {
    && writer.Valid() && writer.headerWritten && writer.names == names && writer.types == types
    && ChunksParse(written, types, parser) && writer.batches == BatchesOf(written, types, parser)
  }

  method FlushChunk(writer: ColumnarWriter, builders: seq<seq<Value>>, types: seq<ColumnType>, parser: FieldParser,
                    ghost names: seq<Text>, ghost held: seq<seq<Text>>, ghost written: seq<seq<seq<Text>>>)
    requires Holding(writer, names, types, parser, written) && |names| == |types| > 0
    requires Built(builders, held, types, parser) && held != []
    modifies writer
    ensures Holding(writer, names, types, parser, written + [held])
  {
    var columns := FinishAll(builders, types, parser, held);
    if columns != [] && |columns[0].data| > 0 {
      var error := writer.WriteBatch(columns);
    }
    assert BatchesOf(written + [held], types, parser) == BatchesOf(written, types, parser) + [columns];
  }

  /** The flush at the end of WriteToColumnar's loop body. */
  method FlushIfDue(writer: ColumnarWriter, builders: seq<seq<Value>>, accumulated: nat, atEnd: bool, types: seq<ColumnType>,
                    parser: FieldParser, ghost names: seq<Text>, ghost written: seq<seq<seq<Text>>>, ghost held: seq<seq<Text>>)
    returns (left: seq<seq<Value>>, total: nat)
    requires Holding(writer, names, types, parser, written) && |names| == |types| > 0
    requires Built(builders, held, types, parser) && accumulated == |held| > 0
    modifies writer
    ensures total == |HeldAfter(held, atEnd)| && Built(left, HeldAfter(held, atEnd), types, parser)
    ensures Holding(writer, names, types, parser, WrittenAfter(written, held, atEnd))
  {
    if accumulated >= 8192 || atEnd {
      FlushChunk(writer, builders, types, parser, names, held, written);
      left := EmptyBuilders(types, parser);
      total := 0;
    } else {
      left, total := builders, accumulated;
    }
  }

  method OpenFile(names: seq<Text>, types: seq<ColumnType>, ghost parser: FieldParser) returns (writer: ColumnarWriter)
    requires |names| == |types|
    ensures fresh(writer) && Holding(writer, names, types, parser, [])
  {
    writer := new ColumnarWriter();
    var error := writer.WriteHeader(names, types);
    assert BatchesOf([], types, parser) == [];
  }

  /** The file holds exactly the chunks of the rows. */
  ghost predicate Converted(file: seq<Byte>, names: seq<Text>, types: seq<ColumnType>, rows: seq<seq<Text>>,
                            parser: FieldParser)
    requires |names| == |types|
  {
    && ChunksParse(ChunksOf(rows), types, parser)
    && file == FileBytes(names, types, BatchesOf(ChunksOf(rows), types, parser))
  }

  method CloseFile(writer: ColumnarWriter, ghost names: seq<Text>, ghost types: seq<ColumnType>, ghost parser: FieldParser,
                   ghost rows: seq<seq<Text>>, ghost written: seq<seq<seq<Text>>>, ghost held: seq<seq<Text>>)
    returns (file: seq<Byte>)
    requires Holding(writer, names, types, parser, written) && |names| == |types|
    requires Progress(rows, written, held, [])
    modifies writer
    ensures Converted(file, names, types, rows, parser)
  {
    ProgressEnds(rows, written, held);
    var error := writer.Finalize();
    file := writer.file;
  }

  method EmptyBuilders(types: seq<ColumnType>, ghost parser: FieldParser) returns (builders: seq<seq<Value>>)
    ensures Built(builders, [], types, parser)
  {
    builders := seq(|types|, _ => []);
  }

  lemma SomeRowFails(rows: seq<seq<Text>>, expected: nat, types: seq<ColumnType>, parser: FieldParser)
    requires !Widths(rows, expected) && WidthsChecked(rows, expected, |types|)
    ensures !AllParse(rows, types, parser)
  {
    var i :| 0 <= i < |rows| && |rows[i]| != expected;
    assert !RowParses(rows[i], types, parser);
  }

  lemma RightWidths(cache: seq<seq<Text>>, unread: seq<seq<Text>>, rows: seq<seq<Text>>, expected: nat, w: nat)
    requires Cached(cache, unread, rows, expected) && WidthsChecked(rows, expected, w)
    ensures Rectangular(cache, w) && WidthsChecked(unread, expected, w)
  {
    forall i | 0 <= i < |cache| ensures rows[i] == cache[i] {}
    forall i | 0 <= i < |unread| ensures rows[|cache| + i] == unread[i] {}
  }

  lemma NothingTaken(unread: seq<seq<Text>>, accumulated: nat, atEnd: bool)
    requires accumulated < 8192 && FillEnds([], unread, accumulated, atEnd)
    ensures unread == []
  {
    NothingFillsNothing();
  }

  /** The part of WriteToColumnar's loop up to the check for an empty cache. */
  method NextCache(reader: CsvReader, batch: VectorOfStrings2D, accumulated: nat, ghost types: seq<ColumnType>,
                   ghost parser: FieldParser)
    returns (more: Result<bool>)
    requires reader.Valid() && accumulated < 8192
    requires WidthsChecked(reader.Remaining(), reader.expectedColumns, |types|)
    modifies reader.tokenizer, reader.tokenizer.buffer, batch
    ensures reader.Valid() && batch.Valid()
    ensures more.Err? ==> !AllParse(old(reader.Remaining()), types, parser)
    ensures more.Ok? ==>
              && old(reader.Remaining()) == batch.rows + reader.Remaining() && FilledInTurn(batch.rows)
              && Rectangular(batch.rows, |types|) && WidthsChecked(reader.Remaining(), reader.expectedColumns, |types|)
              && FillEnds(batch.rows, reader.Remaining(), accumulated, !more.value) && batch.line == []
              && (batch.rows == [] ==> reader.Remaining() == [])
              && (AllParse(old(reader.Remaining()), types, parser)
                  <==> AllParse(batch.rows, types, parser) && AllParse(reader.Remaining(), types, parser))
  {
    ghost var rows := reader.Remaining();
    batch.Clear();
    var cacheRows;
    more, cacheRows := FillCache(reader, batch, accumulated);
    if more.Err? {
      SomeRowFails(rows, reader.expectedColumns, types, parser);
    } else {
      ParsedSoFar(batch.rows, reader.Remaining(), types, parser);
      RightWidths(batch.rows, reader.Remaining(), rows, reader.expectedColumns, |types|);
      if batch.rows == [] {
        NothingTaken(reader.Remaining(), accumulated, !more.value);
      }
    }
  }

  lemma ParsedSoFar(cache: seq<seq<Text>>, unread: seq<seq<Text>>, types: seq<ColumnType>, parser: FieldParser)
    ensures AllParse(cache + unread, types, parser) <==> AllParse(cache, types, parser) && AllParse(unread, types, parser)
  {
    var rows := cache + unread;
    forall i | 0 <= i < |cache| ensures rows[i] == cache[i] {}
    forall i | 0 <= i < |unread| ensures rows[|cache| + i] == unread[i] {}
  }

  /** The part of WriteToColumnar's loop behind that check. */
  method Absorb(batch: VectorOfStrings2D, atEnd: bool, writer: ColumnarWriter, builders: seq<seq<Value>>, accumulated: nat,
                types: seq<ColumnType>, parser: FieldParser, ghost names: seq<Text>, ghost rows: seq<seq<Text>>,
                ghost written: seq<seq<seq<Text>>>, ghost held: seq<seq<Text>>, ghost unread: seq<seq<Text>>)
    returns (left: Option<seq<seq<Value>>>, total: nat, ghost written': seq<seq<seq<Text>>>, ghost held': seq<seq<Text>>)
    requires batch.Valid() && batch.line == [] && batch.rows != [] && |names| == |types| > 0
    requires Rectangular(batch.rows, |types|) && FilledInTurn(batch.rows) && Progress(rows, written, held, batch.rows + unread)
    requires Holding(writer, names, types, parser, written) && Built(builders, held, types, parser) && accumulated == |held|
    requires FillEnds(batch.rows, unread, accumulated, atEnd)
    modifies writer
    ensures left.Some? <==> AllParse(batch.rows, types, parser)
    ensures left.Some? ==>
              && Progress(rows, written', held', unread) && total == |held'|
              && Holding(writer, names, types, parser, written') && Built(left.value, held', types, parser)
  {
    ghost var all := held + batch.rows;
    ProgressMade(rows, written, held, batch.rows, unread, atEnd);
    total, written', held' := 0, WrittenAfter(written, all, atEnd), HeldAfter(all, atEnd);
    left := AddToBuilders(batch, types, parser, builders, held);
    if left.Some? {
      var built;
      built, total := FlushIfDue(writer, left.value, accumulated + batch.Height(), atEnd, types, parser, names, written, all);
      left := Some(built);
    }
  }

  /** What the loop of WriteToColumnar keeps, in values: the rows that count are unread, and the others on their way. */
  ghost predicate Underway(rows: seq<seq<Text>>, written: seq<seq<seq<Text>>>, held: seq<seq<Text>>, unread: seq<seq<Text>>,
                           builders: seq<seq<Value>>, accumulated: nat, types: seq<ColumnType>, parser: FieldParser)
  {
    && Progress(rows, written, held, unread) && Built(builders, held, types, parser) && accumulated == |held|
    && (AllParse(rows, types, parser) <==> AllParse(unread, types, parser))
  }

  /** One turn of the loop; Ok(true) if there is another one. */
  method Turn(reader: CsvReader, batch: VectorOfStrings2D, writer: ColumnarWriter, builders: seq<seq<Value>>, accumulated: nat,
              types: seq<ColumnType>, parser: FieldParser, ghost names: seq<Text>, ghost rows: seq<seq<Text>>,
              ghost written: seq<seq<seq<Text>>>, ghost held: seq<seq<Text>>)
    returns (more: Result<bool>, left: seq<seq<Value>>, total: nat, ghost written': seq<seq<seq<Text>>>, ghost held': seq<seq<Text>>)
    requires reader.Valid() && WidthsChecked(reader.Remaining(), reader.expectedColumns, |types|) && |names| == |types|
    requires Underway(rows, written, held, reader.Remaining(), builders, accumulated, types, parser)
    requires Holding(writer, names, types, parser, written)
    modifies reader.tokenizer, reader.tokenizer.buffer, batch, writer
    ensures reader.Valid()
    ensures more.Err? ==> !AllParse(rows, types, parser)
    ensures more.Ok? ==>
              && Underway(rows, written', held', reader.Remaining(), left, total, types, parser)
              && Holding(writer, names, types, parser, written')
              && WidthsChecked(reader.Remaining(), reader.expectedColumns, |types|)
    ensures more == Ok(true) ==> |reader.Remaining()| < |old(reader.Remaining())|
    ensures more == Ok(false) ==> reader.Remaining() == []
  {
    left, total, written', held' := builders, accumulated, written, held;
    ghost var unread := reader.Remaining();
    more := NextCache(reader, batch, accumulated, types, parser);
    if more.Err? {
      return;
    }
    if batch.Height() == 0 {
      more := Ok(false);
      return;
    }
    var added;
    CacheFollows(rows, written, held, unread, batch.rows, reader.Remaining(), builders, accumulated, types, parser);
    added, total, written', held' :=
      AbsorbTurn(batch, !more.value, writer, builders, accumulated, types, parser, names, rows, written, held, reader.Remaining());
    if added.None? {
      more := Err("Invalid value");
      return;
    }
    left := added.value;
  }

  /** What a filled cache is to the rows under way. */
  lemma CacheFollows(rows: seq<seq<Text>>, written: seq<seq<seq<Text>>>, held: seq<seq<Text>>, before: seq<seq<Text>>, cache: seq<seq<Text>>,
                     unread: seq<seq<Text>>, builders: seq<seq<Value>>, accumulated: nat, types: seq<ColumnType>, parser: FieldParser)
    requires Underway(rows, written, held, before, builders, accumulated, types, parser) && before == cache + unread
    requires AllParse(before, types, parser) <==> AllParse(cache, types, parser) && AllParse(unread, types, parser)
    ensures Progress(rows, written, held, cache + unread) && Built(builders, held, types, parser) && accumulated == |held|
    ensures AllParse(rows, types, parser) <==> AllParse(cache, types, parser) && AllParse(unread, types, parser)
  {
  }

  /** The cache is absorbed, or does not parse. */
  method AbsorbTurn(batch: VectorOfStrings2D, atEnd: bool, writer: ColumnarWriter, builders: seq<seq<Value>>, accumulated: nat,
                    types: seq<ColumnType>, parser: FieldParser, ghost names: seq<Text>, ghost rows: seq<seq<Text>>,
                    ghost written: seq<seq<seq<Text>>>, ghost held: seq<seq<Text>>, ghost unread: seq<seq<Text>>)
    returns (left: Option<seq<seq<Value>>>, total: nat, ghost written': seq<seq<seq<Text>>>, ghost held': seq<seq<Text>>)
    requires batch.Valid() && batch.line == [] && batch.rows != [] && |names| == |types| > 0
    requires Rectangular(batch.rows, |types|) && FilledInTurn(batch.rows) && Progress(rows, written, held, batch.rows + unread)
    requires Holding(writer, names, types, parser, written) && Built(builders, held, types, parser) && accumulated == |held|
    requires FillEnds(batch.rows, unread, accumulated, atEnd)
    requires AllParse(rows, types, parser) <==> AllParse(batch.rows, types, parser) && AllParse(unread, types, parser)
    modifies writer
    ensures left.None? ==> !AllParse(rows, types, parser)
    ensures left.Some? ==>
              Underway(rows, written', held', unread, left.value, total, types, parser)
              && Holding(writer, names, types, parser, written')
  {
    left, total, written', held' := Absorb(batch, atEnd, writer, builders, accumulated, types, parser, names, rows, written, held, unread);
  }

  /**
   WriteToColumnar succeeds exactly when every row parses, and then writes exactly the chunks of the rows.
   */
  method WriteToColumnar(names: seq<Text>, types: seq<ColumnType>, reader: CsvReader, parser: FieldParser)
    returns (file: Result<seq<Byte>>)
    requires reader.Valid() && |names| == |types|
    requires WidthsChecked(reader.Remaining(), reader.expectedColumns, |types|)
    modifies reader.tokenizer, reader.tokenizer.buffer
    ensures file.Ok? <==> AllParse(old(reader.Remaining()), types, parser)
    ensures file.Ok? ==> Converted(file.value, names, types, old(reader.Remaining()), parser)
  {
    ghost var rows := reader.Remaining();
    ghost var held: seq<seq<Text>>, written: seq<seq<seq<Text>>> := [], [];
    var writer := OpenFile(names, types, parser);
    var batch := new VectorOfStrings2D();
    var builders := EmptyBuilders(types, parser);
    var accumulated, endFlag := 0, true;
    ProgressBegins(rows);
    while endFlag
      invariant reader.Valid() && fresh(writer) && fresh(batch)
      invariant WidthsChecked(reader.Remaining(), reader.expectedColumns, |types|)
      invariant Underway(rows, written, held, reader.Remaining(), builders, accumulated, types, parser)
      invariant Holding(writer, names, types, parser, written)
      invariant !endFlag ==> reader.Remaining() == []
      decreases |reader.Remaining()|, endFlag
    {
      var more;
      more, builders, accumulated, written, held :=
        Turn(reader, batch, writer, builders, accumulated, types, parser, names, rows, written, held);
      if more.Err? {
        return Err(more.error);
      }
      endFlag := more.value;
    }
    var bytes := CloseFile(writer, names, types, parser, rows, written, held);
    file := Ok(bytes);
  }

  const COMMA: Byte := 44

  /** CsvToColumnar::Convert: the header line gives the columns, all other lines the rows. */
  method Convert(content: seq<Byte>, bufferSize: nat, parser: FieldParser) returns (file: Result<seq<Byte>>)
    requires bufferSize > 0
    ensures var header, body := HeaderOf(TextRows(content, COMMA)), BodyOf(TextRows(content, COMMA));
            && (file.Ok? <==> HeaderParses(header) && AllParse(body, HeaderTypes(header), parser))
            && (file.Ok? ==> Converted(file.value, HeaderNames(header), HeaderTypes(header), body, parser))
  {
    var reader := new CsvReader(content, bufferSize, COMMA);
    var headerNames := new VectorOfStrings();
    var types := reader.ReadHeader(headerNames);
    if types.Err? {
      return Err(types.error);
    }
    var names := NamesIn(headerNames);
    file := WriteToColumnar(names, types.value, reader, parser);
  }

  /** The names that WriteHeader takes out of their vector. */
  method NamesIn(vector: VectorOfStrings) returns (names: seq<Text>)
    requires vector.Valid()
    ensures names == vector.strings
  {
    names := [];
    for i := 0 to vector.Size()
      invariant names == vector.strings[..i]
    {
      var name := vector.GetString(i);
      names := names + [name];
    }
  }
}
