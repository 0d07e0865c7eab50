/**
 ColumnarWriter and ColumnarReader (src/io/ColumnarWriter.cpp, src/io/ColumnarReader.cpp): the writer builds the file
 of FileLayout step by step, and the reader gets back every name, type, count and chunk.
 */
module ColumnarFile {
  import opened Values
  import opened Wrappers
  import opened Batches
  import opened ColumnCodes
  import opened FileLayout
  import Bytes
  import Sequences

  // ----- what the writer's metadata must be -----

  ghost function Offsets(batches: seq<seq<Column>>, i: nat): (r: seq<nat>)
    requires forall j :: 0 <= j < |batches| ==> i < |batches[j]|
    ensures |r| == |batches|
  {
    seq(|batches|, j requires 0 <= j < |batches| => OffsetOf(batches, j, i))
  }

  ghost function Sizes(batches: seq<seq<Column>>, i: nat): (r: seq<nat>)
    requires forall j :: 0 <= j < |batches| ==> i < |batches[j]|
    ensures |r| == |batches|
  {
    seq(|batches|, j requires 0 <= j < |batches| => SizeOf(batches, j, i))
  }

  ghost function MetaOf(name: seq<Byte>, ty: ColumnType, batches: seq<seq<Column>>, i: nat): (m: ColumnMeta)
    requires forall j :: 0 <= j < |batches| ==> i < |batches[j]|
    ensures |m.offsets| == |m.sizes| == |batches|
  {
    ColumnMeta(name, Tag(ty), Offsets(batches, i), Sizes(batches, i))
  }

  /** Every batch has a column of the right type for each name. */
  ghost predicate Shaped(types: seq<ColumnType>, batches: seq<seq<Column>>) {
    forall j :: 0 <= j < |batches| ==>
      |batches[j]| == |types| && forall i :: 0 <= i < |types| ==> batches[j][i].ty == types[i]
  }

  ghost predicate MetasOk(metas: seq<ColumnMeta>, names: seq<seq<Byte>>, types: seq<ColumnType>, batches: seq<seq<Column>>) {
    && |metas| == |names| == |types| && Shaped(types, batches)
    && forall i :: 0 <= i < |metas| ==> metas[i] == MetaOf(names[i], types[i], batches, i)
  }

  function RowsIn(batches: seq<seq<Column>>): nat {
    if batches == [] then 0
    else
      var last := batches[|batches| - 1];
      RowsIn(batches[..|batches| - 1]) + if last == [] then 0 else |last[0].data|
  }

  lemma RowsInSnoc(batches: seq<seq<Column>>, columns: seq<Column>)
    ensures RowsIn(batches + [columns]) == RowsIn(batches) + if columns == [] then 0 else |columns[0].data|
  {
    Sequences.TakeDrop(batches, [columns]);
  }

  ghost function Metas(names: seq<seq<Byte>>, types: seq<ColumnType>, batches: seq<seq<Column>>): (metas: seq<ColumnMeta>)
    requires |names| == |types| && Shaped(types, batches)
    ensures MetasOk(metas, names, types, batches) && Even(metas)
  {
    seq(|names|, i requires 0 <= i < |names| => MetaOf(names[i], types[i], batches, i))
  }

  /** The finished file. */
  ghost function FileBytes(names: seq<seq<Byte>>, types: seq<ColumnType>, batches: seq<seq<Column>>): seq<Byte>
    requires |names| == |types| && Shaped(types, batches)
  {
    MAGIC + BodyBytes(batches) + TableBytes(Metas(names, types, batches)) + Trailer(RowsIn(batches), 4 + |BodyBytes(batches)|)
  }

  /** One more chunk per column. */
  ghost function Extended(m: ColumnMeta, offset: nat, size: nat): ColumnMeta {
    m.(offsets := m.offsets + [offset], sizes := m.sizes + [size])
  }

  lemma OffsetsSnoc(batches: seq<seq<Column>>, b: seq<Column>, i: nat)
    requires i < |b| && forall j :: 0 <= j < |batches| ==> i < |batches[j]|
    ensures Offsets(batches + [b], i) == Offsets(batches, i) + [4 + |BodyBytes(batches)| + |BatchBytes(b[..i])|]
  {
    var all := batches + [b];
    assert all[..|batches|] == batches;
    forall j | 0 <= j < |batches| ensures OffsetOf(all, j, i) == OffsetOf(batches, j, i) {
      assert all[..j] == batches[..j];
    }
  }

  lemma SizesSnoc(batches: seq<seq<Column>>, b: seq<Column>, i: nat)
    requires i < |b| && forall j :: 0 <= j < |batches| ==> i < |batches[j]|
    ensures Sizes(batches + [b], i) == Sizes(batches, i) + [|ColumnBytes(b[i].data, b[i].ty)|]
  {
  }

  lemma MetaSnoc(name: seq<Byte>, ty: ColumnType, batches: seq<seq<Column>>, b: seq<Column>, i: nat)
    requires i < |b| && forall j :: 0 <= j < |batches| ==> i < |batches[j]|
    ensures MetaOf(name, ty, batches + [b], i)
         == Extended(MetaOf(name, ty, batches, i), 4 + |BodyBytes(batches)| + |BatchBytes(b[..i])|, |ColumnBytes(b[i].data, b[i].ty)|)
  {
    OffsetsSnoc(batches, b, i);
    SizesSnoc(batches, b, i);
  }

  /** The metadata of column i with one more chunk. */
  lemma MetaGrows(metadata: seq<ColumnMeta>, names: seq<seq<Byte>>, types: seq<ColumnType>, batches: seq<seq<Column>>, b: seq<Column>, i: nat)
    requires MetasOk(metadata, names, types, batches) && i < |b| == |metadata|
    ensures MetaOf(names[i], types[i], batches + [b], i)
         == Extended(metadata[i], 4 + |BodyBytes(batches)| + |BatchBytes(b[..i])|, |ColumnBytes(b[i].data, b[i].ty)|)
  {
    MetaSnoc(names[i], types[i], batches, b, i);
  }

  // ----- the writer -----

  class ColumnarWriter {
    var file: seq<Byte>
    var metadata: seq<ColumnMeta>
    var types: seq<ColumnType>
    var headerWritten: bool
    var currentOffset: nat
    var numRows: nat
    ghost var names: seq<seq<Byte>>
    ghost var batches: seq<seq<Column>>

    ghost predicate Valid()
      reads this
    {
      if headerWritten then
        && file == MAGIC + BodyBytes(batches) && currentOffset == |file|
        && MetasOk(metadata, names, types, batches) && numRows == RowsIn(batches)
      else
        file == [] && metadata == [] && batches == [] && currentOffset == 0 && numRows == 0
    }

    constructor ()
      ensures Valid() && !headerWritten && batches == []
    {
      file, metadata, types, headerWritten, currentOffset, numRows := [], [], [], false, 0, 0;
      names, batches := [], [];
    }

    method WriteHeader(columnNames: seq<seq<Byte>>, columnTypes: seq<ColumnType>) returns (error: Option<string>)
      requires Valid() && |columnTypes| == |columnNames|
      modifies this
      ensures Valid() && (error.Some? <==> old(headerWritten))
      ensures error.Some? ==> unchanged(this)
      ensures error.None? ==> headerWritten && batches == [] && names == columnNames && types == columnTypes
    {
      if headerWritten {
        return Some("Header already written");
      }
      file := MAGIC;
      currentOffset := 4;
      var metas: seq<ColumnMeta> := [];
      for i := 0 to |columnNames|
        invariant |metas| == i
        invariant forall k :: 0 <= k < i ==> metas[k] == ColumnMeta(columnNames[k], Tag(columnTypes[k]), [], [])
      {
        metas := metas + [ColumnMeta(columnNames[i], Tag(columnTypes[i]), [], [])];
      }
      metadata := metas;
      types := columnTypes;
      headerWritten := true;
      names, batches := columnNames, [];
      assert BodyBytes([]) == [];
      error := None;
    }

    /** WriteBatch: each column's chunk goes to the end of the file, and its place into the metadata. */
    method WriteBatch(columns: seq<Column>) returns (error: Option<string>)
      requires Valid()
      requires headerWritten && |columns| == |metadata| ==> forall i :: 0 <= i < |columns| ==> columns[i].ty == types[i]
      modifies this
      ensures Valid() && (error.Some? <==> !old(headerWritten) || |columns| != |old(metadata)|)
      ensures error.Some? ==> unchanged(this)
      ensures error.None? ==> batches == old(batches) + [columns] && names == old(names) && types == old(types) && headerWritten
    {
      if !headerWritten {
        return Some("Header must be written before writing batches");
      }
      if |columns| != |metadata| {
        return Some("Number of columns does not match metadata");
      }
      var file', metas, offset := AppendChunks(file, metadata, currentOffset, types, columns, names, batches);
      var more := if columns != [] then |columns[0].data| else 0;
      RowsInSnoc(batches, columns);
      file, metadata, currentOffset, numRows, batches := file', metas, offset, numRows + more, batches + [columns];
      error := None;
    }

    /** Finalize: the footer behind the chunks. */
    method Finalize() returns (error: Option<string>)
      requires Valid()
      modifies this`file
      ensures error.Some? <==> !headerWritten
      ensures error.Some? ==> file == old(file)
      ensures error.None? ==>
                |names| == |types| && Shaped(types, batches) && file == FileBytes(names, types, batches)
    {
      if !headerWritten {
        return Some("Header must be written before finalizing");
      }
      var metadataStart := currentOffset;
      assert metadata == Metas(names, types, batches);
      var table := WriteTable(metadata);
      file := file + table;
      file := file + Trailer(numRows, metadataStart);
      error := None;
    }
  }

  /** What the metadata of column i becomes, as one element of what is wanted. */
  lemma NextMeta(metadata: seq<ColumnMeta>, wanted: seq<ColumnMeta>, names: seq<seq<Byte>>, types: seq<ColumnType>,
                 batches: seq<seq<Column>>, b: seq<Column>, i: nat)
    requires MetasOk(metadata, names, types, batches) && MetasOk(wanted, names, types, batches + [b])
    requires i < |b| == |metadata|
    ensures wanted[..i + 1]
         == wanted[..i] + [Extended(metadata[i], 4 + |BodyBytes(batches)| + |BatchBytes(b[..i])|, |ColumnBytes(b[i].data, b[i].ty)|)]
  {
    MetaGrows(metadata, names, types, batches, b, i);
    Sequences.PrefixSnoc(wanted, i);
  }

  /** The loop of WriteBatch. */
  method AppendChunks(file: seq<Byte>, metadata: seq<ColumnMeta>, start: nat, types: seq<ColumnType>, columns: seq<Column>,
                      ghost names: seq<seq<Byte>>, ghost batches: seq<seq<Column>>)
    returns (file': seq<Byte>, metas: seq<ColumnMeta>, offset: nat)
    requires file == MAGIC + BodyBytes(batches) && start == |file| && MetasOk(metadata, names, types, batches)
    requires |columns| == |metadata| && forall i :: 0 <= i < |columns| ==> columns[i].ty == types[i]
    ensures file' == MAGIC + BodyBytes(batches + [columns]) && offset == |file'|
    ensures MetasOk(metas, names, types, batches + [columns])
  {
    file', metas, offset := file, [], start;
    ghost var wanted := Metas(names, types, batches + [columns]);
    for i := 0 to |columns|
      invariant file' == file + BatchBytes(columns[..i]) && offset == start + |BatchBytes(columns[..i])| && metas == wanted[..i]
    {
      var chunk := WriteColumn(columns[i].data, columns[i].ty);
      ChunkAppended(file, columns, i);
      NextMeta(metadata, wanted, names, types, batches, columns, i);
      metas := metas + [metadata[i].(offsets := metadata[i].offsets + [offset], sizes := metadata[i].sizes + [|chunk|])];
      file' := file' + chunk;
      offset := offset + |chunk|;
    }
    AllAppended(batches, columns);
    assert wanted[..|columns|] == wanted;
  }

  lemma ChunkAppended(file: seq<Byte>, columns: seq<Column>, i: nat)
    requires i < |columns|
    ensures file + BatchBytes(columns[..i]) + ColumnBytes(columns[i].data, columns[i].ty) == file + BatchBytes(columns[..i + 1])
    ensures |BatchBytes(columns[..i + 1])| == |BatchBytes(columns[..i])| + |ColumnBytes(columns[i].data, columns[i].ty)|
  {
    BatchBytesSnoc(columns, i);
    Sequences.Regroup(file, BatchBytes(columns[..i]), ColumnBytes(columns[i].data, columns[i].ty));
  }

  lemma AllAppended(batches: seq<seq<Column>>, columns: seq<Column>)
    ensures columns[..|columns|] == columns
    ensures MAGIC + BodyBytes(batches) + BatchBytes(columns) == MAGIC + BodyBytes(batches + [columns])
  {
    BodyBytesSnoc(batches, columns);
    Sequences.Regroup(MAGIC, BodyBytes(batches), BatchBytes(columns));
  }

  /** WriteMetadata's column table. */
  method WriteTable(metas: seq<ColumnMeta>) returns (r: seq<Byte>)
    requires Even(metas)
    ensures r == TableBytes(metas)
  {
    r := Bytes.Encode(|metas|, 4);
    assert metas[0..] == metas;
    for i := 0 to |metas|
      invariant r + AllMetaBytes(metas[i..]) == TableBytes(metas)
    {
      assert metas[i..][1..] == metas[i + 1..];
      Sequences.Regroup(r, MetaBytes(metas[i]), AllMetaBytes(metas[i + 1..]));
      r := r + MetaBytes(metas[i]);
    }
  }

  // ----- the reader -----

  /** An unsigned integer at a running offset. */
  method ReadInt(buffer: seq<Byte>, offset: nat, w: nat) returns (value: Option<nat>, next: nat)
    requires offset <= |buffer|
    ensures next <= |buffer| && (value.None? <==> TakeInt(buffer[offset..], w).None?)
    ensures value.Some? ==> TakeInt(buffer[offset..], w) == Some((value.value, buffer[next..]))
  {
    next := offset;
    if offset + w > |buffer| {
      return None, offset;
    }
    assert buffer[offset..][..w] == buffer[offset..offset + w] && buffer[offset..][w..] == buffer[offset + w..];
    value, next := Some(Bytes.Decode(buffer[offset..offset + w])), offset + w;
  }

  /** The inner loop of ParseMetadata. */
  method ReadChunks(buffer: seq<Byte>, offset: nat, n: nat) returns (places: Option<(seq<nat>, seq<nat>)>, next: nat)
    requires offset <= |buffer|
    ensures next <= |buffer| && (places.None? <==> ParseChunks(buffer[offset..], n, [], []).None?)
    ensures places.Some? ==> ParseChunks(buffer[offset..], n, [], []) == Some((places.value.0, places.value.1, buffer[next..]))
  {
    next := offset;
    var offsets: seq<nat>, sizes: seq<nat> := [], [];
    for j := 0 to n
      invariant next <= |buffer|
      invariant ParseChunks(buffer[offset..], n, [], []) == ParseChunks(buffer[next..], n - j, offsets, sizes)
    {
      var at, afterAt := ReadInt(buffer, next, 8);
      if at.None? {
        return None, next;
      }
      var size, afterSize := ReadInt(buffer, afterAt, 8);
      if size.None? {
        return None, next;
      }
      offsets, sizes, next := offsets + [at.value], sizes + [size.value], afterSize;
    }
    places := Some((offsets, sizes));
  }

  /** One turn of the outer loop of ParseMetadata. */
  method ReadColumnMeta(buffer: seq<Byte>, offset: nat) returns (meta: Option<ColumnMeta>, next: nat)
    requires offset <= |buffer|
    ensures next <= |buffer| && (meta.None? <==> ParseColumn(buffer[offset..]).None?)
    ensures meta.Some? ==> ParseColumn(buffer[offset..]) == Some((meta.value, buffer[next..]))
  {
    var length, start := ReadInt(buffer, offset, 4);
    if length.None? {
      return None, offset;
    }
    var n := length.value;
    if start + n + 1 > |buffer| {
      return None, offset;
    }
    ghost var s := buffer[start..];
    var name, tag := buffer[start..start + n], buffer[start + n];
    assert s[..n] == name && s[n] == tag && s[n + 1..] == buffer[start + n + 1..];
    var count, table := ReadInt(buffer, start + n + 1, 4);
    if count.None? {
      return None, offset;
    }
    var places, end := ReadChunks(buffer, table, count.value);
    if places.None? {
      return None, offset;
    }
    meta, next := Some(ColumnMeta(name, tag, places.value.0, places.value.1)), end;
  }

  method ReadTable(buffer: seq<Byte>) returns (metas: Option<seq<ColumnMeta>>)
    ensures metas == ParseTable(buffer)
  {
    assert buffer[0..] == buffer;
    var count, offset := ReadInt(buffer, 0, 4);
    if count.None? {
      return None;
    }
    metas := ReadColumns(buffer, offset, count.value);
  }

  /** The loop over the columns. */
  method ReadColumns(buffer: seq<Byte>, start: nat, count: nat) returns (metas: Option<seq<ColumnMeta>>)
    requires start <= |buffer|
    ensures metas == ParseColumns(buffer[start..], count, [])
  {
    var offset, read: seq<ColumnMeta> := start, [];
    for i := 0 to count
      invariant 0 <= offset <= |buffer|
      invariant ParseColumns(buffer[start..], count, []) == ParseColumns(buffer[offset..], count - i, read)
    {
      var meta, next := ReadColumnMeta(buffer, offset);
      if meta.None? {
        return None;
      }
      read, offset := read + [meta.value], next;
    }
    metas := Some(read);
  }

  /** MetadataTable::ParseMetadata: from the trailer at the end of the file to the table it points at. */
  method ParseMetadata(file: seq<Byte>) returns (footer: Result<Footer>)
    ensures footer == ParseFile(file)
  {
    var n := |file|;
    if n < 24 {
      return Err("File is too small to contain a valid footer");
    }
    if file[n - 4..] != MAGIC {
      return Err("Invalid file footer magic");
    }
    var numRows, start := Bytes.Decode(file[n - 20..n - 12]), Bytes.Decode(file[n - 12..n - 4]);
    if start > n - 20 {
      return Err("metadata start out of range");
    }
    var metas := ReadTable(file[start..n - 20]);
    footer := if metas.None? then Err("read past the end") else Ok(Footer(metas.value, numRows));
  }

  /** ReadRawColumnData and GetColumnData. */
  function Chunk(file: seq<Byte>, footer: Footer, i: nat, j: nat): Result<Column> {
    if i >= |footer.columns| then Err("Column index out of range")
    else
      var m := footer.columns[i];
      if j >= |m.offsets| || j >= |m.sizes| then Err("Chunk index out of range")
      else if m.offsets[j] + m.sizes[j] > |file| then Err("Failed to read data")
      else
        match TypeOfTag(m.tag)
        case None => Err("Unknown column type")
        case Some(ty) => DecodeColumn(file[m.offsets[j]..m.offsets[j] + m.sizes[j]], ty)
  }

  method GetColumnData(file: seq<Byte>, footer: Footer, i: nat, j: nat) returns (r: Result<Column>)
    ensures r == Chunk(file, footer, i, j)
  {
    if i >= |footer.columns| {
      return Err("Column index out of range");
    }
    var m := footer.columns[i];
    if j >= |m.offsets| || j >= |m.sizes| {
      return Err("Chunk index out of range");
    }
    if m.offsets[j] + m.sizes[j] > |file| {
      return Err("Failed to read data");
    }
    var raw := file[m.offsets[j]..m.offsets[j] + m.sizes[j]];
    var ty := TypeOfTag(m.tag);
    if ty.None? {
      return Err("Unknown column type");
    }
    r := ReadColumn(raw, ty.value);
  }

  // ----- the round trip -----

  /** Names, counts and lengths fit the fields they are stored in. */
  ghost predicate Fits(names: seq<seq<Byte>>, batches: seq<seq<Column>>, file: seq<Byte>) {
    && |names| < TWO_32 && (forall i :: 0 <= i < |names| ==> |names[i]| < TWO_32) && |batches| < TWO_32
    && RowsIn(batches) < TWO_64 && |file| < TWO_64
    && forall j, i :: 0 <= j < |batches| && 0 <= i < |batches[j]| ==> Storable(batches[j][i].data, batches[j][i].ty)
  }

  lemma MetaFitsFile(names: seq<seq<Byte>>, types: seq<ColumnType>, batches: seq<seq<Column>>, i: nat, file: seq<Byte>)
    requires i < |names| == |types| && Shaped(types, batches) && Fits(names, batches, file)
    requires 4 + |BodyBytes(batches)| <= |file|
    ensures MetaFits(MetaOf(names[i], types[i], batches, i))
  {
    Bytes.Widths();
    forall j | 0 <= j < |batches|
      ensures OffsetOf(batches, j, i) < Bytes.Pow256(8) && SizeOf(batches, j, i) < Bytes.Pow256(8)
    {
      ChunkAt(batches, j, i, []);
    }
  }

  /** The reader sees these names, types, row count and chunks. */
  ghost predicate ReadsAs(file: seq<Byte>, names: seq<seq<Byte>>, types: seq<ColumnType>, batches: seq<seq<Column>>) {
    && ParseFile(file).Ok?
    && var footer := ParseFile(file).value;
    && |footer.columns| == |names| == |types| && footer.numRows == RowsIn(batches)
    && (forall i :: 0 <= i < |names| ==>
          && footer.columns[i].name == names[i] && TypeOfTag(footer.columns[i].tag) == Some(types[i])
          && |footer.columns[i].offsets| == |footer.columns[i].sizes| == |batches|)
    && forall i, j :: 0 <= i < |names| && 0 <= j < |batches| ==>
         i < |batches[j]| && Chunk(file, footer, i, j) == Ok(batches[j][i])
  }

  /**
   Reading a finished file gives back everything written: the names and types, the row count, the chunk table, and
   for every column and batch exactly that column.
   */
  lemma FileRoundTrip(names: seq<seq<Byte>>, types: seq<ColumnType>, batches: seq<seq<Column>>)
    requires |names| == |types| && Shaped(types, batches) && Fits(names, batches, FileBytes(names, types, batches))
    ensures ParseFile(FileBytes(names, types, batches)) == Ok(Footer(Metas(names, types, batches), RowsIn(batches)))
    ensures ReadsAs(FileBytes(names, types, batches), names, types, batches)
  {
    var metas, numRows := Metas(names, types, batches), RowsIn(batches);
    var file, trailer := FileBytes(names, types, batches), Trailer(RowsIn(batches), 4 + |BodyBytes(batches)|);
    Bytes.Widths();
    forall i | 0 <= i < |metas| ensures MetaFits(metas[i]) {
      MetaFitsFile(names, types, batches, i, file);
    }
    FooterReadsBack(MAGIC + BodyBytes(batches), metas, numRows);
    Sequences.Regroup(MAGIC + BodyBytes(batches), TableBytes(metas), trailer);
    forall i, j | 0 <= i < |names| && 0 <= j < |batches|
      ensures Chunk(file, Footer(metas, numRows), i, j) == Ok(batches[j][i])
    {
      ChunkReadsBack(metas, names, types, batches, TableBytes(metas) + trailer, numRows, i, j);
    }
  }

  /** A chunk is read from its place in the file. */
  lemma ChunkFrom(file: seq<Byte>, footer: Footer, i: nat, j: nat, off: nat, size: nat, column: Column)
    requires i < |footer.columns| && j < |footer.columns[i].offsets| && j < |footer.columns[i].sizes|
    requires footer.columns[i].offsets[j] == off && footer.columns[i].sizes[j] == size && off + size <= |file|
    requires file[off..off + size] == ColumnBytes(column.data, column.ty) && Storable(column.data, column.ty)
    requires TypeOfTag(footer.columns[i].tag) == Some(column.ty)
    ensures Chunk(file, footer, i, j) == Ok(column)
  {
    ColumnRoundTrip(column);
  }

  lemma ChunkReadsBack(metas: seq<ColumnMeta>, names: seq<seq<Byte>>, types: seq<ColumnType>, batches: seq<seq<Column>>,
                       tail: seq<Byte>, numRows: nat, i: nat, j: nat)
    requires MetasOk(metas, names, types, batches) && i < |names| && j < |batches|
    requires Storable(batches[j][i].data, batches[j][i].ty)
    ensures Chunk(MAGIC + BodyBytes(batches) + tail, Footer(metas, numRows), i, j) == Ok(batches[j][i])
  {
    var file, off, size := MAGIC + BodyBytes(batches) + tail, OffsetOf(batches, j, i), SizeOf(batches, j, i);
    assert && off + size <= |file|
           && file[off..off + size] == ColumnBytes(batches[j][i].data, batches[j][i].ty) by {
      ChunkAt(batches, j, i, tail);
    }
    assert metas[i] == MetaOf(names[i], types[i], batches, i);
    ChunkFrom(file, Footer(metas, numRows), i, j, off, size, batches[j][i]);
  }

  // ----- the format, byte by byte -----

  /** The types' numbers in the file. */
  lemma TagsAre(ty: ColumnType)
    ensures Tag(ty) == match ty
                       case INT16 => 0
                       case INT32 => 1
                       case INT64 => 2
                       case INT128 => 3
                       case FLOAT => 4
                       case DOUBLE => 5
                       case LONGDOUBLE => 6
                       case CHAR => 7
                       case STRING => 8
                       case DATE => 9
                       case TIMESTAMP => 10
  {
  }

  /** How many bytes a number takes in a column of its type. */
  lemma NumberBytes(i: int, ty: ColumnType)
    ensures |ValueBytes(Int(i), ty)| == match ty
                                        case INT16 => 2
                                        case INT32 | FLOAT | DATE => 4
                                        case INT64 | DOUBLE | TIMESTAMP => 8
                                        case INT128 | LONGDOUBLE => 16
                                        case CHAR => 1
                                        case STRING => 0
  {
  }

  /** A string: its length in four bytes, the lowest first, and its bytes. */
  lemma StringBytes(s: seq<Byte>)
    requires |s| < 0x1_0000_0000
    ensures ValueBytes(Str(s), STRING)
         == [|s| % 0x100, |s| / 0x100 % 0x100, |s| / 0x1_0000 % 0x100, |s| / 0x100_0000] + s
  {
    Bytes.FourBytes(|s|);
  }

  const SAMPLE: seq<Column> := [Column(INT32, [Int(258), Int(-1)])]

  lemma SampleNumbers()
    ensures ValueBytes(Int(258), INT32) == [2, 1, 0, 0] && ValueBytes(Int(-1), INT32) == [255, 255, 255, 255]
  {
    Bytes.Widths();
    Bytes.FourBytes(258);
    Bytes.FourBytes(0xFFFF_FFFF);
  }

  lemma SampleColumn()
    ensures ColumnBytes([Int(258), Int(-1)], INT32) == [2, 1, 0, 0, 255, 255, 255, 255]
  {
    var data := [Int(258), Int(-1)];
    SampleNumbers();
    ColumnBytesFront(data, INT32);
    assert data[1..] == [Int(-1)];
    ColumnBytesFront(data[1..], INT32);
    assert data[1..][1..] == [];
    assert ColumnBytes([], INT32) == [];
  }

  lemma SampleBody()
    ensures BatchBytes(SAMPLE) == [2, 1, 0, 0, 255, 255, 255, 255] && BodyBytes([SAMPLE]) == BatchBytes(SAMPLE)
    ensures OffsetOf([SAMPLE], 0, 0) == 4 && SizeOf([SAMPLE], 0, 0) == 8 && RowsIn([SAMPLE]) == 2
  {
    SampleColumn();
    assert SAMPLE[..0] == [];
    assert SAMPLE[..1] == SAMPLE;
    BatchBytesSnoc(SAMPLE, 0);
    assert BatchBytes([]) == [];
    assert [] + [SAMPLE] == [SAMPLE];
    BodyBytesSnoc([], SAMPLE);
    assert BodyBytes([]) == [];
    assert [SAMPLE][..0] == [];
    RowsInSnoc([], SAMPLE);
  }

  lemma SampleChunks()
    ensures ChunkTable([4], [8]) == [4, 0, 0, 0, 0, 0, 0, 0] + [8, 0, 0, 0, 0, 0, 0, 0]
  {
    Bytes.EightBytes(4);
    Bytes.EightBytes(8);
    assert [4][1..] == [] && [8][1..] == [];
    assert Bytes.Encode(8, 8) + [] == Bytes.Encode(8, 8);
  }

  lemma SampleTable()
    ensures TableBytes([ColumnMeta([97], 1, [4], [8])])
         == [1, 0, 0, 0] + ([1, 0, 0, 0] + ([97] + ([1] + ([1, 0, 0, 0] + ([4, 0, 0, 0, 0, 0, 0, 0] + [8, 0, 0, 0, 0, 0, 0, 0])))))
  {
    var meta := ColumnMeta([97], 1, [4], [8]);
    Bytes.FourBytes(1);
    SampleChunks();
    assert [meta][1..] == [];
    assert AllMetaBytes([meta]) == MetaBytes(meta) + [];
    assert MetaBytes(meta) + [] == MetaBytes(meta);
  }

  /**
   The file of one INT32 column "a" with the numbers 258 and -1: TUFF, the chunk, the table of columns with the place of
   the chunk, two rows, where the table starts, TUFF.
   */
  lemma SampleFile()
    ensures Shaped([INT32], [SAMPLE])
    ensures FileBytes([[97]], [INT32], [SAMPLE])
         == [84, 85, 70, 70]
          + [2, 1, 0, 0, 255, 255, 255, 255]
          + ([1, 0, 0, 0] + ([1, 0, 0, 0] + ([97] + ([1] + ([1, 0, 0, 0] + ([4, 0, 0, 0, 0, 0, 0, 0] + [8, 0, 0, 0, 0, 0, 0, 0]))))))
          + ([2, 0, 0, 0, 0, 0, 0, 0] + [12, 0, 0, 0, 0, 0, 0, 0] + [84, 85, 70, 70])
  {
    SampleBody();
    SampleTable();
    Bytes.EightBytes(2);
    Bytes.EightBytes(12);
    var meta := MetaOf([97], INT32, [SAMPLE], 0);
    assert meta == ColumnMeta([97], 1, [4], [8]);
    assert Metas([[97]], [INT32], [SAMPLE]) == [meta];
  }
}
