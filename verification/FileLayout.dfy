/**
 The columnar file as a byte sequence: magic, column chunks batch by batch, then a footer that says where they are
 (format comment of src/io/ColumnarWriter.h; parser of src/io/ColumnarReader.cpp).
 */
module FileLayout {
  import opened Values
  import opened Wrappers
  import opened Batches
  import opened ColumnCodes
  import Bytes
  import Sequences

  /** "TUFF" */
  const MAGIC: seq<Byte> := [84, 85, 70, 70]

  datatype ColumnMeta = ColumnMeta(name: seq<Byte>, tag: Byte, offsets: seq<nat>, sizes: seq<nat>)

  datatype Footer = Footer(columns: seq<ColumnMeta>, numRows: nat)

  // ----- chunks -----

  function BatchParts(b: seq<Column>): (r: seq<seq<Byte>>)
    ensures |r| == |b|
  {
    seq(|b|, i requires 0 <= i < |b| => ColumnBytes(b[i].data, b[i].ty))
  }

  function BatchBytes(b: seq<Column>): seq<Byte> {
    Sequences.Concat(BatchParts(b))
  }

  function BodyParts(batches: seq<seq<Column>>): (r: seq<seq<Byte>>)
    ensures |r| == |batches|
  {
    seq(|batches|, j requires 0 <= j < |batches| => BatchBytes(batches[j]))
  }

  /** All chunks, in the order in which they are written. */
  function BodyBytes(batches: seq<seq<Column>>): seq<Byte> {
    Sequences.Concat(BodyParts(batches))
  }

  lemma BatchBytesSnoc(b: seq<Column>, i: nat)
    requires i < |b|
    ensures BatchBytes(b[..i + 1]) == BatchBytes(b[..i]) + ColumnBytes(b[i].data, b[i].ty)
  {
    assert BatchParts(b[..i + 1]) == BatchParts(b[..i]) + [ColumnBytes(b[i].data, b[i].ty)];
    Sequences.ConcatSnoc(BatchParts(b[..i]), ColumnBytes(b[i].data, b[i].ty));
  }

  lemma BodyBytesSnoc(batches: seq<seq<Column>>, b: seq<Column>)
    ensures BodyBytes(batches + [b]) == BodyBytes(batches) + BatchBytes(b)
  {
    assert BodyParts(batches + [b]) == BodyParts(batches) + [BatchBytes(b)];
    Sequences.ConcatSnoc(BodyParts(batches), BatchBytes(b));
  }

  lemma {:induction false} ConcatPrefix<T>(parts: seq<seq<T>>, k: nat)
    requires k <= |parts|
    ensures Sequences.Concat(parts[..k]) <= Sequences.Concat(parts)
    decreases |parts|
  {
    if k < |parts| {
      ConcatPrefix(parts[..|parts| - 1], k);
      assert parts[..|parts| - 1][..k] == parts[..k];
    } else {
      assert parts[..k] == parts;
    }
  }

  /** Where chunk j of column i starts. */
  function OffsetOf(batches: seq<seq<Column>>, j: nat, i: nat): nat
    requires j < |batches| && i <= |batches[j]|
  {
    4 + |BodyBytes(batches[..j])| + |BatchBytes(batches[j][..i])|
  }

  function SizeOf(batches: seq<seq<Column>>, j: nat, i: nat): nat
    requires j < |batches| && i < |batches[j]|
  {
    |ColumnBytes(batches[j][i].data, batches[j][i].ty)|
  }

  lemma BatchInBody(batches: seq<seq<Column>>, j: nat)
    requires j < |batches|
    ensures BodyBytes(batches[..j]) + BatchBytes(batches[j]) <= BodyBytes(batches)
  {
    assert batches[..j + 1] == batches[..j] + [batches[j]];
    BodyBytesSnoc(batches[..j], batches[j]);
    ConcatPrefix(BodyParts(batches), j + 1);
    assert BodyParts(batches)[..j + 1] == BodyParts(batches[..j + 1]);
  }

  lemma ColumnInBatch(b: seq<Column>, i: nat)
    requires i < |b|
    ensures BatchBytes(b[..i]) + ColumnBytes(b[i].data, b[i].ty) <= BatchBytes(b)
  {
    BatchBytesSnoc(b, i);
    ConcatPrefix(BatchParts(b), i + 1);
    assert BatchParts(b)[..i + 1] == BatchParts(b[..i + 1]);
  }

  /** The file's bytes at a chunk's place are that chunk's, and the place lies before the footer. */
  lemma ChunkAt(batches: seq<seq<Column>>, j: nat, i: nat, tail: seq<Byte>)
    requires j < |batches| && i < |batches[j]|
    ensures var file, off, size := MAGIC + BodyBytes(batches) + tail, OffsetOf(batches, j, i), SizeOf(batches, j, i);
            && 4 <= off && off + size <= 4 + |BodyBytes(batches)|
            && file[off..off + size] == ColumnBytes(batches[j][i].data, batches[j][i].ty)
  {
    var b := batches[j];
    BatchInBody(batches, j);
    ColumnInBatch(b, i);
    BehindMagic(BodyBytes(batches[..j]), BatchBytes(b[..i]), ColumnBytes(b[i].data, b[i].ty), BatchBytes(b), BodyBytes(batches), tail);
  }

  lemma BehindMagic(before: seq<Byte>, front: seq<Byte>, chunk: seq<Byte>, batch: seq<Byte>, body: seq<Byte>, tail: seq<Byte>)
    requires before + batch <= body && front + chunk <= batch
    ensures var file, off := MAGIC + body + tail, 4 + |before| + |front|;
            && off + |chunk| <= 4 + |body| <= |file| && file[off..off + |chunk|] == chunk
  {
    SliceInside(MAGIC, before, front, chunk, batch, body, tail);
  }

  lemma SliceInside(magic: seq<Byte>, before: seq<Byte>, front: seq<Byte>, chunk: seq<Byte>, batch: seq<Byte>,
                    body: seq<Byte>, tail: seq<Byte>)
    requires before + batch <= body && front + chunk <= batch
    ensures var off := |magic| + |before| + |front|;
            && off + |chunk| <= |magic| + |body|
            && (magic + body + tail)[off..off + |chunk|] == chunk
  {
    var off, file := |magic| + |before| + |front|, magic + body + tail;
    forall k | 0 <= k < |chunk| ensures file[off + k] == chunk[k] {
      assert file[off + k] == body[|before| + |front| + k];
      assert body[|before| + |front| + k] == (before + batch)[|before| + |front| + k] == batch[|front| + k];
      assert batch[|front| + k] == (front + chunk)[|front| + k];
    }
  }

  /** Chunks lie one behind the other: the ranges of different chunks never overlap. */
  lemma ChunksDisjoint(batches: seq<seq<Column>>, j: nat, i: nat, j': nat, i': nat)
    requires j < |batches| && i < |batches[j]| && j' < |batches| && i' < |batches[j']|
    requires j < j' || (j == j' && i < i')
    ensures OffsetOf(batches, j, i) + SizeOf(batches, j, i) <= OffsetOf(batches, j', i')
  {
    var b := batches[j];
    BatchBytesSnoc(b, i);
    if j == j' {
      BatchPrefix(b, i + 1, i');
    } else {
      BatchPrefix(b, i + 1, |b|);
      assert b[..|b|] == b;
      Sequences.PrefixSnoc(batches, j);
      BodyBytesSnoc(batches[..j], b);
      BodyPrefix(batches, j + 1, j');
    }
  }

  lemma BatchPrefix(b: seq<Column>, i: nat, j: nat)
    requires i <= j <= |b|
    ensures |BatchBytes(b[..i])| <= |BatchBytes(b[..j])|
  {
    ConcatPrefix(BatchParts(b[..j]), i);
    assert BatchParts(b[..j])[..i] == BatchParts(b[..i]);
  }

  lemma BodyPrefix(batches: seq<seq<Column>>, i: nat, j: nat)
    requires i <= j <= |batches|
    ensures |BodyBytes(batches[..i])| <= |BodyBytes(batches[..j])|
  {
    ConcatPrefix(BodyParts(batches[..j]), i);
    assert BodyParts(batches[..j])[..i] == BodyParts(batches[..i]);
  }

  // ----- the footer -----

  function ChunkTable(offsets: seq<nat>, sizes: seq<nat>): seq<Byte>
    requires |sizes| == |offsets|
  {
    if offsets == [] then []
    else Bytes.Encode(offsets[0], 8) + (Bytes.Encode(sizes[0], 8) + ChunkTable(offsets[1..], sizes[1..]))
  }

  function MetaBytes(m: ColumnMeta): seq<Byte>
    requires |m.sizes| == |m.offsets|
  {
    Bytes.Encode(|m.name|, 4) + (m.name + ([m.tag] + (Bytes.Encode(|m.offsets|, 4) + ChunkTable(m.offsets, m.sizes))))
  }

  ghost predicate Even(metas: seq<ColumnMeta>) {
    forall i :: 0 <= i < |metas| ==> |metas[i].sizes| == |metas[i].offsets|
  }

  function AllMetaBytes(metas: seq<ColumnMeta>): seq<Byte>
    requires Even(metas)
  {
    if metas == [] then [] else MetaBytes(metas[0]) + AllMetaBytes(metas[1..])
  }

  function TableBytes(metas: seq<ColumnMeta>): seq<Byte>
    requires Even(metas)
  {
    Bytes.Encode(|metas|, 4) + AllMetaBytes(metas)
  }

  function Trailer(numRows: nat, start: nat): (r: seq<Byte>)
    ensures |r| == 20
  {
    Bytes.Encode(numRows, 8) + Bytes.Encode(start, 8) + MAGIC
  }

  // ----- parsing -----

  /** An unsigned integer at an offset; `None` where the engine would read past the buffer. */
  function TakeInt(s: seq<Byte>, w: nat): Option<(nat, seq<Byte>)> {
    if |s| < w then None else Some((Bytes.Decode(s[..w]), s[w..]))
  }

  lemma TakeEncoded(n: nat, w: nat, rest: seq<Byte>)
    requires n < Bytes.Pow256(w)
    ensures TakeInt(Bytes.Encode(n, w) + rest, w) == Some((n, rest))
  {
    var s := Bytes.Encode(n, w) + rest;
    assert s[..w] == Bytes.Encode(n, w) && s[w..] == rest;
    Bytes.DecodeEncode(n, w);
  }

  /** n offset/size pairs behind those already read. */
  function ParseChunks(s: seq<Byte>, n: nat, offsets: seq<nat>, sizes: seq<nat>): Option<(seq<nat>, seq<nat>, seq<Byte>)>
    decreases n
  {
    if n == 0 then Some((offsets, sizes, s))
    else
      match TakeInt(s, 8)
      case None => None
      case Some(o) =>
        match TakeInt(o.1, 8)
        case None => None
        case Some(z) => ParseChunks(z.1, n - 1, offsets + [o.0], sizes + [z.0])
  }

  function ParseColumn(s: seq<Byte>): Option<(ColumnMeta, seq<Byte>)> {
    match TakeInt(s, 4)
    case None => None
    case Some(length) =>
      var n := length.0;
      if |length.1| < n + 1 then None else ParsePlaces(length.1[..n], length.1[n], length.1[n + 1..])
  }

  function ParsePlaces(name: seq<Byte>, tag: Byte, s: seq<Byte>): Option<(ColumnMeta, seq<Byte>)> {
    match TakeInt(s, 4)
    case None => None
    case Some(count) =>
      match ParseChunks(count.1, count.0, [], [])
      case None => None
      case Some(t) => Some((ColumnMeta(name, tag, t.0, t.1), t.2))
  }

  function ParseColumns(s: seq<Byte>, n: nat, metas: seq<ColumnMeta>): Option<seq<ColumnMeta>>
    decreases n
  {
    if n == 0 then Some(metas)
    else
      match ParseColumn(s)
      case None => None
      case Some(t) => ParseColumns(t.1, n - 1, metas + [t.0])
  }

  /** MetadataTable::ParseMetadata on a whole file. */
  function ParseFile(file: seq<Byte>): Result<Footer> {
    var n := |file|;
    if n < 24 then Err("File is too small to contain a valid footer")
    else if file[n - 4..] != MAGIC then Err("Invalid file footer magic")
    else
      var numRows, start := Bytes.Decode(file[n - 20..n - 12]), Bytes.Decode(file[n - 12..n - 4]);
      if start > n - 20 then Err("metadata start out of range")
      else
        match ParseTable(file[start..n - 20])
        case None => Err("read past the end")
        case Some(metas) => Ok(Footer(metas, numRows))
  }

  function ParseTable(buffer: seq<Byte>): Option<seq<ColumnMeta>> {
    if |buffer| < 4 then None else ParseColumns(buffer[4..], Bytes.Decode(buffer[..4]), [])
  }

  // ----- the footer reads back -----

  ghost predicate Fits64(xs: seq<nat>) {
    forall k :: 0 <= k < |xs| ==> xs[k] < Bytes.Pow256(8)
  }

  ghost predicate MetaFits(m: ColumnMeta) {
    && |m.sizes| == |m.offsets| < Bytes.Pow256(4) && |m.name| < Bytes.Pow256(4) && Fits64(m.offsets) && Fits64(m.sizes)
  }

  lemma {:induction false} ChunksReadBack(offsets: seq<nat>, sizes: seq<nat>, j: nat, rest: seq<Byte>)
    requires |sizes| == |offsets| && j <= |offsets| && Fits64(offsets) && Fits64(sizes)
    ensures ParseChunks(ChunkTable(offsets[j..], sizes[j..]) + rest, |offsets| - j, offsets[..j], sizes[..j])
         == Some((offsets, sizes, rest))
    decreases |offsets| - j
  {
    if j == |offsets| {
      assert offsets[..j] == offsets && sizes[..j] == sizes && offsets[j..] == [];
      assert ChunkTable(offsets[j..], sizes[j..]) + rest == rest;
    } else {
      var more := ChunkTable(offsets[j + 1..], sizes[j + 1..]);
      assert offsets[j..][1..] == offsets[j + 1..] && sizes[j..][1..] == sizes[j + 1..];
      ChunkReadsBack(offsets[j], sizes[j], more, rest, |offsets| - j, offsets[..j], sizes[..j]);
      assert offsets[..j] + [offsets[j]] == offsets[..j + 1] && sizes[..j] + [sizes[j]] == sizes[..j + 1];
      ChunksReadBack(offsets, sizes, j + 1, rest);
    }
  }

  lemma ChunkReadsBack(o: nat, z: nat, more: seq<Byte>, rest: seq<Byte>, n: nat, offsets: seq<nat>, sizes: seq<nat>)
    requires n > 0 && o < Bytes.Pow256(8) && z < Bytes.Pow256(8)
    ensures ParseChunks((Bytes.Encode(o, 8) + (Bytes.Encode(z, 8) + more)) + rest, n, offsets, sizes)
         == ParseChunks(more + rest, n - 1, offsets + [o], sizes + [z])
  {
    var a, b := Bytes.Encode(o, 8), Bytes.Encode(z, 8);
    assert (a + (b + more)) + rest == a + (b + (more + rest)) by {
      Sequences.Regroup(a, b + more, rest);
      Sequences.Regroup(b, more, rest);
    }
    TakeEncoded(o, 8, b + (more + rest));
    TakeEncoded(z, 8, more + rest);
  }

  lemma Nested(a: seq<Byte>, b: seq<Byte>, c: seq<Byte>, d: seq<Byte>, e: seq<Byte>, rest: seq<Byte>)
    ensures (a + (b + (c + (d + e)))) + rest == a + (b + (c + (d + (e + rest))))
  {
    Sequences.Regroup(a, b + (c + (d + e)), rest);
    Sequences.Regroup(b, c + (d + e), rest);
    Sequences.Regroup(c, d + e, rest);
    Sequences.Regroup(d, e, rest);
  }

  lemma NameAndTag(name: seq<Byte>, tag: Byte, rest: seq<Byte>)
    ensures var s, n := name + ([tag] + rest), |name|;
            |s| >= n + 1 && s[..n] == name && s[n] == tag && s[n + 1..] == rest
  {
  }

  lemma ColumnReadsBack(m: ColumnMeta, rest: seq<Byte>)
    requires MetaFits(m)
    ensures ParseColumn(MetaBytes(m) + rest) == Some((m, rest))
  {
    var length, count, table := Bytes.Encode(|m.name|, 4), Bytes.Encode(|m.offsets|, 4), ChunkTable(m.offsets, m.sizes);
    var afterTag := count + (table + rest);
    Nested(length, m.name, [m.tag], count, table, rest);
    TakeEncoded(|m.name|, 4, m.name + ([m.tag] + afterTag));
    NameAndTag(m.name, m.tag, afterTag);
    PlacesReadBack(m, rest);
  }

  lemma PlacesReadBack(m: ColumnMeta, rest: seq<Byte>)
    requires MetaFits(m)
    ensures ParsePlaces(m.name, m.tag, Bytes.Encode(|m.offsets|, 4) + (ChunkTable(m.offsets, m.sizes) + rest)) == Some((m, rest))
  {
    TakeEncoded(|m.offsets|, 4, ChunkTable(m.offsets, m.sizes) + rest);
    assert m.offsets[0..] == m.offsets && m.sizes[0..] == m.sizes;
    ChunksReadBack(m.offsets, m.sizes, 0, rest);
  }

  /** One column of the table, ahead of the others. */
  lemma FirstColumnReadsBack(m: ColumnMeta, rest: seq<Byte>, n: nat, read: seq<ColumnMeta>)
    requires MetaFits(m) && n > 0
    ensures ParseColumns(MetaBytes(m) + rest, n, read) == ParseColumns(rest, n - 1, read + [m])
  {
    ColumnReadsBack(m, rest);
  }

  lemma AllMetaFront(metas: seq<ColumnMeta>, k: nat)
    requires Even(metas) && k < |metas|
    ensures Even(metas[k..]) && Even(metas[k + 1..])
    ensures AllMetaBytes(metas[k..]) == MetaBytes(metas[k]) + AllMetaBytes(metas[k + 1..])
  {
    assert metas[k..][1..] == metas[k + 1..];
  }

  lemma {:induction false} ColumnsReadBack(metas: seq<ColumnMeta>, k: nat)
    requires k <= |metas| && forall i :: 0 <= i < |metas| ==> MetaFits(metas[i])
    ensures Even(metas[k..]) && ParseColumns(AllMetaBytes(metas[k..]), |metas| - k, metas[..k]) == Some(metas)
    decreases |metas| - k
  {
    if k == |metas| {
      assert metas[..k] == metas;
    } else {
      ColumnsReadBack(metas, k + 1);
      AllMetaFront(metas, k);
      Sequences.PrefixSnoc(metas, k);
      FirstColumnReadsBack(metas[k], AllMetaBytes(metas[k + 1..]), |metas| - k, metas[..k]);
    }
  }

  lemma TrailerSlices(front: seq<Byte>, trailer: seq<Byte>)
    requires |trailer| == 20
    ensures var file, n := front + trailer, |front| + 20;
            && |file| == n && file[n - 4..] == trailer[16..20]
            && file[n - 20..n - 12] == trailer[0..8] && file[n - 12..n - 4] == trailer[8..16] && file[..n - 20] == front
  {
    Sequences.SuffixSlice(front, trailer, 16, 20);
    Sequences.SuffixSlice(front, trailer, 0, 8);
    Sequences.SuffixSlice(front, trailer, 8, 16);
    Sequences.TakeDrop(front, trailer);
    var file, n := front + trailer, |front| + 20;
    assert file[n - 4..] == file[n - 4..n];
  }

  lemma ParsedFile(file: seq<Byte>, numRows: nat, start: nat)
    requires |file| >= 24 && file[|file| - 4..] == MAGIC && start <= |file| - 20
    requires Bytes.Decode(file[|file| - 20..|file| - 12]) == numRows && Bytes.Decode(file[|file| - 12..|file| - 4]) == start
    ensures ParseTable(file[start..|file| - 20]).Some? ==>
              ParseFile(file) == Ok(Footer(ParseTable(file[start..|file| - 20]).value, numRows))
  {
  }

  /** Parsing a file that ends in a footer gives back what the footer was made of. */
  lemma FooterReadsBack(body: seq<Byte>, metas: seq<ColumnMeta>, numRows: nat)
    requires forall i :: 0 <= i < |metas| ==> MetaFits(metas[i])
    requires |metas| < Bytes.Pow256(4) && numRows < Bytes.Pow256(8) && |body| < Bytes.Pow256(8)
    ensures Even(metas)
    ensures ParseFile(body + TableBytes(metas) + Trailer(numRows, |body|)) == Ok(Footer(metas, numRows))
  {
    TableReadsBack(metas);
    TrailerParts(numRows, |body|);
    ParsedFooter(body, TableBytes(metas), Trailer(numRows, |body|), metas, numRows);
  }

  lemma ParsedFooter(body: seq<Byte>, table: seq<Byte>, trailer: seq<Byte>, metas: seq<ColumnMeta>, numRows: nat)
    requires |table| >= 4 && ParseTable(table) == Some(metas) && |trailer| == 20
    requires Bytes.Decode(trailer[0..8]) == numRows && Bytes.Decode(trailer[8..16]) == |body| && trailer[16..20] == MAGIC
    ensures ParseFile(body + table + trailer) == Ok(Footer(metas, numRows))
  {
    var front := body + table;
    var file, n := front + trailer, |front| + 20;
    TrailerSlices(front, trailer);
    assert file[|body|..n - 20] == table by {
      Sequences.TakeDrop(body, table);
      assert file[|body|..n - 20] == file[..n - 20][|body|..];
    }
    ParsedFile(file, numRows, |body|);
  }

  lemma TrailerParts(numRows: nat, start: nat)
    requires numRows < Bytes.Pow256(8) && start < Bytes.Pow256(8)
    ensures var t := Trailer(numRows, start);
            Bytes.Decode(t[0..8]) == numRows && Bytes.Decode(t[8..16]) == start && t[16..20] == MAGIC
  {
    var t := Trailer(numRows, start);
    Sequences.Split3(Bytes.Encode(numRows, 8), Bytes.Encode(start, 8), MAGIC);
    assert t[0..8] == t[..8] && t[16..20] == t[16..];
    Bytes.DecodeEncode(numRows, 8);
    Bytes.DecodeEncode(start, 8);
  }

  lemma TableReadsBack(metas: seq<ColumnMeta>)
    requires forall i :: 0 <= i < |metas| ==> MetaFits(metas[i])
    requires |metas| < Bytes.Pow256(4)
    ensures Even(metas) && ParseTable(TableBytes(metas)) == Some(metas)
  {
    AllColumnsReadBack(metas);
    CountedTable(Bytes.Encode(|metas|, 4), AllMetaBytes(metas));
    Bytes.DecodeEncode(|metas|, 4);
  }

  lemma AllColumnsReadBack(metas: seq<ColumnMeta>)
    requires forall i :: 0 <= i < |metas| ==> MetaFits(metas[i])
    ensures Even(metas) && ParseColumns(AllMetaBytes(metas), |metas|, []) == Some(metas)
  {
    assert metas[0..] == metas && metas[..0] == [];
    ColumnsReadBack(metas, 0);
  }

  lemma CountedTable(count: seq<Byte>, columns: seq<Byte>)
    requires |count| == 4
    ensures ParseTable(count + columns) == ParseColumns(columns, Bytes.Decode(count), [])
  {
    Sequences.TakeDrop(count, columns);
  }
}
