/**
 Running compiled pipelines one after the other (src/execution/ExecutionApi.h, DataFrame::Collect): what each run
 gets from its source, what its sink makes of it, and the arrangement of source rows that explains the outcome.
 */
module PlanRuns {
  import opened Values
  import opened Wrappers
  import opened Batches
  import opened Builders
  import opened Operators
  import opened Execution
  import opened PipelineRows
  import opened Plans
  import opened PlanShapes
  import opened NamedRows
  import Aggregates
  import Filters
  import GlobalAggregation
  import GroupBys = GroupBy
  import OrderBys = OrderBy
  import P = Pipelines
  import Sequences

  /** One Execute call: the batches its source hands out, the final protocol state, the sink's result. */
  datatype Run = Run(supply: seq<RecordBatch>, state: P.State<RecordBatch>, result: RecordBatch)

  // ----- the scan -----

  function RowCount(chunks: seq<Chunk>): nat {
    if chunks == [] then 0 else RowCount(chunks[..|chunks| - 1]) + chunks[|chunks| - 1].size
  }

  /** ScanOperator::GetData: one batch per chunk with the asked columns, or one column-less batch of all rows. */
  ghost function ScanBatches(table: Table, ix: seq<nat>): (r: seq<RecordBatch>)
    requires TableOk(table) && forall j :: 0 <= j < |ix| ==> ix[j] < |table.fields|
  {
    if ix == [] then [RecordBatch(RowCount(table.chunks), None, [])]
    else seq(|table.chunks|, j requires 0 <= j < |table.chunks| =>
           RecordBatch(table.chunks[j].size, None, PickColumns(table.chunks[j].columns, ix)))
  }

  lemma ScanShape(table: Table, ix: seq<nat>)
    requires TableOk(table) && forall j :: 0 <= j < |ix| ==> ix[j] < |table.fields|
    ensures SupplyShaped(ScanBatches(table, ix), Shape(|ix|, true))
    ensures AllTyped(ScanBatches(table, ix), PickTypes(TypesIn(table.fields), ix))
  {
    forall j | 0 <= j < |ScanBatches(table, ix)|
      ensures HasShape(ScanBatches(table, ix)[j], Shape(|ix|, true))
      ensures TypesOf(ScanBatches(table, ix)[j].columns) == PickTypes(TypesIn(table.fields), ix)
    {
      if ix != [] {
        assert TypesOf(table.chunks[j].columns) == TypesIn(table.fields);
        PickedShape(table.chunks[j].columns, table.chunks[j].size, ix);
      }
    }
  }

  lemma PickedShape(columns: seq<Column>, n: nat, ix: seq<nat>)
    requires Aligned(columns, n) && forall j :: 0 <= j < |ix| ==> ix[j] < |columns|
    ensures Aligned(PickColumns(columns, ix), n)
    ensures HasShape(RecordBatch(n, None, PickColumns(columns, ix)), Shape(|ix|, true))
    ensures TypesOf(PickColumns(columns, ix)) == PickTypes(TypesOf(columns), ix)
  {
  }

  ghost predicate InWidth(rows: seq<Row>, ix: seq<nat>) {
    forall i, j :: 0 <= i < |rows| && 0 <= j < |ix| ==> ix[j] < |rows[i]|
  }

  ghost function PickEach(rows: seq<Row>, ix: seq<nat>): (r: seq<Row>)
    requires InWidth(rows, ix)
    ensures |r| == |rows| && forall i :: 0 <= i < |r| ==> r[i] == PickRow(rows[i], ix)
  {
    seq(|rows|, i requires 0 <= i < |rows| => PickRow(rows[i], ix))
  }

  lemma PickEachConcat(xs: seq<Row>, ys: seq<Row>, ix: seq<nat>)
    requires InWidth(xs, ix) && InWidth(ys, ix)
    ensures InWidth(xs + ys, ix) && PickEach(xs + ys, ix) == PickEach(xs, ix) + PickEach(ys, ix)
  {
  }

  lemma ChunkRows(chunk: Chunk, ix: seq<nat>)
    requires Aligned(chunk.columns, chunk.size) && forall j :: 0 <= j < |ix| ==> ix[j] < |chunk.columns|
    ensures InWidth(HeldRows(chunk.columns, chunk.size), ix)
    ensures Valid(RecordBatch(chunk.size, None, PickColumns(chunk.columns, ix)))
    ensures Rows(RecordBatch(chunk.size, None, PickColumns(chunk.columns, ix))) == PickEach(HeldRows(chunk.columns, chunk.size), ix)
  {
    PickedShape(chunk.columns, chunk.size, ix);
    HeldIsBatch(PickColumns(chunk.columns, ix), chunk.size);
    var picked, rows := HeldRows(PickColumns(chunk.columns, ix), chunk.size), HeldRows(chunk.columns, chunk.size);
    forall i | 0 <= i < chunk.size ensures picked[i] == PickRow(rows[i], ix) {
      assert picked[i] == RowAt(PickColumns(chunk.columns, ix), i) && rows[i] == RowAt(chunk.columns, i);
    }
  }

  /** The rows of all scanned batches are the table's rows, cut to the asked columns, in order. */
  lemma {:induction false} ScanRows(table: Table, ix: seq<nat>)
    requires TableOk(table) && forall j :: 0 <= j < |ix| ==> ix[j] < |table.fields|
    ensures AllValid(ScanBatches(table, ix)) && InWidth(TableRows(table.chunks), ix)
    ensures AllRows(ScanBatches(table, ix)) == PickEach(TableRows(table.chunks), ix)
    decreases |table.chunks|
  {
    ScanShape(table, ix);
    TableRowsWidth(table.chunks, |table.fields|);
    if ix == [] {
      EmptyScanRows(table.chunks);
    } else if table.chunks != [] {
      var n := |table.chunks| - 1;
      var front := Table(table.fields, table.chunks[..n]);
      ScanRows(front, ix);
      ChunkRows(table.chunks[n], ix);
      var batches := ScanBatches(table, ix);
      AllRowsSnoc(batches);
      assert batches[..n] == ScanBatches(front, ix);
      PickEachConcat(TableRows(front.chunks), HeldRows(table.chunks[n].columns, table.chunks[n].size), ix);
    }
  }

  lemma {:induction false} EmptyScanRows(chunks: seq<Chunk>)
    requires forall j :: 0 <= j < |chunks| ==> Aligned(chunks[j].columns, chunks[j].size)
    ensures var b := RecordBatch(RowCount(chunks), None, []);
            Valid(b) && AllRows([b]) == PickEach(TableRows(chunks), [])
  {
    var b := RecordBatch(RowCount(chunks), None, []);
    HeldIsBatch([], RowCount(chunks));
    assert [b][1..] == [];
    assert AllRows([b]) == Rows(b) + AllRows([b][1..]);
    RowCountIsLength(chunks);
  }

  lemma {:induction false} RowCountIsLength(chunks: seq<Chunk>)
    requires forall j :: 0 <= j < |chunks| ==> Aligned(chunks[j].columns, chunks[j].size)
    ensures |TableRows(chunks)| == RowCount(chunks)
    decreases |chunks|
  {
    if chunks != [] {
      RowCountIsLength(chunks[..|chunks| - 1]);
    }
  }

  // ----- which arrangement of the source's rows explains a run -----

  lemma {:induction false} FindSource(ts: seq<Transform>, rows: seq<Row>, sh: Shape, x: Row) returns (j: nat)
    requires NoLimits(ts) && FitsAll(ts, sh) && AllWidth(rows, sh.width) && x in RowsThrough(ts, rows, sh)
    ensures j < |rows| && RowsThrough(ts, [rows[j]], sh) == [x]
    decreases |rows|
  {
    RowsThroughEmpty(ts, sh);
    var n := |rows| - 1;
    assert rows == rows[..n] + [rows[n]];
    RowsThroughConcat(ts, rows[..n], [rows[n]], sh);
    if x in RowsThrough(ts, rows[..n], sh) {
      j := FindSource(ts, rows[..n], sh, x);
    } else {
      OneRowLeavesAtMostOne(ts, rows[n], sh);
      j := n;
    }
  }

  lemma {:induction false} OneRowLeavesAtMostOne(ts: seq<Transform>, row: Row, sh: Shape)
    requires NoLimits(ts) && FitsAll(ts, sh) && |row| == sh.width
    ensures |RowsThrough(ts, [row], sh)| <= 1
    decreases |ts|
  {
    if ts != [] {
      var front, t := ts[..|ts| - 1], ts[|ts| - 1];
      var before, mid := RowsThrough(front, [row], sh), ShapeAfter(front, sh);
      OneRowLeavesAtMostOne(front, row, sh);
      ApplyToRowsWidth(t, before, mid);
      AppliedNotLonger(t, before, mid.width);
    }
  }

  lemma AppliedNotLonger(t: Transform, rs: seq<Row>, width: nat)
    requires !t.Limit? && Fits(t, Shape(width, true)) && AllWidth(rs, width) && |rs| <= 1
    ensures |ApplyToRows(t, rs, width)| <= 1
  {
    if t.Filter? && rs != [] {
      assert rs[1..] == [] && Filters.AllFit(t.filter, rs);
      assert Filters.FilterRows(t.filter, rs[1..]) == [];
    }
  }

  lemma WithoutRow(ts: seq<Transform>, rows: seq<Row>, sh: Shape, j: nat)
    requires NoLimits(ts) && FitsAll(ts, sh) && AllWidth(rows, sh.width) && j < |rows|
    ensures AllWidth(rows[..j] + rows[j + 1..], sh.width) && AllWidth([rows[j]], sh.width)
    ensures multiset(RowsThrough(ts, rows, sh))
         == multiset(RowsThrough(ts, rows[..j] + rows[j + 1..], sh)) + multiset(RowsThrough(ts, [rows[j]], sh))
  {
    var a, x, b := rows[..j], [rows[j]], rows[j + 1..];
    assert rows == a + (x + b);
    RowsThroughConcat(ts, x, b, sh);
    RowsThroughConcat(ts, a, x + b, sh);
    RowsThroughConcat(ts, a, b, sh);
  }

  /** Any reordering of what a chain leaves is what it leaves of some reordering of its input. */
  lemma {:induction false} Rearranged(ts: seq<Transform>, rows: seq<Row>, sh: Shape, q: seq<Row>) returns (r: seq<Row>)
    requires NoLimits(ts) && FitsAll(ts, sh) && AllWidth(rows, sh.width)
    requires multiset(q) == multiset(RowsThrough(ts, rows, sh))
    ensures multiset(r) == multiset(rows) && AllWidth(r, sh.width) && RowsThrough(ts, r, sh) == q
    decreases |q|
  {
    if q == [] {
      Sequences.SameBagSameLength(q, RowsThrough(ts, rows, sh));
      r := rows;
    } else {
      var n := |q| - 1;
      assert q == q[..n] + [q[n]];
      assert q[n] in multiset(RowsThrough(ts, rows, sh));
      var j := FindSource(ts, rows, sh, q[n]);
      var rest := rows[..j] + rows[j + 1..];
      WithoutRow(ts, rows, sh, j);
      Sequences.CancelOne(multiset(q[..n]), multiset(RowsThrough(ts, rest, sh)), q[n]);
      var front := Rearranged(ts, rest, sh, q[..n]);
      RowsThroughConcat(ts, front, [rows[j]], sh);
      Sequences.RemoveAt(rows, j);
      r := front + [rows[j]];
    }
  }

  /** What the run sank, followed by what LIMIT cut off, is an ordering whose prefix is exactly what it sank. */
  lemma ExtendPrefix<T>(sunk: seq<T>, order: seq<T>, limit: Option<nat>) returns (q: seq<T>)
    requires multiset(sunk) == multiset(Take(order, limit))
    ensures multiset(q) == multiset(order) && Take(q, limit) == sunk
  {
    var cut := Take(order, limit);
    Sequences.SameBagSameLength(sunk, cut);
    q := sunk + order[|cut|..];
    assert order == cut + order[|cut|..];
  }

  ghost predicate SourceOk(source: Source) {
    source.FromTable? ==>
      TableOk(source.table) && forall j :: 0 <= j < |source.indices| ==> source.indices[j] < |source.table.fields|
  }

  /** The batches of a source: the scanned chunks, or the one result of an earlier pipeline. */
  ghost predicate Supplies(source: Source, runs: seq<Run>, supply: seq<RecordBatch>)
    requires SourceOk(source)
  {
    match source
    case FromTable(table, ix) => supply == ScanBatches(table, ix)
    case FromBreaker(id) => id < |runs| && supply == [runs[id].result]
  }

  /** A breaker's result batch has its types and no selection, or is the bare batch of a sort that is left with nothing. */
  ghost predicate ResultShaped(result: RecordBatch, types: seq<ColumnType>) {
    result == BARE || (Valid(result) && result.sel.None? && TypesOf(result.columns) == types)
  }

  /** Source rows in an order in which they may have arrived: any order from a scan, the batch's order otherwise. */
  ghost predicate Arrival(source: Source, runs: seq<Run>, r: seq<Row>)
    requires SourceOk(source)
  {
    match source
    case FromTable(table, ix) => AllValid(ScanBatches(table, ix)) && multiset(r) == multiset(AllRows(ScanBatches(table, ix)))
    case FromBreaker(id) => id < |runs| && r == View(runs[id].result)
  }

  /** A chain on a list of source rows, with its final LIMIT. */
  ghost function Outcome(source: Source, ts: seq<Transform>, done: seq<Pipe>, r: seq<Row>): seq<Row>
    requires ChainOk(source, ts, done) && AllWidth(r, SourceShape(source, done).width)
  {
    Take(RowsThrough(Body(ts), r, SourceShape(source, done)), LimitAtEnd(ts))
  }

  lemma TableRun(table: Table, ix: seq<nat>, ts: seq<Transform>, done: seq<Pipe>, runs: seq<Run>, threads: nat,
                 s: P.State<RecordBatch>)
    returns (r: seq<Row>)
    requires ChainOk(FromTable(table, ix), ts, done) && threads > 0 && IsRun(ScanBatches(table, ix), ts, threads, s)
    ensures AllValid(P.SunkBatches(s.sunk))
    ensures AllTyped(P.SunkBatches(s.sunk), ChainTypes(Body(ts), SourceTypes(FromTable(table, ix), done)))
    ensures Arrival(FromTable(table, ix), runs, r) && AllWidth(r, SourceShape(FromTable(table, ix), done).width)
    ensures AllRows(P.SunkBatches(s.sunk)) == Outcome(FromTable(table, ix), ts, done, r)
  {
    var source, supply := FromTable(table, ix), ScanBatches(table, ix);
    var sh, types := SourceShape(source, done), SourceTypes(source, done);
    ScanShape(table, ix);
    var order := Execution.RunRows(supply, ts, threads, sh, types, s);
    var q := ExtendPrefix(AllRows(P.SunkBatches(s.sunk)), order, LimitAtEnd(ts));
    r := Rearranged(Body(ts), AllRows(supply), sh, q);
  }

  lemma ResultRun(b: RecordBatch, ts: seq<Transform>, types: seq<ColumnType>, threads: nat, s: P.State<RecordBatch>)
    requires NoLimits(Body(ts)) && FitsAll(Body(ts), Shape(|types|, true)) && threads > 0
    requires Valid(b) && b.sel.None? && TypesOf(b.columns) == types && IsRun([b], ts, threads, s)
    ensures AllValid(P.SunkBatches(s.sunk)) && AllTyped(P.SunkBatches(s.sunk), ChainTypes(Body(ts), types))
    ensures AllWidth(Rows(b), |types|)
    ensures AllRows(P.SunkBatches(s.sunk)) == Take(RowsThrough(Body(ts), Rows(b), Shape(|types|, true)), LimitAtEnd(ts))
  {
    assert |b.columns| == |TypesOf(b.columns)|;
    assert HasShape(b, Shape(|types|, true));
    var order := Execution.RunRows([b], ts, threads, Shape(|types|, true), types, s);
    OneBatchRows(b);
  }

  lemma OneBatchRows(b: RecordBatch)
    requires Valid(b)
    ensures AllValid([b]) && AllRows([b]) == Rows(b)
  {
    assert [b][1..] == [];
    assert AllRows([b]) == Rows(b) + AllRows([b][1..]);
  }

  lemma BareResultRun(ts: seq<Transform>, types: seq<ColumnType>, threads: nat, s: P.State<RecordBatch>)
    requires NoLimits(Body(ts)) && FitsAll(Body(ts), Shape(|types|, true)) && IsRun([BARE], ts, threads, s)
    ensures P.SunkBatches(s.sunk) == [] && View(BARE) == []
    ensures Take(RowsThrough(Body(ts), [], Shape(|types|, true)), LimitAtEnd(ts)) == []
  {
    BareRun(ts, threads, s);
    RowsThroughEmpty(Body(ts), Shape(|types|, true));
    assert Valid(BARE) && |Rows(BARE)| == 0;
  }

  lemma BreakerRun(id: nat, ts: seq<Transform>, done: seq<Pipe>, runs: seq<Run>, threads: nat, s: P.State<RecordBatch>)
    returns (r: seq<Row>)
    requires ChainOk(FromBreaker(id), ts, done) && threads > 0 && id < |runs|
    requires ResultShaped(runs[id].result, SourceTypes(FromBreaker(id), done))
    requires IsRun([runs[id].result], ts, threads, s)
    ensures AllValid(P.SunkBatches(s.sunk))
    ensures AllTyped(P.SunkBatches(s.sunk), ChainTypes(Body(ts), SourceTypes(FromBreaker(id), done)))
    ensures Arrival(FromBreaker(id), runs, r) && AllWidth(r, SourceShape(FromBreaker(id), done).width)
    ensures AllRows(P.SunkBatches(s.sunk)) == Outcome(FromBreaker(id), ts, done, r)
  {
    var b, types := runs[id].result, SourceTypes(FromBreaker(id), done);
    r := View(b);
    if b == BARE {
      BareResultRun(ts, types, threads, s);
    } else {
      ResultRun(b, ts, types, threads, s);
    }
  }

  // ----- what a sink makes of what it was given -----

  /** Each cell has its column's type, as it does by construction in the engine's typed columns. */
  ghost predicate RowsTyped(rows: seq<Row>, types: seq<ColumnType>) {
    forall i :: 0 <= i < |rows| ==> |rows[i]| == |types| && forall c :: 0 <= c < |types| ==> HasType(rows[i][c], types[c])
  }

  /** The bounds under which a sink works: row numbers fit 32 bits, and every SUM fits its accumulator. */
  ghost predicate Manageable(sink: Sink, rows: seq<Row>, types: seq<ColumnType>) {
    && |rows| <= TWO_32 && RowsTyped(rows, types)
    && match sink
       case GroupInto(cols, _, fs) => GroupBys.GroupsExact(cols, fs, rows)
       case TotalInto(fs) => GlobalAggregation.AllExact(fs, rows)
       case _ => true
  }

  /** The result of a sink on the rows that reached it, in whatever batches, threads and order. */
  ghost predicate SinkGives(sink: Sink, rows: seq<Row>, result: RecordBatch) {
    match sink
    case SortInto(keys, types, limit, offset) =>
      && ResultShaped(result, types)
      && (result == BARE <==> OrderBys.NothingLeft(rows, limit, offset))
      && OrderBys.Delivers(keys, View(result), rows, limit, offset)
    case GroupInto(cols, types, fs) =>
      && Valid(result) && result.sel.None? && TypesOf(result.columns) == types + Aggregates.ResultTypes(fs)
      && GroupBys.IsGroupBy(cols, fs, Rows(result), rows)
    case TotalInto(fs) =>
      && Valid(result) && result.sel.None? && TypesOf(result.columns) == Aggregates.ResultTypes(fs) && result.numRows == 1
      && GlobalAggregation.IsTotal(fs, Rows(result)[0], rows)
    case Collect => true
  }

  lemma RowReads(f: Aggregates.AggFunction, row: Row, types: seq<ColumnType>)
    requires AggFits(f, types) && |row| == |types| && forall c :: 0 <= c < |types| ==> HasType(row[c], types[c])
    ensures Aggregates.Reads(f, row)
  {
  }

  lemma BatchRowsAmong(batches: seq<RecordBatch>, i: nat) returns (front: seq<Row>, rest: seq<Row>)
    requires AllValid(batches) && i < |batches|
    ensures AllRows(batches) == front + Rows(batches[i]) + rest
  {
    PrefixRows(batches, i);
    assert batches[..i + 1] + batches[i + 1..] == batches;
    AllRowsConcat(batches[..i + 1], batches[i + 1..]);
    front, rest := AllRows(batches[..i]), AllRows(batches[i + 1..]);
  }

  lemma Behind<T>(a: seq<T>, b: seq<T>, c: seq<T>, k: nat)
    requires k < |b|
    ensures |a| + k < |a + b + c| && (a + b + c)[|a| + k] == b[k]
  {
  }

  lemma BatchTyped(batches: seq<RecordBatch>, types: seq<ColumnType>, i: nat)
    requires AllValid(batches) && RowsTyped(AllRows(batches), types) && i < |batches|
    ensures RowsTyped(Rows(batches[i]), types)
  {
    var front, rest := BatchRowsAmong(batches, i);
    MiddleTyped(front, Rows(batches[i]), rest, types);
  }

  lemma MiddleTyped(front: seq<Row>, rows: seq<Row>, rest: seq<Row>, types: seq<ColumnType>)
    requires RowsTyped(front + rows + rest, types)
    ensures RowsTyped(rows, types)
  {
    forall k | 0 <= k < |rows|
      ensures |rows[k]| == |types| && forall c :: 0 <= c < |types| ==> HasType(rows[k][c], types[c])
    {
      Behind(front, rows, rest, k);
    }
  }

  lemma GroupRowOk(row: Row, types: seq<ColumnType>, cols: seq<nat>, keyTypes: seq<ColumnType>, fs: seq<Aggregates.AggFunction>)
    requires |row| == |types| && forall c :: 0 <= c < |types| ==> HasType(row[c], types[c])
    requires SinkOk(GroupInto(cols, keyTypes, fs), types)
    ensures GroupBys.RowOk(cols, keyTypes, fs, row)
  {
    forall a | 0 <= a < |fs| ensures Aggregates.Reads(fs[a], row) {
      RowReads(fs[a], row, types);
    }
  }

  /** A batch of typed rows meets what GROUP BY's Sink requires of it. */
  lemma GroupBatchOk(b: RecordBatch, types: seq<ColumnType>, cols: seq<nat>, keyTypes: seq<ColumnType>, fs: seq<Aggregates.AggFunction>)
    requires Valid(b) && TypesOf(b.columns) == types && RowsTyped(Rows(b), types)
    requires SinkOk(GroupInto(cols, keyTypes, fs), types)
    ensures GroupBys.BatchOk(cols, keyTypes, fs, b)
  {
    assert |b.columns| == |TypesOf(b.columns)|;
    forall i | 0 <= i < b.numRows ensures GroupBys.RowOk(cols, keyTypes, fs, Rows(b)[i]) {
      GroupRowOk(Rows(b)[i], types, cols, keyTypes, fs);
    }
  }

  lemma TotalBatchOk(b: RecordBatch, types: seq<ColumnType>, fs: seq<Aggregates.AggFunction>)
    requires Valid(b) && RowsTyped(Rows(b), types) && SinkOk(TotalInto(fs), types)
    ensures GlobalAggregation.Readable(fs, b)
  {
    forall a, i | 0 <= a < |fs| && 0 <= i < b.numRows ensures Aggregates.Reads(fs[a], Rows(b)[i]) {
      RowReads(fs[a], Rows(b)[i], types);
    }
  }

  lemma SortGives(sink: Sink, rows: seq<Row>, result: RecordBatch)
    requires sink.SortInto? && Valid(result) && result.sel.None? && (result == BARE || TypesOf(result.columns) == sink.types)
    requires result == BARE <==> OrderBys.NothingLeft(rows, sink.limit, sink.offset)
    requires OrderBys.Delivers(sink.keys, Rows(result), rows, sink.limit, sink.offset)
    ensures SinkGives(sink, rows, result)
  {
  }

  lemma SortFed(sink: Sink, batches: seq<RecordBatch>, types: seq<ColumnType>, i: nat)
    requires sink.SortInto? && AllValid(batches) && AllTyped(batches, types) && SinkOk(sink, types) && i < |batches|
    ensures Valid(batches[i]) && TypesOf(batches[i].columns) == sink.types
  {
  }

  method RunSort(sink: Sink, batches: seq<RecordBatch>, lanes: seq<nat>, threads: nat, types: seq<ColumnType>)
    returns (result: RecordBatch)
    requires sink.SortInto? && threads > 0 && |lanes| == |batches| && forall i :: 0 <= i < |lanes| ==> lanes[i] < threads
    requires AllValid(batches) && AllTyped(batches, types) && SinkOk(sink, types) && |AllRows(batches)| <= TWO_32
    ensures SinkGives(sink, AllRows(batches), result)
  {
    ghost var rows := AllRows(batches);
    forall i | 0 <= i < |batches| ensures Valid(batches[i]) && TypesOf(batches[i].columns) == sink.types && lanes[i] < threads {
      SortFed(sink, batches, types, i);
    }
    var op := new OrderBys.OrderBySink(sink.keys, sink.types, sink.limit, sink.offset, threads);
    OrderBys.SinkBatches(op, batches, lanes);
    result := op.result.value;
    SortGives(sink, rows, result);
  }

  method RunGroups(sink: Sink, batches: seq<RecordBatch>, lanes: seq<nat>, threads: nat, types: seq<ColumnType>)
    returns (result: RecordBatch)
    requires sink.GroupInto? && threads > 0 && |lanes| == |batches| && forall i :: 0 <= i < |lanes| ==> lanes[i] < threads
    requires AllValid(batches) && AllTyped(batches, types) && SinkOk(sink, types)
    requires Manageable(sink, AllRows(batches), types)
    ensures SinkGives(sink, AllRows(batches), result)
  {
    forall i | 0 <= i < |batches| ensures GroupBys.BatchOk(sink.cols, sink.types, sink.functions, batches[i]) {
      BatchTyped(batches, types, i);
      GroupBatchOk(batches[i], types, sink.cols, sink.types, sink.functions);
    }
    var op := new GroupBys.GroupBySink(sink.cols, sink.types, sink.functions, threads);
    GroupBys.SinkAll(op, batches, lanes);
    result := op.result.value;
  }

  method RunTotals(sink: Sink, batches: seq<RecordBatch>, lanes: seq<nat>, threads: nat, types: seq<ColumnType>)
    returns (result: RecordBatch)
    requires sink.TotalInto? && threads > 0 && |lanes| == |batches| && forall i :: 0 <= i < |lanes| ==> lanes[i] < threads
    requires AllValid(batches) && AllTyped(batches, types) && SinkOk(sink, types)
    requires Manageable(sink, AllRows(batches), types)
    ensures SinkGives(sink, AllRows(batches), result)
  {
    forall i | 0 <= i < |batches| ensures GlobalAggregation.Readable(sink.functions, batches[i]) {
      BatchTyped(batches, types, i);
      TotalBatchOk(batches[i], types, sink.functions);
    }
    var op := new GlobalAggregation.AggregationSink(sink.functions, threads);
    GlobalAggregation.SinkAll(op, batches, lanes);
    result := op.result.value;
  }

  /** The sink operators deliver what `SinkGives` says, for every assignment of the batches to threads. */
  method RunSink(sink: Sink, batches: seq<RecordBatch>, lanes: seq<nat>, threads: nat, types: seq<ColumnType>)
    returns (result: RecordBatch)
    requires !sink.Collect? && threads > 0 && |lanes| == |batches| && forall i :: 0 <= i < |lanes| ==> lanes[i] < threads
    requires AllValid(batches) && AllTyped(batches, types) && SinkOk(sink, types)
    requires Manageable(sink, AllRows(batches), types)
    ensures SinkGives(sink, AllRows(batches), result)
  {
    match sink
    case SortInto(_, _, _, _) => result := RunSort(sink, batches, lanes, threads, types);
    case GroupInto(_, _, _) => result := RunGroups(sink, batches, lanes, threads, types);
    case TotalInto(_) => result := RunTotals(sink, batches, lanes, threads, types);
  }
}
