/**
 AggregationSinkSourceOperator (src/execution/OperatorsBase.cpp): aggregates without GROUP BY.  Each function keeps
 one state per thread; Finalize folds the threads' states into a single row.
 */
module GlobalAggregation {
  import opened Values
  import opened Wrappers
  import opened Batches
  import opened Builders
  import opened Aggregates
  import opened GroupBy
  import Sequences

  /** Every row of the batch has what the aggregates read. */
  ghost predicate Readable(fs: seq<AggFunction>, b: RecordBatch) {
    Valid(b) && forall a :: 0 <= a < |fs| ==> AllRead(fs[a], Rows(b))
  }

  /** Update on one thread's state: COUNT adds the row count, the others take the rows one by one. */
  method UpdateState(f: AggFunction, st: AggState, b: RecordBatch, ghost rows: seq<Row>) returns (r: AggState)
    requires AllRead(f, rows) && Represents(f, st, rows) && Valid(b) && AllRead(f, Rows(b))
    ensures AllRead(f, rows + Rows(b)) && Represents(f, r, rows + Rows(b))
  {
    ghost var more := Rows(b);
    if f.Count? {
      r := Counter(Wrap(TWO_63, st.n + b.numRows));
      WrapAdd(TWO_63, |rows|, b.numRows);
    } else {
      ghost var seen := rows;
      r := st;
      Sequences.Empties(rows);
      for i := 0 to b.numRows
        invariant seen == rows + more[..i] && AllRead(f, seen) && Represents(f, r, seen)
      {
        r := UpdateRow(f, r, b, i, seen);
        Sequences.PrefixSnoc(more, i);
        Sequences.Regroup(rows, more[..i], [more[i]]);
        seen := seen + [more[i]];
      }
      assert more[..b.numRows] == more;
    }
  }

  method UpdateRow(f: AggFunction, st: AggState, b: RecordBatch, i: nat, ghost seen: seq<Row>) returns (r: AggState)
    requires !f.Count? && Valid(b) && AllRead(f, Rows(b)) && i < b.numRows && AllRead(f, seen) && Represents(f, st, seen)
    ensures AllRead(f, seen + [Rows(b)[i]]) && Represents(f, r, seen + [Rows(b)[i]])
  {
    ghost var row := Rows(b)[i];
    assert Reads(f, row);
    CellOfRow(b, i, f.col);
    UpdateRepresents(f, st, seen, row);
    r := Step(f, st, b.columns[f.col].data[PhysicalIndex(b, i)]);
  }

  /** WriteResult: the threads' states, one after the other, into one value. */
  method WriteResult(f: AggFunction, states: seq<AggState>, ghost lanes: seq<seq<Row>>) returns (v: Value)
    requires AggOk(f, states, lanes)
    ensures AllRead(f, Sequences.Concat(lanes))
    ensures IsAggregate(f, v, Sequences.Concat(lanes)) <==> Exact(f, Sequences.Concat(lanes))
  {
    var total := Fresh(f);
    FreshRepresents(f);
    for t := 0 to |states|
      invariant AllRead(f, Sequences.Concat(lanes[..t])) && Represents(f, total, Sequences.Concat(lanes[..t]))
    {
      CombineRepresents(f, total, Sequences.Concat(lanes[..t]), states[t], lanes[t]);
      assert lanes[..t + 1][..t] == lanes[..t];
      total := Combine(f, total, states[t]);
    }
    assert lanes[..|states|] == lanes;
    v := FinalValue(f, total);
    ResultIsAggregate(f, total, Sequences.Concat(lanes));
  }

  /** The one row without GROUP BY: every aggregate over all rows. */
  ghost predicate IsTotal(fs: seq<AggFunction>, row: Row, input: seq<Row>) {
    |row| == |fs| && forall a :: 0 <= a < |fs| ==> AllRead(fs[a], input) && IsAggregate(fs[a], row[a], input)
  }

  /** Every accumulator can hold its result over these rows. */
  ghost predicate AllExact(fs: seq<AggFunction>, input: seq<Row>) {
    forall a :: 0 <= a < |fs| ==> AllRead(fs[a], input) && Exact(fs[a], input)
  }

  class AggregationSink {
    const functions: seq<AggFunction>
    const numThreads: nat
    /** By function, then by thread. */
    var states: seq<seq<AggState>>
    var result: Option<RecordBatch>
    var emitted: bool
    ghost var seen: seq<seq<Row>>

    ghost predicate Valid()
      reads this
    {
      |seen| == numThreads && AggsOk(functions, states, seen)
    }

    constructor (functions: seq<AggFunction>, numThreads: nat)
      ensures Valid() && result.None? && !emitted && this.functions == functions && this.numThreads == numThreads
      ensures forall t :: 0 <= t < numThreads ==> seen[t] == []
    {
      this.functions, this.numThreads := functions, numThreads;
      states := seq(|functions|, a requires 0 <= a < |functions| => seq(numThreads, _ => Fresh(functions[a])));
      seen := seq(numThreads, _ => []);
      result, emitted := None, false;
      forall a | 0 <= a < |functions| ensures Represents(functions[a], Fresh(functions[a]), []) {
        FreshRepresents(functions[a]);
      }
    }

    method Sink(batch: RecordBatch, t: nat)
      requires Valid() && t < numThreads && Readable(functions, batch)
      modifies this`states, this`seen
      ensures Valid() && seen == old(seen)[t := old(seen[t]) + Rows(batch)]
      ensures forall a, u :: 0 <= a < |functions| && 0 <= u < numThreads && u != t ==> states[a][u] == old(states[a][u])
    {
      var updated := UpdateThread(functions, states, t, batch, seen);
      ghost var rows := seen[t := seen[t] + Rows(batch)];
      states, seen := updated, rows;
    }

    /** Finalize: one row with every aggregate over the rows of all threads. */
    method Finalize(ghost input: seq<Row>)
      requires Valid() && multiset(Sequences.Concat(seen)) == multiset(input)
      modifies this`result
      ensures result.Some? && Batches.Valid(result.value) && result.value.sel.None? && result.value.numRows == 1
      ensures TypesOf(result.value.columns) == ResultTypes(functions)
      ensures IsTotal(functions, Rows(result.value)[0], input) <==> AllExact(functions, input)
    {
      var b := WriteRow(functions, states, seen, input);
      result := Some(b);
    }

    /** GetData: the result goes to the first caller only. */
    method GetData() returns (b: Option<RecordBatch>)
      modifies this`emitted, this`result
      ensures emitted
      ensures b == if old(emitted) then None else old(result)
      ensures result == if old(emitted) then old(result) else None
    {
      if emitted {
        b := None;
      } else {
        emitted := true;
        b := result;
        result := None;
      }
    }
  }

  method UpdateThread(fs: seq<AggFunction>, states: seq<seq<AggState>>, t: nat, b: RecordBatch, ghost seen: seq<seq<Row>>)
    returns (r: seq<seq<AggState>>)
    requires AggsOk(fs, states, seen) && t < |seen| && Readable(fs, b)
    ensures AggsOk(fs, r, seen[t := seen[t] + Rows(b)])
    ensures forall a, u :: 0 <= a < |fs| && 0 <= u < |seen| && u != t ==> r[a][u] == states[a][u]
  {
    r := [];
    ghost var goal := seen[t := seen[t] + Rows(b)];
    for a := 0 to |fs|
      invariant |r| == a && forall c :: 0 <= c < a ==> AggOk(fs[c], r[c], goal)
      invariant forall c, u :: 0 <= c < a && 0 <= u < |seen| && u != t ==> r[c][u] == states[c][u]
    {
      var st := UpdateState(fs[a], states[a][t], b, seen[t]);
      r := r + [states[a][t := st]];
    }
  }

  method WriteRow(fs: seq<AggFunction>, states: seq<seq<AggState>>, ghost seen: seq<seq<Row>>, ghost input: seq<Row>)
    returns (b: RecordBatch)
    requires AggsOk(fs, states, seen) && multiset(Sequences.Concat(seen)) == multiset(input)
    ensures Valid(b) && b.sel.None? && b.numRows == 1 && TypesOf(b.columns) == ResultTypes(fs)
    ensures IsTotal(fs, Rows(b)[0], input) <==> AllExact(fs, input)
  {
    var columns: seq<Column> := [];
    for a := 0 to |fs|
      invariant |columns| == a && Aligned(columns, 1)
      invariant forall c :: 0 <= c < a ==> columns[c].ty == ResultTypes(fs)[c]
      invariant forall c :: 0 <= c < a ==>
                  AllRead(fs[c], input) && (IsAggregate(fs[c], columns[c].data[0], input) <==> Exact(fs[c], input))
    {
      var v := WriteResult(fs[a], states[a], seen);
      SameForBag(fs[a], v, Sequences.Concat(seen), input);
      columns := columns + [Column(Aggregates.ResultType(fs[a]), [v])];
    }
    b := RecordBatch(1, None, columns);
    HeldIsBatch(columns, 1);
    assert Rows(b)[0] == RowAt(columns, 0);
  }

  /** Any deliveries to any threads in any order, then Finalize. */
  method SinkAll(op: AggregationSink, batches: seq<RecordBatch>, lanes: seq<nat>)
    requires op.Valid() && |lanes| == |batches|
    requires forall t :: 0 <= t < op.numThreads ==> op.seen[t] == []
    requires forall i :: 0 <= i < |batches| ==> Readable(op.functions, batches[i]) && lanes[i] < op.numThreads
    requires AllValid(batches)
    modifies op
    ensures op.result.Some? && Valid(op.result.value) && op.result.value.sel.None? && op.result.value.numRows == 1
    ensures TypesOf(op.result.value.columns) == ResultTypes(op.functions)
    ensures IsTotal(op.functions, Rows(op.result.value)[0], AllRows(batches)) <==> AllExact(op.functions, AllRows(batches))
  {
    Sequences.ConcatOfEmpties(op.seen);
    for i := 0 to |batches|
      invariant op.Valid()
      invariant multiset(Sequences.Concat(op.seen)) == multiset(AllRows(batches[..i]))
    {
      PrefixRows(batches, i);
      Sequences.ConcatAppendTo(op.seen, lanes[i], Rows(batches[i]));
      op.Sink(batches[i], lanes[i]);
    }
    assert batches[..|batches|] == batches;
    op.Finalize(AllRows(batches));
  }
}
