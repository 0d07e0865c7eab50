/**
 OrderBySinkSourceOperator (src/execution/OperatorsBase.cpp) over batches without columns: Sink takes a thread that
 holds no column for one that has not started, so each batch makes it forget the rows of the batches before.
 */
module ColumnlessSorts {
  import opened Values
  import opened Wrappers
  import opened Batches
  import opened Builders
  import opened OrderBy
  import Sequences

  function SumOf(s: seq<nat>): nat {
    if s == [] then 0 else SumOf(s[..|s| - 1]) + s[|s| - 1]
  }

  lemma {:induction false} SumUpdated(s: seq<nat>, t: nat, x: nat)
    requires t < |s|
    ensures SumOf(s[t := x]) == SumOf(s) - s[t] + x
    decreases |s|
  {
    var n := |s| - 1;
    if t == n {
      assert s[t := x][..n] == s[..n];
    } else {
      assert s[t := x][..n] == s[..n][t := x];
      SumUpdated(s[..n], t, x);
    }
  }

  lemma {:induction false} SumOfZeros(n: nat)
    ensures SumOf(seq(n, _ => 0)) == 0
  {
    if n > 0 {
      SumOfZeros(n - 1);
      assert seq(n, _ => 0)[..n - 1] == seq(n - 1, _ => 0);
    }
  }

  /** The rows of the last batch that each thread was given. */
  function LastRows(batches: seq<RecordBatch>, lanes: seq<nat>, threads: nat): (r: seq<nat>)
    requires |lanes| == |batches| && forall i :: 0 <= i < |lanes| ==> lanes[i] < threads
    ensures |r| == threads
  {
    if batches == [] then seq(threads, _ => 0)
    else
      var n := |batches| - 1;
      LastRows(batches[..n], lanes[..n], threads)[lanes[n] := batches[n].numRows]
  }

  function AllRowCount(batches: seq<RecordBatch>): nat {
    if batches == [] then 0 else AllRowCount(batches[..|batches| - 1]) + batches[|batches| - 1].numRows
  }

  /** A batch with rows is the last of its thread. */
  predicate OnlyLastCounts(batches: seq<RecordBatch>, lanes: seq<nat>)
    requires |lanes| == |batches|
  {
    forall i, j :: 0 <= i < j < |batches| && lanes[i] == lanes[j] ==> batches[i].numRows == 0
  }

  lemma {:induction false} LastRowsOf(batches: seq<RecordBatch>, lanes: seq<nat>, threads: nat, t: nat)
    requires |lanes| == |batches| && (forall i :: 0 <= i < |lanes| ==> lanes[i] < threads) && t < threads
    requires OnlyLastCounts(batches, lanes)
    ensures LastRows(batches, lanes, threads)[t] == 0 <==> forall i :: 0 <= i < |batches| && lanes[i] == t ==> batches[i].numRows == 0
    decreases |batches|
  {
    if batches != [] {
      var n := |batches| - 1;
      LastRowsOf(batches[..n], lanes[..n], threads, t);
    }
  }

  /** The threads' last batches hold all rows exactly if no other batch has any. */
  lemma {:induction false} LastIsAll(batches: seq<RecordBatch>, lanes: seq<nat>, threads: nat)
    requires |lanes| == |batches| && forall i :: 0 <= i < |lanes| ==> lanes[i] < threads
    ensures SumOf(LastRows(batches, lanes, threads)) <= AllRowCount(batches)
    ensures SumOf(LastRows(batches, lanes, threads)) == AllRowCount(batches) <==> OnlyLastCounts(batches, lanes)
    decreases |batches|
  {
    if batches == [] {
      SumOfZeros(threads);
    } else {
      var n := |batches| - 1;
      var before := LastRows(batches[..n], lanes[..n], threads);
      LastIsAll(batches[..n], lanes[..n], threads);
      SumUpdated(before, lanes[n], batches[n].numRows);
      if OnlyLastCounts(batches[..n], lanes[..n]) {
        LastRowsOf(batches[..n], lanes[..n], threads, lanes[n]);
      }
      assert OnlyLastCounts(batches, lanes) ==> OnlyLastCounts(batches[..n], lanes[..n]);
    }
  }

  lemma {:induction false} LastAtMost(batches: seq<RecordBatch>, lanes: seq<nat>, threads: nat, t: nat)
    requires |lanes| == |batches| && (forall i :: 0 <= i < |lanes| ==> lanes[i] < threads) && t < threads
    ensures LastRows(batches, lanes, threads)[t] <= AllRowCount(batches)
    decreases |batches|
  {
    if batches != [] {
      var n := |batches| - 1;
      LastAtMost(batches[..n], lanes[..n], threads, t);
    }
  }

  lemma {:induction false} CountOfPrefix(batches: seq<RecordBatch>, k: nat)
    requires k <= |batches|
    ensures AllRowCount(batches[..k]) <= AllRowCount(batches)
    decreases |batches|
  {
    if k < |batches| {
      assert batches[..|batches| - 1][..k] == batches[..k];
      CountOfPrefix(batches[..|batches| - 1], k);
    } else {
      assert batches[..k] == batches;
    }
  }

  /** No thread ever holds more than all rows. */
  lemma Room(batches: seq<RecordBatch>, lanes: seq<nat>, threads: nat, i: nat)
    requires |lanes| == |batches| && (forall j :: 0 <= j < |lanes| ==> lanes[j] < threads) && i < |batches|
    ensures LastRows(batches[..i], lanes[..i], threads)[lanes[i]] + batches[i].numRows <= AllRowCount(batches)
  {
    LastAtMost(batches[..i], lanes[..i], threads, lanes[i]);
    CountOfPrefix(batches, i + 1);
    assert batches[..i + 1][..i] == batches[..i];
  }

  /** A thread's trimming is not seen in what is delivered. */
  lemma {:induction false} TrimsUnseen(last: seq<nat>, threads: seq<ThreadState>, total: Option<nat>)
    requires |threads| == |last| && forall t :: 0 <= t < |last| ==> threads[t].accum == AfterSink(total, last[t])
    ensures CutAt(total, SumAccum(threads)) == CutAt(total, SumOf(last)) && SumAccum(threads) <= SumOf(last)
    decreases |last|
  {
    if last != [] {
      var n := |last| - 1;
      TrimsUnseen(last[..n], threads[..n], total);
    }
  }

  /** Which of n and m rows the limit and the offset tell apart. */
  lemma SameDelivered(m: nat, n: nat, total: Option<nat>, offset: Option<nat>)
    requires m <= n
    ensures Delivered(m, total, offset) == Delivered(n, total, offset)
        <==> m == n || (total.Some? && m >= total.value) || (offset.Some? && CutAt(total, n) <= offset.value)
  {
  }

  /** What the threads hold at the end decides what is delivered. */
  lemma HeldAtEnd(batches: seq<RecordBatch>, lanes: seq<nat>, held: seq<ThreadState>, total: Option<nat>, offset: Option<nat>)
    requires |lanes| == |batches| && forall i :: 0 <= i < |lanes| ==> lanes[i] < |held|
    requires forall t :: 0 <= t < |held| ==> held[t].accum == AfterSink(total, LastRows(batches, lanes, |held|)[t])
    ensures SumAccum(held) <= AllRowCount(batches)
    ensures var kept := SumOf(LastRows(batches, lanes, |held|));
            && Delivered(SumAccum(held), total, offset) == Delivered(kept, total, offset)
            && (Delivered(kept, total, offset) == Delivered(AllRowCount(batches), total, offset) <==> Suffices(batches, lanes, kept, total, offset))
  {
    var last := LastRows(batches, lanes, |held|);
    LastIsAll(batches, lanes, |held|);
    TrimsUnseen(last, held, total);
    SameDelivered(SumOf(last), AllRowCount(batches), total, offset);
  }

  /** No batch before a thread's last one has rows, or the limit or the offset hides that they are missing. */
  predicate Suffices(batches: seq<RecordBatch>, lanes: seq<nat>, kept: nat, total: Option<nat>, offset: Option<nat>)
    requires |lanes| == |batches|
  {
    || OnlyLastCounts(batches, lanes) || (total.Some? && kept >= total.value)
    || (offset.Some? && CutAt(total, AllRowCount(batches)) <= offset.value)
  }

  /**
   A whole life of such an operator.  It answers for the rows of each thread's last batch, and delivers as many rows as
   it was asked for exactly if no batch before a thread's last one has rows, or the limit or the offset hides them.
   */
  method SinkColumnless(op: OrderBySink, batches: seq<RecordBatch>, lanes: seq<nat>)
    requires op.Valid() && op.columnTypes == [] && |lanes| == |batches|
    requires forall t :: 0 <= t < |op.threads| ==> op.threads[t].accum == 0
    requires forall i :: 0 <= i < |batches| ==> Valid(batches[i]) && batches[i].columns == [] && lanes[i] < |op.threads|
    requires AllRowCount(batches) <= TWO_32
    modifies op
    ensures |op.threads| == old(|op.threads|) && op.result.Some? && op.result.value.columns == []
    ensures var kept := SumOf(LastRows(batches, lanes, |op.threads|));
            && op.result.value.numRows == Delivered(kept, op.totalLimit, op.offset)
            && (op.result.value.numRows == Delivered(AllRowCount(batches), op.totalLimit, op.offset)
                <==> Suffices(batches, lanes, kept, op.totalLimit, op.offset))
  {
    ghost var threads := |op.threads|;
    for i := 0 to |batches|
      invariant op.Valid() && |op.threads| == threads
      invariant forall t :: 0 <= t < threads ==> op.threads[t].accum == AfterSink(op.totalLimit, LastRows(batches[..i], lanes[..i], threads)[t])
    {
      assert batches[..i + 1][..i] == batches[..i] && lanes[..i + 1][..i] == lanes[..i];
      Room(batches, lanes, threads, i);
      op.Sink(batches[i], lanes[i]);
    }
    assert batches[..|batches|] == batches && lanes[..|lanes|] == lanes;
    HeldAtEnd(batches, lanes, op.threads, op.totalLimit, op.offset);
    op.Finalize();
  }

  /** Two batches of one row for one thread: the answer is one row. */
  method ForgetsTheFirst() returns (op: OrderBySink)
    ensures fresh(op) && op.limit == None && op.offset == None && op.result.Some? && op.result.value.numRows == 1
  {
    op := new OrderBySink([], [], None, None, 1);
    var one := RecordBatch(1, None, []);
    TwoOfOne(one);
    SinkColumnless(op, [one, one], [0, 0]);
  }

  lemma TwoOfOne(b: RecordBatch)
    requires b.numRows == 1
    ensures AllRowCount([b, b]) == 2 && SumOf(LastRows([b, b], [0, 0], 1)) == 1
  {
    assert AllRowCount([b]) == 1 && AllRowCount([b, b][..1]) == 1 by { assert [b, b][..1] == [b]; }
    assert [b, b][..1] == [b] && [b][..0] == [] && [0, 0][..1] == [0];
    assert LastRows([b, b], [0, 0], 1) == [1] && [1][..0] == [];
  }
}
