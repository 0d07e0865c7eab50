/**
 OrderBySinkSourceOperator (src/execution/OperatorsBase.cpp): each thread collects the rows it sinks and, with a
 limit, now and then throws away all but total_limit of them; Finalize merges, sorts, cuts and drops the offset.
 */
module OrderBy {
  import opened Values
  import opened Wrappers
  import opened Batches
  import opened Builders
  import opened Orderings
  import opened Rankings
  import Sequences

  /** The builders of one thread and how many rows they hold; no builders before its first batch. */
  datatype ThreadState = ThreadState(columns: seq<Column>, accum: nat)

  /** limit + offset in size_t. */
  function TotalLimit(limit: Option<nat>, offset: Option<nat>): (r: Option<nat>) {
    if limit.Some? && offset.Some? then Some((limit.value + offset.value) % 0x1_0000_0000_0000_0000) else limit
  }

  /** Row count above which a thread trims, in size_t. */
  function Threshold(total: nat): nat {
    (total * 10) % 0x1_0000_0000_0000_0000
  }

  function Max(a: nat, b: nat): nat { if a < b then b else a }

  function FirstRows<T>(p: seq<T>, k: Option<nat>): seq<T> {
    if k.Some? then First(p, k.value) else p
  }

  function Skip<T>(p: seq<T>, offset: Option<nat>): seq<T> {
    if offset.None? then p else if offset.value < |p| then p[offset.value..] else []
  }

  /** What ORDER BY ... LIMIT ... OFFSET asks for, on rows already in order: P[offset .. min(limit + offset, N)]. */
  function Window<T>(p: seq<T>, limit: Option<nat>, offset: Option<nat>): seq<T> {
    var from := if offset.None? then 0 else if offset.value < |p| then offset.value else |p|;
    var to := if limit.Some? && from + limit.value < |p| then from + limit.value else |p|;
    p[from..to]
  }

  ghost predicate Legal(keys: seq<SortKey>, out: seq<Row>, input: seq<Row>, limit: Option<nat>, offset: Option<nat>) {
    exists p :: Arranges(RowOrder(keys), p, input) && out == Window(p, limit, offset)
  }

  /** What the operator delivers: a sorted arrangement cut at the machine's total_limit, less the offset. */
  ghost predicate Delivers(keys: seq<SortKey>, out: seq<Row>, input: seq<Row>, limit: Option<nat>, offset: Option<nat>) {
    exists p :: Arranges(RowOrder(keys), p, input) && out == Skip(FirstRows(p, TotalLimit(limit, offset)), offset)
  }

  /** limit + offset fits size_t, or the offset is past the end anyway. */
  predicate NoWrap(limit: Option<nat>, offset: Option<nat>, rows: nat) {
    limit.Some? && offset.Some? ==> limit.value + offset.value < TWO_64 || offset.value >= rows
  }

  predicate SizeT(o: Option<nat>) {
    o.Some? ==> o.value < TWO_64
  }

  lemma CutIsWindow<T>(p: seq<T>, limit: Option<nat>, offset: Option<nat>)
    requires SizeT(limit) && SizeT(offset) && NoWrap(limit, offset, |p|)
    ensures Skip(FirstRows(p, TotalLimit(limit, offset)), offset) == Window(p, limit, offset)
  {
  }

  /** Where limit + offset wraps, everything is cut off, whatever should have been delivered. */
  lemma WrapLosesAll<T>(p: seq<T>, limit: Option<nat>, offset: Option<nat>)
    requires SizeT(limit) && SizeT(offset) && !NoWrap(limit, offset, |p|)
    ensures Skip(FirstRows(p, TotalLimit(limit, offset)), offset) == [] && Window(p, limit, offset) != []
  {
    assert (limit.value + offset.value) % TWO_64 == limit.value + offset.value - TWO_64;
  }

  /** ORDER BY meets its meaning on every run exactly when limit + offset does not wrap or the offset is past the end. */
  lemma LegalUnlessWrapped(keys: seq<SortKey>, input: seq<Row>, limit: Option<nat>, offset: Option<nat>)
    requires SizeT(limit) && SizeT(offset)
    ensures (forall out :: Delivers(keys, out, input, limit, offset) ==> Legal(keys, out, input, limit, offset))
        <==> NoWrap(limit, offset, |input|)
  {
    RowOrderIsWeak(keys);
    if NoWrap(limit, offset, |input|) {
      forall out | Delivers(keys, out, input, limit, offset) ensures Legal(keys, out, input, limit, offset) {
        var p :| Arranges(RowOrder(keys), p, input) && out == Skip(FirstRows(p, TotalLimit(limit, offset)), offset);
        Sequences.SameBagSameLength(p, input);
        CutIsWindow(p, limit, offset);
      }
    } else {
      var p := SortedExists(RowOrder(keys), input);
      Sequences.SameBagSameLength(p, input);
      WrapLosesAll(p, limit, offset);
      assert Delivers(keys, [], input, limit, offset);
      forall q | Arranges(RowOrder(keys), q, input) ensures Window(q, limit, offset) != [] {
        Sequences.SameBagSameLength(q, input);
        WrapLosesAll(q, limit, offset);
      }
      assert !Legal(keys, [], input, limit, offset);
    }
  }

  lemma DeliversLegal(keys: seq<SortKey>, out: seq<Row>, input: seq<Row>, limit: Option<nat>, offset: Option<nat>)
    requires SizeT(limit) && SizeT(offset) && NoWrap(limit, offset, |input|) && Delivers(keys, out, input, limit, offset)
    ensures Legal(keys, out, input, limit, offset)
  {
    LegalUnlessWrapped(keys, input, limit, offset);
  }

  // ----- what was asked for, told by the cells -----

  /** `out` is p[offset .. min(offset + limit, |p|)]. */
  ghost predicate IsWindow<T>(out: seq<T>, p: seq<T>, limit: Option<nat>, offset: Option<nat>) {
    var from := if offset.Some? then offset.value else 0;
    && |out| == (if from >= |p| then 0 else if limit.Some? && limit.value < |p| - from then limit.value else |p| - from)
    && forall i :: 0 <= i < |out| ==> out[i] == p[from + i]
  }

  lemma WindowExactly<T>(out: seq<T>, p: seq<T>, limit: Option<nat>, offset: Option<nat>)
    ensures out == Window(p, limit, offset) <==> IsWindow(out, p, limit, offset)
  {
    var w := Window(p, limit, offset);
    assert IsWindow(w, p, limit, offset);
    if IsWindow(out, p, limit, offset) {
      assert |out| == |w|;
      forall i | 0 <= i < |out| ensures out[i] == w[i] {
      }
    }
  }

  /** All input rows put into the order of the keys, numbers by size and strings byte by byte, and the window of that. */
  ghost predicate AsAsked(keys: seq<SortKey>, out: seq<Row>, input: seq<Row>, limit: Option<nat>, offset: Option<nat>) {
    exists p: seq<Row> :: multiset(p) == multiset(input) && InKeyOrder(keys, p) && IsWindow(out, p, limit, offset)
  }

  /** An answer is legal exactly if it is what was asked for. */
  lemma LegalExactly(keys: seq<SortKey>, out: seq<Row>, input: seq<Row>, limit: Option<nat>, offset: Option<nat>)
    ensures Legal(keys, out, input, limit, offset) <==> AsAsked(keys, out, input, limit, offset)
  {
    if Legal(keys, out, input, limit, offset) {
      var p :| Arranges(RowOrder(keys), p, input) && out == Window(p, limit, offset);
      SortedExactly(keys, p);
      WindowExactly(out, p, limit, offset);
    }
    if AsAsked(keys, out, input, limit, offset) {
      var p :| multiset(p) == multiset(input) && InKeyOrder(keys, p) && IsWindow(out, p, limit, offset);
      SortedExactly(keys, p);
      WindowExactly(out, p, limit, offset);
      assert Arranges(RowOrder(keys), p, input);
    }
  }

  lemma PartInOrder(keys: seq<SortKey>, p: seq<Row>, from: nat, to: nat)
    requires InKeyOrder(keys, p) && from <= to <= |p|
    ensures InKeyOrder(keys, p[from..to])
  {
  }

  /** Whatever is delivered is in the order of the keys, and it is what was asked for unless limit + offset wraps. */
  lemma DeliveredInOrder(keys: seq<SortKey>, out: seq<Row>, input: seq<Row>, limit: Option<nat>, offset: Option<nat>)
    requires SizeT(limit) && SizeT(offset) && Delivers(keys, out, input, limit, offset)
    ensures InKeyOrder(keys, out)
    ensures NoWrap(limit, offset, |input|) ==> AsAsked(keys, out, input, limit, offset)
  {
    var p :| Arranges(RowOrder(keys), p, input) && out == Skip(FirstRows(p, TotalLimit(limit, offset)), offset);
    SortedExactly(keys, p);
    var first := FirstRows(p, TotalLimit(limit, offset));
    PartInOrder(keys, p, 0, |first|);
    assert first == p[..|first|];
    PartInOrder(keys, first, |first| - |out|, |first|);
    assert out == first[|first| - |out|..];
    if NoWrap(limit, offset, |input|) {
      DeliversLegal(keys, out, input, limit, offset);
      LegalExactly(keys, out, input, limit, offset);
    }
  }

  // ----- row numbers -----

  /** The row at a physical index; every index compared exists, the default only keeps this total. */
  function RowIn(columns: seq<Column>, p: nat): Row {
    if forall c :: 0 <= c < |columns| ==> p < |columns[c].data| then RowAt(columns, p) else []
  }

  /** `cmp` on row numbers of the batch being sorted. */
  function IndexOrder(keys: seq<SortKey>, columns: seq<Column>): Comparator<nat> {
    (a: nat, b: nat) => Before(keys, RowIn(columns, a), RowIn(columns, b))
  }

  lemma IndexOrderIsWeak(keys: seq<SortKey>, columns: seq<Column>)
    ensures WeakOrder(IndexOrder(keys, columns))
  {
    var lt := IndexOrder(keys, columns);
    forall a, b | lt(a, b) ensures !lt(b, a) {
      BeforeAsymmetric(keys, RowIn(columns, a), RowIn(columns, b));
    }
    forall a, b, c | lt(a, b) ensures lt(a, c) || lt(c, b) {
      BeforeNegativelyTransitive(keys, RowIn(columns, a), RowIn(columns, b), RowIn(columns, c));
    }
  }

  lemma IotaInRange(columns: seq<Column>, n: nat, p: seq<nat>)
    requires Aligned(columns, n) && multiset(p) == multiset(Iota(n))
    ensures |p| == n && InRange(columns, p)
  {
    Sequences.SameBagSameLength(p, Iota(n));
    forall i | 0 <= i < |p| ensures p[i] < n {
      assert p[i] in multiset(p);
      assert p[i] in Iota(n);
    }
  }

  /** Order facts about row numbers are order facts about the rows. */
  lemma IndicesToRows(keys: seq<SortKey>, columns: seq<Column>, low: seq<nat>, high: seq<nat>)
    requires InRange(columns, low) && InRange(columns, high)
    ensures Sorted(IndexOrder(keys, columns), low) ==> Sorted(RowOrder(keys), RowsOf(columns, low))
    ensures Below(IndexOrder(keys, columns), low, high) ==> Below(RowOrder(keys), RowsOf(columns, low), RowsOf(columns, high))
  {
    assert forall i :: 0 <= i < |low| ==> RowIn(columns, low[i]) == RowsOf(columns, low)[i];
    assert forall i :: 0 <= i < |high| ==> RowIn(columns, high[i]) == RowsOf(columns, high)[i];
  }

  // ----- what a thread has kept and thrown away -----

  /** The builders fit the column types and hold `accum` rows. */
  ghost predicate Shaped(types: seq<ColumnType>, st: ThreadState) {
    && Aligned(st.columns, st.accum)
    && (TypesOf(st.columns) == types || (st.columns == [] && st.accum == 0))
  }

  /** Nothing is lost but rows that are dominated by total_limit kept ones. */
  ghost predicate Accounted(keys: seq<SortKey>, total: Option<nat>, kept: seq<Row>, gone: seq<Row>, seen: seq<Row>) {
    AccountedBy(RowOrder(keys), total, kept, gone, seen)
  }

  ghost predicate AccountedBy<R(!new)>(lt: Comparator<R>, total: Option<nat>, kept: seq<R>, gone: seq<R>, seen: seq<R>) {
    && multiset(kept) + multiset(gone) == multiset(seen)
    && match total
       case None => gone == []
       case Some(k) => Dominated(lt, kept, gone, k)
  }

  /** One thread's builders with its ghost history.  Without any column the builders count rows but hold none. */
  ghost predicate StateOk(keys: seq<SortKey>, types: seq<ColumnType>, total: Option<nat>,
                          st: ThreadState, gone: seq<Row>, seen: seq<Row>) {
    && Shaped(types, st) && st.accum <= |seen|
    && (types != [] ==> Accounted(keys, total, HeldRows(st.columns, st.accum), gone, seen))
  }

  lemma SinkAccounted(keys: seq<SortKey>, total: Option<nat>, kept: seq<Row>, gone: seq<Row>, seen: seq<Row>, more: seq<Row>)
    requires Accounted(keys, total, kept, gone, seen)
    ensures Accounted(keys, total, kept + more, gone, seen + more)
  {
    if total.Some? {
      DominatedGrows(RowOrder(keys), kept, more, gone, total.value);
    }
  }

  lemma TrimAccounted(keys: seq<SortKey>, kept: seq<Row>, rows: seq<Row>, k: nat, gone: seq<Row>, seen: seq<Row>)
    requires Accounted(keys, Some(k), kept, gone, seen) && multiset(rows) == multiset(kept) && k <= |rows|
    requires Below(RowOrder(keys), rows[..k], rows[k..])
    ensures Accounted(keys, Some(k), rows[..k], gone + rows[k..], seen)
  {
    RowOrderIsWeak(keys);
    TrimKeeps(RowOrder(keys), kept, rows, k, gone, seen);
  }

  lemma TrimKeeps<R(!new)>(lt: Comparator<R>, kept: seq<R>, rows: seq<R>, k: nat, gone: seq<R>, seen: seq<R>)
    requires WeakOrder(lt) && AccountedBy(lt, Some(k), kept, gone, seen) && multiset(rows) == multiset(kept) && k <= |rows|
    requires Below(lt, rows[..k], rows[k..])
    ensures AccountedBy(lt, Some(k), rows[..k], gone + rows[k..], seen)
  {
    TrimDominates(lt, kept, rows, gone, k);
    Sequences.CutBag(rows, k, gone);
  }

  /** The rows behind a rearrangement of all row numbers, split at k. */
  lemma RearrangedRows(keys: seq<SortKey>, columns: seq<Column>, n: nat, p: seq<nat>, k: nat)
    requires Aligned(columns, n) && multiset(p) == multiset(Iota(n)) && k <= |p|
    ensures |p| == n && InRange(columns, p) && InRange(columns, p[..k])
    ensures multiset(RowsOf(columns, p)) == multiset(HeldRows(columns, n))
    ensures RowsOf(columns, p[..k]) == RowsOf(columns, p)[..k]
    ensures Below(IndexOrder(keys, columns), p[..k], p[k..]) ==>
              Below(RowOrder(keys), RowsOf(columns, p)[..k], RowsOf(columns, p)[k..])
    ensures Sorted(IndexOrder(keys, columns), p[..k]) ==> Sorted(RowOrder(keys), RowsOf(columns, p)[..k])
  {
    IotaInRange(columns, n, p);
    RowsOfBag(columns, p, Iota(n));
    RowsOfCut(columns, p, k);
    IndicesToRows(keys, columns, p[..k], p[k..]);
  }

  lemma RowsOfCut(columns: seq<Column>, p: seq<nat>, k: nat)
    requires InRange(columns, p) && k <= |p|
    ensures InRange(columns, p[..k]) && InRange(columns, p[k..])
    ensures RowsOf(columns, p[..k]) == RowsOf(columns, p)[..k] && RowsOf(columns, p[k..]) == RowsOf(columns, p)[k..]
  {
  }

  /** Accounts of several threads add up. */
  lemma MergeAccounted(keys: seq<SortKey>, total: Option<nat>, kept: seq<Row>, gone: seq<Row>, seen: seq<Row>,
                       kept': seq<Row>, gone': seq<Row>, seen': seq<Row>)
    requires Accounted(keys, total, kept, gone, seen) && Accounted(keys, total, kept', gone', seen')
    ensures Accounted(keys, total, kept + kept', gone + gone', seen + seen')
  {
    if total.Some? {
      DominatedGrows(RowOrder(keys), kept, kept', gone, total.value);
      DominatedGrows(RowOrder(keys), kept', kept, gone', total.value);
      var all := gone + gone';
      forall i | 0 <= i < |all| ensures CountUpTo(RowOrder(keys), kept + kept', all[i]) >= total.value {
        assert all[i] == if i < |gone| then gone[i] else gone'[i - |gone|];
      }
    }
  }

  /** Sorting what was kept and taking the first total_limit gives the first total_limit of everything. */
  lemma FinalTop(keys: seq<SortKey>, total: Option<nat>, kept: seq<Row>, rows: seq<Row>, k: nat, gone: seq<Row>, seen: seq<Row>)
    requires Accounted(keys, total, kept, gone, seen) && multiset(rows) == multiset(kept) && k <= |rows|
    requires total.Some? && |rows| > total.value ==> k == total.value
    requires total.None? || |rows| <= total.value ==> k == |rows|
    requires Sorted(RowOrder(keys), rows[..k]) && Below(RowOrder(keys), rows[..k], rows[k..])
    ensures exists q :: Arranges(RowOrder(keys), q, seen) && rows[..k] == FirstRows(q, total)
  {
    RowOrderIsWeak(keys);
    var q := TopOfAll(RowOrder(keys), total, kept, rows, k, gone, seen);
  }

  lemma TopOfAll<R(!new)>(lt: Comparator<R>, total: Option<nat>, kept: seq<R>, rows: seq<R>, k: nat, gone: seq<R>, seen: seq<R>)
    returns (q: seq<R>)
    requires WeakOrder(lt) && AccountedBy(lt, total, kept, gone, seen) && multiset(rows) == multiset(kept) && k <= |rows|
    requires total.Some? && |rows| > total.value ==> k == total.value
    requires total.None? || |rows| <= total.value ==> k == |rows|
    requires Sorted(lt, rows[..k]) && Below(lt, rows[..k], rows[k..])
    ensures Arranges(lt, q, seen) && rows[..k] == FirstRows(q, total)
  {
    var first, rest := rows[..k], rows[k..];
    assert rows == first + rest;
    if total.None? {
      q := first;
    } else {
      DominatedBag(lt, kept, first + rest, gone, total.value);
      Sequences.CutBag(rows, k, gone);
      KeptTopIsTop(lt, seen, first, rest, gone, total.value);
      q :| Arranges(lt, q, seen) && first == First(q, total.value);
    }
  }

  lemma DominatedBag<R(!new)>(lt: Comparator<R>, kept: seq<R>, kept': seq<R>, gone: seq<R>, k: nat)
    requires Dominated(lt, kept, gone, k) && multiset(kept) == multiset(kept')
    ensures Dominated(lt, kept', gone, k)
  {
    forall i | 0 <= i < |gone| ensures CountUpTo(lt, kept', gone[i]) >= k {
      CountBag(lt, kept, kept', gone[i]);
    }
  }

  /** A sort has nothing to hand on if it was given no rows, or if limit and offset together ask for none. */
  predicate NothingLeft(rows: seq<Row>, limit: Option<nat>, offset: Option<nat>) {
    rows == [] || TotalLimit(limit, offset) == Some(0)
  }

  /** A thread never holds more than its trim threshold (or total_limit, should the threshold wrap below it). */
  predicate Bounded(total: Option<nat>, accum: nat) {
    total.Some? ==> accum <= Max(total.value, Threshold(total.value))
  }

  /** A thread is left with rows exactly if it has seen some and may keep one. */
  lemma KeepsSome(keys: seq<SortKey>, types: seq<ColumnType>, total: Option<nat>, st: ThreadState, gone: seq<Row>, seen: seq<Row>)
    requires types != [] && StateOk(keys, types, total, st, gone, seen) && Bounded(total, st.accum)
    ensures st.accum == 0 <==> seen == [] || total == Some(0)
  {
    var kept := HeldRows(st.columns, st.accum);
    if seen != [] {
      NoneLeftOfSome(keys, total, kept, gone, seen);
    }
  }

  /** If nothing is kept of some rows, all of them were thrown away, which a thread does only when it may keep none. */
  lemma NoneLeftOfSome(keys: seq<SortKey>, total: Option<nat>, kept: seq<Row>, gone: seq<Row>, seen: seq<Row>)
    requires Accounted(keys, total, kept, gone, seen) && seen != []
    ensures kept == [] ==> total == Some(0)
  {
    assert seen[0] in multiset(seen);
    assert kept == [] ==> |multiset(gone)| > 0;
    if total.Some? && gone != [] {
      assert kept == [] ==> CountUpTo(RowOrder(keys), kept, gone[0]) == 0;
    }
  }

  /** Every thread's builders with their history. */
  ghost predicate AllOk(keys: seq<SortKey>, types: seq<ColumnType>, total: Option<nat>, threads: seq<ThreadState>,
                        gone: seq<seq<Row>>, seen: seq<seq<Row>>) {
    && |threads| == |gone| == |seen|
    && forall t :: 0 <= t < |threads| ==>
         StateOk(keys, types, total, threads[t], gone[t], seen[t]) && Bounded(total, threads[t].accum)
  }

  lemma {:induction false} NoneHeld(keys: seq<SortKey>, types: seq<ColumnType>, total: Option<nat>, threads: seq<ThreadState>,
                                    gone: seq<seq<Row>>, seen: seq<seq<Row>>)
    requires types != [] && AllOk(keys, types, total, threads, gone, seen)
    ensures SumAccum(threads) == 0 <==> Sequences.Concat(seen) == [] || total == Some(0)
    decreases |threads|
  {
    if threads != [] {
      var n := |threads| - 1;
      assert StateOk(keys, types, total, threads[n], gone[n], seen[n]);
      NoneHeld(keys, types, total, threads[..n], gone[..n], seen[..n]);
      KeepsSome(keys, types, total, threads[n], gone[n], seen[n]);
    }
  }

  // ----- sorting and rebuilding columns -----

  /** Fresh builders filled with the chosen rows. */
  method Rebuild(types: seq<ColumnType>, columns: seq<Column>, n: nat, indices: seq<nat>) returns (r: seq<Column>)
    requires Aligned(columns, n) && |columns| == |types| && InRange(columns, indices)
    ensures TypesOf(r) == types && Aligned(r, |indices|)
    ensures HeldRows(r, |indices|) == RowsOf(columns, indices)
  {
    var none := EmptyBuilders(types);
    r := CopyColumns(none, columns, Some(indices), n);
    StackedRows(none, 0, columns, indices);
    assert HeldRows(none, 0) + RowsOf(columns, indices) == RowsOf(columns, indices);
  }

  method NthIndices(keys: seq<SortKey>, columns: seq<Column>, n: nat, k: nat) returns (p: seq<nat>)
    requires k < n <= TWO_32
    ensures multiset(p) == multiset(Iota(n)) && |p| == n && Below(IndexOrder(keys, columns), p[..k], p[k..])
  {
    var lim := k % 0x1_0000_0000;
    assert lim == k;
    var lt := IndexOrder(keys, columns);
    assert WeakOrder(lt) by { IndexOrderIsWeak(keys, columns); }
    p := NthElement(Iota(n), lim, lt);
  }

  /** Sink's copying: builders are made for the first batch, and its rows go behind those already held. */
  method AppendBatch(st: ThreadState, types: seq<ColumnType>, b: RecordBatch) returns (r: ThreadState)
    requires Shaped(types, st) && Valid(b) && TypesOf(b.columns) == types
    ensures Shaped(types, r) && TypesOf(r.columns) == types
    ensures r.accum == (if st.columns == [] then 0 else st.accum) + b.numRows
    ensures HeldRows(r.columns, r.accum) == (if st.columns == [] then [] else HeldRows(st.columns, st.accum)) + Rows(b)
  {
    var local := if st.columns == [] then ThreadState(EmptyBuilders(types), 0) else st;
    BatchRowsStacked(local.columns, local.accum, b);
    var columns := CopyColumns(local.columns, b.columns, b.sel, PhysicalSize(b));
    r := ThreadState(columns, local.accum + b.numRows);
    assert TypesOf(columns) == TypesOf(local.columns) == types;
  }

  /** TrimLocalBatch's choice of rows: total_limit of them that none of the others precedes. */
  method ChooseKept(keys: seq<SortKey>, columns: seq<Column>, n: nat, k: nat) returns (indices: seq<nat>, ghost rows: seq<Row>)
    requires Aligned(columns, n) && k < n <= TWO_32
    ensures |rows| == n && multiset(rows) == multiset(HeldRows(columns, n))
    ensures Below(RowOrder(keys), rows[..k], rows[k..])
    ensures |indices| == k && InRange(columns, indices) && RowsOf(columns, indices) == rows[..k]
  {
    var p := NthIndices(keys, columns, n, k);
    RearrangedRows(keys, columns, n, p, k);
    indices, rows := p[..k], RowsOf(columns, p);
  }

  // ----- Finalize -----

  ghost predicate AllShaped(types: seq<ColumnType>, threads: seq<ThreadState>) {
    forall t :: 0 <= t < |threads| ==> Shaped(types, threads[t])
  }

  ghost function KeptOf(types: seq<ColumnType>, threads: seq<ThreadState>): (r: seq<seq<Row>>)
    requires AllShaped(types, threads)
    ensures |r| == |threads|
  {
    seq(|threads|, t requires 0 <= t < |threads| => HeldRows(threads[t].columns, threads[t].accum))
  }

  function SumAccum(threads: seq<ThreadState>): nat {
    if threads == [] then 0 else SumAccum(threads[..|threads| - 1]) + threads[|threads| - 1].accum
  }

  /** How many rows a batch leaves with a thread that holds nothing else. */
  function AfterSink(total: Option<nat>, rows: nat): nat {
    if total.Some? && rows > Threshold(total.value) && rows > total.value then total.value else rows
  }

  /** How many of n rows the limit and the offset leave. */
  function Delivered(n: nat, total: Option<nat>, offset: Option<nat>): nat {
    var k := CutAt(total, n);
    if offset.None? then k else if offset.value < k then k - offset.value else 0
  }

  /** Finalize's loop over the threads: the rows they hold, one thread after the other. */
  method Merge(types: seq<ColumnType>, threads: seq<ThreadState>) returns (columns: seq<Column>, n: nat)
    requires AllShaped(types, threads)
    ensures TypesOf(columns) == types && Aligned(columns, n) && n == SumAccum(threads)
    ensures HeldRows(columns, n) == Sequences.Concat(KeptOf(types, threads))
  {
    columns, n := EmptyBuilders(types), 0;
    ghost var kept := KeptOf(types, threads);
    for t := 0 to |threads|
      invariant TypesOf(columns) == types && Aligned(columns, n) && n == SumAccum(threads[..t])
      invariant HeldRows(columns, n) == Sequences.Concat(kept[..t])
    {
      assert threads[..t + 1][..t] == threads[..t];
      assert kept[..t + 1][..t] == kept[..t];
      columns := MergeOne(types, columns, n, threads[t]);
      n := n + threads[t].accum;
    }
    assert threads[..|threads|] == threads && kept[..|threads|] == kept;
  }

  method MergeOne(types: seq<ColumnType>, columns: seq<Column>, n: nat, st: ThreadState) returns (r: seq<Column>)
    requires Shaped(types, st) && TypesOf(columns) == types && Aligned(columns, n)
    ensures TypesOf(r) == types && Aligned(r, n + st.accum)
    ensures HeldRows(r, n + st.accum) == HeldRows(columns, n) + HeldRows(st.columns, st.accum)
  {
    if st.accum == 0 {
      return columns;
    }
    assert |st.columns| == |TypesOf(st.columns)| == |columns|;
    StackedRows(columns, n, st.columns, Iota(st.accum));
    r := CopyColumns(columns, st.columns, None, st.accum);
    assert TypesOf(r) == TypesOf(columns);
  }

  lemma {:induction false} MergedAccounts(keys: seq<SortKey>, types: seq<ColumnType>, total: Option<nat>,
                                          threads: seq<ThreadState>, gone: seq<seq<Row>>, seen: seq<seq<Row>>)
    requires |threads| == |gone| == |seen| && types != []
    requires forall t :: 0 <= t < |threads| ==> StateOk(keys, types, total, threads[t], gone[t], seen[t])
    ensures AllShaped(types, threads)
    ensures Accounted(keys, total, Sequences.Concat(KeptOf(types, threads)), Sequences.Concat(gone), Sequences.Concat(seen))
    decreases |threads|
  {
    if threads != [] {
      var n := |threads| - 1;
      MergedAccounts(keys, types, total, threads[..n], gone[..n], seen[..n]);
      assert KeptOf(types, threads)[..n] == KeptOf(types, threads[..n]);
      assert StateOk(keys, types, total, threads[n], gone[n], seen[n]);
      MergeAccounted(keys, total, Sequences.Concat(KeptOf(types, threads[..n])), Sequences.Concat(gone[..n]),
                     Sequences.Concat(seen[..n]), HeldRows(threads[n].columns, threads[n].accum), gone[n], seen[n]);
    }
  }

  /** Where the sorted row numbers are cut. */
  function CutAt(total: Option<nat>, n: nat): (k: nat)
    ensures k <= n
  {
    if total.Some? && n > total.value then total.value else n
  }

  method SortIndices(keys: seq<SortKey>, columns: seq<Column>, n: nat, total: Option<nat>) returns (p: seq<nat>)
    requires n <= TWO_32
    ensures multiset(p) == multiset(Iota(n)) && |p| == n
    ensures var k := CutAt(total, n);
            Sorted(IndexOrder(keys, columns), p[..k]) && Below(IndexOrder(keys, columns), p[..k], p[k..])
  {
    var lt := IndexOrder(keys, columns);
    assert WeakOrder(lt) by { IndexOrderIsWeak(keys, columns); }
    if total.Some? && n > total.value {
      var lim := total.value % 0x1_0000_0000;
      assert lim == total.value;
      p := PartialSort(Iota(n), lim, lt);
    } else {
      p := Sort(Iota(n), lt);
      Sequences.SameBagSameLength(p, Iota(n));
      assert p[..n] == p && p[n..] == [];
    }
  }

  /** The row numbers of the result: sorted, cut at total_limit, without the first `offset`. */
  method ResultIndices(keys: seq<SortKey>, columns: seq<Column>, n: nat, total: Option<nat>, offset: Option<nat>)
    returns (indices: seq<nat>, ghost rows: seq<Row>)
    requires Aligned(columns, n) && n <= TWO_32
    ensures |rows| == n && multiset(rows) == multiset(HeldRows(columns, n))
    ensures var k := CutAt(total, n);
            && Sorted(RowOrder(keys), rows[..k]) && Below(RowOrder(keys), rows[..k], rows[k..])
            && InRange(columns, indices) && RowsOf(columns, indices) == Skip(rows[..k], offset)
  {
    var p := SortIndices(keys, columns, n, total);
    ghost var k := CutAt(total, n);
    RearrangedRows(keys, columns, n, p, k);
    rows := RowsOf(columns, p);
    indices := p;
    if total.Some? && n > total.value {
      indices := indices[..total.value];
    }
    assert indices == p[..k];
    if offset.Some? && offset.value > 0 {
      indices := SkipIndices(columns, indices, offset.value);
    }
  }

  method SkipIndices(columns: seq<Column>, p: seq<nat>, off: nat) returns (r: seq<nat>)
    requires InRange(columns, p)
    ensures InRange(columns, r) && RowsOf(columns, r) == Skip(RowsOf(columns, p), Some(off))
  {
    if off >= |p| {
      r := [];
    } else {
      r := p[off..];
    }
  }

  /** The result batch; over no rows it has no columns either. */
  method Answer(keys: seq<SortKey>, types: seq<ColumnType>, columns: seq<Column>, n: nat, total: Option<nat>,
                offset: Option<nat>)
    returns (b: RecordBatch, ghost rows: seq<Row>)
    requires TypesOf(columns) == types && Aligned(columns, n) && n <= TWO_32
    ensures Valid(b) && b.sel.None?
    ensures if n == 0 then b == BARE else TypesOf(b.columns) == types
    ensures b.numRows == Delivered(n, total, offset)
    ensures |rows| == n && multiset(rows) == multiset(HeldRows(columns, n))
    ensures var k := CutAt(total, n);
            && Sorted(RowOrder(keys), rows[..k]) && Below(RowOrder(keys), rows[..k], rows[k..])
            && Rows(b) == Skip(rows[..k], offset)
  {
    if n == 0 {
      rows := HeldRows(columns, n);
      return BARE, rows;
    }
    assert |columns| == |TypesOf(columns)|;
    var indices;
    indices, rows := ResultIndices(keys, columns, n, total, offset);
    var rebuilt := Rebuild(types, columns, n, indices);
    HeldIsBatch(rebuilt, |indices|);
    b := RecordBatch(|indices|, None, rebuilt);
  }

  lemma AnswerDelivers(keys: seq<SortKey>, limit: Option<nat>, offset: Option<nat>, kept: seq<Row>, rows: seq<Row>,
                       gone: seq<Row>, seen: seq<Row>)
    requires Accounted(keys, TotalLimit(limit, offset), kept, gone, seen) && multiset(rows) == multiset(kept)
    requires var k := CutAt(TotalLimit(limit, offset), |rows|);
             Sorted(RowOrder(keys), rows[..k]) && Below(RowOrder(keys), rows[..k], rows[k..])
    ensures Delivers(keys, Skip(rows[..CutAt(TotalLimit(limit, offset), |rows|)], offset), seen, limit, offset)
  {
    var total := TotalLimit(limit, offset);
    var k := CutAt(total, |rows|);
    FinalTop(keys, total, kept, rows, k, gone, seen);
    var q :| Arranges(RowOrder(keys), q, seen) && rows[..k] == FirstRows(q, total);
  }

  /** The merged rows, sorted and cut, answer for everything that the threads have seen. */
  lemma MergedDelivers(keys: seq<SortKey>, types: seq<ColumnType>, limit: Option<nat>, offset: Option<nat>,
                       threads: seq<ThreadState>, gone: seq<seq<Row>>, seen: seq<seq<Row>>, rows: seq<Row>)
    requires types != [] && AllOk(keys, types, TotalLimit(limit, offset), threads, gone, seen) && AllShaped(types, threads)
    requires multiset(rows) == multiset(Sequences.Concat(KeptOf(types, threads)))
    requires var k := CutAt(TotalLimit(limit, offset), |rows|);
             Sorted(RowOrder(keys), rows[..k]) && Below(RowOrder(keys), rows[..k], rows[k..])
    ensures Delivers(keys, Skip(rows[..CutAt(TotalLimit(limit, offset), |rows|)], offset), Sequences.Concat(seen), limit, offset)
  {
    MergedAccounts(keys, types, TotalLimit(limit, offset), threads, gone, seen);
    AnswerDelivers(keys, limit, offset, Sequences.Concat(KeptOf(types, threads)), rows, Sequences.Concat(gone), Sequences.Concat(seen));
  }

  /** A batch with columns is not the one without. */
  lemma NotBare(b: RecordBatch, types: seq<ColumnType>)
    requires TypesOf(b.columns) == types != []
    ensures b != BARE
  {
    assert |b.columns| == |TypesOf(b.columns)|;
  }

  /** The threads' rows, stacked, sorted as far as needed, and cut. */
  method Finished(keys: seq<SortKey>, types: seq<ColumnType>, limit: Option<nat>, offset: Option<nat>,
                  threads: seq<ThreadState>, ghost gone: seq<seq<Row>>, ghost seen: seq<seq<Row>>)
    returns (batch: RecordBatch)
    requires SumAccum(threads) <= TWO_32 && AllOk(keys, types, TotalLimit(limit, offset), threads, gone, seen)
    ensures Valid(batch) && batch.sel.None?
    ensures if SumAccum(threads) == 0 then batch == BARE else TypesOf(batch.columns) == types
    ensures batch.numRows == Delivered(SumAccum(threads), TotalLimit(limit, offset), offset)
    ensures types != [] ==> Delivers(keys, Rows(batch), Sequences.Concat(seen), limit, offset)
  {
    var columns, n := Merge(types, threads);
    ghost var rows;
    batch, rows := Answer(keys, types, columns, n, TotalLimit(limit, offset), offset);
    if types != [] {
      MergedDelivers(keys, types, limit, offset, threads, gone, seen, rows);
    }
  }

  /** The result has no columns exactly if no row was given, or none may be kept. */
  lemma BareExactly(keys: seq<SortKey>, types: seq<ColumnType>, limit: Option<nat>, offset: Option<nat>,
                    threads: seq<ThreadState>, gone: seq<seq<Row>>, seen: seq<seq<Row>>, batch: RecordBatch)
    requires types != [] && AllOk(keys, types, TotalLimit(limit, offset), threads, gone, seen)
    requires if SumAccum(threads) == 0 then batch == BARE else TypesOf(batch.columns) == types
    ensures batch == BARE <==> NothingLeft(Sequences.Concat(seen), limit, offset)
  {
    NoneHeld(keys, types, TotalLimit(limit, offset), threads, gone, seen);
    if SumAccum(threads) != 0 {
      NotBare(batch, types);
    }
  }

  /** The builders of every thread that had rows are handed over. */
  function Cleared(threads: seq<ThreadState>): (r: seq<ThreadState>) {
    seq(|threads|, t requires 0 <= t < |threads| =>
      if threads[t].accum == 0 then threads[t] else ThreadState([], threads[t].accum))
  }

  // ----- the operator -----

  class OrderBySink {
    const sortKeys: seq<SortKey>
    const columnTypes: seq<ColumnType>
    const limit: Option<nat>
    const offset: Option<nat>
    const totalLimit: Option<nat>
    var threads: seq<ThreadState>
    var result: Option<RecordBatch>
    var emitted: bool
    /** Per thread: all rows sunk so far, and the rows thrown away. */
    ghost var seen: seq<seq<Row>>
    ghost var gone: seq<seq<Row>>

    ghost predicate ThreadOk(t: nat)
      reads this
      requires t < |threads| == |seen| == |gone|
    {
      StateOk(sortKeys, columnTypes, totalLimit, threads[t], gone[t], seen[t])
    }

    ghost predicate Valid()
      reads this
    {
      && |threads| == |seen| == |gone|
      && totalLimit == TotalLimit(limit, offset) && SizeT(limit) && SizeT(offset)
      && (forall j :: 0 <= j < |sortKeys| ==> sortKeys[j].col < |columnTypes|)
      && forall t :: 0 <= t < |threads| ==> ThreadOk(t) && Bounded(totalLimit, threads[t].accum)
    }

    constructor (sortKeys: seq<SortKey>, columnTypes: seq<ColumnType>, limit: Option<nat>, offset: Option<nat>, numThreads: nat)
      requires SizeT(limit) && SizeT(offset)
      requires forall j :: 0 <= j < |sortKeys| ==> sortKeys[j].col < |columnTypes|
      ensures Valid() && result.None? && !emitted && |threads| == numThreads
      ensures this.sortKeys == sortKeys && this.columnTypes == columnTypes && this.limit == limit && this.offset == offset
      ensures forall t :: 0 <= t < numThreads ==> seen[t] == [] && threads[t].accum == 0
    {
      this.sortKeys, this.columnTypes, this.limit, this.offset := sortKeys, columnTypes, limit, offset;
      totalLimit := TotalLimit(limit, offset);
      threads := seq(numThreads, _ => ThreadState([], 0));
      result, emitted := None, false;
      seen := seq(numThreads, _ => []);
      gone := seq(numThreads, _ => []);
    }

    /** TrimLocalBatch: keeps total_limit rows that none of the others precedes. */
    method TrimLocalBatch(t: nat)
      requires t < |threads| == |seen| == |gone| && ThreadOk(t) && threads[t].accum <= TWO_32
      modifies this`threads, this`gone
      ensures |threads| == |old(threads)| && |gone| == |old(gone)| && ThreadOk(t)
      ensures threads[t].accum == if totalLimit.Some? && totalLimit.value < old(threads[t].accum)
                                  then totalLimit.value else old(threads[t].accum)
      ensures forall u :: 0 <= u < |threads| && u != t ==> threads[u] == old(threads[u]) && gone[u] == old(gone[u])
    {
      var columns, accum := threads[t].columns, threads[t].accum;
      if accum == 0 {
        return;
      }
      var indices := Iota(accum);
      if totalLimit.Some? && accum > totalLimit.value {
        ghost var rows;
        indices, rows := ChooseKept(sortKeys, columns, accum, totalLimit.value);
        if columnTypes != [] {
          TrimAccounted(sortKeys, HeldRows(columns, accum), rows, totalLimit.value, gone[t], seen[t]);
        }
        gone := gone[t := gone[t] + rows[totalLimit.value..]];
      }
      var rebuilt := Rebuild(columnTypes, columns, accum, indices);
      threads := threads[t := ThreadState(rebuilt, |indices|)];
    }

    /** The rows of one batch join those of its thread. */
    method Append(batch: RecordBatch, t: nat)
      requires t < |threads| == |seen| == |gone| && ThreadOk(t)
      requires Batches.Valid(batch) && TypesOf(batch.columns) == columnTypes
      modifies this`threads, this`seen
      ensures |threads| == |old(threads)| && |seen| == |old(seen)| && ThreadOk(t)
      ensures seen == old(seen)[t := old(seen[t]) + Rows(batch)]
      ensures threads[t].accum == (if old(threads[t].columns) == [] then 0 else old(threads[t].accum)) + batch.numRows
      ensures forall u :: 0 <= u < |threads| && u != t ==> threads[u] == old(threads[u])
    {
      var st := AppendBatch(threads[t], columnTypes, batch);
      if columnTypes != [] {
        var kept := HeldRows(threads[t].columns, threads[t].accum);
        SinkAccounted(sortKeys, totalLimit, kept, gone[t], seen[t], Rows(batch));
      }
      threads := threads[t := st];
      seen := seen[t := seen[t] + Rows(batch)];
    }

    /** Sink: with a limit, the thread trims once it holds too many rows. */
    method Sink(batch: RecordBatch, t: nat)
      requires Valid() && t < |threads| && Batches.Valid(batch) && TypesOf(batch.columns) == columnTypes
      requires threads[t].accum + batch.numRows <= TWO_32
      modifies this`threads, this`seen, this`gone
      ensures Valid() && |threads| == |old(threads)|
      ensures seen == old(seen)[t := old(seen[t]) + Rows(batch)]
      ensures forall u :: 0 <= u < |threads| && u != t ==> threads[u] == old(threads[u]) && gone[u] == old(gone[u])
      ensures columnTypes == [] ==> threads[t].accum == AfterSink(totalLimit, batch.numRows)
    {
      Append(batch, t);
      if totalLimit.Some? && threads[t].accum > Threshold(totalLimit.value) {
        TrimLocalBatch(t);
      }
      forall u | 0 <= u < |threads| ensures ThreadOk(u) && Bounded(totalLimit, threads[u].accum) {
        if u != t {
          assert old(ThreadOk(u)) && old(Bounded(totalLimit, threads[u].accum));
          assert seen[u] == old(seen[u]);
        }
      }
    }

    lemma AllThreadsOk()
      requires Valid()
      ensures AllOk(sortKeys, columnTypes, TotalLimit(limit, offset), threads, gone, seen)
    {
      assert forall t :: 0 <= t < |threads| ==> ThreadOk(t);
    }

    /** Finalize: over every split of the rows among the threads, and whatever they trimmed, the result is a legal one. */
    method Finalize()
      requires Valid() && SumAccum(threads) <= TWO_32
      modifies this`threads, this`result
      ensures result.Some? && Batches.Valid(result.value) && result.value.sel.None? && threads == Cleared(old(threads))
      ensures if SumAccum(old(threads)) == 0 then result.value == BARE else TypesOf(result.value.columns) == columnTypes
      ensures result.value.numRows == Delivered(SumAccum(old(threads)), totalLimit, offset)
      ensures columnTypes != [] ==>
                && Delivers(sortKeys, Rows(result.value), Sequences.Concat(seen), limit, offset)
                && InKeyOrder(sortKeys, Rows(result.value))
                && (NoWrap(limit, offset, |Sequences.Concat(seen)|) ==>
                      AsAsked(sortKeys, Rows(result.value), Sequences.Concat(seen), limit, offset))
                && (result.value == BARE <==> NothingLeft(Sequences.Concat(seen), limit, offset))
    {
      AllThreadsOk();
      var batch := Finished(sortKeys, columnTypes, limit, offset, threads, gone, seen);
      if columnTypes != [] {
        DeliveredInOrder(sortKeys, Rows(batch), Sequences.Concat(seen), limit, offset);
        BareExactly(sortKeys, columnTypes, limit, offset, threads, gone, seen, batch);
      }
      threads, result := Cleared(threads), Some(batch);
    }

    /** GetData: the result goes to the first caller only. */
    method GetData() returns (b: Option<RecordBatch>)
      modifies this`emitted, this`result
      ensures emitted
      ensures b == if old(emitted) then None else old(result)
      ensures result == if old(emitted) then old(result) else None
    {
      if emitted {
        b := None;
      } else {
        emitted := true;
        b := result;
        result := None;
      }
    }
  }

  // ----- a whole life of the operator -----

  lemma {:induction false} AccumAtMostSeen(threads: seq<ThreadState>, seen: seq<seq<Row>>)
    requires |threads| == |seen| && forall t :: 0 <= t < |threads| ==> threads[t].accum <= |seen[t]|
    ensures SumAccum(threads) <= |Sequences.Concat(seen)|
    decreases |threads|
  {
    if threads != [] {
      AccumAtMostSeen(threads[..|threads| - 1], seen[..|threads| - 1]);
    }
  }

  lemma DeliversBag(keys: seq<SortKey>, out: seq<Row>, input: seq<Row>, input': seq<Row>, limit: Option<nat>, offset: Option<nat>)
    requires Delivers(keys, out, input, limit, offset) && multiset(input) == multiset(input')
    ensures Delivers(keys, out, input', limit, offset)
  {
    var p :| Arranges(RowOrder(keys), p, input) && out == Skip(FirstRows(p, TotalLimit(limit, offset)), offset);
    assert Arranges(RowOrder(keys), p, input');
  }

  /** Any deliveries to any threads in any order, then Finalize. */
  method SinkBatches(op: OrderBySink, batches: seq<RecordBatch>, lanes: seq<nat>)
    requires op.Valid() && op.columnTypes != [] && |lanes| == |batches|
    requires forall t :: 0 <= t < |op.threads| ==> op.seen[t] == []
    requires forall i :: 0 <= i < |batches| ==>
               Valid(batches[i]) && TypesOf(batches[i].columns) == op.columnTypes && lanes[i] < |op.threads|
    requires |AllRows(batches)| <= TWO_32
    modifies op
    ensures op.result.Some? && Valid(op.result.value) && op.result.value.sel.None?
    ensures op.result.value == BARE || TypesOf(op.result.value.columns) == op.columnTypes
    ensures op.result.value == BARE <==> NothingLeft(AllRows(batches), op.limit, op.offset)
    ensures Delivers(op.sortKeys, Rows(op.result.value), AllRows(batches), op.limit, op.offset)
  {
    ghost var threads := |op.threads|;
    Sequences.ConcatOfEmpties(op.seen);
    for i := 0 to |batches|
      invariant op.Valid() && |op.threads| == threads
      invariant multiset(Sequences.Concat(op.seen)) == multiset(AllRows(batches[..i]))
    {
      PrefixRows(batches, i);
      Sequences.SameBagSameLength(Sequences.Concat(op.seen), AllRows(batches[..i]));
      Sequences.OneAtMostAll(op.seen, lanes[i]);
      Sequences.ConcatAppendTo(op.seen, lanes[i], Rows(batches[i]));
      op.Sink(batches[i], lanes[i]);
    }
    assert batches[..|batches|] == batches;
    AccumAtMostSeen(op.threads, op.seen);
    Sequences.SameBagSameLength(Sequences.Concat(op.seen), AllRows(batches));
    ghost var seen := Sequences.Concat(op.seen);
    op.Finalize();
    DeliversBag(op.sortKeys, Rows(op.result.value), seen, AllRows(batches), op.limit, op.offset);
  }

  /**
   Whatever the deliveries, the operator delivers a legal answer for all the rows of all the batches: in the order of
   the keys, and unless limit + offset wraps exactly the window asked for.
   */
  method SinkAll(op: OrderBySink, batches: seq<RecordBatch>, lanes: seq<nat>)
    requires op.Valid() && op.columnTypes != [] && |lanes| == |batches|
    requires forall t :: 0 <= t < |op.threads| ==> op.seen[t] == []
    requires forall i :: 0 <= i < |batches| ==>
               Valid(batches[i]) && TypesOf(batches[i].columns) == op.columnTypes && lanes[i] < |op.threads|
    requires |AllRows(batches)| <= TWO_32
    modifies op
    ensures op.result.Some? && Valid(op.result.value) && op.result.value.sel.None?
    ensures op.result.value == BARE || TypesOf(op.result.value.columns) == op.columnTypes
    ensures op.result.value == BARE <==> NothingLeft(AllRows(batches), op.limit, op.offset)
    ensures Delivers(op.sortKeys, Rows(op.result.value), AllRows(batches), op.limit, op.offset)
    ensures InKeyOrder(op.sortKeys, Rows(op.result.value))
    ensures NoWrap(op.limit, op.offset, |AllRows(batches)|) ==>
              AsAsked(op.sortKeys, Rows(op.result.value), AllRows(batches), op.limit, op.offset)
  {
    SinkBatches(op, batches, lanes);
    DeliveredInOrder(op.sortKeys, Rows(op.result.value), AllRows(batches), op.limit, op.offset);
  }
}
