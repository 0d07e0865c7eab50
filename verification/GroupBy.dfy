/**
 GroupBySinkSourceOperator (src/execution/OperatorsBase.cpp): every thread groups the rows it sinks in its own
 hash table; Finalize merges the tables into the first thread's, in whatever order the hash maps iterate.
 */
module GroupBy {
  import opened Values
  import opened Wrappers
  import opened Batches
  import opened Builders
  import opened Keys
  import opened Aggregates
  import opened Groupings
  import Sequences

  /** One thread's hash table, key builders, group count, and the states of each aggregate by group id. */
  datatype GroupState = GroupState(
    table: map<Key, nat>,
    keyColumns: seq<Column>,
    numGroups: nat,
    aggs: seq<seq<AggState>>)

  // ----- keys -----

  predicate InRow(cols: seq<nat>, row: Row) {
    forall j :: 0 <= j < |cols| ==> cols[j] < |row|
  }

  function KeyFn(cols: seq<nat>): Row -> seq<Value> {
    (row: Row) => if InRow(cols, row) then Project(row, cols) else []
  }

  /** The row has the group-by columns, of their types, and what the aggregates read. */
  ghost predicate RowOk(cols: seq<nat>, types: seq<ColumnType>, fs: seq<AggFunction>, row: Row) {
    && InRow(cols, row) && Typed(Project(row, cols), types)
    && forall a :: 0 <= a < |fs| ==> Reads(fs[a], row)
  }

  ghost predicate AllTyped(ks: seq<seq<Value>>, types: seq<ColumnType>) {
    forall g :: 0 <= g < |ks| ==> Typed(ks[g], types)
  }

  /** The composite key of the values, as a function of them. */
  function Encoder(types: seq<ColumnType>): seq<Value> -> Key {
    (values: seq<Value>) => if |values| == |types| then KeyOf(values, types) else []
  }

  ghost function TypedBy(types: seq<ColumnType>): seq<Value> -> bool {
    (values: seq<Value>) => Typed(values, types)
  }

  lemma EncoderInjective(types: seq<ColumnType>)
    ensures Injective(Encoder(types), TypedBy(types))
  {
    forall a, b | Typed(a, types) && Typed(b, types) && Encoder(types)(a) == Encoder(types)(b) ensures a == b {
      KeysDecideEquality(a, b, types);
    }
  }

  ghost predicate TableOk(table: map<Key, nat>, ks: seq<seq<Value>>, types: seq<ColumnType>) {
    Coded(Encoder(types), TypedBy(types), table, ks)
  }

  // ----- one aggregate over all groups -----

  ghost predicate AggOk(f: AggFunction, states: seq<AggState>, groups: seq<seq<Row>>) {
    |states| == |groups| && forall g :: 0 <= g < |groups| ==> AllRead(f, groups[g]) && Represents(f, states[g], groups[g])
  }

  /** Resize: value-initialised states for new groups. */
  method Resize(f: AggFunction, states: seq<AggState>, n: nat, ghost groups: seq<seq<Row>>) returns (r: seq<AggState>)
    requires AggOk(f, states, groups) && |states| <= n
    ensures AggOk(f, r, Padded(groups, n))
  {
    r := if n > |states| then states + seq(n - |states|, _ => Fresh(f)) else states;
    FreshRepresents(f);
  }

  /** The physical index of logical row i. */
  function PhysicalIndex(b: RecordBatch, i: nat): nat
    requires b.sel.Some? ==> i < |b.sel.value|
  {
    if b.sel.Some? then b.sel.value[i] else i
  }

  lemma CellOfRow(b: RecordBatch, i: nat, col: nat)
    requires Valid(b) && i < b.numRows && col < |b.columns|
    ensures PhysicalIndex(b, i) < |b.columns[col].data|
    ensures Rows(b)[i][col] == b.columns[col].data[PhysicalIndex(b, i)]
  {
    SelectedInRange(b);
    assert Selected(b)[i] == PhysicalIndex(b, i);
    assert Rows(b)[i] == RowAt(b.columns, Selected(b)[i]);
  }

  /** One row joins the state of one group. */
  lemma OneState(f: AggFunction, states: seq<AggState>, groups: seq<seq<Row>>, g: nat, row: Row)
    requires AggOk(f, states, groups) && g < |groups| && Reads(f, row)
    ensures AggOk(f, states[g := Step(f, states[g], Input(f, row))], groups[g := groups[g] + [row]])
  {
    UpdateRepresents(f, states[g], groups[g], row);
  }

  lemma SpreadOne(groups: seq<seq<Row>>, rows: seq<Row>, gids: seq<nat>, i: nat)
    requires i < |rows| == |gids| && forall j :: 0 <= j < |gids| ==> gids[j] < |groups|
    ensures |Spread(groups, rows[..i], gids[..i])| == |groups|
    ensures var before := Spread(groups, rows[..i], gids[..i]);
            Spread(groups, rows[..i + 1], gids[..i + 1]) == before[gids[i] := before[gids[i]] + [rows[i]]]
  {
    assert rows[..i + 1][..i] == rows[..i] && gids[..i + 1][..i] == gids[..i];
  }

  /** What the function reads of logical row i; COUNT reads nothing. */
  method InputAt(f: AggFunction, b: RecordBatch, i: nat) returns (v: Value)
    requires Valid(b) && i < b.numRows && Reads(f, Rows(b)[i])
    ensures v == Input(f, Rows(b)[i])
  {
    v := Int(0);
    if !f.Count? {
      CellOfRow(b, i, f.col);
      v := b.columns[f.col].data[PhysicalIndex(b, i)];
    }
  }

  /** Update: every row of the batch into the state of its group. */
  method UpdateStates(f: AggFunction, states: seq<AggState>, b: RecordBatch, gids: seq<nat>, ghost groups: seq<seq<Row>>)
    returns (r: seq<AggState>)
    requires AggOk(f, states, groups) && Valid(b) && |gids| == b.numRows
    requires forall i :: 0 <= i < |gids| ==> gids[i] < |groups| && Reads(f, Rows(b)[i])
    ensures AggOk(f, r, Spread(groups, Rows(b), gids))
  {
    r := states;
    ghost var rows := Rows(b);
    for i := 0 to b.numRows
      invariant AggOk(f, r, Spread(groups, rows[..i], gids[..i]))
    {
      assert Reads(f, rows[i]) && gids[i] < |groups|;
      var v := InputAt(f, b, i);
      ghost var before := Spread(groups, rows[..i], gids[..i]);
      OneState(f, r, before, gids[i], rows[i]);
      SpreadOne(groups, rows, gids, i);
      r := r[gids[i] := Step(f, r[gids[i]], v)];
    }
    assert rows[..b.numRows] == rows && gids[..b.numRows] == gids;
  }

  ghost predicate AggsOk(fs: seq<AggFunction>, aggs: seq<seq<AggState>>, groups: seq<seq<Row>>) {
    |aggs| == |fs| && forall a :: 0 <= a < |fs| ==> AggOk(fs[a], aggs[a], groups)
  }

  method UpdateAll(fs: seq<AggFunction>, aggs: seq<seq<AggState>>, b: RecordBatch, gids: seq<nat>, n: nat, ghost groups: seq<seq<Row>>)
    returns (r: seq<seq<AggState>>)
    requires AggsOk(fs, aggs, groups) && |groups| <= n && Valid(b) && |gids| == b.numRows
    requires forall i :: 0 <= i < |gids| ==> gids[i] < n
    requires forall i, a :: 0 <= i < b.numRows && 0 <= a < |fs| ==> Reads(fs[a], Rows(b)[i])
    ensures AggsOk(fs, r, Spread(Padded(groups, n), Rows(b), gids))
  {
    r := [];
    for a := 0 to |fs|
      invariant |r| == a
      invariant forall c :: 0 <= c < a ==> AggOk(fs[c], r[c], Spread(Padded(groups, n), Rows(b), gids))
    {
      var states := Resize(fs[a], aggs[a], n, groups);
      states := UpdateStates(fs[a], states, b, gids, Padded(groups, n));
      r := r + [states];
    }
  }

  // ----- one thread -----

  /** Builders of the key types, or none before the first batch. */
  ghost predicate BuildersOk(types: seq<ColumnType>, columns: seq<Column>, n: nat) {
    && Aligned(columns, n)
    && (TypesOf(columns) == types || (columns == [] && n == 0))
  }

  /** The thread's rows are `groups`: table, key columns and states all agree on which group is which. */
  ghost predicate StateOk(cols: seq<nat>, types: seq<ColumnType>, fs: seq<AggFunction>, st: GroupState, groups: seq<seq<Row>>) {
    && BuildersOk(types, st.keyColumns, st.numGroups)
    && TableOk(st.table, HeldRows(st.keyColumns, st.numGroups), types)
    && Grouped(KeyFn(cols), HeldRows(st.keyColumns, st.numGroups), groups)
    && AggsOk(fs, st.aggs, groups)
  }

  ghost function PickedColumns(columns: seq<Column>, cols: seq<nat>): (r: seq<Column>)
    requires forall j :: 0 <= j < |cols| ==> cols[j] < |columns|
    ensures |r| == |cols|
  {
    seq(|cols|, j requires 0 <= j < |cols| => columns[cols[j]])
  }

  /** The keys of the rows that opened a group are copied into the key builders. */
  method CopyKeys(keyColumns: seq<Column>, n: nat, b: RecordBatch, cols: seq<nat>, ix: seq<nat>) returns (r: seq<Column>)
    requires Aligned(keyColumns, n) && |keyColumns| == |cols| && forall j :: 0 <= j < |cols| ==> cols[j] < |b.columns|
    requires InRange(b.columns, ix)
    ensures TypesOf(r) == TypesOf(keyColumns) && Aligned(r, n + |ix|)
    ensures HeldRows(r, n + |ix|) == HeldRows(keyColumns, n) + RowsOf(PickedColumns(b.columns, cols), ix)
  {
    r := [];
    ghost var picked := PickedColumns(b.columns, cols);
    ghost var goal := Stacked(keyColumns, picked, ix);
    for k := 0 to |cols|
      invariant r == goal[..k]
    {
      var column := CopySelection(keyColumns[k], b.columns[cols[k]], Some(ix));
      r := r + [column];
    }
    assert r == goal;
    StackedRows(keyColumns, n, picked, ix);
    assert TypesOf(r) == TypesOf(keyColumns);
  }

  lemma PickedRow(b: RecordBatch, cols: seq<nat>, ix: seq<nat>, firsts: seq<nat>, j: nat)
    requires Valid(b) && forall k :: 0 <= k < |cols| ==> cols[k] < |b.columns|
    requires |ix| == |firsts| && j < |ix| && firsts[j] < b.numRows && InRange(b.columns, ix)
    requires |Selected(b)| == b.numRows && ix[j] == Selected(b)[firsts[j]]
    ensures RowsOf(PickedColumns(b.columns, cols), ix)[j] == Project(Rows(b)[firsts[j]], cols)
  {
    SelectedInRange(b);
    assert Rows(b)[firsts[j]] == RowAt(b.columns, Selected(b)[firsts[j]]);
  }

  /** The batch's group-by columns and types are the operator's, and every row has what the aggregates read. */
  ghost predicate BatchOk(cols: seq<nat>, types: seq<ColumnType>, fs: seq<AggFunction>, b: RecordBatch) {
    && Valid(b) && (forall j :: 0 <= j < |cols| ==> cols[j] < |b.columns|)
    && ColumnTypes(b.columns, cols) == types
    && forall i :: 0 <= i < b.numRows ==> RowOk(cols, types, fs, Rows(b)[i])
  }

  ghost function RowKeys(cols: seq<nat>, rows: seq<Row>): (r: seq<seq<Value>>)
    ensures |r| == |rows| && forall i :: 0 <= i < |r| ==> r[i] == KeyFn(cols)(rows[i])
  {
    seq(|rows|, i requires 0 <= i < |rows| => KeyFn(cols)(rows[i]))
  }

  lemma BatchKeys(cols: seq<nat>, types: seq<ColumnType>, fs: seq<AggFunction>, b: RecordBatch)
    requires BatchOk(cols, types, fs, b)
    ensures AllTyped(RowKeys(cols, Rows(b)), types)
    ensures forall i :: 0 <= i < b.numRows ==>
              |Project(Rows(b)[i], cols)| == |types|
              && KeyOf(Project(Rows(b)[i], cols), types) == Mapped(Encoder(types), RowKeys(cols, Rows(b)))[i]
  {
    forall i | 0 <= i < b.numRows ensures RowKeys(cols, Rows(b))[i] == Project(Rows(b)[i], cols) {
      assert RowOk(cols, types, fs, Rows(b)[i]);
    }
  }

  /** The keys of the opening rows, as copied into the builders. */
  method CopyOpened(keyColumns: seq<Column>, n: nat, b: RecordBatch, cols: seq<nat>, ix: seq<nat>, ghost firsts: seq<nat>)
    returns (r: seq<Column>)
    requires Aligned(keyColumns, n) && |keyColumns| == |cols| && Valid(b)
    requires forall j :: 0 <= j < |cols| ==> cols[j] < |b.columns|
    requires |ix| == |firsts|
    requires |Selected(b)| == b.numRows
    requires forall j :: 0 <= j < |ix| ==> firsts[j] < b.numRows && ix[j] == Selected(b)[firsts[j]]
    ensures TypesOf(r) == TypesOf(keyColumns) && Aligned(r, n + |ix|)
    ensures HeldRows(r, n + |ix|) == HeldRows(keyColumns, n) + Opened(RowKeys(cols, Rows(b)), firsts)
  {
    SelectedInRange(b);
    r := CopyKeys(keyColumns, n, b, cols, ix);
    var copied := RowsOf(PickedColumns(b.columns, cols), ix);
    forall j | 0 <= j < |ix| ensures copied[j] == Opened(RowKeys(cols, Rows(b)), firsts)[j] {
      PickedRow(b, cols, ix, firsts, j);
    }
    assert copied == Opened(RowKeys(cols, Rows(b)), firsts);
  }

  /** The composite keys of a batch are the bytes of its rows' key values. */
  method BatchBytes(cols: seq<nat>, types: seq<ColumnType>, fs: seq<AggFunction>, b: RecordBatch) returns (keys: seq<Key>)
    requires BatchOk(cols, types, fs, b)
    ensures AllTyped(RowKeys(cols, Rows(b)), types) && keys == Mapped(Encoder(types), RowKeys(cols, Rows(b)))
  {
    var filled := CompositeKeys(b, cols);
    BatchKeys(cols, types, fs, b);
    keys := filled[..];
  }

  method StartBuilders(types: seq<ColumnType>, columns: seq<Column>, n: nat) returns (r: seq<Column>)
    requires BuildersOk(types, columns, n)
    ensures TypesOf(r) == types && Aligned(r, n) && HeldRows(r, n) == HeldRows(columns, n)
  {
    r := if columns == [] then EmptyBuilders(types) else columns;
  }

  lemma BatchGrouped(cols: seq<nat>, types: seq<ColumnType>, table: map<Key, nat>, ks: seq<seq<Value>>, ks': seq<seq<Value>>,
                     groups: seq<seq<Row>>, rows: seq<Row>, gids: seq<nat>, firsts: seq<nat>)
    requires Grouped(KeyFn(cols), ks, groups) && TableOk(table, ks', types) && ks <= ks' && |gids| == |rows|
    requires forall i :: 0 <= i < |gids| ==> gids[i] < |ks'| && KeyFn(cols)(rows[i]) == ks'[gids[i]]
    requires |firsts| == |ks'| - |ks|
    requires forall j :: 0 <= j < |firsts| ==> firsts[j] < |gids| && gids[firsts[j]] == |ks| + j
    ensures Grouped(KeyFn(cols), ks', Spread(Padded(groups, |ks'|), rows, gids))
    ensures multiset(Sequences.Concat(Spread(Padded(groups, |ks'|), rows, gids)))
         == multiset(Sequences.Concat(groups)) + multiset(rows)
  {
    CodedDistinct(Encoder(types), TypedBy(types), table, ks');
    SpreadGrouped(KeyFn(cols), ks, groups, ks', rows, gids, firsts);
  }

  /** Sink's first half: group ids for the rows, and the keys of new groups. */
  method SinkKeys(cols: seq<nat>, types: seq<ColumnType>, fs: seq<AggFunction>, st: GroupState, b: RecordBatch)
    returns (table: map<Key, nat>, keyColumns: seq<Column>, n: nat, gids: seq<nat>, ghost ks': seq<seq<Value>>, ghost firsts: seq<nat>)
    requires BuildersOk(types, st.keyColumns, st.numGroups) && TableOk(st.table, HeldRows(st.keyColumns, st.numGroups), types)
    requires BatchOk(cols, types, fs, b) && |types| == |cols| && st.numGroups + b.numRows <= TWO_32
    ensures TypesOf(keyColumns) == types && Aligned(keyColumns, n) && HeldRows(keyColumns, n) == ks' && TableOk(table, ks', types)
    ensures HeldRows(st.keyColumns, st.numGroups) <= ks' && |gids| == b.numRows
    ensures forall i :: 0 <= i < |gids| ==> gids[i] < |ks'| && KeyFn(cols)(Rows(b)[i]) == ks'[gids[i]]
    ensures |firsts| == |ks'| - st.numGroups
    ensures forall j :: 0 <= j < |firsts| ==> firsts[j] < |gids| && gids[firsts[j]] == st.numGroups + j
  {
    ghost var ks, vals := HeldRows(st.keyColumns, st.numGroups), RowKeys(cols, Rows(b));
    keyColumns := StartBuilders(types, st.keyColumns, st.numGroups);
    var keys := BatchBytes(cols, types, fs, b);
    SelectedInRange(b);
    EncoderInjective(types);
    assert forall i :: 0 <= i < |vals| ==> TypedBy(types)(vals[i]);
    var ix;
    table, n, gids, ix, firsts := NumberKeys(Encoder(types), TypedBy(types), st.table, st.numGroups, keys, Selected(b), ks, vals);
    keyColumns := CopyOpened(keyColumns, st.numGroups, b, cols, ix, firsts);
    ks' := ks + Opened(vals, firsts);
  }

  /** Sink on one thread's state. */
  method SinkBatch(cols: seq<nat>, types: seq<ColumnType>, fs: seq<AggFunction>, st: GroupState, b: RecordBatch,
                   ghost groups: seq<seq<Row>>)
    returns (r: GroupState, ghost groups': seq<seq<Row>>)
    requires StateOk(cols, types, fs, st, groups) && BatchOk(cols, types, fs, b) && |types| == |cols|
    requires st.numGroups + b.numRows <= TWO_32
    ensures StateOk(cols, types, fs, r, groups')
    ensures multiset(Sequences.Concat(groups')) == multiset(Sequences.Concat(groups)) + multiset(Rows(b))
  {
    var table, keyColumns, n, gids;
    ghost var ks', firsts;
    table, keyColumns, n, gids, ks', firsts := SinkKeys(cols, types, fs, st, b);
    BatchReads(cols, types, fs, b);
    var aggs := UpdateAll(fs, st.aggs, b, gids, n, groups);
    r := GroupState(table, keyColumns, n, aggs);
    groups' := Spread(Padded(groups, n), Rows(b), gids);
    BatchGrouped(cols, types, table, HeldRows(st.keyColumns, st.numGroups), ks', groups, Rows(b), gids, firsts);
  }

  lemma BatchReads(cols: seq<nat>, types: seq<ColumnType>, fs: seq<AggFunction>, b: RecordBatch)
    requires BatchOk(cols, types, fs, b)
    ensures forall i, a :: 0 <= i < b.numRows && 0 <= a < |fs| ==> Reads(fs[a], Rows(b)[i])
  {
    forall i, a | 0 <= i < b.numRows && 0 <= a < |fs| ensures Reads(fs[a], Rows(b)[i]) {
      assert RowOk(cols, types, fs, Rows(b)[i]);
    }
  }

  // ----- merging threads -----

  method CombineStates(f: AggFunction, states: seq<AggState>, target: nat, src: AggState,
                       ghost groups: seq<seq<Row>>, ghost rows: seq<Row>)
    returns (r: seq<AggState>)
    requires AggOk(f, states, groups) && target < |groups|
    requires AllRead(f, rows) && Represents(f, src, rows)
    ensures AggOk(f, r, groups[target := groups[target] + rows])
  {
    CombineRepresents(f, states[target], groups[target], src, rows);
    r := states[target := Combine(f, states[target], src)];
  }

  /** CombineState of every aggregate, after Resize where the group is new. */
  method CombineAll(fs: seq<AggFunction>, aggs: seq<seq<AggState>>, target: nat, local: seq<seq<AggState>>, lgid: nat,
                    ghost groups: seq<seq<Row>>, ghost lgroups: seq<seq<Row>>)
    returns (r: seq<seq<AggState>>)
    requires AggsOk(fs, aggs, groups) && AggsOk(fs, local, lgroups) && lgid < |lgroups| && target <= |groups|
    ensures AggsOk(fs, r, Joined(groups, lgroups[lgid], target))
  {
    r := [];
    ghost var n := if target < |groups| then |groups| else target + 1;
    ghost var padded := Padded(groups, n);
    ghost var goal := padded[target := padded[target] + lgroups[lgid]];
    if target < |groups| {
      assert padded == groups;
    } else {
      assert padded == groups + [[]];
      assert goal == groups + [[] + lgroups[lgid]];
      assert [] + lgroups[lgid] == lgroups[lgid];
    }
    for a := 0 to |fs|
      invariant |r| == a && forall c :: 0 <= c < a ==> AggOk(fs[c], r[c], goal)
    {
      var states := Resize(fs[a], aggs[a], if target < |aggs[a]| then |aggs[a]| else target + 1, groups);
      states := CombineStates(fs[a], states, target, local[a][lgid], padded, lgroups[lgid]);
      r := r + [states];
    }
  }

  method CopyOne(types: seq<ColumnType>, keyColumns: seq<Column>, n: nat, source: seq<Column>, m: nat, lgid: nat)
    returns (r: seq<Column>)
    requires TypesOf(keyColumns) == types && Aligned(keyColumns, n) && BuildersOk(types, source, m) && lgid < m
    ensures TypesOf(r) == types && Aligned(r, n + 1)
    ensures HeldRows(r, n + 1) == HeldRows(keyColumns, n) + [HeldRows(source, m)[lgid]]
  {
    assert |source| == |TypesOf(source)| == |keyColumns|;
    r := CopyColumns(keyColumns, source, Some([lgid]), m);
    StackedRows(keyColumns, n, source, [lgid]);
    assert RowsOf(source, [lgid]) == [HeldRows(source, m)[lgid]];
    assert TypesOf(r) == TypesOf(keyColumns);
  }

  /** One entry of another thread's hash table. */
  method MergeEntry(cols: seq<nat>, types: seq<ColumnType>, fs: seq<AggFunction>, global: GroupState, local: GroupState, key: Key,
                    ghost groups: seq<seq<Row>>, ghost lgroups: seq<seq<Row>>)
    returns (r: GroupState, ghost groups': seq<seq<Row>>)
    requires StateOk(cols, types, fs, global, groups) && StateOk(cols, types, fs, local, lgroups)
    requires TypesOf(global.keyColumns) == types && key in local.table && global.numGroups < TWO_32
    ensures local.table[key] < |lgroups|
    ensures StateOk(cols, types, fs, r, groups') && TypesOf(r.keyColumns) == types
    ensures multiset(Sequences.Concat(groups')) == multiset(Sequences.Concat(groups)) + multiset(lgroups[local.table[key]])
  {
    var lgid := local.table[key];
    ghost var ks, lks := HeldRows(global.keyColumns, global.numGroups), HeldRows(local.keyColumns, local.numGroups);
    assert lgid < |lks| && Mapped(Encoder(types), lks)[lgid] == key;
    ghost var k := lks[lgid];
    EncoderInjective(types);
    var table, target := PlaceKey(Encoder(types), TypedBy(types), global.table, global.numGroups, key, ks, k);
    var keyColumns, n := global.keyColumns, global.numGroups;
    if target == n {
      keyColumns := CopyOne(types, keyColumns, n, local.keyColumns, local.numGroups, lgid);
      n := n + 1;
    }
    MergeGroup(KeyFn(cols), ks, groups, k, lgroups[lgid], target);
    var aggs := CombineAll(fs, global.aggs, target, local.aggs, lgid, groups, lgroups);
    r := GroupState(table, keyColumns, n, aggs);
    groups' := Joined(groups, lgroups[lgid], target);
  }

  lemma {:induction false} GroupsAtMostRows(groups: seq<seq<Row>>)
    requires forall g :: 0 <= g < |groups| ==> groups[g] != []
    ensures |groups| <= |Sequences.Concat(groups)|
    decreases |groups|
  {
    if groups != [] {
      GroupsAtMostRows(groups[..|groups| - 1]);
    }
  }

  /** Finalize's inner loop: all entries of one thread's table, in any order. */
  method MergeThread(cols: seq<nat>, types: seq<ColumnType>, fs: seq<AggFunction>, global: GroupState, local: GroupState,
                     ghost groups: seq<seq<Row>>, ghost lgroups: seq<seq<Row>>)
    returns (r: GroupState, ghost groups': seq<seq<Row>>)
    requires StateOk(cols, types, fs, global, groups) && StateOk(cols, types, fs, local, lgroups)
    requires TypesOf(global.keyColumns) == types
    requires |multiset(Sequences.Concat(groups)) + multiset(Sequences.Concat(lgroups))| <= TWO_32
    ensures StateOk(cols, types, fs, r, groups') && TypesOf(r.keyColumns) == types
    ensures multiset(Sequences.Concat(groups')) == multiset(Sequences.Concat(groups)) + multiset(Sequences.Concat(lgroups))
  {
    r, groups' := global, groups;
    var todo := local.table.Keys;
    ghost var codes, left := Mapped(Encoder(types), HeldRows(local.keyColumns, local.numGroups)), lgroups;
    ghost var total := multiset(Sequences.Concat(groups)) + multiset(Sequences.Concat(lgroups));
    AllRemaining(local.table, codes, lgroups);
    while todo != {}
      invariant todo <= local.table.Keys && Remaining(codes, lgroups, left, todo)
      invariant StateOk(cols, types, fs, r, groups') && TypesOf(r.keyColumns) == types
      invariant multiset(Sequences.Concat(groups')) + multiset(Sequences.Concat(left)) == total
      decreases todo
    {
      var key :| key in todo;
      r, groups', left := MergeNext(cols, types, fs, r, local, key, groups', lgroups, left, todo);
      todo := todo - {key};
    }
    assert multiset(Sequences.Concat(left)) == multiset{} by { NoneRemaining(codes, lgroups, left); }
  }

  method MergeNext(cols: seq<nat>, types: seq<ColumnType>, fs: seq<AggFunction>, global: GroupState, local: GroupState, key: Key,
                   ghost groups: seq<seq<Row>>, ghost lgroups: seq<seq<Row>>, ghost left: seq<seq<Row>>, ghost todo: set<Key>)
    returns (r: GroupState, ghost groups': seq<seq<Row>>, ghost left': seq<seq<Row>>)
    requires StateOk(cols, types, fs, global, groups) && StateOk(cols, types, fs, local, lgroups)
    requires TypesOf(global.keyColumns) == types && key in todo && key in local.table
    requires Remaining(Mapped(Encoder(types), HeldRows(local.keyColumns, local.numGroups)), lgroups, left, todo)
    requires |multiset(Sequences.Concat(groups)) + multiset(Sequences.Concat(left))| <= TWO_32
    ensures StateOk(cols, types, fs, r, groups') && TypesOf(r.keyColumns) == types
    ensures Remaining(Mapped(Encoder(types), HeldRows(local.keyColumns, local.numGroups)), lgroups, left', todo - {key})
    ensures multiset(Sequences.Concat(groups')) + multiset(Sequences.Concat(left'))
         == multiset(Sequences.Concat(groups)) + multiset(Sequences.Concat(left))
  {
    RemainingStep(local.table, Mapped(Encoder(types), HeldRows(local.keyColumns, local.numGroups)), lgroups, left, todo, key);
    RoomForGroup(groups, left, local.table[key]);
    r, groups' := MergeEntry(cols, types, fs, global, local, key, groups, lgroups);
    left' := left[local.table[key] := []];
    Sequences.BagMoves(multiset(Sequences.Concat(groups)), multiset(Sequences.Concat(left)), multiset(Sequences.Concat(groups')),
                       multiset(Sequences.Concat(left')), multiset(lgroups[local.table[key]]));
  }

  lemma RoomForGroup(groups: seq<seq<Row>>, left: seq<seq<Row>>, g: nat)
    requires forall h :: 0 <= h < |groups| ==> groups[h] != []
    requires g < |left| && left[g] != []
    requires |multiset(Sequences.Concat(groups)) + multiset(Sequences.Concat(left))| <= TWO_32
    ensures |groups| < TWO_32
  {
    GroupsAtMostRows(groups);
    Sequences.ConcatClear(left, g);
    Sequences.SameBagSameLength(Sequences.Concat(left), Sequences.Concat(left[g := []]) + left[g]);
  }

  // ----- the result -----

  /** The aggregates of group g, as written. */
  ghost function FinalRow(fs: seq<AggFunction>, aggs: seq<seq<AggState>>, groups: seq<seq<Row>>, g: nat): (r: seq<Value>)
    requires AggsOk(fs, aggs, groups) && g < |groups|
    ensures |r| == |fs|
  {
    seq(|fs|, a requires 0 <= a < |fs| =>
      assert AggOk(fs[a], aggs[a], groups);
      FinalValue(fs[a], aggs[a][g]))
  }

  /** WriteResult of every aggregate: one element per group. */
  method WriteColumns(fs: seq<AggFunction>, aggs: seq<seq<AggState>>, ghost groups: seq<seq<Row>>) returns (columns: seq<Column>)
    requires AggsOk(fs, aggs, groups)
    ensures |columns| == |fs| && Aligned(columns, |groups|) && TypesOf(columns) == ResultTypes(fs)
    ensures forall g :: 0 <= g < |groups| ==> RowAt(columns, g) == FinalRow(fs, aggs, groups, g)
  {
    columns := [];
    for a := 0 to |fs|
      invariant |columns| == a && Aligned(columns, |groups|)
      invariant forall c, g :: 0 <= c < a && 0 <= g < |groups| ==> columns[c].data[g] == FinalRow(fs, aggs, groups, g)[c]
      invariant forall c :: 0 <= c < a ==> columns[c].ty == ResultTypes(fs)[c]
    {
      var data := WriteOne(fs[a], aggs[a], groups);
      columns := columns + [Column(Aggregates.ResultType(fs[a]), data)];
    }
  }

  method WriteOne(f: AggFunction, states: seq<AggState>, ghost groups: seq<seq<Row>>) returns (data: seq<Value>)
    requires AggOk(f, states, groups)
    ensures |data| == |groups| && forall g :: 0 <= g < |groups| ==> data[g] == FinalValue(f, states[g])
  {
    data := [];
    for g := 0 to |states|
      invariant |data| == g && forall h :: 0 <= h < g ==> data[h] == FinalValue(f, states[h])
    {
      assert Represents(f, states[g], groups[g]);
      data := data + [FinalValue(f, states[g])];
    }
  }

  /** The result row of a group: its key, then the aggregates of the rows with that key. */
  ghost predicate IsGroupRow(fs: seq<AggFunction>, row: Row, k: seq<Value>, rows: seq<Row>) {
    && |row| == |k| + |fs| && row[..|k|] == k
    && forall a :: 0 <= a < |fs| ==> AllRead(fs[a], rows) && IsAggregate(fs[a], row[|k| + a], rows)
  }

  /**
   GROUP BY's meaning: one row for each key that occurs, no key twice, each with the aggregates of exactly the
   input rows that have the key.
   */
  ghost predicate IsGroupBy(cols: seq<nat>, fs: seq<AggFunction>, out: seq<Row>, input: seq<Row>) {
    exists ks: seq<seq<Value>> ::
      && |ks| == |out| && Distinct(ks) && KeysCover(KeyFn(cols), ks, input)
      && forall g :: 0 <= g < |ks| ==> IsGroupRow(fs, out[g], ks[g], WithKey(KeyFn(cols), ks[g], input))
  }

  /** Every accumulator can hold its result over the group's rows. */
  ghost predicate GroupExact(fs: seq<AggFunction>, rows: seq<Row>) {
    forall a :: 0 <= a < |fs| ==> AllRead(fs[a], rows) && Exact(fs[a], rows)
  }

  /** So it is in every group of the input. */
  ghost predicate GroupsExact(cols: seq<nat>, fs: seq<AggFunction>, input: seq<Row>) {
    forall k: seq<Value> :: k in Mapped(KeyFn(cols), input) ==> GroupExact(fs, WithKey(KeyFn(cols), k, input))
  }

  /** A group's row is right exactly if the accumulators can hold its aggregates. */
  lemma GroupRowMeaning(cols: seq<nat>, fs: seq<AggFunction>, aggs: seq<seq<AggState>>, ks: seq<seq<Value>>,
                        groups: seq<seq<Row>>, input: seq<Row>, g: nat)
    requires Grouped(KeyFn(cols), ks, groups) && multiset(Sequences.Concat(groups)) == multiset(input) && g < |ks|
    requires AggsOk(fs, aggs, groups)
    ensures IsGroupRow(fs, ks[g] + FinalRow(fs, aggs, groups, g), ks[g], WithKey(KeyFn(cols), ks[g], input))
        <==> GroupExact(fs, WithKey(KeyFn(cols), ks[g], input))
  {
    var rows, cells := WithKey(KeyFn(cols), ks[g], input), FinalRow(fs, aggs, groups, g);
    GroupIsSelection(KeyFn(cols), ks, groups, input, g);
    forall a | 0 <= a < |fs| ensures AllRead(fs[a], rows) && (IsAggregate(fs[a], cells[a], rows) <==> Exact(fs[a], rows)) {
      assert AggOk(fs[a], aggs[a], groups);
      ResultIsAggregate(fs[a], aggs[a][g], groups[g]);
      SameForBag(fs[a], cells[a], groups[g], rows);
    }
    KeyThenCells(fs, ks[g], cells, rows);
  }

  lemma KeyThenCells(fs: seq<AggFunction>, k: seq<Value>, cells: Row, rows: seq<Row>)
    requires |cells| == |fs| && forall a :: 0 <= a < |fs| ==> AllRead(fs[a], rows)
    ensures IsGroupRow(fs, k + cells, k, rows) <==> forall a :: 0 <= a < |fs| ==> IsAggregate(fs[a], cells[a], rows)
  {
    assert (k + cells)[..|k|] == k && forall a :: 0 <= a < |fs| ==> (k + cells)[|k| + a] == cells[a];
  }

  /** Key columns followed by the written aggregates hold the meaning of GROUP BY. */
  lemma ResultMeaning(cols: seq<nat>, fs: seq<AggFunction>, aggs: seq<seq<AggState>>, ks: seq<seq<Value>>,
                      groups: seq<seq<Row>>, input: seq<Row>, out: seq<Row>)
    requires Grouped(KeyFn(cols), ks, groups) && AggsOk(fs, aggs, groups) && |out| == |ks|
    requires multiset(Sequences.Concat(groups)) == multiset(input) && GroupsExact(cols, fs, input)
    requires forall g :: 0 <= g < |ks| ==> out[g] == ks[g] + FinalRow(fs, aggs, groups, g)
    ensures IsGroupBy(cols, fs, out, input)
  {
    GroupsCover(KeyFn(cols), ks, groups, input);
    forall g | 0 <= g < |ks| ensures IsGroupRow(fs, out[g], ks[g], WithKey(KeyFn(cols), ks[g], input)) {
      GroupRowMeaning(cols, fs, aggs, ks, groups, input, g);
    }
    GroupByHolds(cols, fs, ks, groups, input, out);
  }

  lemma JoinedRow(left: seq<Column>, right: seq<Column>, n: nat, g: nat)
    requires Aligned(left, n) && Aligned(right, n) && g < n
    ensures Aligned(left + right, n)
    ensures HeldRows(left + right, n)[g] == HeldRows(left, n)[g] + HeldRows(right, n)[g]
  {
  }

  lemma GroupByHolds(cols: seq<nat>, fs: seq<AggFunction>, ks: seq<seq<Value>>, groups: seq<seq<Row>>, input: seq<Row>, out: seq<Row>)
    requires Grouped(KeyFn(cols), ks, groups) && multiset(Sequences.Concat(groups)) == multiset(input) && |out| == |ks|
    requires forall g :: 0 <= g < |ks| ==> IsGroupRow(fs, out[g], ks[g], WithKey(KeyFn(cols), ks[g], input))
    ensures IsGroupBy(cols, fs, out, input)
  {
    GroupsCover(KeyFn(cols), ks, groups, input);
  }

  // ----- the operator -----

  function EmptyState(fs: seq<AggFunction>): (st: GroupState) {
    GroupState(map[], [], 0, seq(|fs|, _ => []))
  }

  lemma EmptyStateOk(cols: seq<nat>, types: seq<ColumnType>, fs: seq<AggFunction>)
    ensures StateOk(cols, types, fs, EmptyState(fs), [])
  {
  }

  /** One thread: its state stands for `groups`, which are the rows it has sunk. */
  ghost predicate ThreadOk(cols: seq<nat>, types: seq<ColumnType>, fs: seq<AggFunction>, st: GroupState,
                           groups: seq<seq<Row>>, seen: seq<Row>) {
    StateOk(cols, types, fs, st, groups) && multiset(Sequences.Concat(groups)) == multiset(seen)
  }

  ghost predicate AllThreadsOk(cols: seq<nat>, types: seq<ColumnType>, fs: seq<AggFunction>, threads: seq<GroupState>,
                               groups: seq<seq<seq<Row>>>, seen: seq<seq<Row>>) {
    && |threads| == |groups| == |seen|
    && forall t :: 0 <= t < |threads| ==> ThreadOk(cols, types, fs, threads[t], groups[t], seen[t])
  }

  lemma NumGroupsAtMostSeen(cols: seq<nat>, types: seq<ColumnType>, fs: seq<AggFunction>, st: GroupState,
                            groups: seq<seq<Row>>, seen: seq<Row>)
    requires ThreadOk(cols, types, fs, st, groups, seen)
    ensures st.numGroups <= |seen|
  {
    GroupsAtMostRows(groups);
    Sequences.SameBagSameLength(Sequences.Concat(groups), seen);
  }

  /** The threads after merging: the first holds everything, the tables of the others are cleared. */
  function AfterMerge(threads: seq<GroupState>, global: GroupState): seq<GroupState> {
    seq(|threads|, t requires 0 <= t < |threads| => if t == 0 then global else threads[t].(table := map[]))
  }

  lemma OneThreadChanges(cols: seq<nat>, types: seq<ColumnType>, fs: seq<AggFunction>, threads: seq<GroupState>,
                         groups: seq<seq<seq<Row>>>, seen: seq<seq<Row>>, t: nat, st: GroupState, gs: seq<seq<Row>>, rows: seq<Row>)
    requires AllThreadsOk(cols, types, fs, threads, groups, seen) && t < |threads| && ThreadOk(cols, types, fs, st, gs, rows)
    ensures AllThreadsOk(cols, types, fs, threads[t := st], groups[t := gs], seen[t := rows])
  {
    var threads', groups', seen' := threads[t := st], groups[t := gs], seen[t := rows];
    forall u | 0 <= u < |threads'| ensures ThreadOk(cols, types, fs, threads'[u], groups'[u], seen'[u]) {
      assert u == t || ThreadOk(cols, types, fs, threads[u], groups[u], seen[u]);
    }
  }

  /** Sink on the states of all threads. */
  method SinkThread(cols: seq<nat>, types: seq<ColumnType>, fs: seq<AggFunction>, threads: seq<GroupState>, t: nat, b: RecordBatch,
                    ghost groups: seq<seq<seq<Row>>>, ghost seen: seq<seq<Row>>)
    returns (threads': seq<GroupState>, ghost groups': seq<seq<seq<Row>>>, ghost seen': seq<seq<Row>>)
    requires AllThreadsOk(cols, types, fs, threads, groups, seen) && t < |threads|
    requires BatchOk(cols, types, fs, b) && |types| == |cols| && |seen[t]| + b.numRows <= TWO_32
    ensures AllThreadsOk(cols, types, fs, threads', groups', seen') && seen' == seen[t := seen[t] + Rows(b)]
    ensures |threads'| == |threads| && |groups'| == |groups|
    ensures forall u :: 0 <= u < |threads| && u != t ==> threads'[u] == threads[u] && groups'[u] == groups[u]
  {
    assert ThreadOk(cols, types, fs, threads[t], groups[t], seen[t]);
    NumGroupsAtMostSeen(cols, types, fs, threads[t], groups[t], seen[t]);
    var st;
    ghost var gs;
    st, gs := SinkBatch(cols, types, fs, threads[t], b, groups[t]);
    OneThreadChanges(cols, types, fs, threads, groups, seen, t, st, gs, seen[t] + Rows(b));
    threads', groups', seen' := threads[t := st], groups[t := gs], seen[t := seen[t] + Rows(b)];
  }

  class GroupBySink {
    const cols: seq<nat>
    const keyTypes: seq<ColumnType>
    const functions: seq<AggFunction>
    var threads: seq<GroupState>
    var result: Option<RecordBatch>
    var emitted: bool
    /** Per thread: the rows of each group, and all rows sunk. */
    ghost var groups: seq<seq<seq<Row>>>
    ghost var seen: seq<seq<Row>>

    ghost predicate Valid()
      reads this
    {
      |keyTypes| == |cols| && AllThreadsOk(cols, keyTypes, functions, threads, groups, seen)
    }

    constructor (cols: seq<nat>, keyTypes: seq<ColumnType>, functions: seq<AggFunction>, numThreads: nat)
      requires |keyTypes| == |cols|
      ensures Valid() && result.None? && !emitted && |threads| == numThreads
      ensures this.cols == cols && this.keyTypes == keyTypes && this.functions == functions
      ensures forall t :: 0 <= t < numThreads ==> seen[t] == []
    {
      this.cols, this.keyTypes, this.functions := cols, keyTypes, functions;
      threads := seq(numThreads, _ => EmptyState(functions));
      groups := seq(numThreads, _ => []);
      seen := seq(numThreads, _ => []);
      result, emitted := None, false;
      EmptyStateOk(cols, keyTypes, functions);
    }

    /** Sink touches the state of its own thread only. */
    method Sink(batch: RecordBatch, t: nat)
      requires Valid() && t < |threads| && BatchOk(cols, keyTypes, functions, batch)
      requires |seen[t]| + batch.numRows <= TWO_32
      modifies this`threads, this`groups, this`seen
      ensures Valid() && |threads| == |old(threads)|
      ensures seen == old(seen)[t := old(seen[t]) + Rows(batch)]
      ensures forall u :: 0 <= u < |threads| && u != t ==> threads[u] == old(threads[u]) && groups[u] == old(groups[u])
    {
      var threads';
      ghost var groups', seen';
      threads', groups', seen' := SinkThread(cols, keyTypes, functions, threads, t, batch, groups, seen);
      threads, groups, seen := threads', groups', seen';
    }

    /** Finalize: for every split of the rows among threads and every iteration order of the hash maps, GROUP BY's meaning. */
    method Finalize(ghost input: seq<Row>)
      requires Valid() && threads != [] && |input| <= TWO_32 && multiset(Sequences.Concat(seen)) == multiset(input)
      modifies this`threads, this`result
      ensures result.Some? && Batches.Valid(result.value) && result.value.sel.None?
      ensures TypesOf(result.value.columns) == keyTypes + ResultTypes(functions)
      ensures threads != [] && threads == AfterMerge(old(threads), threads[0])
      ensures GroupsExact(cols, functions, input) ==> IsGroupBy(cols, functions, Rows(result.value), input)
    {
      Sequences.SameBagSameLength(Sequences.Concat(seen), input);
      var global;
      ghost var merged;
      global, merged := MergeAll(cols, keyTypes, functions, threads, groups, seen);
      var batch := WriteBatch(cols, keyTypes, functions, global, merged, input);
      threads := AfterMerge(threads, global);
      result := Some(batch);
    }

    /** GetData: the result goes to the first caller only. */
    method GetData() returns (b: Option<RecordBatch>)
      modifies this`emitted, this`result
      ensures emitted
      ensures b == if old(emitted) then None else old(result)
      ensures result == if old(emitted) then old(result) else None
    {
      if emitted {
        b := None;
      } else {
        emitted := true;
        b := result;
        result := None;
      }
    }
  }

  /** The rows that the first t threads have seen. */
  ghost function SeenBy(seen: seq<seq<Row>>, t: nat): multiset<Row>
    requires t <= |seen|
  {
    if t == 0 then multiset{} else SeenBy(seen, t - 1) + multiset(seen[t - 1])
  }

  lemma {:induction false} SeenByPrefix(seen: seq<seq<Row>>, t: nat)
    requires t <= |seen|
    ensures SeenBy(seen, t) == multiset(Sequences.Concat(seen[..t]))
  {
    if t > 0 {
      SeenByPrefix(seen, t - 1);
      Sequences.ConcatPrefixSnoc(seen, t - 1);
    }
  }

  lemma SeenByAll(seen: seq<seq<Row>>)
    ensures SeenBy(seen, |seen|) == multiset(Sequences.Concat(seen))
  {
    SeenByPrefix(seen, |seen|);
    assert seen[..|seen|] == seen;
  }

  lemma {:induction false} SeenByFits(seen: seq<seq<Row>>, t: nat)
    requires t <= |seen|
    ensures |SeenBy(seen, t)| <= |Sequences.Concat(seen)|
    decreases |seen| - t
  {
    if t == |seen| {
      SeenByAll(seen);
    } else {
      SeenByFits(seen, t + 1);
    }
  }

  /** Finalize's outer loop: threads 1, 2, ... are merged into thread 0's state. */
  method MergeAll(cols: seq<nat>, types: seq<ColumnType>, fs: seq<AggFunction>, threads: seq<GroupState>,
                  ghost groups: seq<seq<seq<Row>>>, ghost seen: seq<seq<Row>>)
    returns (global: GroupState, ghost merged: seq<seq<Row>>)
    requires threads != [] && AllThreadsOk(cols, types, fs, threads, groups, seen) && |Sequences.Concat(seen)| <= TWO_32
    ensures StateOk(cols, types, fs, global, merged) && TypesOf(global.keyColumns) == types
    ensures multiset(Sequences.Concat(merged)) == multiset(Sequences.Concat(seen))
  {
    global, merged := StartMerge(cols, types, fs, threads, groups, seen);
    for t := 1 to |threads|
      invariant StateOk(cols, types, fs, global, merged) && TypesOf(global.keyColumns) == types
      invariant multiset(Sequences.Concat(merged)) == SeenBy(seen, t)
    {
      global, merged := MergeThreadAt(cols, types, fs, global, threads, merged, groups, seen, t);
    }
    SeenByAll(seen);
  }

  method MergeThreadAt(cols: seq<nat>, types: seq<ColumnType>, fs: seq<AggFunction>, global: GroupState, threads: seq<GroupState>,
                       ghost merged: seq<seq<Row>>, ghost groups: seq<seq<seq<Row>>>, ghost seen: seq<seq<Row>>, t: nat)
    returns (r: GroupState, ghost merged': seq<seq<Row>>)
    requires AllThreadsOk(cols, types, fs, threads, groups, seen) && t < |threads| && |Sequences.Concat(seen)| <= TWO_32
    requires StateOk(cols, types, fs, global, merged) && TypesOf(global.keyColumns) == types
    requires multiset(Sequences.Concat(merged)) == SeenBy(seen, t)
    ensures StateOk(cols, types, fs, r, merged') && TypesOf(r.keyColumns) == types
    ensures multiset(Sequences.Concat(merged')) == SeenBy(seen, t + 1)
  {
    SeenByFits(seen, t + 1);
    r, merged' := MergeNextThread(cols, types, fs, global, threads[t], merged, groups[t], seen[t]);
  }

  method StartMerge(cols: seq<nat>, types: seq<ColumnType>, fs: seq<AggFunction>, threads: seq<GroupState>,
                    ghost groups: seq<seq<seq<Row>>>, ghost seen: seq<seq<Row>>)
    returns (global: GroupState, ghost merged: seq<seq<Row>>)
    requires threads != [] && AllThreadsOk(cols, types, fs, threads, groups, seen)
    ensures StateOk(cols, types, fs, global, merged) && TypesOf(global.keyColumns) == types
    ensures |seen| > 0 && multiset(Sequences.Concat(merged)) == SeenBy(seen, 1)
  {
    assert ThreadOk(cols, types, fs, threads[0], groups[0], seen[0]);
    var keyColumns := StartBuilders(types, threads[0].keyColumns, threads[0].numGroups);
    global, merged := threads[0].(keyColumns := keyColumns), groups[0];
    assert SeenBy(seen, 1) == SeenBy(seen, 0) + multiset(seen[0]);
  }

  /** A thread without groups is passed over. */
  method MergeNextThread(cols: seq<nat>, types: seq<ColumnType>, fs: seq<AggFunction>, global: GroupState, local: GroupState,
                         ghost merged: seq<seq<Row>>, ghost lgroups: seq<seq<Row>>, ghost lseen: seq<Row>)
    returns (r: GroupState, ghost merged': seq<seq<Row>>)
    requires StateOk(cols, types, fs, global, merged) && TypesOf(global.keyColumns) == types
    requires ThreadOk(cols, types, fs, local, lgroups, lseen)
    requires |multiset(Sequences.Concat(merged)) + multiset(lseen)| <= TWO_32
    ensures StateOk(cols, types, fs, r, merged') && TypesOf(r.keyColumns) == types
    ensures multiset(Sequences.Concat(merged')) == multiset(Sequences.Concat(merged)) + multiset(lseen)
  {
    if local.numGroups == 0 {
      assert lgroups == [];
      r, merged' := global, merged;
    } else {
      r, merged' := MergeThread(cols, types, fs, global, local, merged, lgroups);
    }
  }

  method WriteBatch(cols: seq<nat>, types: seq<ColumnType>, fs: seq<AggFunction>, st: GroupState,
                    ghost groups: seq<seq<Row>>, ghost input: seq<Row>)
    returns (b: RecordBatch)
    requires StateOk(cols, types, fs, st, groups) && TypesOf(st.keyColumns) == types
    requires multiset(Sequences.Concat(groups)) == multiset(input)
    ensures Valid(b) && b.sel.None?
    ensures TypesOf(b.columns) == types + ResultTypes(fs)
    ensures GroupsExact(cols, fs, input) ==> IsGroupBy(cols, fs, Rows(b), input)
  {
    var written := WriteColumns(fs, st.aggs, groups);
    b := RecordBatch(st.numGroups, None, st.keyColumns + written);
    TypesOfConcat(st.keyColumns, written);
    assert Aligned(b.columns, st.numGroups);
    HeldIsBatch(b.columns, st.numGroups);
    if GroupsExact(cols, fs, input) {
      var ks, out := HeldRows(st.keyColumns, st.numGroups), HeldRows(b.columns, st.numGroups);
      forall g | 0 <= g < st.numGroups ensures out[g] == ks[g] + FinalRow(fs, st.aggs, groups, g) {
        JoinedRow(st.keyColumns, written, st.numGroups, g);
      }
      ResultMeaning(cols, fs, st.aggs, ks, groups, input, out);
    }
  }

  // ----- a whole life of the operator -----

  /** The rows of the first i batches. */
  ghost function RowsUpTo(batches: seq<RecordBatch>, i: nat): multiset<Row>
    requires AllValid(batches) && i <= |batches|
  {
    if i == 0 then multiset{} else RowsUpTo(batches, i - 1) + multiset(Rows(batches[i - 1]))
  }

  lemma {:induction false} RowsOfPrefix(batches: seq<RecordBatch>, i: nat)
    requires AllValid(batches) && i <= |batches|
    ensures AllValid(batches[..i]) && RowsUpTo(batches, i) == multiset(AllRows(batches[..i]))
  {
    if i > 0 {
      RowsOfPrefix(batches, i - 1);
      PrefixRows(batches, i - 1);
    }
  }

  lemma RowsOfAll(batches: seq<RecordBatch>)
    requires AllValid(batches)
    ensures RowsUpTo(batches, |batches|) == multiset(AllRows(batches))
  {
    RowsOfPrefix(batches, |batches|);
    assert batches[..|batches|] == batches;
  }

  /** Any deliveries to any threads in any order, then Finalize. */
  method SinkAll(op: GroupBySink, batches: seq<RecordBatch>, lanes: seq<nat>)
    requires op.Valid() && op.threads != [] && |lanes| == |batches|
    requires forall t :: 0 <= t < |op.threads| ==> op.seen[t] == []
    requires forall i :: 0 <= i < |batches| ==>
               BatchOk(op.cols, op.keyTypes, op.functions, batches[i]) && lanes[i] < |op.threads|
    requires AllValid(batches) && |AllRows(batches)| <= TWO_32
    modifies op
    ensures op.result.Some? && Valid(op.result.value) && op.result.value.sel.None?
    ensures TypesOf(op.result.value.columns) == op.keyTypes + ResultTypes(op.functions)
    ensures GroupsExact(op.cols, op.functions, AllRows(batches)) ==>
              IsGroupBy(op.cols, op.functions, Rows(op.result.value), AllRows(batches))
  {
    ghost var threads := |op.threads|;
    Sequences.ConcatOfEmpties(op.seen);
    for i := 0 to |batches|
      invariant op.Valid() && |op.threads| == threads
      invariant multiset(Sequences.Concat(op.seen)) == RowsUpTo(batches, i)
    {
      RoomFor(op.seen, batches, i, lanes[i]);
      op.Sink(batches[i], lanes[i]);
    }
    RowsOfAll(batches);
    op.Finalize(AllRows(batches));
  }

  lemma RoomFor(seen: seq<seq<Row>>, batches: seq<RecordBatch>, i: nat, t: nat)
    requires AllValid(batches) && i < |batches| && t < |seen| && |AllRows(batches)| <= TWO_32
    requires multiset(Sequences.Concat(seen)) == RowsUpTo(batches, i)
    ensures |seen[t]| + batches[i].numRows <= TWO_32
    ensures multiset(Sequences.Concat(seen[t := seen[t] + Rows(batches[i])])) == RowsUpTo(batches, i + 1)
  {
    PrefixRows(batches, i);
    RowsOfPrefix(batches, i);
    Sequences.SameBagSameLength(Sequences.Concat(seen), AllRows(batches[..i]));
    Sequences.OneAtMostAll(seen, t);
    Sequences.ConcatAppendTo(seen, t, Rows(batches[i]));
  }
}
