/**
 The pipeline protocol on record batches: what the rows sunk by a finished run are, in terms of the rows of the
 source and the relational meaning of the transforms.
 */
module Execution {
  import opened Values
  import opened Wrappers
  import opened Batches
  import opened Builders
  import opened Operators
  import LimitPlacement
  import P = Pipelines
  import PipelineRows
  import Sequences
  import SeveralLimits

  type PConfig = P.Config<RecordBatch>

  // ----- transforms as protocol stages -----

  /** What a transform does to a batch; an index beyond the batch's columns is a fault. */
  ghost function EffectOf(t: Transform, b: RecordBatch): P.Outcome<RecordBatch> {
    if t.Limit? || !Valid(b) || !Fits(t, ShapeOf(b)) then P.Fault
    else
      match Apply(t, b)
      case None => P.Null
      case Some(r) => P.Out(r)
  }

  ghost function StageOf(t: Transform): P.Stage<RecordBatch> {
    if t.Limit? then P.Limit(t.limit) else P.Work(b => EffectOf(t, b))
  }

  function ClipOrEmpty(b: RecordBatch, n: nat): (r: RecordBatch)
    ensures r.numRows == n
  {
    if b.sel.Some? && n > |b.sel.value| then RecordBatch(n, None, []) else Clip(b, n)
  }

  ghost function ConfigOf(supply: seq<RecordBatch>, ts: seq<Transform>, threads: nat): PConfig {
    P.Config(supply, seq(|ts|, k requires 0 <= k < |ts| => StageOf(ts[k])), threads,
             (b: RecordBatch) => b.numRows, (b: RecordBatch, n: nat) => ClipOrEmpty(b, n))
  }

  ghost predicate NoLimits(ts: seq<Transform>) {
    forall k :: 0 <= k < |ts| ==> !ts[k].Limit?
  }

  /** The transforms before a final LIMIT. */
  function Body(ts: seq<Transform>): seq<Transform> {
    if ts != [] && ts[|ts| - 1].Limit? then ts[..|ts| - 1] else ts
  }

  function LimitAtEnd(ts: seq<Transform>): Option<nat> {
    if ts != [] && ts[|ts| - 1].Limit? then Some(ts[|ts| - 1].limit) else None
  }

  lemma ConfigIsGood(supply: seq<RecordBatch>, ts: seq<Transform>, threads: nat)
    requires NoLimits(Body(ts))
    ensures var c := ConfigOf(supply, ts, threads);
            && P.GoodConfig(c) && P.LimitOf(c) == LimitAtEnd(ts) && P.Arrival(c) == |Body(ts)|
            && forall k :: 0 <= k < |Body(ts)| ==> c.stages[k].Work?
  {
  }

  /** Transforms with a LIMIT among them and something behind it: what `LimitPlacement` is about. */
  lemma LimitInside(supply: seq<RecordBatch>, ts: seq<Transform>, threads: nat, k: nat)
    requires k + 1 < |ts| && ts[k].Limit? && forall j :: 0 <= j < |ts| && j != k ==> !ts[j].Limit?
    ensures LimitPlacement.LimitAt(ConfigOf(supply, ts, threads), k)
  {
  }

  /** LIMIT m of LIMIT n over one batch on one thread: the first limit, if reached, is all that counts. */
  lemma LimitOfLimit(b: RecordBatch, n: nat, m: nat, s: P.State<RecordBatch>, steps: nat)
    requires P.Reaches(ConfigOf([b], [Operators.Limit(n), Operators.Limit(m)], 1), s, steps) && s.finalized
    ensures P.TotalRows(ConfigOf([b], [Operators.Limit(n), Operators.Limit(m)], 1), P.SunkBatches(s.sunk))
         == if n <= b.numRows then n else SeveralLimits.Least(b.numRows, m)
  {
    var c := ConfigOf([b], [Operators.Limit(n), Operators.Limit(m)], 1);
    assert c.stages == [P.Limit(n), P.Limit(m)];
    SeveralLimits.TwoLimitsExactly(c, s, steps, b, n, m);
  }

  // ----- the meaning of a chain of transforms -----

  function ShapeAfter(ts: seq<Transform>, sh: Shape): Shape {
    if ts == [] then sh else After(ts[|ts| - 1], ShapeAfter(ts[..|ts| - 1], sh))
  }

  function ChainTypes(ts: seq<Transform>, types: seq<ColumnType>): seq<ColumnType> {
    if ts == [] then types else TypesAfter(ts[|ts| - 1], ChainTypes(ts[..|ts| - 1], types))
  }

  /** Each transform of the chain fits the shape the ones before it leave. */
  ghost predicate FitsAll(ts: seq<Transform>, sh: Shape) {
    ts == [] || (FitsAll(ts[..|ts| - 1], sh) && Fits(ts[|ts| - 1], ShapeAfter(ts[..|ts| - 1], sh)))
  }

  ghost function RowsThrough(ts: seq<Transform>, rs: seq<Row>, sh: Shape): (out: seq<Row>)
    requires NoLimits(ts) && FitsAll(ts, sh) && AllWidth(rs, sh.width)
    ensures AllWidth(out, ShapeAfter(ts, sh).width)
  {
    if ts == [] then rs
    else
      var front, t := ts[..|ts| - 1], ts[|ts| - 1];
      var before := RowsThrough(front, rs, sh);
      ApplyToRowsWidth(t, before, ShapeAfter(front, sh));
      ApplyToRows(t, before, ShapeAfter(front, sh).width)
  }

  /** A chain works row by row, so it does not matter how the rows are split into batches. */
  lemma {:induction false} RowsThroughConcat(ts: seq<Transform>, xs: seq<Row>, ys: seq<Row>, sh: Shape)
    requires NoLimits(ts) && FitsAll(ts, sh) && AllWidth(xs, sh.width) && AllWidth(ys, sh.width)
    ensures AllWidth(xs + ys, sh.width)
    ensures RowsThrough(ts, xs + ys, sh) == RowsThrough(ts, xs, sh) + RowsThrough(ts, ys, sh)
  {
    if ts != [] {
      var front, t := ts[..|ts| - 1], ts[|ts| - 1];
      var mid := ShapeAfter(front, sh);
      RowsThroughConcat(front, xs, ys, sh);
      assert Fits(t, Shape(mid.width, true)) by { ApplyToRowsWidth(t, RowsThrough(front, xs, sh), mid); }
      ApplyToConcat(t, RowsThrough(front, xs, sh), RowsThrough(front, ys, sh), mid.width);
    }
  }

  lemma {:induction false} RowsThroughEmpty(ts: seq<Transform>, sh: Shape)
    requires NoLimits(ts) && FitsAll(ts, sh)
    ensures RowsThrough(ts, [], sh) == []
  {
    RowsThroughConcat(ts, [], [], sh);
    var none: seq<Row> := [];
    assert none + none == none;
    var out := RowsThrough(ts, none, sh);
    assert |out| == |out| + |out|;
  }

  lemma {:induction false} PrefixFits(ts: seq<Transform>, k: nat, sh: Shape)
    requires FitsAll(ts, sh) && k <= |ts|
    ensures FitsAll(ts[..k], sh)
  {
    if k < |ts| {
      PrefixFits(ts[..|ts| - 1], k, sh);
      assert ts[..|ts| - 1][..k] == ts[..k];
    } else {
      assert ts[..k] == ts;
    }
  }

  // ----- one batch through the chain -----

  /** How a batch is read as rows, and which batches may stand before stage k. */
  ghost function View(b: RecordBatch): seq<Row> {
    if Valid(b) then Rows(b) else []
  }

  ghost predicate FitAt(ts: seq<Transform>, sh: Shape, types: seq<ColumnType>, k: nat, b: RecordBatch) {
    k <= |ts| && HasShape(b, ShapeAfter(ts[..k], sh)) && TypesOf(b.columns) == ChainTypes(ts[..k], types)
  }

  lemma StageCarries(t: Transform, b: RecordBatch, sh: Shape)
    requires !t.Limit? && HasShape(b, sh) && Fits(t, sh)
    ensures Fits(t, Shape(sh.width, true))
    ensures match EffectOf(t, b)
            case Fault => false
            case Null => ApplyToRows(t, View(b), sh.width) == []
            case Out(r) =>
              && HasShape(r, After(t, sh)) && TypesOf(r.columns) == TypesAfter(t, TypesOf(b.columns))
              && View(r) == ApplyToRows(t, View(b), sh.width)
  {
    ApplyShape(t, b, sh);
    ApplyTypes(t, b);
    ApplyRefinesRows(t, b);
  }

  /** The rows that stand before each stage when `rs` enter the chain. */
  ghost function Trace(ts: seq<Transform>, rs: seq<Row>, sh: Shape): (trace: seq<seq<Row>>)
    requires NoLimits(ts) && FitsAll(ts, sh) && AllWidth(rs, sh.width)
    ensures |trace| == |ts| + 1
    ensures trace[0] == rs && trace[|ts|] == RowsThrough(ts, rs, sh)
  {
    assert ts[..0] == [] && ts[..|ts|] == ts;
    seq(|ts| + 1, k requires 0 <= k <= |ts| =>
      PrefixFits(ts, k, sh);
      RowsThrough(ts[..k], rs, sh))
  }

  lemma TraceStep(ts: seq<Transform>, rs: seq<Row>, sh: Shape, k: nat)
    requires NoLimits(ts) && FitsAll(ts, sh) && AllWidth(rs, sh.width) && k < |ts|
    ensures var trace, mid := Trace(ts, rs, sh), ShapeAfter(ts[..k], sh);
            && Fits(ts[k], mid) && After(ts[k], mid) == ShapeAfter(ts[..k + 1], sh)
            && AllWidth(trace[k], mid.width) && Fits(ts[k], Shape(mid.width, true))
            && trace[k + 1] == ApplyToRows(ts[k], trace[k], mid.width)
    ensures forall types :: ChainTypes(ts[..k + 1], types) == TypesAfter(ts[k], ChainTypes(ts[..k], types))
  {
    PrefixFits(ts, k, sh);
    PrefixFits(ts, k + 1, sh);
    assert ts[..k + 1][..k] == ts[..k] && ts[..k + 1][k] == ts[k];
    ApplyToRowsWidth(ts[k], RowsThrough(ts[..k], rs, sh), ShapeAfter(ts[..k], sh));
  }

  lemma ApplyToNone(t: Transform, width: nat)
    requires !t.Limit? && Fits(t, Shape(width, true))
    ensures ApplyToRows(t, [], width) == []
  {
  }

  /** The stages of the configuration carry the trace of any batch of the right shape. */
  lemma ConfigFollows(supply: seq<RecordBatch>, ts: seq<Transform>, threads: nat, rs: seq<Row>, sh: Shape, types: seq<ColumnType>)
    requires NoLimits(Body(ts)) && FitsAll(Body(ts), sh) && AllWidth(rs, sh.width)
    ensures PipelineRows.Follows(ConfigOf(supply, ts, threads), b => View(b),
                                 (k: nat, b: RecordBatch) => FitAt(Body(ts), sh, types, k, b), Trace(Body(ts), rs, sh))
  {
    var c, body := ConfigOf(supply, ts, threads), Body(ts);
    var trace, fit := Trace(body, rs, sh), (k: nat, b: RecordBatch) => FitAt(body, sh, types, k, b);
    ConfigIsGood(supply, ts, threads);
    forall k: nat | k < |body| ensures trace[k] == [] ==> trace[k + 1] == [] {
      TraceStep(body, rs, sh, k);
      ApplyToNone(body[k], ShapeAfter(body[..k], sh).width);
    }
    forall k: nat, b | k < |body| && fit(k, b) && View(b) == trace[k]
      ensures PipelineRows.Carries(b => View(b), fit, k + 1, c.stages[k].effect(b), trace[k + 1])
    {
      OneStageFollows(body, rs, sh, types, k, b);
      assert c.stages[k].effect(b) == EffectOf(body[k], b);
    }
  }

  lemma OneStageFollows(body: seq<Transform>, rs: seq<Row>, sh: Shape, types: seq<ColumnType>, k: nat, b: RecordBatch)
    requires NoLimits(body) && FitsAll(body, sh) && AllWidth(rs, sh.width) && k < |body|
    requires FitAt(body, sh, types, k, b) && View(b) == Trace(body, rs, sh)[k]
    ensures PipelineRows.Carries(b => View(b), (k: nat, b: RecordBatch) => FitAt(body, sh, types, k, b), k + 1,
                                 EffectOf(body[k], b), Trace(body, rs, sh)[k + 1])
  {
    TraceStep(body, rs, sh, k);
    StageCarries(body[k], b, ShapeAfter(body[..k], sh));
  }

  // ----- a whole run -----

  ghost function LensOf(types: seq<ColumnType>): PipelineRows.Lens<RecordBatch, Row> {
    PipelineRows.Lens(b => View(b), (b: RecordBatch) => Valid(b) && TypesOf(b.columns) == types)
  }

  lemma LensIsFaithful(supply: seq<RecordBatch>, ts: seq<Transform>, threads: nat, types: seq<ColumnType>)
    ensures PipelineRows.Faithful(ConfigOf(supply, ts, threads), LensOf(types))
  {
    var c, v := ConfigOf(supply, ts, threads), LensOf(types);
    forall b: RecordBatch, n: nat | v.good(b) && n <= c.rows(b)
      ensures v.good(c.clip(b, n)) && v.view(c.clip(b, n)) == v.view(b)[..n]
    {
      assert b.sel.Some? ==> |b.sel.value| == b.numRows;
      ClipRows(b, n);
    }
  }

  ghost predicate SupplyShaped(supply: seq<RecordBatch>, sh: Shape) {
    forall i :: 0 <= i < |supply| ==> HasShape(supply[i], sh)
  }

  ghost predicate AllTyped(bs: seq<RecordBatch>, types: seq<ColumnType>) {
    forall i :: 0 <= i < |bs| ==> TypesOf(bs[i].columns) == types
  }

  /** What each batch of the source leaves. */
  ghost function Left(supply: seq<RecordBatch>, ts: seq<Transform>, sh: Shape): (left: seq<seq<Row>>)
    requires NoLimits(ts) && FitsAll(ts, sh) && SupplyShaped(supply, sh)
    ensures |left| == |supply|
  {
    seq(|supply|, i requires 0 <= i < |supply| => RowsThrough(ts, Rows(supply[i]), sh))
  }

  lemma BatchLeaves(supply: seq<RecordBatch>, ts: seq<Transform>, threads: nat, sh: Shape, types: seq<ColumnType>, b: RecordBatch)
    requires NoLimits(Body(ts)) && FitsAll(Body(ts), sh) && HasShape(b, sh) && TypesOf(b.columns) == types
    ensures var c, v := ConfigOf(supply, ts, threads), LensOf(ChainTypes(Body(ts), types));
            && P.Safe(c, b, 0)
            && match P.Through(c, b, 0)
               case None => RowsThrough(Body(ts), Rows(b), sh) == []
               case Some(r) => v.good(r) && v.view(r) == RowsThrough(Body(ts), Rows(b), sh)
  {
    var c, body := ConfigOf(supply, ts, threads), Body(ts);
    var fit := (k: nat, b: RecordBatch) => FitAt(body, sh, types, k, b);
    var v, trace := LensOf(ChainTypes(body, types)), Trace(body, Rows(b), sh);
    ConfigFollows(supply, ts, threads, Rows(b), sh, types);
    assert fit(0, b) by { assert body[..0] == []; }
    assert P.Arrival(c) == |body| by { ConfigIsGood(supply, ts, threads); }
    forall r {:trigger fit(|body|, r)} | fit(|body|, r) ensures v.good(r) && v.view(r) == View(r) {
      FitEnd(body, sh, types, r);
    }
    FollowedThrough(c, b => View(b), fit, trace, b, v);
  }

  lemma FitEnd(ts: seq<Transform>, sh: Shape, types: seq<ColumnType>, b: RecordBatch)
    requires FitAt(ts, sh, types, |ts|, b)
    ensures Valid(b) && TypesOf(b.columns) == ChainTypes(ts, types)
  {
    assert ts[..|ts|] == ts;
  }

  lemma FollowedThrough(c: PConfig, view: RecordBatch -> seq<Row>, fit: (nat, RecordBatch) -> bool,
                        trace: seq<seq<Row>>, b: RecordBatch, v: PipelineRows.Lens<RecordBatch, Row>)
    requires PipelineRows.Follows(c, view, fit, trace) && fit(0, b) && view(b) == trace[0]
    requires forall r {:trigger fit(P.Arrival(c), r)} :: fit(P.Arrival(c), r) ==> v.good(r) && v.view(r) == view(r)
    ensures P.Safe(c, b, 0)
    ensures match P.Through(c, b, 0)
            case None => trace[P.Arrival(c)] == []
            case Some(r) => v.good(r) && v.view(r) == trace[P.Arrival(c)]
  {
    PipelineRows.ThroughFollows(c, view, fit, trace, b, 0);
  }

  lemma SupplyLeaves(supply: seq<RecordBatch>, ts: seq<Transform>, threads: nat, sh: Shape, types: seq<ColumnType>)
    requires NoLimits(Body(ts)) && FitsAll(Body(ts), sh) && SupplyShaped(supply, sh) && AllTyped(supply, types)
    ensures var c := ConfigOf(supply, ts, threads);
            && PipelineRows.Leaves(c, LensOf(ChainTypes(Body(ts), types)), Left(supply, Body(ts), sh))
            && forall i :: 0 <= i < |supply| ==> P.Safe(c, supply[i], 0)
  {
    forall i | 0 <= i < |supply| {
      BatchLeaves(supply, ts, threads, sh, types, supply[i]);
    }
  }

  lemma {:induction false} SupplyWidth(supply: seq<RecordBatch>, sh: Shape)
    requires SupplyShaped(supply, sh)
    ensures AllValid(supply) && AllWidth(AllRows(supply), sh.width)
  {
    if supply != [] {
      SupplyWidth(supply[1..], sh);
      assert AllWidth(Rows(supply[0]), sh.width);
    }
  }

  lemma LeftSnoc(supply: seq<RecordBatch>, ts: seq<Transform>, sh: Shape)
    requires NoLimits(ts) && FitsAll(ts, sh) && SupplyShaped(supply, sh) && supply != []
    ensures var n := |supply| - 1;
            Sequences.Concat(Left(supply, ts, sh))
            == Sequences.Concat(Left(supply[..n], ts, sh)) + Left(supply, ts, sh)[n]
  {
    var n := |supply| - 1;
    assert Left(supply, ts, sh)[..n] == Left(supply[..n], ts, sh);
  }

  /** What the batches leave, one after the other, is what the chain makes of all their rows. */
  lemma {:induction false} LeftIsRowsThrough(supply: seq<RecordBatch>, ts: seq<Transform>, sh: Shape)
    requires NoLimits(ts) && FitsAll(ts, sh) && SupplyShaped(supply, sh)
    ensures AllValid(supply) && AllWidth(AllRows(supply), sh.width)
    ensures Sequences.Concat(Left(supply, ts, sh)) == RowsThrough(ts, AllRows(supply), sh)
    decreases |supply|
  {
    SupplyWidth(supply, sh);
    if supply == [] {
      RowsThroughEmpty(ts, sh);
    } else {
      var n := |supply| - 1;
      LeftIsRowsThrough(supply[..n], ts, sh);
      LeftSnoc(supply, ts, sh);
      AllRowsSnoc(supply);
      RowsThroughConcat(ts, AllRows(supply[..n]), Rows(supply[n]), sh);
    }
  }

  lemma {:induction false} FlattenIsAllRows(bs: seq<RecordBatch>, types: seq<ColumnType>)
    requires PipelineRows.AllGood(LensOf(types), bs)
    ensures AllValid(bs) && AllRows(bs) == PipelineRows.Flatten(LensOf(types), bs)
    decreases |bs|
  {
    forall i | 0 <= i < |bs| ensures Valid(bs[i]) { assert LensOf(types).good(bs[i]); }
    if bs != [] {
      FlattenIsAllRows(bs[..|bs| - 1], types);
      AllRowsSnoc(bs);
    }
  }

  ghost predicate IsRun(supply: seq<RecordBatch>, ts: seq<Transform>, threads: nat, s: P.State<RecordBatch>) {
    s.finalized && exists n :: P.Reaches(ConfigOf(supply, ts, threads), s, n)
  }

  /**
   Whatever the interleaving, the rows sunk are the first `limit` of some ordering of all the rows the chain
   leaves of the source; with a single source batch, in that batch's own order.
   */
  lemma RunRows(supply: seq<RecordBatch>, ts: seq<Transform>, threads: nat, sh: Shape, types: seq<ColumnType>,
                s: P.State<RecordBatch>)
    returns (order: seq<Row>)
    requires NoLimits(Body(ts)) && FitsAll(Body(ts), sh) && SupplyShaped(supply, sh) && AllTyped(supply, types) && threads > 0
    requires IsRun(supply, ts, threads, s)
    ensures AllValid(supply) && AllWidth(AllRows(supply), sh.width)
    ensures AllValid(P.SunkBatches(s.sunk)) && AllTyped(P.SunkBatches(s.sunk), ChainTypes(Body(ts), types))
    ensures multiset(order) == multiset(RowsThrough(Body(ts), AllRows(supply), sh))
    ensures multiset(AllRows(P.SunkBatches(s.sunk))) == multiset(PipelineRows.Take(order, LimitAtEnd(ts)))
    ensures |supply| <= 1 ==> order == RowsThrough(Body(ts), AllRows(supply), sh)
    ensures |supply| <= 1 ==> AllRows(P.SunkBatches(s.sunk)) == PipelineRows.Take(order, LimitAtEnd(ts))
  {
    var left := ChainTypes(Body(ts), types);
    var c, v := ConfigOf(supply, ts, threads), LensOf(left);
    var n :| P.Reaches(c, s, n);
    ConfigIsGood(supply, ts, threads);
    LensIsFaithful(supply, ts, threads, left);
    SupplyLeaves(supply, ts, threads, sh, types);
    LeftIsRowsThrough(supply, Body(ts), sh);
    order := PipelineRows.RunRows(c, v, Left(supply, Body(ts), sh), s, n);
    FlattenIsAllRows(P.SunkBatches(s.sunk), left);
    assert forall i :: 0 <= i < |P.SunkBatches(s.sunk)| ==> v.good(P.SunkBatches(s.sunk)[i]);
  }

  /** No task of a run indexes a missing column when the chain fits the source's batches. */
  lemma RunNeverFaults(supply: seq<RecordBatch>, ts: seq<Transform>, threads: nat, sh: Shape,
                       types: seq<ColumnType>, s: P.State<RecordBatch>, n: nat)
    requires NoLimits(Body(ts)) && FitsAll(Body(ts), sh) && SupplyShaped(supply, sh) && AllTyped(supply, types)
    requires P.Reaches(ConfigOf(supply, ts, threads), s, n)
    ensures P.NoFaults(ConfigOf(supply, ts, threads), s)
  {
    ConfigIsGood(supply, ts, threads);
    SupplyLeaves(supply, ts, threads, sh, types);
    P.SafeSupplyNeverFaults(ConfigOf(supply, ts, threads), s, n);
  }

  // ----- the batch of an ORDER BY that is left with no rows -----

  lemma BareEffect(t: Transform)
    requires !t.Limit?
    ensures EffectOf(t, BARE).Fault? <==> !Fits(t, Shape(0, true))
    ensures EffectOf(t, BARE).Out? ==> EffectOf(t, BARE).batch.numRows == 0
  {
    assert Valid(BARE);
    if Fits(t, ShapeOf(BARE)) {
      ApplyRefinesRows(t, BARE);
    }
  }

  lemma BareLeavesNothing(ts: seq<Transform>, threads: nat)
    requires NoLimits(Body(ts))
    ensures P.Through(ConfigOf([BARE], ts, threads), BARE, 0).None?
  {
    var c := ConfigOf([BARE], ts, threads);
    ConfigIsGood([BARE], ts, threads);
    if Body(ts) != [] {
      BareEffect(ts[0]);
      assert c.stages[0].effect(BARE) == EffectOf(ts[0], BARE);
    }
  }

  /** A run over the bare batch that gets to its end has sunk nothing. */
  lemma BareRun(ts: seq<Transform>, threads: nat, s: P.State<RecordBatch>)
    requires NoLimits(Body(ts)) && IsRun([BARE], ts, threads, s)
    ensures P.SunkBatches(s.sunk) == []
  {
    var c := ConfigOf([BARE], ts, threads);
    var n :| P.Reaches(c, s, n);
    ConfigIsGood([BARE], ts, threads);
    BareLeavesNothing(ts, threads);
    assert P.Survivors(c, 1) == P.Survivors(c, 0) + P.Listed(P.Through(c, c.supply[0], 0)) == [];
    P.FinishedRun(c, s, n);
    Sequences.SmallBags(s.arrived, P.Survivors(c, 1));
    assert P.Pieces(c, s.arrived) == [];
    Sequences.SmallBags(P.SunkBatches(s.sunk), P.Pieces(c, s.arrived));
  }

  /**
   The bare batch is harmless exactly when the first transform above the ORDER BY needs no column: some
   interleaving faults if and only if there is a first transform, it is no LIMIT, and it indexes a column.
   */
  lemma BareBatchFaults(ts: seq<Transform>, threads: nat)
    requires NoLimits(Body(ts)) && threads > 0
    ensures (forall s, n :: P.Reaches(ConfigOf([BARE], ts, threads), s, n) ==> P.NoFaults(ConfigOf([BARE], ts, threads), s))
        <==> (ts == [] || ts[0].Limit? || Fits(ts[0], Shape(0, true)))
  {
    var c := ConfigOf([BARE], ts, threads);
    ConfigIsGood([BARE], ts, threads);
    if ts == [] || ts[0].Limit? || Fits(ts[0], Shape(0, true)) {
      BareIsSafe(ts, threads);
      forall s, n | P.Reaches(c, s, n) ensures P.NoFaults(c, s) {
        P.SafeSupplyNeverFaults(c, s, n);
      }
    } else {
      var s := BareFaultingRun(ts, threads);
      assert P.Reaches(c, s, 2) && !P.NoFaults(c, s);
    }
  }

  lemma BareIsSafe(ts: seq<Transform>, threads: nat)
    requires ts == [] || ts[0].Limit? || Fits(ts[0], Shape(0, true))
    ensures P.Safe(ConfigOf([BARE], ts, threads), BARE, 0)
  {
    var c := ConfigOf([BARE], ts, threads);
    if ts != [] && !ts[0].Limit? {
      BareEffect(ts[0]);
      assert c.stages[0].effect(BARE) == EffectOf(ts[0], BARE);
    }
  }

  /** Task 0 fetches the bare batch and runs the first transform on it. */
  lemma BareFaultingRun(ts: seq<Transform>, threads: nat) returns (s: P.State<RecordBatch>)
    requires ts != [] && !ts[0].Limit? && !Fits(ts[0], Shape(0, true)) && threads > 0
    ensures P.Reaches(ConfigOf([BARE], ts, threads), s, 2) && s.tasks != [] && s.tasks[0].Faulted?
  {
    var c := ConfigOf([BARE], ts, threads);
    var s0 := P.Init(c);
    var s1 := P.Fetch(c, s0, 0);
    s := P.SetTask(s1, 0, P.Faulted);
    BareEffect(ts[0]);
    assert c.stages[0].effect(BARE) == EffectOf(ts[0], BARE);
    P.StepReaches(c, s0, s1, 0, 0, false);
    P.StepReaches(c, s1, s, 1, 0, false);
  }
}
