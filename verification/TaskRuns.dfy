/**
 Executing a pipeline (src/execution/Pipeline.h) on record batches: at every turn some unfinished task, whichever, takes
 its next atomic action, until all have finished.  What comes out is a finished run of the task machine.
 */
module TaskRuns {
  import opened Values
  import opened Wrappers
  import opened Batches
  import opened Operators
  import opened Execution
  import P = Pipelines

  type Machine = P.State<RecordBatch>

  function Moved(s: Machine, t: nat, task: P.Task<RecordBatch>): Machine
    requires t < |s.tasks|
  {
    s.(tasks := s.tasks[t := task])
  }

  /** A task asks the source for a batch. */
  method Fetch(supply: seq<RecordBatch>, s: Machine, t: nat, ghost c: PConfig) returns (r: Machine)
    requires t < |s.tasks| && c.supply == supply
    ensures r == P.Fetch(c, s, t)
  {
    var next := s.(cursor := s.cursor + 1);
    r := Moved(next, t, if s.cursor < |supply| then P.Running(supply[s.cursor], 0) else P.Exiting);
  }

  /** A task runs a transform; the next one is up if rows are left. */
  method Transformed(op: Transform, s: Machine, t: nat, b: RecordBatch, k: nat, ghost c: PConfig) returns (r: Machine)
    requires t < |s.tasks| && !op.Limit? && !EffectOf(op, b).Fault? && forall x: RecordBatch :: c.rows(x) == x.numRows
    ensures r == P.SetTask(s, t, P.AfterWork(c, EffectOf(op, b), k))
  {
    var out := Operators.Execute(op, b);
    r := Moved(s, t, if out.None? || out.value.numRows == 0 then P.Fetching else P.Running(out.value, k + 1));
  }

  /** A task counts its batch's rows at LIMIT and learns which of them may pass. */
  method Counted(limit: nat, last: bool, s: Machine, t: nat, b: RecordBatch, k: nat, ghost c: PConfig) returns (r: Machine)
    requires t < |s.tasks| && k < |s.counters| == |c.stages| && c.stages[k] == P.Limit(limit) && last == (k == |c.stages| - 1)
    requires forall x: RecordBatch :: c.rows(x) == x.numRows
    requires forall x: RecordBatch, n: nat :: c.clip(x, n) == ClipOrEmpty(x, n)
    ensures r == P.Counted(c, s, t, b, k)
  {
    var start := s.counters[k];
    var counted := s.(counters := s.counters[k := start + b.numRows],
                      arrived := if last && b.numRows > 0 then s.arrived + [b] else s.arrived);
    if start >= limit {
      r := Moved(counted, t, P.Marking(None, k));
    } else {
      var piece := if b.numRows <= limit - start then b else ClipOrEmpty(b, limit - start);
      r := Moved(counted, t,
                 if start + b.numRows >= limit then P.Marking(Some(piece), k)
                 else if b.numRows == 0 then P.Fetching
                 else P.Checking(piece, k, false));
    }
  }

  /** A task hands a batch with rows to the sink. */
  method Delivered(limited: bool, s: Machine, t: nat, b: RecordBatch, next: P.Task<RecordBatch>, ghost c: PConfig) returns (r: Machine)
    requires t < |s.tasks| && limited == P.EndsInLimit(c) && forall x: RecordBatch :: c.rows(x) == x.numRows
    ensures r == P.Sunk(c, s, t, b, next)
  {
    if b.numRows == 0 {
      return Moved(s, t, next);
    }
    var log := if limited then s.arrived else s.arrived + [b];
    r := Moved(s.(sunk := s.sunk + [P.Delivery(t, b)], arrived := log), t, next);
  }

  /** The next action of a task that is running a batch. */
  method RunOn(supply: seq<RecordBatch>, ts: seq<Transform>, threads: nat, s: Machine, t: nat) returns (r: Machine)
    requires var c := ConfigOf(supply, ts, threads);
             && P.WellFormed(c, s) && t < |s.tasks| && s.tasks[t].Running? && P.Safe(c, s.tasks[t].batch, s.tasks[t].k)
    ensures P.TaskStep(ConfigOf(supply, ts, threads), s, r, t, false)
  {
    ghost var c := ConfigOf(supply, ts, threads);
    var b, k := s.tasks[t].batch, s.tasks[t].k;
    if k >= |ts| {
      r := Delivered(ts != [] && ts[|ts| - 1].Limit?, s, t, b, P.Fetching, c);
    } else if ts[k].Limit? {
      r := Counted(ts[k].limit, k == |ts| - 1, s, t, b, k, c);
    } else {
      r := Transformed(ts[k], s, t, b, k, c);
    }
  }

  /** The next action of any unfinished task. */
  method Act(supply: seq<RecordBatch>, ts: seq<Transform>, threads: nat, s: Machine, t: nat) returns (r: Machine, ghost seen: bool)
    requires var c := ConfigOf(supply, ts, threads);
             && P.WellFormed(c, s) && P.NoFaults(c, s) && t < |s.tasks| && !s.tasks[t].Finished?
    ensures P.TaskStep(ConfigOf(supply, ts, threads), s, r, t, seen)
  {
    ghost var c := ConfigOf(supply, ts, threads);
    assert P.TaskOk(c, s, s.tasks[t]);
    seen := false;
    match s.tasks[t]
    case Fetching =>
      r := Fetch(supply, s, t, c);
    case Running(_, _) =>
      r := RunOn(supply, ts, threads, s, t);
    case Marking(out, k) =>
      var marked := s.(done := s.done[k := true]);
      r := Moved(marked, t, if out.None? then P.Fetching else P.Checking(out.value, k, true));
    case Checking(b, k, wrote) =>
      // The read of the flag may be stale, but a task sees its own store.
      var stop: bool := *;
      stop := wrote || (stop && s.done[k]);
      seen := stop;
      r := Moved(s, t, if stop then P.Sinking(b) else P.Running(b, k + 1));
    case Sinking(b) =>
      r := Delivered(ts != [] && ts[|ts| - 1].Limit?, s, t, b, P.Exiting, c);
    case Exiting =>
      r := Moved(s.(finished := s.finished + 1), t, P.Finished);
  }

  /** One turn: any unfinished task acts, or Finalize is called. */
  method Turn(supply: seq<RecordBatch>, ts: seq<Transform>, threads: nat, s: Machine, ghost c: PConfig, ghost n: nat) returns (r: Machine)
    requires NoLimits(Body(ts)) && c == ConfigOf(supply, ts, threads) && P.SafeSupply(c)
    requires P.Reaches(c, s, n) && !s.finalized
    ensures P.Reaches(c, r, n + 1)
  {
    ConfigIsGood(supply, ts, threads);
    P.Ready(c, s, n);
    if s.finished == threads {
      r := s.(finalized := true);
      assert P.FinalizeStep(c, s, r);
    } else {
      var t :| 0 <= t < |s.tasks| && !s.tasks[t].Finished?;
      ghost var seen;
      r, seen := Act(supply, ts, threads, s, t);
      assert P.TaskStep(c, s, r, t, seen);
    }
    P.OneMore(c, s, r, n);
  }

  method Start(supply: seq<RecordBatch>, ts: seq<Transform>, threads: nat) returns (s: Machine)
    ensures s == P.Init(ConfigOf(supply, ts, threads)) && P.Reaches(ConfigOf(supply, ts, threads), s, 0)
  {
    s := P.State(0, seq(|ts|, _ => 0), seq(|ts|, _ => false), seq(threads, _ => P.Fetching), [], [], 0, false);
  }

  lemma Ended(supply: seq<RecordBatch>, ts: seq<Transform>, threads: nat, s: Machine, n: nat)
    requires NoLimits(Body(ts)) && P.Reaches(ConfigOf(supply, ts, threads), s, n) && s.finalized
    ensures IsRun(supply, ts, threads, s) && forall i :: 0 <= i < |s.sunk| ==> s.sunk[i].thread < threads
  {
    ConfigIsGood(supply, ts, threads);
    P.ReachesInvariant(ConfigOf(supply, ts, threads), s, n);
  }

  /** Tasks act in any order until all have finished and Finalize was called; no run is longer than `bound`. */
  method Finish(supply: seq<RecordBatch>, ts: seq<Transform>, threads: nat, start: Machine, ghost c: PConfig, ghost bound: nat)
    returns (s: Machine, ghost n: nat)
    requires NoLimits(Body(ts)) && c == ConfigOf(supply, ts, threads) && P.SafeSupply(c) && P.Reaches(c, start, 0)
    requires forall r, m: nat :: P.Reaches(c, r, m) ==> m <= bound
    ensures s.finalized && P.Reaches(c, s, n)
  {
    s, n := start, 0;
    while !s.finalized
      invariant P.Reaches(c, s, n)
      decreases bound - n
    {
      s := Turn(supply, ts, threads, s, c, n);
      n := n + 1;
    }
  }

  lemma LongestRun(supply: seq<RecordBatch>, ts: seq<Transform>, threads: nat) returns (bound: nat)
    requires NoLimits(Body(ts))
    ensures forall r, m: nat :: P.Reaches(ConfigOf(supply, ts, threads), r, m) ==> m <= bound
  {
    var c := ConfigOf(supply, ts, threads);
    bound := P.Measure(c, P.Init(c));
    ConfigIsGood(supply, ts, threads);
    forall r, m: nat | P.Reaches(c, r, m) ensures m <= bound {
      P.RunsAreBounded(c, r, m);
    }
  }

  /** One call of Execute. */
  method Execute(supply: seq<RecordBatch>, ts: seq<Transform>, threads: nat) returns (s: Machine)
    requires NoLimits(Body(ts)) && P.SafeSupply(ConfigOf(supply, ts, threads))
    ensures IsRun(supply, ts, threads, s)
    ensures forall i :: 0 <= i < |s.sunk| ==> s.sunk[i].thread < threads
  {
    var start := Start(supply, ts, threads);
    ghost var n;
    ghost var bound := LongestRun(supply, ts, threads);
    s, n := Finish(supply, ts, threads, start, ConfigOf(supply, ts, threads), bound);
    Ended(supply, ts, threads, s, n);
  }
}
