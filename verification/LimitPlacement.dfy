/**
 Why LIMIT has to be the last transform: a task whose batch has just passed LIMIT reads the done flag and, if it is set,
 leaves its loop and sinks the batch at once, without the transforms behind LIMIT.

 The stages here are any transforms, one LIMIT, and at least one more transform behind it.
 */
module LimitPlacement {
  import opened Wrappers
  import opened Pipelines
  import Sequences

  /** Stage k is the only LIMIT, and something stands behind it. */
  ghost predicate LimitAt<B(!new)>(c: Config<B>, k: nat) {
    && k + 1 < |c.stages| && c.stages[k].Limit?
    && (forall j :: 0 <= j < |c.stages| && j != k ==> c.stages[j].Work?)
    && forall b: B, n: nat {:trigger c.clip(b, n)} :: n <= c.rows(b) ==> c.rows(c.clip(b, n)) == n
  }

  /** The pipeline cut off behind LIMIT. */
  ghost function UpTo<B>(c: Config<B>, k: nat): Config<B>
    requires k < |c.stages|
  {
    c.(stages := c.stages[..k + 1])
  }

  lemma UpToIsGood<B(!new)>(c: Config<B>, k: nat)
    requires LimitAt(c, k)
    ensures GoodConfig(UpTo(c, k)) && EndsInLimit(UpTo(c, k)) && LimitOf(UpTo(c, k)) == Some(c.stages[k].limit)
    ensures Arrival(UpTo(c, k)) == k && |UpTo(c, k).stages| == k + 1
  {
  }

  /** How many rows of the whole source reach LIMIT. */
  ghost function ReachingRows<B>(c: Config<B>, k: nat): nat
    requires k < |c.stages|
  {
    TotalRows(UpTo(c, k), Survivors(UpTo(c, k), |c.supply|))
  }

  // ----- every run has a shadow that ends behind LIMIT -----

  /** Where the shadow's task is: behind LIMIT it has delivered its piece and is back at the source. */
  ghost predicate TaskShadow<B>(c: Config<B>, k: nat, task: Task<B>, shadow: Task<B>) {
    match task
    case Running(b, j) =>
      if j <= k then shadow == task else if j == k + 1 then shadow == task && c.rows(b) > 0 else shadow == Fetching
    case Marking(_, j) => j == k && shadow == task
    case Checking(_, j, _) => j == k && shadow == task
    case Faulted => true
    case _ => shadow == task
  }

  ghost predicate Shadow<B>(c: Config<B>, k: nat, s: State<B>, z: State<B>) {
    && |s.tasks| == |z.tasks| && |s.counters| == |s.done| == |c.stages| && |z.counters| == |z.done| == k + 1 <= |c.stages|
    && s.cursor == z.cursor && s.counters[k] == z.counters[k] && s.done[k] == z.done[k]
    && s.finished == z.finished && s.finalized == z.finalized
    && forall t :: 0 <= t < |s.tasks| ==> TaskShadow(c, k, s.tasks[t], z.tasks[t])
  }

  lemma ShadowStart<B(!new)>(c: Config<B>, k: nat)
    requires LimitAt(c, k)
    ensures Shadow(c, k, Init(c), Init(UpTo(c, k)))
  {
  }

  /** The shadow moves along with its task. */
  lemma ShadowMoves<B>(c: Config<B>, k: nat, s: State<B>, s': State<B>, z: State<B>, z': State<B>, t: nat)
    requires Shadow(c, k, s, z) && t < |s.tasks| == |s'.tasks| == |z'.tasks|
    requires s'.tasks == s.tasks[t := s'.tasks[t]] && z'.tasks == z.tasks[t := z'.tasks[t]]
    requires TaskShadow(c, k, s'.tasks[t], z'.tasks[t])
    requires |s'.counters| == |s'.done| == |c.stages| && |z'.counters| == |z'.done| == k + 1
    requires s'.cursor == z'.cursor && s'.counters[k] == z'.counters[k] && s'.done[k] == z'.done[k]
    requires s'.finished == z'.finished && s'.finalized == z'.finalized
    ensures Shadow(c, k, s', z')
  {
    forall u | 0 <= u < |s'.tasks| ensures TaskShadow(c, k, s'.tasks[u], z'.tasks[u]) {
      if u != t { assert TaskShadow(c, k, s.tasks[u], z.tasks[u]); }
    }
  }

  /** Up to LIMIT the shadow does the same. */
  lemma ShadowBefore<B(!new)>(c: Config<B>, k: nat, s: State<B>, s': State<B>, t: nat, z: State<B>, b: B, j: nat) returns (z': State<B>)
    requires LimitAt(c, k) && TaskStep(c, s, s', t, false) && Shadow(c, k, s, z)
    requires s.tasks[t] == Running(b, j) && j < k
    ensures Shadow(c, k, s', z') && TaskStep(UpTo(c, k), z, z', t, false)
  {
    var d := UpTo(c, k);
    assert TaskShadow(c, k, s.tasks[t], z.tasks[t]) && d.stages[j] == c.stages[j];
    z' := SetTask(z, t, AfterWork(d, d.stages[j].effect(b), j));
    ShadowMoves(c, k, s, s', z, z', t);
  }

  /** LIMIT counts for the shadow as it does for the task. */
  lemma ShadowCounts<B(!new)>(c: Config<B>, k: nat, s: State<B>, s': State<B>, t: nat, z: State<B>, b: B) returns (z': State<B>)
    requires LimitAt(c, k) && TaskStep(c, s, s', t, false) && Shadow(c, k, s, z) && s.tasks[t] == Running(b, k)
    ensures Shadow(c, k, s', z') && TaskStep(UpTo(c, k), z, z', t, false)
    ensures z'.arrived == if c.rows(b) > 0 then z.arrived + [b] else z.arrived
    ensures s' == Counted(c, s, t, b, k)
  {
    var d := UpTo(c, k);
    assert TaskShadow(c, k, s.tasks[t], z.tasks[t]) && d.stages[k] == c.stages[k];
    z' := Counted(d, z, t, b, k);
    ShadowMoves(c, k, s, s', z, z', t);
  }

  /** Behind LIMIT the shadow delivers at once, and then waits. */
  lemma ShadowBehind<B(!new)>(c: Config<B>, k: nat, s: State<B>, s': State<B>, t: nat, z: State<B>, b: B, j: nat) returns (z': State<B>)
    requires LimitAt(c, k) && TaskStep(c, s, s', t, false) && Shadow(c, k, s, z) && s.tasks[t] == Running(b, j) && j > k
    ensures Shadow(c, k, s', z') && (z' == z || TaskStep(UpTo(c, k), z, z', t, false)) && z'.arrived == z.arrived
  {
    var d := UpTo(c, k);
    assert TaskShadow(c, k, s.tasks[t], z.tasks[t]);
    assert EndsInLimit(d) by { UpToIsGood(c, k); }
    z' := if j == k + 1 then Sunk(d, z, t, b, Fetching) else z;
    assert z.tasks == z.tasks[t := z.tasks[t]];
    ShadowMoves(c, k, s, s', z, z', t);
  }

  lemma ShadowOther<B(!new)>(c: Config<B>, k: nat, s: State<B>, s': State<B>, t: nat, seen: bool, z: State<B>) returns (z': State<B>)
    requires LimitAt(c, k) && TaskStep(c, s, s', t, seen) && Shadow(c, k, s, z) && !s.tasks[t].Running?
    requires forall b, w :: s.tasks[t] == Checking(b, k, w) ==> c.rows(b) > 0
    ensures Shadow(c, k, s', z') && TaskStep(UpTo(c, k), z, z', t, seen) && z'.arrived == z.arrived
  {
    if s.tasks[t].Marking? || s.tasks[t].Checking? {
      z' := ShadowAtLimit(c, k, s, s', t, seen, z);
    } else {
      z' := ShadowAtEnds(c, k, s, s', t, seen, z);
    }
  }

  lemma ShadowAtLimit<B(!new)>(c: Config<B>, k: nat, s: State<B>, s': State<B>, t: nat, seen: bool, z: State<B>) returns (z': State<B>)
    requires LimitAt(c, k) && TaskStep(c, s, s', t, seen) && Shadow(c, k, s, z) && (s.tasks[t].Marking? || s.tasks[t].Checking?)
    requires forall b, w :: s.tasks[t] == Checking(b, k, w) ==> c.rows(b) > 0
    ensures Shadow(c, k, s', z') && TaskStep(UpTo(c, k), z, z', t, seen) && z'.arrived == z.arrived
  {
    assert TaskShadow(c, k, s.tasks[t], z.tasks[t]);
    match s.tasks[t] {
      case Marking(out, _) => z' := Marked(z, t, out, k);
      case Checking(b, _, _) => z' := SetTask(z, t, if seen then Sinking(b) else Running(b, k + 1));
    }
    ShadowMoves(c, k, s, s', z, z', t);
  }

  lemma ShadowAtEnds<B(!new)>(c: Config<B>, k: nat, s: State<B>, s': State<B>, t: nat, seen: bool, z: State<B>) returns (z': State<B>)
    requires LimitAt(c, k) && TaskStep(c, s, s', t, seen) && Shadow(c, k, s, z)
    requires s.tasks[t].Fetching? || s.tasks[t].Sinking? || s.tasks[t].Exiting?
    ensures Shadow(c, k, s', z') && TaskStep(UpTo(c, k), z, z', t, seen) && z'.arrived == z.arrived
  {
    var d := UpTo(c, k);
    assert TaskShadow(c, k, s.tasks[t], z.tasks[t]);
    assert EndsInLimit(d) by { UpToIsGood(c, k); }
    match s.tasks[t] {
      case Fetching => z' := Fetch(d, z, t);
      case Sinking(b) => z' := Sunk(d, z, t, b, Exiting);
      case Exiting => z' := SetTask(z.(finished := z.finished + 1), t, Finished);
    }
    ShadowMoves(c, k, s, s', z, z', t);
  }

  /** A step of a task is a step of its shadow, or none if the task is behind the first stage after LIMIT. */
  lemma ShadowStep<B(!new)>(c: Config<B>, k: nat, s: State<B>, s': State<B>, t: nat, seen: bool, z: State<B>) returns (z': State<B>)
    requires LimitAt(c, k) && TaskStep(c, s, s', t, seen) && Shadow(c, k, s, z) && WellFormed(UpTo(c, k), z)
    ensures Shadow(c, k, s', z') && (z' == z || Next(UpTo(c, k), z, z'))
    ensures z'.arrived == if s.tasks[t].Running? && s.tasks[t].k == k && c.rows(s.tasks[t].batch) > 0
                          then z.arrived + [s.tasks[t].batch] else z.arrived
  {
    assert TaskShadow(c, k, s.tasks[t], z.tasks[t]) && TaskOk(UpTo(c, k), z, z.tasks[t]);
    if s.tasks[t].Running? {
      var b, j := s.tasks[t].batch, s.tasks[t].k;
      assert TaskStep(c, s, s', t, false);
      if j < k { z' := ShadowBefore(c, k, s, s', t, z, b, j); }
      else if j == k { z' := ShadowCounts(c, k, s, s', t, z, b); }
      else { z' := ShadowBehind(c, k, s, s', t, z, b, j); }
    } else {
      z' := ShadowOther(c, k, s, s', t, seen, z);
    }
  }

  // ----- the piece that reaches the limit -----

  /** The part LIMIT lets through of the batch with which the count reaches n. */
  ghost function Cover<B>(c: Config<B>, n: nat, bs: seq<B>): B
    requires 0 < n <= TotalRows(c, bs)
  {
    var front := bs[..|bs| - 1];
    if n <= TotalRows(c, front) then Cover(c, n, front) else Piece(c, bs[|bs| - 1], TotalRows(c, front), n).value
  }

  lemma CoverSnoc<B>(c: Config<B>, n: nat, bs: seq<B>, b: B)
    requires 0 < n <= TotalRows(c, bs) + c.rows(b)
    ensures TotalRows(c, bs + [b]) == TotalRows(c, bs) + c.rows(b)
    ensures Cover(c, n, bs + [b]) == if n <= TotalRows(c, bs) then Cover(c, n, bs) else Piece(c, b, TotalRows(c, bs), n).value
  {
    assert (bs + [b])[..|bs|] == bs;
  }

  /** A task that counted up to the limit holds `x` until it sinks it. */
  predicate Carries<B(==)>(task: Task<B>, x: B) {
    match task
    case Marking(out, _) => out == Some(x)
    case Checking(b, _, wrote) => b == x && wrote
    case Sinking(b) => b == x
    case _ => false
  }

  /** `x` has been sunk as it is, or will be. */
  ghost predicate Kept<B>(s: State<B>, x: B) {
    x in SunkBatches(s.sunk) || exists t :: 0 <= t < |s.tasks| && Carries(s.tasks[t], x)
  }

  lemma KeptBy<B>(s: State<B>, t: nat, x: B)
    requires t < |s.tasks| && Carries(s.tasks[t], x)
    ensures Kept(s, x)
  {
  }

  lemma SunkGrows<B>(ds: seq<Delivery<B>>, d: Delivery<B>, x: B)
    ensures x in SunkBatches(ds + [d]) <==> x in SunkBatches(ds) || x == d.batch
  {
    SunkSnoc(ds, d);
  }

  /** What a task carries it passes on unchanged. */
  lemma CarriedOn<B>(c: Config<B>, s: State<B>, s': State<B>, t: nat, seen: bool, x: B)
    requires TaskStep(c, s, s', t, seen) && Carries(s.tasks[t], x) && c.rows(x) > 0
    ensures Kept(s', x)
  {
    if s.tasks[t].Sinking? {
      SunkGrows(s.sunk, Delivery(t, x), x);
    } else {
      KeptBy(s', t, x);
    }
  }

  lemma StaysSunk<B>(c: Config<B>, s: State<B>, s': State<B>, t: nat, seen: bool, x: B)
    requires TaskStep(c, s, s', t, seen) && x in SunkBatches(s.sunk)
    ensures x in SunkBatches(s'.sunk)
  {
    if s'.sunk != s.sunk {
      SunkGrows(s.sunk, s'.sunk[|s.sunk|], x);
      assert s'.sunk == s.sunk + [s'.sunk[|s.sunk|]];
    }
  }

  lemma StaysKept<B>(c: Config<B>, s: State<B>, s': State<B>, t: nat, seen: bool, x: B)
    requires TaskStep(c, s, s', t, seen) && Kept(s, x) && c.rows(x) > 0
    ensures Kept(s', x)
  {
    if x in SunkBatches(s.sunk) {
      StaysSunk(c, s, s', t, seen, x);
    } else {
      var u :| 0 <= u < |s.tasks| && Carries(s.tasks[u], x);
      if u == t {
        CarriedOn(c, s, s', t, seen, x);
      } else {
        assert s'.tasks[u] == s.tasks[u] by { OthersStay(c, s, s', t, seen, u); }
        KeptBy(s', u, x);
      }
    }
  }

  lemma OthersStay<B>(c: Config<B>, s: State<B>, s': State<B>, t: nat, seen: bool, u: nat)
    requires TaskStep(c, s, s', t, seen) && u < |s.tasks| && u != t
    ensures |s'.tasks| == |s.tasks| && s'.tasks[u] == s.tasks[u]
  {
  }

  /** Once the limit is reached, its piece is kept. */
  ghost predicate CoverKept<B>(c: Config<B>, k: nat, s: State<B>, arrived: seq<B>)
    requires k < |c.stages| && c.stages[k].Limit?
  {
    var n := c.stages[k].limit;
    0 < n <= TotalRows(UpTo(c, k), arrived) ==>
      c.rows(Cover(UpTo(c, k), n, arrived)) > 0 && Kept(s, Cover(UpTo(c, k), n, arrived))
  }

  lemma CoverStays<B(!new)>(c: Config<B>, k: nat, s: State<B>, s': State<B>, t: nat, seen: bool, arrived: seq<B>)
    requires LimitAt(c, k) && TaskStep(c, s, s', t, seen) && CoverKept(c, k, s, arrived)
    ensures CoverKept(c, k, s', arrived)
  {
    var n := c.stages[k].limit;
    if 0 < n <= TotalRows(UpTo(c, k), arrived) {
      StaysKept(c, s, s', t, seen, Cover(UpTo(c, k), n, arrived));
    }
  }

  /** The batch with which the count reaches the limit is the one whose piece is kept. */
  lemma CoverCounted<B(!new)>(c: Config<B>, k: nat, s: State<B>, s': State<B>, t: nat, b: B, arrived: seq<B>)
    requires LimitAt(c, k) && TaskStep(c, s, s', t, false) && CoverKept(c, k, s, arrived)
    requires s.tasks[t] == Running(b, k) && s' == Counted(c, s, t, b, k) && c.rows(b) > 0
    requires s.counters[k] == TotalRows(UpTo(c, k), arrived)
    ensures CoverKept(c, k, s', arrived + [b])
  {
    var d, n, start := UpTo(c, k), c.stages[k].limit, s.counters[k];
    if 0 < n <= start + c.rows(b) {
      CoverSnoc(d, n, arrived, b);
      if n <= start {
        CoverStays(c, k, s, s', t, false, arrived);
      } else {
        var x := Piece(d, b, start, n).value;
        assert c.rows(b) > n - start ==> c.rows(c.clip(b, n - start)) == n - start;
        KeptBy(s', t, x);
      }
    } else if n > 0 {
      TotalRowsSnoc(d, arrived, b);
    }
  }

  // ----- whole runs -----

  lemma ShadowNext<B(!new)>(c: Config<B>, k: nat, p: State<B>, s: State<B>, y: State<B>) returns (z: State<B>)
    requires LimitAt(c, k) && Next(c, p, s) && Shadow(c, k, p, y) && Invariant(UpTo(c, k), y) && CoverKept(c, k, p, y.arrived)
    ensures Shadow(c, k, s, z) && (z == y || Next(UpTo(c, k), y, z)) && CoverKept(c, k, s, z.arrived)
  {
    UpToIsGood(c, k);
    if FinalizeStep(c, p, s) {
      z := y.(finalized := true);
      assert FinalizeStep(UpTo(c, k), y, z);
    } else {
      var t, seen := Stepper(c, p, s);
      z := ShadowStep(c, k, p, s, t, seen, y);
      if z.arrived == y.arrived {
        CoverStays(c, k, p, s, t, seen, y.arrived);
      } else {
        var b := p.tasks[t].batch;
        assert TaskStep(c, p, s, t, false);
        CoverCounted(c, k, p, s, t, b, y.arrived);
      }
    }
  }

  /** The shadow is a run of the pipeline cut off behind LIMIT, and what it knows of the limit's piece holds here too. */
  ghost predicate IsShadow<B(!new)>(c: Config<B>, k: nat, s: State<B>, z: State<B>, mz: nat)
    requires k < |c.stages| && c.stages[k].Limit?
  {
    Reaches(UpTo(c, k), z, mz) && Invariant(UpTo(c, k), z) && Shadow(c, k, s, z) && CoverKept(c, k, s, z.arrived)
  }

  lemma FirstShadow<B(!new)>(c: Config<B>, k: nat)
    requires LimitAt(c, k)
    ensures IsShadow(c, k, Init(c), Init(UpTo(c, k)), 0)
  {
    ShadowStart(c, k);
    InitInvariant(UpTo(c, k));
  }

  lemma RunGoesOn<B(!new)>(d: Config<B>, y: State<B>, z: State<B>, my: nat)
    requires GoodConfig(d) && Reaches(d, y, my) && Invariant(d, y) && Next(d, y, z)
    ensures Reaches(d, z, my + 1) && Invariant(d, z)
  {
    NextKeeps(d, y, z);
  }

  lemma ShadowFollows<B(!new)>(c: Config<B>, k: nat, p: State<B>, s: State<B>, y: State<B>, my: nat) returns (z: State<B>, mz: nat)
    requires LimitAt(c, k) && Next(c, p, s) && IsShadow(c, k, p, y, my)
    ensures IsShadow(c, k, s, z, mz)
  {
    var d := UpTo(c, k);
    z := ShadowNext(c, k, p, s, y);
    mz := if z == y then my else my + 1;
    if z != y {
      UpToIsGood(c, k);
      RunGoesOn(d, y, z, my);
    }
  }

  ghost predicate HasShadow<B(!new)>(c: Config<B>, k: nat, s: State<B>)
    requires k < |c.stages| && c.stages[k].Limit?
  {
    exists z: State<B>, mz: nat :: IsShadow(c, k, s, z, mz)
  }

  lemma ShadowKept<B(!new)>(c: Config<B>, k: nat, p: State<B>, s: State<B>)
    requires LimitAt(c, k) && Next(c, p, s) && HasShadow(c, k, p)
    ensures HasShadow(c, k, s)
  {
    var y, my :| IsShadow(c, k, p, y, my);
    var z, mz := ShadowFollows(c, k, p, s, y, my);
  }

  lemma Shadowed<B(!new)>(c: Config<B>, k: nat, s: State<B>, m: nat) returns (z: State<B>, mz: nat)
    requires LimitAt(c, k) && Reaches(c, s, m)
    ensures IsShadow(c, k, s, z, mz)
  {
    var inv := (s: State<B>) => HasShadow(c, k, s);
    FirstShadow(c, k);
    forall p, q | inv(p) && Next(c, p, q) ensures inv(q) {
      ShadowKept(c, k, p, q);
    }
    Throughout(c, inv, s, m);
    assert HasShadow(c, k, s);
    z, mz :| IsShadow(c, k, s, z, mz);
  }

  /** All rows of the source that reach LIMIT have been counted when a run is finished, or the limit is reached. */
  lemma FinishedShadow<B(!new)>(c: Config<B>, k: nat, s: State<B>, m: nat) returns (z: State<B>)
    requires LimitAt(c, k) && Reaches(c, s, m) && s.finalized && c.threads > 0
    ensures Shadow(c, k, s, z) && CoverKept(c, k, s, z.arrived)
    ensures forall t :: 0 <= t < |s.tasks| ==> s.tasks[t].Finished? || s.tasks[t].Faulted?
    ensures multiset(z.arrived) <= multiset(Survivors(UpTo(c, k), |c.supply|))
    ensures TotalRows(UpTo(c, k), z.arrived) <= ReachingRows(c, k)
    ensures TotalRows(UpTo(c, k), z.arrived) >= c.stages[k].limit || TotalRows(UpTo(c, k), z.arrived) == ReachingRows(c, k)
    ensures s.counters[k] == TotalRows(UpTo(c, k), z.arrived)
  {
    var mz;
    z, mz := Shadowed(c, k, s, m);
    UpToIsGood(c, k);
    FinishedRun(UpTo(c, k), z, mz);
    TotalRowsSubset(UpTo(c, k), z.arrived, Survivors(UpTo(c, k), |c.supply|));
    forall t | 0 <= t < |s.tasks| ensures s.tasks[t].Finished? || s.tasks[t].Faulted? {
      assert TaskShadow(c, k, s.tasks[t], z.tasks[t]) && z.tasks[t].Finished?;
    }
  }

  /**
   If enough rows reach LIMIT, every finished run has sunk the piece that reaches a non-zero limit as LIMIT cut it,
   untouched by the transforms behind LIMIT.
   */
  lemma SkippedBehindLimit<B(!new)>(c: Config<B>, k: nat, s: State<B>, m: nat) returns (order: seq<B>)
    requires LimitAt(c, k) && Reaches(c, s, m) && s.finalized && c.threads > 0
    requires 0 < c.stages[k].limit <= ReachingRows(c, k)
    ensures multiset(order) <= multiset(Survivors(UpTo(c, k), |c.supply|)) && c.stages[k].limit <= TotalRows(UpTo(c, k), order)
    ensures Cover(UpTo(c, k), c.stages[k].limit, order) in SunkBatches(s.sunk)
  {
    var z := FinishedShadow(c, k, s, m);
    order := z.arrived;
  }

  // ----- below the limit -----

  /** The stages with LIMIT replaced by a transform that lets everything through, or nothing if the limit is zero. */
  ghost function Passing<B>(c: Config<B>, k: nat): Config<B>
    requires k < |c.stages| && c.stages[k].Limit?
  {
    c.(stages := c.stages[k := if c.stages[k].limit == 0 then Work(_ => Null) else Work((b: B) => Out(b))])
  }

  /** The limit is zero, or has not been reached and will not be. */
  ghost predicate Below<B>(c: Config<B>, k: nat, s: State<B>)
    requires k < |c.stages| && c.stages[k].Limit?
  {
    && |s.counters| == |s.done| == |c.stages|
    && (c.stages[k].limit > 0 ==> s.counters[k] < c.stages[k].limit && !s.done[k])
    && forall t :: 0 <= t < |s.tasks| ==>
         && !s.tasks[t].Sinking? && (s.tasks[t].Checking? ==> c.stages[k].limit > 0 && !s.tasks[t].wrote)
         && (s.tasks[t].Marking? ==> c.stages[k].limit == 0 && s.tasks[t].out.None?)
  }

  lemma {:induction false} NothingPasses<B>(c: Config<B>, bs: seq<B>)
    requires LimitOf(c) == Some(0)
    ensures Pieces(c, bs) == []
    decreases |bs|
  {
    if bs != [] {
      NothingPasses(c, bs[..|bs| - 1]);
    }
  }

  lemma {:induction false} HeldIsInFlight<B>(c: Config<B>, tasks: seq<Task<B>>, t: nat, post: bool)
    requires t < |tasks| && Held(c, tasks[t], post).Some?
    ensures Held(c, tasks[t], post).value in InFlight(c, tasks, post)
  {
    if t > 0 {
      HeldIsInFlight(c, tasks[1..], t - 1, post);
    }
  }

  /** No run of a source that stays below the limit, or of a LIMIT 0, ever tells a task to stop with a batch in hand. */
  lemma ShadowedBelow<B(!new)>(c: Config<B>, k: nat, s: State<B>, z: State<B>, mz: nat)
    requires LimitAt(c, k) && IsShadow(c, k, s, z, mz)
    requires c.stages[k].limit == 0 || ReachingRows(c, k) < c.stages[k].limit
    ensures Below(c, k, s)
  {
    UpToIsGood(c, k);
    if c.stages[k].limit > 0 {
      CountedAtMost(UpTo(c, k), z);
    }
    forall t | 0 <= t < |s.tasks|
      ensures !s.tasks[t].Sinking? && (s.tasks[t].Checking? ==> c.stages[k].limit > 0 && !s.tasks[t].wrote)
      ensures s.tasks[t].Marking? ==> c.stages[k].limit == 0 && s.tasks[t].out.None?
    {
      assert TaskShadow(c, k, s.tasks[t], z.tasks[t]) && TaskOk(UpTo(c, k), z, z.tasks[t]);
      if c.stages[k].limit == 0 {
        NoneHeld(UpTo(c, k), z, t);
      }
    }
  }

  lemma CountedAtMost<B(!new)>(d: Config<B>, z: State<B>)
    requires GoodConfig(d) && Invariant(d, z)
    ensures TotalRows(d, z.arrived) <= TotalRows(d, Survivors(d, |d.supply|))
  {
    SurvivorsPrefix(d, Taken(d, z), |d.supply|);
    Sequences.PrefixBag(Survivors(d, Taken(d, z)), Survivors(d, |d.supply|));
    TotalRowsSubset(d, z.arrived, Survivors(d, |d.supply|));
  }

  lemma NothingLeft<T>(a: multiset<T>, b: multiset<T>)
    requires a + b == multiset([])
    ensures b == multiset{}
  {
    forall x ensures b[x] == 0 {
      assert (a + b)[x] == 0;
    }
  }

  lemma NoneHeld<B>(d: Config<B>, z: State<B>, t: nat)
    requires Invariant(d, z) && LimitOf(d) == Some(0) && t < |z.tasks|
    ensures Held(d, z.tasks[t], true).None?
  {
    NothingPasses(d, z.arrived);
    NothingLeft(multiset(SunkBatches(z.sunk)), InFlight(d, z.tasks, true));
    if Held(d, z.tasks[t], true).Some? {
      HeldIsInFlight(d, z.tasks, t, true);
    }
  }

  ghost predicate TaskTwin<B>(k: nat, task: Task<B>, twin: Task<B>) {
    match task
    case Marking(_, _) => twin == Fetching
    case Checking(b, _, _) => twin == Running(b, k + 1)
    case _ => twin == task
  }

  /** The same run with LIMIT replaced: a task that LIMIT keeps busy has already passed its replacement. */
  ghost predicate Twin<B>(c: Config<B>, k: nat, s: State<B>, q: State<B>) {
    && |s.tasks| == |q.tasks| && |q.counters| == |q.done| == |c.stages|
    && s.cursor == q.cursor && s.sunk == q.sunk && s.finished == q.finished && s.finalized == q.finalized
    && forall t :: 0 <= t < |s.tasks| ==> TaskTwin(k, s.tasks[t], q.tasks[t])
  }

  lemma PassingIsGood<B(!new)>(c: Config<B>, k: nat)
    requires LimitAt(c, k)
    ensures GoodConfig(Passing(c, k)) && !EndsInLimit(Passing(c, k)) && !EndsInLimit(c)
  {
  }

  lemma TwinMoves<B>(c: Config<B>, k: nat, s: State<B>, s': State<B>, q: State<B>, q': State<B>, t: nat)
    requires Twin(c, k, s, q) && t < |s.tasks| == |s'.tasks| == |q'.tasks|
    requires s'.tasks == s.tasks[t := s'.tasks[t]] && q'.tasks == q.tasks[t := q'.tasks[t]]
    requires TaskTwin(k, s'.tasks[t], q'.tasks[t]) && |q'.counters| == |q'.done| == |c.stages|
    requires s'.cursor == q'.cursor && s'.sunk == q'.sunk && s'.finished == q'.finished && s'.finalized == q'.finalized
    ensures Twin(c, k, s', q')
  {
    forall u | 0 <= u < |s'.tasks| ensures TaskTwin(k, s'.tasks[u], q'.tasks[u]) {
      if u != t { assert TaskTwin(k, s.tasks[u], q.tasks[u]); }
    }
  }

  lemma TwinCounts<B(!new)>(c: Config<B>, k: nat, s: State<B>, s': State<B>, t: nat, q: State<B>, b: B) returns (q': State<B>)
    requires LimitAt(c, k) && TaskStep(c, s, s', t, false) && Twin(c, k, s, q) && Below(c, k, s) && Below(c, k, s')
    requires s.tasks[t] == Running(b, k)
    ensures Twin(c, k, s', q') && TaskStep(Passing(c, k), q, q', t, false)
  {
    var p := Passing(c, k);
    assert TaskTwin(k, s.tasks[t], q.tasks[t]);
    assert s' == Counted(c, s, t, b, k);
    q' := SetTask(q, t, AfterWork(p, p.stages[k].effect(b), k));
    assert !s'.tasks[t].Marking? || c.stages[k].limit == 0;
    TwinMoves(c, k, s, s', q, q', t);
  }

  lemma TwinRuns<B(!new)>(c: Config<B>, k: nat, s: State<B>, s': State<B>, t: nat, q: State<B>, b: B, j: nat) returns (q': State<B>)
    requires LimitAt(c, k) && TaskStep(c, s, s', t, false) && Twin(c, k, s, q)
    requires s.tasks[t] == Running(b, j) && j != k
    ensures Twin(c, k, s', q') && TaskStep(Passing(c, k), q, q', t, false)
  {
    var p := Passing(c, k);
    PassingIsGood(c, k);
    assert TaskTwin(k, s.tasks[t], q.tasks[t]);
    if j < |c.stages| {
      assert p.stages[j] == c.stages[j];
      q' := SetTask(q, t, AfterWork(p, p.stages[j].effect(b), j));
    } else {
      q' := Sunk(p, q, t, b, Fetching);
    }
    TwinMoves(c, k, s, s', q, q', t);
  }

  lemma TwinOther<B(!new)>(c: Config<B>, k: nat, s: State<B>, s': State<B>, t: nat, seen: bool, q: State<B>) returns (q': State<B>)
    requires LimitAt(c, k) && TaskStep(c, s, s', t, seen) && Twin(c, k, s, q) && Below(c, k, s) && !s.tasks[t].Running?
    requires s.tasks[t].Marking? || s.tasks[t].Checking? ==> s.tasks[t].k == k
    ensures Twin(c, k, s', q') && (q' == q || TaskStep(Passing(c, k), q, q', t, false))
  {
    var p := Passing(c, k);
    assert TaskTwin(k, s.tasks[t], q.tasks[t]);
    match s.tasks[t] {
      case Fetching => q' := Fetch(p, q, t);
      case Marking(_, _) => q' := q;
      case Checking(_, _, _) => q' := q;
      case Exiting => q' := SetTask(q.(finished := q.finished + 1), t, Finished);
    }
    assert q.tasks == q.tasks[t := q.tasks[t]];
    TwinMoves(c, k, s, s', q, q', t);
  }

  /** The states of a run that stays below, with the run of its twin. */
  ghost predicate IsTwin<B(!new)>(c: Config<B>, k: nat, s: State<B>, q: State<B>, mq: nat)
    requires k < |c.stages| && c.stages[k].Limit?
  {
    Reaches(Passing(c, k), q, mq) && Twin(c, k, s, q)
  }

  /** Only LIMIT keeps tasks marking and checking. */
  ghost predicate AtLimit<B>(k: nat, s: State<B>) {
    forall t :: 0 <= t < |s.tasks| && (s.tasks[t].Marking? || s.tasks[t].Checking?) ==> s.tasks[t].k == k
  }

  lemma BelowOf<B(!new)>(c: Config<B>, k: nat, s: State<B>)
    requires LimitAt(c, k) && HasShadow(c, k, s)
    requires c.stages[k].limit == 0 || ReachingRows(c, k) < c.stages[k].limit
    ensures Below(c, k, s) && AtLimit(k, s)
  {
    var z, mz :| IsShadow(c, k, s, z, mz);
    ShadowedBelow(c, k, s, z, mz);
    forall t | 0 <= t < |s.tasks| && (s.tasks[t].Marking? || s.tasks[t].Checking?) ensures s.tasks[t].k == k {
      assert TaskShadow(c, k, s.tasks[t], z.tasks[t]);
    }
  }

  lemma TwinNext<B(!new)>(c: Config<B>, k: nat, p: State<B>, s: State<B>, q: State<B>) returns (q': State<B>)
    requires LimitAt(c, k) && Next(c, p, s) && Twin(c, k, p, q) && Below(c, k, p) && Below(c, k, s) && AtLimit(k, p)
    ensures Twin(c, k, s, q') && (q' == q || Next(Passing(c, k), q, q'))
  {
    if FinalizeStep(c, p, s) {
      q' := q.(finalized := true);
      assert FinalizeStep(Passing(c, k), q, q');
    } else {
      var t, seen := Stepper(c, p, s);
      if p.tasks[t].Running? {
        assert TaskStep(c, p, s, t, false);
        if p.tasks[t].k == k {
          q' := TwinCounts(c, k, p, s, t, q, p.tasks[t].batch);
        } else {
          q' := TwinRuns(c, k, p, s, t, q, p.tasks[t].batch, p.tasks[t].k);
        }
      } else {
        q' := TwinOther(c, k, p, s, t, seen, q);
      }
    }
  }

  lemma StepOfTwin<B(!new)>(p: Config<B>, q: State<B>, q': State<B>, mq: nat)
    requires Reaches(p, q, mq) && Next(p, q, q')
    ensures Reaches(p, q', mq + 1)
  {
  }

  lemma TwinFollows<B(!new)>(c: Config<B>, k: nat, p: State<B>, s: State<B>, q: State<B>, mq: nat) returns (q': State<B>, mq': nat)
    requires LimitAt(c, k) && Next(c, p, s) && IsTwin(c, k, p, q, mq) && Below(c, k, p) && Below(c, k, s) && AtLimit(k, p)
    ensures IsTwin(c, k, s, q', mq')
  {
    q' := TwinNext(c, k, p, s, q);
    mq' := if q' == q then mq else mq + 1;
    if q' != q {
      StepOfTwin(Passing(c, k), q, q', mq);
    }
  }

  lemma FirstTwin<B(!new)>(c: Config<B>, k: nat)
    requires LimitAt(c, k)
    ensures IsTwin(c, k, Init(c), Init(Passing(c, k)), 0)
  {
  }

  /** Followed by its shadow and its twin. */
  ghost predicate Followed<B(!new)>(c: Config<B>, k: nat, s: State<B>)
    requires k < |c.stages| && c.stages[k].Limit?
  {
    HasShadow(c, k, s) && exists q: State<B>, mq: nat :: IsTwin(c, k, s, q, mq)
  }

  lemma FollowedOn<B(!new)>(c: Config<B>, k: nat, p: State<B>, s: State<B>)
    requires LimitAt(c, k) && Next(c, p, s) && Followed(c, k, p)
    requires c.stages[k].limit == 0 || ReachingRows(c, k) < c.stages[k].limit
    ensures Followed(c, k, s)
  {
    var q, mq :| IsTwin(c, k, p, q, mq);
    ShadowKept(c, k, p, s);
    BelowOf(c, k, p);
    BelowOf(c, k, s);
    var q', mq' := TwinFollows(c, k, p, s, q, mq);
  }

  lemma FirstFollowed<B(!new)>(c: Config<B>, k: nat)
    requires LimitAt(c, k)
    ensures Followed(c, k, Init(c))
  {
    FirstShadow(c, k);
    FirstTwin(c, k);
  }

  lemma Twinned<B(!new)>(c: Config<B>, k: nat, s: State<B>, m: nat) returns (q: State<B>, mq: nat)
    requires LimitAt(c, k) && Reaches(c, s, m)
    requires c.stages[k].limit == 0 || ReachingRows(c, k) < c.stages[k].limit
    ensures IsTwin(c, k, s, q, mq)
  {
    var inv := (s: State<B>) => Followed(c, k, s);
    FirstFollowed(c, k);
    forall a, b | inv(a) && Next(c, a, b) ensures inv(b) {
      FollowedOn(c, k, a, b);
    }
    Throughout(c, inv, s, m);
    assert Followed(c, k, s);
    q, mq :| IsTwin(c, k, s, q, mq);
  }

  /**
   If the limit is zero or more than the rows that reach it, every finished run has put everything that LIMIT let through
   through all the transforms behind it: it has sunk what the pipeline without LIMIT (or with nothing passing) leaves.
   */
  lemma TransformedBelowLimit<B(!new)>(c: Config<B>, k: nat, s: State<B>, m: nat)
    requires LimitAt(c, k) && Reaches(c, s, m) && s.finalized && c.threads > 0
    requires c.stages[k].limit == 0 || ReachingRows(c, k) < c.stages[k].limit
    ensures multiset(SunkBatches(s.sunk)) == multiset(Survivors(Passing(c, k), |c.supply|))
  {
    var q, mq := Twinned(c, k, s, m);
    PassingIsGood(c, k);
    FinishedRun(Passing(c, k), q, mq);
    assert Pieces(Passing(c, k), q.arrived) == q.arrived;
  }

  // ----- exactly when a run skips nothing -----

  ghost predicate NoneStopped<B>(s: State<B>) {
    forall t :: 0 <= t < |s.tasks| ==> !s.tasks[t].Sinking?
  }

  /** A run of m steps in which no task is ever told to stop with a batch in hand. */
  ghost predicate ReachesUnstopped<B(!new)>(c: Config<B>, s: State<B>, m: nat)
    decreases m
  {
    NoneStopped(s) && if m == 0 then s == Init(c) else exists p: State<B> :: ReachesUnstopped(c, p, m - 1) && Next(c, p, s)
  }

  lemma UnstoppedBefore<B(!new)>(c: Config<B>, s: State<B>, m: nat) returns (p: State<B>)
    requires m > 0 && ReachesUnstopped(c, s, m)
    ensures ReachesUnstopped(c, p, m - 1) && Next(c, p, s) && NoneStopped(s)
  {
    p :| ReachesUnstopped(c, p, m - 1) && Next(c, p, s);
  }

  lemma UnstoppedStep<B(!new)>(c: Config<B>, p: State<B>, s: State<B>, m: nat)
    requires ReachesUnstopped(c, p, m) && Next(c, p, s) && NoneStopped(s)
    ensures ReachesUnstopped(c, s, m + 1)
  {
  }

  lemma UnstoppedMove<B(!new)>(c: Config<B>, p: State<B>, s: State<B>, n: nat)
    requires Next(c, p, s) && NoneStopped(s)
    ensures ReachesUnstopped(c, p, n) ==> ReachesUnstopped(c, s, n + 1)
  {
    if ReachesUnstopped(c, p, n) {
      UnstoppedStep(c, p, s, n);
    }
  }

  lemma UnstoppedBack<B(!new)>(c: Config<B>, s: State<B>, n: nat) returns (p: State<B>)
    requires Reaches(c, s, n) && n > 0 && NoneStopped(s)
    ensures Reaches(c, p, n - 1) && (ReachesUnstopped(c, p, n - 1) ==> ReachesUnstopped(c, s, n))
  {
    p := Predecessor(c, s, n);
    UnstoppedMove(c, p, s, n - 1);
  }

  /** If no state of any run stops a task, every run is unstopped. */
  lemma {:induction false} NeverStopped<B(!new)>(c: Config<B>, s: State<B>, n: nat)
    requires Reaches(c, s, n)
    requires forall q, m {:trigger Reaches(c, q, m)} :: Reaches(c, q, m) ==> NoneStopped(q)
    ensures ReachesUnstopped(c, s, n)
    decreases n
  {
    if n > 0 {
      var p := UnstoppedBack(c, s, n);
      NeverStopped(c, p, n - 1);
    }
  }

  lemma BelowIsUnstopped<B(!new)>(c: Config<B>, k: nat, s: State<B>, m: nat)
    requires LimitAt(c, k) && Reaches(c, s, m)
    requires c.stages[k].limit == 0 || ReachingRows(c, k) < c.stages[k].limit
    ensures ReachesUnstopped(c, s, m)
  {
    forall q, n | Reaches(c, q, n) ensures NoneStopped(q) {
      var z, mz := Shadowed(c, k, q, n);
      ShadowedBelow(c, k, q, z, mz);
    }
    NeverStopped(c, s, m);
  }

  /** A task has counted up to the limit, or set its flag, and still has its piece. */
  ghost predicate Reacher<B>(task: Task<B>) {
    (task.Marking? && task.out.Some?) || (task.Checking? && task.wrote)
  }

  ghost predicate ReacherLeft<B>(c: Config<B>, k: nat, s: State<B>)
    requires k < |c.stages| && c.stages[k].Limit?
  {
    && k < |s.counters| && (forall t :: 0 <= t < |s.tasks| && s.tasks[t].Marking? ==> s.tasks[t].k == k)
    && (0 < c.stages[k].limit <= s.counters[k] ==> exists t :: 0 <= t < |s.tasks| && Reacher(s.tasks[t]))
  }

  lemma ReacherStays<B(!new)>(c: Config<B>, k: nat, p: State<B>, s: State<B>, t: nat, seen: bool)
    requires LimitAt(c, k) && TaskStep(c, p, s, t, seen) && ReacherLeft(c, k, p) && !s.tasks[t].Sinking?
    ensures ReacherLeft(c, k, s)
  {
    assert s.tasks == p.tasks[t := s.tasks[t]];
    if 0 < c.stages[k].limit <= s.counters[k] {
      if c.stages[k].limit <= p.counters[k] {
        var u :| 0 <= u < |p.tasks| && Reacher(p.tasks[u]);
        if u != t {
          OthersStay(c, p, s, t, seen, u);
          assert Reacher(s.tasks[u]);
        } else {
          assert Reacher(s.tasks[t]);
        }
      } else {
        assert Reacher(s.tasks[t]);
      }
    }
  }

  lemma ReacherNext<B(!new)>(c: Config<B>, k: nat, p: State<B>, s: State<B>)
    requires LimitAt(c, k) && Next(c, p, s) && ReacherLeft(c, k, p) && NoneStopped(s)
    ensures ReacherLeft(c, k, s)
  {
    if !FinalizeStep(c, p, s) {
      var t, seen := Stepper(c, p, s);
      ReacherStays(c, k, p, s, t, seen);
    }
  }

  lemma KeptBack<B(!new)>(c: Config<B>, inv: State<B> -> bool, s: State<B>, n: nat) returns (p: State<B>)
    requires ReachesUnstopped(c, s, n) && n > 0
    requires forall p, q {:trigger inv(p), inv(q)} :: inv(p) && Next(c, p, q) && NoneStopped(q) ==> inv(q)
    ensures ReachesUnstopped(c, p, n - 1) && (inv(p) ==> inv(s))
  {
    p := UnstoppedBefore(c, s, n);
  }

  /** What holds at the start and is kept by every step that stops no task holds throughout an unstopped run. */
  lemma {:induction false} ThroughoutUnstopped<B(!new)>(c: Config<B>, inv: State<B> -> bool, s: State<B>, n: nat)
    requires ReachesUnstopped(c, s, n) && inv(Init(c))
    requires forall p, q {:trigger inv(p), inv(q)} :: inv(p) && Next(c, p, q) && NoneStopped(q) ==> inv(q)
    ensures inv(s)
    decreases n
  {
    if n > 0 {
      var p := KeptBack(c, inv, s, n);
      ThroughoutUnstopped(c, inv, p, n - 1);
    }
  }

  lemma UnstoppedHasReacher<B(!new)>(c: Config<B>, k: nat, s: State<B>, m: nat)
    requires LimitAt(c, k) && ReachesUnstopped(c, s, m)
    ensures ReacherLeft(c, k, s)
  {
    var inv := (s: State<B>) => ReacherLeft(c, k, s);
    forall p, q | inv(p) && Next(c, p, q) && NoneStopped(q) ensures inv(q) {
      ReacherNext(c, k, p, q);
    }
    ThroughoutUnstopped(c, inv, s, m);
  }

  lemma UnstoppedIsBelow<B(!new)>(c: Config<B>, k: nat, s: State<B>, m: nat)
    requires LimitAt(c, k) && ReachesUnstopped(c, s, m) && Reaches(c, s, m) && s.finalized && c.threads > 0
    ensures c.stages[k].limit == 0 || ReachingRows(c, k) < c.stages[k].limit
  {
    UnstoppedHasReacher(c, k, s, m);
    var z := FinishedShadow(c, k, s, m);
    assert forall t :: 0 <= t < |s.tasks| ==> !Reacher(s.tasks[t]);
  }

  /**
   A finished run puts every piece that LIMIT lets through through the transforms behind it if and only if the limit is
   zero or fewer rows than the limit reach it in all, whatever the source, the number of tasks and the interleaving.
   */
  lemma NothingSkippedExactly<B(!new)>(c: Config<B>, k: nat, s: State<B>, m: nat)
    requires LimitAt(c, k) && Reaches(c, s, m) && s.finalized && c.threads > 0
    ensures ReachesUnstopped(c, s, m) <==> c.stages[k].limit == 0 || ReachingRows(c, k) < c.stages[k].limit
  {
    if c.stages[k].limit == 0 || ReachingRows(c, k) < c.stages[k].limit {
      BelowIsUnstopped(c, k, s, m);
    }
    if ReachesUnstopped(c, s, m) {
      UnstoppedIsBelow(c, k, s, m);
    }
  }

  // ----- a task that did not reach the limit itself -----

  /**
   Two tasks, two batches, the first below the limit and both together at it: the first task reads the flag that the
   second has set, and is told to stop with its own whole batch, which never meets the transform behind LIMIT.
   */
  lemma StoppedByAnother<B(!new)>(c: Config<B>, x: B, y: B, n: nat, effect: B -> Outcome<B>) returns (s: State<B>, m: nat)
    requires c.supply == [x, y] && c.stages == [Limit(n), Work(effect)] && c.threads == 2
    requires 0 < c.rows(x) < n <= c.rows(x) + c.rows(y)
    ensures Reaches(c, s, m) && s.tasks != [] && s.tasks[0].Exiting? && s.sunk == [Delivery(0, x)]
  {
    var s1, s2 := BothFetch(c, x, y);
    var s3, s4 := BothCount(c, x, y, n, effect, s2);
    var s5, s6;
    s5, s6, s := StopsEarly(c, x, n, effect, s4);
    m := 6;
    TwoSteps(c, Init(c), s1, s2, 0, 0, false, 1, false);
    TwoSteps(c, s2, s3, s4, 2, 0, false, 1, false);
    TwoSteps(c, s4, s5, s6, 4, 1, false, 0, true);
    StepReaches(c, s6, s, m, 0, false);
    m := m + 1;
  }

  lemma TwoSteps<B(!new)>(c: Config<B>, a: State<B>, b: State<B>, d: State<B>, m: nat, t: nat, seen: bool, u: nat, seen': bool)
    requires Reaches(c, a, m) && TaskStep(c, a, b, t, seen) && TaskStep(c, b, d, u, seen')
    ensures Reaches(c, d, m + 2)
  {
    StepReaches(c, a, b, m, t, seen);
    StepReaches(c, b, d, m + 1, u, seen');
  }

  lemma BothFetch<B>(c: Config<B>, x: B, y: B) returns (s1: State<B>, s2: State<B>)
    requires c.supply == [x, y] && |c.stages| == 2 && c.threads == 2
    ensures TaskStep(c, Init(c), s1, 0, false) && TaskStep(c, s1, s2, 1, false)
    ensures s2.tasks == [Running(x, 0), Running(y, 0)] && s2.sunk == [] && s2.counters == [0, 0] && |s2.done| == 2
  {
    s1 := Fetch(c, Init(c), 0);
    s2 := Fetch(c, s1, 1);
  }

  /** Both tasks count their batches; the second reaches the limit. */
  lemma BothCount<B>(c: Config<B>, x: B, y: B, n: nat, effect: B -> Outcome<B>, s2: State<B>) returns (s3: State<B>, s4: State<B>)
    requires c.stages == [Limit(n), Work(effect)] && 0 < c.rows(x) < n <= c.rows(x) + c.rows(y)
    requires s2.tasks == [Running(x, 0), Running(y, 0)] && s2.sunk == [] && s2.counters == [0, 0] && |s2.done| == 2
    ensures TaskStep(c, s2, s3, 0, false) && TaskStep(c, s3, s4, 1, false)
    ensures |s4.tasks| == 2 && |s4.counters| == |s4.done| == 2 && s4.sunk == []
    ensures s4.tasks[0] == Checking(x, 0, false) && s4.tasks[1].Marking? && s4.tasks[1].k == 0
  {
    s3 := Counted(c, s2, 0, x, 0);
    s4 := Counted(c, s3, 1, y, 0);
  }

  /** The second sets the flag, the first reads it and sinks what it has. */
  lemma StopsEarly<B>(c: Config<B>, x: B, n: nat, effect: B -> Outcome<B>, s4: State<B>) returns (s5: State<B>, s6: State<B>, s: State<B>)
    requires c.stages == [Limit(n), Work(effect)] && c.rows(x) > 0
    requires |s4.tasks| == 2 && |s4.counters| == |s4.done| == 2 && s4.sunk == []
    requires s4.tasks[0] == Checking(x, 0, false) && s4.tasks[1].Marking? && s4.tasks[1].k == 0
    ensures TaskStep(c, s4, s5, 1, false) && TaskStep(c, s5, s6, 0, true) && TaskStep(c, s6, s, 0, false)
    ensures s.tasks != [] && s.tasks[0].Exiting? && s.sunk == [Delivery(0, x)]
  {
    s5 := Marked(s4, 1, s4.tasks[1].out, 0);
    s6 := SetTask(s5, 0, Sinking(x));
    s := Sunk(c, s6, 0, x, Exiting);
  }

  // ----- one task and one batch, in full -----

  /** One task, one batch, and a transform behind a LIMIT. */
  ghost predicate LimitFirst<B>(c: Config<B>, b: B, limit: nat, effect: B -> Outcome<B>) {
    c.supply == [b] && c.threads == 1 && c.stages == [Limit(limit), Work(effect)]
    && (limit <= c.rows(b) ==> c.rows(c.clip(b, limit)) == limit)
  }

  /** What is sunk: the cut batch as it is if it reaches the limit, and what the transform makes of it otherwise. */
  ghost function Expected<B>(c: Config<B>, b: B, limit: nat, effect: B -> Outcome<B>): seq<B> {
    if limit == 0 || c.rows(b) == 0 then []
    else if c.rows(b) > limit then [c.clip(b, limit)]
    else if c.rows(b) == limit then [b]
    else if effect(b).Out? && c.rows(effect(b).batch) > 0 then [effect(b).batch]
    else []
  }

  /** Where the only task can be, and what has been sunk by then. */
  ghost predicate Stages<B>(c: Config<B>, s: State<B>, b: B, limit: nat, effect: B -> Outcome<B>) {
    && |s.tasks| == 1 && |s.counters| == |s.done| == 2
    && var piece, sunk := Piece(c, b, 0, limit), SunkBatches(s.sunk);
    && var before, below := s.counters[0] == 0 && !s.done[0] && sunk == [], 0 < c.rows(b) < limit && !s.done[0] && sunk == [];
    && match s.tasks[0]
       case Fetching => (s.cursor == 0 && before) || (s.cursor > 0 && sunk == Expected(c, b, limit, effect))
       case Running(r, k) =>
         && s.cursor > 0
         && ((k == 0 && r == b && before) || (k == 1 && r == b && below)
             || (k == 2 && below && effect(b) == Out(r) && c.rows(r) > 0))
       case Marking(out, k) => s.cursor > 0 && k == 0 && out == piece && sunk == [] && (limit == 0 || c.rows(b) >= limit)
       case Checking(r, k, wrote) =>
         && s.cursor > 0 && k == 0 && piece == Some(r) && sunk == []
         && if wrote then s.done[0] && c.rows(b) >= limit else below && r == b
       case Sinking(r) => s.cursor > 0 && piece == Some(r) && sunk == [] && c.rows(b) >= limit
       case Exiting => s.cursor > 0 && sunk == Expected(c, b, limit, effect)
       case Finished => s.cursor > 0 && sunk == Expected(c, b, limit, effect)
       case Faulted => s.cursor > 0 && below && effect(b).Fault?
  }

  /** The only task has counted itself finished, and Finalize was called only after that. */
  ghost predicate Counting<B>(s: State<B>) {
    |s.tasks| == 1 && s.finished == (if s.tasks[0].Finished? then 1 else 0) && (s.finalized ==> s.tasks[0].Finished?)
  }

  lemma Start<B>(c: Config<B>, b: B, limit: nat, effect: B -> Outcome<B>)
    requires LimitFirst(c, b, limit, effect)
    ensures Stages(c, Init(c), b, limit, effect) && Counting(Init(c))
  {
  }

  lemma OneStep<B>(c: Config<B>, s: State<B>, s': State<B>, seen: bool, b: B, limit: nat, effect: B -> Outcome<B>)
    requires LimitFirst(c, b, limit, effect) && Stages(c, s, b, limit, effect) && TaskStep(c, s, s', 0, seen)
    ensures Stages(c, s', b, limit, effect)
  {
    if s.tasks[0].Running? {
      OneRuns(c, s, s', seen, b, limit, effect);
    } else {
      OneWaits(c, s, s', seen, b, limit, effect);
    }
  }

  lemma OneRuns<B>(c: Config<B>, s: State<B>, s': State<B>, seen: bool, b: B, limit: nat, effect: B -> Outcome<B>)
    requires LimitFirst(c, b, limit, effect) && Stages(c, s, b, limit, effect) && TaskStep(c, s, s', 0, seen)
    requires s.tasks[0].Running?
    ensures Stages(c, s', b, limit, effect)
  {
  }

  lemma OneWaits<B>(c: Config<B>, s: State<B>, s': State<B>, seen: bool, b: B, limit: nat, effect: B -> Outcome<B>)
    requires LimitFirst(c, b, limit, effect) && Stages(c, s, b, limit, effect) && TaskStep(c, s, s', 0, seen)
    requires !s.tasks[0].Running?
    ensures Stages(c, s', b, limit, effect)
  {
  }

  lemma OneCount<B>(c: Config<B>, s: State<B>, s': State<B>, seen: bool)
    requires Counting(s) && TaskStep(c, s, s', 0, seen)
    ensures Counting(s')
  {
  }

  lemma LastStep<B>(c: Config<B>, s: State<B>, s': State<B>, b: B, limit: nat, effect: B -> Outcome<B>)
    requires c.threads == 1 && Stages(c, s, b, limit, effect) && Counting(s) && FinalizeStep(c, s, s')
    ensures Stages(c, s', b, limit, effect) && Counting(s')
  {
  }

  lemma NextStage<B(!new)>(c: Config<B>, p: State<B>, s: State<B>, b: B, limit: nat, effect: B -> Outcome<B>)
    requires LimitFirst(c, b, limit, effect) && Stages(c, p, b, limit, effect) && Counting(p) && Next(c, p, s)
    ensures Stages(c, s, b, limit, effect) && Counting(s)
  {
    if FinalizeStep(c, p, s) {
      LastStep(c, p, s, b, limit, effect);
    } else {
      var t, seen := Stepper(c, p, s);
      assert t == 0;
      OneStep(c, p, s, seen, b, limit, effect);
      OneCount(c, p, s, seen);
    }
  }

  lemma AllStages<B(!new)>(c: Config<B>, s: State<B>, n: nat, b: B, limit: nat, effect: B -> Outcome<B>)
    requires LimitFirst(c, b, limit, effect) && Reaches(c, s, n)
    ensures Stages(c, s, b, limit, effect) && Counting(s)
  {
    var inv := (s: State<B>) => Stages(c, s, b, limit, effect) && Counting(s);
    Start(c, b, limit, effect);
    forall p, q | inv(p) && Next(c, p, q) ensures inv(q) {
      NextStage(c, p, q, b, limit, effect);
    }
    Throughout(c, inv, s, n);
  }

  /** What one task sinks of one batch, for every batch and every limit. */
  lemma OneBatchExactly<B(!new)>(c: Config<B>, s: State<B>, n: nat, b: B, limit: nat, effect: B -> Outcome<B>)
    requires LimitFirst(c, b, limit, effect) && Reaches(c, s, n) && s.finalized
    ensures SunkBatches(s.sunk) == Expected(c, b, limit, effect)
    ensures 0 < limit <= c.rows(b) ==> SunkBatches(s.sunk) == Listed(Piece(c, b, 0, limit))
  {
    AllStages(c, s, n, b, limit, effect);
  }
}
