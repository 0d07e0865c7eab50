/**
 Two LIMITs in one pipeline, as in a LIMIT of a LIMIT (src/execution/Pipeline.h): the task that reaches the first one
 leaves its loop with the piece in hand and never meets the second.

 The stages here are any transforms up to a first LIMIT, and any stages, LIMITs too, behind it.
 */
module SeveralLimits {
  import opened Wrappers
  import opened Pipelines
  import opened LimitPlacement
  import Sequences

  /** Stage k is the first LIMIT, and something stands behind it. */
  ghost predicate FirstLimit<B(!new)>(c: Config<B>, k: nat) {
    && k + 1 < |c.stages| && c.stages[k].Limit? && (forall j :: 0 <= j < k ==> c.stages[j].Work?)
    && forall b: B, n: nat {:trigger c.clip(b, n)} :: n <= c.rows(b) ==> c.rows(c.clip(b, n)) == n
  }

  /** The first LIMIT lets everything or nothing through: it is zero, or more than all rows that reach it. */
  ghost predicate OutOfReach<B>(c: Config<B>, k: nat)
    requires k < |c.stages| && c.stages[k].Limit?
  {
    c.stages[k].limit == 0 || ReachingRows(c, k) < c.stages[k].limit
  }

  lemma FrontEnds<B(!new)>(c: Config<B>, k: nat)
    requires FirstLimit(c, k)
    ensures EndsInLimit(UpTo(c, k)) && Arrival(UpTo(c, k)) == k && |UpTo(c, k).stages| == k + 1
    ensures forall j :: 0 <= j <= k ==> UpTo(c, k).stages[j] == c.stages[j]
  {
  }

  // ----- rows on their way to the first LIMIT -----

  ghost function RowsOf<B>(c: Config<B>, o: Option<B>): nat {
    if o.Some? then c.rows(o.value) else 0
  }

  /** The rows with which a task will still come to the first LIMIT. */
  ghost function Due<B>(c: Config<B>, k: nat, task: Task<B>): nat
    requires k < |c.stages|
  {
    match task
    case Running(b, j) => if j <= k then RowsOf(c, Through(UpTo(c, k), b, j)) else 0
    case _ => 0
  }

  ghost function DueAll<B>(c: Config<B>, k: nat, tasks: seq<Task<B>>): nat
    requires k < |c.stages|
  {
    if tasks == [] then 0 else DueAll(c, k, tasks[..|tasks| - 1]) + Due(c, k, tasks[|tasks| - 1])
  }

  lemma {:induction false} DueUpdate<B>(c: Config<B>, k: nat, tasks: seq<Task<B>>, t: nat, task: Task<B>)
    requires k < |c.stages| && t < |tasks|
    ensures DueAll(c, k, tasks[t := task]) + Due(c, k, tasks[t]) == DueAll(c, k, tasks) + Due(c, k, task)
    decreases |tasks|
  {
    var n := |tasks| - 1;
    if t == n {
      assert tasks[t := task][..n] == tasks[..n];
    } else {
      assert tasks[t := task][..n] == tasks[..n][t := task];
      DueUpdate(c, k, tasks[..n], t, task);
    }
  }

  lemma {:induction false} NothingDue<B>(c: Config<B>, k: nat, n: nat)
    requires k < |c.stages|
    ensures DueAll(c, k, seq(n, _ => Fetching)) == 0
  {
    if n > 0 {
      NothingDue(c, k, n - 1);
      assert seq(n, _ => Fetching)[..n - 1] == seq(n - 1, _ => Task<B>.Fetching);
    }
  }

  /** The rows of the first i batches that come to the first LIMIT. */
  ghost function Coming<B>(c: Config<B>, k: nat, i: nat): nat
    requires k < |c.stages| && i <= |c.supply|
  {
    TotalRows(UpTo(c, k), Survivors(UpTo(c, k), i))
  }

  lemma ComingNext<B>(c: Config<B>, k: nat, i: nat)
    requires k < |c.stages| && i < |c.supply|
    ensures Coming(c, k, i + 1) == Coming(c, k, i) + Due(c, k, Running(c.supply[i], 0))
  {
    var d := UpTo(c, k);
    var next := Through(d, c.supply[i], 0);
    if next.Some? {
      TotalRowsSnoc(d, Survivors(d, i), next.value);
    } else {
      Sequences.Empties(Survivors(d, i));
    }
  }

  lemma {:induction false} ComingAtMost<B>(c: Config<B>, k: nat, i: nat)
    requires k < |c.stages| && i <= |c.supply|
    ensures Coming(c, k, i) <= ReachingRows(c, k)
    decreases |c.supply| - i
  {
    if i < |c.supply| {
      ComingNext(c, k, i);
      ComingAtMost(c, k, i + 1);
    }
  }

  /** Only LIMITs make tasks mark and check, and none stands before stage k. */
  ghost predicate Behind<B>(k: nat, task: Task<B>) {
    match task
    case Marking(_, j) => j >= k
    case Checking(_, j, _) => j >= k
    case _ => true
  }

  ghost predicate AllBehind<B>(k: nat, tasks: seq<Task<B>>) {
    forall t :: 0 <= t < |tasks| ==> Behind(k, tasks[t])
  }

  /** What was counted at the first LIMIT and what is on its way is what the source has handed out for it. */
  ghost predicate Accounted<B>(c: Config<B>, k: nat, s: State<B>)
    requires k < |c.stages|
  {
    && |s.counters| == |s.done| == |c.stages| && AllBehind(k, s.tasks)
    && s.counters[k] + DueAll(c, k, s.tasks) == Coming(c, k, Taken(c, s))
  }

  lemma FirstAccount<B(!new)>(c: Config<B>, k: nat)
    requires FirstLimit(c, k)
    ensures Accounted(c, k, Init(c))
  {
    NothingDue(c, k, c.threads);
  }

  lemma AccountFetch<B>(c: Config<B>, k: nat, s: State<B>, t: nat)
    requires k < |c.stages| && Accounted(c, k, s) && t < |s.tasks| && s.tasks[t].Fetching?
    ensures Accounted(c, k, Fetch(c, s, t))
  {
    if s.cursor < |c.supply| {
      ComingNext(c, k, s.cursor);
      AccountMoves(c, k, s, Fetch(c, s, t), t, Running(c.supply[s.cursor], 0));
    } else {
      AccountMoves(c, k, s, Fetch(c, s, t), t, Exiting);
    }
  }

  /** A task's step, told by what was counted and what has come. */
  lemma AccountMoves<B>(c: Config<B>, k: nat, s: State<B>, s': State<B>, t: nat, task: Task<B>)
    requires k < |c.stages| && Accounted(c, k, s) && t < |s.tasks| && s'.tasks == s.tasks[t := task] && Behind(k, task)
    requires |s'.counters| == |s'.done| == |c.stages|
    requires s'.counters[k] + Due(c, k, task) + Coming(c, k, Taken(c, s))
          == s.counters[k] + Due(c, k, s.tasks[t]) + Coming(c, k, Taken(c, s'))
    ensures Accounted(c, k, s')
  {
    DueUpdate(c, k, s.tasks, t, task);
  }

  /** A stage before LIMIT passes on what was due, if anything. */
  lemma DueWork<B(!new)>(c: Config<B>, k: nat, b: B, j: nat)
    requires FirstLimit(c, k) && j < k
    ensures Due(c, k, AfterWork(c, c.stages[j].effect(b), j)) == Due(c, k, Running(b, j))
  {
    FrontEnds(c, k);
    var d := UpTo(c, k);
    assert d.stages[j] == c.stages[j];
  }

  lemma AccountRuns<B(!new)>(c: Config<B>, k: nat, s: State<B>, s': State<B>, t: nat)
    requires FirstLimit(c, k) && Accounted(c, k, s) && TaskStep(c, s, s', t, false) && s.tasks[t].Running?
    ensures Accounted(c, k, s')
  {
    var b, j := s.tasks[t].batch, s.tasks[t].k;
    assert s'.tasks == s.tasks[t := s'.tasks[t]];
    if j < k {
      DueWork(c, k, b, j);
    } else if j == k {
      DueAtLimit(c, k, b);
    }
    AccountMoves(c, k, s, s', t, s'.tasks[t]);
  }

  lemma DueAtLimit<B(!new)>(c: Config<B>, k: nat, b: B)
    requires FirstLimit(c, k)
    ensures Due(c, k, Running(b, k)) == c.rows(b)
  {
    FrontEnds(c, k);
  }

  lemma AccountOther<B>(c: Config<B>, k: nat, s: State<B>, s': State<B>, t: nat, seen: bool)
    requires k < |c.stages| && Accounted(c, k, s) && TaskStep(c, s, s', t, seen) && !s.tasks[t].Running? && !s.tasks[t].Fetching?
    ensures Accounted(c, k, s')
  {
    assert Behind(k, s.tasks[t]);
    assert s'.tasks == s.tasks[t := s'.tasks[t]];
    AccountMoves(c, k, s, s', t, s'.tasks[t]);
  }

  lemma AccountNext<B(!new)>(c: Config<B>, k: nat, p: State<B>, s: State<B>)
    requires FirstLimit(c, k) && Accounted(c, k, p) && Next(c, p, s)
    ensures Accounted(c, k, s)
  {
    if !FinalizeStep(c, p, s) {
      var t, seen := Stepper(c, p, s);
      match p.tasks[t] {
        case Fetching => AccountFetch(c, k, p, t);
        case Running(_, _) => AccountRuns(c, k, p, s, t);
        case _ => AccountOther(c, k, p, s, t, seen);
      }
    }
  }

  lemma CountedWithin<B>(c: Config<B>, k: nat, s: State<B>)
    requires k < |c.stages| && Accounted(c, k, s)
    ensures s.counters[k] <= ReachingRows(c, k)
  {
    ComingAtMost(c, k, Taken(c, s));
  }

  // ----- the same run without the first LIMIT -----

  ghost predicate TaskLike<B>(c: Config<B>, k: nat, task: Task<B>, twin: Task<B>)
    requires k < |c.stages| && c.stages[k].Limit?
  {
    match task
    case Marking(out, j) => if j == k then c.stages[k].limit == 0 && out.None? && twin == Fetching else twin == task
    case Checking(b, j, wrote) => if j == k then c.stages[k].limit > 0 && !wrote && twin == Running(b, k + 1) else twin == task
    case _ => twin == task
  }

  /** A run whose first LIMIT is out of reach, and the run of the pipeline in which it is replaced. */
  ghost predicate Alike<B>(c: Config<B>, k: nat, s: State<B>, q: State<B>)
    requires k < |c.stages| && c.stages[k].Limit?
  {
    && |s.tasks| == |q.tasks| && |s.counters| == |s.done| == |q.counters| == |q.done| == |c.stages|
    && s.cursor == q.cursor && s.sunk == q.sunk && s.arrived == q.arrived
    && s.finished == q.finished && s.finalized == q.finalized
    && (forall j :: 0 <= j < |c.stages| && j != k ==> s.counters[j] == q.counters[j] && s.done[j] == q.done[j])
    && (s.done[k] ==> c.stages[k].limit == 0)
    && forall t :: 0 <= t < |s.tasks| ==> TaskLike(c, k, s.tasks[t], q.tasks[t])
  }

  lemma AlikeMoves<B>(c: Config<B>, k: nat, s: State<B>, s': State<B>, q: State<B>, q': State<B>, t: nat)
    requires k < |c.stages| && c.stages[k].Limit? && Alike(c, k, s, q) && t < |s.tasks| == |s'.tasks| == |q'.tasks|
    requires s'.tasks == s.tasks[t := s'.tasks[t]] && q'.tasks == q.tasks[t := q'.tasks[t]]
    requires TaskLike(c, k, s'.tasks[t], q'.tasks[t])
    requires |s'.counters| == |s'.done| == |q'.counters| == |q'.done| == |c.stages|
    requires s'.cursor == q'.cursor && s'.sunk == q'.sunk && s'.arrived == q'.arrived
    requires s'.finished == q'.finished && s'.finalized == q'.finalized
    requires forall j :: 0 <= j < |c.stages| && j != k ==> s'.counters[j] == q'.counters[j] && s'.done[j] == q'.done[j]
    requires s'.done[k] ==> c.stages[k].limit == 0
    ensures Alike(c, k, s', q')
  {
    forall u | 0 <= u < |s'.tasks| ensures TaskLike(c, k, s'.tasks[u], q'.tasks[u]) {
      if u != t { assert TaskLike(c, k, s.tasks[u], q.tasks[u]); }
    }
  }

  lemma AlikeStart<B(!new)>(c: Config<B>, k: nat)
    requires FirstLimit(c, k)
    ensures Alike(c, k, Init(c), Init(Passing(c, k)))
  {
  }

  /** What is put in the place of LIMIT does what LIMIT does out of reach. */
  lemma AlikeCounts<B(!new)>(c: Config<B>, k: nat, s: State<B>, s': State<B>, t: nat, q: State<B>, b: B) returns (q': State<B>)
    requires FirstLimit(c, k) && TaskStep(c, s, s', t, false) && Alike(c, k, s, q) && s.tasks[t] == Running(b, k)
    requires c.stages[k].limit == 0 || s'.counters[k] < c.stages[k].limit
    ensures Alike(c, k, s', q') && TaskStep(Passing(c, k), q, q', t, false)
  {
    var p := Passing(c, k);
    assert TaskLike(c, k, s.tasks[t], q.tasks[t]);
    assert s' == Counted(c, s, t, b, k);
    q' := SetTask(q, t, AfterWork(p, p.stages[k].effect(b), k));
    AlikeMoves(c, k, s, s', q, q', t);
  }

  lemma AlikeRuns<B(!new)>(c: Config<B>, k: nat, s: State<B>, s': State<B>, t: nat, q: State<B>, b: B, j: nat) returns (q': State<B>)
    requires FirstLimit(c, k) && TaskStep(c, s, s', t, false) && Alike(c, k, s, q) && s.tasks[t] == Running(b, j) && j != k
    ensures Alike(c, k, s', q') && TaskStep(Passing(c, k), q, q', t, false)
  {
    var p := Passing(c, k);
    assert TaskLike(c, k, s.tasks[t], q.tasks[t]);
    if j >= |c.stages| {
      q' := Sunk(p, q, t, b, Fetching);
      AlikeMoves(c, k, s, s', q, q', t);
    } else if c.stages[j].Limit? {
      q' := AlikeLater(c, k, s, s', t, q, b, j);
    } else {
      assert p.stages[j] == c.stages[j];
      q' := SetTask(q, t, AfterWork(p, p.stages[j].effect(b), j));
      AlikeMoves(c, k, s, s', q, q', t);
    }
  }

  /** A later LIMIT counts the same. */
  lemma AlikeLater<B(!new)>(c: Config<B>, k: nat, s: State<B>, s': State<B>, t: nat, q: State<B>, b: B, j: nat) returns (q': State<B>)
    requires FirstLimit(c, k) && TaskStep(c, s, s', t, false) && Alike(c, k, s, q) && s.tasks[t] == Running(b, j) && j != k
    requires j < |c.stages| && c.stages[j].Limit?
    ensures Alike(c, k, s', q') && TaskStep(Passing(c, k), q, q', t, false)
  {
    var p := Passing(c, k);
    assert TaskLike(c, k, s.tasks[t], q.tasks[t]) && p.stages[j] == c.stages[j];
    q' := Counted(p, q, t, b, j);
    CountedAlike(c, p, s, q, t, b, j);
    AlikeMoves(c, k, s, s', q, q', t);
  }

  /** A LIMIT that both pipelines have counts the same from equal counters. */
  lemma CountedAlike<B>(c: Config<B>, p: Config<B>, s: State<B>, q: State<B>, t: nat, b: B, j: nat)
    requires |c.stages| == |p.stages| && j < |c.stages| && c.stages[j].Limit? && p.stages[j] == c.stages[j]
    requires c.rows == p.rows && c.clip == p.clip && t < |s.tasks| == |q.tasks|
    requires j < |s.counters| == |q.counters| && s.counters[j] == q.counters[j] && s.arrived == q.arrived
    ensures Counted(c, s, t, b, j).tasks[t] == Counted(p, q, t, b, j).tasks[t]
    ensures Counted(c, s, t, b, j).arrived == Counted(p, q, t, b, j).arrived
    ensures Counted(c, s, t, b, j).counters[j] == Counted(p, q, t, b, j).counters[j]
  {
  }

  lemma AlikeAtLimit<B(!new)>(c: Config<B>, k: nat, s: State<B>, s': State<B>, t: nat, seen: bool, q: State<B>) returns (q': State<B>)
    requires FirstLimit(c, k) && TaskStep(c, s, s', t, seen) && Alike(c, k, s, q)
    requires s.tasks[t].Marking? || s.tasks[t].Checking?
    ensures Alike(c, k, s', q') && (q' == q || TaskStep(Passing(c, k), q, q', t, seen))
  {
    assert TaskLike(c, k, s.tasks[t], q.tasks[t]);
    if s.tasks[t].k == k {
      q' := q;
      assert q.tasks == q.tasks[t := q.tasks[t]];
    } else if s.tasks[t].Marking? {
      q' := Marked(q, t, s.tasks[t].out, s.tasks[t].k);
    } else {
      q' := SetTask(q, t, s'.tasks[t]);
    }
    AlikeMoves(c, k, s, s', q, q', t);
  }

  lemma AlikeOther<B(!new)>(c: Config<B>, k: nat, s: State<B>, s': State<B>, t: nat, seen: bool, q: State<B>) returns (q': State<B>)
    requires FirstLimit(c, k) && TaskStep(c, s, s', t, seen) && Alike(c, k, s, q)
    requires s.tasks[t].Fetching? || s.tasks[t].Sinking? || s.tasks[t].Exiting?
    ensures Alike(c, k, s', q') && TaskStep(Passing(c, k), q, q', t, seen)
  {
    var p := Passing(c, k);
    assert TaskLike(c, k, s.tasks[t], q.tasks[t]);
    match s.tasks[t] {
      case Fetching => q' := Fetch(p, q, t);
      case Sinking(b) => q' := Sunk(p, q, t, b, Exiting);
      case Exiting => q' := SetTask(q.(finished := q.finished + 1), t, Finished);
    }
    AlikeMoves(c, k, s, s', q, q', t);
  }

  lemma AlikeStep<B(!new)>(c: Config<B>, k: nat, s: State<B>, s': State<B>, t: nat, seen: bool, q: State<B>) returns (q': State<B>)
    requires FirstLimit(c, k) && TaskStep(c, s, s', t, seen) && Alike(c, k, s, q)
    requires c.stages[k].limit == 0 || s'.counters[k] < c.stages[k].limit
    ensures Alike(c, k, s', q') && (q' == q || Next(Passing(c, k), q, q'))
  {
    if s.tasks[t].Running? {
      assert TaskStep(c, s, s', t, false);
      if s.tasks[t].k == k {
        q' := AlikeCounts(c, k, s, s', t, q, s.tasks[t].batch);
      } else {
        q' := AlikeRuns(c, k, s, s', t, q, s.tasks[t].batch, s.tasks[t].k);
      }
    } else if s.tasks[t].Marking? || s.tasks[t].Checking? {
      q' := AlikeAtLimit(c, k, s, s', t, seen, q);
    } else {
      q' := AlikeOther(c, k, s, s', t, seen, q);
    }
  }

  /** A run with its account of the first LIMIT, and the run that is like it. */
  ghost predicate Paired<B(!new)>(c: Config<B>, k: nat, s: State<B>, q: State<B>, mq: nat)
    requires k < |c.stages| && c.stages[k].Limit?
  {
    Accounted(c, k, s) && Alike(c, k, s, q) && Reaches(Passing(c, k), q, mq)
  }

  lemma PairedFollows<B(!new)>(c: Config<B>, k: nat, p: State<B>, s: State<B>, q: State<B>, mq: nat) returns (q': State<B>, mq': nat)
    requires FirstLimit(c, k) && OutOfReach(c, k) && Next(c, p, s) && Paired(c, k, p, q, mq)
    ensures Paired(c, k, s, q', mq')
  {
    AccountNext(c, k, p, s);
    CountedWithin(c, k, s);
    if FinalizeStep(c, p, s) {
      q' := q.(finalized := true);
      assert FinalizeStep(Passing(c, k), q, q');
    } else {
      var t, seen := Stepper(c, p, s);
      q' := AlikeStep(c, k, p, s, t, seen, q);
    }
    mq' := if q' == q then mq else mq + 1;
    if q' != q {
      StepOfTwin(Passing(c, k), q, q', mq);
    }
  }

  ghost predicate HasPair<B(!new)>(c: Config<B>, k: nat, s: State<B>)
    requires k < |c.stages| && c.stages[k].Limit?
  {
    exists q: State<B>, mq: nat :: Paired(c, k, s, q, mq)
  }

  lemma PairKept<B(!new)>(c: Config<B>, k: nat, p: State<B>, s: State<B>)
    requires FirstLimit(c, k) && OutOfReach(c, k) && Next(c, p, s) && HasPair(c, k, p)
    ensures HasPair(c, k, s)
  {
    var q, mq :| Paired(c, k, p, q, mq);
    var q', mq' := PairedFollows(c, k, p, s, q, mq);
  }

  lemma FirstPair<B(!new)>(c: Config<B>, k: nat)
    requires FirstLimit(c, k)
    ensures HasPair(c, k, Init(c))
  {
    FirstAccount(c, k);
    AlikeStart(c, k);
    assert Paired(c, k, Init(c), Init(Passing(c, k)), 0);
  }

  /**
   If the first LIMIT is zero or above all rows that reach it, every run sinks what some run of the pipeline without it
   (or with nothing passing) sinks, whatever stands behind it.
   */
  lemma FirstLimitUnseen<B(!new)>(c: Config<B>, k: nat, s: State<B>, m: nat) returns (q: State<B>, mq: nat)
    requires FirstLimit(c, k) && OutOfReach(c, k) && Reaches(c, s, m)
    ensures Reaches(Passing(c, k), q, mq) && q.sunk == s.sunk && q.finished == s.finished && q.finalized == s.finalized
  {
    var inv := (s: State<B>) => HasPair(c, k, s);
    FirstPair(c, k);
    forall a, b | inv(a) && Next(c, a, b) ensures inv(b) {
      PairKept(c, k, a, b);
    }
    Throughout(c, inv, s, m);
    assert HasPair(c, k, s);
    q, mq :| Paired(c, k, s, q, mq);
  }

  /** Two LIMITs, the second last: with the first out of reach the second is met by every row that should meet it. */
  lemma SecondLimitCounts<B(!new)>(c: Config<B>, k: nat, s: State<B>, m: nat)
    requires FirstLimit(c, k) && OutOfReach(c, k) && Reaches(c, s, m) && s.finalized && c.threads > 0
    requires c.stages[|c.stages| - 1].Limit? && forall j :: k < j < |c.stages| - 1 ==> c.stages[j].Work?
    ensures var p, n := Passing(c, k), c.stages[|c.stages| - 1].limit;
            var all := TotalRows(p, Survivors(p, |c.supply|));
            TotalRows(c, SunkBatches(s.sunk)) == if n < all then n else all
  {
    var q, mq := FirstLimitUnseen(c, k, s, m);
    var p := Passing(c, k);
    assert GoodConfig(p) && EndsInLimit(p) && LimitOf(p) == Some(c.stages[|c.stages| - 1].limit);
    FinishedRowCount(p, q, mq);
    SameTotal(c, p, SunkBatches(s.sunk));
  }

  lemma {:induction false} SameTotal<B>(c: Config<B>, d: Config<B>, bs: seq<B>)
    requires c.rows == d.rows
    ensures TotalRows(c, bs) == TotalRows(d, bs)
  {
    if bs != [] {
      SameTotal(c, d, bs[..|bs| - 1]);
    }
  }

  // ----- LIMIT m of LIMIT n, one task and one batch, in full -----

  ghost predicate TwoLimits<B>(c: Config<B>, b: B, n: nat, m: nat) {
    && c.supply == [b] && c.threads == 1 && c.stages == [Limit(n), Limit(m)]
    && forall i: nat {:trigger c.clip(b, i)} :: i <= c.rows(b) ==> c.rows(c.clip(b, i)) == i
  }

  /** What is sunk: the piece that reaches the first limit as it is, and the second limit's piece otherwise. */
  ghost function ExpectedOfTwo<B>(c: Config<B>, b: B, n: nat, m: nat): seq<B> {
    if n == 0 || c.rows(b) == 0 then []
    else if c.rows(b) >= n then Listed(Piece(c, b, 0, n))
    else Listed(Piece(c, b, 0, m))
  }

  /** The batch is below the first limit, and nothing has been counted at the second. */
  ghost predicate Fresh<B>(c: Config<B>, s: State<B>, b: B, n: nat)
    requires |s.counters| == |s.done| == 2
  {
    0 < c.rows(b) < n && !s.done[0] && s.counters[1] == 0 && !s.done[1]
  }

  /** Where the only task can be at the LIMITs, before anything is sunk. */
  ghost predicate AtLimits<B>(c: Config<B>, s: State<B>, b: B, n: nat, m: nat)
    requires |s.tasks| == 1 && |s.counters| == |s.done| == 2
  {
    match s.tasks[0]
    case Running(r, j) =>
      r == b && ((j == 0 && s.counters == [0, 0] && s.done == [false, false]) || (j == 1 && Fresh(c, s, b, n))
                 || (j == 2 && 0 < c.rows(b) < n && c.rows(b) < m))
    case Marking(out, j) =>
      || (j == 0 && out == Piece(c, b, 0, n) && (n == 0 || c.rows(b) >= n) && s.counters[1] == 0 && !s.done[1])
      || (j == 1 && out == Piece(c, b, 0, m) && (m == 0 || c.rows(b) >= m) && 0 < c.rows(b) < n)
    case Checking(r, j, wrote) =>
      || (j == 0 && Piece(c, b, 0, n) == Some(r) && if wrote then s.done[0] && c.rows(b) >= n else r == b && Fresh(c, s, b, n))
      || (j == 1 && Piece(c, b, 0, m) == Some(r) && 0 < c.rows(b) < n
          && if wrote then s.done[1] && c.rows(b) >= m else r == b && c.rows(b) < m && !s.done[1])
    case Sinking(r) => ExpectedOfTwo(c, b, n, m) == [r] && c.rows(r) > 0
    case _ => false
  }

  /** Where it can be at all, and what has been sunk by then. */
  ghost predicate StagesOfTwo<B>(c: Config<B>, s: State<B>, b: B, n: nat, m: nat) {
    && |s.tasks| == 1 && |s.counters| == |s.done| == 2
    && if s.cursor == 0 then s.tasks[0].Fetching? && s.counters == [0, 0] && s.done == [false, false] && s.sunk == []
       else if s.tasks[0].Fetching? || s.tasks[0].Exiting? || s.tasks[0].Finished?
       then SunkBatches(s.sunk) == ExpectedOfTwo(c, b, n, m)
       else s.sunk == [] && AtLimits(c, s, b, n, m)
  }

  lemma StartOfTwo<B>(c: Config<B>, b: B, n: nat, m: nat)
    requires TwoLimits(c, b, n, m)
    ensures StagesOfTwo(c, Init(c), b, n, m) && Counting(Init(c))
  {
  }

  lemma CountsOfTwo<B>(c: Config<B>, s: State<B>, s': State<B>, b: B, n: nat, m: nat)
    requires TwoLimits(c, b, n, m) && StagesOfTwo(c, s, b, n, m) && TaskStep(c, s, s', 0, false)
    requires s.tasks[0].Running? && s.tasks[0].k < 2
    ensures StagesOfTwo(c, s', b, n, m)
  {
    var j := s.tasks[0].k;
    assert c.stages[j].Limit? && s' == Counted(c, s, 0, b, j);
  }

  lemma MarksOfTwo<B>(c: Config<B>, s: State<B>, s': State<B>, seen: bool, b: B, n: nat, m: nat)
    requires TwoLimits(c, b, n, m) && StagesOfTwo(c, s, b, n, m) && TaskStep(c, s, s', 0, seen)
    requires s.tasks[0].Marking? || s.tasks[0].Checking?
    ensures StagesOfTwo(c, s', b, n, m)
  {
  }

  lemma SinksOfTwo<B>(c: Config<B>, s: State<B>, s': State<B>, seen: bool, b: B, n: nat, m: nat)
    requires TwoLimits(c, b, n, m) && StagesOfTwo(c, s, b, n, m) && TaskStep(c, s, s', 0, seen)
    requires s.tasks[0].Sinking? || (s.tasks[0].Running? && s.tasks[0].k >= 2)
    ensures StagesOfTwo(c, s', b, n, m)
  {
    var r := s.tasks[0].batch;
    SunkSnoc(s.sunk, Delivery(0, r));
    Sequences.Empties([r]);
  }

  lemma StepOfTwo<B>(c: Config<B>, s: State<B>, s': State<B>, seen: bool, b: B, n: nat, m: nat)
    requires TwoLimits(c, b, n, m) && StagesOfTwo(c, s, b, n, m) && TaskStep(c, s, s', 0, seen)
    ensures StagesOfTwo(c, s', b, n, m)
  {
    match s.tasks[0] {
      case Running(_, j) =>
        if j < 2 {
          CountsOfTwo(c, s, s', b, n, m);
        } else {
          SinksOfTwo(c, s, s', seen, b, n, m);
        }
      case Marking(_, _) => MarksOfTwo(c, s, s', seen, b, n, m);
      case Checking(_, _, _) => MarksOfTwo(c, s, s', seen, b, n, m);
      case Sinking(_) => SinksOfTwo(c, s, s', seen, b, n, m);
      case _ =>
    }
  }

  lemma NextOfTwo<B(!new)>(c: Config<B>, p: State<B>, s: State<B>, b: B, n: nat, m: nat)
    requires TwoLimits(c, b, n, m) && StagesOfTwo(c, p, b, n, m) && Counting(p) && Next(c, p, s)
    ensures StagesOfTwo(c, s, b, n, m) && Counting(s)
  {
    if FinalizeStep(c, p, s) {
      assert s.tasks == p.tasks && s.sunk == p.sunk;
    } else {
      var t, seen := Stepper(c, p, s);
      assert t == 0;
      StepOfTwo(c, p, s, seen, b, n, m);
      OneCount(c, p, s, seen);
    }
  }

  lemma AllOfTwo<B(!new)>(c: Config<B>, s: State<B>, steps: nat, b: B, n: nat, m: nat)
    requires TwoLimits(c, b, n, m) && Reaches(c, s, steps)
    ensures StagesOfTwo(c, s, b, n, m) && Counting(s)
  {
    var inv := (s: State<B>) => StagesOfTwo(c, s, b, n, m) && Counting(s);
    StartOfTwo(c, b, n, m);
    forall p, q | inv(p) && Next(c, p, q) ensures inv(q) {
      NextOfTwo(c, p, q, b, n, m);
    }
    Throughout(c, inv, s, steps);
  }

  function Least(x: nat, y: nat): nat { if x < y then x else y }

  lemma RowsOfOne<B>(c: Config<B>, b: B, n: nat, m: nat)
    requires forall i: nat {:trigger c.clip(b, i)} :: i <= c.rows(b) ==> c.rows(c.clip(b, i)) == i
    ensures TotalRows(c, ExpectedOfTwo(c, b, n, m))
         == if n <= c.rows(b) then n else Least(c.rows(b), m)
  {
    var out := ExpectedOfTwo(c, b, n, m);
    if out != [] {
      assert out[..0] == [] && TotalRows(c, out) == c.rows(out[0]);
    }
  }

  /**
   One task and one batch: as many rows are sunk as both limits allow exactly if the first is not above the second, or
   is not reached.  If it is reached, its whole piece is sunk, however small the second limit is.
   */
  lemma TwoLimitsExactly<B(!new)>(c: Config<B>, s: State<B>, steps: nat, b: B, n: nat, m: nat)
    requires TwoLimits(c, b, n, m) && Reaches(c, s, steps) && s.finalized
    ensures TotalRows(c, SunkBatches(s.sunk)) == if n <= c.rows(b) then n else Least(c.rows(b), m)
    ensures TotalRows(c, SunkBatches(s.sunk)) == Least(c.rows(b), Least(n, m)) <==> n <= m || c.rows(b) < n
  {
    AllOfTwo(c, s, steps, b, n, m);
    RowsOfOne(c, b, n, m);
  }
}
