/**
 Pipeline::Execute as a state machine (src/execution/Pipeline.h): N tasks share one source cursor, the LIMIT
 counter and the sink.  Each step is one atomic action of one task, so a run is any interleaving.

 The protocol never looks inside a batch, so batches are a type parameter here: a stage is a function on
 batches or a LIMIT, and the configuration says how many rows a batch has and how LIMIT cuts one.
 */
module Pipelines {
  import opened Wrappers
  import Sequences

  /** What a transform does to a batch: null, a batch, or undefined because it indexes a missing column. */
  datatype Outcome<B> = Fault | Null | Out(batch: B)

  datatype Stage<!B> = Work(effect: B -> Outcome<B>) | Limit(limit: nat)

  /** What one Execute call works on: the batches the source hands out in order, the stages, the number of tasks. */
  datatype Config<!B> = Config(
    supply: seq<B>,
    stages: seq<Stage<B>>,
    threads: nat,
    rows: B -> nat,
    clip: (B, nat) -> B)

  /** Where a task is in its loop. */
  datatype Task<B> =
    | Fetching                              // about to ask the source
    | Running(batch: B, k: nat)             // about to run stage k, or to sink after the last
    | Marking(out: Option<B>, k: nat)       // LIMIT has counted its batch; about to set its done flag
    | Checking(batch: B, k: nat, wrote: bool) // LIMIT returned a batch; about to read its done flag
    | Sinking(batch: B)                     // told to stop; will sink this batch and leave the loop
    | Exiting                               // out of the loop, before the locked increment
    | Finished
    | Faulted                               // a transform indexed a column the batch does not have

  datatype Delivery<B> = Delivery(thread: nat, batch: B)

  /** `arrived` records, in order, the batches that reached the final LIMIT's counter (the sink if there is none). */
  datatype State<B> = State(
    cursor: nat,
    counters: seq<nat>,
    done: seq<bool>,
    tasks: seq<Task<B>>,
    sunk: seq<Delivery<B>>,
    arrived: seq<B>,
    finished: nat,
    finalized: bool)

  ghost function Init<B>(c: Config<B>): State<B> {
    State(0, seq(|c.stages|, _ => 0), seq(|c.stages|, _ => false), seq(c.threads, _ => Fetching), [], [], 0, false)
  }

  // ----- steps -----

  ghost predicate EndsInLimit<B>(c: Config<B>) {
    c.stages != [] && c.stages[|c.stages| - 1].Limit?
  }

  ghost function LimitOf<B>(c: Config<B>): Option<nat> {
    if EndsInLimit(c) then Some(c.stages[|c.stages| - 1].limit) else None
  }

  ghost function SetTask<B>(s: State<B>, t: nat, task: Task<B>): State<B>
    requires t < |s.tasks|
  {
    s.(tasks := s.tasks[t := task])
  }

  /** A task asks the source: the atomic cursor hands each index to one task. */
  ghost function Fetch<B>(c: Config<B>, s: State<B>, t: nat): State<B>
    requires t < |s.tasks|
  {
    var next := s.(cursor := s.cursor + 1);
    if s.cursor < |c.supply| then SetTask(next, t, Running(c.supply[s.cursor], 0)) else SetTask(next, t, Exiting)
  }

  /** A null batch or one without rows is skipped; otherwise the next transform is up. */
  ghost function AfterWork<B>(c: Config<B>, o: Outcome<B>, k: nat): Task<B> {
    match o
    case Fault => Faulted
    case Null => Fetching
    case Out(b) => if c.rows(b) == 0 then Fetching else Running(b, k + 1)
  }

  /** The part of a batch that LIMIT passes on when `start` rows were counted before it. */
  ghost function Piece<B>(c: Config<B>, b: B, start: nat, n: nat): Option<B> {
    if start >= n then None
    else if c.rows(b) <= n - start then Some(b)
    else Some(c.clip(b, n - start))
  }

  /** LIMIT up to and including its atomic addition to the row counter. */
  ghost function Counted<B>(c: Config<B>, s: State<B>, t: nat, b: B, k: nat): State<B>
    requires t < |s.tasks| && k < |c.stages| && c.stages[k].Limit? && k < |s.counters|
  {
    var n, start := c.stages[k].limit, s.counters[k];
    var s1 := s.(counters := s.counters[k := start + c.rows(b)],
                 arrived := if k == |c.stages| - 1 && c.rows(b) > 0 then s.arrived + [b] else s.arrived);
    var out := Piece(c, b, start, n);
    if out.None? || start + c.rows(b) >= n then SetTask(s1, t, Marking(out, k))
    else if c.rows(b) == 0 then SetTask(s1, t, Fetching)
    else SetTask(s1, t, Checking(out.value, k, false))
  }

  /** The task that counted up to the limit sets its done flag. */
  ghost function Marked<B>(s: State<B>, t: nat, out: Option<B>, k: nat): State<B>
    requires t < |s.tasks| && k < |s.done|
  {
    var s1 := s.(done := s.done[k := true]);
    if out.None? then SetTask(s1, t, Fetching) else SetTask(s1, t, Checking(out.value, k, true))
  }

  /** A relaxed read of a done flag: it may be stale, except that a task sees its own store. */
  ghost predicate MayRead<B>(s: State<B>, k: nat, wrote: bool, seen: bool)
    requires k < |s.done|
  {
    (wrote ==> seen) && (seen ==> s.done[k])
  }

  ghost function Sunk<B>(c: Config<B>, s: State<B>, t: nat, b: B, next: Task<B>): State<B>
    requires t < |s.tasks|
  {
    if c.rows(b) == 0 then SetTask(s, t, next)
    else
      SetTask(s.(sunk := s.sunk + [Delivery(t, b)],
                 arrived := if EndsInLimit(c) then s.arrived else s.arrived + [b]), t, next)
  }

  /** One atomic action of task `t`; `seen` is the value its read of a done flag returns, if it makes one. */
  ghost predicate TaskStep<B>(c: Config<B>, s: State<B>, s': State<B>, t: nat, seen: bool) {
    && t < |s.tasks| && |s.counters| == |s.done| == |c.stages|
    && match s.tasks[t]
       case Fetching => s' == Fetch(c, s, t)
       case Running(b, k) =>
         if k >= |c.stages| then s' == Sunk(c, s, t, b, Fetching)
         else if c.stages[k].Limit? then s' == Counted(c, s, t, b, k)
         else s' == SetTask(s, t, AfterWork(c, c.stages[k].effect(b), k))
       case Marking(out, k) => k < |s.done| && s' == Marked(s, t, out, k)
       case Checking(b, k, wrote) =>
         && k < |s.done| && MayRead(s, k, wrote, seen)
         && s' == SetTask(s, t, if seen then Sinking(b) else Running(b, k + 1))
       case Sinking(b) => s' == Sunk(c, s, t, b, Exiting)
       case Exiting => s' == SetTask(s.(finished := s.finished + 1), t, Finished)
       case Finished => false
       case Faulted => false
  }

  /** The waiting thread wakes when all tasks have counted themselves, and calls Finalize. */
  ghost predicate FinalizeStep<B>(c: Config<B>, s: State<B>, s': State<B>) {
    !s.finalized && s.finished == c.threads && s' == s.(finalized := true)
  }

  ghost predicate Next<B>(c: Config<B>, s: State<B>, s': State<B>) {
    FinalizeStep(c, s, s') || exists t, seen :: TaskStep(c, s, s', t, seen)
  }

  /** `s` is reached from the start in `n` steps. */
  ghost predicate Reaches<B(!new)>(c: Config<B>, s: State<B>, n: nat)
    decreases n
  {
    if n == 0 then s == Init(c) else exists p: State<B> :: Reaches(c, p, n - 1) && Next(c, p, s)
  }

  // ----- what a batch still has to become -----

  /** Index of the stage at which a batch counts as arrived: the LIMIT, or the sink. */
  ghost function Arrival<B>(c: Config<B>): nat {
    if EndsInLimit(c) then |c.stages| - 1 else |c.stages|
  }

  /** LIMIT is the last transform if there is one, and cutting leaves as many rows as asked for. */
  ghost predicate GoodConfig<B(!new)>(c: Config<B>) {
    && (forall k :: 0 <= k < |c.stages| - 1 ==> c.stages[k].Work?)
    && (forall b: B, n: nat {:trigger c.clip(b, n)} :: n <= c.rows(b) ==> c.rows(c.clip(b, n)) == n)
  }

  /** The batch that comes out of the stages from k up to the arrival stage, if any rows are left. */
  ghost function Through<B>(c: Config<B>, b: B, k: nat): Option<B>
    decreases |c.stages| - k
  {
    if k >= Arrival(c) then (if c.rows(b) == 0 then None else Some(b))
    else if c.stages[k].Limit? then None
    else
      match c.stages[k].effect(b)
      case Fault => None
      case Null => None
      case Out(r) => if c.rows(r) == 0 then None else Through(c, r, k + 1)
  }

  lemma {:induction false} ThroughNonempty<B>(c: Config<B>, b: B, k: nat)
    ensures Through(c, b, k).Some? ==> c.rows(Through(c, b, k).value) > 0
    decreases |c.stages| - k
  {
    if k < Arrival(c) && c.stages[k].Work? && c.stages[k].effect(b).Out? {
      ThroughNonempty(c, c.stages[k].effect(b).batch, k + 1);
    }
  }

  ghost function Listed<B>(o: Option<B>): seq<B> {
    if o.Some? then [o.value] else []
  }

  /** What the first `j` batches of the source leave at the arrival stage, in source order. */
  ghost function Survivors<B>(c: Config<B>, j: nat): seq<B>
    requires j <= |c.supply|
  {
    if j == 0 then [] else Survivors(c, j - 1) + Listed(Through(c, c.supply[j - 1], 0))
  }

  // ----- rows in flight -----

  /** The batch a task holds before (`post` false) or after (`post` true) the arrival stage, if it has rows. */
  ghost function Held<B>(c: Config<B>, task: Task<B>, post: bool): Option<B> {
    match task
    case Running(b, k) =>
      if EndsInLimit(c) && k >= |c.stages| then (if post then Some(b) else None)
      else if post then None else Through(c, b, k)
    case Marking(out, _) => if post then out else None
    case Checking(b, _, _) => if post then Some(b) else None
    case Sinking(b) => if post then Some(b) else None
    case _ => None
  }

  ghost function InFlight<B>(c: Config<B>, tasks: seq<Task<B>>, post: bool): multiset<B> {
    if tasks == [] then multiset{}
    else multiset(Listed(Held(c, tasks[0], post))) + InFlight(c, tasks[1..], post)
  }

  lemma {:induction false} InFlightUpdate<B>(c: Config<B>, tasks: seq<Task<B>>, t: nat, task: Task<B>, post: bool)
    requires t < |tasks|
    ensures InFlight(c, tasks[t := task], post) + multiset(Listed(Held(c, tasks[t], post)))
         == InFlight(c, tasks, post) + multiset(Listed(Held(c, task, post)))
  {
    if t == 0 {
      assert tasks[t := task][1..] == tasks[1..];
    } else {
      InFlightUpdate(c, tasks[1..], t - 1, task, post);
      assert tasks[t := task][1..] == tasks[1..][t - 1 := task];
      AddToBoth(InFlight(c, tasks[1..][t - 1 := task], post), multiset(Listed(Held(c, tasks[t], post))),
                InFlight(c, tasks[1..], post), multiset(Listed(Held(c, task, post))), multiset(Listed(Held(c, tasks[0], post))));
    }
  }

  lemma AddToBoth<T>(a: multiset<T>, b: multiset<T>, x: multiset<T>, y: multiset<T>, head: multiset<T>)
    requires a + b == x + y
    ensures head + a + b == head + x + y
  {
    assert head + a + b == head + (a + b);
    assert head + x + y == head + (x + y);
  }

  lemma {:induction false} InFlightEmpty<B>(c: Config<B>, tasks: seq<Task<B>>, post: bool)
    requires forall t :: 0 <= t < |tasks| ==> Held(c, tasks[t], post).None?
    ensures InFlight(c, tasks, post) == multiset{}
  {
    if tasks != [] {
      InFlightEmpty(c, tasks[1..], post);
    }
  }

  ghost function CountFinished<B>(tasks: seq<Task<B>>): nat {
    if tasks == [] then 0 else (if tasks[0].Finished? then 1 else 0) + CountFinished(tasks[1..])
  }

  lemma {:induction false} CountFinishedUpdate<B>(tasks: seq<Task<B>>, t: nat, task: Task<B>)
    requires t < |tasks|
    ensures CountFinished(tasks[t := task]) + (if tasks[t].Finished? then 1 else 0)
         == CountFinished(tasks) + (if task.Finished? then 1 else 0)
  {
    if t == 0 {
      assert tasks[t := task][1..] == tasks[1..];
    } else {
      CountFinishedUpdate(tasks[1..], t - 1, task);
      assert tasks[t := task][1..] == tasks[1..][t - 1 := task];
    }
  }

  lemma {:induction false} CountFinishedAll<B>(tasks: seq<Task<B>>)
    ensures CountFinished(tasks) <= |tasks|
    ensures CountFinished(tasks) == |tasks| <==> forall t :: 0 <= t < |tasks| ==> tasks[t].Finished?
  {
    if tasks != [] {
      CountFinishedAll(tasks[1..]);
      assert forall t :: 1 <= t < |tasks| ==> tasks[t] == tasks[1..][t - 1];
      assert forall t :: 0 <= t < |tasks| - 1 ==> tasks[1..][t] == tasks[t + 1];
    }
  }

  lemma {:induction false} NoneFinished<B>(tasks: seq<Task<B>>)
    requires forall t :: 0 <= t < |tasks| ==> !tasks[t].Finished?
    ensures CountFinished(tasks) == 0
  {
    if tasks != [] {
      NoneFinished(tasks[1..]);
    }
  }

  // ----- the pieces LIMIT passes on -----

  ghost function TotalRows<B>(c: Config<B>, bs: seq<B>): nat {
    if bs == [] then 0 else TotalRows(c, bs[..|bs| - 1]) + c.rows(bs[|bs| - 1])
  }

  /** What is passed on of the batches, in the order in which they were counted. */
  ghost function Pieces<B>(c: Config<B>, bs: seq<B>): seq<B> {
    if LimitOf(c).None? then bs
    else if bs == [] then []
    else
      var front := bs[..|bs| - 1];
      Pieces(c, front) + Listed(Piece(c, bs[|bs| - 1], TotalRows(c, front), LimitOf(c).value))
  }

  lemma TotalRowsSnoc<B>(c: Config<B>, bs: seq<B>, b: B)
    ensures TotalRows(c, bs + [b]) == TotalRows(c, bs) + c.rows(b)
  {
    assert (bs + [b])[..|bs|] == bs;
  }

  lemma PiecesSnoc<B>(c: Config<B>, bs: seq<B>, b: B)
    ensures Pieces(c, bs + [b])
         == Pieces(c, bs) + (if EndsInLimit(c) then Listed(Piece(c, b, TotalRows(c, bs), LimitOf(c).value)) else [b])
  {
    assert (bs + [b])[..|bs|] == bs;
  }

  function SunkBatches<B>(ds: seq<Delivery<B>>): (bs: seq<B>)
    ensures |bs| == |ds| && forall i :: 0 <= i < |ds| ==> bs[i] == ds[i].batch
  {
    seq(|ds|, i requires 0 <= i < |ds| => ds[i].batch)
  }

  // ----- the invariant -----

  /** The rows LIMIT needs have been counted. */
  ghost predicate Covered<B>(c: Config<B>, s: State<B>) {
    EndsInLimit(c) && TotalRows(c, s.arrived) >= LimitOf(c).value
  }

  ghost predicate TaskOk<B>(c: Config<B>, s: State<B>, task: Task<B>) {
    match task
    case Running(b, k) => k <= |c.stages| && (EndsInLimit(c) && k == |c.stages| ==> c.rows(b) > 0)
    case Marking(out, k) =>
      k == Arrival(c) && Covered(c, s) && (out.Some? ==> c.rows(out.value) > 0)
    case Checking(b, k, wrote) =>
      k == Arrival(c) && EndsInLimit(c) && c.rows(b) > 0 && k < |s.done| && (wrote ==> s.done[k])
    case Sinking(b) => Covered(c, s) && c.rows(b) > 0
    case Exiting => s.cursor >= |c.supply| || Covered(c, s)
    case Finished => s.cursor >= |c.supply| || Covered(c, s)
    case _ => true
  }

  ghost predicate WellFormed<B>(c: Config<B>, s: State<B>) {
    && |s.tasks| == c.threads && |s.counters| == |s.done| == |c.stages|
    && s.finished == CountFinished(s.tasks)
    && (s.finalized ==> s.finished == c.threads)
    && (EndsInLimit(c) ==> s.counters[Arrival(c)] == TotalRows(c, s.arrived))
    && (EndsInLimit(c) && s.done[Arrival(c)] ==> Covered(c, s))
    && (forall i :: 0 <= i < |s.sunk| ==> s.sunk[i].thread < c.threads)
    && (forall t :: 0 <= t < |s.tasks| ==> TaskOk(c, s, s.tasks[t]))
  }

  ghost function Taken<B>(c: Config<B>, s: State<B>): (j: nat)
    ensures j <= |c.supply|
  {
    if s.cursor < |c.supply| then s.cursor else |c.supply|
  }

  /** Every batch taken from the source is in flight before the arrival stage, has arrived, or left nothing. */
  ghost predicate TakenAccounted<B>(c: Config<B>, s: State<B>) {
    multiset(s.arrived) + InFlight(c, s.tasks, false) == multiset(Survivors(c, Taken(c, s)))
  }

  /** Every piece passed on is in flight behind LIMIT or has been sunk, once. */
  ghost predicate ArrivedAccounted<B>(c: Config<B>, s: State<B>) {
    multiset(SunkBatches(s.sunk)) + InFlight(c, s.tasks, true) == multiset(Pieces(c, s.arrived))
  }

  ghost predicate Invariant<B>(c: Config<B>, s: State<B>) {
    WellFormed(c, s) && TakenAccounted(c, s) && ArrivedAccounted(c, s)
  }

  lemma InitInvariant<B>(c: Config<B>)
    ensures Invariant(c, Init(c))
  {
    var s := Init(c);
    InFlightEmpty(c, s.tasks, false);
    InFlightEmpty(c, s.tasks, true);
    NoneFinished(s.tasks);
  }

  // ----- every step keeps the accounts -----

  /** One step of an account log + flight == total: `inn` enters the total, `out` leaves for the log. */
  lemma Balance<T>(log: multiset<T>, flight: multiset<T>, flight': multiset<T>, part: multiset<T>, part': multiset<T>,
                   total: multiset<T>, inn: multiset<T>, out: multiset<T>)
    requires log + flight == total && flight' + part == flight + part' && part' + out == part + inn
    ensures log + out + flight' == total + inn
  {
    forall x ensures (log + out + flight')[x] == (total + inn)[x] {
      assert (log + flight)[x] == total[x];
      assert (flight' + part)[x] == (flight + part')[x];
      assert (part' + out)[x] == (part + inn)[x];
    }
  }

  /** Task t's step takes `inn` from the source's survivors and hands `out` to the arrival stage. */
  lemma TakenMoveKeeps<B>(c: Config<B>, s: State<B>, s': State<B>, t: nat, inn: seq<B>, out: seq<B>)
    requires t < |s.tasks| == |s'.tasks| && s'.tasks == s.tasks[t := s'.tasks[t]]
    requires s'.arrived == s.arrived + out
    requires Survivors(c, Taken(c, s')) == Survivors(c, Taken(c, s)) + inn
    requires Listed(Held(c, s'.tasks[t], false)) + out == Listed(Held(c, s.tasks[t], false)) + inn
    requires TakenAccounted(c, s)
    ensures TakenAccounted(c, s')
  {
    InFlightUpdate(c, s.tasks, t, s'.tasks[t], false);
    var p, p' := Listed(Held(c, s.tasks[t], false)), Listed(Held(c, s'.tasks[t], false));
    assert multiset(p') + multiset(out) == multiset(p' + out) == multiset(p + inn) == multiset(p) + multiset(inn);
    Balance(multiset(s.arrived), InFlight(c, s.tasks, false), InFlight(c, s'.tasks, false),
            multiset(p), multiset(p'), multiset(Survivors(c, Taken(c, s))), multiset(inn), multiset(out));
  }

  /** Task t's step gets `inn` passed on by the arrival stage and sinks `out`. */
  lemma ArrivedMoveKeeps<B>(c: Config<B>, s: State<B>, s': State<B>, t: nat, inn: seq<B>, out: seq<B>)
    requires t < |s.tasks| == |s'.tasks| && s'.tasks == s.tasks[t := s'.tasks[t]]
    requires SunkBatches(s'.sunk) == SunkBatches(s.sunk) + out
    requires Pieces(c, s'.arrived) == Pieces(c, s.arrived) + inn
    requires Listed(Held(c, s'.tasks[t], true)) + out == Listed(Held(c, s.tasks[t], true)) + inn
    requires ArrivedAccounted(c, s)
    ensures ArrivedAccounted(c, s')
  {
    InFlightUpdate(c, s.tasks, t, s'.tasks[t], true);
    var p, p' := Listed(Held(c, s.tasks[t], true)), Listed(Held(c, s'.tasks[t], true));
    assert multiset(p') + multiset(out) == multiset(p' + out) == multiset(p + inn) == multiset(p) + multiset(inn);
    Balance(multiset(SunkBatches(s.sunk)), InFlight(c, s.tasks, true), InFlight(c, s'.tasks, true),
            multiset(p), multiset(p'), multiset(Pieces(c, s.arrived)), multiset(inn), multiset(out));
  }

  /** Task t's step touches neither the source nor the arrival log. */
  lemma TakenStill<B>(c: Config<B>, s: State<B>, s': State<B>, t: nat)
    requires t < |s.tasks| == |s'.tasks| && s'.tasks == s.tasks[t := s'.tasks[t]] && TakenAccounted(c, s)
    requires s'.arrived == s.arrived && Taken(c, s') == Taken(c, s)
    requires Held(c, s'.tasks[t], false) == Held(c, s.tasks[t], false)
    ensures TakenAccounted(c, s')
  {
    TakenMoveKeeps(c, s, s', t, [], []);
  }

  /** Task t takes the next batch of the source. */
  lemma TakenEnter<B>(c: Config<B>, s: State<B>, s': State<B>, t: nat)
    requires t < |s.tasks| == |s'.tasks| && s'.tasks == s.tasks[t := s'.tasks[t]] && TakenAccounted(c, s)
    requires s'.arrived == s.arrived && s.cursor < |c.supply| && s'.cursor == s.cursor + 1
    requires Held(c, s.tasks[t], false).None? && Held(c, s'.tasks[t], false) == Through(c, c.supply[s.cursor], 0)
    ensures TakenAccounted(c, s')
  {
    TakenOneMore(c, s, s');
    NothingElse(Listed(Held(c, s'.tasks[t], false)));
    NothingElse(s.arrived);
    TakenMoveKeeps(c, s, s', t, Listed(Held(c, s'.tasks[t], false)), []);
  }

  lemma NothingElse<T>(x: seq<T>)
    ensures x + [] == x && [] + x == x
  {
  }

  lemma TakenOneMore<B>(c: Config<B>, s: State<B>, s': State<B>)
    requires s.cursor < |c.supply| && s'.cursor == s.cursor + 1
    ensures Survivors(c, Taken(c, s')) == Survivors(c, Taken(c, s)) + Listed(Through(c, c.supply[s.cursor], 0))
  {
    SurvivorsNext(c, s.cursor);
  }

  lemma SurvivorsNext<B>(c: Config<B>, j: nat)
    requires j < |c.supply|
    ensures Survivors(c, j + 1) == Survivors(c, j) + Listed(Through(c, c.supply[j], 0))
  {
  }

  /** Task t's batch arrives. */
  lemma TakenLeave<B>(c: Config<B>, s: State<B>, s': State<B>, t: nat, b: B)
    requires t < |s.tasks| == |s'.tasks| && s'.tasks == s.tasks[t := s'.tasks[t]] && TakenAccounted(c, s)
    requires s'.arrived == s.arrived + [b] && Taken(c, s') == Taken(c, s)
    requires Held(c, s.tasks[t], false) == Some(b) && Held(c, s'.tasks[t], false).None?
    ensures TakenAccounted(c, s')
  {
    TakenMoveKeeps(c, s, s', t, [], [b]);
  }

  lemma ArrivedStill<B>(c: Config<B>, s: State<B>, s': State<B>, t: nat)
    requires t < |s.tasks| == |s'.tasks| && s'.tasks == s.tasks[t := s'.tasks[t]] && ArrivedAccounted(c, s)
    requires s'.arrived == s.arrived && s'.sunk == s.sunk
    requires Held(c, s'.tasks[t], true) == Held(c, s.tasks[t], true)
    ensures ArrivedAccounted(c, s')
  {
    ArrivedMoveKeeps(c, s, s', t, [], []);
  }

  /** LIMIT counts `b` for task t and passes on its piece. */
  lemma ArrivedEnter<B>(c: Config<B>, s: State<B>, s': State<B>, t: nat, b: B)
    requires t < |s.tasks| == |s'.tasks| && s'.tasks == s.tasks[t := s'.tasks[t]] && ArrivedAccounted(c, s)
    requires EndsInLimit(c) && s'.arrived == s.arrived + [b] && s'.sunk == s.sunk
    requires Held(c, s.tasks[t], true).None?
    requires Held(c, s'.tasks[t], true) == Piece(c, b, TotalRows(c, s.arrived), LimitOf(c).value)
    ensures ArrivedAccounted(c, s')
  {
    PiecesSnoc(c, s.arrived, b);
    ArrivedMoveKeeps(c, s, s', t, Listed(Held(c, s'.tasks[t], true)), []);
  }

  lemma SunkSnoc<B>(ds: seq<Delivery<B>>, d: Delivery<B>)
    ensures SunkBatches(ds + [d]) == SunkBatches(ds) + [d.batch]
  {
  }

  /** Task t sinks the piece it was given. */
  lemma ArrivedLeave<B>(c: Config<B>, s: State<B>, s': State<B>, t: nat, b: B)
    requires t < |s.tasks| == |s'.tasks| && s'.tasks == s.tasks[t := s'.tasks[t]] && ArrivedAccounted(c, s)
    requires s'.arrived == s.arrived && s'.sunk == s.sunk + [Delivery(t, b)]
    requires Held(c, s.tasks[t], true) == Some(b) && Held(c, s'.tasks[t], true).None?
    ensures ArrivedAccounted(c, s')
  {
    SunkSnoc(s.sunk, Delivery(t, b));
    ArrivedMoveKeeps(c, s, s', t, [], [b]);
  }

  /** Without LIMIT a batch arrives and is sunk in one step. */
  lemma ArrivedPass<B>(c: Config<B>, s: State<B>, s': State<B>, t: nat, b: B)
    requires t < |s.tasks| == |s'.tasks| && s'.tasks == s.tasks[t := s'.tasks[t]] && ArrivedAccounted(c, s)
    requires !EndsInLimit(c) && s'.arrived == s.arrived + [b] && s'.sunk == s.sunk + [Delivery(t, b)]
    requires Held(c, s.tasks[t], true).None? && Held(c, s'.tasks[t], true).None?
    ensures ArrivedAccounted(c, s')
  {
    SunkSnoc(s.sunk, Delivery(t, b));
    PiecesSnoc(c, s.arrived, b);
    ArrivedMoveKeeps(c, s, s', t, [b], [b]);
  }

  // ----- every step keeps the rest of the invariant -----

  /** Shared progress only grows, so the facts tasks rely on stay true. */
  ghost predicate Grows<B>(c: Config<B>, s: State<B>, s': State<B>) {
    && s.cursor <= s'.cursor && |s'.done| == |s.done|
    && (forall k :: 0 <= k < |s.done| && s.done[k] ==> s'.done[k])
    && (Covered(c, s) ==> Covered(c, s'))
  }

  lemma OthersStayOk<B>(c: Config<B>, s: State<B>, s': State<B>, t: nat)
    requires t < |s.tasks| == |s'.tasks| && s'.tasks == s.tasks[t := s'.tasks[t]] && Grows(c, s, s')
    requires forall u :: 0 <= u < |s.tasks| ==> TaskOk(c, s, s.tasks[u])
    requires TaskOk(c, s', s'.tasks[t])
    ensures forall u :: 0 <= u < |s'.tasks| ==> TaskOk(c, s', s'.tasks[u])
    ensures CountFinished(s'.tasks) + (if s.tasks[t].Finished? then 1 else 0)
         == CountFinished(s.tasks) + (if s'.tasks[t].Finished? then 1 else 0)
  {
    CountFinishedUpdate(s.tasks, t, s'.tasks[t]);
    forall u | 0 <= u < |s'.tasks| ensures TaskOk(c, s', s'.tasks[u]) {
      if u != t {
        assert TaskOk(c, s, s.tasks[u]);
      }
    }
  }

  /** An unfinished task keeps the pipeline from being finalized. */
  lemma NotYetFinal<B>(c: Config<B>, s: State<B>, t: nat)
    requires WellFormed(c, s) && t < |s.tasks| && !s.tasks[t].Finished?
    ensures !s.finalized && s.finished < c.threads
  {
    CountFinishedAll(s.tasks);
  }

  lemma FetchKeeps<B>(c: Config<B>, s: State<B>, s': State<B>, t: nat)
    requires Invariant(c, s) && t < |s.tasks| && s.tasks[t].Fetching? && s' == Fetch(c, s, t)
    ensures Invariant(c, s')
  {
    NotYetFinal(c, s, t);
    OthersStayOk(c, s, s', t);
    ArrivedStill(c, s, s', t);
    if s.cursor < |c.supply| {
      TakenEnter(c, s, s', t);
    } else {
      TakenStill(c, s, s', t);
    }
  }

  lemma WorkAccounts<B>(c: Config<B>, s: State<B>, s': State<B>, t: nat, b: B, k: nat)
    requires TakenAccounted(c, s) && ArrivedAccounted(c, s) && t < |s.tasks| && s.tasks[t] == Running(b, k)
    requires k < Arrival(c) && c.stages[k].Work? && s' == SetTask(s, t, AfterWork(c, c.stages[k].effect(b), k))
    ensures TakenAccounted(c, s') && ArrivedAccounted(c, s')
  {
    HeldAfterWork(c, b, k);
    TakenStill(c, s, s', t);
    ArrivedStill(c, s, s', t);
  }

  /** A transform changes a batch, and not what it will become. */
  lemma HeldAfterWork<B>(c: Config<B>, b: B, k: nat)
    requires k < Arrival(c) && c.stages[k].Work?
    ensures var after := AfterWork(c, c.stages[k].effect(b), k);
            Held(c, after, false) == Held(c, Running(b, k), false) && Held(c, after, true) == Held(c, Running(b, k), true) == None
  {
  }

  lemma WorkKeeps<B>(c: Config<B>, s: State<B>, s': State<B>, t: nat, b: B, k: nat)
    requires Invariant(c, s) && t < |s.tasks| && s.tasks[t] == Running(b, k)
    requires k < Arrival(c) && c.stages[k].Work? && s' == SetTask(s, t, AfterWork(c, c.stages[k].effect(b), k))
    ensures Invariant(c, s')
  {
    NotYetFinal(c, s, t);
    WorkAccounts(c, s, s', t, b, k);
    OthersStayOk(c, s, s', t);
  }

  /** LIMIT counts a batch: the counted interval starts where the previous one ended. */
  lemma CountKeeps<B(!new)>(c: Config<B>, s: State<B>, s': State<B>, t: nat, b: B, k: nat)
    requires GoodConfig(c) && Invariant(c, s) && t < |s.tasks| && s.tasks[t] == Running(b, k)
    requires EndsInLimit(c) && k == Arrival(c) && s' == Counted(c, s, t, b, k)
    ensures Invariant(c, s')
  {
    CountStaysOk(c, s, s', t, b, k);
    CountAccounts(c, s, s', t, b, k);
  }

  lemma CountStaysOk<B(!new)>(c: Config<B>, s: State<B>, s': State<B>, t: nat, b: B, k: nat)
    requires GoodConfig(c) && WellFormed(c, s) && t < |s.tasks| && s.tasks[t] == Running(b, k)
    requires EndsInLimit(c) && k == Arrival(c) && s' == Counted(c, s, t, b, k)
    ensures WellFormed(c, s')
  {
    NotYetFinal(c, s, t);
    CountProgress(c, s, s', t, b, k);
    OthersStayOk(c, s, s', t);
  }

  lemma CountAccounts<B>(c: Config<B>, s: State<B>, s': State<B>, t: nat, b: B, k: nat)
    requires TakenAccounted(c, s) && ArrivedAccounted(c, s) && t < |s.tasks| && s.tasks[t] == Running(b, k) && k < |s.counters|
    requires EndsInLimit(c) && k == Arrival(c) && s' == Counted(c, s, t, b, k) && s.counters[k] == TotalRows(c, s.arrived)
    ensures TakenAccounted(c, s') && ArrivedAccounted(c, s')
  {
    CountMoves(c, s, s', t, b, k);
    if c.rows(b) > 0 {
      TakenLeave(c, s, s', t, b);
      ArrivedEnter(c, s, s', t, b);
    } else {
      TakenStill(c, s, s', t);
      ArrivedStill(c, s, s', t);
    }
  }

  /** What LIMIT's counting changes: a batch with rows arrives, and its piece is then behind LIMIT. */
  lemma CountMoves<B>(c: Config<B>, s: State<B>, s': State<B>, t: nat, b: B, k: nat)
    requires t < |s.tasks| && s.tasks[t] == Running(b, k) && k < |s.counters|
    requires EndsInLimit(c) && k == Arrival(c) && s' == Counted(c, s, t, b, k) && s.counters[k] == TotalRows(c, s.arrived)
    ensures |s'.tasks| == |s.tasks| && s'.tasks == s.tasks[t := s'.tasks[t]] && s'.sunk == s.sunk && Taken(c, s') == Taken(c, s)
    ensures s'.arrived == if c.rows(b) > 0 then s.arrived + [b] else s.arrived
    ensures Held(c, s.tasks[t], true) == None
    ensures c.rows(b) > 0 ==>
              && Held(c, s.tasks[t], false) == Some(b) && Held(c, s'.tasks[t], false) == None
              && Held(c, s'.tasks[t], true) == Piece(c, b, TotalRows(c, s.arrived), LimitOf(c).value)
    ensures c.rows(b) == 0 ==>
              Held(c, s'.tasks[t], false) == Held(c, s.tasks[t], false) && Held(c, s'.tasks[t], true) == Held(c, s.tasks[t], true)
  {
  }

  lemma CountProgress<B(!new)>(c: Config<B>, s: State<B>, s': State<B>, t: nat, b: B, k: nat)
    requires GoodConfig(c) && WellFormed(c, s) && t < |s.tasks| && s.tasks[t] == Running(b, k)
    requires EndsInLimit(c) && k == Arrival(c) && s' == Counted(c, s, t, b, k)
    ensures |s'.tasks| == |s.tasks| && TaskOk(c, s', s'.tasks[t]) && Grows(c, s, s')
    ensures s'.counters[k] == TotalRows(c, s'.arrived)
  {
    CountGrows(c, s, s', t, b, k);
    var n, start := c.stages[k].limit, s.counters[k];
    if start < n && c.rows(b) > n - start {
      assert c.rows(c.clip(b, n - start)) == n - start;
    }
  }

  /** The counter is the number of rows that have arrived, before and after. */
  lemma CountGrows<B>(c: Config<B>, s: State<B>, s': State<B>, t: nat, b: B, k: nat)
    requires WellFormed(c, s) && t < |s.tasks| && EndsInLimit(c) && k == Arrival(c) && s' == Counted(c, s, t, b, k)
    ensures s'.counters[k] == TotalRows(c, s'.arrived) == s.counters[k] + c.rows(b) && Grows(c, s, s')
  {
    TotalRowsSnoc(c, s.arrived, b);
  }

  lemma MarkKeeps<B>(c: Config<B>, s: State<B>, s': State<B>, t: nat, out: Option<B>, k: nat)
    requires Invariant(c, s) && t < |s.tasks| && s.tasks[t] == Marking(out, k) && k < |s.done| && s' == Marked(s, t, out, k)
    ensures Invariant(c, s')
  {
    assert TaskOk(c, s, s.tasks[t]);
    NotYetFinal(c, s, t);
    OthersStayOk(c, s, s', t);
    TakenStill(c, s, s', t);
    ArrivedStill(c, s, s', t);
  }

  lemma CheckKeeps<B>(c: Config<B>, s: State<B>, s': State<B>, t: nat, b: B, k: nat, wrote: bool, seen: bool)
    requires Invariant(c, s) && t < |s.tasks| && s.tasks[t] == Checking(b, k, wrote) && k < |s.done|
    requires MayRead(s, k, wrote, seen) && s' == SetTask(s, t, if seen then Sinking(b) else Running(b, k + 1))
    ensures Invariant(c, s')
  {
    assert TaskOk(c, s, s.tasks[t]);
    NotYetFinal(c, s, t);
    OthersStayOk(c, s, s', t);
    TakenStill(c, s, s', t);
    ArrivedStill(c, s, s', t);
  }

  lemma SinkPieceKeeps<B>(c: Config<B>, s: State<B>, s': State<B>, t: nat, b: B, next: Task<B>)
    requires Invariant(c, s) && t < |s.tasks| && EndsInLimit(c) && c.rows(b) > 0
    requires s.tasks[t] == Running(b, |c.stages|) || s.tasks[t] == Sinking(b)
    requires s' == SetTask(s.(sunk := s.sunk + [Delivery(t, b)]), t, next) && (next == Fetching || next == Exiting)
    requires TaskOk(c, s', next)
    ensures Invariant(c, s')
  {
    SinkPieceStaysOk(c, s, s', t, b, next);
    SinkPieceAccounts(c, s, s', t, b, next);
  }

  lemma SinkPieceStaysOk<B>(c: Config<B>, s: State<B>, s': State<B>, t: nat, b: B, next: Task<B>)
    requires WellFormed(c, s) && t < |s.tasks| && !s.tasks[t].Finished?
    requires s' == SetTask(s.(sunk := s.sunk + [Delivery(t, b)]), t, next) && (next == Fetching || next == Exiting)
    requires TaskOk(c, s', next)
    ensures WellFormed(c, s')
  {
    NotYetFinal(c, s, t);
    OthersStayOk(c, s, s', t);
  }

  lemma SinkPieceAccounts<B>(c: Config<B>, s: State<B>, s': State<B>, t: nat, b: B, next: Task<B>)
    requires TakenAccounted(c, s) && ArrivedAccounted(c, s) && t < |s.tasks| && EndsInLimit(c)
    requires s.tasks[t] == Running(b, |c.stages|) || s.tasks[t] == Sinking(b)
    requires s' == SetTask(s.(sunk := s.sunk + [Delivery(t, b)]), t, next) && (next == Fetching || next == Exiting)
    ensures TakenAccounted(c, s') && ArrivedAccounted(c, s')
  {
    assert Held(c, s.tasks[t], true) == Some(b) && Held(c, s.tasks[t], false).None?;
    assert s'.tasks[t] == next && Held(c, next, true).None? && Held(c, next, false).None?;
    TakenStill(c, s, s', t);
    ArrivedLeave(c, s, s', t, b);
  }

  lemma SinkBatchAccounts<B>(c: Config<B>, s: State<B>, s': State<B>, t: nat, b: B)
    requires TakenAccounted(c, s) && ArrivedAccounted(c, s) && t < |s.tasks| && !EndsInLimit(c) && c.rows(b) > 0
    requires s.tasks[t] == Running(b, |c.stages|)
    requires s' == SetTask(s.(sunk := s.sunk + [Delivery(t, b)], arrived := s.arrived + [b]), t, Fetching)
    ensures TakenAccounted(c, s') && ArrivedAccounted(c, s')
  {
    TakenLeave(c, s, s', t, b);
    ArrivedPass(c, s, s', t, b);
  }

  lemma SinkBatchKeeps<B>(c: Config<B>, s: State<B>, s': State<B>, t: nat, b: B)
    requires Invariant(c, s) && t < |s.tasks| && !EndsInLimit(c) && c.rows(b) > 0
    requires s.tasks[t] == Running(b, |c.stages|)
    requires s' == SetTask(s.(sunk := s.sunk + [Delivery(t, b)], arrived := s.arrived + [b]), t, Fetching)
    ensures Invariant(c, s')
  {
    SinkBatchStaysOk(c, s, s', t, b);
    SinkBatchAccounts(c, s, s', t, b);
  }

  lemma SinkBatchStaysOk<B>(c: Config<B>, s: State<B>, s': State<B>, t: nat, b: B)
    requires WellFormed(c, s) && t < |s.tasks| && !EndsInLimit(c) && !s.tasks[t].Finished?
    requires s' == SetTask(s.(sunk := s.sunk + [Delivery(t, b)], arrived := s.arrived + [b]), t, Fetching)
    ensures WellFormed(c, s')
  {
    NotYetFinal(c, s, t);
    OthersStayOk(c, s, s', t);
  }

  lemma SkipKeeps<B>(c: Config<B>, s: State<B>, s': State<B>, t: nat, b: B)
    requires Invariant(c, s) && t < |s.tasks| && !EndsInLimit(c) && c.rows(b) == 0
    requires s.tasks[t] == Running(b, |c.stages|) && s' == SetTask(s, t, Fetching)
    ensures Invariant(c, s')
  {
    NotYetFinal(c, s, t);
    OthersStayOk(c, s, s', t);
    TakenStill(c, s, s', t);
    ArrivedStill(c, s, s', t);
  }

  lemma SinkKeeps<B>(c: Config<B>, s: State<B>, s': State<B>, t: nat, b: B, next: Task<B>)
    requires Invariant(c, s) && t < |s.tasks| && s' == Sunk(c, s, t, b, next)
    requires (s.tasks[t] == Running(b, |c.stages|) && next == Fetching) || (s.tasks[t] == Sinking(b) && next == Exiting)
    ensures Invariant(c, s')
  {
    assert TaskOk(c, s, s.tasks[t]);
    if EndsInLimit(c) {
      SinkPieceKeeps(c, s, s', t, b, next);
    } else if c.rows(b) > 0 {
      SinkBatchKeeps(c, s, s', t, b);
    } else {
      SkipKeeps(c, s, s', t, b);
    }
  }

  lemma ExitKeeps<B>(c: Config<B>, s: State<B>, s': State<B>, t: nat)
    requires Invariant(c, s) && t < |s.tasks| && s.tasks[t].Exiting?
    requires s' == SetTask(s.(finished := s.finished + 1), t, Finished)
    ensures Invariant(c, s')
  {
    assert TaskOk(c, s, s.tasks[t]);
    NotYetFinal(c, s, t);
    OthersStayOk(c, s, s', t);
    TakenStill(c, s, s', t);
    ArrivedStill(c, s, s', t);
  }

  lemma RunningKeeps<B(!new)>(c: Config<B>, s: State<B>, s': State<B>, t: nat, seen: bool)
    requires GoodConfig(c) && Invariant(c, s) && TaskStep(c, s, s', t, seen) && s.tasks[t].Running?
    ensures Invariant(c, s')
  {
    var b, k := s.tasks[t].batch, s.tasks[t].k;
    StageOfRunning(c, s, t);
    if k >= |c.stages| {
      SinkKeeps(c, s, s', t, b, Fetching);
    } else if c.stages[k].Limit? {
      CountKeeps(c, s, s', t, b, k);
    } else {
      WorkKeeps(c, s, s', t, b, k);
    }
  }

  /** Which stage a running task can be at. */
  lemma StageOfRunning<B(!new)>(c: Config<B>, s: State<B>, t: nat)
    requires GoodConfig(c) && WellFormed(c, s) && t < |s.tasks| && s.tasks[t].Running?
    ensures var k := s.tasks[t].k;
            && k <= |c.stages|
            && (k < |c.stages| && c.stages[k].Limit? ==> EndsInLimit(c) && k == Arrival(c))
            && (k < |c.stages| && c.stages[k].Work? ==> k < Arrival(c))
  {
    assert TaskOk(c, s, s.tasks[t]);
  }

  lemma LimitKeeps<B(!new)>(c: Config<B>, s: State<B>, s': State<B>, t: nat, seen: bool)
    requires GoodConfig(c) && Invariant(c, s) && TaskStep(c, s, s', t, seen)
    requires s.tasks[t].Marking? || s.tasks[t].Checking?
    ensures Invariant(c, s')
  {
    assert TaskOk(c, s, s.tasks[t]);
    match s.tasks[t] {
      case Marking(out, k) => MarkKeeps(c, s, s', t, out, k);
      case Checking(b, k, wrote) => CheckKeeps(c, s, s', t, b, k, wrote, seen);
    }
  }

  /** Every atomic action of every task keeps the invariant. */
  lemma StepKeeps<B(!new)>(c: Config<B>, s: State<B>, s': State<B>, t: nat, seen: bool)
    requires GoodConfig(c) && Invariant(c, s) && TaskStep(c, s, s', t, seen)
    ensures Invariant(c, s')
  {
    assert TaskOk(c, s, s.tasks[t]);
    match s.tasks[t] {
      case Fetching => FetchKeeps(c, s, s', t);
      case Running(_, _) => RunningKeeps(c, s, s', t, seen);
      case Marking(_, _) => LimitKeeps(c, s, s', t, seen);
      case Checking(_, _, _) => LimitKeeps(c, s, s', t, seen);
      case Sinking(b) => SinkKeeps(c, s, s', t, b, Exiting);
      case Exiting => ExitKeeps(c, s, s', t);
    }
  }

  lemma FinalizeKeeps<B>(c: Config<B>, s: State<B>, s': State<B>)
    requires Invariant(c, s) && FinalizeStep(c, s, s')
    ensures Invariant(c, s')
  {
    forall t | 0 <= t < |s'.tasks| ensures TaskOk(c, s', s'.tasks[t]) {
      assert TaskOk(c, s, s.tasks[t]);
    }
  }

  /** The state before the last step of a run. */
  lemma StepReaches<B(!new)>(c: Config<B>, p: State<B>, s: State<B>, n: nat, t: nat, seen: bool)
    requires Reaches(c, p, n) && TaskStep(c, p, s, t, seen)
    ensures Reaches(c, s, n + 1)
  {
    assert Next(c, p, s);
  }

  lemma Predecessor<B(!new)>(c: Config<B>, s: State<B>, n: nat) returns (p: State<B>)
    requires n > 0 && Reaches(c, s, n)
    ensures Reaches(c, p, n - 1) && Next(c, p, s)
  {
    p :| Reaches(c, p, n - 1) && Next(c, p, s);
  }

  lemma KeptFrom<B(!new)>(c: Config<B>, inv: State<B> -> bool, s: State<B>, n: nat) returns (p: State<B>)
    requires Reaches(c, s, n) && n > 0
    requires forall p, q {:trigger inv(p), inv(q)} :: inv(p) && Next(c, p, q) ==> inv(q)
    ensures Reaches(c, p, n - 1) && (inv(p) ==> inv(s))
  {
    p := Predecessor(c, s, n);
  }

  /** What holds at the start and is kept by every step holds in every state of every run. */
  lemma {:induction false} Throughout<B(!new)>(c: Config<B>, inv: State<B> -> bool, s: State<B>, n: nat)
    requires Reaches(c, s, n) && inv(Init(c))
    requires forall p, q {:trigger inv(p), inv(q)} :: inv(p) && Next(c, p, q) ==> inv(q)
    ensures inv(s)
    decreases n
  {
    if n > 0 {
      var p := KeptFrom(c, inv, s, n);
      Throughout(c, inv, p, n - 1);
    }
  }

  /** Which task stepped, unless it was the final step. */
  lemma Stepper<B>(c: Config<B>, p: State<B>, s: State<B>) returns (t: nat, seen: bool)
    requires Next(c, p, s) && !FinalizeStep(c, p, s)
    ensures TaskStep(c, p, s, t, seen)
  {
    t, seen :| TaskStep(c, p, s, t, seen);
  }

  lemma NextKeeps<B(!new)>(c: Config<B>, p: State<B>, s: State<B>)
    requires GoodConfig(c) && Invariant(c, p) && Next(c, p, s)
    ensures Invariant(c, s)
  {
    if FinalizeStep(c, p, s) {
      FinalizeKeeps(c, p, s);
    } else {
      var t, seen := Stepper(c, p, s);
      StepKeeps(c, p, s, t, seen);
    }
  }

  lemma InvariantBack<B(!new)>(c: Config<B>, s: State<B>, n: nat) returns (p: State<B>)
    requires n > 0 && GoodConfig(c) && Reaches(c, s, n)
    ensures Reaches(c, p, n - 1) && (Invariant(c, p) ==> Invariant(c, s))
  {
    p := Predecessor(c, s, n);
    if Invariant(c, p) {
      NextKeeps(c, p, s);
    }
  }

  /** The invariant holds in every state of every run. */
  lemma {:induction false} ReachesInvariant<B(!new)>(c: Config<B>, s: State<B>, n: nat)
    requires GoodConfig(c) && Reaches(c, s, n)
    ensures Invariant(c, s)
    decreases n
  {
    if n == 0 {
      InitInvariant(c);
    } else {
      var p := InvariantBack(c, s, n);
      ReachesInvariant(c, p, n - 1);
    }
  }

  // ----- what a finished run has done -----

  /** Rows of a bag of batches do not depend on the order they are listed in. */
  lemma {:induction false} TotalRowsSubset<B>(c: Config<B>, xs: seq<B>, ys: seq<B>)
    requires multiset(xs) <= multiset(ys)
    ensures TotalRows(c, xs) <= TotalRows(c, ys)
    ensures multiset(xs) == multiset(ys) ==> TotalRows(c, xs) == TotalRows(c, ys)
    decreases |xs|
  {
    if xs != [] {
      var n := |xs| - 1;
      var j := Sequences.DropLastFromBoth(xs, ys);
      TotalRowsSubset(c, xs[..n], ys[..j] + ys[j + 1..]);
      TotalRowsRemove(c, ys, j);
    } else if |ys| > 0 {
      assert ys[0] in multiset(ys);
    }
  }

  lemma {:induction false} TotalRowsRemove<B>(c: Config<B>, ys: seq<B>, j: nat)
    requires j < |ys|
    ensures TotalRows(c, ys) == TotalRows(c, ys[..j] + ys[j + 1..]) + c.rows(ys[j])
    decreases |ys|
  {
    var n := |ys| - 1;
    var rest := ys[..j] + ys[j + 1..];
    if j == n {
      assert rest == ys[..n];
    } else {
      TotalRowsRemove(c, ys[..n], j);
      assert rest[..n - 1] == ys[..n][..j] + ys[..n][j + 1..];
      assert rest[n - 1] == ys[n];
    }
  }

  /** The pieces tile [0, min(limit, counted)): together they hold exactly that many rows. */
  lemma {:induction false} PiecesTile<B(!new)>(c: Config<B>, bs: seq<B>)
    requires GoodConfig(c) && EndsInLimit(c)
    ensures var n, total := LimitOf(c).value, TotalRows(c, bs);
            TotalRows(c, Pieces(c, bs)) == if total < n then total else n
    decreases |bs|
  {
    if bs != [] {
      var front, b := bs[..|bs| - 1], bs[|bs| - 1];
      PiecesTile(c, front);
      Sequences.SplitLast(bs);
      PiecesSnoc(c, front, b);
      TotalRowsSnoc(c, front, b);
      PieceRows(c, Pieces(c, front), b, TotalRows(c, front), LimitOf(c).value);
    }
  }

  lemma PieceRows<B(!new)>(c: Config<B>, pieces: seq<B>, b: B, start: nat, n: nat)
    requires GoodConfig(c)
    ensures TotalRows(c, pieces + Listed(Piece(c, b, start, n)))
         == TotalRows(c, pieces) + if start >= n then 0 else if c.rows(b) <= n - start then c.rows(b) else n - start
  {
    var piece := Piece(c, b, start, n);
    if piece.Some? {
      TotalRowsSnoc(c, pieces, piece.value);
      assert c.rows(b) > n - start ==> c.rows(c.clip(b, n - start)) == n - start;
    } else {
      Sequences.Empties(pieces);
    }
  }

  lemma {:induction false} SurvivorsPrefix<B>(c: Config<B>, i: nat, j: nat)
    requires i <= j <= |c.supply|
    ensures Survivors(c, i) <= Survivors(c, j)
    decreases j
  {
    if i < j {
      SurvivorsPrefix(c, i, j - 1);
    }
  }

  /**
   A finalized pipeline has sunk exactly the pieces of the batches that arrived, each once; the arrivals are all
   that the source's batches leave, unless LIMIT was covered by some of them.
   */
  lemma FinishedRun<B(!new)>(c: Config<B>, s: State<B>, n: nat)
    requires GoodConfig(c) && Reaches(c, s, n) && s.finalized
    ensures forall t :: 0 <= t < |s.tasks| ==> s.tasks[t].Finished?
    ensures multiset(SunkBatches(s.sunk)) == multiset(Pieces(c, s.arrived))
    ensures multiset(s.arrived) <= multiset(Survivors(c, |c.supply|))
    ensures c.threads > 0 ==> Covered(c, s) || multiset(s.arrived) == multiset(Survivors(c, |c.supply|))
  {
    ReachesInvariant(c, s, n);
    CountFinishedAll(s.tasks);
    forall t | 0 <= t < |s.tasks| ensures Held(c, s.tasks[t], false).None? && Held(c, s.tasks[t], true).None? {
      assert s.tasks[t].Finished?;
    }
    InFlightEmpty(c, s.tasks, false);
    InFlightEmpty(c, s.tasks, true);
    SurvivorsPrefix(c, Taken(c, s), |c.supply|);
    Sequences.PrefixBag(Survivors(c, Taken(c, s)), Survivors(c, |c.supply|));
    if c.threads > 0 {
      assert TaskOk(c, s, s.tasks[0]);
    }
  }

  /** Under every interleaving a finished pipeline has sunk min(limit, rows that reach LIMIT) rows. */
  lemma FinishedRowCount<B(!new)>(c: Config<B>, s: State<B>, n: nat)
    requires GoodConfig(c) && Reaches(c, s, n) && s.finalized && c.threads > 0
    ensures var all := TotalRows(c, Survivors(c, |c.supply|));
            TotalRows(c, SunkBatches(s.sunk))
            == if EndsInLimit(c) && LimitOf(c).value < all then LimitOf(c).value else all
  {
    FinishedRun(c, s, n);
    TotalRowsSubset(c, SunkBatches(s.sunk), Pieces(c, s.arrived));
    TotalRowsSubset(c, s.arrived, Survivors(c, |c.supply|));
    if EndsInLimit(c) {
      PiecesTile(c, s.arrived);
    }
  }

  // ----- who touches what -----

  /** The batches task `u` sank, in order: what the sink's thread state u has seen. */
  ghost function Lane<B>(ds: seq<Delivery<B>>, u: nat): seq<B> {
    if ds == [] then []
    else Lane(ds[..|ds| - 1], u) + (if ds[|ds| - 1].thread == u then [ds[|ds| - 1].batch] else [])
  }

  /** A step of task t leaves every other task and every other thread's lane alone, before finalization. */
  lemma StepTouchesOwnLane<B(!new)>(c: Config<B>, s: State<B>, s': State<B>, t: nat, seen: bool, u: nat)
    requires WellFormed(c, s) && TaskStep(c, s, s', t, seen) && u != t && u < |s.tasks|
    ensures !s.finalized && |s'.tasks| == |s.tasks| && s'.tasks[u] == s.tasks[u]
    ensures Lane(s'.sunk, u) == Lane(s.sunk, u)
  {
    NotYetFinal(c, s, t);
    if s'.sunk != s.sunk {
      assert s'.sunk[..|s.sunk|] == s.sunk;
    }
  }

  // ----- termination and progress -----

  ghost function Weight<B>(c: Config<B>, task: Task<B>): nat {
    var left := (k: nat) => if k < |c.stages| then 3 * (|c.stages| - k) else 0;
    match task
    case Fetching => 2
    case Running(_, k) => 4 + left(k)
    case Marking(_, k) => 3 + left(k)
    case Checking(_, k, _) => 2 + left(k)
    case Sinking(_) => 3
    case Exiting => 1
    case Finished => 0
    case Faulted => 0
  }

  ghost function TotalWeight<B>(c: Config<B>, tasks: seq<Task<B>>): nat {
    if tasks == [] then 0 else Weight(c, tasks[0]) + TotalWeight(c, tasks[1..])
  }

  lemma {:induction false} TotalWeightUpdate<B>(c: Config<B>, tasks: seq<Task<B>>, t: nat, task: Task<B>)
    requires t < |tasks|
    ensures TotalWeight(c, tasks[t := task]) + Weight(c, tasks[t]) == TotalWeight(c, tasks) + Weight(c, task)
  {
    if t == 0 {
      assert tasks[t := task][1..] == tasks[1..];
    } else {
      TotalWeightUpdate(c, tasks[1..], t - 1, task);
      assert tasks[t := task][1..] == tasks[1..][t - 1 := task];
    }
  }

  ghost function Times(n: nat, per: nat): nat {
    if n == 0 then 0 else Times(n - 1, per) + per
  }

  /** Steps left: batches not yet taken, where each one in flight is, the final step. */
  ghost function Measure<B>(c: Config<B>, s: State<B>): nat {
    Times(|c.supply| - Taken(c, s), 3 + 3 * |c.stages|) + TotalWeight(c, s.tasks) + (if s.finalized then 0 else 1)
  }

  /** Every step of every run brings it closer to its end. */
  lemma StepDecreases<B>(c: Config<B>, s: State<B>, s': State<B>)
    requires Next(c, s, s')
    ensures Measure(c, s') < Measure(c, s)
  {
    if !FinalizeStep(c, s, s') {
      var t, seen := Stepper(c, s, s');
      TaskStepDecreases(c, s, s', t, seen);
    }
  }

  lemma TaskStepDecreases<B>(c: Config<B>, s: State<B>, s': State<B>, t: nat, seen: bool)
    requires TaskStep(c, s, s', t, seen)
    ensures Measure(c, s') < Measure(c, s)
  {
    TaskStepWeight(c, s, s', t, seen);
    TotalWeightUpdate(c, s.tasks, t, s'.tasks[t]);
    Decreases(|c.supply| - Taken(c, s), |c.supply| - Taken(c, s'), 3 + 3 * |c.stages|, TotalWeight(c, s.tasks),
              TotalWeight(c, s'.tasks), Weight(c, s.tasks[t]), Weight(c, s'.tasks[t]));
  }

  lemma Decreases(left: nat, left': nat, per: nat, sum: int, sum': int, w: int, w': int)
    requires sum' + w == sum + w'
    requires (left' == left && w' < w) || (left' == left - 1 && w' < w + per)
    ensures Times(left', per) + sum' < Times(left, per) + sum
  {
  }

  /** What one action does to the quantities of the measure. */
  lemma TaskStepWeight<B>(c: Config<B>, s: State<B>, s': State<B>, t: nat, seen: bool)
    requires TaskStep(c, s, s', t, seen)
    ensures |s'.tasks| == |s.tasks| && s'.tasks == s.tasks[t := s'.tasks[t]] && s'.finalized == s.finalized
    ensures if s.tasks[t].Fetching? && s.cursor < |c.supply|
            then Taken(c, s') == Taken(c, s) + 1 && Weight(c, s'.tasks[t]) < Weight(c, s.tasks[t]) + 3 + 3 * |c.stages|
            else Taken(c, s') == Taken(c, s) && Weight(c, s'.tasks[t]) < Weight(c, s.tasks[t])
  {
  }

  /** No run is longer than the measure of its start. */
  lemma {:induction false} RunsAreBounded<B(!new)>(c: Config<B>, s: State<B>, n: nat)
    requires Reaches(c, s, n)
    ensures n + Measure(c, s) <= Measure(c, Init(c))
    decreases n
  {
    if n > 0 {
      var p := LargerBefore(c, s, n);
      RunsAreBounded(c, p, n - 1);
    }
  }

  lemma LargerBefore<B(!new)>(c: Config<B>, s: State<B>, n: nat) returns (p: State<B>)
    requires n > 0 && Reaches(c, s, n)
    ensures Reaches(c, p, n - 1) && Measure(c, s) < Measure(c, p)
  {
    p := Predecessor(c, s, n);
    StepDecreases(c, p, s);
  }

  /** As long as no task has faulted, an unfinished run has a next step: tasks never wait for each other. */
  lemma NoDeadlock<B(!new)>(c: Config<B>, s: State<B>)
    requires GoodConfig(c) && Invariant(c, s) && !s.finalized
    requires forall t :: 0 <= t < |s.tasks| ==> !s.tasks[t].Faulted?
    ensures exists s' :: Next(c, s, s')
  {
    CountFinishedAll(s.tasks);
    if s.finished == c.threads {
      assert FinalizeStep(c, s, s.(finalized := true));
      assert Next(c, s, s.(finalized := true));
    } else {
      var t :| 0 <= t < |s.tasks| && !s.tasks[t].Finished?;
      assert TaskOk(c, s, s.tasks[t]);
      var s' := NextOf(c, s, t);
      assert Next(c, s, s');
    }
  }

  /** A step task t can take now. */
  lemma NextOf<B>(c: Config<B>, s: State<B>, t: nat) returns (s': State<B>)
    requires WellFormed(c, s) && t < |s.tasks| && !s.tasks[t].Finished? && !s.tasks[t].Faulted?
    requires TaskOk(c, s, s.tasks[t])
    ensures exists seen :: TaskStep(c, s, s', t, seen)
  {
    match s.tasks[t] {
      case Fetching => s' := Fetch(c, s, t);
      case Running(b, k) =>
        if k >= |c.stages| { s' := Sunk(c, s, t, b, Fetching); }
        else if c.stages[k].Limit? { s' := Counted(c, s, t, b, k); }
        else { s' := SetTask(s, t, AfterWork(c, c.stages[k].effect(b), k)); }
      case Marking(out, k) => s' := Marked(s, t, out, k);
      case Checking(b, k, wrote) => s' := SetTask(s, t, if wrote then Sinking(b) else Running(b, k + 1));
      case Sinking(b) => s' := Sunk(c, s, t, b, Exiting);
      case Exiting => s' := SetTask(s.(finished := s.finished + 1), t, Finished);
    }
    var seen := s.tasks[t].Checking? && s.tasks[t].wrote;
    assert TaskStep(c, s, s', t, seen);
  }

  // ----- faults -----

  /** The batch goes through the stages from k on without a fault. */
  ghost predicate Safe<B>(c: Config<B>, b: B, k: nat)
    decreases |c.stages| - k
  {
    k >= |c.stages| || c.stages[k].Limit? ||
    match c.stages[k].effect(b)
    case Fault => false
    case Null => true
    case Out(r) => c.rows(r) == 0 || Safe(c, r, k + 1)
  }

  ghost predicate NoFaults<B>(c: Config<B>, s: State<B>) {
    forall t :: 0 <= t < |s.tasks| ==> !s.tasks[t].Faulted? && (s.tasks[t].Running? ==> Safe(c, s.tasks[t].batch, s.tasks[t].k))
  }

  lemma SafeStep<B>(c: Config<B>, p: State<B>, s: State<B>, t: nat, seen: bool)
    requires TaskStep(c, p, s, t, seen) && TaskOk(c, p, p.tasks[t]) && NoFaults(c, p)
    requires forall k :: 0 <= k < |c.stages| - 1 ==> c.stages[k].Work?
    requires forall i :: 0 <= i < |c.supply| ==> Safe(c, c.supply[i], 0)
    ensures NoFaults(c, s)
  {
    assert s.tasks == p.tasks[t := s.tasks[t]];
    assert p.tasks[t].Running? ==> Safe(c, p.tasks[t].batch, p.tasks[t].k);
  }

  lemma SafeNext<B(!new)>(c: Config<B>, p: State<B>, s: State<B>)
    requires GoodConfig(c) && Invariant(c, p) && NoFaults(c, p) && Next(c, p, s)
    requires forall i :: 0 <= i < |c.supply| ==> Safe(c, c.supply[i], 0)
    ensures Invariant(c, s) && NoFaults(c, s)
  {
    NextKeeps(c, p, s);
    if !FinalizeStep(c, p, s) {
      var t, seen := Stepper(c, p, s);
      assert TaskOk(c, p, p.tasks[t]);
      SafeStep(c, p, s, t, seen);
    }
  }

  /** If every batch of the source is safe, no task of any run faults. */
  lemma SafeSupplyNeverFaults<B(!new)>(c: Config<B>, s: State<B>, n: nat)
    requires GoodConfig(c) && Reaches(c, s, n)
    requires forall i :: 0 <= i < |c.supply| ==> Safe(c, c.supply[i], 0)
    ensures NoFaults(c, s)
  {
    var inv := (s: State<B>) => Invariant(c, s) && NoFaults(c, s);
    InitInvariant(c);
    assert NoFaults(c, Init(c));
    forall p, q | inv(p) && Next(c, p, q) ensures inv(q) {
      SafeNext(c, p, q);
    }
    Throughout(c, inv, s, n);
  }

  // ----- every run can be completed -----

  ghost predicate SafeSupply<B>(c: Config<B>) {
    forall i :: 0 <= i < |c.supply| ==> Safe(c, c.supply[i], 0)
  }

  /** Before the end some task can act, or all have finished. */
  lemma Ready<B(!new)>(c: Config<B>, s: State<B>, n: nat)
    requires GoodConfig(c) && SafeSupply(c) && Reaches(c, s, n) && !s.finalized
    ensures WellFormed(c, s) && NoFaults(c, s)
    ensures s.finished == c.threads || exists t :: 0 <= t < |s.tasks| && !s.tasks[t].Finished?
    ensures exists s' :: Next(c, s, s')
  {
    ReachesInvariant(c, s, n);
    SafeSupplyNeverFaults(c, s, n);
    CountFinishedAll(s.tasks);
    NoDeadlock(c, s);
  }

  lemma OneMore<B(!new)>(c: Config<B>, s: State<B>, s': State<B>, n: nat)
    requires Reaches(c, s, n) && Next(c, s, s')
    ensures Reaches(c, s', n + 1) && Measure(c, s') < Measure(c, s)
  {
    StepDecreases(c, s, s');
  }

  lemma StepOn<B(!new)>(c: Config<B>, s: State<B>, n: nat) returns (s': State<B>)
    requires GoodConfig(c) && SafeSupply(c) && Reaches(c, s, n) && !s.finalized
    ensures Reaches(c, s', n + 1) && Measure(c, s') < Measure(c, s)
  {
    Ready(c, s, n);
    s' :| Next(c, s, s');
    OneMore(c, s, s', n);
  }

  /** Whatever has happened so far, a run over a safe source can be carried on to its end. */
  lemma {:induction false} Completes<B(!new)>(c: Config<B>, s: State<B>, n: nat) returns (end: State<B>, m: nat)
    requires GoodConfig(c) && SafeSupply(c) && Reaches(c, s, n)
    ensures Reaches(c, end, m) && end.finalized
    decreases Measure(c, s)
  {
    if s.finalized {
      end, m := s, n;
    } else {
      var s' := StepOn(c, s, n);
      end, m := Completes(c, s', n + 1);
    }
  }
}
