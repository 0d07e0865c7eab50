/**
 ThreadPool (src/utils/ThreadPool.h) as a state machine: workers that take the newest task of a shared vector, an owner
 that enqueues and then destroys the pool, and tasks that may themselves enqueue.  Each step is one critical section or
 the end of one task, so a run is any interleaving.
 */
module ThreadPools {

  /** Tasks are numbered in the order in which they are enqueued. */
  datatype Worker = Waiting | Running(task: nat) | Returned

  /** The owner still uses the pool, or is in the destructor and has joined the first workers. */
  datatype Owner = Using | Joining(joined: nat)

  datatype State = State(
    queue: seq<nat>,
    stop: bool,
    workers: seq<Worker>,
    owner: Owner,
    issued: nat,
    executed: seq<nat>)

  datatype Step = Enqueue | EnqueueFrom(w: nat) | Take(w: nat) | Finish(w: nat) | Leave(w: nat) | Stop | Join

  ghost function Init(threads: nat): State {
    State([], false, seq(threads, _ => Waiting), Using, 0, [])
  }

  /** The destructor has returned. */
  ghost predicate Destroyed(s: State) {
    s.owner == Joining(|s.workers|)
  }

  ghost predicate Enabled(s: State, step: Step) {
    match step
    case Enqueue => s.owner.Using?
    case EnqueueFrom(w) => w < |s.workers| && s.workers[w].Running?
    case Take(w) => w < |s.workers| && s.workers[w].Waiting? && s.queue != []
    case Finish(w) => w < |s.workers| && s.workers[w].Running?
    case Leave(w) => w < |s.workers| && s.workers[w].Waiting? && s.stop && s.queue == []
    case Stop => s.owner.Using?
    case Join => s.owner.Joining? && s.owner.joined < |s.workers| && s.workers[s.owner.joined].Returned?
  }

  ghost function After(s: State, step: Step): State
    requires Enabled(s, step)
  {
    match step
    case Enqueue | EnqueueFrom(_) => s.(queue := s.queue + [s.issued], issued := s.issued + 1)
    case Take(w) =>
      var n := |s.queue| - 1;
      s.(queue := s.queue[..n], workers := s.workers[w := Running(s.queue[n])])
    case Finish(w) => s.(workers := s.workers[w := Waiting], executed := s.executed + [s.workers[w].task])
    case Leave(w) => s.(workers := s.workers[w := Returned])
    case Stop => s.(stop := true, owner := Joining(0))
    case Join => s.(owner := Joining(s.owner.joined + 1))
  }

  /** The steps can be taken one after the other. */
  ghost predicate Possible(threads: nat, steps: seq<Step>)
    decreases |steps|, 0
  {
    steps == [] ||
    (Possible(threads, steps[..|steps| - 1]) && Enabled(Reached(threads, steps[..|steps| - 1]), steps[|steps| - 1]))
  }

  ghost function Reached(threads: nat, steps: seq<Step>): State
    requires Possible(threads, steps)
    decreases |steps|, 1
  {
    if steps == [] then Init(threads)
    else After(Reached(threads, steps[..|steps| - 1]), steps[|steps| - 1])
  }

  // ----- where tasks are -----

  ghost function InHand(w: Worker, x: nat): nat {
    if w == Running(x) then 1 else 0
  }

  /** The workers that are executing task x. */
  ghost function Hands(workers: seq<Worker>, x: nat): nat {
    if workers == [] then 0 else Hands(workers[..|workers| - 1], x) + InHand(workers[|workers| - 1], x)
  }

  lemma {:induction false} HandsUpdate(workers: seq<Worker>, w: nat, v: Worker, x: nat)
    requires w < |workers|
    ensures Hands(workers[w := v], x) + InHand(workers[w], x) == Hands(workers, x) + InHand(v, x)
    decreases |workers|
  {
    var n := |workers| - 1;
    if w < n {
      HandsUpdate(workers[..n], w, v, x);
      assert workers[w := v][..n] == workers[..n][w := v];
    } else {
      assert workers[w := v][..n] == workers[..n];
    }
  }

  lemma {:induction false} NothingInHand(workers: seq<Worker>, x: nat)
    requires forall w :: 0 <= w < |workers| ==> !workers[w].Running?
    ensures Hands(workers, x) == 0
  {
    if workers != [] {
      NothingInHand(workers[..|workers| - 1], x);
    }
  }

  /** In how many places task x is: the vector, a worker's hand, the list of executed tasks. */
  ghost function Places(s: State, x: nat): nat {
    multiset(s.queue)[x] + Hands(s.workers, x) + multiset(s.executed)[x]
  }

  // ----- the invariant -----

  ghost predicate AllReturned(workers: seq<Worker>) {
    forall w :: 0 <= w < |workers| ==> workers[w].Returned?
  }

  ghost predicate Phases(s: State) {
    && (s.owner.Joining? <==> s.stop)
    && (forall w :: 0 <= w < |s.workers| && s.workers[w].Returned? ==> s.stop)
    && (s.owner.Joining? ==>
          s.owner.joined <= |s.workers| && forall w :: 0 <= w < s.owner.joined ==> s.workers[w].Returned?)
    && (s.workers != [] && AllReturned(s.workers) ==> s.queue == [])
  }

  lemma TakenPlaces(s: State, w: nat, x: nat)
    requires Enabled(s, Take(w))
    ensures Places(After(s, Take(w)), x) == Places(s, x)
  {
    var n := |s.queue| - 1;
    assert s.queue == s.queue[..n] + [s.queue[n]];
    HandsUpdate(s.workers, w, Running(s.queue[n]), x);
  }

  /** Only enqueueing puts a task anywhere, and only the new one. */
  lemma PlacesKept(s: State, step: Step, x: nat)
    requires Enabled(s, step)
    ensures Places(After(s, step), x) == Places(s, x) + if (step.Enqueue? || step.EnqueueFrom?) && x == s.issued then 1 else 0
  {
    match step {
      case Enqueue =>
      case EnqueueFrom(_) =>
      case Take(w) => TakenPlaces(s, w, x);
      case Finish(w) => HandsUpdate(s.workers, w, Waiting, x);
      case Leave(w) => HandsUpdate(s.workers, w, Returned, x);
      case Stop =>
      case Join =>
    }
  }

  lemma PhasesKept(s: State, step: Step)
    requires Phases(s) && Enabled(s, step)
    ensures Phases(After(s, step))
  {
    var s' := After(s, step);
    match step {
      case Enqueue => assert s.workers != [] ==> !s.workers[0].Returned?;
      case EnqueueFrom(w) => assert !s.workers[w].Returned?;
      case Take(w) => assert !s'.workers[w].Returned?;
      case Finish(w) => assert !s'.workers[w].Returned?;
      case Leave(_) =>
      case Stop =>
      case Join =>
    }
  }

  lemma {:induction false} Kept(threads: nat, steps: seq<Step>)
    requires Possible(threads, steps)
    ensures Phases(Reached(threads, steps)) && |Reached(threads, steps).workers| == threads
    decreases |steps|
  {
    if steps != [] {
      var n := |steps| - 1;
      Kept(threads, steps[..n]);
      PhasesKept(Reached(threads, steps[..n]), steps[n]);
    }
  }

  // ----- what every run gives -----

  /** At every moment each task enqueued so far is in exactly one place: never lost, never executed twice. */
  lemma {:induction false} OnePlace(threads: nat, steps: seq<Step>, x: nat)
    requires Possible(threads, steps)
    ensures Places(Reached(threads, steps), x) == if x < Reached(threads, steps).issued then 1 else 0
    decreases |steps|
  {
    if steps == [] {
      NothingInHand(Init(threads).workers, x);
    } else {
      var n := |steps| - 1;
      OnePlace(threads, steps[..n], x);
      PlacesKept(Reached(threads, steps[..n]), steps[n], x);
    }
  }

  /** Every task enqueued has been executed once. */
  ghost predicate AllExecutedOnce(s: State) {
    forall x: nat :: multiset(s.executed)[x] == if x < s.issued then 1 else 0
  }

  /**
   When the destructor has returned, every task has been executed exactly once: exactly when the pool has a worker
   or was given no task.
   */
  lemma EveryTaskOnce(threads: nat, steps: seq<Step>)
    requires Possible(threads, steps) && Destroyed(Reached(threads, steps))
    ensures AllExecutedOnce(Reached(threads, steps)) <==> threads > 0 || Reached(threads, steps).issued == 0
  {
    var s := Reached(threads, steps);
    Kept(threads, steps);
    if threads == 0 {
      NothingExecuted(steps);
      assert multiset(s.executed)[0] == 0;
    } else {
      forall x: nat ensures multiset(s.executed)[x] == if x < s.issued then 1 else 0 {
        OnePlace(threads, steps, x);
        NothingInHand(s.workers, x);
      }
    }
  }

  lemma {:induction false} NothingExecuted(steps: seq<Step>)
    requires Possible(0, steps)
    ensures Reached(0, steps).executed == [] && Reached(0, steps).workers == []
    decreases |steps|
  {
    if steps != [] {
      NothingExecuted(steps[..|steps| - 1]);
    }
  }

  // ----- the destructor returns -----

  /**
   As long as the destructor has not returned, some step can be taken that does not enqueue: the owner can begin to
   destroy the pool, and then a worker can take, finish or leave, or the owner can join one.
   */
  lemma NotStuck(threads: nat, steps: seq<Step>) returns (step: Step)
    requires Possible(threads, steps) && !Destroyed(Reached(threads, steps))
    ensures Enabled(Reached(threads, steps), step) && !step.Enqueue? && !step.EnqueueFrom?
    ensures Reached(threads, steps).owner.Using? <==> step.Stop?
  {
    var s := Reached(threads, steps);
    Kept(threads, steps);
    if s.owner.Using? {
      step := Stop;
    } else {
      var w := s.owner.joined;
      match s.workers[w] {
        case Returned => step := Join;
        case Running(_) => step := Finish(w);
        case Waiting => step := if s.queue == [] then Leave(w) else Take(w);
      }
    }
  }

  ghost function WorkerWeight(w: Worker): nat {
    match w
    case Running(_) => 2
    case Waiting => 1
    case Returned => 0
  }

  ghost function Weights(workers: seq<Worker>): nat {
    if workers == [] then 0 else Weights(workers[..|workers| - 1]) + WorkerWeight(workers[|workers| - 1])
  }

  lemma {:induction false} WeightsUpdate(workers: seq<Worker>, w: nat, x: Worker)
    requires w < |workers|
    ensures Weights(workers[w := x]) + WorkerWeight(workers[w]) == Weights(workers) + WorkerWeight(x)
    decreases |workers|
  {
    var n := |workers| - 1;
    if w < n {
      WeightsUpdate(workers[..n], w, x);
      assert workers[w := x][..n] == workers[..n][w := x];
    } else {
      assert workers[w := x][..n] == workers[..n];
    }
  }

  lemma {:induction false} WaitingWeights(threads: nat)
    ensures Weights(seq(threads, _ => Waiting)) == threads
  {
    if threads > 0 {
      WaitingWeights(threads - 1);
      assert seq(threads, _ => Waiting)[..threads - 1] == seq(threads - 1, _ => Waiting);
    }
  }

  /** What is left to do: three for a task that waits, the workers' weights, and the owner's steps. */
  ghost function Measure(s: State): int {
    3 * |s.queue| + Weights(s.workers) + if s.owner.Using? then |s.workers| + 1 else |s.workers| - s.owner.joined
  }

  ghost function Enqueues(steps: seq<Step>): nat {
    if steps == [] then 0
    else
      var last := steps[|steps| - 1];
      Enqueues(steps[..|steps| - 1]) + if last.Enqueue? || last.EnqueueFrom? then 1 else 0
  }

  lemma MeasureDrops(s: State, step: Step)
    requires Enabled(s, step)
    ensures Measure(After(s, step)) <= Measure(s) + if step.Enqueue? || step.EnqueueFrom? then 3 else -1
  {
    match step {
      case Enqueue =>
      case EnqueueFrom(_) =>
      case Take(w) => WeightsUpdate(s.workers, w, Running(s.queue[|s.queue| - 1]));
      case Finish(w) => WeightsUpdate(s.workers, w, Waiting);
      case Leave(w) => WeightsUpdate(s.workers, w, Returned);
      case Stop =>
      case Join =>
    }
  }

  /** A run with finitely many tasks is finite: its length is bounded by the number of threads and tasks. */
  lemma {:induction false} RunsAreBounded(threads: nat, steps: seq<Step>)
    requires Possible(threads, steps)
    ensures |steps| + Measure(Reached(threads, steps)) <= 2 * threads + 1 + 4 * Enqueues(steps)
    ensures Measure(Reached(threads, steps)) >= 0
    decreases |steps|
  {
    Kept(threads, steps);
    if steps == [] {
      WaitingWeights(threads);
    } else {
      var n := |steps| - 1;
      RunsAreBounded(threads, steps[..n]);
      MeasureDrops(Reached(threads, steps[..n]), steps[n]);
    }
  }
}
