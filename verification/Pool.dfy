/**
 The plain worker pool that validates resources without dependencies, and that runs the discovery
 entries: a feeder, some workers whose steps interleave freely, and a closer.
 */
module Pool {
  import opened Seqs

  datatype Worker<T> = Idle | Exited | Running(item: T) | Sending(item: T)

  // out lists the items whose results have been sent; the results are a function of the item.
  datatype State<T> = State(
    queue: seq<T>, closedIn: bool, workers: seq<Worker<T>>, out: seq<T>, closedOut: bool)

  datatype Action = Take(w: nat) | Finish(w: nat) | Send(w: nat) | CloseIn | Exit(w: nat) | CloseOut

  function Init<T>(items: seq<T>, workers: nat): State<T> {
    State(items, false, seq(workers, _ => Idle), [], false)
  }

  ghost predicate AllExited<T>(workers: seq<Worker<T>>) {
    forall w :: 0 <= w < |workers| ==> workers[w].Exited?
  }

  ghost predicate Enabled<T>(s: State<T>, a: Action) {
    match a
    case Take(w) => w < |s.workers| && s.workers[w].Idle? && s.queue != []
    case Finish(w) => w < |s.workers| && s.workers[w].Running?
    case Send(w) => w < |s.workers| && s.workers[w].Sending?
    case CloseIn => s.queue == [] && !s.closedIn
    case Exit(w) => w < |s.workers| && s.workers[w].Idle? && s.closedIn
    case CloseOut => AllExited(s.workers) && !s.closedOut
  }

  function Apply<T>(s: State<T>, a: Action): State<T>
    requires Enabled(s, a)
  {
    match a
    case Take(w) => s.(queue := s.queue[1..], workers := s.workers[w := Running(s.queue[0])])
    case Finish(w) => s.(workers := s.workers[w := Sending(s.workers[w].item)])
    case Send(w) => s.(workers := s.workers[w := Idle], out := s.out + [s.workers[w].item])
    case CloseIn => s.(closedIn := true)
    case Exit(w) => s.(workers := s.workers[w := Exited])
    case CloseOut => s.(closedOut := true)
  }

  ghost predicate Step<T(!new)>(s: State<T>, t: State<T>) {
    exists a :: Enabled(s, a) && Apply(s, a) == t
  }

  ghost predicate IsRun<T(!new)>(items: seq<T>, workers: nat, trace: seq<State<T>>) {
    && trace != [] && trace[0] == Init(items, workers)
    && forall i :: 0 <= i < |trace| - 1 ==> Step(trace[i], trace[i + 1])
  }

  // ---------- the invariant ----------

  ghost predicate Holds<T>(worker: Worker<T>, x: T) {
    (worker.Running? || worker.Sending?) && worker.item == x
  }

  ghost function Held<T>(workers: seq<Worker<T>>, x: T): nat {
    Sum(workers, Holding(x))
  }

  ghost function Holding<T>(x: T): Worker<T> -> nat {
    worker => One(Holds(worker, x))
  }

  ghost predicate Counted<T>(items: seq<T>, s: State<T>, x: T) {
    multiset(s.queue)[x] + Held(s.workers, x) + multiset(s.out)[x] == multiset(items)[x]
  }

  ghost predicate Inv<T(!new)>(items: seq<T>, workers: nat, s: State<T>) {
    && (forall x :: Counted(items, s, x))
    && |s.workers| == workers
    && (s.closedIn ==> s.queue == [])
    && (forall w :: 0 <= w < |s.workers| && s.workers[w].Exited? ==> s.closedIn)
    && (s.closedOut ==> AllExited(s.workers))
  }

  lemma HeldUpdate<T>(workers: seq<Worker<T>>, w: nat, worker: Worker<T>, x: T)
    requires w < |workers|
    ensures Held(workers[w := worker], x) + One(Holds(workers[w], x)) == Held(workers, x) + One(Holds(worker, x))
  {
    SumUpdate(workers, w, worker, Holding(x));
  }

  lemma {:induction false} NoneHeld<T>(workers: seq<Worker<T>>, x: T)
    requires forall w :: 0 <= w < |workers| ==> workers[w].Idle? || workers[w].Exited?
    ensures Held(workers, x) == 0
  {
    if workers != [] {
      NoneHeld(workers[..|workers| - 1], x);
    }
  }

  lemma QueuePop<T>(queue: seq<T>, x: T)
    requires queue != []
    ensures multiset(queue)[x] == One(queue[0] == x) + multiset(queue[1..])[x]
  {
    assert queue == [queue[0]] + queue[1..];
  }

  lemma CountedTake<T>(items: seq<T>, s: State<T>, w: nat, x: T)
    requires Counted(items, s, x) && Enabled(s, Take(w))
    ensures Counted(items, Apply(s, Take(w)), x)
  {
    QueuePop(s.queue, x);
    HeldUpdate(s.workers, w, Running(s.queue[0]), x);
  }

  lemma CountedSend<T>(items: seq<T>, s: State<T>, w: nat, x: T)
    requires Counted(items, s, x) && Enabled(s, Send(w))
    ensures Counted(items, Apply(s, Send(w)), x)
  {
    HeldUpdate(s.workers, w, Idle, x);
    assert multiset(s.out + [s.workers[w].item]) == multiset(s.out) + multiset{s.workers[w].item};
  }

  lemma CountedKept<T>(items: seq<T>, s: State<T>, a: Action, x: T)
    requires Counted(items, s, x) && Enabled(s, a)
    ensures Counted(items, Apply(s, a), x)
  {
    match a {
      case Take(w) => CountedTake(items, s, w, x);
      case Finish(w) => HeldUpdate(s.workers, w, Sending(s.workers[w].item), x);
      case Send(w) => CountedSend(items, s, w, x);
      case Exit(w) => HeldUpdate(s.workers, w, Exited, x);
      case _ =>
    }
  }

  lemma StepKeeps<T(!new)>(items: seq<T>, workers: nat, s: State<T>, a: Action)
    requires Inv(items, workers, s) && Enabled(s, a) && workers >= 1
    ensures Inv(items, workers, Apply(s, a))
  {
    forall x
      ensures Counted(items, Apply(s, a), x)
    {
      CountedKept(items, s, a, x);
    }
    if a.CloseOut? {
      assert s.workers[0].Exited?;
    }
  }

  // ---------- the measure ----------

  function Weight<T>(worker: Worker<T>): nat {
    match worker
    case Exited => 0
    case Idle => 1
    case Sending(_) => 2
    case Running(_) => 3
  }

  function Weights<T>(workers: seq<Worker<T>>): nat {
    Sum(workers, Weight)
  }

  lemma {:induction false} IdleWeights<T>(workers: seq<Worker<T>>)
    requires forall w :: 0 <= w < |workers| ==> workers[w].Idle?
    ensures Weights(workers) == |workers|
  {
    if workers != [] {
      IdleWeights(workers[..|workers| - 1]);
    }
  }

  function Measure<T>(s: State<T>): nat {
    3 * |s.queue| + Weights(s.workers) + (if s.closedIn then 0 else 1) + (if s.closedOut then 0 else 1)
  }

  lemma StepShrinks<T>(s: State<T>, a: Action)
    requires Enabled(s, a)
    ensures Measure(Apply(s, a)) < Measure(s)
  {
    match a {
      case Take(w) => SumUpdate(s.workers, w, Running(s.queue[0]), Weight);
      case Finish(w) => SumUpdate(s.workers, w, Sending(s.workers[w].item), Weight);
      case Send(w) => SumUpdate(s.workers, w, Idle, Weight);
      case Exit(w) => SumUpdate(s.workers, w, Exited, Weight);
      case _ =>
    }
  }

  // ---------- theorems ----------

  lemma {:induction false} RunReaches<T(!new)>(items: seq<T>, workers: nat, trace: seq<State<T>>)
    requires IsRun(items, workers, trace) && workers >= 1
    ensures Inv(items, workers, trace[|trace| - 1])
    ensures |trace| + Measure(trace[|trace| - 1]) <= 1 + 3 * |items| + workers + 2
  {
    if |trace| == 1 {
      var s := trace[0];
      IdleWeights(s.workers);
      forall x
        ensures Counted(items, s, x)
      {
        NoneHeld(s.workers, x);
      }
    } else {
      var before, last := trace[..|trace| - 1], |trace| - 2;
      forall i | 0 <= i < |before| - 1
        ensures Step(before[i], before[i + 1])
      {
        assert Step(trace[i], trace[i + 1]);
      }
      RunReaches(items, workers, before);
      assert Step(trace[last], trace[last + 1]);
      var a :| Enabled(trace[last], a) && Apply(trace[last], a) == trace[last + 1];
      StepKeeps(items, workers, trace[last], a);
      StepShrinks(trace[last], a);
    }
  }

  ghost predicate CanStep<T>(s: State<T>) {
    exists a :: Enabled(s, a)
  }

  /**
   With at least one worker every run is short, can go on until the output channel is closed, and can
   not go on after that; by then every item has been sent exactly once.
   */
  lemma EveryRunIsCorrect<T(!new)>(items: seq<T>, workers: nat, trace: seq<State<T>>)
    requires IsRun(items, workers, trace) && workers >= 1
    ensures
      var s := trace[|trace| - 1];
      && |trace| <= 3 * |items| + workers + 3
      && (CanStep(s) <==> !s.closedOut)
      && (s.closedOut ==> multiset(s.out) == multiset(items))
  {
    var s := trace[|trace| - 1];
    RunReaches(items, workers, trace);
    if s.closedOut {
      assert s.workers[0].Exited?;
      forall x
        ensures multiset(s.out)[x] == multiset(items)[x]
      {
        NoneHeld(s.workers, x);
        assert Counted(items, s, x);
      }
    } else if w :| 0 <= w < |s.workers| && !s.workers[w].Exited? {
      assert Enabled(s, if s.workers[w].Running? then Finish(w)
                        else if s.workers[w].Sending? then Send(w)
                        else if s.queue != [] then Take(w)
                        else if s.closedIn then Exit(w) else CloseIn);
    } else {
      assert Enabled(s, CloseOut);
    }
  }

  lemma RunExtends<T(!new)>(items: seq<T>, workers: nat, trace: seq<State<T>>, a: Action)
    requires IsRun(items, workers, trace) && Enabled(trace[|trace| - 1], a)
    ensures IsRun(items, workers, trace + [Apply(trace[|trace| - 1], a)])
  {
    var after := trace + [Apply(trace[|trace| - 1], a)];
    forall i | 0 <= i < |after| - 1
      ensures Step(after[i], after[i + 1])
    {
      if i < |trace| - 1 {
        assert Step(trace[i], trace[i + 1]);
      }
    }
  }

  /** Every run can go on until the output channel is closed; the empty run too, so there is a complete one. */
  lemma {:induction false} EveryRunCompletes<T(!new)>(items: seq<T>, workers: nat, trace: seq<State<T>>)
    returns (run: seq<State<T>>)
    requires IsRun(items, workers, trace) && workers >= 1
    ensures IsRun(items, workers, run) && trace <= run && run[|run| - 1].closedOut
    decreases 3 * |items| + workers + 3 - |trace|
  {
    EveryRunIsCorrect(items, workers, trace);
    run := trace;
    if !trace[|trace| - 1].closedOut {
      var a :| Enabled(trace[|trace| - 1], a);
      RunExtends(items, workers, trace, a);
      var longer := trace + [Apply(trace[|trace| - 1], a)];
      EveryRunIsCorrect(items, workers, longer);
      run := EveryRunCompletes(items, workers, longer);
    }
  }

  lemma CompleteRunExists<T(!new)>(items: seq<T>, workers: nat) returns (run: seq<State<T>>)
    requires workers >= 1
    ensures IsRun(items, workers, run) && run[|run| - 1].closedOut
  {
    run := EveryRunCompletes(items, workers, [Init(items, workers)]);
  }
}
