/**
 The wave scheduler never deadlocks and always terminates: some step is enabled until it is done,
 and a measure falls at every step, which bounds the length of every run.
 */
module SchedulerTermination {
  import opened Scheduler
  import opened SchedulerInvariant
  import opened SchedulerSteps
  import opened Seqs

  // ---------- nothing is lost by number either ----------

  function BusyCount(workers: seq<Worker>): nat {
    Sum(workers, Busyness)
  }

  function Busyness(worker: Worker): nat {
    One(worker.Busy?)
  }

  lemma {:induction false} NoneBusy(workers: seq<Worker>)
    requires forall w :: 0 <= w < |workers| ==> !workers[w].Busy?
    ensures BusyCount(workers) == 0
  {
    if workers != [] {
      NoneBusy(workers[..|workers| - 1]);
    }
  }

  ghost predicate Sized(c: Config, s: State) {
    |s.rest| + |s.runnable| + |s.nextPending| + |s.queue| + BusyCount(s.workers) + |s.out| == |c.items|
  }

  lemma SizedKept(c: Config, s: State, a: Action)
    requires Sized(c, s) && Enabled(s, a) && !ByWorker(a) && !a.EmitUnsatisfied?
    requires a.Examine? ==> s.rest[0].ref !in s.completed
    requires a.EndPass? ==> Quiet(s)
    requires a.Join? ==> s.rest == [] && s.queue == [] && s.runnable == []
    ensures Sized(c, Apply(c, s, a))
  {
    if a.EndPass? {
      NoneBusy(s.workers);
      NoneBusy(seq(c.workers, _ => Idle));
    }
  }

  lemma SizedKeptByWorker(c: Config, s: State, a: Action)
    requires Sized(c, s) && Enabled(s, a) && ByWorker(a)
    ensures Sized(c, Apply(c, s, a))
  {
    SumUpdate(s.workers, a.w, Apply(c, s, a).workers[a.w], Busyness);
  }

  // ---------- the measure ----------

  function Weight(worker: Worker): nat {
    match worker
    case Exited => 0
    case Idle => 1
    case Busy(_, Sending) => 2
    case Busy(_, WroteCompleted) => 3
    case Busy(_, WroteStatus) => 4
    case Busy(_, HoldsLock) => 5
    case Busy(_, WantsLock) => 6
    case Busy(_, Validating) => 7
  }

  function Weights(workers: seq<Worker>): nat {
    Sum(workers, Weight)
  }

  lemma {:induction false} WeightsBounded(workers: seq<Worker>)
    ensures Weights(workers) <= 7 * BusyCount(workers) + |workers|
  {
    if workers != [] {
      WeightsBounded(workers[..|workers| - 1]);
    }
  }

  lemma {:induction false} IdleWeights(workers: seq<Worker>)
    requires forall w :: 0 <= w < |workers| ==> workers[w] == Idle
    ensures Weights(workers) == |workers|
  {
    if workers != [] {
      IdleWeights(workers[..|workers| - 1]);
    }
  }

  // Twice the undecided items, plus one while the pass has decided something.
  function Rounds(s: State): nat {
    2 * (|s.rest| + |s.nextPending|) + One(s.progressed || s.runnable != [] || s.phase == Wave)
  }

  function WithinRound(c: Config, s: State): nat {
    match s.phase
    case Pass => |s.rest| + 7 * |c.items| + c.workers + 2
    case Wave => 7 * |s.queue| + Weights(s.workers) + One(!s.closed)
    case _ => 0
  }

  function RoundLength(c: Config): nat {
    8 * |c.items| + c.workers + 3
  }

  function Measure(c: Config, s: State): nat {
    RoundLength(c) * Rounds(s) + WithinRound(c, s)
  }

  // A finished state counts the round it would otherwise still be in.
  ghost predicate FitsRound(c: Config, s: State) {
    WithinRound(c, s) < RoundLength(c)
  }

  lemma RoundFits(c: Config, s: State)
    requires Sized(c, s) && PhaseRight(c, s)
    ensures FitsRound(c, s)
  {
    WeightsBounded(s.workers);
  }

  lemma {:induction false} FewerRounds(length: nat, x: nat, y: nat)
    requires x < y
    ensures length * x + length <= length * y
  {
    if x + 1 < y {
      FewerRounds(length, x, y - 1);
    }
    assert length * y == length * (y - 1) + length;
  }

  lemma Falls(c: Config, s: State, t: State)
    requires FitsRound(c, t)
    requires Shrinks(c, s, t)
    ensures Measure(c, t) < Measure(c, s)
  {
    var x, y := Rounds(t), Rounds(s);
    if x < y {
      FewerRounds(RoundLength(c), x, y);
    }
  }

  lemma StepProgresses(c: Config, s: State, a: Action)
    requires Good(c) && Inv(c, s) && Sized(c, s) && Enabled(s, a)
    ensures Inv(c, Apply(c, s, a)) && Sized(c, Apply(c, s, a))
    ensures Measure(c, Apply(c, s, a)) < Measure(c, s)
  {
    var t := Apply(c, s, a);
    StepKeeps(c, s, a);
    if a.Examine? {
      SumPop(s.rest, Naming(s.rest[0].ref));
      WaitingNotCompleted(c, s, s.rest[0].ref);
    }
    if a.EndPass? {
      PassDecidesSomething(c, s);
    }
    if a.Join? {
      assert s.workers[0] == Exited;
    }
    if ByWorker(a) {
      SizedKeptByWorker(c, s, a);
      WorkerShrinks(c, s, a);
    } else {
      SizedKept(c, s, a);
      StepShrinks(c, s, a);
    }
    RoundFits(c, t);
    Falls(c, s, t);
  }

  ghost predicate Shrinks(c: Config, s: State, t: State) {
    Rounds(t) < Rounds(s) || (Rounds(t) == Rounds(s) && WithinRound(c, t) < WithinRound(c, s))
  }

  lemma StepShrinks(c: Config, s: State, a: Action)
    requires PhaseRight(c, s) && Sized(c, s) && Enabled(s, a) && !ByWorker(a)
    requires a.EndPass? ==> s.runnable != [] || s.progressed
    ensures Shrinks(c, s, Apply(c, s, a))
  {
    if a.EndPass? && s.runnable != [] {
      IdleWeights(FinishPass(c, s).workers);
    }
  }

  lemma WorkerShrinks(c: Config, s: State, a: Action)
    requires PhaseRight(c, s) && Enabled(s, a) && ByWorker(a)
    ensures Shrinks(c, s, Apply(c, s, a))
  {
    SumUpdate(s.workers, a.w, Apply(c, s, a).workers[a.w], Weight);
  }

  // ---------- theorems ----------

  ghost predicate CanStep(s: State) {
    exists a :: Enabled(s, a)
  }

  /** Until it is done, some step is enabled: a receiving consumer never sees a deadlock. */
  lemma NeverStuck(c: Config, s: State)
    requires Good(c) && Inv(c, s) && s.phase != Done
    ensures CanStep(s)
  {
    if s.phase == Pass {
      assert Enabled(s, if s.rest == [] then EndPass else Examine);
    } else if s.lock.Some? {
      var w := s.lock.value;
      assert InCriticalSection(s.workers[w]);
      assert Enabled(s, Advance(w));
    } else if w :| 0 <= w < |s.workers| && s.workers[w].Busy? {
      assert Enabled(s, Advance(w));
    } else if w :| 0 <= w < |s.workers| && s.workers[w] == Idle {
      assert Enabled(s, if s.queue != [] then Take(w) else if s.closed then Exit(w) else Close);
    } else {
      assert Enabled(s, Join);
    }
  }

  // The number of steps no run exceeds.
  function StepBound(c: Config): nat {
    RoundLength(c) * (2 * |c.items|) + RoundLength(c)
  }

  lemma TransitionProgresses(c: Config, s: State, t: State)
    requires Good(c) && Inv(c, s) && Sized(c, s) && Step(c, s, t)
    ensures Inv(c, t) && Sized(c, t) && Measure(c, t) < Measure(c, s)
  {
    var a :| Enabled(s, a) && Apply(c, s, a) == t;
    StepProgresses(c, s, a);
  }

  ghost predicate Reachable(c: Config, s: State)
    requires Good(c)
  {
    Inv(c, s) && Sized(c, s)
  }

  lemma {:induction false} RunReaches(c: Config, trace: seq<State>)
    requires Good(c) && IsRun(c, trace)
    ensures Reachable(c, trace[|trace| - 1])
    ensures |trace| + Measure(c, trace[|trace| - 1]) <= 1 + Measure(c, Init(c))
  {
    if |trace| == 1 {
      InitHolds(c);
    } else {
      var before, s := trace[..|trace| - 1], trace[|trace| - 2];
      RunReaches(c, before);
      assert before[|before| - 1] == s;
      TransitionProgresses(c, s, trace[|trace| - 1]);
    }
  }

  /** Every run, whatever the interleaving, is this short, and can be continued unless it is done. */
  lemma EveryRunTerminates(c: Config, trace: seq<State>)
    requires Good(c) && IsRun(c, trace)
    ensures |trace| <= 1 + StepBound(c)
    ensures trace[|trace| - 1].phase != Done ==> CanStep(trace[|trace| - 1])
  {
    RunReaches(c, trace);
    RoundFits(c, Init(c));
    if trace[|trace| - 1].phase != Done {
      NeverStuck(c, trace[|trace| - 1]);
    }
  }

  lemma RunExtends(c: Config, trace: seq<State>, a: Action)
    requires IsRun(c, trace) && Enabled(trace[|trace| - 1], a)
    ensures IsRun(c, trace + [Apply(c, trace[|trace| - 1], a)])
  {
    var after := trace + [Apply(c, trace[|trace| - 1], a)];
    forall i | 0 <= i < |after| - 1
      ensures Step(c, after[i], after[i + 1])
    {
      if i < |trace| - 1 {
        assert Step(c, trace[i], trace[i + 1]);
      }
    }
  }

  /** Every run can be completed, from wherever it is; the empty run too, so there is a complete one. */
  lemma {:induction false} EveryRunCompletes(c: Config, trace: seq<State>) returns (run: seq<State>)
    requires Good(c) && IsRun(c, trace)
    ensures IsRun(c, run) && trace <= run && run[|run| - 1].phase == Done
    decreases 1 + StepBound(c) - |trace|
  {
    EveryRunTerminates(c, trace);
    run := trace;
    if trace[|trace| - 1].phase != Done {
      var a :| Enabled(trace[|trace| - 1], a);
      RunExtends(c, trace, a);
      var longer := trace + [Apply(c, trace[|trace| - 1], a)];
      EveryRunTerminates(c, longer);
      run := EveryRunCompletes(c, longer);
    }
  }

  lemma CompleteRunExists(c: Config) returns (run: seq<State>)
    requires Good(c)
    ensures IsRun(c, run) && run[|run| - 1].phase == Done
  {
    run := EveryRunCompletes(c, [Init(c)]);
  }
}
