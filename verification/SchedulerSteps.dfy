/** Every step of the wave scheduler keeps its invariant, one part of the invariant at a time. */
module SchedulerSteps {
  import opened Wrappers
  import opened Graphs
  import opened Schedule
  import opened Outcomes
  import opened Scheduler
  import opened Seqs
  import opened SchedulerInvariant

  predicate ByWorker(a: Action) {
    a.Take? || a.Advance? || a.Exit?
  }

  lemma CountedExamine(c: Config, s: State, ref: string)
    requires Counted(c, s, ref) && s.rest != [] && s.rest[0].ref !in s.completed
    ensures Counted(c, ExamineNext(s), ref)
  {
    SumPop(s.rest, Naming(ref));
    match Decide(s.rest[0].deps, s.status, s.completed) {
      case NotReady => SumPush(s.nextPending, s.rest[0], Naming(ref));
      case Ready => SumPush(s.runnable, s.rest[0], Naming(ref));
      case Skip(reason) => SumPush(s.out, NotRun(s.rest[0].ref, reason), Reporting(ref));
    }
  }

  lemma CountedAdvance(c: Config, s: State, w: nat, ref: string)
    requires Counted(c, s, ref) && w < |s.workers| && s.workers[w].Busy?
    ensures Counted(c, AdvanceWorker(c, s, w), ref)
  {
    var item := s.workers[w].item;
    WorkerUpdate(s.workers, w, After(s.workers[w]), ref);
    SumPush(s.out, Ran(item.ref, c.run(item.ref)), Reporting(ref));
  }

  lemma CountedEndPass(c: Config, s: State, ref: string)
    requires Counted(c, s, ref) && Quiet(s) && s.rest == []
    ensures Counted(c, FinishPass(c, s), ref)
  {
    NoneHeld(s.workers, ref);
    NoneHeld(seq(c.workers, _ => Idle), ref);
  }

  lemma CountedTake(c: Config, s: State, w: nat, ref: string)
    requires Counted(c, s, ref) && Enabled(s, Take(w))
    ensures Counted(c, Apply(c, s, Take(w)), ref)
  {
    SumPop(s.queue, Naming(ref));
    WorkerUpdate(s.workers, w, Busy(s.queue[0], Validating), ref);
  }

  lemma ConservedKept(c: Config, s: State, a: Action)
    requires Conserved(c, s) && Enabled(s, a) && !a.EmitUnsatisfied?
    requires a.Examine? ==> s.rest[0].ref !in s.completed
    requires a.EndPass? ==> Quiet(s)
    requires a.Join? ==> s.rest == [] && s.queue == [] && s.runnable == []
    ensures Conserved(c, Apply(c, s, a))
  {
    forall ref
      ensures Counted(c, Apply(c, s, a), ref)
    {
      assert Counted(c, s, ref);
      match a {
        case Examine => CountedExamine(c, s, ref);
        case EndPass => CountedEndPass(c, s, ref);
        case Take(w) => CountedTake(c, s, w, ref);
        case Advance(w) => CountedAdvance(c, s, w, ref);
        case Exit(w) => WorkerUpdate(s.workers, w, Exited, ref);
        case _ =>
      }
    }
  }

  lemma KnownKept(c: Config, s: State, a: Action)
    requires Known(c, s) && Enabled(s, a) && !ByWorker(a)
    ensures Known(c, Apply(c, s, a))
  {
    if a.Examine? {
      assert s.rest[0] in s.rest;
    }
  }

  lemma KnownKeptByWorker(c: Config, s: State, a: Action)
    requires Known(c, s) && Enabled(s, a) && ByWorker(a)
    ensures Known(c, Apply(c, s, a))
  {
    if a.Take? {
      assert s.queue[0] in s.queue;
    }
  }

  lemma StatusKept(g: Graph, c: Config, s: State, a: Action)
    requires Acyclic(g) && Describes(g, c.items) && Known(c, s) && StatusRight(g, c, s) && Enabled(s, a) && !ByWorker(a)
    ensures StatusRight(g, c, Apply(c, s, a))
  {
    if a.Examine? {
      assert s.rest[0] in s.rest;
      DecisionMatches(g, c, s, s.rest[0]);
    }
  }

  lemma StatusKeptByAdvance(g: Graph, c: Config, s: State, w: nat)
    requires Acyclic(g) && Describes(g, c.items) && StatusRight(g, c, s) && Enabled(s, Advance(w))
    requires MayRun(g, c.run, s.completed, s.workers[w].item)
    ensures StatusRight(g, c, AdvanceWorker(c, s, w))
  {
    var ref := s.workers[w].item.ref;
    assert Code(OutcomeOf(g, c.run, ref)) == if FAIL in c.run(ref) then FAIL else SUCCESS;
  }

  lemma StatusKeptByWorker(g: Graph, c: Config, s: State, a: Action)
    requires Acyclic(g) && Describes(g, c.items) && StatusRight(g, c, s) && StartedRight(g, c, s)
    requires Enabled(s, a) && ByWorker(a)
    ensures StatusRight(g, c, Apply(c, s, a))
  {
    if a.Advance? {
      StatusKeptByAdvance(g, c, s, a.w);
    }
  }

  lemma OutKept(g: Graph, c: Config, s: State, a: Action)
    requires Acyclic(g) && Describes(g, c.items) && Known(c, s) && StatusRight(g, c, s) && OutRight(g, c, s)
    requires StartedRight(g, c, s)
    requires Enabled(s, a) && !a.EmitUnsatisfied?
    ensures OutRight(g, c, Apply(c, s, a))
  {
    if a.Examine? {
      assert s.rest[0] in s.rest;
      DecisionMatches(g, c, s, s.rest[0]);
    } else if a.Advance? {
      assert MayRun(g, c.run, s.completed, s.workers[a.w].item);
    }
  }

  lemma StartedKept(g: Graph, c: Config, s: State, a: Action)
    requires Acyclic(g) && Describes(g, c.items) && Known(c, s) && StatusRight(g, c, s)
    requires StartedRight(g, c, s) && Enabled(s, a) && !ByWorker(a)
    ensures StartedRight(g, c, Apply(c, s, a))
  {
    if a.Examine? {
      assert s.rest[0] in s.rest;
      DecisionMatches(g, c, s, s.rest[0]);
    }
  }

  lemma StartedKeptByWorker(g: Graph, c: Config, s: State, a: Action)
    requires Acyclic(g) && StartedRight(g, c, s) && Enabled(s, a) && ByWorker(a)
    ensures StartedRight(g, c, Apply(c, s, a))
  {
    var t := Apply(c, s, a);
    forall x | x in t.runnable || x in t.queue
      ensures MayRun(g, c.run, t.completed, x)
    {
      assert x in s.runnable || x in s.queue;
    }
    forall w | 0 <= w < |t.workers| && t.workers[w].Busy?
      ensures MayRun(g, c.run, t.completed, t.workers[w].item)
    {
      if a == Take(w) {
        assert s.queue[0] in s.queue;
      } else {
        assert s.workers[w].Busy? && t.workers[w].item == s.workers[w].item;
      }
    }
  }

  lemma CompletedExamine(c: Config, s: State, r: string)
    requires CompletedOnce(s, r) && s.rest != []
    ensures CompletedOnce(ExamineNext(s), r)
  {
    var decision := Decide(s.rest[0].deps, s.status, s.completed);
    if s.rest[0].ref !in s.completed && decision.Skip? {
      var x := NotRun(s.rest[0].ref, decision.reason);
      SumPush(s.out, x, Reporting(r));
      assert Reporting(r)(x) == One(x.ref == r);
    }
  }

  lemma CompletedEndPass(c: Config, s: State, r: string)
    requires CompletedOnce(s, r) && Quiet(s)
    ensures CompletedOnce(FinishPass(c, s), r)
  {
    NoneHeld(s.workers, r);
    RecordedHeld(s.workers, r);
    NoneHeld(seq(c.workers, _ => Idle), r);
    RecordedHeld(seq(c.workers, _ => Idle), r);
  }

  lemma CompletedAdvance(c: Config, s: State, w: nat, r: string)
    requires CompletedOnce(s, r) && w < |s.workers| && s.workers[w].Busy?
    ensures CompletedOnce(AdvanceWorker(c, s, w), r)
  {
    var item := s.workers[w].item;
    RecordedUpdate(s.workers, w, After(s.workers[w]), r);
    SumPush(s.out, Ran(item.ref, c.run(item.ref)), Reporting(r));
    if s.workers[w].stage == Sending {
      RecordedCounted(s.workers, w);
    }
  }

  lemma {:induction false} RecordedCounted(workers: seq<Worker>, w: nat)
    requires w < |workers| && Recorded(workers[w])
    ensures InRecorded(workers, workers[w].item.ref) >= 1
  {
    if w < |workers| - 1 {
      RecordedCounted(workers[..|workers| - 1], w);
    }
  }

  lemma CompletedKept(c: Config, s: State, a: Action)
    requires CompletedRight(s) && Enabled(s, a) && !a.EmitUnsatisfied?
    requires a.EndPass? ==> Quiet(s)
    ensures CompletedRight(Apply(c, s, a))
  {
    forall r
      ensures CompletedOnce(Apply(c, s, a), r)
    {
      assert CompletedOnce(s, r);
      match a {
        case Examine => CompletedExamine(c, s, r);
        case EndPass => CompletedEndPass(c, s, r);
        case Take(w) => RecordedUpdate(s.workers, w, Busy(s.queue[0], Validating), r);
        case Advance(w) => CompletedAdvance(c, s, w, r);
        case Exit(w) => RecordedUpdate(s.workers, w, Exited, r);
        case _ =>
      }
    }
  }

  lemma LockKept(c: Config, s: State, a: Action)
    requires LockRight(s) && Enabled(s, a) && !ByWorker(a)
    requires a.EndPass? ==> Quiet(s)
    ensures LockRight(Apply(c, s, a))
  {
    if a.EndPass? && s.runnable != [] {
      assert forall w :: 0 <= w < c.workers ==> FinishPass(c, s).workers[w] == Idle;
    }
  }

  // At most one worker is between Lock and Unlock.
  lemma LockKeptByWorker(c: Config, s: State, a: Action)
    requires LockRight(s) && Enabled(s, a) && ByWorker(a)
    ensures LockRight(Apply(c, s, a))
  {
    assert InCriticalSection(s.workers[a.w]) <==> s.lock == Some(a.w);
  }

  lemma StalledKept(g: Graph, c: Config, s: State, a: Action)
    requires Acyclic(g) && Describes(g, c.items) && Known(c, s) && StatusRight(g, c, s) && Stalled(s) && Enabled(s, a)
    requires a.Advance? ==> s.phase == Wave
    requires a.Examine? ==> s.rest[0].ref !in s.completed
    ensures Stalled(Apply(c, s, a))
  {
    match a {
      case Examine =>
        assert s.rest[0] in s.rest;
        DecisionMatches(g, c, s, s.rest[0]);
      case _ =>
    }
  }

  lemma PhaseKept(c: Config, s: State, a: Action)
    requires PhaseRight(c, s) && LockRight(s) && Enabled(s, a) && c.workers >= 1 && !ByWorker(a)
    requires a.EndPass? ==> s.runnable != [] || s.progressed
    ensures PhaseRight(c, Apply(c, s, a))
  {
    if a.Join? {
      assert s.workers[0] == Exited;
      assert forall w :: 0 <= w < |s.workers| ==> !InCriticalSection(s.workers[w]);
    }
  }

  lemma PhaseKeptByWorker(c: Config, s: State, a: Action)
    requires PhaseRight(c, s) && LockRight(s) && Enabled(s, a) && ByWorker(a)
    ensures PhaseRight(c, Apply(c, s, a))
  {
    assert s.phase == Wave;
  }

  // With nothing decided and nothing left to examine, each pending item would wait for a pending
  // item, which would wait for another, and so on for ever.
  lemma {:induction false} WaitsForever(c: Config, s: State, item: Item)
    requires Good(c) && Conserved(c, s) && Known(c, s) && CompletedRight(s)
    requires s.rest == [] && s.runnable == [] && Quiet(s)
    requires forall x :: x in s.nextPending ==> !(Elements(x.deps) <= s.completed)
    ensures item !in s.nextPending
    decreases Height(GraphOf(c.items), item.ref)
  {
    if item in s.nextPending {
      GraphOfItems(c.items);
      var d :| d in item.deps && d !in s.completed;
      ItemCounted(c.items, d);
      assert Counted(c, s, d) && CompletedOnce(s, d);
      NoneHeld(s.workers, d);
      ItemCounted(s.nextPending, d);
      assert InItems(s.nextPending, d) >= 1;
      var other :| other in s.nextPending && other.ref == d;
      HeightFalls(GraphOf(c.items), item.ref, d);
      WaitsForever(c, s, other);
    }
  }

  // So the "unsatisfied dependency" branch is never taken.
  lemma PassDecidesSomething(c: Config, s: State)
    requires Good(c) && Inv(c, s) && s.phase == Pass && s.rest == []
    ensures s.runnable != [] || s.progressed
  {
    if s.runnable == [] && !s.progressed && s.nextPending != [] {
      WaitsForever(c, s, s.nextPending[0]);
    }
  }

  lemma StepKeeps(c: Config, s: State, a: Action)
    requires Good(c) && Inv(c, s) && Enabled(s, a)
    ensures Inv(c, Apply(c, s, a))
  {
    GraphOfItems(c.items);
    if a.Examine? {
      SumPop(s.rest, Naming(s.rest[0].ref));
      WaitingNotCompleted(c, s, s.rest[0].ref);
    }
    if a.Join? {
      assert s.workers[0] == Exited;
    }
    if a.EndPass? {
      PassDecidesSomething(c, s);
    }
    ConservedKept(c, s, a);
    CompletedKept(c, s, a);
    OutKept(GraphOf(c.items), c, s, a);
    StalledKept(GraphOf(c.items), c, s, a);
    if ByWorker(a) {
      KnownKeptByWorker(c, s, a);
      StatusKeptByWorker(GraphOf(c.items), c, s, a);
      StartedKeptByWorker(GraphOf(c.items), c, s, a);
      LockKeptByWorker(c, s, a);
      PhaseKeptByWorker(c, s, a);
    } else {
      KnownKept(c, s, a);
      StatusKept(GraphOf(c.items), c, s, a);
      StartedKept(GraphOf(c.items), c, s, a);
      LockKept(c, s, a);
      PhaseKept(c, s, a);
    }
  }

  lemma InitHolds(c: Config)
    requires Good(c)
    ensures Inv(c, Init(c))
  {
  }
}
