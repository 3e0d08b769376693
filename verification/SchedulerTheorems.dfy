/**
 The guarantees of the wave scheduler, over all runs: exactly one group per resource, the one the
 dependency graph prescribes; the same groups for every input order, worker count and interleaving;
 prerequisites before dependents; and no unguarded access to the shared maps.
 */
module SchedulerTheorems {
  import opened Wrappers
  import opened Graphs
  import opened Schedule
  import opened Outcomes
  import opened Scheduler
  import opened SchedulerInvariant
  import opened SchedulerSteps
  import opened SchedulerTermination
  import opened Seqs

  // max(1, min(5 * CPUs, maxConcurrent))
  function WorkerCount(cpus: nat, maxConcurrent: int): (n: nat)
    ensures n >= 1
    ensures cpus >= 1 && maxConcurrent >= 1 ==>
      n <= 5 * cpus && n <= maxConcurrent && (n == 5 * cpus || n == maxConcurrent)
    ensures cpus == 0 || maxConcurrent <= 1 ==> n == 1
  {
    var capped := if cpus * 5 < maxConcurrent then cpus * 5 else maxConcurrent;
    if capped < 1 then 1 else capped
  }

  ghost predicate CompleteRun(c: Config, trace: seq<State>) {
    IsRun(c, trace) && trace[|trace| - 1].phase == Done
  }

  /**
   A complete run emits exactly one group per resource and no other, each group is the one the
   dependency graph prescribes, and each final status is its outcome.
   */
  lemma CompleteRunIsCorrect(c: Config, trace: seq<State>)
    requires Good(c) && CompleteRun(c, trace)
    ensures
      var s, g := trace[|trace| - 1], GraphOf(c.items);
      && (forall ref :: InOut(s.out, ref) == if ref in g then 1 else 0)
      && (forall x :: x in s.out ==> x == Expected(g, c.run, x.ref))
      && s.completed == g.Keys
      && (forall ref :: ref in g ==> ref in s.status && s.status[ref] == Code(OutcomeOf(g, c.run, ref)))
  {
    var s, g := trace[|trace| - 1], GraphOf(c.items);
    RunReaches(c, trace);
    GraphOfItems(c.items);
    forall ref
      ensures InOut(s.out, ref) == (if ref in g then 1 else 0) && (ref in s.completed <==> ref in g)
    {
      assert Counted(c, s, ref) && CompletedOnce(s, ref);
      NoneHeld(s.workers, ref);
      RecordedHeld(s.workers, ref);
      ItemCounted(c.items, ref);
      UniqueCount(c.items, ref);
    }
  }

  // ---------- confluence ----------

  lemma {:induction false} GroupCount(out: seq<Group>, x: Group)
    requires forall y :: y in out && y.ref == x.ref ==> y == x
    ensures multiset(out)[x] == InOut(out, x.ref)
  {
    if out != [] {
      var n := |out| - 1;
      assert out == out[..n] + [out[n]];
      GroupCount(out[..n], x);
    }
  }

  lemma ExpectedCount(g: Graph, run: Runner, out: seq<Group>, x: Group)
    requires Acyclic(g) && forall y :: y in out ==> y == Expected(g, run, y.ref)
    ensures multiset(out)[x] == if x == Expected(g, run, x.ref) then InOut(out, x.ref) else 0
  {
    if x == Expected(g, run, x.ref) {
      GroupCount(out, x);
    } else {
      assert x !in out;
    }
  }

  /**
   Confluence: two complete runs over the same resources emit the same groups, skip reasons
   included, whatever the input order, the number of workers and the interleaving.
   */
  lemma RunsAgree(c: Config, trace: seq<State>, d: Config, trace': seq<State>)
    requires Good(c) && Good(d) && c.run == d.run
    requires forall item :: item in c.items <==> item in d.items
    requires CompleteRun(c, trace) && CompleteRun(d, trace')
    ensures multiset(trace[|trace| - 1].out) == multiset(trace'[|trace'| - 1].out)
  {
    var out, out' := trace[|trace| - 1].out, trace'[|trace'| - 1].out;
    SameGraph(c.items, d.items);
    CompleteRunIsCorrect(c, trace);
    CompleteRunIsCorrect(d, trace');
    forall x
      ensures multiset(out)[x] == multiset(out')[x]
    {
      ExpectedCount(GraphOf(c.items), c.run, out, x);
      ExpectedCount(GraphOf(c.items), c.run, out', x);
    }
  }

  /** End to end: reordering the resources changes no group that the run emits. */
  lemma OrderOfResourcesIsIrrelevant(
    resources: seq<Resource>, resources': seq<Resource>, c: Config, trace: seq<State>, d: Config, trace': seq<State>)
    requires multiset(resources) == multiset(resources') && Schedulable(resources)
    requires IsScheduleOf(resources, c.items) && IsScheduleOf(resources', d.items)
    requires c.run == d.run && c.workers >= 1 && d.workers >= 1
    requires CompleteRun(c, trace) && CompleteRun(d, trace')
    ensures Schedulable(resources')
    ensures multiset(trace[|trace| - 1].out) == multiset(trace'[|trace'| - 1].out)
  {
    SchedulableInAnyOrder(resources, resources');
    SameMembers(resources, resources');
    ScheduleIsClosed(resources, c.items);
    ScheduleIsClosed(resources', d.items);
    SameItems(resources, c.items, resources', d.items);
    SameItems(resources', d.items, resources, c.items);
    RunsAgree(c, trace, d, trace');
  }

  // ---------- safety ----------

  /** A resource handed to a worker has every prerequisite completed, with SUCCESS. */
  lemma StartedAfterPrerequisites(c: Config, trace: seq<State>, w: nat)
    requires Good(c) && IsRun(c, trace)
    requires w < |trace[|trace| - 1].workers| && trace[|trace| - 1].workers[w].Busy?
    ensures
      var s := trace[|trace| - 1];
      forall d :: d in s.workers[w].item.deps ==> d in s.completed && d in s.status && s.status[d] == SUCCESS
  {
    var s, g := trace[|trace| - 1], GraphOf(c.items);
    RunReaches(c, trace);
    var item := s.workers[w].item;
    assert MayRun(g, c.run, s.completed, item);
    GraphOfItems(c.items);
    OutcomeMeaning(g, c.run, item.ref);
    forall d | d in item.deps
      ensures d in s.completed && d in s.status && s.status[d] == SUCCESS
    {
      assert d in Successors(g, item.ref);
      assert OutcomeOf(g, c.run, d) == Passed;
    }
  }

  // A worker stores into the maps between lock and unlock, and the coordinator when it skips an item.
  ghost predicate WritesMaps(c: Config, s: State, a: Action)
    requires Enabled(s, a)
  {
    match a
    case Advance(w) => s.workers[w].stage == HoldsLock || s.workers[w].stage == WroteStatus
    case Examine => s.rest[0].ref !in s.completed && Decide(s.rest[0].deps, s.status, s.completed).Skip?
    case _ => false
  }

  // No other step changes the maps.
  lemma OnlyWritesChange(c: Config, s: State, a: Action)
    requires Enabled(s, a) && !WritesMaps(c, s, a)
    ensures Apply(c, s, a).status == s.status && Apply(c, s, a).completed == s.completed
  {
    match a
    case Examine => assert Apply(c, s, a) == ExamineNext(s);
    case EndPass => assert Apply(c, s, a) == FinishPass(c, s);
    case Advance(w) => assert Apply(c, s, a) == AdvanceWorker(c, s, w);
    case _ =>
  }

  /**
   No data race: a worker that stores into a shared map, even a value equal to the one there, holds the
   lock; no two steps enabled together by different workers store into one; and when the coordinator
   reads or stores no worker can step at all.
   */
  lemma MapsAreGuarded(c: Config, trace: seq<State>, a: Action, b: Action)
    requires Good(c) && IsRun(c, trace)
    requires Enabled(trace[|trace| - 1], a) && Enabled(trace[|trace| - 1], b)
    ensures
      var s := trace[|trace| - 1];
      && (ByWorker(a) && WritesMaps(c, s, a) ==> s.lock == Some(a.w))
      && (ByWorker(a) && ByWorker(b) && WritesMaps(c, s, a) && WritesMaps(c, s, b) ==> a == b)
      && (a.Examine? || a.EndPass? || (WritesMaps(c, s, a) && !ByWorker(a)) ==> !ByWorker(b))
  {
    var s := trace[|trace| - 1];
    RunReaches(c, trace);
    if ByWorker(a) && WritesMaps(c, s, a) {
      assert InCriticalSection(s.workers[a.w]);
    }
    if ByWorker(b) && WritesMaps(c, s, b) {
      assert InCriticalSection(s.workers[b.w]);
    }
  }

  // ---------- emission order ----------

  ghost predicate Emitted(out: seq<Group>, refs: seq<string>) {
    forall d :: d in refs ==> InOut(out, d) >= 1
  }

  // Every group comes after the groups of all its prerequisites.
  ghost predicate InDependencyOrder(g: Graph, out: seq<Group>) {
    out != [] ==>
      && InDependencyOrder(g, out[..|out| - 1])
      && Emitted(out[..|out| - 1], Successors(g, out[|out| - 1].ref))
  }

  ghost predicate Ordered(g: Graph, s: State) {
    && InDependencyOrder(g, s.out)
    && (forall x :: x in s.runnable || x in s.queue ==> Emitted(s.out, x.deps))
    && (forall w :: 0 <= w < |s.workers| && s.workers[w].Busy? ==> Emitted(s.out, s.workers[w].item.deps))
  }

  lemma EmittedGrows(out: seq<Group>, x: Group, refs: seq<string>)
    requires Emitted(out, refs)
    ensures Emitted(out + [x], refs)
  {
    forall d | d in refs
      ensures InOut(out + [x], d) >= 1
    {
      SumPush(out, x, Reporting(d));
    }
  }

  // In a pass no worker holds anything, so what has completed has been emitted.
  lemma CompletedIsEmitted(s: State, refs: seq<string>)
    requires CompletedRight(s) && Quiet(s) && Elements(refs) <= s.completed
    ensures Emitted(s.out, refs)
  {
    forall d | d in refs
      ensures InOut(s.out, d) >= 1
    {
      assert d in Elements(refs) && CompletedOnce(s, d);
      NoneHeld(s.workers, d);
      RecordedHeld(s.workers, d);
    }
  }

  // A group sent after those of its prerequisites keeps the order.
  lemma OrderedSend(g: Graph, out: seq<Group>, x: Group)
    requires InDependencyOrder(g, out) && Emitted(out, Successors(g, x.ref))
    ensures InDependencyOrder(g, out + [x])
  {
    assert (out + [x])[..|out|] == out;
  }

  lemma OrderedSkip(c: Config, s: State, reason: Reason)
    requires Good(c) && Inv(c, s) && Ordered(GraphOf(c.items), s) && s.phase == Pass && s.rest != []
    requires Decide(s.rest[0].deps, s.status, s.completed) == Skip(reason)
    ensures var out := s.out + [NotRun(s.rest[0].ref, reason)];
      InDependencyOrder(GraphOf(c.items), out) && forall x :: x in s.runnable ==> Emitted(out, x.deps)
  {
    var item := s.rest[0];
    assert item in s.rest;
    GraphOfItems(c.items);
    CompletedIsEmitted(s, item.deps);
    OrderedSend(GraphOf(c.items), s.out, NotRun(item.ref, reason));
    forall x | x in s.runnable
      ensures Emitted(s.out + [NotRun(item.ref, reason)], x.deps)
    {
      EmittedGrows(s.out, NotRun(item.ref, reason), x.deps);
    }
  }

  // Examining one item either leaves both queues and the output alone, or adds the item to one of them.
  lemma OrderedBy(g: Graph, s: State, t: State)
    requires Ordered(g, s) && InDependencyOrder(g, t.out) && t.queue == s.queue == [] && t.workers == s.workers
    requires forall w :: 0 <= w < |s.workers| ==> !s.workers[w].Busy?
    requires forall x :: x in t.runnable ==> Emitted(t.out, x.deps)
    ensures Ordered(g, t)
  {
  }

  lemma OrderedExamine(c: Config, s: State)
    requires Good(c) && Inv(c, s) && Ordered(GraphOf(c.items), s) && s.phase == Pass && s.rest != []
    ensures Ordered(GraphOf(c.items), ExamineNext(s))
  {
    var item := s.rest[0];
    if item.ref !in s.completed {
      match Decide(item.deps, s.status, s.completed) {
        case NotReady =>
        case Ready => CompletedIsEmitted(s, item.deps);
        case Skip(reason) => OrderedSkip(c, s, reason);
      }
    }
    OrderedBy(GraphOf(c.items), s, ExamineNext(s));
  }

  lemma EmittedStays(c: Config, s: State, a: Action, refs: seq<string>)
    requires Enabled(s, a) && ByWorker(a) && Emitted(s.out, refs)
    ensures Emitted(Apply(c, s, a).out, refs)
  {
    if a.Advance? && s.workers[a.w].stage == Sending {
      var ref := s.workers[a.w].item.ref;
      EmittedGrows(s.out, Ran(ref, c.run(ref)), refs);
    }
  }

  lemma OutOrderedByWorker(g: Graph, c: Config, s: State, a: Action)
    requires Describes(g, c.items) && Known(c, s) && Ordered(g, s) && Enabled(s, a) && ByWorker(a)
    ensures InDependencyOrder(g, Apply(c, s, a).out)
  {
    if a.Advance? && s.workers[a.w].stage == Sending {
      var item := s.workers[a.w].item;
      assert (s.out + [Ran(item.ref, c.run(item.ref))])[..|s.out|] == s.out;
    }
  }

  lemma OrderedByWorker(g: Graph, c: Config, s: State, a: Action)
    requires Describes(g, c.items) && Known(c, s) && Ordered(g, s) && Enabled(s, a) && ByWorker(a)
    ensures Ordered(g, Apply(c, s, a))
  {
    var t := Apply(c, s, a);
    OutOrderedByWorker(g, c, s, a);
    forall x | x in t.runnable || x in t.queue
      ensures Emitted(t.out, x.deps)
    {
      assert x in s.runnable || x in s.queue;
      EmittedStays(c, s, a, x.deps);
    }
    forall w | 0 <= w < |t.workers| && t.workers[w].Busy?
      ensures Emitted(t.out, t.workers[w].item.deps)
    {
      if a == Take(w) {
        assert s.queue[0] in s.queue;
        EmittedStays(c, s, a, s.queue[0].deps);
      } else {
        assert s.workers[w].Busy? && t.workers[w].item == s.workers[w].item;
        EmittedStays(c, s, a, s.workers[w].item.deps);
      }
    }
  }

  lemma {:induction false} RunIsOrdered(c: Config, trace: seq<State>)
    requires Good(c) && IsRun(c, trace)
    ensures Ordered(GraphOf(c.items), trace[|trace| - 1])
  {
    if |trace| > 1 {
      var before, s := trace[..|trace| - 1], trace[|trace| - 2];
      RunIsOrdered(c, before);
      RunReaches(c, before);
      assert before[|before| - 1] == s;
      var a :| Enabled(s, a) && Apply(c, s, a) == trace[|trace| - 1];
      if a.Examine? {
        OrderedExamine(c, s);
      } else if ByWorker(a) {
        GraphOfItems(c.items);
        OrderedByWorker(GraphOf(c.items), c, s, a);
      }
    }
  }

  lemma {:induction false} OrderAt(g: Graph, out: seq<Group>, i: nat, d: string)
    requires InDependencyOrder(g, out) && i < |out| && d in Successors(g, out[i].ref)
    ensures InOut(out[..i], d) >= 1
  {
    if i < |out| - 1 {
      OrderAt(g, out[..|out| - 1], i, d);
      assert out[..|out| - 1][..i] == out[..i];
    }
  }

  /** At every point of every run, a group is emitted only after those of all its prerequisites. */
  lemma PrerequisitesEmittedFirst(c: Config, trace: seq<State>, i: nat, d: string)
    requires Good(c) && IsRun(c, trace)
    requires i < |trace[|trace| - 1].out| && d in Successors(GraphOf(c.items), trace[|trace| - 1].out[i].ref)
    ensures
      var out := trace[|trace| - 1].out;
      exists j :: 0 <= j < i && out[j].ref == d
  {
    var out := trace[|trace| - 1].out;
    RunIsOrdered(c, trace);
    OrderAt(GraphOf(c.items), out, i, d);
    OutCounted(out[..i], d);
    var x :| x in out[..i] && x.ref == d;
    var j :| 0 <= j < i && out[j] == x;
  }
}
