/**
 The verdict of a validation, from its results: the choice of scheduler and the interleaving of the
 workers do not show in it.
 */
module HealthVerdict {
  import opened Graphs
  import opened Schedule
  import opened Outcomes
  import opened Scheduler
  import opened SchedulerInvariant
  import opened SchedulerTheorems
  import opened Seqs
  import Pool

  const OK := 200
  const SERVICE_UNAVAILABLE := 503

  // The result codes the consumer reads from a group.
  function Results(x: Group): (results: seq<int>)
    ensures x.NotRun? ==> |results| == 1 && results[0] == 2
  {
    match x
    case Ran(_, results) => results
    case NotRun(_, _) => [SKIP]
  }

  ghost predicate SomeFailure(tra: seq<seq<int>>) {
    exists i :: 0 <= i < |tra| && FAIL in tra[i]
  }

  method AnyFailed(tra: seq<seq<int>>) returns (failed: bool)
    ensures failed <==> SomeFailure(tra)
  {
    for i := 0 to |tra|
      invariant !SomeFailure(tra[..i])
    {
      for j := 0 to |tra[i]|
        invariant forall k :: 0 <= k < j ==> tra[i][k] != FAIL
      {
        if tra[i][j] == FAIL {
          assert FAIL in tra[i];
          return true;
        }
      }
      assert FAIL !in tra[i];
      assert forall k :: 0 <= k < i ==> FAIL !in tra[..i][k];
    }
    TakeAll(tra);
    return false;
  }

  /**
   What a sweep returns: the groups received, or one synthetic failing group when the validation could
   not start, so that a validation that checks nothing is not reported as healthy.
   */
  method Validate(started: bool, sent: seq<seq<int>>) returns (tra: seq<seq<int>>)
    ensures !started ==> SomeFailure(tra)
    ensures started ==> tra == sent
  {
    if !started {
      tra := [[FAIL]];
      assert FAIL in tra[0];
      return;
    }
    tra := [];
    for i := 0 to |sent|
      invariant tra == sent[..i]
    {
      TakeNext(sent, i);
      tra := tra + [sent[i]];
    }
    TakeAll(sent);
  }

  ghost predicate SomeOutcomeFailed(g: Graph, run: Runner)
    requires Acyclic(g)
  {
    exists u :: u in g && OutcomeOf(g, run, u) == Failed
  }

  /** A complete run reports a failure exactly when some resource's outcome is a failure. */
  lemma VerdictOfRun(c: Config, trace: seq<State>)
    requires Good(c) && CompleteRun(c, trace)
    ensures
      (exists x :: x in trace[|trace| - 1].out && FAIL in Results(x)) <==> SomeOutcomeFailed(GraphOf(c.items), c.run)
  {
    var out, g := trace[|trace| - 1].out, GraphOf(c.items);
    CompleteRunIsCorrect(c, trace);
    if x :| x in out && FAIL in Results(x) {
      OutCounted(out, x.ref);
      OutcomeMeaning(g, c.run, x.ref);
      assert x == Expected(g, c.run, x.ref);
      assert OutcomeOf(g, c.run, x.ref) == Failed;
    }
    if u :| u in g && OutcomeOf(g, c.run, u) == Failed {
      OutCounted(out, u);
      OutcomeMeaning(g, c.run, u);
      var x :| x in out && x.ref == u;
      assert x == Expected(g, c.run, u);
    }
  }

  method StatusCode(tra: seq<seq<int>>) returns (code: int)
    ensures code == if SomeFailure(tra) then 503 else 200
  {
    var failed := AnyFailed(tra);
    code := if failed then SERVICE_UNAVAILABLE else OK;
  }

  // ---------- the status of a probe ----------

  ghost predicate Dependent(resources: seq<Resource>) {
    exists r :: r in resources && r.dependsOn != []
  }

  method HasDependencies(resources: seq<Resource>) returns (b: bool)
    ensures b <==> Dependent(resources)
  {
    for i := 0 to |resources|
      invariant forall j :: 0 <= j < i ==> resources[j].dependsOn == []
    {
      if resources[i].dependsOn != [] {
        assert resources[i] in resources;
        return true;
      }
    }
    return false;
  }

  // What the consumer reads from a run of the wave scheduler, and from a run of the plain pool.
  function WaveResults(out: seq<Group>): seq<seq<int>> {
    seq(|out|, i requires 0 <= i < |out| => Results(out[i]))
  }

  function PoolResults(check: Resource -> seq<int>, out: seq<Resource>): seq<seq<int>> {
    seq(|out|, i requires 0 <= i < |out| => check(out[i]))
  }

  lemma WaveFailure(out: seq<Group>)
    ensures SomeFailure(WaveResults(out)) <==> exists x :: x in out && FAIL in Results(x)
  {
    if i :| 0 <= i < |out| && FAIL in WaveResults(out)[i] {
      assert out[i] in out;
    }
    if x :| x in out && FAIL in Results(x) {
      var i :| 0 <= i < |out| && out[i] == x;
      assert FAIL in WaveResults(out)[i];
    }
  }

  lemma PoolFailure(check: Resource -> seq<int>, out: seq<Resource>)
    ensures SomeFailure(PoolResults(check, out)) <==> exists r :: r in out && FAIL in check(r)
  {
    if i :| 0 <= i < |out| && FAIL in PoolResults(check, out)[i] {
      assert out[i] in out;
    }
    if r :| r in out && FAIL in check(r) {
      var i :| 0 <= i < |out| && out[i] == r;
      assert FAIL in PoolResults(check, out)[i];
    }
  }

  // A complete run of the plain pool over the resources, and what it sent.
  ghost predicate PoolSent(
    resources: seq<Resource>, check: Resource -> seq<int>, workers: nat, trace: seq<Pool.State<Resource>>,
    sent: seq<seq<int>>)
  {
    && Pool.IsRun(resources, workers, trace) && trace[|trace| - 1].closedOut
    && sent == PoolResults(check, trace[|trace| - 1].out)
  }

  // A complete run of the wave scheduler over the schedule of the resources, and what it sent.
  ghost predicate WaveSent(resources: seq<Resource>, c: Config, trace: seq<State>, sent: seq<seq<int>>) {
    && IsScheduleOf(resources, c.items) && c.workers >= 1 && CompleteRun(c, trace)
    && sent == WaveResults(trace[|trace| - 1].out)
  }

  lemma PoolVerdict(
    resources: seq<Resource>, check: Resource -> seq<int>, workers: nat, trace: seq<Pool.State<Resource>>,
    sent: seq<seq<int>>)
    requires workers >= 1 && PoolSent(resources, check, workers, trace, sent)
    ensures SomeFailure(sent) <==> exists r :: r in resources && FAIL in check(r)
  {
    Pool.EveryRunIsCorrect(resources, workers, trace);
    PoolFailure(check, trace[|trace| - 1].out);
    SameMembers(resources, trace[|trace| - 1].out);
  }

  lemma WaveVerdict(resources: seq<Resource>, c: Config, trace: seq<State>, sent: seq<seq<int>>)
    requires Schedulable(resources) && WaveSent(resources, c, trace, sent)
    ensures WellFormed(c.items)
    ensures SomeFailure(sent) <==> SomeOutcomeFailed(GraphOf(c.items), c.run)
  {
    ScheduleIsClosed(resources, c.items);
    VerdictOfRun(c, trace);
    WaveFailure(trace[|trace| - 1].out);
  }

  /**
   The status of a health probe. Without dependencies the plain pool runs, and the status is 503 if and
   only if some resource's own results contain a failure. With dependencies it is 503 if and only if the
   schedule cannot be built or some resource's outcome by the graph is a failure. It is 200 otherwise,
   for every interleaving of the run that produced the groups.
   */
  method HealthStatus(
    resources: seq<Resource>, ghost check: Resource -> seq<int>, ghost workers: nat,
    ghost poolTrace: seq<Pool.State<Resource>>, ghost c: Config, ghost trace: seq<State>, sent: seq<seq<int>>)
    returns (code: int)
    requires workers >= 1
    requires !Dependent(resources) ==> PoolSent(resources, check, workers, poolTrace, sent)
    requires Dependent(resources) && Schedulable(resources) ==> WaveSent(resources, c, trace, sent)
    ensures code == 200 || code == 503
    ensures !Dependent(resources) ==> (code == 503 <==> exists r :: r in resources && FAIL in check(r))
    ensures Dependent(resources) && !Schedulable(resources) ==> code == 503
    ensures Dependent(resources) && Schedulable(resources) ==> WellFormed(c.items)
    ensures Dependent(resources) && Schedulable(resources) ==>
      (code == 503 <==> SomeOutcomeFailed(GraphOf(c.items), c.run))
  {
    var started := true;
    var dependent := HasDependencies(resources);
    if dependent {
      var built := BuildSchedule(resources);
      started := built.Success?;
      if started {
        WaveVerdict(resources, c, trace, sent);
      }
    } else {
      PoolVerdict(resources, check, workers, poolTrace, sent);
    }
    var tra := Validate(started, sent);
    code := StatusCode(tra);
  }

  // ---------- the choice of scheduler ----------

  // hasDependencies
  ghost predicate Independent(items: seq<Item>) {
    forall item :: item in items ==> item.deps == []
  }

  ghost function PoolGroups(run: Runner, sent: seq<Item>): seq<Group> {
    seq(|sent|, i requires 0 <= i < |sent| => Ran(sent[i].ref, run(sent[i].ref)))
  }

  /**
   Resources without dependencies get the same groups from the plain pool, which is the one chosen for
   them, as from the wave scheduler.
   */
  lemma SchedulersAgree(c: Config, trace: seq<State>, workers: nat, poolTrace: seq<Pool.State<Item>>)
    requires Good(c) && Independent(c.items) && CompleteRun(c, trace) && workers >= 1
    requires Pool.IsRun(c.items, workers, poolTrace) && poolTrace[|poolTrace| - 1].closedOut
    ensures multiset(PoolGroups(c.run, poolTrace[|poolTrace| - 1].out)) == multiset(trace[|trace| - 1].out)
  {
    var sent, out, g := poolTrace[|poolTrace| - 1].out, trace[|trace| - 1].out, GraphOf(c.items);
    var groups := PoolGroups(c.run, sent);
    Pool.EveryRunIsCorrect(c.items, workers, poolTrace);
    CompleteRunIsCorrect(c, trace);
    GraphOfItems(c.items);
    forall x | x in groups
      ensures x == Expected(g, c.run, x.ref)
    {
      var i :| 0 <= i < |groups| && groups[i] == x;
      assert sent[i] in multiset(sent);
      assert sent[i] in c.items && Successors(g, x.ref) == [];
      OutcomeMeaning(g, c.run, x.ref);
    }
    forall x
      ensures multiset(groups)[x] == multiset(out)[x]
    {
      ExpectedCount(g, c.run, groups, x);
      ExpectedCount(g, c.run, out, x);
      PoolCount(c.run, c.items, sent, x.ref);
      ItemCounted(c.items, x.ref);
      UniqueCount(c.items, x.ref);
    }
  }

  lemma {:induction false} PoolGroupsCount(run: Runner, sent: seq<Item>, ref: string)
    ensures InOut(PoolGroups(run, sent), ref) == InItems(sent, ref)
  {
    if sent != [] {
      var n := |sent| - 1;
      PoolGroupsCount(run, sent[..n], ref);
      assert PoolGroups(run, sent)[..n] == PoolGroups(run, sent[..n]);
    }
  }

  lemma PoolCount(run: Runner, items: seq<Item>, sent: seq<Item>, ref: string)
    requires multiset(sent) == multiset(items)
    ensures InOut(PoolGroups(run, sent), ref) == InItems(items, ref)
  {
    PoolGroupsCount(run, sent, ref);
    SumReordered(sent, items, Naming(ref));
  }
}
