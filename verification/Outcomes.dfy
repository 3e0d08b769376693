/**
 What a dependency graph of checks means, independently of how it is scheduled: the outcome of
 each resource by recursion over its prerequisites.
 */
module Outcomes {
  import opened Wrappers
  import opened Graphs

  // Result codes. A missing entry of a Go map[string]int reads as SUCCESS.
  const SUCCESS := 0
  const FAIL := 1
  const SKIP := 2

  // Validating a resource, as the codes of the results it returns. A resource is validated at
  // most once in a run, so a function of its reference loses no behaviour.
  type Runner = string -> seq<int>

  datatype Reason = DependencyFailed(dep: string) | DependencySkipped(dep: string) | Unsatisfied

  datatype Outcome = Passed | Failed | Skipped(reason: Reason)

  // One group of results sent to the consumer.
  datatype Group = Ran(ref: string, results: seq<int>) | NotRun(ref: string, reason: Reason)

  function Code(o: Outcome): int {
    match o
    case Passed => SUCCESS
    case Failed => FAIL
    case Skipped(_) => SKIP
  }

  // The first prerequisite from the k-th on that did not pass.
  ghost function Obstacle(g: Graph, run: Runner, u: string, k: nat): Option<Reason>
    requires Acyclic(g) && k <= |Successors(g, u)|
    decreases Height(g, u), |Successors(g, u)| - k, 0
  {
    if k == |Successors(g, u)| then None
    else
      var dep := Successors(g, u)[k];
      HeightFalls(g, u, dep);
      match OutcomeOf(g, run, dep)
      case Passed => Obstacle(g, run, u, k + 1)
      case Failed => Some(DependencyFailed(dep))
      case Skipped(_) => Some(DependencySkipped(dep))
  }

  ghost function OutcomeOf(g: Graph, run: Runner, u: string): Outcome
    requires Acyclic(g)
    decreases Height(g, u), |Successors(g, u)|, 1
  {
    match Obstacle(g, run, u, 0)
    case Some(reason) => Skipped(reason)
    case None => if FAIL in run(u) then Failed else Passed
  }

  ghost function Expected(g: Graph, run: Runner, u: string): Group
    requires Acyclic(g)
  {
    match OutcomeOf(g, run, u)
    case Skipped(reason) => NotRun(u, reason)
    case _ => Ran(u, run(u))
  }

  ghost predicate Unobstructed(g: Graph, run: Runner, u: string)
    requires Acyclic(g)
  {
    forall d :: d in Successors(g, u) ==> OutcomeOf(g, run, d) == Passed
  }

  // reason is the one that blames the k-th prerequisite, the first that did not pass.
  ghost predicate Blames(g: Graph, run: Runner, u: string, k: nat, reason: Reason)
    requires Acyclic(g)
  {
    && k < |Successors(g, u)|
    && (forall j :: 0 <= j < k ==> OutcomeOf(g, run, Successors(g, u)[j]) == Passed)
    && match OutcomeOf(g, run, Successors(g, u)[k])
       case Passed => false
       case Failed => reason == DependencyFailed(Successors(g, u)[k])
       case Skipped(_) => reason == DependencySkipped(Successors(g, u)[k])
  }

  lemma {:induction false} ObstacleIsFirst(g: Graph, run: Runner, u: string, k: nat)
    requires Acyclic(g) && k <= |Successors(g, u)|
    requires forall j :: 0 <= j < k ==> OutcomeOf(g, run, Successors(g, u)[j]) == Passed
    ensures Obstacle(g, run, u, k).None? <==> Unobstructed(g, run, u)
    ensures Obstacle(g, run, u, k).Some? ==> exists i :: Blames(g, run, u, i, Obstacle(g, run, u, k).value)
    decreases |Successors(g, u)| - k
  {
    if k < |Successors(g, u)| {
      var dep := Successors(g, u)[k];
      if OutcomeOf(g, run, dep) == Passed {
        ObstacleIsFirst(g, run, u, k + 1);
      } else {
        assert dep in Successors(g, u);
        assert Blames(g, run, u, k, Obstacle(g, run, u, k).value);
      }
    }
  }

  /**
   A resource is skipped exactly when some prerequisite did not pass, with a reason that names the
   first such one in declared order and says correctly whether it failed or was skipped; otherwise
   it fails exactly when its own results contain a failure.
   */
  lemma OutcomeMeaning(g: Graph, run: Runner, u: string)
    requires Acyclic(g)
    ensures OutcomeOf(g, run, u).Skipped? <==> !Unobstructed(g, run, u)
    ensures OutcomeOf(g, run, u).Skipped? ==> exists k :: Blames(g, run, u, k, OutcomeOf(g, run, u).reason)
    ensures Unobstructed(g, run, u) ==> (OutcomeOf(g, run, u) == Failed <==> FAIL in run(u))
  {
    ObstacleIsFirst(g, run, u, 0);
  }

  /** A worker's loop over the results of one resource: no result, or only skipped ones, is a pass. */
  method Passes(results: seq<int>) returns (passed: bool)
    ensures passed <==> FAIL !in results
  {
    passed := true;
    for i := 0 to |results|
      invariant forall k :: 0 <= k < i ==> results[k] != FAIL
    {
      if results[i] == FAIL {
        passed := false;
        break;
      }
    }
  }
}
