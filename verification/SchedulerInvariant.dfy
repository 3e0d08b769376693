/**
 What every step of the wave scheduler keeps: no reference is lost or duplicated, every recorded
 status and every emitted group is the one the dependency graph prescribes, workers write only
 under the lock, and the coordinator reads only when no worker is running.
 */
module SchedulerInvariant {
  import opened Wrappers
  import opened Graphs
  import opened Schedule
  import opened Outcomes
  import opened Scheduler
  import opened Seqs

  // ---------- how often each reference occurs ----------

  function InItems(items: seq<Item>, ref: string): nat {
    Sum(items, Naming(ref))
  }

  function Naming(ref: string): Item -> nat {
    (item: Item) => One(item.ref == ref)
  }

  function InOut(out: seq<Group>, ref: string): nat {
    Sum(out, Reporting(ref))
  }

  function Reporting(ref: string): Group -> nat {
    (group: Group) => One(group.ref == ref)
  }

  predicate HoldsRef(worker: Worker, ref: string) {
    worker.Busy? && worker.item.ref == ref
  }

  function InWorkers(workers: seq<Worker>, ref: string): nat {
    Sum(workers, Holding(ref))
  }

  function Holding(ref: string): Worker -> nat {
    worker => One(HoldsRef(worker, ref))
  }

  function Waiting(s: State, ref: string): nat {
    InItems(s.rest, ref) + InItems(s.runnable, ref) + InItems(s.nextPending, ref) + InItems(s.queue, ref)
  }

  lemma WorkerUpdate(workers: seq<Worker>, w: nat, worker: Worker, ref: string)
    requires w < |workers|
    ensures InWorkers(workers[w := worker], ref) + One(HoldsRef(workers[w], ref))
         == InWorkers(workers, ref) + One(HoldsRef(worker, ref))
  {
    SumUpdate(workers, w, worker, Holding(ref));
  }

  lemma {:induction false} NoneHeld(workers: seq<Worker>, ref: string)
    requires forall w :: 0 <= w < |workers| ==> !workers[w].Busy?
    ensures InWorkers(workers, ref) == 0
  {
    if workers != [] {
      NoneHeld(workers[..|workers| - 1], ref);
    }
  }

  lemma ItemCounted(items: seq<Item>, ref: string)
    ensures InItems(items, ref) >= 1 <==> exists item :: item in items && item.ref == ref
  {
    SumIsPositive(items, Naming(ref));
  }

  lemma OutCounted(out: seq<Group>, ref: string)
    ensures InOut(out, ref) >= 1 <==> exists x :: x in out && x.ref == ref
  {
    SumIsPositive(out, Reporting(ref));
  }

  lemma {:induction false} UniqueCount(items: seq<Item>, ref: string)
    requires UniqueItems(items)
    ensures InItems(items, ref) <= 1
  {
    if items != [] {
      var n := |items| - 1;
      UniqueCount(items[..n], ref);
      ItemCounted(items[..n], ref);
    }
  }

  // ---------- the invariant ----------

  ghost predicate Good(c: Config) {
    WellFormed(c.items) && c.workers >= 1
  }

  ghost predicate Describes(g: Graph, items: seq<Item>) {
    forall item :: item in items ==> Successors(g, item.ref) == item.deps
  }

  ghost predicate Counted(c: Config, s: State, ref: string) {
    Waiting(s, ref) + InWorkers(s.workers, ref) + InOut(s.out, ref) == InItems(c.items, ref)
  }

  ghost predicate Conserved(c: Config, s: State) {
    forall ref :: Counted(c, s, ref)
  }

  ghost predicate Known(c: Config, s: State) {
    && (forall x :: x in s.rest || x in s.runnable || x in s.nextPending || x in s.queue ==> x in c.items)
    && (forall w :: 0 <= w < |s.workers| && s.workers[w].Busy? ==> s.workers[w].item in c.items)
  }

  ghost predicate StatusRight(g: Graph, c: Config, s: State)
    requires Acyclic(g)
  {
    && (forall r :: r in s.status ==> s.status[r] == Code(OutcomeOf(g, c.run, r)))
    && s.completed <= s.status.Keys
    && (forall w :: 0 <= w < |s.workers| && s.workers[w].Busy? && s.workers[w].stage == WroteStatus
          ==> s.workers[w].item.ref in s.status)
  }

  ghost predicate OutRight(g: Graph, c: Config, s: State)
    requires Acyclic(g)
  {
    forall x :: x in s.out ==> x == Expected(g, c.run, x.ref)
  }

  // All prerequisites of the item have completed, with SUCCESS.
  ghost predicate MayRun(g: Graph, run: Runner, completed: set<string>, item: Item)
    requires Acyclic(g)
  {
    Elements(item.deps) <= completed && Obstacle(g, run, item.ref, 0) == None
  }

  ghost predicate StartedRight(g: Graph, c: Config, s: State)
    requires Acyclic(g)
  {
    && (forall x :: x in s.runnable || x in s.queue ==> MayRun(g, c.run, s.completed, x))
    && (forall w :: 0 <= w < |s.workers| && s.workers[w].Busy? ==> MayRun(g, c.run, s.completed, s.workers[w].item))
  }

  // A worker past WroteStatus has recorded its item as completed.
  predicate Recorded(worker: Worker) {
    worker.Busy? && (worker.stage == WroteCompleted || worker.stage == Sending)
  }

  function InRecorded(workers: seq<Worker>, ref: string): nat {
    Sum(workers, Recording(ref))
  }

  function Recording(ref: string): Worker -> nat {
    worker => One(Recorded(worker) && HoldsRef(worker, ref))
  }

  ghost predicate CompletedOnce(s: State, r: string) {
    r in s.completed <==> InOut(s.out, r) + InRecorded(s.workers, r) >= 1
  }

  // What has completed has been emitted, or is about to be.
  ghost predicate CompletedRight(s: State) {
    forall r :: CompletedOnce(s, r)
  }

  lemma RecordedUpdate(workers: seq<Worker>, w: nat, worker: Worker, ref: string)
    requires w < |workers|
    ensures InRecorded(workers[w := worker], ref) + One(Recorded(workers[w]) && HoldsRef(workers[w], ref))
         == InRecorded(workers, ref) + One(Recorded(worker) && HoldsRef(worker, ref))
  {
    SumUpdate(workers, w, worker, Recording(ref));
  }

  lemma {:induction false} RecordedHeld(workers: seq<Worker>, ref: string)
    ensures InRecorded(workers, ref) <= InWorkers(workers, ref)
  {
    if workers != [] {
      RecordedHeld(workers[..|workers| - 1], ref);
    }
  }

  ghost predicate Quiet(s: State) {
    && s.queue == [] && s.lock == None
    && forall w :: 0 <= w < |s.workers| ==> s.workers[w] == Exited
  }

  ghost predicate InCriticalSection(worker: Worker) {
    worker.Busy? && (worker.stage == HoldsLock || worker.stage == WroteStatus || worker.stage == WroteCompleted)
  }

  ghost predicate LockRight(s: State) {
    forall w :: 0 <= w < |s.workers| ==> (InCriticalSection(s.workers[w]) <==> s.lock == Some(w))
  }

  ghost predicate PhaseRight(c: Config, s: State) {
    && s.phase != Drain
    && (s.phase != Wave ==> Quiet(s))
    && (s.phase == Wave ==>
          && s.rest == [] && s.runnable == [] && |s.workers| == c.workers
          && (s.closed ==> s.queue == [])
          && (forall w :: 0 <= w < |s.workers| && s.workers[w] == Exited ==> s.closed)
          && (s.lock.Some? ==> s.lock.value < |s.workers|))
    && (s.phase == Done ==> s.rest == [] && s.runnable == [] && s.nextPending == [])
  }

  // While a pass has decided nothing, everything it passed over still waits for something.
  ghost predicate Stalled(s: State) {
    s.phase == Pass && !s.progressed ==>
      && (forall x :: x in s.nextPending ==> !(Elements(x.deps) <= s.completed))
      && (s.runnable == [] ==> s.rest != [] || s.nextPending != [])
  }

  ghost predicate Inv(c: Config, s: State)
    requires Good(c)
  {
    var g := GraphOf(c.items);
    && Conserved(c, s) && Known(c, s) && StatusRight(g, c, s) && OutRight(g, c, s)
    && StartedRight(g, c, s) && CompletedRight(s) && LockRight(s) && PhaseRight(c, s) && Stalled(s)
  }

  // ---------- consequences used by the steps ----------

  // An item is in one place only, so what waits has not completed.
  lemma WaitingNotCompleted(c: Config, s: State, ref: string)
    requires UniqueItems(c.items) && Conserved(c, s) && CompletedRight(s) && Waiting(s, ref) >= 1
    ensures ref !in s.completed && InWorkers(s.workers, ref) == 0
  {
    assert Counted(c, s, ref) && CompletedOnce(s, ref);
    UniqueCount(c.items, ref);
    RecordedHeld(s.workers, ref);
  }

  lemma {:induction false} BadDepMatches(g: Graph, c: Config, s: State, u: string, k: nat)
    requires Acyclic(g) && StatusRight(g, c, s)
    requires k <= |Successors(g, u)| && Elements(Successors(g, u)) <= s.completed
    ensures BadDep(Successors(g, u), s.status, k) == Obstacle(g, c.run, u, k)
    decreases |Successors(g, u)| - k
  {
    var deps := Successors(g, u);
    if k < |deps| {
      assert deps[k] in Elements(deps);
      BadDepMatches(g, c, s, u, k + 1);
    }
  }

  // The decision made from the shared maps is the one the graph prescribes.
  lemma DecisionMatches(g: Graph, c: Config, s: State, item: Item)
    requires Acyclic(g) && StatusRight(g, c, s) && Describes(g, c.items) && item in c.items
    ensures Decide(item.deps, s.status, s.completed).NotReady? <==> !(Elements(item.deps) <= s.completed)
    ensures
      var d, o := Decide(item.deps, s.status, s.completed), OutcomeOf(g, c.run, item.ref);
      && (d.Skip? ==> o == Outcomes.Skipped(d.reason))
      && (d.Ready? ==> Obstacle(g, c.run, item.ref, 0) == None)
  {
    if Elements(item.deps) <= s.completed {
      BadDepMatches(g, c, s, item.ref, 0);
    }
  }
}
