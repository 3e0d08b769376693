/**
 The wave scheduler as a transition system. The coordinator examines the pending items one by one,
 then hands the runnable ones to a pool of workers whose steps interleave freely; a mutex guards
 the two maps the workers write.
 */
module Scheduler {
  import opened Wrappers
  import opened Schedule
  import opened Outcomes
  import opened Seqs

  datatype Config = Config(items: seq<Item>, run: Runner, workers: nat)

  // How far a worker is with the item it took.
  datatype Stage = Validating | WantsLock | HoldsLock | WroteStatus | WroteCompleted | Sending

  datatype Worker = Idle | Exited | Busy(item: Item, stage: Stage)

  datatype Phase = Pass | Wave | Drain | Done

  datatype State = State(
    phase: Phase,
    rest: seq<Item>,         // pending items this pass has not examined
    runnable: seq<Item>,
    nextPending: seq<Item>,
    progressed: bool,
    queue: seq<Item>,        // items of the wave not yet handed to a worker
    closed: bool,            // the work channel
    workers: seq<Worker>,
    lock: Option<nat>,
    status: map<string, int>,
    completed: set<string>,
    out: seq<Group>)

  datatype Action =
    | Examine | EndPass | EmitUnsatisfied
    | Take(w: nat) | Advance(w: nat) | Close | Exit(w: nat) | Join

  // ---------- deciding one pending item ----------

  datatype Decision = NotReady | Skip(reason: Reason) | Ready

  function StatusOf(status: map<string, int>, ref: string): int {
    if ref in status then status[ref] else SUCCESS
  }

  function BadDep(deps: seq<string>, status: map<string, int>, k: nat): Option<Reason>
    requires k <= |deps|
    decreases |deps| - k
  {
    if k == |deps| then None
    else if StatusOf(status, deps[k]) == FAIL then Some(DependencyFailed(deps[k]))
    else if StatusOf(status, deps[k]) == SKIP then Some(DependencySkipped(deps[k]))
    else BadDep(deps, status, k + 1)
  }

  function Decide(deps: seq<string>, status: map<string, int>, completed: set<string>): Decision {
    if !(Elements(deps) <= completed) then NotReady
    else match BadDep(deps, status, 0)
      case Some(reason) => Skip(reason)
      case None => Ready
  }

  // A prerequisite that failed or was skipped; one without a status counts as passed.
  predicate IsBad(dep: string, status: map<string, int>) {
    dep in status && (status[dep] == 1 || status[dep] == 2)
  }

  // The reason names the first of them, and says whether it failed or was skipped.
  ghost predicate BlamesFirst(deps: seq<string>, status: map<string, int>, k: int, reason: Reason) {
    && 0 <= k < |deps| && IsBad(deps[k], status) && (forall j :: 0 <= j < k ==> !IsBad(deps[j], status))
    && reason == if status[deps[k]] == 1 then DependencyFailed(deps[k]) else DependencySkipped(deps[k])
  }

  lemma {:induction false} BadDepIsFirst(deps: seq<string>, status: map<string, int>, k: nat)
    requires k <= |deps| && forall j :: 0 <= j < k ==> !IsBad(deps[j], status)
    ensures BadDep(deps, status, k).None? ==> forall j :: 0 <= j < |deps| ==> !IsBad(deps[j], status)
    ensures BadDep(deps, status, k).Some? ==>
      exists i :: BlamesFirst(deps, status, i, BadDep(deps, status, k).value)
    decreases |deps| - k
  {
    if k < |deps| {
      if IsBad(deps[k], status) {
        assert BlamesFirst(deps, status, k, BadDep(deps, status, k).value);
      } else {
        BadDepIsFirst(deps, status, k + 1);
      }
    }
  }

  /** The scheduler's loop over one item's prerequisites. */
  method DecideItem(deps: seq<string>, status: map<string, int>, completed: set<string>) returns (d: Decision)
    ensures d == Decide(deps, status, completed)
    ensures d.NotReady? <==> exists k :: 0 <= k < |deps| && deps[k] !in completed
    ensures d.Skip? ==> exists k :: BlamesFirst(deps, status, k, d.reason)
    ensures d.Ready? ==> forall k :: 0 <= k < |deps| ==> !IsBad(deps[k], status)
  {
    BadDepIsFirst(deps, status, 0);
    var ready := true;
    var skipReason: Option<Reason> := None;
    for k := 0 to |deps|
      invariant ready <==> Elements(deps[..k]) <= completed
      invariant ready ==> BadDep(deps, status, 0) == if skipReason.Some? then skipReason else BadDep(deps, status, k)
    {
      if deps[k] !in completed {
        ready := false;
        continue;
      }
      if skipReason.Some? {
        continue;
      }
      match StatusOf(status, deps[k]) {
        case 1 => skipReason := Some(DependencyFailed(deps[k]));
        case 2 => skipReason := Some(DependencySkipped(deps[k]));
        case _ =>
      }
    }
    TakeAll(deps);
    d := if !ready then NotReady else if skipReason.Some? then Skip(skipReason.value) else Ready;
  }

  // ---------- steps ----------

  function StartRound(s: State, pending: seq<Item>): State {
    s.(phase := if pending == [] then Done else Pass,
       rest := pending, runnable := [], nextPending := [], progressed := false)
  }

  function Init(c: Config): State {
    StartRound(State(Pass, [], [], [], false, [], false, [], None, map[], {}, []), c.items)
  }

  ghost predicate Enabled(s: State, a: Action) {
    match a
    case Examine => s.phase == Pass && s.rest != []
    case EndPass => s.phase == Pass && s.rest == []
    case EmitUnsatisfied => s.phase == Drain
    case Take(w) => s.phase == Wave && w < |s.workers| && s.workers[w] == Idle && s.queue != []
    case Advance(w) =>
      && w < |s.workers| && s.workers[w].Busy?
      && (s.workers[w].stage == WantsLock ==> s.lock == None)
    case Close => s.phase == Wave && s.queue == [] && !s.closed
    case Exit(w) => w < |s.workers| && s.workers[w] == Idle && s.closed
    case Join => s.phase == Wave && forall w :: 0 <= w < |s.workers| ==> s.workers[w] == Exited
  }

  function ExamineNext(s: State): State
    requires s.rest != []
  {
    var item, t := s.rest[0], s.(rest := s.rest[1..]);
    if item.ref in s.completed then t
    else match Decide(item.deps, s.status, s.completed)
      case NotReady => t.(nextPending := s.nextPending + [item])
      case Ready => t.(runnable := s.runnable + [item])
      case Skip(reason) =>
        t.(out := s.out + [NotRun(item.ref, reason)], status := s.status[item.ref := SKIP],
           completed := s.completed + {item.ref}, progressed := true)
  }

  function FinishPass(c: Config, s: State): State {
    if s.runnable == [] then
      if s.progressed then StartRound(s, s.nextPending) else s.(phase := Drain)
    else
      s.(phase := Wave, queue := s.runnable, runnable := [], closed := false,
         workers := seq(c.workers, _ => Idle))
  }

  // The next stage of a worker; after sending its results it is idle again.
  function After(worker: Worker): Worker
    requires worker.Busy?
  {
    match worker.stage
    case Validating => worker.(stage := WantsLock)
    case WantsLock => worker.(stage := HoldsLock)
    case HoldsLock => worker.(stage := WroteStatus)
    case WroteStatus => worker.(stage := WroteCompleted)
    case WroteCompleted => worker.(stage := Sending)
    case Sending => Idle
  }

  // Lock, write status, write completed, unlock, send: one stage each.
  function AdvanceWorker(c: Config, s: State, w: nat): State
    requires w < |s.workers| && s.workers[w].Busy?
  {
    var Busy(item, stage) := s.workers[w];
    var results := c.run(item.ref);
    s.(workers := s.workers[w := After(s.workers[w])],
       lock := if stage == WantsLock then Some(w) else if stage == WroteCompleted then None else s.lock,
       status := if stage == HoldsLock
         then s.status[item.ref := if FAIL in results then FAIL else SUCCESS] else s.status,
       completed := if stage == WroteStatus then s.completed + {item.ref} else s.completed,
       out := if stage == Sending then s.out + [Ran(item.ref, results)] else s.out)
  }

  function Apply(c: Config, s: State, a: Action): State
    requires Enabled(s, a)
  {
    match a
    case Examine => ExamineNext(s)
    case EndPass => FinishPass(c, s)
    case EmitUnsatisfied =>
      if s.nextPending == [] then s.(phase := Done)
      else s.(nextPending := s.nextPending[1..], out := s.out + [NotRun(s.nextPending[0].ref, Unsatisfied)])
    case Take(w) => s.(queue := s.queue[1..], workers := s.workers[w := Busy(s.queue[0], Validating)])
    case Advance(w) => AdvanceWorker(c, s, w)
    case Close => s.(closed := true)
    case Exit(w) => s.(workers := s.workers[w := Exited])
    case Join => StartRound(s, s.nextPending)
  }

  // One whole pass, as repeated steps of the coordinator.
  function ExamineAll(s: State): State
    decreases |s.rest|
  {
    if s.rest == [] then s else ExamineAll(ExamineNext(s))
  }

  /** The scheduler's loop over the pending items, which updates its variables as it goes. */
  method ExaminePending(
    ghost s: State, pending: seq<Item>, status0: map<string, int>, completed0: set<string>, out0: seq<Group>
  ) returns (
    runnable: seq<Item>, nextPending: seq<Item>, progressed: bool,
    status: map<string, int>, completed: set<string>, out: seq<Group>)
    requires s.rest == pending && s.runnable == [] && s.nextPending == [] && !s.progressed
    requires s.status == status0 && s.completed == completed0 && s.out == out0
    ensures ExamineAll(s) == s.(rest := [], runnable := runnable, nextPending := nextPending,
                                progressed := progressed, status := status, completed := completed, out := out)
  {
    runnable, nextPending, progressed := [], [], false;
    status, completed, out := status0, completed0, out0;
    ghost var t := s;
    for i := 0 to |pending|
      invariant t == s.(rest := pending[i..], runnable := runnable, nextPending := nextPending,
                        progressed := progressed, status := status, completed := completed, out := out)
      invariant ExamineAll(t) == ExamineAll(s)
    {
      var item := pending[i];
      t := ExamineNext(t);
      assert pending[i..][1..] == pending[i + 1..];
      if item.ref in completed {
        continue;
      }
      var decision := DecideItem(item.deps, status, completed);
      match decision {
        case NotReady => nextPending := nextPending + [item];
        case Ready => runnable := runnable + [item];
        case Skip(reason) =>
          out := out + [NotRun(item.ref, reason)];
          status := status[item.ref := SKIP];
          completed := completed + {item.ref};
          progressed := true;
      }
    }
  }

  ghost predicate Step(c: Config, s: State, t: State) {
    exists a :: Enabled(s, a) && Apply(c, s, a) == t
  }

  // A run: any interleaving of enabled steps from the start.
  ghost predicate IsRun(c: Config, trace: seq<State>) {
    && trace != [] && trace[0] == Init(c)
    && forall i :: 0 <= i < |trace| - 1 ==> Step(c, trace[i], trace[i + 1])
  }
}
