/**
 The shared health cache of the server: concurrent requests, one mutex, a second look under the lock,
 and expiry, as a transition system over a logical clock.
 */
module HealthCache {
  import opened Seqs
  import opened Wrappers

  // Where a response comes from: the request's own sweep, or a stored one read at some time.
  datatype Source = Own | Cached(readAt: int)

  datatype Request =
    | Arrived                              // about to look in the cache
    | Missed                               // waiting for the lock
    | Rechecking                           // holds the lock, about to look again
    | MustSweep                            // holds the lock, found nothing
    | Sweeping(sweep: nat)
    | Swept(sweep: nat)                    // results in hand, about to store them
    | Leaving(sweep: nat, source: Source)  // about to unlock and answer
    | Answered(sweep: nat, source: Source)

  // One validation of the whole system. A sweep that is not over has no end, one not stored no store time.
  datatype Sweep = Sweep(owner: nat, start: int, end: Option<int>, stored: Option<int>)

  datatype Entry = Entry(sweep: nat, expires: int)

  datatype State = State(
    clock: int, entry: Option<Entry>, lock: Option<nat>, requests: seq<Request>, sweeps: seq<Sweep>)

  datatype Action = Arrive | Tick(to: int) | Evict | Advance(r: nat)

  // cacheEnabled
  predicate Enabled(duration: int) {
    duration > 0
  }

  // cachedResults
  function Lookup(duration: int, s: State): Option<nat> {
    if Enabled(duration) && s.entry.Some? && s.clock <= s.entry.value.expires then Some(s.entry.value.sweep)
    else None
  }

  function Init(clock: int): State {
    State(clock, None, None, [], [])
  }

  predicate CanStep(duration: int, s: State, a: Action) {
    match a
    case Arrive => true
    case Tick(to) => s.clock <= to
    case Evict => s.entry.Some? && s.entry.value.expires < s.clock
    case Advance(r) =>
      && r < |s.requests| && !s.requests[r].Answered?
      && (s.requests[r].Missed? ==> s.lock == None)
  }

  // What a request does next, on its own.
  function Next(duration: int, s: State, r: nat): Request
    requires r < |s.requests| && !s.requests[r].Answered?
  {
    var found := Lookup(duration, s);
    match s.requests[r]
    case Arrived => if found.Some? then Answered(found.value, Cached(s.clock)) else Missed
    case Missed => Rechecking
    case Rechecking => if found.Some? then Leaving(found.value, Cached(s.clock)) else MustSweep
    case MustSweep => Sweeping(|s.sweeps|)
    case Sweeping(k) => Swept(k)
    case Swept(k) => Leaving(k, Own)
    case Leaving(k, source) => Answered(k, source)
  }

  // Lock and unlock.
  function LockAfter(s: State, r: nat): Option<nat>
    requires r < |s.requests|
  {
    if s.requests[r].Missed? then Some(r) else if s.requests[r].Leaving? then None else s.lock
  }

  // A sweep starts, ends and is stored.
  function SweepsAfter(duration: int, s: State, r: nat): seq<Sweep>
    requires r < |s.requests|
  {
    match s.requests[r]
    case MustSweep => s.sweeps + [Sweep(r, s.clock, None, None)]
    case Sweeping(k) => if k < |s.sweeps| then s.sweeps[k := s.sweeps[k].(end := Some(s.clock))] else s.sweeps
    case Swept(k) =>
      if Enabled(duration) && k < |s.sweeps| then s.sweeps[k := s.sweeps[k].(stored := Some(s.clock))] else s.sweeps
    case _ => s.sweeps
  }

  // cache.SetDefault, only with caching on
  function EntryAfter(duration: int, s: State, r: nat): Option<Entry>
    requires r < |s.requests|
  {
    match s.requests[r]
    case Swept(k) => if Enabled(duration) then Some(Entry(k, s.clock + duration)) else s.entry
    case _ => s.entry
  }

  function AdvanceRequest(duration: int, s: State, r: nat): State
    requires r < |s.requests| && !s.requests[r].Answered?
  {
    s.(requests := s.requests[r := Next(duration, s, r)], lock := LockAfter(s, r),
       sweeps := SweepsAfter(duration, s, r), entry := EntryAfter(duration, s, r))
  }

  function Apply(duration: int, s: State, a: Action): State
    requires CanStep(duration, s, a)
  {
    match a
    case Arrive => s.(requests := s.requests + [Arrived])
    case Tick(to) => s.(clock := to)
    case Evict => s.(entry := None)
    case Advance(r) => AdvanceRequest(duration, s, r)
  }

  ghost predicate Step(duration: int, s: State, t: State) {
    exists a :: CanStep(duration, s, a) && Apply(duration, s, a) == t
  }

  ghost predicate IsRun(duration: int, trace: seq<State>) {
    && trace != [] && trace[0] == Init(trace[0].clock)
    && forall i :: 0 <= i < |trace| - 1 ==> Step(duration, trace[i], trace[i + 1])
  }

  // ---------- the invariant ----------

  predicate HoldsLock(request: Request) {
    request.Rechecking? || request.MustSweep? || request.Sweeping? || request.Swept? || request.Leaving?
  }

  ghost predicate LockRight(s: State) {
    && (s.lock.Some? ==> s.lock.value < |s.requests|)
    && forall r :: 0 <= r < |s.requests| ==> (HoldsLock(s.requests[r]) <==> s.lock == Some(r))
  }

  // Whether the holder of the lock is in the middle of a sweep, which is then the newest one.
  ghost predicate Working(s: State) {
    s.lock.Some? && s.lock.value < |s.requests| &&
    (s.requests[s.lock.value].Sweeping? || s.requests[s.lock.value].Swept?)
  }

  ghost predicate Over(duration: int, clock: int, w: Sweep) {
    && w.end.Some? && w.start <= w.end.value <= clock
    && (if Enabled(duration) then w.stored.Some? && w.end.value <= w.stored.value <= clock else w.stored.None?)
  }

  // The number of sweeps that are over.
  ghost function OverCount(s: State): int {
    |s.sweeps| - if Working(s) then 1 else 0
  }

  ghost predicate SweepsRight(duration: int, s: State) {
    && (forall k :: 0 <= k < OverCount(s) ==> Over(duration, s.clock, s.sweeps[k]))
    && (Working(s) ==> |s.sweeps| >= 1 && WorkRight(s, s.requests[s.lock.value], s.sweeps[|s.sweeps| - 1]))
  }

  ghost predicate WorkRight(s: State, request: Request, w: Sweep)
    requires request.Sweeping? || request.Swept?
  {
    && s.lock == Some(w.owner) && w.stored == None && w.start <= s.clock && request.sweep == |s.sweeps| - 1
    && (request.Sweeping? ==> w.end == None)
    && (request.Swept? ==> w.end.Some? && w.start <= w.end.value <= s.clock)
  }

  // The next sweep starts after this one is over and, with caching on, after its result has expired.
  ghost predicate Apart(duration: int, w: Sweep, next: int) {
    && w.end.Some? && w.end.value <= next
    && (Enabled(duration) ==> w.stored.Some? && w.stored.value + duration < next)
  }

  ghost predicate Spaced(duration: int, s: State) {
    && (forall k :: 0 <= k < |s.sweeps| - 1 ==> Apart(duration, s.sweeps[k], s.sweeps[k + 1].start))
    && (forall r :: 0 <= r < |s.requests| && s.requests[r].MustSweep? && s.sweeps != [] ==>
          Apart(duration, s.sweeps[|s.sweeps| - 1], s.clock))
  }

  // What is stored is the newest sweep that is over, until it has expired.
  ghost predicate EntryRight(duration: int, s: State) {
    var n := OverCount(s);
    && (s.entry.Some? ==>
          Enabled(duration) && n >= 1 && s.entry.value.sweep == n - 1 &&
          s.sweeps[n - 1].stored == Some(s.entry.value.expires - duration))
    && (Enabled(duration) && n >= 1 && s.sweeps[n - 1].stored.Some? && s.entry.None? ==>
          s.sweeps[n - 1].stored.value + duration < s.clock)
  }

  ghost predicate AnswerRight(duration: int, s: State, r: nat, k: nat, source: Source) {
    && k < OverCount(s)
    && (source.Own? ==> s.sweeps[k].owner == r)
    && (source.Cached? ==>
          && s.sweeps[k].stored.Some? && source.readAt <= s.clock
          && s.sweeps[k].stored.value <= source.readAt <= s.sweeps[k].stored.value + duration)
  }

  ghost predicate AnswersRight(duration: int, s: State) {
    forall r :: 0 <= r < |s.requests| && (s.requests[r].Leaving? || s.requests[r].Answered?) ==>
      AnswerRight(duration, s, r, s.requests[r].sweep, s.requests[r].source)
  }

  ghost predicate Inv(duration: int, s: State) {
    && LockRight(s) && SweepsRight(duration, s) && Spaced(duration, s) && EntryRight(duration, s)
    && AnswersRight(duration, s)
  }

  lemma ArriveKeeps(duration: int, s: State)
    requires Inv(duration, s)
    ensures Inv(duration, Apply(duration, s, Arrive))
  {
    var t := Apply(duration, s, Arrive);
    assert forall r :: 0 <= r < |s.requests| ==> t.requests[r] == s.requests[r];
    assert Working(t) == Working(s);
  }

  lemma TimeKeeps(duration: int, s: State, a: Action)
    requires Inv(duration, s) && CanStep(duration, s, a) && (a.Tick? || a.Evict?)
    ensures Inv(duration, Apply(duration, s, a))
  {
    assert Working(Apply(duration, s, a)) == Working(s);
  }

  lemma LockKept(duration: int, s: State, r: nat)
    requires LockRight(s) && CanStep(duration, s, Advance(r))
    ensures LockRight(AdvanceRequest(duration, s, r))
  {
  }

  lemma SweepsKept(duration: int, s: State, r: nat)
    requires LockRight(s) && SweepsRight(duration, s) && CanStep(duration, s, Advance(r))
    ensures SweepsRight(duration, AdvanceRequest(duration, s, r))
  {
    assert HoldsLock(s.requests[r]) <==> s.lock == Some(r);
  }

  // Finding nothing under the lock means that the newest result, if any, has expired.
  lemma SpacedKept(duration: int, s: State, r: nat)
    requires LockRight(s) && SweepsRight(duration, s) && EntryRight(duration, s) && Spaced(duration, s)
    requires CanStep(duration, s, Advance(r))
    ensures Spaced(duration, AdvanceRequest(duration, s, r))
  {
    assert HoldsLock(s.requests[r]) <==> s.lock == Some(r);
    var t := AdvanceRequest(duration, s, r);
    forall k | 0 <= k < |t.sweeps| - 1
      ensures Apart(duration, t.sweeps[k], t.sweeps[k + 1].start)
    {
      if k + 1 < |s.sweeps| {
        assert Apart(duration, s.sweeps[k], s.sweeps[k + 1].start);
      }
    }
  }

  lemma EntryKept(duration: int, s: State, r: nat)
    requires LockRight(s) && SweepsRight(duration, s) && EntryRight(duration, s) && Spaced(duration, s)
    requires CanStep(duration, s, Advance(r))
    ensures EntryRight(duration, AdvanceRequest(duration, s, r))
  {
    assert HoldsLock(s.requests[r]) <==> s.lock == Some(r);
  }

  lemma AnswerStays(duration: int, s: State, r: nat, q: nat, k: nat, source: Source)
    requires LockRight(s) && SweepsRight(duration, s) && CanStep(duration, s, Advance(r))
    requires AnswerRight(duration, s, q, k, source)
    ensures AnswerRight(duration, AdvanceRequest(duration, s, r), q, k, source)
  {
    assert HoldsLock(s.requests[r]) <==> s.lock == Some(r);
  }

  lemma AnswersKept(duration: int, s: State, r: nat)
    requires LockRight(s) && SweepsRight(duration, s) && EntryRight(duration, s) && AnswersRight(duration, s)
    requires CanStep(duration, s, Advance(r))
    ensures AnswersRight(duration, AdvanceRequest(duration, s, r))
  {
    var t := AdvanceRequest(duration, s, r);
    assert HoldsLock(s.requests[r]) <==> s.lock == Some(r);
    forall q | 0 <= q < |t.requests| && (t.requests[q].Leaving? || t.requests[q].Answered?)
      ensures AnswerRight(duration, t, q, t.requests[q].sweep, t.requests[q].source)
    {
      if q != r || s.requests[r].Leaving? {
        AnswerStays(duration, s, r, q, s.requests[q].sweep, s.requests[q].source);
      }
    }
  }

  lemma StepKeeps(duration: int, s: State, a: Action)
    requires Inv(duration, s) && CanStep(duration, s, a)
    ensures Inv(duration, Apply(duration, s, a))
  {
    if a.Advance? {
      LockKept(duration, s, a.r);
      SweepsKept(duration, s, a.r);
      SpacedKept(duration, s, a.r);
      EntryKept(duration, s, a.r);
      AnswersKept(duration, s, a.r);
    } else if a.Arrive? {
      ArriveKeeps(duration, s);
    } else {
      TimeKeeps(duration, s, a);
    }
  }

  // ---------- theorems ----------

  lemma RunBefore(duration: int, trace: seq<State>)
    requires IsRun(duration, trace) && |trace| > 1
    ensures IsRun(duration, trace[..|trace| - 1]) && Step(duration, trace[|trace| - 2], trace[|trace| - 1])
  {
    var before, last := trace[..|trace| - 1], |trace| - 2;
    forall i | 0 <= i < |before| - 1
      ensures Step(duration, before[i], before[i + 1])
    {
      assert Step(duration, trace[i], trace[i + 1]);
    }
    assert Step(duration, trace[last], trace[last + 1]);
  }

  lemma RunExtends(duration: int, trace: seq<State>, t: State)
    requires IsRun(duration, trace) && Step(duration, trace[|trace| - 1], t)
    ensures IsRun(duration, trace + [t])
  {
    var after := trace + [t];
    forall i | 0 <= i < |after| - 1
      ensures Step(duration, after[i], after[i + 1])
    {
      if i < |trace| - 1 {
        assert Step(duration, trace[i], trace[i + 1]);
      }
    }
  }

  lemma {:induction false} RunKeeps(duration: int, trace: seq<State>)
    requires IsRun(duration, trace)
    ensures Inv(duration, trace[|trace| - 1])
  {
    if |trace| > 1 {
      var last := |trace| - 2;
      RunBefore(duration, trace);
      RunKeeps(duration, trace[..|trace| - 1]);
      var a :| CanStep(duration, trace[last], a) && Apply(duration, trace[last], a) == trace[last + 1];
      StepKeeps(duration, trace[last], a);
    }
  }

  lemma {:induction false} SweepsApart(duration: int, s: State, i: nat, j: nat)
    requires SweepsRight(duration, s) && Spaced(duration, s) && i < j < |s.sweeps|
    ensures s.sweeps[i].end.Some? && s.sweeps[i].end.value <= s.sweeps[j].start
    ensures Enabled(duration) ==> s.sweeps[i].start + (j - i) * duration < s.sweeps[j].start
    decreases j - i
  {
    var n := j - i - 1;
    assert Apart(duration, s.sweeps[j - 1], s.sweeps[j - 1 + 1].start);
    assert Over(duration, s.clock, s.sweeps[j - 1]);
    OneMoreGap(n, duration);
    if n > 0 {
      SweepsApart(duration, s, i, j - 1);
    }
  }

  lemma OneMoreGap(n: int, duration: int)
    ensures (n + 1) * duration == n * duration + duration
    ensures n == 0 ==> n * duration == 0
  {
  }

  /**
   Sweeps never overlap, and with caching on they are spread out: any two sweeps of any run are more
   than the cache duration apart for each sweep between them, however many requests arrive.
   */
  lemma SweepsNeverOverlap(duration: int, trace: seq<State>, i: nat, j: nat)
    requires IsRun(duration, trace) && i < j < |trace[|trace| - 1].sweeps|
    ensures
      var sweeps := trace[|trace| - 1].sweeps;
      && sweeps[i].end.Some? && sweeps[i].end.value <= sweeps[j].start
      && (duration > 0 ==> sweeps[i].start + (j - i) * duration < sweeps[j].start)
  {
    RunKeeps(duration, trace);
    SweepsApart(duration, trace[|trace| - 1], i, j);
  }

  /** No sweep starts while a stored result is unexpired, and with caching on every earlier sweep was stored. */
  lemma NoSweepWhileFresh(duration: int, trace: seq<State>, r: nat)
    requires IsRun(duration, trace) && CanStep(duration, trace[|trace| - 1], Advance(r))
    requires trace[|trace| - 1].requests[r].MustSweep?
    ensures Lookup(duration, trace[|trace| - 1]) == None
    ensures
      var s := trace[|trace| - 1];
      forall k :: 0 <= k < |s.sweeps| && (duration > 0 || s.sweeps[k].stored.Some?) ==>
        s.sweeps[k].stored.Some? && s.sweeps[k].stored.value + duration < s.clock
  {
    var s := trace[|trace| - 1];
    RunKeeps(duration, trace);
    assert HoldsLock(s.requests[r]) && s.lock == Some(r);
    forall k | 0 <= k < |s.sweeps| && (duration > 0 || s.sweeps[k].stored.Some?)
      ensures s.sweeps[k].stored.Some? && s.sweeps[k].stored.value + duration < s.clock
    {
      var last := |s.sweeps| - 1;
      assert Over(duration, s.clock, s.sweeps[k]) && Over(duration, s.clock, s.sweeps[last]);
      assert Apart(duration, s.sweeps[last], s.clock);
      if k < last {
        assert Apart(duration, s.sweeps[k], s.sweeps[k + 1].start);
        assert Over(duration, s.clock, s.sweeps[k + 1]);
      }
    }
  }

  /**
   Every response is the result of the request's own sweep, or of a stored one that was unexpired when
   it was read; the sweep was over by then. With caching off every response is the request's own.
   */
  lemma EveryAnswerIsFresh(duration: int, trace: seq<State>, r: nat)
    requires IsRun(duration, trace) && r < |trace[|trace| - 1].requests|
    requires trace[|trace| - 1].requests[r].Answered?
    ensures
      var s := trace[|trace| - 1];
      var k := s.requests[r].sweep;
      && k < |s.sweeps| && s.sweeps[k].end.Some?
      && match s.requests[r].source
         case Own => s.sweeps[k].owner == r
         case Cached(at) =>
           && duration > 0 && s.sweeps[k].stored.Some? && s.sweeps[k].end.value <= s.sweeps[k].stored.value
           && s.sweeps[k].stored.value <= at <= s.sweeps[k].stored.value + duration && at <= s.clock
  {
    var s := trace[|trace| - 1];
    RunKeeps(duration, trace);
    assert AnswerRight(duration, s, r, s.requests[r].sweep, s.requests[r].source);
    assert Over(duration, s.clock, s.sweeps[s.requests[r].sweep]);
  }

  /** With a duration above zero every result has been stored by the time its request answers. */
  lemma StoredBeforeAnswer(duration: int, trace: seq<State>, r: nat)
    requires IsRun(duration, trace) && duration > 0
    requires r < |trace[|trace| - 1].requests| && trace[|trace| - 1].requests[r].Answered?
    ensures
      var s := trace[|trace| - 1];
      var k := s.requests[r].sweep;
      && k < |s.sweeps| && s.sweeps[k].end.Some? && s.sweeps[k].stored.Some?
      && s.sweeps[k].end.value <= s.sweeps[k].stored.value <= s.clock
  {
    var s := trace[|trace| - 1];
    RunKeeps(duration, trace);
    assert AnswerRight(duration, s, r, s.requests[r].sweep, s.requests[r].source);
    assert Over(duration, s.clock, s.sweeps[s.requests[r].sweep]);
  }

  /**
   A request that looks while the newest result is stored and unexpired is answered with it: at once when
   it has just arrived, and as soon as it has unlocked when it had to wait for the lock.
   */
  lemma FreshIsShared(duration: int, trace: seq<State>, r: nat)
    requires IsRun(duration, trace) && duration > 0 && CanStep(duration, trace[|trace| - 1], Advance(r))
    requires trace[|trace| - 1].requests[r].Arrived? || trace[|trace| - 1].requests[r].Rechecking?
    requires
      var s := trace[|trace| - 1];
      exists k :: 0 <= k < |s.sweeps| && s.sweeps[k].stored.Some? && s.clock <= s.sweeps[k].stored.value + duration
    ensures
      var s := trace[|trace| - 1];
      var newest := if s.sweeps[|s.sweeps| - 1].stored.Some? then |s.sweeps| - 1 else |s.sweeps| - 2;
      AdvanceRequest(duration, s, r).requests[r] ==
        if s.requests[r].Arrived? then Answered(newest, Cached(s.clock)) else Leaving(newest, Cached(s.clock))
  {
    var s := trace[|trace| - 1];
    RunKeeps(duration, trace);
    var k :| 0 <= k < |s.sweeps| && s.sweeps[k].stored.Some? && s.clock <= s.sweeps[k].stored.value + duration;
    FreshIsNewest(duration, s, k);
  }

  /** A request that arrives while the newest result is fresh is answered with it in one step, lock or not. */
  lemma ArrivalIsServed(duration: int, trace: seq<State>)
    requires IsRun(duration, trace) && duration > 0
    requires
      var s := trace[|trace| - 1];
      exists k :: 0 <= k < |s.sweeps| && s.sweeps[k].stored.Some? && s.clock <= s.sweeps[k].stored.value + duration
    ensures
      var s := trace[|trace| - 1];
      var t, r := Apply(duration, s, Arrive), |s.requests|;
      && CanStep(duration, t, Advance(r))
      && Apply(duration, t, Advance(r)).requests[r].Answered?
      && Apply(duration, t, Advance(r)).requests[r].source == Cached(s.clock)
  {
    var s := trace[|trace| - 1];
    var t := Apply(duration, s, Arrive);
    assert CanStep(duration, s, Arrive) && Step(duration, s, t);
    RunExtends(duration, trace, t);
    assert t.sweeps == s.sweeps && t.clock == s.clock;
    FreshIsShared(duration, trace + [t], |s.requests|);
  }

  lemma OlderExpired(duration: int, s: State, k: nat)
    requires Inv(duration, s) && duration > 0
    ensures k + 1 < |s.sweeps| ==> s.sweeps[k].stored.Some? && s.sweeps[k].stored.value + duration < s.clock
  {
    if k + 1 < |s.sweeps| {
      assert Apart(duration, s.sweeps[k], s.sweeps[k + 1].start);
      assert k + 1 < OverCount(s) ==> Over(duration, s.clock, s.sweeps[k + 1]);
    }
  }

  lemma FreshIsNewest(duration: int, s: State, k: nat)
    requires Inv(duration, s) && duration > 0 && k < |s.sweeps| && s.sweeps[k].stored.Some?
    requires s.clock <= s.sweeps[k].stored.value + duration
    ensures k == OverCount(s) - 1 && s.entry.Some? && s.clock <= s.entry.value.expires
    ensures OverCount(s) == if s.sweeps[|s.sweeps| - 1].stored.Some? then |s.sweeps| else |s.sweeps| - 1
  {
    OlderExpired(duration, s, k);
  }

  /** With a duration of zero or less nothing is ever stored and no two requests share a sweep. */
  lemma CachingOff(duration: int, trace: seq<State>, q: nat, r: nat)
    requires IsRun(duration, trace) && duration <= 0
    requires q < |trace[|trace| - 1].requests| && r < |trace[|trace| - 1].requests| && q != r
    requires trace[|trace| - 1].requests[q].Answered? && trace[|trace| - 1].requests[r].Answered?
    ensures trace[|trace| - 1].entry == None
    ensures trace[|trace| - 1].requests[q].sweep != trace[|trace| - 1].requests[r].sweep
  {
    RunKeeps(duration, trace);
    EveryAnswerIsFresh(duration, trace, q);
    EveryAnswerIsFresh(duration, trace, r);
  }

  /** While a request is unanswered some request can go on: the lock is never lost. */
  lemma NeverStuck(duration: int, trace: seq<State>, r: nat)
    requires IsRun(duration, trace) && r < |trace[|trace| - 1].requests|
    requires !trace[|trace| - 1].requests[r].Answered?
    ensures
      var s := trace[|trace| - 1];
      exists q :: CanStep(duration, s, Advance(q))
  {
    var s := trace[|trace| - 1];
    RunKeeps(duration, trace);
    if s.lock.Some? {
      assert HoldsLock(s.requests[s.lock.value]);
      assert CanStep(duration, s, Advance(s.lock.value));
    } else {
      assert CanStep(duration, s, Advance(r));
    }
  }

  // ---------- every burst is answered ----------

  const STEPS_TO_ANSWER := 7

  // The steps a request may still take.
  function Rank(request: Request): (n: nat)
    ensures n <= STEPS_TO_ANSWER && (n == 0 <==> request.Answered?)
  {
    match request
    case Arrived => 7
    case Missed => 6
    case Rechecking => 5
    case MustSweep => 4
    case Sweeping(_) => 3
    case Swept(_) => 2
    case Leaving(_, _) => 1
    case Answered(_, _) => 0
  }

  function Left(s: State): nat {
    Sum(s.requests, Rank)
  }

  // Every step of a request leaves fewer to take, and no other step than an arrival adds any.
  lemma StepCounts(duration: int, s: State, a: Action)
    requires CanStep(duration, s, a)
    ensures
      var t := Apply(duration, s, a);
      && |t.requests| == |s.requests| + One(a.Arrive?)
      && Left(t) + One(a.Advance?) <= Left(s) + if a.Arrive? then STEPS_TO_ANSWER else 0
  {
    if a.Advance? {
      SumUpdate(s.requests, a.r, Next(duration, s, a.r), Rank);
    } else if a.Arrive? {
      SumPush(s.requests, Arrived, Rank);
    }
  }

  // The steps of requests in a run: those that change a request, and do not add one.
  ghost function RequestSteps(trace: seq<State>): nat {
    if |trace| < 2 then 0
    else
      var n := |trace| - 1;
      var advanced := trace[n].requests != trace[n - 1].requests && |trace[n].requests| == |trace[n - 1].requests|;
      RequestSteps(trace[..n]) + One(advanced)
  }

  ghost predicate AllAnswered(s: State) {
    forall r :: 0 <= r < |s.requests| ==> s.requests[r].Answered?
  }

  /** In a run with n requests they take at most 7n steps together: no request waits for ever on the others. */
  lemma {:induction false} RequestStepsAreFew(duration: int, trace: seq<State>)
    requires IsRun(duration, trace)
    ensures
      var s := trace[|trace| - 1];
      RequestSteps(trace) + Left(s) <= STEPS_TO_ANSWER * |s.requests|
  {
    if |trace| > 1 {
      var before, n := trace[..|trace| - 1], |trace| - 1;
      RunBefore(duration, trace);
      RequestStepsAreFew(duration, before);
      var a :| CanStep(duration, trace[n - 1], a) && Apply(duration, trace[n - 1], a) == trace[n];
      StepCounts(duration, trace[n - 1], a);
    }
  }

  lemma SomeoneAdvances(duration: int, trace: seq<State>) returns (t: State)
    requires IsRun(duration, trace) && !AllAnswered(trace[|trace| - 1])
    ensures IsRun(duration, trace + [t]) && Left(t) < Left(trace[|trace| - 1])
    ensures |t.requests| == |trace[|trace| - 1].requests| && t.clock == trace[|trace| - 1].clock
  {
    var s := trace[|trace| - 1];
    var r :| 0 <= r < |s.requests| && !s.requests[r].Answered?;
    NeverStuck(duration, trace, r);
    var q :| CanStep(duration, s, Advance(q));
    t := Apply(duration, s, Advance(q));
    StepCounts(duration, s, Advance(q));
    RunExtends(duration, trace, t);
  }

  /**
   From every point of every run the requests can go on, without new arrivals and without time passing,
   until all of them are answered.
   */
  lemma {:induction false} BurstIsAnswered(duration: int, trace: seq<State>) returns (run: seq<State>)
    requires IsRun(duration, trace)
    ensures IsRun(duration, run) && trace <= run && |run| <= |trace| + Left(trace[|trace| - 1])
    ensures
      var s, t := trace[|trace| - 1], run[|run| - 1];
      AllAnswered(t) && |t.requests| == |s.requests| && t.clock == s.clock
    decreases Left(trace[|trace| - 1])
  {
    run := trace;
    if !AllAnswered(trace[|trace| - 1]) {
      var t := SomeoneAdvances(duration, trace);
      run := BurstIsAnswered(duration, trace + [t]);
    }
  }
}
