/** The discovery phase: unique register names, a worker pool, and the map of which checks passed. */
module Discovery {
  import opened Wrappers
  import opened Outcomes
  import opened Pool
  import opened Seqs

  // A discovery resource as the entries see it: its identity, its register, and the codes of its results.
  datatype Entry = Entry(id: string, register: string, results: seq<int>)

  datatype EntriesError = MissingRegister(id: string) | DuplicateRegister(register: string) | NoTests

  ghost predicate RegistersUnique(entries: seq<Entry>) {
    forall i, j :: 0 <= i < j < |entries| ==> entries[i].register != entries[j].register
  }

  ghost predicate RegistersGiven(entries: seq<Entry>) {
    forall i :: 0 <= i < |entries| ==> entries[i].register != ""
  }

  /** Collects the entries of every type, rejecting a missing or repeated register. */
  method Entries(resources: seq<Entry>) returns (r: Result<seq<Entry>, EntriesError>)
    ensures r.Success? <==> RegistersGiven(resources) && RegistersUnique(resources)
    ensures r.Success? ==> r.value == resources
    ensures r.Failure? ==> match r.error
      case MissingRegister(id) => exists e :: e in resources && e.id == id && e.register == ""
      case DuplicateRegister(register) =>
        exists i, j :: 0 <= i < j < |resources| && resources[i].register == register == resources[j].register
      case NoTests => false
  {
    var entries: seq<Entry> := [];
    for i := 0 to |resources|
      invariant entries == resources[..i] && RegistersGiven(entries) && RegistersUnique(entries)
    {
      var res := resources[i];
      if res.register == "" {
        return Failure(MissingRegister(res.id));
      }
      for j := 0 to |entries|
        invariant forall k :: 0 <= k < j ==> entries[k].register != res.register
      {
        if entries[j].register == res.register {
          return Failure(DuplicateRegister(res.register));
        }
      }
      entries := entries + [res];
    }
    TakeAll(resources);
    return Success(entries);
  }

  // What a worker computes for one entry.
  function Passed(e: Entry): bool {
    FAIL !in e.results
  }

  // A map from the registers of some entries to whether each passed, and from nothing else.
  ghost predicate Records(entries: seq<Entry>, discovered: map<string, bool>) {
    && discovered.Keys == (set e | e in entries :: e.register)
    && forall e :: e in entries ==> (discovered[e.register] <==> FAIL !in e.results)
  }

  /** Fills the map from the results as they arrive. */
  method Collect(arrived: seq<Entry>) returns (discovered: map<string, bool>)
    requires RegistersUnique(arrived)
    ensures Records(arrived, discovered)
  {
    discovered := map[];
    for i := 0 to |arrived|
      invariant discovered.Keys == set e | e in arrived[..i] :: e.register
      invariant forall k :: 0 <= k < i ==>
        arrived[k].register in discovered && discovered[arrived[k].register] == Passed(arrived[k])
    {
      TakeNext(arrived, i);
      discovered := discovered[arrived[i].register := Passed(arrived[i])];
    }
    TakeAll(arrived);
  }

  lemma UniqueInAnyOrder(entries: seq<Entry>, others: seq<Entry>)
    requires RegistersUnique(entries) && multiset(entries) == multiset(others)
    ensures RegistersUnique(others) && forall e :: e in others <==> e in entries
  {
    SameMembers(others, entries);
    forall i, j | 0 <= i < j < |others|
      ensures others[i].register != others[j].register
    {
      var x, y := others[i], others[j];
      OccursTwice(others, x);
      OccursTwice(entries, x);
      assert x in entries && y in entries;
      var k :| 0 <= k < |entries| && entries[k] == x;
      var l :| 0 <= l < |entries| && entries[l] == y;
    }
  }

  /**
   The entries arrive in any order, but their registers stay unique, so the map is the same function
   from register to passed for every interleaving of the workers.
   */
  lemma ArrivalOrderIsIrrelevant(entries: seq<Entry>, workers: nat, trace: seq<State<Entry>>)
    requires RegistersUnique(entries) && workers >= 1
    requires IsRun(entries, workers, trace) && trace[|trace| - 1].closedOut
    ensures
      var arrived := trace[|trace| - 1].out;
      RegistersUnique(arrived) && forall e :: e in arrived <==> e in entries
  {
    EveryRunIsCorrect(entries, workers, trace);
    UniqueInAnyOrder(entries, trace[|trace| - 1].out);
  }

  // Two maps that record the same entries are equal.
  lemma DiscoveredIsUnique(entries: seq<Entry>, m: map<string, bool>, n: map<string, bool>)
    requires Records(entries, m) && Records(entries, n)
    ensures m == n
  {
  }

  /**
   The resources of each type are kept in a map, so entries may be collected in any order. For accepted
   entries, the maps collected from any two complete runs are equal, whatever the orders in which the
   entries were collected, the numbers of workers and the interleavings.
   */
  lemma DiscoveryIsDeterministic(
    entries: seq<Entry>, workers: nat, trace: seq<State<Entry>>, m: map<string, bool>,
    entries': seq<Entry>, workers': nat, trace': seq<State<Entry>>, m': map<string, bool>)
    requires RegistersUnique(entries) && multiset(entries) == multiset(entries')
    requires workers >= 1 && IsRun(entries, workers, trace) && trace[|trace| - 1].closedOut
    requires workers' >= 1 && IsRun(entries', workers', trace') && trace'[|trace'| - 1].closedOut
    requires Records(trace[|trace| - 1].out, m) && Records(trace'[|trace'| - 1].out, m')
    ensures m == m' && Records(entries, m)
  {
    UniqueInAnyOrder(entries, entries');
    ArrivalOrderIsIrrelevant(entries, workers, trace);
    ArrivalOrderIsIrrelevant(entries', workers', trace');
    DiscoveredIsUnique(entries, m, m');
  }

  /** The whole phase: reject bad registers or none, or record every entry, however the run interleaved. */
  method ValidateDiscovery(
    resources: seq<Entry>, arrived: seq<Entry>, ghost workers: nat, ghost trace: seq<State<Entry>>)
    returns (r: Result<map<string, bool>, EntriesError>)
    requires RegistersGiven(resources) && RegistersUnique(resources) && resources != [] ==>
      && workers >= 1 && IsRun(resources, workers, trace)
      && trace[|trace| - 1].closedOut && arrived == trace[|trace| - 1].out
    ensures r.Success? <==> RegistersGiven(resources) && RegistersUnique(resources) && resources != []
    ensures r == Failure(NoTests) <==> resources == []
    ensures r.Success? ==> Records(resources, r.value)
  {
    var entries := Entries(resources);
    if entries.Failure? {
      return Failure(entries.error);
    }
    if |entries.value| == 0 {
      return Failure(NoTests);
    }
    ArrivalOrderIsIrrelevant(resources, workers, trace);
    var discovered := Collect(arrived);
    r := Success(discovered);
  }
}
