/**
 Building the schedule: every depends-on entry is resolved to one resource, and the graph of
 the resolved references must be acyclic.
 */
module Schedule {
  import opened Wrappers
  import opened Graphs
  import opened Seqs

  datatype Resource = Resource(typeKey: string, key: string, dependsOn: seq<string>)

  // A resource with its prerequisites resolved to references.
  datatype Item = Item(ref: string, deps: seq<string>)

  datatype ScheduleError =
    | DuplicateReference(ref: string)
    | InvalidReference(dep: string)
    | NotFound(dep: string)
    | Ambiguous(dep: string, matches: seq<string>)
    | DependencyCycle(ref: string)

  function Ref(r: Resource): string {
    r.typeKey + ":" + r.key
  }

  // ---------- what a depends-on entry means ----------

  function FirstColon(s: string, i: nat := 0): (r: nat)
    requires i <= |s| && ':' in s[i..]
    ensures i <= r < |s| && s[r] == ':' && forall k :: i <= k < r ==> s[k] != ':'
    decreases |s| - i
  {
    if s[i] == ':' then i else FirstColon(s, i + 1)
  }

  // A qualified entry has text on both sides of its first colon.
  predicate BothSidesGiven(dep: string)
    requires ':' in dep
  {
    assert dep[0..] == dep;
    0 < FirstColon(dep) < |dep| - 1
  }

  predicate Denotes(dep: string, r: Resource) {
    if ':' in dep then BothSidesGiven(dep) && Ref(r) == dep else r.key == dep
  }

  // dep stands for one resource, the one called ref.
  ghost predicate Resolves(resources: seq<Resource>, dep: string, ref: string) {
    && (exists r :: r in resources && Denotes(dep, r) && Ref(r) == ref)
    && (forall r :: r in resources && Denotes(dep, r) ==> Ref(r) == ref)
  }

  ghost predicate Resolvable(resources: seq<Resource>, dep: string) {
    exists ref :: Resolves(resources, dep, ref)
  }

  ghost predicate UniqueReferences(resources: seq<Resource>) {
    forall i, j :: 0 <= i < j < |resources| ==> Ref(resources[i]) != Ref(resources[j])
  }

  ghost predicate AllResolvable(resources: seq<Resource>) {
    forall r, dep :: r in resources && dep in r.dependsOn ==> Resolvable(resources, dep)
  }

  // ---------- schedules ----------

  ghost predicate ItemFor(resources: seq<Resource>, r: Resource, item: Item) {
    && item.ref == Ref(r) && |item.deps| == |r.dependsOn|
    && forall k :: 0 <= k < |item.deps| ==> Resolves(resources, r.dependsOn[k], item.deps[k])
  }

  // One item per resource, in order, with every prerequisite resolved in declared order.
  ghost predicate IsScheduleOf(resources: seq<Resource>, schedule: seq<Item>) {
    && |schedule| == |resources|
    && forall i :: 0 <= i < |schedule| ==> ItemFor(resources, resources[i], schedule[i])
  }

  ghost predicate UniqueItems(schedule: seq<Item>) {
    forall i, j :: 0 <= i < j < |schedule| ==> schedule[i].ref != schedule[j].ref
  }

  function GraphOf(schedule: seq<Item>): Graph {
    if schedule == [] then map[]
    else GraphOf(schedule[..|schedule| - 1])[schedule[|schedule| - 1].ref := schedule[|schedule| - 1].deps]
  }

  ghost predicate Closed(schedule: seq<Item>) {
    forall item, d :: item in schedule && d in item.deps ==> exists other :: other in schedule && other.ref == d
  }

  // What the wave scheduler relies on.
  ghost predicate WellFormed(schedule: seq<Item>) {
    UniqueItems(schedule) && Closed(schedule) && Acyclic(GraphOf(schedule))
  }

  ghost predicate Schedulable(resources: seq<Resource>) {
    && UniqueReferences(resources) && AllResolvable(resources)
    && forall schedule :: IsScheduleOf(resources, schedule) ==> Acyclic(GraphOf(schedule))
  }

  lemma {:induction false} GraphOfItems(schedule: seq<Item>)
    requires UniqueItems(schedule)
    ensures forall item :: item in schedule ==>
      item.ref in GraphOf(schedule) && GraphOf(schedule)[item.ref] == item.deps
    ensures forall u :: u in GraphOf(schedule) ==> exists item :: item in schedule && item.ref == u
  {
    if schedule != [] {
      var n := |schedule| - 1;
      GraphOfItems(schedule[..n]);
      forall item | item in schedule
        ensures item.ref in GraphOf(schedule) && GraphOf(schedule)[item.ref] == item.deps
      {
        var i :| 0 <= i < |schedule| && schedule[i] == item;
        if i < n {
          assert schedule[..n][i] == item;
        }
      }
      forall u | u in GraphOf(schedule)
        ensures exists item :: item in schedule && item.ref == u
      {
        if u != schedule[n].ref {
          var item :| item in schedule[..n] && item.ref == u;
          assert item in schedule;
        } else {
          assert schedule[n] in schedule;
        }
      }
    }
  }

  lemma ResolvesUnique(resources: seq<Resource>, dep: string, a: string, b: string)
    requires Resolves(resources, dep, a) && Resolves(resources, dep, b)
    ensures a == b
  {
  }

  lemma ScheduleUnique(resources: seq<Resource>, s: seq<Item>, t: seq<Item>)
    requires IsScheduleOf(resources, s) && IsScheduleOf(resources, t)
    ensures s == t
  {
    forall i | 0 <= i < |s|
      ensures s[i] == t[i]
    {
      assert ItemFor(resources, resources[i], s[i]) && ItemFor(resources, resources[i], t[i]);
      forall k | 0 <= k < |s[i].deps|
        ensures s[i].deps[k] == t[i].deps[k]
      {
        ResolvesUnique(resources, resources[i].dependsOn[k], s[i].deps[k], t[i].deps[k]);
      }
    }
  }

  // A schedule of uniquely named resources names only resources it holds.
  lemma ScheduleIsClosed(resources: seq<Resource>, schedule: seq<Item>)
    requires UniqueReferences(resources) && IsScheduleOf(resources, schedule)
    ensures UniqueItems(schedule) && Closed(schedule)
  {
    forall i, j | 0 <= i < j < |schedule|
      ensures schedule[i].ref != schedule[j].ref
    {
      assert ItemFor(resources, resources[i], schedule[i]) && ItemFor(resources, resources[j], schedule[j]);
    }
    forall item, d | item in schedule && d in item.deps
      ensures exists other :: other in schedule && other.ref == d
    {
      var i :| 0 <= i < |schedule| && schedule[i] == item;
      var k :| 0 <= k < |item.deps| && item.deps[k] == d;
      assert ItemFor(resources, resources[i], item);
      assert Resolves(resources, resources[i].dependsOn[k], d);
      var r :| r in resources && Ref(r) == d;
      var j :| 0 <= j < |resources| && resources[j] == r;
      assert ItemFor(resources, resources[j], schedule[j]);
      assert schedule[j] in schedule;
    }
  }

  // ---------- reordering ----------

  lemma SameGraph(s: seq<Item>, t: seq<Item>)
    requires UniqueItems(s) && UniqueItems(t) && forall item :: item in s <==> item in t
    ensures GraphOf(s) == GraphOf(t)
  {
    GraphOfItems(s);
    GraphOfItems(t);
    var g, h := GraphOf(s), GraphOf(t);
    forall u
      ensures u in g <==> u in h
      ensures u in g ==> g[u] == h[u]
    {
      if u in g {
        var item :| item in s && item.ref == u;
      }
      if u in h {
        var item :| item in t && item.ref == u;
      }
    }
  }

  lemma SameItems(resources: seq<Resource>, s: seq<Item>, resources': seq<Resource>, t: seq<Item>)
    requires forall r :: r in resources <==> r in resources'
    requires IsScheduleOf(resources, s) && IsScheduleOf(resources', t)
    ensures forall item :: item in s ==> item in t
  {
    forall item | item in s
      ensures item in t
    {
      var i :| 0 <= i < |s| && s[i] == item;
      assert ItemFor(resources, resources[i], s[i]);
      assert resources[i] in resources;
      var j :| 0 <= j < |resources'| && resources'[j] == resources[i];
      assert ItemFor(resources', resources'[j], t[j]);
      forall k | 0 <= k < |item.deps|
        ensures item.deps[k] == t[j].deps[k]
      {
        assert Resolves(resources, resources[i].dependsOn[k], item.deps[k]);
        assert Resolves(resources', resources[i].dependsOn[k], t[j].deps[k]);
        var r :| r in resources && Denotes(resources[i].dependsOn[k], r) && Ref(r) == item.deps[k];
        assert r in resources';
      }
      assert t[j].deps == item.deps;
      assert t[j] == item && t[j] in t;
    }
  }

  lemma ResolvesInAnyOrder(resources: seq<Resource>, resources': seq<Resource>, dep: string, ref: string)
    requires (forall r :: r in resources <==> r in resources') && Resolves(resources, dep, ref)
    ensures Resolves(resources', dep, ref)
  {
    var r :| r in resources && Denotes(dep, r) && Ref(r) == ref;
    assert r in resources';
  }

  lemma UniqueInAnyOrder(resources: seq<Resource>, resources': seq<Resource>)
    requires multiset(resources) == multiset(resources') && UniqueReferences(resources)
    ensures UniqueReferences(resources')
  {
    SameMembers(resources, resources');
    forall i, j | 0 <= i < j < |resources'|
      ensures Ref(resources'[i]) != Ref(resources'[j])
    {
      var x, y := resources'[i], resources'[j];
      OccursTwice(resources', x);
      OccursTwice(resources, x);
      assert x in resources && y in resources;
      var k :| 0 <= k < |resources| && resources[k] == x;
      var l :| 0 <= l < |resources| && resources[l] == y;
    }
  }

  // A schedule of the same resources in another order.
  lemma {:induction false} Rearranged(resources: seq<Resource>, resources': seq<Resource>, t: seq<Item>, n: nat)
    returns (s: seq<Item>)
    requires forall r :: r in resources <==> r in resources'
    requires IsScheduleOf(resources', t) && n <= |resources|
    ensures |s| == n && forall i :: 0 <= i < n ==> ItemFor(resources, resources[i], s[i])
  {
    if n == 0 {
      s := [];
    } else {
      s := Rearranged(resources, resources', t, n - 1);
      var r := resources[n - 1];
      assert r in resources';
      var j :| 0 <= j < |resources'| && resources'[j] == r;
      assert ItemFor(resources', r, t[j]);
      forall k | 0 <= k < |t[j].deps|
        ensures Resolves(resources, r.dependsOn[k], t[j].deps[k])
      {
        ResolvesInAnyOrder(resources', resources, r.dependsOn[k], t[j].deps[k]);
      }
      assert ItemFor(resources, r, t[j]);
      s := s + [t[j]];
    }
  }

  lemma SchedulableReordered(resources: seq<Resource>, resources': seq<Resource>)
    requires multiset(resources) == multiset(resources') && Schedulable(resources)
    ensures Schedulable(resources')
  {
    SameMembers(resources, resources');
    UniqueInAnyOrder(resources, resources');
    forall r, dep | r in resources' && dep in r.dependsOn
      ensures Resolvable(resources', dep)
    {
      assert r in resources && Resolvable(resources, dep);
      var ref :| Resolves(resources, dep, ref);
      ResolvesInAnyOrder(resources, resources', dep, ref);
    }
    forall t | IsScheduleOf(resources', t)
      ensures Acyclic(GraphOf(t))
    {
      var s := Rearranged(resources, resources', t, |resources|);
      assert IsScheduleOf(resources, s);
      ScheduleIsClosed(resources, s);
      ScheduleIsClosed(resources', t);
      SameItems(resources, s, resources', t);
      SameItems(resources', t, resources, s);
      SameGraph(s, t);
    }
  }

  /** Whether a schedule can be built does not depend on the order of the resources. */
  lemma SchedulableInAnyOrder(resources: seq<Resource>, resources': seq<Resource>)
    requires multiset(resources) == multiset(resources')
    ensures Schedulable(resources) <==> Schedulable(resources')
  {
    if Schedulable(resources) {
      SchedulableReordered(resources, resources');
    }
    if Schedulable(resources') {
      SchedulableReordered(resources', resources);
    }
  }

  // ---------- resolving ----------

  ghost predicate RefsIndexed(resources: seq<Resource>, index: set<string>) {
    forall ref :: ref in index <==> exists r :: r in resources && Ref(r) == ref
  }

  ghost predicate KeysIndexed(resources: seq<Resource>, refsByKey: map<string, seq<string>>) {
    && (forall key :: key in refsByKey ==> refsByKey[key] != [])
    && (forall key :: RefsWithKey(resources, key) == if key in refsByKey then refsByKey[key] else [])
  }

  // The two maps the resolver looks in, as functions of the resources already read.
  ghost predicate Indexes(resources: seq<Resource>, index: set<string>, refsByKey: map<string, seq<string>>) {
    RefsIndexed(resources, index) && KeysIndexed(resources, refsByKey)
  }

  lemma UniqueGrows(resources: seq<Resource>, r: Resource)
    requires UniqueReferences(resources) && forall x :: x in resources ==> Ref(x) != Ref(r)
    ensures UniqueReferences(resources + [r])
  {
    forall i | 0 <= i < |resources|
      ensures Ref(resources[i]) != Ref(r)
    {
      assert resources[i] in resources;
    }
  }

  lemma NotIndexed(resources: seq<Resource>, r: Resource, index: set<string>)
    requires RefsIndexed(resources, index) && Ref(r) !in index
    ensures forall x :: x in resources ==> Ref(x) != Ref(r)
  {
  }

  lemma ReferencesGrow(resources: seq<Resource>, r: Resource, ref: string)
    ensures (exists x :: x in resources + [r] && Ref(x) == ref) <==>
      ref == Ref(r) || exists x :: x in resources && Ref(x) == ref
  {
    var all := resources + [r];
    assert r in all;
    if x :| x in resources && Ref(x) == ref {
      assert x in all;
    }
  }

  lemma KeysGrow(resources: seq<Resource>, r: Resource, key: string)
    ensures RefsWithKey(resources + [r], key) ==
      if r.key == key then RefsWithKey(resources, key) + [Ref(r)] else RefsWithKey(resources, key)
  {
    assert (resources + [r])[..|resources|] == resources;
  }

  lemma RefsByKeyGrow(resources: seq<Resource>, r: Resource, refsByKey: map<string, seq<string>>)
    requires KeysIndexed(resources, refsByKey)
    ensures
      var shared := if r.key in refsByKey then refsByKey[r.key] else [];
      KeysIndexed(resources + [r], refsByKey[r.key := shared + [Ref(r)]])
  {
    var shared := if r.key in refsByKey then refsByKey[r.key] else [];
    var now := refsByKey[r.key := shared + [Ref(r)]];
    forall key
      ensures RefsWithKey(resources + [r], key) == if key in now then now[key] else []
    {
      KeysGrow(resources, r, key);
    }
  }

  lemma RefsGrow(resources: seq<Resource>, r: Resource, index: set<string>)
    requires RefsIndexed(resources, index)
    ensures RefsIndexed(resources + [r], index + {Ref(r)})
  {
    forall ref
      ensures ref in index + {Ref(r)} <==> exists x :: x in resources + [r] && Ref(x) == ref
    {
      ReferencesGrow(resources, r, ref);
    }
  }

  lemma IndexGrows(resources: seq<Resource>, r: Resource, index: set<string>, refsByKey: map<string, seq<string>>)
    requires UniqueReferences(resources) && Indexes(resources, index, refsByKey) && Ref(r) !in index
    ensures UniqueReferences(resources + [r])
    ensures
      var shared := if r.key in refsByKey then refsByKey[r.key] else [];
      Indexes(resources + [r], index + {Ref(r)}, refsByKey[r.key := shared + [Ref(r)]])
  {
    NotIndexed(resources, r, index);
    UniqueGrows(resources, r);
    RefsGrow(resources, r, index);
    RefsByKeyGrow(resources, r, refsByKey);
  }

  // The references sharing a key, in the order the resources were listed.
  function RefsWithKey(resources: seq<Resource>, key: string): seq<string> {
    if resources == [] then []
    else
      var r := resources[|resources| - 1];
      RefsWithKey(resources[..|resources| - 1], key) + if r.key == key then [Ref(r)] else []
  }

  lemma {:induction false} RefsWithKeyMembers(resources: seq<Resource>, key: string)
    ensures forall ref :: ref in RefsWithKey(resources, key) <==>
      exists r :: r in resources && r.key == key && Ref(r) == ref
  {
    if resources != [] {
      var n := |resources| - 1;
      RefsWithKeyMembers(resources[..n], key);
      assert resources == resources[..n] + [resources[n]];
    }
  }

  function HasKey(key: string): Resource -> bool {
    (r: Resource) => r.key == key
  }

  function IsCalled(): (Resource, string) -> bool {
    (r: Resource, ref: string) => ref == r.typeKey + ":" + r.key
  }

  /** The references that an ambiguous entry matches are listed in the order of the resources. */
  lemma {:induction false} MatchesInOrder(resources: seq<Resource>, key: string) returns (at: seq<nat>)
    ensures Picks(resources, at, RefsWithKey(resources, key), HasKey(key), IsCalled())
  {
    if resources == [] {
      at := [];
    } else {
      var n := |resources| - 1;
      at := MatchesInOrder(resources[..n], key);
      assert resources == resources[..n] + [resources[n]];
      var before := RefsWithKey(resources[..n], key);
      at := PicksNext(resources[..n], at, before, HasKey(key), IsCalled(), resources[n], Ref(resources[n]));
    }
  }

  ghost predicate Distinct(s: seq<string>) {
    forall i, j :: 0 <= i < j < |s| ==> s[i] != s[j]
  }

  lemma {:induction false} RefsWithKeyDistinct(resources: seq<Resource>, key: string)
    requires UniqueReferences(resources)
    ensures Distinct(RefsWithKey(resources, key))
  {
    if resources != [] {
      var n := |resources| - 1;
      RefsWithKeyDistinct(resources[..n], key);
      RefsWithKeyMembers(resources[..n], key);
      var before := RefsWithKey(resources[..n], key);
      forall i | 0 <= i < |before|
        ensures before[i] != Ref(resources[n])
      {
        assert before[i] in before;
        var r :| r in resources[..n] && r.key == key && Ref(r) == before[i];
      }
    }
  }

  // What an error from the resolver says about the entry.
  ghost predicate ExplainsUnresolved(resources: seq<Resource>, dep: string, error: ScheduleError) {
    match error
    case InvalidReference(d) => d == dep && ':' in dep && !BothSidesGiven(dep)
    case NotFound(d) => d == dep && forall r :: r in resources ==> !Denotes(dep, r)
    case Ambiguous(d, matches) =>
      d == dep && ':' !in dep && |matches| >= 2 && matches == RefsWithKey(resources, dep)
    case _ => false
  }

  // The text either side of the first colon, put together again, is the entry itself.
  lemma QualifiedEntry(dep: string)
    requires ':' in dep
    ensures dep[0..] == dep
    ensures dep == dep[..FirstColon(dep)] + ":" + dep[FirstColon(dep) + 1..]
  {
    assert dep[0..] == dep;
  }

  lemma PlainEntry(resources: seq<Resource>, dep: string)
    requires ':' !in dep && UniqueReferences(resources)
    ensures
      var matches := RefsWithKey(resources, dep);
      && (matches == [] ==> forall r :: r in resources ==> !Denotes(dep, r))
      && (|matches| == 1 ==> Resolves(resources, dep, matches[0]))
      && (|matches| != 1 ==> !Resolvable(resources, dep))
  {
    var matches := RefsWithKey(resources, dep);
    RefsWithKeyMembers(resources, dep);
    RefsWithKeyDistinct(resources, dep);
    forall r | r in resources && Denotes(dep, r)
      ensures Ref(r) in matches
    {
    }
    if |matches| == 1 {
      assert matches[0] in matches;
      assert Resolves(resources, dep, matches[0]);
    } else if |matches| >= 2 {
      assert matches[0] in matches && matches[1] in matches && matches[0] != matches[1];
    }
  }

  // An entry with a colon is cut at its first colon.
  lemma FirstColonCuts(dep: string, t: string, k: string)
    requires dep == t + ":" + k && ':' !in t
    ensures ':' in dep && dep[0..] == dep && FirstColon(dep) == |t|
    ensures dep[..|t|] == t && dep[|t| + 1..] == k
  {
    assert dep[|t|] == ':' && dep[0..] == dep;
    forall j | 0 <= j < |t|
      ensures dep[j] != ':'
    {
      assert dep[j] == t[j] && t[j] in t;
    }
  }

  // Where type keys have no colon, a reference tells the type key and the key apart.
  lemma ReferenceParts(r: Resource, t: string, k: string)
    requires ':' !in t && ':' !in r.typeKey
    ensures Ref(r) == t + ":" + k <==> r.typeKey == t && r.key == k
  {
    if Ref(r) == t + ":" + k {
      FirstColonCuts(Ref(r), t, k);
      FirstColonCuts(Ref(r), r.typeKey, r.key);
    }
  }

  /** An entry of the form type:key stands for the resource with that type key and key, by its reference. */
  lemma QualifiedResolves(resources: seq<Resource>, t: string, k: string, ref: string)
    requires ':' !in t && forall r :: r in resources ==> ':' !in r.typeKey
    ensures Resolves(resources, t + ":" + k, ref) <==>
      && t != "" && k != "" && ref == t + ":" + k
      && exists r :: r in resources && r.typeKey == t && r.key == k
  {
    var dep := t + ":" + k;
    FirstColonCuts(dep, t, k);
    forall r | r in resources
      ensures Denotes(dep, r) <==> t != "" && k != "" && r.typeKey == t && r.key == k
    {
      ReferenceParts(r, t, k);
    }
    if r :| r in resources && Denotes(dep, r) && Ref(r) == ref {
      assert r.typeKey == t && r.key == k;
    }
  }

  /** Any other entry stands for the only resource with that key, by type key and key. */
  lemma PlainResolves(resources: seq<Resource>, dep: string, ref: string)
    requires ':' !in dep
    ensures Resolves(resources, dep, ref) <==>
      && (exists r :: r in resources && r.key == dep && r.typeKey + ":" + r.key == ref)
      && forall r :: r in resources && r.key == dep ==> r.typeKey + ":" + r.key == ref
  {
    if r :| r in resources && r.key == dep && r.typeKey + ":" + r.key == ref {
      assert Denotes(dep, r) && Ref(r) == ref;
    }
  }

  /** References are unique exactly when no two resources share both type key and key. */
  lemma UniqueExactly(resources: seq<Resource>)
    requires forall r :: r in resources ==> ':' !in r.typeKey
    ensures UniqueReferences(resources) <==> forall i, j :: 0 <= i < j < |resources| ==>
      !(resources[i].typeKey == resources[j].typeKey && resources[i].key == resources[j].key)
  {
    forall i, j | 0 <= i < j < |resources|
      ensures Ref(resources[i]) == Ref(resources[j]) <==>
        resources[i].typeKey == resources[j].typeKey && resources[i].key == resources[j].key
    {
      assert resources[i] in resources && resources[j] in resources;
      ReferenceParts(resources[i], resources[j].typeKey, resources[j].key);
    }
  }

  lemma IndexedByParts(resources: seq<Resource>, index: set<string>, t: string, k: string)
    requires RefsIndexed(resources, index) && ':' !in t
    ensures (forall x :: x in resources ==> ':' !in x.typeKey) ==>
      (t + ":" + k in index <==> exists x :: x in resources && x.typeKey == t && x.key == k)
  {
    if forall x :: x in resources ==> ':' !in x.typeKey {
      forall x | x in resources
        ensures Ref(x) == t + ":" + k <==> x.typeKey == t && x.key == k
      {
        ReferenceParts(x, t, k);
      }
    }
  }

  method ResolveDependencyRef(
    ghost resources: seq<Resource>, dep: string, index: set<string>, refsByKey: map<string, seq<string>>
  ) returns (r: Result<string, ScheduleError>)
    requires UniqueReferences(resources) && Indexes(resources, index, refsByKey)
    ensures r.Success? ==> Resolves(resources, dep, r.value)
    ensures r.Failure? ==> !Resolvable(resources, dep) && ExplainsUnresolved(resources, dep, r.error)
    ensures ':' in dep ==> (r.Success? ==> r.value == dep)
    ensures ':' !in dep && r.Success? ==>
      exists x :: x in resources && x.key == dep && r.value == x.typeKey + ":" + x.key
    ensures forall t, k | dep == t + ":" + k && ':' !in t && (forall x :: x in resources ==> ':' !in x.typeKey) ::
      && (r.Success? <==> t != "" && k != "" && exists x :: x in resources && x.typeKey == t && x.key == k)
      && (t == "" || k == "" ==> r == Failure(InvalidReference(dep)))
      && (t != "" && k != "" && r.Failure? ==> r == Failure(NotFound(dep)))
  {
    if ':' in dep {
      QualifiedEntry(dep);
      var i := FirstColon(dep);
      var parts0, parts1 := dep[..i], dep[i + 1..];
      forall t, k | dep == t + ":" + k && ':' !in t
        ensures t == parts0 && k == parts1
      {
        FirstColonCuts(dep, t, k);
      }
      IndexedByParts(resources, index, parts0, parts1);
      if parts0 == "" || parts1 == "" {
        return Failure(InvalidReference(dep));
      }
      var ref := parts0 + ":" + parts1;
      if ref !in index {
        return Failure(NotFound(dep));
      }
      return Success(ref);
    }
    PlainEntry(resources, dep);
    var matches := if dep in refsByKey then refsByKey[dep] else [];
    if |matches| == 0 {
      return Failure(NotFound(dep));
    }
    if |matches| == 1 {
      return Success(matches[0]);
    }
    return Failure(Ambiguous(dep, matches));
  }

  // ---------- building ----------

  ghost predicate Explains(resources: seq<Resource>, error: ScheduleError) {
    match error
    case DuplicateReference(ref) =>
      exists i, j :: 0 <= i < j < |resources| && Ref(resources[i]) == ref == Ref(resources[j])
    case DependencyCycle(ref) =>
      exists schedule :: IsScheduleOf(resources, schedule) && Reaches(GraphOf(schedule), ref, ref)
    case _ =>
      exists r, dep :: r in resources && dep in r.dependsOn && ExplainsUnresolved(resources, dep, error)
  }

  method IndexResources(resources: seq<Resource>)
    returns (duplicate: Option<string>, index: set<string>, refsByKey: map<string, seq<string>>)
    ensures duplicate.None? <==> UniqueReferences(resources)
    ensures duplicate.None? ==> Indexes(resources, index, refsByKey)
    ensures duplicate.Some? ==> Explains(resources, DuplicateReference(duplicate.value))
  {
    index, refsByKey := {}, map[];
    for i := 0 to |resources|
      invariant UniqueReferences(resources[..i]) && Indexes(resources[..i], index, refsByKey)
    {
      var r := resources[i];
      var ref := Ref(r);
      if ref in index {
        return Some(ref), index, refsByKey;
      }
      IndexGrows(resources[..i], r, index, refsByKey);
      TakeNext(resources, i);
      index := index + {ref};
      var shared := if r.key in refsByKey then refsByKey[r.key] else [];
      refsByKey := refsByKey[r.key := shared + [ref]];
    }
    TakeAll(resources);
    duplicate := None;
  }

  method ResolveAll(
    resources: seq<Resource>, r: Resource, index: set<string>, refsByKey: map<string, seq<string>>
  ) returns (item: Result<Item, ScheduleError>)
    requires UniqueReferences(resources) && Indexes(resources, index, refsByKey) && r in resources
    ensures item.Success? ==> ItemFor(resources, r, item.value)
    ensures item.Failure? ==> !AllResolvable(resources) && Explains(resources, item.error)
  {
    var deps: seq<string> := [];
    for k := 0 to |r.dependsOn|
      invariant |deps| == k
      invariant forall j :: 0 <= j < k ==> Resolves(resources, r.dependsOn[j], deps[j])
    {
      var resolved := ResolveDependencyRef(resources, r.dependsOn[k], index, refsByKey);
      if resolved.Failure? {
        assert r.dependsOn[k] in r.dependsOn;
        return Failure(resolved.error);
      }
      deps := deps + [resolved.value];
    }
    item := Success(Item(Ref(r), deps));
  }

  // Items are called type:key, and so are their prerequisites, which are resources that the entries name.
  lemma ItemNames(resources: seq<Resource>, schedule: seq<Item>, i: nat, k: nat)
    requires IsScheduleOf(resources, schedule) && i < |resources| && k < |resources[i].dependsOn|
    ensures
      var dep, ref := resources[i].dependsOn[k], schedule[i].deps[k];
      exists x :: x in resources && ref == x.typeKey + ":" + x.key && dep == if ':' in dep then ref else x.key
  {
    assert ItemFor(resources, resources[i], schedule[i]);
    var dep, ref := resources[i].dependsOn[k], schedule[i].deps[k];
    var x :| x in resources && Denotes(dep, x) && Ref(x) == ref;
    assert ref == x.typeKey + ":" + x.key;
  }

  /**
   Succeeds exactly when references are unique, every depends-on entry stands for exactly one
   resource, and the resolved graph has no cycle; the schedule it returns is then well formed,
   and otherwise the error names a real defect.
   */
  method BuildSchedule(resources: seq<Resource>) returns (r: Result<seq<Item>, ScheduleError>)
    ensures r.Success? <==> Schedulable(resources)
    ensures r.Success? ==> IsScheduleOf(resources, r.value) && WellFormed(r.value)
    ensures r.Success? ==> forall i :: 0 <= i < |resources| ==>
      && r.value[i].ref == resources[i].typeKey + ":" + resources[i].key
      && |r.value[i].deps| == |resources[i].dependsOn|
      && forall k :: 0 <= k < |resources[i].dependsOn| ==>
           var dep, ref := resources[i].dependsOn[k], r.value[i].deps[k];
           exists x :: x in resources && ref == x.typeKey + ":" + x.key && dep == if ':' in dep then ref else x.key
    ensures r.Failure? ==> Explains(resources, r.error)
  {
    var duplicate, index, refsByKey := IndexResources(resources);
    if duplicate.Some? {
      return Failure(DuplicateReference(duplicate.value));
    }
    var schedule: seq<Item> := [];
    for i := 0 to |resources|
      invariant |schedule| == i
      invariant forall j :: 0 <= j < i ==> ItemFor(resources, resources[j], schedule[j])
    {
      var item := ResolveAll(resources, resources[i], index, refsByKey);
      if item.Failure? {
        return Failure(item.error);
      }
      schedule := schedule + [item.value];
    }
    ScheduleIsClosed(resources, schedule);
    var cycle := DetectDependencyCycles(GraphOf(schedule));
    if cycle.Some? {
      return Failure(DependencyCycle(cycle.value));
    }
    forall other | IsScheduleOf(resources, other)
      ensures Acyclic(GraphOf(other))
    {
      ScheduleUnique(resources, schedule, other);
    }
    forall i, k | 0 <= i < |resources| && 0 <= k < |resources[i].dependsOn|
      ensures
        var dep, ref := resources[i].dependsOn[k], schedule[i].deps[k];
        exists x :: x in resources && ref == x.typeKey + ":" + x.key && dep == if ':' in dep then ref else x.key
    {
      ItemNames(resources, schedule, i, k);
    }
    return Success(schedule);
  }
}
