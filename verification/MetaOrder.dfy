/**
 When metadata flattens the same way every time: what a map whose keys are not strings shows can depend
 on the order in which it is read, because keys that render alike overwrite each other.
 */
module MetaOrder {
  import opened Meta
  import opened Ordering
  import opened Seqs
  import opened Wrappers

  // ---------- the intermediate map ----------

  ghost predicate CollisionsAgree(render: nat -> string, m: map<nat, nat>) {
    forall j, k :: j in m && k in m && render(j) == render(k) ==> m[j] == m[k]
  }

  lemma {:induction false} RenderingExists(
    render: nat -> string, m: map<nat, nat>, keys: set<nat>)
    returns (r: map<string, nat>)
    requires keys <= m.Keys
    ensures forall k :: k in keys ==> render(k) in r
    ensures forall s :: s in r ==> Holds(render, m, s, r[s])
  {
    r := map[];
    if keys != {} {
      var k :| k in keys;
      var rest := RenderingExists(render, m, keys - {k});
      r := rest[render(k) := m[k]];
    }
  }

  /**
   The map with renderings as keys is the same in all orders exactly when keys that render alike hold
   the same value. What is flattened from it can be the same even when it is not: see MixedIsSteady.
   */
  lemma RenderingIsUnique(render: nat -> string, m: map<nat, nat>)
    ensures CollisionsAgree(render, m) <==>
      forall r, r' :: IsRendering(render, m, r) && IsRendering(render, m, r') ==> r == r'
  {
    if !CollisionsAgree(render, m) {
      var j, k :| j in m && k in m && render(j) == render(k) && m[j] != m[k];
      var r := RenderingExists(render, m, m.Keys);
      var r1, r2 := r[render(j) := m[j]], r[render(k) := m[k]];
      assert IsRendering(render, m, r1) && IsRendering(render, m, r2);
      assert r1[render(j)] != r2[render(j)];
    }
  }

  // ---------- which values flatten alike ----------

  type Order = (seq<Segment>, nat) -> seq<nat>

  // The same metadata, its maps read in another order.
  function With(g: Graph, o: Order): Graph {
    g.(order := o)
  }

  // The text of a value that is not followed further, in whatever order its map would be read.
  function TextOf(g: Graph, v: nat, depth: nat): Option<string> {
    var c := g.contents(v);
    if !c.Mixed? then TextAt(c, depth)
    else if |c.values| == 0 then Some("")
    else if depth >= MAX_DEPTH then Some(TRUNCATED)
    else None
  }

  // A value that may be shown under a segment: for keys that render alike, that of any of them.
  ghost predicate Offers(g: Graph, v: nat, s: Segment, a: nat) {
    match g.contents(v)
    case Keyed(m) => s.Key? && s.k in m && m[s.k] == a
    case Listed(es) => s.Index? && s.i < |es| && es[s.i] == a
    case Mixed(m) => s.Key? && Holds(g.render, m, s.k, a)
    case _ => false
  }

  ghost predicate Covers(g: Graph, v: nat, w: nat) {
    forall s, a :: Offers(g, v, s, a) ==> exists b :: Offers(g, w, s, b)
  }

  /**
   Two values are alike when they show the same text, or offer values under the same segments and any
   two values offered under one segment are alike one level down.
   */
  ghost predicate Alike(g: Graph, v: nat, w: nat, depth: nat)
    decreases MAX_DEPTH - depth, 0
  {
    var t, u := TextOf(g, v, depth), TextOf(g, w, depth);
    if t.Some? || u.Some? || depth >= MAX_DEPTH then t == u
    else Covers(g, v, w) && Covers(g, w, v) && OffersAlike(g, v, w, depth)
  }

  ghost predicate OffersAlike(g: Graph, v: nat, w: nat, depth: nat)
    requires depth < MAX_DEPTH
    decreases MAX_DEPTH - depth - 1, 1
  {
    forall s, a, b :: Offers(g, v, s, a) && Offers(g, w, s, b) ==> Alike(g, a, b, depth + 1)
  }

  lemma TextIsFixed(g: Graph, path: seq<Segment>, v: nat, depth: nat)
    requires OrdersMaps(g)
    ensures TextAt(Read(g, path, v), depth) == TextOf(g, v, depth)
  {
    var c := g.contents(v);
    if c.Mixed? {
      EmptyTogether(g.render, c.values, g.order(path, v));
    }
  }

  // What is found under a segment is offered, and something is found wherever something is offered.
  lemma FoundIsOffered(g: Graph, o: Order, path: seq<Segment>, v: nat, s: Segment)
    requires OrdersMaps(With(g, o))
    ensures var found := Step(Read(With(g, o), path, v), s);
      && (found.Some? ==> Offers(g, v, s, found.value))
      && (found.None? ==> forall a :: !Offers(g, v, s, a))
  {
    var c := g.contents(v);
    if c.Mixed? {
      assert With(g, o).contents(v).Mixed?;
      ReadingIsRendering(g.render, c.values, o(path, v));
    }
  }

  // ---------- alike values flatten alike ----------

  lemma {:induction false} KeyedAt(m: map<string, nat>, keys: seq<string>, i: nat)
    requires (forall k :: k in keys ==> k in m) && i < |keys|
    ensures |KeyedChildren(m, keys)| == |keys| && keys[i] in m
    ensures KeyedChildren(m, keys)[i] == Child(Key(keys[i]), m[keys[i]])
  {
    assert keys[0] in keys;
    if i > 0 {
      KeyedAt(m, keys[1..], i - 1);
    } else if |keys| > 1 {
      KeyedAt(m, keys[1..], 0);
    }
  }

  lemma {:induction false} ListedAt(elements: seq<nat>, from: nat, i: nat)
    requires from <= i < |elements|
    ensures |ListedChildren(elements, from)| == |elements| - from
    ensures ListedChildren(elements, from)[i - from] == Child(Index(i), elements[i])
    decreases |elements| - from
  {
    if i > from {
      ListedAt(elements, from + 1, i);
    } else if from + 1 < |elements| {
      ListedAt(elements, from + 1, from + 1);
    }
  }

  // Children under the same segments, in the same order.
  ghost predicate Aligned(cs: seq<Child>, ds: seq<Child>) {
    |cs| == |ds| && forall i :: 0 <= i < |cs| ==> cs[i].segment == ds[i].segment
  }

  ghost predicate SameSegments(c: Contents, d: Contents) {
    forall s :: Step(c, s).Some? <==> Step(d, s).Some?
  }

  ghost predicate IsGroup(c: Contents) {
    (c.Keyed? || c.Listed?) && !IsEmpty(c)
  }

  lemma KeyedAligned(m: map<string, nat>, n: map<string, nat>)
    requires SameSegments(Keyed(m), Keyed(n))
    ensures Aligned(Children(Keyed(m)), Children(Keyed(n)))
  {
    forall k
      ensures k in m <==> k in n
    {
      assert Step(Keyed(m), Key(k)).Some? <==> Step(Keyed(n), Key(k)).Some?;
    }
    assert m.Keys == n.Keys;
    var keys := SortedKeys(m.Keys);
    forall i | 0 <= i < |keys|
      ensures |Children(Keyed(m))| == |Children(Keyed(n))| == |keys|
      ensures Children(Keyed(m))[i].segment == Key(keys[i]) == Children(Keyed(n))[i].segment
    {
      KeyedAt(m, keys, i);
      KeyedAt(n, keys, i);
    }
  }

  lemma ListedAligned(es: seq<nat>, fs: seq<nat>)
    requires SameSegments(Listed(es), Listed(fs))
    ensures Aligned(Children(Listed(es)), Children(Listed(fs)))
  {
    assert Step(Listed(es), Index(|es|)).Some? <==> Step(Listed(fs), Index(|es|)).Some?;
    assert Step(Listed(es), Index(|fs|)).Some? <==> Step(Listed(fs), Index(|fs|)).Some?;
    forall i | 0 <= i < |es|
      ensures |Children(Listed(es))| == |Children(Listed(fs))| == |es|
      ensures Children(Listed(es))[i].segment == Index(i) == Children(Listed(fs))[i].segment
    {
      ListedAt(es, 0, i);
      ListedAt(fs, 0, i);
    }
  }

  lemma GroupsAligned(c: Contents, d: Contents)
    requires IsGroup(c) && IsGroup(d) && SameSegments(c, d)
    ensures Aligned(Children(c), Children(d))
  {
    SameKind(c, d);
    SameKind(d, c);
    if c.Keyed? {
      KeyedAligned(c.entries, d.entries);
    } else {
      ListedAligned(c.elements, d.elements);
    }
  }

  lemma SameKind(c: Contents, d: Contents)
    requires IsGroup(c) && IsGroup(d) && SameSegments(c, d)
    ensures c.Keyed? ==> d.Keyed?
  {
    if c.Keyed? {
      var k :| k in c.entries;
      assert Step(c, Key(k)).Some? <==> Step(d, Key(k)).Some?;
    }
  }

  lemma {:induction false} ChildIsStep(cs: seq<Child>, i: nat)
    requires Separate(cs) && i < |cs|
    ensures Lookup(cs, cs[i].segment) == Some(cs[i].value)
  {
    if i > 0 {
      ChildIsStep(cs[1..], i - 1);
    }
  }

  ghost predicate OffersAll(g: Graph, v: nat, cs: seq<Child>) {
    forall i :: 0 <= i < |cs| ==> Offers(g, v, cs[i].segment, cs[i].value)
  }

  lemma ChildrenAreOffered(g: Graph, o: Order, path: seq<Segment>, v: nat)
    requires OrdersMaps(With(g, o))
    ensures OffersAll(g, v, Children(Read(With(g, o), path, v)))
  {
    var c := Read(With(g, o), path, v);
    var cs := Children(c);
    forall i: nat | i < |cs|
      ensures Offers(g, v, cs[i].segment, cs[i].value)
    {
      ChildrenAreSteps(c, cs[i].segment);
      ChildIsStep(cs, i);
      FoundIsOffered(g, o, path, v, cs[i].segment);
    }
  }

  lemma SegmentsAgree(g: Graph, o: Order, p: Order, path: seq<Segment>, v: nat, w: nat)
    requires OrdersMaps(With(g, o)) && OrdersMaps(With(g, p)) && Covers(g, v, w) && Covers(g, w, v)
    ensures SameSegments(Read(With(g, o), path, v), Read(With(g, p), path, w))
  {
    var c, d := Read(With(g, o), path, v), Read(With(g, p), path, w);
    forall s
      ensures Step(c, s).Some? <==> Step(d, s).Some?
    {
      FoundIsOffered(g, o, path, v, s);
      FoundIsOffered(g, p, path, w, s);
    }
  }

  /** Alike values flatten to the same entries, whatever the two orders in which maps are read. */
  lemma {:induction false} AlikeFlattensAlike(
    g: Graph, o: Order, p: Order, path: seq<Segment>, v: nat, w: nat, depth: nat)
    requires Alike(g, v, w, depth) && depth <= MAX_DEPTH
    requires OrdersMaps(With(g, o)) && OrdersMaps(With(g, p))
    ensures FlattenValue(With(g, o), path, v, depth) == FlattenValue(With(g, p), path, w, depth)
    decreases MAX_DEPTH - depth, 1, 0
  {
    TextIsFixed(With(g, o), path, v, depth);
    TextIsFixed(With(g, p), path, w, depth);
    if TextOf(g, v, depth).None? {
      var c, d := Read(With(g, o), path, v), Read(With(g, p), path, w);
      SegmentsAgree(g, o, p, path, v, w);
      GroupsAligned(c, d);
      ChildrenAreOffered(g, o, path, v);
      ChildrenAreOffered(g, p, path, w);
      ChildrenFlattenAlike(g, o, p, path, v, w, Children(c), Children(d), depth);
    }
  }

  lemma {:induction false} ChildrenFlattenAlike(
    g: Graph, o: Order, p: Order, path: seq<Segment>, v: nat, w: nat, cs: seq<Child>, ds: seq<Child>, depth: nat)
    requires depth < MAX_DEPTH && OffersAlike(g, v, w, depth)
    requires OrdersMaps(With(g, o)) && OrdersMaps(With(g, p))
    requires Aligned(cs, ds) && OffersAll(g, v, cs) && OffersAll(g, w, ds)
    ensures FlattenChildren(With(g, o), path, cs, depth) == FlattenChildren(With(g, p), path, ds, depth)
    decreases MAX_DEPTH - depth, 0, |cs|
  {
    if cs != [] {
      var s, a, b := cs[0].segment, cs[0].value, ds[0].value;
      assert Offers(g, v, s, a) && Offers(g, w, s, b);
      AlikeFlattensAlike(g, o, p, path + [s], a, b, depth + 1);
      ChildrenFlattenAlike(g, o, p, path, v, w, cs[1..], ds[1..], depth);
    }
  }

  // ---------- values that are not alike can flatten differently ----------

  // The entries under a path.
  function Under(out: seq<Entry>, p: seq<Segment>): seq<Entry> {
    if out == [] then []
    else if p <= out[0].path then [out[0]] + Under(out[1..], p)
    else Under(out[1..], p)
  }

  lemma {:induction false} UnderConcat(a: seq<Entry>, b: seq<Entry>, p: seq<Segment>)
    ensures Under(a + b, p) == Under(a, p) + Under(b, p)
  {
    if a == [] {
      assert a + b == b;
    } else {
      assert (a + b)[0] == a[0] && (a + b)[1..] == a[1..] + b;
      UnderConcat(a[1..], b, p);
    }
  }

  lemma SegmentAfter(q: seq<Segment>, path: seq<Segment>, s: Segment)
    ensures path + [s] <= q <==> path < q && q[|path|] == s
  {
  }

  ghost predicate Below(out: seq<Entry>, p: seq<Segment>) {
    forall i :: 0 <= i < |out| ==> p <= out[i].path
  }

  lemma {:induction false} UnderOwn(out: seq<Entry>, p: seq<Segment>)
    requires Below(out, p)
    ensures Under(out, p) == out
  {
    if out != [] {
      assert Below(out[1..], p);
      UnderOwn(out[1..], p);
      assert out == [out[0]] + out[1..];
    }
  }

  lemma {:induction false} UnderOther(out: seq<Entry>, path: seq<Segment>, s: Segment, t: Segment)
    requires Below(out, path + [s]) && s != t
    ensures Under(out, path + [t]) == []
  {
    if out != [] {
      assert Below(out[1..], path + [s]);
      UnderOther(out[1..], path, s, t);
      SegmentAfter(out[0].path, path, s);
      SegmentAfter(out[0].path, path, t);
    }
  }

  ghost predicate Deeper(out: seq<Entry>, p: seq<Segment>) {
    forall i :: 0 <= i < |out| ==> p < out[i].path
  }

  lemma {:induction false} ValueBelow(g: Graph, path: seq<Segment>, v: nat, depth: nat)
    requires depth <= MAX_DEPTH
    ensures Below(FlattenValue(g, path, v, depth), path)
    decreases MAX_DEPTH - depth, 1, 0
  {
    var c := Read(g, path, v);
    if TextAt(c, depth).None? {
      ChildrenBelow(g, path, Children(c), depth);
      assert Deeper(FlattenValue(g, path, v, depth), path);
    }
  }

  lemma {:induction false} ChildrenBelow(g: Graph, path: seq<Segment>, cs: seq<Child>, depth: nat)
    requires depth < MAX_DEPTH
    ensures Deeper(FlattenChildren(g, path, cs, depth), path)
    decreases MAX_DEPTH - depth, 0, |cs|
  {
    if cs != [] {
      ValueBelow(g, path + [cs[0].segment], cs[0].value, depth + 1);
      ChildrenBelow(g, path, cs[1..], depth);
    }
  }

  // ---------- the order of the entries ----------

  // Keys come alphabetically, and indices in their order.
  ghost predicate Earlier(s: Segment, t: Segment) {
    match (s, t)
    case (Key(a), Key(b)) => a != b && Alphabetical(a, b)
    case (Index(i), Index(j)) => i < j
    case _ => false
  }

  // Where two paths part, one takes an earlier segment.
  ghost predicate Precedes(p: seq<Segment>, q: seq<Segment>) {
    exists n :: 0 <= n < |p| && n < |q| && p[..n] == q[..n] && Earlier(p[n], q[n])
  }

  ghost predicate PathsInOrder(out: seq<Entry>) {
    forall i, j :: 0 <= i < j < |out| ==> Precedes(out[i].path, out[j].path)
  }

  ghost predicate ChildrenInOrder(cs: seq<Child>) {
    forall i, j :: 0 <= i < j < |cs| ==> Earlier(cs[i].segment, cs[j].segment)
  }

  lemma {:induction false} KeyedInOrder(m: map<string, nat>, keys: seq<string>)
    requires Sorted(keys) && forall k :: k in keys ==> k in m
    ensures |KeyedChildren(m, keys)| == |keys| && ChildrenInOrder(KeyedChildren(m, keys))
    ensures forall i :: 0 <= i < |keys| ==> KeyedChildren(m, keys)[i].segment == Key(keys[i])
  {
    if keys != [] {
      assert keys[0] in keys;
      assert forall i :: 0 <= i < |keys| - 1 ==> keys[1..][i] == keys[i + 1];
      KeyedInOrder(m, keys[1..]);
      forall i, j | 0 <= i < j < |keys|
        ensures Earlier(Key(keys[i]), Key(keys[j]))
      {
        AtMostMeans(keys[i], keys[j]);
      }
    }
  }

  lemma {:induction false} ListedInOrder(elements: seq<nat>, i: nat)
    requires i <= |elements|
    ensures |ListedChildren(elements, i)| == |elements| - i
    ensures forall j :: 0 <= j < |elements| - i ==> ListedChildren(elements, i)[j].segment == Index(i + j)
    decreases |elements| - i
  {
    if i < |elements| {
      ListedInOrder(elements, i + 1);
    }
  }

  lemma ContentsInOrder(c: Contents)
    ensures ChildrenInOrder(Children(c))
  {
    match c
    case Keyed(m) => KeyedInOrder(m, SortedKeys(m.Keys));
    case Listed(es) => ListedInOrder(es, 0);
    case _ =>
  }

  // All entries go on from a path, with a segment later than a given one.
  ghost predicate AllAfter(out: seq<Entry>, path: seq<Segment>, s: Segment) {
    forall i :: 0 <= i < |out| ==> path < out[i].path && Earlier(s, out[i].path[|path|])
  }

  lemma AllAfterConcat(a: seq<Entry>, b: seq<Entry>, path: seq<Segment>, s: Segment, t: Segment)
    requires Below(a, path + [t]) && Earlier(s, t) && AllAfter(b, path, s)
    ensures AllAfter(a + b, path, s)
  {
    forall i | 0 <= i < |a + b|
      ensures path < (a + b)[i].path && Earlier(s, (a + b)[i].path[|path|])
    {
      if i < |a| {
        SegmentAfter(a[i].path, path, t);
      } else {
        assert (a + b)[i] == b[i - |a|];
      }
    }
  }

  ghost predicate AllLater(s: Segment, cs: seq<Child>) {
    forall k :: 0 <= k < |cs| ==> Earlier(s, cs[k].segment)
  }

  lemma LaterTail(s: Segment, cs: seq<Child>)
    requires AllLater(s, cs) && cs != []
    ensures Earlier(s, cs[0].segment) && AllLater(s, cs[1..])
  {
  }

  lemma OrderedTail(cs: seq<Child>)
    requires ChildrenInOrder(cs) && cs != []
    ensures ChildrenInOrder(cs[1..]) && AllLater(cs[0].segment, cs[1..])
  {
    assert forall k :: 0 <= k < |cs[1..]| ==> cs[1..][k] == cs[k + 1];
  }

  // The entries of children that come later take a later segment.
  lemma {:induction false} LaterChildren(g: Graph, path: seq<Segment>, cs: seq<Child>, depth: nat, s: Segment)
    requires depth < MAX_DEPTH && AllLater(s, cs)
    ensures AllAfter(FlattenChildren(g, path, cs, depth), path, s)
    decreases |cs|
  {
    if cs != [] {
      var p := path + [cs[0].segment];
      ValueBelow(g, p, cs[0].value, depth + 1);
      LaterTail(s, cs);
      LaterChildren(g, path, cs[1..], depth, s);
      AllAfterConcat(FlattenValue(g, p, cs[0].value, depth + 1), FlattenChildren(g, path, cs[1..], depth),
                     path, s, cs[0].segment);
    }
  }

  lemma OrderedConcat(a: seq<Entry>, b: seq<Entry>, path: seq<Segment>, s: Segment)
    requires PathsInOrder(a) && PathsInOrder(b) && Below(a, path + [s])
    requires AllAfter(b, path, s)
    ensures PathsInOrder(a + b)
  {
    forall i, j | 0 <= i < |a| && 0 <= j < |b|
      ensures Precedes(a[i].path, b[j].path)
    {
      SegmentAfter(a[i].path, path, s);
      assert a[i].path[..|path|] == path == b[j].path[..|path|];
    }
  }

  lemma FirstThenRest(g: Graph, path: seq<Segment>, cs: seq<Child>, depth: nat)
    requires depth < MAX_DEPTH && cs != [] && ChildrenInOrder(cs)
    requires PathsInOrder(FlattenValue(g, path + [cs[0].segment], cs[0].value, depth + 1))
    requires PathsInOrder(FlattenChildren(g, path, cs[1..], depth))
    ensures PathsInOrder(FlattenChildren(g, path, cs, depth))
  {
    var first := FlattenValue(g, path + [cs[0].segment], cs[0].value, depth + 1);
    OrderedTail(cs);
    ValueBelow(g, path + [cs[0].segment], cs[0].value, depth + 1);
    LaterChildren(g, path, cs[1..], depth, cs[0].segment);
    OrderedConcat(first, FlattenChildren(g, path, cs[1..], depth), path, cs[0].segment);
  }

  lemma {:induction false} ValueInOrder(g: Graph, path: seq<Segment>, v: nat, depth: nat)
    requires depth <= MAX_DEPTH
    ensures PathsInOrder(FlattenValue(g, path, v, depth))
    decreases MAX_DEPTH - depth, 1, 0
  {
    var c := Read(g, path, v);
    if TextAt(c, depth).None? {
      ContentsInOrder(c);
      EachInOrder(g, path, Children(c), depth);
    }
  }

  lemma {:induction false} EachInOrder(g: Graph, path: seq<Segment>, cs: seq<Child>, depth: nat)
    requires depth < MAX_DEPTH && ChildrenInOrder(cs)
    ensures PathsInOrder(FlattenChildren(g, path, cs, depth))
    decreases MAX_DEPTH - depth, 0, |cs|
  {
    if cs != [] {
      OrderedTail(cs);
      ValueInOrder(g, path + [cs[0].segment], cs[0].value, depth + 1);
      EachInOrder(g, path, cs[1..], depth);
      FirstThenRest(g, path, cs, depth);
    }
  }

  /** Entries come in the order of their paths: keys alphabetically and indices upwards, at every level. */
  lemma EntriesInOrder(g: Graph, m: map<string, nat>, out: seq<Entry>, i: nat, j: nat)
    requires out == Flatten(g, m) && i < j < |out|
    ensures Precedes(out[i].path, out[j].path)
  {
    ContentsInOrder(Keyed(m));
    EachInOrder(g, [], Children(Keyed(m)), 0);
  }

  // ---------- under a path ----------

  // Under a segment stand the entries of the child there, if any.
  lemma {:induction false} UnderChildren(g: Graph, path: seq<Segment>, cs: seq<Child>, depth: nat, s: Segment)
    requires depth < MAX_DEPTH && Separate(cs)
    ensures Under(FlattenChildren(g, path, cs, depth), path + [s]) ==
      var found := Lookup(cs, s);
      if found.Some? then FlattenValue(g, path + [s], found.value, depth + 1) else []
  {
    if cs != [] {
      UnderConcat(FlattenValue(g, path + [cs[0].segment], cs[0].value, depth + 1),
                  FlattenChildren(g, path, cs[1..], depth), path + [s]);
      UnderChildren(g, path, cs[1..], depth, s);
      UnderFirst(g, path, cs[0], depth, s);
      if cs[0].segment == s {
        assert Under(FlattenChildren(g, path, cs[1..], depth), path + [s]) == [];
      }
    }
  }

  lemma UnderFirst(g: Graph, path: seq<Segment>, c: Child, depth: nat, s: Segment)
    requires depth < MAX_DEPTH
    ensures var first := FlattenValue(g, path + [c.segment], c.value, depth + 1);
      Under(first, path + [s]) == if c.segment == s then first else []
  {
    var first := FlattenValue(g, path + [c.segment], c.value, depth + 1);
    ValueBelow(g, path + [c.segment], c.value, depth + 1);
    if c.segment == s {
      UnderOwn(first, path + [s]);
    } else {
      UnderOther(first, path, c.segment, s);
    }
  }

  lemma UnderGroup(g: Graph, path: seq<Segment>, c: Contents, depth: nat, s: Segment, a: nat, p: seq<Segment>)
    requires depth < MAX_DEPTH && p == path + [s] && Step(c, s) == Some(a)
    ensures Under(FlattenChildren(g, path, Children(c), depth), p) == FlattenValue(g, p, a, depth + 1)
  {
    ChildrenAreSteps(c, s);
    UnderChildren(g, path, Children(c), depth, s);
  }

  lemma UnderStep(g: Graph, path: seq<Segment>, v: nat, depth: nat, s: Segment)
    requires depth < MAX_DEPTH && TextAt(Read(g, path, v), depth).None?
    ensures Under(FlattenValue(g, path, v, depth), path + [s]) ==
      var found := Step(Read(g, path, v), s);
      if found.Some? then FlattenValue(g, path + [s], found.value, depth + 1) else []
  {
    var c := Read(g, path, v);
    ChildrenAreSteps(c, s);
    UnderChildren(g, path, Children(c), depth, s);
  }

  lemma {:induction false} NotEmpty(g: Graph, path: seq<Segment>, v: nat, depth: nat)
    requires depth <= MAX_DEPTH
    ensures FlattenValue(g, path, v, depth) != []
    decreases MAX_DEPTH - depth
  {
    var c := Read(g, path, v);
    if TextAt(c, depth).None? {
      NotEmpty(g, path + [Children(c)[0].segment], Children(c)[0].value, depth + 1);
    }
  }

  ghost predicate Agree(o: Order, p: Order, path: seq<Segment>) {
    forall q, x :: path <= q ==> o(q, x) == p(q, x)
  }

  // Only the orders at a path and below it matter to what is shown there.
  lemma {:induction false} Local(g: Graph, o: Order, p: Order, path: seq<Segment>, v: nat, depth: nat)
    requires depth <= MAX_DEPTH && Agree(o, p, path)
    ensures FlattenValue(With(g, o), path, v, depth) == FlattenValue(With(g, p), path, v, depth)
    decreases MAX_DEPTH - depth, 1, 0
  {
    assert o(path, v) == p(path, v);
    assert Read(With(g, o), path, v) == Read(With(g, p), path, v);
    var c := Read(With(g, o), path, v);
    if TextAt(c, depth).None? {
      LocalChildren(g, o, p, path, Children(c), depth);
    }
  }

  lemma {:induction false} LocalChildren(g: Graph, o: Order, p: Order, path: seq<Segment>, cs: seq<Child>, depth: nat)
    requires depth < MAX_DEPTH && Agree(o, p, path)
    ensures FlattenChildren(With(g, o), path, cs, depth) == FlattenChildren(With(g, p), path, cs, depth)
    decreases MAX_DEPTH - depth, 0, |cs|
  {
    if cs != [] {
      Local(g, o, p, path + [cs[0].segment], cs[0].value, depth + 1);
      LocalChildren(g, o, p, path, cs[1..], depth);
    }
  }

  // ---------- choosing an order ----------

  lemma SomeOrder(g: Graph) returns (o: Order)
    ensures OrdersMaps(With(g, o))
  {
    o := (path, v) => if g.contents(v).Mixed? then Listing(g.contents(v).values.Keys) else [];
  }

  function Override(o: Order, path: seq<Segment>, v: nat, keys: seq<nat>): Order {
    (q, x) => if q == path && x == v then keys else o(q, x)
  }

  // Read last, any offered value is the one found.
  lemma Choose(g: Graph, o: Order, path: seq<Segment>, v: nat, s: Segment, a: nat) returns (p: Order)
    requires OrdersMaps(With(g, o)) && Offers(g, v, s, a)
    ensures OrdersMaps(With(g, p)) && Step(Read(With(g, p), path, v), s) == Some(a)
    ensures Agree(p, o, path + [s])
  {
    var c := g.contents(v);
    if c.Mixed? {
      var k :| k in c.values && g.render(k) == s.k && c.values[k] == a;
      var keys := ListingWithLast(c.values, k);
      p := Override(o, path, v, keys);
    } else {
      p := o;
    }
  }

  lemma NotAlikeUnder(g: Graph, v: nat, w: nat, depth: nat) returns (s: Segment, a: nat, b: nat)
    requires depth < MAX_DEPTH && !OffersAlike(g, v, w, depth)
    ensures Offers(g, v, s, a) && Offers(g, w, s, b) && !Alike(g, a, b, depth + 1)
  {
    s, a, b :| Offers(g, v, s, a) && Offers(g, w, s, b) && !Alike(g, a, b, depth + 1);
  }

  // Whether two values that are not alike can be told apart without looking below them.
  ghost predicate DifferHere(g: Graph, v: nat, w: nat, depth: nat) {
    || TextOf(g, v, depth) != TextOf(g, w, depth)
    || (depth < MAX_DEPTH && TextOf(g, v, depth).None? && !(Covers(g, v, w) && Covers(g, w, v)))
  }

  lemma HereFlattensDifferently(g: Graph, o: Order, path: seq<Segment>, v: nat, w: nat, depth: nat)
    requires OrdersMaps(With(g, o)) && depth <= MAX_DEPTH && DifferHere(g, v, w, depth)
    ensures FlattenValue(With(g, o), path, v, depth) != FlattenValue(With(g, o), path, w, depth)
  {
    if TextOf(g, v, depth) != TextOf(g, w, depth) {
      TextIsFixed(With(g, o), path, v, depth);
      TextIsFixed(With(g, o), path, w, depth);
      TextsDiffer(With(g, o), path, v, w, depth);
    } else if !Covers(g, v, w) {
      NotCovered(g, o, path, v, w, depth);
    } else {
      NotCovered(g, o, path, w, v, depth);
    }
  }

  // Why two values are not alike: they differ here, or two values they offer under a segment are not alike.
  lemma WhyNotAlike(g: Graph, v: nat, w: nat, depth: nat) returns (here: bool, s: Segment, a: nat, b: nat)
    requires depth <= MAX_DEPTH && !Alike(g, v, w, depth)
    ensures here ==> DifferHere(g, v, w, depth)
    ensures !here ==> depth < MAX_DEPTH && TextOf(g, v, depth).None? && TextOf(g, w, depth).None?
    ensures !here ==> Offers(g, v, s, a) && Offers(g, w, s, b) && !Alike(g, a, b, depth + 1)
  {
    here, s, a, b := DifferHere(g, v, w, depth), Index(0), 0, 0;
    if !here {
      s, a, b := NotAlikeUnder(g, v, w, depth);
    }
  }

  lemma {:induction false} CanFlattenDifferently(g: Graph, path: seq<Segment>, v: nat, w: nat, depth: nat)
    returns (o: Order, p: Order)
    requires !Alike(g, v, w, depth) && depth <= MAX_DEPTH
    ensures OrdersMaps(With(g, o)) && OrdersMaps(With(g, p))
    ensures FlattenValue(With(g, o), path, v, depth) != FlattenValue(With(g, p), path, w, depth)
    decreases MAX_DEPTH - depth
  {
    var here, s, a, b := WhyNotAlike(g, v, w, depth);
    if here {
      o, p := SomeOrderDiffers(g, path, v, w, depth);
    } else {
      o, p := CanFlattenDifferently(g, path + [s], a, b, depth + 1);
      o, p := DifferAbove(g, o, p, path, v, w, s, a, b, depth);
    }
  }

  lemma SomeOrderDiffers(g: Graph, path: seq<Segment>, v: nat, w: nat, depth: nat) returns (o: Order, p: Order)
    requires depth <= MAX_DEPTH && DifferHere(g, v, w, depth)
    ensures OrdersMaps(With(g, o)) && OrdersMaps(With(g, p))
    ensures FlattenValue(With(g, o), path, v, depth) != FlattenValue(With(g, p), path, w, depth)
  {
    o := SomeOrder(g);
    p := o;
    HereFlattensDifferently(g, o, path, v, w, depth);
  }

  // Two values differ when values they offer under one segment do.
  lemma DifferAbove(
    g: Graph, o: Order, p: Order, path: seq<Segment>, v: nat, w: nat, s: Segment, a: nat, b: nat, depth: nat)
    returns (o': Order, p': Order)
    requires OrdersMaps(With(g, o)) && OrdersMaps(With(g, p)) && depth < MAX_DEPTH
    requires TextOf(g, v, depth).None? && TextOf(g, w, depth).None?
    requires Offers(g, v, s, a) && Offers(g, w, s, b)
    requires FlattenValue(With(g, o), path + [s], a, depth + 1) != FlattenValue(With(g, p), path + [s], b, depth + 1)
    ensures OrdersMaps(With(g, o')) && OrdersMaps(With(g, p'))
    ensures FlattenValue(With(g, o'), path, v, depth) != FlattenValue(With(g, p'), path, w, depth)
  {
    o' := ChooseUnder(g, o, path, v, s, a, depth);
    p' := ChooseUnder(g, p, path, w, s, b, depth);
  }

  // A value can be made to show an offered value as another order would.
  lemma ChooseUnder(g: Graph, o: Order, path: seq<Segment>, v: nat, s: Segment, a: nat, depth: nat) returns (p: Order)
    requires OrdersMaps(With(g, o)) && Offers(g, v, s, a) && depth < MAX_DEPTH && TextOf(g, v, depth).None?
    ensures OrdersMaps(With(g, p))
    ensures Under(FlattenValue(With(g, p), path, v, depth), path + [s]) ==
      FlattenValue(With(g, o), path + [s], a, depth + 1)
  {
    p := Choose(g, o, path, v, s, a);
    TextIsFixed(With(g, p), path, v, depth);
    UnderStep(With(g, p), path, v, depth, s);
    Local(g, p, o, path + [s], a, depth + 1);
  }

  lemma TextsDiffer(g: Graph, path: seq<Segment>, v: nat, w: nat, depth: nat)
    requires depth <= MAX_DEPTH
    requires TextAt(Read(g, path, v), depth) != TextAt(Read(g, path, w), depth)
    ensures FlattenValue(g, path, v, depth) != FlattenValue(g, path, w, depth)
  {
    var c, d := Read(g, path, v), Read(g, path, w);
    FirstPath(g, path, v, depth);
    FirstPath(g, path, w, depth);
    if TextAt(c, depth).Some? && TextAt(d, depth).Some? {
      assert [Entry(path, TextAt(c, depth).value)][0] != [Entry(path, TextAt(d, depth).value)][0];
    }
  }

  // Whether a value is followed further shows in the path of its first entry.
  lemma FirstPath(g: Graph, path: seq<Segment>, v: nat, depth: nat)
    requires depth <= MAX_DEPTH
    ensures var out := FlattenValue(g, path, v, depth);
      out != [] && (out[0].path == path <==> TextAt(Read(g, path, v), depth).Some?)
  {
    NotEmpty(g, path, v, depth);
    var c := Read(g, path, v);
    if TextAt(c, depth).None? {
      ChildrenBelow(g, path, Children(c), depth);
    }
  }

  lemma NotCovered(g: Graph, o: Order, path: seq<Segment>, v: nat, w: nat, depth: nat)
    requires OrdersMaps(With(g, o)) && depth < MAX_DEPTH && !Covers(g, v, w)
    requires TextOf(g, v, depth).None? && TextOf(g, w, depth).None?
    ensures FlattenValue(With(g, o), path, v, depth) != FlattenValue(With(g, o), path, w, depth)
  {
    var s, a :| Offers(g, v, s, a) && forall b :: !Offers(g, w, s, b);
    var h := With(g, o);
    TextIsFixed(h, path, v, depth);
    TextIsFixed(h, path, w, depth);
    FoundIsOffered(g, o, path, v, s);
    FoundIsOffered(g, o, path, w, s);
    UnderStep(h, path, v, depth, s);
    UnderStep(h, path, w, depth, s);
    NotEmpty(h, path + [s], Step(Read(h, path, v), s).value, depth + 1);
  }

  // ---------- exactly when the order does not show ----------

  ghost predicate FlattenAlike(g: Graph, path: seq<Segment>, v: nat, w: nat, depth: nat) {
    forall o, p :: OrdersMaps(With(g, o)) && OrdersMaps(With(g, p)) ==>
      FlattenValue(With(g, o), path, v, depth) == FlattenValue(With(g, p), path, w, depth)
  }

  /** Two values flatten to the same entries at a path, in all orders, if and only if they are alike. */
  lemma AlikeExactly(g: Graph, path: seq<Segment>, v: nat, w: nat, depth: nat)
    requires depth <= MAX_DEPTH
    ensures FlattenAlike(g, path, v, w, depth) <==> Alike(g, v, w, depth)
  {
    if Alike(g, v, w, depth) {
      forall o, p | OrdersMaps(With(g, o)) && OrdersMaps(With(g, p))
        ensures FlattenValue(With(g, o), path, v, depth) == FlattenValue(With(g, p), path, w, depth)
      {
        AlikeFlattensAlike(g, o, p, path, v, w, depth);
      }
    } else {
      var o, p := CanFlattenDifferently(g, path, v, w, depth);
    }
  }

  /**
   A map whose keys are not strings flattens the same way in all orders if and only if any two of its
   keys that render alike, and so each key by itself, hold values that flatten alike one level down.
   */
  lemma MixedIsSteady(g: Graph, path: seq<Segment>, v: nat, depth: nat)
    requires depth < MAX_DEPTH && g.contents(v).Mixed?
    ensures var m := g.contents(v).values;
      FlattenAlike(g, path, v, v, depth) <==>
      forall j, k :: j in m && k in m && g.render(j) == g.render(k) ==>
        FlattenAlike(g, path + [Key(g.render(j))], m[j], m[k], depth + 1)
  {
    var m := g.contents(v).values;
    AlikeExactly(g, path, v, v, depth);
    forall j, k | j in m && k in m && g.render(j) == g.render(k)
      ensures FlattenAlike(g, path + [Key(g.render(j))], m[j], m[k], depth + 1) <==> Alike(g, m[j], m[k], depth + 1)
    {
      AlikeExactly(g, path + [Key(g.render(j))], m[j], m[k], depth + 1);
    }
    MixedAlike(g, v, depth);
  }

  lemma MixedAlike(g: Graph, v: nat, depth: nat)
    requires depth < MAX_DEPTH && g.contents(v).Mixed?
    ensures var m := g.contents(v).values;
      Alike(g, v, v, depth) <==>
      forall j, k :: j in m && k in m && g.render(j) == g.render(k) ==> Alike(g, m[j], m[k], depth + 1)
  {
    var m := g.contents(v).values;
    if Alike(g, v, v, depth) {
      forall j, k | j in m && k in m && g.render(j) == g.render(k)
        ensures Alike(g, m[j], m[k], depth + 1)
      {
        assert OffersAlike(g, v, v, depth);
        var s := Key(g.render(j));
        assert Holds(g.render, m, s.k, m[j]) && Holds(g.render, m, s.k, m[k]);
        assert Offers(g, v, s, m[j]) && Offers(g, v, s, m[k]);
      }
    }
  }

  ghost predicate Steady(g: Graph, m: map<string, nat>) {
    forall o, p :: OrdersMaps(With(g, o)) && OrdersMaps(With(g, p)) ==>
      Flatten(With(g, o), m) == Flatten(With(g, p), m)
  }

  ghost predicate GroupSteady(g: Graph, path: seq<Segment>, m: map<string, nat>, depth: nat)
    requires depth < MAX_DEPTH
  {
    forall o, p :: OrdersMaps(With(g, o)) && OrdersMaps(With(g, p)) ==>
      FlattenKeys(With(g, o), path, m, depth) == FlattenKeys(With(g, p), path, m, depth)
  }

  ghost predicate SelfAlike(g: Graph, m: map<string, nat>, depth: nat) {
    forall k :: k in m ==> Alike(g, m[k], m[k], depth)
  }

  lemma {:induction false} KeysFlattenAlike(
    g: Graph, o: Order, p: Order, path: seq<Segment>, m: map<string, nat>, keys: seq<string>, depth: nat)
    requires OrdersMaps(With(g, o)) && OrdersMaps(With(g, p)) && depth < MAX_DEPTH
    requires (forall k :: k in keys ==> k in m) && SelfAlike(g, m, depth + 1)
    ensures FlattenChildren(With(g, o), path, KeyedChildren(m, keys), depth) ==
      FlattenChildren(With(g, p), path, KeyedChildren(m, keys), depth)
  {
    if keys != [] {
      assert keys[0] in keys;
      var cs := KeyedChildren(m, keys);
      assert cs[1..] == KeyedChildren(m, keys[1..]);
      AlikeFlattensAlike(g, o, p, path + [Key(keys[0])], m[keys[0]], m[keys[0]], depth + 1);
      KeysFlattenAlike(g, o, p, path, m, keys[1..], depth);
    }
  }

  lemma AlikeIsSteady(g: Graph, path: seq<Segment>, m: map<string, nat>, depth: nat)
    requires depth < MAX_DEPTH && SelfAlike(g, m, depth + 1)
    ensures GroupSteady(g, path, m, depth)
  {
    forall o, p | OrdersMaps(With(g, o)) && OrdersMaps(With(g, p))
      ensures FlattenKeys(With(g, o), path, m, depth) == FlattenKeys(With(g, p), path, m, depth)
    {
      KeysFlattenAlike(g, o, p, path, m, SortedKeys(m.Keys), depth);
    }
  }

  lemma NotAlikeIsUnsteady(g: Graph, path: seq<Segment>, m: map<string, nat>, depth: nat, k: string)
    requires depth < MAX_DEPTH && k in m && !Alike(g, m[k], m[k], depth + 1)
    ensures !GroupSteady(g, path, m, depth)
  {
    var q := path + [Key(k)];
    var o, p := CanFlattenDifferently(g, q, m[k], m[k], depth + 1);
    UnderGroup(With(g, o), path, Keyed(m), depth, Key(k), m[k], q);
    UnderGroup(With(g, p), path, Keyed(m), depth, Key(k), m[k], q);
    assert FlattenKeys(With(g, o), path, m, depth) != FlattenKeys(With(g, p), path, m, depth);
  }

  lemma GroupSteadyExactly(g: Graph, path: seq<Segment>, m: map<string, nat>, depth: nat)
    requires depth < MAX_DEPTH
    ensures GroupSteady(g, path, m, depth) <==> SelfAlike(g, m, depth + 1)
  {
    if SelfAlike(g, m, depth + 1) {
      AlikeIsSteady(g, path, m, depth);
    } else {
      var k :| k in m && !Alike(g, m[k], m[k], depth + 1);
      NotAlikeIsUnsteady(g, path, m, depth, k);
    }
  }

  // Each value at the top, one segment deep, flattens the same way in all orders.
  ghost predicate TopAlike(g: Graph, m: map<string, nat>) {
    forall k :: k in m ==> Alike(g, m[k], m[k], 1)
  }

  lemma TopIsFirst(g: Graph, m: map<string, nat>, depth: nat)
    requires depth == 1
    ensures TopAlike(g, m) <==> SelfAlike(g, m, depth)
  {
  }

  lemma SteadyFrom(g: Graph, path: seq<Segment>, m: map<string, nat>, depth: nat)
    requires path == [] && depth == 0
    ensures Steady(g, m) <==> TopAlike(g, m)
  {
    GroupSteadyExactly(g, path, m, depth);
    TopIsFirst(g, m, depth + 1);
  }

  /** Metadata flattens the same way in all orders if and only if each value at the top is alike itself. */
  lemma SteadyExactly(g: Graph, m: map<string, nat>)
    ensures Steady(g, m) <==> TopAlike(g, m)
  {
    var depth := 0;
    SteadyFrom(g, [], m, depth);
  }

  /** Where every map has strings as keys, every value is like itself. */
  lemma {:induction false} StringKeysAreSteady(g: Graph, v: nat, depth: nat)
    requires depth <= MAX_DEPTH && forall x :: !g.contents(x).Mixed?
    ensures Alike(g, v, v, depth)
    decreases MAX_DEPTH - depth
  {
    if depth < MAX_DEPTH {
      forall s, a, b | Offers(g, v, s, a) && Offers(g, v, s, b)
        ensures Alike(g, a, b, depth + 1)
      {
        StringKeysAreSteady(g, a, depth + 1);
      }
    }
  }

  // ---------- collisions ----------

  ghost predicate Collides(render: nat -> string, keys: set<nat>) {
    exists j, k :: j in keys && k in keys && j != k && render(j) == render(k)
  }

  function Image(render: nat -> string, keys: set<nat>): set<string> {
    set k | k in keys :: render(k)
  }

  lemma {:induction false} ImageSize(render: nat -> string, keys: set<nat>)
    ensures |Image(render, keys)| <= |keys|
    ensures |Image(render, keys)| < |keys| <==> Collides(render, keys)
  {
    if keys != {} {
      var k :| k in keys;
      var rest := keys - {k};
      ImageSize(render, rest);
      if render(k) in Image(render, rest) {
        assert Image(render, keys) == Image(render, rest);
        var j :| j in rest && render(j) == render(k);
      } else {
        assert Image(render, keys) == Image(render, rest) + {render(k)};
      }
    }
  }

  /** A collision drops a value: fewer values are found than the map holds exactly when keys render alike. */
  lemma CollisionDropsAValue(render: nat -> string, m: map<nat, nat>, keys: seq<nat>)
    requires Lists(keys, m)
    ensures |ByName(render, m, keys)| <= |m|
    ensures |ByName(render, m, keys)| < |m| <==> Collides(render, m.Keys)
  {
    ReadingIsRendering(render, m, keys);
    ImageSize(render, m.Keys);
    assert ByName(render, m, keys).Keys == Image(render, m.Keys);
  }

  // Two keys, both rendered as 1, that hold different scalars.
  function TwoKeys(): Graph {
    Graph(v => if v == 0 then Mixed(map[0 := 1, 1 := 2]) else if v == 1 then Scalar("x") else Scalar("y"),
          k => "1", (path, v) => [0, 1])
  }

  function Constant(keys: seq<nat>): Order {
    (path, v) => keys
  }

  lemma TwoOrders(keys: seq<nat>)
    requires keys == [0, 1] || keys == [1, 0]
    ensures OrdersMaps(With(TwoKeys(), Constant(keys)))
  {
    var g := With(TwoKeys(), Constant(keys));
    forall path, v | g.contents(v).Mixed?
      ensures Lists(g.order(path, v), g.contents(v).values)
    {
      assert keys[0] in keys && keys[1] in keys;
    }
  }

  /** A map with two keys that render alike, which shows one value or the other by the order it is read in. */
  lemma OrderCanShow()
    ensures OrdersMaps(With(TwoKeys(), Constant([0, 1]))) && OrdersMaps(With(TwoKeys(), Constant([1, 0])))
    ensures Flatten(With(TwoKeys(), Constant([0, 1])), map["m" := 0]) == [Entry([Key("m"), Key("1")], "y")]
    ensures Flatten(With(TwoKeys(), Constant([1, 0])), map["m" := 0]) == [Entry([Key("m"), Key("1")], "x")]
  {
    var g := TwoKeys();
    TwoOrders([0, 1]);
    TwoOrders([1, 0]);
    BothRead(g.render, 1, 2);
    OneCollision(g, Constant([0, 1]), "y", 2);
    OneCollision(g, Constant([1, 0]), "x", 1);
  }

  lemma BothRead(render: nat -> string, a: nat, b: nat)
    requires render(0) == render(1)
    ensures ByName(render, map[0 := a, 1 := b], [0, 1]) == map[render(0) := b]
    ensures ByName(render, map[0 := a, 1 := b], [1, 0]) == map[render(0) := a]
  {
    var m := map[0 := a, 1 := b];
    assert [0, 1][..1] == [0] && [1, 0][..1] == [1];
    assert ByName(render, m, [0]) == map[render(0) := a] by {
      assert [0][..0] == [];
    }
    assert ByName(render, m, [1]) == map[render(0) := b] by {
      assert [1][..0] == [];
    }
  }

  lemma OneCollision(g: Graph, o: Order, text: string, a: nat)
    requires g.contents(0).Mixed? && Read(With(g, o), [Key("m")], 0) == Keyed(map["1" := a])
    requires g.contents(a) == Scalar(text)
    ensures Flatten(With(g, o), map["m" := 0]) == [Entry([Key("m"), Key("1")], text)]
  {
    OneKey("m", 0);
    OneKey("1", a);
    var h := With(g, o);
    assert [] + [Key("m")] == [Key("m")] && [Key("m")] + [Key("1")] == [Key("m"), Key("1")];
    assert FlattenValue(h, [Key("m"), Key("1")], a, 2) == [Entry([Key("m"), Key("1")], text)];
    OneChild(h, [Key("m")], Child(Key("1"), a), 1);
    OneChild(h, [], Child(Key("m"), 0), 0);
  }

  lemma OneKey(k: string, v: nat)
    ensures Children(Keyed(map[k := v])) == [Child(Key(k), v)]
  {
    var m := map[k := v];
    assert m.Keys == {k};
    SortedIsUnique(SortedKeys(m.Keys), [k]);
    assert [k][1..] == [] && KeyedChildren(m, []) == [];
  }

  lemma OneChild(g: Graph, path: seq<Segment>, c: Child, depth: nat)
    requires depth < MAX_DEPTH
    ensures FlattenChildren(g, path, [c], depth) == FlattenValue(g, path + [c.segment], c.value, depth + 1)
  {
    var out := FlattenValue(g, path + [c.segment], c.value, depth + 1);
    assert [c][1..] == [] && out + [] == out;
  }
}
