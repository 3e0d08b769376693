/**
 Flattening free-form metadata, a graph of values that may contain itself, into one entry for each
 leaf. A value is a number with some contents, and so is a map key that is not a string.
 */
module Meta {
  import opened Ordering
  import opened Seqs
  import opened Wrappers

  datatype Contents =
    | Nil
    | Scalar(text: string)
    | Keyed(entries: map<string, nat>)
    | Listed(elements: seq<nat>)
    | Mixed(values: map<nat, nat>)  // a map whose keys are not strings

  datatype Segment = Key(k: string) | Index(i: nat)

  // The contents of each value, the rendering of each key, and the order in which a map whose keys are
  // not strings is read each time it is met: at a path, for a value.
  datatype Graph = Graph(contents: nat -> Contents, render: nat -> string, order: (seq<Segment>, nat) -> seq<nat>)

  // A path from the top and the text shown for it.
  datatype Entry = Entry(path: seq<Segment>, text: string)

  const MAX_DEPTH: nat := 10

  const TRUNCATED := "[truncated: nested deeper than 10 levels]"

  // ---------- maps with other keys ----------

  // A map read key by key in some order, with renderings as keys: a later key overwrites one like it.
  function ByName(render: nat -> string, m: map<nat, nat>, keys: seq<nat>): map<string, nat> {
    if keys == [] then map[]
    else
      var k, before := keys[|keys| - 1], ByName(render, m, keys[..|keys| - 1]);
      if k in m then before[render(k) := m[k]] else before
  }

  ghost predicate OrdersMaps(g: Graph) {
    forall path, v :: g.contents(v).Mixed? ==> Lists(g.order(path, v), g.contents(v).values)
  }

  // What is found in a value when it is met at a path.
  function Read(g: Graph, path: seq<Segment>, v: nat): Contents {
    var c := g.contents(v);
    if c.Mixed? then Keyed(ByName(g.render, c.values, g.order(path, v))) else c
  }

  // A map read as a map with the renderings of its keys as keys.
  ghost predicate IsRendering(render: nat -> string, m: map<nat, nat>, r: map<string, nat>) {
    && (forall k :: k in m ==> render(k) in r)
    && (forall s :: s in r ==> Holds(render, m, s, r[s]))
  }

  // A map holds a value under a key of a rendering.
  ghost predicate Holds(render: nat -> string, m: map<nat, nat>, s: string, a: nat) {
    exists k :: k in m && render(k) == s && m[k] == a
  }

  lemma {:induction false} ReadNames(render: nat -> string, m: map<nat, nat>, keys: seq<nat>)
    requires forall i :: 0 <= i < |keys| ==> keys[i] in m
    ensures forall i :: 0 <= i < |keys| ==> render(keys[i]) in ByName(render, m, keys)
    ensures forall s :: s in ByName(render, m, keys) ==> Holds(render, m, s, ByName(render, m, keys)[s])
  {
    if keys != [] {
      var n := |keys| - 1;
      ReadNames(render, m, keys[..n]);
      forall i | 0 <= i < n
        ensures render(keys[i]) in ByName(render, m, keys)
      {
        assert keys[..n][i] == keys[i];
      }
      var before, r := ByName(render, m, keys[..n]), ByName(render, m, keys);
      assert keys[n] in m && r == before[render(keys[n]) := m[keys[n]]];
      assert Holds(render, m, render(keys[n]), m[keys[n]]);
    }
  }

  /** Whatever order a map is read in, every key is there under its rendering, with a value of the map. */
  lemma ReadingIsRendering(render: nat -> string, m: map<nat, nat>, keys: seq<nat>)
    requires Lists(keys, m)
    ensures IsRendering(render, m, ByName(render, m, keys))
  {
    ReadNames(render, m, keys);
  }

  lemma EmptyTogether(render: nat -> string, m: map<nat, nat>, keys: seq<nat>)
    requires Lists(keys, m)
    ensures |m| == 0 <==> |ByName(render, m, keys)| == 0
  {
    ReadingIsRendering(render, m, keys);
    var r := ByName(render, m, keys);
    if |m| > 0 {
      var k :| k in m;
      assert render(k) in r;
    }
    if |r| > 0 {
      var s :| s in r;
      assert Holds(render, m, s, r[s]);
    }
  }

  // ---------- the recursion ----------

  datatype Child = Child(segment: Segment, value: nat)

  function KeyedChildren(m: map<string, nat>, keys: seq<string>): seq<Child>
    requires forall k :: k in keys ==> k in m
  {
    if keys == [] then []
    else
      assert keys[0] in keys;
      [Child(Key(keys[0]), m[keys[0]])] + KeyedChildren(m, keys[1..])
  }

  function ListedChildren(elements: seq<nat>, i: nat): seq<Child>
    requires i <= |elements|
    decreases |elements| - i
  {
    if i == |elements| then [] else [Child(Index(i), elements[i])] + ListedChildren(elements, i + 1)
  }

  // What is inside a value, in the order it is visited.
  function Children(c: Contents): seq<Child> {
    match c
    case Keyed(m) => KeyedChildren(m, SortedKeys(m.Keys))
    case Listed(es) => ListedChildren(es, 0)
    case _ => []
  }

  predicate IsEmpty(c: Contents) {
    c.Nil? || (c.Keyed? && |c.entries| == 0) || (c.Listed? && |c.elements| == 0)
  }

  // The text of a value that is not followed further.
  function TextAt(c: Contents, depth: nat): Option<string> {
    if IsEmpty(c) then Some("")
    else if c.Scalar? then Some(c.text)
    else if depth >= MAX_DEPTH then Some(TRUNCATED)
    else None
  }

  function FlattenValue(g: Graph, path: seq<Segment>, v: nat, depth: nat): seq<Entry>
    decreases MAX_DEPTH - depth, 1, 0
  {
    var c := Read(g, path, v);
    var text := TextAt(c, depth);
    if text.Some? then [Entry(path, text.value)]
    else FlattenChildren(g, path, Children(c), depth)
  }

  function FlattenChildren(g: Graph, path: seq<Segment>, cs: seq<Child>, depth: nat): seq<Entry>
    requires depth < MAX_DEPTH
    decreases MAX_DEPTH - depth, 0, |cs|
  {
    if cs == [] then []
    else
      FlattenValue(g, path + [cs[0].segment], cs[0].value, depth + 1)
      + FlattenChildren(g, path, cs[1..], depth)
  }

  /** The entries of a metadata map. */
  function Flatten(g: Graph, m: map<string, nat>): seq<Entry> {
    FlattenKeys(g, [], m, 0)
  }

  function FlattenKeys(g: Graph, path: seq<Segment>, m: map<string, nat>, depth: nat): seq<Entry>
    requires depth < MAX_DEPTH
  {
    FlattenChildren(g, path, Children(Keyed(m)), depth)
  }

  // ---------- the loops ----------

  method FlattenMeta(g: Graph, m: map<string, nat>) returns (out: seq<Entry>)
    requires OrdersMaps(g)
    ensures out == Flatten(g, m)
  {
    out := [];
    var cs := Children(Keyed(m));
    out := FlattenEach(g, out, [], cs, 0);
  }

  // The loop that reads a map, key by key.
  method RenderKeys(render: nat -> string, m: map<nat, nat>, keys: seq<nat>) returns (byName: map<string, nat>)
    requires Lists(keys, m)
    ensures byName == ByName(render, m, keys) && IsRendering(render, m, byName)
  {
    byName := map[];
    for i := 0 to |keys|
      invariant byName == ByName(render, m, keys[..i])
    {
      assert keys[..i + 1][..i] == keys[..i];
      byName := byName[render(keys[i]) := m[keys[i]]];
    }
    assert keys[..|keys|] == keys;
    ReadingIsRendering(render, m, keys);
  }

  method FlattenMetaValue(g: Graph, before: seq<Entry>, path: seq<Segment>, v: nat, depth: nat)
    returns (out: seq<Entry>)
    requires OrdersMaps(g)
    ensures out == before + FlattenValue(g, path, v, depth)
    decreases MAX_DEPTH - depth, 1
  {
    out := before;
    match g.contents(v)
    case Nil =>
      out := out + [Entry(path, "")];
    case Scalar(text) =>
      out := out + [Entry(path, text)];
    case Keyed(m) =>
      if |m| == 0 {
        out := out + [Entry(path, "")];
      } else if depth >= MAX_DEPTH {
        out := out + [Entry(path, TRUNCATED)];
      } else {
        out := FlattenEach(g, out, path, Children(Keyed(m)), depth);
      }
    case Mixed(m) =>
      EmptyTogether(g.render, m, g.order(path, v));
      if |m| == 0 {
        out := out + [Entry(path, "")];
      } else if depth >= MAX_DEPTH {
        out := out + [Entry(path, TRUNCATED)];
      } else {
        var byName := RenderKeys(g.render, m, g.order(path, v));
        out := FlattenEach(g, out, path, Children(Keyed(byName)), depth);
      }
    case Listed(es) =>
      if |es| == 0 {
        out := out + [Entry(path, "")];
      } else if depth >= MAX_DEPTH {
        out := out + [Entry(path, TRUNCATED)];
      } else {
        out := FlattenEach(g, out, path, Children(Listed(es)), depth);
      }
  }

  method FlattenEach(g: Graph, before: seq<Entry>, path: seq<Segment>, cs: seq<Child>, depth: nat)
    returns (out: seq<Entry>)
    requires OrdersMaps(g) && depth < MAX_DEPTH
    ensures out == before + FlattenChildren(g, path, cs, depth)
    decreases MAX_DEPTH - depth, 0
  {
    out := before;
    var i := 0;
    assert cs[0..] == cs;
    while i < |cs|
      invariant 0 <= i <= |cs|
      invariant before + FlattenChildren(g, path, cs, depth) == out + FlattenChildren(g, path, cs[i..], depth)
    {
      assert cs[i..][0] == cs[i] && cs[i..][1..] == cs[i + 1..];
      ghost var here := FlattenValue(g, path + [cs[i].segment], cs[i].value, depth + 1);
      Reassociate(out, here, FlattenChildren(g, path, cs[i + 1..], depth));
      out := FlattenMetaValue(g, out, path + [cs[i].segment], cs[i].value, depth + 1);
      i := i + 1;
    }
    assert out + [] == out;
  }

  lemma Reassociate(a: seq<Entry>, b: seq<Entry>, c: seq<Entry>)
    ensures a + (b + c) == a + b + c
  {
  }

  // ---------- what a path leads to ----------

  function Step(c: Contents, s: Segment): Option<nat> {
    match c
    case Keyed(m) => if s.Key? && s.k in m then Some(m[s.k]) else None
    case Listed(es) => if s.Index? && s.i < |es| then Some(es[s.i]) else None
    case _ => None
  }

  // What is met at the end of a path, given as the part already taken and the rest.
  function Walk(g: Graph, taken: seq<Segment>, v: nat, rest: seq<Segment>): Option<Contents>
    decreases |rest|
  {
    var c := Read(g, taken, v);
    if rest == [] then Some(c)
    else
      var next := Step(c, rest[0]);
      if next.None? then None else Walk(g, taken + [rest[0]], next.value, rest[1..])
  }

  /**
   The text a path should be shown with: that of the leaf it leads to, or the truncation mark for a
   non-empty map or list that is exactly ten segments deep, and none for any other path.
   */
  function Shown(g: Graph, m: map<string, nat>, path: seq<Segment>): Option<string> {
    if path == [] || |path| > 10 || !path[0].Key? || path[0].k !in m then None
    else
      match Walk(g, path[..1], m[path[0].k], path[1..])
      case None => None
      case Some(Nil) => Some("")
      case Some(Scalar(text)) => Some(text)
      case Some(c) =>
        if c == Keyed(map[]) || c == Listed([]) then Some("")
        else if |path| == 10 then Some("[truncated: nested deeper than 10 levels]")
        else None
  }

  // ---------- every leaf is shown exactly once ----------

  function Count(out: seq<Entry>, e: Entry): nat {
    if out == [] then 0 else (if out[0] == e then 1 else 0) + Count(out[1..], e)
  }

  lemma {:induction false} CountConcat(a: seq<Entry>, b: seq<Entry>, e: Entry)
    ensures Count(a + b, e) == Count(a, e) + Count(b, e)
  {
    if a == [] {
      assert a + b == b;
    } else {
      assert (a + b)[1..] == a[1..] + b;
      CountConcat(a[1..], b, e);
    }
  }

  // The first child under a segment.
  function Lookup(cs: seq<Child>, s: Segment): Option<nat> {
    if cs == [] then None else if cs[0].segment == s then Some(cs[0].value) else Lookup(cs[1..], s)
  }

  ghost predicate Separate(cs: seq<Child>) {
    cs != [] ==> Lookup(cs[1..], cs[0].segment).None? && Separate(cs[1..])
  }

  lemma {:induction false} KeyedLookup(m: map<string, nat>, keys: seq<string>, s: Segment)
    requires Sorted(keys) && forall k :: k in keys ==> k in m
    ensures Separate(KeyedChildren(m, keys))
    ensures Lookup(KeyedChildren(m, keys), s) == if s.Key? && s.k in keys then Some(m[s.k]) else None
  {
    if keys != [] {
      assert keys[0] in keys;
      var cs := KeyedChildren(m, keys);
      assert cs[1..] == KeyedChildren(m, keys[1..]);
      assert Sorted(keys[1..]) by {
        assert forall i :: 0 <= i < |keys| - 1 ==> keys[1..][i] == keys[i + 1];
      }
      KeyedLookup(m, keys[1..], s);
      KeyedLookup(m, keys[1..], Key(keys[0]));
      RestOfSorted(keys, keys[0]);
      if s.Key? {
        RestOfSorted(keys, s.k);
      }
    }
  }

  lemma {:induction false} ListedLookup(elements: seq<nat>, i: nat, s: Segment)
    requires i <= |elements|
    ensures Separate(ListedChildren(elements, i))
    ensures Lookup(ListedChildren(elements, i), s) ==
      if s.Index? && i <= s.i < |elements| then Some(elements[s.i]) else None
    decreases |elements| - i
  {
    if i < |elements| {
      var cs := ListedChildren(elements, i);
      assert cs[1..] == ListedChildren(elements, i + 1);
      ListedLookup(elements, i + 1, s);
      ListedLookup(elements, i + 1, Index(i));
    }
  }

  lemma ChildrenAreSteps(c: Contents, s: Segment)
    ensures Separate(Children(c))
    ensures Lookup(Children(c), s) == Step(c, s)
  {
    match c
    case Keyed(m) => KeyedLookup(m, SortedKeys(m.Keys), s);
    case Listed(es) => ListedLookup(es, 0, s);
    case _ =>
  }

  // The text for what lies under a value, when it lies within the cap.
  function ShownUnder(g: Graph, taken: seq<Segment>, v: nat, depth: nat, rest: seq<Segment>): Option<string> {
    if depth + |rest| > MAX_DEPTH then None
    else
      var end := Walk(g, taken, v, rest);
      if end.None? then None else TextAt(end.value, depth + |rest|)
  }

  // How often an entry should occur under a path.
  function Expected(g: Graph, path: seq<Segment>, v: nat, depth: nat, e: Entry): nat {
    if path <= e.path && ShownUnder(g, path, v, depth, e.path[|path|..]) == Some(e.text) then 1 else 0
  }

  lemma {:induction false} CountValue(g: Graph, path: seq<Segment>, v: nat, depth: nat, e: Entry)
    requires depth <= MAX_DEPTH
    ensures Count(FlattenValue(g, path, v, depth), e) == Expected(g, path, v, depth, e)
    decreases MAX_DEPTH - depth, 1, 0
  {
    if TextAt(Read(g, path, v), depth).Some? {
      CountLeaf(g, path, v, depth, e);
    } else {
      ChildrenAreSteps(Read(g, path, v), if path < e.path then e.path[|path|] else Index(0));
      CountChildren(g, path, Children(Read(g, path, v)), depth, e);
      CountInner(g, path, v, depth, e, Children(Read(g, path, v)));
    }
  }

  lemma CountLeaf(g: Graph, path: seq<Segment>, v: nat, depth: nat, e: Entry)
    requires depth <= MAX_DEPTH && TextAt(Read(g, path, v), depth).Some?
    ensures Count([Entry(path, TextAt(Read(g, path, v), depth).value)], e) == Expected(g, path, v, depth, e)
  {
    if path <= e.path {
      var rest := e.path[|path|..];
      assert e.path == path + rest;
      if rest != [] && IsEmpty(Read(g, path, v)) {
        assert Step(Read(g, path, v), rest[0]).None?;
      }
    }
  }

  // How often an entry should occur under the children of a value.
  function ExpectedUnder(g: Graph, path: seq<Segment>, cs: seq<Child>, depth: nat, e: Entry): nat {
    if path < e.path && Lookup(cs, e.path[|path|]).Some? then
      Expected(g, path + [e.path[|path|]], Lookup(cs, e.path[|path|]).value, depth + 1, e)
    else 0
  }

  lemma {:induction false} CountChildren(g: Graph, path: seq<Segment>, cs: seq<Child>, depth: nat, e: Entry)
    requires depth < MAX_DEPTH && Separate(cs)
    ensures Count(FlattenChildren(g, path, cs, depth), e) == ExpectedUnder(g, path, cs, depth, e)
    decreases MAX_DEPTH - depth, 0, |cs|
  {
    if cs != [] {
      var p := path + [cs[0].segment];
      CountConcat(FlattenValue(g, p, cs[0].value, depth + 1), FlattenChildren(g, path, cs[1..], depth), e);
      CountValue(g, p, cs[0].value, depth + 1, e);
      CountChildren(g, path, cs[1..], depth, e);
    }
  }

  lemma CountInner(g: Graph, path: seq<Segment>, v: nat, depth: nat, e: Entry, cs: seq<Child>)
    requires depth < MAX_DEPTH && TextAt(Read(g, path, v), depth).None?
    requires path < e.path ==> Lookup(cs, e.path[|path|]) == Step(Read(g, path, v), e.path[|path|])
    ensures ExpectedUnder(g, path, cs, depth, e) == Expected(g, path, v, depth, e)
  {
    if path < e.path {
      var rest := e.path[|path|..];
      var p := path + [rest[0]];
      assert p <= e.path && e.path[|p|..] == rest[1..];
    } else if path <= e.path {
      assert e.path[|path|..] == [];
    }
  }

  /** Each path that leads to a leaf or to the cap is shown exactly once, and nothing else is shown. */
  lemma EachLeafOnce(g: Graph, m: map<string, nat>, e: Entry)
    ensures Count(Flatten(g, m), e) == if Shown(g, m, e.path) == Some(e.text) then 1 else 0
  {
    var cs := Children(Keyed(m));
    ChildrenAreSteps(Keyed(m), if e.path == [] then Index(0) else e.path[0]);
    CountChildren(g, [], cs, 0, e);
    if e.path != [] {
      ExpectedAtTop(g, m, e, cs);
    }
  }

  lemma ExpectedAtTop(g: Graph, m: map<string, nat>, e: Entry, cs: seq<Child>)
    requires e.path != [] && Lookup(cs, e.path[0]) == Step(Keyed(m), e.path[0])
    ensures ExpectedUnder(g, [], cs, 0, e) == if Shown(g, m, e.path) == Some(e.text) then 1 else 0
  {
    var s := e.path[0];
    assert [] + [s] == [s] == e.path[..1] && [s] <= e.path;
  }

  /** No path has more than ten segments, however the graph is wired. */
  lemma {:induction false} NoLongPath(out: seq<Entry>, g: Graph, m: map<string, nat>, i: nat)
    requires out == Flatten(g, m) && i < |out|
    ensures 1 <= |out[i].path| <= 10
    ensures Shown(g, m, out[i].path) == Some(out[i].text)
    ensures forall j :: 0 <= j < |out| && out[j].path == out[i].path ==> j == i
  {
    EachLeafOnce(g, m, out[i]);
    CountedOnce(out, out[i], i);
    forall j | 0 <= j < |out| && out[j].path == out[i].path
      ensures j == i
    {
      EachLeafOnce(g, m, out[j]);
      CountedOnce(out, out[j], j);
      CountedTwice(out, i, j);
    }
  }

  lemma {:induction false} CountedOnce(out: seq<Entry>, e: Entry, i: nat)
    requires i < |out| && out[i] == e
    ensures Count(out, e) > 0
  {
    if i > 0 {
      CountedOnce(out[1..], e, i - 1);
    }
  }

  lemma {:induction false} CountedTwice(out: seq<Entry>, i: nat, j: nat)
    requires i < |out| && j < |out| && out[i] == out[j] && Count(out, out[i]) <= 1
    ensures i == j
  {
    if i > 0 && j > 0 {
      CountedOnce(out[1..], out[i], i - 1);
      CountedTwice(out[1..], i - 1, j - 1);
    } else if i < j {
      CountedOnce(out[1..], out[i], j - 1);
    } else if j < i {
      CountedOnce(out[1..], out[i], i - 1);
    }
  }
}
