/**
 Including one spec file from another: a depth-capped flattening of an include graph that may be
 cyclic. Globbing, reading and path arithmetic are arbitrary functions; a resource is a number.
 */
module Includes {
  import opened Ordering
  import opened Wrappers

  // Where a resource lives: in the validation or the discovery section, under its type and key.
  datatype Slot = Slot(discovery: bool, kind: string, key: string)

  datatype Include = Include(file: string, skip: bool)

  datatype Config = Config(values: map<Slot, int>, includes: map<string, Include>)

  datatype IncludeError = MaxDepth | BadPattern(pattern: string) | NoMatch(pattern: string) | CouldNotRead(file: string)

  datatype FileSystem = FileSystem(
    resolve: (string, string) -> string,
    glob: string -> Option<seq<string>>,
    read: string -> Option<Config>,
    dir: string -> string)

  const MAX_DEPTH: nat := 50

  type Merged = Result<map<Slot, int>, IncludeError>

  // ---------- the recursion ----------

  // The includes in the order of their keys.
  function InOrder(includes: map<string, Include>): seq<Include> {
    Listed(includes, SortedKeys(includes.Keys))
  }

  function Listed(includes: map<string, Include>, keys: seq<string>): seq<Include>
    requires forall k :: k in keys ==> k in includes
  {
    if keys == [] then []
    else
      assert keys[0] in keys;
      [includes[keys[0]]] + Listed(includes, keys[1..])
  }

  function MergeTree(fs: FileSystem, cfg: Config, depth: nat, path: string): Merged
    decreases MAX_DEPTH - depth, 1, 0
  {
    if depth + 1 >= MAX_DEPTH then Failure(MaxDepth)
    else MergeIncludes(fs, InOrder(cfg.includes), depth + 1, path, cfg.values)
  }

  function MergeIncludes(fs: FileSystem, incs: seq<Include>, depth: nat, path: string, acc: map<Slot, int>): Merged
    requires depth < MAX_DEPTH
    decreases MAX_DEPTH - depth, 3, |incs|
  {
    if incs == [] then Success(acc)
    else if incs[0].skip then MergeIncludes(fs, incs[1..], depth, path, acc)
    else
      var found := Expand(fs, incs[0], path);
      if found.Failure? then Failure(found.error)
      else
        var r := MergeFiles(fs, found.value, depth, acc);
        if r.Failure? then r else MergeIncludes(fs, incs[1..], depth, path, r.value)
  }

  function MergeFiles(fs: FileSystem, files: seq<string>, depth: nat, acc: map<Slot, int>): Merged
    requires depth < MAX_DEPTH
    decreases MAX_DEPTH - depth, 2, |files|
  {
    if files == [] then Success(acc)
    else
      var file := fs.read(files[0]);
      if file.None? then Failure(CouldNotRead(files[0]))
      else
        var r := MergeTree(fs, file.value, depth, fs.dir(files[0]));
        if r.Failure? then r else MergeFiles(fs, files[1..], depth, acc + r.value)
  }

  /** The merge of a file and everything it includes. */
  function Merge(fs: FileSystem, cfg: Config, path: string): Merged {
    MergeTree(fs, cfg, 0, path)
  }

  // The files an include stands for.
  function Expand(fs: FileSystem, inc: Include, path: string): (r: Result<seq<string>, IncludeError>)
    ensures r.Success? ==> r.value != []
    ensures r.Failure? ==> r.error != MaxDepth
  {
    var pattern := fs.resolve(path, inc.file);
    var found := fs.glob(pattern);
    if found.None? then Failure(BadPattern(pattern))
    else if found.value == [] then Failure(NoMatch(pattern))
    else Success(found.value)
  }

  // ---------- the loops ----------

  // One map written over another, key by key in any order.
  method WriteOver(dst: map<Slot, int>, src: map<Slot, int>) returns (r: map<Slot, int>)
    ensures r == dst + src
  {
    r := dst;
    var remaining := src.Keys;
    while remaining != {}
      invariant remaining <= src.Keys
      invariant r.Keys == dst.Keys + (src.Keys - remaining)
      invariant forall k :: k in r ==> r[k] == if k in src && k !in remaining then src[k] else dst[k]
      decreases remaining
    {
      var k :| k in remaining;
      r := r[k := src[k]];
      remaining := remaining - {k};
    }
  }

  method MergeJsonData(fs: FileSystem, cfg: Config, depth: nat, path: string) returns (r: Merged)
    ensures r == MergeTree(fs, cfg, depth, path)
    decreases MAX_DEPTH - depth, 1
  {
    if depth + 1 >= MAX_DEPTH {
      return Failure(MaxDepth);
    }
    var ret := WriteOver(map[], cfg.values);
    assert ret == cfg.values;
    r := MergeEach(fs, InOrder(cfg.includes), depth + 1, path, ret);
  }

  method MergeEach(
    fs: FileSystem, incs: seq<Include>, depth: nat, path: string, acc: map<Slot, int>)
    returns (r: Merged)
    requires depth < MAX_DEPTH
    ensures r == MergeIncludes(fs, incs, depth, path, acc)
    decreases MAX_DEPTH - depth, 3
  {
    var ret := acc;
    var i := 0;
    assert incs[0..] == incs;
    while i < |incs|
      invariant 0 <= i <= |incs|
      invariant MergeIncludes(fs, incs, depth, path, acc) == MergeIncludes(fs, incs[i..], depth, path, ret)
    {
      assert incs[i..][1..] == incs[i + 1..];
      var inc := incs[i];
      i := i + 1;
      if inc.skip {
        continue;
      }
      var found := Expand(fs, inc, path);
      if found.Failure? {
        return Failure(found.error);
      }
      var merged := MergeMatches(fs, found.value, depth, ret);
      if merged.Failure? {
        return merged;
      }
      ret := merged.value;
    }
    r := Success(ret);
  }

  method MergeMatches(fs: FileSystem, files: seq<string>, depth: nat, acc: map<Slot, int>) returns (r: Merged)
    requires depth < MAX_DEPTH
    ensures r == MergeFiles(fs, files, depth, acc)
    decreases MAX_DEPTH - depth, 2
  {
    var ret := acc;
    var i := 0;
    assert files[0..] == files;
    while i < |files|
      invariant 0 <= i <= |files|
      invariant MergeFiles(fs, files, depth, acc) == MergeFiles(fs, files[i..], depth, ret)
    {
      assert files[i..][1..] == files[i + 1..];
      var file := fs.read(files[i]);
      if file.None? {
        return Failure(CouldNotRead(files[i]));
      }
      var merged := MergeJsonData(fs, file.value, depth, fs.dir(files[i]));
      if merged.Failure? {
        return merged;
      }
      ret := WriteOver(ret, merged.value);
      i := i + 1;
    }
    r := Success(ret);
  }

  /** The alias is folded into the includes, whose own entries win. */
  method FoldAlias(syverfiles: map<string, Include>, alias: map<string, Include>) returns (r: map<string, Include>)
    ensures r == alias + syverfiles
  {
    r := syverfiles;
    var remaining := alias.Keys;
    while remaining != {}
      invariant remaining <= alias.Keys
      invariant r.Keys == syverfiles.Keys + (alias.Keys - remaining)
      invariant forall k :: k in r ==> r[k] == if k in syverfiles then syverfiles[k] else alias[k]
      decreases remaining
    {
      var k :| k in remaining;
      remaining := remaining - {k};
      if k in r {
        continue;
      }
      r := r[k := alias[k]];
    }
  }

  // ---------- include trees ----------

  // What is included, file by file: finite when no cycle is reachable.
  datatype Tree = Tree(cfg: Config, kids: seq<Tree>)

  // The files some includes stand for, in order; none when an include stands for no file.
  function Targets(fs: FileSystem, incs: seq<Include>, path: string): Option<seq<string>> {
    if incs == [] then Some([])
    else
      var rest := Targets(fs, incs[1..], path);
      if incs[0].skip then rest
      else
        var found := Expand(fs, incs[0], path);
        if found.Failure? || rest.None? then None else Some(found.value + rest.value)
  }

  function AllTargets(fs: FileSystem, cfg: Config, path: string): Option<seq<string>> {
    Targets(fs, InOrder(cfg.includes), path)
  }

  ghost predicate Unfolds(fs: FileSystem, t: Tree, path: string)
    decreases t, 0
  {
    var files := AllTargets(fs, t.cfg, path);
    files.Some? && UnfoldsAll(fs, files.value, t.kids)
  }

  ghost predicate UnfoldsAll(fs: FileSystem, files: seq<string>, kids: seq<Tree>)
    decreases kids, 1
  {
    && |kids| == |files|
    && forall i :: 0 <= i < |kids| ==>
         fs.read(files[i]) == Some(kids[i].cfg) && Unfolds(fs, kids[i], fs.dir(files[i]))
  }

  // The longest chain of includes in a tree.
  function Height(t: Tree): nat {
    HeightAll(t.kids)
  }

  // One more than the height of the highest tree, if any.
  function HeightAll(kids: seq<Tree>): nat {
    if kids == [] then 0
    else
      var h, rest := Height(kids[0]) + 1, HeightAll(kids[1..]);
      if h < rest then rest else h
  }

  // Each file before the files it includes.
  function Preorder(t: Tree): seq<map<Slot, int>> {
    [t.cfg.values] + PreorderAll(t.kids)
  }

  function PreorderAll(kids: seq<Tree>): seq<map<Slot, int>> {
    if kids == [] then [] else Preorder(kids[0]) + PreorderAll(kids[1..])
  }

  // ---------- the last writer wins ----------

  function Overlay(ms: seq<map<Slot, int>>): map<Slot, int> {
    if ms == [] then map[] else ms[0] + Overlay(ms[1..])
  }

  lemma {:induction false} OverlayConcat(a: seq<map<Slot, int>>, b: seq<map<Slot, int>>)
    ensures Overlay(a + b) == Overlay(a) + Overlay(b)
  {
    if a == [] {
      assert a + b == b;
    } else {
      assert (a + b)[1..] == a[1..] + b;
      OverlayConcat(a[1..], b);
    }
  }

  ghost predicate IsLastWriter(ms: seq<map<Slot, int>>, k: Slot, i: nat) {
    i < |ms| && k in ms[i] && forall j :: i < j < |ms| ==> k !in ms[j]
  }

  /** A slot is filled exactly when some file fills it, with the value of the last one that does. */
  lemma {:induction false} LastWriterWins(ms: seq<map<Slot, int>>, k: Slot)
    ensures k in Overlay(ms) <==> exists i :: 0 <= i < |ms| && k in ms[i]
    ensures forall i: nat :: IsLastWriter(ms, k, i) ==> k in Overlay(ms) && Overlay(ms)[k] == ms[i][k]
  {
    if ms != [] {
      LastWriterWins(ms[1..], k);
      assert forall i :: 0 <= i < |ms| - 1 ==> ms[1..][i] == ms[i + 1];
      if k in Overlay(ms[1..]) {
        var i :| 0 <= i < |ms[1..]| && k in ms[1..][i];
        assert k in ms[i + 1];
      }
      forall i: nat | IsLastWriter(ms, k, i)
        ensures k in Overlay(ms) && Overlay(ms)[k] == ms[i][k]
      {
        if i > 0 {
          assert IsLastWriter(ms[1..], k, i - 1);
        }
      }
    }
  }

  // ---------- a finite include tree ----------

  lemma OverThenOver(a: map<Slot, int>, b: map<Slot, int>, c: map<Slot, int>)
    ensures a + b + c == a + (b + c)
  {
  }

  lemma {:induction false} ForestConcat(a: seq<Tree>, b: seq<Tree>)
    ensures Overlay(PreorderAll(a + b)) == Overlay(PreorderAll(a)) + Overlay(PreorderAll(b))
    ensures HeightAll(a + b) == if HeightAll(a) < HeightAll(b) then HeightAll(b) else HeightAll(a)
  {
    if a == [] {
      assert a + b == b;
      assert map[] + Overlay(PreorderAll(b)) == Overlay(PreorderAll(b));
    } else {
      assert (a + b)[0] == a[0] && (a + b)[1..] == a[1..] + b;
      ForestConcat(a[1..], b);
      OverlayConcat(Preorder(a[0]), PreorderAll(a[1..] + b));
      OverlayConcat(Preorder(a[0]), PreorderAll(a[1..]));
      OverThenOver(Overlay(Preorder(a[0])), Overlay(PreorderAll(a[1..])), Overlay(PreorderAll(b)));
    }
  }

  // What merging a forest over a map should give.
  function MergedForest(kids: seq<Tree>, depth: nat, acc: map<Slot, int>): Merged {
    if depth + HeightAll(kids) >= MAX_DEPTH then Failure(MaxDepth)
    else Success(acc + Overlay(PreorderAll(kids)))
  }

  lemma MergedForestConcat(a: seq<Tree>, b: seq<Tree>, depth: nat, acc: map<Slot, int>)
    ensures var r := MergedForest(a, depth, acc);
      MergedForest(a + b, depth, acc) == if r.Failure? then r else MergedForest(b, depth, r.value)
  {
    ForestConcat(a, b);
    OverThenOver(acc, Overlay(PreorderAll(a)), Overlay(PreorderAll(b)));
  }

  lemma MergedForestOne(t: Tree, depth: nat, acc: map<Slot, int>)
    requires depth < MAX_DEPTH
    ensures MergedForest([t], depth, acc) ==
      if depth + Height(t) + 1 >= MAX_DEPTH then Failure(MaxDepth) else Success(acc + Overlay(Preorder(t)))
  {
    assert [t][1..] == [] && PreorderAll([]) == [] && HeightAll([]) == 0;
    assert PreorderAll([t]) == Preorder(t) + PreorderAll([t][1..]) == Preorder(t);
    assert HeightAll([t]) == Height(t) + 1;
  }

  lemma MergedForestNone(depth: nat, acc: map<Slot, int>)
    requires depth < MAX_DEPTH
    ensures MergedForest([], depth, acc) == Success(acc)
  {
    assert acc + map[] == acc;
  }

  /** On a finite include tree merging meets the depth cap or leaves every slot to its last writer. */
  lemma {:induction false} MergedTree(fs: FileSystem, t: Tree, depth: nat, path: string)
    requires Unfolds(fs, t, path)
    ensures MergeTree(fs, t.cfg, depth, path) ==
      if depth + Height(t) + 1 >= MAX_DEPTH then Failure(MaxDepth) else Success(Overlay(Preorder(t)))
    decreases MAX_DEPTH - depth, 1, 0
  {
    if depth + 1 < MAX_DEPTH {
      MergedIncludes(fs, InOrder(t.cfg.includes), t.kids, depth + 1, path, t.cfg.values);
      assert Preorder(t)[0] == t.cfg.values && Preorder(t)[1..] == PreorderAll(t.kids);
    }
  }

  lemma {:induction false} MergedFiles(
    fs: FileSystem, files: seq<string>, kids: seq<Tree>, depth: nat, acc: map<Slot, int>)
    requires depth < MAX_DEPTH && UnfoldsAll(fs, files, kids)
    ensures MergeFiles(fs, files, depth, acc) == MergedForest(kids, depth, acc)
    decreases MAX_DEPTH - depth, 2, |files|
  {
    if files == [] {
      MergedForestNone(depth, acc);
    } else {
      assert [files[0]] + files[1..] == files && [kids[0]] + kids[1..] == kids;
      MergedTree(fs, kids[0], depth, fs.dir(files[0]));
      MergedForestOne(kids[0], depth, acc);
      MergedForestConcat([kids[0]], kids[1..], depth, acc);
      MergedFiles(fs, files[1..], kids[1..], depth, acc + Overlay(Preorder(kids[0])));
    }
  }

  lemma {:induction false} MergedIncludes(
    fs: FileSystem, incs: seq<Include>, kids: seq<Tree>, depth: nat, path: string, acc: map<Slot, int>)
    requires depth < MAX_DEPTH && Targets(fs, incs, path).Some?
    requires UnfoldsAll(fs, Targets(fs, incs, path).value, kids)
    ensures MergeIncludes(fs, incs, depth, path, acc) == MergedForest(kids, depth, acc)
    decreases MAX_DEPTH - depth, 3, |incs|
  {
    if incs == [] {
      MergedForestNone(depth, acc);
    } else if incs[0].skip {
      MergedIncludes(fs, incs[1..], kids, depth, path, acc);
    } else {
      var found := Expand(fs, incs[0], path).value;
      var here, later := kids[..|found|], kids[|found|..];
      assert kids == here + later;
      MergedFiles(fs, found, here, depth, acc);
      MergedForestConcat(here, later, depth, acc);
      var r := MergedForest(here, depth, acc);
      if r.Success? {
        MergedIncludes(fs, incs[1..], later, depth, path, r.value);
      }
    }
  }

  /** Merging succeeds only where the includes unfold to a finite tree. */
  lemma {:induction false} TreeOfMerged(fs: FileSystem, cfg: Config, depth: nat, path: string) returns (t: Tree)
    requires MergeTree(fs, cfg, depth, path).Success?
    ensures t.cfg == cfg && Unfolds(fs, t, path)
    decreases MAX_DEPTH - depth, 1, 0
  {
    var kids := TreesOfIncludes(fs, InOrder(cfg.includes), depth + 1, path, cfg.values);
    t := Tree(cfg, kids);
  }

  lemma {:induction false} TreesOfIncludes(
    fs: FileSystem, incs: seq<Include>, depth: nat, path: string, acc: map<Slot, int>)
    returns (kids: seq<Tree>)
    requires depth < MAX_DEPTH && MergeIncludes(fs, incs, depth, path, acc).Success?
    ensures Targets(fs, incs, path).Some? && UnfoldsAll(fs, Targets(fs, incs, path).value, kids)
    decreases MAX_DEPTH - depth, 3, |incs|
  {
    if incs == [] {
      kids := [];
    } else if incs[0].skip {
      kids := TreesOfIncludes(fs, incs[1..], depth, path, acc);
    } else {
      var found := Expand(fs, incs[0], path).value;
      var here := TreesOfFiles(fs, found, depth, acc);
      var later := TreesOfIncludes(fs, incs[1..], depth, path, MergeFiles(fs, found, depth, acc).value);
      kids := here + later;
      UnfoldsConcat(fs, found, here, Targets(fs, incs[1..], path).value, later);
    }
  }

  lemma {:induction false} TreesOfFiles(
    fs: FileSystem, files: seq<string>, depth: nat, acc: map<Slot, int>)
    returns (kids: seq<Tree>)
    requires depth < MAX_DEPTH && MergeFiles(fs, files, depth, acc).Success?
    ensures UnfoldsAll(fs, files, kids)
    decreases MAX_DEPTH - depth, 2, |files|
  {
    if files == [] {
      kids := [];
    } else {
      var cfg := fs.read(files[0]).value;
      var first := TreeOfMerged(fs, cfg, depth, fs.dir(files[0]));
      var r := MergeTree(fs, cfg, depth, fs.dir(files[0]));
      var rest := TreesOfFiles(fs, files[1..], depth, acc + r.value);
      assert [files[0]] + files[1..] == files;
      UnfoldsOne(fs, files[0], first);
      UnfoldsConcat(fs, [files[0]], [first], files[1..], rest);
      kids := [first] + rest;
    }
  }

  lemma UnfoldsOne(fs: FileSystem, file: string, t: Tree)
    requires fs.read(file) == Some(t.cfg) && Unfolds(fs, t, fs.dir(file))
    ensures UnfoldsAll(fs, [file], [t])
  {
  }

  lemma UnfoldsConcat(fs: FileSystem, f: seq<string>, a: seq<Tree>, g: seq<string>, b: seq<Tree>)
    requires UnfoldsAll(fs, f, a) && UnfoldsAll(fs, g, b)
    ensures UnfoldsAll(fs, f + g, a + b)
  {
    forall i | 0 <= i < |a + b|
      ensures fs.read((f + g)[i]) == Some((a + b)[i].cfg) && Unfolds(fs, (a + b)[i], fs.dir((f + g)[i]))
    {
      if i < |a| {
        assert (a + b)[i] == a[i] && (f + g)[i] == f[i];
      } else {
        assert (a + b)[i] == b[i - |a|] && (f + g)[i] == g[i - |a|];
      }
    }
  }

  // ---------- chains of includes ----------

  // A file that a config includes: some unskipped entry has a pattern that expands to it.
  ghost predicate Includes(fs: FileSystem, cfg: Config, path: string, file: string) {
    exists k :: k in cfg.includes && Names(fs, cfg.includes[k], path, file)
  }

  ghost predicate Names(fs: FileSystem, inc: Include, path: string, file: string) {
    var found := fs.glob(fs.resolve(path, inc.file));
    !inc.skip && found.Some? && file in found.value
  }

  // Some of the includes name a file.
  ghost predicate SomeNames(fs: FileSystem, incs: seq<Include>, path: string, file: string) {
    exists i :: 0 <= i < |incs| && Names(fs, incs[i], path, file)
  }

  // The keys of the includes, each once and in alphabetical order, and what each of them includes.
  lemma {:induction false} ListedAt(includes: map<string, Include>, keys: seq<string>, i: nat)
    requires (forall k :: k in keys ==> k in includes) && i < |keys|
    ensures |Listed(includes, keys)| == |keys| && keys[i] in includes
    ensures Listed(includes, keys)[i] == includes[keys[i]]
  {
    assert keys[0] in keys;
    if i > 0 {
      ListedAt(includes, keys[1..], i - 1);
    } else if |keys| > 1 {
      ListedAt(includes, keys[1..], 0);
    }
  }

  lemma ListedLength(includes: map<string, Include>, keys: seq<string>)
    requires forall k :: k in keys ==> k in includes
    ensures |Listed(includes, keys)| == |keys|
  {
    if keys != [] {
      ListedAt(includes, keys, 0);
    }
  }

  /** The includes that the loop goes through are all those of the map. */
  lemma IncludesInOrder(fs: FileSystem, cfg: Config, path: string, file: string)
    ensures Includes(fs, cfg, path, file) <==> SomeNames(fs, InOrder(cfg.includes), path, file)
  {
    var keys, incs := SortedKeys(cfg.includes.Keys), InOrder(cfg.includes);
    ListedLength(cfg.includes, keys);
    if k :| k in cfg.includes && Names(fs, cfg.includes[k], path, file) {
      assert k in keys;
      var i :| 0 <= i < |keys| && keys[i] == k;
      ListedAt(cfg.includes, keys, i);
    }
    if i :| 0 <= i < |incs| && Names(fs, incs[i], path, file) {
      ListedAt(cfg.includes, keys, i);
    }
  }

  /** Each file of a chain can be read and is included by the one before, the first by the config. */
  ghost predicate IsChain(fs: FileSystem, cfg: Config, path: string, files: seq<string>)
    decreases |files|
  {
    files == [] ||
    (&& Includes(fs, cfg, path, files[0])
     && fs.read(files[0]).Some?
     && IsChain(fs, fs.read(files[0]).value, fs.dir(files[0]), files[1..]))
  }

  /** The depth error is only reported for a chain of includes that long. */
  lemma {:induction false} LongChain(fs: FileSystem, cfg: Config, depth: nat, path: string) returns (files: seq<string>)
    requires depth < MAX_DEPTH && MergeTree(fs, cfg, depth, path) == Failure(MaxDepth)
    ensures IsChain(fs, cfg, path, files) && |files| == MAX_DEPTH - 1 - depth
    decreases MAX_DEPTH - depth, 1, 0
  {
    if depth + 1 >= MAX_DEPTH {
      files := [];
    } else {
      files := LongChainOfIncludes(fs, InOrder(cfg.includes), depth + 1, path, cfg.values);
      IncludesInOrder(fs, cfg, path, files[0]);
    }
  }

  lemma {:induction false} LongChainOfIncludes(
    fs: FileSystem, incs: seq<Include>, depth: nat, path: string, acc: map<Slot, int>)
    returns (files: seq<string>)
    requires depth < MAX_DEPTH && MergeIncludes(fs, incs, depth, path, acc) == Failure(MaxDepth)
    ensures |files| == MAX_DEPTH - depth
    ensures SomeNames(fs, incs, path, files[0]) && fs.read(files[0]).Some?
    ensures IsChain(fs, fs.read(files[0]).value, fs.dir(files[0]), files[1..])
    decreases MAX_DEPTH - depth, 3, |incs|
  {
    if !incs[0].skip {
      var found := Expand(fs, incs[0], path).value;
      if MergeFiles(fs, found, depth, acc).Failure? {
        files := LongChainOfFiles(fs, found, depth, acc);
        assert Names(fs, incs[0], path, files[0]);
        return;
      }
    }
    var acc' := if incs[0].skip then acc else MergeFiles(fs, Expand(fs, incs[0], path).value, depth, acc).value;
    files := LongChainOfIncludes(fs, incs[1..], depth, path, acc');
    var i :| 0 <= i < |incs[1..]| && Names(fs, incs[1..][i], path, files[0]);
    assert Names(fs, incs[i + 1], path, files[0]);
  }

  lemma {:induction false} LongChainOfFiles(fs: FileSystem, found: seq<string>, depth: nat, acc: map<Slot, int>)
    returns (files: seq<string>)
    requires depth < MAX_DEPTH && MergeFiles(fs, found, depth, acc) == Failure(MaxDepth)
    ensures |files| == MAX_DEPTH - depth
    ensures files[0] in found && fs.read(files[0]).Some?
    ensures IsChain(fs, fs.read(files[0]).value, fs.dir(files[0]), files[1..])
    decreases MAX_DEPTH - depth, 2, |found|
  {
    var cfg := fs.read(found[0]).value;
    var r := MergeTree(fs, cfg, depth, fs.dir(found[0]));
    if r.Failure? {
      var rest := LongChain(fs, cfg, depth, fs.dir(found[0]));
      files := [found[0]] + rest;
      assert files[1..] == rest;
    } else {
      files := LongChainOfFiles(fs, found[1..], depth, acc + r.value);
    }
  }

  // The targets are the included files.
  lemma {:induction false} IncludedIsTarget(fs: FileSystem, incs: seq<Include>, path: string, file: string)
    requires Targets(fs, incs, path).Some? && SomeNames(fs, incs, path, file)
    ensures file in Targets(fs, incs, path).value
  {
    var i :| 0 <= i < |incs| && Names(fs, incs[i], path, file);
    if i > 0 {
      assert Names(fs, incs[1..][i - 1], path, file);
      IncludedIsTarget(fs, incs[1..], path, file);
    }
  }

  lemma {:induction false} HeightBoundsKids(kids: seq<Tree>, i: nat)
    requires i < |kids|
    ensures Height(kids[i]) < HeightAll(kids)
  {
    if i > 0 {
      HeightBoundsKids(kids[1..], i - 1);
    }
  }

  lemma {:induction false} ChainFitsTree(fs: FileSystem, t: Tree, path: string, files: seq<string>)
    requires Unfolds(fs, t, path) && IsChain(fs, t.cfg, path, files)
    ensures |files| <= Height(t)
    decreases |files|
  {
    if files != [] {
      IncludesInOrder(fs, t.cfg, path, files[0]);
      IncludedIsTarget(fs, InOrder(t.cfg.includes), path, files[0]);
      var targets := AllTargets(fs, t.cfg, path).value;
      var i :| 0 <= i < |targets| && targets[i] == files[0];
      ChainFitsTree(fs, t.kids[i], fs.dir(files[0]), files[1..]);
      HeightBoundsKids(t.kids, i);
    }
  }

  /** A chain of 49 includes from the first file, or more, never merges. */
  lemma LongChainFails(fs: FileSystem, cfg: Config, path: string, files: seq<string>)
    requires IsChain(fs, cfg, path, files) && |files| >= 49
    ensures Merge(fs, cfg, path).Failure?
  {
    var r := Merge(fs, cfg, path);
    if r.Success? {
      var t := TreeOfMerged(fs, cfg, 0, path);
      ChainFitsTree(fs, t, path, files);
      MergedTree(fs, t, 0, path);
    }
  }

  // ---------- when all files load ----------

  // Every unskipped entry has a pattern that expands to some files.
  ghost predicate AllExpand(fs: FileSystem, cfg: Config, path: string) {
    forall k :: k in cfg.includes && !cfg.includes[k].skip ==>
      var found := fs.glob(fs.resolve(path, cfg.includes[k].file));
      found.Some? && found.value != []
  }

  // Every include within some number of steps stands for files, all of which can be read.
  ghost predicate LoadsWithin(fs: FileSystem, cfg: Config, path: string, steps: nat)
    decreases steps
  {
    steps > 0 ==>
      && AllExpand(fs, cfg, path)
      && forall f :: Includes(fs, cfg, path, f) ==>
           fs.read(f).Some? && LoadsWithin(fs, fs.read(f).value, fs.dir(f), steps - 1)
  }

  lemma {:induction false} TargetsExist(fs: FileSystem, incs: seq<Include>, path: string)
    requires forall i :: 0 <= i < |incs| && !incs[i].skip ==> Expand(fs, incs[i], path).Success?
    ensures Targets(fs, incs, path).Some?
    ensures forall f :: f in Targets(fs, incs, path).value ==> SomeNames(fs, incs, path, f)
  {
    if incs != [] {
      TargetsExist(fs, incs[1..], path);
      forall f | f in Targets(fs, incs, path).value
        ensures SomeNames(fs, incs, path, f)
      {
        if f in Targets(fs, incs[1..], path).value {
          var i :| 0 <= i < |incs[1..]| && Names(fs, incs[1..][i], path, f);
          assert Names(fs, incs[i + 1], path, f);
        } else {
          assert Names(fs, incs[0], path, f);
        }
      }
    }
  }

  // The files that are merged are those that the config includes.
  lemma TargetsAreIncluded(fs: FileSystem, cfg: Config, path: string)
    requires AllExpand(fs, cfg, path)
    ensures AllTargets(fs, cfg, path).Some?
    ensures forall f :: f in AllTargets(fs, cfg, path).value ==> Includes(fs, cfg, path, f)
  {
    var keys, incs := SortedKeys(cfg.includes.Keys), InOrder(cfg.includes);
    ListedLength(cfg.includes, keys);
    forall i | 0 <= i < |incs| && !incs[i].skip
      ensures Expand(fs, incs[i], path).Success?
    {
      ListedAt(cfg.includes, keys, i);
    }
    TargetsExist(fs, incs, path);
    forall f | f in AllTargets(fs, cfg, path).value
      ensures Includes(fs, cfg, path, f)
    {
      IncludesInOrder(fs, cfg, path, f);
    }
  }

  // Every file that the depth cap lets the merge reach can be loaded.
  ghost predicate AllLoad(fs: FileSystem, cfg: Config, path: string) {
    LoadsWithin(fs, cfg, path, MAX_DEPTH - 1)
  }

  lemma AllLoadMeans(fs: FileSystem, cfg: Config, path: string, steps: nat)
    requires steps == MAX_DEPTH - 1
    ensures AllLoad(fs, cfg, path) <==> LoadsWithin(fs, cfg, path, steps)
  {
  }

  lemma {:induction false} OnlyDepthFails(fs: FileSystem, cfg: Config, depth: nat, path: string)
    requires depth < MAX_DEPTH && LoadsWithin(fs, cfg, path, MAX_DEPTH - 1 - depth)
    ensures var r := MergeTree(fs, cfg, depth, path); r.Failure? ==> r.error == MaxDepth
    decreases MAX_DEPTH - depth, 1, 0
  {
    if depth + 1 < MAX_DEPTH {
      TargetsAreIncluded(fs, cfg, path);
      OnlyDepthFailsIncludes(fs, InOrder(cfg.includes), depth + 1, path, cfg.values);
    }
  }

  lemma {:induction false} OnlyDepthFailsIncludes(
    fs: FileSystem, incs: seq<Include>, depth: nat, path: string, acc: map<Slot, int>)
    requires depth < MAX_DEPTH && Targets(fs, incs, path).Some?
    requires forall f :: f in Targets(fs, incs, path).value ==>
      fs.read(f).Some? && LoadsWithin(fs, fs.read(f).value, fs.dir(f), MAX_DEPTH - 1 - depth)
    ensures var r := MergeIncludes(fs, incs, depth, path, acc); r.Failure? ==> r.error == MaxDepth
    decreases MAX_DEPTH - depth, 3, |incs|
  {
    if incs != [] {
      if incs[0].skip {
        OnlyDepthFailsIncludes(fs, incs[1..], depth, path, acc);
      } else {
        var found := Expand(fs, incs[0], path).value;
        OnlyDepthFailsFiles(fs, found, depth, acc);
        var r := MergeFiles(fs, found, depth, acc);
        if r.Success? {
          OnlyDepthFailsIncludes(fs, incs[1..], depth, path, r.value);
        }
      }
    }
  }

  lemma {:induction false} OnlyDepthFailsFiles(fs: FileSystem, files: seq<string>, depth: nat, acc: map<Slot, int>)
    requires depth < MAX_DEPTH
    requires forall f :: f in files ==>
      fs.read(f).Some? && LoadsWithin(fs, fs.read(f).value, fs.dir(f), MAX_DEPTH - 1 - depth)
    ensures var r := MergeFiles(fs, files, depth, acc); r.Failure? ==> r.error == MaxDepth
    decreases MAX_DEPTH - depth, 2, |files|
  {
    if files != [] {
      var cfg := fs.read(files[0]).value;
      OnlyDepthFails(fs, cfg, depth, fs.dir(files[0]));
      var r := MergeTree(fs, cfg, depth, fs.dir(files[0]));
      if r.Success? {
        OnlyDepthFailsFiles(fs, files[1..], depth, acc + r.value);
      }
    }
  }

  ghost predicate HasLongChain(fs: FileSystem, cfg: Config, path: string) {
    exists files :: IsChain(fs, cfg, path, files) && |files| == 49
  }

  lemma DepthErrorHasChain(fs: FileSystem, cfg: Config, path: string)
    requires Merge(fs, cfg, path) == Failure(MaxDepth)
    ensures HasLongChain(fs, cfg, path)
  {
    var files := LongChain(fs, cfg, 0, path);
  }

  lemma ChainHasNoMerge(fs: FileSystem, cfg: Config, path: string)
    requires HasLongChain(fs, cfg, path)
    ensures Merge(fs, cfg, path).Failure?
  {
    var files :| IsChain(fs, cfg, path, files) && |files| == 49;
    LongChainFails(fs, cfg, path, files);
  }

  lemma LoadedFailsOnlyByDepth(fs: FileSystem, cfg: Config, path: string, depth: nat, steps: nat)
    requires depth == 0 && steps == MAX_DEPTH - 1 - depth && AllLoad(fs, cfg, path)
    ensures Merge(fs, cfg, path).Failure? ==> Merge(fs, cfg, path) == Failure(MaxDepth)
  {
    AllLoadMeans(fs, cfg, path, steps);
    OnlyDepthFails(fs, cfg, depth, path);
  }

  /**
   When all files load, merging meets the depth cap exactly when some chain of unskipped includes has
   49 of them, and otherwise succeeds.
   */
  lemma DepthErrorExactly(fs: FileSystem, cfg: Config, path: string)
    requires AllLoad(fs, cfg, path)
    ensures Merge(fs, cfg, path) == Failure(MaxDepth) <==> HasLongChain(fs, cfg, path)
    ensures Merge(fs, cfg, path).Success? <==> !HasLongChain(fs, cfg, path)
  {
    LoadedFailsOnlyByDepth(fs, cfg, path, 0, MAX_DEPTH - 1);
    if HasLongChain(fs, cfg, path) {
      ChainHasNoMerge(fs, cfg, path);
    }
    if Merge(fs, cfg, path) == Failure(MaxDepth) {
      DepthErrorHasChain(fs, cfg, path);
    }
  }

  /**
   A successful merge fills exactly the slots that some included file fills, each with the value of the
   last of them when every file comes before the files it includes.
   */
  lemma MergedIsLastWriters(fs: FileSystem, cfg: Config, path: string) returns (t: Tree)
    requires Merge(fs, cfg, path).Success?
    ensures t.cfg == cfg && Unfolds(fs, t, path) && Height(t) < 49
    ensures var m := Merge(fs, cfg, path).value; var ms := Preorder(t);
      && (forall k :: k in m <==> exists i :: 0 <= i < |ms| && k in ms[i])
      && (forall k, i: nat :: IsLastWriter(ms, k, i) ==> k in m && m[k] == ms[i][k])
  {
    t := TreeOfMerged(fs, cfg, 0, path);
    MergedTree(fs, t, 0, path);
    var ms := Preorder(t);
    var m := Overlay(ms);
    forall k
      ensures k in m <==> exists i :: 0 <= i < |ms| && k in ms[i]
      ensures forall i: nat :: IsLastWriter(ms, k, i) ==> k in m && m[k] == ms[i][k]
    {
      LastWriterWins(ms, k);
    }
  }

  // ---------- the order of the files ----------

  // The trees from one index up to another are those of the files that an include stands for, in order.
  ghost predicate Segment(fs: FileSystem, inc: Include, path: string, kids: seq<Tree>, from: nat, to: nat) {
    var found := fs.glob(fs.resolve(path, inc.file));
    from <= to <= |kids| &&
    if inc.skip then to == from
    else
      && found.Some? && found.value != [] && to == from + |found.value|
      && forall j :: 0 <= j < |found.value| ==>
           && fs.read(found.value[j]) == Some(kids[from + j].cfg)
           && Unfolds(fs, kids[from + j], fs.dir(found.value[j]))
  }

  lemma FirstSegment(fs: FileSystem, incs: seq<Include>, path: string, kids: seq<Tree>, from: nat) returns (to: nat)
    requires from <= |kids| && incs != [] && Targets(fs, incs, path).Some?
    requires UnfoldsAll(fs, Targets(fs, incs, path).value, kids[from..])
    ensures Segment(fs, incs[0], path, kids, from, to)
    ensures Targets(fs, incs[1..], path).Some? && UnfoldsAll(fs, Targets(fs, incs[1..], path).value, kids[to..])
  {
    var files, rest := Targets(fs, incs, path).value, Targets(fs, incs[1..], path).value;
    var n := if incs[0].skip then 0 else |Expand(fs, incs[0], path).value|;
    to := from + n;
    assert rest == files[n..];
    forall j | 0 <= j < n
      ensures fs.read(files[j]) == Some(kids[from + j].cfg) && Unfolds(fs, kids[from + j], fs.dir(files[j]))
    {
      assert kids[from..][j] == kids[from + j];
    }
    forall i | 0 <= i < |kids[to..]|
      ensures fs.read(rest[i]) == Some(kids[to..][i].cfg) && Unfolds(fs, kids[to..][i], fs.dir(rest[i]))
    {
      assert kids[to..][i] == kids[from..][n + i] && rest[i] == files[n + i];
    }
    assert n > 0 ==> Expand(fs, incs[0], path).value == files[..n];
  }

  // The trees from one index on are those of some keys, one segment for each key.
  ghost predicate Segmented(
    fs: FileSystem, includes: map<string, Include>, keys: seq<string>, path: string, kids: seq<Tree>, starts: seq<nat>)
  {
    && |starts| == |keys| + 1 && starts[|keys|] == |kids|
    && forall i :: 0 <= i < |keys| ==>
         keys[i] in includes && Segment(fs, includes[keys[i]], path, kids, starts[i], starts[i + 1])
  }

  lemma SegmentedGrows(
    fs: FileSystem, includes: map<string, Include>, keys: seq<string>, path: string, kids: seq<Tree>,
    from: nat, rest: seq<nat>)
    requires keys != [] && keys[0] in includes && Segmented(fs, includes, keys[1..], path, kids, rest)
    requires Segment(fs, includes[keys[0]], path, kids, from, rest[0])
    ensures Segmented(fs, includes, keys, path, kids, [from] + rest)
  {
    var starts := [from] + rest;
    forall i | 0 <= i < |keys|
      ensures keys[i] in includes && Segment(fs, includes[keys[i]], path, kids, starts[i], starts[i + 1])
    {
      if i > 0 {
        assert keys[1..][i - 1] == keys[i] && starts[i] == rest[i - 1] && starts[i + 1] == rest[i - 1 + 1];
      }
    }
  }

  lemma {:induction false} Segments(
    fs: FileSystem, includes: map<string, Include>, keys: seq<string>, path: string, kids: seq<Tree>, from: nat)
    returns (starts: seq<nat>)
    requires from <= |kids| && forall k :: k in keys ==> k in includes
    requires Targets(fs, Listed(includes, keys), path).Some?
    requires UnfoldsAll(fs, Targets(fs, Listed(includes, keys), path).value, kids[from..])
    ensures Segmented(fs, includes, keys, path, kids, starts) && starts[0] == from
  {
    if keys == [] {
      starts := [from];
    } else {
      assert keys[0] in keys;
      var incs := Listed(includes, keys);
      assert incs[0] == includes[keys[0]] && incs[1..] == Listed(includes, keys[1..]);
      var to := FirstSegment(fs, incs, path, kids, from);
      var rest := Segments(fs, includes, keys[1..], path, kids, to);
      SegmentedGrows(fs, includes, keys, path, kids, from, rest);
      starts := [from] + rest;
    }
  }

  /**
   The included files come in the order of the keys of the includes, each key once and alphabetically, and
   under each key in the order in which its pattern expands; skipped entries have none.
   */
  lemma ChildrenFollowKeys(fs: FileSystem, t: Tree, path: string) returns (keys: seq<string>, starts: seq<nat>)
    requires Unfolds(fs, t, path)
    ensures forall k :: k in keys <==> k in t.cfg.includes
    ensures forall i, j :: 0 <= i < j < |keys| ==> keys[i] != keys[j]
    ensures forall i, j :: 0 <= i < j < |keys| ==> Alphabetical(keys[i], keys[j])
    ensures |starts| == |keys| + 1 && starts[0] == 0 && starts[|keys|] == |t.kids|
    ensures forall i :: 0 <= i < |keys| ==>
      Segment(fs, t.cfg.includes[keys[i]], path, t.kids, starts[i], starts[i + 1])
  {
    keys := SortedKeys(t.cfg.includes.Keys);
    assert t.kids[0..] == t.kids;
    starts := Segments(fs, t.cfg.includes, keys, path, t.kids, 0);
    forall i, j | 0 <= i < j < |keys|
      ensures Alphabetical(keys[i], keys[j])
    {
      AtMostMeans(keys[i], keys[j]);
    }
  }

  // ---------- cycles ----------

  // One file includes another.
  ghost predicate Follows(fs: FileSystem, a: string, b: string) {
    fs.read(a).Some? && Includes(fs, fs.read(a).value, fs.dir(a), b)
  }

  lemma {:induction false} ChainLinks(fs: FileSystem, cfg: Config, path: string, files: seq<string>, i: nat)
    requires IsChain(fs, cfg, path, files) && i < |files|
    ensures fs.read(files[i]).Some?
    ensures i + 1 < |files| ==> Follows(fs, files[i], files[i + 1])
    decreases |files|
  {
    if i > 0 {
      ChainLinks(fs, fs.read(files[0]).value, fs.dir(files[0]), files[1..], i - 1);
    }
  }

  lemma ChainGrows(fs: FileSystem, cfg: Config, path: string, first: string, rest: seq<string>)
    requires Includes(fs, cfg, path, first) && fs.read(first).Some?
    requires IsChain(fs, fs.read(first).value, fs.dir(first), rest)
    ensures IsChain(fs, cfg, path, [first] + rest)
  {
    assert ([first] + rest)[1..] == rest;
  }

  // Files that can be read and follow one another are a chain, when the config includes the first.
  lemma {:induction false} LinkedIsChain(fs: FileSystem, cfg: Config, path: string, files: seq<string>)
    requires files != [] ==> Includes(fs, cfg, path, files[0])
    requires forall k :: 0 <= k < |files| ==> fs.read(files[k]).Some?
    requires Linked((a: string, b: string) => Follows(fs, a, b), files)
    ensures IsChain(fs, cfg, path, files)
    decreases |files|
  {
    if files != [] {
      var next, rest := (a: string, b: string) => Follows(fs, a, b), files[1..];
      LinkedTail(next, files);
      if rest != [] {
        assert next(files[0], files[1]) && rest[0] == files[1];
      }
      LinkedIsChain(fs, fs.read(files[0]).value, fs.dir(files[0]), rest);
      ChainGrows(fs, cfg, path, files[0], rest);
      assert files == [files[0]] + rest;
    }
  }

  ghost predicate Linked(next: (string, string) -> bool, files: seq<string>) {
    forall k :: 0 <= k < |files| - 1 ==> next(files[k], files[k + 1])
  }

  lemma LinkedTail(next: (string, string) -> bool, files: seq<string>)
    requires Linked(next, files) && files != []
    ensures Linked(next, files[1..])
  {
    forall k | 0 <= k < |files[1..]| - 1
      ensures next(files[1..][k], files[1..][k + 1])
    {
      assert next(files[k + 1], files[k + 1 + 1]);
    }
  }

  // Going round a cycle of any relation gives a linked sequence of any length.
  lemma {:induction false} CycleUnrolls(next: (string, string) -> bool, files: seq<string>, i: nat, j: nat, n: nat)
    returns (longer: seq<string>, p: nat)
    requires Linked(next, files) && i < j < |files| && files[i] == files[j] && n > 0
    ensures |longer| == n && longer[0] == files[0] && Linked(next, longer)
    ensures p < j && longer[n - 1] == files[p]
    ensures forall k :: 0 <= k < n ==> longer[k] in files
  {
    if n == 1 {
      longer, p := [files[0]], 0;
    } else {
      var shorter, q := CycleUnrolls(next, files, i, j, n - 1);
      assert next(files[q], files[q + 1]);
      p := if q + 1 < j then q + 1 else i;
      longer := shorter + [files[p]];
    }
  }

  lemma ChainIsLinked(fs: FileSystem, cfg: Config, path: string, files: seq<string>)
    requires IsChain(fs, cfg, path, files)
    ensures forall k :: 0 <= k < |files| ==> fs.read(files[k]).Some?
    ensures Linked((a: string, b: string) => Follows(fs, a, b), files)
  {
    forall k | 0 <= k < |files|
      ensures fs.read(files[k]).Some?
      ensures k + 1 < |files| ==> Follows(fs, files[k], files[k + 1])
    {
      ChainLinks(fs, cfg, path, files, k);
    }
  }

  /** A cycle of unskipped includes that can be reached makes the merge fail. */
  lemma ReachableCycleFails(fs: FileSystem, cfg: Config, path: string, files: seq<string>, i: nat, j: nat)
    requires IsChain(fs, cfg, path, files) && i < j < |files| && files[i] == files[j]
    ensures Merge(fs, cfg, path).Failure?
  {
    ChainIsLinked(fs, cfg, path, files);
    var longer, p := CycleUnrolls((a: string, b: string) => Follows(fs, a, b), files, i, j, MAX_DEPTH - 1);
    LinkedIsChain(fs, cfg, path, longer);
    LongChainFails(fs, cfg, path, longer);
  }
}
