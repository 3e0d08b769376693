/**
 The compiler from spec expectations to trees of matchers, against a direct reading of the
 expectation that never mentions the tree.
 */
module MatcherCompiler {
  import opened Wrappers
  import opened MatcherLanguage
  import opened MatcherNodes
  import opened Seqs

  datatype SyntaxError =
    | MissingRequiredAttribute
    | EmptyMatcher
    | ManyMatchers(names: set<string>)
    | EmptyGroup(name: string)
    | UnknownMatcher(name: string)
    | InvalidArgument(name: string, expected: string, value: Value)

  const STRING_MATCHERS := {"have-prefix", "have-suffix", "match-regexp", "contain-substring", "semver-constraint"}
  const COMPARISONS := {"gt", "ge", "lt", "le"}
  const MATCHERS := STRING_MATCHERS + COMPARISONS +
    {"equal", "have-len", "have-patterns", "have-key", "contain-element", "contain-elements", "not", "consist-of",
     "and", "or", "gjson"}

  // ---------- which expectations are well formed ----------

  ghost predicate WellFormed(v: Value)
    decreases v, 0
  {
    match v
    case Nil => false
    case Other(_) => false
    case Arr(vs) => forall i :: 0 <= i < |vs| ==> WellFormed(vs[i])
    case Map(m) => |m| == 1 && forall k :: k in m ==> WellFormedUse(k, m[k])
    case _ => true
  }

  ghost predicate WellFormedUse(k: string, a: Value)
    decreases a, 1
  {
    && k in MATCHERS
    && (k in STRING_MATCHERS ==> a.Str?)
    && (k == "have-len" ==> a.Int? || a.Float?)
    && (k == "have-patterns" ==> a.Arr?)
    && (k == "have-key" || k == "not" || k == "contain-element" ==> WellFormed(a))
    && (k == "contain-element" ==> a.Map? || a.Str? || a.Float? || a.Int?)
    && (k in {"contain-elements", "consist-of", "and", "or"} ==> a.Arr? && WellFormed(a))
    && (k in {"contain-elements", "and", "or"} ==> a.Arr? && a.elements != [])
    && (k == "gjson" ==>
         && a.Map? && |a.entries| > 0
         && forall p :: p in a.entries ==> WellFormed(a.entries[p]))
  }

  // The names of the matchers, and the argument that each of them takes.

  lemma ScalarArguments(a: Value)
    ensures WellFormedUse("equal", a)
    ensures WellFormedUse("gt", a) && WellFormedUse("ge", a) && WellFormedUse("lt", a) && WellFormedUse("le", a)
    ensures WellFormedUse("have-len", a) <==> a.Int? || a.Float?
    ensures WellFormedUse("have-patterns", a) <==> a.Arr?
  {
  }

  lemma StringArguments(a: Value)
    ensures WellFormedUse("have-prefix", a) <==> a.Str?
    ensures WellFormedUse("have-suffix", a) <==> a.Str?
    ensures WellFormedUse("match-regexp", a) <==> a.Str?
    ensures WellFormedUse("contain-substring", a) <==> a.Str?
    ensures WellFormedUse("semver-constraint", a) <==> a.Str?
  {
  }

  lemma NestedArguments(a: Value)
    ensures WellFormedUse("not", a) <==> WellFormed(a)
    ensures WellFormedUse("have-key", a) <==> WellFormed(a)
  {
  }

  lemma ElementArguments(a: Value)
    ensures WellFormedUse("contain-element", a) <==> (a.Map? || a.Str? || a.Float? || a.Int?) && WellFormed(a)
  {
  }

  lemma GroupArguments(a: Value)
    ensures WellFormedUse("consist-of", a) <==>
      a.Arr? && forall i :: 0 <= i < |a.elements| ==> WellFormed(a.elements[i])
    ensures WellFormedUse("and", a) <==> a != Arr([]) && WellFormedUse("consist-of", a)
    ensures WellFormedUse("or", a) <==> a != Arr([]) && WellFormedUse("consist-of", a)
    ensures WellFormedUse("contain-elements", a) <==> a != Arr([]) && WellFormedUse("consist-of", a)
  {
  }

  lemma PathArguments(a: Value)
    ensures WellFormedUse("gjson", a) <==>
      a.Map? && a.entries != map[] && forall p :: p in a.entries ==> WellFormed(a.entries[p])
  {
  }

  /** These are the names of all matchers; each takes the argument that the lemmas above give for it. */
  lemma MatcherNames(k: string, a: Value)
    requires WellFormedUse(k, a)
    ensures k in {
      "equal", "have-prefix", "have-suffix", "match-regexp", "contain-substring", "have-len", "have-patterns",
      "have-key", "contain-element", "contain-elements", "not", "consist-of", "and", "or", "gt", "ge", "lt", "le",
      "semver-constraint", "gjson"}
  {
    assert k in MATCHERS;
  }

  // ---------- what an expectation means ----------

  ghost predicate Checks(w: World, leaf: Leaf, f: Value -> Outcome) {
    forall x :: f(x) == w.check(leaf, x)
  }

  ghost predicate Converts(w: World, t: Transformer, g: Value -> Outcome, f: Value -> Outcome) {
    forall x :: f(x) ==
      var (y, err) := w.transform(t, x);
      if err.Some? then Error(err.value) else g(y)
  }

  ghost predicate ConvertsAndChecks(w: World, t: Transformer, leaf: Leaf, f: Value -> Outcome) {
    exists g :: Checks(w, leaf, g) && Converts(w, t, g, f)
  }

  ghost predicate Collects(w: World, kind: Collection, gs: seq<Value -> Outcome>, f: Value -> Outcome) {
    forall x :: f(x) == w.collect(kind, gs, x)
  }

  ghost predicate Negates(g: Value -> Outcome, f: Value -> Outcome) {
    && (forall x :: f(x) == True <==> g(x) == False)
    && (forall x :: f(x) == False <==> g(x) == True)
    && (forall x :: f(x).Error? ==> f(x) == g(x))
  }

  // True when all are; otherwise the first that is not decides.
  ghost predicate Conjoins(gs: seq<Value -> Outcome>, f: Value -> Outcome) {
    forall x :: Decides(gs, x, True, f(x))
  }

  // False when all are; otherwise the first that is not decides.
  ghost predicate Disjoins(gs: seq<Value -> Outcome>, f: Value -> Outcome) {
    forall x :: Decides(gs, x, False, f(x))
  }

  ghost predicate Decides(gs: seq<Value -> Outcome>, x: Value, neutral: Outcome, o: Outcome) {
    if o == neutral then forall i :: 0 <= i < |gs| ==> gs[i](x) == neutral
    else exists i :: 0 <= i < |gs| && gs[i](x) == o && forall j :: 0 <= j < i ==> gs[j](x) == neutral
  }

  /** f is a meaning of an expectation; a gjson group may have one for each order of its paths. */
  ghost predicate Means(w: World, v: Value, f: Value -> Outcome)
    decreases v, 0
  {
    match v
    case Nil => false
    case Other(_) => false
    case Str(_) => ConvertsAndChecks(w, ToString, Equal(v), f)
    case Int(_) => ConvertsAndChecks(w, ToNumeric, BeNumerically("eq", v), f)
    case Float(_) => ConvertsAndChecks(w, ToNumeric, BeNumerically("eq", v), f)
    case Bool(_) => Checks(w, Equal(v), f)
    case Arr(vs) => exists gs :: MeansAll(w, vs, gs) && Collects(w, ContainElements, gs, f)
    case Map(m) => |m| == 1 && forall k :: k in m ==> MeansUse(w, k, m[k], f)
  }

  ghost predicate MeansAll(w: World, vs: seq<Value>, gs: seq<Value -> Outcome>)
    decreases vs, 0
  {
    |gs| == |vs| && forall i :: 0 <= i < |vs| ==> Means(w, vs[i], gs[i])
  }

  ghost predicate MeansUse(w: World, k: string, a: Value, f: Value -> Outcome)
    decreases a, 1
  {
    if k == "equal" then Checks(w, Equal(a), f)
    else if k == "have-len" then
      || (a.Int? && Checks(w, HaveLen(a.n), f))
      || (a.Float? && exists n :: TowardZero(a.r, n) && Checks(w, HaveLen(n), f))
    else if k in STRING_MATCHERS then a.Str? && MeansStringUse(w, k, a.s, f)
    else if k in COMPARISONS then ConvertsAndChecks(w, ToNumeric, BeNumerically(k, a), f)
    else if k == "have-patterns" then a.Arr? && ConvertsAndChecks(w, ToString, HavePatterns(a), f)
    else if k == "have-key" then exists g :: Means(w, a, g) && Collects(w, HaveKey, [g], f)
    else if k == "not" then exists g :: Means(w, a, g) && Negates(g, f)
    else if k == "contain-element" then
      exists g, h :: Means(w, a, g) && Collects(w, ContainElement, [g], h) && Converts(w, ToArray, h, f)
    else if k == "gjson" then
      a.Map? && a.entries != map[] && exists keys, hs :: MeansPaths(w, keys, a, hs) && Conjoins(hs, f)
    else if k in {"contain-elements", "consist-of", "and", "or"} then
      && a.Arr?
      && (k != "consist-of" ==> a.elements != [])
      && exists gs :: MeansAll(w, a.elements, gs) && MeansGroup(w, k, gs, f)
    else false
  }

  // n is r without its fraction.
  ghost predicate TowardZero(r: real, n: int) {
    && (r >= 0.0 ==> 0 <= n && n as real <= r < n as real + 1.0)
    && (r < 0.0 ==> n <= 0 && n as real - 1.0 < r <= n as real)
  }

  ghost predicate MeansStringUse(w: World, k: string, s: string, f: Value -> Outcome) {
    && (k == "have-prefix" ==> ConvertsAndChecks(w, ToString, HavePrefix(s), f))
    && (k == "have-suffix" ==> ConvertsAndChecks(w, ToString, HaveSuffix(s), f))
    && (k == "match-regexp" ==> ConvertsAndChecks(w, ToString, MatchRegexp(s), f))
    && (k == "contain-substring" ==> ConvertsAndChecks(w, ToString, ContainSubstring(s), f))
    && (k == "semver-constraint" ==> Checks(w, BeSemverConstraint(s), f))
  }

  ghost predicate MeansGroup(w: World, k: string, gs: seq<Value -> Outcome>, f: Value -> Outcome) {
    if k == "and" then Conjoins(gs, f)
    else if k == "or" then Disjoins(gs, f)
    else if k == "consist-of" then Collects(w, ConsistOf, gs, f)
    else exists h :: Collects(w, ContainElements, gs, h) && Converts(w, ToArray, h, f)
  }

  // One conjunct for each path, in some order of the paths: look the path up, then expect its value.
  ghost predicate MeansPaths(w: World, keys: seq<string>, a: Value, hs: seq<Value -> Outcome>)
    requires a.Map?
    decreases a, 0
  {
    && Lists(keys, a.entries)
    && |hs| == |keys|
    && forall i :: 0 <= i < |keys| && keys[i] in a.entries ==>
         exists g :: Means(w, a.entries[keys[i]], g) && Converts(w, Gjson(keys[i]), g, hs[i])
  }

  // ---------- which trees are built ----------

  // A floating-point length is cut toward zero.
  function Truncate(r: real): int {
    if r < 0.0 then -((-r).Floor) else r.Floor
  }

  lemma TruncateIsTowardZero(r: real)
    ensures TowardZero(r, Truncate(r))
  {
  }

  ghost predicate Denotes(v: Value, e: Expr)
    decreases v, 0
  {
    match v
    case Nil => false
    case Other(_) => false
    case Str(_) => e == Transform(ToString, Check(Equal(v)))
    case Int(_) => e == Transform(ToNumeric, Check(BeNumerically("eq", v)))
    case Float(_) => e == Transform(ToNumeric, Check(BeNumerically("eq", v)))
    case Bool(_) => e == Check(Equal(v))
    case Arr(vs) => e.Collect? && e.kind == ContainElements && DenotesAll(vs, e.children)
    case Map(m) => |m| == 1 && forall k :: k in m ==> DenotesUse(k, m[k], e)
  }

  ghost predicate DenotesAll(vs: seq<Value>, es: seq<Expr>)
    decreases vs, 0
  {
    |es| == |vs| && forall i :: 0 <= i < |vs| ==> Denotes(vs[i], es[i])
  }

  ghost predicate DenotesUse(k: string, a: Value, e: Expr)
    decreases a, 2
  {
    if k == "equal" then e == Check(Equal(a))
    else if k == "have-len" then
      (a.Int? && e == Check(HaveLen(a.n))) || (a.Float? && e == Check(HaveLen(Truncate(a.r))))
    else if k in STRING_MATCHERS then a.Str? && e == StringUse(k, a.s)
    else if k in COMPARISONS then e == Transform(ToNumeric, Check(BeNumerically(k, a)))
    else if k == "have-patterns" then a.Arr? && e == Transform(ToString, Check(HavePatterns(a)))
    else if k == "have-key" then e.Collect? && e.kind == HaveKey && |e.children| == 1 && Denotes(a, e.children[0])
    else if k == "not" then e.Not? && Denotes(a, e.inner)
    else if k == "contain-element" then
      && (a.Map? || a.Str? || a.Float? || a.Int?)
      && e.Transform? && e.transformer == ToArray && e.inner.Collect? && e.inner.kind == ContainElement
      && |e.inner.children| == 1 && Denotes(a, e.inner.children[0])
    else if k == "gjson" then
      a.Map? && a.entries != map[] && e.And? && exists keys :: DenotesPaths(keys, a, e.all)
    else if k == "contain-elements" then
      && a.Arr? && a.elements != []
      && e.Transform? && e.transformer == ToArray && e.inner.Collect? && e.inner.kind == ContainElements
      && DenotesAll(a.elements, e.inner.children)
    else if k == "consist-of" then a.Arr? && e.Collect? && e.kind == ConsistOf && DenotesAll(a.elements, e.children)
    else if k == "and" then a.Arr? && a.elements != [] && e.And? && DenotesAll(a.elements, e.all)
    else if k == "or" then a.Arr? && a.elements != [] && e.Or? && DenotesAll(a.elements, e.any)
    else false
  }

  ghost predicate DenotesPaths(keys: seq<string>, a: Value, es: seq<Expr>)
    requires a.Map?
    decreases a, 1
  {
    && Lists(keys, a.entries)
    && |es| == |keys|
    && forall i :: 0 <= i < |keys| ==> DenotesPath(keys[i], a, es[i])
  }

  ghost predicate DenotesPath(key: string, a: Value, e: Expr)
    requires a.Map?
    decreases a, 0
  {
    && key in a.entries
    && e.Transform? && e.transformer == Gjson(key)
    && Denotes(a.entries[key], e.inner)
  }

  function StringLeaf(k: string, s: string): Leaf {
    if k == "have-prefix" then HavePrefix(s)
    else if k == "have-suffix" then HaveSuffix(s)
    else if k == "match-regexp" then MatchRegexp(s)
    else ContainSubstring(s)
  }

  function StringUse(k: string, s: string): Expr {
    if k == "semver-constraint" then Check(BeSemverConstraint(s))
    else Transform(ToString, Check(StringLeaf(k, s)))
  }

  // ---------- trees mean what expectations mean ----------

  lemma MeaningsAt(w: World, es: seq<Expr>, i: nat)
    requires i < |es|
    ensures Meanings(w, es)[i] == Meaning(w, es[i])
  {
    if i > 0 {
      MeaningsAt(w, es[1..], i - 1);
    }
  }

  lemma CheckMeans(w: World, leaf: Leaf)
    ensures Checks(w, leaf, Meaning(w, Check(leaf)))
  {
  }

  lemma TransformMeans(w: World, t: Transformer, inner: Expr)
    ensures Converts(w, t, Meaning(w, inner), Meaning(w, Transform(t, inner)))
  {
  }

  lemma ConvertedCheckMeans(w: World, t: Transformer, leaf: Leaf)
    ensures ConvertsAndChecks(w, t, leaf, Meaning(w, Transform(t, Check(leaf))))
  {
    CheckMeans(w, leaf);
    TransformMeans(w, t, Check(leaf));
  }

  lemma CollectMeans(w: World, kind: Collection, es: seq<Expr>)
    ensures Collects(w, kind, Meanings(w, es), Meaning(w, Collect(kind, es)))
  {
  }

  lemma NotMeans(w: World, inner: Expr)
    ensures Negates(Meaning(w, inner), Meaning(w, Not(inner)))
  {
  }

  lemma FirstOtherDecides(w: World, es: seq<Expr>, x: Value, neutral: Outcome)
    ensures var i := FirstOther(w, es, x, neutral);
      Decides(Meanings(w, es), x, neutral, if i < |es| then Eval(w, es[i], x) else neutral)
  {
    forall i | 0 <= i < |es|
      ensures Meanings(w, es)[i](x) == Eval(w, es[i], x)
    {
      MeaningsAt(w, es, i);
    }
  }

  lemma AndMeans(w: World, es: seq<Expr>)
    ensures Conjoins(Meanings(w, es), Meaning(w, And(es)))
  {
    forall x
      ensures Decides(Meanings(w, es), x, True, Meaning(w, And(es))(x))
    {
      AndDecidedAt(w, es, x, FirstOther(w, es, x, True));
      assert Eval(w, And(es), x) == EvalAnd(w, es, x);
      FirstOtherDecides(w, es, x, True);
    }
  }

  lemma OrMeans(w: World, es: seq<Expr>)
    ensures Disjoins(Meanings(w, es), Meaning(w, Or(es)))
  {
    forall x
      ensures Decides(Meanings(w, es), x, False, Meaning(w, Or(es))(x))
    {
      OrDecidedAt(w, es, x, FirstOther(w, es, x, False));
      assert Eval(w, Or(es), x) == EvalOr(w, es, x);
      FirstOtherDecides(w, es, x, False);
    }
  }

  /** Every tree built for an expectation has a meaning of the expectation. */
  lemma {:induction false} TreeMeansWhatItDenotes(w: World, v: Value, e: Expr)
    requires Denotes(v, e)
    ensures Means(w, v, Meaning(w, e))
    decreases v, 0
  {
    match v
    case Str(_) => ConvertedCheckMeans(w, ToString, Equal(v));
    case Int(_) => ConvertedCheckMeans(w, ToNumeric, BeNumerically("eq", v));
    case Float(_) => ConvertedCheckMeans(w, ToNumeric, BeNumerically("eq", v));
    case Bool(_) => CheckMeans(w, Equal(v));
    case Arr(vs) =>
      TreesMeanWhatTheyDenote(w, vs, e.children);
      CollectMeans(w, ContainElements, e.children);
    case Map(m) =>
      forall k | k in m
        ensures MeansUse(w, k, m[k], Meaning(w, e))
      {
        UseMeansWhatItDenotes(w, k, m[k], e);
      }
  }

  lemma {:induction false} TreesMeanWhatTheyDenote(w: World, vs: seq<Value>, es: seq<Expr>)
    requires DenotesAll(vs, es)
    ensures MeansAll(w, vs, Meanings(w, es))
    decreases vs, 0
  {
    forall i | 0 <= i < |vs|
      ensures Means(w, vs[i], Meanings(w, es)[i])
    {
      MeaningsAt(w, es, i);
      TreeMeansWhatItDenotes(w, vs[i], es[i]);
    }
  }

  lemma {:induction false} UseMeansWhatItDenotes(w: World, k: string, a: Value, e: Expr)
    requires DenotesUse(k, a, e)
    ensures MeansUse(w, k, a, Meaning(w, e))
    decreases a, 1
  {
    if k == "equal" {
      CheckMeans(w, Equal(a));
    } else if k == "have-len" {
      CheckMeans(w, e.leaf);
      if a.Float? {
        TruncateIsTowardZero(a.r);
      }
    } else if k in STRING_MATCHERS {
      StringUseMeans(w, k, a.s);
    } else if k in COMPARISONS {
      ConvertedCheckMeans(w, ToNumeric, BeNumerically(k, a));
    } else if k == "have-patterns" {
      ConvertedCheckMeans(w, ToString, HavePatterns(a));
    } else if k == "have-key" {
      TreeMeansWhatItDenotes(w, a, e.children[0]);
      OneChild(w, HaveKey, e.children);
    } else if k == "not" {
      TreeMeansWhatItDenotes(w, a, e.inner);
      NotMeans(w, e.inner);
    } else if k == "contain-element" {
      TreeMeansWhatItDenotes(w, a, e.inner.children[0]);
      OneChild(w, ContainElement, e.inner.children);
      TransformMeans(w, ToArray, e.inner);
    } else if k == "gjson" {
      var keys :| DenotesPaths(keys, a, e.all);
      PathsMeanWhatTheyDenote(w, keys, a, e.all);
      AndMeans(w, e.all);
    } else {
      GroupMeansWhatItDenotes(w, k, a, e);
    }
  }

  lemma StringUseMeans(w: World, k: string, s: string)
    requires k in STRING_MATCHERS
    ensures MeansStringUse(w, k, s, Meaning(w, StringUse(k, s)))
  {
    if k == "semver-constraint" {
      CheckMeans(w, BeSemverConstraint(s));
    } else {
      ConvertedCheckMeans(w, ToString, StringLeaf(k, s));
    }
  }

  lemma OneChild(w: World, kind: Collection, es: seq<Expr>)
    requires |es| == 1
    ensures Collects(w, kind, [Meaning(w, es[0])], Meaning(w, Collect(kind, es)))
  {
    CollectMeans(w, kind, es);
    MeaningsAt(w, es, 0);
    assert Meanings(w, es) == [Meaning(w, es[0])];
  }

  lemma {:induction false} GroupMeansWhatItDenotes(w: World, k: string, a: Value, e: Expr)
    requires k in {"contain-elements", "consist-of", "and", "or"} && DenotesUse(k, a, e)
    ensures MeansUse(w, k, a, Meaning(w, e))
    decreases a, 0
  {
    if k == "contain-elements" {
      TreesMeanWhatTheyDenote(w, a.elements, e.inner.children);
      CollectMeans(w, ContainElements, e.inner.children);
      TransformMeans(w, ToArray, e.inner);
    } else if k == "consist-of" {
      TreesMeanWhatTheyDenote(w, a.elements, e.children);
      CollectMeans(w, ConsistOf, e.children);
    } else if k == "and" {
      TreesMeanWhatTheyDenote(w, a.elements, e.all);
      AndMeans(w, e.all);
    } else {
      TreesMeanWhatTheyDenote(w, a.elements, e.any);
      OrMeans(w, e.any);
    }
  }

  lemma {:induction false} PathsMeanWhatTheyDenote(w: World, keys: seq<string>, a: Value, es: seq<Expr>)
    requires a.Map? && DenotesPaths(keys, a, es)
    ensures MeansPaths(w, keys, a, Meanings(w, es))
    decreases a, 0
  {
    forall i | 0 <= i < |keys| && keys[i] in a.entries
      ensures exists g :: Means(w, a.entries[keys[i]], g) && Converts(w, Gjson(keys[i]), g, Meanings(w, es)[i])
    {
      MeaningsAt(w, es, i);
      TreeMeansWhatItDenotes(w, a.entries[keys[i]], es[i].inner);
      TransformMeans(w, Gjson(keys[i]), es[i].inner);
    }
  }

  // ---------- every well-formed expectation and no other is compiled ----------

  // Which error is reported: that of the first ill-formed child, and for gjson that of any of them.
  ghost predicate Rejects(v: Value, err: SyntaxError)
    decreases v, 0
  {
    match v
    case Nil => err == MissingRequiredAttribute
    case Other(_) => err == InvalidArgument("matcher", "map", v)
    case Arr(vs) => exists i :: 0 <= i < |vs| && Rejects(vs[i], err) && forall j :: 0 <= j < i ==> WellFormed(vs[j])
    case Map(m) =>
      if |m| == 0 then err == EmptyMatcher
      else if |m| > 1 then err == ManyMatchers(m.Keys)
      else forall k :: k in m ==> RejectsUse(k, m[k], err)
    case _ => false
  }

  ghost predicate RejectsUse(k: string, a: Value, err: SyntaxError)
    decreases a, 1
  {
    if k !in MATCHERS then err == UnknownMatcher(k)
    else if k in STRING_MATCHERS then !a.Str? && err == InvalidArgument(k, "string", a)
    else if k == "have-len" then !a.Int? && !a.Float? && err == InvalidArgument(k, "numeric", a)
    else if k == "have-patterns" then !a.Arr? && err == InvalidArgument(k, "array", a)
    else if k == "have-key" || k == "not" then Rejects(a, err)
    else if k == "contain-element" then
      if a.Map? || a.Str? || a.Float? || a.Int? then Rejects(a, err)
      else err == InvalidArgument(k, "matcher, string or numeric", a)
    else if k == "gjson" then
      if !a.Map? then err == InvalidArgument(k, "map", a)
      else if |a.entries| == 0 then err == EmptyGroup(k)
      else exists p :: p in a.entries && Rejects(a.entries[p], err)
    else if k in {"contain-elements", "consist-of", "and", "or"} then
      if !a.Arr? then err == InvalidArgument(if k == "contain-elements" then "contains-elements" else k, "array", a)
      else if a.elements == [] then k != "consist-of" && err == EmptyGroup(k)
      else Rejects(a, err)
    else false
  }

  // The name under which a group's argument is reported, with the spelling the program uses.
  function SliceName(k: string): string {
    if k == "contain-elements" then "contains-elements" else k
  }

  lemma {:induction false} RejectedIsIllFormed(v: Value, err: SyntaxError)
    requires Rejects(v, err)
    ensures !WellFormed(v)
    decreases v, 0
  {
    match v
    case Nil =>
    case Other(_) =>
    case Arr(vs) =>
      var i :| 0 <= i < |vs| && Rejects(vs[i], err) && forall j :: 0 <= j < i ==> WellFormed(vs[j]);
      RejectedIsIllFormed(vs[i], err);
    case Map(m) =>
      if |m| == 1 {
        var k :| k in m;
        RejectedUseIsIllFormed(k, m[k], err);
      }
  }

  lemma {:induction false} RejectedUseIsIllFormed(k: string, a: Value, err: SyntaxError)
    requires RejectsUse(k, a, err)
    ensures !WellFormedUse(k, a)
    decreases a, 1
  {
    if k == "have-key" || k == "not" {
      RejectedIsIllFormed(a, err);
    } else if k == "contain-element" && (a.Map? || a.Str? || a.Float? || a.Int?) {
      RejectedIsIllFormed(a, err);
    } else if k == "gjson" && a.Map? && |a.entries| > 0 {
      var p :| p in a.entries && Rejects(a.entries[p], err);
      RejectedIsIllFormed(a.entries[p], err);
    } else if k in {"contain-elements", "consist-of", "and", "or"} && a.Arr? && a.elements != [] {
      RejectedIsIllFormed(a, err);
    }
  }

  lemma {:induction false} DenotedIsWellFormed(v: Value, e: Expr)
    requires Denotes(v, e)
    ensures WellFormed(v)
    decreases v, 0
  {
    match v
    case Str(_) =>
    case Int(_) =>
    case Float(_) =>
    case Bool(_) =>
    case Arr(vs) => DenotedAreWellFormed(vs, e.children);
    case Map(m) =>
      forall k | k in m
        ensures WellFormedUse(k, m[k])
      {
        DenotedUseIsWellFormed(k, m[k], e);
      }
  }

  lemma {:induction false} DenotedAreWellFormed(vs: seq<Value>, es: seq<Expr>)
    requires DenotesAll(vs, es)
    ensures forall i :: 0 <= i < |vs| ==> WellFormed(vs[i])
    decreases vs, 0
  {
    forall i | 0 <= i < |vs|
      ensures WellFormed(vs[i])
    {
      DenotedIsWellFormed(vs[i], es[i]);
    }
  }

  lemma {:induction false} DenotedUseIsWellFormed(k: string, a: Value, e: Expr)
    requires DenotesUse(k, a, e)
    ensures WellFormedUse(k, a)
    decreases a, 1
  {
    if k == "have-key" {
      DenotedIsWellFormed(a, e.children[0]);
    } else if k == "not" {
      DenotedIsWellFormed(a, e.inner);
    } else if k == "contain-element" {
      DenotedIsWellFormed(a, e.inner.children[0]);
    } else if k == "gjson" {
      var keys :| DenotesPaths(keys, a, e.all);
      DenotedPathsAreWellFormed(keys, a, e.all);
    } else if k == "contain-elements" {
      DenotedAreWellFormed(a.elements, e.inner.children);
    } else if k == "consist-of" {
      DenotedAreWellFormed(a.elements, e.children);
    } else if k == "and" {
      DenotedAreWellFormed(a.elements, e.all);
    } else if k == "or" {
      DenotedAreWellFormed(a.elements, e.any);
    }
  }

  lemma {:induction false} DenotedPathsAreWellFormed(keys: seq<string>, a: Value, es: seq<Expr>)
    requires a.Map? && DenotesPaths(keys, a, es)
    ensures forall p :: p in a.entries ==> WellFormed(a.entries[p])
    decreases a, 0
  {
    forall p | p in a.entries
      ensures WellFormed(a.entries[p])
    {
      assert p in keys;
      var i :| 0 <= i < |keys| && keys[i] == p;
      DenotedIsWellFormed(a.entries[p], es[i].inner);
    }
  }

  // ---------- no group is empty ----------

  /** No conjunction, disjunction or named contain-elements anywhere in a tree is without children. */
  ghost predicate NoEmptyGroup(e: Expr) {
    match e
    case Check(_) => true
    case Collect(_, es) => forall i :: 0 <= i < |es| ==> NoEmptyGroup(es[i])
    case Transform(t, inner) =>
      (t == ToArray && inner.Collect? ==> inner.children != []) && NoEmptyGroup(inner)
    case Not(inner) => NoEmptyGroup(inner)
    case And(es) => es != [] && forall i :: 0 <= i < |es| ==> NoEmptyGroup(es[i])
    case Or(es) => es != [] && forall i :: 0 <= i < |es| ==> NoEmptyGroup(es[i])
  }

  lemma {:induction false} NoGroupIsEmpty(v: Value, e: Expr)
    requires Denotes(v, e)
    ensures NoEmptyGroup(e)
    decreases v, 0
  {
    match v
    case Str(_) =>
    case Int(_) =>
    case Float(_) =>
    case Bool(_) =>
    case Arr(vs) => NoGroupsAreEmpty(vs, e.children);
    case Map(m) =>
      var k :| k in m;
      NoUseIsEmpty(k, m[k], e);
  }

  lemma {:induction false} NoGroupsAreEmpty(vs: seq<Value>, es: seq<Expr>)
    requires DenotesAll(vs, es)
    ensures forall i :: 0 <= i < |es| ==> NoEmptyGroup(es[i])
    decreases vs, 0
  {
    forall i | 0 <= i < |es|
      ensures NoEmptyGroup(es[i])
    {
      NoGroupIsEmpty(vs[i], es[i]);
    }
  }

  lemma {:induction false} NoUseIsEmpty(k: string, a: Value, e: Expr)
    requires DenotesUse(k, a, e)
    ensures NoEmptyGroup(e)
    decreases a, 1
  {
    if k == "have-key" {
      NoGroupIsEmpty(a, e.children[0]);
    } else if k == "not" {
      NoGroupIsEmpty(a, e.inner);
    } else if k == "contain-element" {
      NoGroupIsEmpty(a, e.inner.children[0]);
    } else if k == "gjson" {
      var keys :| DenotesPaths(keys, a, e.all);
      NoPathIsEmpty(keys, a, e.all);
    } else if k == "contain-elements" {
      NoGroupsAreEmpty(a.elements, e.inner.children);
    } else if k == "consist-of" {
      NoGroupsAreEmpty(a.elements, e.children);
    } else if k == "and" {
      NoGroupsAreEmpty(a.elements, e.all);
    } else if k == "or" {
      NoGroupsAreEmpty(a.elements, e.any);
    }
  }

  lemma {:induction false} NoPathIsEmpty(keys: seq<string>, a: Value, es: seq<Expr>)
    requires a.Map? && a.entries != map[] && DenotesPaths(keys, a, es)
    ensures es != [] && forall i :: 0 <= i < |es| ==> NoEmptyGroup(es[i])
    decreases a, 0
  {
    forall i | 0 <= i < |es|
      ensures NoEmptyGroup(es[i])
    {
      assert keys[i] in a.entries;
      NoGroupIsEmpty(a.entries[keys[i]], es[i].inner);
    }
  }

  // ---------- the compiler ----------

  // Either a tree for the expectation, or an error that its form deserves.
  ghost predicate Compiled(v: Value, r: Result<Expr, SyntaxError>) {
    if r.Success? then Denotes(v, r.value) else Rejects(v, r.error)
  }

  method OnlyKey(m: map<string, Value>) returns (k: string)
    requires |m| == 1
    ensures m.Keys == {k}
  {
    k :| k in m;
    assert |m.Keys - {k}| == 0;
  }

  method Compile(v: Value) returns (r: Result<Expr, SyntaxError>)
    ensures Compiled(v, r)
    decreases v, 2
  {
    match v
    case Str(_) => r := Success(Transform(ToString, Check(Equal(v))));
    case Int(_) => r := Success(Transform(ToNumeric, Check(BeNumerically("eq", v))));
    case Float(_) => r := Success(Transform(ToNumeric, Check(BeNumerically("eq", v))));
    case Bool(_) => r := Success(Check(Equal(v)));
    case Nil => r := Failure(MissingRequiredAttribute);
    case Other(_) => r := Failure(InvalidArgument("matcher", "map", v));
    case Arr(_) =>
      var children := CompileSlice(v, "");
      r := if children.Success? then Success(Collect(ContainElements, children.value)) else Failure(children.error);
    case Map(m) =>
      if |m| == 0 {
        r := Failure(EmptyMatcher);
      } else if |m| > 1 {
        r := Failure(ManyMatchers(m.Keys));
      } else {
        var k := OnlyKey(m);
        r := CompileUse(k, m[k]);
      }
  }

  // sliceToGomega: an array of expectations, up to the first that does not compile.
  method CompileSlice(a: Value, name: string) returns (r: Result<seq<Expr>, SyntaxError>)
    ensures !a.Arr? ==> r == Failure(InvalidArgument(name, "array", a))
    ensures a.Arr? ==> if r.Success? then DenotesAll(a.elements, r.value) else Rejects(a, r.error)
    decreases a, 1
  {
    if !a.Arr? {
      return Failure(InvalidArgument(name, "array", a));
    }
    var es: seq<Expr> := [];
    while |es| < |a.elements|
      invariant |es| <= |a.elements|
      invariant forall j :: 0 <= j < |es| ==> Denotes(a.elements[j], es[j])
    {
      var child := Compile(a.elements[|es|]);
      if child.Failure? {
        forall j | 0 <= j < |es|
          ensures WellFormed(a.elements[j])
        {
          DenotedIsWellFormed(a.elements[j], es[j]);
        }
        return Failure(child.error);
      }
      es := es + [child.value];
    }
    r := Success(es);
  }

  method CompileUse(k: string, a: Value) returns (r: Result<Expr, SyntaxError>)
    ensures if r.Success? then DenotesUse(k, a, r.value) else RejectsUse(k, a, r.error)
    decreases a, 3
  {
    if k == "equal" {
      r := Success(Check(Equal(a)));
    } else if k in STRING_MATCHERS {
      r := if a.Str? then Success(StringUse(k, a.s)) else Failure(InvalidArgument(k, "string", a));
    } else if k == "have-len" {
      if a.Float? {
        r := Success(Check(HaveLen(Truncate(a.r))));
      } else if a.Int? {
        r := Success(Check(HaveLen(a.n)));
      } else {
        r := Failure(InvalidArgument(k, "numeric", a));
      }
    } else if k == "have-patterns" {
      r := if a.Arr? then Success(Transform(ToString, Check(HavePatterns(a))))
        else Failure(InvalidArgument(k, "array", a));
    } else if k == "have-key" {
      var child := Compile(a);
      r := if child.Success? then Success(Collect(HaveKey, [child.value])) else child;
    } else if k == "contain-element" {
      if !a.Map? && !a.Str? && !a.Float? && !a.Int? {
        return Failure(InvalidArgument(k, "matcher, string or numeric", a));
      }
      var child := Compile(a);
      r := if child.Success? then Success(Transform(ToArray, Collect(ContainElement, [child.value]))) else child;
    } else if k == "not" {
      var child := Compile(a);
      r := if child.Success? then Success(Not(child.value)) else child;
    } else if k in COMPARISONS {
      r := Success(Transform(ToNumeric, Check(BeNumerically(k, a))));
    } else if k == "gjson" {
      r := CompilePaths(a);
    } else if k in {"contain-elements", "consist-of", "and", "or"} {
      r := CompileGroup(k, a);
    } else {
      r := Failure(UnknownMatcher(k));
    }
  }

  method CompileGroup(k: string, a: Value) returns (r: Result<Expr, SyntaxError>)
    requires k in {"contain-elements", "consist-of", "and", "or"}
    ensures if r.Success? then DenotesUse(k, a, r.value) else RejectsUse(k, a, r.error)
    decreases a, 2
  {
    var children := CompileSlice(a, SliceName(k));
    if children.Failure? {
      return Failure(children.error);
    }
    var es := children.value;
    if k == "consist-of" {
      r := Success(Collect(ConsistOf, es));
    } else if |es| == 0 {
      r := Failure(EmptyGroup(k));
    } else if k == "contain-elements" {
      r := Success(Transform(ToArray, Collect(ContainElements, es)));
    } else if k == "and" {
      r := Success(And(es));
    } else {
      r := Success(Or(es));
    }
  }

  // The order in which a loop reads a map.
  method KeysInSomeOrder(m: map<string, Value>) returns (keys: seq<string>)
    ensures Lists(keys, m)
  {
    keys := [];
    var remaining := m.Keys;
    while remaining != {}
      invariant remaining <= m.Keys
      invariant forall k :: k in m ==> k in keys || k in remaining
      invariant forall i :: 0 <= i < |keys| ==> keys[i] in m && keys[i] !in remaining
      invariant forall i, j :: 0 <= i < j < |keys| ==> keys[i] != keys[j]
      decreases remaining
    {
      var k :| k in remaining;
      keys, remaining := keys + [k], remaining - {k};
    }
  }

  // A group of paths, read from the map in any order.
  method CompilePaths(a: Value) returns (r: Result<Expr, SyntaxError>)
    ensures if r.Success? then DenotesUse("gjson", a, r.value) else RejectsUse("gjson", a, r.error)
    decreases a, 1
  {
    if !a.Map? {
      return Failure(InvalidArgument("gjson", "map", a));
    }
    if |a.entries| == 0 {
      return Failure(EmptyGroup("gjson"));
    }
    var keys := KeysInSomeOrder(a.entries);
    var children := CompileLookups(a, keys);
    if children.Failure? {
      r := Failure(children.error);
    } else {
      assert DenotesPaths(keys, a, children.value);
      r := Success(And(children.value));
    }
  }

  // One lookup for each path, up to the first whose expectation does not compile.
  method CompileLookups(a: Value, keys: seq<string>) returns (r: Result<seq<Expr>, SyntaxError>)
    requires a.Map? && Lists(keys, a.entries)
    ensures if r.Success? then DenotesPaths(keys, a, r.value)
      else exists p :: p in a.entries && Rejects(a.entries[p], r.error)
    decreases a, 0
  {
    var es: seq<Expr> := [];
    while |es| < |keys|
      invariant |es| <= |keys|
      invariant forall i :: 0 <= i < |es| ==> DenotesPath(keys[i], a, es[i])
    {
      var k := keys[|es|];
      var child := Compile(a.entries[k]);
      if child.Failure? {
        return Failure(child.error);
      }
      es := es + [Transform(Gjson(k), child.value)];
    }
    r := Success(es);
  }

  /** Compiling succeeds exactly on well-formed expectations, and what it builds has their meaning. */
  lemma CompiledCorrectly(v: Value, r: Result<Expr, SyntaxError>)
    requires Compiled(v, r)
    ensures r.Success? <==> WellFormed(v)
    ensures r.Success? ==> NoEmptyGroup(r.value) && forall w :: Means(w, v, Meaning(w, r.value))
  {
    if r.Success? {
      DenotedIsWellFormed(v, r.value);
      NoGroupIsEmpty(v, r.value);
      forall w
        ensures Means(w, v, Meaning(w, r.value))
      {
        TreeMeansWhatItDenotes(w, v, r.value);
      }
    } else {
      RejectedIsIllFormed(v, r.error);
    }
  }

  // The value under test: found as such, as a stream whose text is read, or not found at all.
  datatype Actual = Found(value: Value) | Stream(text: Value) | Unavailable(message: string)

  datatype CheckError = Syntax(error: SyntaxError) | Unreadable(message: string)

  // A stream is matched against patterns without compiling, and any other value against the compiled tree.
  method ChooseTree(v: Value, stream: bool) returns (r: Result<Expr, SyntaxError>)
    ensures stream ==> r == Success(Check(HavePatterns(v)))
    ensures !stream ==> Compiled(v, r)
  {
    if stream {
      r := Success(Check(HavePatterns(v)));
    } else {
      r := Compile(v);
    }
  }

  /**
   One expectation against one value. A value that cannot be had is an error. A stream has the outcome of
   its text against the expectation read as patterns. Otherwise there is a syntax error exactly when the
   expectation is ill formed, and else an outcome that some meaning of the expectation gives the value.
   There is a report unless the expectation holds, and its blame is deserved.
   */
  method ExamineExpectation(v: Value, w: World, actual: Actual)
    returns (r: Result<Outcome, CheckError>, report: Option<Report>)
    ensures actual.Unavailable? ==> r == Failure(Unreadable(actual.message))
    ensures actual.Stream? ==> r == Success(w.check(HavePatterns(v), actual.text))
    ensures actual.Found? ==> (r.Failure? <==> !WellFormed(v))
    ensures actual.Found? && r.Failure? ==> r.error.Syntax? && Rejects(v, r.error.error)
    ensures actual.Found? && r.Success? ==> exists f :: Means(w, v, f) && r.value == f(actual.value)
    ensures report.Some? <==> r.Success? && r.value != True
    ensures r.Success? && r.value == False ==> AsReported(w, report.value)
  {
    report := None;
    if actual.Unavailable? {
      return Failure(Unreadable(actual.message)), None;
    }
    var tree := ChooseTree(v, actual.Stream?);
    if actual.Found? {
      CompiledCorrectly(v, tree);
    }
    if tree.Failure? {
      return Failure(Syntax(tree.error)), None;
    }
    var o;
    o, report := Examine(tree.value, w, if actual.Found? then actual.value else actual.text);
    if actual.Found? {
      assert o == Meaning(w, tree.value)(actual.value);
    }
    r := Success(o);
  }
}
