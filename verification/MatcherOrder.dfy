/**
 When an expectation has the same outcome every time it is compiled. Each gjson map in it is read in some
 order, nested ones included, so one expectation has many trees; here is what all of them can do.
 */
module MatcherOrder {
  import opened MatcherCompiler
  import opened MatcherLanguage
  import opened Seqs
  import opened Wrappers

  // ---------- what may come out ----------

  /**
   The outcomes an expectation may have, read from the expectation. A collection matcher is an arbitrary
   function of what its children mean, so for it, as for a leaf, these are the outcomes of its trees.
   */
  ghost predicate May(w: World, v: Value, x: Value, o: Outcome)
    decreases v, 1
  {
    if v.Map? && |v.entries| == 1 then forall k :: k in v.entries ==> MayUse(w, k, v.entries[k], x, o)
    else exists e :: Denotes(v, e) && Eval(w, e, x) == o
  }

  // A group of paths may be true if every path may be, and has any other outcome that some path may have.
  ghost predicate MayUse(w: World, k: string, a: Value, x: Value, o: Outcome)
    decreases a, 2
  {
    if k == "not" then May(w, a, x, Negate(o))
    else if k == "and" then a.Arr? && a.elements != [] && MayDecide(w, a.elements, x, True, o)
    else if k == "or" then a.Arr? && a.elements != [] && MayDecide(w, a.elements, x, False, o)
    else if k == "gjson" then
      && a.Map? && a.entries != map[]
      && if o == True then forall p :: p in a.entries ==> MayPath(w, p, a, x, True)
         else exists p :: MayPath(w, p, a, x, o)
    else exists e :: DenotesUse(k, a, e) && Eval(w, e, x) == o
  }

  // The neutral outcome if all may have it; any other from one that may have it behind neutral ones.
  ghost predicate MayDecide(w: World, vs: seq<Value>, x: Value, neutral: Outcome, o: Outcome)
    decreases vs, 0
  {
    if o == neutral then forall i :: 0 <= i < |vs| ==> May(w, vs[i], x, neutral)
    else exists i :: 0 <= i < |vs| && May(w, vs[i], x, o) && forall j :: 0 <= j < i ==> May(w, vs[j], x, neutral)
  }

  ghost predicate MayPath(w: World, p: string, a: Value, x: Value, o: Outcome)
    requires a.Map?
    decreases a, 0
  {
    && p in a.entries
    && var (y, err) := w.transform(Gjson(p), x);
       if err.Some? then o == Error(err.value) else May(w, a.entries[p], y, o)
  }

  ghost predicate EveryPathMay(w: World, a: Value, x: Value)
    requires a.Map?
  {
    forall p :: p in a.entries ==> MayPath(w, p, a, x, True)
  }

  ghost predicate SomePathMay(w: World, a: Value, x: Value, o: Outcome)
    requires a.Map?
  {
    exists p :: MayPath(w, p, a, x, o)
  }

  lemma GroupMayUse(w: World, a: Value, x: Value, o: Outcome)
    requires a.Map? && a.entries != map[]
    ensures MayUse(w, "gjson", a, x, o) <==> if o == True then EveryPathMay(w, a, x) else SomePathMay(w, a, x, o)
  {
  }

  // ---------- what a tree does may come out ----------

  lemma {:induction false} TreeMay(w: World, v: Value, e: Expr, x: Value)
    requires Denotes(v, e)
    ensures May(w, v, x, Eval(w, e, x))
    decreases v, 1
  {
    if v.Map? {
      forall k | k in v.entries
        ensures MayUse(w, k, v.entries[k], x, Eval(w, e, x))
      {
        TreeMayUse(w, k, v.entries[k], e, x);
      }
    }
  }

  lemma {:induction false} TreeMayUse(w: World, k: string, a: Value, e: Expr, x: Value)
    requires DenotesUse(k, a, e)
    ensures MayUse(w, k, a, x, Eval(w, e, x))
    decreases a, 2
  {
    if k == "not" {
      TreeMay(w, a, e.inner, x);
    } else if k == "and" || k == "or" {
      ListTreeMay(w, k, a, e, x);
    } else if k == "gjson" {
      GroupTreeMay(w, a, e, x);
    }
  }

  lemma {:induction false} ListTreeMay(w: World, k: string, a: Value, e: Expr, x: Value)
    requires (k == "and" || k == "or") && DenotesUse(k, a, e)
    ensures MayUse(w, k, a, x, Eval(w, e, x))
    decreases a, 1
  {
    if k == "and" {
      TreesMayDecide(w, a.elements, e.all, x, True);
      AndDecidedAt(w, e.all, x, FirstOther(w, e.all, x, True));
      assert Eval(w, e, x) == EvalAnd(w, e.all, x);
    } else {
      TreesMayDecide(w, a.elements, e.any, x, False);
      OrDecidedAt(w, e.any, x, FirstOther(w, e.any, x, False));
      assert Eval(w, e, x) == EvalOr(w, e.any, x);
    }
  }

  lemma {:induction false} GroupTreeMay(w: World, a: Value, e: Expr, x: Value)
    requires DenotesUse("gjson", a, e)
    ensures MayUse(w, "gjson", a, x, Eval(w, e, x))
    decreases a, 1
  {
    var keys :| DenotesPaths(keys, a, e.all);
    PathTreesMay(w, keys, a, e.all, x);
    GroupDecides(w, keys, a, e.all, x);
    assert Eval(w, e, x) == EvalAnd(w, e.all, x);
    GroupMayUse(w, a, x, Eval(w, e, x));
  }

  lemma GroupDecides(w: World, keys: seq<string>, a: Value, es: seq<Expr>, x: Value)
    requires a.Map? && Lists(keys, a.entries) && |es| == |keys|
    requires forall i :: 0 <= i < |keys| ==> MayPath(w, keys[i], a, x, Eval(w, es[i], x))
    ensures if EvalAnd(w, es, x) == True then EveryPathMay(w, a, x) else SomePathMay(w, a, x, EvalAnd(w, es, x))
  {
    var i := FirstOther(w, es, x, True);
    AndDecidedAt(w, es, x, i);
    if i < |es| {
      assert MayPath(w, keys[i], a, x, EvalAnd(w, es, x));
    } else {
      forall p | p in a.entries
        ensures MayPath(w, p, a, x, True)
      {
        assert p in keys;
        var j :| 0 <= j < |keys| && keys[j] == p;
        assert Eval(w, es[j], x) == True;
      }
    }
  }

  lemma {:induction false} TreesMayDecide(w: World, vs: seq<Value>, es: seq<Expr>, x: Value, neutral: Outcome)
    requires DenotesAll(vs, es)
    ensures
      var i := FirstOther(w, es, x, neutral);
      MayDecide(w, vs, x, neutral, if i < |es| then Eval(w, es[i], x) else neutral)
    decreases vs, 0
  {
    forall i | 0 <= i < |vs|
      ensures May(w, vs[i], x, Eval(w, es[i], x))
    {
      TreeMay(w, vs[i], es[i], x);
    }
  }

  lemma {:induction false} PathTreesMay(w: World, keys: seq<string>, a: Value, es: seq<Expr>, x: Value)
    requires a.Map? && DenotesPaths(keys, a, es)
    ensures forall i :: 0 <= i < |keys| ==> MayPath(w, keys[i], a, x, Eval(w, es[i], x))
    decreases a, 0
  {
    forall i | 0 <= i < |keys|
      ensures MayPath(w, keys[i], a, x, Eval(w, es[i], x))
    {
      assert DenotesPath(keys[i], a, es[i]);
      var (y, err) := w.transform(Gjson(keys[i]), x);
      if err.None? {
        TreeMay(w, a.entries[keys[i]], es[i].inner, y);
      }
    }
  }

  // ---------- every well-formed expectation has a tree ----------

  lemma SingleKey(m: map<string, Value>, k: string)
    requires |m| == 1 && k in m
    ensures m.Keys == {k}
  {
    assert |m.Keys - {k}| == 0;
  }

  lemma {:induction false} SomeTree(v: Value) returns (e: Expr)
    requires WellFormed(v)
    ensures Denotes(v, e)
    decreases v, 1
  {
    match v
    case Str(_) => e := Transform(ToString, Check(Equal(v)));
    case Int(_) => e := Transform(ToNumeric, Check(BeNumerically("eq", v)));
    case Float(_) => e := Transform(ToNumeric, Check(BeNumerically("eq", v)));
    case Bool(_) => e := Check(Equal(v));
    case Arr(vs) =>
      var es := SomeTrees(vs);
      e := Collect(ContainElements, es);
    case Map(m) =>
      var k :| k in m;
      SingleKey(m, k);
      e := SomeTreeOfUse(k, m[k]);
  }

  lemma {:induction false} SomeTrees(vs: seq<Value>) returns (es: seq<Expr>)
    requires forall i :: 0 <= i < |vs| ==> WellFormed(vs[i])
    ensures DenotesAll(vs, es)
    decreases vs, 0
  {
    es := [];
    while |es| < |vs|
      invariant |es| <= |vs| && forall i :: 0 <= i < |es| ==> Denotes(vs[i], es[i])
    {
      var e := SomeTree(vs[|es|]);
      es := es + [e];
    }
  }

  lemma {:induction false} SomeTreeOfUse(k: string, a: Value) returns (e: Expr)
    requires WellFormedUse(k, a)
    ensures DenotesUse(k, a, e)
    decreases a, 3
  {
    if k == "equal" {
      e := Check(Equal(a));
    } else if k == "have-len" {
      e := Check(HaveLen(if a.Int? then a.n else Truncate(a.r)));
    } else if k in STRING_MATCHERS {
      e := StringUse(k, a.s);
    } else if k in COMPARISONS {
      e := Transform(ToNumeric, Check(BeNumerically(k, a)));
    } else if k == "have-patterns" {
      e := Transform(ToString, Check(HavePatterns(a)));
    } else if k == "gjson" {
      var es := SomeLookups(Listing(a.entries.Keys), a);
      e := And(es);
    } else if a.Arr? && k in {"contain-elements", "consist-of", "and", "or"} {
      var es := SomeTrees(a.elements);
      e := if k == "and" then And(es) else if k == "or" then Or(es)
           else if k == "consist-of" then Collect(ConsistOf, es)
           else Transform(ToArray, Collect(ContainElements, es));
    } else {
      var child := SomeTree(a);
      e := if k == "not" then Not(child) else if k == "have-key" then Collect(HaveKey, [child])
           else Transform(ToArray, Collect(ContainElement, [child]));
    }
  }

  lemma {:induction false} SomeLookups(keys: seq<string>, a: Value) returns (es: seq<Expr>)
    requires a.Map? && Lists(keys, a.entries) && forall p :: p in a.entries ==> WellFormed(a.entries[p])
    ensures DenotesPaths(keys, a, es)
    decreases a, 2
  {
    es := [];
    while |es| < |keys|
      invariant |es| <= |keys| && forall i :: 0 <= i < |es| ==> DenotesPath(keys[i], a, es[i])
    {
      var e := SomeLookup(keys[|es|], a);
      es := es + [e];
    }
  }

  lemma {:induction false} SomeLookup(p: string, a: Value) returns (e: Expr)
    requires a.Map? && p in a.entries && WellFormed(a.entries[p])
    ensures DenotesPath(p, a, e)
    decreases a, 1
  {
    var inner := SomeTree(a.entries[p]);
    e := Transform(Gjson(p), inner);
  }

  // ---------- what may come out does, of some tree ----------

  // A tree of the expectation, with a given outcome if one is asked for that may come out.
  ghost predicate Wanted(w: World, v: Value, x: Value, o: Option<Outcome>) {
    WellFormed(v) && (o.Some? ==> May(w, v, x, o.value))
  }

  ghost predicate Chosen(w: World, v: Value, e: Expr, x: Value, o: Option<Outcome>) {
    Denotes(v, e) && (o.Some? ==> Eval(w, e, x) == o.value)
  }

  ghost predicate PathWanted(w: World, p: string, a: Value, x: Value, o: Option<Outcome>)
    requires a.Map?
  {
    p in a.entries && WellFormed(a.entries[p]) && (o.Some? ==> MayPath(w, p, a, x, o.value))
  }

  ghost predicate PathChosen(w: World, p: string, a: Value, e: Expr, x: Value, o: Option<Outcome>)
    requires a.Map?
  {
    DenotesPath(p, a, e) && (o.Some? ==> Eval(w, e, x) == o.value)
  }

  // The neutral outcome up to the child that decides, and any tree after it.
  function Target(j: nat, i: nat, neutral: Outcome, o: Outcome): Option<Outcome> {
    if j < i then Some(neutral) else if j == i then Some(o) else None
  }

  lemma {:induction false} Choose(w: World, v: Value, x: Value, o: Option<Outcome>) returns (e: Expr)
    requires Wanted(w, v, x, o)
    ensures Chosen(w, v, e, x, o)
    decreases v, 2
  {
    if o.Some? {
      e := TreeThatMay(w, v, x, o.value);
    } else {
      e := SomeTree(v);
    }
  }

  lemma {:induction false} TreeThatMay(w: World, v: Value, x: Value, o: Outcome) returns (e: Expr)
    requires WellFormed(v) && May(w, v, x, o)
    ensures Denotes(v, e) && Eval(w, e, x) == o
    decreases v, 1
  {
    if v.Map? {
      var k :| k in v.entries;
      SingleKey(v.entries, k);
      e := UseThatMay(w, k, v.entries[k], x, o);
    } else {
      e :| Denotes(v, e) && Eval(w, e, x) == o;
    }
  }

  lemma {:induction false} UseThatMay(w: World, k: string, a: Value, x: Value, o: Outcome) returns (e: Expr)
    requires WellFormedUse(k, a) && MayUse(w, k, a, x, o)
    ensures DenotesUse(k, a, e) && Eval(w, e, x) == o
    decreases a, 4
  {
    if k == "not" {
      var inner := TreeThatMay(w, a, x, Negate(o));
      e := Not(inner);
    } else if k == "and" || k == "or" {
      e := ListThatMay(w, k, a, x, o);
    } else if k == "gjson" {
      e := GroupThatMay(w, a, x, o);
    } else {
      e :| DenotesUse(k, a, e) && Eval(w, e, x) == o;
    }
  }

  lemma Decider(w: World, vs: seq<Value>, x: Value, neutral: Outcome, o: Outcome) returns (i: nat)
    requires MayDecide(w, vs, x, neutral, o)
    ensures i <= |vs| && (i == |vs| <==> o == neutral)
    ensures forall j :: 0 <= j < i ==> May(w, vs[j], x, neutral)
    ensures i < |vs| ==> May(w, vs[i], x, o)
  {
    i := |vs|;
    if o != neutral {
      i :| 0 <= i < |vs| && May(w, vs[i], x, o) && forall j :: 0 <= j < i ==> May(w, vs[j], x, neutral);
    }
  }

  lemma {:induction false} ListThatMay(w: World, k: string, a: Value, x: Value, o: Outcome) returns (e: Expr)
    requires (k == "and" || k == "or") && WellFormedUse(k, a) && MayUse(w, k, a, x, o)
    ensures DenotesUse(k, a, e) && Eval(w, e, x) == o
    decreases a, 3
  {
    var es := DecidersThatMay(w, a.elements, x, if k == "and" then True else False, o);
    e := if k == "and" then And(es) else Or(es);
  }

  lemma {:induction false} DecidersThatMay(w: World, vs: seq<Value>, x: Value, neutral: Outcome, o: Outcome)
    returns (es: seq<Expr>)
    requires MayDecide(w, vs, x, neutral, o) && forall j :: 0 <= j < |vs| ==> WellFormed(vs[j])
    requires neutral == True || neutral == False
    ensures DenotesAll(vs, es) && o == if neutral == True then EvalAnd(w, es, x) else EvalOr(w, es, x)
    decreases vs, 1
  {
    var i := Decider(w, vs, x, neutral, o);
    es := TreesThatMay(w, vs, x, neutral, o, i);
    forall j | 0 <= j < |vs|
      ensures Denotes(vs[j], es[j]) && (j < i ==> Eval(w, es[j], x) == neutral) && (j == i ==> Eval(w, es[j], x) == o)
    {
      assert Chosen(w, vs[j], es[j], x, Target(j, i, neutral, o));
    }
    if neutral == True {
      AndDecidedAt(w, es, x, i);
    } else {
      OrDecidedAt(w, es, x, i);
    }
  }

  lemma {:induction false} TreesThatMay(w: World, vs: seq<Value>, x: Value, neutral: Outcome, o: Outcome, i: nat)
    returns (es: seq<Expr>)
    requires forall j :: 0 <= j < |vs| ==> Wanted(w, vs[j], x, Target(j, i, neutral, o))
    ensures |es| == |vs|
    ensures forall j :: 0 <= j < |vs| ==> Chosen(w, vs[j], es[j], x, Target(j, i, neutral, o))
    decreases vs, 0
  {
    es := [];
    while |es| < |vs|
      invariant |es| <= |vs|
      invariant forall j :: 0 <= j < |es| ==> Chosen(w, vs[j], es[j], x, Target(j, i, neutral, o))
    {
      var e := Choose(w, vs[|es|], x, Target(|es|, i, neutral, o));
      es := es + [e];
    }
  }

  // If a group is not to be true, the path with that outcome may be read first.
  lemma {:induction false} GroupThatMay(w: World, a: Value, x: Value, o: Outcome) returns (e: Expr)
    requires WellFormedUse("gjson", a) && MayUse(w, "gjson", a, x, o)
    ensures DenotesUse("gjson", a, e) && Eval(w, e, x) == o
    decreases a, 3
  {
    var keys, i := KeysThatMay(w, a, x, o);
    var es := LookupsThatMay(w, keys, a, x, o, i);
    ChosenDecide(w, keys, a, es, x, o, i);
    e := And(es);
  }

  lemma ChosenDecide(w: World, keys: seq<string>, a: Value, es: seq<Expr>, x: Value, o: Outcome, i: nat)
    requires a.Map? && Lists(keys, a.entries) && |es| == |keys| && i <= |keys| && (i == |keys| <==> o == True)
    requires forall j :: 0 <= j < |keys| ==> PathChosen(w, keys[j], a, es[j], x, Target(j, i, True, o))
    ensures DenotesPaths(keys, a, es) && EvalAnd(w, es, x) == o
  {
    forall j | 0 <= j < |keys|
      ensures DenotesPath(keys[j], a, es[j])
      ensures (j < i ==> Eval(w, es[j], x) == True) && (j == i ==> Eval(w, es[j], x) == o)
    {
      assert PathChosen(w, keys[j], a, es[j], x, Target(j, i, True, o));
    }
    AndDecidedAt(w, es, x, i);
  }

  lemma KeysThatMay(w: World, a: Value, x: Value, o: Outcome) returns (keys: seq<string>, i: nat)
    requires WellFormedUse("gjson", a) && MayUse(w, "gjson", a, x, o)
    ensures Lists(keys, a.entries) && i <= |keys| && (i == |keys| <==> o == True)
    ensures forall j :: 0 <= j < |keys| ==> PathWanted(w, keys[j], a, x, Target(j, i, True, o))
  {
    if o == True {
      keys := Listing(a.entries.Keys);
      i := |keys|;
    } else {
      var p :| MayPath(w, p, a, x, o);
      keys := ListingWithFirst(a.entries, p);
      i := 0;
    }
  }

  lemma {:induction false} LookupsThatMay(w: World, keys: seq<string>, a: Value, x: Value, o: Outcome, i: nat)
    returns (es: seq<Expr>)
    requires a.Map? && forall j :: 0 <= j < |keys| ==> PathWanted(w, keys[j], a, x, Target(j, i, True, o))
    ensures |es| == |keys|
    ensures forall j :: 0 <= j < |keys| ==> PathChosen(w, keys[j], a, es[j], x, Target(j, i, True, o))
    decreases a, 2
  {
    es := [];
    while |es| < |keys|
      invariant |es| <= |keys|
      invariant forall j :: 0 <= j < |es| ==> PathChosen(w, keys[j], a, es[j], x, Target(j, i, True, o))
    {
      var e := LookupThatMay(w, keys[|es|], a, x, Target(|es|, i, True, o));
      es := es + [e];
    }
  }

  lemma {:induction false} LookupThatMay(w: World, p: string, a: Value, x: Value, o: Option<Outcome>)
    returns (e: Expr)
    requires a.Map? && PathWanted(w, p, a, x, o)
    ensures PathChosen(w, p, a, e, x, o)
    decreases a, 1
  {
    var (y, err) := w.transform(Gjson(p), x);
    var inner := Choose(w, a.entries[p], y, if err.Some? then None else o);
    e := Transform(Gjson(p), inner);
  }

  /** The outcomes read from an expectation are exactly those of its trees, for all orders of its maps. */
  lemma MayExactly(w: World, v: Value, x: Value, o: Outcome)
    requires WellFormed(v)
    ensures May(w, v, x, o) <==> exists e :: Denotes(v, e) && Eval(w, e, x) == o
  {
    if May(w, v, x, o) {
      var e := TreeThatMay(w, v, x, o);
    }
    if e :| Denotes(v, e) && Eval(w, e, x) == o {
      TreeMay(w, v, e, x);
    }
  }

  // ---------- when all trees agree ----------

  ghost predicate OutcomesAgree(w: World, v: Value, x: Value) {
    forall e, e' :: Denotes(v, e) && Denotes(v, e') ==> Eval(w, e, x) == Eval(w, e', x)
  }

  // Whether the check passes is the same each time.
  ghost predicate VerdictsAgree(w: World, v: Value, x: Value) {
    forall e, e' :: Denotes(v, e) && Denotes(v, e') ==> (Eval(w, e, x) == True <==> Eval(w, e', x) == True)
  }

  ghost predicate MayFail(w: World, v: Value, x: Value) {
    exists o :: o != True && May(w, v, x, o)
  }

  ghost predicate OneOutcome(w: World, v: Value, x: Value) {
    forall o, o' :: May(w, v, x, o) && May(w, v, x, o') ==> o == o'
  }

  /** All trees of an expectation have the same outcome exactly when only one may come out. */
  lemma OutcomesAgreeExactly(w: World, v: Value, x: Value)
    requires WellFormed(v)
    ensures OutcomesAgree(w, v, x) <==> OneOutcome(w, v, x)
  {
    if OutcomesAgree(w, v, x) {
      forall o, o' | May(w, v, x, o) && May(w, v, x, o')
        ensures o == o'
      {
        var e := TreeThatMay(w, v, x, o);
        var e' := TreeThatMay(w, v, x, o');
      }
    }
    if OneOutcome(w, v, x) {
      forall e, e' | Denotes(v, e) && Denotes(v, e')
        ensures Eval(w, e, x) == Eval(w, e', x)
      {
        TreeMay(w, v, e, x);
        TreeMay(w, v, e', x);
      }
    }
  }

  /** Whether a check passes can change from one compilation to another exactly when it may pass and may fail. */
  lemma VerdictsAgreeExactly(w: World, v: Value, x: Value)
    requires WellFormed(v)
    ensures VerdictsAgree(w, v, x) <==> !(May(w, v, x, True) && MayFail(w, v, x))
  {
    if May(w, v, x, True) && MayFail(w, v, x) {
      VerdictsDiffer(w, v, x);
    } else {
      forall e, e' | Denotes(v, e) && Denotes(v, e')
        ensures Eval(w, e, x) == True <==> Eval(w, e', x) == True
      {
        TreeMay(w, v, e, x);
        TreeMay(w, v, e', x);
      }
    }
  }

  lemma VerdictsDiffer(w: World, v: Value, x: Value)
    requires WellFormed(v) && May(w, v, x, True) && MayFail(w, v, x)
    ensures !VerdictsAgree(w, v, x)
  {
    var o :| o != True && May(w, v, x, o);
    var e := TreeThatMay(w, v, x, True);
    var e' := TreeThatMay(w, v, x, o);
  }

  // ---------- groups, and negated groups ----------

  function Use(k: string, a: Value): Value {
    Map(map[k := a])
  }

  lemma UseMay(w: World, k: string, a: Value, x: Value, o: Outcome)
    ensures May(w, Use(k, a), x, o) <==> MayUse(w, k, a, x, o)
  {
    assert Use(k, a).entries[k] == a;
  }

  lemma UseWellFormed(k: string, a: Value)
    ensures WellFormed(Use(k, a)) <==> WellFormedUse(k, a)
  {
    assert Use(k, a).entries[k] == a;
  }

  lemma GroupMay(w: World, a: Value, x: Value, o: Outcome)
    requires a.Map? && a.entries != map[]
    ensures May(w, Use("gjson", a), x, o) <==> if o == True then EveryPathMay(w, a, x) else SomePathMay(w, a, x, o)
  {
    UseMay(w, "gjson", a, x, o);
    GroupMayUse(w, a, x, o);
  }

  lemma NegationMay(w: World, v: Value, x: Value, o: Outcome)
    ensures May(w, Use("not", v), x, Negate(o)) <==> May(w, v, x, o)
  {
    UseMay(w, "not", v, x, Negate(o));
    assert Negate(Negate(o)) == o;
  }

  lemma NegationWellFormed(v: Value)
    requires WellFormed(v)
    ensures WellFormed(Use("not", v))
  {
    UseWellFormed("not", v);
  }

  /** Whether a group passes can change exactly when every path may be true and some path may not. */
  lemma GroupVerdict(w: World, a: Value, x: Value)
    requires WellFormedUse("gjson", a)
    ensures VerdictsAgree(w, Use("gjson", a), x) <==>
      !(EveryPathMay(w, a, x) && exists o :: o != True && SomePathMay(w, a, x, o))
  {
    var v := Use("gjson", a);
    UseWellFormed("gjson", a);
    VerdictsAgreeExactly(w, v, x);
    forall o
      ensures May(w, v, x, o) <==> if o == True then EveryPathMay(w, a, x) else SomePathMay(w, a, x, o)
    {
      GroupMay(w, a, x, o);
    }
  }

  /**
   Whether a negated group passes can change exactly when some path may be false and either some path may
   be an error or every path may be true.
   */
  lemma NegatedGroupVerdict(w: World, a: Value, x: Value)
    requires WellFormedUse("gjson", a)
    ensures VerdictsAgree(w, Use("not", Use("gjson", a)), x) <==>
      !(SomePathMay(w, a, x, False) && (EveryPathMay(w, a, x) || exists m :: SomePathMay(w, a, x, Error(m))))
  {
    var v := Use("gjson", a);
    UseWellFormed("gjson", a);
    NegationWellFormed(v);
    VerdictsAgreeExactly(w, Use("not", v), x);
    GroupMay(w, a, x, True);
    GroupMay(w, a, x, False);
    forall m
      ensures May(w, v, x, Error(m)) <==> SomePathMay(w, a, x, Error(m))
    {
      GroupMay(w, a, x, Error(m));
    }
    NegationMayPass(w, v, x);
  }

  lemma NegationMayPass(w: World, v: Value, x: Value)
    ensures May(w, Use("not", v), x, True) <==> May(w, v, x, False)
    ensures MayFail(w, Use("not", v), x) <==> May(w, v, x, True) || exists m :: May(w, v, x, Error(m))
  {
    NegationMay(w, v, x, True);
    NegationMay(w, v, x, False);
    forall o: Outcome | o.Error?
      ensures May(w, Use("not", v), x, o) <==> May(w, v, x, o)
    {
      NegationMay(w, v, x, o);
    }
  }

  // ---------- what the form of an expectation guarantees ----------

  const NESTING := {"have-key", "not", "contain-element", "contain-elements", "consist-of", "and", "or"}

  // No map in the expectation is read in more than one order: every gjson group in it has one path.
  ghost predicate Fixed(v: Value)
    decreases v, 0
  {
    match v
    case Arr(vs) => forall i :: 0 <= i < |vs| ==> Fixed(vs[i])
    case Map(m) => forall k :: k in m ==> FixedUse(k, m[k])
    case _ => true
  }

  ghost predicate FixedUse(k: string, a: Value)
    decreases a, 1
  {
    && (k in NESTING ==> Fixed(a))
    && (k == "gjson" && a.Map? ==> |a.entries| == 1 && forall p :: p in a.entries ==> Fixed(a.entries[p]))
  }

  /** Without a group of several paths an expectation has only one tree. */
  lemma {:induction false} FixedTree(v: Value, e: Expr, e': Expr)
    requires Fixed(v) && Denotes(v, e) && Denotes(v, e')
    ensures e == e'
    decreases v, 0
  {
    match v
    case Str(_) =>
    case Int(_) =>
    case Float(_) =>
    case Bool(_) =>
    case Arr(vs) => FixedTrees(vs, e.children, e'.children);
    case Map(m) =>
      var k :| k in m;
      FixedTreeOfUse(k, m[k], e, e');
  }

  lemma {:induction false} FixedTrees(vs: seq<Value>, es: seq<Expr>, es': seq<Expr>)
    requires DenotesAll(vs, es) && DenotesAll(vs, es') && forall i :: 0 <= i < |vs| ==> Fixed(vs[i])
    ensures es == es'
    decreases vs, 0
  {
    forall i | 0 <= i < |vs|
      ensures es[i] == es'[i]
    {
      FixedTree(vs[i], es[i], es'[i]);
    }
  }

  lemma {:induction false} FixedTreeOfUse(k: string, a: Value, e: Expr, e': Expr)
    requires FixedUse(k, a) && DenotesUse(k, a, e) && DenotesUse(k, a, e')
    ensures e == e'
    decreases a, 1
  {
    if k == "have-key" {
      FixedTree(a, e.children[0], e'.children[0]);
      assert e.children == [e.children[0]] && e'.children == [e'.children[0]];
    } else if k == "not" {
      FixedTree(a, e.inner, e'.inner);
    } else if k == "contain-element" {
      FixedTree(a, e.inner.children[0], e'.inner.children[0]);
      assert e.inner.children == [e.inner.children[0]] && e'.inner.children == [e'.inner.children[0]];
    } else if k == "gjson" {
      FixedGroup(a, e, e');
    } else if k == "contain-elements" {
      FixedTrees(a.elements, e.inner.children, e'.inner.children);
    } else if k == "consist-of" {
      FixedTrees(a.elements, e.children, e'.children);
    } else if k == "and" {
      FixedTrees(a.elements, e.all, e'.all);
    } else if k == "or" {
      FixedTrees(a.elements, e.any, e'.any);
    }
  }

  lemma {:induction false} FixedGroup(a: Value, e: Expr, e': Expr)
    requires FixedUse("gjson", a) && DenotesUse("gjson", a, e) && DenotesUse("gjson", a, e')
    ensures e == e'
    decreases a, 0
  {
    var p :| p in a.entries;
    SingleLookup(a, p, e);
    SingleLookup(a, p, e');
    FixedTree(a.entries[p], e.all[0].inner, e'.all[0].inner);
  }

  lemma SingleLookup(a: Value, p: string, e: Expr)
    requires a.Map? && |a.entries| == 1 && p in a.entries && DenotesUse("gjson", a, e)
    ensures |e.all| == 1 && DenotesPath(p, a, e.all[0])
    ensures e == And([Transform(Gjson(p), e.all[0].inner)])
  {
    var keys :| DenotesPaths(keys, a, e.all);
    SingleListing(a.entries, p, keys);
    assert DenotesPath(keys[0], a, e.all[0]);
  }

  lemma SingleListing(m: map<string, Value>, p: string, keys: seq<string>)
    requires |m| == 1 && p in m && Lists(keys, m)
    ensures keys == [p]
  {
    SingleKey(m, p);
    DistinctLength(keys, m.Keys);
    assert keys[0] in m.Keys;
  }

  lemma FixedOutcome(w: World, v: Value, x: Value, o: Outcome, o': Outcome)
    requires WellFormed(v) && Fixed(v) && May(w, v, x, o) && May(w, v, x, o')
    ensures o == o'
  {
    var e := TreeThatMay(w, v, x, o);
    var e' := TreeThatMay(w, v, x, o');
    FixedTree(v, e, e');
  }

  lemma FixedUseOutcome(w: World, k: string, a: Value, x: Value, o: Outcome, o': Outcome)
    requires WellFormedUse(k, a) && FixedUse(k, a) && MayUse(w, k, a, x, o) && MayUse(w, k, a, x, o')
    ensures o == o'
  {
    UseWellFormed(k, a);
    UseMay(w, k, a, x, o);
    UseMay(w, k, a, x, o');
    FixedOutcome(w, Use(k, a), x, o, o');
  }

  // True or false; never an error.
  function Verdict(b: bool): Outcome {
    if b then True else False
  }

  /**
   Expectations whose trees are all true or none is (b), or all false or none is (not b), by their form
   alone. For a group of several paths that can only be said of true; negation exchanges the two; and behind
   an expectation that an or or an and goes past, it matters whether that one is false or an error.
   */
  ghost predicate Sure(v: Value, b: bool)
    decreases v, 0
  {
    if v.Map? then forall k :: k in v.entries ==> SureUse(k, v.entries[k], b) else Fixed(v)
  }

  ghost predicate SureUse(k: string, a: Value, b: bool)
    decreases a, 1
  {
    if k == "not" then Sure(a, !b)
    else if k == "and" || k == "or" then a.Arr? ==> SureList(a.elements, k == "and", b)
    else if k == "gjson" then
      a.Map? ==> (b || |a.entries| == 1) && forall p :: p in a.entries ==> Sure(a.entries[p], b)
    else FixedUse(k, a)
  }

  ghost predicate SureList(vs: seq<Value>, neutral: bool, b: bool)
    decreases vs, 0
  {
    forall i :: 0 <= i < |vs| ==> if b == neutral || i == |vs| - 1 then Sure(vs[i], b) else Fixed(vs[i])
  }

  lemma {:induction false} SureOutcome(w: World, v: Value, x: Value, b: bool, o: Outcome)
    requires WellFormed(v) && Sure(v, b) && May(w, v, x, Verdict(b)) && May(w, v, x, o)
    ensures o == Verdict(b)
    decreases v, 1
  {
    if v.Map? {
      var k :| k in v.entries;
      SureUseOutcome(w, k, v.entries[k], x, b, o);
    } else {
      FixedOutcome(w, v, x, Verdict(b), o);
    }
  }

  lemma {:induction false} SureUseOutcome(w: World, k: string, a: Value, x: Value, b: bool, o: Outcome)
    requires WellFormedUse(k, a) && SureUse(k, a, b) && MayUse(w, k, a, x, Verdict(b)) && MayUse(w, k, a, x, o)
    ensures o == Verdict(b)
    decreases a, 3
  {
    if k == "not" {
      assert Negate(Verdict(b)) == Verdict(!b);
      SureOutcome(w, a, x, !b, Negate(o));
    } else if k == "and" || k == "or" {
      SureListOutcome(w, a.elements, x, k == "and", b, o);
    } else if k == "gjson" {
      SureGroupOutcome(w, a, x, b, o);
    } else {
      FixedUseOutcome(w, k, a, x, Verdict(b), o);
    }
  }

  // Two ways to decide a list go through one child: the first at which either of them stops.
  lemma FirstStop(w: World, vs: seq<Value>, x: Value, neutral: Outcome, o: Outcome, o': Outcome)
    returns (k: nat, at: Outcome, at': Outcome)
    requires MayDecide(w, vs, x, neutral, o) && MayDecide(w, vs, x, neutral, o') && o != neutral
    ensures k < |vs| && May(w, vs[k], x, at) && May(w, vs[k], x, at')
    ensures (at == o || k < |vs| - 1) && (at == at' ==> o == o')
  {
    var i := Decider(w, vs, x, neutral, o);
    var j := Decider(w, vs, x, neutral, o');
    k := if i <= j then i else j;
    at, at' := if k < i then neutral else o, if k < j then neutral else o';
  }

  lemma {:induction false} SureListOutcome(w: World, vs: seq<Value>, x: Value, neutral: bool, b: bool, o: Outcome)
    requires SureList(vs, neutral, b) && forall i :: 0 <= i < |vs| ==> WellFormed(vs[i])
    requires MayDecide(w, vs, x, Verdict(neutral), Verdict(b)) && MayDecide(w, vs, x, Verdict(neutral), o)
    ensures o == Verdict(b)
    decreases vs, 2
  {
    if b == neutral {
      SureEverywhere(w, vs, x, b, o);
    } else {
      var k, at, at' := FirstStop(w, vs, x, Verdict(neutral), Verdict(b), o);
      SureElement(w, vs, x, neutral, b, k, at, at');
    }
  }

  lemma {:induction false} SureEverywhere(w: World, vs: seq<Value>, x: Value, b: bool, o: Outcome)
    requires forall i :: 0 <= i < |vs| ==> Sure(vs[i], b) && WellFormed(vs[i])
    requires MayDecide(w, vs, x, Verdict(b), Verdict(b)) && MayDecide(w, vs, x, Verdict(b), o)
    ensures o == Verdict(b)
    decreases vs, 1
  {
    var j := Decider(w, vs, x, Verdict(b), o);
    if j < |vs| {
      SureOutcome(w, vs[j], x, b, o);
    }
  }

  // Where one child may have two outcomes it is the last, and then neither of them is the one it is sure of.
  lemma {:induction false} SureElement(
    w: World, vs: seq<Value>, x: Value, neutral: bool, b: bool, i: nat, o: Outcome, o': Outcome)
    requires SureList(vs, neutral, b) && b != neutral && i < |vs| && WellFormed(vs[i])
    requires May(w, vs[i], x, o) && May(w, vs[i], x, o') && (o == Verdict(b) || i < |vs| - 1)
    ensures o == o'
    decreases vs, 0
  {
    if i == |vs| - 1 {
      SureOutcome(w, vs[i], x, b, o');
    } else {
      FixedOutcome(w, vs[i], x, o, o');
    }
  }

  lemma {:induction false} SureGroupOutcome(w: World, a: Value, x: Value, b: bool, o: Outcome)
    requires WellFormedUse("gjson", a) && SureUse("gjson", a, b)
    requires MayUse(w, "gjson", a, x, Verdict(b)) && MayUse(w, "gjson", a, x, o)
    ensures o == Verdict(b)
    decreases a, 2
  {
    var p :| p in a.entries;
    if b {
      if o != True {
        p :| MayPath(w, p, a, x, o);
      }
    } else {
      SingleKey(a.entries, p);
    }
    assert MayPath(w, p, a, x, o) && MayPath(w, p, a, x, Verdict(b));
    var (y, err) := w.transform(Gjson(p), x);
    if err.None? {
      SureOutcome(w, a.entries[p], y, b, o);
    }
  }

  /** In such a form all trees of an expectation are true, or none is; or all are false, or none is. */
  lemma SureVerdict(w: World, v: Value, x: Value, b: bool, e: Expr, e': Expr)
    requires Sure(v, b) && Denotes(v, e) && Denotes(v, e')
    ensures Eval(w, e, x) == Verdict(b) <==> Eval(w, e', x) == Verdict(b)
  {
    DenotedIsWellFormed(v, e);
    TreeMay(w, v, e, x);
    TreeMay(w, v, e', x);
    if Eval(w, e, x) == Verdict(b) {
      SureOutcome(w, v, x, b, Eval(w, e', x));
    }
    if Eval(w, e', x) == Verdict(b) {
      SureOutcome(w, v, x, b, Eval(w, e, x));
    }
  }

  // ---------- expectations whose trees differ ----------

  // Two paths that are to lead to the same value.
  function TwoPaths(y: Value): Value {
    Map(map["a" := Use("equal", y), "b" := Use("equal", y)])
  }

  lemma EqualMay(y: Value, x: Value, o: Outcome)
    requires o == if x == y then True else False
    ensures May(WithoutPathB(), Use("equal", y), x, o)
  {
    var e := Check(Equal(y));
    assert DenotesUse("equal", y, e) && Eval(WithoutPathB(), e, x) == o;
    UseMay(WithoutPathB(), "equal", y, x, o);
  }

  lemma EqualWellFormed(y: Value)
    ensures WellFormed(Use("equal", y))
  {
    UseWellFormed("equal", y);
  }

  lemma GroupWellFormed(a: Value)
    requires a.Map? && a.entries != map[] && forall p :: p in a.entries ==> WellFormed(a.entries[p])
    ensures WellFormed(Use("gjson", a))
  {
    UseWellFormed("gjson", a);
  }

  lemma TwoPathsWellFormed(y: Value)
    ensures WellFormed(Use("gjson", TwoPaths(y)))
  {
    EqualWellFormed(y);
    GroupWellFormed(TwoPaths(y));
  }

  // Path a is found and differs, and path b is not found.
  lemma TwoPathsMay(y: Value, x: Value, o: Outcome)
    requires y != Int(1) && (o == False || o == Error("path not found: b"))
    ensures May(WithoutPathB(), Use("gjson", TwoPaths(y)), x, o)
  {
    EqualMay(y, Int(1), False);
    assert MayPath(WithoutPathB(), if o == False then "a" else "b", TwoPaths(y), x, o);
    GroupMay(WithoutPathB(), TwoPaths(y), x, o);
  }

  // A negated group of one path, in which there is another expectation.
  function Nested(v: Value): Value {
    Use("not", OnePath(v))
  }

  function OnePath(v: Value): Value {
    Use("gjson", Map(map["c" := v]))
  }

  lemma OnePathMay(w: World, v: Value, x: Value, y: Value, o: Outcome)
    requires WellFormed(v) && w.transform(Gjson("c"), x) == (y, None) && May(w, v, y, o) && o != True
    ensures WellFormed(OnePath(v)) && May(w, OnePath(v), x, o)
  {
    var a := Map(map["c" := v]);
    assert a.entries["c"] == v;
    GroupWellFormed(a);
    assert MayPath(w, "c", a, x, o);
    GroupMay(w, a, x, o);
  }

  lemma NestedTree(w: World, v: Value, x: Value, y: Value, o: Outcome) returns (e: Expr)
    requires WellFormed(v) && w.transform(Gjson("c"), x) == (y, None) && May(w, v, y, o) && o != True
    ensures Denotes(Nested(v), e) && Eval(w, e, x) == Negate(o)
  {
    OnePathMay(w, v, x, y, o);
    NegationWellFormed(OnePath(v));
    NegationMay(w, OnePath(v), x, o);
    e := TreeThatMay(w, Nested(v), x, Negate(o));
  }

  /** Under a negated group, even of one path, the order of a nested group decides between passing and an error. */
  lemma NestedGroupCanDiffer(y: Value, x: Value)
    requires y != Int(1)
    ensures
      var v, w := Nested(Use("gjson", TwoPaths(y))), WithoutPathB();
      && (exists e :: Denotes(v, e) && Eval(w, e, x) == True)
      && (exists e :: Denotes(v, e) && Eval(w, e, x) == Error("path not found: b"))
  {
    var v, w, err := Use("gjson", TwoPaths(y)), WithoutPathB(), Error("path not found: b");
    TwoPathsWellFormed(y);
    TwoPathsMay(y, Int(1), False);
    TwoPathsMay(y, Int(1), err);
    var e := NestedTree(w, v, x, Int(1), False);
    var e' := NestedTree(w, v, x, Int(1), err);
  }

  // Two alternatives.
  function Alternatives(v: Value, u: Value): Value {
    Use("or", Arr([v, u]))
  }

  lemma AlternativesMay(w: World, v: Value, u: Value, x: Value, o: Outcome)
    requires May(w, v, x, o) || (May(w, v, x, False) && May(w, u, x, o))
    requires o != False
    ensures May(w, Alternatives(v, u), x, o)
  {
    var vs := [v, u];
    var i := if May(w, v, x, o) then 0 else 1;
    assert May(w, vs[i], x, o) && forall j :: 0 <= j < i ==> May(w, vs[j], x, False);
    assert MayDecide(w, vs, x, False, o);
    UseMay(w, "or", Arr(vs), x, o);
  }

  lemma AlternativeTree(w: World, v: Value, u: Value, x: Value, o: Outcome) returns (e: Expr)
    requires WellFormed(v) && WellFormed(u) && o != False
    requires May(w, v, x, o) || (May(w, v, x, False) && May(w, u, x, o))
    ensures Denotes(Alternatives(v, u), e) && Eval(w, e, x) == o
  {
    UseWellFormed("or", Arr([v, u]));
    AlternativesMay(w, v, u, x, o);
    e := TreeThatMay(w, Alternatives(v, u), x, o);
  }

  /** Without any negation the order of a group decides too, where an or has another alternative after it. */
  lemma AlternativesCanDiffer(y: Value, x: Value)
    requires y != Int(1)
    ensures
      var v, w := Alternatives(Use("gjson", TwoPaths(y)), Use("equal", x)), WithoutPathB();
      && (exists e :: Denotes(v, e) && Eval(w, e, x) == True)
      && (exists e :: Denotes(v, e) && Eval(w, e, x) == Error("path not found: b"))
  {
    var v, u, w, err := Use("gjson", TwoPaths(y)), Use("equal", x), WithoutPathB(), Error("path not found: b");
    TwoPathsWellFormed(y);
    EqualWellFormed(x);
    TwoPathsMay(y, x, False);
    TwoPathsMay(y, x, err);
    EqualMay(x, x, True);
    var e := AlternativeTree(w, v, u, x, True);
    var e' := AlternativeTree(w, v, u, x, err);
  }
}
