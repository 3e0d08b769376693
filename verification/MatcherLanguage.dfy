/**
 The language that expectations are compiled to: trees of matchers with three outcomes. The matchers
 and transformers of other libraries are arbitrary functions.
 */
module MatcherLanguage {
  import opened Wrappers

  // A decoded spec value, or a value under test.
  datatype Value =
    | Nil
    | Str(s: string)
    | Int(n: int)
    | Float(r: real)
    | Bool(b: bool)
    | Arr(elements: seq<Value>)
    | Map(entries: map<string, Value>)
    | Other(id: int)

  datatype Transformer = ToString | ToNumeric | ToArray | Gjson(path: string)

  datatype Leaf =
    | Equal(v: Value)
    | HavePrefix(s: string)
    | HaveSuffix(s: string)
    | MatchRegexp(s: string)
    | ContainSubstring(s: string)
    | HaveLen(n: int)
    | HavePatterns(v: Value)
    | BeNumerically(op: string, v: Value)
    | BeSemverConstraint(s: string)

  // Collection matchers, which apply their children to parts of the value.
  datatype Collection = ContainElement | ContainElements | ConsistOf | HaveKey

  datatype Expr =
    | Check(leaf: Leaf)
    | Collect(kind: Collection, children: seq<Expr>)
    | Transform(transformer: Transformer, inner: Expr)
    | Not(inner: Expr)
    | And(all: seq<Expr>)
    | Or(any: seq<Expr>)

  datatype Outcome = True | False | Error(message: string)

  // What the libraries do: transforming gives a value and perhaps an error, and a collection matcher
  // uses its children only through the outcomes they have.
  datatype World = World(
    transform: (Transformer, Value) -> (Value, Option<string>),
    check: (Leaf, Value) -> Outcome,
    collect: (Collection, seq<Value -> Outcome>, Value) -> Outcome)

  function Negate(o: Outcome): Outcome {
    match o
    case True => False
    case False => True
    case Error(_) => o
  }

  // The first child that is not true decides a conjunction.
  function EvalAnd(w: World, es: seq<Expr>, x: Value): Outcome {
    if es == [] then True
    else
      var o := Eval(w, es[0], x);
      if o == True then EvalAnd(w, es[1..], x) else o
  }

  function EvalOr(w: World, es: seq<Expr>, x: Value): Outcome {
    if es == [] then False
    else
      var o := Eval(w, es[0], x);
      if o == False then EvalOr(w, es[1..], x) else o
  }

  function Eval(w: World, e: Expr, x: Value): Outcome {
    match e
    case Check(leaf) => w.check(leaf, x)
    case Collect(kind, children) => w.collect(kind, Meanings(w, children), x)
    case Transform(t, inner) =>
      var (y, err) := w.transform(t, x);
      if err.Some? then Error(err.value) else Eval(w, inner, y)
    case Not(inner) => Negate(Eval(w, inner, x))
    case And(es) => EvalAnd(w, es, x)
    case Or(es) => EvalOr(w, es, x)
  }

  // What an expression does, as a function of the value under test.
  function Meaning(w: World, e: Expr): Value -> Outcome {
    x => Eval(w, e, x)
  }

  function Meanings(w: World, es: seq<Expr>): (fs: seq<Value -> Outcome>)
    ensures |fs| == |es|
  {
    if es == [] then [] else [Meaning(w, es[0])] + Meanings(w, es[1..])
  }

  // The index of the first child whose outcome is not the given one, or the number of children.
  ghost predicate IsFirstOther(w: World, es: seq<Expr>, x: Value, o: Outcome, i: nat) {
    && i <= |es|
    && (forall j :: 0 <= j < i ==> Eval(w, es[j], x) == o)
    && (i < |es| ==> Eval(w, es[i], x) != o)
  }

  lemma {:induction false} AndDecidedAt(w: World, es: seq<Expr>, x: Value, i: nat)
    requires IsFirstOther(w, es, x, True, i)
    ensures EvalAnd(w, es, x) == if i < |es| then Eval(w, es[i], x) else True
  {
    if i > 0 {
      assert Eval(w, es[0], x) == True;
      forall j | 0 <= j < i - 1
        ensures Eval(w, es[1..][j], x) == True
      {
        assert es[1..][j] == es[j + 1];
      }
      AndDecidedAt(w, es[1..], x, i - 1);
    }
  }

  lemma {:induction false} OrDecidedAt(w: World, es: seq<Expr>, x: Value, i: nat)
    requires IsFirstOther(w, es, x, False, i)
    ensures EvalOr(w, es, x) == if i < |es| then Eval(w, es[i], x) else False
  {
    if i > 0 {
      assert Eval(w, es[0], x) == False;
      forall j | 0 <= j < i - 1
        ensures Eval(w, es[1..][j], x) == False
      {
        assert es[1..][j] == es[j + 1];
      }
      OrDecidedAt(w, es[1..], x, i - 1);
    }
  }

  function FirstOther(w: World, es: seq<Expr>, x: Value, o: Outcome): (i: nat)
    ensures IsFirstOther(w, es, x, o, i)
  {
    if es == [] || Eval(w, es[0], x) != o then 0
    else
      var i := FirstOther(w, es[1..], x, o);
      assert forall j :: 0 < j < |es| ==> es[j] == es[1..][j - 1];
      i + 1
  }

  // ---------- De Morgan ----------

  function Negated(es: seq<Expr>): seq<Expr> {
    if es == [] then [] else [Not(es[0])] + Negated(es[1..])
  }

  lemma {:induction false} NegatedChildren(w: World, es: seq<Expr>, x: Value)
    ensures EvalOr(w, Negated(es), x) == Negate(EvalAnd(w, es, x))
    ensures EvalAnd(w, Negated(es), x) == Negate(EvalOr(w, es, x))
  {
    if es != [] {
      NegatedChildren(w, es[1..], x);
      assert Negated(es)[0] == Not(es[0]) && Negated(es)[1..] == Negated(es[1..]);
      assert Eval(w, Not(es[0]), x) == Negate(Eval(w, es[0], x));
    }
  }

  /** Success, failure and error, message included, all agree on both sides. */
  lemma DeMorgan(w: World, es: seq<Expr>, x: Value)
    ensures Eval(w, Not(And(es)), x) == Eval(w, Or(Negated(es)), x)
    ensures Eval(w, Not(Or(es)), x) == Eval(w, And(Negated(es)), x)
  {
    NegatedChildren(w, es, x);
    assert Eval(w, And(es), x) == EvalAnd(w, es, x);
    assert Eval(w, Or(es), x) == EvalOr(w, es, x);
  }

  // ---------- groups read from a map ----------

  lemma AndIsTrue(w: World, es: seq<Expr>, x: Value)
    ensures EvalAnd(w, es, x) == True <==> forall e :: e in es ==> Eval(w, e, x) == True
  {
    var i := FirstOther(w, es, x, True);
    AndDecidedAt(w, es, x, i);
    if i < |es| {
      assert es[i] in es;
    }
  }

  ghost predicate SameChildren(es: seq<Expr>, es': seq<Expr>) {
    forall e :: e in es <==> e in es'
  }

  /** Whether a group holds does not depend on the order of its children. */
  lemma GroupIgnoresOrder(w: World, es: seq<Expr>, es': seq<Expr>, x: Value)
    requires SameChildren(es, es')
    ensures Eval(w, And(es), x) == True <==> Eval(w, And(es'), x) == True
  {
    AndIsTrue(w, es, x);
    AndIsTrue(w, es', x);
  }

  ghost predicate SomeOutcome(w: World, es: seq<Expr>, x: Value, error: bool) {
    exists e :: e in es && (if error then Eval(w, e, x).Error? else Eval(w, e, x) == False)
  }

  // A child moved to the front.
  function Fronted(es: seq<Expr>, i: nat): seq<Expr>
    requires i < |es|
  {
    [es[i]] + es[..i] + es[i + 1..]
  }

  lemma FrontedIsSame(es: seq<Expr>, i: nat)
    requires i < |es|
    ensures multiset(Fronted(es, i)) == multiset(es)
    ensures SameChildren(es, Fronted(es, i))
  {
    assert es == es[..i] + [es[i]] + es[i + 1..];
    assert forall e :: e in es <==> e in multiset(es);
    assert forall e :: e in Fronted(es, i) <==> e in multiset(Fronted(es, i));
  }

  // The verdict of not-and, which holds exactly when the conjunction is false.
  ghost predicate NegatedGroupIgnoresOrder(w: World, es: seq<Expr>, x: Value) {
    forall es' :: multiset(es') == multiset(es) ==>
      (EvalAnd(w, es', x) == False <==> EvalAnd(w, es, x) == False)
  }

  lemma OutcomeIsSomeChilds(w: World, es: seq<Expr>, x: Value)
    ensures EvalAnd(w, es, x) == False ==> SomeOutcome(w, es, x, false)
    ensures EvalAnd(w, es, x).Error? ==> SomeOutcome(w, es, x, true)
  {
    var i := FirstOther(w, es, x, True);
    AndDecidedAt(w, es, x, i);
    if i < |es| {
      assert es[i] in es;
    }
  }

  lemma SameMultisetSameChildren(es: seq<Expr>, es': seq<Expr>)
    requires multiset(es') == multiset(es)
    ensures SameChildren(es, es')
  {
    assert forall e :: e in es <==> e in multiset(es);
    assert forall e :: e in es' <==> e in multiset(es');
  }

  // Without a false child or without an error child, the children alone decide.
  lemma UnmixedGroup(w: World, es: seq<Expr>, es': seq<Expr>, x: Value)
    requires SameChildren(es, es')
    requires !(SomeOutcome(w, es, x, false) && SomeOutcome(w, es, x, true))
    ensures EvalAnd(w, es', x) == False <==> EvalAnd(w, es, x) == False
  {
    AndIsTrue(w, es, x);
    AndIsTrue(w, es', x);
    OutcomeIsSomeChilds(w, es, x);
    OutcomeIsSomeChilds(w, es', x);
  }

  // Whichever child is read first decides, when it is not true.
  lemma FrontDecides(w: World, es: seq<Expr>, x: Value, i: nat)
    requires i < |es| && Eval(w, es[i], x) != True
    ensures multiset(Fronted(es, i)) == multiset(es)
    ensures EvalAnd(w, Fronted(es, i), x) == Eval(w, es[i], x)
  {
    FrontedIsSame(es, i);
    assert Fronted(es, i)[0] == es[i];
  }

  lemma MixedGroup(w: World, es: seq<Expr>, x: Value)
    requires SomeOutcome(w, es, x, false) && SomeOutcome(w, es, x, true)
    ensures !NegatedGroupIgnoresOrder(w, es, x)
  {
    var e :| e in es && Eval(w, e, x) == False;
    var f :| f in es && Eval(w, f, x).Error?;
    var i :| 0 <= i < |es| && es[i] == e;
    var j :| 0 <= j < |es| && es[j] == f;
    FrontDecides(w, es, x, i);
    FrontDecides(w, es, x, j);
  }

  /**
   Under negation the verdict of a group is independent of the order of its children exactly when the
   group does not contain both a child that is false and a child that errors.
   */
  lemma NegatedGroup(w: World, es: seq<Expr>, x: Value)
    ensures NegatedGroupIgnoresOrder(w, es, x) <==>
      !(SomeOutcome(w, es, x, false) && SomeOutcome(w, es, x, true))
    ensures Eval(w, Not(And(es)), x) == True <==> EvalAnd(w, es, x) == False
  {
    assert Eval(w, And(es), x) == EvalAnd(w, es, x);
    if SomeOutcome(w, es, x, false) && SomeOutcome(w, es, x, true) {
      MixedGroup(w, es, x);
    } else {
      forall es' | multiset(es') == multiset(es)
        ensures EvalAnd(w, es', x) == False <==> EvalAnd(w, es, x) == False
      {
        SameMultisetSameChildren(es, es');
        UnmixedGroup(w, es, es', x);
      }
    }
  }

  // Every path leads to the number one, but path b is missing.
  function WithoutPathB(): World {
    World(
      (t: Transformer, v: Value) => if t == Gjson("b") then (Nil, Some("path not found: b")) else (Int(1), None),
      (leaf: Leaf, v: Value) => if leaf == Equal(v) then True else False,
      (kind: Collection, fs: seq<Value -> Outcome>, v: Value) => True)
  }

  /** A concrete group whose negation holds or errs by the order in which its map is read. */
  lemma NegatedGroupCanDiffer()
    ensures exists w: World, x, e, f ::
      Eval(w, Not(And([e, f])), x) == True && Eval(w, Not(And([f, e])), x) == Error("path not found: b")
  {
    var w := WithoutPathB();
    var e, f := Transform(Gjson("a"), Check(Equal(Int(2)))), Transform(Gjson("b"), Check(Equal(Int(2))));
    var x := Str("{\"a\": 1}");
    assert Eval(w, e, x) == False;
    assert Eval(w, f, x) == Error("path not found: b");
    assert EvalAnd(w, [e, f], x) == False;
    assert EvalAnd(w, [f, e], x) == Error("path not found: b");
    assert Eval(w, Not(And([e, f])), x) == True;
    assert Eval(w, Not(And([f, e])), x) == Error("path not found: b");
  }
}
