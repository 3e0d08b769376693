/**
 The stateful matcher objects: a group remembers the child that decided it and a transform remembers
 the value it produced, for the failure report asked for afterwards. A tree is matched once.
 */
module MatcherNodes {
  import opened Wrappers
  import opened MatcherLanguage

  // ---------- what a report says ----------

  // The matcher whose message is shown, whether the negated message is used, and the value shown.
  datatype Report = Report(
    subject: Expr,
    negated: bool,
    actual: Value,
    chain: seq<Transformer>,
    untransformed: Option<Value>)

  // The children of an expression that are objects of their own in the tree.
  function Parts(e: Expr): seq<Expr> {
    match e
    case Check(_) => []
    case Collect(_, _) => []
    case Transform(_, inner) => [inner]
    case Not(inner) => [inner]
    case And(es) => es
    case Or(es) => es
  }

  lemma PartIsSmaller(e: Expr, i: nat)
    requires i < |Parts(e)|
    ensures Parts(e)[i] < e
  {
  }

  ghost predicate Within(s: Expr, e: Expr)
    decreases e
  {
    s == e || exists i :: 0 <= i < |Parts(e)| && Parts(e)[i] < e && Within(s, Parts(e)[i])
  }

  // How far a chain of transforms goes: its end, the last value, the transforms that changed the
  // value, and the value its end was matched on, if any.
  datatype Walk = Walk(end: Expr, value: Value, chain: seq<Transformer>, ran: Option<Value>)

  function Prefixed(chain: seq<Transformer>, walk: Walk): Walk {
    walk.(chain := chain + walk.chain)
  }

  lemma PrefixedTwice(first: seq<Transformer>, second: seq<Transformer>, walk: Walk)
    ensures Prefixed(first, Prefixed(second, walk)) == Prefixed(first + second, walk)
  {
    assert first + (second + walk.chain) == first + second + walk.chain;
  }

  // The value a transform hands on: none when it never ran or failed.
  function HandedOn(w: World, t: Transformer, ran: Option<Value>): Option<Value> {
    if ran.None? then None
    else
      var (y, err) := w.transform(t, ran.value);
      if err.Some? then None else Some(y)
  }

  function WalkFrom(w: World, e: Expr, ran: Option<Value>, value: Value): (r: Walk)
    ensures e.Transform? ==> r.end < e
    ensures !r.end.Transform?
    decreases e
  {
    match e
    case Transform(t, inner) =>
      if ran.None? then WalkFrom(w, inner, None, Nil)
      else
        var (y, err) := w.transform(t, ran.value);
        var rest := WalkFrom(w, inner, if err.Some? then None else Some(y), y);
        Prefixed(if y != ran.value then [t] else [], rest)
    case _ => Walk(e, value, [], ran)
  }

  /**
   The report of a tree that was matched on a value, or never: a group defers to the child that
   decided it, negation swaps the two reports, and a transform reports the end of its chain.
   */
  function Explain(w: World, e: Expr, ran: Option<Value>, actual: Value, negated: bool): Report
    decreases e
  {
    match e
    case Check(_) => Report(e, negated, actual, [], None)
    case Collect(_, _) => Report(e, negated, actual, [], None)
    case Not(inner) => Explain(w, inner, ran, actual, !negated)
    case And(es) =>
      var i := Decider(w, e, ran);
      if negated || i == |es| then Report(e, negated, actual, [], None)
      else Explain(w, es[i], ran, actual, negated)
    case Or(es) =>
      var i := Decider(w, e, ran);
      if !negated || i == |es| then Report(e, negated, actual, [], None)
      else Explain(w, es[i], ran, actual, negated)
    case Transform(_, _) =>
      var walk := WalkFrom(w, e, ran, Nil);
      Explain(w, walk.end, walk.ran, walk.value, negated).(chain := walk.chain, untransformed := Some(actual))
  }

  // The child a group remembers, as an index, or the number of children when it remembers none.
  function Decider(w: World, e: Expr, ran: Option<Value>): (i: nat)
    requires e.And? || e.Or?
    ensures i <= |Parts(e)|
  {
    if ran.None? then |Parts(e)|
    else if e.And? then FirstOther(w, e.all, ran.value, True)
    else
      var i := FirstOther(w, e.any, ran.value, False);
      if i < |e.any| && Eval(w, e.any[i], ran.value).Error? then |e.any| else i
  }

  ghost predicate AsReported(w: World, r: Report) {
    Eval(w, r.subject, r.actual) == if r.negated then True else False
  }

  lemma {:induction false} WalkKeepsOutcome(w: World, e: Expr, x: Value, value: Value)
    requires !Eval(w, e, x).Error?
    requires !e.Transform? ==> value == x
    ensures var r := WalkFrom(w, e, Some(x), value);
      && r.ran == Some(r.value)
      && Eval(w, r.end, r.value) == Eval(w, e, x)
    decreases e
  {
    if e.Transform? {
      var y := w.transform(e.transformer, x).0;
      WalkKeepsOutcome(w, e.inner, y, y);
    }
  }

  lemma {:induction false} WalkEndsWithin(w: World, e: Expr, ran: Option<Value>, value: Value)
    ensures Within(WalkFrom(w, e, ran, value).end, e)
    decreases e
  {
    if e.Transform? {
      assert Parts(e)[0] == e.inner;
      if ran.None? {
        WalkEndsWithin(w, e.inner, None, Nil);
      } else {
        var (y, err) := w.transform(e.transformer, ran.value);
        WalkEndsWithin(w, e.inner, if err.Some? then None else Some(y), y);
      }
    }
  }

  lemma {:induction false} WithinTransitive(r: Expr, s: Expr, e: Expr)
    requires Within(r, s) && Within(s, e)
    ensures Within(r, e)
    decreases e
  {
    if s != e {
      var i :| 0 <= i < |Parts(e)| && Parts(e)[i] < e && Within(s, Parts(e)[i]);
      WithinTransitive(r, s, Parts(e)[i]);
    }
  }

  /** The matcher reported is part of the tree that was matched. */
  lemma {:induction false} ReportsAPart(w: World, e: Expr, ran: Option<Value>, actual: Value, negated: bool)
    ensures Within(Explain(w, e, ran, actual, negated).subject, e)
    decreases e
  {
    match e
    case Check(_) =>
    case Collect(_, _) =>
    case Not(inner) =>
      assert Parts(e)[0] == inner;
      ReportsAPart(w, inner, ran, actual, !negated);
    case And(es) =>
      var i := Decider(w, e, ran);
      if i < |es| {
        assert Parts(e)[i] == es[i];
        ReportsAPart(w, es[i], ran, actual, negated);
      }
    case Or(es) =>
      var i := Decider(w, e, ran);
      if i < |es| {
        assert Parts(e)[i] == es[i];
        ReportsAPart(w, es[i], ran, actual, negated);
      }
    case Transform(_, _) =>
      var walk := WalkFrom(w, e, ran, Nil);
      WalkEndsWithin(w, e, ran, Nil);
      ReportsAPart(w, walk.end, walk.ran, walk.value, negated);
      WithinTransitive(Explain(w, walk.end, walk.ran, walk.value, negated).subject, walk.end, e);
  }

  /**
   Blame is deserved: when a tree does not hold, the matcher its report names really is false of the
   value the report shows, or true of it when the negated message is used.
   */
  lemma {:induction false} BlameIsDeserved(w: World, e: Expr, x: Value, negated: bool)
    requires Eval(w, e, x) == if negated then True else False
    ensures AsReported(w, Explain(w, e, Some(x), x, negated))
    decreases e
  {
    match e
    case Check(_) =>
    case Collect(_, _) =>
    case Not(inner) =>
      BlameIsDeserved(w, inner, x, !negated);
    case And(es) =>
      if !negated {
        var i := FirstOther(w, es, x, True);
        AndDecidedAt(w, es, x, i);
        BlameIsDeserved(w, es[i], x, negated);
      }
    case Or(es) =>
      if negated {
        var i := FirstOther(w, es, x, False);
        OrDecidedAt(w, es, x, i);
        BlameIsDeserved(w, es[i], x, negated);
      }
    case Transform(_, _) =>
      var walk := WalkFrom(w, e, Some(x), Nil);
      WalkKeepsOutcome(w, e, x, Nil);
      BlameIsDeserved(w, walk.end, walk.value, negated);
  }

  // The result of a list of transforms that are known not to fail.
  function TransformAll(w: World, chain: seq<Transformer>, x: Value): Value {
    if chain == [] then x else TransformAll(w, chain[1..], w.transform(chain[0], x).0)
  }

  /** The transforms left out of the chain are those that changed nothing. */
  lemma {:induction false} ChainGivesTheValue(w: World, e: Expr, x: Value, value: Value)
    requires !Eval(w, e, x).Error?
    requires !e.Transform? ==> value == x
    ensures var r := WalkFrom(w, e, Some(x), value); TransformAll(w, r.chain, x) == r.value
    decreases e
  {
    if e.Transform? {
      var y := w.transform(e.transformer, x).0;
      ChainGivesTheValue(w, e.inner, y, y);
      var rest := WalkFrom(w, e.inner, Some(y), y);
      var r := WalkFrom(w, e, Some(x), value);
      if y != x {
        assert r.chain == [e.transformer] + rest.chain;
        assert r.chain[1..] == rest.chain;
      } else {
        assert r.chain == rest.chain;
      }
    }
  }

  // ---------- the objects ----------

  class Node {
    const expr: Expr
    const kids: seq<Node>
    ghost const repr: set<Node>

    // state
    var firstFailed: Node?
    var firstSuccessful: Node?
    var transformedValue: Value
    var wasTransformed: bool

    // The shape of a tree, which never changes: one object for each part, none shared.
    ghost predicate Valid()
      decreases expr
    {
      && this in repr
      && |kids| == |Parts(expr)|
      && (forall i :: 0 <= i < |kids| ==>
           && kids[i].expr == Parts(expr)[i]
           && kids[i].repr <= repr
           && this !in kids[i].repr
           && kids[i].expr < expr
           && kids[i].Valid())
      && Unshared(kids)
    }

    ghost predicate Idle()
      reads this
    {
      firstFailed == null && firstSuccessful == null && transformedValue == Nil && !wasTransformed
    }

    // No object of the tree has been matched.
    ghost predicate Unmatched()
      reads repr
    {
      forall n :: n in repr ==> n.Idle()
    }

    // The state of a tree after one match on a value.
    ghost predicate Matched(w: World, x: Value)
      requires Valid()
      reads this, repr
      decreases expr
    {
      match expr
      case Check(_) => true
      case Collect(_, _) => true
      case Not(inner) => kids[0].Matched(w, x)
      case Transform(t, inner) =>
        var (y, err) := w.transform(t, x);
        && transformedValue == y
        && wasTransformed == (y != x)
        && (if err.Some? then kids[0].Unmatched() else kids[0].Matched(w, y))
      case And(_) => GroupMatched(w, x)
      case Or(_) => GroupMatched(w, x)
    }

    // A group remembers only the child that decided it, and later children were not reached.
    ghost predicate GroupMatched(w: World, x: Value)
      requires Valid() && (expr.And? || expr.Or?)
      reads this, repr
      decreases expr, 0
    {
      var i := Decider(w, expr, Some(x));
      && (expr.And? ==> firstFailed == if i < |kids| then kids[i] else null)
      && (expr.Or? ==> firstSuccessful == if i < |kids| then kids[i] else null)
      && (i < |kids| ==> kids[i].Matched(w, x))
    }

    // What is known of the tree: matched on a value, or never.
    ghost predicate After(w: World, ran: Option<Value>)
      requires Valid()
      reads this, repr
    {
      if ran.Some? then Matched(w, ran.value) else Unmatched()
    }

    constructor (expr: Expr, kids: seq<Node>)
      requires |kids| == |Parts(expr)|
      requires forall i :: 0 <= i < |kids| ==> kids[i].Valid() && kids[i].expr == Parts(expr)[i] && kids[i].expr < expr
      requires forall i :: 0 <= i < |kids| ==> kids[i].Unmatched()
      requires Unshared(kids)
      ensures Valid() && Unmatched()
      ensures this.expr == expr && this.kids == kids && repr == {this} + ReprOf(kids)
    {
      this.expr := expr;
      this.kids := kids;
      this.repr := {this} + ReprOf(kids);
      firstFailed := null;
      firstSuccessful := null;
      transformedValue := Nil;
      wasTransformed := false;
    }

    /** Matching has the outcome of the expression and leaves the state a report relies on. */
    method Match(w: World, x: Value) returns (o: Outcome)
      requires Valid() && Unmatched()
      modifies repr
      ensures o == Eval(w, expr, x)
      ensures Matched(w, x)
      decreases expr
    {
      match expr
      case Check(leaf) =>
        o := w.check(leaf, x);
      case Collect(kind, children) =>
        o := w.collect(kind, Meanings(w, children), x);
      case Not(_) =>
        o := kids[0].Match(w, x);
        o := Negate(o);
      case Transform(t, _) =>
        var (y, err) := w.transform(t, x);
        transformedValue := y;
        if x != y {
          wasTransformed := true;
        }
        if err.Some? {
          o := Error(err.value);
        } else {
          o := kids[0].Match(w, y);
        }
      case And(_) =>
        o := MatchAnd(w, x);
      case Or(_) =>
        o := MatchOr(w, x);
    }

    // The children from a position on have not been reached.
    ghost predicate NotReached(i: nat)
      requires Valid()
      reads repr
    {
      forall j :: i <= j < |kids| ==> kids[j].Unmatched()
    }

    method MatchChild(w: World, x: Value, i: nat) returns (o: Outcome)
      requires Valid() && i < |kids| && NotReached(i)
      modifies kids[i].repr
      ensures o == Eval(w, Parts(expr)[i], x)
      ensures kids[i].Matched(w, x) && NotReached(i + 1)
      decreases expr, 0
    {
      o := kids[i].Match(w, x);
    }

    // The loop of both groups: match the children in order up to the first with another outcome.
    method MatchUntil(w: World, x: Value, expected: Outcome) returns (i: nat, o: Outcome)
      requires Valid() && Unmatched()
      modifies repr - {this}
      ensures i == FirstOther(w, Parts(expr), x, expected) <= |kids|
      ensures o == if i < |kids| then Eval(w, Parts(expr)[i], x) else expected
      ensures i < |kids| ==> kids[i].Matched(w, x)
      decreases expr, 1
    {
      ghost var es := Parts(expr);
      i, o := 0, expected;
      assert es[0..] == es;
      while i < |kids|
        invariant i <= |kids| == |es| && o == expected
        invariant FirstOther(w, es, x, expected) == i + FirstOther(w, es[i..], x, expected)
        invariant NotReached(i)
      {
        NextChild(w, es, x, i, expected);
        o := MatchChild(w, x, i);
        if o != expected {
          break;
        }
        i := i + 1;
      }
    }

    method MatchAnd(w: World, x: Value) returns (o: Outcome)
      requires Valid() && Unmatched() && expr.And?
      modifies repr
      ensures o == EvalAnd(w, expr.all, x)
      ensures GroupMatched(w, x)
      decreases expr, 2
    {
      firstFailed := null;
      var i;
      i, o := MatchUntil(w, x, True);
      AndDecidedAt(w, expr.all, x, i);
      if i < |kids| {
        firstFailed := kids[i];
      }
    }

    method MatchOr(w: World, x: Value) returns (o: Outcome)
      requires Valid() && Unmatched() && expr.Or?
      modifies repr
      ensures o == EvalOr(w, expr.any, x)
      ensures GroupMatched(w, x)
      decreases expr, 2
    {
      firstSuccessful := null;
      var i;
      i, o := MatchUntil(w, x, False);
      OrDecidedAt(w, expr.any, x, i);
      if o == True {
        firstSuccessful := kids[i];
      }
    }

    lemma Remembered(w: World, ran: Option<Value>)
      requires Valid() && After(w, ran) && (expr.And? || expr.Or?)
      ensures var i := Decider(w, expr, ran);
        && (expr.And? ==> firstFailed == if i < |kids| then kids[i] else null)
        && (expr.Or? ==> firstSuccessful == if i < |kids| then kids[i] else null)
        && (i < |kids| ==> ran.Some? && kids[i].Matched(w, ran.value))
    {
      if ran.Some? {
        assert GroupMatched(w, ran.value);
      } else {
        assert Idle();
      }
    }

    // The end of a chain of transforms, with the state the objects on the way hold.
    method FollowTransforms(ghost w: World, ghost ran: Option<Value>)
      returns (chain: seq<Transformer>, end: Node, value: Value, ghost endRan: Option<Value>)
      requires Valid() && After(w, ran) && expr.Transform?
      ensures Walk(end.expr, value, chain, endRan) == WalkFrom(w, expr, ran, Nil)
      ensures end.Valid() && end.After(w, endRan)
    {
      chain, end, value, endRan := [], this, transformedValue, ran;
      while end.expr.Transform?
        invariant end.Valid() && end.After(w, endRan)
        invariant WalkFrom(w, expr, ran, Nil) == Prefixed(chain, WalkFrom(w, end.expr, endRan, value))
        decreases end.expr
      {
        endRan := HandedOn(w, end.expr.transformer, endRan);
        value := end.transformedValue;
        var step := if end.wasTransformed then [end.expr.transformer] else [];
        PrefixedTwice(chain, step, WalkFrom(w, end.expr.inner, endRan, value));
        chain := chain + step;
        end := end.kids[0];
      }
    }

    /**
     FailureResult and, when negated, NegatedFailureResult: the report of the tree, whether it was
     matched or an enclosing transform failed first.
     */
    method Result(actual: Value, negated: bool, ghost w: World, ghost ran: Option<Value>) returns (r: Report)
      requires Valid() && After(w, ran)
      ensures r == Explain(w, expr, ran, actual, negated)
      decreases expr
    {
      match expr
      case Check(_) =>
        r := Report(expr, negated, actual, [], None);
      case Collect(_, _) =>
        r := Report(expr, negated, actual, [], None);
      case Not(_) =>
        r := kids[0].Result(actual, !negated, w, ran);
      case And(_) =>
        Remembered(w, ran);
        if negated || firstFailed == null {
          r := Report(expr, negated, actual, [], None);
        } else {
          r := firstFailed.Result(actual, negated, w, ran);
        }
      case Or(_) =>
        Remembered(w, ran);
        if !negated || firstSuccessful == null {
          r := Report(expr, negated, actual, [], None);
        } else {
          r := firstSuccessful.Result(actual, negated, w, ran);
        }
      case Transform(_, _) =>
        var chain, end, value, endRan := FollowTransforms(w, ran);
        r := end.Result(value, negated, w, endRan);
        r := r.(chain := chain, untransformed := Some(actual));
    }
  }

  ghost function ReprOf(kids: seq<Node>): set<Node> {
    set k, n | k in kids && n in k.repr :: n
  }

  lemma NextChild(w: World, es: seq<Expr>, x: Value, i: nat, o: Outcome)
    requires i < |es|
    ensures FirstOther(w, es[i..], x, o) ==
      if Eval(w, es[i], x) == o then 1 + FirstOther(w, es[i + 1..], x, o) else 0
  {
    assert es[i..][0] == es[i] && es[i..][1..] == es[i + 1..];
  }

  ghost predicate Unshared(kids: seq<Node>) {
    forall i, j :: 0 <= i < j < |kids| ==> kids[i].repr !! kids[j].repr
  }

  /** One object for each part of an expression, none matched yet. */
  method Plant(e: Expr) returns (n: Node)
    ensures n.Valid() && n.Unmatched() && n.expr == e
    ensures fresh(n.repr)
    decreases e
  {
    forall i | 0 <= i < |Parts(e)|
      ensures Parts(e)[i] < e
    {
      PartIsSmaller(e, i);
    }
    var kids := PlantAll(e, Parts(e));
    n := new Node(e, kids);
  }

  method PlantAll(ghost e: Expr, es: seq<Expr>) returns (kids: seq<Node>)
    requires forall i :: 0 <= i < |es| ==> es[i] < e
    ensures |kids| == |es|
    ensures forall i :: 0 <= i < |kids| ==> kids[i].Valid() && kids[i].Unmatched() && kids[i].expr == es[i]
    ensures forall i :: 0 <= i < |kids| ==> fresh(kids[i].repr)
    ensures Unshared(kids)
    decreases e, |es|
  {
    if es == [] {
      kids := [];
    } else {
      var first := Plant(es[0]);
      var rest := PlantAll(e, es[1..]);
      kids := [first] + rest;
    }
  }

  /**
   A check: match a new tree and, unless it holds, ask for its report. The verdict is that of the
   expression; a tree that does not hold is blamed on a part of it that does not hold of the value shown.
   */
  method Examine(e: Expr, w: World, x: Value) returns (o: Outcome, report: Option<Report>)
    ensures o == Eval(w, e, x)
    ensures report.Some? <==> o != True
    ensures report.Some? ==> report.value == Explain(w, e, Some(x), x, false) && Within(report.value.subject, e)
    ensures o == False ==> AsReported(w, report.value)
  {
    var n := Plant(e);
    o := n.Match(w, x);
    if o == True {
      report := None;
    } else {
      var r := n.Result(x, false, w, Some(x));
      ReportsAPart(w, e, Some(x), x, false);
      if o == False {
        BlameIsDeserved(w, e, x, false);
      }
      report := Some(r);
    }
  }
}
