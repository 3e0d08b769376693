/**
 The have-patterns matcher: one scan over the lines, with the patterns still undecided filtered in
 place, against its meaning pattern by pattern.
 */
module HavePatterns {
  import opened Wrappers
  import opened Seqs
  import opened PatternSyntax

  predicate Matches(engine: Engine, p: Pattern, line: string) {
    match p
    case Text(_, clean, _) => Contains(line, clean)
    case Regex(_, expression, _) => engine.matches(expression, line)
  }

  // ---------- what the matcher means ----------

  ghost predicate SomeLine(engine: Engine, p: Pattern, lines: seq<string>) {
    exists i :: 0 <= i < |lines| && Matches(engine, p, lines[i])
  }

  // An inverse pattern wants no line to match; any other wants one, or is empty.
  ghost predicate Satisfied(engine: Engine, p: Pattern, lines: seq<string>) {
    if p.inverse then !SomeLine(engine, p, lines) else SomeLine(engine, p, lines) || p.pattern == ""
  }

  ghost predicate AllSatisfied(engine: Engine, elements: seq<string>, lines: seq<string>) {
    forall i :: 0 <= i < |elements| ==> Satisfied(engine, Parse(elements[i]), lines)
  }

  ghost function IsMissing(engine: Engine, lines: seq<string>): string -> bool {
    e => !Satisfied(engine, Parse(e), lines)
  }

  // The unsatisfied elements in order, repetitions included.
  ghost function Unsatisfied(engine: Engine, elements: seq<string>, lines: seq<string>): seq<string> {
    Kept(elements, IsMissing(engine, lines))
  }

  // ---------- one line ----------

  // What one line leaves undecided, and what it finds.
  ghost function Undecided(engine: Engine, ps: seq<Pattern>, line: string): seq<Pattern> {
    if ps == [] then []
    else
      var p := ps[|ps| - 1];
      var before := Undecided(engine, ps[..|ps| - 1], line);
      if Matches(engine, p, line) then before else before + [p]
  }

  ghost function Found(engine: Engine, ps: seq<Pattern>, line: string): seq<Pattern> {
    if ps == [] then []
    else
      var p := ps[|ps| - 1];
      var before := Found(engine, ps[..|ps| - 1], line);
      if Matches(engine, p, line) && !p.inverse then before + [p] else before
  }

  /**
   The scan of one line: the patterns in notfound[..n] that do not match are moved to the front of the
   same array, over the ones already read.
   */
  method ScanLine(engine: Engine, notfound: array<Pattern>, n: nat, line: string, found0: seq<Pattern>)
    returns (i: nat, found: seq<Pattern>)
    requires n <= notfound.Length
    modifies notfound
    ensures i <= n && notfound[..i] == Undecided(engine, old(notfound[..n]), line)
    ensures found == found0 + Found(engine, old(notfound[..n]), line)
  {
    ghost var ps := notfound[..n];
    i, found := 0, found0;
    for k := 0 to n
      invariant i <= k && forall j :: k <= j < n ==> notfound[j] == ps[j]
      invariant notfound[..i] == Undecided(engine, ps[..k], line)
      invariant found == found0 + Found(engine, ps[..k], line)
    {
      var pat := notfound[k];
      assert ps[..k + 1][..k] == ps[..k];
      if Matches(engine, pat, line) {
        if !pat.inverse {
          found := found + [pat];
        }
        continue;
      }
      ghost var kept := notfound[..i];
      notfound[i] := pat;
      i := i + 1;
      assert notfound[..i] == kept + [pat];
    }
    assert ps[..n] == ps;
  }

  // ---------- counting ----------

  // How often p is still undecided, and how often found, after some of the lines.
  ghost predicate Tally(
    engine: Engine, ps: seq<Pattern>, seen: seq<string>, left: seq<Pattern>, found: seq<Pattern>, p: Pattern)
  {
    && multiset(left)[p] == (if SomeLine(engine, p, seen) then 0 else multiset(ps)[p])
    && multiset(found)[p] == (if SomeLine(engine, p, seen) && !p.inverse then multiset(ps)[p] else 0)
  }

  lemma {:induction false} LineCounts(engine: Engine, ps: seq<Pattern>, line: string, p: Pattern)
    ensures multiset(Undecided(engine, ps, line))[p] == if Matches(engine, p, line) then 0 else multiset(ps)[p]
    ensures multiset(Found(engine, ps, line))[p] ==
      if Matches(engine, p, line) && !p.inverse then multiset(ps)[p] else 0
  {
    if ps != [] {
      var n := |ps| - 1;
      LineCounts(engine, ps[..n], line, p);
      assert ps == ps[..n] + [ps[n]];
    }
  }

  lemma SomeLineGrows(engine: Engine, p: Pattern, seen: seq<string>, line: string)
    ensures SomeLine(engine, p, seen + [line]) <==> SomeLine(engine, p, seen) || Matches(engine, p, line)
  {
    var all := seen + [line];
    if SomeLine(engine, p, seen) {
      var i :| 0 <= i < |seen| && Matches(engine, p, seen[i]);
      assert all[i] == seen[i];
    }
    assert all[|seen|] == line;
  }

  lemma TallyLine(engine: Engine, ps: seq<Pattern>, seen: seq<string>, left: seq<Pattern>, found: seq<Pattern>,
                  line: string, p: Pattern)
    requires Tally(engine, ps, seen, left, found, p)
    ensures Tally(engine, ps, seen + [line], Undecided(engine, left, line), found + Found(engine, left, line), p)
  {
    LineCounts(engine, left, line, p);
    SomeLineGrows(engine, p, seen, line);
  }

  // When nothing is left to decide, the remaining lines change nothing.
  lemma TallyEarly(engine: Engine, ps: seq<Pattern>, lines: seq<string>, k: nat, found: seq<Pattern>, p: Pattern)
    requires k <= |lines| && Tally(engine, ps, lines[..k], [], found, p)
    ensures Tally(engine, ps, lines, [], found, p)
  {
    if SomeLine(engine, p, lines[..k]) {
      var i :| 0 <= i < k && Matches(engine, p, lines[..k][i]);
      assert lines[i] == lines[..k][i];
    }
  }

  // What the end of the input finds: inverse patterns and empty ones.
  function FoundAtEnd(left: seq<Pattern>): seq<Pattern> {
    if left == [] then []
    else
      var p := left[|left| - 1];
      var before := FoundAtEnd(left[..|left| - 1]);
      if p.inverse || p.pattern == "" then before + [p] else before
  }

  lemma {:induction false} EndCounts(left: seq<Pattern>, p: Pattern)
    ensures multiset(FoundAtEnd(left))[p] == if p.inverse || p.pattern == "" then multiset(left)[p] else 0
  {
    if left != [] {
      var n := |left| - 1;
      EndCounts(left[..n], p);
      assert left == left[..n] + [left[n]];
    }
  }

  // Found exactly as often as it was asked for, if satisfied, and never otherwise.
  ghost predicate Final(engine: Engine, ps: seq<Pattern>, lines: seq<string>, found: seq<Pattern>, p: Pattern) {
    multiset(found)[p] == if Satisfied(engine, p, lines) then multiset(ps)[p] else 0
  }

  lemma TallyEnds(
    engine: Engine, ps: seq<Pattern>, lines: seq<string>, left: seq<Pattern>, found: seq<Pattern>, p: Pattern)
    requires Tally(engine, ps, lines, left, found, p)
    ensures Final(engine, ps, lines, found + FoundAtEnd(left), p)
  {
    EndCounts(left, p);
  }

  lemma SubMultisetSize<T>(a: multiset<T>, b: multiset<T>)
    requires a <= b && |a| == |b|
    ensures a == b
  {
    assert b == a + (b - a);
    assert |b - a| == 0;
  }

  // The matcher only compares two lengths; that is enough.
  lemma LengthsDecide(engine: Engine, ps: seq<Pattern>, lines: seq<string>, found: seq<Pattern>)
    requires forall p :: Final(engine, ps, lines, found, p)
    ensures |found| == |ps| <==> forall i :: 0 <= i < |ps| ==> Satisfied(engine, ps[i], lines)
  {
    assert forall p :: Final(engine, ps, lines, found, p) ==> multiset(found)[p] <= multiset(ps)[p];
    assert multiset(found) <= multiset(ps);
    assert |multiset(found)| == |found| && |multiset(ps)| == |ps|;
    if |found| == |ps| {
      SubMultisetSize(multiset(found), multiset(ps));
      forall i | 0 <= i < |ps|
        ensures Satisfied(engine, ps[i], lines)
      {
        assert ps[i] in multiset(ps) && Final(engine, ps, lines, found, ps[i]);
      }
    }
    if forall i :: 0 <= i < |ps| ==> Satisfied(engine, ps[i], lines) {
      forall p
        ensures multiset(found)[p] == multiset(ps)[p]
      {
        assert Final(engine, ps, lines, found, p);
        if p in multiset(ps) {
          var i :| 0 <= i < |ps| && ps[i] == p;
        }
      }
      assert multiset(found) == multiset(ps);
    }
  }

  method Scan(engine: Engine, ps: seq<Pattern>, lines: seq<string>) returns (found: seq<Pattern>)
    ensures forall p :: Final(engine, ps, lines, found, p)
  {
    var notfound := new Pattern[|ps|](i requires 0 <= i < |ps| => ps[i]);
    var n: nat := |ps|;
    assert notfound[..n] == ps;
    found := [];
    var k := 0;
    ghost var seen := [];
    while k < |lines|
      invariant 0 <= k <= |lines| && n <= notfound.Length && seen == lines[..k]
      invariant forall p :: Tally(engine, ps, seen, notfound[..n], found, p)
    {
      ghost var left, before := notfound[..n], found;
      n, found := ScanLine(engine, notfound, n, lines[k], found);
      ghost var now := seen + [lines[k]];
      forall p
        ensures Tally(engine, ps, now, notfound[..n], found, p)
      {
        TallyLine(engine, ps, seen, left, before, lines[k], p);
      }
      TakeNext(lines, k);
      seen := now;
      k := k + 1;
      if n == 0 {
        break;
      }
    }
    forall p
      ensures Tally(engine, ps, lines, notfound[..n], found, p)
    {
      assert Tally(engine, ps, seen, notfound[..n], found, p);
      if n == 0 {
        TallyEarly(engine, ps, lines, k, found, p);
      } else {
        TakeAll(lines);
      }
    }
    ghost var left, before := notfound[..n], found;
    for i := 0 to n
      invariant notfound[..n] == left && found == before + FoundAtEnd(left[..i])
    {
      var pat := notfound[i];
      assert pat == left[i] && left[..i + 1][..i] == left[..i];
      if pat.inverse || pat.pattern == "" {
        found := found + [pat];
      }
    }
    TakeAll(left);
    forall p
      ensures Final(engine, ps, lines, found, p)
    {
      TallyEnds(engine, ps, lines, left, before, p);
    }
  }

  // ---------- reporting ----------

  function PatternTexts(ps: seq<Pattern>): seq<string> {
    seq(|ps|, i requires 0 <= i < |ps| => ps[i].pattern)
  }

  method PatternsToSlice(ps: seq<Pattern>) returns (slice: seq<string>)
    ensures slice == PatternTexts(ps)
  {
    slice := [];
    for i := 0 to |ps|
      invariant |slice| == i && forall k :: 0 <= k < i ==> slice[k] == ps[k].pattern
    {
      slice := slice + [ps[i].pattern];
    }
  }

  function NotIn(m: set<string>): string -> bool {
    s => s !in m
  }

  method SubtractSlice(x: seq<string>, y: seq<string>) returns (ret: seq<string>)
    ensures ret == Kept(x, NotIn(set s | s in y))
  {
    var m: set<string> := {};
    for i := 0 to |y|
      invariant m == set s | s in y[..i]
    {
      TakeNext(y, i);
      m := m + {y[i]};
    }
    TakeAll(y);
    ret := [];
    for i := 0 to |x|
      invariant ret == Kept(x[..i], NotIn(m))
    {
      TakeNext(x, i);
      assert x[..i + 1][..i] == x[..i];
      if x[i] in m {
        continue;
      }
      ret := ret + [x[i]];
    }
    TakeAll(x);
  }

  ghost predicate Parsed(strings: seq<string>, ps: seq<Pattern>) {
    |ps| == |strings| && forall i :: 0 <= i < |ps| ==> ps[i] == Parse(strings[i])
  }

  lemma FoundTexts(
    engine: Engine, strings: seq<string>, ps: seq<Pattern>, lines: seq<string>, found: seq<Pattern>,
    s: string)
    requires Parsed(strings, ps) && forall p :: Final(engine, ps, lines, found, p)
    ensures s in PatternTexts(found) <==> s in strings && Satisfied(engine, Parse(s), lines)
  {
    if s in PatternTexts(found) {
      var i :| 0 <= i < |found| && found[i].pattern == s;
      assert found[i] in multiset(found) && Final(engine, ps, lines, found, found[i]);
      assert found[i] in multiset(ps);
      var j :| 0 <= j < |ps| && ps[j] == found[i];
    }
    if s in strings && Satisfied(engine, Parse(s), lines) {
      var j :| 0 <= j < |strings| && strings[j] == s;
      assert ps[j] in multiset(ps) && Final(engine, ps, lines, found, Parse(s));
      assert Parse(s) in multiset(found);
      var i :| 0 <= i < |found| && found[i] == Parse(s);
      assert PatternTexts(found)[i] == s;
    }
  }

  method Report(engine: Engine, strings: seq<string>, ghost ps: seq<Pattern>, ghost lines: seq<string>,
                found: seq<Pattern>, missing0: seq<string>)
    returns (success: bool, foundSlice: seq<string>, missing: seq<string>)
    requires Parsed(strings, ps) && forall p :: Final(engine, ps, lines, found, p)
    ensures success <==> AllSatisfied(engine, strings, lines)
    ensures missing == if success then missing0 else Unsatisfied(engine, strings, lines)
    ensures forall s :: s in foundSlice <==> s in strings && Satisfied(engine, Parse(s), lines)
  {
    foundSlice := PatternsToSlice(found);
    forall s
      ensures s in foundSlice <==> s in strings && Satisfied(engine, Parse(s), lines)
    {
      FoundTexts(engine, strings, ps, lines, found, s);
    }
    LengthsDecide(engine, ps, lines, found);
    missing := missing0;
    if |strings| != |found| {
      missing := SubtractSlice(strings, foundSlice);
      KeptAlike(strings, NotIn(set s | s in foundSlice), IsMissing(engine, lines));
      return false, foundSlice, missing;
    }
    return true, foundSlice, missing;
  }

  // ---------- the matcher ----------

  // An entry of the elements list, and the value under test.
  datatype Element = StringElement(s: string) | OtherElement
  datatype Actual = Lines(lines: seq<string>) | WrongType

  datatype MatchError = NotAnArray | NotAString | BadExpression(expression: string) | IncorrectType

  class HavePatternsMatcher {
    const elements: Option<seq<Element>>
    var missingElements: seq<string>
    var foundElements: seq<string>

    constructor (elements: Option<seq<Element>>)
      ensures this.elements == elements
    {
      this.elements := elements;
      missingElements, foundElements := [], [];
    }

    ghost predicate AllStrings()
      requires elements.Some?
    {
      forall i :: 0 <= i < |elements.value| ==> elements.value[i].StringElement?
    }

    ghost function Strings(): seq<string>
      requires elements.Some? && AllStrings()
    {
      seq(|elements.value|, i requires 0 <= i < |elements.value| => elements.value[i].s)
    }

    /**
     Succeeds with true exactly when every pattern is satisfied; on failure the missing elements are
     exactly the unsatisfied ones, and the found elements exactly the satisfied ones.
     */
    method Match(engine: Engine, actual: Actual) returns (r: Result<bool, MatchError>)
      modifies this
      ensures elements.None? ==> r == Failure(NotAnArray)
      ensures elements.Some? && !AllStrings() ==> r == Failure(NotAString)
      ensures elements.Some? && AllStrings() ==>
        (if exists i :: 0 <= i < |Strings()| && !Compiles(engine, Strings()[i])
           then r.Failure? && r.error.BadExpression?
         else if Strings() == [] then r == Success(true)
         else if actual.WrongType? then r == Failure(IncorrectType)
         else
           && r == Success(AllSatisfied(engine, Strings(), actual.lines))
           && (r == Success(false) ==> missingElements == Unsatisfied(engine, Strings(), actual.lines))
           && (forall s :: s in foundElements <==> s in Strings() && Satisfied(engine, Parse(s), actual.lines)))
    {
      if elements.None? {
        return Failure(NotAnArray);
      }
      var t := elements.value;
      var strings: seq<string> := [];
      for i := 0 to |t|
        invariant |strings| == i
        invariant forall k :: 0 <= k < i ==> t[k] == StringElement(strings[k])
      {
        if t[i].OtherElement? {
          return Failure(NotAString);
        }
        strings := strings + [t[i].s];
      }
      assert AllStrings() && strings == Strings();
      var patterns := SliceToPatterns(engine, strings);
      if patterns.Failure? {
        return Failure(BadExpression(patterns.error));
      }
      if |patterns.value| == 0 {
        return Success(true);
      }
      if actual.WrongType? {
        return Failure(IncorrectType);
      }
      var found := Scan(engine, patterns.value, actual.lines);
      var success;
      success, foundElements, missingElements :=
        Report(engine, strings, patterns.value, actual.lines, found, missingElements);
      return Success(success);
    }
  }

  // ---------- one pattern ----------

  lemma OneSatisfied(engine: Engine, s: string, lines: seq<string>)
    ensures AllSatisfied(engine, [s], lines) <==> Satisfied(engine, Parse(s), lines)
  {
    assert [s][0] == s;
  }

  lemma EmptySatisfied(engine: Engine, s: string, lines: seq<string>)
    requires s == ""
    ensures Compiles(engine, s) && AllSatisfied(engine, [s], lines)
  {
    assert !HasPrefix(s, '!') && TrimPrefix(s, '!') == s && !IsRegex(s);
    OneSatisfied(engine, s, lines);
  }

  // HavePatterns with one element, and its match.
  method MatchOne(engine: Engine, s: string, lines: seq<string>) returns (r: Result<bool, MatchError>)
    ensures r.Failure? <==> !Compiles(engine, s)
    ensures r.Success? ==> r.value == AllSatisfied(engine, [s], lines)
    ensures s == "" ==> r == Success(true)
  {
    var matcher := new HavePatternsMatcher(Some([StringElement(s)]));
    assert matcher.AllStrings() && matcher.Strings() == [s];
    r := matcher.Match(engine, Lines(lines));
    if s == "" {
      EmptySatisfied(engine, s, lines);
    }
  }

  /**
   A single regular expression, as it is written: the flags reach the engine in front of the body, and the
   match succeeds exactly when some line matches, or with the mark when none does.
   */
  method MatchRegex(engine: Engine, inverse: bool, body: string, flags: string, lines: seq<string>)
    returns (r: Result<bool, MatchError>)
    requires forall i :: 0 <= i < |flags| ==> flags[i] in {'i', 'm', 's'}
    ensures
      var expression := if flags == "" then body else "(?" + flags + ")" + body;
      && (r.Failure? <==> !engine.compiles(expression))
      && (r.Success? && !inverse ==>
           (r.value <==> exists i :: 0 <= i < |lines| && engine.matches(expression, lines[i])))
      && (r.Success? && inverse ==>
           (r.value <==> forall i :: 0 <= i < |lines| ==> !engine.matches(expression, lines[i])))
  {
    var s := (if inverse then "!" else "") + "/" + body + "/" + flags;
    RegexParses(inverse, body, flags);
    r := MatchOne(engine, s, lines);
    if r.Success? {
      OneSatisfied(engine, s, lines);
    }
  }

  /** A single literal text: some line contains it, or with the mark none does. */
  method MatchText(engine: Engine, inverse: bool, text: string, lines: seq<string>)
    returns (r: Result<bool, MatchError>)
    ensures r.Success?
    ensures !inverse ==> (r.value <==> exists i, before, after ::
      0 <= i < |lines| && lines[i] == before + text + after)
    ensures inverse ==> (r.value <==> forall i, before, after ::
      0 <= i < |lines| ==> lines[i] != before + text + after)
  {
    var s := (if inverse then "!" else "") + ("\\" + text);
    TextParses(inverse, text);
    r := MatchOne(engine, s, lines);
    OneSatisfied(engine, s, lines);
    forall i | 0 <= i < |lines|
      ensures Contains(lines[i], text) <==> exists before, after :: lines[i] == before + text + after
    {
      ContainsMeans(lines[i], text);
    }
  }
}
