/**
 Suggesting a legal top-level key for a misspelt one. Two strings are as far apart as the fewest
 single-character edits, made one after another anywhere in the string, that turn one into the other.
 */
module EditDistance {
  import opened Ordering
  import opened Seqs

  // ---------- edits ----------

  datatype Edit = Insert(at: nat, c: char) | Delete(at: nat) | Substitute(at: nat, c: char)

  ghost predicate Applicable(edit: Edit, s: string) {
    if edit.Insert? then edit.at <= |s| else edit.at < |s|
  }

  ghost function ApplyEdit(edit: Edit, s: string): string
    requires Applicable(edit, s)
  {
    match edit
    case Insert(i, c) => s[..i] + [c] + s[i..]
    case Delete(i) => s[..i] + s[i + 1..]
    case Substitute(i, c) => s[i := c]
  }

  // Whether the edits, made in order, turn a into b.
  ghost predicate Turns(edits: seq<Edit>, a: string, b: string) {
    if edits == [] then a == b
    else Applicable(edits[0], a) && Turns(edits[1..], ApplyEdit(edits[0], a), b)
  }

  ghost predicate IsDistance(a: string, b: string, d: nat) {
    && (exists edits :: Turns(edits, a, b) && |edits| == d)
    && (forall edits :: Turns(edits, a, b) ==> d <= |edits|)
  }

  // ---------- the recurrence ----------

  function Min(x: nat, y: nat): nat {
    if x < y then x else y
  }

  function Init(s: string): string
    requires s != []
  {
    s[..|s| - 1]
  }

  function Last(s: string): char
    requires s != []
  {
    s[|s| - 1]
  }

  function Distance(a: string, b: string): nat
    decreases |a| + |b|
  {
    if a == [] then |b|
    else if b == [] then |a|
    else
      Min(Min(Distance(Init(a), b) + 1, Distance(a, Init(b)) + 1),
          Distance(Init(a), Init(b)) + if Last(a) == Last(b) then 0 else 1)
  }

  // ---------- no script is shorter ----------

  lemma {:induction false} DropLastOfFirst(x: string, c: char, b: string)
    ensures Distance(x, b) <= Distance(x + [c], b) + 1
    decreases |b|
  {
    assert Init(x + [c]) == x;
    if b != [] {
      DropLastOfFirst(x, c, Init(b));
    } else {
      DistanceToEmpty(x);
      DistanceToEmpty(x + [c]);
    }
  }

  lemma DistanceToEmpty(x: string)
    ensures Distance(x, []) == |x|
  {
  }

  lemma OneMoreFirst(x: string, b: string)
    requires x != []
    ensures Distance(x, b) <= Distance(Init(x), b) + 1
  {
  }

  lemma {:induction false} ChangeLast(x: string, c: char, c': char, b: string)
    ensures Distance(x + [c], b) <= Distance(x + [c'], b) + 1
    decreases |b|
  {
    assert Init(x + [c]) == x && Init(x + [c']) == x;
    if b != [] {
      ChangeLast(x, c, c', Init(b));
    }
  }

  // An edit further left stays a single edit when the same character follows both strings.
  lemma {:induction false} SameLast(x: string, x': string, c: char, b: string)
    requires forall b' :: Distance(x, b') <= Distance(x', b') + 1
    ensures Distance(x + [c], b) <= Distance(x' + [c], b) + 1
    decreases |b|
  {
    assert Init(x + [c]) == x && Init(x' + [c]) == x';
    assert Distance(x, b) <= Distance(x', b) + 1;
    if b != [] {
      SameLast(x, x', c, Init(b));
      assert Distance(x, Init(b)) <= Distance(x', Init(b)) + 1;
    } else {
      DistanceToEmpty(x);
      DistanceToEmpty(x');
    }
  }

  lemma {:induction false} EditChangesByOne(edit: Edit, x: string, b: string)
    requires Applicable(edit, x)
    ensures Distance(x, b) <= Distance(ApplyEdit(edit, x), b) + 1
    decreases |x|
  {
    var y := ApplyEdit(edit, x);
    if edit.Insert? && edit.at == |x| {
      assert y == x + [edit.c];
      DropLastOfFirst(x, edit.c, b);
    } else {
      var z := Init(x);
      assert x == z + [Last(x)];
      if edit.at < |z| || edit.Insert? {
        assert y == ApplyEdit(edit, z) + [Last(x)];
        forall b'
          ensures Distance(z, b') <= Distance(ApplyEdit(edit, z), b') + 1
        {
          EditChangesByOne(edit, z, b');
        }
        SameLast(z, ApplyEdit(edit, z), Last(x), b);
      } else if edit.Delete? {
        assert y == z;
        OneMoreFirst(x, b);
      } else {
        assert y == z + [edit.c];
        ChangeLast(z, Last(x), edit.c, b);
      }
    }
  }

  lemma {:induction false} NoShorterScript(edits: seq<Edit>, a: string, b: string)
    requires Turns(edits, a, b)
    ensures Distance(a, b) <= |edits|
  {
    if edits == [] {
      DistanceToSelf(a);
    } else {
      var a' := ApplyEdit(edits[0], a);
      NoShorterScript(edits[1..], a', b);
      EditChangesByOne(edits[0], a, b);
    }
  }

  lemma {:induction false} DistanceToSelf(a: string)
    ensures Distance(a, a) == 0
  {
    if a != [] {
      DistanceToSelf(Init(a));
    }
  }

  // ---------- some script is that short ----------

  lemma {:induction false} ScriptUnderSuffix(edits: seq<Edit>, a: string, b: string, c: char)
    requires Turns(edits, a, b)
    ensures Turns(edits, a + [c], b + [c])
  {
    if edits != [] {
      var a' := ApplyEdit(edits[0], a);
      assert ApplyEdit(edits[0], a + [c]) == a' + [c];
      ScriptUnderSuffix(edits[1..], a', b, c);
    }
  }

  lemma {:induction false} ScriptThen(edits: seq<Edit>, a: string, b: string, edit: Edit)
    requires Turns(edits, a, b) && Applicable(edit, b)
    ensures Turns(edits + [edit], a, ApplyEdit(edit, b))
  {
    if edits == [] {
      assert ([edit])[1..] == [];
    } else {
      ScriptThen(edits[1..], ApplyEdit(edits[0], a), b, edit);
      assert (edits + [edit])[1..] == edits[1..] + [edit];
    }
  }

  lemma InsertAtEnd(script: seq<Edit>, a: string, b: string) returns (edits: seq<Edit>)
    requires b != [] && Turns(script, a, Init(b))
    ensures Turns(edits, a, b) && |edits| == |script| + 1
  {
    var edit := Insert(|b| - 1, Last(b));
    ScriptThen(script, a, Init(b), edit);
    assert ApplyEdit(edit, Init(b)) == b;
    edits := script + [edit];
  }

  lemma DeleteFromEnd(script: seq<Edit>, a: string, b: string) returns (edits: seq<Edit>)
    requires a != [] && Turns(script, Init(a), b)
    ensures Turns(edits, a, b) && |edits| == |script| + 1
  {
    var edit := Delete(|a| - 1);
    assert ApplyEdit(edit, a) == Init(a);
    edits := [edit] + script;
    assert edits[1..] == script;
  }

  lemma SubstituteLast(x: string, c: char, c': char)
    ensures ApplyEdit(Substitute(|x|, c'), x + [c]) == x + [c']
  {
  }

  lemma OneMoreEdit(script: seq<Edit>, a: string, almost: string, edit: Edit, b: string) returns (edits: seq<Edit>)
    requires Turns(script, a, almost) && Applicable(edit, almost) && ApplyEdit(edit, almost) == b
    ensures Turns(edits, a, b) && |edits| == |script| + 1
  {
    ScriptThen(script, a, almost, edit);
    edits := script + [edit];
  }

  lemma ReplaceAtEnd(script: seq<Edit>, a: string, b: string) returns (edits: seq<Edit>)
    requires a != [] && b != [] && Turns(script, Init(a), Init(b))
    ensures Turns(edits, a, b) && |edits| == |script| + if Last(a) == Last(b) then 0 else 1
  {
    KeepLast(script, a, Init(b));
    SubstituteLast(Init(b), Last(a), Last(b));
    assert Init(b) + [Last(b)] == b;
    if Last(a) == Last(b) {
      edits := script;
    } else {
      edits := OneMoreEdit(script, a, Init(b) + [Last(a)], Substitute(|b| - 1, Last(b)), b);
    }
  }

  lemma KeepLast(script: seq<Edit>, a: string, b: string)
    requires a != [] && Turns(script, Init(a), b)
    ensures Turns(script, a, b + [Last(a)])
  {
    ScriptUnderSuffix(script, Init(a), b, Last(a));
    assert Init(a) + [Last(a)] == a;
  }

  lemma {:induction false} SomeScript(a: string, b: string) returns (edits: seq<Edit>)
    ensures Turns(edits, a, b) && |edits| == Distance(a, b)
    decreases |a| + |b|
  {
    if a == [] && b == [] {
      edits := [];
    } else if a == [] || (b != [] && Distance(a, b) == Distance(a, Init(b)) + 1) {
      var script := SomeScript(a, Init(b));
      edits := InsertAtEnd(script, a, b);
    } else if b == [] || Distance(a, b) == Distance(Init(a), b) + 1 {
      var script := SomeScript(Init(a), b);
      edits := DeleteFromEnd(script, a, b);
    } else {
      var script := SomeScript(Init(a), Init(b));
      edits := ReplaceAtEnd(script, a, b);
    }
  }

  /** The recurrence is the length of a shortest edit script. */
  lemma DistanceIsShortest(a: string, b: string)
    ensures IsDistance(a, b, Distance(a, b))
  {
    var edits := SomeScript(a, b);
    forall other | Turns(other, a, b)
      ensures Distance(a, b) <= |other|
    {
      NoShorterScript(other, a, b);
    }
  }

  // ---------- the two-row program ----------

  // The distances from x to every prefix of b, shortest prefix first.
  ghost function Row(x: string, b: string): (row: seq<int>)
    ensures |row| == |b| + 1
  {
    seq(|b| + 1, j requires 0 <= j <= |b| => Distance(x, b[..j]))
  }

  // How each cell of a row follows from its left neighbour and the row above.
  ghost predicate Follows(above: seq<int>, row: seq<int>, c: char, b: string) {
    && |above| == |row| == |b| + 1 && row[0] == above[0] + 1
    && forall j :: 1 <= j <= |b| ==> row[j] == Cell(above[j], row[j - 1], above[j - 1], c == b[j - 1])
  }

  function Cell(up: int, left: int, diagonal: int, same: bool): int {
    var m := if left + 1 < up + 1 then left + 1 else up + 1;
    var sub := diagonal + if same then 0 else 1;
    if sub < m then sub else m
  }

  lemma CellIsDistance(x: string, c: char, y: string)
    requires y != []
    ensures Distance(x + [c], y) ==
      Cell(Distance(x, y), Distance(x + [c], Init(y)), Distance(x, Init(y)), c == Last(y))
  {
    assert Init(x + [c]) == x;
  }

  lemma RowFollows(x: string, c: char, b: string)
    ensures Follows(Row(x, b), Row(x + [c], b), c, b)
  {
    DistanceToEmpty(x);
    DistanceToEmpty(x + [c]);
    assert b[..0] == [];
    forall j | 1 <= j <= |b|
      ensures Row(x + [c], b)[j] == Cell(Row(x, b)[j], Row(x + [c], b)[j - 1], Row(x, b)[j - 1], c == b[j - 1])
    {
      CellIsDistance(x, c, b[..j]);
      assert Init(b[..j]) == b[..j - 1];
    }
  }

  lemma FirstRow(b: string)
    ensures forall j :: 0 <= j <= |b| ==> Row([], b)[j] == j
  {
  }

  // The row above the first character: 0, 1, 2 and so on.
  method FirstPrev(b: string) returns (prev: array<int>)
    ensures fresh(prev) && prev.Length == |b| + 1 && prev[..] == Row([], b)
  {
    FirstRow(b);
    prev := new int[|b| + 1];
    for j := 0 to |b| + 1
      invariant forall k :: 0 <= k < j ==> prev[k] == k
    {
      prev[j] := j;
    }
  }

  // One round of the outer loop: the first cell, then the others.
  method NextCurr(ghost x: string, ghost y: string, i: nat, c: char, b: string, prev: array<int>, curr: array<int>)
    requires |x| == i - 1 && y == x + [c]
    requires prev != curr && prev.Length == curr.Length == |b| + 1 && prev[..] == Row(x, b)
    modifies curr
    ensures curr[..] == Row(y, b)
  {
    RowFollows(x, c, b);
    RowStarts(x, b);
    curr[0] := i;
    FillRow(Row(x, b), Row(y, b), c, b, prev, curr);
  }

  lemma RowStarts(x: string, b: string)
    ensures Row(x, b)[0] == |x|
  {
    DistanceToEmpty(x);
    assert b[..0] == [];
  }

  lemma LastCell(a: string, b: string)
    ensures Row(a, b)[|b|] == Distance(a, b)
  {
    assert b[..|b|] == b;
  }

  /** Fills two rows of the table and swaps them after each character of a. */
  method Levenshtein(a: string, b: string) returns (d: nat)
    ensures IsDistance(a, b, d)
    ensures d == Distance(a, b)
  {
    DistanceIsShortest(a, b);
    var la, lb := |a|, |b|;
    if la == 0 {
      return lb;
    }
    if lb == 0 {
      return la;
    }
    var prev := FirstPrev(b);
    var curr := new int[lb + 1];
    assert a[..0] == [];
    for i := 1 to la + 1
      invariant prev != curr && prev.Length == curr.Length == lb + 1 && fresh(prev) && fresh(curr)
      invariant prev[..] == Row(a[..i - 1], b)
    {
      TakeNext(a, i - 1);
      NextCurr(a[..i - 1], a[..i], i, a[i - 1], b, prev, curr);
      prev, curr := curr, prev;
    }
    TakeAll(a);
    LastCell(a, b);
    assert prev[..][lb] == prev[lb];
    d := prev[lb];
  }

  method FillRow(ghost above: seq<int>, ghost row: seq<int>, c: char, b: string, prev: array<int>, curr: array<int>)
    requires Follows(above, row, c, b) && prev != curr && prev.Length == curr.Length == |b| + 1
    requires prev[..] == above && curr[0] == row[0]
    modifies curr
    ensures curr[..] == row
  {
    for j := 1 to |b| + 1
      invariant prev[..] == above && curr[..j] == row[..j]
    {
      var cost := if c == b[j - 1] then 0 else 1;
      var del := prev[j] + 1;
      var ins := curr[j - 1] + 1;
      var sub := prev[j - 1] + cost;
      var m := del;
      if ins < m {
        m := ins;
      }
      if sub < m {
        m := sub;
      }
      curr[j] := m;
    }
  }

  // ---------- suggesting ----------

  ghost predicate Near(key: string, k: string) {
    1 <= Distance(key, k) <= 2
  }

  // k is the alphabetically first of the legal keys that are closest to key, at distance 1 or 2.
  ghost predicate IsBest(key: string, legal: set<string>, k: string) {
    && k in legal && Near(key, k)
    && forall other :: other in legal && Near(key, other) ==>
         || Distance(key, k) < Distance(key, other)
         || (Distance(key, k) == Distance(key, other) && AtMost(k, other))
  }

  // best is the answer for the candidates read so far, or none of them is near.
  ghost predicate BestSoFar(key: string, read: seq<string>, best: string, bestDist: int) {
    if bestDist == 3 then best == "" && forall k :: k in read ==> !Near(key, k)
    else bestDist == Distance(key, best) && IsBest(key, Elements(read), best)
  }

  lemma BestGrows(key: string, read: seq<string>, best: string, bestDist: int, k: string)
    requires BestSoFar(key, read, best, bestDist) && 1 <= bestDist <= 3
    requires forall x :: x in read ==> AtMost(x, k)
    ensures
      if Near(key, k) && Distance(key, k) < bestDist then BestSoFar(key, read + [k], k, Distance(key, k))
      else BestSoFar(key, read + [k], best, bestDist)
  {
    AtMostReflexive(k);
    assert Elements(read + [k]) == Elements(read) + {k};
  }

  // What the best key is, with the numbers and the order written out.
  lemma BestMeans(key: string, legal: set<string>, best: string, k: string)
    requires IsBest(key, legal, best) && k in legal && 1 <= Distance(key, k) <= 2
    ensures best in legal && 1 <= Distance(key, best) <= Distance(key, k)
    ensures Distance(key, best) == Distance(key, k) ==> Alphabetical(best, k)
  {
    AtMostMeans(best, k);
  }

  lemma BestAnswers(key: string, legal: set<string>, read: seq<string>, best: string, bestDist: int)
    requires BestSoFar(key, read, best, bestDist) && Elements(read) == legal
    ensures (exists k :: k in legal && Near(key, k)) ==> IsBest(key, legal, best)
    ensures (forall k :: k in legal ==> !(1 <= Distance(key, k) <= 2)) ==> best == ""
    ensures forall k :: k in legal && 1 <= Distance(key, k) <= 2 ==>
      && best in legal && 1 <= Distance(key, best) <= Distance(key, k)
      && (Distance(key, best) == Distance(key, k) ==> Alphabetical(best, k))
  {
    forall k | k in legal && 1 <= Distance(key, k) <= 2
      ensures best in legal && 1 <= Distance(key, best) <= Distance(key, k)
      ensures Distance(key, best) == Distance(key, k) ==> Alphabetical(best, k)
    {
      assert k in Elements(read) && Near(key, k);
      BestMeans(key, legal, best, k);
    }
  }

  /**
   The answer is the closest key at distance one or two, and among equally close ones the alphabetically
   first, whatever order the keys of the map are read in.
   */
  method SuggestKey(key: string, legal: map<string, bool>) returns (best: string)
    ensures (exists k :: k in legal && Near(key, k)) ==> IsBest(key, legal.Keys, best)
    ensures (forall k :: k in legal ==> !(1 <= Distance(key, k) <= 2)) ==> best == ""
    ensures forall k :: k in legal && 1 <= Distance(key, k) <= 2 ==>
      && best in legal && 1 <= Distance(key, best) <= Distance(key, k)
      && (Distance(key, best) == Distance(key, k) ==> Alphabetical(best, k))
  {
    var candidates := SortedKeys(legal.Keys);
    best := "";
    var bestDist := 3;
    for i := 0 to |candidates|
      invariant 1 <= bestDist <= 3 && BestSoFar(key, candidates[..i], best, bestDist)
    {
      var k := candidates[i];
      var d := Levenshtein(key, k);
      BestGrows(key, candidates[..i], best, bestDist, k);
      TakeNext(candidates, i);
      if d >= 1 && d <= 2 && d < bestDist {
        bestDist := d;
        best := k;
      }
    }
    TakeAll(candidates);
    assert Elements(candidates) == legal.Keys;
    BestAnswers(key, legal.Keys, candidates, best, bestDist);
  }

  // Only one answer is best.
  lemma BestIsUnique(key: string, legal: set<string>, j: string, k: string)
    requires IsBest(key, legal, j) && IsBest(key, legal, k)
    ensures j == k
  {
    if Distance(key, j) == Distance(key, k) {
      AtMostAntisymmetric(j, k);
    }
  }
}
