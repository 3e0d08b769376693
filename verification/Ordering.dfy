/** The alphabetical order of strings, and the keys of a map in that order. */
module Ordering {

  // Character by character; a proper prefix comes first.
  predicate AtMost(a: string, b: string) {
    if a == [] then true
    else if b == [] then false
    else a[0] < b[0] || (a[0] == b[0] && AtMost(a[1..], b[1..]))
  }

  lemma {:induction false} AtMostReflexive(a: string)
    ensures AtMost(a, a)
  {
    if a != [] {
      AtMostReflexive(a[1..]);
    }
  }

  lemma {:induction false} AtMostTotal(a: string, b: string)
    ensures AtMost(a, b) || AtMost(b, a)
  {
    if a != [] && b != [] {
      AtMostTotal(a[1..], b[1..]);
    }
  }

  lemma {:induction false} AtMostTransitive(a: string, b: string, c: string)
    requires AtMost(a, b) && AtMost(b, c)
    ensures AtMost(a, c)
  {
    if a != [] && b != [] && c != [] && a[0] == b[0] == c[0] {
      AtMostTransitive(a[1..], b[1..], c[1..]);
    }
  }

  lemma {:induction false} AtMostAntisymmetric(a: string, b: string)
    requires AtMost(a, b) && AtMost(b, a)
    ensures a == b
  {
    if a != [] && b != [] {
      AtMostAntisymmetric(a[1..], b[1..]);
      assert a == [a[0]] + a[1..] && b == [b[0]] + b[1..];
    }
  }

  lemma FirstDifferenceLater(a: string, b: string, i: nat)
    requires a != [] && b != [] && a[0] == b[0]
    ensures i + 1 < |a| && i + 1 < |b| ==> (a[1..][..i] == b[1..][..i] <==> a[..i + 1] == b[..i + 1])
  {
    if i + 1 < |a| && i + 1 < |b| {
      assert a[..i + 1] == [a[0]] + a[1..][..i] && b[..i + 1] == [b[0]] + b[1..][..i];
      assert a[1..][..i] == a[..i + 1][1..] && b[1..][..i] == b[..i + 1][1..];
    }
  }

  lemma {:induction false} AtMostDiffers(a: string, b: string)
    requires AtMost(a, b)
    ensures a <= b || exists i :: 0 <= i < |a| && i < |b| && a[..i] == b[..i] && a[i] < b[i]
  {
    if a != [] {
      if a[0] < b[0] {
        assert a[..0] == b[..0];
      } else {
        AtMostDiffers(a[1..], b[1..]);
        assert a == [a[0]] + a[1..] && b == [b[0]] + b[1..];
        if !(a[1..] <= b[1..]) {
          var i :| 0 <= i < |a[1..]| && i < |b[1..]| && a[1..][..i] == b[1..][..i] && a[1..][i] < b[1..][i];
          FirstDifferenceLater(a, b, i);
          assert a[..i + 1] == b[..i + 1] && a[i + 1] < b[i + 1];
        }
      }
    }
  }

  lemma {:induction false} DiffersAtMost(a: string, b: string, i: nat)
    requires i < |a| && i < |b| && a[..i] == b[..i] && a[i] < b[i]
    ensures AtMost(a, b)
  {
    if i > 0 {
      assert a[0] == a[..i][0] && b[0] == b[..i][0];
      FirstDifferenceLater(a, b, i - 1);
      DiffersAtMost(a[1..], b[1..], i - 1);
    }
  }

  lemma {:induction false} PrefixAtMost(a: string, b: string)
    requires a <= b
    ensures AtMost(a, b)
  {
    if a != [] {
      PrefixAtMost(a[1..], b[1..]);
    }
  }

  /** The order is alphabetical: a prefix comes first, and otherwise the first difference decides. */
  lemma AtMostMeans(a: string, b: string)
    ensures AtMost(a, b) <==>
      a <= b || exists i :: 0 <= i < |a| && i < |b| && a[..i] == b[..i] && a[i] < b[i]
  {
    if AtMost(a, b) {
      AtMostDiffers(a, b);
    }
    if a <= b {
      PrefixAtMost(a, b);
    }
    if i :| 0 <= i < |a| && i < |b| && a[..i] == b[..i] && a[i] < b[i] {
      DiffersAtMost(a, b, i);
    }
  }

  // Alphabetical order, without going through the strings.
  ghost predicate Alphabetical(a: string, b: string) {
    a <= b || exists i :: 0 <= i < |a| && i < |b| && a[..i] == b[..i] && a[i] < b[i]
  }

  predicate IsFirst(keys: set<string>, k: string) {
    k in keys && forall other :: other in keys ==> AtMost(k, other)
  }

  lemma {:induction false} FirstExists(keys: set<string>)
    requires keys != {}
    ensures exists k :: IsFirst(keys, k)
  {
    var x :| x in keys;
    var rest := keys - {x};
    AtMostReflexive(x);
    if rest == {} {
      assert keys == {x};
      assert IsFirst(keys, x);
    } else {
      FirstExists(rest);
      var y :| IsFirst(rest, y);
      AtMostTotal(x, y);
      if AtMost(x, y) {
        forall other | other in keys
          ensures AtMost(x, other)
        {
          if other != x { AtMostTransitive(x, y, other); }
        }
        assert IsFirst(keys, x);
      } else {
        assert IsFirst(keys, y);
      }
    }
  }

  lemma FirstIsOnly(keys: set<string>)
    ensures forall j, k :: IsFirst(keys, j) && IsFirst(keys, k) ==> j == k
  {
    forall j, k | IsFirst(keys, j) && IsFirst(keys, k)
      ensures j == k
    {
      AtMostAntisymmetric(j, k);
    }
  }

  ghost predicate Sorted(s: seq<string>) {
    forall i, j :: 0 <= i < j < |s| ==> AtMost(s[i], s[j]) && s[i] != s[j]
  }

  // sort.Strings over the keys of a map: the one sequence that lists them in order.
  function SortedKeys(keys: set<string>): (r: seq<string>)
    ensures forall k :: k in r <==> k in keys
    ensures Sorted(r)
  {
    if keys == {} then []
    else
      FirstExists(keys);
      FirstIsOnly(keys);
      var k :| k in keys && IsFirst(keys, k);
      [k] + SortedKeys(keys - {k})
  }

  lemma HasMember(s: seq<string>)
    ensures s != [] ==> exists k :: k in s
  {
    if s != [] {
      assert s[0] in s;
    }
  }

  /** Sorting any listing of the same keys gives the same sequence. */
  lemma {:induction false} SortedIsUnique(a: seq<string>, b: seq<string>)
    requires Sorted(a) && Sorted(b) && forall k :: k in a <==> k in b
    ensures a == b
  {
    if a == [] {
      HasMember(b);
    } else {
      assert a[0] in b && b[0] in a by {
        assert a[0] in a;
        assert b[0] in b;
      }
      FirstOfSorted(a, b[0]);
      FirstOfSorted(b, a[0]);
      AtMostAntisymmetric(a[0], b[0]);
      forall k
        ensures k in a[1..] <==> k in b[1..]
      {
        RestOfSorted(a, k);
        RestOfSorted(b, k);
      }
      SortedIsUnique(a[1..], b[1..]);
      assert a == [a[0]] + a[1..] && b == [b[0]] + b[1..];
    }
  }

  lemma FirstOfSorted(s: seq<string>, k: string)
    requires Sorted(s) && k in s
    ensures AtMost(s[0], k)
  {
    AtMostReflexive(k);
  }

  lemma RestOfSorted(s: seq<string>, k: string)
    requires Sorted(s) && s != []
    ensures k in s[1..] <==> k in s && k != s[0]
  {
    if k in s && k != s[0] {
      var i :| 0 <= i < |s| && s[i] == k;
      assert s[1..][i - 1] == k;
    }
    if k in s[1..] {
      var i :| 0 <= i < |s[1..]| && s[1..][i] == k;
      assert s[i + 1] == k && s[0] != s[i + 1];
    }
  }
}
