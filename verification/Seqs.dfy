/** Facts about sequences that several modules use. */
module Seqs {

  lemma TakeNext<T>(s: seq<T>, i: nat)
    requires i < |s|
    ensures s[..i + 1] == s[..i] + [s[i]]
  {
  }

  lemma TakeAll<T>(s: seq<T>)
    ensures s[..|s|] == s
  {
  }

  function Elements<T>(s: seq<T>): set<T> {
    set x | x in s
  }

  lemma {:induction false} OccursTwice<T>(s: seq<T>, x: T)
    ensures multiset(s)[x] >= 2 <==> exists i, j :: 0 <= i < j < |s| && s[i] == x == s[j]
  {
    if s != [] {
      var n := |s| - 1;
      assert s == s[..n] + [s[n]];
      OccursTwice(s[..n], x);
      if multiset(s)[x] >= 2 && s[n] == x {
        assert x in s[..n];
        var i :| 0 <= i < n && s[i] == x;
      }
    }
  }

  lemma SameMembers<T>(s: seq<T>, t: seq<T>)
    requires multiset(s) == multiset(t)
    ensures forall x :: x in s <==> x in t
  {
    assert forall x :: x in s <==> x in multiset(s);
    assert forall x :: x in t <==> x in multiset(t);
  }

  // A listing of the keys of a map, each once.
  ghost predicate Lists<K, V>(keys: seq<K>, m: map<K, V>) {
    && (forall k :: k in m ==> k in keys)
    && (forall i :: 0 <= i < |keys| ==> keys[i] in m)
    && (forall i, j :: 0 <= i < j < |keys| ==> keys[i] != keys[j])
  }

  ghost function Listing<K(!new)>(keys: set<K>): (s: seq<K>)
    ensures forall k :: k in keys ==> k in s
    ensures forall i :: 0 <= i < |s| ==> s[i] in keys
    ensures forall i, j :: 0 <= i < j < |s| ==> s[i] != s[j]
  {
    if keys == {} then []
    else
      var k :| k in keys;
      Listing(keys - {k}) + [k]
  }

  lemma {:induction false} DistinctLength<K>(keys: seq<K>, s: set<K>)
    requires (forall k :: k in s ==> k in keys) && forall i :: 0 <= i < |keys| ==> keys[i] in s
    requires forall i, j :: 0 <= i < j < |keys| ==> keys[i] != keys[j]
    ensures |keys| == |s|
  {
    if keys == [] {
      assert s == {};
    } else {
      var n := |keys| - 1;
      assert keys == keys[..n] + [keys[n]];
      DistinctLength(keys[..n], s - {keys[n]});
    }
  }

  // Any key may be listed first.
  lemma ListingWithFirst<K(!new), V>(m: map<K, V>, k: K) returns (keys: seq<K>)
    requires k in m
    ensures Lists(keys, m) && keys != [] && keys[0] == k
  {
    var others := Listing(m.Keys - {k});
    keys := [k] + others;
    forall x | x in m
      ensures x in keys
    {
      if x != k {
        assert x in others;
      }
    }
  }

  // Any key may be listed last.
  lemma ListingWithLast<K(!new), V>(m: map<K, V>, k: K) returns (keys: seq<K>)
    requires k in m
    ensures Lists(keys, m) && keys != [] && keys[|keys| - 1] == k
  {
    var others := Listing(m.Keys - {k});
    keys := others + [k];
    forall x | x in m
      ensures x in keys
    {
      if x != k {
        assert x in others;
      }
    }
  }

  // The elements to keep, in order.
  function Kept<T>(s: seq<T>, keep: T -> bool): seq<T> {
    if s == [] then []
    else
      var before := Kept(s[..|s| - 1], keep);
      if keep(s[|s| - 1]) then before + [s[|s| - 1]] else before
  }

  lemma {:induction false} KeptAlike<T>(s: seq<T>, keep: T -> bool, keep': T -> bool)
    requires forall x :: x in s ==> keep(x) == keep'(x)
    ensures Kept(s, keep) == Kept(s, keep')
  {
    if s != [] {
      assert s[|s| - 1] in s;
      KeptAlike(s[..|s| - 1], keep, keep');
    }
  }

  // The elements to keep, each made into another, in order: their places, and what was made of them.
  ghost predicate Picks<T, U>(s: seq<T>, at: seq<nat>, made: seq<U>, keep: T -> bool, from: (T, U) -> bool) {
    && |at| == |made|
    && (forall i, j :: 0 <= i < j < |at| ==> at[i] < at[j])
    && (forall i :: 0 <= i < |at| ==> at[i] < |s| && from(s[at[i]], made[i]))
    && (forall n :: 0 <= n < |s| ==> (n in at <==> keep(s[n])))
  }

  lemma PicksOneMore<T, U>(
    s: seq<T>, at: seq<nat>, made: seq<U>, keep: T -> bool, from: (T, U) -> bool, x: T, u: U)
    requires Picks(s, at, made, keep, from) && keep(x) && from(x, u)
    ensures Picks(s + [x], at + [|s|], made + [u], keep, from)
  {
    var all, more := s + [x], at + [|s|];
    forall n | 0 <= n < |all|
      ensures n in more <==> keep(all[n])
    {
      if n == |s| {
        assert more[|at|] == n;
      } else {
        assert all[n] == s[n] && (n in more <==> n in at);
      }
    }
  }

  lemma PicksNext<T, U>(
    s: seq<T>, at: seq<nat>, made: seq<U>, keep: T -> bool, from: (T, U) -> bool, x: T, u: U)
    returns (more: seq<nat>)
    requires Picks(s, at, made, keep, from) && (keep(x) ==> from(x, u))
    ensures Picks(s + [x], more, if keep(x) then made + [u] else made, keep, from)
  {
    more := at;
    if keep(x) {
      PicksOneMore(s, at, made, keep, from, x, u);
      more := at + [|s|];
    }
  }

  /** What is kept, with its places. */
  lemma {:induction false} KeptInOrder<T>(s: seq<T>, keep: T -> bool) returns (at: seq<nat>)
    ensures Picks(s, at, Kept(s, keep), keep, (x, y) => x == y)
  {
    if s == [] {
      at := [];
    } else {
      var before, last := s[..|s| - 1], s[|s| - 1];
      at := KeptInOrder(before, keep);
      at := PicksNext(before, at, Kept(before, keep), keep, (x, y) => x == y, last, last);
      assert before + [last] == s;
    }
  }

  function One(b: bool): nat {
    if b then 1 else 0
  }

  function Sum<T>(s: seq<T>, weight: T -> nat): nat {
    if s == [] then 0 else Sum(s[..|s| - 1], weight) + weight(s[|s| - 1])
  }

  lemma SumPush<T>(s: seq<T>, x: T, weight: T -> nat)
    ensures Sum(s + [x], weight) == Sum(s, weight) + weight(x)
  {
    assert (s + [x])[..|s|] == s;
  }

  lemma {:induction false} SumConcat<T>(s: seq<T>, t: seq<T>, weight: T -> nat)
    ensures Sum(s + t, weight) == Sum(s, weight) + Sum(t, weight)
  {
    if t == [] {
      assert s + t == s;
    } else {
      var n := |t| - 1;
      assert (s + t)[..|s| + n] == s + t[..n];
      SumConcat(s, t[..n], weight);
    }
  }

  lemma SumPop<T>(s: seq<T>, weight: T -> nat)
    requires s != []
    ensures Sum(s, weight) == weight(s[0]) + Sum(s[1..], weight)
  {
    assert [s[0]] + s[1..] == s && [s[0]][..0] == [];
    SumConcat([s[0]], s[1..], weight);
  }

  lemma {:induction false} SumIsPositive<T>(s: seq<T>, weight: T -> nat)
    ensures Sum(s, weight) >= 1 <==> exists x :: x in s && weight(x) >= 1
  {
    if s != [] {
      var n := |s| - 1;
      SumIsPositive(s[..n], weight);
      assert s == s[..n] + [s[n]];
    }
  }

  lemma SumWithout<T>(t: seq<T>, i: nat, weight: T -> nat)
    requires i < |t|
    ensures Sum(t, weight) == Sum(t[..i] + t[i + 1..], weight) + weight(t[i])
  {
    assert t[..i] + t[i..] == t;
    SumConcat(t[..i], t[i..], weight);
    SumPop(t[i..], weight);
    SumConcat(t[..i], t[i + 1..], weight);
  }

  lemma TakenOut<T>(t: seq<T>, i: nat)
    requires i < |t|
    ensures multiset(t[..i] + t[i + 1..]) == multiset(t) - multiset{t[i]}
  {
    assert t == t[..i] + ([t[i]] + t[i + 1..]);
  }

  // The sum does not depend on the order of the elements.
  lemma {:induction false} SumReordered<T>(s: seq<T>, t: seq<T>, weight: T -> nat)
    requires multiset(s) == multiset(t)
    ensures Sum(s, weight) == Sum(t, weight)
  {
    if s == [] {
      assert t == [];
    } else {
      var n := |s| - 1;
      assert s == s[..n] + [s[n]];
      assert s[n] in multiset(t);
      var i :| 0 <= i < |t| && t[i] == s[n];
      TakenOut(t, i);
      SumWithout(t, i, weight);
      assert multiset(s[..n]) == multiset(s) - multiset{s[n]};
      SumReordered(s[..n], t[..i] + t[i + 1..], weight);
    }
  }

  // Replacing one element changes the sum by the difference of the two weights.
  lemma {:induction false} SumUpdate<T>(s: seq<T>, i: nat, x: T, weight: T -> nat)
    requires i < |s|
    ensures Sum(s[i := x], weight) + weight(s[i]) == Sum(s, weight) + weight(x)
  {
    var n := |s| - 1;
    if i == n {
      assert s[i := x][..n] == s[..n];
    } else {
      SumUpdate(s[..n], i, x, weight);
      assert s[i := x][..n] == s[..n][i := x];
    }
  }
}
