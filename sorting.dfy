/** Python's `sorted` on a list of floats, as used by the episode statistics:
    an ascending copy of the list that holds exactly the same elements. */
module Sorting {

  /** Ascending order, `<=` between every pair of positions. */
  predicate SortedAsc(s: seq<real>) {
    forall i, j :: 0 <= i < j < |s| ==> s[i] <= s[j]
  }

  /** Inserts `x` into the ascending sequence `s` before the first larger element. */
  function Insert(x: real, s: seq<real>): (r: seq<real>)
    requires SortedAsc(s)
    ensures SortedAsc(r)
    ensures multiset(r) == multiset(s) + multiset{x}
    ensures |r| == |s| + 1
  {
    if s == [] || x <= s[0] then
      assert forall k :: 0 <= k < |s| ==> x <= s[0] <= s[k];
      ConsSorted(x, s);
      assert multiset([x] + s) == multiset{x} + multiset(s);
      [x] + s
    else
      var rest := Insert(x, s[1..]);
      InsertedAbove(x, s, rest);
      ConsSorted(s[0], rest);
      TailMultiset(s);
      assert multiset([s[0]] + rest) == multiset{s[0]} + multiset(rest);
      [s[0]] + rest
  }

  /** Putting an element at or below everything in front of an ascending list keeps it ascending. */
  lemma ConsSorted(h: real, s: seq<real>)
    requires SortedAsc(s)
    requires forall k :: 0 <= k < |s| ==> h <= s[k]
    ensures SortedAsc([h] + s)
  {
    var r := [h] + s;
    forall i, j | 0 <= i < j < |r|
      ensures r[i] <= r[j]
    {
      assert r[j] == s[j - 1];
      if i > 0 {
        assert r[i] == s[i - 1];
      }
    }
  }

  /** What is inserted after the head of an ascending list stays at or above that head. */
  lemma InsertedAbove(x: real, s: seq<real>, rest: seq<real>)
    requires SortedAsc(s) && s != [] && s[0] < x
    requires multiset(rest) == multiset(s[1..]) + multiset{x}
    ensures forall k :: 0 <= k < |rest| ==> s[0] <= rest[k]
  {
    forall k | 0 <= k < |rest|
      ensures s[0] <= rest[k]
    {
      assert rest[k] in multiset(rest);
      if rest[k] != x {
        assert rest[k] in s[1..];
      }
    }
  }

  /** The ascending copy of `s` (insertion sort; by SortedUnique any correct sort gives the same). */
  function Sort(s: seq<real>): (r: seq<real>)
    ensures SortedAsc(r)
    ensures multiset(r) == multiset(s)
    ensures |r| == |s|
  {
    if s == [] then [] else
      assert s == [s[0]] + s[1..];
      Insert(s[0], Sort(s[1..]))
  }

  /** The first element of an ascending sequence is below every element. */
  lemma SortedHeadIsLeast(s: seq<real>, x: real)
    requires SortedAsc(s) && x in s
    ensures s[0] <= x
  {
    var j :| 0 <= j < |s| && s[j] == x;
    assert j == 0 || s[0] <= s[j];
  }

  /** Two ascending permutations of the same non-empty list start with the same element. */
  lemma SortedSameHead(a: seq<real>, b: seq<real>)
    requires SortedAsc(a) && SortedAsc(b) && a != [] && b != []
    requires multiset(a) == multiset(b)
    ensures a[0] == b[0]
  {
    assert a[0] in multiset(a) && b[0] in multiset(b);
    SortedHeadIsLeast(b, a[0]);
    SortedHeadIsLeast(a, b[0]);
  }

  /** Dropping the head of a list drops one copy of it from the multiset. */
  lemma TailMultiset(a: seq<real>)
    requires a != []
    ensures multiset(a[1..]) == multiset(a) - multiset{a[0]}
  {
    assert a == [a[0]] + a[1..];
  }

  /** There is only one ascending arrangement of a multiset of reals: two sorted
      permutations of the same list are equal, whatever algorithm produced them. */
  lemma {:induction false} SortedUnique(a: seq<real>, b: seq<real>)
    requires SortedAsc(a) && SortedAsc(b)
    requires multiset(a) == multiset(b)
    ensures a == b
  {
    if a == [] {
      assert |multiset(b)| == 0;
    } else {
      assert |b| == |multiset(b)| == |a| > 0;
      SortedSameHead(a, b);
      TailMultiset(a);
      TailMultiset(b);
      SortedUnique(a[1..], b[1..]);
      assert a == [a[0]] + a[1..] && b == [b[0]] + b[1..];
    }
  }

  /** The smallest element of a non-empty list. */
  function SeqMin(s: seq<real>): (m: real)
    requires s != []
    ensures m in s
    ensures forall x :: x in s ==> m <= x
  {
    if |s| == 1 then s[0]
    else
      var rest := SeqMin(s[1..]);
      assert forall x :: x in s ==> x == s[0] || x in s[1..];
      if s[0] <= rest then s[0] else rest
  }

  /** The largest element of a non-empty list. */
  function SeqMax(s: seq<real>): (m: real)
    requires s != []
    ensures m in s
    ensures forall x :: x in s ==> x <= m
  {
    if |s| == 1 then s[0]
    else
      var rest := SeqMax(s[1..]);
      assert forall x :: x in s ==> x == s[0] || x in s[1..];
      if rest <= s[0] then s[0] else rest
  }

  /** Every element of a permutation of `s` is an element of `s`, so lies between its extremes. */
  lemma PermutationElement(s: seq<real>, t: seq<real>, k: nat)
    requires multiset(s) == multiset(t) && k < |t|
    ensures s != [] && t[k] in s
    ensures SeqMin(s) <= t[k] <= SeqMax(s)
  {
    assert t[k] in multiset(t);
  }

  /** So does the mean of two elements of a permutation of `s`. */
  lemma PermutationMean(s: seq<real>, t: seq<real>, i: nat, j: nat)
    requires multiset(s) == multiset(t) && i < |t| && j < |t|
    ensures s != [] && SeqMin(s) <= (t[i] + t[j]) / 2.0 <= SeqMax(s)
  {
    PermutationElement(s, t, i);
    PermutationElement(s, t, j);
  }

  /** A one-sided bound: `AtMost(v)` admits the elements `<= v`, `AtLeast(v)` those `>= v`. */
  datatype Bound = AtMost(v: real) | AtLeast(v: real) {
    predicate Admits(x: real) {
      match this
      case AtMost(v) => x <= v
      case AtLeast(v) => x >= v
    }
  }

  /** How many elements of `s` the bound admits. */
  function Count(s: seq<real>, b: Bound): (n: nat)
    ensures n <= |s|
  {
    if s == [] then 0
    else (if b.Admits(s[0]) then 1 else 0) + Count(s[1..], b)
  }

  lemma {:induction false} CountConcat(s: seq<real>, t: seq<real>, b: Bound)
    ensures Count(s + t, b) == Count(s, b) + Count(t, b)
  {
    if s == [] {
      assert s + t == t;
    } else {
      assert (s + t)[1..] == s[1..] + t;
      CountConcat(s[1..], t, b);
    }
  }

  /** Removing position `j` from `t`: what it does to the elements and to the count. */
  lemma RemoveAt(t: seq<real>, j: nat, b: Bound)
    requires j < |t|
    ensures multiset(t[..j] + t[j + 1..]) == multiset(t) - multiset{t[j]}
    ensures Count(t, b) == Count(t[..j] + t[j + 1..], b) + (if b.Admits(t[j]) then 1 else 0)
  {
    assert t == t[..j] + [t[j]] + t[j + 1..];
    CountConcat(t[..j] + [t[j]], t[j + 1..], b);
    CountConcat(t[..j], [t[j]], b);
    CountConcat(t[..j], t[j + 1..], b);
  }

  /** Counting does not depend on the order of the elements. */
  lemma {:induction false} CountPermutation(s: seq<real>, t: seq<real>, b: Bound)
    requires multiset(s) == multiset(t)
    ensures Count(s, b) == Count(t, b)
  {
    if s == [] {
      assert |multiset(t)| == 0;
    } else {
      assert s[0] in multiset(t);
      var j :| 0 <= j < |t| && t[j] == s[0];
      var rest := t[..j] + t[j + 1..];
      RemoveAt(t, j, b);
      assert s == [s[0]] + s[1..];
      assert multiset(s[1..]) == multiset(s) - multiset{s[0]};
      CountPermutation(s[1..], rest, b);
    }
  }

  /** When the first `k` elements are admitted, at least `k` are counted. */
  lemma {:induction false} CountPrefix(s: seq<real>, b: Bound, k: nat)
    requires k <= |s|
    requires forall i :: 0 <= i < k ==> b.Admits(s[i])
    ensures Count(s, b) >= k
  {
    if k > 0 {
      CountPrefix(s[1..], b, k - 1);
    }
  }

  /** When every element from position `k` on is admitted, at least `|s| - k` are counted. */
  lemma {:induction false} CountSuffix(s: seq<real>, b: Bound, k: nat)
    requires k <= |s|
    requires forall i :: k <= i < |s| ==> b.Admits(s[i])
    ensures Count(s, b) >= |s| - k
  {
    if s != [] {
      CountSuffix(s[1..], b, if k == 0 then 0 else k - 1);
    }
  }

  /** In an ascending list, everything up to position `k` is at or below any `v >= s[k]`. */
  lemma SortedCountAtMost(s: seq<real>, k: nat, v: real)
    requires SortedAsc(s) && k < |s| && s[k] <= v
    ensures Count(s, AtMost(v)) >= k + 1
  {
    forall i | 0 <= i < k + 1
      ensures AtMost(v).Admits(s[i])
    {
      assert i == k || s[i] <= s[k];
    }
    CountPrefix(s, AtMost(v), k + 1);
  }

  /** In an ascending list, everything from position `k` on is at or above any `v <= s[k]`. */
  lemma SortedCountAtLeast(s: seq<real>, k: nat, v: real)
    requires SortedAsc(s) && k < |s| && v <= s[k]
    ensures Count(s, AtLeast(v)) >= |s| - k
  {
    forall i | k <= i < |s|
      ensures AtLeast(v).Admits(s[i])
    {
      assert i == k || s[k] <= s[i];
    }
    CountSuffix(s, AtLeast(v), k);
  }
}
