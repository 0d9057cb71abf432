/** Facts about sequences without repeated elements, shared by the ordering modules. */
module Seqs {

  /** No element occurs twice. */
  predicate Distinct<T(==)>(s: seq<T>) {
    forall a, b :: 0 <= a < b < |s| ==> s[a] != s[b]
  }

  /** Each element is smaller than every later one: the indices in input order. */
  predicate Increasing(s: seq<nat>) {
    forall a, b :: 0 <= a < b < |s| ==> s[a] < s[b]
  }

  /** Putting a smaller element in front keeps a sequence increasing. */
  lemma IncreasingCons(x: nat, s: seq<nat>)
    requires Increasing(s) && forall y :: y in s ==> x < y
    ensures Increasing([x] + s)
  {
    var t := [x] + s;
    forall a, b | 0 <= a < b < |t|
      ensures t[a] < t[b]
    {
      assert t[b] == s[b - 1] && s[b - 1] in s;
      if a > 0 {
        assert t[a] == s[a - 1];
      }
    }
  }

  /** The elements of `s`, as a set. */
  function Elems<T>(s: seq<T>): (r: set<T>) {
    set x | x in s
  }

  /** All elements are valid indices below `n`. */
  predicate Below(s: seq<nat>, n: nat) {
    forall k :: 0 <= k < |s| ==> s[k] < n
  }

  /** The first `n` natural numbers, as a set. */
  function Range(n: nat): (r: set<nat>)
    ensures forall i: nat :: i in r <==> i < n
    ensures |r| == n
  {
    if n == 0 then {} else Range(n - 1) + {n - 1}
  }

  lemma {:induction false} DistinctCard<T>(s: seq<T>)
    requires Distinct(s)
    ensures |Elems(s)| == |s|
  {
    if s != [] {
      DistinctCard(s[1..]);
      assert Elems(s) == {s[0]} + Elems(s[1..]);
      assert s[0] !in Elems(s[1..]);
    }
  }

  lemma {:induction false} DistinctMultiplicity<T>(s: seq<T>)
    requires Distinct(s)
    ensures forall x :: multiset(s)[x] == if x in s then 1 else 0
  {
    if s != [] {
      DistinctMultiplicity(s[1..]);
      assert s == [s[0]] + s[1..];
      assert multiset(s) == multiset{s[0]} + multiset(s[1..]);
      assert s[0] !in s[1..];
    }
  }

  /** Two repetition-free sequences over the same elements are permutations of each other. */
  lemma SameElemsPermutation<T>(s: seq<T>, t: seq<T>)
    requires Distinct(s) && Distinct(t)
    requires Elems(s) == Elems(t)
    ensures multiset(s) == multiset(t)
  {
    DistinctMultiplicity(s);
    DistinctMultiplicity(t);
    forall x
      ensures multiset(s)[x] == multiset(t)[x]
    {
      assert x in s <==> x in Elems(s);
      assert x in t <==> x in Elems(t);
    }
  }

  lemma SubsetOfSameCard<T>(a: set<T>, b: set<T>)
    requires a <= b && |b| <= |a|
    ensures a == b
  {
    assert b == a + (b - a);
    assert |b - a| == 0;
  }

  /** Pigeonhole: a repetition-free sequence of indices below `n` has at most `n` elements,
      and misses some index when it is shorter than `n`. */
  lemma DistinctBelowLength(s: seq<nat>, n: nat)
    requires Distinct(s) && Below(s, n)
    ensures |s| <= n
    ensures |s| < n ==> exists j: nat :: j < n && j !in s
    ensures |s| == n ==> forall j: nat :: j < n ==> j in s
  {
    DistinctCard(s);
    var missing := Range(n) - Elems(s);
    assert Range(n) == Elems(s) + missing;
    if |s| < n {
      assert |missing| > 0;
      var j :| j in missing;
      assert j < n && j !in s;
    }
    if |s| == n {
      SubsetOfSameCard(Elems(s), Range(n));
      forall j: nat | j < n
        ensures j in s
      {
        assert j in Range(n);
      }
    }
  }

  /** Concatenating two repetition-free sequences with no common element keeps it so. */
  lemma DistinctConcat<T>(s: seq<T>, t: seq<T>)
    requires Distinct(s) && Distinct(t)
    requires forall x :: x in s ==> x !in t
    ensures Distinct(s + t)
  {
    forall a, b | 0 <= a < b < |s + t|
      ensures (s + t)[a] != (s + t)[b]
    {
      if b >= |s| && a < |s| {
        assert (s + t)[a] in s;
        assert (s + t)[b] == t[b - |s|];
      }
    }
  }

  /** A sequence that starts with `p + a` starts with `p`, and what follows `p` is `a`
      and then what follows `p + a`. */
  lemma PrefixTail<T>(p: seq<T>, a: seq<T>, t: seq<T>)
    requires |p + a| <= |t| && t[..|p + a|] == p + a
    ensures |p| <= |t| && t[..|p|] == p
    ensures t[|p|..] == a + t[|p + a|..]
  {
    assert t[..|p|] == t[..|p + a|][..|p|];
    assert t[|p|..|p + a|] == a;
  }

  /** A concatenation holds valid indices exactly when both parts do. */
  lemma BelowConcat(s: seq<nat>, t: seq<nat>, n: nat)
    ensures Below(s + t, n) <==> Below(s, n) && Below(t, n)
  {
    forall i | 0 <= i < |s|
      ensures (s + t)[i] == s[i]
    {
    }
    forall i | 0 <= i < |t|
      ensures (s + t)[|s| + i] == t[i]
    {
    }
    if Below(s, n) && Below(t, n) {
      forall i | 0 <= i < |s + t|
        ensures (s + t)[i] < n
      {
        if i >= |s| {
          assert (s + t)[i] == t[i - |s|];
        }
      }
    }
  }
}
