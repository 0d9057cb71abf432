/** Small ordering situations, stated for any element type: two or three elements whose
    after sets form a pair, a chain, a fan or a cycle, and two elements of different
    stages. The plugin scenarios are instances of these. */
module OrderShapes {
  import opened Seqs
  import opened Keys
  import opened Topological
  import Arrange

  /** Where `x` sits in a sequence holding it. */
  lemma Position<T>(r: seq<T>, x: T) returns (i: nat)
    requires x in multiset(r)
    ensures i < |r| && r[i] == x
  {
    i :| 0 <= i < |r| && r[i] == x;
  }

  /** `a` after `b`, and no other edge inside the pair: sorting puts `b` first. */
  lemma PairSorted<T(!new)>(k: Keys<T>, a: T, b: T)
    requires k.id(a) != k.id(b)
    requires k.id(b) in k.after(a) && k.id(a) !in k.after(b)
    requires k.id(a) !in k.after(a) && k.id(b) !in k.after(b)
    ensures DistinctIds(k, [a, b])
    ensures TopologicalSorting(k, [a, b]) == [b, a]
  {
    var ps, s := [a, b], [b, a];
    assert IsTopological(k, s) by {
      forall x, y | 0 <= x < |s| && 0 <= y < |s| && k.id(s[x]) in k.after(s[y])
        ensures x < y
      {
        assert x == 0 || x == 1;
        assert y == 0 || y == 1;
      }
    }
    assert multiset(s) == multiset(ps);
    var r := TopologicalSorting(k, ps);
    assert |r| == |multiset(r)| == 2;
    var i := Position(r, b);
    var j := Position(r, a);
    assert k.id(r[i]) in k.after(r[j]);
  }

  /** The chain `a` after `b` after `c`. */
  predicate Chain<T>(k: Keys<T>, a: T, b: T, c: T) {
    && k.id(a) != k.id(b) && k.id(b) != k.id(c) && k.id(a) != k.id(c)
    && k.after(a) == {k.id(b)} && k.after(b) == {k.id(c)} && k.after(c) == {}
  }

  /** In a chain, `c`, `b`, `a` honours both edges. */
  lemma ChainOrderExists<T>(k: Keys<T>, a: T, b: T, c: T)
    requires Chain(k, a, b, c)
    ensures IsTopological(k, [c, b, a])
  {
    var s := [c, b, a];
    forall x, y | 0 <= x < |s| && 0 <= y < |s| && k.id(s[x]) in k.after(s[y])
      ensures x < y
    {
      assert x == 0 || x == 1 || x == 2;
      assert y == 0 || y == 1 || y == 2;
    }
  }

  /** Any rearrangement of a chain honouring its edges is `c`, `b`, `a`. */
  lemma ChainOrderUnique<T>(k: Keys<T>, a: T, b: T, c: T, r: seq<T>)
    requires Chain(k, a, b, c)
    requires multiset(r) == multiset([a, b, c]) && IsTopological(k, r)
    ensures r == [c, b, a]
  {
    assert |r| == |multiset(r)| == 3;
    var ia := Position(r, a);
    var ib := Position(r, b);
    var ic := Position(r, c);
    assert k.id(r[ic]) in k.after(r[ib]);
    assert k.id(r[ib]) in k.after(r[ia]);
  }

  /** Sorting the chain `a` after `b` after `c` gives `c`, `b`, `a`. */
  lemma ChainSorted<T(!new)>(k: Keys<T>, a: T, b: T, c: T)
    requires Chain(k, a, b, c)
    ensures DistinctIds(k, [a, b, c])
    ensures TopologicalSorting(k, [a, b, c]) == [c, b, a]
  {
    var ps := [a, b, c];
    ChainOrderExists(k, a, b, c);
    assert multiset([c, b, a]) == multiset(ps);
    ChainOrderUnique(k, a, b, c, TopologicalSorting(k, ps));
  }

  /** No rearrangement of the cycle `a` after `b` after `c` after `a` honours all three
      edges. */
  lemma CycleBlocks<T>(k: Keys<T>, a: T, b: T, c: T, s: seq<T>)
    requires k.id(b) in k.after(a) && k.id(c) in k.after(b) && k.id(a) in k.after(c)
    requires multiset(s) == multiset([a, b, c])
    ensures !IsTopological(k, s)
  {
    var ia := Position(s, a);
    var ib := Position(s, b);
    var ic := Position(s, c);
    assert k.id(s[ib]) in k.after(s[ia]);
    assert k.id(s[ic]) in k.after(s[ib]);
    assert k.id(s[ia]) in k.after(s[ic]);
  }

  /** Sorting a cycle returns the input unchanged. */
  lemma CycleKept<T(!new)>(k: Keys<T>, a: T, b: T, c: T)
    requires k.id(a) != k.id(b) && k.id(b) != k.id(c) && k.id(a) != k.id(c)
    requires k.id(b) in k.after(a) && k.id(c) in k.after(b) && k.id(a) in k.after(c)
    ensures DistinctIds(k, [a, b, c])
    ensures TopologicalSorting(k, [a, b, c]) == [a, b, c]
  {
    forall s | multiset(s) == multiset([a, b, c])
      ensures !IsTopological(k, s)
    {
      CycleBlocks(k, a, b, c, s);
    }
  }

  /** The fan: elements 0 and 1 both after element 2, which is after nothing. */
  predicate Fan<T>(k: Keys<T>, ps: seq<T>) {
    && |ps| == 3 && DistinctIds(k, ps)
    && k.after(ps[0]) == {k.id(ps[2])} && k.after(ps[1]) == {k.id(ps[2])} && k.after(ps[2]) == {}
  }

  /** The fan's starting indegrees and queue: 0 and 1 wait for 2, which is ready. */
  lemma FanSeed<T>(k: Keys<T>, ps: seq<T>)
    requires Fan(k, ps)
    ensures InitialIndegrees(k, ps) == [1, 1, 0]
    ensures ZeroIndegree([1, 1, 0], 0) == [2]
  {
    assert IdsBelow(k, ps, 1) == {k.id(ps[0])};
    assert IdsBelow(k, ps, 2) == {k.id(ps[0]), k.id(ps[1])};
    assert k.id(ps[2]) in IdSet(k, ps);
    assert k.after(ps[0]) - IdSet(k, ps) == {};
    assert k.after(ps[1]) - IdSet(k, ps) == {};
    assert |k.after(ps[0])| == 1 && |k.after(ps[1])| == 1;
    var d := InitialIndegrees(k, ps);
    assert d[0] == 1 && d[1] == 1 && d[2] == 0;
    assert ZeroIndegree([1, 1, 0], 2) == [2];
  }

  /** The fan's adjacency lists: 2's lists 0 and then 1; nothing follows 0 or 1. */
  lemma FanEdges<T>(k: Keys<T>, ps: seq<T>)
    requires Fan(k, ps)
    ensures Successors(k, ps, 2, 0) == [0, 1]
    ensures Successors(k, ps, 0, 0) == [] && Successors(k, ps, 1, 0) == []
  {
    assert k.id(ps[0]) != k.id(ps[2]) && k.id(ps[1]) != k.id(ps[2]);
    assert Successors(k, ps, 2, 2) == [];
    assert Successors(k, ps, 2, 1) == [1];
    assert !Prereq(k, ps, 0, 0) && !Prereq(k, ps, 0, 1) && !Prereq(k, ps, 0, 2);
    assert Successors(k, ps, 0, 2) == [];
    assert Successors(k, ps, 0, 1) == [];
    assert !Prereq(k, ps, 1, 0) && !Prereq(k, ps, 1, 1) && !Prereq(k, ps, 1, 2);
    assert Successors(k, ps, 1, 2) == [];
    assert Successors(k, ps, 1, 1) == [];
  }

  /** Dequeuing 2 brings 0 and 1 to indegree zero, 0 first. */
  lemma FanRelax()
    ensures Relax([0, 1], [1, 1, 0], []) == ([0, 0, 0], [0, 1])
  {
    assert [1][1..] == [] && [0, 1, 0][1 := 0] == [0, 0, 0] && [0] + [1] == [0, 1];
    assert Relax([], [0, 0, 0], [0, 1]) == ([0, 0, 0], [0, 1]);
    assert Relax([1], [0, 1, 0], [0]) == ([0, 0, 0], [0, 1]);
    assert [0, 1][1..] == [1] && [1, 1, 0][0 := 0] == [0, 1, 0] && [] + [0] == [0];
  }

  /** Dequeuing 2 in the fan releases 0 and then 1. */
  lemma FanReleaseFirst<T>(k: Keys<T>, ps: seq<T>)
    requires Fan(k, ps)
    ensures Relax(Successors(k, ps, 2, 0), [1, 1, 0], []) == ([0, 0, 0], [0, 1])
  {
    FanEdges(k, ps);
    FanRelax();
  }

  lemma FanFirst<T>(k: Keys<T>, ps: seq<T>)
    requires Fan(k, ps) && KahnInv(k, ps, [2], [1, 1, 0], [])
    ensures KahnInv(k, ps, [0, 1], [0, 0, 0], [2])
    ensures Drain(k, ps, [2], [1, 1, 0], []) == Drain(k, ps, [0, 1], [0, 0, 0], [2])
  {
    FanReleaseFirst(k, ps);
    assert [2][1..] == [] && [] + [2] == [2];
    var d, q := DrainStep(k, ps, [2], [1, 1, 0], []);
  }

  lemma FanSecond<T>(k: Keys<T>, ps: seq<T>)
    requires Fan(k, ps) && KahnInv(k, ps, [0, 1], [0, 0, 0], [2])
    ensures KahnInv(k, ps, [1], [0, 0, 0], [2, 0])
    ensures Drain(k, ps, [0, 1], [0, 0, 0], [2]) == Drain(k, ps, [1], [0, 0, 0], [2, 0])
  {
    FanEdges(k, ps);
    assert [0, 1][1..] == [1] && [2] + [0] == [2, 0];
    assert Relax([], [0, 0, 0], [1]) == ([0, 0, 0], [1]);
    var d, q := DrainStep(k, ps, [0, 1], [0, 0, 0], [2]);
  }

  lemma FanThird<T>(k: Keys<T>, ps: seq<T>)
    requires Fan(k, ps) && KahnInv(k, ps, [1], [0, 0, 0], [2, 0])
    ensures Drain(k, ps, [1], [0, 0, 0], [2, 0]) == [2, 0, 1]
  {
    FanEdges(k, ps);
    assert [1][1..] == [] && [2, 0] + [1] == [2, 0, 1];
    assert Relax([], [0, 0, 0], []) == ([0, 0, 0], []);
    var d, q := DrainStep(k, ps, [1], [0, 0, 0], [2, 0]);
    assert Drain(k, ps, [], [0, 0, 0], [2, 0, 1]) == [2, 0, 1];
  }

  /** Kahn's loop on a fan: 2 is seeded, and dequeuing it releases 0 and then 1, in the
      order its edges were recorded. */
  lemma FanKahn<T>(k: Keys<T>, ps: seq<T>)
    requires Fan(k, ps)
    ensures Kahn(k, ps) == [2, 0, 1]
  {
    FanSeed(k, ps);
    InitialInv(k, ps);
    FanFirst(k, ps);
    FanSecond(k, ps);
    FanThird(k, ps);
  }

  /** `a` and `b` both after `c`, `c` after nothing: sorting gives `c`, then `a` and `b`
      in input order, although `c`, `b`, `a` would honour the edges as well. */
  lemma FanSorted<T(!new)>(k: Keys<T>, a: T, b: T, c: T)
    requires Fan(k, [a, b, c])
    ensures TopologicalSorting(k, [a, b, c]) == [c, a, b]
  {
    var ps := [a, b, c];
    FanKahn(k, ps);
    assert Pick(ps, [2, 0, 1]) == [c, a, b];
  }

  /** Two elements of different stages keep their order however their after sets read:
      each stage forms its own group, and groups follow first occurrence. */
  lemma TwoStagesKeepOrder<T(!new)>(k: Keys<T>, a: T, b: T)
    requires k.id(a) != k.id(b) && k.stage(a) != k.stage(b)
    ensures DistinctIds(k, [a, b])
    ensures Arrange.ArrangePlugins(k, [a, b]) == [a, b]
  {
    var ps := [a, b];
    var r := Arrange.ArrangePlugins(k, ps);
    Arrange.ArrangeGroupOrder(k, ps);
    assert |r| == |multiset(r)| == 2;
    var i := Position(r, a);
    var j := Position(r, b);
    assert Arrange.FirstIndex(k, ps, k.stage(a)) == 0;
    assert Arrange.FirstIndex(k, ps, k.stage(b)) == 1;
    assert Arrange.FirstIndex(k, ps, k.stage(r[0])) <= Arrange.FirstIndex(k, ps, k.stage(r[1]));
  }
}
