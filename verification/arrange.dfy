/** `arrangePlugins`: group the elements by stage, sort each group topologically and
    concatenate the groups. The groups come out in the order in which each stage first
    occurs in the input (the source collects them in a `Map`, which iterates in insertion
    order); they are not sorted by stage. */
module Arrange {
  import opened Seqs
  import opened Keys
  import opened Topological

  /** One entry of the source's `stageGroup` map: a stage and its elements in input
      order. */
  datatype StageGroup<T> = StageGroup(stage: int, members: seq<T>)

  /** The position of the group of stage `st` (the source's `stageGroup.has` / `get`),
      or `|gs|` when there is none. */
  function GroupIndex<T>(gs: seq<StageGroup<T>>, st: int): (r: nat)
    ensures r <= |gs|
    ensures r < |gs| ==> gs[r].stage == st
    ensures forall a :: 0 <= a < r ==> gs[a].stage != st
  {
    if gs == [] then 0
    else if gs[0].stage == st then 0
    else 1 + GroupIndex(gs[1..], st)
  }

  /** One turn of the grouping loop: append `p` to the group of stage `st`, opening a new
      group for it at the end when there is none yet. */
  function AddToGroup<T>(gs: seq<StageGroup<T>>, st: int, p: T): (r: seq<StageGroup<T>>)
  {
    var a := GroupIndex(gs, st);
    if a < |gs| then gs[a := gs[a].(members := gs[a].members + [p])]
    else gs + [StageGroup(st, [p])]
  }

  /** One grouping turn leaves the other stages' groups untouched, leaves `st` with a
      group that ends with `p`, and adds exactly `p` to the members. */
  lemma AddToGroupFacts<T>(gs: seq<StageGroup<T>>, st: int, p: T)
    ensures var r := AddToGroup(gs, st, p);
            && |gs| <= |r| <= |gs| + 1
            && (forall a :: 0 <= a < |gs| && gs[a].stage != st ==> r[a] == gs[a])
            && GroupIndex(r, st) < |r|
            && var m := r[GroupIndex(r, st)].members;
               m != [] && m[|m| - 1] == p
    ensures multiset(Flatten(AddToGroup(gs, st, p))) == multiset(Flatten(gs)) + multiset{p}
  {
    var a := GroupIndex(gs, st);
    if a < |gs| {
      FlattenUpdate(gs, a, p);
      var r := AddToGroup(gs, st, p);
      assert r[a].stage == st;
    } else {
      FlattenSnoc(gs, StageGroup(st, [p]));
      assert GroupIndex(AddToGroup(gs, st, p), st) == a by {
        GroupIndexSnoc(gs, StageGroup(st, [p]), st);
      }
    }
  }

  /** Appending a group of a stage not present yet puts that stage's group at the end. */
  lemma {:induction false} GroupIndexSnoc<T>(gs: seq<StageGroup<T>>, g: StageGroup<T>, st: int)
    requires GroupIndex(gs, st) == |gs| && g.stage == st
    ensures GroupIndex(gs + [g], st) == |gs|
  {
    if gs != [] {
      assert (gs + [g])[1..] == gs[1..] + [g];
      GroupIndexSnoc(gs[1..], g, st);
    }
  }

  /** The grouping loop over the whole input, first element to last. */
  function StageGroups<T>(k: Keys<T>, ps: seq<T>): (r: seq<StageGroup<T>>) {
    if ps == [] then []
    else AddToGroup(StageGroups(k, ps[..|ps| - 1]), k.stage(ps[|ps| - 1]), ps[|ps| - 1])
  }

  /** The position of the first element of stage `st`, or `|ps|` when there is none. */
  function FirstIndex<T>(k: Keys<T>, ps: seq<T>, st: int): (r: nat)
    ensures r <= |ps|
    ensures r < |ps| ==> k.stage(ps[r]) == st
    ensures forall i :: 0 <= i < r ==> k.stage(ps[i]) != st
  {
    if ps == [] then 0
    else if k.stage(ps[0]) == st then 0
    else 1 + FirstIndex(k, ps[1..], st)
  }

  /** All members of all groups, in group order. */
  function Flatten<T>(gs: seq<StageGroup<T>>): (r: seq<T>) {
    if gs == [] then [] else gs[0].members + Flatten(gs[1..])
  }

  /** Every group's members have distinct ids. */
  predicate GroupsDistinctIds<T>(k: Keys<T>, gs: seq<StageGroup<T>>) {
    forall a :: 0 <= a < |gs| ==> DistinctIds(k, gs[a].members)
  }

  /** The second loop's per-group step: each group's members, sorted topologically. */
  function SortEachGroup<T(!new)>(k: Keys<T>, gs: seq<StageGroup<T>>): (r: seq<seq<T>>)
    requires GroupsDistinctIds(k, gs)
    ensures |r| == |gs|
    ensures forall a :: 0 <= a < |gs| ==> r[a] == TopologicalSorting(k, gs[a].members)
    ensures forall a :: 0 <= a < |gs| ==> multiset(r[a]) == multiset(gs[a].members)
  {
    seq(|gs|, a requires 0 <= a < |gs| => TopologicalSorting(k, gs[a].members))
  }

  /** The second loop's concatenation: `res.push(...)` of each sorted group in turn. */
  function Concat<T>(ts: seq<seq<T>>): (r: seq<T>) {
    if ts == [] then [] else ts[0] + Concat(ts[1..])
  }

  /** Each group holds exactly its stage's elements, in input order. */
  ghost predicate GroupsHoldStages<T>(k: Keys<T>, ps: seq<T>, gs: seq<StageGroup<T>>) {
    forall a :: 0 <= a < |gs| ==> gs[a].members == OfStage(k, ps, gs[a].stage)
  }

  /** Groups are ordered by the first occurrence of their stage, which exists. */
  ghost predicate GroupsInFirstOccurrenceOrder<T>(k: Keys<T>, ps: seq<T>, gs: seq<StageGroup<T>>) {
    && (forall a :: 0 <= a < |gs| ==> FirstIndex(k, ps, gs[a].stage) < |ps|)
    && (forall a, b :: 0 <= a < b < |gs| ==>
          FirstIndex(k, ps, gs[a].stage) < FirstIndex(k, ps, gs[b].stage))
  }

  /** Every stage present in the input has a group. */
  ghost predicate GroupsCover<T>(k: Keys<T>, ps: seq<T>, gs: seq<StageGroup<T>>) {
    forall i :: 0 <= i < |ps| ==> GroupIndex(gs, k.stage(ps[i])) < |gs|
  }

  /** What the grouping loop produces: one group per stage present, holding exactly that
      stage's elements in input order, with groups ordered by the stage's first
      occurrence; together they hold the input. */
  ghost predicate GroupsOf<T>(k: Keys<T>, ps: seq<T>, gs: seq<StageGroup<T>>) {
    && GroupsHoldStages(k, ps, gs)
    && GroupsInFirstOccurrenceOrder(k, ps, gs)
    && GroupsCover(k, ps, gs)
    && multiset(Flatten(gs)) == multiset(ps)
  }

  /** `arrangePlugins`. */
  function ArrangePlugins<T(!new)>(k: Keys<T>, ps: seq<T>): (r: seq<T>)
    requires DistinctIds(k, ps)
    ensures |ps| < 2 ==> r == ps
    ensures multiset(r) == multiset(ps)
  {
    if |ps| < 2 then ps
    else
      var gs := StageGroups(k, ps);
      StageGroupsSpec(k, ps);
      GroupsKeepDistinctIds(k, ps, gs);
      var ts := SortEachGroup(k, gs);
      ConcatPermutation(ts, gs);
      Concat(ts)
  }

  lemma {:induction false} FlattenUpdate<T>(gs: seq<StageGroup<T>>, a: nat, p: T)
    requires a < |gs|
    ensures multiset(Flatten(gs[a := gs[a].(members := gs[a].members + [p])]))
            == multiset(Flatten(gs)) + multiset{p}
  {
    if a > 0 {
      FlattenUpdate(gs[1..], a - 1, p);
      assert gs[a := gs[a].(members := gs[a].members + [p])][1..]
             == gs[1..][a - 1 := gs[a].(members := gs[a].members + [p])];
    } else {
      assert gs[0 := gs[0].(members := gs[0].members + [p])][1..] == gs[1..];
    }
  }

  lemma {:induction false} FlattenSnoc<T>(gs: seq<StageGroup<T>>, g: StageGroup<T>)
    ensures Flatten(gs + [g]) == Flatten(gs) + g.members
  {
    if gs != [] {
      FlattenSnoc(gs[1..], g);
      assert (gs + [g])[1..] == gs[1..] + [g];
    }
  }

  lemma {:induction false} FirstIndexAppend<T>(k: Keys<T>, ps: seq<T>, p: T, st: int)
    ensures FirstIndex(k, ps + [p], st)
            == if FirstIndex(k, ps, st) < |ps| || k.stage(p) == st then FirstIndex(k, ps, st)
               else |ps| + 1
  {
    if ps != [] {
      FirstIndexAppend(k, ps[1..], p, st);
      assert (ps + [p])[1..] == ps[1..] + [p];
    }
  }

  /** A stage with no group does not occur in the input. */
  lemma AbsentStage<T>(k: Keys<T>, ps: seq<T>, gs: seq<StageGroup<T>>, st: int)
    requires GroupsCover(k, ps, gs) && GroupIndex(gs, st) == |gs|
    ensures FirstIndex(k, ps, st) == |ps|
    ensures OfStage(k, ps, st) == []
  {
    OfStageNone(k, ps, st);
  }

  lemma StepHoldStages<T>(k: Keys<T>, init: seq<T>, p: T, gs: seq<StageGroup<T>>)
    requires GroupsHoldStages(k, init, gs) && GroupsCover(k, init, gs)
    requires forall a, b :: 0 <= a < b < |gs| ==> gs[a].stage != gs[b].stage
    ensures GroupsHoldStages(k, init + [p], AddToGroup(gs, k.stage(p), p))
  {
    var st := k.stage(p);
    var gs' := AddToGroup(gs, st, p);
    forall a | 0 <= a < |gs'|
      ensures gs'[a].members == OfStage(k, init + [p], gs'[a].stage)
    {
      OfStageConcat(k, init, [p], gs'[a].stage);
      if a == |gs| {
        AbsentStage(k, init, gs, st);
      }
    }
  }

  lemma StepOrder<T>(k: Keys<T>, init: seq<T>, p: T, gs: seq<StageGroup<T>>)
    requires GroupsInFirstOccurrenceOrder(k, init, gs) && GroupsCover(k, init, gs)
    ensures GroupsInFirstOccurrenceOrder(k, init + [p], AddToGroup(gs, k.stage(p), p))
  {
    var st := k.stage(p);
    var ps' := init + [p];
    forall a | 0 <= a < |gs|
      ensures FirstIndex(k, ps', gs[a].stage) == FirstIndex(k, init, gs[a].stage)
    {
      FirstIndexAppend(k, init, p, gs[a].stage);
    }
    var i := GroupIndex(gs, st);
    if i < |gs| {
      OrderTransfer(k, init, ps', gs, gs[i := gs[i].(members := gs[i].members + [p])]);
    } else {
      AbsentStage(k, init, gs, st);
      FirstIndexAppend(k, init, p, st);
      OrderTransfer(k, init, ps', gs, gs);
      OrderSnoc(k, ps', gs, StageGroup(st, [p]));
    }
  }

  /** Groups keeping their stages, over an input keeping their first occurrences, stay in
      first-occurrence order. */
  lemma OrderTransfer<T>(k: Keys<T>, ps: seq<T>, ps': seq<T>, gs: seq<StageGroup<T>>, gs': seq<StageGroup<T>>)
    requires GroupsInFirstOccurrenceOrder(k, ps, gs) && |ps| <= |ps'|
    requires |gs'| == |gs| && forall a :: 0 <= a < |gs| ==> gs'[a].stage == gs[a].stage
    requires forall a :: 0 <= a < |gs| ==> FirstIndex(k, ps', gs[a].stage) == FirstIndex(k, ps, gs[a].stage)
    ensures GroupsInFirstOccurrenceOrder(k, ps', gs')
  {
  }

  /** A new last group whose stage first occurs after every other group's keeps the
      order. */
  lemma OrderSnoc<T>(k: Keys<T>, ps: seq<T>, gs: seq<StageGroup<T>>, g: StageGroup<T>)
    requires GroupsInFirstOccurrenceOrder(k, ps, gs) && FirstIndex(k, ps, g.stage) < |ps|
    requires forall a :: 0 <= a < |gs| ==> FirstIndex(k, ps, gs[a].stage) < FirstIndex(k, ps, g.stage)
    ensures GroupsInFirstOccurrenceOrder(k, ps, gs + [g])
  {
    var gs' := gs + [g];
    assert forall a :: 0 <= a < |gs| ==> gs'[a] == gs[a];
  }

  lemma StepCover<T>(k: Keys<T>, init: seq<T>, p: T, gs: seq<StageGroup<T>>)
    requires GroupsCover(k, init, gs)
    ensures GroupsCover(k, init + [p], AddToGroup(gs, k.stage(p), p))
  {
    var st := k.stage(p);
    var gs' := AddToGroup(gs, st, p);
    forall s | GroupIndex(gs, s) < |gs|
      ensures GroupIndex(gs', s) < |gs'|
    {
      GroupIndexGrows(gs, st, p, s);
    }
    assert GroupIndex(gs', st) < |gs'| by {
      GroupIndexGrows(gs, st, p, st);
    }
    forall i | 0 <= i < |init + [p]|
      ensures GroupIndex(gs', k.stage((init + [p])[i])) < |gs'|
    {
      if i < |init| {
        assert (init + [p])[i] == init[i];
      }
    }
  }

  /** After adding, the new stage has a group and every old group is still found. */
  lemma GroupIndexGrows<T>(gs: seq<StageGroup<T>>, st: int, p: T, s: int)
    requires GroupIndex(gs, s) < |gs| || s == st
    ensures GroupIndex(AddToGroup(gs, st, p), s) < |AddToGroup(gs, st, p)|
  {
    var gs' := AddToGroup(gs, st, p);
    var a := GroupIndex(gs, s);
    if a < |gs| {
      assert gs'[a].stage == s;
    } else {
      assert gs'[GroupIndex(gs, st)].stage == st;
    }
  }

  /** Stages of distinct groups differ, since their first occurrences do. */
  lemma OrderedGroupsDistinct<T>(k: Keys<T>, ps: seq<T>, gs: seq<StageGroup<T>>)
    requires GroupsInFirstOccurrenceOrder(k, ps, gs)
    ensures forall a, b :: 0 <= a < b < |gs| ==> gs[a].stage != gs[b].stage
  {
  }

  /** The grouping loop produces the groups `GroupsOf` describes. */
  lemma {:induction false} StageGroupsSpec<T>(k: Keys<T>, ps: seq<T>)
    ensures GroupsOf(k, ps, StageGroups(k, ps))
  {
    if ps != [] {
      var init, p := ps[..|ps| - 1], ps[|ps| - 1];
      var gs := StageGroups(k, init);
      StageGroupsSpec(k, init);
      OrderedGroupsDistinct(k, init, gs);
      assert ps == init + [p];
      StepHoldStages(k, init, p, gs);
      StepOrder(k, init, p, gs);
      StepCover(k, init, p, gs);
      AddToGroupFacts(gs, k.stage(p), p);
    }
  }

  /** Every group of a distinct-id input has distinct ids. */
  lemma GroupsKeepDistinctIds<T>(k: Keys<T>, ps: seq<T>, gs: seq<StageGroup<T>>)
    requires DistinctIds(k, ps) && GroupsOf(k, ps, gs)
    ensures GroupsDistinctIds(k, gs)
  {
    forall a | 0 <= a < |gs|
      ensures DistinctIds(k, gs[a].members)
    {
      OfStageDistinctIds(k, ps, gs[a].stage);
    }
  }

  /** A sequence with at most one element is the only permutation of itself. */
  lemma ShortPermutation<T>(s: seq<T>, t: seq<T>)
    requires |s| <= 1 && multiset(t) == multiset(s)
    ensures t == s
  {
    assert |t| == |multiset(t)| == |multiset(s)| == |s|;
    if |s| == 1 {
      assert t[0] in multiset(s);
    }
  }

  /** The sorted groups, position by position, hold the same elements as the groups. */
  lemma {:induction false} ConcatPermutation<T>(ts: seq<seq<T>>, gs: seq<StageGroup<T>>)
    requires |ts| == |gs|
    requires forall a :: 0 <= a < |gs| ==> multiset(ts[a]) == multiset(gs[a].members)
    ensures multiset(Concat(ts)) == multiset(Flatten(gs))
  {
    if ts != [] {
      ConcatPermutation(ts[1..], gs[1..]);
    }
  }

  /** Every group's members are of the group's stage. */
  ghost predicate GroupsUniform<T>(k: Keys<T>, gs: seq<StageGroup<T>>) {
    forall a, i :: 0 <= a < |gs| && 0 <= i < |gs[a].members| ==> k.stage(gs[a].members[i]) == gs[a].stage
  }

  lemma HoldStagesUniform<T>(k: Keys<T>, ps: seq<T>, gs: seq<StageGroup<T>>)
    requires GroupsHoldStages(k, ps, gs)
    ensures GroupsUniform(k, gs)
  {
    forall a, i | 0 <= a < |gs| && 0 <= i < |gs[a].members|
      ensures k.stage(gs[a].members[i]) == gs[a].stage
    {
      assert gs[a].members == OfStage(k, ps, gs[a].stage);
    }
  }

  /** Sequence `ts[a]` holds only elements of stage `gs[a].stage`. */
  ghost predicate SortedUniform<T>(k: Keys<T>, ts: seq<seq<T>>, gs: seq<StageGroup<T>>) {
    && |ts| == |gs|
    && forall a, i :: 0 <= a < |ts| && 0 <= i < |ts[a]| ==> k.stage(ts[a][i]) == gs[a].stage
  }

  /** A sorted group holds only elements of its group's stage. */
  lemma SortEachGroupUniform<T(!new)>(k: Keys<T>, gs: seq<StageGroup<T>>)
    requires GroupsDistinctIds(k, gs) && GroupsUniform(k, gs)
    ensures SortedUniform(k, SortEachGroup(k, gs), gs)
  {
    var ts := SortEachGroup(k, gs);
    forall a, i | 0 <= a < |ts| && 0 <= i < |ts[a]|
      ensures k.stage(ts[a][i]) == gs[a].stage
    {
      assert ts[a][i] in multiset(gs[a].members);
    }
  }

  /** Filtering the concatenation by a stage picks out that stage's sorted group. */
  lemma {:induction false} ConcatOfStage<T>(k: Keys<T>, ts: seq<seq<T>>, gs: seq<StageGroup<T>>, st: int)
    requires SortedUniform(k, ts, gs)
    requires forall a, b :: 0 <= a < b < |gs| ==> gs[a].stage != gs[b].stage
    ensures GroupIndex(gs, st) < |gs| ==> OfStage(k, Concat(ts), st) == ts[GroupIndex(gs, st)]
    ensures GroupIndex(gs, st) == |gs| ==> OfStage(k, Concat(ts), st) == []
  {
    if ts != [] {
      ConcatOfStage(k, ts[1..], gs[1..], st);
      OfStageConcat(k, ts[0], Concat(ts[1..]), st);
      if gs[0].stage == st {
        OfStageAll(k, ts[0], st);
        assert GroupIndex(gs[1..], st) == |gs[1..]|;
      } else {
        OfStageNone(k, ts[0], st);
      }
    }
  }

  /** A bound on the first occurrence of every group's stage bounds that of every
      element of the concatenation. */
  lemma {:induction false} ConcatBounded<T>(k: Keys<T>, ps: seq<T>, ts: seq<seq<T>>, gs: seq<StageGroup<T>>, lo: int)
    requires SortedUniform(k, ts, gs)
    requires forall a :: 0 <= a < |gs| ==> lo <= FirstIndex(k, ps, gs[a].stage)
    ensures forall y :: 0 <= y < |Concat(ts)| ==> lo <= FirstIndex(k, ps, k.stage(Concat(ts)[y]))
  {
    if ts != [] {
      var t, rest := ts[0], Concat(ts[1..]);
      ConcatBounded(k, ps, ts[1..], gs[1..], lo);
      forall y | 0 <= y < |Concat(ts)|
        ensures lo <= FirstIndex(k, ps, k.stage(Concat(ts)[y]))
      {
        if y < |t| {
          assert Concat(ts)[y] == t[y];
        } else {
          assert Concat(ts)[y] == rest[y - |t|];
        }
      }
    }
  }

  /** Along `r`, the first occurrence in `ps` of each element's stage never decreases. */
  ghost predicate FollowsFirstOccurrence<T>(k: Keys<T>, ps: seq<T>, r: seq<T>) {
    forall x, y :: 0 <= x < y < |r| ==>
      FirstIndex(k, ps, k.stage(r[x])) <= FirstIndex(k, ps, k.stage(r[y]))
  }

  /** Groups whose first occurrences increase come out in that order. */
  lemma {:induction false} ConcatOrdered<T>(k: Keys<T>, ps: seq<T>, ts: seq<seq<T>>, gs: seq<StageGroup<T>>)
    requires SortedUniform(k, ts, gs)
    requires forall a, b :: 0 <= a < b < |gs| ==>
               FirstIndex(k, ps, gs[a].stage) < FirstIndex(k, ps, gs[b].stage)
    ensures FollowsFirstOccurrence(k, ps, Concat(ts))
  {
    if ts != [] {
      var t, rest := ts[0], Concat(ts[1..]);
      var r := Concat(ts);
      var lo := FirstIndex(k, ps, gs[0].stage);
      ConcatOrdered(k, ps, ts[1..], gs[1..]);
      ConcatBounded(k, ps, ts[1..], gs[1..], lo);
      forall x, y | 0 <= x < y < |r|
        ensures FirstIndex(k, ps, k.stage(r[x])) <= FirstIndex(k, ps, k.stage(r[y]))
      {
        if y < |t| {
          assert r[x] == t[x] && r[y] == t[y];
        } else if x < |t| {
          assert r[x] == t[x];
          assert r[y] == rest[y - |t|];
          assert lo <= FirstIndex(k, ps, k.stage(rest[y - |t|]));
        } else {
          assert r[x] == rest[x - |t|];
          assert r[y] == rest[y - |t|];
        }
      }
    }
  }

  /** Within one stage, the result lists that stage's elements exactly as topological
      sorting of them (taken in input order) does: so an "after" edge between two
      elements of the same stage is honoured whenever that stage has no cycle, and a
      stage with a cycle keeps its input order. */
  lemma ArrangeWithinStage<T(!new)>(k: Keys<T>, ps: seq<T>, st: int)
    requires DistinctIds(k, ps)
    ensures DistinctIds(k, OfStage(k, ps, st))
    ensures OfStage(k, ArrangePlugins(k, ps), st) == TopologicalSorting(k, OfStage(k, ps, st))
  {
    OfStageDistinctIds(k, ps, st);
    var group := OfStage(k, ps, st);
    if |ps| < 2 {
      ShortPermutation(group, TopologicalSorting(k, group));
    } else {
      var gs := StageGroups(k, ps);
      StageGroupsSpec(k, ps);
      GroupsKeepDistinctIds(k, ps, gs);
      HoldStagesUniform(k, ps, gs);
      OrderedGroupsDistinct(k, ps, gs);
      SortEachGroupUniform(k, gs);
      ConcatOfStage(k, SortEachGroup(k, gs), gs, st);
      if GroupIndex(gs, st) == |gs| {
        AbsentStage(k, ps, gs, st);
        ShortPermutation(group, TopologicalSorting(k, group));
      }
    }
  }

  /** Along the result, the first occurrence in the input of each element's stage never
      decreases: the stages come out as contiguous blocks, in the order in which each
      stage first occurs in the input. */
  lemma ArrangeGroupOrder<T(!new)>(k: Keys<T>, ps: seq<T>)
    requires DistinctIds(k, ps)
    ensures FollowsFirstOccurrence(k, ps, ArrangePlugins(k, ps))
  {
    if |ps| >= 2 {
      var gs := StageGroups(k, ps);
      StageGroupsSpec(k, ps);
      GroupsKeepDistinctIds(k, ps, gs);
      HoldStagesUniform(k, ps, gs);
      SortEachGroupUniform(k, gs);
      ConcatOrdered(k, ps, SortEachGroup(k, gs), gs);
    }
  }

  /** The stage of an element of `ps` first occurs at a position of `ps`. */
  lemma FirstIndexOfMember<T>(k: Keys<T>, ps: seq<T>, x: T)
    requires x in multiset(ps)
    ensures FirstIndex(k, ps, k.stage(x)) < |ps|
    ensures k.stage(ps[FirstIndex(k, ps, k.stage(x))]) == k.stage(x)
  {
    var u :| 0 <= u < |ps| && ps[u] == x;
    assert k.stage(ps[u]) == k.stage(x);
  }

  /** Each stage's elements are contiguous in the result. */
  lemma ArrangeContiguous<T(!new)>(k: Keys<T>, ps: seq<T>)
    requires DistinctIds(k, ps)
    ensures var r := ArrangePlugins(k, ps);
            forall a, b, c :: 0 <= a < b < c < |r| && k.stage(r[a]) == k.stage(r[c]) ==>
              k.stage(r[b]) == k.stage(r[a])
  {
    ArrangeGroupOrder(k, ps);
    OrderedIsContiguous(k, ps, ArrangePlugins(k, ps));
  }

  /** A rearrangement following first occurrence keeps each stage contiguous: a stage
      between two elements of stage `st` first occurs no earlier and no later than
      `st`, so it is `st`. */
  lemma OrderedIsContiguous<T>(k: Keys<T>, ps: seq<T>, r: seq<T>)
    requires multiset(r) == multiset(ps) && FollowsFirstOccurrence(k, ps, r)
    ensures forall a, b, c :: 0 <= a < b < c < |r| && k.stage(r[a]) == k.stage(r[c]) ==>
              k.stage(r[b]) == k.stage(r[a])
  {
    forall a, b, c | 0 <= a < b < c < |r| && k.stage(r[a]) == k.stage(r[c])
      ensures k.stage(r[b]) == k.stage(r[a])
    {
      assert r[a] in multiset(r) && r[b] in multiset(r);
      FirstIndexOfMember(k, ps, r[a]);
      FirstIndexOfMember(k, ps, r[b]);
      var fa := FirstIndex(k, ps, k.stage(r[a]));
      var fb := FirstIndex(k, ps, k.stage(r[b]));
      assert fa <= fb;
      assert fb <= FirstIndex(k, ps, k.stage(r[c]));
    }
  }

  /** A stage-ascending input gives a stage-ascending result. */
  lemma ArrangeKeepsAscending<T(!new)>(k: Keys<T>, ps: seq<T>)
    requires DistinctIds(k, ps) && StageAscending(k, ps)
    ensures StageAscending(k, ArrangePlugins(k, ps))
  {
    var r := ArrangePlugins(k, ps);
    ArrangeGroupOrder(k, ps);
    forall a, b | 0 <= a < b < |r|
      ensures k.stage(r[a]) <= k.stage(r[b])
    {
      FirstIndexOfMember(k, ps, r[a]);
      FirstIndexOfMember(k, ps, r[b]);
      var i := FirstIndex(k, ps, k.stage(r[a]));
      var j := FirstIndex(k, ps, k.stage(r[b]));
      assert i <= j;
      assert i == j || k.stage(ps[i]) <= k.stage(ps[j]);
    }
  }
}
