/** `topologicalSorting`: Kahn's algorithm over the "after" edges inside one set of
    elements, falling back to the input order when some element is never output. The
    algorithm works on indices into the input; the index lists stand for the source's
    queue and result arrays, and `indeg` for its indegree map. */
module Topological {
  import opened Seqs
  import opened Keys

  /** Element `i` is a prerequisite of element `j`: `j`'s after set names `i`'s id. */
  predicate Prereq<T>(k: Keys<T>, ps: seq<T>, i: nat, j: nat)
    requires i < |ps| && j < |ps|
  {
    k.id(ps[i]) in k.after(ps[j])
  }

  /** Every element named in another element's after set comes before it. */
  predicate IsTopological<T>(k: Keys<T>, s: seq<T>) {
    forall a, b :: 0 <= a < |s| && 0 <= b < |s| && k.id(s[a]) in k.after(s[b]) ==> a < b
  }

  /** Some rearrangement of `ps` honours every after edge inside `ps`; false exactly when
      the edges inside `ps` contain a cycle (a self-reference included). */
  ghost predicate HasTopologicalOrder<T(!new)>(k: Keys<T>, ps: seq<T>) {
    exists s :: multiset(s) == multiset(ps) && IsTopological(k, s)
  }

  /** The ids present in `ps` (the keys of the source's `pluginsMap`). */
  function IdSet<T>(k: Keys<T>, ps: seq<T>): (r: set<string>) {
    IdsBelow(k, ps, |ps|)
  }

  /** The ids of the elements below `m`. */
  function IdsBelow<T>(k: Keys<T>, ps: seq<T>, m: nat): (r: set<string>)
    requires m <= |ps|
  {
    if m == 0 then {}
    else IdsBelow(k, ps, m - 1) + {k.id(ps[m - 1])}
  }

  /** With distinct ids, the id of element `m` is not among those below it. */
  lemma {:induction false} IdNotBelow<T>(k: Keys<T>, ps: seq<T>, m: nat, n: nat)
    requires DistinctIds(k, ps) && n <= m < |ps|
    ensures k.id(ps[m]) !in IdsBelow(k, ps, n)
    decreases n
  {
    if n > 0 {
      IdNotBelow(k, ps, m, n - 1);
    }
  }

  /** The starting indegree: the size of the after set, less one for every id naming no
      element of `ps`. */
  function InitialIndegree<T>(k: Keys<T>, ps: seq<T>, j: nat): (r: int)
    requires j < |ps|
  {
    |k.after(ps[j])| - |k.after(ps[j]) - IdSet(k, ps)|
  }

  function InitialIndegrees<T>(k: Keys<T>, ps: seq<T>): (r: seq<int>)
    ensures |r| == |ps|
  {
    seq(|ps|, j requires 0 <= j < |ps| => InitialIndegree(k, ps, j))
  }

  /** The prerequisites of `j` inside `ps` that are not yet in `done`. */
  ghost function Pending<T>(k: Keys<T>, ps: seq<T>, j: nat, done: seq<nat>): set<nat>
    requires j < |ps|
  {
    set i: nat | i < |ps| && Prereq(k, ps, i, j) && i !in done
  }

  /** The seed of the queue: indices from `from` on whose indegree is zero, in input
      order. */
  function ZeroIndegree(indeg: seq<int>, from: nat): (r: seq<nat>)
    requires from <= |indeg|
    ensures forall x: nat :: x in r <==> from <= x < |indeg| && indeg[x] == 0
    ensures Increasing(r)
    ensures Distinct(r) && Below(r, |indeg|)
    decreases |indeg| - from
  {
    if from == |indeg| then []
    else if indeg[from] == 0 then
      var rest := ZeroIndegree(indeg, from + 1);
      IncreasingCons(from, rest);
      [from] + rest
    else ZeroIndegree(indeg, from + 1)
  }

  /** The adjacency list of `i` (from `from` on): the elements whose after set names `i`,
      in input order, which is the order the source records the edges in. */
  function Successors<T>(k: Keys<T>, ps: seq<T>, i: nat, from: nat): (r: seq<nat>)
    requires i < |ps| && from <= |ps|
    ensures forall x: nat :: x in r <==> from <= x < |ps| && Prereq(k, ps, i, x)
    ensures Increasing(r)
    ensures Distinct(r) && Below(r, |ps|)
    decreases |ps| - from
  {
    if from == |ps| then []
    else if Prereq(k, ps, i, from) then
      var rest := Successors(k, ps, i, from + 1);
      IncreasingCons(from, rest);
      [from] + rest
    else Successors(k, ps, i, from + 1)
  }

  /** The inner loop over a dequeued element's successors: decrement each one's indegree
      and enqueue it the moment that reaches zero. */
  function Relax(succ: seq<nat>, indeg: seq<int>, queue: seq<nat>): (r: (seq<int>, seq<nat>))
    requires Below(succ, |indeg|) && Distinct(succ)
    ensures |r.0| == |indeg|
    decreases |succ|
  {
    if succ == [] then (indeg, queue)
    else
      var j := succ[0];
      var d := indeg[j] - 1;
      Relax(succ[1..], indeg[j := d], if d == 0 then queue + [j] else queue)
  }

  /** The successors whose indegree is one, in the order `succ` lists them: the ones a
      relaxation releases. */
  function Released(succ: seq<nat>, indeg: seq<int>): (r: seq<nat>)
    requires Below(succ, |indeg|) && Distinct(succ)
    ensures forall x: nat :: x in r <==> x in succ && x < |indeg| && indeg[x] == 1
    ensures Distinct(r)
  {
    if succ == [] then []
    else
      var rest := Released(succ[1..], indeg);
      assert succ[0] !in succ[1..];
      if indeg[succ[0]] == 1 then [succ[0]] + rest else rest
  }

  /** Changing the indegree of an index that is not a successor changes nothing
      released. */
  lemma {:induction false} ReleasedFrame(succ: seq<nat>, indeg: seq<int>, j: nat, v: int)
    requires Below(succ, |indeg|) && Distinct(succ) && j < |indeg| && j !in succ
    ensures Released(succ, indeg[j := v]) == Released(succ, indeg)
    decreases |succ|
  {
    if succ != [] {
      assert j !in succ[1..];
      ReleasedFrame(succ[1..], indeg, j, v);
    }
  }

  /** Relaxing decrements exactly the successors' indegrees, keeps the queue it was given
      as a prefix, and appends, without repetition, exactly the successors whose indegree
      was one, in the order the successors are listed. */
  lemma RelaxFacts(succ: seq<nat>, indeg: seq<int>, queue: seq<nat>)
    requires Below(succ, |indeg|) && Distinct(succ)
    ensures var r := Relax(succ, indeg, queue);
            && (forall j :: 0 <= j < |indeg| ==> r.0[j] == indeg[j] - (if j in succ then 1 else 0))
            && |queue| <= |r.1| && r.1[..|queue|] == queue
            && r.1[|queue|..] == Released(succ, indeg)
            && (forall x: nat :: x in r.1[|queue|..] <==> x in succ && x < |indeg| && indeg[x] == 1)
            && Distinct(r.1[|queue|..])
  {
    RelaxIndegrees(succ, indeg, queue);
    RelaxKeepsQueue(succ, indeg, queue);
    RelaxAdded(succ, indeg, queue);
  }

  lemma {:induction false} RelaxIndegrees(succ: seq<nat>, indeg: seq<int>, queue: seq<nat>)
    requires Below(succ, |indeg|) && Distinct(succ)
    ensures forall j :: 0 <= j < |indeg| ==>
              Relax(succ, indeg, queue).0[j] == indeg[j] - (if j in succ then 1 else 0)
    decreases |succ|
  {
    if succ != [] {
      var j := succ[0];
      var d := indeg[j] - 1;
      assert succ == [j] + succ[1..];
      assert j !in succ[1..];
      RelaxIndegrees(succ[1..], indeg[j := d], if d == 0 then queue + [j] else queue);
    }
  }

  lemma {:induction false} RelaxKeepsQueue(succ: seq<nat>, indeg: seq<int>, queue: seq<nat>)
    requires Below(succ, |indeg|) && Distinct(succ)
    ensures |queue| <= |Relax(succ, indeg, queue).1|
    ensures Relax(succ, indeg, queue).1[..|queue|] == queue
    decreases |succ|
  {
    if succ != [] {
      var j := succ[0];
      var d := indeg[j] - 1;
      var q := if d == 0 then queue + [j] else queue;
      RelaxKeepsQueue(succ[1..], indeg[j := d], q);
      var t := Relax(succ[1..], indeg[j := d], q).1;
      assert t[..|queue|] == t[..|q|][..|queue|];
    }
  }

  lemma {:induction false} RelaxAdded(succ: seq<nat>, indeg: seq<int>, queue: seq<nat>)
    requires Below(succ, |indeg|) && Distinct(succ)
    ensures var t := Relax(succ, indeg, queue).1;
            && |queue| <= |t|
            && t[|queue|..] == Released(succ, indeg)
            && (forall x: nat :: x in t[|queue|..] <==> x in succ && x < |indeg| && indeg[x] == 1)
            && Distinct(t[|queue|..])
    decreases |succ|
  {
    RelaxKeepsQueue(succ, indeg, queue);
    if succ != [] {
      var j := succ[0];
      var d := indeg[j] - 1;
      var added := if d == 0 then [j] else [];
      assert queue + added == if d == 0 then queue + [j] else queue;
      var t := Relax(succ[1..], indeg[j := d], queue + added).1;
      assert j !in succ[1..];
      RelaxKeepsQueue(succ[1..], indeg[j := d], queue + added);
      RelaxAdded(succ[1..], indeg[j := d], queue + added);
      ReleasedFrame(succ[1..], indeg, j, d);
      PrefixTail(queue, added, t);
      assert Released(succ, indeg) == added + Released(succ[1..], indeg);
    }
  }

  /** `res` and `queue` hold valid indices, never repeat one, and fit in `ps`. */
  ghost predicate QueueShape<T>(ps: seq<T>, queue: seq<nat>, indeg: seq<int>, res: seq<nat>) {
    && |indeg| == |ps|
    && Below(res, |ps|) && Below(queue, |ps|)
    && Distinct(res + queue)
    && |res| + |queue| <= |ps|
  }

  /** An element's indegree is the number of its in-set prerequisites not yet output. */
  ghost predicate IndegreeCounts<T>(k: Keys<T>, ps: seq<T>, indeg: seq<int>, res: seq<nat>)
    requires |indeg| == |ps|
  {
    forall j: nat :: j < |ps| ==> indeg[j] == |Pending(k, ps, j, res)|
  }

  /** An element has been output or enqueued exactly when none of its prerequisites is
      missing from the output. */
  ghost predicate ReadyExactly<T>(k: Keys<T>, ps: seq<T>, queue: seq<nat>, res: seq<nat>) {
    forall j: nat :: j < |ps| ==> (j in res + queue <==> Pending(k, ps, j, res) == {})
  }

  /** Every output element came after all of its prerequisites. */
  ghost predicate OutputAfterPrereqs<T>(k: Keys<T>, ps: seq<T>, res: seq<nat>)
    requires Below(res, |ps|)
  {
    forall a :: 0 <= a < |res| ==> Pending(k, ps, res[a], res[..a]) == {}
  }

  /** The loop invariant of the main queue loop. */
  ghost predicate KahnInv<T>(k: Keys<T>, ps: seq<T>, queue: seq<nat>, indeg: seq<int>, res: seq<nat>) {
    && QueueShape(ps, queue, indeg, res)
    && IndegreeCounts(k, ps, indeg, res)
    && ReadyExactly(k, ps, queue, res)
    && OutputAfterPrereqs(k, ps, res)
  }

  lemma PendingAfterOutput<T>(k: Keys<T>, ps: seq<T>, j: nat, res: seq<nat>, cur: nat)
    requires j < |ps|
    ensures Pending(k, ps, j, res + [cur]) == Pending(k, ps, j, res) - {cur}
  {
  }

  /** The front of the queue is a valid index that has not been output. */
  lemma FrontNotOutput<T>(ps: seq<T>, queue: seq<nat>, indeg: seq<int>, res: seq<nat>)
    requires QueueShape(ps, queue, indeg, res) && queue != []
    ensures queue[0] < |ps| && queue[0] !in res
    ensures res + queue == (res + [queue[0]]) + queue[1..]
  {
    assert (res + queue)[|res|] == queue[0];
    forall a | 0 <= a < |res|
      ensures res[a] != queue[0]
    {
      assert (res + queue)[a] == res[a];
    }
  }

  lemma StepIndegrees<T>(k: Keys<T>, ps: seq<T>, queue: seq<nat>, indeg: seq<int>, res: seq<nat>)
    requires KahnInv(k, ps, queue, indeg, res) && queue != []
    ensures queue[0] < |ps|
    ensures var next := Relax(Successors(k, ps, queue[0], 0), indeg, queue[1..]);
            IndegreeCounts(k, ps, next.0, res + [queue[0]])
  {
    FrontNotOutput(ps, queue, indeg, res);
    RelaxFacts(Successors(k, ps, queue[0], 0), indeg, queue[1..]);
    var cur := queue[0];
    var succ := Successors(k, ps, cur, 0);
    var next := Relax(succ, indeg, queue[1..]);
    forall j: nat | j < |ps|
      ensures next.0[j] == |Pending(k, ps, j, res + [cur])|
    {
      PendingAfterOutput(k, ps, j, res, cur);
      if j in succ {
        assert cur in Pending(k, ps, j, res);
      } else {
        assert cur !in Pending(k, ps, j, res);
      }
    }
  }

  lemma StepShape<T>(k: Keys<T>, ps: seq<T>, queue: seq<nat>, indeg: seq<int>, res: seq<nat>)
    requires KahnInv(k, ps, queue, indeg, res) && queue != []
    ensures queue[0] < |ps|
    ensures var next := Relax(Successors(k, ps, queue[0], 0), indeg, queue[1..]);
            QueueShape(ps, next.1, next.0, res + [queue[0]])
  {
    FrontNotOutput(ps, queue, indeg, res);
    RelaxFacts(Successors(k, ps, queue[0], 0), indeg, queue[1..]);
    var cur := queue[0];
    var succ := Successors(k, ps, cur, 0);
    var rest := queue[1..];
    var next := Relax(succ, indeg, rest);
    var res', queue' := res + [cur], next.1;
    var added := queue'[|rest|..];
    forall x | x in added
      ensures x !in res' + rest
    {
      assert cur in Pending(k, ps, x, res);
    }
    DistinctConcat(res' + rest, added);
    assert queue' == rest + added;
    assert res' + queue' == (res' + rest) + added;
    assert Below(added, |ps|) by {
      forall a | 0 <= a < |added|
        ensures added[a] < |ps|
      {
        assert added[a] in added;
      }
    }
    assert queue == [cur] + rest;
    BelowConcat([cur], rest, |ps|);
    BelowConcat(rest, added, |ps|);
    BelowConcat(res, [cur], |ps|);
    BelowConcat(res', queue', |ps|);
    DistinctBelowLength(res' + queue', |ps|);
  }

  /** An element whose only missing prerequisite was `cur` becomes ready when `cur` is
      output. */
  lemma ReadyByCur<T>(k: Keys<T>, ps: seq<T>, j: nat, res: seq<nat>, cur: nat)
    requires j < |ps| && cur < |ps|
    requires Pending(k, ps, j, res) != {} && Pending(k, ps, j, res + [cur]) == {}
    ensures Pending(k, ps, j, res) == {cur} && Prereq(k, ps, cur, j)
  {
    PendingAfterOutput(k, ps, j, res, cur);
    var i :| i in Pending(k, ps, j, res);
    assert i !in Pending(k, ps, j, res) - {cur};
  }

  lemma StepReady<T>(k: Keys<T>, ps: seq<T>, queue: seq<nat>, indeg: seq<int>, res: seq<nat>)
    requires KahnInv(k, ps, queue, indeg, res) && queue != []
    ensures var next := Relax(Successors(k, ps, queue[0], 0), indeg, queue[1..]);
            ReadyExactly(k, ps, next.1, res + [queue[0]])
  {
    FrontNotOutput(ps, queue, indeg, res);
    RelaxFacts(Successors(k, ps, queue[0], 0), indeg, queue[1..]);
    var cur := queue[0];
    var succ := Successors(k, ps, cur, 0);
    var rest := queue[1..];
    var next := Relax(succ, indeg, rest);
    var res', queue' := res + [cur], next.1;
    var added := queue'[|rest|..];
    assert queue' == rest + added;
    forall j: nat | j < |ps|
      ensures j in res' + queue' <==> Pending(k, ps, j, res') == {}
    {
      PendingAfterOutput(k, ps, j, res, cur);
      if j in res' + rest {
        assert j in res + queue;
      }
      if j in added {
        assert Pending(k, ps, j, res) == {cur} by {
          assert cur in Pending(k, ps, j, res);
          assert |Pending(k, ps, j, res)| == 1;
          var other := Pending(k, ps, j, res) - {cur};
          assert |other| == 0;
        }
      }
      if Pending(k, ps, j, res') == {} && j !in res' + rest {
        assert j !in res + queue;
        ReadyByCur(k, ps, j, res, cur);
        assert j in succ;
        assert j in added;
      }
    }
  }

  lemma StepOutput<T>(k: Keys<T>, ps: seq<T>, queue: seq<nat>, indeg: seq<int>, res: seq<nat>)
    requires KahnInv(k, ps, queue, indeg, res) && queue != []
    ensures queue[0] < |ps|
    ensures Below(res + [queue[0]], |ps|)
    ensures OutputAfterPrereqs(k, ps, res + [queue[0]])
  {
    FrontNotOutput(ps, queue, indeg, res);
    var res' := res + [queue[0]];
    assert queue[0] in res + queue;
    forall a | 0 <= a < |res'|
      ensures Pending(k, ps, res'[a], res'[..a]) == {}
    {
      if a < |res| {
        assert res'[..a] == res[..a];
      } else {
        assert res'[..a] == res;
      }
    }
  }

  /** One turn of the main loop (dequeue, output, relax the successors) keeps the
      invariant. */
  lemma StepKeepsInv<T>(k: Keys<T>, ps: seq<T>, queue: seq<nat>, indeg: seq<int>, res: seq<nat>)
    requires KahnInv(k, ps, queue, indeg, res) && queue != []
    ensures queue[0] < |ps|
    ensures var next := Relax(Successors(k, ps, queue[0], 0), indeg, queue[1..]);
            KahnInv(k, ps, next.1, next.0, res + [queue[0]])
  {
    StepShape(k, ps, queue, indeg, res);
    StepIndegrees(k, ps, queue, indeg, res);
    StepReady(k, ps, queue, indeg, res);
    StepOutput(k, ps, queue, indeg, res);
  }

  /** The main loop: dequeue the front, output it, relax its successors, until the queue
      is empty. What it outputs never repeats, lists each element after its
      prerequisites, and omits only elements that still have a prerequisite missing. */
  function Drain<T>(k: Keys<T>, ps: seq<T>, queue: seq<nat>, indeg: seq<int>, res: seq<nat>): (r: seq<nat>)
    requires KahnInv(k, ps, queue, indeg, res)
    ensures Distinct(r) && Below(r, |ps|)
    ensures forall a :: 0 <= a < |r| ==> Pending(k, ps, r[a], r[..a]) == {}
    ensures forall j: nat :: j < |ps| && Pending(k, ps, j, r) == {} ==> j in r
    decreases |ps| - |res|
  {
    if queue == [] then
      assert res + queue == res;
      res
    else
      var cur := queue[0];
      StepKeepsInv(k, ps, queue, indeg, res);
      var next := Relax(Successors(k, ps, cur, 0), indeg, queue[1..]);
      Drain(k, ps, next.1, next.0, res + [cur])
  }

  /** One turn of the main loop: it keeps the invariant and leaves the rest of the loop
      to produce the same order. */
  lemma DrainStep<T>(k: Keys<T>, ps: seq<T>, queue: seq<nat>, indeg: seq<int>, res: seq<nat>)
      returns (indeg2: seq<int>, queue2: seq<nat>)
    requires KahnInv(k, ps, queue, indeg, res) && queue != []
    ensures queue[0] < |ps|
    ensures (indeg2, queue2) == Relax(Successors(k, ps, queue[0], 0), indeg, queue[1..])
    ensures KahnInv(k, ps, queue2, indeg2, res + [queue[0]])
    ensures Drain(k, ps, queue, indeg, res) == Drain(k, ps, queue2, indeg2, res + [queue[0]])
  {
    StepKeepsInv(k, ps, queue, indeg, res);
    var next := Relax(Successors(k, ps, queue[0], 0), indeg, queue[1..]);
    indeg2, queue2 := next.0, next.1;
  }

  /** The indices below `m` of elements whose id is in `a`. */
  ghost function NamedBelow<T>(k: Keys<T>, ps: seq<T>, a: set<string>, m: nat): (r: set<nat>)
    requires m <= |ps|
    ensures forall i: nat :: i in r ==> i < m
  {
    if m == 0 then {}
    else NamedBelow(k, ps, a, m - 1) + (if k.id(ps[m - 1]) in a then {m - 1} else {})
  }

  lemma {:induction false} NamedBelowMembers<T>(k: Keys<T>, ps: seq<T>, a: set<string>, m: nat, i: nat)
    requires m <= |ps|
    ensures i in NamedBelow(k, ps, a, m) <==> i < m && k.id(ps[i]) in a
    decreases m
  {
    if m > 0 {
      NamedBelowMembers(k, ps, a, m - 1, i);
    }
  }

  lemma NamedBelowStep<T>(k: Keys<T>, ps: seq<T>, a: set<string>, m: nat)
    requires 0 < m <= |ps|
    ensures |NamedBelow(k, ps, a, m)|
            == |NamedBelow(k, ps, a, m - 1)| + (if k.id(ps[m - 1]) in a then 1 else 0)
  {
    assert m - 1 !in NamedBelow(k, ps, a, m - 1);
  }

  lemma NamedIdsStep<T>(k: Keys<T>, ps: seq<T>, a: set<string>, m: nat)
    requires 0 < m <= |ps| && DistinctIds(k, ps)
    ensures |a * IdsBelow(k, ps, m)|
            == |a * IdsBelow(k, ps, m - 1)| + (if k.id(ps[m - 1]) in a then 1 else 0)
  {
    var x := k.id(ps[m - 1]);
    var ids := IdsBelow(k, ps, m - 1);
    IdNotBelow(k, ps, m - 1, m - 1);
    assert IdsBelow(k, ps, m) == ids + {x};
    if x in a {
      assert a * IdsBelow(k, ps, m) == (a * ids) + {x};
      assert x !in a * ids;
    } else {
      assert a * IdsBelow(k, ps, m) == a * ids;
    }
  }

  /** Counting named elements by index or by id gives the same number when ids are
      distinct. */
  lemma {:induction false} NamedBelowCard<T>(k: Keys<T>, ps: seq<T>, a: set<string>, m: nat)
    requires m <= |ps| && DistinctIds(k, ps)
    ensures |NamedBelow(k, ps, a, m)| == |a * IdsBelow(k, ps, m)|
    decreases m
  {
    if m > 0 {
      NamedBelowCard(k, ps, a, m - 1);
      NamedBelowStep(k, ps, a, m);
      NamedIdsStep(k, ps, a, m);
    }
  }

  /** The source's starting indegree (after-set size less the ids naming nothing) is the
      number of in-set prerequisites. */
  lemma InitialIndegreeIsPending<T>(k: Keys<T>, ps: seq<T>, j: nat)
    requires DistinctIds(k, ps) && j < |ps|
    ensures InitialIndegree(k, ps, j) == |Pending(k, ps, j, [])|
  {
    var a := k.after(ps[j]);
    var ids := IdSet(k, ps);
    assert a == (a * ids) + (a - ids);
    NamedBelowCard(k, ps, a, |ps|);
    forall i: nat
      ensures i in Pending(k, ps, j, []) <==> i in NamedBelow(k, ps, a, |ps|)
    {
      NamedBelowMembers(k, ps, a, |ps|, i);
    }
    assert Pending(k, ps, j, []) == NamedBelow(k, ps, a, |ps|);
  }

  /** The state before the main loop satisfies its invariant. */
  lemma InitialInv<T>(k: Keys<T>, ps: seq<T>)
    requires DistinctIds(k, ps)
    ensures var indeg := InitialIndegrees(k, ps);
            KahnInv(k, ps, ZeroIndegree(indeg, 0), indeg, [])
  {
    var indeg := InitialIndegrees(k, ps);
    var queue := ZeroIndegree(indeg, 0);
    assert [] + queue == queue;
    DistinctBelowLength(queue, |ps|);
    forall j: nat | j < |ps|
      ensures indeg[j] == |Pending(k, ps, j, [])|
    {
      InitialIndegreeIsPending(k, ps, j);
    }
  }

  /** The main loop run from the seeded queue. */
  function Kahn<T>(k: Keys<T>, ps: seq<T>): (r: seq<nat>)
    requires DistinctIds(k, ps)
    ensures Distinct(r) && Below(r, |ps|)
    ensures forall a :: 0 <= a < |r| ==> Pending(k, ps, r[a], r[..a]) == {}
    ensures forall j: nat :: j < |ps| && Pending(k, ps, j, r) == {} ==> j in r
  {
    var indeg := InitialIndegrees(k, ps);
    InitialInv(k, ps);
    Drain(k, ps, ZeroIndegree(indeg, 0), indeg, [])
  }

  /** The main loop written as the source runs it, with the queue and the indegree table
      updated in place; it outputs what `Kahn` defines. */
  method RunKahn<T>(k: Keys<T>, ps: seq<T>) returns (order: seq<nat>)
    requires DistinctIds(k, ps)
    ensures order == Kahn(k, ps)
    ensures Distinct(order) && Below(order, |ps|)
    ensures forall a :: 0 <= a < |order| ==> Pending(k, ps, order[a], order[..a]) == {}
  {
    var indeg := InitialIndegrees(k, ps);
    var queue := ZeroIndegree(indeg, 0);
    InitialInv(k, ps);
    order := [];
    while queue != []
      invariant KahnInv(k, ps, queue, indeg, order)
      invariant Drain(k, ps, queue, indeg, order) == Kahn(k, ps)
      decreases |ps| - |order|
    {
      var cur := queue[0];
      StepKeepsInv(k, ps, queue, indeg, order);
      indeg, queue := RunRelax(Successors(k, ps, cur, 0), indeg, queue[1..]);
      order := order + [cur];
    }
    assert order + queue == order;
  }

  /** The inner loop over the successors, written as the source runs it. */
  method RunRelax(succ: seq<nat>, indeg: seq<int>, queue: seq<nat>) returns (indeg': seq<int>, queue': seq<nat>)
    requires Below(succ, |indeg|) && Distinct(succ)
    ensures (indeg', queue') == Relax(succ, indeg, queue)
  {
    indeg', queue' := indeg, queue;
    var i := 0;
    while i < |succ|
      invariant 0 <= i <= |succ| && |indeg'| == |indeg|
      invariant Below(succ[i..], |indeg'|) && Distinct(succ[i..])
      invariant Relax(succ[i..], indeg', queue') == Relax(succ, indeg, queue)
    {
      var j, rest := succ[i], succ[i..];
      assert rest[0] == j && rest[1..] == succ[i + 1..];
      RelaxStep(rest, indeg', queue');
      var d := indeg'[j] - 1;
      indeg', queue' := indeg'[j := d], if d == 0 then queue' + [j] else queue';
      i := i + 1;
    }
    assert succ[i..] == [];
  }

  /** One turn of the inner loop, as `Relax` takes it. */
  lemma RelaxStep(succ: seq<nat>, indeg: seq<int>, queue: seq<nat>)
    requires Below(succ, |indeg|) && Distinct(succ) && succ != []
    ensures Below(succ[1..], |indeg|) && Distinct(succ[1..])
    ensures var j := succ[0];
            var d := indeg[j] - 1;
            Relax(succ, indeg, queue) == Relax(succ[1..], indeg[j := d], if d == 0 then queue + [j] else queue)
  {
    var j := succ[0];
    var added: seq<nat> := if indeg[j] - 1 == 0 then [j] else [];
    assert queue + added == if indeg[j] - 1 == 0 then queue + [j] else queue;
  }

  /** The elements of `ps` at the positions listed in `order`. */
  function Pick<T>(ps: seq<T>, order: seq<nat>): (r: seq<T>)
    requires Below(order, |ps|)
    ensures |r| == |order|
    ensures forall a :: 0 <= a < |order| ==> r[a] == ps[order[a]]
  {
    seq(|order|, a requires 0 <= a < |order| => ps[order[a]])
  }

  /** When the loop outputs every index, the elements in output order form a topological
      permutation of the input. */
  lemma CompleteOrderIsTopological<T>(k: Keys<T>, ps: seq<T>, order: seq<nat>)
    requires DistinctIds(k, ps) && Distinct(order) && Below(order, |ps|) && |order| == |ps|
    requires forall a :: 0 <= a < |order| ==> Pending(k, ps, order[a], order[..a]) == {}
    ensures multiset(Pick(ps, order)) == multiset(ps)
    ensures IsTopological(k, Pick(ps, order))
  {
    var r := Pick(ps, order);
    forall a, b | 0 <= a < |r| && 0 <= b < |r| && k.id(r[a]) in k.after(r[b])
      ensures a < b
    {
      assert Prereq(k, ps, order[a], order[b]);
      assert order[a] !in Pending(k, ps, order[b], order[..b]);
      assert order[a] in order[..b];
      var c :| 0 <= c < b && order[..b][c] == order[a];
      assert order[c] == order[a];
    }
    assert Distinct(ps);
    assert Distinct(r) by {
      forall a, b | 0 <= a < b < |r|
        ensures r[a] != r[b]
      {
        assert order[a] != order[b];
        if order[a] < order[b] {
          assert k.id(ps[order[a]]) != k.id(ps[order[b]]);
        } else {
          assert k.id(ps[order[b]]) != k.id(ps[order[a]]);
        }
      }
    }
    DistinctBelowLength(order, |ps|);
    assert Elems(r) == Elems(ps) by {
      forall x | x in Elems(ps)
        ensures x in Elems(r)
      {
        var u :| 0 <= u < |ps| && ps[u] == x;
        assert u in order;
        var a :| 0 <= a < |order| && order[a] == u;
        assert r[a] == x;
      }
    }
    SameElemsPermutation(r, ps);
  }

  /** An element sitting at position `a` of a topological rearrangement of the input has
      been output: otherwise one of its missing prerequisites would sit at an earlier
      position, and so on down to position 0. */
  lemma {:induction false} PlacedIsOutput<T>(k: Keys<T>, ps: seq<T>, order: seq<nat>, s: seq<T>, a: nat, u: nat)
    requires forall j: nat :: j < |ps| && Pending(k, ps, j, order) == {} ==> j in order
    requires multiset(s) == multiset(ps) && IsTopological(k, s)
    requires a < |s| && u < |ps| && s[a] == ps[u]
    ensures u in order
    decreases a
  {
    if u !in order {
      var v :| v in Pending(k, ps, u, order);
      assert ps[v] in multiset(s);
      var b :| 0 <= b < |s| && s[b] == ps[v];
      assert b < a;
      PlacedIsOutput(k, ps, order, s, b, v);
    }
  }

  /** If any topological rearrangement exists, the loop outputs every element. */
  lemma CompleteWhenOrderExists<T(!new)>(k: Keys<T>, ps: seq<T>)
    requires DistinctIds(k, ps)
    ensures HasTopologicalOrder(k, ps) ==> |Kahn(k, ps)| == |ps|
  {
    var order := Kahn(k, ps);
    DistinctBelowLength(order, |ps|);
    if HasTopologicalOrder(k, ps) && |order| < |ps| {
      var s :| multiset(s) == multiset(ps) && IsTopological(k, s);
      var u: nat :| u < |ps| && u !in order;
      assert ps[u] in multiset(s);
      var a :| 0 <= a < |s| && s[a] == ps[u];
      PlacedIsOutput(k, ps, order, s, a, u);
    }
  }

  /** `topologicalSorting`: Kahn's order when every element is output, the input unchanged
      otherwise. The result is always a permutation of the input; it honours every after
      edge inside the input whenever that is possible at all, and it is the input itself
      whenever it is not (a cycle, a self-reference). */
  function TopologicalSorting<T(!new)>(k: Keys<T>, ps: seq<T>): (r: seq<T>)
    requires DistinctIds(k, ps)
    ensures multiset(r) == multiset(ps)
    ensures HasTopologicalOrder(k, ps) ==> IsTopological(k, r)
    ensures !HasTopologicalOrder(k, ps) ==> r == ps
  {
    var order := Kahn(k, ps);
    CompleteWhenOrderExists(k, ps);
    if |order| == |ps| then
      CompleteOrderIsTopological(k, ps, order);
      Pick(ps, order)
    else
      ps
  }
}
