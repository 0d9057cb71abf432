/** Stage-ordered insertion and the insertion sort built from it
    (`insertPluginByStage` and `sortPluginsByStage`). */
module StageSort {
  import opened Keys

  /** The backward scan of the insertion loop: from position `i`, step left over every
      element whose stage is greater than `st`, and stop just after the first one that is
      not (or at 0). */
  function ScanBack<T>(k: Keys<T>, s: seq<T>, i: nat, st: int): (p: nat)
    requires i <= |s|
    ensures p <= i
    ensures p == 0 || k.stage(s[p - 1]) <= st
    ensures forall j :: p <= j < i ==> k.stage(s[j]) > st
    decreases i
  {
    if i == 0 then 0
    else if k.stage(s[i - 1]) > st then ScanBack(k, s, i - 1, st)
    else i
  }

  /** Where `item` goes: one past the rightmost element whose stage is at most the item's
      stage, or 0 when there is none; everything after that point has a larger stage. */
  function InsertionPoint<T>(k: Keys<T>, s: seq<T>, item: T): (p: nat)
    ensures p <= |s|
    ensures p == 0 || k.stage(s[p - 1]) <= k.stage(item)
    ensures forall j :: p <= j < |s| ==> k.stage(s[j]) > k.stage(item)
  {
    ScanBack(k, s, |s|, k.stage(item))
  }

  /** `r` is `s` with `item` placed at position `p`: after an element of a stage not above
      the item's (or at the front), and before elements of higher stages only. */
  ghost predicate InsertedAt<T>(k: Keys<T>, s: seq<T>, item: T, r: seq<T>, p: nat) {
    && p <= |s|
    && r == s[..p] + [item] + s[p..]
    && (p == 0 || k.stage(s[p - 1]) <= k.stage(item))
    && (forall j :: p <= j < |s| ==> k.stage(s[j]) > k.stage(item))
  }

  /** At most one position meets the placement rule, so it determines the result. */
  lemma InsertedAtUnique<T>(k: Keys<T>, s: seq<T>, item: T, r: seq<T>, p: nat, r': seq<T>, q: nat)
    requires InsertedAt(k, s, item, r, p) && InsertedAt(k, s, item, r', q)
    ensures p == q && r == r'
  {
  }

  /** `insertPluginByStage`: the sequence after the in-place shift-and-store. */
  function InsertByStage<T>(k: Keys<T>, s: seq<T>, item: T): (r: seq<T>)
    ensures |r| == |s| + 1
    ensures InsertedAt(k, s, item, r, InsertionPoint(k, s, item))
  {
    var p := InsertionPoint(k, s, item);
    s[..p] + [item] + s[p..]
  }

  /** A sequence meeting the placement rule is what insertion returns. */
  lemma Placed<T>(k: Keys<T>, s: seq<T>, item: T, r: seq<T>, q: nat)
    requires InsertedAt(k, s, item, r, q)
    ensures InsertByStage(k, s, item) == r
  {
    InsertedAtUnique(k, s, item, InsertByStage(k, s, item), InsertionPoint(k, s, item), r, q);
  }

  /** Inserting into an empty sequence gives the one-element sequence. */
  lemma InsertIntoEmpty<T>(k: Keys<T>, item: T)
    ensures InsertByStage(k, [], item) == [item]
  {
    Placed(k, [], item, [item], 0);
  }

  /** An item whose stage is not below the last element's is appended. */
  lemma InsertLast<T>(k: Keys<T>, s: seq<T>, item: T)
    requires s != [] && k.stage(s[|s| - 1]) <= k.stage(item)
    ensures InsertByStage(k, s, item) == s + [item]
  {
    assert s[..|s|] == s && s[|s|..] == [];
    Placed(k, s, item, s + [item], |s|);
  }

  /** An item of a lower stage goes before the one element. */
  lemma InsertLower<T>(k: Keys<T>, a: T, b: T)
    requires k.stage(b) < k.stage(a)
    ensures InsertByStage(k, InsertByStage(k, [], a), b) == [b, a]
  {
    InsertIntoEmpty(k, a);
    assert [a][..0] == [] && [a][0..] == [a];
    Placed(k, [a], b, [b, a], 0);
  }

  /** An item of the same stage goes after the one element. */
  lemma InsertSame<T>(k: Keys<T>, a: T, b: T)
    requires k.stage(a) == k.stage(b)
    ensures InsertByStage(k, InsertByStage(k, [], a), b) == [a, b]
  {
    InsertIntoEmpty(k, a);
    InsertLast(k, [a], b);
    assert [a] + [b] == [a, b];
  }

  /** `sortPluginsByStage`: insert every element, first to last, into an initially empty
      sequence. */
  function SortByStage<T>(k: Keys<T>, s: seq<T>): (r: seq<T>)
    ensures |r| == |s|
  {
    if s == [] then []
    else InsertByStage(k, SortByStage(k, s[..|s| - 1]), s[|s| - 1])
  }

  /** The item lands at the insertion point; removing it gives back the old sequence, so
      the incumbents keep their relative order, and everything after it has a larger
      stage. */
  lemma InsertShape<T>(k: Keys<T>, s: seq<T>, item: T)
    ensures var r := InsertByStage(k, s, item);
            var p := InsertionPoint(k, s, item);
            && r[p] == item
            && r[..p] + r[p + 1..] == s
            && (p == 0 || k.stage(r[p - 1]) <= k.stage(item))
            && (forall j :: p < j < |r| ==> k.stage(r[j]) > k.stage(item))
  {
    var r := InsertByStage(k, s, item);
    var p := InsertionPoint(k, s, item);
    assert r[..p] == s[..p];
    assert r[p + 1..] == s[p..];
  }

  /** Insertion adds exactly the item. */
  lemma InsertPermutation<T>(k: Keys<T>, s: seq<T>, item: T)
    ensures multiset(InsertByStage(k, s, item)) == multiset(s) + multiset{item}
  {
    var p := InsertionPoint(k, s, item);
    assert s == s[..p] + s[p..];
  }

  /** Stability: among elements of any one stage, the incumbents keep their order and the
      item comes after all of them. This holds for every input, sorted or not. */
  lemma InsertStable<T>(k: Keys<T>, s: seq<T>, item: T, st: int)
    ensures OfStage(k, InsertByStage(k, s, item), st)
            == OfStage(k, s, st) + (if k.stage(item) == st then [item] else [])
  {
    SpliceStable(k, s, item, InsertionPoint(k, s, item), st);
  }

  /** Placing `item` before elements of higher stages only appends it to its own stage
      and leaves every stage's incumbents in order. */
  lemma SpliceStable<T>(k: Keys<T>, s: seq<T>, item: T, p: nat, st: int)
    requires p <= |s| && forall j :: p <= j < |s| ==> k.stage(s[j]) > k.stage(item)
    ensures OfStage(k, s[..p] + [item] + s[p..], st)
            == OfStage(k, s, st) + (if k.stage(item) == st then [item] else [])
  {
    OfStageConcat(k, s[..p] + [item], s[p..], st);
    OfStageConcat(k, s[..p], [item], st);
    OfStageConcat(k, s[..p], s[p..], st);
    assert s[..p] + s[p..] == s;
    if k.stage(item) == st {
      OfStageNone(k, s[p..], st);
    }
  }

  /** A stage-ascending sequence stays stage-ascending. */
  lemma InsertKeepsAscending<T>(k: Keys<T>, s: seq<T>, item: T)
    requires StageAscending(k, s)
    ensures StageAscending(k, InsertByStage(k, s, item))
  {
    SpliceAscending(k, s, item, InsertionPoint(k, s, item));
  }

  /** Placing `item` where the placement rule allows keeps a stage-ascending sequence
      stage-ascending. */
  lemma SpliceAscending<T>(k: Keys<T>, s: seq<T>, item: T, p: nat)
    requires StageAscending(k, s) && p <= |s|
    requires p == 0 || k.stage(s[p - 1]) <= k.stage(item)
    requires forall j :: p <= j < |s| ==> k.stage(s[j]) > k.stage(item)
    ensures StageAscending(k, s[..p] + [item] + s[p..])
  {
    var r := s[..p] + [item] + s[p..];
    assert forall i :: 0 <= i < p ==> r[i] == s[i];
    assert r[p] == item;
    assert forall i :: p < i < |r| ==> r[i] == s[i - 1];
    forall a, b | 0 <= a < b < |r|
      ensures k.stage(r[a]) <= k.stage(r[b])
    {
      if a < p && b == p {
        assert k.stage(s[a]) <= k.stage(s[p - 1]);
      }
    }
  }

  /** `sortPluginsByStage` returns a stage-ascending sequence. */
  lemma {:induction false} SortAscending<T>(k: Keys<T>, s: seq<T>)
    ensures StageAscending(k, SortByStage(k, s))
  {
    if s != [] {
      SortAscending(k, s[..|s| - 1]);
      InsertKeepsAscending(k, SortByStage(k, s[..|s| - 1]), s[|s| - 1]);
    }
  }

  /** `sortPluginsByStage` returns a permutation of its input. */
  lemma {:induction false} SortPermutation<T>(k: Keys<T>, s: seq<T>)
    ensures multiset(SortByStage(k, s)) == multiset(s)
  {
    if s != [] {
      var init, last := s[..|s| - 1], s[|s| - 1];
      SortPermutation(k, init);
      assert s == init + [last];
      InsertPermutationStep(k, SortByStage(k, init), init, last);
    }
  }

  /** Inserting into a permutation of `init` gives a permutation of `init + [last]`. */
  lemma InsertPermutationStep<T>(k: Keys<T>, t: seq<T>, init: seq<T>, last: T)
    requires multiset(t) == multiset(init)
    ensures multiset(InsertByStage(k, t, last)) == multiset(init + [last])
  {
    InsertPermutation(k, t, last);
  }

  /** `sortPluginsByStage` is stable: the elements of each stage come out in input
      order. */
  lemma {:induction false} SortStable<T>(k: Keys<T>, s: seq<T>, st: int)
    ensures OfStage(k, SortByStage(k, s), st) == OfStage(k, s, st)
  {
    if s != [] {
      var init, last := s[..|s| - 1], s[|s| - 1];
      SortStable(k, init, st);
      assert s == init + [last];
      InsertStableStep(k, SortByStage(k, init), init, last, st);
    }
  }

  /** Inserting into a sequence that lists a stage as `init` does lists it as
      `init + [last]` does. */
  lemma InsertStableStep<T>(k: Keys<T>, t: seq<T>, init: seq<T>, last: T, st: int)
    requires OfStage(k, t, st) == OfStage(k, init, st)
    ensures OfStage(k, InsertByStage(k, t, last), st) == OfStage(k, init + [last], st)
  {
    InsertStable(k, t, last, st);
    OfStageConcat(k, init, [last], st);
  }
}
