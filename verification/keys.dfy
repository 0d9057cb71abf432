/** How the ordering engine reads an element, and the stage filter every part of it uses.
    The engine is generic in the element type, so the same definitions serve the plugins
    of `pluginOrder.js` (whose stage and after set are computed from `apply`) and the
    records of `pluginResolution.js` (which carry them as fields). */
module Keys {

  /** How the ordering engine reads an element: its id, its stage and the ids it must
      follow. */
  datatype Keys<-T> = Keys(id: T -> string, stage: T -> int, after: T -> set<string>)

  /** No id occurs twice (the source keys a map by id, so duplicates would collapse). */
  predicate DistinctIds<T>(k: Keys<T>, ps: seq<T>) {
    forall a, b :: 0 <= a < b < |ps| ==> k.id(ps[a]) != k.id(ps[b])
  }

  /** Stages never decrease along `s`. */
  predicate StageAscending<T>(k: Keys<T>, s: seq<T>) {
    forall a, b :: 0 <= a < b < |s| ==> k.stage(s[a]) <= k.stage(s[b])
  }

  /** The elements of `s` whose stage is `st`, in their order in `s`. */
  function OfStage<T>(k: Keys<T>, s: seq<T>, st: int): (r: seq<T>)
    ensures |r| <= |s|
    ensures forall i :: 0 <= i < |r| ==> k.stage(r[i]) == st
  {
    if s == [] then []
    else (if k.stage(s[0]) == st then [s[0]] else []) + OfStage(k, s[1..], st)
  }

  lemma {:induction false} OfStageMembers<T>(k: Keys<T>, s: seq<T>, st: int, x: T)
    ensures x in OfStage(k, s, st) <==> x in s && k.stage(x) == st
  {
    if s != [] {
      OfStageMembers(k, s[1..], st, x);
      assert s == [s[0]] + s[1..];
    }
  }

  lemma {:induction false} OfStageNone<T>(k: Keys<T>, s: seq<T>, st: int)
    requires forall i :: 0 <= i < |s| ==> k.stage(s[i]) != st
    ensures OfStage(k, s, st) == []
  {
    if s != [] {
      OfStageNone(k, s[1..], st);
    }
  }

  lemma {:induction false} OfStageConcat<T>(k: Keys<T>, a: seq<T>, b: seq<T>, st: int)
    ensures OfStage(k, a + b, st) == OfStage(k, a, st) + OfStage(k, b, st)
  {
    if a == [] {
      assert a + b == b;
    } else {
      assert (a + b)[0] == a[0];
      assert (a + b)[1..] == a[1..] + b;
      OfStageConcat(k, a[1..], b, st);
    }
  }


  lemma {:induction false} OfStageAll<T>(k: Keys<T>, s: seq<T>, st: int)
    requires forall i :: 0 <= i < |s| ==> k.stage(s[i]) == st
    ensures OfStage(k, s, st) == s
  {
    if s != [] {
      OfStageAll(k, s[1..], st);
      assert s == [s[0]] + s[1..];
    }
  }

  /** Filtering keeps ids distinct. */
  lemma {:induction false} OfStageDistinctIds<T>(k: Keys<T>, s: seq<T>, st: int)
    requires DistinctIds(k, s)
    ensures DistinctIds(k, OfStage(k, s, st))
  {
    if s != [] {
      OfStageDistinctIds(k, s[1..], st);
      var rest := OfStage(k, s[1..], st);
      forall i | 0 <= i < |rest|
        ensures k.id(rest[i]) != k.id(s[0])
      {
        OfStageMembers(k, s[1..], st, rest[i]);
        assert rest[i] in rest;
        assert rest[i] in s[1..];
        var j :| 0 <= j < |s[1..]| && s[1..][j] == rest[i];
        assert s[j + 1] == rest[i];
      }
    }
  }
}
