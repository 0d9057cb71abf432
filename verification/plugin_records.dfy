/** The older ordering code in `pluginResolution.js`: its `insertPluginByStage` stores a
    fresh record carrying the normalised stage and after set, and its
    `TopologicalSorting` and `arrangePlugins` read those fields instead of recomputing
    them. */
module PluginRecords {
  import opened Wrappers
  import opened Keys
  import PluginOrder
  import StageSort
  import Topological
  import Arrange

  /** This file's own copy of the default stage. */
  const DefaultStage: int := 100

  /** What a caller hands to `insertPluginByStage`: only these three fields are read. */
  datatype PluginEntry<O> = PluginEntry(id: string, apply: PluginOrder.Apply, options: O)

  /** The record `insertPluginByStage` stores. */
  datatype PluginRecord<O> = PluginRecord(id: string, apply: PluginOrder.Apply, options: O,
                                          stage: int, after: set<string>)

  /** The record built for an entry: its three fields, plus the stage and after set read
      from `apply`. Both agree with what `getOrderParams` of `pluginOrder.js` computes for
      the same id and `apply`, so the engine sees the same stage and after set in both
      files. */
  function NewRecord<O>(e: PluginEntry<O>): (r: PluginRecord<O>)
    ensures r.id == e.id && r.apply == e.apply && r.options == e.options
    ensures r.stage == PluginOrder.GetOrderParams(PluginOrder.Plugin(e.id, e.apply)).stage
    ensures r.after == PluginOrder.GetOrderParams(PluginOrder.Plugin(e.id, e.apply)).after
  {
    var after :=
      match e.apply.after
      case AfterOne(n) => {n}
      case AfterList(ns) => set n | n in ns
      case NoAfter => {};
    var stage := if e.apply.stage.Some? then e.apply.stage.value else DefaultStage;
    PluginRecord(e.id, e.apply, e.options, stage, after)
  }

  /** The engine's view of a record: its stored fields. */
  function RecordKeys<O>(): (r: Keys<PluginRecord<O>>) {
    Keys((r: PluginRecord<O>) => r.id, (r: PluginRecord<O>) => r.stage, (r: PluginRecord<O>) => r.after)
  }

  /** `insertPluginByStage`: the new record goes after every record of a stage not above
      its own and before the run of higher-stage records that ends the sequence. */
  function InsertPluginByStage<O>(plugins: seq<PluginRecord<O>>, item: PluginEntry<O>): (r: seq<PluginRecord<O>>)
    ensures exists p :: StageSort.InsertedAt(RecordKeys(), plugins, NewRecord(item), r, p)
    ensures multiset(r) == multiset(plugins) + multiset{NewRecord(item)}
    ensures StageAscending(RecordKeys(), plugins) ==> StageAscending(RecordKeys(), r)
    ensures forall st :: OfStage(RecordKeys(), r, st)
                         == OfStage(RecordKeys(), plugins, st)
                            + (if NewRecord(item).stage == st then [NewRecord(item)] else [])
  {
    var rec := NewRecord(item);
    InsertFacts(plugins, rec);
    StageSort.InsertByStage(RecordKeys(), plugins, rec)
  }

  lemma InsertFacts<O>(plugins: seq<PluginRecord<O>>, rec: PluginRecord<O>)
    ensures var r := StageSort.InsertByStage(RecordKeys(), plugins, rec);
            && multiset(r) == multiset(plugins) + multiset{rec}
            && (StageAscending(RecordKeys(), plugins) ==> StageAscending(RecordKeys(), r))
            && forall st :: OfStage(RecordKeys(), r, st)
                            == OfStage(RecordKeys(), plugins, st) + (if rec.stage == st then [rec] else [])
  {
    var k := RecordKeys<O>();
    StageSort.InsertPermutation(k, plugins, rec);
    if StageAscending(k, plugins) {
      StageSort.InsertKeepsAscending(k, plugins, rec);
    }
    forall st
      ensures OfStage(k, StageSort.InsertByStage(k, plugins, rec), st)
              == OfStage(k, plugins, st) + (if rec.stage == st then [rec] else [])
    {
      StageSort.InsertStable(k, plugins, rec, st);
    }
  }

  /** `TopologicalSorting` over records: a permutation of the input in which every record
      comes after the records its after set names, whenever such an order exists; the
      input itself when it does not. */
  function TopologicalSorting<O(!new)>(plugins: seq<PluginRecord<O>>): (r: seq<PluginRecord<O>>)
    requires DistinctIds(RecordKeys(), plugins)
    ensures multiset(r) == multiset(plugins)
    ensures Topological.HasTopologicalOrder(RecordKeys(), plugins) ==> Topological.IsTopological(RecordKeys(), r)
    ensures !Topological.HasTopologicalOrder(RecordKeys(), plugins) ==> r == plugins
  {
    Topological.TopologicalSorting(RecordKeys(), plugins)
  }

  /** `arrangePlugins` over records: a permutation of the input in which every stage's
      records form one block, the blocks following the order in which the stages first
      occur, and every block is the topological sorting of that stage's records. */
  function ArrangePlugins<O(!new)>(plugins: seq<PluginRecord<O>>): (r: seq<PluginRecord<O>>)
    requires DistinctIds(RecordKeys(), plugins)
    ensures |plugins| < 2 ==> r == plugins
    ensures multiset(r) == multiset(plugins)
    ensures forall st :: DistinctIds(RecordKeys(), OfStage(RecordKeys(), plugins, st))
                         && OfStage(RecordKeys(), r, st) == TopologicalSorting(OfStage(RecordKeys(), plugins, st))
    ensures Arrange.FollowsFirstOccurrence(RecordKeys(), plugins, r)
    ensures StageAscending(RecordKeys(), plugins) ==> StageAscending(RecordKeys(), r)
  {
    ArrangeFacts(plugins);
    Arrange.ArrangePlugins(RecordKeys(), plugins)
  }

  lemma ArrangeFacts<O(!new)>(plugins: seq<PluginRecord<O>>)
    requires DistinctIds(RecordKeys(), plugins)
    ensures var r := Arrange.ArrangePlugins(RecordKeys(), plugins);
            && (forall st :: DistinctIds(RecordKeys(), OfStage(RecordKeys(), plugins, st))
                             && OfStage(RecordKeys(), r, st) == TopologicalSorting(OfStage(RecordKeys(), plugins, st)))
            && Arrange.FollowsFirstOccurrence(RecordKeys(), plugins, r)
            && (StageAscending(RecordKeys(), plugins) ==> StageAscending(RecordKeys(), r))
  {
    var k := RecordKeys<O>();
    forall st
      ensures DistinctIds(k, OfStage(k, plugins, st))
      ensures OfStage(k, Arrange.ArrangePlugins(k, plugins), st) == TopologicalSorting(OfStage(k, plugins, st))
    {
      Arrange.ArrangeWithinStage(k, plugins, st);
    }
    Arrange.ArrangeGroupOrder(k, plugins);
    if StageAscending(k, plugins) {
      Arrange.ArrangeKeepsAscending(k, plugins);
    }
  }

  /** Inserting an entry, then one of a lower stage, then one of a higher stage, stores
      the lower, the first, the higher. */
  lemma InsertByStageOrder<O>(a: PluginEntry<O>, b: PluginEntry<O>, c: PluginEntry<O>)
    requires NewRecord(b).stage < NewRecord(a).stage < NewRecord(c).stage
    ensures InsertPluginByStage(InsertPluginByStage(InsertPluginByStage([], a), b), c)
            == [NewRecord(b), NewRecord(a), NewRecord(c)]
  {
    var ra, rb, rc := NewRecord(a), NewRecord(b), NewRecord(c);
    StageSort.InsertLower(RecordKeys(), ra, rb);
    StageSort.InsertLast(RecordKeys(), [rb, ra], rc);
    assert [rb, ra] + [rc] == [rb, ra, rc];
  }

  /** Entries of one stage are stored in call order. */
  lemma SameStageKeepsCallOrder<O>(a: PluginEntry<O>, b: PluginEntry<O>, c: PluginEntry<O>)
    requires NewRecord(a).stage == NewRecord(b).stage == NewRecord(c).stage
    ensures InsertPluginByStage(InsertPluginByStage(InsertPluginByStage([], a), b), c)
            == [NewRecord(a), NewRecord(b), NewRecord(c)]
  {
    var ra, rb, rc := NewRecord(a), NewRecord(b), NewRecord(c);
    StageSort.InsertSame(RecordKeys(), ra, rb);
    StageSort.InsertLast(RecordKeys(), [ra, rb], rc);
    assert [ra, rb] + [rc] == [ra, rb, rc];
  }

  /** Inserting `foo` (no stage), `bar` (stage 0) and `baz` (stage 200) in turn stores bar
      (stage 0), foo (stage 100), baz (stage 200), each with an empty after set. */
  lemma StageSpecifiedExample(o: int)
    ensures var foo, bar, baz := PluginEntry("foo", PluginOrder.Apply(None, PluginOrder.NoAfter), o),
                                 PluginEntry("bar", PluginOrder.Apply(Some(0), PluginOrder.NoAfter), o),
                                 PluginEntry("baz", PluginOrder.Apply(Some(200), PluginOrder.NoAfter), o);
            var r := InsertPluginByStage(InsertPluginByStage(InsertPluginByStage([], foo), bar), baz);
            && |r| == 3
            && r[0].id == "bar" && r[0].stage == 0 && r[0].after == {}
            && r[1].id == "foo" && r[1].stage == DefaultStage && r[1].after == {}
            && r[2].id == "baz" && r[2].stage == 200 && r[2].after == {}
  {
    InsertByStageOrder(PluginEntry("foo", PluginOrder.Apply(None, PluginOrder.NoAfter), o),
                       PluginEntry("bar", PluginOrder.Apply(Some(0), PluginOrder.NoAfter), o),
                       PluginEntry("baz", PluginOrder.Apply(Some(200), PluginOrder.NoAfter), o));
  }

  /** Inserting three entries without a stage stores them in call order, each with stage
      100 and an empty after set. */
  lemma NoStageExample(o: int)
    ensures var foo, bar, baz := PluginEntry("foo", PluginOrder.Apply(None, PluginOrder.NoAfter), o),
                                 PluginEntry("bar", PluginOrder.Apply(None, PluginOrder.NoAfter), o),
                                 PluginEntry("baz", PluginOrder.Apply(None, PluginOrder.NoAfter), o);
            var r := InsertPluginByStage(InsertPluginByStage(InsertPluginByStage([], foo), bar), baz);
            && |r| == 3
            && r[0].id == "foo" && r[0].stage == DefaultStage && r[0].after == {}
            && r[1].id == "bar" && r[1].stage == DefaultStage && r[1].after == {}
            && r[2].id == "baz" && r[2].stage == DefaultStage && r[2].after == {}
  {
    SameStageKeepsCallOrder(PluginEntry("foo", PluginOrder.Apply(None, PluginOrder.NoAfter), o),
                            PluginEntry("bar", PluginOrder.Apply(None, PluginOrder.NoAfter), o),
                            PluginEntry("baz", PluginOrder.Apply(None, PluginOrder.NoAfter), o));
  }
}
