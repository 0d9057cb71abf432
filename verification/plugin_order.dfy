/** `pluginOrder.js`: plugin descriptors, the order parameters read from them
    (`getOrderParams`, with its id-keyed cache), and the four ordering operations as
    instances of the generic engine, keyed by the order parameters. */
module PluginOrder {
  import opened Wrappers
  import opened Keys
  import StageSort
  import Topological
  import Arrange

  /** The stage of a plugin whose `apply.stage` is not a number. */
  const DefaultStage: int := 100

  /** The `apply.after` field: a single id, a list of ids, or anything else (absent, or a
      value that is neither a string nor an array), which names nothing. */
  datatype AfterSpec = NoAfter | AfterOne(name: string) | AfterList(names: seq<string>)

  /** The `apply` callback's ordering fields; `stage` is `None` when it is not a number. */
  datatype Apply = Apply(stage: Option<int>, after: AfterSpec)

  /** A plugin descriptor. */
  datatype Plugin = Plugin(id: string, apply: Apply)

  /** What `getOrderParams` returns. */
  datatype OrderParams = OrderParams(stage: int, after: set<string>)

  /** `after` names the id `name`. */
  predicate Names(after: AfterSpec, name: string) {
    match after
    case NoAfter => false
    case AfterOne(n) => n == name
    case AfterList(ns) => exists i :: 0 <= i < |ns| && ns[i] == name
  }

  /** `getOrderParams` without its cache: the declared stage when it is a number,
      `DefaultStage` otherwise; the set of ids the after field names. */
  function GetOrderParams(p: Plugin): (r: OrderParams)
    ensures p.apply.stage.Some? ==> r.stage == p.apply.stage.value
    ensures p.apply.stage.None? ==> r.stage == DefaultStage
    ensures forall name :: name in r.after <==> Names(p.apply.after, name)
  {
    var after :=
      match p.apply.after
      case NoAfter => {}
      case AfterOne(n) => {n}
      case AfterList(ns) => set n | n in ns;
    OrderParams(p.apply.stage.GetOr(DefaultStage), after)
  }

  /** `getOrderParams` with its id-keyed cache: outside the test environment a cached
      entry for the plugin's id is returned as is, and a freshly computed one is stored;
      in the test environment the cache is neither read nor written. The contract only
      spells out these cases; what the cache means for callers is stated by
      `CachedIsFresh` (a lookup is transparent while an id determines the parameters) and
      `CacheKeyedById` (a reused id gets the first plugin's stage). */
  function GetOrderParamsCached(cache: map<string, OrderParams>, testEnv: bool, p: Plugin)
    : (r: (OrderParams, map<string, OrderParams>))
    ensures !testEnv && p.id in cache ==> r == (cache[p.id], cache)
    ensures testEnv || p.id !in cache ==> r.0 == GetOrderParams(p)
    ensures testEnv ==> r.1 == cache
    ensures !testEnv ==> r.1 == cache[p.id := r.0]
  {
    if !testEnv && p.id in cache then (cache[p.id], cache)
    else
      var params := GetOrderParams(p);
      (params, if testEnv then cache else cache[p.id := params])
  }

  /** Every cache entry for the id of a plugin in `ps` is that plugin's parameters. */
  ghost predicate CacheCoherent(cache: map<string, OrderParams>, ps: seq<Plugin>) {
    forall i :: 0 <= i < |ps| && ps[i].id in cache ==> cache[ps[i].id] == GetOrderParams(ps[i])
  }

  /** Plugins of `ps` sharing an id have the same parameters. */
  predicate IdDeterminesParams(ps: seq<Plugin>) {
    forall i, j :: 0 <= i < |ps| && 0 <= j < |ps| && ps[i].id == ps[j].id ==>
      GetOrderParams(ps[i]) == GetOrderParams(ps[j])
  }

  /** As long as an id determines the parameters, the cache is transparent: a lookup
      returns what `GetOrderParams` computes, and the cache stays coherent. */
  lemma CachedIsFresh(cache: map<string, OrderParams>, testEnv: bool, ps: seq<Plugin>, p: Plugin)
    requires CacheCoherent(cache, ps) && IdDeterminesParams(ps) && p in ps
    ensures GetOrderParamsCached(cache, testEnv, p).0 == GetOrderParams(p)
    ensures CacheCoherent(GetOrderParamsCached(cache, testEnv, p).1, ps)
  {
    var u :| 0 <= u < |ps| && ps[u] == p;
    var c := GetOrderParamsCached(cache, testEnv, p).1;
    forall i | 0 <= i < |ps| && ps[i].id in c
      ensures c[ps[i].id] == GetOrderParams(ps[i])
    {
      if ps[i].id == p.id {
        assert GetOrderParams(ps[i]) == GetOrderParams(ps[u]);
      }
    }
  }

  /** Two plugins sharing an id but not a stage: once the first is cached, the second
      gets the first's stage. */
  lemma CacheKeyedById()
    ensures var foo := Plugin("foo", Apply(Some(0), NoAfter));
            var foo' := Plugin("foo", Apply(None, NoAfter));
            var c := GetOrderParamsCached(map[], false, foo).1;
            GetOrderParamsCached(c, false, foo').0.stage == 0
            && GetOrderParams(foo').stage == DefaultStage
  {
  }

  /** The engine's view of a plugin: its id and its order parameters. */
  const PluginKeys: Keys<Plugin> :=
    Keys((p: Plugin) => p.id, (p: Plugin) => GetOrderParams(p).stage, (p: Plugin) => GetOrderParams(p).after)

  /** The plugin's stage. */
  function Stage(p: Plugin): (r: int) {
    GetOrderParams(p).stage
  }

  /** `insertPluginByStage`: the new plugin goes after every plugin of a stage not above
      its own and before the run of higher-stage plugins that ends the sequence. On a
      stage-ascending sequence this keeps the sequence stage-ascending; within every
      stage it keeps the incumbents' order and appends the new plugin to its own stage. */
  function InsertPluginByStage(plugins: seq<Plugin>, item: Plugin): (r: seq<Plugin>)
    ensures exists p :: StageSort.InsertedAt(PluginKeys, plugins, item, r, p)
    ensures multiset(r) == multiset(plugins) + multiset{item}
    ensures StageAscending(PluginKeys, plugins) ==> StageAscending(PluginKeys, r)
    ensures forall st :: OfStage(PluginKeys, r, st)
                         == OfStage(PluginKeys, plugins, st) + (if Stage(item) == st then [item] else [])
  {
    InsertFacts(plugins, item);
    StageSort.InsertByStage(PluginKeys, plugins, item)
  }

  lemma InsertFacts(plugins: seq<Plugin>, item: Plugin)
    ensures var r := StageSort.InsertByStage(PluginKeys, plugins, item);
            && multiset(r) == multiset(plugins) + multiset{item}
            && (StageAscending(PluginKeys, plugins) ==> StageAscending(PluginKeys, r))
            && forall st :: OfStage(PluginKeys, r, st)
                            == OfStage(PluginKeys, plugins, st) + (if Stage(item) == st then [item] else [])
  {
    StageSort.InsertPermutation(PluginKeys, plugins, item);
    if StageAscending(PluginKeys, plugins) {
      StageSort.InsertKeepsAscending(PluginKeys, plugins, item);
    }
    forall st
      ensures OfStage(PluginKeys, StageSort.InsertByStage(PluginKeys, plugins, item), st)
              == OfStage(PluginKeys, plugins, st) + (if Stage(item) == st then [item] else [])
    {
      StageSort.InsertStable(PluginKeys, plugins, item, st);
    }
  }

  /** `sortPluginsByStage`: a stable sort by stage. The result is a stage-ascending
      permutation of the input which lists every stage's plugins in input order. */
  function SortPluginsByStage(plugins: seq<Plugin>): (r: seq<Plugin>)
    ensures multiset(r) == multiset(plugins)
    ensures StageAscending(PluginKeys, r)
    ensures forall st :: OfStage(PluginKeys, r, st) == OfStage(PluginKeys, plugins, st)
  {
    SortFacts(plugins);
    StageSort.SortByStage(PluginKeys, plugins)
  }

  lemma SortFacts(plugins: seq<Plugin>)
    ensures var r := StageSort.SortByStage(PluginKeys, plugins);
            && multiset(r) == multiset(plugins)
            && StageAscending(PluginKeys, r)
            && forall st :: OfStage(PluginKeys, r, st) == OfStage(PluginKeys, plugins, st)
  {
    StageSort.SortPermutation(PluginKeys, plugins);
    StageSort.SortAscending(PluginKeys, plugins);
    forall st
      ensures OfStage(PluginKeys, StageSort.SortByStage(PluginKeys, plugins), st)
              == OfStage(PluginKeys, plugins, st)
    {
      StageSort.SortStable(PluginKeys, plugins, st);
    }
  }

  /** `topologicalSorting` over plugins: a permutation of the input in which every plugin
      comes after the plugins of the input its after set names, whenever such an order
      exists; the input itself when it does not. Ids naming no plugin of the input
      constrain nothing. */
  function TopologicalSorting(plugins: seq<Plugin>): (r: seq<Plugin>)
    requires DistinctIds(PluginKeys, plugins)
    ensures multiset(r) == multiset(plugins)
    ensures Topological.HasTopologicalOrder(PluginKeys, plugins) ==> Topological.IsTopological(PluginKeys, r)
    ensures !Topological.HasTopologicalOrder(PluginKeys, plugins) ==> r == plugins
  {
    Topological.TopologicalSorting(PluginKeys, plugins)
  }

  /** `arrangePlugins` over plugins: a permutation of the input in which every stage's
      plugins form one block, the blocks following the order in which the stages first
      occur, and every block is the topological sorting of that stage's plugins. */
  function ArrangePlugins(plugins: seq<Plugin>): (r: seq<Plugin>)
    requires DistinctIds(PluginKeys, plugins)
    ensures |plugins| < 2 ==> r == plugins
    ensures multiset(r) == multiset(plugins)
    ensures forall st :: DistinctIds(PluginKeys, OfStage(PluginKeys, plugins, st))
                         && OfStage(PluginKeys, r, st) == TopologicalSorting(OfStage(PluginKeys, plugins, st))
    ensures Arrange.FollowsFirstOccurrence(PluginKeys, plugins, r)
    ensures StageAscending(PluginKeys, plugins) ==> StageAscending(PluginKeys, r)
  {
    ArrangeFacts(plugins);
    Arrange.ArrangePlugins(PluginKeys, plugins)
  }

  lemma ArrangeFacts(plugins: seq<Plugin>)
    requires DistinctIds(PluginKeys, plugins)
    ensures var r := Arrange.ArrangePlugins(PluginKeys, plugins);
            && (forall st :: DistinctIds(PluginKeys, OfStage(PluginKeys, plugins, st))
                             && OfStage(PluginKeys, r, st) == TopologicalSorting(OfStage(PluginKeys, plugins, st)))
            && Arrange.FollowsFirstOccurrence(PluginKeys, plugins, r)
            && (StageAscending(PluginKeys, plugins) ==> StageAscending(PluginKeys, r))
  {
    forall st
      ensures DistinctIds(PluginKeys, OfStage(PluginKeys, plugins, st))
      ensures OfStage(PluginKeys, Arrange.ArrangePlugins(PluginKeys, plugins), st)
              == TopologicalSorting(OfStage(PluginKeys, plugins, st))
    {
      Arrange.ArrangeWithinStage(PluginKeys, plugins, st);
    }
    Arrange.ArrangeGroupOrder(PluginKeys, plugins);
    if StageAscending(PluginKeys, plugins) {
      Arrange.ArrangeKeepsAscending(PluginKeys, plugins);
    }
  }
}
