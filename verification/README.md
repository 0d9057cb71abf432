# Vue CLI plugin ordering and plugin ids, in Dafny

This project models two pure parts of `@vue/cli-shared-utils`.

- **The plugin ordering engine** (`lib/pluginOrder.js`, and its older twin at the end of
  `lib/pluginResolution.js`). Each plugin's `apply` callback may carry a numeric `stage`
  (default 100) and an `after` field naming plugins that must run before it.
  - `getOrderParams` normalises these fields.
  - `insertPluginByStage` is one step of a stable insertion sort by stage.
  - `sortPluginsByStage` is the insertion sort built from it.
  - `topologicalSorting` is Kahn's algorithm over the `after` edges inside one set of
    plugins. When some plugin is never output (a cycle), it returns its input unchanged.
  - `arrangePlugins` groups plugins by stage, sorts each group topologically and
    concatenates the groups.
- **Plugin-id naming** (`lib/pluginResolution.js:1-66`).
  - `pluginRE` and `scopeRE` become explicit prefix matchers over strings.
  - The model covers `isPlugin`, `isOfficialPlugin`, `toShortPluginId`,
    `resolvePluginId` and `matchesPluginId`.

Module layout:

| file | module | contents |
|---|---|---|
| `wrappers.dfy` | `Wrappers` | `Option` |
| `seqs.dfy` | `Seqs` | distinctness, element sets, permutation helpers |
| `keys.dfy` | `Keys` | the engine's view of an element (id, stage, after set), per-stage subsequences |
| `stage_sort.dfy` | `StageSort` | insertion by stage and the insertion sort, generic in the element type |
| `topological.dfy` | `Topological` | Kahn's algorithm (recursive definition plus the imperative loop), generic |
| `arrange.dfy` | `Arrange` | grouping by stage in first-occurrence order, per-group sorting, concatenation |
| `plugin_order.dfy` | `PluginOrder` | plugin descriptors, `getOrderParams` and its cache, the four operations of `pluginOrder.js` |
| `order_shapes.dfy` | `OrderShapes` | pair, chain, fan and cycle shapes of after edges, and two stages, for any element type |
| `plugin_order_examples.dfy` | `PluginOrderExamples`, `ArrangeScenario` | the documented scenarios on concrete plugins |
| `plugin_records.dfy` | `PluginRecords` | the `pluginResolution.js` twin, which stores normalised records |
| `plugin_ids.dfy` | `PluginIds` | the id regular expressions and the id functions |

The engine is written once, generic over the element type. A `Keys<T>` value says how
to read an element's id, stage and after set. `pluginOrder.js` computes those through
`getOrderParams`. `pluginResolution.js` reads the fields its own `insertPluginByStage`
stored. The two files therefore share one model of each algorithm.

Kahn's algorithm works on indices into the input. An element's successors are the
plugins whose after set names it, wherever they stand in the input, listed in input
order. With distinct ids this is the order in which the source records edges. The main loop is a recursive function
(`Topological.Drain`) whose precondition is the loop invariant `KahnInv`:

- every element's indegree equals the number of its in-set prerequisites not yet output;
- an element has been output or enqueued exactly when none of its prerequisites is missing;
- every output element follows all of its prerequisites.

`Topological.RunKahn` is the same loop written with a queue and an indegree table that
are updated in place. It is proved to output what `Kahn` defines.

Where the library's own documentation and its code differ, the model follows the code:

- **Group order.** `arrangePlugins` concatenates the stage groups in the order in which
  each stage first occurs in the input, because a JavaScript `Map` iterates in insertion
  order. It does not sort them by stage. Its doc comment leaves sorting by stage to the
  caller. The model proves that the output is stage-ascending whenever the input is
  (`Arrange.ArrangeKeepsAscending`). It also proves that the output keeps a stage-0
  plugin after a stage-100 one that comes first (`PluginOrderExamples.StagesInFirstOccurrenceOrder`).
- **Cycles.** No warning is emitted on a cycle. The code only carries a TODO, and simply
  returns the input.
- **Stage values.** A stage is used when it is a number; there is no finiteness or
  integrality check. The model takes stages as integers (see Left out).
- **Test expectations.** The test file expects each inserted entry to carry `stage` and
  `after` fields. Only the `pluginResolution.js` version of `insertPluginByStage` stores
  them. The `pluginOrder.js` version inserts the plugin object itself and does not export
  `DEFAULT_STAGE`. The record expectations are therefore stated against
  `PluginRecords.InsertPluginByStage`. The order expectations are stated against both.

## Model

| member | source | states |
|---|---|---|
| PluginOrder.GetOrderParams | packages/@vue/cli-shared-utils/lib/pluginOrder.js:20-37 | the stage is `apply.stage` when present and 100 otherwise; a name is in the after set exactly when the after field is that string or a list holding it |
| PluginOrder.GetOrderParamsCached | packages/@vue/cli-shared-utils/lib/pluginOrder.js:16-38 | outside test mode a cached entry for the id is returned and the cache is unchanged; otherwise fresh parameters are computed; outside test mode the cache ends up holding the returned entry under the id, and in test mode it is untouched |
| PluginOrder.CachedIsFresh | packages/@vue/cli-shared-utils/lib/pluginOrder.js:16-38 | while each id determines its plugin's parameters and the cache agrees with them, a cached lookup returns the uncached parameters and leaves the cache consistent |
| PluginOrder.CacheKeyedById | packages/@vue/cli-shared-utils/lib/pluginOrder.js:17-19 | the cache is keyed by id only: a second plugin with the same id gets the first one's stage |
| StageSort.InsertionPoint | packages/@vue/cli-shared-utils/lib/pluginOrder.js:49-60 | the backward scan stops one past the rightmost element whose stage is not above the item's (0 when there is none); every element from there on has a higher stage |
| StageSort.InsertByStage | packages/@vue/cli-shared-utils/lib/pluginOrder.js:46-62 | the result is the input with the item placed at the insertion point, one element longer |
| StageSort.InsertPermutation | packages/@vue/cli-shared-utils/lib/pluginOrder.js:46-62 | insertion adds exactly the item to the multiset of elements |
| StageSort.InsertStable | packages/@vue/cli-shared-utils/lib/pluginOrder.js:46-62 | within every stage the incumbents keep their order and the item comes after them |
| StageSort.InsertKeepsAscending | packages/@vue/cli-shared-utils/lib/pluginOrder.js:46-62 | insertion into a stage-ascending sequence gives a stage-ascending sequence |
| PluginOrder.InsertPluginByStage | packages/@vue/cli-shared-utils/lib/pluginOrder.js:46-62 | the plugin lands at a position that meets the placement rule; the result is a permutation of the input plus the plugin; ascending order is kept; each stage's plugins keep their order with the new plugin appended to its own stage |
| StageSort.SortByStage | packages/@vue/cli-shared-utils/lib/pluginOrder.js:69-76 | the insertion sort keeps the length of its input (order, contents and stability are the three rows below) |
| StageSort.SortAscending | packages/@vue/cli-shared-utils/lib/pluginOrder.js:69-76 | the insertion sort's result is stage-ascending |
| StageSort.SortPermutation | packages/@vue/cli-shared-utils/lib/pluginOrder.js:69-76 | the insertion sort's result is a permutation of its input |
| StageSort.SortStable | packages/@vue/cli-shared-utils/lib/pluginOrder.js:69-76 | the insertion sort lists every stage's elements in input order |
| PluginOrder.SortPluginsByStage | packages/@vue/cli-shared-utils/lib/pluginOrder.js:69-76 | a stage-ascending permutation of the input that keeps every stage's plugins in input order |
| Topological.Successors | packages/@vue/cli-shared-utils/lib/pluginOrder.js:93-111 | the recorded successors of a plugin are exactly the plugins naming it in their after set, each once, in increasing input position (the order the edges are recorded in) |
| Topological.InitialIndegreeIsPending | packages/@vue/cli-shared-utils/lib/pluginOrder.js:93-111 | the starting indegree (size of the after set minus names of no plugin in the set) is the number of in-set prerequisites |
| Topological.ZeroIndegree | packages/@vue/cli-shared-utils/lib/pluginOrder.js:113-117 | the seeded queue holds exactly the zero-indegree plugins, each once, in increasing input position |
| Topological.Released | packages/@vue/cli-shared-utils/lib/pluginOrder.js:124-129 | the successors released by one dequeue: exactly those whose indegree is one, each once, kept in the order of the successor list |
| Topological.RelaxFacts | packages/@vue/cli-shared-utils/lib/pluginOrder.js:121-130 | each successor's indegree drops by one, the queue keeps its contents as a prefix, and what is appended is exactly `Released`: the successors whose indegree reaches zero, in successor order |
| Topological.StepKeepsInv | packages/@vue/cli-shared-utils/lib/pluginOrder.js:118-131 | one dequeue-output-relax step preserves the loop invariant |
| Topological.DrainStep | packages/@vue/cli-shared-utils/lib/pluginOrder.js:118-131 | one turn of the loop keeps the invariant, and the remaining turns produce the same order as the whole loop |
| Topological.Kahn | packages/@vue/cli-shared-utils/lib/pluginOrder.js:113-131 | the loop run from the seeded queue outputs distinct plugins, each after all of its in-set prerequisites, and every plugin none of whose prerequisites is missing |
| Topological.Drain | packages/@vue/cli-shared-utils/lib/pluginOrder.js:118-131 | the loop outputs distinct plugins, each after all of its prerequisites, and omits only plugins with a prerequisite missing from the output |
| Topological.RunKahn | packages/@vue/cli-shared-utils/lib/pluginOrder.js:113-131 | the in-place queue loop outputs exactly the recursive definition's order: distinct plugins, each after its prerequisites |
| Topological.RunRelax | packages/@vue/cli-shared-utils/lib/pluginOrder.js:124-130 | the in-place successor loop computes the same indegrees and queue as `Relax` |
| Topological.CompleteOrderIsTopological | packages/@vue/cli-shared-utils/lib/pluginOrder.js:132-135 | a complete output order is a permutation of the input honouring every in-set after edge |
| Topological.CompleteWhenOrderExists | packages/@vue/cli-shared-utils/lib/pluginOrder.js:118-135 | when any order honouring the edges exists, the loop outputs every plugin |
| Topological.TopologicalSorting | packages/@vue/cli-shared-utils/lib/pluginOrder.js:83-136 | always a permutation; it honours every in-set after edge whenever that is possible; otherwise (a cycle or a self-reference) it is the input itself |
| PluginOrder.TopologicalSorting | packages/@vue/cli-shared-utils/lib/pluginOrder.js:83-136 | the same contract over plugins keyed by their order parameters; names of plugins outside the set constrain nothing |
| Arrange.StageGroupsSpec | packages/@vue/cli-shared-utils/lib/pluginOrder.js:151-160 | the groups hold, for each stage present, that stage's plugins in input order, one group per stage, in first-occurrence order |
| Arrange.AddToGroupFacts | packages/@vue/cli-shared-utils/lib/pluginOrder.js:153-160 | one grouping turn leaves the other stages' groups as they were, gives the plugin's stage a group ending with the plugin, and adds exactly that plugin to the members |
| Arrange.ConcatPermutation | packages/@vue/cli-shared-utils/lib/pluginOrder.js:162-164 | concatenating per-group permutations gives a permutation of all grouped plugins |
| Arrange.ArrangeWithinStage | packages/@vue/cli-shared-utils/lib/pluginOrder.js:144-166 | a stage's plugins in the arranged output are the topological sorting of that stage's plugins in input order |
| Arrange.ArrangeGroupOrder | packages/@vue/cli-shared-utils/lib/pluginOrder.js:151-164 | along the output, the first input position of each plugin's stage never decreases |
| Arrange.ArrangeContiguous | packages/@vue/cli-shared-utils/lib/pluginOrder.js:144-166 | each stage's plugins form one contiguous block of the output |
| Arrange.ArrangeKeepsAscending | packages/@vue/cli-shared-utils/lib/pluginOrder.js:138-166 | a stage-ascending input gives a stage-ascending output |
| Arrange.ArrangePlugins | packages/@vue/cli-shared-utils/lib/pluginOrder.js:144-166 | fewer than two plugins are returned as is; otherwise the output is a permutation of the input |
| PluginOrder.ArrangePlugins | packages/@vue/cli-shared-utils/lib/pluginOrder.js:144-166 | a permutation; each stage's plugins are the topological sorting of that stage's input plugins; stages follow their first occurrence; ascending input stays ascending |
| OrderShapes.PairSorted | packages/@vue/cli-shared-utils/lib/pluginOrder.js:83-135 | when one of two elements names the other and nothing else links them, sorting puts the named one first |
| OrderShapes.ChainOrderUnique | packages/@vue/cli-shared-utils/lib/pluginOrder.js:83-135 | in the chain a after b after c, the only order honouring both edges is c, b, a |
| OrderShapes.ChainSorted | packages/@vue/cli-shared-utils/lib/pluginOrder.js:83-135 | sorting the chain a after b after c gives c, b, a |
| OrderShapes.CycleBlocks | packages/@vue/cli-shared-utils/lib/pluginOrder.js:83-135 | no rearrangement of a three-element cycle honours all three edges |
| OrderShapes.CycleKept | packages/@vue/cli-shared-utils/lib/pluginOrder.js:132-135 | sorting a three-element cycle returns the input unchanged |
| OrderShapes.FanKahn | packages/@vue/cli-shared-utils/lib/pluginOrder.js:93-131 | with two elements after a third, the loop outputs the third and then the other two in input order, the order their edges were recorded in |
| OrderShapes.FanSorted | packages/@vue/cli-shared-utils/lib/pluginOrder.js:83-135 | sorting two elements after a third gives the third and then the two in input order, although the reverse would honour the edges too |
| OrderShapes.TwoStagesKeepOrder | packages/@vue/cli-shared-utils/lib/pluginOrder.js:144-166 | two plugins of different stages keep their input order, whatever their after sets name |
| PluginOrderExamples.InsertByStageOrder | packages/@vue/cli-shared-utils/__tests__/pluginOrder.spec.js:48-62 | inserting a plugin, then a lower-stage one, then a higher-stage one gives lower, first, higher |
| PluginOrderExamples.SameStageKeepsCallOrder | packages/@vue/cli-shared-utils/__tests__/pluginOrder.spec.js:32-46 | three plugins of one stage are stored in call order |
| PluginOrderExamples.InsertByStageExample | packages/@vue/cli-shared-utils/__tests__/pluginOrder.spec.js:48-62 | foo (default stage), bar (0), baz (200) are stored as bar, foo, baz |
| PluginOrderExamples.DefaultStageKeepsCallOrder | packages/@vue/cli-shared-utils/__tests__/pluginOrder.spec.js:32-46 | foo, bar, baz without stages are stored as foo, bar, baz |
| PluginOrderExamples.ChainExample | packages/@vue/cli-shared-utils/lib/pluginOrder.js:93-135 | foo after bar, bar after baz, baz: the sorting is baz, bar, foo |
| PluginOrderExamples.CycleExample | packages/@vue/cli-shared-utils/lib/pluginOrder.js:132-135 | foo after bar after baz after foo: the sorting returns foo, bar, baz unchanged |
| PluginOrderExamples.CrossStageAfterIgnored | packages/@vue/cli-shared-utils/lib/pluginOrder.js:151-164 | bar (stage 0, after foo) before foo (stage 100) stays bar, foo |
| PluginOrderExamples.StagesInFirstOccurrenceOrder | packages/@vue/cli-shared-utils/lib/pluginOrder.js:151-164 | foo (stage 100) before bar (stage 0) stays foo, bar: groups are not sorted by stage |
| ArrangeScenario.TieBreakExample | packages/@vue/cli-shared-utils/lib/pluginOrder.js:113-131 | fum and zot after baz, all at stage 200: baz first, then fum and zot in input order |
| ArrangeScenario.PairExample | packages/@vue/cli-shared-utils/lib/pluginOrder.js:83-135 | bar (after foo) and foo, both at stage 100, sort to foo, bar |
| ArrangeScenario.ArrangeExample | packages/@vue/cli-shared-utils/lib/pluginOrder.js:144-166 | bar (100, after foo), foo (100), fum, zot (200, after baz), baz (200) arrange to foo, bar, baz, fum, zot |
| PluginRecords.NewRecord | packages/@vue/cli-shared-utils/lib/pluginResolution.js:94-106 | the stored record copies id, apply and options, and its stage and after set agree with `getOrderParams` |
| PluginRecords.InsertPluginByStage | packages/@vue/cli-shared-utils/lib/pluginResolution.js:93-121 | the new record lands at a position meeting the placement rule, read from the stored stages; permutation, ascending order and per-stage order as in the other file |
| PluginRecords.TopologicalSorting | packages/@vue/cli-shared-utils/lib/pluginResolution.js:128-180 | the contract of the other file's sorting, over the stored after sets |
| PluginRecords.ArrangePlugins | packages/@vue/cli-shared-utils/lib/pluginResolution.js:187-209 | the contract of the other file's arrangement, over the stored stages |
| PluginRecords.InsertByStageOrder | packages/@vue/cli-shared-utils/lib/pluginResolution.js:108-120 | inserting an entry, then a lower-stage one, then a higher-stage one stores the lower, the first, the higher |
| PluginRecords.SameStageKeepsCallOrder | packages/@vue/cli-shared-utils/lib/pluginResolution.js:108-120 | entries of one stage are stored in call order |
| PluginRecords.StageSpecifiedExample | packages/@vue/cli-shared-utils/__tests__/pluginOrder.spec.js:48-62 | the stored records are bar (0), foo (100), baz (200), each with an empty after set |
| PluginRecords.NoStageExample | packages/@vue/cli-shared-utils/__tests__/pluginOrder.spec.js:32-46 | the stored records are foo, bar, baz, each with stage 100 and an empty after set |
| PluginIds.ValidScopeIsShape | packages/@vue/cli-shared-utils/lib/pluginResolution.js:2 | the character-level scope check accepts exactly two `[\w-]` words joined with or without one dot |
| PluginIds.ScopeLength | packages/@vue/cli-shared-utils/lib/pluginResolution.js:2 | a scope match is longer than three characters and fits in the id (which prefixes it finds is `ScopeLengthMatches`) |
| PluginIds.ScopeLengthMatches | packages/@vue/cli-shared-utils/lib/pluginResolution.js:2 | the scope matcher returns n exactly when the first n characters are `@`, a valid scope, `/` |
| PluginIds.PluginPrefixLength | packages/@vue/cli-shared-utils/lib/pluginResolution.js:1 | a plugin-prefix match is at least 15 characters long and fits in the id (which prefixes it finds is `PluginPrefixLengthMatches`) |
| PluginIds.PluginPrefixLengthMatches | packages/@vue/cli-shared-utils/lib/pluginResolution.js:1 | the plugin matcher returns n exactly when the first n characters are `@vue/cli-plugin-`, `vue-cli-plugin-` or `@scope/vue-cli-plugin-`; so the prefix is unique |
| PluginIds.IsPluginMatches | packages/@vue/cli-shared-utils/lib/pluginResolution.js:21 | an id is a plugin id exactly when some prefix of it is in the language of the plugin pattern |
| PluginIds.OneLetterScopeIsNotPlugin | packages/@vue/cli-shared-utils/lib/pluginResolution.js:1 | `@a/vue-cli-plugin-x` is not a plugin id: a scope needs two characters |
| PluginIds.TwoLetterScopeIsPlugin | packages/@vue/cli-shared-utils/lib/pluginResolution.js:1 | `@ab/vue-cli-plugin-x` is a plugin id |
| PluginIds.IsOfficialPlugin | packages/@vue/cli-shared-utils/lib/pluginResolution.js:23 | an id is official exactly when it starts with `@vue/cli-plugin-` or `@vue/vue-cli-plugin-` |
| PluginIds.ToShortPluginId | packages/@vue/cli-shared-utils/lib/pluginResolution.js:25 | a plugin id loses exactly a prefix in the plugin pattern's language; any other id is unchanged |
| PluginIds.StripScope | packages/@vue/cli-shared-utils/lib/pluginResolution.js:64 | an id loses exactly a prefix in the scope pattern's language when it has one; otherwise it is unchanged |
| PluginIds.OfficialPrefixed | packages/@vue/cli-shared-utils/lib/pluginResolution.js:25 | `@vue/cli-plugin-` + x is a plugin id whose short id is x |
| PluginIds.CommunityPrefixed | packages/@vue/cli-shared-utils/lib/pluginResolution.js:25 | `vue-cli-plugin-` + x is a plugin id whose short id is x |
| PluginIds.ScopedPrefixed | packages/@vue/cli-shared-utils/lib/pluginResolution.js:25 | `@scope/vue-cli-plugin-` + x is a plugin id whose short id is x |
| PluginIds.ScopedJoinShort | packages/@vue/cli-shared-utils/lib/pluginResolution.js:41-48 | joining a scope and a short name gives `@vue/cli-plugin-` + name for `@vue/` and scope + `vue-cli-plugin-` + name for any other scope: a plugin id that starts with the scope, whose short id is the name, and which is official exactly when the scope is `@vue/` |
| PluginIds.ResolvePluginId | packages/@vue/cli-shared-utils/lib/pluginResolution.js:27-36 | a full plugin id or the service id is returned unchanged |
| PluginIds.ResolveShortName | packages/@vue/cli-shared-utils/lib/pluginResolution.js:38-53 | any other name resolves to a plugin id whose short id is the name without its scope: an official short name gets `@vue/cli-plugin-`; `@vue/x` gives `@vue/cli-plugin-x` and `@s/x` for any other scope gives `@s/vue-cli-plugin-x`, official exactly when the scope is `@vue/`; any other name gets `vue-cli-plugin-` |
| PluginIds.ResolveIsPluginOrService | packages/@vue/cli-shared-utils/lib/pluginResolution.js:27-54 | resolution always yields a plugin id or the service id |
| PluginIds.ResolveIdempotent | packages/@vue/cli-shared-utils/lib/pluginResolution.js:27-54 | resolving twice is resolving once |
| PluginIds.MatchesResolved | packages/@vue/cli-shared-utils/lib/pluginResolution.js:56-66 | every name matches the id it resolves to |
| PluginIds.ShortOfResolved | packages/@vue/cli-shared-utils/lib/pluginResolution.js:38-53 | an unscoped name that is not a full id comes back unchanged from resolving and then shortening |
| PluginIds.ResolveBareExample | packages/@vue/cli-shared-utils/lib/pluginResolution.js:51-53 | `foo` resolves to `vue-cli-plugin-foo` |
| PluginIds.ResolveOfficialExample | packages/@vue/cli-shared-utils/lib/pluginResolution.js:38-40 | `eslint` resolves to `@vue/cli-plugin-eslint` |
| PluginIds.ResolveVueScopedExample | packages/@vue/cli-shared-utils/lib/pluginResolution.js:41-48 | `@vue/foo` resolves to `@vue/cli-plugin-foo` |
| PluginIds.ResolveScopedExample | packages/@vue/cli-shared-utils/lib/pluginResolution.js:41-48 | `@bar/foo` resolves to `@bar/vue-cli-plugin-foo` |

## Left out

- Distinct ids: `topologicalSorting` and `arrangePlugins` require the plugins' ids to be distinct. The source indexes plugins by id in a `Map`, where a later duplicate silently replaces an earlier one. That behaviour is not modelled.
- Descriptor shape: `apply` is modelled as a record with an optional integer stage and an after field that is absent, one string or a list of strings. A JavaScript function carrying properties, a non-number stage that is still present, and other field types are not distinguished beyond that.
- Stage numbers: stages are integers. NaN, infinities and fractional stages follow floating-point comparison in the source and are not modelled.
- Cycle warning: the source emits none (only a TODO), so there is nothing to model.
- `getPluginLink` (`lib/pluginResolution.js:68-83`): it reads `package.json` from disk and builds URLs, which is I/O.
- The test-mode flag is a parameter of `PluginOrder.GetOrderParamsCached`. The cache is an explicit map that is passed in and returned, not a process-wide variable.
- In-place mutation: `insertPluginByStage` shifts array cells in place. The model returns the new sequence; the shift loop is modelled by the position it stops at.
- `MatchesPluginId` carries no contract of its own; its property is `PluginIds.MatchesResolved`.
- Parameter cache inside the operations: `PluginOrder.InsertPluginByStage`, `SortPluginsByStage`, `TopologicalSorting` and `ArrangePlugins` read each plugin's stage and after set from the uncached `GetOrderParams`. The source's versions read them through the id-keyed cache (`pluginOrder.js:47,54,94,155`). The two agree while each id determines its plugin's parameters and the cache agrees with them: `PluginOrder.CachedIsFresh` under `IdDeterminesParams` is the bridge. When two plugins share an id but differ in their parameters, the source gives the later one the cached, stale stage (`PluginOrder.CacheKeyedById`). The operations here do not reproduce that.
- StageSort.SortByStage: its own contract gives only the length. Ascending order, permutation and stability are the lemmas `StageSort.SortAscending`, `SortPermutation` and `SortStable`; as ensures of the recursive function they would be re-proved at every unfolding.
- PluginIds.ScopeLength: its own contract bounds the match only. Which prefixes it finds, and that it finds every one, is `PluginIds.ScopeLengthMatches`.
- PluginIds.PluginPrefixLength: its own contract bounds the match only. Which prefixes it finds, and that the prefix is unique, is `PluginIds.PluginPrefixLengthMatches`.
- The ESLint plugin (`packages/@vue/cli-plugin-eslint/index.js`), its migrator and the webpack UI add-on's `.eslintrc.js` are not part of this model. They are wiring over libraries outside this package, reading and writing the project, and static configuration.
