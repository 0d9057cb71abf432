/** The ordering scenarios the library documents, on concrete plugins. */
module PluginOrderExamples {
  import opened Wrappers
  import opened Keys
  import opened PluginOrder
  import Topological
  import Arrange
  import OrderShapes

  function P(id: string, stage: Option<int>, after: AfterSpec): Plugin {
    Plugin(id, Apply(stage, after))
  }

  /** Inserting a plugin, then one of a lower stage, then one of a higher stage, gives
      the lower, the first, the higher. */
  lemma InsertByStageOrder(foo: Plugin, bar: Plugin, baz: Plugin)
    requires Stage(bar) < Stage(foo) < Stage(baz)
    ensures InsertPluginByStage(InsertPluginByStage(InsertPluginByStage([], foo), bar), baz) == [bar, foo, baz]
  {
    StageSort.InsertLower(PluginKeys, foo, bar);
    StageSort.InsertLast(PluginKeys, [bar, foo], baz);
    assert [bar, foo] + [baz] == [bar, foo, baz];
  }

  /** Plugins of one stage keep the order in which they are inserted. */
  lemma SameStageKeepsCallOrder(foo: Plugin, bar: Plugin, baz: Plugin)
    requires Stage(foo) == Stage(bar) == Stage(baz)
    ensures InsertPluginByStage(InsertPluginByStage(InsertPluginByStage([], foo), bar), baz) == [foo, bar, baz]
  {
    StageSort.InsertSame(PluginKeys, foo, bar);
    StageSort.InsertLast(PluginKeys, [foo, bar], baz);
    assert [foo, bar] + [baz] == [foo, bar, baz];
  }

  /** `foo` without a stage (so at the default 100), `bar` at stage 0 and `baz` at stage
      200 are stored as bar, foo, baz. */
  lemma InsertByStageExample()
    ensures var foo, bar, baz := P("foo", None, NoAfter), P("bar", Some(0), NoAfter), P("baz", Some(200), NoAfter);
            InsertPluginByStage(InsertPluginByStage(InsertPluginByStage([], foo), bar), baz) == [bar, foo, baz]
  {
    InsertByStageOrder(P("foo", None, NoAfter), P("bar", Some(0), NoAfter), P("baz", Some(200), NoAfter));
  }

  /** Three plugins without a stage are stored in call order. */
  lemma DefaultStageKeepsCallOrder()
    ensures var foo, bar, baz := P("foo", None, NoAfter), P("bar", None, NoAfter), P("baz", None, NoAfter);
            InsertPluginByStage(InsertPluginByStage(InsertPluginByStage([], foo), bar), baz) == [foo, bar, baz]
  {
    SameStageKeepsCallOrder(P("foo", None, NoAfter), P("bar", None, NoAfter), P("baz", None, NoAfter));
  }

  function Foo(after: AfterSpec): Plugin { P("foo", None, after) }
  function Bar(after: AfterSpec): Plugin { P("bar", None, after) }
  function Baz(after: AfterSpec): Plugin { P("baz", None, after) }

  /** `foo` after `bar`, `bar` after `baz`: topological sorting gives baz, bar, foo. */
  lemma ChainExample()
    ensures DistinctIds(PluginKeys, [Foo(AfterOne("bar")), Bar(AfterOne("baz")), Baz(NoAfter)])
    ensures TopologicalSorting([Foo(AfterOne("bar")), Bar(AfterOne("baz")), Baz(NoAfter)])
            == [Baz(NoAfter), Bar(AfterOne("baz")), Foo(AfterOne("bar"))]
  {
    OrderShapes.ChainSorted(PluginKeys, Foo(AfterOne("bar")), Bar(AfterOne("baz")), Baz(NoAfter));
  }

  /** `foo` after `bar`, `bar` after `baz`, `baz` after `foo`: a cycle, so topological
      sorting returns the input unchanged. */
  lemma CycleExample()
    ensures DistinctIds(PluginKeys, [Foo(AfterOne("bar")), Bar(AfterOne("baz")), Baz(AfterOne("foo"))])
    ensures TopologicalSorting([Foo(AfterOne("bar")), Bar(AfterOne("baz")), Baz(AfterOne("foo"))])
            == [Foo(AfterOne("bar")), Bar(AfterOne("baz")), Baz(AfterOne("foo"))]
  {
    OrderShapes.CycleKept(PluginKeys, Foo(AfterOne("bar")), Bar(AfterOne("baz")), Baz(AfterOne("foo")));
  }

  /** `bar` (stage 0) after `foo` (stage 100): the after edge crosses stages and is not
      honoured, so arranging keeps bar first. */
  lemma CrossStageAfterIgnored()
    ensures var bar, foo := P("bar", Some(0), AfterOne("foo")), P("foo", Some(100), NoAfter);
            DistinctIds(PluginKeys, [bar, foo])
            && ArrangePlugins([bar, foo]) == [bar, foo]
  {
    OrderShapes.TwoStagesKeepOrder(PluginKeys, P("bar", Some(0), AfterOne("foo")), P("foo", Some(100), NoAfter));
  }

  /** `foo` (stage 100) before `bar` (stage 0): stages come out in the order in which
      they first occur, so arranging keeps foo first although its stage is higher. */
  lemma StagesInFirstOccurrenceOrder()
    ensures var foo, bar := P("foo", Some(100), NoAfter), P("bar", Some(0), NoAfter);
            DistinctIds(PluginKeys, [foo, bar])
            && ArrangePlugins([foo, bar]) == [foo, bar]
  {
    OrderShapes.TwoStagesKeepOrder(PluginKeys, P("foo", Some(100), NoAfter), P("bar", Some(0), NoAfter));
  }
}

module ArrangeScenario {
  import opened Wrappers
  import opened Keys
  import opened PluginOrder
  import Topological
  import Arrange
  import OrderShapes

  function Fum(): Plugin { Plugin("fum", Apply(Some(200), AfterOne("baz"))) }
  function Zot(): Plugin { Plugin("zot", Apply(Some(200), AfterOne("baz"))) }
  function Baz(): Plugin { Plugin("baz", Apply(Some(200), NoAfter)) }

  function Group(): seq<Plugin> { [Fum(), Zot(), Baz()] }

  function Bar(): Plugin { Plugin("bar", Apply(Some(100), AfterOne("foo"))) }
  function Foo(): Plugin { Plugin("foo", Apply(Some(100), NoAfter)) }

  /** Topological sorting of stage 200's group puts baz first, then fum and zot in input
      order. */
  lemma TieBreakExample()
    ensures DistinctIds(PluginKeys, Group())
    ensures TopologicalSorting(Group()) == [Baz(), Fum(), Zot()]
  {
    assert OrderShapes.Fan(PluginKeys, Group());
    OrderShapes.FanSorted(PluginKeys, Fum(), Zot(), Baz());
  }

  /** Topological sorting of stage 100's group puts foo before bar. */
  lemma PairExample()
    ensures DistinctIds(PluginKeys, [Bar(), Foo()])
    ensures TopologicalSorting([Bar(), Foo()]) == [Foo(), Bar()]
  {
    OrderShapes.PairSorted(PluginKeys, Bar(), Foo());
  }

  function Scenario(): seq<Plugin> { [Bar(), Foo(), Fum(), Zot(), Baz()] }

  /** Grouping keeps stage 100 (bar, foo) and then stage 200 (fum, zot, baz). */
  lemma ScenarioGroups(ps: seq<Plugin>)
    requires ps == Scenario()
    ensures Arrange.StageGroups(PluginKeys, ps) == ScenarioGroupsValue()
  {
    var g2 := [Arrange.StageGroup(100, [Bar(), Foo()])];
    var g4 := g2 + [Arrange.StageGroup(200, [Fum(), Zot()])];
    var g5 := g2 + [Arrange.StageGroup(200, [Fum(), Zot(), Baz()])];
    ScenarioGroupsFour(ps);
    assert ps[..5][..4] == ps[..4] && ps[..5] == ps;
    assert Arrange.GroupIndex(g4, 200) == 1;
    assert g4[1].members + [Baz()] == [Fum(), Zot(), Baz()];
    assert Arrange.AddToGroup(g4, 200, Baz()) == g5;
  }

  /** The first four plugins give stage 100's group (bar, foo) and stage 200's (fum, zot). */
  lemma ScenarioGroupsFour(ps: seq<Plugin>)
    requires ps == Scenario()
    ensures Arrange.StageGroups(PluginKeys, ps[..4])
            == [Arrange.StageGroup(100, [Bar(), Foo()]), Arrange.StageGroup(200, [Fum(), Zot()])]
  {
    var g2 := [Arrange.StageGroup(100, [Bar(), Foo()])];
    var g3 := g2 + [Arrange.StageGroup(200, [Fum()])];
    var g4 := g2 + [Arrange.StageGroup(200, [Fum(), Zot()])];
    ScenarioGroupsHead(ps);
    assert ps[..4][..3] == ps[..3];
    assert Arrange.GroupIndex(g3, 200) == 1;
    assert g3[1].members + [Zot()] == [Fum(), Zot()];
    assert Arrange.AddToGroup(g3, 200, Zot()) == g4;
  }

  /** The first three plugins give stage 100's group (bar, foo) and stage 200's (fum). */
  lemma ScenarioGroupsHead(ps: seq<Plugin>)
    requires ps == Scenario()
    ensures Arrange.StageGroups(PluginKeys, ps[..3])
            == [Arrange.StageGroup(100, [Bar(), Foo()]), Arrange.StageGroup(200, [Fum()])]
  {
    var k := PluginKeys;
    var g1 := [Arrange.StageGroup(100, [Bar()])];
    var g2 := [Arrange.StageGroup(100, [Bar(), Foo()])];
    var g3 := g2 + [Arrange.StageGroup(200, [Fum()])];
    assert ps[..1][..0] == [];
    assert Arrange.StageGroups(k, ps[..1]) == g1;
    assert ps[..2][..1] == ps[..1];
    assert Arrange.GroupIndex(g1, 100) == 0;
    assert g1[0].members + [Foo()] == [Bar(), Foo()];
    assert Arrange.AddToGroup(g1, 100, Foo()) == g2;
    assert Arrange.StageGroups(k, ps[..2]) == g2;
    assert ps[..3][..2] == ps[..2];
    assert Arrange.GroupIndex(g2, 200) == 1;
  }

  function ScenarioGroupsValue(): seq<Arrange.StageGroup<Plugin>> {
    [Arrange.StageGroup(100, [Bar(), Foo()]), Arrange.StageGroup(200, [Fum(), Zot(), Baz()])]
  }

  lemma ScenarioDistinct(gs: seq<Arrange.StageGroup<Plugin>>)
    requires gs == ScenarioGroupsValue()
    ensures Arrange.GroupsDistinctIds(PluginKeys, gs)
  {
    assert DistinctIds(PluginKeys, gs[0].members);
    assert DistinctIds(PluginKeys, gs[1].members);
  }

  lemma ScenarioSortedFirst(gs: seq<Arrange.StageGroup<Plugin>>)
    requires gs == ScenarioGroupsValue() && Arrange.GroupsDistinctIds(PluginKeys, gs)
    ensures Arrange.SortEachGroup(PluginKeys, gs)[0] == [Foo(), Bar()]
  {
    PairExample();
  }

  lemma ScenarioSortedSecond(gs: seq<Arrange.StageGroup<Plugin>>)
    requires gs == ScenarioGroupsValue() && Arrange.GroupsDistinctIds(PluginKeys, gs)
    ensures Arrange.SortEachGroup(PluginKeys, gs)[1] == [Baz(), Fum(), Zot()]
  {
    TieBreakExample();
  }

  lemma ScenarioSorted(gs: seq<Arrange.StageGroup<Plugin>>)
    requires gs == ScenarioGroupsValue()
    ensures Arrange.GroupsDistinctIds(PluginKeys, gs)
    ensures Arrange.SortEachGroup(PluginKeys, gs) == [[Foo(), Bar()], [Baz(), Fum(), Zot()]]
  {
    ScenarioDistinct(gs);
    var t := Arrange.SortEachGroup(PluginKeys, gs);
    ScenarioSortedFirst(gs);
    ScenarioSortedSecond(gs);
    PairOf(t, [Foo(), Bar()], [Baz(), Fum(), Zot()]);
  }

  /** A sequence of length two is the display of its two elements. */
  lemma PairOf<X>(t: seq<X>, x: X, y: X)
    requires |t| == 2 && t[0] == x && t[1] == y
    ensures t == [x, y]
  {
  }

  lemma ScenarioConcat(ts: seq<seq<Plugin>>)
    requires ts == [[Foo(), Bar()], [Baz(), Fum(), Zot()]]
    ensures Arrange.Concat(ts) == [Foo(), Bar(), Baz(), Fum(), Zot()]
  {
    assert ts[1..][1..] == [];
    assert Arrange.Concat(ts[1..][1..]) == [];
    assert Arrange.Concat(ts[1..]) == [Baz(), Fum(), Zot()];
  }

  /** bar (100, after foo), foo (100), fum (200, after baz), zot (200, after baz),
      baz (200): arranging gives foo, bar, baz, fum, zot. */
  lemma ArrangeExample(ps: seq<Plugin>)
    requires ps == Scenario()
    ensures DistinctIds(PluginKeys, ps)
    ensures ArrangePlugins(ps) == [Foo(), Bar(), Baz(), Fum(), Zot()]
  {
    ScenarioGroups(ps);
    var gs := Arrange.StageGroups(PluginKeys, ps);
    ScenarioSorted(gs);
    assert DistinctIds(PluginKeys, ps);
    assert ArrangePlugins(ps) == Arrange.Concat(Arrange.SortEachGroup(PluginKeys, gs));
    ScenarioConcat(Arrange.SortEachGroup(PluginKeys, gs));
  }
}
