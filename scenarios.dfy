/** Worked examples of registries and what is printed for them. */
module Scenarios {
  import opened Registry
  import opened KeyOrder
  import opened KeySort
  import opened TreeBuilder
  import opened TreeRenderer

  /** A one-element set has one enumeration. */
  lemma EnumeratesSingleton(s: seq<string>, x: string)
    requires Enumerates(s, {x})
    ensures s == [x]
  {
    EnumeratesMembers(s, {x});
  }

  /** With one controller and one model, the sorted orders are the singletons. */
  lemma CanonicalOfSingleton(tree: JujuTree, ctl: string, mdl: string)
    requires tree.Keys == {ctl} && tree[ctl].Keys == {mdl}
    ensures OrdersKnown(tree, [ctl], [[mdl]])
    ensures CanonicalLines(tree) == TreeLines(tree, [ctl], [[mdl]])
  {
    CanonicalOfOneController(tree, ctl);
    EnumeratesSingleton(SortedKeys(tree[ctl].Keys), mdl);
  }

  /** With one controller, only the order of its models is left to sorting. */
  lemma CanonicalOfOneController(tree: JujuTree, ctl: string)
    requires tree.Keys == {ctl}
    ensures OrdersKnown(tree, [ctl], [SortedKeys(tree[ctl].Keys)])
    ensures CanonicalLines(tree) == TreeLines(tree, [ctl], [SortedKeys(tree[ctl].Keys)])
  {
    var cs := SortedKeys(tree.Keys);
    EnumeratesSingleton(cs, ctl);
    var ms := SortedModelOrders(tree, cs);
    assert ms == [SortedKeys(tree[ctl].Keys)];
    EnumeratedModelsKnown(tree[ctl], ms[0]);
  }

  /** The lines of one controller holding one model without applications. */
  lemma SingletonLines(tree: JujuTree, ctl: string, mdl: string)
    requires ctl in tree && tree[ctl] == map[mdl := []]
    ensures OrdersKnown(tree, [ctl], [[mdl]])
    ensures TreeLines(tree, [ctl], [[mdl]]) == [ctl, Pad(4) + mdl]
  {
    ModelLinesAppend(tree[ctl], [], mdl);
    assert [] + [mdl] == [mdl];
    TreeLinesAppend(tree, [], [], ctl, [mdl]);
    assert [] + [ctl] == [ctl] && [] + [[mdl]] == [[mdl]];
    assert ModelLines(tree[ctl], []) == [] && AppLines(tree[ctl][mdl]) == [];
    assert TreeLines(tree, [], []) == [] && Pad(0) + ctl == ctl;
  }

  /** The lines for a tree of one controller with one model and no applications. */
  lemma OneControllerOneModelLines(ctl: string, mdl: string)
    ensures CanonicalLines(map[ctl := map[mdl := []]]) == [ctl, Pad(4) + mdl]
  {
    var tree: JujuTree := map[ctl := map[mdl := []]];
    CanonicalOfSingleton(tree, ctl, mdl);
    SingletonLines(tree, ctl, mdl);
  }

  /** The tree of registries with one controller. */
  lemma TreeOfOneController(c: Controllers, m: Models, name: string)
    requires c.controllers.Keys == {name} && name in m.controllers
    ensures HasAllModels(c, m) && LabelsDistinct(c)
    ensures Tree(c, m) == map[ControllerLabel(c, name) := ModelEntries(m.controllers[name])]
  {
  }

  /** The model entries of a controller with one model. */
  lemma EntriesOfOneModel(g: ControllerModels, name: string)
    requires g.models.Keys == {name}
    ensures ModelEntries(g) == map[ModelLabel(g, name) := []]
  {
  }

  function OneActiveControllers(): Controllers {
    Controllers(map["foo" := Controller("aws", "us-east-1", "iaas", "3.1.0")], "foo")
  }

  function OneActiveModels(): Models {
    Models(map["foo" := ControllerModels(map["default" := Iaas(Model("u1", "main"))], "default")])
  }

  /** Registries with one controller holding one model print two lines. */
  lemma OneControllerOneModel(c: Controllers, m: Models, name: string, model: string)
    requires c.controllers.Keys == {name} && name in m.controllers
    requires m.controllers[name].models.Keys == {model}
    requires WellFormedNames(c, m)
    ensures HasAllModels(c, m)
    ensures Expected(c, m) == [ControllerLabel(c, name), Pad(4) + ModelLabel(m.controllers[name], model)]
  {
    TreeOfOneController(c, m, name);
    EntriesOfOneModel(m.controllers[name], model);
    OneControllerOneModelLines(ControllerLabel(c, name), ModelLabel(m.controllers[name], model));
  }

  /** The names of the first scenario are well formed and every controller has models. */
  lemma OneActiveNames()
    ensures OneActiveControllers().controllers.Keys == {"foo"} && "foo" in OneActiveModels().controllers
    ensures OneActiveModels().controllers["foo"].models.Keys == {"default"}
    ensures WellFormedNames(OneActiveControllers(), OneActiveModels())
  {
    var c, m := OneActiveControllers(), OneActiveModels();
    assert c.controllers.Keys == {"foo"};
    assert m.controllers.Keys == {"foo"};
    assert m.controllers["foo"].models.Keys == {"default"};
    assert PlainName("foo") && '(' !in "foo" && PlainName("default");
  }

  /** The labels of the first scenario: both carry the active marker. */
  lemma OneActiveLabels()
    ensures "foo" in OneActiveControllers().controllers
    ensures ControllerLabel(OneActiveControllers(), "foo") == "* foo (3.1.0, iaas)"
    ensures ModelLabel(OneActiveModels().controllers["foo"], "default") == "* default"
  {
  }

  /** One active controller "foo" with one active model "default". */
  lemma ScenarioOneActive()
    ensures HasAllModels(OneActiveControllers(), OneActiveModels())
    ensures WellFormedNames(OneActiveControllers(), OneActiveModels())
    ensures Expected(OneActiveControllers(), OneActiveModels()) == ["* foo (3.1.0, iaas)", "    * default"]
  {
    assert Pad(4) == "    " by {
      assert Pad(1) == " " && Pad(2) == "  " && Pad(3) == "   ";
    }
    assert "    " + "* default" == "    * default";
    var c, m := OneActiveControllers(), OneActiveModels();
    OneActiveNames();
    OneActiveLabels();
    OneControllerOneModel(c, m, "foo", "default");
    var lines := Expected(c, m);
    assert lines[0] == "* foo (3.1.0, iaas)";
    assert lines[1] == "    " + "* default";
    assert |lines| == 2;
    assert lines == [lines[0], lines[1]];
  }

  /** Two distinct keys, listed once each. */
  lemma EnumeratesTwo(x: string, y: string)
    requires x != y
    ensures Enumerates([x, y], {x, y})
  {
    forall z
      ensures multiset([x, y])[z] == multiset({x, y})[z]
    {
    }
  }

  /** Two keys with different sort keys make no tie. */
  lemma NoTiesOfTwo(x: string, y: string)
    requires StripKey(x) != StripKey(y)
    ensures NoTies({x, y})
  {
  }

  /** Two keys with different sort keys have one sorted order. */
  lemma TwoInOrder(x: string, y: string)
    requires StripKey(x) != StripKey(y) && KeyLe(x, y)
    ensures SortedKeys({x, y}) == [x, y]
  {
    EnumeratesTwo(x, y);
    NoTiesOfTwo(x, y);
    assert SortedByKey([x, y]) by {
      forall i, j | 0 <= i < j < 2
        ensures KeyLe([x, y][i], [x, y][j])
      {
        assert i == 0 && j == 1;
      }
    }
    SortedIsUnique(SortedKeys({x, y}), [x, y], {x, y});
  }

  /** The lines of two models without applications, in the given order. */
  lemma TwoModels(mdls: map<string, seq<string>>, x: string, y: string)
    requires mdls == map[x := [], y := []]
    ensures ModelsKnown(mdls, [x, y])
    ensures ModelLines(mdls, [x, y]) == [Pad(4) + x, Pad(4) + y]
  {
    ModelLinesAppend(mdls, [], x);
    assert [] + [x] == [x];
    ModelLinesAppend(mdls, [x], y);
    assert [x] + [y] == [x, y];
    assert ModelLines(mdls, []) == [] && AppLines(mdls[x]) == [] && AppLines(mdls[y]) == [];
  }

  /** The lines of one controller holding two models without applications, in the given order. */
  lemma TwoModelLines(tree: JujuTree, ctl: string, x: string, y: string)
    requires ctl in tree && tree[ctl] == map[x := [], y := []]
    ensures OrdersKnown(tree, [ctl], [[x, y]])
    ensures TreeLines(tree, [ctl], [[x, y]]) == [ctl, Pad(4) + x, Pad(4) + y]
  {
    TwoModels(tree[ctl], x, y);
    TreeLinesAppend(tree, [], [], ctl, [x, y]);
    assert [] + [ctl] == [ctl] && [] + [[x, y]] == [[x, y]];
    assert TreeLines(tree, [], []) == [] && Pad(0) + ctl == ctl;
  }

  /** With one controller and two models, the sorted orders follow the sort keys. */
  lemma CanonicalOfTwo(tree: JujuTree, ctl: string, x: string, y: string)
    requires tree.Keys == {ctl} && tree[ctl] == map[x := [], y := []]
    requires StripKey(x) != StripKey(y) && KeyLe(x, y)
    ensures CanonicalLines(tree) == [ctl, Pad(4) + x, Pad(4) + y]
  {
    CanonicalOfOneController(tree, ctl);
    assert tree[ctl].Keys == {x, y};
    TwoInOrder(x, y);
    TwoModelLines(tree, ctl, x, y);
  }

  /** The model entries of a controller with two models. */
  lemma EntriesOfTwoModels(g: ControllerModels, a: string, b: string)
    requires g.models.Keys == {a, b}
    ensures ModelEntries(g) == map[ModelLabel(g, a) := [], ModelLabel(g, b) := []]
  {
  }

  /**
   * One controller with two models: the models are listed in the order of
   * their names, whichever of them carries the active marker.
   */
  lemma OneControllerTwoModels(c: Controllers, m: Models, name: string, a: string, b: string)
    requires c.controllers.Keys == {name} && name in m.controllers
    requires m.controllers[name].models.Keys == {a, b}
    requires WellFormedNames(c, m)
    requires a != b && LexLe(a, b)
    ensures HasAllModels(c, m)
    ensures var g := m.controllers[name];
      Expected(c, m) == [ControllerLabel(c, name), Pad(4) + ModelLabel(g, a), Pad(4) + ModelLabel(g, b)]
  {
    var g := m.controllers[name];
    TreeOfOneController(c, m, name);
    EntriesOfTwoModels(g, a, b);
    TwoModelLabelsOrdered(g, a, b);
    CanonicalOfTwo(Tree(c, m), ControllerLabel(c, name), ModelLabel(g, a), ModelLabel(g, b));
  }

  /** Labels of plain model names compare as the names do. */
  lemma TwoModelLabelsOrdered(g: ControllerModels, a: string, b: string)
    requires PlainName(a) && PlainName(b) && a != b && LexLe(a, b)
    ensures StripKey(ModelLabel(g, a)) != StripKey(ModelLabel(g, b))
    ensures KeyLe(ModelLabel(g, a), ModelLabel(g, b))
  {
    ModelLabelKey(g, a);
    ModelLabelKey(g, b);
    KeyLeStripped(ModelLabel(g, a), ModelLabel(g, b));
  }

  function AlphaZuluModels(): Models {
    Models(map["foo" := ControllerModels(map["alpha" := Iaas(Model("u1", "main")), "zulu" := Caas(Model("u2", "main"))], "alpha")])
  }

  lemma AlphaZuluNames()
    ensures OneActiveControllers().controllers.Keys == {"foo"} && "foo" in AlphaZuluModels().controllers
    ensures AlphaZuluModels().controllers["foo"].models.Keys == {"alpha", "zulu"}
    ensures WellFormedNames(OneActiveControllers(), AlphaZuluModels())
  {
    var c, m := OneActiveControllers(), AlphaZuluModels();
    assert c.controllers.Keys == {"foo"};
    assert m.controllers.Keys == {"foo"};
    assert m.controllers["foo"].models.Keys == {"alpha", "zulu"};
    assert PlainName("foo") && '(' !in "foo" && PlainName("alpha") && PlainName("zulu");
  }

  /** The labels of the second scenario: only "alpha" carries the active marker. */
  lemma AlphaZuluLabels()
    ensures ModelLabel(AlphaZuluModels().controllers["foo"], "alpha") == "* alpha"
    ensures ModelLabel(AlphaZuluModels().controllers["foo"], "zulu") == "  zulu"
  {
  }

  /**
   * An active model "alpha" and an inactive "zulu": "* alpha" is printed
   * first although, compared as whole labels, "  zulu" is the smaller.
   */
  lemma ScenarioMarkerIgnored()
    ensures HasAllModels(OneActiveControllers(), AlphaZuluModels())
    ensures LexLe("  zulu", "* alpha") && !LexLe("* alpha", "  zulu")
    ensures Expected(OneActiveControllers(), AlphaZuluModels()) == ["* foo (3.1.0, iaas)", "    * alpha", "      zulu"]
  {
    assert Pad(4) == "    " by {
      assert Pad(1) == " " && Pad(2) == "  " && Pad(3) == "   ";
    }
    assert "    " + "* alpha" == "    * alpha" && "    " + "  zulu" == "      zulu";
    var c, m := OneActiveControllers(), AlphaZuluModels();
    AlphaZuluNames();
    OneActiveLabels();
    AlphaZuluLabels();
    assert LexLe("alpha", "zulu");
    OneControllerTwoModels(c, m, "foo", "alpha", "zulu");
    var lines := Expected(c, m);
    assert lines == [lines[0], lines[1], lines[2]];
  }

  /** A model registry whose controller "foo" holds "a-model" and the active "b-model". */
  function TwoModelsActiveSecond(): Models {
    Models(map["foo" := ControllerModels(map["a-model" := Iaas(Model("u1", "main")), "b-model" := Iaas(Model("u2", "main"))], "b-model")])
  }

  lemma ActiveSecondNames()
    ensures OneActiveControllers().controllers.Keys == {"foo"} && "foo" in TwoModelsActiveSecond().controllers
    ensures TwoModelsActiveSecond().controllers["foo"].models.Keys == {"a-model", "b-model"}
    ensures WellFormedNames(OneActiveControllers(), TwoModelsActiveSecond())
  {
    var c, m := OneActiveControllers(), TwoModelsActiveSecond();
    assert c.controllers.Keys == {"foo"};
    assert m.controllers.Keys == {"foo"};
    assert m.controllers["foo"].models.Keys == {"a-model", "b-model"};
    assert PlainName("foo") && '(' !in "foo" && PlainName("a-model") && PlainName("b-model");
  }

  lemma ActiveSecondLabels()
    ensures ModelLabel(TwoModelsActiveSecond().controllers["foo"], "a-model") == "  a-model"
    ensures ModelLabel(TwoModelsActiveSecond().controllers["foo"], "b-model") == "* b-model"
  {
  }

  /** An inactive "a-model" is printed before the active "b-model". */
  lemma ScenarioActiveSecondModel()
    ensures HasAllModels(OneActiveControllers(), TwoModelsActiveSecond())
    ensures Expected(OneActiveControllers(), TwoModelsActiveSecond()) == ["* foo (3.1.0, iaas)", "      a-model", "    * b-model"]
  {
    assert Pad(4) == "    " by {
      assert Pad(1) == " " && Pad(2) == "  " && Pad(3) == "   ";
    }
    assert "    " + "  a-model" == "      a-model" && "    " + "* b-model" == "    * b-model";
    var c, m := OneActiveControllers(), TwoModelsActiveSecond();
    ActiveSecondNames();
    OneActiveLabels();
    ActiveSecondLabels();
    assert LexLe("a-model", "b-model");
    OneControllerTwoModels(c, m, "foo", "a-model", "b-model");
    var lines := Expected(c, m);
    assert lines == [lines[0], lines[1], lines[2]];
  }

  /** The lines of two controllers, each holding one model without applications, in the given order. */
  lemma TwoControllerLines(tree: JujuTree, x: string, y: string, mx: string, my: string)
    requires x in tree && y in tree && tree[x] == map[mx := []] && tree[y] == map[my := []]
    ensures OrdersKnown(tree, [x, y], [[mx], [my]])
    ensures TreeLines(tree, [x, y], [[mx], [my]]) == [x, Pad(4) + mx, y, Pad(4) + my]
  {
    SingletonLines(tree, x, mx);
    SingletonLines(tree, y, my);
    TreeLinesAppend(tree, [x], [[mx]], y, [my]);
    assert [x] + [y] == [x, y] && [[mx]] + [[my]] == [[mx], [my]];
    assert ModelLines(tree[y], [my]) == [Pad(4) + my] by {
      ModelLinesAppend(tree[y], [], my);
      assert [] + [my] == [my];
      assert ModelLines(tree[y], []) == [] && AppLines(tree[y][my]) == [];
    }
    assert Pad(0) + y == y;
  }

  /** With two controllers of one model each, the controllers are sorted by their keys. */
  lemma CanonicalOfTwoControllers(tree: JujuTree, x: string, y: string, mx: string, my: string)
    requires tree.Keys == {x, y} && tree[x] == map[mx := []] && tree[y] == map[my := []]
    requires StripKey(x) != StripKey(y) && KeyLe(x, y)
    ensures CanonicalLines(tree) == [x, Pad(4) + mx, y, Pad(4) + my]
  {
    TwoInOrder(x, y);
    ModelOrdersOfTwo(tree, x, y, mx, my);
    TwoControllerLines(tree, x, y, mx, my);
  }

  lemma ModelOrdersOfTwo(tree: JujuTree, x: string, y: string, mx: string, my: string)
    requires x in tree && y in tree && tree[x].Keys == {mx} && tree[y].Keys == {my}
    ensures SortedModelOrders(tree, [x, y]) == [[mx], [my]]
  {
    var ms := SortedModelOrders(tree, [x, y]);
    EnumeratesSingleton(ms[0], mx);
    EnumeratesSingleton(ms[1], my);
  }

  /** The tree of registries with two controllers. */
  lemma TreeOfTwoControllers(c: Controllers, m: Models, a: string, b: string)
    requires c.controllers.Keys == {a, b} && a in m.controllers && b in m.controllers
    requires LabelsDistinct(c)
    ensures HasAllModels(c, m)
    ensures Tree(c, m) == map[ControllerLabel(c, a) := ModelEntries(m.controllers[a]),
                              ControllerLabel(c, b) := ModelEntries(m.controllers[b])]
  {
    TreeAt(c, m, a);
    TreeAt(c, m, b);
    TreeKeysOfTwo(c, m, a, b);
    MapOfTwo(Tree(c, m), ControllerLabel(c, a), ControllerLabel(c, b));
  }

  lemma MapOfTwo(t: JujuTree, x: string, y: string)
    requires t.Keys == {x, y}
    ensures t == map[x := t[x], y := t[y]]
  {
  }

  lemma TreeKeysOfTwo(c: Controllers, m: Models, a: string, b: string)
    requires c.controllers.Keys == {a, b} && HasAllModels(c, m) && LabelsDistinct(c)
    ensures Tree(c, m).Keys == {ControllerLabel(c, a), ControllerLabel(c, b)}
  {
    var t := Tree(c, m);
    forall k | k in t
      ensures k == ControllerLabel(c, a) || k == ControllerLabel(c, b)
    {
      var n :| n in c.controllers && ControllerLabel(c, n) == k;
      assert n == a || n == b;
    }
    TreeAt(c, m, a);
    TreeAt(c, m, b);
  }

  /** The tree holds each controller's model entries under its label. */
  lemma TreeAt(c: Controllers, m: Models, name: string)
    requires HasAllModels(c, m) && LabelsDistinct(c) && name in c.controllers
    ensures ControllerLabel(c, name) in Tree(c, m)
    ensures Tree(c, m)[ControllerLabel(c, name)] == ModelEntries(m.controllers[name])
  {
  }

  /** Labels of plain controller names without '(' compare as their descriptions do. */
  lemma TwoControllerLabelsOrdered(c: Controllers, a: string, b: string)
    requires a in c.controllers && b in c.controllers && a != b
    requires PlainName(a) && PlainName(b) && '(' !in a && '(' !in b
    requires LexLe(Description(c, a), Description(c, b))
    ensures StripKey(ControllerLabel(c, a)) != StripKey(ControllerLabel(c, b))
    ensures KeyLe(ControllerLabel(c, a), ControllerLabel(c, b))
  {
    ControllerLabelKey(c, a);
    ControllerLabelKey(c, b);
    if Description(c, a) == Description(c, b) {
      DescriptionInjective(c, a, b);
    }
    KeyLeStripped(ControllerLabel(c, a), ControllerLabel(c, b));
  }

  /**
   * Two controllers with one model each: the controllers are listed in the
   * order of their descriptions, whichever of them is active.
   */
  lemma TwoControllersOneModelEach(c: Controllers, m: Models, a: string, b: string, ma: string, mb: string)
    requires c.controllers.Keys == {a, b} && a in m.controllers && b in m.controllers
    requires m.controllers[a].models.Keys == {ma} && m.controllers[b].models.Keys == {mb}
    requires WellFormedNames(c, m)
    requires a != b && LexLe(Description(c, a), Description(c, b))
    ensures HasAllModels(c, m)
    ensures Expected(c, m) == [ControllerLabel(c, a), Pad(4) + ModelLabel(m.controllers[a], ma),
                               ControllerLabel(c, b), Pad(4) + ModelLabel(m.controllers[b], mb)]
  {
    NoParenLabelsDistinct(c);
    TreeOfTwoControllers(c, m, a, b);
    EntriesOfOneModel(m.controllers[a], ma);
    EntriesOfOneModel(m.controllers[b], mb);
    TwoControllerLabelsOrdered(c, a, b);
    CanonicalOfTwoControllers(Tree(c, m), ControllerLabel(c, a), ControllerLabel(c, b),
                              ModelLabel(m.controllers[a], ma), ModelLabel(m.controllers[b], mb));
  }

  /** Controllers "alpha" and the current "zulu", each with one inactive model "m1". */
  function AlphaZuluControllers(): Controllers {
    Controllers(map["alpha" := Controller("aws", "us-east-1", "iaas", "3.1.0"),
                    "zulu" := Controller("aws", "us-east-1", "iaas", "3.1.0")], "zulu")
  }

  function OneModelEach(): Models {
    Models(map["alpha" := ControllerModels(map["m1" := Iaas(Model("u1", "main"))], ""),
               "zulu" := ControllerModels(map["m1" := Iaas(Model("u2", "main"))], "")])
  }

  lemma AlphaZuluControllerNames()
    ensures AlphaZuluControllers().controllers.Keys == {"alpha", "zulu"}
    ensures "alpha" in OneModelEach().controllers && "zulu" in OneModelEach().controllers
    ensures OneModelEach().controllers["alpha"].models.Keys == {"m1"}
    ensures OneModelEach().controllers["zulu"].models.Keys == {"m1"}
    ensures WellFormedNames(AlphaZuluControllers(), OneModelEach())
  {
    var c, m := AlphaZuluControllers(), OneModelEach();
    assert c.controllers.Keys == {"alpha", "zulu"};
    assert m.controllers.Keys == {"alpha", "zulu"};
    assert m.controllers["alpha"].models.Keys == {"m1"} && m.controllers["zulu"].models.Keys == {"m1"};
    assert PlainName("alpha") && '(' !in "alpha" && PlainName("zulu") && '(' !in "zulu" && PlainName("m1");
  }

  lemma AlphaZuluControllerLabels()
    ensures "alpha" in AlphaZuluControllers().controllers && "zulu" in AlphaZuluControllers().controllers
    ensures Description(AlphaZuluControllers(), "alpha") == "alpha (3.1.0, iaas)"
    ensures Description(AlphaZuluControllers(), "zulu") == "zulu (3.1.0, iaas)"
    ensures ControllerLabel(AlphaZuluControllers(), "alpha") == "  alpha (3.1.0, iaas)"
    ensures ControllerLabel(AlphaZuluControllers(), "zulu") == "* zulu (3.1.0, iaas)"
    ensures ModelLabel(OneModelEach().controllers["alpha"], "m1") == "  m1"
    ensures ModelLabel(OneModelEach().controllers["zulu"], "m1") == "  m1"
  {
  }

  /** The inactive "alpha" is printed before the active "zulu". */
  lemma ScenarioActiveSecondController()
    ensures HasAllModels(AlphaZuluControllers(), OneModelEach())
    ensures Expected(AlphaZuluControllers(), OneModelEach())
            == ["  alpha (3.1.0, iaas)", "      m1", "* zulu (3.1.0, iaas)", "      m1"]
  {
    assert Pad(4) == "    " by {
      assert Pad(1) == " " && Pad(2) == "  " && Pad(3) == "   ";
    }
    assert "    " + "  m1" == "      m1";
    var c, m := AlphaZuluControllers(), OneModelEach();
    AlphaZuluControllerNames();
    AlphaZuluControllerLabels();
    assert LexLe("alpha (3.1.0, iaas)", "zulu (3.1.0, iaas)");
    TwoControllersOneModelEach(c, m, "alpha", "zulu", "m1", "m1");
    var lines := Expected(c, m);
    assert lines == [lines[0], lines[1], lines[2], lines[3]];
  }
}
