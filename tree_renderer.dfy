/**
 * Printing the display tree (`JujuArtifacts::print_tree`): controllers in
 * stripped-key order at indent 0, under each its models in stripped-key
 * order at indent 4, under each model its applications in stored order at
 * indent 8. Each printed line is one element of the returned sequence.
 */
module TreeRenderer {
  import opened Registry
  import opened KeyOrder
  import opened KeySort
  import opened TreeBuilder

  /** `" ".repeat(n)`. */
  function Pad(n: nat): (r: string)
    ensures |r| == n && forall i :: 0 <= i < n ==> r[i] == ' '
  {
    if n == 0 then [] else [' '] + Pad(n - 1)
  }

  /** The lines printed for a model's applications, each at indent 8. */
  function AppLines(apps: seq<string>): (r: seq<string>)
    ensures |r| == |apps|
    ensures forall k :: 0 <= k < |apps| ==> r[k] == Pad(8) + apps[k]
  {
    if apps == [] then [] else AppLines(apps[..|apps| - 1]) + [Pad(8) + apps[|apps| - 1]]
  }

  /** Every model in `order` is a model of `mdls`. */
  predicate ModelsKnown(mdls: map<string, seq<string>>, order: seq<string>) {
    forall k :: 0 <= k < |order| ==> order[k] in mdls
  }

  /** The lines printed for the models of one controller, in the given order. */
  function ModelLines(mdls: map<string, seq<string>>, order: seq<string>): seq<string>
    requires ModelsKnown(mdls, order)
  {
    if order == [] then []
    else
      var last := order[|order| - 1];
      ModelLines(mdls, order[..|order| - 1]) + [Pad(4) + last] + AppLines(mdls[last])
  }

  /** `ctls` lists controllers of `tree`, and `mdlOrders[i]` models of `ctls[i]`. */
  predicate OrdersKnown(tree: JujuTree, ctls: seq<string>, mdlOrders: seq<seq<string>>) {
    && |mdlOrders| == |ctls|
    && forall i :: 0 <= i < |ctls| ==> ctls[i] in tree && ModelsKnown(tree[ctls[i]], mdlOrders[i])
  }

  /** The lines printed for the whole tree, with the given orders at both levels. */
  function TreeLines(tree: JujuTree, ctls: seq<string>, mdlOrders: seq<seq<string>>): seq<string>
    requires OrdersKnown(tree, ctls, mdlOrders)
  {
    if ctls == [] then []
    else
      var n := |ctls| - 1;
      TreeLines(tree, ctls[..n], mdlOrders[..n]) + [Pad(0) + ctls[n]] + ModelLines(tree[ctls[n]], mdlOrders[n])
  }

  /** Each controller's models are listed in `mdlOrders` sorted by stripped key. */
  ghost predicate ModelOrdersSorted(tree: JujuTree, ctls: seq<string>, mdlOrders: seq<seq<string>>) {
    && OrdersKnown(tree, ctls, mdlOrders)
    && forall i :: 0 <= i < |ctls| ==>
         Enumerates(mdlOrders[i], tree[ctls[i]].Keys) && SortedByKey(mdlOrders[i])
  }

  /** The orders the printer may use: both levels sorted by stripped key. */
  ghost predicate SortedOrders(tree: JujuTree, ctls: seq<string>, mdlOrders: seq<seq<string>>) {
    && ModelOrdersSorted(tree, ctls, mdlOrders)
    && Enumerates(ctls, tree.Keys) && SortedByKey(ctls)
  }

  lemma ModelOrdersSortedAppend(tree: JujuTree, ctls: seq<string>, mdlOrders: seq<seq<string>>, ctl: string, order: seq<string>)
    requires ModelOrdersSorted(tree, ctls, mdlOrders) && ctl in tree
    requires Enumerates(order, tree[ctl].Keys) && SortedByKey(order) && ModelsKnown(tree[ctl], order)
    ensures ModelOrdersSorted(tree, ctls + [ctl], mdlOrders + [order])
  {
    var cs, ms := ctls + [ctl], mdlOrders + [order];
    forall i | 0 <= i < |cs|
      ensures cs[i] in tree && ModelsKnown(tree[cs[i]], ms[i])
      ensures Enumerates(ms[i], tree[cs[i]].Keys) && SortedByKey(ms[i])
    {
      if i < |ctls| {
        assert cs[i] == ctls[i] && ms[i] == mdlOrders[i];
      }
    }
  }

  /** `lines` is what the printer may print for `tree`. */
  ghost predicate Renders(tree: JujuTree, lines: seq<string>) {
    exists ctls, mdlOrders :: SortedOrders(tree, ctls, mdlOrders) && lines == TreeLines(tree, ctls, mdlOrders)
  }

  /** No two labels at the same level of the tree share a stripped key. */
  ghost predicate NoTiesIn(tree: JujuTree) {
    NoTies(tree.Keys) && forall key :: key in tree ==> NoTies(tree[key].Keys)
  }

  /** The models of each controller in sorted order; the only such orders when there are no ties. */
  ghost function SortedModelOrders(tree: JujuTree, ctls: seq<string>): (r: seq<seq<string>>)
    requires forall i :: 0 <= i < |ctls| ==> ctls[i] in tree
    ensures |r| == |ctls|
    ensures forall i :: 0 <= i < |ctls| ==>
              Enumerates(r[i], tree[ctls[i]].Keys) && SortedByKey(r[i])
  {
    seq(|ctls|, i requires 0 <= i < |ctls| => SortedKeys(tree[ctls[i]].Keys))
  }

  lemma EnumeratedModelsKnown(mdls: map<string, seq<string>>, order: seq<string>)
    requires Enumerates(order, mdls.Keys)
    ensures ModelsKnown(mdls, order)
  {
    EnumeratesMembers(order, mdls.Keys);
  }

  /** The output for a tree without ties: the one both levels sorted give. */
  ghost function CanonicalLines(tree: JujuTree): seq<string> {
    var ctls := SortedKeys(tree.Keys);
    EnumeratesMembers(ctls, tree.Keys);
    var mdlOrders := SortedModelOrders(tree, ctls);
    forall i | 0 <= i < |ctls|
      ensures ModelsKnown(tree[ctls[i]], mdlOrders[i])
    {
      EnumeratedModelsKnown(tree[ctls[i]], mdlOrders[i]);
    }
    TreeLines(tree, ctls, mdlOrders)
  }

  lemma ModelLinesAppend(mdls: map<string, seq<string>>, order: seq<string>, mdl: string)
    requires ModelsKnown(mdls, order) && mdl in mdls
    ensures ModelsKnown(mdls, order + [mdl])
    ensures ModelLines(mdls, order + [mdl]) == ModelLines(mdls, order) + [Pad(4) + mdl] + AppLines(mdls[mdl])
  {
    assert (order + [mdl])[..|order|] == order;
  }

  lemma TreeLinesAppend(tree: JujuTree, ctls: seq<string>, mdlOrders: seq<seq<string>>, ctl: string, order: seq<string>)
    requires OrdersKnown(tree, ctls, mdlOrders) && ctl in tree && ModelsKnown(tree[ctl], order)
    ensures OrdersKnown(tree, ctls + [ctl], mdlOrders + [order])
    ensures TreeLines(tree, ctls + [ctl], mdlOrders + [order])
            == TreeLines(tree, ctls, mdlOrders) + [Pad(0) + ctl] + ModelLines(tree[ctl], order)
  {
    assert (ctls + [ctl])[..|ctls|] == ctls;
    assert (mdlOrders + [order])[..|ctls|] == mdlOrders;
  }

  /** The innermost loop of `print_tree`: appends a model's applications at indent 8. */
  method PrintApps(out: seq<string>, apps: seq<string>) returns (lines: seq<string>)
    ensures lines == out + AppLines(apps)
  {
    lines := out;
    for k := 0 to |apps|
      invariant lines == out + AppLines(apps[..k])
    {
      assert apps[..k + 1][..k] == apps[..k];
      lines := lines + [Pad(8) + apps[k]];
    }
    assert apps[..|apps|] == apps;
  }

  /**
   * The loop over the sorted model labels of one controller: appends each
   * label at indent 4 followed by its applications.
   */
  method PrintModelLines(out: seq<string>, mdls: map<string, seq<string>>, names: seq<string>) returns (lines: seq<string>)
    requires ModelsKnown(mdls, names)
    ensures lines == out + ModelLines(mdls, names)
  {
    lines := out;
    for j := 0 to |names|
      invariant lines == out + ModelLines(mdls, names[..j])
    {
      var mdl := names[j];
      assert names[..j + 1] == names[..j] + [mdl];
      ModelLinesAppend(mdls, names[..j], mdl);
      lines := lines + [Pad(4) + mdl];
      lines := PrintApps(lines, mdls[mdl]);
    }
    assert names[..|names|] == names;
  }

  /**
   * The middle loop of `print_tree`: collects the model labels of one
   * controller, sorts them by stripped key, and appends each at indent 4
   * followed by its applications. `order` records the order used.
   */
  method PrintModels(out: seq<string>, mdls: map<string, seq<string>>) returns (lines: seq<string>, ghost order: seq<string>)
    ensures Enumerates(order, mdls.Keys) && SortedByKey(order) && ModelsKnown(mdls, order)
    ensures lines == out + ModelLines(mdls, order)
    ensures out <= lines
    ensures forall name :: name in mdls ==> Pad(4) + name in lines
  {
    var mdlNames := CollectKeys(mdls);
    SortByKey(mdlNames);
    order := mdlNames[..];
    EnumeratedModelsKnown(mdls, order);
    lines := PrintModelLines(out, mdls, mdlNames[..]);
    ModelLinesCoverNames(out, mdls, order);
  }

  /**
   * `print_tree` after `get_tree`: collects the controller labels, sorts
   * them by stripped key, and prints each followed by its models.
   * `ctls` and `mdlOrders` record the orders used at both levels.
   */
  method RenderTree(tree: JujuTree) returns (lines: seq<string>, ghost ctls: seq<string>, ghost mdlOrders: seq<seq<string>>)
    ensures SortedOrders(tree, ctls, mdlOrders)
    ensures lines == TreeLines(tree, ctls, mdlOrders)
    ensures NoTiesIn(tree) ==> lines == CanonicalLines(tree)
  {
    var ctlNames := CollectKeys(tree);
    SortByKey(ctlNames);
    ctls := ctlNames[..];
    EnumeratesMembers(ctls, tree.Keys);
    lines := [];
    mdlOrders := [];
    for i := 0 to ctlNames.Length
      invariant ctlNames[..] == ctls
      invariant ModelOrdersSorted(tree, ctls[..i], mdlOrders)
      invariant lines == TreeLines(tree, ctls[..i], mdlOrders)
    {
      var ctl := ctlNames[i];
      lines := lines + [Pad(0) + ctl];
      ghost var order;
      lines, order := PrintModels(lines, tree[ctl]);
      assert ctls[..i + 1] == ctls[..i] + [ctl];
      TreeLinesAppend(tree, ctls[..i], mdlOrders, ctl, order);
      ModelOrdersSortedAppend(tree, ctls[..i], mdlOrders, ctl, order);
      mdlOrders := mdlOrders + [order];
    }
    assert ctls[..ctlNames.Length] == ctls;
    if NoTiesIn(tree) {
      RenderIsCanonical(tree, ctls, mdlOrders);
    }
  }

  /**
   * Without ties the sorted orders are forced, so the printed lines depend
   * on the tree alone and not on the hash map's iteration order; printing
   * the same tree twice gives the same lines.
   */
  lemma RenderIsCanonical(tree: JujuTree, ctls: seq<string>, mdlOrders: seq<seq<string>>)
    requires SortedOrders(tree, ctls, mdlOrders) && NoTiesIn(tree)
    ensures TreeLines(tree, ctls, mdlOrders) == CanonicalLines(tree)
  {
    var cs := SortedKeys(tree.Keys);
    SortedIsUnique(ctls, cs, tree.Keys);
    var ms := SortedModelOrders(tree, cs);
    forall i | 0 <= i < |ctls|
      ensures mdlOrders[i] == ms[i]
    {
      SortedIsUnique(mdlOrders[i], ms[i], tree[ctls[i]].Keys);
    }
    assert mdlOrders == ms;
  }

  /** When no model has applications, each model's line follows the previous one directly. */
  lemma {:induction false} ModelLinesWithoutApps(mdls: map<string, seq<string>>, order: seq<string>)
    requires ModelsKnown(mdls, order)
    requires forall key :: key in mdls ==> mdls[key] == []
    ensures ModelLines(mdls, order) == seq(|order|, i requires 0 <= i < |order| => Pad(4) + order[i])
    decreases |order|
  {
    if order != [] {
      var n := |order| - 1;
      ModelLinesWithoutApps(mdls, order[..n]);
      assert AppLines(mdls[order[n]]) == [];
    }
  }

  /** The lines printed for the first `k` models start the lines printed for all of them. */
  lemma {:induction false} ModelLinesPrefix(mdls: map<string, seq<string>>, order: seq<string>, k: int)
    requires ModelsKnown(mdls, order) && 0 <= k <= |order|
    ensures ModelsKnown(mdls, order[..k])
    ensures ModelLines(mdls, order[..k]) <= ModelLines(mdls, order)
    decreases |order|
  {
    if k == |order| {
      assert order[..k] == order;
    } else {
      var n := |order| - 1;
      ModelLinesPrefix(mdls, order[..n], k);
      assert order[..n][..k] == order[..k];
    }
  }

  /** The lines printed for the first `k` controllers start the lines printed for all of them. */
  lemma {:induction false} TreeLinesPrefix(tree: JujuTree, ctls: seq<string>, mdlOrders: seq<seq<string>>, k: int)
    requires OrdersKnown(tree, ctls, mdlOrders) && 0 <= k <= |ctls|
    ensures OrdersKnown(tree, ctls[..k], mdlOrders[..k])
    ensures TreeLines(tree, ctls[..k], mdlOrders[..k]) <= TreeLines(tree, ctls, mdlOrders)
    decreases |ctls|
  {
    if k == |ctls| {
      assert ctls[..k] == ctls && mdlOrders[..k] == mdlOrders;
    } else {
      var n := |ctls| - 1;
      TreeLinesPrefix(tree, ctls[..n], mdlOrders[..n], k);
      assert ctls[..n][..k] == ctls[..k] && mdlOrders[..n][..k] == mdlOrders[..k];
    }
  }

  /**
   * The line of the `j`-th model comes directly after the lines of the
   * models before it, and the lines of its applications directly after it.
   */
  lemma ModelBlockAt(mdls: map<string, seq<string>>, order: seq<string>, j: int)
    requires ModelsKnown(mdls, order) && 0 <= j < |order|
    ensures ModelsKnown(mdls, order[..j])
    ensures ModelLines(mdls, order[..j]) + [Pad(4) + order[j]] + AppLines(mdls[order[j]]) <= ModelLines(mdls, order)
  {
    ModelLinesPrefix(mdls, order, j + 1);
    assert order[..j + 1][..j] == order[..j] && order[..j + 1][j] == order[j];
  }

  /**
   * The line of the `i`-th controller comes directly after the lines of
   * the controllers before it, and the lines of its models directly after it.
   */
  lemma ControllerBlockAt(tree: JujuTree, ctls: seq<string>, mdlOrders: seq<seq<string>>, i: int)
    requires OrdersKnown(tree, ctls, mdlOrders) && 0 <= i < |ctls|
    ensures OrdersKnown(tree, ctls[..i], mdlOrders[..i])
    ensures TreeLines(tree, ctls[..i], mdlOrders[..i]) + [Pad(0) + ctls[i]] + ModelLines(tree[ctls[i]], mdlOrders[i])
            <= TreeLines(tree, ctls, mdlOrders)
  {
    TreeLinesPrefix(tree, ctls, mdlOrders, i + 1);
    assert ctls[..i + 1][..i] == ctls[..i] && ctls[..i + 1][i] == ctls[i];
    assert mdlOrders[..i + 1][..i] == mdlOrders[..i] && mdlOrders[..i + 1][i] == mdlOrders[i];
  }

  lemma InPrefix(x: string, a: seq<string>, b: seq<string>)
    requires x in a && a <= b
    ensures x in b
  {
    var k :| 0 <= k < |a| && a[k] == x;
    assert b[k] == x;
  }

  /** Every model of the map has its label at indent 4 after the earlier output. */
  lemma ModelLinesCoverNames(out: seq<string>, mdls: map<string, seq<string>>, order: seq<string>)
    requires Enumerates(order, mdls.Keys) && ModelsKnown(mdls, order)
    ensures forall name :: name in mdls ==> Pad(4) + name in out + ModelLines(mdls, order)
  {
    forall name | name in mdls
      ensures Pad(4) + name in out + ModelLines(mdls, order)
    {
      assert name in multiset(order);
      var j :| 0 <= j < |order| && order[j] == name;
      ModelLinesHave(mdls, order, j);
      var k :| 0 <= k < |ModelLines(mdls, order)| && ModelLines(mdls, order)[k] == Pad(4) + name;
      assert (out + ModelLines(mdls, order))[|out| + k] == Pad(4) + name;
    }
  }

  /** The `j`-th model and each of its applications have a line among the model lines. */
  lemma ModelLinesHave(mdls: map<string, seq<string>>, order: seq<string>, j: int)
    requires ModelsKnown(mdls, order) && 0 <= j < |order|
    ensures Pad(4) + order[j] in ModelLines(mdls, order)
    ensures forall k :: 0 <= k < |mdls[order[j]]| ==> Pad(8) + mdls[order[j]][k] in ModelLines(mdls, order)
  {
    var apps := mdls[order[j]];
    var block := ModelLines(mdls, order[..j]) + [Pad(4) + order[j]] + AppLines(apps);
    ModelBlockAt(mdls, order, j);
    InPrefix(Pad(4) + order[j], block, ModelLines(mdls, order));
    forall k | 0 <= k < |apps|
      ensures Pad(8) + apps[k] in ModelLines(mdls, order)
    {
      assert AppLines(apps)[k] == Pad(8) + apps[k];
      InPrefix(Pad(8) + apps[k], block, ModelLines(mdls, order));
    }
  }

  /** The `i`-th controller and every line of its models are among the tree's lines. */
  lemma TreeLinesHave(tree: JujuTree, ctls: seq<string>, mdlOrders: seq<seq<string>>, i: int)
    requires OrdersKnown(tree, ctls, mdlOrders) && 0 <= i < |ctls|
    ensures Pad(0) + ctls[i] in TreeLines(tree, ctls, mdlOrders)
    ensures forall x :: x in ModelLines(tree[ctls[i]], mdlOrders[i]) ==> x in TreeLines(tree, ctls, mdlOrders)
  {
    var lines := TreeLines(tree, ctls, mdlOrders);
    ControllerBlockAt(tree, ctls, mdlOrders, i);
    var block := TreeLines(tree, ctls[..i], mdlOrders[..i]) + [Pad(0) + ctls[i]] + ModelLines(tree[ctls[i]], mdlOrders[i]);
    InPrefix(Pad(0) + ctls[i], block, lines);
    forall x | x in ModelLines(tree[ctls[i]], mdlOrders[i])
      ensures x in lines
    {
      InPrefix(x, block, lines);
    }
  }

  /**
   * Every controller, model and application of the tree appears in the
   * printed lines, at indent 0, 4 and 8 respectively.
   */
  lemma TreeLinesCover(tree: JujuTree, ctls: seq<string>, mdlOrders: seq<seq<string>>)
    requires OrdersKnown(tree, ctls, mdlOrders)
    ensures forall i :: 0 <= i < |ctls| ==> Pad(0) + ctls[i] in TreeLines(tree, ctls, mdlOrders)
    ensures forall i, j :: 0 <= i < |ctls| && 0 <= j < |mdlOrders[i]| ==>
              Pad(4) + mdlOrders[i][j] in TreeLines(tree, ctls, mdlOrders)
    ensures forall i, j, k :: 0 <= i < |ctls| && 0 <= j < |mdlOrders[i]| && 0 <= k < |tree[ctls[i]][mdlOrders[i][j]]| ==>
              Pad(8) + tree[ctls[i]][mdlOrders[i][j]][k] in TreeLines(tree, ctls, mdlOrders)
  {
    forall i | 0 <= i < |ctls|
      ensures Pad(0) + ctls[i] in TreeLines(tree, ctls, mdlOrders)
    {
      TreeLinesHave(tree, ctls, mdlOrders, i);
    }
    forall i, j | 0 <= i < |ctls| && 0 <= j < |mdlOrders[i]|
      ensures Pad(4) + mdlOrders[i][j] in TreeLines(tree, ctls, mdlOrders)
      ensures forall k :: 0 <= k < |tree[ctls[i]][mdlOrders[i][j]]| ==>
                Pad(8) + tree[ctls[i]][mdlOrders[i][j]][k] in TreeLines(tree, ctls, mdlOrders)
    {
      TreeLinesHave(tree, ctls, mdlOrders, i);
      ModelLinesHave(tree[ctls[i]], mdlOrders[i], j);
    }
  }

  /** A name that is non-empty and does not start with ' ' or '*'. */
  predicate PlainName(s: string) {
    s != [] && !IsMarkerChar(s[0])
  }

  /**
   * Names that are plain, with controller names that contain no '(' (a '('
   * could let two controllers share a label). Only the models of controllers
   * in `c` are constrained, since no other model reaches the output.
   */
  ghost predicate WellFormedNames(c: Controllers, m: Models) {
    && (forall name :: name in c.controllers ==> PlainName(name) && '(' !in name)
    && (forall ctl, name :: ctl in c.controllers && ctl in m.controllers && name in m.controllers[ctl].models ==> PlainName(name))
  }

  /** The marker never changes a model's sort key: models sort as their names do. */
  lemma ModelLabelKey(g: ControllerModels, name: string)
    ensures StripKey(ModelLabel(g, name)) == StripKey(name)
    ensures PlainName(name) ==> StripKey(ModelLabel(g, name)) == name
  {
    StripMarkerPrefix(Marker(name == g.currentModel), name);
  }

  /** The marker never changes a controller's sort key: controllers sort as their descriptions do. */
  lemma ControllerLabelKey(c: Controllers, name: string)
    requires name in c.controllers
    ensures StripKey(ControllerLabel(c, name)) == StripKey(Description(c, name))
    ensures PlainName(name) ==> StripKey(ControllerLabel(c, name)) == Description(c, name)
  {
    StripMarkerPrefix(Marker(name == c.currentController), Description(c, name));
    DescriptionShape(c, name);
  }

  /** With well-formed names no two labels at one level share a sort key. */
  lemma NoTiesFromNames(t: JujuTree, c: Controllers, m: Models)
    requires HasAllModels(c, m) && IsTreeOf(t, c, m) && WellFormedNames(c, m)
    ensures NoTiesIn(t)
  {
    forall k1, k2 | k1 in t && k2 in t && StripKey(k1) == StripKey(k2)
      ensures k1 == k2
    {
      var n1 :| n1 in c.controllers && ControllerLabel(c, n1) == k1 && t[k1] == ModelEntries(m.controllers[n1]);
      var n2 :| n2 in c.controllers && ControllerLabel(c, n2) == k2 && t[k2] == ModelEntries(m.controllers[n2]);
      ControllerLabelKey(c, n1);
      ControllerLabelKey(c, n2);
      DescriptionInjective(c, n1, n2);
    }
    forall k | k in t
      ensures NoTies(t[k].Keys)
    {
      var n :| n in c.controllers && ControllerLabel(c, n) == k && t[k] == ModelEntries(m.controllers[n]);
      var g := m.controllers[n];
      forall j1, j2 | j1 in t[k] && j2 in t[k] && StripKey(j1) == StripKey(j2)
        ensures j1 == j2
      {
        var a :| a in g.models && ModelLabel(g, a) == j1;
        var b :| b in g.models && ModelLabel(g, b) == j2;
        ModelLabelKey(g, a);
        ModelLabelKey(g, b);
      }
    }
  }

  /** What the program prints for registries with well-formed names. */
  ghost function Expected(c: Controllers, m: Models): seq<string>
    requires HasAllModels(c, m) && WellFormedNames(c, m)
  {
    NoParenLabelsDistinct(c);
    CanonicalLines(Tree(c, m))
  }

  /**
   * `print_tree`: builds the tree, failing as `get_tree` does, and prints
   * it. `tree` is the tree that was built.
   */
  method PrintTree(c: Controllers, m: Models) returns (r: Result<seq<string>>, ghost tree: JujuTree)
    ensures r.Failure? <==> !HasAllModels(c, m)
    ensures r.Failure? ==> r.error.controller in c.controllers && r.error.controller !in m.controllers
    ensures r.Success? ==> IsTreeOf(tree, c, m) && Renders(tree, r.value)
    ensures r.Success? && WellFormedNames(c, m) ==> r.value == Expected(c, m)
  {
    var built := GetTree(c, m);
    if built.Failure? {
      return Failure(built.error), map[];
    }
    var data := built.value;
    tree := data;
    var lines, ctls, mdlOrders := RenderTree(data);
    r := Success(lines);
    if WellFormedNames(c, m) {
      NoParenLabelsDistinct(c);
      NoTiesFromNames(tree, c, m);
    }
  }
}
