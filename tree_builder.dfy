/**
 * Building the display tree (`JujuArtifacts::get_tree`): one entry per
 * controller, labelled "<marker><name> (<agent-version>, <type>)", holding
 * one entry per model of that controller, labelled "<marker><model>", each
 * with an empty list of applications. The marker is "* " for the current
 * controller (model) and two spaces otherwise.
 */
module TreeBuilder {
  import opened Registry
  import opened KeyOrder

  /** Controller label -> model label -> application names. */
  type JujuTree = map<string, map<string, seq<string>>>

  /** A controller of the controller registry has no entry in the model registry. */
  datatype BuildError = MissingModels(controller: string)

  datatype Result<T> = Success(value: T) | Failure(error: BuildError)

  /** The two-character marker put in front of every label. */
  function Marker(active: bool): (r: string)
    ensures |r| == 2 && forall i :: 0 <= i < 2 ==> IsMarkerChar(r[i])
    ensures (r == "* ") == active
  {
    if active then "* " else "  "
  }

  /** A label carries the active marker. */
  predicate IsActive(s: string) {
    |s| >= 2 && s[..2] == "* "
  }

  /** The label of a controller: its marker, then "<name> (<agent-version>, <type>)". */
  function ControllerLabel(c: Controllers, name: string): string
    requires name in c.controllers
  {
    Marker(name == c.currentController) + Description(c, name)
  }

  lemma ControllerLabelFormat(c: Controllers, name: string)
    requires name in c.controllers
    ensures var r := ControllerLabel(c, name);
      && |r| >= 2
      && r[..2] == (if name == c.currentController then "* " else "  ")
      && r[2..] == Description(c, name)
      && (IsActive(r) <==> name == c.currentController)
  {
    var mk := Marker(name == c.currentController);
    var rest := Description(c, name);
    assert (mk + rest)[..2] == mk && (mk + rest)[2..] == rest;
  }

  /** The label of a model: its marker, then its name. */
  function ModelLabel(g: ControllerModels, name: string): string {
    Marker(name == g.currentModel) + name
  }

  lemma ModelLabelFormat(g: ControllerModels, name: string)
    ensures var r := ModelLabel(g, name);
      && |r| >= 2
      && r[..2] == (if name == g.currentModel then "* " else "  ")
      && r[2..] == name
      && (IsActive(r) <==> name == g.currentModel)
  {
    var mk := Marker(name == g.currentModel);
    assert (mk + name)[..2] == mk && (mk + name)[2..] == name;
  }

  /** Every controller of the controller registry has an entry in the model registry. */
  predicate HasAllModels(c: Controllers, m: Models) {
    forall name :: name in c.controllers ==> name in m.controllers
  }

  /** No two controllers get the same label, so no insertion overwrites another. */
  ghost predicate LabelsDistinct(c: Controllers) {
    forall n1, n2 :: n1 in c.controllers && n2 in c.controllers && ControllerLabel(c, n1) == ControllerLabel(c, n2) ==> n1 == n2
  }

  /** The inner map built for one controller: each model label with no applications. */
  ghost function ModelEntries(g: ControllerModels): map<string, seq<string>> {
    map name | name in g.models :: ModelLabel(g, name) := []
  }

  /**
   * What the builder produces, whatever order the hash map is walked in:
   * exactly the controllers' labels as keys, each holding the model entries
   * of some controller that has that label.
   */
  ghost predicate IsTreeOf(t: JujuTree, c: Controllers, m: Models)
    requires HasAllModels(c, m)
  {
    && t.Keys == (set name | name in c.controllers :: ControllerLabel(c, name))
    && forall key :: key in t ==>
         exists name :: name in c.controllers && ControllerLabel(c, name) == key
                        && t[key] == ModelEntries(m.controllers[name])
  }

  /** The tree when no two controllers share a key: the order of insertion no longer matters. */
  ghost function Tree(c: Controllers, m: Models): JujuTree
    requires HasAllModels(c, m) && LabelsDistinct(c)
  {
    map name | name in c.controllers :: ControllerLabel(c, name) := ModelEntries(m.controllers[name])
  }

  /** Without shared labels, the builder's result does not depend on the walk order. */
  lemma TreeIsUnique(t: JujuTree, c: Controllers, m: Models)
    requires HasAllModels(c, m) && LabelsDistinct(c) && IsTreeOf(t, c, m)
    ensures t == Tree(c, m)
  {
    var tt := Tree(c, m);
    forall k | k in t
      ensures k in tt && t[k] == tt[k]
    {
      var n :| n in c.controllers && ControllerLabel(c, n) == k && t[k] == ModelEntries(m.controllers[n]);
      assert tt[ControllerLabel(c, n)] == ModelEntries(m.controllers[n]);
    }
    assert t.Keys == tt.Keys;
  }

  /** Different models of one controller never share a label. */
  lemma ModelLabelInjective(g: ControllerModels, a: string, b: string)
    requires ModelLabel(g, a) == ModelLabel(g, b)
    ensures a == b
  {
    ModelLabelFormat(g, a);
    ModelLabelFormat(g, b);
  }

  /** Models with different names get different labels, so there are as many labels as names. */
  lemma {:induction false} ModelLabelsSize(g: ControllerModels, names: set<string>)
    ensures |set n | n in names :: ModelLabel(g, n)| == |names|
    decreases names
  {
    if names != {} {
      var z :| z in names;
      var rest := names - {z};
      ModelLabelsSize(g, rest);
      var restLabels := set n | n in rest :: ModelLabel(g, n);
      assert (set n | n in names :: ModelLabel(g, n)) == restLabels + {ModelLabel(g, z)};
      if ModelLabel(g, z) in restLabels {
        var n :| n in rest && ModelLabel(g, n) == ModelLabel(g, z);
        ModelLabelInjective(g, n, z);
        assert false;
      }
    }
  }

  /** Without shared labels there are as many controller labels as controller names. */
  lemma {:induction false} ControllerLabelsSize(c: Controllers, names: set<string>)
    requires names <= c.controllers.Keys && LabelsDistinct(c)
    ensures |set n | n in names :: ControllerLabel(c, n)| == |names|
    decreases names
  {
    if names != {} {
      var z :| z in names;
      var rest := names - {z};
      ControllerLabelsSize(c, rest);
      var restLabels := set n | n in rest :: ControllerLabel(c, n);
      assert (set n | n in names :: ControllerLabel(c, n)) == restLabels + {ControllerLabel(c, z)};
    }
  }

  /** The inner map has exactly one entry per model of the controller, and no applications. */
  lemma ModelEntriesMatchModels(g: ControllerModels)
    ensures forall name :: ModelLabel(g, name) in ModelEntries(g) <==> name in g.models
    ensures |ModelEntries(g)| == |g.models|
    ensures forall key :: key in ModelEntries(g) ==> ModelEntries(g)[key] == []
  {
    var e := ModelEntries(g);
    forall name | ModelLabel(g, name) in e
      ensures name in g.models
    {
      var n :| n in g.models && ModelLabel(g, n) == ModelLabel(g, name);
      ModelLabelInjective(g, n, name);
    }
    ModelLabelsSize(g, g.models.Keys);
    assert e.Keys == set n | n in g.models.Keys :: ModelLabel(g, n);
  }

  /** Without shared labels, the tree has exactly one entry per controller. */
  lemma TreeMatchesControllers(t: JujuTree, c: Controllers, m: Models)
    requires HasAllModels(c, m) && LabelsDistinct(c) && IsTreeOf(t, c, m)
    ensures forall name :: name in c.controllers ==>
              ControllerLabel(c, name) in t && t[ControllerLabel(c, name)] == ModelEntries(m.controllers[name])
    ensures |t| == |c.controllers|
  {
    TreeIsUnique(t, c, m);
    ControllerLabelsSize(c, c.controllers.Keys);
    assert t.Keys == set n | n in c.controllers.Keys :: ControllerLabel(c, n);
  }

  /** At most one controller label, and within each controller at most one model label, is marked active. */
  lemma AtMostOneActive(t: JujuTree, c: Controllers, m: Models)
    requires HasAllModels(c, m) && IsTreeOf(t, c, m)
    ensures forall k1, k2 :: k1 in t && k2 in t && IsActive(k1) && IsActive(k2) ==> k1 == k2
    ensures forall k, j1, j2 :: k in t && j1 in t[k] && j2 in t[k] && IsActive(j1) && IsActive(j2) ==> j1 == j2
  {
    forall k1, k2 | k1 in t && k2 in t && IsActive(k1) && IsActive(k2)
      ensures k1 == k2
    {
      var n1 :| n1 in c.controllers && ControllerLabel(c, n1) == k1 && t[k1] == ModelEntries(m.controllers[n1]);
      var n2 :| n2 in c.controllers && ControllerLabel(c, n2) == k2 && t[k2] == ModelEntries(m.controllers[n2]);
      ControllerLabelFormat(c, n1);
      ControllerLabelFormat(c, n2);
    }
    forall k, j1, j2 | k in t && j1 in t[k] && j2 in t[k] && IsActive(j1) && IsActive(j2)
      ensures j1 == j2
    {
      var n :| n in c.controllers && ControllerLabel(c, n) == k && t[k] == ModelEntries(m.controllers[n]);
      var g := m.controllers[n];
      var a :| a in g.models && ModelLabel(g, a) == j1;
      var b :| b in g.models && ModelLabel(g, b) == j2;
      ModelLabelFormat(g, a);
      ModelLabelFormat(g, b);
    }
  }

  /** The part of a controller label after the marker. */
  function Description(c: Controllers, name: string): string
    requires name in c.controllers
  {
    name + " (" + c.controllers[name].agentVersion + ", " + c.controllers[name].kind + ")"
  }

  /** In a description, the name is followed by " (". */
  lemma DescriptionShape(c: Controllers, name: string)
    requires name in c.controllers
    ensures var d := Description(c, name);
      |d| > |name| + 1 && d[..|name|] == name && d[|name|] == ' ' && d[|name| + 1] == '('
  {
    var ctl := c.controllers[name];
    var d := name + " (" + ctl.agentVersion + ", " + ctl.kind + ")";
    assert d == name + (" (" + ctl.agentVersion + ", " + ctl.kind + ")");
  }

  /** A name without '(' can be read back from its description: the first '(' follows it. */
  lemma DescriptionInjective(c: Controllers, n1: string, n2: string)
    requires n1 in c.controllers && n2 in c.controllers
    requires '(' !in n1 && '(' !in n2
    requires Description(c, n1) == Description(c, n2)
    ensures n1 == n2
  {
    var d := Description(c, n1);
    DescriptionShape(c, n1);
    DescriptionShape(c, n2);
  }

  /** Controller names that contain no '(' never share a label. */
  lemma NoParenLabelsDistinct(c: Controllers)
    requires forall name :: name in c.controllers ==> '(' !in name
    ensures LabelsDistinct(c)
  {
    forall n1, n2 | n1 in c.controllers && n2 in c.controllers && ControllerLabel(c, n1) == ControllerLabel(c, n2)
      ensures n1 == n2
    {
      ControllerLabelFormat(c, n1);
      ControllerLabelFormat(c, n2);
      DescriptionInjective(c, n1, n2);
    }
  }

  /** The inner loop of `get_tree`: walks the models of one controller. */
  method BuildModels(g: ControllerModels) returns (mdls: map<string, seq<string>>)
    ensures mdls == ModelEntries(g)
  {
    mdls := map[];
    var todo := g.models.Keys;
    while todo != {}
      invariant todo <= g.models.Keys
      invariant mdls == map name | name in g.models.Keys - todo :: ModelLabel(g, name) := []
      decreases |todo|
    {
      var name :| name in todo;
      var key := ModelLabel(g, name);
      mdls := mdls[key := []];
      todo := todo - {name};
    }
  }

  /** The tree holds exactly the entries of the controllers in `done`. */
  ghost predicate BuiltFor(t: JujuTree, c: Controllers, m: Models, done: set<string>)
  {
    && done <= c.controllers.Keys
    && (forall name :: name in done ==> name in m.controllers)
    && t.Keys == (set name | name in done :: ControllerLabel(c, name))
    && (forall key :: key in t ==>
          exists name :: name in done && ControllerLabel(c, name) == key
                         && t[key] == ModelEntries(m.controllers[name]))
  }

  /** Inserting one more controller keeps `BuiltFor`. */
  lemma InsertController(t: JujuTree, c: Controllers, m: Models, done: set<string>, name: string)
    requires BuiltFor(t, c, m, done)
    requires name in c.controllers && name !in done && name in m.controllers
    ensures BuiltFor(t[ControllerLabel(c, name) := ModelEntries(m.controllers[name])], c, m, done + {name})
  {
    var key := ControllerLabel(c, name);
    var t' := t[key := ModelEntries(m.controllers[name])];
    var done' := done + {name};
    assert t'.Keys == (set n | n in done' :: ControllerLabel(c, n));
    forall k | k in t'
      ensures exists n :: n in done' && ControllerLabel(c, n) == k && t'[k] == ModelEntries(m.controllers[n])
    {
      if k == key {
        assert name in done' && ControllerLabel(c, name) == k;
      } else {
        var n :| n in done && ControllerLabel(c, n) == k && t[k] == ModelEntries(m.controllers[n]);
        assert n in done';
      }
    }
  }

  /** Once every controller is in, the tree is a tree of the registries. */
  lemma BuiltForAll(t: JujuTree, c: Controllers, m: Models)
    requires BuiltFor(t, c, m, c.controllers.Keys)
    ensures HasAllModels(c, m) && IsTreeOf(t, c, m)
    ensures forall l1, l2 :: l1 in t && l2 in t[l1] ==> t[l1][l2] == []
  {
    forall l1, l2 | l1 in t && l2 in t[l1]
      ensures t[l1][l2] == []
    {
      var n :| n in c.controllers && ControllerLabel(c, n) == l1 && t[l1] == ModelEntries(m.controllers[n]);
    }
  }

  /**
   * `get_tree`: walks the controllers in an unspecified order, fails on the
   * first one without a model-registry entry (the source panics on that
   * lookup), and otherwise inserts each controller's label with its models.
   */
  method GetTree(c: Controllers, m: Models) returns (r: Result<JujuTree>)
    ensures r.Failure? <==> !HasAllModels(c, m)
    ensures r.Failure? ==> r.error.controller in c.controllers && r.error.controller !in m.controllers
    ensures r.Success? ==> IsTreeOf(r.value, c, m)
    ensures r.Success? ==> forall l1, l2 :: l1 in r.value && l2 in r.value[l1] ==> r.value[l1][l2] == []
    ensures r.Success? && LabelsDistinct(c) ==> r.value == Tree(c, m)

  {
    var tree: JujuTree := map[];
    var todo := c.controllers.Keys;
    ghost var done: set<string> := {};
    while todo != {}
      invariant todo !! done && todo + done == c.controllers.Keys
      invariant BuiltFor(tree, c, m, done)
      decreases |todo|
    {
      var name :| name in todo;
      var key := ControllerLabel(c, name);
      if name !in m.controllers {
        return Failure(MissingModels(name));
      }
      var mdls := BuildModels(m.controllers[name]);
      InsertController(tree, c, m, done, name);
      tree := tree[key := mdls];
      todo := todo - {name};
      done := done + {name};
    }
    assert done == c.controllers.Keys;
    BuiltForAll(tree, c, m);
    if LabelsDistinct(c) {
      TreeIsUnique(tree, c, m);
    }
    r := Success(tree);
  }
}
