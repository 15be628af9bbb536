# juju-tree, modelled in Dafny

juju-tree prints the controllers and models that the local Juju client knows
about as an indented tree. It has two steps:

- `get_tree` reads the controller registry (`controllers.yaml`) and the model
  registry (`models.yaml`).
  - It labels every controller `"<name> (<agent-version>, <type>)"`.
  - It labels every model with its name.
  - Each label is prefixed with `"* "` for the current controller or model, and
    with two spaces otherwise.
  - It builds the map controller label → model label → application names. The
    application lists are always empty.
- `print_tree` prints that map.
  - It collects the keys at each level and sorts them with `sort_by_key`. The
    sort key is the label with its leading run of `' '` and `'*'` trimmed, so
    the active marker never changes the order.
  - It prints controllers at indent 0, models at indent 4 and applications at
    indent 8.

The model follows the program's structure:

- `registry.dfy` (module `Registry`): the parsed records of both registries.
- `key_order.dfy` (module `KeyOrder`):
  - the sort key `StripKey` (`trim_start_matches`);
  - Rust's `Ord` on `str` as `LexLe`;
  - the combined order `KeyLe` and its order laws.
- `key_sort.dfy` (module `KeySort`):
  - `keys().collect()` as `CollectKeys`, which fills an array in hash-map
    order;
  - `sort_by_key` as `SortByKey`, an in-place sort of that array;
  - the ghost canonical order `SortedKeys`;
  - `SortedIsUnique`: without ties there is only one sorted order.
- `tree_builder.dfy` (module `TreeBuilder`):
  - the labels;
  - `get_tree` as the method `GetTree`, with its nested insertion loops;
  - what the built tree is, as `IsTreeOf` and `Tree`.
- `tree_renderer.dfy` (module `TreeRenderer`):
  - `print_tree` as the methods `PrintTree`, `RenderTree`, `PrintModels`,
    `PrintModelLines` and `PrintApps`. Each printed line is appended to a returned `seq<string>`.
  - The functions `TreeLines`, `ModelLines` and `AppLines` say which lines a
    given pair of orders produces.
- `scenarios.dfy` (module `Scenarios`): concrete registries and the exact
  lines printed for them.

The hash map's iteration order is not fixed. The loops over maps therefore
pick any remaining key (`var k :| k in todo`), and every contract holds
whatever order is picked.

## Model

The functions that build labels and compare them carry no contract of their own. Their rows are the lemmas about them:
- `TreeBuilder.ControllerLabel`: the `ControllerLabelFormat` row.
- `TreeBuilder.ModelLabel`: the `ModelLabelFormat` and `ModelLabelInjective` rows.
- `TreeBuilder.Description`: the `DescriptionShape` and `DescriptionInjective` rows.
- `KeyOrder.LexLe`: the `LexLeTotal`, `LexLeTransitive`, `LexLeAntisymmetric` and `LexLeReflexive` rows.
- `KeyOrder.KeyLe`: the `KeyLeStripped`, `KeyLeTotal`, `KeyLeTransitive` and `KeyLeTie` rows.

| member | source | states |
|---|---|---|
| KeyOrder.StripKey | src/lib.rs:136 | The sort key is no longer than the label. Everything trimmed from the front is `' '` or `'*'`. The key does not itself start with `' '` or `'*'`. |
| KeyOrder.StripKeySuffix | src/lib.rs:136 | The sort key is the suffix of the label left after trimming. |
| KeyOrder.StripMarkerPrefix | src/lib.rs:136 | Prefixing a label with any run of `' '`/`'*'` (such as the marker `"* "` or `"  "`) leaves its sort key unchanged. |
| KeyOrder.LexLeTotal | src/lib.rs:136 | Rust's `str` order is total: any two strings compare one way or the other. |
| KeyOrder.LexLeTransitive | src/lib.rs:136 | Rust's `str` order is transitive. |
| KeyOrder.LexLeAntisymmetric | src/lib.rs:136 | Two strings that compare both ways are equal. |
| KeyOrder.LexLeReflexive | src/lib.rs:136 | Every string compares as no greater than itself. |
| KeyOrder.KeyLeStripped | src/lib.rs:136 | `KeyLe(a, b)` holds exactly when the sort key of `a` is no greater than the sort key of `b` in `str` order. |
| KeyOrder.KeyLeTotal | src/lib.rs:136 | Any two labels are comparable by sort key. |
| KeyOrder.KeyLeTransitive | src/lib.rs:136 | Comparing by sort key is transitive. |
| KeyOrder.KeyLeTie | src/lib.rs:136 | Two labels that compare both ways by sort key have the same sort key. |
| KeySort.CollectKeys | src/lib.rs:135 | The new array lists every key of the map exactly once (same multiset), in an unspecified order. |
| KeySort.InsertAt | src/lib.rs:136 | One insertion pass extends the sorted prefix by one element and keeps the array's multiset. Elements after the pass's index are unchanged. |
| KeySort.SortByKey | src/lib.rs:136 | After sorting, the array is ascending by sort key and is a permutation of what it held before. |
| KeySort.SortedKeys | src/lib.rs:135-136 | Every set of labels has an enumeration that is sorted by sort key. |
| KeySort.MinimumExists | src/lib.rs:135-136 | Every non-empty set of labels has one that sorts no later than all the others. |
| KeySort.SortedIsUnique | src/lib.rs:135-136 | If no two labels share a sort key, two sorted enumerations of the same labels are equal. So the sorted output does not depend on the collection order. |
| TreeBuilder.Marker | src/lib.rs:108-112 | The marker is two characters, both `' '` or `'*'`. It is `"* "` exactly when the item is current. |
| TreeBuilder.ControllerLabelFormat | src/lib.rs:102-112 | A controller label is the marker (`"* "` iff the name is the current controller) followed by `"<name> (<agent-version>, <type>)"`. It is marked active exactly when the controller is current. |
| TreeBuilder.ModelLabelFormat | src/lib.rs:116-122 | A model label is the marker (`"* "` iff the name is the controller's current model) followed by the model name. It is marked active exactly when the model is current. |
| TreeBuilder.ModelLabelInjective | src/lib.rs:117-122 | Two models with the same label have the same name. |
| TreeBuilder.ModelLabelsSize | src/lib.rs:114-125 | A set of model names has as many labels as names. |
| TreeBuilder.ModelEntriesMatchModels | src/lib.rs:114-125 | A model's label is in the inner map iff the model belongs to the controller. The map has one entry per model, and each holds an empty application list. |
| TreeBuilder.BuildModels | src/lib.rs:114-125 | Whatever order the models are visited in, the inner loop builds exactly the inner map `ModelEntries`. |
| TreeBuilder.InsertController | src/lib.rs:101-126 | Inserting one more controller's label and inner map keeps the tree equal to the entries of exactly the controllers visited so far. |
| TreeBuilder.BuiltForAll | src/lib.rs:101-128 | Once every controller has been visited, the tree is a tree of the registries (`IsTreeOf`), and every application list in it is empty. |
| TreeBuilder.GetTree | src/lib.rs:96-129 | Building fails iff some controller has no entry in the model registry, and the error names such a controller. On success the tree has exactly the controller labels as keys, each holding the inner map of a controller with that label. Every application list is empty. When no two controllers share a label, the result is `Tree(c, m)` whatever the iteration order. |
| TreeBuilder.TreeIsUnique | src/lib.rs:101-127 | If no two controllers share a label, any tree of the registries equals `Tree(c, m)`. |
| TreeBuilder.ControllerLabelsSize | src/lib.rs:101-127 | If no two controllers share a label, a set of controller names has as many labels as names. |
| TreeBuilder.TreeMatchesControllers | src/lib.rs:101-127 | If no two controllers share a label, every controller's label maps to that controller's models, and the tree has exactly one entry per controller. |
| TreeBuilder.AtMostOneActive | src/lib.rs:108-122 | At most one controller label carries `"* "`, and under each controller at most one model label does. |
| TreeBuilder.DescriptionShape | src/lib.rs:102-105 | A controller description starts with the name followed by `" ("`. |
| TreeBuilder.DescriptionInjective | src/lib.rs:102-105 | Two controllers whose names contain no `'('` and whose descriptions are equal have the same name. |
| TreeBuilder.NoParenLabelsDistinct | src/lib.rs:101-112 | If no controller name contains `'('`, no two controllers share a label. |
| TreeRenderer.Pad | src/lib.rs:138-148 | `Pad(n)` is exactly `n` spaces. |
| TreeRenderer.AppLines | src/lib.rs:146-149 | A model's applications give one line each, in stored order. Each line is 8 spaces followed by the application name. |
| TreeRenderer.PrintApps | src/lib.rs:146-149 | The innermost loop appends exactly `AppLines(apps)` to the output. |
| TreeRenderer.PrintModels | src/lib.rs:140-150 | The model labels are printed in an order that lists each model once, sorted by sort key. The lines appended are exactly `ModelLines` for that order. Earlier output is kept as a prefix, and every model's label appears at indent 4. |
| TreeRenderer.PrintModelLines | src/lib.rs:143-150 | Printing the given model labels in turn appends exactly `ModelLines` for that order: each label at indent 4, followed directly by its applications. |
| TreeRenderer.ModelLinesCoverNames | src/lib.rs:140-144 | When the order lists every model, each model's label appears at indent 4 after the earlier output. |
| TreeRenderer.RenderTree | src/lib.rs:134-151 | Controllers are listed once each, sorted by sort key, and so are the models of each controller. The lines are exactly `TreeLines` for those orders. When no two labels at one level share a sort key, the lines are the canonical `CanonicalLines(tree)`. |
| TreeRenderer.PrintTree | src/lib.rs:131-152 | Printing fails iff building fails, with the same error. On success the lines are a rendering of a tree of the registries. With well-formed names they equal `Expected(c, m)`, whatever the hash map's iteration order. Well-formed means: every controller name and every model name of those controllers is non-empty and does not start with `' '` or `'*'`, and no controller name contains `'('`. Model-registry entries for other controllers are not constrained. |
| TreeRenderer.RenderIsCanonical | src/lib.rs:134-142 | Without sort-key ties, every pair of sorted orders gives the same lines, `CanonicalLines(tree)`. Rendering is therefore deterministic and idempotent. |
| TreeRenderer.ModelOrdersSortedAppend | src/lib.rs:137-151 | Adding one controller with a sorted enumeration of its models keeps every listed controller's models sorted. |
| TreeRenderer.ModelLinesAppend | src/lib.rs:143-149 | Printing one more model appends its line at indent 4, followed by its application lines. |
| TreeRenderer.TreeLinesAppend | src/lib.rs:137-150 | Printing one more controller appends its line at indent 0, followed by the lines of its models. |
| TreeRenderer.ModelLinesWithoutApps | src/lib.rs:123-150 | When no model has applications (as `get_tree` builds them), the model lines are exactly the model labels in order, each at indent 4. |
| TreeRenderer.ModelLinesPrefix | src/lib.rs:143-150 | The lines printed for the first `k` models are a prefix of the lines printed for all of them. |
| TreeRenderer.TreeLinesPrefix | src/lib.rs:137-150 | The lines printed for the first `k` controllers are a prefix of the lines printed for all of them. |
| TreeRenderer.ModelBlockAt | src/lib.rs:143-150 | The lines printed so far start with: the lines of the earlier models, then this model's line, then directly its application lines. |
| TreeRenderer.ControllerBlockAt | src/lib.rs:137-150 | The lines printed so far start with: the lines of the earlier controllers, then this controller's line, then directly the lines of its models. |
| TreeRenderer.ModelLinesHave | src/lib.rs:143-149 | A model's line at indent 4 is among the printed model lines, and so is each of its applications at indent 8. |
| TreeRenderer.TreeLinesHave | src/lib.rs:137-150 | A controller's line at indent 0 is among the printed lines, and so is every line of its models. |
| TreeRenderer.TreeLinesCover | src/lib.rs:137-150 | Every controller (indent 0), every model (indent 4) and every application (indent 8) appears in the output. |
| TreeRenderer.ModelLabelKey | src/lib.rs:116-122 | The marker never changes a model's sort key. For a plain name, the key is the name itself. |
| TreeRenderer.ControllerLabelKey | src/lib.rs:102-112 | The marker never changes a controller's sort key. For a plain name, the key is the description. |
| TreeRenderer.NoTiesFromNames | src/lib.rs:101-142 | With well-formed names, no two labels at one level of the built tree share a sort key. |
| Scenarios.OneControllerOneModel | src/lib.rs:96-152 | One controller with one model prints two lines: the controller label, then the model label at indent 4. |
| Scenarios.ScenarioOneActive | src/lib.rs:96-152 | The current controller `foo` (3.1.0, iaas) with its current model `default` prints `* foo (3.1.0, iaas)` and then `    * default`. |
| Scenarios.TwoModelLabelsOrdered | src/lib.rs:116-142 | Labels of two plain, distinct model names compare as the names do, whichever carries the marker. |
| Scenarios.TwoInOrder | src/lib.rs:135-142 | Two labels with different sort keys have exactly one sorted order. |
| Scenarios.OneControllerTwoModels | src/lib.rs:96-152 | With two models, they are printed in the order of their names, whichever one is current. |
| Scenarios.ScenarioMarkerIgnored | src/lib.rs:116-144 | The current model `alpha` is printed before the inactive `zulu`, although `"  zulu"` is smaller than `"* alpha"` as a whole string. |
| Scenarios.ScenarioActiveSecondModel | src/lib.rs:116-144 | The inactive `a-model` is printed before the current `b-model`. |
| Scenarios.TwoControllerLabelsOrdered | src/lib.rs:102-136 | Labels of two distinct plain controller names without `'('` compare as their descriptions do. |
| Scenarios.TwoControllersOneModelEach | src/lib.rs:96-152 | With two controllers of one model each, the controllers are printed in the order of their descriptions, each followed directly by its model. |
| Scenarios.ScenarioActiveSecondController | src/lib.rs:96-152 | The inactive `alpha` is printed before the current `zulu`, each followed by its model `m1` at indent 4. |

## Left out

- `load_model_from_path` (src/lib.rs:86-94) is file I/O and YAML parsing, and it panics when a file is missing or malformed. `GetTree` and `PrintTree` take the two parsed records as parameters instead.
- `juju_status` (src/lib.rs:55-65) runs an external `juju status` subprocess, and nothing calls it. It is not part of this model.
- src/main.rs (locating the registry files under the home directory) and `JujuArtifacts::new` (storing the two paths) are not part of this model.
- `println!` is not modelled. Each printed line is an element of the returned `seq<string>`.
- The serde renames and defaults are not modelled. An absent `current-controller` or `current-model` is simply the empty string in the records.
- The `Iaas`/`Caas` tag and the `uuid`, `branch`, `cloud` and `region` fields are kept in the records. Nothing reads them, because they never reach the output.
- `SortByKey`: does not model the standard library's stable merge sort. It is an insertion sort with the same outcome: sorted by sort key and a permutation. Stability is not claimed, so when two labels share a sort key their relative order is left open. That order comes from hash-map iteration and is arbitrary in the source as well. Ties are not broken by the whole label: the code sorts by the trimmed key only, and the model follows the code.
- `TreeRenderer.RenderIsCanonical`: determinism is proved only for trees without sort-key ties at any level. `NoTiesFromNames` shows this holds for well-formed names.
- `TreeBuilder.GetTree`: when two controllers share a label (possible only if a name contains `'('`), a later `insert` overwrites an earlier one. Which one survives depends on the walk order. The contract then states only `IsTreeOf`: the keys are exactly the labels, and each key holds the models of some controller with that label.
- `TreeBuilder.GetTree`: when several controllers lack a model-registry entry, the one reported is the first in walk order. The contract only promises that it is one of them. The source panics at the index `models.controllers[ctl_name]` (src/lib.rs:115) instead of returning an error.
- Rust compares `str` byte-wise on UTF-8. For valid strings this is the same as comparing by code point, which is what `LexLe` does on `char`s.
- The loops of `print_tree` and `get_tree` are split into one method (or lemma) per nesting level: `PrintApps`, `PrintModelLines`, `PrintModels`, `RenderTree`, `BuildModels` and `InsertController`.
