/** Import discovery (`strapiModelExtractImports`): one import statement per referenced
    model other than the model itself, with a relative path between the two output
    files, de-duplicated and sorted. */
module Imports {
  import opened Js
  import opened Text
  import opened Lists
  import opened Paths
  import opened Options
  import opened StrapiModel
  import opened ModelGraph

  /** `toFolder`: the path from the importing unit's output file to the imported one,
      relative to the importer's folder, always starting with `./` or `..`. The two
      `replace` calls each turn the first backslash, if any, into a slash. */
  function ImportPath(from: string, to: string): (r: string)
    ensures StartsWith(r, "./") || StartsWith(r, "..")
  {
    var rel0 := Normalize(Relative(Dirname(from), Dirname(to)));
    var rel1 := Normalize(rel0 + "/" + Basename(to));
    var rel2 := if StartsWith(rel1, "..") then rel1 else "./" + rel1;
    DotPrefix(rel1);
    BackslashesKeepPrefix(rel2);
    ReplaceFirst(ReplaceFirst(rel2, '\\', "/"), '\\', "/")
  }

  lemma DotPrefix(rel: string)
    ensures var r := if StartsWith(rel, "..") then rel else "./" + rel;
      StartsWith(r, "./") || StartsWith(r, "..")
  {
    AppendParts("./", rel);
  }

  /** Replacing backslashes keeps a `./` or `..` prefix. */
  lemma BackslashesKeepPrefix(s: string)
    requires StartsWith(s, "./") || StartsWith(s, "..")
    ensures var r := ReplaceFirst(ReplaceFirst(s, '\\', "/"), '\\', "/");
      StartsWith(r, "./") || StartsWith(r, "..")
  {
    var once := ReplaceFirst(s, '\\', "/");
    if StartsWith(s, "./") {
      ReplaceFirstKeepsPrefix(s, '\\', "/", "./");
      ReplaceFirstKeepsPrefix(once, '\\', "/", "./");
    } else {
      ReplaceFirstKeepsPrefix(s, '\\', "/", "..");
      ReplaceFirstKeepsPrefix(once, '\\', "/", "..");
    }
  }

  /** Whether the import is written `import type`. */
  predicate AsType(c: Config, interfaceName: string) {
    c.importAsType.Some? && c.importAsType.value(interfaceName)
  }

  /** `toImportDefinition`: the import statement for the model with key `name`, or the
      empty string when no model has that key. */
  function ImportDefinition(c: Config, models: seq<ExtendedModel>, m: ExtendedModel, name: string): (r: string)
    ensures FindModel(models, name).None? ==> r == ""
    ensures FindModel(models, name).Some? ==>
              var f := FindModel(models, name).value;
              r == "import " + (if AsType(c, m.interfaceName) then "type " else "") + "{ " +
                   f.interfaceName + " } from '" + ImportPath(m.outputFile, f.outputFile) + "';"
    ensures r == "" <==> FindModel(models, name).None?
  {
    match FindModel(models, name)
    case None => ""
    case Some(f) =>
      "import " + (if AsType(c, m.interfaceName) then "type " else "") + "{ " +
      f.interfaceName + " } from '" + ImportPath(m.outputFile, f.outputFile) + "';"
  }

  /** `a.collection || a.model || a.component`: the single target, or the last operand
      when none is truthy. */
  function SingleTarget(a: Attribute): (r: Option<string>)
    ensures Truthy(r) <==> Truthy(a.collection) || Truthy(a.model) || Truthy(a.component)
  {
    Or(Or(a.collection, a.model), a.component)
  }

  /** The same chain ending in `|| ''`: the name looked up for the single target. */
  function TargetName(a: Attribute): (r: string)
    ensures Truthy(SingleTarget(a)) ==> r == SingleTarget(a).value
    ensures !Truthy(SingleTarget(a)) ==> r == ""
  {
    if Truthy(SingleTarget(a)) then SingleTarget(a).value else ""
  }

  /** `components.filter(c => c !== m.modelName).map(toImportDefinition)`: the import
      definitions of the listed components other than the model itself, in order; a
      component no model holds contributes an empty string. */
  function ComponentImports(c: Config, models: seq<ExtendedModel>, m: ExtendedModel, components: seq<string>): seq<string> {
    Map(Without(components, m.modelName), n => ImportDefinition(c, models, m, n))
  }

  /** A statement is among the component imports exactly when it is the import of a
      listed component other than the own key. */
  lemma ComponentImportsMembers(c: Config, models: seq<ExtendedModel>, m: ExtendedModel,
                                components: seq<string>, x: string)
    ensures x in ComponentImports(c, models, m, components) <==>
            exists n :: n in components && n != m.modelName && x == ImportDefinition(c, models, m, n)
  {
    MapMembers(Without(components, m.modelName), n => ImportDefinition(c, models, m, n), x);
  }

  /** What one attribute adds to the list: nothing when its single target is the
      model's own key; otherwise the single target's import, when found, followed by
      the imports of its components. */
  function AttributeImports(c: Config, models: seq<ExtendedModel>, m: ExtendedModel, a: Attribute): seq<string> {
    if SingleTarget(a) == Some(m.modelName) then []
    else
      var proposed := ImportDefinition(c, models, m, TargetName(a));
      (if proposed != "" then [proposed] else []) + ComponentImports(c, models, m, a.components.GetOr([]))
  }

  /** The list built by the loop, before filtering and sorting. */
  function RawImports(c: Config, models: seq<ExtendedModel>, m: ExtendedModel, attrs: seq<(string, Attribute)>): seq<string> {
    FlatMap(attrs, (p: (string, Attribute)) => AttributeImports(c, models, m, p.1))
  }

  /** The returned list: first occurrences only, then sorted. */
  function ImportList(c: Config, models: seq<ExtendedModel>, m: ExtendedModel): seq<string> {
    Sort(Dedup(RawImports(c, models, m, m.source.attributes)))
  }

  /** A statement in the loop's list comes from one of the attributes, and every
      statement an attribute contributes is in the list. */
  lemma RawImportsMembers(c: Config, models: seq<ExtendedModel>, m: ExtendedModel,
                            attrs: seq<(string, Attribute)>, x: string)
    ensures x in RawImports(c, models, m, attrs) <==>
            exists i :: 0 <= i < |attrs| && x in AttributeImports(c, models, m, attrs[i].1)
  {
    FlatMapMembers(attrs, (p: (string, Attribute)) => AttributeImports(c, models, m, p.1), x);
  }

  /** The import list is sorted, has no duplicates, and holds exactly the statements
      the attributes contribute. */
  lemma ImportListFacts(c: Config, models: seq<ExtendedModel>, m: ExtendedModel)
    ensures Sorted(ImportList(c, models, m)) && Distinct(ImportList(c, models, m))
    ensures forall x :: x in ImportList(c, models, m) <==>
              exists i :: 0 <= i < |m.source.attributes| &&
                          x in AttributeImports(c, models, m, m.source.attributes[i].1)
  {
    var raw := RawImports(c, models, m, m.source.attributes);
    DedupFacts(raw);
    SortFacts(Dedup(raw));
    SortKeepsDistinct(Dedup(raw));
    forall x ensures x in ImportList(c, models, m) <==>
                     exists i :: 0 <= i < |m.source.attributes| &&
                                 x in AttributeImports(c, models, m, m.source.attributes[i].1) {
      RawImportsMembers(c, models, m, m.source.attributes, x);
    }
  }

  /** An attribute that targets the model's own key, through its single target, adds
      no import at all, and a component equal to the own key adds none either: every
      statement an attribute contributes is the import of a name other than the key. */
  lemma AttributeImportsNames(c: Config, models: seq<ExtendedModel>, m: ExtendedModel, a: Attribute, x: string)
    requires x in AttributeImports(c, models, m, a)
    ensures SingleTarget(a) != Some(m.modelName)
    ensures (x != "" && x == ImportDefinition(c, models, m, TargetName(a))) ||
            (a.components.Some? &&
             exists n :: n in a.components.value && n != m.modelName && x == ImportDefinition(c, models, m, n))
  {
    ComponentImportsMembers(c, models, m, a.components.GetOr([]), x);
  }

  /** The self check compares the target as written with the lower-cased own key,
      while lookup ignores case: a target naming the model itself in other case is
      not skipped, and the model imports itself. */
  lemma SelfImportByCase(c: Config, models: seq<ExtendedModel>, m: ExtendedModel, a: Attribute, i: nat)
    requires i < |models| && models[i] == m
    requires Truthy(SingleTarget(a)) && SingleTarget(a).value != m.modelName
    requires LowerStr(SingleTarget(a).value) == m.modelName
    ensures ImportDefinition(c, models, m, TargetName(a)) != ""
    ensures ImportDefinition(c, models, m, TargetName(a)) in AttributeImports(c, models, m, a)
  {
    assert models[i].modelName == LowerStr(TargetName(a));
  }

  /** A listed component that no model holds and that is not the own key puts an empty
      string into the list, which the unit then prints as a blank line: the source
      does not guard component imports the way it guards the single target's. */
  lemma UnresolvedComponentGivesBlank(c: Config, models: seq<ExtendedModel>, m: ExtendedModel, i: nat, j: nat)
    requires i < |m.source.attributes|
    requires var a := m.source.attributes[i].1;
      SingleTarget(a) != Some(m.modelName) && a.components.Some? && j < |a.components.value| &&
      a.components.value[j] != m.modelName && FindModel(models, a.components.value[j]).None?
    ensures "" in ImportList(c, models, m)
  {
    var a := m.source.attributes[i].1;
    assert ImportDefinition(c, models, m, a.components.value[j]) == "";
    ComponentImportsMembers(c, models, m, a.components.value, "");
    assert "" in ComponentImports(c, models, m, a.components.value);
    assert "" in AttributeImports(c, models, m, a);
    ImportListFacts(c, models, m);
  }
}
