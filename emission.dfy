/** Unit assembly (`strapiModelToInterface`), the index listing written by `run`, and
    the `Converter` class whose methods build them with the source's loops. */
module Emission {
  import opened Js
  import opened Text
  import opened Lists
  import opened Options
  import opened StrapiModel
  import opened Naming
  import opened TypeMapping
  import opened ModelGraph
  import opened Properties
  import opened Imports
  import opened Enums

  /** The discriminating property: components, whose keys hold a dot, are told apart
      by `__component`, content types by `__contentType`. */
  function Discriminant(key: string): (r: string)
    ensures '.' in key ==> r == "__component"
    ensures '.' !in key ==> r == "__contentType"
  {
    if '.' in key then "__component" else "__contentType"
  }

  function DiscriminantLine(key: string): string {
    "  " + Discriminant(key) + ": '" + key + "';"
  }

  /** The type guard `is<Interface>`, comparing the discriminant with the key. */
  function GuardLines(interfaceName: string, key: string): (r: seq<string>)
    ensures |r| == 3 && r[2] == "}"
    ensures r[1] == "  return obj." + Discriminant(key) + " === '" + key + "';"
  {
    ["export function is" + interfaceName + "(obj: { " + Discriminant(key) + "?: string }): obj is " +
       interfaceName + " {",
     "  return obj." + Discriminant(key) + " === '" + key + "';",
     "}"]
  }

  /** Whether the `excludeField` callback drops the field. */
  predicate Excluded(c: Config, interfaceName: string, name: string) {
    c.excludeField.Some? && c.excludeField.value(interfaceName, name)
  }

  /** A loop over entries that skips the ones `keep` rejects and pushes the rendering
      of every other one; the first rendering that throws makes the loop throw. */
  function Collect<T>(s: seq<T>, keep: T -> bool, render: T -> Result<string>): Result<seq<string>>
    decreases |s|
  {
    if |s| == 0 then Ok([])
    else
      var last := s[|s| - 1];
      match Collect(s[..|s| - 1], keep, render)
      case TypeError => TypeError
      case Ok(prefix) =>
        if !keep(last) then Ok(prefix)
        else
          match render(last)
          case TypeError => TypeError
          case Ok(line) => Ok(prefix + [line])
  }

  /** The entries `keep` accepts, in order. */
  function Kept<T>(s: seq<T>, keep: T -> bool): seq<T>
    decreases |s|
  {
    if |s| == 0 then []
    else
      var last := s[|s| - 1];
      Kept(s[..|s| - 1], keep) + (if keep(last) then [last] else [])
  }

  /** An entry is kept exactly when it is one of the entries and `keep` accepts it. */
  lemma {:induction false} KeptOf<T>(s: seq<T>, keep: T -> bool)
    ensures forall x :: x in Kept(s, keep) <==> x in s && keep(x)
    decreases |s|
  {
    if |s| > 0 {
      KeptOf(s[..|s| - 1], keep);
      assert s == s[..|s| - 1] + [s[|s| - 1]];
    }
  }

  lemma {:induction false} CollectError<T>(s: seq<T>, keep: T -> bool, render: T -> Result<string>)
    ensures Collect(s, keep, render).TypeError? ==>
            exists i :: 0 <= i < |Kept(s, keep)| && render(Kept(s, keep)[i]).TypeError?
    ensures forall i :: 0 <= i < |Kept(s, keep)| && render(Kept(s, keep)[i]).TypeError? ==>
            Collect(s, keep, render).TypeError?
    decreases |s|
  {
    if |s| > 0 {
      var init := s[..|s| - 1];
      var last := s[|s| - 1];
      CollectError(init, keep, render);
      var k0 := Kept(init, keep);
      var kept := Kept(s, keep);
      assert kept == k0 + (if keep(last) then [last] else []);
      assert forall i :: 0 <= i < |k0| ==> kept[i] == k0[i];
      if Collect(s, keep, render).TypeError? {
        if Collect(init, keep, render).TypeError? {
          var i :| 0 <= i < |k0| && render(k0[i]).TypeError?;
          assert kept[i] == k0[i];
        } else {
          assert kept[|k0|] == last;
        }
      } else {
        forall i | 0 <= i < |kept| ensures !render(kept[i]).TypeError? {
          if i < |k0| {
            assert kept[i] == k0[i];
          }
        }
      }
    }
  }

  lemma {:induction false} CollectValues<T>(s: seq<T>, keep: T -> bool, render: T -> Result<string>)
    requires Collect(s, keep, render).Ok?
    ensures var kept := Kept(s, keep);
      var lines := Collect(s, keep, render).value;
      |lines| == |kept| &&
      forall i :: 0 <= i < |kept| ==> render(kept[i]) == Ok(lines[i])
    decreases |s|
  {
    if |s| > 0 {
      var init := s[..|s| - 1];
      var last := s[|s| - 1];
      CollectValues(init, keep, render);
      var k0 := Kept(init, keep);
      var kept := Kept(s, keep);
      assert kept == k0 + (if keep(last) then [last] else []);
      assert forall i :: 0 <= i < |k0| ==> kept[i] == k0[i];
    }
  }

  /** A prefix that throws makes the whole loop throw. */
  lemma {:induction false} CollectErrorPropagates<T>(s: seq<T>, keep: T -> bool, render: T -> Result<string>, n: nat)
    requires n <= |s| && Collect(s[..n], keep, render).TypeError?
    ensures Collect(s, keep, render).TypeError?
    decreases |s| - n
  {
    if n < |s| {
      assert s[..n + 1][..n] == s[..n];
      CollectErrorPropagates(s, keep, render, n + 1);
    } else {
      assert s[..n] == s;
    }
  }

  /** The attribute filter of `strapiModelToInterface`. */
  function KeepField(c: Config, interfaceName: string): ((string, Attribute)) -> bool {
    (p: (string, Attribute)) => !Excluded(c, interfaceName, p.0)
  }

  /** One field line: the attribute's property line, indented by two spaces. */
  function RenderField(models: seq<ExtendedModel>, c: Config, interfaceName: string): ((string, Attribute)) -> Result<string> {
    (p: (string, Attribute)) => Indented(PropertyLine(models, c, interfaceName, p.0, p.1))
  }

  function Indented(line: Result<string>): (r: Result<string>)
    ensures r.TypeError? <==> line.TypeError?
    ensures line.Ok? ==> r == Ok("  " + line.value)
  {
    match line
    case TypeError => TypeError
    case Ok(l) => Ok("  " + l)
  }

  /** The attributes that are rendered, in order. */
  function KeptAttributes(c: Config, interfaceName: string, attrs: seq<(string, Attribute)>): seq<(string, Attribute)> {
    Kept(attrs, KeepField(c, interfaceName))
  }

  /** The field lines of the attribute loop. */
  function FieldLines(models: seq<ExtendedModel>, c: Config, interfaceName: string,
                      attrs: seq<(string, Attribute)>): Result<seq<string>> {
    Collect(attrs, KeepField(c, interfaceName), RenderField(models, c, interfaceName))
  }

  /** An attribute whose line cannot be rendered. */
  predicate Unrenderable(models: seq<ExtendedModel>, c: Config, interfaceName: string, p: (string, Attribute)) {
    PropertyLine(models, c, interfaceName, p.0, p.1).TypeError?
  }

  /** The loop throws exactly when a kept attribute cannot be rendered. */
  lemma FieldLinesError(models: seq<ExtendedModel>, c: Config, interfaceName: string,
                        attrs: seq<(string, Attribute)>)
    ensures FieldLines(models, c, interfaceName, attrs).TypeError? <==>
            exists i :: 0 <= i < |KeptAttributes(c, interfaceName, attrs)| &&
                        Unrenderable(models, c, interfaceName, KeptAttributes(c, interfaceName, attrs)[i])
  {
    var keep := KeepField(c, interfaceName);
    var render := RenderField(models, c, interfaceName);
    CollectError(attrs, keep, render);
    var kept := Kept(attrs, keep);
    assert FieldLines(models, c, interfaceName, attrs) == Collect(attrs, keep, render);
    assert KeptAttributes(c, interfaceName, attrs) == kept;
    if FieldLines(models, c, interfaceName, attrs).TypeError? {
      var i :| 0 <= i < |kept| && render(kept[i]).TypeError?;
      assert Unrenderable(models, c, interfaceName, kept[i]);
    } else {
      forall i | 0 <= i < |kept| ensures !Unrenderable(models, c, interfaceName, kept[i]) {
        assert !render(kept[i]).TypeError?;
      }
    }
  }

  /** The loop yields one line per kept attribute, in order: that attribute's property
      line, indented. */
  lemma FieldLinesValues(models: seq<ExtendedModel>, c: Config, interfaceName: string,
                         attrs: seq<(string, Attribute)>)
    requires FieldLines(models, c, interfaceName, attrs).Ok?
    ensures var kept := KeptAttributes(c, interfaceName, attrs);
      var fields := FieldLines(models, c, interfaceName, attrs).value;
      |fields| == |kept| &&
      forall i :: 0 <= i < |kept| ==>
        PropertyLine(models, c, interfaceName, kept[i].0, kept[i].1).Ok? &&
        fields[i] == "  " + PropertyLine(models, c, interfaceName, kept[i].0, kept[i].1).value
  {
    var render := RenderField(models, c, interfaceName);
    CollectValues(attrs, KeepField(c, interfaceName), render);
    var kept := KeptAttributes(c, interfaceName, attrs);
    var fields := FieldLines(models, c, interfaceName, attrs).value;
    forall i | 0 <= i < |kept|
      ensures PropertyLine(models, c, interfaceName, kept[i].0, kept[i].1).Ok? &&
              fields[i] == "  " + PropertyLine(models, c, interfaceName, kept[i].0, kept[i].1).value {
      assert render(kept[i]) == Ok(fields[i]);
    }
  }

  /** The kept attributes are the attributes the callback does not exclude; so an
      excluded field has no line. */
  lemma KeptMembers(c: Config, interfaceName: string, attrs: seq<(string, Attribute)>)
    ensures forall p :: p in KeptAttributes(c, interfaceName, attrs) <==> p in attrs && !Excluded(c, interfaceName, p.0)
  {
    KeptOf(attrs, KeepField(c, interfaceName));
  }

  /** The lines of the `addField` callback's answer when it is an array. */
  function AddedLines(c: Config, interfaceName: string): seq<string> {
    match c.addField
    case None => []
    case Some(f) =>
      match f(interfaceName)
      case None => []
      case Some(fields) =>
        seq(|fields|, i requires 0 <= i < |fields| => "  " + fields[i].name + ": " + fields[i].fieldType + ";")
  }

  /** No callback, or an answer that is not an array, adds nothing; otherwise there is
      one `name: type;` line per added field, in order. */
  lemma AddedLinesContents(c: Config, interfaceName: string)
    ensures c.addField.None? || c.addField.value(interfaceName).None? ==> AddedLines(c, interfaceName) == []
    ensures c.addField.Some? && c.addField.value(interfaceName).Some? ==>
              var fields := c.addField.value(interfaceName).value;
              |AddedLines(c, interfaceName)| == |fields| &&
              forall i :: 0 <= i < |fields| ==>
                AddedLines(c, interfaceName)[i] == "  " + fields[i].name + ": " + fields[i].fieldType + ";"
  {
  }

  /** In enum mode a blank line and the enum listing follow the interface. */
  function EnumSection(c: Config, interfaceName: string, attrs: seq<(string, Attribute)>): (r: Result<seq<string>>)
    ensures !c.enumMode ==> r == Ok([])
    ensures c.enumMode ==> (r.TypeError? <==> EnumLines(c, interfaceName, attrs).TypeError?)
    ensures c.enumMode && r.Ok? ==> r.value == [""] + EnumLines(c, interfaceName, attrs).value
  {
    if !c.enumMode then Ok([])
    else
      match EnumLines(c, interfaceName, attrs)
      case TypeError => TypeError
      case Ok(e) => Ok([""] + e)
  }

  /** The import block: the imports and a blank line, or nothing. */
  function ImportSection(imports: seq<string>): (r: seq<string>)
    ensures |imports| == 0 ==> r == []
    ensures |imports| > 0 ==> r == imports + [""]
  {
    if |imports| > 0 then imports + [""] else []
  }

  /** The unit's lines from the comment to the `id` line. */
  function Header(m: ExtendedModel, idLine: string): (r: seq<string>)
    requires m.source.info.Some?
    ensures |r| == 6 && r[0] == "/**" && r[2] == " */"
    ensures r[3] == "export interface " + m.interfaceName + " {"
    ensures r[4] == "  " + Discriminant(m.modelName) + ": '" + m.modelName + "';"
    ensures r[5] == "  " + idLine
  {
    ["/**", " * Model definition for " + TemplateText(m.source.info.value.name), " */",
     "export interface " + m.interfaceName + " {",
     DiscriminantLine(m.modelName),
     "  " + idLine]
  }

  /** Whether a unit renders: the record has an `info` block, the `id` line, every
      kept attribute's line and, in enum mode, the enum listing can be built. */
  predicate Renders(models: seq<ExtendedModel>, c: Config, m: ExtendedModel) {
    m.source.info.Some? &&
    PropertyLine(models, c, m.interfaceName, "id", IdAttribute).Ok? &&
    FieldLines(models, c, m.interfaceName, m.source.attributes).Ok? &&
    EnumSection(c, m.interfaceName, m.source.attributes).Ok?
  }

  /** The lines of one unit, in the order the source pushes them; a unit that does
      not render throws. */
  function UnitLines(models: seq<ExtendedModel>, c: Config, m: ExtendedModel): (r: Result<seq<string>>)
  {
    if !Renders(models, c, m) then TypeError
    else
      var iname := m.interfaceName;
      var attrs := m.source.attributes;
      Ok(Assemble(ImportSection(ImportList(c, models, m)),
                  Header(m, PropertyLine(models, c, iname, "id", IdAttribute).value),
                  FieldLines(models, c, iname, attrs).value, AddedLines(c, iname),
                  EnumSection(c, iname, attrs).value, GuardLines(iname, m.modelName)))
  }

  /** The order of a unit's parts. */
  function Assemble(imports: seq<string>, header: seq<string>, fields: seq<string>, added: seq<string>,
                    enums: seq<string>, guard: seq<string>): seq<string> {
    imports + header + fields + added + ["}"] + enums + [""] + guard + [""]
  }

  /** Where each part lands in the assembled unit. */
  lemma AssembleLayout(r: seq<string>, imports: seq<string>, header: seq<string>, fields: seq<string>,
                       added: seq<string>, enums: seq<string>, guard: seq<string>)
    requires r == Assemble(imports, header, fields, added, enums, guard)
    requires |header| == 6 && |guard| == 3
    ensures |r| == |imports| + 6 + |fields| + |added| + |enums| + 6
    ensures r[..|imports|] == imports
    ensures r[|imports|..|imports| + 6] == header
    ensures r[|imports| + 6..|imports| + 6 + |fields|] == fields
    ensures r[|imports| + 6 + |fields|..|imports| + 6 + |fields| + |added|] == added
    ensures r[|imports| + 6 + |fields| + |added|] == "}"
    ensures r[|r| - 4..|r| - 1] == guard && r[|r| - 1] == ""
  {
    var p := |imports|;
    var q := p + 6 + |fields|;
    var front := imports + header + fields + added;
    assert r == front + ["}"] + enums + [""] + guard + [""];
    assert r[..p] == imports;
    assert r[p..p + 6] == header;
    assert r[p + 6..q] == fields;
    assert r[q..q + |added|] == added;
    assert r[|r| - 4..|r| - 1] == guard;
  }

  /** A unit that renders is, in order: the import section, the six header lines, one
      line per kept attribute, the added lines, the closing brace, the enum section,
      a blank line, the three guard lines and a final blank line. */
  lemma UnitParts(models: seq<ExtendedModel>, c: Config, m: ExtendedModel)
    requires UnitLines(models, c, m).Ok?
    ensures Renders(models, c, m)
    ensures UnitLines(models, c, m).value ==
            Assemble(ImportSection(ImportList(c, models, m)),
                     Header(m, PropertyLine(models, c, m.interfaceName, "id", IdAttribute).value),
                     FieldLines(models, c, m.interfaceName, m.source.attributes).value,
                     AddedLines(c, m.interfaceName),
                     EnumSection(c, m.interfaceName, m.source.attributes).value,
                     GuardLines(m.interfaceName, m.modelName))
  {
  }

  /** The unit text: the lines joined with newlines. */
  function UnitText(models: seq<ExtendedModel>, c: Config, m: ExtendedModel): Result<string> {
    match UnitLines(models, c, m)
    case TypeError => TypeError
    case Ok(lines) => Ok(Join(lines, "\n"))
  }

  /** When a unit throws. */
  lemma UnitError(models: seq<ExtendedModel>, c: Config, m: ExtendedModel)
    ensures UnitLines(models, c, m).TypeError? <==>
        m.source.info.None? ||
        (exists i :: 0 <= i < |KeptAttributes(c, m.interfaceName, m.source.attributes)| &&
                     Unrenderable(models, c, m.interfaceName, KeptAttributes(c, m.interfaceName, m.source.attributes)[i])) ||
        (c.enumMode && exists i :: 0 <= i < |m.source.attributes| && MissingValues(m.source.attributes[i].1))
  {
    FieldLinesError(models, c, m.interfaceName, m.source.attributes);
    EnumLinesError(c, m.interfaceName, m.source.attributes);
  }

  /** The frame of a unit: the imports, then the six header lines (the comment, the
      interface line, the discriminant line and the `id` line); at the end the three
      lines of the type guard, which tests the same discriminant against the same key,
      and a final empty line. */
  lemma UnitLayout(models: seq<ExtendedModel>, c: Config, m: ExtendedModel)
    requires UnitLines(models, c, m).Ok?
    ensures m.source.info.Some?
    ensures PropertyLine(models, c, m.interfaceName, "id", IdAttribute).Ok?
    ensures var lines := UnitLines(models, c, m).value;
      var p := |ImportSection(ImportList(c, models, m))|;
      |lines| >= p + 11 &&
      lines[..p] == ImportSection(ImportList(c, models, m)) &&
      lines[p..p + 6] == Header(m, PropertyLine(models, c, m.interfaceName, "id", IdAttribute).value) &&
      lines[|lines| - 4..|lines| - 1] == GuardLines(m.interfaceName, m.modelName) &&
      lines[|lines| - 1] == ""
  {
    var iname := m.interfaceName;
    var attrs := m.source.attributes;
    UnitParts(models, c, m);
    AssembleLayout(UnitLines(models, c, m).value, ImportSection(ImportList(c, models, m)),
                   Header(m, PropertyLine(models, c, iname, "id", IdAttribute).value),
                   FieldLines(models, c, iname, attrs).value, AddedLines(c, iname),
                   EnumSection(c, iname, attrs).value, GuardLines(iname, m.modelName));
  }

  /** The brace that closes the interface comes after the imports, the six header
      lines, the field lines and the added lines. */
  lemma UnitClose(models: seq<ExtendedModel>, c: Config, m: ExtendedModel)
    requires UnitLines(models, c, m).Ok?
    ensures FieldLines(models, c, m.interfaceName, m.source.attributes).Ok?
    ensures |UnitLines(models, c, m).value| > |ImportSection(ImportList(c, models, m))| + 6 +
              |FieldLines(models, c, m.interfaceName, m.source.attributes).value| + |AddedLines(c, m.interfaceName)|
    ensures UnitLines(models, c, m).value[|ImportSection(ImportList(c, models, m))| + 6 +
              |FieldLines(models, c, m.interfaceName, m.source.attributes).value| + |AddedLines(c, m.interfaceName)|] == "}"
  {
    var iname := m.interfaceName;
    var attrs := m.source.attributes;
    UnitParts(models, c, m);
    AssembleLayout(UnitLines(models, c, m).value, ImportSection(ImportList(c, models, m)),
                   Header(m, PropertyLine(models, c, iname, "id", IdAttribute).value),
                   FieldLines(models, c, iname, attrs).value, AddedLines(c, iname),
                   EnumSection(c, iname, attrs).value, GuardLines(iname, m.modelName));
  }

  /** The interface opens with the discriminant, `__component` for a key with a dot
      and `__contentType` otherwise, and without naming or typing callbacks the
      line right after it is `  id: string;`. */
  lemma UnitIdLine(models: seq<ExtendedModel>, c: Config, m: ExtendedModel)
    requires UnitLines(models, c, m).Ok? && DefaultPolicy(c)
    ensures var lines := UnitLines(models, c, m).value;
      var p := |ImportSection(ImportList(c, models, m))|;
      var key := m.modelName;
      |lines| > p + 5 &&
      lines[p + 3] == "export interface " + m.interfaceName + " {" &&
      lines[p + 4] == "  " + Discriminant(key) + ": '" + key + "';" &&
      lines[p + 5] == "  id: string;"
  {
    UnitLayout(models, c, m);
    IdLine(models, c, m.interfaceName);
    var lines := UnitLines(models, c, m).value;
    var p := |ImportSection(ImportList(c, models, m))|;
    var h := Header(m, PropertyLine(models, c, m.interfaceName, "id", IdAttribute).value);
    assert lines[p + 3] == h[3] && lines[p + 4] == h[4] && lines[p + 5] == h[5];
    IndentedId();
  }

  lemma IndentedId()
    ensures "  " + "id: string;" == "  id: string;"
  {
  }

  /** The type mapping lower-cases the kind but the enum listing compares it exactly: in
      enum mode an attribute of kind `Enumeration` is typed by an enum that no block
      declares. */
  lemma EnumerationCaseMismatch(models: seq<ExtendedModel>, c: Config, interfaceName: string, name: string,
                                a: Attribute)
    requires c.enumMode && DefaultPolicy(c)
    requires a.kind == Some("Enumeration") && a.enumValues.Some?
    requires !Truthy(a.collection) && !Truthy(a.component) && !Truthy(a.model)
    ensures PropertyType(models, c, interfaceName, name, a) == Ok(DefaultEnumName(name, interfaceName))
    ensures EnumBlock(c, interfaceName, name, a) == Ok([])
  {
    assert LowerStr("Enumeration") == "enumeration";
    assert KindTag(a.kind) == "enumeration";
  }

  // ----- The index listing -----

  /** One line of `index.ts`; the `replace` turns the first backslash into a slash. */
  function IndexLine(outputFile: string): string {
    "export * from './" + ReplaceFirst(outputFile, '\\', "/") + "';"
  }

  function IndexLines(outputs: seq<string>): (r: seq<string>)
    ensures |r| == |outputs|
    ensures forall i :: 0 <= i < |outputs| ==> r[i] == IndexLine(outputs[i])
  {
    seq(|outputs|, i requires 0 <= i < |outputs| => IndexLine(outputs[i]))
  }

  function OutputFiles(models: seq<ExtendedModel>): (r: seq<string>)
    ensures |r| == |models| && forall i :: 0 <= i < |models| ==> r[i] == models[i].outputFile
  {
    seq(|models|, i requires 0 <= i < |models| => models[i].outputFile)
  }

  /** The content of `index.ts`: the sorted lines, joined with newlines, and a final
      newline. */
  function IndexContent(models: seq<ExtendedModel>): string {
    Join(Sort(IndexLines(OutputFiles(models))), "\n") + "\n"
  }

  /** The listing has one line per model, in sorted order. */
  lemma IndexFacts(models: seq<ExtendedModel>)
    ensures var lines := Sort(IndexLines(OutputFiles(models)));
      Sorted(lines) && multiset(lines) == multiset(IndexLines(OutputFiles(models))) && |lines| == |models|
  {
    SortFacts(IndexLines(OutputFiles(models)));
  }

  /** Taking out one element takes its one occurrence out of the multiset. */
  lemma RemoveAt(b: seq<string>, j: nat)
    requires j < |b|
    ensures multiset(b) == multiset{b[j]} + multiset(b[..j] + b[j + 1..])
  {
    assert b == b[..j] + [b[j]] + b[j + 1..];
  }

  /** Taking out one output file takes out its index line. */
  lemma IndexLinesRemoveAt(b: seq<string>, j: nat)
    requires j < |b|
    ensures multiset(IndexLines(b)) == multiset{IndexLine(b[j])} + multiset(IndexLines(b[..j] + b[j + 1..]))
  {
    var lines := IndexLines(b);
    assert IndexLines(b[..j] + b[j + 1..]) == lines[..j] + lines[j + 1..];
    RemoveAt(lines, j);
  }

  lemma IndexLinesTail(a: seq<string>)
    requires |a| > 0
    ensures multiset(IndexLines(a)) == multiset{IndexLine(a[0])} + multiset(IndexLines(a[1..]))
  {
    assert IndexLines(a) == [IndexLine(a[0])] + IndexLines(a[1..]);
  }

  /** Permuting the output files permutes the index lines. */
  lemma {:induction false} IndexLinesPermutation(a: seq<string>, b: seq<string>)
    requires multiset(a) == multiset(b)
    ensures multiset(IndexLines(a)) == multiset(IndexLines(b))
    decreases |a|
  {
    if |a| == 0 {
      assert |b| == |multiset(b)| == 0;
    } else {
      assert a[0] in multiset(b);
      var j :| 0 <= j < |b| && b[j] == a[0];
      var rest := b[..j] + b[j + 1..];
      RemoveAt(a, 0);
      RemoveAt(b, j);
      assert a[..0] + a[1..] == a[1..];
      Cancel(multiset(a[1..]), multiset(rest), a[0]);
      IndexLinesPermutation(a[1..], rest);
      IndexLinesTail(a);
      IndexLinesRemoveAt(b, j);
      var line := IndexLine(a[0]);
      assert multiset(IndexLines(a)) == multiset{line} + multiset(IndexLines(a[1..]));
      assert multiset(IndexLines(b)) == multiset{line} + multiset(IndexLines(rest));
    }
  }

  /** The index depends on the set of output files only, with their multiplicities,
      not on the order the models were read in. */
  lemma IndexOrderIndependent(a: seq<ExtendedModel>, b: seq<ExtendedModel>)
    requires multiset(OutputFiles(a)) == multiset(OutputFiles(b))
    ensures IndexContent(a) == IndexContent(b)
  {
    IndexLinesPermutation(OutputFiles(a), OutputFiles(b));
    SortOrderIndependent(IndexLines(OutputFiles(a)), IndexLines(OutputFiles(b)));
  }

  // ----- The converter -----

  /** `Converter`, after construction: the extended records and the configuration.
      The override callbacks the source installs in module-level state are read from
      the configuration here. */
  class Converter {
    const strapiModels: seq<ExtendedModel>
    const config: Config

    /** The derivation of the constructor; it reads `m.info.name` of every record. */
    constructor (strapiModelsParse: seq<Model>, config: Config)
      requires AllHaveInfo(strapiModelsParse)
      ensures this.strapiModels == ExtendAll(config, strapiModelsParse)
      ensures this.config == config
    {
      this.strapiModels := ExtendAll(config, strapiModelsParse);
      this.config := config;
    }

    /** `strapiModelExtractImports`: the loop over the attributes, then the filter and
        the sort. */
    method ExtractImports(m: ExtendedModel) returns (imports: seq<string>)
      ensures imports == ImportList(config, strapiModels, m)
      ensures Sorted(imports) && Distinct(imports)
    {
      var attrs := m.source.attributes;
      var raw: seq<string> := [];
      var i := 0;
      while i < |attrs|
        invariant 0 <= i <= |attrs|
        invariant raw == RawImports(config, strapiModels, m, attrs[..i])
      {
        assert attrs[..i + 1][..i] == attrs[..i];
        raw := raw + AttributeImports(config, strapiModels, m, attrs[i].1);
        i := i + 1;
      }
      assert attrs[..i] == attrs;
      imports := Sort(Dedup(raw));
      ImportListFacts(config, strapiModels, m);
    }

    /** `strapiModelAttributeToEnum`: the loop over the attributes and, inside it, the
        loop over an enumeration's values. */
    method AttributeToEnum(interfaceName: string, attrs: seq<(string, Attribute)>) returns (r: Result<seq<string>>)
      ensures r == EnumLines(config, interfaceName, attrs)
    {
      var enums: seq<string> := [];
      var i := 0;
      while i < |attrs|
        invariant 0 <= i <= |attrs|
        invariant EnumLines(config, interfaceName, attrs[..i]) == Ok(enums)
      {
        assert attrs[..i + 1][..i] == attrs[..i];
        var name := attrs[i].0;
        var a := attrs[i].1;
        if a.kind == Some("enumeration") {
          if a.enumValues.None? {
            EnumErrorPropagates(config, interfaceName, attrs, i + 1);
            return TypeError;
          }
          var values := a.enumValues.value;
          var block := [EnumHeader(config, interfaceName, name)];
          var j := 0;
          while j < |values|
            invariant 0 <= j <= |values|
            invariant block == [EnumHeader(config, interfaceName, name)] + EnumValueLines(values[..j])
          {
            EnumValueLinesSnoc(values, j);
            block := block + [EnumValueLine(values[j])];
            j := j + 1;
          }
          assert values[..j] == values;
          assert EnumBlock(config, interfaceName, name, a) == Ok(block + [EnumFooter]);
          assert enums + block + [EnumFooter] == enums + (block + [EnumFooter]);
          enums := enums + block + [EnumFooter];
        } else {
          assert EnumBlock(config, interfaceName, name, a) == Ok([]);
          assert enums + [] == enums;
        }
        i := i + 1;
      }
      assert attrs[..i] == attrs;
      r := Ok(enums);
    }

    /** `strapiModelAttributeToProperty`, through its specification. */
    function AttributeToProperty(interfaceName: string, name: string, a: Attribute): (r: Result<string>)
      ensures r == PropertyLine(strapiModels, config, interfaceName, name, a)
      ensures r.TypeError? <==> PropertyType(strapiModels, config, interfaceName, name, a).TypeError?
    {
      PropertyLine(strapiModels, config, interfaceName, name, a)
    }

    /** `strapiModelToInterface`: the lines pushed in order, the attribute loop, the
        loop over the added fields, the enum listing, then the text joined with
        newlines. */
    method ToInterface(m: ExtendedModel) returns (r: Result<string>)
      ensures r == UnitText(strapiModels, config, m)
    {
      var imports := ExtractImports(m);
      var result := imports;
      if |result| > 0 {
        result := result + [""];
      }
      assert result == ImportSection(imports);
      if m.source.info.None? {
        return TypeError;
      }
      var iname := m.interfaceName;
      var idLine := AttributeToProperty(iname, "id", IdAttribute);
      if idLine.TypeError? {
        return TypeError;
      }
      var header := Header(m, idLine.value);
      var fields := FieldsOf(iname, m.source.attributes);
      if fields.TypeError? {
        return TypeError;
      }
      var added := AddedFieldsOf(iname);
      var enums: seq<string> := [];
      if config.enumMode {
        var listing := AttributeToEnum(iname, m.source.attributes);
        if listing.TypeError? {
          return TypeError;
        }
        enums := [""] + listing.value;
      }
      assert EnumSection(config, iname, m.source.attributes) == Ok(enums);
      result := result + header + fields.value + added + ["}"] + enums + [""] +
                GuardLines(iname, m.modelName) + [""];
      assert result == Assemble(ImportSection(imports), header, fields.value, added, enums, GuardLines(iname, m.modelName));
      r := Ok(Join(result, "\n"));
    }

    /** The attribute loop of `strapiModelToInterface`: an excluded field is skipped,
        every other one pushes its indented property line. */
    method FieldsOf(iname: string, attrs: seq<(string, Attribute)>) returns (r: Result<seq<string>>)
      ensures r == FieldLines(strapiModels, config, iname, attrs)
    {
      var fields: seq<string> := [];
      var i := 0;
      while i < |attrs|
        invariant 0 <= i <= |attrs|
        invariant FieldLines(strapiModels, config, iname, attrs[..i]) == Ok(fields)
      {
        assert attrs[..i + 1][..i] == attrs[..i];
        var name := attrs[i].0;
        if !Excluded(config, iname, name) {
          var line := AttributeToProperty(iname, name, attrs[i].1);
          if line.TypeError? {
            FieldErrorPropagates(strapiModels, config, iname, attrs, i + 1);
            return TypeError;
          }
          fields := fields + ["  " + line.value];
        }
        i := i + 1;
      }
      assert attrs[..i] == attrs;
      r := Ok(fields);
    }

    /** The loop over the `addField` callback's answer, when it is an array. */
    method AddedFieldsOf(iname: string) returns (added: seq<string>)
      ensures added == AddedLines(config, iname)
    {
      added := [];
      if config.addField.Some? {
        var answer := config.addField.value(iname);
        if answer.Some? {
          var extra := answer.value;
          var j := 0;
          while j < |extra|
            invariant 0 <= j <= |extra|
            invariant |added| == j
            invariant forall k :: 0 <= k < j ==> added[k] == "  " + extra[k].name + ": " + extra[k].fieldType + ";"
          {
            added := added + ["  " + extra[j].name + ": " + extra[j].fieldType + ";"];
            j := j + 1;
          }
        }
      }
    }

    /** `index.ts` as `run` writes it. */
    function Index(): (r: string)
      reads this
      ensures r == IndexContent(strapiModels)
      ensures EndsWith(r, "\n")
    {
      var body := Join(Sort(IndexLines(OutputFiles(strapiModels))), "\n");
      AppendParts(body, "\n");
      IndexContent(strapiModels)
    }
  }

  /** A prefix of the attributes that throws makes the listing throw. */
  lemma {:induction false} EnumErrorPropagates(c: Config, interfaceName: string, attrs: seq<(string, Attribute)>, n: nat)
    requires n <= |attrs| && EnumLines(c, interfaceName, attrs[..n]).TypeError?
    ensures EnumLines(c, interfaceName, attrs).TypeError?
    decreases |attrs| - n
  {
    if n < |attrs| {
      assert attrs[..n + 1][..n] == attrs[..n];
      EnumErrorPropagates(c, interfaceName, attrs, n + 1);
    } else {
      assert attrs[..n] == attrs;
    }
  }

  /** A prefix of the attributes that throws makes the field loop throw. */
  lemma FieldErrorPropagates(models: seq<ExtendedModel>, c: Config, interfaceName: string,
                             attrs: seq<(string, Attribute)>, n: nat)
    requires n <= |attrs| && FieldLines(models, c, interfaceName, attrs[..n]).TypeError?
    ensures FieldLines(models, c, interfaceName, attrs).TypeError?
  {
    CollectErrorPropagates(attrs, KeepField(c, interfaceName), RenderField(models, c, interfaceName), n);
  }
}
