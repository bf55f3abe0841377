/** One attribute rendered as a TypeScript property (`strapiModelAttributeToProperty`):
    its optionality, its type and the array marker. */
module Properties {
  import opened Js
  import opened Text
  import opened Options
  import opened StrapiModel
  import opened Naming
  import opened TypeMapping
  import opened ModelGraph

  /** `isRequired`: the cascade of the source. An explicit `required` wins; then a
      collection, then a repeatable field, is required unless collections may be
      undefined; then a dynamic zone is required when its `min` is positive. */
  function IsRequired(c: Config, a: Attribute): (r: bool)
    ensures r <==> IsTrue(a.required) ||
                   (!c.collectionCanBeUndefined && (Truthy(a.collection) || IsTrue(a.repeatable))) ||
                   (!Truthy(a.collection) && !IsTrue(a.repeatable) &&
                    a.kind == Some("dynamiczone") && a.min.Some? && a.min.value > 0)
  {
    if IsTrue(a.required) then true
    else if Truthy(a.collection) then !c.collectionCanBeUndefined
    else if IsTrue(a.repeatable) then !c.collectionCanBeUndefined
    else a.kind == Some("dynamiczone") && NumTruthy(a.min) && a.min.value > 0
  }

  /** Because the cascade returns early, a collection that may be undefined is optional
      even when it also declares a positive `min`. */
  lemma CollectionShadowsMin(c: Config, a: Attribute)
    requires c.collectionCanBeUndefined && !IsTrue(a.required) && Truthy(a.collection)
    requires a.kind == Some("dynamiczone") && a.min == Some(1)
    ensures !IsRequired(c, a)
  {
  }

  /** The array marker: `[]` for a collection or a repeatable field. */
  function Marker(a: Attribute): (r: string)
    ensures r == "[]" <==> Truthy(a.collection) || IsTrue(a.repeatable)
    ensures r == "" <==> !(Truthy(a.collection) || IsTrue(a.repeatable))
  {
    if Truthy(a.collection) || IsTrue(a.repeatable) then "[]" else ""
  }

  /** `findModelName`: the interface name of the referenced model, or `any` when no
      model has that key. */
  function TypeName(models: seq<ExtendedModel>, n: string): (r: string)
    ensures FindModel(models, n).Some? ==> r == FindModel(models, n).value.interfaceName
    ensures FindModel(models, n).None? ==> r == "any"
    ensures (forall j :: 0 <= j < |models| ==> models[j].modelName != LowerStr(n)) ==> r == "any"
  {
    match FindModel(models, n)
    case Some(found) => found.interfaceName
    case None => "any"
  }

  /** `a.components!.map(findModelName)`. */
  function TypeNames(models: seq<ExtendedModel>, components: seq<string>): (r: seq<string>)
    ensures |r| == |components|
    ensures forall i :: 0 <= i < |components| ==> r[i] == TypeName(models, components[i])
  {
    seq(|components|, i requires 0 <= i < |components| => TypeName(models, components[i]))
  }

  /** The union of a dynamic zone's component types. */
  function Union(models: seq<ExtendedModel>, components: seq<string>): string {
    Join(TypeNames(models, components), " | ")
  }

  /** The type of a dynamic zone. Each branch dereferences `components`, so a zone that
      lists none throws. */
  function DynamicZoneType(models: seq<ExtendedModel>, a: Attribute): (r: Result<string>)
    ensures r.TypeError? <==> a.components.None?
  {
    if a.components.None? then TypeError
    else
      var u := Union(models, a.components.value);
      if a.max == Some(1) && a.min == Some(1) then Ok("[" + u + "]")
      else if a.max == Some(1) && !NumTruthy(a.min) then Ok("[" + u + "]")
      else if a.max == Some(2) && a.min == Some(2) then Ok("[(" + u + "), (" + u + ")]")
      else if a.max == Some(3) && a.min == Some(3) then Ok("[(" + u + "), (" + u + "), (" + u + ")]")
      else Ok("(" + u + ")[]")
  }

  /** The fixed length of a dynamic zone's tuple type, when it has one: one, two or
      three entries; `None` when the zone is typed as an array. */
  function TupleArity(a: Attribute): (n: Option<nat>)
    ensures n.Some? ==> 1 <= n.value <= 3
  {
    if a.max == Some(1) && (a.min == Some(1) || a.min == None || a.min == Some(0)) then Some(1)
    else if a.max == Some(2) && a.min == Some(2) then Some(2)
    else if a.max == Some(3) && a.min == Some(3) then Some(3)
    else None
  }

  /** `n` copies of the union, each in parentheses. */
  function Repeat(u: string, n: nat): (r: seq<string>)
    ensures |r| == n && forall i :: 0 <= i < n ==> r[i] == "(" + u + ")"
  {
    seq(n, i => "(" + u + ")")
  }

  /** A tuple of `n` unions: `[U]` for one entry, `[(U), (U), ...]` for more. */
  function TupleType(u: string, n: nat): string {
    if n == 1 then "[" + u + "]" else "[" + Join(Repeat(u, n), ", ") + "]"
  }

  /** The four cardinality branches, stated through the arity: a zone with a fixed
      size of one to three is a tuple of that many unions, any other zone an array of
      the union. */
  lemma DynamicZoneShape(models: seq<ExtendedModel>, a: Attribute)
    requires a.components.Some?
    ensures var u := Union(models, a.components.value);
      var n := TupleArity(a);
      DynamicZoneType(models, a) == Ok(if n.Some? then TupleType(u, n.value) else "(" + u + ")[]")
  {
    var u := Union(models, a.components.value);
    TupleTwo(u);
    TupleThree(u);
  }

  lemma TupleTwo(u: string)
    ensures TupleType(u, 2) == "[(" + u + "), (" + u + ")]"
  {
    var w := "(" + u + ")";
    assert Join(Repeat(u, 2), ", ") == w + ", " + w by {
      assert Repeat(u, 2)[1..] == [w];
    }
    assert "[" + (w + ", " + w) + "]" == "[(" + u + "), (" + u + ")]";
  }

  lemma TupleThree(u: string)
    ensures TupleType(u, 3) == "[(" + u + "), (" + u + "), (" + u + ")]"
  {
    var w := "(" + u + ")";
    assert Repeat(u, 3) == [w, w, w];
    JoinThree(w);
    BracketThree(u, w);
  }

  lemma JoinThree(w: string)
    ensures Join([w, w, w], ", ") == w + ", " + (w + ", " + w)
  {
    var r := [w, w, w];
    assert r[1..][1..] == [w];
    assert Join(r[1..][1..], ", ") == w;
    assert Join(r[1..], ", ") == w + ", " + w;
  }

  lemma BracketThree(u: string, w: string)
    requires w == "(" + u + ")"
    ensures "[" + (w + ", " + (w + ", " + w)) + "]" == "[(" + u + "), (" + u + "), (" + u + ")]"
  {
  }

  /** `propType`: a collection, a component or a single model is typed by the
      referenced interface; then a dynamic zone; then the kind's own type through the
      type mapping; an attribute with no kind is `unknown`. */
  function PropertyType(models: seq<ExtendedModel>, c: Config, interfaceName: string, name: string,
                        a: Attribute): (r: Result<string>)
    ensures r.TypeError? <==> !Truthy(a.collection) && !Truthy(a.component) && !Truthy(a.model) &&
                              a.kind == Some("dynamiczone") && a.components.None?
    ensures Truthy(a.collection) ==> r == Ok(TypeName(models, a.collection.value))
    ensures !Truthy(a.collection) && Truthy(a.component) ==> r == Ok(TypeName(models, a.component.value))
    ensures !Truthy(a.collection) && !Truthy(a.component) && Truthy(a.model) ==>
              r == Ok(TypeName(models, a.model.value))
    ensures !Truthy(a.collection) && !Truthy(a.component) && !Truthy(a.model) &&
            a.kind != Some("dynamiczone") ==>
              r == Ok(if Truthy(a.kind) then ToPropertyType(c, interfaceName, name, a) else "unknown")
  {
    if Truthy(a.collection) then Ok(TypeName(models, a.collection.value))
    else if Truthy(a.component) then Ok(TypeName(models, a.component.value))
    else if Truthy(a.model) then Ok(TypeName(models, a.model.value))
    else if a.kind == Some("dynamiczone") then DynamicZoneType(models, a)
    else if Truthy(a.kind) then Ok(ToPropertyType(c, interfaceName, name, a))
    else Ok("unknown")
  }

  /** The property line, without its indentation:
      name, `?` when optional, `: `, the type, the array marker and `;`. */
  function PropertyLine(models: seq<ExtendedModel>, c: Config, interfaceName: string, name: string,
                        a: Attribute): (r: Result<string>)
    ensures r.TypeError? <==> PropertyType(models, c, interfaceName, name, a).TypeError?
  {
    match PropertyType(models, c, interfaceName, name, a)
    case TypeError => TypeError
    case Ok(t) =>
      Ok(ToPropertyName(c, name, interfaceName) + (if IsRequired(c, a) then "" else "?") + ": " +
         t + Marker(a) + ";")
  }

  /** Read back, a property line starts with the property name, follows it with `?`
      exactly when the field is optional, then `: `, and ends with the type, the
      marker and a semicolon. */
  lemma PropertyLineParts(models: seq<ExtendedModel>, c: Config, interfaceName: string, name: string,
                          a: Attribute)
    requires PropertyType(models, c, interfaceName, name, a).Ok?
    ensures var line := PropertyLine(models, c, interfaceName, name, a).value;
      var p := ToPropertyName(c, name, interfaceName);
      var t := PropertyType(models, c, interfaceName, name, a).value;
      var opt := if IsRequired(c, a) then "" else "?";
      StartsWith(line, p) && line[|p|..] == opt + ": " + t + Marker(a) + ";" &&
      EndsWith(line, t + Marker(a) + ";")
  {
    var p := ToPropertyName(c, name, interfaceName);
    var t := PropertyType(models, c, interfaceName, name, a).value;
    var opt := if IsRequired(c, a) then "" else "?";
    assert PropertyLine(models, c, interfaceName, name, a).value == p + opt + ": " + t + Marker(a) + ";";
    LineShape(p, opt, t, Marker(a));
  }

  lemma LineShape(p: string, opt: string, t: string, marker: string)
    ensures var line := p + opt + ": " + t + marker + ";";
      StartsWith(line, p) && line[|p|..] == opt + ": " + t + marker + ";" && EndsWith(line, t + marker + ";")
  {
    var line := p + opt + ": " + t + marker + ";";
    var tail := t + marker + ";";
    assert line == p + (opt + ": " + tail);
    AppendParts(p, opt + ": " + tail);
    assert line == (p + opt + ": ") + tail;
    AppendParts(p + opt + ": ", tail);
  }

  /** A relation whose target no model holds is typed `any`, and a collection of it
      `any[]`. */
  lemma UnresolvedRelation(models: seq<ExtendedModel>, c: Config, interfaceName: string, name: string,
                           a: Attribute)
    requires Truthy(a.collection)
    requires forall j :: 0 <= j < |models| ==> models[j].modelName != LowerStr(a.collection.value)
    ensures PropertyLine(models, c, interfaceName, name, a) ==
            Ok(ToPropertyName(c, name, interfaceName) + (if IsRequired(c, a) then "" else "?") + ": any[];")
  {
    assert FindModel(models, a.collection.value).None?;
    assert TypeName(models, a.collection.value) == "any";
    var p := ToPropertyName(c, name, interfaceName) + (if IsRequired(c, a) then "" else "?");
    assert Marker(a) == "[]";
    assert p + ": " + "any" + "[]" + ";" == p + ": any[];";
  }

  /** The attribute the unit's `id` line is rendered from. */
  const IdAttribute := NoAttribute.(kind := Some("string"), required := Some(true))

  /** Without naming or typing callbacks the `id` line is `id: string;`. */
  lemma IdLine(models: seq<ExtendedModel>, c: Config, interfaceName: string)
    requires DefaultPolicy(c)
    ensures PropertyLine(models, c, interfaceName, "id", IdAttribute) == Ok("id: string;")
  {
    var a := IdAttribute;
    assert LowerStr("string") == "string";
    assert KindTag(a.kind) == "string";
    assert "string" !in ScalarTypes;
    assert DefaultPropertyType(c, interfaceName, "id", a) == "string";
    assert ToPropertyType(c, interfaceName, "id", a) == "string";
    assert PropertyType(models, c, interfaceName, "id", a) == Ok("string");
    assert IsRequired(c, a) && Marker(a) == "";
    assert ToPropertyName(c, "id", interfaceName) == "id";
    assert "id" + "" + ": " + "string" + "" + ";" == "id: string;";
  }
}
