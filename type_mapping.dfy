/** The default Strapi-type to TypeScript-type table (`defaultToPropertyType`) and its
    override wrapper (`toPropertyType`). */
module TypeMapping {
  import opened Js
  import opened Text
  import opened Options
  import opened StrapiModel
  import opened Naming

  /** The fixed part of the table, keyed by the lower-cased kind; `enumeration` is
      not in it, and a kind not in it is echoed back. */
  const ScalarTypes: map<string, string> := map[
    "text" := "string", "richtext" := "string", "email" := "string",
    "password" := "string", "uid" := "string", "time" := "string",
    "date" := "Date", "datetime" := "Date", "timestamp" := "Date",
    "media" := "Blob",
    "json" := "{ [key: string]: unknown }",
    "decimal" := "number", "float" := "number", "biginteger" := "number", "integer" := "number"]

  /** The case tag the `switch` dispatches on: the lower-cased kind, or `'unknown'`. */
  function KindTag(kind: Option<string>): (pt: string)
    ensures Truthy(kind) ==> pt == LowerStr(kind.value) && pt != ""
    ensures !Truthy(kind) ==> pt == "unknown"
  {
    if Truthy(kind) then LowerStr(kind.value) else "unknown"
  }

  /** The type of an enumeration: the enum's name in enum mode, the union of its
      quoted values otherwise; `string` when the attribute declares no value list. */
  function EnumerationType(c: Config, interfaceName: string, fieldName: string, values: Option<seq<string>>): string {
    if values.None? then "string"
    else if c.enumMode then ToEnumName(c, fieldName, interfaceName)
    else "'" + Join(values.value, "' | '") + "'"
  }

  /** `defaultToPropertyType`, as the `switch` of the source. */
  function DefaultPropertyType(c: Config, interfaceName: string, fieldName: string, a: Attribute): (r: string)
    ensures var pt := KindTag(a.kind);
      (pt in ScalarTypes ==> r == ScalarTypes[pt]) &&
      (pt == "enumeration" ==> r == EnumerationType(c, interfaceName, fieldName, a.enumValues)) &&
      (pt !in ScalarTypes && pt != "enumeration" ==> r == pt)
    ensures r != ""
  {
    var pt := KindTag(a.kind);
    match pt
    case "text" => "string"
    case "richtext" => "string"
    case "email" => "string"
    case "password" => "string"
    case "uid" => "string"
    case "time" => "string"
    case "enumeration" => EnumerationType(c, interfaceName, fieldName, a.enumValues)
    case "date" => "Date"
    case "datetime" => "Date"
    case "timestamp" => "Date"
    case "media" => "Blob"
    case "json" => "{ [key: string]: unknown }"
    case "decimal" => "number"
    case "float" => "number"
    case "biginteger" => "number"
    case "integer" => "number"
    case _ => pt
  }

  /** `toPropertyType`: the property-type callback (given the kind as text, the field
      name and the interface name) first, the table on a falsy answer. */
  function ToPropertyType(c: Config, interfaceName: string, fieldName: string, a: Attribute): (r: string)
    ensures var f := TypeOverride(c);
      (f.Some? && Truthy(f.value(TemplateText(a.kind), fieldName, interfaceName)) ==>
         r == f.value(TemplateText(a.kind), fieldName, interfaceName).value) &&
      (f.None? || !Truthy(f.value(TemplateText(a.kind), fieldName, interfaceName)) ==>
         r == DefaultPropertyType(c, interfaceName, fieldName, a))
    ensures r != ""
  {
    var fallback := DefaultPropertyType(c, interfaceName, fieldName, a);
    match TypeOverride(c)
    case None => fallback
    case Some(f) => OrElse(f(TemplateText(a.kind), fieldName, interfaceName), fallback)
  }

  /** A kind the table does not know, and an absent kind, map to a non-empty name:
      the kind itself, lower-cased, or `unknown`. */
  lemma UnlistedKind(c: Config, interfaceName: string, fieldName: string, a: Attribute)
    requires KindTag(a.kind) !in ScalarTypes && KindTag(a.kind) != "enumeration"
    ensures Truthy(a.kind) ==> DefaultPropertyType(c, interfaceName, fieldName, a) == LowerStr(a.kind.value)
    ensures !Truthy(a.kind) ==> DefaultPropertyType(c, interfaceName, fieldName, a) == "unknown"
  {
  }

  /** An enumeration without a value list is typed `string`. With one, enum mode
      types it by its enum's name, and literal mode by its values, each quoted, joined
      with ` | `. */
  lemma EnumerationTypes(c: Config, interfaceName: string, fieldName: string, a: Attribute)
    requires KindTag(a.kind) == "enumeration"
    ensures a.enumValues.None? ==> DefaultPropertyType(c, interfaceName, fieldName, a) == "string"
    ensures a.enumValues.Some? && c.enumMode ==>
              DefaultPropertyType(c, interfaceName, fieldName, a) == ToEnumName(c, fieldName, interfaceName)
    ensures a.enumValues.Some? && !c.enumMode ==>
              DefaultPropertyType(c, interfaceName, fieldName, a) == "'" + Join(a.enumValues.value, "' | '") + "'"
  {
  }
}
