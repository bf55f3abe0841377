/** The generator's configuration. The caller-supplied callbacks are optional
    function values; a naming callback answers `None` (undefined) or a string, and a
    falsy answer defers to the default policy. */
module Options {
  import opened Js

  /** One extra property returned by the `addField` callback. */
  datatype AddedField = AddedField(name: string, fieldType: string)

  datatype Config = Config(
    nested: bool,
    enumMode: bool,                                             // `enum`
    collectionCanBeUndefined: bool,
    interfaceName: Option<string -> Option<string>>,           // accepted, never consulted
    enumName: Option<(string, string) -> Option<string>>,      // (name, interfaceName)
    fieldType: Option<(string, string, string) -> Option<string>>,  // (type, fieldName, interfaceName)
    legacyType: Option<(string, string, string) -> Option<string>>, // deprecated `type` option
    fieldName: Option<(string, string) -> Option<string>>,     // (fieldName, interfaceName)
    outputFileName: Option<(string, string) -> Option<string>>, // (interfaceName, filename)
    excludeField: Option<(string, string) -> bool>,            // (interfaceName, fieldName)
    addField: Option<string -> Option<seq<AddedField>>>,       // `None` answer: not an array
    importAsType: Option<string -> bool>)

  /** The property-type override in force: `fieldType`, or else the deprecated `type`. */
  function TypeOverride(c: Config): (r: Option<(string, string, string) -> Option<string>>)
    ensures c.fieldType.Some? ==> r == c.fieldType
    ensures c.fieldType.None? ==> r == c.legacyType
  {
    if c.fieldType.Some? then c.fieldType else c.legacyType
  }

  /** No naming or typing callback is installed. */
  predicate DefaultPolicy(c: Config) {
    c.enumName.None? && c.fieldType.None? && c.legacyType.None? && c.fieldName.None? &&
    c.outputFileName.None?
  }
}
