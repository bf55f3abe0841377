/** The parsed shape of a Strapi model definition file: a record with optional
    fields, mirroring the interfaces of the repository's model typings. Fields the
    generator never reads (unique, default, via, plugin, relation, target, ...) are
    not represented. */
module StrapiModel {
  import opened Js

  /** One declared attribute (`IStrapiModelAttribute`). Every field may be absent. */
  datatype Attribute = Attribute(
    required: Option<bool>,
    kind: Option<string>,                 // `type`
    collection: Option<string>,
    model: Option<string>,
    component: Option<string>,
    components: Option<seq<string>>,
    enumValues: Option<seq<string>>,      // `enum`
    repeatable: Option<bool>,
    min: Option<int>,
    max: Option<int>)

  /** An attribute that declares nothing. */
  const NoAttribute := Attribute(None, None, None, None, None, None, None, None, None, None)

  /** The `info` block. */
  datatype Info = Info(name: Option<string>, description: Option<string>, icon: Option<string>)

  /** The `options` block. */
  datatype ModelOptions = ModelOptions(timestamps: Option<bool>)

  /** One model record (`IStrapiModel`). `attributes` lists the attribute object's
      entries in `for...in` order; an absent attribute object is the empty list,
      which every loop over it treats alike. */
  datatype Model = Model(
    filename: string,                     // `_filename`
    isComponent: Option<bool>,            // `_isComponent`
    connection: Option<string>,
    collectionName: Option<string>,
    info: Option<Info>,
    options: Option<ModelOptions>,
    attributes: seq<(string, Attribute)>)
}
