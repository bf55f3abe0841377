# strapi-to-typescript, modelled in Dafny

strapi-to-typescript reads Strapi model definition files (`*.settings.json` for
content types, `<folder>/<name>.json` for components) and writes one TypeScript unit
per model: an interface with a discriminant property, an `id` property and one
property per attribute, an optional list of `enum` declarations, and a type-guard
function. It also writes an `index.ts` that re-exports every unit.

This project models the core of that generator:

- the naming policy (`util`): interface, enum, output-file and property names, with
  the override-first, default-on-a-falsy-answer rule;
- the Strapi-type to TypeScript-type table and its override;
- the `Converter` constructor, which derives each record's model key, interface name
  and output path;
- model lookup (`findModel`);
- import discovery;
- the rendering of one attribute as a property line;
- the `enum` listing;
- the assembly of a whole unit;
- the `index.ts` listing written by `run`;
- the loader's rule for merging a newly parsed record into the list of records read
  so far (`importFiles`).

JavaScript's conventions are made explicit:

- `undefined` is `Option.None`;
- truthiness is `Truthy`, `IsTrue` and `NumTruthy`;
- `a || b` is `Or` and `OrElse`;
- a dereference of `undefined` that throws is `Result.TypeError`.

An attribute object is the list of its entries in `for...in` order. Node's `path`
functions (`dirname`, `basename`, `normalize`, `relative`) are modelled for the posix
flavour, with `/` as the current directory.

The modules follow the program:

- `Js`, `Text`, `Lists` and `Paths` are the language and library support.
- `StrapiModel` holds the record shapes.
- `Options` holds the configuration.
- `Naming`, `TypeMapping`, `ModelGraph`, `Properties`, `Imports` and `Enums` hold the
  pure parts of `src/ts-exporter.ts`.
- `Emission` holds the unit and index assembly and the `Converter` class, whose
  methods run the source's loops and are proved equal to the functions.
- `Importer` holds the merge rule and the `Loader` class, whose `results` list is
  updated in place as in `importFiles`.

## Model

| member | source | states |
|---|---|---|
| Naming.DefaultInterfaceName | src/ts-exporter.ts:18 | An empty name gives `unknown`. The result holds no `/` and no space between two words. A name that starts with something other than a space or a slash keeps that first character, upper-cased. A name without spaces and slashes is only capitalised. |
| Naming.CapitalizeWordsFacts | src/ts-exporter.ts:18 | After the `/[ ]+./g` replacement, every space left ends the text or stands before a line terminator. |
| Naming.CapitalizeWordsPrefix | src/ts-exporter.ts:18 | Text without spaces passes through the `/[ ]+./g` replacement unchanged, and the scan goes on after it. |
| Naming.CapitalizeWordsStep | src/ts-exporter.ts:18 | A run of one or more spaces followed by a non-blank character becomes that character upper-cased; the text before it is kept. |
| Naming.InterfaceNameOfTwoWords | src/ts-exporter.ts:18 | Two words without spaces or slashes, separated by any run of spaces, give both words with their first letters upper-cased, run together. |
| Naming.SlashOnlyNameIsEmpty | src/ts-exporter.ts:18 | The default interface name of `/` and of two spaces is empty. A non-empty input can give an empty identifier. |
| Naming.ParentSegment | src/ts-exporter.ts:28 | The segment before the last one of the `/`-split file name; the whole name when it has no `/`. |
| Naming.ToInterfaceName | src/ts-exporter.ts:20-34 | A missing or empty name gives `unknown`. A file under `/components/` gets its parent folder's default name prepended. Every other file gets the name's default only. |
| Naming.DefaultEnumName | src/ts-exporter.ts:37 | An empty field name gives `any`. Otherwise the result is the interface name followed by the capitalised field name, and its length is the sum of the two lengths. It is never empty. |
| Naming.ToEnumName | src/ts-exporter.ts:39-41 | A truthy answer of the `enumName` callback wins. A missing callback or a falsy answer defers to the default. Never empty. |
| Naming.DefaultOutputFileName | src/ts-exporter.ts:44-46 | A component's path is its key with the first `.` turned into `/`, case kept. A content type's path is the lower-cased key, or `key/key` in nested mode. |
| Naming.ComponentOutputPath | src/ts-exporter.ts:44-45 | A component key `folder.name`, whose folder has no dot, is written to `folder/name`. |
| Naming.NestedOutputPath | src/ts-exporter.ts:46 | In nested mode, a content type's output path splits into two equal segments, the lower-cased key twice. |
| Naming.ToOutputFileName | src/ts-exporter.ts:48-50 | A truthy answer of the `outputFileName` callback (given the interface name and the file name) wins; otherwise the default is used. |
| Naming.ToPropertyName | src/ts-exporter.ts:102-106 | A truthy answer of the `fieldName` callback wins; otherwise the field name is used as it is. |
| Options.TypeOverride | src/ts-exporter.ts:128-132 | The `fieldType` callback is installed when given. Otherwise the deprecated `type` callback is installed. |
| TypeMapping.KindTag | src/ts-exporter.ts:61 | A truthy kind gives its lower-cased text, which is non-empty. An absent or empty kind gives `unknown`. |
| TypeMapping.DefaultPropertyType | src/ts-exporter.ts:60-95 | A kind in the fixed table gives the table's type. `enumeration` gives the enumeration type. Any other tag is echoed back. Never empty. |
| TypeMapping.UnlistedKind | src/ts-exporter.ts:89-93 | A kind the table does not know maps to itself, lower-cased. An absent kind maps to `unknown`. |
| TypeMapping.EnumerationTypes | src/ts-exporter.ts:70-75 | Without a value list the type is `string`. With a value list, enum mode gives the enum's name. Literal mode gives the values, each quoted, joined by a vertical bar with a space on each side. |
| TypeMapping.ToPropertyType | src/ts-exporter.ts:97-99 | A truthy answer of the type callback (given the kind as template text, the field name and the interface name) wins; otherwise the table is used. Never empty. |
| ModelGraph.ExtendAll | src/ts-exporter.ts:138-151 | One extended record per parsed record, in order, each derived by `Extend`. |
| ModelGraph.ExtendModels | src/ts-exporter.ts:138-151 | The constructor throws exactly when some parsed record has no `info` block. Otherwise it holds one extended record per parsed record, in order. |
| ModelGraph.FirstIndexFrom | src/ts-exporter.ts:115 | The first index holding the key, with no earlier one, or -1 exactly when no index holds it. |
| ModelGraph.FindModel | src/ts-exporter.ts:114-116 | Not found exactly when no record's key equals the lower-cased name. Otherwise the result is the first record with that key. |
| ModelGraph.FindModelIgnoresCase | src/ts-exporter.ts:115 | Two names that agree after lower-casing find the same record. |
| ModelGraph.FindOwnKey | src/ts-exporter.ts:140-148 | Every extended record is found under its raw key. The record found has the same key and is that record or an earlier one. |
| ModelGraph.ComponentKey | src/ts-exporter.ts:140-144 | A component file `dir/folder/name.json` has the key `folder.name`, lower-cased. Under a `/components/` directory its interface name is the folder's default name followed by the name's. By default its output path is `folder/name`. |
| ModelGraph.ContentTypeKey | src/ts-exporter.ts:140-144 | A content-type file `dir/name.settings.json` has the key `name`, lower-cased. By default its output path is that key, or `key/key` in nested mode. |
| Properties.IsRequired | src/ts-exporter.ts:294-316 | Required exactly when explicitly required; or a collection or repeatable field while collections may not be undefined; or, being neither of those, a dynamic zone with a positive `min`. |
| Properties.CollectionShadowsMin | src/ts-exporter.ts:299-300 | A collection that may be undefined is optional even when it is a dynamic zone with `min` 1. |
| Properties.Marker | src/ts-exporter.ts:319 | `[]` exactly for a collection or a repeatable field; empty otherwise. |
| Properties.TypeName | src/ts-exporter.ts:288-292 | The interface name of the record found, or `any` when none holds the key. |
| Properties.TypeNames | src/ts-exporter.ts:331 | One type name per listed component, in order. |
| Properties.DynamicZoneType | src/ts-exporter.ts:330-340 | Throws exactly when the zone lists no components. |
| Properties.TupleArity | src/ts-exporter.ts:330-337 | The fixed tuple length of a zone is one, two or three. |
| Properties.DynamicZoneShape | src/ts-exporter.ts:330-340 | A zone of fixed size 1, 2 or 3 is a tuple of that many unions of its component types. Any other zone is an array of the union. |
| Properties.PropertyType | src/ts-exporter.ts:321-344 | A collection, a component and a single model are typed, in that order of precedence, by the referenced interface. A dynamic zone is typed by its shape. Any other kind goes through the type mapping. A missing kind is `unknown`. Throws exactly for a dynamic zone without components. |
| Properties.PropertyLine | src/ts-exporter.ts:346 | Throws exactly when the type throws. |
| Properties.PropertyLineParts | src/ts-exporter.ts:318-346 | The line starts with the property name, then `?` exactly when optional, `: `. It ends with the type, the array marker and `;`. |
| Properties.UnresolvedRelation | src/ts-exporter.ts:288-323 | A collection whose target no record holds is typed `any[]`. |
| Properties.IdLine | src/ts-exporter.ts:198-201 | Without naming or typing callbacks, the `id` line is `id: string;`. |
| Imports.ImportPath | src/ts-exporter.ts:244-249 | The relative import path always starts with `./` or `..`. |
| Imports.ImportDefinition | src/ts-exporter.ts:242-251 | Empty exactly when no record holds the name. Otherwise the statement imports that record's interface (as a type when `importAsType` says so) from its relative path. |
| Imports.SingleTarget | src/ts-exporter.ts:259-261 | The chain of `collection`, `model` and `component` joined by logical or is truthy exactly when one of the three is. |
| Imports.TargetName | src/ts-exporter.ts:261 | The chain's value, or `''` when it is falsy. |
| Imports.ComponentImportsMembers | src/ts-exporter.ts:264-266 | A statement is among the component imports exactly when it is the import of a listed component other than the own key. |
| Imports.RawImportsMembers | src/ts-exporter.ts:254-267 | A statement is in the loop's list exactly when some attribute contributes it. |
| Imports.ImportListFacts | src/ts-exporter.ts:268-271 | The returned list is sorted and free of duplicates. It holds exactly the statements the attributes contribute. |
| Imports.AttributeImportsNames | src/ts-exporter.ts:259-266 | Every statement an attribute contributes is the import of its single target, when that is not the own key, or of a listed component other than the own key. |
| Imports.SelfImportByCase | src/ts-exporter.ts:259 | A target naming the model itself in other case is not skipped, and the model imports itself. |
| Imports.UnresolvedComponentGivesBlank | src/ts-exporter.ts:264-266 | A listed component that no record holds puts an empty string into the import list. |
| Enums.EnumValueLine | src/ts-exporter.ts:362 | A member line is indented by two spaces and ends with `",`. |
| Enums.EnumValueLines | src/ts-exporter.ts:361-363 | One member line per value, in order. |
| Enums.EnumBlock | src/ts-exporter.ts:359-365 | Empty unless the kind is exactly `enumeration`. Otherwise: the header, one line per value and the closing line. Throws exactly for an enumeration without values. |
| Enums.EnumLinesError | src/ts-exporter.ts:355-368 | The listing throws exactly when some attribute is an enumeration without values. |
| Enums.EnumLinesHeaders | src/ts-exporter.ts:355-368 | The listing opens exactly one enum per attribute of kind `enumeration`. |
| Emission.Discriminant | src/ts-exporter.ts:192-196 | `__component` for a key with a dot, `__contentType` otherwise. |
| Emission.GuardLines | src/ts-exporter.ts:220-228 | Three lines; the second tests the same discriminant against the key. |
| Emission.FieldLinesError | src/ts-exporter.ts:203-206 | The attribute loop throws exactly when a field the callback keeps cannot be rendered. |
| Emission.FieldLinesValues | src/ts-exporter.ts:203-206 | One line per kept attribute, in order: its property line, indented by two spaces. |
| Emission.KeptMembers | src/ts-exporter.ts:204 | A field is rendered exactly when it is an attribute that `excludeField` does not drop. |
| Emission.AddedLinesContents | src/ts-exporter.ts:208-213 | Without the callback, or when it answers something that is not an array, there are no lines. Otherwise one line `name: type;` per added field, in order. |
| Emission.EnumSection | src/ts-exporter.ts:217 | Nothing outside enum mode. In enum mode, a blank line and the listing; throws exactly when the listing throws. |
| Emission.Header | src/ts-exporter.ts:187-201 | Six lines: the comment, the interface line, the discriminant line and the indented `id` line. |
| Emission.UnitError | src/ts-exporter.ts:181-233 | A unit throws exactly when the record has no `info`, or a kept field cannot be rendered, or, in enum mode, an enumeration has no values. |
| Emission.UnitLayout | src/ts-exporter.ts:184-230 | The unit starts with the import section and the six header lines. It ends with the three guard lines and an empty line. |
| Emission.UnitParts | src/ts-exporter.ts:184-230 | A unit that renders holds the import section, the header, the field lines, the added lines, `}`, the enum section, a blank line, the guard and a blank line, in that order. |
| Emission.AssembleLayout | src/ts-exporter.ts:184-230 | Gives the position of each part in the assembled unit, with the closing brace right after the added lines. |
| Emission.UnitClose | src/ts-exporter.ts:208-215 | The closing brace comes right after the imports, the six header lines, the field lines and the added lines. |
| Emission.UnitIdLine | src/ts-exporter.ts:190-201 | After the imports come the interface line and the discriminant line. Without callbacks, `  id: string;` follows. |
| Emission.EnumerationCaseMismatch | src/ts-exporter.ts:359 | In enum mode, an attribute of kind `Enumeration` is typed by an enum name, but no enum block is emitted for it. |
| Emission.IndexLines | src/ts-exporter.ts:161-162 | One `export * from` line per output file, in order. |
| Emission.OutputFiles | src/ts-exporter.ts:161-162 | The output file of every record, in order. |
| Emission.IndexFacts | src/ts-exporter.ts:161-164 | The listing is sorted. It is a permutation of the lines, with one line per record. |
| Emission.IndexLinesPermutation | src/ts-exporter.ts:161-162 | Permuting the output files permutes the index lines. |
| Emission.IndexOrderIndependent | src/ts-exporter.ts:161-165 | Two record lists with the same output files, with multiplicities, give the same `index.ts`. |
| Emission.Converter.constructor | src/ts-exporter.ts:122-153 | The converter holds the extended records, derived in order, and the configuration. |
| Emission.Converter.ExtractImports | src/ts-exporter.ts:241-272 | The loop yields the import list. It is sorted and free of duplicates. |
| Emission.Converter.AttributeToEnum | src/ts-exporter.ts:355-368 | The nested loops yield the enum listing, or throw as it does. |
| Emission.Converter.FieldsOf | src/ts-exporter.ts:203-206 | The attribute loop yields the field lines, or throws as they do. |
| Emission.Converter.AddedFieldsOf | src/ts-exporter.ts:208-213 | The loop over the callback's answer yields the added lines. |
| Emission.Converter.ToInterface | src/ts-exporter.ts:181-233 | The pushed lines, joined with newlines, are the unit text; the method throws exactly when the unit does. |
| Emission.Converter.Index | src/ts-exporter.ts:161-165 | The `index.ts` content is the sorted listing joined with newlines, which IndexFacts and IndexOrderIndependent describe, and it ends with a newline. |
| Emission.EnumErrorPropagates | src/ts-exporter.ts:357-361 | A prefix of the attributes that throws makes the whole listing throw. |
| Emission.FieldErrorPropagates | src/ts-exporter.ts:203-205 | A prefix of the attributes that throws makes the whole field loop throw. |
| Importer.Override | src/importer.ts:105 | A key present in `merge` replaces the parsed one. |
| Importer.Stamp | src/importer.ts:105 | The record gets the file name, unless `merge` brings its own `_filename`. Each key of `merge` replaces the parsed one; the empty patch sets only the file name. |
| Importer.NameIndex | src/importer.ts:108 | The first index whose name equals the record's, or -1 exactly when none does. |
| Importer.Decide | src/importer.ts:106-117 | An unnamed record is appended. A named record throws when a stored record has no `info`. A replacement index is inside the list. |
| Importer.Apply | src/importer.ts:106-117 | Throws exactly when the decision is to throw. |
| Importer.Feed | src/importer.ts:100-124 | A step that throws leaves the list unchanged and rejects; otherwise the list is the step's result. |
| Importer.Settle | src/importer.ts:96-124 | An empty file list never settles. A rejection wins. Otherwise the promise resolves with the list. |
| Importer.Loader.constructor | src/importer.ts:93 | The loader starts from the caller's list. |
| Importer.Loader.Import | src/importer.ts:103-117 | One file: the list becomes the step's result, or stays as it was when the step throws. |
| Importer.Loader.ImportFiles | src/importer.ts:93-126 | After all files, the list is that of the whole fold. The outcome settles as `Settle` says. |
| Importer.ApplyShape | src/importer.ts:109-117 | A step never shrinks the list and grows it by at most one. An append puts the record last. A replacement writes the record at its index and keeps every other index. |
| Importer.UnnamedAppended | src/importer.ts:115-116 | A record without a name is always appended. |
| Importer.NoInfoBreaksConverter | src/importer.ts:105-117 | A record without `info` is stored, and a list holding it makes the generator constructor throw. |
| Importer.NewNameAppended | src/importer.ts:108-110 | A record whose name no stored record has is appended. |
| Importer.OtherKindKept | src/importer.ts:109-110 | A record is appended when the first record of its name is of the other kind, and both are kept. |
| Importer.SameKindReplaced | src/importer.ts:111-113 | A record replaces the first record of its name when that record is of the same kind. |
| Importer.Names | src/importer.ts:108 | A name is held exactly when some stored record with `info` carries it. |
| Importer.NamesAfterNamed | src/importer.ts:106-114 | After a named record is stored, the list holds the old names plus the record's name, no more and no less. |
| Importer.PoisonPersists | src/importer.ts:108 | Once a stored record has no `info`, every named record throws, and the record stays in the list. |
| Importer.PoisonedCallRejects | src/importer.ts:98-124 | A call whose list holds a record without `info` is rejected when it meets a named record. |
| Importer.PoisonedCallKeeps | src/importer.ts:98-117 | Such a list keeps a record without `info` to the end of the call. |
| Importer.FeedKeepsResults | src/importer.ts:122-124 | The rejection flag never undoes itself and does not affect the list. |
| Importer.FailureSticks | src/importer.ts:122-124 | A rejection among the first files is not undone by the rest. |
| Importer.FeedAllGrowth | src/importer.ts:98-117 | Over a call, the list grows by at most one entry per file and never shrinks. |
| Importer.EmptyNeverSettles | src/importer.ts:96-121 | With no files, the promise stays pending. |
| Importer.DuplicateSurvives | src/importer.ts:108-110 | A content type `A`, then two components `A`, leave three entries. |

## Where the code and its design description differ

The model follows the code in each of these cases:

- The design says every naming function yields a non-empty identifier. The default
  interface name of `/`, or of a run of spaces, is empty (`SlashOnlyNameIsEmpty`).
- The design says a dynamic zone with a positive minimum is required. In the code's
  cascade, a collection or repeatable field that may be undefined returns early as
  optional (`CollectionShadowsMin`).
- The design excludes self-imports by resolved key. The code compares the target as
  written with the lower-cased key, while lookup ignores case
  (`SelfImportByCase`).
- The single target's import is guarded against a failed lookup, but the component
  list's imports are not. An unknown component gives an empty import line
  (`UnresolvedComponentGivesBlank`).
- The type mapping lower-cases the kind, but the enum listing compares it exactly
  (`EnumerationCaseMismatch`).
- The design says a later record of the same key and kind replaces the earlier one.
  The loader matches records by display name, not by key, and compares only the
  first stored record of that name. This lets duplicates of the same kind survive
  (`DuplicateSurvives`).
- A `_filename` key in `merge` overrides the path the record was read from (`Stamp`).
- The `interfaceName` override is accepted but never consulted (`ToInterfaceName`).
- A component's output path keeps the case of its key; only the model key itself is
  lower-cased (`DefaultOutputFileName`).
- With an empty file list, `importFiles` never settles (`EmptyNeverSettles`).

## Left out

- File I/O is not modelled: directory creation, `writeFile`/`writeFileSync`, `readFileSync`, and the file walk and search of `importer.ts`. Records arrive already parsed. The text of each unit and of `index.ts` is the model's output.
- A `readFileSync` failure is not modelled: records arrive parsed, so the loader never fails before `pending--`.
- `JSON.parse` is not modelled, nor its `SyntaxError`, for the same reason.
- Promises, the write callbacks' counter in `run` and `console` diagnostics are not modelled. No output depends on them.
- Text handling covers ASCII only: case mapping is ASCII only, and sorting compares characters by code. JavaScript maps Unicode case and sorts by UTF-16 code units, and the two agree on the Basic Multilingual Plane.
- `path.basename` is modelled without trailing-slash stripping, which file names from the walk never have. `path.relative` resolves against a fixed current directory `/`.
- `for...in` puts integer-like keys first in ascending order. The model takes the attribute list in the order given, so that reordering is the loader's responsibility.
- `hasOwnProperty` is not modelled: parsed JSON has no inherited enumerable keys.
- The source keeps its override callbacks in module-level state, so one converter's callbacks persist into the next. The model reads them from each converter's configuration.
- Emission.Converter.constructor: requires every record to have an `info` block, because a Dafny constructor cannot fail. The throw the source raises on `m.info.name` is modelled by ModelGraph.ExtendModels.
- ModelGraph.Extend: requires an `info` block; it derives one record that has one. The throw on a record without `info` is modelled by ModelGraph.ExtendModels.
- ModelGraph.ExtendAll: requires every record to have an `info` block. ModelGraph.ExtendModels, which is TypeError exactly when some record lacks one, models the throw.
- An absent attribute object is modelled as the empty list. Every loop over it treats the two alike.
- Non-integer `min` and `max` values are outside the model, which uses integers.
- Attribute fields the generator never reads (`unique`, `default`, `via`, `plugin`, `relation`, `target` and so on) are not represented.
- A key passed explicitly as `undefined` in `merge` overwrites the parsed value with `undefined`. The model's `Patch` treats such a key as absent.
- The caller's `results` array is shared with `importFiles`, which updates that very array, also after a rejection. The model's `Loader` owns its list, so that aliasing is not captured.
