/** The model graph: each parsed record extended with its model key, interface name
    and output path (the `Converter` constructor's `map`), and lookup by key
    (`findModel`). */
module ModelGraph {
  import opened Js
  import opened Text
  import opened Paths
  import opened Options
  import opened StrapiModel
  import opened Naming

  /** `IStrapiModelExtended`: the record and its three derived fields. */
  datatype ExtendedModel = ExtendedModel(
    source: Model,
    interfaceName: string,
    modelName: string,      // the model key, lower-cased
    outputFile: string)     // `ouputFile`

  /** The model key before lower-casing: for a component the name of the folder it
      lies in, a dot and the file name without `.json`; for any other model the file
      name without `.settings.json`. */
  function RawModelName(m: Model): string {
    if IsTrue(m.isComponent) then
      var dirSegments := Split(Dirname(m.filename), '/');
      dirSegments[|dirSegments| - 1] + "." + BasenameWithout(m.filename, ".json")
    else BasenameWithout(m.filename, ".settings.json")
  }

  /** The constructor's derivation for one record. The source reads `m.info.name`
      unguarded, which throws when `info` is absent. */
  function Extend(c: Config, m: Model): ExtendedModel
    requires m.info.Some?
  {
    var raw := RawModelName(m);
    var interfaceName := ToInterfaceName(m.info.value.name, m.filename);
    ExtendedModel(m, interfaceName, LowerStr(raw),
                  ToOutputFileName(c, raw, m.isComponent, interfaceName, m.filename))
  }

  predicate AllHaveInfo(parsed: seq<Model>) {
    forall i :: 0 <= i < |parsed| ==> parsed[i].info.Some?
  }

  function ExtendAll(c: Config, parsed: seq<Model>): (r: seq<ExtendedModel>)
    requires AllHaveInfo(parsed)
    ensures |r| == |parsed|
    ensures forall i :: 0 <= i < |parsed| ==> r[i] == Extend(c, parsed[i])
  {
    seq(|parsed|, i requires 0 <= i < |parsed| => Extend(c, parsed[i]))
  }

  /** The constructor's `map` over the parsed records: it throws as soon as it meets a
      record without `info`, so the whole construction throws exactly when some record
      lacks one; otherwise every record is extended, in order. */
  function ExtendModels(c: Config, parsed: seq<Model>): (r: Result<seq<ExtendedModel>>)
    ensures r.TypeError? <==> exists i :: 0 <= i < |parsed| && parsed[i].info.None?
    ensures r.Ok? ==> |r.value| == |parsed| && forall i :: 0 <= i < |parsed| ==> r.value[i] == Extend(c, parsed[i])
  {
    if AllHaveInfo(parsed) then Ok(ExtendAll(c, parsed)) else TypeError
  }

  /** Index of the first model whose key is `key`, scanning from `from`; -1 if none. */
  function FirstIndexFrom(models: seq<ExtendedModel>, key: string, from: nat): (r: int)
    requires from <= |models|
    ensures r == -1 <==> forall j :: from <= j < |models| ==> models[j].modelName != key
    ensures r != -1 ==>
              from <= r < |models| && models[r].modelName == key &&
              forall j :: from <= j < r ==> models[j].modelName != key
    decreases |models| - from
  {
    if from == |models| then -1
    else if models[from].modelName == key then from
    else FirstIndexFrom(models, key, from + 1)
  }

  /** `findModel`: the first model whose key equals the lower-cased name. */
  function FindModel(models: seq<ExtendedModel>, name: string): (r: Option<ExtendedModel>)
    ensures r.None? <==> forall j :: 0 <= j < |models| ==> models[j].modelName != LowerStr(name)
    ensures r.Some? ==>
              exists i :: 0 <= i < |models| && models[i] == r.value &&
                          r.value.modelName == LowerStr(name) &&
                          forall j :: 0 <= j < i ==> models[j].modelName != LowerStr(name)
  {
    var i := FirstIndexFrom(models, LowerStr(name), 0);
    if i == -1 then None else Some(models[i])
  }

  /** Lookup ignores the case of the query. */
  lemma FindModelIgnoresCase(models: seq<ExtendedModel>, a: string, b: string)
    requires LowerStr(a) == LowerStr(b)
    ensures FindModel(models, a) == FindModel(models, b)
  {
  }

  /** Every extended record is found under its own key, written in any case, and
      the model found is the first one holding that key. */
  lemma FindOwnKey(c: Config, parsed: seq<Model>, i: nat)
    requires AllHaveInfo(parsed) && i < |parsed|
    ensures var models := ExtendAll(c, parsed);
      var found := FindModel(models, RawModelName(parsed[i]));
      found.Some? && found.value.modelName == models[i].modelName &&
      exists k :: 0 <= k <= i && found.value == models[k]
  {
    var models := ExtendAll(c, parsed);
    LowerStrIdempotent(RawModelName(parsed[i]));
    assert models[i].modelName == LowerStr(RawModelName(parsed[i]));
    var found := FindModel(models, RawModelName(parsed[i]));
    var k :| 0 <= k < |models| && models[k] == found.value && found.value.modelName == LowerStr(RawModelName(parsed[i])) &&
      forall j :: 0 <= j < k ==> models[j].modelName != LowerStr(RawModelName(parsed[i]));
    assert k <= i;
  }

  // ----- Key derivation on well-formed file names -----

  lemma {:induction false} DirnameEndScan(p: string, i: int, slash: nat)
    requires 1 <= slash <= i < |p| && p[slash] == '/'
    requires forall k :: slash < k <= i ==> p[k] != '/'
    ensures DirnameEnd(p, i, false) == slash
    ensures p[i] != '/' ==> DirnameEnd(p, i, true) == slash
    decreases i
  {
    if i > slash {
      DirnameEndScan(p, i - 1, slash);
    }
  }

  /** The directory of `dir/base` is `dir`, when the base name has no slash. */
  lemma DirnameOfJoin(dir: string, base: string)
    requires |dir| >= 2 && base != "" && '/' !in base
    ensures Dirname(dir + "/" + base) == dir
  {
    var p := dir + "/" + base;
    assert p[|dir|] == '/';
    forall k | |dir| < k <= |p| - 1 ensures p[k] != '/' {
      assert p[k] == base[k - |dir| - 1];
    }
    DirnameEndScan(p, |p| - 1, |dir|);
    assert p[..|dir|] == dir;
  }

  lemma LastSegment(dir: string, base: string)
    requires '/' !in base
    ensures var segs := Split(dir + "/" + base, '/');
      segs[|segs| - 1] == base && |segs| >= 2 && segs[|segs| - 2] == Split(dir, '/')[|Split(dir, '/')| - 1]
  {
    SplitAround(dir, base, '/');
    assert dir + "/" + base == dir + ['/'] + base;
    SplitSingle(base, '/');
  }

  /** The folder before the last segment of `dir/folder/file`. */
  lemma ParentOfJoin(dir: string, folder: string, file: string)
    requires '/' !in folder && '/' !in file
    ensures ParentSegment(dir + "/" + folder + "/" + file) == folder
  {
    var d := dir + "/" + folder;
    LastSegment(dir, folder);
    LastSegment(d, file);
  }

  /** A component file `dir/folder/name.json` has the key `folder.name`, the interface
      name `Folder` + `Name` when `dir` holds a `components` folder, and the default
      output path `folder/name`. */
  lemma ComponentKey(c: Config, m: Model, dir: string, folder: string, name: string)
    requires m.info.Some? && IsTrue(m.isComponent)
    requires m.filename == dir + "/" + folder + "/" + name + ".json"
    requires folder != "" && '/' !in folder && '.' !in folder
    requires name != "" && '/' !in name
    ensures RawModelName(m) == folder + "." + name
    ensures Extend(c, m).modelName == LowerStr(folder + "." + name)
    ensures Truthy(m.info.value.name) && Contains(m.filename, "/components/") ==>
      Extend(c, m).interfaceName == DefaultInterfaceName(folder) + DefaultInterfaceName(m.info.value.name.value)
    ensures c.outputFileName.None? ==> Extend(c, m).outputFile == folder + "/" + name
  {
    var file := name + ".json";
    assert '/' !in file by {
      assert forall k :: 0 <= k < |file| ==> file[k] != '/' by {
        forall k | 0 <= k < |file| ensures file[k] != '/' {
          if k < |name| { assert file[k] == name[k]; }
        }
      }
    }
    var d := dir + "/" + folder;
    assert m.filename == d + "/" + file;
    DirnameOfJoin(d, file);
    LastSegment(dir, folder);
    LastSegment(d, file);
    ParentOfJoin(dir, folder, file);
    SplitSingle(file, '/');
    assert Basename(m.filename) == file;
    assert EndsWith(file, ".json") by {
      assert file[|file| - 5..] == ".json";
    }
    assert file[..|file| - 5] == name;
    assert m.filename != ".json" by {
      assert |m.filename| > 5;
    }
    assert BasenameWithout(m.filename, ".json") == name;
    ComponentOutputPath(folder, name, c.nested);
  }

  /** A content-type file `dir/name.settings.json` has the key `name`, lower-cased,
      and by default the output path `name` or, nested, `name/name`, lower-cased. */
  lemma ContentTypeKey(c: Config, m: Model, dir: string, name: string)
    requires m.info.Some? && !IsTrue(m.isComponent)
    requires m.filename == dir + "/" + name + ".settings.json"
    requires name != "" && '/' !in name
    ensures RawModelName(m) == name
    ensures Extend(c, m).modelName == LowerStr(name)
    ensures c.outputFileName.None? && !c.nested ==> Extend(c, m).outputFile == LowerStr(name)
    ensures c.outputFileName.None? && c.nested ==> Extend(c, m).outputFile == LowerStr(name) + "/" + LowerStr(name)
  {
    var file := name + ".settings.json";
    assert '/' !in file by {
      forall k | 0 <= k < |file| ensures file[k] != '/' {
        if k < |name| { assert file[k] == name[k]; }
      }
    }
    assert m.filename == dir + "/" + file;
    LastSegment(dir, file);
    assert Basename(m.filename) == file;
    assert file[|file| - 14..] == ".settings.json";
    assert file[..|file| - 14] == name;
    assert |m.filename| > 14;
  }
}
