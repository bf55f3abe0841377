/** The loader's merge rule (`importFiles`): each parsed record is stamped with its
    file name and the caller's `merge` fields, then either appended to the result
    list or written over an earlier record of the same name and the same kind. The
    file reads and `JSON.parse` are left out: records arrive already parsed. */
module Importer {
  import opened Js
  import opened StrapiModel
  import opened Options
  import opened ModelGraph

  /** `merge: Partial<IStrapiModel>`: `Some` for each key the caller passes. */
  datatype Patch = Patch(
    filename: Option<string>,
    isComponent: Option<bool>,
    connection: Option<string>,
    collectionName: Option<string>,
    info: Option<Info>,
    options: Option<ModelOptions>,
    attributes: Option<seq<(string, Attribute)>>)

  /** The empty patch, `{}`. */
  const NoPatch := Patch(None, None, None, None, None, None, None)

  /** A key of the patch, when present, replaces the parsed one. */
  function Override<T>(patch: Option<T>, parsed: Option<T>): (r: Option<T>)
    ensures patch.Some? ==> r == patch
    ensures patch.None? ==> r == parsed
  {
    if patch.Some? then patch else parsed
  }

  /** `Object.assign(JSON.parse(data), { _filename: f, ...merge })`: the parsed record
      with `_filename` set to the path, then every key of the patch on top, so that a
      `_filename` in the patch wins over the path as well. */
  function Stamp(data: Model, f: string, merge: Patch): (r: Model)
    ensures r.filename == merge.filename.GetOr(f)
    ensures merge == NoPatch ==> r == data.(filename := f)
    ensures merge.info.None? ==> r.info == data.info
    ensures merge.info.Some? ==> r.info == merge.info
    ensures merge.isComponent.None? ==> r.isComponent == data.isComponent
    ensures merge.isComponent.Some? ==> r.isComponent == merge.isComponent
    ensures r.attributes == merge.attributes.GetOr(data.attributes)
  {
    Model(merge.filename.GetOr(f),
          Override(merge.isComponent, data.isComponent),
          Override(merge.connection, data.connection),
          Override(merge.collectionName, data.collectionName),
          Override(merge.info, data.info),
          Override(merge.options, data.options),
          merge.attributes.GetOr(data.attributes))
  }

  /** `strapiModel.info && strapiModel.info.name`: whether the record is looked up by
      name at all. */
  predicate Named(m: Model) {
    m.info.Some? && Truthy(m.info.value.name)
  }

  /** `results.map(s => s.info.name).indexOf(name)`, scanning from `from`, once every
      stored record is known to have an `info` block: the first index whose name is
      `name` (strict equality, so an unnamed entry never matches), or -1. */
  function NameIndex(results: seq<Model>, name: string, from: nat): (k: int)
    requires AllHaveInfo(results) && from <= |results|
    ensures k == -1 <==> forall j :: from <= j < |results| ==> results[j].info.value.name != Some(name)
    ensures k != -1 ==>
              from <= k < |results| && results[k].info.value.name == Some(name) &&
              forall j :: from <= j < k ==> results[j].info.value.name != Some(name)
    decreases |results| - from
  {
    if from == |results| then -1
    else if results[from].info.value.name == Some(name) then from
    else NameIndex(results, name, from + 1)
  }

  /** What happens to one stamped record. */
  datatype Step = Append | Replace(index: nat) | Throw

  /** The decision of lines 106-117. A named record makes the source read
      `s.info.name` of every stored record, which throws when one of them has no
      `info`; otherwise only the first stored record with the same name is compared,
      by `_isComponent`. */
  function Decide(results: seq<Model>, s: Model): (d: Step)
    ensures !Named(s) ==> d == Append
    ensures Named(s) && !AllHaveInfo(results) ==> d == Throw
    ensures d.Replace? ==> d.index < |results|
  {
    if !Named(s) then Append
    else if !AllHaveInfo(results) then Throw
    else
      var k := NameIndex(results, s.info.value.name.value, 0);
      if k == -1 || s.isComponent != results[k].isComponent then Append else Replace(k)
  }

  /** The list after one record: pushed, written over in place, or unchanged because
      the step threw. */
  function Apply(results: seq<Model>, s: Model): (r: Result<seq<Model>>)
    ensures r.TypeError? <==> Decide(results, s) == Throw
  {
    match Decide(results, s)
    case Append => Ok(results + [s])
    case Replace(k) => Ok(results[k := s])
    case Throw => TypeError
  }

  /** The state of one `importFiles` call: the shared list and whether the promise has
      been rejected. */
  datatype Load = Load(results: seq<Model>, failed: bool)

  /** One file: a failure rejects the promise and leaves the list as it was; the
      remaining files are still processed. */
  function Feed(l: Load, s: Model): (r: Load)
    ensures Apply(l.results, s).Ok? ==> r == Load(Apply(l.results, s).value, l.failed)
    ensures Apply(l.results, s).TypeError? ==> r == Load(l.results, true)
  {
    match Apply(l.results, s)
    case Ok(results) => Load(results, l.failed)
    case TypeError => Load(l.results, true)
  }

  /** All files, in order. */
  function FeedAll(l: Load, files: seq<(string, Model)>, merge: Patch): Load
    decreases |files|
  {
    if |files| == 0 then l
    else
      var last := files[|files| - 1];
      Feed(FeedAll(l, files[..|files| - 1], merge), Stamp(last.1, last.0, merge))
  }

  /** How the promise ends. It resolves with the list when the last file has been
      counted; with no files the count is never reached and the promise never
      settles; a rejection comes first and wins. */
  datatype Outcome = Pending | Resolved(models: seq<Model>) | Rejected

  function Settle(count: nat, l: Load): (o: Outcome)
    ensures count == 0 ==> o == Pending
    ensures count > 0 && l.failed ==> o == Rejected
    ensures count > 0 && !l.failed ==> o == Resolved(l.results)
  {
    if count == 0 then Pending else if l.failed then Rejected else Resolved(l.results)
  }

  /** The list `importFiles` fills: empty by default, or the caller's own array. */
  class Loader {
    var results: seq<Model>

    constructor (results: seq<Model>)
      ensures this.results == results
    {
      this.results := results;
    }

    /** The body of the `forEach` callback for one parsed file; `ok` is false when it
        throws. */
    method Import(f: string, data: Model, merge: Patch) returns (ok: bool)
      modifies this
      ensures var s := Stamp(data, f, merge);
        ok == Apply(old(results), s).Ok? &&
        (ok ==> results == Apply(old(results), s).value) &&
        (!ok ==> results == old(results))
    {
      var s := Stamp(data, f, merge);
      if s.info.Some? && Truthy(s.info.value.name) {
        if !AllHaveInfo(results) {
          return false;
        }
        var k := NameIndex(results, s.info.value.name.value, 0);
        if k == -1 || s.isComponent != results[k].isComponent {
          results := results + [s];
        } else {
          results := results[k := s];
        }
      } else {
        results := results + [s];
      }
      ok := true;
    }

    /** `importFiles`: every file in order, then the promise's outcome. */
    method ImportFiles(files: seq<(string, Model)>, merge: Patch) returns (outcome: Outcome)
      modifies this
      ensures var l := FeedAll(Load(old(results), false), files, merge);
        results == l.results && outcome == Settle(|files|, l)
    {
      var rejected := false;
      var i := 0;
      while i < |files|
        invariant 0 <= i <= |files|
        invariant FeedAll(Load(old(results), false), files[..i], merge) == Load(results, rejected)
      {
        assert files[..i + 1][..i] == files[..i];
        var ok := Import(files[i].0, files[i].1, merge);
        if !ok {
          rejected := true;
        }
        i := i + 1;
      }
      assert files[..i] == files;
      outcome := Settle(|files|, Load(results, rejected));
    }
  }

  // ----- Properties of the merge rule -----

  /** One step grows the list by at most one and never shrinks it. An append keeps
      every earlier entry and puts the record last; a replacement keeps the length,
      puts the record at the index and keeps every other index. */
  lemma ApplyShape(results: seq<Model>, s: Model)
    requires Apply(results, s).Ok?
    ensures var r := Apply(results, s).value;
      |results| <= |r| <= |results| + 1 &&
      (Decide(results, s) == Append ==> r == results + [s]) &&
      (Decide(results, s).Replace? ==>
         var k := Decide(results, s).index;
         |r| == |results| && r[k] == s && forall j :: 0 <= j < |r| && j != k ==> r[j] == results[j])
  {
  }

  /** A record without a name is always appended. */
  lemma UnnamedAppended(results: seq<Model>, s: Model)
    requires !Named(s)
    ensures Apply(results, s) == Ok(results + [s])
  {
  }

  /** A record without `info` is stored like any unnamed record, and a list holding it
      makes the generator's constructor throw when it reads `m.info.name`. */
  lemma NoInfoBreaksConverter(c: Config, results: seq<Model>, s: Model)
    requires s.info.None?
    ensures Apply(results, s).Ok?
    ensures ExtendModels(c, Apply(results, s).value).TypeError?
  {
    var stored := results + [s];
    assert Apply(results, s) == Ok(stored);
    assert stored[|results|].info.None?;
  }

  /** A named record whose name no stored record has is appended. */
  lemma NewNameAppended(results: seq<Model>, s: Model)
    requires Named(s) && AllHaveInfo(results)
    requires forall j :: 0 <= j < |results| ==> results[j].info.value.name != s.info.value.name
    ensures Apply(results, s) == Ok(results + [s])
  {
    assert NameIndex(results, s.info.value.name.value, 0) == -1;
  }

  /** When the first stored record of the same name is of the other kind, the record is
      appended and that entry stays, so both are kept. */
  lemma OtherKindKept(results: seq<Model>, s: Model, k: nat)
    requires Named(s) && AllHaveInfo(results) && k < |results|
    requires results[k].info.value.name == s.info.value.name
    requires forall j :: 0 <= j < k ==> results[j].info.value.name != s.info.value.name
    requires results[k].isComponent != s.isComponent
    ensures Apply(results, s) == Ok(results + [s])
    ensures var r := Apply(results, s).value; r[k] == results[k] && r[|results|] == s
  {
    assert NameIndex(results, s.info.value.name.value, 0) == k;
  }

  /** When the first stored record of the same name is of the same kind, the record
      takes its place. */
  lemma SameKindReplaced(results: seq<Model>, s: Model, k: nat)
    requires Named(s) && AllHaveInfo(results) && k < |results|
    requires results[k].info.value.name == s.info.value.name
    requires forall j :: 0 <= j < k ==> results[j].info.value.name != s.info.value.name
    requires results[k].isComponent == s.isComponent
    ensures Apply(results, s) == Ok(results[k := s])
  {
    assert NameIndex(results, s.info.value.name.value, 0) == k;
  }

  /** The names held by the list. */
  function Names(results: seq<Model>): (r: set<string>)
    ensures forall n :: n in r <==>
              exists i :: 0 <= i < |results| && results[i].info.Some? && results[i].info.value.name == Some(n)
  {
    set i | 0 <= i < |results| && results[i].info.Some? && results[i].info.value.name.Some? ::
      results[i].info.value.name.value
  }

  /** After a named record has been stored, the list holds exactly the names it held
      before and the record's name: a replacement only ever overwrites an entry of the
      same name. */
  lemma NamesAfterNamed(results: seq<Model>, s: Model)
    requires Named(s) && Apply(results, s).Ok?
    ensures Names(Apply(results, s).value) == Names(results) + {s.info.value.name.value}
  {
    var r := Apply(results, s).value;
    var name := s.info.value.name.value;
    match Decide(results, s)
    case Append =>
      assert r == results + [s];
      assert r[|results|] == s;
      forall n | n in Names(results) ensures n in Names(r) {
        var i :| 0 <= i < |results| && results[i].info.Some? && results[i].info.value.name == Some(n);
        assert r[i] == results[i];
      }
    case Replace(k) =>
      assert results[k].info.value.name == Some(name);
      forall n | n in Names(results) ensures n in Names(r) {
        var i :| 0 <= i < |results| && results[i].info.Some? && results[i].info.value.name == Some(n);
        if i == k {
          assert r[k] == s;
        } else {
          assert r[i] == results[i];
        }
      }
      forall n | n in Names(r) ensures n in Names(results) + {name} {
        var i :| 0 <= i < |r| && r[i].info.Some? && r[i].info.value.name == Some(n);
        if i != k {
          assert r[i] == results[i];
        }
      }
  }

  /** Once a stored record has no `info`, it is never overwritten: every later named
      record throws, and an unnamed one is appended behind it. */
  lemma PoisonPersists(results: seq<Model>, s: Model)
    requires !AllHaveInfo(results)
    ensures Named(s) ==> Apply(results, s).TypeError?
    ensures !AllHaveInfo(Feed(Load(results, false), s).results)
  {
    var i :| 0 <= i < |results| && results[i].info.None?;
    if !Named(s) {
      assert (results + [s])[i] == results[i];
    }
  }

  /** Over a whole call: once the list holds a record without `info`, it keeps one, and
      a call that meets a further named record is rejected. */
  lemma {:induction false} PoisonedCallRejects(results: seq<Model>, files: seq<(string, Model)>, merge: Patch, i: nat)
    requires !AllHaveInfo(results)
    requires i < |files| && Named(Stamp(files[i].1, files[i].0, merge))
    ensures FeedAll(Load(results, false), files, merge).failed
    decreases |files|
  {
    PoisonedCallKeeps(results, files[..i], merge);
    var before := FeedAll(Load(results, false), files[..i], merge);
    assert files[..i + 1][..i] == files[..i];
    PoisonPersists(before.results, Stamp(files[i].1, files[i].0, merge));
    FailureSticks(Load(results, false), files, merge, i + 1);
  }

  lemma {:induction false} PoisonedCallKeeps(results: seq<Model>, files: seq<(string, Model)>, merge: Patch)
    requires !AllHaveInfo(results)
    ensures !AllHaveInfo(FeedAll(Load(results, false), files, merge).results)
    decreases |files|
  {
    if |files| > 0 {
      var last := files[|files| - 1];
      PoisonedCallKeeps(results, files[..|files| - 1], merge);
      var before := FeedAll(Load(results, false), files[..|files| - 1], merge);
      PoisonPersists(before.results, Stamp(last.1, last.0, merge));
      FeedKeepsResults(before, Stamp(last.1, last.0, merge));
    }
  }

  /** `Feed` acts on the list alone; the rejection flag only accumulates. */
  lemma FeedKeepsResults(l: Load, s: Model)
    ensures Feed(l, s).results == Feed(Load(l.results, false), s).results
    ensures l.failed ==> Feed(l, s).failed
  {
  }

  /** A rejection in the first `n` files is not undone by the rest. */
  lemma {:induction false} FailureSticks(l: Load, files: seq<(string, Model)>, merge: Patch, n: nat)
    requires n <= |files| && FeedAll(l, files[..n], merge).failed
    ensures FeedAll(l, files, merge).failed
    decreases |files| - n
  {
    if n < |files| {
      assert files[..n + 1][..n] == files[..n];
      var last := files[n];
      FeedKeepsResults(FeedAll(l, files[..n], merge), Stamp(last.1, last.0, merge));
      FailureSticks(l, files, merge, n + 1);
    } else {
      assert files[..n] == files;
    }
  }

  /** Over a whole call the list grows by at most one entry per file and never
      shrinks. */
  lemma {:induction false} FeedAllGrowth(l: Load, files: seq<(string, Model)>, merge: Patch)
    ensures |l.results| <= |FeedAll(l, files, merge).results| <= |l.results| + |files|
    ensures l.failed ==> FeedAll(l, files, merge).failed
    decreases |files|
  {
    if |files| > 0 {
      var last := files[|files| - 1];
      FeedAllGrowth(l, files[..|files| - 1], merge);
      var before := FeedAll(l, files[..|files| - 1], merge);
      var s := Stamp(last.1, last.0, merge);
      if Apply(before.results, s).Ok? {
        ApplyShape(before.results, s);
      }
    }
  }

  /** An empty file list never settles the promise. */
  lemma EmptyNeverSettles(l: Load, merge: Patch)
    ensures Settle(0, FeedAll(l, [], merge)) == Pending
  {
  }

  /** Only the first record of a name is compared, so two records of the same name
      and the same kind can both be kept: a content type `A`, then two components `A`,
      leave three entries. */
  lemma DuplicateSurvives(a: Model, b: Model, c: Model)
    requires a.info.Some? && b.info.Some? && c.info.Some?
    requires a.info.value.name == Some("A") && b.info.value.name == Some("A") && c.info.value.name == Some("A")
    requires a.isComponent == Some(false) && b.isComponent == Some(true) && c.isComponent == Some(true)
    ensures var l := Feed(Feed(Feed(Load([], false), a), b), c);
      l == Load([a, b, c], false)
  {
    assert AllHaveInfo([a]);
    assert NameIndex([a], "A", 0) == 0;
    assert AllHaveInfo([a, b]);
    assert NameIndex([a, b], "A", 0) == 0;
    assert [a] + [b] == [a, b];
    assert [a, b] + [c] == [a, b, c];
  }
}
