/** The naming policy of the generator (the `util` object): default interface, enum,
    output-file and property names, and the "override first, default on a falsy
    answer" wrappers around them. */
module Naming {
  import opened Js
  import opened Text
  import opened Options

  /** `s.replace(/^./, c => c.toUpperCase())`. A line terminator, which `.` does not
      match, upper-cases to itself, so the first character is simply upper-cased. */
  function CapitalizeFirst(s: string): (r: string)
    ensures |r| == |s|
    ensures |s| > 0 ==> r[0] == Upper(s[0]) && r[1..] == s[1..]
  {
    if |s| == 0 then s else [Upper(s[0])] + s[1..]
  }

  /** Number of spaces `s` starts with. */
  function LeadingSpaces(s: string): (n: nat)
    ensures n <= |s|
    ensures forall i :: 0 <= i < n ==> s[i] == ' '
    ensures n < |s| ==> s[n] != ' '
    decreases |s|
  {
    if |s| > 0 && s[0] == ' ' then 1 + LeadingSpaces(s[1..]) else 0
  }

  /** `s.replace(/[ ]+./g, m => m.trimLeft().toUpperCase())`, scanning left to right.
      A run of spaces followed by a character the `.` accepts is replaced by that
      character upper-cased, or by nothing when `trimLeft` removes it too (a tab, say).
      When the run ends the string or stands before a line terminator, the regular
      expression backtracks: a run of two or more spaces then matches as a whole and
      is removed, a single space does not match and stays. */
  function CapitalizeWords(s: string): (r: string)
    decreases |s|
  {
    if |s| == 0 then ""
    else if s[0] != ' ' then [s[0]] + CapitalizeWords(s[1..])
    else
      var n := LeadingSpaces(s);
      if n < |s| && !IsLineTerminator(s[n]) then
        (if IsWhitespace(s[n]) then "" else [Upper(s[n])]) + CapitalizeWords(s[n + 1..])
      else if n >= 2 then CapitalizeWords(s[n..])
      else " " + CapitalizeWords(s[n..])
  }

  /** Every space left in `s` ends it or stands before a line terminator: no space
      separates two words any more. */
  predicate NoInnerSpace(s: string) {
    forall i :: 0 <= i < |s| && s[i] == ' ' ==> i + 1 == |s| || IsLineTerminator(s[i + 1])
  }

  /** Prepending space-free text keeps `NoInnerSpace`. */
  lemma PrependNoSpace(head: string, t: string)
    requires ' ' !in head && NoInnerSpace(t)
    ensures NoInnerSpace(head + t)
  {
    var r := head + t;
    forall i | 0 <= i < |r| && r[i] == ' ' ensures i + 1 == |r| || IsLineTerminator(r[i + 1]) {
      assert i >= |head| && r[i] == t[i - |head|];
    }
  }

  lemma {:induction false} CapitalizeWordsFacts(s: string)
    ensures NoInnerSpace(CapitalizeWords(s))
    decreases |s|
  {
    if |s| > 0 {
      if s[0] != ' ' {
        CapitalizeWordsFacts(s[1..]);
        PrependNoSpace([s[0]], CapitalizeWords(s[1..]));
      } else {
        var n := LeadingSpaces(s);
        if n < |s| && !IsLineTerminator(s[n]) {
          CapitalizeWordsFacts(s[n + 1..]);
          var head := if IsWhitespace(s[n]) then "" else [Upper(s[n])];
          PrependNoSpace(head, CapitalizeWords(s[n + 1..]));
        } else if n >= 2 {
          CapitalizeWordsFacts(s[n..]);
        } else {
          var u := s[n..];
          CapitalizeWordsFacts(u);
          var t := CapitalizeWords(u);
          assert |u| > 0 ==> t == [u[0]] + CapitalizeWords(u[1..]);
          var r := " " + t;
          forall i | 0 <= i < |r| && r[i] == ' ' ensures i + 1 == |r| || IsLineTerminator(r[i + 1]) {
            if i > 0 {
              assert r[i] == t[i - 1];
            }
          }
        }
      }
    }
  }

  lemma {:induction false} CapitalizeWordsNoSpace(s: string)
    requires ' ' !in s
    ensures CapitalizeWords(s) == s
    decreases |s|
  {
    if |s| > 0 {
      assert ' ' !in s[1..];
      CapitalizeWordsNoSpace(s[1..]);
      assert s == [s[0]] + s[1..];
    }
  }

  lemma {:induction false} RemoveSlashKeepsNoInnerSpace(s: string)
    requires NoInnerSpace(s)
    ensures NoInnerSpace(RemoveAll(s, '/'))
    ensures |s| > 0 && s[0] != '/' ==> RemoveAll(s, '/') == [s[0]] + RemoveAll(s[1..], '/')
    decreases |s|
  {
    if |s| > 0 {
      var rest := s[1..];
      assert NoInnerSpace(rest) by {
        forall i | 0 <= i < |rest| && rest[i] == ' ' ensures i + 1 == |rest| || IsLineTerminator(rest[i + 1]) {
          assert s[i + 1] == ' ';
        }
      }
      RemoveSlashKeepsNoInnerSpace(rest);
      var t := RemoveAll(rest, '/');
      if s[0] != '/' {
        var r := [s[0]] + t;
        forall i | 0 <= i < |r| && r[i] == ' ' ensures i + 1 == |r| || IsLineTerminator(r[i + 1]) {
          if i == 0 {
            if |rest| > 0 {
              assert IsLineTerminator(rest[0]);
              assert t == [rest[0]] + RemoveAll(rest[1..], '/');
            }
          } else {
            assert r[i] == t[i - 1];
          }
        }
      }
    }
  }

  const UnknownName := "unknown"

  /** `defaultToInterfaceName`: capitalise the first letter and every letter after a
      run of spaces (dropping the spaces), strip every `/`; an empty name gives
      `"unknown"`. */
  function DefaultInterfaceName(name: string): (r: string)
    ensures name == "" ==> r == UnknownName
    ensures '/' !in r
    ensures NoInnerSpace(r)
    ensures name != "" && name[0] != ' ' && name[0] != '/' ==> |r| > 0 && r[0] == Upper(name[0])
    ensures name != "" && ' ' !in name && '/' !in name ==> r == CapitalizeFirst(name)
  {
    if name == "" then UnknownName
    else
      var words := CapitalizeWords(CapitalizeFirst(name));
      InterfaceNameSteps(name);
      RemoveAll(words, '/')
  }

  lemma InterfaceNameSteps(name: string)
    requires name != ""
    ensures var words := CapitalizeWords(CapitalizeFirst(name));
      NoInnerSpace(RemoveAll(words, '/')) &&
      (name[0] != ' ' && name[0] != '/' ==> |RemoveAll(words, '/')| > 0 && RemoveAll(words, '/')[0] == Upper(name[0])) &&
      (' ' !in name && '/' !in name ==> RemoveAll(words, '/') == CapitalizeFirst(name))
  {
    var first := CapitalizeFirst(name);
    var words := CapitalizeWords(first);
    CapitalizeWordsFacts(first);
    RemoveSlashKeepsNoInnerSpace(words);
    if ' ' !in name {
      assert forall i :: 0 <= i < |first| ==> first[i] != ' ';
      assert ' ' !in first;
      CapitalizeWordsNoSpace(first);
    }
    if '/' !in name && ' ' !in name {
      assert forall i :: 0 <= i < |first| ==> first[i] != '/';
      assert '/' !in words;
    }
  }

  /** Unlike the other naming functions, the interface name of a non-empty name can be
      empty: slashes and space runs are removed outright. */
  lemma SlashOnlyNameIsEmpty()
    ensures DefaultInterfaceName("/") == ""
    ensures DefaultInterfaceName("  ") == ""
  {
    assert CapitalizeFirst("  ") == "  ";
    assert LeadingSpaces("  ") == 2;
    assert CapitalizeWords("  ") == "";
  }

  /** A run of `k` spaces. */
  function Spaces(k: nat): (r: string)
    ensures |r| == k && forall i :: 0 <= i < k ==> r[i] == ' '
  {
    seq(k, i => ' ')
  }

  /** A run of `k` spaces before a non-space is counted in full. */
  lemma {:induction false} LeadingSpacesRun(k: nat, t: string)
    requires t != "" && t[0] != ' '
    ensures LeadingSpaces(Spaces(k) + t) == k
    decreases k
  {
    if k > 0 {
      assert (Spaces(k) + t)[1..] == Spaces(k - 1) + t;
      LeadingSpacesRun(k - 1, t);
    } else {
      assert Spaces(k) + t == t;
    }
  }

  /** Text without spaces passes through the word capitalisation unchanged. */
  lemma {:induction false} CapitalizeWordsPrefix(w: string, t: string)
    requires ' ' !in w
    ensures CapitalizeWords(w + t) == w + CapitalizeWords(t)
    decreases |w|
  {
    if |w| == 0 {
      assert w + t == t;
    } else {
      assert (w + t)[0] == w[0] && (w + t)[1..] == w[1..] + t;
      assert ' ' !in w[1..];
      CapitalizeWordsPrefix(w[1..], t);
      assert w == [w[0]] + w[1..];
    }
  }

  /** A run of one or more spaces and the non-blank character after it become that
      character upper-cased. */
  lemma CapitalizeWordsRun(k: nat, t: string)
    requires k >= 1 && t != "" && !IsWhitespace(t[0])
    ensures CapitalizeWords(Spaces(k) + t) == [Upper(t[0])] + CapitalizeWords(t[1..])
  {
    var u := Spaces(k) + t;
    LeadingSpacesRun(k, t);
    assert u[0] == ' ' && u[k] == t[0] && !IsLineTerminator(u[k]);
    assert u[k + 1..] == t[1..];
  }

  /** The step the regular expression `/[ ]+./g` takes: after a space-free prefix, a
      run of one or more spaces and the character after it become that character
      upper-cased, and the scan goes on after it. */
  lemma CapitalizeWordsStep(w: string, k: nat, t: string)
    requires ' ' !in w && k >= 1 && t != "" && !IsWhitespace(t[0])
    ensures CapitalizeWords(w + Spaces(k) + t) == w + [Upper(t[0])] + CapitalizeWords(t[1..])
  {
    var u := Spaces(k) + t;
    assert w + Spaces(k) + t == w + u;
    CapitalizeWordsPrefix(w, u);
    CapitalizeWordsRun(k, t);
  }

  /** Capitalising the first letter touches only the first word. */
  lemma CapitalizeFirstConcat(w: string, rest: string)
    requires w != ""
    ensures CapitalizeFirst(w + rest) == CapitalizeFirst(w) + rest
  {
    assert (w + rest)[0] == w[0] && (w + rest)[1..] == w[1..] + rest;
  }

  /** Upper-casing the first letter neither makes a space nor a slash. */
  lemma CapitalizeFirstKeepsAbsent(w: string, c: char)
    requires c !in w && !('A' <= c <= 'Z')
    ensures c !in CapitalizeFirst(w)
  {
    var r := CapitalizeFirst(w);
    forall i | 0 <= i < |r| ensures r[i] != c {
      if i > 0 {
        assert r[i] == w[i];
      }
    }
  }

  /** The word capitalisation of two space-free words separated by a run of spaces,
      the first already capitalised. */
  lemma TwoWordsCapitalized(c1: string, k: nat, w2: string)
    requires ' ' !in c1 && ' ' !in w2 && w2 != "" && k >= 1 && !IsWhitespace(w2[0])
    ensures CapitalizeWords(c1 + Spaces(k) + w2) == c1 + CapitalizeFirst(w2)
  {
    var rest := w2[1..];
    assert CapitalizeWords(rest) == rest by {
      assert ' ' !in rest;
      CapitalizeWordsNoSpace(rest);
    }
    assert c1 + [Upper(w2[0])] + rest == c1 + CapitalizeFirst(w2);
    CapitalizeWordsStep(c1, k, w2);
  }

  /** Two space-free words separated by a run of spaces give the two words, each
      with its first letter upper-cased, run together. */
  lemma InterfaceNameOfTwoWords(w1: string, k: nat, w2: string)
    requires w1 != "" && w2 != "" && k >= 1 && !IsWhitespace(w2[0])
    requires ' ' !in w1 + w2 && '/' !in w1 + w2
    ensures DefaultInterfaceName(w1 + Spaces(k) + w2) == CapitalizeFirst(w1) + CapitalizeFirst(w2)
  {
    assert ' ' !in w1 && '/' !in w1 && ' ' !in w2 && '/' !in w2 by {
      assert forall x :: x in w1 || x in w2 ==> x in w1 + w2;
    }
    var name := w1 + Spaces(k) + w2;
    var c1 := CapitalizeFirst(w1);
    var c2 := CapitalizeFirst(w2);
    assert CapitalizeFirst(name) == c1 + Spaces(k) + w2 by {
      assert name == w1 + (Spaces(k) + w2);
      CapitalizeFirstConcat(w1, Spaces(k) + w2);
      assert c1 + (Spaces(k) + w2) == c1 + Spaces(k) + w2;
    }
    assert CapitalizeWords(CapitalizeFirst(name)) == c1 + c2 by {
      CapitalizeFirstKeepsAbsent(w1, ' ');
      TwoWordsCapitalized(c1, k, w2);
    }
    assert '/' !in c1 + c2 by {
      CapitalizeFirstKeepsAbsent(w1, '/');
      CapitalizeFirstKeepsAbsent(w2, '/');
    }
  }

  /** The folder name before the last path segment, as
      `filename.split("/").slice(-2)[0]` takes it. */
  function ParentSegment(filename: string): (r: string)
    ensures var segs := Split(filename, '/');
      (|segs| >= 2 ==> r == segs[|segs| - 2]) && (|segs| == 1 ==> r == filename)
  {
    var segs := Split(filename, '/');
    if |segs| == 1 then SplitSingleton(filename); segs[0]
    else segs[|segs| - 2]
  }

  lemma SplitSingleton(filename: string)
    requires |Split(filename, '/')| == 1
    ensures Split(filename, '/')[0] == filename
  {
    JoinSplit(filename, '/');
  }

  /** `toInterfaceName`: `"unknown"` for a missing or empty name; for a file under a
      `/components/` directory the parent folder's name comes first. The
      `interfaceName` override is never consulted. */
  function ToInterfaceName(name: Option<string>, filename: string): (r: string)
    ensures !Truthy(name) ==> r == UnknownName
    ensures Truthy(name) && Contains(filename, "/components/") ==>
      r == DefaultInterfaceName(ParentSegment(filename)) + DefaultInterfaceName(name.value)
    ensures Truthy(name) && !Contains(filename, "/components/") ==>
      r == DefaultInterfaceName(name.value)
  {
    if !Truthy(name) then UnknownName
    else if Contains(filename, "/components/") then
      DefaultInterfaceName(ParentSegment(filename)) + DefaultInterfaceName(name.value)
    else DefaultInterfaceName(name.value)
  }

  /** `defaultToEnumName`: the interface name followed by the capitalised field name;
      `"any"` for an empty field name. */
  function DefaultEnumName(name: string, interfaceName: string): (r: string)
    ensures name == "" ==> r == "any"
    ensures name != "" ==> r == interfaceName + CapitalizeFirst(name) && |r| == |interfaceName| + |name|
    ensures r != ""
  {
    if name == "" then "any" else interfaceName + CapitalizeFirst(name)
  }

  /** `toEnumName`: the `enumName` callback first, the default when it is absent or
      answers a falsy value. */
  function ToEnumName(c: Config, name: string, interfaceName: string): (r: string)
    ensures c.enumName.Some? && Truthy(c.enumName.value(name, interfaceName)) ==>
      r == c.enumName.value(name, interfaceName).value
    ensures c.enumName.None? || !Truthy(c.enumName.value(name, interfaceName)) ==>
      r == DefaultEnumName(name, interfaceName)
    ensures r != ""
  {
    match c.enumName
    case None => DefaultEnumName(name, interfaceName)
    case Some(f) => OrElse(f(name, interfaceName), DefaultEnumName(name, interfaceName))
  }

  /** `defaultOutputFileName`: a component's model name with its first `.` turned into
      a path separator, its case kept; any other model name lower-cased, twice over in
      nested mode. */
  function DefaultOutputFileName(modelName: string, isComponent: bool, nested: bool): (r: string)
    ensures isComponent ==> r == ReplaceFirst(modelName, '.', "/")
    ensures !isComponent && !nested ==> r == LowerStr(modelName)
    ensures !isComponent && nested ==> r == LowerStr(modelName) + "/" + LowerStr(modelName)
  {
    if isComponent then ReplaceFirst(modelName, '.', "/")
    else if nested then LowerStr(modelName) + "/" + LowerStr(modelName)
    else LowerStr(modelName)
  }

  /** A component key `folder.name` is written to `folder/name`, case kept. */
  lemma {:induction false} ComponentOutputPath(folder: string, name: string, nested: bool)
    requires '.' !in folder
    ensures DefaultOutputFileName(folder + "." + name, true, nested) == folder + "/" + name
    decreases |folder|
  {
    if |folder| == 0 {
      assert folder + "." + name == "." + name;
      assert ("." + name)[1..] == name;
    } else {
      ComponentOutputPath(folder[1..], name, nested);
      assert (folder + "." + name)[1..] == folder[1..] + "." + name;
      assert folder == [folder[0]] + folder[1..];
    }
  }

  /** A top-level model in nested mode goes to a folder of its own name. */
  lemma NestedOutputPath(modelName: string)
    requires '/' !in modelName
    ensures Split(DefaultOutputFileName(modelName, false, true), '/') == [LowerStr(modelName), LowerStr(modelName)]
  {
    var l := LowerStr(modelName);
    assert '/' !in l by {
      forall i | 0 <= i < |l| ensures l[i] != '/' {
        assert l[i] == Lower(modelName[i]);
      }
    }
    SplitJoin([l, l], '/');
    assert Join([l, l], "/") == l + "/" + l;
  }

  /** `toOutputFileName`: the `outputFileName` callback (given the interface name and
      the source file name) first, the default on a falsy answer. */
  function ToOutputFileName(c: Config, modelName: string, isComponent: Option<bool>,
                            interfaceName: string, filename: string): (r: string)
    ensures c.outputFileName.Some? && Truthy(c.outputFileName.value(interfaceName, filename)) ==>
      r == c.outputFileName.value(interfaceName, filename).value
    ensures c.outputFileName.None? || !Truthy(c.outputFileName.value(interfaceName, filename)) ==>
      r == DefaultOutputFileName(modelName, IsTrue(isComponent), c.nested)
  {
    var fallback := DefaultOutputFileName(modelName, IsTrue(isComponent), c.nested);
    match c.outputFileName
    case None => fallback
    case Some(f) => OrElse(f(interfaceName, filename), fallback)
  }

  /** `toPropertyName`: the `fieldName` callback first; by default the field name
      itself. */
  function ToPropertyName(c: Config, fieldName: string, interfaceName: string): (r: string)
    ensures c.fieldName.Some? && Truthy(c.fieldName.value(fieldName, interfaceName)) ==>
      r == c.fieldName.value(fieldName, interfaceName).value
    ensures c.fieldName.None? || !Truthy(c.fieldName.value(fieldName, interfaceName)) ==>
      r == fieldName
  {
    match c.fieldName
    case None => fieldName
    case Some(f) => OrElse(f(fieldName, interfaceName), fieldName)
  }
}
