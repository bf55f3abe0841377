/** Enumeration blocks (`strapiModelAttributeToEnum`): one TypeScript `enum` per
    attribute whose kind is exactly `enumeration`. */
module Enums {
  import opened Js
  import opened Text
  import opened Options
  import opened StrapiModel
  import opened Naming

  /** One member line: the value as the member's name and as its string value. */
  function EnumValueLine(e: string): (r: string)
    ensures StartsWith(r, "  ") && EndsWith(r, "\",")
  {
    var r := "  " + e + " = \"" + e + "\",";
    assert r == "  " + (e + " = \"" + e + "\",");
    AppendParts("  ", e + " = \"" + e + "\",");
    assert r == ("  " + e + " = \"" + e) + "\",";
    AppendParts("  " + e + " = \"" + e, "\",");
    r
  }

  function EnumValueLines(values: seq<string>): (r: seq<string>)
    ensures |r| == |values|
    ensures forall i :: 0 <= i < |values| ==> r[i] == EnumValueLine(values[i])
  {
    seq(|values|, i requires 0 <= i < |values| => EnumValueLine(values[i]))
  }

  /** Taking one more value adds its line at the end. */
  lemma EnumValueLinesSnoc(values: seq<string>, j: nat)
    requires j < |values|
    ensures EnumValueLines(values[..j + 1]) == EnumValueLines(values[..j]) + [EnumValueLine(values[j])]
  {
    assert values[..j + 1][..j] == values[..j];
  }

  function EnumHeader(c: Config, interfaceName: string, name: string): string {
    "export enum " + ToEnumName(c, name, interfaceName) + " {"
  }

  const EnumFooter := "}\n"

  /** The block of one attribute: empty unless the kind is `enumeration` (compared
      exactly, unlike the type mapping); then the header, one line per value in order,
      and the closing brace. An enumeration without values throws (`enum!.forEach`). */
  function EnumBlock(c: Config, interfaceName: string, name: string, a: Attribute): (r: Result<seq<string>>)
    ensures r.TypeError? <==> a.kind == Some("enumeration") && a.enumValues.None?
    ensures a.kind != Some("enumeration") ==> r == Ok([])
    ensures r.Ok? && a.kind == Some("enumeration") ==>
              var values := a.enumValues.value;
              |r.value| == |values| + 2 &&
              r.value[0] == EnumHeader(c, interfaceName, name) &&
              (forall i :: 0 <= i < |values| ==> r.value[i + 1] == EnumValueLine(values[i])) &&
              r.value[|values| + 1] == EnumFooter
  {
    if a.kind != Some("enumeration") then Ok([])
    else if a.enumValues.None? then TypeError
    else
      var members := EnumValueLines(a.enumValues.value);
      Bracketed(EnumHeader(c, interfaceName, name), members, EnumFooter);
      Ok([EnumHeader(c, interfaceName, name)] + members + [EnumFooter])
  }

  /** Where the parts of `[head] + middle + [last]` land. */
  lemma Bracketed(head: string, middle: seq<string>, last: string)
    ensures var r := [head] + middle + [last];
      |r| == |middle| + 2 && r[0] == head && r[|middle| + 1] == last &&
      forall i :: 0 <= i < |middle| ==> r[i + 1] == middle[i]
  {
  }

  /** The blocks of all attributes, in attribute order; the first failing attribute
      makes the whole call throw. */
  function EnumLines(c: Config, interfaceName: string, attrs: seq<(string, Attribute)>): (r: Result<seq<string>>)
    decreases |attrs|
  {
    if |attrs| == 0 then Ok([])
    else
      match EnumLines(c, interfaceName, attrs[..|attrs| - 1])
      case TypeError => TypeError
      case Ok(prefix) =>
        match EnumBlock(c, interfaceName, attrs[|attrs| - 1].0, attrs[|attrs| - 1].1)
        case TypeError => TypeError
        case Ok(block) => Ok(prefix + block)
  }

  /** An attribute that would make the enum listing throw. */
  predicate MissingValues(a: Attribute) {
    a.kind == Some("enumeration") && a.enumValues.None?
  }

  /** The listing throws exactly when some enumeration attribute has no values. */
  lemma {:induction false} EnumLinesError(c: Config, interfaceName: string, attrs: seq<(string, Attribute)>)
    ensures EnumLines(c, interfaceName, attrs).TypeError? <==>
            exists i :: 0 <= i < |attrs| && MissingValues(attrs[i].1)
    decreases |attrs|
  {
    if |attrs| > 0 {
      var init := attrs[..|attrs| - 1];
      EnumLinesError(c, interfaceName, init);
      assert forall i :: 0 <= i < |init| ==> init[i] == attrs[i];
    }
  }

  /** Whether a line opens an enum. */
  predicate IsHeader(line: string) {
    StartsWith(line, "export enum ")
  }

  function CountHeaders(lines: seq<string>): (n: nat)
    decreases |lines|
  {
    if |lines| == 0 then 0
    else CountHeaders(lines[..|lines| - 1]) + (if IsHeader(lines[|lines| - 1]) then 1 else 0)
  }

  function CountEnumerations(attrs: seq<(string, Attribute)>): (n: nat)
    decreases |attrs|
  {
    if |attrs| == 0 then 0
    else CountEnumerations(attrs[..|attrs| - 1]) + (if attrs[|attrs| - 1].1.kind == Some("enumeration") then 1 else 0)
  }

  lemma {:induction false} CountHeadersAppend(a: seq<string>, b: seq<string>)
    ensures CountHeaders(a + b) == CountHeaders(a) + CountHeaders(b)
    decreases |b|
  {
    if |b| == 0 {
      assert a + b == a;
    } else {
      CountHeadersAppend(a, b[..|b| - 1]);
      assert (a + b)[..|a + b| - 1] == a + b[..|b| - 1];
    }
  }

  /** A block opens exactly one enum, with its first line: no member line and no
      closing line looks like a header. */
  lemma {:induction false} BlockHeaders(c: Config, interfaceName: string, name: string, a: Attribute)
    requires EnumBlock(c, interfaceName, name, a).Ok?
    ensures CountHeaders(EnumBlock(c, interfaceName, name, a).value) ==
            (if a.kind == Some("enumeration") then 1 else 0)
  {
    if a.kind == Some("enumeration") {
      var values := a.enumValues.value;
      var h := EnumHeader(c, interfaceName, name);
      AppendParts("export enum ", ToEnumName(c, name, interfaceName) + " {");
      assert h == "export enum " + (ToEnumName(c, name, interfaceName) + " {");
      MemberLinesNoHeader(values);
      CountHeadersAppend([h], EnumValueLines(values));
      CountHeadersAppend([h] + EnumValueLines(values), [EnumFooter]);
      assert CountHeaders([h]) == 1 by {
        assert [h][..0] == [];
      }
      assert CountHeaders([EnumFooter]) == 0 by {
        assert [EnumFooter][..0] == [];
        assert EnumFooter[0] == '}';
      }
    }
  }

  lemma {:induction false} MemberLinesNoHeader(values: seq<string>)
    ensures CountHeaders(EnumValueLines(values)) == 0
    decreases |values|
  {
    if |values| > 0 {
      var init := values[..|values| - 1];
      MemberLinesNoHeader(init);
      assert EnumValueLines(values)[..|values| - 1] == EnumValueLines(init);
      var last := EnumValueLine(values[|values| - 1]);
      assert last[0] == ' ';
    }
  }

  /** The listing opens one enum per enumeration attribute. */
  lemma {:induction false} EnumLinesHeaders(c: Config, interfaceName: string, attrs: seq<(string, Attribute)>)
    requires EnumLines(c, interfaceName, attrs).Ok?
    ensures CountHeaders(EnumLines(c, interfaceName, attrs).value) == CountEnumerations(attrs)
    decreases |attrs|
  {
    if |attrs| > 0 {
      var init := attrs[..|attrs| - 1];
      var last := attrs[|attrs| - 1];
      EnumLinesHeaders(c, interfaceName, init);
      var prefix := EnumLines(c, interfaceName, init).value;
      var block := EnumBlock(c, interfaceName, last.0, last.1).value;
      CountHeadersAppend(prefix, block);
      BlockHeaders(c, interfaceName, last.0, last.1);
    }
  }
}
