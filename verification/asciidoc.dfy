/** The documentation printer (src/asciidocprinter.cpp): one AsciiDoc
    section per built-in module, with a parameter table and a usage
    example. Case mapping is modelled on ASCII letters. */
module Asciidoc {
  import opened Text

  function ToUpper(c: char): (u: char)
    ensures !('a' <= u <= 'z')
  {
    if 'a' <= c <= 'z' then (c as int - 32) as char else c
  }

  function ToLower(c: char): (l: char)
    ensures !('A' <= l <= 'Z')
  {
    if 'A' <= c <= 'Z' then (c as int + 32) as char else c
  }

  /** capitalize: the first character upper-cased, the rest lower-cased.
      The source indexes the first character, so the name must not be
      empty. */
  function Capitalize(s: string): (r: string)
    requires |s| > 0
    ensures |r| == |s|
    ensures r[0] == ToUpper(s[0]) && !('a' <= r[0] <= 'z')
    ensures forall i :: 0 < i < |s| ==> r[i] == ToLower(s[i]) && !('A' <= r[i] <= 'Z')
  {
    [ToUpper(s[0])] + LowerAll(s[1..])
  }

  function LowerAll(s: string): (r: string)
    ensures |r| == |s| && forall i :: 0 <= i < |s| ==> r[i] == ToLower(s[i])
  {
    if |s| == 0 then "" else [ToLower(s[0])] + LowerAll(s[1..])
  }

  /** Capitalizing twice is capitalizing once. */
  lemma CapitalizeIdempotent(s: string)
    requires |s| > 0
    ensures Capitalize(Capitalize(s)) == Capitalize(s)
  {
    var r := Capitalize(s);
    var rr := Capitalize(r);
    assert |rr| == |r|;
    forall i | 0 <= i < |r| ensures rr[i] == r[i] {
    }
  }

  /** A module parameter as documented: its name and its description. */
  datatype ParamDoc = ParamDoc(name: string, description: string)

  function Names(params: seq<ParamDoc>): (ns: seq<string>)
    ensures |ns| == |params| && forall i :: 0 <= i < |params| ==> ns[i] == params[i].name
  {
    if |params| == 0 then [] else [params[0].name] + Names(params[1..])
  }

  /** One table row per parameter. */
  function Row(p: ParamDoc): string
  {
    "|" + p.name + "|" + p.description + "\n"
  }

  function Rows(params: seq<ParamDoc>): string
  {
    if |params| == 0 then "" else Row(params[0]) + Rows(params[1..])
  }

  /** The title block every module gets. */
  function Header(name: string, description: string): (h: string)
    requires |name| > 0
  {
    Capitalize(name) + ("\n" + (Repeat('^', |name|) + ("\n\n" + (description + "\n\n"))))
  }

  /** The example line: the name applied to the parameter names, with the
      comma written before every name but the first. */
  function ExampleCall(name: string, params: seq<ParamDoc>): (e: string)
    ensures e == name + "(" + Join(Names(params), ",") + ");\n"
  {
    SeparatedLoopIsJoin(Names(params), ",");
    name + "(" + FlaggedLoop(Names(params), ",", true) + ");\n"
  }

  function ParameterSections(name: string, params: seq<ParamDoc>): string
  {
    "Parameters\n" + "++++++++++\n" + "|=========\n"
    + Rows(params)
    + "|=========\n\n"
    + "Examples\n" + "++++++++\n" + "[source,csharp]\n" + "---------------\n"
    + name + "();\n"
    + ExampleCall(name, params)
    + "---------------\n\n"
  }

  /** visit(Module): the header, then the parameter and example sections
      only when the module has parameters. */
  function Document(name: string, description: string, params: seq<ParamDoc>): (doc: string)
    requires |name| > 0
    ensures IsPrefix(Header(name, description), doc)
    ensures |params| == 0 <==> doc == Header(name, description)
    ensures |params| > 0 ==> doc[|Header(name, description)|..] == ParameterSections(name, params)
  {
    var h := Header(name, description);
    if |params| == 0 then h
    else
      PrefixOfConcat(h, ParameterSections(name, params));
      h + ParameterSections(name, params)
  }

  /** The underline below the title is '^' once per character of the
      name, so it is exactly as wide as the title. */
  lemma UnderlineMatchesTitle(name: string, description: string)
    requires |name| > 0
    ensures var h := Header(name, description);
      h[|name|] == '\n' && h[2 * |name| + 1] == '\n'
      && h[|name| + 1..2 * |name| + 1] == Repeat('^', |name|) && h[..|name|] == Capitalize(name)
  {
    var cap, u := Capitalize(name), Repeat('^', |name|);
    var h := Header(name, description);
    TitleBlock(h, cap, u, description + "\n\n", name);
  }

  /** A title, a newline, an underline as wide as the title and a blank
      line: each part sits at its offset, the title and the underline
      being as wide as the name. */
  lemma TitleBlock(h: string, cap: string, u: string, rest: string, name: string)
    requires |cap| == |name| && |u| == |name|
    requires h == cap + ("\n" + (u + ("\n\n" + rest)))
    ensures h[|name|] == '\n' && h[2 * |name| + 1] == '\n'
            && h[|name| + 1..2 * |name| + 1] == u && h[..|name|] == cap
  {
    var tail := "\n\n" + rest;
    Slices(cap, "\n" + (u + tail));
    Slices("\n", u + tail);
    Slices(u, tail);
    assert h[|name| + 1..][..|name|] == u;
  }

  lemma Slices(a: string, b: string)
    ensures (a + b)[..|a|] == a && (a + b)[|a|..] == b
  {
  }

  /** The table holds one row per parameter, in order: the rows read
      back give the parameters. */
  lemma {:induction false} RowsRoundTrip(params: seq<ParamDoc>)
    requires forall i :: 0 <= i < |params| ==> '|' !in params[i].name && '\n' !in params[i].description
    ensures ReadRows(Rows(params)) == params
    decreases |params|
  {
    if |params| > 0 {
      var p := params[0];
      var rest := Rows(params[1..]);
      RowsRoundTrip(params[1..]);
      ReadRowStep(p, rest);
    }
  }

  /** The position of the first occurrence of a character, or |s|. */
  function IndexOf(s: string, c: char): (k: nat)
    ensures k <= |s| && c !in s[..k] && (k < |s| ==> s[k] == c)
  {
    if |s| == 0 then 0 else if s[0] == c then 0 else 1 + IndexOf(s[1..], c)
  }

  lemma {:induction false} IndexOfPrefix(a: string, c: char, b: string)
    requires c !in a
    ensures IndexOf(a + [c] + b, c) == |a|
  {
    if |a| == 0 {
      assert a + [c] + b == [c] + b;
    } else {
      assert (a + [c] + b)[1..] == a[1..] + [c] + b;
      IndexOfPrefix(a[1..], c, b);
    }
  }

  /** Reads table rows "|name|description\n" back. */
  function ReadRows(s: string): seq<ParamDoc>
    decreases |s|
  {
    if |s| == 0 || s[0] != '|' then []
    else
      var t := s[1..];
      var k := IndexOf(t, '|');
      if k == |t| then []
      else
        var u := t[k + 1..];
        var m := IndexOf(u, '\n');
        if m == |u| then []
        else [ParamDoc(t[..k], u[..m])] + ReadRows(u[m + 1..])
  }

  lemma ReadRowStep(p: ParamDoc, rest: string)
    requires '|' !in p.name && '\n' !in p.description
    ensures ReadRows(Row(p) + rest) == [p] + ReadRows(rest)
  {
    var x, d := p.name, p.description;
    var u := d + ['\n'] + rest;
    var t := x + ['|'] + u;
    assert Row(p) + rest == ['|'] + t;
    ReadRowsUnfold(x, d, rest);
  }

  lemma ReadRowsUnfold(x: string, d: string, rest: string)
    requires '|' !in x && '\n' !in d
    ensures ReadRows(['|'] + (x + ['|'] + (d + ['\n'] + rest))) == [ParamDoc(x, d)] + ReadRows(rest)
  {
    var u := d + ['\n'] + rest;
    var t := x + ['|'] + u;
    var s := ['|'] + t;
    assert s[1..] == t;
    IndexOfPrefix(x, '|', u);
    assert t[..|x|] == x && t[|x| + 1..] == u;
    IndexOfPrefix(d, '\n', rest);
    assert u[..|d|] == d && u[|d| + 1..] == rest;
  }
}
