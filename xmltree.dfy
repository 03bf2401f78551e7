/** An XML element tree, the part of `System.Xml.Linq` the description reader walks (element names without
    namespaces, attributes, child elements), and the text form the description writer uses for it. */
module XmlTrees {
  import opened Wrappers

  datatype Attribute = Attribute(name: string, value: string)

  datatype Element = Element(name: string, attributes: seq<Attribute>, children: seq<Element>)

  /** The index of the first attribute called `name`, -1 when there is none. */
  function IndexOf(attributes: seq<Attribute>, name: string): (r: int)
    ensures -1 <= r < |attributes|
    ensures r == -1 <==> forall i :: 0 <= i < |attributes| ==> attributes[i].name != name
    ensures r != -1 ==> attributes[r].name == name && forall j :: 0 <= j < r ==> attributes[j].name != name
  {
    if |attributes| == 0 then -1
    else if attributes[0].name == name then 0
    else
      var r := IndexOf(attributes[1..], name);
      if r == -1 then -1 else r + 1
  }

  /** The value of the first attribute called `name`, None for a missing one. */
  function Lookup(attributes: seq<Attribute>, name: string): (r: Option<string>)
    ensures r.None? <==> forall i :: 0 <= i < |attributes| ==> attributes[i].name != name
  {
    var i := IndexOf(attributes, name);
    if i == -1 then None else Some(attributes[i].value)
  }

  /** `XElement.Attribute(name)`, with None standing for null. */
  function Attr(e: Element, name: string): Option<string>
  {
    Lookup(e.attributes, name)
  }

  /** ` name="value"` for each attribute, in order. Values are written as they are, without escaping. */
  function AttributesText(attributes: seq<Attribute>): string
  {
    if |attributes| == 0 then "" else AttributesText(attributes[..|attributes| - 1]) + AttributeText(attributes[|attributes| - 1])
  }

  function AttributeText(a: Attribute): string
  {
    " " + a.name + "=\"" + a.value + "\""
  }

  /** One element per line group: a childless element with attributes as `<name .../>`, any other element
      between an opening and a closing tag, each tag followed by a line break. */
  function Render(e: Element): string
    decreases e, 1
  {
    if e.children == [] && e.attributes != [] then "<" + e.name + AttributesText(e.attributes) + "/>\n"
    else "<" + e.name + AttributesText(e.attributes) + ">\n" + RenderAll(e.children) + "</" + e.name + ">\n"
  }

  function RenderAll(es: seq<Element>): string
    decreases es, 0
  {
    if |es| == 0 then "" else RenderAll(es[..|es| - 1]) + Render(es[|es| - 1])
  }

  /** A whole document: the XML declaration, then the root element, whose closing tag ends the text. */
  function Document(root: Element): string
  {
    "<?xml version='1.0'?>\n" + "<" + root.name + AttributesText(root.attributes) + ">\n" + RenderAll(root.children) +
    "</" + root.name + ">"
  }

  /** The rendering of a list is the concatenation of the renderings of its parts. */
  lemma {:induction false} RenderAllAppend(a: seq<Element>, b: seq<Element>)
    ensures RenderAll(a + b) == RenderAll(a) + RenderAll(b)
    decreases |b|
  {
    if |b| > 0 {
      var last := b[|b| - 1];
      assert (a + b)[..|a + b| - 1] == a + b[..|b| - 1];
      RenderAllAppend(a, b[..|b| - 1]);
    } else {
      assert a + b == a;
    }
  }

  /** Looking up a name in a concatenation finds the first list's attribute, else the second's. */
  lemma {:induction false} LookupAppend(a: seq<Attribute>, b: seq<Attribute>, name: string)
    ensures Lookup(a + b, name) == if Lookup(a, name).Some? then Lookup(a, name) else Lookup(b, name)
    decreases |a|
  {
    if |a| > 0 {
      assert (a + b)[1..] == a[1..] + b;
      LookupAppend(a[1..], b, name);
      assert Lookup(a, name) == if a[0].name == name then Some(a[0].value) else Lookup(a[1..], name);
    } else {
      assert a + b == b;
    }
  }

  lemma LookupCons(a: Attribute, rest: seq<Attribute>, name: string)
    ensures Lookup([a] + rest, name) == if a.name == name then Some(a.value) else Lookup(rest, name)
  {
    assert ([a] + rest)[1..] == rest;
  }

  /** The lookup in a list of four attributes, spelled out. */
  lemma LookupFour(a: Attribute, b: Attribute, c: Attribute, d: Attribute, name: string)
    ensures Lookup([a, b, c, d], name) ==
            if a.name == name then Some(a.value) else if b.name == name then Some(b.value)
            else if c.name == name then Some(c.value) else if d.name == name then Some(d.value) else None
  {
    assert [a, b, c, d] == [a] + ([b] + ([c] + [d]));
    LookupCons(a, [b] + ([c] + [d]), name);
    LookupCons(b, [c] + [d], name);
    LookupCons(c, [d], name);
    LookupCons(d, [], name);
  }

  /** Writing one more attribute appends its text. */
  lemma AttributesSnoc(attributes: seq<Attribute>, a: Attribute)
    ensures AttributesText(attributes + [a]) == AttributesText(attributes) + AttributeText(a)
  {
    assert (attributes + [a])[..|attributes|] == attributes;
  }

  /** The text of four attributes is the text of each in turn. */
  lemma AttributesFour(a: Attribute, b: Attribute, c: Attribute, d: Attribute)
    ensures AttributesText([a, b, c, d]) == AttributeText(a) + AttributeText(b) + AttributeText(c) + AttributeText(d)
  {
    assert [a][..0] == [];
    assert AttributesText([a]) == AttributeText(a);
    assert [a, b][..1] == [a];
    assert AttributesText([a, b]) == AttributeText(a) + AttributeText(b);
    assert [a, b, c][..2] == [a, b];
    assert AttributesText([a, b, c]) == AttributeText(a) + AttributeText(b) + AttributeText(c);
    assert [a, b, c, d][..3] == [a, b, c];
  }

  /** Rendering one more element of a list appends its text. */
  lemma RenderAllSnoc(es: seq<Element>, n: nat)
    requires n < |es|
    ensures RenderAll(es[..n + 1]) == RenderAll(es[..n]) + Render(es[n])
  {
    assert es[..n + 1][..n] == es[..n];
  }
}
