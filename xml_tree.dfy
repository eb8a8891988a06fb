/**
 * The part of LINQ to XML (`XElement`, `XAttribute`) that the logging core builds
 * and walks: element trees with ordered attributes, and the two traversals the
 * core uses, `Value` (all descendant text in document order) and
 * `DescendantsAndSelf` (elements in pre-order).
 *
 * An element's text content is kept in front of its child elements; the trees
 * the core constructs never mix the two in one element, so nothing is lost.
 */
module XmlTree {
  import opened Wrappers

  datatype XAttribute = XAttribute(name: string, value: string)

  datatype XElement = XElement(name: string, attributes: seq<XAttribute>, text: string, children: seq<XElement>)

  /** `new XElement(name, text)`: an element holding only text. */
  function Leaf(name: string, text: string): XElement {
    XElement(name, [], text, [])
  }

  /** `element.HasAttributes`. */
  predicate HasAttributes(e: XElement) {
    |e.attributes| > 0
  }

  /** `element.Value`: the concatenated text of the element and all its descendants, in document order. */
  function Value(e: XElement): string {
    e.text + ValueAll(e.children)
  }

  function ValueAll(es: seq<XElement>): string {
    if es == [] then "" else Value(es[0]) + ValueAll(es[1..])
  }

  /** `element.DescendantsAndSelf()`: the element followed by its descendants, in pre-order. */
  function DescendantsAndSelf(e: XElement): (r: seq<XElement>)
    ensures |r| >= 1 && r[0] == e
  {
    [e] + DescendantsAll(e.children)
  }

  function DescendantsAll(es: seq<XElement>): seq<XElement> {
    if es == [] then [] else DescendantsAndSelf(es[0]) + DescendantsAll(es[1..])
  }

  /** The number of elements in a tree, counted independently of any traversal. */
  function Size(e: XElement): nat {
    1 + SizeAll(e.children)
  }

  function SizeAll(es: seq<XElement>): nat {
    if es == [] then 0 else Size(es[0]) + SizeAll(es[1..])
  }

  /** The text slots of a sequence of elements, joined in order. */
  function Texts(es: seq<XElement>): string {
    if es == [] then "" else es[0].text + Texts(es[1..])
  }

  lemma {:induction false} TextsConcat(a: seq<XElement>, b: seq<XElement>)
    ensures Texts(a + b) == Texts(a) + Texts(b)
  {
    if a != [] {
      assert (a + b)[1..] == a[1..] + b;
      TextsConcat(a[1..], b);
    } else {
      assert a + b == b;
    }
  }

  /**
   * `Value` is the texts of the pre-order walk, concatenated: the recursive
   * definition of `Value` and the traversal agree.
   */
  lemma {:induction false} ValueIsPreorderText(e: XElement)
    ensures Value(e) == Texts(DescendantsAndSelf(e))
  {
    ValueAllIsPreorderText(e.children);
    TextsConcat([e], DescendantsAll(e.children));
  }

  lemma {:induction false} ValueAllIsPreorderText(es: seq<XElement>)
    ensures ValueAll(es) == Texts(DescendantsAll(es))
  {
    if es != [] {
      ValueIsPreorderText(es[0]);
      ValueAllIsPreorderText(es[1..]);
      TextsConcat(DescendantsAndSelf(es[0]), DescendantsAll(es[1..]));
    }
  }

  /** The pre-order walk visits every element exactly once: its length is the tree's size. */
  lemma {:induction false} DescendantsCount(e: XElement)
    ensures |DescendantsAndSelf(e)| == Size(e)
  {
    DescendantsAllCount(e.children);
  }

  lemma {:induction false} DescendantsAllCount(es: seq<XElement>)
    ensures |DescendantsAll(es)| == SizeAll(es)
  {
    if es != [] {
      DescendantsCount(es[0]);
      DescendantsAllCount(es[1..]);
    }
  }

  /** The children of `e` whose name is `name`, in document order (`element.Elements(name)`). */
  function ChildrenNamed(e: XElement, name: string): seq<XElement> {
    Named(e.children, name)
  }

  function Named(es: seq<XElement>, name: string): (r: seq<XElement>)
    ensures |r| <= |es|
    ensures forall k :: 0 <= k < |r| ==> r[k].name == name && r[k] in es
  {
    if es == [] then [] else (if es[0].name == name then [es[0]] else []) + Named(es[1..], name)
  }

  lemma {:induction false} NamedConcat(a: seq<XElement>, b: seq<XElement>, name: string)
    ensures Named(a + b, name) == Named(a, name) + Named(b, name)
  {
    if a != [] {
      assert (a + b)[1..] == a[1..] + b;
      NamedConcat(a[1..], b, name);
    } else {
      assert a + b == b;
    }
  }

  /** The value of the first attribute called `name` (`element.Attribute(name)?.Value`). */
  function AttributeValue(e: XElement, name: string): (r: Option<string>)
    ensures r.Some? <==> exists k :: 0 <= k < |e.attributes| && e.attributes[k].name == name
  {
    Lookup(e.attributes, name)
  }

  function Lookup(attrs: seq<XAttribute>, name: string): (r: Option<string>)
    ensures r.Some? <==> exists k :: 0 <= k < |attrs| && attrs[k].name == name
    ensures r.Some? ==> exists k :: 0 <= k < |attrs| && attrs[k].name == name && attrs[k].value == r.value
  {
    if attrs == [] then None
    else if attrs[0].name == name then Some(attrs[0].value)
    else
      var r := Lookup(attrs[1..], name);
      assert forall k :: 1 <= k < |attrs| ==> attrs[k] == attrs[1..][k - 1];
      r
  }
}
