/**
 * `ConvertXmlToPlainText`: the one-line text form of a log entry, written when
 * plain-text output is configured. Every element of the entry, in pre-order,
 * contributes items `name = value`; the items are joined by the text separator.
 */
module TextLines {
  import opened Text
  import opened XmlTree

  function AttributeItem(a: XAttribute): (r: string)
    ensures |r| >= 3
  {
    a.name + " = " + a.value
  }

  function AttributeItems(attrs: seq<XAttribute>): (r: seq<string>)
    ensures |r| == |attrs|
  {
    if attrs == [] then [] else AttributeItems(attrs[..|attrs| - 1]) + [AttributeItem(attrs[|attrs| - 1])]
  }

  /** The item of an element without attributes: its name and its whole text, line breaks flattened. */
  function ValueItem(e: XElement): (r: string)
    ensures |r| >= 3
  {
    e.name + " = " + ReplaceCrLf(Value(e))
  }

  /**
   * What one element contributes: one item per attribute when it has attributes
   * (its text is then not shown), otherwise one item with its text.
   */
  function ElementItems(e: XElement): (r: seq<string>)
    ensures |r| == (if HasAttributes(e) then |e.attributes| else 1)
  {
    if HasAttributes(e) then AttributeItems(e.attributes) else [ValueItem(e)]
  }

  /** The items of a sequence of elements, in order. */
  function Items(es: seq<XElement>): (r: seq<string>)
    ensures r == [] || |r[|r| - 1]| >= 3
  {
    if es == [] then [] else Items(es[..|es| - 1]) + ElementItems(es[|es| - 1])
  }

  /** The items separated by `sep`, with no separator before the first or after the last. */
  function Join(items: seq<string>, sep: string): string {
    if |items| == 0 then ""
    else if |items| == 1 then items[0]
    else Join(items[..|items| - 1], sep) + sep + items[|items| - 1]
  }

  /** The text line of an entry. */
  function PlainText(entry: XElement, sep: string): string {
    Join(Items(DescendantsAndSelf(entry)), sep)
  }

  lemma JoinSnoc(items: seq<string>, x: string, sep: string)
    ensures Join(items + [x], sep) == if items == [] then x else Join(items, sep) + sep + x
  {
    assert (items + [x])[..|items|] == items;
  }

  /** The text is empty only when there are no items (every item holds " = "). */
  lemma JoinEmpty(items: seq<string>, sep: string)
    requires items == [] || |items[|items| - 1]| > 0
    ensures |Join(items, sep)| == 0 <==> items == []
  {
  }

  /**
   * The walk of the source: for each element of the pre-order walk, and for each
   * of its attributes, a separator is appended only when the text built so far
   * is not empty.
   */
  method ConvertXmlToPlainText(entry: XElement, separator: string) returns (text: string)
    ensures text == PlainText(entry, separator)
  {
    var elements := DescendantsAndSelf(entry);
    var sb := "";
    for i := 0 to |elements|
      invariant sb == Join(Items(elements[..i]), separator)
    {
      assert elements[..i + 1][..i] == elements[..i];
      sb := AppendElement(sb, elements[i], separator, Items(elements[..i]));
    }
    assert elements[..|elements|] == elements;
    text := sb;
  }

  /** The body of the outer loop: append the items of one element. */
  method AppendElement(sb: string, element: XElement, separator: string, ghost items: seq<string>) returns (sb': string)
    requires items == [] || |items[|items| - 1]| >= 3
    requires sb == Join(items, separator)
    ensures sb' == Join(items + ElementItems(element), separator)
  {
    if HasAttributes(element) {
      sb' := AppendAttributes(sb, element.attributes, separator, items);
    } else {
      JoinEmpty(items, separator);
      sb' := sb;
      if |sb'| > 0 {
        sb' := sb' + separator;
      }
      // line breaks removed to keep the entry on one line
      var item := element.name + " = " + ReplaceCrLf(Value(element));
      sb' := sb' + item;
      JoinSnoc(items, ValueItem(element), separator);
    }
  }

  /** The inner loop: one `name = value` item per attribute. */
  method AppendAttributes(sb: string, attributes: seq<XAttribute>, separator: string, ghost items: seq<string>) returns (sb': string)
    requires items == [] || |items[|items| - 1]| >= 3
    requires sb == Join(items, separator)
    ensures sb' == Join(items + AttributeItems(attributes), separator)
  {
    sb' := sb;
    ghost var acc := items;
    for j := 0 to |attributes|
      invariant acc == items + AttributeItems(attributes[..j])
      invariant acc == [] || |acc[|acc| - 1]| >= 3
      invariant sb' == Join(acc, separator)
    {
      var attribute := attributes[j];
      JoinEmpty(acc, separator);
      if |sb'| > 0 {
        sb' := sb' + separator;
      }
      var item := attribute.name + " = " + attribute.value;
      sb' := sb' + item;
      JoinSnoc(acc, item, separator);
      assert attributes[..j + 1][..j] == attributes[..j];
      assert AttributeItems(attributes[..j + 1]) == AttributeItems(attributes[..j]) + [item];
      acc := acc + [item];
    }
    assert attributes[..|attributes|] == attributes;
  }

  /** No separator comes before the first item: the text starts with it. */
  lemma {:induction false} JoinStartsWithFirst(items: seq<string>, sep: string)
    requires |items| > 0
    ensures StartsWith(Join(items, sep), items[0])
  {
    if |items| > 1 {
      JoinStartsWithFirst(items[..|items| - 1], sep);
    }
  }

  /** The text ends with the last item. */
  lemma JoinEndsWithLast(items: seq<string>, sep: string)
    requires |items| > 0
    ensures var t := Join(items, sep);
      |items[|items| - 1]| <= |t| && t[|t| - |items[|items| - 1]|..] == items[|items| - 1]
  {
  }

  /** The joined text is as long as the items together plus one separator between each adjacent pair. */
  lemma {:induction false} JoinLength(items: seq<string>, sep: string)
    requires |items| > 0
    ensures |Join(items, sep)| == SumLengths(items) + (|items| - 1) * |sep|
  {
    if |items| > 1 {
      JoinLength(items[..|items| - 1], sep);
      SumLengthsSnoc(items[..|items| - 1], items[|items| - 1]);
      assert items[..|items| - 1] + [items[|items| - 1]] == items;
    }
  }

  function SumLengths(items: seq<string>): nat {
    if items == [] then 0 else |items[0]| + SumLengths(items[1..])
  }

  lemma {:induction false} SumLengthsSnoc(items: seq<string>, x: string)
    ensures SumLengths(items + [x]) == SumLengths(items) + |x|
  {
    if items != [] {
      assert (items + [x])[1..] == items[1..] + [x];
      SumLengthsSnoc(items[1..], x);
    } else {
      assert [x][1..] == [];
    }
  }

  /** The line starts with the root element's first item: `Date = ...` for a log entry. */
  lemma PlainTextStartsWithRoot(entry: XElement, sep: string)
    ensures |ElementItems(entry)| > 0 ==> StartsWith(PlainText(entry, sep), ElementItems(entry)[0])
  {
    var es := DescendantsAndSelf(entry);
    if |ElementItems(entry)| > 0 {
      ItemsFirst(es);
      JoinStartsWithFirst(Items(es), sep);
    }
  }

  /** The first item comes from the first element. */
  lemma {:induction false} ItemsFirst(es: seq<XElement>)
    requires |es| > 0 && |ElementItems(es[0])| > 0
    ensures |Items(es)| > 0 && Items(es)[0] == ElementItems(es[0])[0]
  {
    var front := es[..|es| - 1];
    if |es| > 1 {
      assert front[0] == es[0];
      ItemsFirst(front);
    } else {
      assert front == [];
    }
  }

  /** A value item never holds a carriage return followed by a line feed after the " = ". */
  lemma ValueItemIsOneLine(e: XElement)
    ensures var item := ValueItem(e);
      item == e.name + " = " + item[|e.name| + 3..] && !HasCrLf(item[|e.name| + 3..])
  {
    ReplaceCrLfRemovesAll(Value(e));
    assert ValueItem(e)[|e.name| + 3..] == ReplaceCrLf(Value(e));
  }
}
