/**
 * The fault-tree serialiser `GetExceptionXElement`: a .NET exception, with its
 * inner exception, attached data and the extra fields of `SqlException`,
 * `COMException` and `AggregateException`, becomes a tree of `Exception`
 * elements.
 */
module Faults {
  import opened Wrappers
  import opened Text
  import opened XmlTree

  /** The method that threw: `TargetSite`, with the full name of its `DeclaringType` when there is one. */
  datatype TargetSite = TargetSite(declaringType: Option<string>, name: string)

  /** One pair of `Exception.Data`; keys are never null, values may be. */
  datatype DataEntry = DataEntry(key: string, value: Option<string>)

  /**
   * The runtime classes the serialiser tells apart. For `SqlException` a null
   * and an empty `Server` or `Procedure` are both the empty string here: the
   * serialiser treats them alike.
   */
  datatype ExnKind =
    | Generic
    | Sql(number: Int32, server: string, procedure: string)
    | Com(errorCode: Int32)
    | Aggregate(innerExceptions: seq<Exn>)

  /** An exception value: `GetType().FullName`, `TargetSite`, `Source`, `Message`, `Data`, `InnerException`, `StackTrace`. */
  datatype Exn = Exn(
    kind: ExnKind,
    typeName: Option<string>,
    targetSite: Option<TargetSite>,
    source: Option<string>,
    message: string,
    data: seq<DataEntry>,
    inner: Option<Exn>,
    stackTrace: Option<string>)

  /** A plain `System.Exception` created with `new Exception(message)` and never thrown. */
  function NewException(typeName: string, message: string): (ex: Exn)
    ensures ex.kind.Generic? && ex.message == message && ex.inner.None?
  {
    Exn(Generic, Some(typeName), None, None, message, [], None, None)
  }

  /** The `Type` attribute: the type's full name, or "unknown". */
  function TypeName(ex: Exn): string {
    ex.typeName.GetOr("unknown")
  }

  /**
   * The `Source` attribute: "DeclaringType.Method" of the target site when both
   * are known, otherwise `ex.Source` (which may be null).
   */
  function SourceValue(ex: Exn): (r: Option<string>)
    ensures ex.targetSite.Some? && ex.targetSite.value.declaringType.Some? ==>
      r == Some(ex.targetSite.value.declaringType.value + "." + ex.targetSite.value.name)
    ensures ex.targetSite.None? || ex.targetSite.value.declaringType.None? ==> r == ex.source
  {
    match ex.targetSite
    case Some(TargetSite(Some(declaring), member)) => Some(declaring + "." + member)
    case _ => ex.source
  }

  /**
   * `new XAttribute("Source", null)` throws, so the serialiser completes only for
   * trees in which every node has a source value.
   */
  predicate Serializable(ex: Exn) {
    && SourceValue(ex).Some?
    && (ex.kind.Aggregate? ==> forall x :: x in ex.kind.innerExceptions ==> Serializable(x))
    && (ex.inner.Some? ==> Serializable(ex.inner.value))
  }

  /**
   * The invariant the .NET runtime keeps for `AggregateException`: its
   * `InnerException` is its first constituent, or null when it has none.
   */
  predicate WellFormedAggregate(ex: Exn)
    requires ex.kind.Aggregate?
  {
    ex.inner == if |ex.kind.innerExceptions| == 0 then None else Some(ex.kind.innerExceptions[0])
  }

  function EntryElement(d: DataEntry): XElement {
    XElement("Entry", [XAttribute("Key", d.key), XAttribute("Value", d.value.GetOr(""))], "", [])
  }

  function DataElement(data: seq<DataEntry>): XElement {
    XElement("Data", [], "", seq(|data|, i requires 0 <= i < |data| => EntryElement(data[i])))
  }

  function SqlElement(number: Int32, server: string, procedure: string): XElement {
    XElement("SqlException",
      [XAttribute("ErrorNumber", DecimalString(number))]
      + (if server != "" then [XAttribute("ServerName", server)] else [])
      + (if procedure != "" then [XAttribute("Procedure", procedure)] else []),
      "", [])
  }

  /** `$"0x{(uint)code:X8}"`. */
  function ComErrorCode(code: Int32): string {
    "0x" + HexString(ToUInt32(code), 8)
  }

  function ComElement(code: Int32): XElement {
    XElement("ComException", [XAttribute("ErrorCode", ComErrorCode(code))], "", [])
  }

  /** The name of the kind-specific child of a node (none for a generic exception). */
  function KindName(k: ExnKind): string {
    match k
    case Generic => ""
    case Sql(_, _, _) => "SqlException"
    case Com(_) => "ComException"
    case Aggregate(_) => "AggregateException"
  }

  /** The kind-specific child: `SqlException`, `ComException`, `AggregateException`, or none. */
  function KindPart(ex: Exn): (r: seq<XElement>)
    requires Serializable(ex)
    ensures |r| == (if ex.kind.Generic? then 0 else 1)
    ensures forall k :: 0 <= k < |r| ==> r[k].name == KindName(ex.kind)
    decreases ex, 0
  {
    match ex.kind
    case Generic => []
    case Sql(number, server, procedure) => [SqlElement(number, server, procedure)]
    case Com(code) => [ComElement(code)]
    case Aggregate(xs) => [XElement("AggregateException", [], "", ExceptionElements(xs))]
  }

  /** The last child: the stack trace when there is no inner exception, otherwise the inner exception's node. */
  function TailPart(ex: Exn): (r: XElement)
    requires Serializable(ex)
    ensures r.name == (if ex.inner.None? then "StackTrace" else "Exception")
    decreases ex, 0
  {
    if ex.inner.None? then Leaf("StackTrace", ex.stackTrace.GetOr(""))
    else ExceptionElement(ex.inner.value)
  }

  function DataPart(data: seq<DataEntry>): (r: seq<XElement>)
    ensures |r| == (if |data| > 0 then 1 else 0)
  {
    if |data| > 0 then [DataElement(data)] else []
  }

  /** `GetExceptionXElement` on a non-null exception. */
  function ExceptionElement(ex: Exn): (r: XElement)
    requires Serializable(ex)
    ensures r.name == "Exception" && |r.children| >= 2
    decreases ex, 1
  {
    XElement("Exception",
      [XAttribute("Type", TypeName(ex)), XAttribute("Source", SourceValue(ex).value)],
      "",
      [Leaf("Message", ex.message)] + DataPart(ex.data) + KindPart(ex) + [TailPart(ex)])
  }

  /** The serialised constituents of an aggregate, one per constituent and in order. */
  function ExceptionElements(xs: seq<Exn>): (r: seq<XElement>)
    requires forall x :: x in xs ==> Serializable(x)
    ensures |r| == |xs|
    ensures forall i :: 0 <= i < |xs| ==> r[i] == ExceptionElement(xs[i])
    decreases xs
  {
    if xs == [] then [] else [ExceptionElement(xs[0])] + ExceptionElements(xs[1..])
  }

  /** `GetExceptionXElement(ex)`: null for a null exception. */
  function GetExceptionXElement(ex: Option<Exn>): (r: Option<XElement>)
    requires ex.Some? ==> Serializable(ex.value)
    ensures r.None? <==> ex.None?
    ensures r.Some? ==> r.value.name == "Exception"
  {
    if ex.None? then None else Some(ExceptionElement(ex.value))
  }

  // ---------------------------------------------------------------------------
  // Shape of one node

  /** Every node carries `Type` and `Source` and nothing else as attributes, and no text of its own. */
  lemma ExceptionAttributes(ex: Exn)
    requires Serializable(ex)
    ensures var r := ExceptionElement(ex);
      && |r.attributes| == 2 && r.text == ""
      && AttributeValue(r, "Type") == Some(TypeName(ex))
      && AttributeValue(r, "Source") == SourceValue(ex)
  {
    var attrs := ExceptionElement(ex).attributes;
    assert attrs[0].name == "Type" && attrs[1..] == [XAttribute("Source", SourceValue(ex).value)];
    assert "Source" != "Type" by { assert "Source"[1] != "Type"[1]; }
    assert Lookup(attrs, "Source") == Lookup(attrs[1..], "Source");
  }

  lemma {:induction false} NamedSplit(a: seq<XElement>, b: seq<XElement>, c: seq<XElement>, d: XElement, name: string)
    ensures Named(a + b + c + [d], name)
         == Named(a, name) + Named(b, name) + Named(c, name) + (if d.name == name then [d] else [])
  {
    NamedConcat(a + b + c, [d], name);
    NamedConcat(a + b, c, name);
    NamedConcat(a, b, name);
    assert Named([d], name) == (if d.name == name then [d] else []) + Named([], name);
  }

  lemma NamedNone(es: seq<XElement>, name: string)
    requires forall k :: 0 <= k < |es| ==> es[k].name != name
    ensures Named(es, name) == []
  {
    if es != [] {
      NamedNone(es[1..], name);
    }
  }

  lemma NamedAll(es: seq<XElement>, name: string)
    requires forall k :: 0 <= k < |es| ==> es[k].name == name
    ensures Named(es, name) == es
  {
    if es != [] {
      NamedAll(es[1..], name);
    }
  }

  /** A child name and whether a node has children of that name can be read off its parts. */
  lemma {:induction false} ChildrenByName(ex: Exn, name: string)
    requires Serializable(ex)
    ensures ChildrenNamed(ExceptionElement(ex), name)
         == (if name == "Message" then [Leaf("Message", ex.message)] else [])
          + (if name == "Data" then DataPart(ex.data) else [])
          + (if name == KindName(ex.kind) then KindPart(ex) else [])
          + (if TailPart(ex).name == name then [TailPart(ex)] else [])
  {
    NamedSplit([Leaf("Message", ex.message)], DataPart(ex.data), KindPart(ex), TailPart(ex), name);
    assert Named([Leaf("Message", ex.message)], name) == (if name == "Message" then [Leaf("Message", ex.message)] else []) + Named([], name);
    if name == "Data" { NamedAll(DataPart(ex.data), name); } else { NamedNone(DataPart(ex.data), name); }
    if name == KindName(ex.kind) { NamedAll(KindPart(ex), name); } else { NamedNone(KindPart(ex), name); }
  }

  /**
   * Which children a node has, by name: one `Message`; a `Data` child exactly
   * when there is attached data; one child for the kind; and either the
   * `StackTrace` leaf or the serialised inner exception, never both.
   */
  lemma ExceptionChildren(ex: Exn)
    requires Serializable(ex)
    ensures var r := ExceptionElement(ex);
      && ChildrenNamed(r, "Message") == [Leaf("Message", ex.message)]
      && ChildrenNamed(r, "Data") == (if |ex.data| > 0 then [DataElement(ex.data)] else [])
      && |ChildrenNamed(r, "SqlException")| == (if ex.kind.Sql? then 1 else 0)
      && |ChildrenNamed(r, "ComException")| == (if ex.kind.Com? then 1 else 0)
      && |ChildrenNamed(r, "AggregateException")| == (if ex.kind.Aggregate? then 1 else 0)
      && |r.children| == 2 + (if |ex.data| > 0 then 1 else 0) + (if ex.kind.Generic? then 0 else 1)
  {
    ChildrenByName(ex, "Message");
    ChildrenByName(ex, "Data");
    ChildrenByName(ex, "SqlException");
    ChildrenByName(ex, "ComException");
    ChildrenByName(ex, "AggregateException");
  }

  /** The last part of a node: the `StackTrace` leaf exactly when there is no inner exception, else the inner node. */
  lemma StackTraceOrInner(ex: Exn)
    requires Serializable(ex)
    ensures var r := ExceptionElement(ex);
      && ChildrenNamed(r, "StackTrace") == (if ex.inner.None? then [Leaf("StackTrace", ex.stackTrace.GetOr(""))] else [])
      && ChildrenNamed(r, "Exception") == (if ex.inner.Some? then [ExceptionElement(ex.inner.value)] else [])
      && r.children[|r.children| - 1] == TailPart(ex)
  {
    ChildrenByName(ex, "StackTrace");
    ChildrenByName(ex, "Exception");
  }

  /** A `Data` child holds one `Entry` per pair, in order, with the key and the value (null read as ""). */
  lemma DataEntries(data: seq<DataEntry>)
    ensures var d := DataElement(data);
      && |d.children| == |data|
      && forall i :: 0 <= i < |data| ==>
           && d.children[i].name == "Entry"
           && AttributeValue(d.children[i], "Key") == Some(data[i].key)
           && AttributeValue(d.children[i], "Value") == Some(data[i].value.GetOr(""))
  {
    var d := DataElement(data);
    forall i | 0 <= i < |data|
      ensures AttributeValue(d.children[i], "Key") == Some(data[i].key)
      ensures AttributeValue(d.children[i], "Value") == Some(data[i].value.GetOr(""))
    {
      assert d.children[i] == EntryElement(data[i]);
      var attrs := d.children[i].attributes;
      assert attrs == [XAttribute("Key", data[i].key), XAttribute("Value", data[i].value.GetOr(""))];
      assert "Value" != "Key" by { assert "Value"[0] != "Key"[0]; }
      assert attrs[1..][0].name == "Value";
      assert Lookup(attrs, "Value") == Lookup(attrs[1..], "Value");
      assert attrs[1..] == [XAttribute("Value", data[i].value.GetOr(""))];
    }
  }

  /** A SQL node always reports the error number, and the server and procedure only when they are not empty. */
  lemma SqlFields(number: Int32, server: string, procedure: string)
    ensures var e := SqlElement(number, server, procedure);
      && AttributeValue(e, "ErrorNumber") == Some(DecimalString(number))
      && ParseDecimal(AttributeValue(e, "ErrorNumber").value) == number
      && (AttributeValue(e, "ServerName").Some? <==> server != "")
      && (server != "" ==> AttributeValue(e, "ServerName") == Some(server))
      && (AttributeValue(e, "Procedure").Some? <==> procedure != "")
      && (procedure != "" ==> AttributeValue(e, "Procedure") == Some(procedure))
  {
    DecimalRoundTrip(number);
    var e := SqlElement(number, server, procedure);
    assert e.attributes[0] == XAttribute("ErrorNumber", DecimalString(number));
    if server != "" {
      assert e.attributes[1] == XAttribute("ServerName", server);
    }
    if procedure != "" {
      assert e.attributes[|e.attributes| - 1] == XAttribute("Procedure", procedure);
    }
  }

  /**
   * The COM error code is "0x" and exactly eight upper-case hex digits, and those
   * digits, read as an unsigned number and cast back, give the original code.
   */
  lemma ComErrorCodeFormat(code: Int32)
    ensures var s := ComErrorCode(code);
      && |s| == 10 && s[..2] == "0x"
      && (forall k :: 2 <= k < 10 ==> IsUpperHexDigit(s[k]))
      && ParseHex(s[2..]) == ToUInt32(code)
      && ToInt32(ParseHex(s[2..])) == code
  {
    var s := ComErrorCode(code);
    assert s[2..] == HexString(ToUInt32(code), 8);
    assert Pow16(8) == TwoTo32;
    HexRoundTrip(ToUInt32(code), 8);
  }

  /** An aggregate node has one `AggregateException` child holding one serialised node per constituent. */
  lemma AggregateChildren(ex: Exn)
    requires Serializable(ex) && ex.kind.Aggregate?
    ensures var agg := ChildrenNamed(ExceptionElement(ex), "AggregateException");
      && |agg| == 1
      && |agg[0].children| == |ex.kind.innerExceptions|
      && forall i :: 0 <= i < |ex.kind.innerExceptions| ==> agg[0].children[i] == ExceptionElement(ex.kind.innerExceptions[i])
  {
    ChildrenByName(ex, "AggregateException");
    assert TailPart(ex).name != "AggregateException";
  }

  /**
   * Because .NET makes an aggregate's first constituent its `InnerException`,
   * a non-empty aggregate's first constituent is serialised twice: inside the
   * `AggregateException` child and again as the node's last child.
   */
  lemma AggregateFirstRepeated(ex: Exn)
    requires Serializable(ex) && ex.kind.Aggregate? && WellFormedAggregate(ex)
    requires |ex.kind.innerExceptions| > 0
    ensures var r := ExceptionElement(ex);
      && r.children[|r.children| - 1] == ExceptionElement(ex.kind.innerExceptions[0])
      && KindPart(ex)[0].children[0] == r.children[|r.children| - 1]
  {
  }

  // ---------------------------------------------------------------------------
  // The inner-exception chain

  /** The number of inner exceptions below `ex`. */
  function InnerDepth(ex: Exn): nat {
    if ex.inner.None? then 0 else 1 + InnerDepth(ex.inner.value)
  }

  /** The end of the inner-exception chain. */
  function Innermost(ex: Exn): (r: Exn)
    ensures r.inner.None?
    ensures Serializable(ex) ==> Serializable(r)
  {
    if ex.inner.None? then ex else Innermost(ex.inner.value)
  }

  /** The last child of a node, when it is itself an `Exception` node. */
  function NestedNode(x: XElement): (r: Option<XElement>)
    ensures r.Some? ==> r.value < x
  {
    if |x.children| > 0 && x.children[|x.children| - 1].name == "Exception"
    then Some(x.children[|x.children| - 1]) else None
  }

  /** How many `Exception` nodes are nested through last children, this one included. */
  function NestingDepth(x: XElement): nat
    decreases x
  {
    match NestedNode(x)
    case None => 1
    case Some(y) => 1 + NestingDepth(y)
  }

  /** The `StackTrace` children met along that nesting. */
  function ChainStackTraces(x: XElement): nat
    decreases x
  {
    |ChildrenNamed(x, "StackTrace")| + match NestedNode(x) case None => 0 case Some(y) => ChainStackTraces(y)
  }

  /** The innermost node of that nesting. */
  function InnermostNode(x: XElement): XElement
    decreases x
  {
    match NestedNode(x)
    case None => x
    case Some(y) => InnermostNode(y)
  }

  /**
   * A chain of N inner exceptions gives N+1 nested `Exception` nodes and exactly
   * one `StackTrace` along them, at the innermost node, which is the serialised
   * innermost exception.
   */
  lemma {:induction false} ChainShape(ex: Exn)
    requires Serializable(ex)
    ensures var r := ExceptionElement(ex);
      && NestingDepth(r) == InnerDepth(ex) + 1
      && ChainStackTraces(r) == 1
      && InnermostNode(r) == ExceptionElement(Innermost(ex))
      && ChildrenNamed(InnermostNode(r), "StackTrace") == [Leaf("StackTrace", Innermost(ex).stackTrace.GetOr(""))]
  {
    var r := ExceptionElement(ex);
    StackTraceOrInner(ex);
    if ex.inner.Some? {
      ChainShape(ex.inner.value);
      assert NestedNode(r) == Some(ExceptionElement(ex.inner.value));
    } else {
      assert NestedNode(r) == None;
    }
  }
}
