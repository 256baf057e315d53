/** The parsed HTML tree the converter reads, as a value: text nodes,
    elements with their attributes and children, and every other kind of node
    (comments, processing instructions) as one case. */
module Dom {
  import opened Wrappers
  import opened Text

  datatype Node =
    | TextNode(data: string)
    | Element(name: string, attrs: map<string, string>, children: seq<Node>)
    | OtherNode

  /** `GetAttribute`: the value, or null when the attribute is absent. */
  function GetAttribute(n: Node, attr: string): (v: Option<string>)
    ensures v.Some? <==> n.Element? && attr in n.attrs
  {
    if n.Element? && attr in n.attrs then Some(n.attrs[attr]) else None
  }

  /** An element whose tag name is `tag` (matched without regard to case). */
  predicate HasTag(n: Node, tag: string) {
    n.Element? && Lower(n.name) == tag
  }

  /** The element descendants of `n` in document order, `n` excluded: what
      `QuerySelectorAll` searches. */
  function Descendants(n: Node): (r: seq<Node>)
    ensures forall i :: 0 <= i < |r| ==> r[i].Element?
    decreases n
  {
    if n.Element? then DescendantsAll(n.children) else []
  }

  function DescendantsAll(ns: seq<Node>): (r: seq<Node>)
    ensures forall i :: 0 <= i < |r| ==> r[i].Element?
    decreases ns
  {
    if ns == [] then []
    else (if ns[0].Element? then [ns[0]] else []) + Descendants(ns[0]) + DescendantsAll(ns[1..])
  }

  /** Position of the first element of `es` named `tag`, or -1. */
  function FirstTagged(es: seq<Node>, tag: string): (k: int)
    ensures -1 <= k < |es|
    ensures k >= 0 ==> HasTag(es[k], tag)
    ensures forall j :: 0 <= j < |es| && (k == -1 || j < k) ==> !HasTag(es[j], tag)
  {
    if es == [] then -1
    else if HasTag(es[0], tag) then 0
    else
      var k := FirstTagged(es[1..], tag);
      if k == -1 then -1 else k + 1
  }

  /** `QuerySelector(tag)`: the first descendant element named `tag`. */
  function QuerySelector(n: Node, tag: string): (r: Option<Node>)
    ensures r.Some? ==> r.value in Descendants(n) && HasTag(r.value, tag)
    ensures r.None? <==> forall e :: e in Descendants(n) ==> !HasTag(e, tag)
  {
    var es := Descendants(n);
    var k := FirstTagged(es, tag);
    if k == -1 then None else Some(es[k])
  }

  /** The elements of `es` named `tag`, in order. */
  function Tagged(es: seq<Node>, tag: string): (r: seq<Node>)
    ensures forall i :: 0 <= i < |r| ==> HasTag(r[i], tag)
    ensures forall e :: e in es && HasTag(e, tag) ==> e in r
    ensures forall e :: e in r ==> e in es
  {
    if es == [] then []
    else (if HasTag(es[0], tag) then [es[0]] else []) + Tagged(es[1..], tag)
  }

  /** `TextContent`: the text of every text node below `n`, in order. */
  function TextContent(n: Node): string
    decreases n
  {
    match n
    case TextNode(t) => t
    case Element(_, _, children) => TextContentAll(children)
    case OtherNode => ""
  }

  function TextContentAll(ns: seq<Node>): string
    decreases ns
  {
    if ns == [] then "" else TextContent(ns[0]) + TextContentAll(ns[1..])
  }

  /** The text content of the first figcaption below `figure`, or "" when
      there is none. */
  function FigcaptionContent(figure: Node): (r: string)
    ensures QuerySelector(figure, "figcaption").None? ==> r == []
    ensures QuerySelector(figure, "figcaption").Some? ==> r == TextContent(QuerySelector(figure, "figcaption").value)
  {
    var fc := QuerySelector(figure, "figcaption");
    if fc.Some? then TextContent(fc.value) else ""
  }
}
