/**
 * The part of the browser DOM the extension relies on, as values: nodes,
 * `textContent`, `querySelectorAll("p")`, attributes, and selector hits.
 * Parsing and CSS selector matching are not modelled: a parsed document is
 * given as the table of what each configured selector matches.
 */
module Dom {
  import opened Wrappers
  import opened Words

  datatype Attr = Attr(name: string, value: string)

  /** A DOM node: text, an element with its attributes and children, or any other kind (comment, ...). */
  datatype Node =
    | Text(data: string)
    | Element(tag: string, attrs: seq<Attr>, children: seq<Node>)
    | Other

  /**
   * `textContent`: the concatenated text of every descendant text node.
   * Comments and other node kinds contribute nothing to an element's text.
   */
  function TextContent(n: Node): string
    decreases n, 1
  {
    match n
    case Text(s) => s
    case Element(_, _, kids) => ConcatText(kids)
    case Other => ""
  }

  function ConcatText(cs: seq<Node>): string
    decreases cs, 0
  {
    if cs == [] then "" else TextContent(cs[0]) + ConcatText(cs[1..])
  }

  function LowerChar(c: char): char {
    if 'A' <= c <= 'Z' then (c as int + 32) as char else c
  }

  /** `toLowerCase()` on ASCII letters, which is all an HTML tag name holds. */
  function Lower(s: string): (r: string)
    ensures |r| == |s|
    ensures forall i :: 0 <= i < |s| ==> r[i] == LowerChar(s[i])
  {
    if s == [] then [] else [LowerChar(s[0])] + Lower(s[1..])
  }

  /** The node is an HTML element with the given (lower-case) tag name. */
  predicate IsElement(n: Node, tag: string) {
    n.Element? && Lower(n.tag) == tag
  }

  /** `querySelectorAll("p")` on `n`: every `<p>` descendant of `n`, in document order. */
  function Paragraphs(n: Node): (ps: seq<Node>)
    ensures forall i :: 0 <= i < |ps| ==> IsElement(ps[i], "p")
    decreases n, 1
  {
    match n
    case Element(_, _, kids) => ParagraphsIn(kids)
    case _ => []
  }

  function ParagraphsIn(cs: seq<Node>): (ps: seq<Node>)
    ensures forall i :: 0 <= i < |ps| ==> IsElement(ps[i], "p")
    decreases cs, 0
  {
    if cs == [] then []
    else
      (if IsElement(cs[0], "p") then [cs[0]] else []) + Paragraphs(cs[0]) + ParagraphsIn(cs[1..])
  }

  /** A fresh element whose `textContent` was set to `s` (an empty string adds no text node). */
  function TextElement(tag: string, s: string): (e: Node)
    ensures e.Element? && e.tag == tag && e.attrs == []
    ensures TextContent(e) == s
  {
    var e := Element(tag, [], if s == "" then [] else [Text(s)]);
    assert TextContent(e) == ConcatText(e.children);
    assert s != "" ==> ConcatText([Text(s)]) == s + ConcatText([]);
    e
  }

  /** `element.textContent = s` on an existing node: its children are replaced by one text node. */
  function SetTextContent(n: Node, s: string): (r: Node)
    ensures n.Element? ==> r.Element? && r.tag == n.tag && r.attrs == n.attrs && TextContent(r) == s
  {
    match n
    case Element(tag, attrs, _) =>
      var e := TextElement(tag, s);
      Element(tag, attrs, e.children)
    case Text(_) => Text(s)
    case Other => Other
  }

  /** `getAttribute(name)`: the value of the first attribute with that name. */
  function GetAttribute(attrs: seq<Attr>, name: string): (r: Option<string>)
    ensures r.Some? <==> exists i :: 0 <= i < |attrs| && attrs[i].name == name
  {
    if attrs == [] then None
    else if attrs[0].name == name then Some(attrs[0].value)
    else GetAttribute(attrs[1..], name)
  }

  /** An `<a>` element, i.e. an `HTMLAnchorElement`. */
  predicate IsAnchor(n: Node) {
    IsElement(n, "a")
  }

  /** The anchor's `href`, taken as its `href` attribute; a missing attribute reads as "". */
  function Href(n: Node): string
    requires n.Element?
  {
    match GetAttribute(n.attrs, "href")
    case Some(v) => v
    case None => ""
  }

  /** What a selector matched: the first matching element and its parent element, if any. */
  datatype Hit = Hit(node: Node, parent: Option<Node>)

  /** A parsed document, seen through the selectors the extension asks about. */
  datatype Document = Document(hits: map<string, Hit>)

  /** `doc.querySelector(selector)`. */
  function Query(doc: Document, selector: string): Option<Node> {
    if selector in doc.hits then Some(doc.hits[selector].node) else None
  }

  /** `doc.querySelector(selector)?.parentElement`. */
  function QueryParent(doc: Document, selector: string): Option<Node> {
    if selector in doc.hits then doc.hits[selector].parent else None
  }
}
