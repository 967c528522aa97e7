/**
 * An abstract HTML tree standing for the parsed document the scrapers
 * walk (scraper's `Html`, `Node` and `ElementRef`), with the queries the
 * parsers make of it.
 */
module Dom {
  import opened Base
  import opened Strings

  datatype Attribute = Attribute(name: string, value: string)

  /** A node of the document: an element with its tag, attributes and children; a text node; anything else (a comment, a doctype). */
  datatype Node =
    | Element(tag: string, attrs: seq<Attribute>, children: seq<Node>)
    | Text(content: string)
    | Other

  /** `ElementRef::text()`: the text nodes below `n`, in document order. */
  function TextNodes(n: Node): seq<string>
    decreases n, 1
  {
    match n
    case Text(t) => [t]
    case Element(_, _, cs) => TextNodesIn(cs)
    case Other => []
  }

  function TextNodesIn(ns: seq<Node>): seq<string>
    decreases ns, 0
  {
    if ns == [] then [] else TextNodes(ns[0]) + TextNodesIn(ns[1..])
  }

  /** The text nodes of a run of siblings are those of each sibling, in document order. */
  lemma {:induction false} TextNodesInAppend(a: seq<Node>, b: seq<Node>)
    ensures TextNodesIn(a + b) == TextNodesIn(a) + TextNodesIn(b)
    decreases |a|
  {
    if a == [] {
      assert a + b == b;
    } else {
      assert (a + b)[0] == a[0] && (a + b)[1..] == a[1..] + b;
      TextNodesInAppend(a[1..], b);
    }
  }

  /** `text().collect_vec().join(" ")`: the text getter of every parser. */
  function JoinedText(n: Node): (r: string)
    ensures TextNodes(n) == [] ==> r == []
    ensures |TextNodes(n)| == 1 ==> r == TextNodes(n)[0]
  {
    Join(TextNodes(n), " ")
  }

  /** `text().next()`: the first text node below `n`, found without listing the others. */
  function FirstText(n: Node): (r: Option<string>)
    ensures r == if TextNodes(n) == [] then None else Some(TextNodes(n)[0])
    decreases n, 1
  {
    match n
    case Text(t) => Some(t)
    case Element(_, _, cs) => FirstTextIn(cs)
    case Other => None
  }

  function FirstTextIn(ns: seq<Node>): (r: Option<string>)
    ensures r == if TextNodesIn(ns) == [] then None else Some(TextNodesIn(ns)[0])
    decreases ns, 0
  {
    if ns == [] then None
    else match FirstText(ns[0])
      case Some(t) => Some(t)
      case None => FirstTextIn(ns[1..])
  }

  /** The elements among `ns`, in order. */
  function ElementsOf(ns: seq<Node>): (r: seq<Node>)
    ensures |r| <= |ns|
    ensures forall i :: 0 <= i < |r| ==> r[i].Element? && r[i] in ns
    ensures (forall i :: 0 <= i < |ns| ==> !ns[i].Element?) <==> r == []
  {
    if ns == [] then []
    else if ns[0].Element? then [ns[0]] + ElementsOf(ns[1..])
    else
      assert forall i :: 1 <= i < |ns| ==> ns[i] == ns[1..][i - 1];
      ElementsOf(ns[1..])
  }

  /** `ElementRef::child_elements()`. */
  function ChildElements(n: Node): seq<Node>
  {
    if n.Element? then ElementsOf(n.children) else []
  }

  /** `ElementRef::value().attr(name)`. */
  function AttrValue(n: Node, name: string): (r: Option<string>)
    ensures r.Some? <==> n.Element? && exists i :: 0 <= i < |n.attrs| && n.attrs[i].name == name
  {
    if n.Element? then FirstAttr(n.attrs, name) else None
  }

  function FirstAttr(attrs: seq<Attribute>, name: string): (r: Option<string>)
    ensures r.Some? ==> exists i :: 0 <= i < |attrs| && attrs[i] == Attribute(name, r.value)
    ensures r.None? <==> forall i :: 0 <= i < |attrs| ==> attrs[i].name != name
  {
    if attrs == [] then None
    else if attrs[0].name == name then Some(attrs[0].value)
    else
      var r := FirstAttr(attrs[1..], name);
      assert forall i :: 1 <= i < |attrs| ==> attrs[i] == attrs[1..][i - 1];
      r
  }
}
