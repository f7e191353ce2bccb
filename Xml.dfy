/**
 * A value model of the W3C DOM as the suite uses it: elements with a namespace name,
 * a prefix ("" for none), a local name, attributes in document order and child nodes.
 * Documents the suite edits in place are classes holding a document element; the
 * subtrees it builds before attaching them are values of this type.
 */
module Xml {
  import opened Wrappers
  import opened Strings

  /** javax.xml.namespace.QName: a namespace name ("" for none) and a local part. */
  datatype QName = QName(ns: string, local: string)

  datatype Attr = Attr(name: string, value: string)

  datatype Node =
    | Element(ns: string, prefix: string, local: string, attrs: seq<Attr>, children: seq<Node>)
    | Text(text: string)

  /** A path from a node to one of its descendants: the child index at each level. */
  type Path = seq<nat>

  /** Node.getNodeName of an element: the qualified name. */
  function QualifiedName(prefix: string, local: string): (r: string)
    ensures prefix == "" ==> r == local
    ensures prefix != "" ==> r == prefix + ":" + local
  {
    if prefix != "" then prefix + ":" + local else local
  }

  function NodeName(n: Node): string
  {
    match n
    case Element(_, prefix, local, _, _) => QualifiedName(prefix, local)
    case Text(_) => "#text"
  }

  /** Document.createElementNS(ns, qualifiedName) with no attributes and no children. */
  function NewElement(ns: string, prefix: string, local: string): (r: Node)
    ensures r.Element? && r.ns == ns && r.prefix == prefix && r.local == local
    ensures r.attrs == [] && r.children == []
  {
    Element(ns, prefix, local, [], [])
  }

  /** The value of the first attribute with the given name. */
  function GetAttr(attrs: seq<Attr>, name: string): (r: Option<string>)
    ensures r.Some? ==> exists i :: 0 <= i < |attrs| && attrs[i] == Attr(name, r.value)
    ensures r.None? ==> forall i :: 0 <= i < |attrs| ==> attrs[i].name != name
  {
    if attrs == [] then None
    else if attrs[0].name == name then Some(attrs[0].value)
    else GetAttr(attrs[1..], name)
  }

  /** Element.setAttribute: an existing attribute keeps its place and takes the new value; a new one goes last. */
  function SetAttr(attrs: seq<Attr>, name: string, value: string): (r: seq<Attr>)
    ensures GetAttr(r, name) == Some(value)
    ensures forall other :: other != name ==> GetAttr(r, other) == GetAttr(attrs, other)
    ensures GetAttr(attrs, name).None? ==> r == attrs + [Attr(name, value)]
  {
    if attrs == [] then [Attr(name, value)]
    else if attrs[0].name == name then [Attr(name, value)] + attrs[1..]
    else [attrs[0]] + SetAttr(attrs[1..], name, value)
  }

  /** Setting one attribute leaves the lookup of any other name as it was. */
  lemma SetOtherAttr(attrs: seq<Attr>, name: string, value: string, other: string)
    requires other != name
    ensures GetAttr(SetAttr(attrs, name, value), other) == GetAttr(attrs, other)
  {
  }

  /** The attribute just set is found with its new value. */
  lemma SetSameAttr(attrs: seq<Attr>, name: string, value: string)
    ensures GetAttr(SetAttr(attrs, name, value), name) == Some(value)
  {
  }

  /** A lookup survives a step that either keeps the attributes or sets a different one. */
  lemma LookupSurvivesStep(before: seq<Attr>, after: seq<Attr>, key: string, value: string,
                           kept: bool, newKey: string, newValue: string)
    requires GetAttr(before, key) == Some(value)
    requires kept ==> after == before
    requires !kept ==> after == SetAttr(before, newKey, newValue) && newKey != key
    ensures GetAttr(after, key) == Some(value)
  {
    if !kept {
      SetOtherAttr(before, newKey, newValue, key);
    }
  }

  /** Element.getAttribute: the value, or "" when the attribute is absent. */
  function Attribute(n: Node, name: string): string
  {
    if n.Element? then match GetAttr(n.attrs, name) case Some(v) => v case None => "" else ""
  }

  function SetAttribute(n: Node, name: string, value: string): (r: Node)
    requires n.Element?
    ensures r.Element? && r == n.(attrs := SetAttr(n.attrs, name, value))
  {
    n.(attrs := SetAttr(n.attrs, name, value))
  }

  function AppendChild(n: Node, c: Node): (r: Node)
    requires n.Element?
    ensures r.Element? && r.children == n.children + [c]
    ensures r.ns == n.ns && r.prefix == n.prefix && r.local == n.local && r.attrs == n.attrs
  {
    n.(children := n.children + [c])
  }

  // ---------------------------------------------------------------------------
  // Namespace declarations and lookups

  /** The name of the attribute that binds a prefix ("" for the default namespace). */
  function XmlnsAttrName(prefix: string): (r: string)
    ensures prefix != "" ==> r == "xmlns:" + prefix
  {
    if prefix == "" then "xmlns" else "xmlns:" + prefix
  }

  /** The prefix an attribute declares, if it is an xmlns:p attribute. */
  function DeclaredPrefix(a: Attr): (r: Option<string>)
    ensures r.Some? ==> r.value != "" && a.name == XmlnsAttrName(r.value)
  {
    if |a.name| > 6 && a.name[..6] == "xmlns:" then
      assert a.name == "xmlns:" + a.name[6..];
      Some(a.name[6..])
    else None
  }

  /** The first prefix declared for ns among the attributes. */
  function PrefixDeclaredFor(attrs: seq<Attr>, ns: string): (r: Option<string>)
    ensures r.Some? ==> r.value != "" && GetAttr(attrs, XmlnsAttrName(r.value)).Some?
  {
    if attrs == [] then None
    else if DeclaredPrefix(attrs[0]).Some? && attrs[0].value == ns then DeclaredPrefix(attrs[0])
    else PrefixDeclaredFor(attrs[1..], ns)
  }

  /**
   * Node.lookupPrefix over the chain of the node and its ancestors (innermost first):
   * the element's own prefix if its namespace is ns, else a prefix its attributes bind
   * to ns, else the answer of the parent. The empty namespace has no prefix.
   */
  function LookupPrefix(chain: seq<Node>, ns: string): (r: Option<string>)
    ensures r.Some? ==> r.value != ""
  {
    if chain == [] || ns == "" then None
    else
      var e := chain[0];
      if e.Element? && e.ns == ns && e.prefix != "" then Some(e.prefix)
      else if e.Element? && PrefixDeclaredFor(e.attrs, ns).Some? then PrefixDeclaredFor(e.attrs, ns)
      else LookupPrefix(chain[1..], ns)
  }

  /**
   * Node.lookupNamespaceURI over the chain (innermost first); prefix "" asks for the
   * default namespace. An empty declaration value counts as unbound.
   */
  function LookupNamespaceURI(chain: seq<Node>, prefix: string): (r: Option<string>)
    ensures r.Some? ==> r.value != ""
  {
    if chain == [] then None
    else
      var e := chain[0];
      if e.Element? && e.ns != "" && e.prefix == prefix then Some(e.ns)
      else if e.Element? && GetAttr(e.attrs, XmlnsAttrName(prefix)).Some? then
        var v := GetAttr(e.attrs, XmlnsAttrName(prefix)).value;
        if v == "" then None else Some(v)
      else LookupNamespaceURI(chain[1..], prefix)
  }

  // ---------------------------------------------------------------------------
  // Text content

  /** Node.getTextContent: the concatenated text of all descendant text nodes. */
  function TextContent(n: Node): string
    decreases n, if n.Element? then |n.children| + 1 else 0
  {
    match n
    case Text(t) => t
    case Element(_, _, _, _, cs) => TextFrom(n, 0)
  }

  function TextFrom(n: Node, i: nat): string
    requires n.Element?
    decreases n, |n.children| - i
  {
    if i >= |n.children| then "" else TextContent(n.children[i]) + TextFrom(n, i + 1)
  }

  /** An element whose only child is the text t, as setTextContent leaves it. */
  function WithText(n: Node, t: string): (r: Node)
    requires n.Element?
    ensures r.Element? && TextContent(r) == t
  {
    var r := n.(children := [Text(t)]);
    assert TextFrom(r, 1) == "";
    assert TextFrom(r, 0) == TextContent(Text(t)) + TextFrom(r, 1);
    r
  }

  // ---------------------------------------------------------------------------
  // Paths into a tree

  predicate ValidPath(n: Node, p: Path)
    decreases |p|
  {
    p == [] || (n.Element? && p[0] < |n.children| && ValidPath(n.children[p[0]], p[1..]))
  }

  function At(n: Node, p: Path): Node
    requires ValidPath(n, p)
    decreases |p|
  {
    if p == [] then n else At(n.children[p[0]], p[1..])
  }

  /** The node at p followed by its ancestors up to n: the chain namespace lookups walk. */
  function Chain(n: Node, p: Path): (r: seq<Node>)
    requires ValidPath(n, p)
    ensures |r| == |p| + 1 && r[0] == At(n, p) && r[|p|] == n
    decreases |p|
  {
    if p == [] then [n] else Chain(n.children[p[0]], p[1..]) + [n]
  }

  /** n with the subtree at p replaced by m. */
  function ReplaceAt(n: Node, p: Path, m: Node): (r: Node)
    requires ValidPath(n, p)
    ensures ValidPath(r, p) && At(r, p) == m
    ensures p != [] ==> r.Element? && n.Element? && |r.children| == |n.children|
    ensures p != [] ==> r.ns == n.ns && r.prefix == n.prefix && r.local == n.local && r.attrs == n.attrs
    ensures p != [] ==> forall j :: 0 <= j < |n.children| && j != p[0] ==> r.children[j] == n.children[j]
    decreases |p|
  {
    if p == [] then m
    else
      var c := ReplaceAt(n.children[p[0]], p[1..], m);
      var r := n.(children := n.children[p[0] := c]);
      assert r.children[p[0]] == c;
      r
  }

  /** Node.appendChild on the element at path p. */
  function AppendAt(n: Node, p: Path, c: Node): (r: Node)
    requires ValidPath(n, p) && At(n, p).Element?
    ensures ValidPath(r, p) && At(r, p) == AppendChild(At(n, p), c)
  {
    ReplaceAt(n, p, AppendChild(At(n, p), c))
  }

  // ---------------------------------------------------------------------------
  // getElementsByTagNameNS(ns, local).item(0): the first match in document order

  predicate Named(n: Node, ns: string, local: string)
  {
    n.Element? && n.ns == ns && n.local == local
  }

  /** Some element in the subtree rooted at n (n included) has the name. */
  predicate HasMatch(n: Node, ns: string, local: string)
    decreases n
  {
    Named(n, ns, local) ||
    (n.Element? && exists j :: 0 <= j < |n.children| && HasMatch(n.children[j], ns, local))
  }

  /** p leads to the first match in document order of the subtree rooted at n. */
  predicate IsFirstMatch(n: Node, p: Path, ns: string, local: string)
    decreases |p|
  {
    if p == [] then Named(n, ns, local)
    else
      n.Element? && !Named(n, ns, local) && p[0] < |n.children| &&
      (forall j :: 0 <= j < p[0] ==> !HasMatch(n.children[j], ns, local)) &&
      IsFirstMatch(n.children[p[0]], p[1..], ns, local)
  }

  /** As IsFirstMatch, but the search starts below n (Element.getElementsByTagNameNS excludes n). */
  predicate IsFirstDescendantMatch(n: Node, p: Path, ns: string, local: string)
  {
    p != [] && n.Element? && p[0] < |n.children| &&
    (forall j :: 0 <= j < p[0] ==> !HasMatch(n.children[j], ns, local)) &&
    IsFirstMatch(n.children[p[0]], p[1..], ns, local)
  }

  lemma {:induction false} FirstMatchIsMatch(n: Node, p: Path, ns: string, local: string)
    requires IsFirstMatch(n, p, ns, local)
    ensures ValidPath(n, p) && Named(At(n, p), ns, local)
    decreases |p|
  {
    if p != [] {
      FirstMatchIsMatch(n.children[p[0]], p[1..], ns, local);
    }
  }

  /** The path to the first element named (ns, local) in document order, the root included. */
  function FindFirst(n: Node, ns: string, local: string): (r: Option<Path>)
    ensures r.Some? ==> IsFirstMatch(n, r.value, ns, local)
    ensures r.None? ==> !HasMatch(n, ns, local)
    decreases n, if n.Element? then |n.children| + 1 else 0
  {
    if Named(n, ns, local) then Some([])
    else if n.Text? then None
    else FindFirstBelow(n, 0, ns, local)
  }

  /** The first match inside the children of n from index i on. */
  function FindFirstBelow(n: Node, i: nat, ns: string, local: string): (r: Option<Path>)
    requires n.Element?
    ensures r.Some? ==> r.value != [] && i <= r.value[0] < |n.children|
    ensures r.Some? ==> forall j :: i <= j < r.value[0] ==> !HasMatch(n.children[j], ns, local)
    ensures r.Some? ==> IsFirstMatch(n.children[r.value[0]], r.value[1..], ns, local)
    ensures r.None? ==> forall j :: i <= j < |n.children| ==> !HasMatch(n.children[j], ns, local)
    decreases n, |n.children| - i
  {
    if i >= |n.children| then None
    else match FindFirst(n.children[i], ns, local)
      case Some(q) => Some([i] + q)
      case None => FindFirstBelow(n, i + 1, ns, local)
  }

  /** Element.getElementsByTagNameNS(ns, local).item(0) as a path, or None for an empty list. */
  function FindFirstDescendant(n: Node, ns: string, local: string): (r: Option<Path>)
    ensures r.Some? ==> IsFirstDescendantMatch(n, r.value, ns, local)
    ensures r.None? ==> !n.Element? || forall j :: 0 <= j < |n.children| ==> !HasMatch(n.children[j], ns, local)
  {
    if n.Text? then None else FindFirstBelow(n, 0, ns, local)
  }

  // ---------------------------------------------------------------------------
  // All descendant elements in document order

  /** The element descendants of n in document order (n excluded). */
  function Descendants(n: Node): seq<Node>
    decreases n, if n.Element? then |n.children| + 1 else 0
  {
    if n.Text? then [] else DescendantsFrom(n, 0)
  }

  function DescendantsFrom(n: Node, i: nat): seq<Node>
    requires n.Element?
    decreases n, |n.children| - i
  {
    if i >= |n.children| then []
    else
      var c := n.children[i];
      (if c.Element? then [c] + Descendants(c) else []) + DescendantsFrom(n, i + 1)
  }
}
