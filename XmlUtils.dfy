/** Element construction, child searches and the null guards of the serialisation helpers. */
module XmlUtils {
  import opened Wrappers
  import opened Xml

  /**
   * createElement: a new element named "prefix:local" when the QName's prefix is non-empty,
   * else "local", in the QName's namespace, with no attributes and no children. Being a
   * value, it has no parent until it is appended somewhere.
   */
  function CreateElement(qName: QName, prefix: string): (r: Node)
    ensures r.Element? && r.ns == qName.ns && r.local == qName.local && r.prefix == prefix
    ensures NodeName(r) == if prefix == "" then qName.local else prefix + ":" + qName.local
    ensures r.attrs == [] && r.children == []
  {
    NewElement(qName.ns, prefix, qName.local)
  }

  /** The child nodes of a node (a text node has none). */
  function ChildNodes(n: Node): seq<Node>
  {
    if n.Element? then n.children else []
  }

  /** The element children in namespace ns, in document order. */
  function ElementsInNamespace(cs: seq<Node>, ns: string): (r: seq<Node>)
    ensures |r| <= |cs|
  {
    if cs == [] then []
    else (if cs[0].Element? && cs[0].ns == ns then [cs[0]] else []) + ElementsInNamespace(cs[1..], ns)
  }

  /** The list holds exactly the element children in the namespace. */
  lemma {:induction false} ElementsInNamespaceMembers(cs: seq<Node>, ns: string, x: Node)
    ensures x in ElementsInNamespace(cs, ns) <==> x in cs && x.Element? && x.ns == ns
  {
    if cs != [] {
      ElementsInNamespaceMembers(cs[1..], ns, x);
      assert cs == [cs[0]] + cs[1..];
    }
  }

  /** Some element child is in no namespace: comparing its namespace name throws. */
  predicate HasUnqualifiedElement(cs: seq<Node>)
  {
    exists i :: 0 <= i < |cs| && cs[i].Element? && cs[i].ns == ""
  }

  /**
   * getElementsByNamespaceURI: the element children in the namespace, in document order.
   * A child element in no namespace raises a NullPointerException.
   */
  method GetElementsByNamespaceURI(node: Node, ns: string) returns (r: Result<seq<Node>>)
    ensures r.Err? <==> HasUnqualifiedElement(ChildNodes(node))
    ensures r.Ok? ==> r.value == ElementsInNamespace(ChildNodes(node), ns)
  {
    var children := ChildNodes(node);
    var list: seq<Node> := [];
    var i := 0;
    while i < |children|
      invariant 0 <= i <= |children|
      invariant list == ElementsInNamespace(children[..i], ns)
      invariant forall j :: 0 <= j < i ==> !(children[j].Element? && children[j].ns == "")
    {
      var child := children[i];
      assert children[..i + 1] == children[..i] + [child];
      ElementsInNamespaceAppend(children[..i], child, ns);
      if !child.Element? {
        i := i + 1;
        continue;
      }
      if child.ns == "" {
        assert children[i].Element? && children[i].ns == "";
        return Err(NullPointer("element child has no namespace"));
      }
      if child.ns == ns {
        list := list + [child];
      }
      i := i + 1;
    }
    assert children[..i] == children;
    r := Ok(list);
  }

  lemma {:induction false} ElementsInNamespaceAppend(cs: seq<Node>, c: Node, ns: string)
    ensures ElementsInNamespace(cs + [c], ns) ==
      ElementsInNamespace(cs, ns) + (if c.Element? && c.ns == ns then [c] else [])
  {
    if cs != [] {
      assert (cs + [c])[1..] == cs[1..] + [c];
      ElementsInNamespaceAppend(cs[1..], c, ns);
    } else {
      assert cs + [c] == [c];
    }
  }

  /** The index of the first element child that is named (ns, local) or is in no namespace. */
  function FirstStop(cs: seq<Node>, ns: string, local: string, from: nat): (r: Option<nat>)
    requires from <= |cs|
    ensures r.Some? ==>
      from <= r.value < |cs| && cs[r.value].Element? &&
      (cs[r.value].ns == "" || (cs[r.value].ns == ns && cs[r.value].local == local))
    ensures forall j :: from <= j < (if r.Some? then r.value else |cs|) ==>
      !(cs[j].Element? && (cs[j].ns == "" || (cs[j].ns == ns && cs[j].local == local)))
    decreases |cs| - from
  {
    if from == |cs| then None
    else if cs[from].Element? && (cs[from].ns == "" || (cs[from].ns == ns && cs[from].local == local)) then Some(from)
    else FirstStop(cs, ns, local, from + 1)
  }

  /**
   * getElementByNamespaceURIandLocalPart: the first element child with the namespace and local
   * name, or None for null. An element child in no namespace met before it raises a
   * NullPointerException.
   */
  method GetElementByNamespaceURIAndLocalPart(node: Node, ns: string, local: string) returns (r: Result<Option<Node>>)
    ensures var cs := ChildNodes(node);
      var stop := FirstStop(cs, ns, local, 0);
      (stop.None? ==> r == Ok(None)) &&
      (stop.Some? && cs[stop.value].ns == "" ==> r.Err?) &&
      (stop.Some? && cs[stop.value].ns != "" ==> r == Ok(Some(cs[stop.value])))
    ensures r.Ok? && r.value.Some? ==> r.value.value in ChildNodes(node) && Named(r.value.value, ns, local)
  {
    var children := ChildNodes(node);
    var i := 0;
    while i < |children|
      invariant 0 <= i <= |children|
      invariant FirstStop(children, ns, local, 0) == FirstStop(children, ns, local, i)
    {
      var child := children[i];
      if !child.Element? {
        i := i + 1;
        continue;
      }
      if child.ns == "" {
        return Err(NullPointer("element child has no namespace"));
      }
      if child.ns == ns && child.local == local {
        return Ok(Some(child));
      }
      i := i + 1;
    }
    r := Ok(None);
  }

  /** A search whose children are all in namespaces finds a match iff one exists. */
  lemma FoundIffPresent(cs: seq<Node>, ns: string, local: string)
    requires !HasUnqualifiedElement(cs)
    ensures FirstStop(cs, ns, local, 0).Some? <==> exists i :: 0 <= i < |cs| && Named(cs[i], ns, local)
  {
  }

  /** writeNodeToString: a null node (None) is rejected; otherwise the node's serialisation. */
  function WriteNodeToString(node: Option<Node>, serialize: Node -> string): (r: Result<string>)
    ensures node.None? <==> r.Err?
    ensures r.Err? ==> r.error.IllegalArgument?
    ensures node.Some? ==> r == Ok(serialize(node.value))
  {
    if node.None? then Err(IllegalArgument("Supplied node is null.")) else Ok(serialize(node.value))
  }

  /** resultToString: a null transformation result (None) is rejected; otherwise its content as text. */
  function ResultToString<R>(result: Option<R>, content: R -> string): (r: Result<string>)
    ensures result.None? <==> r.Err?
    ensures r.Err? ==> r.error.IllegalArgument?
    ensures result.Some? ==> r == Ok(content(result.value))
  {
    if result.None? then Err(IllegalArgument("Result is null.")) else Ok(content(result.value))
  }
}
