/**
 * The request editing of the DescribeFeatureType tests: clearing the wfs:TypeName children of
 * the request entity before each test, and adding one wfs:TypeName for a feature type.
 */
module DescribeFeatureTypeTests {
  import opened Wrappers
  import opened Xml
  import opened Strings
  import opened WfsMessage
  import Namespaces

  // ---------------------------------------------------------------------------
  // removeAllTypeNames

  /** The element without its child at position i; the other children keep their order. */
  function RemoveChildAt(n: Node, i: nat): (r: Node)
    requires n.Element? && i < |n.children|
    ensures r.Element? && |r.children| == |n.children| - 1
    ensures r == n.(children := r.children)
    ensures forall j :: 0 <= j < i ==> r.children[j] == n.children[j]
    ensures forall j :: i <= j < |r.children| ==> r.children[j] == n.children[j + 1]
  {
    n.(children := n.children[..i] + n.children[i + 1..])
  }

  /** The children at the odd positions 1, 3, 5, ... of s, in order. */
  function {:induction false} OddPositions<T>(s: seq<T>): (r: seq<T>)
    ensures |r| == |s| / 2
    ensures forall j :: 0 <= j < |r| ==> r[j] == s[2 * j + 1]
  {
    if |s| < 2 then []
    else
      var rest := OddPositions(s[2..]);
      assert forall j :: 0 <= j < |rest| ==> rest[j] == s[2 * (j + 1) + 1];
      [s[1]] + rest
  }

  /**
   * removeAllTypeNames as written: an index loop over the live child list that removes the
   * child at the current index and then advances the index, so every removal shifts the next
   * child into the position just visited. The children at odd positions remain.
   */
  method RemoveAllTypeNamesAsWritten(doc: Document)
    requires doc.root.Element?
    modifies doc
    ensures doc.root == old(doc.root).(children := OddPositions(old(doc.root).children))
  {
    var children := RemoveAtEachIndex(doc.root.children);
    doc.root := doc.root.(children := children);
  }

  /** The removal loop over the live list: remove the item at i, then advance i. */
  method RemoveAtEachIndex<T>(s: seq<T>) returns (live: seq<T>)
    ensures live == OddPositions(s)
  {
    live := s;
    var i := 0;
    while i < |live|
      invariant 2 * i <= |s| + 1
      invariant live == Remaining(s, i)
    {
      RemainingStep(s, i);
      live := live[..i] + live[i + 1..];
      i := i + 1;
    }
    RemainingDone(s, i);
  }

  /** The live list after i rounds: the odd positions among the first 2i items, then the rest. */
  function Remaining<T>(s: seq<T>, i: nat): (r: seq<T>)
    requires 2 * i <= |s| + 1
  {
    if 2 * i <= |s| then OddPositions(s[..2 * i]) + s[2 * i..] else OddPositions(s)
  }

  /** A round removes the item at position i of the live list, the one at 2i of the original. */
  lemma RemainingStep<T>(s: seq<T>, i: nat)
    requires 2 * i <= |s| + 1 && i < |Remaining(s, i)|
    ensures 2 * i < |s|
    ensures Remaining(s, i)[..i] + Remaining(s, i)[i + 1..] == Remaining(s, i + 1)
  {
    assert 2 * i < |s|;
    if 2 * i + 2 <= |s| {
      RemainingStepInside(s, i);
    } else {
      RemainingStepLast(s, i);
    }
  }

  /** A round that leaves at least one later item behind the removed one. */
  lemma RemainingStepInside<T>(s: seq<T>, i: nat)
    requires 2 * i + 2 <= |s|
    ensures Remaining(s, i)[..i] + Remaining(s, i)[i + 1..] == Remaining(s, i + 1)
  {
    var odd := OddPositions(s[..2 * i]);
    var rest := s[2 * i..];
    assert |odd| == i;
    assert Remaining(s, i) == odd + rest;
    DropHeadOfRest(odd, rest);
    OddPositionsStep(s, i);
    assert rest[1..] == [s[2 * i + 1]] + s[2 * i + 2..];
    assert odd + ([s[2 * i + 1]] + s[2 * i + 2..]) == (odd + [s[2 * i + 1]]) + s[2 * i + 2..];
  }

  /** A round that removes the last item of an odd-length list. */
  lemma RemainingStepLast<T>(s: seq<T>, i: nat)
    requires 2 * i + 1 == |s|
    ensures Remaining(s, i)[..i] + Remaining(s, i)[i + 1..] == Remaining(s, i + 1)
  {
    var odd := OddPositions(s[..2 * i]);
    var rest := s[2 * i..];
    assert |odd| == i;
    assert Remaining(s, i) == odd + rest;
    DropHeadOfRest(odd, rest);
    assert rest[1..] == [];
    OddPositionsOddLength(s);
    assert s[..|s| - 1] == s[..2 * i];
  }

  /** Removing the item just after a front part leaves the front and the rest of the tail. */
  lemma DropHeadOfRest<T>(front: seq<T>, rest: seq<T>)
    requires |rest| > 0
    ensures (front + rest)[..|front|] + (front + rest)[|front| + 1..] == front + rest[1..]
  {
    assert (front + rest)[..|front|] == front;
    assert (front + rest)[|front| + 1..] == rest[1..];
  }

  /** When the index reaches the end of the live list, the odd positions remain. */
  lemma RemainingDone<T>(s: seq<T>, i: nat)
    requires 2 * i <= |s| + 1 && i >= |Remaining(s, i)|
    ensures Remaining(s, i) == OddPositions(s)
  {
    if 2 * i <= |s| {
      assert |Remaining(s, i)| == i + |s| - 2 * i;
      assert s[..2 * i] == s;
    }
  }

  /** Two more children add the second of them to the odd positions. */
  lemma OddPositionsStep<T>(s: seq<T>, i: nat)
    requires 2 * i + 2 <= |s|
    ensures OddPositions(s[..2 * i + 2]) == OddPositions(s[..2 * i]) + [s[2 * i + 1]]
  {
    var a := OddPositions(s[..2 * i + 2]);
    var b := OddPositions(s[..2 * i]) + [s[2 * i + 1]];
    assert |a| == |b|;
    forall j | 0 <= j < |a| ensures a[j] == b[j] {
      if j < i {
        assert a[j] == s[2 * j + 1];
      }
    }
  }

  /** A last child at an even position is not among the odd positions. */
  lemma OddPositionsOddLength<T>(s: seq<T>)
    requires |s| % 2 == 1
    ensures OddPositions(s) == OddPositions(s[..|s| - 1])
  {
    var a := OddPositions(s);
    var b := OddPositions(s[..|s| - 1]);
    assert |a| == |b|;
    forall j | 0 <= j < |a| ensures a[j] == b[j] {
      assert a[j] == s[2 * j + 1];
    }
  }

  /** The loop as written clears the list exactly when it had at most one child. */
  lemma AsWrittenClearsIffAtMostOne<T>(s: seq<T>)
    ensures OddPositions(s) == [] <==> |s| <= 1
  {
  }

  /** Two children: the loop as written removes the first and leaves the second. */
  lemma AsWrittenLeavesSecondOfTwo(first: Node, second: Node)
    ensures OddPositions([first, second]) == [second]
  {
  }

  /**
   * removeAllTypeNames as documented: every child of the document element is removed, and
   * its name, attributes and namespace stay as they were.
   */
  method RemoveAllTypeNames(doc: Document)
    requires doc.root.Element?
    modifies doc
    ensures doc.root == old(doc.root).(children := [])
  {
    while |doc.root.children| > 0
      invariant doc.root.Element?
      invariant doc.root == old(doc.root).(children := doc.root.children)
      decreases |doc.root.children|
    {
      doc.root := RemoveChildAt(doc.root, 0);
    }
  }

  // ---------------------------------------------------------------------------
  // addFeatureType

  /** The wfs:TypeName element naming a type with the given prefix. */
  function TypeNameElement(nsPrefix: string, featureType: QName): (r: Node)
    ensures r.Element? && Named(r, Namespaces.WFS, "TypeName") && r.prefix == "wfs" && r.attrs == []
    ensures TextContent(r) == nsPrefix + ":" + featureType.local
  {
    WithText(NewElement(Namespaces.WFS, "wfs", "TypeName"), nsPrefix + ":" + featureType.local)
  }

  /**
   * The request after addFeatureType: the document element gains a last child wfs:TypeName
   * whose text is "prefix:local", and binds the prefix to the type's namespace. The prefix is
   * the one the document element has for the namespace, else "ns" and the random number draw.
   */
  function AddedFeatureType(root: Node, featureType: QName, draw: nat): (r: Node)
    requires root.Element?
    ensures r.Element? && r.ns == root.ns && r.prefix == root.prefix && r.local == root.local
  {
    var nsPrefix := TypePrefix(root, featureType, draw);
    SetAttribute(AppendChild(root, TypeNameElement(nsPrefix, featureType)), "xmlns:" + nsPrefix, featureType.ns)
  }

  /** addFeatureType: the request entity is edited in place. */
  method AddFeatureType(doc: Document, featureType: QName, draw: nat)
    requires doc.root.Element?
    modifies doc
    ensures doc.root == AddedFeatureType(old(doc.root), featureType, draw)
  {
    var docElem := doc.root;
    var nsPrefix: string;
    var found := LookupPrefix([docElem], featureType.ns);
    if found.None? {
      nsPrefix := RandomPrefix(draw);
    } else {
      nsPrefix := found.value;
    }
    var typeName := NewElement(Namespaces.WFS, "", "TypeName");
    typeName := WithText(typeName, nsPrefix + ":" + featureType.local);
    typeName := typeName.(prefix := "wfs");
    docElem := AppendChild(docElem, typeName);
    docElem := SetAttribute(docElem, "xmlns:" + nsPrefix, featureType.ns);
    doc.root := docElem;
  }

  /**
   * addFeatureType appends exactly one child, a wfs:TypeName reading "prefix:local", keeps the
   * children already there, and declares the prefix for the type's namespace.
   */
  lemma AddFeatureTypeAppendsOne(root: Node, featureType: QName, draw: nat)
    requires root.Element?
    ensures var r := AddedFeatureType(root, featureType, draw);
      |r.children| == |root.children| + 1 && r.children[..|root.children|] == root.children
    ensures var r := AddedFeatureType(root, featureType, draw);
      var last := r.children[|root.children|];
      Named(last, Namespaces.WFS, "TypeName") && last.prefix == "wfs" &&
      TextContent(last) == TypePrefix(root, featureType, draw) + ":" + featureType.local
    ensures GetAttr(AddedFeatureType(root, featureType, draw).attrs,
                    XmlnsAttrName(TypePrefix(root, featureType, draw))) == Some(featureType.ns)
  {
    var nsPrefix := TypePrefix(root, featureType, draw);
    var appended := AppendChild(root, TypeNameElement(nsPrefix, featureType));
    assert nsPrefix != "" by {
      if LookupPrefix([root], featureType.ns).None? {
        assert nsPrefix == RandomPrefix(draw);
      }
    }
    assert appended.children[..|root.children|] == root.children;
  }

  /** A prefix the document element already has for the namespace is reused. */
  lemma AddFeatureTypeReusesPrefix(root: Node, featureType: QName, draw: nat, p: string)
    requires root.Element? && LookupPrefix([root], featureType.ns) == Some(p)
    ensures TypePrefix(root, featureType, draw) == p
    ensures GetAttr(AddedFeatureType(root, featureType, draw).attrs, "xmlns:" + p) == Some(featureType.ns)
  {
  }

  /**
   * Without a prefix for the namespace, the text is "ns", the digits of the draw, ":" and the
   * local name, and the first ':' of the text separates the prefix from the local name.
   */
  lemma AddFeatureTypeMadeUpPrefix(root: Node, featureType: QName, draw: nat)
    requires root.Element? && LookupPrefix([root], featureType.ns).None?
    ensures var text := TextContent(AddedFeatureType(root, featureType, draw).children[|root.children|]);
      text == "ns" + NatToString(draw) + ":" + featureType.local &&
      IndexOf(text, ':') == Some(2 + |NatToString(draw)|) &&
      text[2 + |NatToString(draw)| + 1..] == featureType.local
  {
    AddFeatureTypeAppendsOne(root, featureType, draw);
    assert TypePrefix(root, featureType, draw) == RandomPrefix(draw);
    MadeUpTypeNameText(draw, featureType.local);
  }

  /** The text of a type name under a made-up prefix: "ns", the digits, ':' and the local name after the first ':'. */
  lemma MadeUpTypeNameText(draw: nat, local: string)
    ensures var text := RandomPrefix(draw) + ":" + local;
      text == "ns" + NatToString(draw) + ":" + local &&
      IndexOf(text, ':') == Some(2 + |NatToString(draw)|) &&
      text[2 + |NatToString(draw)| + 1..] == local
  {
    RandomPrefixHasNoColon(draw);
    FirstSeparatorSplits(RandomPrefix(draw), ':', local);
  }

  /** A made-up prefix is "ns" and digits, so it holds no ':'. */
  lemma RandomPrefixHasNoColon(draw: nat)
    ensures RandomPrefix(draw) == "ns" + NatToString(draw) && ':' !in RandomPrefix(draw)
  {
    var p := RandomPrefix(draw);
    forall j | 0 <= j < |p| ensures p[j] != ':' {
      if j >= 2 {
        assert p[j] == NatToString(draw)[j - 2];
      }
    }
  }

  /**
   * The request the unit test builds: an empty DescribeFeatureType request, one type added;
   * its one TypeName reads "prefix:Unknown1.Type" with the local name after the first ':'.
   */
  method AddOneFeatureTypeExample(emptyRequest: Node, draw: nat) returns (doc: Document)
    requires emptyRequest.Element? && emptyRequest.children == [] && emptyRequest.attrs == []
    requires emptyRequest.ns == Namespaces.WFS && emptyRequest.prefix == "wfs"
    ensures doc.root.Element? && |doc.root.children| == 1 && Named(doc.root.children[0], Namespaces.WFS, "TypeName")
    ensures var text := TextContent(doc.root.children[0]);
      IndexOf(text, ':').Some? && text[IndexOf(text, ':').value + 1..] == "Unknown1.Type"
  {
    var featureType := QName("http://example.org", "Unknown1.Type");
    doc := new Document(emptyRequest);
    AddFeatureType(doc, featureType, draw);
    assert LookupPrefix([emptyRequest], featureType.ns).None? by {
      assert emptyRequest.ns != featureType.ns;
      assert LookupPrefix([emptyRequest][1..], featureType.ns).None?;
    }
    AddFeatureTypeAppendsOne(emptyRequest, featureType, draw);
    AddFeatureTypeMadeUpPrefix(emptyRequest, featureType, draw);
  }
}
