/**
 * Spatial join queries: a wfs:Query over two feature types whose filter relates one property
 * of each by a spatial operator (section 7.9 of ISO 19142:2010, with the predicate of
 * section 7.8 of ISO 19143:2010).
 */
module JoinQueryUtils {
  import opened Wrappers
  import opened Strings
  import opened Xml
  import Namespaces
  import opened WfsMessage
  import opened DataSampling

  // ---------------------------------------------------------------------------
  // Namespace declarations

  /** An xmlns:p attribute declares p. */
  lemma DeclaredPrefixOfXmlns(p: string, v: string)
    requires p != ""
    ensures DeclaredPrefix(Attr(XmlnsAttrName(p), v)) == Some(p)
  {
    var name := XmlnsAttrName(p);
    assert name[..6] == "xmlns:" && name[6..] == p;
  }

  /** Declaring p for a namespace no attribute declares yet makes p the prefix found for it. */
  lemma {:induction false} DeclareUnbound(attrs: seq<Attr>, p: string, ns: string)
    requires p != "" && PrefixDeclaredFor(attrs, ns).None?
    ensures PrefixDeclaredFor(SetAttr(attrs, XmlnsAttrName(p), ns), ns) == Some(p)
    decreases |attrs|
  {
    DeclaredPrefixOfXmlns(p, ns);
    if attrs != [] && attrs[0].name != XmlnsAttrName(p) {
      DeclareUnbound(attrs[1..], p, ns);
      assert SetAttr(attrs, XmlnsAttrName(p), ns)[1..] == SetAttr(attrs[1..], XmlnsAttrName(p), ns);
    }
  }

  /**
   * Setting another attribute to another value leaves the prefix found for a namespace alone,
   * unless the attribute is the very declaration found.
   */
  lemma {:induction false} DeclarationKept(attrs: seq<Attr>, name: string, v: string, ns: string)
    requires v != ns
    requires PrefixDeclaredFor(attrs, ns).Some? ==> name != XmlnsAttrName(PrefixDeclaredFor(attrs, ns).value)
    ensures PrefixDeclaredFor(SetAttr(attrs, name, v), ns) == PrefixDeclaredFor(attrs, ns)
    decreases |attrs|
  {
    var r := SetAttr(attrs, name, v);
    if attrs == [] {
      assert r == [Attr(name, v)];
    } else if attrs[0].name == name {
      assert r == [Attr(name, v)] + attrs[1..];
      assert r[1..] == attrs[1..];
      if DeclaredPrefix(attrs[0]).Some? && attrs[0].value == ns {
        assert false;
      }
    } else {
      assert r == [attrs[0]] + SetAttr(attrs[1..], name, v);
      assert r[1..] == SetAttr(attrs[1..], name, v);
      if !(DeclaredPrefix(attrs[0]).Some? && attrs[0].value == ns) {
        DeclarationKept(attrs[1..], name, v, ns);
      }
    }
  }

  // ---------------------------------------------------------------------------
  // The query and its typeNames

  function EmptyQuery(): (r: Node)
    ensures r.Element? && r.ns == Namespaces.WFS && r.prefix == "wfs" && r.local == "Query"
  {
    NewElement(Namespaces.WFS, "wfs", "Query")
  }

  /** The prefix for a feature type: one in scope at the query, else "ns" and a number. */
  function TypePrefixAt(query: Node, docElem: Node, featureType: QName, draw: nat): (r: string)
    ensures r != ""
  {
    match LookupPrefix([query, docElem], featureType.ns)
    case Some(p) => p
    case None => RandomPrefix(draw)
  }

  /** The query after the type step: a declaration for the namespace if none was in scope. */
  function DeclareType(query: Node, docElem: Node, featureType: QName, draw: nat): (r: Node)
    requires query.Element?
    ensures r.Element? && r.ns == query.ns && r.prefix == query.prefix && r.local == query.local
    ensures r.children == query.children
  {
    if LookupPrefix([query, docElem], featureType.ns).Some? then query
    else SetAttribute(query, XmlnsAttrName(TypePrefixAt(query, docElem, featureType, draw)), featureType.ns)
  }

  /**
   * After the type step, looking the type's namespace up from the query finds the prefix that
   * went into typeNames.
   */
  lemma TypePrefixInScope(query: Node, docElem: Node, featureType: QName, draw: nat)
    requires query.Element? && featureType.ns != ""
    ensures LookupPrefix([DeclareType(query, docElem, featureType, draw), docElem], featureType.ns) ==
      Some(TypePrefixAt(query, docElem, featureType, draw))
  {
    var p := TypePrefixAt(query, docElem, featureType, draw);
    var q := DeclareType(query, docElem, featureType, draw);
    if LookupPrefix([query, docElem], featureType.ns).None? {
      assert [q, docElem][1..] == [docElem] && [query, docElem][1..] == [docElem];
      assert PrefixDeclaredFor(query.attrs, featureType.ns).None?;
      DeclareUnbound(query.attrs, p, featureType.ns);
    }
  }

  /**
   * The loop over the properties: the query with the declarations it gained, and the
   * "prefix:Type" entries of typeNames, in order.
   */
  function DeclareTypes(docElem: Node, props: seq<FeatureProperty>, typeDraw: nat -> nat): (r: (Node, seq<string>))
    ensures r.0.Element? && r.0.ns == Namespaces.WFS && r.0.prefix == "wfs" && r.0.local == "Query"
    ensures r.0.children == [] && |r.1| == |props|
    decreases |props|
  {
    if props == [] then (EmptyQuery(), [])
    else
      var n := |props| - 1;
      var before := DeclareTypes(docElem, props[..n], typeDraw);
      var t := props[n].featureType;
      (DeclareType(before.0, docElem, t, typeDraw(n)),
       before.1 + [TypePrefixAt(before.0, docElem, t, typeDraw(n)) + ":" + t.local])
  }

  // ---------------------------------------------------------------------------
  // The value references

  /** The prefix for a property's namespace: one in scope at the predicate, else "ns-" and a number. */
  function PropertyPrefix(chain: seq<Node>, property: QName, draw: nat): (r: string)
  {
    match LookupPrefix(chain, property.ns)
    case Some(p) => p
    case None => "ns-" + NatToString(draw)
  }

  /** The type prefix as text: the one in scope, or "null" when there is none. */
  function TypePrefixText(chain: seq<Node>, featureType: QName): string
  {
    match LookupPrefix(chain, featureType.ns)
    case Some(p) => p
    case None => "null"
  }

  /** The path "typePrefix:Type/propPrefix:prop" a value reference holds. */
  function ValueRefPath(chain: seq<Node>, fp: FeatureProperty, draw: nat): string
  {
    TypePrefixText(chain, fp.featureType) + ":" + fp.featureType.local + "/" +
      PropertyPrefix(chain, fp.property, draw) + ":" + fp.property.local
  }

  /**
   * appendValueRefToPredicate: a fes:ValueReference with the path of the property; chain is the
   * predicate and its ancestors, where the prefixes are looked up.
   */
  function JoinValueReference(chain: seq<Node>, fp: FeatureProperty, draw: nat): (r: Node)
    ensures r.Element? && r.ns == Namespaces.FES && r.prefix == "" && r.local == "ValueReference"
    ensures TextContent(r) == ValueRefPath(chain, fp, draw)
    ensures LookupPrefix(chain, fp.property.ns).Some? ==> r.attrs == []
    ensures LookupPrefix(chain, fp.property.ns).None? ==>
      r.attrs == [Attr(XmlnsAttrName(PropertyPrefix(chain, fp.property, draw)), fp.property.ns)]
  {
    var attrs := if LookupPrefix(chain, fp.property.ns).Some? then []
      else [Attr(XmlnsAttrName(PropertyPrefix(chain, fp.property, draw)), fp.property.ns)];
    WithText(Element(Namespaces.FES, "", "ValueReference", attrs, []), ValueRefPath(chain, fp, draw))
  }

  /** A property prefix made up for the value reference resolves, from it, to the property's namespace. */
  lemma PropertyPrefixResolves(chain: seq<Node>, fp: FeatureProperty, draw: nat)
    requires LookupPrefix(chain, fp.property.ns).None? && fp.property.ns != ""
    ensures LookupNamespaceURI([JoinValueReference(chain, fp, draw)] + chain, PropertyPrefix(chain, fp.property, draw)) ==
      Some(fp.property.ns)
  {
    var vr := JoinValueReference(chain, fp, draw);
    var p := PropertyPrefix(chain, fp.property, draw);
    assert p == "ns-" + NatToString(draw) && p != "";
    assert ([vr] + chain)[0] == vr;
  }

  // ---------------------------------------------------------------------------
  // appendSpatialJoinQuery

  /** The predicate and its ancestors when the value references are appended. */
  function PredicateChain(query: Node, docElem: Node, operator: string): seq<Node>
  {
    [NewElement(Namespaces.FES, "", operator), NewElement(Namespaces.FES, "", "Filter"), query, docElem]
  }

  /** The wfs:Query appendSpatialJoinQuery builds for two feature properties. */
  function SpatialJoinQuery(docElem: Node, operator: string, props: seq<FeatureProperty>,
                            typeDraw: nat -> nat, propDraw: nat -> nat): (r: Node)
    requires |props| == 2
    ensures r.Element? && r.ns == Namespaces.WFS && r.local == "Query"
  {
    var declared := DeclareTypes(docElem, props, typeDraw);
    var query := SetAttribute(declared.0, "typeNames", Trim(JoinTerminated(declared.1, ' ')));
    var chain := PredicateChain(query, docElem, operator);
    var predicateElem := Element(Namespaces.FES, "", operator, [],
      [JoinValueReference(chain, props[0], propDraw(0)), JoinValueReference(chain, props[1], propDraw(1))]);
    AppendChild(query, Element(Namespaces.FES, "", "Filter", [], [predicateElem]))
  }

  /**
   * appendSpatialJoinQuery: appends a wfs:Query over the types of the two properties with a
   * filter relating the properties by the operator. A request other than GetFeature, a missing
   * property list or one of another size than two is refused and the request left unchanged.
   * typeDraw and propDraw are the random numbers for made-up prefixes.
   */
  method AppendSpatialJoinQuery(doc: Document, operator: string, properties: Option<seq<FeatureProperty>>,
                                typeDraw: nat -> nat, propDraw: nat -> nat) returns (r: Result<()>)
    requires doc.root.Element?
    modifies doc
    ensures old(doc.root).local != "GetFeature" ==> r.Err? && r.error.IllegalArgument?
    ensures old(doc.root).local == "GetFeature" && properties.None? ==> r.Err? && r.error.NullPointer?
    ensures old(doc.root).local == "GetFeature" && properties.Some? && |properties.value| != 2 ==>
      r.Err? && r.error.IllegalArgument?
    ensures r.Err? ==> doc.root == old(doc.root)
    ensures r.Ok? ==> properties.Some? && |properties.value| == 2
    ensures r.Ok? ==>
      doc.root == AppendChild(old(doc.root), SpatialJoinQuery(old(doc.root), operator, properties.value, typeDraw, propDraw))
  {
    var docElem := doc.root;
    if docElem.local != "GetFeature" {
      return Err(IllegalArgument("Not a GetFeature request: " + NodeName(docElem)));
    }
    if properties.None? {
      return Err(NullPointer("Feature properties are required."));
    }
    var props := properties.value;
    if |props| != 2 {
      return Err(IllegalArgument("Two feature properties are required"));
    }
    var query, typeNames := TypeNamesLoop(docElem, props, typeDraw);
    query := SetAttribute(query, "typeNames", Trim(typeNames));
    var chain := PredicateChain(query, docElem, operator);
    var first := JoinValueReference(chain, props[0], propDraw(0));
    var second := JoinValueReference(chain, props[1], propDraw(1));
    var predicateElem := Element(Namespaces.FES, "", operator, [], [first, second]);
    query := AppendChild(query, Element(Namespaces.FES, "", "Filter", [], [predicateElem]));
    doc.root := AppendChild(docElem, query);
    return Ok(());
  }

  /**
   * The loop over the properties: each type's prefix is looked up from the query, declared there
   * when none is in scope, and "prefix:Type " is appended to the typeNames text.
   */
  method TypeNamesLoop(docElem: Node, props: seq<FeatureProperty>, typeDraw: nat -> nat) returns (query: Node, typeNames: string)
    ensures query == DeclareTypes(docElem, props, typeDraw).0
    ensures typeNames == JoinTerminated(DeclareTypes(docElem, props, typeDraw).1, ' ')
  {
    query := EmptyQuery();
    var entries: seq<string> := [];
    typeNames := "";
    var i := 0;
    while i < |props|
      invariant 0 <= i <= |props|
      invariant query == DeclareTypes(docElem, props[..i], typeDraw).0
      invariant entries == DeclareTypes(docElem, props[..i], typeDraw).1
      invariant typeNames == JoinTerminated(entries, ' ')
    {
      var featureType := props[i].featureType;
      var entry := TypePrefixAt(query, docElem, featureType, typeDraw(i)) + ":" + featureType.local;
      TypeNamesStep(docElem, props, typeDraw, i, query, entries);
      query := DeclareType(query, docElem, featureType, typeDraw(i));
      entries := entries + [entry];
      typeNames := typeNames + entry + " ";
      i := i + 1;
    }
    assert props[..i] == props;
  }

  /** One pass of TypeNamesLoop from the state after the first i properties gives the state after i + 1. */
  lemma TypeNamesStep(docElem: Node, props: seq<FeatureProperty>, typeDraw: nat -> nat, i: nat, query: Node, entries: seq<string>)
    requires i < |props|
    requires (query, entries) == DeclareTypes(docElem, props[..i], typeDraw)
    ensures var featureType := props[i].featureType;
      var entry := TypePrefixAt(query, docElem, featureType, typeDraw(i)) + ":" + featureType.local;
      (DeclareType(query, docElem, featureType, typeDraw(i)), entries + [entry]) == DeclareTypes(docElem, props[..i + 1], typeDraw) &&
      JoinTerminated(entries + [entry], ' ') == JoinTerminated(entries, ' ') + entry + " "
  {
    var featureType := props[i].featureType;
    var entry := TypePrefixAt(query, docElem, featureType, typeDraw(i)) + ":" + featureType.local;
    DeclareTypesStep(docElem, props, typeDraw, i);
    JoinTerminatedAppend(entries, entry, ' ');
  }

  /** One more property extends the loop's result by that property's step. */
  lemma DeclareTypesStep(docElem: Node, props: seq<FeatureProperty>, typeDraw: nat -> nat, i: nat)
    requires i < |props|
    ensures var before := DeclareTypes(docElem, props[..i], typeDraw);
      DeclareTypes(docElem, props[..i + 1], typeDraw) ==
        (DeclareType(before.0, docElem, props[i].featureType, typeDraw(i)),
         before.1 + [TypePrefixAt(before.0, docElem, props[i].featureType, typeDraw(i)) + ":" + props[i].featureType.local])
  {
    assert props[..i + 1][..i] == props[..i] && props[..i + 1][i] == props[i];
  }

  // ---------------------------------------------------------------------------
  // Properties of the join query

  /** The query holds one fes:Filter whose one predicate, the operator, holds the two value references in order. */
  lemma JoinQueryShape(docElem: Node, operator: string, props: seq<FeatureProperty>, typeDraw: nat -> nat, propDraw: nat -> nat)
    requires |props| == 2
    ensures var q := SpatialJoinQuery(docElem, operator, props, typeDraw, propDraw);
      |q.children| == 1 && Named(q.children[0], Namespaces.FES, "Filter") &&
      |q.children[0].children| == 1 && Named(q.children[0].children[0], Namespaces.FES, operator) &&
      |q.children[0].children[0].children| == 2
    ensures var q := SpatialJoinQuery(docElem, operator, props, typeDraw, propDraw);
      var declared := DeclareTypes(docElem, props, typeDraw);
      var chain := PredicateChain(SetAttribute(declared.0, "typeNames", Trim(JoinTerminated(declared.1, ' '))), docElem, operator);
      forall k :: 0 <= k < 2 ==>
        Named(q.children[0].children[0].children[k], Namespaces.FES, "ValueReference") &&
        TextContent(q.children[0].children[0].children[k]) == ValueRefPath(chain, props[k], propDraw(k))
  {
  }

  /** With entries that are non-empty and untrimmable, typeNames is "p1:T1 p2:T2". */
  lemma JoinTypeNames(docElem: Node, operator: string, props: seq<FeatureProperty>, typeDraw: nat -> nat, propDraw: nat -> nat)
    requires |props| == 2
    requires AllTrimmedNonEmpty(DeclareTypes(docElem, props, typeDraw).1)
    ensures var entries := DeclareTypes(docElem, props, typeDraw).1;
      Attribute(SpatialJoinQuery(docElem, operator, props, typeDraw, propDraw), "typeNames") ==
        entries[0] + " " + entries[1]
  {
    var entries := DeclareTypes(docElem, props, typeDraw).1;
    TrimmedSpaceTerminatedJoin(entries);
    assert Join(entries, ' ') == entries[0] + [' '] + Join(entries[1..], ' ');
  }

  /** The predicate and the filter declare nothing, so lookups from the predicate are lookups from the query. */
  lemma PredicateLookup(query: Node, docElem: Node, operator: string, ns: string)
    ensures LookupPrefix(PredicateChain(query, docElem, operator), ns) == LookupPrefix([query, docElem], ns)
  {
    var chain := PredicateChain(query, docElem, operator);
    assert chain[1..][1..] == [query, docElem];
  }

  /**
   * The value reference names each feature type by the prefix the typeNames entry uses for it,
   * unless the two types' made-up declarations collide.
   */
  lemma ValueRefTypePrefixMatchesTypeNames(docElem: Node, operator: string, props: seq<FeatureProperty>,
                                           typeDraw: nat -> nat, k: nat)
    requires |props| == 2 && k < 2
    requires props[k].featureType.ns != "" && props[k].featureType.ns != Namespaces.FES
    requires NoCollision(docElem, props, typeDraw)
    ensures var declared := DeclareTypes(docElem, props, typeDraw);
      var query := SetAttribute(declared.0, "typeNames", Trim(JoinTerminated(declared.1, ' ')));
      declared.1[k] == TypePrefixText(PredicateChain(query, docElem, operator), props[k].featureType) + ":" +
                       props[k].featureType.local
  {
    var declared := DeclareTypes(docElem, props, typeDraw);
    var query := SetAttribute(declared.0, "typeNames", Trim(JoinTerminated(declared.1, ' ')));
    var t := props[k].featureType;
    TypeNamesPrefixInScope(docElem, props, typeDraw, k);
    TypeNamesKeepsLookup(declared.0, docElem, Trim(JoinTerminated(declared.1, ' ')), t.ns);
    PredicateLookup(query, docElem, operator, t.ns);
    DeclareTypesEntry(docElem, props, typeDraw, k);
  }

  /** Setting typeNames on the query leaves every prefix lookup from it as it was. */
  lemma TypeNamesKeepsLookup(query: Node, docElem: Node, v: string, ns: string)
    requires query.Element?
    ensures LookupPrefix([SetAttribute(query, "typeNames", v), docElem], ns) == LookupPrefix([query, docElem], ns)
  {
    var q := SetAttribute(query, "typeNames", v);
    TypeNamesAttrDeclaresNothing(query.attrs, v, ns);
    assert [q, docElem][1..] == [docElem] && [query, docElem][1..] == [docElem];
  }

  /** Setting typeNames, which is no xmlns attribute, declares no prefix. */
  lemma {:induction false} TypeNamesAttrDeclaresNothing(attrs: seq<Attr>, v: string, ns: string)
    ensures PrefixDeclaredFor(SetAttr(attrs, "typeNames", v), ns) == PrefixDeclaredFor(attrs, ns)
    decreases |attrs|
  {
    var r := SetAttr(attrs, "typeNames", v);
    assert DeclaredPrefix(Attr("typeNames", v)).None? by {
      assert "typeNames"[..6][0] != "xmlns:"[0];
    }
    if attrs == [] {
      assert r == [Attr("typeNames", v)];
    } else if attrs[0].name == "typeNames" {
      assert r == [Attr("typeNames", v)] + attrs[1..];
      assert r[1..] == attrs[1..];
      assert DeclaredPrefix(attrs[0]).None?;
    } else {
      assert r == [attrs[0]] + SetAttr(attrs[1..], "typeNames", v);
      assert r[1..] == SetAttr(attrs[1..], "typeNames", v);
      TypeNamesAttrDeclaresNothing(attrs[1..], v, ns);
    }
  }

  /** The second type's made-up declaration does not replace the first's. */
  predicate NoCollision(docElem: Node, props: seq<FeatureProperty>, typeDraw: nat -> nat)
    requires |props| == 2
  {
    var q0 := DeclareTypes(docElem, props[..0], typeDraw).0;
    var q1 := DeclareTypes(docElem, props[..1], typeDraw).0;
    LookupPrefix([q0, docElem], props[0].featureType.ns).None? &&
    LookupPrefix([q1, docElem], props[1].featureType.ns).None? ==>
      typeDraw(0) != typeDraw(1)
  }

  /** The k-th entry is the prefix the k-th step chose and the type's local name. */
  lemma DeclareTypesEntry(docElem: Node, props: seq<FeatureProperty>, typeDraw: nat -> nat, k: nat)
    requires |props| == 2 && k < 2
    ensures DeclareTypes(docElem, props, typeDraw).1[k] ==
      TypePrefixAt(DeclareTypes(docElem, props[..k], typeDraw).0, docElem, props[k].featureType, typeDraw(k)) + ":" +
      props[k].featureType.local
  {
    assert props[..2] == props;
    assert props[..2][..1] == props[..1];
    assert props[..1][..0] == props[..0];
  }

  /** Each type's prefix in typeNames is still the one found for its namespace on the final query. */
  lemma TypeNamesPrefixInScope(docElem: Node, props: seq<FeatureProperty>, typeDraw: nat -> nat, k: nat)
    requires |props| == 2 && k < 2 && props[k].featureType.ns != ""
    requires NoCollision(docElem, props, typeDraw)
    ensures LookupPrefix([DeclareTypes(docElem, props, typeDraw).0, docElem], props[k].featureType.ns) ==
      Some(TypePrefixAt(DeclareTypes(docElem, props[..k], typeDraw).0, docElem, props[k].featureType, typeDraw(k)))
  {
    DeclareTypesStep(docElem, props, typeDraw, 0);
    DeclareTypesStep(docElem, props, typeDraw, 1);
    assert props[..2] == props;
    var q1 := DeclareTypes(docElem, props[..1], typeDraw).0;
    if k == 1 {
      TypePrefixInScope(q1, docElem, props[1].featureType, typeDraw(1));
    } else {
      FirstTypePrefixKept(docElem, props[0].featureType, props[1].featureType, typeDraw(0), typeDraw(1));
    }
  }

  /**
   * The first type's prefix is still found after the second type's step, unless that step made
   * up the same xmlns attribute, which distinct draws rule out.
   */
  lemma FirstTypePrefixKept(docElem: Node, t0: QName, t1: QName, d0: nat, d1: nat)
    requires t0.ns != ""
    requires (LookupPrefix([EmptyQuery(), docElem], t0.ns).None? &&
      LookupPrefix([DeclareType(EmptyQuery(), docElem, t0, d0), docElem], t1.ns).None?) ==> d0 != d1
    ensures var q1 := DeclareType(EmptyQuery(), docElem, t0, d0);
      LookupPrefix([DeclareType(q1, docElem, t1, d1), docElem], t0.ns) == Some(TypePrefixAt(EmptyQuery(), docElem, t0, d0))
  {
    var q0 := EmptyQuery();
    var q1 := DeclareType(q0, docElem, t0, d0);
    var q2 := DeclareType(q1, docElem, t1, d1);
    TypePrefixInScope(q0, docElem, t0, d0);
    var p0 := TypePrefixAt(q0, docElem, t0, d0);
    assert LookupPrefix([q1, docElem], t0.ns) == Some(p0);
    if LookupPrefix([q1, docElem], t1.ns).None? {
      var p1 := RandomPrefix(d1);
      assert [q1, docElem][1..] == [docElem] && [q2, docElem][1..] == [docElem];
      assert t1.ns != t0.ns;
      if !(q1.ns == t0.ns && q1.prefix != "") && PrefixDeclaredFor(q1.attrs, t0.ns).Some? {
        var x := PrefixDeclaredFor(q1.attrs, t0.ns).value;
        assert x == p0;
        if XmlnsAttrName(p1) == XmlnsAttrName(x) {
          // p0 was found on q1 but not on q0's chain beyond, so it was made up at step 0.
          assert LookupPrefix([q0, docElem], t0.ns).None?;
          assert p0 == RandomPrefix(d0);
          RandomDeclarationsDistinct(d0, d1);
          assert false;
        }
        DeclarationKept(q1.attrs, XmlnsAttrName(p1), t1.ns, t0.ns);
      }
    }
  }

  // ---------------------------------------------------------------------------
  // Property prefixes found on the query

  /** The query once typeNames is set, before the filter is appended. */
  function TypedQuery(docElem: Node, props: seq<FeatureProperty>, typeDraw: nat -> nat): (r: Node)
    ensures r.Element? && r.ns == Namespaces.WFS && r.prefix == "wfs"
  {
    var declared := DeclareTypes(docElem, props, typeDraw);
    SetAttribute(declared.0, "typeNames", Trim(JoinTerminated(declared.1, ' ')))
  }

  /** No two attributes share a name. */
  predicate DistinctNames(attrs: seq<Attr>)
  {
    forall i, j :: 0 <= i < j < |attrs| ==> attrs[i].name != attrs[j].name
  }

  /** setAttribute never gives two attributes the same name. */
  lemma {:induction false} SetAttrKeepsDistinct(attrs: seq<Attr>, name: string, v: string)
    requires DistinctNames(attrs)
    ensures DistinctNames(SetAttr(attrs, name, v))
    decreases |attrs|
  {
    var r := SetAttr(attrs, name, v);
    if attrs == [] {
    } else if attrs[0].name == name {
      assert r == [Attr(name, v)] + attrs[1..];
      forall i, j | 0 <= i < j < |r| ensures r[i].name != r[j].name {
        assert r[j] == attrs[j];
        if i > 0 { assert r[i] == attrs[i]; }
      }
    } else {
      var rest := SetAttr(attrs[1..], name, v);
      assert r == [attrs[0]] + rest;
      SetAttrKeepsDistinct(attrs[1..], name, v);
      SetOtherAttr(attrs[1..], name, v, attrs[0].name);
      forall i, j | 0 <= i < j < |r| ensures r[i].name != r[j].name {
        assert r[j] == rest[j - 1];
        if i > 0 { assert r[i] == rest[i - 1]; }
      }
    }
  }

  /**
   * Among attributes with distinct names, the prefix found declared for a namespace is bound
   * to that namespace by the one xmlns attribute of its name.
   */
  lemma {:induction false} DeclaredPrefixMapsBack(attrs: seq<Attr>, ns: string)
    requires DistinctNames(attrs) && PrefixDeclaredFor(attrs, ns).Some?
    ensures GetAttr(attrs, XmlnsAttrName(PrefixDeclaredFor(attrs, ns).value)) == Some(ns)
    decreases |attrs|
  {
    var p := PrefixDeclaredFor(attrs, ns).value;
    if !(DeclaredPrefix(attrs[0]).Some? && attrs[0].value == ns) {
      assert DistinctNames(attrs[1..]) by {
        forall i, j | 0 <= i < j < |attrs[1..]| ensures attrs[1..][i].name != attrs[1..][j].name {
          assert attrs[1..][i] == attrs[i + 1] && attrs[1..][j] == attrs[j + 1];
        }
      }
      DeclaredPrefixMapsBack(attrs[1..], ns);
    }
  }

  /** A made-up prefix is never wfs. */
  lemma RandomDeclarationNotWfs(draw: nat)
    ensures XmlnsAttrName(RandomPrefix(draw)) != XmlnsAttrName("wfs")
  {
    var p := RandomPrefix(draw);
    assert p[0] == p[..2][0] == 'n';
    assert XmlnsAttrName(p)[6] == p[0] && XmlnsAttrName("wfs")[6] == 'w';
  }

  /** One type step keeps the names distinct and wfs unbound. */
  lemma DeclareTypeWellFormed(query: Node, docElem: Node, featureType: QName, draw: nat)
    requires query.Element? && DistinctNames(query.attrs) && GetAttr(query.attrs, XmlnsAttrName("wfs")).None?
    ensures DistinctNames(DeclareType(query, docElem, featureType, draw).attrs)
    ensures GetAttr(DeclareType(query, docElem, featureType, draw).attrs, XmlnsAttrName("wfs")).None?
  {
    if LookupPrefix([query, docElem], featureType.ns).None? {
      var name := XmlnsAttrName(RandomPrefix(draw));
      RandomDeclarationNotWfs(draw);
      SetAttrKeepsDistinct(query.attrs, name, featureType.ns);
      SetOtherAttr(query.attrs, name, featureType.ns, XmlnsAttrName("wfs"));
    }
  }

  /** The type step's declarations have distinct names and never bind the prefix wfs. */
  lemma {:induction false} DeclaredTypesWellFormed(docElem: Node, props: seq<FeatureProperty>, typeDraw: nat -> nat)
    ensures DistinctNames(DeclareTypes(docElem, props, typeDraw).0.attrs)
    ensures GetAttr(DeclareTypes(docElem, props, typeDraw).0.attrs, XmlnsAttrName("wfs")).None?
    decreases |props|
  {
    if props != [] {
      var n := |props| - 1;
      DeclaredTypesWellFormed(docElem, props[..n], typeDraw);
      DeclareTypeWellFormed(DeclareTypes(docElem, props[..n], typeDraw).0, docElem, props[n].featureType, typeDraw(n));
    }
  }

  /** An element with no prefix and no attributes binds no prefix. */
  lemma BareElementBindsNothing(n: Node, rest: seq<Node>, p: string)
    requires n.Element? && n.prefix == "" && n.attrs == [] && p != ""
    ensures LookupNamespaceURI([n] + rest, p) == LookupNamespaceURI(rest, p)
  {
    assert ([n] + rest)[0] == n && ([n] + rest)[1..] == rest;
  }

  /** The typed query's attributes have distinct names and never bind the prefix wfs. */
  lemma TypedQueryWellFormed(docElem: Node, props: seq<FeatureProperty>, typeDraw: nat -> nat)
    ensures DistinctNames(TypedQuery(docElem, props, typeDraw).attrs)
    ensures GetAttr(TypedQuery(docElem, props, typeDraw).attrs, XmlnsAttrName("wfs")).None?
  {
    var declared := DeclareTypes(docElem, props, typeDraw);
    var v := Trim(JoinTerminated(declared.1, ' '));
    DeclaredTypesWellFormed(docElem, props, typeDraw);
    SetAttrKeepsDistinct(declared.0.attrs, "typeNames", v);
    assert XmlnsAttrName("wfs")[0] != "typeNames"[0];
    SetOtherAttr(declared.0.attrs, "typeNames", v, XmlnsAttrName("wfs"));
  }

  /** A prefix the query itself binds for ns maps back to ns from the query. */
  lemma QueryPrefixMapsBack(query: Node, docElem: Node, ns: string)
    requires query.Element? && query.ns == Namespaces.WFS && query.prefix == "wfs"
    requires DistinctNames(query.attrs) && GetAttr(query.attrs, XmlnsAttrName("wfs")).None?
    requires LookupPrefix([query], ns).Some?
    ensures LookupPrefix([query, docElem], ns) == LookupPrefix([query], ns)
    ensures LookupNamespaceURI([query, docElem], LookupPrefix([query], ns).value) == Some(ns)
  {
    var p := LookupPrefix([query], ns).value;
    assert [query, docElem][1..] == [docElem] && [query][1..] == [];
    if !(query.ns == ns && query.prefix != "") {
      DeclaredPrefixMapsBack(query.attrs, ns);
      if p == "wfs" {
        assert false;
      }
    }
  }

  /**
   * From a value reference appended to the predicate, a prefix the query binds for ns maps back
   * to ns, whatever the value reference is, as long as it binds no prefix itself.
   */
  lemma PredicatePrefixMapsBack(query: Node, docElem: Node, operator: string, vr: Node, ns: string)
    requires query.Element? && query.ns == Namespaces.WFS && query.prefix == "wfs"
    requires DistinctNames(query.attrs) && GetAttr(query.attrs, XmlnsAttrName("wfs")).None?
    requires LookupPrefix([query], ns).Some?
    requires vr.Element? && vr.prefix == "" && vr.attrs == []
    ensures LookupPrefix(PredicateChain(query, docElem, operator), ns) == LookupPrefix([query], ns)
    ensures LookupNamespaceURI([vr] + PredicateChain(query, docElem, operator), LookupPrefix([query], ns).value) == Some(ns)
  {
    var chain := PredicateChain(query, docElem, operator);
    var p := LookupPrefix([query], ns).value;
    QueryPrefixMapsBack(query, docElem, ns);
    PredicateLookup(query, docElem, operator, ns);
    var filter := NewElement(Namespaces.FES, "", "Filter");
    var predicateElem := NewElement(Namespaces.FES, "", operator);
    assert chain == [predicateElem] + ([filter] + [query, docElem]);
    BareElementBindsNothing(vr, chain, p);
    BareElementBindsNothing(predicateElem, [filter] + [query, docElem], p);
    BareElementBindsNothing(filter, [query, docElem], p);
  }

  /**
   * appendValueRefToPredicate with the property's namespace bound on the query (the wfs prefix or
   * a type's declaration): the prefix in the value reference resolves, from the value reference,
   * to the property's namespace.
   */
  lemma PropertyPrefixOnQueryResolves(docElem: Node, operator: string, props: seq<FeatureProperty>,
                                      typeDraw: nat -> nat, draw: nat, k: nat)
    requires k < |props|
    requires LookupPrefix([TypedQuery(docElem, props, typeDraw)], props[k].property.ns).Some?
    ensures var chain := PredicateChain(TypedQuery(docElem, props, typeDraw), docElem, operator);
      LookupNamespaceURI([JoinValueReference(chain, props[k], draw)] + chain, PropertyPrefix(chain, props[k].property, draw)) ==
        Some(props[k].property.ns)
  {
    var query := TypedQuery(docElem, props, typeDraw);
    var chain := PredicateChain(query, docElem, operator);
    TypedQueryWellFormed(docElem, props, typeDraw);
    PredicateLookup(query, docElem, operator, props[k].property.ns);
    QueryPrefixMapsBack(query, docElem, props[k].property.ns);
    PredicatePrefixMapsBack(query, docElem, operator, JoinValueReference(chain, props[k], draw), props[k].property.ns);
  }
}
