/**
 * Building and editing WFS request entities: simple queries, typeName attributes,
 * ResourceId filters, GML property insertion and SOAP envelopes.
 */
module WfsMessage {
  import opened Wrappers
  import opened Strings
  import opened Xml
  import opened ProtocolBindings
  import Namespaces

  /** A DOM Document that the suite edits in place; root is its document element. */
  class Document {
    var root: Node

    constructor (root: Node)
      requires root.Element?
      ensures this.root == root
    {
      this.root := root;
    }
  }

  /** The prefix "ns" followed by a number below 100, made up for an unbound namespace. */
  function RandomPrefix(draw: nat): (r: string)
    ensures |r| >= 3 && r[..2] == "ns" && IsTrimmed(r)
  {
    var digits := NatToString(draw);
    "ns" + digits
  }

  // ---------------------------------------------------------------------------
  // SOAP envelope

  /** The SOAP namespace for a version: SOAP 1.1 only for "1.1", SOAP 1.2 for anything else or null. */
  function SoapNamespace(version: Option<string>): (r: string)
    ensures version == Some("1.1") ==> r == Namespaces.SOAP11
    ensures version != Some("1.1") ==> r == Namespaces.SOAP_ENV
  {
    if version.Some? && version.value == "1.1" then Namespaces.SOAP11 else Namespaces.SOAP_ENV
  }

  /** soap:Envelope/soap:Body holding a copy of the entity. */
  function WrapEntityInSoapEnvelope(entity: Node, version: Option<string>): (r: Node)
    ensures r.Element? && r.ns == SoapNamespace(version) && r.prefix == "soap" && r.local == "Envelope"
    ensures |r.children| == 1 && Named(r.children[0], SoapNamespace(version), "Body")
    ensures r.children[0].children == [entity]
  {
    var ns := SoapNamespace(version);
    AppendChild(NewElement(ns, "soap", "Envelope"), AppendChild(NewElement(ns, "soap", "Body"), entity))
  }

  // ---------------------------------------------------------------------------
  // appendSimpleQuery

  /** The prefix a simple query uses for a type: one the document element binds, else a made-up one. */
  function TypePrefix(root: Node, q: QName, draw: nat): string
  {
    match LookupPrefix([root], q.ns)
    case Some(p) => p
    case None => RandomPrefix(draw)
  }

  /** The "prefix:local" entries of the typeNames list. */
  function TypeNameEntries(root: Node, qNames: seq<QName>, draws: seq<nat>): (r: seq<string>)
    requires |draws| == |qNames|
    ensures |r| == |qNames|
    ensures forall i :: 0 <= i < |qNames| ==> r[i] == TypePrefix(root, qNames[i], draws[i]) + ":" + qNames[i].local
  {
    seq(|qNames|, i requires 0 <= i < |qNames| => TypePrefix(root, qNames[i], draws[i]) + ":" + qNames[i].local)
  }

  /** The xmlns declarations the query receives, one per name whose namespace the document element does not bind. */
  function QueryDeclarations(root: Node, qNames: seq<QName>, draws: seq<nat>): seq<Attr>
    requires |draws| == |qNames|
    decreases |qNames|
  {
    if qNames == [] then []
    else
      var n := |qNames| - 1;
      var before := QueryDeclarations(root, qNames[..n], draws[..n]);
      if LookupPrefix([root], qNames[n].ns).Some? then before
      else SetAttr(before, XmlnsAttrName(RandomPrefix(draws[n])), qNames[n].ns)
  }

  /** The wfs:Query element appendSimpleQuery builds. */
  function SimpleQuery(root: Node, qNames: seq<QName>, draws: seq<nat>): Node
    requires |draws| == |qNames|
  {
    Element(Namespaces.WFS, "wfs", "Query",
      SetAttr(QueryDeclarations(root, qNames, draws), "typeNames",
        Trim(JoinTerminated(TypeNameEntries(root, qNames, draws), ' '))),
      [])
  }

  /**
   * appendSimpleQuery: appends a wfs:Query whose typeNames lists the given types; draws are the
   * random numbers used for namespaces the document element does not bind.
   */
  method AppendSimpleQuery(doc: Document, qNames: seq<QName>, draws: seq<nat>) returns (query: Node)
    requires doc.root.Element? && |draws| == |qNames|
    modifies doc
    ensures query == SimpleQuery(old(doc.root), qNames, draws)
    ensures doc.root == AppendChild(old(doc.root), query)
  {
    var docElement := doc.root;
    var attrs, typeNames := QueryTypeNames(docElement, qNames, draws);
    query := Element(Namespaces.WFS, "wfs", "Query", SetAttr(attrs, "typeNames", Trim(typeNames)), []);
    doc.root := AppendChild(docElement, query);
  }

  /** The loop of appendSimpleQuery: the xmlns declarations and the space-terminated typeNames text. */
  method QueryTypeNames(docElement: Node, qNames: seq<QName>, draws: seq<nat>) returns (attrs: seq<Attr>, typeNames: string)
    requires |draws| == |qNames|
    ensures attrs == QueryDeclarations(docElement, qNames, draws)
    ensures typeNames == JoinTerminated(TypeNameEntries(docElement, qNames, draws), ' ')
  {
    attrs, typeNames := [], "";
    var i := 0;
    while i < |qNames|
      invariant 0 <= i <= |qNames|
      invariant attrs == QueryDeclarations(docElement, qNames[..i], draws[..i])
      invariant typeNames == TypeNamesText(docElement, qNames[..i], draws[..i])
    {
      QueryStep(docElement, qNames, draws, i, attrs, typeNames);
      var pass := QueryPass(docElement, attrs, typeNames, qNames[i], draws[i]);
      attrs, typeNames := pass.0, pass.1;
      i := i + 1;
    }
    assert qNames[..i] == qNames && draws[..i] == draws;
    TypeNamesTextJoined(docElement, qNames, draws);
  }

  /** The typeNames text as the loop builds it: each entry followed by a space. */
  function TypeNamesText(root: Node, qNames: seq<QName>, draws: seq<nat>): string
    requires |draws| == |qNames|
    decreases |qNames|
  {
    if qNames == [] then ""
    else
      var n := |qNames| - 1;
      TypeNamesText(root, qNames[..n], draws[..n]) + TypePrefix(root, qNames[n], draws[n]) + ":" + qNames[n].local + " "
  }

  /** The text the loop builds is the entries, each terminated by a space. */
  lemma {:induction false} TypeNamesTextJoined(root: Node, qNames: seq<QName>, draws: seq<nat>)
    requires |draws| == |qNames|
    ensures TypeNamesText(root, qNames, draws) == JoinTerminated(TypeNameEntries(root, qNames, draws), ' ')
    decreases |qNames|
  {
    if qNames != [] {
      var n := |qNames| - 1;
      var before := TypeNamesText(root, qNames[..n], draws[..n]);
      var prefix := TypePrefix(root, qNames[n], draws[n]);
      TypeNamesTextJoined(root, qNames[..n], draws[..n]);
      EntriesStep(root, qNames, draws, n);
      assert qNames[..n + 1] == qNames && draws[..n + 1] == draws;
      RegroupMiddle(before, prefix, ":", qNames[n].local, " ");
    }
  }

  /** One pass of the appendSimpleQuery loop: the prefix for the name, declared on the query when made up, and its entry. */
  function QueryPass(root: Node, attrs: seq<Attr>, typeNames: string, q: QName, draw: nat): (seq<Attr>, string)
  {
    match LookupPrefix([root], q.ns)
    case Some(p) => (attrs, typeNames + p + ":" + q.local + " ")
    case None => (SetAttr(attrs, XmlnsAttrName(RandomPrefix(draw)), q.ns), typeNames + RandomPrefix(draw) + ":" + q.local + " ")
  }

  /** One pass of the loop takes the declarations and the text for the first i names to those for the first i + 1. */
  lemma QueryStep(root: Node, qNames: seq<QName>, draws: seq<nat>, i: nat, attrs: seq<Attr>, typeNames: string)
    requires |draws| == |qNames| && i < |qNames|
    requires attrs == QueryDeclarations(root, qNames[..i], draws[..i])
    requires typeNames == TypeNamesText(root, qNames[..i], draws[..i])
    ensures QueryPass(root, attrs, typeNames, qNames[i], draws[i]) ==
      (QueryDeclarations(root, qNames[..i + 1], draws[..i + 1]), TypeNamesText(root, qNames[..i + 1], draws[..i + 1]))
  {
    DeclarationsStep(root, qNames, draws, i);
    TypeNamesTextStep(root, qNames, draws, i);
  }

  /** One more name extends the loop's text by that name's entry and a space. */
  lemma TypeNamesTextStep(root: Node, qNames: seq<QName>, draws: seq<nat>, i: nat)
    requires |draws| == |qNames| && i < |qNames|
    ensures TypeNamesText(root, qNames[..i + 1], draws[..i + 1]) ==
      TypeNamesText(root, qNames[..i], draws[..i]) + TypePrefix(root, qNames[i], draws[i]) + ":" + qNames[i].local + " "
  {
    assert qNames[..i + 1][..i] == qNames[..i] && draws[..i + 1][..i] == draws[..i];
  }

  /** One more name extends the declarations by that name's declaration, if it needs one. */
  lemma DeclarationsStep(root: Node, qNames: seq<QName>, draws: seq<nat>, i: nat)
    requires |draws| == |qNames| && i < |qNames|
    ensures QueryDeclarations(root, qNames[..i + 1], draws[..i + 1]) ==
      if LookupPrefix([root], qNames[i].ns).Some? then QueryDeclarations(root, qNames[..i], draws[..i])
      else SetAttr(QueryDeclarations(root, qNames[..i], draws[..i]), XmlnsAttrName(RandomPrefix(draws[i])), qNames[i].ns)
  {
    assert qNames[..i + 1][..i] == qNames[..i] && draws[..i + 1][..i] == draws[..i];
  }

  /** One more name extends the typeNames text by that name's entry and a space. */
  lemma EntriesStep(root: Node, qNames: seq<QName>, draws: seq<nat>, i: nat)
    requires |draws| == |qNames| && i < |qNames|
    ensures JoinTerminated(TypeNameEntries(root, qNames[..i + 1], draws[..i + 1]), ' ') ==
      JoinTerminated(TypeNameEntries(root, qNames[..i], draws[..i]), ' ') +
      (TypePrefix(root, qNames[i], draws[i]) + ":" + qNames[i].local) + " "
  {
    var longer := TypeNameEntries(root, qNames[..i + 1], draws[..i + 1]);
    var shorter := TypeNameEntries(root, qNames[..i], draws[..i]);
    var entry := TypePrefix(root, qNames[i], draws[i]) + ":" + qNames[i].local;
    assert longer[i] == entry;
    assert longer == shorter + [entry] by {
      forall k | 0 <= k < i ensures longer[k] == shorter[k] {
        assert qNames[..i + 1][k] == qNames[..i][k] && draws[..i + 1][k] == draws[..i][k];
      }
    }
    JoinTerminatedAppend(shorter, entry, ' ');
  }

  /** The typeNames value is the entries joined by single spaces, with no space at either end. */
  lemma {:induction false} SimpleQueryTypeNames(root: Node, qNames: seq<QName>, draws: seq<nat>)
    requires |draws| == |qNames|
    requires forall i :: 0 <= i < |qNames| ==> IsTrimmed(TypePrefix(root, qNames[i], draws[i])) && TypePrefix(root, qNames[i], draws[i]) != ""
    requires forall i :: 0 <= i < |qNames| ==> qNames[i].local != "" && IsTrimmed(qNames[i].local)
    ensures Attribute(SimpleQuery(root, qNames, draws), "typeNames") == Join(TypeNameEntries(root, qNames, draws), ' ')
  {
    var entries := TypeNameEntries(root, qNames, draws);
    forall i | 0 <= i < |entries| ensures entries[i] != [] && IsTrimmed(entries[i]) {
      var p := TypePrefix(root, qNames[i], draws[i]);
      assert entries[i] == p + ":" + qNames[i].local;
      assert entries[i][0] == p[0];
      assert entries[i][|entries[i]| - 1] == qNames[i].local[|qNames[i].local| - 1];
    }
    TrimmedSpaceTerminatedJoin(entries);
  }

  /** A name whose namespace the document element does not bind gets its made-up prefix declared on the query. */
  lemma {:induction false} SimpleQueryDeclaresUnbound(root: Node, qNames: seq<QName>, draws: seq<nat>, i: nat)
    requires |draws| == |qNames| && i < |qNames|
    requires LookupPrefix([root], qNames[i].ns).None?
    requires forall j :: i < j < |qNames| ==> draws[j] != draws[i] || LookupPrefix([root], qNames[j].ns).Some?
    ensures GetAttr(SimpleQuery(root, qNames, draws).attrs, XmlnsAttrName(RandomPrefix(draws[i]))) == Some(qNames[i].ns)
    decreases |qNames|
  {
    var name := XmlnsAttrName(RandomPrefix(draws[i]));
    assert name != "typeNames" by {
      assert name[..6] == "xmlns:";
    }
    DeclarationSurvives(root, qNames, draws, i);
  }

  /** The made-up prefix declared for an unbound name survives all later declarations. */
  lemma {:induction false} DeclarationSurvives(root: Node, qNames: seq<QName>, draws: seq<nat>, i: nat)
    requires |draws| == |qNames| && i < |qNames|
    requires LookupPrefix([root], qNames[i].ns).None?
    requires forall j :: i < j < |qNames| ==> draws[j] != draws[i] || LookupPrefix([root], qNames[j].ns).Some?
    ensures GetAttr(QueryDeclarations(root, qNames, draws), XmlnsAttrName(RandomPrefix(draws[i]))) == Some(qNames[i].ns)
    decreases |qNames|, 1
  {
    if i == |qNames| - 1 {
      LastDeclarationSet(root, qNames, draws);
    } else {
      EarlierDeclarationSurvives(root, qNames, draws, i);
    }
  }

  /** The last name, when its namespace is unbound, ends up declared under its made-up prefix. */
  lemma LastDeclarationSet(root: Node, qNames: seq<QName>, draws: seq<nat>)
    requires |draws| == |qNames| > 0
    requires LookupPrefix([root], qNames[|qNames| - 1].ns).None?
    ensures var n := |qNames| - 1;
      GetAttr(QueryDeclarations(root, qNames, draws), XmlnsAttrName(RandomPrefix(draws[n]))) == Some(qNames[n].ns)
  {
    var n := |qNames| - 1;
    DeclarationsLast(root, qNames, draws);
    SetSameAttr(QueryDeclarations(root, qNames[..n], draws[..n]), XmlnsAttrName(RandomPrefix(draws[n])), qNames[n].ns);
  }

  /** An earlier name's declaration is not overwritten by the last name's. */
  lemma {:induction false} EarlierDeclarationSurvives(root: Node, qNames: seq<QName>, draws: seq<nat>, i: nat)
    requires |draws| == |qNames| && i < |qNames| - 1
    requires LookupPrefix([root], qNames[i].ns).None?
    requires forall j :: i < j < |qNames| ==> draws[j] != draws[i] || LookupPrefix([root], qNames[j].ns).Some?
    ensures GetAttr(QueryDeclarations(root, qNames, draws), XmlnsAttrName(RandomPrefix(draws[i]))) == Some(qNames[i].ns)
    decreases |qNames|, 0
  {
    var n := |qNames| - 1;
    var before := QueryDeclarations(root, qNames[..n], draws[..n]);
    assert qNames[..n][i] == qNames[i] && draws[..n][i] == draws[i];
    DeclarationSurvives(root, qNames[..n], draws[..n], i);
    DeclarationsLast(root, qNames, draws);
    var kept := LookupPrefix([root], qNames[n].ns).Some?;
    if !kept {
      RandomDeclarationsDistinct(draws[n], draws[i]);
    }
    LookupSurvivesStep(before, QueryDeclarations(root, qNames, draws), XmlnsAttrName(RandomPrefix(draws[i])), qNames[i].ns,
      kept, XmlnsAttrName(RandomPrefix(draws[n])), qNames[n].ns);
  }

  /** The last name either leaves the declarations as they were or declares its made-up prefix. */
  lemma DeclarationsLast(root: Node, qNames: seq<QName>, draws: seq<nat>)
    requires |draws| == |qNames| > 0
    ensures var n := |qNames| - 1;
      var before := QueryDeclarations(root, qNames[..n], draws[..n]);
      (LookupPrefix([root], qNames[n].ns).Some? ==> QueryDeclarations(root, qNames, draws) == before) &&
      (LookupPrefix([root], qNames[n].ns).None? ==>
        QueryDeclarations(root, qNames, draws) == SetAttr(before, XmlnsAttrName(RandomPrefix(draws[n])), qNames[n].ns))
  {
  }

  /** Different draws declare different xmlns attributes. */
  lemma RandomDeclarationsDistinct(a: nat, b: nat)
    requires a != b
    ensures XmlnsAttrName(RandomPrefix(a)) != XmlnsAttrName(RandomPrefix(b))
  {
    RandomDeclarationDigits(a);
    RandomDeclarationDigits(b);
    NatToStringRoundTrip(a);
    NatToStringRoundTrip(b);
    if XmlnsAttrName(RandomPrefix(a)) == XmlnsAttrName(RandomPrefix(b)) {
      assert false;
    }
  }

  /** The made-up declaration's name is "xmlns:ns" and the draw's digits. */
  lemma RandomDeclarationDigits(draw: nat)
    ensures |XmlnsAttrName(RandomPrefix(draw))| >= 8 && XmlnsAttrName(RandomPrefix(draw))[8..] == NatToString(draw)
  {
    var digits := NatToString(draw);
    assert RandomPrefix(draw) == "ns" + digits;
    assert XmlnsAttrName(RandomPrefix(draw)) == "xmlns:" + ("ns" + digits);
  }

  // ---------------------------------------------------------------------------
  // setTypeName

  /** The prefix setTypeName uses: bound on the element or its ancestors, else on the document element, else made up. */
  function ActionPrefix(chain: seq<Node>, docElem: Node, qName: QName, draw: nat): string
  {
    match LookupPrefix(chain, qName.ns)
    case Some(p) => p
    case None =>
      match LookupPrefix([docElem], qName.ns)
      case Some(p) => p
      case None => RandomPrefix(draw)
  }

  predicate IsUpdateOrDelete(local: string)
  {
    local == "Update" || local == "Delete"
  }

  /**
   * setTypeName on an action element (first of chain, followed by its ancestors): only Update and
   * Delete are changed; they get typeName "prefix:local", and a made-up prefix is declared on them.
   */
  function SetTypeName(chain: seq<Node>, docElem: Node, qName: QName, draw: nat): (r: Node)
    requires chain != [] && chain[0].Element?
    ensures !IsUpdateOrDelete(chain[0].local) ==> r == chain[0]
    ensures IsUpdateOrDelete(chain[0].local) ==>
      r.Element? && r.children == chain[0].children && r.local == chain[0].local &&
      Attribute(r, "typeName") == ActionPrefix(chain, docElem, qName, draw) + ":" + qName.local
    ensures (IsUpdateOrDelete(chain[0].local) && LookupPrefix(chain, qName.ns).None? &&
             LookupPrefix([docElem], qName.ns).None?) ==>
      GetAttr(r.attrs, XmlnsAttrName(RandomPrefix(draw))) == Some(qName.ns)
  {
    var elem := chain[0];
    if !IsUpdateOrDelete(elem.local) then elem
    else
      var declared :=
        if LookupPrefix(chain, qName.ns).None? && LookupPrefix([docElem], qName.ns).None? then
          SetAttribute(elem, XmlnsAttrName(RandomPrefix(draw)), qName.ns)
        else elem;
      var r := SetAttribute(declared, "typeName", ActionPrefix(chain, docElem, qName, draw) + ":" + qName.local);
      assert XmlnsAttrName(RandomPrefix(draw)) != "typeName" by {
        assert XmlnsAttrName(RandomPrefix(draw))[..5] == "xmlns";
      }
      r
  }

  /** A made-up prefix declared on the action element resolves to the type's namespace from there. */
  lemma SetTypeNameResolves(chain: seq<Node>, docElem: Node, qName: QName, draw: nat)
    requires chain != [] && chain[0].Element? && IsUpdateOrDelete(chain[0].local)
    requires LookupPrefix(chain, qName.ns).None? && LookupPrefix([docElem], qName.ns).None?
    requires qName.ns != "" && chain[0].prefix != RandomPrefix(draw)
    ensures LookupNamespaceURI([SetTypeName(chain, docElem, qName, draw)] + chain[1..], RandomPrefix(draw)) == Some(qName.ns)
  {
  }

  // ---------------------------------------------------------------------------
  // Filters

  /** fes:ResourceId with the given rid. */
  function ResourceIdElement(prefix: string, id: string): (r: Node)
    ensures Named(r, Namespaces.FES, "ResourceId") && r.children == []
    ensures Attribute(r, "rid") == id
  {
    Element(Namespaces.FES, prefix, "ResourceId", [Attr("rid", id)], [])
  }

  /** newResourceIdFilter: fes:Filter holding one fes:ResourceId that identifies the feature. */
  function NewResourceIdFilter(id: string): (r: Node)
    ensures Named(r, Namespaces.FES, "Filter") && r.prefix == "fes" && |r.children| == 1
    ensures Named(r.children[0], Namespaces.FES, "ResourceId") && r.children[0].prefix == "fes"
    ensures Attribute(r.children[0], "rid") == id
  {
    AppendChild(NewElement(Namespaces.FES, "fes", "Filter"), ResourceIdElement("fes", id))
  }

  /** A filter (unprefixed) holding one ResourceId per identifier, in iteration order. */
  function ResourceIdFilter(ids: seq<string>): (r: Node)
    ensures Named(r, Namespaces.FES, "Filter") && |r.children| == |ids|
    ensures forall i :: 0 <= i < |ids| ==>
      Named(r.children[i], Namespaces.FES, "ResourceId") && Attribute(r.children[i], "rid") == ids[i]
  {
    Element(Namespaces.FES, "", "Filter", [],
      seq(|ids|, i requires 0 <= i < |ids| => ResourceIdElement("", ids[i])))
  }

  predicate Distinct<T(==)>(s: seq<T>)
  {
    forall i, j :: 0 <= i < j < |s| ==> s[i] != s[j]
  }

  /**
   * addResourceIdPredicate: nothing happens for no identifiers; a request that is not
   * GetFeature(WithLock), or has no wfs:Query, is rejected; otherwise a Filter with one
   * ResourceId per identifier is appended to the first wfs:Query.
   */
  method AddResourceIdPredicate(doc: Document, ids: seq<string>) returns (r: Result<()>)
    requires doc.root.Element? && Distinct(ids)
    modifies doc
    ensures ids == [] ==> r.Ok? && doc.root == old(doc.root)
    ensures ids != [] && !StartsWith(old(doc.root).local, "GetFeature") ==>
      r.Err? && r.error.IllegalArgument? && doc.root == old(doc.root)
    ensures ids != [] && FindFirst(old(doc.root), Namespaces.WFS, "Query").None? ==>
      r.Err? && r.error.IllegalArgument? && doc.root == old(doc.root)
    ensures r.Ok? && ids != [] ==>
      var p := FindFirst(old(doc.root), Namespaces.WFS, "Query").value;
      ValidPath(old(doc.root), p) && At(old(doc.root), p).Element? &&
      doc.root == AppendAt(old(doc.root), p, ResourceIdFilter(ids))
    ensures r.Ok? <==>
      (ids == [] || (StartsWith(old(doc.root).local, "GetFeature") &&
                     FindFirst(old(doc.root), Namespaces.WFS, "Query").Some?))
  {
    if |ids| == 0 {
      return Ok(());
    }
    if !StartsWith(doc.root.local, "GetFeature") {
      return Err(IllegalArgument("Expected a GetFeature(WithLock) request"));
    }
    var queryPath := FindFirst(doc.root, Namespaces.WFS, "Query");
    if queryPath.None? {
      return Err(IllegalArgument("No wfs:Query element found in request"));
    }
    FirstMatchIsMatch(doc.root, queryPath.value, Namespaces.WFS, "Query");
    var children: seq<Node> := [];
    var i := 0;
    while i < |ids|
      invariant 0 <= i <= |ids|
      invariant children == seq(i, k requires 0 <= k < i => ResourceIdElement("", ids[k]))
    {
      children := children + [ResourceIdElement("", ids[i])];
      i := i + 1;
    }
    var filter := Element(Namespaces.FES, "", "Filter", [], children);
    assert filter == ResourceIdFilter(ids);
    doc.root := AppendAt(doc.root, queryPath.value, filter);
    r := Ok(());
  }

  // ---------------------------------------------------------------------------
  // insertGMLProperty

  /** The standard GML properties that may follow a given one, or None for a property insertGMLProperty ignores. */
  function FollowingSiblings(ns: string, local: string): (r: Option<seq<string>>)
    ensures r.Some? ==> ns == Namespaces.GML && local in {"description", "identifier", "name"}
  {
    if ns != Namespaces.GML then None
    else if local == "description" then Some(["descriptionReference", "identifier", "name", "boundedBy", "location"])
    else if local == "identifier" then Some(["name", "boundedBy", "location"])
    else if local == "name" then Some(["boundedBy", "location"])
    else None
  }

  /** The child before which a new property goes: an application property or a GML property that must follow it. */
  predicate IsInsertionPoint(c: Node, following: seq<string>)
  {
    c.Element? && c.ns != "" && (c.ns != Namespaces.GML || c.local in following)
  }

  /** Where the scan over the children stops: the first element child in no namespace (where comparing throws) or insertion point. */
  function ScanStop(cs: seq<Node>, following: seq<string>, from: nat): (r: Option<nat>)
    requires from <= |cs|
    ensures r.Some? ==>
      (from <= r.value < |cs| && cs[r.value].Element? &&
       (cs[r.value].ns == "" || IsInsertionPoint(cs[r.value], following)))
    ensures forall j :: from <= j < (if r.Some? then r.value else |cs|) ==>
      !(cs[j].Element? && (cs[j].ns == "" || IsInsertionPoint(cs[j], following)))
    decreases |cs| - from
  {
    if from == |cs| then None
    else if cs[from].Element? && (cs[from].ns == "" || IsInsertionPoint(cs[from], following)) then Some(from)
    else ScanStop(cs, following, from + 1)
  }

  /** The prefix the inserted property takes: that of a GML next sibling, else "gml". */
  function InsertedPrefix(next: Node): string
  {
    if next.Element? && next.ns == Namespaces.GML then next.prefix else "gml"
  }

  /**
   * insertGMLProperty, giving the feature as it is afterwards. An existing property of the same
   * name is replaced in place and keeps its prefix (it must be a child of the feature); a property
   * without an ordering entry is ignored; otherwise the property is inserted before the first
   * application property or following GML property, and with none the call fails.
   */
  method InsertGmlProperty(feature: Node, prop: Node) returns (r: Result<Node>)
    requires feature.Element? && prop.Element?
    ensures var existing := FindFirstDescendant(feature, prop.ns, prop.local);
      existing.Some? ==>
        (|existing.value| == 1 ==>
          r == Ok(feature.(children := feature.children[existing.value[0] :=
            prop.(prefix := feature.children[existing.value[0]].prefix)]))) &&
        (|existing.value| != 1 ==> r.Err? && r.error.DomError?)
    ensures FindFirstDescendant(feature, prop.ns, prop.local).None? && FollowingSiblings(prop.ns, prop.local).None? ==>
      r == Ok(feature)
    ensures FindFirstDescendant(feature, prop.ns, prop.local).None? && FollowingSiblings(prop.ns, prop.local).Some? ==>
      var cs := feature.children;
      var stop := ScanStop(cs, FollowingSiblings(prop.ns, prop.local).value, 0);
      (stop.None? ==> r.Err? && r.error.NullPointer?) &&
      (stop.Some? && cs[stop.value].ns == "" ==> r.Err? && r.error.NullPointer?) &&
      (stop.Some? && cs[stop.value].ns != "" ==>
        r == Ok(feature.(children := cs[..stop.value] + [prop.(prefix := InsertedPrefix(cs[stop.value]))] + cs[stop.value..])))
  {
    var existing := FindFirstDescendant(feature, prop.ns, prop.local);
    if existing.Some? {
      var p := existing.value;
      if |p| != 1 {
        return Err(DomError("NOT_FOUND_ERR: the node to replace is not a child"));
      }
      var previous := feature.children[p[0]];
      return Ok(feature.(children := feature.children[p[0] := prop.(prefix := previous.prefix)]));
    }
    var following := FollowingSiblings(prop.ns, prop.local);
    if following.None? {
      return Ok(feature);
    }
    var properties := feature.children;
    var nextSibling: Option<nat> := None;
    var i := 0;
    while i < |properties|
      invariant 0 <= i <= |properties|
      invariant ScanStop(properties, following.value, 0) == ScanStop(properties, following.value, i)
    {
      var property := properties[i];
      if !property.Element? {
        i := i + 1;
        continue;
      }
      if property.ns == "" {
        return Err(NullPointer("property has no namespace"));
      }
      if property.ns != Namespaces.GML || property.local in following.value {
        nextSibling := Some(i);
        break;
      }
      i := i + 1;
    }
    if nextSibling.None? {
      return Err(NullPointer("no following sibling"));
    }
    var k := nextSibling.value;
    var inserted := prop.(prefix := InsertedPrefix(properties[k]));
    r := Ok(feature.(children := properties[..k] + [inserted] + properties[k..]));
  }

  /**
   * When the property is inserted, it goes right before the stop child, and every element child
   * before it is a GML property that may precede it.
   */
  lemma InsertionPlacement(feature: Node, prop: Node, k: nat)
    requires feature.Element? && prop.Element? && FollowingSiblings(prop.ns, prop.local).Some?
    requires ScanStop(feature.children, FollowingSiblings(prop.ns, prop.local).value, 0) == Some(k)
    requires feature.children[k].ns != ""
    ensures var cs := feature.children;
      var rs := cs[..k] + [prop.(prefix := InsertedPrefix(cs[k]))] + cs[k..];
      |rs| == |cs| + 1 && rs[k].local == prop.local && rs[k + 1] == cs[k] &&
      (cs[k].ns == Namespaces.GML ==> cs[k].local in FollowingSiblings(prop.ns, prop.local).value) &&
      (forall j :: 0 <= j < k && rs[j].Element? ==>
        rs[j].ns == Namespaces.GML && rs[j].local !in FollowingSiblings(prop.ns, prop.local).value)
  {
  }

  const NS1: string := "http://example.org/ns1"

  /** A feature with gml:description, gml:name and an application property. */
  function SampleFeature(): Node
  {
    Element(NS1, "ns1", "Alpha", [], [
      NewElement(Namespaces.GML, "gml", "description"),
      NewElement(Namespaces.GML, "gml", "name"),
      NewElement(NS1, "ns1", "doubleProperty")])
  }

  /** A new gml:identifier lands between gml:description and gml:name. */
  lemma InsertIdentifierExample(uuid: string)
    ensures var prop := WithText(NewElement(Namespaces.GML, "gml", "identifier"), uuid);
      ScanStop(SampleFeature().children, FollowingSiblings(prop.ns, prop.local).value, 0) == Some(1) &&
      !HasMatch(SampleFeature().children[0], prop.ns, prop.local) &&
      !HasMatch(SampleFeature().children[1], prop.ns, prop.local) &&
      !HasMatch(SampleFeature().children[2], prop.ns, prop.local)
  {
    var f := SampleFeature();
    var prop := WithText(NewElement(Namespaces.GML, "gml", "identifier"), uuid);
    var following := FollowingSiblings(prop.ns, prop.local).value;
    assert following == ["name", "boundedBy", "location"];
    assert "name" in following;
    assert !IsInsertionPoint(f.children[0], following);
    assert ScanStop(f.children, following, 1) == Some(1);
  }

  // ---------------------------------------------------------------------------
  // containsGetProtocolBinding

  /** A test-method parameter: a protocol binding, a feature type name, or anything else. */
  datatype TestParam = BindingParam(binding: ProtocolBinding) | TypeParam(typeName: QName) | OtherParam(text: string)

  /** containsGetProtocolBinding: true iff the (non-null) parameters include the GET binding. */
  method ContainsGetProtocolBinding(testParams: Option<seq<TestParam>>) returns (found: bool)
    ensures found <==> testParams.Some? && BindingParam(GET) in testParams.value
  {
    if testParams.None? || |testParams.value| == 0 {
      return false;
    }
    var params := testParams.value;
    found := false;
    var i := 0;
    while i < |params|
      invariant 0 <= i <= |params|
      invariant BindingParam(GET) !in params[..i]
    {
      if params[i].BindingParam? && params[i].binding == GET {
        found := true;
        break;
      }
      i := i + 1;
    }
    assert !found ==> params[..i] == params;
  }
}
