/**
 * Reading a WFS capabilities document: operation endpoints, message bindings,
 * conformance claims, spatial operators and qualified names written as text.
 *
 * The capabilities document is represented by the parts these queries read:
 * the global constraints of ows:OperationsMetadata, each ows:Operation with its
 * own constraints and the descendant elements that carry an xlink:href, and the
 * names of the fes:SpatialOperator elements, all in document order.
 */
module ServiceMetadataUtils {
  import opened Wrappers
  import opened Strings
  import opened Xml
  import opened ProtocolBindings
  import Namespaces

  /** An ows:Constraint: its name attribute and the string values of its ows:DefaultValue children. */
  datatype Constraint = Constraint(name: string, defaultValues: seq<string>)

  /** A descendant element of an operation that has an xlink:href attribute (DCP/HTTP/Get, Post). */
  datatype Link = Link(ns: string, local: string, href: string)

  datatype Operation = Operation(name: string, constraints: seq<Constraint>, links: seq<Link>)

  datatype Capabilities = Capabilities(
    operations: seq<Operation>,
    globalConstraints: seq<Constraint>,
    spatialOperatorNames: seq<string>)

  /** The WFS 2.0 conformance classes and the constraint that claims each. */
  datatype ConformanceClass =
    SIMPLE_WFS | BASIC_WFS | TRANSACTIONAL_WFS | LOCKING_WFS | HTTP_GET | HTTP_POST | SOAP_CLASS

  const AllClasses: seq<ConformanceClass> :=
    [SIMPLE_WFS, BASIC_WFS, TRANSACTIONAL_WFS, LOCKING_WFS, HTTP_GET, HTTP_POST, SOAP_CLASS]

  function ClassConstraintName(c: ConformanceClass): string
  {
    match c
    case SIMPLE_WFS => "ImplementsSimpleWFS"
    case BASIC_WFS => "ImplementsBasicWFS"
    case TRANSACTIONAL_WFS => "ImplementsTransactionalWFS"
    case LOCKING_WFS => "ImplementsLockingWFS"
    case HTTP_GET => "KVPEncoding"
    case HTTP_POST => "XMLEncoding"
    case SOAP_CLASS => "SOAPEncoding"
  }

  const TRANSACTION: string := "Transaction"

  /** Some constraint of the list has the name and a DefaultValue equal to TRUE. */
  predicate Enabled(cs: seq<Constraint>, name: string)
  {
    exists i :: 0 <= i < |cs| && cs[i].name == name && "TRUE" in cs[i].defaultValues
  }

  /** //ows:Operation[@name=opName]/ows:Constraint[@name=name and ows:DefaultValue='TRUE'] is non-empty. */
  predicate OperationEnabled(caps: Capabilities, opName: string, name: string)
  {
    exists i :: 0 <= i < |caps.operations| && caps.operations[i].name == opName &&
      Enabled(caps.operations[i].constraints, name)
  }

  /** //ows:Constraint[@name=name and ows:DefaultValue='TRUE'] anywhere in the document. */
  predicate ClaimedAnywhere(caps: Capabilities, name: string)
  {
    Enabled(caps.globalConstraints, name) ||
    exists i :: 0 <= i < |caps.operations| && Enabled(caps.operations[i].constraints, name)
  }

  // ---------------------------------------------------------------------------
  // buildQName

  /**
   * The qualified name written as the text of the first node of the chain (the node,
   * then its ancestors): text after a colon at index > 0 is the local part and the
   * prefix before it is looked up; otherwise the whole text is the local part and the
   * default namespace is used. An unbound prefix gives the empty namespace name.
   */
  function BuildQName(chain: seq<Node>): (r: QName)
    requires chain != []
    ensures var name := TextContent(chain[0]);
      match IndexOf(name, ':')
      case Some(k) =>
        if k > 0 then
          r.local == name[k + 1..] &&
          r.ns == (match LookupNamespaceURI(chain, name[..k]) case Some(u) => u case None => "")
        else r.local == name && r.ns == (match LookupNamespaceURI(chain, "") case Some(u) => u case None => "")
      case None =>
        r.local == name && r.ns == (match LookupNamespaceURI(chain, "") case Some(u) => u case None => "")
  {
    var name := TextContent(chain[0]);
    var idx := IndexOf(name, ':');
    if idx.Some? && idx.value > 0 then
      QName(match LookupNamespaceURI(chain, name[..idx.value]) case Some(u) => u case None => "",
            name[idx.value + 1..])
    else
      QName(match LookupNamespaceURI(chain, "") case Some(u) => u case None => "", name)
  }

  /** Writing "prefix:local" with a bound prefix and reading it back gives the qualified name. */
  lemma BuildQNameRoundTrip(chain: seq<Node>, prefix: string, local: string, ns: string)
    requires chain != [] && prefix != "" && ':' !in prefix
    requires TextContent(chain[0]) == prefix + ":" + local
    requires LookupNamespaceURI(chain, prefix) == Some(ns)
    ensures BuildQName(chain) == QName(ns, local)
  {
    var name := prefix + ":" + local;
    assert name[|prefix|] == ':';
    assert name[..|prefix|] == prefix;
    assert IndexOf(name, ':') == Some(|prefix|);
    assert name[|prefix| + 1..] == local;
  }

  /** Text without a colon is a local name in the default namespace, if any. */
  lemma BuildQNameUnprefixed(chain: seq<Node>)
    requires chain != [] && ':' !in TextContent(chain[0])
    ensures BuildQName(chain).local == TextContent(chain[0])
    ensures LookupNamespaceURI(chain, "").None? ==> BuildQName(chain).ns == ""
  {
  }

  /** An element tns:alpha (bound to ns) whose text is "localPart": no namespace. */
  lemma BuildQNameUnprefixedExample(ns: string)
    requires ns != ""
    ensures BuildQName([WithText(NewElement(ns, "tns", "alpha"), "localPart")]) == QName("", "localPart")
  {
    var e := WithText(NewElement(ns, "tns", "alpha"), "localPart");
    var text := TextContent(e);
    assert text == "localPart";
    assert ':' !in text;
    assert LookupNamespaceURI([e], "") == None by {
      assert e.attrs == [];
      assert [e][1..] == [];
    }
    BuildQNameUnprefixed([e]);
  }

  /** An element tns:alpha (bound to ns) whose text is "tns:localPart": the namespace of tns. */
  lemma BuildQNamePrefixedExample(ns: string)
    requires ns != ""
    ensures BuildQName([WithText(NewElement(ns, "tns", "alpha"), "tns:localPart")]) == QName(ns, "localPart")
  {
    var e := WithText(NewElement(ns, "tns", "alpha"), "tns:localPart");
    assert "tns:localPart" == "tns" + ":" + "localPart";
    assert ':' !in "tns";
    BuildQNameRoundTrip([e], "tns", "localPart", ns);
  }

  // ---------------------------------------------------------------------------
  // Endpoints

  /** The name of the method element for a binding: the enum name with all but its first letter lower-cased. */
  function MethodElementName(b: ProtocolBinding): (r: string)
    ensures b == GET ==> r == "Get"
    ensures b == POST ==> r == "Post"
    ensures |r| == |Name(b)| && r[0] == Name(b)[0]
  {
    var n := Name(b);
    [n[0]] + ToLower(n[1..])
  }

  /** java.net.URI.getQuery is defined: a '?' occurs before any '#'. */
  predicate HasQuery(uri: string)
  {
    match IndexOf(uri, '?')
    case None => false
    case Some(q) => match IndexOf(uri, '#') case None => true case Some(f) => q < f
  }

  /** The URI with its query component pruned: everything from the first '?' on, when there is a query. */
  function PruneQuery(uri: string): (r: string)
    ensures !HasQuery(r)
    ensures |r| <= |uri| && r == uri[..|r|]
    ensures !HasQuery(uri) ==> r == uri
    ensures HasQuery(uri) ==> '?' !in r && uri[|r|] == '?'
  {
    match IndexOf(uri, '?')
    case None => uri
    case Some(q) =>
      if HasQuery(uri) then
        assert '?' !in uri[..q];
        uri[..q]
      else uri
  }

  /** A bare "?" at the end of a URI without '?' or '#' is an empty query and is pruned. */
  lemma PruneTrailingQuestionMark(h: string)
    requires '?' !in h && '#' !in h
    ensures PruneQuery(h + "?") == h
  {
    IndexOfConcat(h, "?", '?');
    IndexOfConcat(h, "?", '#');
    assert (h + "?")[..|h|] == h;
  }

  lemma PruneQueryIdempotent(uri: string)
    ensures PruneQuery(PruneQuery(uri)) == PruneQuery(uri)
  {
  }

  /** The xlink:href values of the links named (ows, local) of the operations named opName, in document order. */
  function OperationHrefs(ops: seq<Operation>, opName: string, local: string): seq<string>
  {
    if ops == [] then []
    else (if ops[0].name == opName then LinkHrefs(ops[0].links, local) else []) + OperationHrefs(ops[1..], opName, local)
  }

  function LinkHrefs(links: seq<Link>, local: string): (r: seq<string>)
    ensures forall h :: h in r ==> exists i :: 0 <= i < |links| && links[i].href == h && links[i].local == local
  {
    if links == [] then []
    else (if links[0].ns == Namespaces.OWS && links[0].local == local then [links[0].href] else []) + LinkHrefs(links[1..], local)
  }

  /** The string value of an XPath node-set: its first node's value, or "" when it is empty. */
  function FirstOrEmpty(s: seq<string>): (r: string)
    ensures s == [] ==> r == ""
    ensures s != [] ==> r == s[0]
  {
    if s == [] then "" else s[0]
  }

  /**
   * The endpoint of an operation for a definite binding: SOAP requests use the POST endpoint,
   * the first matching href is taken and its query component pruned; "" when there is none.
   */
  function EndpointFor(caps: Capabilities, opName: string, b: ProtocolBinding): (r: string)
    ensures var m := if b == SOAP then POST else b;
      var hrefs := OperationHrefs(caps.operations, opName, MethodElementName(m));
      (hrefs == [] ==> r == "") && (hrefs != [] ==> r == PruneQuery(hrefs[0])) && !HasQuery(r)
  {
    var m := if b == SOAP then POST else b;
    PruneQuery(FirstOrEmpty(OperationHrefs(caps.operations, opName, MethodElementName(m))))
  }

  /** The href the XPath expression of getOperationEndpoint selects for a definite binding, before pruning. */
  function RawEndpoint(caps: Capabilities, opName: string, b: ProtocolBinding): (r: string)
    ensures PruneQuery(r) == EndpointFor(caps, opName, b)
  {
    FirstOrEmpty(OperationHrefs(caps.operations, opName, MethodElementName(if b == SOAP then POST else b)))
  }

  /**
   * URI.create accepts the selected href and, when it has a query, the href cut at its '?'.
   * parses stands for java.net.URI's parser.
   */
  predicate EndpointParses(caps: Capabilities, opName: string, b: ProtocolBinding, parses: string -> bool)
  {
    var href := RawEndpoint(caps, opName, b);
    parses(href) && (HasQuery(href) ==> parses(PruneQuery(href)))
  }

  /**
   * getOperationEndpoint: an absent or ANY binding is replaced by some member of the set
   * getOperationBindings returns as written (an empty set fails, as iterator().next() throws);
   * an href URI.create rejects throws IllegalArgumentException; the result has no query component.
   */
  method GetOperationEndpoint(caps: Capabilities, opName: string, binding: Option<ProtocolBinding>, parses: string -> bool)
    returns (r: Result<string>)
    ensures (binding.None? || binding == Some(ANY)) && WrittenOperationBindings(caps, opName) == {} ==>
      r.Err? && r.error.NoSuchElement?
    ensures binding.Some? && binding.value != ANY ==>
      (r.Ok? <==> EndpointParses(caps, opName, binding.value, parses)) &&
      (r.Ok? ==> r.value == EndpointFor(caps, opName, binding.value)) &&
      (r.Err? ==> r.error.IllegalArgument?)
    ensures (binding.None? || binding == Some(ANY)) && WrittenOperationBindings(caps, opName) != {} ==>
      exists b :: b in WrittenOperationBindings(caps, opName) &&
        (r.Ok? <==> EndpointParses(caps, opName, b, parses)) &&
        (r.Ok? ==> r.value == EndpointFor(caps, opName, b)) &&
        (r.Err? ==> r.error.IllegalArgument?)
    ensures r.Ok? ==> !HasQuery(r.value)
  {
    var b: ProtocolBinding;
    if binding.None? || binding.value == ANY {
      var bindings := GetOperationBindingsAsWritten(caps, opName);
      if bindings == {} {
        return Err(NoSuchElement("no binding is supported for " + opName));
      }
      b :| b in bindings;
    } else {
      b := binding.value;
    }
    var href := RawEndpoint(caps, opName, b);
    if !parses(href) {
      return Err(IllegalArgument("Illegal character in URI"));
    }
    if HasQuery(href) && !parses(PruneQuery(href)) {
      return Err(IllegalArgument("Illegal character in URI"));
    }
    r := Ok(EndpointFor(caps, opName, b));
  }

  /** The capabilities-simple example: DescribeFeatureType has a GET endpoint only. */
  function SimpleCapabilities(): Capabilities
  {
    Capabilities([Operation("DescribeFeatureType", [], [Link(Namespaces.OWS, "Get", "http://localhost/wfs2?")])], [], [])
  }

  lemma EndpointExampleGet()
    ensures EndpointFor(SimpleCapabilities(), "DescribeFeatureType", GET) == "http://localhost/wfs2"
  {
    var caps := SimpleCapabilities();
    assert MethodElementName(GET) == "Get";
    assert LinkHrefs(caps.operations[0].links, "Get") == ["http://localhost/wfs2?"];
    assert caps.operations[1..] == [];
    assert OperationHrefs(caps.operations, "DescribeFeatureType", "Get") == ["http://localhost/wfs2?"];
    assert "http://localhost/wfs2?" == "http://localhost/wfs2" + "?";
    PruneTrailingQuestionMark("http://localhost/wfs2");
  }

  lemma EndpointExamplePost()
    ensures EndpointFor(SimpleCapabilities(), "DescribeFeatureType", POST) == ""
  {
    var caps := SimpleCapabilities();
    assert MethodElementName(POST) == "Post";
    assert LinkHrefs(caps.operations[0].links, "Post") == [];
    assert caps.operations[1..] == [];
    assert OperationHrefs(caps.operations, "DescribeFeatureType", "Post") == [];
  }

  /** An href cut at its first '?' only when that index is greater than 0. */
  function PruneAfterFirstChar(href: string): (r: string)
    ensures |r| <= |href| && r == href[..|r|]
    ensures match IndexOf(href, '?')
      case Some(i) => if i > 0 then r == href[..i] && '?' !in r else r == href
      case None => r == href
  {
    match IndexOf(href, '?')
    case Some(i) => if i > 0 then href[..i] else href
    case None => href
  }

  /** All links of the operations named reqName, in document order. */
  function RequestLinks(ops: seq<Operation>, reqName: string): seq<Link>
  {
    if ops == [] then []
    else (if ops[0].name == reqName then ops[0].links else []) + RequestLinks(ops[1..], reqName)
  }

  /** The map getRequestEndpoints builds from the links: later links override earlier ones of the same method. */
  function EndpointMap(links: seq<Link>): map<string, string>
  {
    if links == [] then map[]
    else
      var last := links[|links| - 1];
      EndpointMap(links[..|links| - 1])[ToUpper(last.local) := PruneAfterFirstChar(last.href)]
  }

  /** A key is present iff some link's upper-cased name is the key. */
  lemma {:induction false} EndpointMapKeys(links: seq<Link>, key: string)
    ensures key in EndpointMap(links) <==> exists i :: 0 <= i < |links| && ToUpper(links[i].local) == key
  {
    if links != [] {
      var init := links[..|links| - 1];
      EndpointMapKeys(init, key);
      if ToUpper(links[|links| - 1].local) != key {
        if exists i :: 0 <= i < |links| && ToUpper(links[i].local) == key {
          var i :| 0 <= i < |links| && ToUpper(links[i].local) == key;
          assert init[i] == links[i];
        }
        if exists i :: 0 <= i < |init| && ToUpper(init[i].local) == key {
          var i :| 0 <= i < |init| && ToUpper(init[i].local) == key;
          assert init[i] == links[i];
        }
      }
    }
  }

  lemma {:induction false} EndpointMapLastWins(links: seq<Link>, key: string, i: nat)
    requires i < |links| && ToUpper(links[i].local) == key
    requires forall j :: i < j < |links| ==> ToUpper(links[j].local) != key
    ensures key in EndpointMap(links) && EndpointMap(links)[key] == PruneAfterFirstChar(links[i].href)
  {
    if i < |links| - 1 {
      var init := links[..|links| - 1];
      assert init[i] == links[i];
      assert forall j :: i < j < |init| ==> init[j] == links[j];
      EndpointMapLastWins(init, key, i);
    }
  }

  /** URI.create accepts every pruned href of the method elements (parses stands for its parser). */
  predicate HrefsParse(links: seq<Link>, parses: string -> bool)
  {
    forall i :: 0 <= i < |links| ==> parses(PruneAfterFirstChar(links[i].href))
  }

  /**
   * getRequestEndpoints: None when the request has no method element, else the endpoint map; a
   * pruned href URI.create rejects (parses stands for its parser) throws IllegalArgumentException.
   */
  method GetRequestEndpoints(caps: Capabilities, reqName: string, parses: string -> bool) returns (r: Result<Option<map<string, string>>>)
    ensures RequestLinks(caps.operations, reqName) == [] ==> r == Ok(None)
    ensures r.Err? <==> !HrefsParse(RequestLinks(caps.operations, reqName), parses)
    ensures r.Err? ==> r.error.IllegalArgument?
    ensures RequestLinks(caps.operations, reqName) != [] && r.Ok? ==>
      r.value == Some(EndpointMap(RequestLinks(caps.operations, reqName)))
  {
    var links := RequestLinks(caps.operations, reqName);
    if |links| == 0 {
      return Ok(None);
    }
    var endpoints := PutEndpoints(links, parses);
    if endpoints.Err? {
      return Err(endpoints.error);
    }
    r := Ok(Some(endpoints.value));
  }

  /** The loop of getRequestEndpoints: each method element's pruned href is parsed and put under its name. */
  method PutEndpoints(links: seq<Link>, parses: string -> bool) returns (r: Result<map<string, string>>)
    ensures r.Err? <==> !HrefsParse(links, parses)
    ensures r.Err? ==> r.error.IllegalArgument?
    ensures r.Ok? ==> r.value == EndpointMap(links)
  {
    var endpoints: map<string, string> := map[];
    var i := 0;
    while i < |links|
      invariant 0 <= i <= |links|
      invariant endpoints == EndpointMap(links[..i])
      invariant forall j :: 0 <= j < i ==> parses(PruneAfterFirstChar(links[j].href))
    {
      var href := PruneAfterFirstChar(links[i].href);
      if !parses(href) {
        return Err(IllegalArgument("Illegal character in URI"));
      }
      assert links[..i + 1][..i] == links[..i];
      endpoints := endpoints[ToUpper(links[i].local) := href];
      i := i + 1;
    }
    assert links[..i] == links;
    r := Ok(endpoints);
  }

  // ---------------------------------------------------------------------------
  // Bindings

  /** getGlobalBindings: the bindings whose encoding constraint is TRUE in OperationsMetadata; a null document fails. */
  function GlobalBindings(caps: Option<Capabilities>): (r: Result<set<ProtocolBinding>>)
    ensures caps.None? <==> r.Err?
    ensures r.Ok? ==> forall b :: b in r.value <==>
      b != ANY && Enabled(caps.value.globalConstraints, ConstraintName(b))
  {
    if caps.None? then Err(NullPointer("WFS metadata document is null."))
    else
      var g := caps.value.globalConstraints;
      var bindings := (if Enabled(g, "KVPEncoding") then {GET} else {}) +
                      (if Enabled(g, "XMLEncoding") then {POST} else {}) +
                      (if Enabled(g, "SOAPEncoding") then {SOAP} else {});
      assert forall b :: b in bindings <==> b != ANY && Enabled(g, ConstraintName(b)) by {
        forall b ensures b in bindings <==> b != ANY && Enabled(g, ConstraintName(b)) {
          EncodingConstraintFor(g, b);
        }
      }
      Ok(bindings)
  }

  /** A binding is among those the encoding constraints enable exactly when its own constraint is enabled. */
  lemma EncodingConstraintFor(g: seq<Constraint>, b: ProtocolBinding)
    ensures b in (if Enabled(g, "KVPEncoding") then {GET} else {}) +
                 (if Enabled(g, "XMLEncoding") then {POST} else {}) +
                 (if Enabled(g, "SOAPEncoding") then {SOAP} else {})
      <==> b != ANY && Enabled(g, ConstraintName(b))
  {
    match b
    case GET =>
    case POST =>
    case SOAP =>
    case ANY =>
  }

  /** Some binding (ANY included) has an enabled constraint on the operation itself. */
  predicate SomeOperationConstraint(caps: Capabilities, opName: string, upTo: nat)
    requires upTo <= |AllBindings|
  {
    exists k :: 0 <= k < upTo && OperationEnabled(caps, opName, ConstraintName(AllBindings[k]))
  }

  /** The bindings getOperationBindings returns as written: GET for any per-operation match. */
  function WrittenOperationBindings(caps: Capabilities, opName: string): set<ProtocolBinding>
  {
    var perOp := if SomeOperationConstraint(caps, opName, |AllBindings|) then {GET} else {};
    var all := perOp + GlobalBindings(Some(caps)).value;
    if opName == TRANSACTION then all - {GET} else all
  }

  /** getOperationBindings as written: the loop adds GET whichever binding's constraint matched. */
  method GetOperationBindingsAsWritten(caps: Capabilities, opName: string) returns (r: set<ProtocolBinding>)
    ensures r == WrittenOperationBindings(caps, opName)
  {
    r := {};
    var k := 0;
    while k < |AllBindings|
      invariant 0 <= k <= |AllBindings|
      invariant r == if SomeOperationConstraint(caps, opName, k) then {GET} else {}
    {
      if OperationEnabled(caps, opName, ConstraintName(AllBindings[k])) {
        r := r + {GET};
      }
      k := k + 1;
    }
    r := r + GlobalBindings(Some(caps)).value;
    if opName == TRANSACTION {
      r := r - {GET};
    }
  }

  /** A GetFeature operation that only declares XMLEncoding is reported as supporting GET, not POST. */
  lemma WrittenOperationBindingsCounterexample()
    ensures var caps := Capabilities([Operation("GetFeature", [Constraint("XMLEncoding", ["TRUE"])], [])], [], []);
      WrittenOperationBindings(caps, "GetFeature") == {GET}
  {
    var caps := Capabilities([Operation("GetFeature", [Constraint("XMLEncoding", ["TRUE"])], [])], [], []);
    assert caps.operations[0].constraints[0].name == ConstraintName(AllBindings[1]);
    assert "TRUE" in caps.operations[0].constraints[0].defaultValues;
    assert Enabled(caps.operations[0].constraints, ConstraintName(AllBindings[1]));
    assert OperationEnabled(caps, "GetFeature", ConstraintName(AllBindings[1]));
    assert GlobalBindings(Some(caps)).value == {};
  }

  /** A Transaction operation that only declares XMLEncoding is reported as supporting no binding at all. */
  lemma WrittenTransactionBindingsEmpty()
    ensures var caps := Capabilities([Operation(TRANSACTION, [Constraint("XMLEncoding", ["TRUE"])], [])], [], []);
      WrittenOperationBindings(caps, TRANSACTION) == {} && OperationBindings(caps, TRANSACTION) == {POST}
  {
    var caps := Capabilities([Operation(TRANSACTION, [Constraint("XMLEncoding", ["TRUE"])], [])], [], []);
    assert caps.operations[0].constraints[0].name == ConstraintName(AllBindings[1]);
    assert "TRUE" in caps.operations[0].constraints[0].defaultValues;
    assert Enabled(caps.operations[0].constraints, ConstraintName(AllBindings[1]));
    assert OperationEnabled(caps, TRANSACTION, ConstraintName(AllBindings[1]));
    assert GlobalBindings(Some(caps)).value == {};
  }

  /** The bindings the operation supports: those enabled on it or globally, with no GET for Transaction. */
  function OperationBindings(caps: Capabilities, opName: string): (r: set<ProtocolBinding>)
    ensures forall b :: b in r <==>
      (OperationEnabled(caps, opName, ConstraintName(b)) ||
       (b != ANY && Enabled(caps.globalConstraints, ConstraintName(b)))) &&
      !(opName == TRANSACTION && b == GET)
  {
    var perOp := set b | b in AllBindings && OperationEnabled(caps, opName, ConstraintName(b));
    var all := perOp + GlobalBindings(Some(caps)).value;
    assert forall b :: b in perOp <==> OperationEnabled(caps, opName, ConstraintName(b)) by {
      forall b ensures b in perOp <==> OperationEnabled(caps, opName, ConstraintName(b)) {
        AllBindingsComplete(b);
      }
    }
    if opName == TRANSACTION then all - {GET} else all
  }

  /** getOperationBindings with the matched binding added, as its documentation describes. */
  method GetOperationBindings(caps: Capabilities, opName: string) returns (r: set<ProtocolBinding>)
    ensures r == OperationBindings(caps, opName)
  {
    r := {};
    BindingIndexInverts();
    var k := 0;
    while k < |AllBindings|
      invariant 0 <= k <= |AllBindings|
      invariant forall b :: b in r <==> IndexOfBinding(b) < k && OperationEnabled(caps, opName, ConstraintName(b))
    {
      if OperationEnabled(caps, opName, ConstraintName(AllBindings[k])) {
        r := r + {AllBindings[k]};
      }
      k := k + 1;
    }
    r := r + GlobalBindings(Some(caps)).value;
    if opName == TRANSACTION {
      r := r - {GET};
    }
  }

  function IndexOfBinding(b: ProtocolBinding): (k: nat)
    ensures k < |AllBindings| && AllBindings[k] == b
  {
    match b case GET => 0 case POST => 1 case SOAP => 2 case ANY => 3
  }

  /** The bindings are listed once each: IndexOfBinding finds every one at its own place. */
  lemma BindingIndexInverts()
    ensures forall j :: 0 <= j < |AllBindings| ==> IndexOfBinding(AllBindings[j]) == j
  {
  }

  // ---------------------------------------------------------------------------
  // Conformance claims and spatial operators

  /** getConformanceClaims: exactly the conformance classes whose constraint is TRUE somewhere in the document. */
  method GetConformanceClaims(caps: Capabilities) returns (r: set<ConformanceClass>)
    ensures forall c :: c in r <==> ClaimedAnywhere(caps, ClassConstraintName(c))
  {
    r := set c | c in AllClasses;
    ClassIndexInverts();
    var k := 0;
    while k < |AllClasses|
      invariant 0 <= k <= |AllClasses|
      invariant forall j :: 0 <= j < k ==> (AllClasses[j] in r <==> ClaimedAnywhere(caps, ClassConstraintName(AllClasses[j])))
      invariant forall j :: k <= j < |AllClasses| ==> AllClasses[j] in r
      invariant forall c :: c in r ==> c in AllClasses
    {
      var c := AllClasses[k];
      if !ClaimedAnywhere(caps, ClassConstraintName(c)) {
        r := r - {c};
      }
      k := k + 1;
    }
    forall c ensures c in r <==> ClaimedAnywhere(caps, ClassConstraintName(c)) {
      var j := ClassIndex(c);
    }
  }

  function ClassIndex(c: ConformanceClass): (k: nat)
    ensures k < |AllClasses| && AllClasses[k] == c
  {
    match c
    case SIMPLE_WFS => 0 case BASIC_WFS => 1 case TRANSACTIONAL_WFS => 2 case LOCKING_WFS => 3
    case HTTP_GET => 4 case HTTP_POST => 5 case SOAP_CLASS => 6
  }

  /** The classes are listed once each: ClassIndex finds every one at its own place. */
  lemma ClassIndexInverts()
    ensures forall j :: 0 <= j < |AllClasses| ==> ClassIndex(AllClasses[j]) == j
  {
  }

  /** Operators that getImplementedSpatialOperators skips. */
  predicate IsAnalyticOperator(name: string)
  {
    name == "BBOX" || name == "DWITHIN" || name == "BEYOND"
  }

  /** The i-th operator name is neither skipped nor a known enumeration constant. */
  predicate UnknownOperatorAt(names: seq<string>, known: set<string>, i: int)
  {
    0 <= i < |names| && !IsAnalyticOperator(ToUpper(names[i])) && ToUpper(names[i]) !in known
  }

  /**
   * getImplementedSpatialOperators: the upper-cased operator names other than BBOX, DWITHIN and
   * BEYOND. A name that is not a constant of the spatial-relationship enumeration (whose
   * constant names are given as known) makes the lookup fail.
   */
  method GetImplementedSpatialOperators(caps: Capabilities, known: set<string>) returns (r: Result<set<string>>)
    ensures r.Ok? ==> forall n :: n in r.value ==> !IsAnalyticOperator(n) && n in known
    ensures r.Ok? ==> forall n :: n in r.value <==>
      exists i :: 0 <= i < |caps.spatialOperatorNames| && n == ToUpper(caps.spatialOperatorNames[i]) && !IsAnalyticOperator(n)
    ensures r.Err? <==> exists i :: UnknownOperatorAt(caps.spatialOperatorNames, known, i)
  {
    var names := caps.spatialOperatorNames;
    var ops: set<string> := {};
    var i := 0;
    while i < |names|
      invariant 0 <= i <= |names|
      invariant forall j :: 0 <= j < i ==> IsAnalyticOperator(ToUpper(names[j])) || ToUpper(names[j]) in known
      invariant forall n :: n in ops <==> exists j :: 0 <= j < i && n == ToUpper(names[j]) && !IsAnalyticOperator(n)
    {
      var opName := ToUpper(names[i]);
      if IsAnalyticOperator(opName) {
        i := i + 1;
        continue;
      }
      if opName !in known {
        assert UnknownOperatorAt(names, known, i);
        return Err(IllegalArgument("No enum constant " + opName));
      }
      ops := ops + {opName};
      i := i + 1;
    }
    r := Ok(ops);
  }
}
