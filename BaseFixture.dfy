/** The shared fixture of the test classes: data providers and failure attributes. */
module BaseFixtures {
  import opened Wrappers
  import opened Xml
  import opened ProtocolBindings
  import WfsMessage
  import Namespaces

  /** Maximum length of the response text recorded on a failed test. */
  const MAX_RSP_ATTR_LENGTH: nat := 4096

  /** The prefix used for a property name without one. */
  const TNS_PREFIX := "tns"

  /** A property name with the prefix it was written with ("" for none). */
  datatype PropertyName = PropertyName(ns: string, prefix: string, local: string)

  /** The prefix the value reference uses: the property's own, else "tns". */
  function ValueRefPrefix(name: PropertyName): (r: string)
    ensures r != ""
    ensures name.prefix != "" ==> r == name.prefix
  {
    if |name.prefix| > 0 then name.prefix else TNS_PREFIX
  }

  /** fes:ValueReference naming the property; the prefix is declared on it when the document does not bind it. */
  function ValueReference(docElement: Node, name: PropertyName): (r: Node)
    ensures r.Element? && r.ns == Namespaces.FES && r.local == "ValueReference"
    ensures TextContent(r) == ValueRefPrefix(name) + ":" + name.local
    ensures LookupNamespaceURI([docElement], ValueRefPrefix(name)).None? ==>
      r.attrs == [Attr(XmlnsAttrName(ValueRefPrefix(name)), name.ns)]
    ensures LookupNamespaceURI([docElement], ValueRefPrefix(name)).Some? ==> r.attrs == []
  {
    var prefix := ValueRefPrefix(name);
    var v := NewElement(Namespaces.FES, "", "ValueReference");
    var declared := if LookupNamespaceURI([docElement], prefix).None? then SetAttribute(v, XmlnsAttrName(prefix), name.ns) else v;
    WithText(declared, prefix + ":" + name.local)
  }


  /** The pairs (b, t) for every type t, in order. */
  function Pairs(b: ProtocolBinding, types: seq<QName>): (r: seq<(ProtocolBinding, QName)>)
    ensures |r| == |types|
    ensures forall k :: 0 <= k < |types| ==> r[k] == (b, types[k])
  {
    seq(|types|, k requires 0 <= k < |types| => (b, types[k]))
  }

  /** The pairs (b, t) for every binding b and type t, bindings outermost, in iteration order. */
  function Product(bindings: seq<ProtocolBinding>, types: seq<QName>): (r: seq<(ProtocolBinding, QName)>)
    ensures |r| == |bindings| * |types|
  {
    if bindings == [] then []
    else
      var rest := Product(bindings[1..], types);
      assert |bindings| * |types| == |types| + (|bindings| - 1) * |types|;
      Pairs(bindings[0], types) + rest
  }

  /** Pair number i * |types| + j of the product is (bindings[i], types[j]). */
  lemma {:induction false} ProductIndex(bindings: seq<ProtocolBinding>, types: seq<QName>, i: nat, j: nat)
    requires i < |bindings| && j < |types|
    ensures i * |types| + j < |Product(bindings, types)|
    ensures Product(bindings, types)[i * |types| + j] == (bindings[i], types[j])
    decreases i
  {
    var rest := Product(bindings[1..], types);
    assert Product(bindings, types) == Pairs(bindings[0], types) + rest;
    if i > 0 {
      ProductIndex(bindings[1..], types, i - 1, j);
      assert i * |types| + j == |types| + ((i - 1) * |types| + j);
    }
  }

  /** The types that have instances, in order. */
  function Instantiated(types: seq<QName>, instantiated: map<QName, bool>): (r: seq<QName>)
    requires forall t :: t in types ==> t in instantiated
    ensures forall t :: t in r <==> t in types && instantiated[t]
    ensures |r| <= |types|
  {
    if types == [] then []
    else
      var rest := Instantiated(types[1..], instantiated);
      assert forall t :: t in types <==> t == types[0] || t in types[1..];
      if instantiated[types[0]] then [types[0]] + rest else rest
  }

  /** The names of the instantiated entries (typeName, instantiated), in order. */
  function InstantiatedNames(infos: seq<(QName, bool)>): (r: seq<QName>)
    ensures forall t :: t in r <==> (t, true) in infos
  {
    if infos == [] then []
    else
      var rest := InstantiatedNames(infos[1..]);
      assert forall e :: e in infos <==> e == infos[0] || e in infos[1..];
      if infos[0].1 then [infos[0].0] + rest else rest
  }

  /**
   * The "response" attribute of a failed test: the serialized response, cut to its first 4096
   * characters.
   */
  function TruncatedResponse(response: string): (r: string)
    ensures |r| == if |response| > MAX_RSP_ATTR_LENGTH then MAX_RSP_ATTR_LENGTH else |response|
    ensures r == response[..|r|]
  {
    if |response| > MAX_RSP_ATTR_LENGTH then response[..MAX_RSP_ATTR_LENGTH] else response
  }

  class BaseFixture {
    /** The global bindings, in set iteration order (null before initialization). */
    var supportedBindings: Option<seq<ProtocolBinding>>
    var featureTypes: Option<seq<QName>>
    /** Whether each known feature type has instances (FeatureTypeInfo.isInstantiated). */
    var featureInfo: map<QName, bool>

    constructor ()
      ensures supportedBindings.None? && featureTypes.None? && featureInfo == map[]
    {
      supportedBindings := None;
      featureTypes := None;
      featureInfo := map[];
    }

    /** initBaseFixture: does nothing once feature types are known; otherwise reads them from the suite. */
    method InitBaseFixture(globalBindings: seq<ProtocolBinding>, types: seq<QName>, info: map<QName, bool>)
      modifies this
      ensures old(featureTypes).Some? && old(featureTypes).value != [] ==>
        supportedBindings == old(supportedBindings) && featureTypes == old(featureTypes) && featureInfo == old(featureInfo)
      ensures !(old(featureTypes).Some? && old(featureTypes).value != []) ==>
        supportedBindings == Some(globalBindings) && featureTypes == Some(types) && featureInfo == info
    {
      if featureTypes.Some? && |featureTypes.value| > 0 {
        return;
      }
      supportedBindings := Some(globalBindings);
      featureTypes := Some(types);
      featureInfo := info;
    }

    /** allProtocolsAndFeatureTypes: every (binding, type) pair, bindings outermost. */
    method AllProtocolsAndFeatureTypes() returns (r: Result<seq<(ProtocolBinding, QName)>>)
      ensures supportedBindings.None? || featureTypes.None? ==> r.Err? && r.error.NullPointer?
      ensures supportedBindings.Some? && featureTypes.Some? ==>
        r == Ok(Product(supportedBindings.value, featureTypes.value))
    {
      if supportedBindings.None? || featureTypes.None? {
        return Err(NullPointer("fixture not initialized"));
      }
      var bindings := supportedBindings.value;
      var types := featureTypes.value;
      var params: seq<(ProtocolBinding, QName)> := [];
      var i := 0;
      while i < |bindings|
        invariant 0 <= i <= |bindings|
        invariant params == Product(bindings[..i], types)
      {
        var j := 0;
        ghost var before := params;
        while j < |types|
          invariant 0 <= j <= |types|
          invariant params == before + Pairs(bindings[i], types[..j])
        {
          assert Pairs(bindings[i], types[..j + 1]) == Pairs(bindings[i], types[..j]) + [(bindings[i], types[j])];
          params := params + [(bindings[i], types[j])];
          j := j + 1;
        }
        assert types[..j] == types;
        ProductAppend(bindings[..i], bindings[i], types);
        assert bindings[..i + 1] == bindings[..i] + [bindings[i]];
        i := i + 1;
      }
      assert bindings[..i] == bindings;
      return Ok(params);
    }

    /** getInstantiatedFeatureTypes: the feature types with instances, in list order; an unknown type throws. */
    method GetInstantiatedFeatureTypes() returns (r: Result<seq<QName>>)
      ensures featureTypes.None? ==> r.Err?
      ensures featureTypes.Some? && (exists t :: t in featureTypes.value && t !in featureInfo) ==> r.Err?
      ensures featureTypes.Some? && (forall t :: t in featureTypes.value ==> t in featureInfo) ==>
        r == Ok(Instantiated(featureTypes.value, featureInfo))
    {
      if featureTypes.None? {
        return Err(NullPointer("no feature types"));
      }
      var types := featureTypes.value;
      var data: seq<QName> := [];
      var i := 0;
      while i < |types|
        invariant 0 <= i <= |types|
        invariant forall t :: t in types[..i] ==> t in featureInfo
        invariant data == Instantiated(types[..i], featureInfo)
      {
        if types[i] !in featureInfo {
          return Err(NullPointer("no information about a feature type"));
        }
        InstantiatedAppend(types[..i], types[i], featureInfo);
        assert types[..i + 1] == types[..i] + [types[i]];
        if featureInfo[types[i]] {
          data := data + [types[i]];
        }
        i := i + 1;
      }
      assert types[..i] == types;
      return Ok(data);
    }

    /**
     * addAttributesOnTestFailure: on failure, the request (as KVP text when the test ran with the
     * GET binding, else as XML) and the response (cut to 4096 characters) are recorded.
     */
    method AddAttributesOnTestFailure(failed: bool, params: Option<seq<WfsMessage.TestParam>>,
                                      request: Option<(string, string)>, response: Option<string>)
      returns (attrs: map<string, string>)
      ensures !failed ==> attrs == map[]
      ensures failed ==> ("request" in attrs <==> request.Some?) && ("response" in attrs <==> response.Some?)
      ensures failed && request.Some? ==>
        attrs["request"] == if params.Some? && WfsMessage.BindingParam(GET) in params.value then request.value.0 else request.value.1
      ensures failed && response.Some? ==>
        attrs["response"] == TruncatedResponse(response.value) && |attrs["response"]| <= MAX_RSP_ATTR_LENGTH
      ensures attrs.Keys <= {"request", "response"}
    {
      attrs := map[];
      if !failed {
        return;
      }
      if request.Some? {
        var isGet := WfsMessage.ContainsGetProtocolBinding(params);
        attrs := attrs["request" := if isGet then request.value.0 else request.value.1];
      }
      if response.Some? {
        attrs := attrs["response" := TruncatedResponse(response.value)];
      }
    }
  }

  lemma {:induction false} ProductAppend(bindings: seq<ProtocolBinding>, b: ProtocolBinding, types: seq<QName>)
    ensures Product(bindings + [b], types) == Product(bindings, types) + Pairs(b, types)
    decreases |bindings|
  {
    if bindings == [] {
      assert [b][1..] == [];
    } else {
      assert (bindings + [b])[1..] == bindings[1..] + [b];
      ProductAppend(bindings[1..], b, types);
    }
  }

  lemma {:induction false} InstantiatedAppend(types: seq<QName>, t: QName, instantiated: map<QName, bool>)
    requires forall u :: u in types ==> u in instantiated
    requires t in instantiated
    ensures Instantiated(types + [t], instantiated) ==
      Instantiated(types, instantiated) + (if instantiated[t] then [t] else [])
    decreases |types|
  {
    if types == [] {
      assert [t][1..] == [];
    } else {
      assert (types + [t])[1..] == types[1..] + [t];
      InstantiatedAppend(types[1..], t, instantiated);
    }
  }

  /**
   * protocol-featureType: each global binding paired with the name of each instantiated type;
   * a missing service description throws.
   */
  method BindingAndAvailFeatureTypeProductSet(metadataPresent: bool, globalBindings: seq<ProtocolBinding>,
                                              infos: seq<(QName, bool)>) returns (r: Result<seq<(ProtocolBinding, QName)>>)
    ensures !metadataPresent ==> r.Err? && r.error.NullPointer?
    ensures metadataPresent ==> r == Ok(Product(globalBindings, InstantiatedNames(infos)))
  {
    if !metadataPresent {
      return Err(NullPointer("Service description not found in ITestContext"));
    }
    var paramList: seq<(ProtocolBinding, QName)> := [];
    var i := 0;
    while i < |globalBindings|
      invariant 0 <= i <= |globalBindings|
      invariant paramList == Product(globalBindings[..i], InstantiatedNames(infos))
    {
      var j := 0;
      ghost var before := paramList;
      while j < |infos|
        invariant 0 <= j <= |infos|
        invariant paramList == before + Pairs(globalBindings[i], InstantiatedNames(infos[..j]))
      {
        InstantiatedNamesAppend(infos[..j], infos[j]);
        assert infos[..j + 1] == infos[..j] + [infos[j]];
        if infos[j].1 {
          assert Pairs(globalBindings[i], InstantiatedNames(infos[..j]) + [infos[j].0])
            == Pairs(globalBindings[i], InstantiatedNames(infos[..j])) + [(globalBindings[i], infos[j].0)];
          paramList := paramList + [(globalBindings[i], infos[j].0)];
        }
        j := j + 1;
      }
      assert infos[..j] == infos;
      ProductAppend(globalBindings[..i], globalBindings[i], InstantiatedNames(infos));
      assert globalBindings[..i + 1] == globalBindings[..i] + [globalBindings[i]];
      i := i + 1;
    }
    assert globalBindings[..i] == globalBindings;
    return Ok(paramList);
  }

  lemma {:induction false} InstantiatedNamesAppend(infos: seq<(QName, bool)>, e: (QName, bool))
    ensures InstantiatedNames(infos + [e]) == InstantiatedNames(infos) + (if e.1 then [e.0] else [])
    decreases |infos|
  {
    if infos == [] {
      assert [e][1..] == [];
    } else {
      assert (infos + [e])[1..] == infos[1..] + [e];
      InstantiatedNamesAppend(infos[1..], e);
    }
  }
}
