/** A mutable table binding namespace names to prefixes, read in both directions. */
module NamespaceBindingTable {
  import opened Wrappers
  import Namespaces

  /** The eight bindings every XPath evaluation in the suite starts from. */
  function StandardBindings(): map<string, string>
  {
    map[Namespaces.WFS := "wfs", Namespaces.FES := "fes", Namespaces.OWS := "ows",
        Namespaces.XLINK := "xlink", Namespaces.GML := "gml", Namespaces.SOAP_ENV := "soap",
        Namespaces.SOAP11 := "soap11", Namespaces.XSI := "xsi"]
  }

  lemma StandardBindingsContents()
    ensures |StandardBindings()| == 8
    ensures StandardBindings()[Namespaces.WFS] == "wfs" && StandardBindings()[Namespaces.GML] == "gml"
    ensures StandardBindings()[Namespaces.FES] == "fes" && StandardBindings()[Namespaces.XSI] == "xsi"
    ensures StandardBindings()[Namespaces.SOAP11] == "soap11" && StandardBindings()[Namespaces.SOAP_ENV] == "soap"
  {
    var m := StandardBindings();
    var keys := {Namespaces.WFS, Namespaces.FES, Namespaces.OWS, Namespaces.XLINK,
                 Namespaces.GML, Namespaces.SOAP_ENV, Namespaces.SOAP11, Namespaces.XSI};
    assert m.Keys == keys;
  }

  class NamespaceBindings {
    /** namespace name -> prefix */
    var bindings: map<string, string>

    constructor ()
      ensures bindings == map[]
    {
      bindings := map[];
    }

    /** The namespace bound to the prefix: some key whose value is prefix, or None. */
    method GetNamespaceURI(prefix: string) returns (r: Option<string>)
      ensures r.Some? ==> r.value in bindings && bindings[r.value] == prefix
      ensures r.None? <==> forall u :: u in bindings ==> bindings[u] != prefix
    {
      r := None;
      var todo := bindings.Keys;
      while todo != {}
        invariant todo <= bindings.Keys
        invariant r.None?
        invariant forall u :: u in bindings && u !in todo ==> bindings[u] != prefix
        decreases todo
      {
        var u :| u in todo;
        if bindings[u] == prefix {
          r := Some(u);
          return;
        }
        todo := todo - {u};
      }
    }

    /** The prefix stored for the namespace, or None. */
    function GetPrefix(uri: string): (r: Option<string>)
      reads this
      ensures r.Some? <==> uri in bindings
      ensures r.Some? ==> r.value == bindings[uri]
    {
      if uri in bindings then Some(bindings[uri]) else None
    }

    /** Binds the prefix to the namespace, replacing an earlier prefix of that namespace. */
    method AddNamespaceBinding(uri: string, prefix: string)
      modifies this
      ensures bindings == old(bindings)[uri := prefix]
      ensures GetPrefix(uri) == Some(prefix)
      ensures forall u :: u != uri ==> GetPrefix(u) == old(GetPrefix(u))
    {
      bindings := bindings[uri := prefix];
    }

    /** Adds every supplied binding (supplied ones win); None stands for a null map and changes nothing. */
    method AddAllBindings(nsBindings: Option<map<string, string>>)
      modifies this
      ensures nsBindings.None? ==> bindings == old(bindings)
      ensures nsBindings.Some? ==> bindings == old(bindings) + nsBindings.value
      ensures nsBindings.Some? ==> forall u :: u in nsBindings.value ==> GetPrefix(u) == Some(nsBindings.value[u])
      ensures nsBindings.Some? ==> forall u :: u !in nsBindings.value ==> GetPrefix(u) == old(GetPrefix(u))
    {
      if nsBindings.Some? {
        bindings := bindings + nsBindings.value;
      }
    }

    /** A new table holding exactly the standard bindings. */
    static method WithStandardBindings() returns (nb: NamespaceBindings)
      ensures fresh(nb) && nb.bindings == StandardBindings()
    {
      nb := new NamespaceBindings();
      nb.AddNamespaceBinding(Namespaces.WFS, "wfs");
      nb.AddNamespaceBinding(Namespaces.FES, "fes");
      nb.AddNamespaceBinding(Namespaces.OWS, "ows");
      nb.AddNamespaceBinding(Namespaces.XLINK, "xlink");
      nb.AddNamespaceBinding(Namespaces.GML, "gml");
      nb.AddNamespaceBinding(Namespaces.SOAP_ENV, "soap");
      nb.AddNamespaceBinding(Namespaces.SOAP11, "soap11");
      nb.AddNamespaceBinding(Namespaces.XSI, "xsi");
    }
  }
}
