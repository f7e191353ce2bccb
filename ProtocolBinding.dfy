/** The HTTP message bindings a WFS may support, each named by an OWS capability constraint. */
module ProtocolBindings {
  import opened Wrappers

  datatype ProtocolBinding = GET | POST | SOAP | ANY

  /** ProtocolBinding.values(), in declaration order. */
  const AllBindings: seq<ProtocolBinding> := [GET, POST, SOAP, ANY]

  /** The name of the capability constraint that advertises the binding. */
  function ConstraintName(b: ProtocolBinding): string
  {
    match b
    case GET => "KVPEncoding"
    case POST => "XMLEncoding"
    case SOAP => "SOAPEncoding"
    case ANY => ""
  }

  /** Enum.name(). */
  function Name(b: ProtocolBinding): string
  {
    match b
    case GET => "GET"
    case POST => "POST"
    case SOAP => "SOAP"
    case ANY => "ANY"
  }

  /** The binding a constraint name stands for: the first value in declaration order with that name. */
  function FromConstraintName(name: string): (r: Option<ProtocolBinding>)
    ensures r.Some? ==> ConstraintName(r.value) == name
    ensures r.None? ==> forall b :: ConstraintName(b) != name
  {
    if name == "KVPEncoding" then Some(GET)
    else if name == "XMLEncoding" then Some(POST)
    else if name == "SOAPEncoding" then Some(SOAP)
    else if name == "" then Some(ANY)
    else None
  }

  /** Every binding is recovered from its constraint name, so no two bindings share one. */
  lemma ConstraintNameRoundTrip(b: ProtocolBinding)
    ensures FromConstraintName(ConstraintName(b)) == Some(b)
    ensures b == GET ==> ConstraintName(b) == "KVPEncoding"
    ensures b == POST ==> ConstraintName(b) == "XMLEncoding"
    ensures b == SOAP ==> ConstraintName(b) == "SOAPEncoding"
    ensures b == ANY ==> ConstraintName(b) == ""
  {
  }

  lemma ConstraintNamesDistinct(b1: ProtocolBinding, b2: ProtocolBinding)
    ensures b1 != b2 ==> ConstraintName(b1) != ConstraintName(b2)
  {
    ConstraintNameRoundTrip(b1);
    ConstraintNameRoundTrip(b2);
  }

  lemma AllBindingsComplete(b: ProtocolBinding)
    ensures b in AllBindings
  {
  }
}
