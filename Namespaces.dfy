/** Namespace names used throughout the suite. */
module Namespaces {
  const SOAP11: string := "http://schemas.xmlsoap.org/soap/envelope/"
  const SOAP_ENV: string := "http://www.w3.org/2003/05/soap-envelope"
  const XLINK: string := "http://www.w3.org/1999/xlink"
  const XSI: string := "http://www.w3.org/2001/XMLSchema-instance"
  const OWS: string := "http://www.opengis.net/ows/1.1"
  const GML: string := "http://www.opengis.net/gml/3.2"
  const WFS: string := "http://www.opengis.net/wfs/2.0"
  const FES: string := "http://www.opengis.net/fes/2.0"
  const XSD: string := "http://www.w3.org/2001/XMLSchema"
}
