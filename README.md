# ets-wfs20 core in Dafny

A model of the decision and construction logic inside the WFS 2.0 conformance test suite
(ISO 19142:2010, with filters per ISO 19143:2010). The suite itself sends requests to a Web
Feature Service and checks the responses. The model covers the code beneath those checks, which
can be stated and proved without a server:

- reading a capabilities document (`ServiceMetadataUtils`): qualified names, endpoints, protocol
  bindings per operation, conformance claims and spatial operators;
- the namespace-binding table (`NamespaceBindings`);
- building request entities: `typeNames` lists (`WFSMessage`), resource-identifier filters
  (section 7.11 of ISO 19143:2010), `PropertyIsLike` predicates (section 7.7.3.4 of ISO 19143:2010),
  comparison predicates (section 7.7 of ISO 19143:2010), spatial join queries and
  DescribeFeatureType type names;
- deriving test inputs from sampled data: value ranges, the backward property search, like-patterns,
  new values for Update and random feature identifiers;
- the small state holders: `FeatureTypeInfo`, `ResourceId`, the `DataSampler` caches and limit,
  the `BaseFixture` data providers and the lock list of `LockingFixture`;
- pure mappings: built-in datatypes, binding constraint names, status-code membership and random words.

A DOM tree is a value (`Xml.Node`: an element with namespace, prefix, local name, attributes and
children, or text). Prefix lookup follows DOM Level 3: it walks an innermost-first chain of
ancestors. A document whose tree the source changes in place is a `WfsMessage.Document` object whose
`root` the methods replace. Java objects with fields the source updates are Dafny classes with the
same fields, for example `FeatureTypeInfo`, `ResourceId`, `DataSampler`, `NamespaceBindings`,
`BaseFixture` and `LockingFixture`. Loops in the source are `while` loops proved against
specification functions, and the properties the source promises are proved about those functions.

Inputs the code takes from outside become parameters:
- random numbers become the numbers drawn, or a choice the contract constrains;
- the clock is a parameter;
- answers from the service under test are parameters;
- XPath results are parameters;
- the file system is a parameter;
- URI resolution is a parameter.

The iteration order of a Java `HashMap` or `HashSet` is a sequence of entries with distinct keys.
One file per Java class; the module names follow the class names.

## Model

| member | source | states |
|---|---|---|
| NamespaceBindingTable.StandardBindingsContents | src/main/java/org/opengis/cite/iso19142/util/NamespaceBindings.java:100-112 | the standard table has exactly 8 bindings, among them WFS to "wfs", GML to "gml", FES to "fes", XSI to "xsi" and both SOAP namespaces |
| NamespaceBindingTable.NamespaceBindings.constructor | src/main/java/org/opengis/cite/iso19142/util/NamespaceBindings.java:20 | a new table is empty |
| NamespaceBindingTable.NamespaceBindings.GetNamespaceURI | src/main/java/org/opengis/cite/iso19142/util/NamespaceBindings.java:23-32 | a found namespace is bound to exactly that prefix; None exactly when no binding has the prefix |
| NamespaceBindingTable.NamespaceBindings.GetPrefix | src/main/java/org/opengis/cite/iso19142/util/NamespaceBindings.java:34-37 | the stored prefix of the namespace, and None exactly when the namespace has no binding |
| NamespaceBindingTable.NamespaceBindings.AddNamespaceBinding | src/main/java/org/opengis/cite/iso19142/util/NamespaceBindings.java:54-56 | the namespace now has the new prefix, replacing an earlier one; every other namespace keeps its prefix |
| NamespaceBindingTable.NamespaceBindings.AddAllBindings | src/main/java/org/opengis/cite/iso19142/util/NamespaceBindings.java:67-70 | a null map changes nothing; otherwise every supplied binding is present, and namespaces not supplied keep their prefixes |
| NamespaceBindingTable.NamespaceBindings.WithStandardBindings | src/main/java/org/opengis/cite/iso19142/util/NamespaceBindings.java:100-112 | a fresh table holding exactly the eight standard bindings |
| ServiceMetadataUtils.BuildQName | src/main/java/org/opengis/cite/iso19142/util/ServiceMetadataUtils.java:217-231 | with a colon at an index above 0 the local part is the text after it and the namespace is the one bound to the prefix; otherwise the whole text is the local part in the default namespace |
| ServiceMetadataUtils.BuildQNameRoundTrip | src/main/java/org/opengis/cite/iso19142/util/ServiceMetadataUtils.java:221-224 | writing "prefix:local" with a bound prefix and reading it back gives the qualified name |
| ServiceMetadataUtils.BuildQNameUnprefixed | src/main/java/org/opengis/cite/iso19142/util/ServiceMetadataUtils.java:225-229 | text without a colon is the local part; with no default namespace in scope the namespace is empty |
| ServiceMetadataUtils.BuildQNameUnprefixedExample | src/test/java/org/opengis/cite/iso19142/util/VerifyServiceMetadataUtils.java:110-117 | "localPart" in an element without a default binding reads as localPart in no namespace |
| ServiceMetadataUtils.BuildQNamePrefixedExample | src/test/java/org/opengis/cite/iso19142/util/VerifyServiceMetadataUtils.java:120-127 | "tns:localPart" reads as localPart in the namespace tns is bound to |
| ServiceMetadataUtils.MethodElementName | src/main/java/org/opengis/cite/iso19142/util/ServiceMetadataUtils.java:67-69 | the method element name has only its first letter capitalised: "Get" for GET, "Post" for POST |
| ServiceMetadataUtils.PruneQuery | src/main/java/org/opengis/cite/iso19142/util/ServiceMetadataUtils.java:84-88 | the pruned URI is a prefix of the input with no query component; a URI without a query is unchanged, otherwise it is cut at its first '?' |
| ServiceMetadataUtils.PruneTrailingQuestionMark | src/main/java/org/opengis/cite/iso19142/util/ServiceMetadataUtils.java:84-88 | an empty query given by a trailing '?' is removed too |
| ServiceMetadataUtils.PruneQueryIdempotent | src/main/java/org/opengis/cite/iso19142/util/ServiceMetadataUtils.java:84-88 | pruning twice is pruning once |
| ServiceMetadataUtils.EndpointFor | src/main/java/org/opengis/cite/iso19142/util/ServiceMetadataUtils.java:63-89 | SOAP uses the POST endpoint; the result is the first matching href of the operation with its query pruned, or "" when there is none |
| ServiceMetadataUtils.RawEndpoint | src/main/java/org/opengis/cite/iso19142/util/ServiceMetadataUtils.java:73-79 | the href the XPath expression selects; pruning its query gives the operation's endpoint |
| ServiceMetadataUtils.GetOperationEndpoint | src/main/java/org/opengis/cite/iso19142/util/ServiceMetadataUtils.java:59-90 | a null or ANY binding with no binding getOperationBindings reports as written fails (NoSuchElementException); otherwise, for the given binding or one of those written, the result is that binding's endpoint when URI.create accepts the href and its pruned form, and IllegalArgumentException when it does not; the result never has a query component |
| ServiceMetadataUtils.EndpointExampleGet | src/test/java/org/opengis/cite/iso19142/util/VerifyServiceMetadataUtils.java:47-52 | DescribeFeatureType over GET in the simple capabilities is http://localhost/wfs2 |
| ServiceMetadataUtils.EndpointExamplePost | src/test/java/org/opengis/cite/iso19142/util/VerifyServiceMetadataUtils.java:55-60 | DescribeFeatureType over POST in the simple capabilities is the empty URI |
| ServiceMetadataUtils.PruneAfterFirstChar | src/main/java/org/opengis/cite/iso19142/util/ServiceMetadataUtils.java:119-123 | an href is cut before its first '?' only when that index is above 0, and left whole otherwise |
| ServiceMetadataUtils.EndpointMapKeys | src/main/java/org/opengis/cite/iso19142/util/ServiceMetadataUtils.java:116-125 | a key is in the endpoint map exactly when some method element's upper-cased local name is that key |
| ServiceMetadataUtils.EndpointMapLastWins | src/main/java/org/opengis/cite/iso19142/util/ServiceMetadataUtils.java:124 | the value under a key is the pruned href of the last method element with that name |
| ServiceMetadataUtils.GetRequestEndpoints | src/main/java/org/opengis/cite/iso19142/util/ServiceMetadataUtils.java:104-130 | null exactly when the request has no method element; IllegalArgumentException exactly when URI.create rejects some pruned href; otherwise the endpoint map of its method elements |
| ServiceMetadataUtils.PutEndpoints | src/main/java/org/opengis/cite/iso19142/util/ServiceMetadataUtils.java:115-125 | the loop fails exactly when some pruned href is rejected, and otherwise builds the endpoint map: each upper-cased method name under its pruned href |
| ServiceMetadataUtils.GlobalBindings | src/main/java/org/opengis/cite/iso19142/util/ServiceMetadataUtils.java:248-270 | a null document fails; otherwise GET, POST and SOAP are present exactly when KVPEncoding, XMLEncoding and SOAPEncoding are TRUE in OperationsMetadata |
| ServiceMetadataUtils.GetOperationBindingsAsWritten | src/main/java/org/opengis/cite/iso19142/util/ServiceMetadataUtils.java:284-304 | as written: GET for any per-operation constraint match, united with the global bindings, GET removed for Transaction |
| ServiceMetadataUtils.WrittenOperationBindingsCounterexample | src/main/java/org/opengis/cite/iso19142/util/ServiceMetadataUtils.java:287-292 | a GetFeature operation that only enables XMLEncoding is reported as supporting GET and not POST |
| ServiceMetadataUtils.WrittenTransactionBindingsEmpty | src/main/java/org/opengis/cite/iso19142/util/ServiceMetadataUtils.java:284-304 | for a Transaction operation that only enables XMLEncoding, the as-written set is empty (GET added, then removed), so an ANY endpoint lookup fails, while the corrected set is {POST} |
| ServiceMetadataUtils.OperationBindings | src/main/java/org/opengis/cite/iso19142/util/ServiceMetadataUtils.java:272-304 | a binding is supported exactly when it is enabled on the operation or globally, except GET for Transaction |
| ServiceMetadataUtils.GetOperationBindings | src/main/java/org/opengis/cite/iso19142/util/ServiceMetadataUtils.java:284-304 | the corrected loop returns exactly the supported bindings |
| ServiceMetadataUtils.GetConformanceClaims | src/main/java/org/opengis/cite/iso19142/util/ServiceMetadataUtils.java:317-335 | a conformance class is claimed exactly when its constraint is TRUE somewhere in the document |
| ServiceMetadataUtils.GetImplementedSpatialOperators | src/main/java/org/opengis/cite/iso19142/util/ServiceMetadataUtils.java:378-390 | the upper-cased operator names, never BBOX, DWITHIN or BEYOND; a name that is no enumeration constant makes the call fail |
| WfsMessage.RandomPrefix | src/main/java/org/opengis/cite/iso19142/util/WFSMessage.java:140-141 | a made-up prefix is "ns" followed by the digits of the number drawn, at least three characters and free of whitespace |
| WfsMessage.SoapNamespace | src/main/java/org/opengis/cite/iso19142/util/WFSMessage.java:93-98 | the SOAP 1.1 namespace exactly for version "1.1", and SOAP 1.2 for any other version or none |
| WfsMessage.WrapEntityInSoapEnvelope | src/main/java/org/opengis/cite/iso19142/util/WFSMessage.java:92-109 | soap:Envelope in that namespace whose one child soap:Body holds the entity |
| WfsMessage.TypeNameEntries | src/main/java/org/opengis/cite/iso19142/util/WFSMessage.java:137-146 | one "prefix:local" entry per type name, in order; the prefix is the one the document element binds, else a made-up one |
| WfsMessage.AppendSimpleQuery | src/main/java/org/opengis/cite/iso19142/util/WFSMessage.java:133-150 | the new wfs:Query is appended as the last child of the document element and is returned |
| WfsMessage.SimpleQueryTypeNames | src/main/java/org/opengis/cite/iso19142/util/WFSMessage.java:145-147 | typeNames is the entries joined by single spaces, with no trailing space |
| WfsMessage.SimpleQueryDeclaresUnbound | src/main/java/org/opengis/cite/iso19142/util/WFSMessage.java:139-144 | a namespace the document element does not bind is declared on the query under its made-up prefix, unless a later made-up prefix collides |
| WfsMessage.RandomDeclarationsDistinct | src/main/java/org/opengis/cite/iso19142/util/WFSMessage.java:141-142 | different draws give different xmlns attribute names |
| WfsMessage.SetTypeName | src/main/java/org/opengis/cite/iso19142/util/WFSMessage.java:224-241 | elements other than Update and Delete are unchanged; Update and Delete get typeName "prefix:local", and a made-up prefix is declared on them |
| WfsMessage.SetTypeNameResolves | src/main/java/org/opengis/cite/iso19142/util/WFSMessage.java:235-240 | a made-up prefix resolves, from the action element, to the type's namespace |
| WfsMessage.NewResourceIdFilter | src/main/java/org/opengis/cite/iso19142/util/WFSMessage.java:251-257 | fes:Filter holding one fes:ResourceId whose rid is the identifier |
| WfsMessage.ResourceIdFilter | src/main/java/org/opengis/cite/iso19142/util/WFSMessage.java:430-436 | a Filter with one ResourceId per identifier, in order, each rid being that identifier |
| WfsMessage.AddResourceIdPredicate | src/main/java/org/opengis/cite/iso19142/util/WFSMessage.java:418-437 | no identifiers changes nothing; a request other than GetFeature(WithLock), or one without wfs:Query, is rejected unchanged; otherwise the filter is appended to the first wfs:Query, and these are the only outcomes |
| WfsMessage.FollowingSiblings | src/main/java/org/opengis/cite/iso19142/util/WFSMessage.java:281-288 | only gml:description, gml:identifier and gml:name have an ordering entry |
| WfsMessage.ScanStop | src/main/java/org/opengis/cite/iso19142/util/WFSMessage.java:290-303 | the insertion point is the first element child that is an application property or a following GML property; every element child before it is neither |
| WfsMessage.InsertGmlProperty | src/main/java/org/opengis/cite/iso19142/util/WFSMessage.java:269-310 | an existing property is replaced in place and keeps its prefix; a property without an ordering entry is ignored; otherwise it is inserted before the insertion point, and without one the call fails |
| WfsMessage.InsertionPlacement | src/main/java/org/opengis/cite/iso19142/util/WFSMessage.java:290-309 | the inserted property sits right before the insertion point, and every element before it is a GML property that may precede it |
| WfsMessage.InsertIdentifierExample | src/test/java/org/opengis/cite/iso19142/util/VerifyWFSMessage.java:161-172 | in a feature with gml:description, gml:name and an application property, a new gml:identifier goes before gml:name |
| WfsMessage.ContainsGetProtocolBinding | src/main/java/org/opengis/cite/iso19142/util/WFSMessage.java:448-461 | true exactly when some parameter is the GET binding; false for a null or empty array |
| XmlUtils.CreateElement | src/main/java/org/opengis/cite/iso19142/util/XMLUtils.java:283-300 | the node name is "prefix:local" for a non-empty prefix, else "local"; the element is new, without attributes or children |
| XmlUtils.ElementsInNamespaceMembers | src/main/java/org/opengis/cite/iso19142/util/XMLUtils.java:310-321 | a node is listed exactly when it is an element child in the namespace |
| XmlUtils.GetElementsByNamespaceURI | src/main/java/org/opengis/cite/iso19142/util/XMLUtils.java:310-321 | the element children in the namespace, in document order; an element child in no namespace raises a NullPointerException |
| XmlUtils.FirstStop | src/main/java/org/opengis/cite/iso19142/util/XMLUtils.java:333-341 | the loop stops at the first element child that is in no namespace or has the name; no element child before it does |
| XmlUtils.GetElementByNamespaceURIAndLocalPart | src/main/java/org/opengis/cite/iso19142/util/XMLUtils.java:332-343 | the first child with the namespace and local name, or null; the result is always a child with that name |
| XmlUtils.FoundIffPresent | src/main/java/org/opengis/cite/iso19142/util/XMLUtils.java:332-343 | with all element children qualified, a match is found exactly when one exists |
| XmlUtils.WriteNodeToString | src/main/java/org/opengis/cite/iso19142/util/XMLUtils.java:87-90 | a null node throws IllegalArgumentException; otherwise the serialization |
| XmlUtils.ResultToString | src/main/java/org/opengis/cite/iso19142/util/XMLUtils.java:116-119 | a null result throws IllegalArgumentException; otherwise its content |
| DataSampling.DataSampler.constructor | src/main/java/org/opengis/cite/iso19142/util/DataSampler.java:79-88 | the sampler starts with the feature-type table taken from the capabilities document, maxFeatures 25 and empty spatial and temporal extent caches |
| DataSampling.DataSampler.Create | src/main/java/org/opengis/cite/iso19142/util/DataSampler.java:79-83 | construction fails exactly when the document element is missing or is not named WFS_Capabilities; otherwise the new sampler holds the given table and the default limit |
| DataSampling.DataSampler.SetMaxFeatures | src/main/java/org/opengis/cite/iso19142/util/DataSampler.java:96-100 | a positive value replaces the limit, zero or a negative value leaves it unchanged; nothing else in the sampler changes |
| DataSampling.DataSampler.SelectRandomFeatureIdentifiers | src/main/java/org/opengis/cite/iso19142/util/DataSampler.java:112-138 | an unknown feature type throws; with no sample file on disk the result is empty; otherwise it is a set of identifiers taken from the sample with exactly min(numId, sample size) members (none when numId is not positive) |
| DataSampling.IndexOfType | src/main/java/org/opengis/cite/iso19142/util/DataSampler.java:113 | finds the table entry whose key is the feature type, and reports absence only when no key equals it |
| DataSampling.DataSampler.GetFeatureId | src/main/java/org/opengis/cite/iso19142/util/DataSampler.java:323-345 | looks only at the first instantiated entry whose name equality agrees with matchFeatureType: no such entry gives null; a missing file reference throws; an unreadable file gives null; an empty sample throws; otherwise the result is the first gml:id of the sample |
| DataSampling.FirstQualifying | src/main/java/org/opengis/cite/iso19142/util/DataSampler.java:325-329 | the index found qualifies (name test agrees with the flag and the type is instantiated) and no earlier entry qualifies |
| DataSampling.DataSampler.DeleteData | src/main/java/org/opengis/cite/iso19142/util/DataSampler.java:206-218 | the result is true exactly when every entry with a sample file on disk had its file deleted |
| DataSampling.SampleFileOf | src/main/java/org/opengis/cite/iso19142/util/DataSampler.java:373 | no file when the feature table has no entry for the type; otherwise the sample file, or its absence, that the type's entry records |
| DataSampling.SpatialExtentStep | src/main/java/org/opengis/cite/iso19142/util/DataSampler.java:359-400 | a cached envelope is returned and the cache is left alone; with no geometry properties the result is null and nothing is cached; otherwise a type without an entry or an entry without a sample file throws NullPointerException, a file not on disk yields a null envelope, and the envelope found is returned and recorded for the type |
| DataSampling.SpatialExtentCached | src/main/java/org/opengis/cite/iso19142/util/DataSampler.java:360-399 | once a non-null envelope has been computed for a type, a second request returns the same envelope whatever the data or the file, and leaves the cache unchanged |
| DataSampling.DataSampler.GetSpatialExtent | src/main/java/org/opengis/cite/iso19142/util/DataSampler.java:359-401 | the result and the new cache are those of the spatial cache step on the type's sample file, and a failure leaves the cache as it was; the feature table, the limit and the temporal cache do not change |
| DataSampling.TemporalExtentStep | src/main/java/org/opengis/cite/iso19142/util/DataSampler.java:416-452 | a cached period is returned unchanged; otherwise a type without an entry throws NullPointerException, an entry without a file throws IllegalArgumentException, a missing or unparsable file throws RuntimeException, and a parsed one yields the computed period, which is recorded under the (type, property) key |
| DataSampling.TemporalExtentCached | src/main/java/org/opengis/cite/iso19142/util/DataSampler.java:418-451 | once a non-null period is cached for a property, a second request returns it again whatever the file, without touching the cache |
| DataSampling.DataSampler.GetTemporalExtentOfProperty | src/main/java/org/opengis/cite/iso19142/util/DataSampler.java:416-453 | the result and the new temporal cache are those of the temporal cache step on the type's sample file, and a failure leaves the cache as it was; the other fields do not change |
| ComparisonOperators.LastSampled | src/main/java/org/opengis/cite/iso19142/basic/filter/ComparisonOperatorTests.java:507-530 | the index found is the last property with a non-empty value sample, and no property after it has one; None only when no property has values |
| ComparisonOperators.LastSampledIsLast | src/main/java/org/opengis/cite/iso19142/basic/filter/ComparisonOperatorTests.java:507-530 | a property with values and none after it is exactly the one selected |
| AppSchemaUtils.DatatypeName | src/main/java/org/opengis/cite/iso19142/util/AppSchemaUtils.java:217-256 | every built-in kind maps to one of the eight datatype names; the thirteen integer kinds, and only they, map to "integer"; any kind not listed maps to "string" |
| AppSchemaUtils.DatatypeNamesPreserved | src/main/java/org/opengis/cite/iso19142/util/AppSchemaUtils.java:218-253 | double, float, decimal, string, dateTime, date and boolean keep their own names |
| AppSchemaUtils.GetBuiltInDatatype | src/main/java/org/opengis/cite/iso19142/util/AppSchemaUtils.java:205-258 | the result is in the XML Schema namespace and named after the built-in kind of the simple type, or of the simple content of a complex type; a complex type without simple content fails, and only then |
| AppSchemaUtils.FilterMembers | src/main/java/org/opengis/cite/iso19142/util/AppSchemaUtils.java:103-110 | an element declaration stays after filtering exactly when it was present and passes the test |
| AppSchemaUtils.RemoveUnless | src/main/java/org/opengis/cite/iso19142/util/AppSchemaUtils.java:103-110 | removing the failing declarations through the iterator leaves the filtered list, order kept |
| AppSchemaUtils.GetNillableProperties | src/main/java/org/opengis/cite/iso19142/util/AppSchemaUtils.java:101-111 | the result is the properties in order, keeping a declaration exactly when it is nillable |
| AppSchemaUtils.GetSimpleFeatureProperties | src/main/java/org/opengis/cite/iso19142/util/AppSchemaUtils.java:136-156 | a property without a target namespace makes the call fail with a NullPointerException; otherwise a property is kept exactly when it is outside the GML namespace and has a simple type or simple content |
| AppSchemaUtils.RequiredTerms | src/main/java/org/opengis/cite/iso19142/util/AppSchemaUtils.java:171-176 | an element is required exactly when some particle with minOccurs above zero has it as its term |
| AppSchemaUtils.GetRequiredProperties | src/main/java/org/opengis/cite/iso19142/util/AppSchemaUtils.java:165-178 | the loop collects the required terms, in particle order |
| AppSchemaUtils.RemoveFirst | src/main/java/org/opengis/cite/iso19142/util/AppSchemaUtils.java:193 | List.remove drops one occurrence when the element is present and leaves the list alone when it is absent or null |
| AppSchemaUtils.RemoveFirstCount | src/main/java/org/opengis/cite/iso19142/util/AppSchemaUtils.java:193 | removal lowers the count of the removed declaration by one and leaves every other count as it was |
| AppSchemaUtils.RemoveDeprecatedGmlElements | src/main/java/org/opengis/cite/iso19142/util/AppSchemaUtils.java:191-196 | the list never grows |
| AppSchemaUtils.RemoveDeprecatedCounts | src/main/java/org/opengis/cite/iso19142/util/AppSchemaUtils.java:191-196 | gml:location and gml:metaDataProperty each lose one occurrence if present; every other declaration keeps its count |
| ValidationUtils.Pieces | src/main/java/org/opengis/cite/iso19142/util/ValidationUtils.java:137 | splitting at each whitespace character yields at least one piece, no piece holds whitespace, and a string without whitespace is its own single piece |
| ValidationUtils.DropTrailingEmpty | src/main/java/org/opengis/cite/iso19142/util/ValidationUtils.java:137 | String.split drops trailing empty pieces and only those: the result is a prefix, ends in a non-empty piece, and every piece dropped is empty |
| ValidationUtils.JavaSplitWhitespace | src/main/java/org/opengis/cite/iso19142/util/ValidationUtils.java:137 | split("\\s") yields whitespace-free tokens, and a string without whitespace is returned whole |
| ValidationUtils.ListItems | src/main/java/org/opengis/cite/iso19142/util/ValidationUtils.java:137-141 | the xs:list reading of xsi:schemaLocation yields non-empty, whitespace-free items |
| ValidationUtils.ListItemsOfSpaced | src/main/java/org/opengis/cite/iso19142/util/ValidationUtils.java:137-141 | items written out with any number of spaces between them are read back exactly |
| ValidationUtils.FirstPair | src/main/java/org/opengis/cite/iso19142/util/ValidationUtils.java:141-142 | the pair found starts at an even index holding the namespace, and no earlier even index holds it |
| ValidationUtils.FirstPairFrom | src/main/java/org/opengis/cite/iso19142/util/ValidationUtils.java:141-142 | the first even index holding the namespace is the one the scan stops at |
| ValidationUtils.ResolveRelativeUri | src/main/java/org/opengis/cite/iso19142/util/URIUtils.java:124-131 | resolution fails exactly when the base URI is not absolute, and otherwise is the given resolver's result |
| ValidationUtils.ResolveLocation | src/main/java/org/opengis/cite/iso19142/util/ValidationUtils.java:143-156 | an absolute location, or no system id, is taken as it is; otherwise it is resolved against the system id, and against the base URI instead when that gives a file URI that does not exist |
| ValidationUtils.ScanPairs | src/main/java/org/opengis/cite/iso19142/util/ValidationUtils.java:139-160 | the loop over the pairs returns the location resolved for the first pair naming the document's namespace, or null when none does |
| ValidationUtils.ExtractSchemaReferenceAsWritten | src/main/java/org/opengis/cite/iso19142/util/ValidationUtils.java:125-161 | with no xsi:schemaLocation the result is null; otherwise the pairs are read from split("\\s") tokens |
| ValidationUtils.ExtractSchemaReference | src/main/java/org/opengis/cite/iso19142/util/ValidationUtils.java:125-161 | as above, with the attribute read as a whitespace-separated list |
| ValidationUtils.PairsFound | src/main/java/org/opengis/cite/iso19142/util/ValidationUtils.java:139-160 | for any spacing, when the k-th pair is the first to name the namespace and its location is absolute, that location is returned |
| ValidationUtils.DoubleSpaceMisreadAsWritten | src/main/java/org/opengis/cite/iso19142/util/ValidationUtils.java:137-142 | a WFS schemaLocation written with two spaces splits into namespace, empty token, location, and the returned location is the empty string |
| ValidationUtils.DoubleSpaceReadAsList | src/main/java/org/opengis/cite/iso19142/util/ValidationUtils.java:137-142 | the same attribute read as a list yields the WFS schema URL |
| ValidationUtils.SchemaUrlIsAbsolute | src/main/java/org/opengis/cite/iso19142/util/ValidationUtils.java:143 | the WFS schema URL has a scheme, so it is used without resolution |
| Randomizer.WordCount | src/main/java/org/opengis/cite/iso19142/util/Randomizer.java:23-25 | a count outside 1..10 becomes 1; a count inside is kept |
| Randomizer.GenerateWords | src/main/java/org/opengis/cite/iso19142/util/Randomizer.java:22-40 | the result is WordCount(numWords) words of ten ASCII letters (codes 65..122 without 91..96) joined by single spaces, 11 characters per word less one, and split("\\s") gives back that many words |
| Randomizer.JoinedWordsLength | src/main/java/org/opengis/cite/iso19142/util/Randomizer.java:26-39 | ten-letter words joined by single spaces, with the trailing space trimmed, have length 11 n - 1 |
| Randomizer.JoinedWordsSplit | src/test/java/org/opengis/cite/iso19142/util/VerifyRandomizer.java:9-26 | splitting the joined words at whitespace recovers the words themselves |
| ValidationUtils.DoubleSpacedPieces | src/main/java/org/opengis/cite/iso19142/util/ValidationUtils.java:137 | a namespace and a location separated by two spaces split into three tokens, the middle one empty |
| Randomizer.PiecesOfJoin | src/main/java/org/opengis/cite/iso19142/util/Randomizer.java:37-39 | the words joined by single spaces split at each space into exactly the words |
| EtsAssert.SortInPlace | src/main/java/org/opengis/cite/iso19142/ETSAssert.java:301 | Arrays.sort leaves the expected codes sorted and a permutation of what they were |
| EtsAssert.BinarySearch | src/main/java/org/opengis/cite/iso19142/ETSAssert.java:302 | on a sorted array a non-negative result is an index holding the key; a negative result r means the key is absent and -r-1 is its insertion point (all smaller entries before it, all larger from it on) |
| EtsAssert.AssertStatusCode | src/main/java/org/opengis/cite/iso19142/ETSAssert.java:300-305 | the assertion passes exactly when the actual code is one of the expected codes, otherwise it fails with an AssertionError; the array is left sorted and a permutation of its old contents |
| EtsAssert.AssertExceptionReport | src/main/java/org/opengis/cite/iso19142/ETSAssert.java:369-384 | no ows:Exception with the code fails; with one, a null or empty locator passes, and otherwise the first exception's locator attribute must contain the locator ignoring case |
| EtsAssert.LocatorIgnoresCase | src/main/java/org/opengis/cite/iso19142/ETSAssert.java:378-383 | upper-casing either the expected locator or the attribute value does not change the outcome |
| EtsAssert.AssertFeatureAvailability | src/main/java/org/opengis/cite/iso19142/ETSAssert.java:224-231 | the assertion passes exactly when a feature was found if and only if it is expected to be available |
| EtsAssert.AssertXPath | src/main/java/org/opengis/cite/iso19142/ETSAssert.java:96-99 | a null context node throws NullPointerException; otherwise the assertion passes exactly when the expression holds |
| FeatureTypes.FeatureTypeInfo.constructor | src/main/java/org/opengis/cite/iso19142/FeatureTypeInfo.java:36-38 | a new record has no type name, is not instantiated, has no sample data and an empty CRS list |
| FeatureTypes.FeatureTypeInfo.AddCrsIdentifiers | src/main/java/org/opengis/cite/iso19142/FeatureTypeInfo.java:58-60 | the identifiers are appended, in order, to the CRS list; the other fields do not change |
| FeatureTypes.FeatureTypeInfo.SetTypeName | src/main/java/org/opengis/cite/iso19142/FeatureTypeInfo.java:77-79 | only the type name changes |
| FeatureTypes.FeatureTypeInfo.SetInstantiated | src/main/java/org/opengis/cite/iso19142/FeatureTypeInfo.java:99-101 | only the instantiated flag changes |
| FeatureTypes.FeatureTypeInfo.SetSampleData | src/main/java/org/opengis/cite/iso19142/FeatureTypeInfo.java:178-180 | only the sample-data reference changes |
| FeatureTypes.FeatureTypeInfo.DefaultCrs | src/main/java/org/opengis/cite/iso19142/FeatureTypeInfo.java:108-110 | the default CRS is the first supported identifier; an empty list throws IndexOutOfBoundsException |
| FeatureTypes.DefaultCrsAfterAdd | src/main/java/org/opengis/cite/iso19142/FeatureTypeInfo.java:108-110 | a new record (lines 36-38) given a non-empty list of identifiers (lines 58-60) has the first of them as its default; given none, asking for the default throws |
| ProtocolBindings.FromConstraintName | src/main/java/org/opengis/cite/iso19142/ProtocolBinding.java:23-41 | a constraint name found maps back to a binding with that name, and a name not found belongs to no binding |
| ProtocolBindings.ConstraintNameRoundTrip | src/main/java/org/opengis/cite/iso19142/ProtocolBinding.java:25-31 | GET, POST, SOAP and ANY are advertised by KVPEncoding, XMLEncoding, SOAPEncoding and the empty name, and each is recovered from its name |
| ProtocolBindings.ConstraintNamesDistinct | src/main/java/org/opengis/cite/iso19142/ProtocolBinding.java:25-31 | no two bindings share a constraint name |
| BaseFixtures.ValueRefPrefix | src/main/java/org/opengis/cite/iso19142/basic/filter/ComparisonOperatorTests.java:468-469 | the value reference uses the property's own prefix, else "tns"; it is never empty |
| BaseFixtures.ValueReference | src/main/java/org/opengis/cite/iso19142/basic/filter/ComparisonOperatorTests.java:465-475 | a fes:ValueReference whose text is prefix:local, declaring the prefix for the property's namespace exactly when the request does not already bind it |
| BaseFixtures.Product | src/main/java/org/opengis/cite/iso19142/BaseFixture.java:225-234 | the product has one pair per binding and type |
| BaseFixtures.ProductIndex | src/main/java/org/opengis/cite/iso19142/BaseFixture.java:228-232 | pair i*|types|+j is (binding i, type j): bindings outermost, types innermost, in order |
| BaseFixtures.BaseFixture.AllProtocolsAndFeatureTypes | src/main/java/org/opengis/cite/iso19142/BaseFixture.java:225-234 | the data provider yields the binding-by-type product, and throws when bindings or types are not initialised |
| BaseFixtures.Instantiated | src/main/java/org/opengis/cite/iso19142/BaseFixture.java:205-214 | a type is kept exactly when it is listed and instantiated, in list order |
| BaseFixtures.BaseFixture.GetInstantiatedFeatureTypes | src/main/java/org/opengis/cite/iso19142/BaseFixture.java:205-214 | the loop yields the instantiated types in list order; a type without information, or no type list, throws |
| BaseFixtures.InstantiatedNames | src/main/java/org/opengis/cite/iso19142/BaseFixture.java:261-265 | a type name is listed exactly when some feature-type record with that name is instantiated |
| BaseFixtures.BindingAndAvailFeatureTypeProductSet | src/main/java/org/opengis/cite/iso19142/BaseFixture.java:249-269 | without service metadata the provider throws NullPointerException; otherwise it pairs every global binding with each instantiated type only, bindings outermost |
| BaseFixtures.BaseFixture.constructor | src/main/java/org/opengis/cite/iso19142/BaseFixture.java:40-70 | a new fixture has no bindings, no feature types and no feature information |
| BaseFixtures.BaseFixture.InitBaseFixture | src/main/java/org/opengis/cite/iso19142/BaseFixture.java:92-107 | when the feature-type list is already non-empty nothing changes; otherwise the global bindings, the feature types and the feature information are installed |
| BaseFixtures.TruncatedResponse | src/main/java/org/opengis/cite/iso19142/BaseFixture.java:149-152 | the response attribute is the first min(4096, length) characters of the response, 4096 being the limit declared at line 45 |
| BaseFixtures.BaseFixture.AddAttributesOnTestFailure | src/main/java/org/opengis/cite/iso19142/BaseFixture.java:133-155 | nothing is added unless the test failed; on failure a request attribute is added when there was a request (its KVP form when a GET binding is among the parameters, else its XML) and a truncated response attribute when there was a response |
| TestNgController.EntryElements | src/main/java/org/opengis/cite/iso19142/TestNGController.java:158 | the entries are exactly the descendant elements named "entry" |
| TestNgController.EntryArgs | src/main/java/org/opengis/cite/iso19142/TestNGController.java:163-166 | each entry gives its key attribute and its trimmed text, in order |
| TestNgController.CollectArgs | src/main/java/org/opengis/cite/iso19142/TestNGController.java:162-166 | the loop builds the argument map of the entries |
| TestNgController.ArgsKeys | src/main/java/org/opengis/cite/iso19142/TestNGController.java:162-166 | an argument is present exactly when some entry has that key |
| TestNgController.ArgsLastWins | src/main/java/org/opengis/cite/iso19142/TestNGController.java:165 | when a key is repeated the last entry's value is the one kept |
| TestNgController.ArgsAreTrimmed | src/main/java/org/opengis/cite/iso19142/TestNGController.java:165 | every argument value is trimmed |
| TestNgController.ValidateTestRunArgs | src/main/java/org/opengis/cite/iso19142/TestNGController.java:154-171 | a missing document or a document element not named "properties", no entries, or neither an iut nor a wfs argument is rejected with IllegalArgumentException; otherwise the arguments are accepted |
| ComparisonOperators.IntValue | src/main/java/org/opengis/cite/iso19142/basic/filter/ComparisonOperatorTests.java:557 | Double.intValue rounds toward zero and saturates at the 32-bit bounds: the result lies within the int range, never moves away from zero, and is within one of any in-range value |
| ComparisonOperators.IntValueMonotone | src/main/java/org/opengis/cite/iso19142/basic/filter/ComparisonOperatorTests.java:555-560 | truncation keeps the order of values, so the truncated minimum is still the least |
| ComparisonOperators.IntValueOfInt | src/main/java/org/opengis/cite/iso19142/basic/filter/ComparisonOperatorTests.java:557-558 | a whole number within the int range is its own intValue |
| ComparisonOperators.RangeValueMonotone | src/main/java/org/opengis/cite/iso19142/basic/filter/ComparisonOperatorTests.java:553-560 | the value written into the range (truncated for integer, nonPositiveInteger, nonNegativeInteger, long and int, unchanged otherwise) keeps the order of values |
| ComparisonOperators.MinMaxBounds | src/main/java/org/opengis/cite/iso19142/basic/filter/ComparisonOperatorTests.java:561 | the least and the greatest sample are samples and bound every sample |
| ComparisonOperators.SortedEnds | src/main/java/org/opengis/cite/iso19142/basic/filter/ComparisonOperatorTests.java:550-561 | after sorting, the first value is the least and the last the greatest of the original values |
| ComparisonOperators.SortValues | src/main/java/org/opengis/cite/iso19142/basic/filter/ComparisonOperatorTests.java:582-604 | an empty array is left alone; otherwise the values end sorted ascending and a permutation of what they were |
| ComparisonOperators.CalculateRange | src/main/java/org/opengis/cite/iso19142/basic/filter/ComparisonOperatorTests.java:549-562 | an empty array fails with an index error, and only then; otherwise the range is (least, greatest) of the sampled values, each truncated to an int for the integer datatypes, and the array is left sorted, holding a sorted permutation of the old values, each truncated for the integer datatypes |
| ComparisonOperators.TruncateToInts | src/main/java/org/opengis/cite/iso19142/basic/filter/ComparisonOperatorTests.java:555-558 | each array element becomes its Double.intValue: rounded toward zero and saturated at the 32-bit bounds |
| ComparisonOperators.RangeValuesSorted | src/main/java/org/opengis/cite/iso19142/basic/filter/ComparisonOperatorTests.java:555-558 | truncating every element of a sorted array keeps it sorted, since intValue is monotone |
| ComparisonOperators.CalculateIntegerRangeExample | src/test/java/org/opengis/cite/iso19142/basic/filter/VerifyComparisonOperatorTests.java:152-158 | the xsd:integer range of 9, -2, 7 is (-2, 9) |
| ComparisonOperators.CandidateProperties | src/main/java/org/opengis/cite/iso19142/basic/filter/ComparisonOperatorTests.java:498-506 | the properties searched are those of the first data type that has any, or none when no data type has any |
| ComparisonOperators.FindFeaturePropertyValue | src/main/java/org/opengis/cite/iso19142/basic/filter/ComparisonOperatorTests.java:496-536 | with no data types the search throws; otherwise the result is empty when no candidate has sampled values, and else is the last such property with the range of its values under its built-in datatype (a complex type without simple content throws) |
| ComparisonOperators.LiteralElement | src/main/java/org/opengis/cite/iso19142/basic/filter/ComparisonOperatorTests.java:455-464 | fes:Literal holds the literal's text, or the adopted element of a complex literal |
| ComparisonOperators.ComparisonFilterShape | src/main/java/org/opengis/cite/iso19142/basic/filter/ComparisonOperatorTests.java:447-475 | the filter holds one predicate named by the operator, with the literal first and the value reference second, matchCase written as "true"/"false" and matchAction defaulting to "Any" when absent or empty |
| ComparisonOperators.AddComparisonPredicate | src/main/java/org/opengis/cite/iso19142/basic/filter/ComparisonOperatorTests.java:434-476 | a request that is not GetFeature, or a missing property name, is rejected with IllegalArgumentException and left unchanged; otherwise the filter is appended to the first wfs:Query, and the call succeeds exactly when there is one |
| PropertyIsLike.LikePattern | src/main/java/org/opengis/cite/iso19142/basic/filter/PropertyIsLikeOperatorTests.java:232-234 | the pattern is a wild card followed by the value from its third character on (just the wild card for values shorter than two) |
| PropertyIsLike.LikePatternExamples | src/test/java/org/opengis/cite/iso19142/basic/filter/VerifyPropertyIsLikeOperatorTests.java:89-114 | "Haida Gwaii" gives "*ida Gwaii" and "CA-BC" gives "*-BC" |
| PropertyIsLike.PatternMatchesValue | src/main/java/org/opengis/cite/iso19142/basic/filter/PropertyIsLikeOperatorTests.java:215-243 | the pattern made from a value matches that value under the wild card, single-character and escape rules the predicate declares (when the kept tail has no escape character) |
| PropertyIsLike.LiteralMatchesItself | src/main/java/org/opengis/cite/iso19142/basic/filter/PropertyIsLikeOperatorTests.java:176-178 | text without the escape character matches itself as a pattern |
| PropertyIsLike.GenerateMatchingStringPattern | src/main/java/org/opengis/cite/iso19142/basic/filter/PropertyIsLikeOperatorTests.java:215-243 | the result is empty when no string property has sampled values; otherwise it is the last such property with the pattern made from its first value |
| PropertyIsLike.LikePredicate | src/main/java/org/opengis/cite/iso19142/basic/filter/PropertyIsLikeOperatorTests.java:174-199 | the predicate is a fes:PropertyIsLike element |
| PropertyIsLike.LikeFilterShape | src/main/java/org/opengis/cite/iso19142/basic/filter/PropertyIsLikeOperatorTests.java:172-185 | the filter holds exactly one child: the predicate itself, or fes:Not holding only the predicate when negated |
| PropertyIsLike.LikePredicateShape | src/main/java/org/opengis/cite/iso19142/basic/filter/PropertyIsLikeOperatorTests.java:174-199 | the predicate declares wildCard "*", singleChar "?" and escapeChar `\`, and holds the value reference, then a literal whose text is the pattern |
| PropertyIsLike.AddPropertyIsLikePredicate | src/main/java/org/opengis/cite/iso19142/basic/filter/PropertyIsLikeOperatorTests.java:160-200 | a request that is not GetFeature, or a missing property name, is rejected with IllegalArgumentException and left unchanged; otherwise the filter is appended to the first wfs:Query, and the call succeeds exactly when there is one |
| PropertyIsLike.WildcardsToRegex | src/main/java/org/opengis/cite/iso19142/basic/filter/PropertyIsLikeOperatorTests.java:80-82 | the regular expression is never shorter than the pattern and never starts with a bare wild card |
| PropertyIsLike.RegexRoundTrip | src/main/java/org/opengis/cite/iso19142/basic/filter/PropertyIsLikeOperatorTests.java:80-82 | replacing each "*" by ".*" loses nothing: turning ".*" back into "*" recovers the pattern |
| ResourceIds.DateTimeExamples | src/main/java/org/opengis/cite/iso19142/basic/filter/ResourceId.java:42 | the pattern yyyy-MM-dd'T'HH:mm:ss[.SSS][XXX] accepts a date-time with an offset |
| ResourceIds.BareDateRefused | src/main/java/org/opengis/cite/iso19142/basic/filter/ResourceId.java:42 | the same pattern rejects a bare date |
| ResourceIds.EndOfDayAccepted | src/main/java/org/opengis/cite/iso19142/basic/filter/ResourceId.java:42 | smart resolution accepts the end of day 24:00:00 |
| ResourceIds.ClampedDayAccepted | src/main/java/org/opengis/cite/iso19142/basic/filter/ResourceId.java:42 | a day past the end of its month (February 30) is clamped, not refused |
| ResourceIds.LargestOffsetAccepted | src/main/java/org/opengis/cite/iso19142/basic/filter/ResourceId.java:42 | the offset +18:00 is accepted |
| ResourceIds.PastEndOfDayRefused | src/main/java/org/opengis/cite/iso19142/basic/filter/ResourceId.java:42 | hour 24 with a non-zero second is refused |
| ResourceIds.YearZeroRefused | src/main/java/org/opengis/cite/iso19142/basic/filter/ResourceId.java:42 | the year 0000 is refused |
| ResourceIds.OffsetBeyondEighteenRefused | src/main/java/org/opengis/cite/iso19142/basic/filter/ResourceId.java:42 | an offset beyond 18:00 (+18:01) is refused |
| ResourceIds.ResourceId.constructor | src/main/java/org/opengis/cite/iso19142/basic/filter/ResourceId.java:39-43 | a new identifier holds its rid and no previousRid, version, start or end |
| ResourceIds.ResourceId.SetPreviousRid | src/main/java/org/opengis/cite/iso19142/basic/filter/ResourceId.java:70-72 | only previousRid changes |
| ResourceIds.ResourceId.SetVersion | src/main/java/org/opengis/cite/iso19142/basic/filter/ResourceId.java:97-99 | only version changes |
| ResourceIds.ResourceId.SetStart | src/main/java/org/opengis/cite/iso19142/basic/filter/ResourceId.java:113-119 | start takes the value only when it parses as a date-time; otherwise it, and every other field, keeps its value |
| ResourceIds.ResourceId.SetEnd | src/main/java/org/opengis/cite/iso19142/basic/filter/ResourceId.java:132-138 | end takes the value only when it parses as a date-time; otherwise it, and every other field, keeps its value |
| ResourceIds.OptionalAttr | src/main/java/org/opengis/cite/iso19142/basic/filter/ResourceId.java:160-171 | an optional attribute is present exactly when its value is, and names nothing else |
| ResourceIds.ResourceIdAttrs | src/main/java/org/opengis/cite/iso19142/basic/filter/ResourceId.java:159-171 | rid is always written, and previousRid, version, startDate and endDate are written exactly when set, each with its own value |
| ResourceIds.ResourceId.ToElement | src/main/java/org/opengis/cite/iso19142/basic/filter/ResourceId.java:157-173 | fes:ResourceId with no children whose attributes read back as rid, previousRid, version, startDate and endDate exactly as held |
| ResourceIds.ValidTemporalIntervalExample | src/test/java/org/opengis/cite/iso19142/basic/filter/VerifyResourceId.java:14-20 | setting a valid end and start leaves the start as given and no previousRid |
| ResourceIds.InvalidTimestampsExample | src/test/java/org/opengis/cite/iso19142/basic/filter/VerifyResourceId.java:22-28 | bare dates are not accepted as start |
| UpdateValues.FirstUnused | src/main/java/org/opengis/cite/iso19142/transaction/Update.java:237-242 | the enumeration value chosen is not among the known values and every earlier one is; none is chosen only when all are known |
| UpdateValues.FirstUnusedIsFirst | src/main/java/org/opengis/cite/iso19142/transaction/Update.java:238-241 | the first enumeration value not yet used is the one returned |
| UpdateValues.EnumerationValueIsNew | src/main/java/org/opengis/cite/iso19142/transaction/Update.java:237-242 | when some enumeration value is unused, the value returned is new |
| UpdateValues.EnumerationExample | src/test/java/org/opengis/cite/iso19142/transaction/VerifyUpdate.java:67-78 | with CA-AB known, the enumeration CA-AB, CA-BC yields CA-BC |
| UpdateValues.ValueKind | src/main/java/org/opengis/cite/iso19142/transaction/Update.java:228-235 | the built-in kind is that of the simple type or of the simple content, and a complex type without simple content has none |
| UpdateValues.ParseInt | src/main/java/org/opengis/cite/iso19142/transaction/Update.java:269 | Integer.parseInt accepts only values within the 32-bit range |
| UpdateValues.IntRoundTrip | src/main/java/org/opengis/cite/iso19142/transaction/Update.java:269-270 | every int written by Integer.toString parses back to itself |
| UpdateValues.Increment | src/main/java/org/opengis/cite/iso19142/transaction/Update.java:270 | intVal + 1 adds one, wrapping from 2147483647 to -2147483648 |
| UpdateValues.MovePointLeftDividesByTen | src/main/java/org/opengis/cite/iso19142/transaction/Update.java:266 | movePointLeft(1) divides the decimal's value by ten, keeping the unscaled digits |
| UpdateValues.DecimalRoundTrip | src/main/java/org/opengis/cite/iso19142/transaction/Update.java:265-266 | BigDecimal.toString of a positive-scale decimal in plain notation parses back to the same unscaled value and scale |
| UpdateValues.PlainRoundTrip | src/main/java/org/opengis/cite/iso19142/transaction/Update.java:265-266 | a decimal written as digits, a point and its scale's worth of fraction digits parses back to itself |
| UpdateValues.KindValue | src/main/java/org/opengis/cite/iso19142/transaction/Update.java:244-283 | string gives TEST_VALUE, anyURI http://example.org/test, dateTime and date come from the clock; float, double, decimal, integer and boolean need a known value (IndexOutOfBounds otherwise); a boolean is negated ("true" or "1" give "false"); an integer is incremented with wrap-around and written in decimal, and the text parses back to the incremented value (not a number throws); a decimal has its point moved left one place; any other kind gives UNSUPPORTED_DATATYPE |
| UpdateValues.NewPropertyValue | src/main/java/org/opengis/cite/iso19142/transaction/Update.java:227-284 | a complex type without simple content throws; otherwise the first unused enumeration value wins, and without one the value is that of the built-in kind |
| ResourceIds.EndExample | src/test/java/org/opengis/cite/iso19142/basic/filter/VerifyResourceId.java:16 | the end date-time of the valid interval is accepted |
| LockFeatureTests.AvailableTypes | src/main/java/org/opengis/cite/iso19142/locking/LockFeatureTests.java:271-276 | the available types are exactly the instantiated records of the table, never more than the table holds |
| LockFeatureTests.SelectRandomFeatureType | src/main/java/org/opengis/cite/iso19142/locking/LockFeatureTests.java:269-283 | null when no type is instantiated; otherwise the name of one of the instantiated types (which one is drawn at random) |
| LockFeatureTests.SelectionFailsIffNoneAvailable | src/main/java/org/opengis/cite/iso19142/locking/LockFeatureTests.java:277-279 | there is nothing to choose from exactly when no type is instantiated |
| LockFeatureTests.FetchRandomFeatureIdentifier | src/main/java/org/opengis/cite/iso19142/locking/LockFeatureTests.java:240-257 | the map is empty when no type is instantiated and holds at most one entry, mapping a gml:id of a feature of the type to an instantiated type; when every instantiated type is named and has features, exactly one entry is returned; when none has any, the random draw throws IllegalArgumentException, and it throws only when the drawn type has none; an empty map otherwise means the drawn type had no name |
| LockFeatureTests.FetchWithOneInstance | src/main/java/org/opengis/cite/iso19142/locking/LockFeatureTests.java:243-253 | one instantiated type whose response holds one feature gives the map from that feature's gml:id to the type |
| LockFeatureTests.FetchFromEmptyResponse | src/main/java/org/opengis/cite/iso19142/locking/LockFeatureTests.java:246-250 | one instantiated type whose response holds no feature makes nextInt(0) throw IllegalArgumentException |
| LockFeatureTests.SelectOnlyAvailableType | src/test/java/org/opengis/cite/iso19142/locking/VerifyLockFeatureTests.java:48-59 | with one instantiated type, that type is chosen |
| LockFeatureTests.FetchWithoutInstances | src/test/java/org/opengis/cite/iso19142/locking/VerifyLockFeatureTests.java:61-72 | with no instantiated type the identifier map is empty |
| LockingFixtures.ReleaseRequest | src/main/java/org/opengis/cite/iso19142/locking/LockingFixture.java:65-68 | the release request is the Transaction entity with releaseAction and lockId set |
| LockingFixtures.ReleaseRequestAttributes | src/main/java/org/opengis/cite/iso19142/locking/LockingFixture.java:66-68 | the request keeps the Transaction element's name and content, has releaseAction ALL and the given lockId, and every other attribute as it was |
| LockingFixtures.SetAttributeTwice | src/main/java/org/opengis/cite/iso19142/locking/LockingFixture.java:66-68 | setting lockId again replaces the previous lock's value, so each request carries only its own lock |
| LockingFixtures.LockingFixture.constructor | src/main/java/org/opengis/cite/iso19142/locking/LockingFixture.java:29-37 | a new fixture holds no locks |
| LockingFixtures.LockingFixture.AddLock | src/main/java/org/opengis/cite/iso19142/locking/LockFeatureTests.java:134 | the lock identifier is appended to the list of locks |
| LockingFixtures.ReleaseRequests | src/main/java/org/opengis/cite/iso19142/locking/LockingFixture.java:67-74 | one release request per lock |
| LockingFixtures.ReleaseRequestsIndex | src/main/java/org/opengis/cite/iso19142/locking/LockingFixture.java:67-69 | the i-th request releases the i-th lock |
| LockingFixtures.RefusedExactly | src/main/java/org/opengis/cite/iso19142/locking/LockingFixture.java:67-73 | a lock id is reported as not released exactly when the service answered the release request of a lock with that id with a status other than OK |
| LockingFixtures.NoneRefusedWhenAllOk | src/main/java/org/opengis/cite/iso19142/locking/LockingFixture.java:70-73 | when every release request is answered OK, no lock is reported |
| LockingFixtures.ReleaseEntityStep | src/main/java/org/opengis/cite/iso19142/locking/LockingFixture.java:66-68 | the one Transaction entity the loop reuses, once given the next lockId, is exactly that lock's release request |
| LockingFixtures.SubmitReleases | src/main/java/org/opengis/cite/iso19142/locking/LockingFixture.java:67-74 | the loop submits one release request per lock, in order, and collects the locks whose request was not answered OK |
| LockingFixtures.LockingFixture.ReleaseAllLocks | src/main/java/org/opengis/cite/iso19142/locking/LockingFixture.java:60-76 | every lock held is released by its own request and the list of locks ends empty; with no locks nothing is submitted |
| LockingFixtures.ReleaseTwice | src/main/java/org/opengis/cite/iso19142/locking/LockingFixture.java:61-75 | a second release right after the first submits nothing |
| JoinQueryUtils.EmptyQuery | src/main/java/org/opengis/cite/iso19142/joins/JoinQueryUtils.java:39 | the new query element is wfs:Query with prefix wfs |
| JoinQueryUtils.TypePrefixAt | src/main/java/org/opengis/cite/iso19142/joins/JoinQueryUtils.java:45-47 | the prefix for a feature type (one in scope at the query, else a made-up "ns" and a number) is never empty |
| JoinQueryUtils.DeclareType | src/main/java/org/opengis/cite/iso19142/joins/JoinQueryUtils.java:45-50 | declaring a type's namespace keeps the query's name and children |
| JoinQueryUtils.DeclareUnbound | src/main/java/org/opengis/cite/iso19142/joins/JoinQueryUtils.java:46-49 | after declaring an unbound namespace under a made-up prefix, the namespace is bound to that prefix |
| JoinQueryUtils.DeclarationKept | src/main/java/org/opengis/cite/iso19142/joins/JoinQueryUtils.java:48-49 | declaring another namespace under a different prefix keeps an existing binding |
| JoinQueryUtils.TypePrefixInScope | src/main/java/org/opengis/cite/iso19142/joins/JoinQueryUtils.java:45-50 | after the step, the prefix recorded for the type is the one lookupPrefix finds for its namespace from the query |
| JoinQueryUtils.DeclareTypes | src/main/java/org/opengis/cite/iso19142/joins/JoinQueryUtils.java:41-52 | the loop over the properties yields a wfs:Query with no children and one typeNames entry per property |
| JoinQueryUtils.DeclareTypesStep | src/main/java/org/opengis/cite/iso19142/joins/JoinQueryUtils.java:42-52 | each step declares the next type's namespace if needed and appends "prefix:Type" |
| JoinQueryUtils.TypeNamesLoop | src/main/java/org/opengis/cite/iso19142/joins/JoinQueryUtils.java:41-52 | the loop's query and its space-terminated typeNames buffer are those of the declaration fold |
| JoinQueryUtils.JoinTypeNames | src/main/java/org/opengis/cite/iso19142/joins/JoinQueryUtils.java:53 | the trimmed typeNames attribute is the two entries separated by one space |
| JoinQueryUtils.JoinValueReference | src/main/java/org/opengis/cite/iso19142/joins/JoinQueryUtils.java:67-84 | a fes:ValueReference whose text is typePrefix:Type/propPrefix:prop, declaring a made-up "ns-" prefix exactly when the property's namespace is not in scope |
| JoinQueryUtils.PropertyPrefixResolves | src/main/java/org/opengis/cite/iso19142/joins/JoinQueryUtils.java:72-76 | when no prefix is in scope for the property's namespace, the made-up "ns-" prefix declared on the value reference resolves, from it, to that namespace |
| JoinQueryUtils.DeclaredTypesWellFormed | src/main/java/org/opengis/cite/iso19142/joins/JoinQueryUtils.java:42-52 | the type step's xmlns declarations on the query never share a name and never bind the prefix wfs |
| JoinQueryUtils.PropertyPrefixOnQueryResolves | src/main/java/org/opengis/cite/iso19142/joins/JoinQueryUtils.java:71-72 | when the property's namespace is bound on the query (its wfs prefix or a type declaration), the prefix lookupPrefix finds from the predicate resolves, from the value reference, back to the property's namespace |
| JoinQueryUtils.SpatialJoinQuery | src/main/java/org/opengis/cite/iso19142/joins/JoinQueryUtils.java:38-59 | the built query is a wfs:Query element |
| JoinQueryUtils.JoinQueryShape | src/main/java/org/opengis/cite/iso19142/joins/JoinQueryUtils.java:54-59 | the query holds one fes:Filter holding one predicate named by the operator, with two fes:ValueReference children for the two properties in order |
| JoinQueryUtils.PredicateLookup | src/main/java/org/opengis/cite/iso19142/joins/JoinQueryUtils.java:72-78 | looking up any namespace from the predicate finds what it finds from the query, since the predicate and the filter bind nothing |
| JoinQueryUtils.TypeNamesKeepsLookup | src/main/java/org/opengis/cite/iso19142/joins/JoinQueryUtils.java:53 | setting typeNames leaves every prefix lookup from the query as it was |
| JoinQueryUtils.TypeNamesAttrDeclaresNothing | src/main/java/org/opengis/cite/iso19142/joins/JoinQueryUtils.java:53 | the typeNames attribute declares no prefix |
| JoinQueryUtils.DeclareTypesEntry | src/main/java/org/opengis/cite/iso19142/joins/JoinQueryUtils.java:51 | the k-th typeNames entry is the prefix chosen at step k and the k-th type's local name |
| JoinQueryUtils.TypeNamesPrefixInScope | src/main/java/org/opengis/cite/iso19142/joins/JoinQueryUtils.java:45-50 | when the two made-up prefixes differ, each type's prefix in typeNames is still bound to its namespace on the finished query |
| JoinQueryUtils.ValueRefTypePrefixMatchesTypeNames | src/main/java/org/opengis/cite/iso19142/joins/JoinQueryUtils.java:51-80 | the type prefix written into each value reference is the prefix used for that type in typeNames |
| JoinQueryUtils.AppendSpatialJoinQuery | src/main/java/org/opengis/cite/iso19142/joins/JoinQueryUtils.java:27-60 | a request other than GetFeature is refused with IllegalArgumentException, a null property list with NullPointerException and a list of other than two properties with IllegalArgumentException, each leaving the request unchanged; otherwise the join query is appended to the document element |
| DescribeFeatureTypeTests.RemoveChildAt | src/main/java/org/opengis/cite/iso19142/simple/DescribeFeatureTypeTests.java:80 | removeChild(item(i)) drops the i-th child and shifts the later ones down; nothing else changes |
| DescribeFeatureTypeTests.OddPositions | src/main/java/org/opengis/cite/iso19142/simple/DescribeFeatureTypeTests.java:79-81 | what the as-written loop leaves: the children at odd original positions, half of them rounded down |
| DescribeFeatureTypeTests.RemoveAtEachIndex | src/main/java/org/opengis/cite/iso19142/simple/DescribeFeatureTypeTests.java:79-81 | removing at index i while i runs up over the shrinking live list leaves the odd positions of the original list |
| DescribeFeatureTypeTests.RemoveAllTypeNamesAsWritten | src/main/java/org/opengis/cite/iso19142/simple/DescribeFeatureTypeTests.java:76-82 | the document element keeps exactly its children at odd original positions |
| DescribeFeatureTypeTests.AsWrittenClearsIffAtMostOne | src/main/java/org/opengis/cite/iso19142/simple/DescribeFeatureTypeTests.java:76-82 | the as-written loop clears the children exactly when there is at most one |
| DescribeFeatureTypeTests.AsWrittenLeavesSecondOfTwo | src/main/java/org/opengis/cite/iso19142/simple/DescribeFeatureTypeTests.java:76-82 | with two TypeName children the second one survives |
| DescribeFeatureTypeTests.RemoveAllTypeNames | src/main/java/org/opengis/cite/iso19142/simple/DescribeFeatureTypeTests.java:72-82 | the document element ends with no children, as its documentation promises; nothing else changes |
| DescribeFeatureTypeTests.TypeNameElement | src/main/java/org/opengis/cite/iso19142/simple/DescribeFeatureTypeTests.java:92-98 | a wfs:TypeName element with prefix wfs whose text is prefix:localPart |
| DescribeFeatureTypeTests.AddFeatureType | src/main/java/org/opengis/cite/iso19142/simple/DescribeFeatureTypeTests.java:90-101 | the document element becomes the one the addition describes |
| DescribeFeatureTypeTests.AddFeatureTypeAppendsOne | src/main/java/org/opengis/cite/iso19142/simple/DescribeFeatureTypeTests.java:90-101 | exactly one child is appended after the old ones, a wfs:TypeName whose text is the chosen prefix and the local name, and the prefix is declared for the type's namespace on the document element |
| DescribeFeatureTypeTests.AddFeatureTypeReusesPrefix | src/main/java/org/opengis/cite/iso19142/simple/DescribeFeatureTypeTests.java:93-100 | a prefix the document element already has for the namespace is reused and re-declared with the same namespace |
| DescribeFeatureTypeTests.AddFeatureTypeMadeUpPrefix | src/main/java/org/opengis/cite/iso19142/simple/DescribeFeatureTypeTests.java:94-97 | without one, the text is "ns", a number, ":" and the local name, so splitting at the first colon gives back the local name |
| DescribeFeatureTypeTests.AddOneFeatureTypeExample | src/test/java/org/opengis/cite/iso19142/simple/VerifyDescribeFeatureTypeTests.java:54-67 | adding Unknown1.Type to an empty request gives one wfs:TypeName whose text after the colon is Unknown1.Type |

## Left out

- Network I/O is not modelled: `WFSClient`, endpoint resolution, SOAP message handling and every request the tests send. Service answers enter as parameters, such as the HTTP status of each lock release or the gml:ids in a response.
- XPath and XSLT evaluation, Saxon, Schematron and XML Schema validation are not modelled. Where a result decides a branch it is a parameter: the matched exceptions, the match count, whether an expression holds, the sampled values.
- The Xerces schema model is reduced to element declarations (namespace, name, nillable, simple type kind or simple content) and particles (minOccurs, term). `getAllFeatureProperties` and `getFeaturePropertiesByType` are not modelled; their lists are inputs.
- Geometry, CRS and temporal computation is not modelled: envelopes, periods, `setSpatialExtent`/`getSpatialExtent` of `FeatureTypeInfo`, `TemporalUtils`, `Extents`. The extent caches take the computed envelope or period as a parameter.
- Floating point is not modelled. Sampled numbers are exact reals and their parsing is outside the model; `Double.toString` and `Float.toString` are left out. The float and double halving in `newPropertyValue` is a parameter function.
- ComparisonOperators.SortValues: sorts numbers only; the fallback that parses and sorts Calendar values when a value is not a number is not modelled.
- ComparisonOperators.CalculateRange: returns the two end values as reals rather than their string forms.
- UpdateValues.KindValue: the decimal case is proved for BigDecimal values with a positive scale written in plain notation; scientific notation (`1E+3`, or an adjusted exponent below -6) is not round-tripped. The model's `ParseInt` accepts ASCII digits only; Java's `Integer.parseInt` also accepts other Unicode decimal digits.
- Upper and lower case mapping (`toUpperCase`, `toLowerCase`) is modelled for ASCII letters only.
- Xml.LookupPrefix: the DOM's final check that the prefix found still maps back to the namespace is omitted. Default-namespace declarations never yield a prefix.
- JoinQueryUtils.PropertyPrefixOnQueryResolves: a property prefix found only on the request element is not proved to resolve back. A made-up nsN declaration on the query can rebind that prefix; the DOM's resolve-back check, which Xml.LookupPrefix omits, would then make the source draw a fresh prefix.
- DOM node identity and aliasing are not modelled. Trees are values, so a node appended to two parents is two copies. `createElement` returning a parentless node with an owner document is beyond the value model.
- WfsMessage.RandomPrefix, JoinQueryUtils.TypePrefixAt, JoinQueryUtils.PropertyPrefix and DescribeFeatureTypeTests.AddedFeatureType: the random number is any natural rather than one of 0..99.
- JoinQueryUtils.ValueRefTypePrefixMatchesTypeNames and JoinQueryUtils.TypeNamesPrefixInScope: both require that the two made-up type prefixes differ. When both types' namespaces are unbound and the two draws coincide, the source's second xmlns declaration replaces the first and the first type's prefix points to the wrong namespace. The model does not state that case.
- WfsMessage.SimpleQueryDeclaresUnbound: holds only when no later made-up prefix collides, for the same reason.
- DescribeFeatureTypeTests.AddFeatureType: the source writes the xmlns declaration with the DOM Level 1 `setAttribute`, which the DOM's `lookupPrefix` does not see. A second addition for the same namespace therefore draws a fresh prefix in the source. The model's attributes do not record how they were set, so it finds and reuses the first prefix.
- BaseFixtures.TruncatedResponse: the model counts Unicode characters. `StringBuilder.length` counts UTF-16 code units, so a response with characters outside the Basic Multilingual Plane is cut earlier in the source, possibly inside a surrogate pair. A Dafny character cannot hold a lone surrogate.
- DescribeFeatureTypeTests.AddFeatureTypeMadeUpPrefix: a made-up prefix that equals a prefix the document element already binds to another namespace overwrites that binding. The lemma states only the type name text.
- DataSampling.DataSampler.SelectRandomFeatureIdentifiers: requires the sampled gml:ids to be distinct. With duplicates the source loop may never reach numId. The random redraws are one choice of an identifier not yet taken. A sample file that cannot be read, where the source throws a NullPointerException, is not modelled.
- Randomizer.GenerateWords: redraws of the rejected code points 91..96 are collapsed into one choice of a letter. `ThreadLocalRandom` is not modelled.
- ServiceMetadataUtils.GetOperationEndpoint: whether `URI.create` accepts a string is the parameter `parses`; the RFC 2396 grammar of `java.net.URI` is not modelled. `getQuery` is taken to be defined when a '?' comes before any '#', which ignores opaque URIs.
- ServiceMetadataUtils.GetRequestEndpoints: whether `URI.create` accepts a pruned href is the parameter `parses`, as for GetOperationEndpoint.
- ValidationUtils.ResolveLocation: `URI.create` failures on malformed text are not modelled. An absolute URI is recognised by its scheme syntax, and resolution itself is a parameter function.
- ResourceIds.ResourceId.SetStart and ResourceIds.ResourceId.SetEnd: the date-time check is the pattern `yyyy-MM-dd'T'HH:mm:ss[.SSS][XXX]` under smart resolution for years of four digits. A year with a sign and more than four digits, which the formatter's year field (4 to 19 digits, sign required beyond the pad width) can also read, is refused by the model.
- `NamespaceBindings.getPrefixes`, `getAllBindings` and `toString`, and every `toString`, are not modelled. They only render state.
- Logging (`TestSuiteLogger`, `LOGR`) is not modelled; it has no effect on results.
- Test classes that only send a request and assert on the response are not modelled, nor are the TestNG listeners.
- Outside this model:
  - `TransactionFixture.trxTestParameters`;
  - `BasicGetFeatureTests.getFeatureTypeWithInstanceData`;
  - `PagingTests.anyFeatureType`;
  - `DescribeStoredQueriesTests.removeAllQueryIdentifiers`, which has the same removal loop as `removeAllTypeNames`;
  - `InsertTests.extractFeatureIdentifiers`;
  - the `PropertyIsNil`, `PropertyIsNull` and `PropertyIsEqualTo` builders.

## Findings

| source | as written | input that shows it | evidently intended | confidence | as-written member | corrected member |
|---|---|---|---|---|---|---|
| src/main/java/org/opengis/cite/iso19142/simple/DescribeFeatureTypeTests.java:76-82 | the loop removes `item(i)` while `i` counts up over the live, shrinking child list, so it removes the children at original positions 0, 2, 4, … and keeps those at odd positions | a request with two wfs:TypeName children keeps the second one | remove every child, as the method's documentation says | not executed | DescribeFeatureTypeTests.RemoveAllTypeNamesAsWritten, DescribeFeatureTypeTests.AsWrittenLeavesSecondOfTwo | DescribeFeatureTypeTests.RemoveAllTypeNames |
| src/main/java/org/opengis/cite/iso19142/util/ServiceMetadataUtils.java:284-304 | a matching per-operation constraint adds GET whatever binding it names | a GetFeature operation that only sets XMLEncoding to TRUE, with no global bindings, is reported as supporting GET and not POST | add the binding the constraint names | not executed | ServiceMetadataUtils.WrittenOperationBindingsCounterexample | ServiceMetadataUtils.GetOperationBindings |
| src/main/java/org/opengis/cite/iso19142/util/ValidationUtils.java:137-142 | `split("\\s")` splits at every single whitespace character, so two spaces between a namespace and its location produce an empty token and shift the (namespace, location) pairs | `xsi:schemaLocation="http://www.opengis.net/wfs/2.0  http://schemas.opengis.net/wfs/2.0/wfs.xsd"` yields the empty location | read the attribute as an XML Schema list, with any run of whitespace as one separator | not executed | ValidationUtils.DoubleSpaceMisreadAsWritten | ValidationUtils.DoubleSpaceReadAsList |
