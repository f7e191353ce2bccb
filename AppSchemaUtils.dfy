/** Reading feature properties out of a GML application schema. */
module AppSchemaUtils {
  import opened Wrappers
  import opened Xml
  import Namespaces

  /** The built-in XML Schema datatypes a simple type may derive from (other kinds by name). */
  datatype BuiltInKind =
    | DOUBLE | FLOAT | DECIMAL
    | INTEGER | BYTE | UNSIGNED_BYTE | INT | UNSIGNED_INT | LONG | UNSIGNED_LONG
    | NEGATIVE_INTEGER | POSITIVE_INTEGER | NON_NEGATIVE_INTEGER | NON_POSITIVE_INTEGER
    | SHORT | UNSIGNED_SHORT
    | STRING | DATETIME | DATE | BOOLEAN
    | OtherKind(name: string)

  /** A type definition: simple, or complex with (maybe) a simple content type. */
  datatype TypeDefinition = SimpleType(kind: BuiltInKind) | ComplexType(simpleContent: Option<BuiltInKind>)

  /** An element declaration in the schema; ns is "" when it has no target namespace. */
  datatype ElementDecl = ElementDecl(ns: string, name: string, nillable: bool, typeDef: TypeDefinition)

  /** A particle of a content model: an element with its minOccurs. */
  datatype Particle = Particle(minOccurs: nat, term: ElementDecl)

  predicate IsIntegerKind(k: BuiltInKind)
  {
    k in {INTEGER, BYTE, UNSIGNED_BYTE, INT, UNSIGNED_INT, LONG, UNSIGNED_LONG,
          NEGATIVE_INTEGER, POSITIVE_INTEGER, NON_NEGATIVE_INTEGER, NON_POSITIVE_INTEGER,
          SHORT, UNSIGNED_SHORT}
  }

  /** The local names of the datatypes getBuiltInDatatype can answer with. */
  const DatatypeNames: set<string> := {"double", "float", "decimal", "integer", "string", "dateTime", "date", "boolean"}

  /** The schema datatype name of a built-in kind: integer kinds collapse to "integer", unknown ones to "string". */
  function DatatypeName(k: BuiltInKind): (r: string)
    ensures r in DatatypeNames
    ensures IsIntegerKind(k) <==> r == "integer"
    ensures k.OtherKind? ==> r == "string"
  {
    match k
    case DOUBLE => "double"
    case FLOAT => "float"
    case DECIMAL => "decimal"
    case STRING => "string"
    case DATETIME => "dateTime"
    case DATE => "date"
    case BOOLEAN => "boolean"
    case OtherKind(_) => "string"
    case _ => "integer"
  }

  /** The kinds that name a datatype of their own are mapped to that datatype. */
  lemma DatatypeNamesPreserved()
    ensures DatatypeName(DOUBLE) == "double" && DatatypeName(FLOAT) == "float"
    ensures DatatypeName(DECIMAL) == "decimal" && DatatypeName(STRING) == "string"
    ensures DatatypeName(DATETIME) == "dateTime" && DatatypeName(DATE) == "date"
    ensures DatatypeName(BOOLEAN) == "boolean"
  {
  }

  /**
   * getBuiltInDatatype: the built-in datatype a property's (simple or simple-content) type derives
   * from, in the XML Schema namespace; a complex type without simple content throws.
   */
  function GetBuiltInDatatype(prop: ElementDecl): (r: Result<QName>)
    ensures r.Err? <==> prop.typeDef == ComplexType(None)
    ensures r.Ok? ==> r.value.ns == Namespaces.XSD && r.value.local in DatatypeNames
    ensures r.Ok? && prop.typeDef.SimpleType? ==> r.value.local == DatatypeName(prop.typeDef.kind)
    ensures r.Ok? && prop.typeDef.ComplexType? ==> r.value.local == DatatypeName(prop.typeDef.simpleContent.value)
  {
    match prop.typeDef
    case SimpleType(k) => Ok(QName(Namespaces.XSD, DatatypeName(k)))
    case ComplexType(Some(k)) => Ok(QName(Namespaces.XSD, DatatypeName(k)))
    case ComplexType(None) => Err(NullPointer("complex type without simple content"))
  }

  // ---------------------------------------------------------------------------
  // Property filters

  /** The elements of s that satisfy keep, in their original order. */
  function Filter(s: seq<ElementDecl>, keep: ElementDecl -> bool): (r: seq<ElementDecl>)
    ensures |r| <= |s|
  {
    if s == [] then []
    else if keep(s[|s| - 1]) then Filter(s[..|s| - 1], keep) + [s[|s| - 1]]
    else Filter(s[..|s| - 1], keep)
  }

  /** An element is kept exactly when it occurs and passes the test. */
  lemma {:induction false} FilterMembers(s: seq<ElementDecl>, keep: ElementDecl -> bool, x: ElementDecl)
    ensures x in Filter(s, keep) <==> x in s && keep(x)
    decreases |s|
  {
    if s != [] {
      var n := |s| - 1;
      FilterMembers(s[..n], keep, x);
      assert s == s[..n] + [s[n]];
    }
  }

  /** Filtering distributes over concatenation, so order is kept. */
  lemma {:induction false} FilterAppend(a: seq<ElementDecl>, b: seq<ElementDecl>, keep: ElementDecl -> bool)
    ensures Filter(a + b, keep) == Filter(a, keep) + Filter(b, keep)
    decreases |b|
  {
    if b == [] {
      assert a + b == a;
    } else {
      var n := |b| - 1;
      assert (a + b)[..|a + b| - 1] == a + b[..n];
      FilterAppend(a, b[..n], keep);
    }
  }

  /** Iterator removal over a list: each element failing keep is removed, the others stay in order. */
  method RemoveUnless(props: seq<ElementDecl>, keep: ElementDecl -> bool) returns (r: seq<ElementDecl>)
    ensures r == Filter(props, keep)
  {
    r := props;
    var i := 0;
    ghost var k := 0;
    while i < |r|
      invariant 0 <= k <= |props| && i == |Filter(props[..k], keep)|
      invariant r == Filter(props[..k], keep) + props[k..]
      decreases |r| - i
    {
      RemoveStep(props, k, keep, r);
      if !keep(r[i]) {
        r := r[..i] + r[i + 1..];
      } else {
        i := i + 1;
      }
      k := k + 1;
    }
    assert props[..k] == props;
  }

  /** One step of RemoveUnless: the element at the cursor is props[k], and removing it or stepping past it keeps the loop's shape. */
  lemma RemoveStep(props: seq<ElementDecl>, k: nat, keep: ElementDecl -> bool, r: seq<ElementDecl>)
    requires k < |props| && r == Filter(props[..k], keep) + props[k..]
    ensures var i := |Filter(props[..k], keep)|;
      i < |r| && r[i] == props[k] &&
      |Filter(props[..k + 1], keep)| == i + (if keep(props[k]) then 1 else 0) &&
      (keep(props[k]) ==> r == Filter(props[..k + 1], keep) + props[k + 1..]) &&
      (!keep(props[k]) ==> r[..i] + r[i + 1..] == Filter(props[..k + 1], keep) + props[k + 1..])
  {
    var kept := Filter(props[..k], keep);
    var i := |kept|;
    var rest := props[k + 1..];
    FilterStep(props, k, keep);
    assert props[k..] == [props[k]] + rest;
    assert r == kept + ([props[k]] + rest);
    assert r[i] == props[k];
    if keep(props[k]) {
      assert Filter(props[..k + 1], keep) == kept + [props[k]];
      assert kept + ([props[k]] + rest) == (kept + [props[k]]) + rest;
    } else {
      assert Filter(props[..k + 1], keep) == kept;
      assert r[..i] == kept && r[i + 1..] == rest;
    }
  }

  lemma FilterStep(s: seq<ElementDecl>, k: nat, keep: ElementDecl -> bool)
    requires k < |s|
    ensures keep(s[k]) ==> Filter(s[..k + 1], keep) == Filter(s[..k], keep) + [s[k]]
    ensures !keep(s[k]) ==> Filter(s[..k + 1], keep) == Filter(s[..k], keep)
  {
    assert s[..k + 1][..k] == s[..k];
  }

  function IsNillable(prop: ElementDecl): bool
  {
    prop.nillable
  }

  /** getNillableProperties: exactly the nillable properties, in their order. */
  method GetNillableProperties(featureProps: seq<ElementDecl>) returns (r: seq<ElementDecl>)
    ensures r == Filter(featureProps, IsNillable)
    ensures forall p :: p in r <==> p in featureProps && p.nillable
  {
    r := RemoveUnless(featureProps, IsNillable);
    forall p ensures p in r <==> p in featureProps && p.nillable {
      FilterMembers(featureProps, IsNillable, p);
    }
  }

  /** A property getSimpleFeatureProperties keeps: not a GML property, and not complex without simple content. */
  function IsSimpleProperty(prop: ElementDecl): bool
  {
    prop.ns != Namespaces.GML && prop.typeDef != ComplexType(None)
  }

  /**
   * getSimpleFeatureProperties: standard GML properties and purely complex properties are dropped.
   * A property without a target namespace (ns "") makes the namespace test throw a
   * NullPointerException, and nothing is returned.
   */
  method GetSimpleFeatureProperties(props: seq<ElementDecl>) returns (r: Result<seq<ElementDecl>>)
    ensures r.Err? <==> exists p :: p in props && p.ns == ""
    ensures r.Err? ==> r.error.NullPointer?
    ensures r.Ok? ==> r.value == Filter(props, IsSimpleProperty)
    ensures r.Ok? ==> forall p :: p in r.value <==> p in props && p.ns != Namespaces.GML && GetBuiltInDatatype(p).Ok?
  {
    if exists i | 0 <= i < |props| :: props[i].ns == "" {
      return Err(NullPointer("property declaration without a target namespace"));
    }
    var kept := RemoveUnless(props, IsSimpleProperty);
    forall p ensures p in kept <==> p in props && p.ns != Namespaces.GML && GetBuiltInDatatype(p).Ok? {
      FilterMembers(props, IsSimpleProperty, p);
    }
    return Ok(kept);
  }

  /** The declarations of the particles with minOccurs > 0, in order. */
  function RequiredTerms(particles: seq<Particle>): (r: seq<ElementDecl>)
    ensures forall e :: e in r <==> exists p :: p in particles && p.minOccurs > 0 && p.term == e
  {
    if particles == [] then []
    else
      var n := |particles| - 1;
      var before := RequiredTerms(particles[..n]);
      assert forall p :: p in particles <==> p in particles[..n] || p == particles[n];
      if particles[n].minOccurs > 0 then before + [particles[n].term] else before
  }

  /** getRequiredProperties: the elements that must occur in a valid instance. */
  method GetRequiredProperties(particles: seq<Particle>) returns (requiredElems: seq<ElementDecl>)
    ensures requiredElems == RequiredTerms(particles)
  {
    requiredElems := [];
    var i := 0;
    while i < |particles|
      invariant 0 <= i <= |particles|
      invariant requiredElems == RequiredTerms(particles[..i])
    {
      assert particles[..i + 1][..i] == particles[..i];
      if particles[i].minOccurs > 0 {
        requiredElems := requiredElems + [particles[i].term];
      }
      i := i + 1;
    }
    assert particles[..i] == particles;
  }

  /** List.remove(Object): the first occurrence of x is removed, if any. */
  function RemoveFirst(s: seq<ElementDecl>, x: Option<ElementDecl>): (r: seq<ElementDecl>)
    ensures x.None? || x.value !in s ==> r == s
    ensures x.Some? && x.value in s ==> |r| == |s| - 1
  {
    if x.None? || s == [] then s
    else if s[0] == x.value then s[1..]
    else [s[0]] + RemoveFirst(s[1..], x)
  }

  /** Removing the first occurrence lowers the count of that element by one, and of no other. */
  lemma {:induction false} RemoveFirstCount(s: seq<ElementDecl>, x: Option<ElementDecl>, e: ElementDecl)
    ensures multiset(RemoveFirst(s, x))[e] == multiset(s)[e] - (if x == Some(e) && e in s then 1 else 0)
  {
    if x.Some? && s != [] {
      assert s == [s[0]] + s[1..];
      if s[0] != x.value {
        RemoveFirstCount(s[1..], x, e);
      }
    }
  }

  /**
   * removeDeprecatedGMLElements: one occurrence each of gml:location and gml:metaDataProperty (the
   * declarations the schema has for them, if any) is removed from the list.
   */
  function RemoveDeprecatedGmlElements(decls: seq<ElementDecl>, location: Option<ElementDecl>, metaDataProperty: Option<ElementDecl>): (r: seq<ElementDecl>)
    ensures |r| <= |decls|
  {
    RemoveFirst(RemoveFirst(decls, location), metaDataProperty)
  }

  /** Each deprecated declaration loses one occurrence (if it had any); every other element keeps its count. */
  lemma RemoveDeprecatedCounts(decls: seq<ElementDecl>, location: Option<ElementDecl>, metaDataProperty: Option<ElementDecl>, e: ElementDecl)
    requires location.Some? ==> location != metaDataProperty
    ensures var r := RemoveDeprecatedGmlElements(decls, location, metaDataProperty);
      multiset(r)[e] == multiset(decls)[e] - (if (Some(e) == location || Some(e) == metaDataProperty) && e in decls then 1 else 0)
  {
    var first := RemoveFirst(decls, location);
    RemoveFirstCount(decls, location, e);
    RemoveFirstCount(first, metaDataProperty, e);
  }
}
