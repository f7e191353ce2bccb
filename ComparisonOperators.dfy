/**
 * Test inputs for the comparison operators of the filter encoding: the value range of a sampled
 * property and the comparison predicate added to a GetFeature query. Numbers are exact reals.
 */
module ComparisonOperators {
  import opened Wrappers
  import opened Xml
  import opened AppSchemaUtils
  import Namespaces
  import WfsMessage
  import opened DataSampling
  import opened BaseFixtures

  const INT_MIN: int := -0x8000_0000
  const INT_MAX: int := 0x7FFF_FFFF

  /** The matchAction used when none is given. */
  const MATCH_ANY := "Any"

  // ---------------------------------------------------------------------------
  // Double.intValue and the integer datatypes of calculateRange

  /** Double.intValue: rounds toward zero and saturates at the 32-bit bounds. */
  function IntValue(x: real): (r: int)
    ensures INT_MIN <= r <= INT_MAX
    ensures 0.0 <= x ==> 0 <= r && r as real <= x
    ensures x <= 0.0 ==> r <= 0 && x <= r as real
    ensures INT_MIN as real <= x <= INT_MAX as real ==> x - 1.0 < r as real < x + 1.0
  {
    var t := if 0.0 <= x then x.Floor else -((-x).Floor);
    if t < INT_MIN then INT_MIN else if t > INT_MAX then INT_MAX else t
  }

  /** Truncation keeps the order of values. */
  lemma IntValueMonotone(x: real, y: real)
    requires x <= y
    ensures IntValue(x) <= IntValue(y)
  {
    if 0.0 <= x {
      assert x.Floor <= y.Floor;
    } else if y <= 0.0 {
      assert (-y).Floor <= (-x).Floor;
    }
  }

  /** A whole number within the 32-bit range is its own intValue. */
  lemma IntValueOfInt(n: int)
    requires INT_MIN <= n <= INT_MAX
    ensures IntValue(n as real) == n
  {
    if n < 0 {
      assert (-(n as real)).Floor == -n;
    }
  }

  /** The datatypes whose values calculateRange truncates to integers. */
  const IntegerDatatypes: set<string> := {"integer", "nonPositiveInteger", "nonNegativeInteger", "long", "int"}

  /** A sampled value as it appears in the range for the given datatype. */
  function RangeValue(typeName: string, x: real): real
  {
    if typeName in IntegerDatatypes then IntValue(x) as real else x
  }

  lemma RangeValueMonotone(typeName: string, x: real, y: real)
    requires x <= y
    ensures RangeValue(typeName, x) <= RangeValue(typeName, y)
  {
    if typeName in IntegerDatatypes {
      IntValueMonotone(x, y);
    }
  }

  // ---------------------------------------------------------------------------
  // Minimum and maximum

  function SeqMin(s: seq<real>): (r: real)
    requires s != []
  {
    if |s| == 1 then s[0] else var m := SeqMin(s[1..]); if s[0] <= m then s[0] else m
  }

  function SeqMax(s: seq<real>): (r: real)
    requires s != []
  {
    if |s| == 1 then s[0] else var m := SeqMax(s[1..]); if s[0] >= m then s[0] else m
  }

  /** SeqMin is a value of s no greater than any other; SeqMax one no smaller. */
  lemma {:induction false} MinMaxBounds(s: seq<real>)
    requires s != []
    ensures SeqMin(s) in s && SeqMax(s) in s
    ensures forall x :: x in s ==> SeqMin(s) <= x <= SeqMax(s)
    decreases |s|
  {
    if |s| > 1 {
      MinMaxBounds(s[1..]);
      assert forall x :: x in s ==> x == s[0] || x in s[1..];
    }
  }

  predicate Sorted(s: seq<real>)
  {
    forall k, l :: 0 <= k < l < |s| ==> s[k] <= s[l]
  }

  /** The first and the last element of a sorted arrangement of t are t's minimum and maximum. */
  lemma SortedEnds(s: seq<real>, t: seq<real>)
    requires s != [] && Sorted(s) && multiset(s) == multiset(t)
    ensures t != [] && s[0] == SeqMin(t) && s[|s| - 1] == SeqMax(t)
  {
    assert |t| == |multiset(t)| == |multiset(s)| == |s|;
    MinMaxBounds(t);
    var first, last := s[0], s[|s| - 1];
    assert first in multiset(s) && last in multiset(s);
    assert first in t && last in t;
    assert SeqMin(t) <= first && last <= SeqMax(t);
    assert SeqMin(t) in multiset(s) && SeqMax(t) in multiset(s);
    assert SeqMin(t) in s && SeqMax(t) in s;
    var i :| 0 <= i < |s| && s[i] == SeqMin(t);
    var j :| 0 <= j < |s| && s[j] == SeqMax(t);
    assert first <= s[i] && s[j] <= last;
  }

  // ---------------------------------------------------------------------------
  // sortValues and calculateRange

  predicate SortedPrefix(a: array<real>, n: int)
    requires 0 <= n <= a.Length
    reads a
  {
    forall k, l :: 0 <= k < l < n ==> a[k] <= a[l]
  }

  /** sortValues on numeric values: an empty array is left alone, any other ends up in ascending order. */
  method SortValues(values: array<real>)
    modifies values
    ensures values.Length == 0 ==> values[..] == old(values[..])
    ensures Sorted(values[..])
    ensures multiset(values[..]) == multiset(old(values[..]))
  {
    if values.Length == 0 {
      return;
    }
    var i := 0;
    while i < values.Length
      invariant 0 <= i <= values.Length
      invariant SortedPrefix(values, i)
      invariant multiset(values[..]) == multiset(old(values[..]))
    {
      InsertNext(values, i);
      i := i + 1;
    }
    assert SortedPrefix(values, values.Length);
  }

  /** One insertion step: a[i] moves down into the sorted prefix a[..i]. */
  method InsertNext(a: array<real>, i: int)
    requires 0 <= i < a.Length && SortedPrefix(a, i)
    modifies a
    ensures SortedPrefix(a, i + 1)
    ensures multiset(a[..]) == multiset(old(a[..]))
  {
    var j := i;
    while j > 0 && a[j - 1] > a[j]
      invariant 0 <= j <= i
      invariant forall k, l :: 0 <= k < l <= i && l != j ==> a[k] <= a[l]
      invariant 0 < j < i ==> a[j - 1] <= a[j + 1]
      invariant multiset(a[..]) == multiset(old(a[..]))
    {
      Swap(a, j - 1, j);
      j := j - 1;
    }
  }

  method Swap(a: array<real>, x: int, y: int)
    requires 0 <= x < a.Length && 0 <= y < a.Length
    modifies a
    ensures a[..] == old(a[..])[x := old(a[y])][y := old(a[x])]
    ensures multiset(a[..]) == multiset(old(a[..]))
  {
    a[x], a[y] := a[y], a[x];
  }

  /**
   * calculateRange: the values are sorted, truncated to integers for an integer datatype, and
   * the first and last are returned; an empty array has no first element. The caller's array is
   * left holding the sorted values, each as it appears in the range.
   */
  method CalculateRange(values: array<real>, dataType: QName) returns (r: Result<(real, real)>)
    modifies values
    ensures values.Length == 0 <==> r.Err?
    ensures r.Err? ==> r.error.IndexOutOfBounds?
    ensures r.Ok? ==> r.value == (RangeValue(dataType.local, SeqMin(old(values[..]))),
                                  RangeValue(dataType.local, SeqMax(old(values[..]))))
    ensures Sorted(values[..])
    ensures exists s :: (RangeArrangement(s, old(values[..])) && |s| == values.Length &&
      forall k :: 0 <= k < |s| ==> values[k] == RangeValue(dataType.local, s[k]))
  {
    SortValues(values);
    ghost var sorted := values[..];
    if values.Length > 0 {
      SortedEnds(sorted, old(values[..]));
    }
    if dataType.local in IntegerDatatypes {
      TruncateToInts(values);
    }
    assert forall k :: 0 <= k < values.Length ==> values[k] == RangeValue(dataType.local, sorted[k]);
    RangeValuesSorted(sorted, values[..], dataType.local);
    assert RangeArrangement(sorted, old(values[..]));
    if values.Length == 0 {
      return Err(IndexOutOfBounds("values[0]"));
    }
    return Ok((values[0], values[values.Length - 1]));
  }

  /** The loop of calculateRange that replaces each value by Integer.toString(intValue). */
  method TruncateToInts(values: array<real>)
    modifies values
    ensures forall k :: 0 <= k < values.Length ==> values[k] == IntValue(old(values[k])) as real
  {
    var i := 0;
    while i < values.Length
      invariant 0 <= i <= values.Length
      invariant forall k :: 0 <= k < i ==> values[k] == IntValue(old(values[k])) as real
      invariant forall k :: i <= k < values.Length ==> values[k] == old(values[k])
    {
      values[i] := IntValue(values[i]) as real;
      i := i + 1;
    }
  }

  /** Sorted values stay in order when each is replaced by its range value. */
  lemma RangeValuesSorted(sorted: seq<real>, result: seq<real>, typeName: string)
    requires Sorted(sorted) && |result| == |sorted|
    requires forall k :: 0 <= k < |sorted| ==> result[k] == RangeValue(typeName, sorted[k])
    ensures Sorted(result)
  {
    forall k, l | 0 <= k < l < |result|
      ensures result[k] <= result[l]
    {
      RangeValueMonotone(typeName, sorted[k], sorted[l]);
    }
  }

  /** s is the values of t in ascending order. */
  predicate RangeArrangement(s: seq<real>, t: seq<real>)
  {
    Sorted(s) && multiset(s) == multiset(t)
  }

  /** The integer range of the values 9, -2 and 7 is (-2, 9). */
  method CalculateIntegerRangeExample() returns (r: Result<(real, real)>)
    ensures r == Ok((-2.0, 9.0))
  {
    var values := new real[3];
    values[0], values[1], values[2] := 9.0, -2.0, 7.0;
    assert values[..] == [9.0, -2.0, 7.0];
    r := CalculateRange(values, QName(Namespaces.XSD, "integer"));
    assert SeqMin([9.0, -2.0, 7.0]) == -2.0 && SeqMax([9.0, -2.0, 7.0]) == 9.0;
    IntValueOfInt(-2);
    IntValueOfInt(9);
  }

  // ---------------------------------------------------------------------------
  // findFeaturePropertyValue

  /** The property list the search uses: that of the first data type with properties, else the last one. */
  function CandidateProperties(propsByType: seq<seq<ElementDecl>>): (r: seq<ElementDecl>)
    requires propsByType != []
    ensures r in propsByType
    ensures r != [] ==> exists t :: (0 <= t < |propsByType| && r == propsByType[t] &&
                                     forall u :: 0 <= u < t ==> propsByType[u] == [])
    ensures r == [] ==> forall t :: 0 <= t < |propsByType| ==> propsByType[t] == []
  {
    if |propsByType| == 1 || propsByType[0] != [] then propsByType[0]
    else
      var r := CandidateProperties(propsByType[1..]);
      assert forall t :: 1 <= t < |propsByType| ==> propsByType[1..][t - 1] == propsByType[t];
      r
  }

  /** The index of the last property with sampled values, the one a backward scan of the list meets first. */
  function LastSampled<P, V>(props: seq<P>, sample: P -> seq<V>): (r: Option<nat>)
    ensures r.Some? ==> r.value < |props| && sample(props[r.value]) != []
    ensures r.Some? ==> forall j :: r.value < j < |props| ==> sample(props[j]) == []
    ensures r.None? ==> forall j :: 0 <= j < |props| ==> sample(props[j]) == []
  {
    if props == [] then None
    else if sample(props[|props| - 1]) != [] then Some(|props| - 1)
    else LastSampled(props[..|props| - 1], sample)
  }

  lemma LastSampledIsLast<P, V>(props: seq<P>, sample: P -> seq<V>, i: nat)
    requires i < |props| && sample(props[i]) != []
    requires forall j :: i < j < |props| ==> sample(props[j]) == []
    ensures LastSampled(props, sample) == Some(i)
  {
    var r := LastSampled(props, sample);
    assert r.Some?;
  }

  /**
   * findFeaturePropertyValue: the properties of the first data type that has any are scanned from
   * last to first; the first with sampled values yields a single entry mapping it to the range of
   * its values. No data types at all leaves the property list null.
   */
  method FindFeaturePropertyValue(propsByType: seq<seq<ElementDecl>>, sample: ElementDecl -> seq<real>)
    returns (r: Result<Option<(ElementDecl, (real, real))>>)
    ensures propsByType == [] ==> r.Err? && r.error.NullPointer?
    ensures propsByType != [] ==>
      var props := CandidateProperties(propsByType);
      match LastSampled(props, sample)
      case None => r == Ok(None)
      case Some(i) =>
        match GetBuiltInDatatype(props[i])
        case Err(e) => r == Err(e)
        case Ok(dataType) =>
          r == Ok(Some((props[i], (RangeValue(dataType.local, SeqMin(sample(props[i]))),
                                   RangeValue(dataType.local, SeqMax(sample(props[i])))))))
  {
    if propsByType == [] {
      return Err(NullPointer("no feature properties"));
    }
    var props := CandidateProperties(propsByType);
    var i := |props|;
    while i > 0
      invariant 0 <= i <= |props|
      invariant forall j :: i <= j < |props| ==> sample(props[j]) == []
    {
      i := i - 1;
      var prop := props[i];
      var valueList := sample(prop);
      if valueList != [] {
        assert LastSampled(props, sample) == Some(i) by {
          LastSampledIsLast(props, sample, i);
        }
        var values := new real[|valueList|](k requires 0 <= k < |valueList| => valueList[k]);
        assert values[..] == valueList;
        var dataType := GetBuiltInDatatype(prop);
        if dataType.Err? {
          return Err(dataType.error);
        }
        var range := CalculateRange(values, dataType.value);
        return Ok(Some((prop, range.value)));
      }
    }
    return Ok(None);
  }

  // ---------------------------------------------------------------------------
  // addComparisonPredicate

  /** The literal to compare with: text, or the document element of a complex literal. */
  datatype Literal = TextLiteral(text: string) | ComplexLiteral(element: Node)

  function LiteralElement(literal: Literal): (r: Node)
    ensures r.Element? && r.ns == Namespaces.FES && r.local == "Literal"
    ensures literal.TextLiteral? ==> TextContent(r) == literal.text
    ensures literal.ComplexLiteral? ==> r.children == [literal.element]
  {
    match literal
    case TextLiteral(t) => WithText(NewElement(Namespaces.FES, "", "Literal"), t)
    case ComplexLiteral(e) => AppendChild(NewElement(Namespaces.FES, "", "Literal"), e)
  }

  function BooleanString(b: bool): string
  {
    if b then "true" else "false"
  }

  /** The Filter holding the comparison: operator(matchCase, matchAction) with a Literal then a ValueReference. */
  function ComparisonFilter(docElement: Node, operator: string, name: PropertyName, literal: Literal,
                            matchCase: bool, matchAction: Option<string>): (r: Node)
  {
    var action := if matchAction.Some? && matchAction.value != [] then matchAction.value else MATCH_ANY;
    var comparison := Element(Namespaces.FES, "", operator,
      [Attr("matchCase", BooleanString(matchCase)), Attr("matchAction", action)],
      [LiteralElement(literal), ValueReference(docElement, name)]);
    Element(Namespaces.FES, "", "Filter", [], [comparison])
  }

  /** The comparison predicate inside the filter, its attributes and its two children in order. */
  lemma ComparisonFilterShape(docElement: Node, operator: string, name: PropertyName, literal: Literal,
                              matchCase: bool, matchAction: Option<string>)
    ensures var f := ComparisonFilter(docElement, operator, name, literal, matchCase, matchAction);
      f.Element? && f.local == "Filter" && |f.children| == 1 &&
      var p := f.children[0];
      p.Element? && p.local == operator && |p.children| == 2 &&
      p.children[0].local == "Literal" && p.children[1].local == "ValueReference" &&
      (literal.TextLiteral? ==> TextContent(p.children[0]) == literal.text) &&
      Attribute(p, "matchCase") == BooleanString(matchCase) &&
      Attribute(p, "matchAction") == (if matchAction.None? || matchAction.value == "" then "Any" else matchAction.value) &&
      TextContent(p.children[1]) == ValueRefPrefix(name) + ":" + name.local
  {
    var f := ComparisonFilter(docElement, operator, name, literal, matchCase, matchAction);
    var p := f.children[0];
    var action := if matchAction.Some? && matchAction.value != [] then matchAction.value else MATCH_ANY;
    assert p.attrs == [Attr("matchCase", BooleanString(matchCase)), Attr("matchAction", action)];
    assert GetAttr(p.attrs, "matchCase") == Some(BooleanString(matchCase));
    assert p.attrs[1..] == [Attr("matchAction", action)];
    assert GetAttr(p.attrs, "matchAction") == Some(action);
  }

  /**
   * addComparisonPredicate: a GetFeature request and a property name are required; the filter goes
   * last into the first wfs:Query, whose absence leaves nothing to append to.
   */
  method AddComparisonPredicate(request: WfsMessage.Document, operator: string, propertyName: Option<PropertyName>,
                                literal: Literal, matchCase: bool, matchAction: Option<string>) returns (r: Result<()>)
    requires request.root.Element?
    modifies request
    ensures old(request.root).local != "GetFeature" ==> r.Err? && r.error.IllegalArgument? && request.root == old(request.root)
    ensures r.Err? ==> request.root == old(request.root)
    ensures r.Ok? <==> (old(request.root).local == "GetFeature" && propertyName.Some? &&
                        FindFirst(old(request.root), Namespaces.WFS, "Query").Some?)
    ensures r.Ok? ==>
      var p := FindFirst(old(request.root), Namespaces.WFS, "Query").value;
      ValidPath(old(request.root), p) && At(old(request.root), p).Element? &&
      request.root == AppendAt(old(request.root), p,
        ComparisonFilter(old(request.root), operator, propertyName.value, literal, matchCase, matchAction))
  {
    if request.root.local != "GetFeature" {
      return Err(IllegalArgument("Not a GetFeature request"));
    }
    if propertyName.None? {
      return Err(IllegalArgument("propertyName is required."));
    }
    var queryPath := FindFirst(request.root, Namespaces.WFS, "Query");
    if queryPath.None? {
      return Err(NullPointer("no wfs:Query element"));
    }
    FirstMatchIsMatch(request.root, queryPath.value, Namespaces.WFS, "Query");
    var filter := ComparisonFilter(request.root, operator, propertyName.value, literal, matchCase, matchAction);
    request.root := AppendAt(request.root, queryPath.value, filter);
    return Ok(());
  }
}
