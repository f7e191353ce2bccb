/** Test inputs for the PropertyIsLike operator of the filter encoding: sampled patterns and the predicate. */
module PropertyIsLike {
  import opened Wrappers
  import opened Strings
  import opened Xml
  import opened AppSchemaUtils
  import opened DataSampling
  import opened BaseFixtures
  import Namespaces
  import WfsMessage
  import ComparisonOperators

  /** The metacharacters the predicate declares. */
  const WILD_CARD: char := '*'
  const SINGLE_CHAR: char := '?'
  const ESCAPE_CHAR: char := '\\'

  /**
   * Whether s matches a like-pattern: the wild card stands for any run of characters, the single
   * character for any one, and the escape character makes the next one literal.
   */
  predicate LikeMatches(pattern: string, s: string)
    decreases |pattern|
  {
    if pattern == [] then s == []
    else if pattern[0] == WILD_CARD then
      exists k :: 0 <= k <= |s| && LikeMatches(pattern[1..], s[k..])
    else if pattern[0] == ESCAPE_CHAR then
      |pattern| >= 2 && s != [] && s[0] == pattern[1] && LikeMatches(pattern[2..], s[1..])
    else
      s != [] && (pattern[0] == SINGLE_CHAR || s[0] == pattern[0]) && LikeMatches(pattern[1..], s[1..])
  }

  /** The pattern made from a sampled value: its first two characters replaced by one wild card. */
  function LikePattern(value: string): (r: string)
    ensures |r| >= 1 && r[0] == WILD_CARD
    ensures |value| >= 2 ==> r[1..] == value[2..] && |r| == |value| - 1
    ensures |value| < 2 ==> r == [WILD_CARD]
  {
    var cut := if |value| < 2 then |value| else 2;
    [WILD_CARD] + value[cut..]
  }

  /** "Haida Gwaii" gives "*ida Gwaii" and "CA-BC" gives "*-BC". */
  lemma LikePatternExamples()
    ensures LikePattern("Haida Gwaii") == "*ida Gwaii"
    ensures LikePattern("CA-BC") == "*-BC"
  {
    assert "Haida Gwaii"[2..] == "ida Gwaii";
    assert "CA-BC"[2..] == "-BC";
  }

  /** Text without escape characters matches itself as a pattern. */
  lemma {:induction false} LiteralMatchesItself(s: string)
    requires ESCAPE_CHAR !in s
    ensures LikeMatches(s, s)
    decreases |s|
  {
    if s != [] {
      LiteralMatchesItself(s[1..]);
      if s[0] == WILD_CARD {
        assert s[1..][0..] == s[1..];
        assert LikeMatches(s[1..], s[1..][0..]);
        assert s[1..] == s[1..];
      }
    }
  }

  /** The pattern matches the value it came from, unless what follows the cut holds an escape character. */
  lemma PatternMatchesValue(value: string)
    requires ESCAPE_CHAR !in value[if |value| < 2 then |value| else 2..]
    ensures LikeMatches(LikePattern(value), value)
  {
    var cut := if |value| < 2 then |value| else 2;
    var rest := value[cut..];
    LiteralMatchesItself(rest);
    assert LikePattern(value)[1..] == rest;
    assert value[cut..] == rest;
  }

  /**
   * generateMatchingStringPattern: the string properties are scanned from last to first; the first
   * with sampled values yields a single entry mapping it to the pattern of its first value.
   */
  method GenerateMatchingStringPattern(stringProps: seq<QName>, sample: QName -> seq<string>)
    returns (r: Option<(QName, string)>)
    ensures match ComparisonOperators.LastSampled(stringProps, sample)
      case None => r.None?
      case Some(i) => r == Some((stringProps[i], LikePattern(sample(stringProps[i])[0])))
  {
    var i := |stringProps|;
    while i > 0
      invariant 0 <= i <= |stringProps|
      invariant forall j :: i <= j < |stringProps| ==> sample(stringProps[j]) == []
    {
      i := i - 1;
      var propName := stringProps[i];
      var values := sample(propName);
      if values != [] {
        ComparisonOperators.LastSampledIsLast(stringProps, sample, i);
        return Some((propName, LikePattern(values[0])));
      }
    }
    return None;
  }

  /** The PropertyIsLike predicate: ValueReference then Literal, with the three metacharacters declared. */
  function LikePredicate(docElement: Node, name: PropertyName, pattern: string): (r: Node)
    ensures r.Element? && r.ns == Namespaces.FES && r.local == "PropertyIsLike"
  {
    Element(Namespaces.FES, "", "PropertyIsLike",
      [Attr("wildCard", [WILD_CARD]), Attr("singleChar", [SINGLE_CHAR]), Attr("escapeChar", [ESCAPE_CHAR])],
      [ValueReference(docElement, name), WithText(NewElement(Namespaces.FES, "", "Literal"), pattern)])
  }

  /** The Filter holding the predicate, inside a Not when negated. */
  function LikeFilter(docElement: Node, name: PropertyName, pattern: string, negate: bool): (r: Node)
  {
    var like := LikePredicate(docElement, name, pattern);
    var content := if negate then Element(Namespaces.FES, "", "Not", [], [like]) else like;
    Element(Namespaces.FES, "", "Filter", [], [content])
  }

  /** Negation puts a Not between the filter and the predicate; the predicate itself is the same. */
  lemma LikeFilterShape(docElement: Node, name: PropertyName, pattern: string, negate: bool)
    ensures var f := LikeFilter(docElement, name, pattern, negate);
      f.Element? && f.local == "Filter" && |f.children| == 1 && f.children[0].Element? &&
      (negate ==> f.children[0].local == "Not" && f.children[0].children == [LikePredicate(docElement, name, pattern)]) &&
      (!negate ==> f.children[0] == LikePredicate(docElement, name, pattern))
  {
  }

  /** The predicate declares the three metacharacters and holds the value reference, then the pattern as literal text. */
  lemma LikePredicateShape(docElement: Node, name: PropertyName, pattern: string)
    ensures var p := LikePredicate(docElement, name, pattern);
      Attribute(p, "wildCard") == "*" && Attribute(p, "singleChar") == "?" && Attribute(p, "escapeChar") == "\\" &&
      |p.children| == 2 && p.children[0].local == "ValueReference" && p.children[1].local == "Literal" &&
      TextContent(p.children[1]) == pattern
  {
    assert "singleChar"[0] != "escapeChar"[0];
    ThreeAttributes("wildCard", "singleChar", "escapeChar", "*", "?", "\\");
  }

  /** Lookups in a list of three attributes with distinct names. */
  lemma ThreeAttributes(a: string, b: string, c: string, va: string, vb: string, vc: string)
    requires a != b && a != c && b != c
    ensures var attrs := [Attr(a, va), Attr(b, vb), Attr(c, vc)];
      GetAttr(attrs, a) == Some(va) && GetAttr(attrs, b) == Some(vb) && GetAttr(attrs, c) == Some(vc)
  {
    var attrs := [Attr(a, va), Attr(b, vb), Attr(c, vc)];
    assert attrs[1..] == [Attr(b, vb), Attr(c, vc)];
    assert attrs[1..][1..] == [Attr(c, vc)];
    assert GetAttr(attrs[1..][1..], c) == Some(vc);
    assert GetAttr(attrs[1..], c) == Some(vc);
    assert GetAttr(attrs[1..], b) == Some(vb);
  }

  /**
   * addPropertyIsLikePredicate: a GetFeature request and a property name are required; the filter
   * goes last into the first wfs:Query, whose absence leaves nothing to append to.
   */
  method AddPropertyIsLikePredicate(request: WfsMessage.Document, propertyName: Option<PropertyName>,
                                    pattern: string, negate: bool) returns (r: Result<()>)
    requires request.root.Element?
    modifies request
    ensures old(request.root).local != "GetFeature" ==> r.Err? && r.error.IllegalArgument?
    ensures r.Err? ==> request.root == old(request.root)
    ensures r.Ok? <==> (old(request.root).local == "GetFeature" && propertyName.Some? &&
                        FindFirst(old(request.root), Namespaces.WFS, "Query").Some?)
    ensures r.Ok? ==>
      var p := FindFirst(old(request.root), Namespaces.WFS, "Query").value;
      ValidPath(old(request.root), p) && At(old(request.root), p).Element? &&
      request.root == AppendAt(old(request.root), p, LikeFilter(old(request.root), propertyName.value, pattern, negate))
  {
    if request.root.local != "GetFeature" {
      return Err(IllegalArgument("Not a GetFeature request"));
    }
    if propertyName.None? {
      return Err(IllegalArgument("propertyName is required."));
    }
    var queryPath := FindFirst(request.root, Namespaces.WFS, "Query");
    if queryPath.None? {
      return Err(NullPointer("no wfs:Query element"));
    }
    FirstMatchIsMatch(request.root, queryPath.value, Namespaces.WFS, "Query");
    request.root := AppendAt(request.root, queryPath.value, LikeFilter(request.root, propertyName.value, pattern, negate));
    return Ok(());
  }

  // ---------------------------------------------------------------------------
  // The regular expression the response check uses

  /** Each wild card of the pattern becomes ".*"; every other character stays. */
  function WildcardsToRegex(pattern: string): (r: string)
    ensures |r| >= |pattern|
    ensures r != [] ==> r[0] != WILD_CARD
  {
    if pattern == [] then []
    else if pattern[0] == WILD_CARD then ".*" + WildcardsToRegex(pattern[1..])
    else [pattern[0]] + WildcardsToRegex(pattern[1..])
  }

  /** The reverse rewrite: ".*" back to a wild card. */
  function RegexToWildcards(regex: string): (r: string)
  {
    if regex == [] then []
    else if |regex| >= 2 && regex[..2] == ".*" then [WILD_CARD] + RegexToWildcards(regex[2..])
    else [regex[0]] + RegexToWildcards(regex[1..])
  }

  /** The rewrite loses nothing: undoing it gives the pattern back. */
  lemma {:induction false} RegexRoundTrip(pattern: string)
    ensures RegexToWildcards(WildcardsToRegex(pattern)) == pattern
    decreases |pattern|
  {
    if pattern != [] {
      RegexRoundTrip(pattern[1..]);
      var tail := WildcardsToRegex(pattern[1..]);
      if pattern[0] == WILD_CARD {
        var r := ".*" + tail;
        assert r[..2] == ".*" && r[2..] == tail;
      } else {
        var r := [pattern[0]] + tail;
        assert r[1..] == tail;
        if |r| >= 2 {
          assert r[1] == tail[0];
          assert r[..2] != ".*";
        }
      }
    }
  }
}
