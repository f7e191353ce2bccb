/** Finding the schema an instance document refers to through xsi:schemaLocation. */
module ValidationUtils {
  import opened Wrappers
  import opened Strings

  /** The characters matched by the regular expression \s. */
  predicate IsWhitespace(c: char)
  {
    c == ' ' || c == '\t' || c == '\n' || c == '\U{000B}' || c == '\U{000C}' || c == '\r'
  }

  predicate NoWhitespace(s: string)
  {
    forall i :: 0 <= i < |s| ==> !IsWhitespace(s[i])
  }

  /** The text between consecutive whitespace characters: one more piece than there are whitespace characters. */
  function Pieces(s: string): (r: seq<string>)
    ensures |r| >= 1
    ensures forall k :: 0 <= k < |r| ==> NoWhitespace(r[k])
    ensures NoWhitespace(s) ==> r == [s]
  {
    if s == [] then [[]]
    else
      var rest := Pieces(s[1..]);
      assert NoWhitespace(s) ==> NoWhitespace(s[1..]) && s == [s[0]] + s[1..];
      if IsWhitespace(s[0]) then [[]] + rest
      else [[s[0]] + rest[0]] + rest[1..]
  }

  function DropTrailingEmpty(ps: seq<string>): (r: seq<string>)
    ensures |r| <= |ps| && r == ps[..|r|]
    ensures r == [] || r[|r| - 1] != []
    ensures forall k :: |r| <= k < |ps| ==> ps[k] == []
  {
    if ps == [] || ps[|ps| - 1] != [] then ps else DropTrailingEmpty(ps[..|ps| - 1])
  }

  /**
   * String.split("\\s"): the pieces between single whitespace characters, trailing empty pieces
   * dropped; a string without whitespace is its own only piece.
   */
  function JavaSplitWhitespace(s: string): (r: seq<string>)
    ensures NoWhitespace(s) ==> r == [s]
    ensures forall k :: 0 <= k < |r| ==> NoWhitespace(r[k])
  {
    if NoWhitespace(s) then [s] else DropTrailingEmpty(Pieces(s))
  }

  /** The items of an xs:list value: the non-empty pieces between runs of whitespace. */
  function ListItems(s: string): (r: seq<string>)
    ensures forall k :: 0 <= k < |r| ==> r[k] != [] && NoWhitespace(r[k])
  {
    NonEmpty(Pieces(s))
  }

  function NonEmpty(ps: seq<string>): (r: seq<string>)
    requires forall k :: 0 <= k < |ps| ==> NoWhitespace(ps[k])
    ensures forall k :: 0 <= k < |r| ==> r[k] != [] && NoWhitespace(r[k])
    ensures |r| <= |ps|
  {
    if ps == [] then []
    else if ps[0] == [] then NonEmpty(ps[1..])
    else [ps[0]] + NonEmpty(ps[1..])
  }

  /** Separating items by any amount of whitespace does not change the list. */
  lemma {:induction false} ListItemsOfSpaced(items: seq<string>, gap: nat)
    requires gap >= 1
    requires forall k :: 0 <= k < |items| ==> items[k] != [] && NoWhitespace(items[k])
    ensures ListItems(Spaced(items, gap)) == items
  {
    if items != [] {
      ListItemsOfSpaced(items[1..], gap);
      var s := Spaced(items, gap);
      PiecesOfWordThenSpaces(items[0], Spaces(gap), Spaced(items[1..], gap));
      var ps := Pieces(s);
      assert ps == [ps[0]] + ps[1..];
      assert NonEmpty(ps) == [items[0]] + NonEmpty(ps[1..]);
      assert items == [items[0]] + items[1..];
    }
  }

  function Spaces(n: nat): (r: string)
    ensures |r| == n && forall k :: 0 <= k < n ==> r[k] == ' '
  {
    if n == 0 then [] else [' '] + Spaces(n - 1)
  }

  /** The items, each followed by gap spaces. */
  function Spaced(items: seq<string>, gap: nat): string
  {
    if items == [] then [] else items[0] + Spaces(gap) + Spaced(items[1..], gap)
  }

  /** A word followed by spaces: the word is the first piece, and the spaces add only empty pieces. */
  lemma {:induction false} PiecesOfWordThenSpaces(w: string, sp: string, rest: string)
    requires w != [] && NoWhitespace(w) && sp != [] && forall k :: 0 <= k < |sp| ==> sp[k] == ' '
    ensures Pieces(w + sp + rest)[0] == w
    ensures NonEmpty(Pieces(w + sp + rest)[1..]) == NonEmpty(Pieces(rest))
    decreases |w|
  {
    var s := w + sp + rest;
    var tail := Pieces(s[1..]);
    assert Pieces(s) == [[s[0]] + tail[0]] + tail[1..];
    if |w| > 1 {
      assert s[1..] == w[1..] + sp + rest;
      PiecesOfWordThenSpaces(w[1..], sp, rest);
      assert [s[0]] + w[1..] == w;
    } else {
      assert s[1..] == sp + rest;
      SpacesThenRest(sp, rest);
      assert [s[0]] == w;
    }
  }

  /** The pieces of spaces and what follows: empty pieces, then the pieces of what follows. */
  lemma {:induction false} SpacesThenRest(sp: string, rest: string)
    requires sp != [] && forall k :: 0 <= k < |sp| ==> sp[k] == ' '
    ensures Pieces(sp + rest)[0] == [] && NonEmpty(Pieces(sp + rest)[1..]) == NonEmpty(Pieces(rest))
    decreases |sp|
  {
    var s := sp + rest;
    assert s[1..] == sp[1..] + rest;
    if |sp| > 1 {
      SpacesThenRest(sp[1..], rest);
      var ps := Pieces(s[1..]);
      assert ps == [ps[0]] + ps[1..];
    }
  }

  // ---------------------------------------------------------------------------
  // URIs

  predicate IsAlpha(c: char)
  {
    ('a' <= c <= 'z') || ('A' <= c <= 'Z')
  }

  predicate IsSchemeChar(c: char)
  {
    IsAlpha(c) || ('0' <= c <= '9') || c == '+' || c == '-' || c == '.'
  }

  /** URI.isAbsolute: the reference starts with a scheme (section 3.1 of RFC 3986) and a colon. */
  predicate IsAbsolute(uri: string)
  {
    match IndexOf(uri, ':')
    case None => false
    case Some(i) => i > 0 && IsAlpha(uri[0]) && forall j :: 0 <= j < i ==> IsSchemeChar(uri[j])
  }

  /**
   * URIUtils.resolveRelativeURI: a base without a scheme is rejected; otherwise the reference is
   * resolved against it (resolution itself is the function resolve).
   */
  function ResolveRelativeUri(baseUri: string, path: string, resolve: (string, string) -> string): (r: Result<string>)
    ensures r.Err? <==> !IsAbsolute(baseUri)
    ensures r.Ok? ==> r.value == resolve(baseUri, path)
  {
    if !IsAbsolute(baseUri) then Err(IllegalArgument("Base URI has no scheme component: " + baseUri))
    else Ok(resolve(baseUri, path))
  }

  /**
   * Where a schema location points: an absolute location as is; a relative one against the
   * source's system id, or against baseURI when that gives a file that does not exist.
   */
  function ResolveLocation(location: string, systemId: Option<string>, baseUri: Option<string>,
                           resolve: (string, string) -> string, fileExists: string -> bool): (r: Result<string>)
    ensures IsAbsolute(location) || systemId.None? ==> r == Ok(location)
    ensures !IsAbsolute(location) && systemId.Some? && !IsAbsolute(systemId.value) ==> r.Err?
    ensures !IsAbsolute(location) && systemId.Some? && IsAbsolute(systemId.value) ==>
      var fromSystem := resolve(systemId.value, location);
      (StartsWith(fromSystem, "file") && !fileExists(fromSystem) && baseUri.Some? ==>
        r == ResolveRelativeUri(baseUri.value, location, resolve)) &&
      (!(StartsWith(fromSystem, "file") && !fileExists(fromSystem) && baseUri.Some?) ==> r == Ok(fromSystem))
  {
    if IsAbsolute(location) || systemId.None? then Ok(location)
    else
      match ResolveRelativeUri(systemId.value, location, resolve)
      case Err(e) => Err(e)
      case Ok(schemaRef) =>
        if StartsWith(schemaRef, "file") && !fileExists(schemaRef) && baseUri.Some? then
          ResolveRelativeUri(baseUri.value, location, resolve)
        else Ok(schemaRef)
  }

  // ---------------------------------------------------------------------------
  // The pair scan

  /** The first even position holding the namespace, scanning (namespace, location) pairs from position from. */
  function FirstPair(tokens: seq<string>, namespace: string, from: nat): (r: Option<nat>)
    requires from % 2 == 0
    ensures r.Some? ==> from <= r.value < |tokens| && r.value % 2 == 0 && tokens[r.value] == namespace
    ensures forall i :: from <= i < (if r.Some? then r.value else |tokens|) && i % 2 == 0 ==> tokens[i] != namespace
    decreases |tokens| - from
  {
    if from >= |tokens| then None
    else if tokens[from] == namespace then Some(from)
    else FirstPair(tokens, namespace, from + 2)
  }

  /** The schema reference for the document element's namespace, given the schemaLocation tokens. */
  function PairLocation(tokens: seq<string>, namespace: string, systemId: Option<string>, baseUri: Option<string>,
                        resolve: (string, string) -> string, fileExists: string -> bool): Result<Option<string>>
  {
    match FirstPair(tokens, namespace, 0)
    case None => Ok(None)
    case Some(i) =>
      if i + 1 >= |tokens| then Err(IndexOutOfBounds("schemaLocation has a namespace without a location"))
      else
        match ResolveLocation(tokens[i + 1], systemId, baseUri, resolve, fileExists)
        case Err(e) => Err(e)
        case Ok(loc) => Ok(Some(loc))
  }

  /** The loop over the tokens, stepping by two and stopping at the first pair for the namespace. */
  method ScanPairs(uriValues: seq<string>, namespace: string, systemId: Option<string>, baseUri: Option<string>,
                   resolve: (string, string) -> string, fileExists: string -> bool) returns (r: Result<Option<string>>)
    ensures r == PairLocation(uriValues, namespace, systemId, baseUri, resolve, fileExists)
  {
    var i := 0;
    while i < |uriValues|
      invariant i % 2 == 0
      invariant FirstPair(uriValues, namespace, 0) == FirstPair(uriValues, namespace, i)
      decreases |uriValues| - i
    {
      if uriValues[i] == namespace {
        if i + 1 >= |uriValues| {
          return Err(IndexOutOfBounds("schemaLocation has a namespace without a location"));
        }
        var resolved := ResolveLocation(uriValues[i + 1], systemId, baseUri, resolve, fileExists);
        if resolved.Err? {
          return Err(resolved.error);
        }
        return Ok(Some(resolved.value));
      }
      i := i + 2;
    }
    return Ok(None);
  }

  /** extractSchemaReference as written: the attribute is split with split("\\s"). */
  method ExtractSchemaReferenceAsWritten(namespace: string, schemaLocation: Option<string>, systemId: Option<string>,
                                         baseUri: Option<string>, resolve: (string, string) -> string,
                                         fileExists: string -> bool) returns (r: Result<Option<string>>)
    ensures schemaLocation.None? ==> r == Ok(None)
    ensures schemaLocation.Some? ==>
      r == PairLocation(JavaSplitWhitespace(schemaLocation.value), namespace, systemId, baseUri, resolve, fileExists)
  {
    var uriValues: seq<string> := [];
    if schemaLocation.Some? {
      uriValues := JavaSplitWhitespace(schemaLocation.value);
    }
    r := ScanPairs(uriValues, namespace, systemId, baseUri, resolve, fileExists);
  }

  /**
   * extractSchemaReference, reading xsi:schemaLocation as the list of (namespace, location) pairs
   * it is: items are separated by any run of whitespace.
   */
  method ExtractSchemaReference(namespace: string, schemaLocation: Option<string>, systemId: Option<string>,
                                baseUri: Option<string>, resolve: (string, string) -> string,
                                fileExists: string -> bool) returns (r: Result<Option<string>>)
    ensures schemaLocation.None? ==> r == Ok(None)
    ensures schemaLocation.Some? ==>
      r == PairLocation(ListItems(schemaLocation.value), namespace, systemId, baseUri, resolve, fileExists)
  {
    var uriValues: seq<string> := [];
    if schemaLocation.Some? {
      uriValues := ListItems(schemaLocation.value);
    }
    r := ScanPairs(uriValues, namespace, systemId, baseUri, resolve, fileExists);
  }

  /** With pairs laid out with any spacing, the location paired with the first matching namespace is found. */
  lemma PairsFound(pairs: seq<(string, string)>, gap: nat, namespace: string, k: nat,
                   systemId: Option<string>, baseUri: Option<string>, resolve: (string, string) -> string, fileExists: string -> bool)
    requires gap >= 1 && k < |pairs| && pairs[k].0 == namespace
    requires forall j :: 0 <= j < k ==> pairs[j].0 != namespace
    requires forall j :: 0 <= j < |pairs| ==> pairs[j].0 != [] && NoWhitespace(pairs[j].0) && pairs[j].1 != [] && NoWhitespace(pairs[j].1)
    requires IsAbsolute(pairs[k].1)
    ensures PairLocation(ListItems(Spaced(Flatten(pairs), gap)), namespace, systemId, baseUri, resolve, fileExists) == Ok(Some(pairs[k].1))
  {
    var items := Flatten(pairs);
    FlattenItems(pairs);
    ListItemsOfSpaced(items, gap);
    FlattenNamespaces(pairs, namespace, k);
    FirstPairFrom(items, namespace, 0, 2 * k);
  }

  lemma FlattenItems(pairs: seq<(string, string)>)
    requires forall j :: 0 <= j < |pairs| ==> pairs[j].0 != [] && NoWhitespace(pairs[j].0) && pairs[j].1 != [] && NoWhitespace(pairs[j].1)
    ensures forall i :: 0 <= i < |Flatten(pairs)| ==> Flatten(pairs)[i] != [] && NoWhitespace(Flatten(pairs)[i])
  {
    var items := Flatten(pairs);
    forall i | 0 <= i < |items| ensures items[i] != [] && NoWhitespace(items[i]) {
      var j := i / 2;
      assert 0 <= j < |pairs|;
      if i % 2 == 0 {
        assert i == 2 * j;
        assert items[i] == pairs[j].0;
      } else {
        assert i == 2 * j + 1;
        assert items[i] == pairs[j].1;
      }
    }
  }

  lemma FlattenNamespaces(pairs: seq<(string, string)>, namespace: string, k: nat)
    requires k < |pairs| && forall j :: 0 <= j < k ==> pairs[j].0 != namespace
    ensures forall i :: 0 <= i < 2 * k && i % 2 == 0 ==> Flatten(pairs)[i] != namespace
  {
    var items := Flatten(pairs);
    forall i | 0 <= i < 2 * k && i % 2 == 0 ensures items[i] != namespace {
      var j := i / 2;
      assert i == 2 * j;
    }
  }

  lemma {:induction false} FirstPairFrom(tokens: seq<string>, namespace: string, from: nat, i: nat)
    requires from % 2 == 0 && i % 2 == 0 && from <= i < |tokens| && tokens[i] == namespace
    requires forall j :: from <= j < i && j % 2 == 0 ==> tokens[j] != namespace
    ensures FirstPair(tokens, namespace, from) == Some(i)
    decreases i - from
  {
    if from < i {
      FirstPairFrom(tokens, namespace, from + 2, i);
    }
  }

  /** Namespace, location, namespace, location, ... */
  function Flatten(pairs: seq<(string, string)>): (r: seq<string>)
    ensures |r| == 2 * |pairs|
    ensures forall j :: 0 <= j < |pairs| ==> r[2 * j] == pairs[j].0 && r[2 * j + 1] == pairs[j].1
  {
    if pairs == [] then [] else [pairs[0].0, pairs[0].1] + Flatten(pairs[1..])
  }

  const WFS_NS: string := "http://www.opengis.net/wfs/2.0"
  const WFS_XSD: string := "http://schemas.opengis.net/wfs/2.0/wfs.xsd"

  lemma ConstantsHaveNoWhitespace()
    ensures NoWhitespace(WFS_NS) && NoWhitespace(WFS_XSD)
  {
    AboveSpaceHasNoWhitespace(WFS_NS);
    AboveSpaceHasNoWhitespace(WFS_XSD);
  }

  /** Characters above the space character are none of the whitespace characters. */
  lemma AboveSpaceHasNoWhitespace(s: string)
    requires forall i :: 0 <= i < |s| ==> s[i] > ' '
    ensures NoWhitespace(s)
  {
  }

  /** A namespace, two spaces and a location give three pieces, the middle one empty. */
  lemma DoubleSpacedPieces(ns: string, loc: string)
    requires NoWhitespace(ns) && NoWhitespace(loc)
    ensures Pieces(ns + "  " + loc) == [ns, "", loc]
  {
    PiecesSplit(ns, " " + loc);
    PiecesSplit("", loc);
    assert "  " == " " + " ";
    Regroup(ns, " ", " ", loc);
    assert " " + loc == [] + " " + loc;
  }

  /**
   * Two spaces between namespace and location: split("\\s") yields an empty token in between,
   * so the location read for the namespace is the empty reference, not the schema.
   */
  lemma DoubleSpaceMisreadAsWritten(resolve: (string, string) -> string, fileExists: string -> bool)
    ensures JavaSplitWhitespace(WFS_NS + "  " + WFS_XSD) == [WFS_NS, "", WFS_XSD]
    ensures PairLocation(JavaSplitWhitespace(WFS_NS + "  " + WFS_XSD), WFS_NS, None, None, resolve, fileExists) == Ok(Some(""))
  {
    var s := WFS_NS + "  " + WFS_XSD;
    assert !NoWhitespace(s) by {
      assert s[|WFS_NS|] == ' ';
    }
    ConstantsHaveNoWhitespace();
    DoubleSpacedPieces(WFS_NS, WFS_XSD);
    var tokens := [WFS_NS, "", WFS_XSD];
    assert DropTrailingEmpty(tokens) == tokens;
    assert FirstPair(tokens, WFS_NS, 0) == Some(0);
    assert IndexOf("", ':') == None;
  }

  /** A word without whitespace followed by one whitespace character ends the first piece. */
  lemma {:induction false} PiecesSplit(w: string, rest: string)
    requires NoWhitespace(w)
    ensures Pieces(w + " " + rest) == [w] + Pieces(rest)
    decreases |w|
  {
    var s := w + " " + rest;
    if w == [] {
      assert s[1..] == rest;
    } else {
      assert s[1..] == w[1..] + " " + rest;
      PiecesSplit(w[1..], rest);
      assert [w[0]] + w[1..] == w;
    }
  }

  lemma NonEmptyOfThree(a: string, b: string)
    requires a != [] && b != [] && NoWhitespace(a) && NoWhitespace(b)
    ensures NonEmpty([a, "", b]) == [a, b]
  {
    var ps := [a, "", b];
    assert [b][1..] == [] && NonEmpty([b]) == [b];
    assert ["", b][1..] == [b] && NonEmpty(["", b]) == [b];
    assert ps[1..] == ["", b];
  }

  /** A scheme name followed by a colon makes a reference absolute. */
  lemma AbsoluteByScheme(scheme: string, rest: string)
    requires scheme != [] && IsAlpha(scheme[0]) && forall j :: 0 <= j < |scheme| ==> IsSchemeChar(scheme[j])
    ensures IsAbsolute(scheme + ":" + rest)
  {
    var s := scheme + ":" + rest;
    assert ':' !in scheme by {
      forall j | 0 <= j < |scheme| ensures scheme[j] != ':' {
        assert IsSchemeChar(scheme[j]);
      }
    }
    FirstSeparatorSplits(scheme, ':', rest);
  }

  lemma SchemaUrlIsAbsolute()
    ensures IsAbsolute(WFS_XSD)
  {
    HttpIsAbsolute(WFS_XSD);
  }

  /** Any reference beginning "http:" is absolute. */
  lemma HttpIsAbsolute(s: string)
    requires |s| >= 5 && s[0] == 'h' && s[1] == 't' && s[2] == 't' && s[3] == 'p' && s[4] == ':'
    ensures IsAbsolute(s)
  {
    assert s == s[..4] + ":" + s[5..];
    AbsoluteByScheme(s[..4], s[5..]);
  }

  /** Read as a list, the same value yields the schema location. */
  lemma DoubleSpaceReadAsList(resolve: (string, string) -> string, fileExists: string -> bool)
    ensures PairLocation(ListItems(WFS_NS + "  " + WFS_XSD), WFS_NS, None, None, resolve, fileExists) == Ok(Some(WFS_XSD))
  {
    ConstantsHaveNoWhitespace();
    DoubleSpacedPieces(WFS_NS, WFS_XSD);
    NonEmptyOfThree(WFS_NS, WFS_XSD);
    var tokens := [WFS_NS, WFS_XSD];
    assert ListItems(WFS_NS + "  " + WFS_XSD) == tokens;
    assert FirstPair(tokens, WFS_NS, 0) == Some(0);
    SchemaUrlIsAbsolute();
  }
}
