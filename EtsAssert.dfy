/** The decisions behind the suite's custom assertions. */
module EtsAssert {
  import opened Wrappers
  import opened Strings
  import opened Xml

  predicate Sorted(s: seq<int>)
  {
    forall k, l :: 0 <= k < l < |s| ==> s[k] <= s[l]
  }

  /** The first n elements of a are in ascending order. */
  predicate SortedPrefix(a: array<int>, n: int)
    requires 0 <= n <= a.Length
    reads a
  {
    forall k, l :: 0 <= k < l < n ==> a[k] <= a[l]
  }

  /** Arrays.sort on an int[]: ascending order, same elements. */
  method SortInPlace(a: array<int>)
    modifies a
    ensures Sorted(a[..])
    ensures multiset(a[..]) == multiset(old(a[..]))
  {
    var i := 0;
    while i < a.Length
      invariant 0 <= i <= a.Length
      invariant SortedPrefix(a, i)
      invariant multiset(a[..]) == multiset(old(a[..]))
    {
      InsertNext(a, i);
      i := i + 1;
    }
    assert SortedPrefix(a, a.Length);
  }

  /** One insertion step: a[i] moves down into the sorted prefix a[..i]. */
  method InsertNext(a: array<int>, i: int)
    requires 0 <= i < a.Length && SortedPrefix(a, i)
    modifies a
    ensures SortedPrefix(a, i + 1)
    ensures multiset(a[..]) == multiset(old(a[..]))
  {
    var j := i;
    while j > 0 && a[j - 1] > a[j]
      invariant 0 <= j <= i
      invariant forall k, l :: 0 <= k < l <= i && l != j ==> a[k] <= a[l]
      invariant 0 < j < i ==> a[j - 1] <= a[j + 1]
      invariant multiset(a[..]) == multiset(old(a[..]))
    {
      Swap(a, j - 1, j);
      j := j - 1;
    }
  }

  method Swap(a: array<int>, x: int, y: int)
    requires 0 <= x < a.Length && 0 <= y < a.Length
    modifies a
    ensures a[..] == old(a[..])[x := old(a[y])][y := old(a[x])]
    ensures multiset(a[..]) == multiset(old(a[..]))
  {
    a[x], a[y] := a[y], a[x];
  }

  /**
   * Arrays.binarySearch on a sorted array: an index holding the key, or -(insertion point) - 1
   * when the key is absent.
   */
  method BinarySearch(a: array<int>, key: int) returns (r: int)
    requires Sorted(a[..])
    ensures 0 <= r ==> r < a.Length && a[r] == key
    ensures r < 0 ==> key !in a[..] && -r - 1 <= a.Length
    ensures r < 0 ==> forall k :: 0 <= k < -r - 1 ==> a[k] < key
    ensures r < 0 ==> forall k :: -r - 1 <= k < a.Length ==> a[k] > key
  {
    var low := 0;
    var high := a.Length - 1;
    while low <= high
      invariant 0 <= low <= high + 1 <= a.Length
      invariant forall k :: 0 <= k < low ==> a[k] < key
      invariant forall k :: high < k < a.Length ==> a[k] > key
    {
      var mid := (low + high) / 2;
      if a[mid] < key {
        low := mid + 1;
      } else if a[mid] > key {
        high := mid - 1;
      } else {
        return mid;
      }
    }
    return -(low + 1);
  }

  /** assertStatusCode: passes iff the actual code is one of the expected ones; the array ends up sorted. */
  method AssertStatusCode(actualCode: int, expectedCodes: array<int>) returns (r: Result<()>)
    modifies expectedCodes
    ensures r.Ok? <==> actualCode in old(expectedCodes[..])
    ensures r.Err? ==> r.error.AssertionFailed?
    ensures Sorted(expectedCodes[..]) && multiset(expectedCodes[..]) == multiset(old(expectedCodes[..]))
  {
    SortInPlace(expectedCodes);
    var index := BinarySearch(expectedCodes, actualCode);
    assert actualCode in expectedCodes[..] <==> actualCode in multiset(expectedCodes[..]);
    if index < 0 {
      return Err(AssertionFailed("Unexpected status code"));
    }
    assert expectedCodes[..][index] == actualCode;
    return Ok(());
  }

  /** The locator rule of assertExceptionReport: no locator, or one that occurs in the attribute ignoring case. */
  predicate LocatorMatches(locatorAttr: string, locator: Option<string>)
  {
    locator.None? || locator.value == [] || Contains(ToLower(locatorAttr), ToLower(locator.value))
  }

  /**
   * assertExceptionReport: the response must hold an ows:Exception with the code (exceptions are
   * those found); when a locator is given, the first one's locator attribute must contain it.
   */
  function AssertExceptionReport(exceptions: seq<Node>, locator: Option<string>): (r: Result<()>)
    ensures exceptions == [] ==> r.Err?
    ensures exceptions != [] ==> (r.Ok? <==> LocatorMatches(Attribute(exceptions[0], "locator"), locator))
    ensures exceptions != [] && (locator.None? || locator.value == []) ==> r.Ok?
  {
    if |exceptions| == 0 then Err(AssertionFailed("Exception not found in response"))
    else if locator.Some? && locator.value != [] &&
            !Contains(ToLower(Attribute(exceptions[0], "locator")), ToLower(locator.value)) then
      Err(AssertionFailed("Expected locator attribute to contain the locator"))
    else Ok(())
  }

  /** Lower-casing forgets any case change. */
  lemma LowerOfUpper(s: string)
    ensures ToLower(ToUpper(s)) == ToLower(s)
  {
    forall i | 0 <= i < |s| ensures ToLower(ToUpper(s))[i] == ToLower(s)[i] {
      var c := s[i];
      if 'a' <= c <= 'z' {
        assert UpperChar(c) as int == c as int - 32;
      }
    }
  }

  /** The locator check ignores case: an upper-cased locator or attribute decides the same way. */
  lemma LocatorIgnoresCase(locatorAttr: string, locator: string)
    ensures LocatorMatches(locatorAttr, Some(ToUpper(locator))) == LocatorMatches(locatorAttr, Some(locator))
    ensures LocatorMatches(ToUpper(locatorAttr), Some(locator)) == LocatorMatches(locatorAttr, Some(locator))
  {
    LowerOfUpper(locator);
    LowerOfUpper(locatorAttr);
  }

  /** assertFeatureAvailability: fails iff the expected availability differs from whether a feature was found. */
  function AssertFeatureAvailability(isAvailable: bool, matchCount: nat): (r: Result<()>)
    ensures r.Ok? <==> (isAvailable <==> matchCount > 0)
  {
    if isAvailable && matchCount == 0 then Err(AssertionFailed("feature not available"))
    else if !isAvailable && matchCount > 0 then Err(AssertionFailed("feature unexpectedly available"))
    else Ok(())
  }

  /** assertXPath: a null context throws; otherwise the expression's boolean value decides. */
  function AssertXPath(context: Option<Node>, holds: bool): (r: Result<()>)
    ensures context.None? ==> r.Err? && r.error.NullPointer?
    ensures context.Some? ==> (r.Ok? <==> holds)
  {
    if context.None? then Err(NullPointer("Context node is null."))
    else if !holds then Err(AssertionFailed("Unexpected result evaluating XPath expression"))
    else Ok(())
  }
}
