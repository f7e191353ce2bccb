/** A resource identifier of the filter encoding (fes:ResourceId) with its optional version selectors. */
module ResourceIds {
  import opened Wrappers
  import opened Xml
  import XmlUtils
  import Namespaces

  predicate IsDigit(c: char) { '0' <= c <= '9' }

  /** The value of two decimal digits. */
  function TwoDigits(s: string, i: nat): int
    requires i + 2 <= |s|
  {
    (s[i] as int - '0' as int) * 10 + (s[i + 1] as int - '0' as int)
  }

  /** Digits at positions i..i+n of s. */
  predicate DigitsAt(s: string, i: nat, n: nat)
    decreases n
  {
    i + n <= |s| && (n == 0 || (IsDigit(s[i]) && DigitsAt(s, i + 1, n - 1)))
  }

  /** The "[XXX]" offset: "Z", or a sign, two hour digits, ':' and two minute digits, at most 18:00. */
  predicate IsOffset(s: string)
  {
    s == "Z" ||
    (|s| == 6 && (s[0] == '+' || s[0] == '-') && DigitsAt(s, 1, 2) && s[3] == ':' && DigitsAt(s, 4, 2) &&
     TwoDigits(s, 4) <= 59 && TwoDigits(s, 1) * 60 + TwoDigits(s, 4) <= 18 * 60)
  }

  /** Zero digits at positions i..i+n of s. */
  predicate ZerosAt(s: string, i: nat, n: nat)
    decreases n
  {
    i + n <= |s| && (n == 0 || (s[i] == '0' && ZerosAt(s, i + 1, n - 1)))
  }

  /**
   * The texts the pattern "yyyy-MM-dd'T'HH:mm:ss[.SSS][XXX]" parses and resolves (smart resolution):
   * a four-digit year from 0001, month 01-12, day 01-31 (a day past the month's end is clamped, not
   * refused), hour 00-23 or the end of day 24:00:00, minute and second 00-59, then optionally a
   * three-digit fraction (zero at 24:00:00), then optionally an offset.
   */
  predicate IsDateTime(s: string)
  {
    |s| >= 19 &&
    DigitsAt(s, 0, 4) && s[4] == '-' && DigitsAt(s, 5, 2) && s[7] == '-' && DigitsAt(s, 8, 2) &&
    s[10] == 'T' && DigitsAt(s, 11, 2) && s[13] == ':' && DigitsAt(s, 14, 2) && s[16] == ':' && DigitsAt(s, 17, 2) &&
    !ZerosAt(s, 0, 4) &&
    1 <= TwoDigits(s, 5) <= 12 && 1 <= TwoDigits(s, 8) <= 31 &&
    TwoDigits(s, 14) <= 59 && TwoDigits(s, 17) <= 59 &&
    var rest := s[19..];
    var fraction := |rest| >= 4 && rest[0] == '.' && DigitsAt(rest, 1, 3);
    var offset := if fraction then rest[4..] else rest;
    (TwoDigits(s, 11) <= 23 ||
     (TwoDigits(s, 11) == 24 && TwoDigits(s, 14) == 0 && TwoDigits(s, 17) == 0 && (!fraction || ZerosAt(rest, 1, 3)))) &&
    (offset == [] || IsOffset(offset))
  }

  /** A bare date is not a date-time. */
  lemma BareDateRefused()
    ensures !IsDateTime("2016-07-01")
  {
  }

  /** A date-time with an offset is accepted. */
  lemma DateTimeExamples()
    ensures IsDateTime("2016-07-01T00:00:00-07:00")
  {
    var s := "2016-07-01T00:00:00-07:00";
    assert s[19..] == "-07:00";
    assert IsOffset("-07:00");
  }

  /** The end of the example interval is accepted. */
  lemma EndExample()
    ensures IsDateTime("2016-09-30T11:31:00-07:00")
  {
    var s := "2016-09-30T11:31:00-07:00";
    assert s[19..] == "-07:00";
    assert IsOffset("-07:00");
  }

  /** Smart resolution accepts the end of day 24:00:00. */
  lemma EndOfDayAccepted()
    ensures IsDateTime("2016-07-01T24:00:00")
  {
    var s := "2016-07-01T24:00:00";
    assert s[19..] == [];
    assert TwoDigits(s, 11) == 24;
  }

  /** Smart resolution accepts a day past the end of the month (it is clamped to the last day). */
  lemma ClampedDayAccepted()
    ensures IsDateTime("2016-02-30T00:00:00")
  {
    var s := "2016-02-30T00:00:00";
    assert s[19..] == [];
  }

  /** The largest offset, 18:00, is accepted. */
  lemma LargestOffsetAccepted()
    ensures IsDateTime("2016-07-01T00:00:00+18:00")
  {
    var s := "2016-07-01T00:00:00+18:00";
    assert s[19..] == "+18:00";
    assert IsOffset("+18:00");
  }

  /** A second past the end of day is refused. */
  lemma PastEndOfDayRefused()
    ensures !IsDateTime("2016-07-01T24:00:01")
  {
  }

  /** The year 0000 is refused. */
  lemma YearZeroRefused()
    ensures !IsDateTime("0000-07-01T00:00:00")
  {
  }

  /** An offset beyond 18:00 is refused. */
  lemma OffsetBeyondEighteenRefused()
    ensures !IsDateTime("2016-07-01T00:00:00+18:01")
  {
    var s := "2016-07-01T00:00:00+18:01";
    assert s[19..] == "+18:01";
  }

  /** The attribute for a value that is set, nothing for one that is not. */
  function OptionalAttr(name: string, value: Option<string>): (r: seq<Attr>)
    ensures GetAttr(r, name) == value
    ensures forall other :: other != name ==> GetAttr(r, other).None?
  {
    if value.Some? then [Attr(name, value.value)] else []
  }

  /** Looking a name up in two attribute lists in a row. */
  lemma {:induction false} GetAttrConcat(a: seq<Attr>, b: seq<Attr>, n: string)
    ensures GetAttr(a + b, n) == if GetAttr(a, n).Some? then GetAttr(a, n) else GetAttr(b, n)
    decreases |a|
  {
    if a == [] {
      assert a + b == b;
    } else {
      GetAttrConcat(a[1..], b, n);
      assert (a + b)[1..] == a[1..] + b;
    }
  }

  /** The attributes of a fes:ResourceId: rid first, then each optional one that is set, in order. */
  function ResourceIdAttrs(rid: string, previousRid: Option<string>, version: Option<string>,
                           start: Option<string>, end: Option<string>): (r: seq<Attr>)
    ensures GetAttr(r, "rid") == Some(rid)
    ensures GetAttr(r, "previousRid") == previousRid
    ensures GetAttr(r, "version") == version
    ensures GetAttr(r, "startDate") == start
    ensures GetAttr(r, "endDate") == end
  {
    FiveLookups("rid", "previousRid", "version", "startDate", "endDate", rid, previousRid, version, start, end);
    [Attr("rid", rid)] + (OptionalAttr("previousRid", previousRid) + OptionalAttr("version", version) +
                          OptionalAttr("startDate", start) + OptionalAttr("endDate", end))
  }

  /** A required attribute followed by four optional ones, all under different names, are each found by name. */
  lemma FiveLookups(n0: string, n1: string, n2: string, n3: string, n4: string,
                    v0: string, o1: Option<string>, o2: Option<string>, o3: Option<string>, o4: Option<string>)
    requires n0 != n1 && n0 != n2 && n0 != n3 && n0 != n4
    requires n1 != n2 && n1 != n3 && n1 != n4 && n2 != n3 && n2 != n4 && n3 != n4
    ensures var r := [Attr(n0, v0)] + (OptionalAttr(n1, o1) + OptionalAttr(n2, o2) + OptionalAttr(n3, o3) + OptionalAttr(n4, o4));
      GetAttr(r, n0) == Some(v0) && GetAttr(r, n1) == o1 && GetAttr(r, n2) == o2 && GetAttr(r, n3) == o3 && GetAttr(r, n4) == o4
  {
    var a0 := [Attr(n0, v0)];
    var b1, b2, b3, b4 := OptionalAttr(n1, o1), OptionalAttr(n2, o2), OptionalAttr(n3, o3), OptionalAttr(n4, o4);
    var tail := b1 + b2 + b3 + b4;
    AttrsOfFour(b1, b2, b3, b4, n0);
    AttrsOfFour(b1, b2, b3, b4, n1);
    AttrsOfFour(b1, b2, b3, b4, n2);
    AttrsOfFour(b1, b2, b3, b4, n3);
    AttrsOfFour(b1, b2, b3, b4, n4);
    GetAttrConcat(a0, tail, n1);
    GetAttrConcat(a0, tail, n2);
    GetAttrConcat(a0, tail, n3);
    GetAttrConcat(a0, tail, n4);
  }

  lemma AttrsOfFour(b1: seq<Attr>, b2: seq<Attr>, b3: seq<Attr>, b4: seq<Attr>, n: string)
    ensures GetAttr(b1 + b2 + b3 + b4, n) ==
      if GetAttr(b1, n).Some? then GetAttr(b1, n) else if GetAttr(b2, n).Some? then GetAttr(b2, n)
      else if GetAttr(b3, n).Some? then GetAttr(b3, n) else GetAttr(b4, n)
  {
    GetAttrConcat(b1 + b2 + b3, b4, n);
    GetAttrConcat(b1 + b2, b3, n);
    GetAttrConcat(b1, b2, n);
  }

  class ResourceId {
    /** The identifier, fixed at construction. */
    const rid: string
    var previousRid: Option<string>
    var version: Option<string>
    var start: Option<string>
    var end: Option<string>

    constructor (rid: string)
      ensures this.rid == rid
      ensures previousRid.None? && version.None? && start.None? && end.None?
    {
      this.rid := rid;
      previousRid := None;
      version := None;
      start := None;
      end := None;
    }

    method SetPreviousRid(previousRid: string)
      modifies this
      ensures this.previousRid == Some(previousRid)
      ensures version == old(version) && start == old(start) && end == old(end)
    {
      this.previousRid := Some(previousRid);
    }

    method SetVersion(version: string)
      modifies this
      ensures this.version == Some(version)
      ensures previousRid == old(previousRid) && start == old(start) && end == old(end)
    {
      this.version := Some(version);
    }

    /** setStart: only a value in the dateTime pattern is stored; any other leaves start as it was. */
    method SetStart(startDateTime: string)
      modifies this
      ensures start == if IsDateTime(startDateTime) then Some(startDateTime) else old(start)
      ensures previousRid == old(previousRid) && version == old(version) && end == old(end)
    {
      if IsDateTime(startDateTime) {
        start := Some(startDateTime);
      }
    }

    /** setEnd: the same rule for the end of the interval. */
    method SetEnd(endDateTime: string)
      modifies this
      ensures end == if IsDateTime(endDateTime) then Some(endDateTime) else old(end)
      ensures previousRid == old(previousRid) && version == old(version) && start == old(start)
    {
      if IsDateTime(endDateTime) {
        end := Some(endDateTime);
      }
    }

    /** toElement: an empty fes:ResourceId with rid, and each optional attribute exactly when its value is set. */
    function ToElement(): (r: Node)
      reads this
      ensures r.Element? && r.ns == Namespaces.FES && r.local == "ResourceId" && r.children == []
      ensures GetAttr(r.attrs, "rid") == Some(rid)
      ensures GetAttr(r.attrs, "previousRid") == previousRid
      ensures GetAttr(r.attrs, "version") == version
      ensures GetAttr(r.attrs, "startDate") == start
      ensures GetAttr(r.attrs, "endDate") == end
    {
      var e := XmlUtils.CreateElement(QName(Namespaces.FES, "ResourceId"), "");
      e.(attrs := ResourceIdAttrs(rid, previousRid, version, start, end))
    }
  }

  /** An interval with offsets is kept; the previous version stays unset. */
  method ValidTemporalIntervalExample() returns (start: Option<string>, previousRid: Option<string>)
    ensures start == Some("2016-07-01T00:00:00-07:00") && previousRid.None?
  {
    var id := new ResourceId("id-01");
    DateTimeExamples();
    EndExample();
    id.SetEnd("2016-09-30T11:31:00-07:00");
    id.SetStart("2016-07-01T00:00:00-07:00");
    return id.start, id.previousRid;
  }

  /** Bare dates are refused, so start stays unset. */
  method InvalidTimestampsExample() returns (start: Option<string>)
    ensures start.None?
  {
    var id := new ResourceId("id-01");
    BareDateRefused();
    id.SetStart("2016-07-01");
    id.SetEnd("2016-09-30");
    return id.start;
  }
}
