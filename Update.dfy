/** The replacement values the Update tests write into a feature property. */
module UpdateValues {
  import opened Wrappers
  import opened Strings
  import opened AppSchemaUtils

  const INT_MIN: int := -0x8000_0000
  const INT_MAX: int := 0x7FFF_FFFF

  predicate IsDigit(c: char) { '0' <= c <= '9' }

  predicate AllDigits(s: string)
  {
    forall i :: 0 <= i < |s| ==> IsDigit(s[i])
  }

  // ---------------------------------------------------------------------------
  // Integer.parseInt and Integer.toString

  /** Integer.parseInt: an optional sign, at least one decimal digit, and a value within 32 bits. */
  function ParseInt(s: string): (r: Option<int>)
    ensures r.Some? ==> INT_MIN <= r.value <= INT_MAX
  {
    var negative := |s| > 0 && s[0] == '-';
    var digits := if |s| > 0 && (s[0] == '-' || s[0] == '+') then s[1..] else s;
    if digits == [] || !AllDigits(digits) then None
    else
      var v := if negative then -(DigitsValue(digits) as int) else DigitsValue(digits);
      if v < INT_MIN || v > INT_MAX then None else Some(v)
  }

  function IntToString(i: int): (r: string)
  {
    if i < 0 then "-" + NatToString(-i) else NatToString(i)
  }

  /** Reading back a rendered 32-bit integer gives the integer. */
  lemma IntRoundTrip(i: int)
    requires INT_MIN <= i <= INT_MAX
    ensures ParseInt(IntToString(i)) == Some(i)
  {
    if i < 0 {
      NegativeRoundTrip(-i);
    } else {
      NonNegativeRoundTrip(i);
    }
  }

  lemma NonNegativeRoundTrip(n: nat)
    requires n <= INT_MAX
    ensures ParseInt(NatToString(n)) == Some(n)
  {
    var s := NatToString(n);
    NatToStringRoundTrip(n);
    assert IsDigit(s[0]);
  }

  lemma NegativeRoundTrip(n: nat)
    requires 0 < n <= -INT_MIN
    ensures ParseInt("-" + NatToString(n)) == Some(-(n as int))
  {
    var s := "-" + NatToString(n);
    NatToStringRoundTrip(n);
    assert s[1..] == NatToString(n);
  }

  /** int addition of one, wrapping at the 32-bit bound. */
  function Increment(i: int): (r: int)
    requires INT_MIN <= i <= INT_MAX
    ensures INT_MIN <= r <= INT_MAX
    ensures i < INT_MAX ==> r == i + 1
    ensures i == INT_MAX ==> r == INT_MIN
  {
    if i == INT_MAX then INT_MIN else i + 1
  }

  // ---------------------------------------------------------------------------
  // BigDecimal with movePointLeft and toString

  /** A BigDecimal: an unscaled integer and a scale, its value unscaled / 10^scale. */
  datatype Decimal = Decimal(unscaled: int, scale: nat)

  function Pow10(n: nat): (r: nat)
    ensures r >= 1
  {
    if n == 0 then 1 else 10 * Pow10(n - 1)
  }

  function DecimalValue(d: Decimal): real
  {
    d.unscaled as real / Pow10(d.scale) as real
  }

  /** movePointLeft(1): the same digits with one more place after the point. */
  function MovePointLeft(d: Decimal): (r: Decimal)
    ensures r.unscaled == d.unscaled && r.scale == d.scale + 1
  {
    Decimal(d.unscaled, d.scale + 1)
  }

  /** Moving the point one place left divides the value by ten. */
  lemma MovePointLeftDividesByTen(d: Decimal)
    ensures DecimalValue(MovePointLeft(d)) == DecimalValue(d) / 10.0
  {
    var u := d.unscaled as real;
    var p := Pow10(d.scale) as real;
    var q := u / p;
    assert Pow10(d.scale + 1) as real == 10.0 * p;
    assert q * p == u;
    assert (q / 10.0) * (10.0 * p) == u;
  }

  /** A leading sign: whether it is '-', and the text after it. */
  function StripSign(s: string): (r: (bool, string))
  {
    if |s| > 0 && (s[0] == '-' || s[0] == '+') then (s[0] == '-', s[1..]) else (false, s)
  }

  /** Digits with at most one point, at least one digit: the magnitude and the number of fraction digits. */
  function ParseUnsignedDecimal(body: string): (r: Option<(nat, nat)>)
  {
    var (intPart, fracPart) :=
      match IndexOf(body, '.')
      case Some(k) => (body[..k], body[k + 1..])
      case None => (body, "");
    if intPart + fracPart == [] || !AllDigits(intPart + fracPart) then None
    else Some((DigitsValue(intPart + fracPart), |fracPart|))
  }

  /** new BigDecimal(s) for plain notation: an optional sign, digits with at most one point, at least one digit. */
  function ParseDecimal(s: string): (r: Option<Decimal>)
  {
    var (negative, body) := StripSign(s);
    match ParseUnsignedDecimal(body)
    case None => None
    case Some((magnitude, scale)) => Some(Decimal(if negative then -(magnitude as int) else magnitude, scale))
  }

  function Zeros(n: nat): (r: string)
    ensures |r| == n && forall i :: 0 <= i < n ==> r[i] == '0'
  {
    if n == 0 then "" else "0" + Zeros(n - 1)
  }

  /** The digits of the unscaled magnitude with leading zeros so that at least one stands before the point. */
  function PaddedDigits(d: Decimal): (r: string)
    ensures |r| >= d.scale + 1 && AllDigits(r)
  {
    PadLeft(NatToString(if d.unscaled < 0 then -d.unscaled else d.unscaled), d.scale + 1)
  }

  /** Digits with leading zeros up to the given width. */
  function PadLeft(digits: string, width: nat): (r: string)
    requires AllDigits(digits)
    ensures |r| >= width && AllDigits(r)
  {
    if |digits| < width then Zeros(width - |digits|) + digits else digits
  }

  /** Padding with zeros keeps the value of the digits. */
  lemma PadLeftValue(digits: string, width: nat)
    requires AllDigits(digits)
    ensures DigitsValue(PadLeft(digits, width)) == DigitsValue(digits)
  {
    if |digits| < width {
      LeadingZeros(width - |digits|, digits);
    }
  }

  /** The exponent of the leading digit, by which BigDecimal.toString chooses the notation. */
  function AdjustedExponent(d: Decimal): int
  {
    var digits := NatToString(if d.unscaled < 0 then -d.unscaled else d.unscaled);
    |digits| - 1 - d.scale
  }

  /**
   * BigDecimal.toString for a positive scale: plain notation with the point d.scale places from
   * the right, or scientific notation once the leading digit lies more than six places after the point.
   */
  function DecimalToString(d: Decimal): (r: string)
    requires d.scale > 0
  {
    var sign := if d.unscaled < 0 then "-" else "";
    var digits := NatToString(if d.unscaled < 0 then -d.unscaled else d.unscaled);
    if AdjustedExponent(d) < -6 then
      var mantissa := if |digits| > 1 then digits[..1] + "." + digits[1..] else digits;
      sign + mantissa + "E-" + NatToString(-AdjustedExponent(d))
    else PlainString(d)
  }

  /** Plain notation: the sign, then the padded digits with the point d.scale places from the right. */
  function PlainString(d: Decimal): string
  {
    var padded := PaddedDigits(d);
    (if d.unscaled < 0 then "-" else "") + (padded[..|padded| - d.scale] + "." + padded[|padded| - d.scale..])
  }

  lemma {:induction false} DigitsValueOfZeros(n: nat)
    ensures DigitsValue(Zeros(n)) == 0
    decreases n
  {
    if n > 0 {
      assert Zeros(n)[..n - 1] == Zeros(n - 1) by {
        assert Zeros(n) == Zeros(n - 1) + "0" by { ZerosSnoc(n); }
      }
      DigitsValueOfZeros(n - 1);
    }
  }

  lemma {:induction false} ZerosSnoc(n: nat)
    requires n > 0
    ensures Zeros(n) == Zeros(n - 1) + "0"
    decreases n
  {
    if n > 1 {
      ZerosSnoc(n - 1);
    }
  }

  /** Leading zeros do not change the value of a digit string. */
  lemma {:induction false} LeadingZeros(n: nat, s: string)
    requires AllDigits(s)
    ensures AllDigits(Zeros(n) + s) && DigitsValue(Zeros(n) + s) == DigitsValue(s)
    decreases |s|
  {
    var z := Zeros(n) + s;
    if s == [] {
      assert z == Zeros(n);
      DigitsValueOfZeros(n);
    } else {
      LeadingZeros(n, s[..|s| - 1]);
      assert z[..|z| - 1] == Zeros(n) + s[..|s| - 1];
    }
  }

  /** A body "int.frac" of digits splits at its only point. */
  lemma SplitAtPoint(intPart: string, fracPart: string)
    requires AllDigits(intPart)
    ensures IndexOf(intPart + "." + fracPart, '.') == Some(|intPart|)
    ensures (intPart + "." + fracPart)[..|intPart|] == intPart
    ensures (intPart + "." + fracPart)[|intPart| + 1..] == fracPart
  {
    assert '.' !in intPart by {
      forall i | 0 <= i < |intPart| ensures intPart[i] != '.' { assert IsDigit(intPart[i]); }
    }
    IndexOfConcat(intPart, "." + fracPart, '.');
    assert intPart + "." + fracPart == intPart + ("." + fracPart);
  }

  /** Parsing a body of digits with a point. */
  lemma ParseUnsignedPlain(intPart: string, fracPart: string)
    requires AllDigits(intPart + fracPart) && intPart != []
    ensures ParseUnsignedDecimal(intPart + "." + fracPart) == Some((DigitsValue(intPart + fracPart), |fracPart|))
  {
    assert AllDigits(intPart) by {
      forall i | 0 <= i < |intPart| ensures IsDigit(intPart[i]) { assert intPart[i] == (intPart + fracPart)[i]; }
    }
    SplitAtPoint(intPart, fracPart);
  }

  /** The sign is split off a body that starts with a digit. */
  lemma StripSignOfDigits(negative: bool, body: string)
    requires body != [] && IsDigit(body[0])
    ensures StripSign((if negative then "-" else "") + body) == (negative, body)
  {
    if negative {
      assert ("-" + body)[1..] == body;
    } else {
      assert ("" + body) == body;
    }
  }

  lemma PaddedValue(d: Decimal)
    ensures DigitsValue(PaddedDigits(d)) == if d.unscaled < 0 then -d.unscaled else d.unscaled
  {
    var magnitude: nat := if d.unscaled < 0 then -d.unscaled else d.unscaled;
    var digits := NatToString(magnitude);
    assert PaddedDigits(d) == PadLeft(digits, d.scale + 1);
    PadLeftValue(digits, d.scale + 1);
    NatToStringRoundTrip(magnitude);
  }

  /** In plain notation, reading the rendered decimal back gives the same unscaled value and scale. */
  lemma DecimalRoundTrip(d: Decimal)
    requires d.scale > 0 && AdjustedExponent(d) >= -6
    ensures ParseDecimal(DecimalToString(d)) == Some(d)
  {
    PlainRoundTrip(d);
  }

  lemma PlainRoundTrip(d: Decimal)
    requires d.scale > 0
    ensures ParseDecimal(PlainString(d)) == Some(d)
  {
    var padded := PaddedDigits(d);
    var k := |padded| - d.scale;
    var intPart, fracPart := padded[..k], padded[k..];
    var sign := if d.unscaled < 0 then "-" else "";
    PaddedValue(d);
    SplitJoin(padded, k);
    assert PlainString(d) == sign + (intPart + "." + fracPart);
    SignedPartsParse(d.unscaled < 0, intPart, fracPart);
    assert |fracPart| == d.scale;
  }

  lemma SplitJoin(s: string, k: nat)
    requires k <= |s|
    ensures s[..k] + s[k..] == s
  {
  }

  /** A signed integer part and fraction part of digits, joined by a point, parse to their digits' value. */
  lemma SignedPartsParse(negative: bool, intPart: string, fracPart: string)
    requires AllDigits(intPart + fracPart) && intPart != []
    ensures ParseDecimal((if negative then "-" else "") + (intPart + "." + fracPart)) ==
      Some(Decimal(if negative then -(DigitsValue(intPart + fracPart) as int) else DigitsValue(intPart + fracPart), |fracPart|))
  {
    ParseUnsignedPlain(intPart, fracPart);
    BodyStartsWithDigit(intPart, fracPart);
    ParseSigned(negative, intPart + "." + fracPart, DigitsValue(intPart + fracPart), |fracPart|);
  }

  /** A body whose integer part is not empty starts with a digit. */
  lemma BodyStartsWithDigit(intPart: string, fracPart: string)
    requires AllDigits(intPart + fracPart) && intPart != []
    ensures IsDigit((intPart + "." + fracPart)[0])
  {
    assert IsDigit((intPart + fracPart)[0]);
    assert (intPart + "." + fracPart)[0] == (intPart + fracPart)[0];
  }

  /** new BigDecimal on a sign and a body that starts with a digit: the sign applied to what the body reads as. */
  lemma ParseSigned(negative: bool, body: string, magnitude: nat, scale: nat)
    requires body != [] && IsDigit(body[0]) && ParseUnsignedDecimal(body) == Some((magnitude, scale))
    ensures ParseDecimal((if negative then "-" else "") + body) == Some(Decimal(if negative then -(magnitude as int) else magnitude, scale))
  {
    StripSignOfDigits(negative, body);
  }

  // ---------------------------------------------------------------------------
  // newPropertyValue

  /** The clock readings the date and dateTime cases format: the UTC instant and the UTC date. */
  datatype Clock = Clock(instant: string, date: string)

  /** The simple type a property's values take: its own, or the simple content of a complex type. */
  function ValueKind(prop: ElementDecl): (r: Option<BuiltInKind>)
    ensures r.None? <==> prop.typeDef == ComplexType(None)
  {
    match prop.typeDef
    case SimpleType(k) => Some(k)
    case ComplexType(content) => content
  }

  /** The index of the first enumeration value that is not among the known values. */
  function FirstUnused(enumeration: seq<string>, known: seq<string>): (r: Option<nat>)
    ensures r.Some? ==> r.value < |enumeration| && enumeration[r.value] !in known &&
                        forall j :: 0 <= j < r.value ==> enumeration[j] in known
    ensures r.None? ==> forall j :: 0 <= j < |enumeration| ==> enumeration[j] in known
  {
    if enumeration == [] then None
    else if enumeration[0] !in known then Some(0)
    else match FirstUnused(enumeration[1..], known)
      case Some(i) => Some(i + 1)
      case None => None
  }

  /** The value for a type without an enumeration, chosen by its built-in kind. */
  function KindValue(kind: BuiltInKind, known: seq<string>, clock: Clock,
                     halveFloat: string -> Option<string>, halveDouble: string -> Option<string>): (r: Result<string>)
    ensures kind == STRING ==> r == Ok("TEST_VALUE")
    ensures kind == OtherKind("anyURI") ==> r == Ok("http://example.org/test")
    ensures kind in {DATETIME, DATE} ==> r.Ok?
    ensures kind in {FLOAT, DOUBLE, DECIMAL, INTEGER, BOOLEAN} && known == [] ==> r.Err? && r.error.IndexOutOfBounds?
    ensures kind == BOOLEAN && known != [] ==> r == Ok(if known[0] in {"true", "1"} then "false" else "true")
    ensures kind == INTEGER && known != [] ==>
      (ParseInt(known[0]).None? ==> r.Err? && r.error.IllegalArgument?) &&
      (ParseInt(known[0]).Some? ==>
        (r == Ok(IntToString(Increment(ParseInt(known[0]).value))) &&
         ParseInt(r.value) == Some(Increment(ParseInt(known[0]).value))))
    ensures kind == DECIMAL && known != [] ==>
      (ParseDecimal(known[0]).None? ==> r.Err?) &&
      (ParseDecimal(known[0]).Some? ==> r == Ok(DecimalToString(MovePointLeft(ParseDecimal(known[0]).value))))
    ensures !(kind in {STRING, DATETIME, DATE, FLOAT, DOUBLE, DECIMAL, INTEGER, BOOLEAN} || kind == OtherKind("anyURI")) ==>
      r == Ok("UNSUPPORTED_DATATYPE")
  {
    match kind
    case STRING => Ok("TEST_VALUE")
    case DATETIME => Ok(clock.instant)
    case DATE => Ok(clock.date)
    case FLOAT =>
      if known == [] then Err(IndexOutOfBounds("no known value"))
      else if halveFloat(known[0]).None? then Err(IllegalArgument("not a float")) else Ok(halveFloat(known[0]).value)
    case DOUBLE =>
      if known == [] then Err(IndexOutOfBounds("no known value"))
      else if halveDouble(known[0]).None? then Err(IllegalArgument("not a double")) else Ok(halveDouble(known[0]).value)
    case DECIMAL =>
      if known == [] then Err(IndexOutOfBounds("no known value"))
      else (match ParseDecimal(known[0])
        case None => Err(IllegalArgument("not a decimal"))
        case Some(d) => Ok(DecimalToString(MovePointLeft(d))))
    case INTEGER =>
      if known == [] then Err(IndexOutOfBounds("no known value"))
      else (match ParseInt(known[0])
        case None => Err(IllegalArgument("not an int"))
        case Some(i) =>
          IntRoundTrip(Increment(i));
          Ok(IntToString(Increment(i))))
    case BOOLEAN =>
      if known == [] then Err(IndexOutOfBounds("no known value"))
      else Ok(if known[0] == "true" || known[0] == "1" then "false" else "true")
    case OtherKind(name) => if name == "anyURI" then Ok("http://example.org/test") else Ok("UNSUPPORTED_DATATYPE")
    case _ => Ok("UNSUPPORTED_DATATYPE")
  }

  /**
   * newPropertyValue: the first enumeration value not already known, else a value chosen by the
   * built-in kind. A complex type without simple content has no simple type to inspect.
   */
  method NewPropertyValue(prop: ElementDecl, enumeration: seq<string>, known: seq<string>, clock: Clock,
                          halveFloat: string -> Option<string>, halveDouble: string -> Option<string>)
    returns (r: Result<string>)
    ensures ValueKind(prop).None? ==> r.Err? && r.error.NullPointer?
    ensures ValueKind(prop).Some? && FirstUnused(enumeration, known).Some? ==>
      r == Ok(enumeration[FirstUnused(enumeration, known).value])
    ensures ValueKind(prop).Some? && FirstUnused(enumeration, known).None? ==>
      r == KindValue(ValueKind(prop).value, known, clock, halveFloat, halveDouble)
  {
    var kind := ValueKind(prop);
    if kind.None? {
      return Err(NullPointer("no simple type"));
    }
    var i := 0;
    while i < |enumeration|
      invariant 0 <= i <= |enumeration|
      invariant forall j :: 0 <= j < i ==> enumeration[j] in known
    {
      if enumeration[i] !in known {
        assert FirstUnused(enumeration, known) == Some(i) by {
          FirstUnusedIsFirst(enumeration, known, i);
        }
        return Ok(enumeration[i]);
      }
      i := i + 1;
    }
    return KindValue(kind.value, known, clock, halveFloat, halveDouble);
  }

  lemma FirstUnusedIsFirst(enumeration: seq<string>, known: seq<string>, i: nat)
    requires i < |enumeration| && enumeration[i] !in known
    requires forall j :: 0 <= j < i ==> enumeration[j] in known
    ensures FirstUnused(enumeration, known) == Some(i)
  {
  }

  /** The new value is never one of the known values when the enumeration offers another. */
  lemma EnumerationValueIsNew(enumeration: seq<string>, known: seq<string>)
    requires exists v :: v in enumeration && v !in known
    ensures FirstUnused(enumeration, known).Some?
    ensures enumeration[FirstUnused(enumeration, known).value] !in known
  {
    var v :| v in enumeration && v !in known;
    var j :| 0 <= j < |enumeration| && enumeration[j] == v;
  }

  /** With "CA-AB" known, an enumeration listing "CA-AB" then "CA-BC" yields "CA-BC". */
  lemma EnumerationExample()
    ensures FirstUnused(["CA-AB", "CA-BC"], ["CA-AB"]) == Some(1)
  {
    assert "CA-BC" != "CA-AB";
  }
}
