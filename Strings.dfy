/** String helpers with the semantics of the java.lang.String methods the suite calls. */
module Strings {
  import opened Wrappers

  /** String.trim removes every leading and trailing character whose code is at most U+0020. */
  predicate IsTrimmable(c: char) { c <= ' ' }

  function TrimStart(s: string): (r: string)
    ensures |r| <= |s| && r == s[|s| - |r|..]
    ensures r == [] || !IsTrimmable(r[0])
    ensures forall i :: 0 <= i < |s| - |r| ==> IsTrimmable(s[i])
  {
    if s != [] && IsTrimmable(s[0]) then TrimStart(s[1..]) else s
  }

  function TrimEnd(s: string): (r: string)
    ensures |r| <= |s| && r == s[..|r|]
    ensures r == [] || !IsTrimmable(r[|r| - 1])
    ensures forall i :: |r| <= i < |s| ==> IsTrimmable(s[i])
  {
    if s != [] && IsTrimmable(s[|s| - 1]) then TrimEnd(s[..|s| - 1]) else s
  }

  /** Java's String.trim. */
  function Trim(s: string): string
  {
    TrimEnd(TrimStart(s))
  }

  /** A string that starts and ends with a non-space character is its own trim. */
  predicate IsTrimmed(s: string) { s == [] || (!IsTrimmable(s[0]) && !IsTrimmable(s[|s| - 1])) }

  lemma TrimOfTrimmed(s: string)
    requires IsTrimmed(s)
    ensures Trim(s) == s
  {
  }

  lemma TrimIsTrimmed(s: string)
    ensures IsTrimmed(Trim(s))
  {
    var t := TrimStart(s);
    var r := TrimEnd(t);
    if r != [] {
      assert r[0] == t[0];
    }
  }

  /** Trailing spaces never survive a trim. */
  lemma {:induction false} TrimEndAppendSpace(s: string)
    ensures TrimEnd(s + " ") == TrimEnd(s)
  {
    assert (s + " ")[..|s|] == s;
  }

  /** The parts joined with one separator character between neighbours and none at the ends. */
  function Join(parts: seq<string>, sep: char): (r: string)
    ensures parts == [] ==> r == ""
    ensures |parts| == 1 ==> r == parts[0]
  {
    if |parts| == 0 then ""
    else if |parts| == 1 then parts[0]
    else parts[0] + [sep] + Join(parts[1..], sep)
  }

  /** The parts each followed by the separator, as a StringBuilder loop appends them. */
  function JoinTerminated(parts: seq<string>, sep: char): (r: string)
    ensures |r| >= |parts|
  {
    if parts == [] then "" else parts[0] + [sep] + JoinTerminated(parts[1..], sep)
  }

  lemma {:induction false} JoinTerminatedIsJoinPlusSep(parts: seq<string>, sep: char)
    requires parts != []
    ensures JoinTerminated(parts, sep) == Join(parts, sep) + [sep]
  {
    if |parts| > 1 {
      JoinTerminatedIsJoinPlusSep(parts[1..], sep);
    }
  }

  lemma {:induction false} JoinTerminatedAppend(parts: seq<string>, x: string, sep: char)
    ensures JoinTerminated(parts + [x], sep) == JoinTerminated(parts, sep) + x + [sep]
  {
    if parts == [] {
      assert parts + [x] == [x];
    } else {
      assert (parts + [x])[1..] == parts[1..] + [x];
      JoinTerminatedAppend(parts[1..], x, sep);
    }
  }

  /** Appending three pieces one by one is appending them as one. */
  lemma RegroupMiddle(a: string, b: string, c: string, d: string, e: string)
    ensures a + b + c + d + e == a + (b + c + d) + e
  {
    assert a + b + c + d == a + (b + c + d);
  }

  /** The middle of four appended pieces may be split between its neighbours. */
  lemma Regroup(a: string, b: string, c: string, d: string)
    ensures a + (b + c) + d == a + b + (c + d)
  {
  }

  /** Every part is non-empty and has no leading or trailing space. */
  predicate AllTrimmedNonEmpty(parts: seq<string>)
  {
    forall i :: 0 <= i < |parts| ==> parts[i] != [] && IsTrimmed(parts[i])
  }

  lemma {:induction false} JoinOfTrimmedIsTrimmed(parts: seq<string>)
    requires AllTrimmedNonEmpty(parts)
    ensures IsTrimmed(Join(parts, ' '))
    ensures parts != [] ==> Join(parts, ' ')[0] == parts[0][0]
    ensures parts != [] ==> Join(parts, ' ')[|Join(parts, ' ')| - 1] == parts[|parts| - 1][|parts[|parts| - 1]| - 1]
  {
    if |parts| > 1 {
      JoinOfTrimmedIsTrimmed(parts[1..]);
    }
  }

  /**
   * The loop idiom "append each part and a space, then trim" yields the parts joined
   * by single spaces with nothing at either end.
   */
  lemma TrimmedSpaceTerminatedJoin(parts: seq<string>)
    requires AllTrimmedNonEmpty(parts)
    ensures Trim(JoinTerminated(parts, ' ')) == Join(parts, ' ')
  {
    if parts == [] {
    } else {
      JoinTerminatedIsJoinPlusSep(parts, ' ');
      var j := Join(parts, ' ');
      JoinOfTrimmedIsTrimmed(parts);
      assert TrimStart(j + " ") == j + " ";
      TrimEndAppendSpace(j);
      TrimOfTrimmed(j);
    }
  }

  /** ASCII upper case; other characters are unchanged. */
  function UpperChar(c: char): (r: char)
    ensures 'a' <= c <= 'z' ==> 'A' <= r <= 'Z'
    ensures !('a' <= c <= 'z') ==> r == c
  {
    if 'a' <= c <= 'z' then (c as int - 32) as char else c
  }

  function LowerChar(c: char): (r: char)
    ensures 'A' <= c <= 'Z' ==> 'a' <= r <= 'z'
    ensures !('A' <= c <= 'Z') ==> r == c
  {
    if 'A' <= c <= 'Z' then (c as int + 32) as char else c
  }

  function ToUpper(s: string): (r: string)
    ensures |r| == |s| && forall i :: 0 <= i < |s| ==> r[i] == UpperChar(s[i])
  {
    if s == [] then [] else [UpperChar(s[0])] + ToUpper(s[1..])
  }

  function ToLower(s: string): (r: string)
    ensures |r| == |s| && forall i :: 0 <= i < |s| ==> r[i] == LowerChar(s[i])
  {
    if s == [] then [] else [LowerChar(s[0])] + ToLower(s[1..])
  }

  /** The first index of c in s (String.indexOf), or None for -1. */
  function IndexOf(s: string, c: char): (r: Option<nat>)
    ensures r.Some? ==> r.value < |s| && s[r.value] == c && forall j :: 0 <= j < r.value ==> s[j] != c
    ensures r.None? <==> forall j :: 0 <= j < |s| ==> s[j] != c
  {
    IndexFrom(s, c, 0)
  }

  /** The first position at or after i that holds c. */
  function IndexFrom(s: string, c: char, i: nat): (r: Option<nat>)
    requires i <= |s|
    ensures r.Some? ==> i <= r.value < |s| && s[r.value] == c && forall j :: i <= j < r.value ==> s[j] != c
    ensures r.None? ==> forall j :: i <= j < |s| ==> s[j] != c
    decreases |s| - i
  {
    if i == |s| then None else if s[i] == c then Some(i) else IndexFrom(s, c, i + 1)
  }

  /** A position holding c with no c before it is the one IndexOf finds. */
  lemma IndexOfIsFirst(s: string, c: char, k: nat)
    requires k < |s| && s[k] == c && forall j :: 0 <= j < k ==> s[j] != c
    ensures IndexOf(s, c) == Some(k)
  {
    var r := IndexOf(s, c);
    if r.Some? {
      if r.value < k {
        assert false;
      } else if r.value > k {
        assert false;
      }
    } else {
      assert false;
    }
  }

  lemma IndexOfConcat(a: string, b: string, c: char)
    requires c !in a
    ensures IndexOf(a + b, c) == match IndexOf(b, c) case Some(k) => Some(|a| + k) case None => None
  {
    var s := a + b;
    match IndexOf(b, c)
    case Some(k) =>
      forall j | 0 <= j < |a| + k ensures s[j] != c {
        if j < |a| {
          assert s[j] == a[j];
        } else {
          assert s[j] == b[j - |a|];
        }
      }
      IndexOfIsFirst(s, c, |a| + k);
    case None =>
      forall j | 0 <= j < |s| ensures s[j] != c {
        if j < |a| {
          assert s[j] == a[j];
        } else {
          assert s[j] == b[j - |a|];
        }
      }
  }

  /** In a + [c] + b with no c in a, the first c ends a and b follows it. */
  lemma FirstSeparatorSplits(a: string, c: char, b: string)
    requires c !in a
    ensures IndexOf(a + [c] + b, c) == Some(|a|) && (a + [c] + b)[|a| + 1..] == b
  {
    var t := [c] + b;
    assert a + [c] + b == a + t;
    assert IndexOf(t, c) == Some(0);
    IndexOfConcat(a, t, c);
  }

  predicate StartsWith(s: string, pre: string)
  {
    |pre| <= |s| && s[..|pre|] == pre
  }

  /** String.contains: t occurs in s at some offset. */
  predicate Contains(s: string, t: string)
  {
    exists i :: 0 <= i <= |s| - |t| && OccursAt(s, t, i)
  }

  predicate OccursAt(s: string, t: string, i: int)
  {
    0 <= i <= |s| - |t| && s[i..i + |t|] == t
  }

  /** Decimal digits of a natural number, most significant first. */
  function NatToString(n: nat): (r: string)
    ensures |r| >= 1 && forall i :: 0 <= i < |r| ==> '0' <= r[i] <= '9'
  {
    if n < 10 then [('0' as int + n) as char] else NatToString(n / 10) + [('0' as int + n % 10) as char]
  }

  function DigitsValue(s: string): nat
    requires forall i :: 0 <= i < |s| ==> '0' <= s[i] <= '9'
  {
    if s == [] then 0 else 10 * DigitsValue(s[..|s| - 1]) + (s[|s| - 1] as int - '0' as int)
  }

  lemma {:induction false} NatToStringRoundTrip(n: nat)
    ensures DigitsValue(NatToString(n)) == n
  {
    if n >= 10 {
      var r := NatToString(n);
      assert r[..|r| - 1] == NatToString(n / 10);
      NatToStringRoundTrip(n / 10);
    }
  }
}
