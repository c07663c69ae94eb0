/** QVersionNumber as the serializer uses it: a two-segment version printed as
    `major.minor`, and read back from text as a list of segments (the null version
    being the empty list).
 */
module Versions {
  import opened Ordered

  /** Decimal text of an integer, with a leading minus sign when negative. */
  function IntText(n: int): (s: string)
    ensures n >= 0 ==> s == NatToString(n)
  {
    if n < 0 then "-" + NatToString(-n) else NatToString(n)
  }

  /** QVersionNumber(major, minor).toString(). */
  function VersionText(major: int, minor: int): string {
    IntText(major) + "." + IntText(minor)
  }

  /** The length of the run of decimal digits `s` starts with. */
  function DigitRun(s: string): (n: nat)
    ensures n <= |s|
    ensures forall i :: 0 <= i < n ==> IsDigit(s[i])
    ensures n < |s| ==> !IsDigit(s[n])
    decreases |s|
  {
    if s == [] || !IsDigit(s[0]) then 0 else 1 + DigitRun(s[1..])
  }

  /** The number a string of decimal digits denotes. */
  function DigitsValue(s: string): nat
    requires forall i :: 0 <= i < |s| ==> IsDigit(s[i])
    decreases |s|
  {
    if s == [] then 0
    else
      assert IsDigit(s[|s| - 1]);
      10 * DigitsValue(s[..|s| - 1]) + (s[|s| - 1] as int - '0' as int)
  }

  /** The largest C++ int: QVersionNumber segments are ints, and fromString stops at a
      segment that does not fit. */
  const IntMax: int := 0x7FFF_FFFF

  /** The characters strtoull skips before a number (ASCII white space; the text is
      converted to Latin-1 first, which leaves these characters as they are). */
  predicate IsSpace(c: char) {
    c == ' ' || c == '\t' || c == '\n' || c == '\U{B}' || c == '\U{C}' || c == '\r'
  }

  /** The text after the leading white space. */
  function SkipSpace(s: string): (t: string)
    ensures |t| <= |s|
    ensures t == [] || !IsSpace(t[0])
    decreases |s|
  {
    if s != [] && IsSpace(s[0]) then SkipSpace(s[1..]) else s
  }

  /** Where qstrtoull starts reading digits: after leading white space and one optional
      `+` (a `-` is refused, so the digits that follow it are never read). */
  function SegmentStart(s: string): (t: string)
    ensures |t| <= |s|
  {
    var u := SkipSpace(s);
    if u != [] && u[0] == '+' then u[1..] else u
  }

  /** QVersionNumber::fromString (Qt 5): each segment is read by qstrtoull; the parse stops
      at the first segment with no digits or a value above IntMax, and continues past a
      segment only when a dot follows it. Text whose first segment fails gives the null
      version. */
  function ParseVersion(s: string): (v: seq<int>)
    ensures forall i :: 0 <= i < |v| ==> 0 <= v[i] <= IntMax
    ensures v != [] ==> DigitRun(SegmentStart(s)) > 0
    decreases |s|
  {
    var t := SegmentStart(s);
    var n := DigitRun(t);
    if n == 0 || DigitsValue(t[..n]) > IntMax then []
    else [DigitsValue(t[..n])] + (if n < |t| && t[n] == '.' then ParseVersion(t[n + 1..]) else [])
  }

  // ------------------------------------------------------------------ round trip

  /** The digits of a number's decimal text denote that number. */
  lemma {:induction false} DigitsValueOfText(n: nat)
    ensures DigitsValue(NatToString(n)) == n
    decreases n
  {
    var s := NatToString(n);
    if n >= 10 {
      DigitsValueOfText(n / 10);
      assert s[..|s| - 1] == NatToString(n / 10);
    }
  }

  /** A digit run followed by a non-digit stops exactly at the non-digit. */
  lemma {:induction false} DigitRunStops(a: string, rest: string)
    requires forall i :: 0 <= i < |a| ==> IsDigit(a[i])
    requires rest == [] || !IsDigit(rest[0])
    ensures DigitRun(a + rest) == |a|
    decreases |a|
  {
    if a != [] {
      assert (a + rest)[1..] == a[1..] + rest;
      DigitRunStops(a[1..], rest);
    } else {
      assert a + rest == rest;
    }
  }

  /** Printing a version whose segments are non-negative ints and reading it back gives
      exactly those two segments. */
  lemma VersionRoundTrip(major: int, minor: int)
    requires 0 <= major <= IntMax && 0 <= minor <= IntMax
    ensures ParseVersion(VersionText(major, minor)) == [major, minor]
  {
    var a, b := NatToString(major), NatToString(minor);
    var s := VersionText(major, minor);
    DigitsValueOfText(minor);
    ParseSegment(b, b, []);
    assert ParseVersion(b) == [minor];
    assert s == a + ("." + b);
    DigitsValueOfText(major);
    ParseSegment(s, a, "." + b);
    assert ("." + b)[1..] == b;
    assert ParseVersion(s) == [major] + [minor];
  }

  /** Text starting with a digit is read from its first character. */
  lemma DigitStartsSegment(s: string)
    requires s != [] && IsDigit(s[0])
    ensures SegmentStart(s) == s
  {
  }

  /** A leading run of digits `a` that fits an int, stopped by `rest`, is read as one
      segment; a dot after it continues with the next segment. */
  lemma ParseSegment(s: string, a: string, rest: string)
    requires a != [] && forall i :: 0 <= i < |a| ==> IsDigit(a[i])
    requires DigitsValue(a) <= IntMax
    requires s == a + rest && (rest == [] || !IsDigit(rest[0]))
    ensures ParseVersion(s) ==
      [DigitsValue(a)] + (if rest != [] && rest[0] == '.' then ParseVersion(rest[1..]) else [])
  {
    DigitStartsSegment(s);
    DigitRunStops(a, rest);
    assert s[..|a|] == a;
    assert DigitRun(SegmentStart(s)) == |a|;
    if rest != [] {
      assert s[|a|] == rest[0];
      assert s[|a| + 1..] == rest[1..];
    }
  }

  /** Leading white space before a segment is skipped. */
  lemma SpaceSkipped(c: char, s: string)
    requires IsSpace(c)
    ensures ParseVersion([c] + s) == ParseVersion(s)
  {
    var t := [c] + s;
    assert t[0] == c && t[1..] == s;
    assert SkipSpace(t) == SkipSpace(s);
    assert SegmentStart(t) == SegmentStart(s);
  }

  /** One `+` before the digits of a segment is read as part of the number. */
  lemma PlusSkipped(s: string)
    requires s != [] && IsDigit(s[0])
    ensures ParseVersion("+" + s) == ParseVersion(s)
  {
    var t := "+" + s;
    assert t[0] == '+' && t[1..] == s;
    assert SkipSpace(t) == t;
    assert SegmentStart(t) == s;
    DigitStartsSegment(s);
  }

  /** A segment above IntMax ends the parse: it and everything after it are dropped. */
  lemma OversizedSegmentStops(s: string, a: string, rest: string)
    requires a != [] && forall i :: 0 <= i < |a| ==> IsDigit(a[i])
    requires DigitsValue(a) > IntMax
    requires s == a + rest && (rest == [] || !IsDigit(rest[0]))
    ensures ParseVersion(s) == []
  {
    DigitStartsSegment(s);
    DigitRunStops(a, rest);
    assert s[..|a|] == a;
  }

  /** Text that, after white space and an optional `+`, does not start with a digit is
      the null version. */
  lemma NoDigitsNull(s: string)
    requires DigitRun(SegmentStart(s)) == 0
    ensures ParseVersion(s) == []
  {
  }

  /** Examples of the Qt 5 reading: white space and a plus sign are accepted. */
  lemma SignAndSpaceExamples()
    ensures ParseVersion(" 1.0") == [1, 0]
    ensures ParseVersion("+1.0") == [1, 0]
  {
    OneZero();
    SpaceSkipped(' ', "1.0");
    assert " 1.0" == [' '] + "1.0";
    PlusSkipped("1.0");
  }

  lemma OneZero()
    ensures ParseVersion("1.0") == [1, 0]
  {
    ParseSegment("0", "0", "");
    ParseSegment("1.0", "1", ".0");
  }

  /** A minor segment beyond the int range is dropped: the text reads as the major
      segment alone (so its minor version reads as 0). */
  lemma OversizedMinorDropped(major: int, minor: int)
    requires 0 <= major <= IntMax && minor > IntMax
    ensures ParseVersion(VersionText(major, minor)) == [major]
  {
    var a, b := NatToString(major), NatToString(minor);
    var s := VersionText(major, minor);
    DigitsValueOfText(minor);
    OversizedSegmentStops(b, b, []);
    assert s == a + ("." + b);
    DigitsValueOfText(major);
    ParseSegment(s, a, "." + b);
    assert ("." + b)[1..] == b;
  }

  /** A negative segment prints with a sign, which the parser refuses: the text reads
      back as the null version. */
  lemma NegativeMajorUnreadable(major: int, minor: int)
    requires major < 0
    ensures ParseVersion(VersionText(major, minor)) == []
  {
    var s := VersionText(major, minor);
    assert s[0] == '-';
    assert SegmentStart(s) == s;
  }
}
