/** Ordered iteration over finite sets.

    Qt's QMap iterates its keys in ascending order, and several operations of the
    library (batch writes, committing shadow values, serializing an entry, rebuilding
    the activity list) depend on that order. This module gives the ascending
    enumeration of a set of integers and of a set of strings, the latter ordered the
    way QString's operator< orders them (UTF-16 code unit by code unit, a proper prefix
    first).
 */
module Ordered {

  // ---------------------------------------------------------------- integers

  ghost predicate StrictlyIncreasing(s: seq<int>) {
    forall i, j :: 0 <= i < j < |s| ==> s[i] < s[j]
  }

  /** `m` is the least element of `s`. */
  predicate IsLeastInt(m: int, s: set<int>) {
    m in s && forall x :: x in s ==> m <= x
  }

  lemma {:induction false} MinIntExists(s: set<int>)
    requires s != {}
    ensures exists m :: IsLeastInt(m, s)
  {
    assert (forall x :: x !in s) ==> s == {};
    var y :| y in s;
    if s == {y} {
      assert IsLeastInt(y, s);
    } else {
      MinIntExists(s - {y});
      var m :| IsLeastInt(m, s - {y});
      var w := if y < m then y else m;
      forall x | x in s
        ensures w <= x
      {
        if x != y {
          assert x in s - {y};
        }
      }
      assert IsLeastInt(w, s);
    }
  }

  /** The least element of a non-empty set. */
  function MinInt(s: set<int>): (m: int)
    requires s != {}
    ensures m in s
    ensures forall x :: x in s ==> m <= x
  {
    MinIntExists(s);
    var m :| IsLeastInt(m, s);
    m
  }

  /** The elements of `s` in ascending order, each once: the order of QMap::keys(). */
  function SortedInts(s: set<int>): (r: seq<int>)
    ensures StrictlyIncreasing(r)
    ensures forall x :: x in r <==> x in s
    ensures |r| == |s|
    decreases s
  {
    if s == {} then []
    else
      var m := MinInt(s);
      var rest := SortedInts(s - {m});
      assert forall x :: x in rest ==> m < x;
      [m] + rest
  }

  lemma ConsIncreasing(x: int, s: seq<int>)
    requires StrictlyIncreasing(s)
    requires forall y :: y in s ==> x < y
    ensures StrictlyIncreasing([x] + s)
  {
    forall i, j | 0 <= i < j < |[x] + s|
      ensures ([x] + s)[i] < ([x] + s)[j]
    {
      assert ([x] + s)[j] == s[j - 1] && s[j - 1] in s;
      if i > 0 {
        assert ([x] + s)[i] == s[i - 1];
      }
    }
  }

  lemma {:induction false} StrictlyIncreasingUnique(a: seq<int>, b: seq<int>)
    requires StrictlyIncreasing(a) && StrictlyIncreasing(b)
    requires forall x :: x in a <==> x in b
    ensures a == b
    decreases |a|
  {
    if |a| > 0 {
      assert a[0] in a;
    }
    if |b| > 0 {
      assert b[0] in b;
    }
    if a != [] && b != [] {
      assert a[0] in a && b[0] in b;
      var i :| 0 <= i < |b| && b[i] == a[0];
      var j :| 0 <= j < |a| && a[j] == b[0];
      assert a[0] <= a[j] && b[0] <= b[i];
      forall x
        ensures x in a[1..] <==> x in b[1..]
      {
        if x in a[1..] {
          var p :| 1 <= p < |a| && a[p] == x;
          assert a[0] < x;
        }
        if x in b[1..] {
          var p :| 1 <= p < |b| && b[p] == x;
          assert b[0] < x;
        }
        assert x in a <==> x == a[0] || x in a[1..];
        assert x in b <==> x == b[0] || x in b[1..];
      }
      StrictlyIncreasingUnique(a[1..], b[1..]);
      assert a == [a[0]] + a[1..] && b == [b[0]] + b[1..];
    }
  }

  /** The ascending enumeration of a set is the only strictly increasing listing of it. */
  lemma SortedIntsUnique(s: set<int>, r: seq<int>)
    requires StrictlyIncreasing(r)
    requires forall x :: x in r <==> x in s
    ensures r == SortedInts(s)
  {
    StrictlyIncreasingUnique(r, SortedInts(s));
  }

  // ---------------------------------------------------------------- strings

  /** The place of a character in UTF-16 code-unit order. QString stores a character
      above U+FFFF as a surrogate pair whose leading unit lies in 0xD800..0xDBFF, so such
      a character sorts after U+D7FF and before U+E000, and among themselves by code
      point (the leading unit first, then the trailing one). */
  function UnitRank(c: char): (r: int)
    ensures c as int < 0xD800 ==> r == c as int
    ensures 0xD800 <= r <= 0x10_D7FF <==> c as int >= 0x1_0000
  {
    var n := c as int;
    if n < 0xD800 then n
    else if n >= 0x1_0000 then 0xD800 + (n - 0x1_0000)
    else n + 0x10_0000
  }

  /** Different characters have different ranks, so the first differing character
      always decides a comparison. */
  lemma UnitRankInjective(c: char, d: char)
    requires c != d
    ensures UnitRank(c) != UnitRank(d)
  {
  }

  /** QString's operator<: lexicographic on UTF-16 code units, a proper prefix first.
      The first differing character decides, by its UTF-16 rank. */
  predicate StrLess(a: string, b: string)
    decreases |a|
  {
    if |a| == 0 then |b| > 0
    else if |b| == 0 then false
    else if a[0] != b[0] then UnitRank(a[0]) < UnitRank(b[0])
    else StrLess(a[1..], b[1..])
  }

  /** A character outside the Basic Multilingual Plane sorts before U+FF01 (its leading
      surrogate 0xD83D is the smaller unit), although its code point is larger. */
  lemma SupplementaryBeforeHighBmp()
    ensures StrLess("\U{1F600}", "\U{FF01}") && !StrLess("\U{FF01}", "\U{1F600}")
    ensures StrLess("\U{D7FF}", "\U{1F600}")
  {
  }

  lemma {:induction false} StrLessIrreflexive(a: string)
    ensures !StrLess(a, a)
    decreases |a|
  {
    if |a| > 0 {
      StrLessIrreflexive(a[1..]);
    }
  }

  lemma {:induction false} StrLessTransitive(a: string, b: string, c: string)
    requires StrLess(a, b) && StrLess(b, c)
    ensures StrLess(a, c)
    decreases |a|
  {
    if |a| > 0 && |b| > 0 && |c| > 0 && a[0] == b[0] && b[0] == c[0] {
      StrLessTransitive(a[1..], b[1..], c[1..]);
    }
  }

  lemma {:induction false} StrLessTotal(a: string, b: string)
    requires a != b
    ensures StrLess(a, b) || StrLess(b, a)
    decreases |a|
  {
    if |a| > 0 && |b| > 0 && a[0] == b[0] {
      assert a == [a[0]] + a[1..] && b == [b[0]] + b[1..];
      StrLessTotal(a[1..], b[1..]);
    } else if |a| > 0 && |b| > 0 {
      UnitRankInjective(a[0], b[0]);
    }
  }

  lemma {:induction false} StrLessAsymmetric(a: string, b: string)
    requires StrLess(a, b)
    ensures !StrLess(b, a)
  {
    if StrLess(b, a) {
      StrLessTransitive(a, b, a);
      StrLessIrreflexive(a);
    }
  }

  ghost predicate StrictlyAscending(s: seq<string>) {
    forall i, j {:trigger StrLess(s[i], s[j])} :: 0 <= i < j < |s| ==> StrLess(s[i], s[j])
  }

  /** `m` is the least element of `s` in QString order. */
  predicate IsLeastStr(m: string, s: set<string>) {
    m in s && forall x :: x in s && x != m ==> StrLess(m, x)
  }

  lemma {:induction false} MinStrExists(s: set<string>)
    requires s != {}
    ensures exists m :: IsLeastStr(m, s)
  {
    assert (forall x :: x !in s) ==> s == {};
    var y :| y in s;
    if s == {y} {
      assert IsLeastStr(y, s);
    } else {
      MinStrExists(s - {y});
      var m :| IsLeastStr(m, s - {y});
      StrLessTotal(y, m);
      if StrLess(y, m) {
        forall x | x in s && x != y
          ensures StrLess(y, x)
        {
          if x != m {
            StrLessTransitive(y, m, x);
          }
        }
        assert IsLeastStr(y, s);
      } else {
        assert IsLeastStr(m, s);
      }
    }
  }

  lemma LeastStrUnique(s: set<string>, m1: string, m2: string)
    requires IsLeastStr(m1, s) && IsLeastStr(m2, s)
    ensures m1 == m2
  {
    if m1 != m2 {
      StrLessAsymmetric(m1, m2);
    }
  }

  /** The least element of a non-empty set of strings. */
  function MinStr(s: set<string>): (m: string)
    requires s != {}
    ensures m in s
    ensures forall x :: x in s && x != m ==> StrLess(m, x)
  {
    MinStrExists(s);
    assert forall m1, m2 :: IsLeastStr(m1, s) && IsLeastStr(m2, s) ==> m1 == m2 by {
      forall m1, m2 | IsLeastStr(m1, s) && IsLeastStr(m2, s)
        ensures m1 == m2
      {
        LeastStrUnique(s, m1, m2);
      }
    }
    var m :| IsLeastStr(m, s);
    m
  }

  /** The elements of `s` in QString order, each once: the order of a QMap<QString, _>. */
  function SortedStrings(s: set<string>): (r: seq<string>)
    ensures StrictlyAscending(r)
    ensures forall x :: x in r <==> x in s
    ensures |r| == |s|
    decreases s
  {
    if s == {} then []
    else
      var m := MinStr(s);
      var rest := SortedStrings(s - {m});
      assert forall x :: x in rest ==> StrLess(m, x);
      [m] + rest
  }

  // ---------------------------------------------------------------- text helpers

  /** A decimal digit (QChar::isDigit restricted to ASCII). */
  predicate IsDigit(c: char) {
    '0' <= c <= '9'
  }

  /** QString::endsWith with case sensitivity. */
  predicate EndsWith(s: string, suffix: string) {
    |suffix| <= |s| && s[|s| - |suffix|..] == suffix
  }

  /** ASCII upper-casing of one character (QChar::toUpper restricted to ASCII). */
  function UpperAscii(c: char): (u: char)
    ensures 'a' <= c <= 'z' ==> 'A' <= u <= 'Z'
    ensures !('a' <= c <= 'z') ==> u == c
  {
    if 'a' <= c <= 'z' then (c as int - 32) as char else c
  }

  /** ASCII lower-casing of one character. */
  function LowerAscii(c: char): char {
    if 'A' <= c <= 'Z' then (c as int + 32) as char else c
  }

  /** Equality of two strings ignoring ASCII case. */
  predicate EqualsIgnoreCase(a: string, b: string) {
    |a| == |b| && forall i :: 0 <= i < |a| ==> LowerAscii(a[i]) == LowerAscii(b[i])
  }

  /** QString::endsWith(suffix, Qt::CaseInsensitive), ASCII case only. */
  predicate EndsWithIgnoreCase(s: string, suffix: string) {
    |suffix| <= |s| && EqualsIgnoreCase(s[|s| - |suffix|..], suffix)
  }

  /** Decimal text of a natural number, as QString::arg prints it. */
  function NatToString(n: nat): (r: string)
    ensures |r| >= 1
    ensures forall i :: 0 <= i < |r| ==> '0' <= r[i] <= '9'
    decreases n
  {
    var d := ['0' + (n % 10) as char];
    if n < 10 then d else NatToString(n / 10) + d
  }
}
