/**
 * The string operations the crawler and the PDF generator rely on: prefix,
 * suffix and substring tests (Python's `startswith`, `endswith` and `in`),
 * ASCII lower-casing (`str.lower` on the characters URLs use), the ordering
 * Python's `sorted` puts strings in, and the decimal rendering of an index.
 */
module Strings {

  predicate StartsWith(s: string, prefix: string) {
    |prefix| <= |s| && s[..|prefix|] == prefix
  }

  predicate EndsWith(s: string, suffix: string) {
    |suffix| <= |s| && s[|s| - |suffix|..] == suffix
  }

  /** `needle` occurs in `s` starting at index `i`. */
  predicate OccursAt(s: string, needle: string, i: int) {
    0 <= i && i + |needle| <= |s| && s[i..i + |needle|] == needle
  }

  /** Python's `needle in s` on strings. */
  predicate Contains(s: string, needle: string) {
    exists i :: 0 <= i <= |s| - |needle| && OccursAt(s, needle, i)
  }

  /** Appending a character that `needle` does not hold creates no new occurrence of it. */
  lemma {:induction false} ContainsAppend(s: string, c: char, needle: string)
    requires c !in needle
    ensures Contains(s + [c], needle) <==> Contains(s, needle)
  {
    var t := s + [c];
    if Contains(t, needle) {
      var i :| 0 <= i <= |t| - |needle| && OccursAt(t, needle, i);
      if |needle| == 0 {
        assert OccursAt(s, needle, 0);
      } else {
        assert i + |needle| <= |s| by {
          assert needle[|needle| - 1] in needle;
          assert t[i..i + |needle|][|needle| - 1] == t[i + |needle| - 1];
        }
        assert t[i..i + |needle|] == s[i..i + |needle|];
        assert OccursAt(s, needle, i);
      }
    }
    if Contains(s, needle) {
      var i :| 0 <= i <= |s| - |needle| && OccursAt(s, needle, i);
      assert t[i..i + |needle|] == s[i..i + |needle|];
      assert OccursAt(t, needle, i);
    }
  }

  /** A string that lacks some character of `needle` does not contain `needle`. */
  lemma AbsentChar(s: string, needle: string, k: int)
    requires 0 <= k < |needle| && needle[k] !in s
    ensures !Contains(s, needle)
  {
    forall i | 0 <= i <= |s| - |needle|
      ensures !OccursAt(s, needle, i)
    {
      assert s[i + k] in s;
      assert s[i..i + |needle|][k] == s[i + k];
    }
  }

  function LowerChar(c: char): char {
    if 'A' <= c <= 'Z' then (c as int + 32) as char else c
  }

  /** `str.lower()` restricted to ASCII letters. */
  function Lower(s: string): string {
    seq(|s|, i requires 0 <= i < |s| => LowerChar(s[i]))
  }

  /** Lower-casing commutes with slicing. */
  lemma LowerSlice(s: string, i: int, j: int)
    requires 0 <= i <= j <= |s|
    ensures Lower(s)[i..j] == Lower(s[i..j])
  {
  }

  predicate NoUpperCase(s: string) {
    forall i :: 0 <= i < |s| ==> !('A' <= s[i] <= 'Z')
  }

  function UpperChar(c: char): char {
    if 'a' <= c <= 'z' then (c as int - 32) as char else c
  }

  function Upper(s: string): string {
    seq(|s|, i requires 0 <= i < |s| => UpperChar(s[i]))
  }

  /** A string without capitals is its own lower-case form, and so is the lower-case form of its upper-case form. */
  lemma LowerOfUpper(s: string)
    requires NoUpperCase(s)
    ensures Lower(s) == s && Lower(Upper(s)) == s
  {
    forall i | 0 <= i < |s|
      ensures LowerChar(UpperChar(s[i])) == s[i]
    {
    }
  }

  /** Python's `<` on `str`: lexicographic by code point, a proper prefix first. */
  predicate Less(a: string, b: string)
    decreases |a|
  {
    |b| > 0 && (|a| == 0 || a[0] < b[0] || (a[0] == b[0] && Less(a[1..], b[1..])))
  }

  lemma {:induction false} LessIrreflexive(a: string)
    ensures !Less(a, a)
    decreases |a|
  {
    if |a| > 0 {
      LessIrreflexive(a[1..]);
    }
  }

  lemma {:induction false} LessTransitive(a: string, b: string, c: string)
    requires Less(a, b) && Less(b, c)
    ensures Less(a, c)
    decreases |a|
  {
    if |a| > 0 && a[0] == b[0] && b[0] == c[0] {
      LessTransitive(a[1..], b[1..], c[1..]);
    }
  }

  lemma {:induction false} LessTotal(a: string, b: string)
    ensures a == b || Less(a, b) || Less(b, a)
    decreases |a|
  {
    if |a| > 0 && |b| > 0 && a[0] == b[0] {
      LessTotal(a[1..], b[1..]);
      if a[1..] == b[1..] {
        assert a == [a[0]] + a[1..] && b == [b[0]] + b[1..];
      }
    }
  }

  lemma LessAsymmetric(a: string, b: string)
    requires Less(a, b)
    ensures !Less(b, a)
  {
    if Less(b, a) {
      LessTransitive(a, b, a);
      LessIrreflexive(a);
    }
  }

  /** A proper prefix comes first. */
  lemma {:induction false} ProperPrefixLess(a: string, b: string)
    requires |a| < |b| && b[..|a|] == a
    ensures Less(a, b)
    decreases |a|
  {
    if |a| > 0 {
      assert a[0] == b[0];
      assert b[1..][..|a| - 1] == a[1..];
      ProperPrefixLess(a[1..], b[1..]);
    }
  }

  predicate StrictlySorted(s: seq<string>) {
    forall i, j :: 0 <= i < j < |s| ==> Less(s[i], s[j])
  }

  /**
   * Two strictly increasing sequences with the same elements are equal, so
   * a strictly sorted listing of a set is determined by the set alone.
   */
  lemma {:induction false} SortedListingUnique(a: seq<string>, b: seq<string>)
    requires StrictlySorted(a) && StrictlySorted(b)
    requires forall u :: u in a <==> u in b
    ensures a == b
    decreases |a|
  {
    assert a == [] <==> b == [] by {
      if a != [] {
        assert a[0] in a;
      }
      if b != [] {
        assert b[0] in b;
      }
    }
    if a != [] {
      assert a[0] in b;
      assert b[0] in a;
      if a[0] != b[0] {
        var i :| 0 <= i < |b| && b[i] == a[0];
        var j :| 0 <= j < |a| && a[j] == b[0];
        assert Less(b[0], a[0]) && Less(a[0], b[0]);
        LessAsymmetric(a[0], b[0]);
      }
      forall u
        ensures u in a[1..] <==> u in b[1..]
      {
        if u in a[1..] {
          var i :| 1 <= i < |a| && a[i] == u;
          LessIrreflexive(a[0]);
          assert u in a;
          var k :| 0 <= k < |b| && b[k] == u;
          assert k != 0;
          assert b[1..][k - 1] == u;
        }
        if u in b[1..] {
          var i :| 1 <= i < |b| && b[i] == u;
          LessIrreflexive(b[0]);
          assert u in b;
          var k :| 0 <= k < |a| && a[k] == u;
          assert k != 0;
          assert a[1..][k - 1] == u;
        }
      }
      SortedListingUnique(a[1..], b[1..]);
      assert a == [a[0]] + a[1..] && b == [b[0]] + b[1..];
    }
  }

  predicate IsDigit(c: char) {
    '0' <= c <= '9'
  }

  function DigitChar(d: nat): char
    requires d < 10
  {
    ('0' as int + d) as char
  }

  /** `str(n)` for a natural number: its decimal digits, without leading zeros. */
  function DecimalString(n: nat): (s: string)
    ensures |s| > 0
    ensures forall i :: 0 <= i < |s| ==> IsDigit(s[i])
    decreases n
  {
    if n < 10 then [DigitChar(n)] else DecimalString(n / 10) + [DigitChar(n % 10)]
  }

  /** The number a string of decimal digits denotes (the inverse of DecimalString). */
  function DecimalValue(s: string): nat
    requires forall i :: 0 <= i < |s| ==> IsDigit(s[i])
    decreases |s|
  {
    if s == [] then 0
    else
      assert IsDigit(s[|s| - 1]);
      DecimalValue(s[..|s| - 1]) * 10 + (s[|s| - 1] as int - '0' as int)
  }

  lemma {:induction false} DecimalRoundTrip(n: nat)
    ensures DecimalValue(DecimalString(n)) == n
    decreases n
  {
    var s := DecimalString(n);
    if n >= 10 {
      DecimalRoundTrip(n / 10);
      assert s[..|s| - 1] == DecimalString(n / 10);
    }
  }

  lemma DecimalInjective(m: nat, n: nat)
    requires DecimalString(m) == DecimalString(n)
    ensures m == n
  {
    DecimalRoundTrip(m);
    DecimalRoundTrip(n);
  }

}
