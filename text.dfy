/** The string operations the search relies on: name comparison
    (`localeCompare`), lower-casing (`toLowerCase`), substring search
    (`includes`) and the decimal rendering of a count (template literals). */
module Text {

  /** Three-way lexicographic comparison by character code: negative, zero or
      positive as `a` sorts before, equal to or after `b`. */
  function StrCompare(a: string, b: string): (c: int)
    ensures -1 <= c <= 1
    ensures c == 0 <==> a == b
  {
    if a == [] then (if b == [] then 0 else -1)
    else if b == [] then 1
    else if a[0] < b[0] then -1
    else if a[0] > b[0] then 1
    else
      assert a == [a[0]] + a[1..] && b == [b[0]] + b[1..];
      StrCompare(a[1..], b[1..])
  }

  /** Swapping the arguments negates the comparison. */
  lemma {:induction false} StrCompareAntisymmetric(a: string, b: string)
    ensures StrCompare(b, a) == -StrCompare(a, b)
  {
    if a != [] && b != [] && a[0] == b[0] {
      StrCompareAntisymmetric(a[1..], b[1..]);
    }
  }

  /** "Sorts no later than" is transitive. */
  lemma {:induction false} StrCompareTransitive(a: string, b: string, c: string)
    requires StrCompare(a, b) <= 0 && StrCompare(b, c) <= 0
    ensures StrCompare(a, c) <= 0
  {
    if a != [] && b != [] && c != [] && a[0] == b[0] && b[0] == c[0] {
      StrCompareTransitive(a[1..], b[1..], c[1..]);
    }
  }

  /** Lower-cases one ASCII letter; every other character is left as is. */
  function LowerChar(c: char): char
  {
    if 'A' <= c <= 'Z' then (c as int - 'A' as int + 'a' as int) as char else c
  }

  /** `toLowerCase`, on ASCII letters: each upper-case letter becomes its
      lower-case partner, 32 code points further on, and every other
      character is kept. */
  function ToLower(s: string): (r: string)
    ensures |r| == |s|
    ensures forall k :: 0 <= k < |s| && 'A' <= s[k] <= 'Z' ==> r[k] as int == s[k] as int + 32
    ensures forall k :: 0 <= k < |s| && !('A' <= s[k] <= 'Z') ==> r[k] == s[k]
    ensures forall k :: 0 <= k < |r| ==> !('A' <= r[k] <= 'Z')
  {
    seq(|s|, k requires 0 <= k < |s| => LowerChar(s[k]))
  }

  /** `a` and `b` spell the same word up to the case of ASCII letters. */
  predicate SameUpToCase(a: string, b: string)
  {
    |a| == |b| &&
    forall k :: 0 <= k < |a| ==>
      a[k] == b[k] ||
      ('A' <= a[k] <= 'Z' && b[k] as int == a[k] as int + 32) ||
      ('A' <= b[k] <= 'Z' && a[k] as int == b[k] as int + 32)
  }

  /** Words that differ only in the case of their letters lower-case alike. */
  lemma SameUpToCaseLowersAlike(a: string, b: string)
    requires SameUpToCase(a, b)
    ensures ToLower(a) == ToLower(b)
  {
    forall k | 0 <= k < |a| ensures ToLower(a)[k] == ToLower(b)[k] {
      if 'A' <= a[k] <= 'Z' {
        assert ToLower(a)[k] as int == a[k] as int + 32;
      }
      if 'A' <= b[k] <= 'Z' {
        assert ToLower(b)[k] as int == b[k] as int + 32;
      }
    }
  }

  /** `s.includes(t)`: `t` occurs in `s` at some position. */
  predicate Includes(s: string, t: string): (r: bool)
    ensures r ==> |t| <= |s|
  {
    exists i | 0 <= i <= |s| - |t| :: OccursAt(s, t, i)
  }

  /** `t` occurs in `s` starting at position `i`. */
  predicate OccursAt(s: string, t: string, i: int)
  {
    0 <= i <= |s| - |t| && s[i..i + |t|] == t
  }

  /** Every string includes the empty string. */
  lemma IncludesEmpty(s: string)
    ensures Includes(s, "")
  {
    assert OccursAt(s, "", 0);
  }

  function Digit(d: int): (c: char)
    requires 0 <= d < 10
    ensures '0' <= c <= '9'
  {
    ('0' as int + d) as char
  }

  predicate AllDigits(s: string)
  {
    forall k :: 0 <= k < |s| ==> '0' <= s[k] <= '9'
  }

  /** The decimal rendering of `n`, as a template literal writes a count. */
  function NatToString(n: nat): (s: string)
    ensures |s| >= 1 && AllDigits(s)
  {
    if n < 10 then [Digit(n)] else NatToString(n / 10) + [Digit(n % 10)]
  }

  /** The number a string of decimal digits denotes. */
  function DigitsValue(s: string): nat
    requires AllDigits(s)
  {
    if s == [] then 0 else DigitsValue(s[..|s| - 1]) * 10 + (s[|s| - 1] as int - '0' as int)
  }

  /** Reading back the rendering of `n` gives `n`. */
  lemma {:induction false} NatToStringRoundTrip(n: nat)
    ensures DigitsValue(NatToString(n)) == n
  {
    if n >= 10 {
      NatToStringRoundTrip(n / 10);
      var s := NatToString(n);
      assert s[..|s| - 1] == NatToString(n / 10);
    }
  }

  /** Different counts render differently. */
  lemma NatToStringInjective(m: nat, n: nat)
    requires NatToString(m) == NatToString(n)
    ensures m == n
  {
    NatToStringRoundTrip(m);
    NatToStringRoundTrip(n);
  }

  /** A run of digits followed by a text that starts with a non-digit splits
      in one way only. */
  lemma {:induction false} DigitsPrefixUnique(d1: string, t1: string, d2: string, t2: string)
    requires AllDigits(d1) && AllDigits(d2)
    requires t1 != [] && !('0' <= t1[0] <= '9')
    requires t2 != [] && !('0' <= t2[0] <= '9')
    requires d1 + t1 == d2 + t2
    ensures d1 == d2 && t1 == t2
  {
    var x := d1 + t1;
    assert forall k :: 0 <= k < |d1| ==> '0' <= x[k] <= '9';
    assert !('0' <= x[|d1|] <= '9');
    assert forall k :: 0 <= k < |d2| ==> '0' <= x[k] <= '9';
    assert !('0' <= x[|d2|] <= '9');
    assert d1 == (d1 + t1)[..|d1|] == (d2 + t2)[..|d2|] == d2;
    assert t1 == (d1 + t1)[|d1|..] == (d2 + t2)[|d2|..] == t2;
  }
}
