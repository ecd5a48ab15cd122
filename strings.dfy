/** Character-level helpers for the census codes: Python's int(), str.lstrip,
    str.replace and string comparison, written out on seq<char>. */
module Strings {
  import opened Wrappers

  predicate IsDigit(c: char) { '0' <= c <= '9' }

  predicate AllDigits(s: string) { forall i :: 0 <= i < |s| ==> IsDigit(s[i]) }

  function DigitValue(c: char): nat
    requires IsDigit(c)
  {
    c as int - '0' as int
  }

  /** The value of a string of decimal digits, most significant digit first. */
  function DecimalValue(s: string): nat
    requires AllDigits(s)
  {
    if s == [] then 0 else 10 * DecimalValue(s[..|s| - 1]) + DigitValue(s[|s| - 1])
  }

  /** Python's int() on a code string. Only plain ASCII digit strings are accepted;
      everything else (the empty string, letters) is where int() raises. */
  function ParseInt(s: string): (r: Option<nat>)
    ensures r.Some? <==> s != [] && AllDigits(s)
    ensures r.Some? ==> r.value == DecimalValue(s)
  {
    if s != [] && AllDigits(s) then Some(DecimalValue(s)) else None
  }

  /** Python's s.lstrip(c). */
  function StripLeading(s: string, c: char): (r: string)
    ensures |r| <= |s| && r == s[|s| - |r|..]
    ensures r == [] || r[0] != c
    ensures forall i :: 0 <= i < |s| - |r| ==> s[i] == c
  {
    if s != [] && s[0] == c then StripLeading(s[1..], c) else s
  }

  /** A chain of s.replace(x, "0") calls, one per single-character placeholder x. */
  function ZeroPlaceholders(s: string, placeholders: set<char>): (r: string)
    ensures |r| == |s|
    ensures forall i :: 0 <= i < |s| && s[i] in placeholders ==> r[i] == '0'
    ensures forall i :: 0 <= i < |s| && s[i] !in placeholders ==> r[i] == s[i]
  {
    seq(|s|, i requires 0 <= i < |s| => if s[i] in placeholders then '0' else s[i])
  }

  /** Python's s[:n]. */
  function Prefix(s: string, n: nat): (r: string)
    ensures |r| == if |s| <= n then |s| else n
    ensures r <= s
  {
    if |s| <= n then s else s[..n]
  }

  /** A leading zero does not change the value of a digit string. */
  lemma {:induction false} LeadingZeroValue(s: string)
    requires AllDigits(s)
    ensures AllDigits(['0'] + s) && DecimalValue(['0'] + s) == DecimalValue(s)
  {
    var t := ['0'] + s;
    if s != [] {
      assert t[..|t| - 1] == ['0'] + s[..|s| - 1];
      LeadingZeroValue(s[..|s| - 1]);
    } else {
      assert t[..|t| - 1] == [];
    }
  }

  /** Stripping the leading zeros of a digit string keeps its value. */
  lemma {:induction false} StripZerosValue(s: string)
    requires AllDigits(s)
    ensures AllDigits(StripLeading(s, '0'))
    ensures DecimalValue(StripLeading(s, '0')) == DecimalValue(s)
  {
    if s != [] && s[0] == '0' {
      StripZerosValue(s[1..]);
      assert s == ['0'] + s[1..];
      LeadingZeroValue(s[1..]);
    }
  }

  /** A digit string that does not start with '0' has a positive value. */
  lemma {:induction false} LeadingNonZeroValue(s: string)
    requires AllDigits(s) && s != [] && s[0] != '0'
    ensures DecimalValue(s) > 0
  {
    if |s| > 1 {
      LeadingNonZeroValue(s[..|s| - 1]);
    }
  }

  /** Python's a <= b on strings: lexicographic order on code points. */
  predicate LexLeq(a: string, b: string)
    decreases |a|
  {
    a == [] || (b != [] && (a[0] < b[0] || (a[0] == b[0] && LexLeq(a[1..], b[1..]))))
  }

  lemma {:induction false} LexLeqTotal(a: string, b: string)
    ensures LexLeq(a, b) || LexLeq(b, a)
    decreases |a|
  {
    if a != [] && b != [] && a[0] == b[0] {
      LexLeqTotal(a[1..], b[1..]);
    }
  }

  lemma {:induction false} LexLeqAntisymmetric(a: string, b: string)
    requires LexLeq(a, b) && LexLeq(b, a)
    ensures a == b
    decreases |a|
  {
    if a != [] {
      LexLeqAntisymmetric(a[1..], b[1..]);
      assert a == [a[0]] + a[1..] && b == [b[0]] + b[1..];
    }
  }

  lemma {:induction false} LexLeqTransitive(a: string, b: string, c: string)
    requires LexLeq(a, b) && LexLeq(b, c)
    ensures LexLeq(a, c)
    decreases |a|
  {
    if a != [] && a[0] == b[0] && b[0] == c[0] {
      LexLeqTransitive(a[1..], b[1..], c[1..]);
    }
  }
}
