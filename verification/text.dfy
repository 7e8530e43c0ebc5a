/** Character classes, maximal runs and decimal numerals: the pieces of the
    two regular expressions and of the number-to-text conversions that the
    playlist code relies on. */
module Text {
  import opened Wrappers

  /** `\d` of a JavaScript regular expression: the ASCII digits. */
  predicate IsDigit(c: char) {
    '0' <= c <= '9'
  }

  /** The class `[a-zA-Z0-9_-]` of playlist identifiers. */
  predicate IsIdChar(c: char) {
    ('a' <= c <= 'z') || ('A' <= c <= 'Z') || IsDigit(c) || c == '_' || c == '-'
  }

  /** Length of the longest run of characters in `inClass` starting at `i`:
      what a greedy `[...]+` or `[...]*` consumes there. */
  function Span(s: string, i: nat, inClass: char -> bool): (n: nat)
    requires i <= |s|
    ensures i + n <= |s|
    ensures forall k :: i <= k < i + n ==> inClass(s[k])
    ensures i + n == |s| || !inClass(s[i + n])
    decreases |s| - i
  {
    if i < |s| && inClass(s[i]) then 1 + Span(s, i + 1, inClass) else 0
  }

  /** A run that is all in the class and stopped by the end of the text or by
      a character outside it is the maximal run. */
  lemma SpanUnique(s: string, i: nat, inClass: char -> bool, n: nat)
    requires i + n <= |s|
    requires forall k :: i <= k < i + n ==> inClass(s[k])
    requires i + n == |s| || !inClass(s[i + n])
    ensures Span(s, i, inClass) == n
  {
  }

  function DigitValue(c: char): nat
    requires IsDigit(c)
  {
    (c as int - '0' as int) as nat
  }

  function DigitChar(d: nat): (c: char)
    requires d < 10
  {
    ('0' as int + d) as char
  }

  predicate AllDigits(ds: string) {
    forall k :: 0 <= k < |ds| ==> IsDigit(ds[k])
  }

  /** The value `parseInt` gives a string of decimal digits (leading zeros
      allowed), without the precision limit of a double. */
  function DigitsValue(ds: string): nat
    requires AllDigits(ds)
  {
    if |ds| == 0 then 0 else 10 * DigitsValue(ds[..|ds| - 1]) + DigitValue(ds[|ds| - 1])
  }

  /** The decimal text JavaScript prints for a non-negative integer in a
      template literal. */
  function NatToString(n: nat): (r: string)
    ensures |r| > 0
    ensures AllDigits(r)
    ensures n == 0 <==> r == "0"
    ensures r[0] == '0' ==> n == 0
  {
    if n < 10 then [DigitChar(n)] else NatToString(n / 10) + [DigitChar(n % 10)]
  }

  /** Reading back the printed numeral gives the number. */
  lemma {:induction false} DigitsValueOfNatToString(n: nat)
    ensures DigitsValue(NatToString(n)) == n
  {
    if n >= 10 {
      var r := NatToString(n);
      assert r[..|r| - 1] == NatToString(n / 10);
      DigitsValueOfNatToString(n / 10);
    }
  }

  /** `parseInt` applied to a greedy `\d+` at position `i`: the value and the
      position just after the digits, or None when no digit is there. */
  function ReadNat(s: string, i: nat): (r: Option<(nat, nat)>)
    requires i <= |s|
    ensures r.None? <==> i == |s| || !IsDigit(s[i])
    ensures r.Some? ==> i < r.value.1 <= |s|
    ensures r.Some? ==> forall k :: i <= k < r.value.1 ==> IsDigit(s[k])
    ensures r.Some? ==> r.value.1 == |s| || !IsDigit(s[r.value.1])
    ensures r.Some? ==> r.value.0 == DigitsValue(s[i..r.value.1])
  {
    var n := Span(s, i, IsDigit);
    if n == 0 then None else Some((DigitsValue(s[i..i + n]), i + n))
  }

  /** A printed numeral followed by the end of the text or by a non-digit is
      read back whole. */
  lemma ReadNatOfNatToString(s: string, i: nat, n: nat)
    requires i + |NatToString(n)| <= |s|
    requires s[i..i + |NatToString(n)|] == NatToString(n)
    requires i + |NatToString(n)| == |s| || !IsDigit(s[i + |NatToString(n)|])
    ensures ReadNat(s, i) == Some((n, i + |NatToString(n)|))
  {
    var t := NatToString(n);
    forall k | i <= k < i + |t|
      ensures IsDigit(s[k])
    {
      assert s[k] == t[k - i];
    }
    SpanUnique(s, i, IsDigit, |t|);
    DigitsValueOfNatToString(n);
  }

  /** What follows a known front part of a suffix. */
  lemma SkipFront(s: string, i: nat, a: string, b: string)
    requires i <= |s| && s[i..] == a + b
    ensures i + |a| <= |s| && s[i + |a|..] == b
  {
    assert s[i + |a|..] == s[i..][|a|..];
  }
}
