/**
 * Decimal text of natural numbers: std::to_string on a statement number and std::stoll on a
 * constant's text, as the evaluator and the query printer use them.
 */
module Decimal {
  import opened Wrappers

  predicate IsDigit(c: char) { '0' <= c <= '9' }

  predicate AllDigits(s: string) { forall i :: 0 <= i < |s| ==> IsDigit(s[i]) }

  function DigitChar(d: nat): (c: char)
    requires d < 10
    ensures IsDigit(c) && (c as int) - ('0' as int) == d
  {
    ('0' as int + d) as char
  }

  /** std::to_string of a non-negative number: its digits, with no leading zero. */
  function NatText(n: nat): (r: string)
    ensures |r| >= 1 && AllDigits(r)
    ensures |r| > 1 ==> r[0] != '0'
    ensures n < 10 <==> |r| == 1
  {
    if n < 10 then [DigitChar(n)] else NatText(n / 10) + [DigitChar(n % 10)]
  }

  /** The number a string of digits denotes. */
  function DigitsValue(s: string): nat
    requires AllDigits(s)
  {
    if s == [] then 0 else 10 * DigitsValue(s[..|s| - 1]) + ((s[|s| - 1] as int) - ('0' as int))
  }

  /** Reading the text of n back gives n. */
  lemma {:induction false} ValueOfText(n: nat)
    ensures DigitsValue(NatText(n)) == n
  {
    if n >= 10 {
      var t := NatText(n);
      assert t[..|t| - 1] == NatText(n / 10);
      ValueOfText(n / 10);
    }
  }

  /** Different numbers have different texts. */
  lemma TextInjective(a: nat, b: nat)
    ensures NatText(a) == NatText(b) <==> a == b
  {
    if NatText(a) == NatText(b) {
      ValueOfText(a);
      ValueOfText(b);
    }
  }

  /** The length of the maximal run of digits at the start of s. */
  function DigitPrefix(s: string): (n: nat)
    ensures n <= |s| && AllDigits(s[..n])
    ensures n < |s| ==> !IsDigit(s[n])
  {
    if s == [] || !IsDigit(s[0]) then 0
    else
      var k := DigitPrefix(s[1..]);
      assert s[..k + 1] == [s[0]] + s[1..][..k];
      k + 1
  }

  /** The largest long long; std::stoll throws out_of_range above it. */
  const LongLongMax: nat := 0x7FFF_FFFF_FFFF_FFFF

  /** std::stoll on text without sign or leading blanks: the value of the leading digits, a
   *  failure when there are none, and a failure when that value does not fit a long long. */
  function Stoll(s: string): (r: Result<nat>)
    ensures r.Ok? <==> |s| > 0 && IsDigit(s[0]) && DigitsValue(s[..DigitPrefix(s)]) <= LongLongMax
    ensures r.Ok? ==> r.value <= LongLongMax
    ensures AllDigits(s) && |s| > 0 ==> (r.Ok? <==> DigitsValue(s) <= LongLongMax)
    ensures AllDigits(s) && r.Ok? ==> r.value == DigitsValue(s)
  {
    if s == [] || !IsDigit(s[0]) then Err("stoll: no conversion")
    else
      var n := DigitPrefix(s);
      assert AllDigits(s) ==> n == |s| && s[..n] == s;
      var v := DigitsValue(s[..n]);
      if v > LongLongMax then Err("stoll: out of range") else Ok(v)
  }

  /** stoll reads to_string back, up to the largest long long, and fails above it. */
  lemma StollOfText(n: nat)
    ensures n <= LongLongMax ==> Stoll(NatText(n)) == Ok(n)
    ensures n > LongLongMax ==> Stoll(NatText(n)).Err?
  {
    ValueOfText(n);
  }

  /** A canonical digit string is the text of its value. */
  lemma {:induction false} CanonicalText(c: string)
    requires AllDigits(c) && |c| >= 1 && (|c| > 1 ==> c[0] != '0')
    ensures NatText(DigitsValue(c)) == c
  {
    if |c| > 1 {
      var p := c[..|c| - 1];
      assert p[0] == c[0];
      CanonicalText(p);
      PositiveValue(p);
      var d := (c[|c| - 1] as int) - ('0' as int);
      assert DigitsValue(c) == 10 * DigitsValue(p) + d;
      assert DigitsValue(c) / 10 == DigitsValue(p) && DigitsValue(c) % 10 == d;
      assert c == p + [c[|c| - 1]];
    }
  }

  /** A digit string that does not start with '0' denotes a positive number. */
  lemma {:induction false} PositiveValue(c: string)
    requires AllDigits(c) && |c| >= 1 && c[0] != '0'
    ensures DigitsValue(c) >= 1
  {
    if |c| > 1 {
      var p := c[..|c| - 1];
      assert p[0] == c[0];
      PositiveValue(p);
    }
  }
}
