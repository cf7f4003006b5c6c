/**
 * The octal conversions the plug-ins lean on: Ruby's String#to_i(8),
 * Integer#to_s(8) and String#rjust.
 */
module Octal {

  predicate IsOctalDigit(c: char) {
    '0' <= c <= '7'
  }

  predicate AllOctal(d: string) {
    forall i :: 0 <= i < |d| ==> IsOctalDigit(d[i])
  }

  function DigitValue(c: char): nat
    requires IsOctalDigit(c)
  {
    c as int - '0' as int
  }

  function DigitChar(d: nat): (c: char)
    requires d < 8
    ensures IsOctalDigit(c) && DigitValue(c) == d
  {
    ('0' as int + d) as char
  }

  function Pow8(n: nat): (p: nat)
    ensures p >= 1
  {
    if n == 0 then 1 else 8 * Pow8(n - 1)
  }

  /** Length of the longest prefix of `s` made only of octal digits. */
  function OctalPrefixLength(s: string): (n: nat)
    ensures n <= |s|
    ensures AllOctal(s[..n])
    ensures n < |s| ==> !IsOctalDigit(s[n])
  {
    if |s| == 0 || !IsOctalDigit(s[0]) then 0
    else
      var rest := OctalPrefixLength(s[1..]);
      assert s[..1 + rest] == [s[0]] + s[1..][..rest];
      1 + rest
  }

  /** The number an all-octal digit string denotes, most significant digit first. */
  function ValueOf(d: string): nat
    requires AllOctal(d)
  {
    if |d| == 0 then 0
    else 8 * ValueOf(d[..|d| - 1]) + DigitValue(d[|d| - 1])
  }

  /**
   * String#to_i(8): the octal digits at the front of `s` are read, the first
   * other character ends the number, and no digit at all reads as 0.
   */
  function ParseOctal(s: string): (r: nat)
    ensures r < Pow8(OctalPrefixLength(s))
    ensures OctalPrefixLength(s) == 0 ==> r == 0
  {
    ValueBound(s[..OctalPrefixLength(s)]);
    ValueOf(s[..OctalPrefixLength(s)])
  }

  /** Integer#to_s(8): octal digits without leading zeros ("0" for zero). */
  function ToOctalString(n: nat): (s: string)
    ensures |s| > 0 && AllOctal(s)
    ensures s[0] == '0' ==> n == 0 && s == "0"
  {
    if n < 8 then [DigitChar(n)]
    else ToOctalString(n / 8) + [DigitChar(n % 8)]
  }

  /** A canonical octal numeral: the form Integer#to_s(8) produces. */
  predicate Canonical(d: string) {
    |d| > 0 && AllOctal(d) && (d[0] == '0' ==> d == "0")
  }

  lemma PrefixOfAllOctal(s: string)
    requires AllOctal(s)
    ensures OctalPrefixLength(s) == |s|
  {
  }

  lemma {:induction false} ValueOfToOctal(n: nat)
    ensures ValueOf(ToOctalString(n)) == n
  {
    if n >= 8 {
      var s := ToOctalString(n);
      ValueOfToOctal(n / 8);
      assert s[..|s| - 1] == ToOctalString(n / 8);
    }
  }

  /** to_i(8) reads back what to_s(8) wrote. */
  lemma ParseOctalOfToOctal(n: nat)
    ensures ParseOctal(ToOctalString(n)) == n
  {
    var s := ToOctalString(n);
    PrefixOfAllOctal(s);
    assert s[..|s|] == s;
    ValueOfToOctal(n);
  }

  lemma {:induction false} LeadingDigitPositive(d: string)
    requires AllOctal(d) && |d| > 0 && d[0] != '0'
    ensures ValueOf(d) > 0
  {
    if |d| > 1 {
      LeadingDigitPositive(d[..|d| - 1]);
    }
  }

  /** to_s(8) writes back every canonical numeral that to_i(8) reads. */
  lemma {:induction false} ToOctalOfValue(d: string)
    requires Canonical(d)
    ensures ToOctalString(ValueOf(d)) == d
  {
    var last := d[|d| - 1];
    if |d| == 1 {
      assert ToOctalString(ValueOf(d)) == [DigitChar(DigitValue(last))];
      assert DigitChar(DigitValue(last)) == last;
    } else {
      var front := d[..|d| - 1];
      assert front[0] == d[0] != '0';
      LeadingDigitPositive(front);
      ToOctalOfValue(front);
      var n := ValueOf(d);
      assert n / 8 == ValueOf(front) && n % 8 == DigitValue(last);
      assert DigitChar(DigitValue(last)) == last;
      assert d == front + [last];
    }
  }

  /** A numeral of k octal digits denotes less than 8^k. */
  lemma {:induction false} ValueBound(d: string)
    requires AllOctal(d)
    ensures ValueOf(d) < Pow8(|d|)
  {
    if |d| > 0 {
      ValueBound(d[..|d| - 1]);
    }
  }

  lemma {:induction false} ValueOfZeros(z: string)
    requires forall i :: 0 <= i < |z| ==> z[i] == '0'
    ensures AllOctal(z) && ValueOf(z) == 0
  {
    if |z| > 0 {
      ValueOfZeros(z[..|z| - 1]);
    }
  }

  /** Zeros in front of an octal numeral do not change what it denotes. */
  lemma {:induction false} ValueOfLeadingZeros(z: string, d: string)
    requires forall i :: 0 <= i < |z| ==> z[i] == '0'
    requires AllOctal(d)
    ensures AllOctal(z + d) && ValueOf(z + d) == ValueOf(d)
  {
    ValueOfZeros(z);
    if |d| == 0 {
      assert z + d == z;
    } else {
      var front := d[..|d| - 1];
      ValueOfLeadingZeros(z, front);
      assert (z + d)[..|z + d| - 1] == z + front;
      assert (z + d)[|z + d| - 1] == d[|d| - 1];
    }
  }

  /** The example of the fileperms documentation: perms '0640' is 416. */
  lemma ParseExample()
    ensures ParseOctal("0640") == 416
  {
    PrefixOfAllOctal("0640");
    assert "0640"[..4] == "0640";
    assert "0640"[..3] == "064";
    assert "064"[..2] == "06";
    assert "06"[..1] == "0";
    assert "0"[..0] == "";
  }

  /**
   * String#rjust(width, fill): `s` padded on the left with `fill` up to
   * `width` characters; a string already that long is returned unchanged.
   */
  function LeftPad(s: string, width: nat, fill: char): (r: string)
    ensures |r| == if |s| >= width then |s| else width
    ensures r[|r| - |s|..] == s
    ensures forall i :: 0 <= i < |r| - |s| ==> r[i] == fill
  {
    if |s| >= width then s else seq(width - |s|, _ => fill) + s
  }
}
