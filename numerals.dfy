/** Decimal rendering of non-negative integers, as JavaScript's
    `Number.prototype.toString()` and `String.prototype.padStart(w, '0')`
    produce it for the whole numbers the timer displays, together with the
    reading-back function that gives the rendered text its meaning. */
module Numerals {

  predicate IsDigit(c: char) {
    '0' <= c <= '9'
  }

  predicate IsDecimal(s: string) {
    forall i :: 0 <= i < |s| ==> IsDigit(s[i])
  }

  function DigitValue(c: char): (d: nat)
    requires IsDigit(c)
    ensures d < 10
  {
    c as int - '0' as int
  }

  function DigitChar(d: nat): (c: char)
    requires d < 10
    ensures IsDigit(c) && DigitValue(c) == d
  {
    (d + '0' as int) as char
  }

  /** The value a string of decimal digits denotes (most significant first). */
  function ParseNat(s: string): nat
    requires IsDecimal(s)
  {
    if s == [] then 0 else ParseNat(s[..|s| - 1]) * 10 + DigitValue(s[|s| - 1])
  }

  /** `n.toString()` for a whole number n >= 0: its decimal digits, no leading zero. */
  function NatToString(n: nat): (s: string)
    ensures IsDecimal(s) && 1 <= |s|
    ensures n < 10 <==> |s| == 1
    ensures 10 <= n < 100 ==> |s| == 2
    ensures |s| > 1 ==> s[0] != '0'
  {
    if n < 10 then [DigitChar(n)] else NatToString(n / 10) + [DigitChar(n % 10)]
  }

  /** Rendering then reading back gives the number again. */
  lemma {:induction false} NatToStringRoundTrip(n: nat)
    ensures ParseNat(NatToString(n)) == n
  {
    if n >= 10 {
      var s := NatToString(n);
      assert s[..|s| - 1] == NatToString(n / 10);
      NatToStringRoundTrip(n / 10);
    }
  }

  function Repeat(c: char, k: nat): (r: string)
    ensures |r| == k
    ensures forall i :: 0 <= i < k ==> r[i] == c
  {
    if k == 0 then [] else [c] + Repeat(c, k - 1)
  }

  /** `s.padStart(width, fill)` for a one-character fill string. */
  function PadStart(s: string, width: nat, fill: char): (r: string)
    ensures |r| == if |s| >= width then |s| else width
    ensures r[|r| - |s|..] == s
    ensures forall i :: 0 <= i < |r| - |s| ==> r[i] == fill
  {
    if |s| >= width then s else Repeat(fill, width - |s|) + s
  }

  lemma {:induction false} ZerosDenoteZero(k: nat)
    ensures IsDecimal(Repeat('0', k)) && ParseNat(Repeat('0', k)) == 0
  {
    if k > 0 {
      var z := Repeat('0', k);
      assert z[..k - 1] == Repeat('0', k - 1);
      ZerosDenoteZero(k - 1);
    }
  }

  /** Leading zeros do not change the value a digit string denotes. */
  lemma {:induction false} LeadingZeros(k: nat, s: string)
    requires IsDecimal(s)
    ensures IsDecimal(Repeat('0', k) + s)
    ensures ParseNat(Repeat('0', k) + s) == ParseNat(s)
  {
    ZerosDenoteZero(k);
    var z := Repeat('0', k) + s;
    if s == [] {
      assert z == Repeat('0', k);
    } else {
      assert z[..|z| - 1] == Repeat('0', k) + s[..|s| - 1];
      LeadingZeros(k, s[..|s| - 1]);
    }
  }

  /** Zero-padding a digit string keeps it a digit string of the same value. */
  lemma ZeroPadKeepsValue(s: string, width: nat)
    requires IsDecimal(s)
    ensures IsDecimal(PadStart(s, width, '0'))
    ensures ParseNat(PadStart(s, width, '0')) == ParseNat(s)
  {
    if |s| < width {
      LeadingZeros(width - |s|, s);
    }
  }

  /** What a zero-padded rendering of n is: digits, of length max(width, digits of n),
      denoting n. */
  lemma PaddedNumeral(n: nat, width: nat)
    ensures var r := PadStart(NatToString(n), width, '0');
      IsDecimal(r) && ParseNat(r) == n && width <= |r|
  {
    NatToStringRoundTrip(n);
    ZeroPadKeepsValue(NatToString(n), width);
  }
}
