/**
  Lowercase hexadecimal rendering of natural numbers, as Python's
  '%x' % n (no padding) and uuid.UUID.hex (fixed width, zero padded)
  produce it, with the decoding that inverts both.
 */
module Hex {

  predicate IsHexDigit(c: char) {
    '0' <= c <= '9' || 'a' <= c <= 'f'
  }

  predicate AllHexDigits(s: string) {
    forall i :: 0 <= i < |s| ==> IsHexDigit(s[i])
  }

  function DigitValue(c: char): (d: nat)
    requires IsHexDigit(c)
    ensures d < 16
  {
    if c <= '9' then c as int - '0' as int else c as int - 'a' as int + 10
  }

  /** The lowercase digit for a value below 16; DigitValue undoes it. */
  function HexDigit(d: nat): (c: char)
    requires d < 16
    ensures IsHexDigit(c) && DigitValue(c) == d
  {
    if d < 10 then ('0' as int + d) as char else ('a' as int + d - 10) as char
  }

  lemma DigitRoundTrip(c: char)
    requires IsHexDigit(c)
    ensures HexDigit(DigitValue(c)) == c
  {
  }

  /** The number a string of hex digits denotes, most significant digit first. */
  function HexValue(s: string): nat
    requires AllHexDigits(s)
  {
    if s == [] then 0 else 16 * HexValue(s[..|s| - 1]) + DigitValue(s[|s| - 1])
  }

  function Pow16(k: nat): (p: nat)
    ensures p > 0
  {
    if k == 0 then 1 else 16 * Pow16(k - 1)
  }

  /**
    Python's '%x' % n: lowercase digits, no prefix, no zero padding
    (zero itself is "0").
   */
  function LowerHex(n: nat): (s: string)
    ensures |s| > 0 && AllHexDigits(s)
    ensures |s| > 1 ==> s[0] != '0'
    ensures HexValue(s) == n
    decreases n
  {
    if n < 16 then [HexDigit(n)]
    else
      var t := LowerHex(n / 16);
      var s := t + [HexDigit(n % 16)];
      assert s[..|s| - 1] == t;
      s
  }

  /** The last `width` hex digits of n, zero padded: '%0*x' for n below 16^width. */
  function FixedHex(n: nat, width: nat): (s: string)
    ensures |s| == width && AllHexDigits(s)
    ensures n < Pow16(width) ==> HexValue(s) == n
  {
    if width == 0 then []
    else
      var t := FixedHex(n / 16, width - 1);
      var s := t + [HexDigit(n % 16)];
      assert s[..|s| - 1] == t;
      assert n < Pow16(width) ==> n / 16 < Pow16(width - 1);
      s
  }

  lemma {:induction false} ZeroValueAllZeros(s: string)
    requires AllHexDigits(s) && HexValue(s) == 0
    ensures forall i :: 0 <= i < |s| ==> s[i] == '0'
  {
    if s != [] {
      ZeroValueAllZeros(s[..|s| - 1]);
      assert forall i :: 0 <= i < |s| - 1 ==> s[i] == s[..|s| - 1][i];
    }
  }

  /**
    LowerHex is the only canonical spelling: any digit string without a
    leading zero (other than "0" itself) that denotes n is LowerHex(n).
   */
  lemma {:induction false} LowerHexCanonical(s: string, n: nat)
    requires |s| > 0 && AllHexDigits(s) && (|s| > 1 ==> s[0] != '0')
    requires HexValue(s) == n
    ensures s == LowerHex(n)
    decreases |s|
  {
    var t, c := s[..|s| - 1], s[|s| - 1];
    if |s| == 1 {
      DigitRoundTrip(c);
    } else {
      assert t[0] == s[0];
      if HexValue(t) == 0 {
        ZeroValueAllZeros(t);
        assert false;
      }
      assert n / 16 == HexValue(t) && n % 16 == DigitValue(c);
      LowerHexCanonical(t, n / 16);
      DigitRoundTrip(c);
      assert s == t + [c];
    }
  }
}
