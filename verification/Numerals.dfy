/**
 Positional numerals, shared by the log stream and the response printer. `Digits` says how a
 number is written, `ValueOf` what a numeral denotes; the two are inverse on canonical numerals.
 */
module Numerals {

  const HEX_DIGITS: string := "0123456789ABCDEF"

  datatype Radix = Dec | Hex {
    function Base(): nat { if Dec? then 10 else 16 }
    function Times(n: nat): nat { if Dec? then n * 10 else n * 16 }
    function Quotient(n: nat): (q: nat)
      ensures n > 0 ==> q < n
    {
      if Dec? then n / 10 else n / 16
    }
    function Remainder(n: nat): (d: nat)
      ensures d < Base() && n == Times(Quotient(n)) + d
    {
      if Dec? then n % 10 else n % 16
    }
  }

  function Abs(v: int): nat {
    if v < 0 then -v else v
  }

  function DigitChar(d: nat): char
    requires d < 16
  {
    HEX_DIGITS[d]
  }

  /** The value of a digit; 16 for any other character. */
  function DigitValue(c: char): nat {
    if '0' <= c <= '9' then (c - '0') as nat
    else if 'A' <= c <= 'F' then (c - 'A') as nat + 10
    else 16
  }

  function Digits(radix: Radix, n: nat): (s: string)
    ensures s != []
    decreases n
  {
    if n < radix.Base() then [DigitChar(n)]
    else Digits(radix, radix.Quotient(n)) + [DigitChar(radix.Remainder(n))]
  }

  predicate AllDigits(radix: Radix, s: string) {
    forall i :: 0 <= i < |s| ==> DigitValue(s[i]) < radix.Base()
  }

  /** Non-empty, digits only, no superfluous leading zero. */
  predicate IsNumeral(radix: Radix, s: string) {
    s != [] && AllDigits(radix, s) && (|s| > 1 ==> s[0] != '0')
  }

  function ValueOf(radix: Radix, s: string): nat {
    if s == [] then 0 else radix.Times(ValueOf(radix, s[..|s| - 1])) + DigitValue(s[|s| - 1])
  }

  function Pow(radix: Radix, k: nat): (p: nat)
    ensures p >= 1
  {
    if k == 0 then 1 else radix.Times(Pow(radix, k - 1))
  }

  lemma DigitRoundTrip(d: nat)
    requires d < 16
    ensures DigitValue(DigitChar(d)) == d
    ensures DigitChar(d) == '0' <==> d == 0
  {
  }

  lemma DigitUnique(c: char)
    requires DigitValue(c) < 16
    ensures DigitChar(DigitValue(c)) == c
  {
  }

  lemma ValueOfAppend(radix: Radix, front: string, c: char)
    ensures ValueOf(radix, front + [c]) == radix.Times(ValueOf(radix, front)) + DigitValue(c)
  {
    assert (front + [c])[..|front|] == front;
  }

  lemma AppendDigit(radix: Radix, front: string, d: nat)
    requires AllDigits(radix, front) && d < radix.Base()
    requires front != [] ==> front[0] != '0'
    ensures var s := front + [DigitChar(d)];
            IsNumeral(radix, s) && ValueOf(radix, s) == radix.Times(ValueOf(radix, front)) + d
  {
    DigitRoundTrip(d);
    ValueOfAppend(radix, front, DigitChar(d));
  }

  /** What Digits writes is a canonical numeral, and it denotes the number. */
  lemma {:induction false} DigitsDenote(radix: Radix, n: nat)
    ensures IsNumeral(radix, Digits(radix, n)) && ValueOf(radix, Digits(radix, n)) == n
    ensures n > 0 ==> Digits(radix, n)[0] != '0'
    decreases n
  {
    if n < radix.Base() {
      AppendDigit(radix, [], n);
      DigitRoundTrip(n);
      assert [] + [DigitChar(n)] == [DigitChar(n)];
    } else {
      DigitsDenote(radix, radix.Quotient(n));
      AppendDigit(radix, Digits(radix, radix.Quotient(n)), radix.Remainder(n));
    }
  }

  lemma DigitsOfAppend(radix: Radix, q: nat, d: nat)
    requires d < radix.Base() && q > 0
    ensures Digits(radix, radix.Times(q) + d) == Digits(radix, q) + [DigitChar(d)]
  {
    var n := radix.Times(q) + d;
    assert radix.Quotient(n) == q && radix.Remainder(n) == d;
  }

  lemma {:induction false} LeadingDigitPositive(radix: Radix, s: string)
    requires s != [] && s[0] != '0' && DigitValue(s[0]) < 16
    ensures ValueOf(radix, s) > 0
  {
    if |s| == 1 {
      DigitUnique(s[0]);
      DigitRoundTrip(DigitValue(s[0]));
    } else {
      LeadingDigitPositive(radix, s[..|s| - 1]);
    }
  }

  lemma NumeralPrefix(radix: Radix, s: string)
    requires IsNumeral(radix, s) && |s| > 1
    ensures IsNumeral(radix, s[..|s| - 1]) && ValueOf(radix, s[..|s| - 1]) > 0
  {
    var front := s[..|s| - 1];
    assert front[0] == s[0];
    assert forall i :: 0 <= i < |front| ==> front[i] == s[i];
    LeadingDigitPositive(radix, front);
  }

  lemma LastDigit(radix: Radix, s: string)
    requires IsNumeral(radix, s)
    ensures s != [] && s == s[..|s| - 1] + [s[|s| - 1]]
    ensures DigitValue(s[|s| - 1]) < radix.Base() && DigitChar(DigitValue(s[|s| - 1])) == s[|s| - 1]
  {
    DigitUnique(s[|s| - 1]);
  }

  lemma OneDigit(radix: Radix, c: char)
    requires DigitValue(c) < radix.Base()
    ensures Digits(radix, ValueOf(radix, [c])) == [c]
  {
    DigitUnique(c);
    ValueOfAppend(radix, [], c);
    assert [] + [c] == [c];
  }

  /** A canonical numeral is the only way to write the number it denotes. */
  lemma {:induction false} NumeralUnique(radix: Radix, s: string)
    requires IsNumeral(radix, s)
    ensures Digits(radix, ValueOf(radix, s)) == s
  {
    hide Digits, ValueOf, DigitValue, DigitChar, IsNumeral;
    LastDigit(radix, s);
    var front, c := s[..|s| - 1], s[|s| - 1];
    if |s| == 1 {
      assert s == [c];
      OneDigit(radix, c);
    } else {
      NumeralPrefix(radix, s);
      NumeralUnique(radix, front);
      ValueOfAppend(radix, front, c);
      DigitsOfAppend(radix, ValueOf(radix, front), DigitValue(c));
    }
  }

  /** A number has at most k digits exactly when it is below the k-th power of the base. */
  lemma {:induction false} DigitsLength(radix: Radix, n: nat, k: nat)
    requires k >= 1
    ensures |Digits(radix, n)| <= k <==> n < Pow(radix, k)
    decreases n
  {
    if n >= radix.Base() && k > 1 {
      DigitsLength(radix, radix.Quotient(n), k - 1);
    }
  }

  /** The decimal string of a signed number. */
  function Decimal(v: int): (s: string)
    ensures s != []
  {
    if v < 0 then "-" + Digits(Dec, -v) else Digits(Dec, v)
  }

  /** The number a decimal string denotes. */
  function DecimalValue(s: string): int {
    if s != [] && s[0] == '-' then -(ValueOf(Dec, s[1..]) as int) else ValueOf(Dec, s)
  }

  /** The decimal string of any number, negative ones included, is canonical and denotes it. */
  lemma DecimalDenotes(v: int)
    ensures DecimalValue(Decimal(v)) == v
    ensures IsNumeral(Dec, if v < 0 then Decimal(v)[1..] else Decimal(v))
  {
    DigitsDenote(Dec, Abs(v));
    if v < 0 {
      assert Decimal(v)[1..] == Digits(Dec, -v);
    } else {
      assert DigitValue(Decimal(v)[0]) < 10;
    }
  }

  /** Every 64-bit value, signed or unsigned, needs at most 20 characters; 16 in base 16. */
  lemma WidthBounds(v: int)
    requires -0x8000_0000_0000_0000 <= v < 0x1_0000_0000_0000_0000
    ensures |Decimal(v)| <= 20
    ensures v >= 0 ==> |Digits(Hex, v)| <= 16
  {
    assert Pow(Dec, 20) == 100_000_000_000_000_000_000 by { PowDec20(); }
    assert Pow(Dec, 19) == 10_000_000_000_000_000_000 by { PowDec20(); }
    assert Pow(Hex, 16) == 0x1_0000_0000_0000_0000 by { PowHex16(); }
    DigitsLength(Dec, Abs(v), if v < 0 then 19 else 20);
    DigitsLength(Hex, Abs(v), 16);
  }

  lemma PowDec20()
    ensures Pow(Dec, 13) == 10_000_000_000_000
    ensures Pow(Dec, 19) == 10_000_000_000_000_000_000
    ensures Pow(Dec, 20) == 100_000_000_000_000_000_000
  {
    assert Pow(Dec, 5) == 100_000;
    assert Pow(Dec, 10) == 10_000_000_000;
    assert Pow(Dec, 15) == 1_000_000_000_000_000;
  }

  lemma PowHex16()
    ensures Pow(Hex, 16) == 0x1_0000_0000_0000_0000
  {
    assert Pow(Hex, 4) == 0x1_0000;
    assert Pow(Hex, 8) == 0x1_0000_0000;
    assert Pow(Hex, 12) == 0x1_0000_0000_0000;
  }
}
