/** Printing and reading numbers: decimal as `str` and `int`, hexadecimal as
    `int(s, 16)` and the `064x` format. */
module Numerals {
  import opened Text

  function DigitChar(d: nat): char
    requires d < 16
  {
    if d < 10 then '0' + d as char else 'a' + (d - 10) as char
  }

  function DigitValue(c: char): nat
    requires IsHex(c)
  {
    if IsDigit(c) then (c - '0') as nat else (c - 'a') as nat + 10
  }

  lemma DigitBack(d: nat)
    requires d < 16
    ensures IsHex(DigitChar(d)) && DigitValue(DigitChar(d)) == d && (d < 10 ==> IsDigit(DigitChar(d)))
  {
  }

  lemma CharBack(c: char)
    requires IsHex(c)
    ensures DigitValue(c) < 16 && DigitChar(DigitValue(c)) == c && (IsDigit(c) ==> DigitValue(c) < 10)
  {
  }

  /** Value of the digits in a base. */
  function Value(s: string, base: nat): nat
    requires AllHex(s)
  {
    if s == [] then 0 else Value(s[..|s| - 1], base) * base + DigitValue(s[|s| - 1])
  }

  /** `str(n)` for a number that is not negative. */
  function Decimal(n: nat): (r: string)
    ensures r != [] && AllDigits(r)
  {
    if n < 10 then [DigitChar(n)] else Decimal(n / 10) + [DigitChar(n % 10)]
  }

  /** `str(n)`. */
  function PrintInt(n: int): string {
    if n < 0 then "-" + Decimal(-n) else Decimal(n)
  }

  lemma {:induction false} DecimalValue(n: nat)
    ensures AllHex(Decimal(n)) && Value(Decimal(n), 10) == n
  {
    if n < 10 {
      DigitBack(n);
    } else {
      DecimalValue(n / 10);
      DigitBack(n % 10);
      var s := Decimal(n);
      assert s[..|s| - 1] == Decimal(n / 10);
    }
  }

  /** Different numbers print differently. */
  lemma PrintIntInjective(m: int, n: int)
    requires PrintInt(m) == PrintInt(n)
    ensures m == n
  {
    hide Decimal, Value;
    assert m >= 0 ==> IsDigit(PrintInt(m)[0]);
    assert n >= 0 ==> IsDigit(PrintInt(n)[0]);
    if m >= 0 {
      DecimalValue(m);
      DecimalValue(n);
    } else {
      assert PrintInt(m)[1..] == Decimal(-m) && PrintInt(n)[1..] == Decimal(-n);
      DecimalValue(-m);
      DecimalValue(-n);
    }
  }

  /** The last `width` hexadecimal digits of `v`, zeros in front. */
  function Hex(v: nat, width: nat): (r: string)
    ensures |r| == width
  {
    if width == 0 then [] else Hex(v / 16, width - 1) + [DigitChar(v % 16)]
  }

  lemma Split(q: nat, d: nat)
    requires d < 16
    ensures (q * 16 + d) / 16 == q && (q * 16 + d) % 16 == d
  {
  }

  lemma {:induction false} HexOfValue(s: string)
    requires AllHex(s)
    ensures Hex(Value(s, 16), |s|) == s
  {
    if s != [] {
      var front := s[..|s| - 1];
      HexOfValue(front);
      CharBack(s[|s| - 1]);
      Split(Value(front, 16), DigitValue(s[|s| - 1]));
      assert s == front + [s[|s| - 1]];
    }
  }
}
