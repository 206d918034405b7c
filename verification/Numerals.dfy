/** What the proxy's number parser reads, said by tables of digits and positional notation
    and not by the parser. */
module Numerals {
  import opened Text

  /** What a decimal digit stands for. */
  function DecimalDigit(c: char): Option<nat> {
    match c
    case '0' => Some(0)
    case '1' => Some(1)
    case '2' => Some(2)
    case '3' => Some(3)
    case '4' => Some(4)
    case '5' => Some(5)
    case '6' => Some(6)
    case '7' => Some(7)
    case '8' => Some(8)
    case '9' => Some(9)
    case _ => None
  }

  /** What a hexadecimal digit of either case stands for. */
  function HexDigit(c: char): Option<nat> {
    match c
    case 'a' => Some(10)
    case 'b' => Some(11)
    case 'c' => Some(12)
    case 'd' => Some(13)
    case 'e' => Some(14)
    case 'f' => Some(15)
    case 'A' => Some(10)
    case 'B' => Some(11)
    case 'C' => Some(12)
    case 'D' => Some(13)
    case 'E' => Some(14)
    case 'F' => Some(15)
    case _ => DecimalDigit(c)
  }

  function Meaning(c: char, hex: bool): Option<nat> {
    if hex then HexDigit(c) else DecimalDigit(c)
  }

  function Radix(hex: bool): nat {
    if hex then 16 else 10
  }

  /** `s` is a numeral for `n`: the last digit stands for the remainder and the digits before
      it for the quotient; leading zeros are allowed. */
  ghost predicate Numeral(s: string, n: nat, hex: bool) {
    s != [] && Meaning(s[|s| - 1], hex) == Some(n % Radix(hex)) &&
    if |s| == 1 then n < Radix(hex) else Numeral(s[..|s| - 1], n / Radix(hex), hex)
  }

  /** A numeral with an optional plus sign. */
  ghost predicate Unsigned(s: string, n: nat, hex: bool) {
    Numeral(s, n, hex) || (s != [] && s[0] == '+' && Numeral(s[1..], n, hex))
  }

  lemma DigitMeans(c: char, hex: bool)
    ensures DigitValue(c, Radix(hex)) == Meaning(c, hex)
    ensures Meaning(c, hex).Some? ==> Meaning(c, hex).value < Radix(hex) && !IsSpace(c) && c != '+' && c != ';' && c != LF && c != CR
  {
    if '0' <= c <= '9' {
      DecimalMeans(c);
    } else if 'a' <= c <= 'f' {
      LowerMeans(c);
    } else if 'A' <= c <= 'F' {
      UpperMeans(c);
    } else {
      assert Meaning(c, hex).None?;
    }
  }

  lemma DecimalMeans(c: char)
    requires '0' <= c <= '9'
    ensures DecimalDigit(c) == Some((c - '0') as nat) && HexDigit(c) == DecimalDigit(c)
  {
    assert c == '0' || c == '1' || c == '2' || c == '3' || c == '4' || c == '5' || c == '6' || c == '7' || c == '8' || c == '9';
  }

  lemma LowerMeans(c: char)
    requires 'a' <= c <= 'f'
    ensures HexDigit(c) == Some((c - 'a') as nat + 10) && DecimalDigit(c).None?
  {
    assert c == 'a' || c == 'b' || c == 'c' || c == 'd' || c == 'e' || c == 'f';
  }

  lemma UpperMeans(c: char)
    requires 'A' <= c <= 'F'
    ensures HexDigit(c) == Some((c - 'A') as nat + 10) && DecimalDigit(c).None?
  {
    assert c == 'A' || c == 'B' || c == 'C' || c == 'D' || c == 'E' || c == 'F';
  }

  lemma DivMod(a: nat, b: nat, hex: bool, n: nat)
    requires b < Radix(hex)
    ensures a * Radix(hex) + b == n <==> a == n / Radix(hex) && b == n % Radix(hex)
  {
    if hex {
      assert a * 16 + b == n <==> a == n / 16 && b == n % 16;
    } else {
      assert a * 10 + b == n <==> a == n / 10 && b == n % 10;
    }
  }

  /** The value of a digit string is the number it is a numeral for. */
  lemma {:induction false} DigitsIff(s: string, n: nat, hex: bool)
    requires s != []
    ensures Digits(s, Radix(hex)) == Some(n) <==> Numeral(s, n, hex)
  {
    var init, c, radix := s[..|s| - 1], s[|s| - 1], Radix(hex);
    DigitMeans(c, hex);
    hide DigitValue, Meaning;
    if init == [] {
      assert Digits(init, radix) == Some(0);
    } else {
      DigitsIff(init, n / radix, hex);
      var a, b := Digits(init, radix), Meaning(c, hex);
      if a.Some? && b.Some? {
        DivMod(a.value, b.value, hex, n);
      }
    }
  }

  /** The parser gives `n` exactly for the unsigned numerals of `n` within the bound. */
  lemma ParseIff(s: string, n: nat, hex: bool, bound: nat)
    ensures ParseUnsigned(s, Radix(hex), bound) == Some(n) <==> n < bound && Unsigned(s, n, hex)
  {
    if s != [] {
      DigitMeans(s[0], hex);
      if s[0] == '+' {
        NoPlus(s, n, hex);
        if |s| > 1 { DigitsIff(s[1..], n, hex); }
      } else {
        DigitsIff(s, n, hex);
      }
    }
  }

  /** No numeral starts with a plus sign. */
  lemma {:induction false} NoPlus(s: string, n: nat, hex: bool)
    requires s != [] && s[0] == '+'
    ensures !Numeral(s, n, hex)
  {
    DigitMeans(s[0], hex);
    if |s| > 1 {
      NoPlus(s[..|s| - 1], n / Radix(hex), hex);
    }
  }

  lemma {:induction false} NumeralEnds(s: string, n: nat, hex: bool)
    requires Numeral(s, n, hex)
    ensures forall i :: 0 <= i < |s| ==> Meaning(s[i], hex).Some?
  {
    if |s| > 1 {
      NumeralEnds(s[..|s| - 1], n / Radix(hex), hex);
    }
  }

  /** The digit that stands for `v`. */
  function DigitFor(v: nat, upper: bool): char
    requires v < 16
  {
    if v < 10 then '0' + v as char else if upper then 'A' + (v - 10) as char else 'a' + (v - 10) as char
  }

  lemma DigitForMeans(v: nat, upper: bool, hex: bool)
    requires v < Radix(hex)
    ensures Meaning(DigitFor(v, upper), hex) == Some(v)
  {
    var c := DigitFor(v, upper);
    if v < 10 {
      DecimalMeans(c);
    } else if upper {
      UpperMeans(c);
    } else {
      LowerMeans(c);
    }
  }

  /** The shortest numeral for a number. */
  function Print(n: nat, hex: bool, upper: bool): string {
    if n < Radix(hex) then [DigitFor(n, upper)] else Print(n / Radix(hex), hex, upper) + [DigitFor(n % Radix(hex), upper)]
  }

  lemma {:induction false} PrintIs(n: nat, hex: bool, upper: bool)
    ensures Numeral(Print(n, hex, upper), n, hex)
  {
    DigitForMeans(n % Radix(hex), upper, hex);
    if n >= Radix(hex) {
      PrintIs(n / Radix(hex), hex, upper);
      var front := Print(n / Radix(hex), hex, upper);
      assert (front + [DigitFor(n % Radix(hex), upper)])[..|front|] == front;
    }
  }

  /** Print, then parse. */
  lemma PrintParses(n: nat, hex: bool, upper: bool, bound: nat)
    ensures ParseUnsigned(Print(n, hex, upper), Radix(hex), bound) == if n < bound then Some(n) else None
  {
    PrintIs(n, hex, upper);
    ParseIff(Print(n, hex, upper), n, hex, bound);
    var r := ParseUnsigned(Print(n, hex, upper), Radix(hex), bound);
    if r.Some? {
      ParseIff(Print(n, hex, upper), r.value, hex, bound);
      NumeralUnique(Print(n, hex, upper), n, r.value, hex);
    }
  }

  lemma {:induction false} NumeralUnique(s: string, n: nat, m: nat, hex: bool)
    requires Numeral(s, n, hex) && Unsigned(s, m, hex)
    ensures n == m
  {
    if s[0] == '+' {
      NoPlus(s, n, hex);
    }
    DigitsIff(s, n, hex);
    DigitsIff(s, m, hex);
  }
}
