/** Decimal printing of integers, as std::to_string and stream output do it, and 32-bit narrowing. */
module Decimals {

  function DigitChar(d: nat): char
    requires d < 10
  {
    '0' + d as char
  }

  function Digits(n: nat): string {
    if n < 10 then [DigitChar(n)] else Digits(n / 10) + [DigitChar(n % 10)]
  }

  function Decimal(n: int): string {
    if n < 0 then "-" + Digits(-n) else Digits(n)
  }

  predicate IsDigit(c: char) {
    '0' <= c <= '9'
  }

  predicate AllDigits(s: string) {
    forall i :: 0 <= i < |s| ==> IsDigit(s[i])
  }

  function DigitsValue(s: string): nat
    requires AllDigits(s)
  {
    if s == "" then 0 else 10 * DigitsValue(s[..|s| - 1]) + (s[|s| - 1] as int - '0' as int)
  }

  predicate IsDecimal(s: string) {
    s != "" && if s[0] == '-' then AllDigits(s[1..]) else AllDigits(s)
  }

  /** Reads a decimal number. */
  function DecimalValue(s: string): int
    requires IsDecimal(s)
  {
    if s[0] == '-' then 0 - DigitsValue(s[1..]) else DigitsValue(s)
  }

  lemma {:induction false} DigitsReadBack(n: nat)
    ensures Digits(n) != "" && AllDigits(Digits(n)) && DigitsValue(Digits(n)) == n
  {
    if n < 10 {
      assert [DigitChar(n)][..0] == "";
    } else {
      DigitsReadBack(n / 10);
      var s := Digits(n);
      assert s[..|s| - 1] == Digits(n / 10);
      assert s[|s| - 1] == DigitChar(n % 10);
    }
  }

  /** Printing in decimal loses nothing. */
  lemma DecimalReadBack(n: int)
    ensures IsDecimal(Decimal(n)) && DecimalValue(Decimal(n)) == n
  {
    DigitsReadBack(if n < 0 then -n else n);
    if n < 0 {
      assert Decimal(n)[1..] == Digits(-n);
    } else {
      assert IsDigit(Digits(n)[0]);
    }
  }

  /** Only zero is printed with a leading zero, and only negative numbers with a sign. */
  lemma {:induction false} DigitsShape(n: nat)
    ensures Digits(n) != "" && (Digits(n)[0] == '0' <==> n == 0) && '0' <= Digits(n)[0] <= '9'
  {
    if n >= 10 {
      DigitsShape(n / 10);
    }
  }

  /** A number is printed from its last digit and the digits before it, in base ten, without leading zeros; a
      negative one behind a sign. */
  lemma DecimalShape(n: int)
    ensures n < 0 ==> Decimal(n) == "-" + Decimal(-n)
    ensures n >= 0 ==>
              var s := Decimal(n);
              && s != "" && s[|s| - 1] == "0123456789"[n % 10]
              && (if n < 10 then |s| == 1 else s[..|s| - 1] == Decimal(n / 10))
              && (s[0] == '0' <==> n == 0)
  {
    if n >= 0 {
      DigitsShape(n);
    }
  }

  /** No printed number has a character that URIs give a meaning to. */
  lemma DecimalIsPlain(n: int)
    ensures forall c <- ['|', '=', '?', ':'] :: c !in Decimal(n)
  {
    DecimalReadBack(n);
    var s := Decimal(n);
    if s[0] == '-' {
      assert s == "-" + s[1..];
    }
  }

  /** Distinct numbers print differently. */
  lemma DecimalInjective(m: int, n: int)
    requires Decimal(m) == Decimal(n)
    ensures m == n
  {
    DecimalReadBack(m);
    DecimalReadBack(n);
  }

  /** The low 32 bits of n, read as a signed number. */
  function ToInt32(n: int): int {
    (n + 0x8000_0000) % 0x1_0000_0000 - 0x8000_0000
  }

  /** Narrowing gives the one 32-bit number that is congruent. */
  lemma ToInt32Is(n: int)
    ensures -0x8000_0000 <= ToInt32(n) < 0x8000_0000 && (ToInt32(n) - n) % 0x1_0000_0000 == 0
  {
    Int32Shift(n);
  }

  predicate IsInt32(n: int) {
    -0x8000_0000 <= n < 0x8000_0000
  }

  lemma ToInt32Congruent(a: int, b: int)
    ensures ToInt32(a) == ToInt32(b) <==> a % 0x1_0000_0000 == b % 0x1_0000_0000
  {
    Int32Shift(a);
    Int32Shift(b);
  }

  lemma Int32Shift(n: int)
    ensures var low := n % 0x1_0000_0000;
            ToInt32(n) == if low < 0x8000_0000 then low else low - 0x1_0000_0000
  {
  }
}
