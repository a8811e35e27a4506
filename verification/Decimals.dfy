/** Integers as text, and the C conversions between integer widths. */
module Decimals {
  type uint32 = x: int | 0 <= x < 0x1_0000_0000
  type int32 = x: int | -0x8000_0000 <= x < 0x8000_0000
  type int16 = x: int | -0x8000 <= x < 0x8000

  /** `%d` of an unsigned number prints the signed number with the same bits. */
  function SignedBits(x: uint32): int32 {
    if x >= 0x8000_0000 then x - 0x1_0000_0000 else x
  }

  function ToUint32(x: int): uint32 {
    x % 0x1_0000_0000
  }

  function ToInt32(x: int): int32 {
    SignedBits(ToUint32(x))
  }

  function ToInt16(x: int): int16 {
    var u := x % 0x1_0000;
    if u >= 0x8000 then u - 0x1_0000 else u
  }

  function Digit(d: nat): (c: char)
    requires d < 10
    ensures IsDigit(c) && DigitValue(c) == d
  {
    ('0' as int + d) as char
  }

  predicate IsDigit(c: char) {
    '0' <= c <= '9'
  }

  function Digits(n: nat): (s: string)
    ensures s != [] && forall k | 0 <= k < |s| :: IsDigit(s[k])
  {
    if n < 10 then [Digit(n)] else Digits(n / 10) + [Digit(n % 10)]
  }

  function Decimal(x: int): string {
    if x < 0 then "-" + Digits(-x) else Digits(x)
  }

  predicate IsNumber(s: string) {
    && s != [] && (s[0] == '-' ==> |s| > 1)
    && forall k | (if s[0] == '-' then 1 else 0) <= k < |s| :: IsDigit(s[k])
  }

  function DigitValue(c: char): nat
    requires IsDigit(c)
  {
    c as int - '0' as int
  }

  function Number(s: string): nat
    requires forall k | 0 <= k < |s| :: IsDigit(s[k])
  {
    if s == [] then 0 else Number(s[..|s| - 1]) * 10 + DigitValue(s[|s| - 1])
  }

  /** `strtol` in base ten. */
  function StrToL(s: string): int
    requires IsNumber(s)
  {
    if s[0] == '-' then 0 - (Number(s[1..]) as int) else Number(s)
  }

  lemma {:induction false} NumberOfDigits(n: nat)
    ensures Number(Digits(n)) == n
  {
    if n >= 10 {
      NumberOfDigits(n / 10);
      assert Digits(n)[..|Digits(n)| - 1] == Digits(n / 10);
    } else {
      assert Digits(n)[..0] == [];
    }
  }

  lemma DecimalRoundTrip(x: int)
    ensures IsNumber(Decimal(x)) && StrToL(Decimal(x)) == x
  {
    if x < 0 {
      NumberOfDigits(-x);
      assert Decimal(x)[1..] == Digits(-x);
    } else {
      NumberOfDigits(x);
      assert IsDigit(Decimal(x)[0]);
    }
  }

  /** Unsigned numbers survive printing as signed ones, and narrow numbers being read as long ones. */
  lemma ConversionsRoundTrip()
    ensures forall x: uint32 :: ToUint32(SignedBits(x)) == x
    ensures forall x: int32 :: ToInt32(x) == x
    ensures forall x: int16 :: ToInt16(x) == x
  {}
}
