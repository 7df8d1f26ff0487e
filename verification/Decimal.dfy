/** Decimal text as the formatter prints it and `str::parse` reads it. */
module Decimal {
  import opened Prelude

  type Bytes = seq<u8>

  const PLUS: u8 := 43

  predicate IsDigit(b: u8) {
    48 <= b <= 57
  }

  predicate AllDigits(s: Bytes) {
    forall i :: 0 <= i < |s| ==> IsDigit(s[i])
  }

  function DigitByte(d: nat): u8
    requires d < 10
  {
    48 + d
  }

  /** The shortest decimal form. */
  function Digits(n: nat): (s: Bytes)
    ensures s != [] && AllDigits(s)
  {
    if n < 10 then [DigitByte(n)] else Digits(n / 10) + [DigitByte(n % 10)]
  }

  function DigitValue(b: u8): nat
    requires IsDigit(b)
  {
    b - 48
  }

  function Value(s: Bytes): nat
    requires AllDigits(s)
  {
    if s == [] then 0 else Value(Init(s)) * 10 + DigitValue(Last(s))
  }

  /** An unsigned number below `size`: an optional plus sign, then at least one digit. */
  function ParseUnsigned(s: Bytes, size: nat): Option<nat> {
    var digits := if s != [] && s[0] == PLUS then s[1..] else s;
    if digits != [] && AllDigits(digits) && Value(digits) < size then Some(Value(digits)) else None
  }

  lemma {:induction false} ValueOfDigits(n: nat)
    ensures Value(Digits(n)) == n
  {
    if n < 10 {
      assert Init(Digits(n)) == [];
    } else {
      ValueOfDigits(n / 10);
      assert Init(Digits(n)) == Digits(n / 10);
    }
  }

  /** A printed number reads back, in every type it fits, with or without a plus sign. */
  lemma PrintedNumberParses(n: nat, size: nat)
    ensures ParseUnsigned(Digits(n), size) == if n < size then Some(n) else None
    ensures ParseUnsigned([PLUS] + Digits(n), size) == if n < size then Some(n) else None
  {
    ValueOfDigits(n);
    assert ([PLUS] + Digits(n))[1..] == Digits(n);
  }

  function Power10(k: nat): nat {
    if k == 0 then 1 else 10 * Power10(k - 1)
  }

  lemma {:induction false} DigitCount(n: nat, k: nat)
    requires n < Power10(k) && k > 0
    ensures |Digits(n)| <= k
  {
    if n >= 10 {
      DigitCount(n / 10, k - 1);
    }
  }
}
