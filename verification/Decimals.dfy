/** Decimal numerals, as `strconv.Itoa` prints and `strconv.Atoi` reads them. */
module Decimals {
  import opened Wrappers
  import opened Utf8

  const MAXIMUM_INT: int := 0x7FFF_FFFF_FFFF_FFFF
  const PLUS: byte := 0x2B
  const MINUS: byte := 0x2D

  predicate AllDigits(text: Bytes) {
    forall i :: 0 <= i < |text| ==> 0x30 <= text[i] <= 0x39
  }

  function Decimal(n: nat): (digits: Bytes)
    ensures digits != [] && AllDigits(digits) && forall b :: b in digits ==> 0x30 <= b <= 0x39
  {
    if n < 10 then [0x30 + n] else Decimal(n / 10) + [0x30 + n % 10]
  }

  lemma {:induction false} DecimalIsInjective(m: nat, n: nat)
    requires Decimal(m) == Decimal(n)
    ensures m == n
  {
    var left, right := Decimal(m), Decimal(n);
    if m >= 10 && n >= 10 {
      assert left[|left| - 1] == right[|right| - 1];
      assert left[..|left| - 1] == Decimal(m / 10) && right[..|right| - 1] == Decimal(n / 10);
      DecimalIsInjective(m / 10, n / 10);
    }
  }

  function DigitsValue(text: Bytes): nat
    requires AllDigits(text)
  {
    if text == [] then 0
    else
      var last: int := text[|text| - 1];
      DigitsValue(text[..|text| - 1]) * 10 + (last - 0x30)
  }

  /** A signed numeral that fits a 64-bit integer. */
  function Atoi(text: Bytes): Option<int> {
    var signed := text != [] && (text[0] == PLUS || text[0] == MINUS);
    var digits := if signed then text[1..] else text;
    if digits == [] || !AllDigits(digits) then None
    else
      var value: int := DigitsValue(digits);
      if signed && text[0] == MINUS then (if value > MAXIMUM_INT + 1 then None else Some(-value))
      else if value > MAXIMUM_INT then None
      else Some(value)
  }

  /** What is read: digits, with or without one sign before them, within 64 bits. */
  lemma AtoiIff(text: Bytes, value: int)
    ensures Atoi(text) == Some(value)
            <==> || (text != [] && AllDigits(text) && value == DigitsValue(text) < 0x8000_0000_0000_0000)
                 || (|text| > 1 && text[0] == 0x2B && AllDigits(text[1..])
                     && value == DigitsValue(text[1..]) < 0x8000_0000_0000_0000)
                 || (|text| > 1 && text[0] == 0x2D && AllDigits(text[1..])
                     && value == 0 - DigitsValue(text[1..]) >= -0x8000_0000_0000_0000)
  {
    if text != [] && (text[0] == PLUS || text[0] == MINUS) {
      assert !AllDigits(text);
      assert |text| > 1 <==> text[1..] != [];
    }
  }

  /** A numeral's value, from its last digit. */
  lemma DigitsValueIs(front: Bytes, last: byte)
    requires AllDigits(front + [last])
    ensures AllDigits(front) && DigitsValue(front + [last]) == DigitsValue(front) * 10 + (last as int - 0x30)
    ensures DigitsValue([]) == 0
  {
    assert (front + [last])[..|front|] == front;
    forall i | 0 <= i < |front| ensures 0x30 <= front[i] <= 0x39 {
      assert front[i] == (front + [last])[i];
    }
    assert (front + [last])[|front|] == last;
  }

  lemma {:induction false} DecimalValue(n: nat)
    ensures DigitsValue(Decimal(n)) == n
  {
    var digits := Decimal(n);
    if n < 10 {
      assert digits[..|digits| - 1] == [];
    } else {
      DecimalValue(n / 10);
      assert digits[..|digits| - 1] == Decimal(n / 10);
    }
  }

  /** Reading a printed number gives it back, up to the largest 64-bit integer. */
  lemma AtoiReadsDecimal(n: nat)
    ensures Atoi(Decimal(n)) == if n <= MAXIMUM_INT then Some(n) else None
  {
    DecimalValue(n);
    assert Decimal(n)[0] in Decimal(n);
  }

  lemma {:induction false} DecimalLength(n: nat, digits: nat, bound: nat)
    requires n < bound && bound == Power10(digits) && digits > 0
    ensures |Decimal(n)| <= digits
    decreases digits
  {
    if n >= 10 {
      assert digits > 1;
      DecimalLength(n / 10, digits - 1, Power10(digits - 1));
    }
  }

  function Power10(n: nat): nat {
    if n == 0 then 1 else 10 * Power10(n - 1)
  }

  /** Nineteen digits hold every 64-bit integer. */
  lemma DecimalsAreShort(n: nat)
    requires n <= MAXIMUM_INT
    ensures |Decimal(n)| <= 19
  {
    assert Power10(19) == 10 * 10 * 10 * 10 * 10 * Power10(14);
    assert Power10(14) == 10 * 10 * 10 * 10 * 10 * 10 * 10 * Power10(7);
    assert Power10(7) == 10_000_000;
    DecimalLength(n, 19, Power10(19));
  }
}
