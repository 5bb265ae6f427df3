/** Character digits as Rust's `char::to_digit` reads them, positional
    reading of a digit string (`from_str_radix` on digit-only input), and
    the decimal rendering of a `usize` used in error messages. */
module Digits {

  /** The value of an ASCII digit or letter, as `char::to_digit(36)`; 36 marks "not a digit". */
  function DigitValue(c: char): (v: nat)
    ensures v <= 36
    ensures '0' <= c <= '9' ==> v == c as int - '0' as int
  {
    if '0' <= c <= '9' then c as int - '0' as int
    else if 'a' <= c <= 'z' then c as int - 'a' as int + 10
    else if 'A' <= c <= 'Z' then c as int - 'A' as int + 10
    else 36
  }

  /** `c.is_digit(radix)`. */
  predicate IsDigit(c: char, radix: nat)
  {
    DigitValue(c) < radix
  }

  /** The number a string of digits denotes in base `radix`, most significant first. */
  function ReadRadix(ds: seq<char>, radix: nat): nat
  {
    if ds == [] then 0
    else ReadRadix(ds[..|ds| - 1], radix) * radix + DigitValue(ds[|ds| - 1])
  }

  function DigitChar(d: nat): (c: char)
    requires d < 10
    ensures DigitValue(c) == d && IsDigit(c, 10)
  {
    ('0' as int + d) as char
  }

  /** The decimal rendering of a natural number (`{}` on a usize). */
  function Decimal(n: nat): (s: string)
    ensures |s| > 0
    ensures forall i :: 0 <= i < |s| ==> IsDigit(s[i], 10)
  {
    if n < 10 then [DigitChar(n)] else Decimal(n / 10) + [DigitChar(n % 10)]
  }

  /** Reading the decimal rendering back gives the number. */
  lemma {:induction false} DecimalRoundTrip(n: nat)
    ensures ReadRadix(Decimal(n), 10) == n
  {
    var s := Decimal(n);
    if n < 10 {
      assert s[..0] == [];
    } else {
      var d := Decimal(n / 10);
      assert s[..|s| - 1] == d;
      DecimalRoundTrip(n / 10);
    }
  }

  /** Appending a digit shifts the value by one place. */
  lemma ReadRadixSnoc(ds: seq<char>, c: char, radix: nat)
    ensures ReadRadix(ds + [c], radix) == ReadRadix(ds, radix) * radix + DigitValue(c)
  {
    assert (ds + [c])[..|ds|] == ds;
  }
}
