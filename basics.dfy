/** Byte strings, digits and the decimal value of digit text: the vocabulary
    shared by the string, number-conversion and version modules. Go strings and
    byte slices are both modelled as `Bytes`; indexing and slicing are by byte,
    as in Go. */
module Basics {

  /** One byte of a Go string or []byte. It is a `char` below 256 only so that
      byte strings can be written as literals ("v1.2.3"). */
  type byte = c: char | c as int < 0x100 witness '0'

  type Bytes = seq<byte>

  /** Go's uint16: the width of the three numeric fields of a version. */
  type uint16 = x: nat | x < 0x1_0000

  const MaxUint16: nat := 0xFFFF

  /** An ASCII decimal digit, the class `[0-9]`. */
  predicate IsDigit(c: byte) {
    '0' <= c <= '9'
  }

  predicate AllDigits(s: Bytes) {
    forall i :: 0 <= i < |s| ==> IsDigit(s[i])
  }

  /** Text that base-10 number parsing accepts: one or more digits and nothing
      else (no sign, no underscore; leading zeros are allowed). */
  predicate IsDecimal(s: Bytes) {
    |s| > 0 && AllDigits(s)
  }

  function DigitValue(c: byte): (d: nat)
    requires IsDigit(c)
    ensures d < 10
  {
    c as int - '0' as int
  }

  function DigitByte(d: nat): (c: byte)
    requires d < 10
    ensures IsDigit(c) && DigitValue(c) == d
  {
    (d + '0' as int) as char
  }

  /** The number that a string of digits denotes in base 10 (0 for the empty string). */
  function DecValue(s: Bytes): nat
    requires AllDigits(s)
    decreases |s|
  {
    if s == [] then 0 else DecValue(s[..|s| - 1]) * 10 + DigitValue(s[|s| - 1])
  }

  function Pow10(k: nat): (p: nat)
    ensures p >= 1
  {
    if k == 0 then 1 else 10 * Pow10(k - 1)
  }

  /** k digits denote a number below 10^k. */
  lemma {:induction false} DecValueBound(s: Bytes)
    requires AllDigits(s)
    ensures DecValue(s) < Pow10(|s|)
  {
    if s != [] {
      var init := s[..|s| - 1];
      DecValueBound(init);
      assert DecValue(init) <= Pow10(|init|) - 1;
      assert DecValue(s) <= (Pow10(|init|) - 1) * 10 + 9;
    }
  }

  lemma {:induction false} Pow10Monotone(j: nat, k: nat)
    requires j <= k
    ensures Pow10(j) <= Pow10(k)
    decreases k
  {
    if j < k {
      Pow10Monotone(j, k - 1);
    }
  }

  /** Reading fewer digits never gives a larger number. */
  lemma {:induction false} DecValuePrefix(s: Bytes, j: nat)
    requires AllDigits(s) && j <= |s|
    ensures DecValue(s[..j]) <= DecValue(s)
  {
    if j < |s| {
      var init := s[..|s| - 1];
      assert init[..j] == s[..j];
      DecValuePrefix(init, j);
      assert DecValue(s) == DecValue(init) * 10 + DigitValue(s[|s| - 1]);
    } else {
      assert s[..j] == s;
    }
  }
}
