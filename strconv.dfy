/** The parts of Go's `strconv` (and of fmt's `%v` for unsigned integers) the
    version type relies on: decimal formatting, `ParseUint(s, 10, 16)` and
    `Quote` restricted to ASCII text. */
module Strconv {
  import opened Basics

  /** The two kinds of *NumError that ParseUint returns. */
  datatype NumError = ErrSyntax | ErrRange

  datatype ParseResult = Ok(value: uint16) | Err(error: NumError)

  /** n in base 10, as fmt's `%v` and FormatUint(n, 10) write it. */
  function FormatUint(n: nat): (r: Bytes)
    ensures IsDecimal(r) && DecValue(r) == n
    ensures r[0] == '0' ==> r == "0"
    decreases n
  {
    if n < 10 then [DigitByte(n)]
    else
      var init := FormatUint(n / 10);
      var r := init + [DigitByte(n % 10)];
      assert r[..|r| - 1] == init;
      r
  }

  /** The decimal form of n has at most k digits exactly when n < 10^k. */
  lemma {:induction false} FormatUintLength(n: nat, k: nat)
    requires k >= 1
    ensures |FormatUint(n)| <= k <==> n < Pow10(k)
    decreases n
  {
    if n >= 10 {
      if k == 1 {
        assert Pow10(1) == 10;
      } else {
        FormatUintLength(n / 10, k - 1);
        assert n / 10 < Pow10(k - 1) <==> n < Pow10(k);
      }
    }
  }

  /** A digit string without a leading zero is the decimal form of its value:
      FormatUint is the only such rendering of a number. */
  lemma {:induction false} FormatDecValue(s: Bytes)
    requires IsDecimal(s) && (s[0] == '0' ==> |s| == 1)
    ensures FormatUint(DecValue(s)) == s
    decreases |s|
  {
    if |s| > 1 {
      var init := s[..|s| - 1];
      DecValuePrefix(init, 1);
      assert init[..1] == [s[0]];
      assert DecValue([s[0]]) == DigitValue(s[0]);
      var v := DecValue(s);
      assert v == DecValue(init) * 10 + DigitValue(s[|s| - 1]);
      assert v / 10 == DecValue(init) && v % 10 == DigitValue(s[|s| - 1]);
      FormatDecValue(init);
      assert s == init + [s[|s| - 1]];
    }
  }

  /** Number of leading digits of s. */
  function LeadingDigits(s: Bytes): (k: nat)
    ensures k <= |s| && AllDigits(s[..k])
    ensures k < |s| ==> !IsDigit(s[k])
  {
    if s == [] || !IsDigit(s[0]) then 0
    else
      var k := 1 + LeadingDigits(s[1..]);
      assert s[..k] == [s[0]] + s[1..][..k - 1];
      k
  }

  /** The digit loop of ParseUint from position i, with acc the value of the
      digits before i: a non-digit is a syntax error, a value above 65535 a range
      error, whichever comes first. */
  function ParseDigits(s: Bytes, i: nat, acc: nat): (r: ParseResult)
    requires i <= |s| && AllDigits(s[..i]) && acc == DecValue(s[..i]) && acc <= MaxUint16
    ensures var k := LeadingDigits(s);
      r == if DecValue(s[..k]) > MaxUint16 then Err(ErrRange)
           else if k < |s| then Err(ErrSyntax)
           else Ok(DecValue(s[..k]))
    decreases |s| - i
  {
    if i == |s| then
      assert s[..i] == s;
      Ok(acc)
    else if !IsDigit(s[i]) then
      Err(ErrSyntax)
    else
      var n := acc * 10 + DigitValue(s[i]);
      assert s[..i + 1][..i] == s[..i];
      assert DecValue(s[..i + 1]) == n;
      if n > MaxUint16 then
        var k := LeadingDigits(s);
        assert s[..k][..i + 1] == s[..i + 1];
        DecValuePrefix(s[..k], i + 1);
        Err(ErrRange)
      else
        ParseDigits(s, i + 1, n)
  }

  /** strconv.ParseUint(s, 10, 16): it succeeds exactly on decimal text whose
      value fits 16 bits, fails with a range error exactly when the leading run
      of digits already exceeds 65535, and with a syntax error otherwise. */
  function ParseUint16(s: Bytes): (r: ParseResult)
    ensures r.Ok? <==> IsDecimal(s) && DecValue(s) <= MaxUint16
    ensures r.Ok? ==> r.value == DecValue(s)
    ensures r == Err(ErrRange) <==> DecValue(s[..LeadingDigits(s)]) > MaxUint16
  {
    if s == [] then Err(ErrSyntax)
    else
      assert s[..0] == [];
      var r := ParseDigits(s, 0, 0);
      assert LeadingDigits(s) == |s| ==> s[..|s|] == s;
      r
  }

  /** Parsing the decimal form of a 16-bit number gives the number back. */
  lemma ParseFormat(n: uint16)
    ensures ParseUint16(FormatUint(n)) == Ok(n)
  {
  }

  predicate IsAscii(s: Bytes) {
    forall i :: 0 <= i < |s| ==> s[i] as int < 0x80
  }

  /** A byte Quote copies through as it is: printable ASCII other than the
      double quote and the backslash. */
  predicate IsPlain(c: byte) {
    ' ' <= c <= '~' && c != '"' && c != '\\'
  }

  predicate AllPlain(s: Bytes) {
    forall i :: 0 <= i < |s| ==> IsPlain(s[i])
  }

  const LowerHex: Bytes := "0123456789abcdef"

  /** How Quote writes one ASCII byte: a backslash before the quote and the
      backslash, printable bytes as they are, the seven C escapes, and `\xHH`
      with lower-case hex for the remaining control bytes. */
  function EscapeByte(c: byte): (r: Bytes)
    requires c as int < 0x80
    ensures |r| == 1 <==> IsPlain(c)
    ensures |r| == 1 ==> r == [c]
  {
    if c == '"' || c == '\\' then ['\\', c]
    else if ' ' <= c <= '~' then [c]
    else if c as int == 7 then "\\a"
    else if c as int == 8 then "\\b"
    else if c as int == 12 then "\\f"
    else if c == '\n' then "\\n"
    else if c == '\r' then "\\r"
    else if c == '\t' then "\\t"
    else if c as int == 11 then "\\v"
    else "\\x" + [LowerHex[c as int / 16], LowerHex[c as int % 16]]
  }

  /** The body of a quoted string: each byte as EscapeByte writes it. It leaves
      the text alone exactly when no byte needs escaping. */
  function Escape(s: Bytes): (r: Bytes)
    requires IsAscii(s)
    ensures |r| >= |s|
    ensures r == s <==> AllPlain(s)
  {
    if s == [] then []
    else
      var e := EscapeByte(s[0]);
      var rest := Escape(s[1..]);
      assert s == [s[0]] + s[1..];
      assert AllPlain(s) <==> IsPlain(s[0]) && AllPlain(s[1..]);
      assert |e| == 1 ==> (e + rest == s <==> rest == s[1..]);
      e + rest
  }

  /** Escaping works byte by byte, so it distributes over concatenation. */
  lemma {:induction false} EscapeConcat(a: Bytes, b: Bytes)
    requires IsAscii(a) && IsAscii(b)
    ensures IsAscii(a + b) && Escape(a + b) == Escape(a) + Escape(b)
  {
    if a != [] {
      assert (a + b)[1..] == a[1..] + b;
      EscapeConcat(a[1..], b);
    } else {
      assert a + b == b;
    }
  }

  /** strconv.Quote on ASCII text: the escaped text between double quotes. It is
      the text between bare quotes exactly when the text has nothing to escape. */
  function Quote(s: Bytes): (r: Bytes)
    requires IsAscii(s)
    ensures r == ['"'] + s + ['"'] <==> AllPlain(s)
  {
    var r := ['"'] + Escape(s) + ['"'];
    assert r == ['"'] + s + ['"'] ==> r[1..|r| - 1] == Escape(s) && r[1..|r| - 1] == s;
    r
  }
}
