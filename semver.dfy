/** The `Version` type of the semver package: a prefix and three 16-bit
    segments, fluent setters that update it in place, and its text and JSON
    forms. The text and JSON conversions are specified by functions on the
    four field values (`Format`, `Scan`, `FormatJson`, `ScanJson`); the class
    `Version` updates its fields as the Go methods do and is proved against them. */
module SemVer {
  import opened Basics
  import opened Strings
  import opened Strconv

  /** The four fields of a Version, as a value. */
  datatype Fields = Fields(pfx: Bytes, major: uint16, minor: uint16, patch: uint16)

  /** The errors UnmarshalText and UnmarshalJSON return: fewer than three
      pieces, the NumError of a failed segment parse, and a JSON input that is
      too short. */
  datatype Error = SegmentCount | Number(numError: NumError) | TooShort

  /** A Go `error` result: nil (Pass) or an error. */
  datatype Outcome = Pass | Fail(error: Error)

  // ---------------------------------------------------------------------------
  // The first-segment pattern `[0-9]{1,4}$`

  /** The pattern matches s starting at i: from i to the end there are one to
      four bytes, all digits. */
  predicate MatchesAt(s: Bytes, i: nat)
    requires i <= |s|
  {
    1 <= |s| - i <= 4 && AllDigits(s[i..])
  }

  /** The regexp engine's search for the leftmost start at or after i where the
      pattern matches; |s| when there is none. */
  function MatchStart(s: Bytes, i: nat): (k: nat)
    requires i <= |s|
    ensures i <= k <= |s|
    ensures k < |s| ==> MatchesAt(s, k)
    ensures forall j :: i <= j < k ==> !MatchesAt(s, j)
    decreases |s| - i
  {
    if i == |s| || MatchesAt(s, i) then i else MatchStart(s, i + 1)
  }

  /** What the leftmost start tells about the text after it: one to four
      digits, or nothing, and no digit just before it unless four were taken. */
  lemma MatchStartIsLongest(s: Bytes)
    ensures var k := MatchStart(s, 0);
      |s| - k <= 4 && AllDigits(s[k..])
      && (|s| - k == 4 || k == 0 || !IsDigit(s[k - 1]))
  {
    var k := MatchStart(s, 0);
    assert 0 < k && |s| - k < 4 && IsDigit(s[k - 1]) ==> MatchesAt(s, k - 1) by {
      if 0 < k && |s| - k < 4 && IsDigit(s[k - 1]) {
        assert s[k - 1..] == [s[k - 1]] + s[k..];
      }
    }
  }

  /** At most four digits denote at most 9999. */
  lemma FourDigitsBound(r: Bytes)
    requires |r| <= 4 && AllDigits(r)
    ensures DecValue(r) <= 9999
  {
    DecValueBound(r);
    Pow10Monotone(|r|, 4);
    assert Pow10(4) == 10000;
  }

  /** firstSegRegex.FindString(s): the leftmost match of `[0-9]{1,4}$` in s, or
      the empty string. It is the longest suffix of s made only of digits, cut
      to at most four bytes. */
  function FirstSegMatch(s: Bytes): (r: Bytes)
    ensures |r| <= 4 && |r| <= |s| && r == s[|s| - |r|..] && AllDigits(r)
    ensures |r| == 4 || |r| == |s| || !IsDigit(s[|s| - |r| - 1])
    ensures DecValue(r) <= 9999
  {
    MatchStartIsLongest(s);
    var r := s[MatchStart(s, 0)..];
    FourDigitsBound(r);
    r
  }

  // ---------------------------------------------------------------------------
  // Text form

  /** String(): the prefix, then major, minor and patch in decimal, separated
      by dots. */
  function Format(f: Fields): (r: Bytes)
    ensures |r| > |f.pfx| && r[..|f.pfx|] == f.pfx
    ensures Count(r, '.') == Count(f.pfx, '.') + 2
  {
    var tail := FormatTail(f);
    CountConcat(f.pfx, tail, '.');
    f.pfx + tail
  }

  /** Only dots and digits: text Quote leaves alone and that holds no prefix. */
  predicate DotsAndDigits(s: Bytes) {
    forall i :: 0 <= i < |s| ==> s[i] == '.' || IsDigit(s[i])
  }

  lemma DotsAndDigitsConcat(a: Bytes, b: Bytes)
    requires DotsAndDigits(a) && DotsAndDigits(b)
    ensures DotsAndDigits(a + b)
  {
  }

  /** Decimal text holds no dot. */
  lemma NoDotInDigits(s: Bytes)
    requires AllDigits(s)
    ensures Count(s, '.') == 0
  {
  }

  /** The part of the text form after the prefix: major.minor.patch. It holds
      two dots, and digits otherwise. */
  function FormatTail(f: Fields): (r: Bytes)
    ensures Count(r, '.') == 2
    ensures DotsAndDigits(r)
    ensures |r| >= 5
  {
    var maj, min, pat := FormatUint(f.major), FormatUint(f.minor), FormatUint(f.patch);
    NoDotInDigits(maj);
    NoDotInDigits(min);
    NoDotInDigits(pat);
    CountConcat(['.'], pat, '.');
    CountConcat(min, ['.'] + pat, '.');
    CountConcat(['.'], min + (['.'] + pat), '.');
    CountConcat(maj, ['.'] + (min + (['.'] + pat)), '.');
    DotsAndDigitsConcat(['.'], pat);
    DotsAndDigitsConcat(min, ['.'] + pat);
    DotsAndDigitsConcat(['.'], min + (['.'] + pat));
    DotsAndDigitsConcat(maj, ['.'] + (min + (['.'] + pat)));
    maj + (['.'] + (min + (['.'] + pat)))
  }

  /** The prefix UnmarshalText keeps from the first piece: everything before
      the pattern's match. */
  function PrefixOf(seg: Bytes): (p: Bytes)
    ensures p + FirstSegMatch(seg) == seg
  {
    var num := FirstSegMatch(seg);
    var pe := |seg| - |num|;
    if pe > 0 then seg[0..pe] else []
  }

  /** What UnmarshalText(b) does to a Version whose fields were prev: the
      fields afterwards and the error it returns. The fields are written one by
      one, so a failing segment leaves the ones before it written. */
  function Scan(b: Bytes, prev: Fields): (r: (Fields, Outcome))
    ensures r.1 == Fail(SegmentCount) <==> Count(b, '.') < 2
    ensures Count(b, '.') < 2 ==> r.0 == prev
    ensures Count(b, '.') >= 2 ==> r.0.pfx + FirstSegMatch(Split(b, '.')[0]) == Split(b, '.')[0]
    ensures r.1 != Fail(TooShort)
  {
    var segs := Split(b, '.');
    if |segs| < 3 then (prev, Fail(SegmentCount))
    else
      var f1 := prev.(pfx := PrefixOf(segs[0]));
      match ParseUint16(FirstSegMatch(segs[0]))
      case Err(e) => (f1, Fail(Number(e)))
      case Ok(major) =>
        var f2 := f1.(major := major);
        match ParseUint16(segs[1])
        case Err(e) => (f2, Fail(Number(e)))
        case Ok(minor) =>
          var f3 := f2.(minor := minor);
          match ParseUint16(segs[2])
          case Err(e) => (f3, Fail(Number(e)))
          case Ok(patch) => (f3.(patch := patch), Pass)
  }

  // ---------------------------------------------------------------------------
  // JSON form

  /** Dots and digits are plain ASCII, so after them whether a text is ASCII
      and whether Quote leaves it alone depend only on what comes before. */
  lemma PlainBeforeTail(p: Bytes, t: Bytes)
    requires DotsAndDigits(t)
    ensures IsAscii(p + t) <==> IsAscii(p)
    ensures AllPlain(p + t) <==> AllPlain(p)
  {
    var s := p + t;
    assert forall i :: 0 <= i < |t| ==> s[|p| + i] == t[i];
    assert forall i :: 0 <= i < |p| ==> s[i] == p[i];
  }

  /** MarshalJSON(): the text form as a quoted Go string literal. */
  function FormatJson(f: Fields): (r: Bytes)
    requires IsAscii(f.pfx)
    ensures r == ['"'] + Format(f) + ['"'] <==> AllPlain(f.pfx)
  {
    PlainBeforeTail(f.pfx, FormatTail(f));
    Quote(Format(f))
  }

  /** What UnmarshalJSON(b) does to a Version whose fields were prev: too short
      below three bytes, otherwise UnmarshalText on b without its first and last
      byte, whatever they are. */
  function ScanJson(b: Bytes, prev: Fields): (r: (Fields, Outcome))
    ensures r.1 == Fail(TooShort) <==> |b| < 3
    ensures |b| < 3 ==> r.0 == prev
  {
    var l := |b|;
    if l < 3 then (prev, Fail(TooShort))
    else Scan(b[1..l - 1], prev)
  }

  // ---------------------------------------------------------------------------
  // The Version object

  class Version {
    var pfx: Bytes
    var major: uint16
    var minor: uint16
    var patch: uint16

    /** The zero Version, `Version{}`: empty prefix, 0.0.0. */
    constructor ()
      ensures Value() == Fields([], 0, 0, 0)
    {
      pfx, major, minor, patch := [], 0, 0, 0;
    }

    function Value(): Fields
      reads this
    {
      Fields(pfx, major, minor, patch)
    }

    function GetPrefix(): Bytes
      reads this
    {
      pfx
    }

    function GetMajor(): uint16
      reads this
    {
      major
    }

    function GetMinor(): uint16
      reads this
    {
      minor
    }

    function GetPatch(): uint16
      reads this
    {
      patch
    }

    method SetPrefix(val: Bytes) returns (self: Version)
      modifies this
      ensures self == this
      ensures GetPrefix() == val
      ensures GetMajor() == old(GetMajor()) && GetMinor() == old(GetMinor()) && GetPatch() == old(GetPatch())
    {
      pfx := val;
      return this;
    }

    method SetMajor(val: uint16) returns (self: Version)
      modifies this
      ensures self == this
      ensures GetMajor() == val
      ensures GetPrefix() == old(GetPrefix()) && GetMinor() == old(GetMinor()) && GetPatch() == old(GetPatch())
    {
      major := val;
      return this;
    }

    method SetMinor(val: uint16) returns (self: Version)
      modifies this
      ensures self == this
      ensures GetMinor() == val
      ensures GetPrefix() == old(GetPrefix()) && GetMajor() == old(GetMajor()) && GetPatch() == old(GetPatch())
    {
      minor := val;
      return this;
    }

    method SetPatch(val: uint16) returns (self: Version)
      modifies this
      ensures self == this
      ensures GetPatch() == val
      ensures GetPrefix() == old(GetPrefix()) && GetMajor() == old(GetMajor()) && GetMinor() == old(GetMinor())
    {
      patch := val;
      return this;
    }

    function String(): (s: Bytes)
      reads this
      ensures s == Format(Value())
    {
      Format(Value())
    }

    /** The text form as a byte slice: the same bytes as String(). */
    function Bytes(): (b: Bytes)
      reads this
      ensures b == String()
    {
      String()
    }

    /** MarshalText never fails and returns the bytes of String(). */
    function MarshalText(): (r: (Bytes, Outcome))
      reads this
      ensures r.0 == String() && r.1 == Pass
    {
      (Bytes(), Pass)
    }

    method UnmarshalText(b: Bytes) returns (err: Outcome)
      modifies this
      ensures (Value(), err) == Scan(b, old(Value()))
    {
      var s := b;
      var segs := Split(s, '.');
      if |segs| < 3 {
        return Fail(SegmentCount);
      }
      var num := FirstSegMatch(segs[0]);
      var pe := |segs[0]| - |num|;
      if pe > 0 {
        pfx := segs[0][0..pe];
      } else {
        pfx := [];
      }
      var u := ParseUint16(num);
      if u.Err? {
        return Fail(Number(u.error));
      }
      major := u.value;
      u := ParseUint16(segs[1]);
      if u.Err? {
        return Fail(Number(u.error));
      }
      minor := u.value;
      u := ParseUint16(segs[2]);
      if u.Err? {
        return Fail(Number(u.error));
      }
      patch := u.value;
      return Pass;
    }

    /** MarshalJSON never fails and returns String() quoted. */
    function MarshalJSON(): (r: (Bytes, Outcome))
      reads this
      requires IsAscii(pfx)
      ensures r.0 == FormatJson(Value()) && r.1 == Pass
    {
      (Quote(String()), Pass)
    }

    method UnmarshalJSON(b: Bytes) returns (err: Outcome)
      modifies this
      ensures (Value(), err) == ScanJson(b, old(Value()))
    {
      var l := |b|;
      if l < 3 {
        return Fail(TooShort);
      }
      err := UnmarshalText(b[1..l - 1]);
    }
  }
}
