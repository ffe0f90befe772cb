/** What the text and JSON conversions of a Version promise: when parsing
    succeeds, how it fails, that extra pieces are ignored, and exactly which
    versions survive a round trip through their text or JSON form. */
module SemVerProofs {
  import opened Basics
  import opened Strings
  import opened Strconv
  import opened SemVer

  /** Text a 16-bit segment parse accepts. */
  predicate ValidSegment(s: Bytes) {
    IsDecimal(s) && DecValue(s) <= MaxUint16
  }

  /** The versions whose text form parses back to themselves: the prefix holds
      no dot, major has at most four digits, and a major of fewer than four
      digits is not preceded by a digit of the prefix. */
  predicate RoundTrips(f: Fields) {
    '.' !in f.pfx && f.major <= 9999
    && (f.major >= 1000 || f.pfx == [] || !IsDigit(f.pfx[|f.pfx| - 1]))
  }

  /** The major text found in the first piece is at most four digits, so its
      parse never overflows: it succeeds exactly when the piece ends in a digit,
      and fails with a syntax error otherwise. */
  lemma MajorParse(seg: Bytes)
    ensures var num := FirstSegMatch(seg);
      ParseUint16(num) == (if seg != [] && IsDigit(seg[|seg| - 1]) then Ok(DecValue(num)) else Err(ErrSyntax))
  {
    var num := FirstSegMatch(seg);
    if num != [] {
      assert seg[|seg| - 1] == num[|num| - 1];
    } else {
      assert LeadingDigits(num) == 0;
    }
  }

  /** UnmarshalText succeeds exactly when the text has at least two dots, its
      first piece ends in a digit and its second and third pieces are valid
      16-bit decimals; then the new fields do not depend on the old ones. */
  lemma {:induction false} ScanSucceeds(b: Bytes, prev: Fields)
    ensures var segs := Split(b, '.');
      Scan(b, prev).1 == Pass <==>
        |segs| >= 3 && segs[0] != [] && IsDigit(segs[0][|segs[0]| - 1])
        && ValidSegment(segs[1]) && ValidSegment(segs[2])
    ensures var segs := Split(b, '.');
      Scan(b, prev).1 == Pass ==>
        var num := FirstSegMatch(segs[0]);
        Scan(b, prev).0 == Fields(PrefixOf(segs[0]), DecValue(num), DecValue(segs[1]), DecValue(segs[2]))
  {
    var segs := Split(b, '.');
    if |segs| >= 3 {
      MajorParse(segs[0]);
    }
  }

  /** The fields are written one at a time, so a failing segment leaves the
      earlier ones written and the later ones as they were. With at least two
      dots the prefix is always overwritten; a major parse can only fail with a
      syntax error. */
  lemma {:induction false} ScanWritesInOrder(b: Bytes, prev: Fields)
    requires Count(b, '.') >= 2
    ensures var segs := Split(b, '.');
      var r := Scan(b, prev);
      var pfx := PrefixOf(segs[0]);
      var num := FirstSegMatch(segs[0]);
      (num == [] ==> r == (prev.(pfx := pfx), Fail(Number(ErrSyntax))))
      && (num != [] && !ValidSegment(segs[1]) ==>
            r.0 == prev.(pfx := pfx, major := DecValue(num))
            && r.1 == Fail(Number(ParseUint16(segs[1]).error)))
      && (num != [] && ValidSegment(segs[1]) && !ValidSegment(segs[2]) ==>
            r.0 == prev.(pfx := pfx, major := DecValue(num), minor := DecValue(segs[1]))
            && r.1 == Fail(Number(ParseUint16(segs[2]).error)))
  {
    var segs := Split(b, '.');
    MajorParse(segs[0]);
  }

  /** Pieces after the third are ignored: the text parses as its first three
      pieces alone would. */
  lemma ScanIgnoresExtraPieces(b: Bytes, prev: Fields)
    requires Count(b, '.') >= 2
    ensures Scan(b, prev) == Scan(Join(Split(b, '.')[..3], '.'), prev)
  {
    var segs := Split(b, '.');
    var t := [segs[0], segs[1], segs[2]];
    assert segs[..3] == t;
    SplitJoinThree(segs[0], segs[1], segs[2], '.');
    assert Split(Join(t, '.'), '.')[..3] == t;
    ScanReadsThreePieces(b, Join(t, '.'), prev);
  }

  /** Scan reads only the first three pieces of its input. */
  lemma ScanReadsThreePieces(b: Bytes, c: Bytes, prev: Fields)
    requires |Split(b, '.')| >= 3 && |Split(c, '.')| >= 3
    requires Split(b, '.')[..3] == Split(c, '.')[..3]
    ensures Scan(b, prev) == Scan(c, prev)
  {
    var sb, sc := Split(b, '.'), Split(c, '.');
    assert sb[0] == sb[..3][0] == sc[0];
    assert sb[1] == sb[..3][1] == sc[1];
    assert sb[2] == sb[..3][2] == sc[2];
  }

  /** The text form is the prefix with major, then minor, then patch, joined
      by dots. */
  lemma FormatIsJoin(f: Fields)
    ensures Format(f) == Join([f.pfx + FormatUint(f.major), FormatUint(f.minor), FormatUint(f.patch)], '.')
  {
    var ma, mi, pa := FormatUint(f.major), FormatUint(f.minor), FormatUint(f.patch);
    assert FormatTail(f) == ma + (['.'] + (mi + (['.'] + pa)));
    assert Format(f) == f.pfx + FormatTail(f);
    JoinThreePrefixed(f.pfx, ma, mi, pa, '.');
  }

  /** With no dot in the prefix, the text form splits into exactly three
      pieces: the prefix with major, then minor, then patch. */
  lemma FormatPieces(f: Fields)
    requires '.' !in f.pfx
    ensures Split(Format(f), '.') == [f.pfx + FormatUint(f.major), FormatUint(f.minor), FormatUint(f.patch)]
  {
    var ma, mi, pa := FormatUint(f.major), FormatUint(f.minor), FormatUint(f.patch);
    FormatIsJoin(f);
    NoDotInDigits(ma);
    NoDotInDigits(mi);
    NoDotInDigits(pa);
    CountConcat(f.pfx, ma, '.');
    SplitJoinThree(f.pfx + ma, mi, pa, '.');
  }

  /** With no dot in the prefix, the text form always parses, minor and patch
      come back, and the first piece is cut into a prefix and at most four
      trailing digits: digits may move between prefix and major. */
  lemma FormatSplitsFirstPiece(f: Fields, prev: Fields)
    requires '.' !in f.pfx
    ensures var seg := f.pfx + FormatUint(f.major);
      var num := FirstSegMatch(seg);
      Scan(Format(f), prev) == (Fields(PrefixOf(seg), DecValue(num), f.minor, f.patch), Pass)
  {
    var ma, mi, pa := FormatUint(f.major), FormatUint(f.minor), FormatUint(f.patch);
    var seg := f.pfx + ma;
    FormatPieces(f);
    assert seg[|seg| - 1] == ma[|ma| - 1];
    assert ValidSegment(mi) && ValidSegment(pa);
    ScanSucceeds(Format(f), prev);
  }

  /** The pattern finds exactly the digits d after p when d has at most four
      digits and is not preceded by a digit of p, unless d already has four. */
  lemma MatchIsDigitsAfter(p: Bytes, d: Bytes)
    requires IsDecimal(d)
    ensures |FirstSegMatch(p + d)| == |d| <==>
      |d| <= 4 && (|d| == 4 || p == [] || !IsDigit(p[|p| - 1]))
  {
    var s := p + d;
    var num := FirstSegMatch(s);
    if |num| < |d| {
      assert s[|s| - |num| - 1] == d[|d| - |num| - 1];
    }
    if |num| > |d| && p != [] {
      assert s[|s| - |d| - 1] == p[|p| - 1];
      assert s[|s| - |d| - 1] == num[|num| - |d| - 1];
    }
    if |num| == |d| && |d| < 4 && p != [] {
      assert s[|s| - |num| - 1] == p[|p| - 1];
    }
  }

  /** A dot in the prefix never comes back: the parsed prefix is cut from the
      first piece, which holds no dot. */
  lemma DotInPrefixIsLost(f: Fields, prev: Fields)
    requires '.' in f.pfx
    ensures Scan(Format(f), prev).0.pfx != f.pfx
  {
    var b := Format(f);
    var seg0 := Split(b, '.')[0];
    var r := Scan(b, prev);
    assert r.0.pfx + FirstSegMatch(seg0) == seg0;
  }

  /** The number of digits of a major decides which round-trip case applies. */
  lemma MajorDigits(n: uint16)
    ensures |FormatUint(n)| <= 4 <==> n <= 9999
    ensures |FormatUint(n)| <= 3 <==> n < 1000
  {
    FormatUintLength(n, 4);
    FormatUintLength(n, 3);
    assert Pow10(3) == 1000 && Pow10(4) == 10000;
  }

  /** The prefix cut from p + d is p exactly when the match is all of d, and
      shorter than p exactly when the match is longer than d. */
  lemma CutAfter(p: Bytes, d: Bytes)
    ensures PrefixOf(p + d) == p <==> FirstSegMatch(p + d) == d
    ensures |PrefixOf(p + d)| < |p| <==> |FirstSegMatch(p + d)| > |d|
    ensures |FirstSegMatch(p + d)| == |d| ==> FirstSegMatch(p + d) == d
  {
    var s := p + d;
    var num := FirstSegMatch(s);
    assert PrefixOf(s) + num == s;
    if |num| == |d| {
      assert num == s[|p|..] == d;
      assert PrefixOf(s) == s[..|p|] == p;
    }
  }

  /** With no dot in the prefix, the pattern finds exactly the major's digits
      after the prefix if and only if RoundTrips holds. */
  lemma MatchIsMajor(f: Fields)
    requires '.' !in f.pfx
    ensures FirstSegMatch(f.pfx + FormatUint(f.major)) == FormatUint(f.major) <==> RoundTrips(f)
  {
    var d := FormatUint(f.major);
    MatchIsDigitsAfter(f.pfx, d);
    CutAfter(f.pfx, d);
    MajorDigits(f.major);
  }

  /** Round trip: UnmarshalText(String()) gives back exactly the fields it
      started from if and only if RoundTrips holds. */
  lemma ScanFormat(f: Fields, prev: Fields)
    ensures Scan(Format(f), prev) == (f, Pass) <==> RoundTrips(f)
  {
    if '.' in f.pfx {
      DotInPrefixIsLost(f, prev);
    } else {
      var d := FormatUint(f.major);
      var num := FirstSegMatch(f.pfx + d);
      FormatSplitsFirstPiece(f, prev);
      CutAfter(f.pfx, d);
      MatchIsMajor(f);
      assert num == d ==> DecValue(num) == f.major;
    }
  }

  /** After a text ending in five digits the pattern takes the last four. */
  lemma MatchOfFiveDigits(p: Bytes, d: Bytes)
    requires IsDecimal(d) && |d| == 5
    ensures FirstSegMatch(p + d) == d[1..]
  {
    var seg := p + d;
    assert seg[|seg| - 4..] == d[1..];
  }

  /** So the prefix cut from a text ending in five digits keeps the first. */
  lemma PrefixOfFiveDigits(p: Bytes, d: Bytes)
    requires IsDecimal(d) && |d| == 5
    ensures PrefixOf(p + d) == p + d[..1]
  {
    MatchOfFiveDigits(p, d);
    assert PrefixOf(p + d) + d[1..] == p + d;
    assert p + d == (p + d[..1]) + d[1..];
  }

  /** A major of 10000 or more has five digits. */
  lemma WideMajorDigits(n: uint16)
    requires n >= 10000
    ensures |FormatUint(n)| == 5
  {
    FormatUintLength(n, 4);
    FormatUintLength(n, 5);
    assert Pow10(4) == 10000 && Pow10(5) == 100000;
  }

  /** A five-digit major does not come back: the pattern takes only its last
      four digits, and its first digit joins the prefix ("v12345.0.0" parses as
      prefix "v1", major 2345). */
  lemma WideMajorShiftsDigit(f: Fields, prev: Fields)
    requires '.' !in f.pfx && f.major >= 10000
    ensures var d := FormatUint(f.major);
      var r := Scan(Format(f), prev);
      |d| == 5 && r.1 == Pass && r.0.pfx == f.pfx + d[..1] && r.0.major == DecValue(d[1..])
      && r.0.minor == f.minor && r.0.patch == f.patch
  {
    var d := FormatUint(f.major);
    WideMajorDigits(f.major);
    FormatSplitsFirstPiece(f, prev);
    MatchOfFiveDigits(f.pfx, d);
    PrefixOfFiveDigits(f.pfx, d);
  }

  /** A major of fewer than four digits after a prefix ending in a digit takes
      that digit from the prefix ("a12.0.0", from prefix "a1" and major 2, parses
      as prefix "a", major 12). */
  lemma ShortMajorTakesPrefixDigit(f: Fields, prev: Fields)
    requires '.' !in f.pfx && f.major < 1000
    requires f.pfx != [] && IsDigit(f.pfx[|f.pfx| - 1])
    ensures var r := Scan(Format(f), prev);
      r.1 == Pass && |r.0.pfx| < |f.pfx| && r.0.minor == f.minor && r.0.patch == f.patch
  {
    var d := FormatUint(f.major);
    FormatSplitsFirstPiece(f, prev);
    MatchIsDigitsAfter(f.pfx, d);
    CutAfter(f.pfx, d);
    MajorDigits(f.major);
  }

  /** UnmarshalJSON ignores what its first and last byte are: on anything of
      three bytes or more it parses the bytes between them as text. */
  lemma ScanJsonStrips(first: byte, t: Bytes, last: byte, prev: Fields)
    requires |t| >= 1
    ensures ScanJson([first] + t + [last], prev) == Scan(t, prev)
  {
    var b := [first] + t + [last];
    assert b[1..|b| - 1] == t;
  }

  /** UnmarshalJSON does not undo the escaping MarshalJSON does: it parses the
      text form of the version whose prefix is the escaped prefix. */
  lemma JsonSeesEscapedPrefix(f: Fields, prev: Fields)
    requires IsAscii(f.pfx)
    ensures ScanJson(FormatJson(f), prev) == Scan(Format(f.(pfx := Escape(f.pfx))), prev)
  {
    var tail := FormatTail(f);
    assert IsAscii(tail) && AllPlain(tail);
    EscapeConcat(f.pfx, tail);
    assert Escape(tail) == tail;
    assert FormatJson(f) == ['"'] + Format(f.(pfx := Escape(f.pfx))) + ['"'];
    ScanJsonStrips('"', Format(f.(pfx := Escape(f.pfx))), '"', prev);
  }

  /** JSON round trip for prefixes that need no escaping: UnmarshalJSON of
      MarshalJSON gives back the fields exactly when the text form round-trips. */
  lemma JsonRoundTrip(f: Fields, prev: Fields)
    requires IsAscii(f.pfx) && AllPlain(f.pfx)
    ensures ScanJson(FormatJson(f), prev) == (f, Pass) <==> RoundTrips(f)
  {
    ScanJsonStrips('"', Format(f), '"', prev);
    ScanFormat(f, prev);
  }
}
