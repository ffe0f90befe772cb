/** The part of Go's `strings` package the version parser uses: splitting a
    string around every occurrence of a one-byte separator. */
module Strings {
  import opened Basics

  /** Number of occurrences of c in s. */
  function Count(s: Bytes, c: byte): (n: nat)
    ensures n <= |s|
    ensures n == 0 <==> c !in s
  {
    if s == [] then 0 else (if s[0] == c then 1 else 0) + Count(s[1..], c)
  }

  lemma {:induction false} CountConcat(a: Bytes, b: Bytes, c: byte)
    ensures Count(a + b, c) == Count(a, c) + Count(b, c)
  {
    if a == [] {
      assert a + b == b;
    } else {
      assert (a + b)[1..] == a[1..] + b;
      CountConcat(a[1..], b, c);
    }
  }

  /** First position of c in s, as strings.IndexByte finds it. */
  function IndexByte(s: Bytes, c: byte): (i: nat)
    requires c in s
    ensures i < |s| && s[i] == c && c !in s[..i]
  {
    if s[0] == c then 0 else 1 + IndexByte(s[1..], c)
  }

  /** strings.Split(s, sep) for a one-byte separator: the pieces between
      consecutive occurrences of sep, front to back, as Go's genSplit cuts
      them off at each IndexByte. */
  function Split(s: Bytes, sep: byte): (r: seq<Bytes>)
    ensures |r| == Count(s, sep) + 1
    ensures forall k :: 0 <= k < |r| ==> sep !in r[k]
    decreases |s|
  {
    if sep !in s then [s]
    else
      var m := IndexByte(s, sep);
      assert s == s[..m] + [sep] + s[m + 1..];
      CountConcat(s[..m] + [sep], s[m + 1..], sep);
      CountConcat(s[..m], [sep], sep);
      [s[..m]] + Split(s[m + 1..], sep)
  }

  /** strings.Join(parts, [sep]): the inverse of Split. */
  function Join(parts: seq<Bytes>, sep: byte): Bytes
    requires |parts| >= 1
  {
    if |parts| == 1 then parts[0] else parts[0] + [sep] + Join(parts[1..], sep)
  }

  lemma JoinThree(a: Bytes, b: Bytes, c: Bytes, sep: byte)
    ensures Join([a, b, c], sep) == a + ([sep] + (b + ([sep] + c)))
  {
    assert [a, b, c][1..] == [b, c] && [b, c][1..] == [c];
    assert Join([c], sep) == c;
    assert Join([b, c], sep) == b + [sep] + c;
    assert Join([a, b, c], sep) == a + [sep] + (b + [sep] + c);
  }

  lemma JoinThreePrefixed(p: Bytes, a: Bytes, b: Bytes, c: Bytes, sep: byte)
    ensures Join([p + a, b, c], sep) == p + (a + ([sep] + (b + ([sep] + c))))
  {
    JoinThree(p + a, b, c, sep);
  }

  /** Joining the pieces of a split gives back the string. */
  lemma {:induction false} JoinSplit(s: Bytes, sep: byte)
    ensures Join(Split(s, sep), sep) == s
    decreases |s|
  {
    if sep in s {
      var m := IndexByte(s, sep);
      JoinSplit(s[m + 1..], sep);
      assert s == s[..m] + [sep] + s[m + 1..];
    }
  }

  /** Splitting pieces that hold no separator, once joined, gives back the pieces. */
  lemma {:induction false} SplitJoin(parts: seq<Bytes>, sep: byte)
    requires |parts| >= 1
    requires forall k :: 0 <= k < |parts| ==> sep !in parts[k]
    ensures Split(Join(parts, sep), sep) == parts
  {
    if |parts| > 1 {
      var s := Join(parts, sep);
      var rest := Join(parts[1..], sep);
      assert s == parts[0] + [sep] + rest;
      assert s[|parts[0]|] == sep;
      assert s[..|parts[0]|] == parts[0];
      assert IndexByte(s, sep) == |parts[0]|;
      assert s[|parts[0]| + 1..] == rest;
      SplitJoin(parts[1..], sep);
    }
  }

  /** Three pieces without the separator come back from a join and a split. */
  lemma SplitJoinThree(a: Bytes, b: Bytes, c: Bytes, sep: byte)
    requires sep !in a && sep !in b && sep !in c
    ensures Split(Join([a, b, c], sep), sep) == [a, b, c]
  {
    var parts := [a, b, c];
    assert forall k :: 0 <= k < |parts| ==> sep !in parts[k];
    SplitJoin(parts, sep);
  }
}
