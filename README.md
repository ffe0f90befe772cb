# semver: a verified model of the `Version` type

The Go package `semver` has one type, `Version`. It holds a free-form prefix and
three 16-bit segments (`major.minor.patch`). It has getters, fluent setters that
update the value in place and return the same pointer, and two text encodings:

- the plain text form `prefix + major + "." + minor + "." + patch`
  (`String`, `Bytes`, `MarshalText`, `UnmarshalText`);
- a JSON string holding that text (`MarshalJSON`, `UnmarshalJSON`).

Parsing splits the input on `.` and needs at least three pieces. The major
version is the match of the pattern `[0-9]{1,4}$` in the first piece, and
everything before the match becomes the prefix. Major, minor and patch are then
parsed with `strconv.ParseUint(_, 10, 16)`. Pieces after the third are ignored.
The fields are assigned one by one, so a later failure leaves the earlier
fields already overwritten.

The model has five modules:

- `Basics` (basics.dfy): bytes, digits, and the value of a digit string. Go
  strings and byte slices are both `Bytes`, a sequence of bytes indexed by
  byte, as Go slices strings.
- `Strings` (strings.dfy): `strings.Split` for a one-byte separator, and its
  inverse `Join`.
- `Strconv` (strconv.dfy): decimal formatting (`%v`), `ParseUint(s, 10, 16)`
  with its syntax and range errors, and `strconv.Quote` on ASCII text.
- `SemVer` (semver.dfy): the four fields as a value (`Fields`). It has the
  pattern search, and the functions `Format`, `Scan`, `FormatJson` and
  `ScanJson`, which give the text form and say what each unmarshal method does
  to the fields. The class `Version` has the four fields and the Go methods.
  The methods that change the object are proved to leave exactly the state
  those functions describe.
- `SemVerProofs` (semver_proofs.dfy): when parsing succeeds, the order of the
  writes, what happens to extra pieces, and both round trips.

The main theorem is `SemVerProofs.ScanFormat`. `UnmarshalText(String())`
restores a version exactly when all three of these hold:

- the prefix has no `.`;
- major is at most 9999;
- major has four digits, or the prefix is empty, or the prefix does not end
  in a digit.

Three lemmas show the three ways the round trip fails:

- A five-digit major loses its first digit to the prefix
  (`WideMajorShiftsDigit`: `v12345.0.0` parses as prefix `v1`, major 2345).
- A major of fewer than four digits takes the last digit of a prefix that ends
  in one (`ShortMajorTakesPrefixDigit`: prefix `a1` with major 2 gives
  `a12.0.0`, which parses as prefix `a`, major 12).
- A dot in the prefix never comes back (`DotInPrefixIsLost`).

On JSON, `MarshalJSON` uses `strconv.Quote`, which escapes `"`, `\` and
control bytes. `UnmarshalJSON` only drops the first and last byte and does not
undo the escaping. `JsonSeesEscapedPrefix` proves that the JSON round trip
parses the escaped prefix. `JsonRoundTrip` proves that, for a prefix with
nothing to escape, the JSON round trip holds exactly when the text round trip
holds.

The model keeps these behaviours of the code:

- JSON output is escaped by `strconv.Quote`.
- A failed parse can leave the fields partly written.
- Pieces after the third are accepted and ignored.
- A setter may store a prefix that ends in digits.

## Model

| member | source | states |
|---|---|---|
| Strings.Split | semver.go:87 | `strings.Split` on `.` gives one more piece than there are dots, and no piece holds a dot |
| Strings.JoinSplit | semver.go:87 | joining the pieces of a split with `.` gives back the input |
| Strings.SplitJoin | semver.go:87 | pieces without a dot, joined and split again, come back unchanged |
| Strconv.FormatUint | semver.go:74 | `%v` of an unsigned number is nonempty, all digits, denotes the number, and has no leading zero |
| Strconv.FormatUintLength | semver.go:74 | the decimal form of n has at most k digits exactly when n < 10^k |
| Strconv.FormatDecValue | semver.go:74 | a digit string without a leading zero is the decimal form of its value, so that form is unique |
| Strconv.ParseDigits | semver.go:97 | the digit loop of ParseUint gives a range error exactly when the leading digits exceed 65535, a syntax error when a non-digit comes first, and the value otherwise |
| Strconv.ParseUint16 | semver.go:97-111 | `ParseUint(s, 10, 16)` succeeds exactly on nonempty all-digit text (leading zeros allowed, no sign) of value at most 65535, with that value; a range error exactly when the leading digits exceed 65535 |
| Strconv.ParseFormat | semver.go:97-111 | parsing the decimal form of a 16-bit number gives the number back |
| Strconv.EscapeByte | semver.go:117 | `Quote` writes a byte as itself exactly when it is printable ASCII other than `"` and `\`; otherwise it writes two or more bytes |
| Strconv.Escape | semver.go:117 | the quoted body is at least as long as the text, and equals it exactly when no byte needs escaping |
| Strconv.EscapeConcat | semver.go:117 | escaping works byte by byte: it distributes over concatenation |
| Strconv.Quote | semver.go:117 | `Quote(s)` is `s` between bare double quotes exactly when `s` has nothing to escape |
| SemVer.MatchStart | semver.go:11 | the regexp search returns the leftmost start where `[0-9]{1,4}$` matches, or the end when there is none |
| SemVer.MatchStartIsLongest | semver.go:11 | the text after the leftmost match start is at most four digits, and no digit stands just before it unless four were taken |
| SemVer.FirstSegMatch | semver.go:91 | the match is the longest all-digit suffix of the first piece, cut to four bytes; its value is at most 9999 |
| SemVer.Format | semver.go:73-76 | `String()` starts with the prefix and has exactly two more dots than the prefix |
| SemVer.FormatTail | semver.go:74 | the part after the prefix has exactly two dots and only digits otherwise |
| SemVer.PrefixOf | semver.go:92-96 | the new prefix followed by the major text is exactly the first piece; it is empty when the whole piece matched |
| SemVer.Scan | semver.go:85-113 | UnmarshalText fails with the segment-count error exactly when the input has fewer than two dots, and then changes nothing; otherwise the prefix is always rewritten from the first piece |
| SemVer.FormatJson | semver.go:116-119 | `MarshalJSON` is `String()` between bare quotes exactly when the prefix has nothing to escape |
| SemVer.ScanJson | semver.go:122-128 | UnmarshalJSON fails with the too-short error exactly when the input has fewer than 3 bytes, and then changes nothing |
| SemVer.Version.constructor | semver.go:15-20 | the zero Version has an empty prefix and 0.0.0 |
| SemVer.Version.SetPrefix | semver.go:43-46 | writes the prefix, returns the same object, leaves the three segments unchanged |
| SemVer.Version.SetMajor | semver.go:49-52 | writes major, returns the same object, leaves the other three fields unchanged |
| SemVer.Version.SetMinor | semver.go:55-58 | writes minor, returns the same object, leaves the other three fields unchanged |
| SemVer.Version.SetPatch | semver.go:61-64 | writes patch, returns the same object, leaves the other three fields unchanged |
| SemVer.Version.String | semver.go:73-76 | the text of the object's fields is `Format` of them |
| SemVer.Version.Bytes | semver.go:67-70 | the same bytes as `String()` |
| SemVer.Version.MarshalText | semver.go:79-82 | never fails, and returns the bytes of `String()` |
| SemVer.Version.UnmarshalText | semver.go:85-113 | the new fields and the returned error are those `Scan` gives for the input and the old fields |
| SemVer.Version.MarshalJSON | semver.go:116-119 | never fails, and returns `FormatJson` of the fields |
| SemVer.Version.UnmarshalJSON | semver.go:122-128 | the new fields and the returned error are those `ScanJson` gives for the input and the old fields |
| SemVerProofs.MajorParse | semver.go:91-101 | the major parse never overflows: it succeeds exactly when the first piece ends in a digit, else it is a syntax error |
| SemVerProofs.ScanSucceeds | semver.go:85-113 | UnmarshalText succeeds exactly when there are at least three pieces, the first ends in a digit and the next two are valid 16-bit decimals; the new fields then do not depend on the old ones |
| SemVerProofs.ScanWritesInOrder | semver.go:92-111 | a failing segment leaves the fields before it written and the later ones as they were, and the error returned is that segment's parse error (for example `a.b.c` sets the prefix to `a` and fails with a syntax error) |
| SemVerProofs.ScanIgnoresExtraPieces | semver.go:87-111 | an input parses as its first three pieces alone would (`1.2.3.4` as `1.2.3`) |
| SemVerProofs.ScanReadsThreePieces | semver.go:87-111 | two inputs whose first three pieces agree are parsed alike |
| SemVerProofs.FormatIsJoin | semver.go:73-76 | the text form is the prefix with major, then minor, then patch, joined by dots |
| SemVerProofs.FormatPieces | semver.go:73-76 | with no dot in the prefix, the text form splits into exactly those three pieces |
| SemVerProofs.FormatSplitsFirstPiece | semver.go:85-113 | with no dot in the prefix, the text form always parses back; minor and patch return, and prefix and major are re-cut from their joined text |
| SemVerProofs.MatchIsDigitsAfter | semver.go:11 | after a prefix p, the pattern finds exactly the digits d when d has at most four digits and either has four or is not preceded by a digit of p |
| SemVerProofs.DotInPrefixIsLost | semver.go:87-96 | a prefix containing a dot never survives the text round trip |
| SemVerProofs.MatchIsMajor | semver.go:91 | with no dot in the prefix, the pattern finds exactly the major's digits if and only if the round-trip condition holds |
| SemVerProofs.ScanFormat | semver.go:73-113 | UnmarshalText(String()) restores all four fields, without error, if and only if the prefix has no dot, major ≤ 9999, and major has four digits or the prefix does not end in a digit |
| SemVerProofs.MatchOfFiveDigits | semver.go:11 | after five digits the pattern takes only the last four |
| SemVerProofs.WideMajorShiftsDigit | semver.go:91-101 | a five-digit major loses its first digit to the prefix on the round trip (`v12345.0.0` gives prefix `v1`, major 2345) |
| SemVerProofs.ShortMajorTakesPrefixDigit | semver.go:91-101 | a major of fewer than four digits after a prefix ending in a digit parses back with a shorter prefix (`a1` with major 2 gives `a12.0.0`, parsed as prefix `a`, major 12) |
| SemVerProofs.ScanJsonStrips | semver.go:122-128 | UnmarshalJSON parses the bytes between the first and last byte as text, whatever those two bytes are |
| SemVerProofs.JsonSeesEscapedPrefix | semver.go:116-128 | UnmarshalJSON(MarshalJSON()) parses the text form with the prefix as escaped by `Quote`, since nothing undoes the escaping |
| SemVerProofs.JsonRoundTrip | semver.go:116-128 | for a prefix with nothing to escape, the JSON round trip restores the fields exactly when the text round trip does |

The getters `GetPrefix`, `GetMajor`, `GetMinor` and `GetPatch`
(semver.go:23-40) are plain field reads. They have no contract of their own;
the setters' contracts are stated through them.

## Left out

- SemVer.FormatJson: defined only for a prefix of ASCII bytes. For bytes from 0x80 up, `strconv.Quote` decodes UTF-8 and consults Unicode printability tables, which are not modelled.
- SemVer.Version.MarshalJSON: requires an ASCII prefix, for the same reason as `FormatJson`.
- Error messages: the `fmt.Errorf` texts and the fields of `*strconv.NumError` (function name, input) are reduced to the error kinds `SegmentCount`, `Number(ErrSyntax)`, `Number(ErrRange)` and `TooShort`.
- The regexp engine: only the one pattern `[0-9]{1,4}$` is modelled, as a leftmost-first search over start positions.
- `fmt.Sprintf` is modelled only for the format `%s%v.%v.%v` with a byte-string prefix and unsigned segments.
- `strings.Split` is modelled only for a one-byte separator, the only one the code uses.
- The `encoding.TextMarshaler`, `encoding.TextUnmarshaler` and `json` interfaces, and how the standard library calls these methods, are not modelled. Only the method bodies are.
- Unicode: strings are byte sequences, as Go's byte-indexed slicing at semver.go:93 treats them.
- Aliasing across goroutines and concurrent use: the library provides no synchronisation.
