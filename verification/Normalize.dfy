/**
 * Comparators and path normalization. Unicode normalization itself is a parameter:
 * `nfc` stands for `value.normalize('NFC')`.
 */
module Normalize {
  import opened Text

  /** Relative POSIX path, UTF-8 byte order. */
  method CompareUtf8Bytes(a: JsString, b: JsString) returns (c: int)
    ensures c == Lex(Encode(a), Encode(b))
  {
    hide Encode, Lex;
    var left, right := Encode(a), Encode(b);
    var shared := if |left| < |right| then |left| else |right|;
    var i := 0;
    while i < shared
      invariant i <= shared && left[..i] == right[..i]
    {
      var l, r := left[i], right[i];
      if l != r {
        LexDecided(left, right, [], [], i);
        assert left + [] == left && right + [] == right;
        return if l < r then -1 else 1;
      }
      assert left[..i + 1] == left[..i] + [l] && right[..i + 1] == right[..i] + [r];
      i := i + 1;
    }
    LexOfPrefix(left, right, shared);
    c := if |left| == |right| then 0 else if |left| < |right| then -1 else 1;
  }

  /** Object keys: UTF-16 code units (RFC 8785 section 3.2.3). */
  method CompareUtf16CodeUnits(a: JsString, b: JsString) returns (c: int)
    ensures c == Lex(a, b)
  {
    var shared := if |a| < |b| then |a| else |b|;
    var i := 0;
    while i < shared
      invariant i <= shared && a[..i] == b[..i]
    {
      var l, r := a[i], b[i];
      if l != r {
        LexDecided(a, b, [], [], i);
        assert a + [] == a && b + [] == b;
        return if l < r then -1 else 1;
      }
      assert a[..i + 1] == a[..i] + [l] && b[..i + 1] == b[..i] + [r];
      i := i + 1;
    }
    LexOfPrefix(a, b, shared);
    c := if |a| == |b| then 0 else if |a| < |b| then -1 else 1;
  }

  lemma LexOfPrefix(a: seq<int>, b: seq<int>, k: nat)
    requires k <= |a| && k <= |b| && a[..k] == b[..k] && (k == |a| || k == |b|)
    ensures Lex(a, b) == if |a| == |b| then 0 else if |a| < |b| then -1 else 1
  {
    LexCommonPrefix(a[..k], a[k..], b[k..]);
    assert a == a[..k] + a[k..] && b == a[..k] + b[k..];
  }

  function CompareUtf8(a: JsString, b: JsString): int { Lex(Encode(a), Encode(b)) }

  function CompareUtf16(a: JsString, b: JsString): int { Lex(a, b) }

  /** The UTF-8 order of well-formed strings is a total order, and it is code point order. */
  lemma {:induction false} Utf8IsCodePointOrder(a: JsString, b: JsString)
    requires WellFormed(a) && WellFormed(b)
    ensures CompareUtf8(a, b) == Lex(Scalars(a), Scalars(b)) == -CompareUtf8(b, a)
    ensures CompareUtf8(a, b) == 0 <==> a == b
  {
    Utf8Order(Scalars(a), Scalars(b));
    LexLaws(Encode(a), Encode(b));
    LexLaws(Scalars(a), Scalars(b));
    if Scalars(a) == Scalars(b) { ScalarsInjective(a, b); }
  }

  /**
   * The two comparators disagree exactly when the strings first differ between a
   * character outside the BMP and one in U+E000..U+FFFF; then they are opposite.
   */
  lemma {:induction false} ComparatorsDisagree(a: JsString, b: JsString)
    requires WellFormed(a) && WellFormed(b)
    ensures CompareUtf16(a, b) != CompareUtf8(a, b) <==> PartAcrossTheGap(Scalars(a), Scalars(b))
    ensures PartAcrossTheGap(Scalars(a), Scalars(b)) ==> CompareUtf16(a, b) == -CompareUtf8(a, b)
  {
    Utf8Order(Scalars(a), Scalars(b));
    Utf16Order(Scalars(a), Scalars(b));
    ScalarsRoundTrip(a);
    ScalarsRoundTrip(b);
  }

  /** On any strings, the UTF-8 order ties exactly those a `TextEncoder` cannot tell apart. */
  lemma {:induction false} Utf8Ties(a: JsString, b: JsString)
    ensures CompareUtf8(a, b) == 0 <==> Scalars(a) == Scalars(b)
  {
    LexLaws(Encode(a), Encode(b));
    EncodeIdentifies(a, b);
  }

  /** Two different strings that tie: a lone surrogate and the replacement character. */
  lemma LoneSurrogateTies()
    ensures [0xD800] != [0xFFFD] && CompareUtf8([0xD800], [0xFFFD]) == 0
  {
    assert Scalars([0xD800]) == [0xFFFD] && Scalars([0xFFFD]) == [0xFFFD];
    Utf8Ties([0xD800], [0xFFFD]);
  }

  // --- paths -------------------------------------------------------------------

  const SLASH: CodeUnit := 0x2F
  const BACKSLASH: CodeUnit := 0x5C
  const POINT: CodeUnit := 0x2E
  const DRIVE_COLON: CodeUnit := 0x3A

  datatype PathResult = Path(path: JsString) | InvalidPath

  function Unify(s: JsString): (r: JsString)
    ensures |r| == |s| && forall i :: 0 <= i < |s| ==> r[i] == if s[i] == BACKSLASH then SLASH else s[i]
    ensures BACKSLASH !in r
  {
    if s == [] then [] else [if s[0] == BACKSLASH then SLASH else s[0]] + Unify(s[1..])
  }

  /** `s.split('/')`. */
  function Segments(s: JsString): (r: seq<JsString>)
    ensures r != []
    ensures forall i :: 0 <= i < |r| ==> SLASH !in r[i]
  {
    if s == [] then [[]]
    else if s[0] == SLASH then [[]] + Segments(s[1..])
    else
      var rest := Segments(s[1..]);
      [[s[0]] + rest[0]] + rest[1..]
  }

  predicate HasDriveLetter(s: JsString) {
    |s| >= 2 && (0x41 <= s[0] <= 0x5A || 0x61 <= s[0] <= 0x7A) && s[1] == DRIVE_COLON
  }

  predicate BadSegment(s: JsString) { s == [] || s == [POINT] || s == [POINT, POINT] }

  /** Cleaning up is refused: a path that needs it is an error. */
  function NormalizeRelativePosixPath(nfc: JsString -> JsString, value: JsString): PathResult {
    var unified := Unify(nfc(value));
    if unified == [] || unified[0] == SLASH || HasDriveLetter(unified) then InvalidPath
    else if exists i :: 0 <= i < |Segments(unified)| && BadSegment(Segments(unified)[i]) then InvalidPath
    else Path(unified)
  }

  function JoinSegments(parts: seq<JsString>): JsString
    requires parts != []
  {
    if |parts| == 1 then parts[0] else parts[0] + [SLASH] + JoinSegments(parts[1..])
  }

  lemma {:induction false} SegmentsRoundTrip(s: JsString)
    ensures JoinSegments(Segments(s)) == s
  {
    if s != [] {
      var rest := Segments(s[1..]);
      SegmentsRoundTrip(s[1..]);
      assert s == [s[0]] + s[1..];
      if s[0] == SLASH {
        assert Segments(s)[1..] == rest;
      } else {
        assert Segments(s)[1..] == rest[1..];
        assert |rest| > 1 ==> [s[0]] + (rest[0] + [SLASH] + JoinSegments(rest[1..])) == [s[0]] + rest[0] + [SLASH] + JoinSegments(rest[1..]);
      }
    }
  }

  ghost predicate GoodSegments(parts: seq<JsString>) {
    parts != [] && forall i :: 0 <= i < |parts| ==>
      parts[i] != [] && parts[i] != ['.' as int] && parts[i] != ['.' as int, '.' as int] && '/' as int !in parts[i]
  }

  lemma {:induction false} SegmentsOfPiece(a: JsString, s: JsString)
    requires SLASH !in a
    ensures Segments(a) == [a]
    ensures Segments(a + [SLASH] + s) == [a] + Segments(s)
  {
    if a == [] {
      assert a + [SLASH] + s == [SLASH] + s;
      assert ([SLASH] + s)[1..] == s;
    } else {
      SegmentsOfPiece(a[1..], s);
      assert a == [a[0]] + a[1..];
      assert (a + [SLASH] + s)[1..] == a[1..] + [SLASH] + s;
    }
  }

  lemma {:induction false} SegmentsOfJoined(parts: seq<JsString>)
    requires parts != [] && forall i :: 0 <= i < |parts| ==> SLASH !in parts[i]
    ensures Segments(JoinSegments(parts)) == parts
  {
    if |parts| == 1 {
      SegmentsOfPiece(parts[0], []);
    } else {
      SegmentsOfJoined(parts[1..]);
      SegmentsOfPiece(parts[0], JoinSegments(parts[1..]));
    }
  }

  lemma JoinedStart(parts: seq<JsString>)
    requires GoodSegments(parts)
    ensures JoinSegments(parts) != [] && JoinSegments(parts)[0] != SLASH
  {
    assert !BadSegment(parts[0]);
  }

  /** A letter and a colon in front. */
  ghost predicate StartsWithDrive(s: JsString) {
    |s| >= 2 && s[1] == ':' as int && ('A' as int <= s[0] <= 'Z' as int || 'a' as int <= s[0] <= 'z' as int)
  }

  /**
   * A path is accepted exactly when, once separators are unified, it is the joining of
   * segments that are neither empty nor `.` nor `..`, and carries no drive letter.
   */
  lemma {:induction false} AcceptedPath(nfc: JsString -> JsString, value: JsString)
    ensures NormalizeRelativePosixPath(nfc, value).Path? <==>
              && !StartsWithDrive(Unify(nfc(value)))
              && exists parts :: GoodSegments(parts) && JoinSegments(parts) == Unify(nfc(value))
    ensures NormalizeRelativePosixPath(nfc, value).Path? ==>
              NormalizeRelativePosixPath(nfc, value).path == Unify(nfc(value)) && BACKSLASH !in Unify(nfc(value))
  {
    hide JoinSegments, Segments;
    var u := Unify(nfc(value));
    SegmentsRoundTrip(u);
    if NormalizeRelativePosixPath(nfc, value).Path? {
      assert GoodSegments(Segments(u)) && JoinSegments(Segments(u)) == u;
    }
    if exists parts :: GoodSegments(parts) && JoinSegments(parts) == u {
      var parts :| GoodSegments(parts) && JoinSegments(parts) == u;
      SegmentsOfJoined(parts);
      JoinedStart(parts);
    }
  }

  lemma {:induction false} UnifyAgain(s: JsString)
    requires BACKSLASH !in s
    ensures Unify(s) == s
  {
    if s != [] { UnifyAgain(s[1..]); }
  }

  /** What was accepted is accepted again as it stands, if it is still normalized. */
  lemma {:induction false} AcceptedAgain(nfc: JsString -> JsString, value: JsString)
    requires NormalizeRelativePosixPath(nfc, value).Path?
    requires nfc(NormalizeRelativePosixPath(nfc, value).path) == NormalizeRelativePosixPath(nfc, value).path
    ensures NormalizeRelativePosixPath(nfc, NormalizeRelativePosixPath(nfc, value).path) == NormalizeRelativePosixPath(nfc, value)
  {
    hide Segments;
    UnifyAgain(NormalizeRelativePosixPath(nfc, value).path);
  }

  /** A single plain segment is a path as it stands. */
  lemma PlainPath(nfc: JsString -> JsString, p: JsString)
    requires nfc(p) == p && BACKSLASH !in p && SLASH !in p && !BadSegment(p) && !HasDriveLetter(p)
    ensures NormalizeRelativePosixPath(nfc, p) == Path(p)
  {
    hide Unify, Segments;
    UnifyAgain(p);
    SegmentsOfPiece(p, []);
  }
}
