/**
 * JavaScript strings as sequences of UTF-16 code units, the two encodings the
 * program reads them through, and the lexicographic order both comparators share.
 */
module Text {

  type CodeUnit = u: int | 0 <= u < 0x1_0000
  type Byte = b: int | 0 <= b < 0x100
  /** A Unicode scalar value: any code point that is not a surrogate. */
  type Scalar = c: int | (0 <= c < 0xD800) || (0xE000 <= c < 0x11_0000)
  type JsString = seq<CodeUnit>

  const REPLACEMENT: Scalar := 0xFFFD

  /** The code units of an ASCII literal. */
  function Ascii(s: string): (r: JsString)
    requires forall i :: 0 <= i < |s| ==> s[i] < 128 as char
    ensures |r| == |s| && forall i :: 0 <= i < |s| ==> r[i] == s[i] as int
  {
    seq(|s|, i requires 0 <= i < |s| => s[i] as int)
  }

  predicate IsHighSurrogate(u: CodeUnit) { 0xD800 <= u < 0xDC00 }

  predicate IsLowSurrogate(u: CodeUnit) { 0xDC00 <= u < 0xE000 }

  predicate StartsWithPair(s: JsString) {
    |s| >= 2 && IsHighSurrogate(s[0]) && IsLowSurrogate(s[1])
  }

  /** `String.prototype.isWellFormed`: no lone surrogate. */
  predicate WellFormed(s: JsString) {
    if s == [] then true
    else if StartsWithPair(s) then WellFormed(s[2..])
    else !IsHighSurrogate(s[0]) && !IsLowSurrogate(s[0]) && WellFormed(s[1..])
  }

  function PairValue(high: CodeUnit, low: CodeUnit): Scalar
    requires IsHighSurrogate(high) && IsLowSurrogate(low)
  {
    0x1_0000 + (high - 0xD800) * 0x400 + (low - 0xDC00)
  }

  /** The scalar values a `TextEncoder` sees: each lone surrogate becomes U+FFFD. */
  function Scalars(s: JsString): seq<Scalar> {
    if s == [] then []
    else if StartsWithPair(s) then [PairValue(s[0], s[1])] + Scalars(s[2..])
    else if IsHighSurrogate(s[0]) || IsLowSurrogate(s[0]) then [REPLACEMENT] + Scalars(s[1..])
    else [s[0]] + Scalars(s[1..])
  }

  function Utf16Of(c: Scalar): JsString {
    if c < 0x1_0000 then [c]
    else [0xD800 + (c - 0x1_0000) / 0x400, 0xDC00 + (c - 0x1_0000) % 0x400]
  }

  function Utf16(cs: seq<Scalar>): JsString {
    if cs == [] then [] else Utf16Of(cs[0]) + Utf16(cs[1..])
  }

  /** RFC 3629 section 3. */
  function Utf8Of(c: Scalar): seq<Byte> {
    if c < 0x80 then [c]
    else if c < 0x800 then [0xC0 + c / 0x40, 0x80 + c % 0x40]
    else if c < 0x1_0000 then [0xE0 + c / 0x1000, 0x80 + c / 0x40 % 0x40, 0x80 + c % 0x40]
    else [0xF0 + c / 0x4_0000, 0x80 + c / 0x1000 % 0x40, 0x80 + c / 0x40 % 0x40, 0x80 + c % 0x40]
  }

  function Utf8(cs: seq<Scalar>): seq<Byte> {
    if cs == [] then [] else Utf8Of(cs[0]) + Utf8(cs[1..])
  }

  /** `new TextEncoder().encode(s)`. */
  function Encode(s: JsString): seq<Byte> {
    Utf8(Scalars(s))
  }

  /** Lexicographic comparison: -1, 0 or 1; a proper prefix comes first. */
  function Lex(a: seq<int>, b: seq<int>): int {
    if a == [] && b == [] then 0
    else if a == [] then -1
    else if b == [] then 1
    else if a[0] != b[0] then (if a[0] < b[0] then -1 else 1)
    else Lex(a[1..], b[1..])
  }

  lemma {:induction false} LexLaws(a: seq<int>, b: seq<int>)
    ensures Lex(a, b) == -Lex(b, a)
    ensures Lex(a, b) == 0 <==> a == b
  {
    if a != [] && b != [] && a[0] == b[0] {
      LexLaws(a[1..], b[1..]);
      assert a == [a[0]] + a[1..] && b == [b[0]] + b[1..];
    }
  }

  lemma {:induction false} LexTransitive(a: seq<int>, b: seq<int>, c: seq<int>)
    requires Lex(a, b) <= 0 && Lex(b, c) <= 0
    ensures Lex(a, c) <= 0
    ensures Lex(a, b) < 0 || Lex(b, c) < 0 ==> Lex(a, c) < 0
  {
    if a != [] && b != [] && c != [] && a[0] == b[0] == c[0] {
      LexTransitive(a[1..], b[1..], c[1..]);
    }
  }

  lemma {:induction false} LexCommonPrefix(p: seq<int>, a: seq<int>, b: seq<int>)
    ensures Lex(p + a, p + b) == Lex(a, b)
  {
    if p == [] {
      assert p + a == a && p + b == b;
    } else {
      assert (p + a)[1..] == p[1..] + a && (p + b)[1..] == p[1..] + b;
      LexCommonPrefix(p[1..], a, b);
    }
  }

  /** Once two sequences differ inside both, what follows is irrelevant. */
  lemma {:induction false} LexDecided(a: seq<int>, b: seq<int>, r: seq<int>, t: seq<int>, k: nat)
    requires k < |a| && k < |b| && a[..k] == b[..k] && a[k] != b[k]
    ensures Lex(a + r, b + t) == Lex(a, b) == if a[k] < b[k] then -1 else 1
  {
    LexCommonPrefix(a[..k], a[k..], b[k..]);
    LexCommonPrefix(a[..k], a[k..] + r, b[k..] + t);
    assert a == a[..k] + a[k..] && b == a[..k] + b[k..];
    assert a + r == a[..k] + (a[k..] + r) && b + t == a[..k] + (b[k..] + t);
  }

  /** Comparison of equally long tuples, component by component. */
  function LexTuple(a: seq<seq<int>>, b: seq<seq<int>>): int
    requires |a| == |b|
  {
    if a == [] then 0
    else
      var c := Lex(a[0], b[0]);
      if c != 0 then c else LexTuple(a[1..], b[1..])
  }

  lemma {:induction false} LexTupleLaws(a: seq<seq<int>>, b: seq<seq<int>>)
    requires |a| == |b|
    ensures LexTuple(a, b) == -LexTuple(b, a)
    ensures LexTuple(a, b) == 0 <==> a == b
  {
    if a != [] {
      LexLaws(a[0], b[0]);
      LexTupleLaws(a[1..], b[1..]);
      assert a == [a[0]] + a[1..] && b == [b[0]] + b[1..];
    }
  }

  lemma {:induction false} LexTupleTransitive(a: seq<seq<int>>, b: seq<seq<int>>, c: seq<seq<int>>)
    requires |a| == |b| == |c|
    requires LexTuple(a, b) <= 0 && LexTuple(b, c) <= 0
    ensures LexTuple(a, c) <= 0
    ensures LexTuple(a, b) < 0 || LexTuple(b, c) < 0 ==> LexTuple(a, c) < 0
  {
    if a != [] {
      LexTransitive(a[0], b[0], c[0]);
      LexLaws(a[0], b[0]);
      LexLaws(b[0], c[0]);
      LexLaws(a[0], c[0]);
      if Lex(a[0], b[0]) == 0 && Lex(b[0], c[0]) == 0 {
        LexTupleTransitive(a[1..], b[1..], c[1..]);
      }
    }
  }

  // --- strings and scalar values -------------------------------------------

  /** A well-formed string is its scalar values, re-encoded. */
  lemma {:induction false} ScalarsRoundTrip(s: JsString)
    requires WellFormed(s)
    ensures Utf16(Scalars(s)) == s
  {
    if s == [] {
    } else if StartsWithPair(s) {
      ScalarsRoundTrip(s[2..]);
      var c: int := PairValue(s[0], s[1]);
      assert (c - 0x1_0000) / 0x400 == s[0] - 0xD800 && (c - 0x1_0000) % 0x400 == s[1] - 0xDC00;
      assert s == [s[0], s[1]] + s[2..];
    } else {
      ScalarsRoundTrip(s[1..]);
      assert s == [s[0]] + s[1..];
    }
  }

  /** Different well-formed strings have different scalar values. */
  lemma ScalarsInjective(a: JsString, b: JsString)
    requires WellFormed(a) && WellFormed(b)
    requires Scalars(a) == Scalars(b)
    ensures a == b
  {
    ScalarsRoundTrip(a);
    ScalarsRoundTrip(b);
  }

  // --- UTF-8 keeps code point order (RFC 3629 section 1) ---------------------

  /** The first byte grows with the length of the encoding. */
  lemma Utf8LeadByte(c: Scalar)
    ensures var b := Utf8Of(c);
            match |b|
            case 1 => b[0] < 0x80
            case 2 => 0xC0 <= b[0] < 0xE0
            case 3 => 0xE0 <= b[0] < 0xF0
            case _ => 0xF0 <= b[0]
  {
  }

  /** The byte at which the encodings of two ordered scalar values part, in order. */
  lemma Utf8OfParts(c: Scalar, d: Scalar) returns (k: nat)
    requires c < d && |Utf8Of(c)| == |Utf8Of(d)|
    ensures var a, b := Utf8Of(c), Utf8Of(d);
            k < |a| && a[..k] == b[..k] && a[k] < b[k]
  {
    var a, b := Utf8Of(c), Utf8Of(d);
    var x: int, y: int := c, d;
    if |a| == 1 {
      k := 0;
    } else if |a| == 2 {
      k := if a[0] != b[0] then 0 else 1;
    } else if |a| == 3 {
      k := if a[0] != b[0] then 0 else if a[1] != b[1] then 1 else 2;
      assert x / 0x1000 == x / 0x40 / 0x40 && y / 0x1000 == y / 0x40 / 0x40;
    } else {
      k := if a[0] != b[0] then 0 else if a[1] != b[1] then 1 else if a[2] != b[2] then 2 else 3;
      assert x / 0x1000 == x / 0x40 / 0x40 && y / 0x1000 == y / 0x40 / 0x40;
      assert x / 0x4_0000 == x / 0x1000 / 0x40 && y / 0x4_0000 == y / 0x1000 / 0x40;
    }
  }

  lemma Utf8OfOrder(c: Scalar, d: Scalar, r: seq<int>, t: seq<int>)
    requires c < d
    ensures Lex(Utf8Of(c) + r, Utf8Of(d) + t) == -1
  {
    if |Utf8Of(c)| == |Utf8Of(d)| {
      var k := Utf8OfParts(c, d);
      LexDecided(Utf8Of(c), Utf8Of(d), r, t, k);
    } else {
      Utf8LeadByte(c);
      Utf8LeadByte(d);
      LexDecided(Utf8Of(c), Utf8Of(d), r, t, 0);
    }
  }

  lemma {:induction false} Utf8Order(x: seq<Scalar>, y: seq<Scalar>)
    ensures Lex(Utf8(x), Utf8(y)) == Lex(x, y)
  {
    if x != [] && y != [] {
      if x[0] < y[0] {
        Utf8OfOrder(x[0], y[0], Utf8(x[1..]), Utf8(y[1..]));
      } else if y[0] < x[0] {
        Utf8OfOrder(y[0], x[0], Utf8(y[1..]), Utf8(x[1..]));
        LexLaws(Utf8(x), Utf8(y));
      } else {
        LexCommonPrefix(Utf8Of(x[0]), Utf8(x[1..]), Utf8(y[1..]));
        Utf8Order(x[1..], y[1..]);
      }
    }
  }

  /** `TextEncoder` identifies exactly the strings with the same scalar values. */
  lemma EncodeIdentifies(a: JsString, b: JsString)
    ensures Encode(a) == Encode(b) <==> Scalars(a) == Scalars(b)
  {
    Utf8Order(Scalars(a), Scalars(b));
    LexLaws(Encode(a), Encode(b));
    LexLaws(Scalars(a), Scalars(b));
  }

  // --- UTF-16 keeps it except across the surrogate gap ------------------------

  /** One scalar value needs a surrogate pair, the other sits above the surrogates in the BMP. */
  predicate AcrossTheGap(c: Scalar, d: Scalar) {
    (c >= 0x1_0000 && 0xE000 <= d < 0x1_0000) || (d >= 0x1_0000 && 0xE000 <= c < 0x1_0000)
  }

  lemma Utf16OfOrder(c: Scalar, d: Scalar, r: seq<int>, t: seq<int>)
    requires c < d
    ensures Lex(Utf16Of(c) + r, Utf16Of(d) + t) == if AcrossTheGap(c, d) then 1 else -1
  {
    var a, b := Utf16Of(c), Utf16Of(d);
    if a[0] != b[0] {
      LexDecided(a, b, r, t, 0);
    } else {
      LexDecided(a, b, r, t, 1);
    }
  }

  /** How far two sequences of scalar values agree. */
  function Agreement(x: seq<Scalar>, y: seq<Scalar>): (k: nat)
    ensures k <= |x| && k <= |y| && x[..k] == y[..k]
    ensures k < |x| && k < |y| ==> x[k] != y[k]
  {
    if x == [] || y == [] || x[0] != y[0] then 0
    else
      var k := Agreement(x[1..], y[1..]);
      assert x[..k + 1] == [x[0]] + x[1..][..k] && y[..k + 1] == [y[0]] + y[1..][..k];
      k + 1
  }

  /** The first differing scalar values lie on the two sides of the surrogate gap. */
  predicate PartAcrossTheGap(x: seq<Scalar>, y: seq<Scalar>) {
    var k := Agreement(x, y);
    k < |x| && k < |y| && AcrossTheGap(x[k], y[k])
  }

  lemma {:induction false} Utf16Order(x: seq<Scalar>, y: seq<Scalar>)
    ensures Lex(Utf16(x), Utf16(y)) == if PartAcrossTheGap(x, y) then -Lex(x, y) else Lex(x, y)
    ensures PartAcrossTheGap(x, y) ==> Lex(x, y) != 0
  {
    LexLaws(x, y);
    if x != [] && y != [] {
      if x[0] < y[0] {
        Utf16OfOrder(x[0], y[0], Utf16(x[1..]), Utf16(y[1..]));
      } else if y[0] < x[0] {
        Utf16OfOrder(y[0], x[0], Utf16(y[1..]), Utf16(x[1..]));
        LexLaws(Utf16(x), Utf16(y));
      } else {
        LexCommonPrefix(Utf16Of(x[0]), Utf16(x[1..]), Utf16(y[1..]));
        Utf16Order(x[1..], y[1..]);
      }
    }
  }
}
