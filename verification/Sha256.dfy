/**
 * Digests in their textual form. `sha` is SHA-256 itself, which stays a parameter.
 */
module Sha256 {
  import opened Text
  import opened CanonicalJson

  type RawDigest = seq<Byte> -> seq<Byte>

  const PREFIX: JsString := Ascii("sha256:")

  function HexText(bytes: seq<Byte>): (r: JsString)
    ensures |r| == 2 * |bytes|
    ensures forall i :: 0 <= i < |r| ==> r[i] < 0x80
  {
    if bytes == [] then [] else [HexDigit(bytes[0] / 16), HexDigit(bytes[0] % 16)] + HexText(bytes[1..])
  }

  /** `sha256Bytes`: a tag and the digest in lower-case hexadecimal. */
  function Sha256Bytes(sha: RawDigest, bytes: seq<Byte>): JsString {
    PREFIX + HexText(sha(bytes))
  }

  function Textual(sha: RawDigest): seq<Byte> -> JsString {
    bytes => Sha256Bytes(sha, bytes)
  }

  lemma {:induction false} HexInjective(a: seq<Byte>, b: seq<Byte>)
    requires HexText(a) == HexText(b)
    ensures a == b
  {
    assert |a| == |b|;
    if a != [] {
      var x, y := HexText(a), HexText(b);
      assert x[0] == y[0] && x[1] == y[1];
      assert x[2..] == HexText(a[1..]) && y[2..] == HexText(b[1..]);
      HexInjective(a[1..], b[1..]);
      assert a[0] == 16 * (a[0] / 16) + a[0] % 16 && b[0] == 16 * (b[0] / 16) + b[0] % 16;
    }
  }

  /** The text says as much as the raw digest, and can always be canonicalized. */
  lemma TextualFaithful(sha: RawDigest, x: seq<Byte>, y: seq<Byte>)
    ensures Textual(sha)(x) == Textual(sha)(y) <==> sha(x) == sha(y)
    ensures NoCollision(Textual(sha), x, y) <==> NoCollision(sha, x, y)
    ensures WellFormed(Textual(sha)(x))
  {
    var s, t := Textual(sha)(x), Textual(sha)(y);
    assert s[|PREFIX|..] == HexText(sha(x)) && t[|PREFIX|..] == HexText(sha(y));
    if s == t { HexInjective(sha(x), sha(y)); }
    BelowSurrogatesWellFormed(s);
  }

  const CR: CodeUnit := 0x0D
  const LF: CodeUnit := 0x0A

  /** `value.replace(/\r\n?/gu, '\n')`. */
  function ToLf(s: JsString): JsString {
    if s == [] then []
    else if s[0] != CR then [s[0]] + ToLf(s[1..])
    else [LF] + ToLf(if |s| > 1 && s[1] == LF then s[2..] else s[1..])
  }

  /** `sha256Text`. */
  function Sha256Text(sha: RawDigest, s: JsString): JsString {
    Sha256Bytes(sha, Encode(ToLf(s)))
  }

  lemma {:induction false} ToLfIdempotent(s: JsString)
    ensures CR !in ToLf(s) && ToLf(ToLf(s)) == ToLf(s)
    decreases |s|
  {
    if s != [] {
      var rest := if s[0] == CR && |s| > 1 && s[1] == LF then s[2..] else s[1..];
      ToLfIdempotent(rest);
      var t := ToLf(s);
      assert t == [t[0]] + ToLf(rest) && t[0] != CR;
      assert t[1..] == ToLf(rest);
    }
  }
}
