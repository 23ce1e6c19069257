/**
 * How identifiers and digests are spelled, symbol by symbol, in the alphabets that
 * RFC 4648, Crockford's base32 and hexadecimal write down.
 */
module WrittenForms {
  import opened Text
  import opened Base32
  import CanonicalJson
  import Sha256
  import Ids

  const RFC_4648: string := "ABCDEFGHIJKLMNOPQRSTUVWXYZ234567"
  const CROCKFORD: string := "0123456789ABCDEFGHJKMNPQRSTVWXYZ"
  const HEX: string := "0123456789abcdef"

  lemma AlphabetSizes()
    ensures |RFC_4648| == 32 == |CROCKFORD| && |HEX| == 16
  {
  }

  // --- base32, bit by bit -------------------------------------------------------------

  const WEIGHTS: seq<int> := [128, 64, 32, 16, 8, 4, 2, 1]

  /** Bit `p` of a byte string, the most significant bit of each byte first; zeros after the end. */
  function BitAt(bytes: seq<Byte>, p: nat): int {
    if p / 8 < |bytes| then bytes[p / 8] / WEIGHTS[p % 8] % 2 else 0
  }

  function FiveBits(bytes: seq<Byte>, p: nat): int {
    16 * BitAt(bytes, p) + 8 * BitAt(bytes, p + 1) + 4 * BitAt(bytes, p + 2) + 2 * BitAt(bytes, p + 3) + BitAt(bytes, p + 4)
  }

  lemma FiveBitsBound(bytes: seq<Byte>, p: nat)
    ensures 0 <= FiveBits(bytes, p) < 32
  {
    BitBound(bytes, p);
    BitBound(bytes, p + 1);
    BitBound(bytes, p + 2);
    BitBound(bytes, p + 3);
    BitBound(bytes, p + 4);
  }

  lemma BitBound(bytes: seq<Byte>, p: nat)
    ensures 0 <= BitAt(bytes, p) <= 1
  {
  }

  lemma SymbolIs(d: int)
    requires 0 <= d < 32
    ensures |RFC_4648| == 32 && Symbol(d) == RFC_4648[d] as int
  {
  }

  lemma ByteUnrolled(n: Byte, j: nat)
    requires j < 8
    ensures BitsOf(n, 8)[j] == n / WEIGHTS[j] % 2
  {
    hide BitsOf;
    LastBit(n, 8);
    LastBit(n / 2, 7);
    LastBit(n / 4, 6);
    LastBit(n / 8, 5);
    LastBit(n / 16, 4);
    LastBit(n / 32, 3);
    LastBit(n / 64, 2);
    LastBit(n / 128, 1);
    var bits := BitsOf(n, 8);
    assert bits[..7][..6][..5][..4] == bits[..4] && bits[..4][..3][..2][..1] == bits[..1];
    Halves(n);
  }

  lemma LastBit(n: nat, width: nat)
    requires width > 0
    ensures BitsOf(n, width)[width - 1] == n % 2 && BitsOf(n, width)[..width - 1] == BitsOf(n / 2, width - 1)
  {
  }

  lemma Halves(n: nat)
    ensures n / 2 / 2 == n / 4 && n / 4 / 2 == n / 8 && n / 8 / 2 == n / 16 && n / 16 / 2 == n / 32
    ensures n / 32 / 2 == n / 64 && n / 64 / 2 == n / 128
  {
  }

  lemma {:induction false} BitsAre(bytes: seq<Byte>, p: nat)
    requires p < 8 * |bytes|
    ensures ByteBits(bytes)[p] == BitAt(bytes, p)
  {
    hide BitsOf;
    var front := bytes[..|bytes| - 1];
    if p < 8 * |front| {
      BitsAre(front, p);
    } else {
      ByteUnrolled(bytes[|bytes| - 1], p - 8 * |front|);
    }
  }

  function BitOr0(bits: Bits, p: nat): int { if p < |bits| then bits[p] else 0 }

  lemma GroupValue(group: Bits)
    requires |group| == 5
    ensures ValueOf(group) == 16 * BitOr0(group, 0) + 8 * BitOr0(group, 1) + 4 * BitOr0(group, 2) + 2 * BitOr0(group, 3) + BitOr0(group, 4)
  {
    hide ValueOf;
    ValueStep(group);
    ValueStep(group[..4]);
    ValueStep(group[..3]);
    ValueStep(group[..2]);
    ValueStep(group[..1]);
    assert group[..4][..3] == group[..3] && group[..3][..2] == group[..2] && group[..2][..1] == group[..1] && group[..1][..0] == [];
    NoValue();
  }

  lemma ValueStep(bits: Bits)
    requires bits != []
    ensures ValueOf(bits) == 2 * ValueOf(bits[..|bits| - 1]) + BitOr0(bits, |bits| - 1)
  {
  }

  lemma NoValue()
    ensures ValueOf([]) == 0
  {
  }

  lemma ZeroBits(n: nat)
    ensures forall i :: 0 <= i < n ==> Base32.Zeros(n)[i] == 0
  {
  }

  lemma {:induction false} TextAt(bits: Bits, k: nat)
    requires 5 * k < |bits|
    ensures k < |Base32Text(bits)|
    ensures var d := 16 * BitOr0(bits, 5 * k) + 8 * BitOr0(bits, 5 * k + 1) + 4 * BitOr0(bits, 5 * k + 2)
                     + 2 * BitOr0(bits, 5 * k + 3) + BitOr0(bits, 5 * k + 4);
            0 <= d < 32 && Base32Text(bits)[k] == Symbol(d)
    decreases |bits|
  {
    hide ValueOf;
    if k > 0 {
      TextAt(bits[5..], k - 1);
    } else {
      var group := if |bits| < 5 then bits + Base32.Zeros(5 - |bits|) else bits[..5];
      if |bits| < 5 { ZeroBits(5 - |bits|); }
      GroupValue(group);
      assert forall i :: 0 <= i < 5 ==> group[i] == BitOr0(bits, i);
    }
  }

  /** RFC 4648 section 6: each symbol stands for the next five bits, the last group filled up with zeros. */
  lemma {:induction false} Base32Spells(bytes: seq<Byte>, k: nat)
    requires k < |Base32.Base32(bytes)|
    ensures |RFC_4648| == 32 && 0 <= FiveBits(bytes, 5 * k) < 32
    ensures Base32.Base32(bytes)[k] == RFC_4648[FiveBits(bytes, 5 * k)] as int
  {
    hide Base32Text, ByteBits, Symbol, BitAt;
    var bits := ByteBits(bytes);
    TextAt(bits, k);
    FiveBitsBound(bytes, 5 * k);
    forall p: nat ensures BitOr0(bits, p) == BitAt(bytes, p) {
      if p < |bits| { BitsAre(bytes, p); } else { PastTheEnd(bytes, p); }
    }
    SymbolIs(FiveBits(bytes, 5 * k));
  }

  lemma PastTheEnd(bytes: seq<Byte>, p: nat)
    requires p >= 8 * |bytes|
    ensures BitAt(bytes, p) == 0
  {
  }

  // --- hexadecimal ---------------------------------------------------------------------------

  lemma HexDigitIs(d: int)
    requires 0 <= d < 16
    ensures |HEX| == 16 && CanonicalJson.HexDigit(d) == HEX[d] as int
  {
  }

  lemma {:induction false} HexSpells(bytes: seq<Byte>, i: nat)
    requires i < |bytes|
    ensures |HEX| == 16 && |Sha256.HexText(bytes)| == 2 * |bytes|
    ensures Sha256.HexText(bytes)[2 * i] == HEX[bytes[i] / 16] as int
    ensures Sha256.HexText(bytes)[2 * i + 1] == HEX[bytes[i] % 16] as int
  {
    hide HEX;
    if i == 0 {
      HexDigitIs(bytes[0] / 16);
      HexDigitIs(bytes[0] % 16);
    } else {
      HexSpells(bytes[1..], i - 1);
    }
  }

  // --- ULIDs as numbers --------------------------------------------------------------------------

  /** The place of a symbol in an alphabet. */
  function PlaceIn(alphabet: string, u: int): nat {
    if alphabet == "" || alphabet[0] as int == u then 0 else 1 + PlaceIn(alphabet[1..], u)
  }

  /** Most significant symbol first. */
  function ReadIn(alphabet: string, text: JsString): nat {
    if text == [] then 0 else |alphabet| * ReadIn(alphabet, text[..|text| - 1]) + PlaceIn(alphabet, text[|text| - 1])
  }

  function BigEndian(bytes: seq<Byte>): nat {
    if bytes == [] then 0 else 256 * BigEndian(bytes[..|bytes| - 1]) + bytes[|bytes| - 1]
  }

  lemma CrockfordIs(d: int)
    requires 0 <= d < 32
    ensures |CROCKFORD| == 32 && Ids.Crockford(d) == CROCKFORD[d] as int
  {
  }

  predicate AllDifferent(alphabet: string) {
    forall i, j :: 0 <= i < j < |alphabet| ==> alphabet[i] != alphabet[j]
  }

  lemma CrockfordDifferent()
    ensures AllDifferent(CROCKFORD)
  {
    forall i, j | 0 <= i < j < 32 ensures CROCKFORD[i] != CROCKFORD[j] {
      CrockfordIs(i);
      CrockfordIs(j);
    }
  }

  lemma {:induction false} PlaceOf(alphabet: string, d: nat)
    requires AllDifferent(alphabet) && d < |alphabet|
    ensures PlaceIn(alphabet, alphabet[d] as int) == d
  {
    if d > 0 { PlaceOf(alphabet[1..], d - 1); }
  }

  lemma {:induction false} SymbolsRead(ds: seq<int>)
    requires Ids.DigitsBelow(ds, 32)
    ensures ReadIn(CROCKFORD, Ids.Symbols(ds)) == Ids.Number(ds, 32)
  {
    hide CROCKFORD;
    if ds != [] {
      var front, d := ds[..|ds| - 1], ds[|ds| - 1];
      SymbolsRead(front);
      assert Ids.Symbols(ds)[..|ds| - 1] == Ids.Symbols(front);
      CrockfordDifferent();
      CrockfordIs(d);
      PlaceOf(CROCKFORD, d);
    }
  }

  lemma {:induction false} NumberIsBigEndian(bytes: seq<Byte>)
    requires Ids.DigitsBelow(bytes, 256)
    ensures Ids.Number(bytes, 256) == BigEndian(bytes)
  {
    if bytes != [] { NumberIsBigEndian(bytes[..|bytes| - 1]); }
  }

  /** The ten and the sixteen symbols of a ULID, read in Crockford's alphabet, are the time and the random bytes. */
  lemma {:induction false} UlidReads(timestampMs: nat, random: seq<Byte>)
    requires timestampMs <= Ids.ULID_MAX_TIME && |random| == 10
    ensures |Ids.TimeText(timestampMs)| == 10 && ReadIn(CROCKFORD, Ids.TimeText(timestampMs)) == timestampMs
    ensures |Ids.RandomText(random)| == 16 && ReadIn(CROCKFORD, Ids.RandomText(random)) == BigEndian(random)
  {
    hide Ids.Digits, Ids.Number, Ids.Pow, ReadIn, CROCKFORD;
    Ids.TimeFits();
    SymbolsRead(Ids.Digits(timestampMs, 32, 10));
    Ids.NumberOfDigits(timestampMs, 32, 10);
    Ids.DigitsOfNumber(random, 256);
    SymbolsRead(Ids.Digits(Ids.Number(random, 256), 32, 16));
    Ids.NumberOfDigits(Ids.Number(random, 256), 32, 16);
    NumberIsBigEndian(random);
  }

  // --- deterministic ids ---------------------------------------------------------------------------

  /** The part after the underscore decodes to the digest of the canonical bytes themselves. */
  lemma {:induction false} DeterministicIdDecodes(sha: Sha256.RawDigest, prefix: JsString, value: CanonicalJson.Json)
    requires CanonicalJson.Valid(value)
    ensures var id := Ids.DeterministicId(sha, prefix, value);
            && |prefix| < |id| && id[..|prefix|] == prefix && id[|prefix|] == '_' as int
            && (forall i :: |prefix| < i < |id| ==> IsSymbol(id[i]))
            && Base32Decode(id[|prefix| + 1..]) == sha(Encode(CanonicalJson.Serialize(value)))
  {
    hide Base32.Base32, Base32Decode, CanonicalJson.Serialize, Encode, CanonicalJson.Valid, IsSymbol;
    var digest := sha(Encode(CanonicalJson.Serialize(value)));
    Base32RoundTrip(digest);
    var id := Ids.DeterministicId(sha, prefix, value);
    assert id[|prefix| + 1..] == Base32.Base32(digest);
    forall i | |prefix| < i < |id| ensures IsSymbol(id[i]) { assert id[i] == Base32.Base32(digest)[i - |prefix| - 1]; }
  }

  // --- line ends ---------------------------------------------------------------------------------------

  /** The lines of a text, ended by LF, CR LF or CR. */
  function Lines(s: JsString): (ls: seq<JsString>)
    ensures ls != []
    decreases |s|
  {
    if s == [] then [[]]
    else if s[0] == 0x0D && |s| > 1 && s[1] == 0x0A then [[]] + Lines(s[2..])
    else if s[0] == 0x0D || s[0] == 0x0A then [[]] + Lines(s[1..])
    else
      var others := Lines(s[1..]);
      [[s[0]] + others[0]] + others[1..]
  }

  /** With LF between them. */
  function Unlines(ls: seq<JsString>): JsString
    requires ls != []
  {
    if |ls| == 1 then ls[0] else ls[0] + [0x0A] + Unlines(ls[1..])
  }

  lemma UnlinesFirst(u: CodeUnit, ls: seq<JsString>)
    requires ls != []
    ensures Unlines([[u] + ls[0]] + ls[1..]) == [u] + Unlines(ls)
  {
    hide Unlines;
    var ms := [[u] + ls[0]] + ls[1..];
    assert ms[1..] == ls[1..];
    UnlinesOf(ls);
    UnlinesOf(ms);
    assert |ls| > 1 ==> [u] + ls[0] + [0x0A] + Unlines(ls[1..]) == [u] + (ls[0] + [0x0A] + Unlines(ls[1..]));
  }

  lemma UnlinesOf(ls: seq<JsString>)
    requires ls != []
    ensures Unlines(ls) == if |ls| == 1 then ls[0] else ls[0] + [0x0A] + Unlines(ls[1..])
  {
  }

  /** Text hashing sees a text's lines and nothing of how they were ended. */
  lemma {:induction false} ToLfIsLines(s: JsString)
    ensures Sha256.ToLf(s) == Unlines(Lines(s))
    decreases |s|
  {
    if s != [] {
      var rest := if s[0] == 0x0D && |s| > 1 && s[1] == 0x0A then s[2..] else s[1..];
      ToLfIsLines(rest);
      if s[0] == 0x0D || s[0] == 0x0A {
        assert ([[]] + Lines(rest))[1..] == Lines(rest);
        assert [] + [0x0A] + Unlines(Lines(rest)) == [0x0A] + Unlines(Lines(rest));
      } else {
        UnlinesFirst(s[0], Lines(rest));
      }
    }
  }

  /** A text's digest is that of its lines ended by LF, tagged and in hexadecimal. */
  lemma {:induction false} TextDigestSpells(sha: Sha256.RawDigest, s: JsString)
    ensures var t := Sha256.Sha256Text(sha, s);
            && |t| >= 7 && t[..7] == Ascii("sha256:")
            && t[7..] == Sha256.HexText(sha(Encode(Unlines(Lines(s)))))
  {
    hide Lines, Unlines, Encode, Sha256.HexText, Sha256.ToLf;
    ToLfIsLines(s);
    assert |Sha256.PREFIX| == 7;
  }

  // --- UTF-8 ------------------------------------------------------------------------------------------------

  predicate IsTail(b: Byte) { 0x80 <= b < 0xC0 }

  function Low(b: Byte): int { b - 0x80 }

  /** One scalar value from the front, by the table of RFC 3629 section 3; the shortest form only. */
  function ReadScalar(bytes: seq<Byte>): (r: (int, nat))
    ensures r.1 <= |bytes|
  {
    if bytes == [] then (-1, 0)
    else
      var b: int := bytes[0];
      if b < 0x80 then (b, 1)
      else if 0xC0 <= b < 0xE0 && |bytes| >= 2 && IsTail(bytes[1]) then
        Least((b - 0xC0) * 0x40 + Low(bytes[1]), 0x80, 2)
      else if 0xE0 <= b < 0xF0 && |bytes| >= 3 && IsTail(bytes[1]) && IsTail(bytes[2]) then
        Least((b - 0xE0) * 0x1000 + Low(bytes[1]) * 0x40 + Low(bytes[2]), 0x800, 3)
      else if 0xF0 <= b < 0xF8 && |bytes| >= 4 && IsTail(bytes[1]) && IsTail(bytes[2]) && IsTail(bytes[3]) then
        Least((b - 0xF0) * 0x4_0000 + Low(bytes[1]) * 0x1000 + Low(bytes[2]) * 0x40 + Low(bytes[3]), 0x1_0000, 4)
      else (-1, 0)
  }

  /** An overlong form is refused. */
  function Least(c: int, least: int, size: nat): (r: (int, nat))
    ensures r.1 == size || r.1 == 0
  {
    if c >= least then (c, size) else (-1, 0)
  }

  function ReadUtf8(bytes: seq<Byte>): seq<int>
    decreases |bytes|
  {
    var r := ReadScalar(bytes);
    if r.1 == 0 then [] else [r.0] + ReadUtf8(bytes[r.1..])
  }

  lemma ReadScalarBack(c: Scalar, rest: seq<Byte>)
    ensures ReadScalar(Utf8Of(c) + rest) == (c as int, |Utf8Of(c)|)
  {
    var bytes := Utf8Of(c) + rest;
    var x: int := c;
    assert forall i :: 0 <= i < |Utf8Of(c)| ==> bytes[i] == Utf8Of(c)[i];
    assert x / 0x1000 == x / 0x40 / 0x40 && x / 0x4_0000 == x / 0x1000 / 0x40;
  }

  /** The bytes that are hashed decode to the scalar values of the text. */
  lemma {:induction false} Utf8Reads(cs: seq<Scalar>)
    ensures ReadUtf8(Utf8(cs)) == cs
  {
    hide ReadScalar, Utf8Of;
    if cs != [] {
      ReadScalarBack(cs[0], Utf8(cs[1..]));
      SomeBytes(cs[0]);
      assert (Utf8Of(cs[0]) + Utf8(cs[1..]))[|Utf8Of(cs[0])|..] == Utf8(cs[1..]);
      Utf8Reads(cs[1..]);
    } else {
      NothingRead();
    }
  }

  lemma SomeBytes(c: Scalar)
    ensures |Utf8Of(c)| > 0
  {
  }

  lemma NothingRead()
    ensures ReadUtf8([]) == []
  {
  }

  /** A surrogate pair is one scalar value: U+1F600 is D83D DE00 and F0 9F 98 80. */
  lemma PairEncodes()
    ensures Scalars([0xD83D, 0xDE00]) == [0x1F600] && Encode([0xD83D, 0xDE00]) == [0xF0, 0x9F, 0x98, 0x80]
  {
    assert [0xD83D, 0xDE00][2..] == [];
  }
}
