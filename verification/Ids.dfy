/**
 * Minted ULID identities and the shape of both kinds of identifier.
 */
module Ids {
  import opened Wrappers
  import opened Text
  import Base32
  import CanonicalJson

  datatype Result<+T> = Ok(value: T) | InvalidIdentifier

  const ULID_TIME_LENGTH: nat := 10
  const ULID_RANDOM_LENGTH: nat := 16
  const ULID_MAX_TIME: nat := 281_474_976_710_655
  const UNDERSCORE: CodeUnit := 0x5F

  /** `0123456789ABCDEFGHJKMNPQRSTVWXYZ`: no I, L, O or U. */
  function Crockford(d: int): CodeUnit
    requires 0 <= d < 32
  {
    if d < 10 then 0x30 + d
    else if d < 18 then 0x41 + (d - 10)
    else if d < 20 then 0x4A + (d - 18)
    else if d < 22 then 0x4D + (d - 20)
    else if d < 27 then 0x50 + (d - 22)
    else 0x56 + (d - 27)
  }

  predicate IsCrockford(u: CodeUnit) {
    0x30 <= u <= 0x39 || 0x41 <= u <= 0x48 || 0x4A <= u <= 0x4B || 0x4D <= u <= 0x4E || 0x50 <= u <= 0x54 || 0x56 <= u <= 0x5A
  }

  function CrockfordDigit(u: CodeUnit): (d: int)
    requires IsCrockford(u)
    ensures 0 <= d < 32 && Crockford(d) == u
  {
    if u <= 0x39 then u - 0x30
    else if u <= 0x48 then u - 0x41 + 10
    else if u <= 0x4B then u - 0x4A + 18
    else if u <= 0x4E then u - 0x4D + 20
    else if u <= 0x54 then u - 0x50 + 22
    else u - 0x56 + 27
  }

  // --- positional notation ---------------------------------------------------

  predicate DigitsBelow(ds: seq<int>, base: int) {
    forall i :: 0 <= i < |ds| ==> 0 <= ds[i] < base
  }

  /** Quotient and remainder, with their defining property. */
  function Div(n: nat, base: nat): (q: nat)
    requires base > 0
    ensures 0 <= n - Mul(q, base) < base
  {
    assert n == n / base * base + n % base;
    n / base
  }

  function Mul(a: int, b: int): int { a * b }

  lemma MulMonotone(a: int, b: int, c: nat)
    requires a <= b
    ensures Mul(a, c) <= Mul(b, c)
  {
  }

  lemma MulStep(a: int, c: int)
    ensures Mul(a + 1, c) == Mul(a, c) + c
  {
  }

  lemma {:induction false} DivUnique(n: nat, base: nat, q: nat)
    requires base > 0 && 0 <= n - Mul(q, base) < base
    ensures Div(n, base) == q
  {
    hide Mul, Div;
    if Div(n, base) < q {
      MulMonotone(Div(n, base) + 1, q, base);
      MulStep(Div(n, base), base);
    } else if q < Div(n, base) {
      MulMonotone(q + 1, Div(n, base), base);
      MulStep(q, base);
    }
  }

  function Pow(base: nat, n: nat): nat {
    if n == 0 then 1 else Mul(Pow(base, n - 1), base)
  }

  /** The last `len` digits of `n`, most significant first. */
  function Digits(n: nat, base: nat, len: nat): (ds: seq<int>)
    requires base > 0
    ensures |ds| == len && DigitsBelow(ds, base)
    decreases len
  {
    hide Mul, Div;
    if len == 0 then [] else Digits(Div(n, base), base, len - 1) + [n - Mul(Div(n, base), base)]
  }

  function Number(ds: seq<int>, base: nat): nat
    requires base > 0 && DigitsBelow(ds, base)
  {
    if ds == [] then 0 else Mul(Number(ds[..|ds| - 1], base), base) + ds[|ds| - 1]
  }

  lemma QuotientBound(n: nat, base: nat, p: nat)
    requires base > 0 && n < Mul(p, base)
    ensures Div(n, base) < p
  {
    hide Mul, Div;
    if Div(n, base) >= p {
      MulMonotone(p, Div(n, base), base);
    }
  }

  lemma {:induction false} NumberOfDigits(n: nat, base: nat, len: nat)
    requires base > 0 && n < Pow(base, len)
    ensures Number(Digits(n, base, len), base) == n
    decreases len
  {
    hide Mul, Div;
    if len > 0 {
      var ds := Digits(n, base, len);
      assert ds[..len - 1] == Digits(Div(n, base), base, len - 1);
      QuotientBound(n, base, Pow(base, len - 1));
      NumberOfDigits(Div(n, base), base, len - 1);
    }
  }

  lemma {:induction false} DigitsOfNumber(ds: seq<int>, base: nat)
    requires base > 0 && DigitsBelow(ds, base)
    ensures Digits(Number(ds, base), base, |ds|) == ds
    ensures Number(ds, base) < Pow(base, |ds|)
  {
    hide Mul, Div;
    if ds != [] {
      var front, last := ds[..|ds| - 1], ds[|ds| - 1];
      DigitsOfNumber(front, base);
      DivUnique(Number(ds, base), base, Number(front, base));
      MulMonotone(Number(front, base) + 1, Pow(base, |front|), base);
      MulStep(Number(front, base), base);
      assert ds == front + [last];
    }
  }

  /** Digit strings of one length compare like the numbers they spell. */
  lemma {:induction false} DigitsOrder(m: nat, n: nat, base: nat, len: nat)
    requires base > 0 && m < n < Pow(base, len)
    ensures Lex(Digits(m, base, len), Digits(n, base, len)) == -1
    decreases len
  {
    hide Mul, Div;
    if len > 0 {
      var a, b := Digits(Div(m, base), base, len - 1), Digits(Div(n, base), base, len - 1);
      if Div(m, base) < Div(n, base) {
        QuotientBound(n, base, Pow(base, len - 1));
        DigitsOrder(Div(m, base), Div(n, base), base, len - 1);
        LexExtends(a, b, [m - Mul(Div(m, base), base)], [n - Mul(Div(n, base), base)]);
      } else {
        if Div(n, base) < Div(m, base) {
          MulStep(Div(n, base), base);
          MulMonotone(Div(n, base) + 1, Div(m, base), base);
          assert false;
        }
        LexCommonPrefix(a, [m - Mul(Div(m, base), base)], [n - Mul(Div(n, base), base)]);
      }
    }
  }

  lemma {:induction false} LexExtends(a: seq<int>, b: seq<int>, r: seq<int>, t: seq<int>)
    requires |a| == |b| && Lex(a, b) != 0
    ensures Lex(a + r, b + t) == Lex(a, b)
  {
    if a[0] == b[0] {
      LexExtends(a[1..], b[1..], r, t);
      assert (a + r)[1..] == a[1..] + r && (b + t)[1..] == b[1..] + t;
    }
  }

  // --- the two halves of a ULID ------------------------------------------------

  function Symbols(ds: seq<int>): (r: JsString)
    requires DigitsBelow(ds, 32)
    ensures |r| == |ds|
    ensures forall i :: 0 <= i < |ds| ==> r[i] == Crockford(ds[i])
  {
    seq(|ds|, i requires 0 <= i < |ds| => Crockford(ds[i]))
  }

  function SymbolDigits(text: JsString): (ds: seq<int>)
    requires forall i :: 0 <= i < |text| ==> IsCrockford(text[i])
    ensures |ds| == |text| && DigitsBelow(ds, 32) && Symbols(ds) == text
  {
    seq(|text|, i requires 0 <= i < |text| => CrockfordDigit(text[i]))
  }

  lemma SymbolsInjective(a: seq<int>, b: seq<int>)
    requires DigitsBelow(a, 32) && DigitsBelow(b, 32) && Symbols(a) == Symbols(b)
    ensures a == b
  {
    forall i | 0 <= i < |a| ensures a[i] == b[i] {
      assert Symbols(a)[i] == Symbols(b)[i];
    }
  }

  /** The alphabet is in ASCII order, so symbols compare like digits. */
  lemma {:induction false} SymbolsOrder(a: seq<int>, b: seq<int>)
    requires DigitsBelow(a, 32) && DigitsBelow(b, 32)
    ensures Lex(Symbols(a), Symbols(b)) == Lex(a, b)
  {
    if a != [] && b != [] && a[0] == b[0] {
      SymbolsOrder(a[1..], b[1..]);
      assert Symbols(a)[1..] == Symbols(a[1..]) && Symbols(b)[1..] == Symbols(b[1..]);
    }
  }

  function TimeText(timestampMs: nat): JsString {
    Symbols(Digits(timestampMs, 32, ULID_TIME_LENGTH))
  }

  function RandomText(bytes: seq<Byte>): JsString {
    Symbols(Digits(Number(bytes, 256), 32, ULID_RANDOM_LENGTH))
  }

  method EncodeUlidTime(timestampMs: int) returns (r: Result<JsString>)
    ensures r.Ok? <==> 0 <= timestampMs <= ULID_MAX_TIME
    ensures r.Ok? ==> r.value == TimeText(timestampMs)
  {
    if timestampMs < 0 || timestampMs > ULID_MAX_TIME {
      return InvalidIdentifier;
    }
    hide Digits, Symbols, TimeText, Crockford;
    var remaining: nat, out: JsString := timestampMs, [];
    var i := 0;
    TimeDigits(timestampMs);
    while i < ULID_TIME_LENGTH
      invariant i <= ULID_TIME_LENGTH
      invariant TimeText(timestampMs) == Symbols(Digits(remaining, 32, ULID_TIME_LENGTH - i)) + out
    {
      PeelOnto(TimeText(timestampMs), remaining, ULID_TIME_LENGTH - i, out);
      out := [Crockford(remaining % 32)] + out;
      remaining := remaining / 32;
      i := i + 1;
    }
    NoDigits(remaining);
    r := Ok(out);
  }

  lemma TimeDigits(timestampMs: nat)
    ensures TimeText(timestampMs) == Symbols(Digits(timestampMs, 32, ULID_TIME_LENGTH)) + []
  {
  }

  lemma RandomDigits(bytes: seq<Byte>)
    ensures RandomText(bytes) == Symbols(Digits(Number(bytes, 256), 32, ULID_RANDOM_LENGTH)) + []
  {
  }

  lemma NoDigits(n: nat)
    ensures forall out: JsString :: Symbols(Digits(n, 32, 0)) + out == out
  {
  }

  lemma NumberStep(bytes: seq<Byte>, k: nat)
    requires k < |bytes|
    ensures Number(bytes[..k + 1], 256) == Number(bytes[..k], 256) * 256 + bytes[k]
  {
    assert bytes[..k + 1][..k] == bytes[..k];
  }

  lemma PeelOnto(text: JsString, n: nat, len: nat, out: JsString)
    requires len > 0 && text == Symbols(Digits(n, 32, len)) + out
    ensures text == Symbols(Digits(n / 32, 32, len - 1)) + ([Crockford(n % 32)] + out)
  {
    hide Symbols, Digits;
    PeelDigit(n, len);
  }

  lemma NumberStarts()
    ensures Number([], 256) == 0
  {
  }

  lemma PeelDigit(n: nat, len: nat)
    requires len > 0
    ensures Symbols(Digits(n, 32, len)) == Symbols(Digits(n / 32, 32, len - 1)) + [Crockford(n % 32)]
  {
    var q := Div(n, 32);
    assert n - q * 32 == n % 32;
  }

  /** `buffer` is a BigInt: nothing is lost to a word size. */
  method EncodeUlidRandom(bytes: seq<Byte>) returns (r: Result<JsString>)
    ensures r.Ok? <==> |bytes| == 10
    ensures r.Ok? ==> r.value == RandomText(bytes)
  {
    if |bytes| != 10 {
      return InvalidIdentifier;
    }
    hide Digits, Symbols, RandomText, Number, Crockford;
    NumberStarts();
    var buffer: nat := 0;
    for k := 0 to |bytes|
      invariant buffer == Number(bytes[..k], 256)
    {
      NumberStep(bytes, k);
      buffer := buffer * 256 + bytes[k];
    }
    assert bytes[..|bytes|] == bytes;
    RandomDigits(bytes);
    var out: JsString, i := [], 0;
    while i < ULID_RANDOM_LENGTH
      invariant i <= ULID_RANDOM_LENGTH
      invariant RandomText(bytes) == Symbols(Digits(buffer, 32, ULID_RANDOM_LENGTH - i)) + out
    {
      PeelOnto(RandomText(bytes), buffer, ULID_RANDOM_LENGTH - i, out);
      out := [Crockford(buffer % 32)] + out;
      buffer := buffer / 32;
      i := i + 1;
    }
    NoDigits(buffer);
    r := Ok(out);
  }

  lemma TimeFits()
    ensures ULID_MAX_TIME < Pow(32, ULID_TIME_LENGTH)
    ensures Pow(256, 10) == Pow(32, ULID_RANDOM_LENGTH)
  {
    assert Pow(32, 5) == 33_554_432;
    assert Pow(32, 10) == 1_125_899_906_842_624;
    assert Pow(256, 5) == 1_099_511_627_776;
    assert Pow(256, 10) == 1_208_925_819_614_629_174_706_176;
    assert Pow(32, 16) == 1_208_925_819_614_629_174_706_176;
  }

  /** Later timestamps sort after earlier ones as text. */
  lemma {:induction false} TimeTextMonotone(s: nat, t: nat)
    requires s <= ULID_MAX_TIME && t <= ULID_MAX_TIME
    ensures Lex(TimeText(s), TimeText(t)) == if s < t then -1 else if s == t then 0 else 1
  {
    TimeFits();
    SymbolsOrder(Digits(s, 32, ULID_TIME_LENGTH), Digits(t, 32, ULID_TIME_LENGTH));
    LexLaws(TimeText(s), TimeText(t));
    if s < t {
      DigitsOrder(s, t, 32, ULID_TIME_LENGTH);
    } else if t < s {
      SymbolsOrder(Digits(t, 32, ULID_TIME_LENGTH), Digits(s, 32, ULID_TIME_LENGTH));
      DigitsOrder(t, s, 32, ULID_TIME_LENGTH);
    }
  }

  function RandomBytes(text: JsString): (bytes: seq<Byte>)
    requires forall i :: 0 <= i < |text| ==> IsCrockford(text[i])
    ensures |bytes| == 10
  {
    Digits(Number(SymbolDigits(text), 32), 256, 10)
  }

  predicate IsCrockfordText(s: JsString) {
    forall i :: 0 <= i < |s| ==> IsCrockford(s[i])
  }

  /** Ten bytes and sixteen symbols hold the same 80 bits: a bijection. */
  lemma {:induction false} RandomTextBijective(bytes: seq<Byte>, text: JsString)
    requires |bytes| == 10 && |text| == ULID_RANDOM_LENGTH && IsCrockfordText(text)
    ensures |RandomText(bytes)| == ULID_RANDOM_LENGTH && IsCrockfordText(RandomText(bytes))
    ensures RandomBytes(RandomText(bytes)) == bytes
    ensures RandomText(RandomBytes(text)) == text
  {
    hide Digits, Number, Pow;
    TimeFits();
    DigitsOfNumber(bytes, 256);
    NumberOfDigits(Number(bytes, 256), 32, ULID_RANDOM_LENGTH);
    SymbolsInjective(SymbolDigits(RandomText(bytes)), Digits(Number(bytes, 256), 32, ULID_RANDOM_LENGTH));
    DigitsOfNumber(SymbolDigits(text), 32);
    NumberOfDigits(Number(SymbolDigits(text), 32), 256, 10);
  }

  // --- whole identifiers ----------------------------------------------------------

  const MINTED_ID_PREFIXES: seq<JsString> :=
    [Ascii("asset"), Ascii("solset"), Ascii("ctl"), Ascii("proj"), Ascii("work"), Ascii("run"),
     Ascii("evt"), Ascii("obs"), Ascii("inst"), Ascii("svc"), Ascii("emt"), Ascii("ig")]

  const DETERMINISTIC_ID_PREFIXES: seq<JsString> := [Ascii("evd"), Ascii("ctx"), Ascii("esv"), Ascii("sv")]

  /** `s.indexOf(u)`: -1 when absent. */
  function IndexOf(s: JsString, u: CodeUnit): (i: int)
    ensures -1 <= i < |s|
    ensures i == -1 ==> u !in s
    ensures i >= 0 ==> s[i] == u && u !in s[..i]
  {
    if s == [] then -1
    else if s[0] == u then 0
    else
      var rest := IndexOf(s[1..], u);
      assert s == [s[0]] + s[1..];
      assert rest >= 0 ==> s[..rest + 1] == [s[0]] + s[1..][..rest];
      if rest == -1 then -1 else rest + 1
  }

  function WithPrefix(prefix: JsString, body: JsString): JsString {
    prefix + [UNDERSCORE] + body
  }

  /** `<known prefix>_<body>`, split at the first underscore. */
  predicate Recognized(value: JsString, prefixes: seq<JsString>, prefix: Option<JsString>, body: JsString -> bool) {
    var separator := IndexOf(value, UNDERSCORE);
    && separator > 0
    && (prefix.None? || value[..separator] == prefix.value)
    && value[..separator] in prefixes
    && body(value[separator + 1..])
  }

  predicate IsUlid(s: JsString) { |s| == 26 && IsCrockfordText(s) }

  predicate IsBase32Body(s: JsString) { |s| == 52 && forall i :: 0 <= i < |s| ==> Base32.IsSymbol(s[i]) }

  predicate IsMintedId(value: JsString, prefix: Option<JsString>) {
    Recognized(value, MINTED_ID_PREFIXES, prefix, IsUlid)
  }

  predicate IsDeterministicId(value: JsString, prefix: Option<JsString>) {
    Recognized(value, DETERMINISTIC_ID_PREFIXES, prefix, IsBase32Body)
  }

  function MintUlid(nowMs: int, random: seq<Byte>): Result<JsString> {
    if 0 <= nowMs <= ULID_MAX_TIME && |random| == 10 then Ok(TimeText(nowMs) + RandomText(random))
    else InvalidIdentifier
  }

  function MintId(prefix: JsString, nowMs: int, random: seq<Byte>): Result<JsString> {
    match MintUlid(nowMs, random)
    case Ok(ulid) => Ok(WithPrefix(prefix, ulid))
    case InvalidIdentifier => InvalidIdentifier
  }

  /** `<prefix>_<base32(sha256(JCS(value)))>`. */
  function DeterministicId(sha: seq<Byte> -> seq<Byte>, prefix: JsString, value: CanonicalJson.Json): JsString
    requires CanonicalJson.Valid(value)
  {
    WithPrefix(prefix, Base32.Base32(CanonicalJson.Sha256Canonical(sha, value)))
  }

  /** A prefix without underscores is recovered from the front. */
  lemma PrefixSplits(prefix: JsString, body: JsString)
    requires UNDERSCORE !in prefix
    ensures IndexOf(WithPrefix(prefix, body), UNDERSCORE) == |prefix|
    ensures WithPrefix(prefix, body)[..|prefix|] == prefix
    ensures WithPrefix(prefix, body)[|prefix| + 1..] == body
  {
    var value, i := WithPrefix(prefix, body), IndexOf(WithPrefix(prefix, body), UNDERSCORE);
    assert value[|prefix|] == UNDERSCORE;
    assert value[..|prefix|] == prefix;
    assert forall j :: 0 <= j < |prefix| ==> value[j] == prefix[j];
    assert i <= |prefix| by { assert forall j :: 0 <= j < i ==> value[..i][j] == value[j]; }
  }

  lemma KnownPrefixes(prefix: JsString)
    requires prefix in MINTED_ID_PREFIXES || prefix in DETERMINISTIC_ID_PREFIXES
    ensures prefix != [] && UNDERSCORE !in prefix
  {
  }

  lemma UlidText(nowMs: nat, random: seq<Byte>)
    requires |random| == 10
    ensures IsCrockfordText(TimeText(nowMs)) && IsCrockfordText(RandomText(random))
    ensures |TimeText(nowMs)| == ULID_TIME_LENGTH && |RandomText(random)| == ULID_RANDOM_LENGTH
  {
  }

  /** Every minted id is recognized, under its own prefix and under no other. */
  lemma {:induction false} MintedIdRecognized(prefix: JsString, nowMs: int, random: seq<Byte>, wanted: Option<JsString>)
    requires prefix in MINTED_ID_PREFIXES && MintId(prefix, nowMs, random).Ok?
    ensures IsMintedId(MintId(prefix, nowMs, random).value, wanted) <==> wanted == None || wanted == Some(prefix)
    ensures !IsDeterministicId(MintId(prefix, nowMs, random).value, wanted)
  {
    KnownPrefixes(prefix);
    UlidText(nowMs, random);
    var ulid := TimeText(nowMs) + RandomText(random);
    PrefixSplits(prefix, ulid);
    assert IsUlid(ulid);
  }

  /** An id determines its prefix, its timestamp and its randomness. */
  lemma {:induction false} MintIdInjective(p: JsString, s: int, a: seq<Byte>, q: JsString, t: int, b: seq<Byte>)
    requires p in MINTED_ID_PREFIXES && q in MINTED_ID_PREFIXES
    requires MintId(p, s, a).Ok? && MintId(p, s, a) == MintId(q, t, b)
    ensures p == q && s == t && a == b
  {
    hide TimeText, RandomText, Recognized, RandomBytes;
    KnownPrefixes(p);
    KnownPrefixes(q);
    UlidText(s, a);
    UlidText(t, b);
    var x, y := TimeText(s) + RandomText(a), TimeText(t) + RandomText(b);
    PrefixSplits(p, x);
    PrefixSplits(q, y);
    assert x[..ULID_TIME_LENGTH] == TimeText(s) && y[..ULID_TIME_LENGTH] == TimeText(t);
    assert x[ULID_TIME_LENGTH..] == RandomText(a) && y[ULID_TIME_LENGTH..] == RandomText(b);
    TimeTextMonotone(s, t);
    LexLaws(TimeText(s), TimeText(t));
    RandomTextBijective(a, RandomText(a));
    RandomTextBijective(b, RandomText(b));
  }

  /** A 32-byte digest always gives a body the recognizer accepts. */
  lemma {:induction false} DeterministicIdRecognized(
    sha: seq<Byte> -> seq<Byte>, prefix: JsString, value: CanonicalJson.Json, wanted: Option<JsString>)
    requires CanonicalJson.Valid(value) && prefix in DETERMINISTIC_ID_PREFIXES
    requires |CanonicalJson.Sha256Canonical(sha, value)| == 32
    ensures IsDeterministicId(DeterministicId(sha, prefix, value), wanted) <==> wanted == None || wanted == Some(prefix)
  {
    KnownPrefixes(prefix);
    var digest := CanonicalJson.Sha256Canonical(sha, value);
    Base32.Base32RoundTrip(digest);
    PrefixSplits(prefix, Base32.Base32(digest));
    assert IsBase32Body(Base32.Base32(digest));
  }

  /** Two deterministic ids agree exactly when prefix and JSON value do. */
  lemma {:induction false} DeterministicIdIdentity(
    sha: seq<Byte> -> seq<Byte>, p: JsString, x: CanonicalJson.Json, q: JsString, y: CanonicalJson.Json)
    requires CanonicalJson.Valid(x) && CanonicalJson.Valid(y)
    requires p in DETERMINISTIC_ID_PREFIXES && q in DETERMINISTIC_ID_PREFIXES
    requires CanonicalJson.NoCollision(sha, CanonicalJson.CanonicalBytes(x), CanonicalJson.CanonicalBytes(y))
    ensures DeterministicId(sha, p, x) == DeterministicId(sha, q, y) <==> p == q && CanonicalJson.Same(x, y)
  {
    hide Base32.Base32, CanonicalJson.Same;
    KnownPrefixes(p);
    KnownPrefixes(q);
    var c, d := CanonicalJson.Sha256Canonical(sha, x), CanonicalJson.Sha256Canonical(sha, y);
    CanonicalJson.DigestIdentity(sha, x, y);
    PrefixSplits(p, Base32.Base32(c));
    PrefixSplits(q, Base32.Base32(d));
    if Base32.Base32(c) == Base32.Base32(d) { Base32.Base32Injective(c, d); }
  }
}
