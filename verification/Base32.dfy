/**
 * RFC 4648 section 6 base32 without padding, as the identifier encoder computes it:
 * through a 32-bit shift register that is never masked.
 */
module Base32 {
  import opened Text

  /** The register holds a JavaScript 32-bit integer; shifting left drops the high bits. */
  const TWO_32: nat := 0x1_0000_0000

  type Word = w: int | 0 <= w < TWO_32

  /** `ABCDEFGHIJKLMNOPQRSTUVWXYZ234567`. */
  function Symbol(d: int): CodeUnit
    requires 0 <= d < 32
  {
    if d < 26 then 0x41 + d else 0x32 + (d - 26)
  }

  predicate IsSymbol(u: CodeUnit) { 0x41 <= u <= 0x5A || 0x32 <= u <= 0x37 }

  function DigitOf(u: CodeUnit): int
    requires IsSymbol(u)
  {
    if u >= 0x41 then u - 0x41 else u - 0x32 + 26
  }

  function Pow2(n: nat): nat {
    if n == 0 then 1 else 2 * Pow2(n - 1)
  }

  // --- the reference: regroup bits --------------------------------------------

  type Bit = b: int | 0 <= b <= 1
  type Bits = seq<Bit>

  /** Most significant bit first. */
  function BitsOf(n: nat, width: nat): (r: Bits)
    ensures |r| == width
  {
    if width == 0 then [] else BitsOf(n / 2, width - 1) + [n % 2]
  }

  function ValueOf(bits: Bits): nat {
    if bits == [] then 0 else 2 * ValueOf(bits[..|bits| - 1]) + bits[|bits| - 1]
  }

  function ByteBits(bytes: seq<Byte>): (r: Bits)
    ensures |r| == 8 * |bytes|
  {
    if bytes == [] then [] else ByteBits(bytes[..|bytes| - 1]) + BitsOf(bytes[|bytes| - 1], 8)
  }

  function Zeros(n: nat): (r: Bits)
    ensures |r| == n
  {
    if n == 0 then [] else [0] + Zeros(n - 1)
  }

  /** Five bits a symbol; the last group is filled up with zero bits on the right. */
  function Base32Text(bits: Bits): (r: JsString)
    ensures |r| == (|bits| + 4) / 5
  {
    if bits == [] then []
    else if |bits| < 5 then [SymbolOf(bits + Zeros(5 - |bits|))]
    else [SymbolOf(bits[..5])] + Base32Text(bits[5..])
  }

  function SymbolOf(group: Bits): CodeUnit
    requires |group| == 5
  {
    ValueBound(group);
    assert Pow2(5) == 32;
    Symbol(ValueOf(group))
  }

  lemma {:induction false} ValueBound(bits: Bits)
    ensures ValueOf(bits) < Pow2(|bits|)
  {
    if bits != [] { ValueBound(bits[..|bits| - 1]); }
  }

  lemma {:induction false} ValueConcat(a: Bits, b: Bits)
    ensures ValueOf(a + b) == ValueOf(a) * Pow2(|b|) + ValueOf(b)
  {
    if b == [] {
      assert a + b == a;
    } else {
      ValueConcat(a, b[..|b| - 1]);
      assert (a + b)[..|a + b| - 1] == a + b[..|b| - 1];
      TwiceProduct(ValueOf(a), Pow2(|b| - 1));
    }
  }

  lemma TwiceProduct(x: int, y: int)
    ensures x * (2 * y) == 2 * (x * y)
  {
  }

  lemma {:induction false} BitsValue(n: nat, width: nat)
    requires n < Pow2(width)
    ensures ValueOf(BitsOf(n, width)) == n
  {
    if width > 0 {
      BitsValue(n / 2, width - 1);
      assert BitsOf(n, width)[..width - 1] == BitsOf(n / 2, width - 1);
    }
  }

  lemma {:induction false} ValueBits(bits: Bits)
    ensures BitsOf(ValueOf(bits), |bits|) == bits
  {
    if bits != [] {
      ValueBits(bits[..|bits| - 1]);
      assert bits == bits[..|bits| - 1] + [bits[|bits| - 1]];
    }
  }

  lemma ZerosValue(n: nat)
    ensures ValueOf(Zeros(n)) == 0
  {
    if n > 0 {
      ZerosValue(n - 1);
      ValueConcat([0], Zeros(n - 1));
      assert ValueOf([0]) == 0 by { assert [0][..0] == []; }
    }
  }

  /** Whole groups can be encoded ahead of the rest. */
  lemma {:induction false} TextConcat(a: Bits, b: Bits, groups: nat)
    requires |a| == 5 * groups
    ensures Base32Text(a + b) == Base32Text(a) + Base32Text(b)
  {
    hide SymbolOf;
    if a == [] {
      assert a + b == b;
    } else {
      TextConcat(a[5..], b, groups - 1);
      assert (a + b)[..5] == a[..5] && (a + b)[5..] == a[5..] + b;
      assert Base32Text(a + b) == [SymbolOf(a[..5])] + Base32Text(a[5..] + b);
    }
  }

  function Base32(bytes: seq<Byte>): JsString {
    Base32Text(ByteBits(bytes))
  }

  // --- the register --------------------------------------------------------------

  /** `(buffer << 8) | byte`. */
  function ShiftIn(buffer: Word, byte: Byte): Word {
    (buffer * 256) % TWO_32 + byte
  }

  /** `(buffer >>> shift) & 31`. */
  function TopFive(buffer: Word, shift: nat): (d: int)
    ensures 0 <= d < 32
  {
    PowPositive(shift);
    (buffer / Pow2(shift)) % 32
  }

  /** `(buffer << shift) & 31`. */
  function LastGroup(buffer: Word, shift: nat): (d: int)
    ensures 0 <= d < 32
  {
    (buffer * Pow2(shift)) % TWO_32 % 32
  }

  lemma {:induction false} PowPositive(n: nat)
    ensures Pow2(n) > 0
  {
    if n > 0 { PowPositive(n - 1); }
  }

  lemma SmallPowers()
    ensures Pow2(0) == 1 && Pow2(1) == 2 && Pow2(2) == 4 && Pow2(3) == 8 && Pow2(4) == 16
    ensures Pow2(5) == 32 && Pow2(6) == 64 && Pow2(7) == 128 && Pow2(8) == 256
    ensures Pow2(9) == 512 && Pow2(10) == 1024 && Pow2(11) == 2048 && Pow2(12) == 4096
  {
  }

  /** Division with remainder has one answer. */
  lemma {:induction false} DivisionUnique(n: int, d: int, q: int, r: int)
    requires d > 0 && 0 <= r < d && n == q * d + r
    ensures n / d == q && n % d == r
  {
    var a, b := n / d, n % d;
    assert n == a * d + b;
    assert (a - q) * d == r - b;
    MultipleBetween(a - q, d);
  }

  lemma MultipleBetween(k: int, d: int)
    requires d > 0 && -d < k * d < d
    ensures k == 0
  {
  }

  /** Shifting in a byte moves the low part of the register up by eight bits. */
  lemma {:induction false} ShiftInModulo(buffer: Word, byte: Byte, m: int, k: int)
    requires m > 0 && 256 * (m * k) == TWO_32
    ensures ShiftIn(buffer, byte) % (256 * m) == (buffer % m) * 256 + byte
  {
    var a, c := (buffer * 256) / TWO_32, (buffer * 256) % TWO_32;
    var q, r := buffer / m, buffer % m;
    assert q * m + r == buffer;
    assert c == 256 * (q * m + r) - a * (256 * (m * k));
    assert a * (256 * (m * k)) == (a * k) * (256 * m) && 256 * (q * m) == q * (256 * m);
    assert (q - a * k) * (256 * m) == q * (256 * m) - (a * k) * (256 * m);
    DivisionUnique(c + byte, 256 * m, q - a * k, 256 * r + byte);
  }

  lemma RegisterShiftIn(buffer: Word, byte: Byte, bits: nat)
    requires bits < 5
    ensures Pow2(bits) > 0 && Pow2(bits + 8) > 0
    ensures ShiftIn(buffer, byte) % Pow2(bits + 8) == (buffer % Pow2(bits)) * 256 + byte
  {
    SmallPowers();
    ShiftInModulo(buffer, byte, Pow2(bits), 0x100_0000 / Pow2(bits));
  }

  lemma Distribute(q: int, r: int, m: int)
    ensures (q * 32 + r) * m == q * (32 * m) + r * m
  {
  }

  lemma Within(r: int, b: int, m: int)
    requires m > 0 && 0 <= r < 32 && 0 <= b < m
    ensures 0 <= r * m + b < 32 * m
  {
    assert 0 <= r * m <= 31 * m;
  }

  /** The five bits above the low `m` ones, when only five more are pending. */
  lemma {:induction false} TopFiveModulo(x: nat, m: int)
    requires m > 0
    ensures (x / m) % 32 == (x % (32 * m)) / m
    ensures x % m == (x % (32 * m)) % m
  {
    var a, b := x / m, x % m;
    var q, r := a / 32, a % 32;
    Distribute(q, r, m);
    Within(r, b, m);
    DivisionUnique(x, 32 * m, q, r * m + b);
    DivisionUnique(r * m + b, m, r, b);
  }

  lemma {:induction false} RegisterTopFive(buffer: Word, bits: nat)
    requires 5 <= bits <= 12
    ensures Pow2(bits) > 0 && Pow2(bits - 5) > 0
    ensures TopFive(buffer, bits - 5) == (buffer % Pow2(bits)) / Pow2(bits - 5)
    ensures buffer % Pow2(bits - 5) == (buffer % Pow2(bits)) % Pow2(bits - 5)
  {
    SmallPowers();
    TopFiveModulo(buffer, Pow2(bits - 5));
  }

  lemma {:induction false} RegisterLastGroup(buffer: Word, bits: nat)
    requires 1 <= bits <= 4
    ensures Pow2(bits) > 0
    ensures LastGroup(buffer, 5 - bits) == (buffer % Pow2(bits)) * Pow2(5 - bits)
  {
    SmallPowers();
    var b: int := buffer;
    match bits
    case 1 => LowBitsUp(b, 2, 16);
    case 2 => LowBitsUp(b, 4, 8);
    case 3 => LowBitsUp(b, 8, 4);
    case _ => LowBitsUp(b, 16, 2);
  }

  /** Shifting left until five bits are full keeps just the pending ones. */
  lemma LowBitsUp(b: nat, m: int, f: int)
    requires (m == 2 && f == 16) || (m == 4 && f == 8) || (m == 8 && f == 4) || (m == 16 && f == 2)
    ensures (b * f) % TWO_32 % 32 == (b % m) * f
  {
    WrapKeepsLowBits(b * f);
    var q, r := b / m, b % m;
    assert b == q * m + r;
    assert b * f == q * 32 + r * f;
    DivisionUnique(b * f, 32, q, r * f);
  }

  lemma WrapKeepsLowBits(x: nat)
    ensures x % TWO_32 % 32 == x % 32
  {
    var a, c := x / TWO_32, x % TWO_32;
    assert x == (a * 0x800_0000) * 32 + c;
    DivisionUnique(x, 32, a * 0x800_0000 + c / 32, c % 32);
  }

  /** The register's low `bits` bits are the bits not yet written out. */
  ghost predicate Pending(buffer: Word, all: Bits, bits: nat) {
    bits <= |all| && (PowPositive(bits); buffer % Pow2(bits) == ValueOf(all[|all| - bits..]))
  }

  lemma TakeFive(buffer: Word, all: Bits, groups: nat, bits: nat)
    requires 5 <= bits <= 12 && Pending(buffer, all, bits) && 5 * groups + bits == |all|
    ensures Pending(buffer, all, bits - 5)
    ensures Base32Text(all[..5 * (groups + 1)])
         == Base32Text(all[..5 * groups]) + [Symbol(TopFive(buffer, bits - 5))]
  {
    var start := 5 * groups;
    var group, rest := all[start..start + 5], all[start + 5..];
    RegisterTopFive(buffer, bits);
    ValueConcat(group, rest);
    assert all[start..] == group + rest;
    ValueBound(rest);
    DivisionUnique(ValueOf(all[start..]), Pow2(bits - 5), ValueOf(group), ValueOf(rest));
    TextConcat(all[..start], group, groups);
    assert all[..start + 5] == all[..start] + group;
    assert Base32Text(group) == [SymbolOf(group)] by { assert group[..5] == group && group[5..] == []; }
  }

  /** The register computes the RFC's regrouping, for inputs of every length. */
  method Base32Encode(bytes: seq<Byte>) returns (out: JsString)
    ensures out == Base32(bytes)
  {
    hide Base32Text, ByteBits, Pending, ShiftIn, TopFive, LastGroup, Symbol;
    out := [];
    var buffer: Word, bits: nat := 0, 0;
    ghost var groups := 0;
    NothingPending();
    for i := 0 to |bytes|
      invariant bits < 5 && 5 * groups + bits == 8 * i
      invariant Pending(buffer, ByteBits(bytes[..i]), bits)
      invariant out == Base32Text(ByteBits(bytes[..i])[..5 * groups])
    {
      ghost var all := ByteBits(bytes[..i + 1]);
      ByteArrives(buffer, bytes, i, bits);
      buffer := ShiftIn(buffer, bytes[i]);
      bits := bits + 8;
      while bits >= 5
        invariant bits <= 12 && 5 * groups + bits == |all|
        invariant Pending(buffer, all, bits)
        invariant out == Base32Text(all[..5 * groups])
      {
        TakeFive(buffer, all, groups, bits);
        bits := bits - 5;
        out := out + [Symbol(TopFive(buffer, bits))];
        groups := groups + 1;
      }
    }
    assert bytes[..|bytes|] == bytes;
    Finish(bytes, buffer, groups, bits);
    if bits > 0 {
      out := out + [Symbol(LastGroup(buffer, 5 - bits))];
    }
  }

  lemma NothingPending()
    ensures ByteBits([]) == [] && Pending(0, [], 0) && Base32Text([]) == []
  {
  }

  /** The bits left over after the whole groups make the last symbol. */
  lemma {:induction false} Finish(bytes: seq<Byte>, buffer: Word, groups: nat, bits: nat)
    requires bits < 5 && 5 * groups + bits == 8 * |bytes|
    requires Pending(buffer, ByteBits(bytes), bits)
    ensures bits > 0 ==>
              Base32(bytes) == Base32Text(ByteBits(bytes)[..5 * groups]) + [Symbol(LastGroup(buffer, 5 - bits))]
    ensures bits == 0 ==> Base32(bytes) == Base32Text(ByteBits(bytes)[..5 * groups])
  {
    hide Base32Text, LastGroup, Symbol, Pending, ByteBits;
    var all := ByteBits(bytes);
    SplitText(all, groups, bits);
    if bits > 0 {
      LastSymbol(buffer, all, bits);
    }
  }

  lemma SplitText(all: Bits, groups: nat, bits: nat)
    requires 5 * groups + bits == |all|
    ensures Base32Text(all) == Base32Text(all[..5 * groups]) + Base32Text(all[|all| - bits..])
    ensures bits == 0 ==> Base32Text(all) == Base32Text(all[..5 * groups])
  {
    hide Base32Text;
    var n := 5 * groups;
    TextConcat(all[..n], all[n..], groups);
    assert all == all[..n] + all[n..];
    if bits == 0 { assert all[..n] == all; }
  }

  lemma {:induction false} ByteArrives(buffer: Word, bytes: seq<Byte>, i: nat, bits: nat)
    requires i < |bytes| && bits < 5 && Pending(buffer, ByteBits(bytes[..i]), bits)
    ensures var before, all := ByteBits(bytes[..i]), ByteBits(bytes[..i + 1]);
            && Pending(ShiftIn(buffer, bytes[i]), all, bits + 8)
            && all[..|all| - (bits + 8)] == before[..|before| - bits]
  {
    assert bytes[..i + 1][..i] == bytes[..i];
    EightMorePending(buffer, bytes[i], ByteBits(bytes[..i]), bits);
  }

  lemma {:induction false} EightMorePending(buffer: Word, byte: Byte, before: Bits, bits: nat)
    requires bits < 5 && Pending(buffer, before, bits)
    ensures var all := before + BitsOf(byte, 8);
            && Pending(ShiftIn(buffer, byte), all, bits + 8)
            && all[..|all| - (bits + 8)] == before[..|before| - bits]
  {
    hide ShiftIn, BitsOf, ValueOf;
    var pending, new8 := before[|before| - bits..], BitsOf(byte, 8);
    var all := before + new8;
    assert all[|all| - (bits + 8)..] == pending + new8;
    RegisterShiftIn(buffer, byte, bits);
    assert Pow2(8) == 256;
    BitsValue(byte, 8);
    ValueConcat(pending, new8);
  }

  lemma LastSymbol(buffer: Word, all: Bits, bits: nat)
    requires 1 <= bits <= 4 && Pending(buffer, all, bits)
    ensures Base32Text(all[|all| - bits..]) == [Symbol(LastGroup(buffer, 5 - bits))]
  {
    var last := all[|all| - bits..];
    RegisterLastGroup(buffer, bits);
    ValueConcat(last, Zeros(5 - bits));
    ZerosValue(5 - bits);
  }

  // --- reading it back --------------------------------------------------------------

  function SymbolBits(text: JsString): (r: Bits)
    requires forall i :: 0 <= i < |text| ==> IsSymbol(text[i])
    ensures |r| == 5 * |text|
  {
    if text == [] then [] else BitsOf(DigitOf(text[0]), 5) + SymbolBits(text[1..])
  }

  function BytesOf(bits: Bits): (r: seq<Byte>)
    requires |bits| % 8 == 0
    decreases |bits|
  {
    if bits == [] then []
    else
      ValueBound(bits[|bits| - 8..]);
      assert Pow2(8) == 256;
      BytesOf(bits[..|bits| - 8]) + [ValueOf(bits[|bits| - 8..])]
  }

  /** Drops the fill bits, which are always fewer than eight. */
  function Base32Decode(text: JsString): seq<Byte>
    requires forall i :: 0 <= i < |text| ==> IsSymbol(text[i])
  {
    var bits := SymbolBits(text);
    BytesOf(bits[..|bits| / 8 * 8])
  }

  lemma GroupSymbol(group: Bits)
    requires |group| == 5
    ensures IsSymbol(SymbolOf(group)) && BitsOf(DigitOf(SymbolOf(group)), 5) == group
  {
    ValueBound(group);
    SmallPowers();
    ValueBits(group);
  }

  lemma {:induction false} TextSymbols(bits: Bits)
    ensures forall i :: 0 <= i < |Base32Text(bits)| ==> IsSymbol(Base32Text(bits)[i])
    ensures SymbolBits(Base32Text(bits)) == bits + Zeros(5 * ((|bits| + 4) / 5) - |bits|)
    decreases |bits|
  {
    hide SymbolOf, BitsOf, DigitOf;
    if bits == [] {
    } else if |bits| < 5 {
      GroupSymbol(bits + Zeros(5 - |bits|));
    } else {
      TextSymbols(bits[5..]);
      GroupSymbol(bits[..5]);
      assert bits == bits[..5] + bits[5..];
    }
  }

  lemma {:induction false} BytesRoundTrip(bytes: seq<Byte>)
    ensures BytesOf(ByteBits(bytes)) == bytes
  {
    hide BitsOf, ValueOf;
    if bytes != [] {
      var front, last := bytes[..|bytes| - 1], bytes[|bytes| - 1];
      var bits := ByteBits(bytes);
      BytesRoundTrip(front);
      assert bits == ByteBits(front) + BitsOf(last, 8);
      assert bits[..|bits| - 8] == ByteBits(front) && bits[|bits| - 8..] == BitsOf(last, 8);
      assert Pow2(8) == 256;
      BitsValue(last, 8);
      assert bytes == front + [last];
    }
  }

  /** Decoding undoes encoding, whatever the length, so encoding is injective. */
  lemma {:induction false} Base32RoundTrip(bytes: seq<Byte>)
    ensures forall i :: 0 <= i < |Base32(bytes)| ==> IsSymbol(Base32(bytes)[i])
    ensures Base32Decode(Base32(bytes)) == bytes
    ensures |Base32(bytes)| == (8 * |bytes| + 4) / 5
  {
    hide Base32Text, SymbolBits, BytesOf, ByteBits;
    var bits := ByteBits(bytes);
    TextSymbols(bits);
    var all := SymbolBits(Base32(bytes));
    assert |all| / 8 * 8 == |bits|;
    assert all[..|bits|] == bits;
    BytesRoundTrip(bytes);
  }

  lemma {:induction false} Base32Injective(a: seq<Byte>, b: seq<Byte>)
    requires Base32(a) == Base32(b)
    ensures a == b
  {
    Base32RoundTrip(a);
    Base32RoundTrip(b);
  }
}
