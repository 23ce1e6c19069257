/**
 * A reader for canonical texts, written from RFC 8785 section 3.2 and the number and
 * string rules it takes from ECMAScript, and refusing everything that is not canonical:
 * white space, other escapes, other number layouts, keys out of order.
 */
module CanonicalReader {
  import opened Wrappers
  import opened Text
  import opened NumberText
  import opened Sorting
  import opened StringOrder
  import opened CanonicalJson

  type Read<T> = Option<(T, JsString)>

  // --- strings (section 3.2.2.2) ---------------------------------------------------------

  function HexValue(u: CodeUnit): Option<int> {
    if 0x30 <= u <= 0x39 then Some(u - 0x30) else if 0x61 <= u <= 0x66 then Some(u - 0x61 + 10) else None
  }

  /** \" \\ \b \t \n \f \r */
  function ShortEscape(u: CodeUnit): Option<CodeUnit> {
    if u == 0x22 then Some(0x22)
    else if u == 0x5C then Some(0x5C)
    else if u == 0x62 then Some(8)
    else if u == 0x74 then Some(9)
    else if u == 0x6E then Some(10)
    else if u == 0x66 then Some(12)
    else if u == 0x72 then Some(13)
    else None
  }

  predicate HasShortEscape(u: CodeUnit) { u in {8, 9, 10, 12, 13} }

  /** \u00hh, for the control characters that have no short escape. */
  function ReadHexEscape(s: JsString): Read<CodeUnit> {
    if |s| < 6 || s[2] != 0x30 || s[3] != 0x30 || HexValue(s[4]).None? || HexValue(s[5]).None? then None
    else
      var u := 16 * HexValue(s[4]).value + HexValue(s[5]).value;
      if u < 0x20 && !HasShortEscape(u) then Some((u, s[6..])) else None
  }

  function ReadUnit(s: JsString): (r: Read<CodeUnit>)
    ensures r.Some? ==> |r.value.1| < |s|
  {
    if s == [] || s[0] < 0x20 || s[0] == 0x22 then None
    else if s[0] != 0x5C then Some((s[0], s[1..]))
    else if |s| < 2 then None
    else if s[1] == 0x75 then ReadHexEscape(s)
    else if ShortEscape(s[1]).Some? then Some((ShortEscape(s[1]).value, s[2..]))
    else None
  }

  /** Up to the closing quote. */
  function ReadUnits(s: JsString): (r: Read<JsString>)
    ensures r.Some? ==> |r.value.1| < |s|
    decreases |s|
  {
    if s != [] && s[0] == 0x22 then Some(([], s[1..]))
    else
      var first := ReadUnit(s);
      if first.None? then None
      else
        var others := ReadUnits(first.value.1);
        if others.None? then None else Some(([first.value.0] + others.value.0, others.value.1))
  }

  function ReadString(s: JsString): (r: Read<JsString>)
    ensures r.Some? ==> |r.value.1| < |s|
  {
    if s == [] || s[0] != 0x22 then None
    else
      var r := ReadUnits(s[1..]);
      if r.Some? && WellFormed(r.value.0) then r else None
  }

  // --- numbers (section 3.2.2.3) -------------------------------------------------------------

  predicate AllDigits(t: JsString) { forall i :: 0 <= i < |t| ==> 0x30 <= t[i] <= 0x39 }

  function DigitsOf(t: JsString): (ds: seq<int>)
    requires AllDigits(t)
    ensures IsDigits(ds) && |ds| == |t|
  {
    seq(|t|, i requires 0 <= i < |t| => t[i] - 0x30)
  }

  /** Where a mark first stands, or the length. */
  function Find(t: JsString, mark: CodeUnit): (n: nat)
    ensures n <= |t| && (n < |t| ==> t[n] == mark)
  {
    if t == [] || t[0] == mark then 0 else 1 + Find(t[1..], mark)
  }

  function WithoutTrailingZeros(ds: seq<int>): seq<int> {
    if ds != [] && ds[|ds| - 1] == 0 then WithoutTrailingZeros(ds[..|ds| - 1]) else ds
  }

  function WithoutLeadingZeros(ds: seq<int>): seq<int> {
    if ds != [] && ds[0] == 0 then WithoutLeadingZeros(ds[1..]) else ds
  }

  /** Digits without a leading zero. */
  predicate IsWhole(t: JsString) { t != [] && AllDigits(t) && t[0] != 0x30 }

  /** Digits without a trailing zero. */
  predicate IsFraction(t: JsString) { t != [] && AllDigits(t) && t[|t| - 1] != 0x30 }

  /** Up to 21 digits. */
  function ReadWhole(t: JsString): Option<(seq<int>, int)> {
    if !IsWhole(t) || |t| > 21 then None else Some((WithoutTrailingZeros(DigitsOf(t)), |t|))
  }

  /** A decimal point, and a value of at least 0.000001. */
  function ReadDecimal(whole: JsString, fraction: JsString): Option<(seq<int>, int)> {
    if !IsFraction(fraction) then None
    else if whole == [0x30] then
      var ds := WithoutLeadingZeros(DigitsOf(fraction));
      if ds == [] || |fraction| - |ds| > 5 then None else Some((ds, |ds| - |fraction|))
    else if !IsWhole(whole) || |whole| > 21 then None
    else Some((DigitsOf(whole) + DigitsOf(fraction), |whole|))
  }

  function ReadSigned(t: JsString): Option<int> {
    if t == [] || !IsWhole(t[1..]) then None
    else if t[0] == 0x2B then Some(ValueOf(DigitsOf(t[1..])))
    else if t[0] == 0x2D then Some(-ValueOf(DigitsOf(t[1..])))
    else None
  }

  /** One digit before the point, and an exponent only from 10^21 up or below 10^-6. */
  function ReadScientific(mantissa: JsString, exponent: JsString): Option<(seq<int>, int)> {
    var e := ReadSigned(exponent);
    if e.None? || -7 < e.value < 21 then None
    else if |mantissa| == 1 && IsWhole(mantissa) then Some((DigitsOf(mantissa), e.value + 1))
    else if |mantissa| > 2 && IsWhole(mantissa[..1]) && mantissa[1] == 0x2E && IsFraction(mantissa[2..]) then
      Some((DigitsOf(mantissa[..1]) + DigitsOf(mantissa[2..]), e.value + 1))
    else None
  }

  function ReadMagnitude(t: JsString): Option<(seq<int>, int)> {
    var e, p := Find(t, 0x65), Find(t, 0x2E);
    if e < |t| then ReadScientific(t[..e], t[e + 1..])
    else if p < |t| then ReadDecimal(t[..p], t[p + 1..])
    else ReadWhole(t)
  }

  function NumberOf(t: JsString): Option<Number> {
    if t == [0x30] then Some(Zero(false))
    else
      var negative := t != [] && t[0] == 0x2D;
      var m := ReadMagnitude(if negative then t[1..] else t);
      if m.Some? then Some(NonZero(negative, m.value.0, m.value.1)) else None
  }

  /** How far the units of a number reach. */
  function Span(s: JsString): (n: nat)
    ensures n <= |s|
  {
    if s != [] && IsNumberUnit(s[0]) then 1 + Span(s[1..]) else 0
  }

  function ReadNumber(s: JsString): (r: Read<Number>)
    ensures r.Some? ==> |r.value.1| < |s|
  {
    var n := Span(s);
    var number := NumberOf(s[..n]);
    if n == 0 || number.None? then None else Some((number.value, s[n..]))
  }

  // --- values ---------------------------------------------------------------------------------------

  function ReadLiteral(s: JsString, text: JsString, v: Json): (r: Read<Json>)
    requires text != []
    ensures r.Some? ==> |r.value.1| < |s|
  {
    if text <= s then Some((v, s[|text|..])) else None
  }

  /** One key comes before another: at the first difference its code unit is smaller, or it ends. */
  ghost predicate Ascends(a: JsString, b: JsString) {
    exists i :: 0 <= i < |b| && i <= |a| && a[..i] == b[..i] && (i == |a| || a[i] < b[i])
  }

  ghost function ReadValue(s: JsString): (r: Read<Json>)
    ensures r.Some? ==> |r.value.1| < |s|
    decreases |s|, 0
  {
    if s == [] then None
    else if s[0] == 0x6E then ReadLiteral(s, [0x6E, 0x75, 0x6C, 0x6C], Null)
    else if s[0] == 0x74 then ReadLiteral(s, [0x74, 0x72, 0x75, 0x65], Bool(true))
    else if s[0] == 0x66 then ReadLiteral(s, [0x66, 0x61, 0x6C, 0x73, 0x65], Bool(false))
    else if s[0] == 0x22 then
      var r := ReadString(s);
      if r.Some? then Some((Str(r.value.0), r.value.1)) else None
    else if s[0] == 0x5B then
      if |s| > 1 && s[1] == 0x5D then Some((Arr([]), s[2..]))
      else
        var r := ReadItems(s[1..]);
        if r.Some? then Some((Arr(r.value.0), r.value.1)) else None
    else if s[0] == 0x7B then
      if |s| > 1 && s[1] == 0x7D then Some((Obj([]), s[2..]))
      else
        var r := ReadMembers(s[1..], None);
        if r.Some? then Some((Obj(r.value.0), r.value.1)) else None
    else
      var r := ReadNumber(s);
      if r.Some? then Some((Num(r.value.0), r.value.1)) else None
  }

  /** One value, then a comma and more of them, or the closing bracket. */
  ghost function ReadItems(s: JsString): (r: Read<seq<Json>>)
    ensures r.Some? ==> |r.value.1| < |s|
    decreases |s|, 1
  {
    var first := ReadValue(s);
    if first.None? || first.value.1 == [] then None
    else
      var t := first.value.1;
      if t[0] == 0x5D then Some(([first.value.0], t[1..]))
      else if t[0] != 0x2C then None
      else
        var others := ReadItems(t[1..]);
        if others.None? then None else Some(([first.value.0] + others.value.0, others.value.1))
  }

  /** One key that comes after the one before it, a colon and a value; then more or the closing brace. */
  ghost function ReadMembers(s: JsString, previous: Option<JsString>): (r: Read<seq<(JsString, Json)>>)
    ensures r.Some? ==> |r.value.1| < |s|
    decreases |s|, 1
  {
    var key := ReadString(s);
    if key.None? || (previous.Some? && !Ascends(previous.value, key.value.0)) then None
    else if key.value.1 == [] || key.value.1[0] != 0x3A then None
    else
      var first := ReadValue(key.value.1[1..]);
      if first.None? || first.value.1 == [] then None
      else
        var member, t := (key.value.0, first.value.0), first.value.1;
        if t[0] == 0x7D then Some(([member], t[1..]))
        else if t[0] != 0x2C then None
        else
          var others := ReadMembers(t[1..], Some(key.value.0));
          if others.None? then None else Some(([member] + others.value.0, others.value.1))
  }

  // --- strings are read back ----------------------------------------------------------------------------

  lemma ReadUnitBack(u: CodeUnit, r: JsString)
    ensures ReadUnit(EscapeUnit(u) + r) == Some((u, r))
  {
    var s := EscapeUnit(u) + r;
    assert s[|EscapeUnit(u)|..] == r;
    forall i | 0 <= i < |EscapeUnit(u)| ensures s[i] == EscapeUnit(u)[i] {}
  }

  lemma {:induction false} ReadUnitsBack(t: JsString, r: JsString)
    ensures ReadUnits(Escape(t) + ([QUOTE] + r)) == Some((t, r))
  {
    hide EscapeUnit, ReadUnit;
    var end := [QUOTE] + r;
    if t == [] {
      assert Escape(t) + end == end && end[1..] == r;
    } else {
      Assoc(EscapeUnit(t[0]), Escape(t[1..]), end);
      EscapeUnitStart(t[0]);
      HeadOf(EscapeUnit(t[0]), Escape(t[1..]) + end);
      ReadUnitBack(t[0], Escape(t[1..]) + end);
      ReadUnitsBack(t[1..], r);
      assert [t[0]] + t[1..] == t;
    }
  }

  lemma ReadStringBack(t: JsString, r: JsString)
    requires WellFormed(t)
    ensures ReadString(Quote(t) + r) == Some((t, r))
  {
    hide Escape, WellFormed;
    ReadUnitsBack(t, r);
    assert (Quote(t) + r)[1..] == Escape(t) + ([QUOTE] + r);
  }

  // --- numbers are read back -----------------------------------------------------------------------------

  lemma {:induction false} FindMark(a: JsString, mark: CodeUnit, b: JsString)
    requires mark !in a
    ensures var t := a + [mark] + b; Find(t, mark) == |a| && t[..|a|] == a && t[|a| + 1..] == b
  {
    if a == [] {
      assert (a + [mark] + b)[1..] == b;
    } else {
      FindMark(a[1..], mark, b);
      assert (a + [mark] + b)[1..] == a[1..] + [mark] + b;
    }
  }

  lemma {:induction false} FindNone(t: JsString, mark: CodeUnit)
    requires mark !in t
    ensures Find(t, mark) == |t|
  {
    if t != [] { FindNone(t[1..], mark); }
  }

  lemma DigitsBack(ds: seq<int>)
    requires IsDigits(ds)
    ensures AllDigits(DigitText(ds)) && DigitsOf(DigitText(ds)) == ds && |DigitText(ds)| == |ds|
    ensures forall u :: u in DigitText(ds) ==> 0x30 <= u <= 0x39
    ensures ds != [] ==> DigitText(ds)[0] == 0x30 + ds[0] && DigitText(ds)[|ds| - 1] == 0x30 + ds[|ds| - 1]
  {
  }

  lemma {:induction false} TrailingZeros(ds: seq<int>, t: JsString, n: nat)
    requires AllDigits(t) && |t| == |ds| + n && DigitsOf(t)[..|ds|] == ds && forall i :: |ds| <= i < |t| ==> t[i] == 0x30
    requires ds != [] && ds[|ds| - 1] != 0
    ensures WithoutTrailingZeros(DigitsOf(t)) == ds
  {
    var all := DigitsOf(t);
    if n == 0 {
      assert all == ds;
    } else {
      var u := t[..|t| - 1];
      assert all[|all| - 1] == 0 && all[..|all| - 1] == DigitsOf(u);
      assert DigitsOf(u)[..|ds|] == all[..|ds|];
      TrailingZeros(ds, u, n - 1);
    }
  }

  lemma {:induction false} LeadingZeros(n: nat, ds: seq<int>, t: JsString)
    requires AllDigits(t) && |t| == n + |ds| && DigitsOf(t)[n..] == ds && forall i :: 0 <= i < n ==> t[i] == 0x30
    requires ds != [] && ds[0] != 0
    ensures WithoutLeadingZeros(DigitsOf(t)) == ds
  {
    var all := DigitsOf(t);
    if n == 0 {
      assert all == ds;
    } else {
      var u := t[1..];
      assert all[0] == 0 && all[1..] == DigitsOf(u);
      assert DigitsOf(u)[n - 1..] == all[n..];
      LeadingZeros(n - 1, ds, u);
    }
  }

  lemma WholeDigits(ds: seq<int>, zeros: nat)
    requires IsDigits(ds)
    ensures var t := WholeText(ds, zeros);
            && AllDigits(t) && |t| == |ds| + zeros && DigitsOf(t)[..|ds|] == ds
            && (forall i :: |ds| <= i < |t| ==> t[i] == 0x30) && forall i :: 0 <= i < |ds| ==> t[i] == 0x30 + ds[i]
  {
    hide DigitText, Zeros;
    var t := WholeText(ds, zeros);
    assert forall i :: 0 <= i < |ds| ==> t[i] == DigitText(ds)[i];
    assert forall i :: |ds| <= i < |t| ==> t[i] == Zeros(zeros)[i - |ds|];
  }

  lemma ReadWholeBack(ds: seq<int>, point: int)
    requires ValidNumber(NonZero(false, ds, point)) && |ds| <= point <= 21
    ensures ReadMagnitude(WholeText(ds, point - |ds|)) == Some((ds, point))
  {
    hide WholeText, DigitsOf, WithoutTrailingZeros, Find;
    var t := WholeText(ds, point - |ds|);
    WholeDigits(ds, point - |ds|);
    FindNone(t, 0x65);
    FindNone(t, 0x2E);
    TrailingZeros(ds, t, point - |ds|);
  }

  lemma PartsBack(ds: seq<int>)
    requires ds != [] && IsDigits(ds)
    ensures ds[0] != 0 ==> IsWhole(DigitText(ds))
    ensures ds[|ds| - 1] != 0 ==> IsFraction(DigitText(ds))
    ensures 0x2E !in DigitText(ds) && 0x65 !in DigitText(ds)
  {
    DigitsBack(ds);
  }

  lemma NoMark(a: JsString, b: JsString, c: JsString, mark: CodeUnit)
    requires mark !in a && mark !in b && mark !in c
    ensures Find(a + b + c, mark) == |a + b + c|
  {
    FindNone(a + b + c, mark);
  }

  lemma ReadSplitBack(ds: seq<int>, point: int)
    requires ValidNumber(NonZero(false, ds, point)) && 0 < point < |ds| && point <= 21
    ensures ReadMagnitude(SplitText(ds, point)) == Some((ds, point))
  {
    hide DigitText, DigitsOf, IsWhole, IsFraction, Find;
    var a, b := DigitText(ds[..point]), DigitText(ds[point..]);
    DigitsBack(ds[..point]);
    DigitsBack(ds[point..]);
    PartsBack(ds[..point]);
    PartsBack(ds[point..]);
    FindMark(a, 0x2E, b);
    NoMark(a, [0x2E], b, 0x65);
    IsNotZero(a);
    assert ds[..point] + ds[point..] == ds;
  }

  lemma IsNotZero(a: JsString)
    requires IsWhole(a)
    ensures a != [0x30]
  {
  }

  lemma PaddedDigits(ds: seq<int>, zeros: nat)
    requires IsDigits(ds)
    ensures var f := Zeros(zeros) + DigitText(ds);
            && AllDigits(f) && |f| == zeros + |ds| && DigitsOf(f)[zeros..] == ds
            && (forall i :: 0 <= i < zeros ==> f[i] == 0x30) && forall i :: zeros <= i < |f| ==> f[i] == 0x30 + ds[i - zeros]
  {
    hide DigitText, Zeros;
    var f := Zeros(zeros) + DigitText(ds);
    assert forall i :: 0 <= i < zeros ==> f[i] == Zeros(zeros)[i];
    assert forall i :: zeros <= i < |f| ==> f[i] == DigitText(ds)[i - zeros];
  }

  lemma PaddedBack(ds: seq<int>, zeros: nat)
    requires ds != [] && IsDigits(ds) && ds[0] != 0 && ds[|ds| - 1] != 0
    ensures var f := Zeros(zeros) + DigitText(ds);
            IsFraction(f) && |f| == zeros + |ds| && WithoutLeadingZeros(DigitsOf(f)) == ds && 0x65 !in f && 0x2E !in f
  {
    hide DigitText, Zeros, DigitsOf, WithoutLeadingZeros;
    var f := Zeros(zeros) + DigitText(ds);
    PaddedDigits(ds, zeros);
    LeadingZeros(zeros, ds, f);
  }

  lemma ReadSmallBack(ds: seq<int>, point: int)
    requires ValidNumber(NonZero(false, ds, point)) && -6 < point <= 0
    ensures ReadMagnitude(SmallText(-point, ds)) == Some((ds, point))
  {
    hide DigitText, DigitsOf, IsFraction, Find, Zeros, WithoutLeadingZeros;
    var f := Zeros(-point) + DigitText(ds);
    PaddedBack(ds, -point);
    assert SmallText(-point, ds) == [0x30] + [0x2E] + f;
    FindMark([0x30], 0x2E, f);
    NoMark([0x30], [0x2E], f, 0x65);
  }

  lemma {:induction false} NoLeadingZero(n: nat)
    requires n > 0
    ensures NatDigits(n)[0] != 0
  {
    if n >= 10 { NoLeadingZero(n / 10); }
  }

  lemma ReadExponentBack(e: int)
    requires e != 0
    ensures ReadSigned(ExponentText(e)) == Some(e)
    ensures forall u :: u in ExponentText(e) ==> u != 0x65
  {
    hide NatDigits, DigitText, ValueOf, DigitsOf, IsWhole;
    var n := if e < 0 then -e else e;
    NatDigitsValue(n);
    NoLeadingZero(n);
    DigitsBack(NatDigits(n));
    PartsBack(NatDigits(n));
    assert ExponentText(e)[1..] == NatText(n);
  }

  lemma MantissaBack(ds: seq<int>)
    requires ValidNumber(NonZero(false, ds, 0))
    ensures var m := Mantissa(ds);
            && 0x65 !in m
            && if |ds| == 1 then |m| == 1 && IsWhole(m) && DigitsOf(m) == ds
               else |m| > 2 && IsWhole(m[..1]) && m[1] == 0x2E && IsFraction(m[2..]) && DigitsOf(m[..1]) + DigitsOf(m[2..]) == ds
  {
    hide DigitText, DigitsOf, IsWhole, IsFraction;
    if |ds| == 1 {
      DigitsBack(ds);
      PartsBack(ds);
    } else {
      var a, b := DigitText(ds[..1]), DigitText(ds[1..]);
      DigitsBack(ds[..1]);
      DigitsBack(ds[1..]);
      PartsBack(ds[..1]);
      PartsBack(ds[1..]);
      assert Mantissa(ds)[..1] == a && Mantissa(ds)[2..] == b;
      assert ds[..1] + ds[1..] == ds;
    }
  }

  lemma ReadScientificBack(ds: seq<int>, point: int)
    requires ValidNumber(NonZero(false, ds, point)) && !(-6 < point <= 21)
    ensures ReadMagnitude(ScientificText(ds, point - 1)) == Some((ds, point))
  {
    hide Mantissa, ExponentText, ReadSigned;
    MantissaBack(ds);
    ReadExponentBack(point - 1);
    FindMark(Mantissa(ds), 0x65, ExponentText(point - 1));
  }

  lemma {:induction false} ReadMagnitudeBack(ds: seq<int>, point: int)
    requires ValidNumber(NonZero(false, ds, point))
    ensures ReadMagnitude(Magnitude(ds, point)) == Some((ds, point))
  {
    hide ReadMagnitude, WholeText, SplitText, SmallText, ScientificText;
    match LayoutOf(|ds|, point)
    case Whole => ReadWholeBack(ds, point);
    case Split => ReadSplitBack(ds, point);
    case Small => ReadSmallBack(ds, point);
    case Scientific => ReadScientificBack(ds, point);
  }

  /** A number's text is its value in the prescribed layout. */
  lemma {:induction false} NumberBack(n: Number)
    requires ValidNumber(n)
    ensures NumberOf(NumberString(n)).Some? && SameNumber(NumberOf(NumberString(n)).value, n)
  {
    hide ReadMagnitude, Magnitude;
    if n.NonZero? {
      ReadMagnitudeBack(n.digits, n.point);
      NonZeroText(n);
      NumberUnits(n);
    }
  }

  lemma {:induction false} SpanOfNumber(t: JsString, r: JsString)
    requires AllNumberUnits(t) && Delimited(r)
    ensures Span(t + r) == |t|
  {
    if t == [] {
      assert t + r == r;
    } else {
      assert (t + r)[1..] == t[1..] + r;
      SpanOfNumber(t[1..], r);
    }
  }

  lemma ReadNumberBack(n: Number, r: JsString)
    requires ValidNumber(n) && Delimited(r)
    ensures var read := ReadNumber(NumberString(n) + r); read.Some? && read.value.1 == r && SameNumber(read.value.0, n)
  {
    hide NumberString, NumberOf, SameNumber, Delimited, AllNumberUnits;
    NumberUnits(n);
    NumberBack(n);
    var t := NumberString(n);
    SpanOfNumber(t, r);
    assert (t + r)[..|t|] == t && (t + r)[|t|..] == r;
  }

  // --- keys in order ----------------------------------------------------------------------------------------

  lemma {:induction false} OrderIsAscending(a: JsString, b: JsString)
    requires Before16(a, b)
    ensures Ascends(a, b)
  {
    if a == [] || a[0] != b[0] {
      assert a[..0] == b[..0];
    } else {
      OrderIsAscending(a[1..], b[1..]);
      var i :| 0 <= i < |b[1..]| && i <= |a[1..]| && a[1..][..i] == b[1..][..i] && (i == |a[1..]| || a[1..][i] < b[1..][i]);
      assert a[..i + 1] == [a[0]] + a[1..][..i] && b[..i + 1] == [b[0]] + b[1..][..i];
    }
  }

  /** In the text of an object the keys stand in strictly ascending code-unit order. */
  lemma {:induction false} KeysAscend(members: seq<(JsString, Json)>)
    requires NoDuplicates(Keys(members))
    ensures Ascending(SortedKeys(members))
  {
    hide Ascends;
    Before16Order(Elements(Keys(members)));
    SortStrict(Before16, Keys(members));
    var ks := SortedKeys(members);
    forall i, j | 0 <= i < j < |ks| ensures Ascends(ks[i], ks[j]) { OrderIsAscending(ks[i], ks[j]); }
  }

  // --- values are read back -----------------------------------------------------------------------------------

  ghost predicate ReadAs(read: Read<Json>, v: Json, r: JsString)
    requires Valid(v)
  {
    read.Some? && read.value.1 == r && Same(read.value.0, v)
  }

  lemma ReadLiteralBack(text: JsString, v: Json, r: JsString)
    requires text != []
    ensures ReadLiteral(text + r, text, v) == Some((v, r))
  {
    assert (text + r)[|text|..] == r;
  }

  /**
   * Read back by the rules of RFC 8785, a canonical text gives the value that was
   * written, and leaves what came after it.
   */
  lemma {:induction false} ReadsBack(v: Json, r: JsString)
    requires Valid(v) && Delimited(r)
    ensures ReadAs(ReadValue(Serialize(v) + r), v, r)
    decreases v, 2, 0
  {
    hide Join, NumberString, Quote, SortedKeys, Lookup, Delimited, ReadString, ReadNumber, ReadLiteral, ReadItems, ReadMembers, SameNumber;
    match v
    case Null => ReadLiteralBack(NULL_TEXT, v, r);
    case Bool(flag) => ReadLiteralBack(Serialize(v), v, r);
    case Num(n) =>
      ReadNumberBack(n, r);
      SerializeStart(v);
      HeadOf(Serialize(v), r);
    case Str(t) =>
      ReadStringBack(t, r);
      QuoteStart(t);
      HeadOf(Quote(t), r);
    case Arr(_) => ArrayReadBack(v, r);
    case Obj(_) => ObjectReadBack(v, r);
  }

  lemma {:induction false} ArrayReadBack(v: Json, r: JsString)
    requires v.Arr? && Valid(v) && Delimited(r)
    ensures ReadAs(ReadValue(Serialize(v) + r), v, r)
    decreases v, 1, 0
  {
    hide Join, Delimited, ReadItems, ReadMembers, ReadString, ReadNumber, ReadLiteral;
    var end := [CLOSE_ARRAY] + r;
    var body := Join(ItemTexts(v, v.items)) + end;
    assert Serialize(v) + r == [OPEN_ARRAY] + body;
    assert ([OPEN_ARRAY] + body)[1..] == body;
    if v.items == [] {
      JoinNothing(end);
      assert ([OPEN_ARRAY] + body)[2..] == r;
    } else {
      ItemsStart(v, v.items, end);
      ItemsReadBack(v, v.items, r);
    }
  }

  lemma {:induction false} ObjectReadBack(v: Json, r: JsString)
    requires v.Obj? && Valid(v) && Delimited(r)
    ensures ReadAs(ReadValue(Serialize(v) + r), v, r)
    decreases v, 1, 0
  {
    hide Join, Delimited, ReadItems, ReadMembers, ReadString, ReadNumber, ReadLiteral, SortedKeys, Lookup, Same, Ascends, MembersAs, Ascending;
    var ks, end := SortedKeys(v.members), [CLOSE_OBJECT] + r;
    var body := Join(MemberTexts(v, ks)) + end;
    assert Serialize(v) + r == [OPEN_OBJECT] + body;
    assert ([OPEN_OBJECT] + body)[1..] == body;
    if ks == [] {
      JoinNothing(end);
      assert ([OPEN_OBJECT] + body)[2..] == r;
      NoMember(v);
      SameAsMembers([], v);
    } else {
      MembersStart(v, ks, end);
      KeysAscend(v.members);
      MembersReadBack(v, ks, None, r);
      SameAsMembers(ReadMembers(body, None).value.0, v);
    }
  }

  lemma {:induction false} ItemsReadBack(v: Json, xs: seq<Json>, r: JsString)
    requires xs != [] && forall i :: 0 <= i < |xs| ==> xs[i] < v && Valid(xs[i])
    ensures var read := ReadItems(Join(ItemTexts(v, xs)) + ([CLOSE_ARRAY] + r));
            && read.Some? && read.value.1 == r
            && |read.value.0| == |xs| && forall i :: 0 <= i < |xs| ==> Same(read.value.0[i], xs[i])
    decreases v, 0, |xs|
  {
    hide Serialize, Same, Valid, ReadValue;
    var end := [CLOSE_ARRAY] + r;
    var texts := ItemTexts(v, xs[1..]);
    ItemsStart(v, xs, end);
    RestDelimited(texts, end);
    ReadsBack(xs[0], Rest(texts, end));
    if |xs| > 1 {
      assert Rest(texts, end)[1..] == Join(texts) + end;
      ItemsReadBack(v, xs[1..], r);
    }
  }

  /** One member, and what follows it. */
  lemma MemberStep(s: JsString, previous: Option<JsString>, key: JsString, t: JsString, value: Json, u: JsString)
    requires ReadString(s) == Some((key, [COLON] + t)) && ReadValue(t) == Some((value, u)) && u != []
    requires previous.Some? ==> Ascends(previous.value, key)
    ensures u[0] == CLOSE_OBJECT ==> ReadMembers(s, previous) == Some(([(key, value)], u[1..]))
    ensures u[0] == COMMA && ReadMembers(u[1..], Some(key)).Some? ==>
              var others := ReadMembers(u[1..], Some(key)).value;
              ReadMembers(s, previous) == Some(([(key, value)] + others.0, others.1))
  {
    hide ReadString, ReadValue, Ascends;
    assert ([COLON] + t)[1..] == t;
  }

  /** These members are the ones of `v` under these keys, in this order. */
  ghost predicate MembersAs(ws: seq<(JsString, Json)>, v: Json, ks: seq<JsString>)
    requires v.Obj? && Valid(v) && forall k :: k in ks ==> k in Keys(v.members)
  {
    Keys(ws) == ks && forall i :: 0 <= i < |ks| ==> Same(ws[i].1, Lookup(v.members, ks[i]))
  }

  lemma OneMoreMember(v: Json, ks: seq<JsString>, value: Json, others: seq<(JsString, Json)>)
    requires v.Obj? && Valid(v) && ks != [] && forall k :: k in ks ==> k in Keys(v.members)
    requires Same(value, Lookup(v.members, ks[0])) && MembersAs(others, v, ks[1..])
    ensures MembersAs([(ks[0], value)] + others, v, ks)
  {
    hide Same, Lookup, Valid;
    var ws := [(ks[0], value)] + others;
    SameLength(others, ks[1..]);
    forall i | 0 <= i < |ks| ensures ws[i].0 == ks[i] && Same(ws[i].1, Lookup(v.members, ks[i])) {
      if i > 0 {
        assert ws[i] == others[i - 1] && ks[i] == ks[1..][i - 1];
        assert Keys(others)[i - 1] == others[i - 1].0;
      }
    }
    assert Keys(ws) == ks;
  }

  lemma SameLength(ws: seq<(JsString, Json)>, ks: seq<JsString>)
    requires Keys(ws) == ks
    ensures |ws| == |ks|
  {
  }

  lemma NoMember(v: Json)
    requires v.Obj? && Valid(v)
    ensures MembersAs([], v, [])
  {
  }

  ghost predicate Ascending(ks: seq<JsString>) {
    forall i, j :: 0 <= i < j < |ks| ==> Ascends(ks[i], ks[j])
  }

  lemma AscendingTail(ks: seq<JsString>)
    requires Ascending(ks) && |ks| > 1
    ensures Ascending(ks[1..]) && Ascends(ks[0], ks[1..][0])
  {
    hide Ascends;
  }

  lemma {:induction false} MembersReadBack(v: Json, ks: seq<JsString>, previous: Option<JsString>, r: JsString)
    requires v.Obj? && Valid(v) && ks != [] && forall k :: k in ks ==> k in Keys(v.members)
    requires Ascending(ks) && (previous.Some? ==> Ascends(previous.value, ks[0]))
    ensures var read := ReadMembers(Join(MemberTexts(v, ks)) + ([CLOSE_OBJECT] + r), previous);
            read.Some? && read.value.1 == r && MembersAs(read.value.0, v, ks)
    decreases v, 0, |ks|
  {
    hide Serialize, Same, Quote, Lookup, ReadValue, ReadString, ReadMembers, Ascending, Ascends, WellFormed, Join, Delimited, MembersAs;
    var end := [CLOSE_OBJECT] + r;
    var texts, value := MemberTexts(v, ks[1..]), Lookup(v.members, ks[0]);
    var s, tail := Join(MemberTexts(v, ks)) + end, Serialize(value) + Rest(texts, end);
    assert value < v && Valid(value) && WellFormed(ks[0]);
    MembersStart(v, ks, end);
    EndDelimited(r);
    RestDelimited(texts, end);
    ReadStringBack(ks[0], [COLON] + tail);
    ReadsBack(value, Rest(texts, end));
    var first := ReadValue(tail).value.0;
    MemberStep(s, previous, ks[0], tail, first, Rest(texts, end));
    if |ks| > 1 {
      assert Rest(texts, end)[1..] == Join(texts) + end;
      AscendingTail(ks);
      MembersReadBack(v, ks[1..], Some(ks[0]), r);
      OneMoreMember(v, ks, first, ReadMembers(Join(texts) + end, Some(ks[0])).value.0);
    } else {
      assert end[1..] == r;
      NoMember(v);
      OneMoreMember(v, ks, first, []);
      assert [(ks[0], first)] + [] == [(ks[0], first)];
    }
  }

  lemma EndDelimited(r: JsString)
    ensures Delimited([CLOSE_OBJECT] + r) && Delimited([CLOSE_ARRAY] + r)
  {
  }

  lemma SameAsMembers(ws: seq<(JsString, Json)>, v: Json)
    requires v.Obj? && Valid(v) && MembersAs(ws, v, SortedKeys(v.members))
    ensures Same(Obj(ws), v)
  {
    SortedKeysElements(v.members);
  }
}
