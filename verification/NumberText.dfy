/**
 * How a finite number is written: `Number::toString`, which RFC 8785 section
 * 3.2.2.3 prescribes and `JSON.stringify` follows.
 *
 * A finite non-zero double is taken apart as ECMAScript does: shortest decimal
 * digits `digits` and an exponent `point`, standing for 0.d1 d2 .. dk * 10^point.
 * How those digits are found is not modelled; how they are laid out is.
 */
module NumberText {
  import opened Text

  datatype Number =
    | Zero(negative: bool)
    | NonZero(negative: bool, digits: seq<int>, point: int)

  const MINUS: CodeUnit := 0x2D  // -
  const PLUS: CodeUnit := 0x2B   // +
  const DOT: CodeUnit := 0x2E    // .
  const EXP: CodeUnit := 0x65    // e
  const ZERO: CodeUnit := 0x30   // 0

  predicate IsDigits(ds: seq<int>) {
    forall i :: 0 <= i < |ds| ==> 0 <= ds[i] <= 9
  }

  /** The shortest form: no leading and no trailing zero digit. */
  predicate ValidNumber(n: Number) {
    n.NonZero? ==> n.digits != [] && IsDigits(n.digits) && n.digits[0] != 0 && n.digits[|n.digits| - 1] != 0
  }

  function DigitText(ds: seq<int>): (r: JsString)
    requires IsDigits(ds)
    ensures |r| == |ds|
    ensures forall i :: 0 <= i < |ds| ==> r[i] == ZERO + ds[i]
  {
    if ds == [] then [] else [ZERO + ds[0]] + DigitText(ds[1..])
  }

  function Zeros(n: nat): (r: JsString)
    ensures |r| == n && forall i :: 0 <= i < n ==> r[i] == ZERO
  {
    if n == 0 then [] else [ZERO] + Zeros(n - 1)
  }

  function NatDigits(n: nat): (ds: seq<int>)
    ensures ds != [] && IsDigits(ds)
  {
    if n < 10 then [n] else NatDigits(n / 10) + [n % 10]
  }

  function NatText(n: nat): JsString {
    DigitText(NatDigits(n))
  }

  function ExponentText(e: int): JsString {
    if e < 0 then [MINUS] + NatText(-e) else [PLUS] + NatText(e)
  }

  datatype Layout = Whole | Split | Small | Scientific

  function LayoutOf(k: nat, point: int): Layout {
    if k <= point <= 21 then Whole
    else if 0 < point <= 21 then Split
    else if -6 < point <= 0 then Small
    else Scientific
  }

  function Mantissa(ds: seq<int>): JsString
    requires ds != [] && IsDigits(ds)
  {
    if |ds| == 1 then DigitText(ds) else DigitText(ds[..1]) + [DOT] + DigitText(ds[1..])
  }

  function WholeText(ds: seq<int>, zeros: nat): JsString
    requires IsDigits(ds)
  {
    DigitText(ds) + Zeros(zeros)
  }

  function SplitText(ds: seq<int>, point: nat): JsString
    requires IsDigits(ds) && point <= |ds|
  {
    DigitText(ds[..point]) + [DOT] + DigitText(ds[point..])
  }

  function SmallText(zeros: nat, ds: seq<int>): JsString
    requires IsDigits(ds)
  {
    [ZERO, DOT] + Zeros(zeros) + DigitText(ds)
  }

  function ScientificText(ds: seq<int>, exponent: int): JsString
    requires ds != [] && IsDigits(ds)
  {
    Mantissa(ds) + [EXP] + ExponentText(exponent)
  }

  function Magnitude(ds: seq<int>, point: int): JsString
    requires ds != [] && IsDigits(ds)
  {
    match LayoutOf(|ds|, point)
    case Whole => WholeText(ds, point - |ds|)
    case Split => SplitText(ds, point)
    case Small => SmallText(-point, ds)
    case Scientific => ScientificText(ds, point - 1)
  }

  /** `JSON.stringify` of a finite number: both zeros print as "0". */
  function NumberString(n: Number): JsString
    requires ValidNumber(n)
  {
    if n.Zero? then [ZERO]
    else if n.negative then [MINUS] + Magnitude(n.digits, n.point)
    else Magnitude(n.digits, n.point)
  }

  /** The same number, part by part: negative zero is zero. `SameNumberIsSameReal` says why. */
  predicate SameNumber(a: Number, b: Number) {
    a == b || (a.Zero? && b.Zero?)
  }

  // --- digits read back ------------------------------------------------------

  lemma DigitTextInjective(a: seq<int>, b: seq<int>)
    requires IsDigits(a) && IsDigits(b) && DigitText(a) == DigitText(b)
    ensures a == b
  {
    forall i | 0 <= i < |a| ensures a[i] == b[i] {
      assert DigitText(a)[i] == DigitText(b)[i];
    }
  }

  function ValueOf(ds: seq<int>): int {
    if ds == [] then 0 else 10 * ValueOf(ds[..|ds| - 1]) + ds[|ds| - 1]
  }

  lemma {:induction false} NatDigitsValue(n: nat)
    ensures ValueOf(NatDigits(n)) == n
  {
    if n >= 10 {
      NatDigitsValue(n / 10);
      assert NatDigits(n)[..|NatDigits(n)| - 1] == NatDigits(n / 10);
    } else {
      assert ValueOf([]) == 0;
      assert [n][..0] == [];
    }
  }

  lemma NatTextInjective(m: nat, n: nat)
    requires NatText(m) == NatText(n)
    ensures m == n
  {
    DigitTextInjective(NatDigits(m), NatDigits(n));
    NatDigitsValue(m);
    NatDigitsValue(n);
  }

  // --- the four layouts are told apart and read back ---------------------------

  /** Digits then zeros: the last non-zero digit separates the two. */
  lemma WholeInjective(a: seq<int>, i: nat, b: seq<int>, j: nat)
    requires a != [] && b != [] && IsDigits(a) && IsDigits(b)
    requires a[|a| - 1] != 0 && b[|b| - 1] != 0
    requires WholeText(a, i) == WholeText(b, j)
    ensures a == b && i == j
  {
    var s, t := WholeText(a, i), WholeText(b, j);
    assert s[|a| - 1] != ZERO && t[|b| - 1] != ZERO;
    assert |a| == |b|;
    assert s[..|a|] == DigitText(a) && t[..|b|] == DigitText(b);
    DigitTextInjective(a, b);
  }

  /** Zeros then digits: the first non-zero digit separates the two. */
  lemma SmallInjective(i: nat, a: seq<int>, j: nat, b: seq<int>)
    requires a != [] && b != [] && IsDigits(a) && IsDigits(b) && a[0] != 0 && b[0] != 0
    requires SmallText(i, a) == SmallText(j, b)
    ensures a == b && i == j
  {
    var s, t := SmallText(i, a), SmallText(j, b);
    assert s[2 + i] != ZERO && t[2 + j] != ZERO;
    assert i == j;
    assert s[2 + i..] == DigitText(a) && t[2 + j..] == DigitText(b);
    DigitTextInjective(a, b);
  }

  /** A mark that occurs on neither left side splits both texts at the same place. */
  lemma SplitAtMark(a: JsString, b: JsString, r: JsString, t: JsString, mark: CodeUnit)
    requires mark !in a && mark !in b
    requires a + [mark] + r == b + [mark] + t
    ensures a == b && r == t
  {
    var s, w := a + [mark] + r, b + [mark] + t;
    assert s[|a|] == mark && w[|b|] == mark;
    assert (forall i :: 0 <= i < |a| ==> s[i] == a[i]) && (forall i :: 0 <= i < |b| ==> w[i] == b[i]);
    assert |a| == |b|;
    assert s[..|a|] == a && w[..|b|] == b && s[|a| + 1..] == r && w[|b| + 1..] == t;
  }

  lemma MantissaInjective(a: seq<int>, b: seq<int>)
    requires a != [] && b != [] && IsDigits(a) && IsDigits(b)
    requires Mantissa(a) == Mantissa(b)
    ensures a == b
  {
    if |a| > 1 && |b| > 1 {
      SplitAtMark(DigitText(a[..1]), DigitText(b[..1]), DigitText(a[1..]), DigitText(b[1..]), DOT);
      DigitTextInjective(a[..1], b[..1]);
      DigitTextInjective(a[1..], b[1..]);
      assert a == a[..1] + a[1..] && b == b[..1] + b[1..];
    } else {
      assert |Mantissa(a)| == (if |a| == 1 then 1 else |a| + 1);
      assert |Mantissa(b)| == (if |b| == 1 then 1 else |b| + 1);
      DigitTextInjective(a, b);
    }
  }

  /** The decimal point separates the digits before it from those after it. */
  lemma SplitInjective(a: seq<int>, p: nat, b: seq<int>, q: nat)
    requires IsDigits(a) && IsDigits(b) && p <= |a| && q <= |b|
    requires SplitText(a, p) == SplitText(b, q)
    ensures a == b && p == q
  {
    hide DigitText;
    SplitAtMark(DigitText(a[..p]), DigitText(b[..q]), DigitText(a[p..]), DigitText(b[q..]), DOT);
    DigitTextInjective(a[..p], b[..q]);
    DigitTextInjective(a[p..], b[q..]);
    assert a == a[..p] + a[p..] && b == b[..q] + b[q..];
  }

  lemma ExponentInjective(e: int, f: int)
    requires ExponentText(e) == ExponentText(f)
    ensures e == f
  {
    assert ExponentText(e)[1..] == NatText(if e < 0 then -e else e);
    assert ExponentText(f)[1..] == NatText(if f < 0 then -f else f);
    NatTextInjective(if e < 0 then -e else e, if f < 0 then -f else f);
  }

  lemma ScientificInjective(a: seq<int>, e: int, b: seq<int>, f: int)
    requires a != [] && b != [] && IsDigits(a) && IsDigits(b)
    requires ScientificText(a, e) == ScientificText(b, f)
    ensures a == b && e == f
  {
    SplitAtMark(Mantissa(a), Mantissa(b), ExponentText(e), ExponentText(f), EXP);
    MantissaInjective(a, b);
    ExponentInjective(e, f);
  }

  lemma LayoutMarks(ds: seq<int>, point: int)
    requires ds != [] && IsDigits(ds) && ds[0] != 0
    ensures var m, l := Magnitude(ds, point), LayoutOf(|ds|, point);
            && m != [] && m[0] != MINUS
            && (EXP in m <==> l.Scientific?)
            && (m[0] == ZERO <==> l.Small?)
            && (l.Whole? ==> DOT !in m)
            && (l.Split? ==> DOT in m)
  {
    var m := Magnitude(ds, point);
    match LayoutOf(|ds|, point)
    case Whole =>
    case Split => assert m[point] == DOT;
    case Small =>
    case Scientific => assert m[|Mantissa(ds)|] == EXP;
  }

  lemma LayoutsAgree(a: seq<int>, p: int, b: seq<int>, q: int)
    requires ValidNumber(NonZero(false, a, p)) && ValidNumber(NonZero(false, b, q))
    requires Magnitude(a, p) == Magnitude(b, q)
    ensures LayoutOf(|a|, p) == LayoutOf(|b|, q)
  {
    LayoutMarks(a, p);
    LayoutMarks(b, q);
  }

  lemma MagnitudeInjective(a: seq<int>, p: int, b: seq<int>, q: int)
    requires ValidNumber(NonZero(false, a, p)) && ValidNumber(NonZero(false, b, q))
    requires Magnitude(a, p) == Magnitude(b, q)
    ensures a == b && p == q
  {
    hide WholeText, SplitText, SmallText, ScientificText;
    LayoutsAgree(a, p, b, q);
    match LayoutOf(|a|, p)
    case Whole => WholeInjective(a, p - |a|, b, q - |b|);
    case Split => SplitInjective(a, p, b, q);
    case Small => SmallInjective(-p, a, -q, b);
    case Scientific => ScientificInjective(a, p - 1, b, q - 1);
  }

  lemma NonZeroText(a: Number)
    requires ValidNumber(a) && a.NonZero?
    ensures NumberString(a) != [ZERO]
    ensures a.negative <==> NumberString(a)[0] == MINUS
    ensures a.negative ==> NumberString(a)[1..] == Magnitude(a.digits, a.point)
  {
    LayoutMarks(a.digits, a.point);
    if !a.negative && LayoutOf(|a.digits|, a.point).Small? {
      assert |SmallText(-a.point, a.digits)| > 1;
    }
  }

  // --- the real numbers behind them ------------------------------------------------

  /** 10^e, for negative exponents too. */
  function Ten(e: int): (r: real)
    ensures r > 0.0
    decreases if e < 0 then -e else e
  {
    if e == 0 then 1.0 else if e > 0 then 10.0 * Ten(e - 1) else Ten(e + 1) / 10.0
  }

  function Scaled(m: int, x: real): real { m as real * x }

  /** The real number that a number stands for. */
  function Denote(n: Number): real {
    match n
    case Zero(_) => 0.0
    case NonZero(negative, digits, point) =>
      var magnitude := Scaled(ValueOf(digits), Ten(point - |digits|));
      if negative then -magnitude else magnitude
  }

  /** `n` with `k` zeros written after it. */
  function Shift(n: int, k: nat): int {
    if k == 0 then n else 10 * Shift(n, k - 1)
  }

  lemma TenNext(e: int)
    ensures Ten(e + 1) == 10.0 * Ten(e)
  {
  }

  lemma ScaledTen(m: int, x: real)
    ensures Scaled(m, 10.0 * x) == 10.0 * Scaled(m, x)
    ensures Scaled(10 * m, x) == 10.0 * Scaled(m, x)
  {
  }

  lemma ScaledCancels(m: int, n: int, x: real)
    requires x > 0.0 && Scaled(m, x) == Scaled(n, x)
    ensures m == n
  {
    assert (m as real - n as real) * x == 0.0;
  }

  lemma ScaledPositive(m: int, x: real)
    requires m >= 1 && x > 0.0
    ensures Scaled(m, x) > 0.0
  {
  }

  lemma {:induction false} TenShift(m: int, e: int, k: nat)
    ensures Scaled(m, Ten(e + k)) == Scaled(Shift(m, k), Ten(e))
  {
    hide Scaled, Ten;
    if k > 0 {
      TenShift(m, e, k - 1);
      TenNext(e + k - 1);
      ScaledTen(m, Ten(e + k - 1));
      ScaledTen(Shift(m, k - 1), Ten(e));
    }
  }

  lemma {:induction false} ValuePositive(ds: seq<int>)
    requires ds != [] && IsDigits(ds) && ds[0] != 0
    ensures ValueOf(ds) >= 1
  {
    if |ds| > 1 { ValuePositive(ds[..|ds| - 1]); } else { assert ValueOf(ds[..0]) == 0; }
  }

  /** Without a leading zero, digits are read back from their value. */
  lemma {:induction false} ValueDigits(ds: seq<int>)
    requires ds != [] && IsDigits(ds) && ds[0] != 0
    ensures ValueOf(ds) >= 1 && NatDigits(ValueOf(ds)) == ds
  {
    ValuePositive(ds);
    var front, last := ds[..|ds| - 1], ds[|ds| - 1];
    assert ds == front + [last];
    if |ds| > 1 {
      ValueDigits(front);
      assert ValueOf(ds) / 10 == ValueOf(front) && ValueOf(ds) % 10 == last;
    } else {
      assert ValueOf(front) == 0;
    }
  }

  lemma NoMultipleOfTen(t: int, d: int)
    requires 0 < d < 10
    ensures 10 * t != d
  {
  }

  lemma NotShifted(ds: seq<int>, n: int, k: nat)
    requires ds != [] && IsDigits(ds) && ds[|ds| - 1] != 0 && k > 0
    ensures ValueOf(ds) != Shift(n, k)
  {
    var v, s := ValueOf(ds[..|ds| - 1]), Shift(n, k - 1);
    assert ValueOf(ds) == 10 * v + ds[|ds| - 1] && Shift(n, k) == 10 * s;
    NoMultipleOfTen(s - v, ds[|ds| - 1]);
  }

  /** No trailing zero on the left: the exponents cannot differ that way. */
  lemma ExponentsAgree(a: seq<int>, p: int, b: seq<int>, q: int)
    requires IsDigits(a) && a != [] && a[|a| - 1] != 0 && p <= q
    requires Scaled(ValueOf(a), Ten(p)) == Scaled(ValueOf(b), Ten(q))
    ensures p == q && ValueOf(a) == ValueOf(b)
  {
    hide Scaled, Ten, ValueOf;
    var k: nat := q - p;
    TenShift(ValueOf(b), p, k);
    ScaledCancels(ValueOf(a), Shift(ValueOf(b), k), Ten(p));
    if k > 0 { NotShifted(a, ValueOf(b), k); }
  }

  lemma MagnitudesAgree(a: seq<int>, p: int, b: seq<int>, q: int)
    requires ValidNumber(NonZero(false, a, p)) && ValidNumber(NonZero(false, b, q))
    requires Scaled(ValueOf(a), Ten(p - |a|)) == Scaled(ValueOf(b), Ten(q - |b|))
    ensures a == b && p == q
  {
    hide ValueOf, Ten, Scaled;
    if p - |a| <= q - |b| { ExponentsAgree(a, p - |a|, b, q - |b|); } else { ExponentsAgree(b, q - |b|, a, p - |a|); }
    ValueDigits(a);
    ValueDigits(b);
  }

  lemma MagnitudePositive(n: Number)
    requires n.NonZero? && ValidNumber(n)
    ensures if n.negative then Denote(n) < 0.0 else Denote(n) > 0.0
  {
    hide Scaled, ValueOf, Ten;
    ValuePositive(n.digits);
    ScaledPositive(ValueOf(n.digits), Ten(n.point - |n.digits|));
  }

  /** Comparing part by part compares the real numbers: the parts are a normal form. */
  lemma {:induction false} SameNumberIsSameReal(a: Number, b: Number)
    requires ValidNumber(a) && ValidNumber(b)
    ensures SameNumber(a, b) <==> Denote(a) == Denote(b)
  {
    hide ValueOf, Ten, Scaled;
    if a.NonZero? { MagnitudePositive(a); }
    if b.NonZero? { MagnitudePositive(b); }
    if a.NonZero? && b.NonZero? && Denote(a) == Denote(b) {
      MagnitudesAgree(a.digits, a.point, b.digits, b.point);
    }
  }

  lemma {:induction false} NumberPartsFaithful(a: Number, b: Number)
    requires ValidNumber(a) && ValidNumber(b)
    ensures NumberString(a) == NumberString(b) <==> SameNumber(a, b)
  {
    if a.NonZero? { NonZeroText(a); }
    if b.NonZero? { NonZeroText(b); }
    if a.NonZero? && b.NonZero? && NumberString(a) == NumberString(b) {
      MagnitudeInjective(a.digits, a.point, b.digits, b.point);
    }
  }

  /** Two numbers print alike exactly when they are the same real number. */
  lemma {:induction false} NumberStringFaithful(a: Number, b: Number)
    requires ValidNumber(a) && ValidNumber(b)
    ensures NumberString(a) == NumberString(b) <==> SameNumber(a, b)
    ensures NumberString(a) == NumberString(b) <==> Denote(a) == Denote(b)
  {
    hide Denote, NumberString, SameNumber, ValidNumber;
    NumberPartsFaithful(a, b);
    SameNumberIsSameReal(a, b);
  }

  // --- what a number's text is made of -----------------------------------------

  predicate IsNumberUnit(u: CodeUnit) {
    ZERO <= u <= ZERO + 9 || u == MINUS || u == PLUS || u == DOT || u == EXP
  }

  ghost predicate AllNumberUnits(s: JsString) {
    forall i :: 0 <= i < |s| ==> IsNumberUnit(s[i])
  }

  lemma ConcatUnits(a: JsString, b: JsString)
    requires AllNumberUnits(a) && AllNumberUnits(b)
    ensures AllNumberUnits(a + b)
  {
  }

  lemma ScientificUnits(ds: seq<int>, e: int)
    requires ds != [] && IsDigits(ds)
    ensures AllNumberUnits(ScientificText(ds, e))
  {
    if |ds| > 1 {
      ConcatUnits(DigitText(ds[..1]), [DOT]);
      ConcatUnits(DigitText(ds[..1]) + [DOT], DigitText(ds[1..]));
    }
    ConcatUnits([MINUS], NatText(if e < 0 then -e else e));
    ConcatUnits([PLUS], NatText(if e < 0 then -e else e));
    ConcatUnits(Mantissa(ds), [EXP]);
    ConcatUnits(Mantissa(ds) + [EXP], ExponentText(e));
  }

  lemma WholeUnits(ds: seq<int>, zeros: nat)
    requires ds != [] && IsDigits(ds)
    ensures AllNumberUnits(WholeText(ds, zeros))
  {
    ConcatUnits(DigitText(ds), Zeros(zeros));
  }

  lemma SplitUnits(ds: seq<int>, point: nat)
    requires 0 < point < |ds| && IsDigits(ds)
    ensures AllNumberUnits(SplitText(ds, point))
  {
    ConcatUnits(DigitText(ds[..point]), [DOT]);
    ConcatUnits(DigitText(ds[..point]) + [DOT], DigitText(ds[point..]));
  }

  lemma SmallUnits(zeros: nat, ds: seq<int>)
    requires ds != [] && IsDigits(ds)
    ensures AllNumberUnits(SmallText(zeros, ds))
  {
    ConcatUnits([ZERO, DOT], Zeros(zeros));
    ConcatUnits([ZERO, DOT] + Zeros(zeros), DigitText(ds));
  }

  lemma {:induction false} MagnitudeUnits(ds: seq<int>, point: int)
    requires ds != [] && IsDigits(ds)
    ensures AllNumberUnits(Magnitude(ds, point))
  {
    hide WholeText, SplitText, SmallText, ScientificText, AllNumberUnits;
    match LayoutOf(|ds|, point)
    case Whole => WholeUnits(ds, point - |ds|);
    case Split => SplitUnits(ds, point);
    case Small => SmallUnits(-point, ds);
    case Scientific => ScientificUnits(ds, point - 1);
  }

  lemma {:induction false} NumberUnits(n: Number)
    requires ValidNumber(n)
    ensures var s := NumberString(n);
            && s != [] && (s[0] == MINUS || ZERO <= s[0] <= ZERO + 9)
            && AllNumberUnits(s)
  {
    if n.NonZero? {
      LayoutMarks(n.digits, n.point);
      MagnitudeUnits(n.digits, n.point);
      MagnitudeStart(n.digits, n.point);
    }
  }

  lemma MagnitudeStart(ds: seq<int>, point: int)
    requires ds != [] && IsDigits(ds)
    ensures Magnitude(ds, point) != [] && ZERO <= Magnitude(ds, point)[0] <= ZERO + 9
  {
    match LayoutOf(|ds|, point)
    case Whole => assert WholeText(ds, point - |ds|)[0] == DigitText(ds)[0];
    case Split => assert SplitText(ds, point)[0] == DigitText(ds[..point])[0];
    case Small =>
    case Scientific => assert ScientificText(ds, point - 1)[0] == Mantissa(ds)[0] == DigitText(ds[..1])[0];
  }
}
