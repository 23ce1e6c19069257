/**
 * The reader accepts nothing but canonical texts: what it reads, serialized again, is
 * what it read. So a text is canonical exactly when the reader takes the whole of it.
 */
module CanonicalTexts {
  import opened Wrappers
  import opened Text
  import opened NumberText
  import opened Sorting
  import opened StringOrder
  import opened CanonicalJson
  import opened CanonicalReader

  // --- strings -----------------------------------------------------------------------------

  lemma UnitWritten(s: JsString)
    requires ReadUnit(s).Some?
    ensures s == EscapeUnit(ReadUnit(s).value.0) + ReadUnit(s).value.1
  {
    var u, t := ReadUnit(s).value.0, ReadUnit(s).value.1;
    if s[0] != 0x5C {
      assert s == [s[0]] + s[1..];
    } else if s[1] == 0x75 {
      HexWritten(s);
    } else {
      assert s == [s[0], s[1]] + s[2..];
    }
  }

  lemma HexWritten(s: JsString)
    requires ReadHexEscape(s).Some? && s[0] == 0x5C && s[1] == 0x75
    ensures s == EscapeUnit(ReadHexEscape(s).value.0) + ReadHexEscape(s).value.1
  {
    var h, l := HexValue(s[4]).value, HexValue(s[5]).value;
    var u := 16 * h + l;
    assert u / 16 == h && u % 16 == l;
    assert HexDigit(h) == s[4] && HexDigit(l) == s[5];
    assert s == [s[0], s[1], s[2], s[3], s[4], s[5]] + s[6..];
  }

  lemma {:induction false} UnitsWritten(s: JsString)
    requires ReadUnits(s).Some?
    ensures s == Escape(ReadUnits(s).value.0) + ([QUOTE] + ReadUnits(s).value.1)
    decreases |s|
  {
    hide ReadUnit, EscapeUnit;
    if s != [] && s[0] == 0x22 {
      assert s == [QUOTE] + s[1..] == [] + ([QUOTE] + s[1..]);
    } else {
      UnitWritten(s);
      var u, t := ReadUnit(s).value.0, ReadUnit(s).value.1;
      UnitsWritten(t);
      var text, r := ReadUnits(t).value.0, ReadUnits(t).value.1;
      assert ([u] + text)[1..] == text;
      Assoc(EscapeUnit(u), Escape(text), [QUOTE] + r);
    }
  }

  lemma StringWritten(s: JsString)
    requires ReadString(s).Some?
    ensures WellFormed(ReadString(s).value.0) && s == Quote(ReadString(s).value.0) + ReadString(s).value.1
  {
    hide ReadUnits, Escape, WellFormed;
    UnitsWritten(s[1..]);
    var text, r := ReadUnits(s[1..]).value.0, ReadUnits(s[1..]).value.1;
    assert s == [QUOTE] + s[1..];
    assert [QUOTE] + (Escape(text) + ([QUOTE] + r)) == [QUOTE] + Escape(text) + [QUOTE] + r;
  }

  // --- numbers --------------------------------------------------------------------------------

  lemma DigitsWritten(t: JsString)
    requires AllDigits(t)
    ensures DigitText(DigitsOf(t)) == t
  {
  }

  lemma {:induction false} TrailingZerosGone(ds: seq<int>)
    requires IsDigits(ds)
    ensures var r := WithoutTrailingZeros(ds);
            && r <= ds && IsDigits(r) && (r != [] ==> r[|r| - 1] != 0) && forall i :: |r| <= i < |ds| ==> ds[i] == 0
  {
    if ds != [] && ds[|ds| - 1] == 0 { TrailingZerosGone(ds[..|ds| - 1]); }
  }

  lemma {:induction false} LeadingZerosGone(ds: seq<int>)
    requires IsDigits(ds)
    ensures var r := WithoutLeadingZeros(ds);
            && |r| <= |ds| && ds[|ds| - |r|..] == r && IsDigits(r) && (r != [] ==> r[0] != 0)
            && forall i :: 0 <= i < |ds| - |r| ==> ds[i] == 0
  {
    if ds != [] && ds[0] == 0 { LeadingZerosGone(ds[1..]); }
  }

  lemma ZerosAre(n: nat, t: JsString)
    requires |t| == n && forall i :: 0 <= i < n ==> t[i] == ZERO
    ensures Zeros(n) == t
  {
  }

  ghost predicate Writes(t: JsString, m: (seq<int>, int)) {
    ValidNumber(NonZero(false, m.0, m.1)) && Magnitude(m.0, m.1) == t
  }

  lemma WholeWritten(t: JsString)
    requires ReadWhole(t).Some?
    ensures Writes(t, ReadWhole(t).value)
  {
    hide DigitText, Zeros, WithoutTrailingZeros;
    var all := DigitsOf(t);
    var ds := WithoutTrailingZeros(all);
    TrailingZerosGone(all);
    assert all[0] != 0;
    assert ds[0] == all[0];
    DigitsWritten(t[..|ds|]);
    assert DigitsOf(t[..|ds|]) == ds;
    forall i | |ds| <= i < |t| ensures t[i] == ZERO { assert all[i] == 0; }
    ZerosAre(|t| - |ds|, t[|ds|..]);
    assert t == t[..|ds|] + t[|ds|..];
  }

  lemma CutDigits(t: JsString, z: nat)
    requires AllDigits(t) && z <= |t|
    ensures AllDigits(t[z..]) && DigitsOf(t[z..]) == DigitsOf(t)[z..] && t == t[..z] + t[z..]
    ensures (forall i :: 0 <= i < z ==> DigitsOf(t)[i] == 0) ==> Zeros(z) == t[..z]
    ensures t != [] ==> (DigitsOf(t)[|t| - 1] == 0 <==> t[|t| - 1] == 0x30)
  {
    if forall i :: 0 <= i < z ==> DigitsOf(t)[i] == 0 {
      forall i | 0 <= i < z ensures t[i] == ZERO { assert DigitsOf(t)[i] == 0; }
      ZerosAre(z, t[..z]);
    }
  }

  lemma SmallWritten(whole: JsString, fraction: JsString)
    requires whole == [0x30] && ReadDecimal(whole, fraction).Some?
    ensures Writes(whole + [0x2E] + fraction, ReadDecimal(whole, fraction).value)
  {
    hide DigitText, Zeros, WithoutLeadingZeros, DigitsOf;
    var all := DigitsOf(fraction);
    var ds := WithoutLeadingZeros(all);
    LeadingZerosGone(all);
    var z := |fraction| - |ds|;
    CutDigits(fraction, z);
    DigitsWritten(fraction[z..]);
    assert ds[|ds| - 1] == all[|all| - 1];
    SmallJoined(z, ds, fraction);
  }

  lemma SmallJoined(z: nat, ds: seq<int>, fraction: JsString)
    requires IsDigits(ds) && z <= |fraction| && Zeros(z) == fraction[..z] && DigitText(ds) == fraction[z..]
    ensures SmallText(z, ds) == [0x30] + [0x2E] + fraction
  {
    hide DigitText, Zeros;
    assert fraction == fraction[..z] + fraction[z..];
  }

  lemma SplitWritten(whole: JsString, fraction: JsString)
    requires whole != [0x30] && ReadDecimal(whole, fraction).Some?
    ensures Writes(whole + [0x2E] + fraction, ReadDecimal(whole, fraction).value)
  {
    hide DigitText;
    var a, b := DigitsOf(whole), DigitsOf(fraction);
    DigitsWritten(whole);
    DigitsWritten(fraction);
    var ds := a + b;
    assert ds[..|whole|] == a && ds[|whole|..] == b;
    assert ds[0] == a[0] && ds[|ds| - 1] == b[|b| - 1];
  }

  lemma SignedWritten(t: JsString)
    requires ReadSigned(t).Some?
    ensures ExponentText(ReadSigned(t).value) == t
  {
    hide DigitText, ValueOf, NatDigits;
    var ds := DigitsOf(t[1..]);
    DigitsWritten(t[1..]);
    ValueDigits(ds);
    assert t == [t[0]] + t[1..];
  }

  lemma MantissaWritten(m: JsString)
    requires if |m| == 1 then IsWhole(m) else |m| > 2 && IsWhole(m[..1]) && m[1] == 0x2E && IsFraction(m[2..])
    ensures var ds := if |m| == 1 then DigitsOf(m) else DigitsOf(m[..1]) + DigitsOf(m[2..]);
            ValidNumber(NonZero(false, ds, 0)) && Mantissa(ds) == m
  {
    hide DigitText;
    if |m| == 1 {
      DigitsWritten(m);
    } else {
      var a, b := DigitsOf(m[..1]), DigitsOf(m[2..]);
      DigitsWritten(m[..1]);
      DigitsWritten(m[2..]);
      var ds := a + b;
      assert ds[..1] == a && ds[1..] == b && ds[|ds| - 1] == b[|b| - 1];
      assert m == m[..1] + [0x2E] + m[2..];
    }
  }

  lemma ScientificWritten(mantissa: JsString, exponent: JsString)
    requires ReadScientific(mantissa, exponent).Some?
    ensures Writes(mantissa + [0x65] + exponent, ReadScientific(mantissa, exponent).value)
  {
    hide DigitsOf, IsWhole, IsFraction, ReadSigned, ExponentText, Mantissa;
    MantissaWritten(mantissa);
    SignedWritten(exponent);
  }

  lemma {:induction false} MagnitudeWritten(t: JsString)
    requires ReadMagnitude(t).Some?
    ensures Writes(t, ReadMagnitude(t).value)
  {
    hide ReadScientific, ReadDecimal, ReadWhole, Writes;
    var e, p := Find(t, 0x65), Find(t, 0x2E);
    if e < |t| {
      assert t == t[..e] + [0x65] + t[e + 1..];
      ScientificWritten(t[..e], t[e + 1..]);
    } else if p < |t| {
      assert t == t[..p] + [0x2E] + t[p + 1..];
      if t[..p] == [0x30] { SmallWritten(t[..p], t[p + 1..]); } else { SplitWritten(t[..p], t[p + 1..]); }
    } else {
      WholeWritten(t);
    }
  }

  lemma NumberWritten(t: JsString)
    requires NumberOf(t).Some?
    ensures ValidNumber(NumberOf(t).value) && NumberString(NumberOf(t).value) == t
  {
    hide ReadMagnitude, Magnitude;
    if t != [0x30] {
      var negative := t != [] && t[0] == 0x2D;
      MagnitudeWritten(if negative then t[1..] else t);
      if negative { assert t == [MINUS] + t[1..]; }
    }
  }

  lemma ReadNumberWritten(s: JsString)
    requires ReadNumber(s).Some?
    ensures var r := ReadNumber(s).value; ValidNumber(r.0) && s == NumberString(r.0) + r.1
  {
    hide NumberOf, NumberString, ValidNumber;
    NumberWritten(s[..Span(s)]);
    assert s == s[..Span(s)] + s[Span(s)..];
  }

  // --- keys in order ----------------------------------------------------------------------------

  lemma {:induction false} AscendingIsOrder(a: JsString, b: JsString)
    requires Ascends(a, b)
    ensures Before16(a, b)
  {
    var i :| 0 <= i < |b| && i <= |a| && a[..i] == b[..i] && (i == |a| || a[i] < b[i]);
    LexCommonPrefix(a[..i], a[i..], b[i..]);
    assert a == a[..i] + a[i..] && b == b[..i] + b[i..];
  }

  /** Each key comes after the one before it. */
  ghost predicate Chain(ks: seq<JsString>) {
    forall i :: 0 < i < |ks| ==> Ascends(ks[i - 1], ks[i])
  }

  lemma {:induction false} ChainOrdered(ks: seq<JsString>, i: nat, j: nat)
    requires Chain(ks) && i < j < |ks|
    ensures Before16(ks[i], ks[j])
    decreases j - i
  {
    hide Ascends;
    AscendingIsOrder(ks[j - 1], ks[j]);
    if i + 1 < j {
      ChainOrdered(ks, i, j - 1);
      LexTransitive(ks[i], ks[j - 1], ks[j]);
    }
  }

  lemma {:induction false} ChainSorted(ms: seq<(JsString, Json)>)
    requires Chain(Keys(ms))
    ensures NoDuplicates(Keys(ms)) && SortedKeys(ms) == Keys(ms)
  {
    hide Chain, Lex, Sort;
    var ks := Keys(ms);
    forall i, j | 0 <= i < j < |ks| ensures Before16(ks[i], ks[j]) && ks[i] != ks[j] && !Before16(ks[j], ks[i]) {
      ChainOrdered(ks, i, j);
      LexLaws(ks[i], ks[j]);
    }
    Before16Order(Elements(ks));
    SortSorts(Before16, ks);
    SortedUnique(Before16, ks, Sort(Before16, ks));
  }

  // --- values --------------------------------------------------------------------------------------

  /** The texts of items, whichever value holds them. */
  ghost function ItemsOf(xs: seq<Json>): (texts: seq<JsString>)
    requires forall i :: 0 <= i < |xs| ==> Valid(xs[i])
    ensures |texts| == |xs|
  {
    seq(|xs|, i requires 0 <= i < |xs| => Serialize(xs[i]))
  }

  ghost predicate GoodMembers(ms: seq<(JsString, Json)>) {
    forall i :: 0 <= i < |ms| ==> WellFormed(ms[i].0) && Valid(ms[i].1)
  }

  ghost function MembersOf(ms: seq<(JsString, Json)>): (texts: seq<JsString>)
    requires GoodMembers(ms)
    ensures |texts| == |ms|
  {
    seq(|ms|, i requires 0 <= i < |ms| => Quote(ms[i].0) + [COLON] + Serialize(ms[i].1))
  }

  lemma {:induction false} ItemTextsAre(v: Json, xs: seq<Json>)
    requires forall i :: 0 <= i < |xs| ==> xs[i] < v && Valid(xs[i])
    ensures ItemTexts(v, xs) == ItemsOf(xs)
  {
    hide Serialize, Valid;
    if xs != [] {
      ItemTextsAre(v, xs[1..]);
      assert ItemsOf(xs) == [Serialize(xs[0])] + ItemsOf(xs[1..]);
    }
  }

  lemma {:induction false} MemberTextsAre(v: Json, n: nat)
    requires v.Obj? && Valid(v) && n <= |v.members| && GoodMembers(v.members)
    ensures MemberTexts(v, Keys(v.members)[n..]) == MembersOf(v.members)[n..]
    decreases |v.members| - n
  {
    hide Serialize, Quote, Lookup;
    var ks, ms := Keys(v.members), v.members;
    if n < |ms| {
      MemberTextsAre(v, n + 1);
      LookupOwn(ms, n);
      assert ks[n..][0] == ms[n].0 && ks[n..][1..] == ks[n + 1..];
      assert MembersOf(ms)[n..] == [MembersOf(ms)[n]] + MembersOf(ms)[n + 1..];
    } else {
      assert ks[n..] == [] && MembersOf(ms)[n..] == [];
    }
  }

  /** What was read is valid, and serialized again it is what was read. */
  ghost predicate Written(s: JsString, v: Json, r: JsString) { Valid(v) && s == Serialize(v) + r }

  lemma LiteralWritten(s: JsString, text: JsString, v: Json)
    requires text != [] && Valid(v) && Serialize(v) == text && ReadLiteral(s, text, v).Some?
    ensures Written(s, ReadLiteral(s, text, v).value.0, ReadLiteral(s, text, v).value.1)
  {
    hide Serialize, Valid;
    assert s == text + s[|text|..];
  }

  lemma EmptyWritten(s: JsString)
    requires |s| > 1
    ensures s[0] == OPEN_ARRAY && s[1] == CLOSE_ARRAY ==> Written(s, Arr([]), s[2..])
    ensures s[0] == OPEN_OBJECT && s[1] == CLOSE_OBJECT ==> Written(s, Obj([]), s[2..])
  {
    assert s == [s[0], s[1]] + s[2..];
    var v := Obj([]);
    assert Serialize(Arr([])) == [OPEN_ARRAY, CLOSE_ARRAY];
    assert Keys(v.members) == [];
    assert SortedKeys(v.members) == [];
    assert Serialize(v) == [OPEN_OBJECT, CLOSE_OBJECT];
  }

  lemma ArrayFrom(s: JsString, xs: seq<Json>, r: JsString)
    requires s != [] && s[0] == OPEN_ARRAY && (forall i :: 0 <= i < |xs| ==> Valid(xs[i]))
    requires s[1..] == Join(ItemsOf(xs)) + ([CLOSE_ARRAY] + r)
    ensures Written(s, Arr(xs), r)
  {
    hide Join, ItemsOf;
    var v := Arr(xs);
    ItemTextsAre(v, xs);
    assert s == [OPEN_ARRAY] + s[1..];
    var body := Join(ItemsOf(xs));
    assert [OPEN_ARRAY] + (body + ([CLOSE_ARRAY] + r)) == [OPEN_ARRAY] + body + [CLOSE_ARRAY] + r;
  }

  lemma ObjectFrom(s: JsString, ms: seq<(JsString, Json)>, r: JsString)
    requires s != [] && s[0] == OPEN_OBJECT && GoodMembers(ms) && Chain(Keys(ms))
    requires s[1..] == Join(MembersOf(ms)) + ([CLOSE_OBJECT] + r)
    ensures Written(s, Obj(ms), r)
  {
    hide Join, MembersOf, Chain, SortedKeys;
    var v := Obj(ms);
    ChainSorted(ms);
    assert Valid(v);
    MemberTextsAre(v, 0);
    assert Keys(ms)[0..] == Keys(ms) && MembersOf(ms)[0..] == MembersOf(ms);
    assert s == [OPEN_OBJECT] + s[1..];
    var body := Join(MembersOf(ms));
    assert [OPEN_OBJECT] + (body + ([CLOSE_OBJECT] + r)) == [OPEN_OBJECT] + body + [CLOSE_OBJECT] + r;
  }

  /** The reader takes nothing but the text of a value. */
  lemma {:induction false} ReadsOnlyWritten(s: JsString)
    requires ReadValue(s).Some?
    ensures Written(s, ReadValue(s).value.0, ReadValue(s).value.1)
    decreases |s|, 0
  {
    hide ReadString, ReadNumber, ReadItems, ReadMembers, ReadLiteral, Written, Join, Quote, NumberString;
    if s[0] == 0x6E { LiteralWritten(s, NULL_TEXT, Null); }
    else if s[0] == 0x74 { LiteralWritten(s, TRUE_TEXT, Bool(true)); }
    else if s[0] == 0x66 { LiteralWritten(s, FALSE_TEXT, Bool(false)); }
    else if s[0] == 0x22 { TextFrom(s); }
    else if s[0] == 0x5B {
      if |s| > 1 && s[1] == 0x5D {
        EmptyWritten(s);
      } else {
        ItemsWritten(s[1..]);
        ArrayFrom(s, ReadItems(s[1..]).value.0, ReadItems(s[1..]).value.1);
      }
    } else if s[0] == 0x7B {
      if |s| > 1 && s[1] == 0x7D {
        EmptyWritten(s);
      } else {
        MembersWritten(s[1..], None);
        ObjectFrom(s, ReadMembers(s[1..], None).value.0, ReadMembers(s[1..], None).value.1);
      }
    } else {
      NumberFrom(s);
    }
  }

  lemma TextFrom(s: JsString)
    requires ReadString(s).Some?
    ensures Written(s, Str(ReadString(s).value.0), ReadString(s).value.1)
  {
    hide ReadString, Quote;
    StringWritten(s);
  }

  lemma NumberFrom(s: JsString)
    requires ReadNumber(s).Some?
    ensures Written(s, Num(ReadNumber(s).value.0), ReadNumber(s).value.1)
  {
    hide ReadNumber, NumberString;
    ReadNumberWritten(s);
  }

  lemma JoinOne(text: JsString)
    ensures Join([text]) == text
  {
  }

  lemma JoinMore(text: JsString, texts: seq<JsString>, end: JsString)
    requires texts != []
    ensures Join([text] + texts) + end == text + ([COMMA] + (Join(texts) + end))
  {
    hide Join;
    JoinSplits([text] + texts, end);
    assert ([text] + texts)[1..] == texts;
  }

  lemma {:induction false} ItemsWritten(s: JsString)
    requires ReadItems(s).Some?
    ensures var xs, r := ReadItems(s).value.0, ReadItems(s).value.1;
            && xs != [] && (forall i :: 0 <= i < |xs| ==> Valid(xs[i]))
            && s == Join(ItemsOf(xs)) + ([CLOSE_ARRAY] + r)
    decreases |s|, 1
  {
    hide ReadValue, Serialize, Join, Valid;
    ReadsOnlyWritten(s);
    var first, t := ReadValue(s).value.0, ReadValue(s).value.1;
    assert t == [t[0]] + t[1..];
    if t[0] == CLOSE_ARRAY {
      assert ItemsOf([first]) == [Serialize(first)];
      JoinOne(Serialize(first));
    } else {
      ItemsWritten(t[1..]);
      var others, r := ReadItems(t[1..]).value.0, ReadItems(t[1..]).value.1;
      assert ItemsOf([first] + others) == [Serialize(first)] + ItemsOf(others);
      JoinMore(Serialize(first), ItemsOf(others), [CLOSE_ARRAY] + r);
    }
  }

  lemma {:induction false} MembersWritten(s: JsString, previous: Option<JsString>)
    requires ReadMembers(s, previous).Some?
    ensures var ms, r := ReadMembers(s, previous).value.0, ReadMembers(s, previous).value.1;
            && ms != [] && GoodMembers(ms) && Chain(Keys(ms)) && (previous.Some? ==> Ascends(previous.value, ms[0].0))
            && s == Join(MembersOf(ms)) + ([CLOSE_OBJECT] + r)
    decreases |s|, 1
  {
    hide ReadValue, ReadString, Serialize, Join, Valid, Quote, WellFormed, Ascends;
    var key, u := ReadString(s).value.0, ReadString(s).value.1;
    StringWritten(s);
    assert u == [COLON] + u[1..];
    ReadsOnlyWritten(u[1..]);
    var first, t := ReadValue(u[1..]).value.0, ReadValue(u[1..]).value.1;
    assert t == [t[0]] + t[1..];
    var text := Quote(key) + [COLON] + Serialize(first);
    assert s == text + t by {
      Assoc(Quote(key), [COLON], Serialize(first) + t);
      Assoc(Quote(key) + [COLON], Serialize(first), t);
    }
    if t[0] == CLOSE_OBJECT {
      OneMember(key, first);
      JoinOne(text);
    } else {
      MembersWritten(t[1..], Some(key));
      var others, r := ReadMembers(t[1..], Some(key)).value.0, ReadMembers(t[1..], Some(key)).value.1;
      MoreMembers(key, first, others);
      JoinMore(text, MembersOf(others), [CLOSE_OBJECT] + r);
    }
  }

  lemma OneMember(key: JsString, value: Json)
    requires WellFormed(key) && Valid(value)
    ensures GoodMembers([(key, value)]) && Chain(Keys([(key, value)]))
    ensures MembersOf([(key, value)]) == [Quote(key) + [COLON] + Serialize(value)]
  {
    hide Serialize, Quote, Valid, WellFormed;
  }

  lemma MoreMembers(key: JsString, value: Json, others: seq<(JsString, Json)>)
    requires WellFormed(key) && Valid(value) && others != [] && GoodMembers(others) && Chain(Keys(others)) && Ascends(key, others[0].0)
    ensures var ms := [(key, value)] + others;
            GoodMembers(ms) && Chain(Keys(ms)) && MembersOf(ms) == [Quote(key) + [COLON] + Serialize(value)] + MembersOf(others)
  {
    hide Serialize, Quote, Valid, WellFormed, Ascends;
    var ms := [(key, value)] + others;
    forall i | 0 < i < |ms| ensures Ascends(Keys(ms)[i - 1], Keys(ms)[i]) {
      if i > 1 { assert Keys(ms)[i - 1] == Keys(others)[i - 2] && Keys(ms)[i] == Keys(others)[i - 1]; }
    }
  }

  /** A text is the canonical form of some value exactly when the reader takes all of it. */
  lemma {:induction false} CanonicalExactly(s: JsString)
    ensures (exists v :: Valid(v) && Serialize(v) == s) <==> ReadValue(s).Some? && ReadValue(s).value.1 == []
  {
    hide ReadValue, Serialize, Valid, Same;
    if exists v :: Valid(v) && Serialize(v) == s {
      var v :| Valid(v) && Serialize(v) == s;
      ReadsBack(v, []);
      assert Serialize(v) + [] == s;
    }
    if ReadValue(s).Some? && ReadValue(s).value.1 == [] {
      ReadsOnlyWritten(s);
      assert Serialize(ReadValue(s).value.0) + [] == Serialize(ReadValue(s).value.0);
    }
  }
}
