/**
 * RFC 8785 canonicalization: one text per JSON value, whatever order its object
 * members were written in.
 */
module CanonicalJson {
  import opened Wrappers
  import opened Text
  import opened NumberText
  import opened Sorting
  import opened StringOrder

  /** A JSON value. Members keep the order the object enumerates them in. */
  datatype Json =
    | Null
    | Bool(flag: bool)
    | Num(number: Number)
    | Str(text: JsString)
    | Arr(items: seq<Json>)
    | Obj(members: seq<(JsString, Json)>)

  function Keys(members: seq<(JsString, Json)>): (ks: seq<JsString>)
    ensures |ks| == |members|
    ensures forall i :: 0 <= i < |ks| ==> ks[i] == members[i].0
  {
    seq(|members|, i requires 0 <= i < |members| => members[i].0)
  }

  /** `record[key]`. */
  function Lookup(members: seq<(JsString, Json)>, key: JsString): (v: Json)
    requires key in Keys(members)
    ensures exists i :: 0 <= i < |members| && members[i] == (key, v)
  {
    if members[0].0 == key then
      assert members[0] == (key, members[0].1);
      members[0].1
    else
      var i :| 0 < i < |members| && Keys(members)[i] == key;
      assert Keys(members[1..])[i - 1] == key;
      var v := Lookup(members[1..], key);
      assert exists j :: 0 <= j < |members[1..]| && members[1..][j] == (key, v) && members[j + 1] == (key, v);
      v
  }

  /** What validation and JavaScript objects guarantee: well-formed text, one member per key. */
  ghost predicate Valid(v: Json) {
    match v
    case Null => true
    case Bool(_) => true
    case Num(n) => ValidNumber(n)
    case Str(s) => WellFormed(s)
    case Arr(items) => forall i :: 0 <= i < |items| ==> Valid(items[i])
    case Obj(members) =>
      && NoDuplicates(Keys(members))
      && forall i :: 0 <= i < |members| ==> WellFormed(members[i].0) && Valid(members[i].1)
  }

  /** The same JSON value: member order and the sign of zero are not part of it. */
  ghost predicate Same(a: Json, b: Json)
    decreases a
  {
    match (a, b)
    case (Null, Null) => true
    case (Bool(x), Bool(y)) => x == y
    case (Num(m), Num(n)) => SameNumber(m, n)
    case (Str(s), Str(t)) => s == t
    case (Arr(xs), Arr(ys)) => |xs| == |ys| && forall i :: 0 <= i < |xs| ==> Same(xs[i], ys[i])
    case (Obj(ms), Obj(ns)) =>
      && Elements(Keys(ms)) == Elements(Keys(ns))
      && forall i :: 0 <= i < |ms| ==> ms[i].0 in Keys(ns) && Same(ms[i].1, Lookup(ns, ms[i].0))
    case _ => false
  }

  // --- serialization -----------------------------------------------------------

  const QUOTE: CodeUnit := 0x22
  const BACKSLASH: CodeUnit := 0x5C
  const COMMA: CodeUnit := 0x2C
  const COLON: CodeUnit := 0x3A
  const OPEN_ARRAY: CodeUnit := 0x5B
  const CLOSE_ARRAY: CodeUnit := 0x5D
  const OPEN_OBJECT: CodeUnit := 0x7B
  const CLOSE_OBJECT: CodeUnit := 0x7D

  const NULL_TEXT: JsString := [0x6E, 0x75, 0x6C, 0x6C]
  const TRUE_TEXT: JsString := [0x74, 0x72, 0x75, 0x65]
  const FALSE_TEXT: JsString := [0x66, 0x61, 0x6C, 0x73, 0x65]

  function HexDigit(d: int): CodeUnit
    requires 0 <= d < 16
  {
    if d < 10 then 0x30 + d else 0x61 + (d - 10)
  }

  /** RFC 8785 section 3.2.2.2: the two-character escapes, then \u00xx in lower case. */
  function EscapeUnit(u: CodeUnit): JsString {
    if u == QUOTE then [BACKSLASH, QUOTE]
    else if u == BACKSLASH then [BACKSLASH, BACKSLASH]
    else if u == 0x08 then [BACKSLASH, 0x62]
    else if u == 0x09 then [BACKSLASH, 0x74]
    else if u == 0x0A then [BACKSLASH, 0x6E]
    else if u == 0x0C then [BACKSLASH, 0x66]
    else if u == 0x0D then [BACKSLASH, 0x72]
    else if u < 0x20 then [BACKSLASH, 0x75, 0x30, 0x30, HexDigit(u / 16), HexDigit(u % 16)]
    else [u]
  }

  function Escape(s: JsString): JsString {
    if s == [] then [] else EscapeUnit(s[0]) + Escape(s[1..])
  }

  /** `JSON.stringify` of a well-formed string. */
  function Quote(s: JsString): JsString {
    [QUOTE] + Escape(s) + [QUOTE]
  }

  /** `texts.join(',')`. */
  function Join(texts: seq<JsString>): JsString {
    if texts == [] then []
    else if |texts| == 1 then texts[0]
    else texts[0] + [COMMA] + Join(texts[1..])
  }

  function SortedKeys(members: seq<(JsString, Json)>): (ks: seq<JsString>)
    ensures forall k :: k in ks ==> k in Keys(members)
    ensures |ks| == |members|
  {
    SameElements(Keys(members), Sort(Before16, Keys(members)));
    assert forall k :: k in Sort(Before16, Keys(members)) ==> k in Elements(Keys(members));
    Sort(Before16, Keys(members))
  }

  function Serialize(v: Json): JsString
    requires Valid(v)
    decreases v, 1, 0
  {
    match v
    case Null => NULL_TEXT
    case Bool(flag) => if flag then TRUE_TEXT else FALSE_TEXT
    case Num(n) => NumberString(n)
    case Str(s) => Quote(s)
    case Arr(items) => [OPEN_ARRAY] + Join(ItemTexts(v, items)) + [CLOSE_ARRAY]
    case Obj(members) => [OPEN_OBJECT] + Join(MemberTexts(v, SortedKeys(members))) + [CLOSE_OBJECT]
  }

  /** `items.map(serialize)`, for a tail of the items of `v`. */
  function ItemTexts(v: Json, items: seq<Json>): (texts: seq<JsString>)
    requires forall i :: 0 <= i < |items| ==> items[i] < v && Valid(items[i])
    ensures |texts| == |items|
    decreases v, 0, |items|
  {
    if items == [] then [] else [Serialize(items[0])] + ItemTexts(v, items[1..])
  }

  /** One `"key":value` per key, in the given order. */
  function MemberTexts(v: Json, keys: seq<JsString>): (texts: seq<JsString>)
    requires v.Obj? && Valid(v) && forall k :: k in keys ==> k in Keys(v.members)
    ensures |texts| == |keys|
    decreases v, 0, |keys|
  {
    if keys == [] then []
    else
      var value := Lookup(v.members, keys[0]);
      assert value < v && Valid(value);
      [Quote(keys[0]) + [COLON] + Serialize(value)] + MemberTexts(v, keys[1..])
  }

  /** Layer 0 then layer 2; values validation rejects have no canonical form. */
  ghost function CanonicalizeJson(v: Json): Option<JsString> {
    if Valid(v) then Some(Serialize(v)) else None
  }

  // --- reading a canonical text back, one token at a time -------------------------

  lemma EscapeUnitPrefixFree(x: CodeUnit, y: CodeUnit, r: JsString, t: JsString)
    requires EscapeUnit(x) + r == EscapeUnit(y) + t
    ensures x == y && r == t
  {
    var s, w := EscapeUnit(x) + r, EscapeUnit(y) + t;
    assert s[0] == EscapeUnit(x)[0] && w[0] == EscapeUnit(y)[0];
    if s[0] == BACKSLASH {
      assert s[1] == EscapeUnit(x)[1] && w[1] == EscapeUnit(y)[1];
      if s[1] == 0x75 {
        assert s[4] == HexDigit(x / 16) && w[4] == HexDigit(y / 16);
        assert s[5] == HexDigit(x % 16) && w[5] == HexDigit(y % 16);
        assert x / 16 == y / 16 && x % 16 == y % 16;
      }
    }
    assert x == y;
    assert s[|EscapeUnit(x)|..] == r && w[|EscapeUnit(y)|..] == t;
  }

  lemma EscapeUnitStart(u: CodeUnit)
    ensures EscapeUnit(u) != [] && EscapeUnit(u)[0] != QUOTE
  {
  }

  lemma Assoc(a: JsString, b: JsString, c: JsString)
    ensures a + b + c == a + (b + c)
  {
  }

  lemma CancelPrefix(p: JsString, r: JsString, t: JsString)
    requires p + r == p + t
    ensures r == t
  {
    assert (p + r)[|p|..] == r && (p + t)[|p|..] == t;
  }

  lemma BracketsCancel(open: CodeUnit, close: CodeUnit, p: JsString, q: JsString, r: JsString, t: JsString)
    requires [open] + p + [close] + r == [open] + q + [close] + t
    ensures p + ([close] + r) == q + ([close] + t)
  {
    assert [open] + p + [close] + r == [open] + (p + ([close] + r));
    assert [open] + q + [close] + t == [open] + (q + ([close] + t));
    CancelPrefix([open], p + ([close] + r), q + ([close] + t));
  }

  lemma HeadOf(p: JsString, r: JsString)
    requires p != []
    ensures (p + r)[0] == p[0]
  {
  }

  /** The closing quote of an escaped string is found from the left. */
  lemma {:induction false} EscapeUnambiguous(a: JsString, b: JsString, r: JsString, t: JsString)
    requires Escape(a) + ([QUOTE] + r) == Escape(b) + ([QUOTE] + t)
    ensures a == b && r == t
  {
    hide EscapeUnit;
    var x, y := [QUOTE] + r, [QUOTE] + t;
    if a != [] {
      EscapeUnitStart(a[0]);
      Assoc(EscapeUnit(a[0]), Escape(a[1..]), x);
      HeadOf(EscapeUnit(a[0]), Escape(a[1..]) + x);
    }
    if b != [] {
      EscapeUnitStart(b[0]);
      Assoc(EscapeUnit(b[0]), Escape(b[1..]), y);
      HeadOf(EscapeUnit(b[0]), Escape(b[1..]) + y);
    }
    if a == [] || b == [] {
      assert [] + x == x && [] + y == y && x[0] == QUOTE && y[0] == QUOTE;
      CancelPrefix([QUOTE], r, t);
    } else {
      EscapeUnitPrefixFree(a[0], b[0], Escape(a[1..]) + x, Escape(b[1..]) + y);
      EscapeUnambiguous(a[1..], b[1..], r, t);
      assert a == [a[0]] + a[1..] && b == [b[0]] + b[1..];
    }
  }

  lemma QuoteUnambiguous(a: JsString, b: JsString, r: JsString, t: JsString)
    requires Quote(a) + r == Quote(b) + t
    ensures a == b && r == t
  {
    hide Escape;
    BracketsCancel(QUOTE, QUOTE, Escape(a), Escape(b), r, t);
    EscapeUnambiguous(a, b, r, t);
  }

  /** What may follow a value inside a canonical text. */
  predicate Delimited(r: JsString) {
    r == [] || r[0] == COMMA || r[0] == CLOSE_ARRAY || r[0] == CLOSE_OBJECT
  }

  lemma DelimitedCancels(a: JsString, b: JsString, r: JsString, t: JsString)
    requires AllNumberUnits(a) && AllNumberUnits(b) && Delimited(r) && Delimited(t)
    requires a + r == b + t
    ensures a == b && r == t
  {
    var s := a + r;
    assert |a| < |s| ==> s[|a|] == r[0];
    assert |b| < |s| ==> s[|b|] == t[0];
    assert forall i :: 0 <= i < |a| ==> s[i] == a[i];
    assert forall i :: 0 <= i < |b| ==> s[i] == b[i];
    assert |a| == |b|;
    assert a == s[..|a|] && b == s[..|b|] && r == s[|a|..] && t == s[|b|..];
  }

  lemma NumberUnambiguous(m: Number, n: Number, r: JsString, t: JsString)
    requires ValidNumber(m) && ValidNumber(n) && Delimited(r) && Delimited(t)
    requires NumberString(m) + r == NumberString(n) + t
    ensures SameNumber(m, n) && r == t
  {
    hide NumberString, SameNumber, Delimited, AllNumberUnits, ValidNumber, Denote;
    NumberUnits(m);
    NumberUnits(n);
    DelimitedCancels(NumberString(m), NumberString(n), r, t);
    NumberStringFaithful(m, n);
  }

  /** The first unit of a canonical text tells which kind of value it is. */
  function KindMark(v: Json): int {
    match v
    case Null => 0
    case Bool(flag) => if flag then 1 else 2
    case Num(_) => 3
    case Str(_) => 4
    case Arr(_) => 5
    case Obj(_) => 6
  }

  function MarkOf(u: CodeUnit): int {
    if u == 0x6E then 0 else if u == 0x74 then 1 else if u == 0x66 then 2
    else if u == QUOTE then 4 else if u == OPEN_ARRAY then 5 else if u == OPEN_OBJECT then 6
    else if u == MINUS || ZERO <= u <= ZERO + 9 then 3 else 7
  }

  lemma SerializeStart(v: Json)
    requires Valid(v)
    ensures Serialize(v) != [] && MarkOf(Serialize(v)[0]) == KindMark(v)
  {
    if v.Num? { NumberUnits(v.number); }
  }

  /** What follows the first entry of a joined list: the end, or a comma and the rest. */
  function Rest(texts: seq<JsString>, end: JsString): JsString {
    if texts == [] then end else [COMMA] + (Join(texts) + end)
  }

  lemma JoinSplits(texts: seq<JsString>, end: JsString)
    requires texts != []
    ensures Join(texts) + end == texts[0] + Rest(texts[1..], end)
  {
    if |texts| > 1 {
      Assoc(texts[0], [COMMA], Join(texts[1..]));
      Assoc(texts[0], [COMMA] + Join(texts[1..]), end);
      Assoc([COMMA], Join(texts[1..]), end);
    }
  }

  lemma RestUnambiguous(xs: seq<JsString>, ys: seq<JsString>, x: JsString, y: JsString)
    requires x != [] && y != [] && x[0] != COMMA && y[0] != COMMA
    requires Rest(xs, x) == Rest(ys, y)
    ensures xs == [] <==> ys == []
    ensures xs == [] ==> x == y
    ensures xs != [] ==> Join(xs) + x == Join(ys) + y
  {
    if xs != [] { HeadOf([COMMA], Join(xs) + x); }
    if ys != [] { HeadOf([COMMA], Join(ys) + y); }
    if xs != [] && ys != [] { CancelPrefix([COMMA], Join(xs) + x, Join(ys) + y); }
  }

  lemma RestDelimited(xs: seq<JsString>, x: JsString)
    requires Delimited(x)
    ensures Delimited(Rest(xs, x))
  {
  }

  /**
   * A canonical text can be read back from the left in only one way: the value it
   * starts with and what is left over are both determined.
   */
  lemma {:induction false} Unambiguous(a: Json, b: Json, r: JsString, t: JsString)
    requires Valid(a) && Valid(b) && Delimited(r) && Delimited(t)
    requires Serialize(a) + r == Serialize(b) + t
    ensures Same(a, b) && r == t
    decreases a, 1, 0
  {
    hide Join, NumberString, Quote, SortedKeys, Lookup, Delimited;
    SerializeStart(a);
    SerializeStart(b);
    HeadOf(Serialize(a), r);
    HeadOf(Serialize(b), t);
    match a
    case Null => CancelPrefix(NULL_TEXT, r, t);
    case Bool(flag) => CancelPrefix(Serialize(a), r, t);
    case Num(m) => NumberUnambiguous(m, b.number, r, t);
    case Str(s) => QuoteUnambiguous(s, b.text, r, t);
    case Arr(xs) =>
      BracketsCancel(OPEN_ARRAY, CLOSE_ARRAY, Join(ItemTexts(a, xs)), Join(ItemTexts(b, b.items)), r, t);
      ItemsUnambiguous(a, xs, b, b.items, r, t);
    case Obj(ms) =>
      var ks, ls := SortedKeys(ms), SortedKeys(b.members);
      BracketsCancel(OPEN_OBJECT, CLOSE_OBJECT, Join(MemberTexts(a, ks)), Join(MemberTexts(b, ls)), r, t);
      MembersUnambiguous(a, ks, b, ls, r, t);
      SameMembers(a, b);
  }

  lemma {:induction false} ItemsStart(v: Json, xs: seq<Json>, end: JsString)
    requires forall i :: 0 <= i < |xs| ==> xs[i] < v && Valid(xs[i])
    requires xs != []
    ensures Join(ItemTexts(v, xs)) + end == Serialize(xs[0]) + Rest(ItemTexts(v, xs[1..]), end)
    ensures var s := Join(ItemTexts(v, xs)) + end; s != [] && s[0] != CLOSE_ARRAY
  {
    hide Serialize, Join, Rest, Valid;
    JoinSplits(ItemTexts(v, xs), end);
    SerializeStart(xs[0]);
    assert ItemTexts(v, xs)[1..] == ItemTexts(v, xs[1..]);
    HeadOf(Serialize(xs[0]), Rest(ItemTexts(v, xs[1..]), end));
  }

  lemma {:induction false} ItemsUnambiguous(v: Json, xs: seq<Json>, w: Json, ys: seq<Json>, r: JsString, t: JsString)
    requires forall i :: 0 <= i < |xs| ==> xs[i] < v && Valid(xs[i])
    requires forall i :: 0 <= i < |ys| ==> ys[i] < w && Valid(ys[i])
    requires Join(ItemTexts(v, xs)) + ([CLOSE_ARRAY] + r) == Join(ItemTexts(w, ys)) + ([CLOSE_ARRAY] + t)
    ensures |xs| == |ys| && forall i :: 0 <= i < |xs| ==> Same(xs[i], ys[i])
    ensures r == t
    decreases v, 0, |xs|
  {
    hide Serialize, Same, Rest, Valid;
    var x, y := [CLOSE_ARRAY] + r, [CLOSE_ARRAY] + t;
    HeadOf([CLOSE_ARRAY], r);
    HeadOf([CLOSE_ARRAY], t);
    if xs != [] { ItemsStart(v, xs, x); }
    if ys != [] { ItemsStart(w, ys, y); }
    if xs == [] || ys == [] {
      assert [] + x == x && [] + y == y;
      CancelPrefix([CLOSE_ARRAY], r, t);
    } else {
      var p, q := ItemTexts(v, xs[1..]), ItemTexts(w, ys[1..]);
      RestDelimited(p, x);
      RestDelimited(q, y);
      Unambiguous(xs[0], ys[0], Rest(p, x), Rest(q, y));
      RestUnambiguous(p, q, x, y);
      if p != [] {
        ItemsUnambiguous(v, xs[1..], w, ys[1..], r, t);
      } else {
        CancelPrefix([CLOSE_ARRAY], r, t);
      }
      forall i | 0 <= i < |xs| ensures Same(xs[i], ys[i]) {
        if i > 0 { assert xs[i] == xs[1..][i - 1] && ys[i] == ys[1..][i - 1]; }
      }
    }
  }

  lemma {:induction false} MembersStart(v: Json, ks: seq<JsString>, end: JsString)
    requires v.Obj? && Valid(v) && forall k :: k in ks ==> k in Keys(v.members)
    requires ks != []
    ensures Join(MemberTexts(v, ks)) + end
         == Quote(ks[0]) + ([COLON] + (Serialize(Lookup(v.members, ks[0])) + Rest(MemberTexts(v, ks[1..]), end)))
    ensures var s := Join(MemberTexts(v, ks)) + end; s != [] && s[0] == QUOTE
  {
    hide Serialize, Quote, Lookup, Join, Rest;
    var texts, value := MemberTexts(v, ks), Serialize(Lookup(v.members, ks[0]));
    var tail := Rest(MemberTexts(v, ks[1..]), end);
    JoinSplits(texts, end);
    assert texts[1..] == MemberTexts(v, ks[1..]);
    Assoc(Quote(ks[0]), [COLON], value);
    Assoc(Quote(ks[0]), [COLON] + value, tail);
    Assoc([COLON], value, tail);
    QuoteStart(ks[0]);
    HeadOf(Quote(ks[0]), [COLON] + (value + tail));
  }

  lemma QuoteStart(s: JsString)
    ensures Quote(s) != [] && Quote(s)[0] == QUOTE
  {
  }

  lemma {:induction false} MembersUnambiguous(v: Json, ks: seq<JsString>, w: Json, ls: seq<JsString>, r: JsString, t: JsString)
    requires v.Obj? && Valid(v) && forall k :: k in ks ==> k in Keys(v.members)
    requires w.Obj? && Valid(w) && forall k :: k in ls ==> k in Keys(w.members)
    requires Join(MemberTexts(v, ks)) + ([CLOSE_OBJECT] + r) == Join(MemberTexts(w, ls)) + ([CLOSE_OBJECT] + t)
    ensures ks == ls
    ensures forall k :: k in ks ==> Same(Lookup(v.members, k), Lookup(w.members, k))
    ensures r == t
    decreases v, 0, |ks|
  {
    hide Serialize, Quote, Lookup, Rest, Same, Join;
    var x, y := [CLOSE_OBJECT] + r, [CLOSE_OBJECT] + t;
    HeadOf([CLOSE_OBJECT], r);
    HeadOf([CLOSE_OBJECT], t);
    JoinNothing(x);
    JoinNothing(y);
    if ks != [] { MembersStart(v, ks, x); }
    if ls != [] { MembersStart(w, ls, y); }
    if ks == [] || ls == [] {
      CancelPrefix([CLOSE_OBJECT], r, t);
    } else {
      var p, q := MemberTexts(v, ks[1..]), MemberTexts(w, ls[1..]);
      var a, b := Lookup(v.members, ks[0]), Lookup(w.members, ls[0]);
      QuoteUnambiguous(ks[0], ls[0], [COLON] + (Serialize(a) + Rest(p, x)), [COLON] + (Serialize(b) + Rest(q, y)));
      CancelPrefix([COLON], Serialize(a) + Rest(p, x), Serialize(b) + Rest(q, y));
      RestDelimited(p, x);
      RestDelimited(q, y);
      Unambiguous(a, b, Rest(p, x), Rest(q, y));
      RestUnambiguous(p, q, x, y);
      if p != [] {
        MembersUnambiguous(v, ks[1..], w, ls[1..], r, t);
      } else {
        CancelPrefix([CLOSE_OBJECT], r, t);
      }
      assert ks == [ks[0]] + ks[1..] && ls == [ls[0]] + ls[1..];
    }
  }

  lemma JoinNothing(end: JsString)
    ensures Join([]) + end == end
  {
  }

  /** With one member per key, a lookup finds that member. */
  lemma LookupOwn(members: seq<(JsString, Json)>, i: nat)
    requires i < |members| && NoDuplicates(Keys(members))
    ensures Keys(members)[i] == members[i].0 && members[i].0 in Keys(members)
    ensures Lookup(members, members[i].0) == members[i].1
  {
    hide Lookup;
    LookupFound(members, Keys(members)[i], members[i].1, i);
  }

  lemma LookupFound(members: seq<(JsString, Json)>, key: JsString, v: Json, i: nat)
    requires i < |members| && members[i] == (key, v) && NoDuplicates(Keys(members))
    ensures key in Keys(members) && Lookup(members, key) == v
  {
    hide Lookup;
    assert Keys(members)[i] == key;
    var w := Lookup(members, key);
    var j :| 0 <= j < |members| && members[j] == (key, w);
    assert Keys(members)[j] == key;
    assert i == j;
  }

  lemma SortedKeysElements(members: seq<(JsString, Json)>)
    ensures Elements(SortedKeys(members)) == Elements(Keys(members))
  {
    SameElements(Keys(members), SortedKeys(members));
  }

  lemma {:induction false} SameMembers(a: Json, b: Json)
    requires a.Obj? && b.Obj? && Valid(a) && Valid(b)
    requires SortedKeys(a.members) == SortedKeys(b.members)
    requires forall k :: k in SortedKeys(a.members) ==> Same(Lookup(a.members, k), Lookup(b.members, k))
    ensures Same(a, b)
  {
    SortedKeysElements(a.members);
    SortedKeysElements(b.members);
    var ms, ns := a.members, b.members;
    forall i | 0 <= i < |ms| ensures ms[i].0 in Keys(ns) && Same(ms[i].1, Lookup(ns, ms[i].0)) {
      LookupOwn(ms, i);
      assert ms[i].0 in Elements(Keys(ms)) && ms[i].0 in Elements(Keys(ns));
      assert ms[i].0 in Elements(SortedKeys(ms));
    }
  }

  // --- member order does not matter ----------------------------------------------

  lemma SameKeysSortAlike(ms: seq<(JsString, Json)>, ns: seq<(JsString, Json)>)
    requires NoDuplicates(Keys(ms)) && NoDuplicates(Keys(ns)) && Elements(Keys(ms)) == Elements(Keys(ns))
    ensures SortedKeys(ms) == SortedKeys(ns)
  {
    SameSetSameCounts(Keys(ms), Keys(ns));
    Before16Order(Elements(Keys(ms)));
    SortIgnoresArrival(Before16, Keys(ms), Keys(ns));
  }

  lemma SameAtKey(a: Json, b: Json, key: JsString)
    requires a.Obj? && b.Obj? && Valid(a) && Valid(b) && Same(a, b) && key in Keys(a.members)
    ensures key in Keys(b.members) && Same(Lookup(a.members, key), Lookup(b.members, key))
  {
    hide Lookup;
    var i :| 0 <= i < |a.members| && Keys(a.members)[i] == key;
    assert a.members[i].0 == key;
    LookupOwn(a.members, i);
  }

  lemma {:induction false} SameSerializeSame(a: Json, b: Json)
    requires Valid(a) && Valid(b) && Same(a, b)
    ensures Serialize(a) == Serialize(b)
    decreases a, 1, 0
  {
    hide SortedKeys, Lookup, Join;
    match a
    case Null =>
    case Bool(_) =>
    case Num(m) => NumberStringFaithful(m, b.number);
    case Str(_) =>
    case Arr(xs) => SameItems(a, xs, b, b.items);
    case Obj(ms) =>
      SameKeysSortAlike(ms, b.members);
      SortedKeysElements(b.members);
      SameMemberTexts(a, b, SortedKeys(ms));
  }

  lemma {:induction false} SameItems(v: Json, xs: seq<Json>, w: Json, ys: seq<Json>)
    requires forall i :: 0 <= i < |xs| ==> xs[i] < v && Valid(xs[i])
    requires forall i :: 0 <= i < |ys| ==> ys[i] < w && Valid(ys[i])
    requires |xs| == |ys| && forall i :: 0 <= i < |xs| ==> Same(xs[i], ys[i])
    ensures ItemTexts(v, xs) == ItemTexts(w, ys)
    decreases v, 0, |xs|
  {
    hide Serialize;
    if xs != [] {
      SameSerializeSame(xs[0], ys[0]);
      SameItems(v, xs[1..], w, ys[1..]);
    }
  }

  lemma {:induction false} SameMemberTexts(a: Json, b: Json, ks: seq<JsString>)
    requires a.Obj? && b.Obj? && Valid(a) && Valid(b) && Same(a, b)
    requires forall k :: k in ks ==> k in Keys(a.members) && k in Keys(b.members)
    ensures MemberTexts(a, ks) == MemberTexts(b, ks)
    decreases a, 0, |ks|
  {
    hide Serialize, Lookup, Same;
    if ks != [] {
      SameAtKey(a, b, ks[0]);
      assert Lookup(a.members, ks[0]) < a;
      SameSerializeSame(Lookup(a.members, ks[0]), Lookup(b.members, ks[0]));
      SameMemberTexts(a, b, ks[1..]);
    }
  }

  /**
   * The canonical form is a faithful identity: two accepted values have the same
   * canonical text exactly when they are the same JSON value.
   */
  lemma {:induction false} CanonicalIdentity(a: Json, b: Json)
    requires CanonicalizeJson(a).Some? && CanonicalizeJson(b).Some?
    ensures CanonicalizeJson(a) == CanonicalizeJson(b) <==> Same(a, b)
  {
    if Serialize(a) == Serialize(b) {
      assert Serialize(a) + [] == Serialize(b) + [];
      Unambiguous(a, b, [], []);
    }
    if Same(a, b) {
      SameSerializeSame(a, b);
    }
  }

  /** So sameness is an equivalence on accepted values. */
  lemma {:induction false} SameEquivalence(a: Json, b: Json, c: Json)
    requires Valid(a) && Valid(b) && Valid(c)
    ensures Same(a, a)
    ensures Same(a, b) ==> Same(b, a)
    ensures Same(a, b) && Same(b, c) ==> Same(a, c)
  {
    CanonicalIdentity(a, a);
    CanonicalIdentity(a, b);
    CanonicalIdentity(b, a);
    CanonicalIdentity(b, c);
    CanonicalIdentity(a, c);
  }

  // --- the canonical text is well-formed, so its bytes lose nothing -------------------

  lemma {:induction false} WellFormedConcat(a: JsString, b: JsString)
    requires WellFormed(a) && WellFormed(b)
    ensures WellFormed(a + b)
  {
    if a == [] {
      assert a + b == b;
    } else if StartsWithPair(a) {
      WellFormedConcat(a[2..], b);
      assert (a + b)[2..] == a[2..] + b;
    } else {
      WellFormedConcat(a[1..], b);
      assert (a + b)[1..] == a[1..] + b;
    }
  }

  lemma {:induction false} BelowSurrogatesWellFormed(s: JsString)
    requires forall i :: 0 <= i < |s| ==> s[i] < 0xD800
    ensures WellFormed(s)
  {
    if s != [] { BelowSurrogatesWellFormed(s[1..]); }
  }

  lemma {:induction false} EscapeWellFormed(s: JsString)
    requires WellFormed(s)
    ensures WellFormed(Escape(s))
  {
    if s == [] {
    } else if StartsWithPair(s) {
      EscapeWellFormed(s[2..]);
      assert s[1..][1..] == s[2..] && s[1..][0] == s[1];
      assert Escape(s) == [s[0]] + ([s[1]] + Escape(s[2..]));
      assert Escape(s)[2..] == Escape(s[2..]);
    } else {
      EscapeWellFormed(s[1..]);
      BelowSurrogatesOrPlain(s[0]);
      WellFormedConcat(EscapeUnit(s[0]), Escape(s[1..]));
    }
  }

  lemma BelowSurrogatesOrPlain(u: CodeUnit)
    requires !IsHighSurrogate(u) && !IsLowSurrogate(u)
    ensures WellFormed(EscapeUnit(u))
  {
    if u < 0xD800 {
      BelowSurrogatesWellFormed(EscapeUnit(u));
    } else {
      assert WellFormed([u]) by { assert [u][1..] == []; }
    }
  }

  lemma QuoteWellFormed(s: JsString)
    requires WellFormed(s)
    ensures WellFormed(Quote(s))
  {
    EscapeWellFormed(s);
    BelowSurrogatesWellFormed([QUOTE]);
    WellFormedConcat([QUOTE], Escape(s));
    WellFormedConcat([QUOTE] + Escape(s), [QUOTE]);
  }

  lemma {:induction false} JoinWellFormed(texts: seq<JsString>)
    requires forall i :: 0 <= i < |texts| ==> WellFormed(texts[i])
    ensures WellFormed(Join(texts))
  {
    if |texts| > 1 {
      JoinWellFormed(texts[1..]);
      BelowSurrogatesWellFormed([COMMA]);
      WellFormedConcat(texts[0], [COMMA]);
      WellFormedConcat(texts[0] + [COMMA], Join(texts[1..]));
    }
  }

  lemma BracketsWellFormed(open: CodeUnit, s: JsString, close: CodeUnit)
    requires WellFormed(s) && open < 0xD800 && close < 0xD800
    ensures WellFormed([open] + s + [close])
  {
    BelowSurrogatesWellFormed([open]);
    BelowSurrogatesWellFormed([close]);
    WellFormedConcat([open], s);
    WellFormedConcat([open] + s, [close]);
  }

  lemma {:induction false} SerializeWellFormed(v: Json)
    requires Valid(v)
    ensures WellFormed(Serialize(v))
    decreases v, 1, 0
  {
    hide Join, Quote, SortedKeys, Lookup;
    match v
    case Null => BelowSurrogatesWellFormed(NULL_TEXT);
    case Bool(flag) => BelowSurrogatesWellFormed(Serialize(v));
    case Num(n) =>
      NumberUnits(n);
      BelowSurrogatesWellFormed(NumberString(n));
    case Str(s) => QuoteWellFormed(s);
    case Arr(items) =>
      ItemTextsWellFormed(v, items);
      JoinWellFormed(ItemTexts(v, items));
      BracketsWellFormed(OPEN_ARRAY, Join(ItemTexts(v, items)), CLOSE_ARRAY);
    case Obj(members) =>
      MemberTextsWellFormed(v, SortedKeys(members));
      JoinWellFormed(MemberTexts(v, SortedKeys(members)));
      BracketsWellFormed(OPEN_OBJECT, Join(MemberTexts(v, SortedKeys(members))), CLOSE_OBJECT);
  }

  lemma {:induction false} ItemTextsWellFormed(v: Json, xs: seq<Json>)
    requires forall i :: 0 <= i < |xs| ==> xs[i] < v && Valid(xs[i])
    ensures forall i :: 0 <= i < |xs| ==> WellFormed(ItemTexts(v, xs)[i])
    decreases v, 0, |xs|
  {
    hide Serialize;
    if xs != [] {
      SerializeWellFormed(xs[0]);
      ItemTextsWellFormed(v, xs[1..]);
    }
  }

  lemma {:induction false} MemberTextsWellFormed(v: Json, ks: seq<JsString>)
    requires v.Obj? && Valid(v) && forall k :: k in ks ==> k in Keys(v.members)
    ensures forall i :: 0 <= i < |ks| ==> WellFormed(MemberTexts(v, ks)[i])
    decreases v, 0, |ks|
  {
    hide Serialize, Lookup, Quote;
    if ks != [] {
      var value := Lookup(v.members, ks[0]);
      assert value < v && Valid(value) && WellFormed(ks[0]);
      SerializeWellFormed(value);
      QuoteWellFormed(ks[0]);
      BelowSurrogatesWellFormed([COLON]);
      WellFormedConcat(Quote(ks[0]), [COLON]);
      WellFormedConcat(Quote(ks[0]) + [COLON], Serialize(value));
      MemberTextsWellFormed(v, ks[1..]);
    }
  }

  /** `canonicalBytes`: the input to every digest. */
  function CanonicalBytes(v: Json): seq<Byte>
    requires Valid(v)
  {
    Encode(Serialize(v))
  }

  /** The bytes that are hashed are as faithful as the text. */
  lemma {:induction false} CanonicalBytesIdentity(a: Json, b: Json)
    requires Valid(a) && Valid(b)
    ensures CanonicalBytes(a) == CanonicalBytes(b) <==> Same(a, b)
  {
    SerializeWellFormed(a);
    SerializeWellFormed(b);
    EncodeIdentifies(Serialize(a), Serialize(b));
    if CanonicalBytes(a) == CanonicalBytes(b) {
      ScalarsInjective(Serialize(a), Serialize(b));
    }
    CanonicalIdentity(a, b);
  }

  /** `sha` does not collide on this pair of inputs. */
  ghost predicate NoCollision<D(!new)>(sha: seq<Byte> -> D, x: seq<Byte>, y: seq<Byte>) {
    sha(x) == sha(y) ==> x == y
  }

  /** `sha256Canonical`. */
  function Sha256Canonical<D>(sha: seq<Byte> -> D, v: Json): D
    requires Valid(v)
  {
    sha(CanonicalBytes(v))
  }

  lemma {:induction false} DigestIdentity<D(!new)>(sha: seq<Byte> -> D, a: Json, b: Json)
    requires Valid(a) && Valid(b)
    requires NoCollision(sha, CanonicalBytes(a), CanonicalBytes(b))
    ensures Sha256Canonical(sha, a) == Sha256Canonical(sha, b) <==> Same(a, b)
  {
    CanonicalBytesIdentity(a, b);
  }
}
