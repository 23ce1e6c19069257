/**
 * The replay rule: the same deriver over the same snapshot gives the same evidence,
 * apart from the moment it was derived. Evidence records are taken as JSON objects.
 */
module Replay {
  import opened Text
  import opened Sorting
  import opened StringOrder
  import opened CanonicalJson
  import opened Records

  const EVIDENCE_ID: JsString := Ascii("evidence_id")
  const DERIVATION: JsString := Ascii("derivation")
  const DERIVED_AT: JsString := Ascii("derived_at")

  type Members = seq<(JsString, Json)>

  // --- objects as finite maps ------------------------------------------------------

  function NotKey(key: JsString): ((JsString, Json)) -> bool { (m: (JsString, Json)) => m.0 != key }

  /** `const { [key]: _, ...rest } = record`. */
  function Omit(members: Members, key: JsString): Members { Filter(NotKey(key), members) }

  /** `{ ...record, [key]: value }`, up to the position of the member. */
  function With(members: Members, key: JsString, value: Json): Members { Omit(members, key) + [(key, value)] }

  /** What an object maps each of its keys to. */
  ghost function Content(members: Members): map<JsString, Json> {
    map k | k in Keys(members) :: Lookup(members, k)
  }

  ghost predicate Alike(m: map<JsString, Json>, n: map<JsString, Json>) {
    m.Keys == n.Keys && forall k :: k in m ==> Same(m[k], n[k])
  }

  lemma ContentKeys(members: Members)
    ensures Content(members).Keys == Elements(Keys(members))
  {
  }

  lemma ContentAt(members: Members, i: nat)
    requires i < |members| && NoDuplicates(Keys(members))
    ensures members[i].0 in Content(members) && Content(members)[members[i].0] == members[i].1
  {
    LookupOwn(members, i);
  }

  /** Two objects are the same JSON value when they map the same keys to the same values. */
  lemma ObjectsAlike(ms: Members, ns: Members)
    requires Valid(Obj(ms)) && Valid(Obj(ns))
    ensures Same(Obj(ms), Obj(ns)) <==> Alike(Content(ms), Content(ns))
  {
    hide Lookup;
    ContentKeys(ms);
    ContentKeys(ns);
    if Same(Obj(ms), Obj(ns)) {
      forall k | k in Content(ms) ensures Same(Content(ms)[k], Content(ns)[k]) {
        SameAtKey(Obj(ms), Obj(ns), k);
      }
    }
    if Alike(Content(ms), Content(ns)) {
      forall i | 0 <= i < |ms| ensures ms[i].0 in Keys(ns) && Same(ms[i].1, Lookup(ns, ms[i].0)) {
        ContentAt(ms, i);
      }
    }
  }

  lemma {:induction false} OmitKeys(ms: Members, key: JsString)
    requires NoDuplicates(Keys(ms))
    ensures NoDuplicates(Keys(Omit(ms, key)))
    ensures Elements(Keys(Omit(ms, key))) == Elements(Keys(ms)) - {key}
  {
    KeyElements(ms);
    KeyElements(Omit(ms, key));
    if ms != [] {
      assert Keys(ms[1..]) == Keys(ms)[1..];
      OmitKeys(ms[1..], key);
      assert ms[0].0 !in Keys(ms[1..]);
      assert ms[0].0 !in Elements(Keys(Omit(ms[1..], key)));
      if ms[0].0 != key {
        var rest := Omit(ms[1..], key);
        assert Omit(ms, key) == [ms[0]] + rest;
        assert Keys([ms[0]] + rest) == [ms[0].0] + Keys(rest);
      }
    }
  }

  lemma KeyElements(ms: Members)
    ensures forall k :: k in Keys(ms) <==> exists v :: (k, v) in ms
  {
    forall k | k in Keys(ms) ensures exists v :: (k, v) in ms {
      var i :| 0 <= i < |ms| && Keys(ms)[i] == k;
      assert (k, ms[i].1) in ms;
    }
    forall k, v | (k, v) in ms ensures k in Keys(ms) {
      var i :| 0 <= i < |ms| && ms[i] == (k, v);
      assert Keys(ms)[i] == k;
    }
  }

  lemma OmitValid(ms: Members, key: JsString)
    requires Valid(Obj(ms))
    ensures Valid(Obj(Omit(ms, key)))
  {
    hide WellFormed;
    OmitKeys(ms, key);
    var rest := Omit(ms, key);
    forall i | 0 <= i < |rest| ensures WellFormed(rest[i].0) && Valid(rest[i].1) {
      assert rest[i] in rest && rest[i] in ms;
    }
  }

  lemma OmitContent(ms: Members, key: JsString)
    requires Valid(Obj(ms))
    ensures Valid(Obj(Omit(ms, key)))
    ensures Content(Omit(ms, key)) == Content(ms) - {key}
  {
    hide Lookup, WellFormed, Valid;
    OmitValid(ms, key);
    ObjectKeysDistinct(ms);
    OmitKeys(ms, key);
    ContentKeys(ms);
    var rest := Omit(ms, key);
    ContentKeys(rest);
    forall k | k in Content(rest) ensures Content(rest)[k] == Content(ms)[k] {
      var i :| 0 <= i < |rest| && rest[i] == (k, Lookup(rest, k));
      assert rest[i] in rest && rest[i] in ms;
      var j :| 0 <= j < |ms| && ms[j] == rest[i];
      ContentAt(ms, j);
    }
  }

  lemma ObjectKeysDistinct(ms: Members)
    requires Valid(Obj(ms))
    ensures NoDuplicates(Keys(ms))
  {
  }

  lemma WithValid(ms: Members, key: JsString, value: Json)
    requires Valid(Obj(ms)) && WellFormed(key) && Valid(value)
    ensures Valid(Obj(With(ms, key, value)))
  {
    hide Omit, WellFormed;
    OmitValid(ms, key);
    OmitKeysOf(ms, key);
    var rest, all := Omit(ms, key), With(ms, key, value);
    assert Keys(all) == Keys(rest) + [key];
    assert key !in Elements(Keys(rest));
    assert NoDuplicates(Keys(all));
    forall i | 0 <= i < |all| ensures WellFormed(all[i].0) && Valid(all[i].1) {}
  }

  lemma OmitKeysOf(ms: Members, key: JsString)
    requires Valid(Obj(ms))
    ensures Elements(Keys(Omit(ms, key))) == Elements(Keys(ms)) - {key}
  {
    OmitKeys(ms, key);
  }

  lemma WithContent(ms: Members, key: JsString, value: Json)
    requires Valid(Obj(ms)) && WellFormed(key) && Valid(value)
    ensures Valid(Obj(With(ms, key, value)))
    ensures Content(With(ms, key, value)) == Content(ms)[key := value]
  {
    hide Lookup, Omit, Valid, WellFormed;
    OmitContent(ms, key);
    OmitKeysOf(ms, key);
    WithValid(ms, key, value);
    var rest, all := Omit(ms, key), With(ms, key, value);
    ObjectKeysDistinct(rest);
    ObjectKeysDistinct(all);
    ContentKeys(ms);
    ContentKeys(rest);
    ContentKeys(all);
    assert Keys(all) == Keys(rest) + [key];
    forall k | k in Content(all) ensures k in Content(ms)[key := value] && Content(all)[k] == Content(ms)[key := value][k] {
      var i :| 0 <= i < |all| && all[i] == (k, Lookup(all, k));
      if i < |rest| { ContentAt(rest, i); }
    }
    assert Elements(Keys(all)) == Elements(Keys(rest)) + {key};
  }

  /** Replacing one member of two objects compares the rest and the two values. */
  lemma WithSame(ms: Members, ns: Members, key: JsString, x: Json, y: Json)
    requires Valid(Obj(ms)) && Valid(Obj(ns)) && WellFormed(key) && Valid(x) && Valid(y)
    ensures Valid(Obj(Omit(ms, key))) && Valid(Obj(Omit(ns, key)))
    ensures Valid(Obj(With(ms, key, x))) && Valid(Obj(With(ns, key, y)))
    ensures Same(Obj(With(ms, key, x)), Obj(With(ns, key, y))) <==> Same(Obj(Omit(ms, key)), Obj(Omit(ns, key))) && Same(x, y)
  {
    hide Same, Valid, Content, With, Omit;
    OmitContent(ms, key);
    OmitContent(ns, key);
    WithContent(ms, key, x);
    WithContent(ns, key, y);
    ObjectsAlike(With(ms, key, x), With(ns, key, y));
    ObjectsAlike(Omit(ms, key), Omit(ns, key));
    AlikeWithout(Content(ms), Content(ns), key, x, y);
  }

  lemma AlikeWithout(m: map<JsString, Json>, n: map<JsString, Json>, key: JsString, x: Json, y: Json)
    ensures Alike(m[key := x], n[key := y]) <==> Alike(m - {key}, n - {key}) && Same(x, y)
  {
    var a, b := m[key := x], n[key := y];
    var c, d := m - {key}, n - {key};
    assert a.Keys == c.Keys + {key} && b.Keys == d.Keys + {key};
    if Alike(a, b) {
      assert Same(a[key], b[key]);
      assert c.Keys == d.Keys;
      forall k | k in c ensures Same(c[k], d[k]) { assert k in a; }
    }
  }

  // --- what a replay compares --------------------------------------------------------

  /** A well-formed evidence record, as far as a replay looks into it. */
  ghost predicate IsEvidence(v: Json) {
    && v.Obj? && Valid(v)
    && EVIDENCE_ID in Keys(v.members) && Lookup(v.members, EVIDENCE_ID).Str?
    && DERIVATION in Keys(v.members) && Lookup(v.members, DERIVATION).Obj?
    && DERIVED_AT in Keys(Lookup(v.members, DERIVATION).members)
  }

  function EvidenceIdOf(v: Json): JsString
    requires IsEvidence(v)
  {
    Lookup(v.members, EVIDENCE_ID).text
  }

  function DerivationOf(v: Json): (d: Members)
    requires IsEvidence(v)
    ensures Valid(Obj(d))
  {
    var d := Lookup(v.members, DERIVATION);
    assert Valid(d) && d == Obj(d.members);
    d.members
  }

  lemma FieldNames()
    ensures WellFormed(EVIDENCE_ID) && WellFormed(DERIVATION) && WellFormed(DERIVED_AT)
    ensures EVIDENCE_ID != DERIVATION
  {
    hide WellFormed, Ascii;
    AsciiFaithful("evidence_id", "derivation");
    AsciiFaithful("derivation", "derived_at");
    AsciiFaithful("derived_at", "derived_at");
  }

  lemma {:induction false} ProjectionValid(v: Json, d: Members)
    requires IsEvidence(v) && Valid(Obj(d))
    ensures Valid(Obj(Omit(d, DERIVED_AT))) && Valid(Obj(With(v.members, DERIVATION, Obj(Omit(d, DERIVED_AT)))))
  {
    FieldNames();
    OmitContent(d, DERIVED_AT);
    WithContent(v.members, DERIVATION, Obj(Omit(d, DERIVED_AT)));
  }

  /** Everything except `derivation.derived_at`. */
  function ProjectForReplay(v: Json): (r: Json)
    requires IsEvidence(v)
    ensures r.Obj? && Valid(r)
  {
    ProjectionValid(v, DerivationOf(v));
    Obj(With(v.members, DERIVATION, Obj(Omit(DerivationOf(v), DERIVED_AT))))
  }

  /** The record as it would read had it been derived at `instant`. */
  function Restamped(v: Json, instant: Json): Json
    requires IsEvidence(v)
  {
    Obj(With(v.members, DERIVATION, Obj(With(DerivationOf(v), DERIVED_AT, instant))))
  }

  /** Restamping changes the stamp and nothing else. */
  lemma {:induction false} RestampedAgain(v: Json)
    requires IsEvidence(v)
    ensures Same(Restamped(v, Lookup(DerivationOf(v), DERIVED_AT)), v)
  {
    hide Same, Valid, With, Omit, Lookup;
    FieldNames();
    var d := DerivationOf(v);
    var at := Lookup(d, DERIVED_AT);
    MemberValid(d, DERIVED_AT);
    WithContent(d, DERIVED_AT, at);
    assert Content(d)[DERIVED_AT := at] == Content(d);
    ObjectsAlike(With(d, DERIVED_AT, at), d);
    SameEquivalence(Obj(d), Obj(d), Obj(d));
    ContentReflexive(d);
    ContentReflexive(v.members);
    WithContent(v.members, DERIVATION, Obj(With(d, DERIVED_AT, at)));
    assert Content(v.members)[DERIVATION] == Obj(d);
    ObjectsAlike(With(v.members, DERIVATION, Obj(With(d, DERIVED_AT, at))), v.members);
  }

  lemma MemberValid(ms: Members, key: JsString)
    requires Valid(Obj(ms)) && key in Keys(ms)
    ensures Valid(Lookup(ms, key)) && WellFormed(key)
  {
    hide Lookup;
    var i :| 0 <= i < |ms| && ms[i] == (key, Lookup(ms, key));
  }

  lemma ContentReflexive(ms: Members)
    requires Valid(Obj(ms))
    ensures forall k :: k in Content(ms) ==> Same(Content(ms)[k], Content(ms)[k])
  {
    hide Lookup;
    forall k | k in Content(ms) ensures Same(Content(ms)[k], Content(ms)[k]) {
      MemberValid(ms, k);
      SameEquivalence(Lookup(ms, k), Lookup(ms, k), Lookup(ms, k));
    }
  }

  // --- the report of differences -------------------------------------------------------

  datatype Difference = Difference(field: JsString, first: JsString, second: JsString)

  datatype Comparison = Comparison(identical: bool, sameEvidenceId: bool, samePayload: bool, differences: seq<Difference>)

  function Depth(v: Json): nat {
    if v.Obj? then 1 + Deepest(v, v.members) else 0
  }

  function Deepest(v: Json, members: Members): nat
    requires forall i :: 0 <= i < |members| ==> members[i].1 < v
    decreases v, 0, |members|
  {
    if members == [] then 0
    else
      var d, rest := Depth(members[0].1), Deepest(v, members[1..]);
      if d > rest then d else rest
  }

  lemma {:induction false} MemberShallower(v: Json, members: Members, i: nat)
    requires forall j :: 0 <= j < |members| ==> members[j].1 < v
    requires i < |members|
    ensures Depth(members[i].1) <= Deepest(v, members)
  {
    if i > 0 { MemberShallower(v, members[1..], i - 1); }
  }

  /** `record[key] ?? null`. */
  function Get(v: Json, key: JsString): (r: Json)
    requires v.Obj? && Valid(v)
    ensures Valid(r) && Depth(r) < Depth(v)
  {
    if key in Keys(v.members) then
      var r := Lookup(v.members, key);
      assert Valid(r) && Depth(r) < Depth(v) by {
        var i :| 0 <= i < |v.members| && v.members[i] == (key, r);
        MemberShallower(v, v.members, i);
      }
      r
    else Null
  }

  function AllKeys(first: Json, second: Json): (ks: seq<JsString>)
    requires first.Obj? && second.Obj?
    ensures Elements(ks) == Elements(Keys(first.members)) + Elements(Keys(second.members))
  {
    var ks := Keys(first.members) + Keys(second.members);
    SameElements(Unique(ks), Sort(Before16, Unique(ks)));
    Sort(Before16, Unique(ks))
  }

  const DOT: JsString := Ascii(".")
  const ROOT: JsString := Ascii("$")

  function Child(path: JsString, key: JsString): JsString { if path == [] then key else path + DOT + key }

  function Differences(first: Json, second: Json, path: JsString): seq<Difference>
    requires Valid(first) && Valid(second)
    decreases Depth(first), 1, 0
  {
    if first.Obj? && second.Obj? then DifferencesAt(first, second, AllKeys(first, second), path)
    else if Serialize(first) == Serialize(second) then []
    else [Difference(if path == [] then ROOT else path, Serialize(first), Serialize(second))]
  }

  function DifferencesAt(first: Json, second: Json, keys: seq<JsString>, path: JsString): seq<Difference>
    requires first.Obj? && second.Obj? && Valid(first) && Valid(second)
    decreases Depth(first), 0, |keys|
  {
    if keys == [] then []
    else Differences(Get(first, keys[0]), Get(second, keys[0]), Child(path, keys[0])) + DifferencesAt(first, second, keys[1..], path)
  }

  lemma GetShallower(first: Json, second: Json, key: JsString)
    requires first.Obj? && second.Obj? && Valid(first) && Valid(second)
    ensures Depth(Get(first, key)) < Depth(first) && Valid(Get(first, key)) && Valid(Get(second, key))
  {
  }

  lemma DifferencesStep(first: Json, second: Json, keys: seq<JsString>, i: nat, path: JsString)
    requires first.Obj? && second.Obj? && Valid(first) && Valid(second) && i <= |keys|
    ensures DifferencesAt(first, second, keys[i..], path) ==
            if i == |keys| then []
            else Differences(Get(first, keys[i]), Get(second, keys[i]), Child(path, keys[i])) + DifferencesAt(first, second, keys[i + 1..], path)
    ensures keys[0..] == keys
  {
    hide Differences, Get, Child, Valid;
    if i < |keys| { assert keys[i..][1..] == keys[i + 1..]; }
  }

  /** Pushes what differs onto `before`, member by member. */
  method CollectDifferences(first: Json, second: Json, path: JsString, before: seq<Difference>) returns (into: seq<Difference>)
    requires Valid(first) && Valid(second)
    ensures into == before + Differences(first, second, path)
    decreases Depth(first)
  {
    hide Serialize, Depth, Valid, DifferencesAt, Get, AllKeys, Child;
    into := before;
    if first.Obj? && second.Obj? {
      var keys := AllKeys(first, second);
      for i := 0 to |keys|
        invariant into + DifferencesAt(first, second, keys[i..], path) == before + DifferencesAt(first, second, keys, path)
      {
        DifferencesStep(first, second, keys, i, path);
        GetShallower(first, second, keys[i]);
        into := CollectDifferences(Get(first, keys[i]), Get(second, keys[i]), Child(path, keys[i]), into);
      }
      DifferencesStep(first, second, keys, |keys|, path);
      return;
    }
    if Serialize(first) != Serialize(second) {
      into := into + [Difference(if path == [] then ROOT else path, Serialize(first), Serialize(second))];
    }
  }

  /** Drops null members, at every level of nested objects. */
  function Compact(v: Json): (r: Json)
    ensures r.Obj? <==> v.Obj?
    ensures !v.Obj? ==> r == v
  {
    if v.Obj? then Obj(CompactMembers(v, v.members)) else v
  }

  function CompactMembers(v: Json, members: Members): Members
    requires forall i :: 0 <= i < |members| ==> members[i].1 < v
    decreases v, 0, |members|
  {
    if members == [] then []
    else if members[0].1.Null? then CompactMembers(v, members[1..])
    else [(members[0].0, Compact(members[0].1))] + CompactMembers(v, members[1..])
  }

  lemma {:induction false} CompactKeepsFrom(v: Json, ms: Members)
    requires forall i :: 0 <= i < |ms| ==> ms[i].1 < v
    ensures forall m :: m in CompactMembers(v, ms) ==> exists i :: 0 <= i < |ms| && !ms[i].1.Null? && m == (ms[i].0, Compact(ms[i].1))
    ensures forall i :: 0 <= i < |ms| && !ms[i].1.Null? ==> (ms[i].0, Compact(ms[i].1)) in CompactMembers(v, ms)
  {
    hide Compact;
    if ms != [] {
      var rest := ms[1..];
      CompactKeepsFrom(v, rest);
      forall m | m in CompactMembers(v, ms) ensures exists i :: 0 <= i < |ms| && !ms[i].1.Null? && m == (ms[i].0, Compact(ms[i].1)) {
        if m in CompactMembers(v, rest) {
          var i :| 0 <= i < |rest| && !rest[i].1.Null? && m == (rest[i].0, Compact(rest[i].1));
          assert ms[i + 1] == rest[i];
        }
      }
      forall i | 0 <= i < |ms| && !ms[i].1.Null? ensures (ms[i].0, Compact(ms[i].1)) in CompactMembers(v, ms) {
        if i > 0 { assert ms[i] == rest[i - 1]; }
      }
    }
  }

  lemma {:induction false} CompactDistinct(v: Json, ms: Members)
    requires forall i :: 0 <= i < |ms| ==> ms[i].1 < v
    requires NoDuplicates(Keys(ms))
    ensures NoDuplicates(Keys(CompactMembers(v, ms)))
  {
    hide Compact;
    if ms != [] {
      var rest := ms[1..];
      assert Keys(rest) == Keys(ms)[1..];
      CompactDistinct(v, rest);
      CompactKeepsFrom(v, rest);
      var cs := CompactMembers(v, rest);
      forall i | 0 <= i < |cs| ensures cs[i].0 != ms[0].0 {
        assert cs[i] in cs;
        var j :| 0 <= j < |rest| && !rest[j].1.Null? && cs[i] == (rest[j].0, Compact(rest[j].1));
        assert Keys(ms)[j + 1] == rest[j].0 && Keys(ms)[0] == ms[0].0;
      }
      if !ms[0].1.Null? { assert Keys(CompactMembers(v, ms)) == [ms[0].0] + Keys(cs); }
    }
  }

  lemma {:induction false} CompactValid(v: Json)
    requires Valid(v)
    ensures Valid(Compact(v))
    decreases v
  {
    if v.Obj? {
      CompactDistinct(v, v.members);
      CompactKeepsFrom(v, v.members);
      var cs := CompactMembers(v, v.members);
      forall k | 0 <= k < |cs| ensures WellFormed(cs[k].0) && Valid(cs[k].1) {
        assert cs[k] in cs;
        var i :| 0 <= i < |v.members| && !v.members[i].1.Null? && cs[k] == (v.members[i].0, Compact(v.members[i].1));
        CompactValid(v.members[i].1);
      }
    }
  }

  /** A compacted object holds the members that are not null, compacted. */
  lemma CompactContent(v: Json)
    requires v.Obj? && Valid(v)
    ensures Valid(Compact(v))
    ensures forall k :: k in Content(Compact(v).members) <==> !Get(v, k).Null?
    ensures forall k :: k in Content(Compact(v).members) ==> Content(Compact(v).members)[k] == Compact(Get(v, k))
  {
    hide Lookup, Depth;
    CompactValid(v);
    CompactKeepsFrom(v, v.members);
    var ms, cs := v.members, Compact(v).members;
    forall k | !Get(v, k).Null? ensures k in Content(cs) {
      var i :| 0 <= i < |ms| && ms[i] == (k, Lookup(ms, k));
      var j :| 0 <= j < |cs| && cs[j] == (ms[i].0, Compact(ms[i].1));
      ContentAt(cs, j);
    }
    forall k | k in Content(cs) ensures !Get(v, k).Null? && Content(cs)[k] == Compact(Get(v, k)) {
      var j :| 0 <= j < |cs| && cs[j] == (k, Lookup(cs, k));
      assert cs[j] in cs;
      var i :| 0 <= i < |ms| && !ms[i].1.Null? && cs[j] == (ms[i].0, Compact(ms[i].1));
      LookupOwn(ms, i);
    }
  }

  lemma CompactAlike(a: Json, b: Json)
    requires a.Obj? && b.Obj? && Valid(a) && Valid(b)
    ensures Valid(Compact(a)) && Valid(Compact(b))
    ensures Same(Compact(a), Compact(b)) <==>
            forall k :: k in AllKeys(a, b) ==> Same(Compact(Get(a, k)), Compact(Get(b, k)))
  {
    hide Same, Valid, Depth, Lookup, Content, Get;
    CompactContent(a);
    CompactContent(b);
    ObjectsAlike(Compact(a).members, Compact(b).members);
    var m, n := Content(Compact(a).members), Content(Compact(b).members);
    CompactNulls(a, b);
    if forall k :: k in AllKeys(a, b) ==> Same(Compact(Get(a, k)), Compact(Get(b, k))) {
      forall k ensures k in m <==> k in n {
        AbsentIsNull(a, b, k);
        NullAlone(Get(a, k), Get(b, k));
      }
    }
  }

  lemma CompactNulls(a: Json, b: Json)
    requires a.Obj? && b.Obj? && Valid(a) && Valid(b)
    ensures forall k :: k !in AllKeys(a, b) ==> Get(a, k).Null? && Get(b, k).Null?
    ensures forall k :: Get(a, k).Null? && Get(b, k).Null? ==> Same(Compact(Get(a, k)), Compact(Get(b, k)))
  {
    forall k | k !in AllKeys(a, b) ensures Get(a, k).Null? && Get(b, k).Null? {
      assert k !in Elements(AllKeys(a, b));
    }
  }

  lemma {:induction false} AbsentIsNull(a: Json, b: Json, k: JsString)
    requires a.Obj? && b.Obj? && Valid(a) && Valid(b)
    requires k !in AllKeys(a, b) || Same(Compact(Get(a, k)), Compact(Get(b, k)))
    ensures Same(Compact(Get(a, k)), Compact(Get(b, k)))
  {
    CompactNulls(a, b);
  }

  lemma NullAlone(x: Json, y: Json)
    requires Same(Compact(x), Compact(y))
    ensures x.Null? <==> y.Null?
  {
  }

  /** Nothing is reported exactly when the two agree once null members are dropped. */
  lemma {:induction false} DifferencesExact(a: Json, b: Json, path: JsString)
    requires Valid(a) && Valid(b)
    ensures Differences(a, b, path) == [] <==> Same(Compact(a), Compact(b))
    decreases Depth(a), 1, 0
  {
    hide Same, Serialize, Compact, Get;
    if a.Obj? && b.Obj? {
      DifferencesAtExact(a, b, AllKeys(a, b), path);
      CompactAlike(a, b);
    } else {
      CanonicalIdentity(a, b);
      DifferentKinds(a, b);
    }
  }

  lemma DifferentKinds(a: Json, b: Json)
    requires !a.Obj? || !b.Obj?
    ensures Same(Compact(a), Compact(b)) <==> Same(a, b)
  {
  }

  lemma {:induction false} DifferencesAtExact(a: Json, b: Json, keys: seq<JsString>, path: JsString)
    requires a.Obj? && b.Obj? && Valid(a) && Valid(b)
    ensures DifferencesAt(a, b, keys, path) == [] <==> forall k :: k in keys ==> Same(Compact(Get(a, k)), Compact(Get(b, k)))
    decreases Depth(a), 0, |keys|
  {
    hide Same, Differences, Compact, Valid, Depth, Get, Child;
    if keys != [] {
      GetShallower(a, b, keys[0]);
      DifferencesExact(Get(a, keys[0]), Get(b, keys[0]), Child(path, keys[0]));
      DifferencesAtExact(a, b, keys[1..], path);
      assert keys == [keys[0]] + keys[1..];
    }
  }

  // --- what a reported difference says ---------------------------------------------------------

  /** What stands under these keys, one inside the other; null where nothing does. */
  function Under(v: Json, keys: seq<JsString>): (r: Json)
    requires Valid(v)
    ensures Valid(r)
    decreases |keys|
  {
    if keys == [] then v else if v.Obj? then Under(Get(v, keys[0]), keys[1..]) else Null
  }

  /** Members of one of the two all the way, and not two objects at the end. */
  ghost predicate Leads(first: Json, second: Json, keys: seq<JsString>)
    requires Valid(first) && Valid(second)
    decreases |keys|
  {
    if keys == [] then !(first.Obj? && second.Obj?)
    else
      && first.Obj? && second.Obj?
      && (keys[0] in Keys(first.members) || keys[0] in Keys(second.members))
      && Leads(Get(first, keys[0]), Get(second, keys[0]), keys[1..])
  }

  /** The keys with dots between them, after what came before. */
  function Dotted(path: JsString, keys: seq<JsString>): JsString
    decreases |keys|
  {
    if keys == [] then path
    else Dotted(if path == [] then keys[0] else path + [0x2E] + keys[0], keys[1..])
  }

  /** The two values under these keys differ, and this is how that is written down. */
  ghost predicate Writes(d: Difference, first: Json, second: Json, path: JsString, keys: seq<JsString>)
    requires Valid(first) && Valid(second)
  {
    && Leads(first, second, keys)
    && !Same(Under(first, keys), Under(second, keys))
    && d.first == Serialize(Under(first, keys)) && d.second == Serialize(Under(second, keys))
    && d.field == if Dotted(path, keys) == [] then [0x24] else Dotted(path, keys)
  }

  lemma ChildIsDotted(path: JsString, key: JsString, keys: seq<JsString>)
    ensures Dotted(path, [key] + keys) == Dotted(Child(path, key), keys)
  {
    assert ([key] + keys)[1..] == keys;
    assert DOT == [0x2E];
  }

  lemma WritesBelow(d: Difference, first: Json, second: Json, path: JsString, key: JsString, keys: seq<JsString>)
    requires Valid(first) && Valid(second) && first.Obj? && second.Obj?
    requires key in Keys(first.members) || key in Keys(second.members)
    ensures Writes(d, first, second, path, [key] + keys) <==> Writes(d, Get(first, key), Get(second, key), Child(path, key), keys)
  {
    hide Same, Serialize, Get, Valid, Dotted, Child;
    ChildIsDotted(path, key, keys);
    assert ([key] + keys)[0] == key && ([key] + keys)[1..] == keys;
  }

  lemma WritesHere(d: Difference, first: Json, second: Json, path: JsString)
    requires Valid(first) && Valid(second) && !(first.Obj? && second.Obj?)
    ensures Writes(d, first, second, path, []) <==>
            !Same(first, second) && d == Difference(if path == [] then [0x24] else path, Serialize(first), Serialize(second))
  {
    hide Same, Serialize;
  }

  lemma LeafDifference(d: Difference, first: Json, second: Json, path: JsString)
    requires Valid(first) && Valid(second) && !(first.Obj? && second.Obj?)
    ensures d in Differences(first, second, path) <==> Writes(d, first, second, path, [])
    ensures forall keys :: keys != [] ==> !Writes(d, first, second, path, keys)
  {
    hide Same, Serialize, Valid;
    WritesHere(d, first, second, path);
    CanonicalIdentity(first, second);
    assert ROOT == [0x24];
  }

  /**
   * The report lists exactly the places where the two values part, each named by its
   * path and with the canonical text of both sides.
   */
  lemma {:induction false} DifferencesTell(d: Difference, first: Json, second: Json, path: JsString)
    requires Valid(first) && Valid(second)
    ensures d in Differences(first, second, path) <==> exists keys :: Writes(d, first, second, path, keys)
    decreases Depth(first), 1, 0
  {
    hide Same, Serialize, Valid, Writes, DifferencesAt, AllKeys, Depth;
    if first.Obj? && second.Obj? {
      var ks := AllKeys(first, second);
      DifferencesAtTell(d, first, second, ks, path);
      if exists keys :: Writes(d, first, second, path, keys) {
        var keys :| Writes(d, first, second, path, keys);
        WritesInside(d, first, second, path, keys);
        assert keys[0] in Elements(ks);
        assert keys == [keys[0]] + keys[1..];
        WritesBelow(d, first, second, path, keys[0], keys[1..]);
      }
      if d in Differences(first, second, path) {
        var k, rest :| k in ks && Writes(d, Get(first, k), Get(second, k), Child(path, k), rest);
        assert k in Elements(ks);
        WritesBelow(d, first, second, path, k, rest);
      }
    } else {
      LeafDifference(d, first, second, path);
    }
  }

  lemma WritesInside(d: Difference, first: Json, second: Json, path: JsString, keys: seq<JsString>)
    requires Valid(first) && Valid(second) && first.Obj? && second.Obj? && Writes(d, first, second, path, keys)
    ensures keys != [] && (keys[0] in Keys(first.members) || keys[0] in Keys(second.members))
  {
    hide Same, Serialize;
  }

  lemma {:induction false} DifferencesAtTell(d: Difference, first: Json, second: Json, ks: seq<JsString>, path: JsString)
    requires Valid(first) && Valid(second) && first.Obj? && second.Obj?
    ensures d in DifferencesAt(first, second, ks, path) <==>
            exists k, rest :: k in ks && Writes(d, Get(first, k), Get(second, k), Child(path, k), rest)
    decreases Depth(first), 0, |ks|
  {
    hide Same, Serialize, Valid, Writes, Differences, Depth, Get, Child;
    if ks != [] {
      var k, more := ks[0], ks[1..];
      GetShallower(first, second, k);
      DifferencesTell(d, Get(first, k), Get(second, k), Child(path, k));
      DifferencesAtTell(d, first, second, more, path);
      assert ks == [k] + more;
      if exists rest :: Writes(d, Get(first, k), Get(second, k), Child(path, k), rest) {
        var rest :| Writes(d, Get(first, k), Get(second, k), Child(path, k), rest);
        assert k in ks;
      }
    }
  }

  // --- the comparison --------------------------------------------------------------------

  function IdDifference(first: Json, second: Json): seq<Difference>
    requires IsEvidence(first) && IsEvidence(second)
  {
    if EvidenceIdOf(first) == EvidenceIdOf(second) then []
    else [Difference(EVIDENCE_ID, EvidenceIdOf(first), EvidenceIdOf(second))]
  }

  function Compared(first: Json, second: Json): Comparison
    requires IsEvidence(first) && IsEvidence(second)
  {
    var sameId := EvidenceIdOf(first) == EvidenceIdOf(second);
    var a, b := ProjectForReplay(first), ProjectForReplay(second);
    var samePayload := Serialize(a) == Serialize(b);
    Comparison(sameId && samePayload, sameId, samePayload,
               IdDifference(first, second) + if samePayload then [] else Differences(a, b, []))
  }

  method CompareReplay(first: Json, second: Json) returns (r: Comparison)
    requires IsEvidence(first) && IsEvidence(second)
    ensures r == Compared(first, second)
  {
    hide Serialize, Differences, Valid, IsEvidence, ProjectForReplay, EvidenceIdOf;
    var sameEvidenceId := EvidenceIdOf(first) == EvidenceIdOf(second);
    var firstPayload, secondPayload := ProjectForReplay(first), ProjectForReplay(second);
    var samePayload := Serialize(firstPayload) == Serialize(secondPayload);
    var differences: seq<Difference> := [];
    if !sameEvidenceId {
      differences := differences + [Difference(EVIDENCE_ID, EvidenceIdOf(first), EvidenceIdOf(second))];
    }
    if !samePayload {
      differences := CollectDifferences(firstPayload, secondPayload, [], differences);
    }
    r := Comparison(sameEvidenceId && samePayload, sameEvidenceId, samePayload, differences);
  }

  lemma {:induction false} ProjectionKeepsId(v: Json)
    requires IsEvidence(v)
    ensures EVIDENCE_ID in Keys(ProjectForReplay(v).members)
    ensures Lookup(ProjectForReplay(v).members, EVIDENCE_ID) == Str(EvidenceIdOf(v))
  {
    hide Lookup, With, Omit;
    FieldNames();
    var d := Obj(Omit(DerivationOf(v), DERIVED_AT));
    ProjectionValid(v, DerivationOf(v));
    WithContent(v.members, DERIVATION, d);
    assert EVIDENCE_ID in Content(v.members)[DERIVATION := d];
    assert EVIDENCE_ID in Content(With(v.members, DERIVATION, d));
  }

  /** The two ids differ, and this is how that is written down. */
  ghost predicate WritesIds(d: Difference, first: Json, second: Json)
    requires IsEvidence(first) && IsEvidence(second)
  {
    var x, y := Lookup(first.members, EVIDENCE_ID), Lookup(second.members, EVIDENCE_ID);
    x != y && x == Str(d.first) && y == Str(d.second) && d.field == EVIDENCE_ID
  }

  /** Some place where the records part once the derivation time is left out. */
  ghost predicate WritesPayload(d: Difference, first: Json, second: Json)
    requires IsEvidence(first) && IsEvidence(second)
  {
    exists keys :: Writes(d, ProjectForReplay(first), ProjectForReplay(second), [], keys)
  }

  /**
   * The whole report: whether the two ids agree, and exactly which differences are
   * listed: the ids under their own name if they differ, and every place where the two
   * records part once the derivation time is left out.
   */
  lemma {:induction false} ReportTells(first: Json, second: Json, d: Difference)
    requires IsEvidence(first) && IsEvidence(second)
    ensures Compared(first, second).sameEvidenceId <==> Lookup(first.members, EVIDENCE_ID) == Lookup(second.members, EVIDENCE_ID)
    ensures d in Compared(first, second).differences <==> WritesIds(d, first, second) || WritesPayload(d, first, second)
  {
    hide ProjectForReplay, Serialize, Differences, Writes, Lookup, Valid, Same;
    var a, b := ProjectForReplay(first), ProjectForReplay(second);
    DifferencesTell(d, a, b, []);
    if Serialize(a) == Serialize(b) {
      CanonicalIdentity(a, b);
      forall keys ensures !Writes(d, a, b, [], keys) { SameNeverWrites(d, a, b, [], keys); }
    }
  }

  lemma {:induction false} SameNeverWrites(d: Difference, a: Json, b: Json, path: JsString, keys: seq<JsString>)
    requires Valid(a) && Valid(b) && Same(a, b)
    ensures !Writes(d, a, b, path, keys)
    decreases |keys|
  {
    hide Same, Serialize, Valid, Writes, Get;
    if keys == [] || !a.Obj? || !b.Obj? {
      NothingToWrite(d, a, b, path, keys);
    } else if keys[0] in Keys(a.members) || keys[0] in Keys(b.members) {
      assert keys == [keys[0]] + keys[1..];
      WritesBelow(d, a, b, path, keys[0], keys[1..]);
      SameGet(a, b, keys[0]);
      SameNeverWrites(d, Get(a, keys[0]), Get(b, keys[0]), Child(path, keys[0]), keys[1..]);
    } else {
      NothingToWrite(d, a, b, path, keys);
    }
  }

  lemma NothingToWrite(d: Difference, a: Json, b: Json, path: JsString, keys: seq<JsString>)
    requires Valid(a) && Valid(b) && Same(a, b)
    requires keys == [] || !a.Obj? || !b.Obj? || (keys[0] !in Keys(a.members) && keys[0] !in Keys(b.members))
    ensures !Writes(d, a, b, path, keys)
  {
    hide Same, Serialize, Valid;
  }

  lemma SameGet(a: Json, b: Json, key: JsString)
    requires Valid(a) && Valid(b) && a.Obj? && b.Obj? && Same(a, b)
    ensures Same(Get(a, key), Get(b, key))
  {
    hide Lookup, Valid, Depth;
    if key in Keys(a.members) {
      SameAtKey(a, b, key);
    } else {
      SameEquivalence(a, b, a);
      if key in Keys(b.members) { SameAtKey(b, a, key); }
    }
  }

  /** The payload includes the id, so equal payloads leave nothing else to differ. */
  lemma {:induction false} PayloadDecidesId(first: Json, second: Json)
    requires IsEvidence(first) && IsEvidence(second)
    ensures Compared(first, second).samePayload <==> Same(ProjectForReplay(first), ProjectForReplay(second))
    ensures Compared(first, second).samePayload ==> Compared(first, second).identical
  {
    hide ProjectForReplay, Lookup, Serialize;
    var a, b := ProjectForReplay(first), ProjectForReplay(second);
    CanonicalIdentity(a, b);
    ProjectionKeepsId(first);
    ProjectionKeepsId(second);
    if Same(a, b) { SameAtKey(a, b, EVIDENCE_ID); }
  }

  /**
   * Two records replay identically exactly when they would be the same JSON value had
   * they been derived at the same moment: one field is ignored and no other.
   */
  lemma {:induction false} ReplayExact(first: Json, second: Json, instant: Json)
    requires IsEvidence(first) && IsEvidence(second) && Valid(instant)
    ensures Compared(first, second).identical <==> Same(Restamped(first, instant), Restamped(second, instant))
  {
    hide Same, Valid, With, Omit, Lookup, Compared;
    FieldNames();
    PayloadDecidesId(first, second);
    IdenticalIncludesPayload(first, second);
    var d, e := DerivationOf(first), DerivationOf(second);
    WithSame(d, e, DERIVED_AT, instant, instant);
    SameEquivalence(instant, instant, instant);
    WithSame(first.members, second.members, DERIVATION, Obj(Omit(d, DERIVED_AT)), Obj(Omit(e, DERIVED_AT)));
    WithSame(first.members, second.members, DERIVATION, Obj(With(d, DERIVED_AT, instant)), Obj(With(e, DERIVED_AT, instant)));
  }

  lemma {:induction false} IdenticalIncludesPayload(first: Json, second: Json)
    requires IsEvidence(first) && IsEvidence(second)
    ensures Compared(first, second).identical ==> Compared(first, second).samePayload
  {
  }

  // --- when the report is empty --------------------------------------------------------------

  /** The same fields at every level, as a closed schema requires. */
  ghost predicate SameShape(a: Json, b: Json)
    requires Valid(a) && Valid(b)
    decreases Depth(a)
  {
    a.Obj? && b.Obj? ==>
      && Elements(Keys(a.members)) == Elements(Keys(b.members))
      && forall k :: k in AllKeys(a, b) ==> SameShape(Get(a, k), Get(b, k))
  }

  lemma GetIsContent(a: Json, b: Json)
    requires a.Obj? && b.Obj? && Valid(a) && Valid(b) && Elements(Keys(a.members)) == Elements(Keys(b.members))
    ensures Same(a, b) <==> forall k :: k in AllKeys(a, b) ==> Same(Get(a, k), Get(b, k))
  {
    hide Same, Lookup, Depth, Valid;
    ObjectsAlike(a.members, b.members);
    ContentKeys(a.members);
    ContentKeys(b.members);
    var m, n := Content(a.members), Content(b.members);
    forall k ensures k in m <==> k in AllKeys(a, b) {
      assert k in AllKeys(a, b) <==> k in Elements(AllKeys(a, b));
    }
    forall k | k in m ensures m[k] == Get(a, k) && n[k] == Get(b, k) {
      assert k in Elements(Keys(b.members));
    }
  }

  lemma {:induction false} ShapesCompact(a: Json, b: Json)
    requires Valid(a) && Valid(b) && SameShape(a, b)
    ensures Same(Compact(a), Compact(b)) <==> Same(a, b)
    decreases Depth(a)
  {
    hide Same, Compact, Get, Depth, AllKeys;
    if a.Obj? && b.Obj? {
      CompactAlike(a, b);
      GetIsContent(a, b);
      forall k | k in AllKeys(a, b) ensures Same(Compact(Get(a, k)), Compact(Get(b, k))) <==> Same(Get(a, k), Get(b, k)) {
        ShapesCompact(Get(a, k), Get(b, k));
      }
    } else {
      DifferentKinds(a, b);
    }
  }

  /**
   * The list of differences is empty exactly when the payloads agree once null members
   * are dropped. Between records with the same fields, that is when they are identical.
   */
  lemma {:induction false} ReportExact(first: Json, second: Json)
    requires IsEvidence(first) && IsEvidence(second)
    ensures var r := Compared(first, second);
            var a, b := ProjectForReplay(first), ProjectForReplay(second);
            && (r.differences == [] <==> Same(Compact(a), Compact(b)))
            && (r.identical ==> r.differences == [])
            && (SameShape(a, b) ==> (r.identical <==> r.differences == []))
  {
    hide ProjectForReplay, SameShape, Same, Compact, Valid, IsEvidence, Compared, EvidenceIdOf;
    var a, b := ProjectForReplay(first), ProjectForReplay(second);
    PayloadDecidesId(first, second);
    ReportParts(first, second);
    if Same(a, b) { SameCompacts(a, b); }
    if SameShape(a, b) { ShapesCompact(a, b); }
    if Same(Compact(a), Compact(b)) { CompactKeepsId(first, second); }
  }

  lemma {:induction false} ReportParts(first: Json, second: Json)
    requires IsEvidence(first) && IsEvidence(second)
    ensures var r := Compared(first, second);
            && (r.identical ==> r.samePayload)
            && (r.samePayload ==> r.identical)
            && (r.differences == [] <==>
                (EvidenceIdOf(first) == EvidenceIdOf(second)
                 && (r.samePayload || Same(Compact(ProjectForReplay(first)), Compact(ProjectForReplay(second))))))
  {
    hide ProjectForReplay, Serialize, Differences, EvidenceIdOf, Same, Compact, Valid, IsEvidence;
    PayloadDecidesId(first, second);
    DifferencesExact(ProjectForReplay(first), ProjectForReplay(second), []);
  }

  lemma {:induction false} SameCompacts(a: Json, b: Json)
    requires Valid(a) && Valid(b) && Same(a, b)
    ensures Same(Compact(a), Compact(b))
    decreases Depth(a)
  {
    hide Compact, Depth, Get;
    if a.Obj? {
      CompactAlike(a, b);
      GetIsContent(a, b);
      forall k | k in AllKeys(a, b) ensures Same(Compact(Get(a, k)), Compact(Get(b, k))) {
        GetShallower(a, b, k);
        SameCompacts(Get(a, k), Get(b, k));
      }
    } else {
      DifferentKinds(a, b);
    }
  }

  lemma {:induction false} CompactKeepsId(first: Json, second: Json)
    requires IsEvidence(first) && IsEvidence(second)
    requires Same(Compact(ProjectForReplay(first)), Compact(ProjectForReplay(second)))
    ensures EvidenceIdOf(first) == EvidenceIdOf(second)
  {
    hide ProjectForReplay, Compact, AllKeys;
    var a, b := ProjectForReplay(first), ProjectForReplay(second);
    ProjectionKeepsId(first);
    ProjectionKeepsId(second);
    CompactAlike(a, b);
    assert EVIDENCE_ID in Elements(AllKeys(a, b));
    StringsAlone(Get(a, EVIDENCE_ID), Get(b, EVIDENCE_ID));
  }

  lemma StringsAlone(x: Json, y: Json)
    requires x.Str? && y.Str? && Same(Compact(x), Compact(y))
    ensures x == y
  {
  }

  /** The gap: a member that is null on one side and absent on the other differs unreported. */
  lemma {:induction false} NullMemberUnreported(v: Json, key: JsString)
    requires IsEvidence(v) && WellFormed(key) && key !in Keys(v.members)
    ensures var w := Obj(With(v.members, key, Null));
            IsEvidence(w) && !Compared(v, w).identical && Compared(v, w).differences == []
  {
    hide Lookup, With, Omit, Compared, ProjectForReplay;
    var w := Obj(With(v.members, key, Null));
    NullMemberAdded(v, key);
    var a, b := ProjectForReplay(v), ProjectForReplay(w);
    PayloadDecidesId(v, w);
    IdenticalIncludesPayload(v, w);
    ReportExact(v, w);
    ObjectsAlike(a.members, b.members);
    assert key in Content(b.members) && key !in Content(a.members);
    CompactAlike(a, b);
    forall k | k in AllKeys(a, b) ensures Same(Compact(Get(a, k)), Compact(Get(b, k))) {
      GetFromContent(a, k);
      GetFromContent(b, k);
      CompactValid(Get(a, k));
      SameEquivalence(Compact(Get(a, k)), Compact(Get(a, k)), Compact(Get(a, k)));
    }
  }

  lemma GetFromContent(v: Json, k: JsString)
    requires v.Obj? && Valid(v)
    ensures Get(v, k) == if k in Content(v.members) then Content(v.members)[k] else Null
  {
  }

  lemma {:induction false} NullMemberKeeps(v: Json, key: JsString)
    requires IsEvidence(v) && WellFormed(key) && key !in Keys(v.members)
    ensures var w := Obj(With(v.members, key, Null));
            && IsEvidence(w)
            && Content(w.members) == Content(v.members)[key := Null]
            && DerivationOf(w) == DerivationOf(v)
            && key != DERIVATION && key !in Content(v.members)
  {
    hide Lookup, With;
    var w := Obj(With(v.members, key, Null));
    WithContent(v.members, key, Null);
    var m := Content(v.members);
    assert EVIDENCE_ID in m && DERIVATION in m;
    assert EVIDENCE_ID in Content(w.members) && DERIVATION in Content(w.members);
    assert Content(w.members)[DERIVATION] == m[DERIVATION] && Content(w.members)[EVIDENCE_ID] == m[EVIDENCE_ID];
  }

  lemma {:induction false} ProjectionContent(v: Json)
    requires IsEvidence(v)
    ensures Content(ProjectForReplay(v).members) == Content(v.members)[DERIVATION := Obj(Omit(DerivationOf(v), DERIVED_AT))]
  {
    hide Lookup, With, Omit, Content;
    FieldNames();
    ProjectionValid(v, DerivationOf(v));
    WithContent(v.members, DERIVATION, Obj(Omit(DerivationOf(v), DERIVED_AT)));
  }

  lemma {:induction false} NullMemberAdded(v: Json, key: JsString)
    requires IsEvidence(v) && WellFormed(key) && key !in Keys(v.members)
    ensures var w := Obj(With(v.members, key, Null));
            && IsEvidence(w)
            && key !in Content(ProjectForReplay(v).members)
            && Content(ProjectForReplay(w).members) == Content(ProjectForReplay(v).members)[key := Null]
  {
    hide With, Omit, ProjectForReplay, DerivationOf, Lookup, Content, Valid;
    NullMemberKeeps(v, key);
    ProjectionContent(v);
    ProjectionContent(Obj(With(v.members, key, Null)));
    var m: map<JsString, Json>, d: Json := Content(v.members), Obj(Omit(DerivationOf(v), DERIVED_AT));
    assert m[key := Null][DERIVATION := d] == m[DERIVATION := d][key := Null];
  }

  // --- input snapshots -------------------------------------------------------------------

  datatype External = External(kind: JsString, id: JsString, value: JsString)

  datatype DerivationInputs = DerivationInputs(sourceEventIds: seq<JsString>, externalInputs: seq<External>)

  datatype Snapshot<+D> = Hash(digest: D) | DuplicateId(at: nat)

  const EXTERNAL_INPUTS: JsString := Ascii("external_inputs")
  const SOURCE_EVENT_IDS: JsString := Ascii("source_event_ids")
  const ID: JsString := Ascii("id")
  const KIND: JsString := Ascii("kind")
  const VALUE: JsString := Ascii("value")

  predicate ExternalBefore(a: External, b: External) {
    (if a.kind == b.kind then Lex(a.id, b.id) else Lex(a.kind, b.kind)) < 0
  }

  function ExternalJson(e: External): Json { Obj([(ID, Str(e.id)), (KIND, Str(e.kind)), (VALUE, Str(e.value))]) }

  function SnapshotJson(inputs: DerivationInputs): Json {
    Obj([(EXTERNAL_INPUTS, Arr(Map(ExternalJson, Sort(ExternalBefore, inputs.externalInputs)))),
         (SOURCE_EVENT_IDS, TextsJson(Sort(Before16, inputs.sourceEventIds)))])
  }

  /** Refuses the first event id that was consumed before. */
  method InputSnapshotHash<D>(sha: seq<Byte> -> D, inputs: DerivationInputs) returns (r: Snapshot<D>)
    requires Valid(SnapshotJson(inputs))
    ensures r.Hash? <==> NoDuplicates(inputs.sourceEventIds)
    ensures r.Hash? ==> r.digest == Sha256Canonical(sha, SnapshotJson(inputs))
    ensures r.DuplicateId? ==> r.at < |inputs.sourceEventIds| && NoDuplicates(inputs.sourceEventIds[..r.at])
                               && inputs.sourceEventIds[r.at] in inputs.sourceEventIds[..r.at]
  {
    hide Valid, SnapshotJson, CanonicalBytes;
    var seen: set<JsString> := {};
    var ids := inputs.sourceEventIds;
    for i := 0 to |ids|
      invariant NoDuplicates(ids[..i]) && seen == Elements(ids[..i])
    {
      if ids[i] in seen { return DuplicateId(i); }
      seen := seen + {ids[i]};
      assert ids[..i + 1] == ids[..i] + [ids[i]];
    }
    assert ids[..|ids|] == ids;
    r := Hash(Sha256Canonical(sha, SnapshotJson(inputs)));
  }

  ghost predicate DistinctExternals(es: seq<External>) {
    forall i, j :: 0 <= i < j < |es| ==> es[i].kind != es[j].kind || es[i].id != es[j].id
  }

  function ExternalKey(e: External): seq<seq<int>> { [e.kind, e.id] }

  lemma ExternalBeforeIsTuple(a: External, b: External)
    ensures ExternalBefore(a, b) <==> LexTuple(ExternalKey(a), ExternalKey(b)) < 0
  {
    LexLaws(a.kind, b.kind);
    var x, y := ExternalKey(a)[1..], ExternalKey(b)[1..];
    assert x == [a.id] && y == [b.id];
    assert x[1..] == [] && y[1..] == [];
    assert LexTuple(x, y) == Lex(a.id, b.id);
  }

  lemma ExternalOrder(s: set<External>)
    ensures WeakOrderOn(ExternalBefore, s)
  {
    hide LexTuple;
    forall x, y | x in s && y in s ensures ExternalBefore(x, y) <==> LexTuple(ExternalKey(x), ExternalKey(y)) < 0 {
      ExternalBeforeIsTuple(x, y);
    }
    KeyOrder(ExternalBefore, ExternalKey, s);
  }

  lemma ExternalsSeparate(es: seq<External>)
    requires DistinctExternals(es)
    ensures SeparatesOn(ExternalBefore, Elements(es))
  {
    forall x, y | x in Elements(es) && y in Elements(es) && x != y ensures ExternalBefore(x, y) || ExternalBefore(y, x) {
      var i :| 0 <= i < |es| && es[i] == x;
      var j :| 0 <= j < |es| && es[j] == y;
      LexLaws(x.kind, y.kind);
      LexLaws(x.id, y.id);
    }
  }

  /** The set consumed is the input, not the order it was read in. */
  lemma {:induction false} SnapshotIgnoresOrder(a: DerivationInputs, b: DerivationInputs)
    requires DistinctExternals(a.externalInputs)
    requires multiset(a.sourceEventIds) == multiset(b.sourceEventIds) && multiset(a.externalInputs) == multiset(b.externalInputs)
    ensures SnapshotJson(a) == SnapshotJson(b)
  {
    hide Sort;
    Before16Order(Elements(a.sourceEventIds));
    SortIgnoresArrival(Before16, a.sourceEventIds, b.sourceEventIds);
    ExternalOrder(Elements(a.externalInputs));
    ExternalsSeparate(a.externalInputs);
    SortIgnoresArrival(ExternalBefore, a.externalInputs, b.externalInputs);
  }

  lemma ExternalJsonSame(a: External, b: External)
    requires Valid(ExternalJson(a)) && Valid(ExternalJson(b)) && Same(ExternalJson(a), ExternalJson(b))
    ensures a == b
  {
    hide Lookup;
    var ms, ns := ExternalJson(a).members, ExternalJson(b).members;
    LookupOwn(ns, 0);
    LookupOwn(ns, 1);
    LookupOwn(ns, 2);
    assert ms[0].0 == ns[0].0 == ID && ms[1].0 == ns[1].0 == KIND && ms[2].0 == ns[2].0 == VALUE;
    assert Same(ms[0].1, Lookup(ns, ID)) && Same(ms[1].1, Lookup(ns, KIND)) && Same(ms[2].1, Lookup(ns, VALUE));
  }

  /** Short of a collision, a snapshot hash names exactly what was consumed. */
  lemma {:induction false} SnapshotIdentifies<D(!new)>(sha: seq<Byte> -> D, a: DerivationInputs, b: DerivationInputs)
    requires Valid(SnapshotJson(a)) && Valid(SnapshotJson(b))
    requires NoCollision(sha, CanonicalBytes(SnapshotJson(a)), CanonicalBytes(SnapshotJson(b)))
    requires Sha256Canonical(sha, SnapshotJson(a)) == Sha256Canonical(sha, SnapshotJson(b))
    ensures multiset(a.sourceEventIds) == multiset(b.sourceEventIds)
    ensures multiset(a.externalInputs) == multiset(b.externalInputs)
  {
    hide Lookup, Sort, ExternalJson;
    DigestIdentity(sha, SnapshotJson(a), SnapshotJson(b));
    SnapshotParts(a, b);
    var es, fs := Sort(ExternalBefore, a.externalInputs), Sort(ExternalBefore, b.externalInputs);
    forall i | 0 <= i < |es| ensures es[i] == fs[i] {
      assert Same(Map(ExternalJson, es)[i], Map(ExternalJson, fs)[i]);
      ExternalJsonSame(es[i], fs[i]);
    }
    assert es == fs;
    var xs, ys := Sort(Before16, a.sourceEventIds), Sort(Before16, b.sourceEventIds);
    TextsSame(xs, ys);
  }

  lemma {:induction false} SnapshotParts(a: DerivationInputs, b: DerivationInputs)
    requires Valid(SnapshotJson(a)) && Valid(SnapshotJson(b)) && Same(SnapshotJson(a), SnapshotJson(b))
    ensures var x, y := Arr(Map(ExternalJson, Sort(ExternalBefore, a.externalInputs))), Arr(Map(ExternalJson, Sort(ExternalBefore, b.externalInputs)));
            Same(x, y) && Valid(x) && Valid(y)
    ensures Same(TextsJson(Sort(Before16, a.sourceEventIds)), TextsJson(Sort(Before16, b.sourceEventIds)))
  {
    hide Lookup, Sort, ExternalJson;
    var ms, ns := SnapshotJson(a).members, SnapshotJson(b).members;
    LookupOwn(ns, 0);
    LookupOwn(ns, 1);
    assert ms[0].0 == ns[0].0 == EXTERNAL_INPUTS && ms[1].0 == ns[1].0 == SOURCE_EVENT_IDS;
    assert Same(ms[0].1, Lookup(ns, EXTERNAL_INPUTS)) && Same(ms[1].1, Lookup(ns, SOURCE_EVENT_IDS));
    assert Valid(ms[0].1) && Valid(ns[0].1);
  }
}
