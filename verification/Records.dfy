/** JSON objects with a fixed list of field names, as a closed schema prescribes. */
module Records {
  import opened Wrappers
  import opened Text
  import opened Sorting
  import opened CanonicalJson

  type Name = s: string | forall i :: 0 <= i < |s| ==> s[i] < 128 as char

  function Fields(names: seq<Name>, values: seq<Json>): (ms: seq<(JsString, Json)>)
    requires |names| == |values|
    ensures |ms| == |names| && forall i :: 0 <= i < |ms| ==> ms[i] == (Ascii(names[i]), values[i])
  {
    seq(|names|, i requires 0 <= i < |names| => (Ascii(names[i]), values[i]))
  }

  ghost predicate DistinctNames(names: seq<Name>) {
    forall i, j :: 0 <= i < j < |names| ==> names[i] != names[j]
  }

  lemma AsciiFaithful(a: Name, b: Name)
    ensures Ascii(a) == Ascii(b) ==> a == b
    ensures WellFormed(Ascii(a))
  {
    BelowSurrogatesWellFormed(Ascii(a));
    if Ascii(a) == Ascii(b) {
      forall i | 0 <= i < |a| ensures a[i] == b[i] { assert Ascii(a)[i] == Ascii(b)[i]; }
    }
  }

  lemma FieldsDistinct(names: seq<Name>, values: seq<Json>)
    requires |names| == |values| && DistinctNames(names)
    ensures NoDuplicates(Keys(Fields(names, values)))
  {
    forall i, j | 0 <= i < j < |names| ensures Ascii(names[i]) != Ascii(names[j]) { AsciiFaithful(names[i], names[j]); }
  }

  lemma FieldsValid(names: seq<Name>, values: seq<Json>)
    requires |names| == |values| && DistinctNames(names)
    ensures Valid(Obj(Fields(names, values))) <==> forall i :: 0 <= i < |values| ==> Valid(values[i])
  {
    hide WellFormed, Ascii;
    FieldsDistinct(names, values);
    var ms := Fields(names, values);
    forall i | 0 <= i < |names| ensures WellFormed(ms[i].0) { AsciiFaithful(names[i], names[i]); }
    assert forall i :: 0 <= i < |names| ==> (Valid(ms[i].1) <==> Valid(values[i]));
  }

  lemma FieldsLookup(names: seq<Name>, values: seq<Json>, i: nat)
    requires |names| == |values| && DistinctNames(names) && i < |names|
    ensures Ascii(names[i]) in Keys(Fields(names, values)) && Lookup(Fields(names, values), Ascii(names[i])) == values[i]
  {
    FieldsDistinct(names, values);
    LookupOwn(Fields(names, values), i);
  }

  /** `v[name]`, when `v` is an object that has it. */
  function FieldOf(v: Json, name: Name): Option<Json> {
    if v.Obj? && Ascii(name) in Keys(v.members) then Some(Lookup(v.members, Ascii(name))) else None
  }

  lemma FieldAt(names: seq<Name>, values: seq<Json>, i: nat)
    requires |names| == |values| && DistinctNames(names) && i < |names|
    ensures FieldOf(Obj(Fields(names, values)), names[i]) == Some(values[i])
  {
    FieldsLookup(names, values, i);
  }

  /** Records over the same names are the same value exactly when their fields are. */
  lemma FieldsSame(names: seq<Name>, values: seq<Json>, other: seq<Json>)
    requires |names| == |values| == |other| && DistinctNames(names)
    ensures Same(Obj(Fields(names, values)), Obj(Fields(names, other))) <==> forall i :: 0 <= i < |names| ==> Same(values[i], other[i])
  {
    hide Lookup;
    var ms, ns := Fields(names, values), Fields(names, other);
    assert Keys(ms) == Keys(ns);
    forall i | 0 <= i < |names| ensures ms[i].0 in Keys(ns) && Lookup(ns, ms[i].0) == other[i] && ms[i].1 == values[i] {
      FieldsLookup(names, other, i);
    }
  }

  function TextJson(s: JsString): Json { Str(s) }

  function TextsJson(ss: seq<JsString>): Json { Arr(Map(TextJson, ss)) }

  predicate AllWellFormed(ss: seq<JsString>) { forall i :: 0 <= i < |ss| ==> WellFormed(ss[i]) }

  lemma TextsValid(ss: seq<JsString>)
    ensures Valid(TextsJson(ss)) <==> AllWellFormed(ss)
  {
    var items := Map(TextJson, ss);
    assert forall i :: 0 <= i < |ss| ==> (Valid(items[i]) <==> WellFormed(ss[i]));
  }

  lemma TextsSame(x: seq<JsString>, y: seq<JsString>)
    requires Same(TextsJson(x), TextsJson(y))
    ensures x == y
  {
    var a, b := Map(TextJson, x), Map(TextJson, y);
    forall i | 0 <= i < |x| ensures x[i] == y[i] { assert Same(a[i], b[i]); }
  }

  lemma StringsSame(x: Json, y: Json)
    requires Same(x, y) && (x.Str? || x.Null? || y.Str? || y.Null?)
    ensures x == y
  {
  }
}
