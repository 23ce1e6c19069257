/**
 * Exactly what an index digest distinguishes: trees that differ in nothing but the order
 * of capabilities and members, and in how lines of a body end, have one digest.
 */
module IndexDigest {
  import opened Wrappers
  import opened Text
  import opened Sorting
  import opened StringOrder
  import opened CanonicalJson
  import opened Sha256
  import opened Records
  import opened Replay
  import BuildIndex

  /** The same record but for the order in which one list of strings was written. */
  ghost predicate SameButOrder(v: Json, w: Json, list: Name) {
    && v.Obj? && w.Obj?
    && multiset(BuildIndex.TextsOf(v, list)) == multiset(BuildIndex.TextsOf(w, list))
    && Same(Obj(Omit(v.members, Ascii(list))), Obj(Omit(w.members, Ascii(list))))
  }

  lemma SameTexts(x: seq<JsString>, y: seq<JsString>)
    requires AllWellFormed(x) && AllWellFormed(y)
    ensures Same(TextsJson(x), TextsJson(y)) <==> x == y
  {
    hide Same, WellFormed;
    TextsValid(x);
    if Same(TextsJson(x), TextsJson(y)) { TextsSame(x, y); }
    SameEquivalence(TextsJson(x), TextsJson(x), TextsJson(x));
  }

  lemma SortedAlike(x: seq<JsString>, y: seq<JsString>)
    ensures Sort(Before16, x) == Sort(Before16, y) <==> multiset(x) == multiset(y)
  {
    hide Sort, Before16;
    Before16Order(Elements(x));
    if multiset(x) == multiset(y) { SortIgnoresArrival(Before16, x, y); }
  }

  lemma SortedTextsGood(v: Json, list: Name)
    requires BuildIndex.HasTexts(v, list)
    ensures AllWellFormed(BuildIndex.SortedTexts(v, list)) && Valid(TextsJson(BuildIndex.SortedTexts(v, list)))
    ensures v.Obj? && Valid(v) && WellFormed(Ascii(list))
  {
    hide WellFormed, Sort;
    BuildIndex.SortedTextsValid(v, list);
    TextsValid(BuildIndex.SortedTexts(v, list));
    AsciiFaithful(list, list);
  }

  lemma {:induction false} SortedExactly(v: Json, w: Json, list: Name)
    requires BuildIndex.HasTexts(v, list) && BuildIndex.HasTexts(w, list)
    ensures Same(BuildIndex.WithSorted(v, list), BuildIndex.WithSorted(w, list)) <==> SameButOrder(v, w, list)
  {
    hide Same, Valid, With, Omit, Sort, TextsJson, BuildIndex.HasTexts, BuildIndex.TextsOf, WellFormed, AllWellFormed;
    SortedTextsGood(v, list);
    SortedTextsGood(w, list);
    var x, y := BuildIndex.SortedTexts(v, list), BuildIndex.SortedTexts(w, list);
    WithSame(v.members, w.members, Ascii(list), TextsJson(x), TextsJson(y));
    SameTexts(x, y);
    SortedAlike(BuildIndex.TextsOf(v, list), BuildIndex.TextsOf(w, list));
  }

  /** The same asset but for the order of its problem's capabilities. */
  ghost predicate SameAsset(v: Json, w: Json) {
    && v.Obj? && w.Obj?
    && Same(Obj(Omit(v.members, Ascii(BuildIndex.PROBLEM))), Obj(Omit(w.members, Ascii(BuildIndex.PROBLEM))))
    && SameButOrder(BuildIndex.PartOf(v, BuildIndex.PROBLEM), BuildIndex.PartOf(w, BuildIndex.PROBLEM), BuildIndex.CAPABILITIES)
  }

  lemma {:induction false} NormalizedExactly(v: Json, w: Json)
    requires BuildIndex.IsAsset(v) && BuildIndex.IsAsset(w)
    ensures Same(BuildIndex.NormalizedAsset(v), BuildIndex.NormalizedAsset(w)) <==> SameAsset(v, w)
  {
    hide Same, Valid, With, Omit, BuildIndex.WithSorted, BuildIndex.PartOf, BuildIndex.HasTexts, WellFormed, SameButOrder;
    var p, q := BuildIndex.PartOf(v, BuildIndex.PROBLEM), BuildIndex.PartOf(w, BuildIndex.PROBLEM);
    BuildIndex.WithSortedValid(p, BuildIndex.CAPABILITIES);
    BuildIndex.WithSortedValid(q, BuildIndex.CAPABILITIES);
    AsciiFaithful(BuildIndex.PROBLEM, BuildIndex.PROBLEM);
    WithSame(v.members, w.members, Ascii(BuildIndex.PROBLEM), BuildIndex.WithSorted(p, BuildIndex.CAPABILITIES), BuildIndex.WithSorted(q, BuildIndex.CAPABILITIES));
    SortedExactly(p, q, BuildIndex.CAPABILITIES);
  }

  // --- bodies -----------------------------------------------------------------------------------

  /** The bytes of a body once every line ends in LF. */
  function BodyBytes(body: JsString): seq<Byte> { Encode(ToLf(body)) }

  lemma BodyHashes(sha: RawDigest, a: JsString, b: JsString)
    requires NoCollision(sha, BodyBytes(a), BodyBytes(b))
    ensures Sha256Text(sha, a) == Sha256Text(sha, b) <==> BodyBytes(a) == BodyBytes(b)
  {
    hide Encode, ToLf, HexText;
    TextualFaithful(sha, BodyBytes(a), BodyBytes(b));
  }

  lemma {:induction false} EntryExactly(sha: RawDigest, c: BuildIndex.Compiled, d: BuildIndex.Compiled)
    requires BuildIndex.IsAsset(c.record) && BuildIndex.IsAsset(d.record)
    requires NoCollision(sha, BodyBytes(c.body), BodyBytes(d.body))
    ensures Same(BuildIndex.EntryOf(sha)(c), BuildIndex.EntryOf(sha)(d)) <==>
            SameAsset(c.record, d.record) && BodyBytes(c.body) == BodyBytes(d.body)
  {
    hide Same, Fields, BuildIndex.NormalizedAsset, SameAsset, BuildIndex.IsAsset, Sha256Text, BodyBytes;
    var vs := [BuildIndex.NormalizedAsset(c.record), Str(Sha256Text(sha, c.body))];
    var ws := [BuildIndex.NormalizedAsset(d.record), Str(Sha256Text(sha, d.body))];
    EntryNames();
    FieldsSame(BuildIndex.ENTRY, vs, ws);
    SameStrings(Sha256Text(sha, c.body), Sha256Text(sha, d.body));
    NormalizedExactly(c.record, d.record);
    BodyHashes(sha, c.body, d.body);
    assert vs[0] == BuildIndex.NormalizedAsset(c.record) && ws[0] == BuildIndex.NormalizedAsset(d.record);
    assert vs[1] == Str(Sha256Text(sha, c.body)) && ws[1] == Str(Sha256Text(sha, d.body));
  }

  lemma EntryNames()
    ensures DistinctNames(BuildIndex.ENTRY) && |BuildIndex.ENTRY| == 2
    ensures DistinctNames(BuildIndex.TREE) && |BuildIndex.TREE| == 3
  {
    assert |BuildIndex.ENTRY[0]| != |BuildIndex.ENTRY[1]|;
    assert |BuildIndex.TREE[0]| == 14 && |BuildIndex.TREE[1]| == 6 && |BuildIndex.TREE[2]| == 13;
  }

  lemma SameStrings(x: JsString, y: JsString)
    ensures Same(Str(x), Str(y)) <==> x == y
  {
  }

  // --- trees ---------------------------------------------------------------------------------------

  ghost predicate SameTree(t: BuildIndex.KnowledgeTree, u: BuildIndex.KnowledgeTree) {
    && |t.assets| == |u.assets| && |t.sets| == |u.sets|
    && (forall i :: 0 <= i < |t.assets| ==>
          SameAsset(t.assets[i].record, u.assets[i].record) && BodyBytes(t.assets[i].body) == BodyBytes(u.assets[i].body))
    && (forall i :: 0 <= i < |t.sets| ==> SameButOrder(t.sets[i], u.sets[i], BuildIndex.MEMBERS))
  }

  ghost predicate NoBodyCollision(sha: RawDigest, t: BuildIndex.KnowledgeTree, u: BuildIndex.KnowledgeTree) {
    forall i :: 0 <= i < |t.assets| && i < |u.assets| ==> NoCollision(sha, BodyBytes(t.assets[i].body), BodyBytes(u.assets[i].body))
  }

  lemma {:induction false} TreesExactly(sha: RawDigest, t: BuildIndex.KnowledgeTree, u: BuildIndex.KnowledgeTree)
    requires BuildIndex.GoodTree(t) && BuildIndex.GoodTree(u) && NoBodyCollision(sha, t, u)
    ensures Same(BuildIndex.TreeJson(sha, t), BuildIndex.TreeJson(sha, u)) <==> SameTree(t, u)
  {
    hide Fields, BuildIndex.EntryOf, BuildIndex.NormalizedSet, BuildIndex.IsAsset, BuildIndex.IsSolutionSet, SameAsset, SameButOrder, BodyBytes, Ascii;
    var xs, ys := Map(BuildIndex.EntryOf(sha), t.assets), Map(BuildIndex.EntryOf(sha), u.assets);
    var ss, ts := Map(BuildIndex.NormalizedSet(), t.sets), Map(BuildIndex.NormalizedSet(), u.sets);
    TreePartsExactly(sha, t, u);
    forall i | 0 <= i < |t.assets| && i < |u.assets|
      ensures Same(xs[i], ys[i]) <==>
              SameAsset(t.assets[i].record, u.assets[i].record) && BodyBytes(t.assets[i].body) == BodyBytes(u.assets[i].body)
    {
      EntryExactly(sha, t.assets[i], u.assets[i]);
    }
    forall i | 0 <= i < |t.sets| && i < |u.sets| ensures Same(ss[i], ts[i]) <==> SameButOrder(t.sets[i], u.sets[i], BuildIndex.MEMBERS) {
      SetExactly(t.sets[i], u.sets[i]);
    }
    SameItemsOf(xs, ys);
    SameItemsOf(ss, ts);
  }

  lemma SetExactly(v: Json, w: Json)
    requires BuildIndex.IsSolutionSet(v) && BuildIndex.IsSolutionSet(w)
    ensures Same(BuildIndex.NormalizedSet()(v), BuildIndex.NormalizedSet()(w)) <==> SameButOrder(v, w, BuildIndex.MEMBERS)
  {
    hide Same, BuildIndex.WithSorted, BuildIndex.HasTexts, SameButOrder;
    SortedExactly(v, w, BuildIndex.MEMBERS);
  }

  lemma SameItemsOf(xs: seq<Json>, ys: seq<Json>)
    ensures Same(Arr(xs), Arr(ys)) <==> |xs| == |ys| && forall i :: 0 <= i < |xs| ==> Same(xs[i], ys[i])
  {
  }

  lemma TreePartsExactly(sha: RawDigest, t: BuildIndex.KnowledgeTree, u: BuildIndex.KnowledgeTree)
    ensures Same(BuildIndex.TreeJson(sha, t), BuildIndex.TreeJson(sha, u)) <==>
            && Same(Arr(Map(BuildIndex.EntryOf(sha), t.assets)), Arr(Map(BuildIndex.EntryOf(sha), u.assets)))
            && Same(Arr(Map(BuildIndex.NormalizedSet(), t.sets)), Arr(Map(BuildIndex.NormalizedSet(), u.sets)))
  {
    hide Same, Fields, BuildIndex.EntryOf, BuildIndex.NormalizedSet, Ascii;
    var vs := [Str(BuildIndex.INDEX_SCHEMA_VERSION), Arr(Map(BuildIndex.EntryOf(sha), t.assets)), Arr(Map(BuildIndex.NormalizedSet(), t.sets))];
    var ws := [Str(BuildIndex.INDEX_SCHEMA_VERSION), Arr(Map(BuildIndex.EntryOf(sha), u.assets)), Arr(Map(BuildIndex.NormalizedSet(), u.sets))];
    EntryNames();
    FieldsSame(BuildIndex.TREE, vs, ws);
    SameStrings(BuildIndex.INDEX_SCHEMA_VERSION, BuildIndex.INDEX_SCHEMA_VERSION);
    assert vs[1] == Arr(Map(BuildIndex.EntryOf(sha), t.assets)) && ws[1] == Arr(Map(BuildIndex.EntryOf(sha), u.assets));
    assert vs[2] == Arr(Map(BuildIndex.NormalizedSet(), t.sets)) && ws[2] == Arr(Map(BuildIndex.NormalizedSet(), u.sets));
    assert vs[0] == ws[0] == Str(BuildIndex.INDEX_SCHEMA_VERSION);
  }

  /**
   * Short of a collision, two trees have one digest exactly when they hold the same
   * records, up to the order of capabilities and members, and the same bodies, up to
   * how their lines end.
   */
  lemma {:induction false} DigestExactly(sha: RawDigest, t: BuildIndex.KnowledgeTree, u: BuildIndex.KnowledgeTree)
    requires BuildIndex.GoodTree(t) && BuildIndex.GoodTree(u) && NoBodyCollision(sha, t, u)
    requires Valid(BuildIndex.TreeJson(sha, t)) && Valid(BuildIndex.TreeJson(sha, u))
    requires NoCollision(sha, CanonicalBytes(BuildIndex.TreeJson(sha, t)), CanonicalBytes(BuildIndex.TreeJson(sha, u)))
    ensures BuildIndex.KnowledgeTreeDigest(sha, t) == BuildIndex.KnowledgeTreeDigest(sha, u) <==> SameTree(t, u)
  {
    hide BuildIndex.GoodTree, CanonicalBytes, Valid, BuildIndex.TreeJson, Same, SameTree, NoBodyCollision, HexText;
    var a, b := BuildIndex.TreeJson(sha, t), BuildIndex.TreeJson(sha, u);
    TextualFaithful(sha, CanonicalBytes(a), CanonicalBytes(b));
    DigestIdentity(Textual(sha), a, b);
    TreesExactly(sha, t, u);
  }
}
