/**
 * What the compiled tables say of the records they were filled from, column by column.
 */
module IndexTables {
  import opened Wrappers
  import opened Text
  import opened Sorting
  import opened StringOrder
  import opened CanonicalJson
  import opened Sha256
  import opened Records
  import BuildIndex

  const ID: Name := "id"
  const TYPE: Name := "type"
  const SLUG: Name := "slug"
  const TITLE: Name := "title"
  const SUMMARY: Name := "summary"
  const STATUS: Name := "status"
  const PROBLEM: Name := "problem"
  const CAPABILITIES: Name := "capabilities"
  const SOLUTION_SET_ID: Name := "solution_set_id"
  const CONTENT_HASH: Name := "content_hash"
  const PROBLEM_ID: Name := "problem_id"
  const CANONICAL_STATE: Name := "canonical_state"
  const CHAMPION_ID: Name := "champion_id"
  const MEMBERS: Name := "members"

  /** If the record has this field and it is a string, that is the column. */
  ghost predicate Column(v: Json, name: Name, text: JsString) {
    FieldOf(v, name).Some? && FieldOf(v, name).value.Str? ==> text == FieldOf(v, name).value.text
  }

  /** A string, or nothing where the record says null. */
  ghost predicate Nullable(v: Json, name: Name, text: Option<JsString>) {
    FieldOf(v, name).Some? ==>
      match FieldOf(v, name).value
      case Str(s) => text == Some(s)
      case Null => text == None
      case _ => true
  }

  /** `item` is among the strings that `v[name]` lists. */
  ghost predicate Lists(v: Json, name: Name, item: JsString) {
    FieldOf(v, name).Some? && FieldOf(v, name).value.Arr? && Str(item) in FieldOf(v, name).value.items
  }

  ghost predicate AssetColumns(row: BuildIndex.AssetRow, v: Json) {
    && Column(v, ID, row.id) && Column(v, TYPE, row.kind) && Column(v, SLUG, row.slug) && Column(v, TITLE, row.title)
    && Column(v, SUMMARY, row.summary) && Column(v, STATUS, row.status) && Column(v, CONTENT_HASH, row.contentHash)
    && Nullable(v, SOLUTION_SET_ID, row.solutionSetId)
    && (FieldOf(v, PROBLEM).Some? ==> Column(FieldOf(v, PROBLEM).value, ID, row.problemId))
    && row.record == v
  }

  ghost predicate SetColumns(row: BuildIndex.SetRow, v: Json) {
    && Column(v, ID, row.id) && Column(v, PROBLEM_ID, row.problemId) && Column(v, CANONICAL_STATE, row.canonicalState)
    && Nullable(v, CHAMPION_ID, row.championId) && row.record == v
  }

  ghost predicate SearchColumns(row: BuildIndex.FtsRow, c: BuildIndex.Compiled) {
    && Column(c.record, ID, row.assetId) && Column(c.record, TITLE, row.title) && Column(c.record, SUMMARY, row.summary)
    && row.body == c.body
  }

  lemma Names()
    ensures BuildIndex.ID == ID && BuildIndex.TYPE == TYPE && BuildIndex.SLUG == SLUG && BuildIndex.TITLE == TITLE
    ensures BuildIndex.SUMMARY == SUMMARY && BuildIndex.STATUS == STATUS && BuildIndex.PROBLEM == PROBLEM
    ensures BuildIndex.CAPABILITIES == CAPABILITIES && BuildIndex.SOLUTION_SET_ID == SOLUTION_SET_ID
    ensures BuildIndex.CONTENT_HASH == CONTENT_HASH && BuildIndex.PROBLEM_ID == PROBLEM_ID
    ensures BuildIndex.CANONICAL_STATE == CANONICAL_STATE && BuildIndex.CHAMPION_ID == CHAMPION_ID && BuildIndex.MEMBERS == MEMBERS
  {
  }

  lemma TextIsColumn(v: Json, name: Name)
    ensures Column(v, name, BuildIndex.TextOf(v, name))
    ensures Nullable(v, name, BuildIndex.OptionalOf(v, name))
  {
    hide FieldOf;
  }

  /** One row per asset, per searchable asset and per set, in the order of the tree. */
  lemma {:induction false} RowsSay(sha: RawDigest, tree: BuildIndex.KnowledgeTree, builtFrom: JsString)
    requires BuildIndex.GoodTree(tree)
    ensures var index := BuildIndex.IndexOf(sha, tree, builtFrom);
            && |index.assets| == |index.fts| == |tree.assets| && |index.sets| == |tree.sets|
            && (forall i :: 0 <= i < |tree.assets| ==>
                  AssetColumns(index.assets[i], tree.assets[i].record) && SearchColumns(index.fts[i], tree.assets[i]))
            && (forall i :: 0 <= i < |tree.sets| ==> SetColumns(index.sets[i], tree.sets[i]))
  {
    hide BuildIndex.GoodTree, BuildIndex.KnowledgeTreeDigest, AssetColumns, SearchColumns, SetColumns, Sort;
    forall i | 0 <= i < |tree.assets|
      ensures AssetColumns(BuildIndex.AssetRowOf()(tree.assets[i]), tree.assets[i].record)
      ensures SearchColumns(BuildIndex.FtsRowOf()(tree.assets[i]), tree.assets[i])
    {
      AssetSays(tree.assets[i]);
    }
    forall i | 0 <= i < |tree.sets| ensures SetColumns(BuildIndex.SetRowOf()(tree.sets[i]), tree.sets[i]) {
      SetSays(tree.sets[i]);
    }
  }

  lemma AssetSays(c: BuildIndex.Compiled)
    ensures AssetColumns(BuildIndex.AssetRowOf()(c), c.record)
    ensures SearchColumns(BuildIndex.FtsRowOf()(c), c)
  {
    hide FieldOf, BuildIndex.TextOf, BuildIndex.OptionalOf, Column, Nullable, BuildIndex.JoinSpaced, BuildIndex.Capabilities;
    var v := c.record;
    Names();
    TextIsColumn(v, ID);
    TextIsColumn(v, TYPE);
    TextIsColumn(v, SLUG);
    TextIsColumn(v, TITLE);
    TextIsColumn(v, SUMMARY);
    TextIsColumn(v, STATUS);
    TextIsColumn(v, CONTENT_HASH);
    TextIsColumn(v, SOLUTION_SET_ID);
    TextIsColumn(BuildIndex.PartOf(v, PROBLEM), ID);
  }

  lemma SetSays(v: Json)
    ensures SetColumns(BuildIndex.SetRowOf()(v), v)
  {
    hide FieldOf, BuildIndex.TextOf, BuildIndex.OptionalOf, Column, Nullable;
    Names();
    TextIsColumn(v, ID);
    TextIsColumn(v, PROBLEM_ID);
    TextIsColumn(v, CANONICAL_STATE);
    TextIsColumn(v, CHAMPION_ID);
  }

  // --- the two join tables ------------------------------------------------------------------

  lemma ListedTexts(v: Json, name: Name, item: JsString)
    requires BuildIndex.HasTexts(v, name)
    ensures item in BuildIndex.TextsOf(v, name) <==> Lists(v, name, item)
    ensures item in BuildIndex.SortedTexts(v, name) <==> Lists(v, name, item)
  {
    hide Sort, FieldOf;
    var texts := BuildIndex.TextsOf(v, name);
    SameElements(texts, BuildIndex.SortedTexts(v, name));
    assert item in BuildIndex.SortedTexts(v, name) <==> item in Elements(BuildIndex.SortedTexts(v, name));
    assert item in texts <==> item in Elements(texts);
  }

  /** The capabilities that an asset's problem lists. */
  ghost predicate Capable(v: Json, capability: JsString) {
    FieldOf(v, PROBLEM).Some? && Lists(FieldOf(v, PROBLEM).value, CAPABILITIES, capability)
  }

  lemma CapableExactly(c: BuildIndex.Compiled, item: JsString)
    requires BuildIndex.IsAsset(c.record)
    ensures item in BuildIndex.Capabilities(c.record) <==> Capable(c.record, item)
  {
    hide FieldOf, Lists, BuildIndex.SortedTexts;
    Names();
    ListedTexts(BuildIndex.PartOf(c.record, PROBLEM), CAPABILITIES, item);
    HasPart(c.record);
  }

  lemma HasPart(v: Json)
    requires BuildIndex.HasTexts(BuildIndex.PartOf(v, BuildIndex.PROBLEM), BuildIndex.CAPABILITIES)
    ensures FieldOf(v, BuildIndex.PROBLEM).Some?
  {
    hide FieldOf;
  }

  lemma PairAmong(owner: JsString, items: seq<JsString>, item: JsString, other: JsString)
    ensures BuildIndex.Pair(other, item) in Map(BuildIndex.PairsFor(owner), items) <==> other == owner && item in items
  {
    var rows := Map(BuildIndex.PairsFor(owner), items);
    if other == owner && item in items {
      var i :| 0 <= i < |items| && items[i] == item;
      assert rows[i] == BuildIndex.Pair(owner, item);
    }
  }

  /** An asset has a capability in the index exactly when its record lists it. */
  lemma {:induction false} CapabilitiesSay(assets: seq<BuildIndex.Compiled>, owner: JsString, capability: JsString)
    requires forall i :: 0 <= i < |assets| ==> BuildIndex.IsAsset(assets[i].record)
    ensures BuildIndex.Pair(owner, capability) in BuildIndex.CapabilityRows(assets) <==>
            exists i :: 0 <= i < |assets| && BuildIndex.IdOf(assets[i].record) == owner && Capable(assets[i].record, capability)
  {
    hide BuildIndex.Capabilities, BuildIndex.IsAsset, Capable, BuildIndex.IdOf;
    if assets != [] {
      var front, last := assets[..|assets| - 1], assets[|assets| - 1];
      CapabilitiesSay(front, owner, capability);
      CapableExactly(last, capability);
      PairAmong(BuildIndex.IdOf(last.record), BuildIndex.Capabilities(last.record), capability, owner);
      assert forall i :: 0 <= i < |front| ==> front[i] == assets[i];
      assert last == assets[|assets| - 1];
    }
  }

  /** And a set has a member exactly when its record lists it. */
  lemma {:induction false} MembersSay(sets: seq<Json>, owner: JsString, member: JsString)
    requires forall i :: 0 <= i < |sets| ==> BuildIndex.IsSolutionSet(sets[i])
    ensures BuildIndex.Pair(owner, member) in BuildIndex.MemberRows(sets) <==>
            exists i :: 0 <= i < |sets| && BuildIndex.IdOf(sets[i]) == owner && Lists(sets[i], MEMBERS, member)
  {
    hide BuildIndex.SortedTexts, BuildIndex.HasTexts, Lists, BuildIndex.IdOf;
    if sets != [] {
      var front, last := sets[..|sets| - 1], sets[|sets| - 1];
      MembersSay(front, owner, member);
      Names();
      ListedTexts(last, MEMBERS, member);
      PairAmong(BuildIndex.IdOf(last), BuildIndex.SortedTexts(last, MEMBERS), member, owner);
      assert forall i :: 0 <= i < |front| ==> front[i] == sets[i];
      assert last == sets[|sets| - 1];
    }
  }

  /** The bootstrap scores name every asset once, in ascending order. */
  lemma {:induction false} MetaSays(sha: RawDigest, tree: BuildIndex.KnowledgeTree, builtFrom: JsString)
    requires BuildIndex.GoodTree(tree) && NoDuplicates(Map(BuildIndex.IdOfAsset(), tree.assets))
    ensures var meta := BuildIndex.IndexOf(sha, tree, builtFrom).meta;
            && meta.schemaVersion == Ascii("1") && meta.builtFrom == builtFrom
            && meta.indexDigest == BuildIndex.KnowledgeTreeDigest(sha, tree)
            && multiset(meta.scored) == multiset(Map(BuildIndex.IdOfAsset(), tree.assets))
            && (forall i, j :: 0 <= i < j < |meta.scored| ==> Before16(meta.scored[i], meta.scored[j]))
  {
    hide BuildIndex.GoodTree, BuildIndex.KnowledgeTreeDigest, Before16, Sort, BuildIndex.IdOf;
    var ids := Map(BuildIndex.IdOfAsset(), tree.assets);
    Before16Order(Elements(ids));
    SortStrict(Before16, ids);
  }

  /** `s.split(' ')`. */
  function Words(s: JsString): (ws: seq<JsString>)
    ensures ws != []
  {
    if s == [] then [[]]
    else if s[0] == 0x20 then [[]] + Words(s[1..])
    else
      var others := Words(s[1..]);
      [[s[0]] + others[0]] + others[1..]
  }

  lemma {:induction false} OneWord(s: JsString)
    requires 0x20 !in s
    ensures Words(s) == [s]
  {
    if s != [] {
      OneWord(s[1..]);
      assert [s[0]] + s[1..] == s;
    }
  }

  lemma {:induction false} WordsAppend(a: JsString, b: JsString)
    requires 0x20 !in b
    ensures Words(a + [0x20] + b) == Words(a) + [b]
  {
    var s := a + [0x20] + b;
    if a == [] {
      OneWord(b);
      assert s[1..] == b;
    } else {
      WordsAppend(a[1..], b);
      assert s[1..] == a[1..] + [0x20] + b;
      assert (Words(a[1..]) + [b])[0] == Words(a[1..])[0] && (Words(a[1..]) + [b])[1..] == Words(a[1..])[1..] + [b];
    }
  }

  lemma {:induction false} WordsBack(ts: seq<JsString>)
    requires ts != [] && forall i :: 0 <= i < |ts| ==> 0x20 !in ts[i]
    ensures Words(BuildIndex.JoinSpaced(ts)) == ts
  {
    if |ts| == 1 {
      OneWord(ts[0]);
    } else {
      var front, last := ts[..|ts| - 1], ts[|ts| - 1];
      WordsBack(front);
      WordsAppend(BuildIndex.JoinSpaced(front), last);
      assert Ascii(" ") == [0x20];
      assert ts == front + [last];
    }
  }

  /** The searchable tags are the capabilities in ascending order, as many times as the record lists them. */
  lemma {:induction false} TagsSay(c: BuildIndex.Compiled)
    requires BuildIndex.IsAsset(c.record)
    ensures var texts := BuildIndex.TextsOf(BuildIndex.PartOf(c.record, PROBLEM), CAPABILITIES);
            var tags := BuildIndex.FtsRowOf()(c).tags;
            if texts == [] then tags == []
            else (forall i :: 0 <= i < |texts| ==> 0x20 !in texts[i]) ==>
                   multiset(Words(tags)) == multiset(texts) && Sorted(Before16, Words(tags))
  {
    hide BuildIndex.TextsOf, BuildIndex.PartOf, BuildIndex.IsAsset, Words, Sort, Before16, BuildIndex.JoinSpaced, BuildIndex.TextOf;
    Names();
    var texts := BuildIndex.TextsOf(BuildIndex.PartOf(c.record, PROBLEM), CAPABILITIES);
    var sorted := Sort(Before16, texts);
    NoTags();
    Before16Order(Elements(texts));
    SortSorts(Before16, texts);
    SameElements(texts, sorted);
    if texts != [] && forall i :: 0 <= i < |texts| ==> 0x20 !in texts[i] {
      forall i | 0 <= i < |sorted| ensures 0x20 !in sorted[i] {
        assert sorted[i] in Elements(sorted) && sorted[i] in Elements(texts);
      }
      WordsBack(sorted);
    }
  }

  lemma NoTags()
    ensures BuildIndex.JoinSpaced([]) == []
  {
  }
}
