/**
 * Compiling a knowledge tree into an index, and the digest that names the result.
 *
 * Parsing, schemas and text decoding are parameters: a listing holds, per file, what
 * they gave. Records are well-formed JSON values.
 */
module BuildIndex {
  import opened Wrappers
  import opened Text
  import opened Sorting
  import opened StringOrder
  import opened CanonicalJson
  import opened Records
  import opened Sha256
  import opened FileManifest
  import Normalize
  import opened Replay

  // --- records -------------------------------------------------------------------------

  /** `v[name]` as text, for fields the schema makes strings. */
  function TextOf(v: Json, name: Name): JsString {
    match FieldOf(v, name)
    case Some(Str(s)) => s
    case _ => []
  }

  /** `v[name]` for fields that are strings or null. */
  function OptionalOf(v: Json, name: Name): Option<JsString> {
    match FieldOf(v, name)
    case Some(Str(s)) => Some(s)
    case _ => None
  }

  function TextOfJson(v: Json): JsString { if v.Str? then v.text else [] }

  /** `v[name]` as a list of strings. */
  function TextsOf(v: Json, name: Name): seq<JsString> {
    match FieldOf(v, name)
    case Some(Arr(items)) => Map(TextOfJson, items)
    case _ => []
  }

  function PartOf(v: Json, name: Name): Json {
    match FieldOf(v, name)
    case Some(part) => part
    case None => Null
  }

  const ID: Name := "id"
  const PROBLEM: Name := "problem"
  const CAPABILITIES: Name := "capabilities"
  const MEMBERS: Name := "members"
  const CONTENT_HASH: Name := "content_hash"
  const BODY: Name := "body"
  const TYPE: Name := "type"
  const SLUG: Name := "slug"
  const TITLE: Name := "title"
  const SUMMARY: Name := "summary"
  const STATUS: Name := "status"
  const SOLUTION_SET_ID: Name := "solution_set_id"
  const PROBLEM_ID: Name := "problem_id"
  const CANONICAL_STATE: Name := "canonical_state"
  const CHAMPION_ID: Name := "champion_id"

  /** A JSON object that lists strings under `name`. */
  ghost predicate HasTexts(v: Json, name: Name) {
    v.Obj? && Valid(v) && FieldOf(v, name) == Some(TextsJson(TextsOf(v, name)))
  }

  ghost predicate IsAsset(v: Json) {
    v.Obj? && Valid(v) && HasTexts(PartOf(v, PROBLEM), CAPABILITIES)
  }

  ghost predicate IsSolutionSet(v: Json) { HasTexts(v, MEMBERS) }

  // --- reading a tree ---------------------------------------------------------------------

  /** One asset directory: its record, the bytes of the body it names, and what is under `files/`. */
  datatype AssetDir = AssetDir(record: Option<Json>, body: Option<seq<Byte>>, files: seq<File>)

  datatype Listing = Listing(assets: seq<AssetDir>, sets: seq<Option<Json>>)

  ghost predicate Parsed(listing: Listing) {
    && (forall i :: 0 <= i < |listing.assets| && listing.assets[i].record.Some? ==> IsAsset(listing.assets[i].record.value))
    && (forall i :: 0 <= i < |listing.sets| && listing.sets[i].Some? ==> IsSolutionSet(listing.sets[i].value))
  }

  datatype Compiled = Compiled(record: Json, body: JsString)

  datatype KnowledgeTree = KnowledgeTree(assets: seq<Compiled>, sets: seq<Json>)

  datatype ReadResult =
    | Tree(tree: KnowledgeTree)
    | AssetRefused(at: nat, why: Refusal)
    | SetRefused(at: nat, why: Refusal)

  datatype Refusal = BadRecord | RepeatedId | UnreadableBody | WrongContentHash

  /** The environment's functions: normalization, SHA-256, UTF-8 decoding. */
  datatype World = World(nfc: Nfc, sha: RawDigest, decode: seq<Byte> -> JsString)

  function IdOf(v: Json): JsString { TextOf(v, ID) }

  /** The body under its own name, and everything under `files/`. */
  function FileSet(dir: AssetDir): seq<File>
    requires dir.record.Some? && dir.body.Some?
  {
    [File(TextOf(dir.record.value, BODY), dir.body.value)] + dir.files
  }

  /** Everything reading checks of one directory on its own. */
  ghost predicate Sound(w: World, dir: AssetDir) {
    && dir.record.Some? && dir.body.Some?
    && HashFileSet(w.nfc, Textual(w.sha), FileSet(dir)) == Some(TextOf(dir.record.value, CONTENT_HASH))
  }

  function CompiledOf(w: World): AssetDir -> Compiled {
    (dir: AssetDir) =>
      Compiled(if dir.record.Some? then dir.record.value else Null, w.decode(if dir.body.Some? then dir.body.value else []))
  }

  function DirId(): AssetDir -> JsString { (dir: AssetDir) => if dir.record.Some? then IdOf(dir.record.value) else [] }

  function SetValue(): Option<Json> -> Json { (s: Option<Json>) => if s.Some? then s.value else Null }

  function SetId(): Option<Json> -> JsString { (s: Option<Json>) => if s.Some? then IdOf(s.value) else [] }

  predicate AssetBefore(a: Compiled, b: Compiled) { Before16(IdOf(a.record), IdOf(b.record)) }

  predicate SetBefore(a: Json, b: Json) { Before16(IdOf(a), IdOf(b)) }

  ghost predicate SoundAssets(w: World, dirs: seq<AssetDir>) {
    (forall i :: 0 <= i < |dirs| ==> Sound(w, dirs[i])) && NoDuplicates(Map(DirId(), dirs))
  }

  ghost predicate SoundSets(sets: seq<Option<Json>>) {
    (forall i :: 0 <= i < |sets| ==> sets[i].Some?) && NoDuplicates(Map(SetId(), sets))
  }

  function TreeOf(w: World, listing: Listing): KnowledgeTree {
    KnowledgeTree(Sort(AssetBefore, Map(CompiledOf(w), listing.assets)), Sort(SetBefore, Map(SetValue(), listing.sets)))
  }

  /** The asset at `at` is the first that fails, and `why` is the first check it fails. */
  ghost predicate AssetFails(w: World, dirs: seq<AssetDir>, at: nat, why: Refusal) {
    at < |dirs| && SoundAssets(w, dirs[..at]) &&
    match why
    case BadRecord => dirs[at].record.None?
    case RepeatedId => dirs[at].record.Some? && DirId()(dirs[at]) in Map(DirId(), dirs[..at])
    case UnreadableBody =>
      dirs[at].record.Some? && DirId()(dirs[at]) !in Map(DirId(), dirs[..at]) && dirs[at].body.None?
    case WrongContentHash =>
      && dirs[at].record.Some? && DirId()(dirs[at]) !in Map(DirId(), dirs[..at]) && dirs[at].body.Some?
      && HashFileSet(w.nfc, Textual(w.sha), FileSet(dirs[at])) != Some(TextOf(dirs[at].record.value, CONTENT_HASH))
  }

  ghost predicate SetFails(sets: seq<Option<Json>>, at: nat, why: Refusal) {
    at < |sets| && SoundSets(sets[..at]) &&
    match why
    case BadRecord => sets[at].None?
    case RepeatedId => sets[at].Some? && SetId()(sets[at]) in Map(SetId(), sets[..at])
    case _ => false
  }

  /** Reads every asset; refuses at the first that fails. */
  method ReadAssets(w: World, dirs: seq<AssetDir>) returns (assets: seq<Compiled>, refused: Option<(nat, Refusal)>)
    ensures refused.None? <==> SoundAssets(w, dirs)
    ensures refused.None? ==> assets == Map(CompiledOf(w), dirs)
    ensures refused.Some? ==> AssetFails(w, dirs, refused.value.0, refused.value.1)
  {
    hide HashFileSet, FieldOf;
    assets, refused := [], None;
    var seenIds: set<JsString> := {};
    for i := 0 to |dirs|
      invariant SoundAssets(w, dirs[..i])
      invariant assets == Map(CompiledOf(w), dirs[..i])
      invariant seenIds == Elements(Map(DirId(), dirs[..i]))
      invariant refused.None?
    {
      var dir := dirs[i];
      SoundStep(w, dirs, i);
      MapStep(CompiledOf(w), dirs, i);
      if dir.record.None? { return assets, Some((i, BadRecord)); }
      var id := IdOf(dir.record.value);
      if id in seenIds { return assets, Some((i, RepeatedId)); }
      seenIds := seenIds + {id};
      if dir.body.None? { return assets, Some((i, UnreadableBody)); }
      var observed := ComputeFileSetHash(w.nfc, Textual(w.sha), FileSet(dir));
      if observed != Some(TextOf(dir.record.value, CONTENT_HASH)) { return assets, Some((i, WrongContentHash)); }
      assets := assets + [Compiled(dir.record.value, w.decode(dir.body.value))];
    }
    assert dirs[..|dirs|] == dirs;
  }

  lemma {:induction false} SoundStep(w: World, dirs: seq<AssetDir>, i: nat)
    requires i < |dirs| && SoundAssets(w, dirs[..i])
    ensures Elements(Map(DirId(), dirs[..i + 1])) == Elements(Map(DirId(), dirs[..i])) + {DirId()(dirs[i])}
    ensures Sound(w, dirs[i]) && DirId()(dirs[i]) !in Elements(Map(DirId(), dirs[..i])) ==> SoundAssets(w, dirs[..i + 1])
    ensures !Sound(w, dirs[i]) ==> !SoundAssets(w, dirs)
    ensures DirId()(dirs[i]) in Elements(Map(DirId(), dirs[..i])) ==> !SoundAssets(w, dirs)
  {
    hide Sound;
    MapStep(DirId(), dirs, i);
    var before := Map(DirId(), dirs[..i]);
    AppendDistinct(before, DirId()(dirs[i]));
    assert forall k :: 0 <= k < i ==> dirs[..i + 1][k] == dirs[..i][k];
    if DirId()(dirs[i]) in Elements(before) {
      var k :| 0 <= k < i && before[k] == DirId()(dirs[i]);
      assert Map(DirId(), dirs)[k] == Map(DirId(), dirs)[i];
    }
  }

  method ReadSets(sets: seq<Option<Json>>) returns (read: seq<Json>, refused: Option<(nat, Refusal)>)
    ensures refused.None? <==> SoundSets(sets)
    ensures refused.None? ==> read == Map(SetValue(), sets)
    ensures refused.Some? ==> SetFails(sets, refused.value.0, refused.value.1)
  {
    hide FieldOf;
    read, refused := [], None;
    var seenIds: set<JsString> := {};
    for i := 0 to |sets|
      invariant SoundSets(sets[..i])
      invariant read == Map(SetValue(), sets[..i])
      invariant seenIds == Elements(Map(SetId(), sets[..i]))
      invariant refused.None?
    {
      SoundSetStep(sets, i);
      MapStep(SetValue(), sets, i);
      if sets[i].None? { return read, Some((i, BadRecord)); }
      var id := IdOf(sets[i].value);
      if id in seenIds { return read, Some((i, RepeatedId)); }
      seenIds := seenIds + {id};
      read := read + [sets[i].value];
    }
    assert sets[..|sets|] == sets;
  }

  lemma SoundSetStep(sets: seq<Option<Json>>, i: nat)
    requires i < |sets| && SoundSets(sets[..i])
    ensures Elements(Map(SetId(), sets[..i + 1])) == Elements(Map(SetId(), sets[..i])) + {SetId()(sets[i])}
    ensures sets[i].Some? && SetId()(sets[i]) !in Elements(Map(SetId(), sets[..i])) ==> SoundSets(sets[..i + 1])
    ensures sets[i].None? ==> !SoundSets(sets)
    ensures SetId()(sets[i]) in Elements(Map(SetId(), sets[..i])) ==> !SoundSets(sets)
  {
    MapStep(SetId(), sets, i);
    var before := Map(SetId(), sets[..i]);
    AppendDistinct(before, SetId()(sets[i]));
    if SetId()(sets[i]) in Elements(before) {
      var k :| 0 <= k < i && before[k] == SetId()(sets[i]);
      assert Map(SetId(), sets)[k] == Map(SetId(), sets)[i];
    }
  }

  lemma FailingAsset(w: World, dirs: seq<AssetDir>, at: nat, why: Refusal)
    requires AssetFails(w, dirs, at, why)
    ensures at < |dirs| && !SoundAssets(w, dirs[..at + 1])
  {
    hide FieldOf, HashFileSet;
    var upTo := dirs[..at + 1];
    assert upTo[..at] == dirs[..at] && upTo[at] == dirs[at];
    SoundStep(w, upTo, at);
  }

  lemma FailingSet(sets: seq<Option<Json>>, at: nat, why: Refusal)
    requires SetFails(sets, at, why)
    ensures at < |sets| && !SoundSets(sets[..at + 1])
  {
    hide FieldOf;
    var upTo := sets[..at + 1];
    assert upTo[..at] == sets[..at] && upTo[at] == sets[at];
    SoundSetStep(upTo, at);
  }

  /** Accepts exactly the sound listings with distinct ids, and sorts what it read by id. */
  method ReadKnowledgeTree(w: World, listing: Listing) returns (r: ReadResult)
    ensures r.Tree? <==> SoundAssets(w, listing.assets) && SoundSets(listing.sets)
    ensures r.Tree? ==> r.tree == TreeOf(w, listing)
    ensures r.AssetRefused? ==> AssetFails(w, listing.assets, r.at, r.why) && !SoundAssets(w, listing.assets[..r.at + 1])
    ensures r.SetRefused? ==> SoundAssets(w, listing.assets) && SetFails(listing.sets, r.at, r.why) && !SoundSets(listing.sets[..r.at + 1])
  {
    hide SoundAssets, SoundSets, Sort, CompiledOf, SetValue, AssetFails, SetFails;
    var assets, badAsset := ReadAssets(w, listing.assets);
    if badAsset.Some? {
      FailingAsset(w, listing.assets, badAsset.value.0, badAsset.value.1);
      return AssetRefused(badAsset.value.0, badAsset.value.1);
    }
    var sets, badSet := ReadSets(listing.sets);
    if badSet.Some? {
      FailingSet(listing.sets, badSet.value.0, badSet.value.1);
      return SetRefused(badSet.value.0, badSet.value.1);
    }
    r := Tree(KnowledgeTree(Sort(AssetBefore, assets), Sort(SetBefore, sets)));
  }

  // --- where files sit does not matter ---------------------------------------------------------

  lemma AssetsInOrder(s: set<Compiled>)
    ensures WeakOrderOn(AssetBefore, s)
  {
    var ids := set c | c in s :: IdOf(c.record);
    Before16Order(ids);
    assert forall c :: c in s ==> IdOf(c.record) in ids;
  }

  lemma {:induction false} SetsInOrder(s: set<Json>)
    ensures WeakOrderOn(SetBefore, s)
  {
    var ids := set c | c in s :: IdOf(c);
    Before16Order(ids);
    assert forall c :: c in s ==> IdOf(c) in ids;
  }

  lemma {:induction false} AssetsSeparate(w: World, dirs: seq<AssetDir>)
    requires SoundAssets(w, dirs)
    ensures var cs := Map(CompiledOf(w), dirs); SeparatesOn(AssetBefore, Elements(cs)) && NoDuplicates(cs)
  {
    hide FieldOf, HashFileSet;
    var cs, ids := Map(CompiledOf(w), dirs), Map(DirId(), dirs);
    assert forall i :: 0 <= i < |dirs| ==> IdOf(cs[i].record) == ids[i];
    forall x, y | x in Elements(cs) && y in Elements(cs) && x != y ensures AssetBefore(x, y) || AssetBefore(y, x) {
      var i :| 0 <= i < |cs| && cs[i] == x;
      var j :| 0 <= j < |cs| && cs[j] == y;
      assert ids[i] != ids[j];
      LexLaws(ids[i], ids[j]);
    }
    forall i, j | 0 <= i < j < |cs| ensures cs[i] != cs[j] { assert ids[i] != ids[j]; }
  }

  lemma {:induction false} SetsSeparate(sets: seq<Option<Json>>)
    requires SoundSets(sets)
    ensures var vs := Map(SetValue(), sets); SeparatesOn(SetBefore, Elements(vs)) && NoDuplicates(vs)
  {
    hide FieldOf;
    var vs, ids := Map(SetValue(), sets), Map(SetId(), sets);
    assert forall i :: 0 <= i < |sets| ==> IdOf(vs[i]) == ids[i];
    forall x, y | x in Elements(vs) && y in Elements(vs) && x != y ensures SetBefore(x, y) || SetBefore(y, x) {
      var i :| 0 <= i < |vs| && vs[i] == x;
      var j :| 0 <= j < |vs| && vs[j] == y;
      assert ids[i] != ids[j];
      LexLaws(ids[i], ids[j]);
    }
    forall i, j | 0 <= i < j < |vs| ensures vs[i] != vs[j] { assert ids[i] != ids[j]; }
  }

  lemma SoundPermutes(w: World, a: Listing, b: Listing)
    requires multiset(a.assets) == multiset(b.assets) && multiset(a.sets) == multiset(b.sets)
    requires SoundAssets(w, a.assets) && SoundSets(a.sets)
    ensures SoundAssets(w, b.assets) && SoundSets(b.sets)
  {
    hide Sound, DirId, SetId;
    SameElements(a.assets, b.assets);
    SameElements(a.sets, b.sets);
    forall i | 0 <= i < |b.assets| ensures Sound(w, b.assets[i]) {
      assert b.assets[i] in Elements(a.assets);
      var j :| 0 <= j < |a.assets| && a.assets[j] == b.assets[i];
    }
    forall i | 0 <= i < |b.sets| ensures b.sets[i].Some? {
      assert b.sets[i] in Elements(a.sets);
      var j :| 0 <= j < |a.sets| && a.sets[j] == b.sets[i];
    }
    MapPermutes(DirId(), a.assets, b.assets);
    MapPermutes(SetId(), a.sets, b.sets);
    NoDuplicatesPermutes(Map(DirId(), a.assets), Map(DirId(), b.assets));
    NoDuplicatesPermutes(Map(SetId(), a.sets), Map(SetId(), b.sets));
  }

  /** The same directories in any order are accepted alike and give the same tree. */
  lemma {:induction false} TreeIgnoresLocation(w: World, a: Listing, b: Listing)
    requires multiset(a.assets) == multiset(b.assets) && multiset(a.sets) == multiset(b.sets)
    ensures SoundAssets(w, a.assets) && SoundSets(a.sets) <==> SoundAssets(w, b.assets) && SoundSets(b.sets)
    ensures SoundAssets(w, a.assets) && SoundSets(a.sets) ==> TreeOf(w, a) == TreeOf(w, b)
  {
    hide SoundAssets, SoundSets, Sort, WeakOrderOn, SeparatesOn;
    if SoundAssets(w, b.assets) && SoundSets(b.sets) { SoundPermutes(w, b, a); }
    if SoundAssets(w, a.assets) && SoundSets(a.sets) {
      SoundPermutes(w, a, b);
      AssetsSeparate(w, a.assets);
      SetsSeparate(a.sets);
      MapPermutes(CompiledOf(w), a.assets, b.assets);
      MapPermutes(SetValue(), a.sets, b.sets);
      AssetsInOrder(Elements(Map(CompiledOf(w), a.assets)));
      SetsInOrder(Elements(Map(SetValue(), a.sets)));
      SortIgnoresArrival(AssetBefore, Map(CompiledOf(w), a.assets), Map(CompiledOf(w), b.assets));
      SortIgnoresArrival(SetBefore, Map(SetValue(), a.sets), Map(SetValue(), b.sets));
    }
  }

  // --- the digest ---------------------------------------------------------------------------

  function SortedTexts(v: Json, name: Name): seq<JsString> { Sort(Before16, TextsOf(v, name)) }

  /** `{ ...v, [name]: [...v[name]].sort() }`. */
  function WithSorted(v: Json, name: Name): Json {
    if v.Obj? then Obj(With(v.members, Ascii(name), TextsJson(SortedTexts(v, name)))) else v
  }

  function NormalizedAsset(v: Json): Json {
    if v.Obj? then Obj(With(v.members, Ascii(PROBLEM), WithSorted(PartOf(v, PROBLEM), CAPABILITIES))) else v
  }

  function NormalizedSet(): Json -> Json { (v: Json) => WithSorted(v, MEMBERS) }

  const ENTRY: seq<Name> := ["record", "body_hash"]
  const TREE: seq<Name> := ["schema_version", "assets", "solution_sets"]
  const INDEX_SCHEMA_VERSION: JsString := Ascii("1")

  function EntryOf(sha: RawDigest): Compiled -> Json {
    (c: Compiled) => Obj(Fields(ENTRY, [NormalizedAsset(c.record), Str(Sha256Text(sha, c.body))]))
  }

  function TreeJson(sha: RawDigest, tree: KnowledgeTree): Json {
    Obj(Fields(TREE, [Str(INDEX_SCHEMA_VERSION), Arr(Map(EntryOf(sha), tree.assets)), Arr(Map(NormalizedSet(), tree.sets))]))
  }

  ghost predicate GoodTree(tree: KnowledgeTree) {
    && (forall i :: 0 <= i < |tree.assets| ==> IsAsset(tree.assets[i].record))
    && (forall i :: 0 <= i < |tree.sets| ==> IsSolutionSet(tree.sets[i]))
  }

  lemma {:induction false} SortedTextsValid(v: Json, name: Name)
    requires HasTexts(v, name)
    ensures Valid(TextsJson(SortedTexts(v, name)))
  {
    hide Lookup;
    var ts, sorted := TextsOf(v, name), SortedTexts(v, name);
    MemberValid(v.members, Ascii(name));
    TextsValid(ts);
    SameElements(ts, sorted);
    assert forall i :: 0 <= i < |sorted| ==> sorted[i] in Elements(ts);
    TextsValid(sorted);
  }

  lemma {:induction false} WithSortedValid(v: Json, name: Name)
    requires HasTexts(v, name)
    ensures Valid(WithSorted(v, name))
  {
    hide With, SortedTexts;
    SortedTextsValid(v, name);
    AsciiFaithful(name, name);
    WithContent(v.members, Ascii(name), TextsJson(SortedTexts(v, name)));
  }

  lemma {:induction false} NormalizedAssetValid(v: Json)
    requires IsAsset(v)
    ensures Valid(NormalizedAsset(v))
  {
    hide With, WithSorted;
    WithSortedValid(PartOf(v, PROBLEM), CAPABILITIES);
    AsciiFaithful(PROBLEM, PROBLEM);
    WithContent(v.members, Ascii(PROBLEM), WithSorted(PartOf(v, PROBLEM), CAPABILITIES));
  }

  lemma {:induction false} EntryValid(sha: RawDigest, c: Compiled)
    requires IsAsset(c.record)
    ensures Valid(EntryOf(sha)(c))
  {
    hide NormalizedAsset, Fields, Encode, ToLf, IsAsset;
    NormalizedAssetValid(c.record);
    TextualFaithful(sha, Encode(ToLf(c.body)), []);
    var vs := [NormalizedAsset(c.record), Str(Sha256Text(sha, c.body))];
    assert Valid(vs[0]) && Valid(vs[1]);
    FieldsValid(ENTRY, vs);
  }

  lemma TreeJsonValid(sha: RawDigest, tree: KnowledgeTree)
    requires GoodTree(tree)
    ensures Valid(TreeJson(sha, tree))
  {
    hide EntryOf, IsAsset, IsSolutionSet, Fields, NormalizedSet;
    var entries, sets := Map(EntryOf(sha), tree.assets), Map(NormalizedSet(), tree.sets);
    forall i | 0 <= i < |entries| ensures Valid(entries[i]) { EntryValid(sha, tree.assets[i]); }
    forall i | 0 <= i < |sets| ensures Valid(sets[i]) { NormalizedSetValid(tree.sets[i]); }
    AsciiFaithful("1", "1");
    var vs := [Str(INDEX_SCHEMA_VERSION), Arr(entries), Arr(sets)];
    assert Valid(vs[0]) && Valid(vs[1]) && Valid(vs[2]);
    FieldsValid(TREE, vs);
  }

  lemma {:induction false} NormalizedSetValid(v: Json)
    requires IsSolutionSet(v)
    ensures Valid(NormalizedSet()(v))
  {
    WithSortedValid(v, MEMBERS);
  }

  function KnowledgeTreeDigest(sha: RawDigest, tree: KnowledgeTree): JsString
    requires GoodTree(tree)
  {
    TreeJsonValid(sha, tree);
    Sha256Canonical(Textual(sha), TreeJson(sha, tree))
  }

  // --- the rows ---------------------------------------------------------------------------------

  /** `record` stands for the `record_json` text of the record as written. */
  datatype AssetRow = AssetRow(
    id: JsString, kind: JsString, slug: JsString, title: JsString, summary: JsString, status: JsString,
    problemId: JsString, solutionSetId: Option<JsString>, contentHash: JsString, record: Json)

  datatype FtsRow = FtsRow(assetId: JsString, title: JsString, summary: JsString, tags: JsString, body: JsString)

  datatype SetRow = SetRow(
    id: JsString, problemId: JsString, canonicalState: JsString, championId: Option<JsString>, record: Json)

  datatype Pair = Pair(owner: JsString, item: JsString)

  /** `scored` lists the asset ids of the bootstrap score snapshot. */
  datatype Meta = Meta(schemaVersion: JsString, indexDigest: JsString, scored: seq<JsString>, builtFrom: JsString)

  datatype Index = Index(
    assets: seq<AssetRow>, capabilities: seq<Pair>, fts: seq<FtsRow>, sets: seq<SetRow>, members: seq<Pair>, meta: Meta)

  function AssetRowOf(): Compiled -> AssetRow {
    (c: Compiled) =>
      var v := c.record;
      AssetRow(IdOf(v), TextOf(v, TYPE), TextOf(v, SLUG), TextOf(v, TITLE), TextOf(v, SUMMARY), TextOf(v, STATUS),
               TextOf(PartOf(v, PROBLEM), ID), OptionalOf(v, SOLUTION_SET_ID), TextOf(v, CONTENT_HASH), v)
  }

  function Capabilities(v: Json): seq<JsString> { SortedTexts(PartOf(v, PROBLEM), CAPABILITIES) }

  /** `texts.join(' ')`. */
  function JoinSpaced(texts: seq<JsString>): JsString {
    if texts == [] then []
    else if |texts| == 1 then texts[0]
    else JoinSpaced(texts[..|texts| - 1]) + Ascii(" ") + texts[|texts| - 1]
  }

  function FtsRowOf(): Compiled -> FtsRow {
    (c: Compiled) =>
      FtsRow(IdOf(c.record), TextOf(c.record, TITLE), TextOf(c.record, SUMMARY), JoinSpaced(Capabilities(c.record)), c.body)
  }

  function SetRowOf(): Json -> SetRow {
    (v: Json) => SetRow(IdOf(v), TextOf(v, PROBLEM_ID), TextOf(v, CANONICAL_STATE), OptionalOf(v, CHAMPION_ID), v)
  }

  function PairsFor(owner: JsString): JsString -> Pair { (item: JsString) => Pair(owner, item) }

  function CapabilityRows(assets: seq<Compiled>): seq<Pair> {
    if assets == [] then []
    else
      var last := assets[|assets| - 1];
      CapabilityRows(assets[..|assets| - 1]) + Map(PairsFor(IdOf(last.record)), Capabilities(last.record))
  }

  function MemberRows(sets: seq<Json>): seq<Pair> {
    if sets == [] then []
    else
      var last := sets[|sets| - 1];
      MemberRows(sets[..|sets| - 1]) + Map(PairsFor(IdOf(last)), SortedTexts(last, MEMBERS))
  }

  function IdOfAsset(): Compiled -> JsString { (c: Compiled) => IdOf(c.record) }

  function IndexOf(sha: RawDigest, tree: KnowledgeTree, builtFrom: JsString): Index
    requires GoodTree(tree)
  {
    Index(Map(AssetRowOf(), tree.assets), CapabilityRows(tree.assets), Map(FtsRowOf(), tree.assets),
          Map(SetRowOf(), tree.sets), MemberRows(tree.sets),
          Meta(INDEX_SCHEMA_VERSION, KnowledgeTreeDigest(sha, tree), Sort(Before16, Map(IdOfAsset(), tree.assets)), builtFrom))
  }

  /** The join tables have the pair as primary key: a repeated entry aborts the build. */
  ghost predicate Insertable(tree: KnowledgeTree) {
    NoDuplicates(CapabilityRows(tree.assets)) && NoDuplicates(MemberRows(tree.sets))
  }

  /** `insert` for each item, into a table whose key is the whole row. */
  method InsertPairs(table: seq<Pair>, owner: JsString, items: seq<JsString>) returns (after: seq<Pair>, ok: bool)
    requires NoDuplicates(table)
    ensures ok <==> NoDuplicates(table + Map(PairsFor(owner), items))
    ensures ok ==> after == table + Map(PairsFor(owner), items)
  {
    after, ok := table, true;
    assert table + Map(PairsFor(owner), items[..0]) == table;
    for i := 0 to |items|
      invariant ok && NoDuplicates(after)
      invariant after == table + Map(PairsFor(owner), items[..i])
    {
      InsertStep(table, owner, items, i);
      var row := Pair(owner, items[i]);
      if row in after { return after, false; }
      AppendDistinct(after, row);
      after := after + [row];
    }
    assert items[..|items|] == items;
  }

  lemma InsertStep(table: seq<Pair>, owner: JsString, items: seq<JsString>, i: nat)
    requires i < |items|
    ensures var before := table + Map(PairsFor(owner), items[..i]);
            && table + Map(PairsFor(owner), items[..i + 1]) == before + [Pair(owner, items[i])]
            && (Pair(owner, items[i]) in before ==> !NoDuplicates(table + Map(PairsFor(owner), items)))
  {
    MapStep(PairsFor(owner), items, i);
    var before, all := table + Map(PairsFor(owner), items[..i]), table + Map(PairsFor(owner), items);
    if Pair(owner, items[i]) in before {
      var k :| 0 <= k < |before| && before[k] == Pair(owner, items[i]);
      assert all[k] == before[k] && all[|table| + i] == Pair(owner, items[i]);
    }
  }

  lemma PrefixDuplicates<T>(s: seq<T>, t: seq<T>)
    requires !NoDuplicates(s)
    ensures !NoDuplicates(s + t)
  {
    var i, j :| 0 <= i < j < |s| && s[i] == s[j];
    assert (s + t)[i] == (s + t)[j];
  }

  lemma {:induction false} CapabilityRowsGrow(assets: seq<Compiled>, n: nat)
    requires n <= |assets| && !NoDuplicates(CapabilityRows(assets[..n]))
    ensures !NoDuplicates(CapabilityRows(assets))
  {
    hide NoDuplicates, Capabilities, FieldOf, TextOf;
    if n == |assets| {
      assert assets[..n] == assets;
    } else {
      assert assets[..|assets| - 1][..n] == assets[..n];
      CapabilityRowsGrow(assets[..|assets| - 1], n);
      var last := assets[|assets| - 1];
      PrefixDuplicates(CapabilityRows(assets[..|assets| - 1]), Map(PairsFor(IdOf(last.record)), Capabilities(last.record)));
    }
  }

  lemma {:induction false} MemberRowsGrow(sets: seq<Json>, n: nat)
    requires n <= |sets| && !NoDuplicates(MemberRows(sets[..n]))
    ensures !NoDuplicates(MemberRows(sets))
  {
    hide NoDuplicates, SortedTexts, FieldOf, TextOf;
    if n == |sets| {
      assert sets[..n] == sets;
    } else {
      assert sets[..|sets| - 1][..n] == sets[..n];
      MemberRowsGrow(sets[..|sets| - 1], n);
      var last := sets[|sets| - 1];
      PrefixDuplicates(MemberRows(sets[..|sets| - 1]), Map(PairsFor(IdOf(last)), SortedTexts(last, MEMBERS)));
    }
  }

  /** Writes every table. `None` is the constraint violation that aborts the build. */
  method Build(sha: RawDigest, tree: KnowledgeTree, builtFrom: JsString) returns (r: Option<Index>)
    requires GoodTree(tree)
    ensures r == if Insertable(tree) then Some(IndexOf(sha, tree, builtFrom)) else None
  {
    hide AssetRowOf, FtsRowOf, SetRowOf, SortedTexts, Capabilities, GoodTree, NoDuplicates, Sort, KnowledgeTreeDigest, PartOf, TextOf;
    var assets: seq<AssetRow> := [];
    var capabilities: seq<Pair> := [];
    var fts: seq<FtsRow> := [];
    NoRows();
    for i := 0 to |tree.assets|
      invariant assets == Map(AssetRowOf(), tree.assets[..i]) && fts == Map(FtsRowOf(), tree.assets[..i])
      invariant capabilities == CapabilityRows(tree.assets[..i]) && NoDuplicates(capabilities)
    {
      var c := tree.assets[i];
      assert tree.assets[..i + 1][..i] == tree.assets[..i];
      MapStep(AssetRowOf(), tree.assets, i);
      MapStep(FtsRowOf(), tree.assets, i);
      assets := assets + [AssetRowOf()(c)];
      var inserted, ok := InsertPairs(capabilities, IdOf(c.record), Capabilities(c.record));
      if !ok {
        CapabilityRowsGrow(tree.assets, i + 1);
        return None;
      }
      capabilities := inserted;
      fts := fts + [FtsRowOf()(c)];
    }
    assert tree.assets[..|tree.assets|] == tree.assets;
    var sets: seq<SetRow> := [];
    var members: seq<Pair> := [];
    for i := 0 to |tree.sets|
      invariant sets == Map(SetRowOf(), tree.sets[..i])
      invariant members == MemberRows(tree.sets[..i]) && NoDuplicates(members)
    {
      var v := tree.sets[i];
      assert tree.sets[..i + 1][..i] == tree.sets[..i];
      MapStep(SetRowOf(), tree.sets, i);
      sets := sets + [SetRowOf()(v)];
      var inserted, ok := InsertPairs(members, IdOf(v), SortedTexts(v, MEMBERS));
      if !ok {
        MemberRowsGrow(tree.sets, i + 1);
        return None;
      }
      members := inserted;
    }
    assert tree.sets[..|tree.sets|] == tree.sets;
    var meta := Meta(INDEX_SCHEMA_VERSION, KnowledgeTreeDigest(sha, tree), Sort(Before16, Map(IdOfAsset(), tree.assets)), builtFrom);
    r := Some(Index(assets, capabilities, fts, sets, members, meta));
  }

  lemma NoRows()
    ensures NoDuplicates<Pair>([]) && CapabilityRows([]) == [] && MemberRows([]) == []
  {
  }

  // --- if it reaches the index, it reaches the digest ---------------------------------------------

  /** The same field on both sides, as a JSON value. */
  ghost predicate SameField(v: Json, w: Json, name: Name) {
    && (FieldOf(v, name).Some? <==> FieldOf(w, name).Some?)
    && (FieldOf(v, name).Some? ==> Same(FieldOf(v, name).value, FieldOf(w, name).value))
  }

  lemma FieldContent(v: Json, name: Name)
    requires v.Obj?
    ensures FieldOf(v, name) == if Ascii(name) in Content(v.members) then Some(Content(v.members)[Ascii(name)]) else None
  {
  }

  /** Records that agree after one field is replaced agree on every other field. */
  lemma {:induction false} OtherFields(v: Json, w: Json, replaced: Name, x: Json, y: Json, name: Name)
    requires v.Obj? && w.Obj? && Valid(v) && Valid(w) && Valid(x) && Valid(y)
    requires Same(Obj(With(v.members, Ascii(replaced), x)), Obj(With(w.members, Ascii(replaced), y)))
    ensures Same(x, y)
    ensures name != replaced ==> SameField(v, w, name)
  {
    hide Same, Valid, With, Lookup, Ascii, Content, FieldOf;
    AsciiFaithful(replaced, name);
    WithContent(v.members, Ascii(replaced), x);
    WithContent(w.members, Ascii(replaced), y);
    ObjectsAlike(With(v.members, Ascii(replaced), x), With(w.members, Ascii(replaced), y));
    var m, n := Content(v.members)[Ascii(replaced) := x], Content(w.members)[Ascii(replaced) := y];
    assert Same(m[Ascii(replaced)], n[Ascii(replaced)]);
    FieldContent(v, name);
    FieldContent(w, name);
    if name != replaced {
      assert Ascii(name) in m <==> Ascii(name) in Content(v.members);
      assert Ascii(name) in n <==> Ascii(name) in Content(w.members);
    }
  }

  lemma SameFieldText(v: Json, w: Json, name: Name)
    requires SameField(v, w, name)
    ensures TextOf(v, name) == TextOf(w, name) && OptionalOf(v, name) == OptionalOf(w, name)
  {
    hide FieldOf;
  }

  lemma {:induction false} NormalizedAssetFields(v: Json, w: Json, name: Name)
    requires IsAsset(v) && IsAsset(w) && Same(NormalizedAsset(v), NormalizedAsset(w))
    ensures Same(WithSorted(PartOf(v, PROBLEM), CAPABILITIES), WithSorted(PartOf(w, PROBLEM), CAPABILITIES))
    ensures name != PROBLEM ==> TextOf(v, name) == TextOf(w, name) && OptionalOf(v, name) == OptionalOf(w, name)
  {
    hide Same, Valid, With, WithSorted, PartOf, HasTexts, TextOf, OptionalOf, SameField;
    WithSortedValid(PartOf(v, PROBLEM), CAPABILITIES);
    WithSortedValid(PartOf(w, PROBLEM), CAPABILITIES);
    OtherFields(v, w, PROBLEM, WithSorted(PartOf(v, PROBLEM), CAPABILITIES), WithSorted(PartOf(w, PROBLEM), CAPABILITIES), name);
    if name != PROBLEM { SameFieldText(v, w, name); }
  }

  lemma {:induction false} SortedFields(v: Json, w: Json, list: Name, name: Name)
    requires HasTexts(v, list) && HasTexts(w, list) && Same(WithSorted(v, list), WithSorted(w, list))
    ensures SortedTexts(v, list) == SortedTexts(w, list)
    ensures name != list ==> TextOf(v, name) == TextOf(w, name) && OptionalOf(v, name) == OptionalOf(w, name)
  {
    hide Same, Valid, With, SortedTexts, TextOf, OptionalOf, SameField, FieldOf, TextsJson;
    SortedTextsValid(v, list);
    SortedTextsValid(w, list);
    OtherFields(v, w, list, TextsJson(SortedTexts(v, list)), TextsJson(SortedTexts(w, list)), name);
    TextsSame(SortedTexts(v, list), SortedTexts(w, list));
    if name != list { SameFieldText(v, w, name); }
  }

  /** The digests agree exactly on the normalized records and the normalized bodies. */
  lemma DigestPins(sha: RawDigest, t: KnowledgeTree, u: KnowledgeTree)
    requires GoodTree(t) && GoodTree(u) && KnowledgeTreeDigest(sha, t) == KnowledgeTreeDigest(sha, u)
    requires Valid(TreeJson(sha, t)) && Valid(TreeJson(sha, u))
    requires NoCollision(sha, CanonicalBytes(TreeJson(sha, t)), CanonicalBytes(TreeJson(sha, u)))
    ensures |t.assets| == |u.assets| && |t.sets| == |u.sets|
    ensures forall i :: 0 <= i < |t.assets| ==> Same(NormalizedAsset(t.assets[i].record), NormalizedAsset(u.assets[i].record))
    ensures forall i :: 0 <= i < |t.sets| ==> Same(WithSorted(t.sets[i], MEMBERS), WithSorted(u.sets[i], MEMBERS))
  {
    hide GoodTree, CanonicalBytes, Valid, WithSorted, NormalizedAsset, Fields;
    var a, b := TreeJson(sha, t), TreeJson(sha, u);
    TextualFaithful(sha, CanonicalBytes(a), CanonicalBytes(b));
    DigestIdentity(Textual(sha), a, b);
    TreeParts(sha, t, u);
    var xs, ys := Map(EntryOf(sha), t.assets), Map(EntryOf(sha), u.assets);
    forall i | 0 <= i < |t.assets| ensures Same(NormalizedAsset(t.assets[i].record), NormalizedAsset(u.assets[i].record)) {
      assert Same(xs[i], ys[i]);
      EntryParts(sha, t.assets[i], u.assets[i]);
    }
    var ss, ts := Map(NormalizedSet(), t.sets), Map(NormalizedSet(), u.sets);
    forall i | 0 <= i < |t.sets| ensures Same(WithSorted(t.sets[i], MEMBERS), WithSorted(u.sets[i], MEMBERS)) {
      assert Same(ss[i], ts[i]);
    }
  }

  lemma TreeParts(sha: RawDigest, t: KnowledgeTree, u: KnowledgeTree)
    requires Same(TreeJson(sha, t), TreeJson(sha, u))
    ensures Same(Arr(Map(EntryOf(sha), t.assets)), Arr(Map(EntryOf(sha), u.assets)))
    ensures Same(Arr(Map(NormalizedSet(), t.sets)), Arr(Map(NormalizedSet(), u.sets)))
  {
    hide Same, Fields, EntryOf, NormalizedSet, Ascii;
    var vs := [Str(INDEX_SCHEMA_VERSION), Arr(Map(EntryOf(sha), t.assets)), Arr(Map(NormalizedSet(), t.sets))];
    var ws := [Str(INDEX_SCHEMA_VERSION), Arr(Map(EntryOf(sha), u.assets)), Arr(Map(NormalizedSet(), u.sets))];
    FieldsSame(TREE, vs, ws);
    assert Same(vs[1], ws[1]) && Same(vs[2], ws[2]);
  }

  lemma {:induction false} EntryParts(sha: RawDigest, c: Compiled, d: Compiled)
    requires Same(EntryOf(sha)(c), EntryOf(sha)(d))
    ensures Same(NormalizedAsset(c.record), NormalizedAsset(d.record))
  {
    hide Same, Fields, NormalizedAsset, Ascii;
    var vs, ws := [NormalizedAsset(c.record), Str(Sha256Text(sha, c.body))], [NormalizedAsset(d.record), Str(Sha256Text(sha, d.body))];
    FieldsSame(ENTRY, vs, ws);
    assert Same(vs[0], ws[0]);
  }

  /** Bodies agree byte for byte, because each record's content hash was checked against its files. */
  lemma {:induction false} BodiesAgree(w: World, a: AssetDir, b: AssetDir)
    requires Sound(w, a) && Sound(w, b)
    requires NoCollisions(w.nfc, Textual(w.sha), FileSet(a), FileSet(b))
    requires TextOf(a.record.value, CONTENT_HASH) == TextOf(b.record.value, CONTENT_HASH)
    requires TextOf(a.record.value, BODY) == TextOf(b.record.value, BODY)
    ensures a.body == b.body
  {
    hide HashFileSet, TextOf, NoCollisions, PathOf;
    var xs, ys := FileSet(a), FileSet(b);
    var path, bytes := PathOf(w.nfc, xs[0]), a.body.value;
    assert Holds(w.nfc, xs, path, bytes);
    HashIdentifiesFiles(w.nfc, Textual(w.sha), xs, ys, path, bytes);
    HashedAdmissible(w.nfc, Textual(w.sha), ys);
    SamePath(w.nfc, xs[0], ys[0]);
    var j :| 0 <= j < |ys| && PathOf(w.nfc, ys[j]) == path && ys[j].bytes == bytes;
    var ps := Paths(w.nfc, ys);
    assert ps[j] == ps[0];
  }

  lemma {:induction false} SamePath(nfc: Nfc, f: File, g: File)
    requires f.path == g.path
    ensures PathOf(nfc, f) == PathOf(nfc, g)
  {
  }

  lemma {:induction false} HashedAdmissible(nfc: Nfc, sha: Digest, files: seq<File>)
    requires HashFileSet(nfc, sha, files).Some?
    ensures NoDuplicates(Paths(nfc, files))
  {
  }

  ghost predicate SameAssetRow(r: AssetRow, s: AssetRow) {
    && r.(record := Null) == s.(record := Null)
    && Same(NormalizedAsset(r.record), NormalizedAsset(s.record))
  }

  ghost predicate SameSetRow(r: SetRow, s: SetRow) {
    && r.(record := Null) == s.(record := Null)
    && Same(WithSorted(r.record, MEMBERS), WithSorted(s.record, MEMBERS))
  }

  /** Equal in every table, up to the order an author gave a set, inside a record's text. */
  ghost predicate SameIndex(x: Index, y: Index) {
    && |x.assets| == |y.assets| && (forall i :: 0 <= i < |x.assets| ==> SameAssetRow(x.assets[i], y.assets[i]))
    && x.capabilities == y.capabilities && x.fts == y.fts
    && |x.sets| == |y.sets| && (forall i :: 0 <= i < |x.sets| ==> SameSetRow(x.sets[i], y.sets[i]))
    && x.members == y.members
    && x.meta.(builtFrom := []) == y.meta.(builtFrom := [])
  }

  lemma {:induction false} AssetRowsAgree(c: Compiled, d: Compiled)
    requires IsAsset(c.record) && IsAsset(d.record) && Same(NormalizedAsset(c.record), NormalizedAsset(d.record))
    ensures SameAssetRow(AssetRowOf()(c), AssetRowOf()(d))
    ensures Capabilities(c.record) == Capabilities(d.record) && IdOf(c.record) == IdOf(d.record)
    ensures TextOf(c.record, CONTENT_HASH) == TextOf(d.record, CONTENT_HASH) && TextOf(c.record, BODY) == TextOf(d.record, BODY)
    ensures c.body == d.body ==> FtsRowOf()(c) == FtsRowOf()(d)
  {
    hide TextOf, OptionalOf, NormalizedAsset, Same, Valid, PartOf, WithSorted, HasTexts, SortedTexts;
    var v, w := c.record, d.record;
    NormalizedAssetFields(v, w, ID);
    NormalizedAssetFields(v, w, TYPE);
    NormalizedAssetFields(v, w, SLUG);
    NormalizedAssetFields(v, w, TITLE);
    NormalizedAssetFields(v, w, SUMMARY);
    NormalizedAssetFields(v, w, STATUS);
    NormalizedAssetFields(v, w, SOLUTION_SET_ID);
    NormalizedAssetFields(v, w, CONTENT_HASH);
    NormalizedAssetFields(v, w, BODY);
    SortedFields(PartOf(v, PROBLEM), PartOf(w, PROBLEM), CAPABILITIES, ID);
  }

  lemma {:induction false} SetRowsAgree(v: Json, w: Json)
    requires IsSolutionSet(v) && IsSolutionSet(w) && Same(WithSorted(v, MEMBERS), WithSorted(w, MEMBERS))
    ensures SameSetRow(SetRowOf()(v), SetRowOf()(w))
    ensures SortedTexts(v, MEMBERS) == SortedTexts(w, MEMBERS) && IdOf(v) == IdOf(w)
  {
    hide TextOf, OptionalOf, Same, Valid, WithSorted, HasTexts, SortedTexts;
    SortedFields(v, w, MEMBERS, ID);
    SortedFields(v, w, MEMBERS, PROBLEM_ID);
    SortedFields(v, w, MEMBERS, CANONICAL_STATE);
    SortedFields(v, w, MEMBERS, CHAMPION_ID);
  }

  lemma {:induction false} CapabilityRowsAgree(xs: seq<Compiled>, ys: seq<Compiled>)
    requires |xs| == |ys|
    requires forall i :: 0 <= i < |xs| ==> IdOf(xs[i].record) == IdOf(ys[i].record) && Capabilities(xs[i].record) == Capabilities(ys[i].record)
    ensures CapabilityRows(xs) == CapabilityRows(ys)
  {
    hide TextOf, Capabilities;
    if xs != [] {
      CapabilityRowsAgree(xs[..|xs| - 1], ys[..|ys| - 1]);
    }
  }

  lemma {:induction false} MemberRowsAgree(xs: seq<Json>, ys: seq<Json>)
    requires |xs| == |ys|
    requires forall i :: 0 <= i < |xs| ==> IdOf(xs[i]) == IdOf(ys[i]) && SortedTexts(xs[i], MEMBERS) == SortedTexts(ys[i], MEMBERS)
    ensures MemberRows(xs) == MemberRows(ys)
  {
    hide TextOf, SortedTexts;
    if xs != [] {
      MemberRowsAgree(xs[..|xs| - 1], ys[..|ys| - 1]);
    }
  }

  lemma {:induction false} DigestPinsRows(sha: RawDigest, t: KnowledgeTree, u: KnowledgeTree, x: JsString, y: JsString)
    requires GoodTree(t) && GoodTree(u) && KnowledgeTreeDigest(sha, t) == KnowledgeTreeDigest(sha, u)
    requires |t.assets| == |u.assets| && |t.sets| == |u.sets|
    requires forall i :: 0 <= i < |t.assets| ==> Same(NormalizedAsset(t.assets[i].record), NormalizedAsset(u.assets[i].record))
    requires forall i :: 0 <= i < |t.sets| ==> Same(WithSorted(t.sets[i], MEMBERS), WithSorted(u.sets[i], MEMBERS))
    requires forall i :: 0 <= i < |t.assets| ==> t.assets[i].body == u.assets[i].body
    ensures SameIndex(IndexOf(sha, t, x), IndexOf(sha, u, y))
    ensures Insertable(t) <==> Insertable(u)
  {
    hide NormalizedAsset, WithSorted, Same, IsAsset, IsSolutionSet, TextOf, Capabilities, SortedTexts, SameAssetRow, SameSetRow, AssetRowOf, FtsRowOf, SetRowOf,
         KnowledgeTreeDigest, NoDuplicates, Sort;
    forall i | 0 <= i < |t.assets|
      ensures SameAssetRow(AssetRowOf()(t.assets[i]), AssetRowOf()(u.assets[i])) && FtsRowOf()(t.assets[i]) == FtsRowOf()(u.assets[i])
      ensures IdOf(t.assets[i].record) == IdOf(u.assets[i].record) && Capabilities(t.assets[i].record) == Capabilities(u.assets[i].record)
    {
      AssetRowsAgree(t.assets[i], u.assets[i]);
    }
    forall i | 0 <= i < |t.sets|
      ensures SameSetRow(SetRowOf()(t.sets[i]), SetRowOf()(u.sets[i]))
      ensures IdOf(t.sets[i]) == IdOf(u.sets[i]) && SortedTexts(t.sets[i], MEMBERS) == SortedTexts(u.sets[i], MEMBERS)
    {
      SetRowsAgree(t.sets[i], u.sets[i]);
    }
    CapabilityRowsAgree(t.assets, u.assets);
    MemberRowsAgree(t.sets, u.sets);
    assert Map(FtsRowOf(), t.assets) == Map(FtsRowOf(), u.assets);
    assert Map(IdOfAsset(), t.assets) == Map(IdOfAsset(), u.assets);
  }

  // --- from listings ---------------------------------------------------------------------------------

  ghost predicate CameFrom(w: World, dirs: seq<AssetDir>, c: Compiled) {
    exists i :: 0 <= i < |dirs| && Sound(w, dirs[i]) && c == CompiledOf(w)(dirs[i])
  }

  lemma {:induction false} TreeComesFrom(w: World, listing: Listing)
    requires Parsed(listing) && SoundAssets(w, listing.assets) && SoundSets(listing.sets)
    ensures GoodTree(TreeOf(w, listing))
    ensures forall i :: 0 <= i < |TreeOf(w, listing).assets| ==> CameFrom(w, listing.assets, TreeOf(w, listing).assets[i])
  {
    hide Sort, IsAsset, IsSolutionSet, HashFileSet;
    var t, cs, vs := TreeOf(w, listing), Map(CompiledOf(w), listing.assets), Map(SetValue(), listing.sets);
    SameElements(cs, t.assets);
    SameElements(vs, t.sets);
    forall i | 0 <= i < |t.assets| ensures CameFrom(w, listing.assets, t.assets[i]) && IsAsset(t.assets[i].record) {
      assert t.assets[i] in Elements(t.assets);
      assert t.assets[i] in Elements(cs);
      var k :| 0 <= k < |cs| && cs[k] == t.assets[i];
      assert Sound(w, listing.assets[k]);
    }
    forall i | 0 <= i < |t.sets| ensures IsSolutionSet(t.sets[i]) {
      assert t.sets[i] in Elements(t.sets);
      assert t.sets[i] in Elements(vs);
      var k :| 0 <= k < |vs| && vs[k] == t.sets[i];
      assert listing.sets[k].Some?;
    }
  }

  ghost predicate NoFileCollisions(w: World, a: seq<AssetDir>, b: seq<AssetDir>) {
    forall i, j :: 0 <= i < |a| && 0 <= j < |b| && Sound(w, a[i]) && Sound(w, b[j]) ==>
      NoCollisions(w.nfc, Textual(w.sha), FileSet(a[i]), FileSet(b[j]))
  }

  lemma {:induction false} SameRecordSameBody(w: World, a: seq<AssetDir>, b: seq<AssetDir>, c: Compiled, d: Compiled)
    requires CameFrom(w, a, c) && CameFrom(w, b, d) && NoFileCollisions(w, a, b)
    requires TextOf(c.record, CONTENT_HASH) == TextOf(d.record, CONTENT_HASH) && TextOf(c.record, BODY) == TextOf(d.record, BODY)
    ensures c.body == d.body
  {
    hide HashFileSet, TextOf, NoCollisions;
    var i :| 0 <= i < |a| && Sound(w, a[i]) && c == CompiledOf(w)(a[i]);
    var j :| 0 <= j < |b| && Sound(w, b[j]) && d == CompiledOf(w)(b[j]);
    BodiesAgree(w, a[i], b[j]);
  }

  ghost predicate Accepted(w: World, listing: Listing) {
    Parsed(listing) && SoundAssets(w, listing.assets) && SoundSets(listing.sets)
  }

  /** The tree that reading an accepted listing gives. */
  ghost function TreeRead(w: World, listing: Listing): (t: KnowledgeTree)
    requires Accepted(w, listing)
    ensures GoodTree(t) && t == TreeOf(w, listing)
  {
    TreeComesFrom(w, listing);
    TreeOf(w, listing)
  }

  ghost predicate NoTreeCollision(sha: RawDigest, t: KnowledgeTree, u: KnowledgeTree)
    requires GoodTree(t) && GoodTree(u)
  {
    TreeJsonValid(sha, t);
    TreeJsonValid(sha, u);
    NoCollision(sha, CanonicalBytes(TreeJson(sha, t)), CanonicalBytes(TreeJson(sha, u)))
  }

  /**
   * If it reaches the index, it reaches the digest: short of a collision, two accepted
   * listings with one digest compile to the same rows in every table, wherever their
   * files sit, or both fail to compile.
   */
  lemma {:induction false} DigestCoversIndex(w: World, a: Listing, b: Listing, x: JsString, y: JsString)
    requires Accepted(w, a) && Accepted(w, b)
    requires KnowledgeTreeDigest(w.sha, TreeRead(w, a)) == KnowledgeTreeDigest(w.sha, TreeRead(w, b))
    requires NoFileCollisions(w, a.assets, b.assets) && NoTreeCollision(w.sha, TreeRead(w, a), TreeRead(w, b))
    ensures SameIndex(IndexOf(w.sha, TreeRead(w, a), x), IndexOf(w.sha, TreeRead(w, b), y))
    ensures Insertable(TreeRead(w, a)) <==> Insertable(TreeRead(w, b))
  {
    hide TreeOf, SoundAssets, SoundSets, Parsed, NoFileCollisions, CameFrom, KnowledgeTreeDigest, TreeJson, CanonicalBytes, Valid, Same,
         NormalizedAsset, WithSorted, SameIndex, Insertable, IndexOf, TextOf, IsAsset, IsSolutionSet;
    TreeComesFrom(w, a);
    TreeComesFrom(w, b);
    var t, u := TreeRead(w, a), TreeRead(w, b);
    TreeJsonValid(w.sha, t);
    TreeJsonValid(w.sha, u);
    DigestPins(w.sha, t, u);
    forall i | 0 <= i < |t.assets| ensures t.assets[i].body == u.assets[i].body {
      AssetRowsAgree(t.assets[i], u.assets[i]);
      SameRecordSameBody(w, a.assets, b.assets, t.assets[i], u.assets[i]);
    }
    DigestPinsRows(w.sha, t, u, x, y);
  }

  // --- when the build aborts --------------------------------------------------------------------------

  lemma {:induction false} CapabilityOwners(assets: seq<Compiled>)
    ensures forall row :: row in CapabilityRows(assets) ==> exists i :: 0 <= i < |assets| && IdOf(assets[i].record) == row.owner
  {
    hide TextOf, Capabilities;
    if assets != [] {
      var front, last := assets[..|assets| - 1], assets[|assets| - 1];
      CapabilityOwners(front);
      forall row | row in CapabilityRows(assets) ensures exists i :: 0 <= i < |assets| && IdOf(assets[i].record) == row.owner {
        if row in CapabilityRows(front) {
          var i :| 0 <= i < |front| && IdOf(front[i].record) == row.owner;
          assert assets[i] == front[i];
        } else {
          assert IdOf(assets[|assets| - 1].record) == row.owner;
        }
      }
    }
  }

  lemma {:induction false} MemberOwners(sets: seq<Json>)
    ensures forall row :: row in MemberRows(sets) ==> exists i :: 0 <= i < |sets| && IdOf(sets[i]) == row.owner
  {
    hide TextOf, SortedTexts;
    if sets != [] {
      var front, last := sets[..|sets| - 1], sets[|sets| - 1];
      MemberOwners(front);
      forall row | row in MemberRows(sets) ensures exists i :: 0 <= i < |sets| && IdOf(sets[i]) == row.owner {
        if row in MemberRows(front) {
          var i :| 0 <= i < |front| && IdOf(front[i]) == row.owner;
          assert sets[i] == front[i];
        } else {
          assert IdOf(sets[|sets| - 1]) == row.owner;
        }
      }
    }
  }

  /** Rows under a new owner repeat exactly when the new owner's items do. */
  lemma PairsDistinct(table: seq<Pair>, owner: JsString, items: seq<JsString>)
    requires forall row :: row in table ==> row.owner != owner
    ensures NoDuplicates(table + Map(PairsFor(owner), items)) <==> NoDuplicates(table) && NoDuplicates(items)
  {
    var pairs := Map(PairsFor(owner), items);
    var all := table + pairs;
    assert forall i :: 0 <= i < |table| ==> all[i] == table[i] && table[i] in table;
    assert forall j :: 0 <= j < |items| ==> all[|table| + j] == Pair(owner, items[j]);
    if NoDuplicates(all) {
      forall i, j | 0 <= i < j < |items| ensures items[i] != items[j] { assert all[|table| + i] != all[|table| + j]; }
      forall i, j | 0 <= i < j < |table| ensures table[i] != table[j] { assert all[i] != all[j]; }
    }
  }

  lemma SortedRepeats(v: Json, name: Name)
    ensures NoDuplicates(SortedTexts(v, name)) <==> NoDuplicates(TextsOf(v, name))
  {
    if NoDuplicates(TextsOf(v, name)) { NoDuplicatesPermutes(TextsOf(v, name), SortedTexts(v, name)); }
    if NoDuplicates(SortedTexts(v, name)) { NoDuplicatesPermutes(SortedTexts(v, name), TextsOf(v, name)); }
  }

  lemma {:induction false} CapabilityRowsDistinct(assets: seq<Compiled>)
    requires NoDuplicates(Map(IdOfAsset(), assets))
    ensures NoDuplicates(CapabilityRows(assets)) <==>
            forall i :: 0 <= i < |assets| ==> NoDuplicates(TextsOf(PartOf(assets[i].record, PROBLEM), CAPABILITIES))
  {
    hide NoDuplicates, TextOf, TextsOf, PartOf, SortedTexts;
    if assets != [] {
      var front, last := assets[..|assets| - 1], assets[|assets| - 1];
      OwnersDistinct(assets);
      CapabilityRowsDistinct(front);
      CapabilityOwners(front);
      PairsDistinct(CapabilityRows(front), IdOf(last.record), Capabilities(last.record));
      SortedRepeats(PartOf(last.record, PROBLEM), CAPABILITIES);
      assert forall i :: 0 <= i < |front| ==> front[i] == assets[i];
    } else {
      NoRows();
    }
  }

  lemma OwnersDistinct(assets: seq<Compiled>)
    requires assets != [] && NoDuplicates(Map(IdOfAsset(), assets))
    ensures var front, last := assets[..|assets| - 1], assets[|assets| - 1];
            && NoDuplicates(Map(IdOfAsset(), front))
            && forall i :: 0 <= i < |front| ==> IdOf(front[i].record) != IdOf(last.record)
  {
    hide TextOf;
    var ids := Map(IdOfAsset(), assets);
    var front := assets[..|assets| - 1];
    assert forall i :: 0 <= i < |front| ==> Map(IdOfAsset(), front)[i] == ids[i];
    assert forall i :: 0 <= i < |front| ==> ids[i] != ids[|assets| - 1];
  }

  function IdOfSet(): Json -> JsString { (v: Json) => IdOf(v) }

  lemma {:induction false} MemberRowsDistinct(sets: seq<Json>)
    requires NoDuplicates(Map(IdOfSet(), sets))
    ensures NoDuplicates(MemberRows(sets)) <==> forall i :: 0 <= i < |sets| ==> NoDuplicates(TextsOf(sets[i], MEMBERS))
  {
    hide NoDuplicates, TextOf, TextsOf, SortedTexts;
    if sets != [] {
      var front, last := sets[..|sets| - 1], sets[|sets| - 1];
      SetOwnersDistinct(sets);
      MemberRowsDistinct(front);
      MemberOwners(front);
      PairsDistinct(MemberRows(front), IdOf(last), SortedTexts(last, MEMBERS));
      SortedRepeats(last, MEMBERS);
      assert forall i :: 0 <= i < |front| ==> front[i] == sets[i];
    } else {
      NoRows();
    }
  }

  lemma SetOwnersDistinct(sets: seq<Json>)
    requires sets != [] && NoDuplicates(Map(IdOfSet(), sets))
    ensures var front, last := sets[..|sets| - 1], sets[|sets| - 1];
            && NoDuplicates(Map(IdOfSet(), front))
            && forall i :: 0 <= i < |front| ==> IdOf(front[i]) != IdOf(last)
  {
    hide TextOf;
    var ids := Map(IdOfSet(), sets);
    var front := sets[..|sets| - 1];
    assert forall i :: 0 <= i < |front| ==> Map(IdOfSet(), front)[i] == ids[i];
    assert forall i :: 0 <= i < |front| ==> ids[i] != ids[|sets| - 1];
  }

  lemma TreeIdsDistinct(w: World, listing: Listing)
    requires SoundAssets(w, listing.assets) && SoundSets(listing.sets)
    ensures NoDuplicates(Map(IdOfAsset(), TreeOf(w, listing).assets)) && NoDuplicates(Map(IdOfSet(), TreeOf(w, listing).sets))
  {
    hide Sort, TextOf, Sound;
    var cs, vs := Map(CompiledOf(w), listing.assets), Map(SetValue(), listing.sets);
    assert Map(IdOfAsset(), cs) == Map(DirId(), listing.assets) by { SoundIds(w, listing); }
    assert Map(IdOfSet(), vs) == Map(SetId(), listing.sets) by { SoundIds(w, listing); }
    MapPermutes(IdOfAsset(), cs, TreeOf(w, listing).assets);
    MapPermutes(IdOfSet(), vs, TreeOf(w, listing).sets);
    NoDuplicatesPermutes(Map(IdOfAsset(), cs), Map(IdOfAsset(), TreeOf(w, listing).assets));
    NoDuplicatesPermutes(Map(IdOfSet(), vs), Map(IdOfSet(), TreeOf(w, listing).sets));
  }

  lemma SoundIds(w: World, listing: Listing)
    requires SoundAssets(w, listing.assets) && SoundSets(listing.sets)
    ensures Map(IdOfAsset(), Map(CompiledOf(w), listing.assets)) == Map(DirId(), listing.assets)
    ensures Map(IdOfSet(), Map(SetValue(), listing.sets)) == Map(SetId(), listing.sets)
  {
    hide TextOf, HashFileSet;
  }

  /** An accepted tree compiles exactly when no asset repeats a capability and no set a member. */
  lemma {:induction false} BuildsExactly(w: World, listing: Listing)
    requires SoundAssets(w, listing.assets) && SoundSets(listing.sets)
    ensures var t := TreeOf(w, listing);
            Insertable(t) <==>
              && (forall i :: 0 <= i < |t.assets| ==> NoDuplicates(TextsOf(PartOf(t.assets[i].record, PROBLEM), CAPABILITIES)))
              && (forall i :: 0 <= i < |t.sets| ==> NoDuplicates(TextsOf(t.sets[i], MEMBERS)))
  {
    hide Sort, NoDuplicates, TextsOf, PartOf, Sound, SoundAssets, SoundSets, TreeOf;
    TreeIdsDistinct(w, listing);
    CapabilityRowsDistinct(TreeOf(w, listing).assets);
    MemberRowsDistinct(TreeOf(w, listing).sets);
  }

  const BODY_MD: JsString := Ascii("body.md")
  const RECORD: seq<Name> := [ID, PROBLEM, CONTENT_HASH, BODY]
  const PROBLEM_FIELDS: seq<Name> := [ID, CAPABILITIES]
  const TWICE: seq<JsString> := [Ascii("c"), Ascii("c")]

  lemma BodyFileHashes(w: World)
    requires w.nfc(BODY_MD) == BODY_MD
    ensures HashFileSet(w.nfc, Textual(w.sha), [File(BODY_MD, [])]).Some?
    ensures WellFormed(HashFileSet(w.nfc, Textual(w.sha), [File(BODY_MD, [])]).value)
  {
    hide WellFormed, Normalize.NormalizeRelativePosixPath, ManifestJson, Encode;
    var files := [File(BODY_MD, [])];
    Normalize.PlainPath(w.nfc, BODY_MD);
    AsciiFaithful("body.md", "body.md");
    TextualFaithful(w.sha, [], []);
    var es := Map(FileManifest.EntryOf(w.nfc, Textual(w.sha)), files);
    assert FileManifest.AllWellFormed(es);
    SortedWellFormed(w.nfc, Textual(w.sha), files);
    ManifestJsonValid(SortedEntries(w.nfc, Textual(w.sha), files));
    TextualFaithful(w.sha, CanonicalBytes(ManifestJson(SortedEntries(w.nfc, Textual(w.sha), files))), []);
  }

  ghost function TwiceProblem(): Json { Obj(Fields(PROBLEM_FIELDS, [Str(Ascii("p")), TextsJson(TWICE)])) }

  ghost function TwiceRecord(hash: JsString): Json {
    Obj(Fields(RECORD, [Str(Ascii("a")), TwiceProblem(), Str(hash), Str(BODY_MD)]))
  }

  lemma TwiceProblemFields()
    ensures var p := TwiceProblem(); Valid(p) && HasTexts(p, CAPABILITIES) && TextsOf(p, CAPABILITIES) == TWICE
  {
    hide WellFormed, Fields, FieldOf;
    var ps := [Str(Ascii("p")), TextsJson(TWICE)];
    NamesOfTwice();
    AsciiFaithful("p", "p");
    AsciiFaithful("c", "c");
    TextsValid(TWICE);
    FieldsValid(PROBLEM_FIELDS, ps);
    FieldAt(PROBLEM_FIELDS, ps, 1);
    assert Map(TextOfJson, Map(TextJson, TWICE)) == TWICE;
  }

  lemma TwiceFields(hash: JsString)
    requires WellFormed(hash)
    ensures var v := TwiceRecord(hash);
            && IsAsset(v) && TextOf(v, CONTENT_HASH) == hash && TextOf(v, BODY) == BODY_MD
            && TextsOf(PartOf(v, PROBLEM), CAPABILITIES) == TWICE
  {
    hide WellFormed, Fields, FieldOf, TwiceProblem, TextsOf, HasTexts;
    var vs := [Str(Ascii("a")), TwiceProblem(), Str(hash), Str(BODY_MD)];
    NamesOfTwice();
    AsciiFaithful("a", "a");
    AsciiFaithful("body.md", "body.md");
    TwiceProblemFields();
    FieldsValid(RECORD, vs);
    FieldAt(RECORD, vs, 1);
    FieldAt(RECORD, vs, 2);
    FieldAt(RECORD, vs, 3);
  }

  lemma NamesOfTwice()
    ensures DistinctNames(RECORD) && DistinctNames(PROBLEM_FIELDS)
  {
    assert forall i :: 0 <= i < |RECORD| ==> forall j :: i < j < |RECORD| ==> |RECORD[i]| != |RECORD[j]|;
  }

  /** A listing that reading and the digest accept, and that does not compile. */
  lemma {:induction false} RepeatedCapabilityAborts(w: World)
    requires w.nfc(BODY_MD) == BODY_MD
    ensures exists listing :: Accepted(w, listing) && !Insertable(TreeOf(w, listing))
  {
    hide HashFileSet, TwiceRecord, IsAsset, TextOf, TextsOf, PartOf, WellFormed, Insertable;
    BodyFileHashes(w);
    var hash := HashFileSet(w.nfc, Textual(w.sha), [File(BODY_MD, [])]).value;
    TwiceFields(hash);
    var dir := AssetDir(Some(TwiceRecord(hash)), Some([]), []);
    assert FileSet(dir) == [File(BODY_MD, [])];
    var listing := Listing([dir], []);
    assert Accepted(w, listing);
    var t := TreeOf(w, listing);
    assert t.assets[0].record == TwiceRecord(hash) by { OneAsset(w, dir); }
    assert TWICE[0] == TWICE[1];
    BuildsExactly(w, listing);
  }

  lemma OneAsset(w: World, dir: AssetDir)
    ensures TreeOf(w, Listing([dir], [])).assets == [CompiledOf(w)(dir)]
  {
    var cs := Map(CompiledOf(w), [dir]);
    assert cs == [CompiledOf(w)(dir)] && cs[1..] == [];
    assert Sort(AssetBefore, cs[1..]) == [];
  }
}
