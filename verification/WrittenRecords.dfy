/**
 * Which JSON records are hashed: every field under the name it is written with.
 */
module WrittenRecords {
  import opened Wrappers
  import opened Text
  import opened Sorting
  import opened StringOrder
  import opened CanonicalJson
  import opened Sha256
  import opened Records
  import opened Evidence
  import Attribution
  import BuildIndex
  import ContextSnapshots
  import FileManifest
  import Replay

  const REPO_SHA: Name := "repo_sha"
  const PROFILE_STATUS_DIGEST: Name := "profile_status_digest"
  const CHANGE_SCOPE: Name := "change_scope"
  const CAPABILITY_SNAPSHOT_HASH: Name := "capability_snapshot_hash"
  const INDEX_DIGEST: Name := "index_digest"
  const RANKING_MODE: Name := "ranking_mode"
  const EFFECTIVE_SCORE_VIEW_ID: Name := "effective_score_view_id"
  const EOS_RELEASE: Name := "eos_release"
  const DERIVER_ID: Name := "deriver_id"
  const DERIVER_VERSION: Name := "deriver_version"
  const INPUT_SNAPSHOT_HASH: Name := "input_snapshot_hash"
  const RUN_ID: Name := "run_id"
  const EVENT_IDS: Name := "event_ids"
  const EXTERNAL_INPUTS: Name := "external_inputs"
  const SOURCE_EVENT_IDS: Name := "source_event_ids"
  const ID: Name := "id"
  const KIND: Name := "kind"
  const VALUE: Name := "value"
  const PATH: Name := "path"
  const SHA256: Name := "sha256"
  const FILES: Name := "files"
  const SCHEMA_VERSION: Name := "schema_version"
  const ASSETS: Name := "assets"
  const SOLUTION_SETS: Name := "solution_sets"
  const RECORD: Name := "record"
  const BODY_HASH: Name := "body_hash"

  /** `v` is an object with exactly these fields. */
  ghost predicate IsRecord(v: Json, fields: map<Name, Json>) {
    && v.Obj? && |v.members| == |fields|
    && forall n :: n in fields ==> FieldOf(v, n) == Some(fields[n])
  }

  lemma {:induction false} RecordIs(names: seq<Name>, values: seq<Json>, fields: map<Name, Json>)
    requires |names| == |values| == |fields| && DistinctNames(names)
    requires forall i :: 0 <= i < |names| ==> names[i] in fields && fields[names[i]] == values[i]
    ensures IsRecord(Obj(Fields(names, values)), fields)
  {
    hide FieldOf;
    forall n | n in fields ensures FieldOf(Obj(Fields(names, values)), n) == Some(fields[n]) {
      AllNamed(names, fields, n);
      var i :| 0 <= i < |names| && names[i] == n;
      FieldAt(names, values, i);
    }
  }

  /** Distinct names, as many as there are fields, leave out none of them. */
  lemma AllNamed(names: seq<Name>, fields: map<Name, Json>, n: Name)
    requires |names| == |fields| && DistinctNames(names) && n in fields
    requires forall i :: 0 <= i < |names| ==> names[i] in fields
    ensures n in names
  {
    var named := set m | m in names;
    NamesCount(names);
    if n !in names {
      assert named <= fields.Keys - {n};
      SubsetSize(named, fields.Keys - {n});
    }
  }

  lemma {:induction false} NamesCount(names: seq<Name>)
    requires DistinctNames(names)
    ensures |(set m | m in names)| == |names|
  {
    if names != [] {
      var front, last := names[..|names| - 1], names[|names| - 1];
      NamesCount(front);
      assert names == front + [last];
      assert (set m | m in names) == (set m | m in front) + {last};
    }
  }

  lemma SubsetSize<T>(a: set<T>, b: set<T>)
    requires a <= b
    ensures |a| <= |b|
  {
    assert b == a + (b - a);
  }

  /** Two fields, three fields: the shapes that recur. */
  lemma TwoFields(a: Name, x: Json, b: Name, y: Json)
    requires a != b
    ensures IsRecord(Obj([(Ascii(a), x), (Ascii(b), y)]), map[a := x, b := y])
  {
    hide IsRecord, Ascii;
    RecordIs([a, b], [x, y], map[a := x, b := y]);
    assert Fields([a, b], [x, y]) == [(Ascii(a), x), (Ascii(b), y)];
  }

  lemma ThreeFields(a: Name, x: Json, b: Name, y: Json, c: Name, z: Json)
    requires a != b && a != c && b != c
    ensures IsRecord(Obj([(Ascii(a), x), (Ascii(b), y), (Ascii(c), z)]), map[a := x, b := y, c := z])
  {
    hide IsRecord, Ascii;
    RecordIs([a, b, c], [x, y, z], map[a := x, b := y, c := z]);
    assert Fields([a, b, c], [x, y, z]) == [(Ascii(a), x), (Ascii(b), y), (Ascii(c), z)];
  }

  // --- a context snapshot's id --------------------------------------------------------------

  ghost function ContextRecord(c: SnapshotContent): map<Name, Json> {
    map[REPO_SHA := Str(c.repoSha), PROFILE_STATUS_DIGEST := Str(c.profileStatusDigest), CHANGE_SCOPE := TextsJson(c.changeScope),
        CAPABILITY_SNAPSHOT_HASH := Str(c.capabilitySnapshotHash), INDEX_DIGEST := Str(c.indexDigest),
        RANKING_MODE := Str(c.rankingMode), EFFECTIVE_SCORE_VIEW_ID := Str(c.effectiveScoreViewId), EOS_RELEASE := Str(c.eosRelease)]
  }

  lemma ContextNames()
    ensures ContextSnapshots.FIELDS == [CAPABILITY_SNAPSHOT_HASH, CHANGE_SCOPE, EFFECTIVE_SCORE_VIEW_ID, EOS_RELEASE,
                                        INDEX_DIGEST, PROFILE_STATUS_DIGEST, RANKING_MODE, REPO_SHA]
  {
  }

  ghost function EightFields(names: seq<Name>, values: seq<Json>): map<Name, Json>
    requires |names| == |values| == 8
  {
    map[names[0] := values[0], names[1] := values[1], names[2] := values[2], names[3] := values[3],
        names[4] := values[4], names[5] := values[5], names[6] := values[6], names[7] := values[7]]
  }

  lemma EightFieldsAre(names: seq<Name>, values: seq<Json>)
    requires |names| == |values| == 8 && DistinctNames(names)
    ensures IsRecord(Obj(Fields(names, values)), EightFields(names, values))
  {
    hide IsRecord, Fields;
    var fields := EightFields(names, values);
    assert fields.Keys == set n | n in names;
    NamesCount(names);
    RecordIs(names, values, fields);
  }

  /** What a context snapshot's id is the digest of. */
  lemma {:induction false} ContextSnapshotHashes(c: SnapshotContent)
    ensures IsRecord(ContextSnapshots.ContentJson(c), ContextRecord(c))
  {
    hide IsRecord, Fields, TextsJson, CAPABILITY_SNAPSHOT_HASH, CHANGE_SCOPE, EFFECTIVE_SCORE_VIEW_ID, EOS_RELEASE,
      INDEX_DIGEST, PROFILE_STATUS_DIGEST, RANKING_MODE, REPO_SHA, ContextSnapshots.FIELDS, DistinctNames;
    ContextSnapshots.FieldNames();
    ContextNames();
    var names, values := ContextSnapshots.FIELDS, ContextSnapshots.Values(c);
    EightFieldsAre(names, values);
    Reordered(names, values);
  }

  /** The order in which the fields are listed does not matter. */
  lemma Reordered(ns: seq<Name>, vs: seq<Json>)
    requires |ns| == |vs| == 8 && DistinctNames(ns)
    ensures EightFields(ns, vs) == map[ns[7] := vs[7], ns[5] := vs[5], ns[1] := vs[1], ns[0] := vs[0],
                                       ns[4] := vs[4], ns[6] := vs[6], ns[2] := vs[2], ns[3] := vs[3]]
  {
  }

  // --- an evidence id ------------------------------------------------------------------------

  /** What an evidence id is the digest of. */
  lemma {:induction false} EvidenceIdHashes(runId: JsString, snapshotHash: JsString)
    ensures IsRecord(Attribution.IdInputsJson(runId, snapshotHash), map[
              RUN_ID := Str(runId), DERIVER_ID := Str(Ascii("attribution")), DERIVER_VERSION := Str(Ascii("1")),
              INPUT_SNAPSHOT_HASH := Str(snapshotHash)])
  {
    hide IsRecord, Fields;
    var names := Attribution.ID_INPUTS;
    assert names == [DERIVER_ID, DERIVER_VERSION, INPUT_SNAPSHOT_HASH, RUN_ID];
    assert |DERIVER_ID| == 10 && |DERIVER_VERSION| == 15 && |INPUT_SNAPSHOT_HASH| == 19 && |RUN_ID| == 6;
    var values := [Str(Ascii("attribution")), Str(Ascii("1")), Str(snapshotHash), Str(runId)];
    RecordIs(names, values, map[RUN_ID := values[3], DERIVER_ID := values[0], DERIVER_VERSION := values[1], INPUT_SNAPSHOT_HASH := values[2]]);
  }

  /** The deriver's snapshot: the ids as they are ordered, and an empty list of external inputs. */
  lemma {:induction false} EventSnapshotHashes(ids: seq<JsString>)
    ensures IsRecord(Attribution.SnapshotJson(ids), map[EVENT_IDS := TextsJson(ids), EXTERNAL_INPUTS := Arr([])])
  {
    hide IsRecord;
    assert |EVENT_IDS| == 9 && |EXTERNAL_INPUTS| == 15;
    assert Attribution.SNAPSHOT == [EVENT_IDS, EXTERNAL_INPUTS];
    RecordIs(Attribution.SNAPSHOT, [TextsJson(ids), Arr([])], map[EVENT_IDS := TextsJson(ids), EXTERNAL_INPUTS := Arr([])]);
  }

  // --- an input snapshot -------------------------------------------------------------------------

  /** By kind, then by id. */
  ghost predicate InOrder(es: seq<Replay.External>) {
    forall i, j :: 0 <= i < j < |es| ==>
      Lex(es[i].kind, es[j].kind) < 0 || (es[i].kind == es[j].kind && Lex(es[i].id, es[j].id) <= 0)
  }

  lemma ExternalsInOrder(es: seq<Replay.External>)
    ensures InOrder(Sort(Replay.ExternalBefore, es))
  {
    hide Sort, Lex;
    var sorted := Sort(Replay.ExternalBefore, es);
    Replay.ExternalOrder(Elements(es));
    SortSorts(Replay.ExternalBefore, es);
    forall i, j | 0 <= i < j < |sorted|
      ensures Lex(sorted[i].kind, sorted[j].kind) < 0 || (sorted[i].kind == sorted[j].kind && Lex(sorted[i].id, sorted[j].id) <= 0)
    {
      assert !Replay.ExternalBefore(sorted[j], sorted[i]);
      LexLaws(sorted[i].kind, sorted[j].kind);
      LexLaws(sorted[i].id, sorted[j].id);
    }
  }

  /** Sorted ids, and external inputs by kind and id, each under its own three names. */
  lemma {:induction false} InputSnapshotHashes(inputs: Replay.DerivationInputs)
    ensures exists externals: seq<Replay.External>, ids: seq<JsString> ::
              && multiset(externals) == multiset(inputs.externalInputs) && InOrder(externals)
              && multiset(ids) == multiset(inputs.sourceEventIds) && Sorted(Before16, ids)
              && IsRecord(Replay.SnapshotJson(inputs), map[
                   EXTERNAL_INPUTS := Arr(Map(Replay.ExternalJson, externals)), SOURCE_EVENT_IDS := TextsJson(ids)])
  {
    hide IsRecord, TextsJson, Sort, InOrder, Before16;
    assert |EXTERNAL_INPUTS| == 15 && |SOURCE_EVENT_IDS| == 16;
    var externals, ids := Sort(Replay.ExternalBefore, inputs.externalInputs), Sort(Before16, inputs.sourceEventIds);
    ExternalsInOrder(inputs.externalInputs);
    Before16Order(Elements(inputs.sourceEventIds));
    SortSorts(Before16, inputs.sourceEventIds);
    TwoFields(EXTERNAL_INPUTS, Arr(Map(Replay.ExternalJson, externals)), SOURCE_EVENT_IDS, TextsJson(ids));
  }

  lemma {:induction false} ExternalHashes(e: Replay.External)
    ensures IsRecord(Replay.ExternalJson(e), map[ID := Str(e.id), KIND := Str(e.kind), VALUE := Str(e.value)])
  {
    hide IsRecord;
    assert |ID| == 2 && |KIND| == 4 && |VALUE| == 5;
    ThreeFields(ID, Str(e.id), KIND, Str(e.kind), VALUE, Str(e.value));
  }

  // --- a file manifest --------------------------------------------------------------------------------

  lemma {:induction false} EntryHashes(e: FileManifest.Entry)
    ensures IsRecord(FileManifest.EntryJson(e), map[PATH := Str(e.path), SHA256 := Str(e.sha256)])
  {
    hide IsRecord;
    assert |PATH| == 4 && |SHA256| == 6;
    assert Ascii(PATH) == FileManifest.PATH_KEY && Ascii(SHA256) == FileManifest.SHA_KEY;
    TwoFields(PATH, Str(e.path), SHA256, Str(e.sha256));
  }

  lemma {:induction false} ManifestHashes(es: seq<FileManifest.Entry>)
    ensures IsRecord(FileManifest.ManifestJson(es), map[FILES := Arr(Map(FileManifest.EntryJson, es))])
  {
    hide IsRecord;
    assert Ascii(FILES) == FileManifest.FILES_KEY;
    var files := Arr(Map(FileManifest.EntryJson, es));
    RecordIs([FILES], [files], map[FILES := files]);
    assert Fields([FILES], [files]) == [(FileManifest.FILES_KEY, files)];
  }

  // --- a knowledge tree ----------------------------------------------------------------------------------

  lemma {:induction false} TreeHashes(sha: RawDigest, tree: BuildIndex.KnowledgeTree)
    ensures IsRecord(BuildIndex.TreeJson(sha, tree), map[
              SCHEMA_VERSION := Str(Ascii("1")), ASSETS := Arr(Map(BuildIndex.EntryOf(sha), tree.assets)),
              SOLUTION_SETS := Arr(Map(BuildIndex.NormalizedSet(), tree.sets))])
  {
    hide IsRecord, Fields;
    assert |SCHEMA_VERSION| == 14 && |ASSETS| == 6 && |SOLUTION_SETS| == 13;
    assert BuildIndex.TREE == [SCHEMA_VERSION, ASSETS, SOLUTION_SETS];
    var values := [Str(Ascii("1")), Arr(Map(BuildIndex.EntryOf(sha), tree.assets)), Arr(Map(BuildIndex.NormalizedSet(), tree.sets))];
    RecordIs(BuildIndex.TREE, values, map[SCHEMA_VERSION := values[0], ASSETS := values[1], SOLUTION_SETS := values[2]]);
  }

  lemma {:induction false} TreeEntryHashes(sha: RawDigest, c: BuildIndex.Compiled)
    ensures IsRecord(BuildIndex.EntryOf(sha)(c), map[
              RECORD := BuildIndex.NormalizedAsset(c.record), BODY_HASH := Str(Sha256Text(sha, c.body))])
  {
    hide IsRecord, Fields;
    assert |RECORD| == 6 && |BODY_HASH| == 9;
    assert BuildIndex.ENTRY == [RECORD, BODY_HASH];
    var values := [BuildIndex.NormalizedAsset(c.record), Str(Sha256Text(sha, c.body))];
    RecordIs(BuildIndex.ENTRY, values, map[RECORD := values[0], BODY_HASH := values[1]]);
  }
}
