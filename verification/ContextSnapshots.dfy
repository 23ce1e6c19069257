/**
 * The identity of a context snapshot: the digest of what a decision was made from.
 */
module ContextSnapshots {
  import opened Wrappers
  import opened Text
  import opened CanonicalJson
  import opened Records
  import opened Sha256
  import opened Evidence
  import Ids

  const CAPABILITY_SNAPSHOT_HASH: Name := "capability_snapshot_hash"
  const CHANGE_SCOPE: Name := "change_scope"
  const EFFECTIVE_SCORE_VIEW_ID: Name := "effective_score_view_id"
  const EOS_RELEASE: Name := "eos_release"
  const INDEX_DIGEST: Name := "index_digest"
  const PROFILE_STATUS_DIGEST: Name := "profile_status_digest"
  const RANKING_MODE: Name := "ranking_mode"
  const REPO_SHA: Name := "repo_sha"

  const FIELDS: seq<Name> :=
    [CAPABILITY_SNAPSHOT_HASH, CHANGE_SCOPE, EFFECTIVE_SCORE_VIEW_ID, EOS_RELEASE,
     INDEX_DIGEST, PROFILE_STATUS_DIGEST, RANKING_MODE, REPO_SHA]

  function Values(c: SnapshotContent): (vs: seq<Json>)
    ensures |vs| == 8
  {
    [Str(c.capabilitySnapshotHash), TextsJson(c.changeScope), Str(c.effectiveScoreViewId), Str(c.eosRelease),
     Str(c.indexDigest), Str(c.profileStatusDigest), Str(c.rankingMode), Str(c.repoSha)]
  }

  function ContentJson(c: SnapshotContent): Json { Obj(Fields(FIELDS, Values(c))) }

  lemma FieldNames()
    ensures DistinctNames(FIELDS) && |FIELDS| == 8
  {
    assert forall i :: 0 <= i < |FIELDS| ==> forall j :: i < j < |FIELDS| ==>
      |FIELDS[i]| != |FIELDS[j]| || FIELDS[i][0] != FIELDS[j][0];
  }

  /** Every string of the content can be canonicalized. */
  predicate Legible(c: SnapshotContent) {
    && WellFormed(c.capabilitySnapshotHash) && AllWellFormed(c.changeScope) && WellFormed(c.effectiveScoreViewId)
    && WellFormed(c.eosRelease) && WellFormed(c.indexDigest) && WellFormed(c.profileStatusDigest)
    && WellFormed(c.rankingMode) && WellFormed(c.repoSha)
  }

  lemma ContentValid(c: SnapshotContent)
    requires Legible(c)
    ensures Valid(ContentJson(c))
  {
    hide WellFormed, AllWellFormed, Fields;
    FieldNames();
    TextsValid(c.changeScope);
    FieldsValid(FIELDS, Values(c));
  }

  const CTX: JsString := Ascii("ctx")

  /** `contextSnapshotId`; `None` stands for the exception of canonical JSON. */
  function ContextSnapshotId(sha: RawDigest, c: SnapshotContent): Option<Id> {
    if !Legible(c) then None
    else
      ContentValid(c);
      Some(Ids.DeterministicId(sha, CTX, ContentJson(c)))
  }

  ghost predicate NoContentCollision(sha: RawDigest, c: SnapshotContent, d: SnapshotContent)
    requires Legible(c) && Legible(d)
  {
    ContentValid(c);
    ContentValid(d);
    NoCollision(sha, CanonicalBytes(ContentJson(c)), CanonicalBytes(ContentJson(d)))
  }

  /** Short of a collision, a snapshot's id identifies everything the decision was made from. */
  lemma {:induction false} ContextSnapshotIdIdentifies(sha: RawDigest, c: SnapshotContent, d: SnapshotContent)
    requires Legible(c) && Legible(d) && NoContentCollision(sha, c, d)
    ensures ContextSnapshotId(sha, c) == ContextSnapshotId(sha, d) <==> c == d
  {
    hide Ids.DeterministicId, CanonicalBytes, WellFormed, AllWellFormed, Same;
    ContentValid(c);
    ContentValid(d);
    CtxIsKnown();
    Ids.DeterministicIdIdentity(sha, CTX, ContentJson(c), CTX, ContentJson(d));
    ContentsSame(c, d);
    SameEquivalence(ContentJson(c), ContentJson(c), ContentJson(c));
  }

  lemma CtxIsKnown()
    ensures CTX in Ids.DETERMINISTIC_ID_PREFIXES
  {
    assert Ids.DETERMINISTIC_ID_PREFIXES[1] == CTX;
  }

  lemma ContentsSame(c: SnapshotContent, d: SnapshotContent)
    ensures Same(ContentJson(c), ContentJson(d)) ==> c == d
  {
    hide Fields, TextsJson, Same, Ascii;
    if Same(ContentJson(c), ContentJson(d)) {
      var vs, ws := Values(c), Values(d);
      FieldNames();
      FieldsSame(FIELDS, vs, ws);
      assert Same(vs[1], ws[1]);
      TextsSame(c.changeScope, d.changeScope);
      forall i | 0 <= i < 8 && i != 1 ensures vs[i] == ws[i] { StringsSame(vs[i], ws[i]); }
      assert vs[0] == ws[0] && vs[2] == ws[2] && vs[3] == ws[3] && vs[4] == ws[4] && vs[5] == ws[5] && vs[6] == ws[6] && vs[7] == ws[7];
    }
  }
}
