/**
 * What an emitted evidence record says, in the words of the events and of the record:
 * event types, sources and field names as they are written.
 */
module AttributionRecords {
  import opened Wrappers
  import opened Text
  import opened Sorting
  import opened CanonicalJson
  import opened Sha256
  import opened Records
  import opened Attribution
  import opened AttributionTheorems

  const OBSERVE: Name := "observe.request"
  const INSPECT: Name := "inspect.request"
  const RESOLVE: Name := "resolve.response"

  const APPLIED: Name := "applied"
  const INSPECTED: Name := "inspected"
  const EXPOSED: Name := "exposed"

  const AGENT: Name := "agent"
  const TOOL: Name := "tool"
  const EOS: Name := "eos"
  const CI: Name := "ci"

  const AGENT_RUNTIME: Name := "agent_runtime"
  const DETERMINISTIC_TEST: Name := "deterministic_test"

  const REPORTED: Name := "reported"
  const OBSERVED: Name := "observed"
  const CORROBORATED: Name := "corroborated"

  const ATTRIBUTION_FIELD: Name := "attribution"
  const EXPOSURE_FIELD: Name := "exposure"
  const EVENTS_FIELD: Name := "source_event_ids"
  const TRACE_FIELD: Name := "trace_id"
  const INTEGRITY_FIELD: Name := "integrity"
  const AUTHORITY_FIELD: Name := "source_authority"
  const VERIFICATION_FIELD: Name := "verification"

  const EVIDENCE_ID: Name := "evidence_id"
  const SUBJECT_FIELD: Name := "subject"
  const ID_FIELD: Name := "id"
  const ASSET: Name := "asset"
  const KIND: Name := "kind"
  const PARTIAL: Name := "partial"
  const HOLDOUT_STATE: Name := "holdout_state"
  const INDEPENDENCE_GROUP: Name := "independence_group"
  const REVISION_FIELD: Name := "revision"
  const REPO_SHA: Name := "repo_sha"
  const IG_RUN: Name := "ig:run:"
  const DERIVATION_FIELD: Name := "derivation"
  const HASH_FIELD: Name := "input_snapshot_hash"
  const DERIVED_AT: Name := "derived_at"

  /** `v[outer][inner]`. */
  function Inside(v: Json, outer: Name, inner: Name): Option<Json> {
    if FieldOf(v, outer).Some? then FieldOf(FieldOf(v, outer).value, inner) else None
  }

  /** Some event of this type names the asset. */
  ghost predicate Occurs(events: seq<Event>, asset: JsString, eventType: Name) {
    exists e :: e in events && e.asset == Some(asset) && e.eventType == Ascii(eventType)
  }

  /** An event that says how far the asset got. */
  predicate Tells(e: Event, asset: JsString) {
    && e.asset == Some(asset) && asset != []
    && (e.eventType == Ascii(RESOLVE) || e.eventType == Ascii(INSPECT) || e.eventType == Ascii(OBSERVE))
  }

  /** Some event that tells of the asset comes from this kind of source. */
  ghost predicate ToldBy(events: seq<Event>, asset: JsString, source: Name) {
    exists e :: e in events && Tells(e, asset) && e.source == Ascii(source)
  }

  lemma EventTypesDiffer()
    ensures RESOLVE_RESPONSE != INSPECT_REQUEST && RESOLVE_RESPONSE != OBSERVE_REQUEST && INSPECT_REQUEST != OBSERVE_REQUEST
  {
    hide Ascii;
    AsciiFaithful(RESOLVE, INSPECT);
    AsciiFaithful(RESOLVE, OBSERVE);
    AsciiFaithful(INSPECT, OBSERVE);
    assert RESOLVE[0] != INSPECT[0] && RESOLVE[0] != OBSERVE[0];
    assert INSPECT[0] != OBSERVE[0];
  }

  lemma RungByType(e: Event)
    ensures Contributes(e) <==> e.asset.Some? && Tells(e, e.asset.value)
    ensures Contributes(e) ==>
              && (Rung(e).Applied? <==> e.eventType == Ascii(OBSERVE))
              && (Rung(e).Inspected? <==> e.eventType == Ascii(INSPECT))
  {
    hide Ascii;
    EventTypesDiffer();
  }

  lemma AboutExactly(events: seq<Event>, asset: JsString)
    ensures forall e :: e in EventsAbout(events, asset) <==> e in events && Tells(e, asset)
    ensures EventsAbout(events, asset) != [] ==> asset != []
  {
    hide Filter, Sort, Contributes, Tells;
    var ordered, es := InD26Order(events), EventsAbout(events, asset);
    forall e: Event ensures e in es <==> e in events && Tells(e, asset) {
      RungByType(e);
      TellsOf(e, asset);
      assert e in ordered <==> e in multiset(ordered);
      assert e in events <==> e in multiset(events);
    }
    if es != [] {
      assert es[0] in es;
      TellsOf(es[0], asset);
    }
  }

  lemma TellsOf(e: Event, asset: JsString)
    ensures Tells(e, asset) ==> e.asset == Some(asset) && asset != []
  {
  }

  /** Which rung a row's events reach, by event type. */
  lemma {:induction false} FurthestByType(events: seq<Event>, asset: JsString)
    requires Evident(EventsAbout(events, asset))
    ensures var r := Furthest(EventsAbout(events, asset));
            && (r.Applied? <==> Occurs(events, asset, OBSERVE))
            && (r.Inspected? <==> !Occurs(events, asset, OBSERVE) && Occurs(events, asset, INSPECT))
  {
    hide Filter, InD26Order, Furthest, Rung, Contributes, Ascii, EventsAbout;
    var es := EventsAbout(events, asset);
    var r := Furthest(es);
    AboutExactly(events, asset);
    var best :| best in es && Rung(best) == r;
    RungByType(best);
    forall e | e in events && e.asset == Some(asset) && (e.eventType == Ascii(OBSERVE) || e.eventType == Ascii(INSPECT))
      ensures RankOf(Rung(e)) <= RankOf(r)
      ensures Rung(e).Applied? <==> e.eventType == Ascii(OBSERVE)
      ensures Rung(e).Inspected? <==> e.eventType == Ascii(INSPECT)
    {
      assert Tells(e, asset) && e in es;
      RungByType(e);
    }
  }

  lemma SourcesDiffer()
    ensures var a, t, o, c := Ascii(AGENT), Ascii(TOOL), Ascii(EOS), Ascii(CI);
            a != o && a != c && t != o && t != c && o != c
  {
    hide Ascii;
    AsciiFaithful(AGENT, EOS);
    AsciiFaithful(AGENT, CI);
    AsciiFaithful(TOOL, EOS);
    AsciiFaithful(TOOL, CI);
    AsciiFaithful(EOS, CI);
    assert |AGENT| == 5 && |TOOL| == 4 && |EOS| == 3 && |CI| == 2;
  }

  lemma GradeBySource(source: JsString)
    ensures GradeRank(source) == if source == Ascii(CI) then 2 else if source == Ascii(EOS) then 1
                                 else if source == Ascii(AGENT) || source == Ascii(TOOL) then 0 else -1
    ensures source == Ascii(CI) ==> GradeOf(source) == Some(Grade(Ascii(CI), Corroborated))
    ensures source == Ascii(EOS) ==> GradeOf(source) == Some(Grade(Ascii(DETERMINISTIC_TEST), Observed))
    ensures source == Ascii(AGENT) || source == Ascii(TOOL) ==> GradeOf(source) == Some(Grade(Ascii(AGENT_RUNTIME), Reported))
  {
    hide Ascii;
    SourcesDiffer();
  }

  /** The grade of a row's events, by source; sources that give no grade count for nothing. */
  lemma {:induction false} BestBySource(events: seq<Event>, asset: JsString)
    ensures Best(EventsAbout(events, asset)).0 ==
            if ToldBy(events, asset, CI) then Grade(Ascii(CI), Corroborated)
            else if ToldBy(events, asset, EOS) then Grade(Ascii(DETERMINISTIC_TEST), Observed)
            else Grade(Ascii(AGENT_RUNTIME), Reported)
  {
    hide Filter, InD26Order, Best, GradeRank, GradeOf, Ascii, EventsAbout, Tells;
    var es := EventsAbout(events, asset);
    AboutExactly(events, asset);
    forall e: Event ensures GradeRank(e.source) == 2 <==> e.source == Ascii(CI) { GradeBySource(e.source); SourcesDiffer(); }
    forall e: Event ensures GradeRank(e.source) == 1 <==> e.source == Ascii(EOS) { GradeBySource(e.source); SourcesDiffer(); }
    var r := Best(es);
    if r.1 >= 0 {
      var e :| e in es && GradeOf(e.source) == Some(r.0) && GradeRank(e.source) == r.1;
      GradeBySource(e.source);
    }
  }

  /** The fields of the two nested records. */
  lemma NestedFields(es: seq<Event>)
    requires Evident(es)
    ensures FieldOf(AttributionJson(es), EXPOSURE_FIELD) == Some(Str(ExposureText(Furthest(es))))
    ensures FieldOf(AttributionJson(es), EVENTS_FIELD) == Some(TextsJson(Map(IdOf(), es)))
    ensures FieldOf(AttributionJson(es), TRACE_FIELD) == Some(Str(es[0].traceId))
    ensures FieldOf(IntegrityJson(Best(es).0), AUTHORITY_FIELD) == Some(Str(Best(es).0.authority))
    ensures FieldOf(IntegrityJson(Best(es).0), VERIFICATION_FIELD) == Some(Str(VerificationText(Best(es).0.verification)))
  {
    hide FieldOf, Fields, Furthest, Best, Contributes, ExposureText, VerificationText;
    NestedNames();
    var vs := [Str(ExposureText(Furthest(es))), TextsJson(Map(IdOf(), es)), Str(es[0].traceId)];
    FieldAt(ATTRIBUTION, vs, 0);
    FieldAt(ATTRIBUTION, vs, 1);
    FieldAt(ATTRIBUTION, vs, 2);
    var ws := [Str(Best(es).0.authority), Str(VerificationText(Best(es).0.verification))];
    FieldAt(INTEGRITY, ws, 0);
    FieldAt(INTEGRITY, ws, 1);
  }

  lemma NestedNames()
    ensures DistinctNames(ATTRIBUTION) && ATTRIBUTION[0] == EXPOSURE_FIELD && ATTRIBUTION[1] == EVENTS_FIELD && ATTRIBUTION[2] == TRACE_FIELD
    ensures DistinctNames(INTEGRITY) && INTEGRITY[0] == AUTHORITY_FIELD && INTEGRITY[1] == VERIFICATION_FIELD
  {
    assert |ATTRIBUTION[0]| == 8 && |ATTRIBUTION[1]| == 16 && |INTEGRITY[0]| == 16 && |INTEGRITY[1]| == 12;
  }

  /**
   * The exposure a record states: "applied" exactly when some event about the asset is
   * an "observe.request", "inspected" exactly when none is and some is an
   * "inspect.request", otherwise "exposed".
   */
  lemma {:induction false} ExposureByEventType(sha: RawDigest, accepts: Json -> bool, input: Input, i: nat)
    requires Derived(sha, accepts, input).Rows? && i < |Derived(sha, accepts, input).rows|
    ensures var row := Derived(sha, accepts, input).rows[i];
            Inside(row.evidence, ATTRIBUTION_FIELD, EXPOSURE_FIELD) == Some(Str(
              if Occurs(input.events, row.assetId, OBSERVE) then Ascii(APPLIED)
              else if Occurs(input.events, row.assetId, INSPECT) then Ascii(INSPECTED)
              else Ascii(EXPOSED)))
  {
    hide Derived, Ascii, FieldOf, EventsAbout, AttributionJson, IntegrityJson, Best, Furthest, Evident, Occurs;
    RowsAreMaxima(sha, accepts, input, i);
    var asset := Derived(sha, accepts, input).rows[i].assetId;
    FurthestByType(input.events, asset);
    NestedFields(EventsAbout(input.events, asset));
  }

  /**
   * The integrity a record states: the continuous integration's if it is among the
   * sources of the asset's events, else the runtime's own, else what an agent reports.
   */
  lemma {:induction false} IntegrityBySource(sha: RawDigest, accepts: Json -> bool, input: Input, i: nat)
    requires Derived(sha, accepts, input).Rows? && i < |Derived(sha, accepts, input).rows|
    ensures var row := Derived(sha, accepts, input).rows[i];
            var ci, eos := ToldBy(input.events, row.assetId, CI), ToldBy(input.events, row.assetId, EOS);
            && Inside(row.evidence, INTEGRITY_FIELD, AUTHORITY_FIELD) ==
                 Some(Str(if ci then Ascii(CI) else if eos then Ascii(DETERMINISTIC_TEST) else Ascii(AGENT_RUNTIME)))
            && Inside(row.evidence, INTEGRITY_FIELD, VERIFICATION_FIELD) ==
                 Some(Str(if ci then Ascii(CORROBORATED) else if eos then Ascii(OBSERVED) else Ascii(REPORTED)))
  {
    hide Derived, Ascii, FieldOf, EventsAbout, AttributionJson, IntegrityJson, Best, Furthest, Evident, ToldBy;
    RowsAreMaxima(sha, accepts, input, i);
    var asset := Derived(sha, accepts, input).rows[i].assetId;
    BestBySource(input.events, asset);
    NestedFields(EventsAbout(input.events, asset));
  }

  /** There is a row for an asset exactly when some event tells of it. */
  lemma {:induction false} RowExists(sha: RawDigest, accepts: Json -> bool, input: Input, asset: JsString)
    requires Derived(sha, accepts, input).Rows?
    ensures (exists i :: 0 <= i < |Derived(sha, accepts, input).rows| && Derived(sha, accepts, input).rows[i].assetId == asset)
       <==> (exists e :: e in input.events && Tells(e, asset))
  {
    hide Derived, EventsAbout, Tells, RowFor, Assets;
    var rows, assets := Derived(sha, accepts, input).rows, Assets(input.events);
    AboutExactly(input.events, asset);
    AssetsHaveEvents(input.events);
    DerivedRows(sha, accepts, input);
    forall i | 0 <= i < |rows| ensures rows[i].assetId == assets[i] {
      RowNames(sha, input, assets[i], Accumulated(assets[i], InD26Order(input.events)));
    }
    var es := EventsAbout(input.events, asset);
    if es != [] {
      assert es[0] in es;
      var i :| 0 <= i < |assets| && assets[i] == asset;
      assert rows[i].assetId == asset;
    } else {
      assert forall e :: e !in es;
    }
  }

  lemma ClaimPositions()
    ensures EVIDENCE[6] == EVIDENCE_ID && EVIDENCE[7] == SUBJECT_FIELD && EVIDENCE[8] == KIND
    ensures EVIDENCE[10] == HOLDOUT_STATE && EVIDENCE[11] == INDEPENDENCE_GROUP && EVIDENCE[15] == DERIVATION_FIELD
  {
  }

  lemma ClaimValues(sha: RawDigest, input: Input, asset: JsString, es: seq<Event>)
    requires Evident(es) && WellFormed(input.run.runId) && AllWellFormed(Map(IdOf(), es))
    ensures var vs, ids := EvidenceValues(sha, input, asset, es), Map(IdOf(), es);
            && vs[6] == Str(EvidenceId(sha, input.run.runId, ids)) && vs[7] == SubjectJson(asset) && vs[8] == Str(Ascii(PARTIAL))
            && vs[10] == OptionalText(input.run.holdoutState) && vs[11] == Str(Ascii(IG_RUN) + input.run.runId)
            && vs[15] == DerivationJson(SnapshotHash(sha, ids), input.derivedAt, input.supersedes)
  {
    hide AllWellFormed, WellFormed, AttributionJson, IntegrityJson, Best, DerivationJson, EvidenceId, SnapshotHash, Contributes, Ascii, SubjectJson;
  }

  lemma SubjectAndDerivation(asset: JsString, hash: JsString, derivedAt: JsString, supersedes: Option<JsString>)
    ensures FieldOf(SubjectJson(asset), ID_FIELD) == Some(Str(asset))
    ensures FieldOf(DerivationJson(hash, derivedAt, supersedes), HASH_FIELD) == Some(Str(hash))
    ensures FieldOf(DerivationJson(hash, derivedAt, supersedes), DERIVED_AT) == Some(Str(derivedAt))
  {
    hide FieldOf, Fields, Ascii;
    FieldNamesDistinct();
    SubjectNames();
    FieldAt(SUBJECT, [Str(Ascii(ASSET)), Str(asset)], 1);
    var vs := [Str(DERIVER_ID), Str(DERIVER_VERSION), Str(hash), Null, Str(derivedAt), OptionalText(supersedes)];
    FieldAt(DERIVATION, vs, 2);
    FieldAt(DERIVATION, vs, 4);
  }

  lemma SubjectNames()
    ensures DistinctNames(SUBJECT) && SUBJECT[1] == ID_FIELD && DERIVATION[2] == HASH_FIELD && DERIVATION[4] == DERIVED_AT
  {
    assert |SUBJECT[0]| != |SUBJECT[1]|;
  }

  /** What a record claims, for which asset of which run, from which events. */
  ghost predicate Claims(sha: RawDigest, record: Json, run: RunRecord, derivedAt: JsString, asset: JsString, ids: seq<JsString>)
    requires WellFormed(run.runId) && AllWellFormed(ids)
  {
    && FieldOf(record, EVIDENCE_ID) == Some(Str(EvidenceId(sha, run.runId, ids)))
    && Inside(record, SUBJECT_FIELD, ID_FIELD) == Some(Str(asset))
    && FieldOf(record, KIND) == Some(Str(Ascii(PARTIAL)))
    && FieldOf(record, HOLDOUT_STATE) == Some(OptionalText(run.holdoutState))
    && FieldOf(record, INDEPENDENCE_GROUP) == Some(Str(Ascii(IG_RUN) + run.runId))
    && Inside(record, DERIVATION_FIELD, HASH_FIELD) == Some(Str(SnapshotHash(sha, ids)))
    && Inside(record, DERIVATION_FIELD, DERIVED_AT) == Some(Str(derivedAt))
    && Inside(record, ATTRIBUTION_FIELD, EVENTS_FIELD) == Some(TextsJson(ids))
  }

  /**
   * A record's id and snapshot hash are those of exactly the events about its asset, it
   * never claims more than a partial outcome, and all rows of a run share one
   * independence group.
   */
  lemma {:induction false} RecordClaims(sha: RawDigest, accepts: Json -> bool, input: Input, i: nat)
    requires Derived(sha, accepts, input).Rows? && i < |Derived(sha, accepts, input).rows|
    ensures var row := Derived(sha, accepts, input).rows[i];
            var ids := Map(IdOf(), EventsAbout(input.events, row.assetId));
            && WellFormed(input.run.runId) && AllWellFormed(ids)
            && Claims(sha, row.evidence, input.run, input.derivedAt, row.assetId, ids)
  {
    hide Derived, Ascii, FieldOf, EventsAbout, AttributionJson, IntegrityJson, DerivationJson, SubjectJson, Best, Furthest, Evident, RowFor,
      EvidenceValues, WellFormed, AllWellFormed, EvidenceId, SnapshotHash, States;
    AttributionTheorems.RowAt(sha, accepts, input, i);
    var asset := Derived(sha, accepts, input).rows[i].assetId;
    var es := EventsAbout(input.events, asset);
    ClaimPositions();
    ClaimValues(sha, input, asset, es);
    RowField(sha, input, asset, es, 6);
    RowField(sha, input, asset, es, 7);
    RowField(sha, input, asset, es, 8);
    RowField(sha, input, asset, es, 10);
    RowField(sha, input, asset, es, 11);
    RowField(sha, input, asset, es, 15);
    SubjectAndDerivation(asset, SnapshotHash(sha, Map(IdOf(), es)), input.derivedAt, input.supersedes);
    StatesAttribution(sha, input, asset, es);
    NestedFields(es);
  }

  lemma StatesAttribution(sha: RawDigest, input: Input, asset: JsString, es: seq<Event>)
    requires Evident(es) && WellFormed(input.run.runId) && AllWellFormed(Map(IdOf(), es))
    ensures FieldOf(RowFor(sha, input, asset, es).evidence, ATTRIBUTION_FIELD) == Some(AttributionJson(es))
  {
    hide RowFor, FieldOf, Evident, WellFormed, AllWellFormed, AttributionJson;
    RowStates(sha, input, asset, es);
  }

  /** By installation, emitter, sequence and then event id. */
  predicate InTurn(a: Event, b: Event) {
    var c, d := Lex(a.installation, b.installation), Lex(a.emitter, b.emitter);
    c < 0 || (c == 0 && (d < 0 || (d == 0 && (a.sequence < b.sequence || (a.sequence == b.sequence && Lex(a.id, b.id) <= 0)))))
  }

  lemma {:induction false} FilterSorted(p: Event -> bool, s: seq<Event>)
    requires Sorted(D26Before, s)
    ensures Sorted(D26Before, Filter(p, s))
  {
    hide D26Before;
    if s != [] {
      assert forall i, j :: 0 <= i < j < |s[1..]| ==> s[1..][i] == s[i + 1] && s[1..][j] == s[j + 1];
      FilterSorted(p, s[1..]);
      var rest := Filter(p, s[1..]);
      forall k | 0 <= k < |rest| ensures !D26Before(rest[k], s[0]) {
        assert rest[k] in rest && rest[k] in s[1..];
        var j :| 0 <= j < |s[1..]| && s[1..][j] == rest[k];
        assert s[j + 1] == rest[k];
      }
    }
  }

  /** The events behind a row stand in the order in which they were emitted. */
  lemma {:induction false} EventsInTurn(events: seq<Event>, asset: JsString, i: nat, j: nat)
    requires i < j < |EventsAbout(events, asset)|
    ensures InTurn(EventsAbout(events, asset)[i], EventsAbout(events, asset)[j])
  {
    hide Filter, Sort, Lex;
    D26Order(Elements(events));
    SortSorts(D26Before, events);
    FilterSorted(About(asset), InD26Order(events));
    var a, b := EventsAbout(events, asset)[i], EventsAbout(events, asset)[j];
    LexLaws(a.installation, b.installation);
    LexLaws(a.emitter, b.emitter);
    LexLaws(a.id, b.id);
    assert !D26Before(b, a);
  }

  lemma RevisionSays(sha: RawDigest, input: Input, asset: JsString, es: seq<Event>)
    requires Evident(es) && WellFormed(input.run.runId) && AllWellFormed(Map(IdOf(), es))
    ensures FieldOf(RowFor(sha, input, asset, es).evidence, REVISION_FIELD) == Some(RevisionJson(es[0].repoSha))
    ensures FieldOf(RevisionJson(es[0].repoSha), REPO_SHA) == Some(Str(es[0].repoSha))
  {
    hide RowFor, FieldOf, WellFormed, AllWellFormed, RevisionJson, Contributes, EvidenceValues, Fields;
    RevisionPosition(sha, input, asset, es);
    RowField(sha, input, asset, es, 16);
    RevisionName(es[0].repoSha);
  }

  lemma RevisionName(repoSha: JsString)
    ensures FieldOf(RevisionJson(repoSha), REPO_SHA) == Some(Str(repoSha))
  {
    hide FieldOf, Fields;
    assert REVISION[0] == REPO_SHA;
    FieldAt(REVISION, [Str(repoSha)], 0);
  }

  lemma RevisionPosition(sha: RawDigest, input: Input, asset: JsString, es: seq<Event>)
    requires Evident(es) && WellFormed(input.run.runId) && AllWellFormed(Map(IdOf(), es))
    ensures EVIDENCE[16] == REVISION_FIELD && EvidenceValues(sha, input, asset, es)[16] == RevisionJson(es[0].repoSha)
  {
    hide AllWellFormed, WellFormed, AttributionJson, IntegrityJson, Best, DerivationJson, EvidenceId, SnapshotHash, Contributes, Ascii, SubjectJson, RevisionJson;
  }

  /** Trace and revision are those of the first of the row's events, in the order they were emitted. */
  lemma {:induction false} FirstEventSpeaks(sha: RawDigest, accepts: Json -> bool, input: Input, i: nat)
    requires Derived(sha, accepts, input).Rows? && i < |Derived(sha, accepts, input).rows|
    ensures var row := Derived(sha, accepts, input).rows[i];
            var es := EventsAbout(input.events, row.assetId);
            && es != [] && (forall j :: 0 < j < |es| ==> InTurn(es[0], es[j]))
            && Inside(row.evidence, ATTRIBUTION_FIELD, TRACE_FIELD) == Some(Str(es[0].traceId))
            && Inside(row.evidence, REVISION_FIELD, REPO_SHA) == Some(Str(es[0].repoSha))
  {
    hide Derived, Ascii, FieldOf, EventsAbout, AttributionJson, IntegrityJson, Best, Furthest, RowFor, WellFormed, AllWellFormed, States, RevisionJson, InTurn;
    AttributionTheorems.RowAt(sha, accepts, input, i);
    var asset := Derived(sha, accepts, input).rows[i].assetId;
    var es := EventsAbout(input.events, asset);
    StatesAttribution(sha, input, asset, es);
    NestedFields(es);
    RevisionSays(sha, input, asset, es);
    forall j | 0 < j < |es| ensures InTurn(es[0], es[j]) { EventsInTurn(input.events, asset, 0, j); }
  }

  lemma {:induction false} FirstForeignInTurn(ordered: seq<Event>, run: RunRecord)
    requires FirstForeign(ordered, run).Some?
    ensures exists i :: 0 <= i < |ordered| && ordered[i] == FirstForeign(ordered, run).value && ordered[i].runId != run.runId
                        && forall j :: 0 <= j < i ==> ordered[j].runId == run.runId
  {
    if ordered[0].runId == run.runId {
      FirstForeignInTurn(ordered[1..], run);
      var i :| 0 <= i < |ordered[1..]| && ordered[1..][i] == FirstForeign(ordered[1..], run).value && ordered[1..][i].runId != run.runId
               && forall j :: 0 <= j < i ==> ordered[1..][j].runId == run.runId;
      assert ordered[i + 1] == ordered[1..][i];
      forall j | 0 <= j < i + 1 ensures ordered[j].runId == run.runId {
        if j > 0 { assert ordered[j] == ordered[1..][j - 1]; }
      }
    }
  }

  /** Events of another run refuse the derivation, whatever else is wrong, and the earliest of them is named. */
  lemma {:induction false} ForeignRefused(sha: RawDigest, accepts: Json -> bool, input: Input)
    ensures Derived(sha, accepts, input).Foreign? <==> exists e :: e in input.events && e.runId != input.run.runId
    ensures Derived(sha, accepts, input).Foreign? ==>
              var e := Derived(sha, accepts, input).event;
              && e in input.events && e.runId != input.run.runId
              && forall f :: f in input.events && f.runId != input.run.runId ==> InTurn(e, f)
  {
    hide Sort, RowsFor, InTurn, Assets;
    var ordered, run := InD26Order(input.events), input.run;
    forall e: Event ensures e in ordered <==> e in input.events {
      assert e in ordered <==> e in multiset(ordered);
      assert e in input.events <==> e in multiset(input.events);
    }
    NeverForeign(sha, accepts, input);
    if FirstForeign(ordered, run).Some? {
      FirstForeignInTurn(ordered, run);
      var i :| 0 <= i < |ordered| && ordered[i] == FirstForeign(ordered, run).value && ordered[i].runId != run.runId
               && forall j :: 0 <= j < i ==> ordered[j].runId == run.runId;
      forall f | f in input.events && f.runId != run.runId ensures InTurn(ordered[i], f) {
        var j :| 0 <= j < |ordered| && ordered[j] == f;
        SortedInTurn(input.events, i, j);
      }
    }
  }

  lemma NeverForeign(sha: RawDigest, accepts: Json -> bool, input: Input)
    ensures Derived(sha, accepts, input).Foreign? <==> FirstForeign(InD26Order(input.events), input.run).Some?
    ensures Derived(sha, accepts, input).Foreign? ==>
              Derived(sha, accepts, input).event == FirstForeign(InD26Order(input.events), input.run).value
  {
    hide Sort, Filter;
    AssetsHaveEvents(input.events);
    RowsNeverForeign(sha, accepts, input, InD26Order(input.events), Assets(input.events), {});
  }

  lemma {:induction false} RowsNeverForeign(sha: RawDigest, accepts: Json -> bool, input: Input, ordered: seq<Event>, assets: seq<JsString>, seen: set<JsString>)
    requires forall a :: a in assets ==> Accumulated(a, ordered) != []
    ensures !RowsFor(sha, accepts, input, ordered, assets, seen).Foreign?
  {
    hide Accumulated, EvidenceId, RowFor, WellFormed, AllWellFormed;
    if assets != [] && WellFormed(input.run.runId) && AllWellFormed(Map(IdOf(), Accumulated(assets[0], ordered))) {
      RowsNeverForeign(sha, accepts, input, ordered, assets[1..], seen + {EvidenceId(sha, input.run.runId, Map(IdOf(), Accumulated(assets[0], ordered)))});
    }
  }

  lemma SortedInTurn(events: seq<Event>, i: nat, j: nat)
    requires i <= j < |InD26Order(events)|
    ensures InTurn(InD26Order(events)[i], InD26Order(events)[j])
  {
    hide Sort, Lex;
    D26Order(Elements(events));
    SortSorts(D26Before, events);
    var a, b := InD26Order(events)[i], InD26Order(events)[j];
    LexLaws(a.installation, b.installation);
    LexLaws(a.emitter, b.emitter);
    LexLaws(a.id, b.id);
    assert i < j ==> !D26Before(b, a);
  }
}
