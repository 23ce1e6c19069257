/**
 * The attribution deriver: how far each asset of a run got, from the run's events.
 */
module Attribution {
  import opened Wrappers
  import opened Text
  import opened Sorting
  import opened StringOrder
  import opened CanonicalJson
  import opened Sha256
  import opened Records
  import NumberText
  import Ids

  // --- inputs ------------------------------------------------------------------------

  /** `asset` is `attributes['asset.id']`, when that is a string. */
  datatype Event = Event(
    id: JsString, runId: JsString, installation: JsString, emitter: JsString, sequence: nat,
    eventType: JsString, asset: Option<JsString>, source: JsString, traceId: JsString, repoSha: JsString)

  /** The trusted classification record. */
  datatype RunRecord = RunRecord(runId: JsString, originClass: JsString, holdoutState: Option<JsString>)

  datatype Input = Input(events: seq<Event>, run: RunRecord, derivedAt: JsString, supersedes: Option<JsString>)

  // --- the ladder and the grades --------------------------------------------------------

  datatype Exposure = Exposed | Inspected | Applied

  function RankOf(e: Exposure): nat {
    match e
    case Exposed => 0
    case Inspected => 1
    case Applied => 2
  }

  function ExposureText(e: Exposure): JsString {
    match e
    case Exposed => Ascii("exposed")
    case Inspected => Ascii("inspected")
    case Applied => Ascii("applied")
  }

  const RESOLVE_RESPONSE: JsString := Ascii("resolve.response")
  const INSPECT_REQUEST: JsString := Ascii("inspect.request")
  const OBSERVE_REQUEST: JsString := Ascii("observe.request")

  function ExposureOf(eventType: JsString): Option<Exposure> {
    if eventType == RESOLVE_RESPONSE then Some(Exposed)
    else if eventType == INSPECT_REQUEST then Some(Inspected)
    else if eventType == OBSERVE_REQUEST then Some(Applied)
    else None
  }

  datatype Verification = Reported | Observed | Corroborated | ExternallyVerified

  function VerificationRank(v: Verification): nat {
    match v
    case Reported => 0
    case Observed => 1
    case Corroborated => 2
    case ExternallyVerified => 3
  }

  function VerificationText(v: Verification): JsString {
    match v
    case Reported => Ascii("reported")
    case Observed => Ascii("observed")
    case Corroborated => Ascii("corroborated")
    case ExternallyVerified => Ascii("externally_verified")
  }

  datatype Grade = Grade(authority: JsString, verification: Verification)

  const AGENT_GRADE: Grade := Grade(Ascii("agent_runtime"), Reported)

  function GradeOf(source: JsString): Option<Grade> {
    if source == Ascii("agent") || source == Ascii("tool") then Some(AGENT_GRADE)
    else if source == Ascii("eos") then Some(Grade(Ascii("deterministic_test"), Observed))
    else if source == Ascii("ci") then Some(Grade(Ascii("ci"), Corroborated))
    else None
  }

  function GradeRank(source: JsString): int {
    if GradeOf(source).Some? then VerificationRank(GradeOf(source).value.verification) else -1
  }

  /** The best rank seen, and the first grade that reached it. */
  function Best(es: seq<Event>): (r: (Grade, int))
    ensures -1 <= r.1
    ensures forall e :: e in es ==> GradeRank(e.source) <= r.1
    ensures r.1 >= 0 ==> exists e :: e in es && GradeOf(e.source) == Some(r.0) && GradeRank(e.source) == r.1
    ensures r.1 == -1 ==> r.0 == AGENT_GRADE
  {
    if es == [] then (AGENT_GRADE, -1)
    else
      var last, r := es[|es| - 1], Best(es[..|es| - 1]);
      assert es == es[..|es| - 1] + [last];
      if GradeRank(last.source) > r.1 then (GradeOf(last.source).value, GradeRank(last.source)) else r
  }

  method StrongestIntegrity(es: seq<Event>) returns (best: Grade)
    ensures best == Best(es).0
  {
    best := AGENT_GRADE;
    var bestRank: int := -1;
    for i := 0 to |es|
      invariant (best, bestRank) == Best(es[..i])
    {
      assert es[..i + 1][..i] == es[..i];
      var graded := GradeOf(es[i].source);
      if graded.Some? {
        var rank := VerificationRank(graded.value.verification);
        if rank > bestRank { best, bestRank := graded.value, rank; }
      }
    }
    assert es[..|es|] == es;
  }

  // --- the order of events ----------------------------------------------------------------

  /** (installation, emitter, sequence), then the event id. */
  predicate D26Before(a: Event, b: Event) {
    if a.installation != b.installation then Lex(a.installation, b.installation) < 0
    else if a.emitter != b.emitter then Lex(a.emitter, b.emitter) < 0
    else if a.sequence != b.sequence then a.sequence < b.sequence
    else Lex(a.id, b.id) < 0
  }

  function InD26Order(events: seq<Event>): seq<Event> { Sort(D26Before, events) }

  ghost predicate DistinctIds(events: seq<Event>) { NoDuplicates(Map(IdOf(), events)) }

  function IdOf(): Event -> JsString { (e: Event) => e.id }

  function OrderKey(e: Event): seq<seq<int>> { [e.installation, e.emitter, [e.sequence], e.id] }

  lemma D26IsTuple(a: Event, b: Event)
    ensures D26Before(a, b) <==> LexTuple(OrderKey(a), OrderKey(b)) < 0
  {
    hide Lex;
    LexLaws(a.installation, b.installation);
    LexLaws(a.emitter, b.emitter);
    var x, y := OrderKey(a), OrderKey(b);
    TupleStep(x, y);
    TupleStep(x[1..], y[1..]);
    TupleStep(x[2..], y[2..]);
    TupleStep(x[3..], y[3..]);
    assert x[4..] == [] && y[4..] == [];
    SequenceOrder(a.sequence, b.sequence);
  }

  lemma TupleStep(x: seq<seq<int>>, y: seq<seq<int>>)
    requires |x| == |y| > 0
    ensures LexTuple(x, y) == if Lex(x[0], y[0]) != 0 then Lex(x[0], y[0]) else LexTuple(x[1..], y[1..])
    ensures |x| > 1 ==> x[1..][1..] == x[2..] && y[1..][1..] == y[2..]
    ensures |x| > 2 ==> x[2..][1..] == x[3..] && y[2..][1..] == y[3..]
    ensures |x| == 1 ==> LexTuple(x[1..], y[1..]) == 0
  {
  }

  lemma SequenceOrder(m: nat, n: nat)
    ensures Lex([m], [n]) < 0 <==> m < n
    ensures Lex([m], [n]) == 0 <==> m == n
  {
    assert [m][1..] == [] && [n][1..] == [];
  }

  lemma D26Order(s: set<Event>)
    ensures WeakOrderOn(D26Before, s)
  {
    hide LexTuple;
    forall x, y | x in s && y in s ensures D26Before(x, y) <==> LexTuple(OrderKey(x), OrderKey(y)) < 0 { D26IsTuple(x, y); }
    KeyOrder(D26Before, OrderKey, s);
  }

  lemma D26Separates(events: seq<Event>)
    requires DistinctIds(events)
    ensures SeparatesOn(D26Before, Elements(events)) && NoDuplicates(events)
  {
    var ids := Map(IdOf(), events);
    forall x, y | x in Elements(events) && y in Elements(events) && x != y ensures D26Before(x, y) || D26Before(y, x) {
      var i :| 0 <= i < |events| && events[i] == x;
      var j :| 0 <= j < |events| && events[j] == y;
      assert ids[i] != ids[j];
      LexLaws(x.installation, y.installation);
      LexLaws(x.emitter, y.emitter);
      LexLaws(x.id, y.id);
    }
    forall i, j | 0 <= i < j < |events| ensures events[i] != events[j] { assert ids[i] != ids[j]; }
  }

  lemma OrderForgetsArrival(events: seq<Event>, other: seq<Event>)
    requires DistinctIds(events) && multiset(events) == multiset(other)
    ensures InD26Order(events) == InD26Order(other)
  {
    D26Order(Elements(events));
    D26Separates(events);
    SortIgnoresArrival(D26Before, events, other);
  }

  // --- which events say something about which asset --------------------------------------------

  predicate Contributes(e: Event) {
    ExposureOf(e.eventType).Some? && e.asset.Some? && e.asset.value != []
  }

  /** The rung that a contributing event reaches. */
  function Rung(e: Event): Exposure { if ExposureOf(e.eventType).Some? then ExposureOf(e.eventType).value else Exposed }

  function Contributing(): Event -> bool { (e: Event) => Contributes(e) }

  function About(asset: JsString): Event -> bool { (e: Event) => Contributes(e) && e.asset == Some(asset) }

  function AssetOf(): Event -> JsString {
    (e: Event) => if e.asset.Some? then e.asset.value else []
  }

  /** The assets that some event names, as a `Map` would list its keys. */
  function Subjects(ordered: seq<Event>): seq<JsString> { Unique(Map(AssetOf(), Filter(Contributing(), ordered))) }

  function Assets(events: seq<Event>): seq<JsString> { Sort(Before16, Subjects(InD26Order(events))) }

  function EventsAbout(events: seq<Event>, asset: JsString): seq<Event> { Filter(About(asset), InD26Order(events)) }

  /** The highest rung among the events. */
  function Furthest(es: seq<Event>): (r: Exposure)
    requires Evident(es)
    ensures forall e :: e in es ==> RankOf(Rung(e)) <= RankOf(r)
    ensures exists e :: e in es && Rung(e) == r
  {
    var last := es[|es| - 1];
    var here := Rung(last);
    assert es == es[..|es| - 1] + [last];
    if |es| == 1 then here
    else
      var before := Furthest(es[..|es| - 1]);
      if RankOf(here) > RankOf(before) then here else before
  }

  // --- one row ------------------------------------------------------------------------------------

  datatype Row = Row(evidence: Json, assetId: JsString, exposure: Exposure, sourceEventIds: seq<JsString>)

  function OptionalText(s: Option<JsString>): Json { if s.Some? then Str(s.value) else Null }

  const ZERO: Json := Num(NumberText.Zero(false))

  const SNAPSHOT: seq<Name> := ["event_ids", "external_inputs"]

  /** The deriver's own snapshot: the ids in order, and no external inputs. */
  function SnapshotJson(ids: seq<JsString>): Json { Obj(Fields(SNAPSHOT, [TextsJson(ids), Arr([])])) }

  const DERIVER_ID: JsString := Ascii("attribution")
  const DERIVER_VERSION: JsString := Ascii("1")

  const ID_INPUTS: seq<Name> := ["deriver_id", "deriver_version", "input_snapshot_hash", "run_id"]

  function IdInputsJson(runId: JsString, snapshotHash: JsString): Json {
    Obj(Fields(ID_INPUTS, [Str(DERIVER_ID), Str(DERIVER_VERSION), Str(snapshotHash), Str(runId)]))
  }

  lemma SnapshotJsonValid(ids: seq<JsString>)
    ensures Valid(SnapshotJson(ids)) <==> AllWellFormed(ids)
  {
    var values := [TextsJson(ids), Arr([])];
    FieldsValid(SNAPSHOT, values);
    TextsValid(ids);
    assert values[0] == TextsJson(ids) && Valid(values[1]);
  }

  lemma ConstantsWellFormed()
    ensures WellFormed(DERIVER_ID) && WellFormed(DERIVER_VERSION)
  {
    BelowSurrogatesWellFormed(DERIVER_ID);
    BelowSurrogatesWellFormed(DERIVER_VERSION);
  }

  lemma IdInputsJsonValid(runId: JsString, snapshotHash: JsString)
    requires WellFormed(snapshotHash)
    ensures Valid(IdInputsJson(runId, snapshotHash)) <==> WellFormed(runId)
  {
    hide WellFormed;
    ConstantsWellFormed();
    var values := [Str(DERIVER_ID), Str(DERIVER_VERSION), Str(snapshotHash), Str(runId)];
    FieldsValid(ID_INPUTS, values);
    assert values[3] == Str(runId);
  }

  function SnapshotHash(sha: RawDigest, ids: seq<JsString>): (r: JsString)
    requires AllWellFormed(ids)
    ensures WellFormed(r)
  {
    SnapshotJsonValid(ids);
    TextualFaithful(sha, CanonicalBytes(SnapshotJson(ids)), []);
    Sha256Canonical(Textual(sha), SnapshotJson(ids))
  }

  const EVD: JsString := Ascii("evd")

  function EvidenceId(sha: RawDigest, runId: JsString, ids: seq<JsString>): JsString
    requires WellFormed(runId) && AllWellFormed(ids)
  {
    IdInputsJsonValid(runId, SnapshotHash(sha, ids));
    Ids.DeterministicId(sha, EVD, IdInputsJson(runId, SnapshotHash(sha, ids)))
  }

  const SUBJECT: seq<Name> := ["type", "id"]
  const STRENGTH: seq<Name> := ["polarity", "weight", "confidence"]
  const ATTRIBUTION: seq<Name> := ["exposure", "source_event_ids", "trace_id"]
  const INTEGRITY: seq<Name> := ["source_authority", "verification"]
  const DERIVED_FROM: seq<Name> := ["deriver_id", "deriver_version", "input_snapshot_hash"]
  const DERIVED_WHEN: seq<Name> := ["input_watermark", "derived_at", "supersedes_derivation_id"]
  const DERIVATION: seq<Name> := DERIVED_FROM + DERIVED_WHEN
  const REVISION: seq<Name> := ["repo_sha"]
  const SCOPE: seq<Name> := ["paths", "depends_on", "max_age_days"]
  const LIFECYCLE: seq<Name> := ["schema_version", "stability", "introduced_in", "deprecated_in", "replacement", "migration_path"]
  const CLAIM: seq<Name> := ["evidence_id", "subject", "kind", "origin_class", "holdout_state", "independence_group"]
  const SUPPORT: seq<Name> := ["strength", "attribution", "integrity", "derivation", "revision", "scope"]
  const EVIDENCE: seq<Name> := LIFECYCLE + CLAIM + SUPPORT

  lemma FieldNamesDistinct()
    ensures DistinctNames(EVIDENCE) && DistinctNames(DERIVATION)
    ensures EVIDENCE[6] == "evidence_id" && EVIDENCE[15] == "derivation" && DERIVATION[4] == "derived_at"
  {
    assert forall i :: 0 <= i < |EVIDENCE| ==> forall j :: i < j < |EVIDENCE| ==>
      |EVIDENCE[i]| != |EVIDENCE[j]| || EVIDENCE[i][0] != EVIDENCE[j][0];
  }

  function SubjectJson(asset: JsString): Json { Obj(Fields(SUBJECT, [Str(Ascii("asset")), Str(asset)])) }

  function StrengthJson(): Json { Obj(Fields(STRENGTH, [Str(Ascii("neutral")), ZERO, ZERO])) }

  function AttributionJson(es: seq<Event>): Json
    requires Evident(es)
  {
    Obj(Fields(ATTRIBUTION, [Str(ExposureText(Furthest(es))), TextsJson(Map(IdOf(), es)), Str(es[0].traceId)]))
  }

  function IntegrityJson(grade: Grade): Json {
    Obj(Fields(INTEGRITY, [Str(grade.authority), Str(VerificationText(grade.verification))]))
  }

  function DerivationJson(snapshotHash: JsString, derivedAt: JsString, supersedes: Option<JsString>): Json {
    Obj(Fields(DERIVATION, [Str(DERIVER_ID), Str(DERIVER_VERSION), Str(snapshotHash), Null, Str(derivedAt), OptionalText(supersedes)]))
  }

  function RevisionJson(repoSha: JsString): Json { Obj(Fields(REVISION, [Str(repoSha)])) }

  function ScopeJson(): Json { Obj(Fields(SCOPE, [Arr([]), Arr([]), Null])) }

  predicate Evident(es: seq<Event>) { es != [] && forall e :: e in es ==> Contributes(e) }

  function EvidenceFields(id: JsString, asset: JsString, run: RunRecord, attribution: Json, integrity: Json, derivation: Json, revision: Json): (vs: seq<Json>)
    ensures |vs| == |EVIDENCE|
  {
    [Str(Ascii("1")), Str(Ascii("development")), Str(Ascii("0.1.0")), Null, Null, Null,
     Str(id), SubjectJson(asset), Str(Ascii("partial")),
     Str(run.originClass), OptionalText(run.holdoutState), Str(Ascii("ig:run:") + run.runId),
     StrengthJson(), attribution, integrity, derivation, revision, ScopeJson()]
  }

  function EvidenceValues(sha: RawDigest, input: Input, asset: JsString, es: seq<Event>): (vs: seq<Json>)
    requires Evident(es) && WellFormed(input.run.runId) && AllWellFormed(Map(IdOf(), es))
    ensures |vs| == |EVIDENCE|
  {
    var ids := Map(IdOf(), es);
    EvidenceFields(EvidenceId(sha, input.run.runId, ids), asset, input.run, AttributionJson(es), IntegrityJson(Best(es).0),
                   DerivationJson(SnapshotHash(sha, ids), input.derivedAt, input.supersedes), RevisionJson(es[0].repoSha))
  }

  function RowFor(sha: RawDigest, input: Input, asset: JsString, es: seq<Event>): Row
    requires Evident(es) && WellFormed(input.run.runId) && AllWellFormed(Map(IdOf(), es))
  {
    Row(Obj(Fields(EVIDENCE, EvidenceValues(sha, input, asset, es))), asset, Furthest(es), Map(IdOf(), es))
  }

  // --- the whole derivation ---------------------------------------------------------------------------

  datatype Outcome =
    | Rows(rows: seq<Row>)
    | Foreign(event: Event)
    | Uncanonical(asset: JsString)
    | SameId(asset: JsString)
    | Rejected(asset: JsString)

  function Accumulated(asset: JsString, ordered: seq<Event>): seq<Event> { Filter(About(asset), ordered) }

  /** One row per asset, stopping at the first that fails. `accepts` is the evidence schema. */
  function RowsFor(sha: RawDigest, accepts: Json -> bool, input: Input, ordered: seq<Event>, assets: seq<JsString>, seen: set<JsString>): Outcome
    requires forall a :: a in assets ==> Accumulated(a, ordered) != []
  {
    if assets == [] then Rows([])
    else
      var asset := assets[0];
      var es := Accumulated(asset, ordered);
      var ids := Map(IdOf(), es);
      if !WellFormed(input.run.runId) || !AllWellFormed(ids) then Uncanonical(asset)
      else
        var id := EvidenceId(sha, input.run.runId, ids);
        if id in seen then SameId(asset)
        else
          var row := RowFor(sha, input, asset, es);
          if !accepts(row.evidence) then Rejected(asset)
          else
            match RowsFor(sha, accepts, input, ordered, assets[1..], seen + {id})
            case Rows(rows) => Rows([row] + rows)
            case failed => failed
  }

  predicate IsForeign(e: Event, run: RunRecord) { e.runId != run.runId }

  /** `ordered.find(...)`. */
  function FirstForeign(ordered: seq<Event>, run: RunRecord): (r: Option<Event>)
    ensures r.None? <==> forall e :: e in ordered ==> !IsForeign(e, run)
    ensures r.Some? ==> r.value in ordered && IsForeign(r.value, run)
  {
    if ordered == [] then None
    else if IsForeign(ordered[0], run) then Some(ordered[0])
    else
      assert ordered == [ordered[0]] + ordered[1..];
      FirstForeign(ordered[1..], run)
  }

  function Derived(sha: RawDigest, accepts: Json -> bool, input: Input): Outcome {
    var ordered := InD26Order(input.events);
    var foreign := FirstForeign(ordered, input.run);
    if foreign.Some? then Foreign(foreign.value)
    else
      AssetsHaveEvents(input.events);
      RowsFor(sha, accepts, input, ordered, Assets(input.events), {})
  }

  lemma SubjectsExactly(ordered: seq<Event>)
    ensures forall a :: a in Subjects(ordered) <==> Filter(About(a), ordered) != []
    ensures NoDuplicates(Subjects(ordered))
  {
    hide Filter;
    var fs := Filter(Contributing(), ordered);
    var names := Map(AssetOf(), fs);
    forall a | a in Subjects(ordered) ensures Filter(About(a), ordered) != [] {
      assert a in Elements(Unique(names)) && a in Elements(names);
      var i :| 0 <= i < |names| && names[i] == a;
      assert fs[i] in fs && fs[i] in Filter(About(a), ordered);
    }
    forall a | Filter(About(a), ordered) != [] ensures a in Subjects(ordered) {
      var e := Filter(About(a), ordered)[0];
      assert e in Filter(About(a), ordered) && e in fs;
      var i :| 0 <= i < |fs| && fs[i] == e;
      assert names[i] == a;
      assert a in Elements(names) && a in Elements(Unique(names));
    }
  }

  lemma AssetsHaveEvents(events: seq<Event>)
    ensures forall a :: a in Assets(events) <==> EventsAbout(events, a) != []
    ensures NoDuplicates(Assets(events))
  {
    hide Filter, Subjects, Sort;
    var subjects := Subjects(InD26Order(events));
    SubjectsExactly(InD26Order(events));
    SameElements(subjects, Assets(events));
    assert forall a :: a in Assets(events) <==> a in Elements(Assets(events));
    assert forall a :: a in subjects <==> a in Elements(subjects);
    NoDuplicatesPermutes(subjects, Assets(events));
  }

  // --- the loops --------------------------------------------------------------------------

  datatype Accumulator = Accumulator(exposure: Exposure, eventIds: seq<JsString>, events: seq<Event>)

  function AccumulatorOf(es: seq<Event>): Accumulator
    requires Evident(es)
  {
    Accumulator(Furthest(es), Map(IdOf(), es), es)
  }

  ghost predicate Tracks(bySubject: map<JsString, Accumulator>, ordered: seq<Event>) {
    && (forall a :: a in bySubject <==> Accumulated(a, ordered) != [])
    && (forall a :: a in bySubject ==> bySubject[a] == AccumulatorOf(Accumulated(a, ordered)))
  }

  lemma AccumulatedStep(a: JsString, ordered: seq<Event>, i: nat)
    requires i < |ordered|
    ensures Accumulated(a, ordered[..i + 1]) ==
            if Contributes(ordered[i]) && ordered[i].asset == Some(a) then Accumulated(a, ordered[..i]) + [ordered[i]]
            else Accumulated(a, ordered[..i])
  {
    FilterStep(About(a), ordered, i);
    assert Accumulated(a, ordered[..i]) + [] == Accumulated(a, ordered[..i]);
  }

  lemma FurthestStep(es: seq<Event>, e: Event)
    requires (es == [] || Evident(es)) && Contributes(e)
    ensures Evident(es + [e])
    ensures Furthest(es + [e]) == if es == [] || RankOf(Rung(e)) > RankOf(Furthest(es)) then Rung(e) else Furthest(es)
  {
    hide Contributes, Rung;
    var all := es + [e];
    assert all[..|all| - 1] == es && all[|all| - 1] == e;
  }

  lemma AccumulatorStep(es: seq<Event>, e: Event)
    requires (es == [] || Evident(es)) && Contributes(e)
    ensures Evident(es + [e])
    ensures AccumulatorOf(es + [e]) ==
            if es == [] then Accumulator(Rung(e), [e.id], [e])
            else Accumulator(if RankOf(Rung(e)) > RankOf(Furthest(es)) then Rung(e) else Furthest(es), Map(IdOf(), es) + [e.id], es + [e])
  {
    hide Contributes, Rung, Evident, Furthest;
    FurthestStep(es, e);
    assert Map(IdOf(), es + [e]) == Map(IdOf(), es) + [e.id];
    assert es == [] ==> es + [e] == [e] && Map(IdOf(), [e]) == [e.id];
  }

  lemma SubjectsStep(ordered: seq<Event>, i: nat)
    requires i < |ordered|
    ensures var before, e := Subjects(ordered[..i]), ordered[i];
            Subjects(ordered[..i + 1]) == if !Contributes(e) || e.asset.value in before then before else before + [e.asset.value]
  {
    FilterStep(Contributing(), ordered, i);
    var f, e := Filter(Contributing(), ordered[..i]), ordered[i];
    assert f + [] == f;
    if Contributes(e) {
      var all := Map(AssetOf(), f + [e]);
      var names := Map(AssetOf(), f);
      assert all == names + [e.asset.value] && all[..|all| - 1] == names;
      assert e.asset.value in Elements(Unique(names)) <==> e.asset.value in Elements(names);
    }
  }

  lemma TracksStep(bySubject: map<JsString, Accumulator>, ordered: seq<Event>, i: nat)
    requires i < |ordered| && Tracks(bySubject, ordered[..i])
    ensures !Contributes(ordered[i]) ==> Tracks(bySubject, ordered[..i + 1])
    ensures Contributes(ordered[i]) ==>
              Tracks(bySubject[ordered[i].asset.value := AccumulatorOf(Accumulated(ordered[i].asset.value, ordered[..i]) + [ordered[i]])], ordered[..i + 1])
  {
    hide Accumulated, AccumulatorOf, Evident;
    forall a ensures Accumulated(a, ordered[..i + 1]) ==
      if Contributes(ordered[i]) && ordered[i].asset == Some(a) then Accumulated(a, ordered[..i]) + [ordered[i]]
      else Accumulated(a, ordered[..i])
    {
      AccumulatedStep(a, ordered, i);
    }
  }

  /** The first pass: every subject's accumulator, and the subjects in the order met. */
  method Accumulate(ordered: seq<Event>) returns (subjects: seq<JsString>, bySubject: map<JsString, Accumulator>)
    ensures subjects == Subjects(ordered)
    ensures Tracks(bySubject, ordered)
  {
    hide Filter, Tracks, AccumulatorOf, Accumulated, Subjects;
    subjects, bySubject := [], map[];
    NothingTracked();
    for i := 0 to |ordered|
      invariant subjects == Subjects(ordered[..i])
      invariant Elements(subjects) == bySubject.Keys
      invariant Tracks(bySubject, ordered[..i])
    {
      var event := ordered[i];
      SubjectsStep(ordered, i);
      TracksStep(bySubject, ordered, i);
      var exposure := ExposureOf(event.eventType);
      if exposure.None? { continue; }
      if event.asset.None? || event.asset.value == [] { continue; }
      var assetId := event.asset.value;
      TrackedAt(bySubject, ordered[..i], assetId, event);
      if assetId !in bySubject {
        assert assetId !in Elements(subjects);
        subjects := subjects + [assetId];
        bySubject := bySubject[assetId := Accumulator(exposure.value, [event.id], [event])];
      } else {
        assert assetId in Elements(subjects);
        var existing := bySubject[assetId];
        bySubject := bySubject[assetId := Accumulator(
          if RankOf(exposure.value) > RankOf(existing.exposure) then exposure.value else existing.exposure,
          existing.eventIds + [event.id], existing.events + [event])];
      }
    }
    assert ordered[..|ordered|] == ordered;
  }

  lemma NothingTracked()
    ensures Tracks(map[], []) && Subjects([]) == []
  {
  }

  lemma {:induction false} TrackedAt(bySubject: map<JsString, Accumulator>, before: seq<Event>, asset: JsString, e: Event)
    requires Tracks(bySubject, before) && Contributes(e) && e.asset == Some(asset)
    ensures var es := Accumulated(asset, before);
            && Evident(es + [e])
            && AccumulatorOf(es + [e]) ==
               if asset !in bySubject then Accumulator(Rung(e), [e.id], [e])
               else var x := bySubject[asset];
                    Accumulator(if RankOf(Rung(e)) > RankOf(x.exposure) then Rung(e) else x.exposure, x.eventIds + [e.id], x.events + [e])
  {
    AccumulatorStep(Accumulated(asset, before), e);
  }

  /** Rows already built, followed by what the remaining assets give. */
  function Continue(rows: seq<Row>, rest: Outcome): Outcome {
    match rest
    case Rows(more) => Rows(rows + more)
    case failed => failed
  }

  method DeriveAttribution(sha: RawDigest, accepts: Json -> bool, input: Input) returns (r: Outcome)
    ensures r == Derived(sha, accepts, input)
  {
    hide Filter, Tracks, Subjects, Sort, RowsFor, RowFor, EvidenceId, Best, AccumulatorOf;
    var ordered := InD26Order(input.events);
    var foreign := FirstForeign(ordered, input.run);
    if foreign.Some? { return Foreign(foreign.value); }
    var subjects, bySubject := Accumulate(ordered);
    AssetsHaveEvents(input.events);
    var assets := Sort(Before16, subjects);
    r := BuildRows(sha, accepts, input, ordered, assets, bySubject);
  }

  lemma {:induction false} TrackedRow(bySubject: map<JsString, Accumulator>, ordered: seq<Event>, asset: JsString)
    requires Tracks(bySubject, ordered) && Accumulated(asset, ordered) != []
    ensures asset in bySubject && bySubject[asset].events == Accumulated(asset, ordered)
    ensures bySubject[asset].eventIds == Map(IdOf(), bySubject[asset].events)
  {
  }

  method BuildRows(sha: RawDigest, accepts: Json -> bool, input: Input, ordered: seq<Event>, assets: seq<JsString>,
                   bySubject: map<JsString, Accumulator>) returns (r: Outcome)
    requires Tracks(bySubject, ordered) && forall a :: a in assets ==> Accumulated(a, ordered) != []
    ensures r == RowsFor(sha, accepts, input, ordered, assets, {})
  {
    hide Filter, RowsFor, RowFor, EvidenceId, Best, Accumulated, Tracks, AllWellFormed, WellFormed, Evident;
    var rows: seq<Row> := [];
    var seenIds: set<JsString> := {};
    for i := 0 to |assets|
      invariant Continue(rows, RowsFor(sha, accepts, input, ordered, assets[i..], seenIds))
             == RowsFor(sha, accepts, input, ordered, assets, {})
    {
      assert assets[i] in assets;
      RowsForStep(sha, accepts, input, ordered, assets, i, seenIds);
      TrackedRow(bySubject, ordered, assets[i]);
      var accumulated := bySubject[assets[i]];
      if !WellFormed(input.run.runId) || !AllWellFormed(accumulated.eventIds) { return Uncanonical(assets[i]); }
      var id := EvidenceId(sha, input.run.runId, accumulated.eventIds);
      if id in seenIds { return SameId(assets[i]); }
      seenIds := seenIds + {id};
      var row := RowFor(sha, input, assets[i], accumulated.events);
      if !accepts(row.evidence) { return Rejected(assets[i]); }
      rows := rows + [row];
    }
    RowsForStep(sha, accepts, input, ordered, assets, |assets|, seenIds);
    r := Rows(rows);
  }

  lemma RowsForStep(sha: RawDigest, accepts: Json -> bool, input: Input, ordered: seq<Event>, assets: seq<JsString>, i: nat, seen: set<JsString>)
    requires i <= |assets| && forall a :: a in assets ==> Accumulated(a, ordered) != []
    ensures assets[0..] == assets
    ensures i == |assets| ==> RowsFor(sha, accepts, input, ordered, assets[i..], seen) == Rows([])
    ensures i < |assets| ==>
              var es := Accumulated(assets[i], ordered);
              var ids := Map(IdOf(), es);
              && Evident(es)
              && RowsFor(sha, accepts, input, ordered, assets[i..], seen) ==
                 if !WellFormed(input.run.runId) || !AllWellFormed(ids) then Uncanonical(assets[i])
                 else if EvidenceId(sha, input.run.runId, ids) in seen then SameId(assets[i])
                 else if !accepts(RowFor(sha, input, assets[i], es).evidence) then Rejected(assets[i])
                 else Continue([RowFor(sha, input, assets[i], es)],
                               RowsFor(sha, accepts, input, ordered, assets[i + 1..], seen + {EvidenceId(sha, input.run.runId, ids)}))
  {
    hide Filter, RowFor, EvidenceId;
    if i < |assets| {
      assert assets[i] in assets;
      assert assets[i..][1..] == assets[i + 1..];
    }
  }
}
