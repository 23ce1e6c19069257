/**
 * What the report may rely on: a derivation replays, its rows partition the events that
 * say something, the ladder only goes up, and rows never share an identity.
 */
module AttributionTheorems {
  import opened Wrappers
  import opened Text
  import opened Sorting
  import opened StringOrder
  import opened CanonicalJson
  import opened Sha256
  import opened Records
  import opened Attribution
  import Base32
  import Ids
  import Replay

  // --- what a finished derivation holds -------------------------------------------------

  ghost predicate Writable(input: Input, ordered: seq<Event>, asset: JsString) {
    Evident(Accumulated(asset, ordered)) && WellFormed(input.run.runId) && AllWellFormed(Map(IdOf(), Accumulated(asset, ordered)))
  }

  function IdFor(sha: RawDigest, input: Input, ordered: seq<Event>, asset: JsString): JsString
    requires Writable(input, ordered, asset)
  {
    EvidenceId(sha, input.run.runId, Map(IdOf(), Accumulated(asset, ordered)))
  }

  /** Rows in the order of the assets, each under an id that no other row has. */
  ghost predicate RowsMatch(sha: RawDigest, accepts: Json -> bool, input: Input, ordered: seq<Event>, assets: seq<JsString>, seen: set<JsString>, rows: seq<Row>) {
    && |rows| == |assets|
    && (forall i :: 0 <= i < |rows| ==>
          && Writable(input, ordered, assets[i])
          && rows[i] == RowFor(sha, input, assets[i], Accumulated(assets[i], ordered))
          && accepts(rows[i].evidence)
          && IdFor(sha, input, ordered, assets[i]) !in seen)
    && (forall i, j :: 0 <= i < j < |rows| ==>
          IdFor(sha, input, ordered, assets[i]) != IdFor(sha, input, ordered, assets[j]))
  }

  lemma {:induction false} RowsForGives(sha: RawDigest, accepts: Json -> bool, input: Input, ordered: seq<Event>, assets: seq<JsString>, seen: set<JsString>)
    requires forall a :: a in assets ==> Accumulated(a, ordered) != []
    requires RowsFor(sha, accepts, input, ordered, assets, seen).Rows?
    ensures RowsMatch(sha, accepts, input, ordered, assets, seen, RowsFor(sha, accepts, input, ordered, assets, seen).rows)
  {
    hide Accumulated, RowFor, EvidenceId, Evident, AllWellFormed;
    RowsForStep(sha, accepts, input, ordered, assets, 0, seen);
    if assets != [] {
      var id := IdFor(sha, input, ordered, assets[0]);
      RowsForGives(sha, accepts, input, ordered, assets[1..], seen + {id});
      MatchCons(sha, accepts, input, ordered, assets, seen, RowFor(sha, input, assets[0], Accumulated(assets[0], ordered)),
                RowsFor(sha, accepts, input, ordered, assets[1..], seen + {id}).rows);
    }
  }

  lemma {:induction false} MatchCons(sha: RawDigest, accepts: Json -> bool, input: Input, ordered: seq<Event>, assets: seq<JsString>, seen: set<JsString>, row: Row, rows: seq<Row>)
    requires assets != [] && Writable(input, ordered, assets[0])
    requires row == RowFor(sha, input, assets[0], Accumulated(assets[0], ordered)) && accepts(row.evidence)
    requires IdFor(sha, input, ordered, assets[0]) !in seen
    requires RowsMatch(sha, accepts, input, ordered, assets[1..], seen + {IdFor(sha, input, ordered, assets[0])}, rows)
    ensures RowsMatch(sha, accepts, input, ordered, assets, seen, [row] + rows)
  {
    hide Accumulated, RowFor, IdFor, Evident, AllWellFormed;
    var all := [row] + rows;
    forall i | 0 < i < |all|
      ensures Writable(input, ordered, assets[i]) && all[i] == RowFor(sha, input, assets[i], Accumulated(assets[i], ordered)) && accepts(all[i].evidence)
      ensures IdFor(sha, input, ordered, assets[i]) !in seen && IdFor(sha, input, ordered, assets[i]) != IdFor(sha, input, ordered, assets[0])
    {
      assert assets[1..][i - 1] == assets[i] && all[i] == rows[i - 1];
    }
    forall i, j | 0 < i < j < |all| ensures IdFor(sha, input, ordered, assets[i]) != IdFor(sha, input, ordered, assets[j]) {
      assert assets[1..][i - 1] == assets[i] && assets[1..][j - 1] == assets[j];
    }
  }

  lemma AssetsAccumulate(events: seq<Event>)
    ensures forall a :: a in Assets(events) ==> Accumulated(a, InD26Order(events)) != []
  {
    AssetsHaveEvents(events);
  }

  lemma {:induction false} DerivedRows(sha: RawDigest, accepts: Json -> bool, input: Input)
    requires Derived(sha, accepts, input).Rows?
    ensures RowsMatch(sha, accepts, input, InD26Order(input.events), Assets(input.events), {}, Derived(sha, accepts, input).rows)
    ensures forall a :: a in Assets(input.events) ==> Accumulated(a, InD26Order(input.events)) != []
  {
    hide Filter, Sort, RowsFor;
    AssetsHaveEvents(input.events);
    RowsForGives(sha, accepts, input, InD26Order(input.events), Assets(input.events), {});
  }

  // --- replay -------------------------------------------------------------------------------

  /** The schema takes an instant as good as any other. */
  ghost predicate Indifferent(sha: RawDigest, accepts: Json -> bool, a: Input, b: Input) {
    forall asset :: Writable(a, InD26Order(a.events), asset) && Writable(b, InD26Order(b.events), asset) ==>
      (accepts(RowFor(sha, a, asset, Accumulated(asset, InD26Order(a.events))).evidence) <==>
       accepts(RowFor(sha, b, asset, Accumulated(asset, InD26Order(b.events))).evidence))
  }

  ghost predicate SameSnapshot(a: Input, b: Input) {
    && DistinctIds(a.events) && multiset(a.events) == multiset(b.events)
    && a.run == b.run && a.supersedes == b.supersedes
  }

  /** Rows that differ at most in `derived_at`. */
  ghost predicate Replays(x: Outcome, y: Outcome, sha: RawDigest, a: Input, b: Input) {
    if x.Rows? && y.Rows? then
      && |x.rows| == |y.rows|
      && forall i :: 0 <= i < |x.rows| ==>
           && Writable(a, InD26Order(a.events), x.rows[i].assetId)
           && x.rows[i] == RowFor(sha, a, x.rows[i].assetId, Accumulated(x.rows[i].assetId, InD26Order(a.events)))
           && y.rows[i] == RowFor(sha, a.(derivedAt := b.derivedAt), x.rows[i].assetId, Accumulated(x.rows[i].assetId, InD26Order(a.events)))
    else x == y
  }

  lemma SameOrder(a: Input, b: Input)
    requires SameSnapshot(a, b)
    ensures InD26Order(a.events) == InD26Order(b.events)
    ensures Assets(a.events) == Assets(b.events)
  {
    OrderForgetsArrival(a.events, b.events);
  }

  lemma StampOnly(sha: RawDigest, a: Input, b: Input, asset: JsString, es: seq<Event>)
    requires a.run == b.run && a.supersedes == b.supersedes
    requires Evident(es) && WellFormed(a.run.runId) && AllWellFormed(Map(IdOf(), es))
    ensures RowFor(sha, b, asset, es) == RowFor(sha, a.(derivedAt := b.derivedAt), asset, es)
  {
    hide Evident, AllWellFormed, SnapshotHash, EvidenceId, Best, Furthest;
  }

  lemma {:induction false} RowsForReplays(sha: RawDigest, accepts: Json -> bool, a: Input, b: Input, ordered: seq<Event>, assets: seq<JsString>, seen: set<JsString>)
    requires SameSnapshot(a, b) && Indifferent(sha, accepts, a, b)
    requires ordered == InD26Order(a.events) && forall x :: x in assets ==> Accumulated(x, ordered) != []
    ensures Replays(RowsFor(sha, accepts, a, ordered, assets, seen), RowsFor(sha, accepts, b, ordered, assets, seen), sha, a, b)
  {
    hide Accumulated, RowFor, EvidenceId, Evident, AllWellFormed, InD26Order, DistinctIds, RowsFor, Indifferent, Replays;
    RowsForStep(sha, accepts, a, ordered, assets, 0, seen);
    RowsForStep(sha, accepts, b, ordered, assets, 0, seen);
    if assets == [] {
      NothingReplays(sha, a, b);
    } else if !Writable(a, ordered, assets[0]) {
      FailureReplays(Uncanonical(assets[0]), sha, a, b);
    } else {
      var es, id := Accumulated(assets[0], ordered), IdFor(sha, a, ordered, assets[0]);
      RowsForReplays(sha, accepts, a, b, ordered, assets[1..], seen + {id});
      AcceptedAlike(sha, accepts, a, b, assets[0]);
      FailureReplays(SameId(assets[0]), sha, a, b);
      FailureReplays(Rejected(assets[0]), sha, a, b);
      RowReplays(sha, a, b, assets[0], RowsFor(sha, accepts, a, ordered, assets[1..], seen + {id}),
                 RowsFor(sha, accepts, b, ordered, assets[1..], seen + {id}));
    }
  }

  lemma NothingReplays(sha: RawDigest, a: Input, b: Input)
    ensures Replays(Rows([]), Rows([]), sha, a, b)
  {
  }

  lemma FailureReplays(failed: Outcome, sha: RawDigest, a: Input, b: Input)
    requires !failed.Rows?
    ensures Replays(failed, failed, sha, a, b)
  {
  }

  lemma {:induction false} AcceptedAlike(sha: RawDigest, accepts: Json -> bool, a: Input, b: Input, asset: JsString)
    requires SameSnapshot(a, b) && Indifferent(sha, accepts, a, b) && Writable(a, InD26Order(a.events), asset)
    ensures Writable(b, InD26Order(a.events), asset)
    ensures var es := Accumulated(asset, InD26Order(a.events));
            accepts(RowFor(sha, a, asset, es).evidence) <==> accepts(RowFor(sha, b, asset, es).evidence)
  {
    hide Accumulated, RowFor, EvidenceId, Evident, AllWellFormed, InD26Order, DistinctIds;
    SameOrder(a, b);
  }

  lemma {:induction false} RowReplays(sha: RawDigest, a: Input, b: Input, asset: JsString, x: Outcome, y: Outcome)
    requires SameSnapshot(a, b) && Writable(a, InD26Order(a.events), asset) && Replays(x, y, sha, a, b)
    ensures var es := Accumulated(asset, InD26Order(a.events));
            Replays(Continue([RowFor(sha, a, asset, es)], x), Continue([RowFor(sha, b, asset, es)], y), sha, a, b)
  {
    hide Accumulated, RowFor, EvidenceId, Evident, AllWellFormed, InD26Order, DistinctIds;
    var es := Accumulated(asset, InD26Order(a.events));
    StampOnly(sha, a, b, asset, es);
    RowNames(sha, a, asset, es);
  }

  lemma RowNames(sha: RawDigest, input: Input, asset: JsString, es: seq<Event>)
    requires Evident(es) && WellFormed(input.run.runId) && AllWellFormed(Map(IdOf(), es))
    ensures var row := RowFor(sha, input, asset, es);
            row.assetId == asset && row.exposure == Furthest(es) && row.sourceEventIds == Map(IdOf(), es)
  {
  }

  /** Everything a record copies from its inputs can be canonicalized. */
  ghost predicate Legible(input: Input) {
    && WellFormed(input.run.originClass) && WellFormed(input.run.runId) && WellFormed(input.derivedAt)
    && (input.run.holdoutState.Some? ==> WellFormed(input.run.holdoutState.value))
    && (input.supersedes.Some? ==> WellFormed(input.supersedes.value))
    && forall e :: e in input.events ==>
         WellFormed(e.id) && WellFormed(e.traceId) && WellFormed(e.repoSha) && (e.asset.Some? ==> WellFormed(e.asset.value))
  }

  lemma ExposureWord(e: Exposure)
    ensures WellFormed(ExposureText(e))
  {
    BelowSurrogatesWellFormed(ExposureText(e));
  }

  lemma VerificationWord(v: Verification)
    ensures WellFormed(VerificationText(v))
  {
    BelowSurrogatesWellFormed(VerificationText(v));
  }

  lemma GradeWord(source: JsString)
    ensures WellFormed(AGENT_GRADE.authority)
    ensures GradeOf(source).Some? ==> WellFormed(GradeOf(source).value.authority)
  {
    BelowSurrogatesWellFormed(AGENT_GRADE.authority);
    if GradeOf(source).Some? { BelowSurrogatesWellFormed(GradeOf(source).value.authority); }
  }

  lemma SubjectValid(asset: JsString)
    requires WellFormed(asset)
    ensures Valid(SubjectJson(asset))
  {
    BelowSurrogatesWellFormed(Ascii("asset"));
    FieldsValid(SUBJECT, [Str(Ascii("asset")), Str(asset)]);
  }

  lemma StrengthValid()
    ensures Valid(StrengthJson())
  {
    BelowSurrogatesWellFormed(Ascii("neutral"));
    FieldsValid(STRENGTH, [Str(Ascii("neutral")), ZERO, ZERO]);
  }

  lemma IntegrityValid(grade: Grade)
    requires WellFormed(grade.authority)
    ensures Valid(IntegrityJson(grade))
  {
    VerificationWord(grade.verification);
    FieldsValid(INTEGRITY, [Str(grade.authority), Str(VerificationText(grade.verification))]);
  }

  lemma RevisionValid(repoSha: JsString)
    requires WellFormed(repoSha)
    ensures Valid(RevisionJson(repoSha))
  {
    FieldsValid(REVISION, [Str(repoSha)]);
  }

  lemma ScopeValid()
    ensures Valid(ScopeJson())
  {
    hide Fields, Ascii;
    FieldsValid(SCOPE, [Arr([]), Arr([]), Null]);
  }

  lemma AttributionValid(es: seq<Event>)
    requires Evident(es) && AllWellFormed(Map(IdOf(), es)) && WellFormed(es[0].traceId)
    ensures Valid(AttributionJson(es))
  {
    hide WellFormed, Evident, Furthest;
    ExposureWord(Furthest(es));
    TextsValid(Map(IdOf(), es));
    FieldsValid(ATTRIBUTION, [Str(ExposureText(Furthest(es))), TextsJson(Map(IdOf(), es)), Str(es[0].traceId)]);
  }

  lemma OptionalValid(s: Option<JsString>)
    requires s.Some? ==> WellFormed(s.value)
    ensures Valid(OptionalText(s))
  {
  }

  lemma DerivationValid(hash: JsString, derivedAt: JsString, supersedes: Option<JsString>)
    requires WellFormed(hash) && WellFormed(derivedAt) && (supersedes.Some? ==> WellFormed(supersedes.value))
    ensures Valid(DerivationJson(hash, derivedAt, supersedes))
    ensures Replay.DERIVED_AT in Keys(DerivationJson(hash, derivedAt, supersedes).members)
  {
    hide WellFormed, Fields, Ascii, Lookup, OptionalText, Keys;
    FieldNamesDistinct();
    ConstantsWellFormed();
    OptionalValid(supersedes);
    var vs := [Str(DERIVER_ID), Str(DERIVER_VERSION), Str(hash), Null, Str(derivedAt), OptionalText(supersedes)];
    assert forall i :: 0 <= i < |vs| ==> Valid(vs[i]);
    FieldsValid(DERIVATION, vs);
    FieldsLookup(DERIVATION, vs, 4);
  }

  lemma GroupWellFormed(runId: JsString)
    requires WellFormed(runId)
    ensures WellFormed(Ascii("ig:run:") + runId)
  {
    hide WellFormed;
    BelowSurrogatesWellFormed(Ascii("ig:run:"));
    WellFormedConcat(Ascii("ig:run:"), runId);
  }

  lemma FixedWordsWellFormed()
    ensures WellFormed(Ascii("1")) && WellFormed(Ascii("development")) && WellFormed(Ascii("0.1.0")) && WellFormed(Ascii("partial"))
  {
    hide WellFormed;
    AsciiFaithful("1", "1");
    AsciiFaithful("development", "development");
    AsciiFaithful("0.1.0", "0.1.0");
    AsciiFaithful("partial", "partial");
  }

  lemma EvidenceIdWellFormed(sha: RawDigest, runId: JsString, ids: seq<JsString>)
    requires WellFormed(runId) && AllWellFormed(ids)
    ensures WellFormed(EvidenceId(sha, runId, ids))
  {
    hide Base32.Base32, SnapshotHash, WellFormed;
    IdInputsJsonValid(runId, SnapshotHash(sha, ids));
    var digest := Sha256Canonical(sha, IdInputsJson(runId, SnapshotHash(sha, ids)));
    Base32.Base32RoundTrip(digest);
    var id := EvidenceId(sha, runId, ids);
    assert id == EVD + [Ids.UNDERSCORE] + Base32.Base32(digest);
    BelowSurrogatesWellFormed(id);
  }

  lemma {:induction false} BestWellFormed(es: seq<Event>)
    ensures WellFormed(Best(es).0.authority)
  {
    hide WellFormed;
    GradeWord([]);
    forall source { GradeWord(source); }
  }

  /** What `Legible` says of one asset's events. */
  lemma LegibleEvents(input: Input, asset: JsString)
    requires Legible(input) && Accumulated(asset, InD26Order(input.events)) != []
    ensures var es := Accumulated(asset, InD26Order(input.events));
            && Evident(es) && AllWellFormed(Map(IdOf(), es)) && WellFormed(asset)
            && WellFormed(es[0].traceId) && WellFormed(es[0].repoSha)
  {
    hide WellFormed, Sort, Filter;
    var ordered := InD26Order(input.events);
    var es := Accumulated(asset, ordered);
    SameElements(input.events, ordered);
    forall e | e in es ensures e in input.events && Contributes(e) && e.asset == Some(asset) {
      assert e in ordered && e in Elements(ordered);
    }
    assert es[0] in es;
    assert forall i :: 0 <= i < |es| ==> es[i] in es && Map(IdOf(), es)[i] == es[i].id;
  }

  lemma FieldsAllValid(id: JsString, asset: JsString, run: RunRecord, attribution: Json, integrity: Json, derivation: Json, revision: Json)
    requires WellFormed(id) && WellFormed(asset) && WellFormed(run.originClass) && WellFormed(run.runId) && Valid(OptionalText(run.holdoutState))
    requires Valid(attribution) && Valid(integrity) && Valid(derivation) && Valid(revision)
    ensures forall i :: 0 <= i < |EVIDENCE| ==> Valid(EvidenceFields(id, asset, run, attribution, integrity, derivation, revision)[i])
  {
    hide WellFormed, SubjectJson, StrengthJson, ScopeJson, OptionalText;
    GroupWellFormed(run.runId);
    FixedWordsWellFormed();
    SubjectValid(asset);
    StrengthValid();
    ScopeValid();
  }

  lemma {:induction false} EvidenceValid(sha: RawDigest, input: Input, asset: JsString)
    requires Legible(input) && Accumulated(asset, InD26Order(input.events)) != []
    requires Writable(input, InD26Order(input.events), asset)
    ensures forall i :: 0 <= i < |EVIDENCE| ==> Valid(EvidenceValues(sha, input, asset, Accumulated(asset, InD26Order(input.events)))[i])
  {
    hide WellFormed, Accumulated, Evident, AllWellFormed, InD26Order, AttributionJson, IntegrityJson,
         DerivationJson, RevisionJson, SnapshotHash, EvidenceId, Best, EvidenceFields, Valid;
    var es := Accumulated(asset, InD26Order(input.events));
    LegibleEvents(input, asset);
    BestWellFormed(es);
    IntegrityValid(Best(es).0);
    RevisionValid(es[0].repoSha);
    AttributionValid(es);
    var ids := Map(IdOf(), es);
    var hash := SnapshotHash(sha, ids);
    DerivationValid(hash, input.derivedAt, input.supersedes);
    EvidenceIdWellFormed(sha, input.run.runId, ids);
    OptionalValid(input.run.holdoutState);
    FieldsAllValid(EvidenceId(sha, input.run.runId, ids), asset, input.run, AttributionJson(es), IntegrityJson(Best(es).0),
                   DerivationJson(hash, input.derivedAt, input.supersedes), RevisionJson(es[0].repoSha));
  }

  lemma ReplayNames()
    ensures DistinctNames(EVIDENCE) && |EVIDENCE| == 18
    ensures Ascii(EVIDENCE[6]) == Replay.EVIDENCE_ID && Ascii(EVIDENCE[15]) == Replay.DERIVATION
    ensures |DERIVATION| == 6 && Ascii(DERIVATION[4]) == Replay.DERIVED_AT
  {
    FieldNamesDistinct();
  }

  /** A row's record is one that a replay can compare. */
  lemma {:induction false} RowIsEvidence(sha: RawDigest, input: Input, asset: JsString)
    requires Legible(input) && Accumulated(asset, InD26Order(input.events)) != []
    requires Writable(input, InD26Order(input.events), asset)
    ensures var es := Accumulated(asset, InD26Order(input.events));
            var evidence := RowFor(sha, input, asset, es).evidence;
            && Replay.IsEvidence(evidence)
            && Replay.EvidenceIdOf(evidence) == IdFor(sha, input, InD26Order(input.events), asset)
            && Obj(Replay.DerivationOf(evidence)) == DerivationJson(SnapshotHash(sha, Map(IdOf(), es)), input.derivedAt, input.supersedes)
  {
    hide WellFormed, Accumulated, Evident, AllWellFormed, InD26Order, AttributionJson, IntegrityJson, EvidenceFields,
         DerivationJson, RevisionJson, SnapshotHash, EvidenceId, Best, Lookup, Legible, Fields, Ascii, Keys;
    var es := Accumulated(asset, InD26Order(input.events));
    var ids, vs := Map(IdOf(), es), EvidenceValues(sha, input, asset, es);
    ReplayNames();
    EvidenceValid(sha, input, asset);
    FieldsValid(EVIDENCE, vs);
    FieldsLookup(EVIDENCE, vs, 6);
    FieldsLookup(EVIDENCE, vs, 15);
    EvidenceFieldsId(EvidenceId(sha, input.run.runId, ids), asset, input.run, AttributionJson(es), IntegrityJson(Best(es).0),
                     DerivationJson(SnapshotHash(sha, ids), input.derivedAt, input.supersedes), RevisionJson(es[0].repoSha));
    DerivationStamped(sha, input, asset);
  }

  lemma EvidenceFieldsId(id: JsString, asset: JsString, run: RunRecord, attribution: Json, integrity: Json, derivation: Json, revision: Json)
    ensures var vs := EvidenceFields(id, asset, run, attribution, integrity, derivation, revision);
            vs[6] == Str(id) && vs[15] == derivation
  {
    hide Ascii, SubjectJson, StrengthJson, ScopeJson;
  }

  lemma {:induction false} DerivationStamped(sha: RawDigest, input: Input, asset: JsString)
    requires Legible(input) && Accumulated(asset, InD26Order(input.events)) != []
    requires Writable(input, InD26Order(input.events), asset)
    ensures var d := DerivationJson(SnapshotHash(sha, Map(IdOf(), Accumulated(asset, InD26Order(input.events)))), input.derivedAt, input.supersedes);
            d.Obj? && Replay.DERIVED_AT in Keys(d.members)
  {
    hide WellFormed, SnapshotHash;
    DerivationValid(SnapshotHash(sha, Map(IdOf(), Accumulated(asset, InD26Order(input.events)))), input.derivedAt, input.supersedes);
  }

  /** Dropping a field leaves nothing of it. */
  lemma OmitField(names: seq<Name>, values: seq<Json>, i: nat, value: Json)
    requires |names| == |values| && i < |names|
    ensures Replay.Omit(Fields(names, values[i := value]), Ascii(names[i])) == Replay.Omit(Fields(names, values), Ascii(names[i]))
  {
    hide Filter;
    var key, p := Ascii(names[i]), Replay.NotKey(Ascii(names[i]));
    var ms, ns := Fields(names, values), Fields(names, values[i := value]);
    assert ms == ms[..i] + [ms[i]] + ms[i + 1..] && ns == ms[..i] + [ns[i]] + ms[i + 1..];
    FilterConcat(p, ms[..i] + [ms[i]], ms[i + 1..]);
    FilterConcat(p, ms[..i], [ms[i]]);
    FilterConcat(p, ms[..i] + [ns[i]], ms[i + 1..]);
    FilterConcat(p, ms[..i], [ns[i]]);
    FilterOut(p, ms[i]);
    FilterOut(p, ns[i]);
  }

  lemma FilterOut<T(!new)>(p: T -> bool, x: T)
    requires !p(x)
    ensures Filter(p, [x]) == []
  {
  }

  /** Restamping a row's inputs changes one field, and that field is the one a replay ignores. */
  lemma RestampedRow(sha: RawDigest, input: Input, asset: JsString, es: seq<Event>, other: JsString)
    requires Evident(es) && WellFormed(input.run.runId) && AllWellFormed(Map(IdOf(), es))
    ensures var d := DerivationJson(SnapshotHash(sha, Map(IdOf(), es)), other, input.supersedes);
            EvidenceValues(sha, input.(derivedAt := other), asset, es) == EvidenceValues(sha, input, asset, es)[15 := d]
    ensures EvidenceValues(sha, input, asset, es)[15] == DerivationJson(SnapshotHash(sha, Map(IdOf(), es)), input.derivedAt, input.supersedes)
  {
    hide SnapshotHash, EvidenceId, Best, Furthest, DerivationJson, AttributionJson, Evident, AllWellFormed, WellFormed;
  }

  lemma OmitDerivedAt(hash: JsString, x: JsString, y: JsString, supersedes: Option<JsString>)
    ensures Replay.Omit(DerivationJson(hash, x, supersedes).members, Replay.DERIVED_AT)
         == Replay.Omit(DerivationJson(hash, y, supersedes).members, Replay.DERIVED_AT)
  {
    hide Filter, OptionalText;
    FieldNamesDistinct();
    var vs := [Str(DERIVER_ID), Str(DERIVER_VERSION), Str(hash), Null, Str(x), OptionalText(supersedes)];
    OmitField(DERIVATION, vs, 4, Str(y));
    assert vs[4 := Str(y)] == [Str(DERIVER_ID), Str(DERIVER_VERSION), Str(hash), Null, Str(y), OptionalText(supersedes)];
  }

  lemma {:induction false} ProjectionsAgree(sha: RawDigest, a: Input, asset: JsString, other: JsString)
    requires Legible(a) && WellFormed(other) && Accumulated(asset, InD26Order(a.events)) != []
    requires Writable(a, InD26Order(a.events), asset)
    ensures var es := Accumulated(asset, InD26Order(a.events));
            var first, second := RowFor(sha, a, asset, es).evidence, RowFor(sha, a.(derivedAt := other), asset, es).evidence;
            && Replay.IsEvidence(first) && Replay.IsEvidence(second)
            && Replay.Compared(first, second).identical
  {
    hide Accumulated, InD26Order, Evident, AllWellFormed, Legible, WellFormed, DerivationJson, EvidenceValues, Replay.IsEvidence,
         Replay.Omit, SnapshotHash, IdFor, Replay.EvidenceIdOf, Replay.DerivationOf;
    var b, es := a.(derivedAt := other), Accumulated(asset, InD26Order(a.events));
    RestampLegible(a, other);
    RowIsEvidence(sha, a, asset);
    RowIsEvidence(sha, b, asset);
    RestampSameId(sha, a, asset, other);
    RestampedRow(sha, a, asset, es, other);
    var vs, hash := EvidenceValues(sha, a, asset, es), SnapshotHash(sha, Map(IdOf(), es));
    FieldNamesDistinct();
    OmitField(EVIDENCE, vs, 15, DerivationJson(hash, other, a.supersedes));
    OmitDerivedAt(hash, a.derivedAt, other, a.supersedes);
    var first, second := RowFor(sha, a, asset, es).evidence, RowFor(sha, b, asset, es).evidence;
    assert Replay.ProjectForReplay(first) == Replay.ProjectForReplay(second);
  }

  lemma RestampLegible(a: Input, other: JsString)
    requires Legible(a) && WellFormed(other)
    ensures Legible(a.(derivedAt := other))
  {
  }

  lemma RestampSameId(sha: RawDigest, a: Input, asset: JsString, other: JsString)
    requires Writable(a, InD26Order(a.events), asset)
    ensures IdFor(sha, a, InD26Order(a.events), asset) == IdFor(sha, a.(derivedAt := other), InD26Order(a.events), asset)
  {
  }

  /**
   * Replay: the same events in any order, derived at any other moment, end the same way,
   * and rows that come out are called identical one by one.
   */
  lemma {:induction false} DerivationReplays(sha: RawDigest, accepts: Json -> bool, a: Input, b: Input)
    requires SameSnapshot(a, b) && Indifferent(sha, accepts, a, b) && Legible(a) && WellFormed(b.derivedAt)
    ensures var x, y := Derived(sha, accepts, a), Derived(sha, accepts, b);
            if x.Rows? && y.Rows? then
              && |x.rows| == |y.rows|
              && forall i :: 0 <= i < |x.rows| ==>
                   && Replay.IsEvidence(x.rows[i].evidence) && Replay.IsEvidence(y.rows[i].evidence)
                   && Replay.Compared(x.rows[i].evidence, y.rows[i].evidence).identical
                   && x.rows[i].(evidence := Null) == y.rows[i].(evidence := Null)
            else x == y
  {
    hide Accumulated, Sort, RowsFor, RowFor, Indifferent, Legible, WellFormed, Replay.IsEvidence, Replay.Compared, DistinctIds;
    var ordered := InD26Order(a.events);
    SameOrder(a, b);
    var x, y := Derived(sha, accepts, a), Derived(sha, accepts, b);
    if FirstForeign(ordered, a.run).None? {
      AssetsAccumulate(a.events);
      RowsForReplays(sha, accepts, a, b, ordered, Assets(a.events), {});
      if x.Rows? && y.Rows? {
        forall i | 0 <= i < |x.rows|
          ensures Replay.IsEvidence(x.rows[i].evidence) && Replay.IsEvidence(y.rows[i].evidence)
          ensures Replay.Compared(x.rows[i].evidence, y.rows[i].evidence).identical
          ensures x.rows[i].(evidence := Null) == y.rows[i].(evidence := Null)
        {
          var asset := x.rows[i].assetId;
          var es := Accumulated(asset, ordered);
          ProjectionsAgree(sha, a, asset, b.derivedAt);
          RowNames(sha, a, asset, es);
          RowNames(sha, a.(derivedAt := b.derivedAt), asset, es);
        }
      }
    }
  }

  // --- rows partition the events that say something ---------------------------------------

  /** The events behind a list of assets, one asset after another. */
  function Grouped(ordered: seq<Event>, assets: seq<JsString>): seq<Event> {
    if assets == [] then [] else Accumulated(assets[0], ordered) + Grouped(ordered, assets[1..])
  }

  lemma {:induction false} GroupedCounts(ordered: seq<Event>, assets: seq<JsString>, e: Event)
    requires NoDuplicates(assets)
    ensures multiset(Grouped(ordered, assets))[e] ==
            if Contributes(e) && e.asset.value in assets then multiset(ordered)[e] else 0
  {
    hide Filter;
    if assets != [] {
      GroupedCounts(ordered, assets[1..], e);
      FilterCounts(About(assets[0]), ordered);
      assert assets == [assets[0]] + assets[1..];
      assert assets[0] !in assets[1..];
    }
  }

  lemma {:induction false} EachEventOnce(events: seq<Event>)
    ensures multiset(Grouped(InD26Order(events), Assets(events))) == multiset(Filter(Contributing(), events))
  {
    hide Filter, Sort, Subjects;
    var ordered, assets := InD26Order(events), Assets(events);
    AssetsHaveEvents(events);
    FilterCounts(Contributing(), events);
    forall e ensures multiset(Grouped(ordered, assets))[e] == multiset(Filter(Contributing(), events))[e] {
      GroupedCounts(ordered, assets, e);
      if Contributes(e) && e.asset.value !in assets {
        assert e !in EventsAbout(events, e.asset.value);
        assert multiset(ordered)[e] == 0;
      }
    }
  }

  function IdsOfRows(rows: seq<Row>): seq<JsString> {
    if rows == [] then [] else rows[0].sourceEventIds + IdsOfRows(rows[1..])
  }

  lemma {:induction false} RowIdsAreGroupIds(ordered: seq<Event>, assets: seq<JsString>, rows: seq<Row>)
    requires |rows| == |assets|
    requires forall i :: 0 <= i < |rows| ==> rows[i].sourceEventIds == Map(IdOf(), Accumulated(assets[i], ordered))
    ensures IdsOfRows(rows) == Map(IdOf(), Grouped(ordered, assets))
  {
    hide Filter, Accumulated;
    if rows != [] {
      forall i | 0 <= i < |rows| - 1 ensures rows[1..][i].sourceEventIds == Map(IdOf(), Accumulated(assets[1..][i], ordered)) {
        assert rows[1..][i] == rows[i + 1] && assets[1..][i] == assets[i + 1];
      }
      RowIdsAreGroupIds(ordered, assets[1..], rows[1..]);
      var a, b := Accumulated(assets[0], ordered), Grouped(ordered, assets[1..]);
      assert Map(IdOf(), a + b) == Map(IdOf(), a) + Map(IdOf(), b);
    }
  }

  /**
   * One row per asset that some event says something about, sorted by asset id; every
   * such event is behind exactly one row, and the row lists its events in order.
   */
  lemma {:induction false} RowsPartitionEvents(sha: RawDigest, accepts: Json -> bool, input: Input)
    requires Derived(sha, accepts, input).Rows?
    ensures var rows := Derived(sha, accepts, input).rows;
            && multiset(IdsOfRows(rows)) == multiset(Map(IdOf(), Filter(Contributing(), input.events)))
            && (forall i, j :: 0 <= i < j < |rows| ==> Before16(rows[i].assetId, rows[j].assetId))
            && (forall i :: 0 <= i < |rows| ==>
                  && rows[i].sourceEventIds != []
                  && rows[i].sourceEventIds == Map(IdOf(), EventsAbout(input.events, rows[i].assetId)))
  {
    hide Filter, Sort, Subjects, RowFor, AllWellFormed, Before16;
    var ordered, assets, rows := InD26Order(input.events), Assets(input.events), Derived(sha, accepts, input).rows;
    DerivedRows(sha, accepts, input);
    forall i | 0 <= i < |rows|
      ensures rows[i].assetId == assets[i] && rows[i].sourceEventIds == Map(IdOf(), Accumulated(assets[i], ordered))
    {
      RowNames(sha, input, assets[i], Accumulated(assets[i], ordered));
    }
    RowIdsAreGroupIds(ordered, assets, rows);
    EachEventOnce(input.events);
    MapPermutes(IdOf(), Grouped(ordered, assets), Filter(Contributing(), input.events));
    AssetsSorted(input.events);
  }

  lemma AssetsSorted(events: seq<Event>)
    ensures StrictlySorted(Before16, Assets(events))
  {
    hide Sort;
    var subjects := Subjects(InD26Order(events));
    Before16Order(Elements(subjects));
    SortStrict(Before16, subjects);
  }

  // --- the ladder and the grade ------------------------------------------------------------

  lemma EvidenceFieldsAt(id: JsString, asset: JsString, run: RunRecord, attribution: Json, integrity: Json, derivation: Json, revision: Json)
    ensures var vs := EvidenceFields(id, asset, run, attribution, integrity, derivation, revision);
            vs[9] == Str(run.originClass) && vs[13] == attribution && vs[14] == integrity
    ensures EVIDENCE[9] == "origin_class" && EVIDENCE[13] == "attribution" && EVIDENCE[14] == "integrity"
  {
    hide Ascii, SubjectJson, StrengthJson, ScopeJson;
  }

  lemma {:induction false} RowField(sha: RawDigest, input: Input, asset: JsString, es: seq<Event>, i: nat)
    requires Evident(es) && WellFormed(input.run.runId) && AllWellFormed(Map(IdOf(), es)) && i < |EVIDENCE|
    ensures FieldOf(RowFor(sha, input, asset, es).evidence, EVIDENCE[i]) == Some(EvidenceValues(sha, input, asset, es)[i])
  {
    hide FieldOf, Evident, AllWellFormed, WellFormed, EvidenceValues, Fields;
    FieldNamesDistinct();
    FieldAt(EVIDENCE, EvidenceValues(sha, input, asset, es), i);
  }

  lemma {:induction false} RowValues(sha: RawDigest, input: Input, asset: JsString, es: seq<Event>)
    requires Evident(es) && WellFormed(input.run.runId) && AllWellFormed(Map(IdOf(), es))
    ensures var vs := EvidenceValues(sha, input, asset, es);
            vs[9] == Str(input.run.originClass) && vs[13] == AttributionJson(es) && vs[14] == IntegrityJson(Best(es).0)
  {
    hide AllWellFormed, WellFormed, AttributionJson, IntegrityJson, Best, DerivationJson, EvidenceId, SnapshotHash, EvidenceFields, Contributes;
    var ids := Map(IdOf(), es);
    EvidenceFieldsAt(EvidenceId(sha, input.run.runId, ids), asset, input.run, AttributionJson(es), IntegrityJson(Best(es).0),
                     DerivationJson(SnapshotHash(sha, ids), input.derivedAt, input.supersedes), RevisionJson(es[0].repoSha));
  }

  const ORIGIN_CLASS: Name := "origin_class"
  const EXPOSURE_AND_EVENTS: Name := "attribution"
  const GRADE: Name := "integrity"

  lemma FieldPositions()
    ensures EVIDENCE[9] == ORIGIN_CLASS && EVIDENCE[13] == EXPOSURE_AND_EVENTS && EVIDENCE[14] == GRADE
  {
  }

  /** What a row's record says of its run and of its events. */
  ghost predicate States(record: Json, run: RunRecord, es: seq<Event>)
    requires Evident(es)
  {
    && FieldOf(record, ORIGIN_CLASS) == Some(Str(run.originClass))
    && FieldOf(record, EXPOSURE_AND_EVENTS) == Some(AttributionJson(es))
    && FieldOf(record, GRADE) == Some(IntegrityJson(Best(es).0))
  }

  lemma {:induction false} RowStates(sha: RawDigest, input: Input, asset: JsString, es: seq<Event>)
    requires Evident(es) && WellFormed(input.run.runId) && AllWellFormed(Map(IdOf(), es))
    ensures States(RowFor(sha, input, asset, es).evidence, input.run, es)
  {
    hide FieldOf, Evident, AllWellFormed, WellFormed, AttributionJson, IntegrityJson, Best, RowFor, EvidenceValues, Ascii;
    FieldPositions();
    RowValues(sha, input, asset, es);
    RowField(sha, input, asset, es, 9);
    RowField(sha, input, asset, es, 13);
    RowField(sha, input, asset, es, 14);
  }

  lemma BestIsMaximum(es: seq<Event>)
    ensures forall e :: e in es ==> GradeRank(e.source) <= VerificationRank(Best(es).0.verification)
    ensures VerificationRank(Best(es).0.verification) > 0 ==> exists e :: e in es && GradeOf(e.source) == Some(Best(es).0)
  {
    var r := Best(es);
    if r.1 >= 0 {
      var e :| e in es && GradeOf(e.source) == Some(r.0) && GradeRank(e.source) == r.1;
    }
  }

  /**
   * A row states the run's own classification, the highest rung among its events and the
   * strongest grade, and some event earned each: nothing above `reported` without one.
   */
  lemma {:induction false} RowsAreMaxima(sha: RawDigest, accepts: Json -> bool, input: Input, i: nat)
    requires Derived(sha, accepts, input).Rows? && i < |Derived(sha, accepts, input).rows|
    ensures var row := Derived(sha, accepts, input).rows[i];
            var es := EventsAbout(input.events, row.assetId);
            var grade := Best(es).0;
            && Evident(es)
            && (forall e :: e in es ==> RankOf(Rung(e)) <= RankOf(row.exposure) && GradeRank(e.source) <= VerificationRank(grade.verification))
            && (exists e :: e in es && Rung(e) == row.exposure)
            && (VerificationRank(grade.verification) > 0 ==> exists e :: e in es && GradeOf(e.source) == Some(grade))
            && States(row.evidence, input.run, es)
  {
    hide RowFor, AllWellFormed, WellFormed, States, Sort, Filter, Subjects, Best, GradeRank, GradeOf, Rung, Derived, Contributes, InD26Order;
    RowAt(sha, accepts, input, i);
    var es := EventsAbout(input.events, Derived(sha, accepts, input).rows[i].assetId);
    RowNames(sha, input, Derived(sha, accepts, input).rows[i].assetId, es);
    RowStates(sha, input, Derived(sha, accepts, input).rows[i].assetId, es);
    BestIsMaximum(es);
  }

  lemma {:induction false} RowAt(sha: RawDigest, accepts: Json -> bool, input: Input, i: nat)
    requires Derived(sha, accepts, input).Rows? && i < |Derived(sha, accepts, input).rows|
    ensures var row := Derived(sha, accepts, input).rows[i];
            var es := EventsAbout(input.events, row.assetId);
            && Evident(es) && WellFormed(input.run.runId) && AllWellFormed(Map(IdOf(), es))
            && row == RowFor(sha, input, row.assetId, es)
  {
    hide RowFor, AllWellFormed, WellFormed, Sort, Filter, Subjects, Derived, Contributes;
    DerivedRows(sha, accepts, input);
    var asset := Assets(input.events)[i];
    RowNames(sha, input, asset, Accumulated(asset, InD26Order(input.events)));
  }

  /** More events never lower a rung or a grade, and never lose an asset. */
  lemma {:induction false} MoreEventsOnlyRaise(events: seq<Event>, more: seq<Event>, asset: JsString)
    requires multiset(events) <= multiset(more) && asset in Assets(events)
    ensures asset in Assets(more)
    ensures Evident(EventsAbout(events, asset)) && Evident(EventsAbout(more, asset))
    ensures RankOf(Furthest(EventsAbout(events, asset))) <= RankOf(Furthest(EventsAbout(more, asset)))
    ensures Best(EventsAbout(events, asset)).1 <= Best(EventsAbout(more, asset)).1
  {
    hide Filter, Sort, Subjects, Best, Furthest;
    AssetsHaveEvents(events);
    AssetsHaveEvents(more);
    var es, fs := EventsAbout(events, asset), EventsAbout(more, asset);
    forall e | e in es ensures e in fs {
      assert e in multiset(InD26Order(events)) && e in multiset(events) && e in multiset(more);
      assert e in multiset(InD26Order(more));
    }
    assert es[0] in es;
  }

  // --- identities ------------------------------------------------------------------------------

  ghost predicate NoSnapshotCollision(sha: RawDigest, runId: JsString, x: seq<JsString>, y: seq<JsString>)
    requires WellFormed(runId) && AllWellFormed(x) && AllWellFormed(y)
  {
    SnapshotJsonValid(x);
    SnapshotJsonValid(y);
    IdInputsJsonValid(runId, SnapshotHash(sha, x));
    IdInputsJsonValid(runId, SnapshotHash(sha, y));
    && NoCollision(sha, CanonicalBytes(SnapshotJson(x)), CanonicalBytes(SnapshotJson(y)))
    && NoCollision(sha, CanonicalBytes(IdInputsJson(runId, SnapshotHash(sha, x))), CanonicalBytes(IdInputsJson(runId, SnapshotHash(sha, y))))
  }

  /** Short of a collision, an evidence id identifies the run and the exact list of events. */
  lemma {:induction false} EvidenceIdIdentifies(sha: RawDigest, runId: JsString, x: seq<JsString>, y: seq<JsString>)
    requires WellFormed(runId) && AllWellFormed(x) && AllWellFormed(y)
    requires NoSnapshotCollision(sha, runId, x, y)
    ensures EvidenceId(sha, runId, x) == EvidenceId(sha, runId, y) <==> x == y
  {
    if EvidenceId(sha, runId, x) == EvidenceId(sha, runId, y) {
      HashesAgree(sha, runId, x, y);
      SnapshotJsonValid(x);
      SnapshotJsonValid(y);
      SnapshotsAgree(sha, x, y);
      TextsSame(x, y);
    }
  }

  lemma {:induction false} HashesAgree(sha: RawDigest, runId: JsString, x: seq<JsString>, y: seq<JsString>)
    requires WellFormed(runId) && AllWellFormed(x) && AllWellFormed(y)
    requires NoSnapshotCollision(sha, runId, x, y)
    requires EvidenceId(sha, runId, x) == EvidenceId(sha, runId, y)
    ensures SnapshotHash(sha, x) == SnapshotHash(sha, y)
  {
    hide Ids.DeterministicId, WellFormed, CanonicalBytes, AllWellFormed, SnapshotHash;
    var h, k := SnapshotHash(sha, x), SnapshotHash(sha, y);
    IdInputsJsonValid(runId, h);
    IdInputsJsonValid(runId, k);
    EvdIsKnown();
    Ids.DeterministicIdIdentity(sha, EVD, IdInputsJson(runId, h), EVD, IdInputsJson(runId, k));
    IdInputsSame(runId, h, k);
  }

  lemma EvdIsKnown()
    ensures EVD in Ids.DETERMINISTIC_ID_PREFIXES
  {
    assert Ids.DETERMINISTIC_ID_PREFIXES[0] == EVD;
  }

  lemma IdInputNames()
    ensures DistinctNames(ID_INPUTS) && |ID_INPUTS| == 4
  {
    assert forall i :: 0 <= i < |ID_INPUTS| ==> forall j :: i < j < |ID_INPUTS| ==> |ID_INPUTS[i]| != |ID_INPUTS[j]|;
  }

  lemma IdInputsSame(runId: JsString, h: JsString, k: JsString)
    requires Same(IdInputsJson(runId, h), IdInputsJson(runId, k))
    ensures h == k
  {
    hide Same, Fields, Ascii;
    IdInputNames();
    var vs, ws := [Str(DERIVER_ID), Str(DERIVER_VERSION), Str(h), Str(runId)], [Str(DERIVER_ID), Str(DERIVER_VERSION), Str(k), Str(runId)];
    FieldsSame(ID_INPUTS, vs, ws);
    assert Same(vs[2], ws[2]);
    StringsSame(vs[2], ws[2]);
  }

  lemma SnapshotsAgree(sha: RawDigest, x: seq<JsString>, y: seq<JsString>)
    requires AllWellFormed(x) && AllWellFormed(y) && SnapshotHash(sha, x) == SnapshotHash(sha, y)
    requires Valid(SnapshotJson(x)) && Valid(SnapshotJson(y))
    requires NoCollision(sha, CanonicalBytes(SnapshotJson(x)), CanonicalBytes(SnapshotJson(y)))
    ensures Same(TextsJson(x), TextsJson(y))
  {
    hide WellFormed, CanonicalBytes, Same, Valid, TextsJson;
    var a, b := SnapshotJson(x), SnapshotJson(y);
    TextualFaithful(sha, CanonicalBytes(a), CanonicalBytes(b));
    DigestIdentity(Textual(sha), a, b);
    var vs, ws := [TextsJson(x), Arr([])], [TextsJson(y), Arr([])];
    FieldsSame(SNAPSHOT, vs, ws);
    assert Same(vs[0], ws[0]);
  }

  /** Two assets never share their list of events when every event has its own id. */
  lemma DifferentAssetsDifferentIds(events: seq<Event>, x: JsString, y: JsString)
    requires DistinctIds(events) && x != y
    requires EventsAbout(events, x) != []
    ensures Map(IdOf(), EventsAbout(events, x)) != Map(IdOf(), EventsAbout(events, y))
  {
    hide Filter, Sort;
    var es, fs := EventsAbout(events, x), EventsAbout(events, y);
    if Map(IdOf(), es) == Map(IdOf(), fs) {
      assert Map(IdOf(), es)[0] == Map(IdOf(), fs)[0];
      assert es[0] in es && fs[0] in fs;
      SameElements(events, InD26Order(events));
      assert es[0] in Elements(InD26Order(events)) && fs[0] in Elements(InD26Order(events));
      SameIdSameEvent(events, es[0], fs[0]);
    }
  }

  lemma SameIdSameEvent(events: seq<Event>, e: Event, f: Event)
    requires DistinctIds(events) && e in events && f in events && e.id == f.id
    ensures e == f
  {
    var i :| 0 <= i < |events| && events[i] == e;
    var j :| 0 <= j < |events| && events[j] == f;
    assert Map(IdOf(), events)[i] == Map(IdOf(), events)[j];
  }

  ghost predicate NoCollisionsAmong(sha: RawDigest, input: Input) {
    var ordered := InD26Order(input.events);
    forall x, y :: Writable(input, ordered, x) && Writable(input, ordered, y) ==>
      NoSnapshotCollision(sha, input.run.runId, Map(IdOf(), Accumulated(x, ordered)), Map(IdOf(), Accumulated(y, ordered)))
  }

  lemma DistinctAssetIds(sha: RawDigest, input: Input, x: JsString, y: JsString)
    requires DistinctIds(input.events) && NoCollisionsAmong(sha, input) && x != y
    requires Writable(input, InD26Order(input.events), x) && Writable(input, InD26Order(input.events), y)
    ensures IdFor(sha, input, InD26Order(input.events), x) != IdFor(sha, input, InD26Order(input.events), y)
  {
    hide WellFormed, AllWellFormed, DistinctIds, EvidenceId, NoSnapshotCollision, Sort, Filter;
    var ordered := InD26Order(input.events);
    EvidenceIdIdentifies(sha, input.run.runId, Map(IdOf(), Accumulated(x, ordered)), Map(IdOf(), Accumulated(y, ordered)));
    DifferentAssetsDifferentIds(input.events, x, y);
  }

  lemma {:induction false} RowsForNeverSame(sha: RawDigest, accepts: Json -> bool, input: Input, assets: seq<JsString>, seen: set<JsString>)
    requires DistinctIds(input.events) && NoCollisionsAmong(sha, input) && NoDuplicates(assets)
    requires forall a :: a in assets ==> Accumulated(a, InD26Order(input.events)) != []
    requires forall a :: a in assets && Writable(input, InD26Order(input.events), a) ==> IdFor(sha, input, InD26Order(input.events), a) !in seen
    ensures !RowsFor(sha, accepts, input, InD26Order(input.events), assets, seen).SameId?
  {
    hide WellFormed, AllWellFormed, DistinctIds, NoCollisionsAmong, InD26Order, Accumulated, Evident, RowFor, EvidenceId, RowsFor;
    var ordered := InD26Order(input.events);
    RowsForStep(sha, accepts, input, ordered, assets, 0, seen);
    if assets != [] && Writable(input, ordered, assets[0]) {
      var id := IdFor(sha, input, ordered, assets[0]);
      forall a | a in assets[1..] && Writable(input, ordered, a) ensures IdFor(sha, input, ordered, a) !in seen + {id} {
        assert a != assets[0] && a in assets;
        DistinctAssetIds(sha, input, a, assets[0]);
      }
      RowsForNeverSame(sha, accepts, input, assets[1..], seen + {id});
    }
  }

  /** The check for a shared identity cannot fire while event ids are unique. */
  lemma {:induction false} NeverSameId(sha: RawDigest, accepts: Json -> bool, input: Input)
    requires DistinctIds(input.events) && NoCollisionsAmong(sha, input)
    ensures !Derived(sha, accepts, input).SameId?
  {
    hide DistinctIds, NoCollisionsAmong, Accumulated, RowsFor, Sort, Filter, Subjects;
    AssetsAccumulate(input.events);
    AssetsHaveEvents(input.events);
    RowsForNeverSame(sha, accepts, input, Assets(input.events), {});
  }
}
