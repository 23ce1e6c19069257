/**
 * Deterministic ranking: Champion selection, the filters, the order and the cut.
 */
module Rank {
  import opened Wrappers
  import opened Text
  import opened Sorting
  import opened StringOrder

  type Id = JsString

  // --- Champions -------------------------------------------------------------------

  datatype SolutionSet = SolutionSet(
    id: Id, problemId: Id, members: seq<Id>, pinned: bool, championId: Option<Id>)

  /** Re-checked rather than assumed: pinned, named, non-empty, and one of the members. */
  function ChampionOf(s: SolutionSet): (r: Option<Id>)
    ensures r.Some? ==> r.value in s.members && s.pinned
  {
    if s.pinned && s.championId.Some? && s.championId.value != [] && s.championId.value in s.members
    then s.championId else None
  }

  /** `new Map(sets.map(set => [set.id, set]))`: the last set of an id wins. */
  function SetsById(sets: seq<SolutionSet>): map<Id, SolutionSet> {
    if sets == [] then map[]
    else var last := sets[|sets| - 1]; SetsById(sets[..|sets| - 1])[last.id := last]
  }

  function Champions(sets: seq<SolutionSet>): map<Id, Id> {
    if sets == [] then map[]
    else
      var last, earlier := sets[|sets| - 1], Champions(sets[..|sets| - 1]);
      if ChampionOf(last).Some? then earlier[last.id := ChampionOf(last).value] else earlier
  }

  method ChampionsOf(sets: seq<SolutionSet>) returns (champions: map<Id, Id>)
    ensures champions == Champions(sets)
  {
    champions := map[];
    for i := 0 to |sets|
      invariant champions == Champions(sets[..i])
    {
      assert sets[..i + 1][..i] == sets[..i];
      var champion := ChampionOf(sets[i]);
      if champion.Some? { champions := champions[sets[i].id := champion.value]; }
    }
    assert sets[..|sets|] == sets;
  }

  // --- project fit --------------------------------------------------------------------

  datatype Condition = Condition(fact: Id, allowed: seq<Id>)

  datatype FitVerdict = Fits | Unknown | Contradicted

  datatype ProjectFit = ProjectFit(verdict: FitVerdict, confirmed: real)

  predicate Contradicts(c: Condition, facts: map<Id, Id>) {
    c.fact in facts && facts[c.fact] !in c.allowed
  }

  function Confirmed(conditions: seq<Condition>, facts: map<Id, Id>): (n: nat)
    ensures n <= |conditions|
  {
    if conditions == [] then 0
    else Confirmed(conditions[..|conditions| - 1], facts) + if conditions[|conditions| - 1].fact in facts then 1 else 0
  }

  function FitOf(conditions: seq<Condition>, facts: map<Id, Id>): ProjectFit {
    if conditions == [] then ProjectFit(Fits, 1.0)
    else if exists i :: 0 <= i < |conditions| && Contradicts(conditions[i], facts) then ProjectFit(Contradicted, 0.0)
    else
      var n := Confirmed(conditions, facts);
      ProjectFit(if n == |conditions| then Fits else Unknown, n as real / |conditions| as real)
  }

  /** An observed fact outside the list rules the asset out; an unobserved one does not. */
  method ProjectFitOf(conditions: seq<Condition>, facts: map<Id, Id>) returns (fit: ProjectFit)
    ensures fit == FitOf(conditions, facts)
    ensures fit.verdict.Fits? <==> forall i :: 0 <= i < |conditions| ==> conditions[i].fact in facts && facts[conditions[i].fact] in conditions[i].allowed
    ensures 0.0 <= fit.confirmed <= 1.0
  {
    if |conditions| == 0 { return ProjectFit(Fits, 1.0); }
    var confirmed: nat := 0;
    for i := 0 to |conditions|
      invariant confirmed == Confirmed(conditions[..i], facts) <= i
      invariant forall j :: 0 <= j < i ==> !Contradicts(conditions[j], facts)
      invariant confirmed == i <==> forall j :: 0 <= j < i ==> conditions[j].fact in facts
    {
      assert conditions[..i + 1][..i] == conditions[..i];
      if conditions[i].fact in facts {
        if facts[conditions[i].fact] !in conditions[i].allowed { return ProjectFit(Contradicted, 0.0); }
        confirmed := confirmed + 1;
      }
    }
    assert conditions[..|conditions|] == conditions;
    var fraction := confirmed as real / |conditions| as real;
    FractionOne(confirmed, |conditions|);
    fit := ProjectFit(if fraction == 1.0 then Fits else Unknown, fraction);
  }

  lemma FractionOne(n: nat, d: nat)
    requires n <= d && d > 0
    ensures (n as real / d as real == 1.0) <==> n == d
    ensures 0.0 <= n as real / d as real <= 1.0
  {
    assert (n as real / d as real) * d as real == n as real;
  }

  // --- inputs ----------------------------------------------------------------------------

  datatype Asset = Asset(
    id: Id, isFailedSolution: bool, presentation: JsString, capabilities: seq<Id>,
    conditions: seq<Condition>, solutionSetId: Option<Id>)

  /** `rank` is the search engine's relevance: more negative is more relevant. */
  datatype Candidate = Candidate(asset: Asset, rank: real)

  datatype ScoreEntry = ScoreEntry(id: Id, score: real, evidenceCount: nat)

  datatype Inputs = Inputs(
    candidates: seq<Candidate>, solutionSets: seq<SolutionSet>, scores: seq<ScoreEntry>,
    facts: map<Id, Id>, capabilities: seq<Id>, limit: int)

  datatype Item = Item(
    id: Id, presentation: JsString, projectFit: real, championOf: Option<Id>, score: real, evidenceCount: nat)

  datatype CoverageEntry = CoverageEntry(solutionSetId: Id, memberCount: nat, problemId: Id)

  datatype RankResult = RankResult(items: seq<Item>, coverage: seq<CoverageEntry>, omittedCount: int)

  function ScoresById(scores: seq<ScoreEntry>): map<Id, ScoreEntry> {
    if scores == [] then map[]
    else var last := scores[|scores| - 1]; ScoresById(scores[..|scores| - 1])[last.id := last]
  }

  // --- the specification: one predicate per stage, one order, one cut ----------------------

  predicate Matches(a: Asset, wanted: seq<Id>) {
    wanted == [] || exists i :: 0 <= i < |a.capabilities| && a.capabilities[i] in wanted
  }

  /** What the filters look at besides the candidate. */
  datatype Context = Context(
    sets: map<Id, SolutionSet>, champions: map<Id, Id>, facts: map<Id, Id>, capabilities: seq<Id>)

  function ContextOf(inputs: Inputs): Context {
    Context(SetsById(inputs.solutionSets), Champions(inputs.solutionSets), inputs.facts, inputs.capabilities)
  }

  /** Past every filter that looks at the asset alone. */
  predicate Suitable(c: Candidate, ctx: Context) {
    && !c.asset.isFailedSolution
    && Matches(c.asset, ctx.capabilities)
    && !FitOf(c.asset.conditions, ctx.facts).verdict.Contradicted?
  }

  /** The known set a candidate belongs to. */
  function KnownSet(c: Candidate, ctx: Context): Option<Id> {
    if c.asset.solutionSetId.Some? && c.asset.solutionSetId.value in ctx.sets then c.asset.solutionSetId else None
  }

  /** Outside every known set, or its set's Champion. */
  predicate Keeps(c: Candidate, ctx: Context) {
    && Suitable(c, ctx)
    && (KnownSet(c, ctx).Some? ==>
          KnownSet(c, ctx).value in ctx.champions && ctx.champions[KnownSet(c, ctx).value] == c.asset.id)
  }

  /** Suitable, but its set has no Champion to speak for it. */
  predicate Uncovered(c: Candidate, ctx: Context) {
    Suitable(c, ctx) && KnownSet(c, ctx).Some? && KnownSet(c, ctx).value !in ctx.champions
  }

  function ScoreOf(c: Candidate, scores: map<Id, ScoreEntry>): real {
    if c.asset.id in scores then scores[c.asset.id].score else 0.0
  }

  function EvidenceOf(c: Candidate, scores: map<Id, ScoreEntry>): nat {
    if c.asset.id in scores then scores[c.asset.id].evidenceCount else 0
  }

  /** (rank, score descending, id). */
  predicate ComesBefore(a: Candidate, b: Candidate, scores: map<Id, ScoreEntry>) {
    if a.rank != b.rank then a.rank < b.rank
    else if ScoreOf(a, scores) != ScoreOf(b, scores) then ScoreOf(b, scores) < ScoreOf(a, scores)
    else Lex(a.asset.id, b.asset.id) < 0
  }

  function Order(scores: map<Id, ScoreEntry>): (Candidate, Candidate) -> bool {
    (a, b) => ComesBefore(a, b, scores)
  }

  function Recommendable(): Candidate -> bool { (c: Candidate) => !c.asset.isFailedSolution }

  function Matching(ctx: Context): Candidate -> bool { (c: Candidate) => Matches(c.asset, ctx.capabilities) }

  function Fitting(ctx: Context): Candidate -> bool {
    (c: Candidate) => !FitOf(c.asset.conditions, ctx.facts).verdict.Contradicted?
  }

  function Keeping(ctx: Context): Candidate -> bool { (c: Candidate) => Keeps(c, ctx) }

  function Uncovering(ctx: Context): Candidate -> bool { (c: Candidate) => Uncovered(c, ctx) }

  function SetOf(): Candidate -> Id { (c: Candidate) => c.asset.solutionSetId.GetOr([]) }

  function Kept(ctx: Context, candidates: seq<Candidate>): seq<Candidate> {
    Filter(Keeping(ctx), candidates)
  }

  function ItemOf(ctx: Context, scores: map<Id, ScoreEntry>): Candidate -> Item {
    (c: Candidate) => Item(c.asset.id, c.asset.presentation, FitOf(c.asset.conditions, ctx.facts).confirmed,
                           KnownSet(c, ctx), ScoreOf(c, scores), EvidenceOf(c, scores))
  }

  /** `s.slice(0, Math.max(0, n))`. */
  function Take<T>(n: int, s: seq<T>): (r: seq<T>)
    ensures r <= s && |r| == if n <= 0 then 0 else if n < |s| then n else |s|
  {
    if n <= 0 then [] else if n < |s| then s[..n] else s
  }

  function UncoveredSets(ctx: Context, candidates: seq<Candidate>): seq<Id> {
    Unique(Map(SetOf(), Filter(Uncovering(ctx), candidates)))
  }

  function CoverageOf(ctx: Context): Id -> CoverageEntry {
    (id: Id) =>
      if id in ctx.sets then CoverageEntry(id, |ctx.sets[id].members|, ctx.sets[id].problemId) else CoverageEntry(id, 0, [])
  }

  /** The kept candidates in order, before the cut. */
  function Ordered(inputs: Inputs): seq<Candidate> {
    Sort(Order(ScoresById(inputs.scores)), Kept(ContextOf(inputs), inputs.candidates))
  }

  function Ranked(inputs: Inputs): RankResult {
    var ctx := ContextOf(inputs);
    var items := Map(ItemOf(ctx, ScoresById(inputs.scores)), Take(inputs.limit, Ordered(inputs)));
    RankResult(items, Map(CoverageOf(ctx), Sort(Before16, UncoveredSets(ctx, inputs.candidates))), |inputs.candidates| - |items|)
  }

  // --- the passes over the candidates ---------------------------------------------------------

  function Fitted(ctx: Context, candidates: seq<Candidate>): seq<Candidate> {
    Filter(Fitting(ctx), Filter(Matching(ctx), Filter(Recommendable(), candidates)))
  }

  /** The first three filters, and how many candidates they leave out. */
  method FitCandidates(ctx: Context, candidates: seq<Candidate>) returns (fitted: seq<Candidate>, omitted: int)
    ensures fitted == Fitted(ctx, candidates) && omitted == |candidates| - |fitted|
  {
    hide Filter, Matches, FitOf;
    FilterNothing(Recommendable());
    FilterNothing(Matching(ctx));
    FilterNothing(Fitting(ctx));
    omitted := 0;
    var recommendable: seq<Candidate> := [];
    for i := 0 to |candidates|
      invariant recommendable == Filter(Recommendable(), candidates[..i]) && omitted == i - |recommendable|
    {
      FilterStep(Recommendable(), candidates, i);
      if !candidates[i].asset.isFailedSolution {
        recommendable := recommendable + [candidates[i]];
      } else {
        omitted := omitted + 1;
      }
    }
    assert candidates[..|candidates|] == candidates;

    var matched: seq<Candidate> := [];
    if |ctx.capabilities| == 0 {
      matched := recommendable;
      EveryoneMatches(ctx, recommendable);
    } else {
      for i := 0 to |recommendable|
        invariant matched == Filter(Matching(ctx), recommendable[..i])
        invariant omitted == |candidates| - |recommendable| + i - |matched|
      {
        FilterStep(Matching(ctx), recommendable, i);
        var hit := Matches(recommendable[i].asset, ctx.capabilities);
        if hit { matched := matched + [recommendable[i]]; } else { omitted := omitted + 1; }
      }
      assert recommendable[..|recommendable|] == recommendable;
    }

    fitted := [];
    for i := 0 to |matched|
      invariant fitted == Filter(Fitting(ctx), matched[..i])
      invariant omitted == |candidates| - |matched| + i - |fitted|
    {
      FilterStep(Fitting(ctx), matched, i);
      var fit := ProjectFitOf(matched[i].asset.conditions, ctx.facts);
      if fit.verdict.Contradicted? { omitted := omitted + 1; } else { fitted := fitted + [matched[i]]; }
    }
    assert matched[..|matched|] == matched;
  }

  lemma EveryoneMatches(ctx: Context, s: seq<Candidate>)
    requires |ctx.capabilities| == 0
    ensures Filter(Matching(ctx), s) == s
  {
    FilterAll(Matching(ctx), s);
  }

  lemma FilterAll<T(!new)>(p: T -> bool, s: seq<T>)
    requires forall x :: x in s ==> p(x)
    ensures Filter(p, s) == s
  {
    if s != [] { FilterAll(p, s[1..]); }
  }

  /** The set stage: keeps Champions and outsiders, reports sets that have no Champion. */
  method KeepChampions(ctx: Context, fitted: seq<Candidate>) returns (kept: seq<Candidate>, coverage: seq<Id>, omitted: int)
    requires forall c :: c in fitted ==> Suitable(c, ctx)
    ensures kept == Filter(Keeping(ctx), fitted) && omitted == |fitted| - |kept|
    ensures coverage == Unique(Map(SetOf(), Filter(Uncovering(ctx), fitted)))
  {
    hide Filter, Unique, Map, Suitable, SetsById, Champions;
    FilterNothing(Keeping(ctx));
    FilterNothing(Uncovering(ctx));
    UniqueNothing();
    kept, coverage, omitted := [], [], 0;
    for i := 0 to |fitted|
      invariant kept == Filter(Keeping(ctx), fitted[..i]) && omitted == i - |kept|
      invariant coverage == Unique(Map(SetOf(), Filter(Uncovering(ctx), fitted[..i])))
    {
      var c := fitted[i];
      assert c in fitted;
      FilterStep(Keeping(ctx), fitted, i);
      FilterStep(Uncovering(ctx), fitted, i);
      UniqueStep(ctx, fitted, i);
      var setId := c.asset.solutionSetId;
      if setId.None? || setId.value !in ctx.sets {
        kept := kept + [c];
      } else if setId.value !in ctx.champions {
        if setId.value !in coverage { coverage := coverage + [setId.value]; }
        omitted := omitted + 1;
      } else if ctx.champions[setId.value] != c.asset.id {
        omitted := omitted + 1;
      } else {
        kept := kept + [c];
      }
    }
    assert fitted[..|fitted|] == fitted;
  }

  lemma FilterNothing<T(!new)>(p: T -> bool)
    ensures Filter(p, []) == []
  {
  }

  lemma UniqueNothing()
    ensures Unique(Map(SetOf(), [])) == []
  {
  }

  lemma UniqueStep(ctx: Context, fitted: seq<Candidate>, i: nat)
    requires i < |fitted|
    ensures var before := Unique(Map(SetOf(), Filter(Uncovering(ctx), fitted[..i])));
            Unique(Map(SetOf(), Filter(Uncovering(ctx), fitted[..i + 1])))
              == if !Uncovered(fitted[i], ctx) || SetOf()(fitted[i]) in before then before else before + [SetOf()(fitted[i])]
  {
    FilterStep(Uncovering(ctx), fitted, i);
    var f, x := Filter(Uncovering(ctx), fitted[..i]), SetOf()(fitted[i]);
    assert f + [] == f;
    var all := Map(SetOf(), f + [fitted[i]]);
    assert all == Map(SetOf(), f) + [x] && all[..|all| - 1] == Map(SetOf(), f);
    assert x in Unique(Map(SetOf(), f)) <==> x in Map(SetOf(), f) by {
      assert x in Elements(Unique(Map(SetOf(), f))) <==> x in Elements(Map(SetOf(), f));
    }
  }

  lemma FittedIsSuitable(ctx: Context, candidates: seq<Candidate>)
    ensures forall c :: c in Fitted(ctx, candidates) ==> Suitable(c, ctx)
    ensures Filter(Keeping(ctx), Fitted(ctx, candidates)) == Kept(ctx, candidates)
    ensures Filter(Uncovering(ctx), Fitted(ctx, candidates)) == Filter(Uncovering(ctx), candidates)
  {
    var a := (c: Candidate) => Recommendable()(c) && Matching(ctx)(c);
    var b := (c: Candidate) => Suitable(c, ctx);
    FilterTwice(Recommendable(), Matching(ctx), a, candidates);
    FilterTwice(a, Fitting(ctx), b, candidates);
    FilterTwice(b, Keeping(ctx), Keeping(ctx), candidates);
    FilterTwice(b, Uncovering(ctx), Uncovering(ctx), candidates);
  }

  /** The whole ranking: filters, order, cut, coverage and the count of what is not shown. */
  method RankCandidates(inputs: Inputs) returns (r: RankResult)
    ensures r == Ranked(inputs)
  {
    var champions := ChampionsOf(inputs.solutionSets);
    var ctx := Context(SetsById(inputs.solutionSets), champions, inputs.facts, inputs.capabilities);
    var scores := ScoresById(inputs.scores);
    var fitted, omitted := FitCandidates(ctx, inputs.candidates);
    FittedIsSuitable(ctx, inputs.candidates);
    var kept, coverage, more := KeepChampions(ctx, fitted);
    omitted := omitted + more;
    var ordered := Sort(Order(scores), kept);
    var returned := Take(inputs.limit, ordered);
    omitted := omitted + |ordered| - |returned|;
    r := RankResult(Map(ItemOf(ctx, scores), returned), Map(CoverageOf(ctx), Sort(Before16, coverage)), omitted);
  }
}
