/**
 * What a ranking says of the inputs, in their own terms: which candidates are kept, who
 * speaks for a solution set, and what an item and a coverage entry report.
 */
module RankMeaning {
  import opened Wrappers
  import opened Text
  import opened Sorting
  import opened StringOrder
  import opened Rank
  import opened RankTheorems

  /** The set is pinned and names one of its own members. */
  predicate Names(s: SolutionSet, id: Id) {
    s.pinned && s.championId == Some(id) && id != [] && id in s.members
  }

  predicate NamesSomeone(s: SolutionSet) { s.championId.Some? && Names(s, s.championId.value) }

  /** The last set of this id that names a Champion names this one. */
  ghost predicate SpeaksFor(sets: seq<SolutionSet>, setId: Id, id: Id) {
    exists i :: 0 <= i < |sets| && sets[i].id == setId && Names(sets[i], id)
                && forall j :: i < j < |sets| && sets[j].id == setId ==> !NamesSomeone(sets[j])
  }

  lemma {:induction false} SpeaksExactly(sets: seq<SolutionSet>, setId: Id, id: Id)
    ensures setId in Champions(sets) && Champions(sets)[setId] == id <==> SpeaksFor(sets, setId, id)
  {
    if sets != [] {
      var front, last := sets[..|sets| - 1], sets[|sets| - 1];
      SpeaksExactly(front, setId, id);
      assert forall i :: 0 <= i < |front| ==> front[i] == sets[i];
      if last.id == setId && NamesSomeone(last) {
        if last.championId.value == id { assert sets[|sets| - 1].id == setId && Names(sets[|sets| - 1], id); }
      } else if SpeaksFor(front, setId, id) {
        var i :| 0 <= i < |front| && front[i].id == setId && Names(front[i], id)
                 && forall j :: i < j < |front| && front[j].id == setId ==> !NamesSomeone(front[j]);
        assert sets[i] == front[i];
        assert forall j :: i < j < |sets| && sets[j].id == setId ==> !NamesSomeone(sets[j]);
      }
    }
  }

  /** No observed fact rules it out. */
  ghost predicate NotContradicted(a: Asset, facts: map<Id, Id>) {
    forall c :: c in a.conditions && c.fact in facts ==> facts[c.fact] in c.allowed
  }

  lemma ContradictedExactly(a: Asset, facts: map<Id, Id>)
    ensures FitOf(a.conditions, facts).verdict.Contradicted? <==> !NotContradicted(a, facts)
  {
    if !NotContradicted(a, facts) {
      var c :| c in a.conditions && c.fact in facts && facts[c.fact] !in c.allowed;
      var i :| 0 <= i < |a.conditions| && a.conditions[i] == c;
      assert Contradicts(a.conditions[i], facts);
    }
  }

  /** Not a failed solution, able to do something that was asked for, and not ruled out. */
  ghost predicate Admissible(a: Asset, inputs: Inputs) {
    && !a.isFailedSolution
    && (inputs.capabilities == [] || exists x :: x in a.capabilities && x in inputs.capabilities)
    && NotContradicted(a, inputs.facts)
  }

  /** In no known solution set, or the one who speaks for it. */
  ghost predicate Speaks(a: Asset, sets: seq<SolutionSet>) {
    a.solutionSetId.Some? && (exists i :: 0 <= i < |sets| && sets[i].id == a.solutionSetId.value) ==>
      SpeaksFor(sets, a.solutionSetId.value, a.id)
  }

  lemma {:induction false} KnownSets(sets: seq<SolutionSet>, id: Id)
    ensures id in SetsById(sets) <==> exists i :: 0 <= i < |sets| && sets[i].id == id
  {
    if sets != [] {
      var front := sets[..|sets| - 1];
      KnownSets(front, id);
      assert forall i :: 0 <= i < |front| ==> front[i] == sets[i];
      if exists i :: 0 <= i < |front| && front[i].id == id {
        var i :| 0 <= i < |front| && front[i].id == id;
        assert sets[i].id == id;
      }
    }
  }

  lemma MatchesExactly(a: Asset, wanted: seq<Id>)
    ensures Matches(a, wanted) <==> wanted == [] || exists x :: x in a.capabilities && x in wanted
  {
    if wanted != [] && exists x :: x in a.capabilities && x in wanted {
      var x :| x in a.capabilities && x in wanted;
      var i :| 0 <= i < |a.capabilities| && a.capabilities[i] == x;
    }
  }

  lemma KeepsExactly(c: Candidate, inputs: Inputs)
    ensures Keeps(c, ContextOf(inputs)) <==> Admissible(c.asset, inputs) && Speaks(c.asset, inputs.solutionSets)
  {
    hide SetsById, Champions, SpeaksFor, FitOf, Matches, NotContradicted;
    MatchesExactly(c.asset, inputs.capabilities);
    ContradictedExactly(c.asset, inputs.facts);
    if c.asset.solutionSetId.Some? {
      KnownSets(inputs.solutionSets, c.asset.solutionSetId.value);
      SpeaksExactly(inputs.solutionSets, c.asset.solutionSetId.value, c.asset.id);
    }
  }

  /** Exactly which candidates are ranked, before the cut. */
  lemma {:induction false} KeptExactly(inputs: Inputs, c: Candidate)
    ensures c in Ordered(inputs) <==>
            c in inputs.candidates && Admissible(c.asset, inputs) && Speaks(c.asset, inputs.solutionSets)
  {
    hide Sort, Filter, Keeps, Admissible, Speaks;
    KeepsExactly(c, inputs);
    var kept := Kept(ContextOf(inputs), inputs.candidates);
    SameElements(kept, Ordered(inputs));
    assert c in Ordered(inputs) <==> c in Elements(Ordered(inputs));
    assert c in kept <==> c in Elements(kept);
  }

  /** The last entry of an asset's scores, or none. */
  ghost predicate Scored(scores: seq<ScoreEntry>, id: Id, score: real, evidence: nat) {
    if forall i :: 0 <= i < |scores| ==> scores[i].id != id then score == 0.0 && evidence == 0
    else exists i :: 0 <= i < |scores| && scores[i] == ScoreEntry(id, score, evidence)
                     && forall j :: i < j < |scores| ==> scores[j].id != id
  }

  lemma {:induction false} ScoresExactly(scores: seq<ScoreEntry>, c: Candidate)
    ensures Scored(scores, c.asset.id, ScoreOf(c, ScoresById(scores)), EvidenceOf(c, ScoresById(scores)))
  {
    if scores != [] {
      var front, last, id := scores[..|scores| - 1], scores[|scores| - 1], c.asset.id;
      ScoresExactly(front, c);
      LastEntry(scores);
      assert forall i :: 0 <= i < |front| ==> front[i] == scores[i];
      if last.id == id {
        assert scores[|scores| - 1] == ScoreEntry(id, last.score, last.evidenceCount);
      } else if !(forall i :: 0 <= i < |front| ==> front[i].id != id) {
        var s, e := ScoreOf(c, ScoresById(front)), EvidenceOf(c, ScoresById(front));
        var i :| 0 <= i < |front| && front[i] == ScoreEntry(id, s, e) && forall j :: i < j < |front| ==> front[j].id != id;
        assert scores[i] == ScoreEntry(id, s, e);
      }
    }
  }

  lemma LastEntry(scores: seq<ScoreEntry>)
    requires scores != []
    ensures ScoresById(scores) == ScoresById(scores[..|scores| - 1])[scores[|scores| - 1].id := scores[|scores| - 1]]
    ensures forall e :: e in ScoresById(scores) ==> ScoresById(scores)[e].id == e
  {
    if |scores| > 1 { LastEntry(scores[..|scores| - 1]); }
  }

  ghost function Observed(conditions: seq<Condition>, facts: map<Id, Id>): set<int> {
    set i | 0 <= i < |conditions| && conditions[i].fact in facts
  }

  /** The part of an asset's conditions that was observed. */
  ghost predicate Fraction(a: Asset, facts: map<Id, Id>, x: real) {
    if a.conditions == [] then x == 1.0
    else x * (|a.conditions| as real) == |Observed(a.conditions, facts)| as real
  }

  lemma {:induction false} ConfirmedCounts(conditions: seq<Condition>, facts: map<Id, Id>)
    ensures Confirmed(conditions, facts) == |Observed(conditions, facts)|
  {
    if conditions == [] {
      assert Observed(conditions, facts) == {};
    } else {
      var front, n := conditions[..|conditions| - 1], |conditions| - 1;
      ConfirmedCounts(front, facts);
      var some := Observed(front, facts);
      assert Observed(conditions, facts) == if conditions[n].fact in facts then some + {n} else some;
    }
  }

  lemma FractionOf(a: Asset, facts: map<Id, Id>)
    requires NotContradicted(a, facts)
    ensures Fraction(a, facts, FitOf(a.conditions, facts).confirmed)
  {
    hide Confirmed;
    ContradictedExactly(a, facts);
    ConfirmedCounts(a.conditions, facts);
    if a.conditions != [] { Divided(Confirmed(a.conditions, facts), |a.conditions|); }
  }

  lemma Divided(n: nat, d: nat)
    requires d > 0
    ensures (n as real / d as real) * d as real == n as real
  {
  }

  /** What an item reports of the candidate it shows. */
  ghost predicate Reports(item: Item, a: Asset, inputs: Inputs) {
    && item.id == a.id && item.presentation == a.presentation
    && Fraction(a, inputs.facts, item.projectFit)
    && Scored(inputs.scores, a.id, item.score, item.evidenceCount)
    && item.championOf == if a.solutionSetId.Some? && (exists i :: 0 <= i < |inputs.solutionSets| && inputs.solutionSets[i].id == a.solutionSetId.value)
                          then a.solutionSetId else None
  }

  /** Every item shows an admissible candidate, the one at its place in the order, and reports it truly. */
  lemma {:induction false} ItemsReport(inputs: Inputs, i: nat)
    requires i < |Ranked(inputs).items|
    ensures i < |Ordered(inputs)| && Ordered(inputs)[i] in inputs.candidates
    ensures Reports(Ranked(inputs).items[i], Ordered(inputs)[i].asset, inputs)
  {
    hide Sort, Filter, FitOf, SetsById, Champions, ScoresById, Scored, Fraction, Admissible, Speaks, ScoreOf, EvidenceOf;
    var c := Ordered(inputs)[i];
    KeptExactly(inputs, c);
    AdmissibleFits(c.asset, inputs);
    FractionOf(c.asset, inputs.facts);
    ScoresExactly(inputs.scores, c);
    if c.asset.solutionSetId.Some? { KnownSets(inputs.solutionSets, c.asset.solutionSetId.value); }
  }

  lemma AdmissibleFits(a: Asset, inputs: Inputs)
    requires Admissible(a, inputs)
    ensures NotContradicted(a, inputs.facts)
  {
  }

  /** Best first: by relevance, then by score from the top, then by id. */
  lemma {:induction false} ItemsInOrder(inputs: Inputs, i: nat, j: nat)
    requires i < j < |Ranked(inputs).items|
    ensures var a, b := Ranked(inputs).items[i], Ranked(inputs).items[j];
            && j < |Ordered(inputs)| && Ordered(inputs)[i].rank <= Ordered(inputs)[j].rank
            && (Ordered(inputs)[i].rank == Ordered(inputs)[j].rank ==>
                  b.score < a.score || (a.score == b.score && Lex(a.id, b.id) <= 0))
  {
    hide Filter, FitOf, SetsById, Champions, ScoresById, ScoreOf, EvidenceOf, Sort, Kept;
    var scores, kept := ScoresById(inputs.scores), Kept(ContextOf(inputs), inputs.candidates);
    OrderWeak(scores, Elements(kept));
    SortSorts(Order(scores), kept);
    var c, d := Ordered(inputs)[i], Ordered(inputs)[j];
    LexLaws(c.asset.id, d.asset.id);
    assert !ComesBefore(d, c, scores);
  }

  // --- coverage ------------------------------------------------------------------------------

  /** The last set of an id. */
  ghost predicate LastOf(sets: seq<SolutionSet>, id: Id, s: SolutionSet) {
    exists i :: 0 <= i < |sets| && sets[i] == s && s.id == id && forall j :: i < j < |sets| ==> sets[j].id != id
  }

  lemma {:induction false} LastExactly(sets: seq<SolutionSet>, id: Id)
    requires id in SetsById(sets)
    ensures LastOf(sets, id, SetsById(sets)[id])
  {
    var front, last := sets[..|sets| - 1], sets[|sets| - 1];
    assert forall i :: 0 <= i < |front| ==> front[i] == sets[i];
    if last.id == id {
      assert sets[|sets| - 1] == last;
    } else {
      LastExactly(front, id);
      var s := SetsById(front)[id];
      var i :| 0 <= i < |front| && front[i] == s && s.id == id && forall j :: i < j < |front| ==> front[j].id != id;
      assert sets[i] == s;
    }
  }

  /** Some admissible candidate belongs to this set, and nobody speaks for it. */
  ghost predicate Unspoken(inputs: Inputs, id: Id) {
    && (exists c :: c in inputs.candidates && Admissible(c.asset, inputs) && c.asset.solutionSetId == Some(id))
    && (exists i :: 0 <= i < |inputs.solutionSets| && inputs.solutionSets[i].id == id)
    && forall m :: !SpeaksFor(inputs.solutionSets, id, m)
  }

  lemma UncoveredExactly(inputs: Inputs, c: Candidate)
    ensures Uncovered(c, ContextOf(inputs)) <==>
            && Admissible(c.asset, inputs) && c.asset.solutionSetId.Some?
            && (exists i :: 0 <= i < |inputs.solutionSets| && inputs.solutionSets[i].id == c.asset.solutionSetId.value)
            && forall m :: !SpeaksFor(inputs.solutionSets, c.asset.solutionSetId.value, m)
  {
    hide SetsById, Champions, SpeaksFor, FitOf, Matches, NotContradicted;
    MatchesExactly(c.asset, inputs.capabilities);
    ContradictedExactly(c.asset, inputs.facts);
    if c.asset.solutionSetId.Some? {
      var id := c.asset.solutionSetId.value;
      KnownSets(inputs.solutionSets, id);
      forall m ensures id in Champions(inputs.solutionSets) && Champions(inputs.solutionSets)[id] == m <==> SpeaksFor(inputs.solutionSets, id, m) {
        SpeaksExactly(inputs.solutionSets, id, m);
      }
      if id in Champions(inputs.solutionSets) {
        assert SpeaksFor(inputs.solutionSets, id, Champions(inputs.solutionSets)[id]);
      }
    }
  }

  /** Exactly which sets are reported as having no Champion. */
  lemma {:induction false} CoverageExactly(inputs: Inputs, id: Id)
    ensures id in UncoveredSets(ContextOf(inputs), inputs.candidates) <==> Unspoken(inputs, id)
  {
    hide Filter, Uncovered, Admissible, SpeaksFor;
    var ctx := ContextOf(inputs);
    var cs := Filter(Uncovering(ctx), inputs.candidates);
    var names := Map(SetOf(), cs);
    assert id in UncoveredSets(ctx, inputs.candidates) <==> id in Elements(Unique(names));
    assert id in names <==> id in Elements(names);
    if id in names {
      var i :| 0 <= i < |names| && names[i] == id;
      assert cs[i] in cs;
      UncoveredExactly(inputs, cs[i]);
    }
    if Unspoken(inputs, id) {
      var c :| c in inputs.candidates && Admissible(c.asset, inputs) && c.asset.solutionSetId == Some(id);
      UncoveredExactly(inputs, c);
      assert c in cs;
      var i :| 0 <= i < |cs| && cs[i] == c;
      assert names[i] == id;
    }
  }

  /** A coverage entry reports the set it names. */
  lemma {:induction false} CoverageReports(inputs: Inputs, i: nat)
    requires i < |Ranked(inputs).coverage|
    ensures var entry := Ranked(inputs).coverage[i];
            && Unspoken(inputs, entry.solutionSetId)
            && exists s :: LastOf(inputs.solutionSets, entry.solutionSetId, s) && entry.memberCount == |s.members| && entry.problemId == s.problemId
  {
    hide Filter, Sort, Unspoken, LastOf, SetsById, UncoveredSets;
    var ctx := ContextOf(inputs);
    var ids := UncoveredSets(ctx, inputs.candidates);
    var sorted := Sort(Before16, ids);
    SameElements(ids, sorted);
    var id := sorted[i];
    assert id in Elements(sorted) && id in Elements(ids);
    CoverageExactly(inputs, id);
    UnspokenKnown(inputs, id);
    KnownSets(inputs.solutionSets, id);
    LastExactly(inputs.solutionSets, id);
  }

  lemma UnspokenKnown(inputs: Inputs, id: Id)
    requires Unspoken(inputs, id)
    ensures exists i :: 0 <= i < |inputs.solutionSets| && inputs.solutionSets[i].id == id
  {
  }
}
