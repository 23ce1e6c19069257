/** The part of the agent contract that a ranking must meet. */
module AgentContract {
  import opened Wrappers
  import opened Sorting
  import opened StringOrder
  import opened Rank
  import RankTheorems

  /** The set ids that items claim, in order. */
  function Championed(items: seq<Item>): seq<Id> {
    if items == [] then []
    else
      var last := items[|items| - 1];
      Championed(items[..|items| - 1]) + if last.championOf.Some? then [last.championOf.value] else []
  }

  ghost predicate OneChampionPerSet(items: seq<Item>, coverage: seq<CoverageEntry>) {
    && NoDuplicates(Championed(items))
    && forall i :: 0 <= i < |coverage| ==> coverage[i].solutionSetId !in Championed(items)
  }

  /** Reports every set that appears with two Champions, or both with one and as unresolved. */
  method CheckOneChampionPerSet(items: seq<Item>, coverage: seq<CoverageEntry>) returns (issues: seq<Id>)
    ensures issues == [] <==> OneChampionPerSet(items, coverage)
    ensures forall id :: id in issues ==> id in Championed(items)
  {
    issues := [];
    var seen: set<Id> := {};
    for i := 0 to |items|
      invariant seen == Elements(Championed(items[..i]))
      invariant issues == [] <==> NoDuplicates(Championed(items[..i]))
      invariant forall id :: id in issues ==> id in Championed(items[..i])
    {
      assert items[..i + 1][..i] == items[..i];
      var before := Championed(items[..i]);
      if items[i].championOf.Some? {
        var setId := items[i].championOf.value;
        AppendDistinct(before, setId);
        if setId in seen { issues := issues + [setId]; }
        seen := seen + {setId};
      } else {
        assert before + [] == before;
      }
    }
    assert items[..|items|] == items;
    for i := 0 to |coverage|
      invariant issues == [] <==> NoDuplicates(Championed(items)) && forall j :: 0 <= j < i ==> coverage[j].solutionSetId !in Championed(items)
      invariant forall id :: id in issues ==> id in Championed(items)
    {
      if coverage[i].solutionSetId in seen { issues := issues + [coverage[i].solutionSetId]; }
    }
  }

  lemma {:induction false} ChampionedFrom(items: seq<Item>)
    ensures forall s :: s in Championed(items) ==> exists i :: 0 <= i < |items| && items[i].championOf == Some(s)
  {
    if items != [] {
      var front := items[..|items| - 1];
      ChampionedFrom(front);
      forall s | s in Championed(items) ensures exists i :: 0 <= i < |items| && items[i].championOf == Some(s) {
        if s in Championed(front) {
          var i :| 0 <= i < |front| && front[i].championOf == Some(s);
          assert items[i].championOf == Some(s);
        } else {
          assert items[|items| - 1].championOf == Some(s);
        }
      }
    }
  }

  /** Distinct items that each are a Champion claim distinct sets. */
  lemma {:induction false} ChampionsDistinct(champions: map<Id, Id>, items: seq<Item>)
    requires forall i, j :: 0 <= i < j < |items| ==> items[i].id != items[j].id
    requires forall i :: 0 <= i < |items| && items[i].championOf.Some? ==>
               items[i].championOf.value in champions && champions[items[i].championOf.value] == items[i].id
    ensures NoDuplicates(Championed(items))
  {
    if items != [] {
      var front, last := items[..|items| - 1], items[|items| - 1];
      ChampionsDistinct(champions, front);
      ChampionedFrom(front);
      if last.championOf.Some? { AppendDistinct(Championed(front), last.championOf.value); }
    }
  }

  /** A ranking of candidates with distinct ids always passes, whatever the sets say. */
  lemma {:induction false} RankedPasses(inputs: Inputs)
    requires RankTheorems.DistinctIds(inputs.candidates)
    ensures OneChampionPerSet(Ranked(inputs).items, Ranked(inputs).coverage)
  {
    hide Sort, Filter, Unique, Ranked, Champions;
    var r, champions := Ranked(inputs), Champions(inputs.solutionSets);
    RankTheorems.CutKeepsTheBest(inputs);
    forall i | 0 <= i < |r.items| && r.items[i].championOf.Some?
      ensures r.items[i].championOf.value in champions && champions[r.items[i].championOf.value] == r.items[i].id
    {
      RankTheorems.ShownChampion(inputs, r.items[i]);
    }
    OrderedDistinct(inputs);
    ChampionsDistinct(champions, r.items);
    ChampionedFrom(r.items);
    forall i | 0 <= i < |r.coverage| ensures r.coverage[i].solutionSetId !in Championed(r.items) {
      CoveredWithoutChampion(inputs, i);
    }
  }

  lemma OrderedDistinct(inputs: Inputs)
    requires RankTheorems.DistinctIds(inputs.candidates)
    ensures RankTheorems.DistinctIds(Ordered(inputs))
  {
    hide Sort, Filter, Order, Keeping;
    var kept := Kept(ContextOf(inputs), inputs.candidates);
    RankTheorems.FilterDistinct(Keeping(ContextOf(inputs)), inputs.candidates);
    var id := (c: Candidate) => c.asset.id;
    var before := Map(id, kept);
    assert NoDuplicates(before);
    MapPermutes(id, kept, Ordered(inputs));
    NoDuplicatesPermutes(before, Map(id, Ordered(inputs)));
    var after := Map(id, Ordered(inputs));
    forall i, j | 0 <= i < j < |Ordered(inputs)| ensures Ordered(inputs)[i].asset.id != Ordered(inputs)[j].asset.id {
      assert after[i] != after[j];
    }
  }

  lemma {:induction false} CoveredWithoutChampion(inputs: Inputs, i: nat)
    requires i < |Ranked(inputs).coverage|
    ensures Ranked(inputs).coverage[i].solutionSetId !in Champions(inputs.solutionSets)
  {
    hide Sort, Filter, Unique;
    var ctx := ContextOf(inputs);
    var ids := UncoveredSets(ctx, inputs.candidates);
    var sorted := Sort(Before16, ids);
    SameElements(ids, sorted);
    var id := Ranked(inputs).coverage[i].solutionSetId;
    assert id == sorted[i];
    assert id in Elements(sorted);
    var fs := Filter(Uncovering(ctx), inputs.candidates);
    assert id in Elements(Map(SetOf(), fs));
    var k :| 0 <= k < |fs| && Map(SetOf(), fs)[k] == id;
    assert fs[k] in fs && Uncovering(ctx)(fs[k]);
  }
}
