/**
 * What callers may rely on about a ranking: it does not depend on arrival order, it
 * conserves candidates, it respects one Champion per set, and scores cannot interfere.
 */
module RankTheorems {
  import opened Wrappers
  import opened Text
  import opened Sorting
  import opened StringOrder
  import opened Rank

  ghost predicate DistinctIds(candidates: seq<Candidate>) {
    forall i, j :: 0 <= i < j < |candidates| ==> candidates[i].asset.id != candidates[j].asset.id
  }

  ghost predicate DistinctSets(sets: seq<SolutionSet>) {
    forall i, j :: 0 <= i < j < |sets| ==> sets[i].id != sets[j].id
  }

  // --- the order -------------------------------------------------------------------

  lemma OrderWeak(scores: map<Id, ScoreEntry>, s: set<Candidate>)
    ensures WeakOrderOn(Order(scores), s)
  {
    var before := Order(scores);
    forall x, y | x in s && y in s ensures before(x, y) ==> !before(y, x) {
      LexLaws(x.asset.id, y.asset.id);
    }
    forall x, y, z | x in s && y in s && z in s && before(x, z) ensures before(x, y) || before(y, z) {
      LexLaws(x.asset.id, y.asset.id);
      LexLaws(y.asset.id, z.asset.id);
      LexLaws(x.asset.id, z.asset.id);
      if !before(x, y) && !before(y, z) && Lex(z.asset.id, y.asset.id) <= 0 && Lex(y.asset.id, x.asset.id) <= 0 {
        LexTransitive(z.asset.id, y.asset.id, x.asset.id);
      }
    }
  }

  lemma OrderSeparates(scores: map<Id, ScoreEntry>, candidates: seq<Candidate>)
    requires DistinctIds(candidates)
    ensures SeparatesOn(Order(scores), Elements(candidates))
    ensures NoDuplicates(candidates)
  {
    forall x, y | x in Elements(candidates) && y in Elements(candidates) && x != y
      ensures Order(scores)(x, y) || Order(scores)(y, x)
    {
      var i :| 0 <= i < |candidates| && candidates[i] == x;
      var j :| 0 <= j < |candidates| && candidates[j] == y;
      LexLaws(x.asset.id, y.asset.id);
    }
  }

  lemma {:induction false} FilterDistinct(p: Candidate -> bool, candidates: seq<Candidate>)
    requires DistinctIds(candidates)
    ensures DistinctIds(Filter(p, candidates))
  {
    if candidates != [] {
      FilterDistinct(p, candidates[1..]);
      forall c | c in candidates[1..] ensures c.asset.id != candidates[0].asset.id {
        var i :| 0 <= i < |candidates[1..]| && candidates[1..][i] == c;
        assert candidates[i + 1] == c;
      }
    }
  }

  // --- sets by id, whatever order they are listed in -----------------------------------

  lemma {:induction false} SetsByIdFrom(sets: seq<SolutionSet>)
    ensures forall id :: id in SetsById(sets) ==> SetsById(sets)[id] in sets && SetsById(sets)[id].id == id
  {
    if sets != [] {
      SetsByIdFrom(sets[..|sets| - 1]);
    }
  }

  lemma {:induction false} SetsByIdHolds(sets: seq<SolutionSet>)
    requires DistinctSets(sets)
    ensures forall i :: 0 <= i < |sets| ==> sets[i].id in SetsById(sets) && SetsById(sets)[sets[i].id] == sets[i]
  {
    if sets != [] {
      var front := sets[..|sets| - 1];
      SetsByIdHolds(front);
      assert forall i :: 0 <= i < |front| ==> front[i] == sets[i];
    }
  }

  lemma SetsByIdMembers(sets: seq<SolutionSet>)
    requires DistinctSets(sets)
    ensures forall s :: s in sets ==> s.id in SetsById(sets) && SetsById(sets)[s.id] == s
    ensures forall id :: id in SetsById(sets) ==> SetsById(sets)[id] in sets && SetsById(sets)[id].id == id
  {
    hide SetsById;
    SetsByIdFrom(sets);
    SetsByIdHolds(sets);
  }

  /** Each set of a distinct listing speaks for itself. */
  lemma {:induction false} ChampionsById(sets: seq<SolutionSet>)
    requires DistinctSets(sets)
    ensures forall id :: id in Champions(sets) <==> id in SetsById(sets) && ChampionOf(SetsById(sets)[id]).Some?
    ensures forall id :: id in Champions(sets) ==> Some(Champions(sets)[id]) == ChampionOf(SetsById(sets)[id])
  {
    hide ChampionOf;
    if sets != [] {
      var front, last := sets[..|sets| - 1], sets[|sets| - 1];
      ChampionsById(front);
      SetsByIdMembers(front);
      forall id | id in SetsById(front) ensures id != last.id {
        var i :| 0 <= i < |front| && front[i] == SetsById(front)[id];
        assert sets[i] == front[i];
      }
    }
  }

  lemma ContextPermutes(a: Inputs, b: Inputs)
    requires DistinctSets(a.solutionSets) && DistinctSets(b.solutionSets)
    requires multiset(a.solutionSets) == multiset(b.solutionSets)
    requires a.facts == b.facts && a.capabilities == b.capabilities
    ensures ContextOf(a) == ContextOf(b)
  {
    SetsByIdMembers(a.solutionSets);
    SetsByIdMembers(b.solutionSets);
    ChampionsById(a.solutionSets);
    ChampionsById(b.solutionSets);
    SameElements(a.solutionSets, b.solutionSets);
    var x, y := SetsById(a.solutionSets), SetsById(b.solutionSets);
    forall id ensures id in x <==> id in y {
      if id in x { assert x[id] in Elements(b.solutionSets); }
      if id in y { assert y[id] in Elements(a.solutionSets); }
    }
    forall id | id in x ensures x[id] == y[id] {
      assert x[id] in Elements(b.solutionSets);
    }
    assert x == y;
    assert Champions(a.solutionSets) == Champions(b.solutionSets);
  }

  /** With distinct ids, neither the order of the candidates nor that of the sets shows. */
  lemma {:induction false} RankIgnoresArrival(a: Inputs, b: Inputs)
    requires DistinctIds(a.candidates) && DistinctSets(a.solutionSets) && DistinctSets(b.solutionSets)
    requires multiset(a.candidates) == multiset(b.candidates)
    requires multiset(a.solutionSets) == multiset(b.solutionSets)
    requires a.scores == b.scores && a.facts == b.facts && a.capabilities == b.capabilities && a.limit == b.limit
    ensures Ranked(a) == Ranked(b)
  {
    hide Keeping, Uncovering, Order, Sort, Filter, Unique;
    ContextPermutes(a, b);
    var ctx, scores := ContextOf(a), ScoresById(a.scores);
    SameElements(a.candidates, b.candidates);
    FilterPermutes(Keeping(ctx), a.candidates, b.candidates);
    FilterDistinct(Keeping(ctx), a.candidates);
    OrderWeak(scores, Elements(Kept(ctx, a.candidates)));
    OrderSeparates(scores, Kept(ctx, a.candidates));
    SortIgnoresArrival(Order(scores), Kept(ctx, a.candidates), Kept(ctx, b.candidates));
    CoveragePermutes(ctx, a.candidates, b.candidates);
  }

  lemma CoveragePermutes(ctx: Context, s: seq<Candidate>, t: seq<Candidate>)
    requires multiset(s) == multiset(t)
    ensures Sort(Before16, UncoveredSets(ctx, s)) == Sort(Before16, UncoveredSets(ctx, t))
  {
    hide Unique, Filter, Uncovering;
    FilterPermutes(Uncovering(ctx), s, t);
    var x, y := Filter(Uncovering(ctx), s), Filter(Uncovering(ctx), t);
    MapPermutes(SetOf(), x, y);
    SameElements(Map(SetOf(), x), Map(SetOf(), y));
    var u, v := UncoveredSets(ctx, s), UncoveredSets(ctx, t);
    SameSetSameCounts(u, v);
    Before16Order(Elements(u));
    SortIgnoresArrival(Before16, u, v);
  }

  // --- conservation and the cut ------------------------------------------------------------

  lemma {:induction false} FilterShortens<T(!new)>(p: T -> bool, s: seq<T>)
    ensures |Filter(p, s)| <= |s|
  {
    if s != [] { FilterShortens(p, s[1..]); }
  }

  /**
   * Every candidate is either shown or counted, for every limit, and what is shown is
   * the head of the ordered kept candidates: nothing left out comes before anything shown.
   */
  lemma {:induction false} CutKeepsTheBest(inputs: Inputs)
    requires DistinctIds(inputs.candidates)
    ensures var r := Ranked(inputs);
            var kept, all := Kept(ContextOf(inputs), inputs.candidates), Ordered(inputs);
            && |r.items| + r.omittedCount == |inputs.candidates| && r.omittedCount >= 0
            && |r.items| == (if inputs.limit <= 0 then 0 else if inputs.limit < |kept| then inputs.limit else |kept|)
            && multiset(all) == multiset(kept)
            && StrictlySorted(Order(ScoresById(inputs.scores)), all)
            && forall i :: 0 <= i < |r.items| ==> r.items[i].id == all[i].asset.id
  {
    hide Keeping, Filter, Order, Sort;
    var ctx, scores := ContextOf(inputs), ScoresById(inputs.scores);
    FilterShortens(Keeping(ctx), inputs.candidates);
    FilterDistinct(Keeping(ctx), inputs.candidates);
    OrderWeak(scores, Elements(Kept(ctx, inputs.candidates)));
    OrderSeparates(scores, Kept(ctx, inputs.candidates));
    SortStrict(Order(scores), Kept(ctx, inputs.candidates));
  }

  // --- scores only reorder -----------------------------------------------------------------

  /**
   * Two score snapshots give the same kept candidates, the same Champions, the same
   * coverage and the same omitted count. If the limit cuts nothing, even the ids shown
   * are the same.
   */
  lemma {:induction false} ScoresDoNotInterfere(inputs: Inputs, other: seq<ScoreEntry>)
    ensures var a, b := Ranked(inputs), Ranked(inputs.(scores := other));
            && multiset(Ordered(inputs)) == multiset(Ordered(inputs.(scores := other)))
            && a.coverage == b.coverage && a.omittedCount == b.omittedCount && |a.items| == |b.items|
            && (forall x, y :: x in a.items && y in b.items && x.championOf.Some? && x.championOf == y.championOf ==> x.id == y.id)
            && (inputs.limit >= |Ordered(inputs)| ==> multiset(IdsShown(a.items)) == multiset(IdsShown(b.items)))
  {
    hide Sort, Filter, Order, Keeping, Unique;
    var changed := inputs.(scores := other);
    assert ContextOf(inputs) == ContextOf(changed);
    var a, b := Ranked(inputs), Ranked(changed);
    assert |Ordered(inputs)| == |Ordered(changed)| == |Kept(ContextOf(inputs), inputs.candidates)|;
    forall x, y | x in a.items && y in b.items && x.championOf.Some? && x.championOf == y.championOf ensures x.id == y.id {
      ShownChampion(inputs, x);
      ShownChampion(changed, y);
    }
    if inputs.limit >= |Ordered(inputs)| {
      var id := (c: Candidate) => c.asset.id;
      MapPermutes(id, Ordered(inputs), Ordered(changed));
      assert IdsShown(a.items) == Map(id, Ordered(inputs));
      assert IdsShown(b.items) == Map(id, Ordered(changed));
    }
  }

  function IdsShown(items: seq<Item>): seq<Id> {
    Map((i: Item) => i.id, items)
  }

  /** An item that claims a set is that set's Champion. */
  lemma ShownChampion(inputs: Inputs, item: Item)
    requires item in Ranked(inputs).items && item.championOf.Some?
    ensures item.championOf.value in Champions(inputs.solutionSets)
    ensures Champions(inputs.solutionSets)[item.championOf.value] == item.id
  {
    hide Sort, Filter;
    var ctx, scores := ContextOf(inputs), ScoresById(inputs.scores);
    var kept := Kept(ctx, inputs.candidates);
    var shown := Take(inputs.limit, Ordered(inputs));
    var i :| 0 <= i < |shown| && Map(ItemOf(ctx, scores), shown)[i] == item;
    assert Ordered(inputs)[i] == shown[i];
    SameElements(kept, Ordered(inputs));
    assert shown[i] in Elements(Ordered(inputs)) && shown[i] in kept;
    assert Keeping(ctx)(shown[i]);
  }
}
