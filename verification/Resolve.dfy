/**
 * `resolve` and `expand`: the same ranking under two limits and two candidate pools.
 */
module Resolve {
  import opened Wrappers
  import opened Sorting
  import opened Rank
  import opened RankTheorems
  import AgentContract

  const DEFAULT_LIMIT := 5
  const MAX_LIMIT := 50

  /** What both verbs read: the hits for the hint, best first, and the rest of the index. */
  datatype Index = Index(
    hits: seq<Candidate>, solutionSets: seq<SolutionSet>, scores: seq<ScoreEntry>,
    facts: map<Id, Id>, capabilities: seq<Id>)

  function Min(a: int, b: int): int { if a < b then a else b }

  /** `searchAssets(hint, limit)`. */
  function SearchAssets(index: Index, limit: int): seq<Candidate> { Take(limit, index.hits) }

  function PoolSize(limit: int): int { Min(MAX_LIMIT, limit * 4) }

  function InputsFor(index: Index, limit: int): Inputs {
    Inputs(SearchAssets(index, PoolSize(limit)), index.solutionSets, index.scores, index.facts, index.capabilities, limit)
  }

  function ResolveLimit(requested: Option<int>): int { Min(requested.GetOr(DEFAULT_LIMIT), MAX_LIMIT) }

  datatype Beyond = Corpus | Limit

  function ExpandLimit(beyond: Beyond): int {
    match beyond
    case Corpus => MAX_LIMIT
    case Limit => DEFAULT_LIMIT * 2
  }

  /** At most `limit` of the first `pool` hits are shown, and the rest of them are counted. */
  ghost predicate ShowsOf(r: RankResult, hits: seq<Candidate>, limit: int, pool: int) {
    && |r.items| <= (if limit < 0 then 0 else limit)
    && 0 <= r.omittedCount
    && |r.items| + r.omittedCount == (if pool < 0 then 0 else if pool < |hits| then pool else |hits|)
    && forall i :: 0 <= i < |r.items| ==> exists k :: 0 <= k < pool && k < |hits| && hits[k].asset.id == r.items[i].id
  }

  lemma RankedShows(index: Index, limit: int)
    ensures ShowsOf(Ranked(InputsFor(index, limit)), index.hits, limit, if limit * 4 < 50 then limit * 4 else 50)
  {
    hide Sort, Filter, Order, Keeping;
    var inputs := InputsFor(index, limit);
    var r, kept := Ranked(inputs), Kept(ContextOf(inputs), inputs.candidates);
    FilterShortens(Keeping(ContextOf(inputs)), inputs.candidates);
    SameElements(kept, Ordered(inputs));
    forall i | 0 <= i < |r.items|
      ensures exists k :: 0 <= k < |inputs.candidates| && index.hits[k].asset.id == r.items[i].id
    {
      var c := Ordered(inputs)[i];
      assert c in Elements(Ordered(inputs)) && c in Elements(kept);
      var k :| 0 <= k < |inputs.candidates| && inputs.candidates[k] == c;
      assert index.hits[k] == c;
    }
  }

  /** Five items unless asked otherwise and never more than fifty, out of four hits per item. */
  method ResolveItems(index: Index, requested: Option<int>) returns (r: RankResult)
    ensures r == Ranked(InputsFor(index, ResolveLimit(requested)))
    ensures requested.None? ==> ShowsOf(r, index.hits, 5, 20)
    ensures requested.Some? && requested.value <= 12 ==> ShowsOf(r, index.hits, requested.value, requested.value * 4)
    ensures requested.Some? && 12 < requested.value <= 50 ==> ShowsOf(r, index.hits, requested.value, 50)
    ensures requested.Some? && 50 < requested.value ==> ShowsOf(r, index.hits, 50, 50)
  {
    hide Ranked, ShowsOf;
    RankedShows(index, ResolveLimit(requested));
    r := RankCandidates(InputsFor(index, ResolveLimit(requested)));
  }

  /** Fifty items out of fifty hits beyond the corpus, ten out of forty beyond the limit. */
  method ExpandItems(index: Index, beyond: Beyond) returns (r: RankResult)
    ensures r == Ranked(InputsFor(index, ExpandLimit(beyond)))
    ensures beyond.Corpus? ==> ShowsOf(r, index.hits, 50, 50)
    ensures beyond.Limit? ==> ShowsOf(r, index.hits, 10, 40)
  {
    hide Ranked, ShowsOf;
    RankedShows(index, ExpandLimit(beyond));
    r := RankCandidates(InputsFor(index, ExpandLimit(beyond)));
  }

  /** The search returns distinct assets in rank order. */
  ghost predicate SearchOrdered(index: Index) {
    && DistinctIds(index.hits)
    && forall i, j :: 0 <= i < j < |index.hits| ==> index.hits[i].rank <= index.hits[j].rank
  }

  function ContextFor(index: Index): Context {
    Context(SetsById(index.solutionSets), Champions(index.solutionSets), index.facts, index.capabilities)
  }

  /** Kept candidates of the wider pool that the narrower one did not reach. */
  function Beyonders(index: Index, narrow: int, wide: int): seq<Candidate>
    requires 0 <= narrow <= wide
  {
    Kept(ContextFor(index), SearchAssets(index, wide)[|SearchAssets(index, narrow)|..])
  }

  function Pool(limit: int): nat { if PoolSize(limit) < 0 then 0 else PoolSize(limit) }

  lemma PoolsNest(index: Index, narrow: int, wide: int)
    requires narrow <= wide
    ensures Pool(narrow) <= Pool(wide)
    ensures SearchAssets(index, PoolSize(narrow)) == SearchAssets(index, Pool(narrow))
    ensures SearchAssets(index, Pool(narrow)) <= SearchAssets(index, Pool(wide)) <= index.hits
  {
  }

  /** How the wider ranking splits into the narrower pool and what lies beyond it. */
  lemma OrderedSplits(index: Index, narrow: int, wide: int)
    requires narrow <= wide && SearchOrdered(index)
    ensures var scores := ScoresById(index.scores);
            var near, far := Kept(ContextFor(index), SearchAssets(index, Pool(narrow))), Beyonders(index, Pool(narrow), Pool(wide));
            && Ordered(InputsFor(index, narrow)) == Sort(Order(scores), near)
            && Ordered(InputsFor(index, wide)) == Sort(Order(scores), near + far)
            && DistinctIds(near + far)
            && WeakOrderOn(Order(scores), Elements(near + far)) && SeparatesOn(Order(scores), Elements(near + far))
  {
    hide Sort, Filter, Order, Keeping;
    PoolsNest(index, narrow, wide);
    var ctx, scores := ContextFor(index), ScoresById(index.scores);
    var a, b := SearchAssets(index, Pool(narrow)), SearchAssets(index, Pool(wide));
    assert b == a + b[|a|..];
    FilterConcat(Keeping(ctx), a, b[|a|..]);
    var all := Kept(ctx, a) + Beyonders(index, Pool(narrow), Pool(wide));
    assert all == Kept(ctx, b);
    assert ContextOf(InputsFor(index, narrow)) == ctx && ContextOf(InputsFor(index, wide)) == ctx;
    assert DistinctIds(b);
    FilterDistinct(Keeping(ctx), b);
    OrderWeak(scores, Elements(all));
    OrderSeparates(scores, all);
  }

  /** Nothing kept beyond the narrow pool outranks an item that `narrow` shows. */
  ghost predicate NothingBeyondOutranks(index: Index, narrow: int, wide: int)
    requires narrow <= wide
  {
    var shown := Take(narrow, Ordered(InputsFor(index, narrow)));
    forall i, c :: 0 <= i < |shown| && c in Beyonders(index, Pool(narrow), Pool(wide)) ==>
      Order(ScoresById(index.scores))(shown[i], c)
  }

  function ShownBy(index: Index, limit: int): seq<Candidate> { Take(limit, Ordered(InputsFor(index, limit))) }

  lemma {:induction false} ItemsFollowShown(index: Index, narrow: int, wide: int)
    requires narrow <= wide && DistinctIds(ShownBy(index, narrow)) && DistinctIds(ShownBy(index, wide))
    requires Elements(ShownBy(index, narrow)) <= Elements(Kept(ContextFor(index), index.hits))
    requires Elements(ShownBy(index, wide)) <= Elements(Kept(ContextFor(index), index.hits))
    requires DistinctIds(Kept(ContextFor(index), index.hits))
    ensures Ranked(InputsFor(index, narrow)).items <= Ranked(InputsFor(index, wide)).items <==>
            ShownBy(index, narrow) <= ShownBy(index, wide)
  {
    hide Ordered, Kept;
    var f := ItemOf(ContextFor(index), ScoresById(index.scores));
    var a, b := ShownBy(index, narrow), ShownBy(index, wide);
    assert ContextOf(InputsFor(index, narrow)) == ContextFor(index) && ContextOf(InputsFor(index, wide)) == ContextFor(index);
    assert Ranked(InputsFor(index, narrow)).items == Map(f, a);
    assert Ranked(InputsFor(index, wide)).items == Map(f, b);
    if Map(f, a) <= Map(f, b) {
      forall i | 0 <= i < |a| ensures a[i] == b[i] {
        assert Map(f, a)[i] == Map(f, b)[i];
        assert a[i] in Elements(a) && b[i] in Elements(b);
        SameIdSame(Kept(ContextFor(index), index.hits), a[i], b[i]);
      }
    }
    if a <= b {
      assert forall i :: 0 <= i < |a| ==> a[i] == b[i];
    }
  }

  lemma SameIdSame(s: seq<Candidate>, x: Candidate, y: Candidate)
    requires DistinctIds(s) && x in Elements(s) && y in Elements(s) && x.asset.id == y.asset.id
    ensures x == y
  {
    var i :| 0 <= i < |s| && s[i] == x;
    var j :| 0 <= j < |s| && s[j] == y;
  }

  /** The first `k` of a sorted sequence, when they also precede everything in `far`. */
  lemma HeadPrecedes(before: (Candidate, Candidate) -> bool, sorted: seq<Candidate>, far: seq<Candidate>, k: nat)
    requires StrictlySorted(before, sorted) && k <= |sorted|
    requires forall i, c :: 0 <= i < k && c in far ==> before(sorted[i], c)
    ensures forall x, y :: x in sorted[..k] && y in sorted[k..] + far ==> before(x, y)
  {
    var rest := sorted[k..];
    forall x, y | x in sorted[..k] && y in rest + far ensures before(x, y) {
      var i :| 0 <= i < k && sorted[i] == x;
      if y in rest {
        var j :| 0 <= j < |rest| && rest[j] == y;
        assert sorted[k + j] == y;
      }
    }
  }

  lemma SortSorted(before: (Candidate, Candidate) -> bool, s: seq<Candidate>)
    requires WeakOrderOn(before, Elements(s)) && SeparatesOn(before, Elements(s)) && Sorted(before, s)
    ensures Sort(before, s) == s
  {
    SortSorts(before, s);
    SortedUnique(before, s, Sort(before, s));
  }

  lemma Regroups(near: seq<Candidate>, far: seq<Candidate>, sorted: seq<Candidate>, k: nat)
    requires multiset(sorted) == multiset(near) && k <= |sorted|
    ensures multiset(near + far) == multiset(sorted[..k] + (sorted[k..] + far))
    ensures Elements(near + far) == Elements(sorted[..k] + (sorted[k..] + far))
  {
    assert sorted[..k] + (sorted[k..] + far) == sorted + far by { assert sorted == sorted[..k] + sorted[k..]; }
    SameElements(near + far, sorted + far);
  }

  lemma {:induction false} HeadStaysInFront(before: (Candidate, Candidate) -> bool, near: seq<Candidate>, far: seq<Candidate>, k: nat)
    requires NoDuplicates(near)
    requires WeakOrderOn(before, Elements(near + far)) && SeparatesOn(before, Elements(near + far))
    requires k <= |near| && forall i, c :: 0 <= i < k && c in far ==> before(Sort(before, near)[i], c)
    ensures Sort(before, near)[..k] <= Sort(before, near + far)
  {
    hide Sort, WeakOrderOn, SeparatesOn;
    var sorted := Sort(before, near);
    var head, rest := sorted[..k], sorted[k..] + far;
    OrderWithin(before, Elements(near), Elements(near + far));
    SortStrict(before, near);
    HeadPrecedes(before, sorted, far, k);
    Regroups(near, far, sorted, k);
    SortIgnoresArrival(before, near + far, head + rest);
    SortConcat(before, head, rest);
    OrderWithin(before, Elements(head), Elements(near + far));
    HeadSorted(before, near, k);
    SortSorted(before, head);
  }

  lemma {:induction false} HeadSorted(before: (Candidate, Candidate) -> bool, near: seq<Candidate>, k: nat)
    requires WeakOrderOn(before, Elements(near)) && k <= |near|
    ensures Sorted(before, Sort(before, near)[..k])
  {
    SortSorts(before, near);
    var sorted := Sort(before, near);
    assert forall i :: 0 <= i < k ==> sorted[..k][i] == sorted[i];
  }

  lemma NearDistinct(near: seq<Candidate>, far: seq<Candidate>)
    requires DistinctIds(near + far)
    ensures NoDuplicates(near) && DistinctIds(near)
    ensures forall x, y :: x in near && y in far ==> x.asset.id != y.asset.id
  {
    var all := near + far;
    assert forall i :: 0 <= i < |near| ==> all[i] == near[i];
    assert forall j :: 0 <= j < |far| ==> all[|near| + j] == far[j];
  }

  lemma {:induction false} FarComesLater(before: (Candidate, Candidate) -> bool, near: seq<Candidate>, far: seq<Candidate>, k: nat)
    requires DistinctIds(near + far) && NoDuplicates(near + far)
    requires WeakOrderOn(before, Elements(near + far)) && SeparatesOn(before, Elements(near + far))
    requires k <= |near| && Sort(before, near)[..k] <= Sort(before, near + far)
    ensures forall i, c :: 0 <= i < k && c in far ==> before(Sort(before, near)[i], c)
  {
    hide Sort;
    var sorted, all := Sort(before, near), Sort(before, near + far);
    SortStrict(before, near + far);
    SameElements(near + far, all);
    SameElements(near, sorted);
    NearDistinct(near, far);
    assert forall i :: 0 <= i < k ==> all[i] == sorted[..k][i] == sorted[i] && sorted[i] in Elements(sorted);
    assert forall c :: c in far ==> c in Elements(near + far) && c !in Elements(near);
    forall i, c | 0 <= i < k && c in far ensures before(sorted[i], c) {
      assert c in Elements(all);
      var j :| 0 <= j < |all| && all[j] == c;
      assert j >= k;
    }
  }

  /** Widening extends the list exactly when nothing kept beyond the pool outranks an item shown. */
  lemma {:induction false} WideningExtendsExactly(index: Index, narrow: int, wide: int)
    requires narrow <= wide && SearchOrdered(index)
    ensures Ranked(InputsFor(index, narrow)).items <= Ranked(InputsFor(index, wide)).items <==>
            NothingBeyondOutranks(index, narrow, wide)
  {
    hide Sort, Order, Kept, Ranked;
    var before := Order(ScoresById(index.scores));
    var near, far := Kept(ContextFor(index), SearchAssets(index, Pool(narrow))), Beyonders(index, Pool(narrow), Pool(wide));
    OrderedSplits(index, narrow, wide);
    var k := |Take(narrow, Sort(before, near))|;
    OrderSeparates(ScoresById(index.scores), near + far);
    ShownWithin(index, narrow, wide);
    ItemsFollowShown(index, narrow, wide);
    assert ShownBy(index, narrow) == Sort(before, near)[..k];
    if NothingBeyondOutranks(index, narrow, wide) {
      assert forall i :: 0 <= i < k ==> Take(narrow, Sort(before, near))[i] == Sort(before, near)[i];
      NearDistinct(near, far);
      HeadStaysInFront(before, near, far, k);
      assert ShownBy(index, narrow) <= ShownBy(index, wide);
    }
    if ShownBy(index, narrow) <= ShownBy(index, wide) {
      assert ShownBy(index, wide) <= Sort(before, near + far);
      FarComesLater(before, near, far, k);
    }
  }

  lemma ShownWithin(index: Index, narrow: int, wide: int)
    requires narrow <= wide && SearchOrdered(index)
    ensures var all := Kept(ContextFor(index), index.hits);
            && DistinctIds(all)
            && DistinctIds(ShownBy(index, narrow)) && DistinctIds(ShownBy(index, wide))
            && Elements(ShownBy(index, narrow)) <= Elements(all) && Elements(ShownBy(index, wide)) <= Elements(all)
  {
    FilterDistinct(Keeping(ContextFor(index)), index.hits);
    ShownByWithin(index, narrow);
    ShownByWithin(index, wide);
  }

  lemma ShownByWithin(index: Index, limit: int)
    requires SearchOrdered(index)
    ensures DistinctIds(ShownBy(index, limit))
    ensures Elements(ShownBy(index, limit)) <= Elements(Kept(ContextFor(index), index.hits))
  {
    hide Sort, Filter, Order, Keeping;
    var inputs := InputsFor(index, limit);
    var pool, ctx := SearchAssets(index, PoolSize(limit)), ContextFor(index);
    assert pool <= index.hits;
    assert DistinctIds(pool);
    AgentContract.OrderedDistinct(inputs);
    SameElements(Kept(ctx, pool), Ordered(inputs));
    forall c | c in ShownBy(index, limit) ensures c in Kept(ctx, index.hits) {
      assert c in Elements(Ordered(inputs));
      assert c in Elements(Kept(ctx, pool));
    }
  }

  /** No hit beyond the pool ties with the last one inside. */
  predicate NoTieAtTheCut(index: Index, limit: int) {
    0 < Pool(limit) < |index.hits| ==> index.hits[Pool(limit) - 1].rank < index.hits[Pool(limit)].rank
  }

  /** `expand` shows what `resolve` showed, and more, whenever no tie straddles the pool. */
  lemma {:induction false} ExpandExtendsResolve(index: Index, requested: Option<int>, beyond: Beyond)
    requires SearchOrdered(index) && ResolveLimit(requested) <= ExpandLimit(beyond)
    requires NoTieAtTheCut(index, ResolveLimit(requested))
    ensures Ranked(InputsFor(index, ResolveLimit(requested))).items <= Ranked(InputsFor(index, ExpandLimit(beyond))).items
  {
    hide Sort, Order, Kept, Ranked;
    var narrow, wide := ResolveLimit(requested), ExpandLimit(beyond);
    var shown := Take(narrow, Ordered(InputsFor(index, narrow)));
    forall i, c | 0 <= i < |shown| && c in Beyonders(index, Pool(narrow), Pool(wide))
      ensures Order(ScoresById(index.scores))(shown[i], c)
    {
      ShownPrecedes(index, narrow, wide, i, c);
    }
    assert NothingBeyondOutranks(index, narrow, wide);
    WideningExtendsExactly(index, narrow, wide);
  }

  lemma ShownPrecedes(index: Index, narrow: int, wide: int, i: nat, c: Candidate)
    requires narrow <= wide && SearchOrdered(index) && NoTieAtTheCut(index, narrow)
    requires i < |ShownBy(index, narrow)| && c in Beyonders(index, Pool(narrow), Pool(wide))
    ensures Order(ScoresById(index.scores))(ShownBy(index, narrow)[i], c)
  {
    hide Sort, Filter, Keeping, Ranked;
    var x := ShownBy(index, narrow)[i];
    ShownInPool(index, narrow, x);
    RankGap(index, narrow, wide, x, c);
  }

  lemma ShownInPool(index: Index, narrow: int, x: Candidate)
    requires x in ShownBy(index, narrow)
    ensures x in SearchAssets(index, Pool(narrow))
  {
    hide Sort, Filter, Keeping, Order;
    SameElements(Kept(ContextFor(index), SearchAssets(index, PoolSize(narrow))), Ordered(InputsFor(index, narrow)));
    assert x in Elements(Ordered(InputsFor(index, narrow)));
    assert x in Elements(Kept(ContextFor(index), SearchAssets(index, PoolSize(narrow))));
    PoolsNest(index, narrow, narrow);
  }

  lemma RankGap(index: Index, narrow: int, wide: int, x: Candidate, c: Candidate)
    requires narrow <= wide && SearchOrdered(index) && NoTieAtTheCut(index, narrow)
    requires x in SearchAssets(index, Pool(narrow))
    requires c in SearchAssets(index, Pool(wide))[|SearchAssets(index, Pool(narrow))|..]
    ensures x.rank < c.rank
  {
    var a, b := SearchAssets(index, Pool(narrow)), SearchAssets(index, Pool(wide));
    var i :| 0 <= i < |a| && a[i] == x;
    var j :| 0 <= j < |b[|a|..]| && b[|a|..][j] == c;
    assert index.hits[i] == x && index.hits[|a| + j] == c;
    assert |a| == Pool(narrow);
    assert index.hits[i].rank <= index.hits[Pool(narrow) - 1].rank;
    assert index.hits[Pool(narrow)].rank <= index.hits[|a| + j].rank;
  }

  function Plain(id: Id): Candidate { Candidate(Asset(id, false, [], [], [], None), 0.0) }

  /** Five hits that tie in rank, the fifth with the better score. */
  const TIED := Index([Plain([1]), Plain([2]), Plain([3]), Plain([4]), Plain([5])], [], [ScoreEntry([5], 1.0, 1)], map[], [])

  lemma TiedSearch()
    ensures SearchOrdered(TIED) && !NoTieAtTheCut(TIED, 1)
  {
    assert forall i :: 0 <= i < 5 ==> TIED.hits[i] == Plain([i + 1]);
  }

  lemma TiedPools()
    ensures SearchAssets(TIED, Pool(1)) == [Plain([1]), Plain([2]), Plain([3]), Plain([4])]
    ensures SearchAssets(TIED, Pool(50)) == TIED.hits
    ensures ScoresById(TIED.scores) == map[[5] := ScoreEntry([5], 1.0, 1)]
  {
    assert TIED.scores[..0] == [];
    assert TIED.hits[..4] == [Plain([1]), Plain([2]), Plain([3]), Plain([4])];
  }

  lemma {:induction false} TiedBeyond()
    ensures Beyonders(TIED, Pool(1), Pool(50)) == [Plain([5])]
    ensures Kept(ContextFor(TIED), SearchAssets(TIED, Pool(1))) == SearchAssets(TIED, Pool(1))
  {
    hide Filter, ScoresById;
    TiedPools();
    var near := SearchAssets(TIED, Pool(1));
    assert TIED.hits[4..] == [Plain([5])];
    FilterAll(Keeping(ContextFor(TIED)), near);
    FilterAll(Keeping(ContextFor(TIED)), [Plain([5])]);
  }

  /** The condition is needed: at limit 1 the pool is four hits, and the best of the five is the fifth. */
  lemma {:induction false} TieBreaksWidening()
    ensures SearchOrdered(TIED) && !NoTieAtTheCut(TIED, ResolveLimit(Some(1)))
    ensures !(Ranked(InputsFor(TIED, ResolveLimit(Some(1)))).items <= Ranked(InputsFor(TIED, ExpandLimit(Corpus))).items)
  {
    hide Sort, Kept, Ranked, Ordered;
    TiedSearch();
    TiedBeyond();
    TiedShown();
    WideningExtendsExactly(TIED, 1, 50);
    assert Plain([5]) in Beyonders(TIED, Pool(1), Pool(50));
  }

  lemma {:induction false} TiedShown()
    ensures |ShownBy(TIED, 1)| == 1
    ensures !Order(ScoresById(TIED.scores))(ShownBy(TIED, 1)[0], Plain([5]))
  {
    hide Sort, Filter, Keeping, SetsById, Champions;
    TiedPools();
    TiedBeyond();
    PoolsNest(TIED, 1, 1);
    var near := SearchAssets(TIED, Pool(1));
    assert Ordered(InputsFor(TIED, 1)) == Sort(Order(ScoresById(TIED.scores)), near);
    var x := ShownBy(TIED, 1)[0];
    ShownInPool(TIED, 1, x);
  }
}
