/**
 * `Array.prototype.sort` with a comparator, as the program uses it: a stable sort.
 *
 * `before(x, y)` stands for "the comparator returns a negative number on (x, y)".
 * The lemmas say when the result is a property of the elements alone, so that the
 * order they arrived in cannot leak into an identity.
 */
module Sorting {

  /** Places `x` ahead of the first element that does not come strictly before it. */
  function Insert<T>(before: (T, T) -> bool, x: T, s: seq<T>): (r: seq<T>)
    ensures multiset(r) == multiset{x} + multiset(s)
    ensures |r| == |s| + 1
  {
    if s == [] || !before(s[0], x) then [x] + s
    else
      assert s == [s[0]] + s[1..];
      [s[0]] + Insert(before, x, s[1..])
  }

  function Sort<T>(before: (T, T) -> bool, s: seq<T>): (r: seq<T>)
    ensures multiset(r) == multiset(s)
    ensures |r| == |s|
  {
    if s == [] then []
    else
      assert s == [s[0]] + s[1..];
      Insert(before, s[0], Sort(before, s[1..]))
  }

  ghost predicate Sorted<T>(before: (T, T) -> bool, s: seq<T>) {
    forall i, j :: 0 <= i < j < |s| ==> !before(s[j], s[i])
  }

  /** Later elements come strictly after earlier ones: no ties. */
  ghost predicate StrictlySorted<T>(before: (T, T) -> bool, s: seq<T>) {
    forall i, j :: 0 <= i < j < |s| ==> before(s[i], s[j])
  }

  /** A strict weak order on the elements of `s`: what `sort` asks of a comparator. */
  ghost predicate WeakOrderOn<T>(before: (T, T) -> bool, s: set<T>) {
    && (forall x, y :: x in s && y in s && before(x, y) ==> !before(y, x))
    && (forall x, y, z :: x in s && y in s && z in s && before(x, z) ==> before(x, y) || before(y, z))
  }

  /** No two different elements tie. */
  ghost predicate SeparatesOn<T>(before: (T, T) -> bool, s: set<T>) {
    forall x, y :: x in s && y in s && x != y ==> before(x, y) || before(y, x)
  }

  ghost function Elements<T>(s: seq<T>): set<T> {
    set x | x in s
  }

  ghost predicate NoDuplicates<T>(s: seq<T>) {
    forall i, j :: 0 <= i < j < |s| ==> s[i] != s[j]
  }

  lemma SameElements<T>(s: seq<T>, t: seq<T>)
    requires multiset(s) == multiset(t)
    ensures Elements(s) == Elements(t)
    ensures |s| == |t|
  {
    forall x ensures x in s <==> x in t {
      assert x in s <==> x in multiset(s);
      assert x in t <==> x in multiset(t);
    }
    assert |multiset(s)| == |s| && |multiset(t)| == |t|;
  }

  lemma {:induction false} InsertSorts<T>(before: (T, T) -> bool, x: T, s: seq<T>)
    requires Sorted(before, s)
    requires WeakOrderOn(before, Elements([x] + s))
    ensures Sorted(before, Insert(before, x, s))
  {
    if s != [] && before(s[0], x) {
      var rest := s[1..];
      assert Elements([x] + rest) <= Elements([x] + s);
      InsertSorts(before, x, rest);
      var t := Insert(before, x, rest);
      forall j | 0 <= j < |t| ensures !before(t[j], s[0]) {
        assert t[j] in multiset(t);
        assert t[j] == x || t[j] in rest;
      }
    } else if s != [] {
      forall j | 0 <= j < |s| ensures !before(s[j], x) {
        assert [x] + s == [x] + s[..j] + [s[j]] + s[j + 1..];
        assert x in Elements([x] + s) && s[j] in Elements([x] + s) && s[0] in Elements([x] + s);
      }
    }
  }

  /** The result is sorted whenever the comparator is a strict weak order on the input. */
  lemma {:induction false} SortSorts<T>(before: (T, T) -> bool, s: seq<T>)
    requires WeakOrderOn(before, Elements(s))
    ensures Sorted(before, Sort(before, s))
  {
    if s != [] {
      var rest := s[1..];
      assert Elements(rest) <= Elements(s);
      SortSorts(before, rest);
      SameElements(rest, Sort(before, rest));
      assert Elements([s[0]] + Sort(before, rest)) <= Elements(s) by {
        forall y | y in [s[0]] + Sort(before, rest) ensures y in s {
          if y != s[0] { assert y in Elements(Sort(before, rest)); }
        }
      }
      InsertSorts(before, s[0], Sort(before, rest));
    }
  }

  /** Two sorted arrangements of the same elements are the same sequence. */
  lemma {:induction false} SortedUnique<T>(before: (T, T) -> bool, s: seq<T>, t: seq<T>)
    requires multiset(s) == multiset(t)
    requires SeparatesOn(before, Elements(s))
    requires Sorted(before, s) && Sorted(before, t)
    ensures s == t
  {
    SameElements(s, t);
    if s != [] {
      SortedHeadsAgree(before, s, t);
      TailElements(s);
      TailElements(t);
      SortedUnique(before, s[1..], t[1..]);
    }
  }

  lemma SortedHeadsAgree<T>(before: (T, T) -> bool, s: seq<T>, t: seq<T>)
    requires s != [] && t != []
    requires Elements(s) == Elements(t)
    requires SeparatesOn(before, Elements(s))
    requires Sorted(before, s) && Sorted(before, t)
    ensures s[0] == t[0]
  {
    assert s[0] in Elements(s) && t[0] in Elements(t);
    var i :| 0 <= i < |t| && t[i] == s[0];
    var j :| 0 <= j < |s| && s[j] == t[0];
    assert i == 0 || !before(t[i], t[0]);
    assert j == 0 || !before(s[j], s[0]);
  }

  lemma TailElements<T>(s: seq<T>)
    requires s != []
    ensures multiset(s[1..]) == multiset(s) - multiset{s[0]}
    ensures Elements(s[1..]) <= Elements(s)
  {
    assert s == [s[0]] + s[1..];
  }

  /** Sorting forgets the order of arrival when the comparator separates the elements. */
  lemma {:induction false} SortIgnoresArrival<T>(before: (T, T) -> bool, s: seq<T>, t: seq<T>)
    requires multiset(s) == multiset(t)
    requires WeakOrderOn(before, Elements(s)) && SeparatesOn(before, Elements(s))
    ensures Sort(before, s) == Sort(before, t)
  {
    SameElements(s, t);
    SortSorts(before, s);
    SortSorts(before, t);
    SameElements(s, Sort(before, s));
    SortedUnique(before, Sort(before, s), Sort(before, t));
  }

  lemma NoDuplicatesCounts<T>(s: seq<T>)
    requires NoDuplicates(s)
    ensures forall x :: x in s ==> multiset(s)[x] == 1
  {
    if s != [] {
      assert s == [s[0]] + s[1..];
      NoDuplicatesCounts(s[1..]);
      assert s[0] !in s[1..];
      forall x | x in s ensures multiset(s)[x] == 1 {
        if x == s[0] {
          assert multiset(s[1..])[x] == 0;
        } else {
          assert x in s[1..];
        }
      }
    }
  }

  lemma {:induction false} CountsNoDuplicates<T>(s: seq<T>)
    requires forall x :: x in s ==> multiset(s)[x] == 1
    ensures NoDuplicates(s)
  {
    if s != [] {
      assert s == [s[0]] + s[1..];
      forall x | x in s[1..] ensures multiset(s[1..])[x] == 1 && x != s[0] {
        assert x in multiset(s[1..]);
        assert multiset(s)[x] == 1;
      }
      CountsNoDuplicates(s[1..]);
      forall i, j | 0 <= i < j < |s| ensures s[i] != s[j] {
        assert s[1..][j - 1] == s[j] && s[j] in s[1..];
        if i > 0 { assert s[i] == s[1..][i - 1]; }
      }
    }
  }

  /** A permutation of a duplicate-free sequence is duplicate-free. */
  lemma NoDuplicatesPermutes<T>(s: seq<T>, t: seq<T>)
    requires NoDuplicates(s) && multiset(s) == multiset(t)
    ensures NoDuplicates(t)
  {
    NoDuplicatesCounts(s);
    SameElements(s, t);
    forall x | x in t ensures multiset(t)[x] == 1 { assert x in Elements(t); }
    CountsNoDuplicates(t);
  }

  /** Duplicate-free sequences over one set are permutations of each other. */
  lemma {:induction false} SameSetSameCounts<T>(s: seq<T>, t: seq<T>)
    requires NoDuplicates(s) && NoDuplicates(t) && Elements(s) == Elements(t)
    ensures multiset(s) == multiset(t)
  {
    NoDuplicatesCounts(s);
    NoDuplicatesCounts(t);
    forall x ensures multiset(s)[x] == multiset(t)[x] {
      assert x in s <==> x in Elements(s);
      assert x in t <==> x in Elements(t);
      if x !in s { assert multiset(s)[x] == 0 && multiset(t)[x] == 0; }
    }
  }

  lemma {:induction false} AppendDistinct<T>(s: seq<T>, x: T)
    ensures NoDuplicates(s + [x]) <==> NoDuplicates(s) && x !in s
    ensures Elements(s + [x]) == Elements(s) + {x}
  {
    var t := s + [x];
    assert t[|s|] == x && forall i :: 0 <= i < |s| ==> t[i] == s[i];
  }

  /** Sorting distinct elements under a separating comparator leaves no ties. */
  lemma SortStrict<T>(before: (T, T) -> bool, s: seq<T>)
    requires NoDuplicates(s)
    requires WeakOrderOn(before, Elements(s)) && SeparatesOn(before, Elements(s))
    ensures StrictlySorted(before, Sort(before, s))
    ensures NoDuplicates(Sort(before, s))
  {
    var t := Sort(before, s);
    SortSorts(before, s);
    SameElements(s, t);
    NoDuplicatesPermutes(s, t);
    forall i, j | 0 <= i < j < |t| ensures before(t[i], t[j]) {
      assert t[i] in Elements(t) && t[j] in Elements(t) && t[i] != t[j];
    }
  }

  function Map<A, B>(f: A -> B, s: seq<A>): (r: seq<B>)
    ensures |r| == |s| && forall i :: 0 <= i < |s| ==> r[i] == f(s[i])
  {
    seq(|s|, i requires 0 <= i < |s| => f(s[i]))
  }

  lemma {:induction false} MapAppend<A, B>(f: A -> B, s: seq<A>, x: A)
    ensures Map(f, s + [x]) == Map(f, s) + [f(x)]
  {
  }

  lemma {:induction false} MapStep<A, B>(f: A -> B, s: seq<A>, i: nat)
    requires i < |s|
    ensures Map(f, s[..i + 1]) == Map(f, s[..i]) + [f(s[i])]
  {
  }

  function Without<T>(s: seq<T>, j: nat): (r: seq<T>)
    requires j < |s|
    ensures multiset(s) == multiset{s[j]} + multiset(r)
    ensures |r| == |s| - 1
  {
    assert s == s[..j] + [s[j]] + s[j + 1..];
    s[..j] + s[j + 1..]
  }

  lemma MapWithout<A, B>(f: A -> B, s: seq<A>, j: nat)
    requires j < |s|
    ensures Map(f, Without(s, j)) == Without(Map(f, s), j)
  {
  }

  /** Mapping a permutation gives a permutation. */
  lemma {:induction false} MapPermutes<A, B>(f: A -> B, s: seq<A>, t: seq<A>)
    requires multiset(s) == multiset(t)
    ensures multiset(Map(f, s)) == multiset(Map(f, t))
    decreases |s|
  {
    hide Map, Without;
    SameElements(s, t);
    if s != [] {
      assert s[0] in Elements(t);
      var j :| 0 <= j < |t| && t[j] == s[0];
      assert multiset(Without(s, 0)) == multiset(s) - multiset{s[0]};
      assert multiset(Without(t, j)) == multiset(t) - multiset{t[j]};
      MapPermutes(f, Without(s, 0), Without(t, j));
      MapWithout(f, s, 0);
      MapWithout(f, t, j);
      assert multiset(Map(f, s)) == multiset{f(s[0])} + multiset(Map(f, Without(s, 0)));
      assert multiset(Map(f, t)) == multiset{f(t[j])} + multiset(Map(f, Without(t, j)));
    } else {
      assert t == s;
    }
  }

  function Filter<T(!new)>(p: T -> bool, s: seq<T>): (r: seq<T>)
    ensures forall x :: x in r <==> x in s && p(x)
  {
    if s == [] then []
    else
      assert s == [s[0]] + s[1..];
      if p(s[0]) then [s[0]] + Filter(p, s[1..]) else Filter(p, s[1..])
  }

  lemma {:induction false} FilterInsert<T(!new)>(before: (T, T) -> bool, p: T -> bool, x: T, s: seq<T>)
    requires p(x) ==> forall y :: y in s && p(y) ==> !before(y, x)
    ensures Filter(p, Insert(before, x, s)) == Filter(p, [x] + s)
  {
    if s != [] && before(s[0], x) {
      FilterInsert(before, p, x, s[1..]);
      assert ([x] + s)[1..] == s && ([x] + s[1..])[1..] == s[1..];
      assert Insert(before, x, s)[1..] == Insert(before, x, s[1..]);
    }
  }

  /** Stability: elements that tie with one another keep their order of arrival. */
  lemma {:induction false} SortStable<T(!new)>(before: (T, T) -> bool, p: T -> bool, s: seq<T>)
    requires forall x, y :: x in s && y in s && p(x) && p(y) ==> !before(x, y)
    ensures Filter(p, Sort(before, s)) == Filter(p, s)
  {
    if s != [] {
      var rest := Sort(before, s[1..]);
      SameElements(s[1..], rest);
      assert s == [s[0]] + s[1..];
      forall y | y in rest ensures y in s { assert y in Elements(rest); }
      SortStable(before, p, s[1..]);
      FilterInsert(before, p, s[0], rest);
      assert ([s[0]] + rest)[1..] == rest;
    }
  }

  function Reverse<T>(s: seq<T>): (r: seq<T>)
    ensures |r| == |s| && multiset(r) == multiset(s)
  {
    if s == [] then []
    else
      assert s == [s[0]] + s[1..];
      Reverse(s[1..]) + [s[0]]
  }

  lemma {:induction false} FilterConcat<T(!new)>(p: T -> bool, s: seq<T>, t: seq<T>)
    ensures Filter(p, s + t) == Filter(p, s) + Filter(p, t)
  {
    if s == [] {
      assert s + t == t;
    } else {
      FilterConcat(p, s[1..], t);
      assert (s + t)[1..] == s[1..] + t;
    }
  }

  lemma ReverseCons<T>(x: T, s: seq<T>)
    ensures Reverse([x] + s) == Reverse(s) + [x]
  {
    assert ([x] + s)[1..] == s;
  }

  lemma {:induction false} FilterReverse<T(!new)>(p: T -> bool, s: seq<T>)
    ensures Filter(p, Reverse(s)) == Reverse(Filter(p, s))
  {
    if s != [] {
      var rest := s[1..];
      FilterReverse(p, rest);
      FilterConcat(p, Reverse(rest), [s[0]]);
      ReverseCons(s[0], Filter(p, rest));
      assert Filter(p, [s[0]]) == if p(s[0]) then [s[0]] else [];
    }
  }

  lemma {:induction false} ReverseAt<T>(s: seq<T>, i: nat)
    requires i < |s|
    ensures Reverse(s)[|s| - 1 - i] == s[i]
  {
    if i > 0 { ReverseAt(s[1..], i - 1); }
  }

  /** Two arrivals that tie leave the sorted result open to the order of arrival. */
  lemma TiesLeakArrival<T(!new)>(before: (T, T) -> bool, p: T -> bool, s: seq<T>, x: T, y: T)
    requires forall u, v :: u in s && v in s && p(u) && p(v) ==> !before(u, v)
    requires NoDuplicates(s) && x in s && y in s && p(x) && p(y) && x != y
    ensures Sort(before, Reverse(s)) != Sort(before, s)
  {
    var f := Filter(p, s);
    SortStable(before, p, s);
    SameElements(s, Reverse(s));
    forall u | u in Reverse(s) ensures u in s { assert u in Elements(Reverse(s)); }
    SortStable(before, p, Reverse(s));
    FilterReverse(p, s);
    FilterNoDuplicates(p, s);
    assert x in f && y in f;
    assert |f| >= 2;
    ReverseAt(f, 0);
    assert f[0] != f[|f| - 1];
    assert Reverse(f)[|f| - 1] == f[0];
  }

  lemma {:induction false} FilterNoDuplicates<T(!new)>(p: T -> bool, s: seq<T>)
    requires NoDuplicates(s)
    ensures NoDuplicates(Filter(p, s))
  {
    if s != [] {
      FilterNoDuplicates(p, s[1..]);
      assert s[0] !in s[1..];
    }
  }

  /** Each element once, where it first appears. */
  function Unique<T(==)>(s: seq<T>): (r: seq<T>)
    ensures NoDuplicates(r) && Elements(r) == Elements(s)
  {
    if s == [] then []
    else
      var front, last := s[..|s| - 1], s[|s| - 1];
      var r := Unique(front);
      assert s == front + [last];
      assert last in r <==> last in front by { assert last in Elements(r) <==> last in Elements(front); }
      if last in front then r else
        assert Elements(r + [last]) == Elements(r) + {last};
        r + [last]
  }

  /** Filtering one element further. */
  lemma FilterStep<T(!new)>(p: T -> bool, s: seq<T>, i: nat)
    requires i < |s|
    ensures Filter(p, s[..i + 1]) == Filter(p, s[..i]) + if p(s[i]) then [s[i]] else []
  {
    assert s[..i + 1] == s[..i] + [s[i]];
    FilterConcat(p, s[..i], [s[i]]);
    assert Filter(p, [s[i]]) == if p(s[i]) then [s[i]] else [];
  }

  /** Two filters in a row are one. */
  lemma {:induction false} FilterTwice<T(!new)>(p: T -> bool, q: T -> bool, both: T -> bool, s: seq<T>)
    requires forall x :: x in s ==> (both(x) <==> p(x) && q(x))
    ensures Filter(q, Filter(p, s)) == Filter(both, s)
  {
    if s != [] {
      FilterTwice(p, q, both, s[1..]);
      assert s[0] in s;
      assert ([s[0]] + Filter(p, s[1..]))[1..] == Filter(p, s[1..]);
    }
  }

  lemma {:induction false} FilterPermutes<T(!new)>(p: T -> bool, s: seq<T>, t: seq<T>)
    requires multiset(s) == multiset(t)
    ensures multiset(Filter(p, s)) == multiset(Filter(p, t))
  {
    FilterCounts(p, s);
    FilterCounts(p, t);
    forall x ensures multiset(Filter(p, s))[x] == multiset(Filter(p, t))[x] {}
  }

  lemma {:induction false} FilterCounts<T(!new)>(p: T -> bool, s: seq<T>)
    ensures forall x :: multiset(Filter(p, s))[x] == if p(x) then multiset(s)[x] else 0
  {
    if s != [] {
      FilterCounts(p, s[1..]);
      assert s == [s[0]] + s[1..];
    }
  }

  lemma OrderWithin<T>(before: (T, T) -> bool, small: set<T>, big: set<T>)
    requires small <= big && WeakOrderOn(before, big) && SeparatesOn(before, big)
    ensures WeakOrderOn(before, small) && SeparatesOn(before, small)
  {
  }

  lemma ConcatSorted<T>(before: (T, T) -> bool, a: seq<T>, b: seq<T>)
    requires Sorted(before, a) && Sorted(before, b)
    requires forall x, y :: x in a && y in b ==> !before(y, x)
    ensures Sorted(before, a + b)
  {
    forall i, j | 0 <= i < j < |a + b| ensures !before((a + b)[j], (a + b)[i]) {
      if i < |a| && j >= |a| { assert a[i] in a && b[j - |a|] in b; }
    }
  }

  /** When all of `s` comes before all of `t`, sorting both together keeps them apart. */
  lemma SortConcat<T>(before: (T, T) -> bool, s: seq<T>, t: seq<T>)
    requires WeakOrderOn(before, Elements(s + t)) && SeparatesOn(before, Elements(s + t))
    requires forall x, y :: x in s && y in t ==> before(x, y)
    ensures Sort(before, s + t) == Sort(before, s) + Sort(before, t)
  {
    hide Sort, WeakOrderOn, SeparatesOn;
    var a, b, all := Sort(before, s), Sort(before, t), Elements(s + t);
    OrderWithin(before, Elements(s), all);
    OrderWithin(before, Elements(t), all);
    SortSorts(before, s);
    SortSorts(before, t);
    SortSorts(before, s + t);
    SameElements(s, a);
    SameElements(t, b);
    SameElements(s + t, Sort(before, s + t));
    NeverAfter(before, s, t);
    forall x, y | x in a && y in b ensures !before(y, x) {
      assert x in Elements(a) && y in Elements(b);
      assert x in s && y in t;
    }
    ConcatSorted(before, a, b);
    SortedUnique(before, Sort(before, s + t), a + b);
  }

  lemma NeverAfter<T>(before: (T, T) -> bool, s: seq<T>, t: seq<T>)
    requires WeakOrderOn(before, Elements(s + t))
    requires forall x, y :: x in s && y in t ==> before(x, y)
    ensures forall x, y :: x in s && y in t ==> !before(y, x)
  {
    forall x, y | x in s && y in t ensures !before(y, x) {
      assert x in Elements(s + t) && y in Elements(s + t);
    }
  }
}
