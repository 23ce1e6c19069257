/** JavaScript's order on strings, and sorting by several keys in turn. */
module StringOrder {
  import opened Text
  import opened Sorting

  /** `a < b`: UTF-16 code units (RFC 8785 section 3.2.3). */
  predicate Before16(a: JsString, b: JsString) { Lex(a, b) < 0 }

  /** Comparing component by component orders what the components are taken from. */
  lemma KeyOrder<T>(before: (T, T) -> bool, key: T -> seq<seq<int>>, s: set<T>)
    requires forall x, y :: x in s && y in s ==> |key(x)| == |key(y)| && (before(x, y) <==> LexTuple(key(x), key(y)) < 0)
    ensures WeakOrderOn(before, s)
  {
    hide LexTuple;
    forall x, y | x in s && y in s ensures before(x, y) ==> !before(y, x) {
      LexTupleLaws(key(x), key(y));
    }
    forall x, y, z | x in s && y in s && z in s && before(x, z) ensures before(x, y) || before(y, z) {
      var a, b, c := key(x), key(y), key(z);
      LexTupleLaws(a, b);
      LexTupleLaws(b, c);
      LexTupleLaws(a, c);
      if !before(x, y) && !before(y, z) { LexTupleTransitive(c, b, a); }
    }
  }

  lemma Before16Order(s: set<JsString>)
    ensures WeakOrderOn(Before16, s) && SeparatesOn(Before16, s)
  {
    forall x, y | x in s && y in s && x != y ensures Before16(x, y) || Before16(y, x) { LexLaws(x, y); }
    forall x, y | x in s && y in s ensures Before16(x, y) <==> LexTuple([x], [y]) < 0 { OneKey(x, y); }
    KeyOrder(Before16, (x: JsString) => [x], s);
  }

  lemma OneKey(x: seq<int>, y: seq<int>)
    ensures LexTuple([x], [y]) == Lex(x, y)
  {
    assert [x][1..] == [] && [y][1..] == [];
  }
}
