/**
 * Splicing a generated block between two markers of an existing document.
 */
module Splice {
  import opened Text

  const BEGIN_MARKER: JsString := Ascii("<!-- ieos:begin -->")
  const END_MARKER: JsString := Ascii("<!-- ieos:end -->")
  const NEWLINE: CodeUnit := 0x0A

  predicate Occurs(s: JsString, m: JsString, i: int) {
    0 <= i && i + |m| <= |s| && s[i..i + |m|] == m
  }

  /** `s.indexOf(m)`, from a position on. */
  function Find(s: JsString, m: JsString, from: nat): (i: int)
    ensures i == -1 || (i >= from && Occurs(s, m, i))
    ensures forall k :: from <= k && (i == -1 || k < i) ==> !Occurs(s, m, k)
    decreases |s| - from
  {
    if from > |s| then -1
    else if Occurs(s, m, from) then from
    else Find(s, m, from + 1)
  }

  function IndexOf(s: JsString, m: JsString): int { Find(s, m, 0) }

  /** What `trim` removes: ECMAScript white space and line terminators. */
  predicate IsSpace(u: CodeUnit) {
    0x09 <= u <= 0x0D || u == 0x20 || u == 0xA0 || u == 0x1680 || 0x2000 <= u <= 0x200A
    || u == 0x2028 || u == 0x2029 || u == 0x202F || u == 0x205F || u == 0x3000 || u == 0xFEFF
  }

  predicate Blank(s: JsString) { forall i :: 0 <= i < |s| ==> IsSpace(s[i]) }

  /** `s.replace(/\n*$/u, '')`. */
  function StripNewlines(s: JsString): (r: JsString)
    ensures r <= s && (r != [] ==> r[|r| - 1] != NEWLINE)
    ensures forall i :: |r| <= i < |s| ==> s[i] == NEWLINE
  {
    if s != [] && s[|s| - 1] == NEWLINE then StripNewlines(s[..|s| - 1]) else s
  }

  function SpliceMarkedBlock(existing: JsString, block: JsString): JsString {
    var begin, end := IndexOf(existing, BEGIN_MARKER), IndexOf(existing, END_MARKER);
    if begin == -1 || end == -1 || end < begin then
      if Blank(existing) then block + [NEWLINE]
      else StripNewlines(existing) + [NEWLINE, NEWLINE] + block + [NEWLINE]
    else existing[..begin] + block + existing[end + |END_MARKER|..]
  }

  /** A generated block: one marker at each end and none in between. */
  ghost predicate WellMarked(b: JsString) {
    && |BEGIN_MARKER| + |END_MARKER| <= |b|
    && (forall i :: Occurs(b, BEGIN_MARKER, i) <==> i == 0)
    && (forall i :: Occurs(b, END_MARKER, i) <==> i == |b| - |END_MARKER|)
  }

  /** No marker at all, or a first begin before the first end. */
  predicate Regular(s: JsString) {
    var begin, end := IndexOf(s, BEGIN_MARKER), IndexOf(s, END_MARKER);
    (begin == -1 && end == -1) || 0 <= begin < end
  }

  predicate IsMarker(m: JsString) { m == BEGIN_MARKER || m == END_MARKER }

  lemma MarkerFacts(m: JsString)
    requires IsMarker(m)
    ensures 0 < |m| <= |BEGIN_MARKER| && NEWLINE !in m
    ensures m[0] == 0x3C && !IsSpace(m[0])
    ensures |BEGIN_MARKER| == 19 && |END_MARKER| == 17
  {
  }

  lemma FoundAt(s: JsString, m: JsString, i: int)
    requires Occurs(s, m, i) && forall k :: 0 <= k < i ==> !Occurs(s, m, k)
    ensures IndexOf(s, m) == i
  {
  }

  lemma NotFound(s: JsString, m: JsString)
    requires forall k :: 0 <= k ==> !Occurs(s, m, k)
    ensures IndexOf(s, m) == -1
  {
  }

  /** A unit that a text lacks cannot lie inside one of its occurrences. */
  lemma NotSpanning(s: JsString, m: JsString, i: int, k: int)
    requires 0 <= i <= k < i + |m| <= |s| && s[k] !in m
    ensures !Occurs(s, m, i)
  {
    assert s[i..i + |m|][k - i] == s[k];
  }

  /** Occurrences inside a prefix or a middle part are occurrences in the whole. */
  lemma OccursWithin(p: JsString, q: JsString, r: JsString, m: JsString, i: int)
    requires 0 <= i && i + |m| <= |q|
    ensures Occurs(p + q + r, m, |p| + i) <==> Occurs(q, m, i)
  {
    var s := p + q + r;
    assert s[|p| + i..|p| + i + |m|] == q[i..i + |m|];
  }

  /** A marker never spans a newline, so an appended block cannot create one at the seam. */
  lemma AppendedOccurrences(x: JsString, block: JsString, m: JsString, i: int)
    requires IsMarker(m)
    ensures var y := x + [NEWLINE, NEWLINE] + block + [NEWLINE];
            Occurs(y, m, i) <==> Occurs(x, m, i) || Occurs(block, m, i - |x| - 2)
  {
    MarkerFacts(m);
    var y := x + [NEWLINE, NEWLINE] + block + [NEWLINE];
    if 0 <= i && i + |m| <= |x| {
      assert y == [] + x + ([NEWLINE, NEWLINE] + block + [NEWLINE]);
      OccursWithin([], x, [NEWLINE, NEWLINE] + block + [NEWLINE], m, i);
    } else if |x| + 2 <= i && i + |m| <= |x| + 2 + |block| {
      assert y == (x + [NEWLINE, NEWLINE]) + block + [NEWLINE];
      OccursWithin(x + [NEWLINE, NEWLINE], block, [NEWLINE], m, i - |x| - 2);
    } else if 0 <= i && i + |m| <= |y| {
      var k := if i <= |x| then |x| else if i == |x| + 1 then |x| + 1 else |x| + 2 + |block|;
      assert y[k] == NEWLINE;
      NotSpanning(y, m, i, k);
    }
  }

  /** Trailing newlines hold no marker. */
  lemma StripKeepsMarkers(x: JsString, m: JsString, i: int)
    requires IsMarker(m)
    ensures Occurs(StripNewlines(x), m, i) <==> Occurs(x, m, i)
  {
    MarkerFacts(m);
    var r := StripNewlines(x);
    if 0 <= i && i + |m| <= |r| {
      assert x[i..i + |m|] == r[i..i + |m|];
    } else if 0 <= i && i + |m| <= |x| {
      NotSpanning(x, m, i, i + |m| - 1);
    }
  }

  lemma FirstUnit(x: JsString, m: JsString, k: int)
    requires Occurs(x, m, k) && m != []
    ensures k < |x| && x[k] == m[0]
  {
    assert x[k..k + |m|][0] == x[k];
  }

  lemma BlankHasNoMarker(x: JsString, m: JsString)
    requires IsMarker(m) && Blank(x)
    ensures IndexOf(x, m) == -1
  {
    MarkerFacts(m);
    forall k | 0 <= k ensures !Occurs(x, m, k) {
      if k + |m| <= |x| && Occurs(x, m, k) {
        FirstUnit(x, m, k);
      }
    }
    NotFound(x, m);
  }

  lemma StripOfAppended(x: JsString, block: JsString)
    requires WellMarked(block)
    ensures StripNewlines(x + [NEWLINE, NEWLINE] + block + [NEWLINE]) == x + [NEWLINE, NEWLINE] + block
    ensures !Blank(x + [NEWLINE, NEWLINE] + block + [NEWLINE])
  {
    var y := x + [NEWLINE, NEWLINE] + block + [NEWLINE];
    var z := x + [NEWLINE, NEWLINE] + block;
    assert Occurs(block, END_MARKER, |block| - |END_MARKER|);
    assert block[|block| - |END_MARKER|..] == END_MARKER;
    assert END_MARKER[16] == 0x3E && block[|block| - 1] == END_MARKER[16];
    assert z[|z| - 1] == block[|block| - 1] && !IsSpace(z[|z| - 1]) && y[|z| - 1] == z[|z| - 1];
    assert y[..|y| - 1] == z;
  }

  /** Where the markers of an appended document are found. */
  lemma {:induction false} AppendedIndex(x: JsString, block: JsString, m: JsString)
    requires IsMarker(m) && WellMarked(block)
    ensures var r := StripNewlines(x);
            var y := r + [NEWLINE, NEWLINE] + block + [NEWLINE];
            IndexOf(y, m) == if IndexOf(x, m) != -1 then IndexOf(x, m)
                             else if m == BEGIN_MARKER then |r| + 2 else |r| + 2 + |block| - |END_MARKER|
    ensures IndexOf(x, m) + |m| <= |StripNewlines(x)| || IndexOf(x, m) == -1
  {
    var r := StripNewlines(x);
    var y := r + [NEWLINE, NEWLINE] + block + [NEWLINE];
    MarkerFacts(m);
    var at := if m == BEGIN_MARKER then 0 else |block| - |END_MARKER|;
    assert BEGIN_MARKER != END_MARKER;
    var i := IndexOf(x, m);
    var target := if i != -1 then i else |r| + 2 + at;
    AppendedOccurrences(r, block, m, target);
    StripKeepsMarkers(x, m, i);
    forall k | 0 <= k < target ensures !Occurs(y, m, k) {
      AppendedOccurrences(r, block, m, k);
      StripKeepsMarkers(x, m, k);
    }
    FoundAt(y, m, target);
  }

  lemma {:induction false} AppendedTwice(x: JsString, a: JsString, b: JsString)
    requires WellMarked(a) && WellMarked(b) && !Blank(x)
    requires IndexOf(x, BEGIN_MARKER) == -1 || IndexOf(x, END_MARKER) == -1 || IndexOf(x, END_MARKER) < IndexOf(x, BEGIN_MARKER)
    ensures SpliceMarkedBlock(SpliceMarkedBlock(x, a), b) == SpliceMarkedBlock(x, b) <==>
              IndexOf(x, BEGIN_MARKER) == -1 && IndexOf(x, END_MARKER) == -1
  {
    var r := StripNewlines(x);
    var y := r + [NEWLINE, NEWLINE] + a + [NEWLINE];
    AppendedIndex(x, a, BEGIN_MARKER);
    AppendedIndex(x, a, END_MARKER);
    MarkerFacts(BEGIN_MARKER);
    hide IndexOf, StripNewlines;
    var begin, end := IndexOf(x, BEGIN_MARKER), IndexOf(x, END_MARKER);
    var once, twice := SpliceMarkedBlock(x, b), SpliceMarkedBlock(y, b);
    if begin == -1 && end == -1 {
      assert y[..|r| + 2] == r + [NEWLINE, NEWLINE];
      assert y[|r| + 2 + |a|..] == [NEWLINE];
    } else if end == -1 {
      assert twice == y[..begin] + b + y[|r| + 2 + |a|..];
      assert |twice| < |once|;
    } else {
      StripOfAppended(r, a);
      assert |twice| > |once|;
    }
  }

  /** Replacing the marked region puts the new markers where the old begin was. */
  lemma {:induction false} ReplacedIndex(x: JsString, block: JsString)
    requires WellMarked(block) && 0 <= IndexOf(x, BEGIN_MARKER) < IndexOf(x, END_MARKER)
    ensures var begin := IndexOf(x, BEGIN_MARKER);
            var y := SpliceMarkedBlock(x, block);
            && IndexOf(y, BEGIN_MARKER) == begin
            && IndexOf(y, END_MARKER) == begin + |block| - |END_MARKER|
  {
    hide SpliceMarkedBlock, IndexOf, Occurs;
    ReplacedAt(x, block, BEGIN_MARKER, 0);
    ReplacedAt(x, block, END_MARKER, |block| - |END_MARKER|);
  }

  lemma ReplacedAt(x: JsString, block: JsString, m: JsString, at: nat)
    requires WellMarked(block) && 0 <= IndexOf(x, BEGIN_MARKER) < IndexOf(x, END_MARKER)
    requires IsMarker(m) && at == if m == BEGIN_MARKER then 0 else |block| - |END_MARKER|
    ensures IndexOf(SpliceMarkedBlock(x, block), m) == IndexOf(x, BEGIN_MARKER) + at
  {
    hide Occurs;
    var begin, end := IndexOf(x, BEGIN_MARKER), IndexOf(x, END_MARKER);
    MarkerFacts(BEGIN_MARKER);
    MarkerFacts(m);
    IndexInside(x, BEGIN_MARKER);
    IndexInside(x, END_MARKER);
    var before, after := x[..begin], x[end + |END_MARKER|..];
    var y := before + block + after;
    assert Occurs(block, BEGIN_MARKER, 0) && Occurs(block, m, at);
    OccursWithin(before, block, after, BEGIN_MARKER, 0);
    OccursWithin(before, block, after, m, at);
    forall k | 0 <= k < begin + at ensures !Occurs(y, m, k) {
      if k < begin {
        CommonStart(x, y, begin, m, k);
      } else {
        OccursWithin(before, block, after, m, k - begin);
      }
    }
    FoundAt(y, m, begin + at);
  }

  /** Up to the end of the begin marker, old and new document read the same. */
  lemma CommonStart(x: JsString, y: JsString, begin: nat, m: JsString, k: nat)
    requires IsMarker(m) && k < begin
    requires Occurs(x, BEGIN_MARKER, begin) && Occurs(y, BEGIN_MARKER, begin)
    requires begin <= |x| && begin <= |y| && x[..begin] == y[..begin]
    ensures Occurs(x, m, k) <==> Occurs(y, m, k)
  {
    MarkerFacts(m);
    var n := begin + |BEGIN_MARKER|;
    forall t | 0 <= t < n ensures x[t] == y[t] {
      if t < begin {
        assert x[..begin][t] == y[..begin][t];
      } else {
        assert x[begin..n][t - begin] == y[begin..n][t - begin];
      }
    }
    assert x[k..k + |m|] == y[k..k + |m|];
  }

  /**
   * Regenerating is last-write-wins on exactly the regular documents: those without a
   * marker and those whose first begin precedes their first end.
   */
  lemma {:induction false} LastWriteWinsExactly(x: JsString, a: JsString, b: JsString)
    requires WellMarked(a) && WellMarked(b)
    ensures SpliceMarkedBlock(SpliceMarkedBlock(x, a), b) == SpliceMarkedBlock(x, b) <==> Regular(x)
  {
    hide IndexOf;
    MarkerFacts(BEGIN_MARKER);
    var begin, end := IndexOf(x, BEGIN_MARKER), IndexOf(x, END_MARKER);
    var y := SpliceMarkedBlock(x, a);
    DifferentPlaces(x);
    if 0 <= begin < end {
      ReplacedIndex(x, a);
      IndexInside(x, END_MARKER);
      assert y[..begin] == x[..begin];
      assert y[begin + |a|..] == x[end + |END_MARKER|..];
    } else if Blank(x) {
      BlankHasNoMarker(x, BEGIN_MARKER);
      BlankHasNoMarker(x, END_MARKER);
      BlockAlone(a);
      assert y[..0] == [] && y[|a|..] == [NEWLINE];
    } else {
      AppendedTwice(x, a, b);
    }
  }

  lemma IndexInside(x: JsString, m: JsString)
    ensures IndexOf(x, m) >= -1
    ensures IndexOf(x, m) >= 0 ==> IndexOf(x, m) + |m| <= |x|
  {
  }

  lemma DifferentPlaces(x: JsString)
    ensures IndexOf(x, BEGIN_MARKER) == IndexOf(x, END_MARKER) ==> IndexOf(x, BEGIN_MARKER) == -1
    ensures IndexOf(x, BEGIN_MARKER) >= -1 && IndexOf(x, END_MARKER) >= -1
  {
    NotBoth(x, IndexOf(x, BEGIN_MARKER));
  }

  lemma NotBoth(x: JsString, i: int)
    ensures !Occurs(x, BEGIN_MARKER, i) || !Occurs(x, END_MARKER, i)
  {
    if 0 <= i && i + |BEGIN_MARKER| <= |x| && i + |END_MARKER| <= |x| {
      assert x[i..i + |BEGIN_MARKER|][10] == x[i + 10] && x[i..i + |END_MARKER|][10] == x[i + 10];
      assert BEGIN_MARKER[10] != END_MARKER[10];
    }
  }

  lemma BlockAlone(a: JsString)
    requires WellMarked(a)
    ensures IndexOf(a + [NEWLINE], BEGIN_MARKER) == 0
    ensures IndexOf(a + [NEWLINE], END_MARKER) == |a| - |END_MARKER|
  {
    var y := a + [NEWLINE];
    assert y == [] + a + [NEWLINE];
    MarkerFacts(BEGIN_MARKER);
    assert Occurs(a, BEGIN_MARKER, 0) && Occurs(a, END_MARKER, |a| - |END_MARKER|);
    OccursWithin([], a, [NEWLINE], BEGIN_MARKER, 0);
    OccursWithin([], a, [NEWLINE], END_MARKER, |a| - |END_MARKER|);
    forall k | 0 <= k < |a| - |END_MARKER| ensures !Occurs(y, END_MARKER, k) {
      OccursWithin([], a, [NEWLINE], END_MARKER, k);
    }
    FoundAt(y, BEGIN_MARKER, 0);
    FoundAt(y, END_MARKER, |a| - |END_MARKER|);
  }

  /** So running the generator twice is the same as running it once, and only then. */
  lemma {:induction false} IdempotentExactly(x: JsString, block: JsString)
    requires WellMarked(block)
    ensures SpliceMarkedBlock(SpliceMarkedBlock(x, block), block) == SpliceMarkedBlock(x, block) <==> Regular(x)
  {
    LastWriteWinsExactly(x, block, block);
  }

  /** An end marker that no begin precedes. */
  predicate StrayEnd(x: JsString) {
    var begin, end := IndexOf(x, BEGIN_MARKER), IndexOf(x, END_MARKER);
    end >= 0 && (begin == -1 || end < begin)
  }

  lemma MarkedIsNotBlank(x: JsString, m: JsString)
    requires IsMarker(m) && IndexOf(x, m) >= 0
    ensures !Blank(x)
  {
    if Blank(x) { BlankHasNoMarker(x, m); }
  }

  /** A document with a stray end marker gains a block, and keeps its stray end marker. */
  lemma {:induction false} StrayEndGrows(x: JsString, block: JsString)
    requires WellMarked(block) && StrayEnd(x)
    ensures var y := SpliceMarkedBlock(x, block);
            StrayEnd(y) && StripNewlines(y) == StripNewlines(x) + [NEWLINE, NEWLINE] + block
  {
    hide IndexOf;
    IndexInside(x, BEGIN_MARKER);
    MarkedIsNotBlank(x, END_MARKER);
    AppendedIndex(x, block, BEGIN_MARKER);
    AppendedIndex(x, block, END_MARKER);
    MarkerFacts(END_MARKER);
    StripOfAppended(StripNewlines(x), block);
  }

  /** The generator run `n` times. */
  function Runs(x: JsString, block: JsString, n: nat): JsString {
    if n == 0 then x else SpliceMarkedBlock(Runs(x, block, n - 1), block)
  }

  /** So it grows with every run, without end. */
  lemma {:induction false} StrayEndGrowsForever(x: JsString, block: JsString, n: nat)
    requires WellMarked(block) && StrayEnd(x)
    ensures StrayEnd(Runs(x, block, n))
    ensures |StripNewlines(Runs(x, block, n))| == |StripNewlines(x)| + n * (2 + |block|)
  {
    hide StrayEnd, StripNewlines, SpliceMarkedBlock, WellMarked;
    if n > 0 {
      StrayEndGrowsForever(x, block, n - 1);
      StrayEndGrows(Runs(x, block, n - 1), block);
      assert n * (2 + |block|) == (n - 1) * (2 + |block|) + (2 + |block|);
    }
  }

  /** What a document holds besides its marked region, if it has one. */
  function Outside(x: JsString): (JsString, JsString) {
    var begin, end := IndexOf(x, BEGIN_MARKER), IndexOf(x, END_MARKER);
    if 0 <= begin < end then (x[..begin], x[end + |END_MARKER|..]) else (StripNewlines(x), [])
  }

  /** A begin before the first end: there is a region to replace. */
  predicate HasRegion(x: JsString) { 0 <= IndexOf(x, BEGIN_MARKER) < IndexOf(x, END_MARKER) }

  /**
   * One run puts the block where the region was, at the end, or into an empty document,
   * and keeps the text outside the markers: exactly when a region is replaced; up to
   * trailing newlines, and with everything that is not a region, when a block is appended.
   */
  lemma {:induction false} OutsideKept(x: JsString, block: JsString)
    requires WellMarked(block)
    ensures var y := SpliceMarkedBlock(x, block);
            && (HasRegion(x) ==> Outside(y) == Outside(x) && y == Outside(x).0 + block + Outside(x).1)
            && (Blank(x) ==> y == block + [NEWLINE])
            && (!HasRegion(x) && !Blank(x) ==> y == StripNewlines(x) + [NEWLINE, NEWLINE] + block + [NEWLINE])
            && (!HasRegion(x) && !Blank(x) && Regular(x) ==> Outside(y) == (Outside(x).0 + [NEWLINE, NEWLINE], [NEWLINE]))
  {
    hide IndexOf;
    var y := SpliceMarkedBlock(x, block);
    DifferentPlaces(x);
    if Blank(x) {
      BlankHasNoMarker(x, BEGIN_MARKER);
    } else if HasRegion(x) {
      var begin, end := IndexOf(x, BEGIN_MARKER), IndexOf(x, END_MARKER);
      ReplacedIndex(x, block);
      IndexInside(x, END_MARKER);
      assert y[..begin] == x[..begin];
      assert y[begin + |block|..] == x[end + |END_MARKER|..];
    } else if Regular(x) {
      var r := StripNewlines(x);
      AppendedIndex(x, block, BEGIN_MARKER);
      AppendedIndex(x, block, END_MARKER);
      assert y[..|r| + 2] == r + [NEWLINE, NEWLINE];
      assert y[|r| + 2 + |block|..] == [NEWLINE];
    }
  }

  /** A begin marker without any end. */
  predicate StrayBegin(x: JsString) { IndexOf(x, BEGIN_MARKER) >= 0 && IndexOf(x, END_MARKER) == -1 }

  /** The second run takes everything from a stray begin marker to the appended block for its region. */
  lemma {:induction false} StrayBeginDeletes(x: JsString, a: JsString, b: JsString)
    requires WellMarked(a) && WellMarked(b) && StrayBegin(x)
    ensures SpliceMarkedBlock(SpliceMarkedBlock(x, a), b) == x[..IndexOf(x, BEGIN_MARKER)] + b + [NEWLINE]
  {
    hide IndexOf;
    MarkedIsNotBlank(x, BEGIN_MARKER);
    AppendedIndex(x, a, BEGIN_MARKER);
    AppendedIndex(x, a, END_MARKER);
    MarkerFacts(BEGIN_MARKER);
    var r, begin := StripNewlines(x), IndexOf(x, BEGIN_MARKER);
    var y := r + [NEWLINE, NEWLINE] + a + [NEWLINE];
    assert y[..begin] == r[..begin] == x[..begin];
    assert y[|r| + 2 + |a|..] == [NEWLINE];
  }

  /**
   * Exactly when the text of a document without a region survives the second run too:
   * unless it has a stray begin marker followed by anything the block does not repeat.
   */
  lemma {:induction false} SurvivesExactly(x: JsString, a: JsString, b: JsString)
    requires WellMarked(a) && WellMarked(b) && !Blank(x) && !HasRegion(x)
    ensures StripNewlines(x) <= SpliceMarkedBlock(SpliceMarkedBlock(x, a), b) <==>
            (StrayBegin(x) ==> StripNewlines(x)[IndexOf(x, BEGIN_MARKER)..] <= b + [NEWLINE])
    ensures StrayBegin(x) ==> IndexOf(x, BEGIN_MARKER) <= |StripNewlines(x)|
  {
    hide IndexOf;
    var r := StripNewlines(x);
    var y := SpliceMarkedBlock(x, a);
    IndexInside(x, BEGIN_MARKER);
    IndexInside(x, END_MARKER);
    DifferentPlaces(x);
    AppendedIndex(x, a, BEGIN_MARKER);
    if StrayBegin(x) {
      var begin := IndexOf(x, BEGIN_MARKER);
      StrayBeginDeletes(x, a, b);
      PrefixAfter(r, x[..begin], b + [NEWLINE]);
      assert x[..begin] + b + [NEWLINE] == x[..begin] + (b + [NEWLINE]);
    } else if StrayEnd(x) {
      StrayEndGrows(x, a);
      StrayEndGrows(y, b);
      assert SpliceMarkedBlock(y, b) == StripNewlines(y) + [NEWLINE, NEWLINE] + b + [NEWLINE];
    } else {
      LastWriteWinsExactly(x, a, b);
    }
  }

  lemma PrefixAfter(r: JsString, p: JsString, t: JsString)
    requires p <= r
    ensures r <= p + t <==> r[|p|..] <= t
  {
    assert r == p + r[|p|..];
    if r <= p + t { assert forall i :: 0 <= i < |r| - |p| ==> r[|p|..][i] == r[|p| + i] == (p + t)[|p| + i] == t[i]; }
    if r[|p|..] <= t { assert forall i :: 0 <= i < |r| - |p| ==> (p + t)[|p| + i] == t[i] == r[|p|..][i]; }
  }
}
