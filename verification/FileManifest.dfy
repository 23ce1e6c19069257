/**
 * File-set manifests and the digest taken over them.
 *
 * `nfc` is Unicode normalization and `sha` the textual SHA-256; both are parameters.
 */
module FileManifest {
  import opened Wrappers
  import opened Text
  import opened Normalize
  import opened Sorting
  import opened StringOrder
  import opened CanonicalJson

  datatype File = File(path: JsString, bytes: seq<Byte>)
  datatype Entry = Entry(path: JsString, sha256: JsString)

  type Nfc = JsString -> JsString
  type Digest = seq<Byte> -> JsString

  datatype ManifestResult =
    | Manifest(files: seq<Entry>)
    | InvalidPathAt(at: nat)
    | DuplicatePathAt(at: nat)

  predicate ValidPath(nfc: Nfc, file: File) {
    NormalizeRelativePosixPath(nfc, file.path).Path?
  }

  function PathOf(nfc: Nfc, file: File): JsString {
    match NormalizeRelativePosixPath(nfc, file.path)
    case Path(p) => p
    case InvalidPath => []
  }

  function EntryOf(nfc: Nfc, sha: Digest): File -> Entry {
    (file: File) => Entry(PathOf(nfc, file), sha(file.bytes))
  }

  function Paths(nfc: Nfc, files: seq<File>): (ps: seq<JsString>)
    ensures |ps| == |files| && forall i :: 0 <= i < |files| ==> ps[i] == PathOf(nfc, files[i])
  {
    Map((file: File) => PathOf(nfc, file), files)
  }

  ghost predicate Admissible(nfc: Nfc, files: seq<File>) {
    && (forall i :: 0 <= i < |files| ==> ValidPath(nfc, files[i]))
    && NoDuplicates(Paths(nfc, files))
  }

  predicate EntryBefore(a: Entry, b: Entry) { CompareUtf8(a.path, b.path) < 0 }

  function SortedEntries(nfc: Nfc, sha: Digest, files: seq<File>): seq<Entry> {
    Sort(EntryBefore, Map(EntryOf(nfc, sha), files))
  }

  /** Refuses the first file that is invalid or a duplicate; otherwise sorts by UTF-8 path. */
  method BuildFileManifest(nfc: Nfc, sha: Digest, files: seq<File>) returns (r: ManifestResult)
    ensures r.Manifest? <==> Admissible(nfc, files)
    ensures r.Manifest? ==> r.files == SortedEntries(nfc, sha, files)
    ensures r.InvalidPathAt? ==>
              r.at < |files| && Admissible(nfc, files[..r.at]) && !ValidPath(nfc, files[r.at])
    ensures r.DuplicatePathAt? ==>
              && r.at < |files| && Admissible(nfc, files[..r.at]) && ValidPath(nfc, files[r.at])
              && PathOf(nfc, files[r.at]) in Paths(nfc, files[..r.at])
  {
    hide NormalizeRelativePosixPath, Sort;
    var entries: seq<Entry> := [];
    var seenPaths: set<JsString> := {};
    for i := 0 to |files|
      invariant Admissible(nfc, files[..i])
      invariant entries == Map(EntryOf(nfc, sha), files[..i])
      invariant seenPaths == Elements(Paths(nfc, files[..i]))
    {
      PrefixAdmissible(nfc, files, i);
      var path;
      match NormalizeRelativePosixPath(nfc, files[i].path) {
        case InvalidPath => return InvalidPathAt(i);
        case Path(p) => path := p;
      }
      if path in seenPaths {
        return DuplicatePathAt(i);
      }
      seenPaths := seenPaths + {path};
      entries := entries + [Entry(path, sha(files[i].bytes))];
      assert files[..i + 1] == files[..i] + [files[i]];
      assert Paths(nfc, files[..i + 1]) == Paths(nfc, files[..i]) + [path];
    }
    assert files[..|files|] == files;
    r := Manifest(Sort(EntryBefore, entries));
  }

  /** A bad file anywhere spoils the whole listing. */
  lemma PrefixAdmissible(nfc: Nfc, files: seq<File>, i: nat)
    requires i < |files| && Admissible(nfc, files[..i])
    ensures !ValidPath(nfc, files[i]) ==> !Admissible(nfc, files)
    ensures PathOf(nfc, files[i]) in Paths(nfc, files[..i]) ==> !Admissible(nfc, files)
  {
    var p, all := Paths(nfc, files[..i]), Paths(nfc, files);
    if PathOf(nfc, files[i]) in p {
      var k :| 0 <= k < i && p[k] == PathOf(nfc, files[i]);
      assert all[k] == all[i];
    }
  }

  // --- the listing order ---------------------------------------------------------

  /** No two paths look alike to a `TextEncoder`. */
  ghost predicate Distinguishable(nfc: Nfc, files: seq<File>) {
    forall i, j :: 0 <= i < j < |files| ==> Scalars(PathOf(nfc, files[i])) != Scalars(PathOf(nfc, files[j]))
  }

  lemma EntryOrder(s: set<Entry>)
    ensures WeakOrderOn(EntryBefore, s)
  {
    hide LexTuple, Lex, Encode;
    forall x, y | x in s && y in s ensures EntryBefore(x, y) <==> LexTuple([Encode(x.path)], [Encode(y.path)]) < 0 {
      OneKey(Encode(x.path), Encode(y.path));
    }
    KeyOrder(EntryBefore, (e: Entry) => [Encode(e.path)], s);
  }

  lemma {:induction false} DistinguishableSeparates(nfc: Nfc, sha: Digest, files: seq<File>)
    requires Distinguishable(nfc, files)
    ensures SeparatesOn(EntryBefore, Elements(Map(EntryOf(nfc, sha), files)))
  {
    var es := Map(EntryOf(nfc, sha), files);
    forall x, y | x in Elements(es) && y in Elements(es) && x != y ensures EntryBefore(x, y) || EntryBefore(y, x) {
      var i :| 0 <= i < |es| && es[i] == x;
      var j :| 0 <= j < |es| && es[j] == y;
      Utf8Ties(x.path, y.path);
      LexLaws(Encode(x.path), Encode(y.path));
    }
  }

  lemma AdmissiblePermutes(nfc: Nfc, files: seq<File>, other: seq<File>)
    requires multiset(files) == multiset(other) && Admissible(nfc, files)
    ensures Admissible(nfc, other)
  {
    var f := (file: File) => PathOf(nfc, file);
    MapPermutes(f, files, other);
    NoDuplicatesPermutes(Map(f, files), Map(f, other));
    SameElements(files, other);
    forall i | 0 <= i < |other| ensures ValidPath(nfc, other[i]) {
      assert other[i] in Elements(files);
    }
  }

  lemma EntriesNoDuplicates(nfc: Nfc, sha: Digest, files: seq<File>)
    requires Admissible(nfc, files)
    ensures NoDuplicates(Map(EntryOf(nfc, sha), files))
  {
    var es, ps := Map(EntryOf(nfc, sha), files), Paths(nfc, files);
    forall i, j | 0 <= i < j < |es| ensures es[i] != es[j] { assert ps[i] != ps[j]; }
  }

  /** Distinguishable paths: one strictly sorted manifest, whatever order they were listed in. */
  lemma {:induction false} ManifestIgnoresListing(nfc: Nfc, sha: Digest, files: seq<File>, other: seq<File>)
    requires multiset(files) == multiset(other)
    ensures Admissible(nfc, files) <==> Admissible(nfc, other)
    ensures Admissible(nfc, files) && Distinguishable(nfc, files) ==>
              && SortedEntries(nfc, sha, files) == SortedEntries(nfc, sha, other)
              && StrictlySorted(EntryBefore, SortedEntries(nfc, sha, files))
  {
    if Admissible(nfc, files) { AdmissiblePermutes(nfc, files, other); }
    if Admissible(nfc, other) { AdmissiblePermutes(nfc, other, files); }
    if Admissible(nfc, files) && Distinguishable(nfc, files) {
      var f := EntryOf(nfc, sha);
      MapPermutes(f, files, other);
      EntryOrder(Elements(Map(f, files)));
      DistinguishableSeparates(nfc, sha, files);
      SortIgnoresArrival(EntryBefore, Map(f, files), Map(f, other));
      EntriesNoDuplicates(nfc, sha, files);
      SortStrict(EntryBefore, Map(f, files));
    }
  }

  lemma {:induction false} MapReverse<A, B>(f: A -> B, s: seq<A>)
    ensures Map(f, Reverse(s)) == Reverse(Map(f, s))
  {
    hide Map;
    if s != [] {
      var rest := s[1..];
      MapReverse(f, rest);
      MapAppend(f, Reverse(rest), s[0]);
      assert Map(f, s) == [f(s[0])] + Map(f, rest);
      ReverseCons(f(s[0]), Map(f, rest));
    }
  }

  /** And only then: otherwise listing the same files backwards changes the manifest. */
  lemma {:induction false} ManifestOrderExact(nfc: Nfc, sha: Digest, files: seq<File>)
    requires Admissible(nfc, files)
    ensures Distinguishable(nfc, files) <==>
            forall other: seq<File> :: multiset(other) == multiset(files) ==>
              SortedEntries(nfc, sha, other) == SortedEntries(nfc, sha, files)
  {
    if Distinguishable(nfc, files) {
      forall other: seq<File> | multiset(other) == multiset(files)
        ensures SortedEntries(nfc, sha, other) == SortedEntries(nfc, sha, files)
      {
        ManifestIgnoresListing(nfc, sha, files, other);
      }
    } else {
      BackwardsDiffers(nfc, sha, files);
      assert multiset(Reverse(files)) == multiset(files);
    }
  }

  lemma {:induction false} BackwardsDiffers(nfc: Nfc, sha: Digest, files: seq<File>)
    requires Admissible(nfc, files) && !Distinguishable(nfc, files)
    ensures SortedEntries(nfc, sha, Reverse(files)) != SortedEntries(nfc, sha, files)
  {
    var es := Map(EntryOf(nfc, sha), files);
    var i, j :| 0 <= i < j < |files| && Scalars(PathOf(nfc, files[i])) == Scalars(PathOf(nfc, files[j]));
    var target := Scalars(PathOf(nfc, files[i]));
    var p := (e: Entry) => Scalars(e.path) == target;
    EntriesNoDuplicates(nfc, sha, files);
    forall u, v | u in es && v in es && p(u) && p(v) ensures !EntryBefore(u, v) { Utf8Ties(u.path, v.path); }
    assert es[i] in es && es[j] in es && es[i] != es[j];
    TiesLeakArrival(EntryBefore, p, es, es[i], es[j]);
    MapReverse(EntryOf(nfc, sha), files);
  }

  const LONE: JsString := [0xD800]
  const REPLACEMENT: JsString := [0xFFFD]

  /** Two admissible files, one named by a lone surrogate: listing them backwards changes the manifest. */
  lemma {:induction false} ListingOrderLeaks(nfc: Nfc, sha: Digest)
    requires nfc(LONE) == LONE && nfc(REPLACEMENT) == REPLACEMENT
    ensures var files := [File(LONE, []), File(REPLACEMENT, [])];
            && Admissible(nfc, files) && Admissible(nfc, Reverse(files)) && multiset(Reverse(files)) == multiset(files)
            && SortedEntries(nfc, sha, Reverse(files)) != SortedEntries(nfc, sha, files)
  {
    hide NormalizeRelativePosixPath, Sort, Scalars;
    var files := [File(LONE, []), File(REPLACEMENT, [])];
    PlainPath(nfc, LONE);
    PlainPath(nfc, REPLACEMENT);
    LoneSurrogateTies();
    Utf8Ties(LONE, REPLACEMENT);
    assert Scalars(PathOf(nfc, files[0])) == Scalars(PathOf(nfc, files[1]));
    BackwardsDiffers(nfc, sha, files);
    AdmissiblePermutes(nfc, files, Reverse(files));
  }

  // --- the file-set digest ----------------------------------------------------------

  const PATH_KEY: JsString := [0x70, 0x61, 0x74, 0x68]
  const SHA_KEY: JsString := [0x73, 0x68, 0x61, 0x32, 0x35, 0x36]
  const FILES_KEY: JsString := [0x66, 0x69, 0x6C, 0x65, 0x73]

  function EntryJson(e: Entry): Json {
    Obj([(PATH_KEY, Str(e.path)), (SHA_KEY, Str(e.sha256))])
  }

  function ManifestJson(es: seq<Entry>): Json {
    Obj([(FILES_KEY, Arr(Map(EntryJson, es)))])
  }

  ghost predicate AllWellFormed(es: seq<Entry>) {
    forall i :: 0 <= i < |es| ==> WellFormed(es[i].path) && WellFormed(es[i].sha256)
  }

  lemma EntryJsonValid(e: Entry)
    ensures Valid(EntryJson(e)) <==> WellFormed(e.path) && WellFormed(e.sha256)
  {
    BelowSurrogatesWellFormed(PATH_KEY);
    BelowSurrogatesWellFormed(SHA_KEY);
    var ms := EntryJson(e).members;
    assert PATH_KEY[0] != SHA_KEY[0];
    assert ms[0].0 == PATH_KEY && ms[1].0 == SHA_KEY;
    assert ms[0].1 == Str(e.path) && ms[1].1 == Str(e.sha256);
  }

  lemma ManifestJsonValid(es: seq<Entry>)
    ensures Valid(ManifestJson(es)) <==> AllWellFormed(es)
  {
    hide WellFormed, EntryJson;
    BelowSurrogatesWellFormed(FILES_KEY);
    var items := Map(EntryJson, es);
    var ms := ManifestJson(es).members;
    assert ms[0].0 == FILES_KEY && ms[0].1 == Arr(items);
    assert Valid(ManifestJson(es)) <==> Valid(Arr(items));
    assert Valid(Arr(items)) <==> forall i :: 0 <= i < |items| ==> Valid(items[i]);
    forall i | 0 <= i < |es| ensures Valid(items[i]) <==> WellFormed(es[i].path) && WellFormed(es[i].sha256) {
      EntryJsonValid(es[i]);
    }
  }

  /** `hashFileSet`; `None` stands for the exceptions of either layer. */
  ghost function HashFileSet(nfc: Nfc, sha: Digest, files: seq<File>): Option<JsString> {
    if Admissible(nfc, files) && Valid(ManifestJson(SortedEntries(nfc, sha, files))) then
      Some(Sha256Canonical(sha, ManifestJson(SortedEntries(nfc, sha, files))))
    else None
  }

  method ComputeFileSetHash(nfc: Nfc, sha: Digest, files: seq<File>) returns (r: Option<JsString>)
    ensures r == HashFileSet(nfc, sha, files)
  {
    hide WellFormed, ManifestJson, Sort, NormalizeRelativePosixPath;
    var manifest := BuildFileManifest(nfc, sha, files);
    if !manifest.Manifest? { return None; }
    ManifestJsonValid(manifest.files);
    for i := 0 to |manifest.files|
      invariant forall j :: 0 <= j < i ==> WellFormed(manifest.files[j].path) && WellFormed(manifest.files[j].sha256)
    {
      if !WellFormed(manifest.files[i].path) || !WellFormed(manifest.files[i].sha256) { return None; }
    }
    r := Some(Sha256Canonical(sha, ManifestJson(manifest.files)));
  }

  lemma SameEntriesWellFormed(es: seq<Entry>, t: seq<Entry>)
    requires multiset(es) == multiset(t) && AllWellFormed(es)
    ensures AllWellFormed(t)
  {
    hide WellFormed;
    SameElements(es, t);
    forall i | 0 <= i < |t| ensures WellFormed(t[i].path) && WellFormed(t[i].sha256) {
      assert t[i] in Elements(es);
      var j :| 0 <= j < |es| && es[j] == t[i];
    }
  }

  lemma SortedWellFormed(nfc: Nfc, sha: Digest, files: seq<File>)
    ensures AllWellFormed(SortedEntries(nfc, sha, files)) <==> AllWellFormed(Map(EntryOf(nfc, sha), files))
  {
    hide AllWellFormed, Sort;
    var es, t := Map(EntryOf(nfc, sha), files), SortedEntries(nfc, sha, files);
    if AllWellFormed(es) { SameEntriesWellFormed(es, t); }
    if AllWellFormed(t) { SameEntriesWellFormed(t, es); }
  }

  /**
   * The digest ignores the listing order on every input: the paths that could tie
   * are exactly the ones canonical JSON refuses.
   */
  lemma {:induction false} HashIgnoresListing(nfc: Nfc, sha: Digest, files: seq<File>, other: seq<File>)
    requires multiset(files) == multiset(other)
    ensures HashFileSet(nfc, sha, files) == HashFileSet(nfc, sha, other)
  {
    hide AllWellFormed, Sort, Distinguishable, Admissible, ManifestJson, CanonicalBytes;
    ManifestIgnoresListing(nfc, sha, files, other);
    ManifestJsonValid(SortedEntries(nfc, sha, files));
    ManifestJsonValid(SortedEntries(nfc, sha, other));
    SortedWellFormed(nfc, sha, files);
    SortedWellFormed(nfc, sha, other);
    var f := EntryOf(nfc, sha);
    MapPermutes(f, files, other);
    if AllWellFormed(Map(f, files)) { SameEntriesWellFormed(Map(f, files), Map(f, other)); }
    if AllWellFormed(Map(f, other)) { SameEntriesWellFormed(Map(f, other), Map(f, files)); }
    if Admissible(nfc, files) && AllWellFormed(Map(f, files)) {
      WellFormedDistinguishable(nfc, sha, files);
    }
  }

  lemma {:induction false} WellFormedDistinguishable(nfc: Nfc, sha: Digest, files: seq<File>)
    requires Admissible(nfc, files) && AllWellFormed(Map(EntryOf(nfc, sha), files))
    ensures Distinguishable(nfc, files)
  {
    var es, ps := Map(EntryOf(nfc, sha), files), Paths(nfc, files);
    forall i, j | 0 <= i < j < |files| ensures Scalars(PathOf(nfc, files[i])) != Scalars(PathOf(nfc, files[j])) {
      assert ps[i] != ps[j] && es[i].path == ps[i] && es[j].path == ps[j];
      if Scalars(ps[i]) == Scalars(ps[j]) { ScalarsInjective(ps[i], ps[j]); }
    }
  }

  // --- what the digest identifies ------------------------------------------------------

  lemma EntryJsonSame(a: Entry, b: Entry)
    requires Same(EntryJson(a), EntryJson(b))
    ensures a == b
  {
    hide Lookup;
    var ms, ns := EntryJson(a).members, EntryJson(b).members;
    assert PATH_KEY[0] != SHA_KEY[0];
    LookupOwn(ns, 0);
    LookupOwn(ns, 1);
    assert ms[0].0 == ns[0].0 == PATH_KEY && ms[1].0 == ns[1].0 == SHA_KEY;
    assert Same(ms[0].1, Lookup(ns, PATH_KEY)) && Same(ms[1].1, Lookup(ns, SHA_KEY));
  }

  lemma ManifestJsonSame(xs: seq<Entry>, ys: seq<Entry>)
    requires Same(ManifestJson(xs), ManifestJson(ys))
    ensures xs == ys
  {
    hide Lookup, EntryJson;
    var ms, ns := ManifestJson(xs).members, ManifestJson(ys).members;
    LookupOwn(ns, 0);
    assert ms[0].0 == ns[0].0 == FILES_KEY;
    assert Same(ms[0].1, Lookup(ns, FILES_KEY));
    var a, b := Map(EntryJson, xs), Map(EntryJson, ys);
    forall i | 0 <= i < |xs| ensures xs[i] == ys[i] {
      assert Same(a[i], b[i]);
      EntryJsonSame(xs[i], ys[i]);
    }
  }

  /** What a listing holds: normalized path to bytes. */
  ghost predicate Holds(nfc: Nfc, files: seq<File>, path: JsString, bytes: seq<Byte>) {
    exists i :: 0 <= i < |files| && PathOf(nfc, files[i]) == path && files[i].bytes == bytes
  }

  ghost predicate NoCollisions(nfc: Nfc, sha: Digest, a: seq<File>, b: seq<File>) {
    && (forall i, j :: 0 <= i < |a| && 0 <= j < |b| ==> NoCollision(sha, a[i].bytes, b[j].bytes))
    && (Valid(ManifestJson(SortedEntries(nfc, sha, a))) && Valid(ManifestJson(SortedEntries(nfc, sha, b))) ==>
          NoCollision(sha, CanonicalBytes(ManifestJson(SortedEntries(nfc, sha, a))),
                           CanonicalBytes(ManifestJson(SortedEntries(nfc, sha, b)))))
  }

  /** Short of a collision, equal digests mean the same files under the same paths. */
  lemma {:induction false} HashIdentifiesFiles(nfc: Nfc, sha: Digest, a: seq<File>, b: seq<File>, path: JsString, bytes: seq<Byte>)
    requires HashFileSet(nfc, sha, a).Some? && HashFileSet(nfc, sha, a) == HashFileSet(nfc, sha, b)
    requires NoCollisions(nfc, sha, a, b)
    ensures Holds(nfc, a, path, bytes) <==> Holds(nfc, b, path, bytes)
  {
    var xs, ys := SortedEntries(nfc, sha, a), SortedEntries(nfc, sha, b);
    DigestIdentity(sha, ManifestJson(xs), ManifestJson(ys));
    ManifestJsonSame(xs, ys);
    var f := EntryOf(nfc, sha);
    SameElements(Map(f, a), xs);
    SameElements(Map(f, b), ys);
    if Holds(nfc, a, path, bytes) { HeldAlike(nfc, sha, a, b, path, bytes); }
    if Holds(nfc, b, path, bytes) { HeldAlike(nfc, sha, b, a, path, bytes); }
  }

  lemma HeldAlike(nfc: Nfc, sha: Digest, a: seq<File>, b: seq<File>, path: JsString, bytes: seq<Byte>)
    requires Elements(Map(EntryOf(nfc, sha), a)) == Elements(Map(EntryOf(nfc, sha), b))
    requires forall i, j :: 0 <= i < |a| && 0 <= j < |b| ==>
               (sha(a[i].bytes) == sha(b[j].bytes) ==> a[i].bytes == b[j].bytes)
    requires Holds(nfc, a, path, bytes)
    ensures Holds(nfc, b, path, bytes)
  {
    var f := EntryOf(nfc, sha);
    var i :| 0 <= i < |a| && PathOf(nfc, a[i]) == path && a[i].bytes == bytes;
    assert Map(f, a)[i] in Elements(Map(f, a));
    assert Map(f, a)[i] in Map(f, b);
    var j :| 0 <= j < |b| && Map(f, b)[j] == Map(f, a)[i];
    assert PathOf(nfc, b[j]) == path && sha(b[j].bytes) == sha(bytes);
  }
}
