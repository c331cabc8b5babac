/**
 The source fingerprint (build_fingerprint.rs): which files are hashed in which order and
 under which names. A path is known by its components, which is how paths are compared; the
 name that is hashed keeps its spelling, so one file can be listed under several names.
 */
module SourceTree {
  import opened Octets
  import opened Orders
  import opened KeyedSort
  import opened Fingerprint
  import Text

  const SLASH: Byte := 47
  const BACKSLASH: Byte := 92
  const PARENT: Bytes := [46, 46]

  // A path below the root, by components; a component `.` is none.
  type Path = seq<Bytes>

  predicate ValidPath(p: Path) {
    p != [] && forall c :: c in p ==> SLASH !in c
  }

  // The parent directory comes before every name.
  function CompareComponents(a: Bytes, b: Bytes): int {
    if a == PARENT || b == PARENT then CompareInts(if a == PARENT then 0 else 1, if b == PARENT then 0 else 1)
    else CompareBytes(a, b)
  }

  function ComparePaths(a: Path, b: Path): int {
    Lex(CompareComponents, a, b)
  }

  lemma PathsAreOrdered()
    ensures Ordering(ComparePaths)
  {
    BytesAreOrdered();
    assert Ordering(CompareComponents);
    LexOrdering(CompareComponents, ComparePaths);
  }

  // Paths are compared component by component; `..` comes before every other name and a
  // path before those below it.
  lemma PathsExactly(a: Path, b: Path)
    ensures ComparePaths(a, b) < 0 <==> a < b || exists i :: FirstBelow(a, b, i)
  {
    BytesAreOrdered();
    LexExactly(CompareComponents, a, b);
    assert forall i :: Undercuts(CompareComponents, a, b, i) <==> FirstBelow(a, b, i);
  }

  ghost predicate FirstBelow(a: Path, b: Path, i: int) {
    && 0 <= i < |a| && i < |b| && a[..i] == b[..i] && a[i] != b[i]
    && (a[i] == [46, 46] || (b[i] != [46, 46] && CompareBytes(a[i], b[i]) < 0))
  }

  function Slashed(text: Bytes): (t: Bytes)
    ensures |t| == |text|
    ensures forall i :: 0 <= i < |text| ==> t[i] == if text[i] == BACKSLASH then SLASH else text[i]
  {
    seq(|text|, i requires 0 <= i < |text| => if text[i] == BACKSLASH then SLASH else text[i])
  }

  // The name of a path that is spelled by its components.
  function NameOf(p: Path): Bytes {
    if p == [] then [] else Slashed(Text.Join(p, SLASH))
  }

  // The pieces of a path: its components, split again at backslashes.
  function PiecesOf(p: Path): (pieces: seq<Bytes>)
    ensures p != [] ==> pieces != []
  {
    if p == [] then [] else Text.Split(p[0], BACKSLASH) + PiecesOf(p[1..])
  }

  lemma {:induction false} PiecesHaveNoSlash(p: Path)
    requires forall c :: c in p ==> SLASH !in c
    ensures forall piece :: piece in PiecesOf(p) ==> SLASH !in piece
  {
    if p != [] {
      assert p[0] in p && forall c :: c in p[1..] ==> c in p;
      Text.SplitElements(p[0], BACKSLASH, SLASH);
      PiecesHaveNoSlash(p[1..]);
    }
  }

  lemma SlashedConcat(a: Bytes, b: Bytes)
    ensures Slashed(a + b) == Slashed(a) + Slashed(b)
  {}

  lemma SlashedPlain(text: Bytes)
    requires BACKSLASH !in text
    ensures Slashed(text) == text
  {}

  // Turning the separators around.
  lemma {:induction false} SlashedJoin(parts: seq<Bytes>)
    requires parts != [] && forall part :: part in parts ==> BACKSLASH !in part
    ensures Slashed(Text.Join(parts, BACKSLASH)) == Text.Join(parts, SLASH)
  {
    assert parts[0] in parts;
    SlashedPlain(parts[0]);
    if |parts| > 1 {
      assert forall part :: part in parts[1..] ==> part in parts;
      SlashedJoin(parts[1..]);
      var rest := Text.Join(parts[1..], BACKSLASH);
      SlashedConcat(parts[0] + [BACKSLASH], rest);
      SlashedConcat(parts[0], [BACKSLASH]);
      assert Slashed([BACKSLASH]) == [SLASH];
    }
  }

  lemma SlashedComponent(c: Bytes)
    ensures Slashed(c) == Text.Join(Text.Split(c, BACKSLASH), SLASH)
  {
    Text.JoinSplit(c, BACKSLASH);
    SlashedJoin(Text.Split(c, BACKSLASH));
  }

  // The name is the pieces joined by slashes.
  lemma {:induction false} NameIsPieces(p: Path)
    requires p != []
    ensures NameOf(p) == Text.Join(PiecesOf(p), SLASH)
  {
    SlashedComponent(p[0]);
    var first := Text.Split(p[0], BACKSLASH);
    if |p| == 1 {
      assert PiecesOf(p) == first;
    } else {
      var rest := p[1..];
      NameIsPieces(rest);
      Text.JoinConcat(first, PiecesOf(rest), SLASH);
      SlashedConcat(p[0] + [SLASH], Text.Join(rest, SLASH));
      SlashedConcat(p[0], [SLASH]);
      assert Slashed([SLASH]) == [SLASH];
    }
  }

  // Two paths share their name exactly when they have the same pieces.
  lemma NamesTellPiecesApart(p: Path, q: Path)
    requires ValidPath(p) && ValidPath(q)
    ensures NameOf(p) == NameOf(q) <==> PiecesOf(p) == PiecesOf(q)
  {
    NameIsPieces(p);
    NameIsPieces(q);
    PiecesHaveNoSlash(p);
    PiecesHaveNoSlash(q);
    if NameOf(p) == NameOf(q) {
      Text.JoinInjective(PiecesOf(p), PiecesOf(q), SLASH);
    }
  }

  // With a backslash they need not: a file `a\b` and a file `b` below `a`.
  lemma BackslashCollides()
    ensures ValidPath([[97, 92, 98]]) && ValidPath([[97], [98]])
    ensures NameOf([[97, 92, 98]]) == NameOf([[97], [98]])
  {
    var p: Path := [[97], [98]];
    assert p[1..] == [[98]];
    assert Text.Join(p, SLASH) == [97, 47, 98];
  }

  // ---------- The list of files ----------

  // A listed file: its path, and the name that its spelling gives.
  datatype Entry = Entry(path: Path, name: Bytes)

  function PathOf(e: Entry): Path {
    e.path
  }

  function Sorted(listing: seq<Entry>): seq<Entry> {
    Sort(By(ComparePaths, PathOf), listing)
  }

  // Files that are embedded are listed once for each place that embeds them, sorted and
  // deduplicated on their own, and sorted with the collected ones.
  function Listing(collected: seq<Entry>, embedded: seq<Entry>): seq<Entry> {
    Sorted(collected + Dedup(PathOf, Sorted(embedded)))
  }

  // Each name followed by the content.
  function FileFrames(files: seq<Entry>, read: Path -> Bytes): seq<Bytes> {
    if files == [] then [] else [files[0].name, read(files[0].path)] + FileFrames(files[1..], read)
  }

  function SourceStream(collected: seq<Entry>, embedded: seq<Entry>, read: Path -> Bytes): Bytes {
    Stream(FileFrames(Listing(collected, embedded), read))
  }

  ghost predicate Readable(files: seq<Entry>, read: Path -> Bytes) {
    forall e :: e in files ==> |read(e.path)| < U64 && |e.name| < U64
  }

  lemma {:induction false} FramesConcat(a: seq<Entry>, b: seq<Entry>, read: Path -> Bytes)
    ensures FileFrames(a + b, read) == FileFrames(a, read) + FileFrames(b, read)
  {
    if a == [] {
      assert a + b == b;
    } else {
      assert (a + b)[1..] == a[1..] + b;
      FramesConcat(a[1..], b, read);
    }
  }

  lemma NextFile(files: seq<Entry>, i: nat, read: Path -> Bytes)
    requires i < |files|
    ensures Stream(FileFrames(files[..i + 1], read))
         == Stream(FileFrames(files[..i], read)) + Frame(files[i].name) + Frame(read(files[i].path))
  {
    assert files[..i + 1] == files[..i] + [files[i]];
    FramesConcat(files[..i], [files[i]], read);
    var before, name, content := FileFrames(files[..i], read), files[i].name, read(files[i].path);
    assert FileFrames([files[i]], read) == [name, content];
    assert before + [name, content] == before + [name] + [content];
    StreamConcat(before + [name], [content]);
    StreamConcat(before, [name]);
    StreamOne(name);
    StreamOne(content);
  }

  method SourceFingerprint(collected: seq<Entry>, embedded: seq<Entry>, read: Path -> Bytes) returns (hash: Hasher)
    ensures fresh(hash) && hash.fed == SourceStream(collected, embedded, read)
  {
    var paths := collected;
    paths := paths + Dedup(PathOf, Sorted(embedded));
    paths := Sorted(paths);
    hash := new Hasher();
    for i := 0 to |paths|
      invariant fresh(hash) && hash.fed == Stream(FileFrames(paths[..i], read))
    {
      NextFile(paths, i, read);
      Framed(hash, paths[i].name);
      Framed(hash, read(paths[i].path));
    }
    assert paths[..|paths|] == paths;
  }

  // ---------- What the stream shows ----------

  // Names and contents, place by place.
  ghost predicate SameListing(a: seq<Entry>, readA: Path -> Bytes, b: seq<Entry>, readB: Path -> Bytes) {
    |a| == |b| && forall i :: 0 <= i < |a| ==> a[i].name == b[i].name && readA(a[i].path) == readB(b[i].path)
  }

  lemma {:induction false} FramesShort(files: seq<Entry>, read: Path -> Bytes)
    requires Readable(files, read)
    ensures Short(FileFrames(files, read))
  {
    if files != [] {
      assert forall e :: e in files[1..] ==> e in files;
      FramesShort(files[1..], read);
    }
  }

  lemma FirstFrames(files: seq<Entry>, read: Path -> Bytes)
    requires files != []
    ensures var f := FileFrames(files, read);
            |f| >= 2 && f[0] == files[0].name && f[1] == read(files[0].path) && f[2..] == FileFrames(files[1..], read)
  {}

  lemma TwoAndTail<T>(f: seq<T>, g: seq<T>)
    requires |f| >= 2 && |g| >= 2
    ensures f == g <==> f[0] == g[0] && f[1] == g[1] && f[2..] == g[2..]
  {
    assert f == [f[0], f[1]] + f[2..] && g == [g[0], g[1]] + g[2..];
  }

  lemma ListingAfterFirst(a: seq<Entry>, readA: Path -> Bytes, b: seq<Entry>, readB: Path -> Bytes)
    requires a != [] && b != []
    ensures SameListing(a, readA, b, readB) <==>
              a[0].name == b[0].name && readA(a[0].path) == readB(b[0].path) && SameListing(a[1..], readA, b[1..], readB)
  {
    assert forall i :: 0 < i < |a| ==> a[i] == a[1..][i - 1];
    assert forall i :: 0 < i < |b| ==> b[i] == b[1..][i - 1];
    assert forall i :: 0 <= i < |a| - 1 ==> a[1..][i] == a[i + 1];
    assert forall i :: 0 <= i < |b| - 1 ==> b[1..][i] == b[i + 1];
  }

  lemma {:induction false} FramesShowListing(a: seq<Entry>, readA: Path -> Bytes, b: seq<Entry>, readB: Path -> Bytes)
    ensures FileFrames(a, readA) == FileFrames(b, readB) <==> SameListing(a, readA, b, readB)
    decreases |a|
  {
    if a != [] && b != [] {
      FramesShowListing(a[1..], readA, b[1..], readB);
      FirstFrames(a, readA);
      FirstFrames(b, readB);
      TwoAndTail(FileFrames(a, readA), FileFrames(b, readB));
      ListingAfterFirst(a, readA, b, readB);
    }
  }

  lemma SortedElements(listing: seq<Entry>)
    ensures forall e :: e in Sorted(listing) <==> e in listing
  {
    SameElements(listing, Sorted(listing));
  }

  lemma {:induction false} DedupElements(s: seq<Entry>)
    ensures forall e :: e in Dedup(PathOf, s) ==> e in s
    decreases |s|
  {
    if s != [] { DedupElements(SkipSame(PathOf, PathOf(s[0]), s[1..])); }
  }

  lemma ListingElements(collected: seq<Entry>, embedded: seq<Entry>)
    ensures forall e :: e in Listing(collected, embedded) ==> e in collected || e in embedded
  {
    SortedElements(embedded);
    DedupElements(Sorted(embedded));
    SortedElements(collected + Dedup(PathOf, Sorted(embedded)));
  }

  // The hasher shows exactly the names and contents in path order.
  lemma StreamShowsListing(
    collected: seq<Entry>, embedded: seq<Entry>, read: Path -> Bytes,
    collected': seq<Entry>, embedded': seq<Entry>, read': Path -> Bytes)
    requires Readable(collected + embedded, read) && Readable(collected' + embedded', read')
    ensures SourceStream(collected, embedded, read) == SourceStream(collected', embedded', read')
            <==> SameListing(Listing(collected, embedded), read, Listing(collected', embedded'), read')
  {
    var a, b := Listing(collected, embedded), Listing(collected', embedded');
    ListingElements(collected, embedded);
    ListingElements(collected', embedded');
    FramesShort(a, read);
    FramesShort(b, read');
    FramesShowListing(a, read, b, read');
    if Stream(FileFrames(a, read)) == Stream(FileFrames(b, read')) {
      StreamInjective(FileFrames(a, read), FileFrames(b, read'));
    }
  }

  // ---------- Listing order ----------

  lemma ListingIsSorted(collected: seq<Entry>, embedded: seq<Entry>)
    ensures SortedBy(ComparePaths, PathOf, Listing(collected, embedded))
  {
    PathsAreOrdered();
    SortSortsBy(ComparePaths, PathOf, collected + Dedup(PathOf, Sorted(embedded)));
  }

  // The files are hashed in rising order of their paths.
  lemma ListingInOrder(collected: seq<Entry>, embedded: seq<Entry>, i: nat, j: nat)
    requires i < j < |Listing(collected, embedded)|
    ensures ComparePaths(Listing(collected, embedded)[i].path, Listing(collected, embedded)[j].path) <= 0
  {
    ListingIsSorted(collected, embedded);
    InOrder(Listing(collected, embedded), i, j);
  }

  lemma {:induction false} InOrder(files: seq<Entry>, i: nat, j: nat)
    requires SortedBy(ComparePaths, PathOf, files) && i < j < |files|
    ensures ComparePaths(files[i].path, files[j].path) <= 0
  {
    if i == 0 {
      assert files[1..][j - 1] in files[1..];
    } else {
      InOrder(files[1..], i - 1, j - 1);
    }
  }

  // Of one path the listing holds the collected entries in their order, then the first
  // embedded one.
  lemma ListingClass(collected: seq<Entry>, embedded: seq<Entry>, p: Path)
    ensures Class(PathOf, p, Listing(collected, embedded))
         == Class(PathOf, p, collected) + FirstOf(Class(PathOf, p, embedded))
  {
    PathsAreOrdered();
    var once := Dedup(PathOf, Sorted(embedded));
    SortKeepsClass(ComparePaths, PathOf, p, embedded);
    SortSortsBy(ComparePaths, PathOf, embedded);
    DedupClass(ComparePaths, PathOf, p, Sorted(embedded));
    SortKeepsClass(ComparePaths, PathOf, p, collected + once);
    ClassConcat(PathOf, p, collected, once);
  }

  ghost predicate Rearranged(a: seq<Entry>, b: seq<Entry>) {
    multiset(a) == multiset(b)
  }

  lemma RearrangedSizes(c: seq<Entry>, e: seq<Entry>, c': seq<Entry>, e': seq<Entry>, p: Path)
    requires Rearranged(c, c') && Rearranged(e, e')
    ensures |Class(PathOf, p, Listing(c, e))| == |Class(PathOf, p, Listing(c', e'))|
  {
    ListingClass(c, e, p);
    ListingClass(c', e', p);
    ClassSize(PathOf, p, c, c');
    ClassSize(PathOf, p, e, e');
  }

  // Arrangements of the same entries have the same paths in the same places.
  lemma RearrangedPaths(c: seq<Entry>, e: seq<Entry>, c': seq<Entry>, e': seq<Entry>)
    requires Rearranged(c, c') && Rearranged(e, e')
    ensures var a, b := Listing(c, e), Listing(c', e');
            |a| == |b| && forall i :: 0 <= i < |a| ==> a[i].path == b[i].path
  {
    var a, b := Listing(c, e), Listing(c', e');
    forall p ensures |Class(PathOf, p, a)| == |Class(PathOf, p, b)| {
      RearrangedSizes(c, e, c', e', p);
    }
    PathsAreOrdered();
    ListingIsSorted(c, e);
    ListingIsSorted(c', e');
    KeysByClassSizes(ComparePaths, PathOf, a, b);
    assert forall i :: 0 <= i < |a| ==> PathOf(a[i]) == PathOf(b[i]);
  }

  lemma RearrangedStreams(c: seq<Entry>, e: seq<Entry>, c': seq<Entry>, e': seq<Entry>, read: Path -> Bytes)
    requires Rearranged(c, c') && Rearranged(e, e') && Readable(c + e, read)
    ensures SourceStream(c, e, read) == SourceStream(c', e', read) <==> Listing(c, e) == Listing(c', e')
  {
    SameElements(c, c');
    SameElements(e, e');
    StreamShowsListing(c, e, read, c', e', read);
    RearrangedPaths(c, e, c', e');
    SameEntries(Listing(c, e), Listing(c', e'), read);
  }

  lemma SameEntries(a: seq<Entry>, b: seq<Entry>, read: Path -> Bytes)
    requires |a| == |b| && forall i :: 0 <= i < |a| ==> a[i].path == b[i].path
    ensures SameListing(a, read, b, read) <==> a == b
  {
    if SameListing(a, read, b, read) {
      forall i | 0 <= i < |a| ensures a[i] == b[i] {
        assert a[i].name == b[i].name && a[i].path == b[i].path;
      }
    }
  }

  lemma ArrangementIsIrrelevant(c: seq<Entry>, e: seq<Entry>, c': seq<Entry>, e': seq<Entry>)
    requires Rearranged(c, c') && Rearranged(e, e') && OneOfEach(PathOf, c) && OneOfEach(PathOf, e)
    ensures Listing(c, e) == Listing(c', e')
  {
    var a, b := Listing(c, e), Listing(c', e');
    forall p ensures Class(PathOf, p, a) == Class(PathOf, p, b) {
      ListingClass(c, e, p);
      ListingClass(c', e', p);
      ClassOfArrangement(PathOf, p, c, c');
      ClassOfArrangement(PathOf, p, e, e');
    }
    PathsAreOrdered();
    ListingIsSorted(c, e);
    ListingIsSorted(c', e');
    SortedByClasses(ComparePaths, PathOf, a, b);
  }

  // Every order in which directories list the files, and the sources the embedded ones,
  // gives the same bytes.
  ghost predicate OrderIsIrrelevant(c: seq<Entry>, e: seq<Entry>, read: Path -> Bytes) {
    forall c', e' :: Rearranged(c, c') && Rearranged(e, e') ==> SourceStream(c', e', read) == SourceStream(c, e, read)
  }

  lemma ClassesShow(c: seq<Entry>, e: seq<Entry>, c': seq<Entry>, e': seq<Entry>, p: Path)
    requires Class(PathOf, p, c) + FirstOf(Class(PathOf, p, e)) != Class(PathOf, p, c') + FirstOf(Class(PathOf, p, e'))
    ensures Listing(c, e) != Listing(c', e')
  {
    ListingClass(c, e, p);
    ListingClass(c', e', p);
  }

  lemma FrontOfClass(s: seq<Entry>)
    requires s != []
    ensures Class(PathOf, s[0].path, s) != [] && Class(PathOf, s[0].path, s)[0] == s[0]
  {}

  // The embedded entry that comes first gives its name.
  lemma FirstEmbeddedShows(c: seq<Entry>, a: seq<Entry>, b: seq<Entry>, read: Path -> Bytes)
    requires Readable(c + a, read) && Rearranged(a, b) && a != [] && b != []
    requires a[0].path == b[0].path && a[0] != b[0]
    ensures SourceStream(c, a, read) != SourceStream(c, b, read)
  {
    FrontOfClass(a);
    FrontOfClass(b);
    var front := Class(PathOf, a[0].path, c);
    assert (front + [a[0]])[|front|] != (front + [b[0]])[|front|];
    ClassesShow(c, a, c, b, a[0].path);
    RearrangedStreams(c, a, c, b, read);
  }

  lemma TwoEmbeddedSpellings(c: seq<Entry>, e: seq<Entry>, x: Entry, y: Entry, read: Path -> Bytes)
    requires Readable(c + e, read) && x in e && y in e && x.path == y.path && x != y
    ensures !OrderIsIrrelevant(c, e, read)
  {
    var e1 := MovedToFront(e, x);
    var e2 := MovedToFront(e, y);
    SameElements(e, e1);
    FirstEmbeddedShows(c, e1, e2, read);
    assert Rearranged(c, c) && Rearranged(e, e1) && Rearranged(e, e2);
  }

  lemma TwoCollectedSpellings(c: seq<Entry>, e: seq<Entry>, x: Entry, y: Entry, read: Path -> Bytes)
    requires Readable(c + e, read) && x in c && y in c && x.path == y.path && x != y
    ensures !OrderIsIrrelevant(c, e, read)
  {
    var c1 := MovedToFront(c, x);
    var c2 := MovedToFront(c, y);
    FrontOfClass(c1);
    FrontOfClass(c2);
    var last := FirstOf(Class(PathOf, x.path, e));
    assert (Class(PathOf, x.path, c1) + last)[0] != (Class(PathOf, x.path, c2) + last)[0];
    ClassesShow(c1, e, c2, e, x.path);
    SameElements(c, c1);
    RearrangedStreams(c1, e, c2, e, read);
    assert Rearranged(e, e) && Rearranged(c, c1) && Rearranged(c, c2);
  }

  // The order of the listings is irrelevant exactly when no file is collected under two
  // names and none is embedded under two.
  lemma ListingOrderIsIrrelevant(c: seq<Entry>, e: seq<Entry>, read: Path -> Bytes)
    requires Readable(c + e, read)
    ensures OrderIsIrrelevant(c, e, read) <==> OneOfEach(PathOf, c) && OneOfEach(PathOf, e)
  {
    if OneOfEach(PathOf, c) && OneOfEach(PathOf, e) {
      forall c', e' | Rearranged(c, c') && Rearranged(e, e') ensures SourceStream(c', e', read) == SourceStream(c, e, read) {
        ArrangementIsIrrelevant(c, e, c', e');
      }
    } else if !OneOfEach(PathOf, c) {
      var x, y :| x in c && y in c && PathOf(x) == PathOf(y) && x != y;
      TwoCollectedSpellings(c, e, x, y, read);
    } else {
      var x, y :| x in e && y in e && PathOf(x) == PathOf(y) && x != y;
      TwoEmbeddedSpellings(c, e, x, y, read);
    }
  }

  // One file embedded under two names: the source that is listed first decides which one is
  // hashed.
  lemma FirstSpellingIsHashed(x: Entry, y: Entry, read: Path -> Bytes)
    requires x.path == y.path && x.name != y.name && Readable([x, y], read)
    ensures SourceStream([], [x, y], read) != SourceStream([], [y, x], read)
  {
    assert [x, y] == [x] + [y] && [y, x] == [y] + [x];
    assert [] + [x, y] == [x, y];
    FirstEmbeddedShows([], [x, y], [y, x], read);
  }

  // `src/x` and `src/./x`.
  lemma DottedSpelling(read: Path -> Bytes)
    requires |read([[115, 114, 99], [120]])| < U64
    ensures var plain := Entry([[115, 114, 99], [120]], [115, 114, 99, 47, 120]);
            var dotted := Entry([[115, 114, 99], [120]], [115, 114, 99, 47, 46, 47, 120]);
            SourceStream([], [plain, dotted], read) != SourceStream([], [dotted, plain], read)
  {
    var plain := Entry([[115, 114, 99], [120]], [115, 114, 99, 47, 120]);
    var dotted := Entry([[115, 114, 99], [120]], [115, 114, 99, 47, 46, 47, 120]);
    assert |plain.name| == 5 && |dotted.name| == 7;
    FirstSpellingIsHashed(plain, dotted, read);
  }

  // ---------- Identifying a tree ----------

  function Paths(files: seq<Entry>): seq<Path> {
    Text.Map(PathOf, files)
  }

  // The same files, as often, with the same contents.
  ghost predicate SameFiles(a: seq<Entry>, readA: Path -> Bytes, b: seq<Entry>, readB: Path -> Bytes) {
    multiset(Paths(a)) == multiset(Paths(b)) && forall e :: e in a ==> readA(e.path) == readB(e.path)
  }

  // Over all entries a name belongs to one path and a path has one name.
  ghost predicate NamesTellPaths(a: seq<Entry>, b: seq<Entry>) {
    forall x, y :: (x in a || x in b) && (y in a || y in b) ==> (x.name == y.name <==> x.path == y.path)
  }

  lemma {:induction false} PathsAreSorted(files: seq<Entry>)
    requires SortedBy(ComparePaths, PathOf, files)
    ensures Orders.Sorted(ComparePaths, Paths(files))
  {
    if files != [] {
      PathsAreSorted(files[1..]);
      var paths := Paths(files);
      assert paths[1..] == Paths(files[1..]);
      forall p | p in paths[1..] ensures ComparePaths(paths[0], p) <= 0 {
        var i :| 0 <= i < |files| - 1 && paths[1..][i] == p;
        assert files[1..][i] in files[1..] && PathOf(files[1..][i]) == p;
      }
    }
  }

  lemma SamePathsInOrder(a: seq<Entry>, b: seq<Entry>)
    requires SortedBy(ComparePaths, PathOf, a) && SortedBy(ComparePaths, PathOf, b)
    requires multiset(Paths(a)) == multiset(Paths(b))
    ensures |a| == |b| && forall i :: 0 <= i < |a| ==> a[i].path == b[i].path
  {
    PathsAreSorted(a);
    PathsAreSorted(b);
    PathsAreOrdered();
    SortedUnique(ComparePaths, Paths(a), Paths(b));
    assert forall i :: 0 <= i < |a| ==> Paths(a)[i] == a[i].path;
    assert forall i :: 0 <= i < |b| ==> Paths(b)[i] == b[i].path;
  }

  lemma ListingShowsFiles(a: seq<Entry>, readA: Path -> Bytes, b: seq<Entry>, readB: Path -> Bytes)
    requires SortedBy(ComparePaths, PathOf, a) && SortedBy(ComparePaths, PathOf, b) && NamesTellPaths(a, b)
    ensures SameListing(a, readA, b, readB) <==> SameFiles(a, readA, b, readB)
  {
    if SameListing(a, readA, b, readB) {
      forall i | 0 <= i < |a| ensures a[i].path == b[i].path {
        assert a[i] in a && b[i] in b;
      }
      assert Paths(a) == Paths(b);
      forall e | e in a ensures readA(e.path) == readB(e.path) {
        var i :| 0 <= i < |a| && a[i] == e;
      }
    }
    if SameFiles(a, readA, b, readB) {
      SamePathsInOrder(a, b);
      forall i | 0 <= i < |a| ensures a[i].name == b[i].name && readA(a[i].path) == readB(b[i].path) {
        assert a[i] in a && b[i] in b;
      }
    }
  }

  // Two trees in which names and paths correspond feed the hasher the same bytes exactly
  // when they hold the same files with the same contents.
  lemma SourceStreamIdentifiesTree(
    collected: seq<Entry>, embedded: seq<Entry>, read: Path -> Bytes,
    collected': seq<Entry>, embedded': seq<Entry>, read': Path -> Bytes)
    requires Readable(collected + embedded, read) && Readable(collected' + embedded', read')
    requires NamesTellPaths(Listing(collected, embedded), Listing(collected', embedded'))
    ensures SourceStream(collected, embedded, read) == SourceStream(collected', embedded', read')
            <==> SameFiles(Listing(collected, embedded), read, Listing(collected', embedded'), read')
  {
    StreamShowsListing(collected, embedded, read, collected', embedded', read');
    ListingIsSorted(collected, embedded);
    ListingIsSorted(collected', embedded');
    ListingShowsFiles(Listing(collected, embedded), read, Listing(collected', embedded'), read');
  }

  lemma ListingOfOne(x: Entry)
    ensures Listing([x], []) == [x]
  {
    assert [x] + [] == [x] && [x][1..] == [];
  }

  // Without that condition the theorem fails: any two different paths that share a name make
  // two different trees with one stream, and any two names of one path two streams of one
  // tree.
  lemma SharedNameHidesTree(x: Entry, y: Entry, read: Path -> Bytes)
    requires Readable([x, y], read) && read(x.path) == read(y.path)
    ensures x.name == y.name && x.path != y.path ==>
              SourceStream([x], [], read) == SourceStream([y], [], read) && !SameFiles([x], read, [y], read)
    ensures x.name != y.name && x.path == y.path ==>
              SourceStream([x], [], read) != SourceStream([y], [], read) && SameFiles([x], read, [y], read)
  {
    ListingOfOne(x);
    ListingOfOne(y);
    assert x in [x, y] && y in [x, y];
    StreamShowsListing([x], [], read, [y], [], read);
    assert [x][0] == x && [y][0] == y;
    assert Paths([x]) == [x.path] && Paths([y]) == [y.path];
    assert x.path in multiset([x.path]);
    if x.path != y.path { assert x.path !in multiset([y.path]); }
  }
}
