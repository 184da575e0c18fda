/** The repository manifest: one digest per file, an aggregate digest over all of them, and the
check that compares a written manifest with the repository as it is now.

The hash is an arbitrary function from bytes to 64 bytes (the ASCII of its hexadecimal form). Which
files are walked, in which order, and the exclusion rules other than the fixed list are arbitrary.
 */
module Manifest {
  import opened Wrappers
  import opened Ordering
  import opened CanonicalBytes

  type Path = string

  const PROJECT_MANIFEST := "PROJECT_MANIFEST.json"
  const FILE_MANIFEST := "FILE_MANIFEST.sha256"

  /** `encode` is the UTF-8 encoding of a path, `pathLe` the order (by lower-cased path) in which
      files are listed, `hex` the hexadecimal digest, `manifested` the rule that picks files. */
  datatype Env = Env(
    encode: Path -> Bytes,
    pathLe: (Path, Path) -> bool,
    hex: Bytes -> Bytes,
    manifested: Path -> bool)

  predicate Excluded(p: Path) {
    p in {".git", PROJECT_MANIFEST, FILE_MANIFEST, "docs/generated/REPOSITORY_MAP.json", "docs/generated/REPOSITORY_MAP.md"}
  }

  /** Whatever the other rules are, the fixed list is never manifested; digests have 64 digits and
      the order of the listing is total. */
  ghost predicate Sane(e: Env) {
    && (forall p :: Excluded(p) ==> !e.manifested(p))
    && (forall b :: |e.hex(b)| == 64)
    && TotalPreorder(e.pathLe)
  }

  type Repository = map<Path, Bytes>

  datatype Entry = Entry(path: Path, size: nat, digest: Bytes)

  datatype Manifest = Manifest(rootName: string, fileCount: nat, totalBytes: nat, aggregate: Bytes, files: seq<Entry>)

  //
  // The hashed stream.
  //

  datatype Item = Item(path: Bytes, digest: Bytes)

  /** path NUL digest LF, one item after the other. */
  function Stream(items: seq<Item>): Bytes {
    if items == [] then [] else items[0].path + [0] + items[0].digest + [LF] + Stream(items[1..])
  }

  predicate WellFormed(i: Item) { 0 !in i.path && |i.digest| == 64 }

  function FirstNul(s: Bytes): (k: nat)
    ensures k <= |s|
    ensures forall i :: 0 <= i < k ==> s[i] != 0
    ensures k < |s| ==> s[k] == 0
  {
    if s == [] || s[0] == 0 then 0 else 1 + FirstNul(s[1..])
  }

  /** Reads a stream back. */
  function Decode(s: Bytes): Option<seq<Item>> {
    if s == [] then Some([])
    else
      var k := FirstNul(s);
      if |s| < k + 66 || s[k+65] != LF then None
      else
        match Decode(s[k+66..])
        case None => None
        case Some(rest) => Some([Item(s[..k], s[k+1..k+65])] + rest)
  }

  lemma FirstNulAt(s: Bytes, k: nat)
    requires k < |s| && s[k] == 0 && forall j :: 0 <= j < k ==> s[j] != 0
    ensures FirstNul(s) == k
  {}

  lemma LineLayout(path: Bytes, digest: Bytes, rest: Bytes, s: Bytes)
    requires |digest| == 64 && s == path + ([0] + (digest + ([LF] + rest)))
    ensures var k := |path|;
            && |s| >= k + 66 && s[k] == 0 && s[k+65] == LF
            && s[..k] == path && s[k+1..k+65] == digest && s[k+66..] == rest
  {
    var k := |path|;
    var t := digest + ([LF] + rest);
    assert s[..k] == path;
    assert s[k..] == [0] + t;
    assert s[k+1..] == t;
    assert t[..64] == digest && t[64] == LF && t[65..] == rest;
    assert s[k+1..k+65] == s[k+1..][..64];
    assert s[k+66..] == s[k+1..][65..];
  }

  lemma Regroup(a: Bytes, b: Bytes, c: Bytes, d: Bytes, r: Bytes)
    ensures a + b + c + d + r == a + (b + (c + (d + r)))
  {}

  lemma StreamParts(i: Item, rest: Bytes, s: Bytes)
    requires WellFormed(i) && s == i.path + [0] + i.digest + [LF] + rest
    ensures var k := |i.path|;
            && |s| >= k + 66 && FirstNul(s) == k && s[k+65] == LF
            && s[..k] == i.path && s[k+1..k+65] == i.digest && s[k+66..] == rest
  {
    var k := |i.path|;
    Regroup(i.path, [0], i.digest, [LF], rest);
    LineLayout(i.path, i.digest, rest, s);
    forall j | 0 <= j < k ensures s[j] != 0 { assert s[j] == s[..k][j]; }
    FirstNulAt(s, k);
  }

  lemma DecodeStep(s: Bytes, i: Item, rest: seq<Item>)
    requires FirstNul(s) == |i.path| && |s| >= |i.path| + 66 && s[|i.path|+65] == LF
    requires s[..|i.path|] == i.path && s[|i.path|+1..|i.path|+65] == i.digest
    requires Decode(s[|i.path|+66..]) == Some(rest)
    ensures Decode(s) == Some([i] + rest)
  {}

  /** Decoding inverts the stream, for paths without NUL and digests of 64 bytes. */
  lemma {:induction false} DecodeStream(items: seq<Item>)
    requires forall i :: i in items ==> WellFormed(i)
    ensures Decode(Stream(items)) == Some(items)
  {
    if items != [] {
      var first, rest := items[0], items[1..];
      assert first in items && items == [first] + rest;
      DecodeStream(rest);
      StreamParts(first, Stream(rest), Stream(items));
      DecodeStep(Stream(items), first, rest);
    }
  }

  /** Two listings with the same stream are the same listing. */
  lemma StreamUniquelyDecodable(a: seq<Item>, b: seq<Item>)
    requires forall i :: i in a ==> WellFormed(i)
    requires forall i :: i in b ==> WellFormed(i)
    requires Stream(a) == Stream(b)
    ensures a == b
  {
    DecodeStream(a);
    DecodeStream(b);
  }

  /** A path with a NUL in it can make two listings collide. */
  lemma NulBreaksDecodability(d: Bytes)
    requires |d| == 64
    ensures Stream([Item([1], d), Item([2], d)]) == Stream([Item([1, 0] + d + [LF, 2], d)])
    ensures [Item([1], d), Item([2], d)] != [Item([1, 0] + d + [LF, 2], d)]
  {
    var two, one := [Item([1], d), Item([2], d)], [Item([1, 0] + d + [LF, 2], d)];
    assert two[1..] == [Item([2], d)] && two[1..][1..] == [] && one[1..] == [];
    var tail := [2] + [0] + d + [LF];
    assert Stream(two[1..]) == tail by { assert Stream(two[1..]) == [2] + [0] + d + [LF] + Stream([]); }
    assert Stream(two) == [1] + [0] + d + [LF] + tail;
    assert Stream(one) == ([1, 0] + d + [LF, 2]) + [0] + d + [LF] + Stream([]);
  }

  //
  // Building.
  //

  /** The manifested paths in the order they are hashed: sorted, then filtered. */
  function Listing(e: Env, walk: seq<Path>): seq<Path> {
    Filter(e.manifested, SortBy(e.pathLe, walk))
  }

  function EntryOf(e: Env, repo: Repository, p: Path): Entry
    requires p in repo
  {
    var content := ManifestCanonical(repo[p]);
    Entry(p, |content|, e.hex(content))
  }

  function ItemOf(e: Env, x: Entry): Item { Item(e.encode(x.path), x.digest) }

  function Items(e: Env, files: seq<Entry>): (r: seq<Item>)
    ensures |r| == |files|
    ensures forall i :: 0 <= i < |files| ==> r[i] == ItemOf(e, files[i])
  {
    seq(|files|, i requires 0 <= i < |files| => ItemOf(e, files[i]))
  }

  /** The walk visits every file of the repository once. */
  ghost predicate Walks(walk: seq<Path>, repo: Repository) {
    forall p :: multiset(walk)[p] == if p in repo then 1 else 0
  }

  lemma SortedWalkInside(e: Env, walk: seq<Path>, repo: Repository)
    requires Sane(e) && Walks(walk, repo)
    ensures forall p :: p in SortBy(e.pathLe, walk) <==> p in repo
  {
    SortByMembers(e.pathLe, walk);
    forall p ensures p in walk <==> p in repo { assert p in walk <==> p in multiset(walk); }
  }

  lemma ListingMembers(e: Env, walk: seq<Path>, repo: Repository)
    requires Sane(e) && Walks(walk, repo)
    ensures forall p :: p in Listing(e, walk) <==> p in repo && e.manifested(p)
  {
    SortedWalkInside(e, walk, repo);
    FilterMembers(e.manifested, SortBy(e.pathLe, walk));
  }

  /** `files` records, in listing order, the canonical digest and size of every manifested file. */
  ghost predicate Records(e: Env, repo: Repository, listing: seq<Path>, files: seq<Entry>) {
    && |files| == |listing|
    && forall i :: 0 <= i < |files| ==> listing[i] in repo && files[i] == EntryOf(e, repo, listing[i])
  }

  function Total(files: seq<Entry>): nat {
    if files == [] then 0 else Total(files[..|files|-1]) + files[|files|-1].size
  }

  ghost predicate Describes(e: Env, repo: Repository, walk: seq<Path>, rootName: string, m: Manifest) {
    && Records(e, repo, Listing(e, walk), m.files)
    && m.rootName == rootName
    && m.fileCount == |m.files|
    && m.totalBytes == Total(m.files)
    && m.aggregate == e.hex(Stream(Items(e, m.files)))
  }

  lemma {:induction false} StreamSnoc(items: seq<Item>, x: Item)
    ensures Stream(items + [x]) == Stream(items) + (x.path + [0] + x.digest + [LF])
  {
    if items == [] {
      assert [x][1..] == [];
      assert Stream([x]) == x.path + [0] + x.digest + [LF] + [];
    } else {
      StreamSnoc(items[1..], x);
      assert (items + [x])[1..] == items[1..] + [x];
      var h := items[0].path + [0] + items[0].digest + [LF];
      assert h + (Stream(items[1..]) + (x.path + [0] + x.digest + [LF]))
          == (h + Stream(items[1..])) + (x.path + [0] + x.digest + [LF]);
    }
  }

  /** What the loop has after visiting `seen`. */
  ghost predicate Built(e: Env, repo: Repository, seen: seq<Path>, files: seq<Entry>, stream: Bytes, total: nat) {
    && Records(e, repo, Filter(e.manifested, seen), files)
    && stream == Stream(Items(e, files))
    && total == Total(files)
  }

  lemma RecordsSnoc(e: Env, repo: Repository, listing: seq<Path>, p: Path, files: seq<Entry>)
    requires Records(e, repo, listing, files) && p in repo
    ensures Records(e, repo, listing + [p], files + [EntryOf(e, repo, p)])
  {}

  lemma ItemsSnoc(e: Env, files: seq<Entry>, x: Entry)
    ensures Items(e, files + [x]) == Items(e, files) + [ItemOf(e, x)]
  {}

  lemma TotalSnoc(files: seq<Entry>, x: Entry)
    ensures Total(files + [x]) == Total(files) + x.size
  {
    assert (files + [x])[..|files|] == files;
  }

  lemma BuiltStep(e: Env, repo: Repository, seen: seq<Path>, p: Path, files: seq<Entry>, stream: Bytes, total: nat)
    requires Built(e, repo, seen, files, stream, total) && e.manifested(p) && p in repo
    ensures var x := EntryOf(e, repo, p);
            Built(e, repo, seen + [p], files + [x], stream + (e.encode(p) + [0] + x.digest + [LF]), total + x.size)
  {
    var x := EntryOf(e, repo, p);
    FilterSnoc(e.manifested, seen, p);
    RecordsSnoc(e, repo, Filter(e.manifested, seen), p, files);
    StreamSnoc(Items(e, files), ItemOf(e, x));
    ItemsSnoc(e, files, x);
    TotalSnoc(files, x);
  }

  lemma BuiltSkip(e: Env, repo: Repository, seen: seq<Path>, p: Path, files: seq<Entry>, stream: Bytes, total: nat)
    requires Built(e, repo, seen, files, stream, total) && !e.manifested(p)
    ensures Built(e, repo, seen + [p], files, stream, total)
  {
    FilterSnoc(e.manifested, seen, p);
    assert Filter(e.manifested, seen + [p]) == Filter(e.manifested, seen);
  }

  method BuildManifest(e: Env, repo: Repository, walk: seq<Path>, rootName: string) returns (m: Manifest)
    requires Sane(e) && Walks(walk, repo)
    ensures Describes(e, repo, walk, rootName, m)
  {
    var sorted := SortBy(e.pathLe, walk);
    assert forall p :: p in sorted ==> p in repo by { SortedWalkInside(e, walk, repo); }
    var files: seq<Entry>, stream: Bytes, total: nat := [], [], 0;
    for i := 0 to |sorted|
      invariant Built(e, repo, sorted[..i], files, stream, total)
    {
      var p := sorted[i];
      assert p in sorted && sorted[..i+1] == sorted[..i] + [p];
      if !e.manifested(p) {
        BuiltSkip(e, repo, sorted[..i], p, files, stream, total);
      } else {
        var x := EntryOf(e, repo, p);
        BuiltStep(e, repo, sorted[..i], p, files, stream, total);
        files := files + [x];
        stream := stream + (e.encode(p) + [0] + x.digest + [LF]);
        total := total + x.size;
      }
    }
    assert sorted[..|sorted|] == sorted;
    m := Manifest(rootName, |files|, total, e.hex(stream), files);
  }

  //
  // Verifying.
  //

  datatype Problem =
    | RootNameMismatch
    | MissingFromRepository(path: Path)
    | MissingFromManifest(path: Path)
    | DigestMismatch(path: Path)
    | AggregateMismatch

  /** Digests by path; a later entry replaces an earlier one with the same path. */
  function ByPath(files: seq<Entry>): map<Path, Bytes> {
    if files == [] then map[] else ByPath(files[..|files|-1])[files[|files|-1].path := files[|files|-1].digest]
  }

  ghost predicate Reported(recorded: Manifest, current: Manifest, x: Problem) {
    var r, c := ByPath(recorded.files), ByPath(current.files);
    match x
    case RootNameMismatch => recorded.rootName != current.rootName
    case MissingFromRepository(p) => p in r && p !in c
    case MissingFromManifest(p) => p in c && p !in r
    case DigestMismatch(p) => p in r && p in c && r[p] != c[p]
    case AggregateMismatch => recorded.aggregate != current.aggregate
  }

  ghost predicate CleanReport(recorded: Manifest, current: Manifest) {
    forall x :: !Reported(recorded, current, x)
  }

  method Compare(recorded: Manifest, current: Manifest) returns (errors: seq<Problem>)
    ensures forall x :: x in errors <==> Reported(recorded, current, x)
  {
    var r, c := ByPath(recorded.files), ByPath(current.files);
    errors := [];
    if recorded.rootName != current.rootName {
      errors := errors + [RootNameMismatch];
    }
    var missing, added, common := Ascending(r.Keys - c.Keys), Ascending(c.Keys - r.Keys), Ascending(r.Keys * c.Keys);
    for i := 0 to |missing|
      invariant forall x :: x in errors <==> (x.RootNameMismatch? && recorded.rootName != current.rootName)
                                             || (x.MissingFromRepository? && x.path in missing[..i])
    {
      assert missing[..i+1] == missing[..i] + [missing[i]];
      errors := errors + [MissingFromRepository(missing[i])];
    }
    assert missing[..|missing|] == missing;
    ghost var first := errors;
    for i := 0 to |added|
      invariant forall x :: x in errors <==> x in first || (x.MissingFromManifest? && x.path in added[..i])
    {
      assert added[..i+1] == added[..i] + [added[i]];
      errors := errors + [MissingFromManifest(added[i])];
    }
    assert added[..|added|] == added;
    var mismatches := CompareDigests(r, c, common);
    errors := errors + mismatches;
    if recorded.aggregate != current.aggregate {
      errors := errors + [AggregateMismatch];
    }
  }

  method CompareDigests(r: map<Path, Bytes>, c: map<Path, Bytes>, common: seq<Path>) returns (errors: seq<Problem>)
    requires forall p :: p in common ==> p in r && p in c
    ensures forall x :: x in errors <==> x.DigestMismatch? && x.path in common && r[x.path] != c[x.path]
  {
    errors := [];
    for i := 0 to |common|
      invariant forall x :: x in errors <==> x.DigestMismatch? && x.path in common[..i] && r[x.path] != c[x.path]
    {
      var p := common[i];
      assert p in common && common[..i+1] == common[..i] + [p];
      if r[p] != c[p] {
        errors := errors + [DigestMismatch(p)];
      }
    }
    assert common[..|common|] == common;
  }

  //
  // What an empty report means.
  //

  /** The manifested files with their canonical contents. */
  function Snapshot(e: Env, repo: Repository): map<Path, Bytes> {
    map p | p in repo && e.manifested(p) :: ManifestCanonical(repo[p])
  }

  /** The hash does not confuse these two inputs. */
  ghost predicate Tells(e: Env, a: Bytes, b: Bytes) {
    e.hex(a) == e.hex(b) ==> a == b
  }

  /** Nor any two contents of the same path. */
  ghost predicate TellsContents(e: Env, a: map<Path, Bytes>, b: map<Path, Bytes>) {
    forall p :: p in a && p in b ==> Tells(e, a[p], b[p])
  }

  /** What is hashed into the aggregate of `m`. */
  function StreamOf(e: Env, m: Manifest): Bytes { Stream(Items(e, m.files)) }

  lemma {:induction false} ByPathOf(e: Env, repo: Repository, listing: seq<Path>, files: seq<Entry>)
    requires Records(e, repo, listing, files)
    ensures forall p :: p in ByPath(files) <==> p in listing
    ensures forall p :: p in ByPath(files) ==> p in repo && ByPath(files)[p] == e.hex(ManifestCanonical(repo[p]))
  {
    if files != [] {
      var k := |files| - 1;
      ByPathOf(e, repo, listing[..k], files[..k]);
      assert listing == listing[..k] + [listing[k]];
    }
  }

  lemma DigestsOf(e: Env, repo: Repository, walk: seq<Path>, rootName: string, m: Manifest)
    requires Sane(e) && Walks(walk, repo) && Describes(e, repo, walk, rootName, m)
    ensures ByPath(m.files).Keys == Snapshot(e, repo).Keys
    ensures forall p :: p in Snapshot(e, repo) ==> ByPath(m.files)[p] == e.hex(Snapshot(e, repo)[p])
  {
    ListingMembers(e, walk, repo);
    ByPathOf(e, repo, Listing(e, walk), m.files);
  }

  /** What a manifest says about its files: path, canonical size and digest of each, the number of files
      and their total size. */
  lemma ManifestReports(e: Env, repo: Repository, walk: seq<Path>, rootName: string, m: Manifest, i: nat)
    requires Sane(e) && Walks(walk, repo) && Describes(e, repo, walk, rootName, m) && i < |m.files|
    ensures m.fileCount == |Listing(e, walk)| && m.rootName == rootName
    ensures i < |Listing(e, walk)| && m.files[i].path == Listing(e, walk)[i] && m.files[i].path in Snapshot(e, repo)
    ensures var content := Snapshot(e, repo)[m.files[i].path];
            m.files[i].size == |content| && m.files[i].digest == e.hex(content) && m.totalBytes >= |content|
  {
    ListingMembers(e, walk, repo);
    assert Listing(e, walk)[i] in Listing(e, walk);
    TotalCovers(m.files, i);
  }

  lemma TotalOfOne(x: Entry)
    ensures Total([x]) == x.size
  {
    assert [x][..0] == [];
  }

  lemma {:induction false} TotalAdds(a: seq<Entry>, b: seq<Entry>)
    ensures Total(a + b) == Total(a) + Total(b)
  {
    if b == [] {
      assert a + b == a;
    } else {
      assert (a + b)[..|a + b|-1] == a + b[..|b|-1];
      TotalAdds(a, b[..|b|-1]);
    }
  }

  lemma {:induction false} TotalCovers(files: seq<Entry>, i: nat)
    requires i < |files|
    ensures Total(files) >= files[i].size
  {
    if i < |files| - 1 { TotalCovers(files[..|files|-1], i); }
  }

  /** Equal digest tables come from equal snapshots. */
  lemma TablesDecide(e: Env, a: map<Path, Bytes>, b: map<Path, Bytes>, t: map<Path, Bytes>)
    requires TellsContents(e, a, b) && t.Keys == a.Keys && t.Keys == b.Keys
    requires forall p :: p in a ==> t[p] == e.hex(a[p])
    requires forall p :: p in b ==> t[p] == e.hex(b[p])
    ensures a == b
  {
    forall p | p in a ensures a[p] == b[p] { assert Tells(e, a[p], b[p]); }
  }

  lemma SameListingSameFiles(e: Env, r1: Repository, r2: Repository, listing: seq<Path>, f1: seq<Entry>, f2: seq<Entry>)
    requires Records(e, r1, listing, f1) && Records(e, r2, listing, f2)
    requires forall p :: p in listing ==> p in r1 && p in r2 && ManifestCanonical(r1[p]) == ManifestCanonical(r2[p])
    ensures f1 == f2
  {
    forall i | 0 <= i < |f1| ensures f1[i] == f2[i] { assert listing[i] in listing; }
  }

  /** Paths the aggregate can tell apart. */
  ghost predicate Encodes(e: Env, listing: seq<Path>) {
    && (forall p :: p in listing ==> 0 !in e.encode(p))
    && (forall p, q :: e.encode(p) == e.encode(q) ==> p == q)
  }

  /** The aggregate digest alone already fixes the listing and every digest in it, unless the hash
      confuses the two streams. */
  lemma AggregateDecides(e: Env, r1: Repository, w1: seq<Path>, m1: Manifest, r2: Repository, w2: seq<Path>, m2: Manifest)
    requires Sane(e) && Tells(e, StreamOf(e, m1), StreamOf(e, m2))
    requires Encodes(e, Listing(e, w1)) && Encodes(e, Listing(e, w2))
    requires Describes(e, r1, w1, m1.rootName, m1) && Describes(e, r2, w2, m2.rootName, m2)
    requires m1.aggregate == m2.aggregate
    ensures Listing(e, w1) == Listing(e, w2) && ByPath(m1.files) == ByPath(m2.files)
  {
    var a, b := Items(e, m1.files), Items(e, m2.files);
    assert Stream(a) == Stream(b);
    ItemsWellFormed(e, r1, Listing(e, w1), m1.files);
    ItemsWellFormed(e, r2, Listing(e, w2), m2.files);
    StreamUniquelyDecodable(a, b);
    SameItems(e, r1, Listing(e, w1), m1.files, r2, Listing(e, w2), m2.files);
  }

  lemma ItemsWellFormed(e: Env, repo: Repository, listing: seq<Path>, files: seq<Entry>)
    requires Sane(e) && Encodes(e, listing) && Records(e, repo, listing, files)
    ensures forall i :: i in Items(e, files) ==> WellFormed(i)
  {
    var items := Items(e, files);
    forall k | 0 <= k < |items| ensures WellFormed(items[k]) { assert listing[k] in listing; }
  }

  lemma SameItems(e: Env, r1: Repository, l1: seq<Path>, f1: seq<Entry>, r2: Repository, l2: seq<Path>, f2: seq<Entry>)
    requires Encodes(e, l1) && Records(e, r1, l1, f1) && Records(e, r2, l2, f2)
    requires Items(e, f1) == Items(e, f2)
    ensures l1 == l2 && ByPath(f1) == ByPath(f2)
  {
    forall i | 0 <= i < |f1| ensures f1[i].path == f2[i].path && f1[i].digest == f2[i].digest {
      assert Items(e, f1)[i] == Items(e, f2)[i];
    }
    assert forall i :: 0 <= i < |l1| ==> l1[i] == f1[i].path == f2[i].path == l2[i];
    SamePairs(f1, f2);
  }

  lemma {:induction false} SamePairs(f1: seq<Entry>, f2: seq<Entry>)
    requires |f1| == |f2| && forall i :: 0 <= i < |f1| ==> f1[i].path == f2[i].path && f1[i].digest == f2[i].digest
    ensures ByPath(f1) == ByPath(f2)
  {
    if f1 != [] { SamePairs(f1[..|f1|-1], f2[..|f2|-1]); }
  }

  lemma SameAggregateSameSnapshot(e: Env, r1: Repository, w1: seq<Path>, m1: Manifest, r2: Repository, w2: seq<Path>, m2: Manifest)
    requires Sane(e) && Walks(w1, r1) && Walks(w2, r2)
    requires Tells(e, StreamOf(e, m1), StreamOf(e, m2)) && TellsContents(e, Snapshot(e, r1), Snapshot(e, r2))
    requires Encodes(e, Listing(e, w1)) && Encodes(e, Listing(e, w2))
    requires Describes(e, r1, w1, m1.rootName, m1) && Describes(e, r2, w2, m2.rootName, m2)
    requires m1.aggregate == m2.aggregate
    ensures Snapshot(e, r1) == Snapshot(e, r2) && Listing(e, w1) == Listing(e, w2)
  {
    AggregateDecides(e, r1, w1, m1, r2, w2, m2);
    DigestsOf(e, r1, w1, m1.rootName, m1);
    DigestsOf(e, r2, w2, m2.rootName, m2);
    TablesDecide(e, Snapshot(e, r1), Snapshot(e, r2), ByPath(m1.files));
  }

  /** Unless the hash confuses the two streams or two contents of one path, an empty report means
      exactly: same root name, the same manifested paths with the same canonical contents, and the
      same order of listing. */
  lemma CleanReportMeansSameSnapshot(e: Env, r1: Repository, w1: seq<Path>, m1: Manifest, r2: Repository, w2: seq<Path>, m2: Manifest)
    requires Sane(e) && Walks(w1, r1) && Walks(w2, r2)
    requires Tells(e, StreamOf(e, m1), StreamOf(e, m2)) && TellsContents(e, Snapshot(e, r1), Snapshot(e, r2))
    requires Encodes(e, Listing(e, w1)) && Encodes(e, Listing(e, w2))
    requires Describes(e, r1, w1, m1.rootName, m1) && Describes(e, r2, w2, m2.rootName, m2)
    ensures CleanReport(m1, m2) <==>
              m1.rootName == m2.rootName && Snapshot(e, r1) == Snapshot(e, r2) && Listing(e, w1) == Listing(e, w2)
  {
    if m1.aggregate == m2.aggregate {
      SameAggregateSameSnapshot(e, r1, w1, m1, r2, w2, m2);
    }
    if Snapshot(e, r1) == Snapshot(e, r2) && Listing(e, w1) == Listing(e, w2) {
      SameSnapshotSameFiles(e, r1, w1, m1, r2, w2, m2);
    }
    assert m1.rootName != m2.rootName ==> Reported(m1, m2, RootNameMismatch);
    assert m1.aggregate != m2.aggregate ==> Reported(m1, m2, AggregateMismatch);
  }

  lemma SameSnapshotSameFiles(e: Env, r1: Repository, w1: seq<Path>, m1: Manifest, r2: Repository, w2: seq<Path>, m2: Manifest)
    requires Sane(e) && Walks(w1, r1) && Walks(w2, r2)
    requires Describes(e, r1, w1, m1.rootName, m1) && Describes(e, r2, w2, m2.rootName, m2)
    requires Snapshot(e, r1) == Snapshot(e, r2) && Listing(e, w1) == Listing(e, w2)
    ensures m1.files == m2.files && m1.aggregate == m2.aggregate
  {
    ListingMembers(e, w1, r1);
    ListingMembers(e, w2, r2);
    forall p | p in Listing(e, w1) ensures p in r1 && p in r2 && ManifestCanonical(r1[p]) == ManifestCanonical(r2[p]) {
      assert p in Snapshot(e, r1) && Snapshot(e, r1)[p] == Snapshot(e, r2)[p];
    }
    SameListingSameFiles(e, r1, r2, Listing(e, w1), m1.files, m2.files);
  }

  /** The report names what changed: a path only recorded, a path only present, and, unless the hash
      confuses the two contents, exactly the paths whose canonical content differs. */
  lemma ReportNamesChanges(e: Env, r1: Repository, w1: seq<Path>, m1: Manifest, r2: Repository, w2: seq<Path>, m2: Manifest, p: Path)
    requires Sane(e) && Walks(w1, r1) && Walks(w2, r2)
    requires Describes(e, r1, w1, m1.rootName, m1) && Describes(e, r2, w2, m2.rootName, m2)
    ensures var a, b := Snapshot(e, r1), Snapshot(e, r2);
            && (Reported(m1, m2, MissingFromRepository(p)) <==> p in a && p !in b)
            && (Reported(m1, m2, MissingFromManifest(p)) <==> p in b && p !in a)
            && (p in a && p in b && Tells(e, a[p], b[p]) ==> (Reported(m1, m2, DigestMismatch(p)) <==> a[p] != b[p]))
            && (Reported(m1, m2, DigestMismatch(p)) ==> p in a && p in b && a[p] != b[p])
  {
    DigestsOf(e, r1, w1, m1.rootName, m1);
    DigestsOf(e, r2, w2, m2.rootName, m2);
    assert p in Snapshot(e, r1) <==> p in ByPath(m1.files).Keys;
    assert p in Snapshot(e, r2) <==> p in ByPath(m2.files).Keys;
  }

  //
  // The order of the walk.
  //

  /** Two manifested paths that the listing order does not separate: they differ only in letter
      case. */
  predicate Tied(e: Env, p: Path, q: Path) {
    p != q && e.pathLe(p, q) && e.pathLe(q, p) && e.manifested(p) && e.manifested(q)
  }

  ghost predicate NoTies(e: Env, repo: Repository) {
    forall p, q :: p in repo && q in repo ==> !Tied(e, p, q)
  }

  /** Both walks meet every tied pair in the same order. */
  ghost predicate MeetAlike(e: Env, repo: Repository, w1: seq<Path>, w2: seq<Path>) {
    forall p, q :: p in repo && q in repo && Tied(e, p, q) ==> (Precedes(w1, p, q) <==> Precedes(w2, p, q))
  }

  lemma WalkSpec(walk: seq<Path>, repo: Repository)
    requires Walks(walk, repo)
    ensures Distinct(walk) && forall p :: p in walk <==> p in repo
  {
    DistinctCounts(walk);
    forall p ensures p in walk <==> p in repo { assert p in walk <==> p in multiset(walk); }
  }

  lemma ListingDistinct(e: Env, walk: seq<Path>, repo: Repository)
    requires Sane(e) && Walks(walk, repo)
    ensures Distinct(Listing(e, walk))
  {
    WalkSpec(walk, repo);
    var s := SortBy(e.pathLe, walk);
    SortDistinct(e.pathLe, walk);
    DistinctCounts(s);
    forall p ensures multiset(Listing(e, walk))[p] <= 1 { FilterMultiset(e.manifested, s, p); }
    DistinctCounts(Listing(e, walk));
  }

  /** The listing puts a tied pair in the order in which the walk met it. */
  lemma ListingStable(e: Env, walk: seq<Path>, repo: Repository, p: Path, q: Path)
    requires Sane(e) && Walks(walk, repo) && p in repo && q in repo && Tied(e, p, q)
    ensures Precedes(Listing(e, walk), p, q) <==> Precedes(walk, p, q)
  {
    WalkSpec(walk, repo);
    SortStable(e.pathLe, walk, p, q);
    FilterKeepsOrder(e.manifested, SortBy(e.pathLe, walk), p, q);
  }

  lemma ListingsPermuted(e: Env, w1: seq<Path>, r1: Repository, w2: seq<Path>, r2: Repository)
    requires Sane(e) && Walks(w1, r1) && Walks(w2, r2) && Snapshot(e, r1).Keys == Snapshot(e, r2).Keys
    ensures multiset(Listing(e, w1)) == multiset(Listing(e, w2))
    ensures Sorted(e.pathLe, Listing(e, w1)) && Sorted(e.pathLe, Listing(e, w2))
  {
    var s1, s2 := SortBy(e.pathLe, w1), SortBy(e.pathLe, w2);
    SortBySorted(e.pathLe, w1);
    SortBySorted(e.pathLe, w2);
    forall p | e.manifested(p) ensures multiset(s1)[p] == multiset(s2)[p] {
      assert p in Snapshot(e, r1) <==> p in Snapshot(e, r2);
    }
    FilterPermuted(e.manifested, s1, s2);
    FilterSorted(e.manifested, e.pathLe, s1);
    FilterSorted(e.manifested, e.pathLe, s2);
  }

  /** Two walks over the same manifested paths give the same listing exactly when they meet every
      tied pair in the same order. */
  lemma ListingsAgreeIff(e: Env, w1: seq<Path>, r1: Repository, w2: seq<Path>, r2: Repository)
    requires Sane(e) && Walks(w1, r1) && Walks(w2, r2) && Snapshot(e, r1).Keys == Snapshot(e, r2).Keys
    ensures Listing(e, w1) == Listing(e, w2) <==> MeetAlike(e, r1, w1, w2)
  {
    var l1, l2 := Listing(e, w1), Listing(e, w2);
    ListingMembers(e, w1, r1);
    forall p, q | p in r1 && q in r1 && Tied(e, p, q)
      ensures Precedes(l1, p, q) <==> Precedes(w1, p, q)
      ensures Precedes(l2, p, q) <==> Precedes(w2, p, q)
    {
      assert p in Snapshot(e, r1) && q in Snapshot(e, r1);
      assert p in Snapshot(e, r2) && q in Snapshot(e, r2);
      ListingStable(e, w1, r1, p, q);
      ListingStable(e, w2, r2, p, q);
    }
    if MeetAlike(e, r1, w1, w2) {
      forall p, q | p in l1 && q in l1 && p != q && e.pathLe(p, q) && e.pathLe(q, p)
        ensures Precedes(l1, p, q) <==> Precedes(l2, p, q)
      {
        assert Tied(e, p, q);
      }
      ListingsPermuted(e, w1, r1, w2, r2);
      ListingDistinct(e, w1, r1);
      SortedAlike(e.pathLe, l1, l2);
    }
  }

  /** So without ties the listing depends only on which paths are manifested. */
  lemma ListingOrderIndependent(e: Env, w1: seq<Path>, r1: Repository, w2: seq<Path>, r2: Repository)
    requires Sane(e) && Walks(w1, r1) && Walks(w2, r2)
    requires Snapshot(e, r1).Keys == Snapshot(e, r2).Keys && NoTies(e, r1)
    ensures Listing(e, w1) == Listing(e, w2)
  {
    ListingsAgreeIff(e, w1, r1, w2, r2);
  }

  /** A walk of the repository that starts with `p` and `q`. */
  ghost function WalkFrom(repo: Repository, p: Path, q: Path): seq<Path> {
    [p] + ([q] + Ascending(repo.Keys - {p, q}))
  }

  lemma AscendingCounts(s: set<string>, x: string)
    ensures multiset(Ascending(s))[x] == if x in s then 1 else 0
  {
    AscendingDistinct(s);
    DistinctCounts(Ascending(s));
    assert x in Ascending(s) <==> x in multiset(Ascending(s));
  }

  lemma WalkFromWalks(repo: Repository, p: Path, q: Path)
    requires p in repo && q in repo && p != q
    ensures Walks(WalkFrom(repo, p, q), repo) && Precedes(WalkFrom(repo, p, q), p, q)
  {
    var rest := Ascending(repo.Keys - {p, q});
    var tail := [q] + rest;
    assert WalkFrom(repo, p, q)[1..] == tail && tail[0] == q;
    forall x ensures multiset(WalkFrom(repo, p, q))[x] == if x in repo then 1 else 0 {
      AscendingCounts(repo.Keys - {p, q}, x);
      assert multiset(tail) == multiset{q} + multiset(rest);
      assert multiset([p] + tail) == multiset{p} + multiset(tail);
    }
  }

  /** A tied pair has two walks, of the whole repository, that list it differently. */
  lemma TieSplitsListings(e: Env, repo: Repository, p: Path, q: Path) returns (w1: seq<Path>, w2: seq<Path>)
    requires Sane(e) && p in repo && q in repo && Tied(e, p, q)
    ensures Walks(w1, repo) && Walks(w2, repo) && Listing(e, w1) != Listing(e, w2)
  {
    w1, w2 := WalkFrom(repo, p, q), WalkFrom(repo, q, p);
    WalkFromWalks(repo, p, q);
    WalkFromWalks(repo, q, p);
    WalkSpec(w2, repo);
    PrecedesOneWay(w2, p, q);
    ListingsAgreeIff(e, w1, repo, w2, repo);
  }

  //
  // Checking again.
  //

  /** The manifest of a repository as a value. */
  ghost function ManifestOf(e: Env, repo: Repository, walk: seq<Path>, rootName: string): (m: Manifest)
    requires Sane(e) && Walks(walk, repo)
    ensures Describes(e, repo, walk, rootName, m)
  {
    ListingMembers(e, walk, repo);
    var listing := Listing(e, walk);
    assert forall i :: 0 <= i < |listing| ==> listing[i] in listing;
    var files := seq(|listing|, i requires 0 <= i < |listing| => EntryOf(e, repo, listing[i]));
    Manifest(rootName, |files|, Total(files), e.hex(Stream(Items(e, files))), files)
  }

  /** The hash does not confuse the streams of any two walks of this repository, and its paths can
      be told apart in a stream. */
  ghost predicate TellsWalks(e: Env, repo: Repository, rootName: string)
    requires Sane(e)
  {
    && (forall w :: Walks(w, repo) ==> Encodes(e, Listing(e, w)))
    && (forall w1, w2 :: Walks(w1, repo) && Walks(w2, repo) ==>
          Tells(e, StreamOf(e, ManifestOf(e, repo, w1, rootName)), StreamOf(e, ManifestOf(e, repo, w2, rootName))))
  }

  /** On the same snapshot the report is empty exactly when the walks meet every tied pair in the
      same order. One direction holds for any hash. */
  lemma RecheckMeans(e: Env, r1: Repository, w1: seq<Path>, m1: Manifest, r2: Repository, w2: seq<Path>, m2: Manifest)
    requires Sane(e) && Walks(w1, r1) && Walks(w2, r2) && Snapshot(e, r1) == Snapshot(e, r2)
    requires Describes(e, r1, w1, m1.rootName, m1) && Describes(e, r2, w2, m1.rootName, m2)
    ensures MeetAlike(e, r1, w1, w2) ==> CleanReport(m1, m2)
    ensures Encodes(e, Listing(e, w1)) && Encodes(e, Listing(e, w2)) && Tells(e, StreamOf(e, m1), StreamOf(e, m2)) ==>
              (CleanReport(m1, m2) <==> MeetAlike(e, r1, w1, w2))
  {
    ListingsAgreeIff(e, w1, r1, w2, r2);
    if Listing(e, w1) == Listing(e, w2) {
      SameSnapshotSameFiles(e, r1, w1, m1, r2, w2, m2);
    } else if Encodes(e, Listing(e, w1)) && Encodes(e, Listing(e, w2)) && Tells(e, StreamOf(e, m1), StreamOf(e, m2)) {
      CleanReportMeansSameSnapshot(e, r1, w1, m1, r2, w2, m2);
    }
  }

  /** With a tie the check fails on an unchanged repository: two walks that meet one tied pair in
      different orders give different aggregates. */
  lemma TieChangesAggregate(e: Env, repo: Repository, w1: seq<Path>, m1: Manifest, w2: seq<Path>, m2: Manifest, p: Path, q: Path)
    requires Sane(e) && Walks(w1, repo) && Walks(w2, repo)
    requires Describes(e, repo, w1, m1.rootName, m1) && Describes(e, repo, w2, m1.rootName, m2)
    requires Encodes(e, Listing(e, w1)) && Encodes(e, Listing(e, w2)) && Tells(e, StreamOf(e, m1), StreamOf(e, m2))
    requires p in repo && q in repo && Tied(e, p, q) && Precedes(w1, p, q) && Precedes(w2, q, p)
    ensures Reported(m1, m2, AggregateMismatch)
  {
    WalkSpec(w2, repo);
    PrecedesOneWay(w2, p, q);
    ListingsAgreeIff(e, w1, repo, w2, repo);
    if m1.aggregate == m2.aggregate { AggregateDecides(e, repo, w1, m1, repo, w2, m2); }
  }

  /** Every check of an unchanged repository is clean, whatever the walks, exactly when no two
      manifested paths tie. */
  lemma UnchangedIsCleanIffNoTies(e: Env, repo: Repository, rootName: string)
    requires Sane(e) && TellsWalks(e, repo, rootName)
    ensures NoTies(e, repo) <==>
              forall w1, w2 :: Walks(w1, repo) && Walks(w2, repo) ==>
                CleanReport(ManifestOf(e, repo, w1, rootName), ManifestOf(e, repo, w2, rootName))
  {
    if NoTies(e, repo) {
      forall w1, w2 | Walks(w1, repo) && Walks(w2, repo)
        ensures CleanReport(ManifestOf(e, repo, w1, rootName), ManifestOf(e, repo, w2, rootName))
      {
        RecheckMeans(e, repo, w1, ManifestOf(e, repo, w1, rootName), repo, w2, ManifestOf(e, repo, w2, rootName));
      }
    } else {
      var p, q :| p in repo && q in repo && Tied(e, p, q);
      var w1, w2 := TieSplitsListings(e, repo, p, q);
      ListingsAgreeIff(e, w1, repo, w2, repo);
      RecheckMeans(e, repo, w1, ManifestOf(e, repo, w1, rootName), repo, w2, ManifestOf(e, repo, w2, rootName));
    }
  }

  /** The repository after the two manifest files were written. */
  function WithManifests(repo: Repository, project: Bytes, files: Bytes): Repository {
    repo[PROJECT_MANIFEST := project][FILE_MANIFEST := files]
  }

  lemma WritingKeepsSnapshot(e: Env, repo: Repository, project: Bytes, files: Bytes)
    requires forall p :: Excluded(p) ==> !e.manifested(p)
    ensures Snapshot(e, WithManifests(repo, project, files)) == Snapshot(e, repo)
  {
    assert Excluded(PROJECT_MANIFEST) && Excluded(FILE_MANIFEST);
  }

  /** Verifying right after writing: the written files are excluded, so the report is empty when the
      second walk meets every tied pair as the first did, for any hash; and only then, unless the
      hash confuses the two streams. */
  lemma VerifyAfterWrite(e: Env, repo: Repository, w1: seq<Path>, m1: Manifest, project: Bytes, files: Bytes, w2: seq<Path>, m2: Manifest)
    requires Sane(e) && Walks(w1, repo) && Walks(w2, WithManifests(repo, project, files))
    requires Describes(e, repo, w1, m1.rootName, m1)
    requires Describes(e, WithManifests(repo, project, files), w2, m1.rootName, m2)
    ensures MeetAlike(e, repo, w1, w2) ==> CleanReport(m1, m2)
    ensures NoTies(e, repo) ==> CleanReport(m1, m2)
    ensures Encodes(e, Listing(e, w1)) && Encodes(e, Listing(e, w2)) && Tells(e, StreamOf(e, m1), StreamOf(e, m2)) ==>
              (CleanReport(m1, m2) <==> MeetAlike(e, repo, w1, w2))
  {
    WritingKeepsSnapshot(e, repo, project, files);
    RecheckMeans(e, repo, w1, m1, WithManifests(repo, project, files), w2, m2);
  }
}
