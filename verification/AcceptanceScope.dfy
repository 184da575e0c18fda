/** Which changes between two commits count as metadata only.

A commit is a map from paths to contents and a diff is the set of paths whose content differs. How
the lines of a requirements file are read into rows is an arbitrary function.
 */
module AcceptanceScope {
  import opened Wrappers

  type Path = string
  type Row = map<string, string>
  type Commit = map<Path, string>

  /** The allowlist: exact paths, path prefixes, and the one file that is compared row by row. */
  datatype Scope = Scope(requirements: Path, exact: set<Path>, prefixes: set<string>)

  function Directory(): Path { "plans/_traceability/" }

  function FileName(): Path { "requirements.jsonl" }

  function RequirementsPath(): Path { Directory() + FileName() }

  function Jira(): Path { "jira/" }

  function ExactPaths(): set<Path> {
    {RequirementsPath(), Jira() + "BOARD_MANIFEST.json", Jira() + "indexes/issues.jsonl",
     Jira() + "indexes/issues_by_id.json", Jira() + "relationships/graph.json", "FILE_MANIFEST.sha256",
     "PROJECT_MANIFEST.json"}
  }

  function Prefixes(): set<string> {
    {Jira(), "docs/generated/", "evidence/generated/", Directory() + "requirements_by_id.json",
     Directory() + "coverage_report.json"}
  }

  function RepositoryScope(): Scope { Scope(RequirementsPath(), ExactPaths(), Prefixes()) }

  //
  // Paths.
  //

  function Slashes(p: Path): Path {
    if p == "" then "" else [if p[0] == '\\' then '/' else p[0]] + Slashes(p[1..])
  }

  /** `lstrip("./")`. */
  function StripLeft(p: Path): Path {
    if p != "" && p[0] in {'.', '/'} then StripLeft(p[1..]) else p
  }

  function Normalize(p: Path): Path { StripLeft(Slashes(p)) }

  lemma {:induction false} SlashesSpec(p: Path)
    ensures '\\' !in Slashes(p)
    ensures '\\' !in p ==> Slashes(p) == p
  {
    if p != "" {
      SlashesSpec(p[1..]);
      assert p == [p[0]] + p[1..];
    }
  }

  lemma {:induction false} StripLeftSpec(p: Path)
    ensures StripLeft(p) == "" || StripLeft(p)[0] !in {'.', '/'}
    ensures forall c :: c in StripLeft(p) ==> c in p
  {
    if p != "" && p[0] in {'.', '/'} { StripLeftSpec(p[1..]); }
  }

  lemma NormalizeIdempotent(p: Path)
    ensures Normalize(Normalize(p)) == Normalize(p)
  {
    SlashesSpec(p);
    StripLeftSpec(Slashes(p));
    SlashesSpec(Normalize(p));
  }

  /** A path that is already in normal form. */
  predicate IsNormal(p: Path) { p != "" && p[0] !in {'.', '/'} && '\\' !in p && !Blank(p) }

  predicate Blank(p: Path) { forall c :: c in p ==> c in {' ', '\t', '\n', '\r'} }

  lemma NormalizeNormal(p: Path)
    requires IsNormal(p)
    ensures Normalize(p) == p
  {
    SlashesSpec(p);
  }

  lemma RequirementsPathIsNormal()
    ensures IsNormal(RequirementsPath())
  {
    DirectoryIsNormal();
    FileNameHasNoBackslash();
    var p := RequirementsPath();
    assert p[0] == Directory()[0] && p[0] in p;
  }

  lemma DirectoryIsNormal()
    ensures '\\' !in Directory() && Directory() != "" && Directory()[0] == 'p'
  {}

  lemma FileNameHasNoBackslash()
    ensures '\\' !in FileName()
  {}

  /** The path as written is on the allowlist. */
  predicate Listed(sc: Scope, p: Path) {
    p in sc.exact || exists prefix :: prefix in sc.prefixes && prefix <= p
  }

  predicate IsMetadata(sc: Scope, p: Path) { Listed(sc, Normalize(p)) }

  /** Normalizing changes such a path: `lstrip` strips every leading dot and slash, not just "./". */
  predicate Altered(p: Path) { (p != "" && p[0] in {'.', '/'}) || '\\' in p }

  /** Not empty, and no dot or slash in front. */
  predicate Plain(x: Path) { x != "" && x[0] !in {'.', '/'} }

  ghost predicate EntriesNormal(sc: Scope) {
    (forall x :: x in sc.exact ==> Plain(x)) && (forall x :: x in sc.prefixes ==> Plain(x))
  }

  /** A path that is not on the allowlist as written counts as metadata exactly when normalizing
      changes it into one that is. */
  lemma LetThroughIff(sc: Scope, p: Path)
    requires EntriesNormal(sc)
    ensures IsMetadata(sc, p) && !Listed(sc, p) <==> Altered(p) && Listed(sc, Normalize(p)) && !Listed(sc, p)
    ensures p != "" && p[0] in {'.', '/'} ==> !Listed(sc, p)
    ensures !Altered(p) ==> (IsMetadata(sc, p) <==> Listed(sc, p))
  {
    if !Altered(p) {
      SlashesSpec(p);
      assert Normalize(p) == p;
    }
  }

  lemma PlainFront(x: Path, y: Path)
    requires Plain(x)
    ensures Plain(x + y)
  {
    assert (x + y)[0] == x[0];
  }

  lemma DirectoriesPlain()
    ensures Plain(Jira()) && Plain(Directory())
  {}

  lemma ExactPathsPlain()
    ensures forall x :: x in ExactPaths() ==> Plain(x)
  {
    DirectoriesPlain();
    PlainFront(Directory(), FileName());
    PlainFront(Jira(), "BOARD_MANIFEST.json");
    PlainFront(Jira(), "indexes/issues.jsonl");
    PlainFront(Jira(), "indexes/issues_by_id.json");
    PlainFront(Jira(), "relationships/graph.json");
  }

  lemma PrefixesPlain()
    ensures forall x :: x in Prefixes() ==> Plain(x)
  {
    DirectoriesPlain();
    PlainFront(Directory(), "requirements_by_id.json");
    PlainFront(Directory(), "coverage_report.json");
  }

  lemma RepositoryEntriesNormal()
    ensures EntriesNormal(RepositoryScope())
  {
    ExactPathsPlain();
    PrefixesPlain();
  }

  /** A leading dot lets any allowlisted path through, although it names another file. */
  lemma HiddenPathIsMetadata(sc: Scope, p: Path)
    requires EntriesNormal(sc) && Listed(sc, p) && !Altered(p)
    ensures IsMetadata(sc, "." + p) && !Listed(sc, "." + p)
  {
    var q := "." + p;
    SlashesSpec(p);
    SlashesSpec(q);
    assert q[0] == '.' && q[1..] == p;
    assert StripLeft(q) == StripLeft(p) == p;
    LetThroughIff(sc, q);
  }

  /** So a source file `.jira/x.py` counts as metadata here. */
  lemma HiddenJiraIsMetadata()
    ensures var p := "." + (Jira() + "x.py");
            IsMetadata(RepositoryScope(), p) && !Listed(RepositoryScope(), p)
  {
    var p := Jira() + "x.py";
    RepositoryEntriesNormal();
    assert Jira() <= p && Jira() in RepositoryScope().prefixes;
    JiraUnaltered(p);
    HiddenPathIsMetadata(RepositoryScope(), p);
  }

  lemma JiraUnaltered(p: Path)
    requires p == Jira() + "x.py"
    ensures !Altered(p)
  {
    DirectoriesPlain();
    PlainFront(Jira(), "x.py");
    assert '\\' !in Jira() && '\\' !in "x.py";
  }

  /** Judging a path and judging its normal form are the same. */
  lemma MetadataOfNormal(sc: Scope, p: Path)
    ensures IsMetadata(sc, Normalize(p)) <==> IsMetadata(sc, p)
  {
    NormalizeIdempotent(p);
  }

  //
  // Rows.
  //

  function Stripped(r: Row): Row { r - {"implementation_state"} }

  ghost predicate SameRows(a: seq<Row>, b: seq<Row>) {
    |a| == |b| && forall i :: 0 <= i < |a| ==> Stripped(a[i]) == Stripped(b[i])
  }

  /** The two rows have the same value, or both none, under this key. */
  predicate AgreeAt(a: Row, b: Row, key: string) {
    (key in a <==> key in b) && (key in a && key in b ==> a[key] == b[key])
  }

  /** Rows agree exactly when they agree under every key but the implementation state. */
  lemma StrippedMeans(a: Row, b: Row)
    ensures Stripped(a) == Stripped(b) <==> forall key :: key != "implementation_state" ==> AgreeAt(a, b, key)
  {
    var x, y := Stripped(a), Stripped(b);
    forall key | key != "implementation_state"
      ensures (key in a <==> key in x) && (key in b <==> key in y)
      ensures (key in a ==> a[key] == x[key]) && (key in b ==> b[key] == y[key])
    {}
    if forall key :: key != "implementation_state" ==> AgreeAt(a, b, key) {
      forall key ensures (key in x <==> key in y) && (key in x && key in y ==> x[key] == y[key]) {
        if key != "implementation_state" { assert AgreeAt(a, b, key); }
      }
    }
    if x == y {
      forall key | key != "implementation_state" ensures AgreeAt(a, b, key) { assert key in x <==> key in y; }
    }
  }

  method CompareRows(a: seq<Row>, b: seq<Row>) returns (same: bool)
    ensures same <==> SameRows(a, b)
    ensures same <==> |a| == |b| && forall i, key :: 0 <= i < |a| && key != "implementation_state" ==> AgreeAt(a[i], b[i], key)
  {
    if |a| != |b| {
      return false;
    }
    forall i | 0 <= i < |a|
      ensures Stripped(a[i]) == Stripped(b[i]) <==> forall key :: key != "implementation_state" ==> AgreeAt(a[i], b[i], key)
    {
      StrippedMeans(a[i], b[i]);
    }
    for i := 0 to |a|
      invariant forall k :: 0 <= k < i ==> Stripped(a[k]) == Stripped(b[k])
    {
      if Stripped(a[i]) != Stripped(b[i]) {
        return false;
      }
    }
    return true;
  }

  /** The rows of a commit; `None` when it has no requirements file. */
  function RowsOf(sc: Scope, read: string -> seq<Row>, c: Commit): Option<seq<Row>> {
    if sc.requirements in c then Some(read(c[sc.requirements])) else None
  }

  ghost predicate RowsMetadataOnly(sc: Scope, read: string -> seq<Row>, a: Commit, b: Commit) {
    var x, y := RowsOf(sc, read, a), RowsOf(sc, read, b);
    x.Some? && y.Some? && SameRows(x.value, y.value)
  }

  //
  // Diffs.
  //

  predicate Differs(a: Commit, b: Commit, p: Path) {
    (p in a) != (p in b) || (p in a && p in b && a[p] != b[p])
  }

  /** The changed paths, normalized. */
  function Changed(a: Commit, b: Commit): set<Path> {
    set p | p in a.Keys + b.Keys && !Blank(p) && Differs(a, b, p) :: Normalize(p)
  }

  ghost predicate Allowlisted(sc: Scope, read: string -> seq<Row>, a: Commit, b: Commit) {
    && (forall p :: p in Changed(a, b) ==> IsMetadata(sc, p))
    && (sc.requirements in Changed(a, b) ==> RowsMetadataOnly(sc, read, a, b))
  }

  datatype Reason = EmptyDiff | MetadataOnlyDiff | AcceptanceBearingOrUnknown

  datatype Verdict = Verdict(allowlisted: bool, reason: Reason)

  method Prove(sc: Scope, read: string -> seq<Row>, a: Commit, b: Commit) returns (v: Verdict)
    ensures v.allowlisted <==> Allowlisted(sc, read, a, b)
    ensures v.reason.EmptyDiff? <==> Changed(a, b) == {}
    ensures v.reason.AcceptanceBearingOrUnknown? <==> !v.allowlisted
  {
    var changed := Changed(a, b);
    ChangedAreNormalized(a, b);
    if changed == {} {
      return Verdict(true, EmptyDiff);
    }
    var ok := forall p :: p in changed ==> IsMetadata(sc, p);
    if ok && exists p :: p in changed && Normalize(p) == sc.requirements {
      var x, y := RowsOf(sc, read, a), RowsOf(sc, read, b);
      if x.None? || y.None? {
        ok := false;
      } else {
        ok := CompareRows(x.value, y.value);
      }
    }
    return Verdict(ok, if ok then MetadataOnlyDiff else AcceptanceBearingOrUnknown);
  }

  lemma ChangedAreNormalized(a: Commit, b: Commit)
    ensures forall p :: p in Changed(a, b) ==> Normalize(p) == p
  {
    forall p | p in Changed(a, b) ensures Normalize(p) == p {
      var q :| q in a.Keys + b.Keys && Normalize(q) == p;
      NormalizeIdempotent(q);
    }
  }

  lemma ChangedSplits(a: Commit, b: Commit, c: Commit, p: Path)
    requires p in Changed(a, c)
    ensures p in Changed(a, b) || p in Changed(b, c)
  {
    var q :| q in a.Keys + c.Keys && !Blank(q) && Differs(a, c, q) && Normalize(q) == p;
    if Differs(a, b, q) {
      assert q in a.Keys + b.Keys;
    } else {
      assert Differs(b, c, q) && q in b.Keys + c.Keys;
    }
  }

  /** When the requirements file is not among the changes, its rows are the same. */
  lemma UnchangedRows(sc: Scope, read: string -> seq<Row>, a: Commit, b: Commit)
    requires IsNormal(sc.requirements)
    requires sc.requirements !in Changed(a, b)
    ensures RowsOf(sc, read, a) == RowsOf(sc, read, b)
  {
    NormalizeNormal(sc.requirements);
    assert !Differs(a, b, sc.requirements);
  }

  /** Two metadata-only steps make a metadata-only diff, also when only one of them touched the
      requirements file. */
  lemma AllowlistedComposes(sc: Scope, read: string -> seq<Row>, a: Commit, b: Commit, c: Commit)
    requires IsNormal(sc.requirements)
    requires Allowlisted(sc, read, a, b) && Allowlisted(sc, read, b, c)
    ensures Allowlisted(sc, read, a, c)
  {
    forall p | p in Changed(a, c) ensures IsMetadata(sc, p) { ChangedSplits(a, b, c, p); }
    if sc.requirements in Changed(a, c) {
      ChangedSplits(a, b, c, sc.requirements);
      if sc.requirements !in Changed(a, b) { UnchangedRows(sc, read, a, b); }
      if sc.requirements !in Changed(b, c) { UnchangedRows(sc, read, b, c); }
    }
  }

  /** It is an equivalence between commits. */
  lemma AllowlistedSymmetric(sc: Scope, read: string -> seq<Row>, a: Commit, b: Commit)
    ensures Allowlisted(sc, read, a, a)
    ensures Allowlisted(sc, read, a, b) ==> Allowlisted(sc, read, b, a)
  {
    assert Changed(a, a) == {};
    forall p ensures p in Changed(a, b) <==> p in Changed(b, a) {
      if p in Changed(a, b) {
        var q :| q in a.Keys + b.Keys && !Blank(q) && Differs(a, b, q) && Normalize(q) == p;
        assert q in b.Keys + a.Keys && Differs(b, a, q);
      }
      if p in Changed(b, a) {
        var q :| q in b.Keys + a.Keys && !Blank(q) && Differs(b, a, q) && Normalize(q) == p;
        assert q in a.Keys + b.Keys && Differs(a, b, q);
      }
    }
  }

  /** Over a whole chain of commits: if every step is metadata only, so is the diff from the first
      to the last. */
  lemma {:induction false} ChainComposes(sc: Scope, read: string -> seq<Row>, chain: seq<Commit>)
    requires IsNormal(sc.requirements)
    requires chain != [] && forall i :: 0 < i < |chain| ==> Allowlisted(sc, read, chain[i-1], chain[i])
    ensures Allowlisted(sc, read, chain[0], chain[|chain|-1])
  {
    var k := |chain| - 1;
    if k == 0 {
      AllowlistedSymmetric(sc, read, chain[0], chain[0]);
    } else {
      ChainComposes(sc, read, chain[..k]);
      assert Allowlisted(sc, read, chain[k-1], chain[k]);
      AllowlistedComposes(sc, read, chain[0], chain[k-1], chain[k]);
    }
  }

  /** What an allowlisted diff promises: every file outside the metadata paths is untouched, for a
      path that normalizing leaves alone that means outside the allowlist as written, and the
      requirements file, if it changed, changed nothing but implementation states. */
  lemma AllowlistedProtects(sc: Scope, read: string -> seq<Row>, a: Commit, b: Commit, p: Path)
    requires IsNormal(sc.requirements)
    requires Allowlisted(sc, read, a, b)
    ensures !IsMetadata(sc, p) && !Blank(p) ==> !Differs(a, b, p)
    ensures EntriesNormal(sc) && !Altered(p) && !Listed(sc, p) && !Blank(p) ==> !Differs(a, b, p)
    ensures Differs(a, b, sc.requirements) ==> RowsMetadataOnly(sc, read, a, b)
  {
    MetadataOfNormal(sc, p);
    if EntriesNormal(sc) { LetThroughIff(sc, p); }
    if Differs(a, b, p) && !Blank(p) { assert Normalize(p) in Changed(a, b); }
    NormalizeNormal(sc.requirements);
    if Differs(a, b, sc.requirements) { assert sc.requirements in Changed(a, b); }
  }

  /** Everything under the generated directories, and every version of the two generated views, is on the
      repository's allowlist. */
  lemma GeneratedIsListed(rest: string)
    ensures Listed(RepositoryScope(), "jira/" + rest)
    ensures Listed(RepositoryScope(), "docs/generated/" + rest)
    ensures Listed(RepositoryScope(), "evidence/generated/" + rest)
    ensures Listed(RepositoryScope(), Directory() + "requirements_by_id.json" + rest)
    ensures Listed(RepositoryScope(), Directory() + "coverage_report.json" + rest)
  {
    PrefixListed(Jira(), rest);
    PrefixListed("docs/generated/", rest);
    PrefixListed("evidence/generated/", rest);
    PrefixListed(Directory() + "requirements_by_id.json", rest);
    PrefixListed(Directory() + "coverage_report.json", rest);
  }

  lemma PrefixListed(prefix: string, rest: string)
    requires prefix in Prefixes()
    ensures Listed(RepositoryScope(), prefix + rest)
  {
    assert prefix <= prefix + rest;
  }

  /** A change to the requirements file that touches nothing but implementation states is metadata only
      for the repository's own allowlist. */
  lemma StateOnlyChangeAllowed(read: string -> seq<Row>, a: Commit, b: Commit)
    requires forall p :: Differs(a, b, p) ==> p == RequirementsPath()
    requires RowsMetadataOnly(RepositoryScope(), read, a, b)
    ensures Allowlisted(RepositoryScope(), read, a, b)
  {
    RequirementsPathIsNormal();
    NormalizeNormal(RequirementsPath());
    assert RequirementsPath() in ExactPaths();
    forall p | p in Changed(a, b) ensures IsMetadata(RepositoryScope(), p) {
      var q :| q in a.Keys + b.Keys && Differs(a, b, q) && Normalize(q) == p;
      assert Listed(RepositoryScope(), p);
    }
  }

  /** For the repository's own allowlist: over any chain of metadata-only commits, no file outside the
      allowlist changed from the first to the last, unless its path starts with a dot or a slash or
      has a backslash and normalizes into the allowlist; and the requirement rows differ in nothing
      but implementation states. */
  lemma RepositoryChainProtects(read: string -> seq<Row>, chain: seq<Commit>, p: Path)
    requires chain != [] && forall i :: 0 < i < |chain| ==> Allowlisted(RepositoryScope(), read, chain[i-1], chain[i])
    ensures var sc, first, last := RepositoryScope(), chain[0], chain[|chain|-1];
            && Allowlisted(sc, read, first, last)
            && (Differs(first, last, p) && !Blank(p) ==> Listed(sc, p) || (Altered(p) && Listed(sc, Normalize(p))))
            && (Differs(first, last, RequirementsPath()) ==> RowsMetadataOnly(sc, read, first, last))
  {
    var sc := RepositoryScope();
    RequirementsPathIsNormal();
    RepositoryEntriesNormal();
    ChainComposes(sc, read, chain);
    AllowlistedProtects(sc, read, chain[0], chain[|chain|-1], p);
    LetThroughIff(sc, p);
  }
}
