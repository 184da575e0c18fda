/** Reading a lock back: the package map, the rendered exports and the structural checks, and why a
lock that was just built passes all of them. */
module LockValidation {
  import opened Wrappers
  import opened Ordering
  import opened Dependencies
  import opened DependencyLock

  type PackageMap = map<string, Package>

  /** Packages keyed by normalized name; a repeated name is an error. */
  function MapOf(norm: string -> string, packages: seq<Package>): Result<PackageMap, Error> {
    if packages == [] then Ok(map[])
    else
      var front, last := MapOf(norm, packages[..|packages|-1]), packages[|packages|-1];
      if front.Err? then front
      else if norm(last.name) in front.value then Err(DuplicatePackage(norm(last.name)))
      else Ok(front.value[norm(last.name) := last])
  }

  /** The names of the packages, normalized. */
  function Names(norm: string -> string, packages: seq<Package>): seq<string> {
    seq(|packages|, i requires 0 <= i < |packages| => norm(packages[i].name))
  }

  /** The map exists exactly when normalized names are distinct. */
  lemma {:induction false} MapOfDefined(norm: string -> string, packages: seq<Package>)
    ensures MapOf(norm, packages).Ok? <==> Distinct(Names(norm, packages))
    ensures MapOf(norm, packages).Ok? ==>
              var m := MapOf(norm, packages).value;
              |m| == |packages| && forall n :: n in m <==> n in Names(norm, packages)
  {
    if packages != [] {
      var k := |packages| - 1;
      MapOfDefined(norm, packages[..k]);
      var front, last := Names(norm, packages[..k]), norm(packages[k].name);
      assert Names(norm, packages) == front + [last];
      if MapOf(norm, packages[..k]).Ok? {
        DistinctSnoc(front, last);
      } else {
        assert front == Names(norm, packages)[..k];
      }
    }
  }

  /** Under its normalized name stands the package itself. */
  lemma {:induction false} MapOfEntry(norm: string -> string, packages: seq<Package>, i: nat)
    requires MapOf(norm, packages).Ok? && i < |packages|
    ensures norm(packages[i].name) in MapOf(norm, packages).value
    ensures MapOf(norm, packages).value[norm(packages[i].name)] == packages[i]
  {
    var k := |packages| - 1;
    if i < k {
      MapOfEntry(norm, packages[..k], i);
      assert packages[..k][i] == packages[i];
    }
  }

  method ReadPackageMap(norm: string -> string, packages: seq<Package>) returns (r: Result<PackageMap, Error>)
    ensures r == MapOf(norm, packages)
  {
    var result: PackageMap := map[];
    for i := 0 to |packages|
      invariant MapOf(norm, packages[..i]) == Ok(result)
    {
      assert packages[..i+1][..i] == packages[..i];
      var n := norm(packages[i].name);
      if n in result {
        MapOfStuck(norm, packages, i + 1);
        return Err(DuplicatePackage(n));
      }
      result := result[n := packages[i]];
    }
    assert packages[..|packages|] == packages;
    return Ok(result);
  }

  /** Once a prefix fails, the whole list fails with the same error. */
  lemma {:induction false} MapOfStuck(norm: string -> string, packages: seq<Package>, k: nat)
    requires k <= |packages| && MapOf(norm, packages[..k]).Err?
    ensures MapOf(norm, packages) == MapOf(norm, packages[..k])
    decreases |packages| - k
  {
    if k < |packages| {
      assert packages[..k+1][..k] == packages[..k];
      MapOfStuck(norm, packages, k + 1);
    } else {
      assert packages[..k] == packages;
    }
  }

  //
  // Exports.
  //

  const HEADER_1 := "# Generated from " + "requirements/" + "environment.lock.json."
  const HEADER_2 := "# Exact package " + "versions are " + "environment-observed; " + "wheel hashes " + "require resolver access."

  datatype Pin = Pin(name: string, version: string)

  function Pins(m: PackageMap, names: seq<string>): seq<Pin>
    requires forall n :: n in names ==> n in m
  {
    seq(|names|, i requires 0 <= i < |names| => assert names[i] in names; Pin(names[i], m[names[i]].version))
  }

  /** One line per pinned package. */
  function Print(pins: seq<Pin>): string {
    if pins == [] then "" else pins[0].name + "==" + pins[0].version + "\n" + Print(pins[1..])
  }

  /** A pin that fits on its line. */
  predicate Printable(p: Pin) { '=' !in p.name && '\n' !in p.version }

  /** The first position of `c`, or the length. */
  function IndexOf(s: string, c: char): (i: nat)
    ensures i <= |s| && (i < |s| ==> s[i] == c) && forall k :: 0 <= k < i ==> s[k] != c
  {
    if s == "" || s[0] == c then 0 else 1 + IndexOf(s[1..], c)
  }

  /** Reads pinned lines back: a name up to the first '=', a version up to the end of the line. */
  function ReadPins(s: string): Option<seq<Pin>> {
    if s == "" then Some([])
    else
      var i := IndexOf(s, '=');
      if |s| < i + 2 || s[i+1] != '=' then None
      else
        var t := s[i+2..];
        var j := IndexOf(t, '\n');
        if j == |t| then None
        else
          match ReadPins(t[j+1..])
          case None => None
          case Some(rest) => Some([Pin(s[..i], t[..j])] + rest)
  }

  lemma SplitAt(front: string, c: char, rest: string, s: string)
    requires c !in front && s == front + ([c] + rest)
    ensures IndexOf(s, c) == |front| < |s| && s[..|front|] == front && s[|front|+1..] == rest
  {
    var k := |front|;
    assert s[k] == c && s[..k] == front && s[k+1..] == rest;
    forall m | 0 <= m < k ensures s[m] != c { assert s[m] == front[m]; }
  }

  lemma Regroup(a: string, b: string, c: string, d: string, r: string)
    ensures a + b + c + d + r == a + (b + (c + (d + r)))
  {}

  lemma ReadLine(p: Pin, rest: string, s: string)
    requires Printable(p) && s == p.name + "==" + p.version + "\n" + rest
    ensures var i := |p.name|;
            && IndexOf(s, '=') == i && |s| >= i + 2 && s[i+1] == '=' && s[..i] == p.name
            && IndexOf(s[i+2..], '\n') == |p.version| < |s[i+2..]|
            && s[i+2..][..|p.version|] == p.version && s[i+2..][|p.version|+1..] == rest
  {
    var i, t := |p.name|, p.version + ("\n" + rest);
    Regroup(p.name, "==", p.version, "\n", rest);
    assert "==" + t == ['='] + (['='] + t);
    SplitAt(p.name, '=', ['='] + t, s);
    assert s[i+1] == s[i+1..][0] && s[i+2..] == s[i+1..][1..] == t;
    SplitAt(p.version, '\n', rest, t);
  }

  lemma ReadStep(s: string, p: Pin, rest: seq<Pin>)
    requires var i := |p.name|;
             && IndexOf(s, '=') == i && |s| >= i + 2 && s[i+1] == '=' && s[..i] == p.name
             && IndexOf(s[i+2..], '\n') == |p.version| < |s[i+2..]|
             && s[i+2..][..|p.version|] == p.version && ReadPins(s[i+2..][|p.version|+1..]) == Some(rest)
    ensures ReadPins(s) == Some([p] + rest)
  {}

  /** An export can be read back: its lines fix every name and version, in order. */
  lemma {:induction false} ExportRoundTrip(pins: seq<Pin>)
    requires forall p :: p in pins ==> Printable(p)
    ensures ReadPins(Print(pins)) == Some(pins)
  {
    if pins != [] {
      var first, rest, s := pins[0], pins[1..], Print(pins);
      assert first in pins && pins == [first] + rest;
      ExportRoundTrip(rest);
      ReadLine(first, Print(rest), s);
      ReadStep(s, first, rest);
    }
  }

  /** So two exports with the same lines pin the same packages. */
  lemma SameLinesSamePins(a: seq<Pin>, b: seq<Pin>)
    requires (forall p :: p in a ==> Printable(p)) && (forall p :: p in b ==> Printable(p))
    requires Print(a) == Print(b)
    ensures a == b
  {
    ExportRoundTrip(a);
    ExportRoundTrip(b);
  }

  function ExportNames(lock: Lock, groups: seq<string>): set<string> {
    set g, n | g in groups && g in lock.closure && n in lock.closure[g] :: n
  }

  /** One pinned line per name; a name without a package record is a key error. */
  function RenderExport(norm: string -> string, lock: Lock, groups: seq<string>): Result<string, Error> {
    var m := MapOf(norm, lock.packages);
    if m.Err? then Err(m.error)
    else
      var unknown := ExportNames(lock, groups) - m.value.Keys;
      if unknown != {} then Err(MissingKey(Least(unknown)))
      else
        var names := Ascending(ExportNames(lock, groups));
        assert forall n :: n in names ==> n !in unknown;
        Ok(HEADER_1 + "\n" + HEADER_2 + "\n" + Print(Pins(m.value, names)))
  }

  //
  // The validator.
  //

  /** What is on disk: the lock and the two exports. */
  datatype Files = Files(lock: Lock, runtime: Option<string>, development: Option<string>)

  datatype Finding =
    | CannotRead(error: Error)
    | ProhibitedReference(group: string, declaration: Declaration)
    | AbsentFromLock(group: string, name: string)
    | VersionViolates(group: string, name: string, version: string, specifier: string)
    | ActiveGroupsDiffer
    | PackageCountStale
    | LicensesDoNotCover
    | LicenseBlank(name: string)
    | HashInvalid(name: string)
    | RuntimeExportMissing
    | RuntimeExportStale
    | DevelopmentExportMissing
    | DevelopmentExportStale

  /** `x` is what the declaration `d` of group `g` is reported for. A prohibited reference is not
      looked at any further. */
  predicate Objects(norm: string -> string, p: Project, m: PackageMap, g: string, d: Declaration, x: Finding) {
    var n := norm(d.name);
    if d.prohibited then x == ProhibitedReference(g, d)
    else if n !in m then x == AbsentFromLock(g, n)
    else !p.admits(d.specifier, m[n].version) && x == VersionViolates(g, n, m[n].version, d.specifier)
  }

  ghost predicate Declares(p: Project, g: string, d: Declaration) {
    g in p.activeGroups && g in p.declared && d in p.declared[g]
  }

  ghost predicate SomeObjects(norm: string -> string, p: Project, m: PackageMap, x: Finding) {
    exists g, d :: Declares(p, g, d) && Objects(norm, p, m, g, d, x)
  }

  /** When each finding is reported, given the package map and the two exports as rendered now. */
  ghost predicate Found(norm: string -> string, p: Project, f: Files, m: PackageMap, runtime: string, development: string, x: Finding) {
    match x
    case CannotRead(_) => false
    case ProhibitedReference(_, _) => SomeObjects(norm, p, m, x)
    case AbsentFromLock(_, _) => SomeObjects(norm, p, m, x)
    case VersionViolates(_, _, _, _) => SomeObjects(norm, p, m, x)
    case ActiveGroupsDiffer => f.lock.activeGroups != p.activeGroups
    case PackageCountStale => f.lock.packageCount != |m|
    case LicensesDoNotCover => f.lock.licenses.Keys != m.Keys
    case LicenseBlank(n) => f.lock.licenses.Keys == m.Keys && n in f.lock.licenses && IsBlank(f.lock.licenses[n])
    case HashInvalid(n) => n in m && !IsHex64(m[n].metadataHash)
    case RuntimeExportMissing => f.runtime.None?
    case RuntimeExportStale => f.runtime.Some? && f.runtime.value != runtime
    case DevelopmentExportMissing => f.development.None?
    case DevelopmentExportStale => f.development.Some? && f.development.value != development
  }

  method CheckDeclared(norm: string -> string, p: Project, m: PackageMap) returns (errors: seq<Finding>)
    requires forall g :: g in p.activeGroups ==> g in p.declared
    ensures forall x :: x in errors <==> SomeObjects(norm, p, m, x)
  {
    errors := [];
    for i := 0 to |p.activeGroups|
      invariant forall x :: x in errors <==>
                  exists g, d :: g in p.activeGroups[..i] && d in p.declared[g] && Objects(norm, p, m, g, d, x)
    {
      var g := p.activeGroups[i];
      var found := CheckGroup(norm, p, g, p.declared[g], m);
      assert p.activeGroups[..i+1] == p.activeGroups[..i] + [g];
      errors := errors + found;
    }
    assert p.activeGroups[..|p.activeGroups|] == p.activeGroups;
    forall x ensures x in errors <==> SomeObjects(norm, p, m, x) {
      if x in errors {
        var g, d :| g in p.activeGroups && d in p.declared[g] && Objects(norm, p, m, g, d, x);
        assert Declares(p, g, d);
      }
    }
  }

  method CheckGroup(norm: string -> string, p: Project, g: string, declared: seq<Declaration>, m: PackageMap)
    returns (errors: seq<Finding>)
    ensures forall x :: x in errors <==> exists d :: d in declared && Objects(norm, p, m, g, d, x)
  {
    errors := [];
    for i := 0 to |declared|
      invariant forall x :: x in errors <==> exists k :: 0 <= k < i && Objects(norm, p, m, g, declared[k], x)
    {
      var d := declared[i];
      var n := norm(d.name);
      if d.prohibited {
        errors := errors + [ProhibitedReference(g, d)];
      } else if n !in m {
        errors := errors + [AbsentFromLock(g, n)];
      } else if !p.admits(d.specifier, m[n].version) {
        errors := errors + [VersionViolates(g, n, m[n].version, d.specifier)];
      }
    }
  }

  method CheckLicenses(lock: Lock, m: PackageMap) returns (errors: seq<Finding>)
    ensures forall x :: x in errors <==>
              || (x.LicensesDoNotCover? && lock.licenses.Keys != m.Keys)
              || (x.LicenseBlank? && lock.licenses.Keys == m.Keys && x.name in lock.licenses && IsBlank(lock.licenses[x.name]))
  {
    if lock.licenses.Keys != m.Keys {
      return [LicensesDoNotCover];
    }
    errors := [];
    var todo := lock.licenses.Keys;
    while todo != {}
      invariant todo <= lock.licenses.Keys
      invariant forall x :: x in errors <==>
                  x.LicenseBlank? && x.name in lock.licenses.Keys - todo && IsBlank(lock.licenses[x.name])
      decreases todo
    {
      var n :| n in todo;
      if IsBlank(lock.licenses[n]) {
        errors := errors + [LicenseBlank(n)];
      }
      todo := todo - {n};
    }
  }

  method CheckHashes(m: PackageMap) returns (errors: seq<Finding>)
    ensures forall x :: x in errors <==> x.HashInvalid? && x.name in m && !IsHex64(m[x.name].metadataHash)
  {
    errors := [];
    var todo := m.Keys;
    while todo != {}
      invariant todo <= m.Keys
      invariant forall x :: x in errors <==> x.HashInvalid? && x.name in m.Keys - todo && !IsHex64(m[x.name].metadataHash)
      decreases todo
    {
      var n :| n in todo;
      if !IsHex64(m[n].metadataHash) {
        errors := errors + [HashInvalid(n)];
      }
      todo := todo - {n};
    }
  }

  method Report(norm: string -> string, p: Project, f: Files, m: PackageMap, runtime: string, development: string)
    returns (errors: seq<Finding>)
    requires forall g :: g in p.activeGroups ==> g in p.declared
    ensures forall x :: x in errors <==> Found(norm, p, f, m, runtime, development, x)
  {
    var declared := CheckDeclared(norm, p, m);
    var licenses := CheckLicenses(f.lock, m);
    var hashes := CheckHashes(m);
    var headings := CheckHeadings(p, f, m, runtime, development);
    errors := declared + headings + licenses + hashes;
    forall x ensures x in errors <==> Found(norm, p, f, m, runtime, development, x) {
      assert x in errors <==> x in declared || x in headings || x in licenses || x in hashes;
    }
  }

  method CheckHeadings(p: Project, f: Files, m: PackageMap, runtime: string, development: string) returns (errors: seq<Finding>)
    ensures forall x :: x in errors <==>
              || (x.ActiveGroupsDiffer? && f.lock.activeGroups != p.activeGroups)
              || (x.PackageCountStale? && f.lock.packageCount != |m|)
              || (x.RuntimeExportMissing? && f.runtime.None?)
              || (x.RuntimeExportStale? && f.runtime.Some? && f.runtime.value != runtime)
              || (x.DevelopmentExportMissing? && f.development.None?)
              || (x.DevelopmentExportStale? && f.development.Some? && f.development.value != development)
  {
    errors := [];
    if f.lock.activeGroups != p.activeGroups { errors := errors + [ActiveGroupsDiffer]; }
    if f.lock.packageCount != |m| { errors := errors + [PackageCountStale]; }
    if f.runtime.None? {
      errors := errors + [RuntimeExportMissing];
    } else if f.runtime.value != runtime {
      errors := errors + [RuntimeExportStale];
    }
    if f.development.None? {
      errors := errors + [DevelopmentExportMissing];
    } else if f.development.value != development {
      errors := errors + [DevelopmentExportStale];
    }
  }

  /** The structural checks. A broken package map is the only thing then reported; an active group
      that is no longer declared or a key error in an export ends the run. */
  method Validate(norm: string -> string, p: Project, f: Files) returns (r: Result<seq<Finding>, Error>)
    ensures var m := MapOf(norm, f.lock.packages);
            && (m.Err? ==> r == Ok([CannotRead(m.error)]))
            && (m.Ok? ==> (r.Ok? <==> Readable(norm, f.lock) && forall g :: g in p.activeGroups ==> g in p.declared))
            && (m.Ok? && r.Ok? ==> forall x :: x in r.value <==>
                  Found(norm, p, f, m.value, RenderExport(norm, f.lock, ["runtime"]).value,
                        RenderExport(norm, f.lock, f.lock.activeGroups).value, x))
  {
    var m := ReadPackageMap(norm, f.lock.packages);
    if m.Err? { return Ok([CannotRead(m.error)]); }
    var undeclared := Active(p) - p.declared.Keys;
    if undeclared != {} {
      var g :| g in undeclared;
      assert g in p.activeGroups && g !in p.declared;
      return Err(GroupsNotDeclared(Ascending(undeclared)));
    }
    forall g | g in p.activeGroups ensures g in p.declared { assert g !in undeclared; }
    var runtime := RenderExport(norm, f.lock, ["runtime"]);
    if runtime.Err? { return Err(runtime.error); }
    var development := RenderExport(norm, f.lock, f.lock.activeGroups);
    if development.Err? { return Err(development.error); }
    var errors := Report(norm, p, f, m.value, runtime.value, development.value);
    return Ok(errors);
  }

  ghost predicate Readable(norm: string -> string, lock: Lock) {
    && MapOf(norm, lock.packages).Ok?
    && RenderExport(norm, lock, ["runtime"]).Ok?
    && RenderExport(norm, lock, lock.activeGroups).Ok?
  }

  //
  // A lock that was just built.
  //

  lemma MembershipsSpec(byGroup: map<string, set<string>>, name: string, g: string)
    ensures g in Memberships(byGroup, name) <==> g in byGroup && name in byGroup[g]
  {}

  /** The group lists of a package are the converse of the closure lists: a group is named by the
      package exactly when the group's list names the package. */
  lemma {:induction false} ClosureGroupsAreConverse(e: Environment, direct: map<string, set<string>>, closure: map<string, set<string>>,
                                 lock: Lock, q: Package, g: string)
    requires Tabled(direct, lock.direct) && Tabled(closure, lock.closure)
    requires Entry(e, direct, closure, q.name, q)
    ensures g in q.closureGroups <==> g in lock.closure && q.name in lock.closure[g]
    ensures g in q.directGroups <==> g in lock.direct && q.name in lock.direct[g]
  {
    MembershipsSpec(closure, q.name, g);
    MembershipsSpec(direct, q.name, g);
  }

  /** What a record says about its package: version and hash as installed, and the texts of exactly the
      applicable requirements, as often as they stand there, in order. */
  lemma EntryReports(e: Environment, direct: map<string, set<string>>, closure: map<string, set<string>>, name: string, q: Package)
    requires Entry(e, direct, closure, name, q) && TotalPreorder(e.textLe)
    ensures q.name == name && q.version == e.installed[name].version && Some(q.metadataHash) == e.installed[name].metadataHash
    ensures Sorted(e.textLe, q.requiresDist)
    ensures forall t :: t in q.requiresDist <==>
              exists r :: r in e.installed[name].requirements && r.applicable && r.text == t
  {
    var rs := e.installed[name].requirements;
    SortBySorted(e.textLe, Texts(rs));
    SortByMembers(e.textLe, Texts(rs));
    forall t ensures t in Texts(rs) <==> exists r :: r in rs && r.applicable && r.text == t { TextsMembers(rs, t); }
  }

  lemma {:induction false} TextsMembers(rs: seq<Requirement>, t: string)
    ensures t in Texts(rs) <==> exists r :: r in rs && r.applicable && r.text == t
  {
    if rs != [] {
      TextsMembers(rs[..|rs|-1], t);
      assert forall r :: r in rs <==> r in rs[..|rs|-1] || r == rs[|rs|-1];
    }
  }

  /** Every package of a written lock is such an entry, for the name at its place. */
  lemma EntryAt(e: Environment, p: Project, direct: map<string, set<string>>, closure: map<string, set<string>>, lock: Lock, i: nat)
    requires Written(e, p, direct, closure, lock) && i < |lock.packages|
    ensures |lock.packages| == |Ascending(AllNames(closure))|
    ensures lock.packages[i].name == Ascending(AllNames(closure))[i]
    ensures Entry(e, direct, closure, lock.packages[i].name, lock.packages[i])
  {
  }

  /** What is locked: everything the declarations of some active group lead to. */
  lemma LockedIffReachable(e: Environment, p: Project, direct: map<string, set<string>>, closure: map<string, set<string>>, n: string)
    requires Resolved(e, p, direct, closure)
    ensures n in AllNames(closure) <==> exists g :: g in p.activeGroups && NeededBy(e, p, g, n)
  {
    forall g | g in p.declared ensures Reachable(e, DirectNames(e, p, g), n) <==> NeededBy(e, p, g, n) {
      ReachableIsNeeded(e, p, g, n);
    }
    if n in AllNames(closure) {
      var g :| g in closure && n in closure[g];
      assert g in p.activeGroups && Reachable(e, DirectNames(e, p, g), n);
    }
    if g :| g in p.activeGroups && NeededBy(e, p, g, n) {
      assert g in closure && n in closure[g];
    }
  }

  /** The lock is closed: whatever a locked package requires is locked too. */
  lemma LockClosedUnderRequirements(e: Environment, p: Project, direct: map<string, set<string>>,
                                    closure: map<string, set<string>>, n: string, d: string)
    requires Resolved(e, p, direct, closure)
    requires n in AllNames(closure) && d in Requires(e, n)
    ensures d in AllNames(closure)
  {
    var g :| g in closure && n in closure[g];
    ReachableStep(e, direct[g], n, d);
    assert d in closure[g];
  }

  lemma AllInstalledAndNormal(e: Environment, p: Project, direct: map<string, set<string>>, closure: map<string, set<string>>)
    requires Resolved(e, p, direct, closure) && Idempotent(e)
    ensures forall n :: n in AllNames(closure) ==> n in e.installed && e.norm(n) == n
  {
    forall n | n in AllNames(closure) ensures n in e.installed && e.norm(n) == n {
      var g :| g in closure && n in closure[g];
    }
  }

  lemma {:induction false} NormalNames(e: Environment, p: Project, direct: map<string, set<string>>, closure: map<string, set<string>>, lock: Lock)
    requires Written(e, p, direct, closure, lock)
    requires forall n :: n in AllNames(closure) ==> e.norm(n) == n
    ensures Names(e.norm, lock.packages) == Ascending(AllNames(closure))
  {
    var names, listing := Names(e.norm, lock.packages), Ascending(AllNames(closure));
    forall i | 0 <= i < |names| ensures i < |listing| && names[i] == listing[i] {
      EntryAt(e, p, direct, closure, lock, i);
      assert listing[i] in listing;
    }
    assert |names| == |listing|;
  }

  /** Packages listed under the members of `all`, each once: no duplicates, one entry per name. */
  lemma FreshPackageMap(norm: string -> string, packages: seq<Package>, all: set<string>)
    requires Names(norm, packages) == Ascending(all)
    ensures MapOf(norm, packages).Ok?
    ensures MapOf(norm, packages).value.Keys == all && |MapOf(norm, packages).value| == |packages|
  {
    AscendingDistinct(all);
    MapOfDefined(norm, packages);
  }

  ghost predicate AsInstalled(e: Environment, n: string, q: Package) {
    n in e.installed && e.installed[n].version == q.version && e.installed[n].metadataHash == Some(q.metadataHash)
  }

  /** A locked package carries the version and the metadata hash of what is installed. */
  lemma FreshHashes(e: Environment, p: Project, direct: map<string, set<string>>, closure: map<string, set<string>>, lock: Lock, n: string)
    requires Written(e, p, direct, closure, lock)
    requires Names(e.norm, lock.packages) == Ascending(AllNames(closure))
    requires MapOf(e.norm, lock.packages).Ok? && n in MapOf(e.norm, lock.packages).value
    ensures AsInstalled(e, n, MapOf(e.norm, lock.packages).value[n])
  {
    var i := PlaceOf(e.norm, lock.packages, n);
    EntryAt(e, p, direct, closure, lock, i);
  }

  lemma PlaceOf(norm: string -> string, packages: seq<Package>, n: string) returns (i: nat)
    requires MapOf(norm, packages).Ok? && n in MapOf(norm, packages).value
    ensures i < |packages| && Names(norm, packages)[i] == n && MapOf(norm, packages).value[n] == packages[i]
  {
    MapOfDefined(norm, packages);
    i :| 0 <= i < |packages| && Names(norm, packages)[i] == n;
    MapOfEntry(norm, packages, i);
  }

  /** Every export of a fresh lock renders: no name lacks its package record. */
  lemma FreshExportsRender(e: Environment, p: Project, direct: map<string, set<string>>, closure: map<string, set<string>>,
                           lock: Lock, groups: seq<string>)
    requires Written(e, p, direct, closure, lock)
    requires forall n :: n in AllNames(closure) ==> e.norm(n) == n
    ensures RenderExport(e.norm, lock, groups).Ok?
  {
    NormalNames(e, p, direct, closure, lock);
    FreshPackageMap(e.norm, lock.packages, AllNames(closure));
    forall n | n in ExportNames(lock, groups) ensures n in AllNames(closure) {
      var g :| g in groups && g in lock.closure && n in lock.closure[g];
      assert n in closure[g];
    }
    assert ExportNames(lock, groups) - MapOf(e.norm, lock.packages).value.Keys == {};
  }

  /** The text after its first line. */
  function AfterLine(s: string): string {
    var i := IndexOf(s, '\n');
    if i == |s| then "" else s[i+1..]
  }

  lemma AfterOneLine(line: string, rest: string, s: string)
    requires '\n' !in line && s == line + "\n" + rest
    ensures AfterLine(s) == rest
  {
    assert line + "\n" + rest == line + (['\n'] + rest);
    SplitAt(line, '\n', rest, s);
  }

  lemma TwoLines(first: string, second: string, body: string, text: string)
    requires '\n' !in first && '\n' !in second && text == first + "\n" + second + "\n" + body
    ensures first <= text && AfterLine(AfterLine(text)) == body
  {
    var tail := second + "\n" + body;
    assert text == first + "\n" + tail;
    AfterOneLine(first, tail, text);
    AfterOneLine(second, body, tail);
  }

  lemma FirstHeaderOnOneLine()
    ensures '\n' !in HEADER_1
  {
    assert '\n' !in "# Generated from " && '\n' !in "requirements/" && '\n' !in "environment.lock.json.";
  }

  lemma SecondHeaderOnOneLine()
    ensures '\n' !in HEADER_2
  {
    assert '\n' !in "# Exact package " && '\n' !in "versions are " && '\n' !in "environment-observed; ";
    assert '\n' !in "wheel hashes " && '\n' !in "require resolver access.";
  }

  /** Names and versions that fit on a line. */
  ghost predicate Legible(e: Environment) {
    forall n :: n in e.installed ==> '=' !in n && '\n' !in e.installed[n].version
  }

  /** The declarations of some active group among `groups` lead to `n`. */
  ghost predicate NeededAmong(e: Environment, p: Project, groups: seq<string>, n: string) {
    exists g :: g in groups && g in p.activeGroups && NeededBy(e, p, g, n)
  }

  predicate Pinned(pins: seq<Pin>, n: string) { exists x :: x in pins && x.name == n }

  /** The pins of an export: each name once, in ascending order, with the installed version, and
      exactly the names the groups need. */
  ghost predicate PinsFor(e: Environment, p: Project, groups: seq<string>, pins: seq<Pin>) {
    && (forall i, j :: 0 <= i < j < |pins| ==> StringLess(pins[i].name, pins[j].name))
    && (forall x :: x in pins ==> x.name in e.installed && x.version == e.installed[x.name].version)
    && (forall n :: Pinned(pins, n) <==> NeededAmong(e, p, groups, n))
  }

  lemma GroupListNeeded(e: Environment, p: Project, direct: map<string, set<string>>, closure: map<string, set<string>>,
                        lock: Lock, g: string, n: string)
    requires Describes(e, p, direct, closure, lock)
    ensures g in lock.closure <==> g in p.activeGroups
    ensures g in lock.closure ==> (n in lock.closure[g] <==> NeededBy(e, p, g, n))
  {
    if g in p.activeGroups {
      assert g in closure && g in p.declared;
      ReachableIsNeeded(e, p, g, n);
      assert n in closure[g] <==> Reachable(e, direct[g], n);
    }
  }

  lemma ExportNamesNeeded(e: Environment, p: Project, direct: map<string, set<string>>, closure: map<string, set<string>>,
                          lock: Lock, groups: seq<string>, n: string)
    requires Describes(e, p, direct, closure, lock)
    ensures n in ExportNames(lock, groups) <==> NeededAmong(e, p, groups, n)
  {
    if n in ExportNames(lock, groups) {
      var g :| g in groups && g in lock.closure && n in lock.closure[g];
      GroupListNeeded(e, p, direct, closure, lock, g, n);
    }
    if NeededAmong(e, p, groups, n) {
      var g :| g in groups && g in p.activeGroups && NeededBy(e, p, g, n);
      GroupListNeeded(e, p, direct, closure, lock, g, n);
    }
  }

  lemma PinsAscend(m: PackageMap, s: set<string>)
    requires forall n :: n in s ==> n in m
    ensures var pins := Pins(m, Ascending(s));
            && (forall i, j :: 0 <= i < j < |pins| ==> StringLess(pins[i].name, pins[j].name))
            && (forall x :: x in pins <==> x.name in s && x == Pin(x.name, m[x.name].version))
  {
    var names := Ascending(s);
    var pins := Pins(m, names);
    AscendingSorted(s);
    AscendingDistinct(s);
    forall i, j | 0 <= i < j < |pins| ensures StringLess(pins[i].name, pins[j].name) {
      assert StringLe(names[i], names[j]) && names[i] != names[j];
    }
    forall x ensures x in pins <==> x.name in s && x == Pin(x.name, m[x.name].version) {
      if x in pins {
        var i :| 0 <= i < |pins| && pins[i] == x;
        assert names[i] in names;
      }
      if x.name in s && x == Pin(x.name, m[x.name].version) {
        var i :| 0 <= i < |names| && names[i] == x.name;
        assert pins[i] == x;
      }
    }
  }

  /** The package map of a fresh lock: what is locked, as installed. */
  lemma FreshMap(e: Environment, p: Project, direct: map<string, set<string>>, closure: map<string, set<string>>, lock: Lock)
    requires Describes(e, p, direct, closure, lock) && Idempotent(e)
    ensures MapOf(e.norm, lock.packages).Ok?
    ensures forall n :: n in MapOf(e.norm, lock.packages).value ==> AsInstalled(e, n, MapOf(e.norm, lock.packages).value[n])
  {
    AllInstalledAndNormal(e, p, direct, closure);
    NormalNames(e, p, direct, closure, lock);
    FreshPackageMap(e.norm, lock.packages, AllNames(closure));
    forall n | n in MapOf(e.norm, lock.packages).value ensures AsInstalled(e, n, MapOf(e.norm, lock.packages).value[n]) {
      FreshHashes(e, p, direct, closure, lock, n);
    }
  }

  /** What a rendered export says: its first line, and after the second the pins of its names. */
  lemma RenderedBody(norm: string -> string, lock: Lock, groups: seq<string>)
    requires RenderExport(norm, lock, groups).Ok?
    ensures MapOf(norm, lock.packages).Ok? && forall n :: n in ExportNames(lock, groups) ==> n in MapOf(norm, lock.packages).value
    ensures var text := RenderExport(norm, lock, groups).value;
            && HEADER_1 <= text
            && AfterLine(AfterLine(text)) == Print(Pins(MapOf(norm, lock.packages).value, Ascending(ExportNames(lock, groups))))
  {
    var m := MapOf(norm, lock.packages).value;
    forall n | n in ExportNames(lock, groups) ensures n in m { assert n !in ExportNames(lock, groups) - m.Keys; }
    FirstHeaderOnOneLine();
    SecondHeaderOnOneLine();
    TwoLines(HEADER_1, HEADER_2, Print(Pins(m, Ascending(ExportNames(lock, groups)))), RenderExport(norm, lock, groups).value);
  }

  /** An export of a fresh lock, read back after its two header lines, pins exactly what its groups
      need, at the installed versions. */
  lemma FreshExportPins(e: Environment, p: Project, direct: map<string, set<string>>, closure: map<string, set<string>>,
                        lock: Lock, groups: seq<string>)
    requires Describes(e, p, direct, closure, lock) && Idempotent(e) && Legible(e)
    ensures RenderExport(e.norm, lock, groups).Ok?
    ensures PinnedBy(e, p, groups, Some(RenderExport(e.norm, lock, groups).value))
  {
    AllInstalledAndNormal(e, p, direct, closure);
    FreshExportsRender(e, p, direct, closure, lock, groups);
    FreshMap(e, p, direct, closure, lock);
    RenderedBody(e.norm, lock, groups);
    forall n ensures n in ExportNames(lock, groups) <==> NeededAmong(e, p, groups, n) {
      ExportNamesNeeded(e, p, direct, closure, lock, groups, n);
    }
    BodyPins(e, p, groups, ExportNames(lock, groups), MapOf(e.norm, lock.packages).value, RenderExport(e.norm, lock, groups).value);
  }

  lemma BodyPins(e: Environment, p: Project, groups: seq<string>, s: set<string>, m: PackageMap, text: string)
    requires Legible(e) && forall n :: n in s <==> NeededAmong(e, p, groups, n)
    requires forall n :: n in s ==> n in m && AsInstalled(e, n, m[n])
    requires AfterLine(AfterLine(text)) == Print(Pins(m, Ascending(s)))
    ensures PinnedBy(e, p, groups, Some(text))
  {
    var pins := Pins(m, Ascending(s));
    PinsAscend(m, s);
    PinsForNames(e, p, groups, s, m, pins);
    ExportRoundTrip(pins);
  }

  /** The written export, read back, pins what the groups need. */
  ghost predicate PinnedBy(e: Environment, p: Project, groups: seq<string>, text: Option<string>) {
    text.Some? && exists pins :: ReadPins(AfterLine(AfterLine(text.value))) == Some(pins) && PinsFor(e, p, groups, pins)
  }

  lemma PinsForNames(e: Environment, p: Project, groups: seq<string>, s: set<string>, m: PackageMap, pins: seq<Pin>)
    requires Legible(e) && forall n :: n in s <==> NeededAmong(e, p, groups, n)
    requires forall n :: n in s ==> n in m && AsInstalled(e, n, m[n])
    requires forall i, j :: 0 <= i < j < |pins| ==> StringLess(pins[i].name, pins[j].name)
    requires forall x :: x in pins <==> x.name in s && x == Pin(x.name, m[x.name].version)
    ensures PinsFor(e, p, groups, pins) && forall x :: x in pins ==> Printable(x)
  {
    forall x | x in pins ensures x.name in e.installed && x.version == e.installed[x.name].version && Printable(x) {
      assert AsInstalled(e, x.name, m[x.name]);
    }
    forall n ensures Pinned(pins, n) <==> n in s {
      if n in s { assert Pin(n, m[n].version) in pins; }
    }
  }

  /** What a declaration can be at fault for by itself: being prohibited, or not admitting the version
      that is installed. */
  ghost predicate Faulty(e: Environment, p: Project, g: string, d: Declaration, x: Finding) {
    var n := e.norm(d.name);
    if d.prohibited then x == ProhibitedReference(g, d)
    else n in e.installed && !p.admits(d.specifier, e.installed[n].version)
         && x == VersionViolates(g, n, e.installed[n].version, d.specifier)
  }

  ghost predicate SomeFaulty(e: Environment, p: Project, x: Finding) {
    exists g, d :: Declares(p, g, d) && Faulty(e, p, g, d, x)
  }

  /** No active declaration is prohibited, and each admits what is installed under its name. */
  ghost predicate Faultless(e: Environment, p: Project) {
    forall g, d :: Declares(p, g, d) ==>
      !d.prohibited && (e.norm(d.name) in e.installed ==> p.admits(d.specifier, e.installed[e.norm(d.name)].version))
  }

  lemma FaultlessMeans(e: Environment, p: Project)
    ensures Faultless(e, p) <==> forall x :: !SomeFaulty(e, p, x)
  {
    if !Faultless(e, p) {
      var g, d :| Declares(p, g, d)
                  && (d.prohibited || (e.norm(d.name) in e.installed && !p.admits(d.specifier, e.installed[e.norm(d.name)].version)));
      var n := e.norm(d.name);
      var x := if d.prohibited then ProhibitedReference(g, d) else VersionViolates(g, n, e.installed[n].version, d.specifier);
      assert Faulty(e, p, g, d, x);
      assert SomeFaulty(e, p, x);
    }
  }

  /** A lock just built, with its exports just written and the policy unchanged, is reported for
      nothing but what the declarations themselves are at fault for. */
  lemma FreshLockPasses(e: Environment, p: Project, direct: map<string, set<string>>, closure: map<string, set<string>>,
                        lock: Lock, f: Files)
    requires Describes(e, p, direct, closure, lock) && Idempotent(e) && WellFormed(e)
    requires f.lock == lock && f.runtime.Some? && f.development.Some?
    requires RenderExport(e.norm, lock, ["runtime"]) == Ok(f.runtime.value)
    requires RenderExport(e.norm, lock, lock.activeGroups) == Ok(f.development.value)
    ensures Readable(e.norm, lock)
    ensures forall x :: Found(e.norm, p, f, MapOf(e.norm, lock.packages).value, f.runtime.value, f.development.value, x)
                   <==> SomeFaulty(e, p, x)
  {
    AllInstalledAndNormal(e, p, direct, closure);
    forall g, d | Declares(p, g, d) ensures e.norm(d.name) in AllNames(closure) {
      DeclaredIsLocked(e, p, direct, closure, g, d);
    }
    WrittenLockPasses(e, p, direct, closure, lock, f);
  }

  lemma WrittenLockPasses(e: Environment, p: Project, direct: map<string, set<string>>, closure: map<string, set<string>>,
                          lock: Lock, f: Files)
    requires Written(e, p, direct, closure, lock) && WellFormed(e)
    requires f.lock == lock && f.runtime.Some? && f.development.Some?
    requires forall n :: n in AllNames(closure) ==> e.norm(n) == n
    requires forall g, d :: Declares(p, g, d) ==> e.norm(d.name) in AllNames(closure)
    ensures MapOf(e.norm, lock.packages).Ok?
    ensures forall x :: Found(e.norm, p, f, MapOf(e.norm, lock.packages).value, f.runtime.value, f.development.value, x)
                   <==> SomeFaulty(e, p, x)
  {
    NormalNames(e, p, direct, closure, lock);
    FreshPackageMap(e.norm, lock.packages, AllNames(closure));
    var m := MapOf(e.norm, lock.packages).value;
    forall n | n in m ensures AsInstalled(e, n, m[n]) {
      FreshHashes(e, p, direct, closure, lock, n);
    }
    assert Covers(e, p, m);
    forall x ensures Found(e.norm, p, f, m, f.runtime.value, f.development.value, x) <==> SomeFaulty(e, p, x) {
      OnlyFaultsFound(e, p, f, m, x);
    }
  }

  lemma DeclaredIsLocked(e: Environment, p: Project, direct: map<string, set<string>>, closure: map<string, set<string>>,
                         g: string, d: Declaration)
    requires Resolved(e, p, direct, closure) && Declares(p, g, d)
    ensures e.norm(d.name) in AllNames(closure)
  {
    assert e.norm(d.name) in direct[g];
    ReachableDirect(e, direct[g], e.norm(d.name));
    assert e.norm(d.name) in closure[g];
  }

  lemma ObjectsIsFaulty(e: Environment, p: Project, m: PackageMap, g: string, d: Declaration, x: Finding)
    requires e.norm(d.name) in m && AsInstalled(e, e.norm(d.name), m[e.norm(d.name)])
    ensures Objects(e.norm, p, m, g, d, x) <==> Faulty(e, p, g, d, x)
  {}

  /** Every active declaration is in the map, as installed. */
  ghost predicate Covers(e: Environment, p: Project, m: PackageMap) {
    && (forall n :: n in m ==> AsInstalled(e, n, m[n]))
    && (forall g, d :: Declares(p, g, d) ==> e.norm(d.name) in m)
  }

  /** Against such a map, what is objected to is what is faulty. */
  lemma ObjectsMeansFaulty(e: Environment, p: Project, m: PackageMap, x: Finding)
    requires Covers(e, p, m)
    ensures SomeObjects(e.norm, p, m, x) <==> SomeFaulty(e, p, x)
  {
    if SomeObjects(e.norm, p, m, x) {
      var g, d :| Declares(p, g, d) && Objects(e.norm, p, m, g, d, x);
      ObjectsIsFaulty(e, p, m, g, d, x);
    }
    if SomeFaulty(e, p, x) {
      var g, d :| Declares(p, g, d) && Faulty(e, p, g, d, x);
      ObjectsIsFaulty(e, p, m, g, d, x);
    }
  }

  lemma FaultKinds(e: Environment, p: Project, x: Finding)
    requires SomeFaulty(e, p, x)
    ensures x.ProhibitedReference? || x.VersionViolates?
  {}

  predicate AboutDeclaration(x: Finding) { x.ProhibitedReference? || x.AbsentFromLock? || x.VersionViolates? }

  lemma StructureSound(e: Environment, p: Project, f: Files, m: PackageMap, x: Finding)
    requires WellFormed(e) && f.runtime.Some? && f.development.Some?
    requires f.lock.activeGroups == p.activeGroups && f.lock.packageCount == |m|
    requires Licensed(e, m.Keys, f.lock.licenses)
    requires x.HashInvalid? && x.name in m ==> AsInstalled(e, x.name, m[x.name])
    requires !AboutDeclaration(x)
    ensures !Found(e.norm, p, f, m, f.runtime.value, f.development.value, x)
  {}

  lemma OnlyFaultsFound(e: Environment, p: Project, f: Files, m: PackageMap, x: Finding)
    requires WellFormed(e) && f.runtime.Some? && f.development.Some?
    requires f.lock.activeGroups == p.activeGroups && f.lock.packageCount == |m|
    requires Licensed(e, m.Keys, f.lock.licenses) && Covers(e, p, m)
    ensures Found(e.norm, p, f, m, f.runtime.value, f.development.value, x) <==> SomeFaulty(e, p, x)
  {
    if AboutDeclaration(x) {
      ObjectsMeansFaulty(e, p, m, x);
    } else {
      StructureSound(e, p, f, m, x);
      if SomeFaulty(e, p, x) { FaultKinds(e, p, x); }
    }
  }

  lemma EmptyOrMember<T>(s: seq<T>)
    ensures s == [] || exists x :: x in s
  {
    if s != [] { assert s[0] in s; }
  }

  /** Build, write both exports, validate. Building looks neither at specifiers nor at the kind of
      reference, so the validator reports exactly the faults of the declarations: nothing at all
      exactly when there are none. */
  method BuildWriteValidate(e: Environment, p: Project) returns (r: Result<(Files, seq<Finding>), Error>)
    requires Idempotent(e) && WellFormed(e)
    ensures r.Ok? <==> Buildable(e, p)
    ensures r.Ok? ==> forall x :: x in r.value.1 <==> SomeFaulty(e, p, x)
    ensures r.Ok? ==> (r.value.1 == [] <==> Faultless(e, p))
    ensures r.Ok? && Legible(e) ==>
              && PinnedBy(e, p, ["runtime"], r.value.0.runtime)
              && PinnedBy(e, p, p.activeGroups, r.value.0.development)
  {
    var built := BuildLock(e, p);
    if built.Err? { return Err(built.error); }
    var lock := built.value;
    ghost var direct, closure :| Describes(e, p, direct, closure, lock);
    AllInstalledAndNormal(e, p, direct, closure);
    FreshExportsRender(e, p, direct, closure, lock, ["runtime"]);
    FreshExportsRender(e, p, direct, closure, lock, lock.activeGroups);
    var runtime, development := RenderExport(e.norm, lock, ["runtime"]), RenderExport(e.norm, lock, lock.activeGroups);
    var f := Files(lock, Some(runtime.value), Some(development.value));
    FreshLockPasses(e, p, direct, closure, lock, f);
    if Legible(e) {
      FreshExportPins(e, p, direct, closure, lock, ["runtime"]);
      FreshExportPins(e, p, direct, closure, lock, lock.activeGroups);
    }
    forall g | g in p.activeGroups ensures g in p.declared { assert GroupBuildable(e, p, g); }
    var found := Validate(e.norm, p, f);
    EmptyOrMember(found.value);
    FaultlessMeans(e, p);
    return Ok((f, found.value));
  }

  /** Building does not look at specifiers. */
  lemma BuildIgnoresSpecifiers(e: Environment, p: Project, admits: (string, string) -> bool)
    ensures Buildable(e, p) <==> Buildable(e, p.(admits := admits))
  {
    forall g ensures GroupBuildable(e, p, g) <==> GroupBuildable(e, p.(admits := admits), g) {
      if g in p.declared { assert DirectNames(e, p, g) == DirectNames(e, p.(admits := admits), g); }
    }
  }

  /** One package, declared with a specifier that does not admit the installed version: the lock is
      built and then reported. */
  lemma FreshLockMayBeReported()
    ensures var e := Environment((n: string) => n, (a: string, b: string) => true,
                                 map["p" := Distribution("1", Some(seq(64, _ => '0')), Some("MIT"), [])]);
            var p := Project(map["g" := [Declaration("p", "<1", false)]], ["g"], (s: string, v: string) => false);
            Idempotent(e) && WellFormed(e) && Buildable(e, p) && !Faultless(e, p)
  {
    var e := Environment((n: string) => n, (a: string, b: string) => true,
                         map["p" := Distribution("1", Some(seq(64, _ => '0')), Some("MIT"), [])]);
    var p := Project(map["g" := [Declaration("p", "<1", false)]], ["g"], (s: string, v: string) => false);
    assert Declares(p, "g", Declaration("p", "<1", false));
    assert "MIT"[0] == 'M';
    assert DirectNames(e, p, "g") == {"p"};
    forall n | Reachable(e, {"p"}, n) ensures n == "p" {
      var path :| IsPath(e, path) && path[0] in {"p"} && path[|path|-1] == n;
      assert |path| > 1 ==> path[1] in Requires(e, path[0]);
    }
    assert GroupBuildable(e, p, "g");
  }
}
