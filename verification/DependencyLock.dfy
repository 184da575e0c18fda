/** The lock document, its exports, and the structural part of its validator. */
module DependencyLock {
  import opened Wrappers
  import opened Ordering
  import opened Dependencies

  datatype Package = Package(
    name: string, version: string, metadataHash: string,
    directGroups: seq<string>, closureGroups: seq<string>, requiresDist: seq<string>)

  datatype Lock = Lock(
    activeGroups: seq<string>,
    direct: map<string, seq<string>>,
    closure: map<string, seq<string>>,
    packageCount: nat,
    packages: seq<Package>,
    licenses: map<string, string>)

  /** A declared requirement: the package, the versions it admits, and whether it is a direct
      reference of a kind that is prohibited. */
  datatype Declaration = Declaration(name: string, specifier: string, prohibited: bool)

  /** The declared groups, the groups the policy activates, and which specifier admits which version. */
  datatype Project = Project(
    declared: map<string, seq<Declaration>>, activeGroups: seq<string>, admits: (string, string) -> bool)

  function DirectNames(e: Environment, p: Project, group: string): set<string>
    requires group in p.declared
  {
    set d | d in p.declared[group] :: e.norm(d.name)
  }

  /** In the fields: `x` is installed and has an applicable requirement on `y`. */
  ghost predicate Needs(e: Environment, x: string, y: string) {
    x in e.installed && exists r :: r in e.installed[x].requirements && r.applicable && e.norm(r.name) == y
  }

  ghost predicate NeedPath(e: Environment, q: seq<string>) {
    q != [] && forall i :: 0 < i < |q| ==> Needs(e, q[i-1], q[i])
  }

  /** Some declaration of the group leads to `n`. */
  ghost predicate NeededBy(e: Environment, p: Project, group: string, n: string) {
    && group in p.declared
    && exists q, d :: NeedPath(e, q) && d in p.declared[group] && e.norm(d.name) == q[0] && q[|q|-1] == n
  }

  lemma ReachableIsNeeded(e: Environment, p: Project, group: string, n: string)
    requires group in p.declared
    ensures Reachable(e, DirectNames(e, p, group), n) <==> NeededBy(e, p, group, n)
  {
    forall q ensures IsPath(e, q) <==> NeedPath(e, q) {
      forall i | 0 < i < |q| ensures q[i] in Requires(e, q[i-1]) <==> Needs(e, q[i-1], q[i]) {}
    }
    if Reachable(e, DirectNames(e, p, group), n) {
      var q :| IsPath(e, q) && q[0] in DirectNames(e, p, group) && q[|q|-1] == n;
      var d :| d in p.declared[group] && e.norm(d.name) == q[0];
      assert NeedPath(e, q);
    }
    if NeededBy(e, p, group, n) {
      var q, d :| NeedPath(e, q) && d in p.declared[group] && e.norm(d.name) == q[0] && q[|q|-1] == n;
      assert IsPath(e, q) && q[0] in DirectNames(e, p, group);
    }
  }

  function Active(p: Project): set<string> { set g | g in p.activeGroups }

  ghost predicate Idempotent(e: Environment) {
    && (forall n :: e.norm(e.norm(n)) == e.norm(n))
    && (forall n :: n in e.installed ==> e.norm(n) == n)
  }

  predicate IsBlank(s: string) {
    forall i :: 0 <= i < |s| ==> s[i] in {' ', '\t', '\n', '\r'}
  }

  /** A text is blank exactly when it has no character but space, tab, line feed and carriage return. */
  lemma BlankMeans(s: string)
    ensures IsBlank(s) <==> forall c :: c in s ==> c == ' ' || c == '\t' || c == '\n' || c == '\r'
  {
    if IsBlank(s) {
      forall c | c in s ensures c == ' ' || c == '\t' || c == '\n' || c == '\r' {
        var i :| 0 <= i < |s| && s[i] == c;
      }
    }
    assert forall i :: 0 <= i < |s| ==> s[i] in s;
  }

  /** A digest is 64 hexadecimal digits; a licence that was found is not blank. */
  ghost predicate WellFormed(e: Environment) {
    forall n :: n in e.installed ==>
      && (e.installed[n].metadataHash.Some? ==> IsHex64(e.installed[n].metadataHash.value))
      && (e.installed[n].license.Some? ==> !IsBlank(e.installed[n].license.value))
  }

  //
  // What a freshly built lock says.
  //

  /** The groups, sorted, whose name set contains `name`. */
  function Memberships(byGroup: map<string, set<string>>, name: string): seq<string> {
    Ascending(set g | g in byGroup && name in byGroup[g])
  }

  function AllNames(byGroup: map<string, set<string>>): set<string> {
    set g, n | g in byGroup && n in byGroup[g] :: n
  }

  function Texts(requirements: seq<Requirement>): seq<string> {
    if requirements == [] then []
    else Texts(requirements[..|requirements|-1]) +
         if requirements[|requirements|-1].applicable then [requirements[|requirements|-1].text] else []
  }

  function PackageFor(e: Environment, direct: map<string, set<string>>, closure: map<string, set<string>>, name: string): Package
    requires name in e.installed && e.installed[name].metadataHash.Some?
  {
    Package(name, e.installed[name].version, e.installed[name].metadataHash.value,
            Memberships(direct, name), Memberships(closure, name),
            SortBy(e.textLe, Texts(e.installed[name].requirements)))
  }

  /** The direct names and the closure of every active group. */
  ghost predicate Resolved(e: Environment, p: Project, direct: map<string, set<string>>, closure: map<string, set<string>>) {
    DirectTable(e, p, direct) && closure.Keys == direct.Keys && ClosureTable(e, direct, closure)
  }

  /** The lock for the direct names and closures of the active groups. */
  ghost predicate Describes(e: Environment, p: Project, direct: map<string, set<string>>,
                            closure: map<string, set<string>>, lock: Lock)
  {
    Resolved(e, p, direct, closure) && Written(e, p, direct, closure, lock)
  }

  /** The fields of the lock, given direct names and closures per group. */
  ghost predicate Written(e: Environment, p: Project, direct: map<string, set<string>>,
                          closure: map<string, set<string>>, lock: Lock)
  {
    && lock.activeGroups == p.activeGroups
    && Tabled(direct, lock.direct) && Tabled(closure, lock.closure)
    && lock.packageCount == |lock.packages|
    && Listed(e, direct, closure, Ascending(AllNames(closure)), lock.packages)
    && Licensed(e, AllNames(closure), lock.licenses)
  }

  /** Every group's names, sorted. */
  ghost predicate Tabled(byGroup: map<string, set<string>>, table: map<string, seq<string>>) {
    table == map g | g in byGroup :: Ascending(byGroup[g])
  }

  /** `packages` holds one record per name, in the order of `names`. */
  ghost predicate Listed(e: Environment, direct: map<string, set<string>>, closure: map<string, set<string>>,
                         names: seq<string>, packages: seq<Package>)
  {
    && |packages| == |names|
    && forall i {:trigger packages[i]} :: 0 <= i < |packages| ==> Entry(e, direct, closure, names[i], packages[i])
  }

  ghost predicate Entry(e: Environment, direct: map<string, set<string>>, closure: map<string, set<string>>,
                        name: string, p: Package)
  {
    && name in e.installed && e.installed[name].metadataHash.Some?
    && p == PackageFor(e, direct, closure, name)
  }

  //
  // Building.
  //

  ghost predicate DirectTable(e: Environment, p: Project, direct: map<string, set<string>>) {
    && direct.Keys == Active(p)
    && forall g :: g in direct ==> g in p.declared && direct[g] == DirectNames(e, p, g)
  }

  method DirectByGroup(e: Environment, p: Project) returns (r: Result<map<string, set<string>>, Error>)
    ensures r.Ok? ==> DirectTable(e, p, r.value)
    ensures r.Err? <==> exists g :: g in p.activeGroups && g !in p.declared
  {
    var missing := Active(p) - p.declared.Keys;
    if missing != {} {
      var g :| g in missing;
      assert g in p.activeGroups && g !in p.declared;
      return Err(GroupsNotDeclared(Ascending(missing)));
    }
    forall g | g in Active(p) ensures g in p.declared {
      assert g !in missing;
    }
    return Ok(map g | g in Active(p) :: DirectNames(e, p, g));
  }

  ghost predicate ClosureTable(e: Environment, direct: map<string, set<string>>, closure: map<string, set<string>>) {
    forall g :: g in closure ==> g in direct && IsClosure(e, direct[g], closure[g]) && closure[g] <= e.installed.Keys
  }

  method ClosureByGroup(e: Environment, direct: map<string, set<string>>) returns (r: Result<map<string, set<string>>, Error>)
    ensures r.Ok? ==> r.value.Keys == direct.Keys && ClosureTable(e, direct, r.value)
    ensures r.Err? <==> exists g, n :: g in direct && Reachable(e, direct[g], n) && n !in e.installed
  {
    var closure: map<string, set<string>> := map[];
    var todo := direct.Keys;
    while todo != {}
      invariant todo <= direct.Keys
      invariant closure.Keys == direct.Keys - todo
      invariant ClosureTable(e, direct, closure)
      decreases todo
    {
      var g :| g in todo;
      var c := ClosureFor(e, direct[g]);
      if c.Err? {
        return Err(c.error);
      }
      closure := closure[g := c.value];
      todo := todo - {g};
    }
    return Ok(closure);
  }

  method ListPackages(e: Environment, direct: map<string, set<string>>, closure: map<string, set<string>>, names: seq<string>)
    returns (r: Result<seq<Package>, Error>)
    requires forall n :: n in names ==> n in e.installed
    ensures r.Ok? ==> Listed(e, direct, closure, names, r.value)
    ensures r.Err? <==> exists n :: n in names && e.installed[n].metadataHash.None?
  {
    var packages: seq<Package> := [];
    for i := 0 to |names|
      invariant |packages| == i
      invariant forall k :: 0 <= k < i ==> Entry(e, direct, closure, names[k], packages[k])
    {
      var name := names[i];
      assert name in names;
      if e.installed[name].metadataHash.None? {
        return Err(MetadataMissing(name));
      }
      packages := packages + [PackageFor(e, direct, closure, name)];
    }
    return Ok(packages);
  }

  method ReadLicenses(e: Environment, names: seq<string>) returns (r: Result<map<string, string>, Error>)
    requires forall n :: n in names ==> n in e.installed
    ensures r.Ok? ==> r.value.Keys == (set n | n in names)
    ensures r.Ok? ==> forall n :: n in r.value ==> n in e.installed && e.installed[n].license == Some(r.value[n])
    ensures r.Err? <==> exists n :: n in names && e.installed[n].license.None?
  {
    var licenses: map<string, string> := map[];
    for i := 0 to |names|
      invariant licenses.Keys == set n | n in names[..i]
      invariant forall n :: n in licenses ==> n in e.installed && e.installed[n].license == Some(licenses[n])
    {
      var name := names[i];
      assert name in names;
      if e.installed[name].license.None? {
        return Err(LicenseMissing(name));
      }
      assert names[..i+1] == names[..i] + [name];
      licenses := licenses[name := e.installed[name].license.value];
    }
    assert names[..|names|] == names;
    return Ok(licenses);
  }

  method Resolve(e: Environment, p: Project)
    returns (r: Result<(map<string, set<string>>, map<string, set<string>>), Error>)
    ensures r.Ok? ==> Resolved(e, p, r.value.0, r.value.1)
    ensures r.Err? ==> !Buildable(e, p)
  {
    var d := DirectByGroup(e, p);
    if d.Err? {
      ghost var g :| g in p.activeGroups && g !in p.declared;
      assert !GroupBuildable(e, p, g);
      return Err(d.error);
    }
    var c := ClosureByGroup(e, d.value);
    if c.Err? {
      ghost var g, n :| g in d.value && Reachable(e, d.value[g], n) && n !in e.installed;
      assert g in p.activeGroups && !GroupBuildable(e, p, g);
      return Err(c.error);
    }
    return Ok((d.value, c.value));
  }

  /** Builds the lock. It fails exactly when an active group is not declared, something reachable is
      not installed, or a reachable package lacks its metadata file or its licence. */
  method BuildLock(e: Environment, p: Project) returns (r: Result<Lock, Error>)
    ensures r.Ok? ==> exists direct, closure :: Describes(e, p, direct, closure, r.value)
    ensures r.Ok? <==> Buildable(e, p)
  {
    var tables := Resolve(e, p);
    if tables.Err? { return Err(tables.error); }
    var (direct, closure) := tables.value;
    NamesReached(e, p, direct, closure);
    r := Assemble(e, p, direct, closure);
  }

  method Assemble(e: Environment, p: Project, direct: map<string, set<string>>, closure: map<string, set<string>>)
    returns (r: Result<Lock, Error>)
    requires Resolved(e, p, direct, closure)
    requires forall n :: n in AllNames(closure) ==> n in e.installed
    ensures r.Ok? ==> Describes(e, p, direct, closure, r.value)
    ensures r.Ok? <==> forall n :: n in AllNames(closure) ==> e.installed[n].metadataHash.Some? && e.installed[n].license.Some?
  {
    var body := Fill(e, direct, closure, AllNames(closure));
    if body.Err? { return Err(body.error); }
    var (packages, licenses) := body.value;
    return Ok(Lock(p.activeGroups, map g | g in direct :: Ascending(direct[g]),
                   map g | g in closure :: Ascending(closure[g]), |packages|, packages, licenses));
  }

  ghost predicate Licensed(e: Environment, names: set<string>, licenses: map<string, string>) {
    && licenses.Keys == names
    && forall n :: n in licenses ==> n in e.installed && e.installed[n].license == Some(licenses[n])
  }

  method Fill(e: Environment, direct: map<string, set<string>>, closure: map<string, set<string>>, all: set<string>)
    returns (r: Result<(seq<Package>, map<string, string>), Error>)
    requires forall n :: n in all ==> n in e.installed
    ensures r.Ok? ==> Listed(e, direct, closure, Ascending(all), r.value.0) && Licensed(e, all, r.value.1)
    ensures r.Ok? <==> forall n :: n in all ==> e.installed[n].metadataHash.Some? && e.installed[n].license.Some?
  {
    var names := Ascending(all);
    var packages := ListPackages(e, direct, closure, names);
    if packages.Err? { return Err(packages.error); }
    var licenses := ReadLicenses(e, names);
    if licenses.Err? { return Err(licenses.error); }
    assert licenses.value.Keys == all;
    return Ok((packages.value, licenses.value));
  }

  ghost predicate GroupBuildable(e: Environment, p: Project, g: string) {
    g in p.declared && forall n :: Reachable(e, DirectNames(e, p, g), n) ==>
      n in e.installed && e.installed[n].metadataHash.Some? && e.installed[n].license.Some?
  }

  ghost predicate Buildable(e: Environment, p: Project) {
    forall g :: g in p.activeGroups ==> GroupBuildable(e, p, g)
  }

  lemma NamesReached(e: Environment, p: Project, direct: map<string, set<string>>, closure: map<string, set<string>>)
    requires Resolved(e, p, direct, closure)
    ensures forall n :: n in AllNames(closure) ==> n in e.installed
    ensures Buildable(e, p) <==>
              forall n :: n in AllNames(closure) ==> e.installed[n].metadataHash.Some? && e.installed[n].license.Some?
  {
    forall n | n in AllNames(closure) ensures n in e.installed {
      var g :| g in closure && n in closure[g];
    }
    forall n | Buildable(e, p) && n in AllNames(closure)
      ensures n in e.installed && e.installed[n].metadataHash.Some? && e.installed[n].license.Some?
    {
      var g :| g in closure && n in closure[g];
      assert GroupBuildable(e, p, g);
    }
  }
}
