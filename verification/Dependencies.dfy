/** The dependency lock: the closure of the declared dependencies over what is installed, the lock
document built from it, the two rendered exports, and the validator that reads them back.

Name normalization is an arbitrary idempotent function. Markers are already evaluated: each
requirement of an installed distribution says whether it applies.
 */
module Dependencies {
  import opened Wrappers
  import opened Ordering

  datatype Requirement = Requirement(name: string, text: string, applicable: bool)

  /** An installed distribution; `None` where its metadata file or its licence is missing. */
  datatype Distribution = Distribution(
    version: string, metadataHash: Option<string>, license: Option<string>, requirements: seq<Requirement>)

  /** `norm` normalizes a package name; `textLe` is the order (by lower-cased text) in which the
      requirements of a package are listed. */
  datatype Environment = Environment(norm: string -> string, textLe: (string, string) -> bool, installed: map<string, Distribution>)

  datatype Error =
    | GroupsNotDeclared(groups: seq<string>)
    | NotInstalled(name: string)
    | MetadataMissing(name: string)
    | LicenseMissing(name: string)
    | DuplicatePackage(name: string)
    | MissingKey(name: string)

  //
  // Reachability.
  //

  function Requires(e: Environment, name: string): set<string> {
    if name !in e.installed then {}
    else set r | r in e.installed[name].requirements && r.applicable :: e.norm(r.name)
  }

  ghost predicate IsPath(e: Environment, p: seq<string>) {
    p != [] && forall i :: 0 < i < |p| ==> p[i] in Requires(e, p[i-1])
  }

  ghost predicate Reachable(e: Environment, direct: set<string>, name: string) {
    exists p :: IsPath(e, p) && p[0] in direct && p[|p|-1] == name
  }

  lemma ReachableDirect(e: Environment, direct: set<string>, name: string)
    requires name in direct
    ensures Reachable(e, direct, name)
  {
    assert IsPath(e, [name]);
  }

  lemma ReachableStep(e: Environment, direct: set<string>, name: string, next: string)
    requires Reachable(e, direct, name) && next in Requires(e, name)
    ensures Reachable(e, direct, next)
  {
    var p :| IsPath(e, p) && p[0] in direct && p[|p|-1] == name;
    assert IsPath(e, p + [next]) && (p + [next])[0] in direct && (p + [next])[|p|] == next;
  }

  lemma {:induction false} PathStaysInside(e: Environment, s: set<string>, p: seq<string>)
    requires IsPath(e, p) && p[0] in s
    requires forall n :: n in s ==> Requires(e, n) <= s
    ensures p[|p|-1] in s
    decreases |p|
  {
    if |p| > 1 {
      PathStaysInside(e, s, p[..|p|-1]);
      assert p[|p|-1] in Requires(e, p[|p|-2]);
    }
  }

  /** `s` is exactly what `direct` reaches. */
  ghost predicate IsClosure(e: Environment, direct: set<string>, s: set<string>) {
    forall n :: n in s <==> Reachable(e, direct, n)
  }

  lemma ClosedReachableIsClosure(e: Environment, direct: set<string>, s: set<string>)
    requires direct <= s
    requires forall n :: n in s ==> Reachable(e, direct, n)
    requires forall n :: n in s ==> Requires(e, n) <= s
    ensures IsClosure(e, direct, s)
  {
    forall n | Reachable(e, direct, n) ensures n in s {
      var p :| IsPath(e, p) && p[0] in direct && p[|p|-1] == n;
      PathStaysInside(e, s, p);
    }
  }

  /** The closure of a union is the union of the closures. */
  lemma ClosureOfUnion(e: Environment, a: set<string>, b: set<string>, sa: set<string>, sb: set<string>)
    requires IsClosure(e, a, sa) && IsClosure(e, b, sb)
    ensures IsClosure(e, a + b, sa + sb)
  {
    forall n ensures n in sa + sb <==> Reachable(e, a + b, n) {
      if Reachable(e, a + b, n) {
        var p :| IsPath(e, p) && p[0] in a + b && p[|p|-1] == n;
        assert p[0] in a ==> Reachable(e, a, n);
        assert p[0] in b ==> Reachable(e, b, n);
      }
      if n in sa {
        var p :| IsPath(e, p) && p[0] in a && p[|p|-1] == n;
        assert p[0] in a + b;
      }
      if n in sb {
        var p :| IsPath(e, p) && p[0] in b && p[|p|-1] == n;
        assert p[0] in a + b;
      }
    }
  }

  //
  // The worklist.
  //

  /** Everything known so far is reachable, and nothing reachable is forgotten. */
  ghost predicate Working(e: Environment, direct: set<string>, closure: set<string>, queue: seq<string>) {
    && closure <= e.installed.Keys
    && (forall n :: n in closure ==> Reachable(e, direct, n))
    && (forall n :: n in queue ==> Reachable(e, direct, n))
    && (forall n :: n in direct ==> n in closure || n in queue)
    && (forall n, d :: n in closure && d in Requires(e, n) ==> d in closure || d in queue)
  }

  lemma WorkingSkip(e: Environment, direct: set<string>, closure: set<string>, queue: seq<string>)
    requires queue != [] && queue[0] in closure && Working(e, direct, closure, queue)
    ensures Working(e, direct, closure, queue[1..])
  {
    assert forall x :: x in queue <==> x == queue[0] || x in queue[1..];
  }

  lemma WorkingExpand(e: Environment, direct: set<string>, closure: set<string>, queue: seq<string>, queue': seq<string>)
    requires queue != [] && Working(e, direct, closure, queue)
    requires queue[0] in e.installed
    requires forall x :: x in queue' <==>
               x in queue[1..] || (x in Requires(e, queue[0]) && x !in closure + {queue[0]})
    ensures Working(e, direct, closure + {queue[0]}, queue')
  {
    var name := queue[0];
    assert forall x :: x in queue <==> x == name || x in queue[1..];
    forall d | d in Requires(e, name) ensures Reachable(e, direct, d) { ReachableStep(e, direct, name, d); }
  }

  /** Appends the applicable requirements of `name` that are not yet in the closure. */
  method Enqueue(e: Environment, name: string, closure: set<string>, queue: seq<string>) returns (r: seq<string>)
    requires name in e.installed
    ensures forall x :: x in r <==> x in queue || (x in Requires(e, name) && x !in closure)
  {
    r := queue;
    var raw := e.installed[name].requirements;
    for i := 0 to |raw|
      invariant forall x :: x in r <==>
                  x in queue || (x !in closure && exists k :: 0 <= k < i && raw[k].applicable && e.norm(raw[k].name) == x)
    {
      if raw[i].applicable {
        var dependency := e.norm(raw[i].name);
        if dependency !in closure {
          r := r + [dependency];
        }
      }
    }
  }

  /** Terminates on every graph; fails exactly when something reachable is not installed. */
  method ClosureFor(e: Environment, direct: set<string>) returns (r: Result<set<string>, Error>)
    ensures r.Ok? ==> IsClosure(e, direct, r.value) && r.value <= e.installed.Keys
    ensures r.Err? <==> exists n :: Reachable(e, direct, n) && n !in e.installed
  {
    var queue := Ascending(direct);
    var closure: set<string> := {};
    forall n | n in direct ensures Reachable(e, direct, n) { ReachableDirect(e, direct, n); }
    while queue != []
      invariant Working(e, direct, closure, queue)
      decreases e.installed.Keys - closure, |queue|
    {
      var name := queue[0];
      if name in closure {
        WorkingSkip(e, direct, closure, queue);
        queue := queue[1..];
      } else if name !in e.installed {
        assert name in queue && Reachable(e, direct, name);
        return Err(NotInstalled(name));
      } else {
        var next := Enqueue(e, name, closure + {name}, queue[1..]);
        WorkingExpand(e, direct, closure, queue, next);
        assert name in e.installed.Keys - closure;
        closure, queue := closure + {name}, next;
      }
    }
    ClosedReachableIsClosure(e, direct, closure);
    return Ok(closure);
  }
}
