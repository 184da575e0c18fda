/** The audit of items that claim to be done.

Every item in state DONE is first judged on its own (criteria, tests, evidence, paths, blockers).
The clean ones are then shrunk in place until every survivor's dependencies and children survive
too. The survivors are confirmed; every other claim is rejected with the reasons collected.
 */
module Audit {
  import opened Wrappers
  import opened Ordering

  datatype Criterion = Criterion(id: string, status: string, command: string)

  datatype Item = Item(
    localId: string,
    parent: string,
    state: string,
    criteria: seq<Criterion>,
    requiredTests: seq<string>,
    completionEvidence: seq<string>,
    evidenceRequired: seq<string>,
    expectedArtifacts: seq<string>,
    expectedLocations: seq<string>,
    blockers: seq<string>,
    dependencies: seq<string>,
    upstreamDependencies: seq<string>)

  datatype EvidenceRow = EvidenceRow(result: string, status: string, artifactPath: string, sha256: string)

  /** What the audit observes: fresh command and test results, the evidence ledger, the digests of
      the files on disk and the set of existing paths. */
  datatype World = World(
    commands: map<string, string>,
    tests: map<string, string>,
    ledger: map<string, EvidenceRow>,
    digests: map<string, string>,
    paths: set<string>)

  datatype Reason =
    | AcceptanceNotVerified(criterion: string, status: string)
    | FreshAcceptanceCommandFailed(criterion: string, status: string)
    | NoRequiredTests
    | FreshRequiredTestFailed(test: string, status: string)
    | NoCompletionEvidence
    | RequiredEvidenceNotAttached(evidence: string)
    | EvidenceRecordMissing(evidence: string)
    | EvidenceNotVerifiedCurrent(evidence: string)
    | ExpectedPathMissing(path: string)
    | UnresolvedBlockers(blockers: seq<string>)
    | DependencyNotVerifiedDone(localIds: seq<string>)
    | ChildNotVerifiedDone(localIds: seq<string>)

  //
  // Judging one item on its own.
  //

  function StatusOf(results: map<string, string>, key: string): string {
    if key in results then results[key] else "NOT_RUN"
  }

  function CriterionReasons(w: World, c: Criterion): seq<Reason> {
    (if c.status != "VERIFIED" then [AcceptanceNotVerified(c.id, c.status)] else []) +
    (if StatusOf(w.commands, c.command) != "PASS"
     then [FreshAcceptanceCommandFailed(c.id, StatusOf(w.commands, c.command))] else [])
  }

  function TestReasons(w: World, t: string): seq<Reason> {
    if StatusOf(w.tests, t) != "PASS" then [FreshRequiredTestFailed(t, StatusOf(w.tests, t))] else []
  }

  predicate Current(w: World, row: EvidenceRow) {
    && row.result == "PASS" && row.status == "VERIFIED"
    && row.artifactPath in w.digests && w.digests[row.artifactPath] == row.sha256
  }

  function EvidenceReasons(w: World, e: string): seq<Reason> {
    if e !in w.ledger then [EvidenceRecordMissing(e)]
    else if !Current(w, w.ledger[e]) then [EvidenceNotVerifiedCurrent(e)]
    else []
  }

  function CriteriaReasons(w: World, item: Item): seq<Reason> {
    FlatMap(c => CriterionReasons(w, c), item.criteria)
  }

  function TestsReasons(w: World, item: Item): seq<Reason> {
    (if item.requiredTests == [] then [NoRequiredTests] else []) +
    FlatMap(t => TestReasons(w, t), Dedupe(item.requiredTests))
  }

  function AttachmentReasons(w: World, item: Item): seq<Reason> {
    (if item.completionEvidence == [] then [NoCompletionEvidence] else []) +
    FlatMap(e => AttachedReasons(item, e), item.evidenceRequired) +
    FlatMap(e => EvidenceReasons(w, e), item.completionEvidence)
  }

  function AttachedReasons(item: Item, e: string): seq<Reason> {
    if e !in item.completionEvidence then [RequiredEvidenceNotAttached(e)] else []
  }

  function PathReasons(w: World, p: string): seq<Reason> {
    if p !in w.paths then [ExpectedPathMissing(p)] else []
  }

  function LocationReasons(w: World, item: Item): seq<Reason> {
    FlatMap(p => PathReasons(w, p), item.expectedArtifacts) +
    FlatMap(p => PathReasons(w, p), item.expectedLocations) +
    if item.blockers != [] then [UnresolvedBlockers(item.blockers)] else []
  }

  /** The reasons against one item taken on its own, in the order they are appended. */
  function LocalReasons(w: World, item: Item): seq<Reason> {
    CriteriaReasons(w, item) + TestsReasons(w, item) + AttachmentReasons(w, item) + LocationReasons(w, item)
  }

  /** The result recorded under `key` is a pass. */
  predicate Passed(results: map<string, string>, key: string) { key in results && results[key] == "PASS" }

  ghost predicate CriteriaMet(w: World, item: Item) {
    forall c :: c in item.criteria ==> c.status == "VERIFIED" && Passed(w.commands, c.command)
  }

  ghost predicate TestsMet(w: World, item: Item) {
    item.requiredTests != [] && forall t :: t in item.requiredTests ==> Passed(w.tests, t)
  }

  /** A passing, verified row whose artifact is on disk with the recorded digest. */
  ghost predicate Proven(w: World, e: string) {
    && e in w.ledger
    && var row := w.ledger[e];
    && row.result == "PASS" && row.status == "VERIFIED"
    && row.artifactPath in w.digests && w.digests[row.artifactPath] == row.sha256
  }

  ghost predicate EvidenceMet(w: World, item: Item) {
    && item.completionEvidence != []
    && (forall e :: e in item.evidenceRequired ==> e in item.completionEvidence)
    && (forall e :: e in item.completionEvidence ==> Proven(w, e))
  }

  ghost predicate LocationsMet(w: World, item: Item) {
    && (forall p :: p in item.expectedArtifacts ==> p in w.paths)
    && (forall p :: p in item.expectedLocations ==> p in w.paths)
    && item.blockers == []
  }

  /** The same judgement as a plain conjunction. */
  ghost predicate LocallyClean(w: World, item: Item) {
    CriteriaMet(w, item) && TestsMet(w, item) && EvidenceMet(w, item) && LocationsMet(w, item)
  }

  lemma PassedMeans(results: map<string, string>, key: string)
    ensures StatusOf(results, key) == "PASS" <==> Passed(results, key)
  {
    assert "NOT_RUN"[0] != "PASS"[0];
  }

  lemma CriteriaDecide(w: World, item: Item)
    ensures CriteriaReasons(w, item) == [] <==> CriteriaMet(w, item)
  {
    var f := c => CriterionReasons(w, c);
    forall c ensures f(c) == [] <==> c.status == "VERIFIED" && Passed(w.commands, c.command) { PassedMeans(w.commands, c.command); }
    FlatMapEmpty(f, item.criteria);
  }

  lemma TestsDecide(w: World, item: Item)
    ensures TestsReasons(w, item) == [] <==> TestsMet(w, item)
  {
    var f := t => TestReasons(w, t);
    forall t ensures f(t) == [] <==> Passed(w.tests, t) { PassedMeans(w.tests, t); }
    FlatMapEmpty(f, Dedupe(item.requiredTests));
    DedupeSpec(item.requiredTests);
  }

  lemma EvidenceDecides(w: World, item: Item)
    ensures AttachmentReasons(w, item) == [] <==> EvidenceMet(w, item)
  {
    var f, h := e => AttachedReasons(item, e), e => EvidenceReasons(w, e);
    assert forall e :: f(e) == [] <==> e in item.completionEvidence;
    assert forall e :: h(e) == [] <==> Proven(w, e);
    FlatMapEmpty(f, item.evidenceRequired);
    FlatMapEmpty(h, item.completionEvidence);
  }

  lemma LocationsDecide(w: World, item: Item)
    ensures LocationReasons(w, item) == [] <==> LocationsMet(w, item)
  {
    var f := p => PathReasons(w, p);
    assert forall p :: f(p) == [] <==> p in w.paths;
    FlatMapEmpty(f, item.expectedArtifacts);
    FlatMapEmpty(f, item.expectedLocations);
  }

  /** The list of local reasons is empty exactly when the item meets every local condition. */
  lemma LocalReasonsDecide(w: World, item: Item)
    ensures LocalReasons(w, item) == [] <==> LocallyClean(w, item)
  {
    CriteriaDecide(w, item);
    TestsDecide(w, item);
    EvidenceDecides(w, item);
    LocationsDecide(w, item);
  }

  /** When each local reason is given. */
  ghost predicate Given(w: World, item: Item, r: Reason) {
    match r
    case AcceptanceNotVerified(id, st) =>
      exists c :: c in item.criteria && c.id == id && c.status == st && st != "VERIFIED"
    case FreshAcceptanceCommandFailed(id, st) =>
      exists c :: c in item.criteria && c.id == id && Failed(w.commands, c.command, st)
    case NoRequiredTests => item.requiredTests == []
    case FreshRequiredTestFailed(t, st) => t in item.requiredTests && Failed(w.tests, t, st)
    case NoCompletionEvidence => item.completionEvidence == []
    case RequiredEvidenceNotAttached(e) => e in item.evidenceRequired && e !in item.completionEvidence
    case EvidenceRecordMissing(e) => e in item.completionEvidence && e !in w.ledger
    case EvidenceNotVerifiedCurrent(e) => e in item.completionEvidence && e in w.ledger && !Proven(w, e)
    case ExpectedPathMissing(p) => (p in item.expectedArtifacts || p in item.expectedLocations) && p !in w.paths
    case UnresolvedBlockers(b) => b == item.blockers != []
    case _ => false
  }

  /** The status is `st`, and that is not a pass; what has no result was not run. */
  ghost predicate Failed(results: map<string, string>, key: string, st: string) {
    if key in results then st == results[key] != "PASS" else st == "NOT_RUN"
  }

  lemma FailedMeans(results: map<string, string>, key: string, st: string)
    ensures Failed(results, key, st) <==> StatusOf(results, key) == st && st != "PASS"
  {
    assert "NOT_RUN"[0] != "PASS"[0];
  }

  lemma CriteriaGive(w: World, item: Item, r: Reason)
    ensures r in CriteriaReasons(w, item) <==>
              (r.AcceptanceNotVerified? || r.FreshAcceptanceCommandFailed?) && Given(w, item, r)
  {
    var f := c => CriterionReasons(w, c);
    FlatMapMembers(f, item.criteria, r);
    forall c ensures r in f(c) <==>
        || (r.AcceptanceNotVerified? && c.id == r.criterion && c.status == r.status && r.status != "VERIFIED")
        || (r.FreshAcceptanceCommandFailed? && c.id == r.criterion && Failed(w.commands, c.command, r.status))
    {
      if r.FreshAcceptanceCommandFailed? { FailedMeans(w.commands, c.command, r.status); }
    }
  }

  lemma TestsGive(w: World, item: Item, r: Reason)
    ensures r in TestsReasons(w, item) <==> (r.NoRequiredTests? || r.FreshRequiredTestFailed?) && Given(w, item, r)
  {
    var f := t => TestReasons(w, t);
    FlatMapMembers(f, Dedupe(item.requiredTests), r);
    DedupeSpec(item.requiredTests);
    forall t ensures r in f(t) <==> r.FreshRequiredTestFailed? && t == r.test && Failed(w.tests, t, r.status) {
      if r.FreshRequiredTestFailed? { FailedMeans(w.tests, t, r.status); }
    }
  }

  /** A required test that is listed twice is reported once. */
  lemma TestsReportedOnce(w: World, item: Item)
    ensures Distinct(TestsReasons(w, item))
  {
    var f := t => TestReasons(w, t);
    DedupeSpec(item.requiredTests);
    FlatMapDistinct(f, Dedupe(item.requiredTests));
    if item.requiredTests == [] {
      assert TestsReasons(w, item) == [NoRequiredTests];
    } else {
      assert TestsReasons(w, item) == FlatMap(f, Dedupe(item.requiredTests));
    }
  }

  lemma EvidenceGives(w: World, item: Item, r: Reason)
    ensures r in AttachmentReasons(w, item) <==>
              && (r.NoCompletionEvidence? || r.RequiredEvidenceNotAttached? || r.EvidenceRecordMissing? || r.EvidenceNotVerifiedCurrent?)
              && Given(w, item, r)
  {
    var f, h := e => AttachedReasons(item, e), e => EvidenceReasons(w, e);
    FlatMapMembers(f, item.evidenceRequired, r);
    FlatMapMembers(h, item.completionEvidence, r);
    forall e ensures r in f(e) <==> r == RequiredEvidenceNotAttached(e) && e !in item.completionEvidence {}
    forall e ensures r in h(e) <==> (r == EvidenceRecordMissing(e) && e !in w.ledger)
                                    || (r == EvidenceNotVerifiedCurrent(e) && e in w.ledger && !Proven(w, e)) {}
  }

  lemma LocationsGive(w: World, item: Item, r: Reason)
    ensures r in LocationReasons(w, item) <==> (r.ExpectedPathMissing? || r.UnresolvedBlockers?) && Given(w, item, r)
  {
    var f := p => PathReasons(w, p);
    FlatMapMembers(f, item.expectedArtifacts, r);
    FlatMapMembers(f, item.expectedLocations, r);
    forall p ensures r in f(p) <==> r == ExpectedPathMissing(p) && p !in w.paths {}
  }

  /** Every local reason is given exactly when the item's fields and what is observed call for it. */
  lemma LocalReasonsExact(w: World, item: Item, r: Reason)
    ensures r in LocalReasons(w, item) <==> Given(w, item, r)
  {
    CriteriaGive(w, item, r);
    TestsGive(w, item, r);
    EvidenceGives(w, item, r);
    LocationsGive(w, item, r);
  }

  //
  // The graph of items.
  //

  /** `byId` is the item table (a later item replaces an earlier one with the same id), `children`
      lists the ids of the items that name a given parent. */
  datatype Graph = Graph(byId: map<string, Item>, children: map<string, seq<string>>)

  function Dependencies(g: Graph, id: string): set<string> {
    if id !in g.byId then {}
    else (set d | d in g.byId[id].dependencies) + (set d | d in g.byId[id].upstreamDependencies)
  }

  function Children(g: Graph, id: string): set<string> {
    if id in g.children then set c | c in g.children[id] else {}
  }

  function Links(g: Graph, id: string): set<string> {
    Dependencies(g, id) + Children(g, id)
  }

  ghost predicate Supported(g: Graph, id: string, s: set<string>) {
    forall y :: y in Links(g, id) ==> y in s
  }

  ghost predicate Closed(g: Graph, s: set<string>) {
    forall x :: x in s ==> Supported(g, x, s)
  }

  /** The greatest closed subset of `clean`. */
  ghost predicate GreatestClosed(g: Graph, clean: set<string>, s: set<string>) {
    && s <= clean && Closed(g, s)
    && forall t: set<string> :: t <= clean && Closed(g, t) ==> t <= s
  }

  ghost predicate IsPath(g: Graph, p: seq<string>) {
    p != [] && forall i :: 0 < i < |p| ==> p[i] in Links(g, p[i-1])
  }

  ghost predicate Reaches(g: Graph, x: string, y: string) {
    exists p :: IsPath(g, p) && p[0] == x && p[|p|-1] == y
  }

  lemma {:induction false} PathStaysInside(g: Graph, s: set<string>, p: seq<string>)
    requires Closed(g, s) && IsPath(g, p) && p[0] in s
    ensures p[|p|-1] in s
    decreases |p|
  {
    if |p| > 1 {
      PathStaysInside(g, s, p[..|p|-1]);
      assert p[|p|-1] in Links(g, p[|p|-2]);
    }
  }

  /** An item survives exactly when everything it reaches is clean. */
  lemma ConfirmedIffAllReachableClean(g: Graph, clean: set<string>, done: set<string>, x: string)
    requires GreatestClosed(g, clean, done)
    ensures x in done <==> forall y :: Reaches(g, x, y) ==> y in clean
  {
    if x in done {
      forall y | Reaches(g, x, y) ensures y in clean {
        var p :| IsPath(g, p) && p[0] == x && p[|p|-1] == y;
        PathStaysInside(g, done, p);
      }
    }
    if forall y :: Reaches(g, x, y) ==> y in clean {
      assert IsPath(g, [x]) && Reaches(g, x, x);
      var t := set z | z in clean && forall y :: Reaches(g, z, y) ==> y in clean;
      forall u, v | u in t && v in Links(g, u) ensures v in t {
        assert IsPath(g, [u, v]) && Reaches(g, u, v);
        forall y | Reaches(g, v, y) ensures y in clean {
          var p :| IsPath(g, p) && p[0] == v && p[|p|-1] == y;
          assert IsPath(g, [u] + p) && ([u] + p)[0] == u && ([u] + p)[|p|] == y;
          assert Reaches(g, u, y);
        }
      }
      assert Closed(g, t);
    }
  }

  //
  // The shrinking loop.
  //

  /** What the audit writes about an item it drops: only dependencies and children of the item,
      each list nonempty, and nobody on a list is confirmed. */
  ghost predicate Blames(g: Graph, id: string, reasons: seq<Reason>, done: set<string>) {
    && reasons != []
    && forall r :: r in reasons ==>
         || (r.DependencyNotVerifiedDone? && r.localIds != []
             && forall d :: d in r.localIds ==> d in Dependencies(g, id) && d !in done)
         || (r.ChildNotVerifiedDone? && r.localIds != []
             && forall d :: d in r.localIds ==> d in Children(g, id) && d !in done)
  }

  function Clean(local: map<string, seq<Reason>>): set<string> {
    set id | id in local && local[id] == []
  }

  /** The state of the loop: survivors have no reasons, dropped items have blame, items that were
      never clean keep exactly their own reasons. */
  ghost predicate Accounted(g: Graph, local: map<string, seq<Reason>>, done: set<string>,
                            reasons: map<string, seq<Reason>>)
  {
    && done <= Clean(local) && reasons.Keys == local.Keys
    && forall id :: id in local ==> Account(g, local[id], id, done, reasons[id])
  }

  ghost predicate Account(g: Graph, own: seq<Reason>, id: string, done: set<string>, reasons: seq<Reason>) {
    if id in done then reasons == []
    else if own == [] then Blames(g, id, reasons, done)
    else reasons == own
  }

  /** No closed set of clean items loses a member. */
  ghost predicate NothingLost(g: Graph, clean: set<string>, done: set<string>) {
    forall t: set<string> :: t <= clean && Closed(g, t) ==> t <= done
  }

  lemma BlamesFewer(g: Graph, id: string, reasons: seq<Reason>, done: set<string>, fewer: set<string>)
    requires Blames(g, id, reasons, done) && fewer <= done
    ensures Blames(g, id, reasons, fewer)
  {}

  lemma DropKeepsAccount(g: Graph, local: map<string, seq<Reason>>, done: set<string>,
                         reasons: map<string, seq<Reason>>, id: string, blame: seq<Reason>)
    requires Accounted(g, local, done, reasons) && id in done
    requires Blames(g, id, blame, done)
    ensures Accounted(g, local, done - {id}, reasons[id := reasons[id] + blame])
  {
    var done', after := done - {id}, reasons[id := reasons[id] + blame];
    assert Account(g, local[id], id, done, reasons[id]);
    assert reasons[id] + blame == blame;
    BlamesFewer(g, id, blame, done, done');
    forall x | x in local ensures Account(g, local[x], x, done', after[x]) {
      if x != id {
        assert Account(g, local[x], x, done, reasons[x]);
        if x !in done && local[x] == [] { BlamesFewer(g, x, reasons[x], done, done'); }
      }
    }
  }

  /** A blamed item is in no closed set of survivors. */
  lemma BlamedIsOutside(g: Graph, done: set<string>, id: string, blame: seq<Reason>, t: set<string>)
    requires Blames(g, id, blame, done) && t <= done && Closed(g, t)
    ensures id !in t
  {
    var r := blame[0];
    assert r in blame;
    var d := r.localIds[0];
    assert d in r.localIds;
    assert d in Links(g, id) && d !in done;
    assert Supported(g, id, t) ==> d in t;
  }

  lemma DropLosesNothing(g: Graph, clean: set<string>, done: set<string>, id: string, blame: seq<Reason>)
    requires NothingLost(g, clean, done) && Blames(g, id, blame, done)
    ensures NothingLost(g, clean, done - {id})
  {
    forall t: set<string> | t <= clean && Closed(g, t) ensures t <= done - {id} {
      BlamedIsOutside(g, done, id, blame, t);
    }
  }

  ghost predicate Sound(g: Graph, local: map<string, seq<Reason>>, done: set<string>,
                        reasons: map<string, seq<Reason>>)
  {
    Accounted(g, local, done, reasons) && NothingLost(g, Clean(local), done)
  }

  /** One visit: the reasons, if any, for dropping `id` from the current survivors. */
  method Visit(g: Graph, done: set<string>, id: string) returns (blame: seq<Reason>)
    ensures blame == [] <==> Supported(g, id, done)
    ensures blame != [] ==> Blames(g, id, blame, done)
  {
    var failedDependencies := Ascending(set d | d in Dependencies(g, id) && d !in done);
    var failedChildren := Ascending(set d | d in Children(g, id) && d !in done);
    blame := [];
    if failedDependencies != [] {
      assert failedDependencies[0] in failedDependencies;
      blame := blame + [DependencyNotVerifiedDone(failedDependencies)];
    }
    if failedChildren != [] {
      assert failedChildren[0] in failedChildren;
      blame := blame + [ChildNotVerifiedDone(failedChildren)];
    }
    forall y | failedDependencies == [] && failedChildren == [] && y in Links(g, id) ensures y in done {
      assert y !in failedDependencies && y !in failedChildren;
    }
  }

  /** A visit that drops `id` from the live set when anything it links to is not there. */
  method VisitAndDrop(g: Graph, local: map<string, seq<Reason>>, start: set<string>,
                      before: map<string, seq<Reason>>, id: string)
    returns (done: set<string>, reasons: map<string, seq<Reason>>, dropped: bool)
    requires Sound(g, local, start, before) && id in start
    ensures Sound(g, local, done, reasons)
    ensures dropped <==> !Supported(g, id, start)
    ensures done == if dropped then start - {id} else start
  {
    done, reasons := start, before;
    var blame := Visit(g, start, id);
    dropped := blame != [];
    if dropped {
      DropKeepsAccount(g, local, start, before, id, blame);
      DropLosesNothing(g, Clean(local), start, id, blame);
      reasons := reasons[id := reasons[id] + blame];
      done := done - {id};
    }
  }

  /** One pass over a snapshot of the survivors, in any order, dropping from the live set as it
      goes; every visited item is still there when its turn comes. */
  method Pass(g: Graph, local: map<string, seq<Reason>>, start: set<string>, before: map<string, seq<Reason>>, snapshot: seq<string>)
    returns (done: set<string>, reasons: map<string, seq<Reason>>, changed: bool)
    requires Sound(g, local, start, before)
    requires Distinct(snapshot) && forall k :: 0 <= k < |snapshot| ==> snapshot[k] in start
    ensures Sound(g, local, done, reasons)
    ensures if changed then done < start else done == start
    ensures !changed ==> forall k :: 0 <= k < |snapshot| ==> Supported(g, snapshot[k], start)
  {
    done, reasons, changed := start, before, false;
    var i := 0;
    while i < |snapshot|
      invariant 0 <= i <= |snapshot|
      invariant forall k :: i <= k < |snapshot| ==> snapshot[k] in done
      invariant Sound(g, local, done, reasons)
      invariant if changed then done < start else done == start
      invariant !changed ==> forall k :: 0 <= k < i ==> Supported(g, snapshot[k], start)
    {
      var dropped;
      done, reasons, dropped := VisitAndDrop(g, local, done, reasons, snapshot[i]);
      changed := changed || dropped;
      i := i + 1;
    }
  }

  /** `visit(n, s)` is the order in which pass `n` visits the survivors `s`: each of them once. */
  ghost predicate Arranges(visit: (nat, set<string>) -> seq<string>) {
    forall n, s :: Lists(visit(n, s), s)
  }

  ghost predicate Lists(q: seq<string>, s: set<string>) {
    Distinct(q) && forall x :: x in q <==> x in s
  }

  /** Passes until nothing changes, each in an order of its own: the survivors are the greatest closed
      set whatever the orders are. */
  method Shrink(g: Graph, local: map<string, seq<Reason>>, visit: (nat, set<string>) -> seq<string>)
    returns (done: set<string>, reasons: map<string, seq<Reason>>, passes: nat)
    requires Arranges(visit)
    ensures GreatestClosed(g, Clean(local), done)
    ensures Accounted(g, local, done, reasons)
    ensures passes <= |Clean(local)| + 1
  {
    done := Clean(local);
    reasons := local;
    passes := 0;
    var changed := true;
    while changed
      invariant Sound(g, local, done, reasons)
      invariant passes + |done| <= |Clean(local)| + if changed then 0 else 1
      invariant !changed ==> Closed(g, done)
      decreases changed, |done|
    {
      ghost var start := done;
      var snapshot := visit(passes, done);
      assert Lists(snapshot, start);
      done, reasons, changed := Pass(g, local, done, reasons, snapshot);
      if changed { SubsetSize(done, start); }
      passes := passes + 1;
    }
  }

  /** The order the script takes. */
  function InOrder(pass: nat, s: set<string>): seq<string> { Ascending(s) }

  lemma InOrderArranges()
    ensures Arranges(InOrder)
  {
    forall n: nat, s: set<string> ensures Lists(InOrder(n, s), s) { AscendingDistinct(s); }
  }

  //
  // The whole audit.
  //

  predicate ClaimsDone(item: Item) { item.state == "DONE" }

  function Claims(issues: seq<Item>): (r: seq<Item>)
    ensures forall x :: x in r <==> x in issues && x.state == "DONE"
  {
    if issues == [] then []
    else
      var front := Claims(issues[..|issues|-1]);
      if ClaimsDone(issues[|issues|-1]) then front + [issues[|issues|-1]] else front
  }

  /** Items are read once; a later item replaces an earlier one with the same id. */
  function GraphOf(issues: seq<Item>): Graph {
    if issues == [] then Graph(map[], map[])
    else
      var g, item := GraphOf(issues[..|issues|-1]), issues[|issues|-1];
      Graph(g.byId[item.localId := item],
            if item.parent == "" then g.children
            else g.children[item.parent :=
                              (if item.parent in g.children then g.children[item.parent] else []) + [item.localId]])
  }

  /** The children of an item are exactly the items that name it as their parent. */
  lemma {:induction false} ChildrenAreConverseOfParent(issues: seq<Item>, id: string, c: string)
    ensures c in Children(GraphOf(issues), id)
       <==> id != "" && exists x :: x in issues && x.parent == id && x.localId == c
  {
    if issues != [] {
      var front, last := issues[..|issues|-1], issues[|issues|-1];
      ChildrenAreConverseOfParent(front, id, c);
      assert issues == front + [last];
      assert forall x :: x in issues <==> x in front || x == last;
    }
  }

  /** `x` is the last issue with its id: the one that stands for it. */
  ghost predicate Stands(issues: seq<Item>, x: Item) {
    exists i :: 0 <= i < |issues| && issues[i] == x && forall j :: i < j < |issues| ==> issues[j].localId != x.localId
  }

  lemma {:induction false} TableHoldsStanding(issues: seq<Item>, id: string)
    ensures id in GraphOf(issues).byId <==> exists x :: Stands(issues, x) && x.localId == id
    ensures id in GraphOf(issues).byId ==>
              Stands(issues, GraphOf(issues).byId[id]) && GraphOf(issues).byId[id].localId == id
  {
    if issues != [] {
      var front, last := issues[..|issues|-1], issues[|issues|-1];
      TableHoldsStanding(front, id);
      forall x ensures Stands(issues, x) <==> x == last || (Stands(front, x) && x.localId != last.localId) {
        StandsSnoc(front, last, x);
        assert issues == front + [last];
      }
    }
  }

  lemma StandsSnoc(front: seq<Item>, last: Item, x: Item)
    ensures Stands(front + [last], x) <==> x == last || (Stands(front, x) && x.localId != last.localId)
  {
    var all := front + [last];
    if Stands(all, x) {
      var i :| 0 <= i < |all| && all[i] == x && forall j :: i < j < |all| ==> all[j].localId != x.localId;
      if i < |front| {
        assert front[i] == x && all[|front|].localId != x.localId;
        assert forall j :: i < j < |front| ==> front[j] == all[j];
      }
    }
    if x == last { assert all[|front|] == x; }
    if Stands(front, x) && x.localId != last.localId {
      var i :| 0 <= i < |front| && front[i] == x && forall j :: i < j < |front| ==> front[j].localId != x.localId;
      assert all[i] == x;
      assert forall j :: i < j < |all| ==> all[j] == if j < |front| then front[j] else last;
    }
  }

  lemma StandingUnique(issues: seq<Item>, x: Item, y: Item)
    requires Stands(issues, x) && Stands(issues, y) && x.localId == y.localId
    ensures x == y
  {
    var i :| 0 <= i < |issues| && issues[i] == x && forall j :: i < j < |issues| ==> issues[j].localId != x.localId;
    var k :| 0 <= k < |issues| && issues[k] == y && forall j :: k < j < |issues| ==> issues[j].localId != y.localId;
    assert i == k;
  }

  /** In the fields of the issues: the one standing for `id` names `d` as a dependency. */
  ghost predicate NamesDependency(issues: seq<Item>, id: string, d: string) {
    exists x :: Stands(issues, x) && x.localId == id && (d in x.dependencies || d in x.upstreamDependencies)
  }

  /** Some issue with local id `d` names `id` as its parent. */
  ghost predicate HasChild(issues: seq<Item>, id: string, d: string) {
    id != "" && exists x :: x in issues && x.localId == d && x.parent == id
  }

  ghost predicate Leads(issues: seq<Item>, id: string, d: string) {
    NamesDependency(issues, id, d) || HasChild(issues, id, d)
  }

  lemma LinksAreFields(issues: seq<Item>, id: string, d: string)
    ensures d in Dependencies(GraphOf(issues), id) <==> NamesDependency(issues, id, d)
    ensures d in Children(GraphOf(issues), id) <==> HasChild(issues, id, d)
    ensures d in Links(GraphOf(issues), id) <==> Leads(issues, id, d)
  {
    var g := GraphOf(issues);
    ChildrenAreConverseOfParent(issues, id, d);
    TableHoldsStanding(issues, id);
    if id in g.byId {
      forall x | Stands(issues, x) && x.localId == id ensures x == g.byId[id] { StandingUnique(issues, x, g.byId[id]); }
    }
  }

  ghost predicate IssuePath(issues: seq<Item>, p: seq<string>) {
    p != [] && forall i :: 0 < i < |p| ==> Leads(issues, p[i-1], p[i])
  }

  ghost predicate LeadsTo(issues: seq<Item>, x: string, y: string) {
    exists p :: IssuePath(issues, p) && p[0] == x && p[|p|-1] == y
  }

  lemma PathsAreFields(issues: seq<Item>, p: seq<string>)
    ensures IsPath(GraphOf(issues), p) <==> IssuePath(issues, p)
  {
    forall i | 0 < i < |p| ensures p[i] in Links(GraphOf(issues), p[i-1]) <==> Leads(issues, p[i-1], p[i]) {
      LinksAreFields(issues, p[i-1], p[i]);
    }
  }

  lemma ReachesIsLeadsTo(issues: seq<Item>, x: string, y: string)
    ensures Reaches(GraphOf(issues), x, y) <==> LeadsTo(issues, x, y)
  {
    if Reaches(GraphOf(issues), x, y) {
      var p :| IsPath(GraphOf(issues), p) && p[0] == x && p[|p|-1] == y;
      PathsAreFields(issues, p);
    }
    if LeadsTo(issues, x, y) {
      var p :| IssuePath(issues, p) && p[0] == x && p[|p|-1] == y;
      PathsAreFields(issues, p);
    }
  }

  method BuildGraph(issues: seq<Item>) returns (g: Graph)
    ensures g == GraphOf(issues)
  {
    var byId: map<string, Item> := map[];
    var children: map<string, seq<string>> := map[];
    for i := 0 to |issues|
      invariant Graph(byId, children) == GraphOf(issues[..i])
    {
      var item := issues[i];
      assert issues[..i+1][..i] == issues[..i];
      byId := byId[item.localId := item];
      if item.parent != "" {
        var known := if item.parent in children then children[item.parent] else [];
        children := children[item.parent := known + [item.localId]];
      }
    }
    assert issues[..|issues|] == issues;
    g := Graph(byId, children);
  }

  method AppendAll<T>(start: seq<Reason>, xs: seq<T>, f: T -> seq<Reason>) returns (reasons: seq<Reason>)
    ensures reasons == start + FlatMap(f, xs)
  {
    reasons := start;
    for i := 0 to |xs|
      invariant reasons == start + FlatMap(f, xs[..i])
    {
      FlatMapSnoc(f, xs[..i], xs[i]);
      assert xs[..i+1] == xs[..i] + [xs[i]];
      reasons := reasons + f(xs[i]);
    }
    assert xs[..|xs|] == xs;
  }

  method JudgeEvidence(w: World, item: Item, start: seq<Reason>) returns (reasons: seq<Reason>)
    ensures reasons == start + AttachmentReasons(w, item)
  {
    reasons := start;
    if item.completionEvidence == [] { reasons := reasons + [NoCompletionEvidence]; }
    reasons := AppendAll(reasons, item.evidenceRequired, e => AttachedReasons(item, e));
    reasons := AppendAll(reasons, item.completionEvidence, e => EvidenceReasons(w, e));
  }

  method JudgeLocations(w: World, item: Item, start: seq<Reason>) returns (reasons: seq<Reason>)
    ensures reasons == start + LocationReasons(w, item)
  {
    reasons := AppendAll(start, item.expectedArtifacts, p => PathReasons(w, p));
    reasons := AppendAll(reasons, item.expectedLocations, p => PathReasons(w, p));
    if item.blockers != [] { reasons := reasons + [UnresolvedBlockers(item.blockers)]; }
  }

  method JudgeCriteria(w: World, item: Item, start: seq<Reason>) returns (reasons: seq<Reason>)
    ensures reasons == start + CriteriaReasons(w, item)
  {
    reasons := AppendAll(start, item.criteria, c => CriterionReasons(w, c));
  }

  method JudgeTests(w: World, item: Item, start: seq<Reason>) returns (reasons: seq<Reason>)
    ensures reasons == start + TestsReasons(w, item)
  {
    reasons := start;
    if item.requiredTests == [] { reasons := reasons + [NoRequiredTests]; }
    reasons := AppendAll(reasons, Dedupe(item.requiredTests), t => TestReasons(w, t));
  }

  lemma Regroup<T>(start: seq<T>, a: seq<T>, b: seq<T>, c: seq<T>, d: seq<T>)
    ensures (((start + a) + b) + c) + d == start + (a + b + c + d)
  {}

  /** Appends the local reasons of one item to the list kept under its id. */
  method JudgeItem(w: World, item: Item, start: seq<Reason>) returns (reasons: seq<Reason>)
    ensures reasons == start + LocalReasons(w, item)
  {
    reasons := JudgeCriteria(w, item, start);
    reasons := JudgeTests(w, item, reasons);
    reasons := JudgeEvidence(w, item, reasons);
    reasons := JudgeLocations(w, item, reasons);
    Regroup(start, CriteriaReasons(w, item), TestsReasons(w, item), AttachmentReasons(w, item), LocationReasons(w, item));
  }

  /** The list of reasons under one id, in the order the claims are judged. */
  function Tabulate(claims: seq<Item>, f: Item -> seq<Reason>, id: string): seq<Reason> {
    if claims == [] then []
    else
      Tabulate(claims[..|claims|-1], f, id) +
      if claims[|claims|-1].localId == id then f(claims[|claims|-1]) else []
  }

  lemma {:induction false} TabulateEmpty(claims: seq<Item>, f: Item -> seq<Reason>, id: string)
    ensures Tabulate(claims, f, id) == [] <==> forall x :: x in claims && x.localId == id ==> f(x) == []
  {
    if claims != [] {
      TabulateEmpty(claims[..|claims|-1], f, id);
      assert forall x :: x in claims <==> x in claims[..|claims|-1] || x == claims[|claims|-1];
    }
  }

  function Judge(w: World): Item -> seq<Reason> { (x: Item) => LocalReasons(w, x) }

  /** The reasons table: one list per claimed id. */
  ghost predicate Tabled(w: World, claims: seq<Item>, local: map<string, seq<Reason>>) {
    && local.Keys == Ids(claims)
    && forall id :: id in local ==> local[id] == Tabulate(claims, Judge(w), id)
  }

  function Ids(claims: seq<Item>): set<string> { set x | x in claims :: x.localId }

  method JudgeClaims(w: World, claims: seq<Item>) returns (local: map<string, seq<Reason>>)
    ensures Tabled(w, claims, local)
  {
    local := map id | id in Ids(claims) :: [];
    for i := 0 to |claims|
      invariant local.Keys == Ids(claims)
      invariant forall id :: id in local ==> local[id] == Tabulate(claims[..i], Judge(w), id)
    {
      var item := claims[i];
      assert item in claims && item.localId in Ids(claims);
      assert claims[..i+1][..i] == claims[..i];
      var judged := JudgeItem(w, item, local[item.localId]);
      assert judged == local[item.localId] + Judge(w)(item);
      local := local[item.localId := judged];
    }
    assert claims[..|claims|] == claims;
  }

  /** `id` is claimed done, and every item claiming it is clean on its own. */
  ghost predicate CleanClaim(w: World, issues: seq<Item>, id: string) {
    && (exists x :: x in issues && x.state == "DONE" && x.localId == id)
    && forall x :: x in issues && x.state == "DONE" && x.localId == id ==> LocallyClean(w, x)
  }

  lemma CleanMeansCleanClaim(w: World, issues: seq<Item>, local: map<string, seq<Reason>>, id: string)
    requires Tabled(w, Claims(issues), local)
    ensures id in Clean(local) <==> CleanClaim(w, issues, id)
  {
    var claims := Claims(issues);
    TabulateEmpty(claims, Judge(w), id);
    forall x | x in claims ensures Judge(w)(x) == [] <==> LocallyClean(w, x) { JudgeDecides(w, x); }
  }

  lemma JudgeDecides(w: World, x: Item)
    ensures Judge(w)(x) == [] <==> LocallyClean(w, x)
  {
    LocalReasonsDecide(w, x);
  }

  predicate IdLe(a: Item, b: Item) { StringLe(a.localId, b.localId) }

  lemma IdLeTotal()
    ensures TotalPreorder(IdLe)
  {
    StringLeIsTotalOrder();
    forall x, y, z | IdLe(x, y) && IdLe(y, z) ensures IdLe(x, z) {}
  }

  datatype Row = Row(localId: string, confirmed: bool, reasons: seq<Reason>)

  /** Everything the issue leads to, through the dependencies issues name and the parents issues name,
      is claimed done and clean on its own. */
  ghost predicate Deserves(w: World, issues: seq<Item>, id: string) {
    forall y :: LeadsTo(issues, id, y) ==> CleanClaim(w, issues, y)
  }

  /** Somebody who claims `id` done gives this reason against it. */
  ghost predicate GivenFor(w: World, issues: seq<Item>, id: string, r: Reason) {
    exists x :: x in issues && x.state == "DONE" && x.localId == id && Given(w, x, r)
  }

  /** The reason names dependencies, or children, of the item that are not confirmed. */
  ghost predicate BlamesUndeserving(w: World, issues: seq<Item>, id: string, r: Reason) {
    || (r.DependencyNotVerifiedDone? && r.localIds != []
        && forall d :: d in r.localIds ==> NamesDependency(issues, id, d) && !Deserves(w, issues, d))
    || (r.ChildNotVerifiedDone? && r.localIds != []
        && forall d :: d in r.localIds ==> HasChild(issues, id, d) && !Deserves(w, issues, d))
  }

  /** An item is confirmed exactly when it deserves it, and exactly when its row carries no reason. An
      item that is not clean on its own carries exactly the reasons given for it; one that is carries
      only unconfirmed dependencies and children. */
  ghost predicate Faithful(w: World, issues: seq<Item>, row: Row) {
    && (row.confirmed <==> Deserves(w, issues, row.localId))
    && (row.confirmed <==> row.reasons == [])
    && (!CleanClaim(w, issues, row.localId) ==> forall r :: r in row.reasons <==> GivenFor(w, issues, row.localId, r))
    && (CleanClaim(w, issues, row.localId) ==> forall r :: r in row.reasons ==> BlamesUndeserving(w, issues, row.localId, r))
  }

  method AuditClaims(w: World, issues: seq<Item>) returns (rows: seq<Row>)
    ensures |rows| == |SortBy(IdLe, Claims(issues))|
    ensures forall i :: 0 <= i < |rows| ==> rows[i].localId == SortBy(IdLe, Claims(issues))[i].localId
    ensures forall i, j :: 0 <= i < j < |rows| ==> StringLe(rows[i].localId, rows[j].localId)
    ensures forall x :: x in issues && x.state == "DONE" ==> exists i :: 0 <= i < |rows| && rows[i].localId == x.localId
    ensures forall i :: 0 <= i < |rows| ==> Faithful(w, issues, rows[i])
  {
    var g := BuildGraph(issues);
    var claims := Claims(issues);
    var local := JudgeClaims(w, claims);
    InOrderArranges();
    var done, reasons, _ := Shrink(g, local, InOrder);
    var ordered := SortBy(IdLe, claims);
    assert forall x :: x in ordered <==> x in claims by {
      IdLeTotal();
      SortByMembers(IdLe, claims);
    }
    forall x | x in ordered ensures x.localId in reasons { assert x.localId in Ids(claims); }
    rows := WriteRows(ordered, done, reasons);
    RowsInOrder(claims, ordered, rows);
    forall i | 0 <= i < |rows| ensures Faithful(w, issues, rows[i]) {
      assert ordered[i] in ordered;
      RowIsFaithful(w, issues, local, done, reasons, rows[i]);
    }
  }

  lemma RowsInOrder(claims: seq<Item>, ordered: seq<Item>, rows: seq<Row>)
    requires ordered == SortBy(IdLe, claims) && |rows| == |ordered|
    requires forall k :: 0 <= k < |rows| ==> rows[k].localId == ordered[k].localId
    ensures forall i, j :: 0 <= i < j < |rows| ==> StringLe(rows[i].localId, rows[j].localId)
    ensures forall x :: x in claims ==> exists i :: 0 <= i < |rows| && rows[i].localId == x.localId
  {
    IdLeTotal();
    SortBySorted(IdLe, claims);
    SortByMembers(IdLe, claims);
    forall i, j | 0 <= i < j < |rows| ensures StringLe(rows[i].localId, rows[j].localId) { assert IdLe(ordered[i], ordered[j]); }
    forall x | x in claims ensures exists i :: 0 <= i < |rows| && rows[i].localId == x.localId {
      var i :| 0 <= i < |ordered| && ordered[i] == x;
      assert rows[i].localId == x.localId;
    }
  }

  method WriteRows(ordered: seq<Item>, done: set<string>, reasons: map<string, seq<Reason>>) returns (rows: seq<Row>)
    requires forall x :: x in ordered ==> x.localId in reasons
    ensures |rows| == |ordered|
    ensures forall k :: 0 <= k < |rows| ==>
              rows[k] == Row(ordered[k].localId, ordered[k].localId in done, reasons[ordered[k].localId])
  {
    rows := [];
    for i := 0 to |ordered|
      invariant |rows| == i
      invariant forall k :: 0 <= k < i ==>
                  rows[k] == Row(ordered[k].localId, ordered[k].localId in done, reasons[ordered[k].localId])
    {
      var id := ordered[i].localId;
      rows := rows + [Row(id, id in done, reasons[id])];
    }
  }

  lemma {:induction false} TabulateMembers(claims: seq<Item>, f: Item -> seq<Reason>, id: string, r: Reason)
    ensures r in Tabulate(claims, f, id) <==> exists x :: x in claims && x.localId == id && r in f(x)
  {
    if claims != [] {
      TabulateMembers(claims[..|claims|-1], f, id, r);
      assert forall x :: x in claims <==> x in claims[..|claims|-1] || x == claims[|claims|-1];
    }
  }

  lemma OwnReasons(w: World, issues: seq<Item>, local: map<string, seq<Reason>>, id: string, r: Reason)
    requires Tabled(w, Claims(issues), local) && id in local
    ensures r in local[id] <==> GivenFor(w, issues, id, r)
  {
    TabulateMembers(Claims(issues), Judge(w), id, r);
    forall x ensures r in Judge(w)(x) <==> Given(w, x, r) { LocalReasonsExact(w, x, r); }
  }

  /** The survivors are the items that deserve it. */
  lemma DoneMeansDeserves(w: World, issues: seq<Item>, local: map<string, seq<Reason>>, done: set<string>, id: string)
    requires Tabled(w, Claims(issues), local) && GreatestClosed(GraphOf(issues), Clean(local), done)
    ensures id in done <==> Deserves(w, issues, id)
  {
    ConfirmedIffAllReachableClean(GraphOf(issues), Clean(local), done, id);
    forall y
      ensures y in Clean(local) <==> CleanClaim(w, issues, y)
      ensures Reaches(GraphOf(issues), id, y) <==> LeadsTo(issues, id, y)
    {
      CleanMeansCleanClaim(w, issues, local, y);
      ReachesIsLeadsTo(issues, id, y);
    }
  }

  lemma BlameIsFields(w: World, issues: seq<Item>, local: map<string, seq<Reason>>, done: set<string>,
                      id: string, reasons: seq<Reason>, r: Reason)
    requires Tabled(w, Claims(issues), local) && GreatestClosed(GraphOf(issues), Clean(local), done)
    requires Blames(GraphOf(issues), id, reasons, done) && r in reasons
    ensures BlamesUndeserving(w, issues, id, r)
  {
    forall d | d in r.localIds
      ensures d !in done ==> !Deserves(w, issues, d)
      ensures d in Dependencies(GraphOf(issues), id) <==> NamesDependency(issues, id, d)
      ensures d in Children(GraphOf(issues), id) <==> HasChild(issues, id, d)
    {
      DoneMeansDeserves(w, issues, local, done, d);
      LinksAreFields(issues, id, d);
    }
  }

  lemma RowIsFaithful(w: World, issues: seq<Item>, local: map<string, seq<Reason>>, done: set<string>,
                      reasons: map<string, seq<Reason>>, row: Row)
    requires Tabled(w, Claims(issues), local)
    requires GreatestClosed(GraphOf(issues), Clean(local), done)
    requires Accounted(GraphOf(issues), local, done, reasons)
    requires row.localId in local
    requires row == Row(row.localId, row.localId in done, reasons[row.localId])
    ensures Faithful(w, issues, row)
  {
    var id := row.localId;
    DoneMeansDeserves(w, issues, local, done, id);
    CleanMeansCleanClaim(w, issues, local, id);
    assert Account(GraphOf(issues), local[id], id, done, reasons[id]);
    if local[id] != [] {
      forall r ensures r in row.reasons <==> GivenFor(w, issues, id, r) { OwnReasons(w, issues, local, id, r); }
    } else if id !in done {
      forall r | r in row.reasons ensures BlamesUndeserving(w, issues, id, r) {
        BlameIsFields(w, issues, local, done, id, row.reasons, r);
      }
    }
  }

  /** The survivors do not depend on the order of visits: there is only one greatest closed set. */
  lemma SurvivorsUnique(g: Graph, clean: set<string>, one: set<string>, other: set<string>)
    requires GreatestClosed(g, clean, one) && GreatestClosed(g, clean, other)
    ensures one == other
  {
    assert one <= other && other <= one;
  }
}
