/** The write-ahead revocation of one credential envelope.

A revocation first writes a durable REVOCATION_INTENT receipt, then deletes the envelope, reads
back, and rewrites the receipt with the outcome. A later call on the same receipt path reconciles
whatever an interrupted call left behind. The disk is a map from paths to files; receipts and
envelopes live on the same disk and any call may name any path, so a receipt path may also be the
destination of some other credential. One process runs at a time and may die between any two
durable actions. Provisioning creates an envelope only when its path is free, and removes it again
when the access list cannot be restricted.
 */
module Revocation {
  import opened Wrappers

  type Path = string
  type Scope = map<string, string>

  datatype ReceiptState =
    | RevocationIntent
    | Revoked
    | RevokedReconciled
    | DeleteFailed
    | DeleteReadbackFailed
    | Unrecognized(text: string)

  datatype Receipt = Receipt(
    state: ReceiptState,
    reference: string,
    destination: Path,
    digest: string,
    scope: Scope,
    revoked: bool,
    readbackAbsent: bool)

  /** What a file holds: text that is not a JSON object, an object of another kind (an envelope is
      one), or a revocation receipt. */
  datatype File =
    | NotAnObject(text: string)
    | Document(reference: Option<string>, scope: Option<Scope>, payload: string)
    | ReceiptFile(receipt: Receipt)

  /** The `reference` and `scope` members of a file read as a JSON object. */
  function ReferenceOf(f: File): Option<string> {
    match f
    case NotAnObject(_) => None
    case Document(r, _, _) => r
    case ReceiptFile(rc) => Some(rc.reference)
  }

  function ScopeOf(f: File): Option<Scope> {
    match f
    case NotAnObject(_) => None
    case Document(_, sc, _) => sc
    case ReceiptFile(rc) => Some(rc.scope)
  }

  /** `dest` locates the envelope of a reference, `digest` hashes a file, `safe` says whether a
      receipt path stays in the workspace and crosses no symbolic link. All three are arbitrary. */
  datatype Config = Config(dest: string -> Path, digest: File -> string, safe: Path -> bool)

  type Disk = map<Path, File>

  datatype Request = Request(reference: string, scope: Scope, receiptPath: Path)

  datatype Refusal =
    | ReceiptPathRejected
    | ReceiptMalformed
    | ReceiptMismatch
    | ConflictsWithPresentEnvelope
    | UnresolvedOutcome
    | IntentOutcomeUnknown
    | EnvelopeUnavailable
    | EnvelopeReferenceMismatch
    | EnvelopeScopeMismatch
    | DeletionFailed
    | ReadbackFailed

  /** What a call decides before its first durable action. */
  datatype Entry =
    | Refuse(why: Refusal)
    | AlreadyDone(receipt: Receipt)
    | Reconcile(receipt: Receipt)
    | Proceed(intent: Receipt)

  function OnExistingReceipt(c: Config, disk: Disk, q: Request): Entry
    requires q.receiptPath in disk
  {
    match disk[q.receiptPath]
    case NotAnObject(_) => Refuse(ReceiptMalformed)
    case Document(_, _, _) => Refuse(ReceiptMismatch)
    case ReceiptFile(rc) =>
      if rc.reference != q.reference || rc.scope != q.scope then Refuse(ReceiptMismatch)
      else if rc.state.Revoked? || rc.state.RevokedReconciled? then
        if c.dest(q.reference) in disk then Refuse(ConflictsWithPresentEnvelope) else AlreadyDone(rc)
      else if !rc.state.RevocationIntent? then Refuse(UnresolvedOutcome)
      else if c.dest(q.reference) in disk then Refuse(IntentOutcomeUnknown)
      else Reconcile(rc.(state := RevokedReconciled, revoked := true, readbackAbsent := true))
  }

  function OnFreshReceipt(c: Config, disk: Disk, q: Request): Entry {
    var d := c.dest(q.reference);
    if d !in disk || disk[d].NotAnObject? then Refuse(EnvelopeUnavailable)
    else if ReferenceOf(disk[d]) != Some(q.reference) then Refuse(EnvelopeReferenceMismatch)
    else if ScopeOf(disk[d]) != Some(q.scope) then Refuse(EnvelopeScopeMismatch)
    else Proceed(Receipt(RevocationIntent, q.reference, d, c.digest(disk[d]), q.scope, false, false))
  }

  function Enter(c: Config, disk: Disk, q: Request): Entry {
    if !c.safe(q.receiptPath) || q.receiptPath == c.dest(q.reference) then Refuse(ReceiptPathRejected)
    else if q.receiptPath in disk then OnExistingReceipt(c, disk, q)
    else OnFreshReceipt(c, disk, q)
  }

  /** `Unlinked` removes the file, `Lingering` reports success and leaves it visible, `Failed`
      raises an operating system error and leaves it in place. */
  datatype UnlinkOutcome = Unlinked | Lingering | Failed

  function FinalReceipt(intent: Receipt, u: UnlinkOutcome, present: bool): Receipt {
    if u.Failed? then intent.(state := DeleteFailed)
    else if present then intent.(state := DeleteReadbackFailed)
    else intent.(state := Revoked, revoked := true, readbackAbsent := true)
  }

  //
  // The step machine: one step per durable action, and a crash anywhere.
  //

  datatype Pc =
    | Idle
    | Requested(q: Request)
    | IntentWritten(q: Request, intent: Receipt)
    | AfterUnlink(q: Request, intent: Receipt, u: UnlinkOutcome)
    | Provisioned(path: Path)

  /** One call of unlink by a revocation, with the disk it met. */
  datatype Deletion = Deletion(q: Request, before: Disk)

  datatype State = State(disk: Disk, pc: Pc, deletions: seq<Deletion>)

  datatype AclOutcome = Restricted | RolledBack | RollbackFailed

  datatype Action =
    | Call(q: Request)
    | Advance(u: UnlinkOutcome)
    | Provision(reference: string, scope: Scope, payload: string)
    | Settle(acl: AclOutcome)
    | Crash

  function AdvanceStep(c: Config, s: State, u: UnlinkOutcome): State {
    match s.pc
    case Requested(q) =>
      (match Enter(c, s.disk, q)
       case Refuse(_) => s.(pc := Idle)
       case AlreadyDone(_) => s.(pc := Idle)
       case Reconcile(rc) => s.(disk := s.disk[q.receiptPath := ReceiptFile(rc)], pc := Idle)
       case Proceed(intent) =>
         s.(disk := s.disk[q.receiptPath := ReceiptFile(intent)], pc := IntentWritten(q, intent)))
    case IntentWritten(q, intent) =>
      var after := if u.Unlinked? then s.disk - {c.dest(q.reference)} else s.disk;
      State(after, AfterUnlink(q, intent, u), s.deletions + [Deletion(q, s.disk)])
    case AfterUnlink(q, intent, u0) =>
      var rc := FinalReceipt(intent, u0, c.dest(q.reference) in s.disk);
      s.(disk := s.disk[q.receiptPath := ReceiptFile(rc)], pc := Idle)
    case Idle => s
    case Provisioned(_) => s
  }

  /** An action the current program counter does not allow leaves the state as it is. */
  function Step(c: Config, s: State, a: Action): State {
    match a
    case Call(q) => if s.pc.Idle? then s.(pc := Requested(q)) else s
    case Advance(u) => AdvanceStep(c, s, u)
    case Provision(r, sc, p) =>
      if s.pc.Idle? && c.dest(r) !in s.disk
      then s.(disk := s.disk[c.dest(r) := Document(Some(r), Some(sc), p)], pc := Provisioned(c.dest(r)))
      else s
    case Settle(acl) =>
      if !s.pc.Provisioned? then s
      else if acl.RolledBack? then s.(disk := s.disk - {s.pc.path}, pc := Idle)
      else s.(pc := Idle)
    case Crash => s.(pc := Idle)
  }

  function Run(c: Config, s: State, run: seq<Action>): State {
    if run == [] then s else Step(c, Run(c, s, run[..|run|-1]), run[|run|-1])
  }

  function Boot(disk: Disk): State { State(disk, Idle, []) }

  //
  // The invariant.
  //

  /** The receipt at `q.receiptPath` is the one written for `q`, and its envelope lives elsewhere. */
  ghost predicate Stamped(c: Config, disk: Disk, q: Request) {
    && q.receiptPath in disk
    && disk[q.receiptPath].ReceiptFile?
    && disk[q.receiptPath].receipt.reference == q.reference
    && c.dest(q.reference) != q.receiptPath
  }

  /** An unlink that met the intent receipt for exactly the envelope it was about to remove. */
  ghost predicate Guarded(c: Config, d: Deletion) {
    var target := c.dest(d.q.reference);
    && target in d.before
    && d.q.receiptPath in d.before
    && target != d.q.receiptPath
    && d.before[d.q.receiptPath].ReceiptFile?
    && var rc := d.before[d.q.receiptPath].receipt;
    && rc.state.RevocationIntent?
    && rc.destination == target
    && rc.digest == c.digest(d.before[target])
    && ReferenceOf(d.before[target]) == Some(rc.reference)
    && ScopeOf(d.before[target]) == Some(rc.scope)
    && rc.reference == d.q.reference
    && rc.scope == d.q.scope
  }

  ghost predicate Unspent(s: State, p: Path) {
    forall i :: 0 <= i < |s.deletions| ==> s.deletions[i].q.receiptPath != p
  }

  ghost predicate PcInv(c: Config, s: State) {
    match s.pc
    case Idle => true
    case Requested(_) => true
    case IntentWritten(q, intent) =>
      && Guarded(c, Deletion(q, s.disk))
      && s.disk[q.receiptPath] == ReceiptFile(intent)
      && Unspent(s, q.receiptPath)
    case AfterUnlink(q, intent, u) =>
      && Stamped(c, s.disk, q)
      && s.disk[q.receiptPath] == ReceiptFile(intent)
      && intent.state.RevocationIntent?
      && intent.reference == q.reference && intent.scope == q.scope && intent.destination == c.dest(q.reference)
      && (u.Unlinked? <==> c.dest(q.reference) !in s.disk)
    case Provisioned(path) => path in s.disk && s.disk[path].Document?
  }

  ghost predicate Inv(c: Config, s: State) {
    PcInv(c, s) && Logged(c, s.disk, s.deletions)
  }

  /** The deletions so far are accounted for on `disk`. */
  ghost predicate Logged(c: Config, disk: Disk, log: seq<Deletion>) {
    && (forall i :: 0 <= i < |log| ==> Guarded(c, log[i]) && Stamped(c, disk, log[i].q))
    && (forall i, j :: 0 <= i < j < |log| ==> log[i].q.receiptPath != log[j].q.receiptPath)
  }

  /** Writing a receipt for the reference that is already there, or on a free path, disturbs no
      earlier deletion. */
  lemma WritingKeepsLog(c: Config, disk: Disk, log: seq<Deletion>, p: Path, rc: Receipt)
    requires Logged(c, disk, log)
    requires p in disk ==> disk[p].ReceiptFile? && disk[p].receipt.reference == rc.reference
    ensures Logged(c, disk[p := ReceiptFile(rc)], log)
  {
    forall i | 0 <= i < |log| ensures Stamped(c, disk[p := ReceiptFile(rc)], log[i].q) {
      assert Stamped(c, disk, log[i].q);
    }
  }

  /** Removing the envelope of `q` removes none of the receipts of earlier deletions. */
  lemma UnlinkingKeepsLog(c: Config, disk: Disk, log: seq<Deletion>, q: Request)
    requires Logged(c, disk, log)
    requires Guarded(c, Deletion(q, disk))
    requires ReferenceOf(disk[c.dest(q.reference)]) == Some(q.reference)
    ensures Logged(c, disk - {c.dest(q.reference)}, log)
  {
    forall i | 0 <= i < |log| ensures Stamped(c, disk - {c.dest(q.reference)}, log[i].q) {
      assert Stamped(c, disk, log[i].q);
    }
  }

  lemma AdvanceRequested(c: Config, s: State, u: UnlinkOutcome)
    requires Inv(c, s) && s.pc.Requested?
    ensures Inv(c, AdvanceStep(c, s, u))
  {
    var q := s.pc.q;
    var e := Enter(c, s.disk, q);
    if e.Reconcile? { WritingKeepsLog(c, s.disk, s.deletions, q.receiptPath, e.receipt); }
    if e.Proceed? { WritingKeepsLog(c, s.disk, s.deletions, q.receiptPath, e.intent); }
  }

  lemma AdvanceIntent(c: Config, s: State, u: UnlinkOutcome)
    requires Inv(c, s) && s.pc.IntentWritten?
    ensures Inv(c, AdvanceStep(c, s, u))
  {
    var q := s.pc.q;
    var after := if u.Unlinked? then s.disk - {c.dest(q.reference)} else s.disk;
    assert Logged(c, after, s.deletions) by {
      if u.Unlinked? { UnlinkingKeepsLog(c, s.disk, s.deletions, q); }
    }
    var log := s.deletions + [Deletion(q, s.disk)];
    assert Stamped(c, after, q);
    assert Logged(c, after, log);
  }

  lemma AdvanceAfterUnlink(c: Config, s: State, u: UnlinkOutcome)
    requires Inv(c, s) && s.pc.AfterUnlink?
    ensures Inv(c, AdvanceStep(c, s, u))
  {
    var rc := FinalReceipt(s.pc.intent, s.pc.u, c.dest(s.pc.q.reference) in s.disk);
    WritingKeepsLog(c, s.disk, s.deletions, s.pc.q.receiptPath, rc);
  }

  lemma AdvanceKeepsInv(c: Config, s: State, u: UnlinkOutcome)
    requires Inv(c, s)
    ensures Inv(c, AdvanceStep(c, s, u))
  {
    match s.pc
    case Requested(_) => AdvanceRequested(c, s, u);
    case IntentWritten(_, _) => AdvanceIntent(c, s, u);
    case AfterUnlink(_, _, _) => AdvanceAfterUnlink(c, s, u);
    case _ =>
  }

  lemma StepKeepsInv(c: Config, s: State, a: Action)
    requires Inv(c, s)
    ensures Inv(c, Step(c, s, a))
  {
    if a.Advance? { AdvanceKeepsInv(c, s, a.u); }
  }

  lemma {:induction false} RunKeepsInv(c: Config, s: State, run: seq<Action>)
    requires Inv(c, s)
    ensures Inv(c, Run(c, s, run))
  {
    if run != [] {
      RunKeepsInv(c, s, run[..|run|-1]);
      StepKeepsInv(c, Run(c, s, run[..|run|-1]), run[|run|-1]);
    }
  }

  /** Whatever was on the disk before, and however calls, crashes, retries and provisioning follow
      each other, a receipt path carries at most one deletion, and each deletion met the durable
      intent for exactly the file it was about to remove. */
  lemma AtMostOneGuardedDeletion(c: Config, disk: Disk, run: seq<Action>)
    ensures var log := Run(c, Boot(disk), run).deletions;
            && (forall i :: 0 <= i < |log| ==> Guarded(c, log[i]))
            && (forall i, j :: 0 <= i < j < |log| ==> log[i].q.receiptPath != log[j].q.receiptPath)
  {
    RunKeepsInv(c, Boot(disk), run);
  }

  //
  // The life of a receipt.
  //

  /** A receipt stands at `p` for an envelope kept somewhere else. */
  ghost predicate Standing(c: Config, disk: Disk, p: Path) {
    p in disk && disk[p].ReceiptFile? && c.dest(disk[p].receipt.reference) != p
  }

  predicate Finished(rc: Receipt) {
    rc.state.Revoked? || rc.state.RevokedReconciled?
  }

  /** Nothing happens to a receipt but the one move from intent to an outcome; the identity of the
      envelope never changes, and the outcome says revoked and absent exactly when it is finished. */
  ghost predicate Evolves(older: Receipt, newer: Receipt) {
    || newer == older
    || (&& older.state.RevocationIntent?
        && (Finished(newer) || newer.state.DeleteFailed? || newer.state.DeleteReadbackFailed?)
        && newer == older.(state := newer.state, revoked := Finished(newer) || older.revoked,
                           readbackAbsent := Finished(newer) || older.readbackAbsent))
  }

  lemma StepEvolves(c: Config, s: State, a: Action, p: Path)
    requires Inv(c, s)
    requires Standing(c, s.disk, p)
    ensures Standing(c, Step(c, s, a).disk, p)
    ensures Evolves(s.disk[p].receipt, Step(c, s, a).disk[p].receipt)
  {
  }

  /** A standing receipt stays, and evolves, through every continuation of the run. */
  lemma {:induction false} RunEvolves(c: Config, s: State, run: seq<Action>, p: Path)
    requires Inv(c, s)
    requires Standing(c, s.disk, p)
    ensures Standing(c, Run(c, s, run).disk, p)
    ensures Evolves(s.disk[p].receipt, Run(c, s, run).disk[p].receipt)
  {
    if run != [] {
      var m := Run(c, s, run[..|run|-1]);
      RunEvolves(c, s, run[..|run|-1], p);
      RunKeepsInv(c, s, run[..|run|-1]);
      StepEvolves(c, m, run[|run|-1], p);
    }
  }

  /** From any reachable state: a receipt appears only as an intent for the request being served,
      and a receipt written by this machine then makes at most the one move. */
  lemma ReceiptLifecycle(c: Config, disk: Disk, run: seq<Action>, a: Action, later: seq<Action>, p: Path)
    ensures var s := Run(c, Boot(disk), run);
            var s1 := Step(c, s, a);
            p !in s.disk && p in s1.disk && s1.disk[p].ReceiptFile? ==>
              && s1.disk[p].receipt.state.RevocationIntent?
              && s1.pc.IntentWritten? && s1.pc.q.receiptPath == p
              && Standing(c, s1.disk, p)
    ensures var s := Run(c, Boot(disk), run);
            var s2 := Run(c, s, later);
            Standing(c, s.disk, p) ==>
              Standing(c, s2.disk, p) && Evolves(s.disk[p].receipt, s2.disk[p].receipt)
  {
    RunKeepsInv(c, Boot(disk), run);
    var s := Run(c, Boot(disk), run);
    if Standing(c, s.disk, p) { RunEvolves(c, s, later, p); }
  }

  /** Under a receipt path that already holds a receipt no envelope is ever unlinked, unless the
      call that wrote the intent is still alive. */
  lemma {:induction false} NoDeletionUnderStandingReceipt(c: Config, s: State, run: seq<Action>, p: Path)
    requires Inv(c, s)
    requires Standing(c, s.disk, p)
    requires !(s.pc.IntentWritten? && s.pc.q.receiptPath == p)
    ensures var s' := Run(c, s, run);
            && s.deletions <= s'.deletions
            && (forall i :: |s.deletions| <= i < |s'.deletions| ==> s'.deletions[i].q.receiptPath != p)
            && !(s'.pc.IntentWritten? && s'.pc.q.receiptPath == p)
  {
    if run != [] {
      NoDeletionUnderStandingReceipt(c, s, run[..|run|-1], p);
      RunEvolves(c, s, run[..|run|-1], p);
    }
  }

  /** The request a step would serve. */
  function Serving(pc: Pc): Option<Request> {
    match pc
    case Requested(q) => Some(q)
    case IntentWritten(q, _) => Some(q)
    case AfterUnlink(q, _, _) => Some(q)
    case _ => None
  }

  /** A step changes a standing receipt only while it serves a request that names that receipt's path,
      reference and scope. */
  lemma StepRespectsScope(c: Config, s: State, a: Action, p: Path)
    requires Inv(c, s) && Standing(c, s.disk, p)
    ensures var t := Step(c, s, a);
            p in t.disk && (t.disk[p] == s.disk[p] || ServesReceipt(s, p))
  {
    StepEvolves(c, s, a, p);
  }

  ghost predicate ServesReceipt(s: State, p: Path) {
    && p in s.disk && s.disk[p].ReceiptFile? && Serving(s.pc).Some?
    && var (q, rc) := (Serving(s.pc).value, s.disk[p].receipt);
    q.receiptPath == p && q.reference == rc.reference && q.scope == rc.scope
  }

  /** So in every run, whatever the disk held at first. */
  lemma RunsRespectScope(c: Config, disk: Disk, run: seq<Action>, a: Action, p: Path)
    requires Standing(c, Run(c, Boot(disk), run).disk, p)
    ensures var s := Run(c, Boot(disk), run);
            var t := Step(c, s, a);
            p in t.disk && (t.disk[p] == s.disk[p] || ServesReceipt(s, p))
  {
    RunKeepsInv(c, Boot(disk), run);
    StepRespectsScope(c, Run(c, Boot(disk), run), a, p);
  }

  //
  // A finished receipt tells the truth about the envelope.
  //

  /** `d` is free and the call in progress, if any, will not write there. */
  ghost predicate Vacant(s: State, d: Path) {
    && d !in s.disk
    && (s.pc.Requested? ==> s.pc.q.receiptPath != d)
    && (s.pc.IntentWritten? ==> s.pc.q.receiptPath != d)
    && (s.pc.AfterUnlink? ==> s.pc.q.receiptPath != d)
  }

  /** The action asks for a file at `d`: it provisions there or names it as a receipt path. */
  predicate Claims(c: Config, a: Action, d: Path) {
    || (a.Provision? && c.dest(a.reference) == d)
    || (a.Call? && a.q.receiptPath == d)
  }

  lemma {:induction false} StaysVacant(c: Config, s: State, run: seq<Action>, d: Path)
    requires Vacant(s, d)
    requires forall i :: 0 <= i < |run| ==> !Claims(c, run[i], d)
    ensures Vacant(Run(c, s, run), d)
  {
    if run != [] {
      StaysVacant(c, s, run[..|run|-1], d);
    }
  }

  /** The step from `s` puts a finished receipt at `p` that was not there before. */
  ghost predicate Finishes(c: Config, s: State, a: Action, p: Path) {
    var d := Step(c, s, a).disk;
    && p in d && d[p].ReceiptFile? && Finished(d[p].receipt)
    && (p !in s.disk || s.disk[p] != d[p])
  }

  lemma FinishingMeansVacant(c: Config, s: State, a: Action, p: Path)
    requires Inv(c, s) && Finishes(c, s, a, p)
    ensures Vacant(Step(c, s, a), c.dest(Step(c, s, a).disk[p].receipt.reference))
  {
    assert a.Advance?;
  }

  /** When a step records REVOKED or REVOKED_RECONCILED the envelope is gone, and it stays gone in
      every later state until some call claims its path again. */
  lemma FinishedMeansAbsent(c: Config, disk: Disk, run: seq<Action>, a: Action, later: seq<Action>, p: Path)
    requires Finishes(c, Run(c, Boot(disk), run), a, p)
    requires var s1 := Step(c, Run(c, Boot(disk), run), a);
             forall i :: 0 <= i < |later| ==> !Claims(c, later[i], c.dest(s1.disk[p].receipt.reference))
    ensures var s1 := Step(c, Run(c, Boot(disk), run), a);
            c.dest(s1.disk[p].receipt.reference) !in Run(c, s1, later).disk
  {
    RunKeepsInv(c, Boot(disk), run);
    var s := Run(c, Boot(disk), run);
    FinishingMeansVacant(c, s, a, p);
    var s1 := Step(c, s, a);
    StaysVacant(c, s1, later, c.dest(s1.disk[p].receipt.reference));
  }

  /** A whole call by a process that lives for `steps` durable actions and is then killed. */
  function Attempt(q: Request, u: UnlinkOutcome, steps: nat): seq<Action> {
    [Call(q)] + seq(if steps < 3 then steps else 3, _ => Advance(u)) + [Crash]
  }

  lemma RunSnoc(c: Config, s: State, run: seq<Action>, a: Action)
    ensures Run(c, s, run + [a]) == Step(c, Run(c, s, run), a)
  {
    assert (run + [a])[..|run|] == run;
  }

  lemma AttemptUnrolled(c: Config, s: State, q: Request, u: UnlinkOutcome, steps: nat)
    ensures var s1 := Step(c, s, Call(q));
            var s2 := if steps >= 1 then AdvanceStep(c, s1, u) else s1;
            var s3 := if steps >= 2 then AdvanceStep(c, s2, u) else s2;
            var s4 := if steps >= 3 then AdvanceStep(c, s3, u) else s3;
            Run(c, s, Attempt(q, u, steps)) == s4.(pc := Idle)
  {
    var n := if steps < 3 then steps else 3;
    var pre := [Call(q)] + seq(n, _ => Advance(u));
    RunSnoc(c, s, [], Call(q));
    RunSnoc(c, s, [Call(q)], Advance(u));
    RunSnoc(c, s, [Call(q), Advance(u)], Advance(u));
    RunSnoc(c, s, [Call(q), Advance(u), Advance(u)], Advance(u));
    assert n == 0 ==> pre == [Call(q)];
    assert n == 1 ==> pre == [Call(q)] + [Advance(u)];
    assert n == 2 ==> pre == [Call(q), Advance(u)] + [Advance(u)];
    assert n == 3 ==> pre == [Call(q), Advance(u), Advance(u)] + [Advance(u)];
    RunSnoc(c, s, pre, Crash);
    assert [] + [Call(q)] == [Call(q)];
    assert [Call(q)] + [Advance(u)] == [Call(q), Advance(u)];
    assert [Call(q), Advance(u)] + [Advance(u)] == [Call(q), Advance(u), Advance(u)];
    assert Attempt(q, u, steps) == pre + [Crash];
  }

  /** A call repeated after its receipt is finished returns that receipt and changes nothing. */
  lemma RetryReturnsStoredReceipt(c: Config, disk: Disk, q: Request, u: UnlinkOutcome, steps: nat)
    requires Standing(c, disk, q.receiptPath) && c.safe(q.receiptPath)
    requires disk[q.receiptPath].receipt.reference == q.reference
    requires disk[q.receiptPath].receipt.scope == q.scope
    requires Finished(disk[q.receiptPath].receipt)
    requires c.dest(q.reference) !in disk
    ensures Enter(c, disk, q) == AlreadyDone(disk[q.receiptPath].receipt)
    ensures Run(c, Boot(disk), Attempt(q, u, steps)) == Boot(disk)
  {
    AttemptUnrolled(c, Boot(disk), q, u, steps);
  }

  /** Every place a call can die, and what one undisturbed retry then finds. `u` is what unlink did
      in the first call; the retry's own unlink outcome never matters once an intent exists. */
  lemma CrashThenRetry(c: Config, disk: Disk, q: Request, u: UnlinkOutcome, steps: nat)
    requires Enter(c, disk, q).Proceed?
    ensures var crashed := Run(c, Boot(disk), Attempt(q, u, steps)).disk;
            var again := Enter(c, crashed, q);
            && (steps == 0 ==> crashed == disk)
            && (steps == 1 ==> again == Refuse(IntentOutcomeUnknown))
            && (steps == 2 && u.Unlinked? ==> again.Reconcile? && Finished(again.receipt))
            && (steps == 2 && !u.Unlinked? ==> again == Refuse(IntentOutcomeUnknown))
            && (steps >= 3 && u.Unlinked? ==> again.AlreadyDone? && again.receipt.state.Revoked?)
            && (steps >= 3 && !u.Unlinked? ==> again == Refuse(UnresolvedOutcome))
            && (c.dest(q.reference) !in crashed <==> steps >= 2 && u.Unlinked?)
            && (c.dest(q.reference) in crashed ==>
                  crashed[c.dest(q.reference)] == disk[c.dest(q.reference)])
  {
    AttemptUnrolled(c, Boot(disk), q, u, steps);
  }

  //
  // The code itself, running over a mutable disk.
  //

  /** The file is a receipt for this reference and scope. */
  predicate ReceiptFor(f: File, q: Request) {
    match f
    case ReceiptFile(rc) => rc.reference == q.reference && rc.scope == q.scope
    case _ => false
  }

  /** The file is an object that names this reference and scope. */
  predicate EnvelopeFor(f: File, q: Request) {
    match f
    case NotAnObject(_) => false
    case Document(r, sc, _) => r == Some(q.reference) && sc == Some(q.scope)
    case ReceiptFile(rc) => rc.reference == q.reference && rc.scope == q.scope
  }

  /** When a call that nothing disturbs ends with the envelope revoked: on a safe path apart from the
      envelope, either a matching receipt is finished or an intent and the envelope is gone, or there
      is no receipt yet and the envelope names the request's reference and scope. */
  predicate Revocable(c: Config, disk: Disk, q: Request) {
    var p, d := q.receiptPath, c.dest(q.reference);
    && c.safe(p) && p != d
    && if p in disk
       then ReceiptFor(disk[p], q) && d !in disk
            && disk[p].receipt.state in {RevocationIntent, Revoked, RevokedReconciled}
       else d in disk && EnvelopeFor(disk[d], q)
  }

  /** What a first call leaves under its receipt path, however long the process lives: the intent until
      the outcome is recorded, then the state that says what became of the envelope; always for the
      request's reference and scope and the envelope that was there. */
  lemma AttemptRecords(c: Config, disk: Disk, q: Request, u: UnlinkOutcome, steps: nat)
    requires Revocable(c, disk, q) && q.receiptPath !in disk && steps >= 1
    ensures var after := Run(c, Boot(disk), Attempt(q, u, steps)).disk;
            && q.receiptPath in after && ReceiptFor(after[q.receiptPath], q)
            && var rc := after[q.receiptPath].receipt;
            && rc.destination == c.dest(q.reference) && rc.digest == c.digest(disk[c.dest(q.reference)])
            && rc.state == (if steps < 3 then RevocationIntent
                            else match u case Unlinked => Revoked case Lingering => DeleteReadbackFailed case Failed => DeleteFailed)
  {
    FreshProceeds(c, disk, q);
    AttemptUnrolled(c, Boot(disk), q, u, steps);
    var intent := Enter(c, disk, q).intent;
    var s2 := State(disk[q.receiptPath := ReceiptFile(intent)], IntentWritten(q, intent), []);
    assert AdvanceStep(c, Step(c, Boot(disk), Call(q)), u) == s2;
    assert AdvanceStep(c, s2, u).disk[q.receiptPath] == ReceiptFile(intent);
  }

  lemma FreshProceeds(c: Config, disk: Disk, q: Request)
    requires Revocable(c, disk, q) && q.receiptPath !in disk
    ensures var d := c.dest(q.reference);
            && d in disk && d != q.receiptPath
            && Enter(c, disk, q) == Proceed(Receipt(RevocationIntent, q.reference, d, c.digest(disk[d]), q.scope, false, false))
  {}

  datatype Outcome = Returned(receipt: Receipt) | Raised(why: Refusal) | Died

  class Workspace {
    var disk: Disk

    constructor (initial: Disk)
      ensures disk == initial
    {
      disk := initial;
    }

    /** Writes a whole file at once; without `replace` an existing file is an error. */
    method WriteAtomic(path: Path, f: File, replace: bool) returns (ok: bool)
      modifies this
      ensures ok <==> replace || path !in old(disk)
      ensures disk == if ok then old(disk)[path := f] else old(disk)
    {
      if path in disk && !replace {
        return false;
      }
      disk := disk[path := f];
      return true;
    }

    /** The branch taken when the receipt path is already occupied. */
    method ReconcileExistingIntent(c: Config, q: Request, alive: bool) returns (r: Option<Outcome>)
      modifies this
      ensures q.receiptPath !in old(disk) ==> r == None && disk == old(disk)
      ensures q.receiptPath in old(disk) ==>
                match OnExistingReceipt(c, old(disk), q)
                case Refuse(w) => r == Some(Raised(w)) && disk == old(disk)
                case AlreadyDone(rc) => r == Some(Returned(rc)) && disk == old(disk)
                case Reconcile(rc) =>
                  if alive
                  then r == Some(Returned(rc)) && disk == old(disk)[q.receiptPath := ReceiptFile(rc)]
                  else r == Some(Died) && disk == old(disk)
                case Proceed(_) => false
      ensures q.receiptPath in old(disk) && !ReceiptFor(old(disk)[q.receiptPath], q) ==>
                r.Some? && r.value.Raised? && disk == old(disk)
      ensures r.Some? && r.value.Returned? ==> r.value.receipt.reference == q.reference && r.value.receipt.scope == q.scope
    {
      if q.receiptPath !in disk {
        return None;
      }
      var destination := c.dest(q.reference);
      match disk[q.receiptPath]
      case NotAnObject(_) => return Some(Raised(ReceiptMalformed));
      case Document(_, _, _) => return Some(Raised(ReceiptMismatch));
      case ReceiptFile(receipt) =>
        if receipt.reference != q.reference || receipt.scope != q.scope {
          return Some(Raised(ReceiptMismatch));
        }
        if receipt.state in {Revoked, RevokedReconciled} {
          if destination in disk {
            return Some(Raised(ConflictsWithPresentEnvelope));
          }
          return Some(Returned(receipt));
        }
        if receipt.state != RevocationIntent {
          return Some(Raised(UnresolvedOutcome));
        }
        if destination in disk {
          return Some(Raised(IntentOutcomeUnknown));
        }
        var reconciled := receipt.(state := RevokedReconciled, revoked := true, readbackAbsent := true);
        if !alive {
          return Some(Died);
        }
        var _ := WriteAtomic(q.receiptPath, ReceiptFile(reconciled), true);
        return Some(Returned(reconciled));
    }

    /** The revocation, run by a process that survives `steps` durable actions; `u` is what the
        operating system answers to unlink. It leaves on disk exactly what the step machine says. */
    method Revoke(c: Config, q: Request, u: UnlinkOutcome, steps: nat) returns (r: Outcome)
      modifies this
      ensures disk == Run(c, Boot(old(disk)), Attempt(q, u, steps)).disk
      ensures r.Returned? ==>
                && Finished(r.receipt)
                && r.receipt.reference == q.reference && r.receipt.scope == q.scope
                && q.receiptPath in disk && disk[q.receiptPath] == ReceiptFile(r.receipt)
                && c.dest(q.reference) !in disk
      ensures q.receiptPath in old(disk) && !ReceiptFor(old(disk)[q.receiptPath], q) ==> r.Raised? && disk == old(disk)
      ensures r.Returned? ==> Revocable(c, old(disk), q)
      ensures !Revocable(c, old(disk), q) ==> r.Raised? && disk == old(disk)
      ensures Revocable(c, old(disk), q) && u.Unlinked? && steps >= 3 ==> r.Returned?
      ensures match Enter(c, old(disk), q)
              case Refuse(w) => r == Raised(w) && disk == old(disk)
              case AlreadyDone(rc) => r == Returned(rc) && disk == old(disk)
              case Reconcile(rc) => r == if steps >= 1 then Returned(rc) else Died
              case Proceed(intent) =>
                if steps < 3 then r == Died
                else match u
                     case Unlinked => r == Returned(FinalReceipt(intent, u, false))
                     case Lingering => r == Raised(ReadbackFailed)
                     case Failed => r == Raised(DeletionFailed)
    {
      AttemptUnrolled(c, Boot(disk), q, u, steps);
      var destination := c.dest(q.reference);
      if !c.safe(q.receiptPath) || q.receiptPath == destination {
        return Raised(ReceiptPathRejected);
      }
      var reconciled := ReconcileExistingIntent(c, q, steps >= 1);
      if reconciled.Some? {
        return reconciled.value;
      }
      if destination !in disk || disk[destination].NotAnObject? {
        return Raised(EnvelopeUnavailable);
      }
      var payload := disk[destination];
      if ReferenceOf(payload) != Some(q.reference) {
        return Raised(EnvelopeReferenceMismatch);
      }
      if ScopeOf(payload) != Some(q.scope) {
        return Raised(EnvelopeScopeMismatch);
      }
      var intent := Receipt(RevocationIntent, q.reference, destination, c.digest(payload), q.scope, false, false);
      if steps < 1 {
        return Died;
      }
      var _ := WriteAtomic(q.receiptPath, ReceiptFile(intent), false);
      if steps < 2 {
        return Died;
      }
      if u.Failed? {
        if steps < 3 {
          return Died;
        }
        var _ := WriteAtomic(q.receiptPath, ReceiptFile(intent.(state := DeleteFailed)), true);
        return Raised(DeletionFailed);
      }
      if u.Unlinked? {
        disk := disk - {destination};
      }
      if steps < 3 {
        return Died;
      }
      if destination in disk {
        var _ := WriteAtomic(q.receiptPath, ReceiptFile(intent.(state := DeleteReadbackFailed)), true);
        return Raised(ReadbackFailed);
      }
      var receipt := intent.(state := Revoked, revoked := true, readbackAbsent := true);
      var _ := WriteAtomic(q.receiptPath, ReceiptFile(receipt), true);
      return Returned(receipt);
    }

    /** Provisioning: create the envelope only on a free path, then restrict it, and take it away
        again when that fails. A process that dies in between leaves the envelope in place. */
    method ProvisionEnvelope(c: Config, reference: string, scope: Scope, payload: string,
                             acl: AclOutcome, survives: bool) returns (ok: bool)
      modifies this
      ensures disk == Run(c, Boot(old(disk)),
                          [Provision(reference, scope, payload), if survives then Settle(acl) else Crash]).disk
      ensures forall p :: p in old(disk) ==> p in disk && disk[p] == old(disk)[p]
      ensures ok ==> c.dest(reference) in disk && disk[c.dest(reference)] == Document(Some(reference), Some(scope), payload)
    {
      RunSnoc(c, Boot(disk), [], Provision(reference, scope, payload));
      RunSnoc(c, Boot(disk), [Provision(reference, scope, payload)], if survives then Settle(acl) else Crash);
      assert [] + [Provision(reference, scope, payload)] == [Provision(reference, scope, payload)];
      assert [Provision(reference, scope, payload)] + [if survives then Settle(acl) else Crash]
          == [Provision(reference, scope, payload), if survives then Settle(acl) else Crash];
      ok := WriteAtomic(c.dest(reference), Document(Some(reference), Some(scope), payload), false);
      if !ok || !survives {
        return false;
      }
      match acl
      case Restricted => return true;
      case RolledBack =>
        disk := disk - {c.dest(reference)};
        return false;
      case RollbackFailed => return false;
    }
  }
}
