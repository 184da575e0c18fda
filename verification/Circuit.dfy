/** The circuit breaker of one provider.

Every operation returns a new record. Time is a number of seconds; nothing assumes that the
times of successive events increase.
 */
module Circuit {
  import opened Wrappers

  datatype CircuitState = Closed | Open | HalfOpen

  datatype Policy = Policy(failureThreshold: nat, recoverySeconds: nat, probeLimit: nat) {
    /** The bounds the policy fields are declared with. */
    predicate Valid() {
      1 <= failureThreshold <= 100 && 1 <= recoverySeconds <= 86400 && 1 <= probeLimit <= 10
    }
  }

  datatype Record = Record(
    providerId: string,
    state: CircuitState,
    consecutiveFailures: nat,
    openedAt: Option<int>,
    halfOpenProbes: nat,
    lastFailure: Option<string>,
    updatedAt: int)

  /** A record with every default. */
  function Fresh(providerId: string, at: int): Record {
    Record(providerId, Closed, 0, None, 0, None, at)
  }

  type Permission = (Record, int, Policy) -> bool

  function Permits(r: Record, at: int, p: Policy): bool {
    match r.state
    case Closed => true
    case HalfOpen => r.halfOpenProbes < p.probeLimit
    case Open => r.openedAt.Some? && at >= r.openedAt.value + p.recoverySeconds
  }

  function Normalize(permits: Permission, r: Record, p: Policy, at: int): Record {
    if r.state.Open? && permits(r, at, p)
    then r.(state := HalfOpen, halfOpenProbes := 0, updatedAt := at)
    else r
  }

  function RecordFailure(permits: Permission, r0: Record, p: Policy, at: int, reason: string): Record {
    var r := Normalize(permits, r0, p, at);
    var failures := r.consecutiveFailures + 1;
    if r.state.HalfOpen? || failures >= p.failureThreshold
    then r.(state := Open, consecutiveFailures := failures, openedAt := Some(at), halfOpenProbes := 0,
            lastFailure := Some(reason), updatedAt := at)
    else r.(consecutiveFailures := failures, lastFailure := Some(reason), updatedAt := at)
  }

  function RecordSuccess(r: Record, at: int): Record {
    r.(state := Closed, consecutiveFailures := 0, openedAt := None, halfOpenProbes := 0,
       lastFailure := None, updatedAt := at)
  }

  function RecordProbe(permits: Permission, r0: Record, p: Policy, at: int): Record {
    var r := Normalize(permits, r0, p, at);
    if !r.state.HalfOpen? || r.halfOpenProbes >= p.probeLimit then r
    else r.(halfOpenProbes := r.halfOpenProbes + 1, updatedAt := at)
  }

  //
  // Histories.
  //

  datatype Event =
    | Failure(at: int, reason: string)
    | Success(at: int)
    | Probe(at: int)
    | Check(at: int)

  function Apply(permits: Permission, p: Policy, r: Record, e: Event): Record {
    match e
    case Failure(at, reason) => RecordFailure(permits, r, p, at, reason)
    case Success(at) => RecordSuccess(r, at)
    case Probe(at) => RecordProbe(permits, r, p, at)
    case Check(at) => Normalize(permits, r, p, at)
  }

  function Replay(permits: Permission, p: Policy, r: Record, h: seq<Event>): Record {
    if h == [] then r else Apply(permits, p, Replay(permits, p, r, h[..|h|-1]), h[|h|-1])
  }

  lemma {:induction false} ReplayConcat(permits: Permission, p: Policy, r: Record, g: seq<Event>, h: seq<Event>)
    ensures Replay(permits, p, r, g + h) == Replay(permits, p, Replay(permits, p, r, g), h)
  {
    if h == [] {
      assert g + h == g;
    } else {
      assert (g + h)[..|g + h|-1] == g + h[..|h|-1];
      ReplayConcat(permits, p, r, g, h[..|h|-1]);
    }
  }

  function FailuresSinceSuccess(h: seq<Event>): nat {
    if h == [] || h[|h|-1].Success? then 0
    else FailuresSinceSuccess(h[..|h|-1]) + if h[|h|-1].Failure? then 1 else 0
  }

  /** The last failure after the last success. */
  function LastFailure(h: seq<Event>): (r: Option<Event>)
    ensures r.Some? ==> r.value.Failure?
  {
    if h == [] || h[|h|-1].Success? then None
    else if h[|h|-1].Failure? then Some(h[|h|-1])
    else LastFailure(h[..|h|-1])
  }

  /** What the fields say about any history, whatever `permits` is. */
  ghost predicate Consistent(p: Policy, r: Record, failures: nat) {
    && r.consecutiveFailures == failures
    && (r.state.Closed? <==> failures < p.failureThreshold)
    && (r.openedAt.Some? <==> !r.state.Closed?)
    && (r.lastFailure.Some? <==> failures > 0)
    && (r.halfOpenProbes > 0 ==> r.state.HalfOpen?)
    && r.halfOpenProbes <= p.probeLimit
  }

  lemma {:induction false} HistoryConsistent(permits: Permission, p: Policy, id: string, t: int, h: seq<Event>)
    requires p.Valid()
    ensures Consistent(p, Replay(permits, p, Fresh(id, t), h), FailuresSinceSuccess(h))
    ensures Replay(permits, p, Fresh(id, t), h).providerId == id
  {
    if h != [] {
      HistoryConsistent(permits, p, id, t, h[..|h|-1]);
    }
  }

  /** An event that changes the record it meets: a failure or a success always, a check when it
      half-opens the breaker, a probe when it does that or is counted. */
  predicate Effective(permits: Permission, p: Policy, r: Record, e: Event) {
    match e
    case Failure(_, _) => true
    case Success(_) => true
    case Check(at) => r.state.Open? && permits(r, at, p)
    case Probe(at) =>
      || (r.state.Open? && permits(r, at, p))
      || (r.state.HalfOpen? && r.halfOpenProbes < p.probeLimit)
  }

  /** The time of the last event of `h` that took effect, or `t`. */
  function LastEffective(permits: Permission, p: Policy, id: string, t: int, h: seq<Event>): int {
    if h == [] then t
    else if Effective(permits, p, Replay(permits, p, Fresh(id, t), h[..|h|-1]), h[|h|-1]) then h[|h|-1].at
    else LastEffective(permits, p, id, t, h[..|h|-1])
  }

  /** The recorded failure is the last one since the last success, the time of update is that of the
      last event that took effect, and an event without effect leaves the whole record alone. */
  lemma {:induction false} HistoryStamps(permits: Permission, p: Policy, id: string, t: int, h: seq<Event>)
    ensures var r := Replay(permits, p, Fresh(id, t), h);
            && r.lastFailure == (match LastFailure(h) case None => None case Some(e) => Some(e.reason))
            && r.updatedAt == LastEffective(permits, p, id, t, h)
            && (h != [] && !Effective(permits, p, Replay(permits, p, Fresh(id, t), h[..|h|-1]), h[|h|-1]) ==>
                  r == Replay(permits, p, Fresh(id, t), h[..|h|-1]))
  {
    if h != [] {
      HistoryStamps(permits, p, id, t, h[..|h|-1]);
    }
  }

  //
  // With the real `permits`, the record is a closed form of its history.
  //

  /** The probes and checks after the last failure or success. */
  function Quiet(h: seq<Event>): (q: seq<Event>)
    ensures forall e :: e in q ==> e.Probe? || e.Check?
  {
    if h == [] || h[|h|-1].Failure? || h[|h|-1].Success? then []
    else Quiet(h[..|h|-1]) + [h[|h|-1]]
  }

  /** The first of `q` at or after `deadline`; `|q|` when there is none. */
  function FirstAt(q: seq<Event>, deadline: int): (i: nat)
    ensures i <= |q|
  {
    if q == [] then 0
    else
      var i := FirstAt(q[..|q|-1], deadline);
      if i < |q| - 1 || q[|q|-1].at >= deadline then i else |q|
  }

  lemma {:induction false} FirstAtIsFirst(q: seq<Event>, deadline: int)
    ensures var i := FirstAt(q, deadline);
            && (forall k :: 0 <= k < i ==> q[k].at < deadline)
            && (i < |q| ==> q[i].at >= deadline)
  {
    if q != [] {
      FirstAtIsFirst(q[..|q|-1], deadline);
      assert forall k :: 0 <= k < |q| - 1 ==> q[k] == q[..|q|-1][k];
    }
  }

  function Probes(q: seq<Event>): nat {
    if q == [] then 0 else Probes(q[..|q|-1]) + if q[|q|-1].Probe? then 1 else 0
  }

  function Min(a: nat, b: nat): nat { if a < b then a else b }

  /** A breaker opened at `since` that has then seen the probes and checks `q`: half open from the
      first of them that comes `recoverySeconds` later, and from there one counted probe each, up
      to the limit. */
  ghost predicate Tripped(p: Policy, r: Record, since: int, q: seq<Event>) {
    var i := FirstAt(q, since + p.recoverySeconds);
    && r.openedAt == Some(since)
    && r.state == (if i < |q| then HalfOpen else Open)
    && r.halfOpenProbes == Min(p.probeLimit, Probes(q[i..]))
  }

  /** State, opening time and probe count read off the history. */
  ghost predicate ReadsOff(p: Policy, r: Record, h: seq<Event>) {
    if FailuresSinceSuccess(h) < p.failureThreshold || LastFailure(h).None?
    then r.state.Closed? && r.openedAt == None && r.halfOpenProbes == 0
    else Tripped(p, r, LastFailure(h).value.at, Quiet(h))
  }

  lemma QuietStep(q: seq<Event>, e: Event, deadline: int)
    ensures var i, j := FirstAt(q, deadline), FirstAt(q + [e], deadline);
            && (i < |q| ==> j == i && Probes((q + [e])[j..]) == Probes(q[i..]) + if e.Probe? then 1 else 0)
            && (i == |q| ==> Probes(q[i..]) == 0)
            && (i == |q| && e.at >= deadline ==>
                  j == |q| && Probes((q + [e])[j..]) == if e.Probe? then 1 else 0)
            && (i == |q| && e.at < deadline ==> j == |q| + 1 && Probes((q + [e])[j..]) == 0)
  {
    assert (q + [e])[..|q|] == q;
    var j := FirstAt(q + [e], deadline);
    if j <= |q| {
      assert (q + [e])[j..] == q[j..] + [e];
      assert (q[j..] + [e])[..|q[j..]|] == q[j..];
    }
  }

  lemma StepLoud(p: Policy, r: Record, front: seq<Event>, e: Event)
    requires p.Valid() && Consistent(p, r, FailuresSinceSuccess(front))
    requires e.Failure? || e.Success?
    ensures ReadsOff(p, Apply(Permits, p, r, e), front + [e])
  {
    assert (front + [e])[..|front|] == front;
  }

  lemma TrippedStep(p: Policy, r: Record, since: int, q: seq<Event>, e: Event)
    requires p.Valid() && Tripped(p, r, since, q)
    requires e.Probe? || e.Check?
    ensures Tripped(p, Apply(Permits, p, r, e), since, q + [e])
  {
    var deadline := since + p.recoverySeconds;
    QuietStep(q, e, deadline);
  }

  /** A probe or check changes none of the counts a history is read by. */
  lemma QuietHistory(front: seq<Event>, e: Event)
    requires e.Probe? || e.Check?
    ensures FailuresSinceSuccess(front + [e]) == FailuresSinceSuccess(front)
    ensures LastFailure(front + [e]) == LastFailure(front)
    ensures Quiet(front + [e]) == Quiet(front) + [e]
  {
    assert (front + [e])[..|front|] == front;
  }

  lemma ClosedIgnores(p: Policy, r: Record, e: Event)
    requires r.state.Closed? && (e.Probe? || e.Check?)
    ensures Apply(Permits, p, r, e) == r
  {}

  lemma StepQuiet(p: Policy, r: Record, front: seq<Event>, e: Event)
    requires p.Valid() && Consistent(p, r, FailuresSinceSuccess(front)) && ReadsOff(p, r, front)
    requires e.Probe? || e.Check?
    ensures ReadsOff(p, Apply(Permits, p, r, e), front + [e])
  {
    QuietHistory(front, e);
    if FailuresSinceSuccess(front) >= p.failureThreshold && LastFailure(front).Some? {
      TrippedStep(p, r, LastFailure(front).value.at, Quiet(front), e);
    } else {
      ClosedIgnores(p, r, e);
    }
  }

  lemma {:induction false} HistoryReadsOff(p: Policy, id: string, t: int, h: seq<Event>)
    requires p.Valid()
    ensures ReadsOff(p, Replay(Permits, p, Fresh(id, t), h), h)
  {
    if h != [] {
      var front, e := h[..|h|-1], h[|h|-1];
      assert h == front + [e];
      HistoryReadsOff(p, id, t, front);
      HistoryConsistent(Permits, p, id, t, front);
      var r := Replay(Permits, p, Fresh(id, t), front);
      if e.Probe? || e.Check? { StepQuiet(p, r, front, e); } else { StepLoud(p, r, front, e); }
    }
  }

  /** When the router lets a call through a breaker with history `h`, at time `at`: while it is closed;
      once it has half opened, until the probes counted since reach the limit; and until then exactly
      from the recovery time on. */
  lemma RoutableIff(p: Policy, id: string, t: int, h: seq<Event>, at: int)
    requires p.Valid()
    ensures var r := Normalize(Permits, Replay(Permits, p, Fresh(id, t), h), p, at);
            Permits(r, at, p) <==>
              || FailuresSinceSuccess(h) < p.failureThreshold
              || (LastFailure(h).Some? && Reopened(p, LastFailure(h).value.at, Quiet(h), at))
  {
    HistoryReadsOff(p, id, t, h);
    HistoryConsistent(Permits, p, id, t, h);
    HistoryStamps(Permits, p, id, t, h);
  }

  /** A breaker opened at `since` that has then seen the probes and checks `q` takes a call at `at`. */
  ghost predicate Reopened(p: Policy, since: int, q: seq<Event>, at: int) {
    var i := FirstAt(q, since + p.recoverySeconds);
    if i < |q| then Probes(q[i..]) < p.probeLimit else at - since >= p.recoverySeconds
  }

  /** Without probes and checks nothing half-opens the breaker: it is open, since the last failure,
      exactly when the failures since the last success reach the threshold. */
  lemma LoudHistory(p: Policy, id: string, t: int, h: seq<Event>)
    requires p.Valid() && forall e :: e in h ==> e.Failure? || e.Success?
    ensures var r, tripped := Replay(Permits, p, Fresh(id, t), h), FailuresSinceSuccess(h) >= p.failureThreshold;
            && r.state == (if tripped then Open else Closed)
            && (tripped ==> LastFailure(h).Some? && r.openedAt == Some(LastFailure(h).value.at))
  {
    HistoryReadsOff(p, id, t, h);
    HistoryConsistent(Permits, p, id, t, h);
    HistoryStamps(Permits, p, id, t, h);
    if h != [] { assert h[|h|-1] in h; }
    assert Quiet(h) == [];
  }
}
