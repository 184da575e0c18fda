/** What several calls to the service do to the store they share: how breakers accumulate, and when
the observations of one call survive another.
 */
module CallHistory {
  import opened Wrappers
  import opened Router
  import opened Failover
  import Circuit
  import Performance

  //
  // Many calls.
  //

  /** One call: what it was given, the store around it and what it returned. */
  datatype Call = Call(e: Env, request: Request, decision: Decision, byId: map<string, Circuit.Record>,
                       before: Tables, after: Tables, receipt: Receipt)

  ghost predicate WasServed(p: Circuit.Policy, c: Call) {
    Served(c.e, c.request, c.decision, c.byId, p, c.before, c.after, c.receipt)
  }

  /** Calls made one after the other, each given the breakers the store held, on a store that started
      without any. Between calls nothing else touches the breakers. */
  ghost predicate Chain(p: Circuit.Policy, calls: seq<Call>) {
    calls == [] ||
    var front, last := calls[..|calls|-1], calls[|calls|-1];
    && Chain(p, front)
    && WasServed(p, last) && last.byId == last.before.circuits == BreakersNow(front)
  }

  function BreakersNow(calls: seq<Call>): map<string, Circuit.Record> {
    if calls == [] then map[] else calls[|calls|-1].after.circuits
  }

  /** Everything the provider did, over all calls. */
  function EventsOver(calls: seq<Call>, id: string): seq<Circuit.Event> {
    if calls == [] then []
    else EventsOver(calls[..|calls|-1], id) + EventsOf(calls[|calls|-1].receipt.attempts, id)
  }

  predicate TriedOver(calls: seq<Call>, id: string) {
    exists k :: 0 <= k < |calls| && Tried(calls[k].receipt.attempts, id)
  }

  /** When the first call that tried the provider began. */
  function FirstTried(calls: seq<Call>, id: string): int {
    if calls == [] then 0
    else if TriedOver(calls[..|calls|-1], id) then FirstTried(calls[..|calls|-1], id)
    else calls[|calls|-1].e.now
  }

  lemma TriedOverSnoc(calls: seq<Call>, id: string)
    requires calls != []
    ensures TriedOver(calls, id) <==> TriedOver(calls[..|calls|-1], id) || Tried(calls[|calls|-1].receipt.attempts, id)
  {
    var front, last := calls[..|calls|-1], calls[|calls|-1];
    if TriedOver(front, id) {
      var k :| 0 <= k < |front| && Tried(front[k].receipt.attempts, id);
      assert calls[k] == front[k];
    }
    if TriedOver(calls, id) && !Tried(last.receipt.attempts, id) {
      var k :| 0 <= k < |calls| && Tried(calls[k].receipt.attempts, id);
      assert front[k] == calls[k];
    }
  }

  lemma {:induction false} UntriedNoEvents(attempts: seq<Attempt>, id: string)
    requires !Tried(attempts, id)
    ensures EventsOf(attempts, id) == []
  {
    if attempts != [] {
      var front := attempts[..|attempts|-1];
      assert forall i :: 0 <= i < |front| ==> front[i] == attempts[i];
      UntriedNoEvents(front, id);
    }
  }

  lemma {:induction false} UntriedOver(calls: seq<Call>, id: string)
    requires !TriedOver(calls, id)
    ensures EventsOver(calls, id) == []
  {
    if calls != [] {
      TriedOverSnoc(calls, id);
      UntriedOver(calls[..|calls|-1], id);
      UntriedNoEvents(calls[|calls|-1].receipt.attempts, id);
    }
  }

  /** Failures accumulate across calls: the stored breaker of a provider is the replay of everything
      it did in all of them, and there is none exactly for a provider never tried. */
  lemma {:induction false} BreakersReplayCalls(p: Circuit.Policy, calls: seq<Call>, id: string)
    requires Chain(p, calls)
    ensures id in BreakersNow(calls) <==> TriedOver(calls, id)
    ensures id in BreakersNow(calls) ==>
              BreakersNow(calls)[id] ==
                Circuit.Replay(Circuit.Permits, p, Circuit.Fresh(id, FirstTried(calls, id)), EventsOver(calls, id))
  {
    if calls != [] {
      var front, c := calls[..|calls|-1], calls[|calls|-1];
      BreakersReplayCalls(p, front, id);
      TriedOverSnoc(calls, id);
      var events := EventsOf(c.receipt.attempts, id);
      if TriedOver(front, id) {
        Circuit.ReplayConcat(Circuit.Permits, p, Circuit.Fresh(id, FirstTried(front, id)), EventsOver(front, id), events);
      } else {
        UntriedOver(front, id);
        assert EventsOver(calls, id) == events;
      }
      if !Tried(c.receipt.attempts, id) {
        UntriedNoEvents(c.receipt.attempts, id);
        assert EventsOver(calls, id) == EventsOver(front, id);
      }
    }
  }

  lemma {:induction false} EventsAreOutcomes(attempts: seq<Attempt>, id: string)
    ensures forall x :: x in EventsOf(attempts, id) ==> x.Failure? || x.Success?
  {
    if attempts != [] { EventsAreOutcomes(attempts[..|attempts|-1], id); }
  }

  lemma {:induction false} EventsOverAreOutcomes(calls: seq<Call>, id: string)
    ensures forall x :: x in EventsOver(calls, id) ==> x.Failure? || x.Success?
  {
    if calls != [] {
      EventsOverAreOutcomes(calls[..|calls|-1], id);
      EventsAreOutcomes(calls[|calls|-1].receipt.attempts, id);
    }
  }

  /** After any number of calls a stored breaker is open exactly when the provider's failures since
      its last success, over all calls, reach the threshold; then it is open since the last failure.
      It is never stored half open. */
  lemma BreakerTripsAcrossCalls(p: Circuit.Policy, calls: seq<Call>, id: string)
    requires Chain(p, calls) && p.Valid() && TriedOver(calls, id)
    ensures var events := EventsOver(calls, id);
            var tripped := Circuit.FailuresSinceSuccess(events) >= p.failureThreshold;
            && id in BreakersNow(calls)
            && BreakersNow(calls)[id].state == (if tripped then Circuit.Open else Circuit.Closed)
            && (tripped ==> Circuit.LastFailure(events).Some?
                            && BreakersNow(calls)[id].openedAt == Some(Circuit.LastFailure(events).value.at))
            && Circuit.Consistent(p, BreakersNow(calls)[id], Circuit.FailuresSinceSuccess(events))
  {
    BreakersReplayCalls(p, calls, id);
    EventsOverAreOutcomes(calls, id);
    Circuit.LoudHistory(p, id, FirstTried(calls, id), EventsOver(calls, id));
    Circuit.HistoryConsistent(Circuit.Permits, p, id, FirstTried(calls, id), EventsOver(calls, id));
  }

  //
  // Repeating a call.
  //

  function SavedIds(saves: seq<Saved>): set<string> { set s | s in saves :: s.id }

  lemma {:induction false} OverwriteAt(t: map<string, Performance.Observation>, u: map<string, Performance.Observation>,
                                       saves: seq<Saved>, k: string)
    ensures k in SavedIds(saves) ==>
              && k in Overwrite(t, saves) && k in Overwrite(u, saves)
              && Overwrite(t, saves)[k] == Overwrite(u, saves)[k]
    ensures k !in SavedIds(saves) ==>
              (k in Overwrite(t, saves) <==> k in t) && (k in t ==> Overwrite(t, saves)[k] == t[k])
  {
    if saves != [] {
      var front, last := saves[..|saves|-1], saves[|saves|-1];
      OverwriteAt(t, u, front, k);
      assert saves == front + [last];
      assert last in saves && last.id in SavedIds(saves);
      forall s | s in front ensures s.id in SavedIds(saves) { assert s in saves; }
      if k in SavedIds(saves) && k != last.id {
        var s :| s in saves && s.id == k;
        assert s in front;
      }
    }
  }

  lemma {:induction false} SameAttemptIdsSameKeys(ids: Ids, a: seq<Attempt>, b: seq<Attempt>, caps: seq<string>)
    requires |a| == |b| && forall i :: 0 <= i < |a| ==> a[i].attemptId == b[i].attemptId
    ensures var x, y := ObservationsOf(ids, a, caps), ObservationsOf(ids, b, caps);
            |x| == |y| && forall i :: 0 <= i < |x| ==> x[i].id == y[i].id
  {
    if a != [] {
      SameAttemptIdsSameKeys(ids, a[..|a|-1], b[..|b|-1], caps);
    }
  }

  /** Saving under the same attempt ids leaves the table as if only the second had been saved. */
  lemma SameIdsOverwrite(ids: Ids, a: seq<Attempt>, b: seq<Attempt>, caps: seq<string>,
                         t: map<string, Performance.Observation>)
    requires |a| == |b| && forall i :: 0 <= i < |a| ==> a[i].attemptId == b[i].attemptId
    ensures Overwrite(Overwrite(t, ObservationsOf(ids, a, caps)), ObservationsOf(ids, b, caps))
         == Overwrite(t, ObservationsOf(ids, b, caps))
  {
    var x, y := ObservationsOf(ids, a, caps), ObservationsOf(ids, b, caps);
    SameAttemptIdsSameKeys(ids, a, b, caps);
    forall k ensures k in SavedIds(x) <==> k in SavedIds(y) {
      if k in SavedIds(x) { var i :| 0 <= i < |x| && x[i].id == k; assert y[i] in y; }
      if k in SavedIds(y) { var i :| 0 <= i < |y| && y[i].id == k; assert x[i] in x; }
    }
    var once, twice := Overwrite(t, y), Overwrite(Overwrite(t, x), y);
    forall k ensures k in once <==> k in twice ensures k in once && k in twice ==> once[k] == twice[k] {
      OverwriteAt(t, Overwrite(t, x), y, k);
      OverwriteAt(Overwrite(t, x), t, y, k);
      OverwriteAt(t, t, x, k);
    }
  }

  /** The id of an attempt is formed from the decision, the provider and the position. */
  ghost predicate Numbered(ids: Ids, decisionId: string, attempts: seq<Attempt>) {
    forall i :: 0 <= i < |attempts| ==> attempts[i].attemptId == ids.attempt(decisionId, attempts[i].providerId, i)
  }

  predicate SameProviders(a: seq<Attempt>, b: seq<Attempt>) {
    |a| == |b| && forall i :: 0 <= i < |a| ==> a[i].providerId == b[i].providerId
  }

  /** What a served call does to the observations. */
  lemma ServedSaves(p: Circuit.Policy, c: Call)
    requires WasServed(p, c)
    ensures Numbered(c.e.ids, c.e.decisionId, c.receipt.attempts)
    ensures c.after.observations ==
              Overwrite(c.before.observations, ObservationsOf(c.e.ids, c.receipt.attempts, c.request.requiredCapabilities))
  {
    assert UpToFirstSuccess(c.e, Equipped(c.e.adapters, Eligible(c.decision.candidates)), c.receipt.attempts);
  }

  /** The call was made to a service with this registry. */
  ghost predicate MadeTo(registry: Registry, c: Call) {
    c.e == EnvOf(c.e.ids, c.e.world, c.e.adapters, registry, c.e.ids.decision(c.request, registry.registryId), c.e.now)
  }

  /** The decision id does not depend on time. So when the same request is served twice from the same
      registry and the same providers are tried in the same order, whatever the adapters answered and
      whenever, every observation of the first call is replaced: the table is as if the first call
      had saved none. */
  lemma RepeatedCallReplacesObservations(p: Circuit.Policy, registry: Registry, first: Call, second: Call)
    requires WasServed(p, first) && WasServed(p, second) && second.before.observations == first.after.observations
    requires MadeTo(registry, first) && MadeTo(registry, second)
    requires first.request == second.request && first.e.ids == second.e.ids
    requires SameProviders(first.receipt.attempts, second.receipt.attempts)
    ensures second.after.observations ==
              Overwrite(first.before.observations,
                        ObservationsOf(second.e.ids, second.receipt.attempts, second.request.requiredCapabilities))
  {
    ServedSaves(p, first);
    ServedSaves(p, second);
    SameIdsOverwrite(first.e.ids, first.receipt.attempts, second.receipt.attempts, first.request.requiredCapabilities,
                     first.before.observations);
  }

  //
  // When observations survive a later call.
  //

  /** What the id of an observation is formed from. */
  datatype Slot = Slot(decisionId: string, providerId: string, position: nat, capability: string)

  function KeyOf(ids: Ids, s: Slot): string {
    ids.observation(ids.attempt(s.decisionId, s.providerId, s.position), s.capability)
  }

  /** The slots of one call. */
  ghost predicate HasSlot(decisionId: string, attempts: seq<Attempt>, caps: seq<string>, s: Slot) {
    && s.decisionId == decisionId && s.position < |attempts|
    && attempts[s.position].providerId == s.providerId && s.capability in caps
  }

  ghost predicate EitherHas(d1: string, a: seq<Attempt>, caps1: seq<string>, d2: string, b: seq<Attempt>, caps2: seq<string>, s: Slot) {
    HasSlot(d1, a, caps1, s) || HasSlot(d2, b, caps2, s)
  }

  /** The identifiers do not confuse two slots of these two calls. */
  ghost predicate TellsSlots(ids: Ids, d1: string, a: seq<Attempt>, caps1: seq<string>, d2: string, b: seq<Attempt>, caps2: seq<string>) {
    forall s, t :: EitherHas(d1, a, caps1, d2, b, caps2, s) && EitherHas(d1, a, caps1, d2, b, caps2, t) ==>
      KeyOf(ids, s) == KeyOf(ids, t) ==> s == t
  }

  ghost predicate Made(ids: Ids, attempts: seq<Attempt>, caps: seq<string>, s: Saved) {
    exists i, c :: 0 <= i < |attempts| && c in caps && s == ObservationOf(ids, attempts[i], c)
  }

  lemma MadeSnoc(ids: Ids, front: seq<Attempt>, last: Attempt, caps: seq<string>, s: Saved)
    ensures Made(ids, front + [last], caps, s) <==>
              Made(ids, front, caps, s) || exists c :: c in caps && s == ObservationOf(ids, last, c)
  {
    var all := front + [last];
    if Made(ids, front, caps, s) {
      var i, c :| 0 <= i < |front| && c in caps && s == ObservationOf(ids, front[i], c);
      assert all[i] == front[i];
    }
    if exists c :: c in caps && s == ObservationOf(ids, last, c) {
      var c :| c in caps && s == ObservationOf(ids, last, c);
      assert all[|front|] == last;
    }
    if Made(ids, all, caps, s) {
      var i, c :| 0 <= i < |all| && c in caps && s == ObservationOf(ids, all[i], c);
      assert i < |front| ==> front[i] == all[i];
    }
  }

  lemma {:induction false} ObservationsMembers(ids: Ids, attempts: seq<Attempt>, caps: seq<string>, s: Saved)
    ensures s in ObservationsOf(ids, attempts, caps) <==> Made(ids, attempts, caps, s)
  {
    if attempts != [] {
      var front, last := attempts[..|attempts|-1], attempts[|attempts|-1];
      ObservationsMembers(ids, front, caps, s);
      RowMembers(ids, last, caps, s);
      MadeSnoc(ids, front, last, caps, s);
      assert attempts == front + [last];
    }
  }

  lemma RowMembers(ids: Ids, a: Attempt, caps: seq<string>, s: Saved)
    ensures s in ForAttempt(ids, a, caps) <==> exists c :: c in caps && s == ObservationOf(ids, a, c)
  {
    var row := ForAttempt(ids, a, caps);
    if s in row {
      var i :| 0 <= i < |row| && row[i] == s;
      assert caps[i] in caps;
    }
    if exists c :: c in caps && s == ObservationOf(ids, a, c) {
      var c :| c in caps && s == ObservationOf(ids, a, c);
      var i :| 0 <= i < |caps| && caps[i] == c;
      assert row[i] == s;
    }
  }

  /** A saved key holds the value of some save under it. */
  lemma {:induction false} OverwriteValue(t: map<string, Performance.Observation>, saves: seq<Saved>, k: string)
    requires k in SavedIds(saves)
    ensures k in Overwrite(t, saves)
    ensures exists s :: s in saves && s.id == k && Overwrite(t, saves)[k] == s.observation
  {
    var front, last := saves[..|saves|-1], saves[|saves|-1];
    assert saves == front + [last] && last in saves;
    if last.id != k {
      var s :| s in saves && s.id == k;
      assert s in front;
      OverwriteValue(t, front, k);
      var u :| u in front && u.id == k && Overwrite(t, front)[k] == u.observation;
      assert u in saves;
    }
  }

  /** The observation of `a` for capability `c` is in the table, as it was made. */
  ghost predicate Stands(ids: Ids, table: map<string, Performance.Observation>, a: Attempt, c: string) {
    var s := ObservationOf(ids, a, c);
    s.id in table && table[s.id] == s.observation
  }

  /** Saving the attempts `b`: the key of slot `s` afterwards holds the observation of that slot when
      the call has it, and what it held before otherwise. */
  lemma SlotAfterSave(ids: Ids, d: string, b: seq<Attempt>, caps: seq<string>, t: map<string, Performance.Observation>, s: Slot)
    requires Numbered(ids, d, b)
    requires forall u :: HasSlot(d, b, caps, u) && KeyOf(ids, u) == KeyOf(ids, s) ==> u == s
    ensures var saves := ObservationsOf(ids, b, caps);
            if HasSlot(d, b, caps, s)
            then KeyOf(ids, s) in Overwrite(t, saves)
                 && Overwrite(t, saves)[KeyOf(ids, s)] == ObservationOf(ids, b[s.position], s.capability).observation
            else (KeyOf(ids, s) in Overwrite(t, saves) <==> KeyOf(ids, s) in t)
                 && (KeyOf(ids, s) in t ==> Overwrite(t, saves)[KeyOf(ids, s)] == t[KeyOf(ids, s)])
  {
    var saves, k := ObservationsOf(ids, b, caps), KeyOf(ids, s);
    forall x | x in saves && x.id == k
      ensures HasSlot(d, b, caps, s) && x == ObservationOf(ids, b[s.position], s.capability)
    {
      ObservationsMembers(ids, b, caps, x);
      var i, c :| 0 <= i < |b| && c in caps && x == ObservationOf(ids, b[i], c);
      assert HasSlot(d, b, caps, Slot(d, b[i].providerId, i, c)) && KeyOf(ids, Slot(d, b[i].providerId, i, c)) == k;
    }
    if HasSlot(d, b, caps, s) {
      var x := ObservationOf(ids, b[s.position], s.capability);
      ObservationsMembers(ids, b, caps, x);
      assert x in saves && x.id == k;
      OverwriteValue(t, saves, k);
    } else {
      OverwriteAt(t, t, saves, k);
    }
  }

  /** A later call reuses the slot of `a[i]` for `c`: same decision, same provider at the same
      position, and a capability both ask for. */
  ghost predicate Reused(d1: string, a: seq<Attempt>, d2: string, b: seq<Attempt>, caps2: seq<string>, i: nat, c: string)
    requires i < |a|
  {
    d1 == d2 && i < |b| && a[i].providerId == b[i].providerId && c in caps2
  }

  lemma SlotSurvives(ids: Ids, d1: string, a: seq<Attempt>, caps1: seq<string>, d2: string, b: seq<Attempt>, caps2: seq<string>,
                     t: map<string, Performance.Observation>, i: nat, c: string)
    requires Numbered(ids, d1, a) && Numbered(ids, d2, b) && TellsSlots(ids, d1, a, caps1, d2, b, caps2)
    requires i < |a| && c in caps1
    ensures Stands(ids, Overwrite(Overwrite(t, ObservationsOf(ids, a, caps1)), ObservationsOf(ids, b, caps2)), a[i], c) <==>
              (Reused(d1, a, d2, b, caps2, i, c) ==> ObservationOf(ids, b[i], c).observation == ObservationOf(ids, a[i], c).observation)
  {
    var s := Slot(d1, a[i].providerId, i, c);
    assert HasSlot(d1, a, caps1, s) && KeyOf(ids, s) == ObservationOf(ids, a[i], c).id;
    var t1 := Overwrite(t, ObservationsOf(ids, a, caps1));
    SlotAfterSave(ids, d1, a, caps1, t, s);
    SlotAfterSave(ids, d2, b, caps2, t1, s);
    assert HasSlot(d2, b, caps2, s) <==> Reused(d1, a, d2, b, caps2, i, c);
  }

  ghost predicate AllStand(ids: Ids, table: map<string, Performance.Observation>, a: seq<Attempt>, caps: seq<string>) {
    forall i, c :: 0 <= i < |a| && c in caps ==> Stands(ids, table, a[i], c)
  }

  /** Whatever slot of the first call the second reused, it saved the same value there. */
  ghost predicate OnlySameReused(ids: Ids, d1: string, a: seq<Attempt>, caps1: seq<string>, d2: string, b: seq<Attempt>, caps2: seq<string>) {
    forall i, c :: 0 <= i < |a| && c in caps1 && Reused(d1, a, d2, b, caps2, i, c) ==>
      ObservationOf(ids, b[i], c).observation == ObservationOf(ids, a[i], c).observation
  }

  lemma SurviveIff(ids: Ids, d1: string, a: seq<Attempt>, caps1: seq<string>, d2: string, b: seq<Attempt>, caps2: seq<string>,
                   t: map<string, Performance.Observation>)
    requires Numbered(ids, d1, a) && Numbered(ids, d2, b) && TellsSlots(ids, d1, a, caps1, d2, b, caps2)
    ensures AllStand(ids, Overwrite(Overwrite(t, ObservationsOf(ids, a, caps1)), ObservationsOf(ids, b, caps2)), a, caps1)
       <==> OnlySameReused(ids, d1, a, caps1, d2, b, caps2)
  {
    var after := Overwrite(Overwrite(t, ObservationsOf(ids, a, caps1)), ObservationsOf(ids, b, caps2));
    if AllStand(ids, after, a, caps1) {
      forall i, c | 0 <= i < |a| && c in caps1 && Reused(d1, a, d2, b, caps2, i, c)
        ensures ObservationOf(ids, b[i], c).observation == ObservationOf(ids, a[i], c).observation
      {
        assert Stands(ids, after, a[i], c);
        SlotSurvives(ids, d1, a, caps1, d2, b, caps2, t, i, c);
      }
    }
    if OnlySameReused(ids, d1, a, caps1, d2, b, caps2) {
      forall i, c | 0 <= i < |a| && c in caps1 ensures Stands(ids, after, a[i], c) {
        SlotSurvives(ids, d1, a, caps1, d2, b, caps2, t, i, c);
      }
    }
  }

  /** Every observation of a call still stands after a later one exactly when the later call reused
      none of its slots, or only to save the same values again. */
  lemma ObservationsSurviveIff(p: Circuit.Policy, first: Call, second: Call)
    requires WasServed(p, first) && WasServed(p, second) && second.before.observations == first.after.observations
    requires first.e.ids == second.e.ids
    requires TellsSlots(first.e.ids, first.e.decisionId, first.receipt.attempts, first.request.requiredCapabilities,
                        second.e.decisionId, second.receipt.attempts, second.request.requiredCapabilities)
    ensures AllStand(first.e.ids, second.after.observations, first.receipt.attempts, first.request.requiredCapabilities)
       <==> OnlySameReused(first.e.ids, first.e.decisionId, first.receipt.attempts, first.request.requiredCapabilities,
                           second.e.decisionId, second.receipt.attempts, second.request.requiredCapabilities)
  {
    ServedSaves(p, first);
    ServedSaves(p, second);
    SurviveIff(first.e.ids, first.e.decisionId, first.receipt.attempts, first.request.requiredCapabilities,
               second.e.decisionId, second.receipt.attempts, second.request.requiredCapabilities, first.before.observations);
  }
}
