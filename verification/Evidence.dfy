/** When recorded evidence suffices for an acceptance criterion. Time is in whole seconds. */
module Evidence {
  import opened Wrappers
  import opened Ordering

  /** The observation time of a record: absent or not a text, a text that is no date, or a time. */
  datatype Observed = Absent | Malformed | At(seconds: int)

  datatype Record = Record(
    evidenceId: string, criterionIds: set<string>, observed: Observed,
    status: string, result: string, verificationMethod: string)

  datatype Risk = Low | Medium | High | Critical

  datatype Criterion = Criterion(id: string, risk: Risk)

  datatype Policy = Policy(
    maxAge: nat, highRiskMethods: nat, criticalRiskMethods: nat, reviewForHighRisk: bool)

  datatype Review = Review(independent: bool, blockingFindings: nat)

  datatype State = Unknown | Fail | Blocked | Stale | Pass

  datatype Assessment = Assessment(evidenceId: string, state: State, verificationMethod: string, age: nat)

  function Age(now: int, seconds: int): nat { if now < seconds then 0 else now - seconds }

  function StateOf(r: Record, age: nat, p: Policy): State {
    if r.status != "VERIFIED" then Unknown
    else if r.result == "FAIL" then Fail
    else if r.result == "BLOCKED" then Blocked
    else if r.result != "PASS" then Unknown
    else if age > p.maxAge then Stale
    else Pass
  }

  /** The record is about the criterion and has a time to be read. */
  predicate Considered(c: Criterion, r: Record) { c.id in r.criterionIds && !r.observed.Absent? }

  predicate Readable(c: Criterion, records: seq<Record>) {
    forall r :: r in records && Considered(c, r) ==> r.observed.At?
  }

  predicate Passes(c: Criterion, r: Record, now: int, p: Policy) {
    Considered(c, r) && r.observed.At? && StateOf(r, Age(now, r.observed.seconds), p).Pass?
  }

  /** What a passing record is. */
  lemma PassesMeans(c: Criterion, r: Record, now: int, p: Policy)
    ensures Passes(c, r, now, p) <==>
              && c.id in r.criterionIds && r.observed.At? && now - r.observed.seconds <= p.maxAge
              && r.status == "VERIFIED" && r.result == "PASS"
  {
    assert "PASS"[0] == 'P' && "FAIL"[0] == 'F' && "BLOCKED"[0] == 'B';
  }

  /** The state a record is assessed with, by its fields. */
  lemma StateMeans(r: Record, age: nat, p: Policy)
    ensures var s, verified := StateOf(r, age, p), r.status == "VERIFIED";
            && (s.Fail? <==> verified && r.result == "FAIL")
            && (s.Blocked? <==> verified && r.result == "BLOCKED")
            && (s.Stale? <==> verified && r.result == "PASS" && age > p.maxAge)
            && (s.Pass? <==> verified && r.result == "PASS" && age <= p.maxAge)
            && (s.Unknown? <==> !verified || r.result !in {"FAIL", "BLOCKED", "PASS"})
  {
    assert "PASS"[0] == 'P' && "FAIL"[0] == 'F' && "BLOCKED"[0] == 'B';
  }

  function PassingMethods(c: Criterion, records: seq<Record>, now: int, p: Policy): set<string> {
    set r | r in records && Passes(c, r, now, p) :: r.verificationMethod
  }

  predicate ByEvidenceId(a: Assessment, b: Assessment) { StringLe(a.evidenceId, b.evidenceId) }

  function AssessmentOf(r: Record, now: int, p: Policy): Assessment
    requires r.observed.At?
  {
    var age := Age(now, r.observed.seconds);
    Assessment(r.evidenceId, StateOf(r, age, p), r.verificationMethod, age)
  }

  /** `x` assesses one of the considered records. */
  ghost predicate Assesses(c: Criterion, records: seq<Record>, now: int, p: Policy, x: Assessment) {
    exists r :: r in records && Considered(c, r) && r.observed.At? && x == AssessmentOf(r, now, p)
  }

  /** One assessment per considered record; a date that cannot be read ends the run. */
  method Assess(c: Criterion, records: seq<Record>, now: int, p: Policy) returns (r: Result<seq<Assessment>, string>)
    ensures r.Ok? <==> Readable(c, records)
    ensures r.Ok? ==> forall x :: x in r.value <==> Assesses(c, records, now, p, x)
    ensures r.Ok? ==> forall i, j :: 0 <= i < j < |r.value| ==> StringLe(r.value[i].evidenceId, r.value[j].evidenceId)
  {
    var assessments: seq<Assessment> := [];
    for i := 0 to |records|
      invariant Readable(c, records[..i])
      invariant forall x :: x in assessments <==> Assesses(c, records[..i], now, p, x)
    {
      var record := records[i];
      assert record in records && records[..i+1] == records[..i] + [record];
      if Considered(c, record) {
        if record.observed.Malformed? {
          return Err("invalid isoformat string");
        }
        ghost var before := assessments;
        var y := AssessmentOf(record, now, p);
        assessments := assessments + [y];
        forall x ensures x in assessments <==> Assesses(c, records[..i+1], now, p, x) {
          AssessesSnoc(c, records[..i], record, now, p, x);
        }
      } else {
        forall x ensures Assesses(c, records[..i], now, p, x) <==> Assesses(c, records[..i+1], now, p, x) {
          AssessesSnoc(c, records[..i], record, now, p, x);
        }
      }
    }
    assert records[..|records|] == records;
    OrderIsTotal();
    SortByMembers(ByEvidenceId, assessments);
    SortBySorted(ByEvidenceId, assessments);
    var sorted := SortBy(ByEvidenceId, assessments);
    forall i, j | 0 <= i < j < |sorted| ensures StringLe(sorted[i].evidenceId, sorted[j].evidenceId) {
      assert ByEvidenceId(sorted[i], sorted[j]);
    }
    return Ok(sorted);
  }

  lemma OrderIsTotal()
    ensures TotalPreorder(ByEvidenceId)
  {
    StringLeIsTotalOrder();
    forall x, y, z | ByEvidenceId(x, y) && ByEvidenceId(y, z) ensures ByEvidenceId(x, z) {}
  }

  lemma AssessesSnoc(c: Criterion, records: seq<Record>, record: Record, now: int, p: Policy, x: Assessment)
    ensures Assesses(c, records + [record], now, p, x) <==>
              || Assesses(c, records, now, p, x)
              || (Considered(c, record) && record.observed.At? && x == AssessmentOf(record, now, p))
  {
    assert forall r :: r in records + [record] <==> r in records || r == record;
  }

  function Required(c: Criterion, p: Policy): nat {
    match c.risk
    case High => p.highRiskMethods
    case Critical => p.criticalRiskMethods
    case _ => 1
  }

  predicate ReviewMissing(c: Criterion, review: Option<Review>, p: Policy) {
    && (c.risk.High? || c.risk.Critical?) && p.reviewForHighRisk
    && (review.None? || !review.value.independent || review.value.blockingFindings > 0)
  }

  datatype Lack = NoPassingEvidence | TooFewMethods(required: nat, observed: nat) | NoCleanReview

  method Sufficient(c: Criterion, assessments: seq<Assessment>, review: Option<Review>, p: Policy)
    returns (ok: bool, reasons: seq<Lack>)
    ensures ok <==> reasons == []
    ensures var methods := set x | x in assessments && x.state.Pass? :: x.verificationMethod;
            ok <==> methods != {} && |methods| >= Required(c, p) && !ReviewMissing(c, review, p)
  {
    var methods := set x | x in assessments && x.state.Pass? :: x.verificationMethod;
    reasons := [];
    if !exists x :: x in assessments && x.state.Pass? {
      reasons := [NoPassingEvidence];
    }
    assert methods == {} <==> reasons != [] by { SomePassing(assessments); }
    if |methods| < Required(c, p) {
      reasons := reasons + [TooFewMethods(Required(c, p), |methods|)];
    }
    if ReviewMissing(c, review, p) {
      reasons := reasons + [NoCleanReview];
    }
    ok := reasons == [];
  }

  lemma SomePassing(a: seq<Assessment>)
    ensures (exists x :: x in a && x.state.Pass?) <==> (set x | x in a && x.state.Pass? :: x.verificationMethod) != {}
  {
    var methods := set x | x in a && x.state.Pass? :: x.verificationMethod;
    if x :| x in a && x.state.Pass? { assert x.verificationMethod in methods; }
    if m :| m in methods { var x :| x in a && x.state.Pass? && x.verificationMethod == m; }
  }

  /** Assessment and sufficiency together, read off the ledger. */
  ghost predicate Suffices(c: Criterion, records: seq<Record>, now: int, review: Option<Review>, p: Policy) {
    var methods := PassingMethods(c, records, now, p);
    Readable(c, records) && methods != {} && |methods| >= Required(c, p) && !ReviewMissing(c, review, p)
  }

  /** A clean independent review. */
  predicate CleanReview(review: Option<Review>) {
    review.Some? && review.value.independent && review.value.blockingFindings == 0
  }

  /** The verdict by risk, from the fields of the policy and the review: low and medium risk need one
      method, high and critical risk need as many as the policy says, at least one, and a clean review
      if the policy asks for it. */
  lemma SufficesByRisk(c: Criterion, records: seq<Record>, now: int, review: Option<Review>, p: Policy)
    requires Readable(c, records)
    ensures var n := |PassingMethods(c, records, now, p)|;
            Suffices(c, records, now, review, p) <==>
              match c.risk
              case Low => n >= 1
              case Medium => n >= 1
              case High => n >= 1 && n >= p.highRiskMethods && (p.reviewForHighRisk ==> CleanReview(review))
              case Critical => n >= 1 && n >= p.criticalRiskMethods && (p.reviewForHighRisk ==> CleanReview(review))
  {
    var methods := PassingMethods(c, records, now, p);
    assert methods == {} <==> |methods| == 0;
  }

  method Judge(c: Criterion, records: seq<Record>, now: int, review: Option<Review>, p: Policy) returns (r: Result<bool, string>)
    ensures r.Ok? <==> Readable(c, records)
    ensures r == Ok(true) <==> Suffices(c, records, now, review, p)
  {
    var a := Assess(c, records, now, p);
    if a.Err? {
      return Err(a.error);
    }
    var ok, _ := Sufficient(c, a.value, review, p);
    assert (set x | x in a.value && x.state.Pass? :: x.verificationMethod) == PassingMethods(c, records, now, p) by {
      SameMethods(c, records, now, p, a.value);
    }
    return Ok(ok);
  }

  lemma SameMethods(c: Criterion, records: seq<Record>, now: int, p: Policy, a: seq<Assessment>)
    requires forall x :: x in a <==> Assesses(c, records, now, p, x)
    ensures (set x | x in a && x.state.Pass? :: x.verificationMethod) == PassingMethods(c, records, now, p)
  {
    var left, right := set x | x in a && x.state.Pass? :: x.verificationMethod, PassingMethods(c, records, now, p);
    forall m ensures m in left <==> m in right {
      if m in left {
        var x :| x in a && x.state.Pass? && x.verificationMethod == m;
        assert Assesses(c, records, now, p, x);
      }
      if m in right {
        var r :| r in records && Passes(c, r, now, p) && r.verificationMethod == m;
        assert Assesses(c, records, now, p, AssessmentOf(r, now, p));
      }
    }
  }

  /** More records and an earlier moment only add passing methods. */
  lemma PassingMethodsGrow(c: Criterion, r1: seq<Record>, t1: int, r2: seq<Record>, t2: int, p: Policy)
    requires t2 <= t1 && forall r :: r in r1 ==> r in r2
    ensures PassingMethods(c, r1, t1, p) <= PassingMethods(c, r2, t2, p)
  {
    forall m | m in PassingMethods(c, r1, t1, p) ensures m in PassingMethods(c, r2, t2, p) {
      var r :| r in r1 && Passes(c, r, t1, p) && r.verificationMethod == m;
      assert r in r2 && Passes(c, r, t2, p);
    }
  }

  /** Sufficiency is kept by every larger ledger, at every earlier moment, for every risk and policy,
      exactly when the larger ledger can be read at all. Failing records never take it away. */
  lemma SufficiencyMonotone(c: Criterion, r1: seq<Record>, t1: int, r2: seq<Record>, t2: int, review: Option<Review>, p: Policy)
    requires Suffices(c, r1, t1, review, p)
    requires t2 <= t1 && forall r :: r in r1 ==> r in r2
    ensures Suffices(c, r2, t2, review, p) <==> Readable(c, r2)
  {
    PassingMethodsGrow(c, r1, t1, r2, t2, p);
    SubsetSize(PassingMethods(c, r1, t1, p), PassingMethods(c, r2, t2, p));
  }

  /** One record with an unreadable date is enough to lose it. */
  lemma MalformedDateLosesSufficiency(c: Criterion, r1: seq<Record>, t: int, review: Option<Review>, p: Policy, bad: Record)
    requires Suffices(c, r1, t, review, p)
    requires c.id in bad.criterionIds && bad.observed.Malformed?
    ensures !Suffices(c, r1 + [bad], t, review, p)
  {
    assert bad in r1 + [bad];
  }
}
