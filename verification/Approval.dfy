/** Which findings a plan may be approved with, and the gate that refuses all others. */
module Approval {
  datatype Id = Id(name: string)

  datatype Severity = Blocker | Warning | Info

  /** `llm` is set on findings of the critic and not on those of the deterministic gates. */
  datatype Finding = Finding(id: Id, severity: Severity, llm: bool, message: string)

  datatype RiskTolerance = Strict | Balanced | Permissive

  datatype Outcome = Outcome(acknowledged: seq<Finding>, pending: seq<Finding>, blockers: seq<Finding>)

  predicate Satisfied(o: Outcome) {
    o.blockers == [] && o.pending == []
  }

  /** A blocker that no tolerance excuses. */
  predicate Deterministic(f: Finding) {
    f.severity.Blocker? && !f.llm
  }

  /** A finding that keeps a plan from being approved. */
  predicate Disqualifies(f: Finding, tolerance: RiskTolerance) {
    Deterministic(f) || (tolerance.Strict? && !f.severity.Info?)
  }

  ghost predicate Meets(findings: seq<Finding>, tolerance: RiskTolerance) {
    forall f | f in findings :: !Disqualifies(f, tolerance)
  }

  datatype Class = Ignored | Acknowledged | Pending | Blocking

  /** Information is ignored; of the rest, what does not disqualify is acknowledged. */
  function ClassOf(f: Finding, tolerance: RiskTolerance): Class {
    if f.severity.Info? then Ignored
    else if !Disqualifies(f, tolerance) then Acknowledged
    else if f.severity.Warning? then Pending
    else Blocking
  }

  /** The findings of some classes, in the order they came. */
  function Pick(findings: seq<Finding>, tolerance: RiskTolerance, classes: set<Class>): (r: seq<Finding>)
    ensures forall f :: f in r <==> f in findings && ClassOf(f, tolerance) in classes
  {
    if findings == [] then []
    else
      var n := |findings| - 1;
      var front := Pick(findings[..n], tolerance, classes);
      assert findings == findings[..n] + [findings[n]];
      if ClassOf(findings[n], tolerance) in classes then front + [findings[n]] else front
  }

  ghost predicate Sorted(findings: seq<Finding>, tolerance: RiskTolerance, o: Outcome) {
    && o.acknowledged == Pick(findings, tolerance, {Acknowledged})
    && o.pending == Pick(findings, tolerance, {Pending})
    && o.blockers == Pick(findings, tolerance, {Blocking})
  }

  function Graded(findings: seq<Finding>): (r: seq<Finding>)
    ensures forall f :: f in r <==> f in findings && !f.severity.Info?
  {
    if findings == [] then []
    else
      var n := |findings| - 1;
      var front := Graded(findings[..n]);
      assert findings == findings[..n] + [findings[n]];
      if findings[n].severity.Info? then front else front + [findings[n]]
  }

  lemma PickOneMore(findings: seq<Finding>, i: nat, tolerance: RiskTolerance, classes: set<Class>)
    requires i < |findings|
    ensures Pick(findings[..i + 1], tolerance, classes)
        == Pick(findings[..i], tolerance, classes)
           + if ClassOf(findings[i], tolerance) in classes then [findings[i]] else []
  {
    assert findings[..i + 1][..i] == findings[..i];
  }

  /** The three lists together hold every finding above information level exactly as often as it came. */
  lemma {:induction false} NothingIsLost(findings: seq<Finding>, tolerance: RiskTolerance)
    ensures multiset(Pick(findings, tolerance, {Acknowledged})) + multiset(Pick(findings, tolerance, {Pending}))
          + multiset(Pick(findings, tolerance, {Blocking})) == multiset(Graded(findings))
  {
    if findings != [] {
      NothingIsLost(findings[..|findings| - 1], tolerance);
    }
  }

  method ResolveThreshold(findings: seq<Finding>, tolerance: RiskTolerance) returns (satisfied: bool, outcome: Outcome)
    ensures satisfied == Satisfied(outcome)
    ensures satisfied <==> Meets(findings, tolerance)
    ensures Sorted(findings, tolerance, outcome)
    ensures Classified(findings, tolerance, outcome)
    ensures multiset(outcome.acknowledged) + multiset(outcome.pending) + multiset(outcome.blockers)
        == multiset(Graded(findings))
  {
    var blockers, acknowledged, pending := [], [], [];
    for i := 0 to |findings|
      invariant Sorted(findings[..i], tolerance, Outcome(acknowledged, pending, blockers))
    {
      var f := findings[i];
      PickOneMore(findings, i, tolerance, {Acknowledged});
      PickOneMore(findings, i, tolerance, {Pending});
      PickOneMore(findings, i, tolerance, {Blocking});
      if f.severity.Blocker? {
        if f.llm && !tolerance.Strict? {
          acknowledged := acknowledged + [f];
        } else {
          blockers := blockers + [f];
        }
      } else if f.severity.Warning? {
        if tolerance.Strict? {
          pending := pending + [f];
        } else {
          acknowledged := acknowledged + [f];
        }
      }
    }
    assert findings[..|findings|] == findings;
    outcome := Outcome(acknowledged, pending, blockers);
    satisfied := Satisfied(outcome);
    SatisfiedIffMeets(findings, tolerance, outcome);
    NothingIsLost(findings, tolerance);
    SortedIsClassified(findings, tolerance, outcome);
  }

  /** What goes where, by severity, source and tolerance, each list in the order the findings came. */
  ghost predicate Classified(findings: seq<Finding>, tolerance: RiskTolerance, o: Outcome) {
    && (forall f :: f in o.blockers <==> f in findings && f.severity == Blocker && (!f.llm || tolerance == Strict))
    && (forall f :: f in o.pending <==> f in findings && f.severity == Warning && tolerance == Strict)
    && (forall f :: f in o.acknowledged <==>
          f in findings && tolerance != Strict && (f.severity == Warning || (f.severity == Blocker && f.llm)))
    && InOrder(findings, o.blockers) && InOrder(findings, o.pending) && InOrder(findings, o.acknowledged)
  }

  lemma SortedIsClassified(findings: seq<Finding>, tolerance: RiskTolerance, o: Outcome)
    requires Sorted(findings, tolerance, o)
    ensures Classified(findings, tolerance, o)
  {
    PickInOrder(findings, tolerance, {Acknowledged});
    PickInOrder(findings, tolerance, {Pending});
    PickInOrder(findings, tolerance, {Blocking});
  }

  /** The picked findings stand at increasing places of the list. */
  ghost predicate InOrder(findings: seq<Finding>, picked: seq<Finding>) {
    exists at: seq<nat> :: Places(findings, picked, at)
  }

  ghost predicate Places(findings: seq<Finding>, picked: seq<Finding>, at: seq<nat>) {
    && |at| == |picked|
    && (forall i | 0 <= i < |at| :: at[i] < |findings| && findings[at[i]] == picked[i])
    && (forall i, j | 0 <= i < j < |at| :: at[i] < at[j])
  }

  lemma {:induction false} PickInOrder(findings: seq<Finding>, tolerance: RiskTolerance, classes: set<Class>)
    ensures InOrder(findings, Pick(findings, tolerance, classes))
  {
    if findings == [] {
      assert Places(findings, [], []);
    } else {
      var n: nat := |findings| - 1;
      PickInOrder(findings[..n], tolerance, classes);
      var front := Pick(findings[..n], tolerance, classes);
      var at: seq<nat> :| Places(findings[..n], front, at);
      if ClassOf(findings[n], tolerance) in classes {
        assert Places(findings, front + [findings[n]], at + [n]);
      } else {
        assert Places(findings, front, at);
      }
    }
  }

  lemma SatisfiedIffMeets(findings: seq<Finding>, tolerance: RiskTolerance, o: Outcome)
    requires Sorted(findings, tolerance, o)
    ensures Satisfied(o) <==> Meets(findings, tolerance)
  {
    if f :| f in findings && Disqualifies(f, tolerance) {
      assert f in o.blockers || f in o.pending;
    }
    if o.blockers != [] {
      assert o.blockers[0] in o.blockers;
    }
    if o.pending != [] {
      assert o.pending[0] in o.pending;
    }
  }

  /** Meeting the strict threshold means meeting all of them, and the other two tolerances agree. */
  lemma StrictIsStrictest(findings: seq<Finding>, tolerance: RiskTolerance)
    ensures Meets(findings, Strict) ==> Meets(findings, tolerance)
    ensures Meets(findings, Balanced) <==> Meets(findings, Permissive)
  {
  }

  /** Adding findings never turns a failure into a pass. */
  lemma MoreFindingsNeverHelp(findings: seq<Finding>, more: seq<Finding>, tolerance: RiskTolerance)
    requires forall f | f in findings :: f in more
    requires Meets(more, tolerance)
    ensures Meets(findings, tolerance)
  {
  }

  datatype Approved<P> = Refused | Approved(plan: P, findings: seq<Finding>, tolerance: RiskTolerance)

  function Approve<P>(plan: P, outcome: Outcome, tolerance: RiskTolerance): Approved<P> {
    if Satisfied(outcome) then Approved(plan, outcome.acknowledged, tolerance) else Refused
  }

  /**
   * The gate trusts the outcome it is given. An outcome that was resolved under tolerance `resolved` and is
   * approved by a gate of tolerance `gate` is sure to meet the gate's own threshold exactly when the outcome was
   * resolved strictly or the gate is not strict.
   */
  lemma GateTrustsOutcomeIff(resolved: RiskTolerance, gate: RiskTolerance)
    ensures (forall findings, o | Sorted(findings, resolved, o) && Approve((), o, gate).Approved? ::
               Meets(findings, gate)) <==>
            resolved.Strict? || !gate.Strict?
  {
    if resolved.Strict? || !gate.Strict? {
      forall findings, o | Sorted(findings, resolved, o) && Approve((), o, gate).Approved?
          ensures Meets(findings, gate) {
        SatisfiedIffMeets(findings, resolved, o);
      }
    } else {
      var f := Finding(Id(""), Warning, false, "");
      var o := Outcome(Pick([f], resolved, {Acknowledged}), Pick([f], resolved, {Pending}),
          Pick([f], resolved, {Blocking}));
      SatisfiedIffMeets([f], resolved, o);
      assert Sorted([f], resolved, o) && Approve((), o, gate).Approved?;
      assert f in [f] && Disqualifies(f, gate);
    }
  }

  /**
   * Resolving under one tolerance and approving with a gate of another; a caller that uses one
   * for both is `ApproveFindings`.
   */
  method ApproveResolved<P>(plan: P, findings: seq<Finding>, resolved: RiskTolerance, gate: RiskTolerance)
    returns (r: Approved<P>)
    ensures r.Approved? <==> Meets(findings, resolved)
    ensures r.Approved? ==> r.plan == plan && r.tolerance == gate && r.findings == Graded(findings)
    ensures r.Approved? && (resolved.Strict? || !gate.Strict?) ==> Meets(findings, gate)
    ensures r.Approved? ==> forall f | f in findings :: !Deterministic(f)
  {
    var satisfied, outcome := ResolveThreshold(findings, resolved);
    r := Approve(plan, outcome, gate);
    if satisfied {
      AllAcknowledged(findings, resolved);
    }
  }

  /**
   * Resolving and approving under one tolerance is fail-closed: the plan becomes executable exactly when no
   * finding disqualifies it, no deterministic blocker is ever on board, and the approved record then holds
   * every graded finding, so that nothing above information level is lost.
   */
  method ApproveFindings<P>(plan: P, findings: seq<Finding>, tolerance: RiskTolerance) returns (r: Approved<P>)
    ensures r.Approved? <==> Meets(findings, tolerance)
    ensures r.Approved? <==> forall f | f in findings ::
              f.severity == Info || (tolerance != Strict && (f.severity == Warning || f.llm))
    ensures r.Approved? ==> r.plan == plan && r.findings == Graded(findings)
                            && !exists f :: f in findings && Deterministic(f)
    ensures r.Approved? ==>
              InOrder(findings, r.findings) && forall f :: f in r.findings <==> f in findings && f.severity != Info
    ensures r.Approved? && tolerance.Strict? ==> r.findings == []
  {
    r := ApproveResolved(plan, findings, tolerance, tolerance);
    if r.Approved? {
      AllAcknowledged(findings, tolerance);
      PickInOrder(findings, tolerance, {Acknowledged});
    }
    if r.Approved? && r.findings != [] {
      assert r.findings[0] in r.findings;
    }
  }

  lemma {:induction false} AllAcknowledged(findings: seq<Finding>, tolerance: RiskTolerance)
    requires Meets(findings, tolerance)
    ensures Pick(findings, tolerance, {Acknowledged}) == Graded(findings)
  {
    if findings != [] {
      AllAcknowledged(findings[..|findings| - 1], tolerance);
    }
  }
}
