/** Escalations and human patches over the plan store: what is refused, what is stored, what a run keeps. */
module Escalation {
  import opened Common
  import opened Approval

  datatype Plan = Plan(id: Id, version: nat, parent: Option<Id>)

  datatype Key = Key(id: Id, version: nat)

  datatype Status = Open | ApprovedByHuman | Denied

  datatype Escalation = Escalation(
    id: Id, planId: Id, version: nat, question: string,
    status: Status, resolution: Option<string>, resolvedAt: Option<real>, resolvedBy: Option<Id>)

  datatype Store = Store(plans: map<Key, Plan>, findings: map<Key, seq<Finding>>, escalations: map<Id, Escalation>)

  /** Revisions are stored under their own id and version. */
  ghost predicate KeysMatch(s: Store) {
    && (forall k | k in s.plans :: s.plans[k].id == k.id && s.plans[k].version == k.version)
    && (forall p | p in s.escalations :: s.escalations[p].planId == p)
  }

  ghost predicate IsLatest(plans: map<Key, Plan>, id: Id, version: nat) {
    && Key(id, version) in plans
    && forall k | k in plans && k.id == id :: k.version <= version
  }

  method GetLatest(plans: map<Key, Plan>, id: Id) returns (r: Option<Plan>)
    ensures r.None? <==> forall k | k in plans :: k.id != id
    ensures r.Some? ==> exists v: nat :: IsLatest(plans, id, v) && r.value == plans[Key(id, v)]
  {
    r := None;
    var best := 0;
    var keys := plans.Keys;
    while keys != {}
      invariant keys <= plans.Keys
      invariant r.None? <==> forall k | k in plans.Keys - keys :: k.id != id
      invariant r.Some? ==> Key(id, best) in plans && r.value == plans[Key(id, best)]
      invariant r.Some? ==> forall k | k in plans.Keys - keys && k.id == id :: k.version <= best
      decreases keys
    {
      var k :| k in keys;
      if k.id == id && (r.None? || k.version > best) {
        r, best := Some(plans[k]), k.version;
      }
      keys := keys - {k};
    }
    if r.Some? {
      assert IsLatest(plans, id, best);
    }
  }

  // --------------------------------------------------------------------- merged findings

  ghost predicate Names(findings: seq<Finding>, id: Id) {
    exists i :: 0 <= i < |findings| && findings[i].id == id
  }

  ghost predicate IsLastOfItsId(findings: seq<Finding>, i: int) {
    0 <= i < |findings| && forall j | i < j < |findings| :: findings[j].id != findings[i].id
  }

  ghost predicate IsFirstOfItsId(findings: seq<Finding>, i: int) {
    0 <= i < |findings| && forall j | 0 <= j < i :: findings[j].id != findings[i].id
  }

  /** Whose finding an id ends up with: the last gate finding of that id, or else the first critic finding. */
  ghost predicate Wins(gate: seq<Finding>, critic: seq<Finding>, f: Finding) {
    || (exists i :: IsLastOfItsId(gate, i) && gate[i] == f)
    || (!Names(gate, f.id) && exists i :: IsFirstOfItsId(critic, i) && critic[i] == f)
  }

  lemma OneWinner(gate: seq<Finding>, critic: seq<Finding>, f: Finding, g: Finding)
    requires Wins(gate, critic, f) && Wins(gate, critic, g) && f.id == g.id
    ensures f == g
  {
  }

  lemma WinnerIsNamed(gate: seq<Finding>, critic: seq<Finding>, f: Finding)
    requires Wins(gate, critic, f)
    ensures Names(gate + critic, f.id)
  {
    NamesJoin(gate, critic, f.id);
  }

  lemma NamesJoin(a: seq<Finding>, b: seq<Finding>, id: Id)
    ensures Names(a + b, id) <==> Names(a, id) || Names(b, id)
  {
    if i :| 0 <= i < |a| && a[i].id == id {
      assert (a + b)[i].id == id;
    }
    if i :| 0 <= i < |b| && b[i].id == id {
      assert (a + b)[|a| + i].id == id;
    }
  }

  /** The ids in order of first appearance. */
  function FirstSeen(findings: seq<Finding>): (r: seq<Id>)
    ensures forall i, j | 0 <= i < j < |r| :: r[i] != r[j]
    ensures forall id :: id in r <==> Names(findings, id)
  {
    if findings == [] then []
    else
      var n := |findings| - 1;
      var front := FirstSeen(findings[..n]);
      assert forall id :: Names(findings, id) <==> Names(findings[..n], id) || findings[n].id == id by {
        assert findings == findings[..n] + [findings[n]];
        forall id ensures Names(findings, id) <==> Names(findings[..n], id) || findings[n].id == id {
          NamesJoin(findings[..n], [findings[n]], id);
        }
      }
      if findings[n].id in front then front else front + [findings[n].id]
  }

  /** One finding per id, in order of first appearance, each the winner of its id. */
  ghost predicate IsMerge(gate: seq<Finding>, critic: seq<Finding>, merged: seq<Finding>) {
    && |merged| == |FirstSeen(gate + critic)|
    && (forall i | 0 <= i < |merged| :: merged[i].id == FirstSeen(gate + critic)[i])
    && (forall i | 0 <= i < |merged| :: Wins(gate, critic, merged[i]))
  }

  lemma MergesAgree(gate: seq<Finding>, critic: seq<Finding>, a: seq<Finding>, b: seq<Finding>)
    requires IsMerge(gate, critic, a) && IsMerge(gate, critic, b)
    ensures a == b
  {
    forall i | 0 <= i < |a| ensures a[i] == b[i] {
      OneWinner(gate, critic, a[i], b[i]);
    }
  }

  /** The merge holds exactly the winners. */
  lemma MergeHoldsWinners(gate: seq<Finding>, critic: seq<Finding>, merged: seq<Finding>, f: Finding)
    requires IsMerge(gate, critic, merged)
    ensures f in merged <==> Wins(gate, critic, f)
  {
    if Wins(gate, critic, f) {
      WinnerIsNamed(gate, critic, f);
      var ids := FirstSeen(gate + critic);
      var i :| 0 <= i < |ids| && ids[i] == f.id;
      OneWinner(gate, critic, merged[i], f);
    }
  }

  lemma FirstSeenOneMore(findings: seq<Finding>, f: Finding)
    ensures FirstSeen(findings + [f]) == FirstSeen(findings) + if f.id in FirstSeen(findings) then [] else [f.id]
  {
    assert (findings + [f])[..|findings|] == findings;
  }

  /** The dictionary after `gate` and then `critic`: an ordered list of ids and the value of each. */
  ghost predicate Merging(gate: seq<Finding>, critic: seq<Finding>, order: seq<Id>, seen: map<Id, Finding>) {
    && order == FirstSeen(gate + critic)
    && (forall id :: id in order <==> id in seen)
    && (forall id | id in seen :: seen[id].id == id && Wins(gate, critic, seen[id]))
  }

  function Noted(order: seq<Id>, id: Id): seq<Id> {
    if id in order then order else order + [id]
  }

  lemma GateKeepsWinner(gate: seq<Finding>, f: Finding, g: Finding)
    requires Wins(gate, [], g) && g.id != f.id
    ensures Wins(gate + [f], [], g)
  {
    var i :| IsLastOfItsId(gate, i) && gate[i] == g;
    assert IsLastOfItsId(gate + [f], i) && (gate + [f])[i] == g;
  }

  lemma GateWins(gate: seq<Finding>, f: Finding)
    ensures Wins(gate + [f], [], f)
  {
    assert IsLastOfItsId(gate + [f], |gate|) && (gate + [f])[|gate|] == f;
  }

  lemma CriticKeepsWinner(gate: seq<Finding>, critic: seq<Finding>, f: Finding, g: Finding)
    requires Wins(gate, critic, g)
    ensures Wins(gate, critic + [f], g)
  {
    if i :| IsFirstOfItsId(critic, i) && critic[i] == g {
      assert IsFirstOfItsId(critic + [f], i) && (critic + [f])[i] == g;
    }
  }

  lemma CriticWins(gate: seq<Finding>, critic: seq<Finding>, f: Finding)
    requires !Names(gate + critic, f.id)
    ensures Wins(gate, critic + [f], f)
  {
    NamesJoin(gate, critic, f.id);
    assert IsFirstOfItsId(critic + [f], |critic|) && (critic + [f])[|critic|] == f;
  }

  lemma GateStep(gate: seq<Finding>, f: Finding, order: seq<Id>, seen: map<Id, Finding>)
    requires Merging(gate, [], order, seen)
    ensures Merging(gate + [f], [], Noted(order, f.id), seen[f.id := f])
  {
    assert gate + [] == gate && (gate + [f]) + [] == gate + [f];
    FirstSeenOneMore(gate, f);
    var seen' := seen[f.id := f];
    forall id | id in seen' ensures seen'[id].id == id && Wins(gate + [f], [], seen'[id]) {
      if id == f.id {
        GateWins(gate, f);
      } else {
        GateKeepsWinner(gate, f, seen[id]);
      }
    }
  }

  lemma CriticOrder(gate: seq<Finding>, critic: seq<Finding>, f: Finding)
    ensures FirstSeen(gate + (critic + [f])) == Noted(FirstSeen(gate + critic), f.id)
  {
    assert gate + (critic + [f]) == (gate + critic) + [f];
    FirstSeenOneMore(gate + critic, f);
  }

  lemma CriticStep(gate: seq<Finding>, critic: seq<Finding>, f: Finding, order: seq<Id>, seen: map<Id, Finding>)
    requires Merging(gate, critic, order, seen)
    ensures Merging(gate, critic + [f], Noted(order, f.id), if f.id in seen then seen else seen[f.id := f])
  {
    CriticOrder(gate, critic, f);
    var later := critic + [f];
    var seen' := if f.id in seen then seen else seen[f.id := f];
    forall id | id in seen' ensures seen'[id].id == id && Wins(gate, later, seen'[id]) {
      if id in seen {
        CriticKeepsWinner(gate, critic, f, seen[id]);
      } else {
        CriticWins(gate, critic, f);
      }
    }
  }

  /** Some finding of the first id comes before every finding of the second. */
  ghost predicate SeenBefore(findings: seq<Finding>, a: Id, b: Id) {
    exists x | 0 <= x < |findings| && findings[x].id == a :: forall y | 0 <= y <= x :: findings[y].id != b
  }

  lemma {:induction false} FirstSeenInOrder(findings: seq<Finding>, i: nat, j: nat)
    requires i < j < |FirstSeen(findings)|
    ensures SeenBefore(findings, FirstSeen(findings)[i], FirstSeen(findings)[j])
  {
    var n := |findings| - 1;
    var front, ids := FirstSeen(findings[..n]), FirstSeen(findings);
    SplitLast(findings);
    FirstSeenOneMore(findings[..n], findings[n]);
    assert Names(findings[..n], ids[i]) by {
      assert ids[i] in front;
    }
    if j < |front| {
      FirstSeenInOrder(findings[..n], i, j);
      var x :| 0 <= x < n && findings[..n][x].id == ids[i] && forall y | 0 <= y <= x :: findings[..n][y].id != ids[j];
      assert findings[x].id == ids[i] && forall y | 0 <= y <= x :: findings[y].id == findings[..n][y].id;
    } else {
      var x :| 0 <= x < n && findings[..n][x].id == ids[i];
      assert findings[x].id == ids[i];
      forall y | 0 <= y <= x ensures findings[y].id != ids[j] {
        assert findings[..n][y] == findings[y] && Names(findings[..n], findings[y].id);
      }
    }
  }

  method MergeFindings(gate: seq<Finding>, critic: seq<Finding>) returns (merged: seq<Finding>)
    ensures IsMerge(gate, critic, merged)
    ensures forall id :: (exists f | f in merged :: f.id == id) <==> Names(gate, id) || Names(critic, id)
    ensures forall i, j | 0 <= i < j < |merged| ::
              merged[i].id != merged[j].id && SeenBefore(gate + critic, merged[i].id, merged[j].id)
  {
    var order: seq<Id>, seen: map<Id, Finding> := [], map[];
    for i := 0 to |gate|
      invariant Merging(gate[..i], [], order, seen)
    {
      GateStep(gate[..i], gate[i], order, seen);
      assert gate[..i] + [gate[i]] == gate[..i + 1];
      order, seen := Noted(order, gate[i].id), seen[gate[i].id := gate[i]];
    }
    assert gate[..|gate|] == gate;
    for i := 0 to |critic|
      invariant Merging(gate, critic[..i], order, seen)
    {
      CriticStep(gate, critic[..i], critic[i], order, seen);
      assert critic[..i] + [critic[i]] == critic[..i + 1];
      order, seen := Noted(order, critic[i].id), if critic[i].id in seen then seen else seen[critic[i].id := critic[i]];
    }
    assert critic[..|critic|] == critic;
    merged := seq(|order|, i requires 0 <= i < |order| => assert order[i] in order; seen[order[i]]);
    MergeNames(gate, critic, merged);
  }

  lemma MergeNames(gate: seq<Finding>, critic: seq<Finding>, merged: seq<Finding>)
    requires IsMerge(gate, critic, merged)
    ensures forall id :: (exists f | f in merged :: f.id == id) <==> Names(gate, id) || Names(critic, id)
    ensures forall i, j | 0 <= i < j < |merged| ::
              merged[i].id != merged[j].id && SeenBefore(gate + critic, merged[i].id, merged[j].id)
  {
    var ids := FirstSeen(gate + critic);
    forall id ensures (exists f | f in merged :: f.id == id) <==> Names(gate, id) || Names(critic, id) {
      NamesJoin(gate, critic, id);
      if f :| f in merged && f.id == id {
        var i :| 0 <= i < |merged| && merged[i] == f;
        assert ids[i] in ids;
      }
      if id in ids {
        var i :| 0 <= i < |ids| && ids[i] == id;
        assert merged[i] in merged;
      }
    }
    forall i, j | 0 <= i < j < |merged|
      ensures merged[i].id != merged[j].id && SeenBefore(gate + critic, merged[i].id, merged[j].id)
    {
      FirstSeenInOrder(gate + critic, i, j);
    }
  }

  lemma {:induction false} DictionaryExists(gate: seq<Finding>, critic: seq<Finding>)
    returns (order: seq<Id>, seen: map<Id, Finding>)
    ensures Merging(gate, critic, order, seen)
    decreases |gate| + |critic|
  {
    if critic != [] {
      var n := |critic| - 1;
      order, seen := DictionaryExists(gate, critic[..n]);
      CriticStep(gate, critic[..n], critic[n], order, seen);
      assert critic[..n] + [critic[n]] == critic;
      order, seen := Noted(order, critic[n].id), if critic[n].id in seen then seen else seen[critic[n].id := critic[n]];
    } else if gate != [] {
      var n := |gate| - 1;
      order, seen := DictionaryExists(gate[..n], []);
      GateStep(gate[..n], gate[n], order, seen);
      assert gate[..n] + [gate[n]] == gate;
      order, seen := Noted(order, gate[n].id), seen[gate[n].id := gate[n]];
    } else {
      order, seen := [], map[];
    }
  }

  lemma MergeExists(gate: seq<Finding>, critic: seq<Finding>)
    ensures exists m :: IsMerge(gate, critic, m)
  {
    var order, seen := DictionaryExists(gate, critic);
    var m := seq(|order|, i requires 0 <= i < |order| => assert order[i] in order; seen[order[i]]);
    assert IsMerge(gate, critic, m);
  }

  ghost function Merged(gate: seq<Finding>, critic: seq<Finding>): (m: seq<Finding>)
    ensures IsMerge(gate, critic, m)
  {
    MergeExists(gate, critic);
    var m :| IsMerge(gate, critic, m);
    m
  }

  // ----------------------------------------------------------------------------- patches

  /** No winner is a deterministic blocker. */
  ghost predicate Clean(gate: seq<Finding>, critic: seq<Finding>) {
    forall f | Wins(gate, critic, f) :: !Deterministic(f)
  }

  /** The re-critique and the approval threshold agree: clean means meeting every tolerance but strict. */
  lemma CleanIffMeets(gate: seq<Finding>, critic: seq<Finding>, tolerance: RiskTolerance)
    requires !tolerance.Strict?
    ensures Clean(gate, critic) <==> Meets(Merged(gate, critic), tolerance)
  {
    var m := Merged(gate, critic);
    if Clean(gate, critic) {
      forall f | f in m ensures !Disqualifies(f, tolerance) {
        MergeHoldsWinners(gate, critic, m, f);
      }
    } else {
      var f :| Wins(gate, critic, f) && Deterministic(f);
      MergeHoldsWinners(gate, critic, m, f);
    }
  }

  /** A patch is refused whatever the critic says exactly when some gate blocker is the last gate finding of its id. */
  lemma RefusedForEveryCriticIff(gate: seq<Finding>)
    ensures (forall critic :: !Clean(gate, critic)) <==> exists i :: IsLastOfItsId(gate, i) && Deterministic(gate[i])
  {
    if i :| IsLastOfItsId(gate, i) && Deterministic(gate[i]) {
      forall critic ensures !Clean(gate, critic) {
        assert Wins(gate, critic, gate[i]);
      }
    } else {
      assert Clean(gate, []);
    }
  }

  /** With distinct gate ids every gate blocker refuses the patch, whatever the critic says. */
  lemma GateBlockerRefuses(gate: seq<Finding>, critic: seq<Finding>, i: nat)
    requires forall j, k | 0 <= j < k < |gate| :: gate[j].id != gate[k].id
    requires i < |gate| && Deterministic(gate[i])
    ensures !Clean(gate, critic) && gate[i] in Merged(gate, critic)
  {
    assert IsLastOfItsId(gate, i);
    assert Wins(gate, critic, gate[i]);
    MergeHoldsWinners(gate, critic, Merged(gate, critic), gate[i]);
  }

  /** Two gate findings that share an id: the later warning hides the earlier blocker. */
  lemma SharedIdHidesBlocker(id: Id)
    ensures var gate := [Finding(id, Blocker, false, ""), Finding(id, Warning, false, "")];
            Deterministic(gate[0]) && Clean(gate, [])
  {
    var gate := [Finding(id, Blocker, false, ""), Finding(id, Warning, false, "")];
    forall f | Wins(gate, [], f) ensures !Deterministic(f) {
      var i :| IsLastOfItsId(gate, i) && gate[i] == f;
      assert gate[1].id == gate[0].id;
    }
  }

  datatype Refusal = UnknownPlan | WrongRevision | NotClean

  ghost predicate NextRevision(plans: map<Key, Plan>, planId: Id, patch: Plan) {
    exists v: nat :: IsLatest(plans, planId, v) && patch.version == v + 1 && patch.parent == Some(planId)
  }

  ghost predicate PatchAccepted(s: Store, planId: Id, patch: Plan, gate: seq<Finding>, critic: seq<Finding>) {
    NextRevision(s.plans, planId, patch) && Clean(gate, critic)
  }

  /** The revision goes under the patch's own id, the findings under the id that was asked for. */
  ghost function StorePatch(s: Store, planId: Id, patch: Plan, findings: seq<Finding>): Store {
    s.(plans := s.plans[Key(patch.id, patch.version) := patch],
       findings := s.findings[Key(planId, patch.version) := findings])
  }

  /**
   * An accepted patch raises the latest version of the plan by one exactly when it carries the plan's id;
   * otherwise the plan stays where it was and the findings belong to a revision that is not stored.
   */
  lemma PatchRaisesVersionIff(s: Store, planId: Id, v: nat, patch: Plan, findings: seq<Finding>)
    requires IsLatest(s.plans, planId, v) && patch.version == v + 1
    ensures var s' := StorePatch(s, planId, patch, findings);
            && (IsLatest(s'.plans, planId, v + 1) <==> patch.id == planId)
            && (patch.id != planId ==> IsLatest(s'.plans, planId, v))
            && (Key(planId, patch.version) in s'.plans <==> patch.id == planId)
  {
  }

  /** A patch with the plan's id overwrites no stored revision and moves no other plan. */
  lemma OwnPatchOverwritesNothing(s: Store, planId: Id, patch: Plan, findings: seq<Finding>)
    requires NextRevision(s.plans, planId, patch) && patch.id == planId
    ensures var s' := StorePatch(s, planId, patch, findings);
            && (forall k | k in s.plans :: k in s'.plans && s'.plans[k] == s.plans[k])
            && (forall other, w | other != planId :: IsLatest(s'.plans, other, w) <==> IsLatest(s.plans, other, w))
  {
    var s' := StorePatch(s, planId, patch, findings);
    forall other, w | other != planId ensures IsLatest(s'.plans, other, w) <==> IsLatest(s.plans, other, w) {
      if IsLatest(s'.plans, other, w) {
        forall k | k in s.plans && k.id == other ensures k.version <= w {
          assert k in s'.plans;
        }
      }
    }
  }

  /**
   * A patch changes a stored revision exactly when its own id and version are already taken by a different one,
   * and a patch of the next revision finds them taken only under another plan's id.
   */
  lemma PatchOverwritesIff(s: Store, planId: Id, patch: Plan, findings: seq<Finding>)
    requires NextRevision(s.plans, planId, patch)
    ensures var s', own := StorePatch(s, planId, patch, findings), Key(patch.id, patch.version);
            && (forall k | k in s.plans :: k in s'.plans)
            && ((exists k | k in s.plans :: s'.plans[k] != s.plans[k]) <==> own in s.plans && s.plans[own] != patch)
            && (own in s.plans ==> patch.id != planId)
  {
    var own := Key(patch.id, patch.version);
    if own in s.plans && s.plans[own] != patch {
      assert StorePatch(s, planId, patch, findings).plans[own] == patch;
    }
  }

  /** A patch that carries another plan's id can replace a stored revision of that plan. */
  lemma ForeignPatchOverwrites(a: Id, b: Id)
    requires a != b
    ensures var s := Store(map[Key(a, 1) := Plan(a, 1, None), Key(b, 2) := Plan(b, 2, None)], map[], map[]);
            var patch := Plan(b, 2, Some(a));
            && KeysMatch(s) && PatchAccepted(s, a, patch, [], [])
            && StorePatch(s, a, patch, []).plans[Key(b, 2)] != s.plans[Key(b, 2)]
  {
    var s := Store(map[Key(a, 1) := Plan(a, 1, None), Key(b, 2) := Plan(b, 2, None)], map[], map[]);
    assert IsLatest(s.plans, a, 1);
  }

  // ------------------------------------------------------------------------- escalations

  predicate CreateAccepted(s: Store, e: Escalation) {
    && Key(e.planId, e.version) in s.plans && !Blank(e.question)
    && !(e.planId in s.escalations && s.escalations[e.planId].status.Open?)
  }

  /** The order of texts by code points, which the store lists plans by. */
  predicate Le(a: string, b: string) {
    a == "" || (b != "" && (a[0] < b[0] || (a[0] == b[0] && Le(a[1..], b[1..]))))
  }

  lemma {:induction false} LeTotal(a: string, b: string)
    ensures Le(a, b) || Le(b, a)
  {
    if a != "" && b != "" && a[0] == b[0] {
      LeTotal(a[1..], b[1..]);
    }
  }

  lemma {:induction false} LeTransitive(a: string, b: string, c: string)
    requires Le(a, b) && Le(b, c)
    ensures Le(a, c)
  {
    if a != "" && a[0] == b[0] && b[0] == c[0] {
      LeTransitive(a[1..], b[1..], c[1..]);
    }
  }

  lemma {:induction false} LeAntisymmetric(a: string, b: string)
    requires Le(a, b) && Le(b, a)
    ensures a == b
  {
    if a != "" {
      LeAntisymmetric(a[1..], b[1..]);
      assert a == [a[0]] + a[1..] && b == [b[0]] + b[1..];
    }
  }

  /** Le is the order of texts: up to some place they agree, and there the first ends or has the smaller character. */
  lemma {:induction false} LeIff(a: string, b: string)
    ensures Le(a, b) <==> exists n :: SmallerAt(a, b, n)
  {
    if a == "" {
      assert SmallerAt(a, b, 0);
    } else if b != "" && a[0] == b[0] {
      LeIff(a[1..], b[1..]);
      if n :| SmallerAt(a[1..], b[1..], n) {
        PrefixGrows(a, b, n);
        assert SmallerAt(a, b, n + 1);
      }
      if n :| SmallerAt(a, b, n) {
        assert n > 0;
        assert a[..n][1..] == b[..n][1..] && a[1..][..n - 1] == a[..n][1..] && b[1..][..n - 1] == b[..n][1..];
        assert SmallerAt(a[1..], b[1..], n - 1);
      }
    } else if b != "" && a[0] < b[0] {
      assert SmallerAt(a, b, 0);
    } else if b != "" {
      forall n ensures !SmallerAt(a, b, n) {
        HeadsAgree(a, b, n);
      }
    }
  }

  lemma HeadsAgree(a: string, b: string, n: int)
    ensures SmallerAt(a, b, n) && n > 0 ==> a[0] == b[0]
  {
    if SmallerAt(a, b, n) && n > 0 {
      assert a[..n][0] == b[..n][0];
    }
  }

  ghost predicate SmallerAt(a: string, b: string, n: int) {
    0 <= n <= |a| && n <= |b| && a[..n] == b[..n] && (n == |a| || (n < |b| && a[n] < b[n]))
  }

  lemma PrefixGrows(a: string, b: string, n: nat)
    requires a != "" && b != "" && a[0] == b[0] && n < |a| && n < |b| && a[1..][..n] == b[1..][..n]
    ensures a[..n + 1] == b[..n + 1]
  {
    assert a[..n + 1] == [a[0]] + a[1..][..n] && b[..n + 1] == [b[0]] + b[1..][..n];
  }

  /** A listed plan whose escalation has the given id. */
  predicate Bears(s: Store, id: Id, p: Id) {
    p in s.escalations && s.escalations[p].id == id && exists k | k in s.plans :: k.id == p
  }

  /** The first of them in the order the store lists its plans. */
  ghost predicate IsFirst(s: Store, id: Id, p: Id) {
    Bears(s, id, p) && forall q | Bears(s, id, q) :: Le(p.name, q.name)
  }

  ghost function First(s: Store, id: Id): (r: Option<Id>)
    ensures r.Some? ==> IsFirst(s, id, r.value)
  {
    if p :| IsFirst(s, id, p) then Some(p) else None
  }

  lemma FirstIs(s: Store, id: Id, p: Id)
    requires IsFirst(s, id, p)
    ensures First(s, id) == Some(p)
  {
    var q := First(s, id).value;
    LeAntisymmetric(p.name, q.name);
  }

  /** The escalation that `resolve` finds: of the plans that bear the id, the least in the listing. */
  method FindEscalation(s: Store, id: Id) returns (r: Option<Id>)
    ensures r == First(s, id)
    ensures r.None? <==> forall p :: !Bears(s, id, p)
    ensures r.Some? ==>
              && r.value in s.escalations && s.escalations[r.value].id == id
              && (exists k | k in s.plans :: k.id == r.value)
              && forall p | p in s.escalations && s.escalations[p].id == id && (exists k | k in s.plans :: k.id == p) ::
                   Le(r.value.name, p.name)
  {
    r := None;
    var left := s.escalations.Keys;
    while left != {}
      invariant left <= s.escalations.Keys
      invariant r.None? ==> forall p | p in s.escalations && p !in left :: !Bears(s, id, p)
      invariant r.Some? ==> Bears(s, id, r.value)
      invariant r.Some? ==> forall p | Bears(s, id, p) && p !in left :: Le(r.value.name, p.name)
      decreases left
    {
      var p :| p in left;
      left := left - {p};
      if Bears(s, id, p) {
        if r.Some? {
          Better(s, id, left, p, r.value);
        } else {
          LeTotal(p.name, p.name);
        }
        if r.None? || Le(p.name, r.value.name) {
          r := Some(p);
        }
      }
    }
    if r.Some? {
      FirstIs(s, id, r.value);
    }
  }

  /** Of two plans that bear the id, the lesser one stays below all that were looked at. */
  lemma Better(s: Store, id: Id, left: set<Id>, p: Id, best: Id)
    requires forall q | Bears(s, id, q) && q !in left && q != p :: Le(best.name, q.name)
    ensures Le(best.name, p.name) || Le(p.name, best.name)
    ensures Le(p.name, best.name) ==> forall q | Bears(s, id, q) && q !in left :: Le(p.name, q.name)
  {
    LeTotal(best.name, p.name);
    if Le(p.name, best.name) {
      forall q | Bears(s, id, q) && q !in left ensures Le(p.name, q.name) {
        if q == p {
          LeTotal(p.name, p.name);
        } else {
          LeTransitive(p.name, best.name, q.name);
        }
      }
    }
  }

  predicate MayResolve(authority: Option<Id>, principal: Option<Id>) {
    authority.None? || principal == authority
  }

  ghost predicate ResolveAccepted(authority: Option<Id>, s: Store, id: Id, principal: Option<Id>) {
    && MayResolve(authority, principal)
    && First(s, id).Some? && s.escalations[First(s, id).value].status.Open?
  }

  function Decided(e: Escalation, decision: Status, note: string, principal: Option<Id>, now: real): Escalation {
    e.(status := decision, resolution := Some(note), resolvedAt := Some(now), resolvedBy := principal)
  }

  datatype Op =
    | Patch(planId: Id, patch: Plan, gate: seq<Finding>, critic: seq<Finding>)
    | Create(escalation: Escalation)
    | Resolve(id: Id, decision: Status, note: string, principal: Option<Id>, now: real)

  ghost predicate Accepted(authority: Option<Id>, s: Store, op: Op) {
    match op
    case Patch(planId, patch, gate, critic) => PatchAccepted(s, planId, patch, gate, critic)
    case Create(e) => CreateAccepted(s, e)
    case Resolve(id, decision, note, principal, now) => ResolveAccepted(authority, s, id, principal)
  }

  /** A refused operation changes nothing. */
  ghost function Step(authority: Option<Id>, s: Store, op: Op): Store {
    if !Accepted(authority, s, op) then s
    else
      match op
      case Patch(planId, patch, gate, critic) => StorePatch(s, planId, patch, Merged(gate, critic))
      case Create(e) => s.(escalations := s.escalations[e.planId := e])
      case Resolve(id, decision, note, principal, now) =>
        var p := First(s, id).value;
        s.(escalations := s.escalations[p := Decided(s.escalations[p], decision, note, principal, now)])
  }

  /** Every decision on record was taken by the bound authority. */
  ghost predicate DecisionsAuthorised(authority: Option<Id>, s: Store) {
    authority.Some? ==>
      forall p | p in s.escalations && !s.escalations[p].status.Open? :: s.escalations[p].resolvedBy == authority
  }

  /** What an operation must bring for the decisions on record to stay authorised. */
  predicate BringsNoDecision(authority: Option<Id>, op: Op) {
    op.Create? && authority.Some? ==> op.escalation.status.Open? || op.escalation.resolvedBy == authority
  }

  /**
   * A step keeps the decisions authorised exactly when it is refused or does not itself create
   * a decided escalation.
   */
  lemma StepKeepsAuthorityIff(authority: Option<Id>, s: Store, op: Op)
    requires DecisionsAuthorised(authority, s)
    ensures DecisionsAuthorised(authority, Step(authority, s, op))
       <==> !Accepted(authority, s, op) || BringsNoDecision(authority, op)
  {
    if Accepted(authority, s, op) && !BringsNoDecision(authority, op) {
      assert op.escalation.planId in Step(authority, s, op).escalations;
    }
  }

  /** `create` does not look at the status, so an escalation can arrive approved by nobody. */
  lemma CreateCanBringDecision(authority: Id, plan: Id)
    ensures var s := Store(map[Key(plan, 1) := Plan(plan, 1, None)], map[], map[]);
            var e := Escalation(plan, plan, 1, "?", ApprovedByHuman, None, None, None);
            && DecisionsAuthorised(Some(authority), s)
            && !DecisionsAuthorised(Some(authority), Step(Some(authority), s, Create(e)))
  {
    var s := Store(map[Key(plan, 1) := Plan(plan, 1, None)], map[], map[]);
    var e := Escalation(plan, plan, 1, "?", ApprovedByHuman, None, None, None);
    assert !IsSpace(e.question[0]);
    StepKeepsAuthorityIff(Some(authority), s, Create(e));
  }

  /** A decision leaves the record exactly when a different escalation is created for the same plan. */
  lemma DecisionLostIff(authority: Option<Id>, s: Store, op: Op, p: Id)
    requires KeysMatch(s) && p in s.escalations && !s.escalations[p].status.Open?
    ensures p in Step(authority, s, op).escalations
    ensures Step(authority, s, op).escalations[p] != s.escalations[p]
       <==> op.Create? && Accepted(authority, s, op) && op.escalation.planId == p && op.escalation != s.escalations[p]
  {
  }

  /** An open escalation changes exactly when an accepted resolve finds it: no create replaces it. */
  lemma OpenChangesIff(authority: Option<Id>, s: Store, op: Op, p: Id)
    requires KeysMatch(s) && p in s.escalations && s.escalations[p].status.Open?
    requires op.Resolve? ==> !op.decision.Open?
    ensures p in Step(authority, s, op).escalations
    ensures Step(authority, s, op).escalations[p] != s.escalations[p] <==>
            && op.Resolve? && MayResolve(authority, op.principal)
            && First(s, op.id) == Some(p)
  {
  }

  // --------------------------------------------------------------------------------- runs

  ghost function Run(authority: Option<Id>, s: Store, ops: seq<Op>): Store
    decreases |ops|
  {
    if ops == [] then s else Run(authority, Step(authority, s, ops[0]), ops[1..])
  }

  predicate OwnPatch(op: Op) {
    op.Patch? ==> op.patch.id == op.planId
  }

  ghost function AcceptedPatches(authority: Option<Id>, s: Store, ops: seq<Op>, planId: Id): nat
    decreases |ops|
  {
    if ops == [] then 0
    else
      (if ops[0].Patch? && ops[0].planId == planId && Accepted(authority, s, ops[0]) then 1 else 0)
      + AcceptedPatches(authority, Step(authority, s, ops[0]), ops[1..], planId)
  }

  lemma LatestIsUnique(plans: map<Key, Plan>, id: Id, v: nat, w: nat)
    requires IsLatest(plans, id, v) && IsLatest(plans, id, w)
    ensures v == w
  {
  }

  lemma StepCounts(authority: Option<Id>, s: Store, op: Op, planId: Id, v: nat)
    requires IsLatest(s.plans, planId, v) && OwnPatch(op)
    ensures var s' := Step(authority, s, op);
            && IsLatest(s'.plans, planId,
                 if op.Patch? && op.planId == planId && Accepted(authority, s, op) then v + 1 else v)
            && forall k | k in s.plans :: k in s'.plans && s'.plans[k] == s.plans[k]
  {
    if op.Patch? && Accepted(authority, s, op) {
      var w: nat :| IsLatest(s.plans, op.planId, w) && op.patch.version == w + 1;
      PatchRaisesVersionIff(s, op.planId, w, op.patch, Merged(op.gate, op.critic));
      OwnPatchOverwritesNothing(s, op.planId, op.patch, Merged(op.gate, op.critic));
      if op.planId == planId {
        LatestIsUnique(s.plans, planId, v, w);
      }
    }
  }

  /** Over any run of patches under their own ids, the version counts the accepted patches and no revision is lost. */
  lemma {:induction false} RunCountsPatches(authority: Option<Id>, s: Store, ops: seq<Op>, planId: Id, v: nat)
    requires IsLatest(s.plans, planId, v) && forall op | op in ops :: OwnPatch(op)
    ensures IsLatest(Run(authority, s, ops).plans, planId, v + AcceptedPatches(authority, s, ops, planId))
    ensures forall k | k in s.plans ::
        k in Run(authority, s, ops).plans && Run(authority, s, ops).plans[k] == s.plans[k]
    decreases |ops|
  {
    if ops != [] {
      StepCounts(authority, s, ops[0], planId, v);
      var counted := ops[0].Patch? && ops[0].planId == planId && Accepted(authority, s, ops[0]);
      RunCountsPatches(authority, Step(authority, s, ops[0]), ops[1..], planId, if counted then v + 1 else v);
    }
  }

  /** Whoever is not the bound authority can neither close nor replace an open escalation, over any run. */
  lemma {:induction false} OpenWaitsForAuthority(authority: Option<Id>, s: Store, ops: seq<Op>, p: Id)
    requires KeysMatch(s) && p in s.escalations && s.escalations[p].status.Open?
    requires forall op | op in ops && op.Resolve? :: !op.decision.Open? && !MayResolve(authority, op.principal)
    ensures p in Run(authority, s, ops).escalations && Run(authority, s, ops).escalations[p] == s.escalations[p]
    decreases |ops|
  {
    if ops != [] {
      OpenChangesIff(authority, s, ops[0], p);
      OpenWaitsForAuthority(authority, Step(authority, s, ops[0]), ops[1..], p);
    }
  }

  ghost predicate AllFindingsMeet(s: Store) {
    forall k, tolerance: RiskTolerance | k in s.findings && !tolerance.Strict? :: Meets(s.findings[k], tolerance)
  }

  /** What every run keeps, whatever gates and critics return: stored findings meet every tolerance but strict. */
  lemma {:induction false} RunKeepsStoreSound(authority: Option<Id>, s: Store, ops: seq<Op>)
    requires KeysMatch(s) && AllFindingsMeet(s) && DecisionsAuthorised(authority, s)
    requires forall op | op in ops :: BringsNoDecision(authority, op)
    ensures var s' := Run(authority, s, ops);
            KeysMatch(s') && AllFindingsMeet(s') && DecisionsAuthorised(authority, s')
    decreases |ops|
  {
    if ops != [] {
      var s' := Step(authority, s, ops[0]);
      StepKeepsAuthorityIff(authority, s, ops[0]);
      StepKeepsFindings(authority, s, ops[0]);
      RunKeepsStoreSound(authority, s', ops[1..]);
    }
  }

  lemma StepKeepsFindings(authority: Option<Id>, s: Store, op: Op)
    requires KeysMatch(s) && AllFindingsMeet(s)
    ensures KeysMatch(Step(authority, s, op)) && AllFindingsMeet(Step(authority, s, op))
  {
    if op.Patch? && Accepted(authority, s, op) {
      CleanIffMeets(op.gate, op.critic, Balanced);
      CleanIffMeets(op.gate, op.critic, Permissive);
    }
  }

  // -------------------------------------------------------------------------- the manager

  datatype Creation = Created | UnknownRevision | BlankQuestion | AlreadyOpen

  datatype Resolution = Resolved(escalation: Escalation) | NotTheAuthority | UnknownEscalation | AlreadyResolved

  datatype PatchResult = Stored(findings: seq<Finding>) | NotStored(why: Refusal)

  /** The patch is found under its own id and version, the findings under the plan's, and all else is as it was. */
  ghost predicate PatchStored(s: Store, s': Store, planId: Id, patch: Plan, findings: seq<Finding>) {
    var own, plan := Key(patch.id, patch.version), Key(planId, patch.version);
    && own in s'.plans && s'.plans[own] == patch && plan in s'.findings && s'.findings[plan] == findings
    && (forall k | k != own :: (k in s'.plans <==> k in s.plans) && (k in s.plans ==> s'.plans[k] == s.plans[k]))
    && (forall k | k != plan ::
          (k in s'.findings <==> k in s.findings) && (k in s.findings ==> s'.findings[k] == s.findings[k]))
  }

  /** Only the decision on the plan's escalation changed: its status, note, time and principal. */
  ghost predicate DecisionStored(s: Store, s': Store, e: Escalation) {
    && s'.plans == s.plans && s'.findings == s.findings && e.planId in s.escalations
    && s.escalations[e.planId].status.Open?
    && (var was := s.escalations[e.planId];
        e.id == was.id && e.planId == was.planId && e.version == was.version && e.question == was.question)
    && forall p | p != e.planId ::
         (p in s'.escalations <==> p in s.escalations) && (p in s.escalations ==> s'.escalations[p] == s.escalations[p])
  }

  class EscalationManager {
    const authority: Option<Id>
    var store: Store

    constructor (s: Store, a: Option<Id>)
      ensures store == s && authority == a
    {
      store, authority := s, a;
    }

    /** `gates` and `critic` are the auditors; the critic sees the patch and the gate findings. */
    method PatchAndRecritique(
        planId: Id, patch: Plan, gates: Plan -> seq<Finding>, critic: (Plan, seq<Finding>) -> seq<Finding>)
      returns (r: PatchResult)
      requires KeysMatch(store)
      modifies this
      ensures KeysMatch(store)
      ensures var gate := gates(patch);
              var said := critic(patch, gate);
              && store == Step(authority, old(store), Patch(planId, patch, gate, said))
              && (r.Stored? <==> PatchAccepted(old(store), planId, patch, gate, said))
              && (r.Stored? ==> r.findings == Merged(gate, said))
              && (r == NotStored(UnknownPlan) <==> forall k | k in old(store).plans :: k.id != planId)
              && (r == NotStored(NotClean) <==> NextRevision(old(store).plans, planId, patch) && !Clean(gate, said))
              && (r == NotStored(NotClean) ==> exists f :: Wins(gate, said, f) && f.severity == Blocker && !f.llm)
              && (r.Stored? ==> forall f | f in r.findings :: f.severity != Blocker || f.llm)
      ensures store.escalations == old(store).escalations && (r.NotStored? ==> store == old(store))
      ensures r.Stored? ==> PatchStored(old(store), store, planId, patch, r.findings)
    {
      var current := GetLatest(store.plans, planId);
      if current.None? {
        return NotStored(UnknownPlan);
      }
      ghost var v :| IsLatest(store.plans, planId, v) && current.value == store.plans[Key(planId, v)];
      if patch.version != current.value.version + 1 || patch.parent != Some(current.value.id) {
        return NotStored(WrongRevision);
      }
      var gate := gates(patch);
      var said := critic(patch, gate);
      var findings := MergeFindings(gate, said);
      MergesAgree(gate, said, findings, Merged(gate, said));
      CleanIffMeets(gate, said, Balanced);
      if exists f :: f in findings && f.severity.Blocker? && !f.llm {
        return NotStored(NotClean);
      }
      store := Store(store.plans[Key(patch.id, patch.version) := patch],
                     store.findings[Key(planId, patch.version) := findings], store.escalations);
      return Stored(findings);
    }

    /** Persist the escalation of a stored revision, or say which of the three tests refuses it. */
    method CreateEscalation(e: Escalation) returns (r: Creation)
      requires KeysMatch(store)
      modifies this
      ensures KeysMatch(store)
      ensures r.UnknownRevision? <==> forall k | k in old(store).plans :: k.id != e.planId || k.version != e.version
      ensures r.BlankQuestion? <==> Key(e.planId, e.version) in old(store).plans && Blank(e.question)
      ensures r.AlreadyOpen? <==>
                && Key(e.planId, e.version) in old(store).plans && !Blank(e.question)
                && e.planId in old(store).escalations && old(store).escalations[e.planId].status.Open?
      ensures r.Created? <==>
                && Key(e.planId, e.version) in old(store).plans && (exists c | c in e.question :: !IsSpace(c))
                && (e.planId in old(store).escalations ==> !old(store).escalations[e.planId].status.Open?)
      ensures !r.Created? ==> store == old(store)
      ensures r.Created? ==> e.planId in store.escalations && store.escalations[e.planId] == e
      ensures store.plans == old(store).plans && store.findings == old(store).findings
      ensures forall p | p != e.planId ::
                && (p in store.escalations <==> p in old(store).escalations)
                && (p in store.escalations ==> store.escalations[p] == old(store).escalations[p])
      ensures store == Step(authority, old(store), Create(e))
    {
      if Key(e.planId, e.version) !in store.plans {
        return UnknownRevision;
      }
      if Blank(e.question) {
        return BlankQuestion;
      }
      assert exists i :: 0 <= i < |e.question| && !IsSpace(e.question[i]);
      if e.planId in store.escalations && store.escalations[e.planId].status.Open? {
        return AlreadyOpen;
      }
      store := store.(escalations := store.escalations[e.planId := e]);
      return Created;
    }

    /** Decide the first listed escalation with the id, or say why not. */
    method ResolveEscalation(id: Id, decision: Status, note: string, principal: Option<Id>, now: real)
      returns (r: Resolution)
      requires KeysMatch(store) && !decision.Open?
      modifies this
      ensures KeysMatch(store)
      ensures var op := Resolve(id, decision, note, principal, now);
              store == Step(authority, old(store), op) && (r.Resolved? <==> Accepted(authority, old(store), op))
      ensures r.NotTheAuthority? <==> !MayResolve(authority, principal)
      ensures r.UnknownEscalation? <==> MayResolve(authority, principal) && forall p :: !Bears(old(store), id, p)
      ensures r.Resolved? ==>
                && r.escalation.planId in store.escalations && store.escalations[r.escalation.planId] == r.escalation
                && r.escalation.id == id && r.escalation.status == decision && r.escalation.resolvedBy == principal
                && r.escalation.resolution == Some(note) && r.escalation.resolvedAt == Some(now)
                && DecisionStored(old(store), store, r.escalation)
      ensures !r.Resolved? ==> store == old(store)
      ensures r.AlreadyResolved? ==> exists p :: Bears(old(store), id, p) && !old(store).escalations[p].status.Open?
    {
      if authority.Some? && principal != authority {
        return NotTheAuthority;
      }
      var found := FindEscalation(store, id);
      if found.None? {
        return UnknownEscalation;
      }
      var e := store.escalations[found.value];
      if !e.status.Open? {
        return AlreadyResolved;
      }
      e := Decided(e, decision, note, principal, now);
      store := store.(escalations := store.escalations[e.planId := e]);
      return Resolved(e);
    }
  }
}
