/** Aligning the edges between two edges of a ring one after the other: the edges are collected by
    walking from neighbour to neighbour, then swept so that every new edge is followed by all the
    edges before it. */
module EdgeSweep {
  import opened AlignPlan
  import opened Basics
  import opened LinearAlgebra

  type EdgeId = string

  /* ---------- collecting the edges ---------- */

  /** The edge `n` steps after `start`. */
  function Walk(next: EdgeId -> EdgeId, start: EdgeId, n: nat): EdgeId {
    if n == 0 then start else next(Walk(next, start, n - 1))
  }

  /** `n` steps lead from `start` to `end`, over edges of the mirror only. */
  ghost predicate Leads(next: EdgeId -> EdgeId, children: set<EdgeId>, start: EdgeId, end: EdgeId, n: nat) {
    Walk(next, start, n) == end && forall i: nat :: i <= n ==> Walk(next, start, i) in children
  }

  ghost predicate Connected(next: EdgeId -> EdgeId, children: set<EdgeId>, start: EdgeId, end: EdgeId) {
    exists n: nat :: Leads(next, children, start, end, n)
  }

  /** A path from `start` to `end` by neighbours, without repetition, within the mirror. */
  ghost predicate IsPath(next: EdgeId -> EdgeId, children: set<EdgeId>, start: EdgeId, end: EdgeId, edges: seq<EdgeId>) {
    && edges != [] && edges[0] == start && edges[|edges| - 1] == end
    && NoDuplicates(edges)
    && (forall e :: e in edges ==> e in children)
    && forall i :: 0 < i < |edges| ==> edges[i] == next(edges[i - 1])
  }

  /** Collects the edges from `start` to `end`. It terminates for every neighbour function, and fails
      exactly when the walk leaves the mirror or comes round before it reaches `end`. */
  method CollectEdges(next: EdgeId -> EdgeId, children: set<EdgeId>, start: EdgeId, end: EdgeId)
    returns (edges: Option<seq<EdgeId>>)
    ensures edges.Some? <==> Connected(next, children, start, end)
    ensures edges.Some? ==> IsPath(next, children, start, end, edges.value)
  {
    hide Walk, Walked, Connected, IsPath, NoDuplicates;
    if start !in children || end !in children {
      EndsOutside(next, children, start, end);
      return None;
    }
    var current, selected := start, [start];
    StartsOut(next, children, start, end);
    while current != end
      invariant Walked(next, children, start, selected) && selected != [] && current == selected[|selected| - 1]
      invariant end !in selected[..|selected| - 1]
      decreases |children - Members(selected)|
    {
      var nextEdge := next(current);
      assert selected == selected[..|selected| - 1] + [current];
      if nextEdge in selected {
        ComesRound(next, children, start, end, selected);
        return None;
      }
      if nextEdge !in children {
        Leaves(next, children, start, end, selected);
        return None;
      }
      MembersGrow(children, selected, nextEdge);
      GoesOn(next, children, start, selected);
      selected := selected + [nextEdge];
      current := nextEdge;
    }
    Arrives(next, children, start, end, selected);
    edges := Some(selected);
  }

  /** The first edges of the walk, all of them children and different. */
  ghost predicate Walked(next: EdgeId -> EdgeId, children: set<EdgeId>, start: EdgeId, selected: seq<EdgeId>) {
    && selected != [] && NoDuplicates(selected)
    && forall i :: 0 <= i < |selected| ==> selected[i] == Walk(next, start, i) && selected[i] in children
  }

  lemma StartsOut(next: EdgeId -> EdgeId, children: set<EdgeId>, start: EdgeId, end: EdgeId)
    requires start in children
    ensures Walked(next, children, start, [start])
  {
  }

  lemma GoesOn(next: EdgeId -> EdgeId, children: set<EdgeId>, start: EdgeId, selected: seq<EdgeId>)
    requires Walked(next, children, start, selected)
    requires next(selected[|selected| - 1]) in children && next(selected[|selected| - 1]) !in selected
    ensures Walked(next, children, start, selected + [next(selected[|selected| - 1])])
  {
  }

  lemma Arrives(next: EdgeId -> EdgeId, children: set<EdgeId>, start: EdgeId, end: EdgeId, selected: seq<EdgeId>)
    requires Walked(next, children, start, selected) && selected[|selected| - 1] == end
    ensures Connected(next, children, start, end) && IsPath(next, children, start, end, selected)
  {
    assert Leads(next, children, start, end, |selected| - 1);
  }

  ghost function Members(s: seq<EdgeId>): set<EdgeId> { set e | e in s }

  lemma MembersGrow(children: set<EdgeId>, selected: seq<EdgeId>, e: EdgeId)
    requires e in children && e !in selected
    ensures |children - Members(selected + [e])| < |children - Members(selected)|
  {
    assert children - Members(selected + [e]) == (children - Members(selected)) - {e};
  }

  lemma EndsOutside(next: EdgeId -> EdgeId, children: set<EdgeId>, start: EdgeId, end: EdgeId)
    requires start !in children || end !in children
    ensures !Connected(next, children, start, end)
  {
    forall n: nat ensures !Leads(next, children, start, end, n) {
      assert Walk(next, start, 0) == start;
    }
  }

  /** A walk that leaves the mirror before it was at `end` does not lead there. */
  lemma Leaves(next: EdgeId -> EdgeId, children: set<EdgeId>, start: EdgeId, end: EdgeId, selected: seq<EdgeId>)
    requires Walked(next, children, start, selected) && end !in selected
    requires next(selected[|selected| - 1]) !in children
    ensures !Connected(next, children, start, end)
  {
    var n := |selected|;
    assert Walk(next, start, n) !in children;
    forall m: nat ensures !Leads(next, children, start, end, m) {
      if m < n {
        var e := selected[m];
        assert e in selected;
      }
    }
  }

  /** Once the walk comes back to an edge it has visited, it never gets anywhere new. */
  lemma ComesRound(next: EdgeId -> EdgeId, children: set<EdgeId>, start: EdgeId, end: EdgeId, selected: seq<EdgeId>)
    requires Walked(next, children, start, selected) && end !in selected
    requires next(selected[|selected| - 1]) in selected
    ensures !Connected(next, children, start, end)
  {
    forall n: nat ensures !Leads(next, children, start, end, n) {
      StaysInside(next, children, start, selected, n);
    }
  }

  lemma {:induction false} StaysInside(next: EdgeId -> EdgeId, children: set<EdgeId>, start: EdgeId, selected: seq<EdgeId>, n: nat)
    requires Walked(next, children, start, selected)
    requires next(selected[|selected| - 1]) in selected
    ensures Walk(next, start, n) in selected
  {
    if n == 0 {
      var first := selected[0];
      assert first in selected;
    } else {
      StaysInside(next, children, start, selected, n - 1);
      var i :| 0 <= i < |selected| && selected[i] == Walk(next, start, n - 1);
      if i + 1 < |selected| {
        assert selected[i + 1] == Walk(next, start, i + 1) == next(selected[i]);
      }
    }
  }

  /* ---------- the order of the sweep ---------- */

  /** Round `n - 1` of the sweep: the first `n` edges, last one first. */
  function Round(edges: seq<EdgeId>, n: nat): (r: seq<EdgeId>)
    requires n <= |edges|
    ensures |r| == n
  {
    seq(n, t requires 0 <= t < n => edges[n - 1 - t])
  }

  function SweepOrder(edges: seq<EdgeId>, n: nat): seq<EdgeId>
    requires n <= |edges|
  {
    if n == 0 then [] else SweepOrder(edges, n - 1) + Round(edges, n)
  }

  lemma {:induction false} VisitsInRound(edges: seq<EdgeId>, n: nat, k: nat)
    requires n <= |edges| && NoDuplicates(edges) && k < |edges|
    ensures multiset(Round(edges, n))[edges[k]] == if k < n then 1 else 0
  {
    if n > 0 {
      VisitsInRound(edges, n - 1, k);
      assert Round(edges, n) == [edges[n - 1]] + Round(edges, n - 1);
      assert k != n - 1 ==> if k < n - 1 then edges[k] != edges[n - 1] else edges[n - 1] != edges[k];
    }
  }

  lemma LastRound(edges: seq<EdgeId>, n: nat)
    requires 0 < n <= |edges|
    ensures SweepOrder(edges, n) == SweepOrder(edges, n - 1) + Round(edges, n)
  {
  }

  lemma CountInSum(a: seq<EdgeId>, b: seq<EdgeId>, e: EdgeId)
    ensures multiset(a + b)[e] == multiset(a)[e] + multiset(b)[e]
  {
  }

  /** A full sweep over `n` edges visits edge `k` exactly `n - k` times. */
  lemma {:induction false} VisitsOfEdge(edges: seq<EdgeId>, n: nat, k: nat)
    requires n <= |edges| && NoDuplicates(edges) && k < n
    ensures multiset(SweepOrder(edges, n))[edges[k]] == n - k
  {
    hide *;
    VisitsInRound(edges, n, k);
    LastRound(edges, n);
    CountInSum(SweepOrder(edges, n - 1), Round(edges, n), edges[k]);
    if k < n - 1 {
      VisitsOfEdge(edges, n - 1, k);
    } else {
      NotYetVisited(edges, n - 1, k);
    }
  }

  lemma {:induction false} NotYetVisited(edges: seq<EdgeId>, n: nat, k: nat)
    requires n <= k < |edges| && NoDuplicates(edges)
    ensures multiset(SweepOrder(edges, n))[edges[k]] == 0
  {
    hide *;
    if n == 0 {
      RoundNone(edges);
    } else {
      LastRound(edges, n);
      CountInSum(SweepOrder(edges, n - 1), Round(edges, n), edges[k]);
      NotYetVisited(edges, n - 1, k);
      VisitsInRound(edges, n, k);
    }
  }

  function Triangle(n: nat): nat { if n == 0 then 0 else Triangle(n - 1) + n }

  /** Round `i` visits edges `i`, `i - 1`, ..., `0`, after the rounds before it. */
  lemma {:induction false} RoundGoesBack(edges: seq<EdgeId>, n: nat, i: nat, t: nat)
    requires t <= i < n <= |edges|
    ensures |SweepOrder(edges, n)| == Triangle(n) && Triangle(i) + t < Triangle(n)
    ensures SweepOrder(edges, n)[Triangle(i) + t] == edges[i - t]
  {
    if i < n - 1 {
      RoundGoesBack(edges, n - 1, i, t);
    } else {
      SweepLength(edges, i);
    }
  }

  lemma {:induction false} SweepLength(edges: seq<EdgeId>, n: nat)
    requires n <= |edges|
    ensures |SweepOrder(edges, n)| == Triangle(n)
  {
    if n > 0 { SweepLength(edges, n - 1); }
  }

  /* ---------- aligning one edge ---------- */

  /** What an edge keeps between the commands of an alignment. */
  datatype EdgePlan = EdgePlan(x: Vec, frac: real, aligned: bool)

  const NO_PLAN := EdgePlan([], -1.0, false)

  /** What one alignment meets: the solution of the fit, if it finds one; the verdict of the collision
      check; and whether the panel accepts the motion. */
  datatype Attempt = Attempt(solution: Option<Six>, collision: bool, accepted: bool)

  /** Commands return the new plan and whether their status is good. */
  function CalculateEdge(s: EdgePlan, solution: Option<Six>): (EdgePlan, bool) {
    match solution
    case None => (s, false)
    case Some(x) => (s.(x := x), true)
  }

  /** The fraction is stored before the collision check. */
  function SetEdgeFraction(s: EdgePlan, f: real, collision: bool): (EdgePlan, bool) {
    if IsZero(s.x) then (s, false) else (s.(frac := f), !collision)
  }

  function ExecuteEdge(s: EdgePlan, f: real, accepted: bool): (EdgePlan, bool) {
    if IsZero(s.x) then (s, false)
    else if s.frac < 0.0 then (s, false)
    else if AbsReal(f - s.frac) > FLT_EPSILON then (s, false)
    else if !accepted then (s, false)
    else
      var done := Zeros(|s.x|);
      (EdgePlan(done, -1.0, !exists i :: 0 <= i < |done| && AbsReal(done[i]) >= 0.05), true)
  }

  /** The three commands of an edge one by one: a review is good exactly when some entry of the plan is not
      zero and the check finds no collision, and stores the fraction in both cases; an execution is good
      exactly when some entry is not zero, a fraction was stored, the one given is within one part in 2^23 of
      it, and the panel accepts; it then leaves a plan of zeros, no fraction, and the edge aligned. */
  lemma EdgeCommandsIff(s: EdgePlan, solution: Option<Six>, f: real, collision: bool, accepted: bool)
    ensures var (t, good) := CalculateEdge(s, solution);
            good == solution.Some? && t == s.(x := if solution.Some? then solution.value else s.x)
    ensures var (t, good) := SetEdgeFraction(s, f, collision);
            var some := exists i :: 0 <= i < |s.x| && s.x[i] != 0.0;
            good == (some && !collision) && t == s.(frac := if some then f else s.frac)
    ensures var (t, good) := ExecuteEdge(s, f, accepted);
            && (good <==>
                  && accepted && s.frac >= 0.0 && -1.0 <= 8388608.0 * (f - s.frac) <= 1.0
                  && exists i :: 0 <= i < |s.x| && s.x[i] != 0.0)
            && (good ==> |t.x| == |s.x| && (forall i :: 0 <= i < |t.x| ==> t.x[i] == 0.0) && t.frac == -1.0 && t.aligned)
            && (!good ==> t == s)
  {
  }

  /** The plan a calculation leaves, whether or not it succeeded. */
  function PlanOf(s: EdgePlan, a: Attempt): Vec {
    if a.solution.Some? then a.solution.value else s.x
  }

  /** The three commands at fraction one, as the sweep gives them: only the last status is looked at. */
  function AlignOnce(s: EdgePlan, a: Attempt): (EdgePlan, bool) {
    ExecuteEdge(EdgeReviewed(s, a), 1.0, a.accepted)
  }

  /** The plan after the first two of them. */
  function EdgeReviewed(s: EdgePlan, a: Attempt): EdgePlan {
    SetEdgeFraction(CalculateEdge(s, a.solution).0, 1.0, a.collision).0
  }

  /** The motion goes ahead exactly when there is a plan and the panel accepts it: a collision found by
      the check does not prevent it, and an edge that needs no motion fails. After a motion the edge
      always counts as aligned. */
  lemma AlignOnceOutcome(s: EdgePlan, a: Attempt)
    ensures var (t, good) := AlignOnce(s, a);
            && (good <==> !IsZero(PlanOf(s, a)) && a.accepted)
            && (good ==> t.aligned && IsZero(t.x) && t.frac == -1.0)
            && (!good ==> t.x == PlanOf(s, a) && t.aligned == s.aligned)
  {
  }

  /* ---------- the sweep ---------- */

  predicate Moves(s: EdgePlan, a: Attempt) { !IsZero(PlanOf(s, a)) && a.accepted }

  function PlanIn(plans: map<EdgeId, EdgePlan>, e: EdgeId): EdgePlan {
    if e in plans then plans[e] else NO_PLAN
  }

  /** Whether an attempt at edge `e` moves after the edges `before` were moved: the panel accepts, and the
      fit finds a motion; or it fails, but a plan was there from the start and was not carried out yet. */
  predicate MovesAfter(initial: map<EdgeId, EdgePlan>, before: seq<EdgeId>, e: EdgeId, a: Attempt) {
    && a.accepted
    && if a.solution.Some? then !IsZero(a.solution.value) else e !in before && !IsZero(PlanIn(initial, e).x)
  }

  /** The same in numbers: some entry of the motion found, or else of the first plan, is not zero. */
  lemma MovesAfterIff(initial: map<EdgeId, EdgePlan>, before: seq<EdgeId>, e: EdgeId, a: Attempt)
    ensures MovesAfter(initial, before, e, a) <==>
            && a.accepted
            && (a.solution.Some? ==> exists i :: 0 <= i < 6 && a.solution.value[i] != 0.0)
            && (a.solution.None? ==> e !in before && e in initial && exists i :: 0 <= i < |initial[e].x| && initial[e].x[i] != 0.0)
  {
  }

  /** Every motion carried out was one that the plans then left allowed. */
  ghost predicate EachMoved(initial: map<EdgeId, EdgePlan>, attempts: nat -> Attempt, visits: seq<EdgeId>) {
    forall k :: 0 <= k < |visits| ==> MovesAfter(initial, visits[..k], visits[k], attempts(k))
  }

  lemma MovedOn(initial: map<EdgeId, EdgePlan>, attempts: nat -> Attempt, visits: seq<EdgeId>, e: EdgeId)
    requires EachMoved(initial, attempts, visits) && MovesAfter(initial, visits, e, attempts(|visits|))
    ensures EachMoved(initial, attempts, visits + [e])
  {
    hide MovesAfter;
    var more := visits + [e];
    assert more[..|visits|] == visits;
    forall k | 0 <= k < |visits| ensures more[..k] == visits[..k] {
    }
  }

  /** The next attempt of a sweep in this order does not move. */
  ghost predicate FailsNext(initial: map<EdgeId, EdgePlan>, attempts: nat -> Attempt, visits: seq<EdgeId>, order: seq<EdgeId>) {
    |visits| < |order| && !MovesAfter(initial, visits, order[|visits|], attempts(|visits|))
  }

  lemma FailsInLonger(initial: map<EdgeId, EdgePlan>, attempts: nat -> Attempt, visits: seq<EdgeId>, order: seq<EdgeId>,
                      longer: seq<EdgeId>)
    requires order <= longer && FailsNext(initial, attempts, visits, order)
    ensures FailsNext(initial, attempts, visits, longer)
  {
  }

  /** Edges that were moved have no motion left, all others keep their first plan. */
  ghost predicate Follows(initial: map<EdgeId, EdgePlan>, plans: map<EdgeId, EdgePlan>, visits: seq<EdgeId>) {
    forall e :: if e in visits then IsZero(PlanIn(plans, e).x) else PlanIn(plans, e) == PlanIn(initial, e)
  }

  lemma FollowsAtFirst(initial: map<EdgeId, EdgePlan>)
    ensures Follows(initial, initial, [])
  {
  }

  lemma FollowsOn(initial: map<EdgeId, EdgePlan>, plans: map<EdgeId, EdgePlan>, visits: seq<EdgeId>, e: EdgeId, a: Attempt)
    requires Follows(initial, plans, visits)
    ensures Moves(PlanIn(plans, e), a) <==> MovesAfter(initial, visits, e, a)
    ensures Moves(PlanIn(plans, e), a) ==> Follows(initial, plans[e := AlignOnce(PlanIn(plans, e), a).0], visits + [e])
  {
    hide IsZero, AlignOnce;
    AlignOnceOutcome(PlanIn(plans, e), a);
    assert forall d :: d in visits + [e] <==> d in visits || d == e;
  }

  class Sweep {
    /** What the `k`-th alignment meets, and whether Stop comes before the `k`-th look at the state. */
    const attempts: nat -> Attempt
    const stops: nat -> bool

    var plans: map<EdgeId, EdgePlan>
    var off: bool
    var looks: nat
    /** Edges whose motion was carried out, in order. */
    var visits: seq<EdgeId>

    constructor (attempts: nat -> Attempt, stops: nat -> bool, plans: map<EdgeId, EdgePlan>)
      ensures this.attempts == attempts && this.stops == stops && this.plans == plans
      ensures !off && looks == 0 && visits == []
    {
      this.attempts, this.stops, this.plans := attempts, stops, plans;
      off, looks, visits := false, 0, [];
    }

    /** It is off only if Stop came at one of the looks so far. */
    ghost predicate OffByStop()
      reads this
    {
      off ==> exists k :: 0 <= k < looks && stops(k)
    }

    /** The state stays off once it was stopped. */
    method IsOff() returns (r: bool)
      modifies this`off, this`looks
      ensures looks == old(looks) + 1
      ensures off == (old(off) || stops(old(looks))) && r == off
      ensures old(OffByStop()) ==> OffByStop()
    {
      if stops(looks) {
        off := true;
      }
      looks := looks + 1;
      r := off;
    }

    /** Aligns one edge: calculates, reviews and executes at fraction one, unless it is stopped before the
        execution. The sweep goes on after it if it is good and the state is not off. */
    method AlignEdge(e: EdgeId) returns (good: bool)
      modifies this
      ensures var s, a := PlanIn(old(plans), e), attempts(|old(visits)|);
              var stop := old(off) || stops(old(looks));
              && visits == (if !stop && Moves(s, a) then old(visits) + [e] else old(visits))
              && good == (stop || Moves(s, a))
              && off == (stop || (Moves(s, a) && stops(old(looks) + 1)))
              && plans == old(plans)[e := if stop then EdgeReviewed(s, a) else AlignOnce(s, a).0]
      ensures old(OffByStop()) ==> OffByStop()
    {
      hide IsZero, ExecuteEdge, SetEdgeFraction, CalculateEdge;
      var s, a := PlanIn(plans, e), attempts(|visits|);
      AlignOnceOutcome(s, a);
      good := true;
      var calculated := CalculateEdge(s, a.solution).0;
      var reviewed := SetEdgeFraction(calculated, 1.0, a.collision).0;
      plans := plans[e := reviewed];
      var stop := IsOff();
      if stop { return; }
      var (executed, status) := ExecuteEdge(reviewed, 1.0, a.accepted);
      plans := plans[e := executed];
      if !status { return false; }
      visits := visits + [e];
      stop := IsOff();
      if stop { return; }
      // the iterations that are to follow while the edge is not aligned never start
      assert PlanIn(plans, e).aligned;
    }

    /** Sweeps over the edges. What it visits is a first part of the full sweep; all of it unless it was
        stopped or failed. Every attempt before the end moves, and where it fails, the attempt that would
        be next does not. */
    method AlignAll(edges: seq<EdgeId>) returns (good: bool)
      requires visits == [] && OffByStop()
      modifies this
      ensures visits <= SweepOrder(edges, |edges|) && EachMoved(old(plans), attempts, visits)
      ensures good && !off ==> visits == SweepOrder(edges, |edges|)
      ensures !good ==> FailsNext(old(plans), attempts, visits, SweepOrder(edges, |edges|))
      ensures OffByStop()
    {
      hide SweepOrder, Round, IsZero, MovesAfter, Follows, FailsNext;
      var toAlign := [];
      var i := 0;
      RoundNone(edges);
      FollowsAtFirst(plans);
      while i < |edges|
        invariant i <= |edges| && OffByStop() && EachMoved(old(plans), attempts, visits)
        invariant toAlign == Round(edges, i)
        invariant if off then visits <= SweepOrder(edges, i) else visits == SweepOrder(edges, i) && Follows(old(plans), plans, visits)
      {
        var stop := IsOff();
        SweepGrows(edges, i, |edges|);
        if stop { break; }
        toAlign := [edges[i]] + toAlign;
        RoundNext(edges, i);
        good := AlignRound(edges, i, toAlign, old(plans));
        SweepGrows(edges, i + 1, |edges|);
        if !good {
          FailsInLonger(old(plans), attempts, visits, SweepOrder(edges, i + 1), SweepOrder(edges, |edges|));
          return;
        }
        i := i + 1;
      }
      SweepGrows(edges, i, |edges|);
      good := true;
    }

    /** One round. A stop leaves the round; a failure ends the sweep. */
    method AlignRound(edges: seq<EdgeId>, i: nat, toAlign: seq<EdgeId>, ghost initial: map<EdgeId, EdgePlan>)
      returns (good: bool)
      requires i < |edges| && toAlign == Round(edges, i + 1) && visits == SweepOrder(edges, i) && OffByStop() && !off
      requires Follows(initial, plans, visits) && EachMoved(initial, attempts, visits)
      modifies this
      ensures visits <= SweepOrder(edges, i + 1) && EachMoved(initial, attempts, visits)
      ensures good && !off ==> visits == SweepOrder(edges, i + 1) && Follows(initial, plans, visits)
      ensures !good ==> FailsNext(initial, attempts, visits, SweepOrder(edges, i + 1))
      ensures OffByStop()
    {
      ghost var order := SweepOrder(edges, i + 1);
      assert order == visits + toAlign;
      hide *;
      ghost var done := |visits|;
      for t := 0 to |toAlign|
        invariant visits == order[..done + t] && OffByStop() && !off
        invariant Follows(initial, plans, visits) && EachMoved(initial, attempts, visits)
      {
        NextOf(order, done + t, toAlign[t]);
        good := AlignNext(toAlign[t], initial, order);
        if !good || off { return; }
      }
      good := true;
    }

    /** One alignment of a round. It leaves the state on exactly when the sweep goes on. */
    method AlignNext(e: EdgeId, ghost initial: map<EdgeId, EdgePlan>, ghost order: seq<EdgeId>) returns (good: bool)
      requires |visits| < |order| && visits == order[..|visits|] && e == order[|visits|] && OffByStop() && !off
      requires Follows(initial, plans, visits) && EachMoved(initial, attempts, visits)
      modifies this
      ensures EachMoved(initial, attempts, visits) && OffByStop()
      ensures visits == order[..|old(visits)|] || visits == order[..|old(visits)| + 1]
      ensures good && !off ==> visits == order[..|old(visits)| + 1] && Follows(initial, plans, visits)
      ensures !good ==> FailsNext(initial, attempts, visits, order)
    {
      hide MovesAfter, Follows, EachMoved, Moves, AlignOnce, EdgeReviewed;
      NextOf(order, |visits|, e);
      FollowsOn(initial, plans, visits, e, attempts(|visits|));
      if MovesAfter(initial, visits, e, attempts(|visits|)) { MovedOn(initial, attempts, visits, e); }
      good := AlignEdge(e);
    }
  }

  lemma NextOf(order: seq<EdgeId>, k: nat, e: EdgeId)
    requires k < |order| && e == order[k]
    ensures order[..k + 1] == order[..k] + [e]
  {
  }

  lemma RoundNone(edges: seq<EdgeId>)
    ensures Round(edges, 0) == [] && SweepOrder(edges, 0) == []
  {
  }

  lemma RoundNext(edges: seq<EdgeId>, i: nat)
    requires i < |edges|
    ensures Round(edges, i + 1) == [edges[i]] + Round(edges, i)
  {
  }

  lemma {:induction false} SweepGrows(edges: seq<EdgeId>, i: nat, n: nat)
    requires i <= n <= |edges|
    ensures SweepOrder(edges, i) <= SweepOrder(edges, n)
    decreases n
  {
    if i < n { SweepGrows(edges, i, n - 1); }
  }

  /** Aligns the edges from `start` to `end`. Without a way between them nothing moves. */
  method AlignSequential(w: Sweep, next: EdgeId -> EdgeId, children: set<EdgeId>, start: EdgeId, end: EdgeId)
    returns (good: bool, edges: seq<EdgeId>)
    requires w.visits == [] && w.OffByStop()
    modifies w
    ensures !Connected(next, children, start, end) ==> !good && w.visits == [] && edges == []
    ensures Connected(next, children, start, end) ==>
              && IsPath(next, children, start, end, edges)
              && w.visits <= SweepOrder(edges, |edges|) && EachMoved(old(w.plans), w.attempts, w.visits)
              && (good && !w.off ==> w.visits == SweepOrder(edges, |edges|))
              && (!good ==> FailsNext(old(w.plans), w.attempts, w.visits, SweepOrder(edges, |edges|)))
              && w.OffByStop()
  {
    hide *;
    var collected := CollectEdges(next, children, start, end);
    if collected.None? {
      return false, [];
    }
    edges := collected.value;
    good := w.AlignAll(edges);
  }
}
