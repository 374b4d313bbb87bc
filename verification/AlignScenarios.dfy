/** Consequences of single transitions of the plan protocol, and short runs that show where
    its guarantees end. */
module AlignScenarios {
  import opened AlignPlan
  import opened AlignRuns
  import opened Basics
  import opened LinearAlgebra
  import opened Traversals

  /* ---------- constraints ---------- */

  /** The platform moves to the coordinates whose lengths it was given. */
  ghost predicate ForwardUndoesInverse(w: World) {
    forall c {:trigger w.inverse(c)} :: w.forward(w.inverse(c)) == c
  }

  ghost predicate InverseUndoesForward(w: World) {
    forall v {:trigger w.forward(v)} :: w.inverse(w.forward(v)) == v
  }

  lemma AddSub(a: Vec, b: Vec)
    requires |a| == |b|
    ensures Add(b, Sub(a, b)) == a
    ensures Sub(Add(b, a), b) == a
  {
  }

  /** Carrying out the shown constrained motion leaves every listed panel at its current Tz, or at its
      current Rx and Ry, and takes every other coordinate of every panel to its unconstrained value. */
  lemma ConstraintsHold(s: Mirror, f: real, w: World, k: nat)
    requires f < 0.0 && 6 * |s.panels| <= |s.x| && k < |s.panels| && ForwardUndoesInverse(w)
    ensures var p := s.panels[k];
            var now := w.forward(w.lengths(p));
            var free := w.forward(Add(w.lengths(p), Slice(Scale(-f, s.x), k)));
            var reached := w.forward(Add(w.lengths(p), Slice(Shown(w, s, f), k)));
            && reached.tz == (if p in w.tzFixed then now.tz else free.tz)
            && reached.rx == (if p in w.rxRyFixed then now.rx else free.rx)
            && reached.ry == (if p in w.rxRyFixed then now.ry else free.ry)
            && reached.tx == free.tx && reached.ty == free.ty && reached.rz == free.rz
  {
    var p := s.panels[k];
    var delta := Slice(Scale(-f, s.x), k);
    assert Slice(Shown(w, s, f), k) == ConstrainedDelta(w, p, delta);
    AddSub(w.inverse(ConstrainedTarget(w, p, delta)), w.lengths(p));
  }

  /** An exact platform and no listed panels. */
  ghost predicate FreeWorld(w: World) {
    InverseUndoesForward(w) && w.tzFixed == {} && w.rxRyFixed == {}
  }

  lemma FreeDelta(w: World, p: PanelId, delta: Six)
    requires FreeWorld(w)
    ensures ConstrainedDelta(w, p, delta) == delta
  {
    assert w.inverse(w.forward(Add(w.lengths(p), delta))) == Add(w.lengths(p), delta);
    AddSub(delta, w.lengths(p));
  }

  /** In such a world constraining a motion does not change it... */
  lemma {:induction false} UnconstrainedIsIdentity(w: World, panels: seq<PanelId>, x: Vec, n: nat)
    requires n <= |panels| && 6 * |panels| <= |x| && FreeWorld(w)
    ensures Constrained(w, panels, x, n) == x
  {
    hide FreeWorld, ConstrainedDelta;
    if n > 0 {
      UnconstrainedIsIdentity(w, panels, x, n - 1);
      FreeDelta(w, panels[n - 1], Slice(x, n - 1));
      Reassembled(x, n);
      hide Slice;
    }
  }

  lemma Reassembled(x: Vec, n: nat)
    requires 0 < n && 6 * n <= |x|
    ensures x[..6 * (n - 1)] + Slice(x, n - 1) + x[6 * n..] == x
  {
  }

  function Power(f: real, n: nat): real {
    if n == 0 then 1.0 else f * Power(f, n - 1)
  }

  /** The mirror after `n` reviews with the same fraction. */
  function ReviewTimes(s: Mirror, f: real, w: World, n: nat): (t: Mirror)
    requires 6 * |s.panels| <= |s.x|
    ensures 6 * |t.panels| <= |t.x|
  {
    if n == 0 then s else ReviewStep(ReviewTimes(s, f, w, n - 1), f, w).0
  }

  lemma ScaleScale(a: real, b: real, c: real, x: Vec)
    requires c == a * b
    ensures Scale(a, Scale(b, x)) == Scale(c, x)
  {
    forall i | 0 <= i < |x|
      ensures Scale(a, Scale(b, x))[i] == Scale(c, x)[i]
    {
      assert a * (b * x[i]) == a * b * x[i];
    }
  }

  lemma ScaledNonZero(a: real, x: Vec)
    requires a != 0.0 && !IsZero(x)
    ensures !IsZero(Scale(a, x))
  {
    var i :| 0 <= i < |x| && x[i] != 0.0;
    assert Scale(a, x)[i] == a * x[i];
  }

  lemma NegativeReview(s: Mirror, g: real, w: World)
    requires 6 * |s.panels| <= |s.x| && ReviewAccepted(s, -g) && FreeWorld(w) && g > 0.0
    ensures ReviewStep(s, -g, w).0 == s.(state := On, lastFrac := g, x := Scale(g, s.x))
    ensures ReviewAccepted(ReviewStep(s, -g, w).0, -g)
  {
    UnconstrainedIsIdentity(w, s.panels, Scale(g, s.x), |s.panels|);
    ScaledNonZero(g, s.x);
    hide Constrained, FreeWorld, Scale;
  }

  /** ... but it stores the scaled motion, so that repeated reviews with the negative fraction `-g` shrink
      the plan geometrically instead of showing the same motion again. */
  lemma {:induction false} RepeatedReviewsCompound(s: Mirror, g: real, w: World, n: nat)
    requires 6 * |s.panels| <= |s.x| && ReviewAccepted(s, -g) && FreeWorld(w) && g > 0.0
    ensures ReviewTimes(s, -g, w, n).x == Scale(Power(g, n), s.x)
    ensures ReviewAccepted(ReviewTimes(s, -g, w, n), -g)
  {
    hide FreeWorld, ReviewStep, ReviewAccepted, Scale, IsZero;
    if n == 0 {
      Unscaled(s.x);
    } else {
      var t := ReviewTimes(s, -g, w, n - 1);
      RepeatedReviewsCompound(s, g, w, n - 1);
      NegativeReview(t, g, w);
      ScaleScale(g, Power(g, n - 1), Power(g, n), s.x);
    }
  }

  lemma Unscaled(x: Vec)
    ensures Scale(1.0, x) == x
  {
    forall i | 0 <= i < |x| ensures Scale(1.0, x)[i] == x[i] {
    }
  }

  /* ---------- executions that stop half way ---------- */

  /** A second execution right after a motion moves the panels again exactly when the first did not
      complete, and then it sends the same motion, to the panels that already carried it out as well. */
  lemma MovesAgainIffIncomplete(s: Mirror, m: Method, f: real, d: Dispatch, d': Dispatch)
    requires Covers(d.order, |s.panels|) && ExecuteStep(s, m, f, d).1.Moved?
    ensures var (t, first) := ExecuteStep(s, m, f, d);
            && (Covers(d'.order, |t.panels|) ==>
                 var second := ExecuteStep(t, m, f, d').1;
                 && (second.Moved? <==> !first.completed)
                 && (second.Moved? ==> second.motion == first.motion))
            && (first.completed <==> forall i :: 0 <= i < |d.order| && Reached(d, i) ==> !d.replies(d.order[i]).Rejected?)
  {
    FailureMeansRejection(d, 0);
  }

  /** The dispatch comes to place `i` of the traversal: every earlier panel simply accepted. */
  ghost predicate Reached(d: Dispatch, i: nat)
    requires i < |d.order|
  {
    forall b :: 0 <= b < i ==> d.replies(d.order[b]).Accepted?
  }

  lemma {:induction false} FailureMeansRejection(d: Dispatch, from: nat)
    requires from <= |d.order| && forall b :: 0 <= b < from ==> d.replies(d.order[b]).Accepted?
    ensures Failed(d, from) <==>
            exists i :: from <= i < |d.order| && Reached(d, i) && d.replies(d.order[i]).Rejected?
    ensures Stopped(d, from) <==>
            exists i :: from <= i < |d.order| && Reached(d, i) && d.replies(d.order[i]).AcceptedThenStopped?
    decreases |d.order| - from
  {
    if from < |d.order| && d.replies(d.order[from]).Accepted? {
      FailureMeansRejection(d, from + 1);
    } else if from < |d.order| {
      assert Reached(d, from);
    }
  }

  /* ---------- ring plans ---------- */

  /** A stored ring plan is one panel short: it is refused by every execution, the calculation that
      stores it leaves the mirror busy, and its review would read past the end of the vector. */
  lemma RingPlanIsUseless(s: Mirror, c: Calculation, m: Method, f: real, w: World, d: Dispatch)
    requires c.Planned? && CanCalculate(AlignRing, c) && Covers(d.order, |c.panels|)
    ensures var (t, l) := CalculateStep(s, AlignRing, c);
            && t.state.Busy? && l.Stored?
            && !ExecuteStep(t.(state := Off), m, f, d).1.Moved?
            && (ReviewAccepted(t, f) ==> !Enabled(t.(state := Off), Operate(AlignRing, SetAlignFrac(f, w))))
  {
  }

  /* ---------- runs ---------- */

  ghost function Start(): Run {
    Run([INITIAL], [], [])
  }

  ghost function Now(r: Run): Mirror
    requires r.states != []
  {
    r.states[|r.states| - 1]
  }

  ghost function Then(r: Run, e: Event): Run
    requires r.states != [] && Enabled(Now(r), e)
  {
    Run(r.states + [Step(Now(r), e).0], r.events + [e], r.labels + [Step(Now(r), e).1])
  }

  lemma ThenIsValid(r: Run, e: Event)
    requires r.Valid() && Enabled(Now(r), e)
    ensures Then(r, e).Valid()
  {
    var t := Then(r, e);
    forall i | 0 <= i < |t.events| ensures t.StepsAt(i) {
      if i < |r.events| { assert r.StepsAt(i); }
    }
  }

  const ONES: Six := [1.0, 1.0, 1.0, 1.0, 1.0, 1.0]
  const TWOS: Six := [2.0, 2.0, 2.0, 2.0, 2.0, 2.0]

  ghost function StillWorld(): World {
    World((p: PanelId) => ONES, (v: Six) => Coords(0.0, 0.0, 0.0, 0.0, 0.0, 0.0), (c: Coords) => ONES, {}, {})
  }

  ghost function ToPanelZero(): Dispatch {
    Dispatch([0], (k: nat) => Accepted)
  }

  /** A sector plan for one panel, stored and reviewed at one half. */
  lemma HalfReviewed() returns (r: Run)
    ensures r.Valid() && |r.labels| == 2
    ensures r.labels[0] == Stored(AlignSector, ONES, [7]) && r.labels[1].Reviewed? && r.labels[1].shown == Scale(0.5, ONES)
    ensures Now(r) == Mirror(On, ONES, [7], Some(AlignSector), 0.5)
  {
    var e0 := Operate(AlignSector, Calculate(Planned(ONES, [7], true)));
    var e1 := Operate(AlignSector, SetAlignFrac(0.5, StillWorld()));
    ThenIsValid(Start(), e0);
    r := Then(Start(), e0);
    assert Now(r) == Mirror(On, ONES, [7], Some(AlignSector), -1.0);
    assert ONES[0] == 1.0;
    ThenIsValid(r, e1);
    r := Then(r, e1);
  }

  lemma MovesAtHalf(s: Mirror, m: Method)
    requires s.state != Busy && |s.x| == 6 && s.x[0] != 0.0 && s.panels == [7] && s.tag == Some(m) && s.lastFrac == 0.5
    ensures var e := Operate(m, Execute(0.5, ToPanelZero()));
            Enabled(s, e) && Step(s, e).1.Moved? && Step(s, e).1.m == m && Step(s, e).1.motion == Scale(0.5, s.x)
  {
  }

  /** A calculation does not reset the fraction: a plan stored after the review is sent without ever
      having been shown. */
  lemma UnreviewedPlanCanMove() returns (r: Run)
    ensures r.Valid() && |r.labels| == 4
    ensures r.labels[1].Reviewed? && r.labels[2].Stored? && r.labels[3].Moved?
    ensures r.labels[3].motion != r.labels[1].shown && r.labels[3].motion == Scale(0.5, r.labels[2].x)
  {
    r := HalfReviewed();
    var e2 := Operate(AlignSector, Calculate(Planned(TWOS, [7], true)));
    ThenIsValid(r, e2);
    r := Then(r, e2);
    MovesAtHalf(Now(r), AlignSector);
    ThenIsValid(r, Operate(AlignSector, Execute(0.5, ToPanelZero())));
    r := Then(r, Operate(AlignSector, Execute(0.5, ToPanelZero())));
    assert Scale(0.5, TWOS)[0] == 1.0 && Scale(0.5, ONES)[0] == 0.5;
  }

  /** A loader whose sector fit failed hands its tag to the plan that is still stored; after the stop
      that a busy mirror needs, that plan moves under the loader's name. */
  lemma FailedLoaderCanMoveOldPlan() returns (r: Run)
    ensures r.Valid() && |r.labels| == 5
    ensures r.labels[0].Stored? && r.labels[0].maker == AlignSector && r.labels[2].Retagged?
    ensures r.labels[3].Halted? && r.labels[4].Moved? && r.labels[4].m == LoadMPESPositions
  {
    r := HalfReviewed();
    var e2 := Operate(LoadMPESPositions, Calculate(InnerAborted));
    ThenIsValid(r, e2);
    r := Then(r, e2);
    ThenIsValid(r, Stop);
    r := Then(r, Stop);
    MovesAtHalf(Now(r), LoadMPESPositions);
    ThenIsValid(r, Operate(LoadMPESPositions, Execute(0.5, ToPanelZero())));
    r := Then(r, Operate(LoadMPESPositions, Execute(0.5, ToPanelZero())));
  }
}
