/** What each command of the plan protocol does, told by the numbers stored and the numbers given, and
    the course from a calculation over its review to its motion. */
module AlignCommands {
  import opened AlignPlan
  import opened AlignRuns
  import opened Basics
  import opened LinearAlgebra
  import opened Traversals

  /** A calculation by a mirror that is not busy stores what it found, under its own method, and is the
      only one ready for a review if it succeeded and fits. */
  lemma CalculationStores(s: Mirror, m: Method, c: Calculation)
    requires !s.state.Busy? && CanCalculate(m, c)
    ensures var (t, l) := Step(s, Operate(m, Calculate(c)));
            && t.lastFrac == s.lastFrac
            && (c.Planned? ==> l == Stored(m, c.x, c.panels) && t.x == c.x && t.panels == c.panels && t.tag == Some(m))
            && (c.InnerAborted? ==> l == Retagged(m) && t.x == s.x && t.panels == s.panels && t.tag == Some(m))
            && (c.Aborted? ==> l == Nothing && t.x == s.x && t.panels == s.panels && t.tag == s.tag)
            && t.state == (if c.Planned? && c.good && |c.x| == 6 * |c.panels| then On else Busy)
  {
  }

  /** A review happens exactly when the fraction is between 0 and 1.01, on either side, and some entry of
      the plan is not zero. It stores the size of the fraction; what it shows for a positive one is that
      fraction of every entry, and for a negative one it is stored as the new plan. */
  lemma ReviewedIff(s: Mirror, m: Method, f: real, w: World)
    requires !s.state.Busy? && Enabled(s, Operate(m, SetAlignFrac(f, w)))
    ensures var (t, l) := Step(s, Operate(m, SetAlignFrac(f, w)));
            && (l.Reviewed? <==> (0.0 < f <= 1.01 || -1.01 <= f < 0.0) && exists i :: 0 <= i < |s.x| && s.x[i] != 0.0)
            && (!l.Reviewed? ==> l == Nothing && t == s.(state := On))
            && (l.Reviewed? ==>
                  && t == Mirror(On, if f > 0.0 then s.x else l.shown, s.panels, s.tag, if f > 0.0 then f else -f)
                  && l.frac == f && |l.shown| == |s.x|
                  && (f > 0.0 ==> forall i :: 0 <= i < |s.x| ==> l.shown[i] == f * s.x[i]))
  {
  }

  /** An execution moves exactly when its fraction is in range and within one part in 2^23 of the one
      reviewed, the plan was made under the same method, has six entries for each panel and is not zero. */
  lemma MovesIff(s: Mirror, m: Method, f: real, d: Dispatch)
    requires !s.state.Busy? && Covers(d.order, |s.panels|)
    ensures var (t, l) := Step(s, Operate(m, Execute(f, d)));
            var size := if f < 0.0 then -f else f;
            && (l.Moved? <==>
                  && 0.0 < size <= 1.01
                  && s.lastFrac >= 0.0 && -1.0 <= 8388608.0 * (size - s.lastFrac) <= 1.0
                  && s.tag == Some(m) && |s.x| == 6 * |s.panels|
                  && exists i :: 0 <= i < |s.x| && s.x[i] != 0.0)
            && (!l.Moved? ==> l == Nothing && t == s.(state := if 0.0 < size <= 1.01 then On else Busy))
            && (l.Moved? ==>
                  && l.m == m && l.fraction == size && |l.motion| == |s.x|
                  && (forall i :: 0 <= i < |s.x| ==> l.motion[i] == size * s.x[i])
                  && t.state == On && (!l.completed ==> t == s.(state := On))
                  && (l.completed ==> |t.x| == |s.x| && t.panels == [] && t.tag == None && t.lastFrac < 0.0))
  {
  }

  /** Everything else that can happen: a stop is always obeyed, a busy sensor makes the mirror busy, an unknown
      command leaves it so, a busy mirror ignores every command, and none of them touches the plan. */
  lemma OtherEvents(s: Mirror, m: Method, command: Command, sensorBusy: bool, endsOn: bool)
    ensures Step(s, Stop) == (s.(state := Off), Halted)
    ensures Step(s, PollState(sensorBusy)) == (s.(state := if sensorBusy then Busy else s.state), Nothing)
    ensures Step(s, OtherMethod(endsOn)) == (s.(state := if s.state != Busy && endsOn then On else s.state), Nothing)
    ensures Step(s, Operate(m, Unknown)) == (s.(state := Busy), Nothing)
    ensures s.state == Busy && Enabled(s, Operate(m, command)) ==> Step(s, Operate(m, command)) == (s, Nothing)
  {
  }

  /** The command sent to the `k`-th listed panel: its own six entries of the plan, times the fraction. */
  ghost predicate Commanded(sent: seq<MotionCommand>, panel: PanelId, x: Vec, k: nat, f: real)
    requires 6 * k + 6 <= |x|
  {
    exists c :: 0 <= c < |sent| && sent[c].panel == panel && forall i :: 0 <= i < 6 ==> sent[c].deltas[i] == f * x[6 * k + i]
  }

  lemma {:induction false} AllAreSent(panels: seq<PanelId>, motion: Vec, d: Dispatch, from: nat)
    requires |motion| == 6 * |panels| && Covers(d.order, |panels|) && from <= |d.order|
    requires forall k :: 0 <= k < |panels| ==> d.replies(k).Accepted?
    ensures |Sent(panels, motion, d, from)| == |d.order| - from && !Failed(d, from) && !Stopped(d, from)
    decreases |d.order| - from
  {
    if from < |d.order| {
      AllAreSent(panels, motion, d, from + 1);
    }
  }

  lemma EveryPanelCommanded(panels: seq<PanelId>, x: Vec, f: real, d: Dispatch, k: nat)
    requires |x| == 6 * |panels| && Covers(d.order, |panels|) && k < |panels|
    requires forall j :: 0 <= j < |panels| ==> d.replies(j).Accepted?
    ensures |Scale(f, x)| == |x| && Commanded(Sent(panels, Scale(f, x), d, 0), panels[k], x, k, f)
  {
    hide Sent, Scale, Failed, Stopped, Slice;
    var motion := Scale(f, x);
    ScaleLength(f, x);
    AllAreSent(panels, motion, d, 0);
    TraversalReaches(d.order, |panels|, k);
    var c :| 0 <= c < |d.order| && d.order[c] == k;
    SentAreSlices(panels, motion, d, 0, c);
    SliceOfScaled(f, x, k);
    CommandFound(Sent(panels, motion, d, 0), panels[k], x, k, f, c);
  }

  lemma CommandFound(sent: seq<MotionCommand>, panel: PanelId, x: Vec, k: nat, f: real, c: nat)
    requires 6 * k + 6 <= |x| && c < |sent| && sent[c].panel == panel
    requires forall i :: 0 <= i < 6 ==> sent[c].deltas[i] == f * x[6 * k + i]
    ensures Commanded(sent, panel, x, k, f)
  {
  }

  lemma SliceOfScaled(f: real, x: Vec, k: nat)
    requires 6 * k + 6 <= |x|
    ensures |Scale(f, x)| == |x| && forall i :: 0 <= i < 6 ==> Slice(Scale(f, x), k)[i] == f * x[6 * k + i]
  {
    forall i | 0 <= i < 6 ensures Slice(Scale(f, x), k)[i] == f * x[6 * k + i] {
      assert Scale(f, x)[6 * k + i] == f * x[6 * k + i];
    }
  }

  /** From any state in which the mirror is not busy: a calculation that succeeds with a fitting plan that is
      not zero, its review at a fraction up to 1.01, and an execution at that fraction send every listed
      panel that fraction of its own six entries, and if all accept, nothing is left to execute. */
  lemma PlanReviewedMoves(s: Mirror, m: Method, x: Vec, panels: seq<PanelId>, f: real, w: World, d: Dispatch)
    requires !s.state.Busy? && CanCalculate(m, Planned(x, panels, true)) && |x| == 6 * |panels|
    requires exists i :: 0 <= i < |x| && x[i] != 0.0
    requires 0.0 < f <= 1.01
    requires Covers(d.order, |panels|) && forall k :: 0 <= k < |panels| ==> d.replies(k).Accepted?
    ensures var planned := Step(s, Operate(m, Calculate(Planned(x, panels, true)))).0;
            Enabled(planned, Operate(m, SetAlignFrac(f, w))) &&
            var reviewed := Step(planned, Operate(m, SetAlignFrac(f, w))).0;
            Enabled(reviewed, Operate(m, Execute(f, d))) &&
            var (done, l) := Step(reviewed, Operate(m, Execute(f, d)));
            && l.Moved? && l.completed && l.m == m && |l.sent| == |panels|
            && (forall k :: 0 <= k < |panels| ==> Commanded(l.sent, panels[k], x, k, f))
            && done.state == On && done.panels == [] && done.tag == None && done.lastFrac < 0.0
  {
    CalculationStores(s, m, Planned(x, panels, true));
    var planned := Step(s, Operate(m, Calculate(Planned(x, panels, true)))).0;
    FitsForReview(planned, m, f, w);
    ReviewedIff(planned, m, f, w);
    var reviewed := Step(planned, Operate(m, SetAlignFrac(f, w))).0;
    FitsForExecution(reviewed, m, f, d);
    MovesIff(reviewed, m, f, d);
    SendsScaled(reviewed, m, f, d);
    hide *;
    forall k | 0 <= k < |panels| ensures |Scale(f, x)| == |x| && Commanded(Sent(panels, Scale(f, x), d, 0), panels[k], x, k, f) {
      EveryPanelCommanded(panels, x, f, d, k);
    }
    ScaleLength(f, x);
    AllAreSent(panels, Scale(f, x), d, 0);
  }

  lemma FitsForReview(s: Mirror, m: Method, f: real, w: World)
    requires 6 * |s.panels| <= |s.x|
    ensures Enabled(s, Operate(m, SetAlignFrac(f, w)))
  {
  }

  lemma FitsForExecution(s: Mirror, m: Method, f: real, d: Dispatch)
    requires Covers(d.order, |s.panels|)
    ensures Enabled(s, Operate(m, Execute(f, d)))
  {
  }

  lemma ScaleLength(f: real, x: Vec)
    ensures |Scale(f, x)| == |x|
  {
  }

  lemma SendsScaled(s: Mirror, m: Method, f: real, d: Dispatch)
    requires !s.state.Busy? && f > 0.0 && Covers(d.order, |s.panels|) && Step(s, Operate(m, Execute(f, d))).1.Moved?
    ensures |Scale(f, s.x)| == |s.x| == 6 * |s.panels|
    ensures Step(s, Operate(m, Execute(f, d))).1.sent == Sent(s.panels, Scale(f, s.x), d, 0)
    ensures Step(s, Operate(m, Execute(f, d))).1.completed <==> !Failed(d, 0)
  {
  }

  /* ---------- reviews in runs ---------- */

  /** The fraction and the logged plan ask for a review: in range, and not all zero. */
  predicate AsksForReview(labels: seq<Label>, f: real) {
    && (0.0 < f <= 1.01 || -1.01 <= f < 0.0)
    && exists i :: 0 <= i < |LoggedPlan(labels)| && LoggedPlan(labels)[i] != 0.0
  }

  /** In every reachable state in which the mirror is not busy, the log tells whether a review happens; and the
      review reads past the end of the plan exactly when it would happen and the latest plan stored is one
      of a ring. */
  lemma ReviewInRun(r: Run, n: nat, m: Method, f: real, w: World)
    requires r.Valid() && n <= |r.events| && !r.states[n].state.Busy?
    ensures var e := Operate(m, SetAlignFrac(f, w));
            && (Enabled(r.states[n], e) ==> (Step(r.states[n], e).1.Reviewed? <==> AsksForReview(r.labels[..n], f)))
            && (!Enabled(r.states[n], e) <==>
                  AsksForReview(r.labels[..n], f) && exists j: nat :: LatestStore(r, j, n) && r.labels[j].maker.AlignRing?)
  {
    LogExplainsState(r, n);
    var s := r.states[n];
    if Enabled(s, Operate(m, SetAlignFrac(f, w))) { ReviewedIff(s, m, f, w); }
    AcceptedIff(r, n, f);
    EnabledIff(s, m, f, w);
    hide *;
    if AsksForReview(r.labels[..n], f) {
      RingPlanIsShort(r, n);
    }
  }

  lemma AcceptedIff(r: Run, n: nat, f: real)
    requires n < |r.states| == |r.labels| + 1 && r.states[n].x == LoggedPlan(r.labels[..n])
    ensures ReviewAccepted(r.states[n], f) <==> AsksForReview(r.labels[..n], f)
    ensures AsksForReview(r.labels[..n], f) ==> !IsZero(r.states[n].x)
    ensures (0.0 < f <= 1.01 || -1.01 <= f < 0.0) && (exists i :: 0 <= i < |r.states[n].x| && r.states[n].x[i] != 0.0)
            <==> AsksForReview(r.labels[..n], f)
  {
  }

  lemma EnabledIff(s: Mirror, m: Method, f: real, w: World)
    requires !s.state.Busy?
    ensures Enabled(s, Operate(m, SetAlignFrac(f, w))) <==> !ReviewAccepted(s, f) || 6 * |s.panels| <= |s.x|
  {
  }

  /** A plan that is not zero falls short of its panels exactly when a ring calculation stored it. */
  lemma RingPlanIsShort(r: Run, n: nat)
    requires r.Valid() && n <= |r.events| && !IsZero(r.states[n].x) && PlanExplained(r, n)
    ensures |r.states[n].x| < 6 * |r.states[n].panels| <==> exists j: nat :: LatestStore(r, j, n) && r.labels[j].maker.AlignRing?
  {
    hide IsZero, Run.StepsAt;
    var j: nat :| PlanFrom(r, j, n);
    forall i: nat | LatestStore(r, i, n) ensures i == j {
    }
  }
}
