/** What holds of every run of the plan protocol. */
module AlignRuns {
  import opened AlignPlan
  import opened Basics
  import opened LinearAlgebra
  import opened Traversals

  /** A run from start-up: `events[i]` takes `states[i]` to `states[i + 1]` and is logged as `labels[i]`. */
  datatype Run = Run(states: seq<Mirror>, events: seq<Event>, labels: seq<Label>) {
    ghost predicate Valid() {
      && |states| == |events| + 1 && |labels| == |events|
      && states[0] == INITIAL
      && forall i {:trigger StepsAt(i)} :: 0 <= i < |events| ==> StepsAt(i)
    }

    ghost predicate StepsAt(i: nat)
      requires |states| == |events| + 1 && |labels| == |events| && i < |events|
    {
      Enabled(states[i], events[i]) && Step(states[i], events[i]) == (states[i + 1], labels[i])
    }
  }

  predicate Completes(l: Label) { l.Moved? && l.completed }

  /** `j` is the latest plan stored before `n`, and no execution has completed since. */
  ghost predicate LatestStore(r: Run, j: nat, n: nat)
    requires n <= |r.labels|
  {
    j < n && r.labels[j].Stored? &&
    forall i :: j < i < n ==> !r.labels[i].Stored? && !Completes(r.labels[i])
  }

  /** `k` is the latest accepted review before `n`, and no execution has completed since. */
  ghost predicate LatestReview(r: Run, k: nat, n: nat)
    requires n <= |r.labels|
  {
    k < n && r.labels[k].Reviewed? &&
    forall i :: k < i < n ==> !r.labels[i].Reviewed? && !Completes(r.labels[i])
  }

  /** `t` is the latest event before `n` that set the method tag, and no execution has completed since. */
  ghost predicate LatestTag(r: Run, t: nat, n: nat)
    requires n <= |r.labels|
  {
    t < n && (r.labels[t].Stored? || r.labels[t].Retagged?) &&
    forall i :: t < i < n ==> !r.labels[i].Stored? && !r.labels[i].Retagged? && !Completes(r.labels[i])
  }

  /** The plan vector as the log alone tells it. */
  function LoggedPlan(labels: seq<Label>): Vec {
    if labels == [] then [] else
    var before := LoggedPlan(labels[..|labels| - 1]);
    match labels[|labels| - 1]
    case Stored(_, x, _) => x
    case Reviewed(f, shown) => if f < 0.0 then shown else before
    case Moved(_, _, _, _, completed) => if completed then Zeros(|before|) else before
    case _ => before
  }

  /* ---------- the invariant ---------- */

  ghost predicate PlanExplained(r: Run, n: nat)
    requires n < |r.states| == |r.labels| + 1
  {
    IsZero(r.states[n].x) || exists j: nat :: PlanFrom(r, j, n)
  }

  ghost predicate PlanFrom(r: Run, j: nat, n: nat)
    requires n < |r.states| == |r.labels| + 1
  {
    && LatestStore(r, j, n)
    && r.states[n].panels == r.labels[j].panels
    && |r.states[n].x| == |r.labels[j].x|
    && NoDuplicates(r.labels[j].panels)
    && IsSized(r.labels[j])
  }

  /** A stored ring plan is one panel short; every other plan reaches to the last of its panels. */
  predicate IsSized(l: Label)
    requires l.Stored?
  {
    if l.maker.AlignRing? then |l.x| + 6 == 6 * |l.panels| else |l.x| >= 6 * |l.panels|
  }

  ghost predicate FractionExplained(r: Run, n: nat)
    requires n < |r.states| == |r.labels| + 1
  {
    r.states[n].lastFrac < 0.0 ||
    exists k: nat :: LatestReview(r, k, n) && r.states[n].lastFrac == AbsReal(r.labels[k].frac)
  }

  ghost predicate TagExplained(r: Run, n: nat)
    requires n < |r.states| == |r.labels| + 1
  {
    r.states[n].tag.None? ||
    exists t: nat :: LatestTag(r, t, n) && r.states[n].tag == Some(r.labels[t].maker)
  }

  ghost predicate Explained(r: Run, n: nat)
    requires n < |r.states| == |r.labels| + 1
  {
    && r.states[n].x == LoggedPlan(r.labels[..n])
    && PlanExplained(r, n) && FractionExplained(r, n) && TagExplained(r, n)
  }

  /** How each kind of log entry relates the states around it. */
  lemma LabelsTellTheStep(s: Mirror, e: Event)
    requires Enabled(s, e)
    ensures var (t, l) := Step(s, e);
            && (l.Nothing? || l.Halted? ==> t == s.(state := t.state))
            && (l.Retagged? ==> t == s.(state := t.state, tag := Some(l.maker)))
            && (l.Stored? ==> t == s.(state := t.state, x := l.x, panels := l.panels, tag := Some(l.maker)))
            && (l.Reviewed? ==> t == s.(state := On, lastFrac := AbsReal(l.frac), x := if l.frac < 0.0 then l.shown else s.x))
            && (l.Moved? ==> t == if l.completed then Mirror(On, Zeros(|s.x|), [], None, -1.0) else s.(state := On))
  {
  }

  lemma StoredIsPossible(s: Mirror, e: Event)
    requires Enabled(s, e) && Step(s, e).1.Stored?
    ensures var l := Step(s, e).1;
            NoDuplicates(l.panels) && IsSized(l)
  {
  }

  lemma ReviewIsPossible(s: Mirror, e: Event)
    requires Enabled(s, e) && Step(s, e).1.Reviewed?
    ensures var l := Step(s, e).1;
            ValidFraction(l.frac) && !IsZero(s.x) && |l.shown| == |s.x|
            && (l.frac > 0.0 ==> l.shown == Scale(l.frac, s.x))
  {
  }

  lemma PlanStarts(r: Run, n: nat)
    requires n < |r.labels| && |r.states| == |r.labels| + 1 && r.labels[n].Stored?
    requires r.states[n + 1].panels == r.labels[n].panels && r.states[n + 1].x == r.labels[n].x
    requires NoDuplicates(r.labels[n].panels) && IsSized(r.labels[n])
    ensures PlanExplained(r, n + 1)
  {
    assert PlanFrom(r, n, n + 1);
  }

  lemma PlanCarries(r: Run, n: nat)
    requires n < |r.labels| && |r.states| == |r.labels| + 1 && !r.labels[n].Stored? && PlanExplained(r, n)
    requires Completes(r.labels[n]) ==> IsZero(r.states[n + 1].x)
    requires !Completes(r.labels[n]) ==> r.states[n + 1].panels == r.states[n].panels
    requires |r.states[n + 1].x| == |r.states[n].x|
    requires IsZero(r.states[n].x) ==> IsZero(r.states[n + 1].x)
    ensures PlanExplained(r, n + 1)
  {
    if !IsZero(r.states[n + 1].x) {
      var j: nat :| PlanFrom(r, j, n);
      assert PlanFrom(r, j, n + 1);
    }
  }

  lemma PlanStaysExplained(r: Run, n: nat)
    requires r.Valid() && n < |r.events| && PlanExplained(r, n)
    ensures PlanExplained(r, n + 1)
  {
    assert r.StepsAt(n);
    var s, e, l := r.states[n], r.events[n], r.labels[n];
    LabelsTellTheStep(s, e);
    if l.Stored? {
      StoredIsPossible(s, e);
      PlanStarts(r, n);
    } else {
      if l.Reviewed? { ReviewIsPossible(s, e); }
      hide *;
      PlanCarries(r, n);
    }
  }

  lemma FractionStaysExplained(r: Run, n: nat)
    requires r.Valid() && n < |r.events| && FractionExplained(r, n)
    ensures FractionExplained(r, n + 1)
  {
    assert r.StepsAt(n);
    LabelsTellTheStep(r.states[n], r.events[n]);
    if r.labels[n].Reviewed? {
      assert LatestReview(r, n, n + 1);
    } else if r.states[n].lastFrac >= 0.0 {
      var k: nat :| LatestReview(r, k, n) && r.states[n].lastFrac == AbsReal(r.labels[k].frac);
      if !Completes(r.labels[n]) {
        assert LatestReview(r, k, n + 1);
      }
    }
  }

  lemma TagStaysExplained(r: Run, n: nat)
    requires r.Valid() && n < |r.events| && TagExplained(r, n)
    ensures TagExplained(r, n + 1)
  {
    assert r.StepsAt(n);
    LabelsTellTheStep(r.states[n], r.events[n]);
    if r.labels[n].Stored? || r.labels[n].Retagged? {
      assert LatestTag(r, n, n + 1);
    } else if r.states[n].tag.Some? {
      var t: nat :| LatestTag(r, t, n) && r.states[n].tag == Some(r.labels[t].maker);
      if !Completes(r.labels[n]) {
        assert LatestTag(r, t, n + 1);
      }
    }
  }

  lemma LogStaysExplained(r: Run, n: nat)
    requires r.Valid() && n < |r.events| && r.states[n].x == LoggedPlan(r.labels[..n])
    ensures r.states[n + 1].x == LoggedPlan(r.labels[..n + 1])
  {
    assert r.StepsAt(n);
    LabelsTellTheStep(r.states[n], r.events[n]);
    assert r.labels[..n + 1][..n] == r.labels[..n];
  }

  /** In every reachable state the log explains the stored plan, its fraction and its tag. */
  lemma {:induction false} LogExplainsState(r: Run, n: nat)
    requires r.Valid() && n <= |r.events|
    ensures Explained(r, n)
  {
    if n > 0 {
      LogExplainsState(r, n - 1);
      PlanStaysExplained(r, n - 1);
      FractionStaysExplained(r, n - 1);
      TagStaysExplained(r, n - 1);
      LogStaysExplained(r, n - 1);
    }
  }

  /* ---------- what moves ---------- */

  lemma MoveIsPossible(s: Mirror, e: Event)
    requires Enabled(s, e) && Step(s, e).1.Moved?
    ensures e.Operate? && e.command.Execute? && Covers(e.command.dispatch.order, |s.panels|)
    ensures var l := Step(s, e).1;
            && ExecuteAccepted(s, l.m, l.fraction)
            && 0.0 < l.fraction <= 1.01
            && l.motion == Scale(l.fraction, s.x)
            && |l.motion| == 6 * |s.panels|
            && l.sent == Sent(s.panels, l.motion, e.command.dispatch, 0)
            && (l.completed <==> !Failed(e.command.dispatch, 0))
  {
  }

  lemma {:induction false} SentAreSlices(panels: seq<PanelId>, motion: Vec, d: Dispatch, from: nat, i: nat)
    requires |motion| == 6 * |panels| && Covers(d.order, |panels|)
    requires i < |Sent(panels, motion, d, from)|
    ensures from + i < |d.order|
    ensures var k := d.order[from + i]; Sent(panels, motion, d, from)[i] == MotionCommand(panels[k], Slice(motion, k))
    decreases i
  {
    if i > 0 {
      SentAreSlices(panels, motion, d, from + 1, i - 1);
    }
  }

  lemma CommandIsSlice(panels: seq<PanelId>, motion: Vec, d: Dispatch, i: nat)
    requires |motion| == 6 * |panels| && Covers(d.order, |panels|) && i < |Sent(panels, motion, d, 0)|
    ensures IsSliceCommand(panels, motion, Sent(panels, motion, d, 0)[i])
  {
    SentAreSlices(panels, motion, d, 0, i);
  }

  lemma CommandsDiffer(panels: seq<PanelId>, motion: Vec, d: Dispatch, i: nat, j: nat)
    requires |motion| == 6 * |panels| && Covers(d.order, |panels|) && NoDuplicates(panels)
    requires i < j < |Sent(panels, motion, d, 0)|
    ensures Sent(panels, motion, d, 0)[i].panel != Sent(panels, motion, d, 0)[j].panel
  {
    SentAreSlices(panels, motion, d, 0, i);
    SentAreSlices(panels, motion, d, 0, j);
    assert d.order[i] != d.order[j];
  }

  /** Each command is one listed panel with its own six entries of the motion, and no panel is
      commanded twice in one execution. */
  lemma CommandsAreSlices(panels: seq<PanelId>, motion: Vec, d: Dispatch)
    requires |motion| == 6 * |panels| && Covers(d.order, |panels|) && NoDuplicates(panels)
    ensures var sent := Sent(panels, motion, d, 0);
            && (forall i :: 0 <= i < |sent| ==> IsSliceCommand(panels, motion, sent[i]))
            && (forall i, j :: 0 <= i < j < |sent| ==> sent[i].panel != sent[j].panel)
  {
    hide Sent, IsSliceCommand, NoDuplicates;
    var sent := Sent(panels, motion, d, 0);
    forall i | 0 <= i < |sent| ensures IsSliceCommand(panels, motion, sent[i]) {
      CommandIsSlice(panels, motion, d, i);
    }
    forall i, j | 0 <= i < j < |sent| ensures sent[i].panel != sent[j].panel {
      CommandsDiffer(panels, motion, d, i, j);
    }
  }

  ghost predicate IsSliceCommand(panels: seq<PanelId>, motion: Vec, c: MotionCommand)
    requires |motion| == 6 * |panels|
  {
    exists k :: 0 <= k < |panels| && c == MotionCommand(panels[k], Slice(motion, k))
  }

  /** Every motion belongs to a plan stored since the last completed execution, scaled by a fraction
      reviewed since then, under the method tag that was set last; its commands are the plan's slices;
      and it is never a ring plan. */
  lemma MotionIsPlannedAndReviewed(r: Run, i: nat)
    requires r.Valid() && i < |r.labels| && r.labels[i].Moved?
    ensures exists j: nat :: LatestStore(r, j, i) && MovesPlan(r, j, i)
    ensures exists k: nat :: LatestReview(r, k, i)
              && AbsReal(r.labels[i].fraction - AbsReal(r.labels[k].frac)) <= FLT_EPSILON
    ensures exists t: nat :: LatestTag(r, t, i) && r.labels[t].maker == r.labels[i].m
    ensures r.labels[i].motion == Scale(r.labels[i].fraction, LoggedPlan(r.labels[..i]))
  {
    assert r.StepsAt(i);
    LogExplainsState(r, i);
    var s := r.states[i];
    MoveIsPossible(s, r.events[i]);
    var j: nat :| PlanFrom(r, j, i);
    CommandsAreSlices(s.panels, r.labels[i].motion, r.events[i].command.dispatch);
    assert LatestStore(r, j, i) && MovesPlan(r, j, i);
  }

  /** Motion `i` carries out the plan stored at `j`. */
  ghost predicate MovesPlan(r: Run, j: nat, i: nat)
    requires i < |r.labels| && j < i && r.labels[i].Moved? && r.labels[j].Stored?
  {
    var moved, plan := r.labels[i], r.labels[j];
    && !plan.maker.AlignRing?
    && |moved.motion| == |plan.x| == 6 * |plan.panels|
    && (forall c :: 0 <= c < |moved.sent| ==> IsSliceCommand(plan.panels, moved.motion, moved.sent[c]))
    && (forall c, d :: 0 <= c < d < |moved.sent| ==> moved.sent[c].panel != moved.sent[d].panel)
  }

  /** A motion runs under another method's tag than its plan's maker exactly when, after the plan was
      stored, a failed MPES loader was the last to set the tag. */
  lemma MotionOfAnotherMethod(r: Run, j: nat, i: nat)
    requires r.Valid() && i < |r.labels| && r.labels[i].Moved? && LatestStore(r, j, i)
    ensures r.labels[i].m != r.labels[j].maker <==>
            exists t: nat :: j < t && LatestTag(r, t, i) && r.labels[t].Retagged? && r.labels[t].maker != r.labels[j].maker
    ensures r.labels[i].m != r.labels[j].maker ==> IsMPESLoader(r.labels[i].m)
  {
    MotionIsPlannedAndReviewed(r, i);
    hide *;
    var t: nat :| LatestTag(r, t, i) && r.labels[t].maker == r.labels[i].m;
    TagNotBeforeStore(r, j, t, i);
    forall u: nat | LatestTag(r, u, i) ensures u == t {
      LatestTagIsUnique(r, t, u, i);
    }
    if r.labels[t].Retagged? {
      RetagsAreLoaders(r, t);
    }
  }

  lemma TagNotBeforeStore(r: Run, j: nat, t: nat, i: nat)
    requires i <= |r.labels| && LatestStore(r, j, i) && LatestTag(r, t, i)
    ensures t == j || (j < t < i && r.labels[t].Retagged?)
  {
  }

  lemma LatestTagIsUnique(r: Run, t: nat, u: nat, i: nat)
    requires i <= |r.labels| && LatestTag(r, t, i) && LatestTag(r, u, i)
    ensures t == u
  {
  }

  lemma RetagsAreLoaders(r: Run, t: nat)
    requires r.Valid() && t < |r.labels| && r.labels[t].Retagged?
    ensures IsMPESLoader(r.labels[t].maker)
  {
    assert r.StepsAt(t);
  }

  /** After a completed execution nothing moves until both a new plan and a new review. */
  lemma NothingMovesUntilPlannedAndReviewed(r: Run, c: nat, i: nat)
    requires r.Valid() && c < i < |r.labels| && Completes(r.labels[c]) && r.labels[i].Moved?
    ensures exists j, k :: c < j < i && c < k < i && r.labels[j].Stored? && r.labels[k].Reviewed?
  {
    MotionIsPlannedAndReviewed(r, i);
    hide *;
    var j: nat :| LatestStore(r, j, i) && MovesPlan(r, j, i);
    var k: nat :| LatestReview(r, k, i) && AbsReal(r.labels[i].fraction - AbsReal(r.labels[k].frac)) <= FLT_EPSILON;
    NotBeforeCompletion(r, c, j, k, i);
  }

  lemma NotBeforeCompletion(r: Run, c: nat, j: nat, k: nat, i: nat)
    requires c < i <= |r.labels| && Completes(r.labels[c]) && LatestStore(r, j, i) && LatestReview(r, k, i)
    ensures c < j < i && c < k < i && r.labels[j].Stored? && r.labels[k].Reviewed?
  {
  }

  /* ---------- being busy ---------- */

  /** Events that leave the mirror busy: a calculation that reports an error or whose vector does not
      fit its panels, an execution with a fraction out of range, an unknown command, and the report of
      a busy sensor. */
  predicate Blocks(e: Event) {
    match e
    case Operate(_, Calculate(c)) => !(c.Planned? && c.good && |c.x| == 6 * |c.panels|)
    case Operate(_, Execute(f, _)) => !ValidFraction(f)
    case Operate(_, Unknown) => true
    case PollState(sensorBusy) => sensorBusy
    case _ => false
  }

  lemma BusyAfter(s: Mirror, e: Event)
    requires Enabled(s, e)
    ensures Step(s, e).0.state.Busy? <==> !e.Stop? && (s.state.Busy? || Blocks(e))
  {
  }

  /** `a` is a blocking event before `n`, and there was no stop since. */
  ghost predicate BlockedSince(r: Run, a: nat, n: nat)
    requires n <= |r.events|
  {
    a < n && Blocks(r.events[a]) && forall b :: a < b < n ==> !r.events[b].Stop?
  }

  /** The mirror is busy exactly when a blocking event came after the last stop, at start-up on. */
  lemma {:induction false} BusyIffBlocked(r: Run, n: nat)
    requires r.Valid() && n <= |r.events|
    ensures r.states[n].state.Busy? <==> exists a: nat :: BlockedSince(r, a, n)
  {
    if n > 0 {
      BusyIffBlocked(r, n - 1);
      assert r.StepsAt(n - 1);
      BusyAfter(r.states[n - 1], r.events[n - 1]);
      BlockedStep(r, n - 1, n);
      hide *;
    }
  }

  lemma BlockedStep(r: Run, n: nat, m: nat)
    requires n + 1 == m <= |r.events|
    ensures (exists a: nat :: BlockedSince(r, a, m))
              <==> !r.events[n].Stop? && ((exists a: nat :: BlockedSince(r, a, n)) || Blocks(r.events[n]))
  {
    if r.events[n].Stop? {
      forall a: nat ensures !BlockedSince(r, a, m) {
      }
    } else if Blocks(r.events[n]) {
      assert BlockedSince(r, n, m);
    } else {
      forall a: nat ensures BlockedSince(r, a, m) <==> BlockedSince(r, a, n) {
      }
    }
  }

  /** Once the mirror is busy nothing at all happens to it until a stop. */
  lemma {:induction false} BusyUntilStop(r: Run, a: nat, i: nat)
    requires r.Valid() && a <= i < |r.labels| && r.states[a].state.Busy?
    requires forall b :: a <= b <= i ==> !r.labels[b].Halted?
    ensures r.states[i + 1] == r.states[a] && r.labels[i].Nothing?
    decreases i - a
  {
    assert r.StepsAt(a);
    BusyRefuses(r.states[a], r.events[a]);
    if a < i {
      BusyUntilStop(r, a + 1, i);
    }
  }

  lemma BusyRefuses(s: Mirror, e: Event)
    requires Enabled(s, e) && s.state.Busy? && !Step(s, e).1.Halted?
    ensures Step(s, e).0 == s && Step(s, e).1.Nothing?
  {
  }

  /** After a blocking event - a failed calculation, a refused fraction - every event up to the next
      stop is logged as nothing and leaves the mirror as the blocking event left it. */
  lemma FailuresBlockUntilStop(r: Run, a: nat, i: nat)
    requires r.Valid() && a < i < |r.labels| && Blocks(r.events[a])
    requires forall b :: a < b <= i ==> !r.labels[b].Halted?
    ensures r.labels[i].Nothing? && r.states[i + 1] == r.states[a + 1]
  {
    assert r.StepsAt(a);
    BusyAfter(r.states[a], r.events[a]);
    BusyUntilStop(r, a + 1, i);
  }

  /* ---------- what was reviewed is what is sent ---------- */

  lemma {:induction false} PlanUnchanged(r: Run, k: nat, i: nat)
    requires r.Valid() && k < i < |r.states| && LatestReview(r, k, i)
    requires forall b :: k < b < i ==> !r.labels[b].Stored?
    ensures r.states[i].x == r.states[k + 1].x
  {
    if k + 1 < i {
      assert LatestReview(r, k, i - 1);
      PlanUnchanged(r, k, i - 1);
      assert r.StepsAt(i - 1);
      LabelsTellTheStep(r.states[i - 1], r.events[i - 1]);
    }
  }

  lemma ScaleFixes(a: real, x: Vec)
    requires !IsZero(x)
    ensures Scale(a, x) == x <==> a == 1.0
  {
    var i :| 0 <= i < |x| && x[i] != 0.0;
    assert forall k :: 0 <= k < |x| ==> Scale(a, x)[k] == a * x[k];
    if Scale(a, x)[i] == x[i] {
      Cancels(a, x[i]);
    }
  }

  lemma Cancels(a: real, b: real)
    requires a * b == b && b != 0.0
    ensures a == 1.0
  {
    assert (a - 1.0) * b == 0.0;
  }

  /** With no calculation in between and the reviewed fraction itself, the motion sent is the motion
      shown exactly when the review was unconstrained or asked for the whole motion. A constrained
      review stores what it shows, already scaled, and the execution scales it once more. */
  lemma SentIsShown(r: Run, k: nat, i: nat)
    requires r.Valid() && i < |r.labels| && r.labels[i].Moved? && LatestReview(r, k, i)
    requires forall b :: k < b < i ==> !r.labels[b].Stored?
    requires r.labels[i].fraction == AbsReal(r.labels[k].frac)
    ensures r.labels[i].motion == r.labels[k].shown <==> r.labels[k].frac > 0.0 || r.labels[k].frac == -1.0
  {
    assert r.StepsAt(i) && r.StepsAt(k);
    PlanUnchanged(r, k, i);
    MoveIsPossible(r.states[i], r.events[i]);
    ReviewIsPossible(r.states[k], r.events[k]);
    LabelsTellTheStep(r.states[k], r.events[k]);
    ScaleFixes(r.labels[i].fraction, r.states[i].x);
  }

  /* ---------- what was reviewed is what was stored ---------- */

  /** In every reachable state the stored fraction is unset or one that an execution may be asked for. */
  predicate FractionReadable(s: Mirror) { s.lastFrac < 0.0 || ValidFraction(s.lastFrac) }

  lemma FractionIsReadable(r: Run, n: nat)
    requires r.Valid() && n <= |r.events|
    ensures FractionReadable(r.states[n])
  {
    LogExplainsState(r, n);
    if r.states[n].lastFrac >= 0.0 {
      var k: nat :| LatestReview(r, k, n) && r.states[n].lastFrac == AbsReal(r.labels[k].frac);
      assert r.StepsAt(k);
      ReviewIsPossible(r.states[k], r.events[k]);
    }
  }

  lemma {:induction false} FractionUnsetWithoutReview(r: Run, j: nat, n: nat)
    requires r.Valid() && j <= n < |r.states| && r.states[j].lastFrac < 0.0
    requires forall b :: j <= b < n ==> !r.labels[b].Reviewed?
    ensures r.states[n].lastFrac < 0.0
  {
    if j < n {
      FractionUnsetWithoutReview(r, j, n - 1);
      assert r.StepsAt(n - 1);
      LabelsTellTheStep(r.states[n - 1], r.events[n - 1]);
    }
  }

  lemma MotionHasFraction(r: Run, i: nat)
    requires r.Valid() && i < |r.labels| && r.labels[i].Moved?
    ensures r.states[i].lastFrac >= 0.0
  {
    assert r.StepsAt(i);
    MoveIsPossible(r.states[i], r.events[i]);
  }

  /** A plan stored while no fraction was set moves only after a review of its own. */
  lemma PlanStoredUnsetIsReviewed(r: Run, j: nat, i: nat)
    requires r.Valid() && i < |r.labels| && r.labels[i].Moved? && LatestStore(r, j, i)
    requires r.states[j].lastFrac < 0.0
    ensures exists k: nat :: j < k < i && LatestReview(r, k, i)
  {
    MotionIsPlannedAndReviewed(r, i);
    MotionHasFraction(r, i);
    hide *;
    var k: nat :| LatestReview(r, k, i) && AbsReal(r.labels[i].fraction - AbsReal(r.labels[k].frac)) <= FLT_EPSILON;
    NoReviewBetween(r, j, k, i);
    if k <= j {
      FractionUnsetWithoutReview(r, j, i);
    }
  }

  lemma NoReviewBetween(r: Run, j: nat, k: nat, i: nat)
    requires i <= |r.labels| && LatestStore(r, j, i) && LatestReview(r, k, i)
    ensures j < i && k < i && k != j
    ensures k <= j ==> forall b :: j <= b < i ==> !r.labels[b].Reviewed?
  {
  }

  /** A calculation can be followed at once by a motion of its plan exactly when it succeeded with a plan
      that fits and is not zero, and a fraction was set before it: the guard that lets plans move
      unreviewed. */
  lemma MovesAtOnceIff(s: Mirror, m: Method, c: Calculation, d: Dispatch)
    requires !s.state.Busy? && FractionReadable(s) && CanCalculate(m, c)
    requires Covers(d.order, |CalculateStep(s, m, c).0.panels|)
    ensures var t := Step(s, Operate(m, Calculate(c))).0;
            (exists f :: Step(t, Operate(m, Execute(f, d))).1.Moved?)
            <==> c.Planned? && c.good && |c.x| == 6 * |c.panels| && !IsZero(c.x) && s.lastFrac >= 0.0
  {
    var t := Step(s, Operate(m, Calculate(c))).0;
    if !t.state.Busy? && !IsZero(t.x) && s.lastFrac >= 0.0 {
      assert Step(t, Operate(m, Execute(s.lastFrac, d))).1.Moved?;
    }
  }

  /** In every state of every run, then: a plan can move without a review exactly when it fits and is not
      zero, and a fraction is still set from before. */
  lemma UnreviewedMovesIff(r: Run, n: nat, m: Method, c: Calculation, d: Dispatch)
    requires r.Valid() && n <= |r.events| && !r.states[n].state.Busy? && CanCalculate(m, c)
    requires Covers(d.order, |CalculateStep(r.states[n], m, c).0.panels|)
    ensures var t := Step(r.states[n], Operate(m, Calculate(c))).0;
            (exists f :: Step(t, Operate(m, Execute(f, d))).1.Moved?)
            <==> c.Planned? && c.good && |c.x| == 6 * |c.panels| && !IsZero(c.x) && r.states[n].lastFrac >= 0.0
  {
    FractionIsReadable(r, n);
    MovesAtOnceIff(r.states[n], m, c, d);
  }
}
