/** The mirror controller as an object: the same protocol, carried out by updating fields. */
module MirrorController {
  import opened AlignPlan
  import opened Basics
  import opened LinearAlgebra
  import opened Traversals

  class Controller {
    var state: DeviceState
    var xCalculated: Vec
    var panelsToMove: seq<PanelId>
    var previousCalculatedMethod: Option<Method>
    var lastSetAlignFrac: real

    /** The fields as a value. */
    ghost function Fields(): Mirror
      reads this
    {
      Mirror(state, xCalculated, panelsToMove, previousCalculatedMethod, lastSetAlignFrac)
    }

    constructor ()
      ensures Fields() == INITIAL
    {
      state := On;
      xCalculated := [];
      panelsToMove := [];
      previousCalculatedMethod := None;
      lastSetAlignFrac := -1.0;
    }

    /** Runs one command of one of the eight planning methods. The status is good exactly when the
        mirror is not left busy, so an execution that found nothing to move reports success. */
    method Operate(m: Method, command: Command) returns (good: bool, entry: Label)
      requires NoDuplicates(panelsToMove) && Enabled(Fields(), Event.Operate(m, command))
      modifies this
      ensures (Fields(), entry) == Step(old(Fields()), Event.Operate(m, command))
      ensures NoDuplicates(panelsToMove)
      ensures good <==> !state.Busy?
    {
      entry := Nothing;
      if state == Busy {
        return false, entry;
      }
      state := Busy;
      match command {
        case Calculate(result) =>
          good, entry := StorePlan(m, result);
          if !good {
            return;
          }
        case SetAlignFrac(frac, world) =>
          entry := ReviewPlan(frac, world);
        case Execute(fraction, dispatch) =>
          var alignFrac := AbsReal(fraction);
          if alignFrac > 1.01 || alignFrac <= 0.0 {
            return false, entry;
          }
          entry := MoveSelectedPanels(m, alignFrac, dispatch);
        case Unknown =>
          return false, entry;
      }
      state := On;
      good := true;
    }

    /** What a calculation leaves behind, and whether it may be reviewed. */
    method StorePlan(m: Method, result: Calculation) returns (good: bool, entry: Label)
      requires state == Busy && CanCalculate(m, result) && NoDuplicates(panelsToMove)
      modifies `xCalculated, `panelsToMove, `previousCalculatedMethod
      ensures entry == CalculateStep(Fields(), m, result).1
      ensures good <==> !CalculateStep(old(Fields()), m, result).0.state.Busy?
      ensures Fields() == CalculateStep(old(Fields()), m, result).0.(state := Busy)
      ensures NoDuplicates(panelsToMove)
    {
      match result {
        case Aborted =>
          good, entry := false, Nothing;
        case InnerAborted =>
          previousCalculatedMethod := Some(m);
          good, entry := false, Retagged(m);
        case Planned(x, panels, status) =>
          xCalculated := x;
          panelsToMove := panels;
          previousCalculatedMethod := Some(m);
          entry := Stored(m, x, panels);
          good := status && |xCalculated| == 6 * |panelsToMove|;
      }
    }

    /** Fixes the fraction to execute and shows the motion; a negative fraction also applies the
        panel constraints and stores the result as the new plan. */
    method ReviewPlan(alignFrac: real, w: World) returns (entry: Label)
      requires ReviewAccepted(Fields(), alignFrac) ==> 6 * |panelsToMove| <= |xCalculated|
      modifies `xCalculated, `lastSetAlignFrac
      ensures (Fields().(state := On), entry) == ReviewStep(old(Fields()), alignFrac, w)
    {
      if AbsReal(alignFrac) > 1.01 || AbsReal(alignFrac) <= 0.0 {
        return Nothing;
      }
      var none := NoMotion();
      if none {
        return Nothing;
      }
      var x := Scale(AbsReal(alignFrac), xCalculated);
      lastSetAlignFrac := AbsReal(alignFrac);
      if alignFrac < 0.0 {
        x := ConstrainMotion(panelsToMove, x, w);
        xCalculated := x;
      }
      entry := Reviewed(alignFrac, x);
    }

    /** Replaces the slice of every panel by one that honours the constraints. */
    static method ConstrainMotion(panels: seq<PanelId>, scaled: Vec, w: World) returns (x: Vec)
      requires 6 * |panels| <= |scaled|
      ensures x == Constrained(w, panels, scaled, |panels|)
    {
      hide ConstrainedDelta;
      x := scaled;
      for k := 0 to |panels|
        invariant |x| == |scaled| && x == Constrained(w, panels, scaled, k)
      {
        var delta := ConstrainPanel(panels[k], scaled, k, w);
        x := x[..6 * k] + delta + scaled[6 * (k + 1)..];
      }
    }

    static method ConstrainPanel(panel: PanelId, x: Vec, k: nat, w: World) returns (delta: Six)
      requires 6 * k + 6 <= |x|
      ensures delta == ConstrainedDelta(w, panel, Slice(x, k))
    {
      var current := w.lengths(panel);
      var target := AddEach(current, x, k);
      var currentCoords := w.forward(current);
      var targetCoords := w.forward(target);
      if panel in w.tzFixed {
        targetCoords := targetCoords.(tz := currentCoords.tz);
      }
      if panel in w.rxRyFixed {
        targetCoords := targetCoords.(rx := currentCoords.rx, ry := currentCoords.ry);
      }
      delta := Sub(w.inverse(targetCoords), current);
    }

    /** Whether every entry of the stored motion is exactly zero. */
    method NoMotion() returns (none: bool)
      ensures none <==> IsZero(xCalculated)
    {
      for i := 0 to |xCalculated|
        invariant forall j :: 0 <= j < i ==> xCalculated[j] == 0.0
      {
        if xCalculated[i] != 0.0 {
          return false;
        }
      }
      none := true;
    }

    static method AddEach(current: Six, x: Vec, k: nat) returns (target: Six)
      requires 6 * k + 6 <= |x|
      ensures target == Add(current, Slice(x, k))
    {
      var t: seq<real> := [];
      for i := 0 to 6
        invariant |t| == i && forall a :: 0 <= a < i ==> t[a] == current[a] + x[6 * k + a]
      {
        t := t + [current[i] + x[6 * k + i]];
      }
      target := t;
    }

    /** Sends the stored motion, scaled by `alignFrac`, to the panels; forgets the plan, the tag and the
        fraction unless some panel refused. */
    method MoveSelectedPanels(m: Method, alignFrac: real, d: Dispatch) returns (entry: Label)
      requires NoDuplicates(panelsToMove) && Covers(d.order, |panelsToMove|) && 0.0 < alignFrac <= 1.01
      modifies this
      ensures (Fields().(state := On), entry) == ExecuteStep(old(Fields()), m, alignFrac, d)
      ensures NoDuplicates(panelsToMove)
    {
      var none := NoMotion();
      if none || previousCalculatedMethod != Some(m) {
        return Nothing;
      } else if lastSetAlignFrac < 0.0 {
        return Nothing;
      } else if AbsReal(alignFrac - lastSetAlignFrac) > FLT_EPSILON {
        return Nothing;
      } else if |panelsToMove| * 6 != |xCalculated| {
        return Nothing;
      }
      var x := Scale(alignFrac, xCalculated);
      var args := CollectArguments(panelsToMove, x);
      var sent, refused, stopped := SendArguments(panelsToMove, x, args, d);
      if refused {
        return Moved(m, alignFrac, x, sent, false);
      }
      if stopped {
        state := Off;
      }
      entry := Moved(m, alignFrac, x, sent, true);
      xCalculated := Zeros(|xCalculated|);
      panelsToMove := [];
      previousCalculatedMethod := None;
      lastSetAlignFrac := -1.0;
    }

    /** Goes through the panel map, until a panel refuses or a stop comes in. */
    static method SendArguments(panels: seq<PanelId>, x: Vec, args: map<PanelId, Six>, d: Dispatch)
      returns (sent: seq<MotionCommand>, refused: bool, stopped: bool)
      requires |x| == 6 * |panels| && Covers(d.order, |panels|)
      requires forall k :: 0 <= k < |panels| ==> panels[k] in args && args[panels[k]] == Slice(x, k)
      ensures sent == Sent(panels, x, d, 0) && refused == Failed(d, 0) && stopped == Stopped(d, 0)
    {
      hide Sent, Failed, Stopped, Slice, NoDuplicates;
      sent, refused, stopped := [], false, false;
      var i := 0;
      while i < |d.order|
        invariant i <= |d.order|
        invariant Sent(panels, x, d, 0) == sent + Sent(panels, x, d, i)
        invariant Failed(d, i) == Failed(d, 0) && Stopped(d, i) == Stopped(d, 0)
      {
        var k := d.order[i];
        SendOne(panels, x, d, i);
        ghost var later := Sent(panels, x, d, i + 1);
        ghost var before := sent;
        sent := sent + [MotionCommand(panels[k], args[panels[k]])];
        assert before + ([MotionCommand(panels[k], args[panels[k]])] + later) == sent + later;
        if d.replies(k) == Rejected {
          return sent, true, stopped;
        }
        if d.replies(k) == AcceptedThenStopped {
          return sent, refused, true;
        }
        i := i + 1;
      }
      SendNone(panels, x, d);
    }

    static lemma SendOne(panels: seq<PanelId>, x: Vec, d: Dispatch, i: nat)
      requires |x| == 6 * |panels| && Covers(d.order, |panels|) && i < |d.order|
      ensures var k := d.order[i];
              var command := MotionCommand(panels[k], Slice(x, k));
              && Sent(panels, x, d, i) == (if d.replies(k) == Accepted then [command] + Sent(panels, x, d, i + 1) else [command])
              && Failed(d, i) == (d.replies(k) == Rejected || (d.replies(k) == Accepted && Failed(d, i + 1)))
              && Stopped(d, i) == (d.replies(k) == AcceptedThenStopped || (d.replies(k) == Accepted && Stopped(d, i + 1)))
    {
    }

    static lemma SendNone(panels: seq<PanelId>, x: Vec, d: Dispatch)
      requires |x| == 6 * |panels| && Covers(d.order, |panels|)
      ensures Sent(panels, x, d, |d.order|) == [] && !Failed(d, |d.order|) && !Stopped(d, |d.order|)
    {
    }

    /** The deltas of every panel: six consecutive entries of the motion each, taken with one running
        index. */
    static method CollectArguments(panels: seq<PanelId>, x: Vec) returns (args: map<PanelId, Six>)
      requires NoDuplicates(panels) && |x| == 6 * |panels|
      ensures forall k :: 0 <= k < |panels| ==> panels[k] in args && args[panels[k]] == Slice(x, k)
    {
      args := map[];
      var j := 0;
      for p := 0 to |panels|
        invariant j == 6 * p
        invariant forall k :: 0 <= k < p ==> panels[k] in args && args[panels[k]] == Slice(x, k)
      {
        var deltas: seq<real> := [];
        for i := 0 to 6
          invariant j == 6 * p + i && deltas == x[6 * p..j]
        {
          deltas := deltas + [x[j]];
          j := j + 1;
        }
        args := args[panels[p] := deltas];
      }
    }

    /** Stops everything: the only call a busy mirror accepts. */
    method StopAll()
      modifies `state
      ensures Fields() == Step(old(Fields()), Event.Stop).0
    {
      state := Off;
    }

    /** Reports the state, and becomes busy if a child sensor is. */
    method GetState(sensorBusy: bool) returns (s: DeviceState)
      modifies `state
      ensures Fields() == Step(old(Fields()), PollState(sensorBusy)).0 && s == state
    {
      if sensorBusy {
        state := Busy;
      }
      s := state;
    }
  }
}
