/** Reading the selected sensors of a mirror in parallel: one read per panel at a time, started in
    rounds over the panels until every queue is empty, then a wait for the last reads. */
module ParallelRead {
  import opened Basics
  import opened SectorSystem

  /** The selected ones of a list of sensors, in order. */
  function Select(sensors: seq<SensorId>, selected: set<SensorId>): (s: seq<SensorId>)
    ensures forall m :: m in s <==> m in sensors && m in selected
    ensures NoDuplicates(sensors) ==> NoDuplicates(s)
    ensures |s| <= |sensors|
  {
    if sensors == [] then [] else
    var n := |sensors| - 1;
    var s := Select(sensors[..n], selected);
    assert sensors == sensors[..n] + [sensors[n]];
    if sensors[n] in selected then s + [sensors[n]] else s
  }

  lemma SelectNone(selected: set<SensorId>)
    ensures Select([], selected) == []
  {
  }

  lemma SelectNext(sensors: seq<SensorId>, k: nat, selected: set<SensorId>)
    requires k < |sensors|
    ensures Select(sensors[..k + 1], selected)
            == if sensors[k] in selected then Select(sensors[..k], selected) + [sensors[k]] else Select(sensors[..k], selected)
  {
    assert sensors[..k + 1][..k] == sensors[..k];
  }

  function SumLengths(queues: seq<seq<SensorId>>): nat {
    if queues == [] then 0 else |queues[0]| + SumLengths(queues[1..])
  }

  lemma {:induction false} SumAfterPop(queues: seq<seq<SensorId>>, i: nat)
    requires i < |queues| && queues[i] != []
    ensures SumLengths(queues) == SumLengths(queues[i := queues[i][..|queues[i]| - 1]]) + 1
  {
    var shorter := queues[i := queues[i][..|queues[i]| - 1]];
    if i == 0 {
      assert shorter[1..] == queues[1..];
    } else {
      assert shorter[1..] == queues[1..][i - 1 := queues[i][..|queues[i]| - 1]];
      SumAfterPop(queues[1..], i - 1);
    }
  }

  lemma {:induction false} SumAfterAppend(queues: seq<seq<SensorId>>, q: seq<SensorId>)
    ensures SumLengths(queues + [q]) == SumLengths(queues) + |q|
  {
    if queues != [] {
      assert (queues + [q])[1..] == queues[1..] + [q];
      SumAfterAppend(queues[1..], q);
    } else {
      assert queues + [q] == [q];
    }
  }

  lemma {:induction false} SomeQueueIsLong(queues: seq<seq<SensorId>>)
    ensures SumLengths(queues) > 0 <==> exists i :: 0 <= i < |queues| && queues[i] != []
  {
    if queues != [] {
      SomeQueueIsLong(queues[1..]);
      if queues[0] == [] && SumLengths(queues[1..]) > 0 {
        var i :| 0 <= i < |queues[1..]| && queues[1..][i] != [];
        assert queues[i + 1] != [];
      }
      if i :| 0 <= i < |queues| && queues[i] != [] {
        assert i > 0 ==> queues[1..][i - 1] != [];
      }
    }
  }

  /** No sensor is attached twice; the configuration refuses a sensor with two parent panels. */
  ghost predicate Disjoint(panels: seq<seq<SensorId>>) {
    && (forall i :: 0 <= i < |panels| ==> NoDuplicates(panels[i]))
    && forall i, j, m :: 0 <= i < |panels| && 0 <= j < |panels| && m in panels[i] && m in panels[j] ==> i == j
  }

  predicate IsBusy(until: map<SensorId, nat>, clock: nat, m: SensorId) {
    m in until && clock < until[m]
  }

  /** When a read started and when it was over. */
  datatype Span = Span(from: nat, to: nat)

  /** Of two reads on one panel, the later starts after the earlier is over. */
  ghost predicate NeverTwoOnAPanel(panels: seq<seq<SensorId>>, started: seq<SensorId>, spans: seq<Span>)
    requires |spans| == |started|
  {
    forall i, a, b :: 0 <= i < |panels| && 0 <= a < b < |started| && started[a] in panels[i] && started[b] in panels[i] ==>
      spans[a].to <= spans[b].from
  }

  /** The reads so far: one at a time on each panel, each over when its sensor becomes idle. */
  ghost predicate Timed(panels: seq<seq<SensorId>>, until: map<SensorId, nat>, started: seq<SensorId>, spans: seq<Span>) {
    && |spans| == |started| && NeverTwoOnAPanel(panels, started, spans)
    && forall a :: 0 <= a < |started| ==> started[a] in until && until[started[a]] == spans[a].to
  }

  lemma IdlePanelStarts(panels: seq<seq<SensorId>>, until: map<SensorId, nat>, clock: nat, started: seq<SensorId>,
                        spans: seq<Span>, i: nat, m: SensorId, end: nat)
    requires Disjoint(panels) && Timed(panels, until, started, spans) && m !in started
    requires i < |panels| && m in panels[i] && forall k :: k in panels[i] ==> !IsBusy(until, clock, k)
    ensures Timed(panels, until[m := end], started + [m], spans + [Span(clock, end)])
  {
    var n := |started|;
    var now, times := started + [m], spans + [Span(clock, end)];
    forall j, a, b | 0 <= j < |panels| && 0 <= a < b < |now| && now[a] in panels[j] && now[b] in panels[j]
      ensures times[a].to <= times[b].from
    {
      assert a < n && now[a] == started[a] && times[a] == spans[a];
      if b == n {
        assert j == i;
        assert !IsBusy(until, clock, started[a]);
      } else {
        assert now[b] == started[b] && times[b] == spans[b];
      }
    }
    assert forall a :: 0 <= a < n ==> started[a] in started;
  }

  ghost predicate StartedOn(panels: seq<seq<SensorId>>, queues: seq<seq<SensorId>>, selected: set<SensorId>, i: int, m: SensorId)
    requires |queues| == |panels|
  {
    0 <= i < |panels| && m in Select(panels[i], selected) && m !in queues[i]
  }

  /** The queues hold what has not been started of the selected sensors of each panel. */
  ghost predicate Pending(panels: seq<seq<SensorId>>, queues: seq<seq<SensorId>>, selected: set<SensorId>, started: seq<SensorId>) {
    && |queues| == |panels|
    && (forall i :: 0 <= i < |panels| ==> queues[i] <= Select(panels[i], selected))
    && NoDuplicates(started)
    && (forall m :: m in started <==> exists i :: StartedOn(panels, queues, selected, i, m))
  }

  lemma NextIsNew(panels: seq<seq<SensorId>>, queues: seq<seq<SensorId>>, selected: set<SensorId>, started: seq<SensorId>, i: nat)
    requires Disjoint(panels) && Pending(panels, queues, selected, started)
    requires i < |queues| && queues[i] != []
    ensures var m := queues[i][|queues[i]| - 1]; m in panels[i] && m !in started && m !in queues[i][..|queues[i]| - 1]
  {
    var n := |queues[i]| - 1;
    var m := queues[i][n];
    var all := Select(panels[i], selected);
    assert all[n] == m && forall k :: 0 <= k < n ==> all[k] == queues[i][k];
    assert !exists j :: StartedOn(panels, queues, selected, j, m);
  }

  /** Starting the last of a queue adds it, and nothing else, to what has been started. */
  lemma PopStarts(panels: seq<seq<SensorId>>, queues: seq<seq<SensorId>>, selected: set<SensorId>, started: seq<SensorId>, i: nat)
    requires Disjoint(panels) && Pending(panels, queues, selected, started)
    requires i < |queues| && queues[i] != []
    ensures var n := |queues[i]| - 1;
            Pending(panels, queues[i := queues[i][..n]], selected, started + [queues[i][n]])
  {
    var n := |queues[i]| - 1;
    var m := queues[i][n];
    var shorter := queues[i := queues[i][..n]];
    NextIsNew(panels, queues, selected, started, i);
    assert queues[i] == shorter[i] + [m];
    forall k ensures k in started + [m] <==> exists j :: StartedOn(panels, shorter, selected, j, k) {
      if k == m {
        assert queues[i] <= Select(panels[i], selected);
        assert m == Select(panels[i], selected)[n];
        assert StartedOn(panels, shorter, selected, i, m);
      } else {
        assert forall j :: StartedOn(panels, shorter, selected, j, k) <==> StartedOn(panels, queues, selected, j, k);
      }
    }
  }

  class Readout {
    /** Sensors attached to each panel, in the order in which the map of panels is traversed. */
    const panels: seq<seq<SensorId>>
    /** Sensors of the mirror. */
    const sensors: seq<SensorId>
    /** How long a read that starts at a given time keeps its sensor busy. */
    const duration: nat -> nat

    /** Sensors of each panel still to be read; the last is next. */
    var queues: seq<seq<SensorId>>
    var total: nat

    /** Time, counted in polls, and when each sensor becomes idle again. */
    var clock: nat
    var until: map<SensorId, nat>

    /** Reads started so far, and a time by which all of them are over. */
    ghost var started: seq<SensorId>
    ghost var spans: seq<Span>
    ghost var horizon: nat

    constructor (panels: seq<seq<SensorId>>, sensors: seq<SensorId>, duration: nat -> nat, until: map<SensorId, nat>, horizon: nat)
      requires Disjoint(panels)
      requires forall m :: m in until ==> until[m] <= horizon
      ensures this.panels == panels && this.sensors == sensors && this.duration == duration
      ensures queues == [] && total == 0 && started == [] && spans == [] && this.until == until && clock == 0 && Clocked()
    {
      this.panels, this.sensors, this.duration := panels, sensors, duration;
      this.queues, this.total, this.clock, this.until := [], 0, 0, until;
      this.started, this.spans, this.horizon := [], [], horizon;
    }

    predicate Busy(m: SensorId)
      reads this
    {
      IsBusy(until, clock, m)
    }

    ghost predicate Clocked()
      reads this
    {
      && Disjoint(panels)
      && forall m :: m in until ==> until[m] <= horizon
    }

    /** What every step of the reading keeps: the counter is the number of queued sensors, the queues
        hold what has not been started, and no panel ever had two of the started reads in flight. */
    ghost predicate Reading(selected: set<SensorId>)
      reads this
    {
      && Clocked()
      && |queues| == |panels| && total == SumLengths(queues)
      && Pending(panels, queues, selected, started)
      && Timed(panels, until, started, spans)
    }

    /** Reads the state of a sensor; then time passes. */
    method GetState(m: SensorId) returns (busy: bool)
      modifies this`clock
      ensures busy == old(Busy(m)) && clock == old(clock) + 1
    {
      busy := m in until && clock < until[m];
      clock := clock + 1;
    }

    method ReadAsync(m: SensorId)
      requires Clocked()
      modifies this`until, this`started, this`spans, this`horizon
      ensures Clocked() && started == old(started) + [m]
      ensures spans == old(spans) + [Span(clock, clock + duration(clock))]
      ensures until == old(until)[m := clock + duration(clock)] && horizon >= old(horizon)
    {
      until := until[m := clock + duration(clock)];
      started := started + [m];
      spans := spans + [Span(clock, until[m])];
      horizon := if horizon < until[m] then until[m] else horizon;
    }

    /** Polls the sensors of a panel, all of them. */
    method PollPanel(i: nat) returns (busy: bool)
      requires i < |panels| && Clocked()
      modifies this`clock
      ensures clock == old(clock) + |panels[i]|
      ensures !busy ==> forall m :: m in panels[i] ==> !Busy(m)
      ensures busy ==> old(clock) < horizon
    {
      busy := false;
      for k := 0 to |panels[i]|
        invariant clock == old(clock) + k
        invariant !busy ==> forall j :: 0 <= j < k ==> !Busy(panels[i][j])
        invariant busy ==> old(clock) < horizon
      {
        var b := GetState(panels[i][k]);
        if b {
          busy := true;
        }
      }
    }

    /** Starts the next read of an idle panel. */
    method StartNext(i: nat, ghost selected: set<SensorId>)
      requires i < |panels| && Reading(selected)
      requires queues[i] != [] && forall m :: m in panels[i] ==> !Busy(m)
      modifies this`until, this`started, this`spans, this`horizon, this`queues, this`total
      ensures Reading(selected) && total == old(total) - 1
    {
      hide Pending, Timed, Disjoint;
      var n := |queues[i]| - 1;
      var next := queues[i][n];
      SumAfterPop(queues, i);
      NextIsNew(panels, queues, selected, started, i);
      PopStarts(panels, queues, selected, started, i);
      IdlePanelStarts(panels, until, clock, started, spans, i, next, clock + duration(clock));
      total := total - 1;
      ReadAsync(next);
      queues := queues[i := queues[i][..n]];
    }

    method Visit(i: nat, ghost selected: set<SensorId>)
      requires i < |panels| && Reading(selected)
      modifies this`clock, this`until, this`started, this`spans, this`horizon, this`queues, this`total
      ensures Reading(selected) && clock >= old(clock)
      ensures total < old(total) || (queues == old(queues) && total == old(total) && horizon == old(horizon))
      ensures total == old(total) && old(queues[i]) != [] ==> old(clock) < clock && old(clock) < horizon
    {
      if queues[i] != [] {
        NextIsNew(panels, queues, selected, started, i);
        hide Pending, Timed, Disjoint;
        var busy := PollPanel(i);
        if !busy {
          StartNext(i, selected);
        }
      }
    }

    /** One round over the panels: it starts a read, or time passes while some read is still on. */
    method Round(ghost selected: set<SensorId>)
      requires Reading(selected) && total > 0
      modifies this`clock, this`until, this`started, this`spans, this`horizon, this`queues, this`total
      ensures Reading(selected) && total <= old(total)
      ensures total == old(total) ==> horizon == old(horizon) && old(clock) < clock && old(clock) < horizon
    {
      SomeQueueIsLong(queues);
      ghost var long :| 0 <= long < |queues| && queues[long] != [];
      hide Pending, Timed, Disjoint;
      for i := 0 to |panels|
        invariant Reading(selected) && clock >= old(clock)
        invariant total < old(total) || (queues == old(queues) && total == old(total) && horizon == old(horizon))
        invariant total == old(total) && i > long ==> old(clock) < clock && old(clock) < horizon
      {
        if total == 0 {
          break;
        }
        Visit(i, selected);
      }
    }

    /** Fills the queue of each panel with its selected sensors and counts them. */
    method BuildQueues(selected: set<SensorId>)
      requires Clocked() && started == [] && spans == []
      modifies this`queues, this`total
      ensures Reading(selected)
    {
      FillQueues(selected);
      ghost var built := queues;
      total := 0;
      for i := 0 to |queues|
        invariant queues == built && total == SumLengths(queues[..i])
      {
        assert queues[..i + 1] == queues[..i] + [queues[i]];
        SumAfterAppend(queues[..i], queues[i]);
        total := total + |queues[i]|;
      }
      assert queues[..|queues|] == queues;
    }

    method FillQueues(selected: set<SensorId>)
      modifies this`queues
      ensures queues == seq(|panels|, j requires 0 <= j < |panels| => Select(panels[j], selected))
    {
      hide Select;
      queues := [];
      for i := 0 to |panels|
        invariant queues == seq(i, j requires 0 <= j < |panels| => Select(panels[j], selected))
      {
        var queue := SelectFrom(i, selected);
        queues := queues + [queue];
      }
    }

    method SelectFrom(i: nat, selected: set<SensorId>) returns (queue: seq<SensorId>)
      requires i < |panels|
      ensures queue == Select(panels[i], selected)
    {
      hide Select;
      queue := [];
      SelectNone(selected);
      for k := 0 to |panels[i]|
        invariant queue == Select(panels[i][..k], selected)
      {
        SelectNext(panels[i], k, selected);
        if panels[i][k] in selected {
          queue := queue + [panels[i][k]];
        }
      }
      assert panels[i][..|panels[i]|] == panels[i];
    }

    /** Reads all selected sensors. Every selected sensor attached to a panel is started exactly once,
        never two on a panel at a time, and when it returns no selected sensor of the mirror is busy. */
    method ReadSensorsParallel(selected: set<SensorId>)
      requires Clocked() && started == [] && spans == []
      modifies this`clock, this`until, this`started, this`spans, this`horizon, this`queues, this`total
      ensures NoDuplicates(started)
      ensures forall m :: m in started <==> m in selected && exists i :: 0 <= i < |panels| && m in panels[i]
      ensures |spans| == |started| && NeverTwoOnAPanel(panels, started, spans)
      ensures selected != {} ==> forall m :: m in sensors && m in selected ==> !Busy(m)
    {
      if selected == {} {
        return;
      }
      BuildQueues(selected);
      while total > 0
        invariant Reading(selected)
        decreases total, horizon - clock
      {
        Round(selected);
      }
      AllStarted(panels, queues, selected, started);
      hide Pending, Timed, Disjoint;
      Wait(selected);
    }

    /** Polls the selected sensors in rounds until a whole round finds none busy. */
    method Wait(selected: set<SensorId>)
      requires Clocked()
      modifies this`clock
      ensures forall m :: m in sensors && m in selected ==> !Busy(m)
    {
      var stillReading := true;
      while stillReading
        invariant !stillReading ==> forall m :: m in sensors && m in selected ==> !Busy(m)
        decreases if stillReading then 1 else 0, horizon - clock
      {
        stillReading := WaitRound(selected);
      }
    }

    method WaitRound(selected: set<SensorId>) returns (stillReading: bool)
      requires Clocked()
      modifies this`clock
      ensures stillReading ==> old(clock) < clock && old(clock) < horizon
      ensures !stillReading ==> forall m :: m in sensors && m in selected ==> !Busy(m)
    {
      stillReading := false;
      for k := 0 to |sensors|
        invariant clock >= old(clock)
        invariant stillReading ==> old(clock) < clock && old(clock) < horizon
        invariant !stillReading ==> forall j :: 0 <= j < k && sensors[j] in selected ==> !Busy(sensors[j])
      {
        if sensors[k] in selected {
          var busy := GetState(sensors[k]);
          if busy {
            stillReading := true;
          }
        }
      }
    }
  }

  /** Once the queues are empty, the sensors started are the selected sensors of the panels. */
  lemma AllStarted(panels: seq<seq<SensorId>>, queues: seq<seq<SensorId>>, selected: set<SensorId>, started: seq<SensorId>)
    requires Pending(panels, queues, selected, started) && SumLengths(queues) == 0
    ensures forall m :: m in started <==> m in selected && exists i :: 0 <= i < |panels| && m in panels[i]
    ensures NoDuplicates(started)
  {
    SomeQueueIsLong(queues);
    forall m ensures m in started <==> m in selected && exists i :: 0 <= i < |panels| && m in panels[i] {
      if i :| 0 <= i < |panels| && m in panels[i] {
        if m in selected { assert StartedOn(panels, queues, selected, i, m); }
      }
    }
  }
}
