/** An edge and its sensors: vectors of readings without the unusable sensors, and the response
    matrix of the edge to one panel. */
module EdgeSensing {
  import opened AlignPlan
  import opened Basics
  import opened LinearAlgebra
  import opened SectorSystem

  /** One sensor of an edge, as the edge finds it. */
  datatype EdgeSensor = EdgeSensor(
    off: bool,
    fatal: bool,
    reading: Pair,
    width: Pair,
    aligned: Pair,
    side: PanelId -> Option<Side>,
    response: Side -> Response)

  /** A sensor that is off or in a fatal error state is left out of the reading vectors. */
  predicate Visible(s: EdgeSensor) { !(s.off || s.fatal) }

  function Usable(sensors: seq<EdgeSensor>): (u: seq<EdgeSensor>)
    ensures |u| <= |sensors|
    ensures forall i :: 0 <= i < |u| ==> Visible(u[i])
  {
    if sensors == [] then [] else
    var n := |sensors| - 1;
    if Visible(sensors[n]) then Usable(sensors[..n]) + [sensors[n]] else Usable(sensors[..n])
  }

  /** Two entries per sensor, in order. */
  function Pairs(sensors: seq<EdgeSensor>, value: EdgeSensor -> Pair): (v: Vec)
    ensures |v| == 2 * |sensors|
    ensures forall i :: 0 <= i < |sensors| ==> v[2 * i] == value(sensors[i])[0] && v[2 * i + 1] == value(sensors[i])[1]
  {
    if sensors == [] then [] else
    Pairs(sensors[..|sensors| - 1], value) + value(sensors[|sensors| - 1])
  }

  /** Fills a vector sized for all sensors, two entries per usable one, and cuts it to what was filled. */
  method CollectPairs(sensors: seq<EdgeSensor>, value: EdgeSensor -> Pair) returns (v: Vec)
    ensures v == Pairs(Usable(sensors), value)
  {
    var buffer := new real[2 * |sensors|];
    var visible := 0;
    for i := 0 to |sensors|
      invariant visible == |Usable(sensors[..i])|
      invariant buffer[..2 * visible] == Pairs(Usable(sensors[..i]), value)
    {
      UsableNext(sensors, i, value);
      if !Visible(sensors[i]) {
        continue;
      }
      PutPair(buffer, visible, value(sensors[i]));
      visible := visible + 1;
    }
    assert sensors[..|sensors|] == sensors;
    v := buffer[..2 * visible];
  }

  method PutPair(buffer: array<real>, k: nat, pair: Pair)
    requires 2 * k + 2 <= buffer.Length
    modifies buffer
    ensures buffer[..2 * (k + 1)] == old(buffer[..2 * k]) + pair
  {
    buffer[2 * k] := pair[0];
    buffer[2 * k + 1] := pair[1];
  }

  lemma UsableNext(sensors: seq<EdgeSensor>, i: nat, value: EdgeSensor -> Pair)
    requires i < |sensors|
    ensures Usable(sensors[..i + 1]) == if Visible(sensors[i]) then Usable(sensors[..i]) + [sensors[i]] else Usable(sensors[..i])
    ensures Pairs(Usable(sensors[..i]) + [sensors[i]], value) == Pairs(Usable(sensors[..i]), value) + value(sensors[i])
  {
    assert sensors[..i + 1][..i] == sensors[..i];
    var u := Usable(sensors[..i]);
    assert (u + [sensors[i]])[..|u|] == u;
  }

  /** The first usable sensor from `i` on at which the edge is found switched off, if there is one. */
  function ReadUpTo(sensors: seq<EdgeSensor>, off: nat -> bool, i: nat): (k: nat)
    requires i <= |sensors|
    ensures i <= k <= |sensors|
    ensures forall j :: i <= j < k && Visible(sensors[j]) ==> !off(j)
    ensures k < |sensors| ==> Visible(sensors[k]) && off(k)
    decreases |sensors| - i
  {
    if i == |sensors| || (Visible(sensors[i]) && off(i)) then i else ReadUpTo(sensors, off, i + 1)
  }

  /** Reads positions and spot widths of the usable sensors, until a stop. The two buffers are sized for
      all sensors and cut to what was filled. */
  method GetCurrentReadings(sensors: seq<EdgeSensor>, off: nat -> bool) returns (readings: Vec, widths: Vec)
    ensures var read := Usable(sensors[..ReadUpTo(sensors, off, 0)]);
            && readings == Pairs(read, (s: EdgeSensor) => s.reading)
            && widths == Pairs(read, (s: EdgeSensor) => s.width)
  {
    hide Usable, Pairs;
    var current, spots := new real[2 * |sensors|], new real[2 * |sensors|];
    var visible := 0;
    var i := 0;
    NothingUsable((s: EdgeSensor) => s.reading);
    NothingUsable((s: EdgeSensor) => s.width);
    assert sensors[..0] == [];
    while i < |sensors|
      invariant i <= |sensors| && ReadUpTo(sensors, off, i) == ReadUpTo(sensors, off, 0)
      invariant visible == |Usable(sensors[..i])| <= i
      invariant current[..2 * visible] == Pairs(Usable(sensors[..i]), (s: EdgeSensor) => s.reading)
      invariant spots[..2 * visible] == Pairs(Usable(sensors[..i]), (s: EdgeSensor) => s.width)
    {
      UsableNext(sensors, i, (s: EdgeSensor) => s.reading);
      UsableNext(sensors, i, (s: EdgeSensor) => s.width);
      hide Visible;
      if !Visible(sensors[i]) {
        i := i + 1;
        continue;
      }
      if off(i) {
        break;
      }
      PutReading(current, spots, visible, sensors[i]);
      visible := visible + 1;
      i := i + 1;
    }
    readings, widths := current[..2 * visible], spots[..2 * visible];
  }

  method PutReading(current: array<real>, spots: array<real>, k: nat, s: EdgeSensor)
    requires current != spots && 2 * k + 2 <= current.Length && 2 * k + 2 <= spots.Length
    modifies current, spots
    ensures current[..2 * (k + 1)] == old(current[..2 * k]) + s.reading
    ensures spots[..2 * (k + 1)] == old(spots[..2 * k]) + s.width
  {
    PutPair(current, k, s.reading);
    PutPair(spots, k, s.width);
  }

  lemma NothingUsable(value: EdgeSensor -> Pair)
    ensures Usable([]) == [] && Pairs([], value) == []
  {
  }

  method GetAlignedReadings(sensors: seq<EdgeSensor>) returns (v: Vec)
    ensures v == Pairs(Usable(sensors), (s: EdgeSensor) => s.aligned)
  {
    v := CollectPairs(sensors, (s: EdgeSensor) => s.aligned);
  }

  /** Leaving out the unusable sensors keeps each target with its own reading: the misalignment of the
      edge is, pair by pair, that of one usable sensor. */
  lemma MisalignmentPairsSensors(sensors: seq<EdgeSensor>, i: nat)
    requires i < |Usable(sensors)|
    ensures var aligned := Pairs(Usable(sensors), (s: EdgeSensor) => s.aligned);
            var current := Pairs(Usable(sensors), (s: EdgeSensor) => s.reading);
            var s := Usable(sensors)[i];
            && |aligned| == |current|
            && Sub(aligned, current)[2 * i..2 * i + 2] == Sub(s.aligned, s.reading)
  {
    hide Usable;
  }

  lemma {:induction false} MoreUsable(sensors: seq<EdgeSensor>, k: nat)
    requires k <= |sensors|
    ensures |Usable(sensors[..k])| <= |Usable(sensors)|
    ensures k < |sensors| && Visible(sensors[k]) ==> |Usable(sensors[..k])| < |Usable(sensors)|
  {
    if k == |sensors| {
      assert sensors[..k] == sensors;
    } else {
      var n := |sensors| - 1;
      MoreUsable(sensors[..n], k);
      assert sensors[..n][..k] == sensors[..k];
    }
  }

  /** A stop that cuts the readings short leaves them shorter than the targets, so that their difference
      does not exist; it is complete exactly when no usable sensor found the edge switched off. */
  lemma StopShortensReadings(sensors: seq<EdgeSensor>, off: nat -> bool, value: EdgeSensor -> Pair)
    ensures |Pairs(Usable(sensors[..ReadUpTo(sensors, off, 0)]), value)| == |Pairs(Usable(sensors), value)|
            <==> forall i :: 0 <= i < |sensors| && Visible(sensors[i]) ==> !off(i)
  {
    var k := ReadUpTo(sensors, off, 0);
    MoreUsable(sensors, k);
    if k == |sensors| { assert sensors[..k] == sensors; }
  }

  function NoRows(): Response {
    seq(2, (r: nat) => Zeros(6))
  }

  function PanelResponse(s: EdgeSensor, panel: PanelId): Response {
    match s.side(panel)
    case Some(side) => s.response(side)
    case None => NoRows()
  }

  /** The response matrix of an edge: two rows for every sensor of it, usable or not. */
  function EdgeResponse(sensors: seq<EdgeSensor>, panel: PanelId): (m: seq<Vec>)
    ensures IsMatrix(m, 2 * |sensors|, 6)
    ensures forall i :: 0 <= i < |sensors| ==>
              m[2 * i] == PanelResponse(sensors[i], panel)[0] && m[2 * i + 1] == PanelResponse(sensors[i], panel)[1]
  {
    if sensors == [] then [] else
    EdgeResponse(sensors[..|sensors| - 1], panel) + PanelResponse(sensors[|sensors| - 1], panel)
  }

  method GetResponseMatrix(sensors: seq<EdgeSensor>, panel: PanelId) returns (m: seq<Vec>)
    ensures m == EdgeResponse(sensors, panel)
  {
    m := [];
    for i := 0 to |sensors|
      invariant m == EdgeResponse(sensors[..i], panel)
    {
      assert sensors[..i + 1][..i] == sensors[..i];
      var panelside := sensors[i].side(panel);
      if panelside.Some? {
        m := m + sensors[i].response(panelside.value);
      } else {
        m := m + NoRows();
      }
    }
    assert sensors[..|sensors|] == sensors;
  }

  lemma {:induction false} AllUsable(sensors: seq<EdgeSensor>)
    ensures Usable(sensors) == sensors <==> forall i :: 0 <= i < |sensors| ==> Visible(sensors[i])
    ensures |Usable(sensors)| == |sensors| <==> Usable(sensors) == sensors
  {
    if sensors != [] {
      var n := |sensors| - 1;
      AllUsable(sensors[..n]);
      assert sensors == sensors[..n] + [sensors[n]];
    }
  }

  /** The readings drop unusable sensors but the response matrix does not: its rows line up with the
      readings exactly when every sensor of the edge is usable. */
  lemma ResponseMatchesReadings(sensors: seq<EdgeSensor>, panel: PanelId, value: EdgeSensor -> Pair)
    ensures |EdgeResponse(sensors, panel)| == |Pairs(Usable(sensors), value)|
            <==> forall i :: 0 <= i < |sensors| ==> Visible(sensors[i])
  {
    AllUsable(sensors);
  }

  /* ---------- vectors and matrices entry by entry ---------- */

  /** The places below `n` of sensors that are neither off nor in a fatal error state. */
  function WorkingBelow(sensors: seq<EdgeSensor>, n: nat): set<nat>
    requires n <= |sensors|
  {
    set i | 0 <= i < n && !sensors[i].off && !sensors[i].fatal
  }

  lemma WorkingNext(sensors: seq<EdgeSensor>, n: nat)
    requires n < |sensors|
    ensures WorkingBelow(sensors, n + 1) ==
            if Visible(sensors[n]) then WorkingBelow(sensors[..n], n) + {n} else WorkingBelow(sensors[..n], n)
    ensures n !in WorkingBelow(sensors[..n], n)
  {
  }

  lemma {:induction false} UsableCount(sensors: seq<EdgeSensor>)
    ensures |Usable(sensors)| == |WorkingBelow(sensors, |sensors|)|
  {
    if sensors == [] {
      assert WorkingBelow(sensors, 0) == {};
    } else {
      var n := |sensors| - 1;
      UsableCount(sensors[..n]);
      WorkingNext(sensors, n);
      hide WorkingBelow, Visible;
    }
  }

  lemma {:induction false} UsablePlace(sensors: seq<EdgeSensor>, k: nat)
    requires k < |sensors| && !sensors[k].off && !sensors[k].fatal
    ensures |Usable(sensors[..k])| < |Usable(sensors)| && Usable(sensors)[|Usable(sensors[..k])|] == sensors[k]
  {
    var n := |sensors| - 1;
    if k < n {
      UsablePlace(sensors[..n], k);
      assert sensors[..n][..k] == sensors[..k];
    }
  }

  /** The values of a working sensor stand in a vector of the edge behind those of the working sensors before
      it, two for each. */
  lemma ValuesOfSensor(sensors: seq<EdgeSensor>, value: EdgeSensor -> Pair, k: nat, r: nat)
    requires k < |sensors| && !sensors[k].off && !sensors[k].fatal && r < 2
    ensures var v := Pairs(Usable(sensors), value);
            && |v| == 2 * |WorkingBelow(sensors, |sensors|)|
            && 2 * |WorkingBelow(sensors, k)| + r < |v|
            && v[2 * |WorkingBelow(sensors, k)| + r] == value(sensors[k])[r]
  {
    SameBelow(sensors, k);
    hide Usable, Pairs, WorkingBelow;
    UsablePlace(sensors, k);
    UsableCount(sensors);
    UsableCount(sensors[..k]);
  }

  lemma SameBelow(sensors: seq<EdgeSensor>, k: nat)
    requires k <= |sensors|
    ensures WorkingBelow(sensors[..k], k) == WorkingBelow(sensors, k)
  {
  }

  /** Row `r` of a sensor holds the response of the side the panel is on, and zeros if it is on neither. */
  lemma ResponseEntry(sensors: seq<EdgeSensor>, panel: PanelId, k: nat, r: nat, i: nat)
    requires k < |sensors| && r < 2 && i < 6
    ensures EdgeResponse(sensors, panel)[2 * k + r][i] ==
            match sensors[k].side(panel)
            case Some(side) => sensors[k].response(side)[r][i]
            case None => 0.0
  {
  }
}
