/** Aligning the selected panels to the selected sensors: which sensors take part, the linear
    system, and what the plan made from its solution does to the readings when it is sent. */
module SectorSystem {
  import opened AlignPlan
  import opened Basics
  import opened LinearAlgebra
  import opened Traversals

  /** A sensor controller. */
  type SensorId = nat

  datatype Side = Webcam | Laser

  /** Response of one sensor, two readings, to the six actuators of a panel. */
  type Response = m: seq<Vec> | IsMatrix(m, 2, 6)
    witness seq(2, _ => seq(6, _ => 0.0))

  type Pair = v: Vec | |v| == 2 witness [0.0, 0.0]

  /** What the mirror knows of its panels and sensors, and the least-squares solver, which may fail. */
  datatype Sector = Sector(
    isTable: PanelId -> bool,                      // the optical table sits in ring 0
    children: PanelId -> seq<SensorId>,            // sensors attached to a panel
    bySerial: int -> SensorId,
    visible: SensorId -> bool,
    side: (SensorId, PanelId) -> Option<Side>,     // which side of the sensor a panel is on, if any
    response: (SensorId, Side) -> Response,
    current: SensorId -> Pair,
    aligned: SensorId -> Pair,
    systematic: SensorId -> Pair,
    optics: SensorId -> Pair,
    solve: (seq<seq<Response>>, nat, Vec) -> Option<Vec>)   // rows of blocks, columns, right-hand side

  /* ---------- panels and sensors that take part ---------- */

  function PanelsToMove(w: Sector, selected: seq<PanelId>): (panels: seq<PanelId>)
    ensures NoDuplicates(selected) ==> NoDuplicates(panels)
    ensures forall p :: p in panels <==> p in selected && !w.isTable(p)
  {
    if selected == [] then [] else
    var n := |selected| - 1;
    var panels := PanelsToMove(w, selected[..n]);
    assert selected == selected[..n] + [selected[n]];
    if w.isTable(selected[n]) then panels else panels + [selected[n]]
  }

  /** Number of the listed panels that sensor `m` touches. */
  function Touched(w: Sector, panels: seq<PanelId>, m: SensorId): nat {
    if panels == [] then 0 else
    Touched(w, panels[..|panels| - 1], m) + if w.side(m, panels[|panels| - 1]).Some? then 1 else 0
  }

  /** A sensor attached to one of the panels and lying between two of them. */
  ghost predicate Internal(w: Sector, panels: seq<PanelId>, m: SensorId) {
    Touched(w, panels, m) == 2 && Attached(w, panels, m)
  }

  ghost predicate Chosen(w: Sector, serials: seq<int>, m: SensorId) {
    w.visible(m) && exists s :: s in serials && m == w.bySerial(s)
  }

  /** The sensors to fit: the visible ones the user selected; and if none of those is internal, the
      visible internal ones as well. */
  ghost predicate Fits(w: Sector, panels: seq<PanelId>, serials: seq<int>, m: SensorId) {
    || Chosen(w, serials, m)
    || (w.visible(m) && Internal(w, panels, m) && forall c :: Chosen(w, serials, c) ==> !Internal(w, panels, c))
  }

  method ChooseSensors(w: Sector, serials: seq<int>) returns (sensors: seq<SensorId>)
    requires NoDuplicates(serials)
    requires forall s, t :: s in serials && t in serials && w.bySerial(s) == w.bySerial(t) ==> s == t
    ensures NoDuplicates(sensors)
    ensures forall m :: m in sensors <==> Chosen(w, serials, m)
  {
    sensors := [];
    for i := 0 to |serials|
      invariant NoDuplicates(sensors)
      invariant forall m :: m in sensors <==> Chosen(w, serials[..i], m)
    {
      ChosenNext(w, serials, i);
      var mpes := w.bySerial(serials[i]);
      if w.visible(mpes) {
        NotYetChosen(w, serials, i);
        sensors := sensors + [mpes];
      }
    }
    assert serials[..|serials|] == serials;
  }

  lemma ChosenNext(w: Sector, serials: seq<int>, i: nat)
    requires i < |serials|
    ensures forall m :: Chosen(w, serials[..i + 1], m) <==>
                        Chosen(w, serials[..i], m) || (w.visible(m) && m == w.bySerial(serials[i]))
  {
    var upTo, next, last := serials[..i], serials[..i + 1], serials[i];
    assert next == upTo + [last] && last in next;
    forall m
      ensures Chosen(w, next, m) <==> Chosen(w, upTo, m) || (w.visible(m) && m == w.bySerial(serials[i]))
    {
      if Chosen(w, next, m) {
        var s :| s in next && m == w.bySerial(s);
        assert s in upTo || s == serials[i];
      }
      if Chosen(w, upTo, m) {
        var s :| s in upTo && m == w.bySerial(s);
        assert s in next;
      }
    }
  }

  lemma NotYetChosen(w: Sector, serials: seq<int>, i: nat)
    requires i < |serials| && NoDuplicates(serials)
    requires forall s, t :: s in serials && t in serials && w.bySerial(s) == w.bySerial(t) ==> s == t
    ensures !Chosen(w, serials[..i], w.bySerial(serials[i]))
  {
    forall s | s in serials[..i]
      ensures w.bySerial(s) != w.bySerial(serials[i])
    {
      assert s in serials && serials[i] in serials && s != serials[i];
    }
  }

  method CountTouched(w: Sector, panels: seq<PanelId>, m: SensorId) returns (overlap: nat)
    ensures overlap == Touched(w, panels, m)
  {
    overlap := 0;
    for i := 0 to |panels|
      invariant overlap == Touched(w, panels[..i], m)
    {
      assert panels[..i + 1][..i] == panels[..i];
      if w.side(m, panels[i]).Some? {
        overlap := overlap + 1;
      }
    }
    assert panels[..|panels|] == panels;
  }

  /** The internal sensors, and whether the user selected one of them. */
  method FindInternal(w: Sector, panels: seq<PanelId>, sensors: seq<SensorId>)
    returns (overlap: set<SensorId>, userOverlap: bool)
    ensures forall m :: m in overlap <==> Internal(w, panels, m)
    ensures userOverlap <==> exists m :: m in sensors && m in overlap
  {
    overlap, userOverlap := {}, false;
    for i := 0 to |panels|
      invariant forall m :: m in overlap <==> Touched(w, panels, m) == 2 && Attached(w, panels[..i], m)
      invariant userOverlap <==> exists m :: m in sensors && m in overlap
    {
      overlap, userOverlap := AddInternal(w, panels, i, sensors, overlap, userOverlap);
    }
    assert panels[..|panels|] == panels;
  }

  ghost predicate Attached(w: Sector, panels: seq<PanelId>, m: SensorId) {
    exists p :: p in panels && m in w.children(p)
  }

  lemma AttachedNext(w: Sector, panels: seq<PanelId>, i: nat)
    requires i < |panels|
    ensures forall m :: Attached(w, panels[..i + 1], m) <==> Attached(w, panels[..i], m) || m in w.children(panels[i])
  {
    assert panels[..i + 1] == panels[..i] + [panels[i]];
    forall m | m in w.children(panels[i]) ensures Attached(w, panels[..i + 1], m) {
      assert panels[i] in panels[..i + 1];
    }
  }

  /** Adds the internal sensors attached to panel `i`. */
  method AddInternal(w: Sector, panels: seq<PanelId>, i: nat, sensors: seq<SensorId>,
                     overlap0: set<SensorId>, userOverlap0: bool)
    returns (overlap: set<SensorId>, userOverlap: bool)
    requires i < |panels|
    requires forall m :: m in overlap0 <==> Touched(w, panels, m) == 2 && Attached(w, panels[..i], m)
    requires userOverlap0 <==> exists m :: m in sensors && m in overlap0
    ensures forall m :: m in overlap <==> Touched(w, panels, m) == 2 && Attached(w, panels[..i + 1], m)
    ensures userOverlap <==> exists m :: m in sensors && m in overlap
  {
    AttachedNext(w, panels, i);
    hide Attached, Touched;
    overlap, userOverlap := overlap0, userOverlap0;
    var attached := w.children(panels[i]);
    for c := 0 to |attached|
      invariant forall m :: m in overlap <==> m in overlap0 || (m in attached[..c] && Touched(w, panels, m) == 2)
      invariant userOverlap <==> exists m :: m in sensors && m in overlap
    {
      var mpes := attached[c];
      assert attached[..c + 1] == attached[..c] + [mpes];
      var count := CountTouched(w, panels, mpes);
      if count == 2 && mpes !in overlap {
        overlap := overlap + {mpes};
        if mpes in sensors {
          userOverlap := true;
        }
      }
    }
    assert attached[..|attached|] == attached;
  }

  /** The list of sensors to fit names each of them once. */
  method SensorsToFit(w: Sector, panels: seq<PanelId>, serials: seq<int>) returns (sensors: seq<SensorId>)
    requires NoDuplicates(serials)
    requires forall s, t :: s in serials && t in serials && w.bySerial(s) == w.bySerial(t) ==> s == t
    ensures NoDuplicates(sensors)
    ensures forall m :: m in sensors <==> Fits(w, panels, serials, m)
  {
    sensors := ChooseSensors(w, serials);
    ghost var chosen := sensors;
    var overlap, userOverlap := FindInternal(w, panels, sensors);
    if !userOverlap && overlap != {} {
      var rest := overlap;
      while rest != {}
        invariant rest <= overlap && NoDuplicates(sensors)
        invariant forall m :: m in sensors <==> m in chosen || (m in overlap && m !in rest && w.visible(m))
        decreases rest
      {
        var mpes :| mpes in rest;
        rest := rest - {mpes};
        if w.visible(mpes) {
          sensors := sensors + [mpes];
        }
      }
    }
  }

  /* ---------- the system ---------- */

  function Nothing2x6(): Response {
    seq(2, (r: nat) => Zeros(6))
  }

  function SensorBlock(w: Sector, m: SensorId, p: PanelId): Response {
    match w.side(m, p)
    case Some(side) => w.response(m, side)
    case None => Nothing2x6()
  }

  function SectorMatrix(w: Sector, sensors: seq<SensorId>, panels: seq<PanelId>): seq<seq<Response>> {
    seq(|sensors|, (m: nat) requires m < |sensors| =>
      seq(|panels|, (p: nat) requires p < |panels| => SensorBlock(w, sensors[m], panels[p])))
  }

  /** What the motion does to reading `r` of sensor `m`: for each of the first `n` panels the sensor
      touches, the response of that side times the panel's own six entries. */
  function ReadingChange(w: Sector, panels: seq<PanelId>, x: Vec, m: SensorId, r: nat, n: nat): real
    requires |x| == 6 * |panels| && r < 2 && n <= |panels|
  {
    if n == 0 then 0.0 else
    ReadingChange(w, panels, x, m, r, n - 1) + PanelEffect(w, m, r, panels[n - 1], Slice(x, n - 1))
  }

  function PanelEffect(w: Sector, m: SensorId, r: nat, p: PanelId, deltas: Vec): real
    requires r < 2 && |deltas| == 6
  {
    match w.side(m, p)
    case Some(side) => Dot(w.response(m, side)[r], deltas)
    case None => 0.0
  }

  lemma {:induction false} BlocksSumToChange(w: Sector, panels: seq<PanelId>, x: Vec, m: SensorId, r: nat, row: Vec, n: nat)
    requires |row| == |x| == 6 * |panels| && r < 2 && n <= |panels|
    requires forall p :: 0 <= p < |panels| ==> Slice(row, p) == SensorBlock(w, m, panels[p])[r]
    ensures BlockSum(row, x, n) == ReadingChange(w, panels, x, m, r, n)
  {
    if n > 0 {
      BlocksSumToChange(w, panels, x, m, r, row, n - 1);
      if w.side(m, panels[n - 1]).None? {
        DotOfZeros(Nothing2x6()[r], Slice(x, n - 1));
      }
    }
  }

  lemma RowOfSensor(w: Sector, sensors: seq<SensorId>, panels: seq<PanelId>, m: nat, r: nat) returns (row: Vec)
    requires m < |sensors| && r < 2
    ensures row == ScalarRow(SectorMatrix(w, sensors, panels)[m], r) && |row| == 6 * |panels|
    ensures forall p :: 0 <= p < |panels| ==> Slice(row, p) == SensorBlock(w, sensors[m], panels[p])[r]
  {
    row := ScalarRow(SectorMatrix(w, sensors, panels)[m], r);
  }

  /** Every row of the system predicts one reading: the sum over the panels the sensor touches of that
      side's response times the panel's own slice. */
  lemma RowIsReadingChange(w: Sector, sensors: seq<SensorId>, panels: seq<PanelId>, x: Vec, m: nat, r: nat)
    requires m < |sensors| && r < 2 && |x| == 6 * |panels|
    ensures Dot(ScalarRow(SectorMatrix(w, sensors, panels)[m], r), x)
            == ReadingChange(w, panels, x, sensors[m], r, |panels|)
  {
    var row := RowOfSensor(w, sensors, panels, m, r);
    BlocksSumToChange(w, panels, x, sensors[m], r, row, |panels|);
    DotByBlocks(row, x, |panels|);
    assert row[..6 * |panels|] == row && x[..6 * |panels|] == x;
    hide *;
  }

  /* ---------- from the solution to the commands ---------- */

  /** What a list of motion commands does to a reading. */
  function CommandsEffect(w: Sector, sent: seq<MotionCommand>, m: SensorId, r: nat): real
    requires r < 2
  {
    if sent == [] then 0.0 else
    PanelEffect(w, m, r, sent[0].panel, sent[0].deltas) + CommandsEffect(w, sent[1..], m, r)
  }

  /** Sum of the effects of the slices in the order of the traversal. */
  function OrderedEffect(w: Sector, panels: seq<PanelId>, x: Vec, m: SensorId, r: nat, order: seq<nat>): real
    requires |x| == 6 * |panels| && r < 2 && forall i :: 0 <= i < |order| ==> order[i] < |panels|
  {
    if order == [] then 0.0 else
    PanelEffect(w, m, r, panels[order[0]], Slice(x, order[0])) + OrderedEffect(w, panels, x, m, r, order[1..])
  }

  lemma {:induction false} AllSent(w: Sector, panels: seq<PanelId>, x: Vec, d: Dispatch, from: nat, m: SensorId, r: nat)
    requires |x| == 6 * |panels| && Covers(d.order, |panels|) && r < 2 && from <= |d.order|
    requires forall i :: from <= i < |d.order| ==> d.replies(d.order[i]).Accepted?
    ensures CommandsEffect(w, Sent(panels, x, d, from), m, r) == OrderedEffect(w, panels, x, m, r, d.order[from..])
    decreases |d.order| - from
  {
    if from < |d.order| {
      AllSent(w, panels, x, d, from + 1, m, r);
      var sent := Sent(panels, x, d, from);
      assert sent[1..] == Sent(panels, x, d, from + 1);
      assert d.order[from..][1..] == d.order[from + 1..];
    }
  }

  lemma {:induction false} TakeOut(w: Sector, panels: seq<PanelId>, x: Vec, m: SensorId, r: nat, order: seq<nat>, i: nat)
    requires |x| == 6 * |panels| && r < 2 && i < |order| && forall k :: 0 <= k < |order| ==> order[k] < |panels|
    ensures OrderedEffect(w, panels, x, m, r, order)
            == OrderedEffect(w, panels, x, m, r, Without(order, i)) + PanelEffect(w, m, r, panels[order[i]], Slice(x, order[i]))
  {
    if i == 0 {
      assert Without(order, 0) == order[1..];
    } else {
      TakeOut(w, panels, x, m, r, order[1..], i - 1);
      assert Without(order, i)[1..] == Without(order[1..], i - 1);
    }
  }

  /** The order of the traversal does not matter. */
  lemma {:induction false} OrderIsIrrelevant(w: Sector, panels: seq<PanelId>, x: Vec, m: SensorId, r: nat, order: seq<nat>, n: nat)
    requires |x| == 6 * |panels| && r < 2 && n <= |panels| && Covers(order, n)
    ensures OrderedEffect(w, panels, x, m, r, order) == ReadingChange(w, panels, x, m, r, n)
  {
    if n > 0 {
      var i := PlaceOfLast(order, n);
      TakeOut(w, panels, x, m, r, order, i);
      OrderIsIrrelevant(w, panels, x, m, r, Without(order, i), n - 1);
    }
  }

  lemma {:induction false} ChangeScales(w: Sector, panels: seq<PanelId>, x: Vec, m: SensorId, r: nat, f: real, n: nat)
    requires |x| == 6 * |panels| && r < 2 && n <= |panels|
    ensures IsMultiple(ReadingChange(w, panels, Scale(f, x), m, r, n), f, ReadingChange(w, panels, x, m, r, n))
  {
    if n > 0 {
      ChangeScales(w, panels, x, m, r, f, n - 1);
      EffectScales(w, panels[n - 1], x, m, r, f, n - 1);
      Distribute(f, ReadingChange(w, panels, x, m, r, n - 1), PanelEffect(w, m, r, panels[n - 1], Slice(x, n - 1)));
    }
  }

  lemma Distribute(f: real, a: real, b: real)
    ensures f * (a + b) == f * a + f * b
  {
  }

  lemma EffectScales(w: Sector, p: PanelId, x: Vec, m: SensorId, r: nat, f: real, k: nat)
    requires 6 * k + 6 <= |x| && r < 2
    ensures PanelEffect(w, m, r, p, Slice(Scale(f, x), k)) == f * PanelEffect(w, m, r, p, Slice(x, k))
  {
    assert Slice(Scale(f, x), k) == Scale(f, Slice(x, k)) by {
      forall i | 0 <= i < 6 ensures Slice(Scale(f, x), k)[i] == Scale(f, Slice(x, k))[i] {
        assert Slice(x, k)[i] == x[6 * k + i];
      }
    }
    match w.side(m, p) {
      case Some(side) => DotScale(w.response(m, side)[r], f, Slice(x, k));
      case None =>
    }
  }

  /** What the commands of an execution in which every panel accepts do to a fitted reading is the
      executed fraction of what the system predicted for it, in whatever order the panels are sent. */
  lemma ExecutionDeliversPrediction(w: Sector, sensors: seq<SensorId>, s: Mirror, me: Method, f: real, d: Dispatch,
                                    m: nat, r: nat)
    requires m < |sensors| && r < 2 && Covers(d.order, |s.panels|)
    requires ValidFraction(f) && ExecuteAccepted(s, me, f)
    requires forall i :: 0 <= i < |d.order| ==> d.replies(d.order[i]).Accepted?
    ensures ExecuteStep(s, me, f, d).1.Moved?
    ensures CommandsEffect(w, ExecuteStep(s, me, f, d).1.sent, sensors[m], r)
            == AbsReal(f) * Dot(ScalarRow(SectorMatrix(w, sensors, s.panels)[m], r), s.x)
  {
    ExecutionSends(s, me, f, d);
    hide ExecuteStep, Sent, Scale, Dot, ScalarRow, SectorMatrix, CommandsEffect, IsZero;
    FullEffect(w, sensors, s.panels, s.x, AbsReal(f), d, m, r);
  }

  lemma ExecutionSends(s: Mirror, me: Method, f: real, d: Dispatch)
    requires Covers(d.order, |s.panels|) && ValidFraction(f) && ExecuteAccepted(s, me, f)
    ensures ExecuteStep(s, me, f, d).1.Moved?
    ensures |Scale(AbsReal(f), s.x)| == |s.x|
    ensures ExecuteStep(s, me, f, d).1.sent == Sent(s.panels, Scale(AbsReal(f), s.x), d, 0)
  {
  }

  lemma FullEffect(w: Sector, sensors: seq<SensorId>, panels: seq<PanelId>, x: Vec, f: real, d: Dispatch, m: nat, r: nat)
    requires m < |sensors| && r < 2 && |x| == 6 * |panels| && Covers(d.order, |panels|)
    requires forall i :: 0 <= i < |d.order| ==> d.replies(d.order[i]).Accepted?
    ensures |Scale(f, x)| == |x|
    ensures IsMultiple(CommandsEffect(w, Sent(panels, Scale(f, x), d, 0), sensors[m], r), f,
                       Dot(ScalarRow(SectorMatrix(w, sensors, panels)[m], r), x))
  {
    assert |Scale(f, x)| == |x|;
    hide IsMultiple;
    RowIsReadingChange(w, sensors, panels, x, m, r);
    ChangeScales(w, panels, x, sensors[m], r, f, |panels|);
    SentEffect(w, panels, Scale(f, x), d, sensors[m], r);
  }

  predicate IsMultiple(a: real, f: real, b: real) { a == f * b }

  lemma SentEffect(w: Sector, panels: seq<PanelId>, y: Vec, d: Dispatch, m: SensorId, r: nat)
    requires r < 2 && |y| == 6 * |panels| && Covers(d.order, |panels|)
    requires forall i :: 0 <= i < |d.order| ==> d.replies(d.order[i]).Accepted?
    ensures CommandsEffect(w, Sent(panels, y, d, 0), m, r) == ReadingChange(w, panels, y, m, r, |panels|)
  {
    OrderIsIrrelevant(w, panels, y, m, r, d.order, |panels|);
    AllSent(w, panels, y, d, 0, m, r);
    assert d.order[0..] == d.order;
    hide *;
  }

  /* ---------- the calculation ---------- */

  /** The reading a sensor should reach: its aligned reading less the systematic offset, or, when
      positions or offsets were loaded from a file, plus the optics offset. */
  function Target(w: Sector, mode: int, m: SensorId): (t: Vec)
    ensures |t| == 2
  {
    if mode == 0 then Sub(w.aligned(m), w.systematic(m)) else Add(w.aligned(m), w.optics(m))
  }

  function Misalignment(w: Sector, mode: int, sensors: seq<SensorId>): (y: Vec)
    ensures |y| == 2 * |sensors|
    ensures forall m :: 0 <= m < |sensors| ==>
              y[2 * m..2 * m + 2] == Sub(Target(w, mode, sensors[m]), w.current(sensors[m]))
  {
    if sensors == [] then [] else
    var n := |sensors| - 1;
    var y := Misalignment(w, mode, sensors[..n]);
    var z := y + Sub(Target(w, mode, sensors[n]), w.current(sensors[n]));
    assert forall m :: 0 <= m < n ==> z[2 * m..2 * m + 2] == y[2 * m..2 * m + 2];
    z
  }

  /** One row of blocks: for every panel the response of the side it is on, or nothing. */
  method AssembleRow(w: Sector, m: SensorId, panels: seq<PanelId>) returns (row: seq<Response>)
    ensures |row| == |panels| && forall p :: 0 <= p < |panels| ==> row[p] == SensorBlock(w, m, panels[p])
  {
    row := [];
    for p := 0 to |panels|
      invariant |row| == p && forall k :: 0 <= k < p ==> row[k] == SensorBlock(w, m, panels[k])
    {
      var panelSide := w.side(m, panels[p]);
      var responseMat;
      if panelSide.Some? {
        responseMat := w.response(m, panelSide.value);
      } else {
        responseMat := Nothing2x6();
      }
      row := row + [responseMat];
    }
  }

  lemma MisalignmentNext(w: Sector, mode: int, sensors: seq<SensorId>, m: nat)
    requires m < |sensors|
    ensures Misalignment(w, mode, sensors[..m + 1])
            == Misalignment(w, mode, sensors[..m]) + Sub(Target(w, mode, sensors[m]), w.current(sensors[m]))
  {
    assert sensors[..m + 1][..m] == sensors[..m];
    hide Target;
  }

  lemma NoMisalignment(w: Sector, mode: int)
    ensures Misalignment(w, mode, []) == []
  {
  }

  lemma MatrixFromRows(w: Sector, sensors: seq<SensorId>, panels: seq<PanelId>, b: seq<seq<Response>>)
    requires |b| == |sensors|
    requires forall m :: 0 <= m < |sensors| ==> IsRow(w, sensors[m], panels, b[m])
    ensures b == SectorMatrix(w, sensors, panels)
  {
    forall m | 0 <= m < |sensors| ensures b[m] == SectorMatrix(w, sensors, panels)[m] {
      assert IsRow(w, sensors[m], panels, b[m]);
    }
  }

  predicate IsRow(w: Sector, m: SensorId, panels: seq<PanelId>, row: seq<Response>) {
    |row| == |panels| && forall p :: 0 <= p < |panels| ==> row[p] == SensorBlock(w, m, panels[p])
  }

  /** Fills the system, block by block, and the right-hand side, sensor by sensor. */
  method AssembleSector(w: Sector, mode: int, sensors: seq<SensorId>, panels: seq<PanelId>)
    returns (b: seq<seq<Response>>, y: Vec)
    ensures b == SectorMatrix(w, sensors, panels) && y == Misalignment(w, mode, sensors)
  {
    hide Misalignment, SectorMatrix, SensorBlock, Target, Sub;
    b, y := [], [];
    NoMisalignment(w, mode);
    assert sensors[..0] == [];
    for m := 0 to |sensors|
      invariant |b| == m && forall i :: 0 <= i < m ==> IsRow(w, sensors[i], panels, b[i])
      invariant y == Misalignment(w, mode, sensors[..m])
    {
      MisalignmentNext(w, mode, sensors, m);
      var target := Target(w, mode, sensors[m]);
      y := y + Sub(target, w.current(sensors[m]));
      var row := AssembleRow(w, sensors[m], panels);
      b := b + [row];
    }
    assert sensors[..|sensors|] == sensors;
    MatrixFromRows(w, sensors, panels, b);
  }

  /** The sector calculation: aborted without panels, without selected sensors, with fewer readings than
      actuators, or when the solver fails; otherwise a plan with six entries for every panel. */
  method CalculateAlignSector(w: Sector, mode: int, selectedPanels: seq<PanelId>, selectedSensors: seq<int>)
    returns (c: Calculation, sensors: seq<SensorId>)
    requires NoDuplicates(selectedPanels) && NoDuplicates(selectedSensors)
    requires forall s, t :: s in selectedSensors && t in selectedSensors && w.bySerial(s) == w.bySerial(t) ==> s == t
    requires SolverFits(w)
    ensures CanCalculate(AlignSector, c) && !c.InnerAborted?
    ensures selectedPanels == [] || selectedSensors == [] ==> c.Aborted? && sensors == []
    ensures selectedPanels != [] && selectedSensors != [] ==>
              var panels := PanelsToMove(w, selectedPanels);
              var solution := w.solve(SectorMatrix(w, sensors, panels), 6 * |panels|, Misalignment(w, mode, sensors));
              && NoDuplicates(sensors) && (forall m :: m in sensors <==> Fits(w, panels, selectedSensors, m))
              && c == (if 2 * |sensors| >= 6 * |panels| && solution.Some? then Planned(solution.value, panels, true) else Aborted)
  {
    if selectedPanels == [] || selectedSensors == [] {
      return Aborted, [];
    }
    var panels := PanelsToMove(w, selectedPanels);
    sensors := SensorsToFit(w, panels, selectedSensors);
    var b, y := AssembleSector(w, mode, sensors, panels);
    if |y| < 6 * |panels| {
      return Aborted, sensors;
    }
    match w.solve(b, 6 * |panels|, y) {
      case None => c := Aborted;
      case Some(x) => c := Planned(x, panels, true);
    }
  }

  /** A solution has one entry per column of the system. */
  ghost predicate SolverFits(w: Sector) {
    forall b, n, y :: w.solve(b, n, y).Some? ==> |w.solve(b, n, y).value| == n
  }

  /* ---------- the system in the sensors' own terms ---------- */

  /** Each entry of the matrix is a number of the response of the side that the panel is on, or zero. */
  lemma MatrixEntry(w: Sector, sensors: seq<SensorId>, panels: seq<PanelId>, m: nat, r: nat, p: nat, i: nat)
    requires m < |sensors| && r < 2 && p < |panels| && i < 6
    ensures var row := ScalarRow(SectorMatrix(w, sensors, panels)[m], r);
            |row| == 6 * |panels| && row[6 * p + i] ==
              match w.side(sensors[m], panels[p])
              case Some(side) => w.response(sensors[m], side)[r][i]
              case None => 0.0
  {
    var row := RowOfSensor(w, sensors, panels, m, r);
    assert Slice(row, p)[i] == row[6 * p + i];
  }

  /** Where the alignment takes reading `r` of sensor `m`. */
  function Goal(w: Sector, mode: int, m: SensorId, r: nat): real
    requires r < 2
  {
    if mode == 0 then w.aligned(m)[r] - w.systematic(m)[r] else w.aligned(m)[r] + w.optics(m)[r]
  }

  /** The right-hand side is what each reading misses its goal by. Without offsets loaded it is zero exactly
      for a reading that shows, with the systematic offset, the aligned reading. */
  lemma MisalignmentEntry(w: Sector, mode: int, sensors: seq<SensorId>, m: nat, r: nat)
    requires m < |sensors| && r < 2
    ensures mode == 0 ==>
            var missed := Misalignment(w, mode, sensors)[2 * m + r];
            && missed == w.aligned(sensors[m])[r] - w.systematic(sensors[m])[r] - w.current(sensors[m])[r]
            && (missed == 0.0 <==> w.current(sensors[m])[r] + w.systematic(sensors[m])[r] == w.aligned(sensors[m])[r])
    ensures mode != 0 ==>
            Misalignment(w, mode, sensors)[2 * m + r]
            == w.aligned(sensors[m])[r] + w.optics(sensors[m])[r] - w.current(sensors[m])[r]
  {
    hide Misalignment, Target, Sub, Add;
    var y := Misalignment(w, mode, sensors);
    PairEntry(y, m, r);
    TargetEntry(w, mode, sensors[m], r);
    DifferenceEntry(Target(w, mode, sensors[m]), w.current(sensors[m]), r);
  }

  lemma PairEntry(y: Vec, m: nat, r: nat)
    requires 2 * m + 2 <= |y| && r < 2
    ensures y[2 * m..2 * m + 2][r] == y[2 * m + r]
  {
  }

  lemma DifferenceEntry(a: Vec, b: Vec, r: nat)
    requires |a| == |b| && r < |a|
    ensures |Sub(a, b)| == |a| && Sub(a, b)[r] == a[r] - b[r]
  {
  }

  lemma TargetEntry(w: Sector, mode: int, m: SensorId, r: nat)
    requires r < 2
    ensures Target(w, mode, m)[r] == if mode == 0 then w.aligned(m)[r] - w.systematic(m)[r] else w.aligned(m)[r] + w.optics(m)[r]
  {
  }

  /** What row `r` of sensor `m` makes of a vector. */
  function RowTimes(w: Sector, sensors: seq<SensorId>, panels: seq<PanelId>, m: nat, r: nat, x: Vec): real
    requires m < |sensors| && r < 2 && |x| == 6 * |panels|
  {
    Dot(ScalarRow(SectorMatrix(w, sensors, panels)[m], r), x)
  }

  /** A vector that satisfies every row of the system. */
  ghost predicate SolvesExactly(w: Sector, mode: int, sensors: seq<SensorId>, panels: seq<PanelId>, x: Vec)
    requires |x| == 6 * |panels|
  {
    forall m, r :: 0 <= m < |sensors| && 0 <= r < 2 ==>
      RowTimes(w, sensors, panels, m, r, x) == Misalignment(w, mode, sensors)[2 * m + r]
  }

  /** `after` lies at fraction `f` of the way from `now` to `goal`. */
  predicate PartWay(now: real, goal: real, f: real, after: real) {
    after == (1.0 - f) * now + f * goal && (f == 1.0 ==> after == goal)
  }

  lemma ExecutedAsMultiple(w: Sector, sensors: seq<SensorId>, s: Mirror, me: Method, f: real, d: Dispatch, m: nat, r: nat)
    requires m < |sensors| && r < 2 && Covers(d.order, |s.panels|)
    requires f > 0.0 && ValidFraction(f) && ExecuteAccepted(s, me, f)
    requires forall i :: 0 <= i < |d.order| ==> d.replies(d.order[i]).Accepted?
    ensures ExecuteStep(s, me, f, d).1.Moved? && |s.x| == 6 * |s.panels|
    ensures IsMultiple(CommandsEffect(w, ExecuteStep(s, me, f, d).1.sent, sensors[m], r), f,
                       RowTimes(w, sensors, s.panels, m, r, s.x))
  {
    PositiveSize(f);
    PlanFits(s, me, f);
    ExecutionSends(s, me, f, d);
    hide ExecuteStep, ExecuteAccepted, ValidFraction, Scale, Dot, ScalarRow, SectorMatrix, CommandsEffect, AbsReal, IsMultiple;
    FullEffect(w, sensors, s.panels, s.x, f, d, m, r);
  }

  lemma PositiveSize(f: real)
    requires f > 0.0
    ensures AbsReal(f) == f
  {
  }

  lemma PlanFits(s: Mirror, me: Method, f: real)
    requires ExecuteAccepted(s, me, f)
    ensures |s.x| == 6 * |s.panels|
  {
  }

  lemma PredictedChange(w: Sector, mode: int, sensors: seq<SensorId>, panels: seq<PanelId>, x: Vec, m: nat, r: nat)
    requires |x| == 6 * |panels| && SolvesExactly(w, mode, sensors, panels, x) && m < |sensors| && r < 2
    ensures RowTimes(w, sensors, panels, m, r, x) == Goal(w, mode, sensors[m], r) - w.current(sensors[m])[r]
  {
    MisalignmentEntry(w, mode, sensors, m, r);
  }

  lemma PartOfChange(now: real, goal: real, f: real, effect: real, predicted: real)
    requires IsMultiple(effect, f, predicted) && predicted == goal - now
    ensures PartWay(now, goal, f, now + effect)
  {
  }

  /** With an exact solution as the plan, an execution takes every fitted reading that fraction of the way to
      its goal: to the aligned reading less the systematic offset, or with loaded offsets plus the optics
      offset, if the whole motion is executed. */
  lemma ExactSolutionReachesGoal(w: Sector, mode: int, sensors: seq<SensorId>, s: Mirror, me: Method, f: real, d: Dispatch,
                                 m: nat, r: nat)
    requires m < |sensors| && r < 2 && Covers(d.order, |s.panels|)
    requires f > 0.0 && ValidFraction(f) && ExecuteAccepted(s, me, f) && SolvesExactly(w, mode, sensors, s.panels, s.x)
    requires forall i :: 0 <= i < |d.order| ==> d.replies(d.order[i]).Accepted?
    ensures ExecuteStep(s, me, f, d).1.Moved?
    ensures var now := w.current(sensors[m])[r];
            PartWay(now, Goal(w, mode, sensors[m], r), f, now + CommandsEffect(w, ExecuteStep(s, me, f, d).1.sent, sensors[m], r))
  {
    PlanFits(s, me, f);
    hide ExecuteStep, ExecuteAccepted, ValidFraction, Dot, ScalarRow, SectorMatrix, RowTimes, CommandsEffect, SolvesExactly,
         Goal, Misalignment, PartWay, IsMultiple, NoDuplicates, Scale, AbsReal;
    ExecutedAsMultiple(w, sensors, s, me, f, d, m, r);
    PredictedChange(w, mode, sensors, s.panels, s.x, m, r);
    PartOfChange(w.current(sensors[m])[r], Goal(w, mode, sensors[m], r), f,
                 CommandsEffect(w, ExecuteStep(s, me, f, d).1.sent, sensors[m], r),
                 RowTimes(w, sensors, s.panels, m, r, s.x));
  }

  /** Sensor `m` touches the panels at places `i` and `j` and no other. */
  ghost predicate Between(w: Sector, panels: seq<PanelId>, m: SensorId, i: nat, j: nat) {
    && i < j < |panels|
    && forall k :: 0 <= k < |panels| ==> (w.side(m, panels[k]).Some? <==> k == i || k == j)
  }

  lemma {:induction false} TouchedNone(w: Sector, panels: seq<PanelId>, m: SensorId)
    ensures Touched(w, panels, m) == 0 <==> forall k :: 0 <= k < |panels| ==> w.side(m, panels[k]).None?
  {
    if panels != [] {
      TouchedNone(w, panels[..|panels| - 1], m);
    }
  }

  /** Sensor `m` touches the panel at place `i` and no other. */
  ghost predicate OnlyAt(w: Sector, panels: seq<PanelId>, m: SensorId, i: nat) {
    i < |panels| && forall k :: 0 <= k < |panels| ==> (w.side(m, panels[k]).Some? <==> k == i)
  }

  /** One more panel behind `front`. */
  lemma OnlyAtNext(w: Sector, front: seq<PanelId>, last: PanelId, m: SensorId, i: nat)
    ensures OnlyAt(w, front + [last], m, i) <==>
            if w.side(m, last).Some? then i == |front| && forall k :: 0 <= k < |front| ==> w.side(m, front[k]).None?
            else OnlyAt(w, front, m, i)
  {
    var panels := front + [last];
    assert panels[|front|] == last && forall k :: 0 <= k < |front| ==> panels[k] == front[k];
  }

  lemma BetweenNext(w: Sector, front: seq<PanelId>, last: PanelId, m: SensorId, i: nat, j: nat)
    ensures Between(w, front + [last], m, i, j) <==>
            if w.side(m, last).Some? then j == |front| && OnlyAt(w, front, m, i) else Between(w, front, m, i, j)
  {
    var panels := front + [last];
    assert panels[|front|] == last && forall k :: 0 <= k < |front| ==> panels[k] == front[k];
    if w.side(m, last).Some? && Between(w, panels, m, i, j) {
      assert w.side(m, panels[|front|]).Some?;
      assert j == |front|;
    }
  }

  lemma TouchedNext(w: Sector, front: seq<PanelId>, last: PanelId, m: SensorId)
    ensures Touched(w, front + [last], m) == Touched(w, front, m) + if w.side(m, last).Some? then 1 else 0
  {
    assert (front + [last])[..|front|] == front;
  }

  lemma {:induction false} TouchedOne(w: Sector, panels: seq<PanelId>, m: SensorId)
    ensures Touched(w, panels, m) == 1 <==> exists i: nat :: OnlyAt(w, panels, m, i)
  {
    if panels != [] {
      var front, last := panels[..|panels| - 1], panels[|panels| - 1];
      assert panels == front + [last];
      TouchedOne(w, front, m);
      TouchedNone(w, front, m);
      TouchedNext(w, front, last, m);
      hide Touched, OnlyAt;
      forall i: nat ensures OnlyAt(w, panels, m, i) <==>
          if w.side(m, last).Some? then i == |front| && forall k :: 0 <= k < |front| ==> w.side(m, front[k]).None?
          else OnlyAt(w, front, m, i)
      {
        OnlyAtNext(w, front, last, m, i);
      }
      assert OnlyAt(w, panels, m, |front|) || !OnlyAt(w, panels, m, |front|);
    }
  }

  /** Two of the panels are touched exactly when there are two places of them. */
  lemma {:induction false} TouchedTwo(w: Sector, panels: seq<PanelId>, m: SensorId)
    ensures Touched(w, panels, m) == 2 <==> exists i: nat, j: nat :: Between(w, panels, m, i, j)
  {
    if panels != [] {
      var front, last := panels[..|panels| - 1], panels[|panels| - 1];
      assert panels == front + [last];
      TouchedTwo(w, front, m);
      TouchedOne(w, front, m);
      TouchedNext(w, front, last, m);
      hide Touched, OnlyAt, Between;
      forall i: nat, j: nat ensures Between(w, panels, m, i, j) <==>
          if w.side(m, last).Some? then j == |front| && OnlyAt(w, front, m, i) else Between(w, front, m, i, j)
      {
        BetweenNext(w, front, last, m, i, j);
      }
      if i: nat :| OnlyAt(w, front, m, i) {
        assert w.side(m, last).Some? ==> Between(w, panels, m, i, |front|);
      }
    }
  }

  /** Sensor `m` hangs on one of the panels and touches two of them and no third. */
  ghost predicate LiesBetween(w: Sector, panels: seq<PanelId>, m: SensorId) {
    (exists p :: p in panels && m in w.children(p)) && exists i: nat, j: nat :: Between(w, panels, m, i, j)
  }

  /** Which sensors are fitted, told by visibility, selection and sides alone. */
  lemma FitsIff(w: Sector, panels: seq<PanelId>, serials: seq<int>, m: SensorId)
    ensures Fits(w, panels, serials, m) <==>
            && w.visible(m)
            && (|| (exists s :: s in serials && m == w.bySerial(s))
                || (LiesBetween(w, panels, m)
                    && forall s :: s in serials && w.visible(w.bySerial(s)) ==> !LiesBetween(w, panels, w.bySerial(s))))
  {
    hide Touched, Between, Attached;
    forall c ensures Internal(w, panels, c) <==> LiesBetween(w, panels, c) {
      TouchedTwo(w, panels, c);
      AttachedIff(w, panels, c);
    }
    hide LiesBetween, Internal;
    if c :| Chosen(w, serials, c) && Internal(w, panels, c) {
      var t :| t in serials && c == w.bySerial(t);
      assert w.visible(w.bySerial(t)) && LiesBetween(w, panels, w.bySerial(t));
    }
  }

  lemma AttachedIff(w: Sector, panels: seq<PanelId>, m: SensorId)
    ensures Attached(w, panels, m) <==> exists p :: p in panels && m in w.children(p)
  {
  }
}
