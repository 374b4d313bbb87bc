/** The check that a panel motion keeps every edge sensor in range. */
module CollisionCheck {
  import opened AlignPlan
  import opened Basics
  import opened EdgeSensing
  import opened LinearAlgebra
  import opened SectorSystem

  const CENTER_X: real := 160.0
  const CENTER_Y: real := 120.0

  /** The reading predicted for a sensor after the panel's actuators move by `delta`. */
  function Predicted(s: EdgeSensor, panel: PanelId, delta: Six, r: nat): real
    requires r < 2
  {
    s.reading[r] + Dot(PanelResponse(s, panel)[r], delta)
  }

  /** A deviation longer than the radius; lengths are compared by their squares. */
  predicate Longer(dx: real, dy: real, radius: real) {
    radius < 0.0 || Square(dx) + Square(dy) > Square(radius)
  }

  function Square(a: real): real { a * a }

  /** Farther from the camera centre than the radius. */
  predicate Outside(x: real, y: real, radius: real) {
    Longer(x - CENTER_X, y - CENTER_Y, radius)
  }

  predicate InRange(s: EdgeSensor, panel: PanelId, delta: Six, radius: real) {
    !Outside(Predicted(s, panel, delta, 0), Predicted(s, panel, delta, 1), radius)
  }

  /** Edges whose vectors have the size of the hard-coded centre: no usable sensor at all, or three
      sensors, all of them usable. The vector library aborts on any other edge. */
  ghost predicate Checkable(edge: seq<EdgeSensor>) {
    Usable(edge) == [] || (|edge| == 3 && Usable(edge) == edge)
  }

  /** Every sensor of every edge with readings is predicted within the radius. */
  ghost predicate Safe(edges: seq<seq<EdgeSensor>>, panel: PanelId, radius: real, delta: Six) {
    forall e :: 0 <= e < |edges| && Usable(edges[e]) != [] ==> EdgeSafe(edges[e], panel, radius, delta)
  }

  ghost predicate EdgeSafe(edge: seq<EdgeSensor>, panel: PanelId, radius: real, delta: Six) {
    forall i :: 0 <= i < |edge| ==> InRange(edge[i], panel, delta, radius)
  }

  /** Reports a collision unless the actuator lengths could be read and every sensor stays in range. */
  method CheckForCollision(edges: seq<seq<EdgeSensor>>, panel: PanelId, radius: real, lengthsRead: bool, delta: Six)
    returns (collision: bool)
    requires forall e :: 0 <= e < |edges| ==> Checkable(edges[e])
    ensures collision <==> !lengthsRead || !Safe(edges, panel, radius, delta)
  {
    if !lengthsRead {
      return true;
    }
    hide Safe, EdgeSafe, EdgeResponse, Usable, Pairs, ReadUpTo;
    collision := false;
    NothingToCheck(panel, radius, delta);
    for e := 0 to |edges|
      invariant collision <==> !Safe(edges[..e], panel, radius, delta)
    {
      SafeNext(edges, e, panel, radius, delta);
      var response := GetResponseMatrix(edges[e], panel);
      var current := ReadAll(edges[e]);
      if |current| == 0 {
        assert Usable(edges[e]) == [];
        continue;
      }
      var out := EdgeOutOfRange(edges[e], panel, radius, delta, response, current);
      if out {
        collision := true;
      }
    }
    assert edges[..|edges|] == edges;
  }

  /** The readings of an edge that is not stopped meanwhile. */
  method ReadAll(edge: seq<EdgeSensor>) returns (current: Vec)
    ensures current == Pairs(Usable(edge), (s: EdgeSensor) => s.reading)
  {
    hide Pairs, Usable;
    AllRead(edge);
    var widths;
    current, widths := GetCurrentReadings(edge, (n: nat) => false);
  }

  lemma NothingToCheck(panel: PanelId, radius: real, delta: Six)
    ensures Safe([], panel, radius, delta)
  {
  }

  lemma AllRead(edge: seq<EdgeSensor>)
    ensures edge[..ReadUpTo(edge, (n: nat) => false, 0)] == edge
  {
  }

  lemma SafeNext(edges: seq<seq<EdgeSensor>>, e: nat, panel: PanelId, radius: real, delta: Six)
    requires e < |edges|
    ensures Safe(edges[..e + 1], panel, radius, delta) <==>
            Safe(edges[..e], panel, radius, delta) && (Usable(edges[e]) != [] ==> EdgeSafe(edges[e], panel, radius, delta))
  {
    var upTo, next := edges[..e], edges[..e + 1];
    assert next[e] == edges[e] && forall i :: 0 <= i < e ==> next[i] == upTo[i];
  }

  /** Moves the readings by the response and compares the deviations with the radius, sensor by sensor. */
  method EdgeOutOfRange(edge: seq<EdgeSensor>, panel: PanelId, radius: real, delta: Six, response: seq<Vec>, current: Vec)
    returns (out: bool)
    requires |edge| == 3 && Usable(edge) == edge
    requires response == EdgeResponse(edge, panel) && current == Pairs(edge, (s: EdgeSensor) => s.reading)
    ensures out <==> !EdgeSafe(edge, panel, radius, delta)
  {
    hide Longer, EdgeResponse, Pairs, Usable, PanelResponse, Dot, Predicted;
    var center := [CENTER_X, CENTER_Y, CENTER_X, CENTER_Y, CENTER_X, CENTER_Y];
    var moved := Add(MatVec(response, delta), current);
    var deviation := Sub(moved, center);
    out := false;
    for i := 0 to |deviation| / 2
      invariant out <==> exists k :: 0 <= k < i && !InRange(edge[k], panel, delta, radius)
    {
      DeviationOfSensor(edge, panel, delta, i);
      var x, y := deviation[2 * i], deviation[2 * i + 1];
      if Longer(x, y, radius) {
        out := true;
      }
    }
  }

  lemma DeviationOfSensor(edge: seq<EdgeSensor>, panel: PanelId, delta: Six, i: nat)
    requires i < |edge|
    ensures MatVec(EdgeResponse(edge, panel), delta)[2 * i] + Pairs(edge, (s: EdgeSensor) => s.reading)[2 * i]
            == Predicted(edge[i], panel, delta, 0)
    ensures MatVec(EdgeResponse(edge, panel), delta)[2 * i + 1] + Pairs(edge, (s: EdgeSensor) => s.reading)[2 * i + 1]
            == Predicted(edge[i], panel, delta, 1)
  {
  }

  /* ---------- fractions of a safe motion ---------- */

  /** `c` lies at fraction `f` of the way from `a` to `b`. */
  predicate At(c: real, f: real, a: real, b: real) { c == a + f * (b - a) }

  /** Strict convexity of the square, with the amount by which it bends. */
  predicate Bends(c: real, f: real, a: real, b: real, gap: real) {
    c == (1.0 - f) * a + f * b - f * (1.0 - f) * gap
  }

  lemma SquareOfFraction(a: real, b: real, c: real, f: real)
    requires At(c, f, a, b)
    ensures Bends(Square(c), f, Square(a), Square(b), Square(b - a))
    ensures Square(b - a) >= 0.0
  {
    SquareNonNegative(b - a);
  }

  lemma ProductNonNegative(a: real, b: real)
    requires a >= 0.0 && b >= 0.0
    ensures a * b >= 0.0
  {
  }

  lemma SquareNonNegative(a: real)
    ensures a * a >= 0.0
  {
  }

  lemma Convex(p: real, q: real, bound: real, f: real)
    requires p <= bound && q <= bound && 0.0 <= f <= 1.0
    ensures (1.0 - f) * p + f * q <= bound
  {
    ProductNonNegative(1.0 - f, bound - p);
    ProductNonNegative(f, bound - q);
    assert (1.0 - f) * p + f * q == bound - (1.0 - f) * (bound - p) - f * (bound - q);
  }

  /** A disc is convex: a point on the way from one of its points to another is in it. */
  lemma DiscIsConvex(ax: real, ay: real, px: real, py: real, cx: real, cy: real, f: real, radius: real)
    requires !Longer(ax, ay, radius) && !Longer(px, py, radius) && 0.0 <= f <= 1.0
    requires At(cx, f, ax, px) && At(cy, f, ay, py)
    ensures !Longer(cx, cy, radius)
  {
    hide At, Bends, Square;
    SquareOfFraction(ax, px, cx, f);
    SquareOfFraction(ay, py, cy, f);
    Combine(Square(cx), Square(cy), f, Square(radius), Square(ax), Square(ay), Square(px), Square(py),
            Square(px - ax), Square(py - ay));
  }

  lemma Combine(s: real, t: real, f: real, bound: real, a: real, b: real, c: real, d: real, u: real, v: real)
    requires Bends(s, f, a, c, u) && Bends(t, f, b, d, v)
    requires a + b <= bound && c + d <= bound && u >= 0.0 && v >= 0.0 && 0.0 <= f <= 1.0
    ensures s + t <= bound
  {
    hide Bends;
    BendsAdd(s, t, f, a, b, c, d, u, v);
    BendsDown(s + t, f, bound, a + b, c + d, u + v);
  }

  lemma BendsAdd(s: real, t: real, f: real, a: real, b: real, c: real, d: real, u: real, v: real)
    requires Bends(s, f, a, c, u) && Bends(t, f, b, d, v)
    ensures Bends(s + t, f, a + b, c + d, u + v)
  {
  }

  lemma BendsDown(s: real, f: real, bound: real, p: real, q: real, gap: real)
    requires Bends(s, f, p, q, gap) && p <= bound && q <= bound && gap >= 0.0 && 0.0 <= f <= 1.0
    ensures s <= bound
  {
    Convex(p, q, bound, f);
    ProductNonNegative(f, 1.0 - f);
    ProductNonNegative(f * (1.0 - f), gap);
  }

  lemma PredictedMoves(s: EdgeSensor, panel: PanelId, delta: Six, f: real, r: nat)
    requires r < 2
    ensures At(Predicted(s, panel, Scale(f, delta), r), f, s.reading[r], Predicted(s, panel, delta, r))
    ensures Predicted(s, panel, Zeros(6), r) == s.reading[r]
  {
    DotScale(PanelResponse(s, panel)[r], f, delta);
    DotScale(PanelResponse(s, panel)[r], 0.0, delta);
    assert Scale(0.0, delta) == Zeros(6);
  }

  lemma SensorStaysInRange(s: EdgeSensor, panel: PanelId, delta: Six, radius: real, f: real)
    requires InRange(s, panel, Zeros(6), radius) && InRange(s, panel, delta, radius) && 0.0 <= f <= 1.0
    ensures InRange(s, panel, Scale(f, delta), radius)
  {
    hide Predicted, Outside, At;
    PredictedMoves(s, panel, delta, f, 0);
    PredictedMoves(s, panel, delta, f, 1);
    FractionInside(s.reading[0], s.reading[1], Predicted(s, panel, delta, 0), Predicted(s, panel, delta, 1),
                   Predicted(s, panel, Scale(f, delta), 0), Predicted(s, panel, Scale(f, delta), 1), f, radius);
  }

  lemma AtShifted(c: real, f: real, a: real, b: real, shift: real)
    requires At(c, f, a, b)
    ensures At(c - shift, f, a - shift, b - shift)
  {
  }

  lemma FractionInside(x0: real, y0: real, x1: real, y1: real, x: real, y: real, f: real, radius: real)
    requires !Outside(x0, y0, radius) && !Outside(x1, y1, radius) && 0.0 <= f <= 1.0
    requires At(x, f, x0, x1) && At(y, f, y0, y1)
    ensures !Outside(x, y, radius)
  {
    hide Longer;
    AtShifted(x, f, x0, x1, CENTER_X);
    AtShifted(y, f, y0, y1, CENTER_Y);
    hide At;
    DiscIsConvex(x0 - CENTER_X, y0 - CENTER_Y, x1 - CENTER_X, y1 - CENTER_Y, x - CENTER_X, y - CENTER_Y, f, radius);
  }

  /** If the panel is in range where it stands and after the whole motion, it is in range after every
      fraction of the motion. */
  lemma FractionsAreSafe(edges: seq<seq<EdgeSensor>>, panel: PanelId, radius: real, delta: Six, f: real)
    requires Safe(edges, panel, radius, Zeros(6)) && Safe(edges, panel, radius, delta) && 0.0 <= f <= 1.0
    ensures Safe(edges, panel, radius, Scale(f, delta))
  {
    forall e | 0 <= e < |edges| && Usable(edges[e]) != []
      ensures EdgeSafe(edges[e], panel, radius, Scale(f, delta))
    {
      var edge := edges[e];
      assert EdgeSafe(edge, panel, radius, Zeros(6)) && EdgeSafe(edge, panel, radius, delta);
      forall i | 0 <= i < |edge| ensures InRange(edge[i], panel, Scale(f, delta), radius) {
        SensorStaysInRange(edge[i], panel, delta, radius, f);
      }
    }
  }

  /* ---------- the review of an edge alignment ---------- */

  /** The motion an edge alignment carries out at fraction `f`. */
  function ExecutedMotion(x: Six, f: real): Six { Scale(f, x) }

  /** The motion its review submits to the collision check: the vector that was scaled for display is
      scaled again. */
  function CheckedMotion(x: Six, f: real): Six { Scale(f, Scale(f, x)) }

  const CENTERED: Pair := [CENTER_X, CENTER_Y]

  function StillSensor(): EdgeSensor {
    EdgeSensor(false, false, CENTERED, CENTERED, CENTERED, (p: PanelId) => Option<Side>.None, (s: Side) => NoRows())
  }

  /** A sensor at the camera centre whose first reading follows the first actuator with gain `g`. */
  function FollowingSensor(g: real): EdgeSensor {
    EdgeSensor(false, false, CENTERED, CENTERED, CENTERED, (p: PanelId) => Some(Webcam),
               (s: Side) => [[g, 0.0, 0.0, 0.0, 0.0, 0.0], Zeros(6)])
  }

  const FIRST_ACTUATOR: Six := [1.0, 0.0, 0.0, 0.0, 0.0, 0.0]

  /** A panel in range that passes the review of a fraction stays in range when that fraction is sent. */
  ghost predicate ReviewProtects(edges: seq<seq<EdgeSensor>>, panel: PanelId, radius: real, x: Six, f: real) {
    Safe(edges, panel, radius, Zeros(6)) && Safe(edges, panel, radius, CheckedMotion(x, f)) ==>
      Safe(edges, panel, radius, ExecutedMotion(x, f))
  }

  /** The review of an edge alignment protects every panel at the whole motion, and at no smaller fraction. */
  lemma ReviewProtectsWholeMotions(f: real, radius: real, panel: PanelId)
    requires 0.0 < f <= 1.0 && radius > 0.0
    ensures (forall edges, x: Six :: ReviewProtects(edges, panel, radius, x, f)) <==> f == 1.0
  {
    if f == 1.0 {
      forall edges, x: Six ensures ReviewProtects(edges, panel, radius, x, f) {
        assert CheckedMotion(x, f) == ExecutedMotion(x, f);
      }
    } else {
      var edges, x := EscapesReview(f, radius, panel);
      assert !ReviewProtects(edges, panel, radius, x, f);
    }
  }

  /** An edge in range where it stands and at the checked motion, but at the motion carried out only if
      that is the whole motion. */
  lemma EscapesReview(f: real, radius: real, panel: PanelId) returns (edges: seq<seq<EdgeSensor>>, x: Six)
    requires 0.0 < f <= 1.0 && radius > 0.0
    ensures forall e :: 0 <= e < |edges| ==> Checkable(edges[e])
    ensures Safe(edges, panel, radius, Zeros(6)) && Safe(edges, panel, radius, CheckedMotion(x, f))
    ensures Safe(edges, panel, radius, ExecutedMotion(x, f)) <==> f == 1.0
  {
    hide *;
    MotionsOfFirst(f);
    x := FIRST_ACTUATOR;
    var checked, executed := CheckedMotion(x, f), ExecutedMotion(x, f);
    var g := GainFor(radius, f, checked[0]);
    edges := [FollowingEdge(g)];
    FollowingEdgeCheckable(g);
    FollowingEdgeSafe(g, panel, radius, Zeros(6));
    FollowingEdgeSafe(g, panel, radius, checked);
    FollowingEdgeSafe(g, panel, radius, executed);
  }

  /** A gain `g` with which a motion of length `t` stays within the radius. */
  predicate Within(g: real, t: real, radius: real) { g * t <= radius }

  lemma FollowingEdgeCheckable(g: real)
    ensures Checkable(FollowingEdge(g))
  {
    AllUsable(FollowingEdge(g));
  }

  function FollowingEdge(g: real): seq<EdgeSensor> {
    [FollowingSensor(g), StillSensor(), StillSensor()]
  }

  lemma MotionsOfFirst(f: real)
    ensures ExecutedMotion(FIRST_ACTUATOR, f)[0] == f
    ensures CheckedMotion(FIRST_ACTUATOR, f)[0] == f * f
    ensures |Zeros(6)| == 6 && Zeros(6)[0] == 0.0
  {
    assert f * 1.0 == f && f * (f * 1.0) == f * f;
  }

  lemma FollowingEdgeSafe(g: real, panel: PanelId, radius: real, delta: Six)
    requires g > 0.0 && radius > 0.0 && delta[0] >= 0.0
    ensures Safe([FollowingEdge(g)], panel, radius, delta) <==> Within(g, delta[0], radius)
  {
    var edge := FollowingEdge(g);
    AllUsable(edge);
    FollowingInRange(g, panel, radius, delta[0], delta);
    StillInRange(panel, radius, delta);
    hide InRange, FollowingSensor, StillSensor, Within;
    var edges := [edge];
    assert edges[0] == edge && edge[0] == FollowingSensor(g);
    assert EdgeSafe(edge, panel, radius, delta) <==> InRange(FollowingSensor(g), panel, delta, radius);
  }

  lemma Quotient(a: real, b: real) returns (q: real)
    requires a > 0.0 && b > 0.0
    ensures q > 0.0 && q * b == a
  {
    q := a / b;
    if q <= 0.0 { ProductNonNegative(-q, b); }
  }

  lemma Regroup(g: real, f: real, h: real)
    requires g * f == h
    ensures g * (f * f) == h * f
  {
    assert g * (f * f) == g * f * f;
  }

  lemma ShrinksUnlessWhole(h: real, f: real, radius: real)
    requires h > 0.0 && 0.0 < f <= 1.0 && h * f == radius
    ensures h <= radius <==> f == 1.0
  {
    if f < 1.0 { ProductPositive(h, 1.0 - f); }
  }

  /** A gain at which the checked motion just reaches the radius. */
  lemma GainFor(radius: real, f: real, t: real) returns (g: real)
    requires 0.0 < f <= 1.0 && radius > 0.0 && t == f * f
    ensures g > 0.0 && t > 0.0
    ensures Within(g, 0.0, radius) && Within(g, t, radius)
    ensures Within(g, f, radius) <==> f == 1.0
  {
    var h := Quotient(radius, f);
    g := Quotient(h, f);
    ProductPositive(f, f);
    Regroup(g, f, h);
    ShrinksUnlessWhole(h, f, radius);
  }

  lemma SquareOrder(a: real, b: real)
    requires a >= 0.0 && b >= 0.0
    ensures a * a <= b * b <==> a <= b
  {
    assert b * b - a * a == (b - a) * (b + a);
    if a <= b {
      ProductNonNegative(b - a, b + a);
    } else {
      ProductPositive(a - b, a + b);
      assert a * a - b * b == (a - b) * (a + b);
    }
  }

  lemma ProductPositive(a: real, b: real)
    requires a > 0.0 && b > 0.0
    ensures a * b > 0.0
  {
  }

  lemma FollowingInRange(g: real, panel: PanelId, radius: real, t: real, delta: Six)
    requires g > 0.0 && radius > 0.0 && t >= 0.0 && delta[0] == t
    ensures InRange(FollowingSensor(g), panel, delta, radius) <==> Within(g, t, radius)
  {
    var s := FollowingSensor(g);
    DotOfZeros(PanelResponse(s, panel)[0][1..], delta[1..]);
    DotOfZeros(PanelResponse(s, panel)[1], delta);
    assert Predicted(s, panel, delta, 0) == CENTER_X + g * t;
    assert Predicted(s, panel, delta, 1) == CENTER_Y;
    ProductNonNegative(g, t);
    SquareOrder(g * t, radius);
    hide Predicted, Dot, PanelResponse, FollowingSensor;
    LongerThan(g * t, radius);
  }

  lemma LongerThan(d: real, radius: real)
    requires d >= 0.0 && radius > 0.0
    ensures Outside(CENTER_X + d, CENTER_Y, radius) <==> d > radius
  {
    SquareOrder(d, radius);
    assert (CENTER_X + d) - CENTER_X == d;
  }

  lemma StillInRange(panel: PanelId, radius: real, delta: Six)
    requires radius > 0.0
    ensures InRange(StillSensor(), panel, delta, radius)
  {
    DotOfZeros(NoRows()[0], delta);
    DotOfZeros(NoRows()[1], delta);
  }

  /* ---------- in numbers ---------- */

  /** By how much a motion of the panel changes reading `r` of the sensor. */
  function Change(s: EdgeSensor, panel: PanelId, d: Six, r: nat): real
    requires r < 2
  {
    match s.side(panel)
    case Some(side) =>
      var row := s.response(side)[r];
      row[0] * d[0] + row[1] * d[1] + row[2] * d[2] + row[3] * d[3] + row[4] * d[4] + row[5] * d[5]
    case None => 0.0
  }

  lemma PredictedIs(s: EdgeSensor, panel: PanelId, d: Six, r: nat)
    requires r < 2
    ensures Predicted(s, panel, d, r) == s.reading[r] + Change(s, panel, d, r)
  {
    match s.side(panel) {
      case Some(side) => DotOfSix(s.response(side)[r], d);
      case None => DotOfZeros(NoRows()[r], d);
    }
    hide Dot;
  }

  predicate WithinRadius(dx: real, dy: real, radius: real) {
    radius >= 0.0 && dx * dx + dy * dy <= radius * radius
  }

  lemma NotLonger(dx: real, dy: real, radius: real)
    ensures !Longer(dx, dy, radius) <==> WithinRadius(dx, dy, radius)
  {
  }

  /** A motion is safe exactly when it leaves every sensor of every edge that has a working one within the
      radius of the centre of its camera, 160 and 120. */
  lemma SafeIff(edges: seq<seq<EdgeSensor>>, panel: PanelId, radius: real, d: Six)
    ensures Safe(edges, panel, radius, d) <==>
            forall e, i :: 0 <= e < |edges| && 0 <= i < |edges[e]|
                           && (exists k :: 0 <= k < |edges[e]| && !edges[e][k].off && !edges[e][k].fatal) ==>
              WithinRadius(edges[e][i].reading[0] + Change(edges[e][i], panel, d, 0) - 160.0,
                           edges[e][i].reading[1] + Change(edges[e][i], panel, d, 1) - 120.0, radius)
  {
    forall e, i | 0 <= e < |edges| && 0 <= i < |edges[e]|
      ensures InRange(edges[e][i], panel, d, radius) <==>
              WithinRadius(edges[e][i].reading[0] + Change(edges[e][i], panel, d, 0) - 160.0,
                           edges[e][i].reading[1] + Change(edges[e][i], panel, d, 1) - 120.0, radius)
    {
      InRangeIff(edges[e][i], panel, d, radius);
    }
    forall e | 0 <= e < |edges|
      ensures Usable(edges[e]) != [] <==> exists k :: 0 <= k < |edges[e]| && !edges[e][k].off && !edges[e][k].fatal
    {
      SomeUsable(edges[e]);
    }
    hide InRange, WithinRadius, Change, Usable;
  }

  lemma InRangeIff(s: EdgeSensor, panel: PanelId, d: Six, radius: real)
    ensures InRange(s, panel, d, radius) <==>
            WithinRadius(s.reading[0] + Change(s, panel, d, 0) - 160.0, s.reading[1] + Change(s, panel, d, 1) - 120.0, radius)
  {
    PredictedIs(s, panel, d, 0);
    PredictedIs(s, panel, d, 1);
    hide Predicted, Change, Longer, WithinRadius;
    NotLonger(Predicted(s, panel, d, 0) - 160.0, Predicted(s, panel, d, 1) - 120.0, radius);
  }

  lemma SomeUsable(edge: seq<EdgeSensor>)
    ensures Usable(edge) != [] <==> exists k :: 0 <= k < |edge| && !edge[k].off && !edge[k].fatal
  {
    UsableCount(edge);
    hide Usable;
    if k :| 0 <= k < |edge| && !edge[k].off && !edge[k].fatal {
      assert k in WorkingBelow(edge, |edge|);
    }
    if |WorkingBelow(edge, |edge|)| > 0 {
      var k :| k in WorkingBelow(edge, |edge|);
    }
  }
}
