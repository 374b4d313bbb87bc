/** Which motion the six coordinates of a mirror ask for, and where a panel's frame sits, in
    coordinates. */
module MirrorMotion {
  import opened AlignPlan
  import opened Basics
  import opened LinearAlgebra
  import opened PanelFrames

  /* ---------- one rotation ---------- */

  lemma AboutX(a: Angle, v: V3)
    ensures Apply(Rotation(0, a), v) == V3(v.x, a.cos * v.y - a.sin * v.z, a.sin * v.y + a.cos * v.z)
  {
  }

  lemma AboutY(a: Angle, v: V3)
    ensures Apply(Rotation(1, a), v) == V3(a.cos * v.x + a.sin * v.z, v.y, a.cos * v.z - a.sin * v.x)
  {
  }

  lemma AboutZ(a: Angle, v: V3)
    ensures Apply(Rotation(2, a), v) == V3(a.cos * v.x - a.sin * v.y, a.sin * v.x + a.cos * v.y, v.z)
  {
  }

  lemma NoTurn(axis: nat, v: V3)
    requires axis < 3
    ensures Apply(Rotation(axis, CosSin(1.0, 0.0)), v) == v
  {
    hide Apply, Rotation;
    AboutX(CosSin(1.0, 0.0), v);
    AboutY(CosSin(1.0, 0.0), v);
    AboutZ(CosSin(1.0, 0.0), v);
  }

  lemma OriginStays(axis: nat, a: Angle)
    requires axis < 3
    ensures Apply(Rotation(axis, a), ORIGIN) == ORIGIN
  {
    hide Apply, Rotation;
    AboutX(a, ORIGIN);
    AboutY(a, ORIGIN);
    AboutZ(a, ORIGIN);
  }

  lemma PlusNothing(v: V3)
    ensures Plus(v, V3(0.0, 0.0, 0.0)) == v
  {
  }

  lemma PlusParts(v: V3, x: real, y: real, z: real)
    ensures Plus(v, V3(x, y, z)) == V3(v.x + x, v.y + y, v.z + z)
  {
  }

  /* ---------- the six coordinates ---------- */

  /** The motion, step by step. */
  lemma Steps(g: Geometry, v: V3, x: real, y: real, z: real, rx: real, ry: real, rz: real)
    ensures MoveInCurrent(g, v, [x, y, z, rx, ry, rz]) ==
            Plus(Apply(Rotation(1, g.angle(ry)), Apply(Rotation(0, g.angle(rx)), Apply(Rotation(2, g.angle(rz)), v))), V3(x, y, z))
  {
    hide Apply, Rotation, Plus;
  }

  /** Entries that are not given are zero. */
  lemma MissingAreZero(g: Geometry, v: V3, tr: seq<real>)
    requires |tr| < 6
    ensures MoveInCurrent(g, v, tr) == MoveInCurrent(g, v, tr + [0.0])
  {
    hide Apply, Rotation, Plus;
    forall i: nat ensures Coordinate(tr, i) == Coordinate(tr + [0.0], i) {
    }
  }

  /** The first three coordinates are a translation along x, y and z, wherever the rotations leave it. */
  lemma OriginIsTranslated(g: Geometry, x: real, y: real, z: real, rx: real, ry: real, rz: real)
    ensures MoveInCurrent(g, ORIGIN, [x, y, z, rx, ry, rz]) == V3(x, y, z)
  {
    Steps(g, ORIGIN, x, y, z, rx, ry, rz);
    OriginStays(2, g.angle(rz));
    OriginStays(0, g.angle(rx));
    OriginStays(1, g.angle(ry));
    PlusParts(ORIGIN, x, y, z);
    hide Apply, Rotation, MoveInCurrent, Plus;
  }

  lemma OnlyTranslated(g: Geometry, v: V3, x: real, y: real, z: real)
    requires g.angle(0.0) == CosSin(1.0, 0.0)
    ensures MoveInCurrent(g, v, [x, y, z, 0.0, 0.0, 0.0]) == Plus(v, V3(x, y, z))
  {
    Steps(g, v, x, y, z, 0.0, 0.0, 0.0);
    hide *;
    NoTurn(2, v);
    NoTurn(0, v);
    NoTurn(1, v);
  }

  lemma OnlyAboutX(g: Geometry, v: V3, rx: real)
    requires g.angle(0.0) == CosSin(1.0, 0.0)
    ensures MoveInCurrent(g, v, [0.0, 0.0, 0.0, rx, 0.0, 0.0]) == Apply(Rotation(0, g.angle(rx)), v)
  {
    Steps(g, v, 0.0, 0.0, 0.0, rx, 0.0, 0.0);
    hide *;
    NoTurn(2, v);
    NoTurn(1, Apply(Rotation(0, g.angle(rx)), v));
    PlusNothing(Apply(Rotation(0, g.angle(rx)), v));
  }

  lemma OnlyAboutY(g: Geometry, v: V3, ry: real)
    requires g.angle(0.0) == CosSin(1.0, 0.0)
    ensures MoveInCurrent(g, v, [0.0, 0.0, 0.0, 0.0, ry, 0.0]) == Apply(Rotation(1, g.angle(ry)), v)
  {
    Steps(g, v, 0.0, 0.0, 0.0, 0.0, ry, 0.0);
    hide *;
    NoTurn(2, v);
    NoTurn(0, v);
    PlusNothing(Apply(Rotation(1, g.angle(ry)), v));
  }

  lemma OnlyAboutZ(g: Geometry, v: V3, rz: real)
    requires g.angle(0.0) == CosSin(1.0, 0.0)
    ensures MoveInCurrent(g, v, [0.0, 0.0, 0.0, 0.0, 0.0, rz]) == Apply(Rotation(2, g.angle(rz)), v)
  {
    Steps(g, v, 0.0, 0.0, 0.0, 0.0, 0.0, rz);
    hide *;
    NoTurn(0, Apply(Rotation(2, g.angle(rz)), v));
    NoTurn(1, Apply(Rotation(2, g.angle(rz)), v));
    PlusNothing(Apply(Rotation(2, g.angle(rz)), v));
  }

  /** The first three coordinates alone translate along x, y and z. */
  lemma FirstThreeTranslate(g: Geometry, v: V3, x: real, y: real, z: real)
    requires g.angle(0.0) == CosSin(1.0, 0.0)
    ensures MoveInCurrent(g, v, [x, y, z, 0.0, 0.0, 0.0]) == V3(v.x + x, v.y + y, v.z + z)
  {
    hide *;
    OnlyTranslated(g, v, x, y, z);
    PlusParts(v, x, y, z);
  }

  /** The fourth alone turns about x, from y to z. */
  lemma FourthTurnsAboutX(g: Geometry, v: V3, rx: real)
    requires g.angle(0.0) == CosSin(1.0, 0.0)
    ensures var c, s := g.angle(rx).cos, g.angle(rx).sin;
            MoveInCurrent(g, v, [0.0, 0.0, 0.0, rx, 0.0, 0.0]) == V3(v.x, c * v.y - s * v.z, s * v.y + c * v.z)
  {
    hide *;
    OnlyAboutX(g, v, rx);
    AboutX(g.angle(rx), v);
  }

  /** The fifth alone turns about y, from z to x. */
  lemma FifthTurnsAboutY(g: Geometry, v: V3, ry: real)
    requires g.angle(0.0) == CosSin(1.0, 0.0)
    ensures var c, s := g.angle(ry).cos, g.angle(ry).sin;
            MoveInCurrent(g, v, [0.0, 0.0, 0.0, 0.0, ry, 0.0]) == V3(c * v.x + s * v.z, v.y, c * v.z - s * v.x)
  {
    hide *;
    OnlyAboutY(g, v, ry);
    AboutY(g.angle(ry), v);
  }

  /** The sixth alone turns about z, from x to y. */
  lemma SixthTurnsAboutZ(g: Geometry, v: V3, rz: real)
    requires g.angle(0.0) == CosSin(1.0, 0.0)
    ensures var c, s := g.angle(rz).cos, g.angle(rz).sin;
            MoveInCurrent(g, v, [0.0, 0.0, 0.0, 0.0, 0.0, rz]) == V3(c * v.x - s * v.y, s * v.x + c * v.y, v.z)
  {
    hide *;
    OnlyAboutZ(g, v, rz);
    AboutZ(g.angle(rz), v);
  }

  /** Every motion is the turn about z, then the turn about x, then the turn about y, then the translation. */
  lemma MotionIsComposed(g: Geometry, v: V3, x: real, y: real, z: real, rx: real, ry: real, rz: real)
    requires g.angle(0.0) == CosSin(1.0, 0.0)
    ensures var turnedZ := MoveInCurrent(g, v, [0.0, 0.0, 0.0, 0.0, 0.0, rz]);
            var turnedX := MoveInCurrent(g, turnedZ, [0.0, 0.0, 0.0, rx, 0.0, 0.0]);
            var turnedY := MoveInCurrent(g, turnedX, [0.0, 0.0, 0.0, 0.0, ry, 0.0]);
            MoveInCurrent(g, v, [x, y, z, rx, ry, rz]) == MoveInCurrent(g, turnedY, [x, y, z, 0.0, 0.0, 0.0])
  {
    hide *;
    var turnedZ := Apply(Rotation(2, g.angle(rz)), v);
    var turnedX := Apply(Rotation(0, g.angle(rx)), turnedZ);
    var turnedY := Apply(Rotation(1, g.angle(ry)), turnedX);
    Steps(g, v, x, y, z, rx, ry, rz);
    OnlyAboutZ(g, v, rz);
    OnlyAboutX(g, turnedZ, rx);
    OnlyAboutY(g, turnedX, ry);
    OnlyTranslated(g, turnedY, x, y, z);
  }

  /* ---------- where a panel sits ---------- */

  predicate IsSum(t: real, v: V3, p: real, q: real, r: real) { t == v.x * p + v.y * q + v.z * r }

  lemma ApplyIs(m: M3, v: V3)
    ensures IsSum(Apply(m, v).x, v, m.c0.x, m.c1.x, m.c2.x)
    ensures IsSum(Apply(m, v).y, v, m.c0.y, m.c1.y, m.c2.y)
    ensures IsSum(Apply(m, v).z, v, m.c0.z, m.c1.z, m.c2.z)
  {
  }

  lemma SumsEqual(t: real, t': real, v: V3, p: real, q: real, r: real)
    requires IsSum(t, v, p, q, r) && IsSum(t', v, p, q, r)
    ensures t == t'
  {
  }

  lemma ApplyComposed(a: M3, b: M3, v: V3)
    ensures Apply(Compose(a, b), v) == Apply(a, Apply(b, v))
  {
    hide Apply, IsSum;
    ApplyIs(b, v);
    ApplyIs(Compose(a, b), v);
    ApplyIs(a, Apply(b, v));
    ApplyIs(a, b.c0);
    ApplyIs(a, b.c1);
    ApplyIs(a, b.c2);
    var u, e0, e1, e2, t, t' := Apply(b, v), Apply(a, b.c0), Apply(a, b.c1), Apply(a, b.c2), Apply(Compose(a, b), v), Apply(a, Apply(b, v));
    SumOfSums(a.c0.x, a.c1.x, a.c2.x, b, v, e0.x, e1.x, e2.x, u, t.x);
    SumOfSums(a.c0.y, a.c1.y, a.c2.y, b, v, e0.y, e1.y, e2.y, u, t.y);
    SumOfSums(a.c0.z, a.c1.z, a.c2.z, b, v, e0.z, e1.z, e2.z, u, t.z);
    SumsEqual(t.x, t'.x, u, a.c0.x, a.c1.x, a.c2.x);
    SumsEqual(t.y, t'.y, u, a.c0.y, a.c1.y, a.c2.y);
    SumsEqual(t.z, t'.z, u, a.c0.z, a.c1.z, a.c2.z);
  }

  lemma SumOfSums(p: real, q: real, r: real, b: M3, v: V3, e0: real, e1: real, e2: real, u: V3, t: real)
    requires IsSum(e0, b.c0, p, q, r) && IsSum(e1, b.c1, p, q, r) && IsSum(e2, b.c2, p, q, r)
    requires IsSum(u.x, v, b.c0.x, b.c1.x, b.c2.x) && IsSum(u.y, v, b.c0.y, b.c1.y, b.c2.y) && IsSum(u.z, v, b.c0.z, b.c1.z, b.c2.z)
    requires IsSum(t, v, e0, e1, e2)
    ensures IsSum(t, u, p, q, r)
  {
    assert v.x * e0 == v.x * b.c0.x * p + v.x * b.c0.y * q + v.x * b.c0.z * r;
    assert v.y * e1 == v.y * b.c1.x * p + v.y * b.c1.y * q + v.y * b.c1.z * r;
    assert v.z * e2 == v.z * b.c2.x * p + v.z * b.c2.y * q + v.z * b.c2.z * r;
    assert u.x * p == v.x * b.c0.x * p + v.y * b.c1.x * p + v.z * b.c2.x * p;
    assert u.y * q == v.x * b.c0.y * q + v.y * b.c1.y * q + v.z * b.c2.y * q;
    assert u.z * r == v.x * b.c0.z * r + v.y * b.c1.z * r + v.z * b.c2.z * r;
  }

  lemma TurnsTogether(a: Angle, v: V3, w: V3)
    ensures Plus(Apply(Rotation(2, a), v), Apply(Rotation(2, a), w)) == Apply(Rotation(2, a), Plus(v, w))
  {
    hide Apply, Rotation;
    AboutZ(a, v);
    AboutZ(a, w);
    AboutZ(a, Plus(v, w));
  }

  /** A point of a panel is found in the telescope frame by taking it, in the frame and from the origin of the
      ideal panel of its ring, about the z axis by the azimuth of the panel, from x to y. */
  lemma PanelIsTurnedIdeal(g: Geometry, p: PanelId, v: V3)
    ensures var a := g.azimuth(p);
            var u := Plus(Apply(g.frame(g.ring(p)), v), g.origin(g.ring(p)));
            ToTelescope(g, p, v) == V3(a.cos * u.x - a.sin * u.y, a.sin * u.x + a.cos * u.y, u.z)
  {
    hide Apply, Rotation, Plus, Compose;
    var r, f := Rotation(2, g.azimuth(p)), g.frame(g.ring(p));
    ApplyComposed(r, f, v);
    TurnsTogether(g.azimuth(p), Apply(f, v), g.origin(g.ring(p)));
    AboutZ(g.azimuth(p), Plus(Apply(f, v), g.origin(g.ring(p))));
  }

  /* ---------- the frame of a panel ---------- */

  /** The third column of the frame built is the surface normal or its opposite, whichever points to the
      reflecting side. */
  lemma NormalFacesReflection(norm: V3, dir: V3)
    ensures var n := Facing(norm, dir);
            Inner(n, dir) >= 0.0 && (n == norm || n == V3(-norm.x, -norm.y, -norm.z))
  {
    hide Inner, Times;
    InnerTimes(-1.0, norm, dir);
    Opposite(norm);
  }

  lemma Opposite(v: V3)
    ensures Times(-1.0, v) == V3(-v.x, -v.y, -v.z)
  {
  }

  lemma LessMultiple(a: V3, k: real, n: V3)
    ensures Minus(a, Times(k, n)) == V3(a.x - k * n.x, a.y - k * n.y, a.z - k * n.z)
  {
    TimesParts(k, n);
    hide Times;
    var t := Times(k, n);
    assert Minus(a, t) == V3(a.x - t.x, a.y - t.y, a.z - t.z);
  }

  lemma TimesParts(k: real, n: V3)
    ensures Times(k, n).x == k * n.x && Times(k, n).y == k * n.y && Times(k, n).z == k * n.z
  {
  }

  lemma PartsOfProjection(axis: V3, n: V3, k: real)
    requires Inner(axis, n) == k
    ensures Project(axis, n) == V3(axis.x - k * n.x, axis.y - k * n.y, axis.z - k * n.z)
  {
    hide Inner, Minus, Times;
    LessMultiple(axis, k, n);
  }

  lemma PartsOfNormalized(v: V3, length: real)
    ensures Normalized(v, length) ==
            if length > 0.0 then V3(1.0 / length * v.x, 1.0 / length * v.y, 1.0 / length * v.z) else v
  {
  }

  lemma ForwardPart(part: real, length: real, square: real)
    requires length >= 0.0 && length * length == square == part
    ensures (if length > 0.0 then 1.0 / length * part else part) == length
  {
    Shortened(square, length);
  }

  predicate IsSquare(square: real, length: real) { length >= 0.0 && length * length == square }

  lemma LengthSquared(length: real, v: V3)
    ensures IsLength(length, v) <==> IsSquare(Inner(v, v), length)
  {
    hide Inner;
  }

  lemma FirstPart(n: V3, length: V3 -> real)
    requires Inner(n, n) == 1.0 && IsLength(length(Project(E0, n)), Project(E0, n))
    ensures FrameOf(n, length).c0.x == length(Project(E0, n))
  {
    hide Inner, Project, Normalized, IsLength, IsSquare;
    var p := Project(E0, n);
    ProjectedAxes(n);
    InnerOfUnits(n);
    PartsOfProjection(E0, n, n.x);
    PartsOfNormalized(p, length(p));
    LengthSquared(length(p), p);
    ForwardSquare(p.x, length(p), Inner(p, p));
  }

  lemma SecondPart(n: V3, length: V3 -> real)
    requires Inner(n, n) == 1.0 && IsLength(length(Project(E1, n)), Project(E1, n))
    ensures FrameOf(n, length).c1.y == length(Project(E1, n))
  {
    hide Inner, Project, Normalized, IsLength, IsSquare;
    var q := Project(E1, n);
    ProjectedAxes(n);
    InnerOfUnits(n);
    PartsOfProjection(E1, n, n.y);
    PartsOfNormalized(q, length(q));
    LengthSquared(length(q), q);
    ForwardSquare(q.y, length(q), Inner(q, q));
  }

  lemma ForwardSquare(part: real, length: real, square: real)
    requires IsSquare(square, length) && square == part
    ensures (if length > 0.0 then 1.0 / length * part else part) == length
  {
    ForwardPart(part, length, square);
  }

  lemma Shortened(square: real, length: real)
    requires length >= 0.0 && length * length == square
    ensures length > 0.0 ==> 1.0 / length * square == length
    ensures length == 0.0 ==> square == 0.0
  {
  }

  /** The first two columns are the x and y axes pushed into the tangent plane: perpendicular to the normal, and
      never pointing backward along their own axes. */
  lemma AxesStayForward(n: V3, length: V3 -> real)
    requires Inner(n, n) == 1.0
    requires IsLength(length(Project(E0, n)), Project(E0, n)) && IsLength(length(Project(E1, n)), Project(E1, n))
    ensures var frame := FrameOf(n, length);
            && frame.c2 == n && Inner(frame.c0, n) == 0.0 && Inner(frame.c1, n) == 0.0
            && frame.c0.x >= 0.0 && frame.c1.y >= 0.0
            && (frame.c0.x == 0.0 <==> n.x * n.x == 1.0) && (frame.c1.y == 0.0 <==> n.y * n.y == 1.0)
  {
    var p, q := Project(E0, n), Project(E1, n);
    hide Inner, Project, Normalized;
    FirstPart(n, length);
    SecondPart(n, length);
    ProjectedAxes(n);
    NormalizedProducts(p, n, length(p));
    NormalizedProducts(q, n, length(q));
    Shortened(Inner(p, p), length(p));
    Shortened(Inner(q, q), length(q));
    if length(p) > 0.0 { PositiveProduct(length(p), length(p)); }
    if length(q) > 0.0 { PositiveProduct(length(q), length(q)); }
  }

  /* ---------- the panels that move ---------- */

  /** The panels to move are the selected ones outside ring 0, and they keep their order. */
  lemma {:induction false} MovableAre(g: Geometry, selected: seq<PanelId>)
    ensures forall p :: p in Movable(g, selected) <==> p in selected && g.ring(p) != 0
    ensures (forall i :: 0 <= i < |selected| ==> g.ring(selected[i]) != 0) ==> Movable(g, selected) == selected
  {
    if selected != [] {
      var n := |selected| - 1;
      MovableAre(g, selected[..n]);
      assert selected == selected[..n] + [selected[n]];
    }
  }
}
