/** Telescope and panel reference frames, and moving a whole mirror: pads are taken to the telescope
    frame, moved there, and taken back. */
module PanelFrames {
  import opened AlignPlan
  import opened Basics
  import opened LinearAlgebra

  datatype V3 = V3(x: real, y: real, z: real)

  /** A matrix, as its three columns. */
  datatype M3 = M3(c0: V3, c1: V3, c2: V3)

  const ORIGIN: V3 := V3(0.0, 0.0, 0.0)

  function Plus(a: V3, b: V3): V3 { V3(a.x + b.x, a.y + b.y, a.z + b.z) }

  function Minus(a: V3, b: V3): V3 { V3(a.x - b.x, a.y - b.y, a.z - b.z) }

  function Times(k: real, a: V3): V3 { V3(k * a.x, k * a.y, k * a.z) }

  function Inner(a: V3, b: V3): real { a.x * b.x + a.y * b.y + a.z * b.z }

  function Apply(m: M3, v: V3): V3 { Plus(Plus(Times(v.x, m.c0), Times(v.y, m.c1)), Times(v.z, m.c2)) }

  function ApplyTransposed(m: M3, v: V3): V3 { V3(Inner(m.c0, v), Inner(m.c1, v), Inner(m.c2, v)) }

  function Compose(a: M3, b: M3): M3 { M3(Apply(a, b.c0), Apply(a, b.c1), Apply(a, b.c2)) }

  predicate Orthonormal(m: M3) {
    && Inner(m.c0, m.c0) == 1.0 && Inner(m.c1, m.c1) == 1.0 && Inner(m.c2, m.c2) == 1.0
    && Inner(m.c0, m.c1) == 0.0 && Inner(m.c0, m.c2) == 0.0 && Inner(m.c1, m.c2) == 0.0
  }

  function DistanceSquared(a: V3, b: V3): real { Inner(Minus(a, b), Minus(a, b)) }

  /* ---------- rotations and frames ---------- */

  datatype CosSin = CosSin(cos: real, sin: real)

  /** An angle, as the point it selects on the unit circle. */
  type Angle = a: CosSin | a.cos * a.cos + a.sin * a.sin == 1.0 witness CosSin(1.0, 0.0)

  function Rotation(axis: nat, a: Angle): M3
    requires axis < 3
  {
    if axis == 0 then M3(V3(1.0, 0.0, 0.0), V3(0.0, a.cos, a.sin), V3(0.0, -a.sin, a.cos))
    else if axis == 1 then M3(V3(a.cos, 0.0, -a.sin), V3(0.0, 1.0, 0.0), V3(a.sin, 0.0, a.cos))
    else M3(V3(a.cos, a.sin, 0.0), V3(-a.sin, a.cos, 0.0), V3(0.0, 0.0, 1.0))
  }

  /** What fixes the frames of a mirror: frame and origin of the ideal panel of each ring, where each
      panel sits, and cosine and sine. */
  datatype Geometry = Geometry(
    frame: nat -> M3,
    origin: nat -> V3,
    ring: PanelId -> nat,
    azimuth: PanelId -> Angle,
    angle: real -> Angle)

  function PanelFrame(g: Geometry, p: PanelId): M3 {
    Compose(Rotation(2, g.azimuth(p)), g.frame(g.ring(p)))
  }

  function PanelOrigin(g: Geometry, p: PanelId): V3 {
    Apply(Rotation(2, g.azimuth(p)), g.origin(g.ring(p)))
  }

  function ToPanel(g: Geometry, p: PanelId, v: V3): V3 {
    ApplyTransposed(PanelFrame(g, p), Minus(v, PanelOrigin(g, p)))
  }

  function ToTelescope(g: Geometry, p: PanelId, v: V3): V3 {
    Plus(Apply(PanelFrame(g, p), v), PanelOrigin(g, p))
  }

  /** Translation, then the angles about x, y and z; entries not given are zero. */
  function Coordinate(tr: seq<real>, i: nat): real {
    if i < |tr| then tr[i] else 0.0
  }

  function MoveInCurrent(g: Geometry, v: V3, tr: seq<real>): V3 {
    var aboutZ := Apply(Rotation(2, g.angle(Coordinate(tr, 5))), v);
    var aboutX := Apply(Rotation(0, g.angle(Coordinate(tr, 3))), aboutZ);
    var aboutY := Apply(Rotation(1, g.angle(Coordinate(tr, 4))), aboutX);
    Plus(aboutY, V3(Coordinate(tr, 0), Coordinate(tr, 1), Coordinate(tr, 2)))
  }

  /* ---------- linear algebra in space ---------- */

  lemma Adjoint(m: M3, v: V3, w: V3)
    ensures Inner(Apply(m, v), w) == Inner(v, ApplyTransposed(m, w))
  {
    InnerSum(Times(v.x, m.c0), Times(v.y, m.c1), Times(v.z, m.c2), w);
    InnerTimes(v.x, m.c0, w);
    InnerTimes(v.y, m.c1, w);
    InnerTimes(v.z, m.c2, w);
    hide Inner, Times, Plus;
    InnerIs(v, ApplyTransposed(m, w));
  }

  lemma InnerIs(a: V3, b: V3)
    ensures Inner(a, b) == a.x * b.x + a.y * b.y + a.z * b.z
  {
  }

  lemma InnerSum(a: V3, b: V3, c: V3, w: V3)
    ensures Inner(Plus(Plus(a, b), c), w) == Inner(a, w) + Inner(b, w) + Inner(c, w)
  {
  }

  lemma InnerTimes(k: real, a: V3, w: V3)
    ensures Inner(Times(k, a), w) == k * Inner(a, w)
  {
  }

  lemma InnerSymmetric(a: V3, b: V3)
    ensures Inner(a, b) == Inner(b, a)
  {
  }

  /** Orthonormal columns: the transposed matrix undoes the matrix. */
  lemma TransposedUndoes(m: M3, v: V3)
    requires Orthonormal(m)
    ensures ApplyTransposed(m, Apply(m, v)) == v
  {
    Adjoint(m, v, m.c0);
    Adjoint(m, v, m.c1);
    Adjoint(m, v, m.c2);
    InnerSymmetric(m.c0, Apply(m, v));
    InnerSymmetric(m.c1, Apply(m, v));
    InnerSymmetric(m.c2, Apply(m, v));
    InnerSymmetric(m.c0, m.c1);
    InnerSymmetric(m.c0, m.c2);
    InnerSymmetric(m.c1, m.c2);
    hide Apply, Inner;
    InnerIs(v, ApplyTransposed(m, m.c0));
    InnerIs(v, ApplyTransposed(m, m.c1));
    InnerIs(v, ApplyTransposed(m, m.c2));
  }

  lemma ApplyKeepsInner(m: M3, v: V3, w: V3)
    requires Orthonormal(m)
    ensures Inner(Apply(m, v), Apply(m, w)) == Inner(v, w)
  {
    Adjoint(m, v, Apply(m, w));
    TransposedUndoes(m, w);
  }

  lemma ApplyMinus(m: M3, v: V3, w: V3)
    ensures Apply(m, Minus(v, w)) == Minus(Apply(m, v), Apply(m, w))
  {
    LinearEntry(v.x, v.y, v.z, w.x, w.y, w.z, m.c0.x, m.c1.x, m.c2.x);
    LinearEntry(v.x, v.y, v.z, w.x, w.y, w.z, m.c0.y, m.c1.y, m.c2.y);
    LinearEntry(v.x, v.y, v.z, w.x, w.y, w.z, m.c0.z, m.c1.z, m.c2.z);
  }

  lemma LinearEntry(a: real, b: real, c: real, d: real, e: real, f: real, p: real, q: real, r: real)
    ensures (a - d) * p + (b - e) * q + (c - f) * r == (a * p + b * q + c * r) - (d * p + e * q + f * r)
  {
  }

  lemma ApplyKeepsDistance(m: M3, v: V3, w: V3)
    requires Orthonormal(m)
    ensures DistanceSquared(Apply(m, v), Apply(m, w)) == DistanceSquared(v, w)
  {
    ApplyMinus(m, v, w);
    ApplyKeepsInner(m, Minus(v, w), Minus(v, w));
  }

  lemma PlusKeepsDistance(v: V3, w: V3, t: V3)
    ensures DistanceSquared(Plus(v, t), Plus(w, t)) == DistanceSquared(v, w)
  {
    assert Minus(Plus(v, t), Plus(w, t)) == Minus(v, w);
  }

  lemma ComposeOrthonormal(a: M3, b: M3)
    requires Orthonormal(a)
    ensures Orthonormal(Compose(a, b)) <==> Orthonormal(b)
  {
    ApplyKeepsInner(a, b.c0, b.c0);
    ApplyKeepsInner(a, b.c1, b.c1);
    ApplyKeepsInner(a, b.c2, b.c2);
    ApplyKeepsInner(a, b.c0, b.c1);
    ApplyKeepsInner(a, b.c0, b.c2);
    ApplyKeepsInner(a, b.c1, b.c2);
    hide Apply, Inner;
  }

  lemma RotationOrthonormal(axis: nat, a: Angle)
    requires axis < 3
    ensures Orthonormal(Rotation(axis, a))
  {
    var r := Rotation(axis, a);
    var c, s := a.cos, a.sin;
    assert c * c + s * s == 1.0;
    assert c * s + -s * c == 0.0;
    assert -s * -s == s * s;
    if axis == 0 {
      assert r == M3(V3(1.0, 0.0, 0.0), V3(0.0, c, s), V3(0.0, -s, c));
    } else if axis == 1 {
      assert r == M3(V3(c, 0.0, -s), V3(0.0, 1.0, 0.0), V3(s, 0.0, c));
    } else {
      assert r == M3(V3(c, s, 0.0), V3(-s, c, 0.0), V3(0.0, 0.0, 1.0));
    }
  }

  /* ---------- orthonormal columns undo from both sides ---------- */

  function Cross(a: V3, b: V3): V3 {
    V3(a.y * b.z - a.z * b.y, a.z * b.x - a.x * b.z, a.x * b.y - a.y * b.x)
  }

  lemma Lagrange(a: V3, b: V3)
    ensures Inner(Cross(a, b), Cross(a, b)) == Inner(a, a) * Inner(b, b) - Inner(a, b) * Inner(a, b)
  {
  }

  /** Cramer's rule for the coefficients of `w` in the basis `a`, `b`, `c`. */
  lemma Expansion(a: V3, b: V3, c: V3, w: V3)
    ensures Times(Inner(Cross(a, b), c), w) ==
            Plus(Plus(Times(Inner(w, a), Cross(b, c)), Times(Inner(w, b), Cross(c, a))), Times(Inner(w, c), Cross(a, b)))
  {
    hide *;
    ExpansionX(a, b, c, w);
    ExpansionY(a, b, c, w);
    ExpansionZ(a, b, c, w);
    SumOfMultiples(Inner(Cross(a, b), c), w, Inner(w, a), Cross(b, c), Inner(w, b), Cross(c, a), Inner(w, c), Cross(a, b));
  }

  lemma ExpansionY(a: V3, b: V3, c: V3, w: V3)
    ensures Inner(Cross(a, b), c) * w.y == Inner(w, a) * Cross(b, c).y + Inner(w, b) * Cross(c, a).y + Inner(w, c) * Cross(a, b).y
  {
    hide Inner, Cross;
    ExpansionX(Turn(a), Turn(b), Turn(c), Turn(w));
    TurnAll(a, b, c, w);
  }

  lemma ExpansionZ(a: V3, b: V3, c: V3, w: V3)
    ensures Inner(Cross(a, b), c) * w.z == Inner(w, a) * Cross(b, c).z + Inner(w, b) * Cross(c, a).z + Inner(w, c) * Cross(a, b).z
  {
    hide Inner, Cross;
    ExpansionY(Turn(a), Turn(b), Turn(c), Turn(w));
    TurnAll(a, b, c, w);
  }

  lemma SumOfMultiples(d: real, w: V3, i: real, u: V3, j: real, v: V3, k: real, t: V3)
    requires d * w.x == i * u.x + j * v.x + k * t.x
    requires d * w.y == i * u.y + j * v.y + k * t.y
    requires d * w.z == i * u.z + j * v.z + k * t.z
    ensures Times(d, w) == Plus(Plus(Times(i, u), Times(j, v)), Times(k, t))
  {
  }

  function Turn(a: V3): V3 { V3(a.y, a.z, a.x) }

  lemma TurnAll(a: V3, b: V3, c: V3, w: V3)
    ensures Inner(Turn(w), Turn(a)) == Inner(w, a) && Inner(Turn(w), Turn(b)) == Inner(w, b) && Inner(Turn(w), Turn(c)) == Inner(w, c)
    ensures Cross(Turn(a), Turn(b)) == Turn(Cross(a, b)) && Cross(Turn(b), Turn(c)) == Turn(Cross(b, c))
    ensures Cross(Turn(c), Turn(a)) == Turn(Cross(c, a))
    ensures Inner(Cross(Turn(a), Turn(b)), Turn(c)) == Inner(Cross(a, b), c)
  {
    TurnCross(a, b);
    TurnCross(b, c);
    TurnCross(c, a);
    hide Cross;
  }

  lemma TurnCross(a: V3, b: V3)
    ensures Cross(Turn(a), Turn(b)) == Turn(Cross(a, b))
  {
  }

  lemma CrossIs(a: V3, b: V3)
    ensures Cross(a, b) == V3(a.y * b.z - a.z * b.y, a.z * b.x - a.x * b.z, a.x * b.y - a.y * b.x)
  {
  }

  lemma ExpansionX(a: V3, b: V3, c: V3, w: V3)
    ensures Inner(Cross(a, b), c) * w.x == Inner(w, a) * Cross(b, c).x + Inner(w, b) * Cross(c, a).x + Inner(w, c) * Cross(a, b).x
  {
    hide Inner, Cross;
    var n := Cross(a, b);
    CrossIs(a, b);
    CrossIs(b, c);
    CrossIs(c, a);
    InnerIs(n, c);
    InnerIs(w, a);
    InnerIs(w, b);
    InnerIs(w, c);
    ExpansionEntry(a.x, a.y, a.z, b.x, b.y, b.z, c.x, c.y, c.z, w.x, w.y, w.z, Inner(n, c),
                   Inner(w, a), Inner(w, b), Inner(w, c), Cross(b, c).x, Cross(c, a).x, n.x, n.y, n.z);
  }

  lemma ExpansionEntry(a: real, b: real, c: real, d: real, e: real, f: real, g: real, h: real, i: real, p: real, q: real, r: real,
                       det: real, wa: real, wb: real, wc: real, u: real, v: real, nx: real, ny: real, nz: real)
    requires nx == b * f - c * e && ny == c * d - a * f && nz == a * e - b * d
    requires det == nx * g + ny * h + nz * i
    requires wa == p * a + q * b + r * c && wb == p * d + q * e + r * f && wc == p * g + q * h + r * i
    requires u == e * i - f * h && v == h * c - i * b
    ensures det * p == wa * u + wb * v + wc * nx
  {
    EqualProducts(nx, b * f - c * e, g, g);
    EqualProducts(ny, c * d - a * f, h, h);
    EqualProducts(nz, a * e - b * d, i, i);
    EqualProducts(det, (b * f - c * e) * g + (c * d - a * f) * h + (a * e - b * d) * i, p, p);
    EqualProducts(wa, p * a + q * b + r * c, u, e * i - f * h);
    EqualProducts(wb, p * d + q * e + r * f, v, h * c - i * b);
    EqualProducts(wc, p * g + q * h + r * i, nx, b * f - c * e);
  }

  lemma EqualProducts(a: real, a': real, b: real, b': real)
    requires a == a' && b == b'
    ensures a * b == a' * b'
  {
  }

  lemma TimesIs(v: V3)
    ensures Times(1.0, v) == v && Times(0.0, v) == ORIGIN && Plus(ORIGIN, v) == v
  {
  }

  /** Two orthonormal vectors and their cross product: what is perpendicular to the first two is a
      multiple of the third. */
  lemma AlongCross(a: V3, b: V3, w: V3)
    requires Inner(a, a) == 1.0 && Inner(b, b) == 1.0 && Inner(a, b) == 0.0
    requires Inner(w, a) == 0.0 && Inner(w, b) == 0.0
    ensures w == Times(Inner(w, Cross(a, b)), Cross(a, b)) && Inner(Cross(a, b), Cross(a, b)) == 1.0
  {
    hide Inner, Cross, Times, Plus;
    var u := Cross(a, b);
    Lagrange(a, b);
    Expansion(a, b, u, w);
    TimesIs(w);
    TimesIs(Cross(b, u));
    TimesIs(Cross(u, a));
    TimesIs(ORIGIN);
    TimesIs(Times(Inner(w, u), u));
  }

  lemma ProductIsZero(a: real, b: real)
    requires a * b == 0.0 && a * a == 1.0
    ensures b == 0.0
  {
    assert a * (a * b) == (a * a) * b;
  }

  lemma PerpendicularIsZero(m: M3, w: V3)
    requires Orthonormal(m) && ApplyTransposed(m, w) == ORIGIN
    ensures w == ORIGIN
  {
    var u := Cross(m.c0, m.c1);
    var j, k := Inner(w, u), Inner(m.c2, u);
    hide Inner, Cross, Times;
    InnerSymmetric(m.c0, w);
    InnerSymmetric(m.c1, w);
    InnerSymmetric(m.c0, m.c2);
    InnerSymmetric(m.c1, m.c2);
    InnerSymmetric(m.c2, u);
    AlongCross(m.c0, m.c1, w);
    AlongCross(m.c0, m.c1, m.c2);
    InnerTimes(k, u, m.c2);
    InnerTimes(k, u, w);
    InnerSymmetric(w, u);
    ProductIsZero(k, j);
    TimesIs(u);
  }

  lemma TransposedMinus(m: M3, v: V3, w: V3)
    ensures ApplyTransposed(m, Minus(v, w)) == Minus(ApplyTransposed(m, v), ApplyTransposed(m, w))
  {
    InnerMinus(m.c0, v, w);
    InnerMinus(m.c1, v, w);
    InnerMinus(m.c2, v, w);
    hide Inner;
  }

  lemma InnerMinus(a: V3, v: V3, w: V3)
    ensures Inner(a, Minus(v, w)) == Inner(a, v) - Inner(a, w)
  {
  }

  /** Orthonormal columns: the matrix undoes the transposed matrix. */
  lemma UndoesTransposed(m: M3, v: V3)
    requires Orthonormal(m)
    ensures Apply(m, ApplyTransposed(m, v)) == v
  {
    hide Apply, ApplyTransposed, Orthonormal;
    var back := Apply(m, ApplyTransposed(m, v));
    TransposedMinus(m, v, back);
    TransposedUndoes(m, ApplyTransposed(m, v));
    PerpendicularIsZero(m, Minus(v, back));
  }

  /* ---------- the frames of the panels ---------- */

  lemma PanelFrameOrthonormal(g: Geometry, p: PanelId)
    ensures Orthonormal(PanelFrame(g, p)) <==> Orthonormal(g.frame(g.ring(p)))
  {
    RotationOrthonormal(2, g.azimuth(p));
    ComposeOrthonormal(Rotation(2, g.azimuth(p)), g.frame(g.ring(p)));
  }

  lemma MinusPlus(v: V3, w: V3)
    ensures Minus(Plus(v, w), w) == v && Plus(Minus(v, w), w) == v && Minus(v, ORIGIN) == v && Plus(v, ORIGIN) == v
  {
  }

  lemma FramesUndoEachOther(g: Geometry, p: PanelId, v: V3)
    requires Orthonormal(g.frame(g.ring(p)))
    ensures ToPanel(g, p, ToTelescope(g, p, v)) == v
    ensures ToTelescope(g, p, ToPanel(g, p, v)) == v
  {
    hide Apply, ApplyTransposed, Orthonormal, PanelFrame, PanelOrigin, Plus, Minus;
    var m, o := PanelFrame(g, p), PanelOrigin(g, p);
    PanelFrameOrthonormal(g, p);
    MinusPlus(Apply(m, v), o);
    TransposedUndoes(m, v);
    UndoesTransposed(m, Minus(v, o));
    MinusPlus(v, o);
  }

  ghost predicate MutualInverses(g: Geometry, p: PanelId) {
    forall v :: ToPanel(g, p, ToTelescope(g, p, v)) == v && ToTelescope(g, p, ToPanel(g, p, v)) == v
  }

  const E0 := V3(1.0, 0.0, 0.0)
  const E1 := V3(0.0, 1.0, 0.0)
  const E2 := V3(0.0, 0.0, 1.0)

  lemma ApplyUnits(m: M3)
    ensures Apply(m, E0) == m.c0 && Apply(m, E1) == m.c1 && Apply(m, E2) == m.c2
  {
    hide Times, Plus;
    TimesIs(m.c0);
    TimesIs(m.c1);
    TimesIs(m.c2);
    MinusPlus(m.c0, ORIGIN);
    MinusPlus(m.c1, ORIGIN);
    TimesIs(ORIGIN);
  }

  lemma TransposedOfUnits(m: M3)
    requires forall v :: ApplyTransposed(m, Apply(m, v)) == v
    ensures Orthonormal(m)
  {
    ApplyUnits(m);
    assert ApplyTransposed(m, Apply(m, E0)) == E0 && ApplyTransposed(m, Apply(m, E1)) == E1 && ApplyTransposed(m, Apply(m, E2)) == E2;
    hide Inner, Apply;
    assert ApplyTransposed(m, m.c0) == E0 && ApplyTransposed(m, m.c1) == E1 && ApplyTransposed(m, m.c2) == E2;
    InnerSymmetric(m.c0, m.c1);
  }

  /** The two transformations undo each other exactly when the frame of the ring is orthonormal. */
  lemma InverseIffOrthonormal(g: Geometry, p: PanelId)
    ensures MutualInverses(g, p) <==> Orthonormal(g.frame(g.ring(p)))
  {
    var m, o := PanelFrame(g, p), PanelOrigin(g, p);
    PanelFrameOrthonormal(g, p);
    if Orthonormal(g.frame(g.ring(p))) {
      forall v ensures ToPanel(g, p, ToTelescope(g, p, v)) == v && ToTelescope(g, p, ToPanel(g, p, v)) == v {
        FramesUndoEachOther(g, p, v);
      }
    }
    if MutualInverses(g, p) {
      hide Apply, ApplyTransposed, Orthonormal, PanelFrame, PanelOrigin, Plus, Minus;
      forall v ensures ApplyTransposed(m, Apply(m, v)) == v {
        assert ToPanel(g, p, ToTelescope(g, p, v)) == v;
        MinusPlus(Apply(m, v), o);
      }
      TransposedOfUnits(m);
    }
  }

  /* ---------- the frame built from the surface normal ---------- */

  /** The part of an axis perpendicular to the normal. */
  function Project(axis: V3, n: V3): V3 { Minus(axis, Times(Inner(axis, n), n)) }

  /** A vector scaled to unit length; the zero vector is left alone. */
  function Normalized(v: V3, length: real): V3 {
    if length > 0.0 then Times(1.0 / length, v) else v
  }

  function Facing(n: V3, dir: V3): V3 { if Inner(n, dir) < 0.0 then Times(-1.0, n) else n }

  function FrameOf(n: V3, length: V3 -> real): M3 {
    var p, q := Project(E0, n), Project(E1, n);
    M3(Normalized(p, length(p)), Normalized(q, length(q)), n)
  }

  predicate IsLength(length: real, v: V3) { length >= 0.0 && length * length == Inner(v, v) }

  /** Third column the normal, turned to the reflecting side; the others the x and y axes projected
      to the tangent plane. */
  method BuildFrame(norm: V3, dir: V3, length: V3 -> real) returns (frame: M3)
    ensures frame == FrameOf(Facing(norm, dir), length)
  {
    var n := norm;
    if Inner(n, dir) < 0.0 {
      n := Times(-1.0, n);
    }
    var columns := [ORIGIN, ORIGIN, n];
    for i := 0 to 2
      invariant |columns| == 3 && columns[2] == n
      invariant i > 0 ==> columns[0] == Normalized(Project(E0, n), length(Project(E0, n)))
      invariant i > 1 ==> columns[1] == Normalized(Project(E1, n), length(Project(E1, n)))
    {
      var axis := if i == 0 then E0 else E1;
      axis := Minus(axis, Times(Inner(axis, columns[2]), columns[2]));
      columns := columns[i := Normalized(axis, length(axis))];
    }
    frame := M3(columns[0], columns[1], columns[2]);
  }

  lemma InnerTimesRight(k: real, a: V3, w: V3)
    ensures Inner(a, Times(k, w)) == k * Inner(a, w)
  {
  }

  lemma ProjectionProducts(a: V3, b: V3, n: V3)
    requires Inner(n, n) == 1.0
    ensures Inner(Project(a, n), n) == 0.0
    ensures Inner(Project(a, n), Project(b, n)) == Inner(a, b) - Inner(a, n) * Inner(b, n)
  {
    var i, j := Inner(a, n), Inner(b, n);
    hide Inner, Minus, Times;
    InnerSymmetric(Project(a, n), n);
    InnerMinus(n, a, Times(i, n));
    InnerTimesRight(i, n, n);
    InnerSymmetric(n, a);
    InnerMinus(Project(a, n), b, Times(j, n));
    InnerTimesRight(j, Project(a, n), n);
    InnerSymmetric(Project(a, n), b);
    InnerMinus(b, a, Times(i, n));
    InnerTimesRight(i, b, n);
    InnerSymmetric(a, b);
  }

  lemma InnerOfUnits(n: V3)
    ensures Inner(E0, E0) == 1.0 && Inner(E1, E1) == 1.0 && Inner(E0, E1) == 0.0
    ensures Inner(E0, n) == n.x && Inner(E1, n) == n.y
  {
    InnerOfParts(1.0, 0.0, 0.0, n);
    InnerOfParts(0.0, 1.0, 0.0, n);
    hide Inner;
    InnerIs(E0, E0);
    InnerIs(E1, E1);
    InnerIs(E0, E1);
  }

  lemma InnerOfParts(a: real, b: real, c: real, n: V3)
    ensures Inner(V3(a, b, c), n) == a * n.x + b * n.y + c * n.z
  {
  }

  lemma PositiveProduct(a: real, b: real)
    requires a > 0.0 && b > 0.0
    ensures a * b > 0.0
  {
  }

  lemma InverseIsNotZero(length: real, k: real)
    requires length > 0.0 && k == 1.0 / length
    ensures k * length == 1.0 && k != 0.0
  {
  }

  lemma InverseSquares(length: real, k: real, square: real)
    requires k * length == 1.0 && square == length * length
    ensures k * (k * square) == 1.0
  {
    assert k * (k * square) == (k * length) * (k * length) by {
      assert k * square == k * (length * length) == (k * length) * length;
      assert k * ((k * length) * length) == (k * length) * (k * length);
    }
  }

  /** A normalized vector is a unit vector unless it was zero, and keeps its perpendiculars. */
  lemma NormalizedProducts(v: V3, w: V3, length: real)
    requires IsLength(length, v)
    ensures Inner(v, v) != 0.0 ==> Inner(Normalized(v, length), Normalized(v, length)) == 1.0
    ensures Inner(v, v) == 0.0 ==> Inner(Normalized(v, length), Normalized(v, length)) == 0.0
    ensures Inner(Normalized(v, length), w) == 0.0 <==> Inner(v, w) == 0.0
  {
    hide Inner, Times;
    if length > 0.0 {
      PositiveProduct(length, length);
      var k := 1.0 / length;
      InverseIsNotZero(length, k);
      InnerTimes(k, v, w);
      InnerTimes(k, v, Times(k, v));
      InnerTimesRight(k, v, v);
      InverseSquares(length, k, Inner(v, v));
    }
  }

  lemma ProjectedAxes(n: V3)
    requires Inner(n, n) == 1.0
    ensures var p, q := Project(E0, n), Project(E1, n);
            && Inner(p, p) == 1.0 - n.x * n.x && Inner(q, q) == 1.0 - n.y * n.y && Inner(p, q) == -(n.x * n.y)
            && Inner(p, n) == 0.0 && Inner(q, n) == 0.0
  {
    hide Inner, Project;
    InnerOfUnits(n);
    EqualProducts(Inner(E0, n), n.x, Inner(E0, n), n.x);
    EqualProducts(Inner(E1, n), n.y, Inner(E1, n), n.y);
    EqualProducts(Inner(E0, n), n.x, Inner(E1, n), n.y);
    ProjectionProducts(E0, E0, n);
    ProjectionProducts(E1, E1, n);
    ProjectionProducts(E0, E1, n);
  }

  /** For a unit normal, the frame is orthonormal exactly when one of the first two components of the
      normal is zero and neither of the axes is along the normal. */
  lemma FrameOrthonormalIff(n: V3, length: V3 -> real)
    requires Inner(n, n) == 1.0
    requires IsLength(length(Project(E0, n)), Project(E0, n)) && IsLength(length(Project(E1, n)), Project(E1, n))
    ensures Orthonormal(FrameOf(n, length)) <==> n.x * n.y == 0.0 && n.x * n.x != 1.0 && n.y * n.y != 1.0
  {
    var p, q := Project(E0, n), Project(E1, n);
    var u, v := length(p), length(q);
    hide Inner, Project, Normalized, IsLength;
    ProjectedAxes(n);
    NormalizedProducts(p, n, u);
    NormalizedProducts(q, n, v);
    NormalizedProducts(p, Normalized(q, v), u);
    NormalizedProducts(q, p, v);
    InnerSymmetric(Normalized(q, v), p);
    InnerSymmetric(q, p);
  }

  /* ---------- moving the mirror ---------- */

  type Pads = s: seq<V3> | |s| == 3 witness [ORIGIN, ORIGIN, ORIGIN]

  /** A pad of panel `p`, in the panel's frame, after the mirror moved. */
  function MovedPad(g: Geometry, p: PanelId, pad: V3, tr: seq<real>): V3 {
    ToPanel(g, p, MoveInCurrent(g, ToTelescope(g, p, pad), tr))
  }

  function MovedPads(g: Geometry, p: PanelId, pads: Pads, tr: seq<real>): Pads {
    [MovedPad(g, p, pads[0], tr), MovedPad(g, p, pads[1], tr), MovedPad(g, p, pads[2], tr)]
  }

  lemma MoveKeepsDistance(g: Geometry, v: V3, w: V3, tr: seq<real>)
    ensures DistanceSquared(MoveInCurrent(g, v, tr), MoveInCurrent(g, w, tr)) == DistanceSquared(v, w)
  {
    hide Apply, DistanceSquared, Rotation, Orthonormal, Plus;
    var z, x, y := Rotation(2, g.angle(Coordinate(tr, 5))), Rotation(0, g.angle(Coordinate(tr, 3))), Rotation(1, g.angle(Coordinate(tr, 4)));
    RotationOrthonormal(2, g.angle(Coordinate(tr, 5)));
    RotationOrthonormal(0, g.angle(Coordinate(tr, 3)));
    RotationOrthonormal(1, g.angle(Coordinate(tr, 4)));
    var vz, wz := Apply(z, v), Apply(z, w);
    ApplyKeepsDistance(z, v, w);
    ApplyKeepsDistance(x, vz, wz);
    ApplyKeepsDistance(y, Apply(x, vz), Apply(x, wz));
    PlusKeepsDistance(Apply(y, Apply(x, vz)), Apply(y, Apply(x, wz)), V3(Coordinate(tr, 0), Coordinate(tr, 1), Coordinate(tr, 2)));
  }

  /** The whole mirror moves as one rigid body: in the telescope frame every pad goes where the one
      motion takes it, so the distances between pads of all panels stay what they were. */
  lemma MirrorMovesRigidly(g: Geometry, p: PanelId, q: PanelId, a: V3, b: V3, tr: seq<real>)
    requires Orthonormal(g.frame(g.ring(p))) && Orthonormal(g.frame(g.ring(q)))
    ensures ToTelescope(g, p, MovedPad(g, p, a, tr)) == MoveInCurrent(g, ToTelescope(g, p, a), tr)
    ensures DistanceSquared(ToTelescope(g, p, MovedPad(g, p, a, tr)), ToTelescope(g, q, MovedPad(g, q, b, tr)))
            == DistanceSquared(ToTelescope(g, p, a), ToTelescope(g, q, b))
  {
    hide ToPanel, ToTelescope, MoveInCurrent, DistanceSquared, Orthonormal;
    FramesUndoEachOther(g, p, MoveInCurrent(g, ToTelescope(g, p, a), tr));
    FramesUndoEachOther(g, q, MoveInCurrent(g, ToTelescope(g, q, b), tr));
    MoveKeepsDistance(g, ToTelescope(g, p, a), ToTelescope(g, q, b), tr);
  }

  /** No motion leaves every pad where it is. */
  lemma NoMotionMovesNoPad(g: Geometry, p: PanelId, pad: V3)
    requires Orthonormal(g.frame(g.ring(p))) && g.angle(0.0) == CosSin(1.0, 0.0)
    ensures MovedPad(g, p, pad, []) == pad
  {
    var v := ToTelescope(g, p, pad);
    assert Rotation(0, CosSin(1.0, 0.0)) == M3(E0, E1, E2) by { assert -0.0 == 0.0; }
    assert Rotation(1, CosSin(1.0, 0.0)) == M3(E0, E1, E2) by { assert -0.0 == 0.0; }
    assert Rotation(2, CosSin(1.0, 0.0)) == M3(E0, E1, E2) by { assert -0.0 == 0.0; }
    IdentityApplies(v);
    MinusPlus(v, ORIGIN);
    hide Rotation, Apply, Plus;
    assert MoveInCurrent(g, v, []) == v;
    hide ToPanel, ToTelescope, MoveInCurrent;
    FramesUndoEachOther(g, p, pad);
  }

  lemma IdentityApplies(v: V3)
    ensures Apply(M3(E0, E1, E2), v) == v
  {
  }

  /* ---------- the plan of a mirror motion ---------- */

  /** Panels to move: the selected ones outside ring 0. */
  function Movable(g: Geometry, selected: seq<PanelId>): seq<PanelId> {
    if selected == [] then [] else
    var n := |selected| - 1;
    if g.ring(selected[n]) == 0 then Movable(g, selected[..n]) else Movable(g, selected[..n]) + [selected[n]]
  }

  /** The inputs of a mirror motion: the pads of each panel, the actuator lengths that put pads in
      place, and the lengths read from each panel, which may fail. */
  datatype Platform = Platform(pads: PanelId -> Pads, actuators: Pads -> Six, lengths: PanelId -> Option<Six>)

  /** Plans a motion of the selected panels by `delta`. The vector has six entries for every selected
      panel, filled from the front; what `rest` holds beyond the last panel to move is arbitrary. */
  method CalculateMoveDelta(g: Geometry, w: Platform, selected: seq<PanelId>, delta: seq<real>, rest: Vec)
    returns (plan: Option<(Vec, seq<PanelId>)>)
    requires |rest| == 6 * |selected|
    ensures plan.None? <==> exists p :: p in Movable(g, selected) && w.lengths(p).None?
    ensures plan.Some? ==>
              var (x, panels) := plan.value;
              && panels == Movable(g, selected) && |x| == 6 * |selected| && |panels| <= |selected|
              && forall k :: 0 <= k < |panels| ==> TakesPadsAlong(g, w, panels[k], delta, Slice(x, k))
  {
    hide TakesPadsAlong, Slice, MovedPads, Movable;
    MovableEmpty(g);
    var x, panels := rest, [];
    for i := 0 to |selected|
      invariant panels == Movable(g, selected[..i]) && |panels| <= i && |x| == 6 * |selected|
      invariant forall p :: p in panels ==> w.lengths(p).Some?
      invariant forall k :: 0 <= k < |panels| ==> TakesPadsAlong(g, w, panels[k], delta, Slice(x, k))
    {
      MovableNext(g, selected, i);
      var p := selected[i];
      if g.ring(p) == 0 {
        continue;
      }
      assert p in Movable(g, selected[..i + 1]);
      MovableMonotone(g, selected, i + 1, p);
      var pads := MovePads(g, p, w.pads(p), delta);
      var current := w.lengths(p);
      if current.None? {
        return None;
      }
      var six := Sub(w.actuators(pads), current.value);
      SubTakesAlong(g, w, p, delta, six);
      x := PutSlice(x, |panels|, six);
      panels := panels + [p];
    }
    assert selected[..|selected|] == selected;
    plan := Some((x, panels));
  }

  /** Adding `six` to the lengths of panel `p` puts its pads where the motion of the mirror takes them. */
  ghost predicate TakesPadsAlong(g: Geometry, w: Platform, p: PanelId, delta: seq<real>, six: Vec) {
    && w.lengths(p).Some? && |six| == 6
    && Add(w.lengths(p).value, six) == w.actuators(MovedPads(g, p, w.pads(p), delta))
  }

  lemma SubTakesAlong(g: Geometry, w: Platform, p: PanelId, delta: seq<real>, six: Vec)
    requires w.lengths(p).Some? && six == Sub(w.actuators(MovedPads(g, p, w.pads(p), delta)), w.lengths(p).value)
    ensures TakesPadsAlong(g, w, p, delta, six)
  {
    hide MovedPads;
  }

  lemma MovableEmpty(g: Geometry)
    ensures Movable(g, []) == []
  {
  }

  lemma MovableNext(g: Geometry, selected: seq<PanelId>, i: nat)
    requires i < |selected|
    ensures Movable(g, selected[..i + 1]) == if g.ring(selected[i]) == 0 then Movable(g, selected[..i]) else Movable(g, selected[..i]) + [selected[i]]
  {
    assert selected[..i + 1][..i] == selected[..i];
  }

  lemma {:induction false} MovableMonotone(g: Geometry, selected: seq<PanelId>, n: nat, p: PanelId)
    requires n <= |selected| && p in Movable(g, selected[..n])
    ensures p in Movable(g, selected)
    decreases |selected| - n
  {
    if n < |selected| {
      assert selected[..n + 1][..n] == selected[..n];
      MovableMonotone(g, selected, n + 1, p);
    } else {
      assert selected[..n] == selected;
    }
  }

  /** The pads one after the other: to the telescope frame, moved, and back to the panel frame. */
  method MovePads(g: Geometry, p: PanelId, pads: Pads, delta: seq<real>) returns (moved: Pads)
    ensures moved == MovedPads(g, p, pads, delta)
  {
    var s := pads;
    for pad := 0 to 3
      invariant |s| == 3
      invariant forall i :: 0 <= i < 3 ==> s[i] == if i < pad then MovedPad(g, p, pads[i], delta) else pads[i]
    {
      var inTelescope := ToTelescope(g, p, s[pad]);
      inTelescope := MoveInCurrent(g, inTelescope, delta);
      s := s[pad := ToPanel(g, p, inTelescope)];
    }
    moved := s;
  }
}
