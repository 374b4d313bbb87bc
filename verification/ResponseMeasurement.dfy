/** Measuring the response matrix of an edge: each actuator of a panel is moved forth and back, and
    the change of the readings divided by what the actuator really moved. */
module ResponseMeasurement {
  import opened Basics
  import opened LinearAlgebra

  /** The readings of an edge of three sensors, affine in the actuator lengths of a panel. */
  datatype Affine = Affine(matrix: seq<Vec>, offset: Vec)

  type Edge = e: Affine | IsMatrix(e.matrix, 6, 6) && |e.offset| == 6
    witness Affine(seq(6, _ => seq(6, _ => 0.0)), seq(6, _ => 0.0))

  function Readings(e: Edge, lengths: Six): (r: Vec)
    ensures |r| == 6
  {
    Add(e.offset, MatVec(e.matrix, lengths))
  }

  function Column(e: Edge, j: nat): Vec
    requires j < 6
  {
    seq(6, i requires 0 <= i < 6 => e.matrix[i][j])
  }

  /** The quotient of a vector and a number; undefined entries are not numbers. */
  function Divide(v: Vec, d: real): Option<Vec> {
    if d == 0.0 then None else Some(seq(|v|, i requires 0 <= i < |v| => v[i] / d))
  }

  /** How motions go: by how much the `k`-th motion misses its target, whether the panel refuses it, and
      at which of its checks the measurement finds that it was stopped. */
  datatype Course = Course(missed: nat -> real, rejected: nat -> bool, stopped: nat -> bool)

  /** The motions of a measurement: actuator `k / 2`, forth if `k` is even and back if it is odd. */
  function Commanded(k: nat, step: real): real { if k % 2 == 0 then step else -step }

  /** Actuator lengths after the first `k` motions. */
  function LengthsAfter(start: Six, step: real, c: Course, k: nat): Six
    requires k <= 12
  {
    if k == 0 then start else
    var l := LengthsAfter(start, step, c, k - 1);
    var j := (k - 1) / 2;
    l[j := l[j] + (Commanded(k - 1, step) - c.missed(k - 1))]
  }

  lemma MotionsOfActuator(start: Six, step: real, c: Course, j: nat)
    requires j < 6
    ensures var l := LengthsAfter(start, step, c, 2 * j);
            var m := LengthsAfter(start, step, c, 2 * j + 1);
            && m == l[j := l[j] + (step - c.missed(2 * j))]
            && LengthsAfter(start, step, c, 2 * j + 2) == m[j := m[j] + (-step - c.missed(2 * j + 1))]
  {
  }

  class Panel {
    const course: Course
    var lengths: Six
    /** Motions carried out, and checks for a stop. */
    var motions: nat
    var checks: nat

    constructor (course: Course, lengths: Six)
      ensures this.course == course && this.lengths == lengths && motions == 0 && checks == 0
    {
      this.course, this.lengths, motions, checks := course, lengths, 0, 0;
    }

    /** Moves actuator `j` by its entry of `deltas`, the only one that is not zero, and waits. */
    method MoveDeltaLengths(deltas: Six, j: nat) returns (good: bool)
      requires j < 6 && forall i :: 0 <= i < 6 && i != j ==> deltas[i] == 0.0
      modifies this`lengths, this`motions
      ensures good == !course.rejected(old(motions))
      ensures !good ==> lengths == old(lengths) && motions == old(motions)
      ensures good ==> motions == old(motions) + 1
      ensures good ==> lengths == old(lengths)[j := old(lengths)[j] + (deltas[j] - course.missed(old(motions)))]
    {
      good := !course.rejected(motions);
      if good {
        lengths := lengths[j := lengths[j] + (deltas[j] - course.missed(motions))];
        motions := motions + 1;
      }
    }

    method StopRequested() returns (stop: bool)
      modifies this`checks
      ensures stop == course.stopped(old(checks)) && checks == old(checks) + 1
    {
      stop := course.stopped(checks);
      checks := checks + 1;
    }

    /** The measurement of one actuator. */
    method MeasureActuator(e: Edge, step: real, j: nat, ghost start: Six) returns (done: bool, column: Option<Vec>)
      requires j < 6 && motions == 2 * j && checks == 3 * j
      requires lengths == LengthsAfter(start, step, course, motions)
      modifies this
      ensures done <==> !course.rejected(2 * j) && !course.rejected(2 * j + 1) && forall i :: 3 * j <= i < 3 * j + 3 ==> !course.stopped(i)
      ensures done ==> motions == 2 * (j + 1) && checks == 3 * (j + 1)
      ensures done ==> column == if step == course.missed(2 * j) then None else Some(Column(e, j))
      ensures old(motions) <= motions <= old(motions) + 2
      ensures lengths == LengthsAfter(start, step, course, motions)
    {
      hide Readings, Divide, Column, LengthsAfter, Sub;
      MotionsOfActuator(start, step, course, j);
      var deltas: Six := Zeros(6);
      var vector0 := Readings(e, lengths);
      deltas := deltas[j := step];
      ghost var before := lengths;
      column := None;
      done := MoveDeltaLengths(deltas, j);
      if !done { return; }
      var stop := StopRequested();
      if stop { return false, None; }
      var missedDelta := course.missed(motions - 1);
      var vector1 := Readings(e, lengths);
      ReadingsMove(e, before, j, step - missedDelta);
      stop := StopRequested();
      if stop { return false, None; }
      deltas := deltas[j := -step];
      done := MoveDeltaLengths(deltas, j);
      if !done { return; }
      stop := StopRequested();
      if stop { return false, None; }
      column := Divide(Sub(vector1, vector0), step - missedDelta);
    }
  }

  /** Moving one actuator by `d` changes the readings by its column times `d`. */
  lemma ReadingsMove(e: Edge, lengths: Six, j: nat, d: real)
    requires j < 6
    ensures Divide(Sub(Readings(e, lengths[j := lengths[j] + d]), Readings(e, lengths)), d)
            == if d == 0.0 then None else Some(Column(e, j))
  {
    var moved := lengths[j := lengths[j] + d];
    var change := Sub(Readings(e, moved), Readings(e, lengths));
    forall i | 0 <= i < 6 ensures change[i] == e.matrix[i][j] * d {
      DotUpdate(e.matrix[i], lengths, j, d);
    }
    if d != 0.0 {
      forall i | 0 <= i < 6 ensures change[i] / d == e.matrix[i][j] {
        Cancel(e.matrix[i][j], d, change[i]);
      }
      assert Divide(change, d).value == Column(e, j);
    }
  }

  lemma Cancel(a: real, d: real, product: real)
    requires d != 0.0 && product == a * d
    ensures product / d == a
  {
  }

  /** Nothing stops or refuses the measurement. */
  ghost predicate Undisturbed(c: Course) {
    (forall k :: 0 <= k < 12 ==> !c.rejected(k)) && forall i :: 0 <= i < 18 ==> !c.stopped(i)
  }

  ghost predicate UndisturbedUpTo(c: Course, j: nat) {
    (forall k :: 0 <= k < 2 * j ==> !c.rejected(k)) && forall i :: 0 <= i < 3 * j ==> !c.stopped(i)
  }

  /** Measures the response of an edge to a panel, one column after the other. An undisturbed
      measurement finds the exact column of every actuator that moved at all, whatever earlier motions
      missed; when it ends early, the lengths are those after the motions made so far. */
  method FindSingleMatrix(p: Panel, e: Edge, step: real) returns (done: bool, columns: seq<Option<Vec>>)
    requires p.motions == 0 && p.checks == 0
    modifies p
    ensures done <==> Undisturbed(p.course)
    ensures |columns| == 6
    ensures done ==> forall j :: 0 <= j < 6 ==>
              columns[j] == if step == p.course.missed(2 * j) then None else Some(Column(e, j))
    ensures p.motions <= 12 && (done ==> p.motions == 12)
    ensures p.lengths == LengthsAfter(old(p.lengths), step, p.course, p.motions)
  {
    columns := seq(6, _ => Some(Zeros(6)));
    ghost var start := p.lengths;
    for j := 0 to 6
      invariant |columns| == 6 && p.motions == 2 * j && p.checks == 3 * j
      invariant UndisturbedUpTo(p.course, j)
      invariant forall i :: 0 <= i < j ==> columns[i] == if step == p.course.missed(2 * i) then None else Some(Column(e, i))
      invariant p.lengths == LengthsAfter(start, step, p.course, p.motions)
    {
      var good, column := p.MeasureActuator(e, step, j, start);
      if !good {
        return false, columns;
      }
      columns := columns[j := column];
    }
    done := true;
  }

  /** Every actuator ends up short by what its two motions missed together. */
  lemma {:induction false} Displacement(start: Six, step: real, c: Course, n: nat)
    requires n <= 6
    ensures forall j :: 0 <= j < 6 ==>
              LengthsAfter(start, step, c, 2 * n)[j] == if j < n then start[j] - (c.missed(2 * j) + c.missed(2 * j + 1)) else start[j]
  {
    if n > 0 {
      Displacement(start, step, c, n - 1);
      var l := LengthsAfter(start, step, c, 2 * (n - 1));
      var m := LengthsAfter(start, step, c, 2 * n - 1);
      assert m == l[n - 1 := l[n - 1] + (step - c.missed(2 * (n - 1)))];
    }
  }

  /** The panel is back at its starting lengths exactly when, for each actuator, what the motion back
      missed cancels what the motion forth missed; so certainly when nothing was missed. */
  lemma BackAtStart(start: Six, step: real, c: Course)
    ensures LengthsAfter(start, step, c, 12) == start <==>
            forall j {:trigger c.missed(2 * j)} :: 0 <= j < 6 ==> c.missed(2 * j) + c.missed(2 * j + 1) == 0.0
  {
    Displacement(start, step, c, 6);
    var l := LengthsAfter(start, step, c, 12);
    if l == start {
      forall j | 0 <= j < 6 ensures c.missed(2 * j) + c.missed(2 * j + 1) == 0.0 {
        assert l[j] == start[j];
      }
    }
  }
}
