/** The effective-dated table of sensor configuration and calibration: rows are inserted with a start
    date and closed with an end date; a row without an end date is active. */
module CalibrationTable {
  import opened Basics

  type Time = int

  datatype Coord = X | Y

  /** The nominal reading, which is the target, and thirteen calibration columns. */
  type Columns = c: seq<real> | |c| == 14 witness seq(14, _ => 0.0)

  datatype Row = Row(start: Time, end: Option<Time>, serial: int, coord: Coord, columns: Columns)

  predicate IsActive(r: Row, serial: int, c: Coord) { r.serial == serial && r.coord == c && r.end.None? }

  function Active(rows: seq<Row>, serial: int, c: Coord): seq<Row> {
    if rows == [] then [] else
    var n := |rows| - 1;
    if IsActive(rows[n], serial, c) then Active(rows[..n], serial, c) + [rows[n]] else Active(rows[..n], serial, c)
  }

  /** Closing a sensor sets the end date of all its rows that did not start at the time of the run,
      whether or not they have one already. */
  function CloseRow(r: Row, serial: int, now: Time): Row {
    if r.serial == serial && r.start != now then r.(end := Some(now)) else r
  }

  function Close(rows: seq<Row>, serial: int, now: Time): (closed: seq<Row>)
    ensures |closed| == |rows|
    ensures forall i :: 0 <= i < |rows| ==> closed[i] == CloseRow(rows[i], serial, now)
  {
    seq(|rows|, i requires 0 <= i < |rows| => CloseRow(rows[i], serial, now))
  }

  function Missing(): Columns { seq(14, _ => -1.0) }

  /** Columns for a new row: those of the predecessor, or -1 everywhere if there is none, with the
      target in front replaced if one is given. */
  function NewColumns(active: seq<Row>, target: Option<real>): Columns {
    var inherited := if active == [] then Missing() else active[0].columns;
    if target.Some? then [target.value] + inherited[1..] else inherited
  }

  function Index(c: Coord): nat { if c == X then 0 else 1 }

  predicate HasTarget(targets: Option<seq<real>>, c: Coord) {
    targets.Some? ==> |targets.value| > Index(c)
  }

  function TargetFor(targets: Option<seq<real>>, c: Coord): Option<real>
    requires HasTarget(targets, c)
  {
    match targets
    case None => None
    case Some(t) => Some(t[Index(c)])
  }

  /** The row for `serial` made from the active row of `source`. */
  function NewRow(rows: seq<Row>, source: int, serial: int, c: Coord, targets: Option<seq<real>>, now: Time): Row
    requires HasTarget(targets, c)
  {
    Row(now, None, serial, c, NewColumns(Active(rows, source, c), TargetFor(targets, c)))
  }

  /** Reading the active row fails if there are several, and building the new row if the list of targets
      has no entry for the coordinate. */
  predicate CoordFails(rows: seq<Row>, source: int, c: Coord, targets: Option<seq<real>>) {
    |Active(rows, source, c)| > 1 || !HasTarget(targets, c)
  }

  predicate Fails(rows: seq<Row>, source: int, targets: Option<seq<real>>) {
    CoordFails(rows, source, X, targets) || CoordFails(rows, source, Y, targets)
  }

  /** The table after rows for `serial` were made from those of `source`, and `source` was closed. */
  function Succeeded(rows: seq<Row>, source: int, serial: int, targets: Option<seq<real>>, now: Time): seq<Row>
    requires !Fails(rows, source, targets)
  {
    Close(rows + [NewRow(rows, source, serial, X, targets, now)] + [NewRow(rows, source, serial, Y, targets, now)], source, now)
  }

  /** How a run ends: whether it went through, and the rows it leaves. */
  datatype Outcome = Outcome(ok: bool, rows: seq<Row>)

  /** Making the rows for `serial` from those of `source` and closing `source`. Where the first coordinate
      fails nothing is inserted, where the second fails the row of the first stays, and nothing is closed. */
  function Made(rows: seq<Row>, source: int, serial: int, targets: Option<seq<real>>, now: Time): Outcome {
    if CoordFails(rows, source, X, targets) then Outcome(false, rows)
    else if CoordFails(rows, source, Y, targets) then Outcome(false, rows + [NewRow(rows, source, serial, X, targets, now)])
    else Outcome(true, Succeeded(rows, source, serial, targets, now))
  }

  /** An entry of a file of targets. */
  datatype Update = Update(serial: int, targets: seq<real>)

  /** The first `n` updates of a list, one after the other; the first failure ends the run. */
  function AfterList(rows: seq<Row>, list: seq<Update>, n: nat, now: Time): Outcome
    requires n <= |list|
  {
    if n == 0 then Outcome(true, rows) else
    var before := AfterList(rows, list, n - 1, now);
    if before.ok then Made(before.rows, list[n - 1].serial, list[n - 1].serial, Some(list[n - 1].targets), now) else before
  }

  lemma {:induction false} FailureStays(rows: seq<Row>, list: seq<Update>, k: nat, n: nat, now: Time)
    requires k <= n <= |list| && !AfterList(rows, list, k, now).ok
    ensures AfterList(rows, list, n, now) == AfterList(rows, list, k, now)
  {
    if k < n { FailureStays(rows, list, k, n - 1, now); }
  }

  /* ---------- rows in their own terms ---------- */

  /** Row `i` is open: it has no end date. */
  ghost predicate OpenAt(rows: seq<Row>, serial: int, c: Coord, i: int) {
    0 <= i < |rows| && rows[i].serial == serial && rows[i].coord == c && rows[i].end == None
  }

  /** Column `k` of `columns` is that of every open row of the sensor and coordinate, or -1 if there is none. */
  ghost predicate Inherits(columns: Columns, k: nat, rows: seq<Row>, serial: int, c: Coord)
    requires k < 14
  {
    && (forall i :: OpenAt(rows, serial, c, i) ==> columns[k] == rows[i].columns[k])
    && ((forall i :: !OpenAt(rows, serial, c, i)) ==> columns[k] == -1.0)
  }

  /** A row that starts now, has no end, and takes over the columns of `source`, the target in front. */
  ghost predicate IsSuccessor(r: Row, rows: seq<Row>, source: int, serial: int, c: Coord, target: Option<real>, now: Time) {
    && r.start == now && r.end == None && r.serial == serial && r.coord == c
    && (forall k :: 1 <= k < 14 ==> Inherits(r.columns, k, rows, source, c))
    && (if target.Some? then r.columns[0] == target.value else Inherits(r.columns, 0, rows, source, c))
  }

  /** The one open row of the sensor and coordinate is such a row. */
  ghost predicate TookOver(before: seq<Row>, after: seq<Row>, source: int, serial: int, c: Coord, target: Option<real>, now: Time) {
    exists i :: (forall j :: OpenAt(after, serial, c, j) <==> j == i)
                && 0 <= i < |after| && IsSuccessor(after[i], before, source, serial, c, target, now)
  }

  lemma {:induction false} ActiveAreOpen(rows: seq<Row>, serial: int, c: Coord)
    ensures Active(rows, serial, c) == [] <==> forall i :: !OpenAt(rows, serial, c, i)
    ensures forall i :: OpenAt(rows, serial, c, i) ==> rows[i] in Active(rows, serial, c)
    ensures forall r :: r in Active(rows, serial, c) ==> exists i :: OpenAt(rows, serial, c, i) && rows[i] == r
  {
    if rows != [] {
      var n := |rows| - 1;
      var front := rows[..n];
      ActiveAreOpen(front, serial, c);
      assert forall i :: 0 <= i < n ==> (OpenAt(rows, serial, c, i) <==> OpenAt(front, serial, c, i)) && front[i] == rows[i];
      assert IsActive(rows[n], serial, c) <==> OpenAt(rows, serial, c, n);
    }
  }

  /** The rows read as active are exactly the open ones; there is at most one exactly if no two are open. */
  lemma {:induction false} FewActive(rows: seq<Row>, serial: int, c: Coord)
    ensures |Active(rows, serial, c)| <= 1 <==>
            forall i, j :: OpenAt(rows, serial, c, i) && OpenAt(rows, serial, c, j) ==> i == j
  {
    if rows != [] {
      var n := |rows| - 1;
      var front := rows[..n];
      FewActive(front, serial, c);
      ActiveAreOpen(front, serial, c);
      assert forall i :: 0 <= i < n ==> (OpenAt(rows, serial, c, i) <==> OpenAt(front, serial, c, i));
      assert IsActive(rows[n], serial, c) <==> OpenAt(rows, serial, c, n);
      if |Active(rows, serial, c)| <= 1 && OpenAt(rows, serial, c, n) {
        assert Active(front, serial, c) == [];
      }
    }
  }

  /** The update fails at a coordinate exactly when two rows of it are open or the list of targets is too
      short: it takes the first entry for x and the second for y. */
  lemma FailsIff(rows: seq<Row>, source: int, c: Coord, targets: Option<seq<real>>)
    ensures CoordFails(rows, source, c, targets) <==>
            || (exists i, j :: OpenAt(rows, source, c, i) && OpenAt(rows, source, c, j) && i != j)
            || (targets.Some? && |targets.value| < (if c == X then 1 else 2))
  {
    FewActive(rows, source, c);
    hide Active, OpenAt;
  }

  /** The target for a coordinate: the first entry for x, the second for y. */
  ghost predicate IsTargetFor(target: Option<real>, targets: Option<seq<real>>, c: Coord) {
    if targets.None? then target.None?
    else |targets.value| >= (if c == X then 1 else 2) && target == Some(if c == X then targets.value[0] else targets.value[1])
  }

  lemma TargetIs(targets: Option<seq<real>>, c: Coord)
    requires HasTarget(targets, c)
    ensures IsTargetFor(TargetFor(targets, c), targets, c)
  {
  }

  lemma NewColumnsAre(rows: seq<Row>, serial: int, c: Coord, target: Option<real>, k: nat)
    requires |Active(rows, serial, c)| <= 1 && k < 14
    ensures var columns := NewColumns(Active(rows, serial, c), target);
            if k == 0 && target.Some? then columns[0] == target.value else Inherits(columns, k, rows, serial, c)
  {
    ActiveAreOpen(rows, serial, c);
    hide Active, OpenAt;
  }

  /** The new row is a successor of the open row of `source`. */
  lemma NewRowSucceeds(rows: seq<Row>, source: int, serial: int, c: Coord, targets: Option<seq<real>>, now: Time)
    requires !CoordFails(rows, source, c, targets) && HasTarget(targets, c)
    ensures IsSuccessor(NewRow(rows, source, serial, c, targets, now), rows, source, serial, c, TargetFor(targets, c), now)
  {
    hide Active, Inherits, NewColumns;
    var target := TargetFor(targets, c);
    NewColumnsAre(rows, source, c, target, 0);
    forall k | 1 <= k < 14 ensures Inherits(NewColumns(Active(rows, source, c), target), k, rows, source, c) {
      NewColumnsAre(rows, source, c, target, k);
    }
  }

  lemma OneActiveTookOver(before: seq<Row>, after: seq<Row>, source: int, serial: int, c: Coord, targets: Option<seq<real>>, now: Time)
    requires !CoordFails(before, source, c, targets) && HasTarget(targets, c)
    requires Active(after, serial, c) == [NewRow(before, source, serial, c, targets, now)]
    ensures TookOver(before, after, source, serial, c, TargetFor(targets, c), now)
  {
    NewRowSucceeds(before, source, serial, c, targets, now);
    ActiveAreOpen(after, serial, c);
    FewActive(after, serial, c);
    hide Active, NewRow, IsSuccessor, OpenAt, CoordFails, HasTarget, TargetFor;
    var r := NewRow(before, source, serial, c, targets, now);
    assert r in Active(after, serial, c);
    var i :| OpenAt(after, serial, c, i) && after[i] == r;
    OpenIsIndex(after, serial, c, i);
  }

  lemma OpenIsIndex(rows: seq<Row>, serial: int, c: Coord, i: int)
    requires OpenAt(rows, serial, c, i)
    ensures 0 <= i < |rows|
  {
  }

  class Database {
    var rows: seq<Row>

    constructor (rows: seq<Row>)
      ensures this.rows == rows
    {
      this.rows := rows;
    }

    /** The columns of the one active row; none if there is no active row; failure if there are more. */
    method CollectCalibration(serial: int, c: Coord) returns (ok: bool, columns: Option<Columns>)
      ensures ok <==> |Active(rows, serial, c)| <= 1
      ensures ok ==> columns == if Active(rows, serial, c) == [] then None else Some(Active(rows, serial, c)[0].columns)
    {
      var found := Active(rows, serial, c);
      if |found| > 1 {
        return false, None;
      } else if |found| == 0 {
        return true, None;
      } else {
        return true, Some(found[0].columns);
      }
    }

    /** Inserts the row for one coordinate, made from the active row of `source`. */
    method AddCoordinate(source: int, serial: int, c: Coord, targets: Option<seq<real>>, now: Time) returns (ok: bool)
      modifies this
      ensures ok <==> !CoordFails(old(rows), source, c, targets)
      ensures rows == if ok then old(rows) + [NewRow(old(rows), source, serial, c, targets, now)] else old(rows)
      ensures ok ==> exists target :: IsTargetFor(target, targets, c)
                                      && IsSuccessor(rows[|old(rows)|], old(rows), source, serial, c, target, now)
    {
      hide Active;
      var collected, calibration := CollectCalibration(source, c);
      if !collected { return false; }
      var columns := if calibration.None? then Missing() else calibration.value;
      if targets.Some? && Index(c) >= |targets.value| { return false; }
      columns := BuildColumns(columns, if targets.Some? then Some(targets.value[Index(c)]) else None);
      NewRowSucceeds(rows, source, serial, c, targets, now);
      TargetIs(targets, c);
      rows := rows + [Row(now, None, serial, c, columns)];
      ok := true;
    }

    /** Updates the sensors of a list in turn; the first failure ends the run. */
    method UpdateSensorList(list: seq<Update>, now: Time) returns (ok: bool)
      modifies this
      ensures Outcome(ok, rows) == AfterList(old(rows), list, |list|, now)
    {
      hide Made;
      for k := 0 to |list|
        invariant AfterList(old(rows), list, k, now) == Outcome(true, rows)
      {
        ok := Succeed(list[k].serial, list[k].serial, Some(list[k].targets), now);
        if !ok {
          FailureStays(old(rows), list, k + 1, |list|, now);
          return;
        }
      }
      ok := true;
    }

    /** The UPDATE: a row of the sensor that did not start at this time gets it as end date, even if it
        has one; every other field and every other row stays. */
    method DisableOld(serial: int, now: Time)
      modifies this
      ensures |rows| == |old(rows)|
      ensures forall i :: 0 <= i < |rows| ==> rows[i].(end := old(rows)[i].end) == old(rows)[i]
      ensures forall i :: 0 <= i < |rows| && rows[i].serial == serial && rows[i].start != now ==> rows[i].end == Some(now)
      ensures forall i :: 0 <= i < |rows| && (rows[i].serial != serial || rows[i].start == now) ==> rows[i] == old(rows)[i]
    {
      for i := 0 to |rows|
        invariant |rows| == |old(rows)|
        invariant forall j :: 0 <= j < i ==> rows[j].(end := old(rows)[j].end) == old(rows)[j]
        invariant forall j :: 0 <= j < i && rows[j].serial == serial && rows[j].start != now ==> rows[j].end == Some(now)
        invariant forall j :: 0 <= j < i && (rows[j].serial != serial || rows[j].start == now) ==> rows[j] == old(rows)[j]
        invariant forall j :: i <= j < |rows| ==> rows[j] == old(rows)[j]
      {
        if rows[i].serial == serial && rows[i].start != now {
          rows := rows[i := rows[i].(end := Some(now))];
        }
      }
    }

    /** Makes the rows for `serial` from those of `source`, then closes `source`. Updating the targets of
        a sensor does this with the sensor itself; replacing one makes the rows for its replacement. */
    method Succeed(source: int, serial: int, targets: Option<seq<real>>, now: Time) returns (ok: bool)
      modifies this
      ensures Outcome(ok, rows) == Made(old(rows), source, serial, targets, now)
    {
      hide Active, NewRow, HasTarget, CoordFails, CloseRow;
      ghost var before := rows;
      var coords := [X, Y];
      for k := 0 to 2
        invariant k == 0 ==> rows == before
        invariant k >= 1 ==> !CoordFails(before, source, X, targets) && HasTarget(targets, X)
        invariant k == 1 ==> rows == before + [NewRow(before, source, serial, X, targets, now)]
        invariant k == 2 ==> !CoordFails(before, source, Y, targets) && HasTarget(targets, Y)
        invariant k == 2 ==> rows == before + [NewRow(before, source, serial, X, targets, now)] + [NewRow(before, source, serial, Y, targets, now)]
      {
        HasTargetUnlessFails(rows, source, coords[k], targets);
        if k == 1 { RowOfOtherCoordinate(before, source, serial, targets, now); }
        ok := AddCoordinate(source, serial, coords[k], targets, now);
        if !ok { return; }
      }
      ghost var added := rows;
      DisableOld(source, now);
      ClosedRows(added, rows, source, now);
      ok := true;
    }
  }

  lemma HasTargetUnlessFails(rows: seq<Row>, source: int, c: Coord, targets: Option<seq<real>>)
    ensures !CoordFails(rows, source, c, targets) ==> HasTarget(targets, c)
  {
  }

  /** The UPDATE closes the sensor. */
  lemma ClosedRows(rows: seq<Row>, after: seq<Row>, serial: int, now: Time)
    requires |after| == |rows|
    requires forall i :: 0 <= i < |after| ==> after[i].(end := rows[i].end) == rows[i]
    requires forall i :: 0 <= i < |after| && after[i].serial == serial && after[i].start != now ==> after[i].end == Some(now)
    requires forall i :: 0 <= i < |after| && (after[i].serial != serial || after[i].start == now) ==> after[i] == rows[i]
    ensures after == Close(rows, serial, now)
  {
    forall i | 0 <= i < |after| ensures after[i] == CloseRow(rows[i], serial, now) {
    }
  }

  /** The target, if one is given, in front of the other thirteen columns, one after the other. */
  method BuildColumns(calibration: Columns, target: Option<real>) returns (columns: Columns)
    ensures columns == if target.Some? then [target.value] + calibration[1..] else calibration
  {
    var data: seq<real> := [];
    if target.Some? {
      data := [target.value];
      for i := 1 to |calibration| - 1
        invariant data == [target.value] + calibration[1..i]
      {
        data := data + [calibration[i]];
      }
    } else {
      for i := 0 to |calibration| - 1
        invariant data == calibration[..i]
      {
        data := data + [calibration[i]];
      }
    }
    columns := data + [calibration[|calibration| - 1]];
  }

  lemma ActiveLast(rows: seq<Row>, r: Row, serial: int, c: Coord)
    ensures Active(rows + [r], serial, c) == if IsActive(r, serial, c) then Active(rows, serial, c) + [r] else Active(rows, serial, c)
  {
    assert (rows + [r])[..|rows|] == rows;
  }

  /** A row added for the first coordinate is not seen when the second is read. */
  lemma RowOfOtherCoordinate(before: seq<Row>, source: int, serial: int, targets: Option<seq<real>>, now: Time)
    requires HasTarget(targets, X)
    ensures var rows := before + [NewRow(before, source, serial, X, targets, now)];
            && Active(rows, source, Y) == Active(before, source, Y)
            && CoordFails(rows, source, Y, targets) == CoordFails(before, source, Y, targets)
            && (HasTarget(targets, Y) ==>
                  NewRow(rows, source, serial, Y, targets, now) == NewRow(before, source, serial, Y, targets, now))
  {
    var row := NewRow(before, source, serial, X, targets, now);
    ActiveLast(before, row, source, Y);
  }

  /* ---------- what one update does ---------- */

  function OfSensor(rows: seq<Row>, serial: int): seq<Row> {
    if rows == [] then [] else
    var n := |rows| - 1;
    if rows[n].serial == serial then OfSensor(rows[..n], serial) + [rows[n]] else OfSensor(rows[..n], serial)
  }

  /** Of some rows, those that started at the time of the run; closing a sensor does not reach them. */
  function StartedNow(rows: seq<Row>, now: Time): seq<Row> {
    if rows == [] then [] else
    var n := |rows| - 1;
    if rows[n].start == now then StartedNow(rows[..n], now) + [rows[n]] else StartedNow(rows[..n], now)
  }

  lemma StartedNowLast(rows: seq<Row>, r: Row, now: Time)
    ensures StartedNow(rows + [r], now) == if r.start == now then StartedNow(rows, now) + [r] else StartedNow(rows, now)
  {
    assert (rows + [r])[..|rows|] == rows;
  }

  lemma CloseLast(rows: seq<Row>, r: Row, closed: int, now: Time)
    ensures Close(rows + [r], closed, now) == Close(rows, closed, now) + [CloseRow(r, closed, now)]
  {
  }

  lemma {:induction false} ActiveAfterClose(rows: seq<Row>, closed: int, now: Time, serial: int, c: Coord)
    ensures Active(Close(rows, closed, now), serial, c)
            == if serial == closed then StartedNow(Active(rows, serial, c), now) else Active(rows, serial, c)
  {
    if rows != [] {
      hide Active, StartedNow, Close;
      var n := |rows| - 1;
      var front, last := rows[..n], rows[n];
      assert rows == front + [last];
      ActiveAfterClose(front, closed, now, serial, c);
      ActiveLast(front, last, serial, c);
      CloseLast(front, last, closed, now);
      ActiveLast(Close(front, closed, now), CloseRow(last, closed, now), serial, c);
      StartedNowLast(Active(front, serial, c), last, now);
    }
  }

  lemma {:induction false} OthersAfterClose(rows: seq<Row>, closed: int, now: Time, serial: int)
    requires serial != closed
    ensures OfSensor(Close(rows, closed, now), serial) == OfSensor(rows, serial)
  {
    if rows != [] {
      var n := |rows| - 1;
      OthersAfterClose(rows[..n], closed, now, serial);
      assert Close(rows, closed, now)[..n] == Close(rows[..n], closed, now);
    }
  }

  lemma OthersAfterInsert(rows: seq<Row>, r: Row, serial: int)
    requires r.serial != serial
    ensures OfSensor(rows + [r], serial) == OfSensor(rows, serial)
  {
    assert (rows + [r])[..|rows|] == rows;
  }

  /** Rows made for `serial` and the closing of `source` leave every other sensor's rows alone. */
  lemma OthersUntouched(rows: seq<Row>, source: int, serial: int, targets: Option<seq<real>>, now: Time, other: int)
    requires !Fails(rows, source, targets) && other != source && other != serial
    ensures OfSensor(Succeeded(rows, source, serial, targets, now), other) == OfSensor(rows, other)
  {
    hide OfSensor, NewRow, Close;
    var x := NewRowFor(rows, source, serial, X, targets, now);
    var y := NewRowFor(rows, source, serial, Y, targets, now);
    OthersAfterInsert(rows, x, other);
    OthersAfterInsert(rows + [x], y, other);
    OthersAfterClose(rows + [x] + [y], source, now, other);
  }

  /** The active rows afterwards: for the sensor itself, those that started in this very run and the new
      one; for a replacement, its own and the new one. */
  lemma ActiveAfterwards(rows: seq<Row>, source: int, serial: int, targets: Option<seq<real>>, now: Time, c: Coord)
    requires !Fails(rows, source, targets)
    ensures var active := Active(rows, serial, c);
            Active(Succeeded(rows, source, serial, targets, now), serial, c)
            == (if serial == source then StartedNow(active, now) else active) + [NewRow(rows, source, serial, c, targets, now)]
  {
    hide Active, StartedNow, Close, NewRow;
    var x := NewRowFor(rows, source, serial, X, targets, now);
    var y := NewRowFor(rows, source, serial, Y, targets, now);
    ActiveLast(rows, x, serial, c);
    ActiveLast(rows + [x], y, serial, c);
    ActiveAfterClose(rows + [x] + [y], source, now, serial, c);
    StartedNowLast(Active(rows, serial, c), if c == X then x else y, now);
  }

  lemma NewRowFor(rows: seq<Row>, source: int, serial: int, c: Coord, targets: Option<seq<real>>, now: Time) returns (r: Row)
    requires HasTarget(targets, c)
    ensures r == NewRow(rows, source, serial, c, targets, now)
    ensures r.start == now && r.end.None? && r.serial == serial && r.coord == c
  {
    r := NewRow(rows, source, serial, c, targets, now);
  }

  /** An update leaves exactly one active row for a coordinate unless an active row started at the time of
      the run; that row inherits all columns but the target. */
  lemma OneActiveRow(rows: seq<Row>, serial: int, targets: seq<real>, now: Time, c: Coord)
    requires !Fails(rows, serial, Some(targets))
    ensures var active := Active(Succeeded(rows, serial, serial, Some(targets), now), serial, c);
            && (|active| == 1 <==> StartedNow(Active(rows, serial, c), now) == [])
            && (|active| == 1 ==> active == [NewRow(rows, serial, serial, c, Some(targets), now)])
  {
    hide Active, StartedNow, NewRow, Succeeded;
    ActiveAfterwards(rows, serial, serial, Some(targets), now, c);
  }

  /** Told by the rows alone: the one open row per coordinate starts at the time of the run, with the target
      for its coordinate and the other columns of the row it replaces. */
  ghost predicate SensorUpdated(before: seq<Row>, after: seq<Row>, serial: int, x: real, y: real, now: Time) {
    TookOver(before, after, serial, serial, X, Some(x), now) && TookOver(before, after, serial, serial, Y, Some(y), now)
  }

  /** A replacement without rows of its own gets one active row per coordinate, made from the replaced
      sensor's; the replaced sensor keeps only active rows that started at the time of the run. */
  lemma ReplacementTakesOver(rows: seq<Row>, source: int, serial: int, targets: Option<seq<real>>, now: Time, c: Coord)
    requires !Fails(rows, source, targets) && serial != source && Active(rows, serial, c) == []
    ensures var after := Succeeded(rows, source, serial, targets, now);
            && Active(after, serial, c) == [NewRow(rows, source, serial, c, targets, now)]
            && (exists target :: IsTargetFor(target, targets, c) && TookOver(rows, after, source, serial, c, target, now))
            && Active(after, source, c) == StartedNow(Active(rows, source, c), now)
  {
    TargetIs(targets, c);
    hide Active, StartedNow, NewRow, Close, IsTargetFor, TargetFor, TookOver;
    OneActiveTookOver(rows, Succeeded(rows, source, serial, targets, now), source, serial, c, targets, now) by {
      ActiveAfterwards(rows, source, serial, targets, now, c);
    }
    ActiveAfterwards(rows, source, serial, targets, now, c);
    var x := NewRowFor(rows, source, serial, X, targets, now);
    var y := NewRowFor(rows, source, serial, Y, targets, now);
    ActiveLast(rows, x, source, c);
    ActiveLast(rows + [x], y, source, c);
    ActiveAfterClose(rows + [x] + [y], source, now, source, c);
  }

  /* ---------- updating a list of sensors ---------- */

  /** Whether an entry can be applied, and leave one active row per coordinate. */
  predicate Applicable(rows: seq<Row>, u: Update, now: Time) {
    && !Fails(rows, u.serial, Some(u.targets))
    && StartedNow(Active(rows, u.serial, X), now) == [] && StartedNow(Active(rows, u.serial, Y), now) == []
  }

  predicate Listed(list: seq<Update>, n: nat, serial: int)
    requires n <= |list|
  {
    exists k :: 0 <= k < n && list[k].serial == serial
  }

  predicate DistinctSerials(list: seq<Update>) {
    forall j, k :: 0 <= j < k < |list| ==> list[j].serial != list[k].serial
  }

  /** The active row an entry leaves. */
  predicate IsUpdated(before: seq<Row>, after: seq<Row>, u: Update, now: Time)
    requires |u.targets| >= 2
  {
    && Active(after, u.serial, X) == [NewRow(before, u.serial, u.serial, X, Some(u.targets), now)]
    && Active(after, u.serial, Y) == [NewRow(before, u.serial, u.serial, Y, Some(u.targets), now)]
  }

  lemma {:induction false} ActiveOfSensor(rows: seq<Row>, serial: int, c: Coord)
    ensures Active(OfSensor(rows, serial), serial, c) == Active(rows, serial, c)
  {
    if rows != [] {
      var n := |rows| - 1;
      ActiveOfSensor(rows[..n], serial, c);
      ActiveLast(OfSensor(rows[..n], serial), rows[n], serial, c);
    }
  }

  /** What the table says of a sensor depends on the sensor's own rows only. */
  lemma SameRowsSameUpdate(rows: seq<Row>, others: seq<Row>, u: Update, now: Time)
    requires OfSensor(rows, u.serial) == OfSensor(others, u.serial)
    ensures Applicable(rows, u, now) == Applicable(others, u, now)
    ensures |u.targets| >= 2 ==> forall after :: IsUpdated(rows, after, u, now) == IsUpdated(others, after, u, now)
    ensures |u.targets| >= 2 ==> forall before :: IsUpdated(before, rows, u, now) == IsUpdated(before, others, u, now)
  {
    ActiveOfSensor(rows, u.serial, X);
    ActiveOfSensor(rows, u.serial, Y);
    ActiveOfSensor(others, u.serial, X);
    ActiveOfSensor(others, u.serial, Y);
    hide Active, OfSensor, StartedNow;
  }

  lemma UpdateApplies(rows: seq<Row>, u: Update, now: Time)
    requires Applicable(rows, u, now)
    ensures |u.targets| >= 2
    ensures IsUpdated(rows, Succeeded(rows, u.serial, u.serial, Some(u.targets), now), u, now)
  {
    OneActiveRow(rows, u.serial, u.targets, now, X);
    OneActiveRow(rows, u.serial, u.targets, now, Y);
    hide Active, NewRow, Succeeded, StartedNow;
  }

  /** Updating a list of different sensors, each of which can be updated, leaves each of them with one
      active row per coordinate: the new target and, in their own columns, the predecessor's other
      thirteen values, or -1. All other sensors' rows stay as they were. */
  lemma ListUpdated(rows: seq<Row>, list: seq<Update>, now: Time)
    requires DistinctSerials(list) && forall k :: 0 <= k < |list| ==> Applicable(rows, list[k], now)
    ensures AfterList(rows, list, |list|, now).ok
    ensures var after := AfterList(rows, list, |list|, now).rows;
            && (forall k :: 0 <= k < |list| ==>
                 |list[k].targets| >= 2
                 && SensorUpdated(rows, after, list[k].serial, list[k].targets[0], list[k].targets[1], now))
            && (forall serial :: !Listed(list, |list|, serial) ==> OfSensor(after, serial) == OfSensor(rows, serial))
  {
    ListUpdatedUpTo(rows, list, |list|, now);
    hide AfterList, IsUpdated, Applicable, SensorUpdated;
    var after := AfterList(rows, list, |list|, now).rows;
    forall k | 0 <= k < |list|
      ensures |list[k].targets| >= 2 && SensorUpdated(rows, after, list[k].serial, list[k].targets[0], list[k].targets[1], now)
    {
      UpdatedInRows(rows, after, list[k], now);
    }
  }

  lemma UpdatedInRows(rows: seq<Row>, after: seq<Row>, u: Update, now: Time)
    requires |u.targets| >= 2 && Applicable(rows, u, now) && IsUpdated(rows, after, u, now)
    ensures SensorUpdated(rows, after, u.serial, u.targets[0], u.targets[1], now)
  {
    TargetIs(Some(u.targets), X);
    TargetIs(Some(u.targets), Y);
    hide Active, NewRow, StartedNow, TookOver, TargetFor;
    OneActiveTookOver(rows, after, u.serial, u.serial, X, Some(u.targets), now);
    OneActiveTookOver(rows, after, u.serial, u.serial, Y, Some(u.targets), now);
  }

  lemma {:induction false} NoneStartedNow(rows: seq<Row>, now: Time)
    ensures StartedNow(rows, now) == [] <==> forall r :: r in rows ==> r.start != now
  {
    if rows != [] {
      NoneStartedNow(rows[..|rows| - 1], now);
      assert rows == rows[..|rows| - 1] + [rows[|rows| - 1]];
    }
  }

  lemma NoActiveStartedNow(rows: seq<Row>, serial: int, c: Coord, now: Time)
    ensures StartedNow(Active(rows, serial, c), now) == [] <==>
            forall i :: OpenAt(rows, serial, c, i) ==> rows[i].start != now
  {
    NoneStartedNow(Active(rows, serial, c), now);
    ActiveAreOpen(rows, serial, c);
    hide Active, StartedNow;
  }

  /** At most one row of the sensor and coordinate is open, and none that is started now. */
  ghost predicate ReadyFor(rows: seq<Row>, serial: int, c: Coord, now: Time) {
    && (forall i, j :: OpenAt(rows, serial, c, i) && OpenAt(rows, serial, c, j) ==> i == j)
    && (forall i :: OpenAt(rows, serial, c, i) ==> rows[i].start != now)
  }

  /** An entry can be applied exactly when it has two targets, no two rows of the sensor and the same
      coordinate are open, and none that is open started at the time of the run. */
  lemma ApplicableIff(rows: seq<Row>, u: Update, now: Time)
    ensures Applicable(rows, u, now) <==>
            |u.targets| >= 2 && ReadyFor(rows, u.serial, X, now) && ReadyFor(rows, u.serial, Y, now)
  {
    hide CoordFails, Active, StartedNow, OpenAt;
    FailsIff(rows, u.serial, X, Some(u.targets));
    FailsIff(rows, u.serial, Y, Some(u.targets));
    NoActiveStartedNow(rows, u.serial, X, now);
    NoActiveStartedNow(rows, u.serial, Y, now);
  }

  ghost predicate UpdatedUpTo(rows: seq<Row>, after: seq<Row>, list: seq<Update>, n: nat, now: Time)
    requires n <= |list|
  {
    && (forall k :: 0 <= k < n ==> |list[k].targets| >= 2 && IsUpdated(rows, after, list[k], now))
    && (forall serial :: !Listed(list, n, serial) ==> OfSensor(after, serial) == OfSensor(rows, serial))
  }

  lemma {:induction false} ListUpdatedUpTo(rows: seq<Row>, list: seq<Update>, n: nat, now: Time)
    requires n <= |list| && DistinctSerials(list) && forall k :: 0 <= k < |list| ==> Applicable(rows, list[k], now)
    ensures AfterList(rows, list, n, now).ok
    ensures UpdatedUpTo(rows, AfterList(rows, list, n, now).rows, list, n, now)
  {
    hide *;
    if n == 0 {
      NothingUpdated(rows, list, now);
    } else {
      ListUpdatedUpTo(rows, list, n - 1, now);
      var before, u := AfterList(rows, list, n - 1, now).rows, list[n - 1];
      NotYetUpdated(rows, before, list, n, now);
      SameRowsSameUpdate(before, rows, u, now);
      ApplicableWorks(before, u, now);
      NextUpdate(rows, list, n, now);
      OneMore(rows, before, Succeeded(before, u.serial, u.serial, Some(u.targets), now), list, n, now);
    }
  }

  lemma NothingUpdated(rows: seq<Row>, list: seq<Update>, now: Time)
    ensures AfterList(rows, list, 0, now) == Outcome(true, rows) && UpdatedUpTo(rows, rows, list, 0, now)
  {
  }

  lemma NextUpdate(rows: seq<Row>, list: seq<Update>, n: nat, now: Time)
    requires 0 < n <= |list| && AfterList(rows, list, n - 1, now).ok
    requires !Fails(AfterList(rows, list, n - 1, now).rows, list[n - 1].serial, Some(list[n - 1].targets))
    ensures var u := list[n - 1];
            AfterList(rows, list, n, now)
            == Outcome(true, Succeeded(AfterList(rows, list, n - 1, now).rows, u.serial, u.serial, Some(u.targets), now))
  {
  }

  lemma NotYetUpdated(rows: seq<Row>, before: seq<Row>, list: seq<Update>, n: nat, now: Time)
    requires 0 < n <= |list| && DistinctSerials(list) && UpdatedUpTo(rows, before, list, n - 1, now)
    ensures OfSensor(before, list[n - 1].serial) == OfSensor(rows, list[n - 1].serial)
  {
    assert !Listed(list, n - 1, list[n - 1].serial);
  }

  lemma OneMore(rows: seq<Row>, before: seq<Row>, after: seq<Row>, list: seq<Update>, n: nat, now: Time)
    requires 0 < n <= |list| && DistinctSerials(list) && UpdatedUpTo(rows, before, list, n - 1, now)
    requires Applicable(rows, list[n - 1], now) && Applicable(before, list[n - 1], now)
    requires after == Succeeded(before, list[n - 1].serial, list[n - 1].serial, Some(list[n - 1].targets), now)
    ensures UpdatedUpTo(rows, after, list, n, now)
  {
    hide Succeeded, OfSensor, IsUpdated, Applicable, StartedNow;
    var u := list[n - 1];
    assert !Listed(list, n - 1, u.serial);
    assert !Fails(before, u.serial, Some(u.targets)) by { ApplicableWorks(before, u, now); }
    UpdateApplies(before, u, now);
    SameRowsSameUpdate(before, rows, u, now);
    forall serial | serial != u.serial ensures OfSensor(after, serial) == OfSensor(before, serial) {
      OthersUntouched(before, u.serial, u.serial, Some(u.targets), now, serial);
    }
    forall k | 0 <= k < n - 1 ensures |list[k].targets| >= 2 && IsUpdated(rows, after, list[k], now) {
      SameRowsSameUpdate(after, before, list[k], now);
    }
    assert forall serial :: !Listed(list, n, serial) ==> !Listed(list, n - 1, serial) && serial != u.serial;
  }

  lemma ApplicableWorks(rows: seq<Row>, u: Update, now: Time)
    requires Applicable(rows, u, now)
    ensures !Fails(rows, u.serial, Some(u.targets))
  {
  }

  /* ---------- history ---------- */

  predicate ActiveAt(r: Row, t: Time) { r.start <= t && (r.end.None? || t < r.end.value) }

  /** An update keeps every old row, except that it also gives the rows closed earlier a new end date:
      a row stays as it was exactly when it belongs to another sensor, started at the time of the run, or
      was closed at that very time. */
  lemma EndDatesRewritten(rows: seq<Row>, source: int, serial: int, targets: Option<seq<real>>, now: Time, i: nat)
    requires !Fails(rows, source, targets) && i < |rows|
    ensures var after := Succeeded(rows, source, serial, targets, now)[i];
            && after.(end := rows[i].end) == rows[i]
            && (after == rows[i] <==> rows[i].serial != source || rows[i].start == now || rows[i].end == Some(now))
  {
  }

  /** What the table says was active at time `t`. */
  function AsOf(rows: seq<Row>, serial: int, c: Coord, t: Time): seq<Columns> {
    if rows == [] then [] else
    var n := |rows| - 1;
    var past := AsOf(rows[..n], serial, c, t);
    if rows[n].serial == serial && rows[n].coord == c && ActiveAt(rows[n], t) then past + [rows[n].columns] else past
  }

  /** How many rows were over by time `t`. */
  function OverBy(rows: seq<Row>, serial: int, c: Coord, t: Time): nat {
    if rows == [] then 0 else
    var n := |rows| - 1;
    var r := rows[n];
    OverBy(rows[..n], serial, c, t)
    + if r.serial == serial && r.coord == c && r.start <= t && r.end.Some? && r.end.value <= t then 1 else 0
  }

  /** The columns of all rows that had started by time `t`. */
  function StartedBy(rows: seq<Row>, serial: int, c: Coord, t: Time): seq<Columns> {
    if rows == [] then [] else
    var n := |rows| - 1;
    var past := StartedBy(rows[..n], serial, c, t);
    if rows[n].serial == serial && rows[n].coord == c && rows[n].start <= t then past + [rows[n].columns] else past
  }

  lemma {:induction false} AsOfAfterClose(rows: seq<Row>, closed: int, now: Time, serial: int, c: Coord, t: Time)
    requires t < now
    ensures AsOf(Close(rows, closed, now), serial, c, t)
            == if serial == closed then StartedBy(rows, serial, c, t) else AsOf(rows, serial, c, t)
  {
    if rows != [] {
      var n := |rows| - 1;
      assert Close(rows, closed, now)[..n] == Close(rows[..n], closed, now);
      AsOfAfterClose(rows[..n], closed, now, serial, c, t);
    }
  }

  /** The rows over by time `t` are what the rows started by then have more than the rows active then. */
  lemma {:induction false} StartedIsActiveOrOver(rows: seq<Row>, serial: int, c: Coord, t: Time)
    ensures |StartedBy(rows, serial, c, t)| == |AsOf(rows, serial, c, t)| + OverBy(rows, serial, c, t)
    ensures OverBy(rows, serial, c, t) == 0 <==> StartedBy(rows, serial, c, t) == AsOf(rows, serial, c, t)
  {
    if rows != [] {
      StartedIsActiveOrOver(rows[..|rows| - 1], serial, c, t);
    }
  }

  lemma NotYetActive(rows: seq<Row>, r: Row, serial: int, c: Coord, t: Time)
    requires t < r.start
    ensures AsOf(rows + [r], serial, c, t) == AsOf(rows, serial, c, t)
    ensures StartedBy(rows + [r], serial, c, t) == StartedBy(rows, serial, c, t)
  {
    assert (rows + [r])[..|rows|] == rows;
  }

  /** An update changes what the table says about the past of the sensor: as of any earlier time, every row
      that had started by then is active, the rows that were over by then among them. It says the same as
      before exactly when there is no such row; of other sensors it always says the same. */
  lemma PastRewritten(rows: seq<Row>, source: int, serial: int, targets: Option<seq<real>>, now: Time, other: int, c: Coord, t: Time)
    requires !Fails(rows, source, targets) && t < now
    ensures var after := Succeeded(rows, source, serial, targets, now);
            && AsOf(after, source, c, t) == StartedBy(rows, source, c, t)
            && (AsOf(after, source, c, t) == AsOf(rows, source, c, t) <==> OverBy(rows, source, c, t) == 0)
            && (other != source ==> AsOf(after, other, c, t) == AsOf(rows, other, c, t))
  {
    hide AsOf, OverBy, StartedBy, Close, NewRow;
    var x := NewRowFor(rows, source, serial, X, targets, now);
    var y := NewRowFor(rows, source, serial, Y, targets, now);
    NotYetActive(rows, x, source, c, t);
    NotYetActive(rows + [x], y, source, c, t);
    NotYetActive(rows, x, other, c, t);
    NotYetActive(rows + [x], y, other, c, t);
    AsOfAfterClose(rows + [x] + [y], source, now, source, c, t);
    AsOfAfterClose(rows + [x] + [y], source, now, other, c, t);
    StartedIsActiveOrOver(rows, source, c, t);
  }

  /** Row `i` of the sensor and coordinate had started by time `t`. */
  ghost predicate StartedAt(rows: seq<Row>, serial: int, c: Coord, t: Time, i: int) {
    0 <= i < |rows| && rows[i].serial == serial && rows[i].coord == c && rows[i].start <= t
  }

  lemma {:induction false} StartedByAre(rows: seq<Row>, serial: int, c: Coord, t: Time)
    ensures forall columns :: columns in StartedBy(rows, serial, c, t) <==>
              exists i :: StartedAt(rows, serial, c, t, i) && rows[i].columns == columns
  {
    if rows != [] {
      var n := |rows| - 1;
      StartedByAre(rows[..n], serial, c, t);
      assert forall i :: 0 <= i < n ==> rows[..n][i] == rows[i];
      assert forall i :: i < n ==> (StartedAt(rows, serial, c, t, i) <==> StartedAt(rows[..n], serial, c, t, i));
    }
  }

  lemma {:induction false} AsOfAre(rows: seq<Row>, serial: int, c: Coord, t: Time)
    ensures forall columns :: columns in AsOf(rows, serial, c, t) <==>
              exists i :: StartedAt(rows, serial, c, t, i) && (rows[i].end == None || t < rows[i].end.value) && rows[i].columns == columns
    ensures OverBy(rows, serial, c, t) == 0 <==>
            forall i :: StartedAt(rows, serial, c, t, i) ==> rows[i].end == None || t < rows[i].end.value
  {
    if rows != [] {
      var n := |rows| - 1;
      AsOfAre(rows[..n], serial, c, t);
      assert forall i :: 0 <= i < n ==> rows[..n][i] == rows[i];
      assert forall i :: i < n ==> (StartedAt(rows, serial, c, t, i) <==> StartedAt(rows[..n], serial, c, t, i));
    }
  }

  /** In the rows' own terms: the table says that columns applied at an earlier time if and only if, before the
      update, they were those of a row that was then under way, and after it, of a row that had then started;
      so what it says changes exactly if some row had both started and ended by then. */
  lemma PastInRows(rows: seq<Row>, source: int, serial: int, targets: Option<seq<real>>, now: Time, c: Coord, t: Time, columns: Columns)
    requires !Fails(rows, source, targets) && t < now
    ensures var after := Succeeded(rows, source, serial, targets, now);
            && (columns in AsOf(rows, source, c, t) <==>
                exists i :: StartedAt(rows, source, c, t, i) && (rows[i].end == None || t < rows[i].end.value) && rows[i].columns == columns)
            && (columns in AsOf(after, source, c, t) <==>
                exists i :: StartedAt(rows, source, c, t, i) && rows[i].columns == columns)
            && (AsOf(after, source, c, t) != AsOf(rows, source, c, t) <==>
                exists i :: StartedAt(rows, source, c, t, i) && rows[i].end != None && rows[i].end.value <= t)
  {
    hide *;
    PastRewritten(rows, source, serial, targets, now, source, c, t);
    AsOfAre(rows, source, c, t);
    StartedByAre(rows, source, c, t);
  }
}
