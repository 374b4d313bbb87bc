/** What the calculations hand to the protocol: each of them stays within what the protocol allows its
    method to produce, and whether the mirror accepts the plan is told by the inputs. */
module Calculations {
  import opened AlignPlan
  import opened AlignScenarios
  import opened Basics
  import opened DeviceIdentity
  import opened LinearAlgebra
  import opened PanelFrames
  import opened RingSystem
  import opened RingTopology
  import opened SaveFiles
  import opened SectorSystem
  import opened SelectionText
  import TargetFile
  import opened Traversals

  /** The mirror is not left busy by this calculation, whatever its state was. */
  ghost predicate Succeeds(c: Calculation) {
    forall s, m :: !CalculateStep(s, m, c).0.state.Busy?
  }

  lemma SucceedsIff(c: Calculation)
    ensures Succeeds(c) <==> c.Planned? && c.good && |c.x| == 6 * |c.panels|
    ensures Succeeds(c) <==> exists s, m :: !CalculateStep(s, m, c).0.state.Busy?
  {
    assert CalculateStep(INITIAL, AlignSector, c).0.state.Busy? <==> !(c.Planned? && c.good && |c.x| == 6 * |c.panels|);
  }

  /* ---------- moving by or to mirror coordinates ---------- */

  lemma {:induction false} MovableNames(g: Geometry, selected: seq<PanelId>)
    requires NoDuplicates(selected)
    ensures NoDuplicates(Movable(g, selected)) && forall p :: p in Movable(g, selected) ==> p in selected
    ensures |Movable(g, selected)| <= |selected|
    ensures |Movable(g, selected)| == |selected| <==> forall p :: p in selected ==> g.ring(p) != 0
  {
    if selected != [] {
      var n := |selected| - 1;
      MovableNames(g, selected[..n]);
      assert selected == selected[..n] + [selected[n]];
      assert selected[n] !in selected[..n];
    }
  }

  /** The calculation of a mirror motion, as the protocol sees it. The optical table is left out of the
      motion but has its six entries in the vector, so the mirror accepts the plan exactly when the table
      is not selected. */
  method MoveMirror(g: Geometry, w: Platform, selected: seq<PanelId>, delta: seq<real>, rest: Vec)
    returns (c: Calculation)
    requires |rest| == 6 * |selected| && NoDuplicates(selected)
    ensures CanCalculate(MoveDeltaCoords, c) && CanCalculate(MoveToCoords, c) && !c.InnerAborted?
    ensures c.Aborted? <==> exists p :: p in Movable(g, selected) && w.lengths(p).None?
    ensures c.Planned? ==> c.panels == Movable(g, selected) && |c.x| >= 6 * |c.panels|
    ensures c.Planned? ==> forall k :: 0 <= k < |c.panels| ==> TakesPadsAlong(g, w, c.panels[k], delta, Slice(c.x, k))
    ensures Succeeds(c) <==> c.Planned? && forall p :: p in selected ==> g.ring(p) != 0
  {
    hide TakesPadsAlong, Slice, Movable, Succeeds;
    MovableNames(g, selected);
    var plan := CalculateMoveDelta(g, w, selected, delta, rest);
    match plan {
      case None => c := Aborted;
      case Some((x, panels)) => c := Planned(x, panels, true);
    }
    SucceedsIff(c);
  }

  /* ---------- loading actuator lengths ---------- */

  /** Every child has its own controller. */
  ghost predicate Numbered(children: seq<Child>, number: Identity -> PanelId) {
    forall i, j :: 0 <= i < j < |children| ==> number(children[i].id) != number(children[j].id)
  }

  function Numbers(children: seq<Child>, number: Identity -> PanelId): (ids: seq<PanelId>)
    ensures |ids| == |children| && forall i :: 0 <= i < |ids| ==> ids[i] == number(children[i].id)
  {
    seq<PanelId>(|children|, (i: nat) requires i < |children| => number(children[i].id))
  }

  lemma {:induction false} ToMoveNames(children: seq<Child>, entries: Entries, number: Identity -> PanelId)
    requires Numbered(children, number)
    ensures Numbered(ToMove(children, entries), number) && forall p :: p in ToMove(children, entries) ==> p in children
    ensures |ToMove(children, entries)| <= |children|
    ensures |ToMove(children, entries)| == |children| <==> forall p :: p in children ==> Moves(p, entries)
  {
    hide Moves;
    if children != [] {
      var n := |children| - 1;
      ToMoveNames(children[..n], entries, number);
      assert children == children[..n] + [children[n]];
      assert forall p :: p in children[..n] ==> number(p.id) != number(children[n].id);
    }
  }

  /** The calculation that loads a file of lengths, as the protocol sees it. The vector has entries for all
      children, so the mirror accepts the plan exactly when every child is to move: none is the optical
      table, and the file names them all. */
  method LoadLengths(lines: seq<Line>, mirror: Identity, children: seq<Child>, number: Identity -> PanelId,
                     scratch: Six, rest: Vec)
    returns (c: Calculation)
    requires |rest| == 6 * |children| && Numbered(children, number)
    ensures CanCalculate(Method.LoadActuatorLengths, c) && !c.InnerAborted?
    ensures c.Aborted? <==> Loaded(lines, mirror, scratch).None? || exists k :: 0 <= k < |children| && !children[k].readable
    ensures c.Planned? ==>
              var entries := Loaded(lines, mirror, scratch).value;
              && IsPlan(entries, children, c.x, ToMove(children, entries))
              && c.panels == Numbers(ToMove(children, entries), number)
    ensures Succeeds(c) <==>
            && c.Planned?
            && var entries := Loaded(lines, mirror, scratch).value;
               (forall p :: p in children ==> Moves(p, entries)) && LastStatus(children, entries)
  {
    hide IsPlan, Succeeds, Loaded, Moves, LastStatus;
    var plan, good := CalculateLoadActuatorLengths(lines, mirror, children, scratch, rest);
    match plan {
      case None => c := Aborted;
      case Some((x, panels)) =>
        PlanMoves(Loaded(lines, mirror, scratch).value, children, x, panels);
        ToMoveNames(children, Loaded(lines, mirror, scratch).value, number);
        c := Planned(x, Numbers(panels, number), good);
    }
    SucceedsIff(c);
  }

  /** The calculation that loads a file of coordinate changes, as the protocol sees it. */
  method LoadDeltas(lines: seq<Line>, mirror: Identity, children: seq<Child>, number: Identity -> PanelId,
                    platform: Stewart, scratch: Six, rest: Vec)
    returns (c: Calculation)
    requires |rest| == 6 * |children| && Numbered(children, number)
    ensures CanCalculate(Method.LoadDeltaCoords, c) && !c.InnerAborted?
    ensures c.Aborted? <==>
            Loaded(lines, mirror, scratch).None? || exists k :: 0 <= k < |children| && !children[k].isTable && !children[k].readable
    ensures c.Planned? ==>
              var entries := Loaded(lines, mirror, scratch).value;
              var panels := ToMove(children, entries);
              && c.panels == Numbers(panels, number) && 6 * |panels| <= |c.x|
              && forall k :: 0 <= k < |panels| ==> Shifts(entries, platform, panels[k], Slice(c.x, k))
    ensures Succeeds(c) <==>
            && c.Planned?
            && var entries := Loaded(lines, mirror, scratch).value;
               (forall p :: p in children ==> Moves(p, entries)) && LastDeltaStatus(children, entries)
  {
    hide Succeeds, Loaded, Moves, LastDeltaStatus, Shifts, Slice, ToMove;
    var plan, good := CalculateLoadDeltaCoords(lines, mirror, children, platform, scratch, rest);
    match plan {
      case None => c := Aborted;
      case Some((x, panels)) =>
        ToMoveNames(children, Loaded(lines, mirror, scratch).value, number);
        c := Planned(x, Numbers(panels, number), good);
    }
    SucceedsIff(c);
  }

  lemma PlanMoves(entries: Entries, children: seq<Child>, x: Vec, panels: seq<Child>)
    requires IsPlan(entries, children, x, panels)
    ensures panels == ToMove(children, entries) && 6 * |panels| <= |x|
  {
  }

  /* ---------- aligning a ring ---------- */

  function Positions(panels: seq<Place>): (ids: seq<PanelId>)
    ensures |ids| == |panels| && forall i :: 0 <= i < |ids| ==> ids[i] == Position(panels[i])
  {
    seq<PanelId>(|panels|, (i: nat) requires i < |panels| => Position(panels[i]))
  }

  lemma PositionsDiffer(p: Place, q: Place)
    requires IsPanel(p) && IsPanel(q) && p != q
    ensures Position(p) != Position(q)
  {
    DigitsOfPosition(p);
    DigitsOfPosition(q);
    hide Position, RingTopology.Digits;
  }

  /** What the ring calculation returns as a plan is what the protocol takes ring plans to be. */
  lemma RingPlanIsPossible(fix: Place, w: RingWorld, z: Vec, panels: seq<Place>)
    requires IsPanel(fix) && |z| == 6 * Size(fix) && |panels| == Size(fix)
    requires forall b :: 0 <= b < |panels| ==> panels[b] == PanelAt(fix, b)
    ensures CanCalculate(AlignRing, Planned(z[6..], Positions(panels), true))
  {
    RingPlanIsOnePanelShort(fix, w, z, panels);
    hide PanelAt, Position, IsPanel;
    forall i, j | 0 <= i < j < |panels| ensures Positions(panels)[i] != Positions(panels)[j] {
      RingStep(w, fix, i);
      RingStep(w, fix, j);
      PositionsDiffer(panels[i], panels[j]);
    }
  }

  /** No execution moves the panels by the plan of this calculation, even after a stop. */
  ghost predicate NeverMoves(c: Calculation)
    requires c.Planned?
  {
    forall s, m, f, d: Dispatch :: Covers(d.order, |c.panels|) ==>
      !ExecuteStep(CalculateStep(s, AlignRing, c).0.(state := Off), m, f, d).1.Moved?
  }

  /** The ring calculation, as the protocol sees it, never succeeds, and a plan it stores never moves:
      whatever the ring, its children and its readings are. */
  method AlignWholeRing(fix: Place, w: RingWorld, kept: map<nat, Offset>)
    returns (c: Calculation, given: map<(Edge, nat), Offset>)
    requires IsPanel(fix) && 1 <= fix.mirror <= 3
    requires (forall m, v :: |w.solve(m, v)| == |v|) && (forall e :: |w.positions(e)| <= 3)
    ensures CanCalculate(AlignRing, c) && !Succeeds(c) && !c.InnerAborted?
    ensures c.Planned? <==> fix.mirror != 3 && Complete(w, fix, Size(fix)) && AllKnown(w, fix, kept)
    ensures c.Planned? ==> NeverMoves(c)
    ensures c.Planned? ==>
              && c.x == w.solve(RingMatrix(w, fix, Size(fix)), Misalignments(w, fix, Size(fix)))[6..]
              && |c.panels| == Size(fix) && forall b :: 0 <= b < |c.panels| ==> c.panels[b] == Position(PanelAt(fix, b))
  {
    hide *;
    var plan;
    plan, given := CalculateAlignRing(fix, w, kept);
    match plan {
      case RingPlan(_, x, panels) =>
        ghost var z := w.solve(RingMatrix(w, fix, Size(fix)), Misalignments(w, fix, Size(fix)));
        RingPlanIsPossible(fix, w, z, panels);
        c := Planned(x, Positions(panels), true);
        RingPlansNeverMove(c);
      case _ =>
        c := Aborted;
        AbortIsPossible(AlignRing);
    }
    SucceedsIff(c);
    RingPlansNeverFit(c);
  }

  lemma AbortIsPossible(m: Method)
    ensures CanCalculate(m, Aborted)
  {
  }

  lemma RingPlansNeverFit(c: Calculation)
    requires CanCalculate(AlignRing, c)
    ensures !(c.Planned? && c.good && |c.x| == 6 * |c.panels|)
  {
  }

  lemma RingPlansNeverMove(c: Calculation)
    requires c.Planned? && CanCalculate(AlignRing, c)
    ensures NeverMoves(c)
  {
    forall s, m, f, d: Dispatch | Covers(d.order, |c.panels|)
      ensures !ExecuteStep(CalculateStep(s, AlignRing, c).0.(state := Off), m, f, d).1.Moved?
    {
      RingPlanIsUseless(s, c, m, f, World(p => Zeros(6), v => Coords(0.0, 0.0, 0.0, 0.0, 0.0, 0.0), k => Zeros(6), {}, {}), d);
    }
  }

  /* ---------- loading sensor readings ---------- */

  datatype Loader = Offsets | Readings

  /** The optics offset a loader sets for a sensor named in the file: the value itself, or what leads from
      the aligned reading to it. */
  function OffsetFrom(l: Loader, aligned: Pair, value: Pair): Pair {
    if l.Offsets? then value else Sub(value, aligned)
  }

  /** The sensors of the mirror after loading: only visible selected sensors named in the file change. */
  ghost predicate OpticsLoaded(l: Loader, w: Sector, after: Sector, identity: SensorId -> Identity, entries: Entries,
                               serials: seq<int>)
  {
    && after == w.(optics := after.optics)
    && forall m :: after.optics(m) ==
         if Chosen(w, serials, m) && Get(entries, identity(m)).Some? && |Get(entries, identity(m)).value| == 2
         then OffsetFrom(l, w.aligned(m), Get(entries, identity(m)).value)
         else w.optics(m)
  }

  /** Sets the optics offsets, sensor by sensor. */
  method SetOptics(l: Loader, w: Sector, identity: SensorId -> Identity, entries: Entries, serials: seq<int>)
    returns (after: Sector)
    requires NoDuplicates(serials)
    requires forall s, t :: s in serials && t in serials && w.bySerial(s) == w.bySerial(t) ==> s == t
    requires AllWide(entries, 2)
    ensures OpticsLoaded(l, w, after, identity, entries, serials)
  {
    hide Chosen, Get;
    var sensors := ChooseSensors(w, serials);
    var optics: map<SensorId, Pair> := map[];
    for i := 0 to |sensors|
      invariant forall m :: m in optics <==> m in sensors[..i] && Get(entries, identity(m)).Some?
      invariant forall m :: m in optics ==>
                  |Get(entries, identity(m)).value| == 2 && optics[m] == OffsetFrom(l, w.aligned(m), Get(entries, identity(m)).value)
    {
      assert sensors[..i + 1] == sensors[..i] + [sensors[i]];
      var value := Get(entries, identity(sensors[i]));
      if value.Some? {
        GetWidth(entries, identity(sensors[i]), 2);
        optics := optics[sensors[i] := OffsetFrom(l, w.aligned(sensors[i]), value.value)];
      }
    }
    after := w.(optics := (m: SensorId) => if m in optics then optics[m] else w.optics(m));
    assert sensors[..|sensors|] == sensors;
    forall m: SensorId | Get(entries, identity(m)).Some? ensures |Get(entries, identity(m)).value| == 2 {
      GetWidth(entries, identity(m), 2);
    }
  }

  /** Loading offsets or readings of sensors, as the protocol sees it: nothing happens if the file is not
      this mirror's or cannot be read; otherwise the optics offsets are set, the sector is aligned to the
      shifted targets, and if that fails the method tag is set all the same. */
  method LoadSensors(l: Loader, lines: seq<Line>, mirror: Identity, w: Sector, identity: SensorId -> Identity,
                     selectedPanels: seq<PanelId>, serials: seq<int>, scratch: Pair)
    returns (c: Calculation, after: Sector, sensors: seq<SensorId>)
    requires NoDuplicates(selectedPanels) && NoDuplicates(serials)
    requires forall s, t :: s in serials && t in serials && w.bySerial(s) == w.bySerial(t) ==> s == t
    requires SolverFits(w)
    ensures CanCalculate(LoadMPESAlignmentOffset, c) && CanCalculate(LoadMPESPositions, c)
    ensures c.Aborted? <==> Loaded(lines, mirror, scratch).None?
    ensures c.Aborted? ==> after == w
    ensures !c.Aborted? ==> OpticsLoaded(l, w, after, identity, Loaded(lines, mirror, scratch).value, serials)
    ensures !c.Aborted? && selectedPanels != [] && serials != [] ==>
              var panels := PanelsToMove(after, selectedPanels);
              var solution := after.solve(SectorMatrix(after, sensors, panels), 6 * |panels|, Misalignment(after, 1, sensors));
              && NoDuplicates(sensors) && (forall m :: m in sensors <==> Fits(after, panels, serials, m))
              && c == (if 2 * |sensors| >= 6 * |panels| && solution.Some? then Planned(solution.value, panels, true) else InnerAborted)
    ensures !c.Aborted? && (selectedPanels == [] || serials == []) ==> c.InnerAborted?
  {
    hide Loaded, Get, OpticsLoaded;
    after, sensors := w, [];
    var loaded := LoadRecords(lines, mirror, scratch);
    if loaded.None? {
      return Aborted, after, sensors;
    }
    LoadedWidth(lines, mirror, scratch);
    after := SetOptics(l, w, identity, loaded.value, serials);
    OnlyOptics(l, w, after, identity, loaded.value, serials);
    c, sensors := CalculateAlignSector(after, 1, selectedPanels, serials);
    if c.Aborted? {
      c := InnerAborted;
    }
  }

  lemma OnlyOptics(l: Loader, w: Sector, after: Sector, identity: SensorId -> Identity, entries: Entries, serials: seq<int>)
    requires OpticsLoaded(l, w, after, identity, entries, serials)
    ensures after.bySerial == w.bySerial && (SolverFits(w) ==> SolverFits(after))
  {
  }

  /** After loading, the target of every visible selected sensor in the file is its reading there, or the
      aligned reading plus the offset there, and all other targets are what they were. */
  lemma LoadedTargets(l: Loader, w: Sector, after: Sector, identity: SensorId -> Identity, entries: Entries, serials: seq<int>,
                      m: SensorId, r: nat)
    requires OpticsLoaded(l, w, after, identity, entries, serials) && AllWide(entries, 2) && r < 2
    ensures var found := Get(entries, identity(m));
            && (found.Some? ==> |found.value| == 2)
            && Target(after, 1, m)[r] ==
               (if w.visible(m) && (exists s :: s in serials && m == w.bySerial(s)) && found.Some?
                then (if l.Readings? then found.value[r] else w.aligned(m)[r] + found.value[r])
                else w.aligned(m)[r] + w.optics(m)[r])
  {
    hide Get, AllWide;
    GetWidth(entries, identity(m), 2);
  }

  lemma ReadingIsTarget(w: Sector, after: Sector, identity: SensorId -> Identity, entries: Entries, serials: seq<int>, m: SensorId)
    requires OpticsLoaded(Readings, w, after, identity, entries, serials) && AllWide(entries, 2)
    requires Chosen(w, serials, m) && Get(entries, identity(m)).Some?
    ensures Target(after, 1, m) == Get(entries, identity(m)).value
  {
    hide Get, AllWide, Target, OpticsLoaded;
    LoadedTargets(Readings, w, after, identity, entries, serials, m, 0);
    LoadedTargets(Readings, w, after, identity, entries, serials, m, 1);
  }

  /** Loading a file of readings saved by this mirror aims each visible selected sensor of the file at its
      saved reading. */
  lemma SavedReadingsAreAimedAt(mirror: Identity, info: seq<Line>, records: seq<Record>, azEl: string, scratch: Pair,
                                w: Sector, after: Sector, identity: SensorId -> Identity, serials: seq<int>, k: nat, m: SensorId)
    requires NoComma(mirror.address) && NoComma(mirror.name) && NoParentheses(mirror.address) && NoParentheses(mirror.name)
    requires ComesBack(mirror) && !Contains("Mirror: " + Printed(mirror), "Az:")
    requires TargetFile.AllReadable(records) && TargetFile.DistinctSerials(records) && TargetFile.IsInfo(info)
    requires k < |records| && identity(m) == records[k].id && Chosen(w, serials, m)
    ensures var loaded := Loaded(File("MPES: ", mirror, info, records, azEl), mirror, scratch);
            loaded.Some? &&
            (OpticsLoaded(Readings, w, after, identity, loaded.value, serials) ==> Target(after, 1, m) == records[k].values)
  {
    var lines := File("MPES: ", mirror, info, records, azEl);
    assert TargetFile.IsReadable(records[k]);
    TargetFile.BothReadTheSame(mirror, info, records, azEl, scratch, records[k].id);
    LoadedWidth(lines, mirror, scratch);
    hide *;
    var entries := Loaded(lines, mirror, scratch).value;
    if OpticsLoaded(Readings, w, after, identity, entries, serials) {
      ReadingIsTarget(w, after, identity, entries, serials, m);
    }
  }
}
