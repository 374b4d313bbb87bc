/** The calculate / setAlignFrac / execute protocol of a mirror, one transition at a time.
    A calculation stores a plan, a review fixes the fraction of it to carry out, and an
    execution sends it to the panels. */
module AlignPlan {
  import opened Basics
  import opened LinearAlgebra
  import opened Traversals

  datatype DeviceState = Off | On | Busy

  /** The methods of the mirror that prepare a motion. */
  datatype Method =
    | MoveToCoords | MoveDeltaCoords | AlignSector | AlignRing
    | LoadActuatorLengths | LoadDeltaCoords | LoadMPESAlignmentOffset | LoadMPESPositions

  predicate IsMPESLoader(m: Method) { m.LoadMPESAlignmentOffset? || m.LoadMPESPositions? }

  /** A panel controller, of six actuators. */
  type PanelId = nat

  /** Fields of the mirror that the protocol reads and writes. */
  datatype Mirror = Mirror(state: DeviceState, x: Vec, panels: seq<PanelId>, tag: Option<Method>, lastFrac: real)

  const FLT_EPSILON: real := 1.0 / 8388608.0

  const INITIAL: Mirror := Mirror(On, [], [], None, -1.0)

  /** The mirror's test for "no motion": every entry is exactly zero, which holds of the
      empty vector too. */
  predicate IsZero(x: Vec) {
    forall i :: 0 <= i < |x| ==> x[i] == 0.0
  }

  function AbsReal(r: real): real { if r < 0.0 then -r else r }

  /** Fractions accepted by setAlignFrac and by execute, after taking the absolute value. */
  predicate ValidFraction(f: real) { !(AbsReal(f) > 1.01 || AbsReal(f) <= 0.0) }

  /* ---------- calculations ---------- */

  /** What a calculation can do to the plan before control returns to the mirror. */
  datatype Calculation =
    | Aborted                                                // returned early with an error
    | InnerAborted                                           // an MPES loader whose sector fit returned early
    | Planned(x: Vec, panels: seq<PanelId>, good: bool)      // stored a plan and returned `good`

  /** Which of these each method can produce. The coordinate and file loaders size the vector by
      all candidate panels and may fill only a part of it; the ring calculation lists the fixed
      panel among the panels to move but has no entries for it; the length loaders ignore the status
      of the last length read until they return. That each calculation stays within this is shown where
      they are modelled together, in `Calculations`. */
  predicate CanCalculate(m: Method, c: Calculation) {
    match c
    case Aborted => true
    case InnerAborted => IsMPESLoader(m)
    case Planned(x, panels, good) =>
      && NoDuplicates(panels)
      && (good || m.LoadActuatorLengths? || m.LoadDeltaCoords?)
      && match m {
           case AlignRing => |x| + 6 == 6 * |panels|
           case AlignSector | LoadMPESAlignmentOffset | LoadMPESPositions => |x| == 6 * |panels|
           case MoveToCoords | MoveDeltaCoords | LoadActuatorLengths | LoadDeltaCoords => |x| >= 6 * |panels|
         }
  }

  /* ---------- reviews ---------- */

  datatype Coords = Coords(tx: real, ty: real, tz: real, rx: real, ry: real, rz: real)

  /** What a review reads from outside: the panels' current actuator lengths, the Stewart
      platform in both directions, and the panels listed for each constraint. */
  datatype World = World(
    lengths: PanelId -> Six,
    forward: Six -> Coords,
    inverse: Coords -> Six,
    tzFixed: set<PanelId>,
    rxRyFixed: set<PanelId>)

  function Keep(w: World, p: PanelId, current: Coords, target: Coords): Coords {
    var t := if p in w.tzFixed then target.(tz := current.tz) else target;
    if p in w.rxRyFixed then t.(rx := current.rx, ry := current.ry) else t
  }

  /** Where the constrained motion of panel `p` should take it, in panel coordinates. */
  function ConstrainedTarget(w: World, p: PanelId, delta: Six): Coords {
    Keep(w, p, w.forward(w.lengths(p)), w.forward(Add(w.lengths(p), delta)))
  }

  function ConstrainedDelta(w: World, p: PanelId, delta: Six): Six {
    Sub(w.inverse(ConstrainedTarget(w, p, delta)), w.lengths(p))
  }

  /** The motion with the slice of each of the first `n` panels replaced by its constrained form. */
  function Constrained(w: World, panels: seq<PanelId>, x: Vec, n: nat): (y: Vec)
    requires n <= |panels| && 6 * |panels| <= |x|
    ensures |y| == |x|
    ensures forall k :: 0 <= k < n ==> Slice(y, k) == ConstrainedDelta(w, panels[k], Slice(x, k))
    ensures y[6 * n..] == x[6 * n..]
  {
    if n == 0 then x else
    var y := Constrained(w, panels, x, n - 1);
    var z := y[..6 * (n - 1)] + ConstrainedDelta(w, panels[n - 1], Slice(x, n - 1)) + x[6 * n..];
    assert forall k :: 0 <= k < n - 1 ==> Slice(z, k) == Slice(y, k);
    z
  }

  /** The motion a review shows. */
  function Shown(w: World, s: Mirror, f: real): Vec
    requires 6 * |s.panels| <= |s.x|
  {
    var scaled := Scale(AbsReal(f), s.x);
    if f < 0.0 then Constrained(w, s.panels, scaled, |s.panels|) else scaled
  }

  /* ---------- executions ---------- */

  datatype Reply = Accepted | Rejected | AcceptedThenStopped

  datatype MotionCommand = MotionCommand(panel: PanelId, deltas: Six)

  /** How an execution meets the outside: the order in which the panel map is traversed, as places
      in the list of panels, and each panel's answer. */
  datatype Dispatch = Dispatch(order: seq<nat>, replies: nat -> Reply)

  /** The commands that go out: up to the first panel that refuses, or the first stop. */
  function Sent(panels: seq<PanelId>, motion: Vec, d: Dispatch, from: nat): seq<MotionCommand>
    requires 6 * |panels| <= |motion| && forall i :: 0 <= i < |d.order| ==> d.order[i] < |panels|
    decreases |d.order| - from
  {
    if from >= |d.order| then [] else
    var k := d.order[from];
    var command := MotionCommand(panels[k], Slice(motion, k));
    if d.replies(k).Accepted? then [command] + Sent(panels, motion, d, from + 1) else [command]
  }

  /** Whether the dispatch ran into a panel that refused. */
  predicate Failed(d: Dispatch, from: nat)
    decreases |d.order| - from
  {
    from < |d.order| &&
    (d.replies(d.order[from]).Rejected? || (d.replies(d.order[from]).Accepted? && Failed(d, from + 1)))
  }

  /** Whether a stop ended the dispatch. */
  predicate Stopped(d: Dispatch, from: nat)
    decreases |d.order| - from
  {
    from < |d.order| &&
    (d.replies(d.order[from]).AcceptedThenStopped? || (d.replies(d.order[from]).Accepted? && Stopped(d, from + 1)))
  }

  /* ---------- transitions ---------- */

  datatype Command =
    | Calculate(result: Calculation)
    | SetAlignFrac(frac: real, world: World)
    | Execute(fraction: real, dispatch: Dispatch)
    | Unknown

  datatype Event =
    | Operate(m: Method, command: Command)
    | OtherMethod(endsOn: bool)         // any method outside the protocol
    | PollState(sensorBusy: bool)       // reading the state while some child sensor is busy
    | Stop

  /** What an event did, as an observer of the mirror would log it. */
  datatype Label =
    | Nothing
    | Stored(maker: Method, x: Vec, panels: seq<PanelId>)
    | Retagged(maker: Method)
    | Reviewed(frac: real, shown: Vec)
    | Moved(m: Method, fraction: real, motion: Vec, sent: seq<MotionCommand>, completed: bool)
    | Halted

  function CalculateStep(s: Mirror, m: Method, c: Calculation): (Mirror, Label) {
    var busy := s.(state := Busy);
    match c
    case Aborted => (busy, Nothing)
    case InnerAborted => (busy.(tag := Some(m)), Retagged(m))
    case Planned(x, panels, good) =>
      var planned := busy.(x := x, panels := panels, tag := Some(m));
      (if good && |x| == 6 * |panels| then planned.(state := On) else planned, Stored(m, x, panels))
  }

  predicate ReviewAccepted(s: Mirror, f: real) { ValidFraction(f) && !IsZero(s.x) }

  function ReviewStep(s: Mirror, f: real, w: World): (Mirror, Label)
    requires ReviewAccepted(s, f) ==> 6 * |s.panels| <= |s.x|
  {
    var on := s.(state := On);
    if !ReviewAccepted(s, f) then (on, Nothing) else
    var shown := Shown(w, s, f);
    (on.(lastFrac := AbsReal(f), x := if f < 0.0 then shown else s.x), Reviewed(f, shown))
  }

  predicate ExecuteAccepted(s: Mirror, m: Method, f: real) {
    && !IsZero(s.x) && s.tag == Some(m)
    && s.lastFrac >= 0.0
    && AbsReal(AbsReal(f) - s.lastFrac) <= FLT_EPSILON
    && |s.x| == 6 * |s.panels|
  }

  function ExecuteStep(s: Mirror, m: Method, f: real, d: Dispatch): (Mirror, Label)
    requires forall i :: 0 <= i < |d.order| ==> d.order[i] < |s.panels|
  {
    if !ValidFraction(f) then (s.(state := Busy), Nothing) else
    if !ExecuteAccepted(s, m, f) then (s.(state := On), Nothing) else
    var motion := Scale(AbsReal(f), s.x);
    var sent := Sent(s.panels, motion, d, 0);
    if Failed(d, 0) then (s.(state := On), Moved(m, AbsReal(f), motion, sent, false))
    else (Mirror(On, Zeros(|s.x|), [], None, -1.0), Moved(m, AbsReal(f), motion, sent, true))
  }

  /** Side conditions of an event: what its environment part may be, and, for a review, that the
      plan vector reaches to the last listed panel, which the vector library checks by aborting. */
  ghost predicate Enabled(s: Mirror, e: Event) {
    match e
    case Operate(m, Calculate(c)) => CanCalculate(m, c)
    case Operate(m, SetAlignFrac(f, w)) => s.state.Busy? || !ReviewAccepted(s, f) || 6 * |s.panels| <= |s.x|
    case Operate(m, Execute(f, d)) => Covers(d.order, |s.panels|)
    case _ => true
  }

  function Step(s: Mirror, e: Event): (Mirror, Label)
    requires Enabled(s, e)
  {
    match e
    case Stop => (s.(state := Off), Halted)
    case PollState(sensorBusy) => (if sensorBusy then s.(state := Busy) else s, Nothing)
    case OtherMethod(endsOn) => (if !s.state.Busy? && endsOn then s.(state := On) else s, Nothing)
    case Operate(m, command) =>
      if s.state.Busy? then (s, Nothing) else
      match command
      case Calculate(c) => CalculateStep(s, m, c)
      case SetAlignFrac(f, w) => ReviewStep(s, f, w)
      case Execute(f, d) => ExecuteStep(s, m, f, d)
      case Unknown => (s.(state := Busy), Nothing)
  }
}
