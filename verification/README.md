# Verified model of the mirror alignment client

The client aligns a telescope mirror made of panels. A panel stands on six actuators; sensors (MPES)
sit on the edges between panels; the mirror controller calculates a motion, shows it for review and
executes it. This project models the logic of that client in Dafny and proves what it keeps:

- the calculate / setAlignFrac / execute protocol as a state machine, its invariants over every run, and a
  class that refines it (`AlignPlan`, `AlignRuns`, `AlignCommands`, `AlignScenarios`, `MirrorController`), and how the
  calculations meet it (`Calculations`);
- the linear systems of a sector and of a ring and what a plan made from their solution does when it is
  sent (`SectorSystem`, `RingTopology`, `RingSystem`, `EdgeSensing`, `LinearAlgebra`, `Traversals`);
- the measurement of a response matrix and the collision check (`ResponseMeasurement`, `CollisionCheck`);
- the telescope and panel frames and rigid motion of the mirror (`PanelFrames`, `MirrorMotion`);
- the parallel reading of sensors and the sequential sweep over edges, also along a ring (`ParallelRead`,
  `EdgeSweep`, `RingSweep`);
- the printed and saved texts and their readers, in the client and in the calibration tool
  (`SelectionText`, `DeviceIdentity`, `SaveFiles`, `TextLaws`, `TargetFile`), and the child indexes (`ChildIndex`,
  `ChildLaws`);
- the clustering of camera pixels (`ImageClustering`), the effective-dated calibration table
  (`CalibrationTable`), and the way of a reading from a saved file into that table (`TargetUpdate`).

`Basics` holds what they share.

Run `dafny verify dfyconfig.toml` to check it.

Numbers are exact: lengths, readings and coordinates are reals, and a printed number is an opaque token
that is read back as it was. Devices, the Stewart platform, the least-squares solver, cosine and sine, the
length of a vector, the database connection and the clock are parameters of which only what a contract
names is assumed.

## What the code does not do

Where a property one would expect is false of the code, the code is modelled as it is, and the exact
condition or a concrete run is proved:

- Aligning a ring never succeeds. The fixed panel is pushed twice and erased once, so the plan lists one
  panel more than its vector has entries for; the size check fails, the mirror stays busy, and no
  execution accepts the plan (`RingSystem.RingPlanIsOnePanelShort`, `Calculations.AlignWholeRing`).
  For mirror 3 the neighbour function and the system take different ring sizes and the calculation itself
  reports too few sensors. The check that all panels of the ring are present ends after one neighbour, and
  where the first edge is missing the calculation uses a matrix it does not have
  (`RingSystem.CalculateAlignRing`).
- Moving the mirror is documented to ignore a selected optical table, and loading a file to leave out the
  panels it does not name. In both cases the plan has entries for what is left out, the size check fails
  and the mirror stays busy (`Calculations.MoveMirror`, `Calculations.LoadLengths`, `Calculations.LoadDeltas`).
- A new calculation does not reset the reviewed fraction, so a plan that was never shown can be executed
  (`AlignScenarios.UnreviewedPlanCanMove`): exactly when a fraction was set before the calculation
  (`AlignRuns.UnreviewedMovesIff`, `AlignRuns.PlanStoredUnsetIsReviewed`). A failed MPES loader puts its tag on the plan that is still
  stored (`AlignScenarios.FailedLoaderCanMoveOldPlan`, `AlignRuns.MotionOfAnotherMethod`).
- A review with a negative fraction stores the scaled plan, and the execution scales it again: what is sent
  is what was shown exactly for positive fractions and for -1 (`AlignRuns.SentIsShown`); repeated reviews
  shrink the plan geometrically (`AlignScenarios.RepeatedReviewsCompound`).
- A panel that refuses in the middle of an execution leaves the plan in place; executing again sends the
  whole motion again (`AlignScenarios.MovesAgainIffIncomplete`).
- The review of an edge alignment submits the fraction of the fraction to the collision check, so it
  protects the panel only at fraction one (`CollisionCheck.ReviewProtectsWholeMotions`); and the sequential
  sweep executes even if that check found a collision, while it fails at an edge that needs no motion
  (`EdgeSweep.AlignOnceOutcome`, `EdgeSweep.Sweep.AlignAll`).
- The panel frame is orthonormal, and the two frame transformations are mutual inverses, exactly when one of
  the first two components of the normal is zero and no axis is along it
  (`PanelFrames.FrameOrthonormalIff`, `PanelFrames.InverseIffOrthonormal`).
- A printed selection is read back with a bracket behind its last item. Panels and sensors survive that,
  edges lose their last member, and an empty selection of panels or sensors throws
  (`SelectionText.PanelsRoundTrip`, `SelectionText.SensorsRoundTrip`, `SelectionText.EdgesLoseTheLast`).
- A printed identity is read back with the position in place of the serial number and no position
  (`DeviceIdentity.ParsedOfPrinted`); which identities still count as the same is
  `DeviceIdentity.SameAfterPrinting`. The comparison itself is not transitive, so that it is no order for a map
  of identities (`DeviceIdentity.SameIsNotTransitive`).
- A device is not added if its position, serial number and address are all taken, be it by three different
  children (`ChildIndex.DroppedIffKeysAmongChildren`), so that a new one can be lost
  (`ChildIndex.NewPanelCanBeLost`).
- Closing the rows of a sensor also moves the end dates of rows closed long before, so the table changes what
  it says about the past (`CalibrationTable.EndDatesRewritten`, `CalibrationTable.PastRewritten`).

## Model

| member | source | states |
|---|---|---|
| AlignPlan.Constrained | client/controllers/mirrorcontroller.cpp:3156-3232 | every listed panel's slice becomes its constrained delta, the rest of the vector stays |
| AlignRuns.LabelsTellTheStep | client/controllers/mirrorcontroller.cpp:413-587 | each kind of log entry fixes how all protocol fields change in the step |
| AlignRuns.LogExplainsState | client/controllers/mirrorcontroller.cpp:408-588 | in every reachable state the log alone determines the plan vector, and plan, fraction and tag come from the latest calculation, review and tagging since the last completed execution |
| AlignRuns.MotionIsPlannedAndReviewed | client/controllers/mirrorcontroller.cpp:3273-3381 | every motion of every run belongs to a plan stored since the last completed execution, under the tag set last, at a fraction within FLT_EPSILON of one reviewed since then, and its commands are six-entry slices of that plan, no panel twice, never of a ring plan |
| AlignRuns.CommandsAreSlices | client/controllers/mirrorcontroller.cpp:3300-3319 | each command sent is one listed panel with its own six entries, and no panel is commanded twice in an execution |
| AlignRuns.MotionOfAnotherMethod | client/controllers/mirrorcontroller.cpp:2990-3088 | a motion runs under another tag than its plan's maker exactly when a failed MPES loader set the tag last |
| AlignRuns.NothingMovesUntilPlannedAndReviewed | client/controllers/mirrorcontroller.cpp:3377-3380 | after a completed execution nothing moves before both a new calculation and a new review |
| AlignRuns.BusyUntilStop | client/controllers/mirrorcontroller.cpp:413-416 | from a busy state every event up to a stop is logged as nothing and changes no field |
| AlignRuns.BusyIffBlocked | client/controllers/mirrorcontroller.cpp:408-588 | in every reachable state the mirror is busy if and only if a failed calculation, a refused fraction, an unknown command or a busy sensor came after the last stop |
| AlignRuns.FailuresBlockUntilStop | client/controllers/mirrorcontroller.cpp:502-519 | in every run, after a calculation that failed or does not fit, or an execution with a fraction out of range, nothing happens and nothing changes until a stop |
| AlignRuns.SentIsShown | client/controllers/mirrorcontroller.cpp:3118-3232 | without a calculation in between and at the same fraction, the motion sent is the motion shown if and only if the fraction was positive or -1 |
| AlignRuns.FractionIsReadable | client/controllers/mirrorcontroller.cpp:3093-3122 | in every reachable state the stored fraction is unset or one that an execution may be asked for |
| AlignRuns.UnreviewedMovesIff | client/controllers/mirrorcontroller.cpp:3276-3297 | in every reachable state a calculation can be followed at once by a motion of its plan, never shown, if and only if it succeeded with a fitting plan that is not zero and a fraction was set before it |
| AlignRuns.PlanStoredUnsetIsReviewed | client/controllers/mirrorcontroller.cpp:3276-3297 | in every run, a plan stored while no fraction was set moves only after a review since |
| AlignCommands.CalculationStores | client/controllers/mirrorcontroller.cpp:464-520 | what a calculation stores under its own tag, and that it leaves the mirror ready if and only if it succeeded with six entries for each panel |
| AlignCommands.ReviewedIff | client/controllers/mirrorcontroller.cpp:3093-3114 | a review happens if and only if 0 < f <= 1.01 or -1.01 <= f < 0 and some entry of the plan is not zero; it stores the size of f and shows f times every entry, or stores what it shows where f is negative |
| AlignCommands.MovesIff | client/controllers/mirrorcontroller.cpp:3273-3319 | an execution moves if and only if its fraction is in range, within 2^-23 of the one reviewed, the tag is its own, the plan has six entries per panel and some entry is not zero; the motion is the fraction of every entry, and what is left afterwards |
| AlignCommands.OtherEvents | client/controllers/mirrorcontroller.cpp:408-588 | what a stop, a busy sensor, an unknown command and a command to a busy mirror do, none of them to the plan |
| AlignCommands.PlanReviewedMoves | client/controllers/mirrorcontroller.cpp:408-588 | from every state that is not busy, a fitting non-zero plan calculated, reviewed and executed at the same fraction up to 1.01 sends each listed panel that fraction of its own six entries, each panel, and leaves no plan |
| AlignCommands.ReviewInRun | client/controllers/mirrorcontroller.cpp:3093-3114 | in every reachable state the log tells whether a review happens; it reads past the end of the plan if and only if it would happen and the plan stored last is one of a ring |
| AlignScenarios.ConstraintsHold | client/controllers/mirrorcontroller.cpp:3168-3229 | with an exact platform, a constrained motion leaves listed panels at their current Tz, or Rx and Ry, and takes every other coordinate to its unconstrained value |
| AlignScenarios.UnconstrainedIsIdentity | client/controllers/mirrorcontroller.cpp:3168-3232 | without listed panels, constraining changes nothing |
| AlignScenarios.RepeatedReviewsCompound | client/controllers/mirrorcontroller.cpp:3118-3232 | n reviews at -g leave the plan scaled by g to the n |
| AlignScenarios.MovesAgainIffIncomplete | client/controllers/mirrorcontroller.cpp:3315-3381 | a second execution moves again if and only if a panel refused in the first, and then sends the same motion |
| AlignScenarios.RingPlanIsUseless | client/controllers/mirrorcontroller.cpp:507-519 | a stored ring plan, one panel short, leaves the mirror busy, is refused by every execution, and cannot be reviewed |
| AlignScenarios.UnreviewedPlanCanMove | client/controllers/mirrorcontroller.cpp:3276-3297 | a valid run in which a plan stored after the review is sent without having been shown |
| AlignScenarios.FailedLoaderCanMoveOldPlan | client/controllers/mirrorcontroller.cpp:3086-3088 | a valid run in which an older plan moves under the tag of a loader that failed |
| MirrorController.Controller.Operate | client/controllers/mirrorcontroller.cpp:408-588 | the imperative method performs exactly the protocol's step and reports success exactly when the mirror is not left busy |
| MirrorController.Controller.ReviewPlan | client/controllers/mirrorcontroller.cpp:3093-3271 | refines the review step |
| MirrorController.Controller.ConstrainMotion | client/controllers/mirrorcontroller.cpp:3168-3232 | the loop over panels computes the constrained motion |
| MirrorController.Controller.NoMotion | client/controllers/mirrorcontroller.cpp:3276 | true if and only if every entry of the plan is exactly zero |
| MirrorController.Controller.CollectArguments | client/controllers/mirrorcontroller.cpp:3300-3313 | with one running index every listed panel gets its own slice |
| MirrorController.Controller.SendArguments | client/controllers/mirrorcontroller.cpp:3315-3319 | sends until a panel refuses or a stop comes, and tells whether it was the one or the other |
| MirrorController.Controller.StopAll | client/controllers/mirrorcontroller.cpp:1181-1188 | the one call a busy mirror accepts changes the state and nothing else |
| MirrorController.Controller.MoveSelectedPanels | client/controllers/mirrorcontroller.cpp:3273-3384 | refines the execution step |
| SectorSystem.ChooseSensors | client/controllers/mirrorcontroller.cpp:1955-1960 | the visible selected sensors, each once |
| SectorSystem.FindInternal | client/controllers/mirrorcontroller.cpp:1963-1985 | finds exactly the sensors lying between two of the panels, and whether the user selected one |
| SectorSystem.SensorsToFit | client/controllers/mirrorcontroller.cpp:1946-2005 | the sensors to fit, each once: the chosen ones, and if none of them is internal the visible internal ones too |
| SectorSystem.AssembleSector | client/controllers/mirrorcontroller.cpp:2019-2055 | the loops lay out block by block the matrix, and pair by pair the misalignment |
| SectorSystem.MatrixEntry | client/controllers/mirrorcontroller.cpp:2046-2053 | every number of the matrix is one of the response of the side the panel is on, or zero |
| SectorSystem.MisalignmentEntry | client/controllers/mirrorcontroller.cpp:2036-2055 | every entry of the right-hand side is aligned less systematic less current, or aligned plus optics less current in the other mode; in the first it is zero if and only if current plus systematic is the aligned reading |
| SectorSystem.RowIsReadingChange | client/controllers/mirrorcontroller.cpp:2046-2053 | each row times X is the sum, over the panels the sensor touches, of that side's response times the panel's own slice |
| SectorSystem.OrderIsIrrelevant | client/controllers/mirrorcontroller.cpp:3315-3319 | the effect of the slices does not depend on the order in which panels are sent |
| SectorSystem.ExecutionDeliversPrediction | client/controllers/mirrorcontroller.cpp:3298-3319 | the commands of an execution change each fitted reading by the executed fraction of the system's prediction |
| SectorSystem.ExactSolutionReachesGoal | client/controllers/mirrorcontroller.cpp:2036-2083 | with an exact solution, an execution at f takes each fitted reading that fraction of the way to aligned less systematic, or aligned plus optics, and all of it at f = 1 |
| SectorSystem.FitsIff | client/controllers/mirrorcontroller.cpp:1955-2005 | which sensors are fitted, by visibility, selection and the sides of the panels alone: an internal sensor hangs on one of the panels and touches exactly two |
| SectorSystem.CalculateAlignSector | client/controllers/mirrorcontroller.cpp:1923-2083 | a plan if and only if panels and sensors are selected, there are as many readings as actuators, and the solver succeeds on the assembled system of exactly the sensors to fit; then it is the solver's answer for the selected panels |
| Traversals.TraversalReaches | client/controllers/mirrorcontroller.cpp:3315-3319 | a duplicate-free traversal of n places visits every one of them |
| RingTopology.DigitsOfPosition | common/simulatestewart/mathtools.hpp:9-13 | the digits of a position are read back from it |
| RingTopology.IsPanelIff | common/simulatestewart/mirrordefinitions.hpp:40-80 | which places name panels, with the sizes of both rings of both mirrors |
| RingTopology.GroupAdd | common/simulatestewart/mathtools.cpp:76-105 | for every 32-bit increment, negative ones through unsigned arithmetic, the result is addition modulo the ring size |
| RingTopology.GetPanelNeighbor | common/simulatestewart/mathtools.cpp:15-25 | the panel one step down or up in its ring, wrapping around |
| RingTopology.NeighborPlaces | common/simulatestewart/mathtools.cpp:15-25 | up is the next panel of the quadrant or the first of the next quadrant, down the previous or the last of the quadrant before, with the sizes of both rings |
| RingTopology.EdgeOf | common/simulatestewart/mathtools.cpp:36-48 | an edge is between the two panels given, the one with the smaller position first |
| RingTopology.DirectionsAreInverse | common/simulatestewart/mathtools.cpp:15-25 | the neighbour in one direction of the neighbour in the other is the panel itself |
| RingTopology.WalkIsOneCycle | common/simulatestewart/mathtools.cpp:15-25 | walking by neighbours first returns to its start after exactly as many steps as the ring has panels |
| RingTopology.WalkReaches | common/simulatestewart/mathtools.cpp:15-25 | every panel of the ring is reached within one turn |
| RingTopology.AzOffsetCountsWidths | client/controllers/mirrorcontroller.cpp:3389-3409 | the azimuthal offset is the first panel's less one panel width per place in the ring |
| RingSystem.FillBlockRow | client/controllers/mirrorcontroller.cpp:2192-2215 | the three overlapping writes of a block row, in their order and with the wraparound, leave identity, current and next response where they belong |
| RingSystem.TraverseRing | client/controllers/mirrorcontroller.cpp:2146-2237 | one turn from the fixed panel, skipping missing panels and ignoring failed lookups; it is defined if and only if the first edge is found, and all readings are there if and only if every panel and edge is found with all sensors usable, which then lays out one block row per edge and lists the fixed panel twice |
| RingSystem.RowIsEdgeEquation | client/controllers/mirrorcontroller.cpp:2198-2215 | row block b applied to (s, x1, ...) is s plus current response times x(b) plus next response times x(b+1), with no contribution of the fixed panel, also at the wraparound |
| RingSystem.ExactSolutionLeavesOffset | client/controllers/mirrorcontroller.cpp:2250-2268 | with an exact solution for a complete ring, moving all panels but the fixed one leaves every edge with the same misalignment, the systematic offset |
| RingSystem.CalculateAlignRing | client/controllers/mirrorcontroller.cpp:2085-2301 | each of the six outcomes if and only if its condition on the children, the readings and the mirror; a plan if and only if the ring is complete, the mirror is not the third and all sensors have offsets; then offsets and plan are the head and tail of the solution and the panels are the whole ring from the fixed one |
| RingSystem.HandOutOffsets | client/controllers/mirrorcontroller.cpp:2288-2294 | every sensor of the edges gets the offset kept for its position, unless some position has none |
| RingSystem.KeepOffsets | client/controllers/mirrorcontroller.cpp:2274-2282 | the offsets are kept by position of the last edge's sensors, over those of earlier calculations |
| RingSystem.RingPlanIsOnePanelShort | client/controllers/mirrorcontroller.cpp:2161-2171 | the plan names the fixed panel first, is six entries short, and the slice at the place of each panel was solved for the next one |
| EdgeSensing.CollectPairs | client/controllers/edgecontroller.cpp:797-845 | filling and cutting the vector leaves the pairs of the usable sensors, in order |
| EdgeSensing.GetCurrentReadings | client/controllers/edgecontroller.cpp:789-845 | readings and spot widths of the usable sensors up to the first of them that finds the edge switched off |
| EdgeSensing.StopShortensReadings | client/controllers/edgecontroller.cpp:804-842 | the readings are as many as the targets if and only if no usable sensor found the edge switched off |
| EdgeSensing.GetAlignedReadings | client/controllers/edgecontroller.cpp:724-755 | the targets of the usable sensors |
| EdgeSensing.MisalignmentPairsSensors | client/controllers/edgecontroller.cpp:724-845 | after the cutting each target still meets the reading of its own sensor |
| EdgeSensing.GetResponseMatrix | client/controllers/edgecontroller.cpp:698-722 | two rows for every sensor, zero for a sensor that does not touch the panel |
| EdgeSensing.ResponseEntry | client/controllers/edgecontroller.cpp:707-719 | every number of the matrix is one of the response of the side the panel is on, or zero |
| EdgeSensing.ValuesOfSensor | client/controllers/edgecontroller.cpp:797-845 | the values of a working sensor stand behind those of the working sensors before it, two for each |
| EdgeSensing.ResponseMatchesReadings | client/controllers/edgecontroller.cpp:698-755 | the rows of the response matrix line up with the readings if and only if every sensor is usable |
| CollisionCheck.CheckForCollision | client/controllers/panelcontroller.cpp:474-546 | false if and only if the lengths could be read and every sensor of every edge with readings is predicted within the radius of (160, 120) |
| CollisionCheck.SafeIff | client/controllers/panelcontroller.cpp:497-533 | being safe is, for every sensor of an edge with a working one, reading plus response times motion no farther from (160, 120) than the radius |
| CollisionCheck.EdgeOutOfRange | client/controllers/panelcontroller.cpp:516-533 | flags an edge if and only if some sensor of it is predicted farther out than the radius |
| CollisionCheck.FractionsAreSafe | client/controllers/panelcontroller.cpp:516-533 | if the present position and the whole motion pass, every fraction of the motion passes |
| CollisionCheck.ReviewProtectsWholeMotions | client/controllers/edgecontroller.cpp:592-635 | passing the edge review implies that the motion carried out stays in range, for all edges and motions, if and only if the fraction is one |
| CollisionCheck.EscapesReview | client/controllers/edgecontroller.cpp:592-635 | for every smaller fraction, an edge and a motion that pass the review and leave the range |
| ResponseMeasurement.ReadingsMove | client/controllers/edgecontroller.cpp:362 | for affine readings the quotient of change and actual motion is the actuator's column, and undefined if it did not move |
| ResponseMeasurement.FindSingleMatrix | client/controllers/edgecontroller.cpp:274-369 | completes if and only if nothing stops or refuses it, then finds the exact column of every actuator that moved, whatever was missed before; the lengths are those after the motions made |
| ResponseMeasurement.Panel.MeasureActuator | client/controllers/edgecontroller.cpp:303-363 | one actuator forth and back, with all early returns |
| ResponseMeasurement.BackAtStart | client/controllers/edgecontroller.cpp:343-360 | the panel ends at its starting lengths if and only if for each actuator the two misses cancel |
| PanelFrames.RotationOrthonormal | client/controllers/mirrorcontroller.cpp:3442-3463 | each rotation matrix is orthonormal |
| PanelFrames.UndoesTransposed | client/controllers/mirrorcontroller.cpp:3424-3440 | a matrix with orthonormal columns undoes its transpose, by Cramer's rule |
| PanelFrames.InverseIffOrthonormal | client/controllers/mirrorcontroller.cpp:3412-3440 | toPanelRF and toTelRF are mutual inverses on all vectors if and only if the ring's frame is orthonormal |
| PanelFrames.BuildFrame | client/controllers/mirrorcontroller.cpp:198-213 | third column the normal turned to the reflecting side, the others the projected and normalized axes |
| PanelFrames.FrameOrthonormalIff | client/controllers/mirrorcontroller.cpp:198-213 | for a unit normal the frame is orthonormal if and only if nx ny = 0 and neither axis is along the normal |
| PanelFrames.MoveKeepsDistance | client/controllers/mirrorcontroller.cpp:3465-3481 | the rotations about z, x, y and the translation keep all distances |
| MirrorMotion.OriginIsTranslated | client/controllers/mirrorcontroller.cpp:3465-3481 | whatever the angles, the origin goes to the first three coordinates, in their order |
| MirrorMotion.FirstThreeTranslate | client/controllers/mirrorcontroller.cpp:3465-3481 | the first three coordinates alone translate along x, y and z |
| MirrorMotion.FourthTurnsAboutX | client/controllers/mirrorcontroller.cpp:3442-3480 | the fourth alone turns about x, from y to z |
| MirrorMotion.FifthTurnsAboutY | client/controllers/mirrorcontroller.cpp:3442-3480 | the fifth alone turns about y, from z to x |
| MirrorMotion.SixthTurnsAboutZ | client/controllers/mirrorcontroller.cpp:3442-3480 | the sixth alone turns about z, from x to y |
| MirrorMotion.MotionIsComposed | client/controllers/mirrorcontroller.cpp:3474-3481 | every motion is the turn by the sixth coordinate, then by the fourth, then by the fifth, then the translation |
| MirrorMotion.PanelIsTurnedIdeal | client/controllers/mirrorcontroller.cpp:3424-3440 | a point of a panel is that of the ideal panel of its ring, turned about z by the panel's azimuth, from x to y |
| MirrorMotion.NormalFacesReflection | client/controllers/mirrorcontroller.cpp:198-205 | the third column is the normal or its opposite, and never points against the reflecting side |
| MirrorMotion.AxesStayForward | client/controllers/mirrorcontroller.cpp:206-213 | the first two columns are perpendicular to a unit normal and never point backward along x and y |
| MirrorMotion.MovableAre | client/controllers/mirrorcontroller.cpp:1421-1428 | exactly the selected panels outside ring 0 move, in their order |
| PanelFrames.MirrorMovesRigidly | client/controllers/mirrorcontroller.cpp:1425-1448 | in the telescope frame every moved pad is where the one motion takes it, and distances between pads of all panels are kept |
| PanelFrames.NoMotionMovesNoPad | client/controllers/mirrorcontroller.cpp:1438-1444 | the zero motion returns every pad to its place |
| PanelFrames.MovePads | client/controllers/mirrorcontroller.cpp:1436-1448 | the pad loop computes the moved pads of a panel |
| PanelFrames.CalculateMoveDelta | client/controllers/mirrorcontroller.cpp:1402-1470 | fails if and only if the lengths of a panel to move cannot be read; otherwise slice k added to the current lengths of the k-th selected panel outside ring 0 puts its pads where the mirror's motion takes them |
| Calculations.MoveMirror | client/controllers/mirrorcontroller.cpp:1402-1470 | what the calculation returns is a plan the protocol allows, and the mirror accepts it if and only if the optical table is not selected |
| Calculations.LoadLengths | client/controllers/mirrorcontroller.cpp:2652-2767 | what loading lengths returns is a plan the protocol allows, and the mirror accepts it if and only if every child is outside ring 0 and named in the file and the last status was good |
| Calculations.LoadDeltas | client/controllers/mirrorcontroller.cpp:2769-2904 | the same for loading coordinate changes |
| Calculations.RingPlanIsPossible | client/controllers/mirrorcontroller.cpp:2296-2298 | the head-less solution with the positions of the ring's panels is what the protocol takes ring plans to be |
| Calculations.AlignWholeRing | client/controllers/mirrorcontroller.cpp:2085-2301 | the ring calculation never leaves the mirror ready, whatever the ring, and a plan it stores never moves, not even after a stop |
| Calculations.SetOptics | client/controllers/mirrorcontroller.cpp:3071-3083 | exactly the visible selected sensors named in the file get the offset of their reading from the target |
| Calculations.LoadSensors | client/controllers/mirrorcontroller.cpp:2990-3089 | nothing happens if the file does not load; otherwise the sector is aligned to the shifted targets, and a failure there is one that only sets the tag |
| Calculations.LoadedTargets | client/controllers/mirrorcontroller.cpp:2037-2040 | after loading, the target of a visible selected sensor in the file is its reading there, or the aligned reading plus the offset there, and otherwise what it was |
| Calculations.SavedReadingsAreAimedAt | client/controllers/mirrorcontroller.cpp:2614-2644 | a file of readings saved by the mirror aims each visible selected sensor in it at its saved reading |
| ParallelRead.Readout.BuildQueues | client/controllers/mirrorcontroller.cpp:709-731 | each panel's queue holds its selected sensors and the counter is their number |
| ParallelRead.Readout.PollPanel | client/controllers/mirrorcontroller.cpp:740-748 | not busy only if every sensor of the panel is idle |
| ParallelRead.Readout.Round | client/controllers/mirrorcontroller.cpp:734-757 | a round keeps the counter equal to the sum of the queues and starts a read, or time passes while one is on |
| ParallelRead.Readout.ReadSensorsParallel | client/controllers/mirrorcontroller.cpp:694-775 | terminates for all finite read times; starts every selected sensor of the panels exactly once; of two reads on one panel the later starts after the earlier is over; all selected sensors are idle at the end |
| ParallelRead.PopStarts | client/controllers/mirrorcontroller.cpp:750-755 | popping a queue moves exactly its last sensor from waiting to started |
| ParallelRead.IdlePanelStarts | client/controllers/mirrorcontroller.cpp:740-755 | starting a read on a panel with only idle sensors keeps reads on a panel from overlapping |
| ParallelRead.AllStarted | client/controllers/mirrorcontroller.cpp:734-757 | once the counter is zero the started sensors are the selected sensors of the panels |
| EdgeSweep.CollectEdges | client/controllers/mirrorcontroller.cpp:1560-1594 | terminates for every neighbour function, succeeds if and only if the walk reaches the end edge over children, and then returns a duplicate-free path of children from start to end |
| EdgeSweep.ComesRound | client/controllers/mirrorcontroller.cpp:1589-1593 | coming back to a collected edge means the end is never reached |
| EdgeSweep.VisitsOfEdge | client/controllers/mirrorcontroller.cpp:1602-1608 | a full sweep over n edges visits edge k exactly n - k times |
| EdgeSweep.RoundGoesBack | client/controllers/mirrorcontroller.cpp:1602-1608 | round i visits edges i, i-1, ..., 0, after the rounds before it |
| EdgeSweep.EdgeCommandsIff | client/controllers/edgecontroller.cpp:585-694 | when each command of an edge is good and what it leaves, in numbers |
| EdgeSweep.AlignOnceOutcome | client/controllers/edgecontroller.cpp:585-694 | one alignment moves if and only if there is a plan and the panel accepts, whatever the collision check found; after a motion the edge counts as aligned |
| EdgeSweep.MovesAfterIff | client/controllers/edgecontroller.cpp:640-694 | an attempt of the sweep moves if and only if the panel accepts and some entry of the motion found is not zero, or the fit fails where a first plan that is not zero was not carried out yet |
| EdgeSweep.Sweep.AlignEdge | client/controllers/mirrorcontroller.cpp:1608-1683 | the outcome, the plan left behind, also where it is stopped, and the log of one alignment, with both looks for a stop |
| EdgeSweep.Sweep.AlignAll | client/controllers/mirrorcontroller.cpp:1602-1687 | what is visited is a first part of the full sweep, all of it unless stopped or failed; every attempt visited moves and the one it fails at does not, where an attempt moves if and only if the panel accepts and the fit finds a motion or fails at an edge whose first plan is still there |
| EdgeSweep.AlignSequential | client/controllers/mirrorcontroller.cpp:1544-1690 | collection and sweep together, with the exact attempt at which it fails; without a way between the edges nothing moves |
| RingSweep.PanelsOfEdge | common/simulatestewart/mathtools.cpp:36-74 | the address of two neighbouring panels is split and ordered back into them, the smaller in the sense of the direction first |
| RingSweep.PositionText | common/simulatestewart/mathtools.cpp:10-13 | a position printed is the four digits of mirror, quadrant, ring and panel |
| RingSweep.NeighborIsNextEdge | common/simulatestewart/mathtools.cpp:27-48 | from the text of two neighbouring positions in ascending order around a plus sign, the neighbour function gives that of the greater panel and its own neighbour, also where the ring closes |
| RingSweep.RingEdgesAreConnected | client/controllers/mirrorcontroller.cpp:1571-1594 | with all edges of a ring present under the texts that name their positions in ascending order, collecting from any edge of it to any other succeeds, in either direction |
| ImageClustering.WithinReach | tools/ImageAna.py:61-63 | the squared-distance test admits exactly the same pixel and its four edge neighbours |
| ImageClustering.WithinReachIff | tools/ImageAna.py:61-63 | within reach are the pixel and the four above, below, left and right of it |
| ImageClustering.PartsAreComponents | tools/ImageAna.py:43-71 | two positive pixels share a part if and only if a chain of neighbouring positive pixels joins them |
| ImageClustering.PartitionIsUnique | tools/ImageAna.py:43-71 | the partition does not depend on the order of seeds |
| ImageClustering.PartsDoNotTouch | tools/ImageAna.py:58-70 | pixels of different parts never touch |
| ImageClustering.CollectPixels | tools/ImageAna.py:28-38 | the three lists hold exactly the positive pixels, each once, and all their flux |
| ImageClustering.TakeSeed | tools/ImageAna.py:44-54 | takes the first untaken pixel as the only member, clears its entries and lowers the count by one |
| ImageClustering.GrowOnce | tools/ImageAna.py:57-70 | a sweep that takes nothing leaves the cluster apart from all untaken pixels; otherwise the count falls |
| ImageClustering.GrowCluster | tools/ImageAna.py:44-70 | grows a seed to a connected set that touches no untaken pixel, terminating on the count of untaken pixels |
| ImageClustering.FindClusters | tools/ImageAna.py:28-71 | the clusters list the connected components of the positive pixels, each pixel once, and carry the flux of the image |
| ImageClustering.ClusterCentroid | tools/ImageAna.py:75-84 | total flux, positive, and the flux-weighted mean position |
| ImageClustering.CentroidInBox | tools/ImageAna.py:75-84 | a centroid lies inside every box that contains its cluster |
| ImageClustering.ClusterImage | tools/ImageAna.py:26-86 | one centroid per component, and the totals sum to all positive flux |
| CalibrationTable.BuildColumns | tools/update_db_for_MPES.py:173-183 | the loops keep every column in its place and replace only the target |
| CalibrationTable.Database.CollectCalibration | tools/update_db_for_MPES.py:251-263 | the columns of the one active row; fails if and only if there are several |
| CalibrationTable.Database.AddCoordinate | tools/update_db_for_MPES.py:309-316 | inserts one new open row that starts now, with the first target for x or the second for y and the other columns of the open row, or -1; or fails and changes nothing |
| CalibrationTable.FailsIff | tools/update_db_for_MPES.py:173-263 | it fails if and only if two rows are open or the list of targets is too short |
| CalibrationTable.Database.DisableOld | tools/update_db_for_MPES.py:145-162 | the rows of the sensor that did not start now get the end date, closed ones too; every other field and row stays |
| CalibrationTable.Database.Succeed | tools/update_db_for_MPES.py:294-320 | inserts both rows and closes the sensor; where a coordinate has several active rows or no target it fails there, with the rows inserted so far and nothing closed |
| CalibrationTable.OneActiveRow | tools/update_db_for_MPES.py:294-320 | an update leaves exactly one active row per coordinate if and only if no active row started at the time of the run |
| CalibrationTable.OthersUntouched | tools/update_db_for_MPES.py:157 | all rows of other sensors stay as they were |
| CalibrationTable.Database.UpdateSensorList | tools/update_db_for_MPES.py:287-291 | applies the updates in turn and stops at the first failure, with the rows as it left them |
| CalibrationTable.ApplicableIff | tools/update_db_for_MPES.py:251-320 | an entry can be applied if and only if it has two targets and per coordinate at most one row is open, none of them started now |
| CalibrationTable.ListUpdated | tools/update_db_for_MPES.py:287-320 | after a list of different sensors each has one open row per coordinate, starting now, with the first target for x and the second for y in the first column and in each of the other thirteen the predecessor's value or -1; all other sensors' rows are untouched |
| CalibrationTable.ReplacementTakesOver | tools/update_db_for_MPES.py:235-248 | a replacement gets one open row per coordinate, with the target given for it and the other columns of the replaced sensor's open row, which is closed |
| CalibrationTable.EndDatesRewritten | tools/update_db_for_MPES.py:148-157 | an old row keeps everything but its end date, and keeps that if and only if it is another sensor's, started now or was closed now |
| CalibrationTable.PastRewritten | tools/update_db_for_MPES.py:148-157 | as of any earlier time the sensor then has as active exactly the rows that had started by then; that is what it had before if and only if none of them was over; no other sensor changes |
| CalibrationTable.PastInRows | tools/update_db_for_MPES.py:148-157 | which columns the table says applied at an earlier time, before and after an update, by the dates of the rows; it changes if and only if some row had both started and ended by then |
| SelectionText.Print | client/controllers/mirrorcontroller.cpp:286-340 | the loop prints the items between brackets with separators |
| TextLaws.PrintedPair | client/controllers/mirrorcontroller.cpp:286-340 | no item, one item and two items as they are printed |
| SelectionText.Split | client/controllers/mirrorcontroller.cpp:1696-1718 | the loop returns the non-empty stretches between delimiters of the text left after the bracket handling |
| SelectionText.StoiOfDecimal | client/controllers/mirrorcontroller.cpp:1722-1723 | a printed number is read back whatever follows it, if and only if it is a 32-bit signed number |
| SelectionText.ItemsOfPrinted | client/controllers/mirrorcontroller.cpp:1696-1718 | the items of a printed list are its words with the closing bracket on the last, or a lone bracket |
| SelectionText.PanelsRoundTrip | client/controllers/mirrorcontroller.cpp:1721-1737 | a printed panel selection is read back as it was if and only if it is not empty and all positions fit a signed number; otherwise it throws |
| SelectionText.SensorsRoundTrip | client/controllers/mirrorcontroller.cpp:1769-1783 | a printed sensor selection is read back as it was if and only if it is not empty |
| SelectionText.EdgesLoseTheLast | client/controllers/mirrorcontroller.cpp:1785-1800 | a printed edge selection is read back without its last edge, so only the empty one survives |
| SelectionText.Selections.SelectPanels | client/controllers/mirrorcontroller.cpp:1721-1768 | sets the selection to the children among the numbers; where it throws, what was read before stays |
| SelectionText.Selections.SelectSensors | client/controllers/mirrorcontroller.cpp:1769-1783 | the same for sensors |
| SelectionText.Selections.SelectEdges | client/controllers/mirrorcontroller.cpp:1785-1800 | the same for edges |
| TextLaws.TwoItems | client/controllers/mirrorcontroller.cpp:1696-1718 | two items are found with any of the nine delimiters between them; the closing bracket stays on the second if and only if there is an opening one |
| TextLaws.NumbersThrowIff | client/controllers/mirrorcontroller.cpp:1721-1737 | reading numbers throws if and only if an item is no number or there is an item and no child of the type |
| TextLaws.SelectedNumbers | client/controllers/mirrorcontroller.cpp:1721-1783 | the selection left is exactly the children among the numbers before the first item that is none |
| TextLaws.SelectedAddresses | client/controllers/mirrorcontroller.cpp:1785-1800 | the edges selected are exactly the items that are addresses of children |
| DeviceIdentity.Tokenize | common/alignment/device.cpp:139-147 | the pieces between commas, as the stream yields them |
| DeviceIdentity.ParseIdentity | common/alignment/device.cpp:115-162 | the identity read from a text, the default for a malformed one, nothing where it throws |
| TextLaws.ParsedFields | common/alignment/device.cpp:133-162 | of four fields between parentheses the last becomes the serial number, the first is read and lost, the middle ones are address and name |
| SaveFiles.ExtractedIs | client/controllers/mirrorcontroller.cpp:2674-2690 | what is taken from a line as an identity is the parenthesis and one character more if there is one |
| DeviceIdentity.ParsedOfPrinted | common/alignment/device.cpp:155-161 | a printed identity is read back with its position as serial number, no position, and address and name without spaces |
| DeviceIdentity.SameAfterPrinting | common/alignment/device.cpp:51-61 | the exact identities that count as the same after printing and reading, and those that come back equal |
| DeviceIdentity.NamesSurvive | common/alignment/device.cpp:51-61 | a named device read back is the same as another named one if and only if their names are equal |
| DeviceIdentity.SameIsNotTransitive | common/alignment/device.cpp:51-61 | the comparison of identities is not transitive where one of them lacks a field; names come before serial numbers, addresses and positions |
| SaveFiles.SaveActuatorLengths | client/controllers/mirrorcontroller.cpp:2328-2355 | the file holds one block per selected panel that could be read |
| SaveFiles.SaveMPESPositions | client/controllers/mirrorcontroller.cpp:2614-2644 | the file holds one block with two values per selected sensor |
| TextLaws.FileLines | client/controllers/mirrorcontroller.cpp:2328-2355 | a file line by line: the mirror, its information, for each record a header, its values and the asterisks, and the direction of the telescope |
| TextLaws.PositionLines | client/controllers/mirrorcontroller.cpp:2614-2644 | the block of a sensor holds x, then y |
| TextLaws.ReadableAre | client/controllers/mirrorcontroller.cpp:2328-2355 | the records are those of the panels that could be read, in their order |
| TextLaws.StorableDevice | client/controllers/mirrorcontroller.cpp:2674-2723 | every named device without blanks, commas, parentheses and colons can be stored and found again |
| TextLaws.ReadableSensor | tools/update_db_for_MPES.py:55-96 | every sensor named after its own five digits, with an address of digits, is one the tool reads |
| SaveFiles.LoadRecords | client/controllers/mirrorcontroller.cpp:2674-2723 | the loops read exactly the records the lines hold, or fail |
| SaveFiles.FileLoads | client/controllers/mirrorcontroller.cpp:2674-2723 | a saved file is loaded if and only if the mirror counts as the restored one, and all its records are read |
| SaveFiles.GetPutAll | client/controllers/mirrorcontroller.cpp:2721-2734 | a lookup finds the record of that name, and only that |
| SaveFiles.CalculateLoadActuatorLengths | client/controllers/mirrorcontroller.cpp:2652-2767 | plans for the children outside ring 0 that the file names, slice k taking the k-th from its current lengths to those of the file; the status is that of the last call made |
| SaveFiles.CalculateLoadDeltaCoords | client/controllers/mirrorcontroller.cpp:2769-2904 | the same panels, slice k leading to the lengths at the k-th panel's coordinates plus those of the file; an unreadable table does not abort it but, as the last child, decides the status |
| SaveFiles.CoordinatesShift | client/controllers/mirrorcontroller.cpp:2855-2868 | with an exact platform the slice changes the panel's coordinates by what the file says |
| SaveFiles.SavedLengthsAreRestored | client/controllers/mirrorcontroller.cpp:2725-2764 | for a saved file, current lengths plus the k-th slice equal the saved lengths of the k-th panel to move, and the panels are exactly those saved |
| TargetFile.ReadMpesFile | tools/update_db_for_MPES.py:55-96 | the line loop computes the fold of the reader over the file, or raises |
| TargetFile.KeyOfSensor | tools/update_db_for_MPES.py:77-81 | the key taken from a sensor's line is its serial number if and only if that has five digits |
| TargetFile.ToolReads | tools/update_db_for_MPES.py:55-96 | the tool reads exactly the saved records, without an error |
| TargetFile.BothReadTheSame | client/controllers/mirrorcontroller.cpp:3034-3069 | the mirror's loader and the tool find the same two values for every saved sensor, and no other sensor |
| TargetUpdate.SavedReadingsBecomeTargets | tools/update_db_for_MPES.py:287-320 | in whatever order the tool goes through a saved file, each saved sensor ends with one open row per coordinate, its first saved value as target for x, its second for y, and the predecessor's other columns or -1; all sensors not in the file keep their rows |
| ChildIndex.MirrorChildren.AddChild | client/controllers/mirrorcontroller.cpp:78-92 | the list, the four maps and the selection after an addition |
| ChildIndex.MirrorChildren.SelectAll | client/controllers/mirrorcontroller.cpp:841-858 | the selections after selecting all, up to the first type without children, where it throws |
| ChildLaws.AdditionSelects | client/controllers/mirrorcontroller.cpp:78-92 | an addition selects the device by the key of its type and nothing else |
| ChildLaws.AdditionIsFound | client/controllers/pascontroller.cpp:40-48 | an added device is last in the list and found under its three keys, every other key leads where it did, and no other type changes |
| ChildLaws.SelectAllSelects | client/controllers/mirrorcontroller.cpp:841-858 | exactly the children are selected, type by type, up to the first type without any, and nothing stays constrained |
| ChildLaws.TextSelectsPanels | client/controllers/mirrorcontroller.cpp:1692-1768 | a text selects exactly the panels whose position it holds before the first item that is no number, for the selection and for the two lists of constrained panels |
| ChildLaws.TextSelectsSensors | client/controllers/mirrorcontroller.cpp:1769-1783 | the same for sensors by serial number |
| ChildLaws.TextSelectsEdges | client/controllers/mirrorcontroller.cpp:1785-1800 | of edges exactly those whose address is an item |
| ChildIndex.IndexedConsistent | client/controllers/pascontroller.cpp:40-48 | adding an entry keeps every map value a child under its own key and no identity twice in the list |
| ChildIndex.AlwaysSound | client/controllers/pascontroller.cpp:29-54 | after any sequence of additions and selections the indexes are consistent and everything selected is a key |
| ChildIndex.LookupsSucceed | client/controllers/mirrorcontroller.cpp:1948-1957 | every later lookup of a selected panel, sensor or edge finds the child with that key |
| ChildIndex.DroppedIffKeysAmongChildren | client/controllers/pascontroller.cpp:33-41 | a device is dropped if and only if its position, serial number and address are each some child's |
| ChildIndex.MixedKeysAreDropped | client/controllers/pascontroller.cpp:33-41 | after any three panels at different positions, a panel with the position of the first, the serial number of the second and the address of the third is dropped |
| ChildIndex.NewPanelCanBeLost | client/controllers/pascontroller.cpp:33-41 | a sequence of additions after which a panel that is the same as none of the children is dropped |

## Left out

- Rounding: fractions stored as `float`, the casts of actuator lengths to `float` and the formatting of numbers are not modelled.
- Not-a-number fractions, and `abs` on an integer overload, are not modelled; the fraction is a real and its absolute value is taken as such.
- AlignPlan.Constrained: the 48-entry arrays of constrained panels are sets, because what happens past their end is undefined.
- AlignRuns.MotionIsPlannedAndReviewed: Stop is modelled between events and between the commands of an execution; a stop while a motion is under way is not.
- AlignScenarios.ConstraintsHold: assumes that the platform moves to the coordinates whose lengths it was given.
- PanelFrames.CalculateMoveDelta: moveToCoords is the same calculation for the difference of target and current coordinates and is not repeated; entries beyond the last panel to move are uninitialised in the source and arbitrary here.
- PanelFrames.FrameOrthonormalIff: the surface that computes the normal is not part of this model, and neither is the shift of the origin to the base triangle; square roots are characterised by their squares.
- RingSystem.CalculateAlignRing: every edge is taken to have three sensors, with six by six responses; the products of matrices are modelled only as far as they are undefined, since their result is logged and nothing else.
- RingSystem.HandOutOffsets: where a position has no offset, which sensors were served before the throw is not stated.
- SectorSystem.SensorsToFit: internal sensors are appended in the order of their identities in the source and in an arbitrary order here.
- CollisionCheck.CheckForCollision: edges are assumed to have either no usable sensor or three sensors that are all usable, because the fixed-size centre vector makes the source abort on others, also on readings shortened by a stop; lengths are compared by their squares.
- CollisionCheck.ReviewProtectsWholeMotions: for the two-panel mode; the mode with a fixed inner panel, whose panel offset differs between review and execution, is left out.
- ResponseMeasurement.FindSingleMatrix: assumes readings affine in the actuator lengths and that only the commanded actuator moves, by its command less what it missed; the outer loop over panels is left out.
- ParallelRead.Readout.ReadSensorsParallel: the states of sensors change only through the reads it starts and the passing of time; every panel is assumed to have its list of sensors, and the readings retrieved afterwards are left out.
- EdgeSweep.Sweep.AlignEdge: the iterations until the edge is aligned are not modelled, because an execution always leaves it aligned; the waiting for busy edges is left out.
- RingSweep.PanelsOfEdge: for edges of two panels, as the sweep assumes; addresses that name no panels of a ring are not followed.
- CalibrationTable.Database.Succeed: the mapping table, the collection of old targets for the log and the confirmation before the commit are left out; a failed run leaves the rows inserted so far in a transaction that is never committed.
- SelectionText.Selections.SelectPanels: an empty text is excluded, because the source reads its first character; the same selection code for panels fixed in Tz or in Rx and Ry is not repeated.
- SaveFiles.LoadRecords: the standard map is a list of entries searched by the identities' own equality, which is what it does for named devices; with mixed identities its order is not a valid one. Lines are assumed shorter than 4 GiB.
- SaveFiles.SavedLengthsAreRestored: for named children with different names; where the reading of a panel's lengths fails after its position could be read, the lengths are those the vector was left with.
- The savers of delta coordinates, physical coordinates and alignment offsets, which follow the same pattern as those modelled.
- Calculations.LoadSensors: both loaders read the same format, so one method stands for both; a sensor that is appended as internal keeps its offset.
- The response matrix of the optical table, which has one column per actuator of another platform.
- OPC UA sessions and servers, logging, image capture, the database connection, the pointing of the telescope and simple getters and setters.
