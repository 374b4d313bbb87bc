/** Aligning a whole ring at once: the linear system over all its edges, and the plan made
    from its solution. */
module RingSystem {
  import opened LinearAlgebra
  import opened RingTopology

  /** Response of the three sensors of an edge, two readings each, to the six actuators of a panel. */
  type Block = m: seq<Vec> | IsMatrix(m, 6, 6)
    witness seq(6, _ => seq(6, _ => 0.0))

  function Identity(): Block {
    seq(6, (r: nat) => seq(6, (k: nat) => if r == k then 1.0 else 0.0))
  }

  function NoResponse(): Block {
    seq(6, (r: nat) => Zeros(6))
  }

  /** Two numbers for each usable sensor of an edge, which has three sensors. */
  type Reading = v: Vec | |v| <= 6 witness []

  /** A systematic offset, two numbers for one sensor. */
  type Offset = v: Vec | |v| == 2 witness [0.0, 0.0]

  /** The children the mirror finds by position and by address, what it asks of its edges, the
      positions of an edge's sensors in ascending order, and the least-squares solver. */
  datatype RingWorld = RingWorld(
    present: Place -> bool,
    hasEdge: Edge -> bool,
    response: (Edge, Place) -> Block,
    misalignment: Edge -> Reading,
    positions: Edge -> seq<nat>,
    solve: (seq<seq<Block>>, Vec) -> Vec)

  /** The edge from panel `b` to panel `b + 1` can be found. */
  predicate Found(w: RingWorld, fix: Place, b: nat)
    requires IsPanel(fix)
  {
    w.present(PanelAt(fix, b)) && w.present(PanelAt(fix, b + 1)) && w.hasEdge(EdgeAt(fix, b))
  }

  /** The first `n` edges can be found and all their sensors are usable. */
  ghost predicate Complete(w: RingWorld, fix: Place, n: nat)
    requires IsPanel(fix)
  {
    forall b :: 0 <= b < n ==> Found(w, fix, b) && |w.misalignment(EdgeAt(fix, b))| == 6
  }

  /** The number of panels for which the system is laid out: the test setup duplicates the
      primary. */
  function NumPanels(mirror: nat, ring: nat): nat {
    if mirror == 2 then (if ring == 1 then 8 else 16) else (if ring == 1 then 16 else 32)
  }

  /* ---------- the system ---------- */

  /** Panel `b` of the ring, counted from the fixed one. */
  function PanelAt(fix: Place, b: nat): Place
    requires IsPanel(fix)
  {
    Walk(fix, 0, b)
  }

  /** The edge from panel `b` to panel `b + 1`. */
  function EdgeAt(fix: Place, b: nat): Edge
    requires IsPanel(fix)
  {
    EdgeOf(PanelAt(fix, b), PanelAt(fix, b + 1))
  }

  /** Block (`b`, `c`) of the assembled matrix. The first block column holds the systematic offsets,
      which every edge shares; the columns of the fixed panel would have been there. */
  function RingBlock(w: RingWorld, fix: Place, b: nat, c: nat): Block
    requires IsPanel(fix)
  {
    if c == 0 then Identity()
    else if c == b then w.response(EdgeAt(fix, b), PanelAt(fix, b))
    else if c == b + 1 then w.response(EdgeAt(fix, b), PanelAt(fix, b + 1))
    else NoResponse()
  }

  function RingMatrix(w: RingWorld, fix: Place, n: nat): seq<seq<Block>>
    requires IsPanel(fix)
  {
    seq(n, (b: nat) => seq(n, (c: nat) => RingBlock(w, fix, b, c)))
  }

  /** The displacement a solution gives to panel `b`: none to the fixed panel, which is both the
      first and, after a whole turn, the last. */
  function Displacement(z: Vec, b: nat, n: nat): Vec
    requires |z| == 6 * n && b <= n
  {
    if b == 0 || b == n then Zeros(6) else Slice(z, b)
  }

  /** The value of an edge equation: the systematic offset plus what the motions of its two panels
      add to the reading. */
  function EdgeEquation(w: RingWorld, fix: Place, n: nat, z: Vec, b: nat, r: nat): real
    requires IsPanel(fix) && |z| == 6 * n && b < n && r < 6
  {
    Slice(z, 0)[r]
    + Dot(w.response(EdgeAt(fix, b), PanelAt(fix, b))[r], Displacement(z, b, n))
    + Dot(w.response(EdgeAt(fix, b), PanelAt(fix, b + 1))[r], Displacement(z, b + 1, n))
  }

  lemma DotZeros(a: Vec, n: nat)
    requires |a| == n
    ensures Dot(a, Zeros(n)) == 0.0
  {
    DotOfZeros(Zeros(n), a);
    DotCommutes(a, Zeros(n));
  }

  lemma {:induction false} DotCommutes(a: Vec, b: Vec)
    requires |a| == |b|
    ensures Dot(a, b) == Dot(b, a)
  {
    if a != [] { DotCommutes(a[1..], b[1..]); }
  }

  /** What block column `c` adds to scalar row `r` of block row `b`. */
  lemma ColumnContribution(w: RingWorld, fix: Place, n: nat, z: Vec, b: nat, r: nat, c: nat)
    requires IsPanel(fix) && |z| == 6 * n && b < n && r < 6 && c < n
    ensures Dot(RingBlock(w, fix, b, c)[r], Slice(z, c)) ==
            if c == 0 then Slice(z, 0)[r]
            else if c == b then Dot(w.response(EdgeAt(fix, b), PanelAt(fix, b))[r], Displacement(z, b, n))
            else if c == b + 1 then Dot(w.response(EdgeAt(fix, b), PanelAt(fix, b + 1))[r], Displacement(z, b + 1, n))
            else 0.0
  {
    hide Dot, PanelAt, EdgeAt, IsPanel;
    if c == 0 {
      DotUnit(Identity()[r], Slice(z, 0), r);
    } else if c != b && c != b + 1 {
      DotOfZeros(NoResponse()[r], Slice(z, c));
    }
  }

  /** Sum of the first `m` columns of row `r` of block row `b`. */
  lemma {:induction false} PartialSum(w: RingWorld, fix: Place, n: nat, z: Vec, b: nat, r: nat, row: Vec, m: nat)
    requires IsPanel(fix) && |z| == |row| == 6 * n && b < n && r < 6 && m <= n
    requires forall c :: 0 <= c < n ==> Slice(row, c) == RingBlock(w, fix, b, c)[r]
    ensures BlockSum(row, z, m) ==
            (if m > 0 then Slice(z, 0)[r] else 0.0)
            + (if 0 < b < m then Dot(w.response(EdgeAt(fix, b), PanelAt(fix, b))[r], Displacement(z, b, n)) else 0.0)
            + (if b + 1 < m then Dot(w.response(EdgeAt(fix, b), PanelAt(fix, b + 1))[r], Displacement(z, b + 1, n)) else 0.0)
  {
    hide RingBlock, EdgeAt, PanelAt, Dot, Displacement, IsPanel;
    if m > 0 {
      PartialSum(w, fix, n, z, b, r, row, m - 1);
      ColumnContribution(w, fix, n, z, b, r, m - 1);
      assert Slice(row, m - 1) == RingBlock(w, fix, b, m - 1)[r];
    }
  }

  /** Summed over all columns, what is left is the edge equation: where the fixed panel would have
      contributed, its displacement is zero. */
  lemma WholeSum(w: RingWorld, fix: Place, n: nat, z: Vec, b: nat, r: nat, row: Vec)
    requires IsPanel(fix) && |z| == |row| == 6 * n && b < n && r < 6
    requires forall c :: 0 <= c < n ==> Slice(row, c) == RingBlock(w, fix, b, c)[r]
    ensures BlockSum(row, z, n) == EdgeEquation(w, fix, n, z, b, r)
  {
    PartialSum(w, fix, n, z, b, r, row, n);
    if b == 0 { DotZeros(w.response(EdgeAt(fix, b), PanelAt(fix, b))[r], 6); }
    if b + 1 == n { DotZeros(w.response(EdgeAt(fix, b), PanelAt(fix, b + 1))[r], 6); }
    hide RingBlock, BlockSum, EdgeAt, PanelAt, Dot;
  }

  lemma RowOfBlocks(w: RingWorld, fix: Place, n: nat, b: nat, r: nat) returns (row: Vec)
    requires IsPanel(fix) && b < n && r < 6
    ensures row == ScalarRow(RingMatrix(w, fix, n)[b], r) && |row| == 6 * n
    ensures forall c :: 0 <= c < n ==> Slice(row, c) == RingBlock(w, fix, b, c)[r]
  {
    row := ScalarRow(RingMatrix(w, fix, n)[b], r);
  }

  /** Every row of the system is one edge equation. The fixed panel's displacement appears in none
      of them, not even where the ring closes. */
  lemma RowIsEdgeEquation(w: RingWorld, fix: Place, n: nat, z: Vec, b: nat, r: nat)
    requires IsPanel(fix) && |z| == 6 * n && b < n && r < 6
    ensures Dot(ScalarRow(RingMatrix(w, fix, n)[b], r), z) == EdgeEquation(w, fix, n, z, b, r)
  {
    var row := RowOfBlocks(w, fix, n, b, r);
    WholeSum(w, fix, n, z, b, r, row);
    DotByBlocks(row, z, n);
    assert row[..6 * n] == row && z[..6 * n] == z;
    hide *;
  }

  /** The edge equations of a complete ring, all satisfied. */
  ghost predicate SolvesRing(w: RingWorld, fix: Place, n: nat, z: Vec)
    requires IsPanel(fix) && |z| == 6 * n && |Misalignments(w, fix, n)| == 6 * n
  {
    forall b, r :: 0 <= b < n && 0 <= r < 6 ==>
      Dot(ScalarRow(RingMatrix(w, fix, n)[b], r), z) == Misalignments(w, fix, n)[6 * b + r]
  }

  lemma {:induction false} MisalignmentsOfEdges(w: RingWorld, fix: Place, n: nat)
    requires IsPanel(fix) && Complete(w, fix, n)
    ensures |Misalignments(w, fix, n)| == 6 * n
    ensures forall b, r :: 0 <= b < n && 0 <= r < 6 ==>
              |w.misalignment(EdgeAt(fix, b))| == 6 && Misalignments(w, fix, n)[6 * b + r] == w.misalignment(EdgeAt(fix, b))[r]
  {
    hide EdgeAt, IsPanel, Found;
    if n > 0 {
      MisalignmentsOfEdges(w, fix, n - 1);
    }
  }

  /** What the motions of a solution do to reading `r` of the edge between panels `b` and `b + 1` of the ring. */
  function MotionEffect(w: RingWorld, fix: Place, n: nat, z: Vec, b: nat, r: nat): real
    requires IsPanel(fix) && |z| == 6 * n && b < n && r < 6
  {
    var edge := EdgeOf(Walk(fix, 0, b), Walk(fix, 0, b + 1));
    (if b == 0 then 0.0 else Dot(w.response(edge, Walk(fix, 0, b))[r], z[6 * b..6 * b + 6]))
    + (if b + 1 == n then 0.0 else Dot(w.response(edge, Walk(fix, 0, b + 1))[r], z[6 * (b + 1)..6 * (b + 1) + 6]))
  }

  lemma EquationIsEffect(w: RingWorld, fix: Place, n: nat, z: Vec, b: nat, r: nat)
    requires IsPanel(fix) && |z| == 6 * n && b < n && r < 6
    ensures EdgeEquation(w, fix, n, z, b, r) == z[r] + MotionEffect(w, fix, n, z, b, r)
  {
    if b == 0 { DotZeros(w.response(EdgeAt(fix, b), PanelAt(fix, b))[r], 6); }
    if b + 1 == n { DotZeros(w.response(EdgeAt(fix, b), PanelAt(fix, b + 1))[r], 6); }
    assert Slice(z, 0)[r] == z[r];
    hide Dot, Walk, EdgeOf, IsPanel;
  }

  /** With an exact solution, moving every panel of the ring but the fixed one by its six entries leaves each
      edge with the same misalignment, reading by reading: the systematic offset. */
  lemma ExactSolutionLeavesOffset(w: RingWorld, fix: Place, n: nat, z: Vec, b: nat, r: nat)
    requires IsPanel(fix) && Complete(w, fix, n) && |z| == 6 * n && b < n && r < 6
    requires |Misalignments(w, fix, n)| == 6 * n && SolvesRing(w, fix, n, z)
    ensures |w.misalignment(EdgeAt(fix, b))| == 6
    ensures w.misalignment(EdgeOf(Walk(fix, 0, b), Walk(fix, 0, b + 1)))[r] - MotionEffect(w, fix, n, z, b, r) == z[r]
  {
    MisalignmentsOfEdges(w, fix, n);
    RowIsEdgeEquation(w, fix, n, z, b, r);
    EquationIsEffect(w, fix, n, z, b, r);
    assert Dot(ScalarRow(RingMatrix(w, fix, n)[b], r), z) == Misalignments(w, fix, n)[6 * b + r];
    hide Dot, ScalarRow, RingMatrix, Misalignments, MotionEffect, EdgeEquation, Walk, EdgeOf, IsPanel;
  }

  /* ---------- the calculation ---------- */

  datatype RingPlan =
    | NoFixedPanel
    | NoNeighbor
    | Undefined                     // uses the matrix or the last edge of an empty list
    | NotEnoughSensors
    | UnknownSensor                 // throws at a sensor without a systematic offset
    | RingPlan(offsets: Vec, x: Vec, panels: seq<Place>)

  function Misalignments(w: RingWorld, fix: Place, n: nat): (v: Vec)
    requires IsPanel(fix)
  {
    if n == 0 then [] else Misalignments(w, fix, n - 1) + w.misalignment(EdgeAt(fix, n - 1))
  }

  function EdgesUpTo(fix: Place, n: nat): seq<Edge>
    requires IsPanel(fix)
  {
    seq(n, (b: nat) => EdgeAt(fix, b))
  }

  lemma RingStep(w: RingWorld, fix: Place, b: nat)
    requires IsPanel(fix)
    ensures IsPanel(PanelAt(fix, b)) && PanelAt(fix, 0) == fix
    ensures PanelAt(fix, b + 1) == Neighbor(PanelAt(fix, b), 0)
    ensures EdgeAt(fix, b) == EdgeOf(PanelAt(fix, b), PanelAt(fix, b + 1))
    ensures Misalignments(w, fix, 0) == []
    ensures Misalignments(w, fix, b + 1) == Misalignments(w, fix, b) + w.misalignment(EdgeAt(fix, b))
  {
  }

  lemma EdgeStep(w: RingWorld, fix: Place, b: nat)
    requires IsPanel(fix)
    ensures EdgesUpTo(fix, 0) == [] && Complete(w, fix, 0)
    ensures EdgesUpTo(fix, b + 1) == EdgesUpTo(fix, b) + [EdgeAt(fix, b)]
    ensures Found(w, fix, b) <==>
            w.present(PanelAt(fix, b)) && w.present(PanelAt(fix, b + 1)) && w.hasEdge(EdgeAt(fix, b))
    ensures Complete(w, fix, b + 1) <==> Complete(w, fix, b) && Found(w, fix, b) && |w.misalignment(EdgeAt(fix, b))| == 6
  {
    hide PanelAt, EdgeAt, IsPanel;
  }

  lemma RingSizes(fix: Place)
    requires IsPanel(fix) && 1 <= fix.mirror <= 3
    ensures 8 <= Size(fix) <= NumPanels(fix.mirror, fix.ring)
    ensures Size(fix) == (if fix.mirror == 1 then 16 else 8) * fix.ring
    ensures NumPanels(fix.mirror, fix.ring) == (if fix.mirror == 2 then 8 else 16) * fix.ring
    ensures Size(fix) == NumPanels(fix.mirror, fix.ring) <==> fix.mirror != 3
  {
  }

  /** After a positive number of steps within one turn the walk is home exactly when the turn is whole. */
  lemma HomeAfterOneTurn(fix: Place, b: nat)
    requires IsPanel(fix) && b <= Size(fix)
    ensures PanelAt(fix, b) == fix <==> b == 0 || b == Size(fix)
  {
    if b > 0 { WalkIsOneCycle(fix, 0, 0, b); }
  }

  /** Block row `b` as laid out by its three writes, in this order: the response to the current panel,
      the response to the next panel, and the identity in the first block column. */
  method FillBlockRow(glob: array2<Block>, b: nat, cur: Block, next: Block)
    requires b < glob.Length0 == glob.Length1
    modifies glob
    ensures forall i, c :: 0 <= i < glob.Length0 && 0 <= c < glob.Length1 ==>
              (glob[i, c] ==
               if i != b then old(glob[i, c])
               else if c == 0 then Identity()
               else if c == b + 1 then next
               else if c == b then cur
               else old(glob[i, c]))
  {
    var n := glob.Length0;
    glob[b, b] := cur;
    if b + 1 < n {
      assert (b + 1) % n == b + 1;
    } else {
      assert (b + 1) % n == 0;
    }
    glob[b, (b + 1) % n] := next;
    glob[b, 0] := Identity();
  }

  /** The first `rows` block rows are laid out, the others untouched. */
  ghost predicate LaidOut(glob: array2<Block>, w: RingWorld, fix: Place, rows: nat)
    requires IsPanel(fix)
    reads glob
  {
    && (forall b, c :: 0 <= b < rows && b < glob.Length0 && 0 <= c < glob.Length1 ==> glob[b, c] == RingBlock(w, fix, b, c))
    && (forall b, c :: rows <= b < glob.Length0 && 0 <= c < glob.Length1 ==> glob[b, c] == NoResponse())
  }

  method AddEdge(glob: array2<Block>, w: RingWorld, edge: Edge, cur: Place, next: Place, row: nat, ghost fix: Place)
    requires IsPanel(fix) && row < glob.Length0 == glob.Length1
    modifies glob
    ensures old(LaidOut(glob, w, fix, row)) && cur == PanelAt(fix, row) && next == PanelAt(fix, row + 1) && edge == EdgeAt(fix, row)
            ==> LaidOut(glob, w, fix, row + 1)
  {
    FillBlockRow(glob, row, w.response(edge, cur), w.response(edge, next));
    hide EdgeAt, PanelAt, NoResponse, Identity;
  }

  /** The blocks as a value, for the solver. */
  method MatrixOf(glob: array2<Block>, ghost w: RingWorld, ghost fix: Place) returns (matrix: seq<seq<Block>>)
    requires IsPanel(fix) && glob.Length0 == glob.Length1 && LaidOut(glob, w, fix, glob.Length0)
    ensures matrix == RingMatrix(w, fix, glob.Length0)
  {
    hide RingBlock, NoResponse;
    var n := glob.Length0;
    matrix := seq(n, (b: nat) requires b < n reads glob => seq(n, (c: nat) requires c < n reads glob => glob[b, c]));
    forall b | 0 <= b < n ensures matrix[b] == RingMatrix(w, fix, n)[b] {
      forall c | 0 <= c < n ensures matrix[b][c] == RingMatrix(w, fix, n)[b][c] {
        assert glob[b, c] == RingBlock(w, fix, b, c);
      }
    }
  }

  method EmptySystem(n: nat, ghost w: RingWorld, ghost fix: Place) returns (glob: array2<Block>)
    requires IsPanel(fix)
    ensures fresh(glob) && glob.Length0 == glob.Length1 == n && LaidOut(glob, w, fix, 0)
  {
    glob := new Block[n, n]((b, c) => NoResponse());
  }

  /** Goes once around the ring from the fixed panel, laying out one block row per edge. A missing panel
      is skipped without advancing the row, a failed lookup of an edge is ignored but advances it; each
      row after the first multiplies the matrices of the last edges found. */
  method TraverseRing(fix: Place, w: RingWorld, numPanels: nat)
    returns (defined: bool, glob: array2<Block>, misalign: Vec, panelsToMove: seq<Place>, edges: seq<Edge>)
    requires IsPanel(fix) && Size(fix) <= numPanels && w.present(fix) && w.present(PanelAt(fix, 1))
    ensures defined <==> w.hasEdge(EdgeAt(fix, 0))
    ensures glob.Length0 == glob.Length1 == numPanels
    ensures defined ==> |misalign| <= 6 * Size(fix) && (|misalign| == 6 * Size(fix) <==> Complete(w, fix, Size(fix)))
    ensures defined && Complete(w, fix, Size(fix)) ==>
              && LaidOut(glob, w, fix, Size(fix)) && misalign == Misalignments(w, fix, Size(fix))
              && edges == EdgesUpTo(fix, Size(fix))
              && |panelsToMove| == Size(fix) + 1
              && forall b :: 0 <= b < Size(fix) ==> panelsToMove[b + 1] == PanelAt(fix, b)
  {
    hide *;
    RingStep(w, fix, 0);
    EdgeStep(w, fix, 0);
    RingSizeAtLeast(fix);
    glob := EmptySystem(numPanels, w, fix);
    defined, misalign, edges := true, [], [];
    var curPanel, blockRow := fix, 0;
    var prevMatrix, nextMatrix := false, false;
    panelsToMove := [curPanel];
    var started := false;
    ghost var steps := 0;
    while !started || curPanel != fix
      invariant started <==> steps > 0
      invariant blockRow <= steps <= Size(fix) <= numPanels && curPanel == PanelAt(fix, steps)
      invariant |misalign| <= 6 * steps && (|misalign| == 6 * steps <==> Complete(w, fix, steps))
      invariant edges == [] ==> !prevMatrix && !nextMatrix
      invariant steps > 0 ==> if w.hasEdge(EdgeAt(fix, 0)) then edges != [] && prevMatrix && nextMatrix else blockRow == 1
      invariant steps > 0 && !w.hasEdge(EdgeAt(fix, 0)) ==> !prevMatrix
      invariant steps == Size(fix) ==> w.hasEdge(EdgeAt(fix, 0))
      invariant Complete(w, fix, steps) ==> blockRow == steps && misalign == Misalignments(w, fix, steps)
      invariant Complete(w, fix, steps) ==> edges == EdgesUpTo(fix, steps) && |panelsToMove| == steps + 1
      invariant Complete(w, fix, steps) ==> forall b :: 0 <= b < steps ==> panelsToMove[b + 1] == PanelAt(fix, b)
      invariant Complete(w, fix, steps) ==> LaidOut(glob, w, fix, steps)
      decreases Size(fix) - steps
    {
      HomeAfterOneTurn(fix, steps);
      HomeAfterOneTurn(fix, steps + 1);
      RingStep(w, fix, steps);
      EdgeStep(w, fix, steps);
      started := true;
      var nextPanel := GetPanelNeighbor(curPanel, 0);
      if !w.present(nextPanel) {
        curPanel, steps := nextPanel, steps + 1;
        continue;
      }
      if w.present(curPanel) {
        panelsToMove := panelsToMove + [curPanel];
        var edge := EdgeOf(curPanel, nextPanel);
        if w.hasEdge(edge) {
          edges := edges + [edge];
          misalign := misalign + w.misalignment(edge);
          AddEdge(glob, w, edge, curPanel, nextPanel, blockRow, fix);
          nextMatrix := true;
        }
      }
      curPanel, blockRow, steps := nextPanel, blockRow + 1, steps + 1;
      if blockRow != 1 && (edges == [] || !prevMatrix) {
        defined := false;
        return;
      }
      prevMatrix := nextMatrix;
    }
    HomeAfterOneTurn(fix, steps);
  }

  lemma RingSizeAtLeast(fix: Place)
    requires IsPanel(fix)
    ensures Size(fix) >= 8
  {
  }

  /** The offset for a sensor at position `p`: the two entries at its place among the sensors of the
      last edge, or what an earlier calculation left for that position. */
  ghost predicate IsOffsetFor(given: Offset, p: nat, last: seq<nat>, offsets: Vec, kept: map<nat, Offset>)
    requires 2 * |last| <= |offsets|
  {
    if p in last then exists i :: 0 <= i < |last| && last[i] == p && given == offsets[2 * i..2 * i + 2]
    else p in kept && given == kept[p]
  }

  /** Keeps the offsets by position of the last edge's sensors. */
  method KeepOffsets(last: seq<nat>, offsets: Vec, kept: map<nat, Offset>) returns (table: map<nat, Offset>)
    requires 2 * |last| <= |offsets|
    ensures forall p :: p in table <==> p in kept || p in last
    ensures forall p :: p in table ==> IsOffsetFor(table[p], p, last, offsets, kept)
  {
    table := kept;
    for i := 0 to |last|
      invariant forall p :: p in table <==> p in kept || p in last[..i]
      invariant forall p :: p in table ==> IsOffsetFor(table[p], p, last[..i], offsets, kept)
    {
      assert last[..i + 1] == last[..i] + [last[i]];
      forall p, given | p != last[i] && IsOffsetFor(given, p, last[..i], offsets, kept)
        ensures IsOffsetFor(given, p, last[..i + 1], offsets, kept)
      {
        OffsetStays(given, p, last, i, offsets, kept);
      }
      OffsetPut(last, i, offsets, kept);
      hide IsOffsetFor;
      table := table[last[i] := offsets[2 * i..2 * i + 2]];
    }
    assert last[..|last|] == last;
  }

  lemma OffsetStays(given: Offset, p: nat, last: seq<nat>, i: nat, offsets: Vec, kept: map<nat, Offset>)
    requires 2 * |last| <= |offsets| && i < |last| && p != last[i] && IsOffsetFor(given, p, last[..i], offsets, kept)
    ensures IsOffsetFor(given, p, last[..i + 1], offsets, kept)
  {
    if p in last[..i] {
      var k :| 0 <= k < i && last[..i][k] == p && given == offsets[2 * k..2 * k + 2];
      assert last[..i + 1][k] == p;
    }
  }

  lemma OffsetPut(last: seq<nat>, i: nat, offsets: Vec, kept: map<nat, Offset>)
    requires 2 * |last| <= |offsets| && i < |last|
    ensures IsOffsetFor(offsets[2 * i..2 * i + 2], last[i], last[..i + 1], offsets, kept)
  {
    assert last[..i + 1][i] == last[i];
  }

  ghost predicate AllKept(sensors: seq<nat>, table: map<nat, Offset>) {
    forall p :: p in sensors ==> p in table
  }

  /** Gives every sensor of the edges the offset kept for its position, and throws at the first that
      has none. */
  method HandOutOffsets(edges: seq<Edge>, positions: Edge -> seq<nat>, table: map<nat, Offset>)
    returns (known: bool, given: map<(Edge, nat), Offset>)
    ensures known <==> forall e :: 0 <= e < |edges| ==> AllKept(positions(edges[e]), table)
    ensures forall e, p :: (e, p) in given ==> e in edges && p in positions(e) && p in table && given[(e, p)] == table[p]
    ensures known ==> forall e, p :: e in edges && p in positions(e) ==> (e, p) in given
  {
    known, given := true, map[];
    for e := 0 to |edges|
      invariant forall d :: 0 <= d < e ==> AllKept(positions(edges[d]), table)
      invariant forall d, p :: (d, p) in given ==> d in edges && p in positions(d) && p in table && given[(d, p)] == table[p]
      invariant forall d, p :: 0 <= d < e && p in positions(edges[d]) ==> (edges[d], p) in given
    {
      var sensors := positions(edges[e]);
      for i := 0 to |sensors|
        invariant forall j :: 0 <= j < i ==> sensors[j] in table && (edges[e], sensors[j]) in given
        invariant forall d, p :: (d, p) in given ==> d in edges && p in positions(d) && p in table && given[(d, p)] == table[p]
        invariant forall d, p :: 0 <= d < e && p in positions(edges[d]) ==> (edges[d], p) in given
      {
        if sensors[i] !in table {
          return false, given;
        }
        given := given[(edges[e], sensors[i]) := table[sensors[i]]];
      }
    }
  }

  /** Every sensor of the ring sits at a position of the last edge's sensors or of one kept earlier. */
  ghost predicate AllKnown(w: RingWorld, fix: Place, kept: map<nat, Offset>)
    requires IsPanel(fix)
  {
    forall b, p :: 0 <= b < Size(fix) && p in w.positions(EdgeAt(fix, b)) ==>
      p in kept || p in w.positions(EdgeAt(fix, Size(fix) - 1))
  }

  /** Every sensor of the ring was given its offset. */
  ghost predicate OffsetsGiven(w: RingWorld, fix: Place, kept: map<nat, Offset>, offsets: Vec, given: map<(Edge, nat), Offset>)
    requires IsPanel(fix) && 2 * |w.positions(EdgeAt(fix, Size(fix) - 1))| <= |offsets|
  {
    forall b, p :: 0 <= b < Size(fix) && p in w.positions(EdgeAt(fix, b)) ==>
      && (EdgeAt(fix, b), p) in given
      && IsOffsetFor(given[(EdgeAt(fix, b), p)], p, w.positions(EdgeAt(fix, Size(fix) - 1)), offsets, kept)
  }

  /** Solves for all edges of the ring together. A plan is made exactly when every panel and every edge of
      the ring is found, all sensors are usable, and the ring traversed, which is the one of the neighbour
      function, has as many panels as the mirror definition says; on the test setup the two differ, and no
      ring of it can be aligned. The check for missing panels ends after the first neighbour, and where the
      first edge is missing the calculation goes on with a matrix it does not have. */
  method CalculateAlignRing(fix: Place, w: RingWorld, kept: map<nat, Offset>)
    returns (plan: RingPlan, given: map<(Edge, nat), Offset>)
    requires IsPanel(fix) && 1 <= fix.mirror <= 3
    requires (forall m, v :: |w.solve(m, v)| == |v|) && (forall e :: |w.positions(e)| <= 3)
    ensures plan.NoFixedPanel? <==> !w.present(fix)
    ensures plan.NoNeighbor? <==> w.present(fix) && !w.present(PanelAt(fix, 1))
    ensures plan.Undefined? <==> w.present(fix) && w.present(PanelAt(fix, 1)) && !w.hasEdge(EdgeAt(fix, 0))
    ensures plan.RingPlan? <==> fix.mirror != 3 && Complete(w, fix, Size(fix)) && AllKnown(w, fix, kept)
    ensures plan.UnknownSensor? <==> fix.mirror != 3 && Complete(w, fix, Size(fix)) && !AllKnown(w, fix, kept)
    ensures plan.RingPlan? ==>
              var n := Size(fix);
              var z := w.solve(RingMatrix(w, fix, n), Misalignments(w, fix, n));
              && |z| == 6 * n && plan.offsets == z[..6] && plan.x == z[6..]
              && (|plan.panels| == n && forall b :: 0 <= b < n ==> plan.panels[b] == PanelAt(fix, b))
              && OffsetsGiven(w, fix, kept, plan.offsets, given)
  {
    RingSizes(fix);
    if Complete(w, fix, Size(fix)) { CompleteStarts(w, fix); }
    hide *;
    given := map[];
    if !w.present(fix) {
      return NoFixedPanel, given;
    }
    var next := GetPanelNeighbor(fix, 0);
    RingStep(w, fix, 0);
    if !w.present(next) {
      return NoNeighbor, given;
    }
    var numPanels := NumPanels(fix.mirror, fix.ring);
    var defined, glob, misalign, panelsToMove, edges := TraverseRing(fix, w, numPanels);
    if !defined {
      return Undefined, given;
    }
    if |misalign| < 6 * numPanels {
      return NotEnoughSensors, given;
    }
    panelsToMove := panelsToMove[1..];
    var matrix := MatrixOf(glob, w, fix);
    var z := w.solve(matrix, misalign);
    var known;
    known, given := ShareOffsets(fix, w, kept, edges, z[..6]);
    if !known {
      return UnknownSensor, given;
    }
    plan := RingPlan(z[..6], z[6..], panelsToMove);
  }

  /** In a complete ring the fixed panel, its neighbour and the edge between them are found. */
  lemma CompleteStarts(w: RingWorld, fix: Place)
    requires IsPanel(fix) && Complete(w, fix, Size(fix))
    ensures w.present(fix) && w.present(PanelAt(fix, 1)) && w.hasEdge(EdgeAt(fix, 0))
  {
    RingStep(w, fix, 0);
    assert Found(w, fix, 0);
  }

  method ShareOffsets(fix: Place, w: RingWorld, kept: map<nat, Offset>, edges: seq<Edge>, offsets: Vec)
    returns (known: bool, given: map<(Edge, nat), Offset>)
    requires IsPanel(fix) && |offsets| == 6 && edges == EdgesUpTo(fix, Size(fix)) && forall e :: |w.positions(e)| <= 3
    ensures known <==> AllKnown(w, fix, kept)
    ensures known ==> OffsetsGiven(w, fix, kept, offsets, given)
  {
    hide EdgeAt, PanelAt, IsOffsetFor;
    var table := KeepOffsets(w.positions(edges[|edges| - 1]), offsets, kept);
    known, given := HandOutOffsets(edges, w.positions, table);
    assert forall b :: 0 <= b < Size(fix) ==> edges[b] == EdgeAt(fix, b) && edges[b] in edges;
  }

  /** The plan of a ring names the fixed panel as the first panel to move and has no entries for it: its
      vector is six short, and the slice at the place of each listed panel was solved for the next one. */
  lemma RingPlanIsOnePanelShort(fix: Place, w: RingWorld, z: Vec, panels: seq<Place>)
    requires IsPanel(fix) && |z| == 6 * Size(fix) && |panels| == Size(fix)
    requires forall b :: 0 <= b < |panels| ==> panels[b] == PanelAt(fix, b)
    ensures |z[6..]| + 6 == 6 * |panels| && panels[0] == fix
    ensures forall i, j :: 0 <= i < j < |panels| ==> panels[i] != panels[j]
    ensures forall b :: 0 <= b < |panels| - 1 ==> Slice(z[6..], b) == Slice(z, b + 1)
  {
    RingStep(w, fix, 0);
    SliceAfterHead(z);
    hide *;
    forall i, j | 0 <= i < j < |panels| ensures panels[i] != panels[j] {
      PanelsDiffer(fix, i, j);
    }
  }

  lemma SliceAfterHead(z: Vec)
    requires |z| >= 6
    ensures forall b :: 0 <= b && 6 * (b + 1) + 6 <= |z| ==> Slice(z[6..], b) == Slice(z, b + 1)
  {
  }

  lemma PanelsDiffer(fix: Place, i: nat, j: nat)
    requires IsPanel(fix) && i < j < Size(fix)
    ensures PanelAt(fix, i) != PanelAt(fix, j)
  {
    WalkIsOneCycle(fix, 0, i, j);
  }
}
