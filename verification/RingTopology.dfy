/** Panel positions of a segmented mirror and the cyclic order of the panels of a ring. */
module RingTopology {

  /* ---------- quotients and residues ---------- */

  lemma UniqueSplit(d: int, q: int, r: int, q': int, r': int)
    requires d > 0 && q * d + r == q' * d + r' && 0 <= r < d && 0 <= r' < d
    ensures q == q' && r == r'
  {
    if q > q' {
      Multiple(q - q', d);
    } else if q < q' {
      Multiple(q' - q, d);
    }
    assert (q - q') * d == q * d - q' * d && (q' - q) * d == q' * d - q * d;
  }

  lemma Multiple(k: int, d: int)
    requires k >= 1 && d > 0
    ensures k * d >= d
  {
  }

  /** Quotient and remainder are unique. */
  lemma DivMod(x: int, d: int, q: int, r: int)
    requires d > 0 && x == q * d + r && 0 <= r < d
    ensures x / d == q && x % d == r
  {
    UniqueSplit(d, q, r, x / d, x % d);
  }

  lemma Residues(a: int, b: int, k: int, d: nat)
    requires d > 0 && a == b + k * d
    ensures a % d == b % d
  {
    assert (b / d + k) * d == (b / d) * d + k * d;
    DivMod(a, d, b / d + k, b % d);
  }

  /* ---------- positions ---------- */

  /** A panel position, by its four digits. */
  datatype Place = Place(mirror: nat, quadrant: nat, ring: nat, panel: nat)

  function Position(p: Place): nat {
    p.mirror * 1000 + p.quadrant * 100 + p.ring * 10 + p.panel
  }

  function Digits(pos: nat): Place {
    Place(pos / 1000, (pos % 1000) / 100, (pos % 100) / 10, pos % 10)
  }

  /** Writing a position as a number and reading its digits back loses nothing. */
  lemma DigitsOfPosition(p: Place)
    requires p.quadrant < 10 && p.ring < 10 && p.panel < 10
    ensures Digits(Position(p)) == p
  {
    var pos := Position(p);
    DivMod(pos, 1000, p.mirror, p.quadrant * 100 + p.ring * 10 + p.panel);
    DivMod(pos % 1000, 100, p.quadrant, p.ring * 10 + p.panel);
    DivMod(pos, 100, p.mirror * 10 + p.quadrant, p.ring * 10 + p.panel);
    DivMod(pos % 100, 10, p.ring, p.panel);
    DivMod(pos, 10, p.mirror * 100 + p.quadrant * 10 + p.ring, p.panel);
  }

  /** Panels in a quarter of a ring, as the neighbour function counts them: every mirror
      other than the primary is taken to have the sizes of the secondary. */
  function QuadSize(mirror: nat, ring: nat): (base: nat)
    ensures base == 2 || base == 4 || base == 8
  {
    if mirror == 1 then (if ring == 1 then 4 else 8) else (if ring == 1 then 2 else 4)
  }

  /** A place that names a panel of one of the two rings; there are always four quadrants. */
  predicate IsPanel(p: Place) {
    && (p.ring == 1 || p.ring == 2)
    && 1 <= p.quadrant <= 4
    && 1 <= p.panel <= QuadSize(p.mirror, p.ring)
  }

  /** The panels there are: four quadrants, in ring 1 of the primary four panels each and in ring 2 eight, and half
      as many in other mirrors. */
  lemma IsPanelIff(p: Place)
    ensures IsPanel(p) <==>
            p.ring in {1, 2} && p.quadrant in {1, 2, 3, 4} && 1 <= p.panel <= (if p.mirror == 1 then 4 else 2) * p.ring
  {
  }

  function Size(p: Place): (size: nat)
    ensures size == 8 || size == 16 || size == 32
  {
    4 * QuadSize(p.mirror, p.ring)
  }

  predicate SameRing(p: Place, q: Place) {
    p.mirror == q.mirror && p.ring == q.ring
  }

  /** Number of panels of the ring in the quadrants before the given one. */
  function PanelsBefore(quadrant: nat, base: nat): nat {
    if quadrant <= 1 then 0 else if quadrant == 2 then base else if quadrant == 3 then 2 * base else 3 * base
  }

  /** Place of a panel in its ring, counted from the first panel of the first quadrant. */
  function Index(p: Place): (g: nat)
    requires IsPanel(p)
    ensures g < Size(p)
  {
    PanelsBefore(p.quadrant, QuadSize(p.mirror, p.ring)) + (p.panel - 1)
  }

  /** The panel at a given place of the ring of `p`. */
  function AtIndex(p: Place, g: nat): (q: Place)
    requires IsPanel(p) && g < Size(p)
    ensures IsPanel(q) && SameRing(p, q) && Index(q) == g
  {
    var base := QuadSize(p.mirror, p.ring);
    var quadrant := if g < base then 1 else if g < 2 * base then 2 else if g < 3 * base then 3 else 4;
    Place(p.mirror, quadrant, p.ring, g - PanelsBefore(quadrant, base) + 1)
  }

  lemma IndexIsInjective(p: Place, q: Place)
    requires IsPanel(p) && IsPanel(q) && SameRing(p, q) && Index(p) == Index(q)
    ensures p == q
  {
  }

  /* ---------- neighbours ---------- */

  const TWO_TO_THE_32: int := 0x1_0000_0000

  predicate Int32(i: int) { -0x8000_0000 <= i < 0x8000_0000 }

  /** Moves `inc` places along the ring: addition modulo the ring size, whatever the sign and
      size of the 32-bit increment. The increment is a signed number and the size an unsigned
      one, so a negative increment is first taken modulo 2^32; that does no harm because every
      ring size divides 2^32. */
  method GroupAdd(p: Place, inc: int) returns (q: Place)
    requires IsPanel(p) && Int32(inc)
    ensures q == AtIndex(p, (Index(p) + inc) % Size(p))
  {
    var size, base := Size(p), QuadSize(p.mirror, p.ring);
    if inc == 0 {
      DivMod(Index(p) + inc, size, 0, Index(p));
      IndexIsInjective(p, AtIndex(p, Index(p)));
      return p;
    }
    var quadrant := p.quadrant - 1;
    var panel := p.panel - 1;
    var shift;
    if inc < 0 {
      shift := size + (inc + TWO_TO_THE_32) % size;
    } else {
      shift := inc % size;
    }
    var groupPos := quadrant * base + panel;
    QuadrantStart(p.quadrant, base);
    assert groupPos == Index(p);
    ShiftIsIncrement(groupPos, inc, size, shift);
    groupPos := (groupPos + shift) % size;
    SplitIsAtIndex(p, groupPos, size, base);
    panel := groupPos % base;
    quadrant := (groupPos - panel) / base;
    hide *;
    q := Place(p.mirror, quadrant + 1, p.ring, panel + 1);
  }

  lemma SplitIsAtIndex(p: Place, g: nat, size: nat, base: nat)
    requires IsPanel(p) && size == Size(p) && base == QuadSize(p.mirror, p.ring) && g < size
    ensures (g - g % base) / base >= 0
    ensures Place(p.mirror, (g - g % base) / base + 1, p.ring, g % base + 1) == AtIndex(p, g)
  {
    SplitPlace(g, base);
    var quadrant, panel := (g - g % base) / base, g % base;
    QuadrantStart(quadrant + 1, base);
    PlaceAtIndex(p, quadrant, panel, g);
  }

  lemma PlaceAtIndex(p: Place, quadrant: nat, panel: nat, g: nat)
    requires IsPanel(p) && quadrant < 4 && panel < QuadSize(p.mirror, p.ring) && g < Size(p)
    requires g == PanelsBefore(quadrant + 1, QuadSize(p.mirror, p.ring)) + panel
    ensures Place(p.mirror, quadrant + 1, p.ring, panel + 1) == AtIndex(p, g)
  {
    IndexIsInjective(Place(p.mirror, quadrant + 1, p.ring, panel + 1), AtIndex(p, g));
  }

  lemma QuadrantStart(quadrant: nat, base: nat)
    requires 1 <= quadrant <= 4
    ensures PanelsBefore(quadrant, base) == (quadrant - 1) * base
  {
  }

  lemma SplitPlace(g: nat, base: nat)
    requires 0 < base && g < 4 * base
    ensures 0 <= (g - g % base) / base < 4 && ((g - g % base) / base) * base + g % base == g
  {
    DivMod(g - g % base, base, g / base, 0);
    FewerThanFour(g / base, g % base, base);
  }

  lemma FewerThanFour(q: int, r: int, base: nat)
    requires 0 < base && 0 <= r && 0 <= q * base + r < 4 * base
    ensures q < 4
  {
    assert (q - 3) * base == q * base - 3 * base;
    if q >= 4 {
      Multiple(q - 3, base);
    }
  }

  lemma ShiftIsIncrement(g: nat, inc: int, size: nat, shift: int)
    requires size == 8 || size == 16 || size == 32
    requires shift == if inc < 0 then size + (inc + TWO_TO_THE_32) % size else inc % size
    ensures (g + shift) % size == (g + inc) % size
  {
    if inc < 0 {
      var turns := if size == 8 then 0x2000_0000 else if size == 16 then 0x1000_0000 else 0x800_0000;
      WholeTurns(g, inc, size, turns);
    } else {
      ResidueShifts(g, inc, size);
    }
  }

  lemma ResidueShifts(g: int, inc: int, size: nat)
    requires size > 0
    ensures (g + inc % size) % size == (g + inc) % size
  {
    Residues(g + inc % size, g + inc, -(inc / size), size);
  }

  lemma WholeTurns(g: int, inc: int, size: nat, turns: int)
    requires size > 0 && TWO_TO_THE_32 == turns * size
    ensures (g + (size + (inc + TWO_TO_THE_32) % size)) % size == (g + inc) % size
  {
    var all := TWO_TO_THE_32;
    Residues(g + (size + (inc + all) % size), g + (inc + all) % size, 1, size);
    ResidueShifts(g, inc + all, size);
    Residues(g + (inc + all), g + inc, turns, size);
  }

  predicate Direction(dir: int) { dir == 0 || dir == 1 }

  /** The next place in a direction, wrapping at the ends of the ring. */
  function StepIndex(g: nat, dir: int, size: nat): (h: nat)
    requires g < size
    ensures h < size
  {
    if dir == 1 then (if g + 1 == size then 0 else g + 1)
    else (if g == 0 then size - 1 else g - 1)
  }

  /** The panel next to `p` in its ring; direction 0 goes down in position, 1 goes up. */
  function Neighbor(p: Place, dir: int): (q: Place)
    requires IsPanel(p) && Direction(dir)
    ensures IsPanel(q) && SameRing(p, q) && Index(q) == StepIndex(Index(p), dir, Size(p))
  {
    AtIndex(p, StepIndex(Index(p), dir, Size(p)))
  }

  method GetPanelNeighbor(p: Place, dir: int) returns (q: Place)
    requires IsPanel(p) && Direction(dir)
    ensures q == Neighbor(p, dir)
  {
    StepIsModular(Index(p), dir, Size(p));
    q := GroupAdd(p, dir * 2 - 1);
  }

  lemma StepIsModular(g: nat, dir: int, size: nat)
    requires g < size && Direction(dir)
    ensures (g + (dir * 2 - 1)) % size == StepIndex(g, dir, size)
  {
    if dir == 1 && g + 1 == size {
      DivMod(g + 1, size, 1, 0);
    } else if dir == 0 && g == 0 {
      DivMod(g - 1, size, -1, size - 1);
    } else {
      DivMod(g + (dir * 2 - 1), size, 0, g + (dir * 2 - 1));
    }
  }

  /** The panel next up is the next of its quadrant, or the first of the next quadrant, after the fourth the
      first; next down is the previous one, or the last of the previous quadrant. */
  lemma NeighborPlaces(p: Place)
    requires IsPanel(p)
    ensures var last := (if p.mirror == 1 then 4 else 2) * p.ring;
            && Neighbor(p, 1) == (if p.panel < last then p.(panel := p.panel + 1)
                                  else p.(quadrant := if p.quadrant == 4 then 1 else p.quadrant + 1, panel := 1))
            && Neighbor(p, 0) == (if p.panel > 1 then p.(panel := p.panel - 1)
                                  else p.(quadrant := if p.quadrant == 1 then 4 else p.quadrant - 1, panel := last))
  {
    PlaceUp(p);
    PlaceDown(p);
    hide Neighbor, IsPanel;
  }

  lemma PlaceUp(p: Place)
    requires IsPanel(p)
    ensures Neighbor(p, 1) == if p.panel < QuadSize(p.mirror, p.ring) then p.(panel := p.panel + 1)
                              else p.(quadrant := if p.quadrant == 4 then 1 else p.quadrant + 1, panel := 1)
  {
    var q := if p.panel < QuadSize(p.mirror, p.ring) then p.(panel := p.panel + 1)
             else p.(quadrant := if p.quadrant == 4 then 1 else p.quadrant + 1, panel := 1);
    assert Index(q) == StepIndex(Index(p), 1, Size(p));
    hide *;
    SameIndexSamePanel(p, q, Neighbor(p, 1));
  }

  lemma PlaceDown(p: Place)
    requires IsPanel(p)
    ensures Neighbor(p, 0) == if p.panel > 1 then p.(panel := p.panel - 1)
                              else p.(quadrant := if p.quadrant == 1 then 4 else p.quadrant - 1, panel := QuadSize(p.mirror, p.ring))
  {
    var q := if p.panel > 1 then p.(panel := p.panel - 1)
             else p.(quadrant := if p.quadrant == 1 then 4 else p.quadrant - 1, panel := QuadSize(p.mirror, p.ring));
    assert Index(q) == StepIndex(Index(p), 0, Size(p));
    hide *;
    SameIndexSamePanel(p, q, Neighbor(p, 0));
  }

  /** The two directions undo each other. */
  lemma DirectionsAreInverse(p: Place, dir: int)
    requires IsPanel(p) && Direction(dir)
    ensures Neighbor(Neighbor(p, dir), 1 - dir) == p
  {
    IndexIsInjective(Neighbor(Neighbor(p, dir), 1 - dir), p);
  }

  /* ---------- walking around the ring ---------- */

  /** Place reached after `k` steps, at most one turn. */
  function WalkIndex(g: nat, dir: int, k: nat, size: nat): (h: nat)
    requires g < size && k <= size
    ensures h < size
  {
    if dir == 1 then (if g + k < size then g + k else g + k - size)
    else (if k <= g then g - k else g + size - k)
  }

  lemma WalkStep(g: nat, dir: int, k: nat, size: nat)
    requires g < size && Direction(dir)
    ensures WalkIndex(g, dir, 0, size) == g
    ensures 0 < k <= size ==> StepIndex(WalkIndex(g, dir, k - 1, size), dir, size) == WalkIndex(g, dir, k, size)
  {
  }

  /** The panel reached from `p` by `k` steps in direction `dir`. */
  function Walk(p: Place, dir: int, k: nat): (q: Place)
    requires IsPanel(p) && Direction(dir)
    ensures IsPanel(q) && SameRing(p, q)
    ensures k <= Size(p) ==> Index(q) == WalkIndex(Index(p), dir, k, Size(p))
  {
    WalkStep(Index(p), dir, k, Size(p));
    if k == 0 then
      p
    else
      SameRingSameSize(p, Walk(p, dir, k - 1));
      hide *;
      Neighbor(Walk(p, dir, k - 1), dir)
  }

  lemma SameRingSameSize(p: Place, q: Place)
    requires SameRing(p, q)
    ensures Size(p) == Size(q)
    ensures forall r :: SameRing(q, r) <==> SameRing(p, r)
  {
  }

  /** The ring is one cycle, exactly as long as the number of its panels: the walk returns to
      its start after that many steps, and the panels before that are pairwise different. */
  lemma WalkIsOneCycle(p: Place, dir: int, j: nat, k: nat)
    requires IsPanel(p) && Direction(dir) && j < k <= Size(p)
    ensures Walk(p, dir, j) == Walk(p, dir, k) <==> j == 0 && k == Size(p)
  {
    WalkIndexIsOneCycle(Index(p), dir, j, k, Size(p));
    var u, v := Walk(p, dir, j), Walk(p, dir, k);
    if Index(u) == Index(v) { SameIndexSamePanel(p, u, v); }
    hide *;
  }

  lemma WalkIndexIsOneCycle(g: nat, dir: int, j: nat, k: nat, size: nat)
    requires g < size && Direction(dir) && j < k <= size
    ensures WalkIndex(g, dir, j, size) == WalkIndex(g, dir, k, size) <==> j == 0 && k == size
  {
  }

  lemma SameIndexSamePanel(p: Place, u: Place, v: Place)
    requires IsPanel(u) && IsPanel(v) && SameRing(p, u) && SameRing(p, v) && Index(u) == Index(v)
    ensures u == v
  {
    IndexIsInjective(u, v);
  }

  /** Every panel of the ring is met within one turn, in either direction. */
  lemma WalkReaches(p: Place, dir: int, q: Place) returns (k: nat)
    requires IsPanel(p) && IsPanel(q) && SameRing(p, q) && Direction(dir)
    ensures k < Size(p) && Walk(p, dir, k) == q
  {
    var g: int, h: int, size: int := Index(p), Index(q), Size(p);
    SameRingSameSize(p, q);
    k := if dir == 1 then (if h >= g then h - g else h - g + size) else (if g >= h then g - h else g - h + size);
    assert WalkIndex(g, dir, k, size) == h;
    hide *;
    SameIndexSamePanel(p, Walk(p, dir, k), q);
  }

  /* ---------- edges ---------- */

  /** An edge between two panels; its address names them in ascending order of position. */
  datatype Edge = Edge(lower: Place, upper: Place)

  function EdgeOf(p: Place, q: Place): (e: Edge)
    ensures {e.lower, e.upper} == {p, q} && Position(e.lower) <= Position(e.upper)
  {
    if Position(p) <= Position(q) then Edge(p, q) else Edge(q, p)
  }

  /* ---------- azimuth ---------- */

  /** Azimuthal offset of a panel from the ideal one, for panels `width` radians wide and
      `halfTurn` the value of pi; a quadrant is half of that. */
  function AzOffset(p: Place, halfTurn: real, width: real): real
    requires IsPanel(p) && width > 0.0
  {
    var quadPanels := halfTurn / 2.0 / width;
    (halfTurn - width / 2.0) - (quadPanels * (p.quadrant as real - 1.0) + p.panel as real - 1.0) * width
  }

  /** A panel is as wide as a whole turn divided by the ring size. */
  predicate IsPanelWidth(p: Place, halfTurn: real, width: real) {
    width > 0.0 && width * Size(p) as real == 2.0 * halfTurn
  }

  lemma QuadrantWidths(halfTurn: real, base: real, width: real)
    requires width > 0.0 && width * (4.0 * base) == 2.0 * halfTurn
    ensures halfTurn / 2.0 / width == base
  {
    assert halfTurn / 2.0 == base * width;
    Quotient(halfTurn / 2.0, base, width);
  }

  lemma Quotient(a: real, b: real, d: real)
    requires d > 0.0 && a == b * d
    ensures a / d == b
  {
  }

  lemma WidthOfQuadrant(p: Place, halfTurn: real, width: real)
    requires IsPanelWidth(p, halfTurn, width)
    ensures width > 0.0 && width * (4.0 * QuadSize(p.mirror, p.ring) as real) == 2.0 * halfTurn
  {
    assert Size(p) as real == 4.0 * QuadSize(p.mirror, p.ring) as real;
  }

  /** The offset counts widths: the panel at place `g` of its ring is turned back by `g` widths. */
  lemma AzOffsetCountsWidths(p: Place, halfTurn: real, width: real)
    requires IsPanel(p) && IsPanelWidth(p, halfTurn, width)
    ensures AzOffset(p, halfTurn, width) == (halfTurn - width / 2.0) - Index(p) as real * width
  {
    hide QuadSize, PanelsBefore, Size, IsPanelWidth;
    var base := QuadSize(p.mirror, p.ring);
    WidthOfQuadrant(p, halfTurn, width);
    QuadrantWidths(halfTurn, base as real, width);
    IndexAsReal(p.quadrant, p.panel, base);
    SameProduct(base as real * (p.quadrant as real - 1.0) + p.panel as real - 1.0, Index(p) as real, width);
  }

  lemma SameProduct(a: real, b: real, width: real)
    requires a == b
    ensures a * width == b * width
  {
  }

  lemma IndexAsReal(quadrant: nat, panel: nat, base: nat)
    requires 1 <= quadrant <= 4 && panel >= 1
    ensures base as real * (quadrant as real - 1.0) + panel as real - 1.0
            == (PanelsBefore(quadrant, base) + (panel - 1)) as real
  {
    if quadrant == 1 {
    } else if quadrant == 2 {
    } else if quadrant == 3 {
      assert (2 * base) as real == base as real * 2.0;
    } else {
      assert (3 * base) as real == base as real * 3.0;
    }
  }
}
