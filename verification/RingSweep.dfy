/** The neighbour of an edge, computed on edge addresses, and the sweep over the edges of a ring. */
module RingSweep {
  import opened Basics
  import opened SelectionText
  import Ring = RingTopology
  import Sweep = EdgeSweep

  type Place = Ring.Place

  /* ---------- addresses ---------- */

  /** The address of an edge of two panels: their positions in ascending order, joined by a plus sign. */
  function Address(p: Place, q: Place): string {
    var e := Ring.EdgeOf(p, q);
    Decimal(Ring.Position(e.lower)) + "+" + Decimal(Ring.Position(e.upper))
  }

  /** `address` is that of an edge between `p` and `q`: two numbers, the positions of both panels, the smaller
      one first, and a plus sign between. */
  ghost predicate NamesEdge(address: string, p: Place, q: Place) {
    exists a: nat, b: nat :: IsAscending(a, b, p, q) && address == Decimal(a) + "+" + Decimal(b)
  }

  ghost predicate IsAscending(a: nat, b: nat, p: Place, q: Place) {
    a < b && ((a == Ring.Position(p) && b == Ring.Position(q)) || (a == Ring.Position(q) && b == Ring.Position(p)))
  }

  lemma AddressNamesEdge(p: Place, q: Place, address: string)
    requires Ring.Position(p) != Ring.Position(q)
    ensures NamesEdge(address, p, q) <==> address == Address(p, q)
  {
    hide Decimal, Ring.Position;
    var e := Ring.EdgeOf(p, q);
    assert e.lower in {p, q} && e.upper in {p, q} && p in {e.lower, e.upper} && q in {e.lower, e.upper};
    assert IsAscending(Ring.Position(e.lower), Ring.Position(e.upper), p, q);
    forall a: nat, b: nat | IsAscending(a, b, p, q) ensures a == Ring.Position(e.lower) && b == Ring.Position(e.upper) {
    }
  }

  /** The four digits of a position are mirror, quadrant, ring and panel. */
  lemma PositionText(p: Place)
    requires IsMirrorPanel(p)
    ensures Decimal(Ring.Position(p)) == [DigitChar(p.mirror), DigitChar(p.quadrant), DigitChar(p.ring), DigitChar(p.panel)]
  {
    PositionIsSmall(p);
    var n := Ring.Position(p);
    Ring.DivMod(n, 10, n / 10, p.panel);
    FourDigits(n, p.mirror, p.quadrant, p.ring, p.panel);
  }

  lemma FourDigits(n: nat, a: nat, b: nat, c: nat, d: nat)
    requires n == a * 1000 + b * 100 + c * 10 + d && 1 <= a < 10 && b < 10 && c < 10 && d < 10
    ensures Decimal(n) == [DigitChar(a), DigitChar(b), DigitChar(c), DigitChar(d)]
  {
    var t, u, v := a * 100 + b * 10 + c, a * 10 + b, a;
    Ring.DivMod(n, 10, t, d);
    Ring.DivMod(t, 10, u, c);
    Ring.DivMod(u, 10, v, b);
    assert Digits(v) == [DigitChar(a)];
    assert Digits(u) == Digits(v) + [DigitChar(b)];
    assert Digits(t) == Digits(u) + [DigitChar(c)];
    assert Digits(n) == Digits(t) + [DigitChar(d)];
  }

  /** Number of characters before the first plus sign. */
  function PlusAt(s: string): (k: nat)
    ensures k <= |s| && (k < |s| ==> s[k] == '+')
  {
    if s == "" || s[0] == '+' then 0 else 1 + PlusAt(s[1..])
  }

  /** The non-empty stretches between plus signs. */
  function Pieces(s: string): seq<string> {
    var k := PlusAt(s);
    var front := if k > 0 then [s[..k]] else [];
    if k == |s| then front else front + Pieces(s[k + 1..])
  }

  /** Two plus signs in a row, or one at an end, make no empty piece. */
  lemma {:induction false} PiecesAreNotEmpty(s: string)
    ensures forall w :: w in Pieces(s) ==> w != "" && forall i :: 0 <= i < |w| ==> w[i] != '+'
    decreases |s|
  {
    var k := PlusAt(s);
    NoPlusBefore(s);
    if k < |s| { PiecesAreNotEmpty(s[k + 1..]); }
  }

  lemma {:induction false} NoPlusBefore(s: string)
    ensures forall i :: 0 <= i < PlusAt(s) ==> s[i] != '+'
  {
    if s != "" && s[0] != '+' { NoPlusBefore(s[1..]); }
  }

  /** Whether `q` is the next panel after `p` in the sense of `dir`; only asked of panels. */
  predicate IsLess(p: Place, q: Place, dir: int)
    requires Ring.IsPanel(p) && Ring.Direction(dir)
  {
    Ring.Neighbor(p, dir) == q
  }

  /** The smaller and the greater panel of an edge in the sense of `dir`, the way the library takes minimum
      and maximum: nothing where it throws, or for positions that name no panel of a ring. */
  function PanelsFromEdge(address: string, dir: int): Option<(Place, Place)>
    requires Ring.Direction(dir)
  {
    var pieces := Pieces(address);
    if |pieces| < 2 then None else
    var i, j := Stoi(pieces[0]), Stoi(pieces[1]);
    if i.None? || j.None? || i.value < 0 || j.value < 0 then None else
    var a, b := Ring.Digits(i.value), Ring.Digits(j.value);
    if !Ring.IsPanel(a) || !Ring.IsPanel(b) then None else
    Some((if IsLess(b, a, dir) then b else a, if IsLess(a, b, dir) then b else a))
  }

  /** The edge after the greater panel. */
  function EdgeNeighbor(address: string, dir: int): Option<string>
    requires Ring.Direction(dir)
  {
    var panels := PanelsFromEdge(address, dir);
    if panels.None? then None else
    var greater := panels.value.1;
    Some(Address(greater, Ring.Neighbor(greater, dir)))
  }

  /* ---------- neighbours of ring edges ---------- */

  /** A panel of one of the three mirrors. */
  predicate IsMirrorPanel(p: Place) { Ring.IsPanel(p) && 1 <= p.mirror <= 3 }

  /** The edge from a panel to its next one. */
  function EdgeFrom(p: Place, dir: int): string
    requires Ring.IsPanel(p) && Ring.Direction(dir)
  {
    Address(p, Ring.Neighbor(p, dir))
  }

  lemma {:induction false} PlusAfter(w: string, rest: string)
    requires forall i :: 0 <= i < |w| ==> w[i] != '+'
    ensures PlusAt(w + "+" + rest) == |w| && PlusAt(w) == |w|
  {
    if w != "" {
      assert (w + "+" + rest)[1..] == w[1..] + "+" + rest;
      PlusAfter(w[1..], rest);
    }
  }

  lemma TwoPieces(a: string, b: string)
    requires a != "" && b != ""
    requires forall i :: 0 <= i < |a| ==> a[i] != '+'
    requires forall i :: 0 <= i < |b| ==> b[i] != '+'
    ensures Pieces(a + "+" + b) == [a, b]
  {
    PlusAfter(a, b);
    PlusAfter(b, "");
    var s := a + "+" + b;
    assert s[..|a|] == a && s[|a| + 1..] == b && b[..|b|] == b;
  }

  lemma DecimalHasNoPlus(n: nat)
    ensures Decimal(n) != "" && forall i :: 0 <= i < |Decimal(n)| ==> Decimal(n)[i] != '+'
  {
  }

  /** Positions of panels are numbers of four digits. */
  lemma PositionIsSmall(p: Place)
    requires IsMirrorPanel(p)
    ensures Ring.Position(p) <= 4000 && Ring.Digits(Ring.Position(p)) == p
  {
    Ring.DigitsOfPosition(p);
  }

  lemma PlacesInAddress(p: Place, q: Place)
    requires IsMirrorPanel(p) && IsMirrorPanel(q)
    ensures var e := Ring.EdgeOf(p, q);
            && Pieces(Address(p, q)) == [Decimal(Ring.Position(e.lower)), Decimal(Ring.Position(e.upper))]
            && Stoi(Decimal(Ring.Position(e.lower))) == Some(Ring.Position(e.lower))
            && Stoi(Decimal(Ring.Position(e.upper))) == Some(Ring.Position(e.upper))
  {
    PositionIsSmall(p);
    PositionIsSmall(q);
    hide Decimal, Stoi, Pieces, Ring.IsPanel, Ring.Digits;
    var e := Ring.EdgeOf(p, q);
    var a, b := Ring.Position(e.lower), Ring.Position(e.upper);
    DecimalHasNoPlus(a);
    DecimalHasNoPlus(b);
    TwoPieces(Decimal(a), Decimal(b));
    StoiOfDecimal(a, "");
    StoiOfDecimal(b, "");
    assert Decimal(a) + "" == Decimal(a) && Decimal(b) + "" == Decimal(b);
  }

  /** A ring has more than two panels, so of two neighbours only one is the next of the other. */
  lemma NextIsOneWay(p: Place, dir: int)
    requires Ring.IsPanel(p) && Ring.Direction(dir)
    ensures !IsLess(Ring.Neighbor(p, dir), p, dir) && IsLess(p, Ring.Neighbor(p, dir), dir)
  {
  }

  /** An edge address gives back its two panels, the smaller one first, whatever the order of positions. */
  lemma PanelsOfEdge(p: Place, dir: int)
    requires IsMirrorPanel(p) && Ring.Direction(dir)
    ensures PanelsFromEdge(EdgeFrom(p, dir), dir) == Some((p, Ring.Neighbor(p, dir)))
  {
    var q := Ring.Neighbor(p, dir);
    PlacesInAddress(p, q);
    PositionIsSmall(p);
    PositionIsSmall(q);
    NextIsOneWay(p, dir);
    hide Decimal, Stoi, Pieces, Ring.Digits, Ring.Neighbor, Ring.Position, Address, IsLess;
  }

  lemma NextEdgeFrom(p: Place, dir: int)
    requires IsMirrorPanel(p) && Ring.Direction(dir)
    ensures EdgeNeighbor(EdgeFrom(p, dir), dir) == Some(EdgeFrom(Ring.Neighbor(p, dir), dir))
  {
    PanelsOfEdge(p, dir);
    hide PanelsFromEdge, Address;
  }

  /** Neighbours have different positions. */
  lemma NeighborsDiffer(p: Place, dir: int)
    requires IsMirrorPanel(p) && Ring.Direction(dir)
    ensures IsMirrorPanel(Ring.Neighbor(p, dir)) && Ring.Position(p) != Ring.Position(Ring.Neighbor(p, dir))
  {
    PositionIsSmall(p);
    PositionIsSmall(Ring.Neighbor(p, dir));
    NextIsOneWay(p, dir);
    hide Ring.Position, Ring.Digits;
  }

  /** The neighbour of a ring edge is the ring edge one panel on: from the text that names the positions of
      two neighbouring panels in ascending order to the one that does so for the greater panel and its own
      neighbour, also where the ring closes and the next panel has the smaller position. */
  lemma NeighborIsNextEdge(p: Place, dir: int, address: string)
    requires IsMirrorPanel(p) && Ring.Direction(dir) && NamesEdge(address, p, Ring.Neighbor(p, dir))
    ensures var q := Ring.Neighbor(p, dir);
            EdgeNeighbor(address, dir).Some? && NamesEdge(EdgeNeighbor(address, dir).value, q, Ring.Neighbor(q, dir))
  {
    hide NamesEdge, Address, EdgeNeighbor, Ring.Neighbor;
    var q := Ring.Neighbor(p, dir);
    NeighborsDiffer(p, dir);
    NeighborsDiffer(q, dir);
    AddressNamesEdge(p, q, address);
    NextEdgeFrom(p, dir);
    AddressNamesEdge(q, Ring.Neighbor(q, dir), Address(q, Ring.Neighbor(q, dir)));
  }

  /* ---------- the sweep along a ring ---------- */

  /** The neighbour as a function on all addresses; one that names no two panels of a ring is left as it is. */
  function NextEdge(dir: int): string -> string
    requires Ring.Direction(dir)
  {
    (address: string) => var next := EdgeNeighbor(address, dir); if next.Some? then next.value else address
  }

  /** Walking from edge to edge walks from panel to panel. */
  lemma {:induction false} EdgesFollowPanels(dir: int, p: Place, k: nat)
    requires IsMirrorPanel(p) && Ring.Direction(dir)
    ensures IsMirrorPanel(Ring.Walk(p, dir, k))
    ensures Sweep.Walk(NextEdge(dir), EdgeFrom(p, dir), k) == EdgeFrom(Ring.Walk(p, dir, k), dir)
  {
    hide EdgeNeighbor, EdgeFrom;
    if k > 0 {
      EdgesFollowPanels(dir, p, k - 1);
      NextEdgeFrom(Ring.Walk(p, dir, k - 1), dir);
    }
  }

  /** All edges of the ring of `p` are there, each under the text that names its two panels. */
  ghost predicate AllEdgesPresent(children: set<string>, p: Place, dir: int)
    requires Ring.Direction(dir)
  {
    forall r: Place, address: string {:trigger NamesEdge(address, r, Ring.Neighbor(r, dir))} ::
      Ring.IsPanel(r) && Ring.SameRing(p, r) && NamesEdge(address, r, Ring.Neighbor(r, dir)) ==> address in children
  }

  lemma EdgeIsPresent(children: set<string>, p: Place, r: Place, dir: int)
    requires Ring.Direction(dir) && AllEdgesPresent(children, p, dir) && IsMirrorPanel(r) && Ring.SameRing(p, r)
    ensures EdgeFrom(r, dir) in children
  {
    hide NamesEdge, Address, Ring.Neighbor;
    NeighborsDiffer(r, dir);
    AddressNamesEdge(r, Ring.Neighbor(r, dir), EdgeFrom(r, dir));
  }

  lemma StartsAt(p: Place, dir: int, address: string)
    requires IsMirrorPanel(p) && Ring.Direction(dir) && NamesEdge(address, p, Ring.Neighbor(p, dir))
    ensures address == EdgeFrom(p, dir)
  {
    hide NamesEdge, Address, Ring.Neighbor;
    NeighborsDiffer(p, dir);
    AddressNamesEdge(p, Ring.Neighbor(p, dir), address);
  }

  /** If all edges of a ring are there, every edge of the ring is reached from every other, in either
      direction, so collecting the edges between them succeeds. */
  lemma RingEdgesAreConnected(dir: int, children: set<string>, p: Place, q: Place, start: string, end: string)
    requires IsMirrorPanel(p) && IsMirrorPanel(q) && Ring.SameRing(p, q) && Ring.Direction(dir)
    requires AllEdgesPresent(children, p, dir)
    requires NamesEdge(start, p, Ring.Neighbor(p, dir)) && NamesEdge(end, q, Ring.Neighbor(q, dir))
    ensures Sweep.Connected(NextEdge(dir), children, start, end)
  {
    StartsAt(p, dir, start);
    StartsAt(q, dir, end);
    var n := Ring.WalkReaches(p, dir, q);
    hide NextEdge, EdgeFrom, Ring.Walk, Sweep.Walk, NamesEdge, Ring.Neighbor;
    forall i: nat | i <= n ensures Sweep.Walk(NextEdge(dir), EdgeFrom(p, dir), i) in children {
      EdgesFollowPanels(dir, p, i);
      assert Ring.SameRing(p, Ring.Walk(p, dir, i));
      EdgeIsPresent(children, p, Ring.Walk(p, dir, i), dir);
    }
    EdgesFollowPanels(dir, p, n);
    assert Sweep.Leads(NextEdge(dir), children, EdgeFrom(p, dir), EdgeFrom(q, dir), n);
  }
}
