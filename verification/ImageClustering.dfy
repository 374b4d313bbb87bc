/** Grouping of the bright pixels of a camera image into clusters, and the
    flux-weighted centroid of every cluster. */
module ImageClustering {

  datatype Pixel = Pixel(row: int, col: int, value: real)

  datatype Centroid = Centroid(row: real, col: real, total: real)

  /* ---------- connectivity ---------- */

  function Abs(i: int): int { if i < 0 then -i else i }

  /** The same pixel, or one of its four edge neighbours. */
  predicate Near(p: Pixel, q: Pixel) {
    Abs(p.row - q.row) + Abs(p.col - q.col) <= 1
  }

  /** The program's test, on the squared distance of the pixel centres, admits the four
      edge neighbours and nothing diagonal. */
  predicate WithinReach(p: Pixel, q: Pixel): (near: bool)
    ensures near <==> Near(q, p)
  {
    SquareGrows(p.row - q.row);
    SquareGrows(p.col - q.col);
    var dr := (p.row - q.row) * (p.row - q.row);
    dr + (p.col - q.col) * (p.col - q.col) < 2
  }

  lemma SquareGrows(i: int)
    ensures Abs(i) == 0 ==> i * i == 0
    ensures Abs(i) == 1 ==> i * i == 1
    ensures Abs(i) >= 2 ==> i * i >= 4
  {
    if Abs(i) >= 2 {
      assert Abs(i) * Abs(i) >= 2 * Abs(i);
    }
  }

  /** Within reach are the pixel itself and its neighbours above, below, left and right. */
  lemma WithinReachIff(p: Pixel, q: Pixel)
    ensures WithinReach(p, q) <==>
            (q.row, q.col) in {(p.row, p.col), (p.row - 1, p.col), (p.row + 1, p.col), (p.row, p.col - 1), (p.row, p.col + 1)}
  {
  }


  ghost predicate IsPath(s: set<Pixel>, path: seq<Pixel>, p: Pixel, q: Pixel) {
    && |path| > 0 && path[0] == p && path[|path| - 1] == q
    && (forall i :: 0 <= i < |path| ==> path[i] in s)
    && (forall i :: 0 <= i < |path| - 1 ==> Near(path[i], path[i + 1]))
  }

  /** `q` can be reached from `p` by steps between neighbouring pixels of `s`. */
  ghost predicate Linked(s: set<Pixel>, p: Pixel, q: Pixel) {
    exists path :: IsPath(s, path, p, q)
  }

  lemma LinkedSelf(s: set<Pixel>, p: Pixel)
    requires p in s
    ensures Linked(s, p, p)
  {
    assert IsPath(s, [p], p, p);
  }

  lemma LinkedStep(s: set<Pixel>, t: set<Pixel>, p: Pixel, m: Pixel, q: Pixel)
    requires s <= t && Linked(s, p, m) && q in t && Near(m, q)
    ensures Linked(t, p, q)
  {
    var path :| IsPath(s, path, p, m);
    assert IsPath(t, path + [q], p, q);
  }

  lemma LinkedWider(s: set<Pixel>, t: set<Pixel>, p: Pixel, q: Pixel)
    requires s <= t && Linked(s, p, q)
    ensures Linked(t, p, q)
  {
    var path :| IsPath(s, path, p, q);
    assert IsPath(t, path, p, q);
  }

  lemma {:induction false} ReversedPath(s: set<Pixel>, path: seq<Pixel>, p: Pixel, q: Pixel)
    requires IsPath(s, path, p, q)
    ensures Linked(s, q, p)
    decreases |path|
  {
    if |path| == 1 {
      LinkedSelf(s, p);
    } else {
      var shorter := path[..|path| - 1];
      var m := shorter[|shorter| - 1];
      assert IsPath(s, shorter, p, m);
      ReversedPath(s, shorter, p, m);
      var back :| IsPath(s, back, m, p);
      assert IsPath(s, [q] + back, q, p);
    }
  }

  lemma LinkedSymmetric(s: set<Pixel>, p: Pixel, q: Pixel)
    requires Linked(s, p, q)
    ensures Linked(s, q, p)
  {
    var path :| IsPath(s, path, p, q);
    ReversedPath(s, path, p, q);
  }

  /* ---------- connected components ---------- */

  /** No pixel outside `s` touches a pixel of `s`. */
  ghost predicate Closed(all: set<Pixel>, s: set<Pixel>) {
    forall p, q {:trigger Near(p, q)} :: p in s && q in all && Near(p, q) ==> q in s
  }

  ghost predicate Connected(s: set<Pixel>) {
    forall p, q {:trigger Linked(s, p, q)} :: p in s && q in s ==> Linked(s, p, q)
  }

  ghost predicate IsComponent(all: set<Pixel>, s: set<Pixel>) {
    s != {} && s <= all && Connected(s) && Closed(all, s)
  }

  ghost predicate InSome(parts: seq<set<Pixel>>, p: Pixel) {
    exists i :: 0 <= i < |parts| && p in parts[i]
  }

  ghost predicate IsPartition(all: set<Pixel>, parts: seq<set<Pixel>>) {
    && (forall i :: 0 <= i < |parts| ==> IsComponent(all, parts[i]))
    && (forall i, j :: 0 <= i < j < |parts| ==> parts[i] !! parts[j])
    && (forall p {:trigger InSome(parts, p)} :: p in all ==> InSome(parts, p))
  }

  lemma {:induction false} StaysInside(all: set<Pixel>, s: set<Pixel>, path: seq<Pixel>, p: Pixel, q: Pixel)
    requires Closed(all, s) && p in s && IsPath(all, path, p, q)
    ensures q in s
    decreases |path|
  {
    if |path| > 1 {
      var shorter := path[..|path| - 1];
      StaysInside(all, s, shorter, p, shorter[|shorter| - 1]);
    }
  }

  /** Two pixels share a part exactly when a chain of neighbouring pixels joins them:
      the parts are the connected components. */
  lemma PartsAreComponents(all: set<Pixel>, parts: seq<set<Pixel>>, p: Pixel, q: Pixel)
    requires IsPartition(all, parts) && p in all && q in all
    ensures Linked(all, p, q) <==> exists i :: 0 <= i < |parts| && p in parts[i] && q in parts[i]
  {
    if Linked(all, p, q) {
      assert InSome(parts, p);
      var i :| 0 <= i < |parts| && p in parts[i];
      assert IsComponent(all, parts[i]);
      var path :| IsPath(all, path, p, q);
      StaysInside(all, parts[i], path, p, q);
    }
    if i :| 0 <= i < |parts| && p in parts[i] && q in parts[i] {
      assert IsComponent(all, parts[i]);
      LinkedWider(parts[i], all, p, q);
    }
  }

  /** The parts do not depend on the order in which seeds were taken. */
  lemma PartitionIsUnique(all: set<Pixel>, a: seq<set<Pixel>>, b: seq<set<Pixel>>, s: set<Pixel>)
    requires IsPartition(all, a) && IsPartition(all, b)
    ensures s in a <==> s in b
  {
    if i :| 0 <= i < |a| && a[i] == s { PartIsShared(all, a, b, i); }
    if i :| 0 <= i < |b| && b[i] == s { PartIsShared(all, b, a, i); }
  }

  lemma PartIsShared(all: set<Pixel>, a: seq<set<Pixel>>, b: seq<set<Pixel>>, i: nat)
    requires IsPartition(all, a) && IsPartition(all, b) && i < |a|
    ensures a[i] in b
  {
    assert IsComponent(all, a[i]);
    var p :| p in a[i];
    assert InSome(b, p);
    var j :| 0 <= j < |b| && p in b[j];
    assert IsComponent(all, b[j]);
    ComponentsAgree(all, a[i], b[j], p);
  }

  lemma ComponentsAgree(all: set<Pixel>, s: set<Pixel>, t: set<Pixel>, p: Pixel)
    requires IsComponent(all, s) && IsComponent(all, t) && p in s && p in t
    ensures s == t
  {
    ComponentsNest(all, s, t, p);
    ComponentsNest(all, t, s, p);
  }

  lemma ComponentsNest(all: set<Pixel>, s: set<Pixel>, t: set<Pixel>, p: Pixel)
    requires IsComponent(all, s) && IsComponent(all, t) && p in s && p in t
    ensures s <= t
  {
    forall q | q in s ensures q in t {
      LinkedWider(s, all, p, q);
      var path :| IsPath(all, path, p, q);
      StaysInside(all, t, path, p, q);
    }
  }

  /** Pixels of different parts never touch. */
  lemma PartsDoNotTouch(all: set<Pixel>, parts: seq<set<Pixel>>, i: nat, j: nat, p: Pixel, q: Pixel)
    requires IsPartition(all, parts) && i < |parts| && j < |parts| && i != j
    requires p in parts[i] && q in parts[j]
    ensures !Near(p, q)
  {
    assert IsComponent(all, parts[i]) && IsComponent(all, parts[j]);
    assert parts[i] !! parts[j];
  }

  /* ---------- clusters as lists ---------- */

  function Members(c: seq<Pixel>): set<Pixel> {
    set p | p in c
  }

  /** `c` lists the pixels of `s`, each of them once. */
  ghost predicate Lists(c: seq<Pixel>, s: set<Pixel>) {
    Members(c) == s && |c| == |s|
  }

  /** `clusters[i]` lists component `parts[i]` of the pixels. */
  ghost predicate IsClustering(all: set<Pixel>, clusters: seq<seq<Pixel>>, parts: seq<set<Pixel>>) {
    && |clusters| == |parts|
    && (forall i :: 0 <= i < |clusters| ==> Lists(clusters[i], parts[i]))
    && IsPartition(all, parts)
  }

  /* ---------- the pixels not yet taken ---------- */

  /** The three parallel lists hold exactly the untaken pixels `free`, each once;
      the value of a taken entry is zero. */
  ghost predicate Holds(xs: seq<int>, ys: seq<int>, zs: seq<real>, free: set<Pixel>) {
    && |xs| == |ys| == |zs|
    && (forall k :: 0 <= k < |zs| ==> zs[k] >= 0.0)
    && (forall k :: 0 <= k < |zs| && zs[k] > 0.0 ==> Pixel(xs[k], ys[k], zs[k]) in free)
    && (forall p {:trigger HeldSomewhere(xs, ys, zs, p)} :: p in free ==> HeldSomewhere(xs, ys, zs, p))
    && (forall i, j :: 0 <= i < j < |zs| && zs[i] > 0.0 && zs[j] > 0.0 ==> xs[i] != xs[j] || ys[i] != ys[j])
  }

  ghost predicate HeldSomewhere(xs: seq<int>, ys: seq<int>, zs: seq<real>, p: Pixel)
    requires |xs| == |ys| == |zs|
  {
    exists k :: 0 <= k < |zs| && zs[k] > 0.0 && p == Pixel(xs[k], ys[k], zs[k])
  }

  lemma TakeOne(xs: seq<int>, ys: seq<int>, zs: seq<real>, free: set<Pixel>, k: nat)
    requires Holds(xs, ys, zs, free) && k < |zs| && zs[k] > 0.0
    ensures Holds(xs[k := 0], ys[k := 0], zs[k := 0.0], free - {Pixel(xs[k], ys[k], zs[k])})
    ensures Pixel(xs[k], ys[k], zs[k]) in free
  {
    var p := Pixel(xs[k], ys[k], zs[k]);
    var xs', ys', zs' := xs[k := 0], ys[k := 0], zs[k := 0.0];
    forall q | q in free - {p}
      ensures HeldSomewhere(xs', ys', zs', q)
    {
      assert HeldSomewhere(xs, ys, zs, q);
      var j :| 0 <= j < |zs| && zs[j] > 0.0 && q == Pixel(xs[j], ys[j], zs[j]);
      assert zs'[j] == zs[j];
    }
    forall j | 0 <= j < |zs'| && zs'[j] > 0.0
      ensures Pixel(xs'[j], ys'[j], zs'[j]) in free - {p}
    {
      assert j != k && (if j < k then xs[j] != xs[k] || ys[j] != ys[k] else xs[k] != xs[j] || ys[k] != ys[j]);
    }
  }

  /* ---------- flux ---------- */

  function Sum(zs: seq<real>): real {
    if zs == [] then 0.0 else Sum(zs[..|zs| - 1]) + zs[|zs| - 1]
  }

  lemma SumAppend(zs: seq<real>, z: real)
    ensures Sum(zs + [z]) == Sum(zs) + z
  {
    assert (zs + [z])[..|zs|] == zs;
  }

  lemma {:induction false} SumWithout(zs: seq<real>, k: nat)
    requires k < |zs|
    ensures Sum(zs[k := 0.0]) == Sum(zs) - zs[k]
  {
    var n := |zs| - 1;
    if k < n {
      assert zs[k := 0.0][..n] == zs[..n][k := 0.0];
      SumWithout(zs[..n], k);
    } else {
      assert zs[k := 0.0][..n] == zs[..n];
    }
  }

  lemma {:induction false} SumOfNone(zs: seq<real>)
    requires forall k :: 0 <= k < |zs| ==> zs[k] == 0.0
    ensures Sum(zs) == 0.0
  {
    if zs != [] { SumOfNone(zs[..|zs| - 1]); }
  }

  function Flux(c: seq<Pixel>): real {
    if c == [] then 0.0 else Flux(c[..|c| - 1]) + c[|c| - 1].value
  }

  function RowMoment(c: seq<Pixel>): real {
    if c == [] then 0.0 else RowMoment(c[..|c| - 1]) + c[|c| - 1].row as real * c[|c| - 1].value
  }

  function ColMoment(c: seq<Pixel>): real {
    if c == [] then 0.0 else ColMoment(c[..|c| - 1]) + c[|c| - 1].col as real * c[|c| - 1].value
  }

  lemma FluxAppend(c: seq<Pixel>, p: Pixel)
    ensures Flux(c + [p]) == Flux(c) + p.value
  {
    assert (c + [p])[..|c|] == c;
  }

  function TotalFlux(clusters: seq<seq<Pixel>>): real {
    if clusters == [] then 0.0 else TotalFlux(clusters[..|clusters| - 1]) + Flux(clusters[|clusters| - 1])
  }

  /** Sum of the positive entries of row `r` before column `c`. */
  ghost function RowFlux(image: array2<real>, r: nat, c: nat): real
    requires r < image.Length0 && c <= image.Length1
    reads image
  {
    if c == 0 then 0.0
    else RowFlux(image, r, c - 1) + if image[r, c - 1] > 0.0 then image[r, c - 1] else 0.0
  }

  /** Sum of the positive entries of the first `r` rows. */
  ghost function ImageFlux(image: array2<real>, r: nat): real
    requires r <= image.Length0
    reads image
  {
    if r == 0 then 0.0 else ImageFlux(image, r - 1) + RowFlux(image, r - 1, image.Length1)
  }

  /** The positive pixels of the image. */
  ghost function Positive(image: array2<real>): set<Pixel>
    reads image
  {
    set r, c | 0 <= r < image.Length0 && 0 <= c < image.Length1 && image[r, c] > 0.0 :: Pixel(r, c, image[r, c])
  }

  lemma {:induction false} FluxPositive(c: seq<Pixel>)
    requires c != [] && forall p :: p in c ==> p.value > 0.0
    ensures Flux(c) > 0.0
  {
    if |c| > 1 { FluxPositive(c[..|c| - 1]); }
  }

  /** A moment of members that lie between two bounds. */
  predicate IsWeighted(lo: real, hi: real, flux: real, moment: real) { lo * flux <= moment <= hi * flux }

  lemma NothingWeighted(lo: real, hi: real)
    ensures IsWeighted(lo, hi, 0.0, 0.0)
  {
  }

  lemma {:induction false} RowMomentBounds(c: seq<Pixel>, lo: int, hi: int)
    requires forall p :: p in c ==> p.value > 0.0 && lo <= p.row <= hi
    ensures IsWeighted(lo as real, hi as real, Flux(c), RowMoment(c))
  {
    hide Flux, RowMoment, ColMoment, IsWeighted;
    NoMoments();
    if c == [] {
      NothingWeighted(lo as real, hi as real);
    } else {
      var p, front := c[|c| - 1], c[..|c| - 1];
      assert front + [p] == c;
      RowMomentBounds(front, lo, hi);
      MomentsAppend(front, p);
      WeightedStep(lo as real, hi as real, Flux(front), RowMoment(front), p.value, p.row as real, p.row as real * p.value);
    }
  }

  lemma {:induction false} ColMomentBounds(c: seq<Pixel>, lo: int, hi: int)
    requires forall p :: p in c ==> p.value > 0.0 && lo <= p.col <= hi
    ensures IsWeighted(lo as real, hi as real, Flux(c), ColMoment(c))
  {
    hide Flux, RowMoment, ColMoment, IsWeighted;
    NoMoments();
    if c == [] {
      NothingWeighted(lo as real, hi as real);
    } else {
      var p, front := c[|c| - 1], c[..|c| - 1];
      assert front + [p] == c;
      ColMomentBounds(front, lo, hi);
      MomentsAppend(front, p);
      WeightedStep(lo as real, hi as real, Flux(front), ColMoment(front), p.value, p.col as real, p.col as real * p.value);
    }
  }

  lemma WeightedStep(lo: real, hi: real, flux: real, moment: real, w: real, x: real, product: real)
    requires IsWeighted(lo, hi, flux, moment) && w > 0.0 && lo <= x <= hi && product == x * w
    ensures IsWeighted(lo, hi, flux + w, moment + product)
  {
    assert lo * (flux + w) == lo * flux + lo * w;
    assert hi * (flux + w) == hi * flux + hi * w;
  }

  lemma MeanBetween(lo: real, x: real, hi: real, w: real, moment: real)
    requires w > 0.0 && x * w == moment && lo * w <= moment <= hi * w
    ensures lo <= x <= hi
  {
    assert (x - lo) * w >= 0.0;
    assert (hi - x) * w >= 0.0;
  }

  /** A centroid computed from a cluster: the flux, and the flux-weighted mean position. */
  predicate IsCentroid(g: Centroid, c: seq<Pixel>) {
    && g.total == Flux(c) && g.total > 0.0
    && g.row * g.total == RowMoment(c)
    && g.col * g.total == ColMoment(c)
  }

  /** A centroid lies inside every box that contains its cluster. */
  lemma CentroidInBox(g: Centroid, c: seq<Pixel>, rowLo: int, rowHi: int, colLo: int, colHi: int)
    requires IsCentroid(g, c)
    requires forall p :: p in c ==> p.value > 0.0 && rowLo <= p.row <= rowHi && colLo <= p.col <= colHi
    ensures rowLo as real <= g.row <= rowHi as real
    ensures colLo as real <= g.col <= colHi as real
  {
    CentroidRowBetween(g, c, rowLo, rowHi);
    CentroidColBetween(g, c, colLo, colHi);
  }

  lemma CentroidRowBetween(g: Centroid, c: seq<Pixel>, lo: int, hi: int)
    requires IsCentroid(g, c) && forall p :: p in c ==> p.value > 0.0 && lo <= p.row <= hi
    ensures lo as real <= g.row <= hi as real
  {
    RowMomentBounds(c, lo, hi);
    MeanBetween(lo as real, g.row, hi as real, g.total, RowMoment(c));
  }

  lemma CentroidColBetween(g: Centroid, c: seq<Pixel>, lo: int, hi: int)
    requires IsCentroid(g, c) && forall p :: p in c ==> p.value > 0.0 && lo <= p.col <= hi
    ensures lo as real <= g.col <= hi as real
  {
    ColMomentBounds(c, lo, hi);
    MeanBetween(lo as real, g.col, hi as real, g.total, ColMoment(c));
  }

  /* ---------- the algorithm ---------- */

  /** The three lists of positive pixels, in row-major order. */
  method CollectPixels(image: array2<real>) returns (xs: seq<int>, ys: seq<int>, zs: seq<real>)
    ensures Holds(xs, ys, zs, Positive(image))
    ensures forall k :: 0 <= k < |zs| ==> zs[k] > 0.0
    ensures Sum(zs) == ImageFlux(image, image.Length0)
  {
    xs, ys, zs := [], [], [];
    for row := 0 to image.Length0
      invariant Collected(image, xs, ys, zs, row, 0)
      invariant Sum(zs) == ImageFlux(image, row)
    {
      xs, ys, zs := CollectRow(image, row, xs, ys, zs);
    }
    EverythingCollected(image, xs, ys, zs);
  }

  method CollectRow(image: array2<real>, row: nat, xs0: seq<int>, ys0: seq<int>, zs0: seq<real>)
    returns (xs: seq<int>, ys: seq<int>, zs: seq<real>)
    requires row < image.Length0 && Collected(image, xs0, ys0, zs0, row, 0)
    ensures Collected(image, xs, ys, zs, row + 1, 0)
    ensures Sum(zs) == Sum(zs0) + RowFlux(image, row, image.Length1)
  {
    xs, ys, zs := xs0, ys0, zs0;
    for col := 0 to image.Length1
      invariant Collected(image, xs, ys, zs, row, col)
      invariant Sum(zs) == Sum(zs0) + RowFlux(image, row, col)
    {
      if image[row, col] > 0.0 {
        CollectStep(image, xs, ys, zs, row, col);
        SumAppend(zs, image[row, col]);
        xs, ys, zs := xs + [row], ys + [col], zs + [image[row, col]];
      } else {
        CollectSkip(image, xs, ys, zs, row, col);
      }
    }
    NextRow(image, xs, ys, zs, row);
  }

  predicate Before(r: int, c: int, row: int, col: int) {
    r < row || (r == row && c < col)
  }

  /** The lists hold the positive pixels that come before position (`row`, `col`). */
  ghost predicate Collected(image: array2<real>, xs: seq<int>, ys: seq<int>, zs: seq<real>, row: nat, col: nat)
    reads image
  {
    && |xs| == |ys| == |zs|
    && (forall k :: 0 <= k < |zs| ==>
         0 <= xs[k] < image.Length0 && 0 <= ys[k] < image.Length1
         && (xs[k] < row || (xs[k] == row && ys[k] < col))
         && zs[k] == image[xs[k], ys[k]] && zs[k] > 0.0)
    && (forall r, c {:trigger Before(r, c, row, col)} ::
         0 <= r < image.Length0 && 0 <= c < image.Length1 && Before(r, c, row, col) && image[r, c] > 0.0 ==>
         HeldSomewhere(xs, ys, zs, Pixel(r, c, image[r, c])))
    && (forall i, j :: 0 <= i < j < |zs| ==> xs[i] != xs[j] || ys[i] != ys[j])
  }

  lemma CollectStep(image: array2<real>, xs: seq<int>, ys: seq<int>, zs: seq<real>, row: nat, col: nat)
    requires row < image.Length0 && col < image.Length1 && image[row, col] > 0.0
    requires Collected(image, xs, ys, zs, row, col)
    ensures Collected(image, xs + [row], ys + [col], zs + [image[row, col]], row, col + 1)
  {
    var xs', ys', zs' := xs + [row], ys + [col], zs + [image[row, col]];
    forall r, c | 0 <= r < image.Length0 && 0 <= c < image.Length1 && Before(r, c, row, col + 1) && image[r, c] > 0.0
      ensures HeldSomewhere(xs', ys', zs', Pixel(r, c, image[r, c]))
    {
      if r == row && c == col {
        assert zs'[|zs|] == image[r, c];
      } else {
        assert Before(r, c, row, col);
        var k :| 0 <= k < |zs| && zs[k] > 0.0 && Pixel(r, c, image[r, c]) == Pixel(xs[k], ys[k], zs[k]);
        assert zs'[k] == zs[k];
      }
    }
  }

  lemma CollectSkip(image: array2<real>, xs: seq<int>, ys: seq<int>, zs: seq<real>, row: nat, col: nat)
    requires row < image.Length0 && col < image.Length1 && image[row, col] <= 0.0
    requires Collected(image, xs, ys, zs, row, col)
    ensures Collected(image, xs, ys, zs, row, col + 1)
  {
    forall r, c | 0 <= r < image.Length0 && 0 <= c < image.Length1 && Before(r, c, row, col + 1) && image[r, c] > 0.0
      ensures HeldSomewhere(xs, ys, zs, Pixel(r, c, image[r, c]))
    {
      assert Before(r, c, row, col);
    }
  }

  lemma NextRow(image: array2<real>, xs: seq<int>, ys: seq<int>, zs: seq<real>, row: nat)
    requires row < image.Length0 && Collected(image, xs, ys, zs, row, image.Length1)
    ensures Collected(image, xs, ys, zs, row + 1, 0)
  {
    forall r, c | 0 <= r < image.Length0 && 0 <= c < image.Length1 && Before(r, c, row + 1, 0) && image[r, c] > 0.0
      ensures HeldSomewhere(xs, ys, zs, Pixel(r, c, image[r, c]))
    {
      assert Before(r, c, row, image.Length1);
    }
  }

  lemma EverythingCollected(image: array2<real>, xs: seq<int>, ys: seq<int>, zs: seq<real>)
    requires Collected(image, xs, ys, zs, image.Length0, 0)
    ensures Holds(xs, ys, zs, Positive(image))
  {
    forall p | p in Positive(image)
      ensures HeldSomewhere(xs, ys, zs, p)
    {
      assert Before(p.row, p.col, image.Length0, 0);
    }
  }

  /** The state of the search while the cluster `c`, listing the set `s`, grows out of
      the pixels `start` that were free when its seed was taken. */
  ghost predicate Growing(start: set<Pixel>, c: seq<Pixel>, s: set<Pixel>, free: set<Pixel>) {
    && Lists(c, s) && c != [] && Connected(s)
    && s !! free && s + free == start
  }

  lemma JoinStaysConnected(s: set<Pixel>, m: Pixel, p: Pixel)
    requires Connected(s) && m in s && Near(m, p)
    ensures Connected(s + {p})
  {
    var t := s + {p};
    forall q | q in s ensures Linked(t, q, p) && Linked(t, p, q) {
      assert Linked(s, q, m);
      LinkedStep(s, t, q, m, p);
      LinkedSymmetric(t, q, p);
    }
    LinkedSelf(t, p);
    forall a, b | a in t && b in t ensures Linked(t, a, b) {
      if a != p && b != p {
        assert Linked(s, a, b);
        LinkedWider(s, t, a, b);
      }
    }
  }

  lemma ListsOneMore(c: seq<Pixel>, s: set<Pixel>, p: Pixel)
    requires Lists(c, s) && p !in s
    ensures Lists(c + [p], s + {p})
  {
    assert Members(c + [p]) == Members(c) + {p};
  }

  /** Takes entry `k` into the cluster if it is free and touches member `a`. */
  method TakeIfNear(a: nat, k: nat, c0: seq<Pixel>, xs0: seq<int>, ys0: seq<int>, zs0: seq<real>, n0: int,
                    ghost start: set<Pixel>, ghost s0: set<Pixel>, ghost free0: set<Pixel>)
    returns (c: seq<Pixel>, xs: seq<int>, ys: seq<int>, zs: seq<real>, n: int, taken: bool,
             ghost s: set<Pixel>, ghost free: set<Pixel>)
    requires Growing(start, c0, s0, free0) && Holds(xs0, ys0, zs0, free0) && n0 == |free0|
    requires a < |c0| && k < |xs0|
    ensures Growing(start, c, s, free) && Holds(xs, ys, zs, free) && n == |free|
    ensures c0 <= c && |xs| == |xs0|
    ensures Flux(c) + Sum(zs) == Flux(c0) + Sum(zs0)
    ensures if taken then n == n0 - 1 else (c, xs, ys, zs, n, s, free) == (c0, xs0, ys0, zs0, n0, s0, free0)
    ensures taken <==> zs0[k] > 0.0 && Near(c0[a], Pixel(xs0[k], ys0[k], zs0[k]))
  {
    c, xs, ys, zs, n, taken, s, free := c0, xs0, ys0, zs0, n0, false, s0, free0;
    if zs[k] > 0.0 {
      var p := Pixel(xs[k], ys[k], zs[k]);
      if WithinReach(p, c[a]) {
        GrowthStep(start, c, s, free, xs, ys, zs, a, k);
        c, xs, ys, zs := c + [p], xs[k := 0], ys[k := 0], zs[k := 0.0];
        s, free := s + {p}, free - {p};
        n, taken := n - 1, true;
      }
    }
  }

  /** Takes every free pixel that touches member `a` of the cluster. */
  method GrowAround(a: nat, c0: seq<Pixel>, xs0: seq<int>, ys0: seq<int>, zs0: seq<real>, n0: int,
                    ghost start: set<Pixel>, ghost s0: set<Pixel>, ghost free0: set<Pixel>)
    returns (c: seq<Pixel>, xs: seq<int>, ys: seq<int>, zs: seq<real>, n: int, found: bool,
             ghost s: set<Pixel>, ghost free: set<Pixel>)
    requires a < |c0| && Growing(start, c0, s0, free0) && Holds(xs0, ys0, zs0, free0) && n0 == |free0|
    ensures Growing(start, c, s, free) && Holds(xs, ys, zs, free) && n == |free|
    ensures c0 <= c && |xs| == |xs0|
    ensures Flux(c) + Sum(zs) == Flux(c0) + Sum(zs0)
    ensures if found then n < n0 else n == n0 && c == c0 && free == free0 && Isolated(c0[a], free)
  {
    c, xs, ys, zs, n, found, s, free := c0, xs0, ys0, zs0, n0, false, s0, free0;
    for k := 0 to |xs0|
      invariant Growing(start, c, s, free) && Holds(xs, ys, zs, free) && n == |free|
      invariant c0 <= c && |xs| == |xs0|
      invariant Flux(c) + Sum(zs) == Flux(c0) + Sum(zs0)
      invariant if found then n < n0 else n == n0 && c == c0 && free == free0
      invariant !found ==> forall j :: 0 <= j < k && zs[j] > 0.0 ==> !Near(c0[a], Pixel(xs[j], ys[j], zs[j]))
    {
      var taken;
      c, xs, ys, zs, n, taken, s, free := TakeIfNear(a, k, c, xs, ys, zs, n, start, s, free);
      found := found || taken;
    }
    if !found { HeldAreAll(xs, ys, zs, free, c0[a]); }
  }

  lemma GrowthStep(start: set<Pixel>, c: seq<Pixel>, s: set<Pixel>, free: set<Pixel>,
                   xs: seq<int>, ys: seq<int>, zs: seq<real>, a: nat, k: nat)
    requires Growing(start, c, s, free) && Holds(xs, ys, zs, free) && a < |c| && k < |zs| && zs[k] > 0.0
    requires Near(c[a], Pixel(xs[k], ys[k], zs[k]))
    ensures var p := Pixel(xs[k], ys[k], zs[k]);
            && Growing(start, c + [p], s + {p}, free - {p})
            && Holds(xs[k := 0], ys[k := 0], zs[k := 0.0], free - {p})
            && |free - {p}| == |free| - 1
            && Flux(c + [p]) + Sum(zs[k := 0.0]) == Flux(c) + Sum(zs)
  {
    var p := Pixel(xs[k], ys[k], zs[k]);
    TakeOne(xs, ys, zs, free, k);
    SumWithout(zs, k);
    FluxAppend(c, p);
    assert c[a] in Members(c);
    JoinStaysConnected(s, c[a], p);
    ListsOneMore(c, s, p);
  }

  /** One sweep over the members the cluster had when the sweep began, taking every
      free pixel that touches one of them. */
  method GrowOnce(c0: seq<Pixel>, xs0: seq<int>, ys0: seq<int>, zs0: seq<real>, n0: int,
                  ghost start: set<Pixel>, ghost s0: set<Pixel>, ghost free0: set<Pixel>)
    returns (c: seq<Pixel>, xs: seq<int>, ys: seq<int>, zs: seq<real>, n: int, found: bool,
             ghost s: set<Pixel>, ghost free: set<Pixel>)
    requires Growing(start, c0, s0, free0) && Holds(xs0, ys0, zs0, free0) && n0 == |free0|
    ensures Growing(start, c, s, free) && Holds(xs, ys, zs, free) && n == |free|
    ensures Flux(c) + Sum(zs) == Flux(c0) + Sum(zs0)
    ensures if found then n < n0 else n == n0 && Apart(s, free)
  {
    c, xs, ys, zs, n, found, s, free := c0, xs0, ys0, zs0, n0, false, s0, free0;
    for a := 0 to |c0|
      invariant Growing(start, c, s, free) && Holds(xs, ys, zs, free) && n == |free|
      invariant c0 <= c && |xs| == |xs0|
      invariant Flux(c) + Sum(zs) == Flux(c0) + Sum(zs0)
      invariant if found then n < n0 else n == n0 && c == c0
      invariant !found ==> forall i :: 0 <= i < a ==> Isolated(c0[i], free)
    {
      var more;
      c, xs, ys, zs, n, more, s, free := GrowAround(a, c, xs, ys, zs, n, start, s, free);
      found := found || more;
    }
    if !found { AllIsolated(c, s, free); }
  }

  /** No pixel of `s` touches a pixel of `free`. */
  ghost predicate Apart(s: set<Pixel>, free: set<Pixel>) {
    forall p, q {:trigger Near(p, q)} :: p in s && q in free ==> !Near(p, q)
  }

  lemma AllIsolated(c: seq<Pixel>, s: set<Pixel>, free: set<Pixel>)
    requires Lists(c, s) && forall i :: 0 <= i < |c| ==> Isolated(c[i], free)
    ensures Apart(s, free)
  {
    forall p, q | p in s && q in free
      ensures !Near(p, q)
    {
      assert p in Members(c);
      var i :| 0 <= i < |c| && c[i] == p;
      assert Isolated(c[i], free);
    }
  }

  /** No free pixel touches `p`. */
  ghost predicate Isolated(p: Pixel, free: set<Pixel>) {
    forall q {:trigger Near(p, q)} :: q in free ==> !Near(p, q)
  }

  lemma HeldAreAll(xs: seq<int>, ys: seq<int>, zs: seq<real>, free: set<Pixel>, p: Pixel)
    requires Holds(xs, ys, zs, free)
    requires forall j :: 0 <= j < |zs| && zs[j] > 0.0 ==> !Near(p, Pixel(xs[j], ys[j], zs[j]))
    ensures Isolated(p, free)
  {
    forall q | q in free ensures !Near(p, q) {
      assert HeldSomewhere(xs, ys, zs, q);
    }
  }

  lemma SomeHeld(xs: seq<int>, ys: seq<int>, zs: seq<real>, free: set<Pixel>)
    requires Holds(xs, ys, zs, free) && |free| > 0
    ensures exists k :: 0 <= k < |zs| && zs[k] > 0.0
  {
    var p :| p in free;
    assert HeldSomewhere(xs, ys, zs, p);
  }

  lemma SeedStep(xs: seq<int>, ys: seq<int>, zs: seq<real>, free: set<Pixel>, k: nat)
    requires Holds(xs, ys, zs, free) && k < |zs| && zs[k] > 0.0
    ensures var p := Pixel(xs[k], ys[k], zs[k]);
            && Growing(free, [p], {p}, free - {p})
            && Holds(xs[k := 0], ys[k := 0], zs[k := 0.0], free - {p})
            && |free - {p}| == |free| - 1
            && Flux([p]) + Sum(zs[k := 0.0]) == Sum(zs)
  {
    var p := Pixel(xs[k], ys[k], zs[k]);
    TakeOne(xs, ys, zs, free, k);
    SumWithout(zs, k);
    FluxAppend([], p);
    ListsOneMore([], {}, p);
    assert [] + [p] == [p] && {} + {p} == {p};
    LinkedSelf({p}, p);
  }

  /** Entry `k` is the first that is not taken yet. */
  predicate FirstUntaken(zs: seq<real>, k: nat) {
    k < |zs| && zs[k] > 0.0 && forall j :: 0 <= j < k ==> zs[j] <= 0.0
  }

  /** Takes the first free pixel as the seed of a new cluster. */
  method TakeSeed(xs0: seq<int>, ys0: seq<int>, zs0: seq<real>, n0: int, ghost start: set<Pixel>)
    returns (c: seq<Pixel>, xs: seq<int>, ys: seq<int>, zs: seq<real>, n: int,
             ghost s: set<Pixel>, ghost free: set<Pixel>)
    requires Holds(xs0, ys0, zs0, start) && n0 == |start| > 0
    ensures Growing(start, c, s, free) && Holds(xs, ys, zs, free) && n == |free| == n0 - 1
    ensures Flux(c) + Sum(zs) == Sum(zs0)
    ensures exists k: nat :: FirstUntaken(zs0, k) && c == [Pixel(xs0[k], ys0[k], zs0[k])]
              && xs == xs0[k := 0] && ys == ys0[k := 0] && zs == zs0[k := 0.0]
  {
    SomeHeld(xs0, ys0, zs0, start);
    c, xs, ys, zs, n, s, free := [], xs0, ys0, zs0, n0, {}, start;
    for k := 0 to |xs0|
      invariant c == [] && (xs, ys, zs, n) == (xs0, ys0, zs0, n0) && free == start
      invariant forall j :: 0 <= j < k ==> zs0[j] <= 0.0
    {
      if zs[k] > 0.0 {
        var p := Pixel(xs[k], ys[k], zs[k]);
        SeedStep(xs, ys, zs, free, k);
        c, xs, ys, zs, n := [p], xs[k := 0], ys[k := 0], zs[k := 0.0], n - 1;
        s, free := {p}, free - {p};
        assert FirstUntaken(zs0, k);
        return;
      }
    }
    assert false;
  }

  /** The finished components of `all`, given that the pixels of `free` remain. */
  ghost predicate Covered(all: set<Pixel>, parts: seq<set<Pixel>>, free: set<Pixel>) {
    && free <= all
    && SeparateParts(all, parts, free)
    && (forall p {:trigger InSome(parts, p)} :: p in all ==> p in free || InSome(parts, p))
  }

  ghost predicate SeparateParts(all: set<Pixel>, parts: seq<set<Pixel>>, free: set<Pixel>) {
    && (forall i :: 0 <= i < |parts| ==> IsComponent(all, parts[i]) && parts[i] !! free)
    && (forall i, j :: 0 <= i < j < |parts| ==> parts[i] !! parts[j])
  }

  /** A grown cluster that touches no free pixel is a component of all the pixels,
      because every earlier component is closed. */
  lemma FinishedComponent(all: set<Pixel>, parts: seq<set<Pixel>>, start: set<Pixel>, c: seq<Pixel>, s: set<Pixel>,
                          free: set<Pixel>)
    requires Covered(all, parts, start) && Growing(start, c, s, free) && Apart(s, free)
    ensures Covered(all, parts + [s], free)
  {
    assert c[0] in Members(c);
    ClosedWhenApart(all, parts, start, s, free);
    AddPart(all, parts, start, s, free);
    forall p | p in all
      ensures p in free || InSome(parts + [s], p)
    {
      StillCovered(all, parts, start, s, free, p);
    }
  }

  lemma AddPart(all: set<Pixel>, parts: seq<set<Pixel>>, start: set<Pixel>, s: set<Pixel>, free: set<Pixel>)
    requires SeparateParts(all, parts, start) && IsComponent(all, s) && s + free == start && s !! free
    ensures SeparateParts(all, parts + [s], free)
  {
  }

  lemma ClosedWhenApart(all: set<Pixel>, parts: seq<set<Pixel>>, start: set<Pixel>, s: set<Pixel>, free: set<Pixel>)
    requires Covered(all, parts, start) && s + free == start && Apart(s, free)
    ensures Closed(all, s)
  {
    forall p, q | p in s && q in all && Near(p, q)
      ensures q in s
    {
      if q !in start {
        assert InSome(parts, q);
        var i :| 0 <= i < |parts| && q in parts[i];
        assert IsComponent(all, parts[i]) && Near(q, p);
      }
    }
  }

  lemma StillCovered(all: set<Pixel>, parts: seq<set<Pixel>>, start: set<Pixel>, s: set<Pixel>, free: set<Pixel>, p: Pixel)
    requires Covered(all, parts, start) && s + free == start && p in all
    ensures p in free || InSome(parts + [s], p)
  {
    var more := parts + [s];
    if p in s {
      assert more[|parts|] == s;
    } else if p !in free {
      assert InSome(parts, p);
      var i :| 0 <= i < |parts| && p in parts[i];
      assert more[i] == parts[i];
    }
  }

  lemma NothingHeld(xs: seq<int>, ys: seq<int>, zs: seq<real>, p: Pixel)
    requires |xs| == |ys| == |zs| == 0
    ensures !HeldSomewhere(xs, ys, zs, p)
  {
  }

  lemma {:induction false} CountHeld(xs: seq<int>, ys: seq<int>, zs: seq<real>, free: set<Pixel>)
    requires Holds(xs, ys, zs, free) && forall k :: 0 <= k < |zs| ==> zs[k] > 0.0
    ensures |free| == |zs|
  {
    if zs == [] {
      if p :| p in free { NothingHeld(xs, ys, zs, p); }
    } else {
      var n := |zs| - 1;
      var p := Pixel(xs[n], ys[n], zs[n]);
      forall q | q in free - {p}
        ensures HeldSomewhere(xs[..n], ys[..n], zs[..n], q)
      {
        assert HeldSomewhere(xs, ys, zs, q);
        var k :| 0 <= k < |zs| && zs[k] > 0.0 && q == Pixel(xs[k], ys[k], zs[k]);
        assert k < n && zs[..n][k] == zs[k];
      }
      CountHeld(xs[..n], ys[..n], zs[..n], free - {p});
    }
  }

  /** Takes a seed and sweeps until a sweep takes nothing. */
  method GrowCluster(xs0: seq<int>, ys0: seq<int>, zs0: seq<real>, n0: int, ghost start: set<Pixel>)
    returns (c: seq<Pixel>, xs: seq<int>, ys: seq<int>, zs: seq<real>, n: int,
             ghost s: set<Pixel>, ghost free: set<Pixel>)
    requires Holds(xs0, ys0, zs0, start) && n0 == |start| > 0
    ensures Growing(start, c, s, free) && Holds(xs, ys, zs, free) && n == |free| < n0
    ensures Apart(s, free)
    ensures Flux(c) + Sum(zs) == Sum(zs0)
  {
    c, xs, ys, zs, n, s, free := TakeSeed(xs0, ys0, zs0, n0, start);
    var found := true;
    while found
      invariant Growing(start, c, s, free) && Holds(xs, ys, zs, free) && n == |free| < n0
      invariant Flux(c) + Sum(zs) == Sum(zs0)
      invariant !found ==> Apart(s, free)
      decreases n, found
    {
      c, xs, ys, zs, n, found, s, free := GrowOnce(c, xs, ys, zs, n, start, s, free);
    }
  }

  /** The clusters of the image: its positive pixels split into connected components,
      with no flux lost. */
  method FindClusters(image: array2<real>) returns (clusters: seq<seq<Pixel>>, ghost parts: seq<set<Pixel>>)
    ensures IsClustering(Positive(image), clusters, parts)
    ensures TotalFlux(clusters) == ImageFlux(image, image.Length0)
  {
    var xs, ys, zs := CollectPixels(image);
    ghost var all := Positive(image);
    ghost var free := all;
    clusters, parts := [], [];
    var n := |xs|;
    CountHeld(xs, ys, zs, all);
    while n > 0
      invariant Holds(xs, ys, zs, free) && n == |free|
      invariant Covered(all, parts, free)
      invariant |clusters| == |parts| && forall i :: 0 <= i < |clusters| ==> Lists(clusters[i], parts[i])
      invariant TotalFlux(clusters) + Sum(zs) == ImageFlux(image, image.Length0)
      decreases n
    {
      ghost var start, s := free, {};
      var c;
      c, xs, ys, zs, n, s, free := GrowCluster(xs, ys, zs, n, start);
      FinishedComponent(all, parts, start, c, s, free);
      TotalFluxAppend(clusters, c);
      clusters, parts := clusters + [c], parts + [s];
    }
    NothingLeft(xs, ys, zs, free);
  }

  lemma TotalFluxAppend(clusters: seq<seq<Pixel>>, c: seq<Pixel>)
    ensures TotalFlux(clusters + [c]) == TotalFlux(clusters) + Flux(c)
  {
    assert (clusters + [c])[..|clusters|] == clusters;
  }

  lemma NothingLeft(xs: seq<int>, ys: seq<int>, zs: seq<real>, free: set<Pixel>)
    requires Holds(xs, ys, zs, free) && |free| == 0
    ensures free == {} && Sum(zs) == 0.0
  {
    forall k | 0 <= k < |zs| ensures zs[k] == 0.0 {
      assert free == {};
    }
    SumOfNone(zs);
  }

  lemma MomentsAppend(c: seq<Pixel>, p: Pixel)
    ensures Flux(c + [p]) == Flux(c) + p.value
    ensures RowMoment(c + [p]) == RowMoment(c) + p.row as real * p.value
    ensures ColMoment(c + [p]) == ColMoment(c) + p.col as real * p.value
  {
    assert (c + [p])[..|c|] == c;
  }

  function Mean(moment: real, total: real): (mean: real)
    requires total > 0.0
    ensures mean * total == moment
  {
    moment / total
  }

  lemma NoMoments()
    ensures Flux([]) == 0.0 && RowMoment([]) == 0.0 && ColMoment([]) == 0.0
  {
  }

  /** The centroid of one cluster, accumulated member by member. */
  method ClusterCentroid(c: seq<Pixel>) returns (g: Centroid)
    requires c != [] && forall p :: p in c ==> p.value > 0.0
    ensures IsCentroid(g, c)
  {
    hide Flux, RowMoment, ColMoment;
    NoMoments();
    var total, row, col := 0.0, 0.0, 0.0;
    assert c[..0] == [];
    for i := 0 to |c|
      invariant total == Flux(c[..i]) && row == RowMoment(c[..i]) && col == ColMoment(c[..i])
    {
      MomentsAppend(c[..i], c[i]);
      assert c[..i] + [c[i]] == c[..i + 1];
      total := total + c[i].value;
      row := row + c[i].row as real * c[i].value;
      col := col + c[i].col as real * c[i].value;
    }
    assert c[..|c|] == c;
    FluxPositive(c);
    g := Centroid(Mean(row, total), Mean(col, total), total);
  }

  function SumOfTotals(gs: seq<Centroid>): real {
    if gs == [] then 0.0 else SumOfTotals(gs[..|gs| - 1]) + gs[|gs| - 1].total
  }

  lemma {:induction false} TotalsMatch(gs: seq<Centroid>, clusters: seq<seq<Pixel>>)
    requires |gs| == |clusters| && forall i :: 0 <= i < |gs| ==> IsCentroid(gs[i], clusters[i])
    ensures SumOfTotals(gs) == TotalFlux(clusters)
  {
    if gs != [] {
      var n := |gs| - 1;
      TotalsMatch(gs[..n], clusters[..n]);
    }
  }

  /** One centroid for every connected component of the positive pixels, and together
      they carry all the positive flux of the image. */
  method ClusterImage(image: array2<real>)
    returns (centroids: seq<Centroid>, ghost clusters: seq<seq<Pixel>>, ghost parts: seq<set<Pixel>>)
    requires image.Length0 > 0
    ensures IsClustering(Positive(image), clusters, parts)
    ensures |centroids| == |clusters| && forall i :: 0 <= i < |centroids| ==> IsCentroid(centroids[i], clusters[i])
    ensures SumOfTotals(centroids) == ImageFlux(image, image.Length0)
  {
    var found;
    found, parts := FindClusters(image);
    clusters := found;
    centroids := [];
    for i := 0 to |found|
      invariant |centroids| == i
      invariant forall j :: 0 <= j < i ==> IsCentroid(centroids[j], found[j])
    {
      MembersArePositive(image, found, parts, i);
      var g := ClusterCentroid(found[i]);
      centroids := centroids + [g];
    }
    TotalsMatch(centroids, found);
  }

  lemma MembersArePositive(image: array2<real>, clusters: seq<seq<Pixel>>, parts: seq<set<Pixel>>, i: nat)
    requires IsClustering(Positive(image), clusters, parts) && i < |clusters|
    ensures clusters[i] != [] && forall p :: p in clusters[i] ==> p.value > 0.0
  {
    assert Lists(clusters[i], parts[i]) && IsComponent(Positive(image), parts[i]);
    forall p: Pixel | p in clusters[i] ensures p.value > 0.0 {
      assert p in Members(clusters[i]);
    }
  }
}
