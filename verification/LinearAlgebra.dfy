/** Vectors and matrices over the reals, as far as the alignment code needs them:
    a vector is a sequence of numbers, a matrix a sequence of rows, and panel
    motions live in consecutive blocks of six entries. */
module LinearAlgebra {

  type Vec = seq<real>

  /** One entry for each actuator of a panel. */
  type Six = v: seq<real> | |v| == 6 witness [0.0, 0.0, 0.0, 0.0, 0.0, 0.0]

  function Dot(a: Vec, b: Vec): real
    requires |a| == |b|
  {
    if a == [] then 0.0 else a[0] * b[0] + Dot(a[1..], b[1..])
  }

  function Add(a: Vec, b: Vec): Vec
    requires |a| == |b|
  {
    seq(|a|, i requires 0 <= i < |a| => a[i] + b[i])
  }

  function Sub(a: Vec, b: Vec): Vec
    requires |a| == |b|
  {
    seq(|a|, i requires 0 <= i < |a| => a[i] - b[i])
  }

  function Scale(k: real, a: Vec): Vec {
    seq(|a|, i requires 0 <= i < |a| => k * a[i])
  }

  function Zeros(n: nat): Vec {
    seq(n, _ => 0.0)
  }

  predicate IsMatrix(m: seq<Vec>, rows: nat, cols: nat) {
    |m| == rows && forall i :: 0 <= i < rows ==> |m[i]| == cols
  }

  function MatVec(m: seq<Vec>, x: Vec): Vec
    requires forall i :: 0 <= i < |m| ==> |m[i]| == |x|
  {
    seq(|m|, i requires 0 <= i < |m| => Dot(m[i], x))
  }

  /** The `k`-th group of six entries of `x`. */
  function Slice(x: Vec, k: nat): Vec
    requires 6 * k + 6 <= |x|
  {
    x[6 * k .. 6 * k + 6]
  }

  /** `x` with its `k`-th group of six entries replaced. */
  function PutSlice(x: Vec, k: nat, six: Vec): (y: Vec)
    requires 6 * k + 6 <= |x| && |six| == 6
    ensures |y| == |x| && Slice(y, k) == six
    ensures forall j :: 0 <= j < k ==> Slice(y, j) == Slice(x, j)
  {
    var y := x[..6 * k] + six + x[6 * k + 6..];
    assert forall j :: 0 <= j < k ==> Slice(y, j) == Slice(x, j);
    y
  }

  lemma DotOfSix(a: Six, b: Six)
    ensures Dot(a, b) == a[0] * b[0] + a[1] * b[1] + a[2] * b[2] + a[3] * b[3] + a[4] * b[4] + a[5] * b[5]
  {
    DotNone();
    hide Dot;
    DotTail(a, b, 0);
    DotTail(a, b, 1);
    DotTail(a, b, 2);
    DotTail(a, b, 3);
    DotTail(a, b, 4);
    DotTail(a, b, 5);
    assert a[0..] == a && b[0..] == b && a[6..] == [] && b[6..] == [];
  }

  lemma DotNone()
    ensures Dot([], []) == 0.0
  {
  }

  lemma DotTail(a: Vec, b: Vec, k: nat)
    requires |a| == |b| && k < |a|
    ensures Dot(a[k..], b[k..]) == a[k] * b[k] + Dot(a[k + 1..], b[k + 1..])
  {
    assert a[k..][1..] == a[k + 1..] && b[k..][1..] == b[k + 1..];
  }

  lemma {:induction false} DotScale(a: Vec, k: real, b: Vec)
    requires |a| == |b|
    ensures Dot(a, Scale(k, b)) == k * Dot(a, b)
  {
    if a != [] {
      var u, w := Scale(k, b)[1..], Scale(k, b[1..]);
      assert u == w by {
        forall i | 0 <= i < |w| ensures u[i] == w[i] {
          assert b[1..][i] == b[i + 1];
        }
      }
      DotScale(a[1..], k, b[1..]);
    }
  }

  lemma {:induction false} DotConcat(a1: Vec, a2: Vec, b1: Vec, b2: Vec)
    requires |a1| == |b1| && |a2| == |b2|
    ensures Dot(a1 + a2, b1 + b2) == Dot(a1, b1) + Dot(a2, b2)
  {
    if a1 == [] {
      assert a1 + a2 == a2 && b1 + b2 == b2;
    } else {
      assert (a1 + a2)[1..] == a1[1..] + a2 && (b1 + b2)[1..] == b1[1..] + b2;
      DotConcat(a1[1..], a2, b1[1..], b2);
    }
  }

  lemma {:induction false} DotOfZeros(a: Vec, b: Vec)
    requires |a| == |b|
    requires forall i :: 0 <= i < |a| ==> a[i] == 0.0
    ensures Dot(a, b) == 0.0
  {
    if a != [] {
      DotOfZeros(a[1..], b[1..]);
    }
  }

  /** A row that is zero except for a one at `r` picks out entry `r`. */
  lemma {:induction false} DotUnit(a: Vec, b: Vec, r: nat)
    requires |a| == |b| && r < |a|
    requires forall i :: 0 <= i < |a| ==> a[i] == if i == r then 1.0 else 0.0
    ensures Dot(a, b) == b[r]
  {
    if r == 0 {
      DotOfZeros(a[1..], b[1..]);
    } else {
      DotUnit(a[1..], b[1..], r - 1);
    }
  }

  /** Changing one coordinate by `d` changes the product by that column times `d`. */
  lemma {:induction false} DotUpdate(a: Vec, b: Vec, j: nat, d: real)
    requires |a| == |b| && j < |a|
    ensures Dot(a, b[j := b[j] + d]) == Dot(a, b) + a[j] * d
  {
    var c := b[j := b[j] + d];
    if j == 0 {
      assert c[1..] == b[1..];
    } else {
      assert c[1..] == b[1..][j - 1 := b[1..][j - 1] + d];
      DotUpdate(a[1..], b[1..], j - 1, d);
    }
  }

  /** Sum over the first `n` blocks of six of the product of matching blocks. */
  function BlockSum(row: Vec, x: Vec, n: nat): real
    requires 6 * n <= |row| && 6 * n <= |x|
  {
    if n == 0 then 0.0 else BlockSum(row, x, n - 1) + Dot(Slice(row, n - 1), Slice(x, n - 1))
  }

  lemma {:induction false} DotByBlocks(row: Vec, x: Vec, n: nat)
    requires 6 * n <= |row| && 6 * n <= |x|
    ensures Dot(row[..6 * n], x[..6 * n]) == BlockSum(row, x, n)
  {
    if n > 0 {
      DotByBlocks(row, x, n - 1);
      assert row[..6 * n] == row[..6 * (n - 1)] + Slice(row, n - 1);
      assert x[..6 * n] == x[..6 * (n - 1)] + Slice(x, n - 1);
      DotConcat(row[..6 * (n - 1)], Slice(row, n - 1), x[..6 * (n - 1)], Slice(x, n - 1));
    }
  }

  /** Scalar row `r` of a row of blocks, each six columns wide. */
  function ScalarRow(blocks: seq<seq<Vec>>, r: nat): (row: Vec)
    requires forall c :: 0 <= c < |blocks| ==> r < |blocks[c]| && |blocks[c][r]| == 6
    ensures |row| == 6 * |blocks|
    ensures forall c :: 0 <= c < |blocks| ==> Slice(row, c) == blocks[c][r]
  {
    if blocks == [] then [] else
    var n := |blocks| - 1;
    var front := ScalarRow(blocks[..n], r);
    SlicesAppend(front, blocks[n][r], n);
    front + blocks[n][r]
  }

  lemma SlicesAppend(front: Vec, six: Vec, n: nat)
    requires |front| == 6 * n && |six| == 6
    ensures forall c :: 0 <= c < n ==> Slice(front + six, c) == Slice(front, c)
    ensures Slice(front + six, n) == six
  {
  }
}
