/** Balanced and plain spherical k-means (eldr/serving/clustering.py).

    Points are unit vectors, centroids are at most that long.  An iteration assigns every point to a cluster and
    moves each centroid to the normalized mean of its points.  The balanced assignment comes
    from a linear assignment problem in which each cluster is repeated `cap` times.  The solver
    and the length of a vector are parameters; arithmetic is exact. */
module BalancedKMeans {
  import opened Common
  import opened Vectors

  ghost predicate Shaped(xs: seq<Vec>, dim: nat) {
    forall i :: 0 <= i < |xs| ==> |xs[i]| == dim
  }

  ghost predicate Units(xs: seq<Vec>, dim: nat) {
    Shaped(xs, dim) && forall i :: 0 <= i < |xs| ==> Dot(xs[i], xs[i]) == 1.0
  }

  /** Vectors of length at most 1. */
  ghost predicate Short(cs: seq<Vec>, dim: nat) {
    Shaped(cs, dim) && forall i :: 0 <= i < |cs| ==> Dot(cs[i], cs[i]) <= 1.0
  }

  /** Vectors whose positive components have length at most 1: a non-negative unit vector is never
      more similar than 1 to them. */
  ghost predicate Matchable(cs: seq<Vec>, dim: nat) {
    Shaped(cs, dim) && forall i :: 0 <= i < |cs| ==> Dot(Positive(cs[i]), Positive(cs[i])) <= 1.0
  }

  lemma ShortMatchable(cs: seq<Vec>, dim: nat)
    requires Short(cs, dim)
    ensures Matchable(cs, dim)
  {
    hide Dot, Positive;
    forall i | 0 <= i < |cs| ensures Dot(Positive(cs[i]), Positive(cs[i])) <= 1.0 {
      PositivePart(cs[i]);
    }
  }

  /** A cluster for every point. */
  ghost predicate Assigns(a: seq<nat>, n: nat, k: nat) {
    |a| == n && forall i :: 0 <= i < n ==> a[i] < k
  }

  /** The number of points in a cluster. */
  function Size(a: seq<nat>, c: nat): nat {
    if a == [] then 0 else Size(a[..|a| - 1], c) + if a[|a| - 1] == c then 1 else 0
  }

  ghost predicate Balanced(a: seq<nat>, k: nat, cap: nat) {
    forall c :: 0 <= c < k ==> Size(a, c) <= cap
  }

  /** The total cosine similarity of the points to their centroids. */
  ghost function Total(xs: seq<Vec>, a: seq<nat>, cs: seq<Vec>, dim: nat): real
    requires Shaped(xs, dim) && Shaped(cs, dim) && Assigns(a, |xs|, |cs|)
  {
    if xs == [] then 0.0
    else
      var n := |xs| - 1;
      Total(xs[..n], a[..n], cs, dim) + Dot(xs[n], cs[a[n]])
  }

  // ----- the assignment problem on repeated clusters

  /** Distinct slots; slot j belongs to cluster j / cap. */
  ghost predicate Columns(col: seq<nat>, n: nat, k: nat, cap: nat) {
    && |col| == n && Distinct(col)
    && forall i :: 0 <= i < n ==> col[i] < k * cap
  }

  ghost function ClusterOf(col: seq<nat>, cap: nat): (a: seq<nat>)
    requires cap > 0
    ensures |a| == |col| && forall i :: 0 <= i < |col| ==> a[i] == col[i] / cap
  {
    seq(|col|, i requires 0 <= i < |col| => col[i] / cap)
  }

  ghost function Cost(xs: seq<Vec>, a: seq<nat>, cs: seq<Vec>, dim: nat): real
    requires Shaped(xs, dim) && Shaped(cs, dim) && Assigns(a, |xs|, |cs|)
  {
    if xs == [] then 0.0
    else
      var n := |xs| - 1;
      Cost(xs[..n], a[..n], cs, dim) + (1.0 - Dot(xs[n], cs[a[n]]))
  }

  lemma {:induction false} CostIsTotal(xs: seq<Vec>, a: seq<nat>, cs: seq<Vec>, dim: nat)
    requires Shaped(xs, dim) && Shaped(cs, dim) && Assigns(a, |xs|, |cs|)
    ensures Cost(xs, a, cs, dim) == |xs| as real - Total(xs, a, cs, dim)
  {
    hide Dot;
    if xs != [] {
      CostIsTotal(xs[..|xs| - 1], a[..|xs| - 1], cs, dim);
    }
  }

  lemma SlotCluster(j: nat, k: nat, cap: nat)
    requires cap > 0 && j < k * cap
    ensures j / cap < k && (j / cap) * cap <= j < (j / cap) * cap + cap
  {
    assert j == (j / cap) * cap + j % cap;
    MulMono(k, j / cap, cap);
  }

  /** What linear_sum_assignment returns: no choice of distinct slots is cheaper. */
  ghost predicate Cheapest(xs: seq<Vec>, cs: seq<Vec>, dim: nat, cap: nat, col: seq<nat>)
    requires Shaped(xs, dim) && Shaped(cs, dim) && cap > 0
  {
    && Columns(col, |xs|, |cs|, cap)
    && Assigns(ClusterOf(col, cap), |xs|, |cs|)
    && forall other :: Columns(other, |xs|, |cs|, cap) && Assigns(ClusterOf(other, cap), |xs|, |cs|) ==>
         Cost(xs, ClusterOf(col, cap), cs, dim) <= Cost(xs, ClusterOf(other, cap), cs, dim)
  }

  // ----- distinct slots keep clusters balanced

  ghost function SlotsUsed(col: seq<nat>, cap: nat, c: nat): set<nat>
    requires cap > 0
  {
    set i | 0 <= i < |col| && col[i] / cap == c :: col[i]
  }

  ghost function SlotsOf(lo: nat, n: nat): (s: set<nat>)
    ensures |s| == n && forall j :: j in s <==> lo <= j < lo + n
  {
    if n == 0 then {} else SlotsOf(lo, n - 1) + {lo + n - 1}
  }

  lemma {:induction false} SizeIsSlots(col: seq<nat>, cap: nat, c: nat)
    requires cap > 0 && Distinct(col)
    ensures Size(ClusterOf(col, cap), c) == |SlotsUsed(col, cap, c)|
  {
    if col != [] {
      var n := |col| - 1;
      var rest := col[..n];
      SizeIsSlots(rest, cap, c);
      assert ClusterOf(col, cap)[..n] == ClusterOf(rest, cap);
      forall j | j in SlotsUsed(rest, cap, c) ensures j != col[n] {
        var i :| 0 <= i < n && rest[i] == j;
      }
      if col[n] / cap == c {
        assert SlotsUsed(col, cap, c) == SlotsUsed(rest, cap, c) + {col[n]} by {
          SlotsUsedLast(col, cap, c);
        }
      } else {
        assert SlotsUsed(col, cap, c) == SlotsUsed(rest, cap, c) by {
          SlotsUsedLast(col, cap, c);
        }
      }
    }
  }

  lemma SlotsUsedLast(col: seq<nat>, cap: nat, c: nat)
    requires cap > 0 && col != []
    ensures var rest, last := col[..|col| - 1], col[|col| - 1];
            SlotsUsed(col, cap, c) == SlotsUsed(rest, cap, c) + if last / cap == c then {last} else {}
  {
    var n := |col| - 1;
    var rest := col[..n];
    forall j | j in SlotsUsed(col, cap, c) ensures j in SlotsUsed(rest, cap, c) || (j == col[n] && col[n] / cap == c) {
      var i :| 0 <= i < |col| && col[i] / cap == c && col[i] == j;
      assert i < n ==> rest[i] == j;
    }
    forall j | j in SlotsUsed(rest, cap, c) ensures j in SlotsUsed(col, cap, c) {
      var i :| 0 <= i < n && rest[i] / cap == c && rest[i] == j;
      assert col[i] == j;
    }
  }

  /** No cluster receives more than `cap` points. */
  lemma ColumnsBalanced(col: seq<nat>, n: nat, k: nat, cap: nat)
    requires cap > 0 && Columns(col, n, k, cap)
    ensures Balanced(ClusterOf(col, cap), k, cap)
  {
    forall c | 0 <= c < k ensures Size(ClusterOf(col, cap), c) <= cap {
      SizeIsSlots(col, cap, c);
      var own := SlotsOf(c * cap, cap);
      forall j | j in SlotsUsed(col, cap, c) ensures j in own {
        var i :| 0 <= i < |col| && col[i] / cap == c && col[i] == j;
        SlotCluster(j, k, cap);
      }
      SubsetSize(SlotsUsed(col, cap, c), own);
    }
  }

  lemma {:induction false} SubsetSize(a: set<nat>, b: set<nat>)
    requires a <= b
    ensures |a| <= |b|
  {
    if a != {} {
      var x :| x in a;
      SubsetSize(a - {x}, b - {x});
    }
  }

  // ----- every balanced assignment has distinct slots

  /** The place of point i among the points of its cluster. */
  ghost function Rank(a: seq<nat>, i: nat): nat
    requires i < |a|
  {
    Size(a[..i], a[i])
  }

  lemma {:induction false} SizeGrows(a: seq<nat>, i: nat, j: nat, c: nat)
    requires i <= j <= |a|
    ensures Size(a[..i], c) <= Size(a[..j], c)
    ensures i < j && a[i] == c ==> Size(a[..i], c) < Size(a[..j], c)
  {
    if i < j {
      SizeGrows(a, i, j - 1, c);
      assert a[..j][..j - 1] == a[..j - 1];
    }
  }

  ghost function ColumnsFor(a: seq<nat>, cap: nat): (col: seq<nat>)
    ensures |col| == |a| && forall i :: 0 <= i < |a| ==> col[i] == SlotFor(a, cap, i)
  {
    seq<nat>(|a|, i requires 0 <= i < |a| => SlotFor(a, cap, i))
  }

  ghost function SlotFor(a: seq<nat>, cap: nat, i: nat): nat
    requires i < |a|
  {
    a[i] * cap + Rank(a, i)
  }

  lemma SlotForIs(a: seq<nat>, k: nat, cap: nat, i: nat)
    requires cap > 0 && i < |a| && Assigns(a, |a|, k) && Balanced(a, k, cap)
    ensures Rank(a, i) < cap && SlotFor(a, cap, i) / cap == a[i] && SlotFor(a, cap, i) < k * cap
  {
    hide Size;
    SizeGrows(a, i, |a|, a[i]);
    assert a[..|a|] == a;
    SlotInCluster(a[i], Rank(a, i), cap, k);
  }

  lemma SlotInCluster(c: nat, r: nat, cap: nat, k: nat)
    requires r < cap && c < k
    ensures (c * cap + r) / cap == c && c * cap + r < k * cap
  {
    DivisionUnique(c * cap + r, cap, c, r);
    MulMono(c + 1, k, cap);
  }

  /** Repeating the clusters loses nothing: a balanced assignment is one of distinct slots. */
  lemma BalancedHasColumns(a: seq<nat>, k: nat, cap: nat)
    requires cap > 0 && Assigns(a, |a|, k) && Balanced(a, k, cap)
    ensures Columns(ColumnsFor(a, cap), |a|, k, cap) && ClusterOf(ColumnsFor(a, cap), cap) == a
  {
    hide Size, Rank, SlotFor;
    var col := ColumnsFor(a, cap);
    forall i | 0 <= i < |a| ensures col[i] / cap == a[i] && col[i] < k * cap {
      SlotForIs(a, k, cap, i);
    }
    forall i, j | 0 <= i < j < |a| ensures col[i] != col[j] {
      DifferentSlots(a, cap, i, j);
    }
  }

  lemma DifferentSlots(a: seq<nat>, cap: nat, i: nat, j: nat)
    requires cap > 0 && i < j < |a| && SlotFor(a, cap, i) / cap == a[i] && SlotFor(a, cap, j) / cap == a[j]
    ensures SlotFor(a, cap, i) != SlotFor(a, cap, j)
  {
    hide Size;
    SizeGrows(a, i, j, a[i]);
  }

  // ----- the assignment step

  /** The assignment of an iteration: balanced and cheapest, or each point to a best centroid. */
  ghost predicate Assigned(xs: seq<Vec>, cs: seq<Vec>, dim: nat, cap: nat, balanced: bool, a: seq<nat>)
    requires Shaped(xs, dim) && Shaped(cs, dim) && cap > 0
  {
    && Assigns(a, |xs|, |cs|)
    && if balanced then exists col :: Cheapest(xs, cs, dim, cap, col) && a == ClusterOf(col, cap)
       else forall i, c :: 0 <= i < |xs| && 0 <= c < |cs| ==> Dot(xs[i], cs[c]) <= Dot(xs[i], cs[a[i]])
  }

  /** What competes with the assignment: everything balanced, or everything. */
  ghost predicate Competes(xs: seq<Vec>, cs: seq<Vec>, cap: nat, balanced: bool, a: seq<nat>) {
    Assigns(a, |xs|, |cs|) && (balanced ==> Balanced(a, |cs|, cap))
  }

  /** The balanced assignment is optimal among all assignments with at most `cap` points per
      cluster, and is one of them. */
  lemma BalancedOptimal(xs: seq<Vec>, cs: seq<Vec>, dim: nat, cap: nat, col: seq<nat>, other: seq<nat>)
    requires Shaped(xs, dim) && Shaped(cs, dim) && cap > 0 && Cheapest(xs, cs, dim, cap, col)
    requires Assigns(other, |xs|, |cs|) && Balanced(other, |cs|, cap)
    ensures Balanced(ClusterOf(col, cap), |cs|, cap)
    ensures Total(xs, other, cs, dim) <= Total(xs, ClusterOf(col, cap), cs, dim)
  {
    hide Size, Total, Cost, Balanced, Columns, Dot;
    ColumnsBalanced(col, |xs|, |cs|, cap);
    BalancedHasColumns(other, |cs|, cap);
    CostIsTotal(xs, other, cs, dim);
    CostIsTotal(xs, ClusterOf(col, cap), cs, dim);
    assert Columns(ColumnsFor(other, cap), |xs|, |cs|, cap);
  }

  lemma {:induction false} PlainOptimal(xs: seq<Vec>, cs: seq<Vec>, dim: nat, a: seq<nat>, other: seq<nat>)
    requires Shaped(xs, dim) && Shaped(cs, dim) && Assigns(a, |xs|, |cs|) && Assigns(other, |xs|, |cs|)
    requires forall i, c :: 0 <= i < |xs| && 0 <= c < |cs| ==> Dot(xs[i], cs[c]) <= Dot(xs[i], cs[a[i]])
    ensures Total(xs, other, cs, dim) <= Total(xs, a, cs, dim)
  {
    hide Dot;
    if xs != [] {
      var n := |xs| - 1;
      PlainOptimal(xs[..n], cs, dim, a[..n], other[..n]);
    }
  }

  lemma AssignedOptimal(xs: seq<Vec>, cs: seq<Vec>, dim: nat, cap: nat, balanced: bool, a: seq<nat>, other: seq<nat>)
    requires Shaped(xs, dim) && Shaped(cs, dim) && cap > 0 && Assigned(xs, cs, dim, cap, balanced, a)
    requires Competes(xs, cs, cap, balanced, other)
    ensures Competes(xs, cs, cap, balanced, a)
    ensures Total(xs, other, cs, dim) <= Total(xs, a, cs, dim)
  {
    hide Total, Cheapest, Balanced, Dot;
    if balanced {
      var col :| Cheapest(xs, cs, dim, cap, col) && a == ClusterOf(col, cap);
      BalancedOptimal(xs, cs, dim, cap, col, other);
    } else {
      PlainOptimal(xs, cs, dim, a, other);
    }
  }

  // ----- the update step

  function SumOf(xs: seq<Vec>, a: seq<nat>, c: nat, dim: nat): (r: Vec)
    requires Shaped(xs, dim) && |a| == |xs|
    ensures |r| == dim
  {
    if xs == [] then Zero(dim)
    else
      var n := |xs| - 1;
      var rest := SumOf(xs[..n], a[..n], c, dim);
      if a[n] == c then Plus(rest, xs[n]) else rest
  }

  /** The similarity of the clusters before k, each summed first. */
  ghost function ByCluster(xs: seq<Vec>, a: seq<nat>, cs: seq<Vec>, dim: nat, k: nat): real
    requires Shaped(xs, dim) && Shaped(cs, dim) && |a| == |xs| && k <= |cs|
  {
    if k == 0 then 0.0
    else ByCluster(xs, a, cs, dim, k - 1) + Dot(SumOf(xs, a, k - 1, dim), cs[k - 1])
  }

  lemma {:induction false} ByClusterNone(a: seq<nat>, cs: seq<Vec>, dim: nat, k: nat)
    requires Shaped(cs, dim) && a == [] && k <= |cs|
    ensures ByCluster([], a, cs, dim, k) == 0.0
  {
    if k > 0 {
      ByClusterNone(a, cs, dim, k - 1);
      DotZero(dim, cs[k - 1]);
    }
  }

  lemma {:induction false} ByClusterSnoc(xs: seq<Vec>, a: seq<nat>, cs: seq<Vec>, dim: nat, k: nat)
    requires Shaped(xs, dim) && Shaped(cs, dim) && Assigns(a, |xs|, |cs|) && k <= |cs| && xs != []
    ensures var n := |xs| - 1;
            ByCluster(xs, a, cs, dim, k) ==
            ByCluster(xs[..n], a[..n], cs, dim, k) + if a[n] < k then Dot(xs[n], cs[a[n]]) else 0.0
  {
    hide Dot;
    if k > 0 {
      var n := |xs| - 1;
      ByClusterSnoc(xs, a, cs, dim, k - 1);
      if a[n] == k - 1 {
        DotPlus(SumOf(xs[..n], a[..n], k - 1, dim), xs[n], cs[k - 1]);
      }
    }
  }

  lemma {:induction false} Regroup(xs: seq<Vec>, a: seq<nat>, cs: seq<Vec>, dim: nat)
    requires Shaped(xs, dim) && Shaped(cs, dim) && Assigns(a, |xs|, |cs|)
    ensures Total(xs, a, cs, dim) == ByCluster(xs, a, cs, dim, |cs|)
  {
    hide Dot, ByCluster;
    if xs == [] {
      ByClusterNone(a, cs, dim, |cs|);
    } else {
      Regroup(xs[..|xs| - 1], a[..|xs| - 1], cs, dim);
      ByClusterSnoc(xs, a, cs, dim, |cs|);
    }
  }

  const EPS := 0.000000001

  /** Up to this many points a mean of non-negative unit vectors is longer than EPS. */
  const MAX_POINTS := 1000000000000000000

  function Clip(r: real): real { if r < EPS then EPS else r }

  /** norm gives the length of every vector. */
  ghost predicate Lengths(norm: Vec -> real) {
    forall v :: IsNorm(v, norm(v))
  }

  /** The mean of a cluster; an empty cluster keeps its centroid. */
  function Center(xs: seq<Vec>, a: seq<nat>, cs: seq<Vec>, dim: nat, c: nat): Vec
    requires Shaped(xs, dim) && |a| == |xs| && c < |cs|
  {
    if Size(a, c) > 0 then Scale(1.0 / Size(a, c) as real, SumOf(xs, a, c, dim)) else cs[c]
  }

  function Moved(v: Vec, norm: Vec -> real): Vec {
    Scale(1.0 / Clip(norm(v)), v)
  }

  ghost predicate Updated(xs: seq<Vec>, a: seq<nat>, cs: seq<Vec>, dim: nat, norm: Vec -> real, cs': seq<Vec>)
    requires Shaped(xs, dim) && |a| == |xs|
  {
    |cs'| == |cs| && forall c :: 0 <= c < |cs| ==> cs'[c] == Moved(Center(xs, a, cs, dim, c), norm)
  }

  // ----- means of non-negative points are never short

  lemma {:induction false} SumSquare(xs: seq<Vec>, a: seq<nat>, c: nat, dim: nat)
    requires Units(xs, dim) && |a| == |xs| && forall i :: 0 <= i < |xs| ==> NonNegative(xs[i])
    ensures NonNegative(SumOf(xs, a, c, dim))
    ensures var s := SumOf(xs, a, c, dim); Dot(s, s) >= Size(a, c) as real
  {
    hide Dot;
    if xs == [] {
      DotZero(dim, Zero(dim));
    } else {
      var n := |xs| - 1;
      SumSquare(xs[..n], a[..n], c, dim);
      var rest := SumOf(xs[..n], a[..n], c, dim);
      SquareOfPlus(rest, xs[n]);
      DotNonNegative(rest, xs[n]);
    }
  }

  lemma SizeBound(a: seq<nat>, c: nat)
    ensures Size(a, c) <= |a|
  {
  }

  lemma LongEnough(k: nat, q: real, r: real)
    requires 0 < k <= MAX_POINTS && q >= k as real && r >= 0.0
    requires Mul(r, r) == Mul(1.0 / k as real, Mul(1.0 / k as real, q))
    ensures r >= EPS
  {
    hide Mul;
    var n, x := k as real, 1.0 / k as real;
    InverseBound(n);
    MulMinus(q, n, x);
    MulNonNegative(x, q - n);
    MulMinus(Mul(x, q), 1.0, x);
    MulNonNegative(x, Mul(x, q) - 1.0);
    MulOne(x);
    MulDistributes(1.0, x, 0.0);
    MulMinus(EPS, r, r);
    SmallSquare(r);
    if r < EPS {
      MulNonNegative(EPS - r, r);
    }
  }

  lemma InverseBound(n: real)
    requires 0.0 < n <= 1000000000000000000.0
    ensures 1.0 / n > 0.0 && Mul(1.0 / n, n) == 1.0 && 1.0 / n >= 0.000000000000000001
  {
    var x := 1.0 / n;
    assert Mul(x, n) == 1.0;
    var low := 0.000000000000000001;
    assert Mul(low, n) <= 1.0;
    hide Mul;
    MulMinus(low, x, n);
    if x < low {
      MulPositive(low - x, n);
    }
  }

  lemma SmallSquare(r: real)
    ensures 0.0 <= r < EPS ==> Mul(EPS, r) < 0.000000000000000001
  {
  }

  /** Division by the clipped length gives a vector of length at most 1, and of length 1 unless
      the length was clipped. */
  lemma MovedShort(v: Vec, norm: Vec -> real)
    requires Lengths(norm)
    ensures var u := Moved(v, norm);
            |u| == |v| && Dot(u, u) <= 1.0 && (norm(v) >= EPS ==> Dot(u, u) == 1.0)
  {
    hide Dot, Mul;
    var r := norm(v);
    assert IsNorm(v, r);
    if r >= EPS {
      Normalized(v, r);
    } else {
      var k := 1.0 / EPS;
      var u := Scale(k, v);
      DotScale(k, v, u);
      DotComm(v, u);
      DotScale(k, v, v);
      BelowOne(r);
    }
  }

  lemma BelowOne(r: real)
    requires 0.0 <= r < EPS
    ensures Mul(1.0 / EPS, Mul(1.0 / EPS, Mul(r, r))) <= 1.0
  {
    var t := r * 1000000000.0;
    assert 0.0 <= t < 1.0;
    assert Mul(1.0 / EPS, Mul(1.0 / EPS, Mul(r, r))) == Mul(t, t);
    hide Mul;
    MulMinus(1.0, t, t);
    MulOne(t);
    MulNonNegative(1.0 - t, t);
  }

  lemma {:induction false} NoPoints(xs: seq<Vec>, a: seq<nat>, c: nat, dim: nat)
    requires Shaped(xs, dim) && |a| == |xs| && Size(a, c) == 0
    ensures SumOf(xs, a, c, dim) == Zero(dim)
  {
    if xs != [] {
      NoPoints(xs[..|xs| - 1], a[..|xs| - 1], c, dim);
    }
  }

  /** The normalized mean of the points of a cluster is a unit vector, or the moved old centroid
      when there are none; no vector of length at most 1 is more similar to the points. */
  lemma CenterImproves(xs: seq<Vec>, a: seq<nat>, cs: seq<Vec>, dim: nat, norm: Vec -> real, c: nat, v: Vec)
    requires Units(xs, dim) && Shaped(cs, dim) && |a| == |xs| <= MAX_POINTS && c < |cs| && Lengths(norm)
    requires forall i :: 0 <= i < |xs| ==> NonNegative(xs[i])
    requires |v| == dim && Dot(v, v) <= 1.0
    ensures var u := Moved(Center(xs, a, cs, dim, c), norm);
            && |u| == dim && Dot(u, u) <= 1.0
            && (Size(a, c) > 0 || Dot(cs[c], cs[c]) == 1.0 ==> Dot(u, u) == 1.0)
            && Dot(SumOf(xs, a, c, dim), u) >= Dot(SumOf(xs, a, c, dim), v)
  {
    hide Dot, Mul, SumOf, Size;
    var m := Center(xs, a, cs, dim, c);
    var r := norm(m);
    assert IsNorm(m, r);
    if Size(a, c) == 0 {
      MovedShort(m, norm);
      if Dot(m, m) == 1.0 {
        UnitNorm(m, r);
      }
      NoPoints(xs, a, c, dim);
      DotZero(dim, v);
      DotZero(dim, Moved(m, norm));
    } else {
      var s, k := SumOf(xs, a, c, dim), Size(a, c);
      var x := 1.0 / k as real;
      SumSquare(xs, a, c, dim);
      SizeBound(a, c);
      DotScale(x, s, m);
      DotComm(s, m);
      DotScale(x, s, s);
      LongEnough(k, Dot(s, s), r);
      Normalized(m, r);
      var u := Scale(1.0 / r, m);
      AtMostNorm(m, r, v);
      DotScale(x, s, u);
      DotScale(x, s, v);
      Cancel(x, Dot(s, v), Dot(s, u));
    }
  }

  /** The clipped length times the moved vector is the vector. */
  lemma MovedBack(v: Vec, norm: Vec -> real)
    ensures Scale(Clip(norm(v)), Moved(v, norm)) == v
  {
    hide Mul;
    var r := Clip(norm(v));
    forall i | 0 <= i < |v| ensures Mul(r, Mul(1.0 / r, v[i])) == v[i] {
      Inverse(r);
      MulDistributes(r, 1.0 / r, v[i]);
      MulOne(v[i]);
    }
  }

  lemma UpdatedShort(xs: seq<Vec>, a: seq<nat>, cs: seq<Vec>, dim: nat, norm: Vec -> real, cs': seq<Vec>)
    requires Units(xs, dim) && Shaped(cs, dim) && |a| == |xs| <= MAX_POINTS && Lengths(norm)
    requires forall i :: 0 <= i < |xs| ==> NonNegative(xs[i])
    requires Updated(xs, a, cs, dim, norm, cs')
    ensures Short(cs', dim) && (Units(cs, dim) ==> Units(cs', dim))
  {
    hide Dot, SumOf, Center, Moved, Lengths, NonNegative;
    forall c | 0 <= c < |cs'|
      ensures |cs'[c]| == dim && Dot(cs'[c], cs'[c]) <= 1.0
      ensures Dot(cs[c], cs[c]) == 1.0 ==> Dot(cs'[c], cs'[c]) == 1.0
    {
      DotZero(dim, Zero(dim));
      CenterImproves(xs, a, cs, dim, norm, c, Zero(dim));
    }
  }

  /** A cluster without points keeps the direction of its centroid. */
  lemma EmptyKeeps(xs: seq<Vec>, a: seq<nat>, cs: seq<Vec>, dim: nat, norm: Vec -> real, cs': seq<Vec>)
    requires Shaped(xs, dim) && |a| == |xs| && Updated(xs, a, cs, dim, norm, cs')
    ensures |cs'| == |cs|
    ensures forall c :: 0 <= c < |cs| && Size(a, c) == 0 ==> cs[c] == Scale(Clip(norm(cs[c])), cs'[c])
  {
    hide Moved, Scale, Size, SumOf;
    forall c | 0 <= c < |cs| && Size(a, c) == 0 ensures cs[c] == Scale(Clip(norm(cs[c])), cs'[c]) {
      MovedBack(cs[c], norm);
    }
  }

  lemma {:induction false} ClustersImprove(xs: seq<Vec>, a: seq<nat>, cs: seq<Vec>, dim: nat, norm: Vec -> real,
                                           cs': seq<Vec>, vs: seq<Vec>, k: nat)
    requires Units(xs, dim) && Shaped(cs, dim) && |a| == |xs| <= MAX_POINTS && Lengths(norm)
    requires forall i :: 0 <= i < |xs| ==> NonNegative(xs[i])
    requires Updated(xs, a, cs, dim, norm, cs') && Short(cs', dim) && Short(vs, dim) && k <= |cs| == |vs|
    ensures ByCluster(xs, a, cs', dim, k) >= ByCluster(xs, a, vs, dim, k)
  {
    hide Dot, SumOf, Center, Moved, Lengths, NonNegative;
    if k > 0 {
      ClustersImprove(xs, a, cs, dim, norm, cs', vs, k - 1);
      CenterImproves(xs, a, cs, dim, norm, k - 1, vs[k - 1]);
    }
  }

  /** No centroids of length at most 1 are more similar to the points of the clusters. */
  ghost predicate BestFor(xs: seq<Vec>, a: seq<nat>, dim: nat, cs: seq<Vec>)
    requires Shaped(xs, dim) && Shaped(cs, dim) && Assigns(a, |xs|, |cs|)
  {
    forall vs :: Short(vs, dim) && |vs| == |cs| ==> Total(xs, a, vs, dim) <= Total(xs, a, cs, dim)
  }

  /** The update step gives the best centroids for its clusters, whatever the old ones were, and
      unit vectors from unit vectors. */
  lemma UpdateImproves(xs: seq<Vec>, a: seq<nat>, cs: seq<Vec>, dim: nat, norm: Vec -> real, cs': seq<Vec>)
    requires Units(xs, dim) && Shaped(cs, dim) && Assigns(a, |xs|, |cs|) && |xs| <= MAX_POINTS && Lengths(norm)
    requires forall i :: 0 <= i < |xs| ==> NonNegative(xs[i])
    requires Updated(xs, a, cs, dim, norm, cs')
    ensures |cs'| == |cs| && Short(cs', dim) && (Units(cs, dim) ==> Units(cs', dim))
    ensures BestFor(xs, a, dim, cs')
    ensures forall c :: 0 <= c < |cs| && Size(a, c) == 0 ==> cs[c] == Scale(Clip(norm(cs[c])), cs'[c])
  {
    hide Dot, ByCluster, Total, Lengths, NonNegative, Updated;
    UpdatedSize(xs, a, cs, dim, norm, cs');
    EmptyKeeps(xs, a, cs, dim, norm, cs');
    UpdatedShort(xs, a, cs, dim, norm, cs');
    Regroup(xs, a, cs', dim);
    forall vs | Short(vs, dim) && |vs| == |cs'| ensures Total(xs, a, vs, dim) <= Total(xs, a, cs', dim) {
      ClustersImprove(xs, a, cs, dim, norm, cs', vs, |cs|);
      Regroup(xs, a, vs, dim);
    }
  }

  lemma UpdatedSize(xs: seq<Vec>, a: seq<nat>, cs: seq<Vec>, dim: nat, norm: Vec -> real, cs': seq<Vec>)
    requires Shaped(xs, dim) && |a| == |xs| && Updated(xs, a, cs, dim, norm, cs')
    ensures |cs'| == |cs|
  {
  }

  // ----- the fit

  /** No assignment that competes beats (a, cs) when measured against the seeds. */
  ghost predicate BeatsSeeds(xs: seq<Vec>, seeds: seq<Vec>, dim: nat, cap: nat, balanced: bool, a: seq<nat>,
                             cs: seq<Vec>)
    requires Shaped(xs, dim) && Shaped(seeds, dim) && Shaped(cs, dim) && |cs| == |seeds|
  {
    && Competes(xs, seeds, cap, balanced, a)
    && forall other :: Competes(xs, seeds, cap, balanced, other) ==>
         Total(xs, other, seeds, dim) <= Total(xs, a, cs, dim)
  }

  lemma IterationKeeps(xs: seq<Vec>, seeds: seq<Vec>, dim: nat, cap: nat, balanced: bool, norm: Vec -> real,
                       a: seq<nat>, cs: seq<Vec>, first: bool, a': seq<nat>, cs': seq<Vec>)
    requires Units(xs, dim) && Shaped(seeds, dim) && Shaped(cs, dim) && |cs| == |seeds| && cap > 0
    requires |xs| <= MAX_POINTS && Lengths(norm) && forall i :: 0 <= i < |xs| ==> NonNegative(xs[i])
    requires if first then cs == seeds
             else Short(cs, dim) && Competes(xs, seeds, cap, balanced, a) &&
                  (Matchable(seeds, dim) ==> BeatsSeeds(xs, seeds, dim, cap, balanced, a, cs))
    requires Assigned(xs, cs, dim, cap, balanced, a') && Updated(xs, a', cs, dim, norm, cs')
    ensures |cs'| == |cs| && Short(cs', dim) && (Units(cs, dim) ==> Units(cs', dim))
    ensures Competes(xs, seeds, cap, balanced, a') && BestFor(xs, a', dim, cs')
    ensures Matchable(seeds, dim) ==> BeatsSeeds(xs, seeds, dim, cap, balanced, a', cs')
    ensures !first ==> Total(xs, a, cs, dim) <= Total(xs, a', cs', dim)
  {
    hide Total, Updated, Dot, Lengths, NonNegative, Balanced;
    SomeCompetes(xs, seeds, dim, cap, balanced, cs, a');
    UpdateImproves(xs, a', cs, dim, norm, cs');
    if !first {
      AssignedOptimal(xs, cs, dim, cap, balanced, a', a);
    }
    forall other | Matchable(seeds, dim) && Competes(xs, seeds, cap, balanced, other)
      ensures Total(xs, other, seeds, dim) <= Total(xs, a', cs', dim)
    {
      MatchableBeaten(xs, a', seeds, dim, cs');
      AssignedOptimal(xs, cs, dim, cap, balanced, a', if first then other else a);
    }
  }

  /** The best centroids for a clustering match seeds whose positive components are short. */
  lemma MatchableBeaten(xs: seq<Vec>, a: seq<nat>, seeds: seq<Vec>, dim: nat, cs: seq<Vec>)
    requires Shaped(xs, dim) && Matchable(seeds, dim) && Shaped(cs, dim) && |cs| == |seeds| && Assigns(a, |xs|, |cs|)
    requires (forall i :: 0 <= i < |xs| ==> NonNegative(xs[i])) && BestFor(xs, a, dim, cs)
    ensures Total(xs, a, seeds, dim) <= Total(xs, a, cs, dim)
  {
    hide Dot, Total, Positive, NonNegative;
    var vs := seq(|seeds|, c requires 0 <= c < |seeds| => Positive(seeds[c]));
    PositiveTotal(xs, a, seeds, dim, vs);
    assert Short(vs, dim);
  }

  lemma {:induction false} PositiveTotal(xs: seq<Vec>, a: seq<nat>, cs: seq<Vec>, dim: nat, vs: seq<Vec>)
    requires Shaped(xs, dim) && Shaped(cs, dim) && Assigns(a, |xs|, |cs|)
    requires forall i :: 0 <= i < |xs| ==> NonNegative(xs[i])
    requires |vs| == |cs| && Shaped(vs, dim) && forall c :: 0 <= c < |cs| ==> vs[c] == Positive(cs[c])
    ensures Total(xs, a, cs, dim) <= Total(xs, a, vs, dim)
  {
    hide Dot, Positive, NonNegative;
    if xs != [] {
      var n := |xs| - 1;
      PositiveTotal(xs[..n], a[..n], cs, dim, vs);
      DotPositive(xs[n], cs[a[n]]);
    }
  }

  /** The assignment of a step competes. */
  lemma SomeCompetes(xs: seq<Vec>, seeds: seq<Vec>, dim: nat, cap: nat, balanced: bool, cs: seq<Vec>, a: seq<nat>)
    requires Shaped(xs, dim) && Shaped(cs, dim) && |cs| == |seeds| && cap > 0 && Assigned(xs, cs, dim, cap, balanced, a)
    ensures Competes(xs, seeds, cap, balanced, a)
  {
    hide Balanced, Dot;
    if balanced {
      var col :| Cheapest(xs, cs, dim, cap, col) && a == ClusterOf(col, cap);
      ColumnsBalanced(col, |xs|, |cs|, cap);
    }
  }

  /** ceil(n / k) */
  function Cap(n: nat, k: nat): (cap: nat)
    requires n > 0 && k > 0
    ensures cap > 0 && n <= k * cap && k * (cap - 1) < n
  {
    (n + k - 1) / k
  }

  /** The centroids a fit starts from: the balanced one divides the seeds by their lengths. */
  function Prepared(seeds: seq<Vec>, norm: Vec -> real, balanced: bool): (cs: seq<Vec>)
    ensures |cs| == |seeds|
  {
    if balanced then seq(|seeds|, c requires 0 <= c < |seeds| => Moved(seeds[c], norm)) else seeds
  }

  lemma PreparedShort(seeds: seq<Vec>, dim: nat, norm: Vec -> real, balanced: bool)
    requires Shaped(seeds, dim) && Lengths(norm)
    ensures Shaped(Prepared(seeds, norm, balanced), dim)
    ensures Short(Prepared(seeds, norm, balanced), dim) <==> balanced || Short(seeds, dim)
    ensures Matchable(Prepared(seeds, norm, balanced), dim) <==> balanced || Matchable(seeds, dim)
    ensures balanced && (forall c :: 0 <= c < |seeds| ==> norm(seeds[c]) >= EPS) ==>
              Units(Prepared(seeds, norm, balanced), dim)
    ensures Units(seeds, dim) ==> Prepared(seeds, norm, balanced) == seeds
  {
    hide Dot, Moved, Lengths;
    if balanced {
      forall c | 0 <= c < |seeds|
        ensures var u := Moved(seeds[c], norm);
                |u| == dim && Dot(u, u) <= 1.0 && (norm(seeds[c]) >= EPS ==> Dot(u, u) == 1.0)
      {
        MovedShort(seeds[c], norm);
      }
      ShortMatchable(Prepared(seeds, norm, balanced), dim);
      if Units(seeds, dim) {
        SeedsKept(seeds, dim, norm, Prepared(seeds, norm, balanced));
      }
    }
  }

  /** A fit, iteration by iteration: the centroids, and the clusters that led from one to the next. */
  datatype Trail = Trail(centroids: seq<seq<Vec>>, clusters: seq<seq<nat>>)

  /** One iteration: the points are assigned to cs, and the centroids moved to cs'. */
  ghost predicate Iteration(xs: seq<Vec>, dim: nat, cap: nat, balanced: bool, norm: Vec -> real, cs: seq<Vec>,
                            a: seq<nat>, cs': seq<Vec>)
  {
    && Shaped(xs, dim) && Shaped(cs, dim) && cap > 0
    && Assigned(xs, cs, dim, cap, balanced, a) && Updated(xs, a, cs, dim, norm, cs')
  }

  /** Every entry follows from the one before by an iteration. */
  ghost predicate Iterated(xs: seq<Vec>, dim: nat, cap: nat, balanced: bool, norm: Vec -> real, trail: Trail) {
    && |trail.centroids| == |trail.clusters| + 1
    && forall t :: 0 <= t < |trail.clusters| ==>
         Iteration(xs, dim, cap, balanced, norm, trail.centroids[t], trail.clusters[t], trail.centroids[t + 1])
  }

  /** The iterations end at the first that hardly moves the centroids, or after `iters` of them. */
  ghost predicate Stops(trail: Trail, iters: nat, close: (seq<Vec>, seq<Vec>) -> bool)
    requires |trail.centroids| == |trail.clusters| + 1
  {
    var n := |trail.clusters|;
    && n <= iters
    && (forall t :: 0 <= t < n - 1 ==> !close(trail.centroids[t + 1], trail.centroids[t]))
    && (n < iters ==> n > 0 && close(trail.centroids[n], trail.centroids[n - 1]))
  }

  /** The trail leads from one list of centroids to another, the last clusters being a. */
  ghost predicate Leads(trail: Trail, start: seq<Vec>, a: seq<nat>, cs: seq<Vec>) {
    && |trail.centroids| == |trail.clusters| + 1
    && trail.centroids[0] == start && trail.centroids[|trail.clusters|] == cs
    && (trail.clusters != [] ==> a == trail.clusters[|trail.clusters| - 1])
  }

  /** All iterations of the trail moved the centroids. */
  ghost predicate Moving(trail: Trail, close: (seq<Vec>, seq<Vec>) -> bool)
    requires |trail.centroids| == |trail.clusters| + 1
  {
    forall t :: 0 <= t < |trail.clusters| ==> !close(trail.centroids[t + 1], trail.centroids[t])
  }

  /** A fit under way. */
  ghost predicate UnderWay(xs: seq<Vec>, dim: nat, cap: nat, balanced: bool, norm: Vec -> real,
                           close: (seq<Vec>, seq<Vec>) -> bool, trail: Trail, start: seq<Vec>, a: seq<nat>,
                           cs: seq<Vec>, t: nat)
  {
    && Iterated(xs, dim, cap, balanced, norm, trail) && Leads(trail, start, a, cs)
    && |trail.clusters| == t && Moving(trail, close)
  }

  lemma FitBegins(xs: seq<Vec>, dim: nat, cap: nat, balanced: bool, norm: Vec -> real,
                  close: (seq<Vec>, seq<Vec>) -> bool, start: seq<Vec>, a: seq<nat>)
    ensures UnderWay(xs, dim, cap, balanced, norm, close, Trail([start], []), start, a, start, 0)
  {
  }

  /** The trail with one more iteration: the fit stops there, or is still under way. */
  lemma FitContinues(xs: seq<Vec>, dim: nat, cap: nat, balanced: bool, norm: Vec -> real,
                     close: (seq<Vec>, seq<Vec>) -> bool, trail: Trail, start: seq<Vec>, a: seq<nat>, cs: seq<Vec>,
                     t: nat, a': seq<nat>, cs': seq<Vec>)
    requires UnderWay(xs, dim, cap, balanced, norm, close, trail, start, a, cs, t)
    requires Iteration(xs, dim, cap, balanced, norm, cs, a', cs')
    ensures var more := Trail(trail.centroids + [cs'], trail.clusters + [a']);
            && Iterated(xs, dim, cap, balanced, norm, more) && Leads(more, start, a', cs')
            && |more.clusters| == t + 1
            && (close(cs', cs) ==> forall iters: nat :: t < iters ==> Stops(more, iters, close))
            && (!close(cs', cs) ==> UnderWay(xs, dim, cap, balanced, norm, close, more, start, a', cs', t + 1))
  {
    hide Iteration;
    var more, n := Trail(trail.centroids + [cs'], trail.clusters + [a']), |trail.clusters|;
    forall u | 0 <= u < n + 1
      ensures Iteration(xs, dim, cap, balanced, norm, more.centroids[u], more.clusters[u], more.centroids[u + 1])
      ensures u < n ==> !close(more.centroids[u + 1], more.centroids[u])
    {
      assert more.centroids[u] == trail.centroids[u];
      assert u < n ==> more.centroids[u + 1] == trail.centroids[u + 1] && more.clusters[u] == trail.clusters[u];
    }
  }

  lemma FitExhausted(xs: seq<Vec>, dim: nat, cap: nat, balanced: bool, norm: Vec -> real,
                     close: (seq<Vec>, seq<Vec>) -> bool, trail: Trail, start: seq<Vec>, a: seq<nat>, cs: seq<Vec>,
                     iters: nat)
    requires UnderWay(xs, dim, cap, balanced, norm, close, trail, start, a, cs, iters)
    ensures Iterated(xs, dim, cap, balanced, norm, trail) && Leads(trail, start, a, cs) && |trail.clusters| == iters
    ensures Stops(trail, iters, close)
  {
    hide Iteration;
  }

  /** Over a whole fit the total similarity never falls. */
  lemma {:induction false} TrailImproves(xs: seq<Vec>, dim: nat, cap: nat, balanced: bool, norm: Vec -> real,
                                         trail: Trail, i: nat, j: nat)
    requires Units(xs, dim) && |xs| <= MAX_POINTS && Lengths(norm) && forall k :: 0 <= k < |xs| ==> NonNegative(xs[k])
    requires Iterated(xs, dim, cap, balanced, norm, trail) && i <= j < |trail.clusters|
    ensures Shaped(trail.centroids[i + 1], dim) && Assigns(trail.clusters[i], |xs|, |trail.centroids[i + 1]|)
    ensures Shaped(trail.centroids[j + 1], dim) && Assigns(trail.clusters[j], |xs|, |trail.centroids[j + 1]|)
    ensures Total(xs, trail.clusters[i], trail.centroids[i + 1], dim) <=
            Total(xs, trail.clusters[j], trail.centroids[j + 1], dim)
    decreases j
  {
    hide Total, Updated, Dot, Lengths, NonNegative, Assigned, BestFor, Balanced;
    var cs, a, cs' := trail.centroids[j], trail.clusters[j], trail.centroids[j + 1];
    assert Iteration(xs, dim, cap, balanced, norm, cs, a, cs');
    AssignedIs(xs, cs, dim, cap, balanced, a);
    UpdateImproves(xs, a, cs, dim, norm, cs');
    if i < j {
      TrailImproves(xs, dim, cap, balanced, norm, trail, i, j - 1);
      var b := trail.clusters[j - 1];
      assert Iteration(xs, dim, cap, balanced, norm, trail.centroids[j - 1], b, cs);
      NextImproves(xs, dim, cap, balanced, norm, trail.centroids[j - 1], b, cs, a, cs');
    }
  }

  lemma NextImproves(xs: seq<Vec>, dim: nat, cap: nat, balanced: bool, norm: Vec -> real, cs0: seq<Vec>, a0: seq<nat>,
                     cs1: seq<Vec>, a1: seq<nat>, cs2: seq<Vec>)
    requires Units(xs, dim) && |xs| <= MAX_POINTS && Lengths(norm) && forall k :: 0 <= k < |xs| ==> NonNegative(xs[k])
    requires Iteration(xs, dim, cap, balanced, norm, cs0, a0, cs1)
    requires Iteration(xs, dim, cap, balanced, norm, cs1, a1, cs2)
    ensures |cs1| == |cs0| == |cs2| && Shaped(cs2, dim) && Assigns(a0, |xs|, |cs1|) && Assigns(a1, |xs|, |cs2|)
    ensures Total(xs, a0, cs1, dim) <= Total(xs, a1, cs2, dim)
  {
    hide Total, Updated, Dot, Lengths, NonNegative, Assigned, Balanced;
    AssignedIs(xs, cs0, dim, cap, balanced, a0);
    AssignedIs(xs, cs1, dim, cap, balanced, a1);
    UpdateImproves(xs, a0, cs0, dim, norm, cs1);
    UpdateImproves(xs, a1, cs1, dim, norm, cs2);
    SomeCompetes(xs, cs1, dim, cap, balanced, cs0, a0);
    AssignedOptimal(xs, cs1, dim, cap, balanced, a1, a0);
  }

  /** balanced_spherical_kmeans and vanilla_spherical_kmeans, from any seeds: the last centroids are
      never longer than 1 and the best for the last clustering, and unit centroids stay unit
      vectors.  Unless the fit starts from a centroid whose positive components are longer than 1,
      the last clustering is at least as similar as any balanced (any) clustering around those it
      starts from.  The trail lists the iterations.  `solve` assigns
      the points, `norm` measures vectors, `close` stops early. */
  method Fit(xs: seq<Vec>, seeds: seq<Vec>, dim: nat, iters: nat, balanced: bool,
             solve: seq<Vec> -> seq<nat>, norm: Vec -> real, close: (seq<Vec>, seq<Vec>) -> bool)
    returns (cs: seq<Vec>, ghost a: seq<nat>, ghost trail: Trail)
    requires 0 < |xs| <= MAX_POINTS && 0 < |seeds|
    requires Units(xs, dim) && (forall i :: 0 <= i < |xs| ==> NonNegative(xs[i]))
    requires Shaped(seeds, dim) && Lengths(norm)
    requires forall c :: Shaped(c, dim) && |c| == |seeds| ==>
               Assigned(xs, c, dim, Cap(|xs|, |seeds|), balanced, solve(c))
    ensures |cs| == |seeds| && Shaped(cs, dim) && Shaped(Prepared(seeds, norm, balanced), dim)
    ensures Iterated(xs, dim, Cap(|xs|, |seeds|), balanced, norm, trail)
    ensures Leads(trail, Prepared(seeds, norm, balanced), a, cs) && Stops(trail, iters, close)
    ensures Units(Prepared(seeds, norm, balanced), dim) ==> Units(cs, dim)
    ensures iters == 0 ==> cs == Prepared(seeds, norm, balanced)
    ensures iters > 0 ==> Short(cs, dim) && Assigns(a, |xs|, |cs|) && BestFor(xs, a, dim, cs)
    ensures iters > 0 && (balanced || Matchable(seeds, dim)) ==>
              BeatsSeeds(xs, Prepared(seeds, norm, balanced), dim, Cap(|xs|, |seeds|), balanced, a, cs)
  {
    hide Lengths, NonNegative, Dot, Assigned, Updated, BeatsSeeds, Moved, Center, Prepared, BestFor, Balanced;
    hide Matchable, Iterated, Leads, UnderWay, Stops;
    var cap := Cap(|xs|, |seeds|);
    ghost var start := Prepared(seeds, norm, balanced);
    PreparedShort(seeds, dim, norm, balanced);
    cs, a := Prepared(seeds, norm, balanced), [];
    trail := Trail([start], []);
    FitBegins(xs, dim, cap, balanced, norm, close, start, a);
    var t := 0;
    while t < iters
      invariant UnderWay(xs, dim, cap, balanced, norm, close, trail, start, a, cs, t)
      invariant t <= iters && |cs| == |seeds| && Shaped(cs, dim) && (Units(start, dim) ==> Units(cs, dim))
      invariant if t == 0 then cs == start
                else && Short(cs, dim) && Competes(xs, start, cap, balanced, a) && BestFor(xs, a, dim, cs)
                     && (Matchable(start, dim) ==> BeatsSeeds(xs, start, dim, cap, balanced, a, cs))
    {
      var assign := solve(cs);
      AssignedIs(xs, cs, dim, cap, balanced, assign);
      var moved := seq(|cs|, c requires 0 <= c < |cs| => Moved(Center(xs, assign, cs, dim, c), norm));
      UpdatedIs(xs, assign, cs, dim, norm, moved);
      IterationKeeps(xs, start, dim, cap, balanced, norm, a, cs, t == 0, assign, moved);
      FitContinues(xs, dim, cap, balanced, norm, close, trail, start, a, cs, t, assign, moved);
      trail := Trail(trail.centroids + [moved], trail.clusters + [assign]);
      a := assign;
      t := t + 1;
      if close(moved, cs) {
        cs := moved;
        return;
      }
      cs := moved;
    }
    FitExhausted(xs, dim, cap, balanced, norm, close, trail, start, a, cs, iters);
  }

  /** The condition is exact: against a seed it shuts out, some point is more similar to the seed
      than to any centroid of length at most 1, so that no fit of that point beats the seeds. */
  lemma LongSeedWins(seeds: seq<Vec>, dim: nat, norm: Vec -> real, c: nat) returns (x: Vec)
    requires Shaped(seeds, dim) && Lengths(norm) && c < |seeds|
    requires Dot(Positive(seeds[c]), Positive(seeds[c])) > 1.0
    ensures Units([x], dim) && NonNegative(x)
    ensures forall a, cs :: Short(cs, dim) && |cs| == |seeds| ==> !BeatsSeeds([x], seeds, dim, 1, false, a, cs)
  {
    hide Dot, Mul, Total, Positive;
    x := LongPoint(seeds[c], norm);
    forall a, cs | Short(cs, dim) && |cs| == |seeds| ensures !BeatsSeeds([x], seeds, dim, 1, false, a, cs) {
      if BeatsSeeds([x], seeds, dim, 1, false, a, cs) {
        assert Competes([x], seeds, 1, false, [c]);
        TotalOne(x, [c], seeds, dim);
        TotalOne(x, a, cs, dim);
        MulOne(1.0);
        AtMostNorm(x, 1.0, cs[a[0]]);
        assert false;
      }
    }
  }

  /** A unit vector without negative components that is more similar than 1 to the given one. */
  lemma LongPoint(v: Vec, norm: Vec -> real) returns (x: Vec)
    requires Lengths(norm) && Dot(Positive(v), Positive(v)) > 1.0
    ensures |x| == |v| && Dot(x, x) == 1.0 && NonNegative(x) && Dot(x, v) > 1.0
  {
    hide Dot, Mul;
    var p := Positive(v);
    var r := norm(p);
    assert IsNorm(p, r);
    AboveOne(r);
    Normalized(p, r);
    x := Scale(1.0 / r, p);
    forall i | 0 <= i < |x| ensures x[i] >= 0.0 {
      MulNonNegative(1.0 / r, p[i]);
    }
    PositivePart(v);
    DotScale(1.0 / r, p, v);
    Inverse(r);
  }

  lemma UpToOne(r: real)
    requires 0.0 <= r <= 1.0
    ensures Mul(r, r) <= 1.0
  {
    hide Mul;
    MulNonNegative(r, 1.0 - r);
    MulDistributes(r, 1.0 - r, r);
    MulOne(r);
  }

  lemma AboveOne(r: real)
    requires r >= 0.0 && Mul(r, r) > 1.0
    ensures r > 1.0
  {
    if r <= 1.0 {
      UpToOne(r);
      assert false;
    }
  }

  lemma TotalOne(x: Vec, a: seq<nat>, cs: seq<Vec>, dim: nat)
    requires |x| == dim && Shaped(cs, dim) && Assigns(a, 1, |cs|)
    ensures Total([x], a, cs, dim) == Dot(x, cs[a[0]])
  {
    hide Dot;
    assert [x][..0] == [] && a[..0] == [];
  }

  lemma AssignedIs(xs: seq<Vec>, cs: seq<Vec>, dim: nat, cap: nat, balanced: bool, a: seq<nat>)
    requires Shaped(xs, dim) && Shaped(cs, dim) && cap > 0 && Assigned(xs, cs, dim, cap, balanced, a)
    ensures Assigns(a, |xs|, |cs|)
  {
  }

  lemma UpdatedIs(xs: seq<Vec>, a: seq<nat>, cs: seq<Vec>, dim: nat, norm: Vec -> real, cs': seq<Vec>)
    requires Shaped(xs, dim) && |a| == |xs| && |cs'| == |cs|
    requires forall c :: 0 <= c < |cs| ==> cs'[c] == Moved(Center(xs, a, cs, dim, c), norm)
    ensures Updated(xs, a, cs, dim, norm, cs')
  {
  }

  lemma SeedsKept(seeds: seq<Vec>, dim: nat, norm: Vec -> real, cs: seq<Vec>)
    requires Units(seeds, dim) && Lengths(norm) && |cs| == |seeds|
    requires forall c :: 0 <= c < |seeds| ==> cs[c] == Moved(seeds[c], norm)
    ensures cs == seeds
  {
    hide Dot;
    forall c | 0 <= c < |seeds| ensures cs[c] == seeds[c] {
      assert IsNorm(seeds[c], norm(seeds[c]));
      UnitNorm(seeds[c], norm(seeds[c]));
    }
  }
}
