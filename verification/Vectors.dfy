/** Real vectors: the little linear algebra that cosine clustering needs. */
module Vectors {

  type Vec = seq<real>

  // ----- products of reals

  function Mul(x: real, y: real): real { x * y }

  lemma MulPositive(x: real, y: real)
    requires x > 0.0 && y > 0.0
    ensures Mul(x, y) > 0.0
  {
  }

  lemma MulSigns(x: real, y: real)
    ensures Mul(-x, -y) == Mul(x, y) && Mul(0.0, y) == 0.0 && Mul(x, 0.0) == 0.0
  {
  }

  lemma MulNonNegative(x: real, y: real)
    requires x >= 0.0 && y >= 0.0
    ensures Mul(x, y) >= 0.0
  {
    hide Mul;
    MulSigns(x, y);
    if x > 0.0 && y > 0.0 {
      MulPositive(x, y);
    }
  }

  lemma Square(x: real)
    ensures Mul(x, x) >= 0.0 && (x != 0.0 ==> Mul(x, x) > 0.0)
  {
    hide Mul;
    MulSigns(x, x);
    if x > 0.0 {
      MulPositive(x, x);
    } else if x < 0.0 {
      MulPositive(-x, -x);
    }
  }

  lemma MulDistributes(x: real, y: real, z: real)
    ensures Mul(x + y, z) == Mul(x, z) + Mul(y, z) && Mul(z, x + y) == Mul(z, x) + Mul(z, y)
    ensures Mul(Mul(x, y), z) == Mul(x, Mul(y, z)) && Mul(x, y) == Mul(y, x)
  {
  }

  // ----- vectors

  function Dot(a: Vec, b: Vec): real
    requires |a| == |b|
  {
    if a == [] then 0.0
    else Dot(a[..|a| - 1], b[..|b| - 1]) + Mul(a[|a| - 1], b[|b| - 1])
  }

  function Plus(a: Vec, b: Vec): (r: Vec)
    requires |a| == |b|
    ensures |r| == |a| && forall i :: 0 <= i < |a| ==> r[i] == a[i] + b[i]
  {
    seq(|a|, i requires 0 <= i < |a| => a[i] + b[i])
  }

  function Scale(k: real, a: Vec): (r: Vec)
    ensures |r| == |a| && forall i :: 0 <= i < |a| ==> r[i] == Mul(k, a[i])
  {
    seq(|a|, i requires 0 <= i < |a| => Mul(k, a[i]))
  }

  function Zero(n: nat): (r: Vec)
    ensures |r| == n && forall i :: 0 <= i < n ==> r[i] == 0.0
  {
    seq(n, i => 0.0)
  }

  lemma {:induction false} DotComm(a: Vec, b: Vec)
    requires |a| == |b|
    ensures Dot(a, b) == Dot(b, a)
  {
    hide Mul;
    if a != [] {
      DotComm(a[..|a| - 1], b[..|b| - 1]);
      MulDistributes(a[|a| - 1], b[|b| - 1], 0.0);
    }
  }

  lemma {:induction false} DotPlus(a: Vec, b: Vec, c: Vec)
    requires |a| == |b| == |c|
    ensures Dot(Plus(a, b), c) == Dot(a, c) + Dot(b, c)
  {
    hide Mul;
    if a != [] {
      var n := |a| - 1;
      assert Plus(a, b)[..n] == Plus(a[..n], b[..n]);
      DotPlus(a[..n], b[..n], c[..n]);
      MulDistributes(a[n], b[n], c[n]);
    }
  }

  lemma {:induction false} DotScale(k: real, a: Vec, b: Vec)
    requires |a| == |b|
    ensures Dot(Scale(k, a), b) == Mul(k, Dot(a, b))
  {
    hide Mul;
    if a == [] {
      MulSigns(k, 0.0);
    } else {
      var n := |a| - 1;
      assert Scale(k, a)[..n] == Scale(k, a[..n]);
      DotScale(k, a[..n], b[..n]);
      MulDistributes(k, a[n], b[n]);
      MulDistributes(Dot(a[..n], b[..n]), Mul(a[n], b[n]), k);
    }
  }

  lemma {:induction false} DotZero(n: nat, b: Vec)
    requires |b| == n
    ensures Dot(Zero(n), b) == 0.0
  {
    hide Mul;
    if n > 0 {
      assert Zero(n)[..n - 1] == Zero(n - 1);
      DotZero(n - 1, b[..n - 1]);
      MulSigns(0.0, b[n - 1]);
    }
  }

  /** A vector without negative components. */
  ghost predicate NonNegative(a: Vec) {
    forall i :: 0 <= i < |a| ==> a[i] >= 0.0
  }

  /** The vector with its negative components cut off. */
  function Positive(a: Vec): (r: Vec)
    ensures |r| == |a| && forall i :: 0 <= i < |a| ==> r[i] == if a[i] > 0.0 then a[i] else 0.0
  {
    seq(|a|, i requires 0 <= i < |a| => if a[i] > 0.0 then a[i] else 0.0)
  }

  lemma {:induction false} DotPositive(x: Vec, a: Vec)
    requires |x| == |a| && NonNegative(x)
    ensures Dot(x, a) <= Dot(x, Positive(a))
  {
    hide Mul;
    if a != [] {
      var n := |a| - 1;
      assert Positive(a)[..n] == Positive(a[..n]);
      DotPositive(x[..n], a[..n]);
      MulSigns(x[n], -a[n]);
      if a[n] <= 0.0 {
        MulNonNegative(x[n], -a[n]);
        MulDistributes(a[n], -a[n], x[n]);
      }
    }
  }

  lemma {:induction false} PositivePart(a: Vec)
    ensures Dot(Positive(a), a) == Dot(Positive(a), Positive(a)) <= Dot(a, a)
  {
    hide Mul;
    if a != [] {
      var n := |a| - 1;
      assert Positive(a)[..n] == Positive(a[..n]);
      PositivePart(a[..n]);
      MulSigns(0.0, a[n]);
      MulSigns(0.0, 0.0);
      Square(a[n]);
    }
  }

  lemma {:induction false} DotNonNegative(a: Vec, b: Vec)
    requires |a| == |b| && NonNegative(a) && NonNegative(b)
    ensures Dot(a, b) >= 0.0
  {
    hide Mul;
    if a != [] {
      DotNonNegative(a[..|a| - 1], b[..|b| - 1]);
      MulNonNegative(a[|a| - 1], b[|b| - 1]);
    }
  }

  /** A vector is zero exactly when its square is. */
  lemma {:induction false} SquareZero(a: Vec)
    ensures Dot(a, a) >= 0.0
    ensures Dot(a, a) == 0.0 ==> forall i :: 0 <= i < |a| ==> a[i] == 0.0
  {
    hide Mul;
    if a != [] {
      var n := |a| - 1;
      SquareZero(a[..n]);
      Square(a[n]);
      forall i | 0 <= i < |a| && Dot(a, a) == 0.0 ensures a[i] == 0.0 {
        assert i < n ==> a[..n][i] == a[i];
      }
    }
  }

  /** |a + k b|^2 written out. */
  lemma SquareOfSum(a: Vec, k: real, b: Vec)
    requires |a| == |b|
    ensures var s := Plus(a, Scale(k, b));
            Dot(s, s) == Dot(a, a) + Mul(k, Dot(a, b)) + Mul(k, Dot(a, b)) + Mul(k, Mul(k, Dot(b, b)))
  {
    hide Dot, Mul;
    var kb := Scale(k, b);
    var s := Plus(a, kb);
    DotPlus(a, kb, s);
    DotComm(a, s);
    DotPlus(a, kb, a);
    DotComm(kb, s);
    DotPlus(a, kb, kb);
    DotComm(a, kb);
    DotScale(k, b, a);
    DotScale(k, b, kb);
    DotComm(b, kb);
    DotScale(k, b, b);
    DotComm(b, a);
  }

  /** r is the length of a. */
  ghost predicate IsNorm(a: Vec, r: real) {
    r >= 0.0 && Mul(r, r) == Dot(a, a)
  }

  /** The component along a vector of length at most 1 is at most the length. */
  lemma AtMostNorm(a: Vec, r: real, u: Vec)
    requires |a| == |u| && IsNorm(a, r) && Dot(u, u) <= 1.0
    ensures Dot(a, u) <= r
  {
    hide Dot, Mul;
    SquareOfSum(a, -r, u);
    SquareZero(Plus(a, Scale(-r, u)));
    if r == 0.0 {
      MulSigns(0.0, 0.0);
      SquareZero(a);
      assert a == Zero(|a|);
      DotZero(|a|, u);
    } else {
      Halve(r, Dot(a, u), Dot(u, u));
    }
  }

  lemma Halve(r: real, d: real, q: real)
    requires r > 0.0 && q <= 1.0 && Mul(r, r) + Mul(-r, d) + Mul(-r, d) + Mul(-r, Mul(-r, q)) >= 0.0
    ensures d <= r
  {
    assert Mul(-r, Mul(-r, q)) == Mul(Mul(r, r), q) && Mul(-r, d) == -Mul(r, d);
    var rr := Mul(r, r);
    assert rr >= 0.0;
    hide Mul;
    MulMinus(1.0, q, rr);
    MulOne(rr);
    MulNonNegative(1.0 - q, rr);
    MulSwap(rr, q);
    MulMinus(d, r, r);
    if d > r {
      MulPositive(r, d - r);
    }
  }

  /** Unit vectors with inner product 1 are equal. */
  lemma SameDirection(u: Vec, v: Vec)
    requires |u| == |v| && Dot(u, u) == 1.0 && Dot(v, v) == 1.0
    ensures Dot(u, v) <= 1.0
    ensures Dot(u, v) == 1.0 ==> u == v
  {
    hide Dot, Mul;
    var d := Plus(u, Scale(-1.0, v));
    SquareOfSum(u, -1.0, v);
    MulMinusOne(Dot(u, v));
    MulMinusOne(1.0);
    MulMinusOne(-1.0);
    SquareZero(d);
    if Dot(u, v) == 1.0 {
      forall i | 0 <= i < |u| ensures u[i] == v[i] {
        assert d[i] == 0.0;
        MulMinusOne(v[i]);
      }
    }
  }

  lemma MulMinusOne(x: real)
    ensures Mul(-1.0, x) == -x
  {
  }

  /** |a + b|^2 written out. */
  lemma SquareOfPlus(a: Vec, b: Vec)
    requires |a| == |b|
    ensures var s := Plus(a, b); Dot(s, s) == Dot(a, a) + 2.0 * Dot(a, b) + Dot(b, b)
  {
    hide Dot;
    var s := Plus(a, b);
    DotPlus(a, b, s);
    DotComm(a, s);
    DotComm(b, s);
    DotPlus(a, b, a);
    DotPlus(a, b, b);
    DotComm(b, a);
  }

  /** A vector of positive length divided by its length is a unit vector along it. */
  lemma Normalized(m: Vec, r: real)
    requires IsNorm(m, r) && r > 0.0
    ensures var u := Scale(1.0 / r, m); Dot(u, u) == 1.0 && Dot(m, u) == r
  {
    hide Dot, Mul;
    var k := 1.0 / r;
    var u := Scale(k, m);
    DotScale(k, m, m);
    DotComm(m, u);
    DotScale(k, m, u);
    Inverse(r);
  }

  lemma Inverse(r: real)
    requires r > 0.0
    ensures Mul(1.0 / r, Mul(r, r)) == r && Mul(1.0 / r, r) == 1.0
  {
  }

  /** The length of a unit vector is 1. */
  lemma UnitNorm(u: Vec, r: real)
    requires IsNorm(u, r) && Dot(u, u) == 1.0
    ensures r == 1.0 && Scale(1.0 / r, u) == u
  {
    hide Dot, Mul;
    RootOfOne(r);
    forall i | 0 <= i < |u| ensures Scale(1.0, u)[i] == u[i] {
      MulOne(u[i]);
    }
  }

  lemma RootOfOne(r: real)
    requires r >= 0.0 && Mul(r, r) == 1.0
    ensures r == 1.0
  {
    hide Mul;
    MulMinus(r, 1.0, r);
    MulMinus(1.0, r, r);
    MulOne(r);
    if r > 1.0 {
      MulPositive(r - 1.0, r);
    } else if r < 1.0 {
      MulNonNegative(1.0 - r, r);
    }
  }

  lemma MulMinus(x: real, y: real, z: real)
    ensures Mul(x - y, z) == Mul(x, z) - Mul(y, z) && Mul(z, x - y) == Mul(z, x) - Mul(z, y)
  {
  }

  lemma MulOne(x: real)
    ensures Mul(1.0, x) == x
  {
  }

  lemma MulSwap(x: real, y: real)
    ensures Mul(x, y) == Mul(y, x)
  {
  }

  lemma Cancel(x: real, a: real, b: real)
    requires x > 0.0 && Mul(x, a) <= Mul(x, b)
    ensures a <= b
  {
    hide Mul;
    MulMinus(a, b, x);
    if a > b {
      MulPositive(x, a - b);
    }
  }
}
