/** Dynamic per-token int8 quantization (dynamic_per_token_int8_quant_ref in vllm/_xpu_ops.py),
    in exact real arithmetic. */
module Int8Quant {

  function Pow2(n: nat): nat {
    if n == 0 then 1 else 2 * Pow2(n - 1)
  }

  lemma {:induction false} Pow2Mono(m: nat, n: nat)
    requires m <= n
    ensures 1 <= Pow2(m) <= Pow2(n)
    decreases n
  {
    if m < n {
      Pow2Mono(m, n - 1);
    } else if n > 0 {
      Pow2Mono(n - 1, n - 1);
    }
  }

  function Abs(x: real): real { if x < 0.0 then -x else x }

  function Larger(x: real, y: real): real { if x < y then y else x }

  /** torch.round: to the nearest integer, ties to even. */
  function Round(x: real): int {
    var f := x.Floor;
    if x - f as real < 0.5 || (x - f as real == 0.5 && f % 2 == 0) then f else f + 1
  }

  /** Round is the nearest integer, and the even one of two equally near. */
  lemma RoundIs(x: real)
    ensures -0.5 <= Round(x) as real - x <= 0.5
    ensures Abs(Round(x) as real - x) == 0.5 ==> Round(x) % 2 == 0
  {
  }

  function Clamp(x: int, lo: int, hi: int): int {
    if x < lo then lo else if x > hi then hi else x
  }

  function MinOf(row: seq<real>): (m: real)
    requires row != []
    ensures m in row && forall x :: x in row ==> m <= x
  {
    if |row| == 1 then row[0]
    else
      var m := MinOf(row[1..]);
      assert row == [row[0]] + row[1..];
      if row[0] < m then row[0] else m
  }

  function MaxOf(row: seq<real>): (m: real)
    requires row != []
    ensures m in row && forall x :: x in row ==> x <= m
  {
    if |row| == 1 then row[0]
    else
      var m := MaxOf(row[1..]);
      assert row == [row[0]] + row[1..];
      if m < row[0] then row[0] else m
  }

  // ----- quantization of one row

  function QMin(symmetric: bool, bits: nat): int
    requires bits >= 1
  {
    if symmetric then 0 - Pow2(bits - 1) else 0
  }

  function QMax(symmetric: bool, bits: nat): int
    requires bits >= 1
  {
    if symmetric then Pow2(bits - 1) - 1 else Pow2(bits) - 1
  }

  /** There are 2^bits levels; the symmetric ones lie around 0 with one more below it. */
  lemma LevelCount(symmetric: bool, bits: nat)
    requires bits >= 1
    ensures QMax(symmetric, bits) - QMin(symmetric, bits) + 1 == Pow2(bits)
    ensures if symmetric then QMin(symmetric, bits) == -QMax(symmetric, bits) - 1 else QMin(symmetric, bits) == 0
  {
  }

  lemma {:induction false} Pow2Sum(m: nat, n: nat)
    ensures Pow2(m + n) == Pow2(m) * Pow2(n) && Pow2(1) == 2
  {
    if n > 0 {
      Pow2Sum(m, n - 1);
    }
  }

  /** A one-bit symmetric grid has no positive level and would divide by zero. */
  predicate BitsOk(symmetric: bool, bits: nat) {
    bits >= if symmetric then 2 else 1
  }

  lemma QMaxPositive(symmetric: bool, bits: nat)
    requires BitsOk(symmetric, bits)
    ensures QMax(symmetric, bits) >= 1
  {
    Pow2Mono(1, if symmetric then bits - 1 else bits);
  }

  function Scale(row: seq<real>, symmetric: bool, bits: nat): real
    requires row != [] && BitsOk(symmetric, bits) && QMax(symmetric, bits) >= 1
  {
    var lo, hi, q := MinOf(row), MaxOf(row), QMax(symmetric, bits) as real;
    Larger(if symmetric then Larger(Abs(lo), Abs(hi)) / q else (hi - lo) / q, 0.00001)
  }

  function ZeroPoint(row: seq<real>, symmetric: bool, scale: real): int
    requires row != [] && scale > 0.0
  {
    if symmetric then 0 else -Round(MinOf(row) / scale)
  }

  function Level(x: real, scale: real, zero: int, symmetric: bool, bits: nat): int
    requires scale > 0.0 && bits >= 1
  {
    Clamp(Round(x / scale + zero as real), QMin(symmetric, bits), QMax(symmetric, bits))
  }

  function Dequantize(q: int, scale: real, zero: int): real {
    (q as real - zero as real) * scale
  }

  // ----- error bound

  /** Rounding and then clamping stays within half a level of any value that is at most half
      a level outside the grid. */
  lemma ClampNear(v: real, lo: int, hi: int)
    requires lo <= hi && lo as real - 0.5 <= v <= hi as real + 0.5
    ensures -0.5 <= Clamp(Round(v), lo, hi) as real - v <= 0.5
  {
  }

  // ----- exact division

  lemma DivMul(a: real, s: real)
    requires s > 0.0
    ensures a / s * s == a && a * s / s == a
  {
  }

  lemma ProductMono(a: real, b: real, s: real)
    requires s > 0.0 && a <= b
    ensures a * s <= b * s
  {
  }

  lemma QuotientMono(a: real, b: real, s: real)
    requires s > 0.0 && a <= b
    ensures a / s <= b / s
  {
    QuotientDifference(b, a, s);
    assert (b - a) / s >= 0.0;
  }

  lemma QuotientDifference(a: real, b: real, s: real)
    requires s > 0.0
    ensures a / s - b / s == (a - b) / s
  {
  }

  lemma ScaleCovers(width: real, q: real, s: real)
    requires q > 0.0 && s >= width / q && s > 0.0
    ensures width / s <= q
  {
    ProductMono(width / q, s, q);
    DivMul(width, q);
    QuotientMono(width, q * s, s);
    DivMul(q, s);
  }

  lemma ScaledError(d: real, s: real)
    requires -0.5 <= d <= 0.5 && s > 0.0
    ensures Abs(d * s) <= s / 2.0
  {
    ProductMono(d, 0.5, s);
    ProductMono(-0.5, d, s);
  }

  /** A value x at grid coordinate v, stored as level q. */
  lemma ErrorBound(q: real, z: real, v: real, x: real, s: real, y: real)
    requires s > 0.0 && (v - z) * s == x && -0.5 <= q - v <= 0.5 && y == (q - z) * s
    ensures Abs(y - x) <= s / 2.0
  {
    ErrorIsScaled(q - v, v - z, q - z, s, x, y);
  }

  lemma ErrorIsScaled(d: real, e: real, f: real, s: real, x: real, y: real)
    requires s > 0.0 && f == d + e && e * s == x && y == f * s && -0.5 <= d <= 0.5
    ensures Abs(y - x) <= s / 2.0
  {
    Distributes(d, e, s);
    assert y - x == d * s;
    ScaledError(d, s);
  }

  lemma Distributes(d: real, e: real, s: real)
    ensures (d + e) * s == d * s + e * s
  {
  }

  // ----- every value of the row falls on the grid, up to half a level

  lemma SymmetricGrid(x: real, m: real, q: real, s: real)
    requires -m <= x <= m && q > 0.0 && s >= m / q && s > 0.0
    ensures -q <= x / s <= q
  {
    ScaleCovers(m, q, s);
    QuotientMono(x, m, s);
    QuotientMono(-x, m, s);
    QuotientDifference(0.0, x, s);
  }

  lemma AsymmetricGrid(x: real, lo: real, hi: real, q: real, s: real)
    requires lo <= x <= hi && q > 0.0 && s >= (hi - lo) / q && s > 0.0
    ensures -0.5 <= x / s - Round(lo / s) as real <= q + 0.5
  {
    ScaleCovers(hi - lo, q, s);
    QuotientMono(lo, x, s);
    QuotientMono(x, hi, s);
    QuotientDifference(hi, lo, s);
  }

  lemma OnGrid(row: seq<real>, symmetric: bool, bits: nat, x: real)
    requires row != [] && BitsOk(symmetric, bits) && x in row
    ensures QMax(symmetric, bits) >= 1 && QMin(symmetric, bits) <= QMax(symmetric, bits)
    ensures var s := Scale(row, symmetric, bits);
            var z := ZeroPoint(row, symmetric, s);
            QMin(symmetric, bits) as real - 0.5 <= x / s + z as real <= QMax(symmetric, bits) as real + 0.5
  {
    hide Round, Pow2, MinOf, MaxOf;
    QMaxPositive(symmetric, bits);
    var lo, hi, q := MinOf(row), MaxOf(row), QMax(symmetric, bits) as real;
    var s := Scale(row, symmetric, bits);
    if symmetric {
      SymmetricGrid(x, Larger(Abs(lo), Abs(hi)), q, s);
    } else {
      AsymmetricGrid(x, lo, hi, q, s);
    }
  }

  /** Quantizing and dequantizing moves no value of the row by more than half a step, and every
      level lies in the range of the format, for both modes and any number of bits. */
  lemma HalfStepError(row: seq<real>, symmetric: bool, bits: nat, x: real)
    requires row != [] && BitsOk(symmetric, bits) && x in row
    ensures QMax(symmetric, bits) >= 1
    ensures var s := Scale(row, symmetric, bits);
            var z := ZeroPoint(row, symmetric, s);
            var q := Level(x, s, z, symmetric, bits);
            && s >= 0.00001 && QMin(symmetric, bits) <= q <= QMax(symmetric, bits)
            && Abs(Dequantize(q, s, z) - x) <= s / 2.0
  {
    hide Round, Pow2, MinOf, MaxOf, QMin, QMax, Dequantize;
    OnGrid(row, symmetric, bits, x);
    var s := Scale(row, symmetric, bits);
    LevelError(x, s, ZeroPoint(row, symmetric, s), QMin(symmetric, bits), QMax(symmetric, bits));
  }

  lemma LevelError(x: real, s: real, z: int, lo: int, hi: int)
    requires s > 0.0 && lo <= hi && lo as real - 0.5 <= x / s + z as real <= hi as real + 0.5
    ensures var q := Clamp(Round(x / s + z as real), lo, hi);
            lo <= q <= hi && Abs(Dequantize(q, s, z) - x) <= s / 2.0
  {
    hide Round, Abs;
    var v := x / s + z as real;
    var q := Clamp(Round(v), lo, hi);
    ClampNear(v, lo, hi);
    DivMul(x, s);
    assert v - z as real == x / s;
    var y := Dequantize(q, s, z);
    ErrorBound(q as real, z as real, v, x, s, y);
  }

  /** The scale is no larger than it must be.  In symmetric mode the value of largest magnitude
      uses the outermost level and is stored without error, unless the whole row is tiny. */
  lemma ExtremeIsExact(row: seq<real>, bits: nat, x: real)
    requires row != [] && BitsOk(true, bits) && x in row && forall y :: y in row ==> Abs(y) <= Abs(x)
    ensures QMax(true, bits) >= 1
    ensures var s := Scale(row, true, bits);
            var q := Level(x, s, 0, true, bits);
            s > 0.00001 ==> Abs(q as real) == QMax(true, bits) as real && Dequantize(q, s, 0) == x
  {
    hide Pow2, MinOf, MaxOf, Round;
    QMaxPositive(true, bits);
    var s, top := Scale(row, true, bits), QMax(true, bits);
    if s > 0.00001 {
      var m := Larger(Abs(MinOf(row)), Abs(MaxOf(row)));
      assert m == Abs(x);
      DivMul(m, top as real);
      assert s * top as real == m;
      OutermostLevel(x, s, top);
    }
  }

  lemma OutermostLevel(x: real, s: real, top: int)
    requires s > 0.0 && top >= 1 && s * top as real == Abs(x)
    ensures x / s == if x < 0.0 then -(top as real) else top as real
    ensures Round(x / s) == if x < 0.0 then -top else top
    ensures Dequantize(Round(x / s), s, 0) == x
  {
    DivMul(top as real, s);
    DivMul(-(top as real), s);
    assert x == (if x < 0.0 then -(top as real) else top as real) * s;
    RoundExact(top);
    RoundExact(-top);
  }

  lemma RoundExact(n: int)
    ensures Round(n as real) == n
  {
  }

  /** In asymmetric mode the levels span the row exactly, unless its width is tiny. */
  lemma AsymmetricWidth(row: seq<real>, bits: nat)
    requires row != [] && BitsOk(false, bits)
    ensures QMax(false, bits) >= 1
    ensures var s := Scale(row, false, bits);
            s > 0.00001 ==> s * QMax(false, bits) as real == MaxOf(row) - MinOf(row)
  {
    hide Pow2, MinOf, MaxOf;
    QMaxPositive(false, bits);
    DivMul(MaxOf(row) - MinOf(row), QMax(false, bits) as real);
  }

  /** The levels fit the stored type, int8 or uint8, exactly when there are at most 8 bits. */
  lemma StoredExactly(symmetric: bool, bits: nat)
    requires bits >= 1
    ensures bits <= 8 <==>
            if symmetric then -128 <= QMin(symmetric, bits) && QMax(symmetric, bits) <= 127
            else 0 <= QMin(symmetric, bits) && QMax(symmetric, bits) <= 255
  {
    assert Pow2(3) == 8;
    assert Pow2(6) == 64;
    assert Pow2(7) == 128 && Pow2(8) == 256;
    if bits <= 8 {
      Pow2Mono(bits, 8);
      Pow2Mono(bits - 1, 7);
    } else {
      assert Pow2(9) == 512;
      Pow2Mono(9, bits);
      Pow2Mono(8, bits - 1);
    }
  }
}
