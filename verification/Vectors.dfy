/** Vector arithmetic over the reals: the algebra behind the k-means descent. */
module Vectors {
  import opened Core

  function Zero(dim: nat): (v: Vector)
    ensures |v| == dim
  {
    seq(dim, _ => 0.0)
  }

  function Add(a: Vector, b: Vector): (v: Vector)
    requires |a| == |b|
    ensures |v| == |a|
  {
    seq(|a|, i requires 0 <= i < |a| => a[i] + b[i])
  }

  function Divide(a: Vector, w: real): (v: Vector)
    requires w != 0.0
    ensures |v| == |a|
  {
    seq(|a|, i requires 0 <= i < |a| => a[i] / w)
  }

  ghost function Dot(a: Vector, b: Vector): real
    requires |a| == |b|
  {
    if a == [] then 0.0
    else Dot(a[..|a| - 1], b[..|a| - 1]) + a[|a| - 1] * b[|a| - 1]
  }

  ghost function SqDist(a: Vector, b: Vector): real
    requires |a| == |b|
  {
    if a == [] then 0.0
    else SqDist(a[..|a| - 1], b[..|a| - 1]) + Square(a[|a| - 1] - b[|a| - 1])
  }

  ghost function Square(x: real): (r: real)
    ensures r >= 0.0
  {
    x * x
  }

  lemma {:induction false} SqDistNonNegative(a: Vector, b: Vector)
    requires |a| == |b|
    ensures SqDist(a, b) >= 0.0
  {
    if a != [] { SqDistNonNegative(a[..|a| - 1], b[..|a| - 1]); }
  }

  /** Only equal vectors have distance zero. */
  lemma {:induction false} ZeroSqDist(a: Vector, b: Vector)
    requires |a| == |b|
    ensures SqDist(a, b) == 0.0 <==> a == b
  {
    if a != [] {
      var n := |a| - 1;
      ZeroSqDist(a[..n], b[..n]);
      SqDistNonNegative(a[..n], b[..n]);
      ZeroSquare(a[n] - b[n]);
      assert a == a[..n] + [a[n]] && b == b[..n] + [b[n]];
    }
  }

  /** Named, so that the solver does not rewrite `x * x > 0.0` away. */
  ghost function Product(x: real, y: real): real {
    x * y
  }

  lemma PositiveProduct(x: real, y: real)
    requires (x > 0.0 && y > 0.0) || (x < 0.0 && y < 0.0)
    ensures Product(x, y) > 0.0
  {
    if x < 0.0 {
      assert (-x) * (-y) == x * y;
    }
  }

  lemma SquareIsProduct(x: real)
    ensures Square(x) == Product(x, x) && Square(0.0) == 0.0
  {
  }

  lemma ZeroSquare(x: real)
    ensures Square(x) == 0.0 <==> x == 0.0
  {
    hide Square, Product;
    SquareIsProduct(x);
    if x != 0.0 { PositiveProduct(x, x); }
  }

  lemma {:induction false} DotSymmetric(a: Vector, b: Vector)
    requires |a| == |b|
    ensures Dot(a, b) == Dot(b, a)
  {
    if a != [] { DotSymmetric(a[..|a| - 1], b[..|a| - 1]); }
  }

  lemma ExpandSquare(x: real, y: real)
    ensures Square(x - y) == x * x - 2.0 * (x * y) + y * y
  {
  }

  lemma {:induction false} SqDistExpands(a: Vector, b: Vector)
    requires |a| == |b|
    ensures SqDist(a, b) == Dot(a, a) - 2.0 * Dot(a, b) + Dot(b, b)
  {
    if a != [] {
      SqDistExpands(a[..|a| - 1], b[..|a| - 1]);
      ExpandSquare(a[|a| - 1], b[|a| - 1]);
    }
  }

  lemma {:induction false} DotAdd(a: Vector, b: Vector, y: Vector)
    requires |a| == |b| == |y|
    ensures Dot(Add(a, b), y) == Dot(a, y) + Dot(b, y)
  {
    if a != [] {
      var n := |a| - 1;
      DotAdd(a[..n], b[..n], y[..n]);
      assert Add(a, b)[..n] == Add(a[..n], b[..n]);
      assert (a[n] + b[n]) * y[n] == a[n] * y[n] + b[n] * y[n];
    }
  }

  lemma {:induction false} DotZero(y: Vector)
    ensures Dot(Zero(|y|), y) == 0.0
  {
    if y != [] {
      var n := |y| - 1;
      DotZero(y[..n]);
      assert Zero(|y|)[..n] == Zero(n);
    }
  }

  lemma DivideTerm(x: real, w: real, y: real)
    requires w != 0.0
    ensures w * ((x / w) * y) == x * y
  {
    var q := x / w;
    assert q * w == x;
    assert w * (q * y) == (q * w) * y;
  }

  lemma {:induction false} DotDivide(a: Vector, w: real, y: Vector)
    requires |a| == |y| && w != 0.0
    ensures w * Dot(Divide(a, w), y) == Dot(a, y)
  {
    if a != [] {
      var n := |a| - 1;
      DotDivide(a[..n], w, y[..n]);
      assert Divide(a, w)[..n] == Divide(a[..n], w);
      DivideTerm(a[n], w, y[n]);
      var d, t := Dot(Divide(a[..n], w), y[..n]), (a[n] / w) * y[n];
      assert w * (d + t) == w * d + w * t;
    }
  }

  /** `n * x`, as an n-fold sum so that proofs stay linear. */
  ghost function Scale(n: nat, x: real): real {
    if n == 0 then 0.0 else Scale(n - 1, x) + x
  }

  lemma {:induction false} ScaleIsProduct(n: nat, x: real)
    ensures Scale(n, x) == n as real * x
  {
    if n > 0 {
      ScaleIsProduct(n - 1, x);
      assert n as real * x == (n - 1) as real * x + x;
    }
  }

  lemma {:induction false} ScaleCombination(n: nat, a: real, b: real, c: real)
    ensures Scale(n, a - 2.0 * b + c) == Scale(n, a) - 2.0 * Scale(n, b) + Scale(n, c)
  {
    if n > 0 { ScaleCombination(n - 1, a, b, c); }
  }

  lemma {:induction false} ScaleNonNegative(n: nat, x: real)
    requires x >= 0.0
    ensures Scale(n, x) >= 0.0
  {
    if n > 0 { ScaleNonNegative(n - 1, x); }
  }
}
