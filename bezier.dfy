/**
 * Bezier curves of any degree given by their control points: Bernstein
 * evaluation, the derivative, normals, the critical points and bounding box of
 * a quadratic, and the sampled nearest-point search (bezier_tools.py).
 *
 * Square roots are avoided: normals and tangents are the rotated or plain
 * derivative without normalisation, and distances are compared squared.
 */
module BezierTools {
  import opened Wrappers
  import opened Geometry

  /** Binomial coefficient by Pascal's rule; zero when k > n, as math.comb. */
  function Comb(n: nat, k: nat): (c: nat)
    ensures k <= n ==> c >= 1
  {
    if k == 0 then 1 else if n == 0 then 0 else Comb(n - 1, k - 1) + Comb(n - 1, k)
  }

  lemma {:induction false} CombAbove(n: nat, k: nat)
    requires k > n
    ensures Comb(n, k) == 0
  {
    if n > 0 {
      CombAbove(n - 1, k - 1);
      CombAbove(n - 1, k);
    }
  }

  lemma {:induction false} CombDiagonal(n: nat)
    ensures Comb(n, n) == 1
  {
    if n > 0 {
      CombDiagonal(n - 1);
      CombAbove(n - 1, n);
    }
  }

  lemma {:induction false} PowOne(k: nat)
    ensures Pow(1.0, k) == 1.0
  {
    if k > 0 {
      PowOne(k - 1);
    }
  }

  lemma {:induction false} PowNonNegative(b: real, k: nat)
    requires b >= 0.0
    ensures Pow(b, k) >= 0.0
  {
    if k > 0 {
      PowNonNegative(b, k - 1);
    }
  }

  lemma MulNonNegative(a: real, b: real)
    requires a >= 0.0 && b >= 0.0
    ensures a * b >= 0.0
  {
  }

  /** The Bernstein basis polynomial C(n, i) (1 - t)^(n - i) t^i. */
  function Bernstein(n: nat, i: nat, t: real): real
    requires i <= n
  {
    Comb(n, i) as real * Pow(1.0 - t, n - i) * Pow(t, i)
  }

  /** On [0, 1] every Bernstein polynomial is non-negative. */
  lemma BernsteinNonNegative(n: nat, i: nat, t: real)
    requires i <= n && 0.0 <= t <= 1.0
    ensures Bernstein(n, i, t) >= 0.0
  {
    PowNonNegative(1.0 - t, n - i);
    PowNonNegative(t, i);
    MulNonNegative(Comb(n, i) as real, Pow(1.0 - t, n - i));
    MulNonNegative(Comb(n, i) as real * Pow(1.0 - t, n - i), Pow(t, i));
  }

  /** The weights B(m - 1, i, t) for i < m: the Bernstein basis of degree m - 1. */
  function Weights(m: nat, t: real): (w: seq<real>)
    ensures |w| == m
  {
    seq(m, i requires 0 <= i < m => Bernstein(m - 1, i, t))
  }

  /** w[0] P_0 + ... + w[k - 1] P_{k - 1}, added in index order. */
  function Combine(w: seq<real>, cps: seq<Point>, k: nat): Point
    requires k <= |cps| && k <= |w|
  {
    if k == 0 then Origin else Add(Combine(w, cps, k - 1), Mul(w[k - 1], cps[k - 1]))
  }

  /** The curve point at parameter t; the origin for an empty control polygon. */
  function Eval(cps: seq<Point>, t: real): Point
  {
    Combine(Weights(|cps|, t), cps, |cps|)
  }

  /** One more term of a weighted sum. */
  lemma SumStep(w: seq<real>, cps: seq<Point>, i: nat, x: real, y: real, b: real, p: Point)
    requires i < |cps| && i < |w| && Point(x, y) == Combine(w, cps, i)
    requires b == w[i] && p == cps[i]
    ensures Combine(w, cps, i + 1) == Point(x + b * p.x, y + b * p.y)
  {
    assert Combine(w, cps, i + 1) == Add(Point(x, y), Mul(b, p));
  }

  /** Bezier.point: the Bernstein sum accumulated coordinate by coordinate. */
  method PointAt(cps: seq<Point>, t: real) returns (p: Point)
    ensures p == Eval(cps, t)
  {
    var n := |cps| - 1;
    var x, y := 0.0, 0.0;
    ghost var w := Weights(|cps|, t);
    for i := 0 to n + 1
      invariant Point(x, y) == Combine(w, cps, i)
    {
      var b := Bernstein(n, i, t);
      assert b == w[i];
      var c := cps[i];
      SumStep(w, cps, i, x, y, b, c);
      x, y := x + b * c.x, y + b * c.y;
    }
    p := Point(x, y);
  }

  /** A sum whose weights are all zero is the origin. */
  lemma {:induction false} CombineZero(w: seq<real>, cps: seq<Point>, k: nat)
    requires k <= |cps| && k <= |w|
    requires forall j :: 0 <= j < k ==> w[j] == 0.0
    ensures Combine(w, cps, k) == Origin
  {
    if k > 0 {
      CombineZero(w, cps, k - 1);
    }
  }

  /** A sum weighting the first point by one and the rest by zero is the first point. */
  lemma {:induction false} CombineFirst(w: seq<real>, cps: seq<Point>, k: nat)
    requires 1 <= k <= |cps| && k <= |w|
    requires w[0] == 1.0 && forall j :: 1 <= j < k ==> w[j] == 0.0
    ensures Combine(w, cps, k) == cps[0]
  {
    if k == 1 {
      assert Combine(w, cps, 0) == Origin;
    } else {
      CombineFirst(w, cps, k - 1);
    }
  }

  /** At t = 0 only the first basis polynomial is non-zero, and it is one. */
  lemma WeightsAtZero(m: nat)
    requires m >= 1
    ensures Weights(m, 0.0)[0] == 1.0
    ensures forall j :: 1 <= j < m ==> Weights(m, 0.0)[j] == 0.0
  {
    PowOne(m - 1);
    assert Bernstein(m - 1, 0, 0.0) == 1.0;
    forall j | 1 <= j < m
      ensures Weights(m, 0.0)[j] == 0.0
    {
      assert Pow(0.0, j) == 0.0;
    }
  }

  /** At t = 1 only the last basis polynomial is non-zero, and it is one. */
  lemma WeightsAtOne(m: nat)
    requires m >= 1
    ensures Weights(m, 1.0)[m - 1] == 1.0
    ensures forall j :: 0 <= j < m - 1 ==> Weights(m, 1.0)[j] == 0.0
  {
    CombDiagonal(m - 1);
    PowOne(m - 1);
    assert Bernstein(m - 1, m - 1, 1.0) == 1.0;
    forall j | 0 <= j < m - 1
      ensures Weights(m, 1.0)[j] == 0.0
    {
      assert Pow(0.0, m - 1 - j) == 0.0;
    }
  }

  /** A curve starts at its first control point. */
  lemma EvalAtZero(cps: seq<Point>)
    requires |cps| >= 1
    ensures Eval(cps, 0.0) == cps[0]
  {
    WeightsAtZero(|cps|);
    CombineFirst(Weights(|cps|, 0.0), cps, |cps|);
  }

  /** A curve ends at its last control point. */
  lemma EvalAtOne(cps: seq<Point>)
    requires |cps| >= 1
    ensures Eval(cps, 1.0) == cps[|cps| - 1]
  {
    var w := Weights(|cps|, 1.0);
    WeightsAtOne(|cps|);
    CombineZero(w, cps, |cps| - 1);
    assert Eval(cps, 1.0) == Add(Origin, Mul(1.0, cps[|cps| - 1]));
  }

  /** A single control point is a constant curve. */
  lemma EvalSingle(p: Point, t: real)
    ensures Eval([p], t) == p
  {
    var w := Weights(1, t);
    assert Bernstein(0, 0, t) == 1.0;
    assert w[0] == 1.0;
    assert Combine(w, [p], 1) == Add(Combine(w, [p], 0), Mul(w[0], p));
  }

  /** The control points n (P_{i+1} - P_i) of the derivative curve. */
  function Hodograph(cps: seq<Point>): (h: seq<Point>)
    ensures |h| == if |cps| == 0 then 0 else |cps| - 1
  {
    if |cps| == 0 then []
    else seq(|cps| - 1, i requires 0 <= i < |cps| - 1 => Mul((|cps| - 1) as real, Sub(cps[i + 1], cps[i])))
  }

  /** The derivative of the curve at t: the hodograph evaluated in the Bernstein basis of degree n - 1. */
  function Derivative(cps: seq<Point>, t: real): Point
  {
    Eval(Hodograph(cps), t)
  }

  /** Bezier.derivative: n (P_{i+1} - P_i) B(n - 1, i, t) accumulated over i < n. */
  method DerivativeAt(cps: seq<Point>, t: real) returns (d: Point)
    ensures d == Derivative(cps, t)
  {
    var n := |cps| - 1;
    var x, y := 0.0, 0.0;
    ghost var h := Hodograph(cps);
    ghost var w := Weights(|h|, t);
    var i := 0;
    while i < n
      invariant 0 <= i && (n >= 0 ==> i <= n)
      invariant i <= |h| && Point(x, y) == Combine(w, h, i)
    {
      var b := Bernstein(n - 1, i, t);
      var step := Mul(n as real, Sub(cps[i + 1], cps[i]));
      assert step == h[i] && b == w[i];
      SumStep(w, h, i, x, y, b, step);
      x := x + b * step.x;
      y := y + b * step.y;
      i := i + 1;
    }
    d := Point(x, y);
  }

  /** The derivative at the start is n (P_1 - P_0); for a quadratic 2 (P_1 - P_0). */
  lemma DerivativeAtStart(cps: seq<Point>)
    requires |cps| >= 2
    ensures Derivative(cps, 0.0) == Mul((|cps| - 1) as real, Sub(cps[1], cps[0]))
  {
    EvalAtZero(Hodograph(cps));
  }

  /** The derivative at the end is n (P_n - P_{n-1}); for a quadratic 2 (P_2 - P_1). */
  lemma DerivativeAtEnd(cps: seq<Point>)
    requires |cps| >= 2
    ensures Derivative(cps, 1.0) == Mul((|cps| - 1) as real, Sub(cps[|cps| - 1], cps[|cps| - 2]))
  {
    EvalAtOne(Hodograph(cps));
  }

  /** A straight segment has the constant derivative P_1 - P_0. */
  lemma LinearDerivativeIsConstant(cps: seq<Point>, t: real)
    requires |cps| == 2
    ensures Derivative(cps, t) == Sub(cps[1], cps[0])
  {
    var h := Hodograph(cps);
    assert h == [Mul(1.0, Sub(cps[1], cps[0]))];
    EvalSingle(h[0], t);
  }

  /** d turned a quarter turn: counterclockwise, or clockwise when flipped. */
  function QuarterTurn(d: Point, flipped: bool): (r: Point)
    ensures Dot(r, d) == 0.0 && Norm2(r) == Norm2(d)
    ensures Cross(d, r) == if flipped then -Norm2(r) else Norm2(r)
  {
    if flipped then Point(d.y, -d.x) else Point(-d.y, d.x)
  }

  /** Bezier.normal without the normalisation: the derivative turned a quarter turn. */
  function Normal(cps: seq<Point>, t: real, flipped: bool): Point
  {
    QuarterTurn(Derivative(cps, t), flipped)
  }

  /** Either normal is perpendicular to the derivative. */
  lemma NormalPerpendicular(cps: seq<Point>, t: real, flipped: bool)
    ensures Dot(Normal(cps, t, flipped), Derivative(cps, t)) == 0.0
  {
  }

  /** Flipping the normal reverses it. */
  lemma NormalFlipNegates(cps: seq<Point>, t: real)
    ensures Normal(cps, t, true) == Mul(-1.0, Normal(cps, t, false))
  {
    var d := Derivative(cps, t);
    assert QuarterTurn(d, true) == Point(d.y, -d.x);
  }

  /** (1 - t)^2 a + 2 (1 - t) t b + t^2 c: one coordinate of a quadratic. */
  function QuadValue(a: real, b: real, c: real, t: real): real
  {
    (1.0 - t) * (1.0 - t) * a + 2.0 * (1.0 - t) * t * b + t * t * c
  }

  /** The three quadratic Bernstein weights. */
  lemma QuadraticWeights(t: real)
    ensures Weights(3, t)[0] == (1.0 - t) * (1.0 - t)
    ensures Weights(3, t)[1] == 2.0 * (1.0 - t) * t
    ensures Weights(3, t)[2] == t * t
  {
    var w := Weights(3, t);
    var u := 1.0 - t;
    assert w[0] == (1.0 - t) * (1.0 - t) by {
      assert Comb(2, 0) == 1 && Pow(t, 0) == 1.0;
      assert Pow(u, 2) == u * u by { assert Pow(u, 1) == u; }
      assert w[0] == Bernstein(2, 0, t) == 1.0 * (u * u) * 1.0;
    }
    assert w[1] == 2.0 * (1.0 - t) * t by {
      assert Comb(2, 1) == 2 by { assert Comb(1, 0) == 1 && Comb(1, 1) == 1; }
      assert Pow(u, 1) == u && Pow(t, 1) == t;
      assert w[1] == Bernstein(2, 1, t) == 2.0 * u * t;
    }
    assert w[2] == t * t by {
      assert Comb(2, 2) == 1 by { assert Comb(1, 1) == 1; }
      assert Pow(u, 0) == 1.0;
      assert Pow(t, 2) == t * t by { assert Pow(t, 1) == t; }
      assert w[2] == Bernstein(2, 2, t) == 1.0 * 1.0 * (t * t);
    }
  }

  /** A sum of three weighted points, written out. */
  lemma CombineThree(w: seq<real>, cps: seq<Point>)
    requires |w| == 3 && |cps| == 3
    ensures Combine(w, cps, 3).x == w[0] * cps[0].x + w[1] * cps[1].x + w[2] * cps[2].x
    ensures Combine(w, cps, 3).y == w[0] * cps[0].y + w[1] * cps[1].y + w[2] * cps[2].y
  {
    assert Combine(w, cps, 1) == Add(Origin, Mul(w[0], cps[0]));
    assert Combine(w, cps, 2) == Add(Combine(w, cps, 1), Mul(w[1], cps[1]));
  }

  /** The closed form of a quadratic Bezier. */
  lemma QuadraticForm(cps: seq<Point>, t: real)
    requires |cps| == 3
    ensures Eval(cps, t) == Point(QuadValue(cps[0].x, cps[1].x, cps[2].x, t), QuadValue(cps[0].y, cps[1].y, cps[2].y, t))
  {
    var w := Weights(3, t);
    QuadraticWeights(t);
    CombineThree(w, cps);
  }

  /** The two linear Bernstein weights. */
  lemma LinearWeights(t: real)
    ensures Weights(2, t)[0] == 1.0 - t && Weights(2, t)[1] == t
  {
    var w := Weights(2, t);
    var u := 1.0 - t;
    assert Comb(1, 1) == 1 && Comb(1, 0) == 1;
    assert Pow(t, 0) == 1.0 && Pow(u, 0) == 1.0;
    assert Pow(t, 1) == t && Pow(u, 1) == u;
    assert w[0] == Bernstein(1, 0, t) == 1.0 * u * 1.0;
    assert w[1] == Bernstein(1, 1, t) == 1.0 * 1.0 * t;
  }

  /** (1 - t) p + t q. */
  function Lerp(p: real, q: real, t: real): real
  {
    (1.0 - t) * p + t * q
  }

  /** The closed form of the derivative of a quadratic: 2 (1 - t) (P_1 - P_0) + 2 t (P_2 - P_1). */
  lemma QuadraticDerivativeForm(cps: seq<Point>, t: real)
    requires |cps| == 3
    ensures Derivative(cps, t).x == Lerp(2.0 * (cps[1].x - cps[0].x), 2.0 * (cps[2].x - cps[1].x), t)
    ensures Derivative(cps, t).y == Lerp(2.0 * (cps[1].y - cps[0].y), 2.0 * (cps[2].y - cps[1].y), t)
  {
    var h := Hodograph(cps);
    var w := Weights(2, t);
    LinearWeights(t);
    assert h[0] == Mul(2.0, Sub(cps[1], cps[0])) && h[1] == Mul(2.0, Sub(cps[2], cps[1]));
    assert Combine(w, h, 1) == Add(Origin, Mul(1.0 - t, h[0]));
    assert Derivative(cps, t) == Combine(w, h, 2) == Add(Combine(w, h, 1), Mul(t, h[1]));
  }

  /**
   * The parameter (a - b) / (a - 2b + c) at which one coordinate of a quadratic
   * is stationary; None on a degenerate axis, where numpy's inf or nan fails
   * every range test.
   */
  function AxisCritical(a: real, b: real, c: real): Option<real>
  {
    var den := a - 2.0 * b + c;
    if den == 0.0 then None else Some((a - b) / den)
  }

  /** The curve point at an accepted critical parameter, as a list of zero or one points. */
  function AcceptCritical(cps: seq<Point>, ot: Option<real>): seq<Point>
  {
    if ot.Some? && 0.0 <= ot.value <= 1.0 then [Eval(cps, ot.value)] else []
  }

  /** Bezier.quadratic_crit_point: the x-axis candidate first, then the y-axis one. */
  function QuadraticCritPoints(cps: seq<Point>): (r: seq<Point>)
    requires |cps| >= 3
    ensures |r| <= 2
  {
    AcceptCritical(cps, AxisCritical(cps[0].x, cps[1].x, cps[2].x))
      + AcceptCritical(cps, AxisCritical(cps[0].y, cps[1].y, cps[2].y))
  }

  /** The derivative 2 (1 - s) (b - a) + 2 s (c - b) of one axis vanishes where s (a - 2b + c) == a - b. */
  lemma StationaryParameter(a: real, b: real, c: real, s: real)
    requires s * (a - 2.0 * b + c) == a - b
    ensures Lerp(2.0 * (b - a), 2.0 * (c - b), s) == 0.0
  {
    assert Lerp(2.0 * (b - a), 2.0 * (c - b), s) == 2.0 * (b - a) + 2.0 * (s * (a - 2.0 * b + c));
  }

  /** The x-axis candidate is on the curve and there the x-derivative vanishes. */
  lemma AxisXStationary(cps: seq<Point>)
    requires |cps| == 3
    ensures var ox := AxisCritical(cps[0].x, cps[1].x, cps[2].x);
      ox.Some? ==> Derivative(cps, ox.value).x == 0.0
  {
    var ox := AxisCritical(cps[0].x, cps[1].x, cps[2].x);
    if ox.Some? {
      var a, b, c := cps[0].x, cps[1].x, cps[2].x;
      var s := ox.value;
      assert s * (a - 2.0 * b + c) == a - b;
      QuadraticDerivativeForm(cps, s);
      StationaryParameter(a, b, c, s);
    }
  }

  /** The y-axis candidate is on the curve and there the y-derivative vanishes. */
  lemma AxisYStationary(cps: seq<Point>)
    requires |cps| == 3
    ensures var oy := AxisCritical(cps[0].y, cps[1].y, cps[2].y);
      oy.Some? ==> Derivative(cps, oy.value).y == 0.0
  {
    var oy := AxisCritical(cps[0].y, cps[1].y, cps[2].y);
    if oy.Some? {
      var a, b, c := cps[0].y, cps[1].y, cps[2].y;
      var s := oy.value;
      assert s * (a - 2.0 * b + c) == a - b;
      QuadraticDerivativeForm(cps, s);
      StationaryParameter(a, b, c, s);
    }
  }

  /** p is the curve point at some t in [0, 1] where one coordinate of the derivative vanishes. */
  ghost predicate StationaryOnCurve(cps: seq<Point>, p: Point)
  {
    exists t :: 0.0 <= t <= 1.0 && p == Eval(cps, t) && (Derivative(cps, t).x == 0.0 || Derivative(cps, t).y == 0.0)
  }

  /**
   * Every critical point lies on the curve for a parameter in [0, 1] at which
   * the derivative vanishes on one axis. An axis contributes exactly one point
   * when its parameter exists and lies in [0, 1], and none otherwise; the
   * x-axis one comes first and the y-axis one last.
   */
  lemma CritPointsAreStationary(cps: seq<Point>)
    requires |cps| == 3
    ensures |QuadraticCritPoints(cps)| <= 2
    // one point per axis whose parameter exists and lies in [0, 1], and no other
    ensures var ox := AxisCritical(cps[0].x, cps[1].x, cps[2].x);
      var oy := AxisCritical(cps[0].y, cps[1].y, cps[2].y);
      |QuadraticCritPoints(cps)| ==
        (if ox.Some? && 0.0 <= ox.value <= 1.0 then 1 else 0) + (if oy.Some? && 0.0 <= oy.value <= 1.0 then 1 else 0)
    ensures forall p :: p in QuadraticCritPoints(cps) ==> StationaryOnCurve(cps, p)
    ensures var ox := AxisCritical(cps[0].x, cps[1].x, cps[2].x);
      ox.Some? && 0.0 <= ox.value <= 1.0 ==>
        QuadraticCritPoints(cps)[0] == Eval(cps, ox.value) && Derivative(cps, ox.value).x == 0.0
    ensures var oy := AxisCritical(cps[0].y, cps[1].y, cps[2].y);
      oy.Some? && 0.0 <= oy.value <= 1.0 ==>
        (var r := QuadraticCritPoints(cps);
         r[|r| - 1] == Eval(cps, oy.value) && Derivative(cps, oy.value).y == 0.0)
  {
    AxisXStationary(cps);
    AxisYStationary(cps);
    var ox := AxisCritical(cps[0].x, cps[1].x, cps[2].x);
    var oy := AxisCritical(cps[0].y, cps[1].y, cps[2].y);
    var rx := AcceptCritical(cps, ox);
    var ry := AcceptCritical(cps, oy);
    var r := QuadraticCritPoints(cps);
    assert r == rx + ry;
    forall p | p in r
      ensures StationaryOnCurve(cps, p)
    {
      if p in rx {
        assert p == Eval(cps, ox.value);
      } else {
        assert p in ry;
        assert p == Eval(cps, oy.value);
      }
    }
  }

  /** Control points that are collinear and evenly spaced give no critical point. */
  lemma EvenlySpacedHasNoCritPoints(cps: seq<Point>)
    requires |cps| >= 3
    requires cps[1] == Mul(0.5, Add(cps[0], cps[2]))
    ensures QuadraticCritPoints(cps) == []
  {
  }

  /** The smallest value of a non-empty list, as Python's min. */
  function Min(xs: seq<real>): (m: real)
    requires |xs| > 0
    ensures m in xs && forall v :: v in xs ==> m <= v
  {
    if |xs| == 1 then xs[0]
    else
      var r := Min(xs[1..]);
      assert forall v :: v in xs ==> v == xs[0] || v in xs[1..];
      if xs[0] <= r then xs[0] else r
  }

  /** The largest value of a non-empty list, as Python's max. */
  function Max(xs: seq<real>): (m: real)
    requires |xs| > 0
    ensures m in xs && forall v :: v in xs ==> v <= m
  {
    if |xs| == 1 then xs[0]
    else
      var r := Max(xs[1..]);
      assert forall v :: v in xs ==> v == xs[0] || v in xs[1..];
      if xs[0] >= r then xs[0] else r
  }

  /** An axis-aligned box [[minx, miny], [maxx, maxy]]. */
  datatype Box = Box(lo: Point, hi: Point)

  /** Inclusive on all four edges. */
  predicate InBox(b: Box, p: Point)
  {
    b.lo.x <= p.x <= b.hi.x && b.lo.y <= p.y <= b.hi.y
  }

  function Xs(ps: seq<Point>): (r: seq<real>)
    ensures |r| == |ps| && forall k :: 0 <= k < |ps| ==> r[k] == ps[k].x
  {
    seq(|ps|, k requires 0 <= k < |ps| => ps[k].x)
  }

  function Ys(ps: seq<Point>): (r: seq<real>)
    ensures |r| == |ps| && forall k :: 0 <= k < |ps| ==> r[k] == ps[k].y
  {
    seq(|ps|, k requires 0 <= k < |ps| => ps[k].y)
  }

  lemma CoordinatesListed(ps: seq<Point>)
    ensures forall p :: p in ps ==> p.x in Xs(ps) && p.y in Ys(ps)
  {
    forall p | p in ps
      ensures p.x in Xs(ps) && p.y in Ys(ps)
    {
      var k :| 0 <= k < |ps| && ps[k] == p;
      assert Xs(ps)[k] == p.x && Ys(ps)[k] == p.y;
    }
  }

  /**
   * Bezier.quadratic_bounding_box: the extremes of the first and third control
   * points and of the critical points, per axis.
   */
  function QuadraticBoundingBox(cps: seq<Point>): (b: Box)
    requires |cps| >= 3
    ensures b.lo.x <= b.hi.x && b.lo.y <= b.hi.y
    ensures InBox(b, cps[0]) && InBox(b, cps[2])
    ensures forall p :: p in QuadraticCritPoints(cps) ==> InBox(b, p)
    ensures var ps := BoxCandidates(cps);
      b.lo.x in Xs(ps) && b.hi.x in Xs(ps) && b.lo.y in Ys(ps) && b.hi.y in Ys(ps)
  {
    var crit := QuadraticCritPoints(cps);
    CoordinatesListed(crit);
    Span(BoxCandidates(cps))
  }

  /** The points whose extremes make the box: both ends, then the critical points. */
  function BoxCandidates(cps: seq<Point>): seq<Point>
    requires |cps| >= 3
  {
    [cps[0], cps[2]] + QuadraticCritPoints(cps)
  }

  /** The smallest box holding every point of a non-empty list: each edge is some point's coordinate. */
  function Span(ps: seq<Point>): (b: Box)
    requires |ps| > 0
    ensures b.lo.x <= b.hi.x && b.lo.y <= b.hi.y
    ensures forall p :: p in ps ==> InBox(b, p)
    ensures b.lo.x in Xs(ps) && b.hi.x in Xs(ps) && b.lo.y in Ys(ps) && b.hi.y in Ys(ps)
  {
    CoordinatesListed(ps);
    Box(Point(Min(Xs(ps)), Min(Ys(ps))), Point(Max(Xs(ps)), Max(Ys(ps))))
  }

  /** Bezier.is_in_bounding_box. */
  predicate IsInBoundingBox(cps: seq<Point>, q: Point)
    requires |cps| >= 3
  {
    InBox(QuadraticBoundingBox(cps), q)
  }

  /** Both ends of a quadratic lie in its box. */
  lemma EndpointsInBox(cps: seq<Point>)
    requires |cps| == 3
    ensures IsInBoundingBox(cps, Eval(cps, 0.0)) && IsInBoundingBox(cps, Eval(cps, 1.0))
  {
    EvalAtZero(cps);
    EvalAtOne(cps);
  }

  /** The power form of the closed quadratic. */
  lemma QuadExpand(a: real, b: real, c: real, t: real)
    ensures QuadValue(a, b, c, t) == a + 2.0 * t * (b - a) + t * t * (a - 2.0 * b + c)
  {
    assert (1.0 - t) * (1.0 - t) == 1.0 - 2.0 * t + t * t;
    assert 2.0 * (1.0 - t) * t == 2.0 * t - 2.0 * t * t;
  }

  /** The curve departs from the chord between its end values by t (1 - t) times the second difference. */
  lemma ChordGap(a: real, b: real, c: real, t: real)
    ensures (1.0 - t) * a + t * c - QuadValue(a, b, c, t) == t * (1.0 - t) * (a - 2.0 * b + c)
  {
    QuadExpand(a, b, c, t);
    assert t * (1.0 - t) * (a - 2.0 * b + c) == t * (a - 2.0 * b + c) - t * t * (a - 2.0 * b + c);
  }

  /** A convex combination of two values in [lo, hi] stays in [lo, hi]. */
  lemma ConvexBetween(a: real, c: real, t: real, lo: real, hi: real)
    requires 0.0 <= t <= 1.0
    requires lo <= a <= hi && lo <= c <= hi
    ensures lo <= (1.0 - t) * a + t * c <= hi
  {
    MulNonNegative(1.0 - t, a - lo);
    MulNonNegative(t, c - lo);
    MulNonNegative(1.0 - t, hi - a);
    MulNonNegative(t, hi - c);
  }

  /**
   * With s the stationary parameter (s * den == a - b), the quadratic in
   * vertex form and its offsets from the two end values.
   */
  lemma VertexForms(a: real, b: real, c: real, t: real, s: real, den: real)
    requires den == a - 2.0 * b + c && s * den == a - b
    ensures QuadValue(a, b, c, t) - QuadValue(a, b, c, s) == den * ((t - s) * (t - s))
    ensures QuadValue(a, b, c, t) - a == den * (t * (t - 2.0 * s))
    ensures QuadValue(a, b, c, t) - c == den * ((1.0 - t) * (2.0 * s - 1.0 - t))
  {
    QuadExpand(a, b, c, t);
    QuadExpand(a, b, c, s);
    assert 2.0 * t * (b - a) == -2.0 * t * (s * den);
    assert 2.0 * s * (b - a) == -2.0 * s * (s * den);
    assert c == a + den - 2.0 * (s * den);
  }

  lemma SquareNonNegative(x: real)
    ensures x * x >= 0.0
  {
    if x < 0.0 {
      MulNonNegative(-x, -x);
    }
  }

  /**
   * v lies on one side of the chord value and on the other side of a second
   * value, the side fixed by the sign of the second difference den.
   */
  lemma SignSplit(den: real, w: real, gap: real, v: real, chord: real, other: real)
    requires w >= 0.0 && gap >= 0.0
    requires chord - v == w * den && v - other == den * gap
    ensures den >= 0.0 ==> other <= v <= chord
    ensures den <= 0.0 ==> chord <= v <= other
  {
    if den >= 0.0 {
      MulNonNegative(w, den);
      MulNonNegative(den, gap);
    } else {
      MulNonNegative(w, -den);
      MulNonNegative(-den, gap);
    }
  }

  /**
   * For a curved axis with stationary parameter s, a value on the far side of
   * v from the chord that lies in [lo, hi]: the vertex when s is in [0, 1],
   * otherwise the end nearer to s.
   */
  lemma FarSide(a: real, b: real, c: real, t: real, s: real, den: real, lo: real, hi: real)
    returns (gap: real, other: real)
    requires 0.0 <= t <= 1.0
    requires lo <= a <= hi && lo <= c <= hi
    requires den == a - 2.0 * b + c && s * den == a - b
    requires 0.0 <= s <= 1.0 ==> lo <= QuadValue(a, b, c, s) <= hi
    ensures gap >= 0.0 && lo <= other <= hi
    ensures QuadValue(a, b, c, t) - other == den * gap
  {
    VertexForms(a, b, c, t, s, den);
    if 0.0 <= s <= 1.0 {
      gap, other := (t - s) * (t - s), QuadValue(a, b, c, s);
      SquareNonNegative(t - s);
    } else if s < 0.0 {
      gap, other := t * (t - 2.0 * s), a;
      MulNonNegative(t, t - 2.0 * s);
    } else {
      gap, other := (1.0 - t) * (2.0 * s - 1.0 - t), c;
      MulNonNegative(1.0 - t, 2.0 * s - 1.0 - t);
    }
  }

  /** AxisBounded for a curved axis, given its stationary parameter s. */
  lemma CurvedAxisBounded(a: real, b: real, c: real, t: real, s: real, den: real, lo: real, hi: real)
    requires 0.0 <= t <= 1.0
    requires lo <= a <= hi && lo <= c <= hi
    requires den == a - 2.0 * b + c && s * den == a - b
    requires 0.0 <= s <= 1.0 ==> lo <= QuadValue(a, b, c, s) <= hi
    ensures lo <= QuadValue(a, b, c, t) <= hi
  {
    ChordGap(a, b, c, t);
    ConvexBetween(a, c, t, lo, hi);
    MulNonNegative(t, 1.0 - t);
    var gap, other := FarSide(a, b, c, t, s, den, lo, hi);
    SignSplit(den, t * (1.0 - t), gap, QuadValue(a, b, c, t), (1.0 - t) * a + t * c, other);
  }

  /** One axis of a quadratic on [0, 1] stays within any range holding both ends and the accepted stationary value. */
  lemma AxisBounded(a: real, b: real, c: real, t: real, lo: real, hi: real)
    requires 0.0 <= t <= 1.0
    requires lo <= a <= hi && lo <= c <= hi
    requires var oc := AxisCritical(a, b, c);
      oc.Some? && 0.0 <= oc.value <= 1.0 ==> lo <= QuadValue(a, b, c, oc.value) <= hi
    ensures lo <= QuadValue(a, b, c, t) <= hi
  {
    var den := a - 2.0 * b + c;
    if den == 0.0 {
      // a flat axis is the chord itself
      ChordGap(a, b, c, t);
      ConvexBetween(a, c, t, lo, hi);
    } else {
      var s := (a - b) / den;
      assert s * den == a - b;
      CurvedAxisBounded(a, b, c, t, s, den, lo, hi);
    }
  }

  /** A quadratic lies wholly inside its bounding box on [0, 1]: the box is an enclosure of the curve. */
  lemma CurveInBox(cps: seq<Point>, t: real)
    requires |cps| == 3 && 0.0 <= t <= 1.0
    ensures IsInBoundingBox(cps, Eval(cps, t))
  {
    var bb := QuadraticBoundingBox(cps);
    var crit := QuadraticCritPoints(cps);
    QuadraticForm(cps, t);
    var ox := AxisCritical(cps[0].x, cps[1].x, cps[2].x);
    if ox.Some? && 0.0 <= ox.value <= 1.0 {
      QuadraticForm(cps, ox.value);
      assert crit[0] == Eval(cps, ox.value);
      assert crit[0] in crit;
    }
    AxisBounded(cps[0].x, cps[1].x, cps[2].x, t, bb.lo.x, bb.hi.x);
    var oy := AxisCritical(cps[0].y, cps[1].y, cps[2].y);
    if oy.Some? && 0.0 <= oy.value <= 1.0 {
      QuadraticForm(cps, oy.value);
      assert crit[|crit| - 1] == Eval(cps, oy.value);
      assert crit[|crit| - 1] in crit;
    }
    AxisBounded(cps[0].y, cps[1].y, cps[2].y, t, bb.lo.y, bb.hi.y);
  }

  /** Number of sampling steps; the samples are k / 100 for k = 0 .. 100. */
  const Samples: nat := 100

  function Sample(k: nat): real
  {
    k as real / Samples as real
  }

  /**
   * p is the curve point at sample k, no sample is nearer to q, and every
   * earlier sample is strictly farther.
   */
  ghost predicate NearestSample(cps: seq<Point>, q: Point, p: Point, k: nat)
  {
    && k <= Samples
    && p == Eval(cps, Sample(k))
    && (forall j :: 0 <= j <= Samples ==> Dist2(p, q) <= Dist2(Eval(cps, Sample(j)), q))
    && (forall j :: 0 <= j < k ==> Dist2(Eval(cps, Sample(j)), q) > Dist2(p, q))
  }

  /**
   * Bezier.closest_point: the sampled curve point nearest to q; a later sample
   * replaces the best only when strictly nearer, so ties keep the earliest.
   */
  method ClosestPoint(cps: seq<Point>, q: Point) returns (p: Point)
    ensures exists k :: NearestSample(cps, q, p, k)
  {
    var p0 := PointAt(cps, Sample(0));
    var minDistance := Dist2(p0, q);
    var minK := 0;
    var k := 0;
    while k <= Samples
      invariant 0 <= k <= Samples + 1 && 0 <= minK <= Samples
      invariant minDistance == Dist2(Eval(cps, Sample(minK)), q)
      invariant forall j :: 0 <= j < k ==> minDistance <= Dist2(Eval(cps, Sample(j)), q)
      invariant forall j :: 0 <= j < minK ==> Dist2(Eval(cps, Sample(j)), q) > minDistance
      invariant minK <= k
    {
      var pk := PointAt(cps, Sample(k));
      var distance := Dist2(pk, q);
      if distance < minDistance {
        minDistance := distance;
        minK := k;
      }
      k := k + 1;
    }
    p := PointAt(cps, Sample(minK));
    assert NearestSample(cps, q, p, minK);
  }
}
