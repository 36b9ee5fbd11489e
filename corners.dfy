/**
 * The predecessor rule (Glyph.last_line) and the sharp-corner filter
 * (Glyph.sharp_corners) of glyph.py, over a linked segment list.
 *
 * Segments are named by their index. The source finds a segment's index
 * with list.index, which compares with ==; Line (line.py is not part of this
 * model) is taken to have no equality of its own, so == is identity and the
 * index found is the segment's position.
 *
 * The corner test of the source compares the z-component of the cross
 * product of the two unit tangents with 0.1. Here it is stated on the
 * un-normalised directions u and v as cross(u, v) > 0 and
 * 100 cross(u, v)^2 > |u|^2 |v|^2, which is the same test without square
 * roots (TurnTestMatchesUnitVectors); a zero direction never passes, as a
 * zero or NaN tangent never passes in the source.
 */
module Corners {
  import opened Wrappers
  import opened Geometry
  import opened Segments
  import opened BezierTools

  /** lines[i - 1] in Python: the previous index, wrapping to the last one from 0. */
  function Prev(n: nat, i: nat): (j: nat)
    requires i < n
    ensures j < n && (j + 1) % n == i
  {
    if i == 0 then
      WrapsToZero(n); n - 1
    else
      BelowModulus(i, n); i - 1
  }

  /** A value below the modulus is its own remainder. */
  lemma BelowModulus(x: nat, n: nat)
    requires x < n
    ensures x % n == x
  {
    assert x == 0 * n + x;
  }

  /** The modulus leaves no remainder. */
  lemma WrapsToZero(n: nat)
    requires n > 0
    ensures n % n == 0
  {
    assert n == 1 * n + 0;
  }

  /** The first index at or after i holding a closepath 'Z', if any. */
  function FirstCloseFrom(ls: seq<Segment>, i: nat): (r: Option<nat>)
    requires i <= |ls|
    ensures r.Some? ==> i <= r.value < |ls| && ls[r.value].ltype == 'Z'
    ensures r.Some? ==> forall k :: i <= k < r.value ==> ls[k].ltype != 'Z'
    ensures r.None? ==> forall k :: i <= k < |ls| ==> ls[k].ltype != 'Z'
    decreases |ls| - i
  {
    if i == |ls| then None
    else if ls[i].ltype == 'Z' then Some(i)
    else FirstCloseFrom(ls, i + 1)
  }

  /**
   * last_line with at most fuel recursive calls: for a move, the first 'Z'
   * at or after it; otherwise the previous segment (wrapping), and when
   * that is a move, the rule applied to it. Running out of fuel is the
   * RecursionError of the unbounded recursion.
   */
  function LastLineFrom(ls: seq<Segment>, i: nat, fuel: nat): (r: Result<nat, Error>)
    requires i < |ls|
    ensures r.Success? ==> r.value < |ls| && ls[r.value].ltype != 'M'
    ensures r.Failure? ==> r.error == RecursionError
    decreases fuel
  {
    if ls[i].ltype == 'M' && FirstCloseFrom(ls, i).Some? then Success(FirstCloseFrom(ls, i).value)
    else
      var j := Prev(|ls|, i);
      if ls[j].ltype != 'M' then Success(j)
      else if fuel == 0 then Failure(RecursionError)
      else LastLineFrom(ls, j, fuel - 1)
  }

  /** Glyph.last_line for the segment at index i. */
  function LastLine(ls: seq<Segment>, i: nat): (r: Result<nat, Error>)
    requires i < |ls|
    ensures r.Success? ==> r.value < |ls| && ls[r.value].ltype != 'M'
  {
    LastLineFrom(ls, i, |ls|)
  }

  /** How many backward (wrapping) steps lead from i to k: between 1 and n. */
  function Back(n: nat, i: nat, k: nat): (d: nat)
    requires i < n && k < n
    ensures 1 <= d <= n
  {
    if k < i then i - k else i + n - k
  }

  /** With a non-move segment within fuel + 1 backward steps, the walk ends there or earlier. */
  lemma {:induction false} LastLineReaches(ls: seq<Segment>, i: nat, k: nat, fuel: nat)
    requires i < |ls| && k < |ls| && ls[k].ltype != 'M' && Back(|ls|, i, k) <= fuel + 1
    ensures LastLineFrom(ls, i, fuel).Success?
    decreases fuel
  {
    var j := Prev(|ls|, i);
    if !(ls[i].ltype == 'M' && FirstCloseFrom(ls, i).Some?) && ls[j].ltype == 'M' {
      assert j != k;
      assert Back(|ls|, j, k) == Back(|ls|, i, k) - 1;
      LastLineReaches(ls, j, k, fuel - 1);
    }
  }

  /** With every segment a move, the walk never ends. */
  lemma {:induction false} AllMovesNeverEnd(ls: seq<Segment>, i: nat, fuel: nat)
    requires i < |ls| && forall k :: 0 <= k < |ls| ==> ls[k].ltype == 'M'
    ensures LastLineFrom(ls, i, fuel) == Failure(RecursionError)
    decreases fuel
  {
    if fuel > 0 {
      AllMovesNeverEnd(ls, Prev(|ls|, i), fuel - 1);
    }
  }

  /**
   * last_line raises RecursionError exactly when every segment is a move;
   * otherwise it names a segment that is not a move.
   */
  lemma LastLineFails(ls: seq<Segment>, i: nat)
    requires i < |ls|
    ensures LastLine(ls, i).Failure? <==> forall k :: 0 <= k < |ls| ==> ls[k].ltype == 'M'
    ensures LastLine(ls, i).Failure? ==> LastLine(ls, i).error == RecursionError
    ensures LastLine(ls, i).Success? ==> ls[LastLine(ls, i).value].ltype != 'M'
  {
    if forall k :: 0 <= k < |ls| ==> ls[k].ltype == 'M' {
      AllMovesNeverEnd(ls, i, |ls|);
    } else {
      var k :| 0 <= k < |ls| && ls[k].ltype != 'M';
      LastLineReaches(ls, i, k, |ls|);
    }
  }

  /** More fuel does not change a walk that ends. */
  lemma {:induction false} FuelIrrelevant(ls: seq<Segment>, i: nat, f: nat, g: nat)
    requires i < |ls| && f <= g && LastLineFrom(ls, i, f).Success?
    ensures LastLineFrom(ls, i, g) == LastLineFrom(ls, i, f)
    decreases f
  {
    var j := Prev(|ls|, i);
    if !(ls[i].ltype == 'M' && FirstCloseFrom(ls, i).Some?) && ls[j].ltype == 'M' {
      FuelIrrelevant(ls, j, f - 1, g - 1);
    }
  }

  /** For a move, last_line is the first closepath at or after it, when there is one. */
  lemma LastLineOfMove(ls: seq<Segment>, i: nat, z: nat)
    requires i < |ls| && ls[i].ltype == 'M' && FirstCloseFrom(ls, i) == Some(z)
    ensures LastLine(ls, i) == Success(z)
    ensures i <= z && ls[z].ltype == 'Z'
  {
  }

  /**
   * Otherwise last_line is lines[i - 1] (the last segment for i = 0) when
   * that is not a move, and the rule applied to it when it is.
   */
  lemma LastLineOfOther(ls: seq<Segment>, i: nat)
    requires i < |ls| && !(ls[i].ltype == 'M' && FirstCloseFrom(ls, i).Some?)
    ensures var j := Prev(|ls|, i);
      LastLine(ls, i) == if ls[j].ltype != 'M' then Success(j) else LastLine(ls, j)
  {
    var j := Prev(|ls|, i);
    if ls[j].ltype == 'M' {
      if exists k :: 0 <= k < |ls| && ls[k].ltype != 'M' {
        var k :| 0 <= k < |ls| && ls[k].ltype != 'M';
        OneStepShortWithLine(ls, j, k);
      } else {
        OneStepShortAllMoves(ls, j);
      }
    }
  }

  /** With a segment other than a move somewhere, one step less of fuel finds the same segment. */
  lemma OneStepShortWithLine(ls: seq<Segment>, j: nat, k: nat)
    requires j < |ls| && k < |ls| && ls[k].ltype != 'M'
    ensures LastLineFrom(ls, j, |ls| - 1) == LastLineFrom(ls, j, |ls|)
  {
    LastLineReaches(ls, j, k, |ls| - 1);
    FuelIrrelevant(ls, j, |ls| - 1, |ls|);
  }

  /** On moves alone, one step less of fuel fails just the same. */
  lemma OneStepShortAllMoves(ls: seq<Segment>, j: nat)
    requires j < |ls| && forall k :: 0 <= k < |ls| ==> ls[k].ltype == 'M'
    ensures LastLineFrom(ls, j, |ls| - 1) == LastLineFrom(ls, j, |ls|)
  {
    AllMovesNeverEnd(ls, j, |ls| - 1);
    AllMovesNeverEnd(ls, j, |ls|);
  }

  /** The closing edge of a 'Z': from its stamped point back to the subpath origin; missing context is a TypeError. */
  function CloseEdge(s: Segment): (r: Result<Point, Error>)
    ensures r.Failure? <==> s.lastPoint.None? || s.lastMove.None?
    ensures r.Failure? ==> r.error == TypeError
    ensures r.Success? ==> Add(s.lastPoint.value, r.value) == s.lastMove.value
  {
    if s.lastMove.None? || s.lastPoint.None? then Failure(TypeError)
    else Success(Sub(s.lastMove.value, s.lastPoint.value))
  }

  /** A segment drawn as a quadratic: the stamped point and its first two coordinate pairs. */
  function QuadOf(s: Segment): (r: Result<seq<Point>, Error>)
    ensures r.Failure? <==> s.lastPoint.None? || |s.points| < 4
    ensures r.Failure? ==> r.error == ValueError
    ensures r.Success? ==> |r.value| == 3 && r.value[0] == s.lastPoint.value
  {
    if s.lastPoint.None? || |s.points| < 4 then Failure(ValueError)
    else Success([s.lastPoint.value, PairAt(s.points, 0), PairAt(s.points, 2)])
  }

  /**
   * The direction in which a segment leaves its stamped point (first
   * tangent, before normalisation): the closing edge for 'Z', the edge to
   * the first pair for 'L', the quadratic's derivative at 0 otherwise.
   */
  function StartDirection(s: Segment): (r: Result<Point, Error>)
    requires s.ltype != 'M'
    ensures r.Success? ==> s.lastPoint.Some?
    // 'L': from the stamped point to the first pair; an empty list is read first
    ensures s.ltype == 'L' ==> (r.Failure? <==> s.lastPoint.None? || |s.points| < 2)
    ensures s.ltype == 'L' && r.Failure? ==>
      r.error == if s.lastPoint.None? && |s.points| > 0 then TypeError else IndexError
    ensures s.ltype == 'L' && r.Success? ==> Add(s.lastPoint.value, r.value) == PairAt(s.points, 0)
    // 'Z': the closing edge, from the stamped point to the subpath origin
    ensures s.ltype == 'Z' ==> (r.Failure? <==> s.lastPoint.None? || s.lastMove.None?)
    ensures s.ltype == 'Z' && r.Failure? ==> r.error == TypeError
    ensures s.ltype == 'Z' && r.Success? ==> Add(s.lastPoint.value, r.value) == s.lastMove.value
    // any other letter is drawn as a quadratic
    ensures s.ltype != 'L' && s.ltype != 'Z' ==> (r.Failure? <==> s.lastPoint.None? || |s.points| < 4)
    ensures s.ltype != 'L' && s.ltype != 'Z' && r.Failure? ==> r.error == ValueError
  {
    if s.ltype == 'Z' then CloseEdge(s)
    else if s.ltype == 'L' then
      if |s.points| == 0 then Failure(IndexError)
      else if s.lastPoint.None? then Failure(TypeError)
      else if |s.points| < 2 then Failure(IndexError)
      else Success(Sub(PairAt(s.points, 0), s.lastPoint.value))
    else
      var q := QuadOf(s);
      if q.Failure? then Failure(q.error) else Success(Derivative(q.value, 0.0))
  }

  /**
   * The direction pointing back along a segment from its end (second
   * tangent, before normalisation): back to the stamped point for 'L', to
   * the end of the closing edge for 'Z', minus the quadratic's derivative
   * at 1 otherwise.
   */
  function EndDirection(s: Segment): (r: Result<Point, Error>)
    ensures r.Success? ==> s.lastPoint.Some?
    // 'L': from the first pair back to the stamped point
    ensures s.ltype == 'L' ==> (r.Failure? <==> s.lastPoint.None? || |s.points| < 2)
    ensures s.ltype == 'L' && r.Failure? ==> r.error == if s.lastPoint.None? then TypeError else IndexError
    ensures s.ltype == 'L' && r.Success? ==> Add(PairAt(s.points, 0), r.value) == s.lastPoint.value
    // 'Z': from the subpath origin back to the stamped point
    ensures s.ltype == 'Z' ==> (r.Failure? <==> s.lastPoint.None? || s.lastMove.None?)
    ensures s.ltype == 'Z' && r.Failure? ==> r.error == TypeError
    ensures s.ltype == 'Z' && r.Success? ==> Add(s.lastMove.value, r.value) == s.lastPoint.value
    // any other letter is drawn as a quadratic
    ensures s.ltype != 'L' && s.ltype != 'Z' ==> (r.Failure? <==> s.lastPoint.None? || |s.points| < 4)
    ensures s.ltype != 'L' && s.ltype != 'Z' && r.Failure? ==> r.error == ValueError
  {
    if s.ltype == 'L' then
      if s.lastPoint.None? then Failure(TypeError)
      else if |s.points| < 2 then Failure(IndexError)
      else Success(Sub(s.lastPoint.value, PairAt(s.points, 0)))
    else if s.ltype == 'Z' then
      if s.lastPoint.None? || s.lastMove.None? then Failure(TypeError)
      else Success(Sub(s.lastPoint.value, s.lastMove.value))
    else
      var q := QuadOf(s);
      if q.Failure? then Failure(q.error) else Success(Mul(-1.0, Derivative(q.value, 1.0)))
  }

  /** A quadratic leaves its start towards its first control point, at twice that distance. */
  lemma QuadraticStartDirection(s: Segment)
    requires s.ltype != 'M' && s.ltype != 'Z' && s.ltype != 'L'
    requires s.lastPoint.Some? && |s.points| >= 4
    ensures StartDirection(s) == Success(Mul(2.0, Sub(PairAt(s.points, 0), s.lastPoint.value)))
  {
    DerivativeAtStart(QuadOf(s).value);
  }

  /** A quadratic's end points back towards its control point, at twice that distance. */
  lemma QuadraticEndDirection(s: Segment)
    requires s.ltype != 'L' && s.ltype != 'Z'
    requires s.lastPoint.Some? && |s.points| >= 4
    ensures EndDirection(s) == Success(Mul(2.0, Sub(PairAt(s.points, 0), PairAt(s.points, 2))))
  {
    var q := QuadOf(s).value;
    DerivativeAtEnd(q);
    assert q[2] == PairAt(s.points, 2) && q[1] == PairAt(s.points, 0);
  }

  /** The turning test: the unit tangents' cross product exceeds 0.1, squared out. */
  predicate SharpTurn(u: Point, v: Point)
  {
    Cross(u, v) > 0.0 && 100.0 * (Cross(u, v) * Cross(u, v)) > Norm2(u) * Norm2(v)
  }

  /** A zero direction never makes a corner. */
  lemma ZeroDirectionNeverSharp(u: Point)
    ensures !SharpTurn(Origin, u) && !SharpTurn(u, Origin)
  {
  }

  /**
   * Given the lengths nu = |u| and nv = |v|, the test is the source's
   * cross(u / |u|, v / |v|) > 0.1.
   */
  lemma TurnTestMatchesUnitVectors(u: Point, v: Point, nu: real, nv: real)
    requires nu > 0.0 && nv > 0.0 && nu * nu == Norm2(u) && nv * nv == Norm2(v)
    ensures SharpTurn(u, v) <==> Cross(Mul(1.0 / nu, u), Mul(1.0 / nv, v)) > 0.1
  {
    var c := Cross(u, v);
    var n := nu * nv;
    assert n > 0.0;
    assert Cross(Mul(1.0 / nu, u), Mul(1.0 / nv, v)) == c / n by {
      CrossScales(u, v, 1.0 / nu, 1.0 / nv);
    }
    ProductOfSquares(nu, nv, Norm2(u), Norm2(v));
    SquareCompare(c, n);
  }

  /** a b = (nu nv)^2 when a = nu^2 and b = nv^2. */
  lemma ProductOfSquares(nu: real, nv: real, a: real, b: real)
    requires a == nu * nu && b == nv * nv
    ensures a * b == (nu * nv) * (nu * nv)
  {
  }

  /** Cross(a u, b v) = a b Cross(u, v). */
  lemma CrossScales(u: Point, v: Point, a: real, b: real)
    ensures Cross(Mul(a, u), Mul(b, v)) == (a * b) * Cross(u, v)
  {
  }

  /** For n > 0: c / n > 0.1 iff c > 0 and 100 c^2 > n^2. */
  lemma SquareCompare(c: real, n: real)
    requires n > 0.0
    ensures c / n > 0.1 <==> c > 0.0 && 100.0 * (c * c) > n * n
  {
    var q := c / n;
    assert c == n * q;
    ScaledCompare(n, q, 0.1);
    if q > 0.1 {
      assert c > 0.1 * n;
      assert 10.0 * c > n;
      assert 100.0 * (c * c) > n * n by {
        assert (10.0 * c) * (10.0 * c) > n * n by {
          assert (10.0 * c) * (10.0 * c) > (10.0 * c) * n;
          assert (10.0 * c) * n > n * n;
        }
      }
    }
    if c > 0.0 && 100.0 * (c * c) > n * n {
      assert (10.0 * c) * (10.0 * c) > n * n;
      assert c > 0.1 * n;
    }
  }

  /** Stretching either direction by a positive factor does not change the test. */
  lemma TurnTestScaleInvariant(u: Point, v: Point, a: real, b: real)
    requires a > 0.0 && b > 0.0
    ensures SharpTurn(Mul(a, u), Mul(b, v)) <==> SharpTurn(u, v)
  {
    assert Cross(Mul(a, u), Mul(b, v)) == (a * b) * Cross(u, v) by {
      CrossScales(u, v, a, b);
    }
    assert Norm2(Mul(a, u)) == (a * a) * Norm2(u);
    assert Norm2(Mul(b, v)) == (b * b) * Norm2(v);
    ScaledTurn(Cross(u, v), Norm2(u), Norm2(v), a, b,
      Cross(Mul(a, u), Mul(b, v)), Norm2(Mul(a, u)), Norm2(Mul(b, v)));
  }

  /** The turning test on x = a b c, n1 = a^2 nu, n2 = b^2 nv is the test on c, nu, nv. */
  lemma ScaledTurn(c: real, nu: real, nv: real, a: real, b: real, x: real, n1: real, n2: real)
    requires a > 0.0 && b > 0.0
    requires x == (a * b) * c && n1 == (a * a) * nu && n2 == (b * b) * nv
    ensures (x > 0.0 && 100.0 * (x * x) > n1 * n2) <==> (c > 0.0 && 100.0 * (c * c) > nu * nv)
  {
    MulPositive(a, b);
    ProductRegroup(a, b, nu, nv, n1, n2);
    SquareRegroup(a * b, c, x);
    ScaledCompare(a * b, 100.0 * (c * c), nu * nv);
    ScaledCompare(a * b, (a * b) * (100.0 * (c * c)), (a * b) * (nu * nv));
    ScaledCompare(a * b, c, 0.0);
  }

  lemma MulPositive(a: real, b: real)
    requires a > 0.0 && b > 0.0
    ensures a * b > 0.0
  {
  }

  lemma SquareRegroup(k: real, c: real, x: real)
    requires x == k * c
    ensures 100.0 * (x * x) == k * (k * (100.0 * (c * c)))
  {
  }

  lemma ProductRegroup(a: real, b: real, x: real, y: real, n1: real, n2: real)
    requires n1 == (a * a) * x && n2 == (b * b) * y
    ensures n1 * n2 == (a * b) * ((a * b) * (x * y))
  {
  }

  /** Multiplying both sides by m > 0 keeps a strict comparison. */
  lemma ScaledCompare(m: real, x: real, y: real)
    requires m > 0.0
    ensures m * x > m * y <==> x > y
  {
    if x > y {
      assert m * x - m * y == m * (x - y);
    }
    if m * x > m * y {
      assert m * (x - y) > 0.0;
    }
  }

  /**
   * The predecessor the corner test uses: last_line, replaced once by its
   * own last_line when it is a 'Z' whose closing edge has zero length.
   */
  function Predecessor(ls: seq<Segment>, j: nat): (r: Result<nat, Error>)
    requires j < |ls|
    ensures r.Success? ==> r.value < |ls|
    ensures ls[j].ltype != 'Z' ==> r == Success(j)
    ensures ls[j].ltype == 'Z' && (ls[j].lastPoint.None? || ls[j].lastMove.None?) ==> r == Failure(TypeError)
    // a 'Z' whose closing edge has length zero is passed over to its own last_line
    ensures ls[j].ltype == 'Z' && ls[j].lastPoint.Some? && ls[j].lastPoint == ls[j].lastMove ==>
      r == LastLine(ls, j)
    ensures ls[j].ltype == 'Z' && ls[j].lastPoint.Some? && ls[j].lastMove.Some? && ls[j].lastPoint != ls[j].lastMove ==>
      r == Success(j)
  {
    if ls[j].ltype == 'Z' then
      var e := CloseEdge(ls[j]);
      if e.Failure? then Failure(e.error)
      else if e.value == Origin then LastLine(ls, j)
      else Success(j)
    else Success(j)
  }

  /** What segment i contributes: an error, no corner, or its stamped point as a corner. */
  function CornerAt(ls: seq<Segment>, i: nat): (r: Result<Option<Point>, Error>)
    requires i < |ls|
    ensures r.Success? && r.value.Some? ==> ls[i].ltype != 'M' && ls[i].lastPoint == r.value
    ensures LastLine(ls, i).Failure? ==> r == Failure(RecursionError)
  {
    var s := ls[i];
    var last := LastLine(ls, i);
    if last.Failure? then Failure(last.error)
    else if s.ltype == 'Z' && CloseEdge(s).Failure? then Failure(CloseEdge(s).error)
    else if s.ltype == 'Z' && CloseEdge(s).value == Origin then Success(None)
    else
      var pred := Predecessor(ls, last.value);
      if pred.Failure? then Failure(pred.error)
      else if s.ltype == 'M' then Success(None)
      else
        var first := StartDirection(s);
        if first.Failure? then Failure(first.error)
        else
          var second := EndDirection(ls[pred.value]);
          if second.Failure? then Failure(second.error)
          else if SharpTurn(first.value, second.value) then Success(Some(s.lastPoint.value))
          else Success(None)
  }

  /** What each segment contributes, in segment order. */
  function CornerResults(ls: seq<Segment>): seq<Result<Option<Point>, Error>>
  {
    seq(|ls|, i requires 0 <= i < |ls| => CornerAt(ls, i))
  }

  /** The accumulator of the scan: the reported points in order; the first error stops it. */
  function Collect(rs: seq<Result<Option<Point>, Error>>): (r: Result<seq<Point>, Error>)
    ensures r.Success? ==> |r.value| <= |rs|
  {
    if |rs| == 0 then Success([])
    else
      var prev := Collect(rs[..|rs| - 1]);
      var c := rs[|rs| - 1];
      if prev.Failure? then prev
      else if c.Failure? then Failure(c.error)
      else if c.value.Some? then Success(prev.value + [c.value.value])
      else prev
  }

  /** Glyph.sharp_corners. */
  function SharpCorners(ls: seq<Segment>): (r: Result<seq<Point>, Error>)
    ensures r.Success? ==> |r.value| <= |ls|
  {
    Collect(CornerResults(ls))
  }

  /** A move never produces a corner. */
  lemma MoveNeverCorner(ls: seq<Segment>, i: nat)
    requires i < |ls| && ls[i].ltype == 'M' && CornerAt(ls, i).Success?
    ensures CornerAt(ls, i).value.None?
  {
  }

  /** A closepath whose closing edge has zero length never produces a corner (and raises nothing). */
  lemma ZeroCloseNeverCorner(ls: seq<Segment>, i: nat)
    requires i < |ls| && ls[i].ltype == 'Z'
    requires ls[i].lastPoint.Some? && ls[i].lastPoint == ls[i].lastMove
    ensures CornerAt(ls, i) == Success(None)
  {
    LastLineFails(ls, i);
    var p := ls[i].lastPoint.value;
    assert Sub(p, p) == Origin;
  }

  /**
   * A corner is the stamped point of a segment that is not a move and
   * whose leaving direction turns sharply left against the direction back
   * along its predecessor.
   */
  lemma CornerIsSharpTurn(ls: seq<Segment>, i: nat, p: Point)
    requires i < |ls| && CornerAt(ls, i) == Success(Some(p))
    ensures ls[i].ltype != 'M' && ls[i].lastPoint == Some(p)
    ensures LastLine(ls, i).Success? && Predecessor(ls, LastLine(ls, i).value).Success?
    ensures var j := Predecessor(ls, LastLine(ls, i).value).value;
      StartDirection(ls[i]).Success? && EndDirection(ls[j]).Success? &&
      SharpTurn(StartDirection(ls[i]).value, EndDirection(ls[j]).value)
  {
  }

  /**
   * Conversely, a segment other than a move whose closing edge (if it is a
   * 'Z') is not zero, and whose directions exist and turn sharply, is
   * reported with its stamped point.
   */
  lemma SharpTurnIsCorner(ls: seq<Segment>, i: nat, j: nat, k: nat, u: Point, v: Point)
    requires i < |ls| && ls[i].ltype != 'M'
    requires LastLine(ls, i) == Success(j) && j < |ls| && Predecessor(ls, j) == Success(k)
    requires ls[i].ltype == 'Z' ==> CloseEdge(ls[i]).Success? && CloseEdge(ls[i]).value != Origin
    requires StartDirection(ls[i]) == Success(u) && k < |ls| && EndDirection(ls[k]) == Success(v)
    requires SharpTurn(u, v)
    ensures CornerAt(ls, i) == Success(Some(ls[i].lastPoint.value))
  {
  }

  /** The positions of rs that report a point, in increasing order. */
  function Reporting(rs: seq<Result<Option<Point>, Error>>): (r: seq<nat>)
    ensures forall k :: 0 <= k < |r| ==> r[k] < |rs|
  {
    if |rs| == 0 then []
    else
      var prev := Reporting(rs[..|rs| - 1]);
      var c := rs[|rs| - 1];
      if c.Success? && c.value.Some? then prev + [|rs| - 1] else prev
  }

  /**
   * The scan fails exactly when some segment raises, and then with the
   * error of the first one that does.
   */
  lemma {:induction false} CollectFails(rs: seq<Result<Option<Point>, Error>>)
    ensures Collect(rs).Failure? <==> exists i :: 0 <= i < |rs| && rs[i].Failure?
    ensures Collect(rs).Failure? ==>
      exists i :: 0 <= i < |rs| && rs[i] == Failure(Collect(rs).error) && (forall k :: 0 <= k < i ==> rs[k].Success?)
  {
    if |rs| > 0 {
      var p := rs[..|rs| - 1];
      CollectFails(p);
      if Collect(p).Failure? {
        var i :| 0 <= i < |p| && p[i] == Failure(Collect(p).error) && (forall k :: 0 <= k < i ==> p[k].Success?);
        assert rs[i] == p[i];
        assert forall k :: 0 <= k < i ==> rs[k] == p[k];
      } else {
        assert forall k :: 0 <= k < |p| ==> rs[k] == p[k];
      }
    }
  }

  /** An error in a prefix is the error of the whole scan. */
  lemma {:induction false} CollectSticks(rs: seq<Result<Option<Point>, Error>>, n: nat)
    requires n <= |rs| && Collect(rs[..n]).Failure?
    ensures Collect(rs) == Collect(rs[..n])
    decreases |rs| - n
  {
    if n < |rs| {
      assert rs[..n + 1][..n] == rs[..n];
      CollectSticks(rs, n + 1);
    } else {
      assert rs[..n] == rs;
    }
  }

  /**
   * A successful scan reports, in segment order and at most once per
   * segment, exactly the points of the segments that report one.
   */
  lemma {:induction false} CollectInOrder(rs: seq<Result<Option<Point>, Error>>)
    requires Collect(rs).Success?
    ensures var cs := Collect(rs).value;
      var idx := Reporting(rs);
      |cs| == |idx| &&
      (forall k :: 0 <= k < |idx| ==> rs[idx[k]] == Success(Some(cs[k]))) &&
      (forall k, m :: 0 <= k < m < |idx| ==> idx[k] < idx[m]) &&
      (forall i :: 0 <= i < |rs| && rs[i].Success? && rs[i].value.Some? ==> i in idx)
  {
    if |rs| > 0 {
      var p := rs[..|rs| - 1];
      CollectInOrder(p);
      assert forall k :: 0 <= k < |p| ==> rs[k] == p[k];
    }
  }

  /**
   * sharp_corners reports, in segment order and at most once per segment,
   * the corners of exactly the segments that produce one.
   */
  lemma CornersInSegmentOrder(ls: seq<Segment>)
    requires SharpCorners(ls).Success?
    ensures var cs := SharpCorners(ls).value;
      var idx := Reporting(CornerResults(ls));
      |cs| == |idx| &&
      (forall k :: 0 <= k < |idx| ==> idx[k] < |ls| && CornerAt(ls, idx[k]) == Success(Some(cs[k]))) &&
      (forall k, m :: 0 <= k < m < |idx| ==> idx[k] < idx[m]) &&
      (forall i :: 0 <= i < |ls| && CornerAt(ls, i).Success? && CornerAt(ls, i).value.Some? ==> i in idx)
  {
    CollectInOrder(CornerResults(ls));
  }
}
