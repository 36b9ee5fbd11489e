/**
 * The drawing segments a glyph outline is made of, and the exceptions the
 * glyph code can raise.
 *
 * The segment class itself (line.py) is not part of this model; what the
 * glyph code relies on is its command letter, its flat coordinate list
 * x0, y0, x1, y1, ..., the three context points the linker stamps on it,
 * and coordinate-wise translation and scaling, which leave the letter and
 * the context alone.
 */
module Segments {
  import opened Wrappers
  import opened Geometry

  /** The Python exceptions the glyph code can raise, as values. */
  datatype Error = IndexError | TypeError | ValueError | ZeroDivisionError | RecursionError

  /**
   * One drawing instruction: the command letter, its coordinates, and the
   * previous on-curve point, previous control point and current subpath
   * origin (None where the linker had none to give).
   */
  datatype Segment = Segment(
    ltype: char,
    points: seq<real>,
    lastPoint: Option<Point>,
    lastControl: Option<Point>,
    lastMove: Option<Point>)

  /** Line(c): a fresh segment for a command letter, with no coordinates and no context. */
  function NewSegment(c: char): (s: Segment)
    ensures s.ltype == c && s.points == []
    ensures s.lastPoint.None? && s.lastControl.None? && s.lastMove.None?
  {
    Segment(c, [], None, None, None)
  }

  /** The point (ps[k], ps[k + 1]). */
  function PairAt(ps: seq<real>, k: nat): Point
    requires k + 1 < |ps|
  {
    Point(ps[k], ps[k + 1])
  }

  /** The x value for even positions of a flat coordinate list, the y value for odd ones. */
  function PerAxis(k: nat, x: real, y: real): real
  {
    if k % 2 == 0 then x else y
  }

  /** Every coordinate moved by dx (even positions) or dy (odd positions). */
  function TranslatePoints(ps: seq<real>, dx: real, dy: real): (r: seq<real>)
    ensures |r| == |ps|
  {
    seq(|ps|, k requires 0 <= k < |ps| => ps[k] + PerAxis(k, dx, dy))
  }

  /** Every coordinate multiplied by fx (even positions) or fy (odd positions). */
  function ScalePoints(ps: seq<real>, fx: real, fy: real): (r: seq<real>)
    ensures |r| == |ps|
  {
    seq(|ps|, k requires 0 <= k < |ps| => ps[k] * PerAxis(k, fx, fy))
  }

  /** Line.transform: the coordinates moved, letter and context untouched. */
  function Translated(s: Segment, dx: real, dy: real): (r: Segment)
    ensures r.ltype == s.ltype && |r.points| == |s.points|
    ensures r.lastPoint == s.lastPoint && r.lastControl == s.lastControl && r.lastMove == s.lastMove
  {
    s.(points := TranslatePoints(s.points, dx, dy))
  }

  /** Line.scale: the coordinates scaled, letter and context untouched. */
  function Scaled(s: Segment, fx: real, fy: real): (r: Segment)
    ensures r.ltype == s.ltype && |r.points| == |s.points|
    ensures r.lastPoint == s.lastPoint && r.lastControl == s.lastControl && r.lastMove == s.lastMove
  {
    s.(points := ScalePoints(s.points, fx, fy))
  }

  /** Every segment translated. */
  function TranslateAll(ls: seq<Segment>, dx: real, dy: real): (r: seq<Segment>)
    ensures |r| == |ls|
  {
    seq(|ls|, i requires 0 <= i < |ls| => Translated(ls[i], dx, dy))
  }

  /** Every segment scaled. */
  function ScaleAll(ls: seq<Segment>, fx: real, fy: real): (r: seq<Segment>)
    ensures |r| == |ls|
  {
    seq(|ls|, i requires 0 <= i < |ls| => Scaled(ls[i], fx, fy))
  }

  /** The command letters of a segment list, in order. */
  function Tags(ls: seq<Segment>): (r: seq<char>)
    ensures |r| == |ls|
  {
    seq(|ls|, i requires 0 <= i < |ls| => ls[i].ltype)
  }

  /** Replacing entry i extends the prefix before it by the new entry. */
  lemma UpdatedPrefix(ls: seq<Segment>, i: nat, s: Segment)
    requires i < |ls|
    ensures ls[i := s][..i + 1] == ls[..i] + [s]
  {
    assert ls[i := s][..i + 1][..i] == ls[..i];
  }

  /** Translating by (dx, dy) and then by (-dx, -dy) restores every segment. */
  lemma TranslateUndo(ls: seq<Segment>, dx: real, dy: real)
    ensures TranslateAll(TranslateAll(ls, dx, dy), -dx, -dy) == ls
  {
    var r := TranslateAll(TranslateAll(ls, dx, dy), -dx, -dy);
    forall i | 0 <= i < |ls|
      ensures r[i] == ls[i]
    {
      var ps := ls[i].points;
      var back := TranslatePoints(TranslatePoints(ps, dx, dy), -dx, -dy);
      forall k | 0 <= k < |ps|
        ensures back[k] == ps[k]
      {
        assert PerAxis(k, -dx, -dy) == -PerAxis(k, dx, dy);
      }
      assert back == ps;
    }
  }

  /** Scaling by non-zero factors and then by their reciprocals restores every segment. */
  lemma ScaleUndo(ls: seq<Segment>, fx: real, fy: real)
    requires fx != 0.0 && fy != 0.0
    ensures ScaleAll(ScaleAll(ls, fx, fy), 1.0 / fx, 1.0 / fy) == ls
  {
    var r := ScaleAll(ScaleAll(ls, fx, fy), 1.0 / fx, 1.0 / fy);
    forall i | 0 <= i < |ls|
      ensures r[i] == ls[i]
    {
      var ps := ls[i].points;
      var back := ScalePoints(ScalePoints(ps, fx, fy), 1.0 / fx, 1.0 / fy);
      forall k | 0 <= k < |ps|
        ensures back[k] == ps[k]
      {
        var f := PerAxis(k, fx, fy);
        assert PerAxis(k, 1.0 / fx, 1.0 / fy) == 1.0 / f;
        assert f * (1.0 / f) == 1.0;
        assert back[k] == ps[k] * f * (1.0 / f);
      }
      assert back == ps;
    }
  }

  /** Mirroring the y axis twice, as scale(1, -1) does, is the identity. */
  lemma FlipTwice(ls: seq<Segment>)
    ensures ScaleAll(ScaleAll(ls, 1.0, -1.0), 1.0, -1.0) == ls
  {
    ScaleUndo(ls, 1.0, -1.0);
  }

  /**
   * Scaling by f and then translating by (dx, dy) maps coordinate k of every
   * segment to f * c + dx (even k) or f * c + dy (odd k), and keeps letters,
   * lengths and context.
   */
  lemma ScaleThenTranslate(ls: seq<Segment>, f: real, dx: real, dy: real)
    ensures var r := TranslateAll(ScaleAll(ls, f, f), dx, dy);
      |r| == |ls| &&
      forall i :: 0 <= i < |ls| ==>
        && r[i].ltype == ls[i].ltype
        && r[i].lastPoint == ls[i].lastPoint && r[i].lastControl == ls[i].lastControl && r[i].lastMove == ls[i].lastMove
        && |r[i].points| == |ls[i].points|
        && forall k :: 0 <= k < |ls[i].points| ==> r[i].points[k] == f * ls[i].points[k] + PerAxis(k, dx, dy)
  {
    var r := TranslateAll(ScaleAll(ls, f, f), dx, dy);
    forall i | 0 <= i < |ls|
      ensures forall k :: 0 <= k < |ls[i].points| ==> r[i].points[k] == f * ls[i].points[k] + PerAxis(k, dx, dy)
    {
      forall k | 0 <= k < |ls[i].points|
        ensures r[i].points[k] == f * ls[i].points[k] + PerAxis(k, dx, dy)
      {
        assert PerAxis(k, f, f) == f;
      }
    }
  }
}
