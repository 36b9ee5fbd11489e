/**
 * The linking pass of glyph.py (Glyph.__process_lines): one pass over the
 * segments with a rolling cursor (previous on-curve point, previous control
 * point, current subpath origin) that stamps every segment with the cursor
 * as it stood before that segment.
 *
 * The source keeps each point as two separate x and y variables that are
 * always assigned together; here each is one Option<Point>.
 */
module Linker {
  import opened Wrappers
  import opened Geometry
  import opened Segments

  /** The rolling state: last on-curve point, last control point, last move point. */
  datatype Cursor = Cursor(point: Option<Point>, control: Option<Point>, origin: Option<Point>)

  const Initial: Cursor := Cursor(None, None, None)

  /** A move command without a full coordinate pair: reading its origin raises IndexError. */
  predicate ShortMove(s: Segment)
  {
    s.ltype == 'M' && |s.points| < 2
  }

  /** The segment with the cursor recorded as its context. */
  function Stamp(s: Segment, c: Cursor): (r: Segment)
    ensures r.ltype == s.ltype && r.points == s.points
    ensures r.lastPoint == c.point && r.lastControl == c.control && r.lastMove == c.origin
  {
    s.(lastPoint := c.point, lastControl := c.control, lastMove := c.origin)
  }

  /** The first coordinate pair of ps. */
  function FirstPair(ps: seq<real>): Point
    requires |ps| >= 2
  {
    PairAt(ps, 0)
  }

  /** The last coordinate pair of ps. */
  function LastPair(ps: seq<real>): Point
    requires |ps| >= 2
  {
    PairAt(ps, |ps| - 2)
  }

  /**
   * The cursor after one segment: a move sets the origin to its first pair;
   * a segment with a pair sets the point to its last pair and the control
   * point to its first pair (or clears it, with fewer than four
   * coordinates); a segment without a pair clears the point and keeps the
   * control point.
   */
  function Advance(s: Segment, c: Cursor): (r: Result<Cursor, Error>)
    ensures r.Failure? <==> ShortMove(s)
    ensures r.Failure? ==> r.error == IndexError
  {
    if ShortMove(s) then Failure(IndexError)
    else
      var origin := if s.ltype == 'M' then Some(FirstPair(s.points)) else c.origin;
      if |s.points| >= 2 then
        Success(Cursor(Some(LastPair(s.points)),
                       if |s.points| >= 4 then Some(FirstPair(s.points)) else None,
                       origin))
      else
        Success(Cursor(None, c.control, origin))
  }

  /** The linked segments so far and the cursor after them. */
  datatype Linked = Linked(lines: seq<Segment>, cursor: Cursor)

  /** The pass over ls, segment by segment; a short move stops it with IndexError. */
  function LinkRun(ls: seq<Segment>): (r: Result<Linked, Error>)
  {
    if |ls| == 0 then Success(Linked([], Initial))
    else
      var prev := LinkRun(ls[..|ls| - 1]);
      if prev.Failure? then prev
      else
        var s := ls[|ls| - 1];
        var next := Advance(s, prev.value.cursor);
        if next.Failure? then Failure(next.error)
        else Success(Linked(prev.value.lines + [Stamp(s, prev.value.cursor)], next.value))
  }

  /** The pass fails, with IndexError, exactly when some move has no full pair. */
  lemma {:induction false} LinkFailsOnShortMove(ls: seq<Segment>)
    ensures LinkRun(ls).Failure? <==> exists i :: 0 <= i < |ls| && ShortMove(ls[i])
    ensures LinkRun(ls).Failure? ==> LinkRun(ls).error == IndexError
  {
    if |ls| > 0 {
      var p := ls[..|ls| - 1];
      LinkFailsOnShortMove(p);
      if exists i :: 0 <= i < |p| && ShortMove(p[i]) {
        var i :| 0 <= i < |p| && ShortMove(p[i]);
        assert ls[i] == p[i];
      }
      if exists i :: 0 <= i < |ls| && ShortMove(ls[i]) {
        var i :| 0 <= i < |ls| && ShortMove(ls[i]);
        if i < |p| {
          assert p[i] == ls[i];
        }
      }
    }
  }

  /**
   * A successful pass keeps every segment's letter and coordinates and
   * stamps segment i with the cursor left by the segments before it.
   */
  lemma {:induction false} StampedWithCursorBefore(ls: seq<Segment>, i: nat)
    requires LinkRun(ls).Success? && i < |ls|
    ensures LinkRun(ls[..i]).Success?
    ensures |LinkRun(ls).value.lines| == |ls|
    ensures LinkRun(ls).value.lines[i] == Stamp(ls[i], LinkRun(ls[..i]).value.cursor)
  {
    var p := ls[..|ls| - 1];
    LinkLength(ls);
    if i < |p| {
      StampedWithCursorBefore(p, i);
      assert p[..i] == ls[..i];
    }
  }

  /** A successful pass yields one segment per input segment. */
  lemma {:induction false} LinkLength(ls: seq<Segment>)
    requires LinkRun(ls).Success?
    ensures |LinkRun(ls).value.lines| == |ls|
  {
    if |ls| > 0 {
      LinkLength(ls[..|ls| - 1]);
    }
  }

  /** The cursor after ls[..i + 1], given the cursor after ls[..i]. */
  lemma CursorStep(ls: seq<Segment>, i: nat)
    requires i < |ls| && LinkRun(ls[..i + 1]).Success?
    ensures LinkRun(ls[..i]).Success?
    ensures Advance(ls[i], LinkRun(ls[..i]).value.cursor) == Success(LinkRun(ls[..i + 1]).value.cursor)
  {
    assert ls[..i + 1][..i] == ls[..i];
  }

  /** One more segment on a successful prefix: stamp it and advance the cursor. */
  lemma LinkExtend(ls: seq<Segment>, i: nat, done: seq<Segment>, c: Cursor, next: Cursor)
    requires i < |ls| && LinkRun(ls[..i]) == Success(Linked(done, c))
    requires Advance(ls[i], c) == Success(next)
    ensures LinkRun(ls[..i + 1]) == Success(Linked(done + [Stamp(ls[i], c)], next))
  {
    assert ls[..i + 1][..i] == ls[..i];
  }

  /** The last index j < i whose segment satisfies p, if there is one. */
  function LastBefore(ls: seq<Segment>, i: nat, p: Segment -> bool): (r: Option<nat>)
    requires i <= |ls|
    ensures r.Some? ==> r.value < i && p(ls[r.value]) && forall k :: r.value < k < i ==> !p(ls[k])
    ensures r.None? ==> forall k :: 0 <= k < i ==> !p(ls[k])
  {
    if i == 0 then None
    else if p(ls[i - 1]) then Some(i - 1)
    else LastBefore(ls, i - 1, p)
  }

  predicate IsMove(s: Segment)
  {
    s.ltype == 'M'
  }

  /** A segment with at least one coordinate pair. */
  predicate HasPair(s: Segment)
  {
    |s.points| >= 2
  }

  /** The origin a segment is stamped with: the first pair of the latest move before it, if any. */
  function OriginBefore(ls: seq<Segment>, i: nat): Option<Point>
    requires i <= |ls| && forall k :: 0 <= k < i ==> !ShortMove(ls[k])
  {
    match LastBefore(ls, i, IsMove)
    case None => None
    case Some(j) =>
      assert IsMove(ls[j]) && !ShortMove(ls[j]);
      Some(FirstPair(ls[j].points))
  }

  /**
   * The control point a segment is stamped with: from the latest earlier
   * segment holding a pair, its first pair if it has four coordinates or
   * more and none otherwise; none when no earlier segment holds a pair.
   */
  function ControlBefore(ls: seq<Segment>, i: nat): Option<Point>
    requires i <= |ls|
  {
    match LastBefore(ls, i, HasPair)
    case None => None
    case Some(j) => if |ls[j].points| >= 4 then Some(FirstPair(ls[j].points)) else None
  }

  /** The point a segment is stamped with: the last pair of the segment just before it, if it has one. */
  function PointBefore(ls: seq<Segment>, i: nat): Option<Point>
    requires i <= |ls|
  {
    if i == 0 || |ls[i - 1].points| < 2 then None else Some(LastPair(ls[i - 1].points))
  }

  /** The cursor after the first i segments, in closed form. */
  lemma {:induction false} CursorAfterPrefix(ls: seq<Segment>, i: nat)
    requires i <= |ls| && LinkRun(ls[..i]).Success?
    ensures forall k :: 0 <= k < i ==> !ShortMove(ls[k])
    ensures LinkRun(ls[..i]).value.cursor ==
      Cursor(PointBefore(ls, i), ControlBefore(ls, i), OriginBefore(ls, i))
  {
    if i > 0 {
      assert ls[..i][..i - 1] == ls[..i - 1];
      CursorAfterPrefix(ls, i - 1);
      assert ls[..i][i - 1] == ls[i - 1];
      CursorStep(ls, i - 1);
      forall k | 0 <= k < i
        ensures !ShortMove(ls[k])
      {
        if k == i - 1 {
          assert !ShortMove(ls[i - 1]);
        }
      }
    }
  }

  /**
   * The stamps of a successful pass: segment i records as its previous
   * point the last pair of segment i - 1 (none if that segment has no pair
   * or i is 0), as its control point the one left by the latest earlier
   * segment with a pair, and as its origin the first pair of the latest
   * earlier move.
   */
  lemma LinkStamps(ls: seq<Segment>, i: nat)
    requires LinkRun(ls).Success? && i < |ls|
    ensures forall k :: 0 <= k < i ==> !ShortMove(ls[k])
    ensures var out := LinkRun(ls).value.lines;
      |out| == |ls| && out[i].ltype == ls[i].ltype && out[i].points == ls[i].points &&
      out[i].lastPoint == PointBefore(ls, i) &&
      out[i].lastControl == ControlBefore(ls, i) &&
      out[i].lastMove == OriginBefore(ls, i)
  {
    StampedWithCursorBefore(ls, i);
    CursorAfterPrefix(ls, i);
  }

  /** The first segment is stamped with no context at all. */
  lemma FirstStampEmpty(ls: seq<Segment>)
    requires LinkRun(ls).Success? && |ls| > 0
    ensures var s := LinkRun(ls).value.lines[0];
      s.lastPoint.None? && s.lastControl.None? && s.lastMove.None?
  {
    LinkStamps(ls, 0);
  }
}
