/**
 * A worked outline: the square M 0 0 L 10 0 L 10 10 L 0 10 Z, linked and
 * scanned for corners. Each of its four vertices turns left by a right
 * angle, so each is reported, in drawing order.
 */
module Scenarios {
  import opened Wrappers
  import opened Geometry
  import opened Segments
  import opened Linker
  import opened Corners

  function Seg(c: char, ps: seq<real>): Segment
  {
    Segment(c, ps, None, None, None)
  }

  /** The square as the tokenizer leaves it. */
  const Square: seq<Segment> :=
    [Seg('M', [0.0, 0.0]), Seg('L', [10.0, 0.0]), Seg('L', [10.0, 10.0]), Seg('L', [0.0, 10.0]), Seg('Z', [])]

  /** The square after linking: each segment carries the point before it and the origin. */
  const LinkedSquare: seq<Segment> := [
    Segment('M', [0.0, 0.0], None, None, None),
    Segment('L', [10.0, 0.0], Some(Point(0.0, 0.0)), None, Some(Point(0.0, 0.0))),
    Segment('L', [10.0, 10.0], Some(Point(10.0, 0.0)), None, Some(Point(0.0, 0.0))),
    Segment('L', [0.0, 10.0], Some(Point(10.0, 10.0)), None, Some(Point(0.0, 0.0))),
    Segment('Z', [], Some(Point(0.0, 10.0)), None, Some(Point(0.0, 0.0)))
  ]

  /** Linking the square stamps it as LinkedSquare. */
  lemma LinkSquare()
    ensures LinkRun(Square) == Success(Linked(LinkedSquare, Cursor(None, None, Some(Point(0.0, 0.0)))))
  {
    var o := Some(Point(0.0, 0.0));
    var c1, c2, c3, c4 := Cursor(o, None, o), Cursor(Some(Point(10.0, 0.0)), None, o),
      Cursor(Some(Point(10.0, 10.0)), None, o), Cursor(Some(Point(0.0, 10.0)), None, o);
    assert Square[..0] == [];
    LinkExtend(Square, 0, [], Initial, c1);
    assert [] + [Stamp(Square[0], Initial)] == LinkedSquare[..1];
    LinkExtend(Square, 1, LinkedSquare[..1], c1, c2);
    assert LinkedSquare[..1] + [Stamp(Square[1], c1)] == LinkedSquare[..2];
    LinkExtend(Square, 2, LinkedSquare[..2], c2, c3);
    assert LinkedSquare[..2] + [Stamp(Square[2], c2)] == LinkedSquare[..3];
    LinkExtend(Square, 3, LinkedSquare[..3], c3, c4);
    assert LinkedSquare[..3] + [Stamp(Square[3], c3)] == LinkedSquare[..4];
    LinkExtend(Square, 4, LinkedSquare[..4], c4, Cursor(None, None, o));
    assert LinkedSquare[..4] + [Stamp(Square[4], c4)] == LinkedSquare;
    assert Square[..5] == Square;
  }

  /** What each segment of the square contributes to the corner scan. */
  const SquareResults: seq<Result<Option<Point>, Error>> := [
    Success(None),
    Success(Some(Point(0.0, 0.0))),
    Success(Some(Point(10.0, 0.0))),
    Success(Some(Point(10.0, 10.0))),
    Success(Some(Point(0.0, 10.0)))
  ]

  /** The four turns of the square, as (leaving direction, direction back along the predecessor). */
  lemma SquareTurns()
    ensures SharpTurn(Point(10.0, 0.0), Point(0.0, 10.0))
    ensures SharpTurn(Point(0.0, 10.0), Point(-10.0, 0.0))
    ensures SharpTurn(Point(-10.0, 0.0), Point(0.0, -10.0))
    ensures SharpTurn(Point(0.0, -10.0), Point(10.0, 0.0))
  {
  }

  /** ls is the linked square, segment by segment. */
  predicate IsLinkedSquare(ls: seq<Segment>)
  {
    var o := Some(Point(0.0, 0.0));
    && |ls| == 5
    && ls[0] == Segment('M', [0.0, 0.0], None, None, None)
    && ls[1] == Segment('L', [10.0, 0.0], o, None, o)
    && ls[2] == Segment('L', [10.0, 10.0], Some(Point(10.0, 0.0)), None, o)
    && ls[3] == Segment('L', [0.0, 10.0], Some(Point(10.0, 10.0)), None, o)
    && ls[4] == Segment('Z', [], Some(Point(0.0, 10.0)), None, o)
  }

  /** The move's predecessor is the closing segment, found ahead of it. */
  lemma SquareMoveLink(ls: seq<Segment>)
    requires IsLinkedSquare(ls)
    ensures LastLine(ls, 0) == Success(4)
  {
    assert FirstCloseFrom(ls, 0) == Some(4);
    LastLineOfMove(ls, 0, 4);
  }

  /** Every other segment's predecessor is the one before it, skipping the move. */
  lemma SquareLink(ls: seq<Segment>, i: nat)
    requires IsLinkedSquare(ls) && 1 <= i < 5
    ensures LastLine(ls, i) == Success(if i == 1 then 4 else i - 1)
  {
    LastLineOfOther(ls, i);
    if i == 1 {
      SquareMoveLink(ls);
    }
  }

  /** The closing edge runs from (0, 10) back to the origin, so no predecessor is replaced. */
  lemma SquarePredecessors(ls: seq<Segment>, j: nat)
    requires IsLinkedSquare(ls) && j < 5
    ensures CloseEdge(ls[4]) == Success(Point(0.0, -10.0))
    ensures Predecessor(ls, j) == Success(j)
  {
    if j == 4 {
      assert CloseEdge(ls[4]) == Success(Point(0.0, -10.0));
    } else {
      assert ls[j].ltype != 'Z';
    }
  }

  /** The direction segment i of the square leaves in. */
  lemma SquareStart(ls: seq<Segment>, i: nat, u: Point)
    requires IsLinkedSquare(ls) && 1 <= i < 5
    requires u == [Point(10.0, 0.0), Point(0.0, 10.0), Point(-10.0, 0.0), Point(0.0, -10.0)][i - 1]
    ensures StartDirection(ls[i]) == Success(u)
  {
  }

  /** The direction pointing back along segment j of the square from its end. */
  lemma SquareEnd(ls: seq<Segment>, j: nat, v: Point)
    requires IsLinkedSquare(ls) && 1 <= j < 5
    requires v == [Point(-10.0, 0.0), Point(0.0, -10.0), Point(10.0, 0.0), Point(0.0, 10.0)][j - 1]
    ensures EndDirection(ls[j]) == Success(v)
  {
  }

  /** The move contributes nothing: its predecessor, the closing edge, is not zero. */
  lemma SquareMove(ls: seq<Segment>)
    requires IsLinkedSquare(ls)
    ensures CornerAt(ls, 0) == Success(None)
  {
    SquareMoveLink(ls);
    SquarePredecessors(ls, 4);
  }

  /** Segment i, after the move, turns left by a right angle from its predecessor j. */
  lemma SquareVertex(ls: seq<Segment>, i: nat, j: nat, u: Point, v: Point)
    requires IsLinkedSquare(ls) && 1 <= i < 5 && j == if i == 1 then 4 else i - 1
    requires u == [Point(10.0, 0.0), Point(0.0, 10.0), Point(-10.0, 0.0), Point(0.0, -10.0)][i - 1]
    requires v == [Point(-10.0, 0.0), Point(0.0, -10.0), Point(10.0, 0.0), Point(0.0, 10.0)][j - 1]
    ensures CornerAt(ls, i) == Success(Some(ls[i].lastPoint.value))
  {
    SquareLink(ls, i);
    SquarePredecessors(ls, j);
    SquareStart(ls, i, u);
    SquareEnd(ls, j, v);
    SquareTurns();
    SharpTurnIsCorner(ls, i, j, j, u, v);
  }

  /** The scan's accumulator over the square's contributions. */
  lemma CollectSquare(rs: seq<Result<Option<Point>, Error>>)
    requires rs == SquareResults
    ensures Collect(rs) == Success([Point(0.0, 0.0), Point(10.0, 0.0), Point(10.0, 10.0), Point(0.0, 10.0)])
  {
    var p1, p2, p3, p4 := Point(0.0, 0.0), Point(10.0, 0.0), Point(10.0, 10.0), Point(0.0, 10.0);
    assert rs[..1][..0] == [];
    assert Collect(rs[..1]) == Success([]);
    assert rs[..2][..1] == rs[..1] && rs[..2][1] == Success(Some(p1)) && [] + [p1] == [p1];
    assert Collect(rs[..2]) == Success([p1]);
    assert rs[..3][..2] == rs[..2] && rs[..3][2] == Success(Some(p2)) && [p1] + [p2] == [p1, p2];
    assert Collect(rs[..3]) == Success([p1, p2]);
    assert rs[..4][..3] == rs[..3] && rs[..4][3] == Success(Some(p3)) && [p1, p2] + [p3] == [p1, p2, p3];
    assert Collect(rs[..4]) == Success([p1, p2, p3]);
    assert rs[..5][..4] == rs[..4] && rs[..5] == rs && [p1, p2, p3] + [p4] == [p1, p2, p3, p4];
  }

  /** Five contributions equal to the square's, position by position, are the square's. */
  lemma SameResults(rs: seq<Result<Option<Point>, Error>>)
    requires |rs| == 5
    requires rs[0] == SquareResults[0] && rs[1] == SquareResults[1] && rs[2] == SquareResults[2]
    requires rs[3] == SquareResults[3] && rs[4] == SquareResults[4]
    ensures rs == SquareResults
  {
  }

  /** What segment i of the linked square contributes. */
  lemma SquareContribution(ls: seq<Segment>, rs: seq<Result<Option<Point>, Error>>, i: nat)
    requires IsLinkedSquare(ls) && rs == CornerResults(ls) && i < 5
    ensures rs[i] == SquareResults[i]
  {
    var u := [Point(10.0, 0.0), Point(0.0, 10.0), Point(-10.0, 0.0), Point(0.0, -10.0)];
    var v := [Point(-10.0, 0.0), Point(0.0, -10.0), Point(10.0, 0.0), Point(0.0, 10.0)];
    if i == 0 {
      SquareMove(ls);
    } else {
      var j := if i == 1 then 4 else i - 1;
      SquareVertex(ls, i, j, u[i - 1], v[j - 1]);
    }
  }

  /** What each segment of the linked square contributes. */
  lemma SquareContributions(ls: seq<Segment>, rs: seq<Result<Option<Point>, Error>>)
    requires IsLinkedSquare(ls) && rs == CornerResults(ls)
    ensures rs == SquareResults
  {
    SquareContribution(ls, rs, 0);
    SquareContribution(ls, rs, 1);
    SquareContribution(ls, rs, 2);
    SquareContribution(ls, rs, 3);
    SquareContribution(ls, rs, 4);
    SameResults(rs);
  }

  /** All four vertices of the linked square are sharp corners, reported in drawing order. */
  lemma SquareCorners(ls: seq<Segment>)
    requires IsLinkedSquare(ls)
    ensures SharpCorners(ls) ==
      Success([Point(0.0, 0.0), Point(10.0, 0.0), Point(10.0, 10.0), Point(0.0, 10.0)])
  {
    var rs := CornerResults(ls);
    SquareContributions(ls, rs);
    CollectSquare(rs);
  }

  /** Reading the square's outline through the linker and the corner scan finds its four vertices. */
  lemma SquareOutline()
    ensures LinkRun(Square).Success?
    ensures SharpCorners(LinkRun(Square).value.lines) ==
      Success([Point(0.0, 0.0), Point(10.0, 0.0), Point(10.0, 10.0), Point(0.0, 10.0)])
  {
    LinkSquare();
    SquareCorners(LinkRun(Square).value.lines);
  }
}
