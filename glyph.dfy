/**
 * The Glyph class of glyph.py: a character's outline as a list of segments
 * that its methods rebuild, move, scale and measure in place. Each method
 * is proved against the specification function of the module that models
 * its logic (PathTokenizer, Linker, Corners, Segments).
 */
module Glyphs {
  import opened Wrappers
  import opened Geometry
  import opened Segments
  import opened PathTokenizer
  import opened Linker
  import opened Corners

  /**
   * The outline the constructor builds from a path text: tokenized,
   * linked, then mirrored in the y axis.
   */
  function Outline(svgPath: string): (r: Result<seq<Segment>, Error>)
    ensures r.Success? ==> Tags(r.value) == Letters(svgPath)
  {
    var tokens := Tokenize(svgPath);
    if tokens.Failure? then Failure(tokens.error)
    else
      var linked := LinkRun(tokens.value);
      if linked.Failure? then Failure(linked.error)
      else
        LinkKeepsTags(tokens.value);
        Success(ScaleAll(linked.value.lines, 1.0, -1.0))
  }

  /** Linking changes no letter, and scaling changes no letter either. */
  lemma LinkKeepsTags(ls: seq<Segment>)
    requires LinkRun(ls).Success?
    ensures Tags(LinkRun(ls).value.lines) == Tags(ls)
    ensures Tags(ScaleAll(LinkRun(ls).value.lines, 1.0, -1.0)) == Tags(ls)
  {
    var out := LinkRun(ls).value.lines;
    LinkLength(ls);
    forall i | 0 <= i < |ls|
      ensures out[i].ltype == ls[i].ltype
    {
      LinkStamps(ls, i);
    }
  }

  /** A segment with an odd number of coordinates: glyph_bbox reads one past its end. */
  predicate OddLength(s: Segment)
  {
    |s.points| % 2 == 1
  }

  /** glyph_bbox raises IndexError exactly in these cases. */
  predicate BoxFails(ls: seq<Segment>)
  {
    ls == [] || |ls[0].points| < 2 || exists i :: 0 <= i < |ls| && OddLength(ls[i])
  }

  /** glyph_bbox's result [0, y0, horiz_adv_x, y1]; the left edge is always 0. */
  datatype AdvanceBox = AdvanceBox(y0: real, advance: Option<real>, y1: real)

  /** Segment texts separated and ended by a space, as svg_code builds them. */
  function Joined(ls: seq<Segment>, render: Segment -> string): string
  {
    if |ls| == 0 then "" else Joined(ls[..|ls| - 1], render) + render(ls[|ls| - 1]) + " "
  }

  /** The text of a concatenation is the concatenation of the texts. */
  lemma {:induction false} JoinedAppend(a: seq<Segment>, b: seq<Segment>, render: Segment -> string)
    ensures Joined(a + b, render) == Joined(a, render) + Joined(b, render)
  {
    if |b| > 0 {
      assert (a + b)[..|a + b| - 1] == a + b[..|b| - 1];
      JoinedAppend(a, b[..|b| - 1], render);
    } else {
      assert a + b == a;
    }
  }

  /** Every segment's text is followed by exactly one space: the length is the sum plus one per segment. */
  lemma {:induction false} JoinedLength(ls: seq<Segment>, render: Segment -> string)
    ensures |Joined(ls, render)| == |ls| + TextLength(ls, render)
  {
    if |ls| > 0 {
      JoinedLength(ls[..|ls| - 1], render);
    }
  }

  function TextLength(ls: seq<Segment>, render: Segment -> string): nat
  {
    if |ls| == 0 then 0 else TextLength(ls[..|ls| - 1], render) + |render(ls[|ls| - 1])|
  }

  /**
   * The inner loop of glyph_bbox over one segment's coordinates: y0 and y1
   * widened to every y coordinate (odd position). A list of odd length
   * fails, since its last x has no y after it. loAt and hiAt give the
   * position of the coordinate that set each bound, or -1 when it was kept.
   */
  method ScanYs(ps: seq<real>, y0: real, y1: real) returns (ok: bool, lo: real, hi: real, ghost loAt: int, ghost hiAt: int)
    ensures ok <==> |ps| % 2 == 0
    ensures ok ==> lo <= y0 && y1 <= hi
    ensures ok ==> forall m :: 0 <= m < |ps| && m % 2 == 1 ==> lo <= ps[m] <= hi
    ensures ok ==> -1 <= loAt < |ps| && (loAt == -1 ==> lo == y0) && (loAt >= 0 ==> loAt % 2 == 1 && ps[loAt] == lo)
    ensures ok ==> -1 <= hiAt < |ps| && (hiAt == -1 ==> hi == y1) && (hiAt >= 0 ==> hiAt % 2 == 1 && ps[hiAt] == hi)
  {
    lo, hi, loAt, hiAt := y0, y1, -1, -1;
    var k := 0;
    while k < |ps|
      invariant 0 <= k <= |ps| && k % 2 == 0
      invariant lo <= y0 && y1 <= hi
      invariant forall m :: 0 <= m < k && m % 2 == 1 ==> lo <= ps[m] <= hi
      invariant -1 <= loAt < |ps| && (loAt == -1 ==> lo == y0) && (loAt >= 0 ==> loAt % 2 == 1 && ps[loAt] == lo)
      invariant -1 <= hiAt < |ps| && (hiAt == -1 ==> hi == y1) && (hiAt >= 0 ==> hiAt % 2 == 1 && ps[hiAt] == hi)
    {
      if k + 1 >= |ps| {
        return false, lo, hi, loAt, hiAt;
      }
      var y := ps[k + 1];
      if y < lo {
        lo, loAt := y, k + 1;
      }
      if y > hi {
        hi, hiAt := y, k + 1;
      }
      k := k + 2;
    }
    ok := true;
  }

  /**
   * The cursor update in the loop of __process_lines: a move sets the
   * subpath origin from its first pair (IndexError without one), a segment
   * with a pair sets the previous point and control point, one without
   * clears the previous point. It moves the cursor exactly as Advance does.
   */
  method MoveCursor(line: Segment, lastPoint: Option<Point>, lastControl: Option<Point>, lastMove: Option<Point>)
    returns (e: Option<Error>, point: Option<Point>, control: Option<Point>, origin: Option<Point>)
    ensures var next := Advance(line, Cursor(lastPoint, lastControl, lastMove));
      (e.Some? <==> next.Failure?) && (e.Some? ==> e.value == next.error) &&
      (e.None? ==> next.value == Cursor(point, control, origin))
  {
    e, point, control, origin := None, lastPoint, lastControl, lastMove;
    if line.ltype == 'M' {
      if |line.points| < 2 {
        e := Some(IndexError);
        return;
      }
      origin := Some(Point(line.points[0], line.points[1]));
    }
    if |line.points| >= 2 {
      point := Some(Point(line.points[|line.points| - 2], line.points[|line.points| - 1]));
      if |line.points| >= 4 {
        control := Some(Point(line.points[0], line.points[1]));
      } else {
        control := None;
      }
    } else {
      point := None;
    }
  }

  class Glyph {
    var unicode: string
    var svgPath: string
    var horizAdvX: Option<real>
    var lines: seq<Segment>

    /** The fields as given, before any segment is read. */
    constructor Init(unicode: string, svgPath: string, horizAdvX: Option<real>)
      ensures this.unicode == unicode && this.svgPath == svgPath && this.horizAdvX == horizAdvX
      ensures lines == []
    {
      this.unicode := unicode;
      this.svgPath := svgPath;
      this.horizAdvX := horizAdvX;
      lines := [];
    }

    /**
     * Glyph(unicode, svg_path, horiz_adv_x): parse the path, link the
     * segments, mirror the y axis. Fails with the first error raised.
     */
    static method Create(unicode: string, svgPath: string, horizAdvX: Option<real>) returns (r: Result<Glyph, Error>)
      ensures r.Failure? <==> Outline(svgPath).Failure?
      ensures r.Failure? ==> r.error == Outline(svgPath).error
      ensures r.Success? ==> fresh(r.value) && r.value.lines == Outline(svgPath).value
      ensures r.Success? ==> r.value.unicode == unicode && r.value.svgPath == svgPath && r.value.horizAdvX == horizAdvX
    {
      var g := new Glyph.Init(unicode, svgPath, horizAdvX);
      var e := g.ParseSvgPath();
      if e.Some? {
        return Failure(e.value);
      }
      e := g.ProcessLines();
      if e.Some? {
        return Failure(e.value);
      }
      g.Scale(1.0, -1.0);
      return Success(g);
    }

    /**
     * __parse_svg_path: read the path text character by character, opening
     * a segment per letter and appending each finished number to the last
     * segment. An error leaves no segments (a pop only fails on an empty list).
     */
    method ParseSvgPath() returns (e: Option<Error>)
      modifies this
      ensures unicode == old(unicode) && svgPath == old(svgPath) && horizAdvX == old(horizAdvX)
      ensures e.None? <==> RunFrom(Fresh(old(lines)), svgPath).Success?
      ensures e.None? ==> lines == RunFrom(Fresh(old(lines)), svgPath).value.lines
      ensures e.Some? ==> e.value == RunFrom(Fresh(old(lines)), svgPath).error && lines == []
    {
      var lastNum := 0.0;
      var floatingPoint: nat := 0;
      var isLastNum := false;
      var isNegative := false;
      ghost var start := lines;
      var path := svgPath;
      for i := 0 to |path|
        invariant unicode == old(unicode) && svgPath == path && horizAdvX == old(horizAdvX)
        invariant RunFrom(Fresh(start), path[..i]) ==
          Success(Scanner(lines, lastNum, floatingPoint, isLastNum, isNegative))
      {
        assert path[..i + 1][..i] == path[..i];
        e, lastNum, floatingPoint, isLastNum, isNegative :=
          ReadChar(path[i], lastNum, floatingPoint, isLastNum, isNegative);
        if e.Some? {
          FailureSticks(Fresh(start), path, i + 1);
          return;
        }
      }
      assert path[..|path|] == path;
      e := None;
    }

    /**
     * The body of the loop in __parse_svg_path: one character read with the
     * parser's locals passed in and handed back. The new locals are the
     * scanner state Step reaches; when Step raises, so does this, with no
     * segments left.
     */
    method ReadChar(c: char, lastNum: real, floatingPoint: nat, isLastNum: bool, isNegative: bool)
      returns (e: Option<Error>, num: real, place: nat, pending: bool, negative: bool)
      modifies this
      ensures unicode == old(unicode) && svgPath == old(svgPath) && horizAdvX == old(horizAdvX)
      ensures var step := Step(Scanner(old(lines), lastNum, floatingPoint, isLastNum, isNegative), c);
        (e.Some? <==> step.Failure?) &&
        (e.Some? ==> e.value == step.error && lines == []) &&
        (e.None? ==> step.value == Scanner(lines, num, place, pending, negative))
    {
      ghost var before := Scanner(lines, lastNum, floatingPoint, isLastNum, isNegative);
      num, place, pending, negative := lastNum, floatingPoint, isLastNum, isNegative;
      e := None;
      if IsLetter(c) {
        if pending {
          e := FlushNumber(before, num, negative);
          if e.Some? {
            return;
          }
          num, place, pending, negative := 0.0, 0, false, false;
        }
        lines := lines + [NewSegment(c)];
      } else if IsDigit(c) {
        if place == 0 {
          num := num * 10.0;
        }
        var weight := Pow(0.1, place);
        assert weight * DigitValue(c) == Times(DigitNat(c), weight) by {
          TimesIsProduct(DigitNat(c), weight);
        }
        num := num + weight * DigitValue(c);
        if place > 0 {
          place := place + 1;
        }
        pending := true;
      } else if c == '-' {
        negative := true;
      } else if c == '.' {
        place := place + 1;
      } else if pending {
        e := FlushNumber(before, num, negative);
        if e.Some? {
          return;
        }
        num, place, pending, negative := 0.0, 0, false, false;
      }
    }

    /**
     * The flush in the letter and separator branches of __parse_svg_path:
     * apply the sign to last_num and end the number, as Flush does to the
     * scanner state sc that the caller's locals hold.
     */
    method FlushNumber(ghost sc: Scanner, lastNum: real, isNegative: bool) returns (e: Option<Error>)
      modifies this
      requires sc.lines == lines && sc.lastNum == lastNum && sc.negative == isNegative
      ensures unicode == old(unicode) && svgPath == old(svgPath) && horizAdvX == old(horizAdvX)
      ensures e.Some? <==> Flush(sc).Failure?
      ensures e.Some? ==> e.value == Flush(sc).error && lines == []
      ensures e.None? ==> lines == Flush(sc).value.lines
    {
      var value := if isNegative then -lastNum else lastNum;
      e := EndNumber(value);
    }

    /**
     * The number-ending step shared by the letter and separator branches of
     * __parse_svg_path: pop the last segment, append the number to its
     * coordinates and push it back; popping an empty list raises IndexError.
     */
    method EndNumber(value: real) returns (e: Option<Error>)
      modifies this
      ensures unicode == old(unicode) && svgPath == old(svgPath) && horizAdvX == old(horizAdvX)
      ensures e.Some? <==> old(lines) == []
      ensures e.Some? ==> e.value == IndexError && lines == old(lines)
      ensures e.None? ==> lines == AppendToLast(old(lines), value)
    {
      if lines == [] {
        return Some(IndexError);
      }
      var current := lines[|lines| - 1];
      lines := lines[..|lines| - 1];
      current := current.(points := current.points + [value]);
      lines := lines + [current];
      e := None;
    }

    /**
     * __process_lines: stamp every segment with the previous point, the
     * previous control point and the subpath origin, in place. A move
     * without a full pair raises IndexError.
     */
    method ProcessLines() returns (e: Option<Error>)
      modifies this
      ensures unicode == old(unicode) && svgPath == old(svgPath) && horizAdvX == old(horizAdvX)
      ensures e.None? <==> LinkRun(old(lines)).Success?
      ensures e.None? ==> lines == LinkRun(old(lines)).value.lines
      ensures e.Some? ==> e.value == LinkRun(old(lines)).error && e.value == IndexError
      ensures e.Some? ==> Tags(lines) == Tags(old(lines))
    {
      var lastPoint: Option<Point> := None;
      var lastControl: Option<Point> := None;
      var lastMove: Option<Point> := None;
      ghost var start := lines;
      for i := 0 to |lines|
        invariant unicode == old(unicode) && svgPath == old(svgPath) && horizAdvX == old(horizAdvX)
        invariant |lines| == |start|
        invariant forall k :: 0 <= k < |lines| ==> lines[k].ltype == start[k].ltype
        invariant forall k :: i <= k < |lines| ==> lines[k] == start[k]
        invariant LinkRun(start[..i]) == Success(Linked(lines[..i], Cursor(lastPoint, lastControl, lastMove)))
      {
        var line := lines[i];
        ghost var cursor := Cursor(lastPoint, lastControl, lastMove);
        ghost var prev := lines;
        var stamped := line.(lastMove := lastMove, lastPoint := lastPoint, lastControl := lastControl);
        lines := lines[i := stamped];
        UpdatedPrefix(prev, i, stamped);
        e, lastPoint, lastControl, lastMove := MoveCursor(line, lastPoint, lastControl, lastMove);
        if e.Some? {
          LinkFailsOnShortMove(start);
          assert Tags(lines) == Tags(start);
          return;
        }
        LinkExtend(start, i, prev[..i], cursor, Cursor(lastPoint, lastControl, lastMove));
      }
      assert Tags(lines) == Tags(start);
      assert start[..|start|] == start && lines[..|lines|] == lines;
      e := None;
    }

    /** svg_code: each segment's text followed by a space. */
    method SvgCode(render: Segment -> string) returns (output: string)
      ensures output == Joined(lines, render)
      ensures |output| == |lines| + TextLength(lines, render)
    {
      output := "";
      for i := 0 to |lines|
        invariant output == Joined(lines[..i], render)
      {
        assert lines[..i + 1][..i] == lines[..i];
        output := output + render(lines[i]) + " ";
      }
      assert lines[..|lines|] == lines;
      JoinedLength(lines, render);
    }

    /** transform: every segment moved by (x, y), in place. */
    method Transform(x: real, y: real)
      modifies this
      ensures unicode == old(unicode) && svgPath == old(svgPath) && horizAdvX == old(horizAdvX)
      ensures lines == TranslateAll(old(lines), x, y)
    {
      ghost var start := lines;
      for i := 0 to |lines|
        invariant unicode == old(unicode) && svgPath == old(svgPath) && horizAdvX == old(horizAdvX)
        invariant |lines| == |start|
        invariant forall k :: 0 <= k < i ==> lines[k] == Translated(start[k], x, y)
        invariant forall k :: i <= k < |lines| ==> lines[k] == start[k]
      {
        lines := lines[i := Translated(lines[i], x, y)];
      }
    }

    /** scale: every segment scaled by (x, y), in place. */
    method Scale(x: real, y: real)
      modifies this
      ensures unicode == old(unicode) && svgPath == old(svgPath) && horizAdvX == old(horizAdvX)
      ensures lines == ScaleAll(old(lines), x, y)
    {
      ghost var start := lines;
      for i := 0 to |lines|
        invariant unicode == old(unicode) && svgPath == old(svgPath) && horizAdvX == old(horizAdvX)
        invariant |lines| == |start|
        invariant forall k :: 0 <= k < i ==> lines[k] == Scaled(start[k], x, y)
        invariant forall k :: i <= k < |lines| ==> lines[k] == start[k]
      {
        lines := lines[i := Scaled(lines[i], x, y)];
      }
    }

    /**
     * glyph_bbox: the lowest and highest y coordinate over all segments,
     * with the advance width as the right edge. Fails with IndexError on an
     * empty glyph, a first segment without a pair, or an odd-length list.
     */
    method GlyphBBox() returns (r: Result<AdvanceBox, Error>)
      ensures r.Failure? <==> BoxFails(lines)
      ensures r.Failure? ==> r.error == IndexError
      ensures r.Success? ==> r.value.advance == horizAdvX
      ensures r.Success? ==> forall i, k :: 0 <= i < |lines| && 0 <= k < |lines[i].points| && k % 2 == 1 ==>
        r.value.y0 <= lines[i].points[k] <= r.value.y1
      ensures r.Success? ==>
        exists i, k :: 0 <= i < |lines| && 0 <= k < |lines[i].points| && k % 2 == 1 && lines[i].points[k] == r.value.y0
      ensures r.Success? ==>
        exists i, k :: 0 <= i < |lines| && 0 <= k < |lines[i].points| && k % 2 == 1 && lines[i].points[k] == r.value.y1
    {
      if lines == [] || |lines[0].points| < 2 {
        return Failure(IndexError);
      }
      var y0 := lines[0].points[1];
      var y1 := lines[0].points[1];
      ghost var lo: (nat, nat) := (0, 1);
      ghost var hi: (nat, nat) := (0, 1);
      for i := 0 to |lines|
        invariant forall j :: 0 <= j < i ==> !OddLength(lines[j])
        invariant forall j, k :: 0 <= j < i && 0 <= k < |lines[j].points| && k % 2 == 1 ==> y0 <= lines[j].points[k] <= y1
        invariant lo.0 < |lines| && lo.1 < |lines[lo.0].points| && lo.1 % 2 == 1 && lines[lo.0].points[lo.1] == y0
        invariant hi.0 < |lines| && hi.1 < |lines[hi.0].points| && hi.1 % 2 == 1 && lines[hi.0].points[hi.1] == y1
      {
        ghost var loAt: int, hiAt: int;
        var ok, a, b;
        ok, a, b, loAt, hiAt := ScanYs(lines[i].points, y0, y1);
        if !ok {
          assert OddLength(lines[i]);
          return Failure(IndexError);
        }
        if loAt >= 0 {
          lo := (i, loAt);
        }
        if hiAt >= 0 {
          hi := (i, hiAt);
        }
        y0, y1 := a, b;
      }
      return Success(AdvanceBox(y0, horizAdvX, y1));
    }

    /**
     * closest_line: the first segment whose distance to the query point is
     * smallest (dist is distance_to_line applied to that point). An empty
     * glyph raises IndexError.
     */
    method ClosestLine(dist: Segment -> real) returns (r: Result<nat, Error>)
      ensures r.Failure? <==> lines == []
      ensures r.Failure? ==> r.error == IndexError
      ensures r.Success? ==> r.value < |lines|
      ensures r.Success? ==> forall k :: 0 <= k < |lines| ==> dist(lines[r.value]) <= dist(lines[k])
      ensures r.Success? ==> forall k :: 0 <= k < r.value ==> dist(lines[k]) > dist(lines[r.value])
    {
      if lines == [] {
        return Failure(IndexError);
      }
      var closest := 0;
      var closestDistance := dist(lines[0]);
      for i := 0 to |lines|
        invariant closest < |lines| && closestDistance == dist(lines[closest])
        invariant closest == 0 || closest < i
        invariant forall k :: 0 <= k < i ==> closestDistance <= dist(lines[k])
        invariant forall k :: 0 <= k < closest ==> dist(lines[k]) > closestDistance
      {
        var distance := dist(lines[i]);
        if distance < closestDistance {
          closestDistance := distance;
          closest := i;
        }
      }
      return Success(closest);
    }

    /**
     * sharp_corners: scan the segments in order, collecting the stamped
     * point of each one that makes a sharp corner; the first error stops
     * the scan.
     */
    method SharpCornersOf() returns (r: Result<seq<Point>, Error>)
      ensures r == SharpCorners(lines)
    {
      ghost var rs := CornerResults(lines);
      var corners: seq<Point> := [];
      for i := 0 to |lines|
        invariant Collect(rs[..i]) == Success(corners)
      {
        assert rs[..i + 1][..i] == rs[..i];
        var c := CornerAt(lines, i);
        assert rs[i] == c;
        if c.Failure? {
          assert Collect(rs[..i + 1]) == Failure(c.error);
          CollectSticks(rs, i + 1);
          return Failure(c.error);
        }
        if c.value.Some? {
          corners := corners + [c.value.value];
        }
      }
      assert rs[..|rs|] == rs;
      return Success(corners);
    }

    /**
     * scale_and_move_to_bbox: scale by (x1 - x0) / original.horiz_adv_x on
     * both axes, then move by (x0, -y0), and return the factor. The
     * original's bounding box is computed first and its errors propagate;
     * a missing advance width is a TypeError, a zero one a
     * ZeroDivisionError. On error nothing changes.
     */
    method ScaleAndMoveToBBox(x0: real, y0: real, x1: real, y1: real, original: Glyph) returns (r: Result<real, Error>)
      modifies this
      ensures unicode == old(unicode) && svgPath == old(svgPath) && horizAdvX == old(horizAdvX)
      ensures r.Failure? <==> BoxFails(old(original.lines)) || old(original.horizAdvX) == None || old(original.horizAdvX) == Some(0.0)
      ensures r.Failure? ==> lines == old(lines)
      ensures r.Failure? && BoxFails(old(original.lines)) ==> r.error == IndexError
      ensures r.Failure? && !BoxFails(old(original.lines)) ==>
        r.error == if old(original.horizAdvX) == None then TypeError else ZeroDivisionError
      ensures r.Success? ==> r.value * old(original.horizAdvX).value == x1 - x0
      ensures r.Success? && x1 - x0 == old(original.horizAdvX).value ==> r.value == 1.0
      ensures r.Success? ==> lines == TranslateAll(ScaleAll(old(lines), r.value, r.value), x0, -y0)
    {
      var currentBBox := original.GlyphBBox();
      if currentBBox.Failure? {
        return Failure(currentBBox.error);
      }
      var currentWidth := original.horizAdvX;
      var width := x1 - x0;
      if currentWidth == None {
        return Failure(TypeError);
      }
      if currentWidth.value == 0.0 {
        return Failure(ZeroDivisionError);
      }
      var factor := width / currentWidth.value;
      Scale(factor, factor);
      Transform(x0, -y0);
      return Success(factor);
    }
  }
}
