# corvus_converter glyph core in Dafny

This project models the core of the SVG font reader in corvus_converter. It covers two parts:

- **The `Glyph` class of `svg_parser/glyph.py`.** It holds the glyph's Unicode name, its SVG path string, its advance width and its list of path segments. It reads the path string into segments and links each segment to the one drawn before it. It flips, scales and translates the outline, and it measures the outline. It looks up a segment's predecessor and reports the sharp corners of the outline.
- **The `Bezier` helper of `svg_parser/bezier_tools.py`.** It provides Bernstein weights, curve points and derivatives, normals and tangents, the critical points and bounding box of a quadratic curve, and a sampled closest point.

Modules:

- `Wrappers`: `Option` and `Result`.
- `Geometry`: a 2-D `Point` and vector arithmetic on it.
- `Segments`: one path segment, i.e. one `Line` object of the source. It has:
  - a command letter `ltype`;
  - its flat coordinate list `points`;
  - the context the linker stamps on it: the previous on-curve point, the previous control point and the current subpath origin.

  The module also defines coordinate-wise translation and scaling, and the `Error` values. These stand for the Python exceptions the core can raise.
- `BezierTools`: pure functions for the curve maths. `point`, `derivative` and `closest_point` loop in the source, so they are methods with loops. Each of those methods is proved equal to, or nearest among, its specification function.
- `PathTokenizer`: the character-by-character state machine of `__parse_svg_path`, as a pure function `Step` and its fold `RunFrom`. Lemmas say what digit runs, signs, decimal points and separators produce.
- `Linker`: the linking pass of `__process_lines` as a fold `LinkRun`. It is given a closed form for the context every segment is stamped with.
- `Corners`: `last_line` and `sharp_corners` as functions (`LastLine`, `CornerAt`, `SharpCorners`), with lemmas that characterise a reported corner in both directions.
- `Glyphs`: the class `Glyph`, whose methods update `lines` in place. Each method is proved against the specification functions above.
- `Scenarios`: a worked outline, the square `M 0 0 L 10 0 L 10 10 L 0 10 Z`. The linker and the corner scan are shown to find its four vertices in drawing order.

## Model

| member | source | states |
|---|---|---|
| Glyphs.Glyph.Init | svg_parser/glyph.py:16-28 | a new glyph keeps its Unicode name, path string and advance width and starts with no segments |
| Glyphs.Glyph.Create | svg_parser/glyph.py:16-31 | construction parses the path, links the segments and flips the y axis. It fails exactly when `Outline` fails, with the same error. Otherwise the fresh glyph's segments are exactly `Outline(svgPath)` and its other fields are the arguments |
| Glyphs.Outline | svg_parser/glyph.py:29-31 | the outline a constructed glyph holds lists exactly the command letters of the path string, in order |
| Glyphs.LinkKeepsTags | svg_parser/glyph.py:88-107 | linking and then flipping keep every segment's command letter and position |
| Glyphs.Glyph.ParseSvgPath | svg_parser/glyph.py:33-75 | the loop over the path string ends in the state the tokenizer specification `RunFrom` reaches. If that specification fails, the loop fails with the same error (IndexError for a number before any command) and leaves no segments. The other fields are unchanged |
| Glyphs.Glyph.EndNumber | svg_parser/glyph.py:44-52 | ending a pending number fails with IndexError exactly when there is no segment yet, and then changes nothing. Otherwise it appends the number to the last segment's coordinates |
| Glyphs.Glyph.ReadChar | svg_parser/glyph.py:42-75 | one pass of the loop body leaves the locals and segments in exactly the state `Step` reaches. It raises exactly when `Step` fails, with the same error, leaving no segments |
| Glyphs.Glyph.FlushNumber | svg_parser/glyph.py:43-52 | the flush in the letter and separator branches signs the pending number and ends it exactly as `Flush` does: IndexError with no segments, otherwise the segments `Flush` leaves |
| PathTokenizer.AppendToLast | svg_parser/glyph.py:46-48 | popping the last segment, extending its coordinates and pushing it back leaves every other segment as it was |
| PathTokenizer.Flush | svg_parser/glyph.py:43-52 | ending a number fails with IndexError exactly when there is no segment. Otherwise the segment count is kept, every segment but the last is untouched, the last gains the number with its sign applied as its final coordinate, and the number state is reset |
| PathTokenizer.Step | svg_parser/glyph.py:41-75 | one character fails, with IndexError, exactly when a number is pending, there is no segment, and the character is a letter or a separator. A letter adds one segment; any other character adds none |
| PathTokenizer.RunFrom | svg_parser/glyph.py:41-75 | the loop over the path as a fold of `Step` that stops at the first error. It has no contract of its own: its properties are `RunAppend`, `FailureSticks`, `RunFailsOnlyOnPop` and `LettersBecomeSegments` |
| PathTokenizer.RunFailsOnlyOnPop | svg_parser/glyph.py:46 | a failing scan always fails with IndexError, the error of `self.lines.pop()` on an empty list |
| PathTokenizer.Tokenize | svg_parser/glyph.py:33-75 | the parse of a whole path on an empty glyph. It can only fail with IndexError, and a successful parse yields one segment per letter of the path, tagged with that letter, in order |
| PathTokenizer.RunAppend | svg_parser/glyph.py:41-75 | scanning a concatenation is scanning the first part and then the second from where the first stopped |
| PathTokenizer.FailureSticks | svg_parser/glyph.py:41-75 | once a prefix of the path raises, the rest of the path is not read and the error is the result |
| PathTokenizer.LettersBecomeSegments | svg_parser/glyph.py:42-53 | a successful scan adds exactly one segment per letter, with that letter, in order |
| PathTokenizer.StepTags | svg_parser/glyph.py:42-75 | one character adds a segment tagged with it if it is a letter, and otherwise adds none |
| PathTokenizer.IntegerDigits | svg_parser/glyph.py:54-60 | a run of digits before any decimal point accumulates value*10 + digit |
| PathTokenizer.FractionDigits | svg_parser/glyph.py:54-60 | after the decimal point the k-th digit adds digit*0.1^k |
| PathTokenizer.NumberCharactersKeepLines | svg_parser/glyph.py:54-64 | digits, '-' and '.' never fail and never touch the segment list |
| PathTokenizer.SignedInteger | svg_parser/glyph.py:54-62 | an optional '-' followed by digits gives that integer, negated if the sign was seen |
| PathTokenizer.SignedDecimal | svg_parser/glyph.py:54-64 | an optional '-', digits, '.' and digits give the decimal value with that sign |
| PathTokenizer.DecimalNumber | svg_parser/glyph.py:54-75 | a signed decimal followed by a separator appends exactly that value to the last segment |
| PathTokenizer.SeparatorFlushes | svg_parser/glyph.py:65-75 | a separator after a pending number appends it to the last segment and resets the number state |
| PathTokenizer.LetterFlushes | svg_parser/glyph.py:42-53 | a letter after a pending number first appends the signed number to the last segment and resets the number state, then opens a new segment with that letter and no coordinates |
| PathTokenizer.LetterOpensSegment | svg_parser/glyph.py:42-53 | a letter with no number pending only opens a new segment with that letter; the earlier segments, the sign flag and the decimal place are kept |
| PathTokenizer.SmallIntegers | svg_parser/glyph.py:54-60 | the digit runs "12", "10" and "20" read as 12, 10 and 20 |
| PathTokenizer.OpenM | svg_parser/glyph.py:42-53 | the letter M opens an empty segment tagged 'M' |
| PathTokenizer.TwelveAndAHalf | svg_parser/glyph.py:33-75 | "M12.5 " reads as one M segment with the coordinate 12.5 |
| PathTokenizer.SecondPointSkipsPlace | svg_parser/glyph.py:63-64 | a second '.' only moves the decimal place on, so "M1.2.5 " reads as 1.205 |
| PathTokenizer.MinusDoesNotSplit | svg_parser/glyph.py:61-62 | a '-' inside a number only sets the sign, so "M10-20 " reads as the single number -1020 |
| PathTokenizer.PendingNumberDropped | svg_parser/glyph.py:41-75 | a number not followed by a separator or letter before the end of the path is dropped |
| PathTokenizer.NoLetterRun | svg_parser/glyph.py:44-47 | a path without letters fails, with IndexError, exactly when some digit comes before a separator. Otherwise it leaves no segments |
| Glyphs.Glyph.ProcessLines | svg_parser/glyph.py:78-107 | the loop stamps the segments exactly as the fold `LinkRun` does. It fails with IndexError exactly when `LinkRun` fails. On failure the letters stay in place |
| Linker.LinkRun | svg_parser/glyph.py:82-107 | the linking pass as a fold over the segments: stamp each with the cursor, then advance the cursor. It has no contract of its own: its properties are `LinkLength`, `LinkFailsOnShortMove`, `LinkExtend`, `StampedWithCursorBefore` and `LinkStamps` |
| Glyphs.MoveCursor | svg_parser/glyph.py:93-107 | the cursor update of one loop pass moves the previous point, control point and subpath origin exactly as `Advance` does, and raises IndexError exactly when `Advance` fails (a move without a full pair) |
| Linker.Stamp | svg_parser/glyph.py:89-91 | stamping records the cursor as the segment's context and keeps its letter and coordinates |
| Linker.Advance | svg_parser/glyph.py:93-107 | the cursor step fails, with IndexError, exactly on a move without a full coordinate pair |
| Linker.LinkFailsOnShortMove | svg_parser/glyph.py:93-95 | the pass fails, with IndexError, exactly when some move has fewer than two coordinates |
| Linker.LinkLength | svg_parser/glyph.py:88 | a successful pass yields one segment per input segment |
| Linker.StampedWithCursorBefore | svg_parser/glyph.py:88-92 | segment i is stamped with the cursor left by the segments before it |
| Linker.LinkExtend | svg_parser/glyph.py:88-107 | one more segment on a linked prefix is stamped with the current cursor and advances it |
| Linker.LastBefore | svg_parser/glyph.py:93-101 | the latest earlier index whose segment satisfies a test, and none later. None when no earlier segment does |
| Linker.CursorAfterPrefix | svg_parser/glyph.py:93-107 | the cursor after i segments, in closed form: the last pair of segment i-1; the first pair of the latest earlier segment holding a pair, if it has 4+ coordinates; the first pair of the latest earlier move |
| Linker.LinkStamps | svg_parser/glyph.py:88-107 | every linked segment keeps its letter and coordinates and records that closed-form context |
| Linker.FirstStampEmpty | svg_parser/glyph.py:82-91 | the first segment is stamped with no previous point, control point or origin |
| Glyphs.Glyph.SvgCode | svg_parser/glyph.py:109-119 | the output is each segment's rendering followed by a space, in order. Its length is the number of segments plus the rendered lengths |
| Glyphs.JoinedAppend | svg_parser/glyph.py:116-119 | rendering a concatenation concatenates the renderings |
| Glyphs.JoinedLength | svg_parser/glyph.py:116-119 | the output has one separator per segment besides the rendered text |
| Glyphs.Glyph.Transform | svg_parser/glyph.py:121-130 | every segment is translated coordinate-wise; nothing else changes |
| Glyphs.Glyph.Scale | svg_parser/glyph.py:132-141 | every segment is scaled coordinate-wise; nothing else changes |
| Segments.Translated | svg_parser/glyph.py:129-130 | translating a segment keeps its letter, its number of coordinates and its stamped context |
| Segments.Scaled | svg_parser/glyph.py:140-141 | scaling a segment keeps its letter, its number of coordinates and its stamped context |
| Segments.TranslateUndo | svg_parser/glyph.py:121-130 | translating by (dx, dy) and then by (-dx, -dy) restores the outline |
| Segments.ScaleUndo | svg_parser/glyph.py:132-141 | scaling by non-zero factors and then by their reciprocals restores the outline |
| Segments.FlipTwice | svg_parser/glyph.py:31 | the construction flip scale(1, -1) is its own inverse |
| Segments.ScaleThenTranslate | svg_parser/glyph.py:317-322 | scaling by f and translating by (dx, dy) maps each x to f*x + dx and each y to f*y + dy |
| Glyphs.Glyph.GlyphBBox | svg_parser/glyph.py:154-177 | fails with IndexError exactly when there is no segment, the first has fewer than two coordinates, or some segment has an odd number of coordinates. Otherwise y0 and y1 are the least and greatest y coordinates (each attained) and the width is the advance |
| Glyphs.ScanYs | svg_parser/glyph.py:165-176 | the inner loop over one segment's coordinate pairs. It fails exactly when the count is odd (the IndexError of `points[i + 1]`). Otherwise the bounds widen to cover every y coordinate, and each bound is either the old one or one of those y coordinates |
| Glyphs.Glyph.ClosestLine | svg_parser/glyph.py:196-213 | fails with IndexError on an empty glyph. Otherwise it returns the first segment at the least distance |
| Corners.Prev | svg_parser/glyph.py:230 | the index j of `lines[index - 1]`: a valid index with (j + 1) mod n = i, so index 0 wraps to the last segment as Python's index -1 does |
| Corners.FirstCloseFrom | svg_parser/glyph.py:226-229 | the first 'Z' at or after i, with no 'Z' between; none if there is no such 'Z' |
| Corners.LastLineFrom | svg_parser/glyph.py:215-233 | any result is a segment other than a move; running out of fuel is RecursionError |
| Corners.LastLine | svg_parser/glyph.py:215-233 | the segment before a segment, never a move |
| Corners.LastLineReaches | svg_parser/glyph.py:230-233 | walking backwards finishes once it can reach a segment other than a move within the fuel |
| Corners.AllMovesNeverEnd | svg_parser/glyph.py:230-232 | on an outline made only of moves, the backward walk never ends |
| Corners.LastLineFails | svg_parser/glyph.py:215-233 | last_line fails, with RecursionError, exactly when every segment is a move |
| Corners.FuelIrrelevant | svg_parser/glyph.py:230-233 | more recursion budget never changes a result once one is found |
| Corners.LastLineOfMove | svg_parser/glyph.py:226-229 | for a move, last_line is the first 'Z' at or after it, when there is one |
| Corners.OneStepShortWithLine | svg_parser/glyph.py:230-233 | on an outline with some segment other than a move, the fuel of one step per segment is as good as one more step |
| Corners.OneStepShortAllMoves | svg_parser/glyph.py:230-233 | on an outline made only of moves, both fuel bounds end in RecursionError alike |
| Corners.LastLineOfOther | svg_parser/glyph.py:230-233 | otherwise it is the segment before (cyclically), or that segment's own last_line when that segment is a move |
| Corners.CloseEdge | svg_parser/glyph.py:245-248 | the closing edge of a 'Z' leads from its previous point to the subpath origin. It fails with TypeError when either is missing |
| Corners.QuadOf | svg_parser/glyph.py:267-271 | the quadratic curve of a segment starts at its previous point. It fails with ValueError without that point or without 4 coordinates |
| Corners.StartDirection | svg_parser/glyph.py:259-272 | the direction a segment leaves its previous point in, per letter. For 'L' it leads to the first pair and fails without a previous point (TypeError) or a pair (IndexError, read first when the list is empty). For 'Z' it leads to the subpath origin and fails with TypeError when either point is missing. Any other letter is a quadratic and fails with ValueError without a previous point or 4 coordinates |
| Corners.EndDirection | svg_parser/glyph.py:273-287 | the direction a segment is left backwards along, per letter. For 'L' it leads from the first pair back to the previous point, failing with TypeError without that point and IndexError without a pair. For 'Z' it leads from the subpath origin back to the previous point, failing with TypeError when either is missing. Any other letter is a quadratic and fails with ValueError without a previous point or 4 coordinates |
| Corners.QuadraticStartDirection | svg_parser/glyph.py:267-272 | a curve segment starts in direction 2*(control - previous point), the derivative at t = 0 |
| Corners.QuadraticEndDirection | svg_parser/glyph.py:281-287 | a curve segment is left backwards in direction 2*(control - end point), the negated derivative at t = 1 |
| Corners.ZeroDirectionNeverSharp | svg_parser/glyph.py:261-295 | a zero direction never makes a sharp corner, since the source leaves it unnormalised and its cross product is 0 |
| Corners.TurnTestMatchesUnitVectors | svg_parser/glyph.py:289-294 | the square-root-free turn test agrees with "cross product of the unit directions > 0.1" |
| Corners.TurnTestScaleInvariant | svg_parser/glyph.py:260-294 | scaling either direction by a positive factor does not change the verdict, so normalising is immaterial |
| Corners.Predecessor | svg_parser/glyph.py:249-252 | the segment whose end direction is compared: last_line itself unless it is a 'Z'. A 'Z' missing either point fails with TypeError, a 'Z' with a zero closing edge is replaced by its own last_line, and any other 'Z' is kept. The result is a valid index |
| Corners.CornerAt | svg_parser/glyph.py:243-295 | the examination of one segment. A reported corner comes from a segment other than a move and is its previous point; when last_line fails it fails with RecursionError before anything else |
| Corners.MoveNeverCorner | svg_parser/glyph.py:257-258 | a move never produces a corner |
| Corners.ZeroCloseNeverCorner | svg_parser/glyph.py:245-248 | a 'Z' whose closing edge has zero length is skipped |
| Corners.CornerIsSharpTurn | svg_parser/glyph.py:243-295 | a reported corner is the segment's previous point, and its start direction turns sharply from its predecessor's end direction |
| Corners.SharpTurnIsCorner | svg_parser/glyph.py:243-295 | conversely, a segment other than a move that turns sharply is reported at its previous point, unless it is a 'Z' with a zero closing edge |
| Corners.Reporting | svg_parser/glyph.py:294-295 | the indices of segments that produce a corner are valid |
| Corners.Collect | svg_parser/glyph.py:242-297 | the scan's accumulator collects at most one corner per examined segment |
| Corners.CollectFails | svg_parser/glyph.py:243-297 | the scan fails exactly when some segment's examination fails, and then with the first such error |
| Corners.CollectSticks | svg_parser/glyph.py:243-297 | once an examination fails, the later segments do not change the outcome |
| Corners.CollectInOrder | svg_parser/glyph.py:242-297 | the collected corners are exactly the reported ones, in segment order |
| Corners.SharpCorners | svg_parser/glyph.py:235-297 | sharp_corners reports at most one corner per segment |
| Corners.CornersInSegmentOrder | svg_parser/glyph.py:235-297 | sharp_corners lists the corner of exactly the segments that produce one, each once, in segment order |
| Glyphs.Glyph.SharpCornersOf | svg_parser/glyph.py:235-297 | the loop's result, failure included, equals `SharpCorners` of the segments |
| Glyphs.Glyph.ScaleAndMoveToBBox | svg_parser/glyph.py:299-323 | fails exactly when the original glyph's box fails (IndexError), its advance is missing (TypeError) or zero (ZeroDivisionError), and then changes nothing. Otherwise it returns (x1 - x0) / advance (1 when they agree) and scales this glyph by it, then translates by (x0, -y0) |
| Scenarios.LinkSquare | svg_parser/glyph.py:78-107 | linking the square stamps each side with the previous vertex and the origin (0, 0) |
| Scenarios.SquareMove | svg_parser/glyph.py:257-258 | the square's move produces no corner |
| Scenarios.SquareVertex | svg_parser/glyph.py:243-295 | each side of the square produces its starting vertex |
| Scenarios.SquareCorners | svg_parser/glyph.py:235-297 | the linked square's corners are (0,0), (10,0), (10,10), (0,10), in drawing order |
| Scenarios.SquareOutline | svg_parser/glyph.py:78-107 | the square links successfully and its corner scan finds its four vertices |
| BezierTools.Comb | svg_parser/bezier_tools.py:33 | the binomial coefficient by Pascal's rule; it is at least 1 whenever k <= n |
| BezierTools.CombAbove | svg_parser/bezier_tools.py:33 | the binomial coefficient is 0 when choosing more than n |
| BezierTools.CombDiagonal | svg_parser/bezier_tools.py:33 | choosing all n of n gives 1 |
| BezierTools.Bernstein | svg_parser/bezier_tools.py:21-33 | comb(n, i) (1-t)^(n-i) t^i. It has no contract of its own: `BernsteinNonNegative` bounds it |
| BezierTools.BernsteinNonNegative | svg_parser/bezier_tools.py:21-33 | each Bernstein weight is non-negative for t in [0, 1] |
| BezierTools.Eval | svg_parser/bezier_tools.py:35-51 | the Bernstein sum over the control points, the specification of `point`. It has no contract of its own: `PointAt`, `EvalAtZero`, `EvalAtOne`, `EvalSingle` and `QuadraticForm` state its properties |
| BezierTools.PointAt | svg_parser/bezier_tools.py:35-51 | the accumulating loop computes the Bernstein sum `Eval` |
| BezierTools.EvalAtZero | svg_parser/bezier_tools.py:35-51 | the curve starts at its first control point |
| BezierTools.EvalAtOne | svg_parser/bezier_tools.py:35-51 | the curve ends at its last control point |
| BezierTools.EvalSingle | svg_parser/bezier_tools.py:35-51 | a single control point gives a constant curve |
| BezierTools.QuadraticForm | svg_parser/bezier_tools.py:35-51 | a quadratic curve is (1-t)^2 a + 2(1-t)t b + t^2 c on each axis |
| BezierTools.Derivative | svg_parser/bezier_tools.py:53-69 | n times the Bernstein sum of successive differences, the specification of `derivative`. It has no contract of its own: `DerivativeAt`, `DerivativeAtStart`, `DerivativeAtEnd` and `QuadraticDerivativeForm` state its properties |
| BezierTools.DerivativeAt | svg_parser/bezier_tools.py:53-69 | the loop computes n times the Bernstein sum of the differences of successive control points |
| BezierTools.Hodograph | svg_parser/bezier_tools.py:66-68 | there is one difference vector fewer than control points |
| BezierTools.DerivativeAtStart | svg_parser/bezier_tools.py:53-69 | the derivative at 0 is n(P1 - P0) |
| BezierTools.DerivativeAtEnd | svg_parser/bezier_tools.py:53-69 | the derivative at 1 is n(Pn - Pn-1) |
| BezierTools.LinearDerivativeIsConstant | svg_parser/bezier_tools.py:53-69 | a straight segment has the constant derivative P1 - P0 |
| BezierTools.QuadraticDerivativeForm | svg_parser/bezier_tools.py:53-69 | a quadratic's derivative interpolates linearly between 2(P1 - P0) and 2(P2 - P1) |
| BezierTools.QuarterTurn | svg_parser/bezier_tools.py:84-87 | the normal is perpendicular to the direction and as long, turned left, or right when flipped |
| BezierTools.Normal | svg_parser/bezier_tools.py:71-87 | the derivative turned a quarter left, or right when flipped, without the division by its norm (see "## Left out"). It has no contract of its own: `NormalPerpendicular` and `NormalFlipNegates` state its properties |
| BezierTools.NormalPerpendicular | svg_parser/bezier_tools.py:71-87 | the normal is perpendicular to the derivative |
| BezierTools.NormalFlipNegates | svg_parser/bezier_tools.py:84-87 | the flipped normal is the negated normal |
| BezierTools.QuadraticCritPoints | svg_parser/bezier_tools.py:103-119 | there are at most two critical points; how many exactly, and which, is stated by `CritPointsAreStationary` |
| BezierTools.CritPointsAreStationary | svg_parser/bezier_tools.py:103-119 | each axis contributes exactly one critical point when its parameter (a - b) / (a - 2b + c) exists and lies in [0, 1], and none when the denominator is zero or the parameter is out of range. Each point lies on the curve for some t in [0, 1] where one axis of the derivative is zero. The x-axis point comes first and the y-axis point last |
| BezierTools.EvenlySpacedHasNoCritPoints | svg_parser/bezier_tools.py:110-119 | a quadratic whose middle point is the midpoint of its ends has no critical point |
| BezierTools.Min | svg_parser/bezier_tools.py:135 | min is an element of the list and no larger than any |
| BezierTools.Max | svg_parser/bezier_tools.py:135 | max is an element of the list and no smaller than any |
| BezierTools.Span | svg_parser/bezier_tools.py:135 | the box of a non-empty point list holds every point, and each bound is attained: it is the x or y coordinate of some listed point |
| BezierTools.QuadraticBoundingBox | svg_parser/bezier_tools.py:121-135 | the box is well-formed and holds both end points and every critical point. Each bound is the x or y coordinate of an end point or a critical point, so the box is the least one holding them |
| BezierTools.IsInBoundingBox | svg_parser/bezier_tools.py:137-148 | the box test of `is_in_bounding_box`. It has no contract of its own: `EndpointsInBox` and `CurveInBox` state its properties |
| BezierTools.EndpointsInBox | svg_parser/bezier_tools.py:137-148 | both end points of the curve pass the box test |
| BezierTools.CurveInBox | svg_parser/bezier_tools.py:121-148 | every point of the quadratic for t in [0, 1] passes the box test |
| BezierTools.ClosestPoint | svg_parser/bezier_tools.py:150-170 | the result is the curve point at some sample t = k/100. It is the first sample at the least distance from the query point |

## Left out

- `svg_parser/line.py` is not part of this model. Its `Line` becomes the `Segment` datatype, and the model assumes:
  - `process_line(True)` does not change the coordinates;
  - `Line.transform` and `Line.scale` act coordinate by coordinate (even positions are x, odd are y) and leave the stamped context alone;
  - `svg_line` and `distance_to_line` are parameters (`render`, `dist`).
- `print_glyph` and `print_glyph_point_notation` are left out. They only print or build text from `line.py` output. The diagnostic prints in `sharp_corners` are also left out.
- Floating point is modelled by exact reals. Rounding, infinities and NaN are not modelled.
  - A zero denominator in `quadratic_crit_point` divides to inf or NaN in numpy. Either way the comparison with [0, 1] is false, so the model simply skips that axis.
- `BezierTools.ClosestPoint` samples the parameters k/100 for k = 0..100. The source adds 0.01 a hundred times in floating point, so its exact set of samples may differ at the end.
- `BezierTools.Normal`: does not divide the derivative by its norm (bezier_tools.py line 83), so its length is the derivative's and not 1, and a zero derivative gives the zero vector where the source gives NaN. Its direction is the source's, as `NormalPerpendicular` and `QuarterTurn` state.
- `tangent` has no member of its own. Corner directions are left unnormalised, and the turn test is squared out. `Corners.TurnTestMatchesUnitVectors` and `Corners.TurnTestScaleInvariant` show that this gives the same verdict as normalising.
- `Corners.StartDirection` and `Corners.EndDirection` give the quadratic case only its error conditions. The direction itself is stated by `Corners.QuadraticStartDirection` and `Corners.QuadraticEndDirection`.
- `isalpha` and `isnumeric` are restricted to ASCII letters and digits.
- Building a `Bezier` from a curve segment without a previous point or with fewer than 4 coordinates is taken to raise ValueError (numpy's ragged array).
- Python's recursion limit in `last_line` is modelled as a fuel bound of one step per segment. `RecursionError` is raised exactly when every segment is a move, the only case where the source recurses forever. CPython's real depth limit (about 1000 frames) is ignored: a backward walk over more than about 1000 consecutive moves would also raise there, but not in the model.
- `last_line` finds a segment with `list.index`, which compares with `==`. `Line` (in `svg_parser/line.py`) is taken to define no `__eq__`, so `==` is object identity and the match is the segment's own position. The model therefore uses the position.
- `Glyphs.Glyph.ClosestLine`: returns the index of the closest segment rather than the object itself.
- `Glyphs.Glyph.GlyphBBox`: the source computes x0 and x1 but returns 0 and the advance width in their place, so the model does not compute them.
- `Glyphs.Glyph.ScaleAndMoveToBBox`: the source computes the current height and the target height but never uses them, so the model leaves them out.
- `Glyphs.Glyph.ProcessLines`: on failure it states only that the letters and positions are kept, not how far the stamping got.
- The construction flip `scale(1, -1)` changes the coordinates but not the stamped context. So on a constructed glyph, `sharp_corners` compares flipped coordinates with unflipped stamps. The square scenario is therefore stated on the linked outline before the flip.
