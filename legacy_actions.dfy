/** The earlier annotation classes of gradia/ui/drawing_actions.py: padding
    that follows the pen width, a hit test that widens the bounds by a tenth
    of their extent, and a text box estimated from the character count. */
module LegacyActions {
  import opened Wrappers
  import opened Numbers
  import opened Geometry
  import A = Annotations

  datatype Action =
    | Stroke(points: seq<Point>, color: A.Color, penSize: real)
    | Arrow(start: Point, end: Point, color: A.Color, headSize: real, width: real)
    | Text(position: Point, text: string, color: A.Color, fontSize: real, family: string)
    | Line(start: Point, end: Point, color: A.Color, width: real)
    | Rect(start: Point, end: Point, color: A.Color, width: real, fill: Option<A.Color>)
    | Circle(start: Point, end: Point, color: A.Color, width: real, fill: Option<A.Color>)

  predicate IsSegment(a: Action) { a.Arrow? || a.Line? }

  predicate HasCorners(a: Action) { a.Arrow? || a.Line? || a.Rect? || a.Circle? }

  /** The padding of a two-corner annotation: half a percent of the pen
      width, or of the head size when that is larger for an arrow. */
  function CornerPadding(a: Action): real
    requires HasCorners(a)
  {
    if a.Arrow? then MaxR(a.width, a.headSize) / 200.0 else a.width / 200.0
  }

  /** `TextAction.get_bounds`: the extent estimated at 0.6 of the font size
      per character over 800, and the font size over 400 for the height. */
  function TextEstimate(position: Point, text: string, fontSize: real): Box {
    var w := |text| as real * fontSize * 0.6 / 800.0;
    var h := fontSize / 400.0;
    Box(position.x - w / 2.0, position.y - h, position.x + w / 2.0, position.y)
  }

  /** `get_bounds` of every kind. */
  function Bounds(a: Action): Box {
    match a
    case Stroke(ps, _, size) =>
      if |ps| == 0 then Box(0.0, 0.0, 0.0, 0.0) else Pad(A.Extent(ps), size / 200.0)
    case Text(pos, t, _, f, _) => TextEstimate(pos, t, f)
    case _ => Pad(Span(a.start, a.end), CornerPadding(a))
  }

  /** The widening of `contains_point` along one axis: a tenth of a positive
      extent, otherwise 0.01. */
  function Tolerance(extent: real): (r: real)
    ensures r > 0.0
  {
    if extent > 0.0 then extent * 0.1 else 0.01
  }

  /** The distance within which a line or arrow of the given width is hit. */
  function HitTolerance(width: real): real {
    0.01 + width / 200.0
  }

  /** The bounds widened by their tolerances. */
  function Widened(b: Box): Box {
    var tx := Tolerance(b.maxX - b.minX);
    var ty := Tolerance(b.maxY - b.minY);
    Box(b.minX - tx, b.minY - ty, b.maxX + tx, b.maxY + ty)
  }

  /** `contains_point`. A line or arrow of positive length is hit closer than
      `0.01 + width / 200` to the segment; a point-like one closer than the
      horizontal tolerance to its start (`hypot(...) < tolerance_x`, written
      on squares, both sides being non-negative). Every other kind is hit
      inside its widened bounds, edges included. */
  predicate Contains(a: Action, p: Point) {
    var b := Bounds(a);
    if IsSegment(a) then SegmentHit(p, a.start, a.end, HitTolerance(a.width), Tolerance(b.maxX - b.minX))
    else InBox(Widened(b), p)
  }

  /** `translate`: every stored point moves by `(dx, dy)`. */
  function Translate(a: Action, dx: real, dy: real): Action {
    match a
    case Stroke(ps, c, w) => Stroke(A.ShiftAll(ps, dx, dy), c, w)
    case Arrow(s, e, c, h, w) => Arrow(Shift(s, dx, dy), Shift(e, dx, dy), c, h, w)
    case Text(pos, t, c, f, fam) => Text(Shift(pos, dx, dy), t, c, f, fam)
    case Line(s, e, c, w) => Line(Shift(s, dx, dy), Shift(e, dx, dy), c, w)
    case Rect(s, e, c, w, f) => Rect(Shift(s, dx, dy), Shift(e, dx, dy), c, w, f)
    case Circle(s, e, c, w, f) => Circle(Shift(s, dx, dy), Shift(e, dx, dy), c, w, f)
  }

  // ---------------------------------------------------------------------
  // Bounds

  /** An empty stroke has the unpadded box `(0, 0, 0, 0)`; every point of a
      stroke drawn with a non-negative pen lies inside its bounds. */
  lemma StrokeBounds(a: Action, i: int)
    requires a.Stroke?
    ensures |a.points| == 0 ==> Bounds(a) == Box(0.0, 0.0, 0.0, 0.0)
    ensures 0 <= i < |a.points| && a.penSize >= 0.0 ==> InBox(Bounds(a), a.points[i])
  {
    if 0 <= i < |a.points| {
      A.ExtentCovers(a.points, i);
    }
  }

  /** A stroke's box is its points' extent grown by `pen_size / 200` on every side. */
  lemma StrokePadding(a: Action)
    requires a.Stroke? && |a.points| > 0
    ensures var b := Bounds(a); var e := A.Extent(a.points);
      && b.maxX - b.minX == e.maxX - e.minX + a.penSize / 100.0
      && b.maxY - b.minY == e.maxY - e.minY + a.penSize / 100.0
      && b.minX + b.maxX == e.minX + e.maxX && b.minY + b.maxY == e.minY + e.maxY
  {
  }

  /** The box of an arrow, line, rectangle or ellipse does not depend on
      which corner is the start; both corners lie inside it when the padding
      is not negative. */
  lemma CornerBounds(a: Action)
    requires HasCorners(a)
    ensures Bounds(a.(start := a.end, end := a.start)) == Bounds(a)
    ensures CornerPadding(a) >= 0.0 ==> InBox(Bounds(a), a.start) && InBox(Bounds(a), a.end)
  {
    var b := a.(start := a.end, end := a.start);
    assert CornerPadding(b) == CornerPadding(a);
    assert Span(b.start, b.end) == Span(a.start, a.end);
  }

  /** An arrow is padded by its width or its head size, whichever is larger. */
  lemma ArrowPadding(a: Action)
    requires a.Arrow?
    ensures a.width >= a.headSize ==> CornerPadding(a) == a.width / 200.0
    ensures a.width < a.headSize ==> CornerPadding(a) == a.headSize / 200.0
  {
  }

  /** The text estimate: `len(text) * font_size * 0.6 / 800` wide, centred on
      the anchor's x, `font_size / 400` high, with its bottom edge on the anchor. */
  lemma TextBounds(a: Action)
    requires a.Text?
    ensures var b := Bounds(a);
      && b.maxX - b.minX == |a.text| as real * a.fontSize * 0.6 / 800.0
      && b.minX + b.maxX == 2.0 * a.position.x
      && b.maxY == a.position.y && b.maxY - b.minY == a.fontSize / 400.0
  {
  }

  // ---------------------------------------------------------------------
  // Hit test

  /** Every point of the bounds of a box-tested kind is a hit, and a hit is
      never further out than the tolerance. */
  lemma BoundsAreHits(a: Action, p: Point)
    requires !IsSegment(a)
    ensures InBox(Bounds(a), p) ==> Contains(a, p)
    ensures Contains(a, p) ==> var b := Bounds(a);
      b.minX - Tolerance(b.maxX - b.minX) <= p.x <= b.maxX + Tolerance(b.maxX - b.minX)
  {
  }

  /** A line or arrow of positive length is hit exactly when some point of
      the segment lies closer than `0.01 + width / 200`. */
  lemma SegmentContains(a: Action, p: Point)
    requires IsSegment(a) && LenSq(a.start, a.end) > 0.0
    ensures Contains(a, p) <==> exists s :: NearAt(p, a.start, a.end, HitTolerance(a.width), s)
  {
    var b := Bounds(a);
    SegmentHitIff(p, a.start, a.end, HitTolerance(a.width), Tolerance(b.maxX - b.minX));
  }

  /** A line of positive width whose ends coincide is hit within a thousandth
      of its width of its point: the tolerance is a tenth of the padded box. */
  lemma PointLineRadius(a: Action, p: Point)
    requires a.Line? && a.start == a.end && a.width > 0.0
    ensures Contains(a, p) <==> DistSq(p, a.start) < (a.width / 1000.0) * (a.width / 1000.0)
  {
    var b := Bounds(a);
    assert b.maxX - b.minX == a.width / 100.0;
    assert LenSq(a.start, a.end) == 0.0;
  }

  // ---------------------------------------------------------------------
  // Translation

  lemma CornerTranslateBounds(a: Action, dx: real, dy: real)
    requires HasCorners(a)
    ensures Bounds(Translate(a, dx, dy)) == ShiftBox(Bounds(a), dx, dy)
  {
    var b := Translate(a, dx, dy);
    assert b.start == Shift(a.start, dx, dy) && b.end == Shift(a.end, dx, dy);
    assert CornerPadding(b) == CornerPadding(a);
    PadSpanShift(a.start, a.end, CornerPadding(a), dx, dy);
  }

  lemma PadSpanShift(s: Point, e: Point, pad: real, dx: real, dy: real)
    ensures Pad(Span(Shift(s, dx, dy), Shift(e, dx, dy)), pad) == ShiftBox(Pad(Span(s, e), pad), dx, dy)
  {
  }

  lemma StrokeTranslateBounds(a: Action, dx: real, dy: real)
    requires a.Stroke? && |a.points| > 0
    ensures Bounds(Translate(a, dx, dy)) == ShiftBox(Bounds(a), dx, dy)
  {
    A.ExtentShift(a.points, dx, dy);
  }

  /** Moving an annotation moves its bounds by the same offset, except an
      empty stroke, whose box is the constant `(0, 0, 0, 0)`. */
  lemma TranslateBounds(a: Action, dx: real, dy: real)
    ensures Bounds(Translate(a, dx, dy))
         == if a.Stroke? && |a.points| == 0 then Bounds(a) else ShiftBox(Bounds(a), dx, dy)
  {
    if HasCorners(a) {
      CornerTranslateBounds(a, dx, dy);
    } else if a.Stroke? && |a.points| > 0 {
      StrokeTranslateBounds(a, dx, dy);
    }
  }

  /** Moving keeps the kind, the colour, the sizes, the text and the number
      of stroke points. */
  lemma TranslateKeeps(a: Action, dx: real, dy: real)
    ensures var b := Translate(a, dx, dy);
      && b.color == a.color && IsSegment(b) == IsSegment(a) && HasCorners(b) == HasCorners(a)
      && (a.Stroke? ==> b.Stroke? && |b.points| == |a.points| && b.penSize == a.penSize)
      && (HasCorners(a) ==> b.width == a.width)
      && (a.Arrow? ==> b.headSize == a.headSize)
      && (a.Text? ==> b.Text? && b.text == a.text && b.fontSize == a.fontSize)
  {
  }

  /** The hit test moves with the annotation (an empty stroke excepted). */
  lemma TranslateContains(a: Action, p: Point, dx: real, dy: real)
    requires !(a.Stroke? && |a.points| == 0)
    ensures Contains(Translate(a, dx, dy), Shift(p, dx, dy)) <==> Contains(a, p)
  {
    TranslateBounds(a, dx, dy);
    if IsSegment(a) {
      var b := Bounds(a);
      A.SegmentHitShift(p, a.start, a.end, HitTolerance(a.width), Tolerance(b.maxX - b.minX), dx, dy);
    }
  }
}
