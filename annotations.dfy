/** The annotation kinds of the drawing overlay (gradia/overlay/drawing_actions.py):
    their bounding boxes, hit tests, translation and the geometry of the
    censor (pixelation) tool. Coordinates are relative to the image, in [0, 1]
    when inside it. */
module Annotations {
  import opened Wrappers
  import opened Numbers
  import opened Strings
  import opened Geometry

  datatype Color = Color(r: real, g: real, b: real, a: real)

  /** Width and height of a pixel buffer. */
  datatype Raster = Raster(width: int, height: int)

  /** Pango text measurement: for a text, a font family and a font size in
      Pango units, the logical extents in Pango units. */
  type Measure = (string, string, int) -> (int, int)

  /** `Pango.SCALE`. */
  const PangoScale: int := 1024

  /** `DrawingAction.DEFAULT_PADDING`. */
  const DefaultPadding: real := 0.02

  datatype Action =
    | Stroke(points: seq<Point>, color: Color, penSize: real)
    | Highlighter(points: seq<Point>, color: Color, penSize: real)
    | Arrow(start: Point, end: Point, color: Color, headSize: real, width: real)
      /** `LineAction` subclasses `ArrowAction`; the overlay passes a head size of 0. */
    | Line(start: Point, end: Point, color: Color, headSize: real, width: real)
    | Rect(start: Point, end: Point, color: Color, width: real, fill: Option<Color>)
    | Circle(start: Point, end: Point, color: Color, width: real, fill: Option<Color>)
    | Text(position: Point, text: string, color: Color, fontSize: real,
           imageBounds: Raster, family: string)
      /** The rectangle fields inherited from `RectAction` are the constants
          `(0, 0, 0, 0)`, `0` and `None` and are not kept. */
    | Censor(start: Point, end: Point, level: int, background: Option<Raster>)

  predicate IsSegment(a: Action) { a.Arrow? || a.Line? }

  predicate IsFreehand(a: Action) { a.Stroke? || a.Highlighter? }

  predicate HasCorners(a: Action) {
    a.Arrow? || a.Line? || a.Rect? || a.Circle? || a.Censor?
  }

  predicate EmptyFreehand(a: Action) { IsFreehand(a) && |a.points| == 0 }

  // ---------------------------------------------------------------------
  // Extremes of a point list

  function MinX(ps: seq<Point>): real
    requires |ps| > 0
  {
    if |ps| == 1 then ps[0].x else MinR(ps[0].x, MinX(ps[1..]))
  }

  function MaxX(ps: seq<Point>): real
    requires |ps| > 0
  {
    if |ps| == 1 then ps[0].x else MaxR(ps[0].x, MaxX(ps[1..]))
  }

  function MinY(ps: seq<Point>): real
    requires |ps| > 0
  {
    if |ps| == 1 then ps[0].y else MinR(ps[0].y, MinY(ps[1..]))
  }

  function MaxY(ps: seq<Point>): real
    requires |ps| > 0
  {
    if |ps| == 1 then ps[0].y else MaxR(ps[0].y, MaxY(ps[1..]))
  }

  /** Every point of a non-empty list lies in its extent. */
  lemma {:induction false} ExtentCovers(ps: seq<Point>, i: int)
    requires 0 <= i < |ps|
    ensures MinX(ps) <= ps[i].x <= MaxX(ps) && MinY(ps) <= ps[i].y <= MaxY(ps)
    decreases |ps|
  {
    if i > 0 {
      ExtentCovers(ps[1..], i - 1);
    }
  }

  /** The box spanned by a non-empty point list. */
  function Extent(ps: seq<Point>): Box
    requires |ps| > 0
  {
    Box(MinX(ps), MinY(ps), MaxX(ps), MaxY(ps))
  }

  function ShiftAll(ps: seq<Point>, dx: real, dy: real): seq<Point>
  {
    seq(|ps|, i requires 0 <= i < |ps| => Shift(ps[i], dx, dy))
  }

  lemma ShiftAllTail(ps: seq<Point>, dx: real, dy: real)
    requires |ps| > 0
    ensures ShiftAll(ps, dx, dy)[1..] == ShiftAll(ps[1..], dx, dy)
  {
  }

  lemma {:induction false} MinXShift(ps: seq<Point>, dx: real, dy: real)
    requires |ps| > 0
    ensures MinX(ShiftAll(ps, dx, dy)) == MinX(ps) + dx
    decreases |ps|
  {
    if |ps| > 1 {
      ShiftAllTail(ps, dx, dy);
      MinXShift(ps[1..], dx, dy);
    }
  }

  lemma {:induction false} MaxXShift(ps: seq<Point>, dx: real, dy: real)
    requires |ps| > 0
    ensures MaxX(ShiftAll(ps, dx, dy)) == MaxX(ps) + dx
    decreases |ps|
  {
    if |ps| > 1 {
      ShiftAllTail(ps, dx, dy);
      MaxXShift(ps[1..], dx, dy);
    }
  }

  lemma {:induction false} MinYShift(ps: seq<Point>, dx: real, dy: real)
    requires |ps| > 0
    ensures MinY(ShiftAll(ps, dx, dy)) == MinY(ps) + dy
    decreases |ps|
  {
    if |ps| > 1 {
      ShiftAllTail(ps, dx, dy);
      MinYShift(ps[1..], dx, dy);
    }
  }

  lemma {:induction false} MaxYShift(ps: seq<Point>, dx: real, dy: real)
    requires |ps| > 0
    ensures MaxY(ShiftAll(ps, dx, dy)) == MaxY(ps) + dy
    decreases |ps|
  {
    if |ps| > 1 {
      ShiftAllTail(ps, dx, dy);
      MaxYShift(ps[1..], dx, dy);
    }
  }

  /** Shifting every point shifts the extent by the same amount. */
  lemma ExtentShift(ps: seq<Point>, dx: real, dy: real)
    requires |ps| > 0
    ensures Extent(ShiftAll(ps, dx, dy)) == ShiftBox(Extent(ps), dx, dy)
  {
    MinXShift(ps, dx, dy);
    MaxXShift(ps, dx, dy);
    MinYShift(ps, dx, dy);
    MaxYShift(ps, dx, dy);
  }

  // ---------------------------------------------------------------------
  // Bounds, hit test, translation

  /** `a / b`, read as 0 when `b` is 0. Python raises `ZeroDivisionError`
      there; README's "Left out" line for `TextExtent` names that gap. */
  function SafeDiv(a: real, b: real): real {
    if b == 0.0 then 0.0 else a / b
  }

  /** `TextAction.get_bounds` for a text with visible characters: the measured
      layout, converted from pixels to image units by the image size recorded
      at creation, centred horizontally on the anchor and extending upwards. */
  function TextBox(position: Point, text: string, fontSize: real, imageBounds: Raster,
                   family: string, measure: Measure): Box
  {
    AnchoredBox(position, TextExtent(text, fontSize, imageBounds, family, measure))
  }

  /** The padded box of a layout of size `ext` anchored at the middle of its
      bottom edge. */
  function AnchoredBox(position: Point, ext: (real, real)): Box {
    Pad(Box(position.x - ext.0 / 2.0, position.y - ext.1, position.x + ext.0 / 2.0, position.y), DefaultPadding)
  }

  /** Width and height of the laid-out text in image units: Pango extents at
      `int(font_size * Pango.SCALE)`, divided by `Pango.SCALE` and by the
      reference image size. */
  function TextExtent(text: string, fontSize: real, imageBounds: Raster, family: string,
                      measure: Measure): (real, real)
  {
    var ext := measure(text, family, Trunc(fontSize * PangoScale as real));
    var widthPx := ext.0 as real / PangoScale as real;
    var heightPx := ext.1 as real / PangoScale as real;
    (SafeDiv(widthPx, imageBounds.width as real), SafeDiv(heightPx, imageBounds.height as real))
  }

  /** `get_bounds` of every annotation kind. */
  function Bounds(a: Action, measure: Measure): Box {
    match a
    case Stroke(ps, _, _) =>
      if |ps| == 0 then Box(0.0, 0.0, 0.0, 0.0) else Pad(Extent(ps), DefaultPadding)
    case Highlighter(ps, _, _) =>
      if |ps| == 0 then Box(0.0, 0.0, 0.0, 0.0) else Pad(Extent(ps), DefaultPadding)
    case Text(pos, text, _, fontSize, imageBounds, family) =>
      if Strip(text) == "" then Box(pos.x, pos.y, pos.x, pos.y)
      else TextBox(pos, text, fontSize, imageBounds, family, measure)
    case _ => Pad(Span(a.start, a.end), DefaultPadding)
  }

  /** The hit tolerance of a line or arrow of the given pen width. */
  function SegmentTolerance(width: real): real {
    0.01 + width / 200.0
  }

  /** `contains_point`: lines and arrows use the segment distance test, every
      other kind its bounding box (inclusive). */
  predicate Contains(a: Action, p: Point, measure: Measure) {
    if IsSegment(a) then SegmentHit(p, a.start, a.end, SegmentTolerance(a.width), DefaultPadding)
    else InBox(Bounds(a, measure), p)
  }

  /** `translate`. */
  function Translate(a: Action, dx: real, dy: real): Action {
    match a
    case Stroke(ps, c, w) => Stroke(ShiftAll(ps, dx, dy), c, w)
    case Highlighter(ps, c, w) => Highlighter(ShiftAll(ps, dx, dy), c, w)
    case Text(pos, t, c, f, ib, fam) => Text(Shift(pos, dx, dy), t, c, f, ib, fam)
    case Arrow(s, e, c, h, w) => Arrow(Shift(s, dx, dy), Shift(e, dx, dy), c, h, w)
    case Line(s, e, c, h, w) => Line(Shift(s, dx, dy), Shift(e, dx, dy), c, h, w)
    case Rect(s, e, c, w, f) => Rect(Shift(s, dx, dy), Shift(e, dx, dy), c, w, f)
    case Circle(s, e, c, w, f) => Circle(Shift(s, dx, dy), Shift(e, dx, dy), c, w, f)
    case Censor(s, e, l, bg) => Censor(Shift(s, dx, dy), Shift(e, dx, dy), l, bg)
  }

  /** Moving an annotation moves its bounding box by the same offset; only an
      empty stroke, whose bounds are the constant `(0, 0, 0, 0)`, stays put. */
  lemma TranslateBounds(a: Action, dx: real, dy: real, measure: Measure)
    ensures Bounds(Translate(a, dx, dy), measure)
         == if EmptyFreehand(a) then Bounds(a, measure) else ShiftBox(Bounds(a, measure), dx, dy)
  {
    if IsFreehand(a) {
      FreehandBoundsShift(a, dx, dy, measure);
    } else if a.Text? {
      TextBoundsShift(a.position, a.text, a.color, a.fontSize, a.imageBounds, a.family, dx, dy, measure);
    } else {
      CornerBoundsShift(a, dx, dy, measure);
    }
  }

  lemma FreehandBoundsShift(a: Action, dx: real, dy: real, measure: Measure)
    requires IsFreehand(a)
    ensures Bounds(Translate(a, dx, dy), measure)
         == if |a.points| == 0 then Bounds(a, measure) else ShiftBox(Bounds(a, measure), dx, dy)
  {
    if |a.points| > 0 {
      PaddedExtentShift(a.points, dx, dy);
    }
  }

  lemma TextBoundsShift(pos: Point, t: string, c: Color, f: real, ib: Raster, fam: string,
                        dx: real, dy: real, measure: Measure)
    ensures var a := Text(pos, t, c, f, ib, fam);
      Bounds(Translate(a, dx, dy), measure) == ShiftBox(Bounds(a, measure), dx, dy)
  {
    if Strip(t) != "" {
      AnchoredShift(pos, TextExtent(t, f, ib, fam, measure), dx, dy);
    }
  }

  lemma CornerBoundsShift(a: Action, dx: real, dy: real, measure: Measure)
    requires HasCorners(a)
    ensures Bounds(Translate(a, dx, dy), measure) == ShiftBox(Bounds(a, measure), dx, dy)
  {
    SpanShift(a.start, a.end, dx, dy);
  }

  lemma PaddedExtentShift(ps: seq<Point>, dx: real, dy: real)
    requires |ps| > 0
    ensures Pad(Extent(ShiftAll(ps, dx, dy)), DefaultPadding) == ShiftBox(Pad(Extent(ps), DefaultPadding), dx, dy)
  {
    ExtentShift(ps, dx, dy);
  }

  lemma AnchoredShift(pos: Point, ext: (real, real), dx: real, dy: real)
    ensures AnchoredBox(Shift(pos, dx, dy), ext) == ShiftBox(AnchoredBox(pos, ext), dx, dy)
  {
  }

  lemma SpanShift(s: Point, e: Point, dx: real, dy: real)
    ensures Pad(Span(Shift(s, dx, dy), Shift(e, dx, dy)), DefaultPadding)
         == ShiftBox(Pad(Span(s, e), DefaultPadding), dx, dy)
  {
  }

  /** Translation keeps the kind and every attribute other than position. */
  lemma TranslateKeepsKind(a: Action, dx: real, dy: real)
    ensures var b := Translate(a, dx, dy);
      IsSegment(b) == IsSegment(a) && IsFreehand(b) == IsFreehand(a) && HasCorners(b) == HasCorners(a)
      && b.Stroke? == a.Stroke? && b.Highlighter? == a.Highlighter? && b.Arrow? == a.Arrow?
      && b.Line? == a.Line? && b.Rect? == a.Rect? && b.Circle? == a.Circle?
      && b.Text? == a.Text? && b.Censor? == a.Censor?
      && (!a.Censor? ==> b.color == a.color)
      && (IsFreehand(a) ==> |b.points| == |a.points| && b.penSize == a.penSize)
      && (IsSegment(a) ==> b.headSize == a.headSize && b.width == a.width)
      && (a.Rect? || a.Circle? ==> b.width == a.width && b.fill == a.fill)
      && (a.Censor? ==> b.level == a.level && b.background == a.background)
      && (a.Text? ==> b.text == a.text && b.fontSize == a.fontSize
                      && b.family == a.family && b.imageBounds == a.imageBounds)
  {
  }

  /** Two moves add up to one. */
  lemma TranslateCompose(a: Action, dx1: real, dy1: real, dx2: real, dy2: real)
    ensures Translate(Translate(a, dx1, dy1), dx2, dy2) == Translate(a, dx1 + dx2, dy1 + dy2)
  {
    if IsFreehand(a) {
      assert ShiftAll(ShiftAll(a.points, dx1, dy1), dx2, dy2) == ShiftAll(a.points, dx1 + dx2, dy1 + dy2);
    }
  }

  /** A move by `(0, 0)` changes nothing. */
  lemma TranslateZero(a: Action)
    ensures Translate(a, 0.0, 0.0) == a
  {
    if IsFreehand(a) {
      assert ShiftAll(a.points, 0.0, 0.0) == a.points;
    }
  }

  /** The hit test moves with the annotation: the moved annotation is hit at
      the moved point exactly when the original is hit at the original point
      (an empty stroke excepted, its bounds do not move). */
  lemma TranslateContains(a: Action, p: Point, dx: real, dy: real, measure: Measure)
    requires !EmptyFreehand(a)
    ensures Contains(Translate(a, dx, dy), Shift(p, dx, dy), measure) <==> Contains(a, p, measure)
  {
    if IsSegment(a) {
      SegmentHitShift(p, a.start, a.end, SegmentTolerance(a.width), DefaultPadding, dx, dy);
    } else {
      TranslateBounds(a, dx, dy, measure);
    }
  }

  /** The segment test is unchanged when everything is moved together. */
  lemma SegmentHitShift(p: Point, a: Point, b: Point, tol: real, radius: real, dx: real, dy: real)
    ensures SegmentHit(Shift(p, dx, dy), Shift(a, dx, dy), Shift(b, dx, dy), tol, radius)
        <==> SegmentHit(p, a, b, tol, radius)
  {
    DistSqShift(p, a, dx, dy);
    DistSqShift(b, a, dx, dy);
    if LenSq(a, b) != 0.0 {
      DotShift(p, a, b, dx, dy);
      var t := ClosestParam(p, a, b);
      LerpShift(a, b, t, dx, dy);
      DistSqShift(p, Lerp(a, b, t), dx, dy);
    }
  }

  /** Every point of a stroke lies inside the stroke's bounds. */
  lemma FreehandBoundsCover(a: Action, i: int, measure: Measure)
    requires IsFreehand(a) && 0 <= i < |a.points|
    ensures InBox(Bounds(a, measure), a.points[i])
  {
    ExtentCovers(a.points, i);
  }

  /** A hit lies inside the bounding box whenever a line or arrow is at most
      2 units wide: then the hit tolerance does not exceed the padding. */
  lemma HitInsideBounds(a: Action, p: Point, measure: Measure)
    requires IsSegment(a) ==> 0.0 <= a.width <= 2.0
    requires Contains(a, p, measure)
    ensures InBox(Bounds(a, measure), p)
  {
    if IsSegment(a) {
      SegmentHitInPaddedSpan(p, a.start, a.end, SegmentTolerance(a.width), DefaultPadding);
    }
  }

  /** A wide arrow is hit at a point outside its own bounding box: the hit
      tolerance `0.01 + width / 200` outgrows the fixed padding of 0.02. */
  lemma WideArrowHitOutsideBounds(measure: Measure)
    ensures var a := Arrow(Point(0.0, 0.0), Point(1.0, 0.0), Color(1.0, 1.0, 1.0, 1.0), 25.0, 10.0);
      var p := Point(0.5, 0.05);
      Contains(a, p, measure) && !InBox(Bounds(a, measure), p)
  {
    var s, e, p := Point(0.0, 0.0), Point(1.0, 0.0), Point(0.5, 0.05);
    UnitSegmentHit(p);
    assert SegmentTolerance(10.0) == 0.06;
    assert Span(s, e) == Box(0.0, 0.0, 1.0, 0.0);
  }

  /** The point `(0.5, 0.05)` is within 0.06 of the unit segment along the x axis. */
  lemma UnitSegmentHit(p: Point)
    requires p == Point(0.5, 0.05)
    ensures SegmentHit(p, Point(0.0, 0.0), Point(1.0, 0.0), 0.06, DefaultPadding)
  {
    var s, e := Point(0.0, 0.0), Point(1.0, 0.0);
    assert LenSq(s, e) == 1.0;
    assert Dot(p, s, e) == 0.5;
    assert Clamp01(0.5 / 1.0) == 0.5;
    assert Lerp(s, e, 0.5) == Point(0.5, 0.0);
    assert DistSq(p, Point(0.5, 0.0)) == 0.05 * 0.05;
  }

  /** A text with no visible character has the anchor point as its (unpadded) bounds. */
  lemma BlankTextBounds(a: Action, measure: Measure)
    requires a.Text? && forall i :: 0 <= i < |a.text| ==> IsSpace(a.text[i])
    ensures Bounds(a, measure) == Box(a.position.x, a.position.y, a.position.x, a.position.y)
    ensures forall p :: Contains(a, p, measure) <==> p == a.position
  {
    StripBlank(a.text);
  }

  /** A text's box is centred horizontally on its anchor and spans upward from it. */
  lemma TextBoundsAnchored(a: Action, measure: Measure)
    requires a.Text? && Strip(a.text) != ""
    ensures var b := Bounds(a, measure);
      b.minX + b.maxX == 2.0 * a.position.x && b.maxY == a.position.y + DefaultPadding
  {
    assert Bounds(a, measure) == AnchoredBox(a.position, TextExtent(a.text, a.fontSize, a.imageBounds, a.family, measure));
  }

  // ---------------------------------------------------------------------
  // Censor geometry

  /** A rectangle in widget pixels, as `_get_widget_rect` builds it. */
  datatype WidgetRect = WidgetRect(x: real, y: real, width: real, height: real)

  /** A pixel region of the background, as `_get_crop_region` builds it. */
  datatype Crop = Crop(x: int, y: int, width: int, height: int)

  /** `_get_widget_rect`: the normalised rectangle between the two corners
      (already mapped to widget coordinates), or `None` when it is thinner
      than one pixel in either direction. */
  function CensorWidgetRect(p1: Point, p2: Point): (r: Option<WidgetRect>)
    ensures r.Some? <==> AbsR(p2.x - p1.x) >= 1.0 && AbsR(p2.y - p1.y) >= 1.0
    ensures r.Some? ==> r.value.x == MinR(p1.x, p2.x) && r.value.y == MinR(p1.y, p2.y)
    ensures r.Some? ==> (r.value.x + r.value.width == MaxR(p1.x, p2.x)
                         && r.value.y + r.value.height == MaxR(p1.y, p2.y))
  {
    var rect := WidgetRect(MinR(p1.x, p2.x), MinR(p1.y, p2.y), AbsR(p2.x - p1.x), AbsR(p2.y - p1.y));
    if rect.width >= 1.0 && rect.height >= 1.0 then Some(rect) else None
  }

  /** `max(0, min(v, limit - 1))`. */
  function ClampIndex(v: int, limit: int): (r: int)
    ensures r >= 0
    ensures limit >= 1 ==> r <= limit - 1
  {
    Max(0, Min(v, limit - 1))
  }

  /** `int(v * size)`: a relative coordinate in pixels, truncated. */
  function ToPixel(v: real, size: int): int {
    Trunc(v * size as real)
  }

  /** `_get_crop_region`: scale both corners to background pixels (truncating),
      clamp each into the image, order them, and take the inclusive region. */
  function CropRegion(start: Point, end: Point, bg: Raster): Option<Crop> {
    var w, h := bg.width, bg.height;
    var x1, y1 := ClampIndex(ToPixel(start.x, w), w), ClampIndex(ToPixel(start.y, h), h);
    var x2, y2 := ClampIndex(ToPixel(end.x, w), w), ClampIndex(ToPixel(end.y, h), h);
    var lx, hx := Min(x1, x2), Max(x1, x2);
    var ly, hy := Min(y1, y2), Max(y1, y2);
    var cw, ch := hx - lx + 1, hy - ly + 1;
    if cw <= 0 || ch <= 0 then None else Some(Crop(lx, ly, cw, ch))
  }

  /** The crop region always exists and, for a non-empty background, lies
      inside it and contains both clamped corners. */
  lemma CropRegionInside(start: Point, end: Point, bg: Raster)
    ensures CropRegion(start, end, bg).Some?
    ensures var c := CropRegion(start, end, bg).value;
      c.width >= 1 && c.height >= 1 && c.x >= 0 && c.y >= 0
      && (bg.width >= 1 ==> c.x + c.width <= bg.width)
      && (bg.height >= 1 ==> c.y + c.height <= bg.height)
    ensures var c := CropRegion(start, end, bg).value;
      var x1 := ClampIndex(ToPixel(start.x, bg.width), bg.width);
      var x2 := ClampIndex(ToPixel(end.x, bg.width), bg.width);
      c.x == Min(x1, x2) && c.x + c.width - 1 == Max(x1, x2)
  {
  }

  /** `max(1, size // pixel_size)`: the size the crop is scaled down to. */
  function PixelatedSize(size: int, level: int): (r: int)
    requires level >= 1
    ensures r >= 1
    ensures size >= 0 ==> r * level <= Max(size, level) && Max(size, level) < (r + 1) * level
  {
    Max(1, size / level)
  }

  /** What `CensorAction.draw` paints. */
  datatype CensorPaint =
    | Fallback(rect: Option<WidgetRect>)
    | Nothing
    | Pixelated(crop: Crop, smallWidth: int, smallHeight: int, outWidth: int, outHeight: int, at: WidgetRect)

  /** `CensorAction.draw`: with no widget rectangle or no background, the grey
      fallback (drawn only when there is a rectangle); otherwise crop the
      background, scale down by the pixelation level, randomise, and scale
      back up to the widget rectangle. `p1` and `p2` are the corners mapped to
      widget coordinates. */
  function CensorDraw(a: Action, p1: Point, p2: Point): CensorPaint
    requires a.Censor? && a.level >= 1
  {
    var rect := CensorWidgetRect(p1, p2);
    if rect.None? || a.background.None? then Fallback(rect)
    else
      match CropRegion(a.start, a.end, a.background.value)
      case None => Nothing
      case Some(c) =>
        Pixelated(c, PixelatedSize(c.width, a.level), PixelatedSize(c.height, a.level),
                  Trunc(rect.value.width), Trunc(rect.value.height), rect.value)
  }

  /** A censor with a background and a visible rectangle is always pixelated:
      its crop lies inside the background and every intermediate size is at
      least one pixel. */
  lemma CensorDrawPixelates(a: Action, p1: Point, p2: Point)
    requires a.Censor? && a.level >= 1 && a.background.Some?
    requires a.background.value.width >= 1 && a.background.value.height >= 1
    requires CensorWidgetRect(p1, p2).Some?
    ensures var d := CensorDraw(a, p1, p2);
      d.Pixelated? && d.smallWidth >= 1 && d.smallHeight >= 1 && d.outWidth >= 1 && d.outHeight >= 1
      && d.crop.x + d.crop.width <= a.background.value.width
      && d.crop.y + d.crop.height <= a.background.value.height
  {
    CropRegionInside(a.start, a.end, a.background.value);
  }
}
