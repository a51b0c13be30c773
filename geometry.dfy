/** Plane geometry shared by the annotation models: points and boxes in
    image-relative coordinates, padding, translation and the segment hit
    test used for lines and arrows. */
module Geometry {
  import opened Numbers

  datatype Point = Point(x: real, y: real)

  /** A `(min_x, min_y, max_x, max_y)` tuple. */
  datatype Box = Box(minX: real, minY: real, maxX: real, maxY: real)

  /** `apply_padding`: grow a box by `pad` on every side. */
  function Pad(b: Box, pad: real): (r: Box)
    ensures r.maxX - r.minX == b.maxX - b.minX + 2.0 * pad
    ensures r.maxY - r.minY == b.maxY - b.minY + 2.0 * pad
    ensures r.minX + r.maxX == b.minX + b.maxX && r.minY + r.maxY == b.minY + b.maxY
  {
    Box(b.minX - pad, b.minY - pad, b.maxX + pad, b.maxY + pad)
  }

  /** `min_x <= x <= max_x and min_y <= y <= max_y`. */
  predicate InBox(b: Box, p: Point) {
    b.minX <= p.x <= b.maxX && b.minY <= p.y <= b.maxY
  }

  function Shift(p: Point, dx: real, dy: real): Point {
    Point(p.x + dx, p.y + dy)
  }

  function ShiftBox(b: Box, dx: real, dy: real): Box {
    Box(b.minX + dx, b.minY + dy, b.maxX + dx, b.maxY + dy)
  }

  /** The box spanned by two corners, as `min`/`max` of their coordinates. */
  function Span(a: Point, b: Point): (r: Box)
    ensures InBox(r, a) && InBox(r, b)
    ensures r.minX == a.x || r.minX == b.x
    ensures r.maxX == a.x || r.maxX == b.x
    ensures r.minY == a.y || r.minY == b.y
    ensures r.maxY == a.y || r.maxY == b.y
  {
    Box(MinR(a.x, b.x), MinR(a.y, b.y), MaxR(a.x, b.x), MaxR(a.y, b.y))
  }

  function DistSq(p: Point, q: Point): real {
    (p.x - q.x) * (p.x - q.x) + (p.y - q.y) * (p.y - q.y)
  }

  function LenSq(a: Point, b: Point): real {
    DistSq(b, a)
  }

  /** The point `a + s * (b - a)`. */
  function Lerp(a: Point, b: Point, s: real): Point {
    Point(a.x + s * (b.x - a.x), a.y + s * (b.y - a.y))
  }

  lemma DistSqShift(p: Point, q: Point, dx: real, dy: real)
    ensures DistSq(Shift(p, dx, dy), Shift(q, dx, dy)) == DistSq(p, q)
  {
    assert Shift(p, dx, dy).x - Shift(q, dx, dy).x == p.x - q.x;
    assert Shift(p, dx, dy).y - Shift(q, dx, dy).y == p.y - q.y;
  }

  lemma DotShift(p: Point, a: Point, b: Point, dx: real, dy: real)
    ensures Dot(Shift(p, dx, dy), Shift(a, dx, dy), Shift(b, dx, dy)) == Dot(p, a, b)
  {
    assert Shift(p, dx, dy).x - Shift(a, dx, dy).x == p.x - a.x;
    assert Shift(p, dx, dy).y - Shift(a, dx, dy).y == p.y - a.y;
    assert Shift(b, dx, dy).x - Shift(a, dx, dy).x == b.x - a.x;
    assert Shift(b, dx, dy).y - Shift(a, dx, dy).y == b.y - a.y;
  }

  lemma LerpShift(a: Point, b: Point, s: real, dx: real, dy: real)
    ensures Lerp(Shift(a, dx, dy), Shift(b, dx, dy), s) == Shift(Lerp(a, b, s), dx, dy)
  {
    assert Shift(b, dx, dy).x - Shift(a, dx, dy).x == b.x - a.x;
    assert Shift(b, dx, dy).y - Shift(a, dx, dy).y == b.y - a.y;
  }

  /** `max(0, min(1, t))`. */
  function Clamp01(t: real): (r: real)
    ensures 0.0 <= r <= 1.0
    ensures 0.0 <= t <= 1.0 ==> r == t
  {
    MaxR(0.0, MinR(1.0, t))
  }

  /** `(p - a) . (b - a)`. */
  function Dot(p: Point, a: Point, b: Point): real {
    (p.x - a.x) * (b.x - a.x) + (p.y - a.y) * (b.y - a.y)
  }

  /** The projection parameter of `p` onto the line through `a` and `b`, clamped to the segment. */
  function ClosestParam(p: Point, a: Point, b: Point): real
    requires LenSq(a, b) > 0.0
  {
    Clamp01(Dot(p, a, b) / LenSq(a, b))
  }

  /** The hit test of `contains_point` for lines and arrows: a zero-length
      segment is hit within `radius` of its start, any other segment when the
      clamped projection of `p` lies closer than `tol`. Python compares
      `hypot(...) < radius`; with `radius >= 0` that is the squared comparison. */
  predicate SegmentHit(p: Point, a: Point, b: Point, tol: real, radius: real) {
    if LenSq(a, b) == 0.0 then DistSq(p, a) < radius * radius
    else DistSq(p, Lerp(a, b, ClosestParam(p, a, b))) < tol * tol
  }

  predicate NearAt(p: Point, a: Point, b: Point, tol: real, s: real) {
    0.0 <= s <= 1.0 && DistSq(p, Lerp(a, b, s)) < tol * tol
  }

  // Scalar facts the nonlinear steps below are assembled from.

  lemma MulMono(a: real, b: real, c: real)
    requires a <= b && c >= 0.0
    ensures a * c <= b * c && c * a <= c * b
  {
  }

  lemma SqBelowUpper(e: real, r: real)
    requires r > 0.0 && e * e < r * r
    ensures e < r
  {
    if e >= r {
      MulMono(r, e, e);
      MulMono(r, e, r);
    }
  }

  /** `e * e < r * r` bounds `e` on both sides. */
  lemma SqBelow(e: real, r: real)
    requires r > 0.0 && e * e < r * r
    ensures -r < e < r
  {
    SqBelowUpper(e, r);
    assert (-e) * (-e) == e * e;
    SqBelowUpper(-e, r);
  }

  /** `u + s * (v - u)` lies between `u` and `v`. */
  lemma Between(u: real, v: real, s: real)
    requires 0.0 <= s <= 1.0
    ensures MinR(u, v) <= u + s * (v - u) <= MaxR(u, v)
  {
    var d := v - u;
    var m := s * d;
    if d >= 0.0 {
      MulMono(0.0, s, d);
      MulMono(s, 1.0, d);
      assert 0.0 <= m <= d;
    } else {
      MulMono(0.0, s, -d);
      MulMono(s, 1.0, -d);
      assert s * (-d) == -m;
      assert d <= m <= 0.0;
    }
  }

  lemma SqExpand(q: real, s: real, d: real)
    ensures (q - s * d) * (q - s * d) == q * q - 2.0 * s * (q * d) + (s * s) * (d * d)
  {
  }

  lemma Distrib(k: real, u: real, v: real)
    ensures k * u + k * v == k * (u + v)
  {
  }

  lemma DiffFactor(s: real, t: real, L: real, D: real)
    ensures (s * s * L - 2.0 * s * D) - (t * t * L - 2.0 * t * D) == (s - t) * ((s + t) * L - 2.0 * D)
  {
  }

  lemma ExpandScalar(qx: real, qy: real, dx: real, dy: real, s: real)
    ensures (qx - s * dx) * (qx - s * dx) + (qy - s * dy) * (qy - s * dy)
         == (qx * qx + qy * qy) + (s * s * (dx * dx + dy * dy) - 2.0 * s * (qx * dx + qy * dy))
  {
    SqExpand(qx, s, dx);
    SqExpand(qy, s, dy);
    Distrib(s * s, dx * dx, dy * dy);
    Distrib(2.0 * s, qx * dx, qy * dy);
  }

  /** `s*s*L - 2*s*D`. */
  function Quad(s: real, L: real, D: real): real {
    s * s * L - 2.0 * s * D
  }

  /** Squared distance from `p` to `Lerp(a, b, s)` as a polynomial in `s`. */
  lemma DistAlongExpand(p: Point, a: Point, b: Point, s: real)
    ensures DistSq(p, Lerp(a, b, s)) == DistSq(p, a) + Quad(s, LenSq(a, b), Dot(p, a, b))
  {
    var qx, qy, dx, dy := p.x - a.x, p.y - a.y, b.x - a.x, b.y - a.y;
    var c := Lerp(a, b, s);
    var ex, ey := p.x - c.x, p.y - c.y;
    assert ex == qx - s * dx;
    assert ey == qy - s * dy;
    assert DistSq(p, c) == ex * ex + ey * ey;
    ExpandScalar(qx, qy, dx, dy, s);
    assert DistSq(p, a) == qx * qx + qy * qy;
    assert LenSq(a, b) == dx * dx + dy * dy;
    assert Dot(p, a, b) == qx * dx + qy * dy;
  }

  /** `s*s*L - 2*s*D` over `0 <= s <= 1` is smallest at the clamp of `D / L`. */
  lemma QuadMin(s: real, L: real, D: real)
    requires L > 0.0 && 0.0 <= s <= 1.0
    ensures Quad(Clamp01(D / L), L, D) <= Quad(s, L, D)
  {
    var t0 := D / L;
    assert D == t0 * L;
    var t := Clamp01(t0);
    DiffFactor(s, t, L, D);
    var g := (s + t) * L - 2.0 * D;
    var e := s - t;
    var diff := e * g;
    if t0 < 0.0 {
      assert t == 0.0;
      MulMono(t0, 0.0, L);
      MulMono(0.0, s, L);
      assert g >= 0.0;
      MulMono(0.0, e, g);
    } else if t0 > 1.0 {
      assert t == 1.0;
      MulMono(1.0, t0, L);
      MulMono(s, 1.0, L);
      assert g <= 0.0;
      MulMono(e, 0.0, -g);
      assert e * (-g) == -diff;
    } else {
      assert t == t0;
      assert g == e * L;
      assert diff == e * (e * L);
      MulMono(0.0, e * e, L);
      assert diff == (e * e) * L;
    }
  }

  /** The clamped projection is the point of the segment nearest to `p`. */
  lemma ClosestIsNearest(p: Point, a: Point, b: Point, s: real)
    requires LenSq(a, b) > 0.0 && 0.0 <= s <= 1.0
    ensures DistSq(p, Lerp(a, b, ClosestParam(p, a, b))) <= DistSq(p, Lerp(a, b, s))
  {
    var t := ClosestParam(p, a, b);
    DistAlongExpand(p, a, b, s);
    DistAlongExpand(p, a, b, t);
    QuadMin(s, LenSq(a, b), Dot(p, a, b));
  }

  /** For a segment of positive length the hit test holds exactly when some
      point of the segment lies closer than `tol` to `p`. */
  lemma SegmentHitIff(p: Point, a: Point, b: Point, tol: real, radius: real)
    requires LenSq(a, b) > 0.0
    ensures SegmentHit(p, a, b, tol, radius) <==> exists s :: NearAt(p, a, b, tol, s)
  {
    if SegmentHit(p, a, b, tol, radius) {
      assert NearAt(p, a, b, tol, ClosestParam(p, a, b));
    }
    if exists s :: NearAt(p, a, b, tol, s) {
      var s :| NearAt(p, a, b, tol, s);
      ClosestIsNearest(p, a, b, s);
    }
  }

  /** Every point of the segment lies in the box its end points span. */
  lemma LerpInSpan(a: Point, b: Point, s: real)
    requires 0.0 <= s <= 1.0
    ensures InBox(Span(a, b), Lerp(a, b, s))
  {
    Between(a.x, b.x, s);
    Between(a.y, b.y, s);
  }

  /** A point closer than `r` to a point of a box lies in the box padded by `r`. */
  lemma NearBoxInPad(b: Box, q: Point, p: Point, r: real)
    requires InBox(b, q) && r > 0.0 && DistSq(p, q) < r * r
    ensures InBox(Pad(b, r), p)
  {
    var ex, ey := p.x - q.x, p.y - q.y;
    assert ex * ex >= 0.0 && ey * ey >= 0.0;
    SqBelow(ex, r);
    SqBelow(ey, r);
  }

  /** Padding more keeps a point inside. */
  lemma PadGrows(b: Box, p: Point, r: real, big: real)
    requires r <= big && InBox(Pad(b, r), p)
    ensures InBox(Pad(b, big), p)
  {
  }

  /** A point closer than `r` to a point `q` of the span of `a` and `b` lies
      in that span padded by any `big >= r`. */
  lemma NearSpanInPad(a: Point, b: Point, q: Point, p: Point, r: real, big: real)
    requires InBox(Span(a, b), q) && r > 0.0 && r <= big && DistSq(p, q) < r * r
    ensures InBox(Pad(Span(a, b), big), p)
  {
    NearBoxInPad(Span(a, b), q, p, r);
    PadGrows(Span(a, b), p, r, big);
  }

  /** A segment hit lies within the span of the segment padded by `max(tol, radius)`. */
  lemma SegmentHitInPaddedSpan(p: Point, a: Point, b: Point, tol: real, radius: real)
    requires tol > 0.0 && radius > 0.0
    requires SegmentHit(p, a, b, tol, radius)
    ensures InBox(Pad(Span(a, b), MaxR(tol, radius)), p)
  {
    if LenSq(a, b) == 0.0 {
      NearSpanInPad(a, b, a, p, radius, MaxR(tol, radius));
    } else {
      var t := ClosestParam(p, a, b);
      LerpInSpan(a, b, t);
      NearSpanInPad(a, b, Lerp(a, b, t), p, tol, MaxR(tol, radius));
    }
  }
}
