/** Where the displayed picture sits inside its widget
    (`_get_image_bounds`, identical in gradia/overlay/drawing_overlay.py and
    gradia/overlay/transparency_overlay.py) and the mapping between widget
    coordinates and coordinates relative to the image. */
module Letterbox {
  import opened Wrappers
  import opened Numbers
  import opened Geometry
  import opened Annotations

  /** The picture's paintable: its intrinsic size, and whether it is a
      `Gdk.Texture` (the overlay can only copy pixels out of a texture). */
  datatype Paintable = Paintable(width: int, height: int, isTexture: bool)

  /** The `Gtk.Picture` the overlay is stacked on: its allocated size and paintable. */
  datatype Picture = Picture(width: int, height: int, paintable: Option<Paintable>)

  /** What GTK reports when a handler runs: the picture reference (if one was
      set) and the overlay's own allocated size. */
  datatype View = View(picture: Option<Picture>, ownWidth: int, ownHeight: int)

  /** `(offset_x, offset_y, disp_w, disp_h)`. */
  datatype Frame = Frame(ox: real, oy: real, dw: real, dh: real)

  predicate HasPaintable(v: View) {
    v.picture.Some? && v.picture.value.paintable.Some?
  }

  /** The image scaled uniformly by `min(widget_w / img_w, widget_h / img_h)`
      and centred in the widget. */
  function Fit(ww: real, wh: real, iw: real, ih: real): Frame
    requires iw > 0.0 && ih > 0.0
  {
    var scale := MinR(ww / iw, wh / ih);
    var dw := iw * scale;
    var dh := ih * scale;
    Frame((ww - dw) / 2.0, (wh - dh) / 2.0, dw, dh)
  }

  /** `_get_image_bounds`. */
  function ImageBounds(v: View): Frame {
    if !HasPaintable(v) then Frame(0.0, 0.0, v.ownWidth as real, v.ownHeight as real)
    else
      var pic := v.picture.value;
      var p := pic.paintable.value;
      if p.width <= 0 || p.height <= 0 then Frame(0.0, 0.0, pic.width as real, pic.height as real)
      else Fit(pic.width as real, pic.height as real, p.width as real, p.height as real)
  }

  lemma DivMul(a: real, d: real)
    requires d > 0.0
    ensures d * (a / d) == a
  {
  }

  lemma ScaleBelow(ww: real, iw: real, scale: real)
    requires iw > 0.0 && scale <= ww / iw
    ensures iw * scale <= ww
  {
    MulMono(scale, ww / iw, iw);
    DivMul(ww, iw);
  }

  /** The letterbox keeps the picture's aspect ratio, lies inside the widget,
      is centred in it, and fills it along at least one axis. */
  lemma FitProperties(ww: real, wh: real, iw: real, ih: real)
    requires iw > 0.0 && ih > 0.0 && ww >= 0.0 && wh >= 0.0
    ensures var f := Fit(ww, wh, iw, ih);
      && f.dw * ih == f.dh * iw
      && 0.0 <= f.dw <= ww && 0.0 <= f.dh <= wh
      && 0.0 <= f.ox && 0.0 <= f.oy
      && 2.0 * f.ox + f.dw == ww && 2.0 * f.oy + f.dh == wh
      && (f.dw == ww || f.dh == wh)
  {
    var scale := MinR(ww / iw, wh / ih);
    ScaleBelow(ww, iw, scale);
    ScaleBelow(wh, ih, scale);
    assert scale >= 0.0;
    MulMono(0.0, scale, iw);
    MulMono(0.0, scale, ih);
    assert (iw * scale) * ih == (ih * scale) * iw;
    if scale == ww / iw {
      DivMul(ww, iw);
    } else {
      DivMul(wh, ih);
    }
  }

  /** Without a picture or paintable, or with a non-positive intrinsic size,
      the frame is a whole widget; otherwise it is the letterbox. */
  lemma ImageBoundsCases(v: View)
    ensures !HasPaintable(v) ==>
      ImageBounds(v) == Frame(0.0, 0.0, v.ownWidth as real, v.ownHeight as real)
    ensures HasPaintable(v) && (v.picture.value.paintable.value.width <= 0 || v.picture.value.paintable.value.height <= 0) ==>
      ImageBounds(v) == Frame(0.0, 0.0, v.picture.value.width as real, v.picture.value.height as real)
    ensures HasPaintable(v) && v.picture.value.paintable.value.width > 0 && v.picture.value.paintable.value.height > 0
            && v.picture.value.width >= 0 && v.picture.value.height >= 0 ==>
      var f := ImageBounds(v);
      var p := v.picture.value.paintable.value;
      && f.dw * p.height as real == f.dh * p.width as real
      && 0.0 <= f.dw <= v.picture.value.width as real && 0.0 <= f.dh <= v.picture.value.height as real
      && 2.0 * f.ox + f.dw == v.picture.value.width as real
      && 2.0 * f.oy + f.dh == v.picture.value.height as real
  {
    if HasPaintable(v) {
      var pic := v.picture.value;
      var p := pic.paintable.value;
      if p.width > 0 && p.height > 0 && pic.width >= 0 && pic.height >= 0 {
        FitProperties(pic.width as real, pic.height as real, p.width as real, p.height as real);
      }
    }
  }

  /** `_widget_to_image_coords`: the input itself when a displayed side is 0. */
  function ToImage(f: Frame, p: Point): Point {
    if f.dw != 0.0 && f.dh != 0.0 then Point((p.x - f.ox) / f.dw, (p.y - f.oy) / f.dh) else p
  }

  /** `_image_to_widget_coords`. */
  function ToWidget(f: Frame, r: Point): Point {
    Point(f.ox + r.x * f.dw, f.oy + r.y * f.dh)
  }

  lemma DivThenMul(a: real, d: real)
    requires d != 0.0
    ensures (a / d) * d == a
  {
  }

  lemma MulThenDiv(a: real, d: real)
    requires d != 0.0
    ensures (a * d) / d == a
  {
  }

  /** The two mappings are inverse to each other while the displayed size is
      non-zero; with a zero side, widget-to-image is the identity. */
  lemma CoordinatesRoundTrip(f: Frame, p: Point)
    ensures f.dw != 0.0 && f.dh != 0.0 ==> ToWidget(f, ToImage(f, p)) == p && ToImage(f, ToWidget(f, p)) == p
    ensures f.dw == 0.0 || f.dh == 0.0 ==> ToImage(f, p) == p
  {
    if f.dw != 0.0 && f.dh != 0.0 {
      DivThenMul(p.x - f.ox, f.dw);
      DivThenMul(p.y - f.oy, f.dh);
      MulThenDiv(p.x, f.dw);
      MulThenDiv(p.y, f.dh);
      assert (f.ox + p.x * f.dw) - f.ox == p.x * f.dw;
      assert (f.oy + p.y * f.dh) - f.oy == p.y * f.dh;
    }
  }

  /** `_is_point_in_image`: inside the frame, edges included. */
  predicate InImage(f: Frame, p: Point) {
    f.ox <= p.x <= f.ox + f.dw && f.oy <= p.y <= f.oy + f.dh
  }

  lemma UnitDiv(a: real, d: real)
    requires d > 0.0
    ensures 0.0 <= a / d <= 1.0 <==> 0.0 <= a <= d
  {
    DivMul(a, d);
    if 0.0 <= a / d <= 1.0 {
      MulMono(0.0, a / d, d);
      MulMono(a / d, 1.0, d);
    }
    if 0.0 <= a <= d {
      assert a / d <= d / d;
    }
  }

  /** A widget point is inside the displayed image exactly when its
      image-relative coordinates lie in the unit square. */
  lemma InImageIffUnit(f: Frame, p: Point)
    requires f.dw > 0.0 && f.dh > 0.0
    ensures InImage(f, p) <==> 0.0 <= ToImage(f, p).x <= 1.0 && 0.0 <= ToImage(f, p).y <= 1.0
  {
    UnitDiv(p.x - f.ox, f.dw);
    UnitDiv(p.y - f.oy, f.dh);
  }

  /** `_get_scale_factor`: displayed width over intrinsic width. */
  function ScaleFactor(v: View): real {
    if !HasPaintable(v) then 1.0
    else
      var iw := v.picture.value.paintable.value.width;
      if iw != 0 then ImageBounds(v).dw / iw as real else 1.0
  }

  /** For a picture with a positive intrinsic size, the scale factor is the
      letterbox scale. */
  lemma ScaleFactorIsFitScale(v: View)
    requires HasPaintable(v)
    requires v.picture.value.paintable.value.width > 0 && v.picture.value.paintable.value.height > 0
    ensures var pic := v.picture.value; var p := pic.paintable.value;
      ScaleFactor(v) == MinR(pic.width as real / p.width as real, pic.height as real / p.height as real)
  {
    var pic := v.picture.value;
    var p := pic.paintable.value;
    var scale := MinR(pic.width as real / p.width as real, pic.height as real / p.height as real);
    MulThenDiv(scale, p.width as real);
    assert p.width as real * scale == scale * p.width as real;
  }

  /** `_get_modified_image_bounds`: the intrinsic size; without a picture or
      paintable the attribute access raises. */
  function ModifiedImageBounds(v: View): (r: Result<Raster>)
    ensures r.Ok? <==> HasPaintable(v)
    ensures r.Ok? ==> r.value == Raster(v.picture.value.paintable.value.width, v.picture.value.paintable.value.height)
  {
    if HasPaintable(v) then
      Ok(Raster(v.picture.value.paintable.value.width, v.picture.value.paintable.value.height))
    else Err(AttributeError)
  }

  /** `_get_background_pixbuf`: a pixbuf copied out of a texture paintable,
      represented by its size; `None` for any other paintable. */
  function BackgroundRaster(v: View): (r: Option<Raster>)
    ensures r.Some? <==> HasPaintable(v) && v.picture.value.paintable.value.isTexture
    ensures r.Some? ==> r.value == Raster(v.picture.value.paintable.value.width, v.picture.value.paintable.value.height)
  {
    if v.picture.None? then None
    else match v.picture.value.paintable
      case Some(p) => if p.isTexture then Some(Raster(p.width, p.height)) else None
      case None => None
  }

  /** The guard of `render_actions_to_pixbuf`: the surface that receives the
      annotations, or `None` for a non-positive size. */
  function RenderTarget(w: int, h: int): (r: Option<Raster>)
    ensures r.Some? <==> w > 0 && h > 0
    ensures r.Some? ==> r.value == Raster(w, h)
  {
    if w <= 0 || h <= 0 then None else Some(Raster(w, h))
  }

  /** `export_to_pixbuf`: rendered at the picture's intrinsic size. */
  function ExportTarget(v: View): (r: Option<Raster>)
    ensures r.Some? <==> HasPaintable(v) && v.picture.value.paintable.value.width > 0
                         && v.picture.value.paintable.value.height > 0
  {
    if !HasPaintable(v) then None
    else RenderTarget(v.picture.value.paintable.value.width, v.picture.value.paintable.value.height)
  }
}
