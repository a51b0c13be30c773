/** The integer geometry of image composition in gradia/graphics/image_processor.py
    and its earlier copy src/graphics/image_processor.py: downscaling on load,
    the compression-quality loop, the centred crop of a negative padding, the
    padded canvas, aspect-ratio growth, the paste position and the shadow
    canvas. Pixel work (resizing, masks, blur, compositing) is not modelled;
    only the sizes and positions it is given are. */
module Processor {
  import opened Wrappers
  import opened Numbers
  import opened Strings

  const MaxDimension := 1440
  const MaxFileSize := 1000 * 1024

  datatype Size = Size(w: int, h: int)

  /** A crop rectangle: its top-left corner and its size. */
  datatype Crop = Crop(x: int, y: int, w: int, h: int)

  datatype Position = Position(x: int, y: int)

  /** The `aspect_ratio` setting: unset, a text such as "16:9" or "1.5", or a number. */
  datatype AspectRatio = Unset | Text(s: string) | Number(r: real)

  /** Python truthiness of the setting (`if self.aspect_ratio:`). */
  predicate IsSet(a: AspectRatio) {
    (a.Text? && a.s != "") || (a.Number? && a.r != 0.0)
  }

  /** Python `float()` on a string is a parameter of the model (`None` is its
      `ValueError`). */
  type FloatParser = string -> Option<real>

  // ---------------------------------------------------------------------
  // Loading

  predicate NeedsDownscaling(w: int, h: int) {
    w > MaxDimension || h > MaxDimension
  }

  /** `_downscale_image`: the longer side becomes 1440 and the other is
      scaled by the same factor and truncated. */
  function Downscaled(w: int, h: int): Size
    requires NeedsDownscaling(w, h)
  {
    if w >= h then Size(MaxDimension, Trunc(h as real * (MaxDimension as real / w as real)))
    else Size(Trunc(w as real * (MaxDimension as real / h as real)), MaxDimension)
  }

  /** The size `_load_and_downscale_image` leaves: compression keeps the size. */
  function LoadedSize(w: int, h: int): Size {
    if NeedsDownscaling(w, h) then Downscaled(w, h) else Size(w, h)
  }

  lemma MulAtMost(a: real, b: real, c: real)
    requires a <= b && c >= 0.0
    ensures a * c <= b * c
  {
  }

  lemma IntMulReal(a: int, b: int)
    ensures (a * b) as real == a as real * b as real
  {
  }

  /** `s * (1440 / l) * l == s * 1440`. */
  lemma ScaleCancels(s: real, l: real)
    requires l > 0.0
    ensures (s * (MaxDimension as real / l)) * l == s * MaxDimension as real
  {
    var q := MaxDimension as real / l;
    assert q * l == MaxDimension as real;
    assert (s * q) * l == s * (q * l);
  }

  /** A truncation `t` of `x` with `x * L == S`, scaled back by `L`. */
  lemma TruncScaled(t: int, x: real, L: real, S: real)
    requires t as real <= x < t as real + 1.0 && L > 0.0 && x * L == S
    ensures t as real * L <= S < (t as real + 1.0) * L
  {
    var u := t as real + 1.0;
    assert x < u;
    assert x * L < u * L;
    assert S == x * L;
    assert t as real * L <= x * L;
  }

  /** An integer inequality read off its real counterpart. */
  lemma ProductBounds(t: int, l: int, s: int)
    requires t as real * l as real <= s as real * MaxDimension as real < (t as real + 1.0) * l as real
    ensures t * l <= s * MaxDimension < (t + 1) * l
  {
    IntMulReal(t, l);
    IntMulReal(t + 1, l);
    IntMulReal(s, MaxDimension);
  }

  /** The shorter side `s` scaled by `1440 / l` is within `[0, 1440]` and
      gives back `s * 1440` when multiplied by `l`. */
  lemma ScaledValue(s: int, l: int)
    requires 0 <= s <= l && l > 0
    ensures var x := s as real * (MaxDimension as real / l as real);
      0.0 <= x <= MaxDimension as real && x * l as real == s as real * MaxDimension as real
  {
    var L := l as real;
    var q := MaxDimension as real / L;
    ScaleCancels(s as real, L);
    ScaleCancels(L, L);
    MulAtMost(s as real, L, q);
  }

  /** Scaling the shorter side `s` of a picture whose longer side is `l` by
      `1440 / l` and truncating gives `t` with `t * l <= s * 1440 < (t + 1) * l`. */
  lemma ScaledSide(s: int, l: int)
    requires 0 <= s <= l && l > 0
    ensures var t := Trunc(s as real * (MaxDimension as real / l as real));
      0 <= t <= MaxDimension && t * l <= s * MaxDimension < (t + 1) * l
  {
    var x := s as real * (MaxDimension as real / l as real);
    ScaledValue(s, l);
    var t := Trunc(x);
    TruncScaled(t, x, l as real, s as real * MaxDimension as real);
    ProductBounds(t, l, s);
  }

  /** Downscaling sets the longer side to exactly 1440 and scales the other
      proportionally (rounded down), so neither side exceeds 1440. */
  lemma DownscaleFits(w: int, h: int)
    requires NeedsDownscaling(w, h) && w >= 0 && h >= 0
    ensures var r := Downscaled(w, h);
      && 0 <= r.w <= MaxDimension && 0 <= r.h <= MaxDimension
      && (w >= h ==> r.w == MaxDimension && r.h * w <= h * MaxDimension < (r.h + 1) * w)
      && (w < h ==> r.h == MaxDimension && r.w * h <= w * MaxDimension < (r.w + 1) * h)
  {
    if w >= h {
      ScaledSide(h, w);
    } else {
      ScaledSide(w, h);
    }
  }

  /** A loaded picture never exceeds 1440 on either side, and one that fits
      already keeps its size. */
  lemma LoadedSizeFits(w: int, h: int)
    requires w >= 0 && h >= 0
    ensures var r := LoadedSize(w, h);
      && 0 <= r.w <= MaxDimension && 0 <= r.h <= MaxDimension
      && (!NeedsDownscaling(w, h) ==> r == Size(w, h))
  {
    if NeedsDownscaling(w, h) {
      DownscaleFits(w, h);
    }
  }

  /** The quality loop of `_load_and_downscale_image`. `compressedSize(k)` is
      the byte size of the `k`-th compression (quality `100 - 10 * k`), which
      the model takes as given. The loop stops at the first size within
      `MAX_FILE_SIZE`, or at quality 10. */
  method CompressionQuality(compressedSize: nat -> int) returns (quality: int, steps: nat)
    ensures quality == 100 - 10 * steps && 10 <= quality <= 100 && quality % 10 == 0
    ensures forall k: nat :: k < steps ==> compressedSize(k) > MaxFileSize
    ensures compressedSize(steps) <= MaxFileSize || quality == 10
  {
    quality := 100;
    steps := 0;
    var size := compressedSize(0);
    while size > MaxFileSize && quality > 10
      invariant quality == 100 - 10 * steps && 10 <= quality <= 100
      invariant size == compressedSize(steps)
      invariant forall k: nat :: k < steps ==> compressedSize(k) > MaxFileSize
      decreases quality
    {
      quality := quality - 10;
      steps := steps + 1;
      size := compressedSize(steps);
    }
  }

  // ---------------------------------------------------------------------
  // Padding and crop

  /** `int(padding / 100 * min(width, height))`. */
  function PaddingPixels(padding: int, w: int, h: int): int {
    Trunc(padding as real / 100.0 * Min(w, h) as real)
  }

  /** `_crop_image` for a negative padding: `|padding|` percent of the shorter
      side is taken off every edge, keeping at least one pixel, centred. */
  function CropRegion(w: int, h: int, padding: int): Crop {
    var p := PaddingPixels(Abs(padding), w, h);
    var cw := Max(1, w - 2 * p);
    var ch := Max(1, h - 2 * p);
    Crop((w - cw) / 2, (h - ch) / 2, cw, ch)
  }

  /** The padding pixels are non-negative for a non-negative padding and a
      non-negative size, and never more than the percentage asks. */
  lemma PaddingPixelsRange(padding: int, w: int, h: int)
    requires padding >= 0 && w >= 0 && h >= 0
    ensures 0 <= PaddingPixels(padding, w, h)
    ensures PaddingPixels(padding, w, h) as real <= padding as real / 100.0 * Min(w, h) as real
  {
  }

  /** The crop is at least 1x1, lies inside the picture, is centred (the two
      margins differ by at most one pixel, the larger one right or below),
      and takes the same `p` pixels off both sides whenever that leaves a pixel. */
  lemma CropInside(w: int, h: int, padding: int)
    requires w >= 1 && h >= 1
    ensures var c := CropRegion(w, h, padding); var p := PaddingPixels(Abs(padding), w, h);
      && 1 <= c.w <= w && 1 <= c.h <= h
      && 0 <= c.x && c.x + c.w <= w && 0 <= c.y && c.y + c.h <= h
      && c.x <= w - (c.x + c.w) <= c.x + 1 && c.y <= h - (c.y + c.h) <= c.y + 1
      && (2 * p < w ==> c.x == p && c.w == w - 2 * p)
      && (2 * p < h ==> c.y == p && c.h == h - 2 * p)
  {
    PaddingPixelsRange(Abs(padding), w, h);
  }

  /** `_calculate_final_dimensions`: a non-negative padding grows both sides
      by twice the padding pixels; then a set aspect ratio is applied. */
  function FinalDimensions(w: int, h: int, padding: int, aspect: AspectRatio, parse: FloatParser): Size {
    var p := if padding >= 0 then PaddingPixels(padding, w, h) else 0;
    var padded := Size(w + 2 * p, h + 2 * p);
    if IsSet(aspect) then AdjustForAspectRatio(padded.w, padded.h, ParseAspectRatio(aspect, parse))
    else padded
  }

  /** Without an aspect ratio, a non-negative padding adds `2 * p` to each
      side with `p >= 0`, and a negative one leaves the size as it is. */
  lemma FinalDimensionsPadding(w: int, h: int, padding: int, aspect: AspectRatio, parse: FloatParser)
    requires !IsSet(aspect) && w >= 0 && h >= 0
    ensures var r := FinalDimensions(w, h, padding, aspect, parse); var p := PaddingPixels(padding, w, h);
      && (padding >= 0 ==> p >= 0 && r == Size(w + 2 * p, h + 2 * p))
      && (padding < 0 ==> r == Size(w, h))
  {
    if padding >= 0 {
      PaddingPixelsRange(padding, w, h);
    }
  }

  // ---------------------------------------------------------------------
  // Aspect ratio

  /** `_parse_aspect_ratio`: a text with a colon must split into exactly two
      numbers and gives their quotient; any other set value is `float()` of
      it; an unset one is a `ValueError`. */
  function ParseAspectRatio(a: AspectRatio, parse: FloatParser): (r: Result<real>)
    ensures !IsSet(a) ==> r == Err(ValueError)
  {
    match a
    case Text(s) =>
      if ':' in s then
        var parts := Split(s, ':');
        if |parts| != 2 then Err(ValueError)
        else
          (match (parse(parts[0]), parse(parts[1]))
           case (Some(x), Some(y)) => if y == 0.0 then Err(ZeroDivisionError) else Ok(x / y)
           case _ => Err(ValueError))
      else if s == "" then Err(ValueError)
      else
        (match parse(s)
         case Some(x) => Ok(x)
         case None => Err(ValueError))
    case Number(x) => if x == 0.0 then Err(ValueError) else Ok(x)
    case Unset => Err(ValueError)
  }

  lemma SplitPair(x: string, y: string)
    requires ':' !in x && ':' !in y
    ensures ':' in x + ":" + y && Split(x + ":" + y, ':') == [x, y]
  {
    assert (x + ":" + y)[|x|] == ':';
    SplitAfter(x, y, ':');
  }

  /** An "a:b" text gives `a / b` (or the `ZeroDivisionError` of a zero `b`). */
  lemma ColonRatio(x: string, y: string, parse: FloatParser)
    requires ':' !in x && ':' !in y && parse(x).Some? && parse(y).Some?
    ensures ParseAspectRatio(Text(x + ":" + y), parse)
         == if parse(y).value == 0.0 then Err(ZeroDivisionError) else Ok(parse(x).value / parse(y).value)
  {
    SplitPair(x, y);
  }

  /** A text with two or more colons does not unpack into two numbers. */
  lemma TooManyColons(x: string, y: string, z: string, parse: FloatParser)
    requires ':' !in x
    ensures ParseAspectRatio(Text(x + ":" + y + ":" + z), parse) == Err(ValueError)
  {
    var s := x + ":" + y + ":" + z;
    var t := y + ":" + z;
    assert s == x + ":" + t;
    assert s[|x|] == ':';
    SplitAfter(x, t, ':');
    assert t[|y|] == ':';
    assert |Split(t, ':')| >= 2;
  }

  /** A text without a colon is read as one number. */
  lemma PlainRatio(s: string, parse: FloatParser)
    requires ':' !in s && s != ""
    ensures ParseAspectRatio(Text(s), parse) == if parse(s).Some? then Ok(parse(s).value) else Err(ValueError)
  {
  }

  /** `_adjust_for_aspect_ratio`: when the picture is narrower than the ratio
      its width grows to `int(height * ratio)`, when wider its height grows
      to `int(width / ratio)`; a failed parse or a division by zero (caught
      by the `except`) leaves the size unchanged. */
  function AdjustForAspectRatio(w: int, h: int, ratio: Result<real>): Size {
    if ratio.Err? || h == 0 then Size(w, h)
    else
      var current := w as real / h as real;
      if current < ratio.value then Size(Trunc(h as real * ratio.value), h)
      else if current > ratio.value then
        if ratio.value == 0.0 then Size(w, h) else Size(w, Trunc(w as real / ratio.value))
      else Size(w, h)
  }

  lemma DivLess(w: real, h: real, ratio: real)
    requires h > 0.0 && w / h < ratio
    ensures w < h * ratio
  {
    assert w == (w / h) * h;
    assert (w / h) * h < ratio * h;
  }

  lemma DivMore(w: real, h: real, ratio: real)
    requires h > 0.0 && ratio > 0.0 && w / h > ratio
    ensures h < w / ratio
  {
    assert w == (w / h) * h;
    assert (w / h) * h > ratio * h;
    assert w / ratio > (ratio * h) / ratio;
  }

  /** A picture narrower than the ratio gets width `int(height * ratio)`,
      which is not less than its width. */
  lemma AdjustNarrow(w: int, h: int, q: real)
    requires w > 0 && h > 0 && q > 0.0 && w as real / h as real < q
    ensures var r := AdjustForAspectRatio(w, h, Ok(q));
      r.h == h && r.w >= w && r.w as real <= h as real * q < r.w as real + 1.0
  {
    DivLess(w as real, h as real, q);
    TruncAtLeast(h as real * q, w);
  }

  /** A picture wider than the ratio gets height `int(width / ratio)`,
      which is not less than its height. */
  lemma AdjustWide(w: int, h: int, q: real)
    requires w > 0 && h > 0 && q > 0.0 && w as real / h as real > q
    ensures var r := AdjustForAspectRatio(w, h, Ok(q));
      r.w == w && r.h >= h && r.h as real <= w as real / q < r.h as real + 1.0
  {
    DivMore(w as real, h as real, q);
    TruncAtLeast(w as real / q, h);
  }

  /** For a positive picture and a positive ratio, exactly one side may grow
      and neither shrinks; the grown side is the ratio's demand rounded down.
      A failed parse leaves the size unchanged. */
  lemma AdjustGrows(w: int, h: int, ratio: Result<real>)
    requires w > 0 && h > 0
    ensures var r := AdjustForAspectRatio(w, h, ratio);
      && (ratio.Err? ==> r == Size(w, h))
      && (ratio.Ok? && ratio.value > 0.0 ==>
            && ((r.w >= w && r.h == h) || (r.w == w && r.h >= h))
            && (w as real / h as real < ratio.value ==> r.w as real <= h as real * ratio.value < r.w as real + 1.0)
            && (w as real / h as real > ratio.value ==> r.h as real <= w as real / ratio.value < r.h as real + 1.0)
            && (w as real / h as real == ratio.value ==> r == Size(w, h)))
  {
    if ratio.Ok? && ratio.value > 0.0 {
      var q := ratio.value;
      if w as real / h as real < q {
        AdjustNarrow(w, h, q);
      } else if w as real / h as real > q {
        AdjustWide(w, h, q);
      }
    }
  }

  // ---------------------------------------------------------------------
  // Composition

  /** `_get_paste_position`: centred for a non-negative padding, else the origin. */
  function PastePosition(imgW: int, imgH: int, bgW: int, bgH: int, padding: int): Position {
    if padding >= 0 then Position((bgW - imgW) / 2, (bgH - imgH) / 2) else Position(0, 0)
  }

  /** A picture no larger than its canvas is pasted inside it, centred with
      margins that differ by at most one pixel. */
  lemma PasteCentred(imgW: int, imgH: int, bgW: int, bgH: int, padding: int)
    requires padding >= 0 && 0 <= imgW <= bgW && 0 <= imgH <= bgH
    ensures var p := PastePosition(imgW, imgH, bgW, bgH, padding);
      && 0 <= p.x && p.x + imgW <= bgW && p.x <= bgW - (p.x + imgW) <= p.x + 1
      && 0 <= p.y && p.y + imgH <= bgH && p.y <= bgH - (p.y + imgH) <= p.y + 1
  {
  }

  /** The shadow of `_create_shadow`: blur radius and alpha from the clamped
      strength, the expanded canvas, and where the shadow sits in it. */
  datatype ShadowLayout = ShadowLayout(blur: int, alpha: int, canvas: Size, at: Position)

  function ClampUnit(s: real): (r: real)
    ensures 0.0 <= r <= 1.0
  {
    MaxR(0.0, MinR(s, 1.0))
  }

  function Shadow(imgW: int, imgH: int, offX: int, offY: int, strength: real): ShadowLayout {
    var s := ClampUnit(strength);
    var blur := Trunc(10.0 * s);
    var margin := blur * 5;
    ShadowLayout(blur, Trunc(150.0 * s),
                 Size(imgW + Abs(offX) + margin, imgH + Abs(offY) + margin),
                 Position(margin / 2 + Max(offX, 0), margin / 2 + Max(offY, 0)))
  }

  /** The blur radius is within 0..10 and the alpha within 0..150, both zero
      for no strength; the shadow lies inside its expanded canvas. */
  lemma ShadowFits(imgW: int, imgH: int, offX: int, offY: int, strength: real)
    requires imgW >= 0 && imgH >= 0
    ensures var s := Shadow(imgW, imgH, offX, offY, strength);
      && 0 <= s.blur <= 10 && 0 <= s.alpha <= 150
      && (strength <= 0.0 ==> s.blur == 0 && s.alpha == 0)
      && (strength >= 1.0 ==> s.blur == 10 && s.alpha == 150)
      && 0 <= s.at.x && s.at.x + imgW <= s.canvas.w
      && 0 <= s.at.y && s.at.y + imgH <= s.canvas.h
  {
  }

  /** The settings `process` reads. */
  datatype Settings = Settings(padding: int, aspect: AspectRatio, shadowStrength: real)

  /** What `process` lays out: the optional crop of the source, the size
      pasted, the canvas and the paste position. */
  datatype Layout = Layout(crop: Option<Crop>, image: Size, canvas: Size, paste: Position)

  /** The layout with the shadow and the place of its canvas. */
  datatype Composition = Composition(layout: Layout, shadow: ShadowLayout, shadowAt: Position)

  /** The crop, canvas and paste position `process` computes for a loaded
      picture of size `w x h`. */
  function LayOut(w: int, h: int, st: Settings, parse: FloatParser): Layout {
    var crop := if st.padding < 0 then Some(CropRegion(w, h, st.padding)) else None;
    var img := if crop.Some? then Size(crop.value.w, crop.value.h) else Size(w, h);
    var canvas := FinalDimensions(img.w, img.h, st.padding, st.aspect, parse);
    Layout(crop, img, canvas, PastePosition(img.w, img.h, canvas.w, canvas.h, st.padding))
  }

  /** `process` on a loaded picture of size `w x h`, the shadow offset being (10, 10). */
  function Compose(w: int, h: int, st: Settings, parse: FloatParser): Composition {
    var l := LayOut(w, h, st, parse);
    var shadow := Shadow(l.image.w, l.image.h, 10, 10, st.shadowStrength);
    Composition(l, shadow, Position(l.paste.x - shadow.at.x, l.paste.y - shadow.at.y))
  }

  /** The aspect ratio cannot shrink the canvas: it is either unset, fails to
      parse, or is positive. */
  predicate RatioGrows(a: AspectRatio, parse: FloatParser) {
    var r := ParseAspectRatio(a, parse);
    !IsSet(a) || r.Err? || r.value > 0.0
  }

  /** With a non-negative padding the canvas holds the whole picture, pasted
      centred; with a negative one the picture is the crop, pasted at the
      origin of a canvas at least its size. */
  lemma ComposeFits(w: int, h: int, st: Settings, parse: FloatParser)
    requires w >= 1 && h >= 1 && RatioGrows(st.aspect, parse)
    ensures var l := Compose(w, h, st, parse).layout;
      && l.image.w <= l.canvas.w && l.image.h <= l.canvas.h
      && 0 <= l.paste.x && l.paste.x + l.image.w <= l.canvas.w
      && 0 <= l.paste.y && l.paste.y + l.image.h <= l.canvas.h
      && (st.padding >= 0 ==>
            && l.crop == None && l.image == Size(w, h)
            && l.paste.x <= l.canvas.w - (l.paste.x + l.image.w) <= l.paste.x + 1)
      && (st.padding < 0 ==> l.crop.Some? && l.paste == Position(0, 0))
  {
    var l := Compose(w, h, st, parse).layout;
    if st.padding < 0 {
      CropInside(w, h, st.padding);
    }
    var img := l.image;
    assert img.w >= 1 && img.h >= 1;
    var p := if st.padding >= 0 then PaddingPixels(st.padding, img.w, img.h) else 0;
    if st.padding >= 0 {
      PaddingPixelsRange(st.padding, img.w, img.h);
    }
    if IsSet(st.aspect) {
      AdjustGrows(img.w + 2 * p, img.h + 2 * p, ParseAspectRatio(st.aspect, parse));
    }
    assert img.w <= l.canvas.w && img.h <= l.canvas.h;
    if st.padding >= 0 {
      PasteCentred(img.w, img.h, l.canvas.w, l.canvas.h, st.padding);
    }
  }

  /** The shadow canvas is placed so that the shadow inside it lands exactly
      on the pasted picture: the (10, 10) offset moves the shadow within its
      canvas and the placement moves the canvas back by the same amount. */
  lemma ShadowUnderImage(w: int, h: int, st: Settings, parse: FloatParser)
    ensures var l := Compose(w, h, st, parse);
      l.shadowAt.x + l.shadow.at.x == l.layout.paste.x && l.shadowAt.y + l.shadow.at.y == l.layout.paste.y
  {
  }

  // ---------------------------------------------------------------------
  // The processor object

  /** `ImageProcessor`: the settings and the loaded source, whose size is all
      the model keeps of it. */
  class ImageProcessor {
    var settings: Settings
    var source: Option<Size>
    var loadedPath: Option<string>

    /** A processor with no picture loaded (a constructor given a path then
        calls `SetImagePath`). */
    constructor(st: Settings)
      ensures settings == st && source == None && loadedPath == None
    {
      settings := st;
      source := None;
      loadedPath := None;
    }

    /** `set_image_path`: the same path is not reloaded; a missing file raises
        `FileNotFoundError` and changes nothing; otherwise the picture of
        size `w x h` is loaded, downscaled and compressed, and its path kept. */
    method SetImagePath(path: string, found: bool, w: int, h: int, compressedSize: nat -> int)
      returns (r: Result<()>)
      modifies this
      ensures settings == old(settings)
      ensures old(loadedPath) == Some(path) ==> r.Ok? && source == old(source) && loadedPath == old(loadedPath)
      ensures old(loadedPath) != Some(path) && !found ==>
                r == Err(FileNotFoundError) && source == old(source) && loadedPath == old(loadedPath)
      ensures old(loadedPath) != Some(path) && found ==>
                r.Ok? && source == Some(LoadedSize(w, h)) && loadedPath == Some(path)
    {
      if loadedPath == Some(path) {
        return Ok(());
      }
      if !found {
        return Err(FileNotFoundError);
      }
      var size := LoadedSize(w, h);
      var quality, steps := CompressionQuality(compressedSize);
      source := Some(size);
      loadedPath := Some(path);
      r := Ok(());
    }

    /** `process`: a `ValueError` without a loaded picture, else its layout. */
    function Process(parse: FloatParser): (r: Result<Composition>)
      reads this
      ensures source == None <==> r == Err(ValueError)
    {
      match source
      case None => Err(ValueError)
      case Some(s) => Ok(Compose(s.w, s.h, settings, parse))
    }
  }

  /** `process` of src/graphics/image_processor.py on the loaded picture
      `source`: a `ValueError` without one, else the same crop, canvas and
      paste position as the gradia processor, with no shadow. The caption it
      draws last is placed by `Captions` and leaves the canvas as it is. */
  function PlainProcess(source: Option<Size>, st: Settings, parse: FloatParser): (r: Result<Layout>)
    ensures source == None <==> r == Err(ValueError)
    ensures r.Ok? ==> r.value == Compose(source.value.w, source.value.h, st, parse).layout
  {
    match source
    case None => Err(ValueError)
    case Some(s) => Ok(LayOut(s.w, s.h, st, parse))
  }

  /** The shadowless layout holds its picture just as the gradia one does. */
  lemma PlainProcessFits(w: int, h: int, st: Settings, parse: FloatParser)
    requires w >= 1 && h >= 1 && RatioGrows(st.aspect, parse)
    ensures var r := PlainProcess(Some(Size(w, h)), st, parse);
      && r.Ok?
      && 0 <= r.value.paste.x && r.value.paste.x + r.value.image.w <= r.value.canvas.w
      && 0 <= r.value.paste.y && r.value.paste.y + r.value.image.h <= r.value.canvas.h
      && (st.padding >= 0 ==> r.value.image == Size(w, h))
  {
    ComposeFits(w, h, st, parse);
  }

  // ---------------------------------------------------------------------
  // src/image_processor.py: padding in pixels

  /** The negative-padding crop of src/image_processor.py: `|padding|`
      pixels off every edge, keeping at least one pixel, centred. */
  function PixelCrop(w: int, h: int, padding: int): Crop {
    var cw := Max(1, w + 2 * padding);
    var ch := Max(1, h + 2 * padding);
    Crop((w - cw) / 2, (h - ch) / 2, cw, ch)
  }

  /** `_calculate_dimensions`: `2 * padding` more on each side for a
      non-negative padding, then the aspect ratio. */
  function PixelDimensions(w: int, h: int, padding: int, aspect: AspectRatio, parse: FloatParser): Size {
    var p := if padding >= 0 then padding else 0;
    if IsSet(aspect) then AdjustForAspectRatio(w + 2 * p, h + 2 * p, ParseAspectRatio(aspect, parse))
    else Size(w + 2 * p, h + 2 * p)
  }

  /** The pixel crop of a negative padding is at least 1x1, inside the
      picture and centred, and removes exactly `|padding|` from each edge
      when that leaves a pixel. */
  lemma PixelCropInside(w: int, h: int, padding: int)
    requires w >= 1 && h >= 1 && padding < 0
    ensures var c := PixelCrop(w, h, padding);
      && 1 <= c.w <= w && 1 <= c.h <= h
      && 0 <= c.x && c.x + c.w <= w && 0 <= c.y && c.y + c.h <= h
      && c.x <= w - (c.x + c.w) <= c.x + 1 && c.y <= h - (c.y + c.h) <= c.y + 1
      && (w + 2 * padding >= 1 ==> c.x == -padding && c.w == w + 2 * padding)
      && (h + 2 * padding >= 1 ==> c.y == -padding && c.h == h + 2 * padding)
  {
  }

  /** Without an aspect ratio the canvas is `2 * padding` larger for a
      non-negative padding and the same size otherwise. */
  lemma PixelDimensionsPadding(w: int, h: int, padding: int, aspect: AspectRatio, parse: FloatParser)
    requires !IsSet(aspect)
    ensures PixelDimensions(w, h, padding, aspect, parse)
         == if padding >= 0 then Size(w + 2 * padding, h + 2 * padding) else Size(w, h)
  {
  }

  /** `process` of src/image_processor.py: a missing file raises, otherwise
      the crop, canvas and paste position it uses (no shadow). */
  function PixelCompose(found: bool, w: int, h: int, padding: int, aspect: AspectRatio, parse: FloatParser)
    : (r: Result<Layout>)
    ensures !found <==> r == Err(FileNotFoundError)
  {
    if !found then Err(FileNotFoundError)
    else
      var crop := if padding < 0 then Some(PixelCrop(w, h, padding)) else None;
      var img := if crop.Some? then Size(crop.value.w, crop.value.h) else Size(w, h);
      var canvas := PixelDimensions(img.w, img.h, padding, aspect, parse);
      var paste := PastePosition(img.w, img.h, canvas.w, canvas.h, padding);
      Ok(Layout(crop, img, canvas, paste))
  }

  /** The pixel-padding layout always holds its picture, centred for a
      non-negative padding and at the origin otherwise. */
  lemma PixelComposeFits(w: int, h: int, padding: int, aspect: AspectRatio, parse: FloatParser)
    requires w >= 1 && h >= 1 && RatioGrows(aspect, parse)
    ensures var r := PixelCompose(true, w, h, padding, aspect, parse);
      && r.Ok? && var l := r.value;
      && 0 <= l.paste.x && l.paste.x + l.image.w <= l.canvas.w
      && 0 <= l.paste.y && l.paste.y + l.image.h <= l.canvas.h
      && (padding >= 0 ==>
            && l.image == Size(w, h)
            && l.paste.x <= l.canvas.w - (l.paste.x + l.image.w) <= l.paste.x + 1)
      && (padding < 0 ==> l.paste == Position(0, 0))
  {
    var l := PixelCompose(true, w, h, padding, aspect, parse).value;
    if padding < 0 {
      PixelCropInside(w, h, padding);
    }
    var img := l.image;
    var p := if padding >= 0 then padding else 0;
    if IsSet(aspect) {
      AdjustGrows(img.w + 2 * p, img.h + 2 * p, ParseAspectRatio(aspect, parse));
    }
    if padding >= 0 {
      PasteCentred(img.w, img.h, l.canvas.w, l.canvas.h, padding);
    }
  }
}
