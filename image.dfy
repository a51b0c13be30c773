/** The picture background of gradia/graphics/image.py: a loaded picture is
    scaled to cover the requested size, keeping its proportions, and the
    centred part of that size is cut out of it. */
module Image {
  import opened Wrappers
  import opened Numbers

  /** The size of the loaded picture (its pixels are not modelled). */
  datatype Picture = Picture(width: int, height: int)

  /** The resize and then the crop box `(left, top, right, bottom)`. */
  datatype Cover = Cover(newWidth: int, newHeight: int, left: int, top: int, right: int, bottom: int)

  /** `prepare_image(width, height)`: `None` without a picture. The ratios
      are Python floats, written here as reals; `int` truncates and `//`
      by 2 floors (Dafny's division agrees for a positive divisor). A zero
      height of either size, or a zero-width picture on the second branch,
      raises `ZeroDivisionError`. */
  function PrepareImage(image: Option<Picture>, width: int, height: int): Result<Option<Cover>> {
    if image.None? then Ok(None)
    else
      var img := image.value;
      if img.height == 0 || height == 0 then Err(ZeroDivisionError)
      else
        var ratio := img.width as real / img.height as real;
        var target := width as real / height as real;
        if ratio > target then
          Ok(Some(Crop(Trunc(height as real * ratio), height, width, height)))
        else if ratio == 0.0 then Err(ZeroDivisionError)
        else
          Ok(Some(Crop(width, Trunc(width as real / ratio), width, height)))
  }

  /** The centred `width` x `height` box of a picture resized to
      `newWidth` x `newHeight`. */
  function Crop(newWidth: int, newHeight: int, width: int, height: int): Cover {
    var left := (newWidth - width) / 2;
    var top := (newHeight - height) / 2;
    Cover(newWidth, newHeight, left, top, left + width, top + height)
  }

  /** `get_name`: an unset or empty path shows as "none". */
  function ImageName(filePath: Option<string>): string {
    "image-" + if filePath.Some? && filePath.value != "" then filePath.value else "none"
  }

  /** `ImageBackground`: the path last asked for and the picture, if it
      loaded. */
  class ImageBackground {
    var filePath: Option<string>
    var image: Option<Picture>

    /** `__init__`; a non-empty path is loaded, `loaded` being what opening
        it gives. */
    constructor(filePath: Option<string>, loaded: Option<Picture>)
      ensures this.filePath == filePath
      ensures image == if filePath.Some? && filePath.value != "" then loaded else None
    {
      this.filePath := filePath;
      image := None;
      new;
      if filePath.Some? && filePath.value != "" {
        LoadImage(filePath.value, loaded);
      }
    }

    /** `load_image`: the path is kept whether or not the picture opens;
        `loaded` is `None` when opening fails. */
    method LoadImage(path: string, loaded: Option<Picture>)
      modifies this
      ensures filePath == Some(path) && image == loaded
    {
      filePath := Some(path);
      image := loaded;
    }

    function Name(): string
      reads this
    {
      ImageName(filePath)
    }

    function Prepare(width: int, height: int): Result<Option<Cover>>
      reads this
    {
      PrepareImage(image, width, height)
    }
  }

  // ---------------------------------------------------------------------
  // Real arithmetic

  lemma MulDiv(w: real, h: real)
    requires h != 0.0
    ensures h * (w / h) == w
  {
  }

  lemma MulStrict(h: real, a: real, b: real)
    requires h > 0.0 && a > b
    ensures h * a > h * b
  {
  }

  lemma DivAnti(w: real, r: real, t: real)
    requires w > 0.0 && 0.0 < r <= t
    ensures w / r >= w / t
  {
    assert w / r * r == w;
    assert w / t * t == w;
  }

  lemma DivDiv(w: real, h: real)
    requires w > 0.0 && h > 0.0
    ensures w / (w / h) == h
  {
    assert (w / h) * h == w;
  }

  // ---------------------------------------------------------------------
  // Cover and crop

  /** Without a picture there is nothing to draw. */
  lemma NoPicture(width: int, height: int)
    ensures PrepareImage(None, width, height) == Ok(None)
  {
  }

  /** A centred crop from a resize at least as large as the target is
      exactly the target size and lies inside the resize. */
  lemma CropInside(newWidth: int, newHeight: int, width: int, height: int)
    requires width <= newWidth && height <= newHeight
    ensures var c := Crop(newWidth, newHeight, width, height);
      && c.right - c.left == width && c.bottom - c.top == height
      && 0 <= c.left && c.right <= newWidth && 0 <= c.top && c.bottom <= newHeight
      && c.left == (newWidth - width) / 2 && c.top == (newHeight - height) / 2
  {
  }

  /** A picture relatively wider than the target keeps the target height and
      gets a width of at least the target width. */
  lemma WiderCovers(img: Picture, width: int, height: int)
    requires img.width > 0 && img.height > 0 && width > 0 && height > 0
    requires img.width as real / img.height as real > width as real / height as real
    ensures var r := PrepareImage(Some(img), width, height);
      && r.Ok? && r.value.Some? && r.value.value.newHeight == height && r.value.value.newWidth >= width
  {
    var ratio := img.width as real / img.height as real;
    var target := width as real / height as real;
    MulStrict(height as real, ratio, target);
    MulDiv(width as real, height as real);
    TruncAtLeast(height as real * ratio, width);
  }

  /** Any other picture keeps the target width and gets a height of at least
      the target height. */
  lemma TallerCovers(img: Picture, width: int, height: int)
    requires img.width > 0 && img.height > 0 && width > 0 && height > 0
    requires img.width as real / img.height as real <= width as real / height as real
    ensures var r := PrepareImage(Some(img), width, height);
      && r.Ok? && r.value.Some? && r.value.value.newWidth == width && r.value.value.newHeight >= height
  {
    var ratio := img.width as real / img.height as real;
    var target := width as real / height as real;
    DivAnti(width as real, ratio, target);
    DivDiv(width as real, height as real);
    TruncAtLeast(width as real / ratio, height);
  }

  /** For positive sizes the picture always covers the target, and the crop
      box is exactly `width` x `height`, centred, and inside the resize. */
  lemma CoverCrop(img: Picture, width: int, height: int)
    requires img.width > 0 && img.height > 0 && width > 0 && height > 0
    ensures var r := PrepareImage(Some(img), width, height);
      && r.Ok? && r.value.Some?
      && var c := r.value.value;
      && c.newWidth >= width && c.newHeight >= height
      && c.right - c.left == width && c.bottom - c.top == height
      && 0 <= c.left && c.right <= c.newWidth && 0 <= c.top && c.bottom <= c.newHeight
      && c.left == (c.newWidth - width) / 2 && c.top == (c.newHeight - height) / 2
  {
    if img.width as real / img.height as real > width as real / height as real {
      WiderCovers(img, width, height);
    } else {
      TallerCovers(img, width, height);
    }
    var c := PrepareImage(Some(img), width, height).value.value;
    CropInside(c.newWidth, c.newHeight, width, height);
  }

  /** A zero target height, or a picture of zero height, raises. */
  lemma ZeroHeight(img: Picture, width: int, height: int)
    requires img.height == 0 || height == 0
    ensures PrepareImage(Some(img), width, height) == Err(ZeroDivisionError)
  {
  }

  // ---------------------------------------------------------------------
  // Name

  /** The name is "image-" and the path, or "image-none" without one. */
  lemma NameShape(filePath: Option<string>)
    ensures var n := ImageName(filePath); |n| >= 6 && n[..6] == "image-"
    ensures filePath.Some? && filePath.value != "" ==> ImageName(filePath)[6..] == filePath.value
    ensures filePath.None? ==> ImageName(filePath) == "image-none"
  {
  }

  /** Non-empty paths give different names. */
  lemma NameInjective(p: string, q: string)
    requires p != "" && q != "" && ImageName(Some(p)) == ImageName(Some(q))
    ensures p == q
  {
    NameShape(Some(p));
    NameShape(Some(q));
  }
}
