/** The naming and format rules of the exporters in gradia/ui/image_exporters.py
    and of their earlier copy src/ui/image_exporters.py: the suggested file
    name, the extension a saved file gets, the format a path is saved in and
    its save options. */
module Exporters {
  import opened Wrappers
  import opened Numbers
  import opened Strings
  import opened Paths

  /** An entry of `SUPPORTED_FORMATS`: its key, the filter's display name,
      the MIME type, the extensions and the save options. */
  datatype Format = Format(key: string, name: string, mimeType: string, extensions: seq<string>,
                           saveKeys: seq<string>, saveValues: seq<string>)

  /** The size of a picture buffer. */
  datatype Size = Size(width: int, height: int)

  /** `FileDialogExporter.SUPPORTED_FORMATS`, in its order. */
  const Formats: seq<Format> := [
    Format("png", "PNG Image (*.png)", "image/png", [".png"], [], []),
    Format("jpeg", "JPEG Image (*.jpg)", "image/jpeg", [".jpg", ".jpeg"], ["quality"], ["90"]),
    Format("webp", "WebP Image (*.webp)", "image/webp", [".webp"], ["quality"], ["90"])
  ]

  /** `SUPPORTED_FORMATS.get(key)`. */
  function Lookup(formats: seq<Format>, key: string): (r: Option<Format>)
    ensures r.Some? ==> r.value in formats && r.value.key == key
    ensures r.None? <==> forall i :: 0 <= i < |formats| ==> formats[i].key != key
  {
    if formats == [] then None
    else if formats[0].key == key then Some(formats[0])
    else
      var r := Lookup(formats[1..], key);
      assert forall i :: 1 <= i < |formats| ==> formats[i] == formats[1..][i - 1];
      r
  }

  /** `_get_format_from_filter`: the key of the first format whose display
      name is the filter's name, or `None`. */
  function FormatFromFilter(formats: seq<Format>, filterName: string): Option<string> {
    if formats == [] then None
    else if formats[0].name == filterName then Some(formats[0].key)
    else FormatFromFilter(formats[1..], filterName)
  }

  /** The loop of `_ensure_correct_extension`: some extension ends the
      lower-cased path, compared lower-cased. */
  function HasExtension(pathLower: string, exts: seq<string>): bool {
    exts != [] && (EndsWith(pathLower, Lower(exts[0])) || HasExtension(pathLower, exts[1..]))
  }

  /** `_ensure_correct_extension` once `SUPPORTED_FORMATS.get` has answered:
      an unknown format or a path that already ends with one of the
      format's extensions is kept, otherwise the first extension is added. */
  function EnsureExtension(info: Option<Format>, path: string): string
    requires info.Some? ==> info.value.extensions != []
  {
    if info.None? then path
    else if HasExtension(Lower(path), info.value.extensions) then path
    else path + info.value.extensions[0]
  }

  function EnsureCorrectExtension(path: string, formatType: string): string {
    EnsureExtension(Lookup(Formats, formatType), path)
  }

  /** `_save_image`: the save options of a known format, otherwise the
      "Unsupported format" exception. */
  function SaveOptions(formatType: string): Result<(seq<string>, seq<string>)> {
    match Lookup(Formats, formatType)
    case Some(f) => Ok((f.saveKeys, f.saveValues))
    case None => Err(UnsupportedFormat)
  }

  /** `_get_dynamic_filename`: "<stem> (Edit)<ext>" for a picture with a
      path, otherwise "Enhanced Screenshot<ext>" (translations left as the
      English text). */
  function DynamicFilename(imagePath: Option<string>, extension: string): string {
    if imagePath.Some? && imagePath.value != "" then Stem(imagePath.value) + " (Edit)" + extension
    else "Enhanced Screenshot" + extension
  }

  /** The name the save dialog starts with: the dynamic name for ".png"
      without its extension. */
  function DialogName(imagePath: Option<string>): string {
    SplitExt(DynamicFilename(imagePath, ".png")).0
  }

  /** `overlay_pixbuffs`: both buffers must have one size, which the result
      has; `ValueError` otherwise. */
  function OverlaySize(bottom: Size, top: Size): Result<Size> {
    if bottom.width != top.width || bottom.height != top.height then Err(ValueError)
    else Ok(Size(bottom.width, bottom.height))
  }

  /** The opacity `int(255 * alpha)` the top buffer is composited with. */
  function TopOpacity(alpha: real): int {
    Trunc(255.0 * alpha)
  }

  /** The base `_ensure_processed_image_available` of gradia: it raises
      without a processed picture and otherwise returns `False`. */
  function BaseAvailable(processed: bool): Result<bool> {
    if !processed then Err(NoProcessedImage) else Ok(false)
  }

  /** The dialog exporter's override: `True` exactly when the base did not
      raise. */
  function DialogAvailable(processed: bool): bool {
    BaseAvailable(processed).Ok?
  }

  // ---------------------------------------------------------------------
  // src/ui/image_exporters.py

  /** The earlier `_get_dynamic_filename`: "<stem>_processed<ext>", or
      "processed_image<ext>" without a path. */
  function EarlierFilename(imagePath: Option<string>, extension: string): string {
    if imagePath.Some? && imagePath.value != "" then Stem(imagePath.value) + "_processed" + extension
    else "processed_image" + extension
  }

  /** `format_map.get(ext, 'png')`. */
  function FormatForExtension(ext: string): string {
    if ext == ".png" then "png"
    else if ext == ".jpg" || ext == ".jpeg" then "jpeg"
    else if ext == ".webp" then "webp"
    else "png"
  }

  /** The format `_save_processed_image` saves a path in: that of the
      extension of the lower-cased path. */
  function PixbufFormat(savePath: string): string {
    FormatForExtension(SplitExt(Lower(savePath)).1)
  }

  /** The option keys and values `savev` gets for a format. */
  function EarlierSaveOptions(pixbufFormat: string): (seq<string>, seq<string>) {
    if pixbufFormat == "jpeg" then (["quality"], ["90"])
    else if pixbufFormat == "webp" then (["quality"], ["90"])
    else ([], [])
  }

  /** The earlier base check, which raises without a processed picture. */
  function EarlierBaseCheck(processed: bool): Result<()> {
    if !processed then Err(NoProcessedImage) else Ok(())
  }

  /** The earlier override: `True` exactly when the base check passed. */
  function EarlierAvailable(processed: bool): bool {
    EarlierBaseCheck(processed).Ok?
  }

  // ---------------------------------------------------------------------
  // Extensions

  /** The loop finds an extension exactly when one of them, lower-cased,
      ends the path. */
  lemma {:induction false} HasExtensionIff(pathLower: string, exts: seq<string>)
    ensures HasExtension(pathLower, exts) <==> exists i :: 0 <= i < |exts| && EndsWith(pathLower, Lower(exts[i]))
  {
    if exts != [] {
      HasExtensionIff(pathLower, exts[1..]);
      if HasExtension(pathLower, exts[1..]) {
        var i :| 0 <= i < |exts[1..]| && EndsWith(pathLower, Lower(exts[1..][i]));
        assert exts[i + 1] == exts[1..][i];
      }
      if exists i :: 0 <= i < |exts| && EndsWith(pathLower, Lower(exts[i])) {
        var i :| 0 <= i < |exts| && EndsWith(pathLower, Lower(exts[i]));
        if i > 0 {
          assert exts[1..][i - 1] == exts[i];
        }
      }
    }
  }

  /** For a known format the result always ends, case-insensitively, with
      one of its extensions; a path that already did is kept, any other one
      gets the first extension appended. */
  lemma EnsureEnds(info: Option<Format>, path: string)
    requires info.Some? && info.value.extensions != []
    ensures HasExtension(Lower(EnsureExtension(info, path)), info.value.extensions)
    ensures HasExtension(Lower(path), info.value.extensions) ==> EnsureExtension(info, path) == path
    ensures !HasExtension(Lower(path), info.value.extensions) ==>
      EnsureExtension(info, path) == path + info.value.extensions[0]
  {
    if !HasExtension(Lower(path), info.value.extensions) {
      var e := info.value.extensions[0];
      LowerEndsWith(path, e);
    }
  }

  /** Applying the rule twice is applying it once. */
  lemma EnsureIdempotent(info: Option<Format>, path: string)
    requires info.Some? ==> info.value.extensions != []
    ensures EnsureExtension(info, EnsureExtension(info, path)) == EnsureExtension(info, path)
  {
    if info.Some? {
      EnsureEnds(info, path);
    }
  }

  /** An unknown format leaves the path as it is. */
  lemma UnknownFormatKept(path: string, formatType: string)
    requires formatType != "png" && formatType != "jpeg" && formatType != "webp"
    ensures EnsureCorrectExtension(path, formatType) == path
    ensures SaveOptions(formatType) == Err(UnsupportedFormat)
  {
    assert Lookup(Formats, formatType) == None;
  }

  /** Every supported format has at least one extension, so the rule and
      its properties apply to each of them. */
  lemma FormatsHaveExtensions(formatType: string)
    ensures Lookup(Formats, formatType).Some? ==> Lookup(Formats, formatType).value.extensions != []
  {
  }

  // ---------------------------------------------------------------------
  // Filters and save options

  /** The filter search answers a key exactly when some format has that
      display name, and the key is that of the first such format. */
  lemma {:induction false} FilterFinds(formats: seq<Format>, filterName: string)
    ensures FormatFromFilter(formats, filterName).Some? <==>
      exists i :: 0 <= i < |formats| && formats[i].name == filterName
    ensures FormatFromFilter(formats, filterName).Some? ==>
      exists i :: 0 <= i < |formats| && formats[i].name == filterName
        && FormatFromFilter(formats, filterName).value == formats[i].key
        && forall j :: 0 <= j < i ==> formats[j].name != filterName
  {
    if formats != [] && formats[0].name != filterName {
      FilterFinds(formats[1..], filterName);
      if exists i :: 0 <= i < |formats| && formats[i].name == filterName {
        var i :| 0 <= i < |formats| && formats[i].name == filterName;
        assert formats[1..][i - 1] == formats[i];
      }
      if FormatFromFilter(formats[1..], filterName).Some? {
        var i :| 0 <= i < |formats[1..]| && formats[1..][i].name == filterName
          && FormatFromFilter(formats[1..], filterName).value == formats[1..][i].key
          && forall j :: 0 <= j < i ==> formats[1..][j].name != filterName;
        assert formats[i + 1] == formats[1..][i];
        forall j | 0 <= j < i + 1
          ensures formats[j].name != filterName
        {
          if j > 0 {
            assert formats[j] == formats[1..][j - 1];
          }
        }
      }
    }
  }

  /** Each supported format's own filter name leads back to its key. */
  lemma FilterRoundTrip(i: nat)
    requires i < |Formats|
    ensures FormatFromFilter(Formats, Formats[i].name) == Some(Formats[i].key)
  {
  }

  /** JPEG and WebP are saved at quality "90", PNG without options. */
  lemma SaveQuality()
    ensures SaveOptions("jpeg") == Ok((["quality"], ["90"]))
    ensures SaveOptions("webp") == Ok((["quality"], ["90"]))
    ensures SaveOptions("png") == Ok(([], []))
  {
    assert Lookup(Formats, "png") == Some(Formats[0]);
    assert Lookup(Formats, "jpeg") == Some(Formats[1]);
    assert Lookup(Formats, "webp") == Some(Formats[2]);
  }

  // ---------------------------------------------------------------------
  // Names

  /** The dialog starts from the dynamic name without its ".png". */
  lemma DialogNameIs(imagePath: Option<string>)
    ensures DialogName(imagePath)
         == if imagePath.Some? && imagePath.value != "" then Stem(imagePath.value) + " (Edit)"
            else "Enhanced Screenshot"
  {
    var root := if imagePath.Some? && imagePath.value != "" then Stem(imagePath.value) + " (Edit)"
                else "Enhanced Screenshot";
    assert root[|root| - 1] == (if imagePath.Some? && imagePath.value != "" then ')' else 't');
    assert ".png"[1..] == "png";
    SplitExtAppend(root, ".png");
  }

  /** Both exporters name a picture after its file: the stem, a marker and
      the extension, and a fixed name without a file. */
  lemma NamesEndWithExtension(imagePath: Option<string>, extension: string)
    ensures EndsWith(DynamicFilename(imagePath, extension), extension)
    ensures EndsWith(EarlierFilename(imagePath, extension), extension)
    ensures imagePath.Some? && imagePath.value != "" ==>
      StartsWith(DynamicFilename(imagePath, extension), Stem(imagePath.value))
      && StartsWith(EarlierFilename(imagePath, extension), Stem(imagePath.value))
  {
    var n := DynamicFilename(imagePath, extension);
    var m := EarlierFilename(imagePath, extension);
    assert n[|n| - |extension|..] == extension;
    assert m[|m| - |extension|..] == extension;
  }

  /** Buffers of one size overlay to that size; any mismatch raises. */
  lemma OverlayChecks(bottom: Size, top: Size)
    ensures OverlaySize(bottom, top).Ok? <==> bottom == top
    ensures OverlaySize(bottom, top).Ok? ==> OverlaySize(bottom, top).value == bottom
    ensures OverlaySize(bottom, top).Err? ==> OverlaySize(bottom, top).error == ValueError
  {
  }

  /** Full opacity composites the top buffer at 255. */
  lemma TopOpacityFull()
    ensures TopOpacity(1.0) == 255
    ensures forall a: real :: 0.0 <= a <= 1.0 ==> 0 <= TopOpacity(a) <= 255
  {
  }

  /** The override of gradia answers `True` exactly when a processed
      picture exists, though the base itself answers `False` then. */
  lemma AvailabilityChecks(processed: bool)
    ensures DialogAvailable(processed) <==> processed
    ensures processed ==> BaseAvailable(processed) == Ok(false)
    ensures EarlierAvailable(processed) <==> processed
  {
  }

  // ---------------------------------------------------------------------
  // Earlier save formats

  /** Lower-casing keeps a character other than '.' and '/' away from
      both. */
  lemma LowerCharNotSeparator(c: char)
    requires c != '.' && c != '/'
    ensures LowerChar(c) != '.' && LowerChar(c) != '/'
  {
  }

  /** Each extension of the format map starts with its only '.'. */
  lemma MapExtensionShape(ext: string)
    requires ext in [".png", ".jpg", ".jpeg", ".webp"]
    ensures |ext| >= 1 && ext[0] == '.' && '.' !in ext[1..] && '/' !in ext
  {
    if ext == ".png" {
      assert ext[1..] == "png";
    } else if ext == ".jpg" {
      assert ext[1..] == "jpg";
    } else if ext == ".jpeg" {
      assert ext[1..] == "jpeg";
    } else {
      assert ext[1..] == "webp";
    }
  }

  /** The save path's extension, in any case, picks the format: ".png" gives
      png, ".jpg" and ".jpeg" jpeg, ".webp" webp, when the name before it
      ends with a character other than '.' and '/'. */
  lemma ExtensionPicksFormat(root: string, ext: string)
    requires root != "" && root[|root| - 1] != '.' && root[|root| - 1] != '/'
    requires Lower(ext) in [".png", ".jpg", ".jpeg", ".webp"]
    ensures PixbufFormat(root + ext) == FormatForExtension(Lower(ext))
  {
    LowerConcat(root, ext);
    var lr := Lower(root);
    LowerCharNotSeparator(root[|root| - 1]);
    assert lr[|lr| - 1] == LowerChar(root[|root| - 1]);
    MapExtensionShape(Lower(ext));
    SplitExtAppend(lr, Lower(ext));
  }

  /** The format map sends ".png" to png, ".jpg" and ".jpeg" to jpeg,
      ".webp" to webp and anything else to png; the options are quality
      "90" for jpeg and webp and none for png. */
  lemma FormatMapCases(ext: string)
    ensures FormatForExtension(ext) in ["png", "jpeg", "webp"]
    ensures FormatForExtension(ext) == "jpeg" <==> ext == ".jpg" || ext == ".jpeg"
    ensures FormatForExtension(ext) == "webp" <==> ext == ".webp"
    ensures ext != ".jpg" && ext != ".jpeg" && ext != ".webp" ==> FormatForExtension(ext) == "png"
    ensures var f := FormatForExtension(ext);
      EarlierSaveOptions(f) == if f == "png" then ([], []) else (["quality"], ["90"])
  {
  }
}
