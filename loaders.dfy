/** The input side of gradia/ui/image_loaders.py: which files are accepted,
    and what loading one does to the window, in which order. */
module Loaders {
  import opened Wrappers
  import opened Strings
  import opened Paths
  import Letterbox
  import OverlayState

  /** `SUPPORTED_INPUT_FORMATS`: extension and MIME type. */
  const InputFormats: seq<(string, string)> := [
    (".png", "image/png"),
    (".jpg", "image/jpg"),
    (".jpeg", "image/jpeg"),
    (".webp", "image/webp"),
    (".avif", "image/avif")
  ]

  /** `[ext for ext, _mime in formats]`. */
  function Extensions(formats: seq<(string, string)>): (r: seq<string>)
    ensures |r| == |formats|
    ensures forall i :: 0 <= i < |formats| ==> r[i] == formats[i].0
  {
    if formats == [] then [] else [formats[0].0] + Extensions(formats[1..])
  }

  /** `any(s.endswith(ext) for ext in exts)`. */
  function AnyEndsWith(s: string, exts: seq<string>): bool {
    exts != [] && (EndsWith(s, exts[0]) || AnyEndsWith(s, exts[1..]))
  }

  /** `_is_supported_format`: the lower-cased path ends with a supported
      extension. */
  function IsSupportedFormat(path: string): bool {
    AnyEndsWith(Lower(path), Extensions(InputFormats))
  }

  /** What `GradiaMainWindow` is asked to do while a picture loads, with the
      number of annotations the overlay holds at that moment. */
  datatype Step =
    | SidebarUpdated(filename: string, location: string, annotations: nat)
    | ProcessingStarted(imagePath: string, annotations: nat)

  /** The parts of the main window the loaders change: the picture path, the
      drawing overlay and its view, and the requests made of the window. */
  class Window {
    var imagePath: Option<string>
    var overlay: OverlayState.State
    var view: Letterbox.View
    var steps: seq<Step>

    constructor(view: Letterbox.View)
      ensures imagePath.None? && overlay == OverlayState.Initial() && this.view == view && steps == []
    {
      imagePath := None;
      overlay := OverlayState.Initial();
      this.view := view;
      steps := [];
    }

    /** `_update_sidebar_info`. */
    method UpdateSidebarInfo(filename: string, location: string)
      modifies this
      ensures imagePath == old(imagePath) && overlay == old(overlay) && view == old(view)
      ensures steps == old(steps) + [SidebarUpdated(filename, location, |overlay.doc.actions|)]
    {
      steps := steps + [SidebarUpdated(filename, location, |overlay.doc.actions|)];
    }

    /** `_start_processing` of the current picture path. */
    method StartProcessing()
      requires imagePath.Some?
      modifies this
      ensures imagePath == old(imagePath) && overlay == old(overlay) && view == old(view)
      ensures steps == old(steps) + [ProcessingStarted(imagePath.value, |overlay.doc.actions|)]
    {
      steps := steps + [ProcessingStarted(imagePath.value, |overlay.doc.actions|)];
    }

    /** `_set_image_and_update_ui`: the path is set and the drawing cleared
        before the sidebar is updated and processing starts, so both of
        those see no annotation left from the previous picture. */
    method SetImageAndUpdateUi(imagePath: string, filename: string, location: string)
      modifies this
      ensures this.imagePath == Some(imagePath) && view == old(view)
      ensures overlay == OverlayState.ClearDrawing(old(overlay), old(view))
      ensures overlay.doc.actions == [] && overlay.doc.redoStack == []
      ensures steps == old(steps) + [SidebarUpdated(filename, location, 0), ProcessingStarted(imagePath, 0)]
    {
      this.imagePath := Some(imagePath);
      overlay := OverlayState.ClearDrawing(overlay, view);
      UpdateSidebarInfo(filename, location);
      StartProcessing();
    }
  }

  /** A file loader (the file dialog and drag and drop share this logic); the
      file system's answer to `os.path.isfile` is a parameter. */
  class FileLoader {
    const window: Window

    constructor(window: Window)
      ensures this.window == window
    {
      this.window := window;
    }

    /** `handle_file_drop` for a dropped value whose path is `path`:
        accepted exactly when the path is set, names a file and has a
        supported extension; then the picture is loaded under its base name
        and directory. A refused drop changes nothing. A dropped value that
        is not a `Gio.File` has no path, so it is the `None` case here. */
    method HandleFileDrop(path: Option<string>, isFile: bool) returns (accepted: bool)
      modifies window
      ensures accepted <==> path.Some? && path.value != "" && isFile && IsSupportedFormat(path.value)
      ensures window.view == old(window.view)
      ensures accepted ==> window.imagePath == path && window.overlay.doc.actions == []
      ensures accepted ==> window.overlay == OverlayState.ClearDrawing(old(window.overlay), old(window.view))
      ensures accepted ==> window.steps == old(window.steps) + [
        SidebarUpdated(Basename(path.value), Dirname(path.value), 0), ProcessingStarted(path.value, 0)]
      ensures !accepted ==> window.imagePath == old(window.imagePath) && window.overlay == old(window.overlay)
      ensures !accepted ==> window.steps == old(window.steps)
    {
      if path.None? || path.value == "" || !isFile {
        return false;
      }
      if !IsSupportedFormat(path.value) {
        return false;
      }
      window.SetImageAndUpdateUi(path.value, Basename(path.value), Dirname(path.value));
      return true;
    }
  }

  // ---------------------------------------------------------------------
  // Accepted formats

  /** The search finds an extension exactly when one ends the text. */
  lemma {:induction false} AnyEndsWithIff(s: string, exts: seq<string>)
    ensures AnyEndsWith(s, exts) <==> exists i :: 0 <= i < |exts| && EndsWith(s, exts[i])
  {
    if exts != [] {
      AnyEndsWithIff(s, exts[1..]);
      if AnyEndsWith(s, exts[1..]) {
        var i :| 0 <= i < |exts[1..]| && EndsWith(s, exts[1..][i]);
        assert exts[i + 1] == exts[1..][i];
      }
      if exists i :: 0 <= i < |exts| && EndsWith(s, exts[i]) {
        var i :| 0 <= i < |exts| && EndsWith(s, exts[i]);
        if i > 0 {
          assert exts[1..][i - 1] == exts[i];
        }
      }
    }
  }

  /** A path is accepted exactly when, lower-cased, it ends with one of the
      five extensions. */
  lemma SupportedIff(path: string)
    ensures IsSupportedFormat(path) <==>
      exists i :: 0 <= i < |InputFormats| && EndsWith(Lower(path), InputFormats[i].0)
  {
    var exts := Extensions(InputFormats);
    AnyEndsWithIff(Lower(path), exts);
    if IsSupportedFormat(path) {
      var i :| 0 <= i < |exts| && EndsWith(Lower(path), exts[i]);
      assert InputFormats[i].0 == exts[i];
    }
  }

  /** The test ignores case: a path and its lower-cased form are accepted
      alike. */
  lemma CaseInsensitive(path: string)
    ensures IsSupportedFormat(path) == IsSupportedFormat(Lower(path))
  {
    LowerIdempotent(path);
  }

  /** The extensions are lower-case already. */
  lemma ExtensionsLower(i: nat)
    requires i < |InputFormats|
    ensures Lower(InputFormats[i].0) == InputFormats[i].0
  {
    var e := InputFormats[i].0;
    assert forall k :: 0 <= k < |e| ==> !('A' <= e[k] <= 'Z');
    assert forall k :: 0 <= k < |e| ==> Lower(e)[k] == e[k];
  }

  /** A supported extension in any case ends an accepted path: "X.PNG" is
      accepted. */
  lemma AnyCaseAccepted(root: string, ext: string, i: nat)
    requires i < |InputFormats| && Lower(ext) == InputFormats[i].0
    ensures IsSupportedFormat(root + ext)
  {
    LowerEndsWith(root, ext);
    SupportedIff(root + ext);
  }

  /** A text ending with a non-empty extension ends with its last
      character. */
  lemma EndsWithLast(s: string, e: string)
    ensures EndsWith(s, e) && e != "" ==> s[|s| - 1] == e[|e| - 1]
  {
    if EndsWith(s, e) && e != "" {
      assert s[|s| - |e|..][|e| - 1] == s[|s| - 1];
    }
  }

  /** Every extension ends with 'g', 'p' or 'f'. */
  lemma ExtensionEnds(i: nat)
    requires i < |InputFormats|
    ensures var e := InputFormats[i].0; e != "" && (e[|e| - 1] == 'g' || e[|e| - 1] == 'p' || e[|e| - 1] == 'f')
  {
    if i == 0 {
      assert InputFormats[0].0 == ".png";
    } else if i == 1 {
      assert InputFormats[1].0 == ".jpg";
    } else if i == 2 {
      assert InputFormats[2].0 == ".jpeg";
    } else if i == 3 {
      assert InputFormats[3].0 == ".webp";
    } else {
      assert InputFormats[4].0 == ".avif";
    }
  }

  /** Only the end of the path counts: a path whose last character is not
      'g', 'p' or 'f' in either case is refused, so "photo.png.txt" is,
      though ".png" appears in it. */
  lemma SuffixOnly(path: string)
    requires path != ""
    requires Lower(path)[|path| - 1] != 'g' && Lower(path)[|path| - 1] != 'p' && Lower(path)[|path| - 1] != 'f'
    ensures !IsSupportedFormat(path)
  {
    NoExtensionEnds(Lower(path));
    SupportedIff(path);
  }

  /** No extension ends a text whose last character is not 'g', 'p' or
      'f'. */
  lemma NoExtensionEnds(l: string)
    requires l != "" && l[|l| - 1] != 'g' && l[|l| - 1] != 'p' && l[|l| - 1] != 'f'
    ensures forall i :: 0 <= i < |InputFormats| ==> !EndsWith(l, InputFormats[i].0)
  {
    forall i | 0 <= i < |InputFormats|
      ensures !EndsWith(l, InputFormats[i].0)
    {
      ExtensionEnds(i);
      EndsWithLast(l, InputFormats[i].0);
    }
  }
}
