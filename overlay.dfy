/** `DrawingOverlay` (gradia/overlay/drawing_overlay.py) as an object whose
    handlers update its fields in place. Every handler is proved to leave the
    fields as the matching function of `OverlayState` describes, and to keep
    `WellFormed`. What GTK reports while a handler runs (the picture and the
    allocated sizes) is the `View` parameter; Pango's text measurement is the
    `measure` the overlay is built with. The tool settings, the drag fields
    and the text-entry fields are kept as three record-valued fields; the
    annotation lists are fields of their own. */
module Overlay {
  import opened Wrappers
  import opened Numbers
  import opened Strings
  import opened Geometry
  import opened Annotations
  import opened Letterbox
  import opened OverlayState
  import opened OverlayLaws

  class DrawingOverlay {
    const measure: Measure

    /** The drawing mode and the pen, font, highlighter and censor settings. */
    var tools: Tools
    /** `is_drawing`, `current_stroke`, `start_point`, `end_point`,
        `is_moving_selection` and `move_start_point`. */
    var gesture: Gesture
    /** The text-entry popover and the text being typed or edited. */
    var session: Session

    /** `actions` and `redo_stack` hold object identities; `objects` maps each
        identity to the object's current value. */
    var actions: seq<nat>
    var redoStack: seq<nat>
    var objects: map<nat, Action>
    var selected: Option<nat>
    var nextId: nat

    /** The fields, grouped as `OverlayState.State`. */
    function Snapshot(): State
      reads this
    {
      State(tools, Doc(actions, redoStack, objects, selected, nextId), gesture, session)
    }

    predicate Valid()
      reads this
    {
      WellFormed(Snapshot())
    }

    /** `__init__`. */
    constructor(measure: Measure)
      ensures Snapshot() == Initial() && Valid() && this.measure == measure
    {
      this.measure := measure;
      tools := Tools(PenMode, DefaultPenSize, DefaultArrowHeadSize, DefaultFontSize, DefaultFontFamily,
                     DefaultPenColor, DefaultHighlighterSize, DefaultPixelationLevel, None);
      gesture := Gesture(false, [], None, None, false, None);
      session := Session(false, "", None, false, None, None);
      actions := [];
      redoStack := [];
      objects := map[];
      selected := None;
      nextId := 0;
      new;
      InitialWellFormed();
    }

    /** `self.actions.append(action)` of a newly created object. */
    method AppendAction(a: Action)
      modifies this
      ensures Snapshot() == old(Snapshot()).(doc := OverlayState.Append(old(Snapshot()).doc, a))
    {
      actions := actions + [nextId];
      objects := objects[nextId := a];
      nextId := nextId + 1;
    }

    /** `remove_selected_action`. */
    method RemoveSelectedAction() returns (removed: bool)
      requires Valid()
      modifies this
      ensures Valid()
      ensures var (ok, d) := OverlayState.RemoveSelected(old(Snapshot()).doc);
        removed == ok && Snapshot() == old(Snapshot()).(doc := d)
    {
      ghost var s0 := Snapshot();
      if selected.Some? && selected.value in actions {
        actions := RemoveFirst(actions, selected.value);
        selected := None;
        redoStack := [];
        removed := true;
      } else {
        removed := false;
      }
      RemoveSelectedLaws(s0.doc);
    }

    /** `_find_action_at_point`: walks the annotations from the top down. */
    method FindActionAtPoint(p: Point) returns (r: Option<nat>)
      ensures r == FindAt(Snapshot().doc, p, measure)
    {
      ghost var d := Snapshot().doc;
      var i := |actions|;
      while i > 0
        invariant 0 <= i <= |actions|
        invariant FindIndex(d, |actions|, p, measure) == FindIndex(d, i, p, measure)
      {
        i := i - 1;
        var id := actions[i];
        if id in objects && Annotations.Contains(objects[id], p, measure) {
          return Some(id);
        }
      }
      return None;
    }

    /** `_is_point_in_selection_bounds`. */
    method IsPointInSelectionBounds(p: Point) returns (r: bool)
      ensures r == InSelectionBounds(Snapshot(), p, measure)
    {
      if selected.None? || selected.value !in objects {
        return false;
      }
      var b := Bounds(objects[selected.value], measure);
      var padding := MaxR(MaxR(tools.penSize, tools.arrowHeadSize), tools.fontSize / 2.0) / 200.0;
      return b.minX - padding <= p.x <= b.maxX + padding && b.minY - padding <= p.y <= b.maxY + padding;
    }

    /** `set_drawing_mode`. */
    method SetDrawingMode(v: View, newMode: DrawingMode)
      requires Valid()
      modifies this
      ensures Valid()
      ensures Snapshot() == OverlayState.SetDrawingMode(old(Snapshot()), v, newMode)
    {
      ghost var s0 := Snapshot();
      SetDrawingModeWellFormed(s0, v, newMode);
      if session.popupOpen {
        CloseTextEntry(v);
      }
      if newMode != SelectMode {
        selected := None;
      }
      tools := tools.(mode := newMode);
      gesture := gesture.(isDrawing := false, isMovingSelection := false, currentStroke := [],
                          startPoint := None, endPoint := None);
    }

    /** `_on_click` with `n` presses at widget point `(x, y)`. */
    method OnClick(v: View, n: int, x: real, y: real)
      requires Valid()
      modifies this
      ensures Valid()
      ensures Snapshot() == OverlayState.Click(old(Snapshot()), v, n, Point(x, y), measure)
    {
      ghost var s0 := Snapshot();
      ClickWellFormed(s0, v, n, Point(x, y), measure);
      var f := ImageBounds(v);
      var p := Point(x, y);
      if tools.mode == TextMode && InImage(f, p) {
        if n == 1 {
          ShowTextEntry(v, x, y);
        }
      } else if tools.mode == SelectMode && InImage(f, p) {
        var rel := ToImage(f, p);
        if n == 2 && selected.Some? && selected.value in objects && objects[selected.value].Text?
           && Annotations.Contains(objects[selected.value], rel, measure) {
          StartTextEdit(selected.value, objects[selected.value]);
          return;
        }
        if n == 1 {
          ClickSelect(rel);
        }
      }
    }

    /** The single-click branch of `_on_click` in select mode, at image point `rel`. */
    method ClickSelect(rel: Point)
      modifies this
      ensures Snapshot() == old(Snapshot()).(doc := old(Snapshot()).doc.(selected := ClickSelection(old(Snapshot()), rel, measure)))
    {
      var inside := IsPointInSelectionBounds(rel);
      if selected.Some? && !inside {
        selected := None;
      }
      var hit := FindActionAtPoint(rel);
      if hit.Some? && hit != selected {
        selected := hit;
      } else if hit.None? && selected.Some? {
        selected := None;
      }
    }

    /** `_start_text_edit` of the text object `a` with identity `id`. */
    method StartTextEdit(id: nat, a: Action)
      requires a.Text?
      modifies this
      ensures Snapshot() == OverlayState.StartTextEdit(old(Snapshot()), id, a)
    {
      session := session.(editingId := Some(id), textPosition := Some(a.position), isTextEditing := true,
                          liveText := Some(a.text), popupOpen := true, entryText := a.text);
    }

    /** `_show_text_entry` at widget point `(x, y)`. */
    method ShowTextEntry(v: View, x: real, y: real)
      requires Valid()
      modifies this
      ensures Valid()
      ensures Snapshot() == OverlayState.ShowTextEntry(old(Snapshot()), v, Point(x, y))
    {
      ghost var s0 := Snapshot();
      ShowTextEntryWellFormed(s0, v, Point(x, y));
      if session.popupOpen {
        var _ := OnPopoverClosed(v);
      }
      session := Session(true, "", Some(ToImage(ImageBounds(v), Point(x, y))), true, Some(""), None);
    }

    /** `_on_font_size_changed` with the spin button's value. */
    method OnFontSizeChanged(value: real)
      requires Valid()
      modifies this
      ensures Valid()
      ensures Snapshot() == OverlayState.FontSizeChanged(old(Snapshot()), value)
    {
      ghost var s0 := Snapshot();
      FontSizeChangedWellFormed(s0, value);
      if session.editingId.Some? {
        var id := session.editingId.value;
        if id in objects {
          objects := objects[id := WithFontSize(objects[id], value)];
        }
      } else {
        tools := tools.(fontSize := value);
      }
    }

    /** The editing branch of `_on_text_entry_popover_closed`, for the
        stripped entry text `text`. */
    method CommitTextEdit(id: nat, text: string)
      modifies this
      ensures Snapshot() == old(Snapshot()).(doc := CommitEdit(old(Snapshot()).doc, id, text))
    {
      if text != "" {
        if id in objects {
          objects := objects[id := WithText(objects[id], text)];
        }
      } else {
        actions := RemoveFirst(actions, id);
        if selected == Some(id) {
          selected := None;
        }
      }
      redoStack := [];
    }

    /** The new-text branch of `_on_text_entry_popover_closed`: a text
        annotation at `position` in the current pen colour and font. */
    method CommitNewText(position: Point, text: string, image: Raster)
      modifies this
      ensures Snapshot() == old(Snapshot()).(doc := Commit(old(Snapshot()).doc,
        Some(Text(position, text, old(tools).penColor, old(tools).fontSize, image, old(tools).fontFamily))))
    {
      AppendAction(Text(position, text, tools.penColor, tools.fontSize, image, tools.fontFamily));
      redoStack := [];
    }

    /** `_on_text_entry_popover_closed`; `raised` when creating the text
        annotation raises, in which case no field has changed. */
    method OnPopoverClosed(v: View) returns (raised: bool)
      requires Valid()
      modifies this
      ensures Valid()
      ensures raised <==> CommitText(old(Snapshot()), v).None?
      ensures Snapshot() == PopoverClosed(old(Snapshot()), v)
    {
      ghost var s0 := Snapshot();
      CloseTextEntryWellFormed(s0, v);
      if session.popupOpen && session.textPosition.Some? {
        var text := Strip(session.entryText);
        if session.editingId.Some? {
          CommitTextEdit(session.editingId.value, text);
        } else if text != "" {
          var bounds := ModifiedImageBounds(v);
          if bounds.Err? {
            return true;
          }
          CommitNewText(session.textPosition.value, text, bounds.value);
        }
      }
      CleanupTextEntry();
      return false;
    }

    /** `_on_text_entry_changed` with the entry's new text. */
    method OnTextEntryChanged(text: string)
      requires Valid()
      modifies this
      ensures Valid()
      ensures Snapshot() == TextChanged(old(Snapshot()), text)
    {
      ghost var s0 := Snapshot();
      TextChangedWellFormed(s0, text);
      session := session.(entryText := text, liveText := Some(text));
      if session.editingId.Some? && session.editingId.value in objects {
        var id := session.editingId.value;
        objects := objects[id := WithText(objects[id], text)];
      }
    }

    /** `_on_text_entry_activate`. */
    method OnTextEntryActivate(v: View)
      requires Valid()
      modifies this
      ensures Valid()
      ensures Snapshot() == OverlayState.CloseTextEntry(old(Snapshot()), v)
    {
      CloseTextEntry(v);
    }

    /** `_cleanup_text_entry`. */
    method CleanupTextEntry()
      modifies this
      ensures Snapshot() == old(Snapshot()).(session := Cleanup(old(Snapshot()).session))
    {
      session := session.(popupOpen := false, textPosition := None, liveText := None, isTextEditing := false,
                          editingId := None);
    }

    /** `_close_text_entry`: `popdown()` emits `closed`, handled at once. */
    method CloseTextEntry(v: View)
      requires Valid()
      modifies this
      ensures Valid()
      ensures Snapshot() == OverlayState.CloseTextEntry(old(Snapshot()), v)
    {
      ghost var s0 := Snapshot();
      CloseTextEntryWellFormed(s0, v);
      if session.popupOpen {
        var _ := OnPopoverClosed(v);
        session := session.(popupOpen := false);
      }
      session := session.(textPosition := None, liveText := None, isTextEditing := false, editingId := None);
    }

    /** `_on_drag_begin` at widget point `(x, y)`. */
    method OnDragBegin(v: View, x: real, y: real)
      requires Valid()
      modifies this
      ensures Valid()
      ensures Snapshot() == DragBegin(old(Snapshot()), v, Point(x, y), measure)
    {
      ghost var s0 := Snapshot();
      DragBeginWellFormed(s0, v, Point(x, y), measure);
      var f := ImageBounds(v);
      if tools.mode == TextMode || session.popupOpen {
        return;
      }
      if !InImage(f, Point(x, y)) {
        return;
      }
      var rel := ToImage(f, Point(x, y));
      if tools.mode == SelectMode {
        GrabSelection(rel);
        return;
      }
      gesture := gesture.(isDrawing := true);
      if tools.mode == PenMode || tools.mode == HighlighterMode {
        gesture := gesture.(currentStroke := [rel]);
      } else {
        gesture := gesture.(startPoint := Some(rel), endPoint := Some(rel));
      }
    }

    /** The select-mode branch of `_on_drag_begin` at image point `rel`: keep
        the selection when the press is on it, otherwise select what is hit;
        a move starts when something ends up selected. */
    method GrabSelection(rel: Point)
      modifies this
      ensures var s := old(Snapshot());
        var g := s.gesture.(isMovingSelection := true, moveStartPoint := Some(rel));
        Snapshot() ==
          if s.doc.selected.Some? && InSelectionBounds(s, rel, measure) then s.(gesture := g)
          else
            var hit := FindAt(s.doc, rel, measure);
            if hit.Some? then s.(doc := s.doc.(selected := hit), gesture := g)
            else s.(doc := s.doc.(selected := None))
    {
      var inside := IsPointInSelectionBounds(rel);
      if selected.Some? && inside {
        gesture := gesture.(isMovingSelection := true, moveStartPoint := Some(rel));
      } else {
        selected := FindActionAtPoint(rel);
        if selected.Some? {
          gesture := gesture.(isMovingSelection := true, moveStartPoint := Some(rel));
        }
      }
    }

    /** `_on_drag_update` for a drag that started at widget point `start`
        and is now offset by `(dx, dy)`. */
    method OnDragUpdate(v: View, start: Point, dx: real, dy: real)
      requires Valid()
      modifies this
      ensures Valid()
      ensures Snapshot() == DragUpdate(old(Snapshot()), v, start, dx, dy)
    {
      ghost var s0 := Snapshot();
      DragUpdateWellFormed(s0, v, start, dx, dy);
      if tools.mode == TextMode {
        return;
      }
      var rel := ToImage(ImageBounds(v), Point(start.x + dx, start.y + dy));
      if tools.mode == SelectMode && gesture.isMovingSelection && selected.Some? && gesture.moveStartPoint.Some? {
        MoveSelection(rel);
        return;
      }
      if gesture.isDrawing {
        ExtendDrawing(rel);
      }
    }

    /** The drawing branch of `_on_drag_update`: a freehand stroke gains the
        point, a shape gets it as its end point. */
    method ExtendDrawing(rel: Point)
      modifies this
      ensures var g := old(gesture);
        Snapshot() == old(Snapshot()).(gesture :=
          if Freehand(tools.mode) then g.(currentStroke := g.currentStroke + [rel]) else g.(endPoint := Some(rel)))
    {
      if tools.mode == PenMode || tools.mode == HighlighterMode {
        gesture := gesture.(currentStroke := gesture.currentStroke + [rel]);
      } else {
        gesture := gesture.(endPoint := Some(rel));
      }
    }

    /** The selection-move branch of `_on_drag_update`, to image point `rel`. */
    method MoveSelection(rel: Point)
      requires selected.Some? && gesture.moveStartPoint.Some?
      modifies this
      ensures Snapshot() == MoveTo(old(Snapshot()), rel)
    {
      var anchor := gesture.moveStartPoint.value;
      var id := selected.value;
      if id in objects {
        objects := objects[id := Translate(objects[id], rel.x - anchor.x, rel.y - anchor.y)];
      }
      gesture := gesture.(moveStartPoint := Some(rel));
    }

    /** `_on_drag_end`. */
    method OnDragEnd(v: View)
      requires Valid()
      modifies this
      ensures Valid()
      ensures Snapshot() == DragEnd(old(Snapshot()), v)
    {
      ghost var s0 := Snapshot();
      DragEndWellFormed(s0, v);
      if tools.mode == TextMode {
        return;
      }
      if tools.mode == SelectMode {
        gesture := gesture.(isMovingSelection := false, moveStartPoint := None);
        return;
      }
      if !gesture.isDrawing {
        return;
      }
      gesture := gesture.(isDrawing := false);
      var t := tools;
      if (t.mode == PenMode || t.mode == HighlighterMode) && |gesture.currentStroke| > 1 {
        AppendStroke();
        gesture := gesture.(currentStroke := []);
      } else if gesture.startPoint.Some? && gesture.endPoint.Some? {
        AppendShape(v, gesture.startPoint.value, gesture.endPoint.value);
      }
      gesture := gesture.(startPoint := None, endPoint := None);
      redoStack := [];
    }

    /** The freehand branch of `_on_drag_end`: a pen stroke, or a
        highlighter stroke in the pen colour at the highlighter's alpha. */
    method AppendStroke()
      modifies this
      ensures Snapshot() == old(Snapshot()).(doc := OverlayState.Append(old(Snapshot()).doc,
        StrokeOf(old(tools), old(gesture).currentStroke)))
    {
      var t := tools;
      if t.mode == PenMode {
        AppendAction(Stroke(gesture.currentStroke, t.penColor, t.penSize));
      } else {
        var highlight := Color(t.penColor.r, t.penColor.g, t.penColor.b, HighlighterAlpha);
        AppendAction(Highlighter(gesture.currentStroke, highlight, t.highlighterSize));
      }
    }

    /** The shape branch of `_on_drag_end`: the annotation from `a` to `b`
        the current mode draws, if it draws one. */
    method AppendShape(v: View, a: Point, b: Point)
      modifies this
      ensures Snapshot() == match ShapeOf(old(tools), v, a, b)
        case Some(x) => old(Snapshot()).(doc := OverlayState.Append(old(Snapshot()).doc, x))
        case None => old(Snapshot())
    {
      var t := tools;
      if t.mode == ArrowMode {
        AppendAction(Arrow(a, b, t.penColor, t.arrowHeadSize, t.penSize));
      } else if t.mode == LineMode {
        AppendAction(Line(a, b, t.penColor, 0.0, t.penSize));
      } else if t.mode == SquareMode {
        AppendAction(Rect(a, b, t.penColor, t.penSize, t.fillColor));
      } else if t.mode == CircleMode {
        AppendAction(Circle(a, b, t.penColor, t.penSize, t.fillColor));
      } else if t.mode == CensorMode {
        AppendAction(Censor(a, b, t.pixelationLevel, BackgroundRaster(v)));
      }
    }

    /** `export_to_pixbuf`: the surface the annotations are rendered onto, at
        the picture's intrinsic size, and the annotations in drawing order. */
    method ExportToPixbuf(v: View) returns (target: Option<Raster>, drawn: seq<Action>)
      requires Valid()
      ensures target == ExportTarget(v)
      ensures drawn == Listed(Snapshot().doc)
    {
      drawn := [];
      var i := 0;
      while i < |actions|
        invariant 0 <= i <= |actions|
        invariant drawn == Listed(Snapshot().doc)[..i]
      {
        drawn := drawn + [objects[actions[i]]];
        i := i + 1;
      }
      if !HasPaintable(v) {
        return None, drawn;
      }
      var p := v.picture.value.paintable.value;
      target := RenderTarget(p.width, p.height);
    }

    /** `clear_drawing`. */
    method ClearDrawing(v: View)
      requires Valid()
      modifies this
      ensures Valid()
      ensures Snapshot() == OverlayState.ClearDrawing(old(Snapshot()), v)
    {
      ghost var s0 := Snapshot();
      ClearDrawingLaws(s0, v);
      CloseTextEntry(v);
      actions := [];
      redoStack := [];
      selected := None;
    }

    /** `undo`. */
    method Undo()
      requires Valid()
      modifies this
      ensures Valid()
      ensures Snapshot() == old(Snapshot()).(doc := OverlayState.Undo(old(Snapshot()).doc))
    {
      ghost var s0 := Snapshot();
      UndoDocOk(s0.doc);
      if |actions| > 0 {
        redoStack := redoStack + [actions[|actions| - 1]];
        actions := actions[..|actions| - 1];
        selected := None;
      }
    }

    /** `redo`. */
    method Redo()
      requires Valid()
      modifies this
      ensures Valid()
      ensures Snapshot() == old(Snapshot()).(doc := OverlayState.Redo(old(Snapshot()).doc))
    {
      ghost var s0 := Snapshot();
      RedoDocOk(s0.doc);
      if |redoStack| > 0 {
        actions := actions + [redoStack[|redoStack| - 1]];
        redoStack := redoStack[..|redoStack| - 1];
        selected := None;
      }
    }

    /** `set_pen_color`; the alpha defaults to opaque. */
    method SetPenColor(r: real, g: real, b: real, a: real := 1.0)
      requires Valid()
      modifies this
      ensures Valid()
      ensures Snapshot() == old(Snapshot()).(tools := OverlayState.SetPenColor(old(Snapshot()).tools, Color(r, g, b, a)))
    {
      tools := tools.(penColor := Color(r, g, b, a));
    }

    /** `set_fill_color`; the alpha defaults to opaque. */
    method SetFillColor(r: real, g: real, b: real, a: real := 1.0)
      requires Valid()
      modifies this
      ensures Valid()
      ensures Snapshot() == old(Snapshot()).(tools := OverlayState.SetFillColor(old(Snapshot()).tools, Color(r, g, b, a)))
    {
      tools := tools.(fillColor := Some(Color(r, g, b, a)));
    }

    /** `set_pen_size`. */
    method SetPenSize(size: real)
      requires Valid()
      modifies this
      ensures Valid()
      ensures Snapshot() == old(Snapshot()).(tools := OverlayState.SetPenSize(old(Snapshot()).tools, size))
    {
      tools := tools.(penSize := MaxR(1.0, size));
    }

    /** `set_arrow_head_size`. */
    method SetArrowHeadSize(size: real)
      requires Valid()
      modifies this
      ensures Valid()
      ensures Snapshot() == old(Snapshot()).(tools := OverlayState.SetArrowHeadSize(old(Snapshot()).tools, size))
    {
      tools := tools.(arrowHeadSize := MaxR(5.0, size));
    }

    /** `set_font_size`. */
    method SetFontSize(size: real)
      requires Valid()
      modifies this
      ensures Valid()
      ensures Snapshot() == old(Snapshot()).(tools := OverlayState.SetFontSize(old(Snapshot()).tools, size))
    {
      tools := tools.(fontSize := MaxR(8.0, size));
    }

    /** `set_font_family`. */
    method SetFontFamily(family: string)
      requires Valid()
      modifies this
      ensures Valid()
      ensures Snapshot() == old(Snapshot()).(tools := OverlayState.SetFontFamily(old(Snapshot()).tools, family))
    {
      tools := tools.(fontFamily := if family == "" then "Sans" else family);
    }

    /** `set_highlighter_size`. */
    method SetHighlighterSize(size: real)
      requires Valid()
      modifies this
      ensures Valid()
      ensures Snapshot() == old(Snapshot()).(tools := OverlayState.SetHighlighterSize(old(Snapshot()).tools, size))
    {
      tools := tools.(highlighterSize := MaxR(1.0, size));
    }

    /** `set_pixelation_level`. */
    method SetPixelationLevel(level: real)
      requires Valid()
      modifies this
      ensures Valid()
      ensures Snapshot() == old(Snapshot()).(tools := OverlayState.SetPixelationLevel(old(Snapshot()).tools, level))
    {
      tools := tools.(pixelationLevel := Max(2, Trunc(level)));
    }
  }
}
