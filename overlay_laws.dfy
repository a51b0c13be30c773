/** What the overlay's handlers guarantee, stated over `OverlayState`:
    the history laws of undo and redo, topmost selection, the commit rules of
    a drag, the outcomes of closing a text session, the summed translation of
    a selection move, and the invariant `WellFormed` that every handler keeps. */
module OverlayLaws {
  import opened Wrappers
  import opened Numbers
  import opened Strings
  import opened Geometry
  import opened Annotations
  import opened Letterbox
  import opened OverlayState

  // ---------------------------------------------------------------------
  // Objects by identity

  /** `IndexOf` finds the first occurrence, and finds one whenever the
      identity is present. */
  lemma {:induction false} PositionOfFirst(ids: seq<nat>, id: nat)
    ensures PositionOf(ids, id).Some? ==> forall j :: 0 <= j < PositionOf(ids, id).value ==> ids[j] != id
    ensures PositionOf(ids, id).None? <==> id !in ids
  {
    if |ids| > 0 && ids[0] != id {
      PositionOfFirst(ids[1..], id);
      assert forall j :: 1 <= j < |ids| ==> ids[1..][j - 1] == ids[j];
      assert ids == [ids[0]] + ids[1..];
    }
  }

  /** Dropping one identity from an increasing list keeps it increasing and
      keeps exactly the other identities. */
  lemma DropOne(a: seq<nat>, k: nat, n: nat)
    requires k < |a| && Increasing(a) && Below(a, n)
    ensures var d := a[..k] + a[k + 1..];
      && Increasing(d) && Below(d, n)
      && forall x :: x in d <==> x in a && x != a[k]
  {
    var d := a[..k] + a[k + 1..];
    assert forall i :: 0 <= i < |d| ==> d[i] == if i < k then a[i] else a[i + 1];
    forall x | x in a && x != a[k]
      ensures x in d
    {
      var i :| 0 <= i < |a| && a[i] == x;
      if i < k { assert d[i] == x; } else { assert d[i - 1] == x; }
    }
  }

  /** Removing an identity from a list in creation order keeps the order and
      every other identity, and the removed one is gone. */
  lemma RemoveFirstLaws(ids: seq<nat>, id: nat, n: nat)
    requires Increasing(ids) && Below(ids, n)
    ensures var r := RemoveFirst(ids, id);
      && Increasing(r) && Below(r, n)
      && id !in r
      && (forall j :: j != id ==> (j in r <==> j in ids))
      && |r| == if id in ids then |ids| - 1 else |ids|
  {
    PositionOfFirst(ids, id);
    if PositionOf(ids, id).Some? {
      DropOne(ids, PositionOf(ids, id).value, n);
    }
  }

  /** Removing from a list keeps every remaining identity naming an object. */
  lemma RemoveFirstPresent(ids: seq<nat>, id: nat, objects: map<nat, Action>)
    requires Present(ids, objects)
    ensures Present(RemoveFirst(ids, id), objects)
  {
    if PositionOf(ids, id).Some? {
      var k := PositionOf(ids, id).value;
      var r := ids[..k] + ids[k + 1..];
      assert forall i :: 0 <= i < |r| ==> r[i] == if i < k then ids[i] else ids[i + 1];
    }
  }

  lemma ActionOfEdit(d: Doc, id: nat, a: Action)
    ensures ActionOf(Edit(d, id, a), id) == Some(a)
    ensures forall j :: j != id ==> ActionOf(Edit(d, id, a), j) == ActionOf(d, j)
  {
  }

  /** Mutating an existing object keeps the invariant: no identity moves. */
  lemma EditDocOk(d: Doc, id: nat, a: Action)
    requires DocOk(d) && id in d.objects
    ensures DocOk(Edit(d, id, a))
  {
  }

  lemma HistoryAppend(a: seq<nat>, r: seq<nat>, n: nat)
    requires History(a, r, n)
    ensures History(a + [n], [], n + 1)
  {
    var b := a + [n];
    assert forall i :: 0 <= i < |b| ==> b[i] == if i < |a| then a[i] else n;
  }

  /** A commit appends a fresh identity and empties the redo stack, so the
      history stays in creation order. */
  lemma CommitDocOk(d: Doc, a: Option<Action>)
    requires DocOk(d)
    ensures DocOk(Commit(d, a))
  {
    if a.Some? {
      HistoryAppend(d.actions, d.redoStack, d.nextId);
      var e := Commit(d, a);
      assert forall i :: 0 <= i < |e.actions| ==> e.actions[i] == if i < |d.actions| then d.actions[i] else d.nextId;
    }
  }

  /** A commit appends exactly the produced annotation, as a new object. */
  lemma CommitAppends(d: Doc, a: Action)
    requires Issued(d.objects, d.nextId)
    ensures var e := Commit(d, Some(a));
      && e.actions == d.actions + [d.nextId] && e.redoStack == [] && e.nextId == d.nextId + 1
      && ActionOf(e, d.nextId) == Some(a)
      && d.nextId !in d.objects
      && forall j :: j in d.objects ==> ActionOf(e, j) == ActionOf(d, j)
  {
  }

  // ---------------------------------------------------------------------
  // History

  /** `undo` then `redo` restores both lists exactly; only the selection is
      cleared. On an empty list `undo` changes nothing. */
  lemma UndoThenRedo(d: Doc)
    ensures |d.actions| > 0 ==> Redo(Undo(d)) == d.(selected := None)
    ensures |d.actions| == 0 ==> Undo(d) == d
  {
    if |d.actions| > 0 {
      var n := |d.actions|;
      assert d.actions[..n - 1] + [d.actions[n - 1]] == d.actions;
      assert (d.redoStack + [d.actions[n - 1]])[..|d.redoStack|] == d.redoStack;
    }
  }

  /** `redo` then `undo` restores both lists exactly; on an empty redo stack
      `redo` changes nothing. */
  lemma RedoThenUndo(d: Doc)
    ensures |d.redoStack| > 0 ==> Undo(Redo(d)) == d.(selected := None)
    ensures |d.redoStack| == 0 ==> Redo(d) == d
  {
    if |d.redoStack| > 0 {
      var n := |d.redoStack|;
      assert d.redoStack[..n - 1] + [d.redoStack[n - 1]] == d.redoStack;
      assert (d.actions + [d.redoStack[n - 1]])[..|d.actions|] == d.actions;
    }
  }

  /** `undo` moves the top annotation onto the redo stack. */
  lemma UndoTransfers(d: Doc)
    requires |d.actions| > 0
    ensures var t := Undo(d);
      && t.actions + [t.redoStack[|t.redoStack| - 1]] == d.actions
      && t.redoStack[..|d.redoStack|] == d.redoStack
      && |t.actions| + |t.redoStack| == |d.actions| + |d.redoStack|
      && t.selected.None? && t.nextId == d.nextId
  {
    var n := |d.actions|;
    assert d.actions[..n - 1] + [d.actions[n - 1]] == d.actions;
    assert (d.redoStack + [d.actions[n - 1]])[..|d.redoStack|] == d.redoStack;
  }

  lemma HistoryUndo(a: seq<nat>, r: seq<nat>, n: nat)
    requires History(a, r, n) && |a| > 0
    ensures History(a[..|a| - 1], r + [a[|a| - 1]], n)
  {
    var r2 := r + [a[|a| - 1]];
    assert forall i :: 0 <= i < |r2| ==> r2[i] == if i < |r| then r[i] else a[|a| - 1];
  }

  lemma HistoryRedo(a: seq<nat>, r: seq<nat>, n: nat)
    requires History(a, r, n) && |r| > 0
    ensures History(a + [r[|r| - 1]], r[..|r| - 1], n)
  {
    var a2 := a + [r[|r| - 1]];
    assert forall i :: 0 <= i < |a2| ==> a2[i] == if i < |a| then a[i] else r[|r| - 1];
  }

  lemma UndoDocOk(d: Doc)
    requires DocOk(d)
    ensures DocOk(Undo(d))
  {
    if |d.actions| > 0 {
      var n := |d.actions|;
      HistoryUndo(d.actions, d.redoStack, d.nextId);
      var r := d.redoStack + [d.actions[n - 1]];
      assert forall i :: 0 <= i < |r| ==> r[i] == if i < |d.redoStack| then d.redoStack[i] else d.actions[n - 1];
    }
  }

  lemma RedoDocOk(d: Doc)
    requires DocOk(d)
    ensures DocOk(Redo(d))
  {
    if |d.redoStack| > 0 {
      var m := |d.redoStack|;
      HistoryRedo(d.actions, d.redoStack, d.nextId);
      var r := d.actions + [d.redoStack[m - 1]];
      assert forall i :: 0 <= i < |r| ==> r[i] == if i < |d.actions| then d.actions[i] else d.redoStack[m - 1];
    }
  }

  /** `remove_selected_action` succeeds exactly when the selection is one of
      the annotations; it then removes that one annotation, clears the selection
      and the redo stack; otherwise nothing changes. */
  lemma RemoveSelectedLaws(d: Doc)
    requires DocOk(d)
    ensures var (ok, t) := RemoveSelected(d);
      && (ok <==> d.selected.Some? && d.selected.value in d.actions)
      && (ok ==> d.selected.value !in t.actions && |t.actions| == |d.actions| - 1
                 && (forall j :: j != d.selected.value ==> (j in t.actions <==> j in d.actions))
                 && t.selected.None? && t.redoStack == [] && t.objects == d.objects && DocOk(t))
      && (!ok ==> t == d)
  {
    if d.selected.Some? {
      RemoveFirstLaws(d.actions, d.selected.value, d.nextId);
      RemoveFirstPresent(d.actions, d.selected.value, d.objects);
    }
  }

  /** `clear_drawing` closes the text session and empties both lists. */
  lemma ClearDrawingLaws(s: State, v: View)
    requires WellFormed(s)
    ensures var t := ClearDrawing(s, v);
      && t.doc.actions == [] && t.doc.redoStack == [] && t.doc.selected.None?
      && !t.session.popupOpen && t.session.editingId.None? && !t.session.isTextEditing
      && WellFormed(t)
  {
    CloseTextEntryWellFormed(s, v);
  }

  // ---------------------------------------------------------------------
  // Selection

  /** The position `FindIndex` reports is exactly the last annotation hit. */
  lemma FindIndexIff(d: Doc, p: Point, m: Measure, i: int)
    requires 0 <= i < |d.actions|
    ensures FindIndex(d, |d.actions|, p, m) == Some(i)
        <==> Hits(d, d.actions[i], p, m) && forall j :: i < j < |d.actions| ==> !Hits(d, d.actions[j], p, m)
  {
  }

  /** A single click in select mode inside the image selects the topmost
      annotation under the pointer, or nothing; the intermediate deselection
      does not matter. */
  lemma ClickSelectsTopmost(s: State, v: View, p: Point, m: Measure)
    requires s.tools.mode == SelectMode && InImage(ImageBounds(v), p)
    ensures Click(s, v, 1, p, m).doc.selected == FindAt(s.doc, ToImage(ImageBounds(v), p), m)
    ensures Click(s, v, 1, p, m).doc.actions == s.doc.actions
  {
  }

  // ---------------------------------------------------------------------
  // Modes

  /** `set_drawing_mode` resets the gesture fields and clears the selection
      unless the new mode is select; without an open text session a switch to
      select keeps the selection. */
  lemma SetDrawingModeResets(s: State, v: View, mode: DrawingMode)
    ensures var t := SetDrawingMode(s, v, mode);
      && t.tools.mode == mode && !t.gesture.isDrawing && !t.gesture.isMovingSelection
      && t.gesture.currentStroke == [] && t.gesture.startPoint.None? && t.gesture.endPoint.None?
      && !t.session.popupOpen
      && (mode != SelectMode ==> t.doc.selected.None?)
      && (mode == SelectMode && !s.session.popupOpen ==> t.doc == s.doc)
  {
  }

  // ---------------------------------------------------------------------
  // Drag end: what gets committed

  /** A drawing drag appends at most one annotation, keeps the older ones
      and always empties the redo stack, even when nothing is committed. */
  lemma DragEndAppendsAtMostOne(s: State, v: View)
    requires s.tools.mode != TextMode && s.tools.mode != SelectMode && s.gesture.isDrawing
    ensures var t := DragEnd(s, v);
      && s.doc.actions <= t.doc.actions && |t.doc.actions| <= |s.doc.actions| + 1
      && t.doc.redoStack == [] && !t.gesture.isDrawing
      && t.gesture.startPoint.None? && t.gesture.endPoint.None?
  {
  }

  /** A pen or highlighter drag is committed exactly when it has more than
      one point; a highlighter uses the pen colour at alpha 0.3. */
  lemma FreehandCommit(s: State, v: View)
    requires Freehand(s.tools.mode) && s.gesture.isDrawing
    ensures var t := DragEnd(s, v);
      var stroke := s.gesture.currentStroke;
      && (|t.doc.actions| == |s.doc.actions| + 1 <==> |stroke| > 1)
      && (|stroke| > 1 ==>
            var a := t.doc.objects[s.doc.nextId];
            && t.doc.actions == s.doc.actions + [s.doc.nextId]
            && a.points == stroke
            && (s.tools.mode == PenMode ==> a == Stroke(stroke, s.tools.penColor, s.tools.penSize))
            && (s.tools.mode == HighlighterMode ==>
                  a.Highlighter? && a.penSize == s.tools.highlighterSize
                  && a.color == Color(s.tools.penColor.r, s.tools.penColor.g, s.tools.penColor.b, 0.3))
            && t.gesture.currentStroke == [])
      && (|stroke| <= 1 ==> t.doc.actions == s.doc.actions && t.gesture.currentStroke == stroke)
  {
  }

  /** Arrows and lines are committed whatever their length, even from a
      drag that never moved. */
  lemma ZeroLengthArrowCommitted(s: State, v: View, p: Point)
    requires s.tools.mode == ArrowMode && s.gesture.isDrawing
    requires s.gesture.startPoint == Some(p) && s.gesture.endPoint == Some(p)
    ensures DragEnd(s, v).doc.actions == s.doc.actions + [s.doc.nextId]
    ensures ActionOf(DragEnd(s, v).doc, s.doc.nextId)
         == Some(Arrow(p, p, s.tools.penColor, s.tools.arrowHeadSize, s.tools.penSize))
  {
  }

  /** A drag in number mode commits nothing but still empties the redo stack. */
  lemma NumberModeCommitsNothing(s: State, v: View)
    requires s.tools.mode == NumberMode && s.gesture.isDrawing
    ensures DragEnd(s, v).doc == s.doc.(redoStack := [])
  {
  }

  // ---------------------------------------------------------------------
  // Selection moves

  /** A run of drag updates of a selection move, at image points `pts`. */
  function MoveAlong(s: State, pts: seq<Point>): (r: State)
    requires s.doc.selected.Some? && s.gesture.moveStartPoint.Some?
    ensures r.doc.selected == s.doc.selected && r.gesture.moveStartPoint.Some?
    decreases |pts|
  {
    if |pts| == 0 then s else MoveAlong(MoveTo(s, pts[0]), pts[1..])
  }

  /** Each update translates by the offset from the previous anchor, so the
      moved annotation ends up translated by the whole pointer displacement,
      the anchor is the last pointer position, and the lists are untouched. */
  lemma {:induction false} MoveSumsDisplacement(s: State, pts: seq<Point>)
    requires s.doc.selected.Some? && s.gesture.moveStartPoint.Some? && |pts| > 0
    requires ActionOf(s.doc, s.doc.selected.value).Some?
    decreases |pts|
    ensures var id := s.doc.selected.value;
      var a := ActionOf(s.doc, id).value;
      var m0 := s.gesture.moveStartPoint.value;
      var last := pts[|pts| - 1];
      var t := MoveAlong(s, pts);
      && t.doc == Edit(s.doc, id, Translate(a, last.x - m0.x, last.y - m0.y))
      && t.gesture.moveStartPoint == Some(last)
  {
    var id := s.doc.selected.value;
    var a := ActionOf(s.doc, id).value;
    var m0 := s.gesture.moveStartPoint.value;
    var p0 := pts[0];
    var s1 := MoveTo(s, p0);
    var a1 := Translate(a, p0.x - m0.x, p0.y - m0.y);
    assert s1.doc == Edit(s.doc, id, a1);
    assert MoveAlong(s, pts) == MoveAlong(s1, pts[1..]);
    if |pts| > 1 {
      MoveSumsDisplacement(s1, pts[1..]);
      var last := pts[|pts| - 1];
      assert pts[1..][|pts[1..]| - 1] == last;
      TranslateCompose(a, p0.x - m0.x, p0.y - m0.y, last.x - p0.x, last.y - p0.y);
      assert (p0.x - m0.x) + (last.x - p0.x) == last.x - m0.x;
      assert (p0.y - m0.y) + (last.y - p0.y) == last.y - m0.y;
    } else {
      assert MoveAlong(s1, pts[1..]) == s1;
    }
  }

  // ---------------------------------------------------------------------
  // Text sessions

  /** What committing an edit does to the lists, for an identity that is
      one of the annotations. */
  lemma CommitEditLaws(d: Doc, id: nat, text: string)
    requires DocOk(d) && id in d.actions
    ensures ActionOf(d, id).Some?
    ensures var e := CommitEdit(d, id, text);
      && e.redoStack == []
      && (text != "" ==> e.actions == d.actions && e.objects == d.objects[id := WithText(d.objects[id], text)])
      && (text == "" ==> id !in e.actions && e.selected != Some(id) && |e.actions| == |d.actions| - 1
                         && (forall j :: j != id ==> (j in e.actions <==> j in d.actions)))
  {
    if text == "" {
      RemoveFirstLaws(d.actions, id, d.nextId);
    }
  }

  /** Closing an open session that edits a text commits the edit and ends the session. */
  lemma CloseEditedShape(s: State, v: View)
    requires s.session.popupOpen && s.session.textPosition.Some? && s.session.editingId.Some?
    ensures CloseTextEntry(s, v)
         == s.(doc := CommitEdit(s.doc, s.session.editingId.value, Strip(s.session.entryText)),
               session := Cleanup(s.session))
  {
  }

  /** Closing a session that edits an existing text annotation: a stripped
      non-empty entry becomes its text, an empty one deletes it and drops it
      from the selection; the redo stack is emptied either way. */
  lemma CloseEditedText(s: State, v: View)
    requires WellFormed(s) && s.session.popupOpen && s.session.textPosition.Some? && s.session.editingId.Some?
    requires s.session.editingId.value in s.doc.actions
    ensures var id := s.session.editingId.value;
      var t := CloseTextEntry(s, v);
      var text := Strip(s.session.entryText);
      && id in s.doc.objects
      && t.doc.redoStack == [] && t.session == Cleanup(s.session)
      && (text != "" ==> ActionOf(t.doc, id) == Some(WithText(s.doc.objects[id], text))
                         && t.doc.actions == s.doc.actions)
      && (text == "" ==> id !in t.doc.actions && t.doc.selected != Some(id)
                         && |t.doc.actions| == |s.doc.actions| - 1)
  {
    CloseEditedShape(s, v);
    CommitEditLaws(s.doc, s.session.editingId.value, Strip(s.session.entryText));
  }

  /** Closing a session for a new text: an empty entry commits nothing and
      keeps the redo stack; a non-empty one appends a text annotation with the
      stripped text and the picture's intrinsic size, and empties the redo
      stack; without a paintable the handler raises and nothing is committed. */
  lemma CloseNewText(s: State, v: View)
    requires s.session.popupOpen && s.session.textPosition.Some? && s.session.editingId.None?
    ensures var t := CloseTextEntry(s, v);
      var text := Strip(s.session.entryText);
      && t.session == Cleanup(s.session)
      && (text == "" || !HasPaintable(v) ==> t.doc == s.doc)
      && (text != "" && HasPaintable(v) ==>
            var p := v.picture.value.paintable.value;
            && t.doc.actions == s.doc.actions + [s.doc.nextId]
            && ActionOf(t.doc, s.doc.nextId)
               == Some(Text(s.session.textPosition.value, text, s.tools.penColor, s.tools.fontSize,
                            Raster(p.width, p.height), s.tools.fontFamily))
            && t.doc.redoStack == [] && t.doc.nextId == s.doc.nextId + 1)
  {
  }

  /** When the popover closes by itself and the handler raises, the session
      stays open: no field was changed before the exception. */
  lemma PopoverClosedRaises(s: State, v: View)
    requires s.session.popupOpen && s.session.textPosition.Some? && s.session.editingId.None?
    requires Strip(s.session.entryText) != "" && !HasPaintable(v)
    ensures PopoverClosed(s, v) == s
  {
  }

  // ---------------------------------------------------------------------
  // The invariant

  lemma InitialWellFormed()
    ensures WellFormed(Initial())
  {
  }

  /** Removing the edited text keeps the history and drops it from the selection. */
  lemma RemoveTextDocOk(d: Doc, id: nat)
    requires DocOk(d)
    ensures DocOk(d.(actions := RemoveFirst(d.actions, id), selected := if d.selected == Some(id) then None else d.selected,
                     redoStack := []))
  {
    RemoveFirstLaws(d.actions, id, d.nextId);
    RemoveFirstPresent(d.actions, id, d.objects);
  }

  lemma CommitEditDocOk(d: Doc, id: nat, text: string)
    requires DocOk(d)
    ensures DocOk(CommitEdit(d, id, text))
  {
    if text == "" {
      RemoveTextDocOk(d, id);
    }
  }

  lemma CommitTextWellFormed(s: State, v: View)
    requires WellFormed(s)
    ensures CommitText(s, v).Some? ==> WellFormed(CommitText(s, v).value)
  {
    if s.session.popupOpen && s.session.textPosition.Some? {
      var text := Strip(s.session.entryText);
      match s.session.editingId
      case Some(id) => CommitEditDocOk(s.doc, id, text);
      case None =>
        if text != "" && HasPaintable(v) {
          var r := ModifiedImageBounds(v).value;
          CommitDocOk(s.doc, Some(Text(s.session.textPosition.value, text, s.tools.penColor, s.tools.fontSize, r,
                                       s.tools.fontFamily)));
        }
    }
  }

  lemma CloseTextEntryWellFormed(s: State, v: View)
    requires WellFormed(s)
    ensures WellFormed(PopoverClosed(s, v)) && WellFormed(CloseTextEntry(s, v))
  {
    CommitTextWellFormed(s, v);
  }

  lemma ShowTextEntryWellFormed(s: State, v: View, p: Point)
    requires WellFormed(s)
    ensures WellFormed(ShowTextEntry(s, v, p))
  {
    CloseTextEntryWellFormed(s, v);
  }

  lemma TextChangedWellFormed(s: State, text: string)
    requires WellFormed(s)
    ensures WellFormed(TextChanged(s, text))
  {
  }

  lemma FontSizeChangedWellFormed(s: State, value: real)
    requires WellFormed(s)
    ensures WellFormed(FontSizeChanged(s, value))
  {
  }

  lemma SetDrawingModeWellFormed(s: State, v: View, mode: DrawingMode)
    requires WellFormed(s)
    ensures WellFormed(SetDrawingMode(s, v, mode))
  {
    CloseTextEntryWellFormed(s, v);
  }

  lemma FindAtInActions(d: Doc, p: Point, m: Measure)
    ensures FindAt(d, p, m).Some? ==> FindAt(d, p, m).value in d.actions
  {
  }

  lemma DragBeginWellFormed(s: State, v: View, p: Point, m: Measure)
    requires WellFormed(s)
    ensures WellFormed(DragBegin(s, v, p, m))
  {
    FindAtInActions(s.doc, ToImage(ImageBounds(v), p), m);
  }

  lemma MoveToWellFormed(s: State, rel: Point)
    requires WellFormed(s) && s.doc.selected.Some? && s.gesture.moveStartPoint.Some?
    ensures WellFormed(MoveTo(s, rel))
  {
  }

  lemma DragUpdateWellFormed(s: State, v: View, start: Point, dx: real, dy: real)
    requires WellFormed(s)
    ensures WellFormed(DragUpdate(s, v, start, dx, dy))
  {
    if s.tools.mode != TextMode && Moving(s) {
      MoveToWellFormed(s, ToImage(ImageBounds(v), Point(start.x + dx, start.y + dy)));
    }
  }

  lemma DragEndWellFormed(s: State, v: View)
    requires WellFormed(s)
    ensures WellFormed(DragEnd(s, v))
  {
    CommitDocOk(s.doc, Drawn(s, v));
  }

  lemma ClickWellFormed(s: State, v: View, n: int, p: Point, m: Measure)
    requires WellFormed(s)
    ensures WellFormed(Click(s, v, n, p, m))
  {
    var f := ImageBounds(v);
    if s.tools.mode == TextMode && InImage(f, p) {
      ShowTextEntryWellFormed(s, v, p);
    } else if s.tools.mode == SelectMode && InImage(f, p) {
      ClickSelectionOk(s, ToImage(f, p), m);
    }
  }

  /** A single click selects one of the annotations or nothing. */
  lemma ClickSelectionOk(s: State, rel: Point, m: Measure)
    requires DocOk(s.doc)
    ensures ClickSelection(s, rel, m).Some? ==> ClickSelection(s, rel, m).value in s.doc.actions
  {
    FindAtInActions(s.doc, rel, m);
  }

  /** The setters keep their lower bounds. */
  lemma SettersToolsOk(t: Tools, size: real, level: real, family: string, c: Color)
    requires ToolsOk(t)
    ensures ToolsOk(SetPenSize(t, size)) && ToolsOk(SetArrowHeadSize(t, size))
    ensures ToolsOk(SetFontSize(t, size)) && ToolsOk(SetHighlighterSize(t, size))
    ensures ToolsOk(SetPixelationLevel(t, level)) && ToolsOk(SetFontFamily(t, family))
    ensures ToolsOk(SetPenColor(t, c)) && ToolsOk(SetFillColor(t, c))
    ensures SetPixelationLevel(t, level).pixelationLevel >= 2 && SetFontFamily(t, family).fontFamily != ""
    ensures SetFontSize(t, size).fontSize >= 8.0
  {
  }
}
