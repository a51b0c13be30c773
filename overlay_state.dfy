/** The state machine behind `DrawingOverlay` (gradia/overlay/drawing_overlay.py):
    the annotation list and redo stack, the selection, the gesture fields and
    the text-entry session, with one function per handler describing the state
    it leaves behind. Annotations are Python objects compared by identity; here
    each carries a numeric id, handed out in creation order. */
module OverlayState {
  import opened Wrappers
  import opened Numbers
  import opened Strings
  import opened Geometry
  import opened Annotations
  import opened Letterbox

  datatype DrawingMode =
    | PenMode | ArrowMode | LineMode | SquareMode | CircleMode
    | TextMode | SelectMode | HighlighterMode | CensorMode | NumberMode

  const DefaultPenSize: real := 3.0
  const DefaultArrowHeadSize: real := 25.0
  const DefaultFontSize: real := 22.0
  const DefaultFontFamily: string := "Caveat"
  const DefaultPenColor: Color := Color(1.0, 1.0, 1.0, 0.8)
  const DefaultHighlighterSize: real := 12.0
  const DefaultPixelationLevel: int := 8

  /** The alpha of a highlighter stroke. */
  const HighlighterAlpha: real := 0.3

  /** The drawing tools and their settings. */
  datatype Tools = Tools(
    mode: DrawingMode,
    penSize: real,
    arrowHeadSize: real,
    fontSize: real,
    fontFamily: string,
    penColor: Color,
    highlighterSize: real,
    pixelationLevel: int,
    fillColor: Option<Color>)

  /** The annotation list and the redo stack (its top is the last element)
      as lists of object identities, the annotation objects by identity, the
      selected object, and the next identity a new object receives. Python
      lists hold references, so mutating an object is seen from both lists. */
  datatype Doc = Doc(
    actions: seq<nat>,
    redoStack: seq<nat>,
    objects: map<nat, Action>,
    selected: Option<nat>,
    nextId: nat)

  /** The fields of a drag in progress. */
  datatype Gesture = Gesture(
    isDrawing: bool,
    currentStroke: seq<Point>,
    startPoint: Option<Point>,
    endPoint: Option<Point>,
    isMovingSelection: bool,
    moveStartPoint: Option<Point>)

  /** The text-entry session. `popupOpen` stands for `text_entry_popup is not
      None` and `entryText` for the text currently in that popover's entry. */
  datatype Session = Session(
    popupOpen: bool,
    entryText: string,
    textPosition: Option<Point>,
    isTextEditing: bool,
    liveText: Option<string>,
    editingId: Option<nat>)

  /** The overlay's fields, grouped. */
  datatype State = State(tools: Tools, doc: Doc, gesture: Gesture, session: Session)

  /** The fields as `__init__` sets them. */
  function Initial(): State {
    State(Tools(PenMode, DefaultPenSize, DefaultArrowHeadSize, DefaultFontSize, DefaultFontFamily,
                DefaultPenColor, DefaultHighlighterSize, DefaultPixelationLevel, None),
          Doc([], [], map[], None, 0),
          Gesture(false, [], None, None, false, None),
          Session(false, "", None, false, None, None))
  }

  // ---------------------------------------------------------------------
  // Objects by identity

  /** The first position of `id` in a list of identities. */
  function PositionOf(ids: seq<nat>, id: nat): (r: Option<nat>)
    ensures r.Some? ==> r.value < |ids| && ids[r.value] == id
  {
    if |ids| == 0 then None
    else if ids[0] == id then Some(0)
    else
      match PositionOf(ids[1..], id)
      case Some(k) => Some(k + 1)
      case None => None
  }

  /** `list.remove(obj)`: drops the first occurrence, if any. */
  function RemoveFirst(ids: seq<nat>, id: nat): seq<nat> {
    match PositionOf(ids, id)
    case None => ids
    case Some(k) => ids[..k] + ids[k + 1..]
  }

  /** The object with identity `id`. */
  function ActionOf(d: Doc, id: nat): Option<Action> {
    if id in d.objects then Some(d.objects[id]) else None
  }

  /** Mutating the object with identity `id` into `a`. */
  function Edit(d: Doc, id: nat, a: Action): Doc {
    d.(objects := d.objects[id := a])
  }

  /** `self.actions.append(action)` of a newly created object. */
  function Append(d: Doc, a: Action): Doc {
    d.(actions := d.actions + [d.nextId], objects := d.objects[d.nextId := a], nextId := d.nextId + 1)
  }

  /** Appending the annotation a gesture produced, if any, and clearing the
      redo stack, as every commit does. */
  function Commit(d: Doc, a: Option<Action>): Doc {
    match a
    case Some(x) => Append(d, x).(redoStack := [])
    case None => d.(redoStack := [])
  }

  /** The annotation objects in list order, as drawn and exported. */
  function Listed(d: Doc): seq<Action>
    requires forall i :: 0 <= i < |d.actions| ==> d.actions[i] in d.objects
  {
    seq(|d.actions|, i requires 0 <= i < |d.actions| => d.objects[d.actions[i]])
  }

  function WithText(a: Action, t: string): Action {
    if a.Text? then a.(text := t) else a
  }

  function WithFontSize(a: Action, f: real): Action {
    if a.Text? then a.(fontSize := f) else a
  }

  // ---------------------------------------------------------------------
  // The invariant the handlers keep

  predicate Increasing(ids: seq<nat>) {
    forall i, j :: 0 <= i < j < |ids| ==> ids[i] < ids[j]
  }

  predicate Decreasing(ids: seq<nat>) {
    forall i, j :: 0 <= i < j < |ids| ==> ids[i] > ids[j]
  }

  predicate Below(ids: seq<nat>, n: nat) {
    forall i :: 0 <= i < |ids| ==> ids[i] < n
  }

  /** The annotation identities `a`, in creation order, followed by the redo
      stack `r` read from its top down, form one increasing history of
      identities handed out before `n`. */
  predicate History(a: seq<nat>, r: seq<nat>, n: nat) {
    && Increasing(a) && Decreasing(r) && Below(a, n) && Below(r, n)
    && (|a| > 0 && |r| > 0 ==> a[|a| - 1] < r[|r| - 1])
  }

  /** Every listed identity names an object. */
  predicate Present(ids: seq<nat>, objects: map<nat, Action>) {
    forall i :: 0 <= i < |ids| ==> ids[i] in objects
  }

  /** Every object was given an identity before `n`. */
  predicate Issued(objects: map<nat, Action>, n: nat) {
    forall k :: k in objects ==> k < n
  }

  /** The history above, listed identities that name objects, and a
      selection that is one of the annotations. */
  predicate DocOk(d: Doc) {
    && History(d.actions, d.redoStack, d.nextId)
    && Present(d.actions, d.objects) && Present(d.redoStack, d.objects) && Issued(d.objects, d.nextId)
    && (d.selected.Some? ==> d.selected.value in d.actions)
  }

  /** The setters' lower bounds. */
  predicate ToolsOk(t: Tools) {
    t.penSize >= 1.0 && t.arrowHeadSize >= 5.0 && t.highlighterSize >= 1.0 && t.pixelationLevel >= 2
  }

  /** The invariant every handler keeps. */
  predicate WellFormed(s: State) {
    DocOk(s.doc) && ToolsOk(s.tools)
  }

  // ---------------------------------------------------------------------
  // Hit testing

  /** Whether the object with identity `id` is hit at image point `p`. */
  predicate Hits(d: Doc, id: nat, p: Point, m: Measure) {
    id in d.objects && Annotations.Contains(d.objects[id], p, m)
  }

  /** `_find_action_at_point`, as a position in the list of the first `n`
      annotations: the last (topmost) one whose `contains_point` holds. */
  function FindIndex(d: Doc, n: nat, p: Point, m: Measure): (r: Option<nat>)
    requires n <= |d.actions|
    ensures r.Some? ==> (r.value < n && Hits(d, d.actions[r.value], p, m)
                         && forall j :: r.value < j < n ==> !Hits(d, d.actions[j], p, m))
    ensures r.None? ==> forall j :: 0 <= j < n ==> !Hits(d, d.actions[j], p, m)
  {
    if n == 0 then None
    else if Hits(d, d.actions[n - 1], p, m) then Some(n - 1)
    else FindIndex(d, n - 1, p, m)
  }

  /** `_find_action_at_point`: the identity of the topmost hit. */
  function FindAt(d: Doc, p: Point, m: Measure): Option<nat> {
    match FindIndex(d, |d.actions|, p, m)
    case Some(i) => Some(d.actions[i])
    case None => None
  }

  /** `max(pen_size, arrow_head_size, font_size / 2) / 200`. */
  function SelectionPadding(t: Tools): real {
    MaxR(MaxR(t.penSize, t.arrowHeadSize), t.fontSize / 2.0) / 200.0
  }

  /** `_is_point_in_selection_bounds`: inside the selected annotation's
      bounds widened by the selection padding. */
  predicate InSelectionBounds(s: State, p: Point, m: Measure) {
    match s.doc.selected
    case None => false
    case Some(id) =>
      match ActionOf(s.doc, id)
      case None => false
      case Some(a) => InBox(Pad(Bounds(a, m), SelectionPadding(s.tools)), p)
  }

  // ---------------------------------------------------------------------
  // History

  /** `undo`. */
  function Undo(d: Doc): Doc {
    if |d.actions| == 0 then d
    else d.(redoStack := d.redoStack + [d.actions[|d.actions| - 1]],
            actions := d.actions[..|d.actions| - 1],
            selected := None)
  }

  /** `redo`. */
  function Redo(d: Doc): Doc {
    if |d.redoStack| == 0 then d
    else d.(actions := d.actions + [d.redoStack[|d.redoStack| - 1]],
             redoStack := d.redoStack[..|d.redoStack| - 1],
             selected := None)
  }

  /** `remove_selected_action`: whether something was removed, and the new list state. */
  function RemoveSelected(d: Doc): (bool, Doc) {
    if d.selected.Some? && d.selected.value in d.actions then
      (true, d.(actions := RemoveFirst(d.actions, d.selected.value), selected := None, redoStack := []))
    else (false, d)
  }

  // ---------------------------------------------------------------------
  // The text-entry session

  /** `_cleanup_text_entry`, and the field resets at the end of `_close_text_entry`. */
  function Cleanup(t: Session): Session {
    t.(popupOpen := false, textPosition := None, liveText := None, isTextEditing := false, editingId := None)
  }

  /** Committing the session that edits the text with identity `id`: a
      non-empty stripped text replaces the old one, an empty one removes the
      annotation; the redo stack is cleared either way. */
  function CommitEdit(d: Doc, id: nat, text: string): Doc {
    var e :=
      if text != "" then
        match ActionOf(d, id)
        case Some(a) => Edit(d, id, WithText(a, text))
        case None => d
      else
        d.(actions := RemoveFirst(d.actions, id), selected := if d.selected == Some(id) then None else d.selected);
    e.(redoStack := [])
  }

  /** `_on_text_entry_popover_closed`; `None` when it raises before changing
      anything (a new text with no picture or paintable to take the image size
      from). */
  function CommitText(s: State, v: View): Option<State> {
    var done := Cleanup(s.session);
    if !(s.session.popupOpen && s.session.textPosition.Some?) then Some(s.(session := done))
    else
      var text := Strip(s.session.entryText);
      match s.session.editingId
      case Some(id) => Some(s.(doc := CommitEdit(s.doc, id, text), session := done))
      case None =>
        if text == "" then Some(s.(session := done))
        else
          match ModifiedImageBounds(v)
          case Err(_) => None
          case Ok(r) =>
            var a := Text(s.session.textPosition.value, text, s.tools.penColor, s.tools.fontSize, r,
                          s.tools.fontFamily);
            Some(s.(doc := Commit(s.doc, Some(a)), session := done))
  }

  /** The popover's `closed` signal: an exception in the handler leaves the
      state as it was. */
  function PopoverClosed(s: State, v: View): State {
    match CommitText(s, v)
    case Some(t) => t
    case None => s
  }

  /** `_close_text_entry` (also the entry's `activate`): `popdown()` emits
      `closed` synchronously, then the session fields are reset. */
  function CloseTextEntry(s: State, v: View): State {
    var t := if s.session.popupOpen then PopoverClosed(s, v) else s;
    t.(session := Cleanup(t.session))
  }

  /** `_show_text_entry` at widget point `p`. */
  function ShowTextEntry(s: State, v: View, p: Point): State {
    var t := if s.session.popupOpen then PopoverClosed(s, v) else s;
    t.(session := Session(true, "", Some(ToImage(ImageBounds(v), p)), true, Some(""), None))
  }

  /** `_start_text_edit` of the text annotation `a` with identity `id`. */
  function StartTextEdit(s: State, id: nat, a: Action): State
    requires a.Text?
  {
    s.(session := s.session.(editingId := Some(id), textPosition := Some(a.position), isTextEditing := true,
                             liveText := Some(a.text), popupOpen := true, entryText := a.text))
  }

  /** `_on_text_entry_changed`: the live text follows the entry, and so does
      the text of the annotation being edited. */
  function TextChanged(s: State, text: string): State {
    var t := s.(session := s.session.(entryText := text, liveText := Some(text)));
    match s.session.editingId
    case None => t
    case Some(id) =>
      match ActionOf(s.doc, id)
      case Some(a) => t.(doc := Edit(s.doc, id, WithText(a, text)))
      case None => t
  }

  /** `_on_font_size_changed` with the spin button's value. */
  function FontSizeChanged(s: State, value: real): State {
    match s.session.editingId
    case None => s.(tools := s.tools.(fontSize := value))
    case Some(id) =>
      match ActionOf(s.doc, id)
      case Some(a) => s.(doc := Edit(s.doc, id, WithFontSize(a, value)))
      case None => s
  }

  // ---------------------------------------------------------------------
  // Modes and gestures

  /** `set_drawing_mode`. */
  function SetDrawingMode(s: State, v: View, mode: DrawingMode): State {
    var t := if s.session.popupOpen then CloseTextEntry(s, v) else s;
    var d := if mode != SelectMode then t.doc.(selected := None) else t.doc;
    t.(tools := t.tools.(mode := mode), doc := d,
       gesture := t.gesture.(isDrawing := false, isMovingSelection := false, currentStroke := [],
                             startPoint := None, endPoint := None))
  }

  predicate Freehand(mode: DrawingMode) { mode == PenMode || mode == HighlighterMode }

  /** `_on_drag_begin` at widget point `p`. */
  function DragBegin(s: State, v: View, p: Point, m: Measure): State {
    var f := ImageBounds(v);
    if s.tools.mode == TextMode || s.session.popupOpen || !InImage(f, p) then s
    else
      var rel := ToImage(f, p);
      var g := s.gesture;
      if s.tools.mode == SelectMode then
        if s.doc.selected.Some? && InSelectionBounds(s, rel, m) then
          s.(gesture := g.(isMovingSelection := true, moveStartPoint := Some(rel)))
        else
          var hit := FindAt(s.doc, rel, m);
          if hit.Some? then
            s.(doc := s.doc.(selected := hit), gesture := g.(isMovingSelection := true, moveStartPoint := Some(rel)))
          else s.(doc := s.doc.(selected := None))
      else if Freehand(s.tools.mode) then s.(gesture := g.(isDrawing := true, currentStroke := [rel]))
      else s.(gesture := g.(isDrawing := true, startPoint := Some(rel), endPoint := Some(rel)))
  }

  /** Translating the object with identity `id`, if it is still around. */
  function Moved(d: Doc, id: nat, dx: real, dy: real): Doc {
    match ActionOf(d, id)
    case Some(a) => Edit(d, id, Translate(a, dx, dy))
    case None => d
  }

  /** One step of a selection move to image point `rel`: translate by the
      offset from the previous anchor, then make `rel` the anchor. */
  function MoveTo(s: State, rel: Point): State
    requires s.doc.selected.Some? && s.gesture.moveStartPoint.Some?
  {
    var anchor := s.gesture.moveStartPoint.value;
    s.(doc := Moved(s.doc, s.doc.selected.value, rel.x - anchor.x, rel.y - anchor.y),
       gesture := s.gesture.(moveStartPoint := Some(rel)))
  }

  predicate Moving(s: State) {
    && s.tools.mode == SelectMode && s.gesture.isMovingSelection
    && s.doc.selected.Some? && s.gesture.moveStartPoint.Some?
  }

  /** `_on_drag_update` for a gesture that started at widget point `start`
      and is now offset by `(dx, dy)`. */
  function DragUpdate(s: State, v: View, start: Point, dx: real, dy: real): State {
    if s.tools.mode == TextMode then s
    else
      var rel := ToImage(ImageBounds(v), Point(start.x + dx, start.y + dy));
      if Moving(s) then MoveTo(s, rel)
      else if !s.gesture.isDrawing then s
      else if Freehand(s.tools.mode) then s.(gesture := s.gesture.(currentStroke := s.gesture.currentStroke + [rel]))
      else s.(gesture := s.gesture.(endPoint := Some(rel)))
  }

  /** The freehand annotation a pen or highlighter drag produces. */
  function StrokeOf(t: Tools, points: seq<Point>): Action {
    if t.mode == PenMode then Stroke(points, t.penColor, t.penSize)
    else Highlighter(points, Color(t.penColor.r, t.penColor.g, t.penColor.b, HighlighterAlpha), t.highlighterSize)
  }

  /** The annotation a two-point drag produces in the current mode, if any. */
  function ShapeOf(t: Tools, v: View, a: Point, b: Point): Option<Action> {
    match t.mode
    case ArrowMode => Some(Arrow(a, b, t.penColor, t.arrowHeadSize, t.penSize))
    case LineMode => Some(Line(a, b, t.penColor, 0.0, t.penSize))
    case SquareMode => Some(Rect(a, b, t.penColor, t.penSize, t.fillColor))
    case CircleMode => Some(Circle(a, b, t.penColor, t.penSize, t.fillColor))
    case CensorMode => Some(Censor(a, b, t.pixelationLevel, BackgroundRaster(v)))
    case _ => None
  }

  /** Whether a finished drawing drag is a freehand stroke worth keeping. */
  predicate StrokeKept(s: State) {
    Freehand(s.tools.mode) && |s.gesture.currentStroke| > 1
  }

  /** The annotation a finished drawing drag produces, if any. */
  function Drawn(s: State, v: View): Option<Action> {
    var g := s.gesture;
    if StrokeKept(s) then Some(StrokeOf(s.tools, g.currentStroke))
    else if g.startPoint.Some? && g.endPoint.Some? then ShapeOf(s.tools, v, g.startPoint.value, g.endPoint.value)
    else None
  }

  /** `_on_drag_end`. */
  function DragEnd(s: State, v: View): State {
    var g := s.gesture;
    if s.tools.mode == TextMode then s
    else if s.tools.mode == SelectMode then s.(gesture := g.(isMovingSelection := false, moveStartPoint := None))
    else if !g.isDrawing then s
    else
      s.(doc := Commit(s.doc, Drawn(s, v)),
         gesture := g.(isDrawing := false, currentStroke := if StrokeKept(s) then [] else g.currentStroke,
                       startPoint := None, endPoint := None))
  }

  /** The double-click test of `_on_click`: the selection is a text annotation
      under image point `rel`. */
  predicate ReEditable(s: State, rel: Point, m: Measure) {
    && s.doc.selected.Some? && ActionOf(s.doc, s.doc.selected.value).Some?
    && ActionOf(s.doc, s.doc.selected.value).value.Text?
    && Annotations.Contains(ActionOf(s.doc, s.doc.selected.value).value, rel, m)
  }

  /** The selection a single click in select mode leaves, given the one before. */
  function ClickSelection(s: State, rel: Point, m: Measure): Option<nat> {
    var before := if s.doc.selected.Some? && !InSelectionBounds(s, rel, m) then None else s.doc.selected;
    var hit := FindAt(s.doc, rel, m);
    if hit.Some? && hit != before then hit
    else if hit.None? && before.Some? then None
    else before
  }

  /** `_on_click` with `n` presses at widget point `p`. */
  function Click(s: State, v: View, n: int, p: Point, m: Measure): State {
    var f := ImageBounds(v);
    if s.tools.mode == TextMode && InImage(f, p) then
      if n == 1 then ShowTextEntry(s, v, p) else s
    else if s.tools.mode == SelectMode && InImage(f, p) then
      var rel := ToImage(f, p);
      if n == 2 && ReEditable(s, rel, m) then
        StartTextEdit(s, s.doc.selected.value, ActionOf(s.doc, s.doc.selected.value).value)
      else if n == 1 then s.(doc := s.doc.(selected := ClickSelection(s, rel, m)))
      else s
    else s
  }

  /** `clear_drawing`. */
  function ClearDrawing(s: State, v: View): State {
    var t := CloseTextEntry(s, v);
    t.(doc := t.doc.(actions := [], redoStack := [], selected := None))
  }

  // ---------------------------------------------------------------------
  // Setters

  function SetPenSize(t: Tools, size: real): Tools { t.(penSize := MaxR(1.0, size)) }
  function SetArrowHeadSize(t: Tools, size: real): Tools { t.(arrowHeadSize := MaxR(5.0, size)) }
  function SetFontSize(t: Tools, size: real): Tools { t.(fontSize := MaxR(8.0, size)) }
  function SetFontFamily(t: Tools, family: string): Tools {
    t.(fontFamily := if family == "" then "Sans" else family)
  }
  function SetHighlighterSize(t: Tools, size: real): Tools { t.(highlighterSize := MaxR(1.0, size)) }
  /** `max(2, int(level))`. */
  function SetPixelationLevel(t: Tools, level: real): Tools {
    t.(pixelationLevel := Max(2, Trunc(level)))
  }
  function SetPenColor(t: Tools, c: Color): Tools { t.(penColor := c) }
  function SetFillColor(t: Tools, c: Color): Tools { t.(fillColor := Some(c)) }
}
