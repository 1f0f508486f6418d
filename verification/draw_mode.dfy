// The drawing tools: which events change the canvas, and that each change comes with one command
// (src/canvas/CanvasDrawMode.cpp). Positions are canvas positions.
module DrawMode {
  import opened Annotation
  import opened CanvasDoc
  import opened Common
  import opened Ids
  import opened UndoHistory
  import opened UndoRedo

  datatype Tool = Brush | Eraser | ArrowTool | StickyTool | TextTool

  datatype ModeOf<+P> = Mode(
    active: bool, tool: Tool, color: Color, thickness: real, drawing: bool, awaitingText: bool,
    points: P, strokeColor: Color, strokeThickness: real, arrowStart: Vec, pending: Vec)

  type Mode = ModeOf<seq<Vec>>

  const NOTE_COLOR := Color(1.0, 0.95, 0.6, 1.0)
  const NOTE_SIZE := Vec(200.0, 150.0)
  const FONT_SIZE := 16.0

  datatype Event =
    | Toggle
    | SetTool(tool: Tool)
    | SetColor(color: Color)
    | SetThickness(thickness: real)
    | Press(at: Vec)
    | Release(at: Vec)
    | MoveTo(at: Vec)
    | Submit(text: string)
    | Cancel

  // ---- what an event does to the mode ----

  function Next(m: Mode, e: Event): Mode {
    match e
    case Toggle =>
      if m.active then m.(active := false, drawing := false, awaitingText := false) else m.(active := true)
    case SetTool(tool) => m.(tool := tool, awaitingText := false)
    case SetColor(color) => m.(color := color)
    case SetThickness(thickness) => m.(thickness := thickness)
    case Press(at) => if m.active then Pressed(m, at) else m
    case Release(_) => if m.active && (m.tool.Brush? || m.tool.ArrowTool?) then m.(drawing := false) else m
    case MoveTo(at) => if m.active && m.drawing && m.tool.Brush? then m.(points := m.points + [at]) else m
    case Submit(_) => m.(awaitingText := false)
    case Cancel => m.(awaitingText := false)
  }

  function Pressed(m: Mode, at: Vec): Mode {
    match m.tool
    case Brush => m.(points := [at], strokeColor := m.color, strokeThickness := m.thickness, drawing := true)
    case Eraser => m
    case ArrowTool => m.(arrowStart := at, drawing := true)
    case _ => m.(pending := at, awaitingText := true)
  }

  // ---- what it does to the canvas ----

  // The eraser tries strokes, arrows, notes and texts, in that order.
  function Target(d: Store, p: Vec): Option<(Kind, nat)>
    requires Typed(d)
  {
    var stroke := Nearest(Measures(d.strokes, p), THRESHOLD_SQ);
    var arrow := Nearest(Measures(d.arrows, p), THRESHOLD_SQ);
    var note := NoteAt(d.stickies, p);
    var text := Nearest(Measures(d.texts, p), THRESHOLD_SQ);
    if stroke.Some? then Some((Strokes, stroke.value))
    else if arrow.Some? then Some((Arrows, arrow.value))
    else if note.Some? then Some((Stickies, note.value))
    else if text.Some? then Some((Texts, text.value))
    else None
  }

  function Outcome(m: Mode, e: Event, d: Store): Option<Action>
    requires Typed(d)
  {
    match e
    case Press(at) =>
      if m.active && m.tool.Eraser? && Target(d, at).Some? then
        var t := Target(d, at).value; Some(Erase(t.0, t.1))
      else None
    case Release(at) =>
      if !m.active || !m.drawing then None
      else if m.tool.Brush? && |m.points| >= 2 then
        Some(Draw(Strokes, Stroke(m.points, m.strokeColor, m.strokeThickness)))
      else if m.tool.ArrowTool? then Some(Draw(Arrows, Arrow(m.arrowStart, at, m.color, m.thickness)))
      else None
    case Submit(text) =>
      if !m.awaitingText then None
      else if m.tool.StickyTool? then Some(Draw(Stickies, Sticky(m.pending, NOTE_SIZE, text, NOTE_COLOR)))
      else if m.tool.TextTool? then Some(Draw(Texts, Text(m.pending, text, m.color, FONT_SIZE)))
      else None
    case _ => None
  }

  function After(m: Mode, e: Event, s: Canvas): Canvas
    requires Typed(s.doc.store)
  {
    match Outcome(m, e, s.doc.store)
    case Some(a) => Act(s, a)
    case None => s
  }

  // ---- every list holds its own kind ----

  predicate KindIs(d: Data, k: Kind) {
    match k
    case Strokes => d.Stroke?
    case Arrows => d.Arrow?
    case Stickies => d.Sticky?
    case Texts => d.Text?
  }

  predicate AllOf(list: seq<Item>, k: Kind) {
    forall x :: x in list ==> KindIs(x.data, k)
  }

  predicate Typed(s: Store) {
    AllOf(s.strokes, Strokes) && AllOf(s.arrows, Arrows) && AllOf(s.stickies, Stickies) && AllOf(s.texts, Texts)
  }

  lemma TypedAt(s: Store)
    ensures Typed(s) <==> forall k :: AllOf(s.At(k), k)
  {
    if forall k :: AllOf(s.At(k), k) {
      assert AllOf(s.At(Strokes), Strokes) && AllOf(s.At(Arrows), Arrows);
      assert AllOf(s.At(Stickies), Stickies) && AllOf(s.At(Texts), Texts);
    }
  }

  predicate TypedCommand(c: Command) {
    match c
    case Add(k, _, data) => KindIs(data, k)
    case Remove(k, _, data) => KindIs(data, k)
    case Clear(saved) => Typed(saved)
    case _ => true
  }

  predicate AllTyped(list: seq<Command>) {
    forall i :: 0 <= i < |list| ==> TypedCommand(list[i])
  }

  predicate TypedCanvas(s: Canvas) {
    Typed(s.doc.store) && AllTyped(s.undos) && AllTyped(s.redos)
  }

  predicate TypedAction(a: Action) {
    a.Draw? ==> KindIs(a.data, a.kind)
  }

  lemma AddTyped(d: Doc, k: Kind, data: Data)
    requires Typed(d.store) && KindIs(data, k)
    ensures Typed(AddItem(d, k, data).store)
  {
    var e := AddItem(d, k, data);
    TypedAt(d.store);
    TypedAt(e.store);
    forall j
      ensures AllOf(e.store.At(j), j)
    {
      assert AllOf(d.store.At(j), j);
    }
  }

  lemma RemoveTyped(d: Doc, k: Kind, id: nat)
    requires Typed(d.store)
    ensures Typed(RemoveItem(d, k, id).store)
  {
    var e := RemoveItem(d, k, id);
    TypedAt(d.store);
    TypedAt(e.store);
    WithoutMembers(d.store.At(k), id);
    forall j
      ensures AllOf(e.store.At(j), j)
    {
      assert AllOf(d.store.At(j), j);
      forall x | x in e.store.At(j)
        ensures KindIs(x.data, j)
      {
        var i :| 0 <= i < |e.store.At(j)| && e.store.At(j)[i] == x;
        assert x in d.store.At(j);
      }
    }
  }

  lemma {:induction false} AddAllTyped(d: Doc, k: Kind, saved: seq<Item>)
    requires Typed(d.store) && AllOf(saved, k)
    ensures Typed(AddAll(d, k, saved).store)
  {
    if saved != [] {
      var last := |saved| - 1;
      assert saved[last] in saved;
      AddAllTyped(d, k, saved[..last]);
      AddTyped(AddAll(d, k, saved[..last]), k, saved[last].data);
    }
  }

  lemma RestoredTyped(d: Doc, saved: Store)
    requires Typed(d.store) && Typed(saved)
    ensures Typed(Restored(d, saved).store)
  {
    var d1 := AddAll(d, Strokes, saved.strokes);
    var d2 := AddAll(d1, Arrows, saved.arrows);
    AddAllTyped(d, Strokes, saved.strokes);
    AddAllTyped(d1, Arrows, saved.arrows);
    AddAllTyped(d2, Stickies, saved.stickies);
    AddAllTyped(AddAll(d2, Stickies, saved.stickies), Texts, saved.texts);
  }

  lemma CommandTyped(c: Command, d: Doc)
    requires Typed(d.store) && TypedCommand(c)
    ensures Typed(Execute(c, d).store) && Typed(Revert(c, d).store)
  {
    match c
    case Add(k, id, data) => AddTyped(d, k, data); RemoveTyped(d, k, id);
    case Remove(k, id, data) => AddTyped(d, k, data); RemoveTyped(d, k, id);
    case Clear(saved) => RestoredTyped(d, saved);
    case Move(_, _, _) =>
    case Resize(_, _, _) =>
  }

  lemma ActTyped(s: Canvas, a: Action)
    requires TypedCanvas(s) && TypedAction(a)
    ensures TypedCanvas(Act(s, a))
  {
    match a
    case Draw(k, data) => AddTyped(s.doc, k, data);
    case Erase(k, n) =>
      var list := s.doc.store.At(k);
      if n < |list| {
        TypedAt(s.doc.store);
        assert AllOf(list, k) && list[n] in list;
        RemoveTyped(s.doc, k, list[n].id);
      }
    case ClearAll =>
    case ClearKind(k) =>
    case Drag(_, _, _) =>
    case Place(_, _) =>
    case Close(_) =>
    case UndoKey =>
      if s.undos != [] {
        CommandTyped(s.undos[|s.undos| - 1], s.doc);
      }
    case RedoKey =>
      if s.redos != [] {
        CommandTyped(s.redos[|s.redos| - 1], s.doc);
      }
  }

  // ---- what the tools promise ----

  // The eraser always takes something that is there.
  lemma TargetExists(d: Store, p: Vec)
    requires Typed(d)
    ensures match Target(d, p)
      case None => true
      case Some(t) => t.1 < |d.At(t.0)|
  {
    EraserTakesNearest(d, p);
  }

  // An event leaves the canvas alone, or stores or removes one annotation and pushes its command.
  lemma OneActionEach(m: Mode, e: Event, s: Canvas)
    requires Inv(s) && TypedCanvas(s)
    ensures var t := After(m, e, s);
      && Inv(t) && TypedCanvas(t)
      && (t == s || (t.redos == [] && t.undos != [] && PairedWith(t.undos[|t.undos| - 1], s.doc, t.doc)))
  {
    match Outcome(m, e, s.doc.store)
    case None =>
    case Some(a) =>
      StepKeepsInv(s, a);
      ActTyped(s, a);
      if a.Erase? {
        TargetExists(s.doc.store, e.at);
      }
  }

  // The command just pushed is the one that leads from the one document to the other.
  predicate PairedWith(c: Command, d: Doc, e: Doc) {
    match c
    case Add(k, id, data) => id == d.nextId && e == Execute(c, d)
    case Remove(k, id, data) => Item(id, data) in d.store.At(k) && e == Execute(c, d)
    case _ => false
  }

  // What the eraser takes is the nearest of its kind, and the kinds before it are out of reach.
  lemma EraserTakesNearest(d: Store, p: Vec)
    requires Typed(d)
    ensures match Target(d, p)
      case None =>
        && OutOfReach(d.strokes, p) && OutOfReach(d.arrows, p) && OutOfReach(d.texts, p)
        && forall i :: 0 <= i < |d.stickies| ==> d.stickies[i].data.Sticky? && !Covers(d.stickies[i].data, p)
      case Some(t) =>
        && (t.0 != Strokes ==> OutOfReach(d.strokes, p))
        && (t.0 == Stickies || t.0 == Texts ==> OutOfReach(d.arrows, p))
        && (t.0 == Stickies ==> t.1 < |d.stickies| && d.stickies[t.1].data.Sticky? && Covers(d.stickies[t.1].data, p))
        && (t.0 != Stickies ==> t.1 < |d.At(t.0)| && NearestOf(Measures(d.At(t.0), p), t.1))
  {
    NearestIsLeast(Measures(d.strokes, p), THRESHOLD_SQ);
    NearestIsLeast(Measures(d.arrows, p), THRESHOLD_SQ);
    NearestIsLeast(Measures(d.texts, p), THRESHOLD_SQ);
    NoteIsFirst(d.stickies, p, 0);
  }

  predicate OutOfReach(list: seq<Item>, p: Vec) {
    var measures := Measures(list, p);
    forall j :: 0 <= j < |measures| ==> NoCloser(measures[j], THRESHOLD_SQ)
  }

  predicate NearestOf(measures: seq<seq<real>>, i: nat)
    requires i < |measures|
  {
    var m := Best(measures, THRESHOLD_SQ);
    && m < THRESHOLD_SQ && m in measures[i]
    && forall j :: 0 <= j < |measures| ==> NoCloser(measures[j], m)
  }
}
