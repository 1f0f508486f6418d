// Whole gestures of the drawing tools: a press, what happens until the release, and the release
// (src/canvas/CanvasDrawMode.cpp).
module DrawGesture {
  import opened Annotation
  import opened CanvasDoc
  import opened Common
  import opened DrawMode
  import opened Ids
  import opened UndoHistory
  import opened UndoRedo

  function Played(m: Mode, events: seq<Event>): Mode {
    if events == [] then m else Next(Played(m, events[..|events| - 1]), events[|events| - 1])
  }

  // What can come between press and release: moves, and changes of tool, colour and thickness.
  predicate Wanders(e: Event) {
    e.MoveTo? || e.SetTool? || e.SetColor? || e.SetThickness?
  }

  predicate AllWander(inner: seq<Event>) {
    forall i :: 0 <= i < |inner| ==> Wanders(inner[i])
  }

  function LastTool(tool: Tool, inner: seq<Event>): Tool {
    if inner == [] then tool
    else if inner[|inner| - 1].SetTool? then inner[|inner| - 1].tool
    else LastTool(tool, inner[..|inner| - 1])
  }

  function LastColor(color: Color, inner: seq<Event>): Color {
    if inner == [] then color
    else if inner[|inner| - 1].SetColor? then inner[|inner| - 1].color
    else LastColor(color, inner[..|inner| - 1])
  }

  function LastThickness(thickness: real, inner: seq<Event>): real {
    if inner == [] then thickness
    else if inner[|inner| - 1].SetThickness? then inner[|inner| - 1].thickness
    else LastThickness(thickness, inner[..|inner| - 1])
  }

  // Where the mouse went.
  function PathOf(inner: seq<Event>): seq<Vec> {
    if inner == [] then []
    else
      var path, e := PathOf(inner[..|inner| - 1]), inner[|inner| - 1];
      if e.MoveTo? then path + [e.at] else path
  }

  // Where it went with the brush.
  function Brushed(tool: Tool, inner: seq<Event>): seq<Vec> {
    if inner == [] then []
    else
      var rest, e := inner[..|inner| - 1], inner[|inner| - 1];
      if e.MoveTo? && LastTool(tool, rest).Brush? then Brushed(tool, rest) + [e.at] else Brushed(tool, rest)
  }

  predicate ByBrush(tool: Tool, inner: seq<Event>, i: nat)
    requires i < |inner|
  {
    inner[i].MoveTo? ==> LastTool(tool, inner[..i]).Brush?
  }

  predicate BrushForMoves(tool: Tool, inner: seq<Event>) {
    forall i :: 0 <= i < |inner| ==> ByBrush(tool, inner, i)
  }

  lemma SameMove(tool: Tool, inner: seq<Event>, i: nat)
    requires i + 1 < |inner|
    ensures ByBrush(tool, inner[..|inner| - 1], i) == ByBrush(tool, inner, i)
  {
    assert inner[..|inner| - 1][..i] == inner[..i];
  }

  lemma BrushForOneMore(tool: Tool, inner: seq<Event>)
    requires inner != []
    ensures BrushForMoves(tool, inner) <==>
            BrushForMoves(tool, inner[..|inner| - 1]) && ByBrush(tool, inner, |inner| - 1)
  {
    var rest := inner[..|inner| - 1];
    forall i | 0 <= i < |rest|
      ensures ByBrush(tool, rest, i) == ByBrush(tool, inner, i)
    {
      SameMove(tool, inner, i);
    }
    if BrushForMoves(tool, rest) && ByBrush(tool, inner, |inner| - 1) {
      forall i | 0 <= i < |inner|
        ensures ByBrush(tool, inner, i)
      {
        assert i < |rest| ==> ByBrush(tool, rest, i);
      }
    }
  }

  // The brush misses nothing of the path exactly when it is the tool of every move.
  lemma {:induction false} BrushedAll(tool: Tool, inner: seq<Event>)
    ensures |Brushed(tool, inner)| <= |PathOf(inner)|
    ensures Brushed(tool, inner) == PathOf(inner) <==> BrushForMoves(tool, inner)
  {
    if inner != [] {
      var rest, e := inner[..|inner| - 1], inner[|inner| - 1];
      BrushedAll(tool, rest);
      BrushForOneMore(tool, inner);
      if e.MoveTo? {
        SameInit(Brushed(tool, rest), PathOf(rest), e.at);
      }
    }
  }

  lemma SameInit<T>(a: seq<T>, b: seq<T>, x: T)
    ensures a + [x] == b + [x] <==> a == b
  {
    if a + [x] == b + [x] {
      assert a == (a + [x])[..|a|] && b == (b + [x])[..|b|];
    }
  }

  // What a mode becomes between press and release.
  lemma {:induction false} Wandering(m: Mode, inner: seq<Event>)
    requires m.active && AllWander(inner)
    ensures var held := Played(m, inner);
      && held.active && held.drawing == m.drawing && held.tool == LastTool(m.tool, inner)
      && held.points == m.points + (if m.drawing then Brushed(m.tool, inner) else [])
      && held.strokeColor == m.strokeColor && held.strokeThickness == m.strokeThickness
      && held.arrowStart == m.arrowStart
      && held.color == LastColor(m.color, inner) && held.thickness == LastThickness(m.thickness, inner)
  {
    if inner != [] {
      Wandering(m, inner[..|inner| - 1]);
      assert Wanders(inner[|inner| - 1]);
    }
  }

  // The mode just before the release.
  function Held(m: Mode, start: Vec, inner: seq<Event>): Mode {
    Played(Next(m, Press(start)), inner)
  }

  // What a gesture with the tool of the press should draw: the brush draws the path from the press
  // on in the colour of the press, a click of the brush nothing; an arrow goes from press to
  // release in the colour of the release; the other tools draw nothing when the button goes up.
  function Gesture(m: Mode, start: Vec, inner: seq<Event>, end: Vec): Option<Action> {
    match m.tool
    case Brush =>
      if PathOf(inner) == [] then None
      else Some(Draw(Strokes, Stroke([start] + PathOf(inner), m.color, m.thickness)))
    case ArrowTool =>
      Some(Draw(Arrows, Arrow(start, end, LastColor(m.color, inner), LastThickness(m.thickness, inner))))
    case _ => None
  }

  // When it does, in terms of the mode before the press and the tools from then on.
  predicate ToolStays(m: Mode, inner: seq<Event>) {
    var last := LastTool(m.tool, inner);
    match m.tool
    case Brush => if last.Brush? then BrushForMoves(Brush, inner) else !last.ArrowTool? && PathOf(inner) == []
    case ArrowTool => last.ArrowTool?
    case _ => m.drawing ==> !last.ArrowTool? && (last.Brush? ==> |m.points| + |Brushed(m.tool, inner)| < 2)
  }

  // A release draws the gesture that it ends exactly then.
  lemma GestureDrawsItself(m: Mode, d: Store, start: Vec, inner: seq<Event>, end: Vec)
    requires Typed(d) && m.active && AllWander(inner)
    ensures Outcome(Held(m, start, inner), Release(end), d) == Gesture(m, start, inner, end) <==> ToolStays(m, inner)
  {
    Wandering(Next(m, Press(start)), inner);
    BrushedAll(m.tool, inner);
    if m.tool.Brush? {
      SameTail(start, Brushed(Brush, inner), PathOf(inner));
    }
  }

  lemma SameTail<T>(x: T, a: seq<T>, b: seq<T>)
    ensures [x] + a == [x] + b <==> a == b
  {
    if [x] + a == [x] + b {
      assert a == ([x] + a)[1..] && b == ([x] + b)[1..];
    }
  }

  predicate StartsAt(data: Data, p: Vec) {
    match data
    case Stroke(points, _, _) => points != [] && points[0] == p
    case Arrow(start, _, _, _) => start == p
    case _ => false
  }

  // Where the data that the last tool draws were begun.
  predicate BegunAt(m: Mode, inner: seq<Event>, start: Vec) {
    match LastTool(m.tool, inner)
    case Brush =>
      var points := m.points + Brushed(m.tool, inner);
      m.tool.Brush? || (points != [] && points[0] == start)
    case ArrowTool => m.tool.ArrowTool? || m.arrowStart == start
    case _ => true
  }

  // What a release draws starts at the press exactly when the tool of the press is the tool of the
  // release, or what is left of earlier gestures happens to start there.
  lemma StartsAtPress(m: Mode, d: Store, start: Vec, inner: seq<Event>, end: Vec)
    requires Typed(d) && m.active && AllWander(inner)
    ensures match Outcome(Held(m, start, inner), Release(end), d)
      case Some(Draw(_, data)) => StartsAt(data, start) <==> BegunAt(m, inner, start)
      case Some(_) => false
      case None => true
  {
    Wandering(Next(m, Press(start)), inner);
  }

  // A press, a path and a release of the brush.
  lemma BrushGesture(m: Mode, s: Canvas, start: Vec, inner: seq<Event>, end: Vec)
    requires Typed(s.doc.store) && m.active && m.tool.Brush? && AllWander(inner)
    requires BrushForMoves(Brush, inner) && LastTool(Brush, inner) == Brush
    ensures var held, path := Held(m, start, inner), PathOf(inner);
      && After(m, Press(start), s) == s
      && After(held, Release(end), s) ==
         (if path == [] then s else Act(s, Draw(Strokes, Stroke([start] + path, m.color, m.thickness))))
      && !Next(held, Release(end)).drawing
  {
    GestureDrawsItself(m, s.doc.store, start, inner, end);
    Wandering(Next(m, Press(start)), inner);
  }

  // The same of an arrow, whatever other tools were chosen on the way.
  lemma ArrowGesture(m: Mode, s: Canvas, start: Vec, inner: seq<Event>, end: Vec)
    requires Typed(s.doc.store) && m.active && m.tool.ArrowTool? && AllWander(inner)
    requires LastTool(ArrowTool, inner) == ArrowTool
    ensures var held := Held(m, start, inner);
      && After(m, Press(start), s) == s
      && After(held, Release(end), s) ==
         Act(s, Draw(Arrows, Arrow(start, end, LastColor(m.color, inner), LastThickness(m.thickness, inner))))
      && !Next(held, Release(end)).drawing
  {
    GestureDrawsItself(m, s.doc.store, start, inner, end);
    Wandering(Next(m, Press(start)), inner);
  }

  // Each is taken back by one undo.
  lemma GestureUndone(m: Mode, s: Canvas, start: Vec, inner: seq<Event>, end: Vec)
    requires Inv(s) && Typed(s.doc.store) && m.active && AllWander(inner) && ToolStays(m, inner)
    requires Gesture(m, start, inner, end).Some?
    ensures SameDoc(Undo(After(Held(m, start, inner), Release(end), s)).doc, s.doc)
  {
    GestureDrawsItself(m, s.doc.store, start, inner, end);
    var a := Gesture(m, start, inner, end).value;
    OneUndo(s.doc, a, Act(s, a).doc, s);
  }

  // Leaving drawing mode gives the gesture up.
  lemma {:induction false} ToggleGivesUp(m: Mode, d: Store, inner: seq<Event>, end: Vec)
    requires Typed(d) && m.active && Toggle in inner
    requires forall e :: e in inner ==> !e.Press?
    ensures !Played(m, inner).drawing && Outcome(Played(m, inner), Release(end), d) == None
  {
    var rest, e := inner[..|inner| - 1], inner[|inner| - 1];
    assert inner == rest + [e];
    if Toggle in rest {
      ToggleGivesUp(m, d, rest, end);
    } else {
      NoToggle(m, rest);
    }
  }

  lemma {:induction false} NoToggle(m: Mode, inner: seq<Event>)
    requires m.active && Toggle !in inner
    ensures Played(m, inner).active
  {
    if inner != [] {
      assert inner == inner[..|inner| - 1] + [inner[|inner| - 1]];
      NoToggle(m, inner[..|inner| - 1]);
    }
  }

  // ---- the gestures that draw something else ----

  // From brush to arrow: the arrow starts where an earlier one did.
  lemma BrushEndsAsArrow(m: Mode, d: Store, start: Vec, inner: seq<Event>, end: Vec)
    requires Typed(d) && m.active && m.tool.Brush? && AllWander(inner) && LastTool(Brush, inner) == ArrowTool
    ensures var held := Held(m, start, inner);
      Outcome(held, Release(end), d) ==
      Some(Draw(Arrows, Arrow(m.arrowStart, end, LastColor(m.color, inner), LastThickness(m.thickness, inner))))
  {
    Wandering(Next(m, Press(start)), inner);
  }

  // From arrow to brush: a stroke that has been drawn is drawn again, with what the brush adds.
  lemma StrokeDrawnAgain(m: Mode, d: Store, start: Vec, path: seq<Event>, end: Vec, from: Vec, inner: seq<Event>, to: Vec)
    requires Typed(d) && m.active && m.tool.Brush? && AllWander(path) && AllWander(inner)
    requires BrushForMoves(Brush, path) && LastTool(Brush, path) == Brush && PathOf(path) != []
    requires LastTool(ArrowTool, inner) == Brush
    ensures var first := Held(m, start, path);
      var second := Next(Next(first, Release(end)), SetTool(ArrowTool));
      var points := [start] + PathOf(path);
      && Outcome(first, Release(end), d) == Some(Draw(Strokes, Stroke(points, m.color, m.thickness)))
      && Outcome(Held(second, from, inner), Release(to), d)
         == Some(Draw(Strokes, Stroke(points + Brushed(ArrowTool, inner), m.color, m.thickness)))
  {
    var first := Held(m, start, path);
    var second := Next(Next(first, Release(end)), SetTool(ArrowTool));
    GestureDrawsItself(m, d, start, path, end);
    Wandering(Next(m, Press(start)), path);
    BrushedAll(Brush, path);
    Wandering(Next(second, Press(from)), inner);
  }

  // A button that goes up with another tool than brush and arrow leaves the gesture going.
  lemma GestureGoesOn(m: Mode, start: Vec, inner: seq<Event>, end: Vec)
    requires m.active && (m.tool.Brush? || m.tool.ArrowTool?) && AllWander(inner)
    ensures var last := LastTool(m.tool, inner);
      Next(Held(m, start, inner), Release(end)).drawing <==> !last.Brush? && !last.ArrowTool?
  {
    Wandering(Next(m, Press(start)), inner);
  }

  // ---- notes and texts

  // What can come between the press and the text: the button goes up, moves, other colours.
  predicate AllIdle(inner: seq<Event>) {
    forall i :: 0 <= i < |inner| ==>
      inner[i].Release? || inner[i].MoveTo? || inner[i].SetColor? || inner[i].SetThickness?
  }

  lemma {:induction false} Idling(m: Mode, inner: seq<Event>)
    requires m.active && AllIdle(inner)
    ensures var held := Played(m, inner);
      && held.active && held.tool == m.tool && held.awaitingText == m.awaitingText && held.pending == m.pending
      && held.color == LastColor(m.color, inner)
  {
    if inner != [] {
      Idling(m, inner[..|inner| - 1]);
    }
  }

  // The text that is submitted after a press is stored where the button went down: as a note in the
  // colour and the size of notes, or as a text in the colour of the submission.
  lemma TypingGesture(m: Mode, d: Store, at: Vec, inner: seq<Event>, text: string)
    requires Typed(d) && m.active && (m.tool.StickyTool? || m.tool.TextTool?) && AllIdle(inner)
    ensures var held := Played(Next(m, Press(at)), inner);
      && Outcome(m, Press(at), d) == None
      && Outcome(held, Submit(text), d) ==
         (if m.tool.StickyTool? then Some(Draw(Stickies, Sticky(at, Vec(200.0, 150.0), text, Color(1.0, 0.95, 0.6, 1.0))))
          else Some(Draw(Texts, Text(at, text, LastColor(m.color, inner), 16.0))))
      && !Next(held, Submit(text)).awaitingText
  {
    Idling(Next(m, Press(at)), inner);
  }

  // Choosing a tool, cancelling, submitting once and leaving drawing mode each give the text up.
  lemma TypingGivenUp(m: Mode, d: Store, e: Event, text: string)
    requires Typed(d) && (e.SetTool? || e.Cancel? || e.Submit? || (e.Toggle? && m.active))
    ensures Outcome(Next(m, e), Submit(text), d) == None
  {
  }

  // Outside drawing mode the mouse draws and erases nothing, and moves nothing in the mode.
  lemma OutsideDrawingMode(m: Mode, d: Store, e: Event)
    requires Typed(d) && !m.active && (e.Press? || e.Release? || e.MoveTo?)
    ensures Outcome(m, e, d) == None && Next(m, e) == m
  {
  }

  lemma EraserErases(m: Mode, s: Canvas, at: Vec)
    requires Typed(s.doc.store) && m.active && m.tool.Eraser?
    ensures var t := Target(s.doc.store, at);
      After(m, Press(at), s) == if t.Some? then Erased(s, t.value.0, t.value.1) else s
  {
  }

  // A press of the eraser takes one annotation out of its list, or nothing when nothing is in reach.
  lemma EraserGesture(m: Mode, s: Canvas, at: Vec)
    requires Inv(s) && Typed(s.doc.store) && m.active && m.tool.Eraser?
    ensures Next(m, Press(at)) == m
    ensures match Target(s.doc.store, at)
      case None => After(m, Press(at), s) == s
      case Some(t) => t.1 < |s.doc.store.At(t.0)| && TakesOut(s.doc, t.0, t.1, After(m, Press(at), s).doc)
  {
    TargetExists(s.doc.store, at);
    EraserErases(m, s, at);
    var t := Target(s.doc.store, at);
    if t.Some? {
      ErasedTakesOut(s, t.value.0, t.value.1);
    }
  }

  // ---- what the eraser reaches

  ghost predicate Within20(list: seq<Item>, p: Vec) {
    exists j, q :: 0 <= j < |list| && OnDrawing(list[j].data, q) && Near(p, q)
  }

  predicate Near(p: Vec, q: Vec) {
    DistSq(p, q) < 20.0 * 20.0
  }

  lemma DistanceIs(p: Vec, q: Vec)
    ensures DistSq(p, q) == (p.x - q.x) * (p.x - q.x) + (p.y - q.y) * (p.y - q.y)
  {
  }

  predicate UnderNote(d: Data, p: Vec) {
    d.Sticky? && d.position.x <= p.x <= d.position.x + d.size.x && d.position.y <= p.y <= d.position.y + d.size.y
  }

  lemma Within20Is(list: seq<Item>, p: Vec)
    ensures Within20(list, p) <==> Nearest(Measures(list, p), THRESHOLD_SQ).Some?
  {
    NearestInPlane(list, p, THRESHOLD_SQ);
    var found := Nearest(Measures(list, p), THRESHOLD_SQ);
    if found.Some? {
      var o :| OnDrawing(list[found.value].data, o) && DistSq(p, o) < THRESHOLD_SQ;
      assert Near(p, o);
    } else {
      forall j, q | 0 <= j < |list| && OnDrawing(list[j].data, q)
        ensures !Near(p, q)
      {
        assert THRESHOLD_SQ <= DistSq(p, q);
      }
    }
  }

  // The eraser takes a stroke if one is within twenty pixels, else an arrow, else the first note under
  // the pointer, else a text; and of its kind, notes aside, one with the closest point of all.
  lemma EraserInPlane(d: Store, p: Vec)
    requires Typed(d)
    ensures match Target(d, p)
      case None =>
        && !Within20(d.strokes, p) && !Within20(d.arrows, p) && !Within20(d.texts, p)
        && forall i :: 0 <= i < |d.stickies| ==> !UnderNote(d.stickies[i].data, p)
      case Some((k, n)) =>
        && n < |d.At(k)|
        && (k != Strokes ==> !Within20(d.strokes, p))
        && (k == Stickies || k == Texts ==> !Within20(d.arrows, p))
        && (k == Texts ==> forall i :: 0 <= i < |d.stickies| ==> !UnderNote(d.stickies[i].data, p))
        && (k == Stickies ==>
              UnderNote(d.stickies[n].data, p) && forall i :: 0 <= i < n ==> !UnderNote(d.stickies[i].data, p))
        && (k != Stickies ==>
              exists o :: OnDrawing(d.At(k)[n].data, o) && Near(p, o) && ClosestTo(d.At(k), p, o))
  {
    Within20Is(d.strokes, p);
    Within20Is(d.arrows, p);
    Within20Is(d.texts, p);
    NoteIsFirst(d.stickies, p, 0);
    NoteUnder(d.stickies, p);
    var t := Target(d, p);
    if t.Some? && t.value.0 != Stickies {
      ClosestOf(d.At(t.value.0), p);
    }
  }

  lemma NoteUnder(notes: seq<Item>, p: Vec)
    requires AllOf(notes, Stickies)
    ensures forall i :: 0 <= i < |notes| ==> notes[i].data.Sticky? && (UnderNote(notes[i].data, p) <==> Covers(notes[i].data, p))
  {
    forall i | 0 <= i < |notes|
      ensures notes[i].data.Sticky?
    {
      assert notes[i] in notes;
    }
  }

  lemma ClosestOf(list: seq<Item>, p: Vec)
    ensures match Nearest(Measures(list, p), THRESHOLD_SQ)
      case None => true
      case Some(n) => n < |list| && exists o :: OnDrawing(list[n].data, o) && Near(p, o) && ClosestTo(list, p, o)
  {
    NearestInPlane(list, p, THRESHOLD_SQ);
    var found := Nearest(Measures(list, p), THRESHOLD_SQ);
    if found.Some? {
      var o :| OnDrawing(list[found.value].data, o) && DistSq(p, o) < THRESHOLD_SQ && ClosestTo(list, p, o);
      assert Near(p, o);
    }
  }
}
