// The annotation store, the undo stacks and the drawing tool as objects that are updated in place
// (src/canvas/CanvasAnnotation.cpp, src/canvas/CanvasCommand.cpp, src/canvas/CanvasUndoRedo.cpp,
// src/canvas/CanvasDrawMode.cpp). Every method is proved against the function that specifies it.
module CanvasObjects {
  import opened Annotation
  import opened CanvasDoc
  import opened Common
  import opened Ids
  import M = DrawMode
  import U = UndoRedo

  class AnnotationStore {
    var strokes: seq<Item>
    var arrows: seq<Item>
    var stickyNotes: seq<Item>
    var texts: seq<Item>
    var nextId: nat

    ghost function Lists(): Store
      reads this
    {
      Store(strokes, arrows, stickyNotes, texts)
    }

    ghost function View(windows: map<WinId, Geometry>): Doc
      reads this
    {
      Doc(Lists(), nextId, windows)
    }

    constructor ()
      ensures Lists() == EMPTY && nextId == FIRST_ID
    {
      strokes, arrows, stickyNotes, texts, nextId := [], [], [], [], FIRST_ID;
    }

    method AddAnnotation(k: Kind, data: Data)
      modifies this
      ensures forall windows :: View(windows) == AddItem(old(View(windows)), k, data)
    {
      var item := Item(nextId, data);
      nextId := nextId + 1;
      match k
      case Strokes => strokes := strokes + [item];
      case Arrows => arrows := arrows + [item];
      case Stickies => stickyNotes := stickyNotes + [item];
      case Texts => texts := texts + [item];
    }

    method RemoveAnnotation(k: Kind, id: nat)
      modifies this
      ensures forall windows :: View(windows) == RemoveItem(old(View(windows)), k, id)
    {
      match k
      case Strokes => strokes := EraseIf(strokes, id);
      case Arrows => arrows := EraseIf(arrows, id);
      case Stickies => stickyNotes := EraseIf(stickyNotes, id);
      case Texts => texts := EraseIf(texts, id);
    }

    method ClearAnnotations()
      modifies this
      ensures Lists() == EMPTY && nextId == old(nextId)
    {
      strokes, arrows, stickyNotes, texts := [], [], [], [];
    }

    method ClearByType(k: Kind)
      modifies this
      ensures Lists() == With(old(Lists()), k, []) && nextId == old(nextId)
    {
      match k
      case Strokes => strokes := [];
      case Arrows => arrows := [];
      case Stickies => stickyNotes := [];
      case Texts => texts := [];
    }

    // The four loops that bring saved annotations back.
    method AddSaved(k: Kind, saved: seq<Item>)
      modifies this
      ensures forall windows :: View(windows) == AddAll(old(View(windows)), k, saved)
    {
      for i := 0 to |saved|
        invariant forall windows :: View(windows) == AddAll(old(View(windows)), k, saved[..i])
      {
        AddAnnotation(k, saved[i].data);
        assert saved[..i + 1][..i] == saved[..i];
      }
      assert saved[..|saved|] == saved;
    }
  }

  method EraseIf(list: seq<Item>, id: nat) returns (kept: seq<Item>)
    ensures kept == Without(list, id)
  {
    kept := [];
    for i := 0 to |list|
      invariant kept == Without(list[..i], id)
    {
      assert list[..i + 1][..i] == list[..i];
      if list[i].id != id {
        kept := kept + [list[i]];
      }
    }
    assert list[..|list|] == list;
  }

  class UndoStacks {
    const annotations: AnnotationStore
    var windows: map<WinId, Geometry>
    var undoStack: seq<Command>
    var redoStack: seq<Command>

    ghost function View(): U.Canvas
      reads this, annotations
    {
      U.Canvas(annotations.View(windows), undoStack, redoStack)
    }

    constructor (store: AnnotationStore, geometry: map<WinId, Geometry>)
      ensures annotations == store && View() == U.Canvas(store.View(geometry), [], [])
    {
      annotations, windows, undoStack, redoStack := store, geometry, [], [];
    }

    method ApplyPosition(w: WinId, position: Vec)
      modifies this`windows
      ensures View().doc == Positioned(old(View()).doc, w, position)
    {
      if w !in windows {
        return;
      }
      windows := windows[w := windows[w].(position := position)];
    }

    method ApplyState(w: WinId, g: Geometry)
      modifies this`windows
      ensures View().doc == Placed(old(View()).doc, w, g)
    {
      if w !in windows {
        return;
      }
      windows := windows[w := g];
    }

    method ExecuteCommand(c: Command)
      modifies this`windows, annotations
      ensures View().doc == Execute(c, old(View()).doc)
    {
      match c
      case Add(k, _, data) => annotations.AddAnnotation(k, data);
      case Remove(k, id, _) => annotations.RemoveAnnotation(k, id);
      case Clear(_) => annotations.ClearAnnotations();
      case Move(w, _, finish) => ApplyPosition(w, finish);
      case Resize(w, _, after) => ApplyState(w, after);
    }

    method RevertCommand(c: Command)
      modifies this`windows, annotations
      ensures View().doc == Revert(c, old(View()).doc)
    {
      match c
      case Add(k, id, _) => annotations.RemoveAnnotation(k, id);
      case Remove(k, _, data) => annotations.AddAnnotation(k, data);
      case Clear(saved) =>
        annotations.AddSaved(Strokes, saved.strokes);
        annotations.AddSaved(Arrows, saved.arrows);
        annotations.AddSaved(Stickies, saved.stickies);
        annotations.AddSaved(Texts, saved.texts);
      case Move(w, start, _) => ApplyPosition(w, start);
      case Resize(w, before, _) => ApplyState(w, before);
    }

    method Push(c: Command)
      modifies this`undoStack, this`redoStack
      ensures View() == U.Push(old(View()), c)
    {
      redoStack := [];
      if |undoStack| >= U.MAX_STACK_SIZE {
        undoStack := undoStack[1..];
      }
      undoStack := undoStack + [c];
    }

    method UndoLast()
      modifies this, annotations
      ensures View() == U.Undo(old(View()))
    {
      if undoStack == [] {
        return;
      }
      var c := undoStack[|undoStack| - 1];
      undoStack := undoStack[..|undoStack| - 1];
      RevertCommand(c);
      redoStack := redoStack + [c];
    }

    method RedoLast()
      modifies this, annotations
      ensures View() == U.Redo(old(View()))
    {
      if redoStack == [] {
        return;
      }
      var c := redoStack[|redoStack| - 1];
      redoStack := redoStack[..|redoStack| - 1];
      ExecuteCommand(c);
      undoStack := undoStack + [c];
    }

    // canvasClearAnnotations for everything
    method ClearAll()
      modifies this, annotations
      ensures View() == U.Cleared(old(View()))
    {
      Push(Clear(Store(annotations.strokes, annotations.arrows, annotations.stickyNotes, annotations.texts)));
      annotations.ClearAnnotations();
    }

    // onEndDragWindow: the window is where the drag has left it, and its start is remembered.
    method EndDrag(w: WinId, resize: bool, to: Geometry)
      modifies this
      ensures View() == U.Dragged(old(View()), w, resize, to)
    {
      if w !in windows {
        return;
      }
      var start := windows[w];
      windows := windows[w := to];
      if resize {
        if to.position != start.position || to.size != start.size {
          Push(Resize(w, start, to));
        }
      } else if to.position != start.position {
        Push(Move(w, start.position, to.position));
      }
    }
  }

  class DrawTool {
    const canvas: UndoStacks
    var active: bool
    var tool: M.Tool
    var color: Color
    var thickness: real
    var drawing: bool
    var awaitingText: bool
    var points: seq<Vec>
    var strokeColor: Color
    var strokeThickness: real
    var arrowStart: Vec
    var pending: Vec

    ghost function View(): M.Mode
      reads this
    {
      M.Mode(active, tool, color, thickness, drawing, awaitingText, points, strokeColor, strokeThickness, arrowStart, pending)
    }

    ghost predicate Typed()
      reads canvas, canvas.annotations
    {
      M.Typed(canvas.annotations.Lists())
    }

    constructor (stacks: UndoStacks)
      ensures canvas == stacks && !active && tool == M.Brush && !drawing && !awaitingText
    {
      canvas, active, tool, drawing, awaitingText := stacks, false, M.Brush, false, false;
      color, thickness := Color(1.0, 0.3, 0.3, 1.0), 4.0;
      points, strokeColor, strokeThickness := [], Color(1.0, 0.3, 0.3, 1.0), 4.0;
      arrowStart, pending := ORIGIN, ORIGIN;
    }

    method Toggle()
      modifies this
      ensures View() == M.Next(old(View()), M.Toggle)
    {
      active := !active;
      if !active {
        drawing, awaitingText := false, false;
      }
    }

    method SetTool(t: M.Tool)
      modifies this
      ensures View() == M.Next(old(View()), M.SetTool(t))
    {
      tool, awaitingText := t, false;
    }

    // Store first, then push the command with the id that the store gave.
    method Record(k: Kind, data: Data)
      modifies canvas, canvas.annotations
      ensures canvas.View() == U.Drawn(old(canvas.View()), k, data)
    {
      var id := canvas.annotations.nextId;
      canvas.annotations.AddAnnotation(k, data);
      canvas.Push(Add(k, id, data));
    }

    // Push the command first, then remove.
    method RemoveAt(k: Kind, n: nat)
      requires n < |canvas.annotations.Lists().At(k)|
      modifies canvas, canvas.annotations
      ensures canvas.View() == U.Erased(old(canvas.View()), k, n)
    {
      var list := match k {
        case Strokes => canvas.annotations.strokes
        case Arrows => canvas.annotations.arrows
        case Stickies => canvas.annotations.stickyNotes
        case Texts => canvas.annotations.texts
      };
      var saved := list[n];
      canvas.Push(Remove(k, saved.id, saved.data));
      canvas.annotations.RemoveAnnotation(k, saved.id);
    }

    method FindTarget(at: Vec) returns (target: Option<(Kind, nat)>)
      requires Typed()
      ensures target == M.Target(canvas.annotations.Lists(), at)
    {
      var stroke := FindNearestStroke(canvas.annotations.strokes, at, THRESHOLD_SQ);
      if stroke.Some? {
        return Some((Strokes, stroke.value));
      }
      var arrow := FindNearestArrow(canvas.annotations.arrows, at, THRESHOLD_SQ);
      if arrow.Some? {
        return Some((Arrows, arrow.value));
      }
      var note := FindStickyNoteAt(canvas.annotations.stickyNotes, at);
      if note.Some? {
        return Some((Stickies, note.value));
      }
      var text := FindTextAt(canvas.annotations.texts, at, THRESHOLD_SQ);
      return if text.Some? then Some((Texts, text.value)) else None;
    }

    method Erase(at: Vec)
      requires Typed()
      modifies canvas, canvas.annotations
      ensures canvas.View() == match M.Target(old(canvas.annotations.Lists()), at)
                               case Some(t) => U.Erased(old(canvas.View()), t.0, t.1)
                               case None => old(canvas.View())
    {
      var target := FindTarget(at);
      if target.Some? {
        M.TargetExists(canvas.annotations.Lists(), at);
        RemoveAt(target.value.0, target.value.1);
      }
    }

    method HandleMouseButton(at: Vec, pressed: bool) returns (handled: bool)
      requires Typed()
      modifies this, canvas, canvas.annotations
      ensures handled == old(active)
      ensures var e := if pressed then M.Press(at) else M.Release(at);
        View() == M.Next(old(View()), e) && canvas.View() == M.After(old(View()), e, old(canvas.View()))
    {
      handled := active;
      if !active {
        return;
      }
      match tool
      case Brush =>
        if pressed {
          strokeColor, strokeThickness, points := color, thickness, [at];
          drawing := true;
        } else if drawing {
          if |points| >= 2 {
            Record(Strokes, Stroke(points, strokeColor, strokeThickness));
          }
          drawing := false;
        }
      case Eraser =>
        if pressed {
          Erase(at);
        }
      case ArrowTool =>
        if pressed {
          arrowStart, drawing := at, true;
        } else if drawing {
          Record(Arrows, Arrow(arrowStart, at, color, thickness));
          drawing := false;
        }
      case _ =>
        if pressed {
          pending, awaitingText := at, true;
        }
    }

    method HandleMouseMove(at: Vec) returns (handled: bool)
      modifies this
      ensures handled == old(active) && View() == M.Next(old(View()), M.MoveTo(at))
    {
      if active && drawing && tool == M.Brush {
        points := points + [at];
      }
      return active;
    }

    method SubmitText(text: string)
      requires Typed()
      modifies this, canvas, canvas.annotations
      ensures View() == M.Next(old(View()), M.Submit(text))
      ensures canvas.View() == M.After(old(View()), M.Submit(text), old(canvas.View()))
    {
      if !awaitingText {
        return;
      }
      if tool == M.StickyTool {
        Record(Stickies, Sticky(pending, M.NOTE_SIZE, text, M.NOTE_COLOR));
      } else if tool == M.TextTool {
        Record(Texts, Text(pending, text, color, M.FONT_SIZE));
      }
      awaitingText := false;
    }
  }
}
