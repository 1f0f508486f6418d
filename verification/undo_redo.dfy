// The two stacks of undo and redo, and what every run of the canvas keeps
// (src/canvas/CanvasUndoRedo.cpp, and its callers in src/canvas/CanvasDrawMode.cpp,
// src/layout/CanvasLayout.cpp and src/managers/KeybindManager.cpp).
module UndoRedo {
  import opened Annotation
  import opened CanvasDoc
  import opened Common
  import opened Ids

  const MAX_STACK_SIZE := 100

  datatype CanvasOf<+D, +U> = Canvas(doc: D, undos: U, redos: U)

  type Canvas = CanvasOf<Doc, seq<Command>>

  function Push(s: Canvas, c: Command): Canvas {
    var kept := if |s.undos| >= MAX_STACK_SIZE then s.undos[1..] else s.undos;
    s.(undos := kept + [c], redos := [])
  }

  function Undo(s: Canvas): Canvas {
    if s.undos == [] then s
    else
      var last := |s.undos| - 1;
      var c := s.undos[last];
      Canvas(Revert(c, s.doc), s.undos[..last], s.redos + [c])
  }

  function Redo(s: Canvas): Canvas {
    if s.redos == [] then s
    else
      var last := |s.redos| - 1;
      var c := s.redos[last];
      Canvas(Execute(c, s.doc), s.undos + [c], s.redos[..last])
  }

  // What the user and the rest of the compositor do to the canvas.
  datatype Action =
    | Draw(kind: Kind, data: Data)
    | Erase(kind: Kind, n: nat)
    | ClearAll
    | ClearKind(kind: Kind)
    | Drag(window: WinId, resize: bool, to: Geometry)
    | Place(window: WinId, at: Geometry)
    | Close(window: WinId)
    | UndoKey
    | RedoKey

  // A finished annotation is stored, and then pushed with the id it was given.
  function Drawn(s: Canvas, k: Kind, data: Data): Canvas {
    Push(s.(doc := AddItem(s.doc, k, data)), Add(k, s.doc.nextId, data))
  }

  // The eraser pushes first and removes afterwards.
  function Erased(s: Canvas, k: Kind, n: nat): Canvas {
    var list := s.doc.store.At(k);
    if n >= |list| then s
    else
      var pushed := Push(s, Remove(k, list[n].id, list[n].data));
      pushed.(doc := RemoveItem(s.doc, k, list[n].id))
  }

  function Cleared(s: Canvas): Canvas {
    var pushed := Push(s, Clear(s.doc.store));
    pushed.(doc := s.doc.(store := EMPTY))
  }

  // The end of a drag of a window, from where it was to where it ends up.
  function Dragged(s: Canvas, w: WinId, resize: bool, to: Geometry): Canvas {
    if w !in s.doc.windows then s
    else
      var was := s.doc.windows[w];
      var moved := s.(doc := Placed(s.doc, w, to));
      if resize then
        if to != was then Push(moved, Resize(w, was, to)) else moved
      else
        if to.position != was.position then Push(moved, Move(w, was.position, to.position)) else moved
  }

  function Act(s: Canvas, a: Action): Canvas {
    match a
    case Draw(k, data) => Drawn(s, k, data)
    case Erase(k, n) => Erased(s, k, n)
    case ClearAll => Cleared(s)
    case ClearKind(k) => s.(doc := s.doc.(store := With(s.doc.store, k, [])))
    case Drag(w, resize, to) => Dragged(s, w, resize, to)
    case Place(w, at) => s.(doc := s.doc.(windows := s.doc.windows[w := at]))
    case Close(w) => s.(doc := s.doc.(windows := s.doc.windows - {w}))
    case UndoKey => Undo(s)
    case RedoKey => Redo(s)
  }

  function Run(s: Canvas, actions: seq<Action>): Canvas {
    if actions == [] then s
    else
      var last := |actions| - 1;
      Act(Run(s, actions[..last]), actions[last])
  }

  // ---- the invariant ----

  // An id that a command names was handed out; if it is in use, then by that command's annotation.
  ghost predicate Honest(c: Command, d: Doc) {
    match c
    case Add(k, id, data) =>
      && id < d.nextId
      && (forall j :: j != k ==> !LiveIn(d.store.At(j), id))
      && (forall i :: Holds(d, k, i, id) ==> d.store.At(k)[i].data == data)
    case Remove(k, id, _) => id < d.nextId && Dead(d, id)
    case _ => true
  }

  // What is waiting to be redone names only ids that are out of use.
  ghost predicate Spent(c: Command, d: Doc) {
    match c
    case Add(_, id, _) => id < d.nextId && Dead(d, id)
    case Remove(_, id, _) => id < d.nextId && Dead(d, id)
    case _ => true
  }

  ghost predicate AllHonest(list: seq<Command>, d: Doc) {
    forall i :: 0 <= i < |list| ==> Honest(list[i], d)
  }

  ghost predicate AllSpent(list: seq<Command>, d: Doc) {
    forall i :: 0 <= i < |list| ==> Spent(list[i], d)
  }

  ghost predicate Inv(s: Canvas) {
    && |s.undos| + |s.redos| <= MAX_STACK_SIZE
    && Numbered(s.doc)
    && AllHonest(s.undos, s.doc)
    && AllSpent(s.redos, s.doc)
  }

  lemma HonestStays(c: Command, d: Doc, e: Doc)
    requires Grows(d, e) && Honest(c, d)
    ensures Honest(c, e)
  {
    match c
    case Add(k, id, data) =>
      forall j, i | Holds(e, j, i, id)
        ensures j == k && e.store.At(k)[i].data == data
      {
        var x := e.store.At(j)[i];
        assert x in d.store.At(j);
        var p :| 0 <= p < |d.store.At(j)| && d.store.At(j)[p] == x;
        assert LiveIn(d.store.At(j), id);
        assert Holds(d, j, p, id);
      }
      forall j | j != k
        ensures !LiveIn(e.store.At(j), id)
      {
        if LiveIn(e.store.At(j), id) {
          var i :| 0 <= i < |e.store.At(j)| && e.store.At(j)[i].id == id;
          assert Holds(e, j, i, id);
        }
      }
    case Remove(_, id, _) => DeadStays(d, e, id);
    case Clear(_) =>
    case Move(_, _, _) =>
    case Resize(_, _, _) =>
  }

  lemma SpentStays(c: Command, d: Doc, e: Doc)
    requires Grows(d, e) && Spent(c, d)
    ensures Spent(c, e)
  {
    match c
    case Add(_, id, _) => DeadStays(d, e, id);
    case Remove(_, id, _) => DeadStays(d, e, id);
    case Clear(_) =>
    case Move(_, _, _) =>
    case Resize(_, _, _) =>
  }

  lemma SpentIsHonest(c: Command, d: Doc)
    requires Spent(c, d)
    ensures Honest(c, d)
  {
    if c.Add? {
      forall j, i
        ensures !Holds(d, j, i, c.id)
      {
        assert !LiveIn(d.store.At(j), c.id);
      }
    }
  }

  lemma AllStay(s: Canvas, e: Doc)
    requires Inv(s) && Grows(s.doc, e)
    ensures AllHonest(s.undos, e) && AllSpent(s.redos, e)
  {
    forall i | 0 <= i < |s.undos|
      ensures Honest(s.undos[i], e)
    {
      HonestStays(s.undos[i], s.doc, e);
    }
    forall i | 0 <= i < |s.redos|
      ensures Spent(s.redos[i], e)
    {
      SpentStays(s.redos[i], s.doc, e);
    }
  }

  lemma PushKeepsInv(s: Canvas, c: Command, e: Doc)
    requires Inv(s) && Numbered(e) && Grows(s.doc, e) && Honest(c, e)
    ensures Inv(Push(s, c).(doc := e))
  {
    AllStay(s, e);
    var t := Push(s, c);
    forall i | 0 <= i < |t.undos|
      ensures Honest(t.undos[i], e)
    {
      if i < |t.undos| - 1 {
        assert t.undos[i] == s.undos[if |s.undos| >= MAX_STACK_SIZE then i + 1 else i];
      }
    }
  }

  lemma UndoKeepsInv(s: Canvas)
    requires Inv(s)
    ensures Inv(Undo(s)) && |Undo(s).undos| + |Undo(s).redos| == |s.undos| + |s.redos|
  {
    if s.undos != [] {
      var last := |s.undos| - 1;
      var c := s.undos[last];
      var t := Undo(s);
      CommandSound(c, s.doc);
      AllStay(s, t.doc);
      HonestStays(c, s.doc, t.doc);
      assert Spent(c, t.doc) by {
        if c.Add? {
          RemoveSound(s.doc, c.kind, c.id);
          forall k
            ensures !LiveIn(t.doc.store.At(k), c.id)
          {
          }
        }
      }
      forall i | 0 <= i < |t.redos|
        ensures Spent(t.redos[i], t.doc)
      {
        if i < |s.redos| {
          assert t.redos[i] == s.redos[i];
        }
      }
    }
  }

  lemma RedoKeepsInv(s: Canvas)
    requires Inv(s)
    ensures Inv(Redo(s)) && |Redo(s).undos| + |Redo(s).redos| == |s.undos| + |s.redos|
  {
    if s.redos != [] {
      var last := |s.redos| - 1;
      var c := s.redos[last];
      var t := Redo(s);
      CommandSound(c, s.doc);
      AllStay(s, t.doc);
      SpentStays(c, s.doc, t.doc);
      SpentIsHonest(c, t.doc);
      forall i | 0 <= i < |t.undos|
        ensures Honest(t.undos[i], t.doc)
      {
        if i < |s.undos| {
          assert t.undos[i] == s.undos[i];
        }
      }
    }
  }

  lemma DrawKeepsInv(s: Canvas, k: Kind, data: Data)
    requires Inv(s)
    ensures Inv(Drawn(s, k, data))
  {
    var e := AddItem(s.doc, k, data);
    AddSound(s.doc, k, data);
    var c := Add(k, s.doc.nextId, data);
    assert Holds(e, k, |s.doc.store.At(k)|, c.id);
    assert Honest(c, e) by {
      forall j | j != k
        ensures !LiveIn(e.store.At(j), c.id)
      {
        if LiveIn(e.store.At(j), c.id) {
          var i :| 0 <= i < |e.store.At(j)| && e.store.At(j)[i].id == c.id;
          assert Holds(e, j, i, c.id);
        }
      }
    }
    PushKeepsInv(s, c, e);
    assert Push(s, c).(doc := e) == Drawn(s, k, data);
  }

  lemma NotElsewhere(d: Doc, k: Kind, n: nat, j: Kind)
    requires Numbered(d) && n < |d.store.At(k)| && j != k
    ensures !LiveIn(d.store.At(j), d.store.At(k)[n].id)
  {
    assert Holds(d, k, n, d.store.At(k)[n].id);
    forall i | 0 <= i < |d.store.At(j)|
      ensures d.store.At(j)[i].id != d.store.At(k)[n].id
    {
      assert Holds(d, j, i, d.store.At(j)[i].id);
    }
  }

  lemma EraseKeepsInv(s: Canvas, k: Kind, n: nat)
    requires Inv(s)
    ensures Inv(Erased(s, k, n))
  {
    var list := s.doc.store.At(k);
    if n < |list| {
      var id := list[n].id;
      var e := RemoveItem(s.doc, k, id);
      RemoveSound(s.doc, k, id);
      assert Holds(s.doc, k, n, id);
      forall j
        ensures !LiveIn(e.store.At(j), id)
      {
        if j != k {
          NotElsewhere(s.doc, k, n, j);
        }
      }
      PushKeepsInv(s, Remove(k, id, list[n].data), e);
    }
  }

  // The stacks together never hold more than the bound, ids in use are distinct and below the next
  // id, and every id waiting to be redone is out of use.
  lemma StepKeepsInv(s: Canvas, a: Action)
    requires Inv(s)
    ensures Inv(Act(s, a))
  {
    match a
    case Draw(k, data) => DrawKeepsInv(s, k, data);
    case Erase(k, n) => EraseKeepsInv(s, k, n);
    case ClearAll =>
      EmptySound(s.doc);
      PushKeepsInv(s, Clear(s.doc.store), s.doc.(store := EMPTY));
    case ClearKind(k) =>
      EmptyOneSound(s.doc, k);
      AllStay(s, Act(s, a).doc);
    case Drag(w, resize, to) =>
      if w in s.doc.windows {
        WindowsKeepInv(s, Placed(s.doc, w, to).windows);
        var moved := s.(doc := Placed(s.doc, w, to));
        WindowsSound(moved.doc, moved.doc.windows);
        var c := if resize then Resize(w, s.doc.windows[w], to) else Move(w, s.doc.windows[w].position, to.position);
        PushKeepsInv(moved, c, moved.doc);
      }
    case Place(_, _) => WindowsKeepInv(s, Act(s, a).doc.windows);
    case Close(_) => WindowsKeepInv(s, Act(s, a).doc.windows);
    case UndoKey => UndoKeepsInv(s);
    case RedoKey => RedoKeepsInv(s);
  }

  lemma EmptyOneSound(d: Doc, k: Kind)
    requires Numbered(d)
    ensures var e := d.(store := With(d.store, k, [])); Numbered(e) && Grows(d, e)
  {
    var e := d.(store := With(d.store, k, []));
    assert forall j, i, id :: Holds(e, j, i, id) ==> Holds(d, j, i, id);
  }

  lemma WindowsKeepInv(s: Canvas, windows: map<WinId, Geometry>)
    requires Inv(s)
    ensures Inv(s.(doc := s.doc.(windows := windows)))
  {
    WindowsSound(s.doc, windows);
    AllStay(s, s.doc.(windows := windows));
  }

  lemma {:induction false} RunKeepsInv(s: Canvas, actions: seq<Action>)
    requires Inv(s)
    ensures Inv(Run(s, actions))
  {
    if actions != [] {
      var last := |actions| - 1;
      RunKeepsInv(s, actions[..last]);
      StepKeepsInv(Run(s, actions[..last]), actions[last]);
    }
  }

  // The compositor starts with nothing drawn.
  lemma FreshCanvas(windows: map<WinId, Geometry>)
    ensures Inv(Canvas(Doc(EMPTY, FIRST_ID, windows), [], []))
  {
    forall k
      ensures EMPTY.At(k) == []
    {
      match k
      case Strokes =>
      case Arrows =>
      case Stickies =>
      case Texts =>
    }
  }
}
