// How far undo and redo bring a canvas back (src/canvas/CanvasUndoRedo.cpp, src/canvas/CanvasCommand.cpp).
module UndoHistory {
  import opened Annotation
  import opened CanvasDoc
  import opened Common
  import opened Ids
  import opened UndoRedo

  // The edits whose command holds all that they change: drawing, resizing, and moving a window
  // without a change of size.
  predicate Reversible(a: Action, d: Doc) {
    match a
    case Draw(_, _) => true
    case Drag(w, resize, to) =>
      && w in d.windows
      && if resize then to != d.windows[w]
         else to.position != d.windows[w].position && to.size == d.windows[w].size
    case _ => false
  }

  function Pushed(a: Action, d: Doc): Command
    requires Reversible(a, d)
  {
    match a
    case Draw(k, data) => Add(k, d.nextId, data)
    case Drag(w, resize, to) =>
      if resize then Resize(w, d.windows[w], to) else Move(w, d.windows[w].position, to.position)
  }

  predicate SameDoc(a: Doc, b: Doc) {
    a.store == b.store && a.windows == b.windows
  }

  // One undo of one edit, on any canvas that looks as it did after the edit.
  lemma OneUndo(d: Doc, a: Action, t: Doc, s: Canvas)
    requires s.doc == d && Numbered(d) && Reversible(a, d) && SameDoc(t, Act(s, a).doc)
    ensures SameDoc(Revert(Pushed(a, d), t), d)
  {
    match a
    case Draw(k, data) =>
      if LiveIn(d.store.At(k), d.nextId) {
        var i :| 0 <= i < |d.store.At(k)| && d.store.At(k)[i].id == d.nextId;
        assert Holds(d, k, i, d.nextId);
        assert false;
      }
      RemoveNewest(d.store.At(k), d.nextId, data);
    case Drag(w, resize, to) =>
      SameMap(Revert(Pushed(a, d), t).windows, d.windows);
  }

  // One redo of one edit, on any canvas with the same contents as before the edit.
  lemma OneRedo(d: Doc, a: Action, t: Doc, s: Canvas)
    requires s.doc == d && Reversible(a, d) && SameContents(t, d)
    ensures SameContents(Execute(Pushed(a, d), t), Act(s, a).doc)
  {
  }

  // ---- whole histories ----

  function Before(s: Canvas, edits: seq<Action>, i: nat): Canvas
    requires i <= |edits|
  {
    Run(s, edits[..i])
  }

  predicate ReversibleAt(s: Canvas, edits: seq<Action>, i: nat)
    requires i < |edits|
  {
    Reversible(edits[i], Before(s, edits, i).doc)
  }

  ghost predicate AllReversible(s: Canvas, edits: seq<Action>) {
    forall i :: 0 <= i < |edits| ==> ReversibleAt(s, edits, i)
  }

  function PushedAt(s: Canvas, edits: seq<Action>, i: nat): Command
    requires AllReversible(s, edits) && i < |edits|
  {
    assert ReversibleAt(s, edits, i);
    Pushed(edits[i], Before(s, edits, i).doc)
  }

  lemma OneMore(s: Canvas, edits: seq<Action>, i: nat)
    requires i < |edits|
    ensures Before(s, edits, i + 1) == Act(Before(s, edits, i), edits[i])
  {
    assert edits[..i + 1][..i] == edits[..i];
  }

  function Undos(s: Canvas, k: nat): Canvas {
    if k == 0 then s else Undo(Undos(s, k - 1))
  }

  function Redos(s: Canvas, k: nat): Canvas {
    if k == 0 then s else Redo(Redos(s, k - 1))
  }

  lemma {:induction false} StackLength(s: Canvas, edits: seq<Action>, i: nat)
    requires AllReversible(s, edits) && i <= |edits| && |s.undos| <= MAX_STACK_SIZE
    ensures var total := |s.undos| + i;
      |Before(s, edits, i).undos| == if total <= MAX_STACK_SIZE then total else MAX_STACK_SIZE
  {
    if i > 0 {
      StackLength(s, edits, i - 1);
      assert ReversibleAt(s, edits, i - 1);
      OneMore(s, edits, i - 1);
    }
  }

  // From an empty stack the last hundred edits can be undone.
  lemma StackHoldsHundred(s: Canvas, edits: seq<Action>)
    requires AllReversible(s, edits) && s.undos == []
    ensures |Run(s, edits).undos| == if |edits| <= 100 then |edits| else 100
  {
    StackLength(s, edits, |edits|);
    assert edits[..|edits|] == edits;
  }

  predicate IsEndOf(a: seq<Command>, b: seq<Command>) {
    |a| <= |b| && a == b[|b| - |a|..]
  }

  // What the canvas is after the edits and k undos.
  ghost predicate Undone(t: Canvas, s: Canvas, edits: seq<Action>, k: nat)
    requires AllReversible(s, edits) && k <= |edits|
  {
    var g := Before(s, edits, |edits| - k);
    && SameDoc(t.doc, g.doc)
    && IsEndOf(t.undos, g.undos) && |t.undos| == |Before(s, edits, |edits|).undos| - k
    && Waiting(t.redos, s, edits, k)
  }

  // The commands of the last k edits, the last one first.
  ghost predicate Waiting(redos: seq<Command>, s: Canvas, edits: seq<Action>, k: nat)
    requires AllReversible(s, edits) && k <= |edits|
  {
    |redos| == k && forall j :: 0 <= j < k ==> redos[j] == PushedAt(s, edits, |edits| - 1 - j)
  }

  lemma OneMoreWaiting(redos: seq<Command>, s: Canvas, edits: seq<Action>, k: nat)
    requires AllReversible(s, edits) && k < |edits| && Waiting(redos, s, edits, k)
    ensures Waiting(redos + [PushedAt(s, edits, |edits| - 1 - k)], s, edits, k + 1)
  {
  }

  // One undo, on any canvas whose undo stack is an end of the stack after the edit.
  lemma UndoEdit(g: Canvas, a: Action, t: Canvas)
    requires Inv(g) && Reversible(a, g.doc) && SameDoc(t.doc, Act(g, a).doc)
    requires t.undos != [] && IsEndOf(t.undos, Act(g, a).undos)
    ensures var c := Pushed(a, g.doc);
      && SameDoc(Undo(t).doc, g.doc) && IsEndOf(Undo(t).undos, g.undos)
      && Undo(t).redos == t.redos + [c] && |Undo(t).undos| == |t.undos| - 1
  {
    var h, last := Act(g, a), |t.undos| - 1;
    assert t.undos[last] == h.undos[|h.undos| - 1];
    OneUndo(g.doc, a, t.doc, g);
    assert t.undos[..last] == g.undos[|g.undos| - last..];
  }

  lemma UndoneStep(t: Canvas, s: Canvas, edits: seq<Action>, k: nat)
    requires Inv(s) && AllReversible(s, edits) && k < |edits| && k < MAX_STACK_SIZE && Undone(t, s, edits, k)
    ensures Undone(Undo(t), s, edits, k + 1)
  {
    var m := |edits| - k - 1;
    OneMore(s, edits, m);
    StackLength(s, edits, |edits|);
    RunKeepsInv(s, edits[..m]);
    assert ReversibleAt(s, edits, m);
    UndoEdit(Before(s, edits, m), edits[m], t);
    OneMoreWaiting(t.redos, s, edits, k);
  }

  // Undo takes back the last edits one by one, as many of them as the stack holds: the annotations
  // with their ids and order, and the windows, are exactly what they were.
  lemma {:induction false} UndoGoesBack(s: Canvas, edits: seq<Action>, k: nat)
    requires Inv(s) && AllReversible(s, edits) && edits != [] && k <= |edits| && k <= MAX_STACK_SIZE
    ensures Undone(Undos(Run(s, edits), k), s, edits, k)
  {
    if k == 0 {
      var n := |edits| - 1;
      assert edits[..n + 1] == edits;
      assert ReversibleAt(s, edits, n);
      OneMore(s, edits, n);
    } else {
      UndoGoesBack(s, edits, k - 1);
      UndoneStep(Undos(Run(s, edits), k - 1), s, edits, k - 1);
    }
  }

  // A canvas that has been undone as far as its redo stack says.
  ghost predicate Rewound(t: Canvas, s: Canvas, edits: seq<Action>) {
    AllReversible(s, edits) && |t.redos| <= |edits| && Undone(t, s, edits, |t.redos|)
  }

  // What the canvas is after j redos on top of that.
  ghost predicate Redone(r: Canvas, t: Canvas, s: Canvas, edits: seq<Action>, j: nat) {
    var k := |t.redos|;
    j <= k <= |edits| && SameContents(r.doc, Before(s, edits, |edits| - k + j).doc) && r.redos == t.redos[..k - j]
  }

  lemma RedoneStep(r: Canvas, t: Canvas, s: Canvas, edits: seq<Action>, j: nat)
    requires Rewound(t, s, edits) && j < |t.redos| && Redone(r, t, s, edits, j)
    ensures Redone(Redo(r), t, s, edits, j + 1)
  {
    var k := |t.redos|;
    var i := |edits| - k + j;
    OneMore(s, edits, i);
    assert r.redos[k - j - 1] == t.redos[k - j - 1] == PushedAt(s, edits, i);
    assert ReversibleAt(s, edits, i);
    OneRedo(Before(s, edits, i).doc, edits[i], r.doc, Before(s, edits, i));
    assert r.redos[..k - j - 1] == t.redos[..k - j - 1];
  }

  // j redos from t.
  ghost predicate RedoneAt(t: Canvas, s: Canvas, edits: seq<Action>, j: nat) {
    Redone(Redos(t, j), t, s, edits, j)
  }

  lemma RedoneNext(t: Canvas, s: Canvas, edits: seq<Action>, j: nat)
    requires Rewound(t, s, edits) && j < |t.redos| && RedoneAt(t, s, edits, j)
    ensures RedoneAt(t, s, edits, j + 1)
  {
    RedoneStep(Redos(t, j), t, s, edits, j);
  }

  lemma {:induction false} RedoSteps(t: Canvas, s: Canvas, edits: seq<Action>, j: nat)
    requires Rewound(t, s, edits) && j <= |t.redos|
    ensures RedoneAt(t, s, edits, j)
  {
    if j == 0 {
    } else {
      RedoSteps(t, s, edits, j - 1);
      RedoneNext(t, s, edits, j - 1);
    }
  }

  // Redo then brings them back one by one, the annotations up to their ids.
  lemma RedoGoesForward(s: Canvas, edits: seq<Action>, k: nat, j: nat)
    requires Inv(s) && AllReversible(s, edits) && edits != [] && j <= k <= |edits| && k <= MAX_STACK_SIZE
    ensures SameContents(Redos(Undos(Run(s, edits), k), j).doc, Before(s, edits, |edits| - k + j).doc)
  {
    UndoGoesBack(s, edits, k);
    UndoneIsRewound(Undos(Run(s, edits), k), s, edits, k);
    RedoSteps(Undos(Run(s, edits), k), s, edits, j);
  }

  lemma UndoneIsRewound(t: Canvas, s: Canvas, edits: seq<Action>, k: nat)
    requires AllReversible(s, edits) && k <= |edits| && Undone(t, s, edits, k)
    ensures Rewound(t, s, edits) && |t.redos| == k
  {
  }

  // ---- clearing, erasing, dragging ----

  // Undoing a clear restores all four lists, in order, up to ids.
  lemma ClearThenUndo(s: Canvas)
    ensures SameContents(Undo(Cleared(s)).doc, s.doc)
  {
    var c := Clear(s.doc.store);
    var e := s.doc.(store := EMPTY);
    RestoredAppends(e, s.doc.store);
    forall k
      ensures SameData(Restored(e, s.doc.store).store.At(k), s.doc.store.At(k))
    {
      var after := Restored(e, s.doc.store).store.At(k);
      assert Appends([], s.doc.store.At(k), after);
      assert after[0..] == after;
    }
    assert Undo(Cleared(s)).doc == Restored(e, s.doc.store);
    SameStoreAt(Restored(e, s.doc.store).store, s.doc.store);
  }

  // An erase takes one annotation out of its list.
  ghost predicate TakesOut(d: Doc, k: Kind, n: nat, e: Doc)
    requires n < |d.store.At(k)|
  {
    && e.store.At(k) == d.store.At(k)[..n] + d.store.At(k)[n + 1..]
    && (forall j :: j != k ==> e.store.At(j) == d.store.At(j)) && e.windows == d.windows
  }

  lemma ErasedTakesOut(s: Canvas, k: Kind, n: nat)
    requires Inv(s) && n < |s.doc.store.At(k)|
    ensures TakesOut(s.doc, k, n, Erased(s, k, n).doc)
  {
    CutAt(s.doc, k, s.doc.store.At(k)[n].id, n);
  }

  // Clearing one kind empties its list, and cannot be undone: the stacks stay.
  lemma ClearingKind(s: Canvas, k: Kind)
    ensures var t := Act(s, ClearKind(k));
      && t.doc.store.At(k) == [] && (forall j :: j != k ==> t.doc.store.At(j) == s.doc.store.At(j))
      && t.doc.windows == s.doc.windows && t.undos == s.undos && t.redos == s.redos
  {
  }

  // The end of a drag leaves the window where it was dragged, and is worth a command only if it was
  // moved, or in a resize got another geometry.
  lemma DragPushes(s: Canvas, w: WinId, resize: bool, to: Geometry)
    requires w in s.doc.windows
    ensures var t, was := Dragged(s, w, resize, to), s.doc.windows[w];
      && t.doc.store == s.doc.store && t.doc.windows == s.doc.windows[w := to]
      && if to.position == was.position && (resize ==> to.size == was.size)
         then t.undos == s.undos && t.redos == s.redos
         else t.redos == [] && t.undos != [] && t.undos[|t.undos| - 1] ==
              if resize then Resize(w, was, to) else Move(w, was.position, to.position)
  {
  }

  // Undoing an erase puts the annotation back last.
  lemma EraseThenUndo(s: Canvas, k: Kind, n: nat)
    requires Inv(s) && n < |s.doc.store.At(k)|
    ensures var list, e := s.doc.store.At(k), Undo(Erased(s, k, n)).doc;
      && e.store.At(k) == list[..n] + list[n + 1..] + [Item(s.doc.nextId, list[n].data)]
      && (forall j :: j != k ==> e.store.At(j) == s.doc.store.At(j))
      && e.windows == s.doc.windows
  {
    var list := s.doc.store.At(k);
    CutAt(s.doc, k, list[n].id, n);
  }

  predicate AllFrom(list: seq<Item>, n: nat, data: Data) {
    forall i :: n <= i < |list| ==> list[i].data == data
  }

  // Moving an item to the end goes unnoticed when nothing but its likes came after it.
  lemma {:induction false} MovedLast(list: seq<Item>, n: nat, id: nat)
    requires n < |list|
    ensures SameData(list[..n] + list[n + 1..] + [Item(id, list[n].data)], list) <==> AllFrom(list, n, list[n].data)
  {
    var moved := list[..n] + list[n + 1..] + [Item(id, list[n].data)];
    assert forall i :: n <= i < |list| - 1 ==> moved[i] == list[i + 1];
    if SameData(moved, list) {
      var i := n;
      while i + 1 < |list|
        invariant n <= i < |list|
        invariant forall j :: n <= j <= i ==> list[j].data == list[n].data
      {
        assert moved[i].data == list[i].data;
        i := i + 1;
      }
    }
  }

  // Undoing an erase restores the lists, up to ids, exactly when the erased annotation was the
  // newest of its kind, or all that came after it looked the same.
  lemma EraseUndoRestores(s: Canvas, k: Kind, n: nat)
    requires Inv(s) && n < |s.doc.store.At(k)|
    ensures SameContents(Undo(Erased(s, k, n)).doc, s.doc) <==> AllFrom(s.doc.store.At(k), n, s.doc.store.At(k)[n].data)
  {
    EraseThenUndo(s, k, n);
    MovedLast(s.doc.store.At(k), n, s.doc.nextId);
    var e := Undo(Erased(s, k, n)).doc;
    assert forall j :: j != k ==> SameData(e.store.At(j), s.doc.store.At(j));
    SameStoreAt(e.store, s.doc.store);
  }

  // The windows of a frame that tiles them anew when another one is dropped into it.
  function Tiled(s: Canvas, others: map<WinId, Geometry>): Canvas {
    s.(doc := s.doc.(windows := s.doc.windows + others))
  }

  // A move puts back the position alone, so a window that a frame has resized at the end of the
  // drag keeps its new size, and the windows that the frame has tiled with it stay on their tiles.
  lemma DragUndoRestores(s: Canvas, w: WinId, resize: bool, to: Geometry, others: map<WinId, Geometry>)
    requires w in s.doc.windows && w !in others && others.Keys <= s.doc.windows.Keys
    requires if resize then to != s.doc.windows[w] else to.position != s.doc.windows[w].position
    ensures var e := Undo(Dragged(Tiled(s, others), w, resize, to)).doc;
      && e.store == s.doc.store && e.windows.Keys == s.doc.windows.Keys
      && (e.windows[w] == s.doc.windows[w] <==> resize || to.size == s.doc.windows[w].size)
      && (forall v :: v in s.doc.windows && v != w ==>
           e.windows[v] == if v in others then others[v] else s.doc.windows[v])
      && (e == s.doc <==>
           && (resize || to.size == s.doc.windows[w].size)
           && forall v :: v in others ==> others[v] == s.doc.windows[v])
  {
    var e := Undo(Dragged(Tiled(s, others), w, resize, to)).doc;
    if e.windows[w] == s.doc.windows[w] && forall v :: v in others ==> others[v] == s.doc.windows[v] {
      SameMap(e.windows, s.doc.windows);
    }
  }

  // ---- undo then redo, and redo then undo, in any reachable state ----

  // What makes undo a no-op for the redo that follows it.
  ghost predicate UndoInvertible(c: Command, d: Doc) {
    match c
    case Add(k, id, data) => exists i :: Holds(d, k, i, id) && AllFrom(d.store.At(k), i, data)
    case Remove(_, _, _) => false
    case Clear(_) => SameStore(d.store, EMPTY)
    case Move(w, _, finish) => w in d.windows ==> d.windows[w].position == finish
    case Resize(w, _, after) => w in d.windows ==> d.windows[w] == after
  }

  ghost predicate RedoInvertible(c: Command, d: Doc) {
    match c
    case Add(_, _, _) => false
    case Remove(_, _, _) => false
    case Clear(saved) => SameStore(d.store, saved)
    case Move(w, start, _) => w in d.windows ==> d.windows[w].position == start
    case Resize(w, before, _) => w in d.windows ==> d.windows[w] == before
  }

  // Removing by an id that is out of use changes nothing.
  lemma RemoveStale(d: Doc, k: Kind, id: nat)
    requires Dead(d, id)
    ensures RemoveItem(d, k, id) == d
  {
    assert !LiveIn(d.store.At(k), id);
    WithoutKeeps(d.store.At(k), id);
    match k
    case Strokes =>
    case Arrows =>
    case Stickies =>
    case Texts =>
  }

  lemma AddThenRemoveStale(d: Doc, k: Kind, id: nat, data: Data)
    requires Numbered(d) && Dead(d, id) && id < d.nextId
    ensures RemoveItem(AddItem(d, k, data), k, id) == AddItem(d, k, data)
    ensures !SameContents(AddItem(d, k, data), d)
  {
    AddSound(d, k, data);
    DeadStays(d, AddItem(d, k, data), id);
    RemoveStale(AddItem(d, k, data), k, id);
    assert !SameData(AddItem(d, k, data).store.At(k), d.store.At(k));
    SameStoreAt(AddItem(d, k, data).store, d.store);
  }

  lemma AddUndoRedo(s: Canvas)
    requires Inv(s) && s.undos != [] && s.undos[|s.undos| - 1].Add?
    ensures SameContents(Redo(Undo(s)).doc, s.doc) <==> UndoInvertible(s.undos[|s.undos| - 1], s.doc)
  {
    var c := s.undos[|s.undos| - 1];
    var list, e := s.doc.store.At(c.kind), Redo(Undo(s)).doc;
    assert Honest(c, s.doc);
    SameStoreAt(e.store, s.doc.store);
    if LiveIn(list, c.id) {
      var i :| 0 <= i < |list| && list[i].id == c.id;
      assert Holds(s.doc, c.kind, i, c.id);
      CutAt(s.doc, c.kind, c.id, i);
      MovedLast(list, i, s.doc.nextId);
      assert forall j :: j != c.kind ==> SameData(e.store.At(j), s.doc.store.At(j));
    } else {
      WithoutKeeps(list, c.id);
      assert !SameData(e.store.At(c.kind), list);
      forall i
        ensures !Holds(s.doc, c.kind, i, c.id)
      {
      }
    }
  }

  // Undo and then redo leaves the contents alone in exactly these cases; an undone erase is never
  // redone, for its id is out of use for good.
  lemma UndoThenRedo(s: Canvas)
    requires Inv(s) && s.undos != []
    ensures SameContents(Redo(Undo(s)).doc, s.doc) <==> UndoInvertible(s.undos[|s.undos| - 1], s.doc)
  {
    var c := s.undos[|s.undos| - 1];
    assert Honest(c, s.doc);
    match c
    case Add(_, _, _) => AddUndoRedo(s);
    case Remove(k, id, data) => AddThenRemoveStale(s.doc, k, id, data);
    case Clear(saved) => RestoredAppends(s.doc, saved);
    case Move(w, start, finish) => MoveBack(s.doc, w, start, finish);
    case Resize(w, before, after) => ResizeBack(s.doc, w, before, after);
  }

  lemma MoveBack(d: Doc, w: WinId, a: Vec, b: Vec)
    ensures SameContents(Positioned(Positioned(d, w, a), w, b), d) <==> (w in d.windows ==> d.windows[w].position == b)
  {
  }

  lemma ResizeBack(d: Doc, w: WinId, a: Geometry, b: Geometry)
    ensures SameContents(Placed(Placed(d, w, a), w, b), d) <==> (w in d.windows ==> d.windows[w] == b)
  {
  }

  // Redo and then undo: never for an annotation, whose re-added copy has an id the command does
  // not know.
  lemma RedoThenUndo(s: Canvas)
    requires Inv(s) && s.redos != []
    ensures SameContents(Undo(Redo(s)).doc, s.doc) <==> RedoInvertible(s.redos[|s.redos| - 1], s.doc)
  {
    var c := s.redos[|s.redos| - 1];
    assert Spent(c, s.doc);
    match c
    case Add(k, id, data) => AddThenRemoveStale(s.doc, k, id, data);
    case Remove(k, id, data) =>
      RemoveStale(s.doc, k, id);
      AddThenRemoveStale(s.doc, k, id, data);
    case Clear(saved) => ClearRedoUndo(s, saved);
    case Move(w, start, finish) => MoveBack(s.doc, w, finish, start);
    case Resize(w, before, after) => ResizeBack(s.doc, w, after, before);
  }

  lemma ClearRedoUndo(s: Canvas, saved: Store)
    requires s.redos != [] && s.redos[|s.redos| - 1] == Clear(saved)
    ensures SameContents(Undo(Redo(s)).doc, s.doc) <==> SameStore(s.doc.store, saved)
  {
    var d := s.doc.(store := EMPTY);
    var e := Restored(d, saved);
    RestoredAppends(d, saved);
    forall k
      ensures SameData(e.store.At(k), saved.At(k))
    {
      assert Appends([], saved.At(k), e.store.At(k));
      assert e.store.At(k)[0..] == e.store.At(k);
    }
    assert Undo(Redo(s)).doc == e;
    SameStoreAt(e.store, s.doc.store);
    SameStoreAt(s.doc.store, saved);
    forall k
      ensures SameData(e.store.At(k), s.doc.store.At(k)) <==> SameData(s.doc.store.At(k), saved.At(k))
    {
      assert SameData(e.store.At(k), saved.At(k));
    }
  }

  // In any reachable state: draw, erase what was drawn, undo, undo. The second undo does nothing,
  // for the first one brought the drawing back under a fresh id.
  lemma StaleUndo(s: Canvas, k: Kind, data: Data)
    requires Inv(s)
    ensures var drawn := Drawn(s, k, data);
      SameContents(Undo(Undo(Erased(drawn, k, |s.doc.store.At(k)|))).doc, drawn.doc)
  {
    var drawn, n := Drawn(s, k, data), |s.doc.store.At(k)|;
    var back := Undo(Erased(drawn, k, n));
    DrawKeepsInv(s, k, data);
    EraseUndoRestores(drawn, k, n);
    EraseKeepsInv(drawn, k, n);
    var gone := Erased(drawn, k, n);
    var c := Add(k, s.doc.nextId, data);
    RemoveSound(drawn.doc, k, c.id);
    assert Honest(c, gone.doc) by {
      assert gone.undos[|gone.undos| - 2] == c;
    }
    assert Dead(gone.doc, c.id);
    AddSound(gone.doc, k, data);
    DeadStays(gone.doc, back.doc, c.id);
    RemoveStale(back.doc, k, c.id);
  }
}
