// A frame that is dragged, and windows that come and go behind its back, and where that leaves its
// windows (src/canvas/CanvasFrameManager.cpp, src/canvas/CanvasFrame.cpp).
module FrameDrags {
  import opened Common
  import opened Frames
  import opened Ids
  import opened Lists
  import opened TileLayout

  // A drag moves the frame alone.
  function Moved(b: Board, position: Vec): Board {
    b.(frame := b.frame.(position := position))
  }

  // How far a window lies below the line that the others are parked from.
  function Slack(f: Frame, p: Pane): real {
    p.position.y - (f.position.y + f.size.y + PARK_OFFSET)
  }

  // The mapped windows of the other tabs.
  ghost predicate Hidden(b: Board, t: nat, w: WinId) {
    t < |b.frame.tabs| && t != b.frame.active && w in b.frame.tabs[t] && Shown(b.panes, w)
  }

  // No window of another tab, or straight up, or straight down by no more than each of them lies
  // below the line.
  ghost predicate SafeDrag(b: Board, position: Vec) {
    forall t, w :: Hidden(b, t, w) ==>
      position.x == b.frame.position.x && position.y - b.frame.position.y <= Slack(b.frame, b.panes[w])
  }

  // After a drag the windows of the other tabs are still parked far below exactly when it was safe,
  // and neither the drag nor the tiling after it moves them; those of the active tab are off their
  // tiles until that tiling, unless there are none or the frame did not move.
  lemma DragExactly(b: Board, position: Vec)
    requires Inv(b)
    ensures var c := Moved(b, position);
      && Slots(c)
      && (OthersParked(c.frame, c.panes) <==> SafeDrag(b, position))
      && (AllOnTiles(c.frame, c.panes) <==>
            position == b.frame.position || MappedIn(b.frame.tabs[b.frame.active], b.panes) == [])
      && (Inv(Board(c.frame, Retiled(c.frame, c.panes))) <==> SafeDrag(b, position))
  {
    var c := Moved(b, position);
    DragParks(b, position);
    DragTiles(b, position);
    RetiledParks(c.frame, c.panes);
  }

  lemma DragParks(b: Board, position: Vec)
    requires Slots(b) && OthersParked(b.frame, b.panes)
    ensures OthersParked(Moved(b, position).frame, b.panes) <==> SafeDrag(b, position)
  {
    var f := Moved(b, position).frame;
    forall t, w | Hidden(b, t, w)
      ensures FarBelow(f, b.panes[w]) <==>
              position.x == b.frame.position.x && position.y - b.frame.position.y <= Slack(b.frame, b.panes[w])
    {
      assert FarBelow(b.frame, b.panes[w]);
    }
    if OthersParked(f, b.panes) {
      forall t, w | Hidden(b, t, w)
        ensures FarBelow(f, b.panes[w])
      {
      }
    }
    if SafeDrag(b, position) {
      forall t, w | 0 <= t < |f.tabs| && t != f.active && w in f.tabs[t] && Shown(b.panes, w)
        ensures FarBelow(f, b.panes[w])
      {
        assert Hidden(b, t, w);
      }
    }
  }

  lemma DragTiles(b: Board, position: Vec)
    requires Slots(b) && AllOnTiles(b.frame, b.panes)
    ensures AllOnTiles(Moved(b, position).frame, b.panes)
       <==> position == b.frame.position || MappedIn(b.frame.tabs[b.frame.active], b.panes) == []
  {
    var f := Moved(b, position).frame;
    var list := MappedIn(b.frame.tabs[b.frame.active], b.panes);
    if list != [] && AllOnTiles(f, b.panes) {
      assert b.panes[list[0]] == OnTile(b.panes[list[0]], position, Tiles(f.size, |list|)[0]);
    }
  }

  // Tiling leaves the windows of the other tabs where they are.
  lemma RetiledParks(f: Frame, panes: Panes)
    requires f.active < |f.tabs| && OneSlot(f.tabs)
    ensures AllOnTiles(f, Retiled(f, panes))
    ensures OthersParked(f, Retiled(f, panes)) <==> OthersParked(f, panes)
  {
    RetiledEffect(f, panes);
    var after := Retiled(f, panes);
    forall t, w | 0 <= t < |f.tabs| && t != f.active && w in f.tabs[t]
      ensures Shown(after, w) <==> Shown(panes, w)
      ensures Shown(panes, w) ==> after[w] == panes[w]
    {
      assert w !in f.tabs[f.active];
    }
  }

  // When every window is parked as its own tab says, a drag is safe exactly when no other tab has
  // mapped windows, or it goes straight and not farther down than the first of those tabs allows.
  lemma SafeDragByTab(b: Board, position: Vec)
    requires forall t, w :: Hidden(b, t, w) ==> b.panes[w].position == ParkAt(b.frame, t)
    ensures SafeDrag(b, position) <==>
            forall t :: HasHidden(b, t) ==>
              position.x == b.frame.position.x && position.y - b.frame.position.y <= t as real * PARK_STEP
  {
    forall t, w | Hidden(b, t, w)
      ensures Slack(b.frame, b.panes[w]) == t as real * PARK_STEP && HasHidden(b, t)
    {
    }
    if SafeDrag(b, position) {
      forall t | HasHidden(b, t)
        ensures position.x == b.frame.position.x && position.y - b.frame.position.y <= t as real * PARK_STEP
      {
        var w :| Hidden(b, t, w);
      }
    }
  }

  ghost predicate HasHidden(b: Board, t: nat) {
    exists w :: Hidden(b, t, w)
  }

  // ---- windows that come and go

  // A window is mapped, unmapped or moved by someone else, or it is gone.
  function Changed(b: Board, w: WinId, pane: Option<Pane>): Board {
    b.(panes := if pane.Some? then b.panes[w := pane.value] else b.panes - {w})
  }

  // It is not a mapped window of another tab then, or already far below.
  ghost predicate SafeChange(b: Board, w: WinId, pane: Option<Pane>) {
    pane.Some? && pane.value.mapped && (exists t :: InOther(b.frame, t, w)) ==> FarBelow(b.frame, pane.value)
  }

  ghost predicate InOther(f: Frame, t: nat, w: WinId) {
    t < |f.tabs| && t != f.active && w in f.tabs[t]
  }

  // The other tabs' windows stay far below exactly when the change was safe; the active tab's stay on
  // their tiles unless it was one of them.
  lemma ChangeExactly(b: Board, w: WinId, pane: Option<Pane>)
    requires Slots(b)
    ensures var c := Changed(b, w, pane);
      && Slots(c)
      && (OthersParked(b.frame, b.panes) ==> (OthersParked(c.frame, c.panes) <==> SafeChange(b, w, pane)))
      && (w !in b.frame.tabs[b.frame.active] && AllOnTiles(b.frame, b.panes) ==> AllOnTiles(c.frame, c.panes))
  {
    if OthersParked(b.frame, b.panes) {
      ChangeParks(b, w, pane);
    }
    if w !in b.frame.tabs[b.frame.active] && AllOnTiles(b.frame, b.panes) {
      ChangeTiles(b, w, pane);
    }
  }

  lemma ChangeParks(b: Board, w: WinId, pane: Option<Pane>)
    requires Slots(b) && OthersParked(b.frame, b.panes)
    ensures OthersParked(b.frame, Changed(b, w, pane).panes) <==> SafeChange(b, w, pane)
  {
    var after := Changed(b, w, pane).panes;
    if OthersParked(b.frame, after) && pane.Some? && pane.value.mapped {
      forall t | InOther(b.frame, t, w)
        ensures FarBelow(b.frame, pane.value)
      {
        assert Shown(after, w) && after[w] == pane.value;
      }
    }
    if SafeChange(b, w, pane) {
      forall t, v | 0 <= t < |b.frame.tabs| && t != b.frame.active && v in b.frame.tabs[t] && Shown(after, v)
        ensures FarBelow(b.frame, after[v])
      {
        assert InOther(b.frame, t, v);
        assert v != w ==> Shown(b.panes, v) && after[v] == b.panes[v];
      }
    }
  }

  lemma ChangeTiles(b: Board, w: WinId, pane: Option<Pane>)
    requires Slots(b) && AllOnTiles(b.frame, b.panes) && w !in b.frame.tabs[b.frame.active]
    ensures AllOnTiles(b.frame, Changed(b, w, pane).panes)
  {
    var tab, after := b.frame.tabs[b.frame.active], Changed(b, w, pane).panes;
    FilterSame(tab, IsShown(b.panes), IsShown(after));
    var list := MappedIn(tab, b.panes);
    assert MappedIn(tab, after) == list;
    forall i | 0 <= i < |list|
      ensures list[i] in after && after[list[i]] == b.panes[list[i]]
    {
      assert list[i] in tab;
    }
  }

  // ---- runs with all of these

  datatype Event = OnTabs(o: Op) | Drag(position: Vec) | Change(w: WinId, pane: Option<Pane>)

  function After(b: Board, e: Event): (c: Board)
    requires b.frame.active < |b.frame.tabs|
    ensures c.frame.active < |c.frame.tabs|
  {
    match e
    case OnTabs(o) => Step(b, o)
    case Drag(position) => Moved(b, position)
    case Change(w, pane) => Changed(b, w, pane)
  }

  function Played(b: Board, events: seq<Event>): (c: Board)
    requires b.frame.active < |b.frame.tabs|
    ensures c.frame.active < |c.frame.tabs|
  {
    if events == [] then b else After(Played(b, events[..|events| - 1]), events[|events| - 1])
  }

  ghost predicate Safe(b: Board, e: Event) {
    match e
    case OnTabs(_) => true
    case Drag(position) => SafeDrag(b, position)
    case Change(w, pane) => SafeChange(b, w, pane)
  }

  ghost predicate SafeAt(b: Board, events: seq<Event>, i: nat)
    requires b.frame.active < |b.frame.tabs| && i < |events|
  {
    Safe(Played(b, events[..i]), events[i])
  }

  ghost predicate AllSafe(b: Board, events: seq<Event>)
    requires b.frame.active < |b.frame.tabs|
  {
    forall i :: 0 <= i < |events| ==> SafeAt(b, events, i)
  }

  predicate TilingEvent(b: Board, e: Event) {
    e.OnTabs? && Tiling(b, e.o)
  }

  lemma EventKeeps(b: Board, e: Event)
    requires Slots(b)
    ensures var c := After(b, e);
      && Slots(c) && (TilingEvent(b, e) ==> AllOnTiles(c.frame, c.panes))
      && (OthersParked(b.frame, b.panes) ==> (OthersParked(c.frame, c.panes) <==> Safe(b, e)))
  {
    match e
    case OnTabs(o) => StepKeeps(b, o);
    case Drag(position) =>
      if OthersParked(b.frame, b.panes) {
        DragParks(b, position);
      }
    case Change(w, pane) => ChangeExactly(b, w, pane);
  }

  // Whatever happens in between, the slots stay in order and every operation that tiles brings the
  // active tab into place; when all is safe, the other tabs' windows stay far below throughout.
  lemma {:induction false} RunKeepsSlots(b: Board, events: seq<Event>)
    requires Slots(b)
    ensures var c := Played(b, events);
      && Slots(c)
      && (events != [] && TilingEvent(Played(b, events[..|events| - 1]), events[|events| - 1]) ==>
            AllOnTiles(c.frame, c.panes))
      && (OthersParked(b.frame, b.panes) && AllSafe(b, events) ==> OthersParked(c.frame, c.panes))
  {
    if events != [] {
      var most, last := events[..|events| - 1], events[|events| - 1];
      RunKeepsSlots(b, most);
      EventKeeps(Played(b, most), last);
      if AllSafe(b, events) {
        SafeSoFar(b, events);
        assert SafeAt(b, events, |events| - 1);
      }
    }
  }

  lemma SafeSoFar(b: Board, events: seq<Event>)
    requires b.frame.active < |b.frame.tabs| && events != [] && AllSafe(b, events)
    ensures AllSafe(b, events[..|events| - 1])
  {
    var most := events[..|events| - 1];
    forall i | 0 <= i < |most|
      ensures SafeAt(b, most, i)
    {
      assert most[..i] == events[..i] && SafeAt(b, events, i);
    }
  }
}
