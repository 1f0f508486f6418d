// What each operation on a frame's tabs does: who is in which tab, which tab is active, and where the
// windows lie (src/canvas/CanvasFrame.cpp, src/canvas/CanvasFrameManager.cpp).
module TabEffects {
  import opened Common
  import opened Frames
  import opened Ids
  import opened Lists
  import opened TileLayout

  // The window has the place and the size of a tile of the frame.
  predicate LiesOn(f: Frame, p: Pane, tile: Box) {
    && p.position.x == f.position.x + tile.x && p.position.y == f.position.y + tile.y
    && p.size.x == tile.w && p.size.y == tile.h
  }

  // The mapped windows of the active tab lie on the tiles for their number, in order.
  ghost predicate Tiled(b: Board) {
    b.frame.active < |b.frame.tabs| &&
    var list := MappedIn(b.frame.tabs[b.frame.active], b.panes);
    var tiles := Tiles(b.frame.size, |list|);
    forall i :: 0 <= i < |list| ==> list[i] in b.panes && LiesOn(b.frame, b.panes[list[i]], tiles[i])
  }

  // 8000 below the frame, and 120 more for every tab before this one.
  predicate LiesBelow(f: Frame, tab: nat, p: Pane, q: Pane) {
    && q.position.x == f.position.x && q.position.y == f.position.y + f.size.y + 8000.0 + tab as real * 120.0
    && q.size == p.size && q.mapped == p.mapped
  }

  // Windows outside the active tab, and unmapped ones, stay as they are.
  ghost predicate OthersUntouched(b: Board, c: Board) {
    && c.panes.Keys == b.panes.Keys
    && (forall v :: v in b.panes ==> c.panes[v].mapped == b.panes[v].mapped)
    && c.frame.active < |c.frame.tabs|
    && forall v :: v in b.panes && !(v in c.frame.tabs[c.frame.active] && b.panes[v].mapped) ==> c.panes[v] == b.panes[v]
  }

  ghost predicate SamePlace(b: Board, c: Board) {
    c.frame.position == b.frame.position && c.frame.size == b.frame.size
  }

  // All windows but w are in the tabs that they were in, and in the same order.
  ghost predicate SameButFor(before: seq<seq<WinId>>, after: seq<seq<WinId>>, w: WinId) {
    && |after| == |before|
    && (forall t, v :: 0 <= t < |before| && v != w ==> (v in after[t] <==> v in before[t]))
    && forall t, i, j :: 0 <= t < |after| && 0 <= i < j < |after[t]| && after[t][i] != w && after[t][j] != w ==>
         Ahead(before[t], after[t][i], after[t][j])
  }

  lemma StrippedIs(tabs: seq<seq<WinId>>, w: WinId)
    requires OneSlot(tabs)
    ensures var bare := Stripped(tabs, w);
      OneSlot(bare) && SameButFor(tabs, bare, w) && forall t :: 0 <= t < |tabs| ==> w !in bare[t]
  {
    var bare := Stripped(tabs, w);
    StrippedSlots(tabs, w);
    forall t, i, j | 0 <= t < |bare| && 0 <= i < j < |bare[t]|
      ensures Ahead(tabs[t], bare[t][i], bare[t][j])
    {
      FilterInOrder(tabs[t], IsNot(w));
    }
  }

  lemma Retiling(b: Board, c: Board)
    requires c.frame.active < |c.frame.tabs| && OneSlot(c.frame.tabs) && c == Board(c.frame, Retiled(c.frame, b.panes))
    ensures Tiled(c) && OthersUntouched(b, c)
  {
    RetiledEffect(c.frame, b.panes);
  }

  // ---- assigning and unassigning

  // The window becomes the last of the active tab and is in no other; if it is mapped it has the
  // last tile.
  lemma AssignEffect(b: Board, w: WinId)
    requires Slots(b)
    ensures var c, a := Step(b, Assign(w)), b.frame.active;
      && SamePlace(b, c) && c.frame.active == a && SameButFor(b.frame.tabs, c.frame.tabs, w)
      && c.frame.tabs[a] != [] && c.frame.tabs[a][|c.frame.tabs[a]| - 1] == w
      && w !in c.frame.tabs[a][..|c.frame.tabs[a]| - 1]
      && (forall t :: 0 <= t < |c.frame.tabs| && t != a ==> w !in c.frame.tabs[t])
      && Tiled(c) && OthersUntouched(b, c)
      && (Shown(b.panes, w) ==>
            var n := |MappedIn(c.frame.tabs[a], c.panes)|;
            n > 0 && LiesOn(c.frame, c.panes[w], Tiles(c.frame.size, n)[n - 1]))
  {
    var c, a := Step(b, Assign(w)), b.frame.active;
    var bare := Stripped(b.frame.tabs, w);
    StrippedIs(b.frame.tabs, w);
    AssignedTabs(b.frame.tabs, bare, a, w);
    StepKeeps(b, Assign(w));
    Retiling(b, c);
    if Shown(b.panes, w) {
      LastShown(bare[a], w, c.panes);
    }
  }

  lemma AssignedTabs(before: seq<seq<WinId>>, bare: seq<seq<WinId>>, a: nat, w: WinId)
    requires SameButFor(before, bare, w) && a < |bare| && forall t :: 0 <= t < |bare| ==> w !in bare[t]
    ensures SameButFor(before, bare[a := bare[a] + [w]], w)
  {
    var after := bare[a := bare[a] + [w]];
    forall t, i, j | 0 <= t < |after| && 0 <= i < j < |after[t]| && after[t][i] != w && after[t][j] != w
      ensures Ahead(before[t], after[t][i], after[t][j])
    {
      assert after[t][i] == bare[t][i] && after[t][j] == bare[t][j];
    }
  }

  lemma LastShown(list: seq<WinId>, w: WinId, panes: Panes)
    requires Shown(panes, w)
    ensures var mapped := MappedIn(list + [w], panes);
      mapped != [] && mapped[|mapped| - 1] == w
  {
    FilterConcat(list, [w], IsShown(panes));
  }

  // The window is in no tab.
  lemma UnassignEffect(b: Board, w: WinId)
    requires Slots(b)
    ensures var c := Step(b, Unassign(w));
      && SamePlace(b, c) && c.frame.active == b.frame.active && SameButFor(b.frame.tabs, c.frame.tabs, w)
      && (forall t :: 0 <= t < |c.frame.tabs| ==> w !in c.frame.tabs[t])
      && Tiled(c) && OthersUntouched(b, c)
  {
    StrippedIs(b.frame.tabs, w);
    Retiling(b, Step(b, Unassign(w)));
  }

  // ---- changing tabs

  // The windows of a tab that was active lie below the frame, those of the new one on the tiles, and
  // all others where they were.
  ghost predicate Exchanged(b: Board, c: Board) {
    && SamePlace(b, c) && Tiled(c) && c.panes.Keys == b.panes.Keys && b.frame.active < |b.frame.tabs|
    && (forall v :: v in b.panes ==> c.panes[v].mapped == b.panes[v].mapped)
    && (forall v :: v in b.panes && b.panes[v].mapped && v in b.frame.tabs[b.frame.active] ==>
          LiesBelow(b.frame, b.frame.active, b.panes[v], c.panes[v]))
    && (forall v :: v in b.panes && !b.panes[v].mapped ==> c.panes[v] == b.panes[v])
    && forall v :: v in b.panes && v !in b.frame.tabs[b.frame.active] && v !in c.frame.tabs[c.frame.active] ==>
         c.panes[v] == b.panes[v]
  }

  // Parking one tab and tiling another.
  lemma Exchanging(b: Board, g: Frame)
    requires Slots(b) && g.active < |g.tabs| && OneSlot(g.tabs)
    requires g.position == b.frame.position && g.size == b.frame.size
    requires forall v :: v in g.tabs[g.active] ==> v !in b.frame.tabs[b.frame.active]
    ensures Exchanged(b, Board(g, Retiled(g, Parked(b.frame, b.panes, b.frame.active))))
  {
    var panes := Parked(b.frame, b.panes, b.frame.active);
    var c := Board(g, Retiled(g, panes));
    Retiling(b.(panes := panes), c);
  }

  // A tab that exists and is not active becomes active; any other number changes nothing.
  lemma SwitchEffect(b: Board, tab: int)
    requires Slots(b)
    ensures var c, n := Step(b, Switch(tab)), |b.frame.tabs|;
      if 0 <= tab < n && tab != b.frame.active then
        c.frame.tabs == b.frame.tabs && c.frame.active == tab && Exchanged(b, c)
      else c == b
  {
    if 0 <= tab < |b.frame.tabs| && tab != b.frame.active {
      Exchanging(b, b.frame.(active := tab));
    }
  }

  // The new tab is empty, last and active.
  lemma AddTabEffect(b: Board)
    requires Slots(b)
    ensures var c := Step(b, AddTab);
      c.frame.tabs == b.frame.tabs + [[]] && c.frame.active == |b.frame.tabs| && Exchanged(b, c)
  {
    var g := b.frame.(tabs := b.frame.tabs + [[]]);
    AddTabKeeps(b);
    Exchanging(b, g.(active := |b.frame.tabs|));
    assert Parked(g, b.panes, g.active) == Parked(b.frame, b.panes, b.frame.active) by {
      SameMap(Parked(g, b.panes, g.active), Parked(b.frame, b.panes, b.frame.active));
    }
  }

  // The active tab goes, unless it is the only one, and the one before it is active, or the first.
  lemma RemoveTabEffect(b: Board)
    requires Slots(b)
    ensures var c, a := Step(b, RemoveActiveTab), b.frame.active;
      if |b.frame.tabs| == 1 then c == b
      else
        && |c.frame.tabs| == |b.frame.tabs| - 1 && c.frame.active == (if a > 0 then a - 1 else 0)
        && (forall t :: 0 <= t < a ==> c.frame.tabs[t] == b.frame.tabs[t])
        && (forall t :: a <= t < |c.frame.tabs| ==> c.frame.tabs[t] == b.frame.tabs[t + 1])
        && Exchanged(b, c)
  {
    if |b.frame.tabs| > 1 {
      var g := Shortened(b.frame);
      ShortenedSlots(b.frame);
      ShortenedTab(b.frame, g.active);
      Exchanging(b, g);
    }
  }

  // nextTab goes to the tab after the active one and from the last to the first, prevTab back.
  lemma NextPrevEffect(b: Board)
    requires Slots(b)
    ensures var n, p, last := Step(b, Next).frame, Step(b, Prev).frame, |b.frame.tabs| - 1;
      && n.tabs == b.frame.tabs && p.tabs == b.frame.tabs
      && n.active == (if b.frame.active == last then 0 else b.frame.active + 1)
      && p.active == (if b.frame.active == 0 then last else b.frame.active - 1)
  {
    SwitchEffect(b, NextOf(b.frame));
    SwitchEffect(b, PrevOf(b.frame));
  }
}
