// The tabs of a frame: the windows of the active tab are tiled, the others are parked below
// (src/canvas/CanvasFrame.cpp, src/canvas/CanvasFrameManager.cpp).
module Frames {
  import opened Common
  import opened Ids
  import opened Lists
  import opened TileLayout

  const PARK_OFFSET := 8000.0
  const PARK_STEP := 120.0

  datatype FrameOf<+T> = Frame(position: Vec, size: Vec, tabs: T, active: nat)

  type Frame = FrameOf<seq<seq<WinId>>>

  datatype Pane = Pane(mapped: bool, position: Vec, size: Vec)

  type Panes = map<WinId, Pane>

  // The frame and all windows; a window that is not among the panes is gone.
  datatype BoardOf<+F, +P> = Board(frame: F, panes: P)

  type Board = BoardOf<Frame, Panes>

  predicate Shown(panes: Panes, w: WinId) {
    w in panes && panes[w].mapped
  }

  function IsShown(panes: Panes): WinId -> bool {
    w => Shown(panes, w)
  }

  function IsNot(w: WinId): WinId -> bool {
    v => v != w
  }

  function MappedIn(list: seq<WinId>, panes: Panes): (m: seq<WinId>)
    ensures forall w :: w in m <==> w in list && Shown(panes, w)
  {
    forall w ensures w in Filter(list, IsShown(panes)) <==> w in list && Shown(panes, w) {
      FilterMembers(list, IsShown(panes), w);
    }
    Filter(list, IsShown(panes))
  }

  // ---- tiling and parking ----

  function OnTile(p: Pane, origin: Vec, tile: Box): Pane {
    p.(position := Vec(origin.x + tile.x, origin.y + tile.y), size := Vec(tile.w, tile.h))
  }

  // The first n windows of the list have been put on their tiles.
  function PlacedUpTo(origin: Vec, panes: Panes, list: seq<WinId>, tiles: seq<Box>, n: nat): (after: Panes)
    requires n <= |list| && n <= |tiles| && forall w :: w in list ==> w in panes
    ensures after.Keys == panes.Keys
  {
    if n == 0 then panes
    else
      var before := PlacedUpTo(origin, panes, list, tiles, n - 1);
      before[list[n - 1] := OnTile(before[list[n - 1]], origin, tiles[n - 1])]
  }

  function Retiled(f: Frame, panes: Panes): Panes
    requires f.active < |f.tabs|
  {
    var list := MappedIn(f.tabs[f.active], panes);
    PlacedUpTo(f.position, panes, list, Tiles(f.size, |list|), |list|)
  }

  function ParkAt(f: Frame, tab: nat): Vec {
    Vec(f.position.x, f.position.y + f.size.y + PARK_OFFSET + tab as real * PARK_STEP)
  }

  function Parked(f: Frame, panes: Panes, tab: nat): (after: Panes)
    requires tab < |f.tabs|
    ensures after.Keys == panes.Keys
  {
    map w | w in panes ::
      if w in f.tabs[tab] && panes[w].mapped then panes[w].(position := ParkAt(f, tab)) else panes[w]
  }

  // ---- the operations ----

  function Stripped(tabs: seq<seq<WinId>>, w: WinId): (s: seq<seq<WinId>>)
    ensures |s| == |tabs|
    ensures forall t :: 0 <= t < |tabs| ==> s[t] == Filter(tabs[t], IsNot(w))
  {
    if tabs == [] then [] else Stripped(tabs[..|tabs| - 1], w) + [Filter(tabs[|tabs| - 1], IsNot(w))]
  }

  function Assigned(b: Board, w: WinId): (c: Board)
    requires b.frame.active < |b.frame.tabs|
    ensures c.frame.active < |c.frame.tabs|
  {
    var f := b.frame;
    var bare := Stripped(f.tabs, w);
    var g := f.(tabs := bare[f.active := bare[f.active] + [w]]);
    Board(g, Retiled(g, b.panes))
  }

  function Unassigned(b: Board, w: WinId): (c: Board)
    requires b.frame.active < |b.frame.tabs|
    ensures c.frame.active < |c.frame.tabs|
  {
    var g := b.frame.(tabs := Stripped(b.frame.tabs, w));
    Board(g, Retiled(g, b.panes))
  }

  function Switched(b: Board, tab: int): (c: Board)
    requires b.frame.active < |b.frame.tabs|
    ensures c.frame.active < |c.frame.tabs|
  {
    var f := b.frame;
    if tab < 0 || tab >= |f.tabs| || tab == f.active then b
    else
      var g := f.(active := tab);
      Board(g, Retiled(g, Parked(f, b.panes, f.active)))
  }

  function TabAdded(b: Board): (c: Board)
    requires b.frame.active < |b.frame.tabs|
    ensures c.frame.active < |c.frame.tabs|
  {
    Switched(b.(frame := b.frame.(tabs := b.frame.tabs + [[]])), |b.frame.tabs|)
  }

  function TabRemoved(b: Board): (c: Board)
    requires b.frame.active < |b.frame.tabs|
    ensures c.frame.active < |c.frame.tabs|
  {
    var f := b.frame;
    if |f.tabs| <= 1 then b
    else
      Board(Shortened(f), Retiled(Shortened(f), Parked(f, b.panes, f.active)))
  }

  function NextTab(b: Board): (c: Board)
    requires b.frame.active < |b.frame.tabs|
    ensures c.frame.active < |c.frame.tabs|
  {
    Switched(b, NextOf(b.frame))
  }

  function PrevTab(b: Board): (c: Board)
    requires b.frame.active < |b.frame.tabs|
    ensures c.frame.active < |c.frame.tabs|
  {
    Switched(b, PrevOf(b.frame))
  }

  datatype Op = Assign(w: WinId) | Unassign(w: WinId) | Switch(tab: int) | AddTab | RemoveActiveTab | Next | Prev

  function Step(b: Board, o: Op): (c: Board)
    requires b.frame.active < |b.frame.tabs|
    ensures c.frame.active < |c.frame.tabs|
  {
    match o
    case Assign(w) => Assigned(b, w)
    case Unassign(w) => Unassigned(b, w)
    case Switch(tab) => Switched(b, tab)
    case AddTab => TabAdded(b)
    case RemoveActiveTab => TabRemoved(b)
    case Next => NextTab(b)
    case Prev => PrevTab(b)
  }

  // ---- the invariant ----

  ghost predicate OneSlot(tabs: seq<seq<WinId>>) {
    && (forall t :: 0 <= t < |tabs| ==> Distinct(tabs[t]))
    && forall t, u, w :: 0 <= t < |tabs| && 0 <= u < |tabs| && w in tabs[t] && w in tabs[u] ==> t == u
  }

  // The mapped windows of the active tab lie exactly on the tiles for their number.
  ghost predicate AllOnTiles(f: Frame, panes: Panes)
    requires f.active < |f.tabs|
  {
    var list := MappedIn(f.tabs[f.active], panes);
    var tiles := Tiles(f.size, |list|);
    forall i :: 0 <= i < |list| ==> list[i] in panes && panes[list[i]] == OnTile(panes[list[i]], f.position, tiles[i])
  }

  predicate FarBelow(f: Frame, p: Pane) {
    p.position.x == f.position.x && p.position.y >= f.position.y + f.size.y + PARK_OFFSET
  }

  ghost predicate OthersParked(f: Frame, panes: Panes) {
    forall t, w :: 0 <= t < |f.tabs| && t != f.active && w in f.tabs[t] && Shown(panes, w) ==> FarBelow(f, panes[w])
  }

  // The part that does not speak of places.
  ghost predicate Slots(b: Board) {
    b.frame.active < |b.frame.tabs| && OneSlot(b.frame.tabs)
  }

  ghost predicate Inv(b: Board) {
    Slots(b) && AllOnTiles(b.frame, b.panes) && OthersParked(b.frame, b.panes)
  }

  // The operations that tile, at least one tab being there.
  predicate Tiling(b: Board, o: Op) {
    match o
    case Assign(_) => true
    case Unassign(_) => true
    case Switch(tab) => 0 <= tab < |b.frame.tabs| && tab != b.frame.active
    case AddTab => true
    case RemoveActiveTab => |b.frame.tabs| > 1
    case Next => |b.frame.tabs| > 1
    case Prev => |b.frame.tabs| > 1
  }

  // A new frame has one empty tab.
  lemma NewFrame(position: Vec, size: Vec, panes: Panes)
    ensures Inv(Board(Frame(position, size, [[]], 0), panes))
  {
  }

  lemma {:induction false} PlacedAt(origin: Vec, panes: Panes, list: seq<WinId>, tiles: seq<Box>, n: nat)
    requires n <= |list| && n <= |tiles| && Distinct(list) && forall w :: w in list ==> w in panes
    ensures var after := PlacedUpTo(origin, panes, list, tiles, n);
      && (forall i :: 0 <= i < n ==> after[list[i]] == OnTile(panes[list[i]], origin, tiles[i]))
      && (forall w :: w in panes && w !in list[..n] ==> after[w] == panes[w])
  {
    if n > 0 {
      PlacedAt(origin, panes, list, tiles, n - 1);
      var last, before := list[n - 1], PlacedUpTo(origin, panes, list, tiles, n - 1);
      TakeOneMore(list, n - 1);
      assert last !in list[..n - 1];
      assert before[last] == panes[last];
      forall i | 0 <= i < n - 1
        ensures PlacedUpTo(origin, panes, list, tiles, n)[list[i]] == before[list[i]]
      {
        assert list[i] != last;
      }
    }
  }

  // Tiling puts the active tab in place and touches no other window.
  lemma RetiledEffect(f: Frame, panes: Panes)
    requires f.active < |f.tabs| && Distinct(f.tabs[f.active])
    ensures var after := Retiled(f, panes);
      && after.Keys == panes.Keys
      && (forall w :: w in panes ==> after[w].mapped == panes[w].mapped)
      && (forall w :: w in panes && !(w in f.tabs[f.active] && panes[w].mapped) ==> after[w] == panes[w])
      && AllOnTiles(f, after)
  {
    var list := MappedIn(f.tabs[f.active], panes);
    var tiles := Tiles(f.size, |list|);
    var after := Retiled(f, panes);
    FilterDistinct(f.tabs[f.active], IsShown(panes));
    PlacedAt(f.position, panes, list, tiles, |list|);
    assert list[..|list|] == list;
    forall w | w in panes
      ensures after[w].mapped == panes[w].mapped
    {
      if w in list {
        var i :| 0 <= i < |list| && list[i] == w;
        assert after[list[i]] == OnTile(panes[list[i]], f.position, tiles[i]);
      }
    }
    FilterSame(f.tabs[f.active], IsShown(panes), IsShown(after));
    assert MappedIn(f.tabs[f.active], after) == list;
  }

  // What an operation keeps, wherever the windows were before: it tiles or does nothing, and if the
  // other tabs' windows were parked far below, they are.
  ghost predicate Keeps(b: Board, c: Board, tiling: bool)
    requires Slots(b)
  {
    && Slots(c) && (if tiling then AllOnTiles(c.frame, c.panes) else c == b)
    && (OthersParked(b.frame, b.panes) ==> OthersParked(c.frame, c.panes))
  }

  // A change of the tabs or of the active tab, followed by tiling.
  lemma RetilingKeeps(f: Frame, panes: Panes)
    requires f.active < |f.tabs| && OneSlot(f.tabs)
    ensures AllOnTiles(f, Retiled(f, panes))
    ensures OthersParked(f, panes) ==> OthersParked(f, Retiled(f, panes))
  {
    RetiledEffect(f, panes);
    var after := Retiled(f, panes);
    forall t, w | OthersParked(f, panes) && 0 <= t < |f.tabs| && t != f.active && w in f.tabs[t] && Shown(after, w)
      ensures FarBelow(f, after[w])
    {
      assert w !in f.tabs[f.active];
    }
  }

  lemma StrippedSlots(tabs: seq<seq<WinId>>, w: WinId)
    requires OneSlot(tabs)
    ensures OneSlot(Stripped(tabs, w))
    ensures forall t, v :: 0 <= t < |tabs| ==> (v in Stripped(tabs, w)[t] <==> v in tabs[t] && v != w)
  {
    var bare := Stripped(tabs, w);
    forall t, v | 0 <= t < |tabs|
      ensures v in bare[t] <==> v in tabs[t] && v != w
    {
      FilterMembers(tabs[t], IsNot(w), v);
    }
    forall t | 0 <= t < |tabs|
      ensures Distinct(bare[t])
    {
      FilterDistinct(tabs[t], IsNot(w));
    }
  }

  lemma AssignKeeps(b: Board, w: WinId)
    requires Slots(b)
    ensures Keeps(b, Assigned(b, w), true)
  {
    var f := b.frame;
    var bare := Stripped(f.tabs, w);
    StrippedSlots(f.tabs, w);
    var tabs := bare[f.active := bare[f.active] + [w]];
    forall t, v | 0 <= t < |tabs|
      ensures v in tabs[t] <==> (v in f.tabs[t] && v != w) || (t == f.active && v == w)
    {
    }
    assert Distinct(tabs[f.active]) by {
      assert w !in bare[f.active];
    }
    RetilingKeeps(f.(tabs := tabs), b.panes);
  }

  lemma UnassignKeeps(b: Board, w: WinId)
    requires Slots(b)
    ensures Keeps(b, Unassigned(b, w), true)
  {
    StrippedSlots(b.frame.tabs, w);
    RetilingKeeps(b.frame.(tabs := Stripped(b.frame.tabs, w)), b.panes);
  }

  lemma SwitchKeeps(b: Board, tab: int)
    requires Slots(b)
    ensures Keeps(b, Switched(b, tab), 0 <= tab < |b.frame.tabs| && tab != b.frame.active)
  {
    var f := b.frame;
    if 0 <= tab < |f.tabs| && tab != f.active {
      var panes := Parked(f, b.panes, f.active);
      assert OthersParked(f, b.panes) ==> OthersParked(f.(active := tab), panes);
      RetilingKeeps(f.(active := tab), panes);
    }
  }

  lemma AddTabKeeps(b: Board)
    requires Slots(b)
    ensures Keeps(b, TabAdded(b), true)
  {
    var c := b.(frame := b.frame.(tabs := b.frame.tabs + [[]]));
    assert OthersParked(b.frame, b.panes) ==> OthersParked(c.frame, c.panes);
    SwitchKeeps(c, |b.frame.tabs|);
  }

  // Tab t of the tabs without tab a.
  function Before(t: nat, a: nat): nat {
    if t < a then t else t + 1
  }

  // The tabs without the active one, and the one before it active.
  function Shortened(f: Frame): Frame
    requires f.active < |f.tabs|
  {
    f.(tabs := f.tabs[..f.active] + f.tabs[f.active + 1..], active := if f.active == 0 then 0 else f.active - 1)
  }

  lemma ShortenedTab(f: Frame, t: nat)
    requires f.active < |f.tabs| && t < |Shortened(f).tabs|
    ensures var u := Before(t, f.active);
      u < |f.tabs| && u != f.active && Shortened(f).tabs[t] == f.tabs[u]
  {
  }

  lemma ShortenedSlots(f: Frame)
    requires f.active < |f.tabs| && OneSlot(f.tabs)
    ensures OneSlot(Shortened(f).tabs)
  {
    var tabs := Shortened(f).tabs;
    forall t | 0 <= t < |tabs|
      ensures Distinct(tabs[t])
    {
      ShortenedTab(f, t);
    }
    forall t, u, w | 0 <= t < |tabs| && 0 <= u < |tabs| && w in tabs[t] && w in tabs[u]
      ensures t == u
    {
      ShortenedTab(f, t);
      ShortenedTab(f, u);
    }
  }

  lemma ShortenedParked(f: Frame, panes: Panes)
    requires f.active < |f.tabs| && OneSlot(f.tabs) && OthersParked(f, panes)
    ensures OthersParked(Shortened(f), Parked(f, panes, f.active))
  {
    var g, after := Shortened(f), Parked(f, panes, f.active);
    forall t, w | 0 <= t < |g.tabs| && t != g.active && w in g.tabs[t] && Shown(after, w)
      ensures FarBelow(g, after[w])
    {
      ShortenedTab(f, t);
      assert w !in f.tabs[f.active];
      assert after[w] == panes[w];
    }
  }

  lemma RemoveTabKeeps(b: Board)
    requires Slots(b)
    ensures Keeps(b, TabRemoved(b), |b.frame.tabs| > 1)
  {
    var f := b.frame;
    if |f.tabs| > 1 {
      ShortenedSlots(f);
      if OthersParked(f, b.panes) {
        ShortenedParked(f, b.panes);
      }
      RetilingKeeps(Shortened(f), Parked(f, b.panes, f.active));
    }
  }

  lemma StepKeeps(b: Board, o: Op)
    requires Slots(b)
    ensures Keeps(b, Step(b, o), Tiling(b, o))
  {
    match o
    case Assign(w) => AssignKeeps(b, w);
    case Unassign(w) => UnassignKeeps(b, w);
    case Switch(tab) => SwitchKeeps(b, tab);
    case AddTab => AddTabKeeps(b);
    case RemoveActiveTab => RemoveTabKeeps(b);
    case Next => SwitchKeeps(b, NextOf(b.frame));
    case Prev => SwitchKeeps(b, PrevOf(b.frame));
  }

  // In every run the frame has a tab and an active one, every window fills at most one slot, the
  // mapped windows of the active tab are on their tiles and those of the other tabs far below.
  lemma StepKeepsInv(b: Board, o: Op)
    requires Inv(b)
    ensures Inv(Step(b, o))
  {
    StepKeeps(b, o);
  }

  function Run(b: Board, ops: seq<Op>): (c: Board)
    requires b.frame.active < |b.frame.tabs|
    ensures c.frame.active < |c.frame.tabs|
  {
    if ops == [] then b else Step(Run(b, ops[..|ops| - 1]), ops[|ops| - 1])
  }

  lemma {:induction false} RunKeepsInv(b: Board, ops: seq<Op>)
    requires Inv(b)
    ensures Inv(Run(b, ops))
  {
    if ops != [] {
      RunKeepsInv(b, ops[..|ops| - 1]);
      StepKeepsInv(Run(b, ops[..|ops| - 1]), ops[|ops| - 1]);
    }
  }

  // ---- there and back ----

  lemma SwitchEffect(b: Board, tab: nat)
    requires Inv(b) && tab < |b.frame.tabs| && tab != b.frame.active
    ensures var c := Switched(b, tab);
      && c.frame == b.frame.(active := tab) && c.panes.Keys == b.panes.Keys
      && (forall w :: w in b.panes ==> c.panes[w].mapped == b.panes[w].mapped)
      && (forall w :: w in b.panes && w !in b.frame.tabs[tab] && w !in b.frame.tabs[b.frame.active] ==>
           c.panes[w] == b.panes[w])
      && (forall w :: w in b.panes && !b.panes[w].mapped ==> c.panes[w] == b.panes[w])
      && (forall w :: w in b.frame.tabs[b.frame.active] && Shown(b.panes, w) ==>
           c.panes[w] == b.panes[w].(position := ParkAt(b.frame, b.frame.active)))
  {
    RetiledEffect(b.frame.(active := tab), Parked(b.frame, b.panes, b.frame.active));
  }

  // The tiles decide where the windows of the active tab are.
  lemma TilesDecide(f: Frame, p: Panes, q: Panes)
    requires f.active < |f.tabs| && AllOnTiles(f, p) && AllOnTiles(f, q)
    requires q.Keys == p.Keys && forall w :: w in p ==> q[w].mapped == p[w].mapped
    ensures forall w :: w in f.tabs[f.active] && Shown(p, w) ==> q[w] == p[w]
  {
    FilterSame(f.tabs[f.active], IsShown(p), IsShown(q));
    var list := MappedIn(f.tabs[f.active], p);
    assert MappedIn(f.tabs[f.active], q) == list;
    forall w | w in list
      ensures q[w] == p[w]
    {
      var i :| 0 <= i < |list| && list[i] == w;
    }
  }

  // Going to another tab and back restores the tab and the geometry of its windows; of the other
  // windows only those of the visited tab have moved, and they are parked again.
  lemma ThereAndBack(b: Board, tab: nat)
    requires Inv(b) && tab < |b.frame.tabs| && tab != b.frame.active
    ensures var c := Switched(Switched(b, tab), b.frame.active);
      && c.frame == b.frame && c.panes.Keys == b.panes.Keys
      && (forall w :: w in b.panes && !(w in b.frame.tabs[tab] && b.panes[w].mapped) ==> c.panes[w] == b.panes[w])
      && (forall w :: w in b.frame.tabs[tab] && Shown(b.panes, w) ==>
           w in c.panes && c.panes[w].position == ParkAt(b.frame, tab))
  {
    var there := Switched(b, tab);
    SwitchKeeps(b, tab);
    SwitchEffect(b, tab);
    SwitchEffect(there, b.frame.active);
    SwitchKeeps(there, b.frame.active);
    TilesDecide(b.frame, b.panes, Switched(there, b.frame.active).panes);
  }

  // The same frame, with the active tab's windows where they were.
  ghost predicate Returned(b: Board, c: Board)
    requires b.frame.active < |b.frame.tabs|
  {
    && c.frame == b.frame && c.panes.Keys == b.panes.Keys
    && forall w :: w in b.panes && w in b.frame.tabs[b.frame.active] ==> c.panes[w] == b.panes[w]
  }

  lemma BackAgain(b: Board, tab: nat)
    requires Inv(b) && tab < |b.frame.tabs|
    ensures Returned(b, Switched(Switched(b, tab), b.frame.active))
  {
    if tab != b.frame.active {
      ThereAndBack(b, tab);
    }
  }

  function NextOf(f: Frame): (t: nat)
    requires f.active < |f.tabs|
    ensures t < |f.tabs|
  {
    Turn(f.active + 1, |f.tabs|)
  }

  function PrevOf(f: Frame): (t: nat)
    requires f.active < |f.tabs|
    ensures t < |f.tabs|
  {
    Turn(f.active - 1 + |f.tabs|, |f.tabs|)
  }

  // nextTab and then prevTab, and the other way round.
  lemma NextThenPrev(b: Board)
    requires Inv(b)
    ensures Returned(b, PrevTab(NextTab(b)))
  {
    BackAgain(b, NextOf(b.frame));
  }

  lemma PrevThenNext(b: Board)
    requires Inv(b)
    ensures Returned(b, NextTab(PrevTab(b)))
  {
    BackAgain(b, PrevOf(b.frame));
  }
}
