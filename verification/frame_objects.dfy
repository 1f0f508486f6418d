// A frame as an object that is updated in place (src/canvas/CanvasFrame.cpp), and the list of all
// frames (src/canvas/CanvasFrameManager.cpp).
module FrameObjects {
  import opened Common
  import opened Ids
  import F = Frames
  import L = Lists
  import T = TileLayout

  class CanvasFrame {
    var position: Vec
    var size: Vec
    var tabs: seq<seq<WinId>>
    var activeTab: nat
    var panes: F.Panes

    ghost predicate Valid()
      reads this
    {
      activeTab < |tabs|
    }

    ghost function View(): F.Board
      reads this
    {
      F.Board(F.Frame(position, size, tabs, activeTab), panes)
    }

    constructor (pos: Vec, extent: Vec, windows: F.Panes)
      ensures Valid() && View() == F.Board(F.Frame(pos, extent, [[]], 0), windows)
    {
      position, size, tabs, activeTab, panes := pos, extent, [[]], 0, windows;
    }

    method FindMapped(list: seq<WinId>) returns (mapped: seq<WinId>)
      ensures mapped == F.MappedIn(list, panes)
    {
      mapped := [];
      for i := 0 to |list|
        invariant mapped == L.Filter(list[..i], F.IsShown(panes))
      {
        assert list[..i + 1] == list[..i] + [list[i]];
        L.FilterConcat(list[..i], [list[i]], F.IsShown(panes));
        if list[i] in panes && panes[list[i]].mapped {
          mapped := mapped + [list[i]];
        }
      }
      assert list[..|list|] == list;
    }

    method Retile()
      requires Valid()
      modifies this`panes
      ensures View() == F.Board(old(View()).frame, F.Retiled(old(View()).frame, old(panes)))
    {
      var mapped := FindMapped(tabs[activeTab]);
      var tiles := T.ComputeTileLayout(size, |mapped|);
      var i := 0;
      while i < |mapped| && i < |tiles|
        invariant 0 <= i <= |mapped|
        invariant panes == F.PlacedUpTo(position, old(panes), mapped, tiles, i)
      {
        var w := mapped[i];
        assert w in mapped;
        panes := panes[w := F.OnTile(panes[w], position, tiles[i])];
        i := i + 1;
      }
    }

    // The loop that parks the mapped windows of the active tab.
    method ParkActiveTab()
      requires Valid()
      modifies this`panes
      ensures panes == F.Parked(old(View()).frame, old(panes), activeTab)
    {
      var list := tabs[activeTab];
      var spot := F.ParkAt(F.Frame(position, size, tabs, activeTab), activeTab);
      for i := 0 to |list|
        invariant panes.Keys == old(panes).Keys
        invariant forall w :: w in panes ==>
          panes[w] == if w in list[..i] && old(panes)[w].mapped then old(panes)[w].(position := spot) else old(panes)[w]
      {
        var w := list[i];
        assert list[..i + 1] == list[..i] + [w];
        if w in panes && panes[w].mapped {
          panes := panes[w := panes[w].(position := spot)];
        }
      }
      assert list[..|list|] == list;
      SameMap(panes, F.Parked(old(View()).frame, old(panes), activeTab));
    }

    // The erase in every tab.
    method RemoveEverywhere(w: WinId)
      modifies this`tabs
      ensures tabs == F.Stripped(old(tabs), w)
    {
      for t := 0 to |tabs|
        invariant |tabs| == |old(tabs)|
        invariant forall u :: 0 <= u < |tabs| ==> tabs[u] == if u < t then L.Filter(old(tabs)[u], F.IsNot(w)) else old(tabs)[u]
      {
        var kept := RemoveIf(tabs[t], w);
        tabs := tabs[t := kept];
      }
    }

    method AssignWindow(w: WinId)
      requires Valid()
      modifies this
      ensures Valid() && View() == F.Assigned(old(View()), w)
    {
      RemoveEverywhere(w);
      tabs := tabs[activeTab := tabs[activeTab] + [w]];
      Retile();
    }

    method UnassignWindow(w: WinId)
      requires Valid()
      modifies this
      ensures Valid() && View() == F.Unassigned(old(View()), w)
    {
      RemoveEverywhere(w);
      Retile();
    }

    method HasWindow(w: WinId) returns (has: bool)
      ensures has <==> exists t :: 0 <= t < |tabs| && w in tabs[t]
    {
      for t := 0 to |tabs|
        invariant forall u :: 0 <= u < t ==> w !in tabs[u]
      {
        if w in tabs[t] {
          return true;
        }
      }
      return false;
    }

    method SetActiveTab(tab: int)
      requires Valid()
      modifies this
      ensures Valid() && View() == F.Switched(old(View()), tab)
    {
      if tab < 0 || tab >= |tabs| || tab == activeTab {
        return;
      }
      ParkActiveTab();
      activeTab := tab;
      Retile();
    }

    method AddTab()
      requires Valid()
      modifies this
      ensures Valid() && View() == F.TabAdded(old(View()))
    {
      tabs := tabs + [[]];
      SetActiveTab(|tabs| - 1);
    }

    method RemoveActiveTab()
      requires Valid()
      modifies this
      ensures Valid() && View() == F.TabRemoved(old(View()))
    {
      if |tabs| <= 1 {
        return;
      }
      ParkActiveTab();
      tabs := tabs[..activeTab] + tabs[activeTab + 1..];
      activeTab := if activeTab == 0 then 0 else activeTab - 1;
      Retile();
    }

    method NextTab()
      requires Valid()
      modifies this
      ensures Valid() && View() == F.NextTab(old(View()))
    {
      L.TurnIsMod(activeTab + 1, |tabs|);
      SetActiveTab((activeTab + 1) % |tabs|);
    }

    method PrevTab()
      requires Valid()
      modifies this
      ensures Valid() && View() == F.PrevTab(old(View()))
    {
      L.TurnIsMod(activeTab - 1 + |tabs|, |tabs|);
      SetActiveTab((activeTab - 1 + |tabs|) % |tabs|);
    }
  }

  method RemoveIf(list: seq<WinId>, w: WinId) returns (kept: seq<WinId>)
    ensures kept == L.Filter(list, F.IsNot(w))
  {
    kept := [];
    for i := 0 to |list|
      invariant kept == L.Filter(list[..i], F.IsNot(w))
    {
      assert list[..i + 1] == list[..i] + [list[i]];
      L.FilterConcat(list[..i], [list[i]], F.IsNot(w));
      if list[i] != w {
        kept := kept + [list[i]];
      }
    }
    assert list[..|list|] == list;
  }
}
