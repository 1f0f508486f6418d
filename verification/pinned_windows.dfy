// Pinned windows are to be seen wherever their monitor goes: what moves of workspaces do to them
// (src/Compositor.cpp).
module PinnedWindows {
  import opened Common
  import opened DesktopState
  import opened Fullscreen
  import opened WindowMoves
  import opened Workspaces
  import opened WorkspaceSwap

  type Monitors = map<MonId, MonState>

  ghost predicate Shows(mon: Monitors, x: WsId) {
    exists m :: m in mon && mon[m].active == Some(x)
  }

  ghost predicate OnShow(d: Desk, x: WsId) {
    Shows(d.mon, x)
  }

  ghost predicate PinnedOn(d: Desk, w: WinId, x: WsId) {
    w in d.win && d.win[w].fs.pinned && d.win[w].ws == x
  }

  // Every pinned window is on a workspace that some monitor shows.
  ghost predicate PinsShown(d: Desk) {
    forall w, x :: PinnedOn(d, w, x) ==> OnShow(d, x)
  }

  // The workspace goes to monitor m and is shown there at once.
  ghost predicate HandsOn(d: Desk, x: WsId, m: MonId)
    requires Wf(d) && x in d.ws && m in d.mon
  {
    d.ws[x].mon != Some(m) && Switching(d, x) && d.ws[x].mon == d.last
  }

  // All monitors after the move.
  ghost function MonitorsOf(mon: Monitors, from: Option<MonId>, next: WsId, to: Option<MonId>, x: WsId): Monitors
    requires Known(from, mon) && Known(to, mon)
  {
    var mon1 := if from.Some? then mon[from.value := mon[from.value].(active := Some(next))] else mon;
    if to.Some? then mon1[to.value := mon1[to.value].(active := Some(x))] else mon1
  }

  ghost function Leaving(d: Desk, x: WsId): Option<MonId>
    requires Wf(d) && x in d.ws
  {
    if Switching(d, x) then d.ws[x].mon else None
  }

  ghost function Receiving(d: Desk, x: WsId, m: MonId): Option<MonId>
    requires Wf(d) && x in d.ws && m in d.mon
  {
    if HandsOn(d, x, m) then Some(m) else None
  }

  lemma MonitorsAfter(d: Desk, bound: map<WsId, MonId>, x: WsId, m: MonId)
    requires Wf(d) && FsInv(d) && Bindings(d, bound) && x in d.ws && m in d.mon
    requires d.ws[x].mon != Some(m)
    ensures MoveWorkspace(d, bound, x, m).mon
         == MonitorsOf(d.mon, Leaving(d, x), Successor(d, bound, x), Receiving(d, x, m), x)
  {
    if Switching(d, x) {
      var next, d1 := PlugStep(d, bound, x);
      HandoverMonitors(d1, x, next, m, Some(d.mon[d.ws[x].mon.value]));
    }
  }

  lemma StillShown(mon: Monitors, from: Option<MonId>, next: WsId, to: Option<MonId>, x: WsId, y: WsId)
    requires Known(from, mon) && Known(to, mon) && (from.Some? ==> mon[from.value].active == Some(x))
    requires y != x && Shows(mon, y) && !(to.Some? && mon[to.value].active == Some(y))
    ensures Shows(MonitorsOf(mon, from, next, to, x), y)
  {
    var k :| k in mon && mon[k].active == Some(y);
    assert MonitorsOf(mon, from, next, to, x)[k].active == Some(y);
  }

  lemma SuccessorShown(mon: Monitors, from: MonId, next: WsId, to: Option<MonId>, x: WsId)
    requires from in mon && Known(to, mon) && to != Some(from)
    ensures Shows(MonitorsOf(mon, Some(from), next, to, x), next)
  {
    assert MonitorsOf(mon, Some(from), next, to, x)[from].active == Some(next);
  }

  lemma GivesWay(mon: Monitors, from: Option<MonId>, next: WsId, to: MonId, x: WsId, y: WsId)
    requires Known(from, mon) && to in mon && y != x && y != next
    requires forall k :: k in mon && mon[k].active == Some(y) ==> k == to
    ensures !Shows(MonitorsOf(mon, from, next, Some(to), x), y)
  {
    forall k | k in MonitorsOf(mon, from, next, Some(to), x)
      ensures MonitorsOf(mon, from, next, Some(to), x)[k].active != Some(y)
    {
      assert k in mon;
    }
  }

  // Where a pinned window of workspace y goes.
  lemma PinnedAfter(d: Desk, bound: map<WsId, MonId>, x: WsId, m: MonId, w: WinId)
    requires Wf(d) && FsInv(d) && Bindings(d, bound) && x in d.ws && m in d.mon
    requires d.ws[x].mon != Some(m) && w in d.win
    ensures var r := MoveWorkspace(d, bound, x, m);
      && w in r.win && r.win[w].fs == d.win[w].fs
      && (d.win[w].fs.pinned ==> r.win[w].ws == if d.win[w].ws == x then Successor(d, bound, x) else d.win[w].ws)
  {
    MoveWorkspaceWindows(d, bound, x, m, w);
  }

  // A workspace that gives way, with pinned windows.
  ghost predicate LeavesPinned(d: Desk, x: WsId, m: MonId, w: WinId)
    requires Wf(d) && x in d.ws && m in d.mon
  {
    HandsOn(d, x, m) && d.mon[m].active.Some? && PinnedOn(d, w, d.mon[m].active.value)
  }

  lemma PinsLost(d: Desk, bound: map<WsId, MonId>, x: WsId, m: MonId, w: WinId)
    requires Wf(d) && FsInv(d) && MonInv(d) && Bindings(d, bound) && x in d.ws && m in d.mon
    requires LeavesPinned(d, x, m, w)
    ensures !PinsShown(MoveWorkspace(d, bound, x, m))
  {
    var r, y, home := MoveWorkspace(d, bound, x, m), d.mon[m].active.value, d.ws[x].mon;
    MonitorsAfter(d, bound, x, m);
    NextShownEffect(d, bound, x, home.value);
    assert d.ws[y].mon == Some(m);
    GivesWay(d.mon, home, Successor(d, bound, x), m, x, y);
    PinnedAfter(d, bound, x, m, w);
    assert PinnedOn(r, w, y) && !OnShow(r, y);
  }

  lemma PinStaysShown(d: Desk, bound: map<WsId, MonId>, x: WsId, m: MonId, w: WinId)
    requires Wf(d) && FsInv(d) && MonInv(d) && PinsShown(d) && Bindings(d, bound) && x in d.ws && m in d.mon
    requires d.ws[x].mon != Some(m) && w in d.win && d.win[w].fs.pinned && !LeavesPinned(d, x, m, w)
    ensures var r := MoveWorkspace(d, bound, x, m);
      w in r.win && OnShow(r, r.win[w].ws)
  {
    var y := d.win[w].ws;
    assert PinnedOn(d, w, y) && OnShow(d, y);
    var k :| k in d.mon && d.mon[k].active == Some(y);
    assert d.ws[y].mon == Some(k);
    MonitorsAfter(d, bound, x, m);
    PinnedAfter(d, bound, x, m, w);
    var next := Successor(d, bound, x);
    if y == x {
      SuccessorShown(d.mon, k, next, Receiving(d, x, m), x);
    } else {
      StillShown(d.mon, Leaving(d, x), next, Receiving(d, x, m), x, y);
    }
  }

  // Moving a workspace leaves every pinned window on a workspace that is shown, except exactly when
  // the workspace is shown at once on the other monitor and the one that gives way there has
  // pinned windows: those are not taken along.
  lemma MoveKeepsPinsExactly(d: Desk, bound: map<WsId, MonId>, x: WsId, m: MonId)
    requires Wf(d) && FsInv(d) && MonInv(d) && PinsShown(d) && Bindings(d, bound) && x in d.ws && m in d.mon
    ensures PinsShown(MoveWorkspace(d, bound, x, m)) <==> forall w :: !LeavesPinned(d, x, m, w)
  {
    if d.ws[x].mon != Some(m) {
      var r := MoveWorkspace(d, bound, x, m);
      MoveKeepsWindows(d, bound, x, m);
      forall w, y | PinnedOn(r, w, y) && !LeavesPinned(d, x, m, w)
        ensures OnShow(r, y)
      {
        PinnedAfter(d, bound, x, m, w);
        PinStaysShown(d, bound, x, m, w);
      }
      forall w | LeavesPinned(d, x, m, w)
        ensures !PinsShown(r)
      {
        PinsLost(d, bound, x, m, w);
      }
    }
  }

  // Swapping two shown workspaces leaves every pinned window on one that is shown.
  lemma SwapKeepsPins(d: Desk, a: MonId, b: MonId)
    requires Wf(d) && MonInv(d) && PinsShown(d) && BothShow(d, a, b)
    ensures PinsShown(Swap(d, a, b))
  {
    var r := Swap(d, a, b);
    var (x, y) := (d.mon[a].active.value, d.mon[b].active.value);
    assert r.mon[b].active == Some(x);
    assert a != b ==> r.mon[a].active == Some(y);
    forall w, z | PinnedOn(r, w, z)
      ensures OnShow(r, z)
    {
      assert PinnedOn(d, w, d.win[w].ws);
      if z != x && z != y {
        var k :| k in d.mon && d.mon[k].active == Some(z);
        assert r.mon[k].active == Some(z);
      }
    }
  }

  // Two monitors; the second one shows a pinned window. Moving the first one's workspace there hides it.
  lemma MoveHidesPinned()
    ensures var big := Vec(1920.0, 1080.0);
      var pinned := WinState(2, Some(1), ORIGIN, big, Traits(true, false, true, false, false), FsState(0, 0, true, false, false));
      var d: Desk := Desk([7], map[7 := pinned],
        [1, 2], map[1 := WsState(false, Some(0), false, 0, true), 2 := WsState(false, Some(1), false, 0, true)],
        map[0 := MonState(Some(1), ORIGIN, big), 1 := MonState(Some(2), Vec(1920.0, 0.0), big)],
        Some(0), false, false);
      Wf(d) && FsInv(d) && MonInv(d) && PinsShown(d) && !PinsShown(MoveWorkspace(d, map[], 1, 1))
  {
    var big := Vec(1920.0, 1080.0);
    var pinned := WinState(2, Some(1), ORIGIN, big, Traits(true, false, true, false, false), FsState(0, 0, true, false, false));
    var d: Desk := Desk([7], map[7 := pinned],
      [1, 2], map[1 := WsState(false, Some(0), false, 0, true), 2 := WsState(false, Some(1), false, 0, true)],
      map[0 := MonState(Some(1), ORIGIN, big), 1 := MonState(Some(2), Vec(1920.0, 0.0), big)],
      Some(0), false, false);
    assert d.workspaces[0] == 1 && d.workspaces[1] == 2 && d.windows[0] == 7;
    assert d.mon[1].active == Some(2);
    assert LeavesPinned(d, 1, 1, 7);
    MoveKeepsPinsExactly(d, map[], 1, 1);
  }
}
