// The operations of the compositor that update its tables in place.
module Compositor {
  import opened Common
  import opened DesktopState
  import opened Fullscreen
  import opened WindowMoves
  import opened Workspaces
  import opened WorkspaceSwap

  class Compositor {
    var windows: seq<WinId>
    var win: map<WinId, WinState>
    var workspaces: seq<WsId>
    var ws: map<WsId, WsState>
    var mon: map<MonId, MonState>
    var lastMonitor: Option<MonId>
    var unsafeState: bool
    var allowPinFullscreen: bool

    ghost function View(): Desk
      reads this
    {
      Desk(windows, win, workspaces, ws, mon, lastMonitor, unsafeState, allowPinFullscreen)
    }

    // CWorkspace::getFullscreenWindow
    method GetFullscreenWindow(x: WsId) returns (r: Option<WinId>)
      requires Wf(View())
      ensures r == FullscreenWindow(View(), windows, x)
    {
      r := None;
      var i := 0;
      while i < |windows|
        invariant 0 <= i <= |windows|
        invariant FullscreenWindow(View(), windows, x) == FullscreenWindow(View(), windows[i..], x)
      {
        var w := win[windows[i]];
        if w.ws == x && w.IsFullscreen() {
          return Some(windows[i]);
        }
        i := i + 1;
      }
    }

    // CCompositor::setWindowFullscreenInternal
    method SetWindowFullscreenInternal(w: WinId, mode: int)
      requires Wf(View()) && w in win && CanEvict(View(), w)
      modifies this
      ensures View() == SetInternal(old(View()), w, mode)
      decreases if win[w].IsFullscreen() then 0 else 1, 2
    {
      if win[w].traits.sync {
        SetWindowFullscreenState(w, mode, mode);
      } else {
        SetWindowFullscreenState(w, mode, win[w].fs.client);
      }
    }

    // CCompositor::setWindowFullscreenClient
    method SetWindowFullscreenClient(w: WinId, mode: int)
      requires Wf(View()) && w in win && CanEvict(View(), w)
      modifies this
      ensures View() == SetState(old(View()), w, if old(win)[w].traits.sync then mode else old(win)[w].fs.internal, mode)
    {
      if win[w].traits.sync {
        SetWindowFullscreenState(w, mode, mode);
      } else {
        SetWindowFullscreenState(w, win[w].fs.internal, mode);
      }
    }

    // CCompositor::setWindowFullscreenState
    method SetWindowFullscreenState(w: WinId, internal: int, client: int)
      requires Wf(View()) && w in win && CanEvict(View(), w)
      modifies this
      ensures View() == SetState(old(View()), w, internal, client)
      decreases if win[w].IsFullscreen() then 0 else 1, 1
    {
      if !win[w].traits.mapped || unsafeState {
        return;
      }
      UnpinKeepsFullscreen(View(), w);
      if allowPinFullscreen && !win[w].fs.pinFs && !win[w].IsFullscreen() && win[w].fs.pinned {
        win := win[w := win[w].(fs := win[w].fs.(pinned := false, pinFs := true))];
      }
      assert win == UnpinStep(old(View()), w).win;
      ghost var d := View();
      EvictFor(w);
      SamePlacesWf(d, View());
      FinishRequest(w, ClampMode(internal), ClampMode(client));
    }

    // The fullscreen window of w's workspace gives way.
    method EvictFor(w: WinId)
      requires Wf(View()) && w in win && CanEvict(View(), w)
      modifies this
      ensures View() == Evict(old(View()), w)
      decreases if win[w].IsFullscreen() then 0 else 1, 0
    {
      if ws[win[w].ws].hasFs && !win[w].IsFullscreen() {
        var f := GetFullscreenWindow(win[w].ws);
        SetWindowFullscreenInternal(f.value, FSMODE_NONE);
      }
    }

    // The part of a request that follows the eviction.
    method FinishRequest(w: WinId, internal: int, client: int)
      requires Wf(View()) && w in win
      modifies this
      ensures View() == Apply(old(View()), w, internal, client)
    {
      ghost var d := View();
      var x := win[w].ws;
      var effective := Effective(internal);
      var change := !win[w].fs.pinned && Effective(win[w].fs.internal) != effective;
      if allowPinFullscreen && win[w].fs.pinFs && win[w].IsFullscreen() && !win[w].fs.pinned && internal == FSMODE_NONE {
        win := win[w := win[w].(fs := win[w].fs.(pinned := true, pinFs := false))];
      }
      if change || !win[w].traits.sync {
        win := win[w := win[w].(fs := win[w].fs.(client := client))];
      }
      if change {
        win := win[w := win[w].(fs := win[w].fs.(internal := internal))];
        ws := ws[x := ws[x].(mode := effective, hasFs := effective != FSMODE_NONE)];
      }
      assert win == d.win[w := d.win[w].(fs := Written(d.win[w].fs, d.win[w].traits, d.allowPin, internal, client))];
      if change {
        ApplyIsLowering(d, w, internal, client);
        LowerOthers(x);
      }
    }

    // The loop that puts the windows of x under the fullscreen window.
    method LowerOthers(x: WsId)
      requires Lists(windows, win)
      modifies this`win
      ensures win == LowerAll(old(win), x)
    {
      var i := 0;
      while i < |windows|
        invariant 0 <= i <= |windows| && win.Keys == old(win).Keys
        invariant forall v :: v in win ==>
          win[v] == if v in windows[..i] then LowerAll(old(win), x)[v] else old(win)[v]
      {
        var v := windows[i];
        if win[v].ws == x && !win[v].IsFullscreen() && !win[v].traits.fading && !win[v].fs.pinned {
          win := win[v := win[v].(fs := win[v].fs.(createdOver := false))];
        }
        i := i + 1;
      }
      assert windows[..i] == windows;
      assert forall v :: v in win ==> v in windows;
      assert forall v :: v in win ==> win[v] == LowerAll(old(win), x)[v];
      SameMap(win, LowerAll(old(win), x));
    }

    // CWorkspace::updateWindows
    method RefreshFlag(x: WsId)
      requires Wf(View()) && x in ws
      modifies this`ws
      ensures View() == UpdateWindows(old(View()), x)
    {
      var any := false;
      var i := 0;
      while i < |windows|
        invariant 0 <= i <= |windows|
        invariant any <==> exists w :: w in windows[..i] && win[w].traits.mapped && FullscreenOn(View(), w, x)
      {
        var w := windows[i];
        any := any || (win[w].traits.mapped && win[w].ws == x && win[w].IsFullscreen());
        assert windows[..i + 1] == windows[..i] + [w];
        i := i + 1;
      }
      assert windows[..i] == windows;
      ws := ws[x := ws[x].(hasFs := any)];
    }

    // CWindow::moveToWorkspace
    method MoveToWorkspace(w: WinId, x: WsId)
      requires Wf(View()) && w in win && x in ws
      modifies this`win, this`ws
      ensures View() == Rehome(old(View()), w, x)
    {
      if win[w].ws == x {
        return;
      }
      var was := win[w].ws;
      win := win[w := win[w].(ws := x)];
      RefreshFlag(was);
      RefreshFlag(x);
    }

    // CCompositor::moveWindowToWorkspaceSafe
    method MoveWindowToWorkspaceSafe(w: WinId, x: WsId)
      requires Wf(View()) && w in win && x in ws && CanEvict(View(), w)
      requires win[w].traits.floating ==> ws[x].mon.Some?
      modifies this
      ensures View() == MoveWindow(old(View()), w, x)
    {
      if win[w].fs.pinned && ws[x].special {
        return;
      }
      if win[w].ws == x {
        return;
      }
      var fullscreen, mode := win[w].IsFullscreen(), win[w].fs.internal;
      ghost var d := View();
      if fullscreen {
        SetWindowFullscreenInternal(w, FSMODE_NONE);
        SamePlacesWf(d, View());
      }
      ghost var d1 := View();
      assert d1 == if fullscreen then SetInternal(d, w, FSMODE_NONE) else d;
      ArriveCanEvict(d1, w, x);
      Settle(w, x);
      ghost var d2 := View();
      if fullscreen {
        SetWindowFullscreenInternal(w, mode);
        SamePlacesWf(d2, View());
      }
      assert View() == if fullscreen then SetInternal(d2, w, mode) else d2;
      RefreshFlag(x);
    }

    // The steps between leaving fullscreen and going back to it.
    method Settle(w: WinId, x: WsId)
      requires Wf(View()) && w in win && x in ws
      modifies this`win, this`ws
      ensures View() == Arrive(old(View()), w, x)
    {
      var from := if win[w].mon.Some? then mon[win[w].mon.value].pos else ORIGIN;
      MoveToWorkspace(w, x);
      ghost var r := View();
      win := win[w := win[w].(mon := ws[x].mon)];
      if win[w].traits.floating {
        var to := if ws[x].mon.Some? then mon[ws[x].mon.value].pos else ORIGIN;
        win := win[w := win[w].(pos := win[w].pos.Minus(from).Plus(to))];
      }
      assert win == r.win[w := win[w]];
    }

    // CMonitor::changeWorkspace, for an ordinary workspace
    method ShowWorkspace(m: MonId, x: WsId)
      requires Wf(View()) && m in mon && x in ws
      modifies this`win, this`ws, this`mon
      ensures View() == ChangeWorkspace(old(View()), m, x)
    {
      var was := mon[m].active;
      if was == Some(x) {
        return;
      }
      mon := mon[m := mon[m].(active := Some(x))];
      if was.Some? {
        ws := ws[was.value := ws[was.value].(visible := false)];
      }
      ws := ws[x := ws[x].(visible := true)];
      if was.Some? {
        TakePinnedAlong(was.value, x);
      }
    }

    // The loop that takes the pinned windows of the old workspace along.
    method TakePinnedAlong(from: WsId, to: WsId)
      requires Wf(View()) && to in ws
      modifies this`win, this`ws
      ensures View() == MovePinned(old(View()), windows, from, to)
    {
      ghost var d := View();
      var i := 0;
      while i < |windows|
        invariant 0 <= i <= |windows| && Wf(View()) && to in ws
        invariant MovePinned(View(), windows[i..], from, to) == MovePinned(d, windows, from, to)
      {
        var w := windows[i];
        assert windows[i..][0] == w && windows[i..][1..] == windows[i + 1..];
        if win[w].ws == from && win[w].fs.pinned {
          MoveToWorkspace(w, to);
        }
        i := i + 1;
      }
    }

    // The search for another ordinary workspace of the old monitor.
    method FindOtherWorkspace(x: WsId, home: MonId) returns (r: Option<WsId>)
      requires Wf(View())
      ensures r == FindOther(View(), workspaces, x, home)
    {
      r := None;
      var i := 0;
      while i < |workspaces|
        invariant 0 <= i <= |workspaces|
        invariant FindOther(View(), workspaces, x, home) == FindOther(View(), workspaces[i..], x, home)
      {
        var y := workspaces[i];
        if ws[y].mon == Some(home) && y != x && !ws[y].special {
          return Some(y);
        }
        i := i + 1;
      }
    }

    // The search for an id to plug the gap with.
    method FindFreeId(bound: map<WsId, MonId>, home: MonId) returns (id: WsId)
      ensures id == FreeId(View(), bound, home, 1)
    {
      id := 1;
      while id in ws || (id in bound && bound[id] != home)
        invariant FreeId(View(), bound, home, 1) == FreeId(View(), bound, home, id)
        decreases Used(View(), bound, id)
      {
        assert id in Used(View(), bound, id) && id !in Used(View(), bound, id + 1);
        assert Used(View(), bound, id + 1) <= Used(View(), bound, id);
        id := id + 1;
      }
    }

    // CCompositor::createNewWorkspace
    method CreateNewWorkspace(bound: map<WsId, MonId>, id: WsId, home: MonId)
      modifies this`workspaces, this`ws
      ensures View() == Create(old(View()), bound, id, home)
    {
      var on := home;
      if id in bound {
        on := bound[id];
      }
      workspaces := workspaces + [id];
      ws := ws[id := WsState(SPECIAL_WORKSPACE_START <= id <= -2, Some(on), false, FSMODE_NONE, false)];
    }

    method Plug(bound: map<WsId, MonId>, x: WsId, home: MonId) returns (next: WsId)
      requires Wf(View()) && home in mon && Bindings(View(), bound)
      modifies this
      ensures next == NextShown(old(View()), bound, x, home)
      ensures View() == PlugGap(old(View()), bound, home, next)
    {
      var found := FindOtherWorkspace(x, home);
      if found.Some? && found.value != WORKSPACE_INVALID {
        next := found.value;
      } else {
        next := FindFreeId(bound, home);
        CreateNewWorkspace(bound, next, home);
      }
      ShowWorkspace(home, next);
    }

    // CCompositor::moveWorkspaceToMonitor
    method MoveWorkspaceToMonitor(bound: map<WsId, MonId>, x: WsId, m: MonId)
      requires Wf(View()) && Distinct(windows) && Bindings(View(), bound) && x in ws && m in mon
      modifies this
      ensures View() == MoveWorkspace(old(View()), bound, x, m)
    {
      if ws[x].mon == Some(m) {
        return;
      }
      ghost var d := View();
      var home := ws[x].mon;
      var from := if home.Some? then Some(mon[home.value]) else None;
      var switching := home.Some? && mon[home.value].active == Some(x);
      var next := x;
      if switching {
        next := Plug(bound, x, home.value);
      }
      assert next == Successor(d, bound, x) && View() == Plugged(d, bound, x);
      assert lastMonitor == d.last && switching == Switching(d, x);
      HandOn(x, next, m, from, switching && home == lastMonitor);
    }

    // The workspace goes over, and is shown if its monitor had the focus.
    method HandOn(x: WsId, next: WsId, m: MonId, from: Option<MonState>, show: bool)
      requires Wf(View()) && Distinct(windows) && x in ws && m in mon
      modifies this
      ensures View() == HandedOn(old(View()), x, next, m, from, show)
    {
      CarryWindows(x, next, m, from);
      if show {
        ActivateWorkspace(m, x);
      }
    }

    // The focused monitor hands its focus on.
    method ActivateWorkspace(m: MonId, x: WsId)
      requires m in mon && x in ws
      modifies this`ws, this`mon, this`lastMonitor
      ensures View() == Activate(old(View()), m, x)
    {
      var was := mon[m].active;
      if was.Some? && was.value in ws {
        ws := ws[was.value := ws[was.value].(visible := false)];
      }
      lastMonitor := Some(m);
      mon := mon[m := mon[m].(active := Some(x))];
      ws := ws[x := ws[x].(visible := true)];
    }

    // The loop that takes the windows of x along.
    method CarryWindows(x: WsId, next: WsId, m: MonId, from: Option<MonState>)
      requires Wf(View()) && Distinct(windows) && x in ws && m in mon
      modifies this`ws, this`win
      ensures View() == Handover(old(View()), x, next, m, from)
    {
      ws := ws[x := ws[x].(mon := Some(m))];
      ghost var spaces := ws;
      var to := mon[m];
      ghost var all := Handover(old(View()), x, next, m, from).win;
      var i := 0;
      while i < |windows|
        invariant 0 <= i <= |windows| && win.Keys == all.Keys && ws == spaces
        invariant forall k :: 0 <= k < |windows| ==> win[windows[k]] == if k < i then all[windows[k]] else old(win)[windows[k]]
      {
        var w := windows[i];
        if win[w].ws == x {
          if win[w].fs.pinned {
            win := win[w := win[w].(ws := next)];
          } else {
            win := win[w := win[w].(mon := Some(m))];
            if win[w].traits.mapped && !win[w].traits.hidden {
              if from.Some? {
                PlaceWindow(w, from.value, to);
              } else {
                win := win[w := win[w].(pos := Vec(Wrap(win[w].pos.x, to.size.x), Wrap(win[w].pos.y, to.size.y)))];
              }
            }
          }
        }
        i := i + 1;
      }
      SameTable(all);
    }

    // Floating and fullscreen windows are placed by hand.
    method PlaceWindow(w: WinId, from: MonState, to: MonState)
      requires w in win
      modifies this`win
      ensures win == old(win)[w := Placed(old(win)[w], from, to)]
    {
      if win[w].traits.floating {
        win := win[w := win[w].(pos := win[w].pos.Minus(from.pos).Plus(to.pos))];
      }
      if win[w].IsFullscreen() {
        win := win[w := win[w].(pos := to.pos, size := to.size)];
      }
      assert win == old(win)[w := Placed(old(win)[w], from, to)];
    }

    lemma SameTable(all: map<WinId, WinState>)
      requires Lists(windows, win) && win.Keys == all.Keys
      requires forall k :: 0 <= k < |windows| ==> win[windows[k]] == all[windows[k]]
      ensures win == all
    {
      forall w | w in win
        ensures win[w] == all[w]
      {
        var k :| 0 <= k < |windows| && windows[k] == w;
      }
      SameMap(win, all);
    }

    // CCompositor::swapActiveWorkspaces
    method SwapActiveWorkspaces(a: MonId, b: MonId)
      requires Wf(View()) && Distinct(windows) && BothShow(View(), a, b)
      modifies this
      ensures View() == Swap(old(View()), a, b)
    {
      var x, y := mon[a].active.value, mon[b].active.value;
      ws := ws[x := ws[x].(mon := Some(b))];
      CrossWindows(x, y, b, mon[a], mon[b]);
      ws := ws[y := ws[y].(mon := Some(a))];
      CrossWindows(y, x, a, mon[b], mon[a]);
      mon := mon[a := mon[a].(active := Some(y))];
      mon := mon[b := mon[b].(active := Some(x))];
    }

    // The loop over the windows of one of the two workspaces.
    method CrossWindows(x: WsId, y: WsId, m: MonId, from: MonState, to: MonState)
      requires Lists(windows, win) && Distinct(windows)
      modifies this`win
      ensures win == CrossAll(old(win), x, y, m, from, to)
      ensures Lists(windows, win)
    {
      ghost var all := CrossAll(old(win), x, y, m, from, to);
      var i := 0;
      while i < |windows|
        invariant 0 <= i <= |windows| && win.Keys == all.Keys
        invariant forall k :: 0 <= k < |windows| ==> win[windows[k]] == if k < i then all[windows[k]] else old(win)[windows[k]]
      {
        var w := windows[i];
        if win[w].ws == x {
          if win[w].fs.pinned {
            win := win[w := win[w].(ws := y)];
          } else {
            win := win[w := win[w].(mon := Some(m))];
            PlaceWindow(w, from, to);
          }
        }
        i := i + 1;
      }
      SameTable(all);
    }
  }
}
