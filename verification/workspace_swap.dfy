// Two monitors exchange the workspaces they show (src/Compositor.cpp).
module WorkspaceSwap {
  import opened Common
  import opened DesktopState
  import opened Fullscreen
  import opened WindowMoves
  import opened Workspaces

  ghost predicate BothShow(d: Desk, a: MonId, b: MonId) {
    a in d.mon && b in d.mon && d.mon[a].active.Some? && d.mon[b].active.Some?
  }

  // One window, as the loop for workspace x sees it: x goes from one monitor to the other,
  // and y comes back. Pinned windows change the workspace instead.
  function Cross(s: WinState, x: WsId, y: WsId, m: MonId, from: MonState, to: MonState): WinState {
    if s.ws != x then s
    else if s.fs.pinned then s.(ws := y)
    else Placed(s.(mon := Some(m)), from, to)
  }

  // Both loops.
  function CrossBoth(s: WinState, x: WsId, y: WsId, a: MonId, b: MonId, ma: MonState, mb: MonState): WinState {
    Cross(Cross(s, x, y, b, ma, mb), y, x, a, mb, ma)
  }

  ghost function CrossAll(win: map<WinId, WinState>, x: WsId, y: WsId, m: MonId, from: MonState, to: MonState)
    : map<WinId, WinState>
  {
    map w | w in win :: Cross(win[w], x, y, m, from, to)
  }

  // CCompositor::swapActiveWorkspaces
  ghost function Swap(d: Desk, a: MonId, b: MonId): (r: Desk)
    requires Wf(d) && BothShow(d, a, b)
  {
    var (x, y) := (d.mon[a].active.value, d.mon[b].active.value);
    var ws1 := d.ws[x := d.ws[x].(mon := Some(b))];
    var win1 := CrossAll(d.win, x, y, b, d.mon[a], d.mon[b]);
    var ws2 := ws1[y := ws1[y].(mon := Some(a))];
    var win2 := CrossAll(win1, y, x, a, d.mon[b], d.mon[a]);
    var mon1 := d.mon[a := d.mon[a].(active := Some(y))];
    d.(ws := ws2, win := win2, mon := mon1[b := mon1[b].(active := Some(x))])
  }

  // A swap keeps both invariants.
  lemma SwapKeepsInv(d: Desk, a: MonId, b: MonId)
    requires Wf(d) && FsInv(d) && BothShow(d, a, b)
    ensures Wf(Swap(d, a, b)) && FsInv(Swap(d, a, b)) && (MonInv(d) ==> MonInv(Swap(d, a, b)))
  {
    SwapWf(d, a, b);
    SwapIsQuiet(d, a, b);
    QuietMoveKeepsInv(d, Swap(d, a, b));
    if MonInv(d) {
      SwapKeepsMonInv(d, a, b);
    }
  }

  // One window, and the two tables.
  lemma SwapWindow(d: Desk, a: MonId, b: MonId, w: WinId)
    requires Wf(d) && BothShow(d, a, b) && w in d.win
    ensures var (x, y) := (d.mon[a].active.value, d.mon[b].active.value);
      w in Swap(d, a, b).win && Swap(d, a, b).win[w] == CrossBoth(d.win[w], x, y, a, b, d.mon[a], d.mon[b])
  {
  }

  lemma CrossFrame(s: WinState, x: WsId, y: WsId, a: MonId, b: MonId, ma: MonState, mb: MonState)
    ensures var r := CrossBoth(s, x, y, a, b, ma, mb);
      && r.fs == s.fs && r.traits == s.traits
      && (r.ws == s.ws || (s.fs.pinned && (r.ws == x || r.ws == y)))
      && (r.mon == s.mon || r.mon == Some(a) || r.mon == Some(b))
  {
  }

  lemma SwapTables(d: Desk, a: MonId, b: MonId)
    requires Wf(d) && BothShow(d, a, b)
    ensures var r := Swap(d, a, b);
      && r == d.(ws := r.ws, win := r.win, mon := r.mon)
      && r.win.Keys == d.win.Keys && r.ws.Keys == d.ws.Keys && r.mon.Keys == d.mon.Keys
      && (forall z :: z in d.ws ==>
           && r.ws[z] == d.ws[z].(mon := r.ws[z].mon)
           && r.ws[z].mon == if z == d.mon[b].active.value then Some(a)
                             else if z == d.mon[a].active.value then Some(b) else d.ws[z].mon)
      && (forall m :: m in d.mon ==>
           r.mon[m] == if m == b then d.mon[b].(active := d.mon[a].active)
                       else if m == a then d.mon[a].(active := d.mon[b].active) else d.mon[m])
  {
  }

  lemma SwapIsQuiet(d: Desk, a: MonId, b: MonId)
    requires Wf(d) && FsInv(d) && BothShow(d, a, b)
    ensures QuietMove(d, Swap(d, a, b))
  {
    var (x, y) := (d.mon[a].active.value, d.mon[b].active.value);
    var r := Swap(d, a, b);
    SwapTables(d, a, b);
    forall w | w in d.win
      ensures r.win[w].fs == d.win[w].fs && r.win[w].traits == d.win[w].traits
      ensures r.win[w].ws == d.win[w].ws || !d.win[w].IsFullscreen()
    {
      assert Shown(d.win[w], d.ws[d.win[w].ws]);
      SwapWindow(d, a, b, w);
      CrossFrame(d.win[w], x, y, a, b, d.mon[a], d.mon[b]);
    }
  }

  lemma SwapWf(d: Desk, a: MonId, b: MonId)
    requires Wf(d) && BothShow(d, a, b)
    ensures Wf(Swap(d, a, b))
  {
    var (x, y) := (d.mon[a].active.value, d.mon[b].active.value);
    var r := Swap(d, a, b);
    SwapTables(d, a, b);
    forall w | w in d.win
      ensures r.win[w].ws in r.ws && Known(r.win[w].mon, r.mon)
    {
      SwapWindow(d, a, b, w);
      CrossFrame(d.win[w], x, y, a, b, d.mon[a], d.mon[b]);
    }
  }

  lemma SwapKeepsActives(d: Desk, a: MonId, b: MonId)
    requires Wf(d) && MonInv(d) && BothShow(d, a, b) && Wf(Swap(d, a, b))
    ensures ActivesAgree(Swap(d, a, b))
  {
    SwapTables(d, a, b);
  }

  lemma CrossAgrees(s: WinState, x: WsId, y: WsId, a: MonId, b: MonId, ma: MonState, mb: MonState)
    requires !s.fs.pinned
    ensures var r := CrossBoth(s, x, y, a, b, ma, mb);
      && r.ws == s.ws
      && r.mon == if s.ws == y then Some(a) else if s.ws == x then Some(b) else s.mon
  {
  }

  lemma SwapKeepsWindows(d: Desk, a: MonId, b: MonId)
    requires Wf(d) && MonInv(d) && BothShow(d, a, b) && Wf(Swap(d, a, b))
    ensures WindowsAgree(Swap(d, a, b))
  {
    var (x, y) := (d.mon[a].active.value, d.mon[b].active.value);
    var r := Swap(d, a, b);
    SwapTables(d, a, b);
    forall w | w in r.win && !r.win[w].fs.pinned
      ensures r.win[w].mon == r.ws[r.win[w].ws].mon
    {
      SwapWindow(d, a, b, w);
      CrossFrame(d.win[w], x, y, a, b, d.mon[a], d.mon[b]);
      CrossAgrees(d.win[w], x, y, a, b, d.mon[a], d.mon[b]);
    }
  }

  lemma SwapKeepsVisible(d: Desk, a: MonId, b: MonId)
    requires Wf(d) && MonInv(d) && BothShow(d, a, b) && Wf(Swap(d, a, b))
    ensures VisibleAgrees(Swap(d, a, b))
  {
    SwapTables(d, a, b);
  }

  lemma SwapKeepsMonInv(d: Desk, a: MonId, b: MonId)
    requires Wf(d) && MonInv(d) && BothShow(d, a, b)
    ensures Wf(Swap(d, a, b)) && MonInv(Swap(d, a, b))
  {
    SwapWf(d, a, b);
    SwapKeepsActives(d, a, b);
    SwapKeepsWindows(d, a, b);
    SwapKeepsVisible(d, a, b);
  }

  // Who shows what after a swap.
  lemma SwapExchanges(d: Desk, a: MonId, b: MonId)
    requires Wf(d) && MonInv(d) && BothShow(d, a, b)
    ensures var r := Swap(d, a, b);
      && BothShow(r, a, b)
      && r.mon[a].active == d.mon[b].active && r.mon[b].active == d.mon[a].active
      && r.mon[a].pos == d.mon[a].pos && r.mon[b].pos == d.mon[b].pos
      && r.mon[a].size == d.mon[a].size && r.mon[b].size == d.mon[b].size
  {
  }

  lemma CrossGoesAlong(s: WinState, x: WsId, y: WsId, a: MonId, b: MonId, ma: MonState, mb: MonState)
    requires x != y
    ensures var r := CrossBoth(s, x, y, a, b, ma, mb);
      && r.fs == s.fs && r.traits == s.traits
      && (s.ws != x && s.ws != y ==> r == s)
      && (s.fs.pinned ==> r == if s.ws == y then s.(ws := x) else s)
      && (!s.fs.pinned && s.ws == x ==> r.ws == x && r.mon == Some(b) && GoesAlong(s, r, ma, mb))
      && (!s.fs.pinned && s.ws == y ==> r.ws == y && r.mon == Some(a) && GoesAlong(s, r, mb, ma))
  {
  }

  // Where one swap leaves each window: those of either workspace on the other monitor, as the change
  // of monitors asks, pinned windows of the second workspace on the first, and all others alone.
  lemma SwapPlaces(d: Desk, a: MonId, b: MonId, w: WinId)
    requires Wf(d) && MonInv(d) && BothShow(d, a, b) && a != b && w in d.win
    ensures w in Swap(d, a, b).win
    ensures var (x, y) := (d.mon[a].active.value, d.mon[b].active.value);
      var r, s := Swap(d, a, b).win[w], d.win[w];
      && r.fs == s.fs && r.traits == s.traits
      && (s.ws != x && s.ws != y ==> r == s)
      && (s.fs.pinned ==> r == if s.ws == y then s.(ws := x) else s)
      && (!s.fs.pinned && s.ws == x ==> r.ws == x && r.mon == Some(b) && GoesAlong(s, r, d.mon[a], d.mon[b]))
      && (!s.fs.pinned && s.ws == y ==> r.ws == y && r.mon == Some(a) && GoesAlong(s, r, d.mon[b], d.mon[a]))
  {
    SwapWindow(d, a, b, w);
    CrossGoesAlong(d.win[w], d.mon[a].active.value, d.mon[b].active.value, a, b, d.mon[a], d.mon[b]);
  }

  // ---- Swapping twice

  // A fullscreen window already fills its monitor, so swapping does not resize it for good.
  predicate FillsMonitor(s: WinState, m: MonState) {
    s.pos == m.pos && s.size == m.size
  }

  predicate Restored(s: WinState, x: WsId, y: WsId, ma: MonState, mb: MonState) {
    && !(s.fs.pinned && s.ws == x)
    && (s.IsFullscreen() && s.ws == x ==> FillsMonitor(s, ma))
    && (s.IsFullscreen() && s.ws == y ==> FillsMonitor(s, mb))
  }

  lemma CrossTwice(s: WinState, x: WsId, y: WsId, a: MonId, b: MonId, ma: MonState, mb: MonState)
    requires x != y
    requires s.IsFullscreen() ==> !s.fs.pinned
    requires !s.fs.pinned && s.ws == x ==> s.mon == Some(a)
    requires !s.fs.pinned && s.ws == y ==> s.mon == Some(b)
    ensures CrossBoth(CrossBoth(s, x, y, a, b, ma, mb), y, x, a, b, ma, mb) == s <==> Restored(s, x, y, ma, mb)
  {
  }

  // Two swaps give back every workspace and every monitor, and every window except exactly
  // the pinned windows of the first workspace and fullscreen windows that did not fill
  // their monitor.
  lemma SwapTwice(d: Desk, a: MonId, b: MonId)
    requires Wf(d) && FsInv(d) && MonInv(d) && BothShow(d, a, b) && a != b
    ensures Wf(Swap(d, a, b)) && BothShow(Swap(d, a, b), a, b)
    ensures var r := Swap(Swap(d, a, b), a, b);
      && r.ws == d.ws && r.mon == d.mon && r.win.Keys == d.win.Keys
      && forall w :: w in d.win ==> (r.win[w] == d.win[w] <==>
           Restored(d.win[w], d.mon[a].active.value, d.mon[b].active.value, d.mon[a], d.mon[b]))
  {
    SwapWf(d, a, b);
    SwapTables(d, a, b);
    SwapTwiceTables(d, a, b);
    forall w | w in d.win
      ensures w in Swap(Swap(d, a, b), a, b).win
      ensures Swap(Swap(d, a, b), a, b).win[w] == d.win[w] <==>
              Restored(d.win[w], d.mon[a].active.value, d.mon[b].active.value, d.mon[a], d.mon[b])
    {
      SwapTwiceOf(d, a, b, w);
    }
  }

  lemma SwapTwiceTables(d: Desk, a: MonId, b: MonId)
    requires Wf(d) && MonInv(d) && BothShow(d, a, b) && a != b
    requires Wf(Swap(d, a, b)) && BothShow(Swap(d, a, b), a, b)
    ensures var r := Swap(Swap(d, a, b), a, b);
      r.ws == d.ws && r.mon == d.mon && r.win.Keys == d.win.Keys
  {
    var d1 := Swap(d, a, b);
    SwapTables(d, a, b);
    SwapTables(d1, a, b);
    SameMap(Swap(d1, a, b).ws, d.ws);
    SameMap(Swap(d1, a, b).mon, d.mon);
  }

  lemma SwapTwiceOf(d: Desk, a: MonId, b: MonId, w: WinId)
    requires Wf(d) && FsInv(d) && MonInv(d) && BothShow(d, a, b) && a != b && w in d.win
    requires Wf(Swap(d, a, b)) && BothShow(Swap(d, a, b), a, b)
    ensures var r := Swap(Swap(d, a, b), a, b);
      && w in r.win
      && (r.win[w] == d.win[w] <==>
           Restored(d.win[w], d.mon[a].active.value, d.mon[b].active.value, d.mon[a], d.mon[b]))
  {
    var (x, y) := (d.mon[a].active.value, d.mon[b].active.value);
    var d1 := Swap(d, a, b);
    SwapTables(d, a, b);
    SwapWindow(d, a, b, w);
    SwapWindow(d1, a, b, w);
    assert Shown(d.win[w], d.ws[d.win[w].ws]);
    PlacedOnly(d1.win[w], y, x, a, b, d1.mon[a], d1.mon[b], d.mon[a], d.mon[b]);
    CrossTwice(d.win[w], x, y, a, b, d.mon[a], d.mon[b]);
  }

  // A window's new place depends on the monitors' boxes only.
  lemma PlacedOnly(s: WinState, x: WsId, y: WsId, a: MonId, b: MonId, ma: MonState, mb: MonState, na: MonState, nb: MonState)
    requires ma.pos == na.pos && ma.size == na.size && mb.pos == nb.pos && mb.size == nb.size
    ensures CrossBoth(s, x, y, a, b, ma, mb) == CrossBoth(s, x, y, a, b, na, nb)
  {
  }
}
