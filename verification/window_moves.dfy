// Moving a window to another workspace (src/Compositor.cpp, src/desktop/Window.cpp).
module WindowMoves {
  import opened Common
  import opened DesktopState
  import opened Fullscreen

  // CWorkspace::updateWindows, as far as the flag goes.
  ghost function UpdateWindows(d: Desk, x: WsId): (r: Desk)
    requires x in d.ws
    ensures r == d.(ws := r.ws) && r.ws.Keys == d.ws.Keys
    ensures Wf(d) ==> Wf(r)
  {
    var any := exists w :: w in d.win && d.win[w].traits.mapped && FullscreenOn(d, w, x);
    d.(ws := d.ws[x := d.ws[x].(hasFs := any)])
  }

  ghost function PutWin(d: Desk, w: WinId, s: WinState): (r: Desk)
    ensures r == d.(win := r.win)
    ensures Wf(d) && w in d.win && s.ws in d.ws && Known(s.mon, d.mon) ==> Wf(r) && r.win.Keys == d.win.Keys
  {
    d.(win := d.win[w := s])
  }

  // CWindow::moveToWorkspace
  ghost function Rehome(d: Desk, w: WinId, x: WsId): (r: Desk)
    requires Wf(d) && w in d.win && x in d.ws
    ensures Wf(r) && r == d.(win := r.win, ws := r.ws) && r.ws.Keys == d.ws.Keys
  {
    if d.win[w].ws == x then d
    else UpdateWindows(UpdateWindows(PutWin(d, w, d.win[w].(ws := x)), d.win[w].ws), x)
  }

  ghost function MonitorOrigin(d: Desk, m: Option<MonId>): Vec {
    if m.Some? && m.value in d.mon then d.mon[m.value].pos else ORIGIN
  }

  // The window's new monitor, and for a floating window its place on that monitor.
  function Settled(s: WinState, mon: Option<MonId>, from: Vec, to: Vec): WinState {
    s.(mon := mon, pos := if s.traits.floating then s.pos.Minus(from).Plus(to) else s.pos)
  }

  ghost predicate Stays(d: Desk, w: WinId, x: WsId)
    requires w in d.win && x in d.ws
  {
    (d.win[w].fs.pinned && d.ws[x].special) || d.win[w].ws == x
  }

  // CCompositor::moveWindowToWorkspaceSafe without window groups. A floating window's place
  // is read from the target's monitor, so that has to exist.
  ghost function MoveWindow(d: Desk, w: WinId, x: WsId): (r: Desk)
    requires Wf(d) && w in d.win && x in d.ws && CanEvict(d, w)
    requires d.win[w].traits.floating ==> d.ws[x].mon.Some?
  {
    if Stays(d, w, x) then d
    else
      var was := d.win[w].fs.internal;
      var d1 := if d.win[w].IsFullscreen() then SetInternal(d, w, FSMODE_NONE) else d;
      SamePlacesWf(d, d1);
      var d2 := Arrive(d1, w, x);
      ArriveCanEvict(d1, w, x);
      var d3 := if d.win[w].IsFullscreen() then SetInternal(d2, w, was) else d2;
      SamePlacesWf(d2, d3);
      UpdateWindows(d3, x)
  }

  // The steps between leaving fullscreen and going back to it.
  ghost function Arrive(d: Desk, w: WinId, x: WsId): (r: Desk)
    requires Wf(d) && w in d.win && x in d.ws
    ensures Wf(r) && r.win.Keys == d.win.Keys && r.ws.Keys == d.ws.Keys
  {
    var from := MonitorOrigin(d, d.win[w].mon);
    var r := Rehome(d, w, x);
    PutWin(r, w, Settled(r.win[w], r.ws[x].mon, from, MonitorOrigin(r, r.ws[x].mon)))
  }

  lemma ArriveCanEvict(d: Desk, w: WinId, x: WsId)
    requires Wf(d) && w in d.win && x in d.ws && d.win[w].ws != x
    ensures CanEvict(Arrive(d, w, x), w)
  {
    var r := Arrive(d, w, x);
    var d1 := UpdateWindows(PutWin(d, w, d.win[w].(ws := x)), d.win[w].ws);
    if r.ws[x].hasFs {
      assert r.ws == UpdateWindows(d1, x).ws;
      var v :| v in d1.win && FullscreenOn(d1, v, x);
      assert FullscreenOn(d1, v, x);
      assert FullscreenOn(r, v, x);
    }
  }

  // ---- What a move does

  // The flag already says what updateWindows recomputes.
  lemma UpdateIsQuiet(d: Desk, x: WsId)
    requires Wf(d) && FsInv(d) && x in d.ws
    ensures UpdateWindows(d, x) == d
  {
    if d.ws[x].hasFs {
      var v :| FullscreenOn(d, v, x);
      assert Shown(d.win[v], d.ws[x]);
    } else {
      forall w | w in d.win
        ensures !FullscreenOn(d, w, x)
      {
        assert Shown(d.win[w], d.ws[d.win[w].ws]);
      }
    }
    assert d.ws[x := UpdateWindows(d, x).ws[x]] == d.ws;
  }

  // Nothing but the place of windows that are not fullscreen differs.
  ghost predicate QuietMove(d: Desk, r: Desk) {
    && r.windows == d.windows && r.workspaces == d.workspaces && r.win.Keys == d.win.Keys
    && (forall w :: w in d.win ==>
          && r.win[w].fs == d.win[w].fs && r.win[w].traits == d.win[w].traits
          && (r.win[w].ws == d.win[w].ws || !d.win[w].IsFullscreen()))
    && r.ws.Keys == d.ws.Keys
    && (forall x :: x in d.ws ==> r.ws[x].hasFs == d.ws[x].hasFs && r.ws[x].mode == d.ws[x].mode)
  }

  lemma QuietMoveKeepsInv(d: Desk, r: Desk)
    requires Wf(d) && FsInv(d) && Wf(r) && QuietMove(d, r)
    ensures FsInv(r)
  {
    forall w | w in r.win
      ensures Shown(r.win[w], r.ws[r.win[w].ws])
    {
      assert Shown(d.win[w], d.ws[d.win[w].ws]);
    }
    forall x | x in r.ws && r.ws[x].hasFs
      ensures exists w :: FullscreenOn(r, w, x)
    {
      var w :| FullscreenOn(d, w, x);
      assert FullscreenOn(r, w, x);
    }
    forall v, w, x | FullscreenOn(r, v, x) && FullscreenOn(r, w, x)
      ensures v == w
    {
      assert FullscreenOn(d, v, x) && FullscreenOn(d, w, x);
    }
  }

  lemma RehomeIsQuiet(d: Desk, w: WinId, x: WsId)
    requires Wf(d) && FsInv(d) && w in d.win && !d.win[w].IsFullscreen() && x in d.ws
    ensures Rehome(d, w, x) == PutWin(d, w, d.win[w].(ws := x))
    ensures FsInv(Rehome(d, w, x))
  {
    var d1 := PutWin(d, w, d.win[w].(ws := x));
    QuietMoveKeepsInv(d, d1);
    UpdateIsQuiet(d1, d.win[w].ws);
    UpdateIsQuiet(d1, x);
    assert d.win[w := d.win[w]] == d.win;
  }

  // The window is on x and on its monitor.
  ghost function Arrived(d: Desk, w: WinId, x: WsId): Desk
    requires w in d.win && x in d.ws
  {
    PutWin(d, w, Settled(d.win[w].(ws := x), d.ws[x].mon, MonitorOrigin(d, d.win[w].mon), MonitorOrigin(d, d.ws[x].mon)))
  }

  lemma ArriveKeepsInv(d: Desk, w: WinId, x: WsId)
    requires Wf(d) && FsInv(d) && w in d.win && !d.win[w].IsFullscreen() && x in d.ws
    ensures FsInv(Arrive(d, w, x))
    ensures Arrive(d, w, x) == Arrived(d, w, x)
  {
    RehomeIsQuiet(d, w, x);
    var s1 := d.win[w].(ws := x);
    var s2 := Settled(s1, d.ws[x].mon, MonitorOrigin(d, d.win[w].mon), MonitorOrigin(d, d.ws[x].mon));
    assert d.win[w := s1][w := s2] == d.win[w := s2];
    QuietMoveKeepsInv(d, Arrive(d, w, x));
  }

  // A move keeps the invariant except while the compositor is in its unsafe state.
  lemma MoveKeepsInv(d: Desk, w: WinId, x: WsId)
    requires Wf(d) && FsInv(d) && w in d.win && x in d.ws
    requires d.win[w].traits.floating ==> d.ws[x].mon.Some?
    requires !(d.unsafe && d.win[w].IsFullscreen() && !Stays(d, w, x))
    ensures CanEvict(d, w)
    ensures Wf(MoveWindow(d, w, x)) && FsInv(MoveWindow(d, w, x))
  {
    if !Stays(d, w, x) {
      var d1 := Left(d, w);
      ArriveKeepsInv(d1, w, x);
      var d2 := Arrive(d1, w, x);
      if d.win[w].IsFullscreen() {
        RequestKeepsInv(d2, w, d.win[w].fs.internal,
          if d2.win[w].traits.sync then d.win[w].fs.internal else d2.win[w].fs.client);
        var d3 := SetInternal(d2, w, d.win[w].fs.internal);
        UpdateIsQuiet(d3, x);
        assert MoveWindow(d, w, x) == d3;
      } else {
        UpdateIsQuiet(d2, x);
        assert MoveWindow(d, w, x) == d2;
      }
    }
  }

  // The desk once w has left fullscreen.
  ghost function Left(d: Desk, w: WinId): (r: Desk)
    requires Wf(d) && FsInv(d) && w in d.win && !(d.unsafe && d.win[w].IsFullscreen())
    ensures CanEvict(d, w) && Wf(r) && FsInv(r) && SamePlaces(d, r) && !r.win[w].IsFullscreen()
    ensures r == if d.win[w].IsFullscreen() then SetInternal(d, w, FSMODE_NONE) else d
  {
    if d.win[w].IsFullscreen() then
      var client := if d.win[w].traits.sync then FSMODE_NONE else d.win[w].fs.client;
      RequestKeepsInv(d, w, FSMODE_NONE, client);
      RequestMode(d, w, FSMODE_NONE, client);
      SetInternal(d, w, FSMODE_NONE)
    else d
  }

  lemma UnsafeMoveIs(d: Desk, w: WinId, x: WsId)
    requires Wf(d) && FsInv(d) && w in d.win && x in d.ws
    requires d.win[w].traits.floating ==> d.ws[x].mon.Some?
    requires d.unsafe && d.win[w].IsFullscreen() && !Stays(d, w, x)
    ensures CanEvict(d, w) && Wf(MoveWindow(d, w, x))
    ensures MoveWindow(d, w, x) == UpdateWindows(Arrive(d, w, x), x)
  {
    var d2 := Arrive(d, w, x);
    assert SetInternal(d, w, FSMODE_NONE) == d;
    ArriveCanEvict(d, w, x);
    assert SetInternal(d2, w, d.win[w].fs.internal) == d2;
  }

  // In the unsafe state the window stays fullscreen on its way, and the workspace it left
  // keeps the mode of a window it no longer has.
  lemma UnsafeMoveBreaksInv(d: Desk, w: WinId, x: WsId)
    requires Wf(d) && FsInv(d) && w in d.win && x in d.ws
    requires d.win[w].traits.floating ==> d.ws[x].mon.Some?
    requires d.unsafe && d.win[w].IsFullscreen() && !Stays(d, w, x)
    ensures CanEvict(d, w)
    ensures Wf(MoveWindow(d, w, x)) && !FsInv(MoveWindow(d, w, x))
  {
    UnsafeMoveIs(d, w, x);
    UnsafeMoveKeepsMode(d, w, x);
    UnsafeMoveLeaves(d, w, x);
    NotHonest(MoveWindow(d, w, x), d.win[w].ws);
  }

  lemma NotHonest(d: Desk, x: WsId)
    requires x in d.ws && d.ws[x].mode != FSMODE_NONE && forall v :: !FullscreenOn(d, v, x)
    ensures !Honest(d)
  {
  }

  lemma UnsafeMoveKeepsMode(d: Desk, w: WinId, x: WsId)
    requires Wf(d) && FsInv(d) && w in d.win && x in d.ws && d.win[w].IsFullscreen()
    ensures var r, from := UpdateWindows(Arrive(d, w, x), x), d.win[w].ws;
      from in r.ws && r.ws[from].mode != FSMODE_NONE
  {
    assert Shown(d.win[w], d.ws[d.win[w].ws]);
  }

  lemma UnsafeMoveLeaves(d: Desk, w: WinId, x: WsId)
    requires Wf(d) && FsInv(d) && w in d.win && x in d.ws && d.win[w].IsFullscreen() && d.win[w].ws != x
    ensures forall v :: !FullscreenOn(UpdateWindows(Arrive(d, w, x), x), v, d.win[w].ws)
  {
    var d2, from := Arrive(d, w, x), d.win[w].ws;
    assert FullscreenOn(d, w, from);
    forall v | FullscreenOn(UpdateWindows(d2, x), v, from)
      ensures false
    {
      assert FullscreenOn(d2, v, from);
      assert v != w && d2.win[v] == d.win[v];
      assert FullscreenOn(d, v, from);
    }
  }

  lemma MoveKeepsInvExactly(d: Desk, w: WinId, x: WsId)
    requires Wf(d) && FsInv(d) && w in d.win && x in d.ws
    requires d.win[w].traits.floating ==> d.ws[x].mon.Some?
    ensures CanEvict(d, w) && Wf(MoveWindow(d, w, x))
    ensures FsInv(MoveWindow(d, w, x)) <==> !(d.unsafe && d.win[w].IsFullscreen() && !Stays(d, w, x))
  {
    if d.unsafe && d.win[w].IsFullscreen() && !Stays(d, w, x) {
      UnsafeMoveBreaksInv(d, w, x);
    } else {
      MoveKeepsInv(d, w, x);
    }
  }

  // A window that is there already stays as it is, and so does a pinned one that is to go to a special
  // workspace.
  lemma MoveRefused(d: Desk, w: WinId, x: WsId)
    requires Wf(d) && FsInv(d) && w in d.win && x in d.ws
    requires d.win[w].traits.floating ==> d.ws[x].mon.Some?
    requires d.win[w].ws == x || (d.win[w].fs.pinned && d.ws[x].special)
    ensures CanEvict(d, w) && MoveWindow(d, w, x) == d
  {
  }

  // A window that moves takes its mode along; whoever was fullscreen there gives way, and a
  // floating window keeps its place relative to its monitor.
  lemma MoveEffect(d: Desk, w: WinId, x: WsId)
    requires Wf(d) && FsInv(d) && w in d.win && x in d.ws && !d.unsafe
    requires d.win[w].ws != x && !(d.win[w].fs.pinned && d.ws[x].special)
    requires d.win[w].traits.floating ==> d.ws[x].mon.Some?
    ensures CanEvict(d, w)
    ensures var r, s := MoveWindow(d, w, x), d.win[w];
      && r.win[w].ws == x && r.win[w].mon == d.ws[x].mon
      && r.win[w].fs.internal == s.fs.internal
      && r.win[w].fs.pinned == s.fs.pinned
      && (s.IsFullscreen() ==> forall v :: v != w ==> !FullscreenOn(r, v, x))
      && r.win[w].size == s.size
      && var from := if s.mon.Some? then d.mon[s.mon.value].pos else ORIGIN;
         var to := if d.ws[x].mon.Some? then d.mon[d.ws[x].mon.value].pos else ORIGIN;
         if s.traits.floating then
           r.win[w].pos.x - to.x == s.pos.x - from.x && r.win[w].pos.y - to.y == s.pos.y - from.y
         else r.win[w].pos == s.pos
  {
    MoveIs(d, w, x);
    SettledPlace(d.win[w].(ws := x), d.ws[x].mon, MonitorOrigin(d, d.win[w].mon), MonitorOrigin(d, d.ws[x].mon));
    if d.win[w].IsFullscreen() {
      MoveKeepsInv(d, w, x);
      OnlyOne(MoveWindow(d, w, x), w, x);
    }
  }

  lemma OnlyOne(d: Desk, w: WinId, x: WsId)
    requires Unique(d) && FullscreenOn(d, w, x)
    ensures forall v :: v != w ==> !FullscreenOn(d, v, x)
  {
  }

  lemma SettledPlace(s: WinState, mon: Option<MonId>, from: Vec, to: Vec)
    ensures var r := Settled(s, mon, from, to);
      && r.ws == s.ws && r.mon == mon && r.size == s.size
      && if s.traits.floating then r.pos.x - to.x == s.pos.x - from.x && r.pos.y - to.y == s.pos.y - from.y
         else r.pos == s.pos
  {
  }

  lemma MoveIs(d: Desk, w: WinId, x: WsId)
    requires Wf(d) && FsInv(d) && w in d.win && x in d.ws && !d.unsafe && !Stays(d, w, x)
    requires d.win[w].traits.floating ==> d.ws[x].mon.Some?
    ensures CanEvict(d, w)
    ensures var r, s := MoveWindow(d, w, x), d.win[w];
      && w in r.win && r.win[w].fs.internal == s.fs.internal && r.win[w].fs.pinned == s.fs.pinned
      && r.win[w] == Settled(s.(ws := x), d.ws[x].mon, MonitorOrigin(d, s.mon),
                             MonitorOrigin(d, d.ws[x].mon)).(fs := r.win[w].fs)
  {
    if d.win[w].IsFullscreen() {
      FullscreenMoveEffect(d, w, x);
    } else {
      ArriveKeepsInv(d, w, x);
      UpdateIsQuiet(Arrive(d, w, x), x);
    }
  }

  lemma FullscreenMoveIs(d: Desk, w: WinId, x: WsId) returns (d1: Desk, d2: Desk, client: int)
    requires Wf(d) && FsInv(d) && w in d.win && x in d.ws && !d.unsafe && !Stays(d, w, x)
    requires d.win[w].traits.floating ==> d.ws[x].mon.Some?
    requires d.win[w].IsFullscreen()
    ensures CanEvict(d, w) && Wf(d1) && FsInv(d1) && SamePlaces(d, d1)
    ensures d1 == SetInternal(d, w, FSMODE_NONE) && !d1.win[w].IsFullscreen()
    ensures Wf(d2) && FsInv(d2) && w in d2.win && CanEvict(d2, w)
    ensures d2 == Arrived(d1, w, x)
    ensures MoveWindow(d, w, x) == SetState(d2, w, d.win[w].fs.internal, client)
  {
    d1 := Left(d, w);
    ArriveKeepsInv(d1, w, x);
    d2 := Arrive(d1, w, x);
    var mode := d.win[w].fs.internal;
    client := if d2.win[w].traits.sync then mode else d2.win[w].fs.client;
    RequestKeepsInv(d2, w, mode, client);
    UpdateIsQuiet(SetInternal(d2, w, mode), x);
  }

  lemma ArrivedFrame(d: Desk, w: WinId, x: WsId, v: WinId)
    requires w in d.win && x in d.ws && v in d.win && v != w
    ensures var r := Arrived(d, w, x);
      && r.win[v] == d.win[v] && r.unsafe == d.unsafe && r.allowPin == d.allowPin
      && r.win[w].ws == x && r.win[w].traits == d.win[w].traits
  {
  }

  // The fullscreen fields do not matter for the place.
  lemma ArrivedIs(d: Desk, d1: Desk, w: WinId, x: WsId)
    requires w in d.win && x in d.ws && SamePlaces(d, d1)
    ensures var s, r := d.win[w], Arrived(d1, w, x);
      && r.win[w] == Settled(s.(ws := x), d.ws[x].mon, MonitorOrigin(d, s.mon), MonitorOrigin(d, d.ws[x].mon)).(fs := r.win[w].fs)
      && r.win[w].fs == d1.win[w].fs && r.win[w].traits == s.traits && r.unsafe == d.unsafe && r.allowPin == d.allowPin
  {
    assert d1.win[w] == d.win[w].(fs := d1.win[w].fs) && d1.ws[x].mon == d.ws[x].mon && d1.mon == d.mon;
  }

  lemma FullscreenMoveEffect(d: Desk, w: WinId, x: WsId)
    requires Wf(d) && FsInv(d) && w in d.win && x in d.ws && !d.unsafe && !Stays(d, w, x)
    requires d.win[w].traits.floating ==> d.ws[x].mon.Some?
    requires d.win[w].IsFullscreen()
    ensures CanEvict(d, w)
    ensures var r, s := MoveWindow(d, w, x), d.win[w];
      && r.win[w].fs.internal == s.fs.internal && r.win[w].fs.pinned == s.fs.pinned
      && r.win[w] == Settled(s.(ws := x), d.ws[x].mon, MonitorOrigin(d, s.mon),
                             MonitorOrigin(d, d.ws[x].mon)).(fs := r.win[w].fs)
  {
    var d1, d2, client := FullscreenMoveIs(d, w, x);
    var s := d.win[w];
    ArrivedIs(d, d1, w, x);
    LeavesAndReturns(d, w, d1, d2, client);
  }

  // A window that leaves fullscreen and goes back to it, wherever it is by then.
  lemma LeavesAndReturns(d: Desk, w: WinId, d1: Desk, d2: Desk, client: int)
    requires Wf(d) && FsInv(d) && w in d.win && !d.unsafe && d.win[w].IsFullscreen()
    requires CanEvict(d, w) && d1 == SetInternal(d, w, FSMODE_NONE)
    requires Wf(d2) && FsInv(d2) && w in d2.win && CanEvict(d2, w)
    requires d2.win[w].fs == d1.win[w].fs && d2.win[w].traits == d.win[w].traits
    requires d2.unsafe == d.unsafe && d2.allowPin == d.allowPin
    ensures var r, s := SetState(d2, w, d.win[w].fs.internal, client), d.win[w];
      && r.win[w].fs.internal == s.fs.internal && r.win[w].fs.pinned == s.fs.pinned
      && r.win[w] == d2.win[w].(fs := r.win[w].fs)
  {
    var s := d.win[w];
    assert Shown(s, d.ws[s.ws]);
    RequestMode(d, w, FSMODE_NONE, if s.traits.sync then FSMODE_NONE else s.fs.client);
    RequestMode(d2, w, s.fs.internal, client);
  }

  lemma InternalElsewhere(d: Desk, w: WinId, mode: int, v: WinId)
    requires Wf(d) && FsInv(d) && w in d.win && d.win[w].traits.mapped && !d.unsafe
    requires v in d.win && d.win[v].ws != d.win[w].ws
    ensures CanEvict(d, w) && SetInternal(d, w, mode).win[v] == d.win[v]
  {
    RequestOthers(d, w, mode, if d.win[w].traits.sync then mode else d.win[w].fs.client);
  }

  // Windows of third workspaces do not notice the move.
  lemma MoveElsewhere(d: Desk, w: WinId, x: WsId, v: WinId)
    requires Wf(d) && FsInv(d) && w in d.win && x in d.ws && !d.unsafe
    requires d.win[w].traits.floating ==> d.ws[x].mon.Some?
    requires v in d.win && d.win[v].ws != x && d.win[v].ws != d.win[w].ws
    ensures CanEvict(d, w) && MoveWindow(d, w, x).win[v] == d.win[v]
  {
    if !Stays(d, w, x) && d.win[w].IsFullscreen() {
      assert Shown(d.win[w], d.ws[d.win[w].ws]);
      InternalElsewhere(d, w, FSMODE_NONE, v);
      var d1 := Left(d, w);
      ArriveKeepsInv(d1, w, x);
      InternalElsewhere(Arrive(d1, w, x), w, d.win[w].fs.internal, v);
    }
  }
}
