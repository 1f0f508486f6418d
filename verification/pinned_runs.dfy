// Pinned windows over runs of the desktop's operations: whether they are on their workspace's
// monitor, and whether their workspace is shown (src/Compositor.cpp).
module PinnedRuns {
  import opened Common
  import opened DesktopState
  import opened Fullscreen
  import opened WindowMoves
  import opened Workspaces
  import opened WorkspaceSwap
  import opened PinnedWindows
  import opened DesktopRuns

  // ---- at home

  // Every window, pinned ones included, is on its workspace's monitor.
  ghost predicate AllHome(d: Desk)
    requires Wf(d)
  {
    forall w :: w in d.win ==> d.win[w].mon == d.ws[d.win[w].ws].mon
  }

  // The operations that leave pinned windows on a monitor that their workspace goes away from: a
  // swap whose first workspace has some, and a move of a workspace that has some and is not shown.
  ghost predicate LeavesBehind(d: Desk, op: Op)
    requires Wf(d) && Typed(d, op)
  {
    match op
    case MoveWs(x, m) => d.ws[x].mon != Some(m) && !Switching(d, x) && exists w :: PinnedOn(d, w, x)
    case SwapShown(a, b) => a != b && exists w :: PinnedOn(d, w, d.mon[a].active.value)
    case _ => false
  }

  // What a move of a window does to the places of all windows and workspaces.
  lemma ArrivePlaces(d: Desk, w: WinId, x: WsId)
    requires Wf(d) && w in d.win && x in d.ws && d.win[w].ws != x
    ensures var r := Arrive(d, w, x);
      && (forall v :: v in d.win && v != w ==> r.win[v] == d.win[v])
      && r.win[w].ws == x && r.win[w].mon == d.ws[x].mon && r.win[w].fs == d.win[w].fs
      && (forall y :: y in d.ws ==> r.ws[y].mon == d.ws[y].mon)
  {
  }

  lemma SamePlacesHome(d: Desk, r: Desk)
    requires Wf(d) && AllHome(d) && SamePlaces(d, r)
    ensures Wf(r) && AllHome(r)
  {
    SamePlacesWf(d, r);
  }

  lemma ArriveHome(d: Desk, w: WinId, x: WsId)
    requires Wf(d) && AllHome(d) && w in d.win && x in d.ws && d.win[w].ws != x
    ensures AllHome(Arrive(d, w, x))
  {
    ArrivePlaces(d, w, x);
  }

  lemma FlagKeepsHome(d: Desk, x: WsId)
    requires Wf(d) && AllHome(d) && x in d.ws
    ensures AllHome(UpdateWindows(d, x))
  {
  }

  lemma MoveKeepsHome(d: Desk, w: WinId, x: WsId)
    requires Wf(d) && w in d.win && x in d.ws && CanEvict(d, w) && AllHome(d)
    requires d.win[w].traits.floating ==> d.ws[x].mon.Some?
    requires Wf(MoveWindow(d, w, x))
    ensures AllHome(MoveWindow(d, w, x))
  {
    if !Stays(d, w, x) {
      var d1 := if d.win[w].IsFullscreen() then SetInternal(d, w, FSMODE_NONE) else d;
      if d.win[w].IsFullscreen() {
        SamePlacesHome(d, d1);
      }
      var d2 := Arrive(d1, w, x);
      ArriveCanEvict(d1, w, x);
      ArriveHome(d1, w, x);
      var d3 := if d.win[w].IsFullscreen() then SetInternal(d2, w, d.win[w].fs.internal) else d2;
      if d.win[w].IsFullscreen() {
        SamePlacesHome(d2, d3);
      }
      FlagKeepsHome(d3, x);
    }
  }

  lemma SwapHomeExactly(d: Desk, a: MonId, b: MonId)
    requires Wf(d) && MonInv(d) && AllHome(d) && BothShow(d, a, b) && Wf(Swap(d, a, b))
    ensures AllHome(Swap(d, a, b)) <==> a == b || !exists w :: PinnedOn(d, w, d.mon[a].active.value)
  {
    var r := Swap(d, a, b);
    var (x, y) := (d.mon[a].active.value, d.mon[b].active.value);
    forall w | w in d.win
      ensures r.win[w].mon == r.ws[r.win[w].ws].mon <==> a == b || !PinnedOn(d, w, x)
    {
      SwapHomeOf(d, a, b, w);
    }
  }

  lemma SwapHomeOf(d: Desk, a: MonId, b: MonId, w: WinId)
    requires Wf(d) && MonInv(d) && AllHome(d) && BothShow(d, a, b) && Wf(Swap(d, a, b)) && w in d.win
    ensures var r := Swap(d, a, b);
      r.win[w].mon == r.ws[r.win[w].ws].mon <==> a == b || !PinnedOn(d, w, d.mon[a].active.value)
  {
    var r := Swap(d, a, b);
    var (x, y) := (d.mon[a].active.value, d.mon[b].active.value);
    SwapWindow(d, a, b, w);
    SwapTables(d, a, b);
    CrossHome(d.win[w], x, y, a, b, d.mon[a], d.mon[b]);
    assert d.win[w].mon == d.ws[d.win[w].ws].mon;
  }

  lemma CrossHome(s: WinState, x: WsId, y: WsId, a: MonId, b: MonId, ma: MonState, mb: MonState)
    requires s.ws == x ==> s.mon == Some(a)
    requires s.ws == y ==> s.mon == Some(b)
    requires a == b <==> x == y
    ensures var r := CrossBoth(s, x, y, a, b, ma, mb);
      && (s.ws != x && s.ws != y ==> r.ws == s.ws && r.mon == s.mon)
      && (s.ws == x || s.ws == y ==> r.ws == x || r.ws == y)
      && (r.ws == x && (s.ws == x || s.ws == y) ==> (r.mon == Some(b) <==> a == b || !(s.fs.pinned && s.ws == x)))
      && (r.ws == y && (s.ws == x || s.ws == y) ==> r.mon == Some(a))
  {
  }

  // The monitors of the workspaces after a move.
  lemma MonOfAfter(d: Desk, bound: map<WsId, MonId>, x: WsId, m: MonId, y: WsId)
    requires Wf(d) && FsInv(d) && Bindings(d, bound) && x in d.ws && m in d.mon
    requires d.ws[x].mon != Some(m) && y in d.ws && y != x
    ensures y in MoveWorkspace(d, bound, x, m).ws && MoveWorkspace(d, bound, x, m).ws[y].mon == d.ws[y].mon
  {
    MonOfPlugged(d, bound, x, y);
    MonOfHandedOn(Plugged(d, bound, x), x, Successor(d, bound, x), m, Home(d, x),
                  Switching(d, x) && d.ws[x].mon == d.last, y);
  }

  lemma MonOfPlugged(d: Desk, bound: map<WsId, MonId>, x: WsId, y: WsId)
    requires Wf(d) && FsInv(d) && Bindings(d, bound) && x in d.ws && y in d.ws
    ensures y in Plugged(d, bound, x).ws && Plugged(d, bound, x).ws[y].mon == d.ws[y].mon
  {
    if Switching(d, x) {
      var home := d.ws[x].mon.value;
      var next := NextShown(d, bound, x, home);
      NextShownEffect(d, bound, x, home);
      var d0 := PlugGapIs(d, bound, home, next);
      ChangedFrame(d0, home, next, y);
    }
  }

  lemma MonOfHandedOn(d: Desk, x: WsId, next: WsId, m: MonId, from: Option<MonState>, show: bool, y: WsId)
    requires x in d.ws && m in d.mon && y in d.ws && y != x
    ensures y in HandedOn(d, x, next, m, from, show).ws && HandedOn(d, x, next, m, from, show).ws[y].mon == d.ws[y].mon
  {
    var d2 := Handover(d, x, next, m, from);
    SetVisibleFlags(d2, d2.mon[m].active, false);
    SetVisibleFlags(SetVisible(d2, d2.mon[m].active, false), Some(x), true);
  }

  lemma CarryPlaces(s: WinState, x: WsId, next: WsId, m: MonId, from: Option<MonState>, to: MonState)
    ensures var r := Carry(s, x, next, m, from, to);
      if s.ws != x then r == s
      else if s.fs.pinned then r.ws == next && r.mon == s.mon
      else r.ws == x && r.mon == Some(m)
  {
  }

  lemma MoveHomeOf(d: Desk, bound: map<WsId, MonId>, x: WsId, m: MonId, w: WinId)
    requires Wf(d) && FsInv(d) && AllHome(d) && Bindings(d, bound) && x in d.ws && m in d.mon
    requires d.ws[x].mon != Some(m) && w in d.win
    requires Wf(MoveWorkspace(d, bound, x, m)) && w in MoveWorkspace(d, bound, x, m).win
    ensures var r := MoveWorkspace(d, bound, x, m);
      r.win[w].mon == r.ws[r.win[w].ws].mon <==> Switching(d, x) || !PinnedOn(d, w, x)
  {
    MoveWorkspaceWindows(d, bound, x, m, w);
    CarryPlaces(d.win[w], x, Successor(d, bound, x), m, Home(d, x), d.mon[m]);
    MoveWorkspaceMonitors(d, bound, x, m);
    assert d.win[w].mon == d.ws[d.win[w].ws].mon;
    if d.win[w].ws != x {
      MonOfAfter(d, bound, x, m, d.win[w].ws);
    }
  }

  lemma MoveWsHomeExactly(d: Desk, bound: map<WsId, MonId>, x: WsId, m: MonId)
    requires Wf(d) && FsInv(d) && AllHome(d) && Bindings(d, bound) && x in d.ws && m in d.mon
    requires Wf(MoveWorkspace(d, bound, x, m))
    ensures AllHome(MoveWorkspace(d, bound, x, m)) <==> !LeavesBehind(d, MoveWs(x, m))
  {
    var r := MoveWorkspace(d, bound, x, m);
    MoveKeepsWindows(d, bound, x, m);
    if d.ws[x].mon != Some(m) {
      forall w | w in d.win
        ensures r.win[w].mon == r.ws[r.win[w].ws].mon <==> Switching(d, x) || !PinnedOn(d, w, x)
      {
        MoveHomeOf(d, bound, x, m, w);
      }
    }
  }

  // One operation keeps every window on its workspace's monitor unless it is one of those two.
  lemma StepKeepsHomeExactly(d: Desk, bound: map<WsId, MonId>, op: Op)
    requires Wf(d) && Inv(d) && AllHome(d) && Bindings(d, bound) && Typed(d, op)
    ensures op.Request? || op.MoveWin? ==> CanEvict(d, op.w)
    ensures Wf(Step(d, bound, op)) && (AllHome(Step(d, bound, op)) <==> !LeavesBehind(d, op))
  {
    StepKeepsFsExactly(d, bound, op);
    match op
    case Request(w, internal, client) =>
    case MoveWin(w, x) => MoveKeepsHome(d, w, x);
    case MoveWs(x, m) => MoveWsHomeExactly(d, bound, x, m);
    case SwapShown(a, b) => SwapHomeExactly(d, a, b);
  }

  ghost predicate BringsAlong(d: Desk, op: Op) {
    Wf(d) && Typed(d, op) && !LeavesBehind(d, op)
  }

  // Outside the unsafe state, every run without those two keeps all invariants, also where pinned
  // windows can go fullscreen: no request ever strands one.
  lemma {:induction false} RunKeepsHome(bound: map<WsId, MonId>, ops: seq<Op>, ds: seq<Desk>, n: nat)
    requires IsRun(bound, ops, ds) && n < |ds|
    requires Wf(ds[0]) && Inv(ds[0]) && AllHome(ds[0]) && Bindings(ds[0], bound) && !ds[0].unsafe
    requires forall i :: 0 <= i < n ==> BringsAlong(ds[i], ops[i])
    ensures Wf(ds[n]) && Inv(ds[n]) && AllHome(ds[n]) && SameFrame(ds[0], ds[n])
  {
    if n > 0 {
      RunKeepsHome(bound, ops, ds, n - 1);
      var d, op := ds[n - 1], ops[n - 1];
      assert BringsAlong(d, op);
      NoneStranded(d, op);
      StepKeepsInvExactly(d, bound, op);
      StepKeepsHomeExactly(d, bound, op);
      RunStep(bound, ops, ds, n - 1);
      StepFrame(d, bound, op);
    }
  }

  lemma NoneStranded(d: Desk, op: Op)
    requires Wf(d) && AllHome(d) && Typed(d, op) && !d.unsafe
    ensures !Harmful(d, op)
  {
  }

  // ---- in sight

  // Once it leaves fullscreen, v is pinned again.
  ghost predicate Returns(d: Desk, v: WinId, x: WsId) {
    FullscreenOn(d, v, x) && d.allowPin && d.win[v].fs.pinFs
  }

  lemma EvictPinned(d: Desk, w: WinId, v: WinId)
    requires Wf(d) && FsInv(d) && w in d.win && v in d.win && v != w && !d.unsafe
    ensures CanEvict(d, w)
    ensures Evict(d, w).win[v].fs.pinned <==> d.win[v].fs.pinned || Returns(d, v, d.win[w].ws)
  {
    var f, c := EvictIsLeave(d, w);
    assert Shown(d.win[v], d.ws[d.win[v].ws]);
    if Alone(d, w) {
      OthersLeft(d, w);
    } else {
      assert Shown(d.win[f], d.ws[d.win[f].ws]);
      ApplyFrame(d, f, FSMODE_NONE, c);
    }
  }

  // Which windows are pinned after a request.
  lemma RequestPinned(d: Desk, w: WinId, internal: int, client: int, v: WinId)
    requires Wf(d) && FsInv(d) && w in d.win && d.win[w].traits.mapped && !d.unsafe && v in d.win && v != w
    ensures CanEvict(d, w)
    ensures SetState(d, w, internal, client).win[v].fs.pinned <==>
            d.win[v].fs.pinned || Returns(d, v, d.win[w].ws)
  {
    var d1, d2 := RequestSteps(d, w, internal, client);
    EvictPinned(d1, w, v);
    ApplyFrame(d2, w, ClampMode(internal), ClampMode(client));
  }

  lemma RequestPinsItself(d: Desk, w: WinId, internal: int, client: int)
    requires Wf(d) && FsInv(d) && w in d.win && d.win[w].traits.mapped && !d.unsafe
    ensures CanEvict(d, w)
    ensures var r := SetState(d, w, internal, client).win[w].fs.pinned;
      && (r ==> d.win[w].fs.pinned || (Returns(d, w, d.win[w].ws) && ClampMode(internal) == FSMODE_NONE))
      && (Returns(d, w, d.win[w].ws) && ClampMode(internal) == FSMODE_NONE ==> r)
  {
    RequestMode(d, w, internal, client);
    assert Shown(d.win[w], d.ws[d.win[w].ws]);
  }

  // A request pins v: v gives way, or is told to leave itself.
  ghost predicate PinsAnew(d: Desk, w: WinId, internal: int, v: WinId) {
    w in d.win && Returns(d, v, d.win[w].ws) && (v == w ==> ClampMode(internal) == FSMODE_NONE)
  }

  // A window of a workspace that is not shown is pinned anew, or a pinned window goes to one.
  ghost predicate HidesPins(d: Desk, op: Op)
    requires Wf(d) && Typed(d, op)
  {
    match op
    case Request(w, internal, _) =>
      && d.win[w].traits.mapped && !d.unsafe && !OnShow(d, d.win[w].ws)
      && exists v :: PinsAnew(d, w, internal, v)
    case MoveWin(w, x) =>
      && !Stays(d, w, x) && !OnShow(d, x)
      && (d.win[w].fs.pinned || (d.win[w].IsFullscreen() && !d.unsafe && exists v :: Returns(d, v, x)))
    case MoveWs(x, m) => exists w :: LeavesPinned(d, x, m, w)
    case SwapShown(_, _) => false
  }

  lemma PinsAfterRequest(d: Desk, w: WinId, internal: int, client: int, v: WinId)
    requires Wf(d) && FsInv(d) && w in d.win && d.win[w].traits.mapped && !d.unsafe && v in d.win
    ensures CanEvict(d, w)
    ensures var r := SetState(d, w, internal, client);
      && (r.win[v].fs.pinned ==> d.win[v].fs.pinned || PinsAnew(d, w, internal, v))
      && (PinsAnew(d, w, internal, v) ==> r.win[v].fs.pinned)
  {
    if v == w {
      RequestPinsItself(d, w, internal, client);
    } else {
      RequestPinned(d, w, internal, client, v);
    }
  }

  lemma RequestKeepsPinsExactly(d: Desk, w: WinId, internal: int, client: int)
    requires Wf(d) && FsInv(d) && PinsShown(d) && w in d.win
    ensures CanEvict(d, w)
    ensures PinsShown(SetState(d, w, internal, client)) <==> !HidesPins(d, Request(w, internal, client))
  {
    if d.win[w].traits.mapped && !d.unsafe {
      var r := SetState(d, w, internal, client);
      RequestKeepsInv(d, w, internal, client);
      forall v, z | PinnedOn(r, v, z)
        ensures PinnedOn(d, v, z) || PinsAnew(d, w, internal, v)
      {
        PinsAfterRequest(d, w, internal, client, v);
      }
      forall v | PinsAnew(d, w, internal, v)
        ensures PinnedOn(r, v, d.win[w].ws)
      {
        PinsAfterRequest(d, w, internal, client, v);
      }
      NewPins(d, r, w, internal);
    }
  }

  // Windows that are pinned anew are all on one workspace.
  lemma NewPins(d: Desk, r: Desk, w: WinId, internal: int)
    requires PinsShown(d) && w in d.win && r.mon == d.mon
    requires forall v, z :: PinnedOn(r, v, z) ==> PinnedOn(d, v, z) || (PinsAnew(d, w, internal, v) && z == d.win[w].ws)
    requires forall v :: PinsAnew(d, w, internal, v) ==> PinnedOn(r, v, d.win[w].ws)
    ensures PinsShown(r) <==> OnShow(d, d.win[w].ws) || !exists v :: PinsAnew(d, w, internal, v)
  {
  }

  // ---- moving a window

  // What a move of a window to x does to who is pinned where.
  ghost predicate PinnedByMove(d: Desk, w: WinId, x: WsId, v: WinId)
    requires w in d.win
  {
    if v == w then d.win[w].fs.pinned else d.win[w].IsFullscreen() && !d.unsafe && Returns(d, v, x)
  }

  lemma QuietMoveIs(d: Desk, w: WinId, x: WsId)
    requires Wf(d) && FsInv(d) && w in d.win && x in d.ws && !Stays(d, w, x)
    requires d.win[w].traits.floating ==> d.ws[x].mon.Some?
    requires d.win[w].IsFullscreen() ==> d.unsafe
    ensures CanEvict(d, w) && MoveWindow(d, w, x) == UpdateWindows(Arrive(d, w, x), x)
  {
    if d.win[w].IsFullscreen() {
      UnsafeMoveIs(d, w, x);
    }
  }

  lemma QuietMovePins(d: Desk, w: WinId, x: WsId, v: WinId)
    requires Wf(d) && FsInv(d) && w in d.win && x in d.ws && !Stays(d, w, x) && v in d.win
    requires d.win[w].traits.floating ==> d.ws[x].mon.Some?
    requires d.win[w].IsFullscreen() ==> d.unsafe
    ensures CanEvict(d, w) && v in MoveWindow(d, w, x).win
    ensures var r := MoveWindow(d, w, x);
      r.win[v].fs == d.win[v].fs && r.win[v].ws == if v == w then x else d.win[v].ws
  {
    QuietMoveIs(d, w, x);
    ArrivePlaces(d, w, x);
  }

  // Leaving fullscreen pins nobody else.
  lemma LeavePins(d: Desk, w: WinId, v: WinId)
    requires Wf(d) && FsInv(d) && w in d.win && v in d.win && v != w && d.win[w].IsFullscreen() && !d.unsafe
    ensures CanEvict(d, w)
    ensures var r := SetInternal(d, w, FSMODE_NONE);
      && v in r.win && r.win[v].ws == d.win[v].ws && r.win[v].fs.pinned == d.win[v].fs.pinned
      && (d.win[v].ws != d.win[w].ws ==> r.win[v] == d.win[v])
  {
    var s := d.win[w];
    assert Shown(s, d.ws[s.ws]) && FullscreenOn(d, w, s.ws);
    RequestPinned(d, w, FSMODE_NONE, if s.traits.sync then FSMODE_NONE else s.fs.client, v);
    if d.win[v].ws != s.ws {
      InternalElsewhere(d, w, FSMODE_NONE, v);
    }
  }

  // The window that a move to x makes fullscreen there.
  lemma ReturnPins(d: Desk, w: WinId, x: WsId, v: WinId, d1: Desk, d2: Desk)
    requires Wf(d) && FsInv(d) && w in d.win && v in d.win && v != w && d.win[w].IsFullscreen() && !d.unsafe
    requires CanEvict(d, w) && d1 == SetInternal(d, w, FSMODE_NONE) && d.win[w].ws != x
    requires v in d1.win && v in d2.win && d2.win[v] == d1.win[v] && d2.allowPin == d.allowPin
    ensures d2.win[v].ws == d.win[v].ws && d2.win[v].fs.pinned == d.win[v].fs.pinned
    ensures Returns(d2, v, x) <==> Returns(d, v, x)
  {
    LeavePins(d, w, v);
  }

  lemma FullscreenMovePins(d: Desk, w: WinId, x: WsId, v: WinId)
    requires Wf(d) && FsInv(d) && w in d.win && x in d.ws && !Stays(d, w, x) && v in d.win && v != w
    requires d.win[w].traits.floating ==> d.ws[x].mon.Some?
    requires d.win[w].IsFullscreen() && !d.unsafe
    ensures CanEvict(d, w) && v in MoveWindow(d, w, x).win
    ensures var r := MoveWindow(d, w, x);
      && r.win[v].ws == d.win[v].ws
      && (r.win[v].fs.pinned <==> d.win[v].fs.pinned || Returns(d, v, x))
  {
    assert Shown(d.win[w], d.ws[d.win[w].ws]);
    var d1, d2, client := FullscreenMoveIs(d, w, x);
    ArrivedFrame(d1, w, x, v);
    ReturnPins(d, w, x, v, d1, d2);
    RequestPinned(d2, w, d.win[w].fs.internal, client, v);
  }

  lemma PinsAfterMove(d: Desk, w: WinId, x: WsId, v: WinId)
    requires Wf(d) && FsInv(d) && w in d.win && x in d.ws && !Stays(d, w, x) && v in d.win
    requires d.win[w].traits.floating ==> d.ws[x].mon.Some?
    ensures CanEvict(d, w) && v in MoveWindow(d, w, x).win
    ensures var r := MoveWindow(d, w, x);
      && (r.win[v].fs.pinned ==> (v != w && PinnedOn(d, v, r.win[v].ws)) || (r.win[v].ws == x && PinnedByMove(d, w, x, v)))
      && (PinnedByMove(d, w, x, v) ==> PinnedOn(r, v, x))
  {
    if d.win[w].IsFullscreen() && !d.unsafe {
      if v == w {
        MoveIs(d, w, x);
      } else {
        FullscreenMovePins(d, w, x, v);
      }
    } else {
      QuietMovePins(d, w, x, v);
    }
  }

  lemma MoveWinKeepsPinsExactly(d: Desk, w: WinId, x: WsId)
    requires Wf(d) && FsInv(d) && PinsShown(d) && w in d.win && x in d.ws
    requires d.win[w].traits.floating ==> d.ws[x].mon.Some?
    ensures CanEvict(d, w)
    ensures PinsShown(MoveWindow(d, w, x)) <==> !HidesPins(d, MoveWin(w, x))
  {
    if !Stays(d, w, x) {
      var r := MoveWindow(d, w, x);
      MoveFrame(d, w, x);
      MoveWinKeepsWindows(d, w, x);
      forall v, z | PinnedOn(r, v, z)
        ensures PinnedOn(d, v, z) || (z == x && PinnedByMove(d, w, x, v))
      {
        PinsAfterMove(d, w, x, v);
      }
      forall v | v in d.win && PinnedByMove(d, w, x, v)
        ensures PinnedOn(r, v, x)
      {
        PinsAfterMove(d, w, x, v);
      }
      MovedPins(d, r, w, x);
    }
  }

  lemma MoveWinKeepsWindows(d: Desk, w: WinId, x: WsId)
    requires Wf(d) && w in d.win && x in d.ws && CanEvict(d, w)
    requires d.win[w].traits.floating ==> d.ws[x].mon.Some?
    ensures MoveWindow(d, w, x).win.Keys == d.win.Keys
  {
  }

  lemma MovedPins(d: Desk, r: Desk, w: WinId, x: WsId)
    requires PinsShown(d) && w in d.win && r.mon == d.mon
    requires forall v, z :: PinnedOn(r, v, z) ==> PinnedOn(d, v, z) || (z == x && PinnedByMove(d, w, x, v))
    requires forall v :: v in d.win && PinnedByMove(d, w, x, v) ==> PinnedOn(r, v, x)
    ensures PinsShown(r) <==> OnShow(d, x) || forall v :: v in d.win ==> !PinnedByMove(d, w, x, v)
  {
  }

  // ---- all four operations

  // One operation leaves every pinned window on a workspace that is shown, or is one of those that
  // hide some.
  lemma StepKeepsPinsExactly(d: Desk, bound: map<WsId, MonId>, op: Op)
    requires Wf(d) && Inv(d) && PinsShown(d) && Bindings(d, bound) && Typed(d, op)
    ensures op.Request? || op.MoveWin? ==> CanEvict(d, op.w)
    ensures PinsShown(Step(d, bound, op)) <==> !HidesPins(d, op)
  {
    match op
    case Request(w, internal, client) => RequestKeepsPinsExactly(d, w, internal, client);
    case MoveWin(w, x) => MoveWinKeepsPinsExactly(d, w, x);
    case MoveWs(x, m) => MoveKeepsPinsExactly(d, bound, x, m);
    case SwapShown(a, b) => SwapKeepsPins(d, a, b);
  }

  ghost predicate ShowsPins(d: Desk, op: Op) {
    Harmless(d, op) && !HidesPins(d, op)
  }

  // Every run without those, and without harmful ones, has all pinned windows in sight throughout.
  lemma {:induction false} RunKeepsPins(bound: map<WsId, MonId>, ops: seq<Op>, ds: seq<Desk>, n: nat)
    requires IsRun(bound, ops, ds) && n < |ds|
    requires Wf(ds[0]) && Inv(ds[0]) && PinsShown(ds[0]) && Bindings(ds[0], bound)
    requires forall i :: 0 <= i < n ==> ShowsPins(ds[i], ops[i])
    ensures Wf(ds[n]) && Inv(ds[n]) && PinsShown(ds[n]) && SameFrame(ds[0], ds[n])
  {
    if n > 0 {
      RunKeepsPins(bound, ops, ds, n - 1);
      var d, op := ds[n - 1], ops[n - 1];
      assert ShowsPins(d, op);
      StepKeepsInvExactly(d, bound, op);
      StepKeepsPinsExactly(d, bound, op);
      RunStep(bound, ops, ds, n - 1);
      StepFrame(d, bound, op);
    }
  }
}
