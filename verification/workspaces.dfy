// Workspaces that change monitors (src/Compositor.cpp, src/helpers/Monitor.cpp).
module Workspaces {
  import opened Common
  import opened DesktopState
  import opened Fullscreen
  import opened WindowMoves

  const WORKSPACE_INVALID := -1
  const SPECIAL_WORKSPACE_START := -99

  // Monitors and workspaces agree on who shows what, and a window is on the monitor of its
  // workspace unless it is pinned.
  ghost predicate MonInv(d: Desk)
    requires Wf(d)
  {
    ActivesAgree(d) && WindowsAgree(d) && VisibleAgrees(d)
  }

  ghost predicate ActivesAgree(d: Desk)
    requires Wf(d)
  {
    forall m :: m in d.mon && d.mon[m].active.Some? ==>
      d.ws[d.mon[m].active.value].mon == Some(m) && !d.ws[d.mon[m].active.value].special
  }

  ghost predicate WindowsAgree(d: Desk)
    requires Wf(d)
  {
    forall w :: w in d.win && !d.win[w].fs.pinned ==> d.win[w].mon == d.ws[d.win[w].ws].mon
  }

  ghost predicate VisibleAgrees(d: Desk)
    requires Wf(d)
  {
    forall x :: x in d.ws && !d.ws[x].special ==> (d.ws[x].visible <==> ShownOn(d, d.ws[x].mon, x))
  }

  ghost predicate ShownOn(d: Desk, m: Option<MonId>, x: WsId) {
    m.Some? && m.value in d.mon && d.mon[m.value].active == Some(x)
  }

  ghost function SetVisible(d: Desk, x: Option<WsId>, visible: bool): (r: Desk)
    ensures r == d.(ws := r.ws) && r.ws.Keys == d.ws.Keys
    ensures Wf(d) ==> Wf(r)
  {
    if x.Some? && x.value in d.ws then d.(ws := d.ws[x.value := d.ws[x.value].(visible := visible)]) else d
  }

  // The parts of a desktop that belong to none of its tables.
  ghost predicate SameSettings(d: Desk, r: Desk) {
    r.last == d.last && r.unsafe == d.unsafe && r.allowPin == d.allowPin
  }

  // ---- CMonitor::changeWorkspace

  // The loop that takes the pinned windows of `from` along.
  ghost function MovePinned(d: Desk, list: seq<WinId>, from: WsId, to: WsId): (r: Desk)
    requires Wf(d) && to in d.ws && forall i :: 0 <= i < |list| ==> list[i] in d.win
    ensures Wf(r) && r == d.(win := r.win, ws := r.ws) && r.ws.Keys == d.ws.Keys && r.win.Keys == d.win.Keys
    decreases |list|
  {
    if list == [] then d
    else
      var w := list[0];
      var d1 := if d.win[w].ws == from && d.win[w].fs.pinned then Rehome(d, w, to) else d;
      MovePinned(d1, list[1..], from, to)
  }

  // The monitor and the two flags, without the windows.
  ghost function Reshown(d: Desk, m: MonId, x: WsId): (r: Desk)
    requires m in d.mon
    ensures SameSettings(d, r) && r.ws.Keys == d.ws.Keys && r.mon.Keys == d.mon.Keys && r.win == d.win
    ensures r.windows == d.windows && (Wf(d) && x in d.ws ==> Wf(r))
  {
    var d1 := d.(mon := d.mon[m := d.mon[m].(active := Some(x))]);
    SetVisible(SetVisible(d1, d.mon[m].active, false), Some(x), true)
  }

  // The new workspace is one that m shows as an ordinary workspace.
  ghost function ChangeWorkspace(d: Desk, m: MonId, x: WsId): (r: Desk)
    requires Wf(d) && m in d.mon && x in d.ws
    ensures Wf(r) && r.win.Keys == d.win.Keys && r.ws.Keys == d.ws.Keys && r.mon.Keys == d.mon.Keys
    ensures SameSettings(d, r)
  {
    var was := d.mon[m].active;
    if was == Some(x) then d
    else
      var d2 := Reshown(d, m, x);
      if was.Some? then MovePinned(d2, d2.windows, was.value, x) else d2
  }

  function FollowPinned(s: WinState, from: WsId, to: WsId): WinState {
    if s.ws == from && s.fs.pinned then s.(ws := to) else s
  }

  ghost function FollowAll(win: map<WinId, WinState>, list: seq<WinId>, from: WsId, to: WsId): map<WinId, WinState> {
    map w | w in win :: if w in list then FollowPinned(win[w], from, to) else win[w]
  }

  lemma FollowNext(win: map<WinId, WinState>, list: seq<WinId>, from: WsId, to: WsId)
    requires list != [] && list[0] in win && from != to
    ensures FollowAll(win[list[0] := FollowPinned(win[list[0]], from, to)], list[1..], from, to)
         == FollowAll(win, list, from, to)
  {
    var win1 := win[list[0] := FollowPinned(win[list[0]], from, to)];
    assert win1.Keys == win.Keys;
    assert forall v :: v in list <==> v == list[0] || v in list[1..];
    SameMap(FollowAll(win1, list[1..], from, to), FollowAll(win, list, from, to));
  }

  lemma {:induction false} MovePinnedIsQuiet(d: Desk, list: seq<WinId>, from: WsId, to: WsId)
    requires Wf(d) && FsInv(d) && to in d.ws && from != to && forall i :: 0 <= i < |list| ==> list[i] in d.win
    ensures FsInv(MovePinned(d, list, from, to))
    ensures MovePinned(d, list, from, to) == d.(win := FollowAll(d.win, list, from, to))
    decreases |list|
  {
    if list == [] {
      SameMap(d.win, FollowAll(d.win, list, from, to));
    } else {
      var w := list[0];
      FollowNext(d.win, list, from, to);
      if d.win[w].ws == from && d.win[w].fs.pinned {
        assert Shown(d.win[w], d.ws[from]);
        RehomeIsQuiet(d, w, to);
        MovePinnedIsQuiet(Rehome(d, w, to), list[1..], from, to);
      } else {
        assert d.win[w := d.win[w]] == d.win;
        MovePinnedIsQuiet(d, list[1..], from, to);
      }
    }
  }

  // What changing the workspace of a monitor leaves, in one step.
  ghost function Changed(d: Desk, m: MonId, x: WsId): Desk
    requires m in d.mon && x in d.ws
  {
    var was := d.mon[m].active;
    if was == Some(x) then d
    else
      SetVisible(SetVisible(d, was, false), Some(x), true).(
        mon := d.mon[m := d.mon[m].(active := Some(x))],
        win := if was.Some? then FollowAll(d.win, d.windows, was.value, x) else d.win)
  }

  lemma ReshownIsQuiet(d: Desk, m: MonId, x: WsId)
    requires Wf(d) && FsInv(d) && m in d.mon && x in d.ws
    ensures Wf(Reshown(d, m, x)) && FsInv(Reshown(d, m, x))
  {
    ReshownFlags(d, m, x);
    QuietMoveKeepsInv(d, Reshown(d, m, x));
  }

  lemma ReshownFlags(d: Desk, m: MonId, x: WsId)
    requires Wf(d) && m in d.mon && x in d.ws
    ensures var r := Reshown(d, m, x);
      Wf(r) && r.win == d.win && forall y :: y in d.ws ==> r.ws[y] == d.ws[y].(visible := r.ws[y].visible)
  {
    var d1 := d.(mon := d.mon[m := d.mon[m].(active := Some(x))]);
    var d2 := SetVisible(d1, d.mon[m].active, false);
    SetVisibleFlags(d1, d.mon[m].active, false);
    SetVisibleFlags(d2, Some(x), true);
  }

  lemma SetVisibleFlags(d: Desk, x: Option<WsId>, visible: bool)
    ensures var r := SetVisible(d, x, visible);
      forall y :: y in d.ws ==> r.ws[y] == d.ws[y].(visible := r.ws[y].visible)
  {
  }

  lemma ChangeEffect(d: Desk, m: MonId, x: WsId)
    requires Wf(d) && FsInv(d) && m in d.mon && x in d.ws
    ensures ChangeWorkspace(d, m, x) == Changed(d, m, x)
    ensures FsInv(ChangeWorkspace(d, m, x))
  {
    var was := d.mon[m].active;
    if was != Some(x) {
      var d2 := Reshown(d, m, x);
      ReshownIsQuiet(d, m, x);
      if was.Some? {
        MovePinnedIsQuiet(d2, d2.windows, was.value, x);
      }
    }
  }

  lemma ChangedWf(d: Desk, m: MonId, x: WsId)
    requires Wf(d) && m in d.mon && x in d.ws
    ensures Wf(Changed(d, m, x))
  {
  }

  lemma ChangeKeepsActives(d: Desk, m: MonId, x: WsId)
    requires Wf(d) && MonInv(d) && m in d.mon && x in d.ws
    requires d.ws[x].mon == Some(m) && !d.ws[x].special && Wf(Changed(d, m, x))
    ensures ActivesAgree(Changed(d, m, x))
  {
  }

  lemma ChangeKeepsWindows(d: Desk, m: MonId, x: WsId)
    requires Wf(d) && MonInv(d) && m in d.mon && x in d.ws
    requires d.ws[x].mon == Some(m) && Wf(Changed(d, m, x))
    ensures WindowsAgree(Changed(d, m, x))
  {
    var r := Changed(d, m, x);
    forall w | w in r.win && !r.win[w].fs.pinned
      ensures r.win[w].mon == r.ws[r.win[w].ws].mon
    {
      assert r.win[w] == d.win[w];
      ChangedFrame(d, m, x, d.win[w].ws);
    }
  }

  lemma ChangeKeepsVisible(d: Desk, m: MonId, x: WsId)
    requires Wf(d) && MonInv(d) && m in d.mon && x in d.ws
    requires d.ws[x].mon == Some(m) && !d.ws[x].special && Wf(Changed(d, m, x))
    ensures VisibleAgrees(Changed(d, m, x))
  {
  }

  lemma ChangeKeepsMonInv(d: Desk, m: MonId, x: WsId)
    requires Wf(d) && MonInv(d) && m in d.mon && x in d.ws
    requires d.ws[x].mon == Some(m) && !d.ws[x].special
    ensures Wf(Changed(d, m, x)) && MonInv(Changed(d, m, x))
  {
    ChangedWf(d, m, x);
    ChangeKeepsActives(d, m, x);
    ChangeKeepsWindows(d, m, x);
    ChangeKeepsVisible(d, m, x);
  }

  // ---- CCompositor::moveWorkspaceToMonitor

  // The first other ordinary workspace on monitor home.
  ghost function FindOther(d: Desk, list: seq<WsId>, x: WsId, home: MonId): (r: Option<WsId>)
    requires forall i :: 0 <= i < |list| ==> list[i] in d.ws
    ensures r.Some? ==> r.value in d.ws && r.value != x && d.ws[r.value].mon == Some(home) && !d.ws[r.value].special
    ensures r.None? ==> forall y :: y in list && y != x && d.ws[y].mon == Some(home) ==> d.ws[y].special
    ensures r.Some? ==>
      exists k :: 0 <= k < |list| && list[k] == r.value &&
        forall j :: 0 <= j < k ==> d.ws[list[j]].mon != Some(home) || list[j] == x || d.ws[list[j]].special
  {
    if list == [] then None
    else if d.ws[list[0]].mon == Some(home) && list[0] != x && !d.ws[list[0]].special then Some(list[0])
    else FindOther(d, list[1..], x, home)
  }

  // The id is in use, or bound to another monitor by the configuration.
  ghost predicate Taken(d: Desk, bound: map<WsId, MonId>, home: MonId, id: WsId) {
    id in d.ws || (id in bound && bound[id] != home)
  }

  ghost function Used(d: Desk, bound: map<WsId, MonId>, id: WsId): set<WsId> {
    set i | i in d.ws.Keys + bound.Keys && i >= id
  }

  ghost function FreeId(d: Desk, bound: map<WsId, MonId>, home: MonId, id: WsId): (r: WsId)
    ensures r >= id && !Taken(d, bound, home, r)
    ensures forall i :: id <= i < r ==> Taken(d, bound, home, i)
    decreases Used(d, bound, id)
  {
    if Taken(d, bound, home, id) then
      assert id in Used(d, bound, id) && id !in Used(d, bound, id + 1);
      assert Used(d, bound, id + 1) <= Used(d, bound, id);
      FreeId(d, bound, home, id + 1)
    else id
  }

  // CCompositor::createNewWorkspace: a binding overrides the monitor asked for.
  ghost function Create(d: Desk, bound: map<WsId, MonId>, id: WsId, home: MonId): Desk {
    var on := if id in bound then bound[id] else home;
    d.(workspaces := d.workspaces + [id],
       ws := d.ws[id := WsState(SPECIAL_WORKSPACE_START <= id <= -2, Some(on), false, FSMODE_NONE, false)])
  }

  // The workspace that the old monitor shows next: one it has, or a new one.
  ghost function NextShown(d: Desk, bound: map<WsId, MonId>, x: WsId, home: MonId): WsId
    requires Wf(d)
  {
    var found := FindOther(d, d.workspaces, x, home);
    if found.Some? && found.value != WORKSPACE_INVALID then found.value
    else FreeId(d, bound, home, 1)
  }

  ghost function PlugGap(d: Desk, bound: map<WsId, MonId>, home: MonId, next: WsId): (r: Desk)
    requires Wf(d) && home in d.mon && Bindings(d, bound)
    ensures Wf(r) && r.win.Keys == d.win.Keys && r.mon.Keys == d.mon.Keys && r.ws.Keys == d.ws.Keys + {next}
    ensures SameSettings(d, r)
  {
    if next in d.ws then ChangeWorkspace(d, home, next)
    else
      ChangeWorkspace(Create(d, bound, next, home), home, next)
  }

  // Bindings name monitors that are connected.
  ghost predicate Bindings(d: Desk, bound: map<WsId, MonId>) {
    forall id :: id in bound ==> bound[id] in d.mon
  }

  // The remainder of a C division, which has the dividend's sign.
  function Rem(a: int, b: int): int
    requires b != 0
  {
    if a >= 0 then a % b else -((-a) % b)
  }

  // A coordinate brought into a monitor's extent; an extent under one pixel is left alone,
  // where the program would divide by zero.
  function Wrap(at: real, extent: real): real {
    if Trunc(extent) == 0 then 0.0 else Rem(Trunc(at), Trunc(extent)) as real
  }

  // One window, as its workspace x goes to monitor m; pinned windows stay behind on `next`.
  function Carry(s: WinState, x: WsId, next: WsId, m: MonId, from: Option<MonState>, to: MonState): WinState {
    if s.ws != x then s
    else if s.fs.pinned then s.(ws := next)
    else if !s.traits.mapped || s.traits.hidden then s.(mon := Some(m))
    else if from.None? then s.(mon := Some(m), pos := Vec(Wrap(s.pos.x, to.size.x), Wrap(s.pos.y, to.size.y)))
    else Placed(s.(mon := Some(m)), from.value, to)
  }

  // Floating windows keep their place on the monitor, fullscreen windows fill it.
  function Placed(s: WinState, from: MonState, to: MonState): WinState {
    if s.IsFullscreen() then s.(pos := to.pos, size := to.size)
    else if s.traits.floating then s.(pos := s.pos.Minus(from.pos).Plus(to.pos))
    else s
  }

  ghost function Handover(d: Desk, x: WsId, next: WsId, m: MonId, from: Option<MonState>): Desk
    requires x in d.ws && m in d.mon
  {
    d.(ws := d.ws[x := d.ws[x].(mon := Some(m))],
       win := map w | w in d.win :: Carry(d.win[w], x, next, m, from, d.mon[m]))
  }

  // The monitor that had the focus hands it on together with the workspace.
  ghost function Activate(d: Desk, m: MonId, x: WsId): Desk
    requires m in d.mon
  {
    SetVisible(SetVisible(d, d.mon[m].active, false), Some(x), true).(
      mon := d.mon[m := d.mon[m].(active := Some(x))], last := Some(m))
  }

  ghost predicate Switching(d: Desk, x: WsId)
    requires x in d.ws
  {
    ShownOn(d, d.ws[x].mon, x)
  }

  ghost function MoveWorkspace(d: Desk, bound: map<WsId, MonId>, x: WsId, m: MonId): Desk
    requires Wf(d) && Bindings(d, bound) && x in d.ws && m in d.mon
  {
    if d.ws[x].mon == Some(m) then d
    else
      var next, d1 := Successor(d, bound, x), Plugged(d, bound, x);
      HandedOn(d1, x, next, m, Home(d, x), Switching(d, x) && d.ws[x].mon == d.last)
  }

  // The monitor of a workspace, as it is before the move.
  ghost function Home(d: Desk, x: WsId): Option<MonState>
    requires Wf(d) && x in d.ws
  {
    if d.ws[x].mon.Some? then Some(d.mon[d.ws[x].mon.value]) else None
  }

  // What takes the place of x on its monitor.
  ghost function Successor(d: Desk, bound: map<WsId, MonId>, x: WsId): WsId
    requires Wf(d) && x in d.ws
  {
    if Switching(d, x) then NextShown(d, bound, x, d.ws[x].mon.value) else x
  }

  ghost function Plugged(d: Desk, bound: map<WsId, MonId>, x: WsId): (r: Desk)
    requires Wf(d) && Bindings(d, bound) && x in d.ws
    ensures Wf(r) && x in r.ws && Successor(d, bound, x) in r.ws && r.mon.Keys == d.mon.Keys && SameSettings(d, r)
  {
    if Switching(d, x) then PlugGap(d, bound, d.ws[x].mon.value, Successor(d, bound, x)) else d
  }

  // The workspace goes over, and is shown there if its monitor had the focus.
  ghost function HandedOn(d: Desk, x: WsId, next: WsId, m: MonId, from: Option<MonState>, show: bool): Desk
    requires x in d.ws && m in d.mon
  {
    if show then Activate(Handover(d, x, next, m, from), m, x) else Handover(d, x, next, m, from)
  }

  // ---- What the moves keep

  // A workspace nobody shows yet, without windows.
  lemma CreateKeepsInv(d: Desk, bound: map<WsId, MonId>, id: WsId, home: MonId)
    requires Wf(d) && FsInv(d) && home in d.mon && Bindings(d, bound) && id !in d.ws
    ensures var r := Create(d, bound, id, home); Wf(r) && FsInv(r) && (MonInv(d) ==> MonInv(r))
  {
    var r := Create(d, bound, id, home);
    CreatedWf(d, bound, id, home);
    if MonInv(d) {
      CreateKeepsMon(d, bound, id, home);
    }
    forall x | x in r.ws && r.ws[x].hasFs
      ensures exists w :: FullscreenOn(r, w, x)
    {
      var w :| FullscreenOn(d, w, x);
      assert FullscreenOn(r, w, x);
    }
    forall v, w, x | FullscreenOn(r, v, x) && FullscreenOn(r, w, x)
      ensures v == w
    {
      assert FullscreenOn(d, v, x) && FullscreenOn(d, w, x);
    }
  }

  lemma CreatedWf(d: Desk, bound: map<WsId, MonId>, id: WsId, home: MonId)
    requires Wf(d) && home in d.mon && Bindings(d, bound) && id !in d.ws
    ensures Wf(Create(d, bound, id, home))
  {
  }

  lemma CreateKeepsMon(d: Desk, bound: map<WsId, MonId>, id: WsId, home: MonId)
    requires Wf(d) && MonInv(d) && id !in d.ws && Wf(Create(d, bound, id, home))
    ensures MonInv(Create(d, bound, id, home))
  {
  }

  // The gap that x leaves on its monitor is plugged by another workspace of that monitor,
  // or by a new one, whose id is the least that is neither in use nor bound elsewhere.
  lemma NextShownEffect(d: Desk, bound: map<WsId, MonId>, x: WsId, home: MonId)
    requires Wf(d) && x in d.ws
    ensures var next := NextShown(d, bound, x, home);
      && next != x
      && (next in d.ws ==> d.ws[next].mon == Some(home) && !d.ws[next].special)
      && (next !in d.ws ==>
            && next >= 1 && !Taken(d, bound, home, next)
            && forall i :: 1 <= i < next ==> Taken(d, bound, home, i))
      && (next !in d.ws && WORKSPACE_INVALID !in d.ws ==>
            forall y :: y in d.ws && y != x && d.ws[y].mon == Some(home) ==> d.ws[y].special)
  {
  }

  lemma PlugGapIs(d: Desk, bound: map<WsId, MonId>, home: MonId, next: WsId) returns (d0: Desk)
    requires Wf(d) && FsInv(d) && home in d.mon && Bindings(d, bound)
    requires next in d.ws ==> d.ws[next].mon == Some(home) && !d.ws[next].special
    requires next !in d.ws ==> next >= 1 && !Taken(d, bound, home, next)
    ensures d0 == if next in d.ws then d else Create(d, bound, next, home)
    ensures Wf(d0) && FsInv(d0) && d0.ws[next].mon == Some(home) && !d0.ws[next].special
    ensures PlugGap(d, bound, home, next) == Changed(d0, home, next)
    ensures FsInv(PlugGap(d, bound, home, next))
    ensures MonInv(d) ==> MonInv(d0) && MonInv(PlugGap(d, bound, home, next))
  {
    if next in d.ws {
      d0 := d;
    } else {
      CreateKeepsInv(d, bound, next, home);
      d0 := Create(d, bound, next, home);
    }
    ChangeEffect(d0, home, next);
    if MonInv(d) {
      ChangeKeepsMonInv(d0, home, next);
    }
  }

  lemma HandoverKeepsMon(d: Desk, x: WsId, next: WsId, m: MonId, from: Option<MonState>)
    requires Wf(d) && MonInv(d) && x in d.ws && next in d.ws && m in d.mon
    requires d.ws[x].mon != Some(m) && !Switching(d, x)
    requires Wf(Handover(d, x, next, m, from))
    ensures MonInv(Handover(d, x, next, m, from))
  {
  }

  lemma HandoverWf(d: Desk, x: WsId, next: WsId, m: MonId, from: Option<MonState>)
    requires Wf(d) && x in d.ws && next in d.ws && m in d.mon
    ensures Wf(Handover(d, x, next, m, from))
  {
  }

  lemma HandoverIsQuiet(d: Desk, x: WsId, next: WsId, m: MonId, from: Option<MonState>)
    requires Wf(d) && FsInv(d) && x in d.ws && next in d.ws && m in d.mon
    ensures QuietMove(d, Handover(d, x, next, m, from))
  {
    forall w | w in d.win && d.win[w].fs.pinned
      ensures !d.win[w].IsFullscreen()
    {
      assert Shown(d.win[w], d.ws[d.win[w].ws]);
    }
  }

  lemma HandoverKeepsInv(d: Desk, x: WsId, next: WsId, m: MonId, from: Option<MonState>)
    requires Wf(d) && FsInv(d) && x in d.ws && next in d.ws && m in d.mon
    ensures var r := Handover(d, x, next, m, from);
      && Wf(r) && FsInv(r)
      && (MonInv(d) && d.ws[x].mon != Some(m) && !Switching(d, x) ==> MonInv(r))
  {
    HandoverWf(d, x, next, m, from);
    HandoverIsQuiet(d, x, next, m, from);
    QuietMoveKeepsInv(d, Handover(d, x, next, m, from));
    if MonInv(d) && d.ws[x].mon != Some(m) && !Switching(d, x) {
      HandoverKeepsMon(d, x, next, m, from);
    }
  }

  lemma ActivateKeepsMon(d: Desk, m: MonId, x: WsId)
    requires Wf(d) && MonInv(d) && m in d.mon && x in d.ws && Wf(Activate(d, m, x))
    requires d.ws[x].mon == Some(m) && !d.ws[x].special
    ensures MonInv(Activate(d, m, x))
  {
  }

  lemma ActivateIsQuiet(d: Desk, m: MonId, x: WsId)
    requires Wf(d) && m in d.mon && x in d.ws
    ensures Wf(Activate(d, m, x)) && QuietMove(d, Activate(d, m, x))
  {
    SetVisibleFlags(d, d.mon[m].active, false);
    SetVisibleFlags(SetVisible(d, d.mon[m].active, false), Some(x), true);
  }

  lemma ActivateKeepsInv(d: Desk, m: MonId, x: WsId)
    requires Wf(d) && FsInv(d) && m in d.mon && x in d.ws
    ensures var r := Activate(d, m, x);
      Wf(r) && FsInv(r) && (MonInv(d) && d.ws[x].mon == Some(m) && !d.ws[x].special ==> MonInv(r))
  {
    ActivateIsQuiet(d, m, x);
    QuietMoveKeepsInv(d, Activate(d, m, x));
    if MonInv(d) && d.ws[x].mon == Some(m) && !d.ws[x].special {
      ActivateKeepsMon(d, m, x);
    }
  }

  lemma ChangedFrame(d: Desk, m: MonId, x: WsId, y: WsId)
    requires Wf(d) && m in d.mon && x in d.ws && y in d.ws
    ensures var r := Changed(d, m, x);
      && r.ws.Keys == d.ws.Keys && r.ws[y].mon == d.ws[y].mon && r.ws[y].special == d.ws[y].special
      && r.mon == d.mon[m := d.mon[m].(active := Some(x))] && r.last == d.last
  {
  }

  // The first half of the move of a workspace that is shown: the old monitor shows the successor.
  lemma PlugStep(d: Desk, bound: map<WsId, MonId>, x: WsId) returns (next: WsId, d1: Desk)
    requires Wf(d) && FsInv(d) && Bindings(d, bound) && x in d.ws && Switching(d, x)
    ensures next == NextShown(d, bound, x, d.ws[x].mon.value) && next != x
    ensures d1 == PlugGap(d, bound, d.ws[x].mon.value, next) && next in d1.ws && x in d1.ws
    ensures d1.mon == d.mon[d.ws[x].mon.value := d.mon[d.ws[x].mon.value].(active := Some(next))]
    ensures d1.ws[next].mon == d.ws[x].mon && d1.last == d.last
    ensures d1.win == FollowAll(d.win, d.windows, x, next)
    ensures Wf(d1) && FsInv(d1) && (MonInv(d) ==> MonInv(d1))
  {
    var home := d.ws[x].mon.value;
    next := NextShown(d, bound, x, home);
    NextShownEffect(d, bound, x, home);
    var d0 := PlugGapIs(d, bound, home, next);
    ChangedFrame(d0, home, next, next);
    d1 := PlugGap(d, bound, home, next);
  }

  // And what becomes of x there.
  lemma PlugFrees(d: Desk, bound: map<WsId, MonId>, x: WsId)
    requires Wf(d) && FsInv(d) && Bindings(d, bound) && x in d.ws && Switching(d, x)
    ensures var d1 := Plugged(d, bound, x);
      d1.ws[x].mon == d.ws[x].mon && d1.ws[x].special == d.ws[x].special && !Switching(d1, x)
  {
    var home := d.ws[x].mon.value;
    var next := NextShown(d, bound, x, home);
    NextShownEffect(d, bound, x, home);
    var d0 := PlugGapIs(d, bound, home, next);
    ChangedFrame(d0, home, next, x);
  }

  lemma PluggedKeepsInv(d: Desk, bound: map<WsId, MonId>, x: WsId)
    requires Wf(d) && FsInv(d) && Bindings(d, bound) && x in d.ws
    ensures FsInv(Plugged(d, bound, x)) && (MonInv(d) ==> MonInv(Plugged(d, bound, x)))
  {
    if Switching(d, x) {
      var next, d1 := PlugStep(d, bound, x);
    }
  }

  // The second half: the workspace goes over, and is shown there if its monitor was the last one.
  lemma HandOnKeepsInv(d: Desk, x: WsId, next: WsId, m: MonId, from: Option<MonState>, show: bool)
    requires Wf(d) && FsInv(d) && x in d.ws && next in d.ws && m in d.mon
    ensures var r := HandedOn(d, x, next, m, from, show);
      && Wf(r) && FsInv(r)
      && (MonInv(d) && d.ws[x].mon != Some(m) && !Switching(d, x) && (show ==> !d.ws[x].special) ==> MonInv(r))
  {
    HandoverKeepsInv(d, x, next, m, from);
    if show {
      ActivateKeepsInv(Handover(d, x, next, m, from), m, x);
    }
  }

  // Moving a workspace keeps the fullscreen bookkeeping by itself, and the monitors' along with it,
  // whether or not the workspace is shown and whether or not it has a monitor.
  lemma MoveWorkspaceKeepsInv(d: Desk, bound: map<WsId, MonId>, x: WsId, m: MonId)
    requires Wf(d) && FsInv(d) && Bindings(d, bound) && x in d.ws && m in d.mon
    ensures var r := MoveWorkspace(d, bound, x, m); Wf(r) && FsInv(r) && (MonInv(d) ==> MonInv(r))
  {
    if d.ws[x].mon != Some(m) {
      var next, d1, show := Successor(d, bound, x), Plugged(d, bound, x), Switching(d, x) && d.ws[x].mon == d.last;
      PluggedKeepsInv(d, bound, x);
      HandOnKeepsInv(d1, x, next, m, Home(d, x), show);
      if Switching(d, x) {
        PlugFrees(d, bound, x);
      }
    }
  }

  // The monitors after the move: the old one shows the successor, and the new one shows x
  // exactly when x was shown on the focused monitor.
  lemma MoveWorkspaceMonitors(d: Desk, bound: map<WsId, MonId>, x: WsId, m: MonId)
    requires Wf(d) && FsInv(d) && Bindings(d, bound) && x in d.ws && m in d.mon
    requires d.ws[x].mon != Some(m)
    ensures var r, home := MoveWorkspace(d, bound, x, m), d.ws[x].mon;
      var hand := Switching(d, x) && home == d.last;
      && r.ws[x].mon == Some(m)
      && (Switching(d, x) ==>
            r.mon[home.value].active == Some(Successor(d, bound, x)) && r.ws[Successor(d, bound, x)].mon == home)
      && r.mon[m].active == (if hand then Some(x) else d.mon[m].active)
      && r.last == (if hand then Some(m) else d.last)
  {
    if Switching(d, x) {
      var next, d1 := PlugStep(d, bound, x);
      HandoverMonitors(d1, x, next, m, Some(d.mon[d.ws[x].mon.value]));
    }
  }

  lemma HandoverMonitors(d: Desk, x: WsId, next: WsId, m: MonId, from: Option<MonState>)
    requires x in d.ws && m in d.mon && next in d.ws && next != x
    ensures var r := Handover(d, x, next, m, from);
      && r.mon == d.mon && r.ws[x].mon == Some(m) && r.ws[next] == d.ws[next] && r.last == d.last
      && Activate(r, m, x).ws[x].mon == Some(m) && Activate(r, m, x).ws[next].mon == d.ws[next].mon
      && Activate(r, m, x).mon == d.mon[m := d.mon[m].(active := Some(x))]
      && Activate(r, m, x).last == Some(m)
  {
  }

  // The windows after the move: pinned ones stay with the successor, the others go along.
  lemma MoveWorkspaceWindows(d: Desk, bound: map<WsId, MonId>, x: WsId, m: MonId, w: WinId)
    requires Wf(d) && FsInv(d) && Bindings(d, bound) && x in d.ws && m in d.mon
    requires d.ws[x].mon != Some(m) && w in d.win
    ensures var home := d.ws[x].mon;
      var from := if home.Some? then Some(d.mon[home.value]) else None;
      MoveWorkspace(d, bound, x, m).win[w] == Carry(d.win[w], x, Successor(d, bound, x), m, from, d.mon[m])
  {
    assert w in d.windows;
    if Switching(d, x) {
      var next, d1 := PlugStep(d, bound, x);
    }
  }

  // ---- where the windows are afterwards

  // A window that goes from one monitor to another: a fullscreen one fills the new one, a floating one
  // keeps its distance from the corner, and a tiled one is left to the layout.
  predicate GoesAlong(s: WinState, r: WinState, from: MonState, to: MonState) {
    if s.fs.internal != FSMODE_NONE then r.pos == to.pos && r.size == to.size
    else
      && r.size == s.size
      && if s.traits.floating then
           && r.pos.x - to.pos.x == s.pos.x - from.pos.x
           && r.pos.y - to.pos.y == s.pos.y - from.pos.y
         else r.pos == s.pos
  }

  function Times(k: int, e: int): int {
    k * e
  }

  ghost predicate IsRemainder(a: int, e: int, n: int) {
    && -e < n < e && (a >= 0 ==> n >= 0) && (a <= 0 ==> n <= 0)
    && exists k :: Times(k, e) == a - n
  }

  // A coordinate that is left of another one when whole extents are taken off.
  ghost predicate BroughtInto(at: real, r: real, extent: real) {
    && (extent == 0.0 ==> r == 0.0)
    && (Trunc(extent) > 0 ==> r == r.Floor as real && IsRemainder(Trunc(at), Trunc(extent), r.Floor))
  }

  lemma RemIsRemainder(a: int, e: int)
    requires e > 0
    ensures IsRemainder(a, e, Rem(a, e))
  {
    var k := if a >= 0 then a / e else -((-a) / e);
    assert Times(k, e) == a - Rem(a, e);
  }

  lemma WrapBrings(at: real, extent: real)
    ensures BroughtInto(at, Wrap(at, extent), extent)
  {
    if Trunc(extent) > 0 {
      RemIsRemainder(Trunc(at), Trunc(extent));
    }
  }

  lemma CarryGoesAlong(s: WinState, x: WsId, next: WsId, m: MonId, from: Option<MonState>, to: MonState)
    requires s.ws == x && !s.fs.pinned
    ensures var r := Carry(s, x, next, m, from, to);
      && r.ws == x && r.mon == Some(m) && r.fs == s.fs && r.traits == s.traits
      && if !s.traits.mapped || s.traits.hidden then r.pos == s.pos && r.size == s.size
         else if from.Some? then GoesAlong(s, r, from.value, to)
         else r.size == s.size && BroughtInto(s.pos.x, r.pos.x, to.size.x) && BroughtInto(s.pos.y, r.pos.y, to.size.y)
  {
    WrapBrings(s.pos.x, to.size.x);
    WrapBrings(s.pos.y, to.size.y);
  }

  // Where a move of a workspace leaves each window: other workspaces' windows alone, pinned ones on
  // the successor, hidden and unmapped ones with a new monitor only, and the others as their monitor's
  // change asks.
  lemma MoveWorkspacePlaces(d: Desk, bound: map<WsId, MonId>, x: WsId, m: MonId, w: WinId)
    requires Wf(d) && FsInv(d) && Bindings(d, bound) && x in d.ws && m in d.mon
    requires d.ws[x].mon != Some(m) && w in d.win
    ensures w in MoveWorkspace(d, bound, x, m).win
    ensures var r, s, home := MoveWorkspace(d, bound, x, m).win[w], d.win[w], d.ws[x].mon;
      && r.fs == s.fs && r.traits == s.traits
      && if s.ws != x then r == s
         else if s.fs.pinned then
           r == s.(ws := if home.Some? && d.mon[home.value].active == Some(x) then NextShown(d, bound, x, home.value) else x)
         else
           && r.ws == x && r.mon == Some(m)
           && if !s.traits.mapped || s.traits.hidden then r.pos == s.pos && r.size == s.size
              else if home.Some? then GoesAlong(s, r, d.mon[home.value], d.mon[m])
              else
                && r.size == s.size
                && BroughtInto(s.pos.x, r.pos.x, d.mon[m].size.x) && BroughtInto(s.pos.y, r.pos.y, d.mon[m].size.y)
  {
    MoveKeepsWindows(d, bound, x, m);
    MoveWorkspaceWindows(d, bound, x, m, w);
    if d.win[w].ws == x && !d.win[w].fs.pinned {
      CarryGoesAlong(d.win[w], x, Successor(d, bound, x), m, Home(d, x), d.mon[m]);
    }
  }

  lemma MoveKeepsWindows(d: Desk, bound: map<WsId, MonId>, x: WsId, m: MonId)
    requires Wf(d) && FsInv(d) && Bindings(d, bound) && x in d.ws && m in d.mon
    ensures MoveWorkspace(d, bound, x, m).win.Keys == d.win.Keys
  {
    if Switching(d, x) && d.ws[x].mon != Some(m) {
      var next, d1 := PlugStep(d, bound, x);
    }
  }
}
