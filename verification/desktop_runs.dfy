// Runs of the desktop's operations.
module DesktopRuns {
  import opened Common
  import opened DesktopState
  import opened Fullscreen
  import opened WindowMoves
  import opened Workspaces
  import opened WorkspaceSwap

  datatype Op =
    | Request(w: WinId, internal: int, client: int)
    | MoveWin(w: WinId, x: WsId)
    | MoveWs(x: WsId, m: MonId)
    | SwapShown(a: MonId, b: MonId)

  ghost predicate Inv(d: Desk)
    requires Wf(d)
  {
    FsInv(d) && MonInv(d)
  }

  // The operation names live objects, and has what it dereferences.
  ghost predicate Typed(d: Desk, op: Op) {
    match op
    case Request(w, _, _) => w in d.win
    case MoveWin(w, x) => w in d.win && x in d.ws && (d.win[w].traits.floating ==> d.ws[x].mon.Some?)
    case MoveWs(x, m) => x in d.ws && m in d.mon
    case SwapShown(a, b) => BothShow(d, a, b)
  }

  ghost function Step(d: Desk, bound: map<WsId, MonId>, op: Op): Desk
    requires Wf(d) && Bindings(d, bound) && Typed(d, op)
    requires op.Request? || op.MoveWin? ==> CanEvict(d, op.w)
  {
    match op
    case Request(w, internal, client) => SetState(d, w, internal, client)
    case MoveWin(w, x) => MoveWindow(d, w, x)
    case MoveWs(x, m) => MoveWorkspace(d, bound, x, m)
    case SwapShown(a, b) => Swap(d, a, b)
  }

  // The request unpins a window that is not on its workspace's monitor.
  ghost predicate Strands(d: Desk, w: WinId)
    requires Wf(d) && w in d.win
  {
    && d.win[w].traits.mapped && !d.unsafe
    && d.win[w].fs.pinned && Unpinned(d.win[w].fs, d.allowPin) != d.win[w].fs
    && d.win[w].mon != d.ws[d.win[w].ws].mon
  }

  // The two cases that break the bookkeeping, both visible before the call.
  ghost predicate Harmful(d: Desk, op: Op)
    requires Wf(d) && Typed(d, op)
  {
    match op
    case Request(w, _, _) => Strands(d, w)
    case MoveWin(w, x) => d.unsafe && d.win[w].IsFullscreen() && !Stays(d, w, x)
    case _ => false
  }

  // A request changes nothing the monitor bookkeeping looks at but who is pinned.
  lemma RequestMonInv(d: Desk, w: WinId, internal: int, client: int)
    requires Wf(d) && Inv(d) && w in d.win
    ensures CanEvict(d, w) && Wf(SetState(d, w, internal, client))
    ensures MonInv(SetState(d, w, internal, client)) <==> !Strands(d, w)
  {
    if d.win[w].traits.mapped && !d.unsafe {
      var r := SetState(d, w, internal, client);
      SamePlacesWf(d, r);
      RequestMode(d, w, internal, client);
      assert Shown(d.win[w], d.ws[d.win[w].ws]);
      forall v | v in d.win && v != w && d.win[v].fs.pinned
        ensures r.win[v].fs.pinned
      {
        RequestPins(d, w, internal, client, v);
      }
      PinsDecide(d, r, w);
    }
  }

  lemma PinsDecide(d: Desk, r: Desk, w: WinId)
    requires Wf(d) && Wf(r) && MonInv(d) && SamePlaces(d, r) && w in d.win
    requires forall v :: v in d.win && v != w && d.win[v].fs.pinned ==> r.win[v].fs.pinned
    ensures MonInv(r) <==> (d.win[w].fs.pinned && !r.win[w].fs.pinned ==> d.win[w].mon == d.ws[d.win[w].ws].mon)
  {
    assert r.mon == d.mon;
    assert r.win[w].mon == d.win[w].mon && r.win[w].ws == d.win[w].ws;
    forall x | x in d.ws
      ensures r.ws[x].mon == d.ws[x].mon && r.ws[x].special == d.ws[x].special && r.ws[x].visible == d.ws[x].visible
      ensures ShownOn(r, r.ws[x].mon, x) == ShownOn(d, d.ws[x].mon, x)
    {
    }
  }

  lemma InternalMonInv(d: Desk, w: WinId, mode: int)
    requires Wf(d) && Inv(d) && w in d.win && d.win[w].mon == d.ws[d.win[w].ws].mon
    ensures CanEvict(d, w) && Wf(SetInternal(d, w, mode)) && Inv(SetInternal(d, w, mode))
  {
    var client := if d.win[w].traits.sync then mode else d.win[w].fs.client;
    RequestKeepsInv(d, w, mode, client);
    RequestMonInv(d, w, mode, client);
  }

  lemma ArriveMonInv(d: Desk, w: WinId, x: WsId)
    requires Wf(d) && Inv(d) && w in d.win && x in d.ws && !d.win[w].IsFullscreen()
    ensures Inv(Arrive(d, w, x))
  {
    ArriveKeepsInv(d, w, x);
  }

  lemma MoveKeepsMonInv(d: Desk, w: WinId, x: WsId)
    requires Wf(d) && Inv(d) && Typed(d, MoveWin(w, x)) && !Harmful(d, MoveWin(w, x))
    ensures CanEvict(d, w) && Wf(MoveWindow(d, w, x)) && Inv(MoveWindow(d, w, x))
  {
    if !Stays(d, w, x) {
      if d.win[w].IsFullscreen() {
        assert Shown(d.win[w], d.ws[d.win[w].ws]);
        InternalMonInv(d, w, FSMODE_NONE);
      }
      var d1 := Left(d, w);
      ArriveMonInv(d1, w, x);
      var d2 := Arrive(d1, w, x);
      ArriveKeepsInv(d1, w, x);
      if d.win[w].IsFullscreen() {
        InternalMonInv(d2, w, d.win[w].fs.internal);
        UpdateIsQuiet(SetInternal(d2, w, d.win[w].fs.internal), x);
      } else {
        UpdateIsQuiet(d2, x);
      }
    }
  }

  // A fullscreen window changes workspace during the unsafe state.
  ghost predicate UnsafeMove(d: Desk, op: Op)
    requires Wf(d) && Typed(d, op)
  {
    op.MoveWin? && d.unsafe && d.win[op.w].IsFullscreen() && !Stays(d, op.w, op.x)
  }

  // One operation keeps the fullscreen bookkeeping, whatever that of the monitors says, unless it is
  // such a move.
  lemma StepKeepsFsExactly(d: Desk, bound: map<WsId, MonId>, op: Op)
    requires Wf(d) && FsInv(d) && Bindings(d, bound) && Typed(d, op)
    ensures op.Request? || op.MoveWin? ==> CanEvict(d, op.w)
    ensures Wf(Step(d, bound, op)) && (FsInv(Step(d, bound, op)) <==> !UnsafeMove(d, op))
  {
    match op
    case Request(w, internal, client) => RequestKeepsInv(d, w, internal, client);
    case MoveWin(w, x) => MoveKeepsInvExactly(d, w, x);
    case MoveWs(x, m) => MoveWorkspaceKeepsInv(d, bound, x, m);
    case SwapShown(a, b) => SwapKeepsInv(d, a, b);
  }

  // One operation keeps both invariants unless it is one of the two harmful cases.
  lemma StepKeepsInvExactly(d: Desk, bound: map<WsId, MonId>, op: Op)
    requires Wf(d) && Inv(d) && Bindings(d, bound) && Typed(d, op)
    ensures op.Request? || op.MoveWin? ==> CanEvict(d, op.w)
    ensures Wf(Step(d, bound, op)) && (Inv(Step(d, bound, op)) <==> !Harmful(d, op))
  {
    StepKeepsFsExactly(d, bound, op);
    match op
    case Request(w, internal, client) => RequestMonInv(d, w, internal, client);
    case MoveWin(w, x) =>
      if !Harmful(d, op) {
        MoveKeepsMonInv(d, w, x);
      }
    case MoveWs(x, m) => MoveWorkspaceKeepsInv(d, bound, x, m);
    case SwapShown(a, b) => SwapKeepsInv(d, a, b);
  }

  // What no operation changes.
  ghost predicate SameFrame(d: Desk, r: Desk) {
    r.unsafe == d.unsafe && r.allowPin == d.allowPin && r.mon.Keys == d.mon.Keys
  }

  ghost predicate Ready(d: Desk, bound: map<WsId, MonId>, op: Op) {
    Wf(d) && Bindings(d, bound) && Typed(d, op) && (op.Request? || op.MoveWin? ==> CanEvict(d, op.w))
  }

  lemma StepFrame(d: Desk, bound: map<WsId, MonId>, op: Op)
    requires Ready(d, bound, op)
    ensures SameFrame(d, Step(d, bound, op))
  {
    match op
    case Request(w, internal, client) =>
    case MoveWin(w, x) => MoveFrame(d, w, x);
    case MoveWs(x, m) =>
    case SwapShown(a, b) =>
  }

  lemma MoveFrame(d: Desk, w: WinId, x: WsId)
    requires Wf(d) && w in d.win && x in d.ws && CanEvict(d, w)
    requires d.win[w].traits.floating ==> d.ws[x].mon.Some?
    ensures SameFrame(d, MoveWindow(d, w, x)) && MoveWindow(d, w, x).mon == d.mon
  {
  }

  // ---- runs

  // A run, as its desktops: every operation names live objects.
  ghost predicate IsRun(bound: map<WsId, MonId>, ops: seq<Op>, ds: seq<Desk>) {
    && |ds| == |ops| + 1
    && forall i :: 0 <= i < |ops| ==> IsStep(bound, ops[i], ds[i], ds[i + 1])
  }

  ghost predicate IsStep(bound: map<WsId, MonId>, op: Op, d: Desk, d': Desk) {
    Typed(d, op) && (Ready(d, bound, op) ==> d' == Step(d, bound, op))
  }

  // Outside the unsafe state every run keeps the fullscreen bookkeeping at every point, and never
  // calls for a window that is not there.
  lemma {:induction false} RunKeepsFs(bound: map<WsId, MonId>, ops: seq<Op>, ds: seq<Desk>, n: nat)
    requires IsRun(bound, ops, ds) && n < |ds|
    requires Wf(ds[0]) && FsInv(ds[0]) && Bindings(ds[0], bound) && !ds[0].unsafe
    ensures Wf(ds[n]) && FsInv(ds[n]) && SameFrame(ds[0], ds[n])
    ensures n < |ops| ==> Ready(ds[n], bound, ops[n])
  {
    if n > 0 {
      RunKeepsFs(bound, ops, ds, n - 1);
      RunStep(bound, ops, ds, n - 1);
      StepKeepsFsExactly(ds[n - 1], bound, ops[n - 1]);
      StepFrame(ds[n - 1], bound, ops[n - 1]);
    }
    if n < |ops| {
      StepTyped(bound, ops, ds, n);
      StepKeepsFsExactly(ds[n], bound, ops[n]);
    }
  }

  lemma StepTyped(bound: map<WsId, MonId>, ops: seq<Op>, ds: seq<Desk>, n: nat)
    requires IsRun(bound, ops, ds) && n < |ops|
    ensures Typed(ds[n], ops[n])
  {
    assert IsStep(bound, ops[n], ds[n], ds[n + 1]);
  }

  lemma RunStep(bound: map<WsId, MonId>, ops: seq<Op>, ds: seq<Desk>, n: nat)
    requires IsRun(bound, ops, ds) && n < |ops| && Ready(ds[n], bound, ops[n])
    ensures ds[n + 1] == Step(ds[n], bound, ops[n])
  {
    assert IsStep(bound, ops[n], ds[n], ds[n + 1]);
  }

  ghost predicate Harmless(d: Desk, op: Op) {
    Wf(d) && Typed(d, op) && !Harmful(d, op)
  }

  // Every run without a harmful operation keeps both invariants at every point.
  lemma {:induction false} RunKeepsInv(bound: map<WsId, MonId>, ops: seq<Op>, ds: seq<Desk>, n: nat)
    requires IsRun(bound, ops, ds) && n < |ds|
    requires Wf(ds[0]) && Inv(ds[0]) && Bindings(ds[0], bound)
    requires forall i :: 0 <= i < n ==> Harmless(ds[i], ops[i])
    ensures Wf(ds[n]) && Inv(ds[n]) && SameFrame(ds[0], ds[n])
  {
    if n > 0 {
      RunKeepsInv(bound, ops, ds, n - 1);
      assert Harmless(ds[n - 1], ops[n - 1]);
      StepKeepsInvExactly(ds[n - 1], bound, ops[n - 1]);
      RunStep(bound, ops, ds, n - 1);
      StepFrame(ds[n - 1], bound, ops[n - 1]);
    }
  }

  // Outside the unsafe state, and where pinned windows cannot go fullscreen, no operation is
  // harmful: every run keeps both invariants.
  lemma {:induction false} RunWithoutPinning(bound: map<WsId, MonId>, ops: seq<Op>, ds: seq<Desk>, n: nat)
    requires IsRun(bound, ops, ds) && n < |ds|
    requires Wf(ds[0]) && Inv(ds[0]) && Bindings(ds[0], bound) && !ds[0].unsafe && !ds[0].allowPin
    ensures Wf(ds[n]) && Inv(ds[n]) && SameFrame(ds[0], ds[n])
  {
    if n > 0 {
      RunWithoutPinning(bound, ops, ds, n - 1);
      StepTyped(bound, ops, ds, n - 1);
      StepKeepsInvExactly(ds[n - 1], bound, ops[n - 1]);
      RunStep(bound, ops, ds, n - 1);
      StepFrame(ds[n - 1], bound, ops[n - 1]);
    }
  }

  // A pinned window that a swap has left on the other monitor: the next fullscreen request
  // strands it.
  lemma SwapThenRequestStrands()
    ensures var big := Vec(1920.0, 1080.0);
      var pinned := WinState(1, Some(0), ORIGIN, big, Traits(true, false, true, false, false), FsState(0, 0, true, false, false));
      var d: Desk := Desk([7], map[7 := pinned],
        [1, 2], map[1 := WsState(false, Some(0), false, 0, true), 2 := WsState(false, Some(1), false, 0, true)],
        map[0 := MonState(Some(1), ORIGIN, big), 1 := MonState(Some(2), Vec(1920.0, 0.0), big)],
        Some(0), false, true);
      Wf(d) && Inv(d) && BothShow(d, 0, 1) && Wf(Swap(d, 0, 1)) && Inv(Swap(d, 0, 1))
      && 7 in Swap(d, 0, 1).win && Strands(Swap(d, 0, 1), 7)
  {
    var big := Vec(1920.0, 1080.0);
    var pinned := WinState(1, Some(0), ORIGIN, big, Traits(true, false, true, false, false), FsState(0, 0, true, false, false));
    var d: Desk := Desk([7], map[7 := pinned],
      [1, 2], map[1 := WsState(false, Some(0), false, 0, true), 2 := WsState(false, Some(1), false, 0, true)],
      map[0 := MonState(Some(1), ORIGIN, big), 1 := MonState(Some(2), Vec(1920.0, 0.0), big)],
      Some(0), false, true);
    assert d.workspaces[0] == 1 && d.workspaces[1] == 2 && d.windows[0] == 7;
    SwapKeepsInv(d, 0, 1);
  }
}
