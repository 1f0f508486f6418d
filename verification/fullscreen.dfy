// Fullscreen requests and moves of a window between workspaces (src/Compositor.cpp).
module Fullscreen {
  import opened Common
  import opened DesktopState

  const FSMODE_NONE := 0
  const FSMODE_MAX := 3

  // std::bit_floor on a mode that was clamped to 0..3.
  function Effective(mode: int): int {
    if mode >= 2 then 2 else if mode == 1 then 1 else 0
  }

  function ClampMode(mode: int): int {
    if mode < FSMODE_NONE then FSMODE_NONE else if FSMODE_MAX < mode then FSMODE_MAX else mode
  }

  // The largest power of two in the mode.
  lemma EffectiveIsFloor(mode: int)
    requires FSMODE_NONE <= mode <= FSMODE_MAX
    ensures var e := Effective(mode);
      if mode == 0 then e == 0 else e in {1, 2, 4} && e <= mode < 2 * e
  {
  }

  lemma ClampIsNearest(mode: int)
    ensures var c := ClampMode(mode);
      && 0 <= c <= 3 && (0 <= mode <= 3 ==> c == mode) && (mode < 0 ==> c == 0) && (mode > 3 ==> c == 3)
  {
  }

  ghost predicate FullscreenOn(d: Desk, w: WinId, x: WsId) {
    w in d.win && d.win[w].ws == x && d.win[w].IsFullscreen()
  }

  // A fullscreen window is mapped and not pinned, and its workspace says so.
  predicate Shown(s: WinState, x: WsState) {
    && 0 <= s.fs.internal <= FSMODE_MAX
    && (s.IsFullscreen() ==>
          s.traits.mapped && !s.fs.pinned && x.hasFs && x.mode == Effective(s.fs.internal))
  }

  ghost predicate Unique(d: Desk) {
    forall v, w, x :: FullscreenOn(d, v, x) && FullscreenOn(d, w, x) ==> v == w
  }

  // A workspace's flags are set for a window.
  ghost predicate Honest(d: Desk) {
    forall x :: x in d.ws ==>
      if d.ws[x].hasFs then exists w :: FullscreenOn(d, w, x) else d.ws[x].mode == FSMODE_NONE
  }

  // At most one fullscreen window per workspace, and the workspace's two flags describe it.
  ghost predicate FsInv(d: Desk)
    requires Wf(d)
  {
    && (forall w :: w in d.win ==> Shown(d.win[w], d.ws[d.win[w].ws]))
    && Unique(d)
    && Honest(d)
  }

  // CWorkspace::getFullscreenWindow: the first fullscreen window of x in list order.
  ghost function FullscreenWindow(d: Desk, windows: seq<WinId>, x: WsId): (r: Option<WinId>)
    ensures r.Some? ==> r.value in windows && FullscreenOn(d, r.value, x)
    ensures r.None? ==> forall w :: w in windows ==> !FullscreenOn(d, w, x)
  {
    if windows == [] then None
    else if FullscreenOn(d, windows[0], x) then Some(windows[0])
    else FullscreenWindow(d, windows[1..], x)
  }

  // The eviction dereferences getFullscreenWindow(), so the flag has to be true to its word.
  ghost predicate CanEvict(d: Desk, w: WinId)
    requires Wf(d) && w in d.win
  {
    !d.win[w].IsFullscreen() && d.ws[d.win[w].ws].hasFs ==>
      exists v :: FullscreenOn(d, v, d.win[w].ws)
  }

  // What no fullscreen request touches: the lists, the monitors, who is where and how.
  ghost predicate SamePlaces(d: Desk, r: Desk) {
    && r == d.(win := r.win, ws := r.ws)
    && r.win.Keys == d.win.Keys && r.ws.Keys == d.ws.Keys
    && (forall w :: w in d.win ==> r.win[w] == d.win[w].(fs := r.win[w].fs))
    && (forall x :: x in d.ws ==> r.ws[x] == d.ws[x].(hasFs := r.ws[x].hasFs, mode := r.ws[x].mode))
  }

  lemma SamePlacesWf(d: Desk, r: Desk)
    requires Wf(d) && SamePlaces(d, r)
    ensures Wf(r)
  {
  }

  // ---- One window's fields

  // First step of a request: a pinned window is unpinned so that it can go fullscreen.
  function Unpinned(s: FsState, allowPin: bool): FsState {
    if allowPin && !s.pinFs && s.internal == FSMODE_NONE && s.pinned
    then s.(pinned := false, pinFs := true) else s
  }

  // A pinned window never changes its mode; otherwise the effective mode decides.
  predicate Changes(s: FsState, internal: int) {
    !s.pinned && Effective(s.internal) != Effective(internal)
  }

  // Leaving fullscreen pins a window again that was unpinned for it.
  function Repinned(s: FsState, allowPin: bool, internal: int): FsState {
    if allowPin && s.pinFs && s.internal != FSMODE_NONE && !s.pinned && internal == FSMODE_NONE
    then s.(pinned := true, pinFs := false) else s
  }

  // A window that is neither fullscreen, fading nor pinned goes under the fullscreen window.
  function Lowered(s: FsState, fading: bool): FsState {
    if s.internal == FSMODE_NONE && !fading && !s.pinned then s.(createdOver := false) else s
  }

  function LoweredOn(s: WinState, x: WsId): WinState {
    if s.ws == x then s.(fs := Lowered(s.fs, s.traits.fading)) else s
  }

  function LowerAll(win: map<WinId, WinState>, x: WsId): map<WinId, WinState> {
    map v | v in win :: LoweredOn(win[v], x)
  }

  // What a request writes to its window, after the eviction. The modes are clamped.
  function Written(s: FsState, t: Traits, allowPin: bool, internal: int, client: int): FsState {
    var s1 := Repinned(s, allowPin, internal);
    if Changes(s, internal) then s1.(client := client, internal := internal)
    else if t.sync then s1
    else s1.(client := client)
  }

  function Requested(s: FsState, t: Traits, allowPin: bool, internal: int, client: int): FsState {
    var s1 := Written(s, t, allowPin, internal, client);
    if Changes(s, internal) then Lowered(s1, t.fading) else s1
  }

  function Flagged(x: WsState, effective: int): WsState {
    x.(mode := effective, hasFs := effective != FSMODE_NONE)
  }

  // ---- The desktop

  ghost function UnpinStep(d: Desk, w: WinId): Desk
    requires w in d.win
  {
    d.(win := d.win[w := d.win[w].(fs := Unpinned(d.win[w].fs, d.allowPin))])
  }

  // The rest of a request, after the eviction.
  ghost function Apply(d: Desk, w: WinId, internal: int, client: int): (r: Desk)
    requires w in d.win && d.win[w].ws in d.ws
    ensures SamePlaces(d, r)
  {
    var s := d.win[w];
    var fs := Requested(s.fs, s.traits, d.allowPin, internal, client);
    if Changes(s.fs, internal) then
      d.(win := LowerAll(d.win, s.ws)[w := s.(fs := fs)],
         ws := d.ws[s.ws := Flagged(d.ws[s.ws], Effective(internal))])
    else d.(win := d.win[w := s.(fs := fs)])
  }

  // CCompositor::setWindowFullscreenState
  ghost function SetState(d: Desk, w: WinId, internal: int, client: int): (r: Desk)
    requires Wf(d) && w in d.win && CanEvict(d, w)
    ensures SamePlaces(d, r)
    decreases if d.win[w].IsFullscreen() then 0 else 1, 1
  {
    if !d.win[w].traits.mapped || d.unsafe then d
    else
      var d1 := UnpinStep(d, w);
      UnpinKeepsFullscreen(d, w);
      Apply(Evict(d1, w), w, ClampMode(internal), ClampMode(client))
  }

  // A fullscreen window gives way to another one of its workspace.
  ghost function Evict(d: Desk, w: WinId): (r: Desk)
    requires Wf(d) && w in d.win && CanEvict(d, w)
    ensures SamePlaces(d, r)
    decreases if d.win[w].IsFullscreen() then 0 else 1, 0
  {
    var x := d.win[w].ws;
    if d.ws[x].hasFs && !d.win[w].IsFullscreen()
    then SetInternal(d, FullscreenWindow(d, d.windows, x).value, FSMODE_NONE)
    else d
  }

  // CCompositor::setWindowFullscreenInternal
  ghost function SetInternal(d: Desk, w: WinId, mode: int): (r: Desk)
    requires Wf(d) && w in d.win && CanEvict(d, w)
    ensures SamePlaces(d, r)
    decreases if d.win[w].IsFullscreen() then 0 else 1, 2
  {
    SetState(d, w, mode, if d.win[w].traits.sync then mode else d.win[w].fs.client)
  }

  lemma UnpinKeepsFullscreen(d: Desk, w: WinId)
    requires Wf(d) && w in d.win && CanEvict(d, w)
    ensures var r := UnpinStep(d, w); SamePlaces(d, r) && Wf(r) && CanEvict(r, w)
  {
    var d1 := UnpinStep(d, w);
    SamePlacesWf(d, d1);
    var x := d.win[w].ws;
    if !d.win[w].IsFullscreen() && d.ws[x].hasFs {
      var v :| FullscreenOn(d, v, x);
      assert FullscreenOn(d1, v, x);
    }
  }

  // The order in which the code writes: first the window, then the windows under it.
  lemma ApplyIsLowering(d: Desk, w: WinId, internal: int, client: int)
    requires w in d.win && d.win[w].ws in d.ws && Changes(d.win[w].fs, internal)
    ensures var s := d.win[w];
      var s1 := Written(s.fs, s.traits, d.allowPin, internal, client);
      Apply(d, w, internal, client).win == LowerAll(d.win[w := s.(fs := s1)], s.ws)
  {
  }

  // ---- What one request does

  // Equal in the fields the invariant looks at.
  predicate Alike(a: WinState, b: WinState) {
    b.fs.internal == a.fs.internal && b.fs.pinned == a.fs.pinned
  }

  // x has no fullscreen window other than w.
  ghost predicate Alone(d: Desk, w: WinId)
    requires Wf(d) && w in d.win
  {
    d.win[w].IsFullscreen() || !d.ws[d.win[w].ws].hasFs
  }

  // r differs from d in w's mode and its workspace's flags.
  ghost predicate Switched(d: Desk, r: Desk, w: WinId, internal: int) {
    && SamePlaces(d, r) && w in d.win && d.win[w].ws in d.ws
    && (forall v :: v in d.win && v != w ==> Alike(d.win[v], r.win[v]))
    && r.win[w].fs.internal == internal
    && r.ws == d.ws[d.win[w].ws := Flagged(d.ws[d.win[w].ws], Effective(internal))]
  }

  lemma SwitchUnique(d: Desk, r: Desk, w: WinId, internal: int)
    requires Wf(d) && FsInv(d) && Switched(d, r, w, internal) && Alone(d, w)
    ensures Unique(r)
    ensures forall v :: v in r.win && v != w && r.win[v].ws == r.win[w].ws ==> !r.win[v].IsFullscreen()
  {
    forall v | v in r.win && v != w && r.win[v].IsFullscreen()
      ensures r.win[v].ws != d.win[w].ws && FullscreenOn(d, v, r.win[v].ws)
    {
      assert FullscreenOn(d, v, d.win[v].ws);
      if d.win[v].ws == d.win[w].ws && d.win[w].IsFullscreen() {
        assert FullscreenOn(d, w, d.win[v].ws);
      }
    }
  }

  lemma SwitchHonest(d: Desk, r: Desk, w: WinId, internal: int)
    requires Wf(d) && FsInv(d) && Switched(d, r, w, internal)
    ensures Honest(r)
  {
    forall x | x in r.ws && r.ws[x].hasFs
      ensures exists v :: FullscreenOn(r, v, x)
    {
      if x == d.win[w].ws {
        assert FullscreenOn(r, w, x);
      } else {
        var v :| FullscreenOn(d, v, x);
        assert FullscreenOn(r, v, x);
      }
    }
  }

  lemma SwitchKeepsInv(d: Desk, r: Desk, w: WinId, internal: int)
    requires Wf(d) && FsInv(d) && Switched(d, r, w, internal) && Alone(d, w)
    requires 0 <= internal <= FSMODE_MAX
    requires internal != FSMODE_NONE ==> r.win[w].traits.mapped && !r.win[w].fs.pinned
    ensures Wf(r) && FsInv(r)
  {
    SamePlacesWf(d, r);
    SwitchUnique(d, r, w, internal);
    SwitchHonest(d, r, w, internal);
  }

  lemma AlikeKeepsInv(d: Desk, r: Desk)
    requires Wf(d) && FsInv(d) && SamePlaces(d, r) && r.ws == d.ws
    requires forall v :: v in d.win ==>
        if d.win[v].IsFullscreen() then Alike(d.win[v], r.win[v]) else !r.win[v].IsFullscreen()
    ensures Wf(r) && FsInv(r)
  {
    SamePlacesWf(d, r);
    forall x | x in r.ws && r.ws[x].hasFs
      ensures exists w :: FullscreenOn(r, w, x)
    {
      var w :| FullscreenOn(d, w, x);
      assert FullscreenOn(r, w, x);
    }
    forall v, w, x | FullscreenOn(r, v, x) && FullscreenOn(r, w, x)
      ensures v == w
    {
      assert FullscreenOn(d, v, x) && FullscreenOn(d, w, x);
    }
  }

  lemma ApplyKeepsInv(d: Desk, w: WinId, internal: int, client: int)
    requires Wf(d) && FsInv(d) && w in d.win && d.win[w].traits.mapped && Alone(d, w)
    requires 0 <= internal <= FSMODE_MAX
    ensures var r := Apply(d, w, internal, client); Wf(r) && FsInv(r)
  {
    var r := Apply(d, w, internal, client);
    if Changes(d.win[w].fs, internal) {
      SwitchKeepsInv(d, r, w, internal);
    } else {
      AlikeKeepsInv(d, r);
    }
  }

  // Windows other than w keep everything but their place in the stack, and outside w's
  // workspace they keep that too.
  lemma ApplyFrame(d: Desk, w: WinId, internal: int, client: int)
    requires w in d.win && d.win[w].ws in d.ws
    ensures var r, x := Apply(d, w, internal, client), d.win[w].ws;
      && SamePlaces(d, r)
      && r.win[w].fs == Requested(d.win[w].fs, d.win[w].traits, d.allowPin, internal, client)
      && (forall v :: v in d.win && v != w ==> Restacked(d.win[v], r.win[v]))
      && (forall v :: v in d.win && d.win[v].ws != x ==> r.win[v] == d.win[v])
      && (forall y :: y in d.ws && y != x ==> r.ws[y] == d.ws[y])
      && r.ws[x] == (if Changes(d.win[w].fs, internal) then Flagged(d.ws[x], Effective(internal)) else d.ws[x])
  {
  }

  predicate Restacked(a: WinState, b: WinState) {
    b == a.(fs := a.fs.(createdOver := b.fs.createdOver))
  }

  // A fullscreen window that is told to leave does leave; nothing is evicted for it.
  lemma LeaveEffect(d: Desk, f: WinId, client: int)
    requires Wf(d) && FsInv(d) && f in d.win && d.win[f].IsFullscreen() && !d.unsafe
    ensures CanEvict(d, f)
    ensures SetState(d, f, FSMODE_NONE, client) == Apply(d, f, FSMODE_NONE, ClampMode(client))
    ensures Changes(d.win[f].fs, FSMODE_NONE)
  {
    var s := d.win[f];
    assert s.(fs := Unpinned(s.fs, d.allowPin)) == s;
    assert d.win[f := s] == d.win;
    assert Shown(s, d.ws[s.ws]);
  }

  // The eviction is a request to leave, made to the fullscreen window of the workspace.
  lemma EvictIsLeave(d: Desk, w: WinId) returns (f: WinId, client: int)
    requires Wf(d) && FsInv(d) && w in d.win && !d.unsafe
    ensures CanEvict(d, w)
    ensures Alone(d, w) ==> Evict(d, w) == d
    ensures !Alone(d, w) ==>
      && f != w && FullscreenOn(d, f, d.win[w].ws) && Changes(d.win[f].fs, FSMODE_NONE)
      && client == (if d.win[f].traits.sync then FSMODE_NONE else ClampMode(d.win[f].fs.client))
      && Evict(d, w) == Apply(d, f, FSMODE_NONE, client)
  {
    f, client := w, 0;
    if !Alone(d, w) {
      f := FullscreenWindow(d, d.windows, d.win[w].ws).value;
      client := if d.win[f].traits.sync then FSMODE_NONE else d.win[f].fs.client;
      LeaveEffect(d, f, client);
      client := ClampMode(client);
    }
  }

  lemma EvictKeepsInv(d: Desk, w: WinId)
    requires Wf(d) && FsInv(d) && w in d.win && !d.unsafe && CanEvict(d, w)
    ensures Wf(Evict(d, w)) && FsInv(Evict(d, w))
  {
    var f, client := EvictIsLeave(d, w);
    if !Alone(d, w) {
      ApplyKeepsInv(d, f, FSMODE_NONE, client);
    }
  }

  lemma EvictFrame(d: Desk, w: WinId)
    requires Wf(d) && FsInv(d) && w in d.win && !d.unsafe && CanEvict(d, w)
    ensures var r, x := Evict(d, w), d.win[w].ws;
      && Wf(r) && Alone(r, w)
      && Restacked(d.win[w], r.win[w])
      && (forall v :: v in d.win && d.win[v].ws != x ==> r.win[v] == d.win[v])
      && (forall y :: y in d.ws && y != x ==> r.ws[y] == d.ws[y])
  {
    SamePlacesWf(d, Evict(d, w));
    var f, client := EvictIsLeave(d, w);
    if !Alone(d, w) {
      ApplyFrame(d, f, FSMODE_NONE, client);
    }
  }

  // The windows that share w's workspace are not fullscreen once w is alone there.
  lemma OthersLeft(d: Desk, w: WinId)
    requires Wf(d) && FsInv(d) && w in d.win && Alone(d, w)
    ensures forall v :: v in d.win && v != w && d.win[v].ws == d.win[w].ws ==> !d.win[v].IsFullscreen()
    ensures !d.win[w].IsFullscreen() ==> d.ws[d.win[w].ws].mode == FSMODE_NONE
  {
    forall v | v in d.win && d.win[v].ws == d.win[w].ws && d.win[v].IsFullscreen()
      ensures v == w
    {
      assert FullscreenOn(d, v, d.win[w].ws);
      assert d.win[w].IsFullscreen() ==> FullscreenOn(d, w, d.win[w].ws);
    }
  }

  lemma UnpinKeepsInv(d: Desk, w: WinId)
    requires Wf(d) && FsInv(d) && w in d.win
    ensures CanEvict(d, w)
    ensures var r := UnpinStep(d, w);
      && SamePlaces(d, r) && Wf(r) && CanEvict(r, w) && FsInv(r) && r.ws == d.ws
      && forall v :: v in d.win && v != w ==> r.win[v] == d.win[v]
  {
    UnpinKeepsFullscreen(d, w);
    AlikeKeepsInv(d, UnpinStep(d, w));
  }

  lemma RequestSteps(d: Desk, w: WinId, internal: int, client: int) returns (d1: Desk, d2: Desk)
    requires Wf(d) && FsInv(d) && w in d.win && d.win[w].traits.mapped && !d.unsafe
    ensures CanEvict(d, w)
    ensures d1 == UnpinStep(d, w) && SamePlaces(d, d1) && Wf(d1) && CanEvict(d1, w)
    ensures FsInv(d1) && d2 == Evict(d1, w) && SamePlaces(d1, d2) && Wf(d2) && FsInv(d2) && Alone(d2, w)
    ensures SetState(d, w, internal, client) == Apply(d2, w, ClampMode(internal), ClampMode(client))
    ensures Restacked(d1.win[w], d2.win[w])
    ensures forall v :: v in d.win && d.win[v].ws != d.win[w].ws ==> d2.win[v] == d.win[v]
    ensures forall y :: y in d.ws && y != d.win[w].ws ==> d2.ws[y] == d.ws[y]
  {
    UnpinKeepsInv(d, w);
    d1 := UnpinStep(d, w);
    EvictKeepsInv(d1, w);
    EvictFrame(d1, w);
    d2 := Evict(d1, w);
  }

  // Every request keeps the invariant, whatever the modes asked for.
  lemma RequestKeepsInv(d: Desk, w: WinId, internal: int, client: int)
    requires Wf(d) && FsInv(d) && w in d.win
    ensures CanEvict(d, w)
    ensures var r := SetState(d, w, internal, client); Wf(r) && FsInv(r)
  {
    if d.win[w].traits.mapped && !d.unsafe {
      var d1, d2 := RequestSteps(d, w, internal, client);
      ApplyKeepsInv(d2, w, ClampMode(internal), ClampMode(client));
    }
  }

  // One window's share of a request: s1 is what the eviction may turn s into.
  lemma RequestedMode(s: FsState, s1: FsState, t: Traits, allowPin: bool, n: int, client: int)
    requires 0 <= n <= FSMODE_MAX && 0 <= s.internal <= FSMODE_MAX
    requires s.pinned ==> s.internal == FSMODE_NONE
    requires s1 == Unpinned(s, allowPin).(createdOver := s1.createdOver)
    ensures var r, free := Requested(s1, t, allowPin, n, client), !s.pinned || (allowPin && !s.pinFs);
      && Effective(r.internal) == (if free then Effective(n) else FSMODE_NONE)
      && r.internal == (if free && Effective(n) != Effective(s.internal) then n else s.internal)
      && r.client == (if t.sync && (!free || Effective(n) == Effective(s.internal)) then s.client else client)
      && r.pinned == (!free || (allowPin && s.pinFs && s.internal != FSMODE_NONE && n == FSMODE_NONE))
      && r.pinFs == (if s.pinned && free then true else s.pinFs && (r.pinned ==> s.pinned))
      && (Changes(s1, n) ==> r.internal == n)
      && (!Changes(s1, n) ==> Effective(r.internal) == Effective(s1.internal))
  {
  }

  // What a request leaves in its window: the mode asked for, unless it stays pinned.
  lemma RequestMode(d: Desk, w: WinId, internal: int, client: int)
    requires Wf(d) && FsInv(d) && w in d.win && d.win[w].traits.mapped && !d.unsafe
    ensures CanEvict(d, w)
    ensures var r, s, n := SetState(d, w, internal, client).win[w].fs, d.win[w].fs, ClampMode(internal);
      var free := !s.pinned || (d.allowPin && !s.pinFs);
      && Effective(r.internal) == (if free then Effective(n) else FSMODE_NONE)
      && r.internal == (if free && Effective(n) != Effective(s.internal) then n else s.internal)
      && r.client == (if d.win[w].traits.sync && (!free || Effective(n) == Effective(s.internal)) then s.client
                      else ClampMode(client))
      && r.pinned == (!free || (d.allowPin && s.pinFs && s.internal != FSMODE_NONE && n == FSMODE_NONE))
      && r.pinFs == (if s.pinned && free then true else s.pinFs && (r.pinned ==> s.pinned))
  {
    var d1, d2 := RequestSteps(d, w, internal, client);
    assert Shown(d.win[w], d.ws[d.win[w].ws]);
    RequestedMode(d.win[w].fs, d2.win[w].fs, d.win[w].traits, d.allowPin, ClampMode(internal), ClampMode(client));
    ApplyFrame(d2, w, ClampMode(internal), ClampMode(client));
  }

  // What a request leaves elsewhere: no other window of the workspace is fullscreen, the
  // workspace shows the window's mode, and other workspaces are as they were.
  lemma RequestOthers(d: Desk, w: WinId, internal: int, client: int)
    requires Wf(d) && FsInv(d) && w in d.win && d.win[w].traits.mapped && !d.unsafe
    ensures CanEvict(d, w)
    ensures var r, x := SetState(d, w, internal, client), d.win[w].ws;
      && (forall v :: v in d.win && v != w && d.win[v].ws == x ==> !r.win[v].IsFullscreen())
      && (forall v :: v in d.win && d.win[v].ws != x ==> r.win[v] == d.win[v])
      && (forall y :: y in d.ws && y != x ==> r.ws[y] == d.ws[y])
      && r.ws[x].hasFs == r.win[w].IsFullscreen()
      && r.ws[x].mode == Effective(r.win[w].fs.internal)
  {
    var d1, d2 := RequestSteps(d, w, internal, client);
    var n, c := ClampMode(internal), ClampMode(client);
    assert Shown(d2.win[w], d2.ws[d.win[w].ws]);
    OthersLeft(d2, w);
    ApplyFrame(d2, w, n, c);
    RequestedFlags(d2.win[w], d2.ws[d.win[w].ws], d.allowPin, n, c);
  }

  // The window and its workspace still agree after a request.
  lemma RequestedFlags(s: WinState, x: WsState, allowPin: bool, n: int, client: int)
    requires n >= FSMODE_NONE && Shown(s, x) && (!s.IsFullscreen() ==> !x.hasFs && x.mode == FSMODE_NONE)
    ensures var fs := Requested(s.fs, s.traits, allowPin, n, client);
      var y := if Changes(s.fs, n) then Flagged(x, Effective(n)) else x;
      y.hasFs == (fs.internal != FSMODE_NONE) && y.mode == Effective(fs.internal)
  {
  }

  lemma EvictPins(d: Desk, w: WinId, v: WinId)
    requires Wf(d) && FsInv(d) && w in d.win && !d.unsafe && v in d.win && d.win[v].fs.pinned
    ensures CanEvict(d, w) && Evict(d, w).win[v].fs.pinned
  {
    var f, c := EvictIsLeave(d, w);
    if !Alone(d, w) {
      assert f != v;
      ApplyFrame(d, f, FSMODE_NONE, c);
    }
  }

  // A request unpins no window but the one it is made for.
  lemma RequestPins(d: Desk, w: WinId, internal: int, client: int, v: WinId)
    requires Wf(d) && FsInv(d) && w in d.win && v in d.win && v != w && d.win[v].fs.pinned
    ensures CanEvict(d, w) && SetState(d, w, internal, client).win[v].fs.pinned
  {
    if d.win[w].traits.mapped && !d.unsafe {
      var d1, d2 := RequestSteps(d, w, internal, client);
      EvictPins(d1, w, v);
      ApplyFrame(d2, w, ClampMode(internal), ClampMode(client));
    }
  }

  // A pinned window that is made fullscreen, where the configuration lets it, is pinned again when
  // it leaves.
  lemma PinRoundTrip(d: Desk, w: WinId, internal: int, client: int, later: int)
    requires Wf(d) && FsInv(d) && w in d.win && d.win[w].traits.mapped && !d.unsafe && d.allowPin
    requires d.win[w].fs.pinned && !d.win[w].fs.pinFs && ClampMode(internal) != FSMODE_NONE
    ensures CanEvict(d, w)
    ensures var r := SetState(d, w, internal, client);
      && Wf(r) && CanEvict(r, w) && r.win[w].IsFullscreen() && !r.win[w].fs.pinned
      && var back := SetState(r, w, FSMODE_NONE, later).win[w].fs;
      back.pinned && !back.pinFs && back.internal == FSMODE_NONE
  {
    RequestKeepsInv(d, w, internal, client);
    RequestMode(d, w, internal, client);
    var r := SetState(d, w, internal, client);
    assert Shown(d.win[w], d.ws[d.win[w].ws]);
    RequestMode(r, w, FSMODE_NONE, later);
  }

  // ---- the wrapper, the window that gives way, and the windows below

  // setWindowFullscreenInternal: a window that does not sync keeps its client mode.
  lemma InternalKeepsClient(d: Desk, w: WinId, mode: int)
    requires Wf(d) && FsInv(d) && w in d.win && d.win[w].traits.mapped && !d.unsafe
    ensures CanEvict(d, w)
    ensures var r, s, n := SetInternal(d, w, mode).win[w].fs, d.win[w].fs, ClampMode(mode);
      var free := !s.pinned || (d.allowPin && !s.pinFs);
      if !d.win[w].traits.sync then r.client == ClampMode(s.client)
      else r.client == if free && Effective(n) != Effective(s.internal) then n else s.client
  {
    RequestMode(d, w, mode, if d.win[w].traits.sync then mode else d.win[w].fs.client);
  }

  // The window that gives way is the fullscreen one.
  lemma EvictsIt(d: Desk, w: WinId, v: WinId)
    requires Wf(d) && FsInv(d) && w in d.win && !d.unsafe && FullscreenOn(d, v, d.win[w].ws) && v != w
    ensures CanEvict(d, w)
    ensures Evict(d, w) == Apply(d, v, FSMODE_NONE, if d.win[v].traits.sync then FSMODE_NONE else ClampMode(d.win[v].fs.client))
  {
    var f, c := EvictIsLeave(d, w);
    assert Shown(d.win[v], d.ws[d.win[v].ws]);
    assert forall u :: FullscreenOn(d, u, d.win[w].ws) ==> u == v;
    assert !FullscreenOn(d, w, d.win[w].ws);
  }

  // One window's fields as it leaves.
  lemma LeavingMode(s: FsState, t: Traits, allowPin: bool, client: int)
    requires 0 < s.internal <= FSMODE_MAX && !s.pinned
    ensures var r := Requested(s, t, allowPin, FSMODE_NONE, client);
      r.internal == FSMODE_NONE && r.client == client && r.pinned == (allowPin && s.pinFs) && r.pinFs == (s.pinFs && !allowPin)
  {
  }

  // The window that gives way leaves fullscreen for its own client mode, or for none if it syncs,
  // and is pinned again if it was unpinned for fullscreen.
  lemma RequestEvicts(d: Desk, w: WinId, internal: int, client: int, v: WinId)
    requires Wf(d) && FsInv(d) && w in d.win && d.win[w].traits.mapped && !d.unsafe
    requires FullscreenOn(d, v, d.win[w].ws) && v != w
    ensures CanEvict(d, w)
    ensures var r, s := SetState(d, w, internal, client).win[v].fs, d.win[v].fs;
      && r.internal == FSMODE_NONE
      && r.client == (if d.win[v].traits.sync then FSMODE_NONE else ClampMode(s.client))
      && r.pinned == (d.allowPin && s.pinFs) && r.pinFs == (s.pinFs && !d.allowPin)
  {
    var d1, d2 := RequestSteps(d, w, internal, client);
    var c := if d.win[v].traits.sync then FSMODE_NONE else ClampMode(d.win[v].fs.client);
    assert Shown(d.win[v], d.ws[d.win[v].ws]);
    EvictsIt(d1, w, v);
    ApplyFrame(d1, v, FSMODE_NONE, c);
    LeavingMode(d.win[v].fs, d.win[v].traits, d.allowPin, c);
    ApplyFrame(d2, w, ClampMode(internal), ClampMode(client));
  }

  // A write to w puts windows of its workspace under the fullscreen window.
  lemma ApplyLowers(d: Desk, w: WinId, internal: int, client: int, v: WinId)
    requires w in d.win && d.win[w].ws in d.ws && v in d.win && d.win[v].ws == d.win[w].ws
    ensures var r, s := Apply(d, w, internal, client).win[v], d.win[v];
      r.fs.createdOver ==
      (s.fs.createdOver && !(Changes(d.win[w].fs, internal) && !r.IsFullscreen() && !s.traits.fading && !r.fs.pinned))
  {
  }

  // The workspace's windows that a request puts under the fullscreen window: when one gives way or
  // the mode changes, all that are not fullscreen, fading or pinned. A request that is refused
  // changes nothing.
  lemma RequestLowers(d: Desk, w: WinId, internal: int, client: int, v: WinId)
    requires Wf(d) && FsInv(d) && w in d.win && v in d.win && d.win[v].ws == d.win[w].ws
    ensures CanEvict(d, w)
    ensures var r, s := SetState(d, w, internal, client), d.win[w].fs;
      var evicts := s.internal == FSMODE_NONE && d.ws[d.win[w].ws].hasFs;
      var changes := (!s.pinned || (d.allowPin && !s.pinFs)) && Effective(ClampMode(internal)) != Effective(s.internal);
      if !d.win[w].traits.mapped || d.unsafe then r == d
      else r.win[v].fs.createdOver ==
           (d.win[v].fs.createdOver
            && !((evicts || (changes && !r.win[v].IsFullscreen())) && !d.win[v].traits.fading && !r.win[v].fs.pinned))
  {
    if d.win[w].traits.mapped && !d.unsafe {
      var d1, d2 := RequestSteps(d, w, internal, client);
      var n, c := ClampMode(internal), ClampMode(client);
      EvictLowers(d1, w, v);
      ApplyLowers(d2, w, n, c, v);
      ApplyKeepsPin(d2, w, n, c, v);
      UnpinFields(d, w, d1);
      assert d2.win[w].fs == d1.win[w].fs.(createdOver := d2.win[w].fs.createdOver);
    }
  }

  lemma UnpinFields(d: Desk, w: WinId, d1: Desk)
    requires Wf(d) && FsInv(d) && w in d.win && d1 == UnpinStep(d, w)
    ensures var s, r, n := d.win[w].fs, d1.win[w].fs, d.win[w].fs.internal;
      && r.internal == s.internal && r.pinned == (s.pinned && !(d.allowPin && !s.pinFs))
      && forall v :: v in d.win ==> d1.win[v].fs.createdOver == d.win[v].fs.createdOver
  {
    assert Shown(d.win[w], d.ws[d.win[w].ws]);
  }

  // Only a window that was fullscreen is pinned by the write.
  lemma ApplyKeepsPin(d: Desk, w: WinId, internal: int, client: int, v: WinId)
    requires Wf(d) && FsInv(d) && w in d.win && v in d.win && d.win[v].ws == d.win[w].ws && Alone(d, w)
    ensures var r := Apply(d, w, internal, client).win[v];
      v != w || !d.win[w].IsFullscreen() ==> r.fs.pinned == d.win[v].fs.pinned
  {
    ApplyFrame(d, w, internal, client);
  }

  lemma EvictLowers(d: Desk, w: WinId, v: WinId)
    requires Wf(d) && FsInv(d) && w in d.win && !d.unsafe && v in d.win && d.win[v].ws == d.win[w].ws
    ensures CanEvict(d, w)
    ensures var r, s := Evict(d, w).win[v], d.win[v];
      r.fs.createdOver == (s.fs.createdOver && !(!Alone(d, w) && !s.traits.fading && !r.fs.pinned))
  {
    var f, c := EvictIsLeave(d, w);
    if !Alone(d, w) {
      ApplyLowers(d, f, FSMODE_NONE, c, v);
      ApplyFrame(d, f, FSMODE_NONE, c);
      EvictFrame(d, w);
      OthersLeft(d, f);
    }
  }
}
