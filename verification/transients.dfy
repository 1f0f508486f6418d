// Which X11 window another one is transient for (src/desktop/Window.cpp), and what that means for
// raising and lowering (src/Compositor.cpp).
module Transients {
  import opened Common
  import opened Ids
  import opened Lists
  import opened Stacking

  datatype Surface = Surface(n: nat)

  // The X11 surfaces that have a parent, and the surfaces of the X11 windows.
  datatype Tree = Tree(parent: map<Surface, Surface>, of: map<WinId, Surface>)

  type Parents = map<Surface, Surface>

  function Up(parent: Parents, s: Surface): Option<Surface> {
    if s in parent then Some(parent[s]) else None
  }

  function SurfaceOf(t: Tree, w: WinId): Option<Surface> {
    if w in t.of then Some(t.of[w]) else None
  }

  function Ahead(parent: Parents, visited: seq<Surface>): set<Surface> {
    set s | s in parent.Keys && s !in visited
  }

  // The walk up the parents, which breaks where it has been before.
  function Walk(parent: Parents, s: Option<Surface>, visited: seq<Surface>): Option<Surface>
    decreases Ahead(parent, visited), if s.Some? then 1 else 0
  {
    if s.None? || s.value in visited then s
    else
      assert Ahead(parent, visited + [s.value]) <= Ahead(parent, visited);
      assert s.value in parent ==> s.value in Ahead(parent, visited) && s.value !in Ahead(parent, visited + [s.value]);
      Walk(parent, Up(parent, s.value), visited + [s.value])
  }

  // The first window of the list with that surface; windows without one are native ones.
  function WindowWith(t: Tree, list: seq<WinId>, s: Option<Surface>): (r: Option<WinId>)
    ensures r.Some? ==> r.value in list && SurfaceOf(t, r.value) == s
    ensures r.None? ==> forall w :: w in list ==> SurfaceOf(t, w) != s
  {
    if list == [] then None
    else if SurfaceOf(t, list[0]) == s then Some(list[0])
    else WindowWith(t, list[1..], s)
  }

  function TransientFor(t: Tree, list: seq<WinId>, w: WinId): Option<WinId> {
    if w !in t.of || t.of[w] !in t.parent then None
    else
      var s := Walk(t.parent, Some(t.parent[t.of[w]]), []);
      if s == Some(t.of[w]) then None else WindowWith(t, list, s)
  }

  // CWindow::x11TransientFor
  method X11TransientFor(t: Tree, windows: seq<WinId>, w: WinId) returns (r: Option<WinId>)
    ensures r == TransientFor(t, windows, w)
  {
    if w !in t.of || t.of[w] !in t.parent {
      return None;
    }
    var s := Some(t.parent[t.of[w]]);
    var visited := [];
    while s.Some?
      invariant Walk(t.parent, s, visited) == Walk(t.parent, Some(t.parent[t.of[w]]), [])
      decreases Ahead(t.parent, visited), if s.Some? then 1 else 0
    {
      if s.value in visited {
        break;
      }
      assert Ahead(t.parent, visited + [s.value]) <= Ahead(t.parent, visited);
      assert s.value in t.parent ==>
          s.value in Ahead(t.parent, visited) && s.value !in Ahead(t.parent, visited + [s.value]);
      visited := visited + [s.value];
      s := Up(t.parent, s.value);
    }
    if s == Some(t.of[w]) {
      return None;
    }
    var i := 0;
    while i < |windows|
      invariant 0 <= i <= |windows| && WindowWith(t, windows[i..], s) == WindowWith(t, windows, s)
    {
      if SurfaceOf(t, windows[i]) == s {
        return Some(windows[i]);
      }
      i := i + 1;
    }
    return None;
  }

  // ---- where the walk ends

  // n steps up from s.
  function Above(parent: Parents, s: Surface, n: nat): Option<Surface> {
    if n == 0 then Some(s)
    else
      var below := Above(parent, s, n - 1);
      if below.None? then None else Up(parent, below.value)
  }

  lemma {:induction false} AboveTwice(parent: Parents, s: Surface, m: nat, n: nat)
    requires Above(parent, s, m).Some?
    ensures Above(parent, s, m + n) == Above(parent, Above(parent, s, m).value, n)
  {
    if n > 0 {
      AboveTwice(parent, s, m, n - 1);
    }
  }

  lemma {:induction false} NothingAbove(parent: Parents, s: Surface, m: nat, n: nat)
    requires Above(parent, s, m).None?
    ensures Above(parent, s, m + n).None?
  {
    if n > 0 {
      NothingAbove(parent, s, m, n - 1);
    }
  }

  // A surface that is among its own ancestors.
  ghost predicate OnCycle(parent: Parents, s: Surface) {
    exists n :: n > 0 && Above(parent, s, n) == Some(s)
  }

  // e is the first surface on a cycle, from s up.
  ghost predicate FirstAt(parent: Parents, s: Surface, e: Surface, n: nat) {
    && Above(parent, s, n) == Some(e) && OnCycle(parent, e)
    && forall m :: 0 <= m < n && Above(parent, s, m).Some? ==> !OnCycle(parent, Above(parent, s, m).value)
  }

  ghost predicate FirstOnCycle(parent: Parents, s: Surface, e: Surface) {
    exists n :: FirstAt(parent, s, e, n)
  }

  // There is no end to the parents of a surface on a cycle.
  lemma {:induction false} CycleNeverEnds(parent: Parents, s: Surface, r: nat, n: nat)
    requires r > 0 && Above(parent, s, r) == Some(s)
    ensures Above(parent, s, n).Some?
  {
    if n >= r {
      CycleNeverEnds(parent, s, r, n - r);
      AboveTwice(parent, s, r, n - r);
    } else if Above(parent, s, n).None? {
      NothingAbove(parent, s, n, r - n);
    }
  }

  // The surfaces from s up, each once, as far as the walk has come.
  ghost predicate Trail(parent: Parents, s: Surface, visited: seq<Surface>) {
    Distinct(visited) && forall i :: 0 <= i < |visited| ==> Above(parent, s, i) == Some(visited[i])
  }

  // Once the trail has met itself, nothing new comes.
  lemma {:induction false} NothingNew(parent: Parents, s: Surface, visited: seq<Surface>, i: nat, n: nat)
    requires Trail(parent, s, visited) && i < |visited| && Above(parent, s, |visited|) == Some(visited[i])
    requires n >= i
    ensures exists j :: i <= j < |visited| && Above(parent, s, n) == Some(visited[j])
    decreases n
  {
    if n < |visited| {
      assert Above(parent, s, n) == Some(visited[n]);
    } else if n == |visited| {
      assert Above(parent, s, n) == Some(visited[i]);
    } else {
      NothingNew(parent, s, visited, i, n - 1);
      var j :| i <= j < |visited| && Above(parent, s, n - 1) == Some(visited[j]);
      assert Above(parent, s, j + 1) == Up(parent, visited[j]) == Above(parent, s, n);
      if j + 1 < |visited| {
        assert Above(parent, s, n) == Some(visited[j + 1]);
      } else {
        assert Above(parent, s, n) == Some(visited[i]);
      }
    }
  }

  // Where the trail meets itself is the first surface on a cycle.
  lemma MeetsItself(parent: Parents, s: Surface, visited: seq<Surface>, i: nat)
    requires Trail(parent, s, visited) && i < |visited| && Above(parent, s, |visited|) == Some(visited[i])
    ensures FirstAt(parent, s, visited[i], i)
  {
    AboveTwice(parent, s, i, |visited| - i);
    assert Above(parent, visited[i], |visited| - i) == Some(visited[i]);
    forall m | 0 <= m < i
      ensures !OnCycle(parent, visited[m])
    {
      if OnCycle(parent, visited[m]) {
        var r :| r > 0 && Above(parent, visited[m], r) == Some(visited[m]);
        ComesAgain(parent, s, m, r, visited[m], i);
        var k :| k >= i && Above(parent, s, k) == Some(visited[m]);
        NothingNew(parent, s, visited, i, k);
      }
    }
  }

  // A surface on a cycle comes again after any number of steps.
  lemma {:induction false} ComesAgain(parent: Parents, s: Surface, m: nat, r: nat, e: Surface, i: nat)
    requires r > 0 && Above(parent, s, m) == Some(e) && Above(parent, e, r) == Some(e)
    ensures exists k :: k >= i && Above(parent, s, k) == Some(e)
    decreases i - m
  {
    if m < i {
      AboveTwice(parent, s, m, r);
      ComesAgain(parent, s, m + r, r, e, i);
    }
  }

  lemma {:induction false} WalkFrom(parent: Parents, s: Surface, visited: seq<Surface>)
    requires Trail(parent, s, visited)
    ensures var r := Walk(parent, Above(parent, s, |visited|), visited);
      if r.Some? then FirstOnCycle(parent, s, r.value) else exists n :: Above(parent, s, n).None?
    decreases Ahead(parent, visited), if Above(parent, s, |visited|).Some? then 1 else 0
  {
    var at := Above(parent, s, |visited|);
    if at.Some? {
      if at.value in visited {
        var i :| 0 <= i < |visited| && visited[i] == at.value;
        MeetsItself(parent, s, visited, i);
      } else {
        assert Ahead(parent, visited + [at.value]) <= Ahead(parent, visited);
        assert at.value in parent ==>
            at.value in Ahead(parent, visited) && at.value !in Ahead(parent, visited + [at.value]);
        WalkFrom(parent, s, visited + [at.value]);
      }
    }
  }

  lemma OneFirst(parent: Parents, s: Surface, a: Surface, b: Surface)
    requires FirstOnCycle(parent, s, a) && FirstOnCycle(parent, s, b)
    ensures a == b
  {
    var m :| FirstAt(parent, s, a, m);
    var n :| FirstAt(parent, s, b, n);
  }

  // The walk ends at the first surface on a cycle, and otherwise beyond the last parent.
  lemma WalkEnds(parent: Parents, s: Surface, e: Surface)
    ensures Walk(parent, Some(s), []) == Some(e) <==> FirstOnCycle(parent, s, e)
    ensures Walk(parent, Some(s), []).None? <==> exists n :: Above(parent, s, n).None?
  {
    WalkFrom(parent, s, []);
    var r := Walk(parent, Some(s), []);
    if FirstOnCycle(parent, s, e) {
      if r.Some? {
        OneFirst(parent, s, e, r.value);
      } else {
        FirstOrLast(parent, s, e);
      }
    }
    if r.Some? && exists n :: Above(parent, s, n).None? {
      FirstOrLast(parent, s, r.value);
    }
  }

  lemma FirstOrLast(parent: Parents, s: Surface, e: Surface)
    requires FirstOnCycle(parent, s, e)
    ensures forall n :: n >= 0 ==> Above(parent, s, n).Some?
  {
    var m: nat :| FirstAt(parent, s, e, m);
    var r :| r > 0 && Above(parent, e, r) == Some(e);
    forall n: int | n >= 0
      ensures Above(parent, s, n).Some?
    {
      if n >= m {
        CycleNeverEnds(parent, e, r, n - m);
        AboveTwice(parent, s, m, n - m);
      } else if Above(parent, s, n).None? {
        NothingAbove(parent, s, n, m - n);
      }
    }
  }

  // ---- which windows move together

  // Windows have surfaces of their own, and the stack's links are the transient links.
  ghost predicate Linked(t: Tree, list: seq<WinId>, info: map<WinId, XWin>) {
    && (forall v, w :: v in t.of && w in t.of && t.of[v] == t.of[w] ==> v == w)
    && (forall w :: w in info ==>
          (info[w].x11 <==> w in t.of) && info[w].transientFor == TransientFor(t, list, w))
  }

  // w moves with p when both are on one cycle and p is w's parent, or when p is where w's parents
  // run into a cycle.
  lemma PulledByCycle(t: Tree, list: seq<WinId>, info: map<WinId, XWin>, p: WinId, w: WinId)
    requires Linked(t, list, info) && p in list && p in t.of && w in info
    ensures Pulls(info, p, w) <==>
      && info[w].mapped && !info[w].hidden && w != p && w in t.of && t.of[w] in t.parent
      && FirstOnCycle(t.parent, t.parent[t.of[w]], t.of[p])
  {
    if w in t.of && t.of[w] in t.parent {
      WalkEnds(t.parent, t.parent[t.of[w]], t.of[p]);
    }
  }

  // Raising or lowering a window moves others with it exactly when one of them runs into a cycle
  // of parents at that window. So without a cycle every window moves alone.
  lemma MovesOthers(t: Tree, list: seq<WinId>, info: map<WinId, XWin>, root: WinId)
    requires Linked(t, list, info) && root in list && root in t.of && forall w :: w in list ==> w in info
    ensures Block(list, info, root) == [root] <==>
      forall w :: w in list && info[w].mapped && !info[w].hidden && w != root && w in t.of && t.of[w] in t.parent ==>
        !FirstOnCycle(t.parent, t.parent[t.of[w]], t.of[root])
    ensures !OnCycle(t.parent, t.of[root]) ==> Block(list, info, root) == [root]
  {
    AloneUnlessPulling(list, info, root);
    forall w | w in list
      ensures Pulls(info, root, w) <==>
        && info[w].mapped && !info[w].hidden && w != root && w in t.of && t.of[w] in t.parent
        && FirstOnCycle(t.parent, t.parent[t.of[w]], t.of[root])
    {
      PulledByCycle(t, list, info, root, w);
    }
  }

  lemma AloneUnlessPulling(list: seq<WinId>, info: map<WinId, XWin>, root: WinId)
    requires root in list
    ensures Block(list, info, root) == [root] <==> forall w :: w in list ==> !Pulls(info, root, w)
  {
    var r := Block(list, info, root);
    CollectSpec(list, info, [], root);
    BlockIsClosure(list, info, root);
    if r != [root] {
      assert |r| > 1;
      assert PulledBefore(info, r, 0, 1);
      assert r[1] in list && Pulls(info, root, r[1]);
    }
    forall w | w in list && Pulls(info, root, w)
      ensures r != [root]
    {
      assert r[0] == root && w in r;
    }
  }

  // ---- a dialog and its window

  const MAIN := WinId(0)
  const DIALOG := WinId(1)
  const MAPPED := XWin(true, false, true, None, false)

  // The dialog's parent is the window; the window has no parent, or, oddly, the dialog.
  function Family(loop: bool): Tree {
    var parent := map[Surface(1) := Surface(0)];
    Tree(if loop then parent[Surface(0) := Surface(1)] else parent, map[MAIN := Surface(0), DIALOG := Surface(1)])
  }

  function FamilyInfo(loop: bool): map<WinId, XWin> {
    map[MAIN := MAPPED.(transientFor := TransientFor(Family(loop), [MAIN, DIALOG], MAIN)),
        DIALOG := MAPPED.(transientFor := TransientFor(Family(loop), [MAIN, DIALOG], DIALOG))]
  }

  // Raising the window raises its dialog only when the two are each other's parents.
  lemma DialogStaysBehind(loop: bool)
    ensures Linked(Family(loop), [MAIN, DIALOG], FamilyInfo(loop))
    ensures Block([MAIN, DIALOG], FamilyInfo(loop), MAIN) == [MAIN] <==> !loop
  {
    var t, list, info := Family(loop), [MAIN, DIALOG], FamilyInfo(loop);
    assert forall w :: w in list ==> w == MAIN || w == DIALOG;
    assert list[0] == MAIN && list[1] == DIALOG;
    assert Above(t.parent, Surface(0), 0) == Some(Surface(0));
    if loop {
      assert Above(t.parent, Surface(0), 1) == Some(Surface(1));
      assert Above(t.parent, Surface(0), 2) == Some(Surface(0));
      assert FirstAt(t.parent, Surface(0), Surface(0), 0);
    } else {
      assert Above(t.parent, Surface(0), 1).None?;
      WalkEnds(t.parent, Surface(0), Surface(0));
    }
    MovesOthers(t, list, info, MAIN);
  }
}
