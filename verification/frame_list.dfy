// All frames, the active one, and dragging a frame (src/canvas/CanvasFrameManager.cpp). Mouse
// positions are canvas positions.
module FrameList {
  import opened Common

  datatype Entry = Entry(id: nat, position: Vec, size: Vec)

  datatype ManagerOf<+L> = Manager(
    frames: L, nextId: nat, activeId: nat, dragging: bool, draggedId: nat, startMouse: Vec, startPos: Vec)

  type Manager = ManagerOf<seq<Entry>>

  datatype Op =
    | Create(position: Vec, size: Vec)
    | Delete(id: nat)
    | Drop(center: Vec)
    | BeginDrag(mouse: Vec)
    | UpdateDrag(mouse: Vec)
    | EndDrag

  predicate Covers(e: Entry, p: Vec) {
    && e.position.x <= p.x <= e.position.x + e.size.x
    && e.position.y <= p.y <= e.position.y + e.size.y
  }

  // The first frame that covers a point, |frames| if none does.
  function FrameAt(frames: seq<Entry>, p: Vec): (i: nat)
    ensures i <= |frames| && (forall k :: 0 <= k < i ==> !Covers(frames[k], p))
    ensures i < |frames| ==> Covers(frames[i], p)
  {
    if frames == [] || Covers(frames[0], p) then 0 else 1 + FrameAt(frames[1..], p)
  }

  function Without(frames: seq<Entry>, id: nat): seq<Entry> {
    if frames == [] then []
    else
      var last := |frames| - 1;
      Without(frames[..last], id) + if frames[last].id == id then [] else [frames[last]]
  }

  // The first frame with an id, |frames| if there is none.
  function WithId(frames: seq<Entry>, id: nat): (i: nat)
    ensures i <= |frames| && (forall k :: 0 <= k < i ==> frames[k].id != id)
    ensures i < |frames| ==> frames[i].id == id
  {
    if frames == [] || frames[0].id == id then 0 else 1 + WithId(frames[1..], id)
  }

  // activeFrame: the frame with the active id, else the last one
  function ActiveFrame(m: Manager): Option<nat> {
    if m.frames == [] then None
    else
      var i := WithId(m.frames, m.activeId);
      Some(if i < |m.frames| then i else |m.frames| - 1)
  }

  function LastId(frames: seq<Entry>): nat {
    if frames == [] then 0 else frames[|frames| - 1].id
  }

  function Deleted(m: Manager, id: nat): Manager {
    var rest := Without(m.frames, id);
    m.(frames := rest, activeId := if m.activeId == id then LastId(rest) else m.activeId)
  }

  function Dropped(m: Manager, center: Vec): Manager {
    var i := FrameAt(m.frames, center);
    if i < |m.frames| then m.(activeId := m.frames[i].id) else m
  }

  function DragBegun(m: Manager, mouse: Vec): Manager {
    match ActiveFrame(m)
    case None => m
    case Some(i) =>
      if i < |m.frames| then
        m.(dragging := true, draggedId := m.frames[i].id, startMouse := mouse, startPos := m.frames[i].position)
      else m
  }

  function DragUpdated(m: Manager, mouse: Vec): Manager {
    var i := WithId(m.frames, m.draggedId);
    if m.dragging && i < |m.frames| then
      m.(frames := m.frames[i := m.frames[i].(position := m.startPos.Plus(mouse.Minus(m.startMouse)))])
    else m
  }

  function Step(m: Manager, o: Op): Manager {
    match o
    case Create(position, size) =>
      m.(frames := m.frames + [Entry(m.nextId, position, size)], nextId := m.nextId + 1, activeId := m.nextId)
    case Delete(id) => Deleted(m, id)
    case Drop(center) => Dropped(m, center)
    case BeginDrag(mouse) => DragBegun(m, mouse)
    case UpdateDrag(mouse) => DragUpdated(m, mouse)
    case EndDrag => m.(dragging := false, draggedId := 0)
  }

  // Ids grow along the list, and the active id is that of a frame, or 0 when there is none.
  ghost predicate Increasing(frames: seq<Entry>, bound: nat) {
    && (forall i :: 0 <= i < |frames| ==> 1 <= frames[i].id < bound)
    && forall i, j :: 0 <= i < j < |frames| ==> frames[i].id < frames[j].id
  }

  ghost predicate Inv(m: Manager) {
    && 1 <= m.nextId && Increasing(m.frames, m.nextId)
    && if m.frames == [] then m.activeId == 0 else WithId(m.frames, m.activeId) < |m.frames|
  }

  lemma {:induction false} WithoutMembers(frames: seq<Entry>, id: nat)
    ensures forall e :: e in Without(frames, id) <==> e in frames && e.id != id
  {
    if frames != [] {
      var last := |frames| - 1;
      WithoutMembers(frames[..last], id);
      assert frames == frames[..last] + [frames[last]];
    }
  }

  lemma IncreasingPush(frames: seq<Entry>, e: Entry, bound: nat)
    requires Increasing(frames, bound) && 1 <= e.id < bound && forall x :: x in frames ==> x.id < e.id
    ensures Increasing(frames + [e], bound)
  {
  }

  lemma {:induction false} WithoutKeeps(frames: seq<Entry>, id: nat, bound: nat)
    requires Increasing(frames, bound)
    ensures Increasing(Without(frames, id), bound)
  {
    if frames != [] {
      var last := |frames| - 1;
      WithoutKeeps(frames[..last], id, bound);
      WithoutMembers(frames[..last], id);
      if frames[last].id != id {
        IncreasingPush(Without(frames[..last], id), frames[last], bound);
      }
    }
  }

  lemma DeleteKeepsInv(m: Manager, id: nat)
    requires Inv(m)
    ensures Inv(Deleted(m, id))
  {
    var rest := Without(m.frames, id);
    WithoutKeeps(m.frames, id, m.nextId);
    WithoutMembers(m.frames, id);
    if rest != [] {
      if m.activeId == id {
        assert rest[|rest| - 1] in rest;
      } else {
        var e := m.frames[WithId(m.frames, m.activeId)];
        assert e in rest;
      }
    } else if m.frames != [] {
      var e := m.frames[WithId(m.frames, m.activeId)];
      assert e !in rest;
      assert e.id == id;
    }
  }

  // In every run activeFrame finds the frame that was made active, and never falls back.
  lemma StepKeepsInv(m: Manager, o: Op)
    requires Inv(m)
    ensures Inv(Step(m, o))
  {
    match o
    case Create(position, size) =>
      var e := Entry(m.nextId, position, size);
      assert e in Step(m, o).frames;
    case Delete(id) => DeleteKeepsInv(m, id);
    case Drop(center) =>
    case BeginDrag(_) =>
    case UpdateDrag(mouse) =>
      var s := Step(m, o);
      assert forall i :: 0 <= i < |m.frames| ==> s.frames[i].id == m.frames[i].id;
    case EndDrag =>
  }

  function Run(m: Manager, ops: seq<Op>): Manager {
    if ops == [] then m else Step(Run(m, ops[..|ops| - 1]), ops[|ops| - 1])
  }

  lemma {:induction false} RunKeepsInv(m: Manager, ops: seq<Op>)
    requires Inv(m)
    ensures var r := Run(m, ops);
      Inv(r) && (r.frames != [] ==> r.frames[ActiveFrame(r).value].id == r.activeId)
  {
    if ops != [] {
      RunKeepsInv(m, ops[..|ops| - 1]);
      StepKeepsInv(Run(m, ops[..|ops| - 1]), ops[|ops| - 1]);
    }
  }

  // Deleting the active frame makes the newest of the others active.
  lemma DeleteActivatesNewest(m: Manager)
    requires Inv(m)
    ensures var r := Deleted(m, m.activeId);
      forall i :: 0 <= i < |r.frames| ==> r.frames[i].id <= r.activeId
  {
    WithoutKeeps(m.frames, m.activeId, m.nextId);
  }

  // A new frame is the last one, has an id of its own and becomes active.
  lemma CreateEffect(m: Manager, position: Vec, size: Vec)
    requires Inv(m)
    ensures var r := Step(m, Create(position, size));
      && |r.frames| == |m.frames| + 1 && r.frames[..|m.frames|] == m.frames
      && r.frames[|m.frames|].position == position && r.frames[|m.frames|].size == size
      && r.activeId == r.frames[|m.frames|].id && r.nextId == r.activeId + 1
      && forall i :: 0 <= i < |m.frames| ==> m.frames[i].id < r.activeId
  {
  }

  // Deleting takes the frame with the id out and no other; unless it was active the active one stays.
  lemma DeleteEffect(m: Manager, id: nat)
    requires Inv(m)
    ensures var r := Step(m, Delete(id));
      && (forall e :: e in r.frames <==> e in m.frames && e.id != id)
      && r.nextId == m.nextId && (id != m.activeId ==> r.activeId == m.activeId)
  {
    WithoutMembers(m.frames, id);
  }

  // A frame covers its edges, and nothing beyond them.
  lemma CoversIs(e: Entry, p: Vec)
    ensures !Covers(e, p) <==>
      || p.x < e.position.x || p.x > e.position.x + e.size.x
      || p.y < e.position.y || p.y > e.position.y + e.size.y
  {
  }

  // A window dropped on a frame makes the first such frame active.
  lemma DropEffect(m: Manager, center: Vec)
    ensures var r := Step(m, Drop(center));
      && r == m.(activeId := r.activeId)
      && (if forall i :: 0 <= i < |m.frames| ==> !Covers(m.frames[i], center) then r == m
          else FirstCovering(m.frames, center, r.activeId))
  {
    var i := FrameAt(m.frames, center);
  }

  ghost predicate FirstCovering(frames: seq<Entry>, center: Vec, id: nat) {
    exists i :: 0 <= i < |frames| && Covers(frames[i], center) && frames[i].id == id &&
      forall k :: 0 <= k < i ==> !Covers(frames[k], center)
  }

  // The active frame is the one with the active id, and the last one when there is none.
  lemma ActiveFrameIs(m: Manager)
    requires m.frames != []
    ensures var a := ActiveFrame(m);
      && a.Some? && a.value < |m.frames|
      && if forall i :: 0 <= i < |m.frames| ==> m.frames[i].id != m.activeId then a.value == |m.frames| - 1
         else m.frames[a.value].id == m.activeId
  {
  }

  // A drag starts from where the mouse and the active frame are, and ends with no frame in hand.
  lemma BeginEndDrag(m: Manager, mouse: Vec)
    requires Inv(m)
    ensures var r := Step(m, BeginDrag(mouse));
      && r.frames == m.frames && r.activeId == m.activeId
      && (m.frames == [] ==> r == m)
      && (m.frames != [] ==> r.dragging && r.draggedId == m.activeId && r.startMouse == mouse)
    ensures var e := Step(m, EndDrag);
      && !e.dragging && e.frames == m.frames && e.activeId == m.activeId
      && forall at :: Step(e, UpdateDrag(at)) == e
  {
  }

  function Moves(path: seq<Vec>): seq<Op> {
    if path == [] then [] else Moves(path[..|path| - 1]) + [UpdateDrag(path[|path| - 1])]
  }

  // A drag moves the active frame by the way from the first to the last position of the mouse,
  // whatever lies between, and moves no other frame.
  lemma {:induction false} DragMoves(m: Manager, start: Vec, path: seq<Vec>)
    requires Inv(m) && m.frames != [] && path != []
    ensures var r, a := Run(DragBegun(m, start), Moves(path)), WithId(m.frames, m.activeId);
      && r == DragBegun(m, start).(frames := r.frames) && |r.frames| == |m.frames|
      && r.frames[a] == m.frames[a].(position := m.frames[a].position.Plus(path[|path| - 1].Minus(start)))
      && forall i :: 0 <= i < |m.frames| && i != a ==> r.frames[i] == m.frames[i]
  {
    var last := |path| - 1;
    assert Moves(path)[..|Moves(path)| - 1] == Moves(path[..last]);
    var a := WithId(m.frames, m.activeId);
    if last == 0 {
      assert path[..0] == [];
    } else {
      DragMoves(m, start, path[..last]);
      var q := Run(DragBegun(m, start), Moves(path[..last]));
      assert forall i :: 0 <= i < |m.frames| ==> q.frames[i].id == m.frames[i].id;
    }
  }

  class FrameManager {
    var frames: seq<Entry>
    var nextId: nat
    var activeId: nat
    var dragging: bool
    var draggedId: nat
    var startMouse: Vec
    var startPos: Vec

    ghost function View(): Manager
      reads this
    {
      Manager(frames, nextId, activeId, dragging, draggedId, startMouse, startPos)
    }

    constructor ()
      ensures frames == [] && Inv(View())
    {
      frames, nextId, activeId := [], 1, 0;
      dragging, draggedId, startMouse, startPos := false, 0, ORIGIN, ORIGIN;
    }

    // center: the middle of the view; size: that of the monitor
    method CreateFrame(center: Vec, size: Vec)
      modifies this
      ensures View() == Step(old(View()), Create(center.Minus(size.Scale(0.5)), size))
    {
      var id := nextId;
      nextId := nextId + 1;
      frames := frames + [Entry(id, center.Minus(size.Scale(0.5)), size)];
      activeId := id;
    }

    method DeleteFrame(id: nat)
      modifies this
      ensures View() == Deleted(old(View()), id)
    {
      var kept: seq<Entry> := [];
      for i := 0 to |frames|
        invariant View() == old(View()) && kept == Without(frames[..i], id)
      {
        assert frames[..i + 1][..i] == frames[..i];
        if frames[i].id != id {
          kept := kept + [frames[i]];
        }
      }
      assert frames[..|frames|] == frames;
      frames := kept;
      if activeId == id {
        activeId := if frames == [] then 0 else frames[|frames| - 1].id;
      }
    }

    method FindActive() returns (found: Option<nat>)
      ensures found == ActiveFrame(View())
    {
      if frames == [] {
        return None;
      }
      for i := 0 to |frames|
        invariant forall k :: 0 <= k < i ==> frames[k].id != activeId
      {
        if frames[i].id == activeId {
          return Some(i);
        }
      }
      return Some(|frames| - 1);
    }

    method UpdateFrameDrag(mouse: Vec)
      modifies this
      ensures View() == DragUpdated(old(View()), mouse)
    {
      if !dragging {
        return;
      }
      for i := 0 to |frames|
        invariant View() == old(View()) && forall k :: 0 <= k < i ==> frames[k].id != draggedId
      {
        if frames[i].id == draggedId {
          frames := frames[i := frames[i].(position := startPos.Plus(mouse.Minus(startMouse)))];
          return;
        }
      }
    }
  }
}
