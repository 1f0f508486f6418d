// Raising and lowering windows in the stack (src/Compositor.cpp).
module Stacking {
  import opened Common
  import opened Ids
  import opened Lists

  datatype XWin = XWin(mapped: bool, hidden: bool, x11: bool, transientFor: Option<WinId>, createdOver: bool)

  // w is an eligible transient of p, so it is moved together with p.
  predicate Pulls(info: map<WinId, XWin>, p: WinId, w: WinId) {
    w in info && info[w].mapped && !info[w].hidden && info[w].x11 && info[w].transientFor == Some(p) && w != p
  }

  ghost function Unvisited(list: seq<WinId>, acc: seq<WinId>): set<WinId> {
    set w | w in list && w !in acc
  }

  lemma UnvisitedShrinks(list: seq<WinId>, a: seq<WinId>, b: seq<WinId>)
    requires a <= b
    ensures Unvisited(list, b) <= Unvisited(list, a)
  {
  }

  // The recursive closure: p, then each window of the list that p pulls in and that was not
  // visited, with its own closure.
  ghost function Collect(list: seq<WinId>, info: map<WinId, XWin>, acc: seq<WinId>, p: WinId): (r: seq<WinId>)
    requires p in list && p !in acc
    ensures acc + [p] <= r
    decreases Unvisited(list, acc), 0
  {
    assert p in Unvisited(list, acc) && p !in Unvisited(list, acc + [p]);
    assert Unvisited(list, acc + [p]) <= Unvisited(list, acc);
    CollectFrom(list, info, acc + [p], p, 0)
  }

  ghost function CollectFrom(list: seq<WinId>, info: map<WinId, XWin>, acc: seq<WinId>, p: WinId, i: nat): (r: seq<WinId>)
    requires i <= |list|
    ensures acc <= r
    decreases Unvisited(list, acc), |list| - i + 1
  {
    if i == |list| then acc
    else if Pulls(info, p, list[i]) && list[i] !in acc then
      var acc1 := Collect(list, info, acc, list[i]);
      UnvisitedShrinks(list, acc, acc1);
      CollectFrom(list, info, acc1, p, i + 1)
    else CollectFrom(list, info, acc, p, i + 1)
  }

  // ---- The closure is what the transient links reach

  // Member k comes after the one that pulled it in, which is not among the first `from`.
  ghost predicate PulledBefore(info: map<WinId, XWin>, r: seq<WinId>, from: nat, k: nat)
    requires k < |r|
  {
    exists j :: from <= j < k && Pulls(info, r[j], r[k])
  }

  ghost predicate PulledIn(info: map<WinId, XWin>, r: seq<WinId>, from: nat) {
    forall k :: from < k < |r| ==> PulledBefore(info, r, from, k)
  }

  // Everything that the members after the first `from` ones pull in is a member.
  ghost predicate Closed(list: seq<WinId>, info: map<WinId, XWin>, r: seq<WinId>, from: nat, to: nat) {
    forall j, w :: from <= j < to <= |r| && w in list && Pulls(info, r[j], w) ==> w in r
  }

  lemma {:induction false} CollectSpec(list: seq<WinId>, info: map<WinId, XWin>, acc: seq<WinId>, p: WinId)
    requires p in list && p !in acc && Distinct(acc) && forall w :: w in acc ==> w in list
    ensures var r := Collect(list, info, acc, p);
      && Distinct(r) && (forall w :: w in r ==> w in list)
      && PulledIn(info, r, |acc|) && Closed(list, info, r, |acc|, |r|)
    decreases Unvisited(list, acc), 0
  {
    assert p in Unvisited(list, acc) && p !in Unvisited(list, acc + [p]);
    assert Unvisited(list, acc + [p]) <= Unvisited(list, acc);
    CollectFromSpec(list, info, acc, acc + [p], p, 0);
  }

  lemma PulledInExtends(info: map<WinId, XWin>, base: nat, acc: seq<WinId>, r: seq<WinId>)
    requires base < |acc| && acc <= r && PulledIn(info, acc, base) && PulledIn(info, r, |acc|)
    requires |acc| < |r| ==> Pulls(info, r[base], r[|acc|])
    ensures PulledIn(info, r, base)
  {
    forall k | base < k < |r|
      ensures PulledBefore(info, r, base, k)
    {
      if k < |acc| {
        assert PulledBefore(info, acc, base, k);
        var j :| base <= j < k && Pulls(info, acc[j], acc[k]);
        assert Pulls(info, r[j], r[k]);
      } else if k > |acc| {
        assert PulledBefore(info, r, |acc|, k);
      } else {
        assert Pulls(info, r[base], r[k]);
      }
    }
  }

  // `base` is what was collected before p; acc is base, p and part of p's closure.
  lemma {:induction false} CollectFromSpec(list: seq<WinId>, info: map<WinId, XWin>,
                                           base: seq<WinId>, acc: seq<WinId>, p: WinId, i: nat)
    requires i <= |list| && base + [p] <= acc && Distinct(acc) && forall w :: w in acc ==> w in list
    requires PulledIn(info, acc, |base|) && Closed(list, info, acc, |base| + 1, |acc|)
    requires forall k :: 0 <= k < i && Pulls(info, p, list[k]) ==> list[k] in acc
    ensures var r := CollectFrom(list, info, acc, p, i);
      && Distinct(r) && (forall w :: w in r ==> w in list)
      && PulledIn(info, r, |base|) && Closed(list, info, r, |base|, |r|)
    decreases Unvisited(list, acc), |list| - i + 1
  {
    assert acc[|base|] == p;
    if i == |list| {
      forall j, w | |base| <= j < |acc| && w in list && Pulls(info, acc[j], w)
        ensures w in acc
      {
        var k :| 0 <= k < |list| && list[k] == w;
        assert j == |base| ==> Pulls(info, p, list[k]);
      }
    } else if Pulls(info, p, list[i]) && list[i] !in acc {
      var acc1 := Collect(list, info, acc, list[i]);
      CollectSpec(list, info, acc, list[i]);
      UnvisitedShrinks(list, acc, acc1);
      assert acc1[|acc|] == list[i];
      PulledInExtends(info, |base|, acc, acc1);
      CollectFromSpec(list, info, base, acc1, p, i + 1);
    } else {
      CollectFromSpec(list, info, base, acc, p, i + 1);
    }
  }

  // A way from the root to a window along transient links.
  ghost predicate Chain(list: seq<WinId>, info: map<WinId, XWin>, path: seq<WinId>) {
    && path != []
    && (forall i :: 0 <= i < |path| ==> path[i] in list)
    && (forall i :: 0 < i < |path| ==> Pulls(info, path[i - 1], path[i]))
  }

  ghost predicate Reaches(list: seq<WinId>, info: map<WinId, XWin>, root: WinId, w: WinId) {
    exists path :: Chain(list, info, path) && path[0] == root && path[|path| - 1] == w
  }

  ghost function Block(list: seq<WinId>, info: map<WinId, XWin>, root: WinId): seq<WinId>
    requires root in list
  {
    Collect(list, info, [], root)
  }

  lemma {:induction false} MemberReached(list: seq<WinId>, info: map<WinId, XWin>, root: WinId, r: seq<WinId>, k: nat)
    requires k < |r| && r[0] == root && PulledIn(info, r, 0) && forall w :: w in r ==> w in list
    ensures Reaches(list, info, root, r[k])
    decreases k
  {
    if k == 0 {
      assert Chain(list, info, [root]) && [root][0] == root;
    } else {
      assert PulledBefore(info, r, 0, k);
      var j :| 0 <= j < k && Pulls(info, r[j], r[k]);
      MemberReached(list, info, root, r, j);
      var path :| Chain(list, info, path) && path[0] == root && path[|path| - 1] == r[j];
      var longer := path + [r[k]];
      assert forall i :: 0 < i < |longer| ==> Pulls(info, longer[i - 1], longer[i]);
      assert Chain(list, info, longer) && longer[0] == root && longer[|longer| - 1] == r[k];
    }
  }

  lemma {:induction false} ReachedIsMember(list: seq<WinId>, info: map<WinId, XWin>, r: seq<WinId>, path: seq<WinId>, n: nat)
    requires Chain(list, info, path) && path[0] in r && n < |path| && Closed(list, info, r, 0, |r|)
    ensures path[n] in r
  {
    if n > 0 {
      ReachedIsMember(list, info, r, path, n - 1);
      var j :| 0 <= j < |r| && r[j] == path[n - 1];
      assert Pulls(info, r[j], path[n]);
    }
  }

  // The block of a window is exactly what its transient links reach, each window once, and
  // each member after the one that pulled it in; cycles of links do no harm.
  lemma BlockIsClosure(list: seq<WinId>, info: map<WinId, XWin>, root: WinId)
    requires root in list
    ensures var r := Block(list, info, root);
      && r != [] && r[0] == root && Distinct(r)
      && (forall w :: w in r <==> Reaches(list, info, root, w))
      && PulledIn(info, r, 0)
  {
    var r := Block(list, info, root);
    CollectSpec(list, info, [], root);
    assert r[0] == ([] + [root])[0];
    forall w | w in r
      ensures Reaches(list, info, root, w)
    {
      var k :| 0 <= k < |r| && r[k] == w;
      MemberReached(list, info, root, r, k);
    }
    forall w | Reaches(list, info, root, w)
      ensures w in r
    {
      var path :| Chain(list, info, path) && path[0] == root && path[|path| - 1] == w;
      ReachedIsMember(list, info, r, path, |path| - 1);
    }
  }

  // ---- Rotations

  // One window to the end, or to the front.
  ghost function ToTop(list: seq<WinId>, w: WinId): seq<WinId>
    requires w in list
  {
    Others(list, [w]) + [w]
  }

  ghost function ToBottom(list: seq<WinId>, w: WinId): seq<WinId>
    requires w in list
  {
    [w] + Others(list, [w])
  }

  // CCompositor::changeWindowZOrder as one rearrangement.
  ghost function Restacked(list: seq<WinId>, info: map<WinId, XWin>, w: WinId, top: bool): seq<WinId>
    requires w in list && w in info
  {
    if !info[w].mapped || w == (if top then list[|list| - 1] else list[0]) then list
    else
      var block := if info[w].x11 then Block(list, info, w) else [w];
      if top then Others(list, block) + block else block + Others(list, block)
  }

  // Changing the z-order permutes the stack.
  lemma RestackedPermutes(list: seq<WinId>, info: map<WinId, XWin>, w: WinId, top: bool)
    requires w in list && w in info && Distinct(list)
    ensures multiset(Restacked(list, info, w, top)) == multiset(list)
  {
    var block := if info[w].x11 then Block(list, info, w) else [w];
    CollectSpec(list, info, [], w);
    OthersMultiset(list, block);
  }

  // What moves together with w: the windows that its transient links reach.
  ghost predicate MovesWith(list: seq<WinId>, info: map<WinId, XWin>, w: WinId, v: WinId)
    requires w in info
  {
    if info[w].x11 then Reaches(list, info, w, v) else v == w
  }

  // On top the moved windows come after all others, at the bottom before them.
  ghost predicate AtEnd(list: seq<WinId>, info: map<WinId, XWin>, w: WinId, top: bool, r: seq<WinId>)
    requires w in info
  {
    forall i, j :: 0 <= i < j < |r| && MovesWith(list, info, w, r[i]) != MovesWith(list, info, w, r[j]) ==>
      if top then MovesWith(list, info, w, r[j]) else MovesWith(list, info, w, r[i])
  }

  // The others keep their order.
  ghost predicate OthersStay(list: seq<WinId>, info: map<WinId, XWin>, w: WinId, r: seq<WinId>)
    requires w in info
  {
    forall i, j :: 0 <= i < j < |r| && !MovesWith(list, info, w, r[i]) && !MovesWith(list, info, w, r[j]) ==>
      Ahead(list, r[i], r[j])
  }

  // The window comes first among those that move, and each of the rest behind one that pulls it.
  ghost predicate HeadsBlock(list: seq<WinId>, info: map<WinId, XWin>, w: WinId, r: seq<WinId>)
    requires w in info
  {
    forall k :: 0 <= k < |r| && MovesWith(list, info, w, r[k]) && r[k] != w ==>
      && Ahead(r, w, r[k])
      && exists j :: 0 <= j < k && MovesWith(list, info, w, r[j]) && Pulls(info, r[j], r[k])
  }

  // Changing the z-order of a mapped window that is not where it is to go.
  ghost predicate Shifted(list: seq<WinId>, info: map<WinId, XWin>, w: WinId, top: bool, r: seq<WinId>)
    requires w in info
  {
    && multiset(r) == multiset(list)
    && AtEnd(list, info, w, top, r) && OthersStay(list, info, w, r) && HeadsBlock(list, info, w, r)
    && (!info[w].x11 ==> r != [] && w == if top then r[|r| - 1] else r[0])
  }

  ghost predicate AlreadyThere(list: seq<WinId>, info: map<WinId, XWin>, w: WinId, top: bool)
    requires w in list && w in info
  {
    !info[w].mapped || w == if top then list[|list| - 1] else list[0]
  }

  lemma BlockMoves(list: seq<WinId>, info: map<WinId, XWin>, w: WinId) returns (block: seq<WinId>)
    requires w in list && w in info
    ensures block == if info[w].x11 then Block(list, info, w) else [w]
    ensures block != [] && block[0] == w && Distinct(block) && PulledIn(info, block, 0)
    ensures forall v :: v in block <==> MovesWith(list, info, w, v)
  {
    block := if info[w].x11 then Block(list, info, w) else [w];
    if info[w].x11 {
      BlockIsClosure(list, info, w);
    }
  }

  // The block in front of the others, or behind them.
  function Arranged(others: seq<WinId>, block: seq<WinId>, top: bool): seq<WinId> {
    if top then others + block else block + others
  }

  // The place at which member k of the block ends up.
  function PlaceOf(others: seq<WinId>, k: nat, top: bool): nat {
    if top then |others| + k else k
  }

  lemma ArrangedHeads(list: seq<WinId>, info: map<WinId, XWin>, w: WinId, others: seq<WinId>, block: seq<WinId>, top: bool)
    requires w in info && block != [] && block[0] == w && PulledIn(info, block, 0)
    requires forall v :: v in block <==> MovesWith(list, info, w, v)
    requires forall v :: v in others ==> v !in block
    ensures HeadsBlock(list, info, w, Arranged(others, block, top))
  {
    var r := Arranged(others, block, top);
    forall k | 0 <= k < |r| && MovesWith(list, info, w, r[k]) && r[k] != w
      ensures Ahead(r, w, r[k])
      ensures exists j :: 0 <= j < k && MovesWith(list, info, w, r[j]) && Pulls(info, r[j], r[k])
    {
      assert r[k] in block;
      var i := if top then k - |others| else k;
      assert r[k] == block[i];
      assert r[PlaceOf(others, 0, top)] == w;
      assert PulledBefore(info, block, 0, i);
      var h :| 0 <= h < i && Pulls(info, block[h], block[i]);
      var j := PlaceOf(others, h, top);
      assert r[j] == block[h] && block[h] in block;
    }
  }

  lemma ArrangedStays(list: seq<WinId>, info: map<WinId, XWin>, w: WinId, others: seq<WinId>, block: seq<WinId>, top: bool)
    requires w in info && InOrderOf(others, list)
    requires forall v :: v in block <==> MovesWith(list, info, w, v)
    requires forall v :: v in others ==> v !in block
    ensures AtEnd(list, info, w, top, Arranged(others, block, top))
    ensures OthersStay(list, info, w, Arranged(others, block, top))
  {
    var r := Arranged(others, block, top);
    forall i | 0 <= i < |r|
      ensures MovesWith(list, info, w, r[i]) <==> if top then i >= |others| else i < |block|
    {
      if top {
        assert r[i] == if i < |others| then others[i] else block[i - |others|];
      } else {
        assert r[i] == if i < |block| then block[i] else others[i - |block|];
      }
    }
    forall i, j | 0 <= i < j < |r| && !MovesWith(list, info, w, r[i]) && !MovesWith(list, info, w, r[j])
      ensures Ahead(list, r[i], r[j])
    {
      var shift := if top then 0 else |block|;
      assert r[i] == others[i - shift] && r[j] == others[j - shift];
    }
  }

  // Raised windows come out on top of all others, in the order in which they are pulled in, lowered
  // ones below all others, and nothing else moves.
  lemma RestackedShifts(list: seq<WinId>, info: map<WinId, XWin>, w: WinId, top: bool)
    requires w in list && w in info && Distinct(list)
    ensures var r := Restacked(list, info, w, top);
      if AlreadyThere(list, info, w, top) then r == list else Shifted(list, info, w, top, r)
  {
    if !AlreadyThere(list, info, w, top) {
      var block := BlockMoves(list, info, w);
      var others := Others(list, block);
      OthersMembers(list, block);
      OthersInOrder(list, block);
      RestackedPermutes(list, info, w, top);
      ArrangedHeads(list, info, w, others, block, top);
      ArrangedStays(list, info, w, others, block, top);
    }
  }

  // The stack once the given windows were moved, one after the other.
  ghost function Moved(list: seq<WinId>, moved: seq<WinId>, top: bool): seq<WinId> {
    if top then Others(list, moved) + moved else Reverse(moved) + Others(list, moved)
  }

  // Moving one more window to the top, or to the bottom.
  lemma NextToTop(list: seq<WinId>, moved: seq<WinId>, w: WinId)
    requires w in list && w !in moved
    ensures w in Moved(list, moved, true)
    ensures ToTop(Moved(list, moved, true), w) == Moved(list, moved + [w], true)
  {
    OthersMembers(list, moved);
    OthersConcat(Others(list, moved), moved, [w]);
    OthersTwice(list, moved, [w]);
    OthersKeepsAll(moved, [w]);
  }

  lemma NextToBottom(list: seq<WinId>, moved: seq<WinId>, w: WinId)
    requires w in list && w !in moved
    ensures w in Moved(list, moved, false)
    ensures ToBottom(Moved(list, moved, false), w) == Moved(list, moved + [w], false)
  {
    var back, more := Reverse(moved), Others(list, moved + [w]);
    OthersMembers(list, moved);
    OthersBehind(list, moved, w);
    ReversePush(moved, w);
    assert [w] + (back + more) == ([w] + back) + more;
  }

  lemma OthersBehind(list: seq<WinId>, moved: seq<WinId>, w: WinId)
    requires w !in moved
    ensures Others(Reverse(moved) + Others(list, moved), [w]) == Reverse(moved) + Others(list, moved + [w])
  {
    ReverseKeeps(moved);
    OthersConcat(Reverse(moved), Others(list, moved), [w]);
    OthersKeepsAll(Reverse(moved), [w]);
    OthersTwice(list, moved, [w]);
  }

  lemma NextMoved(list: seq<WinId>, moved: seq<WinId>, w: WinId, top: bool)
    requires w in list && w !in moved
    ensures w in Moved(list, moved, top)
    ensures (if top then ToTop(Moved(list, moved, top), w) else ToBottom(Moved(list, moved, top), w))
         == Moved(list, moved + [w], top)
  {
    if top {
      NextToTop(list, moved, w);
    } else {
      NextToBottom(list, moved, w);
    }
  }

  lemma OthersDistinct(list: seq<WinId>, w: WinId)
    requires Distinct(list) && w in list
    ensures Distinct(ToTop(list, w)) && Distinct(ToBottom(list, w))
    ensures forall v :: v in list <==> v in ToTop(list, w)
    ensures forall v :: v in list <==> v in ToBottom(list, w)
  {
    var i :| 0 <= i < |list| && list[i] == w;
    CutIsOthers(list, i);
    assert ToTop(list, w) == list[..i] + list[i + 1..] + [w];
    assert ToBottom(list, w) == [w] + (list[..i] + list[i + 1..]);
  }

  class Stack {
    var windows: seq<WinId>
    var info: map<WinId, XWin>
    var toMove: seq<WinId>

    ghost predicate Valid()
      reads this
    {
      Distinct(windows) && forall v :: v in windows ==> v in info
    }

    // The closure collected so far, in the order of the visits.
    ghost function Visited(top: bool): seq<WinId>
      reads this
    {
      if top then toMove else Reverse(toMove)
    }

    // The rotation in moveToZ.
    method MoveToZ(w: WinId, top: bool)
      requires Distinct(windows) && w in windows
      modifies this`windows
      ensures windows == if top then ToTop(old(windows), w) else ToBottom(old(windows), w)
    {
      if top {
        var i := 0;
        while windows[i] != w
          invariant 0 <= i < |windows| && w !in windows[..i]
          decreases |windows| - i
        {
          i := i + 1;
        }
        CutIsOthers(windows, i);
        windows := windows[..i] + windows[i + 1..] + [w];
      } else {
        var i := |windows| - 1;
        while windows[i] != w
          invariant 0 <= i < |windows| && w !in windows[i + 1..]
          decreases i
        {
          assert windows == windows[..i] + [windows[i]] + windows[i + 1..];
          i := i - 1;
        }
        CutIsOthers(windows, i);
        windows := [w] + (windows[..i] + windows[i + 1..]);
      }
    }

    // The recursive lambda x11Stack.
    method X11Stack(p: WinId, top: bool)
      requires Valid() && p in windows && p !in Visited(top)
      modifies this`toMove
      ensures Visited(top) == Collect(windows, info, old(Visited(top)), p)
      decreases Unvisited(windows, Visited(top)), 0
    {
      ghost var acc := Visited(top);
      ReversePush(toMove, p);
      assert p in Unvisited(windows, acc) && p !in Unvisited(windows, acc + [p]);
      assert Unvisited(windows, acc + [p]) <= Unvisited(windows, acc);
      if top {
        toMove := toMove + [p];
      } else {
        toMove := [p] + toMove;
      }
      var i := 0;
      while i < |windows|
        invariant 0 <= i <= |windows|
        invariant acc + [p] <= Visited(top)
        invariant CollectFrom(windows, info, Visited(top), p, i) == Collect(windows, info, acc, p)
      {
        var w := windows[i];
        ReverseMembers(toMove, w);
        if info[w].mapped && !info[w].hidden && info[w].x11 && info[w].transientFor == Some(p) && w != p && w !in toMove {
          UnvisitedShrinks(windows, acc + [p], Visited(top));
          X11Stack(w, top);
        }
        i := i + 1;
      }
    }

    // CCompositor::changeWindowZOrder
    method ChangeWindowZOrder(w: WinId, top: bool)
      requires Valid() && w in windows
      modifies this
      ensures Valid()
      ensures info == if top && old(info)[w].mapped then old(info)[w := old(info)[w].(createdOver := true)] else old(info)
      ensures windows == Restacked(old(windows), info, w, top)
      ensures if AlreadyThere(old(windows), info, w, top) then windows == old(windows)
              else Shifted(old(windows), info, w, top, windows)
    {
      ghost var list := windows;
      if !info[w].mapped {
        return;
      }
      if top {
        info := info[w := info[w].(createdOver := true)];
      }
      if w == if top then windows[|windows| - 1] else windows[0] {
        return;
      }
      if !info[w].x11 {
        OthersDistinct(windows, w);
        MoveToZ(w, top);
      } else {
        MoveBlock(w, top);
      }
      RestackedShifts(list, info, w, top);
    }

    // The branch for X11 windows.
    method MoveBlock(w: WinId, top: bool)
      requires Valid() && w in windows && info[w].x11
      modifies this`windows, this`toMove
      ensures Valid()
      ensures var block := Block(old(windows), info, w);
        windows == if top then Others(old(windows), block) + block else block + Others(old(windows), block)
    {
      toMove := [];
      assert Visited(top) == [];
      X11Stack(w, top);
      CollectSpec(windows, info, [], w);
      ReverseKeeps(toMove);
      SameOthers(windows, toMove, Reverse(toMove));
      MoveAll(top);
    }

    method MoveAll(top: bool)
      requires Valid() && Distinct(toMove) && forall v :: v in toMove ==> v in windows
      modifies this`windows
      ensures Valid()
      ensures windows == Moved(old(windows), toMove, top)
    {
      ghost var list := windows;
      var moving := toMove;
      OthersKeepsAll(list, []);
      assert moving[..0] == [];
      for i := 0 to |moving|
        invariant Halfway(list, moving, i, top)
      {
        MoveNext(list, moving, i, top);
      }
      assert moving[..|moving|] == moving;
    }

    ghost predicate Halfway(list: seq<WinId>, moving: seq<WinId>, i: nat, top: bool)
      reads this
    {
      i <= |moving| && Rearranged(windows, list) && windows == Moved(list, moving[..i], top)
    }

    method MoveNext(ghost list: seq<WinId>, moving: seq<WinId>, i: nat, top: bool)
      requires i < |moving| && moving[i] in list && Distinct(moving) && Halfway(list, moving, i, top)
      modifies this`windows
      ensures Halfway(list, moving, i + 1, top)
    {
      var w := moving[i];
      MoveOne(list, moving[..i], w, top);
      MoveToZ(w, top);
      TakeOneMore(moving, i);
    }
  }

  ghost predicate Rearranged(a: seq<WinId>, b: seq<WinId>) {
    Distinct(a) && forall v :: v in b <==> v in a
  }

  lemma MoveOne(list: seq<WinId>, moved: seq<WinId>, w: WinId, top: bool)
    requires w in list && w !in moved && Rearranged(Moved(list, moved, top), list)
    ensures var now := Moved(list, moved, top);
      && w in now
      && (if top then ToTop(now, w) else ToBottom(now, w)) == Moved(list, moved + [w], top)
      && Rearranged(Moved(list, moved + [w], top), list)
  {
    NextMoved(list, moved, w, top);
    OthersDistinct(Moved(list, moved, top), w);
  }
}
