// The tree of popups of a window or layer: visiting it level by level, finding the popup under the
// pointer, and adding up coordinates (src/desktop/Popup.cpp).
module Popups {
  import opened Common

  datatype Node = Node(
    id: nat, hasResource: bool, mapped: bool, hasSurface: bool, geometry: Box,
    surfaceOffset: Vec, position: Vec, lastPos: Vec, lastSize: Vec, surfaceSize: Vec, input: seq<Box>)

  datatype Popup = Popup(node: Node, children: seq<Popup>)

  // A popup with its ancestors, itself first and the head last.
  type Path = seq<Node>

  // A place in the tree where there is still something to visit.
  datatype Spot = Spot(tree: Popup, above: Path)

  function PathOf(s: Spot): Path {
    [s.tree.node] + s.above
  }

  function Spots(trees: seq<Popup>, above: Path): (s: seq<Spot>)
    ensures |s| == |trees|
    ensures forall i :: 0 <= i < |trees| ==> s[i] == Spot(trees[i], above)
  {
    if trees == [] then [] else Spots(trees[..|trees| - 1], above) + [Spot(trees[|trees| - 1], above)]
  }

  // ---- the depth-first definition of what there is to visit ----

  function DepthFirst(t: Popup, above: Path): seq<Path>
    decreases t, 1
  {
    [[t.node] + above] + DepthFirstAll(t, [t.node] + above, |t.children|)
  }

  // The first n children of t.
  function DepthFirstAll(t: Popup, above: Path, n: nat): seq<Path>
    requires n <= |t.children|
    decreases t, 0, n
  {
    if n == 0 then [] else DepthFirstAll(t, above, n - 1) + DepthFirst(t.children[n - 1], above)
  }

  function DepthFirstSpots(spots: seq<Spot>): seq<Path> {
    if spots == [] then []
    else
      var last := |spots| - 1;
      DepthFirstSpots(spots[..last]) + DepthFirst(spots[last].tree, spots[last].above)
  }

  // ---- the visit level by level ----

  function Level(spots: seq<Spot>): (paths: seq<Path>)
    ensures |paths| == |spots|
    ensures forall i :: 0 <= i < |spots| ==> paths[i] == PathOf(spots[i])
  {
    if spots == [] then [] else Level(spots[..|spots| - 1]) + [PathOf(spots[|spots| - 1])]
  }

  function NextLevel(spots: seq<Spot>): seq<Spot> {
    if spots == [] then []
    else
      var last := |spots| - 1;
      NextLevel(spots[..last]) + Spots(spots[last].tree.children, PathOf(spots[last]))
  }

  // One level has all of itself and everything below the next one.
  lemma {:induction false} LevelSplits(spots: seq<Spot>)
    ensures multiset(DepthFirstSpots(spots)) == multiset(Level(spots)) + multiset(DepthFirstSpots(NextLevel(spots)))
    ensures |DepthFirstSpots(spots)| == |spots| + |DepthFirstSpots(NextLevel(spots))|
  {
    if spots != [] {
      var last := |spots| - 1;
      var s := spots[last];
      LevelSplits(spots[..last]);
      var kids := Spots(s.tree.children, PathOf(s));
      KidsBelow(s.tree, PathOf(s), |s.tree.children|);
      assert kids[..|s.tree.children|] == kids;
      DepthFirstConcat(NextLevel(spots[..last]), kids);
    }
  }

  lemma {:induction false} KidsBelow(t: Popup, above: Path, n: nat)
    requires n <= |t.children|
    ensures DepthFirstAll(t, above, n) == DepthFirstSpots(Spots(t.children, above)[..n])
  {
    if n > 0 {
      KidsBelow(t, above, n - 1);
      var kids := Spots(t.children, above);
      assert kids[..n][..n - 1] == kids[..n - 1];
    }
  }

  lemma {:induction false} DepthFirstConcat(a: seq<Spot>, b: seq<Spot>)
    ensures DepthFirstSpots(a + b) == DepthFirstSpots(a) + DepthFirstSpots(b)
  {
    if b == [] {
      assert a + b == a;
    } else {
      var last := |b| - 1;
      var more := DepthFirst(b[last].tree, b[last].above);
      assert (a + b)[..|a| + last] == a + b[..last] && (a + b)[|a| + last] == b[last];
      DepthFirstConcat(a, b[..last]);
      assert DepthFirstSpots(b) == DepthFirstSpots(b[..last]) + more;
      assert DepthFirstSpots(a + b) == DepthFirstSpots(a + b[..last]) + more;
    }
  }

  // bfHelper
  function BreadthFirst(spots: seq<Spot>): seq<Path>
    decreases |DepthFirstSpots(spots)|
  {
    if spots == [] then []
    else
      LevelSplits(spots);
      Level(spots) + BreadthFirst(NextLevel(spots))
  }

  // Every popup of the tree is visited, each as often as it is there.
  lemma {:induction false} VisitsEach(spots: seq<Spot>)
    ensures multiset(BreadthFirst(spots)) == multiset(DepthFirstSpots(spots))
    decreases |DepthFirstSpots(spots)|
  {
    if spots != [] {
      LevelSplits(spots);
      VisitsEach(NextLevel(spots));
    }
  }

  predicate AllAt(spots: seq<Spot>, depth: nat) {
    forall i :: 0 <= i < |spots| ==> |spots[i].above| == depth
  }

  predicate ByDepth(paths: seq<Path>) {
    forall i, j :: 0 <= i < j < |paths| ==> |paths[i]| <= |paths[j]|
  }

  lemma {:induction false} NextDeeper(spots: seq<Spot>, depth: nat)
    requires AllAt(spots, depth)
    ensures AllAt(NextLevel(spots), depth + 1)
  {
    if spots != [] {
      NextDeeper(spots[..|spots| - 1], depth);
    }
  }

  predicate AllDeeper(paths: seq<Path>, depth: nat) {
    forall i :: 0 <= i < |paths| ==> |paths[i]| > depth
  }

  lemma LevelThenDeeper(level: seq<Path>, rest: seq<Path>, depth: nat)
    requires forall i :: 0 <= i < |level| ==> |level[i]| == depth + 1
    requires ByDepth(rest) && AllDeeper(rest, depth + 1)
    ensures ByDepth(level + rest) && AllDeeper(level + rest, depth)
  {
  }

  // The visit never goes back up.
  lemma {:induction false} VisitsByDepth(spots: seq<Spot>, depth: nat)
    requires AllAt(spots, depth)
    ensures ByDepth(BreadthFirst(spots)) && AllDeeper(BreadthFirst(spots), depth)
    decreases |DepthFirstSpots(spots)|
  {
    if spots != [] {
      LevelSplits(spots);
      NextDeeper(spots, depth);
      VisitsByDepth(NextLevel(spots), depth + 1);
      LevelThenDeeper(Level(spots), BreadthFirst(NextLevel(spots)), depth);
    }
  }

  // ---- coordinates ----

  function Local(n: Node): Vec {
    n.surfaceOffset.Plus(n.position)
  }

  // The place of a popup in its top-level, by way of its parent.
  function InTopLevel(path: Path): Vec {
    if |path| <= 1 || !path[0].hasResource then ORIGIN else Local(path[0]).Plus(InTopLevel(path[1..]))
  }

  function Relative(path: Path): Vec
    requires path != []
  {
    if !path[0].hasResource then path[0].lastPos
    else InTopLevel(path).Minus(Vec(path[0].geometry.x, path[0].geometry.y))
  }

  // A popup lies in its parent as its own geometry says, window margins aside.
  lemma RelativeToParent(path: Path)
    requires |path| > 1 && path[0].hasResource && path[1].hasResource
    ensures var margin := (n: Node) => Vec(n.geometry.x, n.geometry.y);
      Relative(path).Plus(margin(path[0])) == Relative(path[1..]).Plus(margin(path[1])).Plus(Local(path[0]))
  {
  }

  // The top-level surface lies in itself at its own margin, and its popups where their own offset says.
  lemma RelativeToTop(n: Node, top: Node)
    requires n.hasResource
    ensures Relative([n]) == Vec(-n.geometry.x, -n.geometry.y)
    ensures Relative([n, top]) ==
      Vec(n.surfaceOffset.x + n.position.x - n.geometry.x, n.surfaceOffset.y + n.position.y - n.geometry.y)
  {
    assert InTopLevel([n]) == ORIGIN && InTopLevel([top]) == ORIGIN;
    assert [n, top][1..] == [top];
    assert InTopLevel([n, top]) == Local(n).Plus(InTopLevel([top]));
  }

  // coordsRelativeToParent: one walk up the tree with a running sum
  method CoordsRelativeToParent(path: Path) returns (offset: Vec)
    requires path != []
    ensures offset == Relative(path)
  {
    if !path[0].hasResource {
      return path[0].lastPos;
    }
    offset := ORIGIN.Minus(Vec(path[0].geometry.x, path[0].geometry.y));
    var i := 0;
    ghost var margin := offset;
    assert path[0..] == path;
    while i + 1 < |path| && path[i].hasResource
      invariant i < |path|
      invariant offset.Plus(InTopLevel(path[i..])) == margin.Plus(InTopLevel(path))
    {
      assert path[i..][1..] == path[i + 1..];
      offset := offset.Plus(path[i].surfaceOffset);
      offset := offset.Plus(path[i].position);
      i := i + 1;
    }
  }

  // ---- the popup under the pointer ----

  predicate Contains(b: Box, p: Vec) {
    b.x <= p.x < b.x + b.w && b.y <= p.y < b.y + b.h
  }

  function Moved(b: Box, v: Vec): Box {
    b.(x := b.x + v.x, y := b.y + v.y)
  }

  // owner: where the top-level surface is on the screen
  predicate Hit(path: Path, owner: Vec, p: Vec, allowsInput: bool)
    requires path != []
  {
    var n, coords := path[0], owner.Plus(Relative(path));
    n.hasResource && n.mapped &&
    if allowsInput then
      && Contains(Moved(Box(0.0, 0.0, n.surfaceSize.x, n.surfaceSize.y), coords), p)
      && exists i :: 0 <= i < |n.input| && Contains(Moved(n.input[i], coords), p)
    else
      var offset := if n.hasSurface then Vec(n.geometry.x, n.geometry.y) else ORIGIN;
      var size := if n.hasSurface then Vec(n.geometry.w, n.geometry.h) else n.lastSize;
      var extent := if size == ORIGIN then n.lastSize else size;
      Contains(Box(coords.x + offset.x, coords.y + offset.y, extent.x, extent.y), p)
  }

  // In the popup's own coordinates: a hit is a point of its surface and its input region, or, where
  // input does not count, of its window geometry.
  lemma HitIs(path: Path, owner: Vec, p: Vec)
    requires path != []
    ensures var n, x, y := path[0], p.x - owner.x - Relative(path).x, p.y - owner.y - Relative(path).y;
      && (Hit(path, owner, p, true) <==>
            && n.hasResource && n.mapped && 0.0 <= x < n.surfaceSize.x && 0.0 <= y < n.surfaceSize.y
            && exists i :: 0 <= i < |n.input| && Contains(n.input[i], Vec(x, y)))
      && (n.hasSurface && n.geometry.w > 0.0 ==>
            (Hit(path, owner, p, false) <==>
             n.hasResource && n.mapped
             && n.geometry.x <= x < n.geometry.x + n.geometry.w && n.geometry.y <= y < n.geometry.y + n.geometry.h))
      && (!n.hasSurface ==>
            (Hit(path, owner, p, false) <==>
             n.hasResource && n.mapped && 0.0 <= x < n.lastSize.x && 0.0 <= y < n.lastSize.y))
  {
    var coords := owner.Plus(Relative(path));
    forall i | 0 <= i < |path[0].input|
      ensures Contains(Moved(path[0].input[i], coords), p) <==> Contains(path[0].input[i], p.Minus(coords))
    {
    }
    assert p.Minus(coords) == Vec(p.x - owner.x - Relative(path).x, p.y - owner.y - Relative(path).y);
  }

  predicate AllPaths(paths: seq<Path>) {
    forall i :: 0 <= i < |paths| ==> paths[i] != []
  }

  method VisitLevel(spots: seq<Spot>) returns (visited: seq<Path>)
    ensures visited == Level(spots)
  {
    visited := [];
    for i := 0 to |spots|
      invariant visited == Level(spots[..i])
    {
      assert spots[..i + 1][..i] == spots[..i];
      visited := visited + [PathOf(spots[i])];
    }
    assert spots[..|spots|] == spots;
  }

  method GatherChildren(spots: seq<Spot>) returns (below: seq<Spot>)
    ensures below == NextLevel(spots)
  {
    below := [];
    for i := 0 to |spots|
      invariant below == NextLevel(spots[..i])
    {
      assert spots[..i + 1][..i] == spots[..i];
      var t := spots[i].tree;
      ghost var before, kids := below, Spots(t.children, PathOf(spots[i]));
      for j := 0 to |t.children|
        invariant below == before + kids[..j]
      {
        assert kids[..j + 1] == kids[..j] + [kids[j]];
        below := below + [Spot(t.children[j], PathOf(spots[i]))];
      }
      assert kids[..|t.children|] == kids;
    }
    assert spots[..|spots|] == spots;
  }

  method BfHelper(spots: seq<Spot>) returns (visited: seq<Path>)
    requires spots != []
    ensures visited == BreadthFirst(spots)
    decreases |DepthFirstSpots(spots)|
  {
    visited := VisitLevel(spots);
    var below := GatherChildren(spots);
    LevelSplits(spots);
    if below != [] {
      var rest := BfHelper(below);
      visited := visited + rest;
    } else {
      assert visited + [] == visited;
    }
  }

  method LastHit(popups: seq<Path>, owner: Vec, p: Vec, allowsInput: bool) returns (i: nat)
    requires AllPaths(popups)
    ensures i <= |popups|
    ensures i > 0 ==> Hit(popups[i - 1], owner, p, allowsInput)
    ensures forall j :: i <= j < |popups| ==> !Hit(popups[j], owner, p, allowsInput)
  {
    i := |popups|;
    while i > 0 && !Hit(popups[i - 1], owner, p, allowsInput)
      invariant i <= |popups|
      invariant forall j :: i <= j < |popups| ==> !Hit(popups[j], owner, p, allowsInput)
    {
      i := i - 1;
    }
  }

  predicate HitIn(t: Popup, above: Path, owner: Vec, p: Vec, allowsInput: bool, path: Path) {
    path in DepthFirst(t, above) && path != [] && Hit(path, owner, p, allowsInput)
  }

  // The popup found is hit, and no deeper popup of the tree is.
  method At(t: Popup, above: Path, owner: Vec, p: Vec, allowsInput: bool) returns (found: Option<Path>)
    ensures match found
      case Some(path) =>
        && HitIn(t, above, owner, p, allowsInput, path)
        && forall q :: HitIn(t, above, owner, p, allowsInput, q) ==> |q| <= |path|
      case None => forall q :: !HitIn(t, above, owner, p, allowsInput, q)
  {
    var popups := BfHelper([Spot(t, above)]);
    RootVisits(t, above);
    var i := LastHit(popups, owner, p, allowsInput);
    forall q | HitIn(t, above, owner, p, allowsInput, q)
      ensures i > 0 && |q| <= |popups[i - 1]|
    {
      assert q in popups;
      var j :| 0 <= j < |popups| && popups[j] == q;
      assert j < i;
    }
    if i == 0 {
      return None;
    }
    assert popups[i - 1] in popups;
    return Some(popups[i - 1]);
  }

  // The visit of a whole tree: all of it, in order of depth.
  lemma RootVisits(t: Popup, above: Path)
    ensures var visited := BreadthFirst([Spot(t, above)]);
      && multiset(visited) == multiset(DepthFirst(t, above))
      && (forall q :: q in visited <==> q in DepthFirst(t, above))
      && ByDepth(visited) && AllPaths(visited)
  {
    var root := [Spot(t, above)];
    var visited := BreadthFirst(root);
    VisitsEach(root);
    VisitsByDepth(root, |above|);
    assert AllDeeper(visited, |above|);
    assert root[..0] == [];
    assert DepthFirstSpots(root) == DepthFirst(t, above);
    forall q
      ensures q in visited <==> q in DepthFirst(t, above)
    {
      assert q in visited <==> q in multiset(visited);
    }
  }
}
