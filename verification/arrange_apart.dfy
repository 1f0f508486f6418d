// Which monitors an automatically placed one overlaps (src/Compositor.cpp).
module ArrangeApart {
  import opened Arrange
  import opened Common
  import opened Lists

  predicate Sized(p: Placed) {
    p.size.x >= 0.0 && p.size.y >= 0.0
  }

  function OverlapX(p: Placed, q: Placed): real {
    Min(p.pos.x + p.size.x, q.pos.x + q.size.x) - Max(p.pos.x, q.pos.x)
  }

  function OverlapY(p: Placed, q: Placed): real {
    Min(p.pos.y + p.size.y, q.pos.y + q.size.y) - Max(p.pos.y, q.pos.y)
  }

  // On one axis the two share less than a pixel.
  predicate Apart(p: Placed, q: Placed) {
    OverlapX(p, q) < 1.0 || OverlapY(p, q) < 1.0
  }

  // On one axis the two share nothing.
  predicate Disjoint(p: Placed, q: Placed) {
    OverlapX(p, q) <= 0.0 || OverlapY(p, q) <= 0.0
  }

  // ---- the four sides, each seen from the inside out

  datatype Side = ToTop | ToBottom | ToLeft | ToRight

  function SideOf(dir: AutoDir): Side {
    match dir
    case AutoUp => ToTop
    case AutoDown => ToBottom
    case AutoLeft => ToLeft
    case AutoRight => ToRight
    case AutoNone => ToRight
    case CenterUp => ToTop
    case CenterDown => ToBottom
    case CenterLeft => ToLeft
    case CenterRight => ToRight
  }

  // How far out a monitor reaches.
  function Edge(side: Side, p: Placed): real {
    match side
    case ToTop => -p.pos.y
    case ToBottom => p.pos.y + p.size.y
    case ToLeft => -p.pos.x
    case ToRight => p.pos.x + p.size.x
  }

  function Bound(side: Side, b: Bounds): int {
    match side
    case ToTop => -b.up
    case ToBottom => b.down
    case ToLeft => -b.left
    case ToRight => b.right
  }

  function Depth(side: Side, size: Vec): real {
    if side.ToTop? || side.ToBottom? then size.y else size.x
  }

  // What two monitors share across the direction of the side.
  function Beside(side: Side, p: Placed, q: Placed): real {
    if side.ToTop? || side.ToBottom? then OverlapX(p, q) else OverlapY(p, q)
  }

  // ---- the bounds

  lemma TruncMax(r: real, bound: int)
    requires bound >= 0
    ensures Trunc(Max(r, bound as real)) == if r.Floor > bound then r.Floor else bound
  {
  }

  lemma TruncMin(r: real, bound: int)
    requires bound <= 0
    ensures Trunc(Min(r, bound as real)) == if (-r).Floor > -bound then -(-r).Floor else bound
  {
  }

  predicate Signed(b: Bounds) {
    b.right >= 0 && b.down >= 0 && b.left <= 0 && b.up <= 0
  }

  // A monitor moves each bound out to its last whole pixel.
  lemma WidenIs(b: Bounds, p: Placed, side: Side)
    requires Signed(b)
    ensures Signed(Widen(b, p))
    ensures var e := Edge(side, p).Floor;
      Bound(side, Widen(b, p)) == if e > Bound(side, b) then e else Bound(side, b)
  {
    TruncMax(p.pos.x + p.size.x, b.right);
    TruncMin(p.pos.x, b.left);
    TruncMax(p.pos.y + p.size.y, b.down);
    TruncMin(p.pos.y, b.up);
  }

  // The bounds go as far as the last whole pixel of any monitor, and at least to zero.
  lemma {:induction false} ExtentIs(arranged: seq<Placed>, side: Side)
    ensures Signed(Extent(arranged))
    ensures forall i :: 0 <= i < |arranged| ==> Edge(side, arranged[i]).Floor <= Bound(side, Extent(arranged))
    ensures Bound(side, Extent(arranged)) == 0
         || exists i :: 0 <= i < |arranged| && Edge(side, arranged[i]).Floor == Bound(side, Extent(arranged))
  {
    if arranged != [] {
      var last := |arranged| - 1;
      var before := arranged[..last];
      ExtentIs(before, side);
      WidenIs(Extent(before), arranged[last], side);
      assert forall i :: 0 <= i < last ==> before[i] == arranged[i];
      if Bound(side, Extent(arranged)) == Bound(side, Extent(before)) != 0 {
        var i :| 0 <= i < |before| && Edge(side, before[i]).Floor == Bound(side, Extent(before));
        assert Edge(side, arranged[i]).Floor == Bound(side, Extent(arranged));
      } else if Bound(side, Extent(arranged)) != 0 {
        assert Edge(side, arranged[last]).Floor == Bound(side, Extent(arranged));
      }
    }
  }

  // A monitor that ends within a pixel, farther out than the whole pixels of all others.
  predicate SticksOut(arranged: seq<Placed>, side: Side, p: Placed) {
    var e := Edge(side, p);
    e > 0.0 && !Whole(e) && forall j :: 0 <= j < |arranged| ==> Edge(side, arranged[j]).Floor <= e.Floor
  }

  lemma BeyondBound(arranged: seq<Placed>, side: Side, p: Placed)
    requires p in arranged
    ensures Edge(side, p) < Bound(side, Extent(arranged)) as real + 1.0
    ensures Edge(side, p) > Bound(side, Extent(arranged)) as real <==> SticksOut(arranged, side, p)
  {
    ExtentIs(arranged, side);
    var b, e := Bound(side, Extent(arranged)), Edge(side, p);
    var i :| 0 <= i < |arranged| && arranged[i] == p;
    assert e.Floor <= b;
    if SticksOut(arranged, side, p) && b != 0 {
      var k :| 0 <= k < |arranged| && Edge(side, arranged[k]).Floor == b;
      assert b <= e.Floor;
    }
  }

  // ---- one automatic monitor

  function Auto(arranged: seq<Placed>, dir: AutoDir, size: Vec): Placed {
    Placed(AutoPosition(Extent(arranged), dir, size), size)
  }

  // What a monitor shares with the automatic one along the direction of the side.
  function Along(side: Side, p: Placed, bound: real, depth: real): real {
    Min(Edge(side, p), bound + depth) - Max(Edge(side, p) - Depth(side, p.size), bound)
  }

  lemma AutoAlong(b: Bounds, dir: AutoDir, size: Vec, p: Placed)
    ensures var q, side := Placed(AutoPosition(b, dir, size), size), SideOf(dir);
      var along := Along(side, p, Bound(side, b) as real, Depth(side, size));
      && (Disjoint(p, q) <==> along <= 0.0 || Beside(side, p, q) <= 0.0)
      && (Apart(p, q) <==> along < 1.0 || Beside(side, p, q) < 1.0)
  {
  }

  // The new monitor starts at the bound; another one is in its way if it reaches beyond the bound
  // and starts before the new one ends.
  predicate InTheWay(arranged: seq<Placed>, dir: AutoDir, size: Vec, p: Placed) {
    var side := SideOf(dir);
    && SticksOut(arranged, side, p)
    && Depth(side, size) > 0.0 && Depth(side, p.size) > 0.0
    && Edge(side, p) - Depth(side, p.size) < Bound(side, Extent(arranged)) as real + Depth(side, size)
  }

  // An automatic monitor overlaps a monitor arranged before it exactly when that one sticks out on
  // the side of the rule and the two meet across it; they share less than a pixel even then.
  lemma AutoOverlaps(arranged: seq<Placed>, dir: AutoDir, size: Vec, p: Placed)
    requires size.x >= 0.0 && size.y >= 0.0 && p in arranged && Sized(p)
    ensures var q := Auto(arranged, dir, size);
      && Apart(p, q)
      && (!Disjoint(p, q) <==> InTheWay(arranged, dir, size, p) && Beside(SideOf(dir), p, q) > 0.0)
  {
    var side := SideOf(dir);
    BeyondBound(arranged, side, p);
    AutoAlong(Extent(arranged), dir, size, p);
  }

  // From one pixel of depth on, the monitor that sticks out is always in the way.
  lemma DeepIsInTheWay(arranged: seq<Placed>, dir: AutoDir, size: Vec, p: Placed)
    requires p in arranged && Depth(SideOf(dir), p.size) > 0.0 && Depth(SideOf(dir), size) >= 1.0
    ensures InTheWay(arranged, dir, size, p) <==> SticksOut(arranged, SideOf(dir), p)
  {
    BeyondBound(arranged, SideOf(dir), p);
  }

  // ---- the whole arrangement

  predicate AllSized(mons: seq<Mon>) {
    forall i :: 0 <= i < |mons| ==> mons[i].size.x >= 0.0 && mons[i].size.y >= 0.0
  }

  // The arrangement grows at its end.
  lemma {:induction false} PlaceAutoAt(base: seq<Placed>, mons: seq<Mon>, autos: seq<Index>, k: nat)
    requires k <= |autos|
    ensures var r := PlaceAuto(base, mons, autos);
      && |r| == |base| + |autos| && r[..|base| + k] == PlaceAuto(base, mons, autos[..k])
      && (k < |autos| ==>
            var m := At(mons, autos[k]); r[|base| + k] == Auto(PlaceAuto(base, mons, autos[..k]), m.dir, m.size))
  {
    if k < |autos| {
      var most := autos[..|autos| - 1];
      PlaceAutoAt(base, mons, most, k);
      assert most[..k] == autos[..k];
    } else {
      assert autos[..k] == autos;
      PlaceAutoLength(base, mons, autos);
    }
  }

  lemma {:induction false} PlaceAutoLength(base: seq<Placed>, mons: seq<Mon>, autos: seq<Index>)
    ensures |PlaceAuto(base, mons, autos)| == |base| + |autos|
  {
    if autos != [] {
      PlaceAutoLength(base, mons, autos[..|autos| - 1]);
    }
  }

  lemma {:induction false} AsPlacedSized(mons: seq<Mon>, list: seq<Index>)
    requires AllSized(mons)
    ensures |AsPlaced(mons, list)| == |list| && forall i :: 0 <= i < |list| ==> Sized(AsPlaced(mons, list)[i])
  {
    if list != [] {
      AsPlacedSized(mons, list[..|list| - 1]);
    }
  }

  lemma {:induction false} PlaceAutoSized(base: seq<Placed>, mons: seq<Mon>, autos: seq<Index>)
    requires AllSized(mons) && forall i :: 0 <= i < |base| ==> Sized(base[i])
    ensures forall i :: 0 <= i < |PlaceAuto(base, mons, autos)| ==> Sized(PlaceAuto(base, mons, autos)[i])
  {
    if autos != [] {
      PlaceAutoSized(base, mons, autos[..|autos| - 1]);
    }
  }

  function Explicits(mons: seq<Mon>): seq<Index> {
    Filter(Indices(|mons|), Explicit(mons))
  }

  function Automatics(mons: seq<Mon>): seq<Index> {
    Filter(Indices(|mons|), Automatic(mons))
  }

  lemma PlaceAutoOverlaps(base: seq<Placed>, mons: seq<Mon>, autos: seq<Index>, i: nat, k: nat)
    requires AllSized(mons) && k < |autos| && i < |base| + k && forall i :: 0 <= i < |base| ==> Sized(base[i])
    ensures var r, m, j := PlaceAuto(base, mons, autos), At(mons, autos[k]), |base| + k;
      && |r| == |base| + |autos| && Apart(r[i], r[j])
      && (!Disjoint(r[i], r[j]) <==> InTheWay(r[..j], m.dir, m.size, r[i]) && Beside(SideOf(m.dir), r[i], r[j]) > 0.0)
  {
    PlaceAutoSized(base, mons, autos);
    PlaceAutoAt(base, mons, autos, k);
    var r, m, j := PlaceAuto(base, mons, autos), At(mons, autos[k]), |base| + k;
    assert r[..j][i] == r[i];
    AutoOverlaps(r[..j], m.dir, m.size, r[i]);
  }

  // The same of any two monitors of an arrangement, the later of which is placed automatically.
  lemma ArrangementOverlaps(mons: seq<Mon>, i: nat, j: nat)
    requires AllSized(mons) && i < j < |Order(mons)| && |Explicits(mons)| <= j
    ensures var r, m := Arrangement(mons), At(mons, Order(mons)[j]);
      && |r| == |Order(mons)| && Apart(r[i], r[j])
      && (!Disjoint(r[i], r[j]) <==> InTheWay(r[..j], m.dir, m.size, r[i]) && Beside(SideOf(m.dir), r[i], r[j]) > 0.0)
  {
    var es := Explicits(mons);
    AsPlacedSized(mons, es);
    PlaceAutoOverlaps(AsPlaced(mons, es), mons, Automatics(mons), i, j - |es|);
  }

  // ---- every place

  // The monitor touches the bounds on the side of its rule; across that side it is at zero, or in
  // the middle with a centred rule.
  predicate PlacedBy(b: Bounds, dir: AutoDir, q: Placed) {
    var (left, top, right, bottom) := (q.pos.x, q.pos.y, q.pos.x + q.size.x, q.pos.y + q.size.y);
    var midX := left - b.left as real == b.right as real - right;
    var midY := top - b.up as real == b.down as real - bottom;
    match dir
    case AutoUp => bottom == b.up as real && left == 0.0
    case AutoDown => top == b.down as real && left == 0.0
    case AutoLeft => right == b.left as real && top == 0.0
    case AutoRight => left == b.right as real && top == 0.0
    case AutoNone => left == b.right as real && top == 0.0
    case CenterUp => bottom == b.up as real && midX
    case CenterDown => top == b.down as real && midX
    case CenterLeft => right == b.left as real && midY
    case CenterRight => left == b.right as real && midY
  }

  lemma AutoIsPlaced(b: Bounds, dir: AutoDir, size: Vec)
    ensures PlacedBy(b, dir, Placed(AutoPosition(b, dir, size), size))
  {
  }

  lemma {:induction false} AsPlacedAt(mons: seq<Mon>, list: seq<Index>, j: nat)
    requires j < |list|
    ensures |AsPlaced(mons, list)| == |list|
    ensures AsPlaced(mons, list)[j] == Placed(At(mons, list[j]).offset, At(mons, list[j]).size)
  {
    var last := |list| - 1;
    if j < last {
      AsPlacedAt(mons, list[..last], j);
    } else if last > 0 {
      AsPlacedAt(mons, list[..last], 0);
    }
  }

  // Explicit monitors are where their rules say, and each automatic one where its rule says next to
  // the bounds of all before it.
  lemma ArrangementPlaces(mons: seq<Mon>, j: nat)
    requires j < |Order(mons)|
    ensures var r, m := Arrangement(mons), At(mons, Order(mons)[j]);
      && |r| == |Order(mons)| && r[j].size == m.size
      && if m.offset != NO_OFFSET then r[j].pos == m.offset else PlacedBy(Extent(r[..j]), m.dir, r[j])
  {
    var es, autos := Explicits(mons), Automatics(mons);
    var base := AsPlaced(mons, es);
    if j < |es| {
      AsPlacedAt(mons, es, j);
      PlaceAutoAt(base, mons, autos, 0);
      assert autos[..0] == [];
      assert Arrangement(mons)[j] == Arrangement(mons)[..|base|][j] == base[j];
      FilterMembers(Indices(|mons|), Explicit(mons), es[j]);
    } else {
      var k := j - |es|;
      if es != [] {
        AsPlacedAt(mons, es, 0);
      }
      PlaceAutoAt(base, mons, autos, k);
      var m := At(mons, autos[k]);
      FilterMembers(Indices(|mons|), Automatic(mons), autos[k]);
      AutoIsPlaced(Extent(Arrangement(mons)[..j]), m.dir, m.size);
    }
  }

  // Explicit monitors come first, and either kind in the order of the list.
  lemma OrderIs(mons: seq<Mon>, i: nat, j: nat)
    requires i < j < |Order(mons)|
    ensures var (m, n) := (At(mons, Order(mons)[i]), At(mons, Order(mons)[j]));
      && (n.offset != NO_OFFSET ==> m.offset != NO_OFFSET)
      && ((m.offset == NO_OFFSET <==> n.offset == NO_OFFSET) ==> Order(mons)[i].n < Order(mons)[j].n)
  {
    var all, es, autos := Indices(|mons|), Explicits(mons), Automatics(mons);
    IndicesDistinct(|mons|);
    FilterInOrder(all, Explicit(mons));
    FilterInOrder(all, Automatic(mons));
    if j < |es| {
      assert Ahead(all, es[i], es[j]);
      FilterMembers(all, Explicit(mons), es[i]);
    } else if i >= |es| {
      assert Ahead(all, autos[i - |es|], autos[j - |es|]);
      FilterMembers(all, Automatic(mons), autos[j - |es|]);
    } else {
      FilterMembers(all, Explicit(mons), es[i]);
      FilterMembers(all, Automatic(mons), autos[j - |es|]);
    }
  }

  // ---- whole pixels

  predicate WholeEdges(p: Placed) {
    Whole(p.pos.x) && Whole(p.pos.y) && Whole(p.pos.x + p.size.x) && Whole(p.pos.y + p.size.y)
  }

  predicate WholeEdged(list: seq<Placed>) {
    forall i :: 0 <= i < |list| ==> WholeEdges(list[i])
  }

  predicate WholeSize(m: Mon) {
    Whole(m.size.x) && Whole(m.size.y)
  }

  // The rules and sizes are given in whole pixels.
  predicate WholeRules(mons: seq<Mon>) {
    forall i :: 0 <= i < |mons| ==>
      WholeSize(mons[i]) && (mons[i].offset != NO_OFFSET ==> Whole(mons[i].offset.x) && Whole(mons[i].offset.y))
  }

  // A centred monitor has the same whole number of pixels on both sides.
  predicate Even(b: Bounds, dir: AutoDir, size: Vec) {
    match dir
    case CenterUp => (b.right - b.left - size.x.Floor) % 2 == 0
    case CenterDown => (b.right - b.left - size.x.Floor) % 2 == 0
    case CenterLeft => (b.down - b.up - size.y.Floor) % 2 == 0
    case CenterRight => (b.down - b.up - size.y.Floor) % 2 == 0
    case _ => true
  }

  lemma HalfWhole(n: int, k: int)
    ensures Whole(n as real + k as real / 2.0) <==> k % 2 == 0
  {
    if k % 2 == 0 {
      assert n as real + k as real / 2.0 == (n + k / 2) as real;
    } else {
      assert (n as real + k as real / 2.0).Floor == n + k / 2;
    }
  }

  lemma WholePlus(a: real, b: real)
    requires Whole(a)
    ensures Whole(a + b) <==> Whole(b)
  {
    assert (a + b).Floor == a.Floor + b.Floor;
  }

  predicate WholeSpan(start: real, size: real) {
    Whole(start) && Whole(start + size)
  }

  // The middle of the bounds, for a whole size.
  lemma MiddleWhole(low: int, high: int, size: real)
    requires Whole(size)
    ensures WholeSpan(low as real + ((high - low) as real - size) / 2.0, size) <==> (high - low - size.Floor) % 2 == 0
  {
    HalfWhole(low, high - low - size.Floor);
    WholePlus(size, low as real + ((high - low) as real - size) / 2.0);
  }

  // The places next to a bound.
  lemma NextToWhole(bound: int, size: real)
    requires Whole(size)
    ensures WholeSpan(bound as real, size) && WholeSpan(bound as real - size, size) && WholeSpan(0.0, size)
  {
    var n := size.Floor;
    IntWhole(n);
    IntWhole(bound);
    IntWhole(bound + n);
    IntWhole(bound - n);
    assert bound as real + size == (bound + n) as real && bound as real - size == (bound - n) as real;
  }

  lemma IntWhole(n: int)
    ensures Whole(n as real)
  {
  }

  lemma WholeAuto(b: Bounds, dir: AutoDir, size: Vec)
    requires Whole(size.x) && Whole(size.y)
    ensures WholeEdges(Placed(AutoPosition(b, dir, size), size)) <==> Even(b, dir, size)
  {
    var at := AutoPosition(b, dir, size);
    assert WholeEdges(Placed(at, size)) <==> WholeSpan(at.x, size.x) && WholeSpan(at.y, size.y);
    WholeAutoSpans(b, dir, size);
  }

  lemma WholeAutoSpans(b: Bounds, dir: AutoDir, size: Vec)
    requires Whole(size.x) && Whole(size.y)
    ensures var at := AutoPosition(b, dir, size);
      WholeSpan(at.x, size.x) && WholeSpan(at.y, size.y) <==> Even(b, dir, size)
  {
    match dir
    case AutoUp => NextToWhole(b.up, size.y); NextToWhole(0, size.x);
    case AutoDown => NextToWhole(b.down, size.y); NextToWhole(0, size.x);
    case AutoLeft => NextToWhole(b.left, size.x); NextToWhole(0, size.y);
    case AutoRight => NextToWhole(b.right, size.x); NextToWhole(0, size.y);
    case AutoNone => NextToWhole(b.right, size.x); NextToWhole(0, size.y);
    case CenterUp => NextToWhole(b.up, size.y); MiddleWhole(b.left, b.right, size.x);
    case CenterDown => NextToWhole(b.down, size.y); MiddleWhole(b.left, b.right, size.x);
    case CenterLeft => NextToWhole(b.left, size.x); MiddleWhole(b.up, b.down, size.y);
    case CenterRight => NextToWhole(b.right, size.x); MiddleWhole(b.up, b.down, size.y);
  }

  lemma {:induction false} AsPlacedWhole(mons: seq<Mon>, list: seq<Index>)
    requires WholeRules(mons) && forall i :: i in list ==> i.n < |mons| && mons[i.n].offset != NO_OFFSET
    ensures WholeEdged(AsPlaced(mons, list))
  {
    if list != [] {
      var last := list[|list| - 1];
      assert list == list[..|list| - 1] + [last];
      AsPlacedWhole(mons, list[..|list| - 1]);
      WholePlus(mons[last.n].offset.x, mons[last.n].size.x);
      WholePlus(mons[last.n].offset.y, mons[last.n].size.y);
    }
  }

  predicate EvenAt(base: seq<Placed>, mons: seq<Mon>, autos: seq<Index>, k: nat)
    requires k < |autos|
  {
    var m := At(mons, autos[k]);
    Even(Extent(PlaceAuto(base, mons, autos[..k])), m.dir, m.size)
  }

  predicate AllEven(base: seq<Placed>, mons: seq<Mon>, autos: seq<Index>) {
    forall k :: 0 <= k < |autos| ==> EvenAt(base, mons, autos, k)
  }

  lemma EvenBefore(base: seq<Placed>, mons: seq<Mon>, autos: seq<Index>, k: nat)
    requires k + 1 < |autos|
    ensures EvenAt(base, mons, autos[..|autos| - 1], k) == EvenAt(base, mons, autos, k)
  {
    assert autos[..|autos| - 1][..k] == autos[..k];
  }

  lemma EvenOneMore(base: seq<Placed>, mons: seq<Mon>, autos: seq<Index>)
    requires autos != []
    ensures var last := |autos| - 1;
      AllEven(base, mons, autos) <==> AllEven(base, mons, autos[..last]) && EvenAt(base, mons, autos, last)
  {
    var last := |autos| - 1;
    forall k | 0 <= k < last
      ensures EvenAt(base, mons, autos[..last], k) == EvenAt(base, mons, autos, k)
    {
      EvenBefore(base, mons, autos, k);
    }
    if AllEven(base, mons, autos[..last]) && EvenAt(base, mons, autos, last) {
      forall k | 0 <= k < |autos|
        ensures EvenAt(base, mons, autos, k)
      {
        assert k < last ==> EvenAt(base, mons, autos[..last], k);
      }
    }
  }

  lemma {:induction false} PlaceAutoWhole(base: seq<Placed>, mons: seq<Mon>, autos: seq<Index>)
    requires WholeEdged(base) && forall i :: i in autos ==> WholeSize(At(mons, i))
    ensures WholeEdged(PlaceAuto(base, mons, autos)) <==> AllEven(base, mons, autos)
  {
    if autos != [] {
      var most, last := autos[..|autos| - 1], autos[|autos| - 1];
      assert autos == most + [last];
      PlaceAutoWhole(base, mons, most);
      var before, m := PlaceAuto(base, mons, most), At(mons, last);
      WholeAuto(Extent(before), m.dir, m.size);
      EvenOneMore(base, mons, autos);
      WholeOneMore(before, Auto(before, m.dir, m.size));
    }
  }

  lemma WholeOneMore(list: seq<Placed>, p: Placed)
    ensures WholeEdged(list + [p]) <==> WholeEdged(list) && WholeEdges(p)
  {
    if WholeEdged(list + [p]) {
      assert (list + [p])[|list|] == p;
      forall i | 0 <= i < |list|
        ensures WholeEdges(list[i])
      {
        assert (list + [p])[i] == list[i];
      }
    }
  }

  // The margins of the centred monitors of an arrangement are whole.
  predicate EvenMargins(mons: seq<Mon>) {
    AllEven(AsPlaced(mons, Explicits(mons)), mons, Automatics(mons))
  }

  predicate NoneCentred(mons: seq<Mon>) {
    forall i :: 0 <= i < |mons| ==> mons[i].dir in {AutoUp, AutoDown, AutoLeft, AutoRight, AutoNone}
  }

  // From whole rules and sizes every monitor gets whole edges exactly when the margins of the
  // centred ones are whole, and without centred ones they are.
  lemma ArrangementWhole(mons: seq<Mon>)
    requires WholeRules(mons)
    ensures WholeEdged(Arrangement(mons)) <==> EvenMargins(mons)
    ensures NoneCentred(mons) ==> EvenMargins(mons)
  {
    var es, autos := Explicits(mons), Automatics(mons);
    OrderIsPermutation(mons);
    forall i | i in es
      ensures i.n < |mons| && mons[i.n].offset != NO_OFFSET
    {
      FilterMembers(Indices(|mons|), Explicit(mons), i);
      IndicesDistinct(|mons|);
    }
    assert forall i :: i in autos ==> i in Order(mons);
    AsPlacedWhole(mons, es);
    PlaceAutoWhole(AsPlaced(mons, es), mons, autos);
    forall k | 0 <= k < |autos| && NoneCentred(mons)
      ensures EvenAt(AsPlaced(mons, es), mons, autos, k)
    {
      assert autos[k] in Order(mons) && autos[k].n < |mons|;
      assert mons[autos[k].n].dir in {AutoUp, AutoDown, AutoLeft, AutoRight, AutoNone};
    }
  }

  // With whole rules, sizes and margins, nothing that is placed automatically overlaps anything.
  lemma NothingOverlaps(mons: seq<Mon>, i: nat, j: nat)
    requires AllSized(mons) && WholeRules(mons) && (NoneCentred(mons) || EvenMargins(mons))
    requires i < j < |Order(mons)| && |Explicits(mons)| <= j
    ensures |Arrangement(mons)| == |Order(mons)| && Disjoint(Arrangement(mons)[i], Arrangement(mons)[j])
  {
    ArrangementOverlaps(mons, i, j);
    ArrangementWhole(mons);
    assert WholeEdges(Arrangement(mons)[i]);
    WholeStaysIn(Arrangement(mons)[i]);
  }

  lemma WholeStaysIn(p: Placed)
    requires WholeEdges(p)
    ensures forall side :: Whole(Edge(side, p))
  {
    NegativeWhole(p.pos.x);
    NegativeWhole(p.pos.y);
  }

  lemma NegativeWhole(r: real)
    requires Whole(r)
    ensures Whole(-r)
  {
    IntWhole(-r.Floor);
    assert -r == (-r.Floor) as real;
  }

  // Half a pixel can be shared: a centred monitor that is wider than the others ends between
  // two pixels, and the next one to the right starts before that.
  const EXAMPLE: seq<Mon> :=
    [Mon(ORIGIN, AutoNone, Vec(101.0, 100.0), Vec(101.0, 100.0), 1.0),
     Mon(NO_OFFSET, CenterDown, Vec(200.0, 100.0), Vec(200.0, 100.0), 1.0),
     Mon(NO_OFFSET, AutoRight, Vec(100.0, 300.0), Vec(100.0, 300.0), 1.0)]

  const FIRST := Placed(ORIGIN, Vec(101.0, 100.0))
  const SECOND := Placed(Vec(-49.5, 100.0), Vec(200.0, 100.0))
  const THIRD := Placed(Vec(150.0, 0.0), Vec(100.0, 300.0))

  lemma CentredThenRightOverlaps()
    ensures Arrangement(EXAMPLE) == [FIRST, SECOND, THIRD]
    ensures OverlapX(SECOND, THIRD) == 0.5 && OverlapY(SECOND, THIRD) == 100.0
  {
    ExampleOrder();
    assert AsPlaced(EXAMPLE, [Index(0)]) == [FIRST] by {
      assert [Index(0)][..0] == [];
    }
    ExampleSecond();
    ExampleThird();
  }

  lemma ExampleOrder()
    ensures Filter(Indices(3), Explicit(EXAMPLE)) == [Index(0)]
    ensures Filter(Indices(3), Automatic(EXAMPLE)) == [Index(1), Index(2)]
  {
  }

  lemma ExampleSecond()
    ensures PlaceAuto([FIRST], EXAMPLE, [Index(1)]) == [FIRST, SECOND]
  {
    assert [FIRST][..0] == [] && [Index(1)][..0] == [];
    assert Extent([FIRST]) == Bounds(101, 0, 100, 0);
  }

  lemma ExampleThird()
    ensures PlaceAuto([FIRST], EXAMPLE, [Index(1), Index(2)]) == [FIRST, SECOND, THIRD]
  {
    ExampleSecond();
    assert [Index(1), Index(2)][..1] == [Index(1)];
    assert [FIRST, SECOND][..1] == [FIRST] && [FIRST][..0] == [];
    assert Extent([FIRST]) == Bounds(101, 0, 100, 0);
    assert Extent([FIRST, SECOND]) == Bounds(150, -49, 200, 0);
  }
}
