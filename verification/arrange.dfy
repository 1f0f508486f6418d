// Placing the monitors (src/Compositor.cpp).
module Arrange {
  import opened Common
  import opened Lists

  datatype AutoDir =
    | AutoUp | AutoDown | AutoLeft | AutoRight | AutoNone
    | CenterUp | CenterDown | CenterLeft | CenterRight

  const INT32_MAX := 2147483647

  // The offset of a rule that gives none.
  const NO_OFFSET := Vec(-(INT32_MAX as real), -(INT32_MAX as real))

  // What a monitor brings along: its rule, and its sizes.
  datatype Mon = Mon(offset: Vec, dir: AutoDir, size: Vec, transformedSize: Vec, scale: real)

  // Monitors are told apart by their index in the list.
  datatype Index = Index(n: nat)

  function At(mons: seq<Mon>, i: Index): Mon {
    if i.n < |mons| then mons[i.n] else Mon(NO_OFFSET, AutoNone, ORIGIN, ORIGIN, 1.0)
  }

  function Indices(n: nat): seq<Index> {
    if n == 0 then [] else Indices(n - 1) + [Index(n - 1)]
  }

  function Explicit(mons: seq<Mon>): Index -> bool {
    i => At(mons, i).offset != NO_OFFSET
  }

  function Automatic(mons: seq<Mon>): Index -> bool {
    i => At(mons, i).offset == NO_OFFSET
  }

  // A monitor that has its place.
  datatype Placed = Placed(pos: Vec, size: Vec)

  datatype Bounds = Bounds(right: int, left: int, down: int, up: int)

  // One step of recalcMaxOffsets; the offsets are ints.
  function Widen(b: Bounds, p: Placed): Bounds {
    Bounds(Trunc(Max(p.pos.x + p.size.x, b.right as real)), Trunc(Min(p.pos.x, b.left as real)),
           Trunc(Max(p.pos.y + p.size.y, b.down as real)), Trunc(Min(p.pos.y, b.up as real)))
  }

  function Extent(arranged: seq<Placed>): Bounds {
    if arranged == [] then Bounds(0, 0, 0, 0)
    else Widen(Extent(arranged[..|arranged| - 1]), arranged[|arranged| - 1])
  }

  // The place of an automatic monitor next to the bounds.
  function AutoPosition(b: Bounds, dir: AutoDir, size: Vec): Vec {
    var midX := b.left as real + ((b.right - b.left) as real - size.x) / 2.0;
    var midY := b.up as real + ((b.down - b.up) as real - size.y) / 2.0;
    match dir
    case AutoUp => Vec(0.0, b.up as real - size.y)
    case AutoDown => Vec(0.0, b.down as real)
    case AutoLeft => Vec(b.left as real - size.x, 0.0)
    case AutoRight => Vec(b.right as real, 0.0)
    case AutoNone => Vec(b.right as real, 0.0)
    case CenterUp => Vec(midX, b.up as real - size.y)
    case CenterDown => Vec(midX, b.down as real)
    case CenterLeft => Vec(b.left as real - size.x, midY)
    case CenterRight => Vec(b.right as real, midY)
  }

  // The automatic monitors are placed one after the other.
  function PlaceAuto(arranged: seq<Placed>, mons: seq<Mon>, autos: seq<Index>): seq<Placed> {
    if autos == [] then arranged
    else
      var before, m := PlaceAuto(arranged, mons, autos[..|autos| - 1]), At(mons, autos[|autos| - 1]);
      before + [Placed(AutoPosition(Extent(before), m.dir, m.size), m.size)]
  }

  function AsPlaced(mons: seq<Mon>, list: seq<Index>): seq<Placed> {
    if list == [] then []
    else
      var m := At(mons, list[|list| - 1]);
      AsPlaced(mons, list[..|list| - 1]) + [Placed(m.offset, m.size)]
  }

  // Explicit monitors first, then the automatic ones.
  function Order(mons: seq<Mon>): seq<Index> {
    Filter(Indices(|mons|), Explicit(mons)) + Filter(Indices(|mons|), Automatic(mons))
  }

  function Arrangement(mons: seq<Mon>): seq<Placed> {
    PlaceAuto(AsPlaced(mons, Filter(Indices(|mons|), Explicit(mons))), mons, Filter(Indices(|mons|), Automatic(mons)))
  }

  // The left edge of monitor k for XWayland; the running sum is an int.
  function XwaylandX(mons: seq<Mon>, forceZero: bool, k: nat): int
    requires k <= |mons|
  {
    if k == 0 then 0
    else Trunc(XwaylandX(mons, forceZero, k - 1) as real + Width(mons[k - 1], forceZero))
  }

  function Width(m: Mon, forceZero: bool): real {
    if forceZero then m.transformedSize.x else m.size.x
  }

  // Where the monitors of a list are.
  function Snapshot(mons: seq<Mon>, position: map<Index, Vec>, list: seq<Index>): seq<Placed>
    requires forall i :: i in list ==> i in position
  {
    if list == [] then []
    else
      var i := list[|list| - 1];
      assert i in list && forall k :: k in list[..|list| - 1] ==> k in list;
      Snapshot(mons, position, list[..|list| - 1]) + [Placed(position[i], At(mons, i).size)]
  }

  class Monitors {
    const mons: seq<Mon>
    var position: map<Index, Vec>
    var xwaylandX: seq<int>
    var xwaylandScale: seq<real>

    constructor (mons: seq<Mon>)
      ensures this.mons == mons && position == map[]
    {
      this.mons, position, xwaylandX, xwaylandScale := mons, map[], [], [];
    }

    // CCompositor::arrangeMonitors
    method ArrangeMonitors(forceZero: bool)
      modifies this
      ensures forall i :: i in Order(mons) ==> i in position
      ensures Snapshot(mons, position, Order(mons)) == Arrangement(mons)
      ensures |xwaylandX| == |mons| && forall k :: 0 <= k < |mons| ==> xwaylandX[k] == XwaylandX(mons, forceZero, k)
      ensures |xwaylandScale| == |mons|
      ensures forall k :: 0 <= k < |mons| ==> xwaylandScale[k] == if forceZero then mons[k].scale else 1.0
    {
      OrderIsPermutation(mons);
      var arranged, toArrange := PlaceExplicit();
      PlaceAutomatic(arranged, toArrange);
      PlaceForXwayland(forceZero);
    }

    // The last loop: all monitors in a row.
    method PlaceForXwayland(forceZero: bool)
      modifies this`xwaylandX, this`xwaylandScale
      ensures |xwaylandX| == |mons| && forall k :: 0 <= k < |mons| ==> xwaylandX[k] == XwaylandX(mons, forceZero, k)
      ensures |xwaylandScale| == |mons|
      ensures forall k :: 0 <= k < |mons| ==> xwaylandScale[k] == if forceZero then mons[k].scale else 1.0
    {
      var right, k := 0, 0;
      xwaylandX, xwaylandScale := [], [];
      while k < |mons|
        invariant 0 <= k <= |mons| && right == XwaylandX(mons, forceZero, k)
        invariant |xwaylandX| == k && forall j :: 0 <= j < k ==> xwaylandX[j] == XwaylandX(mons, forceZero, j)
        invariant |xwaylandScale| == k
        invariant forall j :: 0 <= j < k ==> xwaylandScale[j] == if forceZero then mons[j].scale else 1.0
      {
        xwaylandX := xwaylandX + [right];
        right := Trunc(right as real + (if forceZero then mons[k].transformedSize.x else mons[k].size.x));
        xwaylandScale := xwaylandScale + [if forceZero then mons[k].scale else 1.0];
        k := k + 1;
      }
    }

    // The loop that places explicit monitors and takes them off the list.
    method PlaceExplicit() returns (arranged: seq<Index>, toArrange: seq<Index>)
      modifies this`position
      ensures arranged == Filter(Indices(|mons|), Explicit(mons)) && toArrange == Filter(Indices(|mons|), Automatic(mons))
      ensures AtOffsets(mons, position, arranged)
    {
      arranged, toArrange := [], Indices(|mons|);
      var it := 0;
      IndicesDistinct(|mons|);
      WholeList(toArrange);
      while it < |toArrange|
        invariant it <= |toArrange|
        invariant AtOffsets(mons, position, arranged)
        invariant Sorting(mons, arranged, toArrange[..it], toArrange[it..])
        decreases |toArrange| - it
      {
        var i := toArrange[it];
        ghost var rest := toArrange[it + 1..];
        CutParts(toArrange, it);
        SortingStep(mons, arranged, toArrange[..it], i, rest);
        if At(mons, i).offset != NO_OFFSET {
          OffsetTaken(mons, position, arranged, i);
          position := position[i := At(mons, i).offset];
          arranged := arranged + [i];
          toArrange := toArrange[..it] + toArrange[it + 1..];
          if it == |toArrange| {
            break;
          }
          continue;
        }
        TakeOneMore(toArrange, it);
        it := it + 1;
      }
      WholeList(toArrange);
    }

    // recalcMaxOffsets
    method RecalcMaxOffsets(arranged: seq<Index>) returns (b: Bounds)
      requires forall i :: i in arranged ==> i in position
      ensures b == Extent(Snapshot(mons, position, arranged))
    {
      b := Bounds(0, 0, 0, 0);
      var k := 0;
      while k < |arranged|
        invariant 0 <= k <= |arranged|
        invariant b == Extent(Snapshot(mons, position, arranged[..k]))
      {
        assert arranged[..k + 1][..k] == arranged[..k];
        assert arranged[k] in arranged;
        b := Widen(b, Placed(position[arranged[k]], At(mons, arranged[k]).size));
        k := k + 1;
      }
      assert arranged[..k] == arranged;
    }

    // The loop over the automatic monitors.
    method PlaceAutomatic(explicits: seq<Index>, autos: seq<Index>)
      requires Distinct(explicits + autos) && forall i :: i in explicits ==> i in position
      modifies this`position
      ensures forall i :: i in explicits + autos ==> i in position
      ensures Snapshot(mons, position, explicits + autos) == PlaceAuto(Snapshot(mons, old(position), explicits), mons, autos)
    {
      ghost var base := Snapshot(mons, position, explicits);
      var k := 0;
      assert explicits + autos[..0] == explicits;
      while k < |autos|
        invariant 0 <= k <= |autos|
        invariant PlacedSoFar(mons, position, base, explicits + autos[..k], autos[..k])
      {
        var i := autos[k];
        var arranged := explicits + autos[..k];
        var b := RecalcMaxOffsets(arranged);
        NextIsNew(explicits, autos, k);
        PlacedOne(mons, position, base, arranged, autos[..k], i);
        position := position[i := AutoPosition(b, At(mons, i).dir, At(mons, i).size)];
        TakeOneMore(autos, k);
        assert explicits + (autos[..k] + [i]) == arranged + [i];
        k := k + 1;
      }
      assert autos[..k] == autos;
    }
  }

  // The explicit monitors of a list have the places that their rules give.
  predicate AtOffsets(mons: seq<Mon>, position: map<Index, Vec>, list: seq<Index>) {
    (forall i :: i in list ==> i in position) && Snapshot(mons, position, list) == AsPlaced(mons, list)
  }

  lemma OffsetTaken(mons: seq<Mon>, position: map<Index, Vec>, list: seq<Index>, i: Index)
    requires AtOffsets(mons, position, list) && i !in list
    ensures AtOffsets(mons, position[i := At(mons, i).offset], list + [i])
  {
    SnapshotFrame(mons, position, list, i, At(mons, i).offset);
    assert (list + [i])[..|list|] == list;
  }

  // What has been sorted out so far, and what is still to come.
  predicate Sorting(mons: seq<Mon>, explicits: seq<Index>, autos: seq<Index>, rest: seq<Index>) {
    && explicits + Filter(rest, Explicit(mons)) == Filter(Indices(|mons|), Explicit(mons))
    && autos + Filter(rest, Automatic(mons)) == Filter(Indices(|mons|), Automatic(mons))
    && Distinct(rest) && forall i :: i in rest ==> i !in explicits
  }

  lemma SortingStep(mons: seq<Mon>, explicits: seq<Index>, autos: seq<Index>, i: Index, rest: seq<Index>)
    requires Sorting(mons, explicits, autos, [i] + rest)
    ensures i !in explicits
    ensures if At(mons, i).offset != NO_OFFSET then Sorting(mons, explicits + [i], autos, rest)
            else Sorting(mons, explicits, autos + [i], rest)
  {
  }

  predicate PlacedSoFar(mons: seq<Mon>, position: map<Index, Vec>, base: seq<Placed>, list: seq<Index>, autos: seq<Index>) {
    (forall i :: i in list ==> i in position) && Snapshot(mons, position, list) == PlaceAuto(base, mons, autos)
  }

  lemma PlacedOne(mons: seq<Mon>, position: map<Index, Vec>, base: seq<Placed>, list: seq<Index>, autos: seq<Index>, i: Index)
    requires PlacedSoFar(mons, position, base, list, autos) && i !in list
    ensures var m := At(mons, i);
      var at := AutoPosition(Extent(Snapshot(mons, position, list)), m.dir, m.size);
      PlacedSoFar(mons, position[i := at], base, list + [i], autos + [i])
  {
    var m := At(mons, i);
    var at := AutoPosition(Extent(Snapshot(mons, position, list)), m.dir, m.size);
    SnapshotFrame(mons, position, list, i, at);
    SnapshotPush(mons, position[i := at], list, i);
    PlaceAutoPush(base, mons, autos, i);
  }

  lemma SnapshotPush(mons: seq<Mon>, position: map<Index, Vec>, list: seq<Index>, i: Index)
    requires i in position && forall k :: k in list ==> k in position
    ensures Snapshot(mons, position, list + [i]) == Snapshot(mons, position, list) + [Placed(position[i], At(mons, i).size)]
  {
    assert (list + [i])[..|list|] == list;
  }

  lemma PlaceAutoPush(base: seq<Placed>, mons: seq<Mon>, autos: seq<Index>, i: Index)
    ensures var before, m := PlaceAuto(base, mons, autos), At(mons, i);
      PlaceAuto(base, mons, autos + [i]) == before + [Placed(AutoPosition(Extent(before), m.dir, m.size), m.size)]
  {
    assert (autos + [i])[..|autos|] == autos;
  }

  lemma {:induction false} SnapshotFrame(mons: seq<Mon>, position: map<Index, Vec>, list: seq<Index>, i: Index, at: Vec)
    requires i !in list && forall k :: k in list ==> k in position
    ensures Snapshot(mons, position[i := at], list) == Snapshot(mons, position, list)
  {
    if list != [] {
      assert list == list[..|list| - 1] + [list[|list| - 1]];
      SnapshotFrame(mons, position, list[..|list| - 1], i, at);
    }
  }

  lemma NextIsNew(explicits: seq<Index>, autos: seq<Index>, k: nat)
    requires Distinct(explicits + autos) && k < |autos|
    ensures autos[k] !in explicits + autos[..k]
  {
    var all := explicits + autos;
    forall j | 0 <= j < |explicits| + k
      ensures (explicits + autos[..k])[j] != autos[k]
    {
      assert all[j] != all[|explicits| + k];
    }
  }

  lemma {:induction false} IndicesDistinct(n: nat)
    ensures |Indices(n)| == n && Distinct(Indices(n))
    ensures forall i :: i in Indices(n) <==> i.n < n
    ensures forall k :: 0 <= k < n ==> Indices(n)[k] == Index(k)
  {
    if n > 0 {
      IndicesDistinct(n - 1);
    }
  }

  // The split into explicit and automatic monitors loses none and repeats none.
  lemma OrderIsPermutation(mons: seq<Mon>)
    ensures Distinct(Order(mons)) && forall i :: i in Order(mons) <==> i.n < |mons|
  {
    var all := Indices(|mons|);
    IndicesDistinct(|mons|);
    FilterDistinct(all, Explicit(mons));
    FilterDistinct(all, Automatic(mons));
    forall i
      ensures i in Filter(all, Explicit(mons)) <==> i.n < |mons| && At(mons, i).offset != NO_OFFSET
      ensures i in Filter(all, Automatic(mons)) <==> i.n < |mons| && At(mons, i).offset == NO_OFFSET
    {
      FilterMembers(all, Explicit(mons), i);
      FilterMembers(all, Automatic(mons), i);
    }
  }

  predicate Whole(r: real) {
    r == r.Floor as real
  }

  // The width that counts is the transformed one with forced scaling, and the monitor's own without.
  predicate WidthsAre(mons: seq<Mon>, forceZero: bool, widths: seq<real>) {
    |widths| == |mons| &&
    forall i :: 0 <= i < |mons| ==> widths[i] == if forceZero then mons[i].transformedSize.x else mons[i].size.x
  }

  function Sum(widths: seq<real>): real {
    if widths == [] then 0.0 else Sum(widths[..|widths| - 1]) + widths[|widths| - 1]
  }

  predicate AllWhole(widths: seq<real>) {
    forall i :: 0 <= i < |widths| ==> Whole(widths[i])
  }

  // The XWayland positions are the running sums of the widths exactly when the widths so far are
  // whole; otherwise they fall short of the sum, by less than a pixel for each monitor.
  lemma {:induction false} XwaylandInARow(mons: seq<Mon>, forceZero: bool, widths: seq<real>, k: nat)
    requires k <= |mons| && WidthsAre(mons, forceZero, widths) && forall i :: 0 <= i < |mons| ==> widths[i] >= 0.0
    ensures var x, sum := XwaylandX(mons, forceZero, k), Sum(widths[..k]);
      && x >= 0 && x as real <= sum && (k > 0 ==> sum < (x + k) as real)
      && (x as real == sum <==> AllWhole(widths[..k]))
  {
    if k > 0 {
      XwaylandInARow(mons, forceZero, widths, k - 1);
      TruncSum(XwaylandX(mons, forceZero, k - 1), widths[k - 1]);
      TakeOneMore(widths, k - 1);
      assert widths[..k][..k - 1] == widths[..k - 1];
      assert AllWhole(widths[..k]) <==> AllWhole(widths[..k - 1]) && Whole(widths[k - 1]) by {
        AllWholeOneMore(widths[..k - 1], widths[k - 1]);
      }
    }
  }

  lemma AllWholeOneMore(widths: seq<real>, w: real)
    ensures AllWhole(widths + [w]) <==> AllWhole(widths) && Whole(w)
  {
    if AllWhole(widths + [w]) {
      assert (widths + [w])[|widths|] == w;
      forall i | 0 <= i < |widths|
        ensures Whole(widths[i])
      {
        assert (widths + [w])[i] == widths[i];
      }
    }
  }

  lemma TruncSum(n: int, r: real)
    requires n >= 0 && r >= 0.0
    ensures Trunc(n as real + r) == n + r.Floor && r.Floor >= 0 && r.Floor as real <= r < r.Floor as real + 1.0
  {
    var f := r.Floor;
    assert (n + f) as real == n as real + f as real;
  }
}
