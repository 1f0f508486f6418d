// Cycling through windows (src/Compositor.cpp).
module WindowCycle {
  import opened Common
  import opened Ids
  import opened Lists

  datatype CycleWin = CycleWin(
    floating: bool, mapped: bool, hidden: bool, noFocus: bool, ws: Option<int>, wsVisible: bool)

  datatype Wish = Wish(focusableOnly: bool, floating: Option<bool>, anyWorkspace: bool)

  type Info = WinId -> CycleWin

  // w may follow cur, the identity of the two aside.
  predicate Matches(info: Info, wish: Wish, cur: WinId, w: WinId) {
    && (wish.floating.None? || info(w).floating == wish.floating.value)
    && (if wish.anyWorkspace then info(w).ws.Some? && info(w).wsVisible else info(w).ws == info(cur).ws)
    && info(w).mapped && !info(w).hidden
    && (!wish.focusableOnly || !info(w).noFocus)
  }

  // isWindowAvailableForCycle
  predicate Available(info: Info, wish: Wish, cur: WinId, w: WinId) {
    w != cur && Matches(info, wish, cur, w)
  }

  function Followers(info: Info, wish: Wish, cur: WinId): WinId -> bool {
    w => Available(info, wish, cur, w)
  }

  function Mates(info: Info, wish: Wish, cur: WinId): WinId -> bool {
    w => Matches(info, wish, cur, w)
  }

  // The filters one by one.
  lemma AvailableIs(info: Info, wish: Wish, cur: WinId, w: WinId)
    ensures var v := info(w);
      var shown := v.mapped && !v.hidden;
      var there := if wish.anyWorkspace then v.ws.Some? && v.wsVisible else v.ws == info(cur).ws;
      && (Available(info, wish, cur, w) ==> w != cur && shown && there && !(wish.focusableOnly && v.noFocus))
      && (Available(info, wish, cur, w) ==> wish.floating == None || wish.floating == Some(v.floating))
      && (w != cur && shown && there && !v.noFocus && wish.floating == None ==> Available(info, wish, cur, w))
      && (w != cur && shown && there && !wish.focusableOnly && wish.floating == Some(v.floating) ==>
            Available(info, wish, cur, w))
  {
  }

  // getWindowPred: the first available window after cur, else the first before it, else
  // what the iterator at cur points to. None stands for the end of the list.
  function Next(list: seq<WinId>, info: Info, wish: Wish, cur: WinId): Option<WinId> {
    var i := IndexOf(list, cur);
    var after := Filter(list[i..], Followers(info, wish, cur));
    var before := Filter(list[..i], Followers(info, wish, cur));
    if after != [] then Some(after[0])
    else if before != [] then Some(before[0])
    else if i < |list| then Some(list[i]) else None
  }

  function Prev(list: seq<WinId>, info: Info, wish: Wish, cur: WinId): Option<WinId> {
    Next(Reverse(list), info, wish, cur)
  }

  // std::find_if over list[lo..hi]
  method FindIf(list: seq<WinId>, info: Info, wish: Wish, cur: WinId, lo: nat, hi: nat) returns (k: nat)
    requires lo <= hi <= |list|
    ensures lo <= k <= hi
    ensures var found := Filter(list[lo..hi], Followers(info, wish, cur));
      if k < hi then found != [] && found[0] == list[k] else found == []
  {
    ghost var p := Followers(info, wish, cur);
    k := lo;
    while k < hi && !(list[k] != cur && Matches(info, wish, cur, list[k]))
      invariant lo <= k <= hi
      invariant Filter(list[lo..hi], p) == Filter(list[k..hi], p)
    {
      assert list[k..hi][1..] == list[k + 1..hi];
      k := k + 1;
    }
  }

  // CCompositor::getWindowCycle and getWindowCycleHist: backwards is forwards on the
  // reversed list.
  method GetWindowCycle(list: seq<WinId>, info: Info, wish: Wish, cur: WinId, prev: bool) returns (r: Option<WinId>)
    ensures r == if prev then Prev(list, info, wish, cur) else Next(list, info, wish, cur)
  {
    var view := if prev then Reverse(list) else list;
    var at := 0;
    while at < |view| && view[at] != cur
      invariant 0 <= at <= |view| && forall k :: 0 <= k < at ==> view[k] != cur
    {
      at := at + 1;
    }
    assert at == IndexOf(view, cur);
    assert view[at..|view|] == view[at..] && view[0..at] == view[..at];
    var k := FindIf(view, info, wish, cur, at, |view|);
    if k < |view| {
      return Some(view[k]);
    }
    k := FindIf(view, info, wish, cur, 0, at);
    r := if k < |view| then Some(view[k]) else None;
  }

  // ---- The cycle

  // Everything that cur's cycle goes through, cur among it.
  function Ring(list: seq<WinId>, info: Info, wish: Wish, cur: WinId): seq<WinId> {
    Filter(list, Mates(info, wish, cur))
  }

  lemma FilterAround(before: seq<WinId>, w: WinId, after: seq<WinId>, p: WinId -> bool)
    requires p(w)
    ensures Filter(before + ([w] + after), p) == Filter(before, p) + [w] + Filter(after, p)
  {
    FilterConcat(before, [w] + after, p);
    assert ([w] + after)[1..] == after;
  }

  lemma FilterSkips(w: WinId, after: seq<WinId>, p: WinId -> bool)
    requires !p(w)
    ensures Filter([w] + after, p) == Filter(after, p)
  {
  }

  lemma RingSplit(before: seq<WinId>, cur: WinId, after: seq<WinId>, info: Info, wish: Wish)
    requires cur !in before && cur !in after && Matches(info, wish, cur, cur)
    ensures var p := Followers(info, wish, cur);
      Ring(before + ([cur] + after), info, wish, cur) == Filter(before, p) + [cur] + Filter([cur] + after, p)
  {
    var p, m := Followers(info, wish, cur), Mates(info, wish, cur);
    FilterAround(before, cur, after, m);
    FilterSkips(cur, after, p);
    FilterSame(before, p, m);
    FilterSame(after, p, m);
  }

  lemma RingAround(list: seq<WinId>, info: Info, wish: Wish, cur: WinId)
    requires Distinct(list) && cur in list && Matches(info, wish, cur, cur)
    ensures var i, p := IndexOf(list, cur), Followers(info, wish, cur);
      && i < |list| && Ring(list, info, wish, cur) == Filter(list[..i], p) + [cur] + Filter(list[i..], p)
  {
    var i := IndexOf(list, cur);
    assert cur !in list[..i] && cur !in list[i + 1..];
    RingSplit(list[..i], cur, list[i + 1..], info, wish);
    HeadAt(list, i);
  }

  lemma HeadAt(list: seq<WinId>, i: nat)
    requires i < |list|
    ensures list[i..] == [list[i]] + list[i + 1..] && list == list[..i] + ([list[i]] + list[i + 1..])
  {
  }

  // One step goes to the next place of the ring, and from the last place to the first.
  lemma NextInRing(list: seq<WinId>, info: Info, wish: Wish, cur: WinId) returns (k: nat)
    requires Distinct(list) && cur in list && Matches(info, wish, cur, cur)
    ensures var ring := Ring(list, info, wish, cur);
      && k < |ring| && ring[k] == cur
      && Next(list, info, wish, cur) == Some(ring[Turn(k + 1, |ring|)])
  {
    RingAround(list, info, wish, cur);
    var i, p := IndexOf(list, cur), Followers(info, wish, cur);
    k := |Filter(list[..i], p)|;
  }

  // Two windows of one ring have the same ring.
  lemma SameRing(list: seq<WinId>, info: Info, wish: Wish, cur: WinId, w: WinId)
    requires Matches(info, wish, cur, cur) && Matches(info, wish, cur, w)
    ensures Matches(info, wish, w, w) && Ring(list, info, wish, w) == Ring(list, info, wish, cur)
  {
    FilterSame(list, Mates(info, wish, cur), Mates(info, wish, w));
  }

  lemma RingFacts(list: seq<WinId>, info: Info, wish: Wish, cur: WinId)
    requires Distinct(list)
    ensures var ring := Ring(list, info, wish, cur);
      Distinct(ring) && forall w :: w in ring <==> w in list && Matches(info, wish, cur, w)
  {
    FilterDistinct(list, Mates(info, wish, cur));
    forall w
      ensures w in Ring(list, info, wish, cur) <==> w in list && Matches(info, wish, cur, w)
    {
      FilterMembers(list, Mates(info, wish, cur), w);
    }
  }

  // n steps.
  function Cycle(list: seq<WinId>, info: Info, wish: Wish, cur: WinId, n: nat): Option<WinId> {
    if n == 0 then Some(cur)
    else
      var w := Cycle(list, info, wish, cur, n - 1);
      if w.None? then None else Next(list, info, wish, w.value)
  }

  // Every step goes to the next place of a ring.
  predicate GoesAround(list: seq<WinId>, info: Info, wish: Wish, ring: seq<WinId>) {
    forall j :: 0 <= j < |ring| ==> Next(list, info, wish, ring[j]) == Some(ring[Turn(j + 1, |ring|)])
  }

  lemma {:induction false} CycleAlong(list: seq<WinId>, info: Info, wish: Wish, ring: seq<WinId>, k: nat, n: nat)
    requires GoesAround(list, info, wish, ring) && k < |ring| && n <= |ring|
    ensures Cycle(list, info, wish, ring[k], n) == Some(ring[Turn(k + n, |ring|)])
  {
    if n > 0 {
      CycleAlong(list, info, wish, ring, k, n - 1);
      assert Turn(Turn(k + n - 1, |ring|) + 1, |ring|) == Turn(k + n, |ring|);
    }
  }

  // n steps from place k of the ring lead to place k + n, counted around.
  lemma CycleIsRing(list: seq<WinId>, info: Info, wish: Wish, cur: WinId, k: nat, n: nat)
    requires Distinct(list) && cur in list && Matches(info, wish, cur, cur)
    requires var ring := Ring(list, info, wish, cur); k < |ring| && ring[k] == cur && n <= |ring|
    ensures var ring := Ring(list, info, wish, cur);
      Cycle(list, info, wish, cur, n) == Some(ring[Turn(k + n, |ring|)])
  {
    RingGoes(list, info, wish, cur);
    CycleAlong(list, info, wish, Ring(list, info, wish, cur), k, n);
  }

  // The step from place j of cur's ring.
  lemma StepInRing(list: seq<WinId>, info: Info, wish: Wish, cur: WinId, j: nat)
    requires Distinct(list) && Matches(info, wish, cur, cur) && j < |Ring(list, info, wish, cur)|
    ensures var ring := Ring(list, info, wish, cur);
      Next(list, info, wish, ring[j]) == Some(ring[Turn(j + 1, |ring|)])
  {
    var w := Ring(list, info, wish, cur)[j];
    RingFacts(list, info, wish, cur);
    assert w in Ring(list, info, wish, cur);
    SameRing(list, info, wish, cur, w);
    var i := NextInRing(list, info, wish, w);
  }

  lemma VisitsEach(list: seq<WinId>, info: Info, wish: Wish, cur: WinId, w: WinId) returns (n: nat)
    requires Distinct(list) && cur in list && Matches(info, wish, cur, cur)
    requires w in list && Matches(info, wish, cur, w)
    ensures n < |Ring(list, info, wish, cur)| && Cycle(list, info, wish, cur, n) == Some(w)
  {
    var ring := Ring(list, info, wish, cur);
    var k := NextInRing(list, info, wish, cur);
    RingFacts(list, info, wish, cur);
    assert w in ring;
    var j :| 0 <= j < |ring| && ring[j] == w;
    n := if j >= k then j - k else j - k + |ring|;
    CycleIsRing(list, info, wish, cur, k, n);
  }

  lemma NeverTwice(list: seq<WinId>, info: Info, wish: Wish, cur: WinId, m: nat, n: nat)
    requires Distinct(list) && cur in list && Matches(info, wish, cur, cur)
    requires m < n < |Ring(list, info, wish, cur)|
    ensures Cycle(list, info, wish, cur, m) != Cycle(list, info, wish, cur, n)
  {
    var k := NextInRing(list, info, wish, cur);
    RingFacts(list, info, wish, cur);
    CycleIsRing(list, info, wish, cur, k, m);
    CycleIsRing(list, info, wish, cur, k, n);
  }

  // Repeated cycling visits every window of the ring once before it is back at the start.
  lemma CycleVisitsAll(list: seq<WinId>, info: Info, wish: Wish, cur: WinId)
    requires Distinct(list) && cur in list && Matches(info, wish, cur, cur)
    ensures Cycle(list, info, wish, cur, |Ring(list, info, wish, cur)|) == Some(cur)
    ensures forall w :: w in list && Matches(info, wish, cur, w) ==> Visited(list, info, wish, cur, w)
    ensures forall m, n :: 0 <= m < n < |Ring(list, info, wish, cur)| ==>
        Cycle(list, info, wish, cur, m) != Cycle(list, info, wish, cur, n)
  {
    var k := NextInRing(list, info, wish, cur);
    CycleIsRing(list, info, wish, cur, k, |Ring(list, info, wish, cur)|);
    forall w | w in list && Matches(info, wish, cur, w)
      ensures Visited(list, info, wish, cur, w)
    {
      var n := VisitsEach(list, info, wish, cur, w);
    }
    forall m, n | 0 <= m < n < |Ring(list, info, wish, cur)|
      ensures Cycle(list, info, wish, cur, m) != Cycle(list, info, wish, cur, n)
    {
      NeverTwice(list, info, wish, cur, m, n);
    }
  }

  ghost predicate Visited(list: seq<WinId>, info: Info, wish: Wish, cur: WinId, w: WinId) {
    exists n :: 0 <= n < |Ring(list, info, wish, cur)| && Cycle(list, info, wish, cur, n) == Some(w)
  }

  // The step back from place j of cur's ring.
  lemma StepBackInRing(list: seq<WinId>, info: Info, wish: Wish, cur: WinId, j: nat)
    requires Distinct(list) && Matches(info, wish, cur, cur) && j < |Ring(list, info, wish, cur)|
    ensures var ring := Ring(list, info, wish, cur);
      Prev(list, info, wish, ring[j]) == Some(ring[Turn(j + |ring| - 1, |ring|)])
  {
    var ring := Ring(list, info, wish, cur);
    var size := |ring|;
    ReverseKeeps(list);
    FilterReverse(list, Mates(info, wish, cur));
    ReverseAt(ring, j);
    StepInRing(Reverse(list), info, wish, cur, size - 1 - j);
    ReverseAt(ring, Turn(j + size - 1, size));
  }

  predicate GoesBack(list: seq<WinId>, info: Info, wish: Wish, ring: seq<WinId>) {
    forall j :: 0 <= j < |ring| ==> Prev(list, info, wish, ring[j]) == Some(ring[Turn(j + |ring| - 1, |ring|)])
  }

  lemma RingGoes(list: seq<WinId>, info: Info, wish: Wish, cur: WinId)
    requires Distinct(list) && Matches(info, wish, cur, cur)
    ensures GoesAround(list, info, wish, Ring(list, info, wish, cur))
    ensures GoesBack(list, info, wish, Ring(list, info, wish, cur))
  {
    var ring := Ring(list, info, wish, cur);
    forall j | 0 <= j < |ring|
      ensures Next(list, info, wish, ring[j]) == Some(ring[Turn(j + 1, |ring|)])
      ensures Prev(list, info, wish, ring[j]) == Some(ring[Turn(j + |ring| - 1, |ring|)])
    {
      StepInRing(list, info, wish, cur, j);
      StepBackInRing(list, info, wish, cur, j);
    }
  }

  lemma ThereAndBack(list: seq<WinId>, info: Info, wish: Wish, ring: seq<WinId>, k: nat)
    requires GoesAround(list, info, wish, ring) && GoesBack(list, info, wish, ring) && k < |ring|
    ensures var n, p := Next(list, info, wish, ring[k]), Prev(list, info, wish, ring[k]);
      && n.Some? && Prev(list, info, wish, n.value) == Some(ring[k])
      && p.Some? && Next(list, info, wish, p.value) == Some(ring[k])
  {
    var on, back := Turn(k + 1, |ring|), Turn(k + |ring| - 1, |ring|);
    assert Turn(on + |ring| - 1, |ring|) == k == Turn(back + 1, |ring|);
    assert Next(list, info, wish, ring[k]) == Some(ring[on]) && Prev(list, info, wish, ring[on]) == Some(ring[k]);
    assert Prev(list, info, wish, ring[k]) == Some(ring[back]) && Next(list, info, wish, ring[back]) == Some(ring[k]);
  }

  // Forwards and backwards undo each other.
  lemma PrevUndoesNext(list: seq<WinId>, info: Info, wish: Wish, cur: WinId)
    requires Distinct(list) && cur in list && Matches(info, wish, cur, cur)
    ensures var n, p := Next(list, info, wish, cur), Prev(list, info, wish, cur);
      && n.Some? && Prev(list, info, wish, n.value) == Some(cur)
      && p.Some? && Next(list, info, wish, p.value) == Some(cur)
  {
    var k := NextInRing(list, info, wish, cur);
    RingGoes(list, info, wish, cur);
    ThereAndBack(list, info, wish, Ring(list, info, wish, cur), k);
  }

  // Without another candidate the window itself comes back; with cur outside the list and
  // no candidate, the iterator at the end of the list would be read.
  lemma NextAlone(list: seq<WinId>, info: Info, wish: Wish, cur: WinId)
    requires forall i :: 0 <= i < |list| ==> !Available(info, wish, cur, list[i])
    ensures Next(list, info, wish, cur) == if cur in list then Some(cur) else None
  {
    var i, p := IndexOf(list, cur), Followers(info, wish, cur);
    NoneFiltered(list[i..], p);
    NoneFiltered(list[..i], p);
  }

  lemma {:induction false} NoneFiltered(list: seq<WinId>, p: WinId -> bool)
    requires forall i :: 0 <= i < |list| ==> !p(list[i])
    ensures Filter(list, p) == []
  {
    if list != [] {
      NoneFiltered(list[1..], p);
    }
  }
}
