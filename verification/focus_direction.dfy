// The window next to another one, chosen by focus history (src/Compositor.cpp).
module FocusDirection {
  import opened Common
  import opened Ids
  import opened Lists
  import opened FocusHistory

  datatype Dir = Left | Right | Up | Down

  datatype SideWin = SideWin(
    box: Box, ws: Option<int>, mon: Option<int>, wsVisible: bool,
    mapped: bool, hidden: bool, fullscreen: bool, floating: bool, createdOver: bool)

  // What the search starts from: a box, its workspace, and the window to leave out.
  datatype Origin = Origin(
    box: Box, ws: int, mon: Option<int>, hasFs: bool, ignored: Option<WinId>, monitorFallback: bool)

  type Sides = WinId -> SideWin

  // The filters at the head of the loop.
  predicate Candidate(o: Origin, info: Sides, w: WinId) {
    var s := info(w);
    && o.ignored != Some(w) && s.ws.Some? && s.mapped && !s.hidden && (s.fullscreen || !s.floating) && s.wsVisible
    && !(o.mon == s.mon && s.ws != Some(o.ws))
    && !(o.hasFs && !s.fullscreen && !s.createdOver)
    && !(!o.monitorFallback && o.mon != s.mon)
  }

  // STICKS: edges less than two pixels apart.
  predicate Sticks(a: real, b: real) {
    -2.0 < a - b < 2.0
  }

  // How much of one span lies in the other.
  function Overlap(a: real, la: real, b: real, lb: real): real {
    Max(0.0, Min(a + la, b + lb) - Max(a, b))
  }

  // The length of the edge that b shares with a on the given side of a, -1 if none.
  function SharedEdge(a: Box, b: Box, dir: Dir): real {
    match dir
    case Left => if Sticks(a.x, b.x + b.w) then Overlap(a.y, a.h, b.y, b.h) else -1.0
    case Right => if Sticks(a.x + a.w, b.x) then Overlap(a.y, a.h, b.y, b.h) else -1.0
    case Up => if Sticks(a.y, b.y + b.h) then Overlap(a.x, a.w, b.x, b.w) else -1.0
    case Down => if Sticks(a.y + a.h, b.y) then Overlap(a.x, a.w, b.x, b.w) else -1.0
  }

  predicate Beside(o: Origin, info: Sides, dir: Dir, w: WinId) {
    Candidate(o, info, w) && SharedEdge(o.box, info(w).box, dir) > 0.0
  }

  // ---- the same in coordinates

  predicate Covers(start: real, length: real, low: real, high: real) {
    start <= low && high <= start + length
  }

  // Some interval of positive length lies in both spans.
  ghost predicate ShareLength(a: real, la: real, b: real, lb: real) {
    exists low, high :: low < high && Covers(a, la, low, high) && Covers(b, lb, low, high)
  }

  predicate WithinTwoPixels(a: real, b: real) {
    a < b + 2.0 && b < a + 2.0
  }

  // b begins where a ends on the given side, and they share some of that edge.
  ghost predicate NextTo(a: Box, b: Box, dir: Dir) {
    match dir
    case Left => WithinTwoPixels(b.x + b.w, a.x) && ShareLength(a.y, a.h, b.y, b.h)
    case Right => WithinTwoPixels(b.x, a.x + a.w) && ShareLength(a.y, a.h, b.y, b.h)
    case Up => WithinTwoPixels(b.y + b.h, a.y) && ShareLength(a.x, a.w, b.x, b.w)
    case Down => WithinTwoPixels(b.y, a.y + a.h) && ShareLength(a.x, a.w, b.x, b.w)
  }

  lemma OverlapIsShared(a: real, la: real, b: real, lb: real)
    ensures Overlap(a, la, b, lb) > 0.0 <==> ShareLength(a, la, b, lb)
  {
    if Overlap(a, la, b, lb) > 0.0 {
      var low, high := Max(a, b), Min(a + la, b + lb);
      assert Covers(a, la, low, high) && Covers(b, lb, low, high);
    }
  }

  lemma SharedEdgeIsNextTo(a: Box, b: Box, dir: Dir)
    ensures SharedEdge(a, b, dir) > 0.0 <==> NextTo(a, b, dir)
  {
    OverlapIsShared(a.y, a.h, b.y, b.h);
    OverlapIsShared(a.x, a.w, b.x, b.w);
  }

  lemma BesideIsNextTo(o: Origin, info: Sides, dir: Dir)
    ensures forall w :: Beside(o, info, dir, w) <==> Candidate(o, info, w) && NextTo(o.box, info(w).box, dir)
  {
    forall w
      ensures Beside(o, info, dir, w) <==> Candidate(o, info, w) && NextTo(o.box, info(w).box, dir)
    {
      SharedEdgeIsNextTo(o.box, info(w).box, dir);
    }
  }

  // The filters one by one: what is seen on its workspace, and where that may be.
  lemma CandidateIs(o: Origin, info: Sides, w: WinId)
    ensures var s := info(w);
      var shown := s.mapped && !s.hidden && s.wsVisible && o.ignored != Some(w);
      var here := s.ws == Some(o.ws) && s.mon == o.mon;
      && (Candidate(o, info, w) ==> shown && s.ws.Some? && (s.floating ==> s.fullscreen))
      && (Candidate(o, info, w) ==> if s.mon == o.mon then here else o.monitorFallback)
      && (Candidate(o, info, w) && o.hasFs ==> s.fullscreen || s.createdOver)
      && (shown && here && s.fullscreen ==> Candidate(o, info, w))
      && (shown && here && !s.floating && (s.createdOver || !o.hasFs) ==> Candidate(o, info, w))
      && (shown && s.fullscreen && s.ws.Some? && s.mon != o.mon && o.monitorFallback ==> Candidate(o, info, w))
  {
  }

  // A window missing from the history ranks above all others: its index is -1.
  function Rank(history: seq<WinId>, w: WinId): int {
    |history| - (if IndexOf(history, w) < |history| then IndexOf(history, w) else -1)
  }

  method HistoryRank(history: seq<WinId>, w: WinId) returns (rank: int)
    ensures rank == Rank(history, w)
  {
    var idx := -1;
    var i := 0;
    while i < |history|
      invariant 0 <= i <= |history|
      invariant idx == -1 && forall k :: 0 <= k < i ==> history[k] != w
    {
      if history[i] == w {
        idx := i;
        break;
      }
      i := i + 1;
    }
    rank := |history| - idx;
  }

  // CCompositor::getWindowInDirection without vector angles, by the history method: the
  // highest rank wins.
  method GetWindowInDirection(windows: seq<WinId>, info: Sides, history: seq<WinId>, o: Origin, dir: Dir)
    returns (r: Option<WinId>)
    ensures r.None? <==> forall w :: w in windows ==> !Beside(o, info, dir, w)
    ensures r.None? <==> forall w :: w in windows && Candidate(o, info, w) ==> !NextTo(o.box, info(w).box, dir)
    ensures r.Some? ==> Candidate(o, info, r.value) && NextTo(o.box, info(r.value).box, dir)
    ensures r.Some? ==> r.value in windows && Beside(o, info, dir, r.value)
    ensures r.Some? ==> forall w :: w in windows && Beside(o, info, dir, w) ==> Rank(history, w) <= Rank(history, r.value)
    ensures r.Some? ==> FirstOfRank(windows, info, history, o, dir, r.value)
    ensures r.Some? ==> forall log :: Recorded(log, history, windows, info) ==>
      forall w :: w in windows && Beside(o, info, dir, w) && w != r.value ==> Before(log, r.value, w)
  {
    BesideIsNextTo(o, info, dir);
    var leaderValue := -1;
    r := None;
    ghost var at := 0;
    var i := 0;
    while i < |windows|
      invariant 0 <= i <= |windows|
      invariant r.Some? ==> at < i && windows[at] == r.value
      invariant r.Some? ==> forall j :: 0 <= j < at && Beside(o, info, dir, windows[j]) ==> Rank(history, windows[j]) < leaderValue
      invariant leaderValue == if r.None? then -1 else Rank(history, r.value)
      invariant r.None? ==> forall k :: 0 <= k < i ==> !Beside(o, info, dir, windows[k])
      invariant r.Some? ==> r.value in windows[..i] && Beside(o, info, dir, r.value)
      invariant r.Some? ==> forall w :: w in windows[..i] && Beside(o, info, dir, w) ==> Rank(history, w) <= leaderValue
    {
      var w := windows[i];
      assert windows[..i + 1] == windows[..i] + [w];
      i := i + 1;
      if !Candidate(o, info, w) {
        continue;
      }
      if SharedEdge(o.box, info(w).box, dir) > 0.0 {
        var rank := HistoryRank(history, w);
        if rank > leaderValue {
          leaderValue, r, at := rank, Some(w), i - 1;
        }
      }
    }
    assert windows[..i] == windows;
    forall log | r.Some? && Recorded(log, history, windows, info)
      ensures forall w :: w in windows && Beside(o, info, dir, w) && w != r.value ==> Before(log, r.value, w)
    {
      HighestIsMostRecent(log, windows, info, o, dir, r.value);
    }
  }

  // No window before it in the list, and beside, has the same rank.
  ghost predicate FirstOfRank(windows: seq<WinId>, info: Sides, history: seq<WinId>, o: Origin, dir: Dir, r: WinId) {
    exists k :: 0 <= k < |windows| && windows[k] == r &&
      forall j :: 0 <= j < k && Beside(o, info, dir, windows[j]) ==> Rank(history, windows[j]) < Rank(history, r)
  }

  // The history is that of a run which has mapped all windows that are mapped.
  ghost predicate Recorded(log: seq<Event>, history: seq<WinId>, windows: seq<WinId>, info: Sides) {
    && Legal(log) && history == History(log)
    && forall w :: w in windows && info(w).mapped ==> Born(log, w) > 0
  }

  // In every run, the window of the highest rank among those of the history is the one
  // that was focused most recently.
  lemma HighestRankIsMostRecent(log: seq<Event>, r: WinId, w: WinId)
    requires Legal(log) && r in History(log) && w in History(log)
    ensures Rank(History(log), w) <= Rank(History(log), r) <==> (w == r || Before(log, r, w))
  {
    var h := History(log);
    HistoryIsMostRecentFirst(log);
    var i, j := IndexOf(h, r), IndexOf(h, w);
    if i < j {
      AheadIsBefore(log, h, i, j);
    } else if j < i {
      AheadIsBefore(log, h, j, i);
    }
  }

  lemma AheadIsBefore(log: seq<Event>, h: seq<WinId>, i: nat, j: nat)
    requires Ordered(log, h) && i < j < |h|
    ensures Before(log, h[i], h[j]) && !Before(log, h[j], h[i])
  {
  }

  // So the window found was focused more recently than any other one beside the box.
  lemma HighestIsMostRecent(log: seq<Event>, windows: seq<WinId>, info: Sides, o: Origin, dir: Dir, r: WinId)
    requires Recorded(log, History(log), windows, info)
    requires r in windows && Beside(o, info, dir, r)
    requires forall w :: w in windows && Beside(o, info, dir, w) ==> Rank(History(log), w) <= Rank(History(log), r)
    ensures forall w :: w in windows && Beside(o, info, dir, w) && w != r ==> Before(log, r, w)
  {
    HistoryIsMostRecentFirst(log);
    forall w | w in windows && Beside(o, info, dir, w) && w != r
      ensures Before(log, r, w)
    {
      HighestRankIsMostRecent(log, r, w);
    }
  }

  // A window missing from the history would be preferred to all that are in it; but in no run is
  // such a window mapped.
  lemma MissingRanksFirst(history: seq<WinId>, v: WinId, w: WinId)
    requires v !in history && w in history
    ensures Rank(history, v) > Rank(history, w)
    ensures forall log :: Legal(log) && History(log) == history ==> Born(log, v) == 0
  {
    forall log | Legal(log) && History(log) == history
      ensures Born(log, v) == 0
    {
      HistoryIsMostRecentFirst(log);
    }
  }
}
