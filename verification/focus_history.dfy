// The focus history, and focus in a direction by history (src/Compositor.cpp).
module FocusHistory {
  import opened Common
  import opened Ids
  import opened Lists

  // What happens to the history: a window is mapped, focused (recording history) or unmapped.
  datatype Event = Map(w: WinId) | Focus(w: WinId) | Unmap(w: WinId)

  // A window that is not in the history stays out of it; the program logs an error.
  function ToFront(history: seq<WinId>, w: WinId): seq<WinId> {
    if w in history then [w] + Others(history, [w]) else history
  }

  function After(history: seq<WinId>, e: Event): seq<WinId> {
    match e
    case Map(w) => history + [w]
    case Focus(w) => ToFront(history, w)
    case Unmap(w) => Others(history, [w])
  }

  function History(log: seq<Event>): seq<WinId> {
    if log == [] then [] else After(History(log[..|log| - 1]), log[|log| - 1])
  }

  class FocusList {
    var history: seq<WinId>

    // CWindow::onMap
    method OnMap(w: WinId)
      modifies this
      ensures history == After(old(history), Map(w))
    {
      history := history + [w];
    }

    // CWindow::onUnmap
    method OnUnmap(w: WinId)
      modifies this
      ensures history == After(old(history), Unmap(w))
    {
      ghost var h := history;
      var kept := [];
      var i := 0;
      while i < |history|
        invariant 0 <= i <= |history| && history == h
        invariant kept + Others(h[i..], [w]) == Others(h, [w])
      {
        assert h[i..][1..] == h[i + 1..];
        if history[i] != w {
          kept := kept + [history[i]];
        }
        i := i + 1;
      }
      history := kept;
    }

    // CCompositor::focusWindow, the part that keeps the history: one rotation.
    method Focus(w: WinId)
      requires Distinct(history)
      modifies this
      ensures history == After(old(history), Event.Focus(w))
    {
      var i := 0;
      while i < |history| && history[i] != w
        invariant 0 <= i <= |history| && w !in history[..i]
      {
        i := i + 1;
      }
      if i < |history| {
        CutIsOthers(history, i);
        history := [history[i]] + (history[..i] + history[i + 1..]);
      } else {
        assert history[..i] == history;
      }
    }
  }

  // ---- The order of the history

  // The time of w's last focus since it was mapped, 0 if there was none.
  function Stamp(log: seq<Event>, w: WinId): nat {
    if log == [] then 0
    else if log[|log| - 1] == Focus(w) then |log|
    else if log[|log| - 1] == Map(w) || log[|log| - 1] == Unmap(w) then 0
    else Stamp(log[..|log| - 1], w)
  }

  // The time at which w was mapped last, 0 if it is not mapped.
  function Born(log: seq<Event>, w: WinId): nat {
    if log == [] then 0
    else if log[|log| - 1] == Map(w) then |log|
    else if log[|log| - 1] == Unmap(w) then 0
    else Born(log[..|log| - 1], w)
  }

  // v was focused more recently than w; windows never focused come last, oldest first.
  predicate Before(log: seq<Event>, v: WinId, w: WinId) {
    Stamp(log, v) > Stamp(log, w) || (Stamp(log, v) == 0 == Stamp(log, w) && Born(log, v) < Born(log, w))
  }

  predicate Ordered(log: seq<Event>, list: seq<WinId>) {
    forall i, j :: 0 <= i < j < |list| ==> Before(log, list[i], list[j])
  }

  // Only mapped windows are focused or unmapped, and only unmapped ones are mapped.
  predicate Legal(log: seq<Event>) {
    log == [] ||
    var (past, e) := (log[..|log| - 1], log[|log| - 1]);
    Legal(past) && (if e.Map? then Born(past, e.w) == 0 else Born(past, e.w) > 0)
  }

  lemma {:induction false} StampBound(log: seq<Event>, w: WinId)
    ensures Stamp(log, w) <= |log| && Born(log, w) <= |log|
  {
    if log != [] {
      StampBound(log[..|log| - 1], w);
    }
  }

  lemma {:induction false} OthersOrdered(log: seq<Event>, list: seq<WinId>, w: WinId)
    requires Ordered(log, list) && Distinct(list)
    ensures Ordered(log, Others(list, [w])) && Distinct(Others(list, [w]))
  {
    if w in list {
      var i :| 0 <= i < |list| && list[i] == w;
      CutIsOthers(list, i);
    } else {
      OthersKeepsAll(list, [w]);
    }
  }

  // The history names the mapped windows, each once, the most recently focused first.
  lemma {:induction false} HistoryIsMostRecentFirst(log: seq<Event>)
    requires Legal(log)
    ensures Distinct(History(log)) && Ordered(log, History(log))
    ensures forall w :: w in History(log) <==> Born(log, w) > 0
  {
    if log != [] {
      var past, e := log[..|log| - 1], log[|log| - 1];
      HistoryIsMostRecentFirst(past);
      var h, r := History(past), History(log);
      OthersOrdered(past, h, e.w);
      OthersMembers(h, [e.w]);
      forall v
        ensures Stamp(past, v) < |log| && Born(past, v) < |log|
      {
        StampBound(past, v);
      }
      forall w
        ensures w in r <==> Born(log, w) > 0
      {
        assert w in h <==> Born(past, w) > 0;
      }
      assert forall v :: v != e.w ==> Stamp(log, v) == Stamp(past, v) && Born(log, v) == Born(past, v);
      forall i, j | 0 <= i < j < |r|
        ensures r[i] != r[j] && Before(log, r[i], r[j])
      {
        match e
        case Map(w) =>
        case Focus(w) =>
        case Unmap(w) =>
      }
    }
  }
}
