// The ids of monitors across connects and disconnects (src/Compositor.cpp).
module MonitorIds {
  import opened Common

  const MONITOR_INVALID := -1

  // A real monitor; `output` is the identity of its output.
  datatype Mon = Mon(output: nat, name: string, id: int, fallback: bool)

  datatype Event = Connect(output: nat, name: string) | Destroy(output: nat)

  datatype RegistryOf<+List, +Ids> = Registry(mons: List, idMap: Ids)
  type Registry = RegistryOf<seq<Mon>, map<string, int>>

  ghost function UsedIds(mons: seq<Mon>): set<int> {
    set m | m in mons :: m.id
  }

  ghost predicate InUse(mons: seq<Mon>, id: int) {
    exists i :: 0 <= i < |mons| && mons[i].id == id
  }

  lemma UsedIsInUse(mons: seq<Mon>, id: int)
    ensures id in UsedIds(mons) <==> InUse(mons, id)
  {
  }

  ghost function From(used: set<int>, k: int): set<int> {
    set i | i in used && i >= k
  }

  ghost function LeastFree(used: set<int>, k: int): (r: int)
    ensures r >= k && r !in used && forall i :: k <= i < r ==> i in used
    decreases From(used, k)
  {
    if k in used then
      assert k in From(used, k) && k !in From(used, k + 1);
      assert From(used, k + 1) <= From(used, k);
      LeastFree(used, k + 1)
    else k
  }

  // CCompositor::getNextAvailableMonitorID: the id, and the map that remembers it.
  ghost function NextId(mons: seq<Mon>, idMap: map<string, int>, name: string): int {
    if name in idMap && idMap[name] !in UsedIds(mons) then idMap[name] else LeastFree(UsedIds(mons), 0)
  }

  // CCompositor::onNewMonitor: the monitor is in the list, with no id yet, while its id is
  // chosen. The first headless output becomes the fallback.
  ghost function Connected(r: Registry, output: nat, name: string): Registry {
    if name == "HEADLESS-1" then r.(mons := r.mons + [Mon(output, "FALLBACK", MONITOR_INVALID, true)])
    else
      var id := NextId(r.mons + [Mon(output, name, MONITOR_INVALID, false)], r.idMap, name);
      Registry(r.mons + [Mon(output, name, id, false)], r.idMap[name := id])
  }

  ghost function Without(mons: seq<Mon>, output: nat): seq<Mon> {
    if mons == [] then []
    else if mons[0].output == output then Without(mons[1..], output)
    else [mons[0]] + Without(mons[1..], output)
  }

  ghost function Step(r: Registry, e: Event): Registry {
    match e
    case Connect(output, name) => Connected(r, output, name)
    case Destroy(output) => r.(mons := Without(r.mons, output))
  }

  class Monitors {
    var mons: seq<Mon>
    var idMap: map<string, int>

    ghost function View(): Registry
      reads this
    {
      Registry(mons, idMap)
    }

    method GetNextAvailableMonitorID(name: string) returns (id: int)
      modifies this`idMap
      ensures id == NextId(mons, old(idMap), name)
      ensures idMap == old(idMap)[name := id]
    {
      if name in idMap {
        var inUse := false;
        var i := 0;
        while i < |mons|
          invariant 0 <= i <= |mons|
          invariant inUse <==> InUse(mons[..i], idMap[name])
        {
          assert mons[..i + 1] == mons[..i] + [mons[i]];
          inUse := inUse || mons[i].id == idMap[name];
          i := i + 1;
        }
        assert mons[..i] == mons;
        UsedIsInUse(mons, idMap[name]);
        if !inUse {
          assert idMap[name := idMap[name]] == idMap;
          return idMap[name];
        }
      }
      var used := {};
      var i := 0;
      while i < |mons|
        invariant 0 <= i <= |mons|
        invariant used == UsedIds(mons[..i])
      {
        assert mons[..i + 1] == mons[..i] + [mons[i]];
        used := used + {mons[i].id};
        i := i + 1;
      }
      assert mons[..i] == mons;
      id := 0;
      while id in used
        invariant LeastFree(used, 0) == LeastFree(used, id)
        decreases From(used, id)
      {
        assert id in From(used, id) && id !in From(used, id + 1);
        assert From(used, id + 1) <= From(used, id);
        id := id + 1;
      }
      idMap := idMap[name := id];
    }

    method OnNewMonitor(output: nat, name: string)
      modifies this
      ensures View() == Step(old(View()), Connect(output, name))
    {
      if name == "HEADLESS-1" {
        mons := mons + [Mon(output, "FALLBACK", MONITOR_INVALID, true)];
      } else {
        mons := mons + [Mon(output, name, MONITOR_INVALID, false)];
        var id := GetNextAvailableMonitorID(name);
        mons := mons[|mons| - 1 := mons[|mons| - 1].(id := id)];
        assert mons == old(mons) + [Mon(output, name, id, false)];
      }
    }

    method OnDestroy(output: nat)
      modifies this`mons
      ensures View() == Step(old(View()), Destroy(output))
    {
      ghost var before := mons;
      var kept := [];
      var i := 0;
      while i < |mons|
        invariant 0 <= i <= |mons| && mons == before
        invariant kept + Without(mons[i..], output) == Without(mons, output)
      {
        assert mons[i..][1..] == mons[i + 1..];
        if mons[i].output != output {
          kept := kept + [mons[i]];
        }
        i := i + 1;
      }
      assert kept == Without(mons, output);
      mons := kept;
    }
  }

  // ---- What every run keeps

  // The ids of ordinary monitors are distinct and not negative, and so is what is remembered.
  ghost predicate Inv(r: Registry) {
    && (forall i :: 0 <= i < |r.mons| ==> if r.mons[i].fallback then r.mons[i].id == MONITOR_INVALID else r.mons[i].id >= 0)
    && (forall i, j :: 0 <= i < j < |r.mons| && !r.mons[i].fallback && !r.mons[j].fallback ==> r.mons[i].id != r.mons[j].id)
    && (forall name :: name in r.idMap ==> r.idMap[name] >= 0)
  }

  // The id of a new monitor: a remembered one if it is free, else the least one that is,
  // which is at most the number of the other monitors.
  lemma NewIdEffect(r: Registry, output: nat, name: string)
    requires Inv(r) && name != "HEADLESS-1"
    ensures var id := Connected(r, output, name).mons[|r.mons|].id;
      && id >= 0 && !InUse(r.mons, id)
      && (name in r.idMap && !InUse(r.mons, r.idMap[name]) ==> id == r.idMap[name])
      && (!(name in r.idMap && id == r.idMap[name]) ==>
            id <= |r.mons| && forall k :: 0 <= k < id ==> InUse(r.mons, k))
  {
    var all := r.mons + [Mon(output, name, MONITOR_INVALID, false)];
    var id := NextId(all, r.idMap, name);
    forall k | k >= 0
      ensures k in UsedIds(all) <==> InUse(r.mons, k)
    {
      UsedIsInUse(all, k);
      if InUse(all, k) {
        var i :| 0 <= i < |all| && all[i].id == k;
        assert r.mons[i].id == k;
      }
      if InUse(r.mons, k) {
        var i :| 0 <= i < |r.mons| && r.mons[i].id == k;
        assert all[i].id == k;
      }
    }
    if !(name in r.idMap && id == r.idMap[name]) {
      assert id == LeastFree(UsedIds(all), 0);
      Pigeons(r.mons, id);
    }
  }

  // n distinct ids below n need n monitors.
  lemma Pigeons(mons: seq<Mon>, n: int)
    requires n >= 0 && forall k :: 0 <= k < n ==> InUse(mons, k)
    ensures n <= |mons|
  {
    BelowSize(n);
    forall k | k in Below(n)
      ensures k in UsedIds(mons)
    {
      UsedIsInUse(mons, k);
    }
    UsedSize(mons);
    SubsetSize(Below(n), UsedIds(mons));
  }

  ghost function Below(n: int): (r: set<int>)
    requires n >= 0
    ensures forall k :: k in r <==> 0 <= k < n
  {
    if n == 0 then {} else Below(n - 1) + {n - 1}
  }

  lemma {:induction false} BelowSize(n: int)
    requires n >= 0
    ensures |Below(n)| == n
  {
    if n > 0 {
      BelowSize(n - 1);
    }
  }

  lemma {:induction false} UsedSize(mons: seq<Mon>)
    ensures |UsedIds(mons)| <= |mons|
  {
    if mons != [] {
      UsedSize(mons[1..]);
      assert mons == [mons[0]] + mons[1..];
      assert UsedIds(mons) == {mons[0].id} + UsedIds(mons[1..]);
    }
  }

  lemma SubsetSize(a: set<int>, b: set<int>)
    requires a <= b
    ensures |a| <= |b|
  {
    assert b == a + (b - a);
  }

  lemma {:induction false} WithoutMembers(mons: seq<Mon>, output: nat, i: nat, j: nat) returns (i': nat, j': nat)
    requires i < j < |Without(mons, output)|
    ensures i' < j' < |mons| && mons[i'] == Without(mons, output)[i] && mons[j'] == Without(mons, output)[j]
    ensures mons[i'].output != output && mons[j'].output != output
  {
    if mons[0].output == output {
      i', j' := WithoutMembers(mons[1..], output, i, j);
      i', j' := i' + 1, j' + 1;
    } else if i > 0 {
      i', j' := WithoutMembers(mons[1..], output, i - 1, j - 1);
      i', j' := i' + 1, j' + 1;
    } else {
      j' := WithoutMember(mons[1..], output, j - 1);
      i', j' := 0, j' + 1;
    }
  }

  lemma {:induction false} WithoutMember(mons: seq<Mon>, output: nat, i: nat) returns (i': nat)
    requires i < |Without(mons, output)|
    ensures i' < |mons| && mons[i'] == Without(mons, output)[i] && mons[i'].output != output
  {
    if mons[0].output == output {
      i' := WithoutMember(mons[1..], output, i);
      i' := i' + 1;
    } else if i > 0 {
      i' := WithoutMember(mons[1..], output, i - 1);
      i' := i' + 1;
    } else {
      i' := 0;
    }
  }

  lemma StepKeepsInv(r: Registry, e: Event)
    requires Inv(r)
    ensures Inv(Step(r, e))
  {
    match e
    case Connect(output, name) =>
      if name != "HEADLESS-1" {
        NewIdEffect(r, output, name);
      }
    case Destroy(output) =>
      var s := Step(r, e);
      forall i | 0 <= i < |s.mons|
        ensures if s.mons[i].fallback then s.mons[i].id == MONITOR_INVALID else s.mons[i].id >= 0
      {
        var i' := WithoutMember(r.mons, output, i);
      }
      forall i, j | 0 <= i < j < |s.mons| && !s.mons[i].fallback && !s.mons[j].fallback
        ensures s.mons[i].id != s.mons[j].id
      {
        var i', j' := WithoutMembers(r.mons, output, i, j);
      }
  }

  ghost function Run(r: Registry, events: seq<Event>): Registry {
    if events == [] then r else Step(Run(r, events[..|events| - 1]), events[|events| - 1])
  }

  // In every run of connects and disconnects the ids stay distinct.
  lemma {:induction false} RunKeepsInv(r: Registry, events: seq<Event>)
    requires Inv(r)
    ensures var s := Run(r, events);
      && Inv(s)
      && forall i, j :: 0 <= i < j < |s.mons| && s.mons[i].id == s.mons[j].id ==> s.mons[i].fallback && s.mons[j].fallback
  {
    if events != [] {
      RunKeepsInv(r, events[..|events| - 1]);
      StepKeepsInv(Run(r, events[..|events| - 1]), events[|events| - 1]);
    }
  }

  // A monitor that comes back has the id it had before exactly if no other one took it.
  lemma {:induction false} ComesBack(r: Registry, events: seq<Event>, output: nat, name: string)
    requires Inv(r) && name in r.idMap && name != "HEADLESS-1"
    requires forall i :: 0 <= i < |events| ==> !(events[i].Connect? && events[i].name == name)
    ensures var s := Run(r, events);
      && name in s.idMap && s.idMap[name] == r.idMap[name]
      && (Connected(s, output, name).mons[|s.mons|].id == r.idMap[name] <==> !InUse(s.mons, r.idMap[name]))
  {
    if events != [] {
      ComesBack(r, events[..|events| - 1], output, name);
      assert events[|events| - 1] in events;
    }
    RunKeepsInv(r, events);
    NewIdEffect(Run(r, events), output, name);
  }
}
