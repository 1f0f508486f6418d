// What undo and redo work on: the annotation lists, the id counter and the windows' geometry, and
// the commands that change them (src/canvas/CanvasAnnotation.cpp, src/canvas/CanvasCommand.cpp).
module CanvasDoc {
  import opened Annotation
  import opened Common
  import opened Ids

  datatype Kind = Strokes | Arrows | Stickies | Texts

  // One list for each kind of annotation.
  datatype StoreOf<+L> = Store(strokes: L, arrows: L, stickies: L, texts: L) {
    function At(k: Kind): L {
      match k
      case Strokes => strokes
      case Arrows => arrows
      case Stickies => stickies
      case Texts => texts
    }
  }

  type Store = StoreOf<seq<Item>>

  function With(s: Store, k: Kind, list: seq<Item>): (t: Store)
    ensures t.At(k) == list
    ensures forall j :: j != k ==> t.At(j) == s.At(j)
  {
    match k
    case Strokes => s.(strokes := list)
    case Arrows => s.(arrows := list)
    case Stickies => s.(stickies := list)
    case Texts => s.(texts := list)
  }

  const EMPTY: Store := Store([], [], [], [])

  datatype Geometry = Geometry(position: Vec, size: Vec)

  datatype DocOf<+S, +W> = Doc(store: S, nextId: nat, windows: W)

  type Doc = DocOf<Store, map<WinId, Geometry>>

  // The first id that is handed out.
  const FIRST_ID := 1

  datatype CommandOf<+S> =
    | Add(kind: Kind, id: nat, data: Data)
    | Remove(kind: Kind, id: nat, data: Data)
    | Clear(saved: S)
    | Move(window: WinId, start: Vec, finish: Vec)
    | Resize(window: WinId, before: Geometry, after: Geometry)

  type Command = CommandOf<Store>

  // ---- the annotation lists ----

  // addStroke, addArrow, addStickyNote, addText: the id in the data is overwritten
  function AddItem(d: Doc, k: Kind, data: Data): Doc {
    d.(store := With(d.store, k, d.store.At(k) + [Item(d.nextId, data)]), nextId := d.nextId + 1)
  }

  // removeStroke and the others
  function RemoveItem(d: Doc, k: Kind, id: nat): Doc {
    d.(store := With(d.store, k, Without(d.store.At(k), id)))
  }

  function Without(list: seq<Item>, id: nat): seq<Item> {
    if list == [] then []
    else
      var last := |list| - 1;
      Without(list[..last], id) + if list[last].id == id then [] else [list[last]]
  }

  // The loop over one saved list when a clear is undone.
  function AddAll(d: Doc, k: Kind, saved: seq<Item>): Doc {
    if saved == [] then d
    else
      var last := |saved| - 1;
      AddItem(AddAll(d, k, saved[..last]), k, saved[last].data)
  }

  function Restored(d: Doc, saved: Store): Doc {
    var d1 := AddAll(d, Strokes, saved.strokes);
    var d2 := AddAll(d1, Arrows, saved.arrows);
    var d3 := AddAll(d2, Stickies, saved.stickies);
    AddAll(d3, Texts, saved.texts)
  }

  // ---- the windows ----

  // A window that is gone is left alone.
  function Positioned(d: Doc, w: WinId, position: Vec): Doc {
    if w in d.windows then d.(windows := d.windows[w := d.windows[w].(position := position)]) else d
  }

  function Placed(d: Doc, w: WinId, g: Geometry): Doc {
    if w in d.windows then d.(windows := d.windows[w := g]) else d
  }

  // ---- execute and undo of every command ----

  function Execute(c: Command, d: Doc): Doc {
    match c
    case Add(k, _, data) => AddItem(d, k, data)
    case Remove(k, id, _) => RemoveItem(d, k, id)
    case Clear(_) => d.(store := EMPTY)
    case Move(w, _, finish) => Positioned(d, w, finish)
    case Resize(w, _, after) => Placed(d, w, after)
  }

  function Revert(c: Command, d: Doc): Doc {
    match c
    case Add(k, id, _) => RemoveItem(d, k, id)
    case Remove(k, _, data) => AddItem(d, k, data)
    case Clear(saved) => Restored(d, saved)
    case Move(w, start, _) => Positioned(d, w, start)
    case Resize(w, before, _) => Placed(d, w, before)
  }

  // ---- equality up to ids ----

  predicate SameData(a: seq<Item>, b: seq<Item>) {
    |a| == |b| && forall i :: 0 <= i < |a| ==> a[i].data == b[i].data
  }

  predicate SameStore(a: Store, b: Store) {
    && SameData(a.strokes, b.strokes) && SameData(a.arrows, b.arrows)
    && SameData(a.stickies, b.stickies) && SameData(a.texts, b.texts)
  }

  lemma SameStoreAt(a: Store, b: Store)
    ensures SameStore(a, b) <==> forall k :: SameData(a.At(k), b.At(k))
  {
    if forall k :: SameData(a.At(k), b.At(k)) {
      assert SameData(a.At(Strokes), b.At(Strokes)) && SameData(a.At(Arrows), b.At(Arrows));
      assert SameData(a.At(Stickies), b.At(Stickies)) && SameData(a.At(Texts), b.At(Texts));
    }
  }

  predicate SameContents(a: Doc, b: Doc) {
    SameStore(a.store, b.store) && a.windows == b.windows
  }

  // ---- ids ----

  predicate LiveIn(list: seq<Item>, id: nat) {
    exists i :: 0 <= i < |list| && list[i].id == id
  }

  ghost predicate Dead(d: Doc, id: nat) {
    forall k :: !LiveIn(d.store.At(k), id)
  }

  predicate Holds(d: Doc, k: Kind, i: int, id: int) {
    0 <= i < |d.store.At(k)| && d.store.At(k)[i].id == id
  }

  // Live ids have been handed out, and no two annotations of any kind share one.
  ghost predicate Numbered(d: Doc) {
    && FIRST_ID <= d.nextId
    && (forall k, i, id :: Holds(d, k, i, id) ==> FIRST_ID <= id < d.nextId)
    && (forall k, i, l, j, id :: Holds(d, k, i, id) && Holds(d, l, j, id) ==> k == l && i == j)
  }

  // Whatever is new has a fresh id.
  ghost predicate Grows(d: Doc, e: Doc) {
    && d.nextId <= e.nextId
    && forall k, i :: 0 <= i < |e.store.At(k)| ==> e.store.At(k)[i] in d.store.At(k) || e.store.At(k)[i].id >= d.nextId
  }

  lemma {:induction false} WithoutKeeps(list: seq<Item>, id: nat)
    requires !LiveIn(list, id)
    ensures Without(list, id) == list
  {
    if list != [] {
      var last := |list| - 1;
      forall i | 0 <= i < last
        ensures list[..last][i].id != id
      {
        assert list[i].id != id;
      }
      WithoutKeeps(list[..last], id);
      assert list[last].id != id;
    }
  }

  lemma {:induction false} WithoutCuts(list: seq<Item>, i: nat)
    requires i < |list| && forall j :: 0 <= j < |list| && list[j].id == list[i].id ==> j == i
    ensures Without(list, list[i].id) == list[..i] + list[i + 1..]
  {
    var last := |list| - 1;
    var id := list[i].id;
    var init := list[..last];
    if i == last {
      assert !LiveIn(init, id) by {
        forall j | 0 <= j < last
          ensures init[j].id != id
        {
          assert list[j].id == init[j].id;
        }
      }
      WithoutKeeps(init, id);
    } else {
      assert init[i] == list[i];
      forall j | 0 <= j < last && init[j].id == id
        ensures j == i
      {
        assert list[j].id == id;
      }
      WithoutCuts(init, i);
      assert list[last].id != id;
      assert list[i + 1..] == init[i + 1..] + [list[last]];
    }
  }

  // Undoing the newest addition gives back the list as it was, ids included.
  lemma RemoveNewest(list: seq<Item>, id: nat, data: Data)
    requires !LiveIn(list, id)
    ensures Without(list + [Item(id, data)], id) == list
  {
    var more := list + [Item(id, data)];
    assert more[..|list|] == list;
    WithoutKeeps(list, id);
  }

  lemma {:induction false} WithoutMembers(list: seq<Item>, id: nat)
    ensures forall i :: 0 <= i < |Without(list, id)| ==> Without(list, id)[i] in list && Without(list, id)[i].id != id
  {
    if list != [] {
      var last := |list| - 1;
      WithoutMembers(list[..last], id);
      forall i | 0 <= i < |Without(list, id)|
        ensures Without(list, id)[i] in list && Without(list, id)[i].id != id
      {
        if i < |Without(list[..last], id)| {
          assert Without(list, id)[i] == Without(list[..last], id)[i];
        }
      }
    }
  }

  lemma RemoveSound(d: Doc, k: Kind, id: nat)
    requires Numbered(d)
    ensures var e := RemoveItem(d, k, id);
      Numbered(e) && Grows(d, e) && !LiveIn(e.store.At(k), id)
  {
    var e := RemoveItem(d, k, id);
    var list := d.store.At(k);
    WithoutMembers(list, id);
    if LiveIn(list, id) {
      var c :| 0 <= c < |list| && list[c].id == id;
      CutAt(d, k, id, c);
      forall l, i, x | Holds(e, l, i, x)
        ensures Holds(d, l, if l == k && c <= i then i + 1 else i, x)
      {
      }
    } else {
      WithoutKeeps(list, id);
      forall l, i, x | Holds(e, l, i, x)
        ensures Holds(d, l, i, x)
      {
      }
    }
  }

  lemma CutAt(d: Doc, k: Kind, id: nat, c: nat)
    requires Numbered(d) && Holds(d, k, c, id)
    ensures var list := d.store.At(k);
      Without(list, id) == list[..c] + list[c + 1..]
  {
    var list := d.store.At(k);
    forall j | 0 <= j < |list| && list[j].id == id
      ensures j == c
    {
      assert Holds(d, k, j, id);
    }
    WithoutCuts(list, c);
  }

  lemma AddSound(d: Doc, k: Kind, data: Data)
    requires Numbered(d)
    ensures Numbered(AddItem(d, k, data)) && Grows(d, AddItem(d, k, data))
  {
    var e := AddItem(d, k, data);
    forall l, i, x | Holds(e, l, i, x)
      ensures if l == k && i == |d.store.At(k)| then x == d.nextId else Holds(d, l, i, x)
    {
    }
  }

  lemma GrowsOn(d: Doc, e: Doc, f: Doc)
    requires Grows(d, e) && Grows(e, f)
    ensures Grows(d, f)
  {
    forall k, i | 0 <= i < |f.store.At(k)|
      ensures f.store.At(k)[i] in d.store.At(k) || f.store.At(k)[i].id >= d.nextId
    {
      var x := f.store.At(k)[i];
      if x in e.store.At(k) {
        var j :| 0 <= j < |e.store.At(k)| && e.store.At(k)[j] == x;
        assert e.store.At(k)[j] in d.store.At(k) || x.id >= d.nextId;
      }
    }
  }

  lemma {:induction false} AddAllSound(d: Doc, k: Kind, saved: seq<Item>)
    requires Numbered(d)
    ensures Numbered(AddAll(d, k, saved)) && Grows(d, AddAll(d, k, saved))
    ensures forall j :: j != k ==> AddAll(d, k, saved).store.At(j) == d.store.At(j)
    ensures AddAll(d, k, saved).windows == d.windows
  {
    if saved != [] {
      var last := |saved| - 1;
      var e := AddAll(d, k, saved[..last]);
      AddAllSound(d, k, saved[..last]);
      AddSound(e, k, saved[last].data);
      GrowsOn(d, e, AddItem(e, k, saved[last].data));
    }
  }

  // Re-adding a saved list appends its contents, in order.
  lemma {:induction false} AddAllAppends(d: Doc, k: Kind, saved: seq<Item>)
    ensures var list := AddAll(d, k, saved).store.At(k);
      |list| == |d.store.At(k)| + |saved| && list[..|d.store.At(k)|] == d.store.At(k)
      && SameData(list[|d.store.At(k)|..], saved)
    ensures AddAll(d, k, saved).nextId == d.nextId + |saved|
  {
    if saved != [] {
      var last := |saved| - 1;
      AddAllAppends(d, k, saved[..last]);
      var n := |d.store.At(k)|;
      var before, list := AddAll(d, k, saved[..last]).store.At(k), AddAll(d, k, saved).store.At(k);
      assert before == list[..n + last];
      assert list[..n] == before[..n];
      forall i | 0 <= i < |saved|
        ensures list[n..][i].data == saved[i].data
      {
        if i < last {
          assert list[n..][i] == before[n..][i];
          assert saved[..last][i] == saved[i];
        }
      }
    }
  }

  // An undone clear appends everything that was saved.
  lemma RestoredAppends(d: Doc, saved: Store)
    ensures Restored(d, saved).windows == d.windows
    ensures forall k :: Appends(d.store.At(k), saved.At(k), Restored(d, saved).store.At(k))
  {
    var d1 := AddAll(d, Strokes, saved.strokes);
    var d2 := AddAll(d1, Arrows, saved.arrows);
    var d3 := AddAll(d2, Stickies, saved.stickies);
    AddAllElsewhere(d, Strokes, saved.strokes);
    AddAllElsewhere(d1, Arrows, saved.arrows);
    AddAllElsewhere(d2, Stickies, saved.stickies);
    AddAllElsewhere(d3, Texts, saved.texts);
    AddAllAppends(d, Strokes, saved.strokes);
    AddAllAppends(d1, Arrows, saved.arrows);
    AddAllAppends(d2, Stickies, saved.stickies);
    AddAllAppends(d3, Texts, saved.texts);
    forall k
      ensures Appends(d.store.At(k), saved.At(k), Restored(d, saved).store.At(k))
    {
      match k
      case Strokes =>
      case Arrows =>
      case Stickies =>
      case Texts =>
    }
  }

  predicate Appends(before: seq<Item>, saved: seq<Item>, after: seq<Item>) {
    |after| == |before| + |saved| && after[..|before|] == before && SameData(after[|before|..], saved)
  }

  lemma {:induction false} AddAllElsewhere(d: Doc, k: Kind, saved: seq<Item>)
    ensures AddAll(d, k, saved).windows == d.windows
    ensures forall j :: j != k ==> AddAll(d, k, saved).store.At(j) == d.store.At(j)
  {
    if saved != [] {
      AddAllElsewhere(d, k, saved[..|saved| - 1]);
    }
  }

  lemma RestoredSound(d: Doc, saved: Store)
    requires Numbered(d)
    ensures Numbered(Restored(d, saved)) && Grows(d, Restored(d, saved))
  {
    var d1 := AddAll(d, Strokes, saved.strokes);
    var d2 := AddAll(d1, Arrows, saved.arrows);
    var d3 := AddAll(d2, Stickies, saved.stickies);
    AddAllSound(d, Strokes, saved.strokes);
    AddAllSound(d1, Arrows, saved.arrows);
    GrowsOn(d, d1, d2);
    AddAllSound(d2, Stickies, saved.stickies);
    GrowsOn(d, d2, d3);
    AddAllSound(d3, Texts, saved.texts);
    GrowsOn(d, d3, Restored(d, saved));
  }

  // Every command, done or undone, keeps the ids in order.
  lemma CommandSound(c: Command, d: Doc)
    requires Numbered(d)
    ensures Numbered(Execute(c, d)) && Grows(d, Execute(c, d))
    ensures Numbered(Revert(c, d)) && Grows(d, Revert(c, d))
  {
    match c
    case Add(k, id, data) =>
      AddSound(d, k, data);
      RemoveSound(d, k, id);
    case Remove(k, id, data) =>
      AddSound(d, k, data);
      RemoveSound(d, k, id);
    case Clear(saved) =>
      RestoredSound(d, saved);
      EmptySound(d);
    case Move(w, start, finish) =>
      WindowsSound(d, Positioned(d, w, start).windows);
      WindowsSound(d, Positioned(d, w, finish).windows);
    case Resize(w, before, after) =>
      WindowsSound(d, Placed(d, w, before).windows);
      WindowsSound(d, Placed(d, w, after).windows);
  }

  lemma EmptySound(d: Doc)
    requires Numbered(d)
    ensures Numbered(d.(store := EMPTY)) && Grows(d, d.(store := EMPTY))
  {
    var e := d.(store := EMPTY);
    forall k
      ensures e.store.At(k) == []
    {
      match k
      case Strokes =>
      case Arrows =>
      case Stickies =>
      case Texts =>
    }
  }

  lemma WindowsSound(d: Doc, windows: map<WinId, Geometry>)
    requires Numbered(d)
    ensures Numbered(d.(windows := windows)) && Grows(d, d.(windows := windows))
  {
    var e := d.(windows := windows);
    assert forall k, i, id :: Holds(e, k, i, id) ==> Holds(d, k, i, id);
  }

  // An id that is out of use stays out of use.
  lemma DeadStays(d: Doc, e: Doc, id: nat)
    requires Grows(d, e) && id < d.nextId && Dead(d, id)
    ensures Dead(e, id)
  {
    forall k
      ensures !LiveIn(e.store.At(k), id)
    {
      var list := d.store.At(k);
      assert !LiveIn(list, id);
      forall i | 0 <= i < |e.store.At(k)|
        ensures e.store.At(k)[i].id != id
      {
        var x := e.store.At(k)[i];
        if x in list {
          var j :| 0 <= j < |list| && list[j] == x;
        }
      }
    }
  }
}
