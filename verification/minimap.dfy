// The overview of the canvas (src/canvas/CanvasMinimap.cpp).
module Minimap {
  import opened Common
  import V = Viewport

  const WIDTH := 200.0
  const HEIGHT := 120.0
  const MARGIN := 16.0
  const PADDING := 200.0
  const FAR := 1000000000.0

  datatype Win = Win(hidden: bool, mapped: bool, box: Box)

  predicate Counts(w: Win) {
    !w.hidden && w.mapped
  }

  // The extent of a set of boxes: smallest and largest coordinates.
  datatype Extent = Extent(minX: real, minY: real, maxX: real, maxY: real)

  const NOTHING := Extent(FAR, FAR, -FAR, -FAR)

  function Grown(e: Extent, left: real, top: real, right: real, bottom: real): Extent {
    Extent(Min(e.minX, left), Min(e.minY, top), Max(e.maxX, right), Max(e.maxY, bottom))
  }

  function ExtentOf(windows: seq<Win>): Extent {
    if windows == [] then NOTHING
    else
      var last := windows[|windows| - 1];
      var e := ExtentOf(windows[..|windows| - 1]);
      if Counts(last) then Grown(e, last.box.x, last.box.y, last.box.x + last.box.w, last.box.y + last.box.h) else e
  }

  predicate AnyCounts(windows: seq<Win>) {
    exists i :: 0 <= i < |windows| && Counts(windows[i])
  }

  function WithView(e: Extent, v: V.View, monitor: Option<Box>): Extent
    requires v.scale > 0.0
  {
    if monitor.None? then e
    else
      var m := monitor.value;
      var tl, br := V.ToCanvas(v, Vec(m.x, m.y)), V.ToCanvas(v, Vec(m.x + m.w, m.y + m.h));
      Grown(e, tl.x, tl.y, br.x, br.y)
  }

  function Padded(e: Extent): Box {
    Box(e.minX - PADDING, e.minY - PADDING, (e.maxX - e.minX) + PADDING * 2.0, (e.maxY - e.minY) + PADDING * 2.0)
  }

  // canvasBounds
  function Bounds(windows: seq<Win>, v: V.View, monitor: Option<Box>): Box
    requires v.scale > 0.0
  {
    if AnyCounts(windows) then Padded(WithView(ExtentOf(windows), v, monitor)) else Box(0.0, 0.0, 0.0, 0.0)
  }

  method CanvasBounds(windows: seq<Win>, v: V.View, monitor: Option<Box>) returns (bounds: Box)
    requires v.scale > 0.0
    ensures bounds == Bounds(windows, v, monitor)
  {
    var minX, minY, maxX, maxY := FAR, FAR, -FAR, -FAR;
    var found := false;
    for i := 0 to |windows|
      invariant Extent(minX, minY, maxX, maxY) == ExtentOf(windows[..i])
      invariant found <==> AnyCounts(windows[..i])
    {
      var w := windows[i];
      assert windows[..i + 1][..i] == windows[..i] && windows[..i + 1][i] == w;
      assert forall j :: 0 <= j < i ==> windows[..i + 1][j] == windows[..i][j];
      if !w.hidden && w.mapped {
        minX, minY := Min(minX, w.box.x), Min(minY, w.box.y);
        maxX, maxY := Max(maxX, w.box.x + w.box.w), Max(maxY, w.box.y + w.box.h);
        found := true;
      }
    }
    assert windows[..|windows|] == windows;
    if !found {
      return Box(0.0, 0.0, 0.0, 0.0);
    }
    if monitor.Some? {
      var m := monitor.value;
      var tl, br := V.ToCanvas(v, Vec(m.x, m.y)), V.ToCanvas(v, Vec(m.x + m.w, m.y + m.h));
      minX, minY := Min(minX, tl.x), Min(minY, tl.y);
      maxX, maxY := Max(maxX, br.x), Max(maxY, br.y);
    }
    return Box(minX - PADDING, minY - PADDING, (maxX - minX) + PADDING * 2.0, (maxY - minY) + PADDING * 2.0);
  }

  // minimapScreenBox: in the lower right corner of the monitor
  function ScreenBox(monitorSize: Vec): Box {
    Box(monitorSize.x - WIDTH - MARGIN, monitorSize.y - HEIGHT - MARGIN, WIDTH, HEIGHT)
  }

  function FitScale(bounds: Box, area: Box): real
    requires bounds.w > 0.0 && bounds.h > 0.0
  {
    Min(area.w / bounds.w, area.h / bounds.h)
  }

  // Along one axis: the image of a coordinate, and the way back.
  function Image(c: real, start: real, extent: real, mapStart: real, mapExtent: real, fit: real): real {
    mapStart + (mapExtent - extent * fit) / 2.0 + (c - start) * fit
  }

  function Preimage(m: real, start: real, extent: real, mapStart: real, mapExtent: real, fit: real): real
    requires fit > 0.0
  {
    start + (m - mapStart - (mapExtent - extent * fit) / 2.0) / fit
  }

  // canvasToMinimap
  function ToMinimap(p: Vec, bounds: Box, area: Box): Vec {
    if bounds.w <= 0.0 || bounds.h <= 0.0 then Vec(area.x, area.y)
    else
      var fit := FitScale(bounds, area);
      Vec(Image(p.x, bounds.x, bounds.w, area.x, area.w, fit), Image(p.y, bounds.y, bounds.h, area.y, area.h, fit))
  }

  // The inverse inside handleClick.
  function FromMinimap(p: Vec, bounds: Box, area: Box): Vec
    requires bounds.w > 0.0 && bounds.h > 0.0 && FitScale(bounds, area) > 0.0
  {
    var fit := FitScale(bounds, area);
    Vec(Preimage(p.x, bounds.x, bounds.w, area.x, area.w, fit), Preimage(p.y, bounds.y, bounds.h, area.y, area.h, fit))
  }

  predicate InClosed(p: Vec, b: Box) {
    b.x <= p.x <= b.x + b.w && b.y <= p.y <= b.y + b.h
  }

  // handleClick: the new view, and whether the click was taken
  function Clicked(v: V.View, p: Vec, windows: seq<Win>, monitor: Option<Box>, monitorSize: Vec): (V.View, bool)
    requires v.scale > 0.0
  {
    var area, bounds := ScreenBox(monitorSize), Bounds(windows, v, monitor);
    if monitor.None? || !InClosed(p, area) || bounds.w <= 0.0 || bounds.h <= 0.0 then (v, false)
    else
      (V.Centered(v, FromMinimap(p, bounds, area), monitor), true)
  }

  // ---- the bounds hold everything ----

  predicate Spans(e: Extent, b: Box) {
    e.minX <= b.x && b.x + b.w <= e.maxX && e.minY <= b.y && b.y + b.h <= e.maxY
  }

  lemma {:induction false} ExtentSpans(windows: seq<Win>, i: nat)
    requires i < |windows| && Counts(windows[i])
    ensures Spans(ExtentOf(windows), windows[i].box)
  {
    if i < |windows| - 1 {
      assert windows[..|windows| - 1][i] == windows[i];
      ExtentSpans(windows[..|windows| - 1], i);
    }
  }

  lemma BoundsHold(windows: seq<Win>, v: V.View, monitor: Option<Box>, i: nat)
    requires v.scale > 0.0 && i < |windows| && Counts(windows[i])
    requires windows[i].box.w >= 0.0 && windows[i].box.h >= 0.0
    ensures var b := Bounds(windows, v, monitor);
      b.w > 0.0 && b.h > 0.0 && V.Within(windows[i].box, b)
  {
    ExtentSpans(windows, i);
    assert Spans(WithView(ExtentOf(windows), v, monitor), windows[i].box);
  }

  // The bounds reach two hundred beyond the extent of the windows and the part of the canvas that the
  // monitor shows; without windows there are none.
  lemma BoundsAre(windows: seq<Win>, v: V.View, monitor: Option<Box>)
    requires v.scale > 0.0
    ensures var b, e := Bounds(windows, v, monitor), ExtentOf(windows);
      if forall i :: 0 <= i < |windows| ==> windows[i].hidden || !windows[i].mapped then b == Box(0.0, 0.0, 0.0, 0.0)
      else
        match monitor
        case None => b.x == e.minX - 200.0 && b.y == e.minY - 200.0 && b.x + b.w == e.maxX + 200.0 && b.y + b.h == e.maxY + 200.0
        case Some(m) =>
          var (left, top) := ((m.x - v.offset.x) / v.scale, (m.y - v.offset.y) / v.scale);
          var (right, bottom) := ((m.x + m.w - v.offset.x) / v.scale, (m.y + m.h - v.offset.y) / v.scale);
          && b.x == (if left < e.minX then left else e.minX) - 200.0
          && b.y == (if top < e.minY then top else e.minY) - 200.0
          && b.x + b.w == (if right > e.maxX then right else e.maxX) + 200.0
          && b.y + b.h == (if bottom > e.maxY then bottom else e.maxY) + 200.0
  {
    assert forall i :: 0 <= i < |windows| ==> (Counts(windows[i]) <==> windows[i].mapped && !windows[i].hidden);
  }

  // Each side of the extent is that of a counted window.
  lemma {:induction false} ExtentTight(windows: seq<Win>)
    ensures var e := ExtentOf(windows);
      && (e.minX < FAR ==> exists i :: 0 <= i < |windows| && Counts(windows[i]) && windows[i].box.x == e.minX)
      && (e.minY < FAR ==> exists i :: 0 <= i < |windows| && Counts(windows[i]) && windows[i].box.y == e.minY)
      && (e.maxX > -FAR ==> exists i :: 0 <= i < |windows| && Counts(windows[i]) && windows[i].box.x + windows[i].box.w == e.maxX)
      && (e.maxY > -FAR ==> exists i :: 0 <= i < |windows| && Counts(windows[i]) && windows[i].box.y + windows[i].box.h == e.maxY)
  {
    if windows != [] {
      var last := |windows| - 1;
      var before := windows[..last];
      ExtentTight(before);
      assert forall i :: 0 <= i < last ==> before[i] == windows[i];
      var e, f := ExtentOf(windows), ExtentOf(before);
      if f.minX == e.minX < FAR {
        var i :| 0 <= i < |before| && Counts(before[i]) && before[i].box.x == f.minX;
        assert windows[i].box.x == e.minX;
      }
      if f.minY == e.minY < FAR {
        var i :| 0 <= i < |before| && Counts(before[i]) && before[i].box.y == f.minY;
        assert windows[i].box.y == e.minY;
      }
      if f.maxX == e.maxX > -FAR {
        var i :| 0 <= i < |before| && Counts(before[i]) && before[i].box.x + before[i].box.w == f.maxX;
        assert windows[i].box.x + windows[i].box.w == e.maxX;
      }
      if f.maxY == e.maxY > -FAR {
        var i :| 0 <= i < |before| && Counts(before[i]) && before[i].box.y + before[i].box.h == f.maxY;
        assert windows[i].box.y + windows[i].box.h == e.maxY;
      }
    }
  }

  // The minimap is 200 by 120, sixteen pixels from the lower right corner.
  lemma InTheCorner(monitorSize: Vec)
    ensures var b := ScreenBox(monitorSize);
      b.w == 200.0 && b.h == 120.0 && b.x + b.w + 16.0 == monitorSize.x && b.y + b.h + 16.0 == monitorSize.y
  {
  }

  // ---- the image ----

  lemma ImageWithin(c: real, start: real, extent: real, mapStart: real, mapExtent: real, fit: real)
    requires start <= c <= start + extent && fit > 0.0 && extent * fit <= mapExtent
    ensures mapStart <= Image(c, start, extent, mapStart, mapExtent, fit) <= mapStart + mapExtent
  {
    var a, b := (c - start) * fit, (start + extent - c) * fit;
    assert a >= 0.0 && b >= 0.0;
    assert a + b == extent * fit;
  }

  lemma PointWithin(p: Vec, bounds: Box, area: Box)
    requires bounds.w > 0.0 && bounds.h > 0.0 && area.w > 0.0 && area.h > 0.0 && InClosed(p, bounds)
    ensures InClosed(ToMinimap(p, bounds, area), area)
  {
    var fit := FitScale(bounds, area);
    ImageWithin(p.x, bounds.x, bounds.w, area.x, area.w, fit);
    ImageWithin(p.y, bounds.y, bounds.h, area.y, area.h, fit);
  }

  // Both corners of every window that is drawn lie inside the minimap.
  lemma WindowsInsideMinimap(windows: seq<Win>, v: V.View, monitor: Option<Box>, i: nat, monitorSize: Vec)
    requires v.scale > 0.0 && i < |windows| && Counts(windows[i])
    requires windows[i].box.w >= 0.0 && windows[i].box.h >= 0.0
    ensures var box, bounds, area := windows[i].box, Bounds(windows, v, monitor), ScreenBox(monitorSize);
      && InClosed(ToMinimap(Vec(box.x, box.y), bounds, area), area)
      && InClosed(ToMinimap(Vec(box.x + box.w, box.y + box.h), bounds, area), area)
  {
    var box, bounds, area := windows[i].box, Bounds(windows, v, monitor), ScreenBox(monitorSize);
    BoundsHold(windows, v, monitor, i);
    PointWithin(Vec(box.x, box.y), bounds, area);
    PointWithin(Vec(box.x + box.w, box.y + box.h), bounds, area);
  }

  // A click beside the minimap is not taken, nor one without a monitor or without windows.
  lemma ClickIgnored(v: V.View, p: Vec, windows: seq<Win>, monitor: Option<Box>, monitorSize: Vec)
    requires v.scale > 0.0
    requires var area, bounds := ScreenBox(monitorSize), Bounds(windows, v, monitor);
      || monitor.None? || bounds.w <= 0.0 || bounds.h <= 0.0
      || p.x < area.x || p.x > area.x + area.w || p.y < area.y || p.y > area.y + area.h
    ensures Clicked(v, p, windows, monitor, monitorSize) == (v, false)
  {
  }

  // A click on the image of a canvas point within the bounds is taken, and centres the view on
  // that point.
  lemma ClickCentres(v: V.View, c: Vec, windows: seq<Win>, monitor: Box, monitorSize: Vec)
    requires V.Scaled(v)
    requires var bounds := Bounds(windows, v, Some(monitor)); bounds.w > 0.0 && bounds.h > 0.0 && InClosed(c, bounds)
    ensures var bounds := Bounds(windows, v, Some(monitor));
      var r := Clicked(v, ToMinimap(c, bounds, ScreenBox(monitorSize)), windows, Some(monitor), monitorSize);
      r.1 && r.0.scale == v.scale && V.ToScreen(r.0, c) == V.Center(monitor)
  {
    var bounds, area := Bounds(windows, v, Some(monitor)), ScreenBox(monitorSize);
    PointWithin(c, bounds, area);
    MapsBack(c, bounds, area);
  }

  lemma ImageBack(c: real, start: real, extent: real, mapStart: real, mapExtent: real, fit: real)
    requires fit > 0.0
    ensures Preimage(Image(c, start, extent, mapStart, mapExtent, fit), start, extent, mapStart, mapExtent, fit) == c
  {
    var shift := (c - start) * fit;
    assert shift / fit == c - start;
  }

  lemma MapsBack(c: Vec, bounds: Box, area: Box)
    requires bounds.w > 0.0 && bounds.h > 0.0 && area.w > 0.0 && area.h > 0.0
    ensures FitScale(bounds, area) > 0.0 && FromMinimap(ToMinimap(c, bounds, area), bounds, area) == c
  {
    var fit := FitScale(bounds, area);
    assert area.w / bounds.w > 0.0 && area.h / bounds.h > 0.0;
    ImageBack(c.x, bounds.x, bounds.w, area.x, area.w, fit);
    ImageBack(c.y, bounds.y, bounds.h, area.y, area.h, fit);
  }

  method HandleClick(viewport: V.CanvasViewport, p: Vec, windows: seq<Win>, monitor: Option<Box>, monitorSize: Vec)
    returns (handled: bool)
    requires V.Scaled(viewport.Now())
    modifies viewport
    ensures (viewport.Now(), handled) == Clicked(old(viewport.Now()), p, windows, monitor, monitorSize)
  {
    if monitor.None? {
      return false;
    }
    var area := ScreenBox(monitorSize);
    if p.x < area.x || p.x > area.x + area.w || p.y < area.y || p.y > area.y + area.h {
      return false;
    }
    var bounds := CanvasBounds(windows, V.View(viewport.scale, viewport.offset), monitor);
    if bounds.w <= 0.0 || bounds.h <= 0.0 {
      return false;
    }
    viewport.SetViewCenter(FromMinimap(p, bounds, area), monitor);
    return true;
  }
}
