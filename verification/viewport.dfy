// The view onto the canvas (src/canvas/CanvasViewport.cpp).
module Viewport {
  import opened Common

  const MIN_SCALE := 0.1
  const MAX_SCALE := 3.0
  const FIT_PADDING := 0.9

  datatype View = View(scale: real, offset: Vec)

  predicate Scaled(v: View) {
    MIN_SCALE <= v.scale <= MAX_SCALE
  }

  function ToScreen(v: View, p: Vec): Vec {
    Vec(p.x * v.scale + v.offset.x, p.y * v.scale + v.offset.y)
  }

  function ToCanvas(v: View, p: Vec): Vec
    requires v.scale > 0.0
  {
    Vec((p.x - v.offset.x) / v.scale, (p.y - v.offset.y) / v.scale)
  }

  function BoxToScreen(v: View, b: Box): Box {
    Box(b.x * v.scale + v.offset.x, b.y * v.scale + v.offset.y, b.w * v.scale, b.h * v.scale)
  }

  function Center(b: Box): Vec {
    Vec(b.x + b.w / 2.0, b.y + b.h / 2.0)
  }

  // The offset that shows a canvas point at a screen point.
  function Showing(scale: real, canvas: Vec, screen: Vec): View {
    View(scale, OffsetShowing(scale, canvas, screen))
  }

  function OffsetShowing(scale: real, canvas: Vec, screen: Vec): Vec {
    Vec(screen.x - canvas.x * scale, screen.y - canvas.y * scale)
  }

  function ZoomScale(scale: real, factor: real): real {
    Clamp(scale * factor, MIN_SCALE, MAX_SCALE)
  }

  // ---- the operations; the monitor is the one used last, if there is one ----

  function Panned(v: View, delta: Vec): View {
    v.(offset := v.offset.Plus(delta))
  }

  function Zoomed(v: View, factor: real, anchor: Vec): View
    requires v.scale > 0.0
  {
    Showing(ZoomScale(v.scale, factor), ToCanvas(v, anchor), anchor)
  }

  function Centered(v: View, p: Vec, monitor: Option<Box>): View {
    if monitor.None? then v else Showing(v.scale, p, Center(monitor.value))
  }

  function FitScale(b: Box, monitor: Box): real
    requires b.w > 0.0 && b.h > 0.0
  {
    Clamp(Min(monitor.w / b.w, monitor.h / b.h) * FIT_PADDING, MIN_SCALE, MAX_SCALE)
  }

  function Fitted(v: View, b: Box, monitor: Option<Box>): View {
    if monitor.None? || b.w <= 0.0 || b.h <= 0.0 then v
    else Showing(FitScale(b, monitor.value), Center(b), Center(monitor.value))
  }

  function Snapped(b: Box): View {
    View(1.0, Vec(-b.x, -b.y))
  }

  datatype Op =
    | Pan(delta: Vec)
    | Zoom(factor: real, anchor: Vec)
    | SetCenter(p: Vec, monitor: Option<Box>)
    | Fit(b: Box, monitor: Option<Box>)
    | Snap(b: Box)

  function Step(v: View, o: Op): (u: View)
    requires Scaled(v)
    ensures Scaled(u)
  {
    match o
    case Pan(delta) => Panned(v, delta)
    case Zoom(factor, anchor) => Zoomed(v, factor, anchor)
    case SetCenter(p, monitor) => Centered(v, p, monitor)
    case Fit(b, monitor) => Fitted(v, b, monitor)
    case Snap(b) => Snapped(b)
  }

  // In every run the scale stays within its bounds, whatever the zoom factors.
  function Run(v: View, ops: seq<Op>): (u: View)
    requires Scaled(v)
    ensures Scaled(u)
  {
    if ops == [] then v else Step(Run(v, ops[..|ops| - 1]), ops[|ops| - 1])
  }

  // ---- the maps ----

  // The two maps undo each other.
  lemma MapsInverse(v: View, p: Vec)
    requires v.scale > 0.0
    ensures ToCanvas(v, ToScreen(v, p)) == p && ToScreen(v, ToCanvas(v, p)) == p
  {
  }

  // Zooming keeps the canvas point under the anchor where it is, clamped or not.
  lemma ZoomFixesAnchor(v: View, factor: real, anchor: Vec)
    requires Scaled(v)
    ensures ToCanvas(Zoomed(v, factor, anchor), anchor) == ToCanvas(v, anchor)
  {
  }

  // A pan moves what is on the screen by its delta.
  lemma PanMoves(v: View, delta: Vec, p: Vec)
    ensures var shown, was := ToScreen(Panned(v, delta), p), ToScreen(v, p);
      shown.x == was.x + delta.x && shown.y == was.y + delta.y && Panned(v, delta).scale == v.scale
  {
  }

  // A zoom multiplies the scale, as far as that stays between a tenth and three.
  lemma ZoomMultiplies(v: View, factor: real, anchor: Vec)
    requires Scaled(v)
    ensures var scale, wanted := Zoomed(v, factor, anchor).scale, v.scale * factor;
      && 0.1 <= scale <= 3.0
      && (0.1 <= wanted <= 3.0 ==> scale == wanted) && (wanted < 0.1 ==> scale == 0.1) && (wanted > 3.0 ==> scale == 3.0)
  {
  }

  // Centring shows the point in the middle of the monitor, and without a monitor nothing changes.
  lemma CentringShows(v: View, p: Vec, monitor: Option<Box>)
    ensures var u := Centered(v, p, monitor);
      && u.scale == v.scale
      && match monitor
         case None => u == v
         case Some(m) => ToScreen(u, p) == Vec(m.x + m.w / 2.0, m.y + m.h / 2.0)
  {
  }

  // Snapping shows the canvas at its own size, with the corner of the box in the corner of the screen.
  lemma SnappingShows(b: Box, p: Vec)
    ensures ToScreen(Snapped(b), p) == Vec(p.x - b.x, p.y - b.y)
  {
  }

  // ---- fitting a box ----

  predicate Within(a: Box, b: Box) {
    b.x <= a.x && a.x + a.w <= b.x + b.w && b.y <= a.y && a.y + a.h <= b.y + b.h
  }

  predicate Spans(start: real, length: real, low: real, extent: real) {
    low <= start && start + length <= low + extent
  }

  // A span centred on another one lies in it when it is no longer.
  lemma CentredFits(start: real, middle: real, length: real, low: real, extent: real)
    requires middle == start + length / 2.0
    ensures Spans(start + (low + extent / 2.0 - middle), length, low, extent) <==> length <= extent
  {
  }

  lemma MiddleScaled(x: real, w: real, scale: real)
    ensures (x + w / 2.0) * scale == x * scale + (w * scale) / 2.0
  {
  }

  // One axis of a box that is shown at a scale, centre on centre.
  lemma AxisFits(x: real, w: real, scale: real, low: real, extent: real)
    ensures Spans(x * scale + (low + extent / 2.0 - (x + w / 2.0) * scale), w * scale, low, extent)
       <==> w * scale <= extent
  {
    MiddleScaled(x, w, scale);
    CentredFits(x * scale, (x + w / 2.0) * scale, w * scale, low, extent);
  }

  lemma ScaleFits(scale: real, w: real, mw: real)
    requires w > 0.0
    ensures w * scale <= mw <==> scale <= mw / w
  {
    var q := mw / w;
    assert q * w == mw;
    if scale <= q {
      assert scale * w <= q * w;
    } else {
      assert scale * w > q * w;
    }
  }

  lemma QuotientOf(mw: real, w: real)
    requires mw >= 0.0 && w > 0.0
    ensures mw / w >= 0.0
  {
  }

  // The scale of a fit is at most the ratio m exactly when the smallest scale is.
  lemma ClampFits(m: real)
    requires m >= 0.0
    ensures Clamp(m * FIT_PADDING, MIN_SCALE, MAX_SCALE) <= m <==> MIN_SCALE <= m
  {
  }

  // The box fits at a scale when that is at most the ratio on both axes.
  lemma FitsAt(scale: real, b: Box, monitor: Box)
    requires b.w > 0.0 && b.h > 0.0
    ensures b.w * scale <= monitor.w && b.h * scale <= monitor.h <==> scale <= Min(monitor.w / b.w, monitor.h / b.h)
  {
    ScaleFits(scale, b.w, monitor.w);
    ScaleFits(scale, b.h, monitor.h);
  }

  lemma WithinSpans(a: Box, b: Box)
    ensures Within(a, b) <==> Spans(a.x, a.w, b.x, b.w) && Spans(a.y, a.h, b.y, b.h)
  {
  }

  lemma CentredWithin(scale: real, b: Box, monitor: Box)
    ensures Within(BoxToScreen(Showing(scale, Center(b), Center(monitor)), b), monitor)
       <==> b.w * scale <= monitor.w && b.h * scale <= monitor.h
  {
    AxisFits(b.x, b.w, scale, monitor.x, monitor.w);
    AxisFits(b.y, b.h, scale, monitor.y, monitor.h);
    var shown := BoxToScreen(Showing(scale, Center(b), Center(monitor)), b);
    WithinSpans(shown, monitor);
  }

  lemma ScaleReaches(scale: real, w: real, mw: real)
    requires w > 0.0
    ensures w * scale >= mw * 0.9 <==> scale >= mw / w * 0.9
    ensures w * scale <= mw * 0.9 <==> scale <= mw / w * 0.9
  {
    var q := mw / w;
    assert q * w == mw;
    var gap := scale - q * 0.9;
    assert w * scale - mw * 0.9 == gap * w;
    assert gap > 0.0 ==> gap * w > 0.0;
    assert gap < 0.0 ==> gap * w < 0.0;
  }

  // The size of a fit: the box takes nine tenths of the monitor on its longer axis and no more on the
  // other one, as far as the scale stays between a tenth and three; and it is centred.
  lemma FitFills(v: View, b: Box, monitor: Box)
    requires b.w > 0.0 && b.h > 0.0
    ensures var u := Fitted(v, b, Some(monitor));
      && 0.1 <= u.scale <= 3.0
      && (u.scale > 0.1 ==> b.w * u.scale <= monitor.w * 0.9 && b.h * u.scale <= monitor.h * 0.9)
      && (u.scale < 3.0 ==> b.w * u.scale >= monitor.w * 0.9 || b.h * u.scale >= monitor.h * 0.9)
      && ToScreen(u, Vec(b.x + b.w / 2.0, b.y + b.h / 2.0)) == Vec(monitor.x + monitor.w / 2.0, monitor.y + monitor.h / 2.0)
  {
    ScaleReaches(FitScale(b, monitor), b.w, monitor.w);
    ScaleReaches(FitScale(b, monitor), b.h, monitor.h);
  }

  // Without a monitor, or for a box without extent, nothing changes.
  lemma FitRefused(v: View, b: Box, monitor: Option<Box>)
    requires monitor.None? || b.w <= 0.0 || b.h <= 0.0
    ensures Fitted(v, b, monitor) == v
  {
  }

  // zoomToFit shows the whole box exactly when the smallest scale could.
  lemma FitShowsAll(v: View, b: Box, monitor: Box)
    requires b.w > 0.0 && b.h > 0.0 && monitor.w >= 0.0 && monitor.h >= 0.0
    ensures Within(BoxToScreen(Fitted(v, b, Some(monitor)), b), monitor)
       <==> b.w * MIN_SCALE <= monitor.w && b.h * MIN_SCALE <= monitor.h
  {
    QuotientOf(monitor.w, b.w);
    QuotientOf(monitor.h, b.h);
    CentredWithin(FitScale(b, monitor), b, monitor);
    FitsAt(FitScale(b, monitor), b, monitor);
    ClampFits(Min(monitor.w / b.w, monitor.h / b.h));
    FitsAt(MIN_SCALE, b, monitor);
  }

  class CanvasViewport {
    var offset: Vec
    var scale: real

    ghost function Now(): View
      reads this
    {
      View(scale, offset)
    }

    constructor ()
      ensures Now() == View(1.0, ORIGIN)
    {
      offset, scale := ORIGIN, 1.0;
    }

    method Pan(delta: Vec)
      modifies this
      ensures Now() == Panned(old(Now()), delta)
    {
      offset := offset.Plus(delta);
    }

    method Zoom(factor: real, anchor: Vec)
      requires Scaled(Now())
      modifies this
      ensures Now() == Zoomed(old(Now()), factor, anchor) && Scaled(Now())
    {
      var canvas := ToCanvas(View(scale, offset), anchor);
      scale := ZoomScale(scale, factor);
      offset := OffsetShowing(scale, canvas, anchor);
    }

    method SetViewCenter(p: Vec, monitor: Option<Box>)
      modifies this
      ensures Now() == Centered(old(Now()), p, monitor)
    {
      if monitor.None? {
        return;
      }
      offset := OffsetShowing(scale, p, Center(monitor.value));
    }

    method ZoomToFit(b: Box, monitor: Option<Box>)
      modifies this
      ensures Now() == Fitted(old(Now()), b, monitor)
    {
      if monitor.None? || b.w <= 0.0 || b.h <= 0.0 {
        return;
      }
      scale := FitScale(b, monitor.value);
      offset := OffsetShowing(scale, Center(b), Center(monitor.value));
    }

    method SnapViewToBox(b: Box)
      modifies this
      ensures Now() == Snapped(b)
    {
      scale, offset := 1.0, Vec(-b.x, -b.y);
    }
  }
}
