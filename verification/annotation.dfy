// Annotations, and the search for the nearest one (src/canvas/CanvasAnnotation.cpp).
// Distances are compared squared, so that no root is taken.
module Annotation {
  import opened Common

  datatype Color = Color(r: real, g: real, b: real, a: real)

  datatype Data =
    | Stroke(points: seq<Vec>, color: Color, thickness: real)
    | Arrow(start: Vec, end: Vec, color: Color, thickness: real)
    | Sticky(position: Vec, size: Vec, text: string, color: Color)
    | Text(position: Vec, text: string, color: Color, fontSize: real)

  datatype Item = Item(id: nat, data: Data)

  // The default threshold of the searches, squared.
  const THRESHOLD_SQ := 400.0

  function Dot(a: Vec, b: Vec): real {
    a.x * b.x + a.y * b.y
  }

  function DistSq(p: Vec, q: Vec): real {
    Dot(p.Minus(q), p.Minus(q))
  }

  function OnSegment(a: Vec, b: Vec, t: real): Vec {
    a.Plus(b.Minus(a).Scale(t))
  }

  // distanceToSegment, squared
  function SegmentSq(point: Vec, a: Vec, b: Vec): real {
    var ab, ap := b.Minus(a), point.Minus(a);
    var lengthSq := Dot(ab, ab);
    if lengthSq == 0.0 then Dot(ap, ap)
    else
      var t := Clamp(Dot(ap, ab) / lengthSq, 0.0, 1.0);
      var diff := point.Minus(a.Plus(Vec(ab.x * t, ab.y * t)));
      Dot(diff, diff)
  }

  function Quad(c: real, d: real, l: real, t: real): real {
    c - 2.0 * (t * d) + (t * t) * l
  }

  // The distance to a point of the segment is a parabola in t.
  lemma Parabola(p: Vec, a: Vec, b: Vec, t: real)
    ensures var ab, ap := b.Minus(a), p.Minus(a);
      DistSq(p, OnSegment(a, b, t)) == Quad(Dot(ap, ap), Dot(ap, ab), Dot(ab, ab), t)
  {
  }

  // The parabola is least at d / l, or at the end of [0, 1] next to it.
  lemma LeastAt(c: real, d: real, l: real, t: real, s: real)
    requires l > 0.0 && 0.0 <= s <= 1.0 && t == Clamp(d / l, 0.0, 1.0)
    ensures Quad(c, d, l, t) <= Quad(c, d, l, s)
  {
    var q := d / l;
    assert q * l == d;
    var gap := (s - t) * (s + t - 2.0 * q);
    assert gap >= 0.0 by {
      if t == q {
        assert gap == (s - q) * (s - q);
      } else if q < 0.0 {
        assert s - t >= 0.0 && s + t - 2.0 * q >= 0.0;
      } else {
        assert s - t <= 0.0 && s + t - 2.0 * q <= 0.0;
      }
    }
    assert gap * l >= 0.0;
    assert (s * s - t * t) * l - 2.0 * (s - t) * d == gap * l by {
      assert gap == s * s - t * t - 2.0 * (s - t) * q;
      assert (2.0 * (s - t) * q) * l == 2.0 * (s - t) * (q * l);
    }
  }

  // The coefficients of the parabola, by themselves.
  lemma Coefficients(p: Vec, a: Vec, b: Vec, s: real) returns (c: real, d: real, l: real)
    requires b.Minus(a) != ORIGIN
    ensures l > 0.0 && Foot(p, a, b) == Clamp(d / l, 0.0, 1.0)
    ensures DistSq(p, OnSegment(a, b, Foot(p, a, b))) == Quad(c, d, l, Foot(p, a, b))
    ensures DistSq(p, OnSegment(a, b, s)) == Quad(c, d, l, s)
  {
    var ab, ap := b.Minus(a), p.Minus(a);
    c, d, l := Dot(ap, ap), Dot(ap, ab), Dot(ab, ab);
    SquarePositive(ab);
    Parabola(p, a, b, s);
    Parabola(p, a, b, Foot(p, a, b));
  }

  // The foot of the perpendicular, brought into the segment.
  function Foot(p: Vec, a: Vec, b: Vec): real {
    var l := Dot(b.Minus(a), b.Minus(a));
    if l == 0.0 then 0.0 else Clamp(Dot(p.Minus(a), b.Minus(a)) / l, 0.0, 1.0)
  }

  lemma FootIsLeast(p: Vec, a: Vec, b: Vec, s: real)
    requires 0.0 <= s <= 1.0
    ensures SegmentSq(p, a, b) <= DistSq(p, OnSegment(a, b, s))
  {
    if b.Minus(a) == ORIGIN {
      PointIsLeast(p, a, b, s);
    } else {
      FootIsFoot(p, a, b);
      var c, d, l := Coefficients(p, a, b, s);
      LeastAt(c, d, l, Foot(p, a, b), s);
    }
  }

  lemma PointIsLeast(p: Vec, a: Vec, b: Vec, s: real)
    requires b.Minus(a) == ORIGIN
    ensures SegmentSq(p, a, b) == DistSq(p, OnSegment(a, b, s))
  {
  }

  lemma FootIsFoot(p: Vec, a: Vec, b: Vec)
    ensures 0.0 <= Foot(p, a, b) <= 1.0
    ensures SegmentSq(p, a, b) == DistSq(p, OnSegment(a, b, Foot(p, a, b)))
  {
  }

  // The distance to the segment is the distance to one of its points, and least.
  lemma SegmentIsLeast(p: Vec, a: Vec, b: Vec)
    ensures exists t :: 0.0 <= t <= 1.0 && SegmentSq(p, a, b) == DistSq(p, OnSegment(a, b, t))
    ensures forall s :: 0.0 <= s <= 1.0 ==> SegmentSq(p, a, b) <= DistSq(p, OnSegment(a, b, s))
  {
    FootIsFoot(p, a, b);
    forall s | 0.0 <= s <= 1.0
      ensures SegmentSq(p, a, b) <= DistSq(p, OnSegment(a, b, s))
    {
      FootIsLeast(p, a, b, s);
    }
  }

  lemma SquarePositive(v: Vec)
    requires v != ORIGIN
    ensures Dot(v, v) > 0.0
  {
    var s := OneSquare(v.x);
    var t := OneSquare(v.y);
    assert s + t > 0.0;
  }

  lemma OneSquare(x: real) returns (s: real)
    ensures s == x * x
    ensures s >= 0.0 && (s > 0.0 || x == 0.0)
  {
    s := x * x;
    if x > 0.0 {
      ProductPositive(x, x, s);
    } else if x < 0.0 {
      ProductPositive(-x, -x, s);
    }
  }

  lemma ProductPositive(x: real, y: real, s: real)
    requires s == x * y && x > 0.0 && y > 0.0
    ensures s > 0.0
  {
  }

  // What the searches measure: each piece of a stroke, the shaft of an arrow, the corner of a text.
  function Distances(d: Data, p: Vec): (s: seq<real>) {
    match d
    case Stroke(points, _, _) => PieceDistances(points, p)
    case Arrow(start, end, _, _) => [SegmentSq(p, start, end)]
    case Sticky(_, _, _, _) => []
    case Text(position, _, _, _) => [DistSq(p, position)]
  }

  function PieceDistances(points: seq<Vec>, p: Vec): (s: seq<real>)
    ensures |s| == Pieces(points)
  {
    seq(Pieces(points), Piece(points, p))
  }

  function Pieces(points: seq<Vec>): nat {
    if points == [] then 0 else |points| - 1
  }

  function Piece(points: seq<Vec>, p: Vec): nat --> real {
    i requires 0 <= i && i + 1 < |points| => SegmentSq(p, points[i], points[i + 1])
  }

  // The running minimum, started at a bound.
  function Reach(distances: seq<real>, bound: real): real {
    if distances == [] then bound
    else
      var last := |distances| - 1;
      Min(Reach(distances[..last], bound), distances[last])
  }

  // The distances of a list of items.
  function Measures(items: seq<Item>, p: Vec): (m: seq<seq<real>>)
    ensures |m| == |items|
  {
    seq(|items|, i requires 0 <= i < |items| => Distances(items[i].data, p))
  }

  function Best(measures: seq<seq<real>>, limit: real): real {
    if measures == [] then limit
    else
      var last := |measures| - 1;
      Reach(measures[last], Best(measures[..last], limit))
  }

  // findNearestStroke, findNearestArrow and findTextAt: the item that last lowered the minimum
  function Nearest(measures: seq<seq<real>>, limit: real): Option<nat> {
    if measures == [] then None
    else
      var last := |measures| - 1;
      if Best(measures, limit) < Best(measures[..last], limit) then Some(last) else Nearest(measures[..last], limit)
  }

  predicate NoCloser(distances: seq<real>, bound: real) {
    forall k :: 0 <= k < |distances| ==> bound <= distances[k]
  }

  predicate AllFarther(distances: seq<real>, bound: real) {
    forall k :: 0 <= k < |distances| ==> bound < distances[k]
  }

  lemma {:induction false} ReachIsMin(distances: seq<real>, bound: real)
    ensures var r := Reach(distances, bound);
      r <= bound && NoCloser(distances, r) && (r < bound ==> r in distances)
  {
    if distances != [] {
      var last := |distances| - 1;
      ReachIsMin(distances[..last], bound);
      var r0 := Reach(distances[..last], bound);
      assert NoCloser(distances[..last], r0);
      forall k | 0 <= k < |distances|
        ensures Reach(distances, bound) <= distances[k]
      {
        if k < last {
          assert distances[..last][k] == distances[k];
        }
      }
    }
  }

  // The search finds the first item that attains the least distance over all segments of all
  // items, and nothing exactly when no segment is closer than the threshold.
  lemma {:induction false} NearestIsLeast(measures: seq<seq<real>>, limit: real)
    ensures var m := Best(measures, limit);
      match Nearest(measures, limit)
      case None => m == limit && forall j :: 0 <= j < |measures| ==> NoCloser(measures[j], limit)
      case Some(i) =>
        && i < |measures| && m < limit && m in measures[i]
        && (forall j :: 0 <= j < i ==> AllFarther(measures[j], m))
        && (forall j :: 0 <= j < |measures| ==> NoCloser(measures[j], m))
  {
    if measures != [] {
      var last := |measures| - 1;
      var m, m0 := Best(measures, limit), Best(measures[..last], limit);
      NearestIsLeast(measures[..last], limit);
      ReachIsMin(measures[last], m0);
      forall j | 0 <= j < last
        ensures NoCloser(measures[j], m0)
      {
        assert measures[..last][j] == measures[j];
      }
      if m < m0 {
        forall j | 0 <= j < last
          ensures AllFarther(measures[j], m)
        {
          assert NoCloser(measures[j], m0);
        }
      } else if Nearest(measures[..last], limit).Some? {
        var i := Nearest(measures[..last], limit).value;
        forall j | 0 <= j <= i
          ensures measures[..last][j] == measures[j]
        {
        }
      }
    }
  }

  predicate Covers(note: Data, p: Vec)
    requires note.Sticky?
  {
    && note.position.x <= p.x <= note.position.x + note.size.x
    && note.position.y <= p.y <= note.position.y + note.size.y
  }

  method FindNearestStroke(strokes: seq<Item>, p: Vec, limit: real) returns (nearest: Option<nat>)
    requires forall s :: s in strokes ==> s.data.Stroke?
    ensures nearest == Nearest(Measures(strokes, p), limit)
  {
    nearest := None;
    var least := limit;
    ghost var measures := Measures(strokes, p);
    for n := 0 to |strokes|
      invariant least == Best(measures[..n], limit)
      invariant nearest == Nearest(measures[..n], limit)
    {
      assert strokes[n] in strokes;
      assert measures[..n + 1][..n] == measures[..n];
      var closer := ScanPieces(strokes[n].data.points, p, least);
      if closer < least {
        least, nearest := closer, Some(n);
      }
    }
    assert measures[..|strokes|] == measures;
  }

  // The inner loop, over the pieces of one stroke.
  method ScanPieces(points: seq<Vec>, p: Vec, bound: real) returns (least: real)
    ensures least == Reach(PieceDistances(points, p), bound) <= bound
  {
    least := bound;
    ghost var all := PieceDistances(points, p);
    assert all[..0] == [];
    var i := 0;
    while i + 1 < |points|
      invariant 0 <= i <= |all|
      invariant least == Reach(all[..i], bound) <= bound
    {
      assert all[..i + 1][..i] == all[..i];
      var dist := SegmentSq(p, points[i], points[i + 1]);
      assert all[i] == dist;
      if dist < least {
        least := dist;
      }
      i := i + 1;
    }
    assert all[..i] == all;
  }

  method FindNearestArrow(arrows: seq<Item>, p: Vec, limit: real) returns (nearest: Option<nat>)
    requires forall a :: a in arrows ==> a.data.Arrow?
    ensures nearest == Nearest(Measures(arrows, p), limit)
  {
    nearest := None;
    var least := limit;
    ghost var measures := Measures(arrows, p);
    for n := 0 to |arrows|
      invariant least == Best(measures[..n], limit)
      invariant nearest == Nearest(measures[..n], limit)
    {
      assert arrows[n] in arrows;
      var dist := SegmentSq(p, arrows[n].data.start, arrows[n].data.end);
      assert measures[n] == [dist];
      ReachOne(dist, least);
      assert measures[..n + 1][..n] == measures[..n];
      if dist < least {
        least, nearest := dist, Some(n);
      }
    }
    assert measures[..|arrows|] == measures;
  }

  method FindTextAt(texts: seq<Item>, p: Vec, limit: real) returns (nearest: Option<nat>)
    requires forall t :: t in texts ==> t.data.Text?
    ensures nearest == Nearest(Measures(texts, p), limit)
  {
    nearest := None;
    var least := limit;
    ghost var measures := Measures(texts, p);
    for n := 0 to |texts|
      invariant least == Best(measures[..n], limit)
      invariant nearest == Nearest(measures[..n], limit)
    {
      assert texts[n] in texts;
      var dist := DistSq(p, texts[n].data.position);
      assert measures[n] == [dist];
      ReachOne(dist, least);
      assert measures[..n + 1][..n] == measures[..n];
      if dist < least {
        least, nearest := dist, Some(n);
      }
    }
    assert measures[..|texts|] == measures;
  }

  lemma ReachOne(dist: real, bound: real)
    ensures Reach([dist], bound) == Min(bound, dist)
  {
  }

  // The first note that covers the point.
  method FindStickyNoteAt(notes: seq<Item>, p: Vec) returns (found: Option<nat>)
    requires forall n :: n in notes ==> n.data.Sticky?
    ensures found == NoteAt(notes, p)
  {
    for n := 0 to |notes|
      invariant NoteAt(notes, p) == NoteFrom(notes, p, n)
    {
      assert notes[n] in notes;
      if Covers(notes[n].data, p) {
        return Some(n);
      }
    }
    return None;
  }

  function NoteAt(notes: seq<Item>, p: Vec): Option<nat>
    requires forall n :: n in notes ==> n.data.Sticky?
  {
    NoteFrom(notes, p, 0)
  }

  function NoteFrom(notes: seq<Item>, p: Vec, i: nat): Option<nat>
    requires forall n :: n in notes ==> n.data.Sticky?
    requires i <= |notes|
    decreases |notes| - i
  {
    if i == |notes| then None
    else
      assert notes[i] in notes;
      if Covers(notes[i].data, p) then Some(i) else NoteFrom(notes, p, i + 1)
  }

  // Overlapping notes: the oldest one under the pointer is found.
  lemma {:induction false} NoteIsFirst(notes: seq<Item>, p: Vec, i: nat)
    requires forall n :: n in notes ==> n.data.Sticky?
    requires i <= |notes|
    ensures match NoteFrom(notes, p, i)
      case None => forall k :: i <= k < |notes| ==> notes[k].data.Sticky? && !Covers(notes[k].data, p)
      case Some(n) =>
        && i <= n < |notes| && notes[n].data.Sticky? && Covers(notes[n].data, p)
        && forall k :: i <= k < n ==> notes[k].data.Sticky? && !Covers(notes[k].data, p)
    decreases |notes| - i
  {
    forall k | 0 <= k < |notes|
      ensures notes[k].data.Sticky?
    {
      assert notes[k] in notes;
    }
    if i < |notes| && !Covers(notes[i].data, p) {
      NoteIsFirst(notes, p, i + 1);
    }
  }

  // ---- the search in the plane

  ghost predicate OnLine(a: Vec, b: Vec, q: Vec) {
    exists t :: 0.0 <= t <= 1.0 && OnSegment(a, b, t) == q
  }

  // The point is on the drawing, as the searches see it: on a piece of a stroke, on the shaft of an
  // arrow, or the corner of a text.
  ghost predicate OnDrawing(d: Data, q: Vec) {
    match d
    case Stroke(points, _, _) => exists k :: 0 <= k < |points| - 1 && OnLine(points[k], points[k + 1], q)
    case Arrow(start, end, _, _) => OnLine(start, end, q)
    case Sticky(_, _, _, _) => false
    case Text(position, _, _, _) => q == position
  }

  lemma LineDistance(p: Vec, a: Vec, b: Vec)
    ensures exists q :: OnLine(a, b, q) && DistSq(p, q) == SegmentSq(p, a, b)
    ensures forall q :: OnLine(a, b, q) ==> SegmentSq(p, a, b) <= DistSq(p, q)
  {
    SegmentIsLeast(p, a, b);
    var t :| 0.0 <= t <= 1.0 && SegmentSq(p, a, b) == DistSq(p, OnSegment(a, b, t));
    assert OnLine(a, b, OnSegment(a, b, t));
    forall q | OnLine(a, b, q)
      ensures SegmentSq(p, a, b) <= DistSq(p, q)
    {
      var s :| 0.0 <= s <= 1.0 && OnSegment(a, b, s) == q;
      assert SegmentSq(p, a, b) <= DistSq(p, OnSegment(a, b, s));
    }
  }

  // Every distance that is measured is that of a point, and no point is closer than all of them.
  lemma DistanceReached(d: Data, p: Vec, m: real)
    requires m in Distances(d, p)
    ensures exists q :: OnDrawing(d, q) && DistSq(p, q) == m
  {
    match d
    case Stroke(points, _, _) =>
      var k :| 0 <= k < |PieceDistances(points, p)| && PieceDistances(points, p)[k] == m;
      LineDistance(p, points[k], points[k + 1]);
      var q :| OnLine(points[k], points[k + 1], q) && DistSq(p, q) == m;
      assert OnDrawing(d, q);
    case Arrow(start, end, _, _) => LineDistance(p, start, end);
    case Sticky(_, _, _, _) =>
    case Text(position, _, _, _) => assert OnDrawing(d, position);
  }

  lemma PieceNotCloser(points: seq<Vec>, p: Vec, bound: real, k: nat, q: Vec)
    requires k + 1 < |points| && NoCloser(PieceDistances(points, p), bound) && OnLine(points[k], points[k + 1], q)
    ensures bound <= DistSq(p, q)
  {
    LineDistance(p, points[k], points[k + 1]);
    assert PieceDistances(points, p)[k] == SegmentSq(p, points[k], points[k + 1]);
  }

  lemma NothingCloser(d: Data, p: Vec, bound: real, q: Vec)
    requires NoCloser(Distances(d, p), bound) && OnDrawing(d, q)
    ensures bound <= DistSq(p, q)
  {
    match d
    case Stroke(points, _, _) =>
      var k :| 0 <= k < |points| - 1 && OnLine(points[k], points[k + 1], q);
      PieceNotCloser(points, p, bound, k, q);
    case Arrow(start, end, _, _) =>
      LineDistance(p, start, end);
      assert Distances(d, p)[0] == SegmentSq(p, start, end);
    case Text(position, _, _, _) => assert Distances(d, p)[0] == DistSq(p, position);
  }

  // What the search finds has a point within the limit, and no drawing of the list a closer one; it
  // finds nothing exactly when no drawing has a point within the limit.
  lemma NearestInPlane(items: seq<Item>, p: Vec, limit: real)
    ensures match Nearest(Measures(items, p), limit)
      case None => forall j, q :: 0 <= j < |items| && OnDrawing(items[j].data, q) ==> limit <= DistSq(p, q)
      case Some(i) =>
        && i < |items|
        && exists o :: OnDrawing(items[i].data, o) && DistSq(p, o) < limit && ClosestTo(items, p, o)
  {
    var measures := Measures(items, p);
    NearestIsLeast(measures, limit);
    var m, found := Best(measures, limit), Nearest(measures, limit);
    forall j, q | 0 <= j < |items| && OnDrawing(items[j].data, q)
      ensures m <= DistSq(p, q)
    {
      assert NoCloser(measures[j], m);
      NothingCloser(items[j].data, p, m, q);
    }
    if found.Some? {
      DistanceReached(items[found.value].data, p, m);
      var o :| OnDrawing(items[found.value].data, o) && DistSq(p, o) == m;
      assert ClosestTo(items, p, o);
    }
  }

  ghost predicate ClosestTo(items: seq<Item>, p: Vec, o: Vec) {
    forall j, q :: 0 <= j < |items| && OnDrawing(items[j].data, q) ==> DistSq(p, o) <= DistSq(p, q)
  }
}
