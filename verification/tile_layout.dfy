// How a frame divides its area among its windows (src/canvas/CanvasFrame.cpp).
module TileLayout {
  import opened Common

  // The least number, from c on, whose square reaches n: ceil(sqrt(n)).
  function RootFrom(n: nat, c: nat): (r: nat)
    requires c == 0 || (c - 1) * (c - 1) < n
    ensures c <= r && n <= r * r && (r == 0 || (r - 1) * (r - 1) < n)
    decreases n - c
  {
    if n <= c * c then c
    else
      assert c <= c * c;
      RootFrom(n, c + 1)
  }

  function Cols(n: nat): (c: nat)
    requires n > 0
    ensures c > 0
  {
    RootFrom(n, 0)
  }

  lemma ColsIsLeast(n: nat)
    requires n > 0
    ensures n <= Cols(n) * Cols(n)
    ensures forall c: nat :: c < Cols(n) ==> c * c < n
  {
  }

  // ceil(n / cols)
  function Rows(n: nat): nat
    requires n > 0
  {
    (n + Cols(n) - 1) / Cols(n)
  }

  function Cell(i: nat, cols: nat, tw: real, th: real): Box
    requires cols > 0
  {
    Box((i % cols) as real * tw, (i / cols) as real * th, tw, th)
  }

  // computeTileLayout
  function Tiles(size: Vec, count: int): (tiles: seq<Box>)
  {
    var w, h := size.x, size.y;
    if count <= 0 then []
    else if count == 1 then [Box(0.0, 0.0, w, h)]
    else if count == 2 then [Box(0.0, 0.0, w / 2.0, h), Box(w / 2.0, 0.0, w / 2.0, h)]
    else if count == 3 then
      [Box(0.0, 0.0, w / 2.0, h), Box(w / 2.0, 0.0, w / 2.0, h / 2.0), Box(w / 2.0, h / 2.0, w / 2.0, h / 2.0)]
    else Grid(size, count, count)
  }

  // The first n cells of the grid for count windows.
  function Grid(size: Vec, count: nat, n: nat): (tiles: seq<Box>)
    requires 0 < count
    ensures |tiles| == n
    ensures forall i :: 0 <= i < n ==> tiles[i] == GridCell(size, count, i)
  {
    if n == 0 then [] else Grid(size, count, n - 1) + [GridCell(size, count, n - 1)]
  }

  function GridCell(size: Vec, count: nat, i: nat): Box
    requires 0 < count
  {
    assert Rows(count) > 0 by {
      RowsFit(count);
    }
    Cell(i, Cols(count), size.x / Cols(count) as real, size.y / Rows(count) as real)
  }

  method ComputeTileLayout(size: Vec, count: int) returns (tiles: seq<Box>)
    ensures tiles == Tiles(size, count)
  {
    var w, h := size.x, size.y;
    if count <= 0 {
      return [];
    }
    if count == 1 {
      return [Box(0.0, 0.0, w, h)];
    }
    if count == 2 {
      return [Box(0.0, 0.0, w / 2.0, h), Box(w / 2.0, 0.0, w / 2.0, h)];
    }
    if count == 3 {
      return [Box(0.0, 0.0, w / 2.0, h), Box(w / 2.0, 0.0, w / 2.0, h / 2.0), Box(w / 2.0, h / 2.0, w / 2.0, h / 2.0)];
    }
    var cols, rows := Cols(count), Rows(count);
    RowsFit(count);
    var tw, th := w / cols as real, h / rows as real;
    tiles := [];
    for i := 0 to count
      invariant tiles == Grid(size, count, i)
    {
      tiles := tiles + [Cell(i, cols, tw, th)];
    }
  }

  // ---- the shape of the grid ----

  lemma DivMod(i: nat, c: nat) returns (q: nat, r: nat)
    requires c > 0
    ensures q == i / c && r == i % c && i == q * c + r && r < c
  {
    q, r := i / c, i % c;
  }

  lemma Scaled(a: nat, b: nat, c: nat)
    requires a <= b
    ensures a * c <= b * c
  {
  }

  // The rows hold all windows, with no row to spare, and the grid is no taller than wide.
  lemma RowsFit(n: nat)
    requires n > 0
    ensures 0 < Rows(n) <= Cols(n)
    ensures n <= Rows(n) * Cols(n) < n + Cols(n)
  {
    var c := Cols(n);
    ColsIsLeast(n);
    NoTaller(n, c, Rows(n));
  }

  lemma NoTaller(n: nat, c: nat, q: nat)
    requires 0 < c && n <= c * c && q * c < n + c
    ensures q <= c
  {
    assert (c + 1) * c == c * c + c;
  }

  // ---- the tiles of a grid ----

  // The left edge of a column, or the top edge of a row.
  function Edge(k: nat, step: real): real {
    k as real * step
  }

  lemma EdgesApart(k: nat, l: nat, step: real)
    requires k < l && step >= 0.0
    ensures Edge(k, step) + step <= Edge(l, step)
  {
    var gap := (l - k - 1) as real;
    assert gap * step >= 0.0;
    assert l as real == k as real + 1.0 + gap;
    assert Edge(l, step) == Edge(k, step) + step + gap * step;
  }

  predicate Inside(b: Box, size: Vec) {
    0.0 <= b.x && 0.0 <= b.w && b.x + b.w <= size.x && 0.0 <= b.y && 0.0 <= b.h && b.y + b.h <= size.y
  }

  predicate Apart(a: Box, b: Box) {
    a.x + a.w <= b.x || b.x + b.w <= a.x || a.y + a.h <= b.y || b.y + b.h <= a.y
  }

  predicate Sound(size: Vec) {
    size.x >= 0.0 && size.y >= 0.0
  }

  lemma RowOf(q: nat, r: nat, cols: nat, rows: nat)
    requires q * cols + r < rows * cols
    ensures q < rows
  {
    if rows <= q {
      Scaled(rows, q, cols);
    }
  }

  lemma CellInside(size: Vec, cols: nat, rows: nat, i: nat)
    requires Sound(size) && cols > 0 && i < rows * cols
    ensures rows > 0 && Inside(Cell(i, cols, size.x / cols as real, size.y / rows as real), size)
  {
    var q, r := DivMod(i, cols);
    RowOf(q, r, cols, rows);
    FitsIn(r, cols, size.x);
    FitsIn(q, rows, size.y);
  }

  lemma GridCellInside(size: Vec, count: nat, i: nat)
    requires Sound(size) && i < count
    ensures Inside(GridCell(size, count, i), size)
  {
    RowsFit(count);
    CellInside(size, Cols(count), Rows(count), i);
  }

  lemma FitsIn(k: nat, n: nat, total: real)
    requires k < n && total >= 0.0
    ensures var step := total / n as real;
      0.0 <= Edge(k, step) && Edge(k, step) + step <= total
  {
    var step := total / n as real;
    EdgesApart(k, n, step);
  }

  // Later cells are in later rows, or further right.
  lemma RowsInOrder(i: nat, j: nat, cols: nat)
    requires cols > 0 && i < j
    ensures i / cols < j / cols || (i / cols == j / cols && i % cols < j % cols)
  {
    var q, r := DivMod(i, cols);
    var s, t := DivMod(j, cols);
    if s < q {
      Scaled(s + 1, q, cols);
    }
  }

  lemma CellsApart(cols: nat, tw: real, th: real, i: nat, j: nat)
    requires cols > 0 && tw >= 0.0 && th >= 0.0 && i < j
    ensures Apart(Cell(i, cols, tw, th), Cell(j, cols, tw, th))
  {
    RowsInOrder(i, j, cols);
    var q, r := DivMod(i, cols);
    var s, t := DivMod(j, cols);
    if q == s {
      EdgesApart(r, t, tw);
    } else {
      EdgesApart(q, s, th);
    }
  }

  lemma GridCellsApart(size: Vec, count: nat, i: nat, j: nat)
    requires Sound(size) && i < j < count
    ensures Apart(GridCell(size, count, i), GridCell(size, count, j))
  {
    RowsFit(count);
    CellsApart(Cols(count), size.x / Cols(count) as real, size.y / Rows(count) as real, i, j);
  }

  // There is a tile for each window, inside the frame, and no two of them overlap.
  lemma TilesInsideApart(size: Vec, count: int)
    requires Sound(size)
    ensures var tiles := Tiles(size, count);
      && |tiles| == (if count <= 0 then 0 else count)
      && (forall i :: 0 <= i < |tiles| ==> Inside(tiles[i], size))
      && (forall i, j :: 0 <= i < j < |tiles| ==> Apart(tiles[i], tiles[j]))
  {
    if count > 3 {
      forall i | 0 <= i < count
        ensures Inside(GridCell(size, count, i), size)
      {
        GridCellInside(size, count, i);
      }
      forall i, j | 0 <= i < j < count
        ensures Apart(GridCell(size, count, i), GridCell(size, count, j))
      {
        GridCellsApart(size, count, i, j);
      }
    }
  }

  // ---- what the tiles cover ----

  predicate In(p: Vec, b: Box) {
    b.x <= p.x < b.x + b.w && b.y <= p.y < b.y + b.h
  }

  predicate Hit(p: Vec, tiles: seq<Box>) {
    exists i :: 0 <= i < |tiles| && In(p, tiles[i])
  }

  ghost predicate Cover(tiles: seq<Box>, size: Vec) {
    forall p: Vec :: In(p, Box(0.0, 0.0, size.x, size.y)) ==> Hit(p, tiles)
  }

  lemma FewCover(size: Vec, count: int)
    requires 1 <= count <= 3
    ensures Cover(Tiles(size, count), size)
  {
    var tiles := Tiles(size, count);
    forall p: Vec | In(p, Box(0.0, 0.0, size.x, size.y))
      ensures Hit(p, tiles)
    {
      if count == 1 {
        assert In(p, tiles[0]);
      } else if p.x < size.x / 2.0 {
        assert In(p, tiles[0]);
      } else if count == 2 || p.y < size.y / 2.0 {
        assert In(p, tiles[1]);
      } else {
        assert In(p, tiles[2]);
      }
    }
  }

  // The cell of a grid that a coordinate falls in.
  lemma CellOf(v: real, n: nat, total: real) returns (k: nat)
    requires n > 0 && 0.0 <= v < total
    ensures k < n
    ensures var step := total / n as real; Edge(k, step) <= v < Edge(k, step) + step
  {
    var step := total / n as real;
    k := 0;
    while Edge(k + 1, step) <= v
      invariant k < n && Edge(k, step) <= v
      decreases n - k
    {
      if k + 1 == n {
        assert false;
      }
      k := k + 1;
    }
  }

  // Quotient and remainder are unique.
  lemma OnlyDivMod(q: nat, r: nat, s: nat, t: nat, cols: nat)
    requires q * cols + r == s * cols + t && r < cols && t < cols
    ensures q == s && r == t
  {
    if s < q {
      Scaled(s + 1, q, cols);
    } else if q < s {
      Scaled(q + 1, s, cols);
    }
  }

  lemma CellIndex(q: nat, r: nat, cols: nat)
    requires r < cols
    ensures (q * cols + r) / cols == q && (q * cols + r) % cols == r
  {
    var s, t := DivMod(q * cols + r, cols);
    OnlyDivMod(q, r, s, t, cols);
  }

  // From four windows on the tiles cover the frame exactly when the grid has no empty cell.
  lemma GridCovers(size: Vec, count: nat)
    requires size.x > 0.0 && size.y > 0.0 && count > 3
    ensures Cover(Tiles(size, count), size) <==> Rows(count) * Cols(count) == count
  {
    RowsFit(count);
    FullGridCovers(size, count);
    LastCellEmpty(size, count);
  }

  lemma CellBelow(q: nat, r: nat, rows: nat, cols: nat)
    requires q < rows && r < cols
    ensures q * cols + r < rows * cols
  {
    Scaled(q + 1, rows, cols);
  }

  lemma CellHit(p: Vec, q: nat, r: nat, cols: nat, tw: real, th: real)
    requires r < cols && Edge(r, tw) <= p.x < Edge(r, tw) + tw && Edge(q, th) <= p.y < Edge(q, th) + th
    ensures In(p, Cell(q * cols + r, cols, tw, th))
  {
    CellIndex(q, r, cols);
  }

  lemma FullGridCovers(size: Vec, count: nat)
    requires count > 3
    ensures Rows(count) * Cols(count) == count ==> Cover(Tiles(size, count), size)
  {
    var tiles := Tiles(size, count);
    var cols, rows := Cols(count), Rows(count);
    RowsFit(count);
    if rows * cols == count {
      forall p: Vec | In(p, Box(0.0, 0.0, size.x, size.y))
        ensures Hit(p, tiles)
      {
        var r := CellOf(p.x, cols, size.x);
        var q := CellOf(p.y, rows, size.y);
        CellBelow(q, r, rows, cols);
        CellHit(p, q, r, cols, size.x / cols as real, size.y / rows as real);
        assert In(p, tiles[q * cols + r]);
      }
    }
  }

  // The corner of the last cell is in no tile when the last cell is empty.
  lemma LastCellEmpty(size: Vec, count: nat)
    requires size.x > 0.0 && size.y > 0.0 && count > 3
    ensures Rows(count) * Cols(count) > count ==> !Cover(Tiles(size, count), size)
  {
    var tiles := Tiles(size, count);
    RowsFit(count);
    if Rows(count) * Cols(count) > count {
      var p := Corner(size, count);
      CornerInFrame(size, count);
      forall i | 0 <= i < |tiles|
        ensures !In(p, tiles[i])
      {
        CornerNotIn(size, count, i);
      }
      assert !Hit(p, tiles);
    }
  }

  ghost function Corner(size: Vec, count: nat): Vec
    requires count > 3
  {
    var cols, rows := Cols(count), Rows(count);
    RowsFit(count);
    Vec(Edge(cols - 1, size.x / cols as real), Edge(rows - 1, size.y / rows as real))
  }

  lemma CornerInFrame(size: Vec, count: nat)
    requires size.x > 0.0 && size.y > 0.0 && count > 3
    ensures In(Corner(size, count), Box(0.0, 0.0, size.x, size.y))
  {
    var cols, rows := Cols(count), Rows(count);
    RowsFit(count);
    FitsIn(cols - 1, cols, size.x);
    FitsIn(rows - 1, rows, size.y);
  }

  lemma CornerMissed(rows: nat, cols: nat, tw: real, th: real, i: nat)
    requires tw >= 0.0 && th >= 0.0 && 0 < rows && 0 < cols && i + 1 < rows * cols
    ensures !In(Vec(Edge(cols - 1, tw), Edge(rows - 1, th)), Cell(i, cols, tw, th))
  {
    var q, r := DivMod(i, cols);
    if r < cols - 1 {
      EdgesApart(r, cols - 1, tw);
    } else if q < rows - 1 {
      EdgesApart(q, rows - 1, th);
    } else {
    }
  }

  lemma CornerNotIn(size: Vec, count: nat, i: nat)
    requires size.x > 0.0 && size.y > 0.0 && count > 3
    ensures i + 1 < Rows(count) * Cols(count) ==> !In(Corner(size, count), GridCell(size, count, i))
  {
    RowsFit(count);
    if i + 1 < Rows(count) * Cols(count) {
      CornerMissed(Rows(count), Cols(count), size.x / Cols(count) as real, size.y / Rows(count) as real, i);
    }
  }

  // ---- which tile is which

  // Up to three windows: the first one has the frame or its left half, the second one the right half
  // or its top, the third one its bottom.
  lemma FewPlaces(size: Vec, count: nat)
    requires 1 <= count <= 3
    ensures var tiles := Tiles(size, count);
      && |tiles| == count
      && tiles[0] == Box(0.0, 0.0, if count == 1 then size.x else size.x / 2.0, size.y)
      && (count > 1 ==> tiles[1] == Box(size.x / 2.0, 0.0, size.x / 2.0, if count == 2 then size.y else size.y / 2.0))
      && (count > 2 ==> tiles[2] == Box(size.x / 2.0, size.y / 2.0, size.x / 2.0, size.y / 2.0))
  {
  }

  lemma NextIndex(i: nat, cols: nat)
    requires cols > 0
    ensures if i % cols + 1 < cols then (i + 1) % cols == i % cols + 1 && (i + 1) / cols == i / cols
            else (i + 1) % cols == 0 && (i + 1) / cols == i / cols + 1
  {
    var q, r := DivMod(i, cols);
    if r + 1 < cols {
      CellIndex(q, r + 1, cols);
    } else {
      assert (q + 1) * cols == q * cols + cols;
      CellIndex(q + 1, 0, cols);
    }
  }

  lemma NextCell(i: nat, cols: nat, tw: real, th: real)
    requires cols > 0
    ensures var a, b := Cell(i, cols, tw, th), Cell(i + 1, cols, tw, th);
      if i % cols + 1 < cols then b.x == a.x + a.w && b.y == a.y else b.x == 0.0 && b.y == a.y + a.h
  {
    NextIndex(i, cols);
    var r, q := (i % cols) as real, (i / cols) as real;
    assert (r + 1.0) * tw == r * tw + tw && (q + 1.0) * th == q * th + th;
  }

  // From four windows on the tiles are read like a page: rows from the top, and each from the left.
  lemma GridReads(size: Vec, count: nat, i: nat)
    requires count > 3 && i < count
    ensures var tiles, cols, rows := Tiles(size, count), Cols(count), Rows(count);
      && |tiles| == count && cols > 0 && rows > 0
      && (tiles[0].x == 0.0 && tiles[0].y == 0.0)
      && tiles[i].w == size.x / cols as real && tiles[i].h == size.y / rows as real
      && (i + 1 < count ==>
            if i % cols + 1 < cols then tiles[i + 1].x == tiles[i].x + tiles[i].w && tiles[i + 1].y == tiles[i].y
            else tiles[i + 1].x == 0.0 && tiles[i + 1].y == tiles[i].y + tiles[i].h)
  {
    RowsFit(count);
    var tw, th := size.x / Cols(count) as real, size.y / Rows(count) as real;
    NextCell(i, Cols(count), tw, th);
    CellIndex(0, 0, Cols(count));
    assert Tiles(size, count)[0] == Cell(0, Cols(count), tw, th);
  }
}
