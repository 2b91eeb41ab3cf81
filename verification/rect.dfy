/** `draw_rect` and `fill_rect`. */
module Rects {
  import opened Arith
  import opened Shapes
  import opened Lines

  /** `draw_rect(x, y, w, h)`: top, right, bottom and left edges as four lines, in that order. */
  function RectPoints(x: int, y: int, w: int, h: int): seq<Point>
  {
    LinePoints(x, y, x + w, y) + LinePoints(x + w, y, x + w, y + h)
      + LinePoints(x + w, y + h, x, y + h) + LinePoints(x, y + h, x, y)
  }

  /** The cells on the rectangle's four sides, whatever the signs of `w` and `h`. */
  predicate OnOutline(q: Point, x: int, y: int, w: int, h: int)
  {
    ((q.y == y || q.y == y + h) && Between(q.x, x, x + w)) ||
    ((q.x == x || q.x == x + w) && Between(q.y, y, y + h))
  }

  /** `ps` holds exactly the cells on the rectangle's outline. */
  ghost predicate OutlineCells(ps: seq<Point>, x: int, y: int, w: int, h: int)
  {
    forall q :: q in ps <==> OnOutline(q, x, y, w, h)
  }

  lemma RowAt(xa: int, xb: int, y: int, q: Point)
    ensures q in LinePoints(xa, y, xb, y) <==> q.y == y && Between(q.x, xa, xb)
  {
    HorizontalLine(xa, xb, y);
  }

  lemma ColumnAt(x: int, ya: int, yb: int, q: Point)
    ensures q in LinePoints(x, ya, x, yb) <==> q.x == x && Between(q.y, ya, yb)
  {
    VerticalLine(x, ya, yb);
  }

  /** One cell is on the drawn outline exactly when it lies on one of the four sides. */
  lemma RectOutlineAt(x: int, y: int, w: int, h: int, q: Point)
    ensures q in RectPoints(x, y, w, h) <==> OnOutline(q, x, y, w, h)
  {
    var top, right := LinePoints(x, y, x + w, y), LinePoints(x + w, y, x + w, y + h);
    var bottom, left := LinePoints(x + w, y + h, x, y + h), LinePoints(x, y + h, x, y);
    assert q in RectPoints(x, y, w, h) <==> q in top || q in right || q in bottom || q in left;
    RowAt(x, x + w, y, q);
    ColumnAt(x + w, y, y + h, q);
    RowAt(x + w, x, y + h, q);
    ColumnAt(x, y + h, y, q);
  }

  /** The outline is exactly the cells on the rectangle's four sides, whatever the signs of `w` and `h`. */
  lemma RectOutline(x: int, y: int, w: int, h: int)
    ensures OutlineCells(RectPoints(x, y, w, h), x, y, w, h)
  {
    forall q ensures q in RectPoints(x, y, w, h) <==> OnOutline(q, x, y, w, h) {
      RectOutlineAt(x, y, w, h, q);
    }
  }

  /** One coordinate of `fill_rect` clamped to the screen: below 0 becomes 0, `limit` or beyond becomes `limit`. */
  function Clamp(v: int, limit: nat): (r: int)
    ensures 0 <= r <= limit
    ensures r == Max(0, Min(v, limit))
  {
    var v1 := if v < 0 then 0 else v;
    if v1 >= limit then limit else v1
  }

  /** Rows `j .. jEnd - 1` of column `i`, top to bottom. */
  function Column(i: int, j: int, jEnd: int): (ps: seq<Point>)
    ensures forall q :: q in ps <==> q.x == i && j <= q.y < jEnd
    ensures Distinct(ps)
    ensures |ps| == if j < jEnd then jEnd - j else 0
    decreases jEnd - j
  {
    if j >= jEnd then []
    else
      var rest := Column(i, j + 1, jEnd);
      DistinctConcat([Point(i, j)], rest);
      [Point(i, j)] + rest
  }

  /** Columns `i .. iEnd - 1`, left to right, each over rows `j .. jEnd - 1`. */
  function Columns(i: int, iEnd: int, j: int, jEnd: int): (ps: seq<Point>)
    ensures forall q :: q in ps <==> i <= q.x < iEnd && j <= q.y < jEnd
    ensures Distinct(ps)
    ensures |ps| == if i < iEnd && j < jEnd then (iEnd - i) * (jEnd - j) else 0
    decreases iEnd - i
  {
    if i >= iEnd then []
    else
      var col, rest := Column(i, j, jEnd), Columns(i + 1, iEnd, j, jEnd);
      DistinctConcat(col, rest);
      Peel(iEnd - i, jEnd - j);
      col + rest
  }

  /** `fill_rect(x, y, w, h)` on a screen of `sw` by `sh`: each clamped column in turn, top to bottom. */
  function FillRectPoints(x: int, y: int, w: int, h: int, sw: nat, sh: nat): seq<Point>
  {
    Columns(Clamp(x, sw), Clamp(x + w, sw), Clamp(y, sh), Clamp(y + h, sh))
  }

  /** The fill covers exactly the cells of the rectangle that are on the screen, each once. */
  lemma FillRectCells(x: int, y: int, w: int, h: int, sw: nat, sh: nat)
    ensures forall q :: q in FillRectPoints(x, y, w, h, sw, sh) <==>
      x <= q.x < x + w && y <= q.y < y + h && 0 <= q.x < sw && 0 <= q.y < sh
    ensures Distinct(FillRectPoints(x, y, w, h, sw, sh))
  {
  }

  /** A rectangle with no width or no height, or one entirely off the screen, fills nothing. */
  lemma FillRectEmpty(x: int, y: int, w: int, h: int, sw: nat, sh: nat)
    requires w <= 0 || h <= 0 || x >= sw || y >= sh || x + w <= 0 || y + h <= 0
    ensures FillRectPoints(x, y, w, h, sw, sh) == []
  {
    assert Clamp(x, sw) >= Clamp(x + w, sw) || Clamp(y, sh) >= Clamp(y + h, sh);
  }

  lemma FillRectExample()
    ensures FillRectPoints(-1, 1, 3, 2, 4, 4) == [Point(0, 1), Point(0, 2), Point(1, 1), Point(1, 2)]
  {
    assert FillRectPoints(-1, 1, 3, 2, 4, 4) == Columns(0, 2, 1, 3);
    assert Columns(0, 2, 1, 3) == Column(0, 1, 3) + Column(1, 1, 3) by {
      assert Columns(2, 2, 1, 3) == [];
    }
    assert Column(0, 1, 3) == [Point(0, 1), Point(0, 2)] by {
      assert Column(0, 3, 3) == [];
    }
    assert Column(1, 1, 3) == [Point(1, 1), Point(1, 2)] by {
      assert Column(1, 3, 3) == [];
    }
  }
}
