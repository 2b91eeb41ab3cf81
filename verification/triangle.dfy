/** `draw_triangle` (three Bresenham lines) and `fill_triangle` (two edge steppers, one span per row). */
module Triangles {
  import opened Arith
  import opened Shapes
  import opened Lines

  /** `draw_triangle`: the lines 1→2, 2→3 and 3→1, in that order. Each line has one pixel per step
      along its longer extent plus one, so the outline has that many pixels per side. */
  function TrianglePoints(x1: int, y1: int, x2: int, y2: int, x3: int, y3: int): (ps: seq<Point>)
    ensures |ps| == Max(Abs(x2 - x1), Abs(y2 - y1)) + Max(Abs(x3 - x2), Abs(y3 - y2)) + Max(Abs(x1 - x3), Abs(y1 - y3)) + 3
  {
    LinePoints(x1, y1, x2, y2) + LinePoints(x2, y2, x3, y3) + LinePoints(x3, y3, x1, y1)
  }

  /** All three corners are drawn. */
  lemma TriangleCorners(x1: int, y1: int, x2: int, y2: int, x3: int, y3: int)
    ensures var ps := TrianglePoints(x1, y1, x2, y2, x3, y3);
      Point(x1, y1) in ps && Point(x2, y2) in ps && Point(x3, y3) in ps
  {
    LineHasEndpoints(x1, y1, x2, y2);
    LineHasEndpoints(x2, y2, x3, y3);
  }

  /** `v` lies between the least and the greatest of three values. */
  predicate Spanned(v: int, a: int, b: int, c: int)
  {
    (a <= v || b <= v || c <= v) && (v <= a || v <= b || v <= c)
  }

  /** The outline stays inside the bounding box of the three corners. */
  lemma TriangleInBox(x1: int, y1: int, x2: int, y2: int, x3: int, y3: int)
    ensures forall q :: q in TrianglePoints(x1, y1, x2, y2, x3, y3) ==>
      Spanned(q.x, x1, x2, x3) && Spanned(q.y, y1, y2, y3)
  {
    var l1, l2, l3 := LinePoints(x1, y1, x2, y2), LinePoints(x2, y2, x3, y3), LinePoints(x3, y3, x1, y1);
    LineInBox(x1, y1, x2, y2);
    LineInBox(x2, y2, x3, y3);
    LineInBox(x3, y3, x1, y1);
    forall q | q in TrianglePoints(x1, y1, x2, y2, x3, y3) ensures Spanned(q.x, x1, x2, x3) && Spanned(q.y, y1, y2, y3) {
      if q in l1 {
        assert InBox(q, Point(x1, y1), Point(x2, y2));
      } else if q in l2 {
        assert InBox(q, Point(x2, y2), Point(x3, y3));
      } else {
        assert InBox(q, Point(x3, y3), Point(x1, y1));
      }
    }
  }

  /** The three corners after `fill_triangle`'s sort. */
  datatype Corners = Corners(a: Point, b: Point, c: Point)

  /** The three conditional swaps that order the corners by y: 1/2, then 1/3, then 2/3. */
  function SortByY(p1: Point, p2: Point, p3: Point): (s: Corners)
    ensures s.a.y <= s.b.y <= s.c.y
    ensures multiset{s.a, s.b, s.c} == multiset{p1, p2, p3}
  {
    var s1 := if p1.y > p2.y then Corners(p2, p1, p3) else Corners(p1, p2, p3);
    var s2 := if s1.a.y > s1.c.y then Corners(s1.c, s1.b, s1.a) else s1;
    if s2.b.y > s2.c.y then Corners(s2.a, s2.c, s2.b) else s2
  }

  /** One edge stepper of `fill_triangle`: the current x (`t1x`/`t2x`), the error term (`e1`/`e2`),
      the major and minor extents (`dx`/`dy` after the swap), the x direction (`signx`), and whether
      the edge is steep (`changed`: its y extent exceeded its x extent, so the extents were swapped). */
  datatype Edge = Edge(x: int, e: int, dx: int, dy: int, sign: int, steep: bool)

  predicate Valid(ed: Edge)
  {
    0 <= ed.dy <= ed.dx && (ed.sign == 1 || ed.sign == -1) && (ed.steep ==> ed.dx > 0)
  }

  /** The parts of an edge a stepper never changes. */
  predicate SameLine(a: Edge, b: Edge)
  {
    a.dx == b.dx && a.dy == b.dy && a.sign == b.sign && a.steep == b.steep
  }

  /** The set-up of an edge from (xa, ya) down to (xb, yb); the error starts at half the major extent. */
  function MkEdge(xa: int, ya: int, xb: int, yb: int): (ed: Edge)
    requires ya <= yb
    ensures Valid(ed) && ed.x == xa
    ensures ed.steep <==> yb - ya > Abs(xb - xa)
    ensures ed.dx == Max(Abs(xb - xa), yb - ya) && ed.dy == Min(Abs(xb - xa), yb - ya)
    ensures ed.sign == if xb < xa then -1 else 1
  {
    var adx := Abs(xb - xa);
    var sign := if xb - xa < 0 then -1 else 1;
    if yb - ya > adx then Edge(xa, (yb - ya) / 2, yb - ya, adx, sign, true)
    else Edge(xa, adx / 2, adx, yb - ya, sign, false)
  }

  /** The inner `while (e >= dx) e -= dx;` of a steep edge. */
  function Drain(e: int, dx: int): (r: int)
    requires dx > 0
    ensures r < dx
    ensures e >= 0 ==> r == e % dx
    decreases e
  {
    if e >= dx then ModShift(e, dx); Drain(e - dx, dx) else e
  }

  lemma ModShift(e: int, dx: int)
    requires dx > 0
    ensures (e - dx) % dx == e % dx
  {
    var q, r := (e - dx) / dx, (e - dx) % dx;
    assert e - dx == dx * q + r;
    DivIs(e, dx, q + 1);
  }

  /** A short edge after its per-row walk: the edge, the loop counter `i`, and the deferred
      x step (`t1xp`) a steep edge takes once the row is drawn. */
  datatype Stepped = Stepped(edge: Edge, i: int, xp: int)

  /** The long edge after its per-row walk, with its deferred x step (`t2xp`). */
  datatype Moved = Moved(edge: Edge, xp: int)

  /** The first short edge's walk in the upper half (`while (i < dx1) { i++; … }`): a flat edge moves x
      until its error overflows, a steep edge takes one step and drains its error. */
  function ShortTop(ed: Edge, i: int): (r: Stepped)
    requires Valid(ed)
    ensures SameLine(r.edge, ed)
    ensures r.xp == 0 || r.xp == ed.sign
    ensures i >= ed.dx ==> r == Stepped(ed, i, 0)
    ensures i < ed.dx ==> i < r.i <= ed.dx
    decreases ed.dx - i
  {
    if i >= ed.dx then Stepped(ed, i, 0)
    else
      var e := ed.e + ed.dy;
      if e >= ed.dx then
        if ed.steep then Stepped(ed.(e := Drain(e, ed.dx)), i + 1, ed.sign)
        else Stepped(ed.(e := e - ed.dx), i + 1, 0)
      else if ed.steep then Stepped(ed.(e := e), i + 1, 0)
      else ShortTop(ed.(x := ed.x + ed.sign, e := e), i + 1)
  }

  /** The second short edge's walk in the lower half: like `ShortTop`, but the counter moves only
      with a flat step and a steep edge subtracts the major extent once, not until it drains. */
  function ShortBottom(ed: Edge, i: int): (r: Stepped)
    requires Valid(ed)
    ensures SameLine(r.edge, ed)
    ensures r.xp == 0 || r.xp == ed.sign
    ensures i >= ed.dx ==> r == Stepped(ed, i, 0)
    ensures i < ed.dx ==> i <= r.i <= ed.dx
    decreases ed.dx - i
  {
    if i >= ed.dx then Stepped(ed, i, 0)
    else
      var e := ed.e + ed.dy;
      if e >= ed.dx then Stepped(ed.(e := e - ed.dx), i, if ed.steep then ed.sign else 0)
      else if ed.steep then Stepped(ed.(e := e), i, 0)
      else ShortBottom(ed.(x := ed.x + ed.sign, e := e), i + 1)
  }

  /** `x` has not yet passed `target` in direction `sign`. */
  predicate Toward(x: int, sign: int, target: int)
  {
    if sign == 1 then x <= target else target <= x
  }

  /** The long edge's walk (`while (1)` in the upper half, `while (t2x != x3)` in the lower one when
      `guard` holds). A flat edge with no y extent only ends through the guard, walking toward `x3`. */
  function LongStep(ed: Edge, guard: bool, x3: int): (r: Moved)
    requires Valid(ed)
    requires !ed.steep && ed.dy == 0 ==> guard && Toward(ed.x, ed.sign, x3)
    ensures SameLine(r.edge, ed)
    ensures r.xp == 0 || r.xp == ed.sign
    ensures guard && ed.x == x3 ==> r == Moved(ed, 0)
    decreases if ed.dy > 0 then ed.dx - ed.e else 0, Abs(x3 - ed.x)
  {
    if guard && ed.x == x3 then Moved(ed, 0)
    else
      var e := ed.e + ed.dy;
      if e >= ed.dx then
        if ed.steep then Moved(ed.(e := Drain(e, ed.dx)), ed.sign)
        else Moved(ed.(e := e - ed.dx), 0)
      else if ed.steep then Moved(ed.(e := e), 0)
      else LongStep(ed.(x := ed.x + ed.sign, e := e), guard, x3)
  }

  /** The end-of-row move: a flat edge steps once more in x, then the deferred steep step is taken. */
  function Advance(ed: Edge, xp: int): (r: Edge)
    ensures SameLine(r, ed)
  {
    ed.(x := ed.x + (if ed.steep then 0 else ed.sign) + xp)
  }

  /** The row's span: from the least to the greatest x either edge held during the row. */
  function RowSpan(t1: Edge, t2: Edge, a: Edge, b: Edge, y: int): (s: Span)
    ensures s.lo <= s.hi && s.y == y
    ensures s.lo <= t1.x <= s.hi && s.lo <= t2.x <= s.hi && s.lo <= a.x <= s.hi && s.lo <= b.x <= s.hi
    ensures s.lo in {t1.x, t2.x, a.x, b.x} && s.hi in {t1.x, t2.x, a.x, b.x}
  {
    Span(Min(Min(t1.x, t2.x), Min(a.x, b.x)), Max(Max(t1.x, t2.x), Max(a.x, b.x)), y)
  }

  /** Consecutive rows from `y0`, one non-empty span each. */
  ghost predicate Rows(spans: seq<Span>, y0: int)
  {
    forall k :: 0 <= k < |spans| ==> spans[k].y == y0 + k && spans[k].lo <= spans[k].hi
  }

  /** The state handed from the upper half to the lower one: its spans, the long edge and the next row. */
  datatype Half = Half(spans: seq<Span>, long: Edge, y: int)

  /** The upper half: one row per pass of `for (i = 0; i < dx1;)`, stopping before row `y2`. */
  function TopRows(t1: Edge, t2: Edge, i: int, y: int, y2: int): (h: Half)
    requires Valid(t1) && Valid(t2) && (t2.steep || t2.dy > 0)
    requires y < y2
    ensures SameLine(h.long, t2) && y <= h.y <= y2
    decreases t1.dx - i
  {
    if i >= t1.dx then Half([], t2, y)
    else
      var a := ShortTop(t1, i);
      var b := LongStep(t2, false, 0);
      var s := RowSpan(t1, t2, a.edge, b.edge, y);
      var n1, n2 := Advance(a.edge, a.xp), Advance(b.edge, b.xp);
      if y + 1 == y2 then Half([s], n2, y + 1)
      else
        var h := TopRows(n1, n2, a.i, y + 1, y2);
        Half([s] + h.spans, h.long, h.y)
  }

  /** The upper half draws consecutive rows from `y`, one span each, and hands over the row after
      its last; a first pass always draws, and its span covers both edges' starting x. */
  lemma {:induction false} TopRowsShape(t1: Edge, t2: Edge, i: int, y: int, y2: int)
    requires Valid(t1) && Valid(t2) && (t2.steep || t2.dy > 0)
    requires y < y2
    ensures var h := TopRows(t1, t2, i, y, y2);
      && Rows(h.spans, y) && h.y == y + |h.spans|
      && (i < t1.dx ==> |h.spans| >= 1 && h.spans[0] == RowSpan(t1, t2, ShortTop(t1, i).edge, LongStep(t2, false, 0).edge, y))
    decreases t1.dx - i
  {
    if i < t1.dx {
      var a := ShortTop(t1, i);
      var b := LongStep(t2, false, 0);
      if y + 1 != y2 {
        TopRowsShape(Advance(a.edge, a.xp), Advance(b.edge, b.xp), a.i, y + 1, y2);
      }
    }
  }

  /** The lower half: one row per pass of `for (i = 0; i <= dx1; i++)`, returning after row `y3`. */
  function BottomRows(t1: Edge, t2: Edge, i: int, y: int, x3: int, y3: int): (spans: seq<Span>)
    requires Valid(t1) && Valid(t2)
    requires !t2.steep && t2.dy == 0 ==> y == y3 && Toward(t2.x, t2.sign, x3)
    requires y <= y3
    decreases y3 - y
  {
    if i > t1.dx then []
    else
      var a := ShortBottom(t1, i);
      var b := LongStep(t2, true, x3);
      var s := RowSpan(t1, t2, a.edge, b.edge, y);
      if y + 1 > y3 then [s]
      else [s] + BottomRows(Advance(a.edge, a.xp), Advance(b.edge, b.xp), a.i + 1, y + 1, x3, y3)
  }

  /** The lower half draws consecutive rows from `y`, one span each, never past `y3`; a first pass
      always draws, and its span covers both edges' starting x. */
  lemma {:induction false} BottomRowsShape(t1: Edge, t2: Edge, i: int, y: int, x3: int, y3: int)
    requires Valid(t1) && Valid(t2)
    requires !t2.steep && t2.dy == 0 ==> y == y3 && Toward(t2.x, t2.sign, x3)
    requires y <= y3
    ensures var spans := BottomRows(t1, t2, i, y, x3, y3);
      && Rows(spans, y) && |spans| <= y3 - y + 1
      && (i <= t1.dx ==> |spans| >= 1 && spans[0] == RowSpan(t1, t2, ShortBottom(t1, i).edge, LongStep(t2, true, x3).edge, y))
    decreases y3 - y
  {
    if i <= t1.dx && y + 1 <= y3 {
      var a := ShortBottom(t1, i);
      var b := LongStep(t2, true, x3);
      BottomRowsShape(Advance(a.edge, a.xp), Advance(b.edge, b.xp), a.i + 1, y + 1, x3, y3);
    }
  }

  /** The upper half, or nothing for a flat top (`if (y1 == y2) goto next`). */
  function UpperHalf(s: Corners): (h: Half)
    requires s.a.y <= s.b.y <= s.c.y
    ensures SameLine(h.long, MkEdge(s.a.x, s.a.y, s.c.x, s.c.y)) && Valid(h.long)
    ensures s.a.y <= h.y <= s.b.y
    ensures s.a.y == s.b.y ==> h == Half([], MkEdge(s.a.x, s.a.y, s.c.x, s.c.y), s.a.y)
    ensures !h.long.steep && h.long.dy == 0 ==> h.y == s.c.y && Toward(h.long.x, h.long.sign, s.c.x)
  {
    var long := MkEdge(s.a.x, s.a.y, s.c.x, s.c.y);
    if s.a.y == s.b.y then Half([], long, s.a.y)
    else TopRows(MkEdge(s.a.x, s.a.y, s.b.x, s.b.y), long, 0, s.a.y, s.b.y)
  }

  /** The spans of the sorted corners: the upper half, then the lower half from where it stopped. */
  function FillSorted(s: Corners): seq<Span>
    requires s.a.y <= s.b.y <= s.c.y
  {
    var top := UpperHalf(s);
    top.spans + BottomRows(MkEdge(s.b.x, s.b.y, s.c.x, s.c.y), top.long, 0, top.y, s.c.x, s.c.y)
  }

  /** `fill_triangle`: the spans it hands to `drawline`, in order. */
  function FillSpans(x1: int, y1: int, x2: int, y2: int, x3: int, y3: int): seq<Span>
  {
    FillSorted(SortByY(Point(x1, y1), Point(x2, y2), Point(x3, y3)))
  }

  /** The fill draws one non-empty span on each row from the top corner's down, never below the
      bottom corner's; the first span covers the top corner, and under a flat top the other top
      corner too. */
  lemma FillRows(s: Corners)
    requires s.a.y <= s.b.y <= s.c.y
    ensures var spans := FillSorted(s);
      && 1 <= |spans| <= s.c.y - s.a.y + 1
      && Rows(spans, s.a.y)
      && spans[0].lo <= s.a.x <= spans[0].hi
      && (s.a.y == s.b.y ==> spans[0].lo <= s.b.x <= spans[0].hi)
  {
    var top := UpperHalf(s);
    var t1 := MkEdge(s.b.x, s.b.y, s.c.x, s.c.y);
    var bottom := BottomRows(t1, top.long, 0, top.y, s.c.x, s.c.y);
    BottomRowsShape(t1, top.long, 0, top.y, s.c.x, s.c.y);
    if s.a.y < s.b.y {
      var long := MkEdge(s.a.x, s.a.y, s.c.x, s.c.y);
      TopRowsShape(MkEdge(s.a.x, s.a.y, s.b.x, s.b.y), long, 0, s.a.y, s.b.y);
      assert (top.spans + bottom)[0] == top.spans[0];
    } else {
      assert top.spans + bottom == bottom;
    }
    RowsConcat(top.spans, bottom, s.a.y);
  }

  lemma RowsConcat(xs: seq<Span>, ys: seq<Span>, y0: int)
    requires Rows(xs, y0) && Rows(ys, y0 + |xs|)
    ensures Rows(xs + ys, y0)
  {
    forall k | 0 <= k < |xs + ys| ensures (xs + ys)[k].y == y0 + k && (xs + ys)[k].lo <= (xs + ys)[k].hi {
      if k >= |xs| {
        assert (xs + ys)[k] == ys[k - |xs|];
      }
    }
  }

  /** A cell of consecutive rows lies on one of them. */
  lemma FlattenRows(spans: seq<Span>, y0: int, q: Point)
    requires Rows(spans, y0) && q in Flatten(spans)
    ensures y0 <= q.y < y0 + |spans|
  {
    var s :| s in spans && q in SpanPoints(s);
    var k :| 0 <= k < |spans| && spans[k] == s;
  }

  /** The filled cells: every span's cells, row after row. */
  function FillPoints(x1: int, y1: int, x2: int, y2: int, x3: int, y3: int): (ps: seq<Point>)
    ensures forall q :: q in ps ==> Spanned(q.y, y1, y2, y3)
  {
    var spans := FillSpans(x1, y1, x2, y2, x3, y3);
    var s := SortByY(Point(x1, y1), Point(x2, y2), Point(x3, y3));
    var ps := Flatten(spans);
    FillRows(s);
    assert Spanned(s.a.y, y1, y2, y3) && Spanned(s.c.y, y1, y2, y3) by {
      assert s.a in multiset{Point(x1, y1), Point(x2, y2), Point(x3, y3)};
      assert s.c in multiset{Point(x1, y1), Point(x2, y2), Point(x3, y3)};
    }
    forall q | q in ps ensures Spanned(q.y, y1, y2, y3) {
      FlattenRows(spans, s.a.y, q);
    }
    ps
  }

  /** The right-angled triangle (0,0), (3,0), (0,3) fills a staircase: four cells, then three, two, one. */
  lemma FillExample()
    ensures FillSpans(0, 0, 3, 0, 0, 3) == [Span(0, 3, 0), Span(0, 2, 1), Span(0, 1, 2), Span(0, 0, 3)]
  {
    var long := Edge(0, 1, 3, 0, 1, true);
    var b1, b2 := Edge(2, 1, 3, 3, -1, false), Edge(1, 1, 3, 3, -1, false);
    calc {
      FillSpans(0, 0, 3, 0, 0, 3);
      { ExampleSetup(); }
      BottomRows(Edge(3, 1, 3, 3, -1, false), long, 0, 0, 0, 3);
      { ExampleRow(3, 0); }
      [Span(0, 3, 0)] + BottomRows(b1, long, 1, 1, 0, 3);
      { ExampleRow(2, 1); }
      [Span(0, 3, 0)] + ([Span(0, 2, 1)] + BottomRows(b2, long, 2, 2, 0, 3));
      { ExampleRow(1, 2); ExampleLastRow(); }
      [Span(0, 3, 0)] + ([Span(0, 2, 1)] + ([Span(0, 1, 2)] + [Span(0, 0, 3)]));
      [Span(0, 3, 0), Span(0, 2, 1), Span(0, 1, 2), Span(0, 0, 3)];
    }
  }

  /** The example's corners are already sorted with a flat top, so only the lower half draws: the
      short edge runs from (3,0) to (0,3), the long edge straight down from (0,0). */
  lemma ExampleSetup()
    ensures FillSpans(0, 0, 3, 0, 0, 3) == BottomRows(Edge(3, 1, 3, 3, -1, false), Edge(0, 1, 3, 0, 1, true), 0, 0, 0, 3)
  {
    var s := Corners(Point(0, 0), Point(3, 0), Point(0, 3));
    ExampleSorted();
    ExampleFlatTop();
    assert MkEdge(3, 0, 0, 3) == Edge(3, 1, 3, 3, -1, false);
    assert FillSorted(s) == [] + BottomRows(Edge(3, 1, 3, 3, -1, false), Edge(0, 1, 3, 0, 1, true), 0, 0, 0, 3);
  }

  /** The example's corners come out of the sort as given. */
  lemma ExampleSorted()
    ensures FillSpans(0, 0, 3, 0, 0, 3) == FillSorted(Corners(Point(0, 0), Point(3, 0), Point(0, 3)))
  {
    assert SortByY(Point(0, 0), Point(3, 0), Point(0, 3)) == Corners(Point(0, 0), Point(3, 0), Point(0, 3));
  }

  /** The example has a flat top: no upper rows, and the long edge runs straight down from (0,0). */
  lemma ExampleFlatTop()
    ensures UpperHalf(Corners(Point(0, 0), Point(3, 0), Point(0, 3))) == Half([], Edge(0, 1, 3, 0, 1, true), 0)
  {
    assert MkEdge(0, 0, 0, 3) == Edge(0, 1, 3, 0, 1, true);
  }

  /** One row of the example's lower half: the short edge at x = 3 - y overflows its error and
      the vertical long edge stays at x = 0, so the row spans 0..3-y. */
  lemma ExampleRow(x: int, y: int)
    requires x + y == 3 && 0 <= y < 3
    ensures BottomRows(Edge(x, 1, 3, 3, -1, false), Edge(0, 1, 3, 0, 1, true), y, y, 0, 3)
         == [Span(0, x, y)] + BottomRows(Edge(x - 1, 1, 3, 3, -1, false), Edge(0, 1, 3, 0, 1, true), y + 1, y + 1, 0, 3)
  {
    assert ShortBottom(Edge(x, 1, 3, 3, -1, false), y) == Stepped(Edge(x, 1, 3, 3, -1, false), y, 0);
    assert LongStep(Edge(0, 1, 3, 0, 1, true), true, 0) == Moved(Edge(0, 1, 3, 0, 1, true), 0);
  }

  /** The example's last row, where the short edge's counter has run out. */
  lemma ExampleLastRow()
    ensures BottomRows(Edge(0, 1, 3, 3, -1, false), Edge(0, 1, 3, 0, 1, true), 3, 3, 0, 3) == [Span(0, 0, 3)]
  {
    assert ShortBottom(Edge(0, 1, 3, 3, -1, false), 3) == Stepped(Edge(0, 1, 3, 3, -1, false), 3, 0);
    assert LongStep(Edge(0, 1, 3, 0, 1, true), true, 0) == Moved(Edge(0, 1, 3, 0, 1, true), 0);
  }
}
