/** `draw_line`: integer Bresenham stepping along the axis with the larger extent. */
module Lines {
  import opened Arith
  import opened Shapes

  /** The pixel at major coordinate `u` and minor coordinate `v`; `swap` when the major axis is y. */
  function Orient(u: int, v: int, swap: bool): Point
  {
    if swap then Point(v, u) else Point(u, v)
  }

  /** Whether the error term calls for staying on the same minor coordinate: the x-major loop
      tests `px < 0`, the y-major loop tests `py <= 0`. */
  predicate StaysPut(err: int, swap: bool)
  {
    if swap then err <= 0 else err < 0
  }

  /** One Bresenham loop: the pixel at (u, v), then `rest` further pixels, each one step further
      along the major axis; `d` and `dd` are the minor and major extents, `step` the minor direction. */
  function Run(u: int, v: int, rest: nat, err: int, d: int, dd: int, step: int, swap: bool): (ps: seq<Point>)
    ensures |ps| == rest + 1
    ensures ps[0] == Orient(u, v, swap)
    decreases rest
  {
    if rest == 0 then [Orient(u, v, swap)]
    else if StaysPut(err, swap) then [Orient(u, v, swap)] + Run(u + 1, v, rest - 1, err + 2 * d, d, dd, step, swap)
    else [Orient(u, v, swap)] + Run(u + 1, v + step, rest - 1, err + 2 * (d - dd), d, dd, step, swap)
  }

  /** The minor-axis direction: +1 when both deltas share a sign, -1 otherwise. */
  function MinorStep(dx: int, dy: int): (s: int)
    ensures s == 1 || s == -1
  {
    if (dx < 0 && dy < 0) || (dx > 0 && dy > 0) then 1 else -1
  }

  /** What `draw_line` fixes before its loop: the start pixel in (major, minor) coordinates, the
      minor and major extents `d` and `dd` (`dd` is also the number of steps), the minor direction,
      and whether the major axis is y. */
  datatype Setup = Setup(u: int, v: int, d: nat, dd: nat, step: int, swap: bool)

  /** The x-major branch starts from the endpoint with the smaller x, the y-major branch from the
      one with the smaller y; the y-major branch is taken only when `|dy| > |dx|`. */
  function LineSetup(x1: int, y1: int, x2: int, y2: int): (g: Setup)
    ensures g.d <= g.dd
    ensures g.dd == Max(Abs(x2 - x1), Abs(y2 - y1)) && g.d == Min(Abs(x2 - x1), Abs(y2 - y1))
    ensures g.swap <==> Abs(x2 - x1) < Abs(y2 - y1)
    ensures g.step == 1 || g.step == -1
  {
    var dx, dy := x2 - x1, y2 - y1;
    var step := MinorStep(dx, dy);
    if Abs(dy) <= Abs(dx) then
      (if dx >= 0 then Setup(x1, y1, Abs(dy), Abs(dx), step, false) else Setup(x2, y2, Abs(dy), Abs(dx), step, false))
    else
      (if dy >= 0 then Setup(y1, x1, Abs(dx), Abs(dy), step, true) else Setup(y2, x2, Abs(dx), Abs(dy), step, true))
  }

  /** `draw_line(x1, y1, x2, y2)`: the pixels in the order they are drawn. The error term starts at
      `px = 2 * dy1 - dx1` (x-major) or `py = 2 * dx1 - dy1` (y-major). */
  function LinePoints(x1: int, y1: int, x2: int, y2: int): (ps: seq<Point>)
    ensures |ps| == Max(Abs(x2 - x1), Abs(y2 - y1)) + 1
  {
    var g := LineSetup(x1, y1, x2, y2);
    Run(g.u, g.v, g.dd, 2 * g.d - g.dd, g.d, g.dd, g.step, g.swap)
  }

  /** The exact minor offset after `k` major steps: `d * k / dd` rounded to the nearest integer,
      halves rounded up for an x-major line and down for a y-major one. */
  function Nearest(k: int, d: int, dd: int, swap: bool): int
    requires dd > 0
  {
    if swap then (2 * d * k + dd - 1) / (2 * dd) else (2 * d * k + dd) / (2 * dd)
  }

  lemma NearestStart(d: int, dd: int, swap: bool)
    requires 0 <= d <= dd && dd > 0
    ensures Nearest(0, d, dd, swap) == 0
  {
    DivIs(if swap then dd - 1 else dd, 2 * dd, 0);
  }

  lemma NearestEnd(d: int, dd: int, swap: bool)
    requires 0 <= d <= dd && dd > 0
    ensures Nearest(dd, d, dd, swap) == d
  {
    assert 2 * d * dd == 2 * dd * d;
    DivIs(if swap then 2 * d * dd + dd - 1 else 2 * d * dd + dd, 2 * dd, d);
  }

  /** One major step moves the rounded minor offset by the amount the error term's sign selects. */
  lemma NearestStep(k: int, d: int, dd: int, swap: bool)
    requires 0 <= d <= dd && dd > 0
    ensures var m := Nearest(k, d, dd, swap);
      var err := 2 * d * (k + 1) - dd * (2 * m + 1);
      Nearest(k + 1, d, dd, swap) == if StaysPut(err, swap) then m else m + 1
  {
    var m := Nearest(k, d, dd, swap);
    var c := if swap then dd - 1 else dd;
    var n := 2 * d * k + c;
    var n' := 2 * d * (k + 1) + c;
    assert n' == n + 2 * d;
    var den := 2 * dd;
    assert m == n / den;
    assert den * m <= n < den * m + den;
    var err := 2 * d * (k + 1) - dd * (2 * m + 1);
    assert err == n' - c - den * m - dd;
    if StaysPut(err, swap) {
      DivIs(n', den, m);
    } else {
      assert den * (m + 1) == den * m + den;
      DivIs(n', den, m + 1);
    }
  }

  /** Up to the far end the rounded minor offset stays between 0 and the minor extent. */
  lemma NearestRange(k: int, d: int, dd: int, swap: bool)
    requires 0 <= k <= dd && 0 <= d <= dd && dd > 0
    ensures 0 <= Nearest(k, d, dd, swap) <= d
  {
    var c := if swap then dd - 1 else dd;
    MulMono(2 * d, k, dd);
    assert 2 * d * k == (2 * d) * k && 2 * d * dd == (2 * d) * dd;
    DivMono(2 * d * k + c, 2 * d * dd + c, 2 * dd);
    NearestEnd(d, dd, swap);
    DivMono(0, 2 * d * k + c, 2 * dd);
  }

  /** With no minor extent the minor offset never moves. */
  lemma NearestFlat(k: int, dd: int, swap: bool)
    requires dd > 0
    ensures Nearest(k, 0, dd, swap) == 0
  {
    DivIs(if swap then dd - 1 else dd, 2 * dd, 0);
  }

  /** The error term the loop holds after `k` major steps. */
  function ErrAt(k: int, d: int, dd: int, swap: bool): int
    requires dd > 0
  {
    2 * d * (k + 1) - dd * (2 * Nearest(k, d, dd, swap) + 1)
  }

  /** The minor coordinate after `k` major steps from `v0`. */
  function MinorAt(v0: int, step: int, k: int, d: int, dd: int, swap: bool): int
    requires dd > 0
  {
    v0 + step * Nearest(k, d, dd, swap)
  }

  /** The arithmetic behind one step, on plain integers: `m1` is the next rounded offset. */
  lemma StepArith(d: int, dd: int, k1: int, m: int, m1: int, v0: int, step: int, stay: bool)
    requires m1 == if stay then m else m + 1
    ensures 2 * d * (k1 + 1) - dd * (2 * m1 + 1) == 2 * d * k1 - dd * (2 * m + 1) + (if stay then 2 * d else 2 * (d - dd))
    ensures v0 + step * m1 == v0 + step * m + (if stay then 0 else step)
  {
    assert 2 * d * (k1 + 1) == 2 * d * k1 + 2 * d;
    if !stay {
      assert dd * (2 * m1 + 1) == dd * (2 * m + 1) + 2 * dd;
      assert step * m1 == step * m + step;
    }
  }

  /** The loop's update of the error term and the minor coordinate agrees with the closed forms. */
  lemma StepAgrees(v0: int, step: int, k: int, d: int, dd: int, swap: bool)
    requires 0 <= d <= dd && dd > 0
    ensures var err := ErrAt(k, d, dd, swap);
      if StaysPut(err, swap) then
        ErrAt(k + 1, d, dd, swap) == err + 2 * d && MinorAt(v0, step, k + 1, d, dd, swap) == MinorAt(v0, step, k, d, dd, swap)
      else
        ErrAt(k + 1, d, dd, swap) == err + 2 * (d - dd) && MinorAt(v0, step, k + 1, d, dd, swap) == MinorAt(v0, step, k, d, dd, swap) + step
  {
    NearestStep(k, d, dd, swap);
    var m, m1 := Nearest(k, d, dd, swap), Nearest(k + 1, d, dd, swap);
    var err := ErrAt(k, d, dd, swap);
    StepArith(d, dd, k + 1, m, m1, v0, step, StaysPut(err, swap));
  }

  /** The j-th pixel of a run entered after `k` steps in the closed-form state sits at major offset
      `k + j` and rounded minor offset `Nearest(k + j)`. */
  lemma {:induction false} RunAt(u0: int, v0: int, k: nat, u: int, v: int, err: int, rest: nat,
                                 d: int, dd: int, step: int, swap: bool, j: nat)
    requires 0 <= d <= dd && dd > 0 && j <= rest
    requires u == u0 + k && v == MinorAt(v0, step, k, d, dd, swap) && err == ErrAt(k, d, dd, swap)
    ensures Run(u, v, rest, err, d, dd, step, swap)[j] == Orient(u0 + (k + j), MinorAt(v0, step, k + j, d, dd, swap), swap)
    decreases j
  {
    if j > 0 {
      StepAgrees(v0, step, k, d, dd, swap);
      var ps := Run(u, v, rest, err, d, dd, step, swap);
      if StaysPut(err, swap) {
        var tail := Run(u + 1, v, rest - 1, err + 2 * d, d, dd, step, swap);
        assert ps == [Orient(u, v, swap)] + tail;
        RunAt(u0, v0, k + 1, u + 1, v, err + 2 * d, rest - 1, d, dd, step, swap, j - 1);
        assert ps[j] == tail[j - 1];
      } else {
        var tail := Run(u + 1, v + step, rest - 1, err + 2 * (d - dd), d, dd, step, swap);
        assert ps == [Orient(u, v, swap)] + tail;
        RunAt(u0, v0, k + 1, u + 1, v + step, err + 2 * (d - dd), rest - 1, d, dd, step, swap, j - 1);
        assert ps[j] == tail[j - 1];
      }
    }
  }

  /** The endpoint the loop starts from: the one with the smaller major-axis coordinate
      (the first endpoint on a tie). */
  function LineStart(x1: int, y1: int, x2: int, y2: int): Point
  {
    var dx, dy := x2 - x1, y2 - y1;
    if Abs(dy) <= Abs(dx) then (if dx >= 0 then Point(x1, y1) else Point(x2, y2))
    else (if dy >= 0 then Point(x1, y1) else Point(x2, y2))
  }

  /** The other endpoint, where the loop stops. */
  function LineEnd(x1: int, y1: int, x2: int, y2: int): Point
  {
    if LineStart(x1, y1, x2, y2) == Point(x1, y1) then Point(x2, y2) else Point(x1, y1)
  }

  /** The setup's start pixel is the start endpoint, and `dd` major steps with `d` minor steps reach the other. */
  lemma SetupEnds(x1: int, y1: int, x2: int, y2: int)
    ensures var g := LineSetup(x1, y1, x2, y2);
      Orient(g.u, g.v, g.swap) == LineStart(x1, y1, x2, y2) &&
      Orient(g.u + g.dd, g.v + g.step * g.d, g.swap) == LineEnd(x1, y1, x2, y2)
  {
    var g := LineSetup(x1, y1, x2, y2);
    UnitMul(g.step, g.d);
  }

  /** An independent description of the k-th pixel: k steps from the start along the major axis,
      and the minor extent scaled by `k / dd` and rounded to the nearest integer. */
  function LinePixel(x1: int, y1: int, x2: int, y2: int, k: int): Point
  {
    var g := LineSetup(x1, y1, x2, y2);
    if g.dd == 0 then Orient(g.u, g.v, g.swap)
    else Orient(g.u + k, g.v + g.step * Nearest(k, g.d, g.dd, g.swap), g.swap)
  }

  /** Every pixel `draw_line` draws is the rounded point of the ideal segment at its major coordinate. */
  lemma LineMatchesReference(x1: int, y1: int, x2: int, y2: int)
    ensures var ps := LinePoints(x1, y1, x2, y2);
      forall k :: 0 <= k < |ps| ==> ps[k] == LinePixel(x1, y1, x2, y2, k)
  {
    var g := LineSetup(x1, y1, x2, y2);
    var ps := LinePoints(x1, y1, x2, y2);
    if g.dd > 0 {
      NearestStart(g.d, g.dd, g.swap);
      assert ErrAt(0, g.d, g.dd, g.swap) == 2 * g.d - g.dd;
      assert MinorAt(g.v, g.step, 0, g.d, g.dd, g.swap) == g.v;
      forall k | 0 <= k < |ps| ensures ps[k] == LinePixel(x1, y1, x2, y2, k) {
        RunAt(g.u, g.v, 0, g.u, g.v, 2 * g.d - g.dd, g.dd, g.d, g.dd, g.step, g.swap, k);
        assert MinorAt(g.v, g.step, 0 + k, g.d, g.dd, g.swap) == g.v + g.step * Nearest(k, g.d, g.dd, g.swap);
      }
    }
  }

  /** The first pixel drawn is the start endpoint and the last is the far endpoint. */
  lemma LineEnds(x1: int, y1: int, x2: int, y2: int)
    ensures var ps := LinePoints(x1, y1, x2, y2);
      ps[0] == LineStart(x1, y1, x2, y2) && ps[|ps| - 1] == LineEnd(x1, y1, x2, y2)
  {
    var g := LineSetup(x1, y1, x2, y2);
    var ps := LinePoints(x1, y1, x2, y2);
    SetupEnds(x1, y1, x2, y2);
    LineMatchesReference(x1, y1, x2, y2);
    if g.dd > 0 {
      NearestEnd(g.d, g.dd, g.swap);
      assert ps[|ps| - 1] == LinePixel(x1, y1, x2, y2, g.dd);
    }
  }

  /** Both endpoints are drawn. */
  lemma LineHasEndpoints(x1: int, y1: int, x2: int, y2: int)
    ensures Point(x1, y1) in LinePoints(x1, y1, x2, y2)
    ensures Point(x2, y2) in LinePoints(x1, y1, x2, y2)
  {
    LineEnds(x1, y1, x2, y2);
    var ps := LinePoints(x1, y1, x2, y2);
    assert ps[0] in ps && ps[|ps| - 1] in ps;
  }

  /** A point between two corners coordinate by coordinate. */
  predicate InBox(q: Point, a: Point, b: Point)
  {
    Between(q.x, a.x, b.x) && Between(q.y, a.y, b.y)
  }

  /** The reference pixel for an in-range step lies in the bounding box of the endpoints. */
  lemma PixelInBox(x1: int, y1: int, x2: int, y2: int, k: int)
    requires 0 <= k <= Max(Abs(x2 - x1), Abs(y2 - y1))
    ensures InBox(LinePixel(x1, y1, x2, y2, k), Point(x1, y1), Point(x2, y2))
  {
    var g := LineSetup(x1, y1, x2, y2);
    SetupEnds(x1, y1, x2, y2);
    UnitMul(g.step, g.d);
    if g.dd > 0 {
      var m := Nearest(k, g.d, g.dd, g.swap);
      NearestRange(k, g.d, g.dd, g.swap);
      UnitMul(g.step, m);
      assert InBox(LinePixel(x1, y1, x2, y2, k), LineStart(x1, y1, x2, y2), LineEnd(x1, y1, x2, y2));
    }
  }

  /** Every pixel lies in the bounding box of the two endpoints. */
  lemma LineInBox(x1: int, y1: int, x2: int, y2: int)
    ensures forall q :: q in LinePoints(x1, y1, x2, y2) ==> InBox(q, Point(x1, y1), Point(x2, y2))
  {
    var ps := LinePoints(x1, y1, x2, y2);
    LineMatchesReference(x1, y1, x2, y2);
    forall q | q in ps ensures InBox(q, Point(x1, y1), Point(x2, y2)) {
      var k :| 0 <= k < |ps| && ps[k] == q;
      PixelInBox(x1, y1, x2, y2, k);
    }
  }

  /** The minor coordinate moves by 0 or by the unit direction. */
  lemma UnitStep(step: int, m: int, m1: int)
    requires step == 1 || step == -1
    requires m1 == m || m1 == m + 1
    ensures Abs(step * m1 - step * m) <= 1
  {
    UnitMul(step, m);
    UnitMul(step, m1);
  }

  /** Consecutive pixels advance by exactly one along the major axis and by at most one along the minor axis. */
  lemma LineConnected(x1: int, y1: int, x2: int, y2: int)
    ensures var ps := LinePoints(x1, y1, x2, y2);
      forall k :: 0 <= k < |ps| - 1 ==>
        if Abs(y2 - y1) <= Abs(x2 - x1) then ps[k + 1].x == ps[k].x + 1 && Abs(ps[k + 1].y - ps[k].y) <= 1
        else ps[k + 1].y == ps[k].y + 1 && Abs(ps[k + 1].x - ps[k].x) <= 1
  {
    var g := LineSetup(x1, y1, x2, y2);
    var ps := LinePoints(x1, y1, x2, y2);
    LineMatchesReference(x1, y1, x2, y2);
    forall k | 0 <= k < |ps| - 1
      ensures if !g.swap then ps[k + 1].x == ps[k].x + 1 && Abs(ps[k + 1].y - ps[k].y) <= 1
              else ps[k + 1].y == ps[k].y + 1 && Abs(ps[k + 1].x - ps[k].x) <= 1
    {
      NearestStep(k, g.d, g.dd, g.swap);
      UnitStep(g.step, Nearest(k, g.d, g.dd, g.swap), Nearest(k + 1, g.d, g.dd, g.swap));
    }
  }

  /** A line with no minor extent: each pixel is k steps along the major axis from the start. */
  lemma FlatLine(x1: int, y1: int, x2: int, y2: int)
    requires LineSetup(x1, y1, x2, y2).d == 0
    ensures var g := LineSetup(x1, y1, x2, y2); var ps := LinePoints(x1, y1, x2, y2);
      forall k :: 0 <= k < |ps| ==> ps[k] == Orient(g.u + k, g.v, g.swap)
  {
    var g := LineSetup(x1, y1, x2, y2);
    var ps := LinePoints(x1, y1, x2, y2);
    LineMatchesReference(x1, y1, x2, y2);
    forall k | 0 <= k < |ps| ensures ps[k] == Orient(g.u + k, g.v, g.swap) {
      if g.dd > 0 {
        NearestFlat(k, g.dd, g.swap);
      }
    }
  }

  /** `ps` holds exactly the cells of row `y` from `xa` to `xb`, the ends in either order. */
  ghost predicate RowCells(ps: seq<Point>, xa: int, xb: int, y: int)
  {
    forall q :: q in ps <==> q.y == y && Between(q.x, xa, xb)
  }

  /** `ps` holds exactly the cells of column `x` from `ya` to `yb`, the ends in either order. */
  ghost predicate ColumnCells(ps: seq<Point>, x: int, ya: int, yb: int)
  {
    forall q :: q in ps <==> q.x == x && Between(q.y, ya, yb)
  }

  /** A horizontal line is exactly the run of cells between its ends on its row. */
  lemma HorizontalLine(xa: int, xb: int, y: int)
    ensures RowCells(LinePoints(xa, y, xb, y), xa, xb, y)
  {
    var g := LineSetup(xa, y, xb, y);
    FlatLine(xa, y, xb, y);
    var ps := LinePoints(xa, y, xb, y);
    forall q: Point | q.y == y && Between(q.x, xa, xb) ensures q in ps {
      assert ps[q.x - g.u] == q;
    }
  }

  /** A vertical line is exactly the run of cells between its ends in its column. */
  lemma VerticalLine(x: int, ya: int, yb: int)
    ensures ColumnCells(LinePoints(x, ya, x, yb), x, ya, yb)
  {
    var g := LineSetup(x, ya, x, yb);
    FlatLine(x, ya, x, yb);
    var ps := LinePoints(x, ya, x, yb);
    forall q: Point | q.x == x && Between(q.y, ya, yb) ensures q in ps {
      if ya == yb {
        assert ps[0] == q;
      } else {
        assert ps[q.y - g.u] == q;
      }
    }
  }

  /** The diagonal (0,0)-(5,5) is exactly the six pixels (k, k). */
  lemma DiagonalExample()
    ensures LinePoints(0, 0, 5, 5) == [Point(0, 0), Point(1, 1), Point(2, 2), Point(3, 3), Point(4, 4), Point(5, 5)]
  {
  }

  /** The horizontal (0,0)-(5,0) is exactly the six pixels (k, 0). */
  lemma HorizontalExample()
    ensures LinePoints(0, 0, 5, 0) == [Point(0, 0), Point(1, 0), Point(2, 0), Point(3, 0), Point(4, 0), Point(5, 0)]
  {
  }
}
