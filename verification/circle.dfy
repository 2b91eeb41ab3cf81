/** `draw_circle` and `fill_circle`: the midpoint recurrence over one octant, mirrored eight ways. */
module Circles {
  import opened Arith
  import opened Shapes

  /** The midpoint loop from offset (a, b) with decision value `d`: the offsets visited while `b >= a`. */
  function Octant(a: int, b: int, d: int): (os: seq<Point>)
    decreases if b >= a then b - a + 1 else 0
  {
    if b < a then []
    else if d < 0 then [Point(a, b)] + Octant(a + 1, b, d + 4 * a + 6)
    else [Point(a, b)] + Octant(a + 1, b - 1, d + 4 * (a - b) + 10)
  }

  /** The octant offsets for a radius: none when the radius is 0 (early return) or negative (the loop never runs). */
  function OctantPoints(radius: int): seq<Point>
  {
    if radius == 0 then [] else Octant(0, radius, 3 - 2 * radius)
  }

  /** The eight reflections of an offset about the centre, in the order `draw_circle` draws them. */
  function Mirror8(cx: int, cy: int, o: Point): seq<Point>
  {
    [Point(cx - o.x, cy - o.y), Point(cx - o.y, cy - o.x), Point(cx + o.y, cy - o.x), Point(cx + o.x, cy - o.y),
     Point(cx - o.x, cy + o.y), Point(cx - o.y, cy + o.x), Point(cx + o.y, cy + o.x), Point(cx + o.x, cy + o.y)]
  }

  /** The stroke: each octant offset's eight reflections in turn. */
  function Stroke(cx: int, cy: int, os: seq<Point>): (ps: seq<Point>)
    ensures |ps| == 8 * |os|
    ensures forall q :: q in ps <==> exists o :: o in os && q in Mirror8(cx, cy, o)
  {
    if |os| == 0 then [] else Mirror8(cx, cy, os[0]) + Stroke(cx, cy, os[1..])
  }

  /** `draw_circle(x, y, radius)`: the pixels in the order they are drawn. */
  function CirclePoints(cx: int, cy: int, radius: int): seq<Point>
  {
    Stroke(cx, cy, OctantPoints(radius))
  }

  /** The four scanlines `fill_circle` draws for one octant offset. */
  function Spans4(cx: int, cy: int, o: Point): seq<Span>
  {
    [Span(cx - o.x, cx + o.x, cy - o.y), Span(cx - o.y, cx + o.y, cy - o.x),
     Span(cx - o.x, cx + o.x, cy + o.y), Span(cx - o.y, cx + o.y, cy + o.x)]
  }

  function FillSpans(cx: int, cy: int, os: seq<Point>): (spans: seq<Span>)
    ensures |spans| == 4 * |os|
    ensures forall s :: s in spans <==> exists o :: o in os && s in Spans4(cx, cy, o)
  {
    if |os| == 0 then [] else Spans4(cx, cy, os[0]) + FillSpans(cx, cy, os[1..])
  }

  /** `fill_circle(x, y, radius)`: its scanlines in the order they are drawn. */
  function FillCircleSpans(cx: int, cy: int, radius: int): seq<Span>
  {
    FillSpans(cx, cy, OctantPoints(radius))
  }

  function FillCirclePoints(cx: int, cy: int, radius: int): seq<Point>
  {
    Flatten(FillCircleSpans(cx, cy, radius))
  }

  /** A radius of 0 or less draws nothing, stroked or filled. */
  lemma NothingWithoutRadius(cx: int, cy: int, radius: int)
    requires radius <= 0
    ensures CirclePoints(cx, cy, radius) == [] && FillCirclePoints(cx, cy, radius) == []
  {
  }

  /** The squared distance of offset (a, b) from the circle of radius r. */
  function Residual(a: int, b: int, r: int): int
  {
    a * a + b * b - r * r
  }

  /** The loop's decision value: the residuals of the two candidates for the next column added. */
  function Decision(a: int, b: int, r: int): int
  {
    Residual(a + 1, b, r) + Residual(a + 1, b - 1, r)
  }

  /** The offsets a circle is built from: the first octant, each within half a pixel of the radius. */
  ghost predicate NearCircle(o: Point, r: int)
  {
    0 <= o.x <= o.y <= r && -o.y <= Residual(o.x, o.y, r) < o.y
  }

  /** One iteration keeps the decision value and, while the loop goes on, the half-pixel bound. */
  lemma OctantStep(a: int, b: int, d: int, r: int)
    requires 0 <= a <= b <= r && d == Decision(a, b, r) && -b <= Residual(a, b, r) < b
    ensures d < 0 ==> d + 4 * a + 6 == Decision(a + 1, b, r)
    ensures d < 0 && a + 1 <= b ==> -b <= Residual(a + 1, b, r) < b
    ensures d >= 0 ==> d + 4 * (a - b) + 10 == Decision(a + 1, b - 1, r)
    ensures d >= 0 && a + 1 <= b - 1 ==> -(b - 1) <= Residual(a + 1, b - 1, r) < b - 1
  {
    assert (a + 1) * (a + 1) == a * a + 2 * a + 1;
    assert (a + 2) * (a + 2) == (a + 1) * (a + 1) + 2 * a + 3;
    assert (b - 1) * (b - 1) == b * b - 2 * b + 1;
    assert (b - 2) * (b - 2) == (b - 1) * (b - 1) - 2 * b + 3;
  }

  lemma {:induction false} OctantInvariant(a: int, b: int, d: int, r: int)
    requires 0 <= a && b <= r && d == Decision(a, b, r)
    requires a <= b ==> -b <= Residual(a, b, r) < b
    ensures forall o :: o in Octant(a, b, d) ==> a <= o.x && NearCircle(o, r)
    decreases if b >= a then b - a + 1 else 0
  {
    if a <= b {
      OctantStep(a, b, d, r);
      if d < 0 {
        OctantInvariant(a + 1, b, d + 4 * a + 6, r);
      } else {
        OctantInvariant(a + 1, b - 1, d + 4 * (a - b) + 10, r);
      }
    }
  }

  /** Every octant offset (x0, y0) has 0 <= x0 <= y0 <= radius and lies within half a pixel of the
      circle: `radius^2 - y0 <= x0^2 + y0^2 < radius^2 + y0`. */
  lemma OctantNearCircle(radius: int)
    ensures forall o :: o in OctantPoints(radius) ==> NearCircle(o, radius)
  {
    if radius > 0 {
      assert Decision(0, radius, radius) == 3 - 2 * radius by {
        assert (radius - 1) * (radius - 1) == radius * radius - 2 * radius + 1;
      }
      OctantInvariant(0, radius, 3 - 2 * radius, radius);
    }
  }

  /** The loop walks one column at a time, dropping at most one row per column, and stops on the diagonal. */
  lemma {:induction false} OctantWalk(a: int, b: int, d: int)
    ensures |Octant(a, b, d)| > 0 <==> a <= b
    ensures |Octant(a, b, d)| > 0 ==> Octant(a, b, d)[0] == Point(a, b)
    ensures var os := Octant(a, b, d);
      |os| > 0 ==> 0 <= os[|os| - 1].y - os[|os| - 1].x <= 1
    ensures var os := Octant(a, b, d);
      forall k :: 0 <= k < |os| - 1 ==> os[k + 1].x == os[k].x + 1 && os[k].y - 1 <= os[k + 1].y <= os[k].y
    decreases if b >= a then b - a + 1 else 0
  {
    if a <= b {
      var os := Octant(a, b, d);
      var b', d' := if d < 0 then b else b - 1, if d < 0 then d + 4 * a + 6 else d + 4 * (a - b) + 10;
      var a' := a + 1;
      var rest := Octant(a', b', d');
      assert os == [Point(a, b)] + rest;
      OctantWalk(a', b', d');
      forall k | 0 <= k < |os| - 1
        ensures os[k + 1].x == os[k].x + 1 && os[k].y - 1 <= os[k + 1].y <= os[k].y
      {
        if k > 0 {
          assert os[k] == rest[k - 1] && os[k + 1] == rest[k];
        }
      }
    }
  }

  /** The octant of a positive radius starts straight above the centre, at (0, radius), and ends on the diagonal. */
  lemma OctantShape(radius: int)
    requires radius > 0
    ensures var os := OctantPoints(radius);
      |os| > 0 && os[0] == Point(0, radius) && 0 <= os[|os| - 1].y - os[|os| - 1].x <= 1
    ensures var os := OctantPoints(radius);
      forall k :: 0 <= k < |os| - 1 ==> os[k + 1].x == os[k].x + 1 && os[k].y - 1 <= os[k + 1].y <= os[k].y
  {
    var os := OctantPoints(radius);
    assert os == Octant(0, radius, 3 - 2 * radius);
    OctantWalk(0, radius, 3 - 2 * radius);
  }

  lemma SmallOctants()
    ensures OctantPoints(1) == [Point(0, 1)]
    ensures OctantPoints(2) == [Point(0, 2), Point(1, 2)]
    ensures OctantPoints(3) == [Point(0, 3), Point(1, 3), Point(2, 2)]
  {
  }

  function Dist2(q: Point, cx: int, cy: int): int
  {
    (q.x - cx) * (q.x - cx) + (q.y - cy) * (q.y - cy)
  }

  lemma MirrorDistance(cx: int, cy: int, o: Point, q: Point)
    requires q in Mirror8(cx, cy, o)
    ensures Dist2(q, cx, cy) == o.x * o.x + o.y * o.y
  {
    assert (-o.x) * (-o.x) == o.x * o.x && (-o.y) * (-o.y) == o.y * o.y;
  }

  /** Every stroked pixel lies on the ring `radius^2 - radius <= dist^2 < radius^2 + radius` around the centre. */
  lemma CircleOnRing(cx: int, cy: int, radius: int)
    ensures forall q :: q in CirclePoints(cx, cy, radius) ==>
      radius * radius - radius <= Dist2(q, cx, cy) < radius * radius + radius
  {
    OctantNearCircle(radius);
    forall q | q in CirclePoints(cx, cy, radius)
      ensures radius * radius - radius <= Dist2(q, cx, cy) < radius * radius + radius
    {
      var o :| o in OctantPoints(radius) && q in Mirror8(cx, cy, o);
      MirrorDistance(cx, cy, o, q);
    }
  }

  /** The left-right flip of each reflection is another reflection. */
  lemma MirrorFlipX(cx: int, cy: int, o: Point, i: int)
    requires 0 <= i < 8
    ensures var ms := Mirror8(cx, cy, o);
      Point(2 * cx - ms[i].x, ms[i].y) == ms[if i < 4 then 3 - i else 11 - i]
  {
  }

  /** The up-down flip of each reflection is another reflection. */
  lemma MirrorFlipY(cx: int, cy: int, o: Point, i: int)
    requires 0 <= i < 8
    ensures var ms := Mirror8(cx, cy, o);
      Point(ms[i].x, 2 * cy - ms[i].y) == ms[if i < 4 then i + 4 else i - 4]
  {
  }

  /** The diagonal swap of each reflection is another reflection. */
  lemma MirrorSwap(cx: int, cy: int, o: Point, i: int)
    requires 0 <= i < 8
    ensures var ms := Mirror8(cx, cy, o);
      Point(cx + (ms[i].y - cy), cy + (ms[i].x - cx)) == ms[[1, 0, 4, 5, 2, 3, 7, 6][i]]
  {
  }

  lemma MirrorClosed(cx: int, cy: int, o: Point, q: Point)
    requires q in Mirror8(cx, cy, o)
    ensures Point(2 * cx - q.x, q.y) in Mirror8(cx, cy, o)
    ensures Point(q.x, 2 * cy - q.y) in Mirror8(cx, cy, o)
    ensures Point(cx + (q.y - cy), cy + (q.x - cx)) in Mirror8(cx, cy, o)
  {
    var ms := Mirror8(cx, cy, o);
    var i :| 0 <= i < 8 && ms[i] == q;
    MirrorFlipX(cx, cy, o, i);
    MirrorFlipY(cx, cy, o, i);
    MirrorSwap(cx, cy, o, i);
  }

  /** The stroke is symmetric under the left-right flip, the up-down flip and the diagonal swap about the centre. */
  lemma CircleSymmetric(cx: int, cy: int, radius: int)
    ensures forall q :: q in CirclePoints(cx, cy, radius) ==>
      Point(2 * cx - q.x, q.y) in CirclePoints(cx, cy, radius) &&
      Point(q.x, 2 * cy - q.y) in CirclePoints(cx, cy, radius) &&
      Point(cx + (q.y - cy), cy + (q.x - cx)) in CirclePoints(cx, cy, radius)
  {
    forall q | q in CirclePoints(cx, cy, radius)
      ensures Point(2 * cx - q.x, q.y) in CirclePoints(cx, cy, radius)
      ensures Point(q.x, 2 * cy - q.y) in CirclePoints(cx, cy, radius)
      ensures Point(cx + (q.y - cy), cy + (q.x - cx)) in CirclePoints(cx, cy, radius)
    {
      var o :| o in OctantPoints(radius) && q in Mirror8(cx, cy, o);
      MirrorClosed(cx, cy, o, q);
    }
  }

  /** Every scanline of the fill is centred on the circle's column. */
  lemma FillCentred(cx: int, cy: int, radius: int)
    ensures forall s :: s in FillCircleSpans(cx, cy, radius) ==> s.lo + s.hi == 2 * cx && s.lo <= s.hi
  {
    OctantNearCircle(radius);
  }

  lemma DiscBound(t: int, u: int, a: int, b: int, radius: int)
    requires -a <= t <= a && (u == b || u == -b) && a * a + b * b < radius * radius + radius
    ensures t * t + u * u < radius * radius + radius
  {
    SquareBound(t, a);
    assert u * u == b * b;
  }

  lemma SpanInDisc(cx: int, cy: int, radius: int, o: Point, s: Span, q: Point)
    requires NearCircle(o, radius) && s in Spans4(cx, cy, o) && q in SpanPoints(s)
    ensures Dist2(q, cx, cy) < radius * radius + radius
  {
    var t, u := q.x - cx, q.y - cy;
    assert t * t + u * u < radius * radius + radius by {
      var ss := Spans4(cx, cy, o);
      var i :| 0 <= i < 4 && ss[i] == s;
      assert q.y == s.y && s.lo <= q.x <= s.hi;
      assert o.x * o.x + o.y * o.y < radius * radius + radius;
      if i == 0 || i == 2 {
        DiscBound(t, u, o.x, o.y, radius);
      } else {
        DiscBound(t, u, o.y, o.x, radius);
      }
    }
  }

  /** Every filled pixel lies inside the disc `dist^2 < radius^2 + radius`. */
  lemma FillInDisc(cx: int, cy: int, radius: int)
    ensures forall q :: q in FillCirclePoints(cx, cy, radius) ==> Dist2(q, cx, cy) < radius * radius + radius
  {
    OctantNearCircle(radius);
    var spans := FillCircleSpans(cx, cy, radius);
    forall q | q in FillCirclePoints(cx, cy, radius)
      ensures Dist2(q, cx, cy) < radius * radius + radius
    {
      var s :| s in spans && q in SpanPoints(s);
      var o :| o in OctantPoints(radius) && s in Spans4(cx, cy, o);
      SpanInDisc(cx, cy, radius, o, s, q);
    }
  }

  lemma MirrorInSpans(cx: int, cy: int, o: Point, q: Point) returns (s: Span)
    requires 0 <= o.x <= o.y && q in Mirror8(cx, cy, o)
    ensures s in Spans4(cx, cy, o) && q in SpanPoints(s)
  {
    var ms, ss := Mirror8(cx, cy, o), Spans4(cx, cy, o);
    var i :| 0 <= i < 8 && ms[i] == q;
    s := if i == 0 || i == 3 then ss[0] else if i == 1 || i == 2 then ss[1] else if i == 4 || i == 7 then ss[2] else ss[3];
    assert q.y == s.y && s.lo <= q.x <= s.hi;
  }

  /** The fill covers the stroke: every pixel `draw_circle` draws, `fill_circle` draws too. */
  lemma FillCoversStroke(cx: int, cy: int, radius: int)
    ensures forall q :: q in CirclePoints(cx, cy, radius) ==> q in FillCirclePoints(cx, cy, radius)
  {
    OctantNearCircle(radius);
    var spans := FillCircleSpans(cx, cy, radius);
    forall q | q in CirclePoints(cx, cy, radius)
      ensures q in FillCirclePoints(cx, cy, radius)
    {
      var o :| o in OctantPoints(radius) && q in Mirror8(cx, cy, o);
      var s := MirrorInSpans(cx, cy, o, q);
      assert s in spans && q in SpanPoints(s);
    }
  }
}
