/** Points, horizontal spans and pixel writes: what every primitive hands to `draw_pixel`. */
module Shapes {
  import opened Pixels

  datatype Point = Point(x: int, y: int)

  /** One `draw_pixel(x, y, p)` call. */
  datatype Write = Write(x: int, y: int, p: Pixel)

  /** The scanline lambda `drawline(sx, ex, ny)`: cells `lo..hi` (inclusive) of row `y`, left to right. */
  datatype Span = Span(lo: int, hi: int, y: int)

  function SpanPoints(s: Span): (ps: seq<Point>)
    ensures |ps| == if s.lo <= s.hi then s.hi - s.lo + 1 else 0
    ensures forall k :: 0 <= k < |ps| ==> ps[k] == Point(s.lo + k, s.y)
    ensures forall q :: q in ps <==> q.y == s.y && s.lo <= q.x <= s.hi
    decreases s.hi - s.lo
  {
    if s.lo > s.hi then []
    else
      var rest := SpanPoints(Span(s.lo + 1, s.hi, s.y));
      assert forall q :: q in rest <==> q.y == s.y && s.lo + 1 <= q.x <= s.hi;
      [Point(s.lo, s.y)] + rest
  }

  /** The cells of a list of spans, span after span. */
  function Flatten(spans: seq<Span>): (ps: seq<Point>)
    ensures forall q :: q in ps <==> exists s :: s in spans && q in SpanPoints(s)
  {
    if |spans| == 0 then []
    else
      var head, rest := SpanPoints(spans[0]), Flatten(spans[1..]);
      assert forall s :: s in spans <==> s == spans[0] || s in spans[1..] by {
        assert spans == [spans[0]] + spans[1..];
      }
      assert forall q :: q in head + rest <==> exists s :: s in spans && q in SpanPoints(s) by {
        forall q | q in head ensures exists s :: s in spans && q in SpanPoints(s) {
          assert spans[0] in spans;
        }
      }
      head + rest
  }

  /** One colour drawn at every point, in order. */
  function Paint(ps: seq<Point>, p: Pixel): (ws: seq<Write>)
    ensures |ws| == |ps|
    ensures forall k :: 0 <= k < |ps| ==> ws[k] == Write(ps[k].x, ps[k].y, p)
  {
    if |ps| == 0 then [] else [Write(ps[0].x, ps[0].y, p)] + Paint(ps[1..], p)
  }

  /** The cells a list of writes touches, in order. */
  function Footprint(ws: seq<Write>): (ps: seq<Point>)
    ensures |ps| == |ws|
    ensures forall k :: 0 <= k < |ws| ==> ps[k] == Point(ws[k].x, ws[k].y)
  {
    if |ws| == 0 then [] else [Point(ws[0].x, ws[0].y)] + Footprint(ws[1..])
  }

  lemma FootprintOfPaint(ps: seq<Point>, p: Pixel)
    ensures Footprint(Paint(ps, p)) == ps
  {
  }

  /** No point repeats: each cell is drawn once. */
  ghost predicate Distinct(ps: seq<Point>)
  {
    forall a, b :: 0 <= a < b < |ps| ==> ps[a] != ps[b]
  }

  /** Dropping the first write of a list that touches each cell once leaves a list that touches
      each cell once and never the first write's cell. */
  lemma {:induction false} DistinctTail(ws: seq<Write>)
    requires |ws| > 0 && Distinct(Footprint(ws))
    ensures Distinct(Footprint(ws[1..]))
    ensures Point(ws[0].x, ws[0].y) !in Footprint(ws[1..])
  {
    var fp, rest := Footprint(ws), Footprint(ws[1..]);
    assert rest == fp[1..];
    forall k | 0 <= k < |rest| ensures rest[k] != fp[0] {
      assert rest[k] == fp[k + 1];
    }
  }

  lemma DistinctConcat(xs: seq<Point>, ys: seq<Point>)
    requires Distinct(xs) && Distinct(ys)
    requires forall q :: q in xs ==> q !in ys
    ensures Distinct(xs + ys)
  {
    var zs := xs + ys;
    forall a, b | 0 <= a < b < |zs| ensures zs[a] != zs[b] {
      if b >= |xs| {
        assert zs[b] == ys[b - |xs|] && zs[b] in ys;
        if a < |xs| {
          assert zs[a] == xs[a] && zs[a] in xs;
        } else {
          assert zs[a] == ys[a - |xs|];
        }
      }
    }
  }
}
