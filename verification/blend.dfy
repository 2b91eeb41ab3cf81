/** The blend step (`draw_pixel`) and the fold of a primitive's write list through it. */
module Blend {
  import opened Pixels
  import opened Sprites
  import opened Shapes
  import opened Wrappers

  /** The ALPHA channel mix `(uint8_t)(a * src + (1 - a) * dst)` with `a = alpha / 255`:
      (source alpha, source channel, destination channel) to stored channel. It is computed in
      single-precision floats, so the model keeps it as a parameter. */
  type Mixer = (byte, byte, byte) -> byte

  /** The two weights the float mix computes exactly: weight 1 keeps the source, weight 0 the destination. */
  ghost predicate ExactEnds(mix: Mixer)
  {
    forall s: byte, d: byte :: mix(255, s, d) == s && mix(0, s, d) == d
  }

  /** The pixel ALPHA mode stores: colour channels mixed, alpha opaque through the three-channel constructor. */
  function AlphaOver(mix: Mixer, src: Pixel, dst: Pixel): Pixel
  {
    Rgb(mix(src.a, src.r, dst.r), mix(src.a, src.g, dst.g), mix(src.a, src.b, dst.b))
  }

  /** The pixel a mode stores over `dst`, or None when the mode skips the write. */
  function Composite(mode: Mode, mix: Mixer, src: Pixel, dst: Pixel): Option<Pixel>
  {
    match mode
    case Normal => Some(src)
    case Mask => if src.a != 255 then Some(src) else None
    case Alpha => Some(AlphaOver(mix, src, dst))
  }

  /** `draw_pixel`: blend `p` into cell (x, y) of the drawing target, if there is one. */
  function DrawPixel(target: Option<Sprite>, mode: Mode, mix: Mixer, x: int, y: int, p: Pixel): (t: Option<Sprite>)
    ensures t.Some? <==> target.Some?
    ensures target.Some? ==> t.value.width == target.value.width && t.value.height == target.value.height
    ensures target.Some? ==> forall i, j :: i != x || j != y ==> Get(t.value, i, j) == Get(target.value, i, j)
    ensures target.Some? && !InBounds(target.value, x, y) ==> t == target
    ensures target.Some? && InBounds(target.value, x, y) ==>
      var d := Get(target.value, x, y);
      && (mode == Normal ==> Get(t.value, x, y) == p)
      && (mode == Mask ==> Get(t.value, x, y) == if p.a != 255 then p else d)
      && (mode == Alpha ==> Get(t.value, x, y) == AlphaOver(mix, p, d))
  {
    match target
    case None => None
    case Some(s) =>
      match Composite(mode, mix, p, Get(s, x, y))
      case Some(q) => Some(Set(s, x, y, q))
      case None => target
  }

  /** Under ALPHA, a fully opaque source is stored exactly as NORMAL stores it. */
  lemma AlphaOpaqueIsNormal(target: Option<Sprite>, mix: Mixer, x: int, y: int, p: Pixel)
    requires ExactEnds(mix)
    requires p.a == 255
    ensures DrawPixel(target, Alpha, mix, x, y, p) == DrawPixel(target, Normal, mix, x, y, p)
  {
    if target.Some? {
      var d := Get(target.value, x, y);
      assert AlphaOver(mix, p, d) == p;
    }
  }

  /** Under ALPHA, a fully transparent source keeps the destination's colour and makes it opaque. */
  lemma AlphaClearKeepsColour(target: Sprite, mix: Mixer, x: int, y: int, p: Pixel)
    requires ExactEnds(mix)
    requires p.a == 0
    requires InBounds(target, x, y)
    ensures var d := Get(target, x, y);
      Get(DrawPixel(Some(target), Alpha, mix, x, y, p).value, x, y) == Pixel(d.r, d.g, d.b, 255)
  {
    var d := Get(target, x, y);
    assert AlphaOver(mix, p, d) == Pixel(d.r, d.g, d.b, 255);
  }

  /** `draw_pixel` applied to each write in order. */
  function Apply(target: Option<Sprite>, mode: Mode, mix: Mixer, ws: seq<Write>): (t: Option<Sprite>)
    ensures t.Some? <==> target.Some?
    ensures target.Some? ==> t.value.width == target.value.width && t.value.height == target.value.height
    decreases |ws|
  {
    if |ws| == 0 then target
    else Apply(DrawPixel(target, mode, mix, ws[0].x, ws[0].y, ws[0].p), mode, mix, ws[1..])
  }

  /** Folding a write list leaves every cell outside its footprint as it was. */
  lemma {:induction false} ApplyKeeps(target: Sprite, mode: Mode, mix: Mixer, ws: seq<Write>, i: int, j: int)
    requires Point(i, j) !in Footprint(ws)
    ensures Get(Apply(Some(target), mode, mix, ws).value, i, j) == Get(target, i, j)
    decreases |ws|
  {
    if |ws| > 0 {
      var t := DrawPixel(Some(target), mode, mix, ws[0].x, ws[0].y, ws[0].p);
      assert Footprint(ws) == [Point(ws[0].x, ws[0].y)] + Footprint(ws[1..]);
      ApplyKeeps(t.value, mode, mix, ws[1..], i, j);
    }
  }

  /** Folding a concatenation is folding one list after the other. */
  lemma {:induction false} ApplyAppend(target: Option<Sprite>, mode: Mode, mix: Mixer, ws1: seq<Write>, ws2: seq<Write>)
    ensures Apply(target, mode, mix, ws1 + ws2) == Apply(Apply(target, mode, mix, ws1), mode, mix, ws2)
    decreases |ws1|
  {
    if |ws1| > 0 {
      assert (ws1 + ws2)[1..] == ws1[1..] + ws2;
      var t := DrawPixel(target, mode, mix, ws1[0].x, ws1[0].y, ws1[0].p);
      ApplyAppend(t, mode, mix, ws1[1..], ws2);
    } else {
      assert ws1 + ws2 == ws2;
    }
  }

  lemma DrawNormalAt(target: Sprite, mix: Mixer, x: int, y: int, p: Pixel, i: int, j: int)
    ensures var t := DrawPixel(Some(target), Normal, mix, x, y, p).value;
      Get(t, i, j) == (if i == x && j == y && InBounds(target, x, y) then p else Get(target, i, j))
      && (InBounds(t, i, j) <==> InBounds(target, i, j))
  {
  }

  /** NORMAL mode, one cell: painted when the point list holds it and it is in range, otherwise kept. */
  lemma {:induction false} PaintNormalAt(target: Sprite, mix: Mixer, ps: seq<Point>, p: Pixel, i: int, j: int)
    ensures Get(Apply(Some(target), Normal, mix, Paint(ps, p)).value, i, j)
         == if Point(i, j) in ps && InBounds(target, i, j) then p else Get(target, i, j)
    decreases |ps|
  {
    if |ps| > 0 {
      var t0 := DrawPixel(Some(target), Normal, mix, ps[0].x, ps[0].y, p);
      assert Paint(ps, p)[1..] == Paint(ps[1..], p);
      DrawNormalAt(target, mix, ps[0].x, ps[0].y, p, i, j);
      PaintNormalAt(t0.value, mix, ps[1..], p, i, j);
      assert Point(i, j) in ps <==> Point(i, j) == ps[0] || Point(i, j) in ps[1..] by {
        assert ps == [ps[0]] + ps[1..];
      }
    }
  }

  /** NORMAL mode paints one colour over exactly the in-range cells of the point list. */
  lemma PaintNormal(target: Sprite, mix: Mixer, ps: seq<Point>, p: Pixel)
    ensures var t := Apply(Some(target), Normal, mix, Paint(ps, p));
      forall i, j :: Get(t.value, i, j) == if Point(i, j) in ps && InBounds(target, i, j) then p else Get(target, i, j)
  {
    forall i, j ensures Get(Apply(Some(target), Normal, mix, Paint(ps, p)).value, i, j)
                     == if Point(i, j) in ps && InBounds(target, i, j) then p else Get(target, i, j) {
      PaintNormalAt(target, mix, ps, p, i, j);
    }
  }

  /** MASK mode skips an opaque colour entirely and otherwise paints like NORMAL. */
  lemma {:induction false} PaintMask(target: Sprite, mix: Mixer, ps: seq<Point>, p: Pixel)
    ensures Apply(Some(target), Mask, mix, Paint(ps, p))
         == if p.a == 255 then Some(target) else Apply(Some(target), Normal, mix, Paint(ps, p))
    decreases |ps|
  {
    if |ps| > 0 {
      assert Paint(ps, p)[1..] == Paint(ps[1..], p);
      var tm := DrawPixel(Some(target), Mask, mix, ps[0].x, ps[0].y, p);
      var tn := DrawPixel(Some(target), Normal, mix, ps[0].x, ps[0].y, p);
      if p.a == 255 {
        assert tm == Some(target);
        PaintMask(target, mix, ps[1..], p);
      } else {
        assert tm == tn;
        PaintMask(tn.value, mix, ps[1..], p);
      }
    }
  }

  /** NORMAL mode over a list that touches each cell at most once: an in-range cell ends up holding
      the pixel of the write aimed at it. */
  lemma {:induction false} ApplyNormalAt(target: Sprite, mix: Mixer, ws: seq<Write>, wr: Write)
    requires Distinct(Footprint(ws))
    requires wr in ws && InBounds(target, wr.x, wr.y)
    ensures Get(Apply(Some(target), Normal, mix, ws).value, wr.x, wr.y) == wr.p
    decreases |ws|
  {
    var t0 := DrawPixel(Some(target), Normal, mix, ws[0].x, ws[0].y, ws[0].p);
    DistinctTail(ws);
    if ws[0] == wr {
      ApplyKeeps(t0.value, Normal, mix, ws[1..], wr.x, wr.y);
    } else {
      var k :| 0 <= k < |ws| && ws[k] == wr;
      assert ws[1..][k - 1] == wr;
      ApplyNormalAt(t0.value, mix, ws[1..], wr);
    }
  }

  /** The same, for a cell named by its coordinates. */
  lemma ApplyNormalCell(target: Sprite, mix: Mixer, ws: seq<Write>, x: int, y: int, p: Pixel)
    requires Distinct(Footprint(ws))
    requires Write(x, y, p) in ws && InBounds(target, x, y)
    ensures Get(Apply(Some(target), Normal, mix, ws).value, x, y) == p
  {
    ApplyNormalAt(target, mix, ws, Write(x, y, p));
  }
}
