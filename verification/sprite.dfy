/** The pixel buffer (`Sprite`): a row-major grid of `width * height` pixels with bounds-checked access. */
module Sprites {
  import opened Pixels
  import Arith

  datatype Grid = Grid(width: nat, height: nat, cells: seq<Pixel>)

  /** A `Sprite`: exactly `width * height` cells, row `y` starting at cell `y * width`. */
  type Sprite = g: Grid | |g.cells| == g.width * g.height witness Grid(0, 0, [])

  predicate InBounds(s: Sprite, x: int, y: int)
  {
    0 <= x < s.width && 0 <= y < s.height
  }

  /** The row-major index of an in-range cell is in range. */
  lemma CellIndex(w: nat, h: nat, x: nat, y: nat)
    requires x < w && y < h
    ensures y * w + x < w * h
  {
    Arith.MulMono(w, y + 1, h);
    assert w * (y + 1) == y * w + w;
  }

  /** Distinct in-range cells have distinct row-major indices. */
  lemma CellIndexInjective(w: nat, x1: nat, y1: nat, x2: nat, y2: nat)
    requires x1 < w && x2 < w
    requires y1 * w + x1 == y2 * w + x2
    ensures x1 == x2 && y1 == y2
  {
    if y1 < y2 {
      Arith.MulMono(w, y1 + 1, y2);
    } else if y2 < y1 {
      Arith.MulMono(w, y2 + 1, y1);
    }
  }

  /** `get_pixel`: the stored pixel, or `Pixel()` for a cell outside the grid. */
  function Get(s: Sprite, x: int, y: int): (p: Pixel)
    ensures InBounds(s, x, y) || p == Default()
  {
    if InBounds(s, x, y) then
      CellIndex(s.width, s.height, x, y);
      s.cells[y * s.width + x]
    else
      Default()
  }

  /** `Sprite(w, h)`: a grid of default (opaque black) pixels. */
  function New(w: nat, h: nat): (s: Sprite)
    ensures s.width == w && s.height == h
    ensures forall x, y :: Get(s, x, y) == Default()
  {
    var s: Sprite := Grid(w, h, seq(w * h, _ => Default()));
    assert forall x, y :: Get(s, x, y) == Default() by {
      forall x, y ensures Get(s, x, y) == Default() {
        if InBounds(s, x, y) {
          CellIndex(w, h, x, y);
        }
      }
    }
    s
  }

  /** The grid with the stored pixel of an in-range cell replaced. */
  function Replace(s: Sprite, x: int, y: int, p: Pixel): (s': Sprite)
    requires InBounds(s, x, y)
    ensures s'.width == s.width && s'.height == s.height
  {
    CellIndex(s.width, s.height, x, y);
    s.(cells := s.cells[y * s.width + x := p])
  }

  lemma GetAfterReplace(s: Sprite, x: int, y: int, p: Pixel, i: int, j: int)
    requires InBounds(s, x, y)
    ensures Get(Replace(s, x, y, p), i, j) == (if i == x && j == y then p else Get(s, i, j))
  {
    CellIndex(s.width, s.height, x, y);
    if (i != x || j != y) && InBounds(s, i, j) {
      CellIndex(s.width, s.height, i, j);
      assert j * s.width + i != y * s.width + x by {
        if j * s.width + i == y * s.width + x {
          CellIndexInjective(s.width, i, j, x, y);
        }
      }
    }
  }

  /** `set_pixel`: store `p` at an in-range cell; a write outside the grid is dropped. */
  function Set(s: Sprite, x: int, y: int, p: Pixel): (s': Sprite)
    ensures s'.width == s.width && s'.height == s.height
    ensures !InBounds(s, x, y) ==> s' == s
    ensures forall i, j :: Get(s', i, j) == (if i == x && j == y && InBounds(s, x, y) then p else Get(s, i, j))
  {
    if InBounds(s, x, y) then
      var s' := Replace(s, x, y, p);
      assert forall i, j :: Get(s', i, j) == (if i == x && j == y then p else Get(s, i, j)) by {
        forall i, j ensures Get(s', i, j) == (if i == x && j == y then p else Get(s, i, j)) {
          GetAfterReplace(s, x, y, p, i, j);
        }
      }
      s'
    else
      s
  }
}
