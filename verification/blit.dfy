/** Sprite blits: `draw_sprite` and `draw_sprite_partial`, as write lists for the blend step. */
module Blits {
  import opened Pixels
  import opened Sprites
  import opened Shapes
  import opened Wrappers
  import opened Blend
  import Arith

  /** A write that copies source cell (ox + (wr.x - x), oy + (wr.y - y)) to its place, for a
      blit whose top-left corner lands at (x, y). */
  predicate Copies(s: Sprite, x: int, y: int, ox: int, oy: int, wr: Write)
  {
    wr.p == Get(s, ox + (wr.x - x), oy + (wr.y - y))
  }

  /** Rows `j` to `h - 1` of column `i` of a blit: `for (j = 0; j < h; j++)` over source column `ox + i`. */
  function Column(s: Sprite, x: int, y: int, ox: int, oy: int, i: int, j: int, h: int): seq<Write>
    decreases h - j
  {
    if j >= h then [] else [Write(x + i, y + j, Get(s, ox + i, oy + j))] + Column(s, x, y, ox, oy, i, j + 1, h)
  }

  /** Columns `i` to `w - 1`, each top to bottom: the nested `for i` / `for j` loops of a blit. */
  function Columns(s: Sprite, x: int, y: int, ox: int, oy: int, i: int, w: int, h: int): seq<Write>
    decreases w - i
  {
    if i >= w then [] else Column(s, x, y, ox, oy, i, 0, h) + Columns(s, x, y, ox, oy, i + 1, w, h)
  }

  /** A column holds exactly its cells, each once, each carrying the matching source pixel. */
  lemma {:induction false} ColumnCells(s: Sprite, x: int, y: int, ox: int, oy: int, i: int, j: int, h: int)
    ensures var ws := Column(s, x, y, ox, oy, i, j, h);
      && (forall wr :: wr in ws <==> wr.x == x + i && y + j <= wr.y < y + h && Copies(s, x, y, ox, oy, wr))
      && Distinct(Footprint(ws))
      && (j <= h ==> |ws| == h - j)
    decreases h - j
  {
    if j < h {
      var head, rest := Write(x + i, y + j, Get(s, ox + i, oy + j)), Column(s, x, y, ox, oy, i, j + 1, h);
      ColumnCells(s, x, y, ox, oy, i, j + 1, h);
      assert Column(s, x, y, ox, oy, i, j, h) == [head] + rest;
      FootprintAppend([head], rest);
      assert Footprint([head]) == [Point(head.x, head.y)];
      DistinctConcat([Point(head.x, head.y)], Footprint(rest));
    }
  }

  /** A blit's columns hold exactly the window's cells, each once, each carrying the matching source pixel. */
  lemma {:induction false} ColumnsCells(s: Sprite, x: int, y: int, ox: int, oy: int, i: int, w: int, h: int)
    ensures var ws := Columns(s, x, y, ox, oy, i, w, h);
      && (forall wr :: wr in ws <==> x + i <= wr.x < x + w && y <= wr.y < y + h && Copies(s, x, y, ox, oy, wr))
      && Distinct(Footprint(ws))
    decreases w - i
  {
    if i < w {
      var col, rest := Column(s, x, y, ox, oy, i, 0, h), Columns(s, x, y, ox, oy, i + 1, w, h);
      ColumnCells(s, x, y, ox, oy, i, 0, h);
      ColumnsCells(s, x, y, ox, oy, i + 1, w, h);
      assert Columns(s, x, y, ox, oy, i, w, h) == col + rest;
      FootprintAppend(col, rest);
      DistinctConcat(Footprint(col), Footprint(rest));
    }
  }

  /** Columns `i` to `w - 1` of height `h` make `(w - i) * h` writes, and none when `h` is not positive. */
  lemma {:induction false} ColumnsCount(s: Sprite, x: int, y: int, ox: int, oy: int, i: int, w: int, h: int)
    requires i <= w
    ensures |Columns(s, x, y, ox, oy, i, w, h)| == if h <= 0 then 0 else (w - i) * h
    decreases w - i
  {
    if i < w {
      var col, rest := Column(s, x, y, ox, oy, i, 0, h), Columns(s, x, y, ox, oy, i + 1, w, h);
      ColumnCells(s, x, y, ox, oy, i, 0, h);
      ColumnsCount(s, x, y, ox, oy, i + 1, w, h);
      assert |Columns(s, x, y, ox, oy, i, w, h)| == |col| + |rest|;
      if h > 0 {
        Arith.Peel(w - i, h);
      }
    }
  }

  lemma FootprintAppend(xs: seq<Write>, ys: seq<Write>)
    ensures Footprint(xs + ys) == Footprint(xs) + Footprint(ys)
    ensures forall q :: q in Footprint(xs) <==> exists wr :: wr in xs && q == Point(wr.x, wr.y)
  {
    var fx := Footprint(xs);
    forall q | q in fx ensures exists wr :: wr in xs && q == Point(wr.x, wr.y) {
      var k :| 0 <= k < |fx| && fx[k] == q;
      assert xs[k] in xs;
    }
  }

  /** `draw_sprite`: nothing for a null sprite; otherwise every cell of the sprite, placed with its
      top-left corner at (x, y), column by column. */
  function DrawSprite(x: int, y: int, sprite: Option<Sprite>): seq<Write>
  {
    match sprite
    case None => []
    case Some(s) => Columns(s, x, y, 0, 0, 0, s.width, s.height)
  }

  /** `draw_sprite_partial` with the early return on a null sprite it evidently intends: the `w` by
      `h` window of the sprite whose top-left source cell is (ox, oy), placed at (x, y). Source
      cells outside the sprite read as `Pixel()`. */
  function DrawSpritePartial(x: int, y: int, sprite: Option<Sprite>, ox: int, oy: int, w: int, h: int): seq<Write>
  {
    match sprite
    case None => []
    case Some(s) => Columns(s, x, y, ox, oy, 0, w, h)
  }

  /** What a call does: the writes it makes, or a read through a null pointer. */
  datatype Outcome = Drawn(ws: seq<Write>) | NullDereference

  /** `draw_sprite_partial` as written: `if (sprite = nullptr)` assigns null to the parameter and
      tests false, so the call never returns early. The first iteration of the loops calls
      `get_pixel` through the null pointer, whatever sprite was passed. That is undefined behaviour,
      and for `ox >= 0` its bounds test reads `_width` through null. */
  function DrawSpritePartialAsWritten(x: int, y: int, sprite: Option<Sprite>, ox: int, oy: int, w: int, h: int): Outcome
  {
    if w > 0 && h > 0 then NullDereference else Drawn([])
  }

  /** The defect: a one-cell window of a real sprite faults as written, where the intended
      version copies that cell. */
  lemma PartialDefect(s: Sprite, x: int, y: int)
    requires s.width > 0 && s.height > 0
    ensures DrawSpritePartialAsWritten(x, y, Some(s), 0, 0, 1, 1) == NullDereference
    ensures DrawSpritePartial(x, y, Some(s), 0, 0, 1, 1) == [Write(x, y, Get(s, 0, 0))]
  {
    assert Columns(s, x, y, 0, 0, 1, 1, 1) == [];
    assert Column(s, x, y, 0, 0, 0, 0, 1) == [Write(x, y, Get(s, 0, 0))] by {
      assert Column(s, x, y, 0, 0, 0, 1, 1) == [];
    }
  }

  /** Wherever the code as written does not fault, it agrees with the intended version. */
  lemma PartialAgreesWhenDrawn(x: int, y: int, sprite: Option<Sprite>, ox: int, oy: int, w: int, h: int)
    requires DrawSpritePartialAsWritten(x, y, sprite, ox, oy, w, h).Drawn?
    ensures DrawSpritePartialAsWritten(x, y, sprite, ox, oy, w, h).ws == DrawSpritePartial(x, y, sprite, ox, oy, w, h)
  {
    if sprite.Some? && w > 0 {
      ColumnsCount(sprite.value, x, y, ox, oy, 0, w, h);
    }
  }

  /** A blit writes exactly the window's cells, each once, carrying the matching source pixel. */
  lemma PartialCells(x: int, y: int, s: Sprite, ox: int, oy: int, w: int, h: int)
    ensures var ws := DrawSpritePartial(x, y, Some(s), ox, oy, w, h);
      && (forall wr :: wr in ws <==> x <= wr.x < x + w && y <= wr.y < y + h && Copies(s, x, y, ox, oy, wr))
      && Distinct(Footprint(ws))
      && |ws| == if w <= 0 || h <= 0 then 0 else w * h
  {
    ColumnsCells(s, x, y, ox, oy, 0, w, h);
    if w > 0 {
      ColumnsCount(s, x, y, ox, oy, 0, w, h);
    }
  }

  /** `draw_sprite` is the partial blit of the whole sprite from its corner. */
  lemma SpriteIsWholeWindow(x: int, y: int, s: Sprite)
    ensures DrawSprite(x, y, Some(s)) == DrawSpritePartial(x, y, Some(s), 0, 0, s.width, s.height)
  {
  }

  /** In NORMAL mode a blit of the window at (ox, oy) shows source cell (ox + i, oy + j) at target
      cell (x + i, y + j), wherever that cell is on the target. */
  lemma {:induction false} WindowNormal(target: Sprite, mix: Mixer, s: Sprite, x: int, y: int, ox: int, oy: int, w: int, h: int, i: int, j: int)
    requires 0 <= i < w && 0 <= j < h
    requires InBounds(target, x + i, y + j)
    ensures Get(Apply(Some(target), Normal, mix, Columns(s, x, y, ox, oy, 0, w, h)).value, x + i, y + j) == Get(s, ox + i, oy + j)
  {
    var ws := Columns(s, x, y, ox, oy, 0, w, h);
    var wr := Write(x + i, y + j, Get(s, ox + i, oy + j));
    ColumnsCells(s, x, y, ox, oy, 0, w, h);
    assert ox + (wr.x - x) == ox + i && oy + (wr.y - y) == oy + j;
    assert Copies(s, x, y, ox, oy, wr);
    assert wr in ws;
    ApplyNormalAt(target, mix, ws, wr);
  }

  /** In NORMAL mode the corrected `draw_sprite_partial` shows source cell (ox + i, oy + j) at
      target cell (x + i, y + j) for every cell of the window that is on the target. */
  lemma PartialNormal(target: Sprite, mix: Mixer, x: int, y: int, s: Sprite, ox: int, oy: int, w: int, h: int, i: int, j: int)
    requires 0 <= i < w && 0 <= j < h
    requires InBounds(target, x + i, y + j)
    ensures Get(Apply(Some(target), Normal, mix, DrawSpritePartial(x, y, Some(s), ox, oy, w, h)).value, x + i, y + j)
         == Get(s, ox + i, oy + j)
  {
    WindowNormal(target, mix, s, x, y, ox, oy, w, h, i, j);
  }

  /** In NORMAL mode a sprite drawn at (x, y) shows its pixel (i, j) at target cell (x + i, y + j),
      wherever that cell is on the target. */
  lemma SpriteNormal(target: Sprite, mix: Mixer, x: int, y: int, s: Sprite, i: int, j: int)
    requires 0 <= i < s.width && 0 <= j < s.height
    requires InBounds(target, x + i, y + j)
    ensures Get(Apply(Some(target), Normal, mix, DrawSprite(x, y, Some(s))).value, x + i, y + j) == Get(s, i, j)
  {
    var t := Apply(Some(target), Normal, mix, DrawSprite(x, y, Some(s)));
    assert t == Apply(Some(target), Normal, mix, DrawSpritePartial(x, y, Some(s), 0, 0, s.width, s.height)) by {
      SpriteIsWholeWindow(x, y, s);
    }
    PartialNormal(target, mix, x, y, s, 0, 0, s.width, s.height, i, j);
  }

  /** Drawing a null sprite changes nothing. */
  lemma NullSprite(target: Option<Sprite>, mode: Mode, mix: Mixer, x: int, y: int)
    ensures Apply(target, mode, mix, DrawSprite(x, y, None)) == target
  {
  }
}
