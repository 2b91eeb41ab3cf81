/** The engine state the drawing calls and the frame loop touch: the default (screen) buffer, the
    drawing-target selection, the blend mode, the screen and pixel sizes, the mouse position and
    the input arrays (`class Engine`). */
module Engines {
  import opened Pixels
  import opened Sprites
  import opened Shapes
  import opened Wrappers
  import opened Blend
  import opened Input
  import Lines
  import Circles
  import Rects
  import Triangles
  import Blits
  import Arith

  /** `_drawing_target`: the default buffer itself, or a sprite the caller selected. */
  datatype Target = Screen | Offscreen(sprite: Sprite)

  datatype Engine = Engine(
    screen: Option<Sprite>,     // `_default_drawing_target`, null until `construct`
    target: Target,
    mode: Mode,
    screenWidth: nat, screenHeight: nat,
    pixelWidth: nat, pixelHeight: nat,
    mouseX: nat, mouseY: nat,
    focused: bool,
    keysNow: seq<bool>,         // `_key_new_state`, written by the window thread
    mouseNow: seq<bool>,        // `_mouse_new_state`, written by the window thread
    devices: Devices)

  /** The buffer drawing calls write to, or None when `_drawing_target` is null. */
  function Current(e: Engine): Option<Sprite>
  {
    match e.target
    case Screen => e.screen
    case Offscreen(s) => Some(s)
  }

  /** The input arrays have their declared sizes. */
  predicate WellSized(e: Engine)
  {
    |e.keysNow| == KeySlots && |e.mouseNow| == MouseSlots
    && Sized(e.devices.keys, KeySlots) && Sized(e.devices.mouse, MouseSlots)
  }

  /** A freshly declared `Engine`, before `construct`: no buffers, NORMAL mode, a 256 by 240 screen
      of 4 by 4 pixels, the mouse at the origin, no focus, every raw sample false and every button idle. */
  function Initial(): (e: Engine)
    ensures Current(e) == None && e.screen == None
    ensures e.mode == Normal
    ensures e.screenWidth == 256 && e.screenHeight == 240 && e.pixelWidth == 4 && e.pixelHeight == 4
    ensures e.mouseX == 0 && e.mouseY == 0 && !e.focused
    ensures WellSized(e) && BankSynced(e.devices.keys) && BankSynced(e.devices.mouse)
    ensures forall i :: 0 <= i < KeySlots ==> !e.keysNow[i] && !e.devices.keys.prev[i] && e.devices.keys.states[i] == Idle
    ensures forall i :: 0 <= i < MouseSlots ==> !e.mouseNow[i] && !e.devices.mouse.prev[i] && e.devices.mouse.states[i] == Idle
  {
    Engine(None, Screen, Normal, 256, 240, 4, 4, 0, 0, false,
           seq(KeySlots, _ => false), seq(MouseSlots, _ => false), InitialDevices())
  }

  /** `set_drawing_target`: a sprite selects that sprite, null selects the default buffer. */
  function SetDrawingTarget(e: Engine, t: Option<Sprite>): (e': Engine)
    ensures Current(e') == if t.None? then e.screen else t
    ensures e'.screen == e.screen
    ensures e' == e.(target := e'.target)
  {
    match t
    case None => e.(target := Screen)
    case Some(s) => e.(target := Offscreen(s))
  }

  /** `construct`: record the sizes, create a default-pixel screen buffer and select it. */
  function Construct(e: Engine, sw: nat, sh: nat, pw: nat, ph: nat): (e': Engine)
    ensures e'.screen.Some? && Current(e') == e'.screen
    ensures e'.screen.value.width == sw && e'.screen.value.height == sh
    ensures forall i, j :: Get(e'.screen.value, i, j) == Default()
    ensures e'.screenWidth == sw && e'.screenHeight == sh && e'.pixelWidth == pw && e'.pixelHeight == ph
    ensures e'.mode == e.mode && e'.devices == e.devices && e'.keysNow == e.keysNow && e'.mouseNow == e.mouseNow
  {
    var sized := e.(screenWidth := sw, screenHeight := sh, pixelWidth := pw, pixelHeight := ph);
    SetDrawingTarget(sized.(screen := Some(New(sw, sh))), None)
  }

  /** `get_drawing_target_width`: the current target's width, 0 without a target. */
  function TargetWidth(e: Engine): (w: int)
    ensures Current(e).None? ==> w == 0
    ensures Current(e).Some? ==> w == Current(e).value.width
  {
    match Current(e)
    case None => 0
    case Some(s) => s.width
  }

  /** `get_drawing_target_height`: the current target's height, 0 without a target. */
  function TargetHeight(e: Engine): (h: int)
    ensures Current(e).None? ==> h == 0
    ensures Current(e).Some? ==> h == Current(e).value.height
  {
    match Current(e)
    case None => 0
    case Some(s) => s.height
  }

  /** After `construct`, the target getters report the screen size until another target is chosen. */
  lemma ConstructedSize(e: Engine, sw: nat, sh: nat, pw: nat, ph: nat)
    ensures var e' := Construct(e, sw, sh, pw, ph);
      TargetWidth(e') == e'.screenWidth == sw && TargetHeight(e') == e'.screenHeight == sh
  {
  }

  /** `set_pixel_mode`. */
  function SetPixelMode(e: Engine, m: Mode): (e': Engine)
    ensures e'.mode == m && e' == e.(mode := e'.mode)
  {
    e.(mode := m)
  }

  /** `update_mouse`: a position in window pixels scaled down to engine pixels by unsigned
      division. `construct` accepts a zero pixel size, and dividing by it faults: that outcome is
      `None`. */
  function UpdateMouse(e: Engine, x: nat, y: nat): (r: Option<Engine>)
    ensures r.None? <==> e.pixelWidth == 0 || e.pixelHeight == 0
    ensures r.Some? ==> r.value.mouseX * e.pixelWidth <= x < (r.value.mouseX + 1) * e.pixelWidth
    ensures r.Some? ==> r.value.mouseY * e.pixelHeight <= y < (r.value.mouseY + 1) * e.pixelHeight
    ensures r.Some? ==> r.value == e.(mouseX := r.value.mouseX, mouseY := r.value.mouseY)
  {
    if e.pixelWidth == 0 || e.pixelHeight == 0 then None
    else Some(e.(mouseX := x / e.pixelWidth, mouseY := y / e.pixelHeight))
  }

  /** The top-left window pixel of each engine pixel maps back to it. */
  lemma MouseCorner(e: Engine, mx: nat, my: nat)
    requires e.pixelWidth > 0 && e.pixelHeight > 0
    ensures var r := UpdateMouse(e, mx * e.pixelWidth, my * e.pixelHeight);
      r.Some? && r.value.mouseX == mx && r.value.mouseY == my
  {
    Arith.DivIs(mx * e.pixelWidth, e.pixelWidth, mx);
    Arith.DivIs(my * e.pixelHeight, e.pixelHeight, my);
  }

  /** `get_key`. */
  function GetKey(e: Engine, key: nat): ButtonState
    requires key < |e.devices.keys.states|
  {
    e.devices.keys.states[key]
  }

  /** `get_mouse`. */
  function GetMouse(e: Engine, button: nat): ButtonState
    requires button < |e.devices.mouse.states|
  {
    e.devices.mouse.states[button]
  }

  /** The input part of a frame: both slot loops over the raw samples as they stand. */
  function PollInput(e: Engine): (e': Engine)
    requires WellSized(e)
    ensures WellSized(e')
    ensures e'.devices.keys.prev == e.keysNow && e'.devices.mouse.prev == e.mouseNow
    ensures e' == e.(devices := e'.devices)
  {
    e.(devices := StepDevices(e.devices, e.keysNow, e.mouseNow))
  }

  /** On a synced engine, `get_key` after a frame's input update reports exactly the key's edge:
      Held is the raw sample, Pressed iff it rose, Released iff it fell. */
  lemma PollKeyEdges(e: Engine, key: nat)
    requires WellSized(e) && BankSynced(e.devices.keys)
    requires key < KeySlots
    ensures var s := GetKey(PollInput(e), key);
      && s.held == e.keysNow[key]
      && (s.pressed <==> !e.devices.keys.prev[key] && e.keysNow[key])
      && (s.released <==> e.devices.keys.prev[key] && !e.keysNow[key])
      && BankSynced(PollInput(e).devices.keys)
  {
  }

  /** The same for `get_mouse`. */
  lemma PollMouseEdges(e: Engine, button: nat)
    requires WellSized(e) && BankSynced(e.devices.mouse)
    requires button < MouseSlots
    ensures var s := GetMouse(PollInput(e), button);
      && s.held == e.mouseNow[button]
      && (s.pressed <==> !e.devices.mouse.prev[button] && e.mouseNow[button])
      && (s.released <==> e.devices.mouse.prev[button] && !e.mouseNow[button])
      && BankSynced(PollInput(e).devices.mouse)
  {
  }

  /** Folding a primitive's writes through `draw_pixel` into the current target, in the current mode.
      `mix` is the ALPHA channel mix. */
  function Draw(e: Engine, mix: Mixer, ws: seq<Write>): (e': Engine)
    ensures Current(e') == Apply(Current(e), e.mode, mix, ws)
    ensures e'.target.Screen? == e.target.Screen?
    ensures e.target.Offscreen? ==> e'.screen == e.screen
    ensures e' == e.(screen := e'.screen, target := e'.target)
  {
    match e.target
    case Screen => e.(screen := Apply(e.screen, e.mode, mix, ws))
    case Offscreen(s) => e.(target := Offscreen(Apply(Some(s), e.mode, mix, ws).value))
  }

  /** With no drawing target (before `construct`), drawing changes nothing. */
  lemma DrawWithoutTarget(e: Engine, mix: Mixer, ws: seq<Write>)
    requires Current(e) == None
    ensures Draw(e, mix, ws) == e
  {
  }

  function PlotPixel(e: Engine, mix: Mixer, x: int, y: int, p: Pixel): Engine
  {
    Draw(e, mix, [Write(x, y, p)])
  }

  function DrawLine(e: Engine, mix: Mixer, x1: int, y1: int, x2: int, y2: int, p: Pixel): Engine
  {
    Draw(e, mix, Paint(Lines.LinePoints(x1, y1, x2, y2), p))
  }

  function DrawCircle(e: Engine, mix: Mixer, x: int, y: int, radius: int, p: Pixel): Engine
  {
    Draw(e, mix, Paint(Circles.CirclePoints(x, y, radius), p))
  }

  function FillCircle(e: Engine, mix: Mixer, x: int, y: int, radius: int, p: Pixel): Engine
  {
    Draw(e, mix, Paint(Circles.FillCirclePoints(x, y, radius), p))
  }

  function DrawRect(e: Engine, mix: Mixer, x: int, y: int, w: int, h: int, p: Pixel): Engine
  {
    Draw(e, mix, Paint(Rects.RectPoints(x, y, w, h), p))
  }

  /** `fill_rect` clamps to the screen size, whatever the current target is. */
  function FillRect(e: Engine, mix: Mixer, x: int, y: int, w: int, h: int, p: Pixel): Engine
  {
    Draw(e, mix, Paint(Rects.FillRectPoints(x, y, w, h, e.screenWidth, e.screenHeight), p))
  }

  function DrawTriangle(e: Engine, mix: Mixer, x1: int, y1: int, x2: int, y2: int, x3: int, y3: int, p: Pixel): Engine
  {
    Draw(e, mix, Paint(Triangles.TrianglePoints(x1, y1, x2, y2, x3, y3), p))
  }

  function FillTriangle(e: Engine, mix: Mixer, x1: int, y1: int, x2: int, y2: int, x3: int, y3: int, p: Pixel): Engine
  {
    Draw(e, mix, Paint(Triangles.FillPoints(x1, y1, x2, y2, x3, y3), p))
  }

  function DrawSprite(e: Engine, mix: Mixer, x: int, y: int, sprite: Option<Sprite>): Engine
  {
    Draw(e, mix, Blits.DrawSprite(x, y, sprite))
  }

  function DrawSpritePartial(e: Engine, mix: Mixer, x: int, y: int, sprite: Option<Sprite>, ox: int, oy: int, w: int, h: int): Engine
  {
    Draw(e, mix, Blits.DrawSpritePartial(x, y, sprite, ox, oy, w, h))
  }

  /** In NORMAL mode `fill_rect` paints exactly the cells of the rectangle that lie both on the
      screen and on the target; every other cell of the target keeps its pixel. */
  lemma FillRectNormal(e: Engine, mix: Mixer, x: int, y: int, w: int, h: int, p: Pixel, i: int, j: int)
    requires e.mode == Normal && Current(e).Some?
    ensures var t, t' := Current(e).value, Current(FillRect(e, mix, x, y, w, h, p)).value;
      Get(t', i, j) == if x <= i < x + w && y <= j < y + h && i < e.screenWidth && j < e.screenHeight && InBounds(t, i, j)
                       then p else Get(t, i, j)
  {
    var pts := Rects.FillRectPoints(x, y, w, h, e.screenWidth, e.screenHeight);
    Rects.FillRectCells(x, y, w, h, e.screenWidth, e.screenHeight);
    PaintNormalAt(Current(e).value, mix, pts, p, i, j);
  }

  /** Consequently, on an offscreen target wider than the screen, `fill_rect` never reaches the
      columns beyond the screen width, even for a rectangle that covers them. */
  lemma FillRectStopsAtScreen(e: Engine, mix: Mixer, p: Pixel, i: int, j: int)
    requires e.mode == Normal && e.target.Offscreen?
    requires e.screenWidth <= i < e.target.sprite.width && 0 <= j < e.target.sprite.height
    ensures var t := e.target.sprite;
      Get(Current(FillRect(e, mix, 0, 0, t.width, t.height, p)).value, i, j) == Get(t, i, j)
  {
    FillRectNormal(e, mix, 0, 0, e.target.sprite.width, e.target.sprite.height, p, i, j);
  }

  /** What a frame uploads and shows: always the default buffer, never the current target. */
  function Present(e: Engine): Option<Sprite>
  {
    e.screen
  }

  /** Drawing into an offscreen target never changes what is presented. */
  lemma OffscreenHidden(e: Engine, mix: Mixer, ws: seq<Write>)
    requires e.target.Offscreen?
    ensures Present(Draw(e, mix, ws)) == Present(e)
  {
  }

  /** Selecting the screen with null and drawing a pixel in NORMAL mode shows that pixel in the
      next presented frame, wherever the cell is on the screen. */
  lemma NullSelectsScreen(e: Engine, mix: Mixer, x: int, y: int, p: Pixel)
    requires e.mode == Normal && e.screen.Some? && InBounds(e.screen.value, x, y)
    ensures Get(Present(PlotPixel(SetDrawingTarget(e, None), mix, x, y, p)).value, x, y) == p
  {
    var e0 := SetDrawingTarget(e, None);
    assert Apply(Some(e.screen.value), Normal, mix, [Write(x, y, p)])
        == Apply(Blend.DrawPixel(Some(e.screen.value), Normal, mix, x, y, p), Normal, mix, []);
  }
}
