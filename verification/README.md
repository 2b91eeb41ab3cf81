# Melody engine core in Dafny

A model of the integer core of the Melody engine, a small software rasteriser with a Win32/OpenGL frame loop. The model covers:

- **Pixels and buffers.** A `Pixel` is four bytes that share one 32-bit word. A `Sprite` is a row-major width × height grid with bounds-checked `get_pixel` and `set_pixel`.
- **The blend step.** `draw_pixel` blends in one of three modes: NORMAL, MASK and ALPHA. ALPHA's float channel mix is kept as a parameter.
- **The rasteriser.** Every primitive is a pure function that returns the ordered list of `(x, y, pixel)` writes it makes:
  - Bresenham `draw_line`;
  - the midpoint `draw_circle` and `fill_circle`;
  - `draw_rect` and `fill_rect`;
  - `draw_triangle`, and `fill_triangle` rewritten as two edge steppers;
  - the sprite blits.

  Each write list is folded through the blend step (`Blend.Apply`).
- **The input edge detector.** At the top of every frame it turns raw key and mouse samples into Pressed, Released and Held states.
- **The frame-loop lifecycle of `threading`.** It is a state machine driven by the answers of `on_awake`, `on_update` and `on_destroy` and by window close requests.
- **Engine state.** The model keeps the drawing-target selection, the construction of the screen buffer, the pixel mode, the mouse scaling, and the fact that a frame always presents the default buffer.

Modules, one per file:

| Module | File |
|---|---|
| `Wrappers` | `wrappers.dfy` |
| `Arith` | `arith.dfy` |
| `Pixels` | `pixel.dfy` |
| `Sprites` | `sprite.dfy` |
| `Shapes` | `shapes.dfy` |
| `Blend` | `blend.dfy` |
| `Lines` | `line.dfy` |
| `Circles` | `circle.dfy` |
| `Rects` | `rect.dfy` |
| `Triangles` | `triangle.dfy` |
| `Blits` | `blit.dfy` |
| `Input` | `input.dfy` |
| `Engines` | `engine.dfy` |
| `Lifecycle` | `lifecycle.dfy` |

The MASK mode follows the code: it writes only when `p.a != 255`. The header comment on `Pixel::Mode` describes the opposite ("transparent if alpha is < 255").

## Model

| member | source | states |
|---|---|---|
| Pixels.Pack | Melody/include/engine/Melody.h:57-70 | The union word stores red in the low byte and alpha in the high byte. |
| Pixels.UnpackPack | Melody/include/engine/Melody.h:57-70 | Reading the channels back from the word gives the pixel that was stored. |
| Pixels.PackUnpack | Melody/include/engine/Melody.h:57-70 | Every 32-bit word is the packing of exactly one pixel. |
| Pixels.Default | Melody/include/engine/Melody.cpp:9-15 | `Pixel()` sets channels (0,0,0,255), which agrees with the union's initial word 0xFF000000 (Melody.h:61). |
| Pixels.Rgb | Melody/include/engine/Melody.h:72 | The three-channel constructor adds an opaque alpha of 255 on top of the colour channels. |
| Sprites.Get | Melody/include/engine/Melody.cpp:85-91 | A read outside the grid gives `Pixel()`. |
| Sprites.New | Melody/include/engine/Melody.cpp:37-48 | `Sprite(w, h)` has the requested size, and every cell reads as `Pixel()`. The `>` init loop at line 46 never runs, which does not matter. |
| Sprites.Set | Melody/include/engine/Melody.cpp:93-97 | An in-range write changes exactly that cell, and a later read returns it. An out-of-range write leaves the grid unchanged. The size is kept. |
| Sprites.GetAfterReplace | Melody/include/engine/Melody.cpp:93-97 | Replacing a cell by its row-major index changes only that cell's read. |
| Blend.DrawPixel | Melody/include/engine/Melody.cpp:218-247 | With no target, nothing exists and nothing changes. Otherwise only cell (x, y) can change, and only when it is in range. NORMAL stores p. MASK stores p only when `p.a != 255` and keeps the old cell otherwise. ALPHA stores the opaque channel mix. |
| Blend.AlphaOpaqueIsNormal | Melody/include/engine/Melody.cpp:236-246 | Under ALPHA, a source with alpha 255 is stored exactly as NORMAL stores it. |
| Blend.AlphaClearKeepsColour | Melody/include/engine/Melody.cpp:236-246 | Under ALPHA, a source with alpha 0 keeps the destination colour and makes it opaque. |
| Blend.Apply | Melody/include/engine/Melody.cpp:218-247 | Folding writes through `draw_pixel` never creates or removes a target and never resizes it. |
| Blend.ApplyKeeps | Melody/include/engine/Melody.cpp:218-247 | A cell that no write aims at keeps its pixel, whatever the mode. |
| Blend.ApplyAppend | Melody/include/engine/Melody.cpp:218-247 | Drawing two write lists in turn is drawing their concatenation. |
| Blend.PaintNormal | Melody/include/engine/Melody.cpp:223-227 | NORMAL paints one colour over exactly the in-range cells of a point list. All other cells are kept. |
| Blend.PaintMask | Melody/include/engine/Melody.cpp:229-234 | MASK with an opaque colour changes nothing. With any other colour it paints exactly like NORMAL. |
| Blend.ApplyNormalCell | Melody/include/engine/Melody.cpp:223-227 | When a write list touches each cell at most once, NORMAL leaves each in-range cell holding the pixel of its write. |
| Lines.LinePoints | Melody/include/engine/Melody.cpp:249-307 | A line has max(abs(dx), abs(dy)) + 1 pixels. |
| Lines.LineSetup | Melody/include/engine/Melody.cpp:249-307 | The loop steps along the axis with the larger extent: the major extent is the larger delta and the minor extent the smaller. The minor direction is ±1. |
| Lines.LineMatchesReference | Melody/include/engine/Melody.cpp:249-307 | The k-th pixel is the ideal segment's point k steps along the major axis from the start endpoint, with the minor offset rounded to the nearest integer (an independent closed form). |
| Lines.LineEnds | Melody/include/engine/Melody.cpp:249-307 | The first pixel is the endpoint with the smaller major-axis coordinate, and the last pixel is the other endpoint. |
| Lines.LineHasEndpoints | Melody/include/engine/Melody.cpp:249-307 | Both endpoints are drawn. |
| Lines.LineInBox | Melody/include/engine/Melody.cpp:249-307 | Every pixel lies in the bounding box of the endpoints. |
| Lines.LineConnected | Melody/include/engine/Melody.cpp:268-304 | Each step moves the major axis by exactly 1 and the minor axis by at most 1. |
| Lines.HorizontalLine | Melody/include/engine/Melody.cpp:249-307 | A horizontal line is exactly the cells of its row between its ends, in either order. |
| Lines.VerticalLine | Melody/include/engine/Melody.cpp:249-307 | A vertical line is exactly the cells of its column between its ends, in either order. |
| Lines.DiagonalExample | Melody/include/engine/Melody.cpp:249-307 | (0,0)→(5,5) draws exactly the six diagonal pixels, in order. |
| Lines.HorizontalExample | Melody/include/engine/Melody.cpp:249-307 | (0,0)→(5,0) draws exactly the six pixels of row 0, in order. |
| Circles.Stroke | Melody/include/engine/Melody.cpp:316-328 | Every stroke point is one of the eight reflections of an octant offset about the centre, and every such reflection is drawn. |
| Circles.NothingWithoutRadius | Melody/include/engine/Melody.cpp:309-355 | A radius ≤ 0 draws nothing, stroked or filled. |
| Circles.OctantShape | Melody/include/engine/Melody.cpp:316-328 | The octant starts at (0, r). It advances one column per step, drops at most one row per step, and stops on the diagonal. |
| Circles.SmallOctants | Melody/include/engine/Melody.cpp:316-328 | The exact octants of radii 1, 2 and 3. |
| Circles.CircleOnRing | Melody/include/engine/Melody.cpp:309-329 | Every stroked pixel's squared distance dist² from the centre satisfies r² − r ≤ dist² < r² + r. |
| Circles.CircleSymmetric | Melody/include/engine/Melody.cpp:309-329 | The stroke is closed under the left-right flip, the up-down flip and the diagonal swap about the centre. |
| Circles.FillSpans | Melody/include/engine/Melody.cpp:338-354 | Each octant offset yields exactly its four scanlines. |
| Circles.FillCentred | Melody/include/engine/Melody.cpp:331-355 | Every fill span runs symmetrically from x − k to x + k. |
| Circles.FillInDisc | Melody/include/engine/Melody.cpp:331-355 | Every filled pixel lies inside the disc of squared distance dist² < r² + r from the centre. |
| Circles.FillCoversStroke | Melody/include/engine/Melody.cpp:309-355 | Every pixel of `draw_circle` is also a pixel of `fill_circle`. |
| Rects.RectOutline | Melody/include/engine/Melody.cpp:357-363 | `draw_rect` draws exactly the cells on the border of the box with corners (x, y) and (x+w, y+h), whatever the signs of w and h. |
| Rects.Clamp | Melody/include/engine/Melody.cpp:367-378 | The clamp puts a coordinate into [0, limit]. |
| Rects.FillRectCells | Melody/include/engine/Melody.cpp:365-383 | `fill_rect` covers exactly the cells with x ≤ i < x+w, y ≤ j < y+h, 0 ≤ i < screen width and 0 ≤ j < screen height, each once. |
| Rects.FillRectEmpty | Melody/include/engine/Melody.cpp:365-383 | With w ≤ 0, h ≤ 0, or a rectangle wholly off the screen, the fill is empty. |
| Rects.FillRectExample | Melody/include/engine/Melody.cpp:365-383 | A rectangle overhanging the left edge is clipped and filled column by column. |
| Triangles.TrianglePoints | Melody/include/engine/Melody.cpp:385-390 | The outline has max(abs(dx), abs(dy)) + 1 pixels for each of its three sides 1→2, 2→3 and 3→1. The lines themselves and their order are the definition. |
| Triangles.TriangleCorners | Melody/include/engine/Melody.cpp:385-390 | All three corners are drawn. |
| Triangles.TriangleInBox | Melody/include/engine/Melody.cpp:385-390 | The outline stays inside the corners' bounding box. |
| Triangles.SortByY | Melody/include/engine/Melody.cpp:403-405 | The sort orders the corners by y and is a permutation of them. |
| Triangles.MkEdge | Melody/include/engine/Melody.cpp:407-425 | An edge stepper's major and minor extents, x direction and steepness are derived from its two ends. |
| Triangles.FillRows | Melody/include/engine/Melody.cpp:392-527 | After the sort, the fill draws one non-empty span on each row, on consecutive rows from the top corner, never below the bottom corner. The first span covers the top corner, and under a flat top the other top corner too. |
| Triangles.FillPoints | Melody/include/engine/Melody.cpp:392-527 | Every filled cell lies on a row between the corners' least and greatest y. |
| Triangles.FillExample | Melody/include/engine/Melody.cpp:392-527 | (0,0), (3,0), (0,3) fills row 0 columns 0–3, row 1 columns 0–2, row 2 columns 0–1 and row 3 column 0. |
| Blits.ColumnCells | Melody/include/engine/Melody.cpp:536-539 | One column of a blit (the inner `for j` loop) writes exactly its cells from row j down, each once, h − j of them. Each write carries the matching source pixel. |
| Blits.ColumnsCells | Melody/include/engine/Melody.cpp:534-540 | The nested loops write exactly the window's cells, each once. Each write carries the matching source pixel. |
| Blits.ColumnsCount | Melody/include/engine/Melody.cpp:534-540 | The nested loops make (w − i) · h writes, and none when h is not positive. |
| Blits.WindowNormal | Melody/include/engine/Melody.cpp:534-540 | In NORMAL mode the nested loops leave source cell (ox+i, oy+j) at target cell (x+i, y+j) wherever that cell is on the target. |
| Blits.PartialCells | Melody/include/engine/Melody.cpp:543-555 | The corrected `draw_sprite_partial` writes exactly the w × h window at (x, y), copying source cells from (ox, oy), each once. |
| Blits.SpriteIsWholeWindow | Melody/include/engine/Melody.cpp:529-555 | `draw_sprite` is the partial blit of the whole sprite from its corner. |
| Blits.SpriteNormal | Melody/include/engine/Melody.cpp:529-541 | In NORMAL mode, sprite cell (i, j) ends up at target cell (x+i, y+j) wherever that cell is on the target. |
| Blits.PartialNormal | Melody/include/engine/Melody.cpp:543-555 | In NORMAL mode the corrected `draw_sprite_partial` leaves source cell (ox+i, oy+j) at target cell (x+i, y+j) for every window cell on the target. |
| Blits.NullSprite | Melody/include/engine/Melody.cpp:531-532 | Drawing a null sprite changes nothing. |
| Blits.PartialDefect | Melody/include/engine/Melody.cpp:545-546 | As written, a one-cell window of a real sprite calls `get_pixel` through a null pointer (undefined behaviour). The corrected version copies that cell. |
| Blits.PartialAgreesWhenDrawn | Melody/include/engine/Melody.cpp:543-555 | Wherever the code as written does not fault, it draws what the corrected version draws. |
| Input.StepSlot | Melody/include/engine/Melody.cpp:615-635 | One slot update: the old sample becomes the new one, and Held follows the sample on a change. Released is set exactly on a fall. Pressed is set only on a rise with Held clear. The two are never both set. |
| Input.SyncedStep | Melody/include/engine/Melody.cpp:615-635 | When Held agrees with the old sample: Held becomes the new sample, Pressed is set iff the sample rose, Released iff it fell, and agreement is kept. |
| Input.Fresh | Melody/include/engine/Melody.h:40-45 | A fresh bank has all old samples false and every state with Pressed, Released and Held false. |
| Input.UpdateBank | Melody/include/engine/Melody.cpp:615-635 | The loop over a bank updates every slot independently and copies the new samples into the old ones. |
| Input.StepBank | Melody/include/engine/Melody.cpp:615-658 | The per-frame bank update copies the new samples into the old ones. Released marks exactly a fall and is never set together with Pressed. On a synced bank every slot has Held = new sample, Pressed iff rise, Released iff fall, and the bank stays synced (the meaning of `ButtonState`, Melody.h:40-45). |
| Input.InitialDevices | Melody/include/engine/Melody.h:178-184 | There are exactly 256 key slots and 5 mouse slots, with all samples false and all states idle. |
| Input.StepDevices | Melody/include/engine/Melody.cpp:615-658 | One frame's update of keys and mouse keeps the slot counts, records the samples, and preserves sync. |
| Input.PressHoldRelease | Melody/include/engine/Melody.cpp:615-635 | The samples press, hold, release give Pressed in frame 1 only, Held in frames 1–2, and Released in frame 3 only. |
| Engines.Initial | Melody/include/engine/Melody.h:165-184 | An engine starts with no target, in NORMAL mode, with a 256×240 screen, a 4×4 pixel scale, the mouse at (0, 0), no focus, and idle input. |
| Engines.SetDrawingTarget | Melody/include/engine/Melody.cpp:154-160 | A non-null target becomes current, and null selects the default screen buffer. Nothing else changes. |
| Engines.Construct | Melody/include/engine/Melody.cpp:116-129 | `construct` records the sizes, allocates a screen of the requested size with all cells `Pixel()`, and makes it the current target. |
| Engines.TargetWidth | Melody/include/engine/Melody.cpp:167-173 | The target width, or 0 with no target. |
| Engines.TargetHeight | Melody/include/engine/Melody.cpp:175-181 | The target height, or 0 with no target. |
| Engines.ConstructedSize | Melody/include/engine/Melody.cpp:116-181 | After `construct`, the target width and height are the requested screen size. |
| Engines.SetPixelMode | Melody/include/engine/Melody.cpp:557-560 | Only the mode changes. |
| Engines.UpdateMouse | Melody/include/engine/Melody.cpp:575-581 | With a zero pixel width or height (which `construct` accepts) the division faults, and the outcome is `None`. Otherwise the stored mouse position is the screen position divided by the pixel scale, rounding down, and nothing else changes. |
| Engines.MouseCorner | Melody/include/engine/Melody.cpp:575-581 | The screen position of a pixel's corner maps back to that pixel. |
| Engines.PollInput | Melody/include/engine/Melody.cpp:615-658 | The per-frame input update keeps the array sizes, records the raw samples as old, and changes nothing but the input states. |
| Engines.PollKeyEdges | Melody/include/engine/Melody.cpp:615-635 | `get_key` after a frame's update reports exactly the key's edge. |
| Engines.PollMouseEdges | Melody/include/engine/Melody.cpp:638-658 | `get_mouse` after a frame's update reports exactly the button's edge. |
| Engines.Draw | Melody/include/engine/Melody.cpp:218-247 | Drawing folds writes into the current target in the current mode. It never switches between screen and offscreen targets. Offscreen drawing leaves the screen alone. |
| Engines.DrawWithoutTarget | Melody/include/engine/Melody.cpp:218-221 | Before `construct` there is no target and drawing changes nothing. |
| Engines.FillRectNormal | Melody/include/engine/Melody.cpp:365-383 | In NORMAL mode `fill_rect` paints exactly the rectangle's cells that are on both the screen and the target. Every other cell is kept. |
| Engines.FillRectStopsAtScreen | Melody/include/engine/Melody.cpp:367-378 | On an offscreen target wider than the screen, `fill_rect` never reaches columns beyond the screen width. |
| Engines.OffscreenHidden | Melody/include/engine/Melody.cpp:667-668 | Drawing into an offscreen target never changes the presented frame. |
| Engines.NullSelectsScreen | Melody/include/engine/Melody.h:147 | After `set_drawing_target(nullptr)`, a NORMAL pixel drawn on the screen shows in the next presented frame. |
| Lifecycle.Step | Melody/include/engine/Melody.cpp:597-696 | One step of the game thread. `on_update` is called iff a frame runs, and `on_destroy` iff the thread is at the destroy call. After exit nothing more is called. |
| Lifecycle.Run | Melody/include/engine/Melody.cpp:597-696 | Over any run, every `on_update` sits between its frame's input update and its presentation, and `on_awake` never recurs. The thread reaches `on_destroy` only with the flag cleared. |
| Lifecycle.Quiet | Melody/include/engine/Melody.cpp:603-606 | With the flag cleared at the outer test, the thread exits and calls nothing more. |
| Lifecycle.AwakeRefused | Melody/include/engine/Melody.cpp:597-598 | If `on_awake` returns false, neither `on_update` nor `on_destroy` ever runs, and the thread exits. |
| Lifecycle.AwakeOnce | Melody/include/engine/Melody.cpp:597-603 | `on_awake` is called first and exactly once. |
| Lifecycle.UpdateRefusedStillPresented | Melody/include/engine/Melody.cpp:661-687 | A frame whose `on_update` returns false is still presented, and `on_destroy` follows at once. |
| Lifecycle.DestroyAccepted | Melody/include/engine/Melody.cpp:687-690 | `on_destroy` returning true ends the thread. |
| Lifecycle.DestroyRefused | Melody/include/engine/Melody.cpp:691-695 | `on_destroy` returning false resumes running, and another frame follows. |

## Left out

- Windowing: the Win32 window, the message pump, focus events and the key-code map (`Start`, `create_window`, `window_event`, `_map_keys`) are platform I/O. The raw samples those events write are modelled as arbitrary `keysNow` / `mouseNow` arrays of the engine state.
- Graphics output: OpenGL setup, the texture upload, quad drawing, `SwapBuffers` and the FPS title are foreign graphics calls. Only the fact that a frame presents the default buffer is kept (`Engines.Present`).
- Image loading: GDI+ decoding (`Sprite(file)`, `load_from_file`) and the UTF-8/UTF-16 conversion in `construct` are library wrappers. A loaded sprite is any width × height grid.
- Concurrency: the game thread, the `_atom_active` atomic and cross-thread input writes are left out. A close request is a boolean of each lifecycle step, and the callbacks' answers are inputs of each step.
- Float code: `sample`, delta time, and the general ALPHA mix are float computations. `Blend.Mixer` takes the mix as a parameter, and `Blend.ExactEnds` pins only its exact endpoints.
- Integer widths: int32/uint32 wrap-around in coordinates and sizes is not modelled. All coordinates are mathematical integers.
- Memory: raw `new`/`delete`, `get_data`, and aliasing between a user sprite and the current target are not modelled. An offscreen target is a value held by the engine.
- Drawing during a frame: what `on_update` draws is not part of the lifecycle machine. The drawing operations are modelled on the engine state by themselves.
- `get_drawing_target`, `get_screen_width/height`, `get_mouse_x/y` and `is_focused` are plain field reads and have no model members of their own.
- Melody/main.cpp is a demo program and is not part of this model.
- Triangles.FillRows: states that the rows run consecutively from the top corner and never pass the bottom corner. It does not prove that the last row is the bottom corner's, nor how far each span reaches in x.
- Sprites.New: takes natural sizes. `Sprite(int32_t w, int32_t h)` also accepts negative ones. A negative product makes `new Pixel[w * h]` throw. Two negative sizes allocate cells that `get_pixel` and `set_pixel` always treat as out of range. Neither case is modelled, and `construct` never passes a negative size except through the int32 wrap-around listed above.
- Engines.GetKey: has no contract of its own. Its meaning is stated by `Engines.PollKeyEdges`, and the same holds for `Engines.GetMouse` and `Engines.PollMouseEdges`.
- Engines.PlotPixel: the engine-level drawing wrappers (`PlotPixel`, `DrawLine`, `DrawCircle`, `FillCircle`, `DrawRect`, `FillRect`, `DrawTriangle`, `FillTriangle`, `DrawSprite`, `DrawSpritePartial`) have no contracts of their own. Each is `Engines.Draw` of the primitive's write list, and the properties are stated on the write lists and on `Engines.Draw`.

## Findings

| source | as written | input that shows it | evidently intended | confidence | as-written member | corrected member |
|---|---|---|---|---|---|---|
| Melody/include/engine/Melody.cpp:545 | `if (sprite = nullptr)` assigns null to the parameter and tests false, so the call never returns early and calls `get_pixel` through a null pointer, which is undefined behaviour. For ox ≥ 0 its bounds test reads `_width` through null | any sprite of at least 1×1, with ox = oy = 0 and w = h = 1 | `if (sprite == nullptr) return;`, then copy the window | not executed | Blits.PartialDefect | Blits.PartialCells |
