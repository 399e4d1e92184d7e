# Raycaster core in Dafny

This project models the logic of a small C raycasting engine built on SDL2.
The engine has:

- an occupancy grid of wall codes (`Map`), built by `Map_Create` with one of
  three fills and carved by `Map_RandGen`'s random walk;
- a player (`Raycast_Data`) moved by keyboard and mouse flags through whole
  frames of movement, jump, crouch, turn and pitch;
- a renderer: a DDA wall caster ("lodev" style), a textured floor and ceiling
  caster into a `uint32_t` frame buffer, and the buffer clear;
- procedurally generated 64×64 textures built from the colour macros of
  `color.h`.

Modules follow the source files:

| module | models |
|---|---|
| `CArith` | C integer semantics used by the code: truncating division, `(int)` casts of floats, `int8_t` wrap, `&` and `^` on naturals, masking by `w - 1` |
| `RealArith` | small facts about `real` products and repeated addition |
| `Colors` | `color.h` macros, the shift-and-mask darkening on `bv32`, the colour-mode halving of channels |
| `Grids` | the flat `(width+1)*(height+1)` storage of `map.c` with column stride `height`, and the ring painting of `Map_Create` as functions |
| `Maps` | `Map_Create`, `Map_RandGen` and the palette lookup of `Map_Render` (class `Map` over an `array<int>`) |
| `Walks` | the drunkard's walk of `Map_RandGen`, as written and with the south bound corrected |
| `Controls` | `Raycast_GetEvents` as a function on the control flags |
| `Motion` | the arithmetic of `_update_player_movement` and `_update_player_camera` |
| `Views` | window size, pose and pixel offsets of the frame buffer |
| `WallCast` | `_casting_walls`: ray setup, DDA loop, strip, texture column and row, darkening, colour mode |
| `FloorCast` | `_casting_textured_floor_ceiling`, textured rows and the untextured fill |
| `Textures` | `_autotex_generation` |
| `Raycast` | class `Raycaster`: `Raycast_Init`, `Raycast_LoadMap`, `Raycast_LoadTex`, `Raycast_GetEvents`, `Raycast_Update`, `Raycast_Render` and the `_render_buffer` clear |
| `Options` | the `Option` type that stands for a possibly-NULL pointer |

Outside calls are parameters:

- `rand()` is a finite sequence of draws `rand: seq<nat>`, consumed in order.
- `clock->delta` is the parameter `delta`.
- `sqrt(2)` is `root2`, with `1.41 < root2 < 1.42`.
- `cos(jump_phase)` is `cosPhase`, in `[-1, 1]`.
- `cos` and `sin` of the turn angle are `c` and `s`, with `c*c + s*s == 1`.
- SDL events are the `Event` datatype.

Floats are `real`. An `(int)` cast of a float is `Trunc`, which rounds toward zero.
`Raycast_Update` runs the movement update first and the camera update second
(src/raycast.c:777-778), and the model keeps that order.

## Model

| member | source | states |
|---|---|---|
| `CArith.CDiv` | src/color.h:6 | C `/` on `int`: the quotient and remainder bounds for non-negative operands, and rounding toward zero |
| `CArith.Trunc` | src/raycast.c:366-367 | the `(int)` cast of a float: floor for non-negative values, within one of the value, never past zero |
| `CArith.ToInt8` | src/raycast.h:26 | storing an `int` into `int8_t`: the result is in `[-128, 128)`, congruent mod 256, and unchanged when in range |
| `CArith.MaskIsMod` | src/raycast.c:291-292 | for a power-of-two `w`, `n & (w - 1)` equals `n mod w` and lies in `[0, w)` |
| `CArith.MaskPeriodic` | src/raycast.c:301-302 | masking by a power-of-two `w - 1` is periodic with period `w` |
| `CArith.MaskKeeps` | src/raycast.c:291-292 | the mask leaves a value already in `[0, w)` unchanged |
| `CArith.MaskBelow` | src/raycast.c:291-292 | the mask by `w - 1` is below `w` for every `w`, power of two or not |
| `CArith.BitAndLowBits` | src/raycast.c:291 | `a & (2^k - 1) == a mod 2^k` |
| `CArith.XorBelow` | src/color.h:9 | the xor of two values below `2^k` is below `2^k` |
| `CArith.MulIsTimes` | src/map.c:33 | the index product used for the `x * height` column offsets is multiplication |
| `Colors.XGradient` | src/color.h:6 | `x * 256 / w` with C's truncating division |
| `Colors.YGradient` | src/color.h:7 | the x gradient taken of `y` and `h` |
| `Colors.XYGradient` | src/color.h:8 | `y * 128 / h + x * 128 / w`, each quotient truncated |
| `Colors.XorColor` | src/color.h:9 | the bitwise xor of `x * 256 / w` and `y * 256 / h` |
| `Colors.XGradientRange` | src/color.h:6 | `XGRADIENT(x, w)` lies in `[0, 255]` for `0 <= x < w` |
| `Colors.YGradientRange` | src/color.h:7 | `YGRADIENT` has the same `[0, 255]` bound, being `XGRADIENT` on its arguments |
| `Colors.XYGradientRange` | src/color.h:8 | `XYGRADIENT(x, y, w, h)` lies in `[0, 254]` for in-range coordinates |
| `Colors.XorColorRange` | src/color.h:9 | `XORCOLOR(x, y, w, h)` lies in `[0, 255]` for in-range coordinates |
| `Colors.ScaledBelow` | src/color.h:6 | `x * s / w` lies in `[0, s)` for `0 <= x < w` |
| `Colors.Darken` | src/raycast.c:487 | `(color >> 1) & 8355711` on a 32-bit pixel |
| `Colors.DarkenHalvesChannels` | src/raycast.c:487 | `(c >> 1) & 8355711` halves the blue, green and red bytes and zeroes the top byte |
| `Colors.HalveRGB` | src/raycast.c:503-504 | the colour-mode darkening halves each channel; a zero channel stays zero |
| `Colors.DarkenMatchesHalve` | src/raycast.c:487 | darkening a packed palette colour gives the packed halved colour, so both paths darken alike |
| `Colors.DarkenBytes` | src/raycast.c:293 | the darkening of three packed bytes is the packing of the three bytes shifted right by one |
| `Grids.Size` | src/map.c:27 | the cell buffer holds `(width+1)*(height+1)` cells, never a negative count |
| `Grids.Idx` | src/map.c:33 | the offset `x * height + y` of `data[x][y]`, column x starting at `values + x * height` |
| `Grids.IdxInBounds` | src/map.c:27-28 | every cell `(x, y)` with `x <= width` and `y <= height` lies inside the allocation, although columns use stride `height` |
| `Grids.IdxAlias` | src/map.c:33 | cell `(x, height)` and cell `(x+1, 0)` are the same byte |
| `Grids.IdxInjective` | src/map.c:33 | cells with rows below `height` in distinct places have distinct offsets |
| `Grids.Zeros` | src/map.c:27 | `calloc` gives `n` zero cells |
| `Grids.PaintRows` | src/map.c:43-47 | for x from lo up to hi, cells `(x, line)` and `(x, height - line)` set to the wall code, in loop order |
| `Grids.PaintCols` | src/map.c:49-53 | for y from lo up to hi, cells `(line, y)` and `(width - line, y)` set to the wall code, in loop order |
| `Grids.PaintRing` | src/map.c:41-57 | one pass of the ring loop: rows `line` and `height - line` over `[line, width - line]`, then columns `line` and `width - line` over `[line + 1, height - line - 1]` |
| `Grids.PaintRowsCover` | src/map.c:43-47 | after the row loop every cell of rows `line` and `height-line` in `[lo, hi)` holds the wall |
| `Grids.PaintColsCover` | src/map.c:49-53 | after the column loop every cell of columns `line` and `width-line` in `[lo, hi)` holds the wall |
| `Grids.PaintRowsFrame` | src/map.c:43-47 | the row loop leaves every cell it does not address unchanged |
| `Grids.PaintColsFrame` | src/map.c:49-53 | the column loop leaves every cell it does not address unchanged |
| `Grids.PaintRowsOnlyWall` | src/map.c:43-47 | the row loop writes nothing but the wall value |
| `Grids.PaintColsOnlyWall` | src/map.c:49-53 | the column loop writes nothing but the wall value |
| `Grids.PaintRingCoversRow` | src/map.c:43-47 | one ring writes the wall into both of its rows |
| `Grids.PaintRingCoversCol` | src/map.c:49-53 | one ring writes the wall into both of its columns |
| `Grids.PaintRingOnlyWall` | src/map.c:41-53 | a ring cell either keeps its value or takes the ring's wall |
| `Grids.PaintRingZeroBorder` | src/map.c:43-53 | the outermost ring writes its wall on every border cell |
| `Grids.RingWall` | src/map.c:41 | the wall code of a ring, `rand() % wall_num + 1` of its own draw |
| `Grids.RingCount` | src/map.c:39 | `width - width / 2`, the number of passes of `while (w_end != width / 2)` |
| `Grids.Rings` | src/map.c:39-58 | the grid after the first n passes, ring i painted with the i-th draw |
| `Grids.RingsValues` | src/map.c:39-58 | with `wall_num >= 1`, each ring writes `rand() % wall_num + 1`, so every cell stays in `[0, wall_num]` |
| `Grids.RingsKeepWalls` | src/map.c:39-58 | a later ring never clears a cell an earlier ring walled |
| `Grids.RingsSealed` | src/map.c:39-58 | after all rings every border cell is nonzero |
| `Grids.BorderedCells` | src/map.c:69-85 | the bordered fill puts 1 on every cell with `x` in `{0, width}` or `y` in `{0, height}` and leaves every other cell 0 |
| `Grids.InteriorUntouched` | src/map.c:71-84 | an interior cell keeps its `calloc` zero in the bordered fill |
| `Maps.FillOf` | src/map.c:30-68 | the all-ones branch is unreachable: either flag bit selects the ring fill, and no bit selects the bordered fill |
| `Maps.Created` | src/map.c:27-85 | `Map_Create`'s cells: the right count, and values in `[0, wall_num]` for the ring fill, `[0, 1]` otherwise |
| `Maps.CreatedSealed` | src/map.c:30-85 | the bordered fill, and the ring fill when it makes at least one pass, wall the whole border |
| `Maps.CreatedRoom` | src/map.c:69-85 | with neither fill flag, the map is a room: 1 on the border and 0 inside |
| `Maps.FillRows` | src/map.c:43-47 | the row loop on the array equals the row painting |
| `Maps.FillCols` | src/map.c:49-53 | the column loop on the array equals the column painting |
| `Maps.FillRing` | src/map.c:41-53 | one iteration of the ring loop on the array equals painting one ring |
| `Maps.RingsStep` | src/map.c:39-58 | each iteration of the ring loop paints the next ring with the next draw |
| `Maps.FillRings` | src/map.c:35-58 | the whole `while` loop on the array equals painting `width - width/2` rings from the first draws |
| `Maps.CreateCells` | src/map.c:27-85 | a fresh array holding the cells of the chosen fill |
| `Maps.Map.Create` | src/map.c:10-88 | a map of the given size and colours whose cells are those of the chosen fill |
| `Maps.FindColor` | src/map.c:278-282 | the palette search finds `colors[code-1]` exactly when `1 <= code <= wall_num`, and nothing otherwise |
| `Maps.Map.TileColor` | src/map.c:276-282 | a tile's colour: its wall's palette colour for a code in `[1, wall_num]`, else the floor grey `{63,63,63}` |
| `Maps.Map.Carve` | src/map.c:220-255 | the carving loop on the array equals the walk function, with the same termination flag |
| `Maps.RandGenCreateOk` | src/map.c:213 | `Map_RandGen`'s grid is the ring fill of a `(width+2)`-by-`(height+2)` map |
| `Maps.RandGen` | src/map.c:207-258 | as written: the cells are the walk with south bound `width`; when it ends, the far corner is clear; the border stays walled when `width == height` |
| `Maps.RandGenIntended` | src/map.c:207-258 | with south bound `height`: the same walk, and the border always stays walled |
| `Walks.Roll` | src/map.c:224-252 | the `do { } while`: one draw per iteration, ending when the cursor moved (the walk goes on from there) or when the draws run out |
| `Walks.Move` | src/map.c:226-250 | a move keeps the cursor inside `[1, width]` by `[1, south]` |
| `Walks.MoveIsUnitStep` | src/map.c:230-249 | a move changes at most one coordinate, and that by exactly one |
| `Walks.CursorInBounds` | src/map.c:222 | every cell the cursor clears lies inside the allocation |
| `Walks.Walk` | src/map.c:220-255 | the walk keeps the cell count and ends with the cursor in range |
| `Walks.WalkClears` | src/map.c:220-222 | the walk zeroes exactly the cells the cursor stood on, and every unvisited cell keeps its ring value |
| `Walks.WalkDone` | src/map.c:220 | when the loop exits, `data[width][height]` is 0 |
| `Walks.WalkFirstDrawMoves` | src/map.c:222-254 | an outer iteration clears the current cell and moves to the first draw that changes the cursor; rejected draws are retried |
| `Walks.CursorNotBorder` | src/map.c:230-249 | with south bound `height`, the cursor never stands on a border cell |
| `Walks.WalkKeepsBorder` | src/map.c:230-249 | when the south bound is at most `height`, the walk never clears a border cell |
| `Walks.TargetWalled` | src/map.c:213-220 | the far corner is walled after the ring fill, so the loop runs at least once |
| `Walks.WalkMissesTarget` | src/map.c:247 | as written, with `width < height` the cursor never reaches row `height`, so the loop never ends |
| `Walks.AsWrittenClearsBorder` | src/map.c:247 | as written, a 2-by-1 map is carved to completion but loses a border cell |
| `Walks.IntendedKeepsBorder` | src/map.c:245-249 | with south bound `height`, the carved grid stays walled on every border cell |
| `Controls.OnKeyDown` | src/raycast.c:697-731 | W, S, A, D and Left Shift set their held flag, Space sets the jump flag, F1 and F3 flip the map and frame-rate flags, other keys change nothing |
| `Controls.OnKeyUp` | src/raycast.c:733-754 | W, S, A, D and Left Shift clear their held flag, other keys change nothing |
| `Controls.OnMotion` | src/raycast.c:756-768 | each axis whose flag is clear and whose relative motion is nonzero stores that motion as an `int8_t` and sets its flag |
| `Controls.OnEvent` | src/raycast.c:693-773 | one event keeps each pending mouse delta or sets it to an `int8_t` value |
| `Controls.OnEvents` | src/raycast.c:693-773 | the event handler applied to a queue of events, first to last, as each polled event is handed to `Raycast_GetEvents` |
| `Controls.PressSetsFlag` | src/raycast.c:699-717 | a key press sets its own held flag and changes no other flag |
| `Controls.ReleaseClearsFlag` | src/raycast.c:735-752 | a key release clears its own held flag and changes no other flag |
| `Controls.JumpLatches` | src/raycast.c:710-713 | Space sets `jump`, and only that; releasing Space changes nothing |
| `Controls.DisplayTogglesTwice` | src/raycast.c:719-725 | F1 and F3 flip their display flags, and two presses restore them |
| `Controls.DisplayOnlyByToggle` | src/raycast.c:693-773 | only a press of F1 (F3) changes the map (fps) display flag |
| `Controls.KeyDownDisplay` | src/raycast.c:697-731 | among key presses, only F1 and F3 change a display flag |
| `Controls.MotionLatches` | src/raycast.c:756-768 | a mouse motion records a nonzero delta only while its flag is clear, then sets the flag; it changes no key flag |
| `Controls.PendingMotionKept` | src/raycast.c:758-766 | while both mouse flags are set, any run of motions leaves the controls unchanged |
| `Controls.MotionStaysInt8` | src/raycast.h:26 | any run of events keeps both deltas in `int8_t` range |
| `Motion.MoveSpeed` | src/raycast.c:102 | the speed is between 0 and `5 * delta`, and crouching halves it |
| `Motion.Heading` | src/raycast.c:106-114 | the normalised heading has components in `[-1, 1]` |
| `Motion.HeadingShape` | src/raycast.c:106-114 | each heading component has the sign of its key pair, is 0 when no key of that pair wins, and a nonzero heading has length about 1 |
| `Motion.CellAt` | src/raycast.c:123 | the code `data[(int)x][(int)y]` of the cell under a position |
| `Motion.PassableInterior` | src/raycast.c:123 | a free cell of a walled map lies strictly inside the map |
| `Motion.NearOnGrid` | src/raycast.c:123-138 | a move shorter than one cell from a free cell stays on the grid, so every cell lookup is in bounds |
| `Motion.Slide` | src/raycast.c:123-127 | an axis-separated step: each axis moves independently, x moves exactly when its target cell is free, and the player ends in a free cell |
| `Motion.SlideBlocked` | src/raycast.c:123-127 | when both target cells are walls, the player stays put |
| `Motion.Leg` | src/raycast.c:118-140 | a step taken (or skipped when its heading component is 0) ends in a free cell |
| `Motion.Stride` | src/raycast.c:118-140 | the forward step then the strafe step end in a free cell, and no step at all leaves the player in place |
| `Motion.Walk` | src/raycast.c:102-140 | a whole movement frame from a free cell ends in a free cell, and with no key held the player stays put |
| `Motion.JumpStep` | src/raycast.c:144-154 | no jumping leaves height and phase alone; a jump that sinks below 0 ends with jump off, phase 0 and height 0; a running jump advances the phase by 0.0765 |
| `Motion.Settle` | src/raycast.c:156-166 | crouching lowers the height by `300 * mov_speed` while it is above -200 and else sets -200; standing lowers a positive height by `100 * mov_speed` but not below 0, then raises a negative one by the same but not above 0 |
| `Motion.SettleMoves` | src/raycast.c:156-166 | standing moves the height toward 0 without crossing it; crouching sinks by `300 * ms` down to -200 |
| `Motion.SettleStaysBetween` | src/raycast.c:162-166 | any number of standing frames keeps the height between its start and 0 |
| `Motion.Rotate` | src/raycast.c:184-185 | `(x * c - y * s, x * s + y * c)`, the second component taken from the old x as `old_dir_x` keeps it |
| `Motion.RotateIsometry` | src/raycast.c:184-199 | a rotation with `c*c + s*s == 1` keeps dot products |
| `Motion.RotateBack` | src/raycast.c:184-199 | rotating by `-s` undoes a rotation by `s` |
| `Motion.Turn` | src/raycast.c:181-200 | a negative `mouse_dx` rotates the direction and the plane by the turn angle, a positive one by its opposite, 0 leaves both |
| `Motion.TurnKeepsFrame` | src/raycast.c:175-201 | a turn keeps the lengths of the direction and the camera plane and the angle between them |
| `Motion.MouseSpeed` | src/raycast.c:179-207 | the speed `.5 * abs(d) * delta` is never negative |
| `Motion.Look` | src/raycast.c:209-218 | a negative `mouse_dy` raises the pitch by `400 * cam_z_speed`, capped at 200; a positive one lowers it, floored at -200; 0 keeps it |
| `Motion.LookBounded` | src/raycast.c:203-219 | a pitch in `[-200, 200]` stays there; looking up never lowers it, looking down never raises it, zero leaves it |
| `Views.Pixel` | src/raycast.c:309 | the offset `y * win_w + x` of a window pixel lies in the buffer |
| `Views.PixelInBounds` | src/raycast.c:309 | every window pixel's offset is inside the `win_w * win_h` buffer |
| `Views.PixelInjective` | src/raycast.c:309 | distinct window pixels have distinct offsets |
| `Views.OtherPixels` | src/raycast.c:488 | writing one pixel leaves every other pixel of the window alone |
| `Views.PixelOnto` | src/raycast.c:517-521 | every buffer offset is the offset of exactly the pixel `(i % win_w, i / win_w)` |
| `WallCast.CameraX` | src/raycast.c:360 | the camera coordinate of a column lies in `[-1, 1)` |
| `WallCast.DeltaDist` | src/raycast.c:375-376 | the delta distance is positive, and for a nonzero ray component it is `1 / abs(d)` |
| `WallCast.RayOf` | src/raycast.c:381-408 | `step_x == -1` exactly when `ray_dir_x < 0`, likewise for y |
| `WallCast.FirstSide` | src/raycast.c:389-408 | the initial side distance is never negative |
| `WallCast.StartOf` | src/raycast.c:366-408 | both initial side distances are non-negative |
| `WallCast.Advance` | src/raycast.c:416-427 | one DDA step: across the x line when `side_dist_x < side_dist_y`, else across the y line, adding that axis's delta and recording the side |
| `WallCast.AdvanceIsUnitStep` | src/raycast.c:416-427 | one DDA step moves by `step_x` on x when `side_dist_x < side_dist_y`, else by `step_y` on y, adds the matching delta and records the side |
| `WallCast.AdvanceStaysInside` | src/raycast.c:416-431 | from an interior cell a step stays on the grid, makes progress toward the border, and lands on a code in `[0, 255]` |
| `WallCast.Perp` | src/raycast.c:436-437 | `perp_wall_dist`: the side distance of the last step's axis minus that axis's delta |
| `WallCast.Trace` | src/raycast.c:412-437 | on a walled map the DDA loop ends on a cell with code above 0, with a non-negative perpendicular distance |
| `WallCast.TraceStep` | src/raycast.c:412-432 | the loop stops at the next cell when it is a wall and continues from it otherwise |
| `WallCast.TraceIsFirstWall` | src/raycast.c:412-432 | the loop's end is the first cell along the ray whose code is above 0: every earlier cell is free |
| `WallCast.CastRay` | src/raycast.c:412-432 | the `while (hit == 0)` loop on the map array ends at the first wall cell along the ray |
| `WallCast.LineHeight` | src/raycast.c:441 | the line height is never negative |
| `WallCast.RawStart` | src/raycast.c:445 | `-line_height / 2 + h_win_h + pitch + pos_z / perp`, truncated, before the clip |
| `WallCast.RawEnd` | src/raycast.c:448 | `line_height / 2 + h_win_h + pitch + pos_z / perp`, truncated, before the clip |
| `WallCast.StripOf` | src/raycast.c:441-449 | after clipping, `draw_start >= 0` and `draw_end <= win_h - 1` |
| `WallCast.StripIsClipped` | src/raycast.c:445-449 | a window row is in the clipped strip exactly when it is in the unclipped one |
| `WallCast.NearerIsTaller` | src/raycast.c:441 | a nearer wall is drawn at least as tall |
| `WallCast.WallX` | src/raycast.c:459-462 | the hit position on the wall is in `[0, 1)` |
| `WallCast.TexX` | src/raycast.c:466-468 | the texture column lies in `[0, tex_w)` |
| `WallCast.TexXMirrors` | src/raycast.c:466-468 | rays of opposite direction sample mirrored columns: the two columns add up to `tex_w - 1` |
| `WallCast.TexStep` | src/raycast.c:472 | `step = tex_h / line_height`, texture rows per screen row |
| `WallCast.TexPos0` | src/raycast.c:476 | `(draw_start - pitch - pos_z / perp - h_win_h + line_height / 2) * step`, the texture position at the first drawn row |
| `WallCast.TexRow` | src/raycast.c:480-482 | the texture row with the mask the comment promises lies in `[0, tex_h)` |
| `WallCast.TexRowKeepsRows` | src/raycast.c:480-482 | for a power-of-two `tex_h`, the mask does not change a row the unmasked code already gets right |
| `WallCast.TexRowAsWritten` | src/raycast.c:482 | the row the loop reads at its k-th drawn row as written: `(int)tex_pos` after k steps, with no mask |
| `WallCast.TexRowAsWrittenLeavesTexture` | src/raycast.c:476-483 | as written, an 11-pixel strip starts at texture row -2, which reads before the texture; the masked row is 62 |
| `WallCast.TexRowMovesInnerRows` | src/raycast.c:480-482 | for `tex_h == 48`, which is not a power of two, the mask moves row 20, inside the texture, to row 4 |
| `WallCast.MaskOfMinusTwo` | src/raycast.c:482 | `-2 & 63 == 62` |
| `WallCast.ColumnDir` | src/raycast.c:360-362 | `dir + plane * camera_x`, the ray of column x |
| `WallCast.WallTexel` | src/raycast.c:483-487 | texel `ty * tex_w + tx` of texture `code - 1`, darkened on a y-side |
| `WallCast.ColumnHit` | src/raycast.c:356-432 | the ray of every window column hits a wall cell |
| `WallCast.ColumnPerp` | src/raycast.c:436-437 | the perpendicular distance is the last side distance minus its delta, and never negative |
| `WallCast.CodeHasTexture` | src/raycast.c:455 | when every code has a texture, the texture index `code - 1` is in range |
| `WallCast.TexturedColumn` | src/raycast.c:441-489 | a drawn textured column has a clipped strip, an in-range texture index and column, and the texture's masked rows |
| `WallCast.StripPixel` | src/raycast.c:478-488 | inside rows `draw_start` to `draw_end` the texel of the masked row reached after `y - draw_start` steps, outside them the old pixel |
| `WallCast.WallPixel` | src/raycast.c:356-489 | a pixel after the textured caster: the strip pixel of its column when the column is drawn, else the old pixel |
| `WallCast.DrawStrip` | src/raycast.c:478-489 | the strip loop writes each pixel of the column from the strip function, darkened on y-sides, and leaves every other column alone |
| `WallCast.CastTexturedColumn` | src/raycast.c:356-476 | casting one column on the map array gives the column's strip function |
| `WallCast.DrawTexturedColumn` | src/raycast.c:356-489 | one column of the textured pass: its pixels follow the wall-pixel function, other columns and the map are unchanged |
| `WallCast.CastTexturedWalls` | src/raycast.c:354-510 | the textured wall pass: every window pixel follows the wall-pixel function of its old value, and the map is unchanged |
| `WallCast.Shade` | src/raycast.c:495-504 | a palette colour exists exactly for codes in `[1, wall_num]`; it is the wall's colour, halved on y-sides |
| `WallCast.ColoredColumn` | src/raycast.c:356-507 | the line of column x: from the clipped strip's first row to its last, in the shaded palette colour of the hit code; none for a wall at distance 0 |
| `WallCast.ColoredColumnShape` | src/raycast.c:441-507 | a coloured column's line is clipped to the window, is absent exactly when the distance is 0, and carries the palette colour of the hit code, halved on y-sides |
| `WallCast.CastColoredColumn` | src/raycast.c:356-507 | casting one column on the map array gives its coloured line |
| `WallCast.CastColoredWalls` | src/raycast.c:354-510 | the coloured pass gives one line per window column, each that column's coloured line |
| `FloorCast.IsFloorRow` | src/raycast.c:236 | row y shows the floor exactly when `y > h_win_h + pitch` |
| `FloorCast.RowOffset` | src/raycast.c:245 | the row's distance `p` from the horizon is never negative |
| `FloorCast.CamZ` | src/raycast.c:252 | `0.5 * win_h + pos_z` for a floor row, `0.5 * win_h - pos_z` for a ceiling row |
| `FloorCast.RowDist` | src/raycast.c:268 | `row_dist = cam_z / p` |
| `FloorCast.RowStart` | src/raycast.c:276-277 | `pos + row_dist * (dir - plane)`, the plane point under column 0 |
| `FloorCast.RowStep` | src/raycast.c:272-273 | `row_dist * ((dir + plane) - (dir - plane)) / win_w`, the move from one column to the next |
| `FloorCast.HorizonRows` | src/raycast.c:236-245 | `p == 0` happens only for rows within one pixel of the horizon |
| `FloorCast.StepsFollowRays` | src/raycast.c:272-313 | stepping `x` times from the leftmost point gives the plane point under the ray of column `x` |
| `FloorCast.CellFraction` | src/raycast.c:282-291 | `f - (int)f` is the fractional part for non-negative coordinates |
| `FloorCast.TexCoord` | src/raycast.c:291-292 | the masked texture coordinate lies in `[0, n)` |
| `FloorCast.MaskedTexel` | src/raycast.c:291-292 | the masked coordinate of a fraction in `[0, 1)` lies in `[0, n)` |
| `FloorCast.MaskedFraction` | src/raycast.c:291-292 | for a power-of-two size the mask leaves `(int)(n * fraction)` unchanged |
| `FloorCast.TexCoordPeriodic` | src/raycast.c:291-292 | the texture coordinate repeats with each world cell |
| `FloorCast.FractionPeriodic` | src/raycast.c:282-283 | the fractional part repeats with each world cell |
| `FloorCast.PlaneTexel` | src/raycast.c:291-303 | the texel at the masked coordinates of a plane point's fractional parts, darkened by `>> 1 & 8355711` |
| `FloorCast.PlaneTexelPeriodic` | src/raycast.c:289-303 | floor and ceiling textures tile: the sampled texel repeats with each world cell in x and in y |
| `FloorCast.FloorFrom` | src/raycast.c:320 | the floor loop's first row, `(int)(h_win_h - 1 + pitch)` |
| `FloorCast.CeilingFrom` | src/raycast.c:322 | the ceiling loop's first `y`, `(int)(h_win_h - 1 - pitch)`, which paints row `win_h - y - 1` |
| `FloorCast.FillPixel` | src/raycast.c:319-324 | a pixel after the untextured pass: blue down to row `win_h - 1` less the ceiling start, else green from the floor start, else the old pixel |
| `FloorCast.FillCoversWindow` | src/raycast.c:317-325 | without floor and ceiling textures every window row ends up floor green or sky blue |
| `FloorCast.SurfaceColor` | src/raycast.c:287-306 | the floor or ceiling texel at the column's plane point, or `0x007B00` or `0x003FFF` when that plane has no texture |
| `FloorCast.TexturedPixel` | src/raycast.c:233-309 | a pixel after the textured pass: the surface colour at its row's distance, or the old pixel on the horizon row where `p == 0` |
| `FloorCast.PaintPlaneRow` | src/raycast.c:279-314 | the inner loop writes every pixel of the row from the floor or ceiling colour at its column and leaves other rows alone |
| `FloorCast.CastPlaneRow` | src/raycast.c:233-314 | one row of the textured pass: every pixel follows the textured-pixel function, other rows are unchanged |
| `FloorCast.PaintFloor` | src/raycast.c:320-321 | the floor loop paints the column green from row `h_win_h - 1 + pitch`, clipped to 0, down, and nothing else |
| `FloorCast.PaintCeiling` | src/raycast.c:322-323 | the ceiling loop, its start clipped to 0, paints the column blue from the top down to the mirrored row, and nothing else |
| `FloorCast.FloorFirstWrite` | src/raycast.c:320-321 | the buffer offset of the first pixel the floor loop writes, row `(int)(h_win_h - 1 + pitch)` taken without clipping |
| `FloorCast.CeilingFirstWrite` | src/raycast.c:322-323 | the buffer offset of the first pixel the ceiling loop writes, row `win_h - y - 1` for the unclipped start `y` |
| `FloorCast.UnclippedStartLeavesBuffer` | src/raycast.c:320-323 | as written, a negative start row puts the floor loop's first write before the buffer and the ceiling loop's first write past its end; a start inside the window stays inside |
| `FloorCast.SmallWindowLeavesBuffer` | src/raycast.c:320-323 | in a 320 by 200 window a pitch of 150 makes the ceiling loop write at offset 80000 of 64000, a pitch of -150 makes the floor loop write at offset -16320 |
| `FloorCast.FillColumn` | src/raycast.c:319-324 | the untextured pass on one column: floor first, then the ceiling over it |
| `FloorCast.FloorCeilingPixel` | src/raycast.c:229-326 | the textured-pass pixel when either plane has a texture, else the untextured fill |
| `FloorCast.CastFloorCeiling` | src/raycast.c:229-326 | every window pixel follows the floor-and-ceiling function of its old value |
| `Textures.TexelInBounds` | src/raycast.c:40 | the offset `y * w + x` of a texel lies inside the `w * h` pixels |
| `Textures.PatternPixel` | src/raycast.c:38-87 | every generated pixel is a `0x00RRGGBB` colour |
| `Textures.OffsetInjective` | src/raycast.c:38-40 | distinct texels of a 64-wide texture have distinct offsets |
| `Textures.Fill` | src/raycast.c:38-41 | the nested loops write every texel of the 64×64 texture from the formula, at offset `y * 64 + x` |
| `Textures.Formula` | src/raycast.c:38-87 | the formula of a pattern at each texel of the 64 by 64 square, 0 outside it |
| `Textures.Paint` | src/raycast.c:38-87 | a painted texture shows its pattern |
| `Textures.AutoTexGeneration` | src/raycast.c:23-94 | a floor (ceiling, wall) texture is made exactly when its flag or `AUTO_FULL_TEX` is set; each shows its pattern; the result is true exactly when one was made |
| `Textures.AutoTexturesOk` | src/raycast.c:33-36 | a generated texture is 64×64 with one pixel per texel |
| `Textures.AutoWallsOk` | src/raycast.c:62-71 | the generated wall group holds 10 well-formed 64×64 textures |
| `Textures.ChannelsOfBytes` | src/raycast.c:79-85 | the three bytes of `b + 256 g + 65536 r` are `r`, `g` and `b` |
| `Textures.WallChannels` | src/raycast.c:78-85 | the red, green and blue bytes of wall textures 0 to 7, each as its formula says |
| `Textures.GridLines` | src/raycast.c:40-54 | floor tiles are black exactly on the lines every 16 texels; the ceiling is red 1 and blue 192 except on its first row and column |
| `Textures.SynthwaveGrid` | src/raycast.c:86-87 | wall textures 8 and 9 are black exactly on the lines every 32 texels |
| `RealArith.Scaled` | src/raycast.c:120-133 | a move component `(d * ms) * v` stays below one cell |
| `RealArith.Stepped` | src/raycast.c:312-313 | a float coordinate after its step has been added k times, as `floor_ceiling_x += floor_ceiling_step_x` does per column and `tex_pos += step` (src/raycast.c:482) per row |
| `RealArith.SteppedIsLinear` | src/raycast.c:312-313 | adding a step `k` times adds `k` times the step |
| `Raycast.FirstFree` | src/raycast.c:572-580 | (x, y) is the first cell holding 0 of the column-by-column scan over `[1, width) x [1, height)` |
| `Raycast.FindFree` | src/raycast.c:572-580 | the scan finds the first free cell in column-major order over `[1, width) × [1, height)`, or reports that there is none |
| `Raycast.FirstFreeUnique` | src/raycast.c:572-580 | the first free cell of the scan is unique |
| `Raycast.SpawnPassable` | src/raycast.c:575-576 | the centre of the found cell is a free position |
| `Raycast.RequestOnBorder` | src/raycast.c:566-569 | the explicit branch accepts `pos_x == width`, a border column, where the player starts inside a wall |
| `Raycast.HeadingOf` | src/raycast.c:106-114 | the heading computed from the key flags is `Motion.Heading` |
| `Raycast.TryStep` | src/raycast.c:123-127 | one axis-separated step on the map array is `Motion.Slide` |
| `Raycast.LegStep` | src/raycast.c:118-140 | one guarded step on the map array is `Motion.Leg` |
| `Raycast.StrideSteps` | src/raycast.c:118-140 | both guarded steps on the map array are `Motion.Stride` |
| `Raycast.WalkSteps` | src/raycast.c:116-140 | the collision part of the movement update on the map array is `Motion.Walk` |
| `Raycast.RotateVec` | src/raycast.c:183-189 | the rotation from the pre-rotation values is `Motion.Rotate` |
| `Raycast.Raycaster.Init` | src/raycast.c:614-691 | the built-in textures the flags ask for, window halves, the start pose `(-1, 0)` with plane `(0, 0.66)`, all controls released, a fresh frame buffer exactly when a texture was made, and then `LoadMap` with the requested `(player_x, player_y)`, starting from position `(0, 0)` |
| `Raycast.Raycaster.LoadMap` | src/raycast.c:562-585 | the requested cell's centre when both coordinates are in `[1, size]`, else the first free cell's centre, else the old position |
| `Raycast.Raycaster.LoadTex` | src/raycast.c:587-612 | textures and a fresh buffer are taken exactly when no buffer exists yet; otherwise nothing changes |
| `Raycast.Raycaster.GetEvents` | src/raycast.c:693-773 | the controls become `Controls.OnEvent` of the old ones, and nothing else changes |
| `Raycast.Raycaster.JumpPhase` | src/raycast.c:144-154 | height, phase and jump flag follow `Motion.JumpStep`; the other controls are unchanged |
| `Raycast.Raycaster.CrouchPhase` | src/raycast.c:156-166 | the height follows `Motion.Settle` |
| `Raycast.Raycaster.UpdateMovement` | src/raycast.c:98-167 | the player, standing on a free cell, ends on one: the position is `Motion.Walk`, height and jump state follow the jump and crouch rules |
| `Raycast.Raycaster.TurnView` | src/raycast.c:181-200 | direction and plane become `Motion.Turn` of the old values |
| `Raycast.Raycaster.TiltView` | src/raycast.c:207-218 | the pitch becomes `Motion.Look` of the old pitch and stays in `[-200, 200]` |
| `Raycast.Raycaster.UpdateCamera` | src/raycast.c:169-225 | both mouse flags are consumed; the view turns only when `mouse_mx` was set and tilts only when `mouse_my` was set |
| `Raycast.Raycaster.Update` | src/raycast.c:775-779 | movement then camera: the player stays on a free cell, the pose follows both updates, and the mouse flags are consumed |
| `Raycast.Raycaster.ClearFrame` | src/raycast.c:517-521 | every pixel of the buffer is 0 |
| `Raycast.FramePixel` | src/raycast.c:783-786 | a pixel of a textured frame: the floor and ceiling pass over the old pixel, then the wall pass when there are wall textures |
| `Raycast.Raycaster.Render` | src/raycast.c:781-791 | coloured mode yields one coloured line per column; textured mode yields a frame whose every pixel is the floor-and-ceiling pass and then the wall pass over its old value, then clears the buffer; the map is unchanged |

## Left out

- SDL drawing and presentation are not modelled. This covers `SDL_RenderFillRect`, `SDL_RenderDrawLine`, `SDL_UpdateTexture`, `SDL_RenderCopy`, `SDL_CreateTexture`, `SDL_SetRelativeMouseMode`, the TTF set-up, `_render_map`, `_render_fps` and the drawing part of `Map_Render`. These are foreign calls. The coloured mode hands back its lines as values instead of drawing them.
- `_render_colored_floor_ceiling` (src/raycast.c:328-352) is left out: it is two SDL rectangle fills with no logic of its own.
- `Map_MazeGen` (src/map.c:90-205) is left out: its own TODO says it is to be rewritten, and its termination rests on an unclear sentinel.
- src/textures.c, src/clock.c, src/window.c, src/text.c and src/main.c are not part of this model. They hold image loading, timing, window and font set-up and the frame loop with `srand(time)`.
- Frees and teardown (`Map_Destroy`, `Raycast_Free`, `Texture_Free`, `TexGroup_Destroy`) are left out: memory release has no observable effect in the model.
- IEEE float rounding is not modelled: positions, distances and texture positions are exact `real` values.
- `sqrt`, `cos` and `sin` are parameters with algebraic constraints, not computed values.
- `Maps.RandGen`: `rand()` is a finite sequence of draws, so the walk stops with `done == false` when the draws run out. It cannot model the unbounded loop of the source, whose termination is only probable.
- `WallCast.TexturedColumn`: a column whose perpendicular distance or line height is 0 is left unwritten. The C code divides by zero there, and what it writes is undefined.
- `FloorCast.CastPlaneRow`: a row with `p == 0` (the horizon row) is left unchanged, because `row_dist = cam_z / p` there is a float division by zero with no defined pixel.
- Overflow of C's float-to-`int` conversions is not modelled: the model truncates toward zero without an `INT_MAX` bound, where C's conversion of an out-of-range float is undefined.
- `Raycast.Raycaster.Render`: the buffer's contents after `malloc` are unspecified. A frame is therefore stated in terms of the pixels the buffer held before, and only the pixels the passes write are determined.
- `Raycast.Raycaster.Render`, `Raycast.Raycaster.UpdateMovement` and `Raycast.Raycaster.Update` assume the player stands on a free cell that is not on the border. This holds after `LoadMap` took the scan branch and found a free cell, and every update keeps it. It does not hold after the explicit-request branch of src/raycast.c:566-569 when the request names a border column or a wall (`Raycast.RequestOnBorder`); the model does not cover the frames after such a request. For textured walls it also assumes every wall code has a texture (`code <= length`). Otherwise the C code reads outside the texture group.
- `Raycast.Raycaster.Render`: in textured mode without wall textures, `_casting_walls` is called with a NULL renderer and its lines are not drawn. The model returns no lines there.
- `FloorCast.FillColumn` and `FloorCast.CastFloorCeiling` clip the start rows of the floor and ceiling loops at src/raycast.c:320-323 to 0, which the C code does not do. When `abs(pitch)` reaches `h_win_h` (possible only in windows lower than 402 rows, since the pitch stays within 200 of 0), the C loops write outside the buffer, and this model does not describe those writes; see Findings. `Raycast.Raycaster.Render` inherits the same clipping.
- `Maps.Map.Create` and `Maps.RandGen` require `(width + 1) * (height + 1)` to fit a signed `int`. Above that, the size computation at src/map.c:27 overflows, which C leaves undefined.
- `Raycast.Raycaster.Init` and `Raycast.Raycaster.LoadMap` require a map whose whole border is walled, where `Raycast_Init` and `Raycast_LoadMap` accept any map. `Maps.RandGen` guarantees such a map when `width == height`, as for the 32 by 32 map of the demo; the as-written walk with `width > height` can clear a border cell (`Walks.AsWrittenClearsBorder`), and the model does not follow the raycaster over such a map.
- `Maps.RandGenOk` also excludes `width == 0xFFFF` and `height == 0xFFFF`: `width + 1` passed to `Map_Create`'s `uint16_t` parameter wraps to 0 there. It excludes `width == 0` too: with width 0 the east and south moves are bounded by 0 and the west and north moves by 1, so no draw moves the cursor and the `do { } while` of src/map.c:224-252 never ends.
- `Maps.RandGen` requires a height of at least 1. With height 0 the grid stride is 1, so the walk's target cell can alias the cursor cell and the walk can end at once; that aliasing is not modelled.
- `Raycast.Raycaster.UpdateMovement` and `Raycast.Raycaster.Update` assume each move is shorter than one cell (`abs(dir * ms) < 1` and `abs(plane * ms) < 1`). At larger speeds the C code can index a cell beyond the border.
- `WallCast.DrawStrip`, and through it `WallCast.DrawTexturedColumn`, `WallCast.CastTexturedWalls` and `Raycast.Raycaster.Render`, use the masked texture row that the comment at src/raycast.c:480 promises, not the unmasked row of src/raycast.c:482. The unmasked row can read outside the texture; see Findings. For a texture height that is not a power of two the mask also changes rows inside the texture (`tex_h == 48` reads row 20 as row 4, `WallCast.TexRowMovesInnerRows`), so there the model's rows differ from the C code's. The generated textures are 64 rows high, and `WallCast.TexRowKeepsRows` holds only for power-of-two heights.

## Findings

| source | as written | input that shows it | evidently intended | confidence | as-written member | corrected member |
|---|---|---|---|---|---|---|
| src/map.c:247 | the south move of the walk is bounded by `width` instead of `height` | `width = 2, height = 1`: the cursor can walk onto row 2, the map's bottom border, and clear it; with `2 <= width < height` the cursor never reaches row `height`, so the loop never exits | bound the south move by `height`, which keeps the cursor off the border | not executed | `Walks.AsWrittenClearsBorder`, `Walks.WalkMissesTarget`, `Maps.RandGen` | `Walks.IntendedKeepsBorder`, `Maps.RandGenIntended` |
| src/raycast.c:482 | `tex_y = (int)tex_pos` is not masked with `tex_h - 1`, although the comment at line 480 says it is | a wall at perpendicular distance 960/23 in a 480-row window: the strip is 11 rows high and starts at texture row -2, so the read at `-2 * 64 + tex_x` falls before the texture | `(int)tex_pos & (tex_h - 1)`, which gives row 62 there and, for power-of-two heights, keeps every row an unmasked read already got right | not executed | `WallCast.TexRowAsWritten`, `WallCast.TexRowAsWrittenLeavesTexture` | `WallCast.TexRow`, `WallCast.TexRowKeepsRows`, `WallCast.DrawStrip` |
| src/raycast.c:320-323 | the untextured floor loop starts at `h_win_h - 1 + pitch` and the ceiling loop at `h_win_h - 1 - pitch`, neither clipped at 0 | a 320 by 200 window with `pitch == 150`: the ceiling loop starts at -51 and writes row 250, offset 80000 of a 64000-pixel buffer; with `pitch == -150` the floor loop writes at offset -16320 | start both loops at the larger of 0 and the computed row, which changes nothing when the start is already inside the window | not executed | `FloorCast.FloorFirstWrite`, `FloorCast.CeilingFirstWrite`, `FloorCast.UnclippedStartLeavesBuffer`, `FloorCast.SmallWindowLeavesBuffer` | `FloorCast.PaintFloor`, `FloorCast.PaintCeiling`, `FloorCast.FillCoversWindow` |
