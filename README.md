# Platformer gameplay core in Dafny

A model of the gameplay core of a small 2D platformer (`final/GLFWDemo/src/Game.cpp`
and `Game.hpp`). The core has two parts. A deterministic generator fills a
64 x 64 occupancy grid: a solid frame, four floors with gaps, stalagmites,
a zig-zag of pillars, a "flappy" corridor, and two cleared cells for the
teleport and the spikes. The per-frame update then moves the player:

- it samples the grid with bilinear interpolation;
- it sweeps in eight steps, horizontally and then vertically;
- it runs a small jump state machine (buffered jump request, gravity with a
  terminal speed, at most two jumps between ground contacts);
- it reloads the level when the player reaches the teleport.

Input handlers turn key and mouse events into the pending input of the
next frame.

Modules, one per file:

- `Config` (`config.dfy`): the gameplay constants of `Game.hpp`.
- `Geometry` (`geometry.dfy`): `float2` as `Vec2`, `lerp`, absolute value.
- `Grid` (`grid.dfy`): the cell array's layout, `ReadMap`, truncation versus
  `fract`, the bilinear occupancy, and the ground probe.
- `Collision` (`sweep.dfy`): the eight-step swept collision loop. It has a
  specification (`SweepEnd`), the loop itself as a method (`Sweep`), and its
  properties. It works over an abstract occupancy field; `OccupancyField`
  instantiates that field with a grid.
- `MapGen` (`mapgen.dfy`): the generated layout cell by cell (`GeneratedCell`),
  the painting loops over a `bool` array (one method per source block), and
  lemmas about the layout.
- `Physics` (`physics.dfy`): the vertical state machine as functions on the
  jump record, plus a multi-frame lemma for the double-jump cap.
- `Input` (`input.dfy`): keys, key states and the pending-movement update.
- `Game` (`game.dfy`): `UpdateFrame`, the whole frame as a function, with
  lemmas about it. The class `Game` holds the player and map fields that the
  gameplay code updates. Its methods (`GenerateMap`, `InitPlayer`,
  `LoadNewMap`, `Update`, `KeyEvent`, `MouseEvent`) work step by step and are
  proved against those functions. `Valid()` says that the cell array has
  64 x 64 cells and always holds the generated map, that the teleport and
  spikes sit at (62, 2) and (8, 39), that at most two jumps are counted, and
  that the vertical speed never goes below the terminal fall speed. Small
  helpers name source expressions without a contract of their own:
  `NearTeleport` is the teleport test of Game.cpp:138 (`length < TeleportRadius`,
  compared on squares), `HorizontalTarget` and `VerticalTarget` are the sweep
  targets of Game.cpp:108 and 194, and `Physics.CanJump` is the jump test of
  Game.cpp:184.
- `Screen` (`screen.dfy`): `GetScreenTransform`, with the swap-chain size
  passed in as parameters.

Floats are modelled as mathematical reals. `static_cast<int>` truncates toward
zero (`Trunc`). `fract` uses `floor` (`Fract`). Both are kept as written, so
the cell fetched for a negative coordinate follows the code. The unsigned
subtraction in the zig-zag loop (`yFloor - dy`) is written out modulo 2^32
(`Wrap32`).

Observations the model makes explicit:

- Reloading regenerates exactly the same map, because the generator is
  deterministic. So a reload only respawns the player and resets the two wave
  animations.
- A reload keeps the vertical speed, the jump count and any pending jump
  request. The vertical phase of that same frame runs from the spawn point.
- Up, S and Down change only `PendingPos.y`, and `Update` never reads that
  component. So these keys have no effect on movement.
- The remaining jump buffer time can go negative: `Update` subtracts dt
  without clamping (Game.cpp:160-168), and `ExpireBuffer` does the same.
- There is no ground snap: the only vertical motion is the swept
  `VertVel * dt`. A falling player still comes to rest on a floor when both
  columns the occupancy reads are solid at the floor's row r and empty above
  it (`Game.FallingPlayerComesToRest`). There, a point between r + 0.5 and
  r + 1.1 is blocked, and the ground probe reads row r for points between
  r + 0.4 and r + 1.4. One sample step is at most 60 * 1/30 / 7 = 2/7 of a
  cell, so the sweep stops in the 0.3-cell window [r + 1.1, r + 1.4), and the
  next frame sees ground.
- At a floor's edge the player can hang in the air (`Game.LedgeHover`). The
  occupancy reads two columns, `int(x - 0.5)` and the next, but the ground
  probe reads only `int(x)`. At (6.95, 15.7), beside the right end of floor
  3's gap, the probe cell (6, 15) is empty, so the player is airborne. Yet the
  solid cell (7, 15) pushes the occupancy one fall step lower to about 0.411,
  so the sweep does not move. Each idle frame then leaves the player where it
  is, with speed -60 and both jumps still used.

## Model

| member | source | states |
|---|---|---|
| Geometry.Lerp | final/GLFWDemo/src/Game.cpp:130 | `lerp` returns its ends at weights 0 and 1, and stays between the two ends for weights in [0, 1] |
| Geometry.Lerp2 | final/GLFWDemo/src/Game.cpp:121 | the component-wise `lerp` of two points returns its ends at weights 0 and 1, stays in their bounding box, and keeps a coordinate the two points share |
| Grid.IndexCell | final/GLFWDemo/src/Game.cpp:114 | inside the grid, `x + y * 64` is a valid index whose remainder and quotient by 64 give back x and y |
| Grid.Trunc | final/GLFWDemo/src/Game.cpp:124-125 | `static_cast<int>` rounds toward zero: down for non-negative values, up for negative ones |
| Grid.Fract | final/GLFWDemo/src/Game.cpp:48-51 | `fract` lies in [0, 1) and differs from its argument by an integer |
| Grid.ReadMap | final/GLFWDemo/src/Game.cpp:112-116 | a cell reads 1 when solid and 0 when empty, and every cell outside the 64 x 64 grid reads 1 |
| Grid.Occupancy | final/GLFWDemo/src/Game.cpp:123-130 | the bilinear occupancy of a point is always in [0, 1] |
| Grid.SolidNeighbourhoodBlocks | final/GLFWDemo/src/Game.cpp:126-132 | if the four cells sampled around a point are all solid, its occupancy is 1, which exceeds the player radius |
| Grid.EmptyNeighbourhoodIsFree | final/GLFWDemo/src/Game.cpp:126-132 | if the four cells sampled around a point are all empty, its occupancy is 0, so the player may stand there |
| Grid.OutsideGridIsSolid | final/GLFWDemo/src/Game.cpp:112-130 | a point 1.5 cells or more beyond the low edges (x or y at most -1.5), or 0.5 cells or more beyond the high edges (x or y at least 64.5), samples only out-of-range cells, so its occupancy is 1 |
| Grid.ColumnOccupancy | final/GLFWDemo/src/Game.cpp:122-132 | over a column pair solid at row r and empty in the rows above, a point at or above r + 0.5 is blocked exactly when it is below r + 1.1 |
| Grid.ProbeColumnIsFetched | final/GLFWDemo/src/Game.cpp:148 | the ground probe's column `int(x)` is one of the two columns the occupancy fetch of line 124 reads, `int(x - 0.5)` or the next |
| Grid.GroundUnderColumn | final/GLFWDemo/src/Game.cpp:146-155 | a point between r + 0.4 and r + 1.4 over a column pair solid at row r stands on ground |
| Grid.IsGroundBelow | final/GLFWDemo/src/Game.cpp:146-155 | the probe cell is (trunc x, trunc(y - radius)); out of range it counts as ground, in range it is ground iff the cell is solid |
| Collision.FirstBlockedFrom | final/GLFWDemo/src/Game.cpp:118-133 | returns the first blocked sample index at or after i (or 8 if none): every sample before it is free and the one it names is blocked |
| Collision.Sweep | final/GLFWDemo/src/Game.cpp:118-136 | the loop ends at the last free sample before the first blocked one (or at the start if sample 0 is blocked), as `SweepEnd` specifies |
| Collision.SampleEnds | final/GLFWDemo/src/Game.cpp:118-121 | the eight samples have parameters in [0, 1], the first is the start (t = 0) and the last is the target (t = 1) |
| Collision.SweepReachesEnd | final/GLFWDemo/src/Game.cpp:118-136 | if no sample is blocked, the sweep reaches its target exactly (sample 7 has t = 1) |
| Collision.SweepOnSegment | final/GLFWDemo/src/Game.cpp:118-136 | the result is `lerp(start, end, t)` for some t in [0, 1] |
| Collision.SweepStaysBetween | final/GLFWDemo/src/Game.cpp:118-136 | the result lies between start and target on both axes |
| Collision.SweepAcceptsOnlyFreePoints | final/GLFWDemo/src/Game.cpp:131-135 | once some sample was accepted, the final position has occupancy at most the player radius |
| Collision.SweepMovesOnlyToFree | final/GLFWDemo/src/Game.cpp:131-135 | the sweep either leaves the player where it was or ends at a free point |
| Collision.SweepBlockedAtStart | final/GLFWDemo/src/Game.cpp:131-132 | a player whose own position is blocked does not move |
| Collision.SweepNoOp | final/GLFWDemo/src/Game.cpp:118-136 | a sweep to the starting point leaves the player there |
| Collision.SampleStep | final/GLFWDemo/src/Game.cpp:203-206 | vertically, consecutive samples are (end.y - start.y) / 7 apart |
| Collision.AcceptedSamplesAboveLevel | final/GLFWDemo/src/Game.cpp:203-221 | under the hypotheses of `SweepStopsAboveLevel`, every sample before the first blocked one lies on the sweep's line, at or above the level and not above the start |
| Collision.SweepStopsAboveLevel | final/GLFWDemo/src/Game.cpp:203-221 | in a downward sweep whose line is free exactly at and above a level (down to `lo`), with a step shorter than level - lo, the sweep stops at or above the level and less than one step above it |
| Collision.FirstBlockedFromIs | final/GLFWDemo/src/Game.cpp:203-218 | if samples j to i - 1 are free and sample i is blocked (or i is 8), the first blocked sample from j is i |
| Collision.SweepKeepsFixedAxis | final/GLFWDemo/src/Game.cpp:108 | a horizontal sweep (target at line 108) never changes y, and a vertical sweep (target at line 194) never changes x |
| MapGen.FillBorder | final/GLFWDemo/src/Game.cpp:372-382 | after the two border loops, exactly the old cells plus rows 0 and 63 and columns 0 and 63 are solid |
| MapGen.DrawFloorWalls | final/GLFWDemo/src/Game.cpp:385-403 | adds exactly floor 0's and floor 3's rows, minus their gaps; floors 1 and 2 are skipped |
| MapGen.DrawStalagmites | final/GLFWDemo/src/Game.cpp:405-438 | adds exactly the stalagmite floor up to its right-hand gap and the six 3-wide pillars of heights 3, 5, 7, 3, 5, 7, clipped to the interior |
| MapGen.Wrap32 | final/GLFWDemo/src/Game.cpp:485 | the unsigned subtraction's result is in [0, 2^32) and equals the plain difference when that is in range |
| MapGen.DrawZigzag | final/GLFWDemo/src/Game.cpp:440-491 | adds exactly the zig-zag floor minus its left gap and the nine pillars, alternately rising and hanging, clipped to rows 1..62 |
| MapGen.DrawFlappyCorridor | final/GLFWDemo/src/Game.cpp:493-520 | adds exactly five one-cell pillars spanning rows 1..14 whose 3-cell gaps alternate bottom and top; every write is in bounds |
| MapGen.GeneratedMapCell | final/GLFWDemo/src/Game.cpp:364-536 | the generated map's cell at x + 64y is `GeneratedCell(x, y)` |
| MapGen.BorderIsSolid | final/GLFWDemo/src/Game.cpp:372-382 | every cell of the frame is solid in the generated map |
| MapGen.SpecialCellsAreEmpty | final/GLFWDemo/src/Game.cpp:522-535 | the teleport cell (62, 2) and the spikes cell (8, 39) are empty; the spikes cell had been painted by the zig-zag floor and is cleared |
| MapGen.SpawnCellIsEmpty | final/GLFWDemo/src/Game.cpp:672 | the spawn cell (1, 62) is empty in the generated map |
| MapGen.FloorWallRows | final/GLFWDemo/src/Game.cpp:387-403 | floor walls lie only on rows 51 and 15, inside the frame |
| MapGen.StalagmiteRows | final/GLFWDemo/src/Game.cpp:405-438 | stalagmites lie only on rows 27..33, inside the frame |
| MapGen.ZigzagRows | final/GLFWDemo/src/Game.cpp:440-491 | zig-zag pillars lie only within 6 rows of row 39, inside the frame |
| MapGen.FlappyRows | final/GLFWDemo/src/Game.cpp:493-520 | corridor pillars lie only on rows 1..14, below floor 3, inside the frame |
| MapGen.FloorWallsUnfold | final/GLFWDemo/src/Game.cpp:390-392 | the floor-wall layer is the union of the four floors' walls |
| MapGen.FloorZeroRow | final/GLFWDemo/src/Game.cpp:387-403 | in the generated map, row 51's interior is solid iff the cell is outside the gap 57..62 |
| MapGen.FlappyColumns | final/GLFWDemo/src/Game.cpp:506-508 | corridor pillars stand only on the columns 4 + 14 i |
| MapGen.GapEdgeNeighbourEmpty | final/GLFWDemo/src/Game.cpp:364-536 | the cells just below and above the right end of floor 3's gap, (6..7, 14) and (6..7, 16), are empty in the generated map |
| MapGen.FloorThreeRow | final/GLFWDemo/src/Game.cpp:387-403 | in the generated map, row 15's interior is solid iff the cell is outside the gap 1..6 |
| Physics.ClampDt | final/GLFWDemo/src/Game.cpp:98 | the frame time is at most 1/30 and at most the given dt, and equals one of them |
| Physics.ExpireBuffer | final/GLFWDemo/src/Game.cpp:160-168 | a positive buffer counts down by dt; the request is dropped exactly when the countdown crosses zero in this frame |
| Physics.ApplyGravity | final/GLFWDemo/src/Game.cpp:170-181 | on the ground, speed and jump count reset to 0; in the air, gravity applies but the speed never drops below -60 |
| Physics.TryJump | final/GLFWDemo/src/Game.cpp:183-191 | a request with fewer than two jumps used sets speed 30, counts the jump and clears request and buffer; otherwise nothing changes |
| Physics.VerticalStep | final/GLFWDemo/src/Game.cpp:160-191 | the jump count stays at most 2 and the speed at least -60; a fired jump gives speed 30 and count 1 on the ground or count + 1 in the air |
| Physics.PressJump | final/GLFWDemo/src/Game.cpp:343-347 | pressing W arms the request with a 0.1 s buffer and leaves speed and count alone |
| Physics.ExpiredRequestDoesNotJump | final/GLFWDemo/src/Game.cpp:160-191 | a request whose buffer runs out during the frame does not jump and is cleared |
| Physics.BufferedRequestJumpsOnLanding | final/GLFWDemo/src/Game.cpp:160-191 | a request still buffered when the player is on the ground jumps: speed 30, count 1 |
| Physics.AirborneJumpCap | final/GLFWDemo/src/Game.cpp:183-191 | over any run of frames in the air, however often W is pressed, at most 2 - jumpCount jumps fire, and each one is counted |
| Input.PendingAfterKey | final/GLFWDemo/src/Game.cpp:303-340 | releases change nothing; held Up sets y to 1; held S or Down subtracts 1 from y; held D or Right adds 1 to x; held A or Left subtracts 1 from x; Space copies the flashlight direction; other keys change nothing |
| Input.OppositeKeysCancel | final/GLFWDemo/src/Game.cpp:318-328 | a held right key and a held left key cancel, in either order |
| Input.UpIsIdempotent | final/GLFWDemo/src/Game.cpp:307-310 | a held Up leaves y = 1, and repeating it changes nothing |
| Input.HorizontalInputCounts | final/GLFWDemo/src/Game.cpp:303-340 | without Space, the pending x after a run of events is the old x plus held right keys minus held left keys |
| Game.HorizontalMove | final/GLFWDemo/src/Game.cpp:101-136 | input inside the dead zone (abs at most 0.1) moves nothing; otherwise only x changes, within [start, target], ending at the start or at a free point |
| Game.VerticalMove | final/GLFWDemo/src/Game.cpp:193-221 | only y changes, within [start, start + vertVel * dt], ending at the start or at a free point |
| Game.MovesStayNearGrid | final/GLFWDemo/src/Game.cpp:112-136 | a sweep that moves the player keeps it within a cell and a half of the map |
| Game.UpdateFrame | final/GLFWDemo/src/Game.cpp:96-223 | a reload happens exactly when the horizontal input leaves the dead zone and the horizontal move ends within the teleport radius; it respawns at x = 1.5, and without it x is the horizontal sweep's result; the jump state is `VerticalStep` with the ground probed at the post-move (or spawn) position on the current (or regenerated) map; the position is the vertical sweep from the post-move (or spawn) position, on the current (or regenerated) map, at the new speed; the jump cap and the terminal speed hold after the frame |
| Game.IdleOnGroundStaysPut | final/GLFWDemo/src/Game.cpp:96-223 | on the ground with no input and no request, the player stays where it is, at rest, with no jumps used |
| Game.JumpFromGround | final/GLFWDemo/src/Game.cpp:157-221 | a buffered request on the ground jumps (speed 30, count 1) and the player does not move down |
| Game.FallingNeverRises | final/GLFWDemo/src/Game.cpp:157-221 | in the air with no request and non-positive speed, the player never moves up and the speed stays non-positive |
| Game.VerticalMoveLands | final/GLFWDemo/src/Game.cpp:146-221 | over a column pair solid at row r and empty above it, a downward move from at or above r + 1.1 to a target below r + 1.1, at no more than terminal speed and dt at most 1/30, keeps x and ends in [r + 1.1, r + 1.4), where the ground probe finds ground |
| Game.FallingPlayerComesToRest | final/GLFWDemo/src/Game.cpp:96-223 | a player falling onto such a floor with no input and no request lands on it in that frame; the next idle frame leaves it in place with speed 0 and jump count 0 |
| Game.LedgeOccupancy | final/GLFWDemo/src/Game.cpp:122-132 | in the generated map, the occupancy at (6.95, 15.7) is at most the player radius, and 2/7 of a cell lower it exceeds it |
| Game.LedgeFirstStep | final/GLFWDemo/src/Game.cpp:203-206 | the first sample after the start of a fall from (6.95, 15.7) to (6.95, 13.7) is 2/7 of a cell down |
| Game.LedgeSweepBlocked | final/GLFWDemo/src/Game.cpp:193-221 | the vertical sweep from (6.95, 15.7) at speed -60 over 1/30 s leaves the player where it is |
| Game.LedgeHover | final/GLFWDemo/src/Game.cpp:96-223 | at (6.95, 15.7) in the generated map, falling at -60 with both jumps used, the ground probe finds no ground, and an idle frame returns the same position and jump state with no reload |
| Game.Game.constructor | final/GLFWDemo/src/Game.hpp:57-92 | the record defaults (flashlight (5, 5), no jump state), then the generated map and the spawn position |
| Game.Game.GenerateMap | final/GLFWDemo/src/Game.cpp:364-536 | the cell array becomes exactly the generated map, in place; the teleport is at (62, 2) and the spikes at (8, 39), both wave animations are 0, and the player is untouched |
| Game.Game.InitPlayer | final/GLFWDemo/src/Game.cpp:658-672 | the player is placed at (1.5, 62.5) and nothing else changes |
| Game.Game.LoadNewMap | final/GLFWDemo/src/Game.cpp:689-697 | the map is regenerated (identical to before) and the player respawns; speed, jump count and request are kept |
| Game.Game.Update | final/GLFWDemo/src/Game.cpp:96-223 | the new position and jump state are those of `UpdateFrame`; pending input is zeroed; wave animations reset only on a reload |
| Game.Game.MoveHorizontally | final/GLFWDemo/src/Game.cpp:100-141 | the pending x is consumed; the position is the horizontal sweep's result, or the spawn point if that result is within the teleport radius |
| Game.Game.UpdateJump | final/GLFWDemo/src/Game.cpp:160-191 | the jump fields become `VerticalStep` of the old ones; nothing else changes |
| Game.Game.MoveVertically | final/GLFWDemo/src/Game.cpp:193-221 | the position becomes the vertical sweep's result; nothing else changes |
| Game.Game.KeyEvent | final/GLFWDemo/src/Game.cpp:301-355 | pending input follows `PendingAfterKey`; W pressed (not repeated) arms the jump; the left mouse button tracks press versus release; releasing Tab reloads and respawns |
| Game.Game.MouseEvent | final/GLFWDemo/src/Game.cpp:358-361 | the cursor position is stored and nothing else changes |
| Screen.ScreenTransform | final/GLFWDemo/src/Game.cpp:280-298 | the ranges are symmetric, x in (0, 1] and y in [0, 1]; one axis gets the full range; x is narrowed exactly when the window is wider than the map; cells stay square |

## Left out

- Rendering and GPU work are not modelled: `Draw`, `CreateSDFMap`, `CreatePipelineState`, `BindResources`, `IdleGPU`, constant buffers and the conversion of the map to bytes (0xFF or 0). They consume the gameplay state but do not change it.
- Game.Game.LoadNewMap: only the success path is modelled. The exceptions that the `try`/`catch` swallows can come only from the GPU calls, which are left out.
- Game.Game.constructor: models the fields' default values plus the gameplay steps of `Initialize` (`GenerateMap`, then `InitPlayer`). Shader and pipeline creation are left out. The cell array is allocated at its full size up front. The source instead starts with an empty vector that `GenerateMap` resizes.
- Console logging (`std::cout`) and `Quit()` on Esc are left out. `Quit` belongs to the application framework and does not touch gameplay state.
- Rendering-only fields are left out: flashlight power, ambient light, light colours and intensities, SDF constants.
- `Constants.SpikesRadius` is not modelled. No gameplay code reads it: the spikes cell is only cleared and drawn, and nothing triggers on it.
- Floats are exact reals. IEEE rounding, overflow of float-to-int casts on huge coordinates, and NaN or infinite inputs are not modelled.
- Game.NearTeleport: `length(d) < 1` is modelled as the squared distance being below 1. The two agree because both sides are non-negative.
- Collision.Sweep: stated over an abstract occupancy field. `Game.HorizontalMove` and `Game.VerticalMove` instantiate that field with the grid's bilinear occupancy.
- Screen.ScreenTransform: requires a non-zero swap-chain height. A zero height would divide by zero in floating point.
- The unused `yCeiling` local of the zig-zag block is not modelled.
