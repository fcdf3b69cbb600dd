/**
 * The game object: player and map state, the per-frame `Update`, the input
 * handlers and map (re)loading.
 *
 * `UpdateFrame` is the frame as a function of the state it reads; the
 * `Game.Update` method performs it step by step on the object's fields.
 */
module Game {
  import opened Config
  import opened Geometry
  import opened Grid
  import opened Collision
  import opened MapGen
  import opened Physics
  import Input

  /** Where `InitPlayer` puts the player: the centre of cell (1, H - 2). */
  const Spawn: Vec2 := Vec2(1.5, H as real - 1.5)
  const InitialFlashLightDir: Vec2 := Vec2(5.0, 5.0)
  const TeleportPos: Vec2 := Vec2(TeleportX as real, TeleportY as real)
  const SpikesPos: Vec2 := Vec2(SpikesX as real, SpikesY as real)

  /** `length(teleport - p) < TeleportRadius`, compared on squares (both sides are non-negative). */
  predicate NearTeleport(teleport: Vec2, p: Vec2) {
    DistSq(teleport, p) < TeleportRadius * TeleportRadius
  }

  /** The horizontal sweep's target: `dir * dt * PlayerVelocity` along x. */
  function HorizontalTarget(pos: Vec2, dir: real, dt: real): Vec2 {
    Vec2(pos.x + dir * dt * PlayerVelocity, pos.y)
  }

  /** The vertical sweep's target: `vertVel * dt` along y. */
  function VerticalTarget(pos: Vec2, vertVel: real, dt: real): Vec2 {
    Vec2(pos.x, pos.y + vertVel * dt)
  }

  /**
   * The horizontal phase: a pending direction inside the dead zone moves
   * nothing; otherwise the player sweeps along x towards the target and stops
   * before the first blocked sample.
   */
  function HorizontalMove(grid: Grid, pos: Vec2, dir: real, dt: real): (r: Vec2)
    ensures Abs(dir) <= DeadZone ==> r == pos
    ensures r.y == pos.y
    ensures var t := HorizontalTarget(pos, dir, dt); Min(pos.x, t.x) <= r.x <= Max(pos.x, t.x)
    ensures r == pos || Occupancy(grid, r) <= PlayerRadius
  {
    if Abs(dir) > DeadZone then
      var occ, target := OccupancyField(grid), HorizontalTarget(pos, dir, dt);
      SweepKeepsFixedAxis(occ, pos, target);
      SweepStaysBetween(occ, pos, target);
      SweepMovesOnlyToFree(occ, pos, target);
      SweepEnd(occ, pos, target)
    else pos
  }

  /** The vertical phase: a sweep along y by `vertVel * dt`. */
  function VerticalMove(grid: Grid, pos: Vec2, vertVel: real, dt: real): (r: Vec2)
    ensures r.x == pos.x
    ensures var t := VerticalTarget(pos, vertVel, dt); Min(pos.y, t.y) <= r.y <= Max(pos.y, t.y)
    ensures r == pos || Occupancy(grid, r) <= PlayerRadius
  {
    var occ, target := OccupancyField(grid), VerticalTarget(pos, vertVel, dt);
    SweepKeepsFixedAxis(occ, pos, target);
    SweepStaysBetween(occ, pos, target);
    SweepMovesOnlyToFree(occ, pos, target);
    SweepEnd(occ, pos, target)
  }

  /**
   * Everything outside the grid reads as solid, so a sweep that moves the
   * player never takes it more than a cell and a half beyond the map.
   */
  lemma MovesStayNearGrid(grid: Grid, pos: Vec2, dir: real, vertVel: real, dt: real)
    ensures var r := HorizontalMove(grid, pos, dir, dt);
      r != pos ==> -1.5 < r.x < W as real + 0.5 && -1.5 < r.y < H as real + 0.5
    ensures var r := VerticalMove(grid, pos, vertVel, dt);
      r != pos ==> -1.5 < r.x < W as real + 0.5 && -1.5 < r.y < H as real + 0.5
  {
    var h := HorizontalMove(grid, pos, dir, dt);
    if h != pos && (h.x <= -1.5 || h.y <= -1.5 || h.x >= W as real + 0.5 || h.y >= H as real + 0.5) {
      OutsideGridIsSolid(grid, h);
      assert false;
    }
    var v := VerticalMove(grid, pos, vertVel, dt);
    if v != pos && (v.x <= -1.5 || v.y <= -1.5 || v.x >= W as real + 0.5 || v.y >= H as real + 0.5) {
      OutsideGridIsSolid(grid, v);
      assert false;
    }
  }

  datatype FrameResult = FrameResult(pos: Vec2, jump: JumpState, reloaded: bool)

  /**
   * One call of `Update`: clamp dt, move horizontally, reload the map and
   * respawn if the player ended up at the teleport, then run the jump state
   * machine and move vertically on the (possibly new) map.
   */
  function UpdateFrame(grid: Grid, teleport: Vec2, pos: Vec2, pendingX: real, j: JumpState, dt0: real): (o: FrameResult)
    ensures o.reloaded <==>
      Abs(pendingX) > DeadZone && NearTeleport(teleport, HorizontalMove(grid, pos, pendingX, ClampDt(dt0)))
    ensures o.jump == VerticalStep(j,
      IsGroundBelow(if o.reloaded then GeneratedMap() else grid,
                    if o.reloaded then Spawn else HorizontalMove(grid, pos, pendingX, ClampDt(dt0))),
      ClampDt(dt0))
    ensures o.jump.vertVel >= -TerminalFallSpeed
    ensures j.jumpCount <= MaxJumps ==> o.jump.jumpCount <= MaxJumps
    ensures o.reloaded ==> o.pos.x == Spawn.x
    ensures !o.reloaded ==> o.pos.x == HorizontalMove(grid, pos, pendingX, ClampDt(dt0)).x
    ensures o.pos == VerticalMove(if o.reloaded then GeneratedMap() else grid,
                                  if o.reloaded then Spawn else HorizontalMove(grid, pos, pendingX, ClampDt(dt0)),
                                  o.jump.vertVel, ClampDt(dt0))
  {
    var dt := ClampDt(dt0);
    var moved := HorizontalMove(grid, pos, pendingX, dt);
    var reload := Abs(pendingX) > DeadZone && NearTeleport(teleport, moved);
    var g := if reload then GeneratedMap() else grid;
    var p := if reload then Spawn else moved;
    var j' := VerticalStep(j, IsGroundBelow(g, p), dt);
    FrameResult(VerticalMove(g, p, j'.vertVel, dt), j', reload)
  }

  /** Standing on the ground with no input and no jump request, the player stays put and at rest. */
  lemma IdleOnGroundStaysPut(grid: Grid, teleport: Vec2, pos: Vec2, pendingX: real, j: JumpState, dt0: real)
    requires Abs(pendingX) <= DeadZone && IsGroundBelow(grid, pos) && !j.requested
    ensures var o := UpdateFrame(grid, teleport, pos, pendingX, j, dt0);
      o.pos == pos && o.jump.vertVel == 0.0 && o.jump.jumpCount == 0 && !o.reloaded
  {
    var dt := ClampDt(dt0);
    assert HorizontalMove(grid, pos, pendingX, dt) == pos;
    var j' := VerticalStep(j, true, dt);
    assert j'.vertVel == 0.0 && j'.jumpCount == 0;
    assert VerticalMove(grid, pos, 0.0, dt) == pos;
  }

  /** A buffered jump request on the ground launches the player upwards with the first of its two jumps. */
  lemma JumpFromGround(grid: Grid, teleport: Vec2, pos: Vec2, pendingX: real, j: JumpState, dt0: real)
    requires Abs(pendingX) <= DeadZone && IsGroundBelow(grid, pos)
    requires dt0 >= 0.0 && j.requested && j.bufferTime > ClampDt(dt0)
    ensures var o := UpdateFrame(grid, teleport, pos, pendingX, j, dt0);
      o.jump == JumpState(JumpSpeed, 1, false, 0.0) && o.pos.x == pos.x && o.pos.y >= pos.y
  {
    var dt := ClampDt(dt0);
    assert HorizontalMove(grid, pos, pendingX, dt) == pos;
    BufferedRequestJumpsOnLanding(j, dt);
    ProductNonNegative(JumpSpeed, dt);
    var r := VerticalMove(grid, pos, JumpSpeed, dt);
    assert Min(pos.y, pos.y + JumpSpeed * dt) == pos.y;
  }

  /** In the air with no request and no input, the player never rises. */
  lemma FallingNeverRises(grid: Grid, teleport: Vec2, pos: Vec2, pendingX: real, j: JumpState, dt0: real)
    requires Abs(pendingX) <= DeadZone && !IsGroundBelow(grid, pos)
    requires dt0 >= 0.0 && !j.requested && j.vertVel <= 0.0
    ensures var o := UpdateFrame(grid, teleport, pos, pendingX, j, dt0);
      o.pos.x == pos.x && o.pos.y <= pos.y && o.jump.vertVel <= 0.0
  {
    var dt := ClampDt(dt0);
    assert HorizontalMove(grid, pos, pendingX, dt) == pos;
    var j' := VerticalStep(j, false, dt);
    assert !JumpFires(j, false, dt);
    ProductNonNegative(GravityAccel, dt);
    assert j'.vertVel <= 0.0;
    ProductNonNegative(-j'.vertVel, dt);
    assert j'.vertVel * dt <= 0.0;
    var t := VerticalTarget(pos, j'.vertVel, dt);
    assert t.y <= pos.y;
    assert Max(pos.y, t.y) == pos.y;
    var r := VerticalMove(grid, pos, j'.vertVel, dt);
    assert UpdateFrame(grid, teleport, pos, pendingX, j, dt0) == FrameResult(r, j', false);
  }

  /** One frame's fall is at most terminal speed times the largest step: 60 * 1/30 = 2 cells. */
  lemma FallPerFrame(vertVel: real, dt: real)
    requires 0.0 <= dt <= MaxDT && vertVel >= -TerminalFallSpeed
    ensures vertVel * dt >= -2.0
  {
    ProductNonNegative(vertVel + TerminalFallSpeed, dt);
  }

  /** `ColumnOccupancy` for every point on the vertical line through `pos`, as a field. */
  lemma ColumnField(grid: Grid, pos: Vec2, r: nat)
    requires FloorBelow(grid, pos, r)
    ensures forall p: Vec2 :: p.x == pos.x && r as real + 0.5 <= p.y <= pos.y ==>
      (OccupancyField(grid)(p) > PlayerRadius <==> p.y < r as real + 1.1)
  {
    forall p: Vec2 | p.x == pos.x && r as real + 0.5 <= p.y <= pos.y
      ensures OccupancyField(grid)(p) > PlayerRadius <==> p.y < r as real + 1.1
    {
      assert FetchCellX(p) == FetchCellX(pos) && FetchCellY(p) <= FetchCellY(pos);
      assert ColumnsFloor(grid, FetchCellX(p), r, FetchCellY(pos) + 1);
      ColumnOccupancy(grid, p, r, FetchCellY(pos) + 1);
    }
  }

  /**
   * A fall onto a floor lands: over a column pair that is solid at row r and
   * empty from row r + 1 up to the start, a downward vertical move from at or
   * above r + 1.1 towards a target below r + 1.1 (within one frame's largest
   * fall, 60 * 1/30 cells) ends in [r + 1.1, r + 1.4), where the ground probe
   * reads row r.
   */
  lemma VerticalMoveLands(grid: Grid, pos: Vec2, vertVel: real, dt: real, r: nat)
    requires 0.0 <= dt <= MaxDT && vertVel >= -TerminalFallSpeed
    requires FloorBelow(grid, pos, r)
    requires r as real + 1.1 <= pos.y && VerticalTarget(pos, vertVel, dt).y < r as real + 1.1
    ensures var e := VerticalMove(grid, pos, vertVel, dt);
      e.x == pos.x && r as real + 1.1 <= e.y < r as real + 1.4 && IsGroundBelow(grid, e)
  {
    var occ, target := OccupancyField(grid), VerticalTarget(pos, vertVel, dt);
    var e := VerticalMove(grid, pos, vertVel, dt);
    assert e == SweepEnd(occ, pos, target);
    assert e.x == pos.x && r as real + 1.1 <= e.y < r as real + 1.4 by {
      FallPerFrame(vertVel, dt);
      ColumnField(grid, pos, r);
      SweepStopsAboveLevel(occ, pos, target, r as real + 0.5, r as real + 1.1);
    }
    assert FetchCellX(e) == FetchCellX(pos);
    GroundUnderColumn(grid, e, r);
  }

  /**
   * A player falling with no input and no jump request onto such a floor
   * lands on it this frame, and the next idle frame leaves it standing there
   * at rest with its jumps restored.
   */
  lemma FallingPlayerComesToRest(grid: Grid, teleport: Vec2, pos: Vec2, pendingX: real, j: JumpState, dt0: real,
                                 pendingX2: real, dt1: real, r: nat)
    requires Abs(pendingX) <= DeadZone && Abs(pendingX2) <= DeadZone && !j.requested && dt0 >= 0.0
    requires FloorBelow(grid, pos, r)
    requires r as real + 1.1 <= pos.y
    requires VerticalTarget(pos, UpdateFrame(grid, teleport, pos, pendingX, j, dt0).jump.vertVel, ClampDt(dt0)).y < r as real + 1.1
    ensures var o := UpdateFrame(grid, teleport, pos, pendingX, j, dt0);
      && o.pos.x == pos.x && r as real + 1.1 <= o.pos.y < r as real + 1.4 && IsGroundBelow(grid, o.pos)
      && var o2 := UpdateFrame(grid, teleport, o.pos, pendingX2, o.jump, dt1);
         o2.pos == o.pos && o2.jump.vertVel == 0.0 && o2.jump.jumpCount == 0 && !o2.reloaded
  {
    var dt := ClampDt(dt0);
    assert HorizontalMove(grid, pos, pendingX, dt) == pos;
    var o := UpdateFrame(grid, teleport, pos, pendingX, j, dt0);
    assert !o.reloaded;
    assert !o.jump.requested;
    var v := o.jump.vertVel;
    assert 0.0 <= dt <= MaxDT;
    assert v >= -TerminalFallSpeed;
    assert VerticalTarget(pos, v, dt).y < r as real + 1.1;
    VerticalMoveLands(grid, pos, v, dt, r);
    IdleOnGroundStaysPut(grid, teleport, o.pos, pendingX2, o.jump, dt1);
  }

  /** The ledge at the right end of floor 3's gap, where a falling player can hang: (6.95, 15.7). */
  const LedgePos: Vec2 := Vec2(6.95, 15.7)

  /**
   * At `LedgePos` the occupancy is 0.45 * 0.8 = 0.36, free; one fall step
   * (2/7 of a cell) lower it is 0.45 * 6.4/7, about 0.411, blocked: the solid
   * cell (7, 15) weighs in through the x weight 0.45.
   */
  lemma LedgeOccupancy()
    ensures Occupancy(GeneratedMap(), LedgePos) <= PlayerRadius
    ensures Occupancy(GeneratedMap(), Vec2(6.95, 15.7 - 2.0 / 7.0)) > PlayerRadius
  {
    var g := GeneratedMap();
    FloorThreeRow(6);
    FloorThreeRow(7);
    GapEdgeNeighbourEmpty(6, 14);
    GapEdgeNeighbourEmpty(7, 14);
    GapEdgeNeighbourEmpty(6, 16);
    GapEdgeNeighbourEmpty(7, 16);
    assert ReadMap(g, 6, 15) == 0.0 && ReadMap(g, 7, 15) == 1.0;
    assert ReadMap(g, 6, 14) == 0.0 && ReadMap(g, 7, 14) == 0.0;
    assert ReadMap(g, 6, 16) == 0.0 && ReadMap(g, 7, 16) == 0.0;
    assert Trunc(6.45) == 6 && Fract(6.45) == 0.45;
    assert Trunc(15.2) == 15 && Fract(15.2) == 0.2;
    assert Occupancy(g, LedgePos) == Lerp(Lerp(0.0, 1.0, 0.45), Lerp(0.0, 0.0, 0.45), 0.2) == 0.36;
    var fy := 15.2 - 2.0 / 7.0;
    assert Trunc(fy) == 14 && Fract(fy) == 6.4 / 7.0;
    assert Occupancy(g, Vec2(6.95, 15.7 - 2.0 / 7.0))
      == Lerp(Lerp(0.0, 0.0, 0.45), Lerp(0.0, 1.0, 0.45), 6.4 / 7.0) == 0.45 * (6.4 / 7.0);
  }

  /** The first fall step from `LedgePos` at terminal speed over 1/30 s: 2/7 of a cell down. */
  lemma LedgeFirstStep()
    ensures SamplePoint(LedgePos, Vec2(6.95, 13.7), 1) == Vec2(6.95, 15.7 - 2.0 / 7.0)
  {
    SampleEnds(LedgePos, Vec2(6.95, 13.7));
    SampleStep(LedgePos, Vec2(6.95, 13.7), 0);
  }

  /**
   * A ledge where the player hangs: at `LedgePos`, falling at terminal speed
   * with both jumps used, the probe cell (6, 15) is empty, so the player is
   * in the air, yet the sweep's first step down is blocked by the
   * neighbouring solid cell (7, 15). An idle frame changes nothing: the
   * player keeps hovering, its speed stays -60 and its jumps are not restored.
   */
  lemma LedgeHover()
    ensures !IsGroundBelow(GeneratedMap(), LedgePos)
    ensures var j := JumpState(-TerminalFallSpeed, MaxJumps, false, 0.0);
      UpdateFrame(GeneratedMap(), TeleportPos, LedgePos, 0.0, j, MaxDT) == FrameResult(LedgePos, j, false)
  {
    var g, p, j, dt := GeneratedMap(), LedgePos, JumpState(-TerminalFallSpeed, MaxJumps, false, 0.0), MaxDT;
    assert !IsGroundBelow(g, p) by {
      FloorThreeRow(6);
      assert Trunc(p.x) == 6 && Trunc(p.y - PlayerRadius) == 15;
    }
    assert ClampDt(MaxDT) == dt;
    assert HorizontalMove(g, p, 0.0, dt) == p;
    assert VerticalStep(j, false, dt) == j;
    LedgeSweepBlocked();
  }

  /** The vertical sweep from `LedgePos` at terminal speed stops at once: sample 0 is free, sample 1 blocked. */
  lemma LedgeSweepBlocked()
    ensures VerticalMove(GeneratedMap(), LedgePos, -TerminalFallSpeed, MaxDT) == LedgePos
  {
    var g, p := GeneratedMap(), LedgePos;
    var target := VerticalTarget(p, -TerminalFallSpeed, MaxDT);
    assert target == Vec2(6.95, 13.7);
    var occ := OccupancyField(g);
    LedgeOccupancy();
    SampleEnds(p, target);
    LedgeFirstStep();
    assert !Blocked(occ, p, target, 0) && Blocked(occ, p, target, 1);
    assert FirstBlocked(occ, p, target) == 1;
  }

  /** The game object: the fields of the player and of the map that the gameplay code reads and writes. */
  class Game {
    var pos: Vec2
    var flashLightDir: Vec2
    var pendingPos: Vec2
    var mousePos: Vec2
    var lmbPressed: bool
    var vertVel: real
    var jumpRequested: bool
    var jumpCount: nat
    var jumpInputBufferTime: real

    var teleportPos: Vec2
    var teleportWaveAnim: real
    var spikesPos: Vec2
    var spikesWaveAnim: real
    var mapData: array<bool>

    /** The map is always the generated one; at most two jumps; no fall faster than terminal speed. */
    predicate Valid()
      reads this, mapData
    {
      && mapData.Length == W * H
      && mapData[..] == GeneratedMap()
      && teleportPos == TeleportPos && spikesPos == SpikesPos
      && jumpCount <= MaxJumps
      && vertVel >= -TerminalFallSpeed
    }

    function Jump(): JumpState
      reads this
    {
      JumpState(vertVel, jumpCount, jumpRequested, jumpInputBufferTime)
    }

    /** The defaults of the player and map records, then `Initialize`'s GenerateMap and InitPlayer. */
    constructor ()
      ensures Valid() && fresh(mapData)
      ensures pos == Spawn && flashLightDir == InitialFlashLightDir
      ensures pendingPos == Zero && mousePos == Zero && !lmbPressed
      ensures Jump() == JumpState(0.0, 0, false, 0.0)
      ensures teleportWaveAnim == 0.0 && spikesWaveAnim == 0.0
    {
      pos := Zero;
      flashLightDir := InitialFlashLightDir;
      pendingPos := Zero;
      mousePos := Zero;
      lmbPressed := false;
      vertVel := 0.0;
      jumpRequested := false;
      jumpCount := 0;
      jumpInputBufferTime := 0.0;
      teleportPos := Zero;
      teleportWaveAnim := 0.0;
      spikesPos := Zero;
      spikesWaveAnim := 0.0;
      mapData := new bool[W * H];
      new;
      GenerateMap();
      InitPlayer();
    }

    /** Rebuilds the map in place: all empty, the five layers painted, the teleport and spikes cells cleared. */
    method GenerateMap()
      requires mapData.Length == W * H
      modifies this, mapData
      ensures mapData == old(mapData)
      ensures mapData[..] == GeneratedMap()
      ensures teleportPos == TeleportPos && teleportWaveAnim == 0.0
      ensures spikesPos == SpikesPos && spikesWaveAnim == 0.0
      ensures pos == old(pos) && flashLightDir == old(flashLightDir) && pendingPos == old(pendingPos)
      ensures mousePos == old(mousePos) && lmbPressed == old(lmbPressed) && Jump() == old(Jump())
    {
      var a := mapData;
      for k := 0 to a.Length
        modifies a
        invariant forall i :: 0 <= i < k ==> !a[i]
      {
        a[k] := false;
      }
      FillBorder(a);
      DrawFloorWalls(a);
      DrawStalagmites(a);
      DrawZigzag(a);
      DrawFlappyCorridor(a);
      assert forall k :: 0 <= k < a.Length ==> a[k] == Painted(k % W, k / W);

      var teleport := TeleportX + TeleportY * W;
      IndexCell(TeleportX, TeleportY);
      a[teleport] := false;
      teleportPos := TeleportPos;
      teleportWaveAnim := 0.0;

      var spikes := SpikesX + SpikesY * W;
      IndexCell(SpikesX, SpikesY);
      a[spikes] := false;
      spikesPos := SpikesPos;
      spikesWaveAnim := 0.0;

      forall k | 0 <= k < a.Length
        ensures a[k] == GeneratedCell(k % W, k / W)
      {
        assert ForcedEmpty(k % W, k / W) <==> k == teleport || k == spikes;
      }
      assert a[..] == GeneratedMap();
    }

    /** Puts the player at the spawn point. */
    method InitPlayer()
      modifies this
      ensures pos == Spawn
      ensures flashLightDir == old(flashLightDir) && pendingPos == old(pendingPos)
      ensures mousePos == old(mousePos) && lmbPressed == old(lmbPressed) && Jump() == old(Jump())
      ensures teleportPos == old(teleportPos) && teleportWaveAnim == old(teleportWaveAnim)
      ensures spikesPos == old(spikesPos) && spikesWaveAnim == old(spikesWaveAnim)
      ensures mapData == old(mapData)
    {
      pos := Spawn;
    }

    /** A new map and a respawn; speed, jump count and pending request carry over. */
    method LoadNewMap()
      requires Valid()
      modifies this, mapData
      ensures Valid() && mapData == old(mapData)
      ensures mapData[..] == old(mapData[..])
      ensures pos == Spawn
      ensures flashLightDir == old(flashLightDir) && pendingPos == old(pendingPos)
      ensures mousePos == old(mousePos) && lmbPressed == old(lmbPressed) && Jump() == old(Jump())
      ensures teleportWaveAnim == 0.0 && spikesWaveAnim == 0.0
    {
      GenerateMap();
      InitPlayer();
    }

    /** One frame of gameplay, as `UpdateFrame` describes it. */
    method Update(dt0: real)
      requires Valid()
      modifies this, mapData
      ensures Valid() && mapData == old(mapData)
      ensures var o := UpdateFrame(old(mapData[..]), old(teleportPos), old(pos), old(pendingPos.x), old(Jump()), dt0);
        pos == o.pos && Jump() == o.jump
        && teleportWaveAnim == (if o.reloaded then 0.0 else old(teleportWaveAnim))
        && spikesWaveAnim == (if o.reloaded then 0.0 else old(spikesWaveAnim))
      ensures pendingPos == Zero
      ensures flashLightDir == old(flashLightDir) && mousePos == old(mousePos) && lmbPressed == old(lmbPressed)
    {
      var dt := ClampDt(dt0);
      MoveHorizontally(dt);
      pendingPos := Zero;
      var onGround := IsGroundBelow(mapData[..], pos);
      UpdateJump(onGround, dt);
      MoveVertically(dt);
    }

    /** The horizontal block of `Update`: consume the pending x input, sweep, and reload at the teleport. */
    method MoveHorizontally(dt: real)
      requires Valid()
      modifies this, mapData
      ensures Valid() && mapData == old(mapData) && mapData[..] == old(mapData[..])
      ensures var moved := HorizontalMove(old(mapData[..]), old(pos), old(pendingPos.x), dt);
        var reload := Abs(old(pendingPos.x)) > DeadZone && NearTeleport(old(teleportPos), moved);
        && pos == (if reload then Spawn else moved)
        && teleportWaveAnim == (if reload then 0.0 else old(teleportWaveAnim))
        && spikesWaveAnim == (if reload then 0.0 else old(spikesWaveAnim))
      ensures pendingPos == old(pendingPos).(x := 0.0)
      ensures flashLightDir == old(flashLightDir) && mousePos == old(mousePos) && lmbPressed == old(lmbPressed)
      ensures Jump() == old(Jump())
    {
      var horizontalDir := pendingPos.x;
      pendingPos := pendingPos.(x := 0.0);
      if Abs(horizontalDir) > DeadZone {
        var start := pos;
        var end := HorizontalTarget(pos, horizontalDir, dt);
        pos := Sweep(OccupancyField(mapData[..]), start, end);
        if DistSq(teleportPos, pos) < TeleportRadius * TeleportRadius {
          LoadNewMap();
        }
      }
    }

    /** Buffer expiry, ground reset or gravity, and the jump itself. */
    method UpdateJump(onGround: bool, dt: real)
      modifies this
      ensures Jump() == VerticalStep(old(Jump()), onGround, dt)
      ensures pos == old(pos) && pendingPos == old(pendingPos) && flashLightDir == old(flashLightDir)
      ensures mousePos == old(mousePos) && lmbPressed == old(lmbPressed)
      ensures teleportPos == old(teleportPos) && teleportWaveAnim == old(teleportWaveAnim)
      ensures spikesPos == old(spikesPos) && spikesWaveAnim == old(spikesWaveAnim)
      ensures mapData == old(mapData)
    {
      if jumpInputBufferTime > 0.0 {
        jumpInputBufferTime := jumpInputBufferTime - dt;
        if jumpInputBufferTime <= 0.0 {
          jumpRequested := false;
        }
      }
      if onGround {
        jumpCount := 0;
        vertVel := 0.0;
      } else {
        vertVel := vertVel - GravityAccel * dt;
        vertVel := Max(vertVel, -TerminalFallSpeed);
      }
      if jumpRequested && jumpCount < MaxJumps {
        vertVel := JumpSpeed;
        jumpCount := jumpCount + 1;
        jumpRequested := false;
        jumpInputBufferTime := 0.0;
      }
    }

    /** The vertical sweep by `vertVel * dt`. */
    method MoveVertically(dt: real)
      requires mapData.Length == W * H
      modifies this
      ensures mapData == old(mapData)
      ensures pos == VerticalMove(mapData[..], old(pos), vertVel, dt)
      ensures Jump() == old(Jump()) && pendingPos == old(pendingPos) && flashLightDir == old(flashLightDir)
      ensures mousePos == old(mousePos) && lmbPressed == old(lmbPressed)
      ensures teleportPos == old(teleportPos) && teleportWaveAnim == old(teleportWaveAnim)
      ensures spikesPos == old(spikesPos) && spikesWaveAnim == old(spikesWaveAnim)
    {
      var start := pos;
      var end := VerticalTarget(pos, vertVel, dt);
      pos := Sweep(OccupancyField(mapData[..]), start, end);
    }

    /** Keyboard and mouse-button input. */
    method KeyEvent(key: Input.Key, state: Input.KeyState)
      requires Valid()
      modifies this, mapData
      ensures Valid() && mapData == old(mapData)
      ensures pendingPos == Input.PendingAfterKey(old(pendingPos), old(flashLightDir), key, state)
      ensures Jump() == (if key == Input.W && state == Input.Press then PressJump(old(Jump())) else old(Jump()))
      ensures lmbPressed == (if key == Input.MouseLeft then state != Input.Release else old(lmbPressed))
      ensures pos == (if key == Input.Tab && state == Input.Release then Spawn else old(pos))
      ensures flashLightDir == old(flashLightDir) && mousePos == old(mousePos)
      ensures key == Input.Tab && state == Input.Release ==> teleportWaveAnim == 0.0 && spikesWaveAnim == 0.0
      ensures !(key == Input.Tab && state == Input.Release) ==>
        teleportWaveAnim == old(teleportWaveAnim) && spikesWaveAnim == old(spikesWaveAnim)
    {
      if state == Input.Press || state == Input.Repeat {
        match key
        case Up | NumpadUp =>
          pendingPos := pendingPos.(y := 1.0);
        case S | Down | NumpadDown =>
          pendingPos := pendingPos.(y := pendingPos.y - 1.0);
        case D | Right | NumpadRight =>
          pendingPos := pendingPos.(x := pendingPos.x + 1.0);
        case A | Left | NumpadLeft =>
          pendingPos := pendingPos.(x := pendingPos.x - 1.0);
        case Space =>
          pendingPos := flashLightDir;
        case _ =>
      }
      if key == Input.W && state == Input.Press {
        jumpRequested := true;
        jumpInputBufferTime := JumpBufferTime;
      }
      if key == Input.MouseLeft {
        lmbPressed := state != Input.Release;
      }
      if state == Input.Release && key == Input.Tab {
        LoadNewMap();
      }
    }

    /** Records the cursor position. */
    method MouseEvent(p: Vec2)
      modifies this
      ensures mousePos == p
      ensures pos == old(pos) && flashLightDir == old(flashLightDir) && pendingPos == old(pendingPos)
      ensures lmbPressed == old(lmbPressed) && Jump() == old(Jump())
      ensures teleportPos == old(teleportPos) && teleportWaveAnim == old(teleportWaveAnim)
      ensures spikesPos == old(spikesPos) && spikesWaveAnim == old(spikesWaveAnim)
      ensures mapData == old(mapData)
    {
      mousePos := p;
    }
  }
}
