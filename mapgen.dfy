/**
 * The level layout built by `GenerateMap`, first as a description of which
 * cells end up solid (`GeneratedCell`), then as the loops that paint it into
 * the row-major cell array one layer at a time.
 *
 * Rows are counted from the bottom (y = 0) to the top (y = H - 1); floor i is
 * the row H - 1 - (i + 1) * VerticalSpacing, so floor 0 is the highest.
 */
module MapGen {
  import opened Config
  import opened Grid

  const NumFloors: nat := 4
  const HoleWidth: nat := 6
  const VerticalSpacing: nat := H / (NumFloors + 1)

  function FloorRow(i: int): int {
    H - 1 - (i + 1) * VerticalSpacing
  }

  // ---------------------------------------------------------------- layers

  /** The solid frame: row 0, row H - 1, column 0 and column W - 1. */
  predicate Border(x: int, y: int) {
    x == 0 || x == W - 1 || y == 0 || y == H - 1
  }

  /** Where the gap of floor i's wall starts: at the left on odd floors, at the right on even ones. */
  function HoleStart(i: int): int {
    if i % 2 == 1 then 1 else W - 1 - HoleWidth
  }

  /** Floor i's wall: interior cells of its row outside the gap; floors 1 and 2 get none. */
  predicate FloorWall(i: int, x: int, y: int) {
    i != 1 && i != 2 && y == FloorRow(i) && 1 <= x < W - 1
    && !(HoleStart(i) <= x < HoleStart(i) + HoleWidth)
  }

  /** The walls of floors 0 .. n - 1. */
  predicate FloorWallsBefore(n: nat, x: int, y: int) {
    0 < n && (FloorWallsBefore(n - 1, x, y) || FloorWall(n - 1, x, y))
  }

  /** Width of every stalagmite and zig-zag pillar, in cells. */
  const PillarWidth: nat := 3

  const StalagmiteFloorY: int := H - 1 - 3 * VerticalSpacing
  const StalagmiteHoleStart: int := W - 1 - 5
  const NumStalagmites: nat := 6
  const StalagmiteSpacing: nat := 8
  const StalagmiteHeights: seq<nat> := [3, 5, 7, 3, 5, 7]

  /** The stalagmite floor: its row up to the gap at the right edge. */
  predicate StalagmiteFloor(x: int, y: int) {
    y == StalagmiteFloorY && 1 <= x < W - 1 && x < StalagmiteHoleStart
  }

  /** The first `cols` columns of stalagmite i, rising from the floor, clipped to the interior. */
  predicate StalagmiteColumns(i: nat, cols: int, x: int, y: int)
    requires i < NumStalagmites
  {
    var x0 := 4 + i * StalagmiteSpacing;
    x0 <= x < x0 + cols && 1 <= x < W - 1
    && StalagmiteFloorY <= y < StalagmiteFloorY + StalagmiteHeights[i] && y < H - 1
  }

  /** Stalagmites 0 .. n - 1. */
  predicate StalagmitesBefore(n: nat, x: int, y: int)
    requires n <= NumStalagmites
  {
    0 < n && (StalagmitesBefore(n - 1, x, y) || StalagmiteColumns(n - 1, PillarWidth, x, y))
  }

  datatype WallInfo = WallInfo(xStart: nat, height: nat, isUpward: bool)

  const ZigzagFloorY: int := H - 1 - 2 * VerticalSpacing
  const ZigzagWalls: seq<WallInfo> := [
    WallInfo(10, 3, true), WallInfo(16, 5, false), WallInfo(22, 7, true),
    WallInfo(28, 7, false), WallInfo(34, 5, true), WallInfo(40, 3, false),
    WallInfo(46, 3, true), WallInfo(52, 5, false), WallInfo(58, 5, true)]

  /** The zig-zag floor: its row except the gap of HoleWidth cells at the left edge. */
  predicate ZigzagFloor(x: int, y: int) {
    y == ZigzagFloorY && 1 <= x < W - 1 && !(1 <= x <= HoleWidth)
  }

  /** The rows a pillar reaches in its first `steps` cells: upwards from the floor or downwards from it. */
  predicate ZigzagSpan(w: WallInfo, steps: int, y: int) {
    if w.isUpward then ZigzagFloorY <= y < ZigzagFloorY + steps
    else ZigzagFloorY - steps < y <= ZigzagFloorY
  }

  /** The first `cols` columns of zig-zag pillar i, clipped to the interior. */
  predicate ZigzagColumns(i: nat, cols: int, x: int, y: int)
    requires i < |ZigzagWalls|
  {
    var w := ZigzagWalls[i];
    w.xStart <= x < w.xStart + cols && 1 <= x < W - 1
    && ZigzagSpan(w, w.height, y) && 1 <= y < H - 1
  }

  /** Zig-zag pillars 0 .. n - 1. */
  predicate ZigzagBefore(n: nat, x: int, y: int)
    requires n <= |ZigzagWalls|
  {
    0 < n && (ZigzagBefore(n - 1, x, y) || ZigzagColumns(n - 1, PillarWidth, x, y))
  }

  const FlappyWallTop: int := H - 1 - NumFloors * VerticalSpacing
  const CorridorBottom: int := 1
  const CorridorTop: int := FlappyWallTop - 1
  const GapHeight: nat := 3
  const NumPillars: nat := 5
  const CorridorWidth: int := W - 8
  const PillarSpacing: int := CorridorWidth / (NumPillars - 1)

  function PillarX(i: int): int {
    4 + i * PillarSpacing
  }

  /** The gap of pillar i hugs the corridor's bottom on even pillars and its top on odd ones. */
  function GapStart(i: int): int {
    if i % 2 == 0 then CorridorBottom + 1 else CorridorTop - GapHeight
  }

  /** Pillar i of the corridor: one column spanning the corridor, minus its gap. */
  predicate FlappyPillar(i: int, x: int, y: int) {
    x == PillarX(i) && CorridorBottom <= y <= CorridorTop
    && !(GapStart(i) <= y < GapStart(i) + GapHeight)
  }

  /** Corridor pillars 0 .. n - 1. */
  predicate FlappyBefore(n: nat, x: int, y: int) {
    0 < n && (FlappyBefore(n - 1, x, y) || FlappyPillar(n - 1, x, y))
  }

  /** The teleport cell, near the top-right corner, and the spikes cell on the zig-zag floor. */
  const TeleportX: int := W - 2
  const TeleportY: int := 2
  const SpikesX: int := 8
  const SpikesY: int := H - 1 - 2 * VerticalSpacing

  predicate ForcedEmpty(x: int, y: int) {
    (x == TeleportX && y == TeleportY) || (x == SpikesX && y == SpikesY)
  }

  /** Every layer the generator paints solid, before the two special cells are cleared. */
  predicate Painted(x: int, y: int) {
    || Border(x, y)
    || FloorWallsBefore(NumFloors, x, y)
    || StalagmiteFloor(x, y) || StalagmitesBefore(NumStalagmites, x, y)
    || ZigzagFloor(x, y) || ZigzagBefore(|ZigzagWalls|, x, y)
    || FlappyBefore(NumPillars, x, y)
  }

  /** Whether cell (x, y) of a freshly generated map is solid. */
  predicate GeneratedCell(x: int, y: int) {
    !ForcedEmpty(x, y) && Painted(x, y)
  }

  /** The generated map, in `MapData`'s row-major layout. */
  function GeneratedMap(): Grid {
    seq(W * H, k => GeneratedCell(k % W, k / W))
  }

  // ------------------------------------------------------------ the painter

  /** The two border loops: rows 0 and H - 1, then columns 0 and W - 1. */
  method FillBorder(a: array<bool>)
    requires a.Length == W * H
    modifies a
    ensures forall k :: 0 <= k < a.Length ==> a[k] == (old(a[k]) || Border(k % W, k / W))
  {
    var x, x2 := 0, W * (H - 1);
    while x < W
      invariant 0 <= x <= W && x2 == W * (H - 1) + x
      invariant forall k :: 0 <= k < a.Length ==> a[k] == (old(a[k]) || k < x || W * (H - 1) <= k < x2)
    {
      a[x] := true;
      a[x2] := true;
      x, x2 := x + 1, x2 + 1;
    }
    for y := 0 to H
      invariant forall k :: 0 <= k < a.Length ==>
        a[k] == (old(a[k]) || k < W || W * (H - 1) <= k || ((k % W == 0 || k % W == W - 1) && k / W < y))
    {
      IndexCell(0, y);
      IndexCell(W - 1, y);
      a[y * W] := true;
      a[(y + 1) * W - 1] := true;
    }
  }

  /** The walls of floors 0 and 3, each with its gap. */
  method DrawFloorWalls(a: array<bool>)
    requires a.Length == W * H
    modifies a
    ensures forall k :: 0 <= k < a.Length ==> a[k] == (old(a[k]) || FloorWallsBefore(NumFloors, k % W, k / W))
  {
    for i := 0 to NumFloors
      invariant forall k :: 0 <= k < a.Length ==> a[k] == (old(a[k]) || FloorWallsBefore(i, k % W, k / W))
    {
      if i != 1 && i != 2 {
        var y := H - 1 - (i + 1) * VerticalSpacing;
        var holeStart := if i % 2 == 1 then 1 else W - 1 - HoleWidth;
        for x := 1 to W - 1
          invariant forall k :: 0 <= k < a.Length ==>
            a[k] == (old(a[k]) || FloorWallsBefore(i, k % W, k / W) || (FloorWall(i, k % W, k / W) && k % W < x))
        {
          if !(holeStart <= x < holeStart + HoleWidth) {
            IndexCell(x, y);
            a[x + y * W] := true;
          }
        }
      }
    }
  }

  /** The stalagmite floor and its six pillars of heights 3, 5, 7, 3, 5, 7. */
  method DrawStalagmites(a: array<bool>)
    requires a.Length == W * H
    modifies a
    ensures forall k :: 0 <= k < a.Length ==>
      a[k] == (old(a[k]) || StalagmiteFloor(k % W, k / W) || StalagmitesBefore(NumStalagmites, k % W, k / W))
  {
    var yFloor := StalagmiteFloorY;
    for x := 1 to W - 1
      invariant forall k :: 0 <= k < a.Length ==> a[k] == (old(a[k]) || (StalagmiteFloor(k % W, k / W) && k % W < x))
    {
      if x < StalagmiteHoleStart {
        IndexCell(x, yFloor);
        a[x + yFloor * W] := true;
      }
    }
    for i := 0 to NumStalagmites
      invariant forall k :: 0 <= k < a.Length ==>
        a[k] == (old(a[k]) || StalagmiteFloor(k % W, k / W) || StalagmitesBefore(i, k % W, k / W))
    {
      var x0 := 4 + i * StalagmiteSpacing;
      var height := StalagmiteHeights[i];
      for dx := 0 to PillarWidth
        invariant forall k :: 0 <= k < a.Length ==>
          a[k] == (old(a[k]) || StalagmiteFloor(k % W, k / W) || StalagmitesBefore(i, k % W, k / W)
                   || StalagmiteColumns(i, dx, k % W, k / W))
      {
        var cx := x0 + dx;
        if 1 <= cx < W - 1 {
          for dy := 0 to height
            invariant forall k :: 0 <= k < a.Length ==>
              a[k] == (old(a[k]) || StalagmiteFloor(k % W, k / W) || StalagmitesBefore(i, k % W, k / W)
                       || StalagmiteColumns(i, dx, k % W, k / W)
                       || (k % W == cx && yFloor <= k / W < yFloor + dy && k / W < H - 1))
          {
            var y := yFloor + dy;
            if y < H - 1 {
              IndexCell(cx, y);
              a[cx + y * W] := true;
            }
          }
        }
      }
    }
  }

  /** Unsigned 32-bit subtraction result: the value modulo 2^32. */
  function Wrap32(v: int): (r: int)
    ensures 0 <= r < 0x1_0000_0000
    ensures 0 <= v < 0x1_0000_0000 ==> r == v
  {
    v % 0x1_0000_0000
  }

  /** The zig-zag floor and its nine pillars, alternately rising from the floor and hanging below it. */
  method DrawZigzag(a: array<bool>)
    requires a.Length == W * H
    modifies a
    ensures forall k :: 0 <= k < a.Length ==>
      a[k] == (old(a[k]) || ZigzagFloor(k % W, k / W) || ZigzagBefore(|ZigzagWalls|, k % W, k / W))
  {
    var yFloor := ZigzagFloorY;
    for x := 1 to W - 1
      invariant forall k :: 0 <= k < a.Length ==> a[k] == (old(a[k]) || (ZigzagFloor(k % W, k / W) && k % W < x))
    {
      if !(1 <= x <= HoleWidth) {
        IndexCell(x, yFloor);
        a[x + yFloor * W] := true;
      }
    }
    for i := 0 to |ZigzagWalls|
      invariant forall k :: 0 <= k < a.Length ==>
        a[k] == (old(a[k]) || ZigzagFloor(k % W, k / W) || ZigzagBefore(i, k % W, k / W))
    {
      var wall := ZigzagWalls[i];
      for dx := 0 to PillarWidth
        invariant forall k :: 0 <= k < a.Length ==>
          a[k] == (old(a[k]) || ZigzagFloor(k % W, k / W) || ZigzagBefore(i, k % W, k / W)
                   || ZigzagColumns(i, dx, k % W, k / W))
      {
        var cx := wall.xStart + dx;
        if 1 <= cx < W - 1 {
          for dy := 0 to wall.height
            invariant forall k :: 0 <= k < a.Length ==>
              a[k] == (old(a[k]) || ZigzagFloor(k % W, k / W) || ZigzagBefore(i, k % W, k / W)
                       || ZigzagColumns(i, dx, k % W, k / W)
                       || (k % W == cx && ZigzagSpan(wall, dy, k / W) && 1 <= k / W < H - 1))
          {
            // yFloor - dy is an unsigned subtraction; a wrapped result fails the bounds test below.
            var y := if wall.isUpward then yFloor + dy else Wrap32(yFloor - dy);
            if 1 <= y < H - 1 {
              IndexCell(cx, y);
              a[cx + y * W] := true;
            }
          }
        }
      }
    }
  }

  /** The corridor under floor 3: five one-cell pillars whose gaps alternate bottom and top. */
  method DrawFlappyCorridor(a: array<bool>)
    requires a.Length == W * H
    modifies a
    ensures forall k :: 0 <= k < a.Length ==> a[k] == (old(a[k]) || FlappyBefore(NumPillars, k % W, k / W))
  {
    var holeDownFirst := true;
    for i := 0 to NumPillars
      invariant holeDownFirst == (i % 2 == 0)
      invariant forall k :: 0 <= k < a.Length ==> a[k] == (old(a[k]) || FlappyBefore(i, k % W, k / W))
    {
      var x := 4 + i * PillarSpacing;
      var gapStart := if holeDownFirst then CorridorBottom + 1 else CorridorTop - GapHeight;
      holeDownFirst := !holeDownFirst;
      for y := CorridorBottom to CorridorTop + 1
        invariant forall k :: 0 <= k < a.Length ==>
          a[k] == (old(a[k]) || FlappyBefore(i, k % W, k / W) || (FlappyPillar(i, k % W, k / W) && k / W < y))
      {
        if !(gapStart <= y < gapStart + GapHeight) {
          IndexCell(x, y);
          a[x + y * W] := true;
        }
      }
    }
  }

  // ------------------------------------------------------- layout properties

  /** Cell (x, y) of the generated map is `GeneratedCell(x, y)`. */
  lemma GeneratedMapCell(x: int, y: int)
    requires InBounds(x, y)
    ensures GeneratedMap()[Index(x, y)] == GeneratedCell(x, y)
  {
    IndexCell(x, y);
  }

  /** The whole frame of the map is solid. */
  lemma BorderIsSolid(x: int, y: int)
    requires InBounds(x, y) && Border(x, y)
    ensures GeneratedMap()[Index(x, y)]
  {
    GeneratedMapCell(x, y);
  }

  /** The teleport and spikes cells are empty, and the spikes cell had to be cleared. */
  lemma SpecialCellsAreEmpty()
    ensures !GeneratedMap()[Index(TeleportX, TeleportY)]
    ensures !GeneratedMap()[Index(SpikesX, SpikesY)]
    ensures Painted(SpikesX, SpikesY)
  {
    GeneratedMapCell(TeleportX, TeleportY);
    GeneratedMapCell(SpikesX, SpikesY);
  }

  /** The player's spawn cell, (1, H - 2), is empty. */
  lemma SpawnCellIsEmpty()
    ensures !GeneratedMap()[Index(1, H - 2)]
  {
    var x, y := 1, H - 2;
    GeneratedMapCell(x, y);
    if FloorWallsBefore(NumFloors, x, y) { FloorWallRows(NumFloors, x, y); }
    if StalagmitesBefore(NumStalagmites, x, y) { StalagmiteRows(NumStalagmites, x, y); }
    if ZigzagBefore(|ZigzagWalls|, x, y) { ZigzagRows(|ZigzagWalls|, x, y); }
    if FlappyBefore(NumPillars, x, y) { FlappyRows(NumPillars, x, y); }
  }

  /** Floor walls lie on the rows of floors 0 and 3 only. */
  lemma {:induction false} FloorWallRows(n: nat, x: int, y: int)
    requires n <= NumFloors && FloorWallsBefore(n, x, y)
    ensures y == FloorRow(0) || y == FloorRow(3)
    ensures 1 <= x < W - 1
  {
    if !FloorWall(n - 1, x, y) {
      FloorWallRows(n - 1, x, y);
    }
  }

  /** The stalagmites stand on rows StalagmiteFloorY .. StalagmiteFloorY + 6, inside the frame. */
  lemma {:induction false} StalagmiteRows(n: nat, x: int, y: int)
    requires n <= NumStalagmites && StalagmitesBefore(n, x, y)
    ensures StalagmiteFloorY <= y < StalagmiteFloorY + 7
    ensures 1 <= x < W - 1
  {
    if !StalagmiteColumns(n - 1, PillarWidth, x, y) {
      StalagmiteRows(n - 1, x, y);
    }
  }

  /** The zig-zag pillars reach at most 6 rows above or below their floor, inside the frame. */
  lemma {:induction false} ZigzagRows(n: nat, x: int, y: int)
    requires n <= |ZigzagWalls| && ZigzagBefore(n, x, y)
    ensures ZigzagFloorY - 6 <= y <= ZigzagFloorY + 6
    ensures 1 <= x < W - 1
  {
    if !ZigzagColumns(n - 1, PillarWidth, x, y) {
      ZigzagRows(n - 1, x, y);
    }
  }

  /**
   * The corridor pillars stay strictly inside the frame, between row 1 and
   * the row below floor 3; this is why their unguarded writes stay in bounds.
   */
  lemma {:induction false} FlappyRows(n: nat, x: int, y: int)
    requires n <= NumPillars && FlappyBefore(n, x, y)
    ensures CorridorBottom <= y <= CorridorTop && CorridorTop < FloorRow(3)
    ensures 1 <= x < W - 1
  {
    if !FlappyPillar(n - 1, x, y) {
      FlappyRows(n - 1, x, y);
    }
  }

  /** Corridor pillars stand only on the columns 4 + 14 i. */
  lemma {:induction false} FlappyColumns(n: nat, x: int, y: int)
    requires n <= NumPillars && FlappyBefore(n, x, y)
    ensures 4 <= x && (x - 4) % PillarSpacing == 0
  {
    if !FlappyPillar(n - 1, x, y) {
      FlappyColumns(n - 1, x, y);
    } else {
      assert x == 4 + (n - 1) * PillarSpacing;
    }
  }

  /** The cells just below and above the right end of floor 3's gap, (6..7, 14) and (6..7, 16), are empty. */
  lemma GapEdgeNeighbourEmpty(x: int, y: int)
    requires 6 <= x <= 7 && (y == FloorRow(3) - 1 || y == FloorRow(3) + 1)
    ensures !GeneratedMap()[Index(x, y)]
  {
    assert y == 14 || y == 16;
    GeneratedMapCell(x, y);
    if FloorWallsBefore(NumFloors, x, y) { FloorWallRows(NumFloors, x, y); }
    if StalagmitesBefore(NumStalagmites, x, y) { StalagmiteRows(NumStalagmites, x, y); }
    if ZigzagBefore(|ZigzagWalls|, x, y) { ZigzagRows(|ZigzagWalls|, x, y); }
    if FlappyBefore(NumPillars, x, y) { FlappyColumns(NumPillars, x, y); }
    assert !Border(x, y) && !StalagmiteFloor(x, y) && !ZigzagFloor(x, y);
    assert !Painted(x, y);
  }

  /** The floor-wall layer is the union of the four floors' walls. */
  lemma FloorWallsUnfold(x: int, y: int)
    ensures FloorWallsBefore(NumFloors, x, y)
      <==> FloorWall(0, x, y) || FloorWall(1, x, y) || FloorWall(2, x, y) || FloorWall(3, x, y)
  {
    assert FloorWallsBefore(1, x, y) == FloorWall(0, x, y);
    assert FloorWallsBefore(2, x, y) == (FloorWallsBefore(1, x, y) || FloorWall(1, x, y));
    assert FloorWallsBefore(3, x, y) == (FloorWallsBefore(2, x, y) || FloorWall(2, x, y));
  }

  /** Floor 0's row is solid except its gap at the right end, cells W - 7 .. W - 2. */
  lemma FloorZeroRow(x: int)
    requires 1 <= x < W - 1
    ensures GeneratedMap()[Index(x, FloorRow(0))] <==> !(W - 1 - HoleWidth <= x < W - 1)
  {
    var y := FloorRow(0);
    GeneratedMapCell(x, y);
    if StalagmitesBefore(NumStalagmites, x, y) { StalagmiteRows(NumStalagmites, x, y); }
    if ZigzagBefore(|ZigzagWalls|, x, y) { ZigzagRows(|ZigzagWalls|, x, y); }
    if FlappyBefore(NumPillars, x, y) { FlappyRows(NumPillars, x, y); }
    FloorWallsUnfold(x, y);
  }

  /** Floor 3's row is solid except its gap at the left end, cells 1 .. HoleWidth. */
  lemma FloorThreeRow(x: int)
    requires 1 <= x < W - 1
    ensures GeneratedMap()[Index(x, FloorRow(3))] <==> !(1 <= x <= HoleWidth)
  {
    var y := FloorRow(3);
    GeneratedMapCell(x, y);
    if StalagmitesBefore(NumStalagmites, x, y) { StalagmiteRows(NumStalagmites, x, y); }
    if ZigzagBefore(|ZigzagWalls|, x, y) { ZigzagRows(|ZigzagWalls|, x, y); }
    if FlappyBefore(NumPillars, x, y) { FlappyRows(NumPillars, x, y); }
    FloorWallsUnfold(x, y);
  }
}
