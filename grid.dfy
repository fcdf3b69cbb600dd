/**
 * The occupancy grid (`MapData`, a row-major vector of W * H booleans, true =
 * solid) and the ways `Update` samples it: the `ReadMap` lambda, the bilinear
 * occupancy of a point and the `IsGroundBelow` probe.
 */
module Grid {
  import opened Config
  import opened Geometry

  /** A map as `Update` reads it: exactly W * H cells, cell (x, y) at index x + y * W. */
  type Grid = g: seq<bool> | |g| == W * H witness seq(W * H, _ => false)

  predicate InBounds(x: int, y: int) {
    0 <= x < W && 0 <= y < H
  }

  function Index(x: int, y: int): int {
    x + y * W
  }

  /** Index and cell coordinates are inverse to each other inside the grid. */
  lemma IndexCell(x: int, y: int)
    requires InBounds(x, y)
    ensures 0 <= Index(x, y) < W * H
    ensures Index(x, y) % W == x && Index(x, y) / W == y
  {
  }

  /** `static_cast<int>` of a float: truncation toward zero. */
  function Trunc(r: real): (i: int)
    ensures r >= 0.0 ==> i as real <= r < i as real + 1.0
    ensures r < 0.0 ==> i as real - 1.0 < r <= i as real
  {
    if r >= 0.0 then r.Floor else -((-r).Floor)
  }

  /** `fract(x) = x - floor(x)`: a value in [0, 1) that differs from x by an integer. */
  function Fract(r: real): (f: real)
    ensures 0.0 <= f < 1.0
    ensures (r - f).Floor as real == r - f
  {
    var n := r.Floor;
    assert r - (r - n as real) == n as real;
    r - n as real
  }

  /** `ReadMap`: 1.0 for a solid cell, 0.0 for an empty one, 1.0 anywhere outside the grid. */
  function ReadMap(grid: Grid, x: int, y: int): (c: real)
    ensures c == 0.0 || c == 1.0
    ensures !InBounds(x, y) ==> c == 1.0
    ensures InBounds(x, y) ==> (c == 1.0 <==> grid[Index(x, y)])
  {
    if InBounds(x, y) then (if grid[Index(x, y)] then 1.0 else 0.0) else 1.0
  }

  /** The cell whose value `Occupancy` weighs first: the fetch point, shifted by half a cell, truncated. */
  function FetchCellX(p: Vec2): int { Trunc(p.x - 0.5) }
  function FetchCellY(p: Vec2): int { Trunc(p.y - 0.5) }

  /**
   * The bilinear occupancy at `p`: the four cells around the fetch point
   * `p - (0.5, 0.5)`, blended first along x and then along y by the
   * fractional parts of the fetch point. The cell is found by truncation and
   * the weights by `fract` (floor), as the source does.
   */
  function Occupancy(grid: Grid, p: Vec2): (d: real)
    ensures 0.0 <= d <= 1.0
  {
    var fx, fy := p.x - 0.5, p.y - 0.5;
    var x, y := Trunc(fx), Trunc(fy);
    Lerp(Lerp(ReadMap(grid, x, y), ReadMap(grid, x + 1, y), Fract(fx)),
         Lerp(ReadMap(grid, x, y + 1), ReadMap(grid, x + 1, y + 1), Fract(fx)),
         Fract(fy))
  }

  /** The four cells `Occupancy` reads at `p` are all solid (or outside the grid). */
  predicate NeighbourhoodSolid(grid: Grid, p: Vec2) {
    var x, y := FetchCellX(p), FetchCellY(p);
    ReadMap(grid, x, y) == 1.0 && ReadMap(grid, x + 1, y) == 1.0
    && ReadMap(grid, x, y + 1) == 1.0 && ReadMap(grid, x + 1, y + 1) == 1.0
  }

  /** The four cells `Occupancy` reads at `p` are all inside the grid and empty. */
  predicate NeighbourhoodEmpty(grid: Grid, p: Vec2) {
    var x, y := FetchCellX(p), FetchCellY(p);
    ReadMap(grid, x, y) == 0.0 && ReadMap(grid, x + 1, y) == 0.0
    && ReadMap(grid, x, y + 1) == 0.0 && ReadMap(grid, x + 1, y + 1) == 0.0
  }

  /** Since PlayerRadius < 1, a point surrounded by solid cells always exceeds the threshold. */
  lemma SolidNeighbourhoodBlocks(grid: Grid, p: Vec2)
    requires NeighbourhoodSolid(grid, p)
    ensures Occupancy(grid, p) == 1.0 > PlayerRadius
  {
  }

  /** A point surrounded by empty cells has occupancy 0 and never blocks. */
  lemma EmptyNeighbourhoodIsFree(grid: Grid, p: Vec2)
    requires NeighbourhoodEmpty(grid, p)
    ensures Occupancy(grid, p) == 0.0 <= PlayerRadius
  {
  }

  /**
   * Out of bounds reads as solid, so a point whose fetch neighbourhood lies
   * wholly outside the grid is fully occupied: the level has no open edge.
   */
  lemma OutsideGridIsSolid(grid: Grid, p: Vec2)
    requires p.x <= -1.5 || p.y <= -1.5 || p.x >= W as real + 0.5 || p.y >= H as real + 0.5
    ensures NeighbourhoodSolid(grid, p)
    ensures Occupancy(grid, p) == 1.0
  {
    var x, y := FetchCellX(p), FetchCellY(p);
    assert p.x <= -1.5 ==> x + 1 < 0;
    assert p.y <= -1.5 ==> y + 1 < 0;
  }

  /** Columns x and x + 1 are solid at row r and empty in rows r + 1 to `top`. */
  predicate ColumnsFloor(grid: Grid, x: int, r: nat, top: int) {
    && ReadMap(grid, x, r) == 1.0 && ReadMap(grid, x + 1, r) == 1.0
    && forall row :: r < row <= top ==> ReadMap(grid, x, row) == 0.0 && ReadMap(grid, x + 1, row) == 0.0
  }

  /**
   * A column pair that is solid at row r and empty in the rows above it up to
   * `top`: on the line through `p`, from r + 0.5 up, the occupancy exceeds
   * PlayerRadius exactly below r + 1.1 (the solid row fades out over the
   * fractional weight; above r + 1.5 only empty cells are read).
   */
  lemma ColumnOccupancy(grid: Grid, p: Vec2, r: nat, top: int)
    requires ColumnsFloor(grid, FetchCellX(p), r, top)
    requires r as real + 0.5 <= p.y && FetchCellY(p) + 1 <= top
    ensures Occupancy(grid, p) > PlayerRadius <==> p.y < r as real + 1.1
  {
    var fx, fy := p.x - 0.5, p.y - 0.5;
    var x, y := Trunc(fx), Trunc(fy);
    assert y >= r;
    if y == r {
      var low := Lerp(ReadMap(grid, x, y), ReadMap(grid, x + 1, y), Fract(fx));
      var high := Lerp(ReadMap(grid, x, y + 1), ReadMap(grid, x + 1, y + 1), Fract(fx));
      assert low == 1.0 && high == 0.0;
      assert Fract(fy) == p.y - 0.5 - r as real;
      assert Occupancy(grid, p) == Lerp(1.0, 0.0, Fract(fy)) == 1.0 - Fract(fy);
    } else {
      assert ReadMap(grid, x, y) == 0.0 && ReadMap(grid, x + 1, y) == 0.0;
      assert ReadMap(grid, x, y + 1) == 0.0 && ReadMap(grid, x + 1, y + 1) == 0.0;
      assert Occupancy(grid, p) == 0.0;
    }
  }

  /**
   * A floor under `p`: the two columns the occupancy fetch reads at `p` are
   * solid at row r and empty from row r + 1 up to the higher fetch row at `p`.
   */
  predicate FloorBelow(grid: Grid, p: Vec2, r: nat) {
    ColumnsFloor(grid, FetchCellX(p), r, FetchCellY(p) + 1)
  }

  /** The ground probe's column is one of the two columns the occupancy fetch reads. */
  lemma ProbeColumnIsFetched(p: Vec2)
    ensures Trunc(p.x) == FetchCellX(p) || Trunc(p.x) == FetchCellX(p) + 1
  {
    if p.x < 0.0 {
      assert (0.5 - p.x).Floor == (-p.x).Floor || (0.5 - p.x).Floor == (-p.x).Floor + 1;
    } else if p.x >= 0.5 {
      assert (p.x - 0.5).Floor == p.x.Floor || (p.x - 0.5).Floor + 1 == p.x.Floor;
    }
  }

  /** A point whose feet are within row r of a column pair solid at row r stands on ground. */
  lemma GroundUnderColumn(grid: Grid, p: Vec2, r: nat)
    requires ReadMap(grid, FetchCellX(p), r) == 1.0 && ReadMap(grid, FetchCellX(p) + 1, r) == 1.0
    requires r as real + PlayerRadius <= p.y < r as real + 1.0 + PlayerRadius
    ensures IsGroundBelow(grid, p)
  {
    ProbeColumnIsFetched(p);
    assert Trunc(p.y - PlayerRadius) == r;
  }

  /**
   * `IsGroundBelow`: the cell under the player's feet, `(int(x), int(y - PlayerRadius))`,
   * is solid; a probe outside the grid counts as ground.
   */
  function IsGroundBelow(grid: Grid, pos: Vec2): (ground: bool)
    ensures var x, y := Trunc(pos.x), Trunc(pos.y - PlayerRadius);
      && (!InBounds(x, y) ==> ground)
      && (InBounds(x, y) ==> (ground <==> grid[Index(x, y)]))
      && (ground <==> ReadMap(grid, x, y) == 1.0)
  {
    var x, y := Trunc(pos.x), Trunc(pos.y - PlayerRadius);
    if !InBounds(x, y) then true else grid[Index(x, y)]
  }
}
