/**
 * The swept collision of `Update`: MaxCollisionSteps samples along the segment
 * from `start` to `end`, stopping at the first sample whose occupancy exceeds
 * PlayerRadius. The same loop serves the horizontal and the vertical phase.
 *
 * The sweep is stated over an occupancy field `occ`; `Update` passes
 * `OccupancyField(grid)`, the bilinear sample of the current map. Keeping the
 * field abstract here keeps the bilinear arithmetic out of these proofs.
 */
module Collision {
  import opened Config
  import opened Geometry
  import opened Grid

  /** An occupancy field: how solid the map is around a point, in [0, 1] for the bilinear sample. */
  type Field = Vec2 -> real

  /** The field the game sweeps through: the bilinear occupancy of `grid`. */
  function OccupancyField(grid: Grid): Field {
    p => Occupancy(grid, p)
  }

  /** `t = i / (MaxCollisionSteps - 1)`: 0 for the first sample, 1 for the last. */
  function StepParam(i: int): real {
    i as real / (MaxCollisionSteps - 1) as real
  }

  function SamplePoint(start: Vec2, end: Vec2, i: int): Vec2 {
    Lerp2(start, end, StepParam(i))
  }

  predicate Blocked(occ: Field, start: Vec2, end: Vec2, i: int) {
    occ(SamplePoint(start, end, i)) > PlayerRadius
  }

  /** The first blocked sample at index i or later, or MaxCollisionSteps if there is none. */
  function FirstBlockedFrom(occ: Field, start: Vec2, end: Vec2, i: nat): (k: nat)
    requires i <= MaxCollisionSteps
    ensures i <= k <= MaxCollisionSteps
    ensures forall j :: i <= j < k ==> !Blocked(occ, start, end, j)
    ensures k < MaxCollisionSteps ==> Blocked(occ, start, end, k)
    decreases MaxCollisionSteps - i
  {
    if i == MaxCollisionSteps then i
    else if Blocked(occ, start, end, i) then i
    else FirstBlockedFrom(occ, start, end, i + 1)
  }

  function FirstBlocked(occ: Field, start: Vec2, end: Vec2): nat
    ensures FirstBlocked(occ, start, end) <= MaxCollisionSteps
  {
    FirstBlockedFrom(occ, start, end, 0)
  }

  /**
   * Where the sweep leaves the player: `start` if the very first sample is
   * blocked, otherwise the last sample before the first blocked one (the last
   * sample of all if none is blocked).
   */
  function SweepEnd(occ: Field, start: Vec2, end: Vec2): Vec2 {
    var k := FirstBlocked(occ, start, end);
    if k == 0 then start else SamplePoint(start, end, k - 1)
  }

  /** The loop at Game.cpp lines 118-136 (and 203-221), as a method. */
  method Sweep(occ: Field, start: Vec2, end: Vec2) returns (pos: Vec2)
    ensures pos == SweepEnd(occ, start, end)
  {
    pos := start;
    var i: nat := 0;
    while i < MaxCollisionSteps
      invariant i <= MaxCollisionSteps
      invariant forall j :: 0 <= j < i ==> !Blocked(occ, start, end, j)
      invariant pos == if i == 0 then start else SamplePoint(start, end, i - 1)
    {
      var t := i as real / (MaxCollisionSteps - 1) as real;
      var p := Lerp2(start, end, t);
      assert p == SamplePoint(start, end, i);
      if occ(p) > PlayerRadius {
        break;
      }
      pos := p;
      i := i + 1;
    }
    FirstBlockedFromIs(occ, start, end, 0, i);
  }

  /** The first blocked index from j is i when samples j .. i - 1 are free and sample i is blocked (or i is the end). */
  lemma FirstBlockedFromIs(occ: Field, start: Vec2, end: Vec2, j: nat, i: nat)
    requires j <= i <= MaxCollisionSteps
    requires forall k :: j <= k < i ==> !Blocked(occ, start, end, k)
    requires i < MaxCollisionSteps ==> Blocked(occ, start, end, i)
    ensures FirstBlockedFrom(occ, start, end, j) == i
    decreases i - j
  {
    if j < i {
      FirstBlockedFromIs(occ, start, end, j + 1, i);
    }
  }

  /** When no sample is blocked, the sweep reaches `end` exactly (the last sample has t = 1). */
  lemma SweepReachesEnd(occ: Field, start: Vec2, end: Vec2)
    requires forall i :: 0 <= i < MaxCollisionSteps ==> !Blocked(occ, start, end, i)
    ensures SweepEnd(occ, start, end) == end
  {
    assert StepParam(MaxCollisionSteps - 1) == 1.0;
  }

  /**
   * The sweep never leaves the segment and never moves backwards: its result is
   * `lerp(start, end, t)` for the parameter t of the last accepted sample, 0 <= t <= 1.
   */
  lemma SweepOnSegment(occ: Field, start: Vec2, end: Vec2)
    ensures var k := FirstBlocked(occ, start, end);
      var t := if k == 0 then 0.0 else StepParam(k - 1);
      0.0 <= t <= 1.0 && SweepEnd(occ, start, end) == Lerp2(start, end, t)
  {
  }

  /** Every position the sweep moves to is free: its occupancy is at most PlayerRadius. */
  lemma SweepAcceptsOnlyFreePoints(occ: Field, start: Vec2, end: Vec2)
    requires FirstBlocked(occ, start, end) > 0
    ensures occ(SweepEnd(occ, start, end)) <= PlayerRadius
  {
    var k := FirstBlocked(occ, start, end);
    assert !Blocked(occ, start, end, k - 1);
  }

  /** If the first sample (the start itself) is blocked, the player does not move. */
  lemma SweepBlockedAtStart(occ: Field, start: Vec2, end: Vec2)
    requires occ(start) > PlayerRadius
    ensures SweepEnd(occ, start, end) == start
  {
    assert SamplePoint(start, end, 0) == start;
    assert Blocked(occ, start, end, 0);
  }

  /** A sweep from a point to itself leaves the point where it is. */
  lemma SweepNoOp(occ: Field, p: Vec2)
    ensures SweepEnd(occ, p, p) == p
  {
  }

  /** A horizontal sweep changes only x; a vertical sweep changes only y. */
  lemma SweepKeepsFixedAxis(occ: Field, start: Vec2, end: Vec2)
    ensures start.y == end.y ==> SweepEnd(occ, start, end).y == start.y
    ensures start.x == end.x ==> SweepEnd(occ, start, end).x == start.x
  {
  }

  /** With eight steps the divisor 7 is non-zero, and the samples run from the start (t = 0) to the target (t = 1). */
  lemma SampleEnds(start: Vec2, end: Vec2)
    ensures SamplePoint(start, end, 0) == start
    ensures SamplePoint(start, end, MaxCollisionSteps - 1) == end
    ensures forall i :: 0 <= i < MaxCollisionSteps ==> 0.0 <= StepParam(i) <= 1.0
  {
    assert StepParam(MaxCollisionSteps - 1) == 1.0;
  }

  /** The sweep ends between its start and its target on both axes. */
  lemma SweepStaysBetween(occ: Field, start: Vec2, end: Vec2)
    ensures var r := SweepEnd(occ, start, end);
      Min(start.x, end.x) <= r.x <= Max(start.x, end.x) && Min(start.y, end.y) <= r.y <= Max(start.y, end.y)
  {
    SweepOnSegment(occ, start, end);
  }

  /** The sweep either leaves the player where it was or moves it to a free point. */
  lemma SweepMovesOnlyToFree(occ: Field, start: Vec2, end: Vec2)
    ensures SweepEnd(occ, start, end) == start || occ(SweepEnd(occ, start, end)) <= PlayerRadius
  {
    if FirstBlocked(occ, start, end) > 0 {
      SweepAcceptsOnlyFreePoints(occ, start, end);
    }
  }

  /** Consecutive samples are one seventh of the segment apart. */
  lemma SampleStep(start: Vec2, end: Vec2, i: int)
    ensures SamplePoint(start, end, i + 1).y == SamplePoint(start, end, i).y + (end.y - start.y) / 7.0
  {
    var t := StepParam(i);
    assert StepParam(i + 1) == t + 1.0 / 7.0;
    assert start.y * (1.0 - (t + 1.0 / 7.0)) == start.y * (1.0 - t) - start.y / 7.0;
    assert end.y * (t + 1.0 / 7.0) == end.y * t + end.y / 7.0;
  }

  /**
   * A downward vertical sweep over a field that, on the sweep's line and from
   * `lo` up to the start, is blocked exactly below `level`: if the start is at
   * or above `level`, the target below it, and one sample step shorter than
   * `level - lo`, the sweep stops within one step above `level`.
   */
  lemma SweepStopsAboveLevel(occ: Field, start: Vec2, end: Vec2, lo: real, level: real)
    requires start.x == end.x && end.y < level <= start.y
    requires (start.y - end.y) / 7.0 < level - lo
    requires forall p: Vec2 :: p.x == start.x && lo <= p.y <= start.y ==> (occ(p) > PlayerRadius <==> p.y < level)
    ensures SweepEnd(occ, start, end).x == start.x
    ensures level <= SweepEnd(occ, start, end).y < level + (start.y - end.y) / 7.0
  {
    var k := FirstBlocked(occ, start, end);
    SampleEnds(start, end);
    assert k >= 1 by {
      assert !Blocked(occ, start, end, 0);
    }
    AcceptedSamplesAboveLevel(occ, start, end, lo, level, k - 1);
    assert k < MaxCollisionSteps;
    SampleStep(start, end, k - 1);
    assert Blocked(occ, start, end, k);
    assert SweepEnd(occ, start, end) == SamplePoint(start, end, k - 1);
  }

  /** Under `SweepStopsAboveLevel`'s hypotheses, every sample before the first blocked one is on the line, at or above the level. */
  lemma {:induction false} AcceptedSamplesAboveLevel(occ: Field, start: Vec2, end: Vec2, lo: real, level: real, i: nat)
    requires start.x == end.x && end.y < level <= start.y
    requires (start.y - end.y) / 7.0 < level - lo
    requires forall p: Vec2 :: p.x == start.x && lo <= p.y <= start.y ==> (occ(p) > PlayerRadius <==> p.y < level)
    requires i < FirstBlocked(occ, start, end)
    ensures SamplePoint(start, end, i).x == start.x
    ensures level <= SamplePoint(start, end, i).y <= start.y
  {
    SampleEnds(start, end);
    if i > 0 {
      AcceptedSamplesAboveLevel(occ, start, end, lo, level, i - 1);
      SampleStep(start, end, i - 1);
      assert !Blocked(occ, start, end, i);
    }
  }
}
