/** Two-component real vectors (`float2`) and linear interpolation. */
module Geometry {

  datatype Vec2 = Vec2(x: real, y: real)

  const Zero: Vec2 := Vec2(0.0, 0.0)

  function Min(a: real, b: real): real { if a <= b then a else b }
  function Max(a: real, b: real): real { if a <= b then b else a }

  function Abs(a: real): (r: real)
    ensures r >= 0.0 && (r == a || r == -a)
  {
    if a < 0.0 then -a else a
  }

  /** `lerp(a, b, w)`: the point a fraction `w` of the way from `a` to `b`. */
  function Lerp(a: real, b: real, w: real): (r: real)
    ensures w == 0.0 ==> r == a
    ensures w == 1.0 ==> r == b
    ensures a == b ==> r == a
    ensures 0.0 <= w <= 1.0 ==> Min(a, b) <= r <= Max(a, b)
  {
    LerpBetween(a, b, w);
    a * (1.0 - w) + b * w
  }

  lemma LerpBetween(a: real, b: real, w: real)
    ensures 0.0 <= w <= 1.0 ==> Min(a, b) <= a * (1.0 - w) + b * w <= Max(a, b)
  {
    if 0.0 <= w <= 1.0 {
      var lo, hi := Min(a, b), Max(a, b);
      ProductNonNegative(a - lo, 1.0 - w);
      ProductNonNegative(b - lo, w);
      ProductNonNegative(hi - a, 1.0 - w);
      ProductNonNegative(hi - b, w);
      assert (a - lo) * (1.0 - w) + (b - lo) * w == a * (1.0 - w) + b * w - lo;
      assert (hi - a) * (1.0 - w) + (hi - b) * w == hi - (a * (1.0 - w) + b * w);
    }
  }

  lemma ProductNonNegative(a: real, b: real)
    requires a >= 0.0 && b >= 0.0
    ensures a * b >= 0.0
  {
  }

  /** Component-wise `lerp` of two vectors. */
  function Lerp2(a: Vec2, b: Vec2, w: real): (r: Vec2)
    ensures w == 0.0 ==> r == a
    ensures w == 1.0 ==> r == b
    ensures a.x == b.x ==> r.x == a.x
    ensures a.y == b.y ==> r.y == a.y
    ensures 0.0 <= w <= 1.0 ==> Min(a.x, b.x) <= r.x <= Max(a.x, b.x) && Min(a.y, b.y) <= r.y <= Max(a.y, b.y)
  {
    Vec2(Lerp(a.x, b.x, w), Lerp(a.y, b.y, w))
  }

  /** Squared length of `a - b`; `length(a - b) < r` is `DistSq(a, b) < r * r` for r >= 0. */
  function DistSq(a: Vec2, b: Vec2): real
  {
    (a.x - b.x) * (a.x - b.x) + (a.y - b.y) * (a.y - b.y)
  }
}
