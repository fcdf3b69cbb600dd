/**
 * `GetScreenTransform`: the part of normalized screen space the map is
 * drawn into, chosen so that map cells stay square whatever the window's
 * shape.
 */
module Screen {
  import opened Config
  import opened Geometry

  /** The x and y ranges, each as (min, max) in a `Vec2`, like the source's `float2` pair. */
  datatype Ranges = Ranges(xRange: Vec2, yRange: Vec2)

  /**
   * A window wider than the map (in aspect) gets the full height and a
   * narrowed width; otherwise the full width and a narrowed height.
   */
  function ScreenTransform(width: nat, height: nat): (r: Ranges)
    requires height > 0
    ensures r.xRange.x == -r.xRange.y && r.yRange.x == -r.yRange.y
    ensures 0.0 < r.xRange.y <= 1.0 && 0.0 <= r.yRange.y <= 1.0
    ensures r.xRange.y == 1.0 || r.yRange.y == 1.0
    ensures r.xRange.y < 1.0 <==> width * H > W * height
    ensures r.xRange.y * (width * H) as real == r.yRange.y * (height * W) as real
  {
    var screenAspect := width as real / height as real;
    var texAspect := W as real / H as real;
    var xMax := if screenAspect > texAspect then texAspect / screenAspect else 1.0;
    var yMax := if screenAspect > texAspect then 1.0 else screenAspect / texAspect;
    AspectFacts(width, height);
    Ranges(Vec2(-xMax, xMax), Vec2(-yMax, yMax))
  }

  lemma AspectFacts(width: nat, height: nat)
    requires height > 0
    ensures var s, t := width as real / height as real, W as real / H as real;
      && (s > t <==> width * H > W * height)
      && (s > t ==> 0.0 < t / s < 1.0 && (t / s) * (width * H) as real == (height * W) as real)
      && (s <= t ==> 0.0 <= s / t <= 1.0 && (width * H) as real == (s / t) * (height * W) as real)
  {
  }
}
