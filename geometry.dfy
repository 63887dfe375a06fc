/**
 * Points and vectors of the scene, over exact reals. Only the two vector
 * operations the dispense animation uses are modelled: component-wise
 * addition (`Vector3.add`) and linear interpolation (`Vector3.lerpVectors`).
 */
module Geometry {

  datatype Vec3 = Vec3(x: real, y: real, z: real)

  /**
   * `a.clone().add(b)`: the point offset from `a` by `b`. The displacement from
   * `a` is exactly `b`, and `a` itself is left as it was (the clone is added to).
   */
  function Add(a: Vec3, b: Vec3): (r: Vec3)
    ensures r.x - a.x == b.x && r.y - a.y == b.y && r.z - a.z == b.z
    ensures b == Vec3(0.0, 0.0, 0.0) ==> r == a
  {
    Vec3(a.x + b.x, a.y + b.y, a.z + b.z)
  }

  /** One component of `lerpVectors`: `u + (v - u) * t`. */
  function LerpScalar(u: real, v: real, t: real): real {
    u + (v - u) * t
  }

  /** `w` lies on the closed segment between `u` and `v` (in either order). */
  predicate Between(u: real, v: real, w: real) {
    (u <= w <= v) || (v <= w <= u)
  }

  /**
   * `target.lerpVectors(a, b, t)`: the point a fraction `t` of the way from `a`
   * to `b`. It starts at `a`, ends at `b`, and for a fraction in [0,1] stays on
   * the segment between them, component by component.
   */
  function Lerp(a: Vec3, b: Vec3, t: real): (r: Vec3)
    ensures t == 0.0 ==> r == a
    ensures t == 1.0 ==> r == b
    ensures 0.0 <= t <= 1.0 ==> Between(a.x, b.x, r.x) && Between(a.y, b.y, r.y) && Between(a.z, b.z, r.z)
  {
    if 0.0 <= t <= 1.0 then
      LerpBetween(a.x, b.x, t);
      LerpBetween(a.y, b.y, t);
      LerpBetween(a.z, b.z, t);
      Vec3(LerpScalar(a.x, b.x, t), LerpScalar(a.y, b.y, t), LerpScalar(a.z, b.z, t))
    else
      Vec3(LerpScalar(a.x, b.x, t), LerpScalar(a.y, b.y, t), LerpScalar(a.z, b.z, t))
  }

  /**
   * The interpolation is linear, with no easing: moving the fraction from `s`
   * to `t` moves every component by `t - s` times the whole displacement, so
   * equal steps of the fraction are equal steps along the segment.
   */
  lemma LerpSteps(a: Vec3, b: Vec3, s: real, t: real)
    ensures Lerp(a, b, t).x - Lerp(a, b, s).x == (t - s) * (b.x - a.x)
    ensures Lerp(a, b, t).y - Lerp(a, b, s).y == (t - s) * (b.y - a.y)
    ensures Lerp(a, b, t).z - Lerp(a, b, s).z == (t - s) * (b.z - a.z)
  {
  }

  /** A fraction in [0,1] of the way from `u` to `v` never leaves the segment. */
  lemma LerpBetween(u: real, v: real, t: real)
    requires 0.0 <= t <= 1.0
    ensures Between(u, v, LerpScalar(u, v, t))
  {
    var k := v - u;
    var m := k * t;
    assert LerpScalar(u, v, t) == u + m;
    if u <= v {
      ScaleWithin(k, t);
      assert 0.0 <= m <= k;
    } else {
      ScaleWithinNegative(k, t);
      assert k <= m <= 0.0;
    }
  }

  /** Scaling a non-negative length by a fraction in [0,1] keeps it within [0, length]. */
  lemma ScaleWithin(k: real, t: real)
    requires 0.0 <= k && 0.0 <= t <= 1.0
    ensures 0.0 <= k * t <= k
  {
    assert k * (1.0 - t) >= 0.0;
  }

  /** Scaling a non-positive length by a fraction in [0,1] keeps it within [length, 0]. */
  lemma ScaleWithinNegative(k: real, t: real)
    requires k <= 0.0 && 0.0 <= t <= 1.0
    ensures k <= k * t <= 0.0
  {
    ScaleWithin(-k, t);
    assert k * t == -((-k) * t);
  }
}
