/**
 * The character's face: the eye glimmers that follow the pointer, and the
 * eyebrows and arms that ease towards a target chosen by the press pulses.
 * Both run once per rendered frame (`useFrame`).
 */
module Face {
  import opened Wrappers
  import opened Geometry

  /** The normalised pointer sample three.js passes to a frame callback (`mouse`). */
  datatype PointerSample = PointerSample(x: real, y: real)

  const MoveFactorY: real := 0.5
  const MoveFactorZ: real := -0.5
  const CenterOffsetZ: real := -0.05
  const CenterOffsetY: real := -0.3

  /** Bounds of the glimmers: y for both eyes, z per eye (each as [min, max]). */
  const MinY: real := 6.36
  const MaxY: real := 6.6
  const LeftMinZ: real := 1.11
  const LeftMaxZ: real := 1.25
  const RightMinZ: real := -0.52
  const RightMaxZ: real := -0.38

  /**
   * `THREE.MathUtils.clamp(v, lo, hi)`, i.e. `max(lo, min(hi, v))`: for an
   * ordered interval the result lies in it, is `v` itself when `v` already
   * does, and is the nearer end otherwise.
   */
  function Clamp(v: real, lo: real, hi: real): (r: real)
    ensures lo <= hi ==> lo <= r <= hi
    ensures lo <= v <= hi ==> r == v
    ensures v < lo ==> r == lo
    ensures lo <= hi && hi < v ==> r == hi
  {
    var m := if hi < v then hi else v;
    if m < lo then lo else m
  }

  /**
   * `newY`, the same for both eyes: it rests at 6.172 for a centred pointer and
   * lies within the height bounds only for pointer heights in [0.376, 0.856].
   */
  function RawY(m: PointerSample): (r: real)
    ensures m.y == 0.0 ==> r == 6.172
    ensures MinY <= r <= MaxY <==> 0.376 <= m.y <= 0.856
  {
    CenterOffsetY + 6.472 + m.y * MoveFactorY
  }

  /** The left eye's `newZ`: within its depth bounds only for pointer x in [-0.238, 0.042]. */
  function RawLeftZ(m: PointerSample): (r: real)
    ensures m.x == 0.0 ==> r == 1.131
    ensures LeftMinZ <= r <= LeftMaxZ <==> -0.238 <= m.x <= 0.042
  {
    CenterOffsetZ + 1.181 + m.x * MoveFactorZ
  }

  /** The right eye's `newZ`: within its depth bounds only for pointer x in [-0.244, 0.036]. */
  function RawRightZ(m: PointerSample): (r: real)
    ensures m.x == 0.0 ==> r == -0.502
    ensures RightMinZ <= r <= RightMaxZ <==> -0.244 <= m.x <= 0.036
  {
    CenterOffsetZ + -0.452 + m.x * MoveFactorZ
  }

  /** Height of both glimmers: always within [6.36, 6.6], whatever the pointer. */
  function GlimmerY(m: PointerSample): (r: real)
    ensures MinY <= r <= MaxY
  {
    Clamp(RawY(m), MinY, MaxY)
  }

  /** Depth of the left glimmer: always within [1.11, 1.25]. */
  function LeftGlimmerZ(m: PointerSample): (r: real)
    ensures LeftMinZ <= r <= LeftMaxZ
  {
    Clamp(RawLeftZ(m), LeftMinZ, LeftMaxZ)
  }

  /** Depth of the right glimmer: always within [-0.52, -0.38]. */
  function RightGlimmerZ(m: PointerSample): (r: real)
    ensures RightMinZ <= r <= RightMaxZ
  {
    Clamp(RawRightZ(m), RightMinZ, RightMaxZ)
  }

  /** `clamp` never reverses the order of two inputs. */
  lemma ClampMonotone(u: real, v: real, lo: real, hi: real)
    requires lo <= hi && u <= v
    ensures Clamp(u, lo, hi) <= Clamp(v, lo, hi)
  {
  }

  /**
   * The glimmers follow the pointer: moving it up never lowers them, and
   * moving it right never moves either of them forward in z.
   */
  lemma GlimmersFollowPointer(a: PointerSample, b: PointerSample)
    ensures a.y <= b.y ==> GlimmerY(a) <= GlimmerY(b)
    ensures a.x <= b.x ==> LeftGlimmerZ(b) <= LeftGlimmerZ(a) && RightGlimmerZ(b) <= RightGlimmerZ(a)
  {
    if a.y <= b.y {
      ClampMonotone(RawY(a), RawY(b), MinY, MaxY);
    }
    if a.x <= b.x {
      ClampMonotone(RawLeftZ(b), RawLeftZ(a), LeftMinZ, LeftMaxZ);
      ClampMonotone(RawRightZ(b), RawRightZ(a), RightMinZ, RightMaxZ);
    }
  }

  /**
   * With the pointer at the centre of the canvas the glimmers sit at the
   * lowest allowed height (the unclamped 6.172 is below 6.36), and on the
   * unclamped depths 1.131 and -0.502.
   */
  lemma CentredPointerRestsLow()
    ensures GlimmerY(PointerSample(0.0, 0.0)) == MinY
    ensures LeftGlimmerZ(PointerSample(0.0, 0.0)) == 1.131
    ensures RightGlimmerZ(PointerSample(0.0, 0.0)) == -0.502
  {
  }

  /** The eye tick overwrites y and z of a glimmer node and keeps its x. */
  function PlaceGlimmer(node: Vec3, y: real, z: real): (r: Vec3)
    ensures r.x == node.x && r.y == y && r.z == z
  {
    node.(y := y, z := z)
  }

  /**
   * The eye tick keeps no memory of earlier samples: placing both glimmers
   * for sample `a` and then for sample `b` leaves them where placing for `b`
   * alone does. In particular repeating a tick changes nothing.
   */
  lemma EyesFollowLatestSample(left: Vec3, right: Vec3, a: PointerSample, b: PointerSample)
    ensures PlaceGlimmer(PlaceGlimmer(left, GlimmerY(a), LeftGlimmerZ(a)), GlimmerY(b), LeftGlimmerZ(b))
         == PlaceGlimmer(left, GlimmerY(b), LeftGlimmerZ(b))
    ensures PlaceGlimmer(PlaceGlimmer(right, GlimmerY(a), RightGlimmerZ(a)), GlimmerY(b), RightGlimmerZ(b))
         == PlaceGlimmer(right, GlimmerY(b), RightGlimmerZ(b))
  {
  }

  // ---------------------------------------------------------------- easing

  /** Rest heights: `eyebrowPositions.left[1]` and `armsPosition[1]`. */
  const RestEyebrowY: real := 6.716
  const RestArmsY: real := 3.418

  /** The three press pulses (`animateSelect`, `animateOk`, `animateCancel`). */
  datatype Pulses = Pulses(select: bool, ok: bool, cancel: bool)

  /**
   * Eyebrow target: select raises to 6.8, ok to 6.95, cancel lowers to 6.65,
   * in that priority; with no pulse the rest height.
   */
  function EyebrowTarget(p: Pulses): (r: real)
    ensures r == RestEyebrowY <==> !p.select && !p.ok && !p.cancel
    ensures p.select ==> r == 6.8
    ensures !p.select && p.ok ==> r == 6.95
    ensures !p.select && !p.ok && p.cancel ==> r == 6.65
  {
    if p.select then 6.8 else if p.ok then 6.95 else if p.cancel then 6.65 else RestEyebrowY
  }

  /** Arms target: ok raises to 3.8, cancel lowers to 3.3; select does not move the arms. */
  function ArmsTarget(p: Pulses): (r: real)
    ensures r == RestArmsY <==> !p.ok && !p.cancel
    ensures p.ok ==> r == 3.8
    ensures !p.ok && p.cancel ==> r == 3.3
  {
    if p.ok then 3.8 else if p.cancel then 3.3 else RestArmsY
  }

  /**
   * One frame of easing, `y += (target - y) * 0.1`: it leaves 0.9 of the
   * gap to the target and never overshoots it.
   */
  function EaseStep(y: real, target: real): (r: real)
    ensures target - r == 0.9 * (target - y)
    ensures Between(y, target, r)
  {
    y + (target - y) * 0.1
  }

  function Pow(b: real, n: nat): real {
    if n == 0 then 1.0 else b * Pow(b, n - 1)
  }

  /**
   * `n` frames of easing towards a fixed target: the gap shrinks to
   * 0.9^n of what it was and the height stays between start and target.
   */
  function EaseFrames(y: real, target: real, n: nat): (r: real)
    ensures target - r == Pow(0.9, n) * (target - y)
    ensures Between(y, target, r)
  {
    if n == 0 then y else EaseStep(EaseFrames(y, target, n - 1), target)
  }

  /** Apply one easing frame to the y of a node that is mounted; leave an absent node absent. */
  function EaseNode(node: Option<Vec3>, target: real): (r: Option<Vec3>)
    ensures r.Some? <==> node.Some?
    ensures r.Some? ==> r.value.x == node.value.x && r.value.z == node.value.z
    ensures r.Some? ==> r.value.y == EaseStep(node.value.y, target)
  {
    if node.Some? then Some(node.value.(y := EaseStep(node.value.y, target))) else None
  }

  /**
   * The face nodes the two frame callbacks move in place. Each is `None`
   * while its ref is not attached.
   */
  class FaceRig {
    var leftEye: Option<Vec3>
    var rightEye: Option<Vec3>
    var leftEyebrow: Option<Vec3>
    var rightEyebrow: Option<Vec3>
    var arms: Option<Vec3>

    constructor (leftEye: Option<Vec3>, rightEye: Option<Vec3>, leftEyebrow: Option<Vec3>,
                 rightEyebrow: Option<Vec3>, arms: Option<Vec3>)
      ensures this.leftEye == leftEye && this.rightEye == rightEye
      ensures this.leftEyebrow == leftEyebrow && this.rightEyebrow == rightEyebrow && this.arms == arms
    {
      this.leftEye := leftEye;
      this.rightEye := rightEye;
      this.leftEyebrow := leftEyebrow;
      this.rightEyebrow := rightEyebrow;
      this.arms := arms;
    }

    /** The eye frame callback: each mounted glimmer gets the clamped y and z of the sample. */
    method EyeTick(m: PointerSample)
      modifies this
      ensures leftEye == if old(leftEye).Some? then Some(PlaceGlimmer(old(leftEye).value, GlimmerY(m), LeftGlimmerZ(m))) else None
      ensures rightEye == if old(rightEye).Some? then Some(PlaceGlimmer(old(rightEye).value, GlimmerY(m), RightGlimmerZ(m))) else None
      ensures leftEyebrow == old(leftEyebrow) && rightEyebrow == old(rightEyebrow) && arms == old(arms)
    {
      if leftEye.Some? {
        var newY := RawY(m);
        var newZ := RawLeftZ(m);
        leftEye := Some(leftEye.value.(y := Clamp(newY, MinY, MaxY), z := Clamp(newZ, LeftMinZ, LeftMaxZ)));
      }
      if rightEye.Some? {
        var newY := RawY(m);
        var newZ := RawRightZ(m);
        rightEye := Some(rightEye.value.(y := Clamp(newY, MinY, MaxY), z := Clamp(newZ, RightMinZ, RightMaxZ)));
      }
    }

    /**
     * The press-pulse frame callback: the arms and both eyebrows each move
     * 10% of the way to their target; the eyes are not touched.
     */
    method EaseTick(p: Pulses)
      modifies this
      ensures arms == EaseNode(old(arms), ArmsTarget(p))
      ensures leftEyebrow == EaseNode(old(leftEyebrow), EyebrowTarget(p))
      ensures rightEyebrow == EaseNode(old(rightEyebrow), EyebrowTarget(p))
      ensures leftEye == old(leftEye) && rightEye == old(rightEye)
    {
      var targetYEyebrow := EyebrowTarget(p);
      var targetYArms := ArmsTarget(p);
      if arms.Some? {
        arms := Some(arms.value.(y := arms.value.y + (targetYArms - arms.value.y) * 0.1));
      }
      if leftEyebrow.Some? {
        leftEyebrow := Some(leftEyebrow.value.(y := leftEyebrow.value.y + (targetYEyebrow - leftEyebrow.value.y) * 0.1));
      }
      if rightEyebrow.Some? {
        rightEyebrow := Some(rightEyebrow.value.(y := rightEyebrow.value.y + (targetYEyebrow - rightEyebrow.value.y) * 0.1));
      }
    }
  }
}
