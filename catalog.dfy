/**
 * The catalog of the five dispensable items: their shelf positions
 * (`positions`), the corner and end offsets of their L-shaped fall
 * (`offsets`) and the duration of the second, vertical segment
 * (`segmentDurations`), together with the two-segment path the dispense
 * animation follows.
 */
module Catalog {
  import opened Geometry

  /** Durations are positive milliseconds. */
  type Millis = n: nat | 0 < n witness 1

  datatype Offset = Offset(corner: Vec3, end: Vec3)

  /** `Object.keys(meshRefs.current)`, in declaration order. */
  const ItemKeys: seq<string> := ["smiley", "sparkle_heart", "heart_smiley", "sad_smiley", "three_hearts"]

  const Positions: map<string, Vec3> := map[
    "smiley" := Vec3(1.081, 2.554, 0.368),
    "sparkle_heart" := Vec3(1.111, 4.965, -0.64),
    "heart_smiley" := Vec3(1.139, 3.738, -0.643),
    "sad_smiley" := Vec3(1.096, 4.948, 1.38),
    "three_hearts" := Vec3(1.086, 3.756, 0.368)
  ]

  const Offsets: map<string, Offset> := map[
    "smiley" := Offset(Vec3(0.5, 0.0, 0.0), Vec3(0.5, -1.6, 0.0)),
    "sparkle_heart" := Offset(Vec3(0.5, 0.0, 0.0), Vec3(0.5, -4.0, 0.0)),
    "heart_smiley" := Offset(Vec3(0.5, 0.0, 0.0), Vec3(0.5, -2.8, 0.0)),
    "sad_smiley" := Offset(Vec3(0.5, 0.0, 0.0), Vec3(0.5, -4.0, 0.0)),
    "three_hearts" := Offset(Vec3(0.5, 0.0, 0.0), Vec3(0.5, -2.8, 0.0))
  ]

  const SegmentDurations: map<string, Millis> := map[
    "smiley" := 600,
    "sparkle_heart" := 1200,
    "heart_smiley" := 900,
    "sad_smiley" := 1200,
    "three_hearts" := 900
  ]

  /** Duration of the first, horizontal segment (origin to corner). */
  const FirstSegmentMs: real := 500.0

  /** `key` has an entry in all three catalogs. */
  predicate IsItem(key: string) {
    key in Positions && key in Offsets && key in SegmentDurations
  }

  /** The three catalogs and the mesh registry share exactly the five keys. */
  lemma ItemKeysAreTheCatalog(key: string)
    ensures IsItem(key) <==> key in ItemKeys
    ensures IsItem(key) <==> key in Positions
    ensures key in Offsets <==> key in Positions
    ensures key in SegmentDurations <==> key in Positions
  {
  }

  /**
   * `new THREE.Vector3(...positions[key])`: the item's shelf position. Every
   * item has a slot of its own, inside the machine's shelf block.
   */
  function Origin(key: string): (r: Vec3)
    requires IsItem(key)
    ensures forall k :: k in Positions && k != key ==> Positions[k] != r
    ensures 1.0 < r.x < 1.2 && 2.5 < r.y < 5.0 && -0.7 < r.z < 1.4
  {
    Positions[key]
  }

  /** The corner lies half a unit to the right of the shelf, at the same height and depth. */
  function Corner(key: string): (r: Vec3)
    requires IsItem(key)
    ensures r.x == Origin(key).x + 0.5 && r.y == Origin(key).y && r.z == Origin(key).z
  {
    Add(Origin(key), Offsets[key].corner)
  }

  /** The end point lies straight below the corner: the item drops between 1.6 and 4 units. */
  function End(key: string): (r: Vec3)
    requires IsItem(key)
    ensures r.x == Corner(key).x && r.z == Origin(key).z
    ensures Origin(key).y - 4.0 <= r.y <= Origin(key).y - 1.6
  {
    Add(Origin(key), Offsets[key].end)
  }

  /** `firstSegmentDuration + secondSegmentDuration`, in milliseconds. */
  function TotalMs(key: string): (r: real)
    requires IsItem(key)
    ensures r > FirstSegmentMs
  {
    FirstSegmentMs + SegmentDurations[key] as real
  }

  /** `firstSegmentDuration / totalDuration`: the progress at which the corner is reached. */
  function Boundary(key: string): (b: real)
    requires IsItem(key)
    ensures 0.0 < b < 1.0
  {
    FirstSegmentMs / TotalMs(key)
  }

  /** `secondSegmentDuration / totalDuration` is the rest of the run after the corner. */
  lemma SecondShare(key: string)
    requires IsItem(key)
    ensures SegmentDurations[key] as real / TotalMs(key) == 1.0 - Boundary(key)
  {
    var t := TotalMs(key);
    var d := SegmentDurations[key] as real;
    assert d == t - FirstSegmentMs;
    calc {
      d / t;
      (t - FirstSegmentMs) / t;
      t / t - FirstSegmentMs / t;
      1.0 - Boundary(key);
    }
  }

  /**
   * Local fraction within the first segment: progress over the boundary. It
   * runs over [0,1) while the progress is below the boundary.
   */
  function FirstFraction(key: string, p: real): (r: real)
    requires IsItem(key)
    ensures 0.0 <= p < Boundary(key) ==> 0.0 <= r < 1.0
  {
    if 0.0 <= p < Boundary(key) then DivideWithin(p, Boundary(key)); p / Boundary(key)
    else p / Boundary(key)
  }

  /**
   * Local fraction within the second segment: progress past the boundary over
   * the second segment's share of the run. It runs over [0,1] from the
   * boundary up to progress 1.
   */
  function SecondFraction(key: string, p: real): (r: real)
    requires IsItem(key)
    ensures Boundary(key) <= p <= 1.0 ==> 0.0 <= r <= 1.0
  {
    if Boundary(key) <= p <= 1.0 then
      SecondShare(key);
      DivideWithin(p - Boundary(key), 1.0 - Boundary(key));
      (p - Boundary(key)) / (SegmentDurations[key] as real / TotalMs(key))
    else (p - Boundary(key)) / (SegmentDurations[key] as real / TotalMs(key))
  }

  /**
   * The position the dispense tick gives the item's mesh at progress `p`,
   * before the snap at completion: below the boundary the lerp from origin to
   * corner, otherwise the lerp from corner to end.
   */
  function PathPoint(key: string, p: real): (r: Vec3)
    requires IsItem(key)
    // whatever the progress, the depth is the shelf's; the first segment is
    // horizontal and the second vertical
    ensures r.z == Origin(key).z
    ensures p < Boundary(key) ==> r.y == Origin(key).y
    ensures Boundary(key) <= p ==> r.x == Corner(key).x
  {
    if p < Boundary(key) then Lerp(Origin(key), Corner(key), FirstFraction(key, p))
    else Lerp(Corner(key), End(key), SecondFraction(key, p))
  }

  /** On the first segment the local fraction runs over [0,1). */
  lemma FirstFractionInRange(key: string, p: real)
    requires IsItem(key) && 0.0 <= p < Boundary(key)
    ensures 0.0 <= FirstFraction(key, p) < 1.0
  {
    DivideWithin(p, Boundary(key));
  }

  /** On the second segment the local fraction runs over [0,1]. */
  lemma SecondFractionInRange(key: string, p: real)
    requires IsItem(key) && Boundary(key) <= p <= 1.0
    ensures 0.0 <= SecondFraction(key, p) <= 1.0
  {
    SecondShare(key);
    var b := Boundary(key);
    DivideWithin(p - b, 1.0 - b);
  }

  /** A part of a positive whole is a fraction in [0,1], below 1 when the part is smaller. */
  lemma DivideWithin(a: real, d: real)
    requires 0.0 <= a <= d && 0.0 < d
    ensures 0.0 <= a / d <= 1.0
    ensures a < d ==> a / d < 1.0
  {
    assert a / d * d == a;
  }

  /** Progress 0 is the shelf position. */
  lemma PathStartsAtShelf(key: string)
    requires IsItem(key)
    ensures PathPoint(key, 0.0) == Origin(key)
  {
    assert FirstFraction(key, 0.0) == 0.0;
  }

  /** At the boundary fraction the path is exactly at the corner. */
  lemma PathTurnsAtCorner(key: string)
    requires IsItem(key)
    ensures PathPoint(key, Boundary(key)) == Corner(key)
  {
    SecondShare(key);
    assert SecondFraction(key, Boundary(key)) == 0.0;
  }

  /**
   * At progress 1 the interpolation already yields `origin + endOffset`, so the
   * snap at completion agrees with the path.
   */
  lemma PathEndsAtEnd(key: string)
    requires IsItem(key)
    ensures PathPoint(key, 1.0) == End(key)
  {
    SecondShare(key);
    var b := Boundary(key);
    assert SecondFraction(key, 1.0) == (1.0 - b) / (1.0 - b) == 1.0;
  }

  /**
   * The fall is L-shaped for every catalog item: the depth (z) never changes;
   * on the first segment only x moves, from the shelf towards the corner; on
   * the second only y moves, from the corner down towards the end.
   */
  lemma PathIsLShaped(key: string, p: real)
    requires IsItem(key) && 0.0 <= p <= 1.0
    ensures PathPoint(key, p).z == Origin(key).z
    ensures p < Boundary(key) ==>
      PathPoint(key, p).y == Origin(key).y && Between(Origin(key).x, Corner(key).x, PathPoint(key, p).x)
    ensures Boundary(key) <= p ==>
      PathPoint(key, p).x == Corner(key).x && Between(Corner(key).y, End(key).y, PathPoint(key, p).y)
  {
    var o := Offsets[key];
    assert o.corner.y == 0.0 && o.corner.z == 0.0 && o.end.z == 0.0 && o.end.x == o.corner.x;
    if p < Boundary(key) {
      FirstFractionInRange(key, p);
    } else {
      SecondFractionInRange(key, p);
    }
  }

  /**
   * Within each segment the mesh moves at constant speed: on the first segment
   * x is the shelf's x plus half a unit times the local fraction, and on the
   * second y is the corner's height plus the drop times the local fraction.
   */
  lemma PathIsLinear(key: string, p: real)
    requires IsItem(key) && 0.0 <= p <= 1.0
    ensures p < Boundary(key) ==> PathPoint(key, p).x == Origin(key).x + 0.5 * (p / Boundary(key))
    ensures Boundary(key) <= p ==>
      PathPoint(key, p).y == Corner(key).y + (End(key).y - Corner(key).y) * ((p - Boundary(key)) / (1.0 - Boundary(key)))
  {
    if p < Boundary(key) {
      FirstSegmentIsLinear(key, p);
    } else {
      SecondSegmentIsLinear(key, p);
    }
  }

  /** On the first segment, x is the shelf's x plus half a unit times the local fraction. */
  lemma FirstSegmentIsLinear(key: string, p: real)
    requires IsItem(key) && 0.0 <= p < Boundary(key)
    ensures PathPoint(key, p).x == Origin(key).x + 0.5 * (p / Boundary(key))
  {
    var o, c, f := Origin(key), Corner(key), p / Boundary(key);
    assert PathPoint(key, p) == Lerp(o, c, f);
    assert Lerp(o, c, f).x == o.x + (c.x - o.x) * f;
  }

  /** On the second segment, y is the corner's height plus the drop times the local fraction. */
  lemma SecondSegmentIsLinear(key: string, p: real)
    requires IsItem(key) && Boundary(key) <= p <= 1.0
    ensures PathPoint(key, p).y ==
      Corner(key).y + (End(key).y - Corner(key).y) * ((p - Boundary(key)) / (1.0 - Boundary(key)))
  {
    SecondShare(key);
    var b := Boundary(key);
    var c, e, f := Corner(key), End(key), (p - b) / (1.0 - b);
    assert SecondFraction(key, p) == f;
    assert PathPoint(key, p) == Lerp(c, e, f);
    assert Lerp(c, e, f).y == c.y + (e.y - c.y) * f;
  }
}
