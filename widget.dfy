/**
 * The component instance: its state as fields updated in place by its
 * handlers, frame callback, timer callbacks and reset effect. Each method
 * performs the same updates as the source, one setter at a time, and is
 * proved to reach the state the `Machine` transition of its event
 * prescribes while keeping the lifecycle invariant.
 */
module Widget {
  import opened Geometry
  import Catalog
  import opened Face
  import opened Machine
  import opened Lifecycle

  class VendingMachine {
    /** `selectedButton`, the message, the cursor style, `animationComplete` and `resetPos`. */
    var host: Host
    var disabled: bool
    var hovered: string
    var anim: Animation
    var pulses: Pulses
    var timers: Timers
    /** The mounted item meshes (non-null entries of `meshRefs`) and their positions. */
    var meshes: map<string, Vec3>
    var cues: seq<Cue>

    /** The instance's state as a value of the `Machine` model. */
    function Snapshot(): State
      reads this
    {
      State(host, disabled, hovered, anim, pulses, timers, meshes, cues)
    }

    ghost predicate Valid()
      reads this
    {
      Inv(Snapshot())
    }

    /** First render, with the item meshes mounted at `meshes`. */
    constructor (meshes: map<string, Vec3>)
      requires MeshesAreItems(meshes)
      ensures Valid() && Snapshot() == Initial(meshes)
    {
      host := Host("", "", Auto, false, false);
      disabled := false;
      hovered := "";
      anim := Animation(false, 0.0);
      pulses := Pulses(false, false, false);
      timers := Timers(0, 0, 0, 0);
      this.meshes := meshes;
      cues := [];
    }

    /** `handleClick(name)`: ignored while buttons are disabled. */
    method HandleClick(name: string)
      requires Valid()
      modifies this
      ensures Valid() && Snapshot() == Click(old(Snapshot()), name)
    {
      ghost var s := Snapshot();
      if !disabled {
        if name == CancelButton {
          cues := cues + [CancelCue];
          host := host.(selected := "");
          pulses := pulses.(cancel := true);
          timers := timers.(cancel := timers.cancel + 1);
        } else if name == OkButton {
          if host.selected == "" {
            host := host.(message := NoSelectionMessage);
          } else {
            cues := cues + [CheckCue];
            host := host.(cursor := Auto);
            anim := anim.(trigger := true);
            disabled := true;
            pulses := pulses.(ok := true);
            timers := timers.(ok := timers.ok + 1);
          }
        } else {
          host := host.(message := "");
          cues := cues + [EmojiCue];
          host := host.(selected := name);
          pulses := pulses.(select := true);
          timers := timers.(select := timers.select + 1);
        }
      }
      assert Snapshot() == Click(s, name);
      ClickKeepsInv(s, name);
    }

    method HandleHoverIn(name: string)
      requires Valid()
      modifies this
      ensures Valid() && Snapshot() == HoverIn(old(Snapshot()), name)
    {
      if !disabled {
        host := host.(cursor := Pointer);
        hovered := name;
      }
    }

    method HandleHoverOut()
      requires Valid()
      modifies this
      ensures Valid() && Snapshot() == HoverOut(old(Snapshot()))
    {
      if !disabled {
        host := host.(cursor := Auto);
        hovered := "";
      }
    }

    /** The dispense frame callback, with the frame time `delta` in seconds. */
    method DispenseTick(delta: real)
      requires Valid() && delta >= 0.0
      modifies this
      ensures Valid() && Snapshot() == Tick(old(Snapshot()), delta)
    {
      ghost var s := Snapshot();
      if anim.trigger && host.selected in meshes && Catalog.IsItem(host.selected) {
        var key := host.selected;
        var newProgress := FrameProgress(key, anim.progress, delta);
        if newProgress >= 1.0 {
          meshes := meshes[key := Catalog.End(key)];
          anim := Animation(false, 0.0);
          timers := timers.(completion := timers.completion + 1);
        } else {
          var targetPosition := PathTarget(key, newProgress);
          meshes := meshes[key := targetPosition];
          anim := anim.(progress := newProgress);
        }
      }
      assert Snapshot() == Tick(s, delta);
      TickKeepsInv(s, delta);
    }

    /** The 1500 ms timer scheduled when a dispense lands. */
    method FireCompletionTimer()
      requires Valid()
      modifies this
      ensures Valid() && Snapshot() == FireCompletion(old(Snapshot()))
    {
      ghost var s := Snapshot();
      if timers.completion > 0 {
        timers := timers.(completion := timers.completion - 1);
        host := host.(animationComplete := true);
        disabled := false;
      }
      assert Snapshot() == FireCompletion(s);
      CompletionKeepsInv(s);
    }

    /** A 200 ms (select) or 300 ms (ok, cancel) pulse-clear timer. */
    method FirePulseTimer(p: Pulse)
      requires Valid()
      modifies this
      ensures Valid() && Snapshot() == FirePulseClear(old(Snapshot()), p)
    {
      match p
      case SelectPulse =>
        if timers.select > 0 {
          timers := timers.(select := timers.select - 1);
          pulses := pulses.(select := false);
        }
      case OkPulse =>
        if timers.ok > 0 {
          timers := timers.(ok := timers.ok - 1);
          pulses := pulses.(ok := false);
        }
      case CancelPulse =>
        if timers.cancel > 0 {
          timers := timers.(cancel := timers.cancel - 1);
          pulses := pulses.(cancel := false);
        }
    }

    /** The host sets `resetPos`. */
    method RequestReset()
      requires Valid()
      modifies this
      ensures Valid() && Snapshot() == Machine.RequestReset(old(Snapshot()))
    {
      host := host.(resetPos := true);
    }

    /** The reset effect: runs `resetPositions` when `resetPos` is set, then clears it. */
    method RunResetEffect()
      requires Valid()
      modifies this
      ensures Valid() && Snapshot() == ResetEffect(old(Snapshot()))
    {
      ghost var s := Snapshot();
      if host.resetPos {
        meshes := ResetMeshes(meshes);
        host := host.(resetPos := false);
      }
      assert Snapshot() == ResetEffect(s);
      ResetEffectKeepsInv(s);
    }
  }

  /**
   * The progress after a frame of `delta` seconds: the increment is the
   * frame time over the item's total duration in seconds, and the sum is
   * clamped at 1.
   */
  method FrameProgress(key: string, progress: real, delta: real) returns (newProgress: real)
    requires Catalog.IsItem(key)
    ensures newProgress == NextProgress(key, progress, delta)
  {
    var secondSegmentDuration := Catalog.SegmentDurations[key] as real;
    var totalDuration := Catalog.FirstSegmentMs + secondSegmentDuration;
    var progressIncrement := delta / (totalDuration / 1000.0);
    newProgress := Min(progress + progressIncrement, 1.0);
  }

  /**
   * Where the dispense tick puts the mesh at progress `newProgress`: the
   * first-segment lerp from shelf to corner below the boundary, the
   * second-segment lerp from corner to end otherwise. On the first segment
   * the mesh keeps its shelf height; on the second it keeps the corner's x.
   */
  method PathTarget(key: string, newProgress: real) returns (targetPosition: Vec3)
    requires Catalog.IsItem(key)
    ensures targetPosition == Catalog.PathPoint(key, newProgress)
    ensures 0.0 <= newProgress <= 1.0 && newProgress < Catalog.Boundary(key) ==>
      targetPosition.y == Catalog.Origin(key).y
    ensures 0.0 <= newProgress <= 1.0 && Catalog.Boundary(key) <= newProgress ==>
      targetPosition.x == Catalog.Corner(key).x
  {
    Catalog.PathIsLShaped(key, if 0.0 <= newProgress <= 1.0 then newProgress else 0.0);
    var originalPosition := Catalog.Positions[key];
    var cornerPosition := Add(originalPosition, Catalog.Offsets[key].corner);
    var endPosition := Add(originalPosition, Catalog.Offsets[key].end);
    var secondSegmentDuration := Catalog.SegmentDurations[key] as real;
    var totalDuration := Catalog.FirstSegmentMs + secondSegmentDuration;
    if newProgress < Catalog.FirstSegmentMs / totalDuration {
      var segmentProgress := newProgress / (Catalog.FirstSegmentMs / totalDuration);
      targetPosition := Lerp(originalPosition, cornerPosition, segmentProgress);
    } else {
      var segmentProgress := (newProgress - Catalog.FirstSegmentMs / totalDuration) / (secondSegmentDuration / totalDuration);
      targetPosition := Lerp(cornerPosition, endPosition, segmentProgress);
    }
  }

  /**
   * `resetPositions`: walks the registered mesh keys in order and puts each
   * mounted mesh back at its shelf position; every mounted mesh ends up on
   * its shelf and no mesh is added or removed.
   */
  method ResetMeshes(meshes: map<string, Vec3>) returns (r: map<string, Vec3>)
    requires MeshesAreItems(meshes)
    ensures r == ResetAll(meshes)
    ensures r.Keys == meshes.Keys
    ensures forall k :: k in r ==> r[k] == Catalog.Positions[k]
  {
    r := meshes;
    var i := 0;
    while i < |Catalog.ItemKeys|
      invariant 0 <= i <= |Catalog.ItemKeys|
      invariant r.Keys == meshes.Keys
      invariant forall k :: k in r ==>
        r[k] == if k in Catalog.ItemKeys[..i] then Catalog.Positions[k] else meshes[k]
    {
      var key := Catalog.ItemKeys[i];
      if key in r {
        r := r[key := Catalog.Positions[key]];
      }
      i := i + 1;
    }
    assert Catalog.ItemKeys[..i] == Catalog.ItemKeys;
    forall k | k in r
      ensures k in Catalog.ItemKeys && k in Catalog.Positions
    {
      Catalog.ItemKeysAreTheCatalog(k);
    }
  }
}
