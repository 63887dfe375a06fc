/**
 * The dispense animation over a run of frames: it completes exactly when the
 * accumulated frame time reaches the item's total duration, and then the
 * item rests at its end point.
 */
module Dispense {
  import Catalog
  import opened Machine
  import opened Lifecycle

  /** Frame times in order. */
  function Sum(ds: seq<real>): real {
    if ds == [] then 0.0 else ds[0] + Sum(ds[1..])
  }

  predicate NonNegative(ds: seq<real>) {
    forall i :: 0 <= i < |ds| ==> ds[i] >= 0.0
  }

  /** `Tick` once per frame time, in order. */
  function Frames(s: State, ds: seq<real>): State
    decreases |ds|
  {
    if ds == [] then s else Frames(Tick(s, ds[0]), ds[1..])
  }

  /** Frames are `FrameEvent`s of the general schedule. */
  lemma {:induction false} FramesAreRun(s: State, ds: seq<real>)
    ensures Frames(s, ds) == Run(s, seq(|ds|, i requires 0 <= i < |ds| => FrameEvent(ds[i])))
    decreases |ds|
  {
    var es := seq(|ds|, i requires 0 <= i < |ds| => FrameEvent(ds[i]));
    if ds != [] {
      FramesAreRun(Tick(s, ds[0]), ds[1..]);
      assert es[1..] == seq(|ds| - 1, i requires 0 <= i < |ds| - 1 => FrameEvent(ds[1..][i]));
    }
  }

  lemma ShareAdds(key: string, a: real, b: real)
    requires Catalog.IsItem(key)
    ensures Share(key, a) + Share(key, b) == Share(key, a + b)
  {
  }

  /**
   * A frame that leaves the dispense running never moves progress backwards,
   * and progress stays in [0,1).
   */
  lemma ProgressNeverDecreases(s: State, delta: real)
    requires Inv(s) && delta >= 0.0
    ensures Tick(s, delta).anim.trigger ==>
      s.anim.progress <= Tick(s, delta).anim.progress < 1.0
  {
    TickKeepsInv(s, delta);
    if CanDispense(s) {
      var p := NextProgress(s.host.selected, s.anim.progress, delta);
      assert s.anim.progress <= p;
    }
  }

  /** Without a dispense running, frames change nothing. */
  lemma {:induction false} IdleFramesChangeNothing(s: State, ds: seq<real>)
    requires !s.anim.trigger
    ensures Frames(s, ds) == s
    decreases |ds|
  {
    if ds != [] {
      IdleFramesChangeNothing(Tick(s, ds[0]), ds[1..]);
    }
  }

  /**
   * Before the accumulated frame time reaches the run's total duration, the
   * item is still falling: its progress is exactly the time elapsed as a
   * share of the total, and its mesh is on the path at that progress.
   */
  lemma {:induction false} FramesBeforeEnd(s: State, ds: seq<real>)
    requires Inv(s) && CanDispense(s) && NonNegative(ds)
    requires s.anim.progress + Share(s.host.selected, Sum(ds)) < 1.0
    ensures Frames(s, ds).anim.trigger
    ensures Frames(s, ds).anim.progress == s.anim.progress + Share(s.host.selected, Sum(ds))
    ensures ds != [] ==> Frames(s, ds).meshes == s.meshes[s.host.selected := Catalog.PathPoint(s.host.selected, Frames(s, ds).anim.progress)]
    ensures Frames(s, ds).timers == s.timers
    decreases |ds|
  {
    var key := s.host.selected;
    if ds != [] {
      var rest := ds[1..];
      assert NonNegative(rest) by { assert forall i :: 0 <= i < |rest| ==> rest[i] == ds[i + 1]; }
      SumNonNegative(rest);
      ShareAdds(key, ds[0], Sum(rest));
      ShareNonNegative(key, Sum(rest));
      var t := Tick(s, ds[0]);
      FrameBeforeEnd(s, ds[0]);
      FramesBeforeEnd(t, rest);
      if rest == [] {
        assert Frames(t, rest) == t;
      } else {
        assert t.meshes[key := Catalog.PathPoint(key, Frames(t, rest).anim.progress)]
            == s.meshes[key := Catalog.PathPoint(key, Frames(t, rest).anim.progress)];
      }
    }
  }

  /** One frame that does not reach the end: progress advances by its share and the mesh is on the path. */
  lemma FrameBeforeEnd(s: State, delta: real)
    requires Inv(s) && CanDispense(s) && delta >= 0.0
    requires s.anim.progress + Share(s.host.selected, delta) < 1.0
    ensures var t := Tick(s, delta);
      Inv(t) && CanDispense(t) && t.host == s.host && t.timers == s.timers
      && t.anim.progress == s.anim.progress + Share(s.host.selected, delta)
      && t.meshes == s.meshes[s.host.selected := Catalog.PathPoint(s.host.selected, t.anim.progress)]
  {
    TickKeepsInv(s, delta);
    assert NextProgress(s.host.selected, s.anim.progress, delta) == s.anim.progress + Share(s.host.selected, delta);
  }

  /**
   * Once the accumulated frame time reaches the run's total duration, the
   * dispense is over: the mesh is exactly at `origin + endOffset`, the
   * animation has stopped with progress back at 0, one completion timer is
   * pending, and input is still disabled until it fires.
   */
  lemma {:induction false} FramesReachEnd(s: State, ds: seq<real>)
    requires Inv(s) && CanDispense(s) && NonNegative(ds)
    requires s.anim.progress + Share(s.host.selected, Sum(ds)) >= 1.0
    ensures !Frames(s, ds).anim.trigger && Frames(s, ds).anim.progress == 0.0
    ensures Frames(s, ds).meshes == s.meshes[s.host.selected := Catalog.End(s.host.selected)]
    ensures Frames(s, ds).timers == s.timers.(completion := s.timers.completion + 1)
    ensures Frames(s, ds).disabled && Frames(s, ds).host == s.host
    decreases |ds|
  {
    var key := s.host.selected;
    assert ds != [];
    var rest := ds[1..];
    assert NonNegative(rest) by { assert forall i :: 0 <= i < |rest| ==> rest[i] == ds[i + 1]; }
    var t := Tick(s, ds[0]);
    TickKeepsInv(s, ds[0]);
    assert Step(s, FrameEvent(ds[0])) == t;
    if t.anim.trigger {
      ShareAdds(key, ds[0], Sum(rest));
      FramesReachEnd(t, rest);
      assert t.meshes[key := Catalog.End(key)] == s.meshes[key := Catalog.End(key)];
    } else {
      IdleFramesChangeNothing(t, rest);
    }
  }

  lemma {:induction false} SumNonNegative(ds: seq<real>)
    requires NonNegative(ds)
    ensures Sum(ds) >= 0.0
  {
    if ds != [] {
      var rest := ds[1..];
      assert NonNegative(rest) by { assert forall i :: 0 <= i < |rest| ==> rest[i] == ds[i + 1]; }
      SumNonNegative(rest);
    }
  }

  lemma ShareNonNegative(key: string, a: real)
    requires Catalog.IsItem(key) && a >= 0.0
    ensures Share(key, a) >= 0.0
  {
  }

}
