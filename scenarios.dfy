/**
 * End-to-end scenarios of the component from its first render: a complete
 * select-confirm-dispense cycle for the smiley item, a confirm with nothing
 * selected, and a change of selection before confirming.
 */
module Scenarios {
  import opened Geometry
  import Catalog
  import opened Machine
  import opened Lifecycle

  /** Running one more event is one more step. */
  lemma {:induction false} RunSnoc(s: State, es: seq<Event>, e: Event)
    ensures Run(s, es + [e]) == Step(Run(s, es), e)
    decreases |es|
  {
    if es == [] {
      assert Run(Step(s, e), []) == Step(s, e);
    } else {
      assert (es + [e])[1..] == es[1..] + [e];
      RunSnoc(Step(s, es[0]), es[1..], e);
    }
  }

  /** Running two more events is two more steps. */
  lemma RunTwoMore(s: State, es: seq<Event>, e: Event, f: Event)
    ensures Run(s, es + [e, f]) == Step(Step(Run(s, es), e), f)
  {
    RunSnoc(s, es, e);
    RunSnoc(s, es + [e], f);
    assert es + [e] + [f] == es + [e, f];
  }

  /** Moving a mesh twice leaves it where the second move put it. */
  lemma UpdateTwice(m: map<string, Vec3>, k: string, a: Vec3, b: Vec3)
    ensures m[k := a][k := b] == m[k := b]
  {
  }

  /** A frame event steps by the dispense tick. */
  lemma StepIsTick(s: State, delta: real)
    ensures Step(s, FrameEvent(delta)) == Tick(s, delta)
  {
  }

  /** The first smiley frame: 500 ms of an 1100 ms run reaches the corner exactly, at progress 5/11. */
  lemma SmileyFirstFrame(s: State)
    requires Inv(s) && s.anim.trigger && s.host.selected == "smiley" && "smiley" in s.meshes
    requires s.anim.progress == 0.0
    ensures var t := Tick(s, 0.5);
      Inv(t) && t.anim.trigger && t.anim.progress == 5.0 / 11.0 && t.host == s.host && t.disabled == s.disabled
      && t.timers == s.timers && t.meshes == s.meshes["smiley" := Catalog.Corner("smiley")]
  {
    assert Catalog.TotalMs("smiley") == 1100.0;
    assert Share("smiley", 0.5) == 5.0 / 11.0;
    assert Catalog.Boundary("smiley") == 5.0 / 11.0;
    assert NextProgress("smiley", 0.0, 0.5) == 5.0 / 11.0;
    Catalog.PathTurnsAtCorner("smiley");
    TickKeepsInv(s, 0.5);
  }

  /** The second smiley frame: 600 ms more completes the run and lands smiley at its end point. */
  lemma SmileySecondFrame(s: State)
    requires Inv(s) && s.anim.trigger && s.host.selected == "smiley" && "smiley" in s.meshes
    requires s.anim.progress == 5.0 / 11.0
    ensures var t := Tick(s, 0.6);
      !t.anim.trigger && t.meshes == s.meshes["smiley" := Vec3(1.581, 0.954, 0.368)]
      && t.host == s.host && t.disabled == s.disabled && t.timers.completion == s.timers.completion + 1
  {
    assert Catalog.TotalMs("smiley") == 1100.0;
    assert Share("smiley", 0.6) == 6.0 / 11.0;
    assert NextProgress("smiley", 5.0 / 11.0, 0.6) == 1.0;
    assert Catalog.End("smiley") == Vec3(1.581, 0.954, 0.368);
  }

  /** The smiley dispense: 500 ms of frame time reaches the corner exactly, 600 ms more the end. */
  lemma SmileyFrames(s: State)
    requires Inv(s) && s.anim.trigger && s.host.selected == "smiley" && "smiley" in s.meshes
    requires s.anim.progress == 0.0
    ensures var t := Step(s, FrameEvent(0.5));
      t.anim.trigger && t.meshes == s.meshes["smiley" := Catalog.Corner("smiley")]
    ensures var t := Step(Step(s, FrameEvent(0.5)), FrameEvent(0.6));
      !t.anim.trigger && t.meshes == s.meshes["smiley" := Vec3(1.581, 0.954, 0.368)]
      && t.host == s.host && t.disabled == s.disabled && t.timers.completion == s.timers.completion + 1
  {
    SmileyFirstFrame(s);
    var t := Tick(s, 0.5);
    StepIsTick(s, 0.5);
    SmileySecondFrame(t);
    StepIsTick(t, 0.6);
    UpdateTwice(s.meshes, "smiley", Catalog.Corner("smiley"), Vec3(1.581, 0.954, 0.368));
  }

  /** Select smiley, then confirm: the dispense has started from the shelf and input is disabled. */
  lemma SmileyConfirmed(meshes: map<string, Vec3>)
    requires MeshesAreItems(meshes) && "smiley" in meshes
    ensures var s := Run(Initial(meshes), [ClickEvent("smiley"), ClickEvent(OkButton)]);
      Inv(s) && s.anim.trigger && s.anim.progress == 0.0 && s.host.selected == "smiley"
      && s.disabled && !s.host.animationComplete && s.meshes == meshes && s.timers.completion == 0
  {
    var e1, e2 := ClickEvent("smiley"), ClickEvent(OkButton);
    var s0 := Initial(meshes);
    InitialInv(meshes);
    RunSnoc(s0, [], e1);
    assert Run(s0, [e1]) == Click(s0, "smiley") by { assert [] + [e1] == [e1]; }
    RunSnoc(s0, [e1], e2);
    assert [e1] + [e2] == [e1, e2];
    RunKeepsInv(s0, [e1, e2]);
  }

  /**
   * Select smiley, confirm, then frames of 500 ms and 600 ms: the mesh
   * rests exactly at `origin + endOffset`, the animation has stopped, and
   * input is still disabled with the popup flag down until the completion
   * timer fires.
   */
  lemma SmileyLanded(meshes: map<string, Vec3>)
    requires MeshesAreItems(meshes) && "smiley" in meshes
    ensures var s := Run(Initial(meshes), [ClickEvent("smiley"), ClickEvent(OkButton), FrameEvent(0.5), FrameEvent(0.6)]);
      !s.anim.trigger && s.disabled && !s.host.animationComplete && s.timers.completion == 1
      && s.meshes == meshes["smiley" := Vec3(1.581, 0.954, 0.368)]
  {
    var confirm := [ClickEvent("smiley"), ClickEvent(OkButton)];
    SmileyConfirmed(meshes);
    SmileyFrames(Run(Initial(meshes), confirm));
    RunTwoMore(Initial(meshes), confirm, FrameEvent(0.5), FrameEvent(0.6));
    assert confirm + [FrameEvent(0.5), FrameEvent(0.6)]
        == [ClickEvent("smiley"), ClickEvent(OkButton), FrameEvent(0.5), FrameEvent(0.6)];
  }

  /** The same cycle followed by the completion timer: the popup flag is raised and input is enabled again. */
  lemma SmileyScenario(meshes: map<string, Vec3>)
    requires MeshesAreItems(meshes) && "smiley" in meshes
    ensures var s := Run(Initial(meshes), [ClickEvent("smiley"), ClickEvent(OkButton), FrameEvent(0.5), FrameEvent(0.6),
                                          CompletionTimerEvent]);
      s.host.animationComplete && !s.disabled && s.meshes == meshes["smiley" := Vec3(1.581, 0.954, 0.368)]
  {
    var es := [ClickEvent("smiley"), ClickEvent(OkButton), FrameEvent(0.5), FrameEvent(0.6)];
    SmileyLanded(meshes);
    RunSnoc(Initial(meshes), es, CompletionTimerEvent);
    assert es + [CompletionTimerEvent] == [ClickEvent("smiley"), ClickEvent(OkButton), FrameEvent(0.5), FrameEvent(0.6),
                                          CompletionTimerEvent];
  }

  /** Confirm with nothing selected: the validation message, no cue, no dispense, input still enabled. */
  lemma ConfirmWithoutSelectionScenario(meshes: map<string, Vec3>)
    requires MeshesAreItems(meshes)
    ensures var s := Run(Initial(meshes), [ClickEvent(OkButton)]);
      s.host.message == NoSelectionMessage && !s.anim.trigger && !s.disabled && s.cues == []
  {
    RunSnoc(Initial(meshes), [], ClickEvent(OkButton));
  }

  /** Select one item, then another before confirming: the second is selected, one cue per click. */
  lemma ReselectScenario(meshes: map<string, Vec3>, a: string, b: string)
    requires MeshesAreItems(meshes)
    requires a != OkButton && a != CancelButton && b != OkButton && b != CancelButton
    ensures var s := Run(Initial(meshes), [ClickEvent(a), ClickEvent(b)]);
      s.host.selected == b && s.cues == [EmojiCue, EmojiCue]
  {
    LastItemClickWins(Initial(meshes), [a, b]);
    assert Clicks([a, b]) == [ClickEvent(a), ClickEvent(b)];
    assert seq(2, _ => EmojiCue) == [EmojiCue, EmojiCue];
  }
}
