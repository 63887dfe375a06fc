/**
 * The behaviour of the vending-machine component as a pure state machine:
 * one value per moment, one function per event. The click and hover
 * handlers, the dispense frame tick, the two kinds of timer callback and the
 * reset effect each become a transition; the host decides when timers fire
 * and when frames run, and `Step`/`Run` replay any such schedule.
 */
module Machine {
  import opened Geometry
  import Catalog
  import opened Face

  datatype Cursor = Pointer | Auto

  /** The sound clips (`sounds.cancel`, `sounds.check`, `sounds.emoji`); playback is only logged. */
  datatype Cue = CancelCue | CheckCue | EmojiCue

  datatype Pulse = SelectPulse | OkPulse | CancelPulse

  const CancelButton: string := "cancel"
  const OkButton: string := "ok"
  const NoSelectionMessage: string := "Please select one of the emoji buttons."

  /**
   * The values the component shares with its host through props and setters:
   * `selectedButton`, the message, the cursor style, `animationComplete` and
   * `resetPos`.
   */
  datatype Host = Host(selected: string, message: string, cursor: Cursor, animationComplete: bool, resetPos: bool)

  /** `triggerAnimation` and `animationProgress`. */
  datatype Animation = Animation(trigger: bool, progress: real)

  /** Timers scheduled and not yet fired: the three pulse clears and the completion. */
  datatype Timers = Timers(select: nat, ok: nat, cancel: nat, completion: nat)

  /**
   * Everything the component reads or writes: the host's values, its own
   * React state (`disableButtons`, `hoveredButton`, the animation, the press
   * pulses), the positions of the mounted item meshes (`meshRefs`, keyed by
   * item), the pending timers and the log of cues played.
   */
  datatype State = State(
    host: Host,
    disabled: bool,
    hovered: string,
    anim: Animation,
    pulses: Pulses,
    timers: Timers,
    meshes: map<string, Vec3>,
    cues: seq<Cue>)

  /** Only catalog items have a mesh to register. */
  predicate MeshesAreItems(meshes: map<string, Vec3>) {
    forall k :: k in meshes ==> Catalog.IsItem(k)
  }

  /** The component as first rendered, with its item meshes mounted at `meshes`. */
  function Initial(meshes: map<string, Vec3>): (s: State)
    ensures !s.disabled && !s.anim.trigger && s.host.selected == "" && s.cues == []
  {
    State(Host("", "", Auto, false, false), false, "", Animation(false, 0.0), Pulses(false, false, false),
          Timers(0, 0, 0, 0), meshes, [])
  }

  // -------------------------------------------------------------- handlers

  /** `handleClick(name)`. */
  function Click(s: State, name: string): (t: State)
    // while buttons are disabled a click is a no-op, whatever the button
    ensures s.disabled ==> t == s
    // nothing but a click on ok ever starts the dispense or disables input
    ensures name != OkButton ==> t.anim == s.anim && t.disabled == s.disabled
    // cancel clears the selection and raises the cancel pulse
    ensures !s.disabled && name == CancelButton ==>
      t.host == s.host.(selected := "") && t.pulses == s.pulses.(cancel := true)
      && t.timers == s.timers.(cancel := s.timers.cancel + 1) && t.cues == s.cues + [CancelCue]
    // ok without a selection only shows the validation message
    ensures !s.disabled && name == OkButton && s.host.selected == "" ==>
      t == s.(host := s.host.(message := NoSelectionMessage))
    // ok with a selection starts the dispense and disables input
    ensures !s.disabled && name == OkButton && s.host.selected != "" ==>
      t.anim == s.anim.(trigger := true) && t.disabled && t.host == s.host.(cursor := Auto)
      && t.pulses == s.pulses.(ok := true) && t.timers == s.timers.(ok := s.timers.ok + 1)
      && t.cues == s.cues + [CheckCue]
    // any other button is an item: it becomes the selection and the message is cleared
    ensures !s.disabled && name != CancelButton && name != OkButton ==>
      t.host == s.host.(selected := name, message := "") && t.pulses == s.pulses.(select := true)
      && t.timers == s.timers.(select := s.timers.select + 1) && t.cues == s.cues + [EmojiCue]
    // a click never moves a mesh or touches the hover state
    ensures t.meshes == s.meshes && t.hovered == s.hovered
  {
    if s.disabled then s
    else if name == CancelButton then
      s.(cues := s.cues + [CancelCue], host := s.host.(selected := ""), pulses := s.pulses.(cancel := true),
         timers := s.timers.(cancel := s.timers.cancel + 1))
    else if name == OkButton then
      if s.host.selected == "" then s.(host := s.host.(message := NoSelectionMessage))
      else s.(cues := s.cues + [CheckCue], host := s.host.(cursor := Auto), anim := s.anim.(trigger := true),
              disabled := true, pulses := s.pulses.(ok := true), timers := s.timers.(ok := s.timers.ok + 1))
    else
      s.(host := s.host.(message := "", selected := name), cues := s.cues + [EmojiCue],
         pulses := s.pulses.(select := true), timers := s.timers.(select := s.timers.select + 1))
  }

  /** `handleHoverIn(name)`: pointer cursor and hover highlight, unless input is disabled. */
  function HoverIn(s: State, name: string): (t: State)
    ensures s.disabled ==> t == s
    ensures !s.disabled ==> t.host.cursor == Pointer && t.hovered == name
    ensures t.(host := t.host.(cursor := s.host.cursor), hovered := s.hovered) == s
  {
    if s.disabled then s else s.(host := s.host.(cursor := Pointer), hovered := name)
  }

  /** `handleHoverOut()`: default cursor and no highlight, unless input is disabled. */
  function HoverOut(s: State): (t: State)
    ensures s.disabled ==> t == s
    ensures !s.disabled ==> t.host.cursor == Auto && t.hovered == ""
    ensures t.(host := t.host.(cursor := s.host.cursor), hovered := s.hovered) == s
  {
    if s.disabled then s else s.(host := s.host.(cursor := Auto), hovered := "")
  }

  // ------------------------------------------------------- dispense tick

  /** `Math.min(a, b)` */
  function Min(a: real, b: real): (r: real)
    ensures r <= a && r <= b && (r == a || r == b)
  {
    if a <= b then a else b
  }

  /**
   * `delta / (totalDuration / 1000)`: seconds of frame time as a share of the
   * item's run. Time never gives a negative share, and the item's whole
   * duration is the whole run.
   */
  function Share(key: string, seconds: real): (r: real)
    requires Catalog.IsItem(key)
    ensures seconds >= 0.0 ==> r >= 0.0
    ensures seconds == Catalog.TotalMs(key) / 1000.0 ==> r == 1.0
  {
    seconds / (Catalog.TotalMs(key) / 1000.0)
  }

  /**
   * `animationProgress + delta / (totalDuration / 1000)`, before the clamp:
   * frame time never moves progress backwards, and frames adding up to the
   * item's total duration advance it by exactly 1.
   */
  function Advance(key: string, progress: real, delta: real): (r: real)
    requires Catalog.IsItem(key)
    ensures delta >= 0.0 ==> progress <= r
    ensures delta == Catalog.TotalMs(key) / 1000.0 ==> r == progress + 1.0
  {
    progress + Share(key, delta)
  }

  /**
   * The new progress of a dispense frame: the advanced progress clamped at 1.
   * For a non-negative frame time it never decreases and never passes 1.
   */
  function NextProgress(key: string, progress: real, delta: real): (p: real)
    requires Catalog.IsItem(key)
    ensures p <= 1.0 && p <= Advance(key, progress, delta)
    ensures p == 1.0 || p == Advance(key, progress, delta)
    ensures delta >= 0.0 && progress <= 1.0 ==> progress <= p
  {
    Min(Advance(key, progress, delta), 1.0)
  }

  /**
   * The dispense tick can act only on an item whose mesh is mounted: never
   * outside a dispense, and never with nothing selected.
   */
  predicate CanDispense(s: State)
    ensures CanDispense(s) ==> s.anim.trigger
    ensures CanDispense(s) ==> s.host.selected != "" && s.host.selected in Catalog.ItemKeys
  {
    s.anim.trigger && s.host.selected in s.meshes && Catalog.IsItem(s.host.selected)
  }

  /**
   * The dispense frame callback with frame time `delta` (seconds). Outside a
   * dispense, or without a mounted mesh for the selection, nothing happens.
   * Otherwise progress advances; below 1 the mesh is placed on the path;
   * on reaching 1 the mesh snaps to the end point, the animation stops,
   * progress returns to 0 and the completion timer is scheduled.
   */
  function Tick(s: State, delta: real): (t: State)
    ensures !CanDispense(s) ==> t == s
    // the dispense keeps running exactly while the new progress stays below 1
    ensures CanDispense(s) ==> (t.anim.trigger <==> NextProgress(s.host.selected, s.anim.progress, delta) < 1.0)
    ensures CanDispense(s) && t.anim.trigger ==>
      t.anim.progress == NextProgress(s.host.selected, s.anim.progress, delta) < 1.0
      && t.meshes == s.meshes[s.host.selected := Catalog.PathPoint(s.host.selected, t.anim.progress)]
      && t.timers == s.timers
    ensures CanDispense(s) && !t.anim.trigger ==>
      NextProgress(s.host.selected, s.anim.progress, delta) == 1.0 && t.anim.progress == 0.0
      && t.meshes == s.meshes[s.host.selected := Catalog.End(s.host.selected)]
      && t.timers == s.timers.(completion := s.timers.completion + 1)
    // a frame never touches the host's values, the input gate, the pulses or the cues
    ensures t.host == s.host && t.disabled == s.disabled && t.pulses == s.pulses && t.cues == s.cues
    ensures t.hovered == s.hovered
    ensures t.meshes.Keys == s.meshes.Keys
  {
    if !CanDispense(s) then s
    else
      var key := s.host.selected;
      var newProgress := NextProgress(key, s.anim.progress, delta);
      if newProgress >= 1.0 then
        s.(meshes := s.meshes[key := Catalog.End(key)], anim := Animation(false, 0.0),
           timers := s.timers.(completion := s.timers.completion + 1))
      else
        s.(anim := s.anim.(progress := newProgress), meshes := s.meshes[key := Catalog.PathPoint(key, newProgress)])
  }

  // ------------------------------------------------------------ timers

  /**
   * The completion timer fires: the popup flag is raised and the buttons are
   * enabled again. With no completion timer pending it does nothing.
   */
  function FireCompletion(s: State): (t: State)
    ensures s.timers.completion == 0 ==> t == s
    ensures s.timers.completion > 0 ==>
      t == s.(host := s.host.(animationComplete := true), disabled := false,
              timers := s.timers.(completion := s.timers.completion - 1))
  {
    if s.timers.completion == 0 then s
    else s.(host := s.host.(animationComplete := true), disabled := false,
            timers := s.timers.(completion := s.timers.completion - 1))
  }

  /**
   * A pulse-clear timer fires: its pulse flag drops, even if a later press
   * of the same kind scheduled another timer that is still pending. With no
   * timer of that kind pending it does nothing.
   */
  function FirePulseClear(s: State, p: Pulse): (t: State)
    ensures p == SelectPulse && s.timers.select > 0 ==>
      t.pulses == s.pulses.(select := false) && t.timers == s.timers.(select := s.timers.select - 1)
    ensures p == OkPulse && s.timers.ok > 0 ==>
      t.pulses == s.pulses.(ok := false) && t.timers == s.timers.(ok := s.timers.ok - 1)
    ensures p == CancelPulse && s.timers.cancel > 0 ==>
      t.pulses == s.pulses.(cancel := false) && t.timers == s.timers.(cancel := s.timers.cancel - 1)
    ensures ((p == SelectPulse && s.timers.select == 0) || (p == OkPulse && s.timers.ok == 0)
             || (p == CancelPulse && s.timers.cancel == 0)) ==> t == s
    // clearing a pulse touches nothing but the pulses and their timers
    ensures t.(pulses := s.pulses, timers := s.timers) == s
  {
    match p
    case SelectPulse =>
      if s.timers.select == 0 then s
      else s.(pulses := s.pulses.(select := false), timers := s.timers.(select := s.timers.select - 1))
    case OkPulse =>
      if s.timers.ok == 0 then s
      else s.(pulses := s.pulses.(ok := false), timers := s.timers.(ok := s.timers.ok - 1))
    case CancelPulse =>
      if s.timers.cancel == 0 then s
      else s.(pulses := s.pulses.(cancel := false), timers := s.timers.(cancel := s.timers.cancel - 1))
  }

  // -------------------------------------------------------------- reset

  /** Every mounted mesh of a catalog item back at its shelf position. */
  function ResetAll(meshes: map<string, Vec3>): (r: map<string, Vec3>)
    ensures r.Keys == meshes.Keys
    ensures forall k :: k in r && k in Catalog.Positions ==> r[k] == Catalog.Positions[k]
  {
    map k | k in meshes :: if k in Catalog.Positions then Catalog.Positions[k] else meshes[k]
  }

  /** Resetting meshes that are already at rest changes nothing. */
  lemma ResetAllIdempotent(meshes: map<string, Vec3>)
    ensures ResetAll(ResetAll(meshes)) == ResetAll(meshes)
  {
  }

  /** The host raises `resetPos`. */
  function RequestReset(s: State): (t: State)
    ensures t.host.resetPos && t.(host := t.host.(resetPos := s.host.resetPos)) == s
  {
    s.(host := s.host.(resetPos := true))
  }

  /**
   * The reset effect: when `resetPos` is set, every mounted mesh goes back to
   * its shelf and the flag is cleared; otherwise nothing happens.
   */
  function ResetEffect(s: State): (t: State)
    ensures !t.host.resetPos
    ensures !s.host.resetPos ==> t == s
    ensures s.host.resetPos ==> t == s.(meshes := ResetAll(s.meshes), host := s.host.(resetPos := false))
  {
    if s.host.resetPos then s.(meshes := ResetAll(s.meshes), host := s.host.(resetPos := false)) else s
  }

  /** Running the effect a second time changes nothing: the flag is already down. */
  lemma ResetEffectIdempotent(s: State)
    ensures ResetEffect(ResetEffect(s)) == ResetEffect(s)
  {
  }

  // ----------------------------------------------------------- schedules

  /** Everything that can happen to the component, one at a time. */
  datatype Event =
    | ClickEvent(name: string)
    | HoverInEvent(name: string)
    | HoverOutEvent
    | FrameEvent(delta: real)
    | CompletionTimerEvent
    | PulseTimerEvent(pulse: Pulse)
    | ResetRequestEvent
    | ResetEffectEvent

  /** Frame times are never negative. */
  predicate WellFormed(e: Event) {
    e.FrameEvent? ==> e.delta >= 0.0
  }

  function Step(s: State, e: Event): State {
    match e
    case ClickEvent(name) => Click(s, name)
    case HoverInEvent(name) => HoverIn(s, name)
    case HoverOutEvent => HoverOut(s)
    case FrameEvent(delta) => Tick(s, delta)
    case CompletionTimerEvent => FireCompletion(s)
    case PulseTimerEvent(p) => FirePulseClear(s, p)
    case ResetRequestEvent => RequestReset(s)
    case ResetEffectEvent => ResetEffect(s)
  }

  function Run(s: State, es: seq<Event>): State
    decreases |es|
  {
    if es == [] then s else Run(Step(s, es[0]), es[1..])
  }
}
