/**
 * Properties of the component over whole schedules of events: the invariant
 * every reachable state keeps, the Idle -> Dispensing -> Settling -> Idle
 * cycle, the disabled-input gate, and the selection after a run of item
 * clicks.
 */
module Lifecycle {
  import opened Geometry
  import Catalog
  import opened Machine
  import Face

  /**
   * What holds in every reachable state: a dispense runs only with input
   * disabled and an item selected; input is disabled only while a dispense
   * runs or its completion timer is pending; at most one completion is
   * pending, and never during a dispense; progress lies in [0,1) and is 0
   * outside a dispense; a raised press pulse always has a clear timer
   * pending; only catalog items have meshes.
   */
  ghost predicate Inv(s: State) {
    && (s.anim.trigger ==> s.disabled && s.host.selected != "")
    && (s.timers.completion > 0 ==> s.disabled && !s.anim.trigger)
    && s.timers.completion <= 1
    && (s.disabled ==> s.anim.trigger || s.timers.completion == 1)
    && 0.0 <= s.anim.progress < 1.0
    && (!s.anim.trigger ==> s.anim.progress == 0.0)
    && (s.pulses.select ==> s.timers.select > 0)
    && (s.pulses.ok ==> s.timers.ok > 0)
    && (s.pulses.cancel ==> s.timers.cancel > 0)
    && MeshesAreItems(s.meshes)
  }

  lemma InitialInv(meshes: map<string, Vec3>)
    requires MeshesAreItems(meshes)
    ensures Inv(Initial(meshes))
  {
  }

  /** Every well-formed event keeps the invariant. */
  lemma StepKeepsInv(s: State, e: Event)
    requires Inv(s) && WellFormed(e)
    ensures Inv(Step(s, e))
  {
    match e
    case ClickEvent(name) => ClickKeepsInv(s, name);
    case FrameEvent(delta) => TickKeepsInv(s, delta);
    case CompletionTimerEvent => CompletionKeepsInv(s);
    case ResetEffectEvent => ResetEffectKeepsInv(s);
    case PulseTimerEvent(p) => PulseClearKeepsInv(s, p);
    case _ =>
  }

  /** A click keeps the invariant: a pulse it raises comes with its clear timer. */
  lemma ClickKeepsInv(s: State, name: string)
    requires Inv(s)
    ensures Inv(Click(s, name))
  {
  }

  /** A dispense frame keeps the invariant. */
  lemma TickKeepsInv(s: State, delta: real)
    requires Inv(s) && delta >= 0.0
    ensures Inv(Tick(s, delta))
  {
    if CanDispense(s) {
      var p := NextProgress(s.host.selected, s.anim.progress, delta);
      assert s.anim.progress <= p;
    }
  }

  /** The completion timer keeps the invariant. */
  lemma CompletionKeepsInv(s: State)
    requires Inv(s)
    ensures Inv(FireCompletion(s))
  {
  }

  /** A pulse clear timer keeps the invariant: it lowers its pulse as it is consumed. */
  lemma PulseClearKeepsInv(s: State, p: Pulse)
    requires Inv(s)
    ensures Inv(FirePulseClear(s, p))
  {
  }

  /**
   * No press pulse outlives its clear timer: in any state the invariant
   * admits, firing one clear timer of each kind brings the eyebrow and arms
   * targets back to their rest heights.
   */
  lemma PulsesReturnToRest(s: State)
    requires Inv(s)
    ensures var t := FirePulseClear(FirePulseClear(FirePulseClear(s, SelectPulse), OkPulse), CancelPulse);
      Face.EyebrowTarget(t.pulses) == Face.RestEyebrowY && Face.ArmsTarget(t.pulses) == Face.RestArmsY
  {
    var a := FirePulseClear(s, SelectPulse);
    var b := FirePulseClear(a, OkPulse);
    var c := FirePulseClear(b, CancelPulse);
    assert !a.pulses.select && a.pulses.ok == s.pulses.ok && a.pulses.cancel == s.pulses.cancel;
    assert a.timers.ok == s.timers.ok && a.timers.cancel == s.timers.cancel;
    assert !b.pulses.select && !b.pulses.ok && b.pulses.cancel == s.pulses.cancel;
    assert b.timers.cancel == s.timers.cancel;
    assert !c.pulses.select && !c.pulses.ok && !c.pulses.cancel;
  }

  /** The reset effect keeps the invariant. */
  lemma ResetEffectKeepsInv(s: State)
    requires Inv(s)
    ensures Inv(ResetEffect(s))
  {
  }

  /** Any schedule of well-formed events keeps the invariant. */
  lemma {:induction false} RunKeepsInv(s: State, es: seq<Event>)
    requires Inv(s)
    requires forall i :: 0 <= i < |es| ==> WellFormed(es[i])
    ensures Inv(Run(s, es))
    decreases |es|
  {
    if es != [] {
      StepKeepsInv(s, es[0]);
      RunKeepsInv(Step(s, es[0]), es[1..]);
    }
  }

  datatype Phase = Idle | Dispensing | Settling

  /**
   * Idle: input enabled. Dispensing: the item is falling. Settling: the item
   * has landed and the completion timer is pending; input is still disabled.
   */
  function PhaseOf(s: State): (ph: Phase)
    requires Inv(s)
    ensures ph == Idle <==> !s.disabled
    ensures ph == Dispensing <==> s.anim.trigger
    ensures ph == Settling <==> s.disabled && !s.anim.trigger && s.timers.completion == 1
  {
    if !s.disabled then Idle else if s.anim.trigger then Dispensing else Settling
  }

  /**
   * The phases only ever move forward round the cycle, each move made by
   * exactly one kind of event: an ok click with a selection starts the
   * dispense, a frame lands the item, the completion timer re-enables input
   * and raises the popup flag.
   */
  lemma PhaseCycle(s: State, e: Event)
    requires Inv(s) && WellFormed(e)
    ensures Inv(Step(s, e))
    ensures PhaseOf(s) == Idle ==> PhaseOf(Step(s, e)) != Settling
    ensures PhaseOf(s) == Idle && PhaseOf(Step(s, e)) == Dispensing ==>
      e == ClickEvent(OkButton) && s.host.selected != ""
    ensures PhaseOf(s) == Dispensing ==> PhaseOf(Step(s, e)) != Idle
    ensures PhaseOf(s) == Dispensing && PhaseOf(Step(s, e)) == Settling ==>
      e.FrameEvent? && Step(s, e).meshes[s.host.selected] == Catalog.End(s.host.selected)
    ensures PhaseOf(s) == Settling ==> PhaseOf(Step(s, e)) != Dispensing
    ensures PhaseOf(s) == Settling && PhaseOf(Step(s, e)) == Idle ==>
      e == CompletionTimerEvent && Step(s, e).host.animationComplete
  {
    StepKeepsInv(s, e);
  }

  /** Clicks and hovers: the input the disabled-button gate guards. */
  predicate IsInput(e: Event) {
    e.ClickEvent? || e.HoverInEvent? || e.HoverOutEvent?
  }

  /** While input is disabled, no sequence of clicks and hovers changes anything. */
  lemma {:induction false} DisabledInputIsIgnored(s: State, es: seq<Event>)
    requires s.disabled
    requires forall i :: 0 <= i < |es| ==> IsInput(es[i])
    ensures Run(s, es) == s
    decreases |es|
  {
    if es != [] {
      assert Step(s, es[0]) == s;
      DisabledInputIsIgnored(s, es[1..]);
    }
  }

  /** One click event per name, in order. */
  function Clicks(names: seq<string>): (es: seq<Event>)
    ensures |es| == |names|
    ensures forall i :: 0 <= i < |names| ==> es[i] == ClickEvent(names[i])
  {
    if names == [] then [] else [ClickEvent(names[0])] + Clicks(names[1..])
  }

  /** Names of item buttons: anything but ok and cancel. */
  predicate AreItemNames(names: seq<string>) {
    forall i :: 0 <= i < |names| ==> names[i] != OkButton && names[i] != CancelButton
  }

  /**
   * After any non-empty run of item clicks with input enabled, the selection
   * is the last item clicked, the message is cleared, input stays enabled,
   * nothing is dispensed, and exactly one emoji cue was played per click.
   */
  lemma {:induction false} LastItemClickWins(s: State, names: seq<string>)
    requires !s.disabled && |names| > 0 && AreItemNames(names)
    ensures Run(s, Clicks(names)).host.selected == names[|names| - 1]
    ensures Run(s, Clicks(names)).host.message == ""
    ensures !Run(s, Clicks(names)).disabled
    ensures Run(s, Clicks(names)).anim == s.anim
    ensures Run(s, Clicks(names)).cues == s.cues + seq(|names|, _ => EmojiCue)
    decreases |names|
  {
    var t := Click(s, names[0]);
    assert Clicks(names)[1..] == Clicks(names[1..]);
    if |names| > 1 {
      LastItemClickWins(t, names[1..]);
      assert seq(|names|, _ => EmojiCue) == [EmojiCue] + seq(|names| - 1, _ => EmojiCue);
    }
  }
}
