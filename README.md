# vm-pr vending machine: a verified model of the component's behaviour

vm-pr renders an animated vending machine in the browser. The behaviour lives in
one React component, `Model` (`src/components/Model.js`):

- Item buttons select one of five emoji items. Ok dispenses the selection and cancel clears it.
- While a dispense runs, input is disabled. The item's mesh slides out along an
  L-shaped path and drops into the tray.
- After a pause, the host is told the animation is complete and input is enabled again.
- The character's eye glimmers follow the pointer within fixed bounds.
- The character's eyebrows and arms ease towards heights chosen by short press pulses.
- A reset flag from the host puts every item back on its shelf.
- The selected button's materials glow.

This project models that behaviour in Dafny over exact reals. It has three layers:

- **`Machine`** is the specification: a `State` value and one transition function per
  event. The events are a click, a hover in or out, a frame, each kind of timer
  callback, and the reset request and effect. `Step`/`Run` replay any schedule of
  events the host may produce.
- **`Widget.VendingMachine`** and **`Face.FaceRig`** are the imperative side. They are
  classes whose fields are the component's state and its scene nodes, and their
  methods update those fields in place, as the handlers and frame callbacks do.
  - Each `VendingMachine` method is proved to reach exactly the state the matching
    `Machine` transition gives, and to keep the lifecycle invariant.
  - `resetPositions` is a loop over the registered keys.
- **`Lifecycle`, `Dispense` and `Scenarios`** prove properties over whole runs:
  - the invariant of every reachable state;
  - the Idle → Dispensing → Settling → Idle cycle;
  - the disabled-input gate and the last-click-wins selection;
  - when a dispense completes, and where the item then rests;
  - concrete end-to-end runs from the first render.

`Catalog` holds the item tables and the L-shaped path. `Geometry` holds vectors and
`lerpVectors`. `Glow` holds `getMaterialWithGlow`.

Timers are not clocks here. Each `setTimeout` adds one pending timer of its kind, and
the host fires pending timers as events, in any order. A timer firing with none of
its kind pending does nothing.

## Model

| member | source | states |
|---|---|---|
| Geometry.Add | src/components/Model.js:169-170 | `a.clone().add(b)` is the point whose displacement from `a` is exactly `b`, component by component. A zero offset gives `a` back. |
| Geometry.Lerp | src/components/Model.js:182-186 | `lerpVectors` starts at `a` (fraction 0) and ends at `b` (fraction 1). For a fraction in [0,1], every component lies between the two endpoints. |
| Geometry.LerpBetween | src/components/Model.js:182-186 | One lerp component with a fraction in [0,1] never leaves the segment between its endpoints, whichever endpoint is larger. |
| Geometry.LerpSteps | src/components/Model.js:182-186 | `lerpVectors` is linear, with no easing. Moving the fraction from `s` to `t` moves each component by exactly `t - s` times the whole displacement from `a` to `b`. |
| Catalog.ItemKeysAreTheCatalog | src/components/Model.js:107-140 | The mesh registry keys, `positions`, `offsets` and `segmentDurations` cover exactly the same five items. A key is in any one of them exactly when it is in each of the others. |
| Catalog.Origin | src/components/Model.js:107-113 | `new THREE.Vector3(...positions[key])` is the item's shelf position. No other item has the same slot, and every slot lies inside the shelf block (x in (1, 1.2), y in (2.5, 5), z in (-0.7, 1.4)). |
| Catalog.Corner | src/components/Model.js:169 | `origin + cornerOffset` lies half a unit to the right of the shelf, at the same height and depth. |
| Catalog.End | src/components/Model.js:170 | `origin + endOffset` lies straight below the corner, at the shelf's depth. It is between 1.6 and 4 units below the shelf. |
| Catalog.TotalMs | src/components/Model.js:164-173 | The total duration of every item's run is longer than the 500 ms first segment. |
| Catalog.Boundary | src/components/Model.js:179 | The corner is reached strictly between progress 0 and 1. |
| Catalog.SecondShare | src/components/Model.js:185 | The second segment's share of the total duration is exactly the rest of the run after the boundary. |
| Catalog.FirstFraction | src/components/Model.js:179-181 | The first segment's `segmentProgress` is the progress over the boundary. It lies in [0,1) whenever the progress is in [0, boundary). |
| Catalog.SecondFraction | src/components/Model.js:183-185 | The second segment's `segmentProgress` is the progress past the boundary over the second segment's share. It lies in [0,1] whenever the progress is in [boundary, 1]. |
| Catalog.FirstFractionInRange | src/components/Model.js:179-182 | Below the boundary, the local fraction of the first segment lies in [0,1). |
| Catalog.SecondFractionInRange | src/components/Model.js:183-186 | From the boundary up to 1, the local fraction of the second segment lies in [0,1]. |
| Catalog.PathPoint | src/components/Model.js:179-187 | The point the tick computes from the segment choice and lerp. For any progress it keeps the shelf's depth. Below the boundary it keeps the shelf's height, and from the boundary on it keeps the corner's x. |
| Catalog.PathStartsAtShelf | src/components/Model.js:168-182 | At progress 0 the path point is the item's shelf position. |
| Catalog.PathTurnsAtCorner | src/components/Model.js:169-186 | At the boundary the path point is exactly `origin + cornerOffset`, so the two segments meet. |
| Catalog.PathEndsAtEnd | src/components/Model.js:170-193 | At progress 1 the lerp already gives `origin + endOffset`, so the snap at completion agrees with the path. |
| Catalog.PathIsLShaped | src/components/Model.js:125-186 | For every item and progress in [0,1], the depth never changes. On the first segment only x moves, from shelf towards corner. On the second only y moves, from corner towards end. |
| Catalog.PathIsLinear | src/components/Model.js:179-186 | Each segment is covered at constant speed. On the first, x is the shelf's x plus half a unit times `progress / boundary`. On the second, y is the corner's height plus the drop times `(progress - boundary) / (1 - boundary)`. |
| Face.Clamp | src/components/Model.js:75-84 | For an ordered interval, `clamp` lands inside it. It returns the value itself when the value is inside, and the nearer bound otherwise. |
| Face.RawY | src/components/Model.js:72 | The unclamped height `newY` is 6.172 for a centred pointer. It lies within [6.36, 6.6] exactly for pointer heights in [0.376, 0.856]. |
| Face.RawLeftZ | src/components/Model.js:73 | The unclamped left depth `newZ` is 1.131 for a centred pointer. It lies within [1.11, 1.25] exactly for pointer x in [-0.238, 0.042]. |
| Face.RawRightZ | src/components/Model.js:81 | The unclamped right depth `newZ` is -0.502 for a centred pointer. It lies within [-0.52, -0.38] exactly for pointer x in [-0.244, 0.036]. |
| Face.GlimmerY | src/components/Model.js:72-83 | For any pointer sample, both glimmers' heights lie in [6.36, 6.6]. |
| Face.LeftGlimmerZ | src/components/Model.js:73-76 | For any pointer sample, the left glimmer's depth lies in [1.11, 1.25]. |
| Face.RightGlimmerZ | src/components/Model.js:81-84 | For any pointer sample, the right glimmer's depth lies in [-0.52, -0.38]. |
| Face.ClampMonotone | src/components/Model.js:75-84 | Clamping never reverses the order of two inputs. |
| Face.GlimmersFollowPointer | src/components/Model.js:72-84 | Moving the pointer up never lowers the glimmers. Moving it right never increases either glimmer's depth. |
| Face.CentredPointerRestsLow | src/components/Model.js:72-84 | With the pointer centred, the glimmers sit at the lower height bound 6.36, because the unclamped 6.172 is below it. The depths are the unclamped 1.131 and -0.502. |
| Face.PlaceGlimmer | src/components/Model.js:75-76 | The eye tick writes the given y and z of a glimmer and keeps its x. |
| Face.EyesFollowLatestSample | src/components/Model.js:71-85 | The eye tick keeps no memory of earlier samples. For both glimmers, placing for one sample and then another equals placing for the second alone. So repeating a tick changes nothing. |
| Face.EyebrowTarget | src/components/Model.js:90 | The eyebrow target is 6.8 for select, 6.95 for ok and 6.65 for cancel, in that priority. It is the rest height 6.716 exactly when no pulse is raised. |
| Face.ArmsTarget | src/components/Model.js:91 | The arms target is 3.8 for ok and 3.3 for cancel, and ignores select. It is the rest height 3.418 exactly when neither ok nor cancel is raised. |
| Face.EaseStep | src/components/Model.js:94-102 | One easing frame leaves exactly 0.9 of the gap to the target and does not overshoot. |
| Face.EaseFrames | src/components/Model.js:89-104 | After n frames towards a fixed target, the gap is 0.9^n of the original, and the height stays between its start and the target. |
| Face.EaseNode | src/components/Model.js:93-103 | A mounted node's y becomes one easing frame towards the target, with x and z kept. An absent node stays absent. |
| Face.FaceRig.constructor | src/components/Model.js:22-26 | The five face refs start as given: each is either an attached node or absent. |
| Face.FaceRig.EyeTick | src/components/Model.js:58-86 | Each mounted glimmer gets the clamped y and z of the sample, with x kept. Absent glimmers, the eyebrows and the arms are untouched. |
| Face.FaceRig.EaseTick | src/components/Model.js:89-104 | The arms and both eyebrows, where mounted, each ease one frame towards their pulse-chosen target. The eyes are untouched. |
| Machine.Initial | src/components/Model.js:14-20 | On first render, input is enabled (`disableButtons` false), nothing is dispensing (`triggerAnimation` false) and no cue has played. The host props start as the values assumed under "## Left out", so nothing is selected. |
| Machine.Click | src/components/Model.js:223-260 | While disabled, a click is a no-op. Only ok with a selection starts the dispense and disables input, and no other click touches either. Cancel clears the selection. Ok without a selection only sets the message "Please select one of the emoji buttons.". Any other name becomes the selection and clears the message. Each accepted press raises exactly its own pulse, schedules exactly one pulse-clear timer of its kind, and logs its cue. Other pulses and timers, the completion timer included, stay as they were. Meshes and hover never change. |
| Machine.HoverIn | src/components/Model.js:207-212 | While disabled, nothing changes. Otherwise the cursor becomes the pointer and the hovered button is the given name, and nothing else changes. |
| Machine.HoverOut | src/components/Model.js:215-220 | While disabled, nothing changes. Otherwise the cursor returns to auto and no button is hovered, and nothing else changes. |
| Machine.Min | src/components/Model.js:176 | `Math.min` is one of its arguments and bounds both. |
| Machine.Share | src/components/Model.js:175 | `progressIncrement` is the frame time over the item's total duration in seconds. A non-negative frame time gives a non-negative share, and the whole duration gives exactly 1. |
| Machine.Advance | src/components/Model.js:175 | Adding the frame increment never moves progress backwards for a non-negative frame time. A frame as long as the item's whole run advances progress by exactly 1. |
| Machine.NextProgress | src/components/Model.js:175-176 | The new progress is `min(advanced, 1)`: at most 1 and at most the advanced value, and equal to one of them. For a non-negative frame time it never falls below the old progress. |
| Machine.CanDispense | src/components/Model.js:161-166 | A frame acts only while `triggerAnimation` is set and the selected item's mesh is mounted (`if (group)`). So it never acts outside a dispense, and never with nothing selected or a key outside the item registry. |
| Machine.Tick | src/components/Model.js:160-204 | Without a running dispense and a mounted selected mesh, nothing changes. Otherwise the dispense keeps running exactly while the new progress stays below 1. Below 1, the progress advances and the mesh moves to the path point at that progress. On reaching 1, the mesh is exactly at its end point, the animation stops, progress returns to 0 and one completion timer is scheduled. A frame never touches the host values, the input gate, the pulses, the hover or the cues. |
| Machine.FireCompletion | src/components/Model.js:197-200 | A pending completion timer raises `animationComplete`, enables input and is consumed. With none pending, nothing happens. |
| Machine.FirePulseClear | src/components/Model.js:229-257 | A pending pulse-clear timer drops its own pulse and is consumed. This happens even if a later press of the same kind is still pending. With none pending, nothing happens. Nothing but the pulses and timers changes. |
| Machine.ResetAll | src/components/Model.js:144-151 | Every registered mesh is at its shelf position. No mesh is added or removed. |
| Machine.ResetAllIdempotent | src/components/Model.js:144-151 | Resetting twice equals resetting once. |
| Machine.RequestReset | src/components/Model.js:153 | The host raising `resetPos` changes nothing but that flag. |
| Machine.ResetEffect | src/components/Model.js:143-157 | Afterwards the flag is down. With the flag down, nothing changes. With it up, the meshes are reset and nothing else changes. |
| Machine.ResetEffectIdempotent | src/components/Model.js:143-157 | Running the reset effect twice equals running it once. |
| Lifecycle.InitialInv | src/components/Model.js:14-20 | The first render satisfies the lifecycle invariant. |
| Lifecycle.StepKeepsInv | src/components/Model.js:160-260 | Every event keeps the invariant, given a non-negative frame time. A running dispense has input disabled and a non-empty selection. Input is disabled only while dispensing or with a completion pending. At most one completion is pending, and never during a dispense. Progress lies in [0,1), and is 0 outside a dispense. A raised select, ok or cancel pulse always has a clear timer of its kind pending. |
| Lifecycle.ClickKeepsInv | src/components/Model.js:223-260 | A click keeps the invariant. A pulse it raises comes with its clear timer, and ok disables input only together with starting the dispense. |
| Lifecycle.PulseClearKeepsInv | src/components/Model.js:229-257 | A pulse-clear timer keeps the invariant, lowering its pulse as it is consumed. |
| Lifecycle.CompletionKeepsInv | src/components/Model.js:197-200 | The completion timer keeps the invariant, enabling input only once the dispense is over. |
| Lifecycle.ResetEffectKeepsInv | src/components/Model.js:143-157 | The reset effect keeps the invariant. |
| Lifecycle.PulsesReturnToRest | src/components/Model.js:229-257 | No press pulse outlives its timer. In any state the invariant admits, firing one clear timer of each kind brings both the eyebrow and the arms target back to their rest heights. |
| Lifecycle.TickKeepsInv | src/components/Model.js:160-204 | A dispense frame keeps the invariant. |
| Lifecycle.RunKeepsInv | src/components/Model.js:160-260 | Every schedule of well-formed events keeps the invariant, so it holds in every state reachable from the first render. |
| Lifecycle.PhaseOf | src/components/Model.js:192-242 | Under the invariant, the component is in exactly one of three phases. Idle means input is enabled. Dispensing means the animation runs. Settling means the item has landed and one completion is pending. |
| Lifecycle.PhaseCycle | src/components/Model.js:192-242 | Phases only move forward round the cycle Idle → Dispensing → Settling → Idle. Only ok with a selection starts a dispense. Only a frame lands the item, at its end point. Only the completion timer re-enables input, raising `animationComplete`. |
| Lifecycle.DisabledInputIsIgnored | src/components/Model.js:207-224 | While disabled, any sequence of clicks and hovers changes nothing. |
| Lifecycle.Clicks | src/components/Model.js:223 | One click event per name, in order. |
| Lifecycle.LastItemClickWins | src/components/Model.js:249-257 | After any non-empty run of item clicks with input enabled, the selection is the last item clicked and the message is clear. Input stays enabled and nothing is dispensed. Exactly one emoji cue plays per click. |
| Dispense.FramesAreRun | src/components/Model.js:160 | Running frames is running frame events through the general schedule. |
| Dispense.ShareAdds | src/components/Model.js:175 | Progress increments add up: two frames advance exactly as far as one frame with their summed time. |
| Dispense.ProgressNeverDecreases | src/components/Model.js:173-177 | A frame that keeps the dispense running never moves progress backwards, and progress stays below 1. |
| Dispense.IdleFramesChangeNothing | src/components/Model.js:161 | Without a running dispense, any frames change nothing. |
| Dispense.FrameBeforeEnd | src/components/Model.js:173-189 | One frame that does not reach the end keeps the invariant and the dispense running. Progress advances by exactly the frame's share and the mesh moves onto the path. |
| Dispense.FramesBeforeEnd | src/components/Model.js:173-189 | Before the summed frame time reaches the item's total duration, the dispense still runs. Its progress is exactly the elapsed share of the total, the mesh is on the path at that progress, and no completion is scheduled. |
| Dispense.FramesReachEnd | src/components/Model.js:173-201 | Once the summed frame time reaches the total duration, the mesh rests exactly at `origin + endOffset`. The animation has stopped with progress 0, one completion is pending, and input stays disabled with the host values untouched. |
| Dispense.SumNonNegative | src/components/Model.js:175 | Non-negative frame times sum to a non-negative time. |
| Dispense.ShareNonNegative | src/components/Model.js:175 | A non-negative time is a non-negative share of the run. |
| Scenarios.RunSnoc | src/components/Model.js:160-260 | Running one more event is one more step. |
| Scenarios.RunTwoMore | src/components/Model.js:160-260 | Running two more events is two more steps. |
| Scenarios.SmileyFirstFrame | src/components/Model.js:175-189 | For smiley (an 1100 ms run), a 500 ms first frame reaches progress 5/11, exactly the corner, and the dispense keeps running. |
| Scenarios.SmileySecondFrame | src/components/Model.js:175-200 | From progress 5/11, a 600 ms frame completes smiley's run. It lands at (1.581, 0.954, 0.368) and schedules the completion. |
| Scenarios.SmileyFrames | src/components/Model.js:107-201 | For smiley, 500 ms of frames reaches the corner exactly. 600 ms more lands it at (1.581, 0.954, 0.368) and schedules the completion. |
| Scenarios.SmileyConfirmed | src/components/Model.js:233-257 | Selecting smiley and pressing ok from the first render starts the dispense from the shelf with input disabled. |
| Scenarios.SmileyLanded | src/components/Model.js:160-201 | Select, ok, then 500 ms and 600 ms of frames land smiley at its end point. Input stays disabled and the popup flag down. |
| Scenarios.SmileyScenario | src/components/Model.js:197-200 | The completion timer then raises `animationComplete` and enables input, with smiley still in the tray. |
| Scenarios.ConfirmWithoutSelectionScenario | src/components/Model.js:233-236 | Ok from the first render shows the validation message and plays nothing. Nothing dispenses and input stays enabled. |
| Scenarios.ReselectScenario | src/components/Model.js:249-257 | Two item clicks leave the second item selected, with one emoji cue per click. |
| Glow.MaterialWithGlow | src/components/Model.js:263-273 | A missing material stays absent. A present one keeps its name and colour, and glows `#fae` at 0.25 exactly when its button is the selection, otherwise black at 0. |
| Glow.OnlySelectionGlows | src/components/Model.js:263-270 | Only materials of the selected button glow, so at most one button glows at a time. |
| Widget.VendingMachine.constructor | src/components/Model.js:14-20 | The first render satisfies the invariant and is `Machine.Initial`. |
| Widget.VendingMachine.HandleClick | src/components/Model.js:223-260 | Updating the fields one setter at a time reaches exactly `Machine.Click`'s state and keeps the invariant. |
| Widget.VendingMachine.HandleHoverIn | src/components/Model.js:207-212 | The in-place update reaches exactly `Machine.HoverIn`'s state. |
| Widget.VendingMachine.HandleHoverOut | src/components/Model.js:215-220 | The in-place update reaches exactly `Machine.HoverOut`'s state. |
| Widget.VendingMachine.DispenseTick | src/components/Model.js:160-204 | The frame callback reaches exactly `Machine.Tick`'s state and keeps the invariant. |
| Widget.VendingMachine.FireCompletionTimer | src/components/Model.js:197-200 | The completion callback reaches exactly `Machine.FireCompletion`'s state and keeps the invariant. |
| Widget.VendingMachine.FirePulseTimer | src/components/Model.js:229-257 | The pulse-clear callbacks reach exactly `Machine.FirePulseClear`'s state. |
| Widget.VendingMachine.RequestReset | src/components/Model.js:153 | The host's flag write reaches exactly `Machine.RequestReset`'s state. |
| Widget.VendingMachine.RunResetEffect | src/components/Model.js:143-157 | The effect reaches exactly `Machine.ResetEffect`'s state and keeps the invariant. |
| Widget.FrameProgress | src/components/Model.js:164-176 | The increment and clamp computed step by step equal `Machine.NextProgress`. |
| Widget.PathTarget | src/components/Model.js:168-187 | The target position computed branch by branch equals the path point. On the first segment it keeps the shelf height, and on the second the corner's x. |
| Widget.ResetMeshes | src/components/Model.js:144-151 | The loop over the registered keys puts every mounted mesh at its shelf position, with none added or removed, and equals `Machine.ResetAll`. |

## Left out

- The JSX scene graph (`src/components/Model.js:275-1128`) is not modelled: static mesh and material bindings plus hover offsets. The mounted item meshes are given to the constructor as a map from item key to position. Refs that attach or detach later are not modelled.
- GLTF loading and the `setIsLoading` effect (`src/components/Model.js:13`, `29-31`) are not modelled; they are foreign library calls.
- Audio is not played. Preloading and `playSound` (`src/components/Model.js:33-48`) are browser I/O, so each press only appends a cue to a log. Playback errors and their `console.error` are not modelled.
- `console.log` output is not modelled.
- `setTimeout` delays (200 ms, 300 ms, 1500 ms) are not modelled as time. Timers are pending counters that the host fires in any order. The model therefore also admits orders a real clock would rule out, and every property above holds for those too.
- React's asynchronous batching and stale closures are not modelled. Each handler, frame and callback is one atomic step that sees the latest state.
- Floating point is not modelled; all arithmetic is over exact reals. The bounds, lerp identities and the exact landing point are statements about the arithmetic as written, not about IEEE rounding.
- Widget.VendingMachine.DispenseTick: on the landing frame the source first copies the path point into the mesh and then the end point. The model writes only the end point, because no render happens between the two writes.
- Glow.MaterialWithGlow: a three.js material is reduced to its name, colour, emissive colour (as a string) and intensity. `clone` and `THREE.Color` are not modelled.
- Face.FaceRig.EyeTick: the pointer sample that three.js supplies is a parameter. Where it comes from is not modelled.
- Machine.Initial: the host props `selectedButton`, the message, the cursor style, `animationComplete` and `resetPos` belong to the parent component, which is not part of this model. Their first values are assumed to be `''`, `''`, `'auto'`, `false` and `false`. Only the component's own `useState` defaults (`src/components/Model.js:14-20`) are taken from the source, and `Scenarios.ConfirmWithoutSelectionScenario` relies on the assumed empty selection.
- Host-side writes to `animationComplete`, `selectedButton` and the message (by the parent component) are not modelled, except raising `resetPos`. The parent component is not part of this model.
