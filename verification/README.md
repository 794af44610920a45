# Jump, game-event and interaction logic of a small Unity character game, in Dafny

This project models the three pieces of sequential logic in the game's scripts,
with the Unity engine removed:

- **Jump/hover state machine** (`PlayerVerticalMotion`): six states (DEFAULT,
  IDLE, JUMPING, FLOATING, RELEASED, LANDED) that advance each frame on the jump
  button, the grounded flag and the time spent hovering; then gravity and the
  entry velocity are set for the new state and the vertical velocity is
  integrated. Modelled as the class `VerticalMotion.PlayerVerticalMotion`, whose
  methods are tied to the specification functions `NextJumpState` and
  `GravityFor`. The two `goto case` fall-throughs (FLOATING into the RELEASED
  landing check, JUMPING into the RELEASED gravity) are written out in the
  corresponding branches.
- **Typed game events** (`BaseGameEvent<T>` and `BaseGameEventListener`): a
  duplicate-free listener list with add-if-absent registration,
  remove-if-present unregistration, and a raise that calls every listener from
  the last registered to the first. Modelled as the classes
  `GameEvents.GameEvent` and `GameEventListeners.GameEventListener`, specified by
  the list functions of `ListenerList`.
- **Closest-interactable tracker** (`InteractorBehavior` and its earlier twin
  `InteractionSystem`): the current selection, the transform it was selected
  through and its distance (+infinity when nothing is selected), updated by
  trigger enter/stay/exit events on a focus layer and a select layer and by the
  physics update. The shared behaviour is specified once, as functions on
  values, in `Selection`; the classes `Interactor.InteractorBehavior` and
  `LegacyInteraction.InteractionSystem` update their fields in place and are
  tied to those functions.

Conventions of the model:

- Single-precision floats are reals.
- The engine clock `Time.time` and the frame length `Time.deltaTime` are the
  parameters `now` and `deltaTime`.
- Game objects, interactables and transforms are abstract identities.
- A trigger collider arrives with its layer, the interactable found in its
  parents (if any), its transform, and its distance from the interactor, as the
  physics engine computes it. The physics update receives the engine's current
  distance to the selected transform.
- Calls into other components are returned as traces rather than executed:
  `OnEventRaised` deliveries, `UnityEvent.Invoke` invocations, and the
  Focus/Unfocus/Select/Deselect/InteractPressed/InteractReleased callbacks.
- `InteractorBehavior` forwards presses as `InteractPressed`/`InteractReleased`
  (Assets/Scripts/InteractableObject/InteractorBehavior.cs:93-95). The
  `IInteractable` interface declares only `Interact()`
  (Assets/Scripts/InteractableObject/IInteractable.cs:43), so the model treats
  both forwards as abstract callbacks.
- Exiting a select-layer collider that has no interactable while nothing is
  selected compares null with null and then calls `Deselect()` on null. The
  model makes this an explicit `NullReference` outcome that leaves the state
  unchanged and emits nothing.

Files:

- `wrappers.dfy`: Option.
- `listener_list.dfy`: listener-list functions and lemmas.
- `game_event.dfy`: the game event class.
- `game_event_listener.dfy`: the listener class.
- `vertical_motion.dfy`: the jump machine.
- `selection.dfy`: the tracker specification and lemmas over event runs.
- `interactor.dfy`: the `InteractorBehavior` class.
- `interaction_system.dfy`: the `InteractionSystem` class.

## Model

| member | source | states |
|---|---|---|
| VerticalMotion.NextJumpState | Assets/Scripts/Player/PlayerVerticalMovement.cs:48-88 | The state is never DEFAULT after an advance, and DEFAULT always goes to IDLE. IDLE becomes JUMPING exactly when jump is held and the player is grounded, otherwise it stays IDLE. JUMPING is entered only from IDLE. In JUMPING a release goes to RELEASED, which takes priority over the peak check; with the button held it goes to FLOATING exactly when velocity <= 0, and otherwise stays JUMPING. FLOATING goes to LANDED whenever grounded, even if a release or a strict hover timeout also fired. RELEASED lands when grounded. LANDED returns to IDLE only once the button is released. |
| VerticalMotion.GravityFor | Assets/Scripts/Player/PlayerVerticalMovement.cs:118-139 | Gravity is defaultGravity in DEFAULT, IDLE and LANDED. It satisfies g·T² = −2·H in JUMPING and RELEASED, and g·maxHoverTime² = −2·H in FLOATING. |
| VerticalMotion.JumpPeaksAtHoverHeight | Assets/Scripts/Player/PlayerVerticalMovement.cs:105-110 | With launch velocity 2H/T and gravity −2H/T², the velocity reaches 0 after exactly T, and the height risen by then is exactly H. |
| VerticalMotion.HoverSinksHoverHeight | Assets/Scripts/Player/PlayerVerticalMovement.cs:111-113 | Starting at rest under the FLOATING gravity, the player falls H in exactly maxHoverTime. |
| VerticalMotion.AirborneIntegrationExact | Assets/Scripts/Player/PlayerVerticalMovement.cs:37-38 | Over any run of airborne frames under constant gravity, the per-frame integration changes the velocity by exactly gravity times the total elapsed time. |
| VerticalMotion.JumpFramesPeakAtRiseTime | Assets/Scripts/Player/PlayerVerticalMovement.cs:104-110 | Airborne frames starting at the launch velocity under the rise gravity reach velocity 0 exactly when their lengths add up to hoverRiseTime. Before that the player is still rising (velocity > 0), for positive height and rise time. |
| VerticalMotion.HoldingJumpNeverJumpsAgain | Assets/Scripts/Player/PlayerVerticalMovement.cs:79-82 | Once past IDLE, holding the jump button for any number of frames never returns to IDLE or DEFAULT. Starting anywhere but JUMPING, such frames never enter JUMPING, so there is no double jump. |
| VerticalMotion.PlayerVerticalMotion.constructor | Assets/Scripts/Player/PlayerVerticalMovement.cs:12-19 | A new controller starts in DEFAULT, unchanged, with jump not pressed, state start time 0, velocity 0 and gravity −0.3. |
| VerticalMotion.PlayerVerticalMotion.UpdateJumpPressed | Assets/Scripts/Player/PlayerVerticalMovement.cs:22 | It stores the input and changes no other field. |
| VerticalMotion.PlayerVerticalMotion.AdvanceJumpStateMachine | Assets/Scripts/Player/PlayerVerticalMovement.cs:46-95 | The new state is the transition from the old state, with the hover time measured from the state's start time. changedState is true exactly when the state differs. The start time is reset to `now` exactly in that case. |
| VerticalMotion.PlayerVerticalMotion.SetGravityForJumpState | Assets/Scripts/Player/PlayerVerticalMovement.cs:116-140 | Gravity is set for the current state. Velocity becomes 2H/T on entering JUMPING and 0 on entering FLOATING. Otherwise velocity is unchanged. |
| VerticalMotion.PlayerVerticalMotion.UpdateVelocity | Assets/Scripts/Player/PlayerVerticalMovement.cs:31-40 | One frame runs advance, then gravity, then integration. The state is never DEFAULT afterwards. When grounded with a negative entry velocity, the velocity is clamped to 0. Otherwise it becomes velocity + gravity·deltaTime. The returned value equals the stored velocity. |
| ListenerList.Add | Assets/Scripts/GameEvents/Events/BaseGameEvent.cs:30 | After registration the listener is present, every earlier listener is still present, and a duplicate-free list stays duplicate-free. |
| ListenerList.Remove | Assets/Scripts/GameEvents/Events/BaseGameEvent.cs:39 | Removing an absent listener changes nothing. Removing a present one shortens the list by one. |
| ListenerList.RemoveMultiset | Assets/Scripts/GameEvents/Events/BaseGameEvent.cs:39 | The contents lose exactly one copy of a present listener and nothing else. |
| ListenerList.RemoveCutsFirstOccurrence | Assets/Scripts/GameEvents/Events/BaseGameEvent.cs:39 | Removing a present listener cuts out its first occurrence. The listeners before it and after it keep their relative order. |
| ListenerList.RemoveKeepsNoDuplicates | Assets/Scripts/GameEvents/Events/BaseGameEvent.cs:37-40 | Unregistering keeps the list duplicate-free, and the unregistered listener is no longer in it. |
| ListenerList.AddThenRemove | Assets/Scripts/GameEvents/Events/BaseGameEvent.cs:28-40 | Registering a listener that was absent and then unregistering it restores the original list. |
| ListenerList.AddIdempotent | Assets/Scripts/GameEvents/Events/BaseGameEvent.cs:28-31 | Registering twice equals registering once. The listener then occurs exactly once. |
| GameEvents.GameEvent.constructor | Assets/Scripts/GameEvents/Events/BaseGameEvent.cs:7 | A new event has an empty, duplicate-free listener list. |
| GameEvents.GameEvent.Raise | Assets/Scripts/GameEvents/Events/BaseGameEvent.cs:16-22 | Raise makes one OnEventRaised(item) delivery per list entry, with the same item each time. The k-th delivery goes to the k-th listener from the end. Every registered listener is reached. With the duplicate-free invariant, no listener is called twice. |
| GameEvents.GameEvent.RegisterListener | Assets/Scripts/GameEvents/Events/BaseGameEvent.cs:28-31 | A present listener leaves the list unchanged. An absent one is appended at the end with nothing else changed. The list stays duplicate-free. |
| GameEvents.GameEvent.UnregisterListener | Assets/Scripts/GameEvents/Events/BaseGameEvent.cs:37-40 | An absent listener leaves the list unchanged. A present one is cut out, and the others keep their relative order. The listener is gone afterwards, and the list stays duplicate-free. |
| GameEventListeners.GameEventListener.GetGameEvent | Assets/Scripts/GameEvents/Listeners/BaseGameEventListener.cs:16 | The getter returns the linked event. |
| GameEventListeners.GameEventListener.SetGameEvent | Assets/Scripts/GameEvents/Listeners/BaseGameEventListener.cs:16 | The setter links the given event, which the getter then returns. Nothing else changes. |
| GameEventListeners.GameEventListener.OnEnable | Assets/Scripts/GameEvents/Listeners/BaseGameEventListener.cs:25-29 | With no linked event nothing is modified. Otherwise this listener is registered with the linked event. |
| GameEventListeners.GameEventListener.OnDisable | Assets/Scripts/GameEvents/Listeners/BaseGameEventListener.cs:34-38 | With no linked event nothing is modified. Otherwise this listener is unregistered and no longer in the event's list. |
| GameEventListeners.GameEventListener.EnableTwice | Assets/Scripts/GameEvents/Listeners/BaseGameEventListener.cs:25-29 | Enabling twice leaves the event's list as after one enable, with this listener in it exactly once. |
| GameEventListeners.GameEventListener.EnableThenDisable | Assets/Scripts/GameEvents/Listeners/BaseGameEventListener.cs:25-38 | For a listener that was not registered, enabling and then disabling leaves the event's list exactly as it was. |
| GameEventListeners.GameEventListener.OnEventRaised | Assets/Scripts/GameEvents/Listeners/BaseGameEventListener.cs:44-48 | With no response nothing is invoked. Otherwise the response is invoked exactly once, with the same item. |
| Selection.SelectIfCloser | Assets/Scripts/InteractableObject/InteractorBehavior.cs:23-35 | The candidate replaces the selection only if strictly closer; on a tie the current selection is kept. On replacement the old selection is deselected before the new one is selected, and the new transform and distance are stored. With nothing selected (+infinity) the candidate is always taken. Afterwards the selection is no farther than the candidate. |
| Selection.OnTriggerEnter | Assets/Scripts/InteractableObject/InteractorBehavior.cs:38-49 | A focus-layer collider focuses its interactable (if any) and never changes the selection; the focus test is made first. A select-layer collider with an interactable runs the closer check. Colliders without an interactable, and other layers, are ignored. |
| Selection.OnTriggerStay | Assets/Scripts/InteractableObject/InteractorBehavior.cs:52-59 | A select-layer collider with an interactable runs the same closer check as enter. Everything else is ignored. |
| Selection.OnTriggerExit | Assets/Scripts/InteractableObject/InteractorBehavior.cs:62-81 | A focus-layer exit unfocuses and keeps the selection. Leaving the selected interactable deselects it and resets to no selection at +infinity. Any other exit changes nothing. The null-reference outcome happens exactly for a select-layer collider without an interactable while nothing is selected. |
| Selection.FixedUpdate | Assets/Scripts/InteractableObject/InteractorBehavior.cs:84-90 | The distance is refreshed only when something is selected. The selection and its transform never change. |
| Selection.RunKeepsConsistent | Assets/Scripts/InteractableObject/InteractorBehavior.cs:9-11 | Over any sequence of events, the selection, its transform and a finite distance are either all set or all unset, the latter with distance +infinity. |
| Selection.RunBracketed | Assets/Scripts/InteractableObject/InteractorBehavior.cs:23-81 | Over any sequence of events, every Deselect names the current selection. No Select happens while something is still selected. The final selection is the last object selected and not since deselected. |
| Interactor.InteractorBehavior.constructor | Assets/Scripts/InteractableObject/InteractorBehavior.cs:9-16 | A new component selects nothing, at distance +infinity, on the given focus and select layers. |
| Interactor.InteractorBehavior.SelectIfCloser | Assets/Scripts/InteractableObject/InteractorBehavior.cs:23-35 | The in-place update and the emitted calls equal Selection.SelectIfCloser. |
| Interactor.InteractorBehavior.OnTriggerEnter | Assets/Scripts/InteractableObject/InteractorBehavior.cs:38-49 | The in-place update and the emitted calls equal Selection.OnTriggerEnter on the component's layers. |
| Interactor.InteractorBehavior.OnTriggerStay | Assets/Scripts/InteractableObject/InteractorBehavior.cs:52-59 | The in-place update and the emitted calls equal Selection.OnTriggerStay. |
| Interactor.InteractorBehavior.OnTriggerExit | Assets/Scripts/InteractableObject/InteractorBehavior.cs:62-81 | The update equals Selection.OnTriggerExit. In the null/null case the component reports the null reference, keeps its fields and emits nothing. |
| Interactor.InteractorBehavior.FixedUpdate | Assets/Scripts/InteractableObject/InteractorBehavior.cs:84-90 | The fields become Selection.FixedUpdate of the old fields. |
| Interactor.InteractorBehavior.OnInteractPressed | Assets/Scripts/InteractableObject/InteractorBehavior.cs:93 | A press goes only to the current selection, and nothing is emitted when there is none. |
| Interactor.InteractorBehavior.OnInteractReleased | Assets/Scripts/InteractableObject/InteractorBehavior.cs:95 | A release goes only to the current selection, and nothing is emitted when there is none. |
| LegacyInteraction.InteractionSystem.constructor | Assets/Utilities/InteractionSystem.cs:23-25 | A new component selects nothing, at distance +infinity; its layers are the indices of "Interaction Focus" and "Interaction Select". |
| LegacyInteraction.InteractionSystem.SelectIfCloser | Assets/Utilities/InteractionSystem.cs:32-44 | The in-place update and the emitted calls equal Selection.SelectIfCloser: strictly closer, then deselect-before-select. |
| LegacyInteraction.InteractionSystem.OnTriggerEnter | Assets/Utilities/InteractionSystem.cs:47-59 | The update equals Selection.OnTriggerEnter on the named layers. The focus layer is tested first and never reaches the selection logic. |
| LegacyInteraction.InteractionSystem.OnTriggerStay | Assets/Utilities/InteractionSystem.cs:62-69 | The update equals Selection.OnTriggerStay, which is the same closer check as enter. |
| LegacyInteraction.InteractionSystem.OnTriggerExit | Assets/Utilities/InteractionSystem.cs:72-91 | The update equals Selection.OnTriggerExit. Leaving the selected interactable resets to no selection at +infinity, and other exits keep it. |
| LegacyInteraction.InteractionSystem.FixedUpdate | Assets/Utilities/InteractionSystem.cs:94-100 | The distance is refreshed only when something is selected. |

## Left out

- Floating point: velocities, gravity, times and distances are reals. Single-precision rounding, infinities and NaN are not modelled; +infinity exists only as the "nothing selected" distance.
- VerticalMotion.PlayerVerticalMotion.SetGravityForJumpState and UpdateVelocity require hoverRiseTime and maxHoverTime to be non-zero. With a zero time the source divides by zero and produces an IEEE infinity or NaN, which reals cannot express.
- The error log for an unsupported jump state is not modelled. Every value of the six-state enum is handled, so that branch cannot be reached.
- GameEvents.GameEvent.Raise: the model treats the listener list as fixed during a raise. A listener that registers or unregisters listeners from inside its own OnEventRaised is not modelled.
- The listener's calls run through the `IGameEventListener<T>` interface. The typed subclasses for bool, float, int, Vector2, Vector3 and Void are instantiations of the generic model. `VoidGameEvent.Raise()` is `Raise` with the unit value.
- InteractorBehavior with an unset layer asset is not modelled; the model takes both layer indices as given. In the source an unset `focusLayer` makes OnTriggerEnter and OnTriggerExit throw on every collider, while OnTriggerStay never reads it. An unset `selectLayer` makes OnTriggerStay throw on every collider, and OnTriggerEnter and OnTriggerExit throw only for colliders that are not on the focus layer.
- The `LayerMask.NameToLayer` and `LayerIndex` lookups are not modelled. Each is a library call, and the model takes its result as a fixed layer index.
- Physics collision detection and `Vector3.Distance` are not modelled. Trigger events arrive with the collider's distance, and the physics update receives the current distance to the selected transform.
- Unity's lifecycle (when OnEnable, OnDisable, trigger callbacks and FixedUpdate run) and the engine's handling of exceptions are not modelled. The event-run lemmas assume that a callback which throws leaves the tracker as it was and that the next event proceeds.
- Gizmo drawing, inspector attributes and serialization are not modelled.
- Horizontal motion, camera-relative steering, model bobbing, the debug-scene scripts, the input reader and the physics-layer asset are not modelled. They are engine vector math or forwarding into the engine.
