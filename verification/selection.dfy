/**
 * The closest-interactable selection tracker shared by InteractorBehavior and
 * InteractionSystem, as values.
 *
 * The tracker remembers the selected interactable, the transform of the
 * collider through which it was selected, and that collider's distance; an
 * empty selection has distance +infinity. Trigger events on two physics
 * layers (focus and select) update it, and the callbacks made on interactables
 * (Focus, Unfocus, Select, Deselect, and the interact press/release
 * forwarding) are emitted as a trace.
 *
 * Game objects are abstract identities. A collider carries its layer, the
 * interactable found in its parents (if any), its transform and its distance
 * from the interactor, which the physics engine supplies.
 */
module Selection {
  import opened Wrappers

  /** Identity of an IInteractable component. */
  type InteractableId = nat
  /** Identity of a Transform. */
  type TransformId = nat

  /** A distance that may be +infinity. */
  datatype Distance = Infinity | Finite(value: real)

  /** `d` is strictly closer than `current`; every finite distance is closer than +infinity. */
  predicate Closer(d: real, current: Distance) {
    current.Infinity? || d < current.value
  }

  /** `current` is finite and no farther than `d`. */
  predicate NoFartherThan(current: Distance, d: real) {
    current.Finite? && current.value <= d
  }

  /** A call made on an interactable. */
  datatype Callback =
    | Focus(target: InteractableId)
    | Unfocus(target: InteractableId)
    | Select(target: InteractableId)
    | Deselect(target: InteractableId)
    | InteractPressed(target: InteractableId)
    | InteractReleased(target: InteractableId)

  /** A trigger collider as seen in a trigger event. */
  datatype Collider = Collider(layer: int, interactable: Option<InteractableId>,
                               transform: TransformId, distance: real)

  /** The tracker's three fields. */
  datatype Tracker = Tracker(selected: Option<InteractableId>,
                             selectedTransform: Option<TransformId>,
                             selectedDistance: Distance)

  /** Nothing selected, at distance +infinity. */
  const NoSelection := Tracker(None, None, Infinity)

  /** The tracker's state after an event, and the callbacks the event made. */
  datatype Step = Step(next: Tracker, emitted: seq<Callback>)

  /** An exit either completes or throws a null reference error before changing anything. */
  datatype ExitOutcome = Exited(step: Step) | NullReference

  /** The three fields agree: all set, or none set with distance +infinity. */
  predicate Consistent(t: Tracker) {
    t.selected.Some? == t.selectedTransform.Some? &&
    t.selected.Some? == t.selectedDistance.Finite?
  }

  /**
   * Select the collider's interactable when it is strictly closer than the
   * current selection: the old selection is deselected first, then the new one
   * is selected and its collider's transform and distance are stored. On a tie
   * or when farther, nothing happens. Either way the selection afterwards is no
   * farther than the candidate.
   */
  function SelectIfCloser(t: Tracker, c: Collider): (r: Step)
    requires c.interactable.Some?
    ensures Closer(c.distance, t.selectedDistance) ==>
              r.next == Tracker(c.interactable, Some(c.transform), Finite(c.distance))
    ensures Closer(c.distance, t.selectedDistance) && t.selected.Some? ==>
              r.emitted == [Deselect(t.selected.value), Select(c.interactable.value)]
    ensures Closer(c.distance, t.selectedDistance) && t.selected.None? ==>
              r.emitted == [Select(c.interactable.value)]
    ensures !Closer(c.distance, t.selectedDistance) ==> r == Step(t, [])
    ensures t.selectedDistance == Finite(c.distance) ==> r == Step(t, [])
    ensures t.selectedDistance.Infinity? ==> r.next.selected == c.interactable
    ensures NoFartherThan(r.next.selectedDistance, c.distance)
  {
    if Closer(c.distance, t.selectedDistance) then
      var deselect := if t.selected.Some? then [Deselect(t.selected.value)] else [];
      Step(Tracker(c.interactable, Some(c.transform), Finite(c.distance)),
           deselect + [Select(c.interactable.value)])
    else
      Step(t, [])
  }

  /**
   * Trigger enter. The focus layer is tested first: a focus-layer collider
   * focuses its interactable (if any) and never reaches the selection logic.
   * A select-layer collider with an interactable runs the closer check; one
   * without is ignored, as is every other layer.
   */
  function OnTriggerEnter(t: Tracker, focusLayer: int, selectLayer: int, c: Collider): (r: Step)
    ensures c.layer == focusLayer ==> r.next == t
    ensures c.layer == focusLayer ==>
              r.emitted == if c.interactable.Some? then [Focus(c.interactable.value)] else []
    ensures c.layer != focusLayer && c.layer == selectLayer && c.interactable.Some? ==>
              r == SelectIfCloser(t, c)
    ensures c.layer != focusLayer && c.layer == selectLayer && c.interactable.Some? ==>
              NoFartherThan(r.next.selectedDistance, c.distance)
    ensures (c.layer != focusLayer && c.layer == selectLayer && c.interactable.Some? &&
             t.selectedDistance.Infinity?) ==> r.next.selected == c.interactable
    ensures (c.layer != focusLayer && c.layer != selectLayer) || (c.layer != focusLayer && c.interactable.None?) ==>
              r == Step(t, [])
  {
    if c.layer == focusLayer then
      Step(t, if c.interactable.Some? then [Focus(c.interactable.value)] else [])
    else if c.layer == selectLayer && c.interactable.Some? then
      SelectIfCloser(t, c)
    else
      Step(t, [])
  }

  /**
   * Trigger stay: only the select layer matters, and a collider with an
   * interactable runs the same closer check as on enter.
   */
  function OnTriggerStay(t: Tracker, selectLayer: int, c: Collider): (r: Step)
    ensures c.layer == selectLayer && c.interactable.Some? ==> r == SelectIfCloser(t, c)
    ensures c.layer == selectLayer && c.interactable.Some? ==>
              NoFartherThan(r.next.selectedDistance, c.distance)
    ensures c.layer != selectLayer || c.interactable.None? ==> r == Step(t, [])
  {
    if c.layer == selectLayer && c.interactable.Some? then SelectIfCloser(t, c) else Step(t, [])
  }

  /**
   * Trigger exit. A focus-layer collider unfocuses its interactable (if any).
   * On the select layer, leaving the selected interactable deselects it and
   * resets to no selection; any other exit leaves the selection alone. When the
   * collider has no interactable and nothing is selected, both sides of the
   * comparison are null and the Deselect call throws.
   */
  function OnTriggerExit(t: Tracker, focusLayer: int, selectLayer: int, c: Collider): (r: ExitOutcome)
    ensures r.NullReference? <==>
              c.layer != focusLayer && c.layer == selectLayer && c.interactable.None? && t.selected.None?
    ensures c.layer == focusLayer ==> r.Exited? && r.step.next == t
    ensures c.layer == focusLayer ==>
              r.step.emitted == if c.interactable.Some? then [Unfocus(c.interactable.value)] else []
    ensures c.layer != focusLayer && c.layer == selectLayer && t.selected.Some? && c.interactable == t.selected ==>
              r == Exited(Step(NoSelection, [Deselect(t.selected.value)]))
    ensures c.layer != focusLayer && (c.layer != selectLayer || c.interactable != t.selected) ==>
              r == Exited(Step(t, []))
    ensures r.Exited? && r.step.next != t ==> r.step.next == NoSelection
  {
    if c.layer == focusLayer then
      Exited(Step(t, if c.interactable.Some? then [Unfocus(c.interactable.value)] else []))
    else if c.layer == selectLayer then
      if c.interactable == t.selected then
        match t.selected
        case None => NullReference
        case Some(x) => Exited(Step(NoSelection, [Deselect(x)]))
      else
        Exited(Step(t, []))
    else
      Exited(Step(t, []))
  }

  /**
   * Physics update: with a selection, its distance becomes `currentDistance`,
   * the engine's distance to the selected transform now; without one, nothing
   * changes. The selection itself never changes here.
   */
  function FixedUpdate(t: Tracker, currentDistance: real): (r: Tracker)
    ensures r.selected == t.selected && r.selectedTransform == t.selectedTransform
    ensures t.selectedTransform.Some? ==> r.selectedDistance == Finite(currentDistance)
    ensures t.selectedTransform.None? ==> r == t
  {
    if t.selectedTransform.Some? then t.(selectedDistance := Finite(currentDistance)) else t
  }

  /** An event delivered to the tracker by the engine. */
  datatype Event =
    | TriggerEnter(collider: Collider)
    | TriggerStay(collider: Collider)
    | TriggerExit(collider: Collider)
    | PhysicsUpdate(currentDistance: real)

  /**
   * One event. A null reference error aborts the callback before any field is
   * written, so the tracker stays as it was and nothing is emitted.
   */
  function Apply(t: Tracker, focusLayer: int, selectLayer: int, e: Event): Step {
    match e
    case TriggerEnter(c) => OnTriggerEnter(t, focusLayer, selectLayer, c)
    case TriggerStay(c) => OnTriggerStay(t, selectLayer, c)
    case TriggerExit(c) =>
      (match OnTriggerExit(t, focusLayer, selectLayer, c)
       case Exited(s) => s
       case NullReference => Step(t, []))
    case PhysicsUpdate(d) => Step(FixedUpdate(t, d), [])
  }

  /** A sequence of events, with the callbacks of all of them in order. */
  function Run(t: Tracker, focusLayer: int, selectLayer: int, events: seq<Event>): Step
    decreases |events|
  {
    if events == [] then Step(t, [])
    else
      var first := Apply(t, focusLayer, selectLayer, events[0]);
      var rest := Run(first.next, focusLayer, selectLayer, events[1..]);
      Step(rest.next, first.emitted + rest.emitted)
  }

  /** Every event keeps the three fields consistent. */
  lemma ApplyKeepsConsistent(t: Tracker, focusLayer: int, selectLayer: int, e: Event)
    requires Consistent(t)
    ensures Consistent(Apply(t, focusLayer, selectLayer, e).next)
  {
  }

  /** Any run of events keeps the three fields consistent. */
  lemma {:induction false} RunKeepsConsistent(t: Tracker, focusLayer: int, selectLayer: int, events: seq<Event>)
    requires Consistent(t)
    ensures Consistent(Run(t, focusLayer, selectLayer, events).next)
    decreases |events|
  {
    if events != [] {
      var first := Apply(t, focusLayer, selectLayer, events[0]);
      ApplyKeepsConsistent(t, focusLayer, selectLayer, events[0]);
      RunKeepsConsistent(first.next, focusLayer, selectLayer, events[1..]);
    }
  }

  /**
   * Reading the Select and Deselect calls of `calls` in order, starting with
   * `current` selected: each Deselect names the object selected at that point
   * and leaves nothing selected, each Select happens while nothing is selected,
   * and the selection at the end is `final`. Other callbacks are skipped.
   */
  predicate Bracketed(current: Option<InteractableId>, calls: seq<Callback>, final: Option<InteractableId>)
    decreases |calls|
  {
    if calls == [] then current == final
    else match calls[0]
      case Deselect(x) => current == Some(x) && Bracketed(None, calls[1..], final)
      case Select(y) => current == None && Bracketed(Some(y), calls[1..], final)
      case _ => Bracketed(current, calls[1..], final)
  }

  lemma {:induction false} BracketedAppend(a: Option<InteractableId>, xs: seq<Callback>,
                                           b: Option<InteractableId>, ys: seq<Callback>,
                                           c: Option<InteractableId>)
    requires Bracketed(a, xs, b) && Bracketed(b, ys, c)
    ensures Bracketed(a, xs + ys, c)
    decreases |xs|
  {
    if xs != [] {
      assert (xs + ys)[0] == xs[0];
      assert (xs + ys)[1..] == xs[1..] + ys;
      if xs[0].Deselect? {
        BracketedAppend(None, xs[1..], b, ys, c);
      } else if xs[0].Select? {
        BracketedAppend(Some(xs[0].target), xs[1..], b, ys, c);
      } else {
        BracketedAppend(a, xs[1..], b, ys, c);
      }
    } else {
      assert xs + ys == ys;
    }
  }

  /** One event's Select/Deselect calls are bracketed from the old selection to the new one. */
  lemma ApplyBracketed(t: Tracker, focusLayer: int, selectLayer: int, e: Event)
    ensures var s := Apply(t, focusLayer, selectLayer, e);
            Bracketed(t.selected, s.emitted, s.next.selected)
  {
  }

  /**
   * Over any run of events the tracker never selects an object while another
   * is still selected (the old one is always deselected first), never
   * deselects an object that is not the selection, and its final selection is
   * the last object selected and not deselected since.
   */
  lemma {:induction false} RunBracketed(t: Tracker, focusLayer: int, selectLayer: int, events: seq<Event>)
    ensures var s := Run(t, focusLayer, selectLayer, events);
            Bracketed(t.selected, s.emitted, s.next.selected)
    decreases |events|
  {
    if events != [] {
      var first := Apply(t, focusLayer, selectLayer, events[0]);
      var rest := Run(first.next, focusLayer, selectLayer, events[1..]);
      ApplyBracketed(t, focusLayer, selectLayer, events[0]);
      RunBracketed(first.next, focusLayer, selectLayer, events[1..]);
      BracketedAppend(t.selected, first.emitted, first.next.selected, rest.emitted, rest.next.selected);
    }
  }
}
