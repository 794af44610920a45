/**
 * InteractionSystem: the earlier version of the interactor. It keeps the same
 * three selection fields and the same trigger logic, but finds its two layers
 * by the names "Interaction Focus" and "Interaction Select"; the indices those
 * names resolve to are fixed when the component is created. It has no
 * interact forwarding.
 */
module LegacyInteraction {
  import opened Wrappers
  import opened Selection

  class InteractionSystem {
    var selected: Option<InteractableId>
    var selectedTransform: Option<TransformId>
    var selectedDistance: Distance
    /** Index of the layer named "Interaction Focus". */
    const interactionFocusLayer: int
    /** Index of the layer named "Interaction Select". */
    const interactionSelectLayer: int

    /** The selection fields as a tracker value. */
    function State(): Tracker
      reads this
    {
      Tracker(selected, selectedTransform, selectedDistance)
    }

    /** A fresh component selects nothing, at distance +infinity. */
    constructor (focusLayerIndex: int, selectLayerIndex: int)
      ensures State() == NoSelection
      ensures interactionFocusLayer == focusLayerIndex && interactionSelectLayer == selectLayerIndex
    {
      selected := None;
      selectedTransform := None;
      selectedDistance := Infinity;
      interactionFocusLayer := focusLayerIndex;
      interactionSelectLayer := selectLayerIndex;
    }

    /** Select the collider's interactable if it is strictly closer than the current selection. */
    method SelectIfCloser(other: Collider) returns (emitted: seq<Callback>)
      requires other.interactable.Some?
      modifies this
      ensures Step(State(), emitted) == Selection.SelectIfCloser(old(State()), other)
    {
      emitted := [];
      var otherDistance := other.distance;
      if Closer(otherDistance, selectedDistance) {
        if selected.Some? {
          emitted := emitted + [Deselect(selected.value)];
        }
        selected := other.interactable;
        emitted := emitted + [Select(selected.value)];
        selectedTransform := Some(other.transform);
        selectedDistance := Finite(otherDistance);
      }
    }

    /** Focus on the focus layer; otherwise the closer check on the select layer. */
    method OnTriggerEnter(other: Collider) returns (emitted: seq<Callback>)
      modifies this
      ensures Step(State(), emitted) ==
                Selection.OnTriggerEnter(old(State()), interactionFocusLayer, interactionSelectLayer, other)
    {
      emitted := [];
      if other.layer == interactionFocusLayer {
        if other.interactable.Some? {
          emitted := [Focus(other.interactable.value)];
        }
      } else if other.layer == interactionSelectLayer {
        var interactable := other.interactable;
        if interactable.Some? {
          emitted := SelectIfCloser(other);
        }
      }
    }

    /** The closer check for a select-layer collider that stays in range. */
    method OnTriggerStay(other: Collider) returns (emitted: seq<Callback>)
      modifies this
      ensures Step(State(), emitted) == Selection.OnTriggerStay(old(State()), interactionSelectLayer, other)
    {
      emitted := [];
      if other.layer == interactionSelectLayer {
        var interactable := other.interactable;
        if interactable.Some? {
          emitted := SelectIfCloser(other);
        }
      }
    }

    /**
     * Unfocus on the focus layer; on the select layer, drop the selection when
     * its interactable leaves. `nullReference` reports the Deselect call on a
     * null selection, which aborts the callback before any field changes.
     */
    method OnTriggerExit(other: Collider) returns (emitted: seq<Callback>, nullReference: bool)
      modifies this
      ensures nullReference ==
                Selection.OnTriggerExit(old(State()), interactionFocusLayer, interactionSelectLayer, other).NullReference?
      ensures nullReference ==> State() == old(State()) && emitted == []
      ensures !nullReference ==>
                Step(State(), emitted) ==
                Selection.OnTriggerExit(old(State()), interactionFocusLayer, interactionSelectLayer, other).step
    {
      emitted, nullReference := [], false;
      if other.layer == interactionFocusLayer {
        if other.interactable.Some? {
          emitted := [Unfocus(other.interactable.value)];
        }
      } else if other.layer == interactionSelectLayer {
        var interactable := other.interactable;
        if interactable == selected {
          if selected.None? {
            nullReference := true;
            return;
          }
          emitted := [Deselect(selected.value)];
          selected := None;
          selectedTransform := None;
          selectedDistance := Infinity;
        }
      }
    }

    /** Refresh the selection's distance; `currentDistance` is the engine's distance to the selected transform. */
    method FixedUpdate(currentDistance: real)
      modifies this
      ensures State() == Selection.FixedUpdate(old(State()), currentDistance)
    {
      if selectedTransform.Some? {
        selectedDistance := Finite(currentDistance);
      }
    }
  }
}
