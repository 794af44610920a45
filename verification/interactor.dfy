/**
 * InteractorBehavior: the component that tracks the closest interactable.
 * Its trigger callbacks and physics update overwrite the three selection
 * fields in place; each is tied to the matching function of the Selection
 * module, where its properties are stated. The focus and select layers are
 * the layer indices of its two physics-layer assets.
 */
module Interactor {
  import opened Wrappers
  import opened Selection

  class InteractorBehavior {
    var selected: Option<InteractableId>
    var selectedTransform: Option<TransformId>
    var selectedDistance: Distance
    const focusLayer: int
    const selectLayer: int

    /** The selection fields as a tracker value. */
    function State(): Tracker
      reads this
    {
      Tracker(selected, selectedTransform, selectedDistance)
    }

    /** A fresh component selects nothing, at distance +infinity. */
    constructor (focusLayerIndex: int, selectLayerIndex: int)
      ensures State() == NoSelection
      ensures focusLayer == focusLayerIndex && selectLayer == selectLayerIndex
    {
      selected := None;
      selectedTransform := None;
      selectedDistance := Infinity;
      focusLayer := focusLayerIndex;
      selectLayer := selectLayerIndex;
    }

    /** Select the collider's interactable if it is strictly closer than the current selection. */
    method SelectIfCloser(other: Collider) returns (emitted: seq<Callback>)
      requires other.interactable.Some?
      modifies this
      ensures Step(State(), emitted) == Selection.SelectIfCloser(old(State()), other)
    {
      emitted := [];
      var otherDistance := other.distance;
      if Closer(otherDistance, selectedDistance) {
        if selected.Some? {
          emitted := emitted + [Deselect(selected.value)];
        }
        selected := other.interactable;
        emitted := emitted + [Select(selected.value)];
        selectedTransform := Some(other.transform);
        selectedDistance := Finite(otherDistance);
      }
    }

    /** Focus on the focus layer; otherwise the closer check on the select layer. */
    method OnTriggerEnter(other: Collider) returns (emitted: seq<Callback>)
      modifies this
      ensures Step(State(), emitted) == Selection.OnTriggerEnter(old(State()), focusLayer, selectLayer, other)
    {
      emitted := [];
      if other.layer == focusLayer {
        if other.interactable.Some? {
          emitted := [Focus(other.interactable.value)];
        }
      } else if other.layer == selectLayer {
        var interactable := other.interactable;
        if interactable.Some? {
          emitted := SelectIfCloser(other);
        }
      }
    }

    /** The closer check for a select-layer collider that stays in range. */
    method OnTriggerStay(other: Collider) returns (emitted: seq<Callback>)
      modifies this
      ensures Step(State(), emitted) == Selection.OnTriggerStay(old(State()), selectLayer, other)
    {
      emitted := [];
      if other.layer == selectLayer {
        var interactable := other.interactable;
        if interactable.Some? {
          emitted := SelectIfCloser(other);
        }
      }
    }

    /**
     * Unfocus on the focus layer; on the select layer, drop the selection when
     * its interactable leaves. `nullReference` reports the Deselect call on a
     * null selection, which aborts the callback before any field changes.
     */
    method OnTriggerExit(other: Collider) returns (emitted: seq<Callback>, nullReference: bool)
      modifies this
      ensures nullReference ==
                Selection.OnTriggerExit(old(State()), focusLayer, selectLayer, other).NullReference?
      ensures nullReference ==> State() == old(State()) && emitted == []
      ensures !nullReference ==>
                Step(State(), emitted) == Selection.OnTriggerExit(old(State()), focusLayer, selectLayer, other).step
    {
      emitted, nullReference := [], false;
      if other.layer == focusLayer {
        if other.interactable.Some? {
          emitted := [Unfocus(other.interactable.value)];
        }
      } else if other.layer == selectLayer {
        var interactable := other.interactable;
        if interactable == selected {
          if selected.None? {
            nullReference := true;
            return;
          }
          emitted := [Deselect(selected.value)];
          selected := None;
          selectedTransform := None;
          selectedDistance := Infinity;
        }
      }
    }

    /** Refresh the selection's distance; `currentDistance` is the engine's distance to the selected transform. */
    method FixedUpdate(currentDistance: real)
      modifies this
      ensures State() == Selection.FixedUpdate(old(State()), currentDistance)
    {
      if selectedTransform.Some? {
        selectedDistance := Finite(currentDistance);
      }
    }

    /** Forward an interact press to the selection, if any. */
    method OnInteractPressed() returns (emitted: seq<Callback>)
      ensures selected.None? ==> emitted == []
      ensures selected.Some? ==> emitted == [InteractPressed(selected.value)]
    {
      emitted := if selected.Some? then [InteractPressed(selected.value)] else [];
    }

    /** Forward an interact release to the selection, if any. */
    method OnInteractReleased() returns (emitted: seq<Callback>)
      ensures selected.None? ==> emitted == []
      ensures selected.Some? ==> emitted == [InteractReleased(selected.value)]
    {
      emitted := if selected.Some? then [InteractReleased(selected.value)] else [];
    }
  }
}
