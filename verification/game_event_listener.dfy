/**
 * BaseGameEventListener: a component linked to one game event (possibly none)
 * and to one response (possibly none). Enabling it registers it with the
 * event, disabling it unregisters it, and when the event reaches it the
 * response is invoked with the event's item.
 *
 * The response's Invoke is returned as an invocation value instead of being run.
 */
module GameEventListeners {
  import opened ListenerList
  import opened GameEvents

  /** One call `response.Invoke(item)`. */
  datatype Invocation<T> = Invoke(response: object, item: T)

  class GameEventListener<T> {
    var gameEvent: GameEvent?<T>
    var unityEventResponse: object?

    constructor (linked: GameEvent?<T>, response: object?)
      ensures gameEvent == linked && unityEventResponse == response
    {
      gameEvent := linked;
      unityEventResponse := response;
    }

    /** Getter of the GameEvent property. */
    method GetGameEvent() returns (e: GameEvent?<T>)
      ensures e == gameEvent
    {
      e := gameEvent;
    }

    /** Setter of the GameEvent property: links another event and changes nothing else. */
    method SetGameEvent(e: GameEvent?<T>)
      modifies this
      ensures gameEvent == e
      ensures unityEventResponse == old(unityEventResponse)
    {
      gameEvent := e;
    }

    /** With a linked event, register this listener with it; without one, do nothing. */
    method OnEnable()
      requires gameEvent != null ==> gameEvent.Valid()
      modifies gameEvent
      ensures gameEvent != null ==> gameEvent.Valid()
      ensures gameEvent != null ==>
                gameEvent.eventListeners == Add(old(gameEvent.eventListeners), this)
    {
      if gameEvent == null {
        return;
      }
      gameEvent.RegisterListener(this);
    }

    /** With a linked event, unregister this listener from it; without one, do nothing. */
    method OnDisable()
      requires gameEvent != null ==> gameEvent.Valid()
      modifies gameEvent
      ensures gameEvent != null ==> gameEvent.Valid() && this !in gameEvent.eventListeners
      ensures gameEvent != null ==>
                gameEvent.eventListeners == Remove(old(gameEvent.eventListeners), this)
    {
      if gameEvent == null {
        return;
      }
      gameEvent.UnregisterListener(this);
    }

    /** Enabling twice leaves this listener registered exactly once, as after a single enable. */
    method EnableTwice()
      requires gameEvent != null ==> gameEvent.Valid()
      modifies gameEvent
      ensures gameEvent != null ==> gameEvent.Valid()
      ensures gameEvent != null ==>
                gameEvent.eventListeners == Add(old(gameEvent.eventListeners), this) &&
                multiset(gameEvent.eventListeners)[this] == 1
    {
      ghost var before := if gameEvent == null then [] else gameEvent.eventListeners;
      OnEnable();
      OnEnable();
      if gameEvent != null {
        AddIdempotent(before, this);
      }
    }

    /** Enabling and then disabling a listener that was not registered leaves the event's list as it was. */
    method EnableThenDisable()
      requires gameEvent != null ==> gameEvent.Valid() && this !in gameEvent.eventListeners
      modifies gameEvent
      ensures gameEvent != null ==> gameEvent.Valid()
      ensures gameEvent != null ==> gameEvent.eventListeners == old(gameEvent.eventListeners)
    {
      ghost var before := if gameEvent == null then [] else gameEvent.eventListeners;
      OnEnable();
      OnDisable();
      if gameEvent != null {
        AddThenRemove(before, this);
      }
    }

    /** Forward the item to the response exactly once, or do nothing when no response is set. */
    method OnEventRaised(item: T) returns (invoked: seq<Invocation<T>>)
      ensures unityEventResponse == null ==> invoked == []
      ensures unityEventResponse != null ==> invoked == [Invoke(unityEventResponse, item)]
    {
      if unityEventResponse == null {
        return [];
      }
      invoked := [Invoke(unityEventResponse, item)];
    }
  }
}
