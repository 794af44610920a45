/**
 * BaseGameEvent<T>: a typed publish/subscribe hub. It keeps the registered
 * listeners in registration order and, when raised, calls OnEventRaised(item)
 * on each of them, walking the list from the last entry to the first.
 *
 * Listeners are identified by object reference. The calls that Raise makes
 * are returned as a sequence of deliveries instead of being executed.
 */
module GameEvents {
  import opened ListenerList

  /** One call `listener.OnEventRaised(item)`. */
  datatype Delivery<T> = OnEventRaised(listener: object, item: T)

  class GameEvent<T> {
    var eventListeners: seq<object>

    /** The listener list never holds the same listener twice. */
    ghost predicate Valid()
      reads this
    {
      NoDuplicates(eventListeners)
    }

    constructor ()
      ensures Valid() && eventListeners == []
    {
      eventListeners := [];
    }

    /**
     * Raise the event: one delivery per registered listener, last registered
     * first, each carrying the same item. With a duplicate-free list every
     * listener is called exactly once.
     */
    method Raise(item: T) returns (calls: seq<Delivery<T>>)
      ensures |calls| == |eventListeners|
      ensures forall k :: 0 <= k < |calls| ==>
                calls[k] == OnEventRaised(eventListeners[|eventListeners| - 1 - k], item)
      ensures forall l :: l in eventListeners ==>
                exists k :: 0 <= k < |calls| && calls[k] == OnEventRaised(l, item)
      ensures Valid() ==>
                forall i, j :: 0 <= i < j < |calls| ==> calls[i].listener != calls[j].listener
    {
      calls := [];
      var i := |eventListeners| - 1;
      while i >= 0
        invariant -1 <= i < |eventListeners|
        invariant |calls| == |eventListeners| - 1 - i
        invariant forall k :: 0 <= k < |calls| ==>
                    calls[k] == OnEventRaised(eventListeners[|eventListeners| - 1 - k], item)
      {
        calls := calls + [OnEventRaised(eventListeners[i], item)];
        i := i - 1;
      }
      forall l | l in eventListeners
        ensures exists k :: 0 <= k < |calls| && calls[k] == OnEventRaised(l, item)
      {
        var p :| 0 <= p < |eventListeners| && eventListeners[p] == l;
        var k := |eventListeners| - 1 - p;
        assert calls[k] == OnEventRaised(l, item);
      }
    }

    /** Register a listener: appended at the end when absent, otherwise nothing changes. */
    method RegisterListener(listener: object)
      requires Valid()
      modifies this
      ensures Valid()
      ensures eventListeners == Add(old(eventListeners), listener)
      ensures old(listener in eventListeners) ==> eventListeners == old(eventListeners)
      ensures old(listener !in eventListeners) ==> eventListeners == old(eventListeners) + [listener]
    {
      if listener !in eventListeners {
        eventListeners := eventListeners + [listener];
      }
    }

    /**
     * Unregister a listener: nothing changes when it is absent; otherwise it is
     * cut out and the others keep their relative order.
     */
    method UnregisterListener(listener: object)
      requires Valid()
      modifies this
      ensures Valid()
      ensures eventListeners == Remove(old(eventListeners), listener)
      ensures listener !in eventListeners
      ensures old(listener !in eventListeners) ==> eventListeners == old(eventListeners)
      ensures old(listener in eventListeners) ==>
                var i := IndexOf(old(eventListeners), listener);
                eventListeners == old(eventListeners)[..i] + old(eventListeners)[i + 1..]
    {
      RemoveKeepsNoDuplicates(eventListeners, listener);
      if listener in eventListeners {
        RemoveCutsFirstOccurrence(eventListeners, listener);
        eventListeners := Remove(eventListeners, listener);
      }
    }
  }
}
