/**
 * A component that relays the physics callbacks of the object it sits on: each of the six
 * collision and trigger events has its own multicast handler, extended by AddCollisionEvent
 * and invoked with the other collider when Unity reports that event.
 */
module Collision {
  import opened Wrappers

  datatype CollisionEvent =
    | OnCollisionEnter
    | OnCollisionExit
    | OnCollisionStay
    | OnTriggerEnter
    | OnTriggerExit
    | OnTriggerStay

  /** The exceptions the dictionary of handlers throws. */
  datatype LookupError =
    | KeyNotFound    // an event read before it was added
    | DuplicateKey   // an event added twice

  /** The Collision a collision callback receives, reduced to the other collider. */
  datatype Collision<Collider> = Collision(collider: Collider)

  /** The calls a multicast handler makes: each handler in its invocation list, in order, with `collider`. */
  function Invocations<Handler, Collider>(handlers: seq<Handler>, collider: Collider): (r: seq<(Handler, Collider)>)
    ensures |r| == |handlers|
    ensures forall i :: 0 <= i < |handlers| ==> r[i] == (handlers[i], collider)
  {
    if handlers == [] then [] else [(handlers[0], collider)] + Invocations(handlers[1..], collider)
  }

  /**
   * `events` maps each event to the invocation list of its handler (an empty list is a null
   * delegate); `calls` records every handler invocation made so far.
   */
  class OtherCollisionChecker<Handler, Collider> {
    var events: map<CollisionEvent, seq<Handler>>
    var calls: seq<(Handler, Collider)>

    /** The field initializer: a new, empty dictionary. */
    constructor ()
      ensures events == map[] && calls == []
    {
      events := map[];
      calls := [];
    }

    /** Dictionary.Add: throws when the event is already present, otherwise files `handlers` under it. */
    method Add(collisionEvent: CollisionEvent, handlers: seq<Handler>) returns (r: Outcome<LookupError>)
      modifies this`events
      ensures collisionEvent in old(events) ==> r == Fail(DuplicateKey) && events == old(events)
      ensures collisionEvent !in old(events) ==> r == Pass && events == old(events)[collisionEvent := handlers]
    {
      if collisionEvent in events {
        return Fail(DuplicateKey);
      }
      events := events[collisionEvent := handlers];
      return Pass;
    }

    /**
     * Awake: the six events added in declaration order, each with its still-null handler. On
     * the fresh dictionary this cannot fail; a second Awake throws on the first event.
     */
    method Awake() returns (r: Outcome<LookupError>)
      modifies this`events
      ensures old(events) == map[] ==>
                && r == Pass
                && (forall e :: e in events)
                && (forall e :: e in events ==> events[e] == [])
      ensures old(events) != map[] ==> r == Fail(DuplicateKey)
    {
      r := Add(CollisionEvent.OnCollisionEnter, []);
      if r.Fail? {
        return;
      }
      r := Add(CollisionEvent.OnCollisionExit, []);
      if r.Fail? {
        return;
      }
      r := Add(CollisionEvent.OnCollisionStay, []);
      if r.Fail? {
        return;
      }
      r := Add(CollisionEvent.OnTriggerEnter, []);
      if r.Fail? {
        return;
      }
      r := Add(CollisionEvent.OnTriggerExit, []);
      if r.Fail? {
        return;
      }
      r := Add(CollisionEvent.OnTriggerStay, []);
      if r.Fail? {
        return;
      }
      NoEventKeys(old(events));
      EveryEventKey(events);
    }

    /** AddCollisionEvent: `handler` joins the end of the event's invocation list; no other event changes. */
    method AddCollisionEvent(collisionEvent: CollisionEvent, handler: Handler) returns (r: Outcome<LookupError>)
      modifies this`events
      ensures collisionEvent !in old(events) ==> r == Fail(KeyNotFound) && events == old(events)
      ensures collisionEvent in old(events) ==>
                && r == Pass
                && events == old(events)[collisionEvent := old(events)[collisionEvent] + [handler]]
    {
      if collisionEvent !in events {
        return Fail(KeyNotFound);
      }
      events := events[collisionEvent := events[collisionEvent] + [handler]];
      return Pass;
    }

    /** The common body of the six callbacks: the event's handler invoked, if it is not null. */
    method Fire(collisionEvent: CollisionEvent, collider: Collider) returns (r: Outcome<LookupError>)
      modifies this`calls
      ensures collisionEvent !in events ==> r == Fail(KeyNotFound) && calls == old(calls)
      ensures collisionEvent in events ==>
                r == Pass && calls == old(calls) + Invocations(events[collisionEvent], collider)
    {
      if collisionEvent !in events {
        return Fail(KeyNotFound);
      }
      calls := calls + Invocations(events[collisionEvent], collider);
      return Pass;
    }

    method OnCollisionEnter(collision: Collision<Collider>) returns (r: Outcome<LookupError>)
      modifies this`calls
      ensures CollisionEvent.OnCollisionEnter !in events ==> r == Fail(KeyNotFound) && calls == old(calls)
      ensures CollisionEvent.OnCollisionEnter in events ==>
                r == Pass && calls == old(calls) + Invocations(events[CollisionEvent.OnCollisionEnter], collision.collider)
    {
      r := Fire(CollisionEvent.OnCollisionEnter, collision.collider);
    }

    method OnCollisionExit(collision: Collision<Collider>) returns (r: Outcome<LookupError>)
      modifies this`calls
      ensures CollisionEvent.OnCollisionExit !in events ==> r == Fail(KeyNotFound) && calls == old(calls)
      ensures CollisionEvent.OnCollisionExit in events ==>
                r == Pass && calls == old(calls) + Invocations(events[CollisionEvent.OnCollisionExit], collision.collider)
    {
      r := Fire(CollisionEvent.OnCollisionExit, collision.collider);
    }

    method OnCollisionStay(collision: Collision<Collider>) returns (r: Outcome<LookupError>)
      modifies this`calls
      ensures CollisionEvent.OnCollisionStay !in events ==> r == Fail(KeyNotFound) && calls == old(calls)
      ensures CollisionEvent.OnCollisionStay in events ==>
                r == Pass && calls == old(calls) + Invocations(events[CollisionEvent.OnCollisionStay], collision.collider)
    {
      r := Fire(CollisionEvent.OnCollisionStay, collision.collider);
    }

    method OnTriggerEnter(other: Collider) returns (r: Outcome<LookupError>)
      modifies this`calls
      ensures CollisionEvent.OnTriggerEnter !in events ==> r == Fail(KeyNotFound) && calls == old(calls)
      ensures CollisionEvent.OnTriggerEnter in events ==>
                r == Pass && calls == old(calls) + Invocations(events[CollisionEvent.OnTriggerEnter], other)
    {
      r := Fire(CollisionEvent.OnTriggerEnter, other);
    }

    method OnTriggerExit(other: Collider) returns (r: Outcome<LookupError>)
      modifies this`calls
      ensures CollisionEvent.OnTriggerExit !in events ==> r == Fail(KeyNotFound) && calls == old(calls)
      ensures CollisionEvent.OnTriggerExit in events ==>
                r == Pass && calls == old(calls) + Invocations(events[CollisionEvent.OnTriggerExit], other)
    {
      r := Fire(CollisionEvent.OnTriggerExit, other);
    }

    method OnTriggerStay(other: Collider) returns (r: Outcome<LookupError>)
      modifies this`calls
      ensures CollisionEvent.OnTriggerStay !in events ==> r == Fail(KeyNotFound) && calls == old(calls)
      ensures CollisionEvent.OnTriggerStay in events ==>
                r == Pass && calls == old(calls) + Invocations(events[CollisionEvent.OnTriggerStay], other)
    {
      r := Fire(CollisionEvent.OnTriggerStay, other);
    }
  }

  /** A dictionary without any of the six events is empty. */
  lemma NoEventKeys<V>(m: map<CollisionEvent, V>)
    requires OnCollisionEnter !in m && OnCollisionExit !in m && OnCollisionStay !in m
    requires OnTriggerEnter !in m && OnTriggerExit !in m && OnTriggerStay !in m
    ensures m == map[]
  {
    forall e
      ensures e !in m
    {
      match e
      case OnCollisionEnter =>
      case OnCollisionExit =>
      case OnCollisionStay =>
      case OnTriggerEnter =>
      case OnTriggerExit =>
      case OnTriggerStay =>
    }
    assert m.Keys == {};
  }

  /** A dictionary holding each of the six events holds every event. */
  lemma EveryEventKey<V>(m: map<CollisionEvent, V>)
    requires OnCollisionEnter in m && OnCollisionExit in m && OnCollisionStay in m
    requires OnTriggerEnter in m && OnTriggerExit in m && OnTriggerStay in m
    ensures forall e :: e in m
  {
    forall e
      ensures e in m
    {
      match e
      case OnCollisionEnter =>
      case OnCollisionExit =>
      case OnCollisionStay =>
      case OnTriggerEnter =>
      case OnTriggerExit =>
      case OnTriggerStay =>
    }
  }

  /** Invoking the handlers added one by one: the earlier handlers' calls, then the new one's. */
  lemma {:induction false} InvocationsAppend<Handler, Collider>(handlers: seq<Handler>, handler: Handler, collider: Collider)
    ensures Invocations(handlers + [handler], collider) == Invocations(handlers, collider) + [(handler, collider)]
  {
    if handlers != [] {
      assert (handlers + [handler])[1..] == handlers[1..] + [handler];
      InvocationsAppend(handlers[1..], handler, collider);
    }
  }
}
