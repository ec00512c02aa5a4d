/**
 * The in-memory domain event bus: handlers subscribed per event type, and a
 * publish that calls the handlers of the event's own type in subscription
 * order and then the catch-all handlers subscribed to the base event type.
 * Event types are keys of any type `T`; `base` is the base event type.
 */
module EventBus {
  import opened Lists

  /** The handlers subscribed to `t`, in subscription order (none for an unknown type). */
  function Registered<T, H>(subs: map<T, seq<H>>, t: T): seq<H> {
    if t in subs then subs[t] else []
  }

  /**
   * The handlers a published event of type `t` reaches, in calling order: its
   * own type's handlers, then the catch-all ones unless `t` is itself the
   * base type.
   */
  function Recipients<T(==), H>(subs: map<T, seq<H>>, base: T, t: T): seq<H> {
    Registered(subs, t) + (if t != base then Registered(subs, base) else [])
  }

  /** The subscription table after `subscribe(t, h)`. */
  function Subscribed<T, H>(subs: map<T, seq<H>>, t: T, h: H): map<T, seq<H>> {
    subs[t := Registered(subs, t) + [h]]
  }

  /** The subscription table after `unsubscribe(t, h)`: one registration fewer, if there was one. */
  function Unsubscribed<T, H(==)>(subs: map<T, seq<H>>, t: T, h: H): map<T, seq<H>> {
    if t in subs then subs[t := RemoveFirst(subs[t], h)] else subs
  }

  /** Subscribing each (type, handler) pair in turn. */
  function SubscribeAll<T, H>(subs: map<T, seq<H>>, pairs: seq<(T, H)>): map<T, seq<H>>
    decreases pairs
  {
    if pairs == [] then subs else SubscribeAll(Subscribed(subs, pairs[0].0, pairs[0].1), pairs[1..])
  }

  /** Unsubscribing each (type, handler) pair in turn. */
  function UnsubscribeAll<T, H(==)>(subs: map<T, seq<H>>, pairs: seq<(T, H)>): map<T, seq<H>>
    decreases pairs
  {
    if pairs == [] then subs else UnsubscribeAll(Unsubscribed(subs, pairs[0].0, pairs[0].1), pairs[1..])
  }

  /** The handlers paired with type `t`, in order. */
  function HandlersFor<T(==), H>(pairs: seq<(T, H)>, t: T): seq<H>
    decreases pairs
  {
    if pairs == [] then []
    else (if pairs[0].0 == t then [pairs[0].1] else []) + HandlersFor(pairs[1..], t)
  }

  /**
   * A new handler runs after the handlers already subscribed to its type and
   * before the catch-all ones; a catch-all handler runs last for every other
   * type; no other type's recipients change.
   */
  lemma SubscribeOrder<T, H>(subs: map<T, seq<H>>, base: T, t: T, h: H, e: T)
    ensures e == t && t != base ==>
      Recipients(Subscribed(subs, t, h), base, e) == Registered(subs, t) + [h] + Registered(subs, base)
    ensures e == t && t == base ==> Recipients(Subscribed(subs, t, h), base, e) == Registered(subs, t) + [h]
    ensures e != t && t == base ==> Recipients(Subscribed(subs, t, h), base, e) == Recipients(subs, base, e) + [h]
    ensures e != t && t != base ==> Recipients(Subscribed(subs, t, h), base, e) == Recipients(subs, base, e)
  {
  }

  /** Unsubscribing a handler that is not registered for the type changes no delivery. */
  lemma UnsubscribeUnknown<T, H>(subs: map<T, seq<H>>, base: T, t: T, h: H, e: T)
    requires h !in Registered(subs, t)
    ensures Recipients(Unsubscribed(subs, t, h), base, e) == Recipients(subs, base, e)
  {
    if t in subs {
      assert Unsubscribed(subs, t, h) == subs;
    }
  }

  /** Unsubscribing a registered handler takes exactly one of its registrations away. */
  lemma UnsubscribeOne<T, H>(subs: map<T, seq<H>>, t: T, h: H)
    requires h in Registered(subs, t)
    ensures multiset(Registered(Unsubscribed(subs, t, h), t)) == multiset(Registered(subs, t)) - multiset{h}
    ensures forall e :: e != t ==> Registered(Unsubscribed(subs, t, h), e) == Registered(subs, e)
  {
    RemoveFirstMultiset(subs[t], h);
  }

  /** Subscribing a new handler and unsubscribing it again restores every delivery. */
  lemma SubscribeUnsubscribe<T, H>(subs: map<T, seq<H>>, base: T, t: T, h: H, e: T)
    requires h !in Registered(subs, t)
    ensures Recipients(Unsubscribed(Subscribed(subs, t, h), t, h), base, e) == Recipients(subs, base, e)
  {
    RemoveFirstAppended(Registered(subs, t), h);
    assert Registered(Unsubscribed(Subscribed(subs, t, h), t, h), t) == Registered(subs, t);
    assert forall u :: Registered(Unsubscribed(Subscribed(subs, t, h), t, h), u) == Registered(subs, u);
  }

  /** After a run of subscriptions a type's list has gained its handlers, in order. */
  lemma {:induction false} RegisteredAfterSubscribeAll<T, H>(subs: map<T, seq<H>>, pairs: seq<(T, H)>, t: T)
    ensures Registered(SubscribeAll(subs, pairs), t) == Registered(subs, t) + HandlersFor(pairs, t)
    decreases pairs
  {
    if pairs != [] {
      RegisteredAfterSubscribeAll(Subscribed(subs, pairs[0].0, pairs[0].1), pairs[1..], t);
    }
  }

  /** After a run of unsubscriptions a type's list has lost one registration per handler paired with it. */
  lemma {:induction false} RegisteredAfterUnsubscribeAll<T, H>(subs: map<T, seq<H>>, pairs: seq<(T, H)>, t: T)
    ensures Registered(UnsubscribeAll(subs, pairs), t) == RemoveEach(Registered(subs, t), HandlersFor(pairs, t))
    decreases pairs
  {
    if pairs != [] {
      var next := Unsubscribed(subs, pairs[0].0, pairs[0].1);
      RegisteredAfterUnsubscribeAll(next, pairs[1..], t);
      var rest := HandlersFor(pairs[1..], t);
      if pairs[0].0 == t {
        assert Registered(next, t) == RemoveFirst(Registered(subs, t), pairs[0].1);
        assert HandlersFor(pairs, t) == [pairs[0].1] + rest;
        assert ([pairs[0].1] + rest)[1..] == rest;
      } else {
        assert Registered(next, t) == Registered(subs, t);
        assert HandlersFor(pairs, t) == rest;
      }
    }
  }

  /**
   * Unsubscribing exactly the pairs that were subscribed restores every
   * type's handler list, when none of those handlers was registered before.
   */
  lemma SubscribeUnsubscribeAll<T, H>(subs: map<T, seq<H>>, pairs: seq<(T, H)>, t: T)
    requires forall h :: h in HandlersFor(pairs, t) ==> h !in Registered(subs, t)
    ensures Registered(UnsubscribeAll(SubscribeAll(subs, pairs), pairs), t) == Registered(subs, t)
  {
    RegisteredAfterSubscribeAll(subs, pairs, t);
    RegisteredAfterUnsubscribeAll(SubscribeAll(subs, pairs), pairs, t);
    RemoveEachAppended(Registered(subs, t), HandlersFor(pairs, t));
  }

  /**
   * Calls each handler in turn; a handler that raises (`fails` says which)
   * is recorded and the next one is still called.
   */
  method Deliver<H(!new)>(handlers: seq<H>, fails: H -> bool) returns (called: seq<H>, failed: seq<H>)
    ensures called == handlers
    ensures failed == Filter(handlers, fails)
  {
    called, failed := [], [];
    for i := 0 to |handlers|
      invariant called == handlers[..i]
      invariant failed == Filter(handlers[..i], fails)
    {
      FilterSnoc(handlers[..i], handlers[i], fails);
      assert handlers[..i + 1] == handlers[..i] + [handlers[i]];
      called := called + [handlers[i]];
      if fails(handlers[i]) {
        failed := failed + [handlers[i]];
      }
    }
    assert handlers[..|handlers|] == handlers;
  }

  class Bus<T(==), H(==, !new)> {
    /** The base event type, whose handlers hear every event. */
    const base: T
    /** Handlers per event type, in subscription order. */
    var subscribers: map<T, seq<H>>

    constructor (base: T)
      ensures this.base == base && subscribers == map[]
    {
      this.base := base;
      subscribers := map[];
    }

    /** `subscribe`: appends the handler to its type's list, creating the list if needed. */
    method Subscribe(t: T, h: H)
      modifies this
      ensures subscribers == Subscribed(old(subscribers), t, h)
    {
      subscribers := subscribers[t := Registered(subscribers, t) + [h]];
    }

    /** `unsubscribe`: removes the first registration of the handler; an unknown handler or type is ignored. */
    method Unsubscribe(t: T, h: H)
      modifies this
      ensures subscribers == Unsubscribed(old(subscribers), t, h)
    {
      if t in subscribers {
        subscribers := subscribers[t := RemoveFirst(subscribers[t], h)];
      }
    }

    /**
     * `publish`: calls every recipient of the event's type in order, and a
     * handler that raises does not stop the ones after it. Returns the
     * handlers called and those that raised.
     */
    method Publish(t: T, fails: H -> bool) returns (called: seq<H>, failed: seq<H>)
      ensures called == Recipients(subscribers, base, t)
      ensures failed == Filter(Registered(subscribers, t), fails)
        + (if t != base then Filter(Registered(subscribers, base), fails) else [])
    {
      var typedCalled, typedFailed := [], [];
      if t in subscribers {
        typedCalled, typedFailed := Deliver(subscribers[t], fails);
      }
      var allCalled, allFailed := [], [];
      if base in subscribers && t != base {
        allCalled, allFailed := Deliver(subscribers[base], fails);
      }
      called := typedCalled + allCalled;
      failed := typedFailed + allFailed;
    }

    /** `clear`: drops every subscription, so no later event reaches any handler. */
    method Clear()
      modifies this
      ensures subscribers == map[]
      ensures forall t :: Recipients(subscribers, base, t) == []
    {
      subscribers := map[];
    }
  }
}
