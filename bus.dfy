/**
 * `Mage::dispatchEvent` reduced to what the resolvers rely on: the observers
 * registered for an event run synchronously, in registration order, on one
 * shared payload, so each sees what the previous ones left in it.
 */
module Bus {

  /** A dispatched event: its name, the key the payload is passed under, and the payload. */
  datatype Event<P> = Event(name: string, key: string, data: P)

  /** An observer reads the event and leaves the payload in a new state. */
  type Observer<!P> = Event<P> -> P

  /** The payload once every observer has run, first to last. */
  function Dispatch<P>(observers: seq<Observer<P>>, e: Event<P>): P
    decreases |observers|
  {
    if observers == [] then e.data
    else Dispatch(observers[1..], Event(e.name, e.key, observers[0](e)))
  }

  /** With no observer registered the payload comes back as it was sent. */
  lemma DispatchNone<P>(e: Event<P>)
    ensures Dispatch([], e) == e.data
  {
  }

  /** Dispatching to `a + b` is dispatching to `a`, then to `b` on what `a` left. */
  lemma {:induction false} DispatchAppend<P>(a: seq<Observer<P>>, b: seq<Observer<P>>, e: Event<P>)
    ensures Dispatch(a + b, e) == Dispatch(b, Event(e.name, e.key, Dispatch(a, e)))
    decreases |a|
  {
    if a == [] {
      assert a + b == b;
    } else {
      assert (a + b)[0] == a[0] && (a + b)[1..] == a[1..] + b;
      DispatchAppend(a[1..], b, Event(e.name, e.key, a[0](e)));
    }
  }

  /** The last observer sees the payload the others produced, and has the last word. */
  lemma DispatchLast<P>(a: seq<Observer<P>>, o: Observer<P>, e: Event<P>)
    ensures Dispatch(a + [o], e) == o(Event(e.name, e.key, Dispatch(a, e)))
  {
    DispatchAppend(a, [o], e);
  }
}
