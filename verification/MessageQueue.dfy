/**
 * The single-producer, single-consumer message queue between the control
 * thread and the audio thread: `push` adds at the tail and `drain` hands
 * every pending message to a handler, oldest first.
 */
module MessageQueue {

  class Queue<M> {
    /** The pending messages, oldest first. */
    var pending: seq<M>

    constructor ()
      ensures pending == []
    {
      pending := [];
    }

    /** `push`: the message goes to the tail (the queue is unbounded, so it is never full). */
    method Push(m: M)
      modifies this
      ensures pending == old(pending) + [m]
    {
      pending := pending + [m];
    }

    /**
     * `drain`: takes messages from the head until the queue is empty; the
     * handler receives them in the order returned.
     */
    method Drain() returns (handled: seq<M>)
      modifies this
      ensures handled == old(pending)
      ensures pending == []
    {
      handled := [];
      while pending != []
        invariant handled + pending == old(pending)
        decreases |pending|
      {
        var m := pending[0];
        pending := pending[1..];
        handled := handled + [m];
      }
    }
  }

  /** Pushing two messages and draining hands them over in the order they were pushed. */
  method PushPushDrain<M>(a: M, b: M) returns (handled: seq<M>)
    ensures handled == [a, b]
  {
    var q := new Queue<M>();
    q.Push(a);
    q.Push(b);
    handled := q.Drain();
  }
}
