/** A job's event stream between the worker and one HTTP consumer. */
module JobStream {
  import opened Wrappers

  class JobStream<E> {
    var events: seq<E>
    var closed: bool
    ghost var pushed: seq<E>
    ghost var popped: seq<E>

    /** Nothing is lost, repeated or reordered. */
    ghost predicate Valid()
      reads this
    {
      pushed == popped + events
    }

    constructor ()
      ensures Valid() && events == [] && !closed && pushed == []
    {
      events, closed, pushed, popped := [], false, [], [];
    }

    /** A push is not refused after close; the producer has to keep that order. */
    method Push(e: E)
      requires Valid()
      modifies this`events, this`pushed
      ensures Valid() && pushed == old(pushed) + [e] && events == old(events) + [e]
    {
      events := events + [e];
      pushed := pushed + [e];
    }

    method Close()
      requires Valid()
      modifies this`closed
      ensures Valid() && closed
    {
      closed := true;
    }

    /** An event if there is one when the wait ends; else nothing, whether the wait timed out or
        the stream is closed and drained. */
    method Pop() returns (out: Option<E>)
      requires Valid()
      modifies this`events, this`popped
      ensures Valid()
      ensures out.None? <==> old(events) == []
      ensures if out.None? then popped == old(popped) else popped == old(popped) + [out.value]
      ensures if out.None? then events == [] else events == old(events)[1..] && out.value == old(events)[0]
    {
      if events == [] && !closed { return None; }
      if events == [] { return None; }
      out := Some(events[0]);
      popped := popped + [events[0]];
      events := events[1..];
    }

    /** A consumer that knows the stream closed before it drains it receives everything, in the
        order pushed. */
    method Drain() returns (got: seq<E>)
      requires Valid() && closed
      modifies this`events, this`popped
      ensures Valid() && got == old(events) && events == [] && popped == pushed
    {
      got := [];
      while events != []
        invariant Valid() && closed && got + events == old(events)
        decreases |events|
      {
        var e := Pop();
        got := got + [e.value];
      }
    }
  }
}
