/**
 * One channel of the Java runtime (GpChan in internal/javabackend/runtime.go):
 * the operations that run under the lock. The object's methods are proved
 * against functions on its state; the monitor's steps use those functions.
 */
module Channels {

  /** The fields of a channel; `S` identifies queued senders. */
  datatype Chan<T, S> = Chan(cap: nat, nil: bool, buffer: seq<T>, senders: seq<S>, waiting: int, closed: bool) {
    predicate SendReady() {
      !nil && (closed || if cap > 0 then |buffer| < cap else waiting > 0)
    }

    predicate ReceiveReady() {
      !nil && (buffer != [] || senders != [] || closed)
    }
  }

  datatype Got<T, S> = FromBuffer(value: T) | FromSender(sender: S) | Nothing

  function Put<T, S>(c: Chan<T, S>, v: T): Chan<T, S> {
    c.(buffer := c.buffer + [v])
  }

  function Offer<T, S>(c: Chan<T, S>, s: S): Chan<T, S> {
    c.(senders := c.senders + [s])
  }

  /** The buffer is served before queued senders; an empty closed channel yields nothing. */
  function Receive<T, S>(c: Chan<T, S>): (Chan<T, S>, Got<T, S>) {
    if c.buffer != [] then (c.(buffer := c.buffer[1..]), FromBuffer(c.buffer[0]))
    else if c.senders != [] then (c.(senders := c.senders[1..]), FromSender(c.senders[0]))
    else (c, Nothing)
  }

  function Remove<S(==)>(xs: seq<S>, x: S): seq<S> {
    if xs == [] then [] else if xs[0] == x then xs[1..] else [xs[0]] + Remove(xs[1..], x)
  }

  class Sender<T> {
    const value: T
    var taken: bool

    constructor (value: T)
      ensures this.value == value && !taken
    {
      this.value := value;
      taken := false;
    }
  }

  class GpChan<T> {
    const cap: nat
    const nil: bool
    const zero: T
    var buffer: seq<T>
    var senders: seq<Sender<T>>
    var waitingReceivers: int
    var closed: bool

    function State(): Chan<T, Sender<T>>
      reads this
    {
      Chan(cap, nil, buffer, senders, waitingReceivers, closed)
    }

    constructor (cap: nat, nil: bool, zero: T)
      ensures State() == Chan(cap, nil, [], [], 0, false) && this.zero == zero
    {
      this.cap, this.nil, this.zero := cap, nil, zero;
      buffer, senders, waitingReceivers, closed := [], [], 0, false;
    }

    method SendReady() returns (r: bool)
      ensures r <==> State().SendReady()
      ensures !nil && !closed && cap > 0 ==> (r <==> |Put(State(), zero).buffer| <= cap)
    {
      r := !nil && (closed || if cap > 0 then |buffer| < cap else waitingReceivers > 0);
    }

    method ReceiveReady() returns (r: bool)
      ensures r <==> State().ReceiveReady()
      ensures !nil ==> (r <==> closed || !Receive(State()).1.Nothing?)
    {
      r := !nil && (|buffer| != 0 || |senders| != 0 || closed);
    }

    /** Commits a send found ready; a send on a closed channel panics and changes nothing. */
    method SendNow(v: T) returns (panicked: bool)
      modifies this`buffer, this`senders
      ensures panicked <==> old(closed)
      ensures panicked ==> State() == old(State())
      ensures !panicked && cap > 0 ==> State() == Put(old(State()), v)
      ensures !panicked && cap == 0 ==>
        && senders != [] && fresh(senders[|senders| - 1])
        && State() == Offer(old(State()), senders[|senders| - 1])
        && senders[|senders| - 1].value == v && !senders[|senders| - 1].taken
    {
      if closed {
        return true;
      }
      if cap > 0 {
        buffer := buffer + [v];
      } else {
        var s := new Sender(v);
        senders := senders + [s];
      }
      return false;
    }

    method ReceiveNow() returns (v: T, ok: bool)
      modifies this`buffer, this`senders, senders
      ensures State() == Receive(old(State())).0
      ensures match Receive(old(State())).1 {
                case FromBuffer(x) => ok && v == x
                case FromSender(s) => ok && v == s.value && s.taken
                case Nothing => !ok && v == zero
              }
      ensures forall s | s in old(senders) && Receive(old(State())).1 != FromSender(s) :: s.taken == old(s.taken)
    {
      if |buffer| != 0 {
        v, ok := buffer[0], true;
        buffer := buffer[1..];
      } else if |senders| != 0 {
        var s := senders[0];
        senders := senders[1..];
        s.taken := true;
        v, ok := s.value, true;
      } else {
        v, ok := zero, false;
      }
    }

    method Close() returns (panicked: bool)
      modifies this`closed
      ensures panicked <==> nil || old(closed)
      ensures State() == old(State()).(closed := if panicked then old(closed) else true)
    {
      if nil || closed {
        return true;
      }
      closed := true;
      return false;
    }
  }
}
