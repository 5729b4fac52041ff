/** The event bus: a bounded broadcast ring that overwrites its oldest slot and never waits. */
module EventBus {
  import opened Common

  /** The channel rounds its capacity up to a power of two. */
  function RoundUp(n: nat, p: nat): (r: nat)
    requires 0 < p
    ensures n <= r && p <= r
    decreases n - p
  {
    if n <= p then p else RoundUp(n, 2 * p)
  }

  function Power(k: nat): (p: nat)
    ensures p > 0
  {
    if k == 0 then 1 else 2 * Power(k - 1)
  }

  /** The capacity is the least power of two that is not less than what was asked for. */
  lemma {:induction false} RoundUpIsLeast(n: nat, i: nat) returns (k: nat)
    requires i == 0 || Power(i - 1) < n
    ensures RoundUp(n, Power(i)) == Power(k) && n <= Power(k) && (k == 0 || Power(k - 1) < n)
    decreases n - Power(i)
  {
    if n <= Power(i) {
      k := i;
    } else {
      k := RoundUpIsLeast(n, i + 1);
    }
  }

  /** What a receiver finds at its position. */
  datatype Received<+E> = Event(event: E) | Lagged(missed: nat) | Empty | Closed

  /** The receiver at position `next` of a ring of `cap` slots, `log` having been sent so far. */
  function Receive<E>(log: seq<E>, cap: nat, closed: bool, next: nat): Received<E>
    requires next <= |log|
  {
    if next == |log| then if closed then Closed else Empty
    else if |log| - next > cap then Lagged(|log| - cap - next)
    else Event(log[next])
  }

  /** Positions less than a full turn apart use different slots. */
  lemma DistinctSlots(i: nat, j: nat, cap: nat)
    requires 0 < cap && i < j < i + cap
    ensures i % cap != j % cap
  {
    assert i == i / cap * cap + i % cap && j == j / cap * cap + j % cap;
    assert (j / cap - i / cap) * cap == j / cap * cap - i / cap * cap;
    NotMultiple(j / cap - i / cap, j - i, cap);
  }

  lemma NotMultiple(q: int, d: nat, cap: nat)
    requires 0 < d < cap
    ensures q * cap != d
  {
    if q >= 1 { assert q * cap >= cap; } else { assert q * cap <= 0; }
  }

  class EventBus<E> {
    const cap: nat
    var slots: array<Option<E>>
    var tail: nat
    var receivers: nat
    var closed: bool
    ghost var log: seq<E>

    ghost predicate Valid()
      reads this, slots
    {
      && cap > 0 && slots.Length == cap && |log| == tail
      && forall i :: 0 <= i < tail && tail - cap <= i ==> slots[i % cap] == Some(log[i])
    }

    constructor (capacity: nat)
      ensures Valid() && fresh(slots) && log == [] && receivers == 0 && !closed
      ensures cap >= capacity && cap >= 1
      ensures exists k: nat :: cap == Power(k) && (k == 0 || Power(k - 1) < if capacity < 1 then 1 else capacity)
    {
      var n := RoundUp(if capacity < 1 then 1 else capacity, 1);
      cap := n;
      slots := new Option<E>[n](_ => None);
      tail, receivers, closed, log := 0, 0, false, [];
      ghost var k := RoundUpIsLeast(if capacity < 1 then 1 else capacity, 0);
    }

    /** Send into the ring; with no receivers the event is dropped. */
    method Emit(event: E)
      requires Valid()
      modifies this`tail, this`log, slots
      ensures Valid()
      ensures log == if receivers == 0 then old(log) else old(log) + [event]
    {
      if receivers == 0 { return; }
      forall i | 0 <= i < tail && tail + 1 - cap <= i ensures i % cap != tail % cap { DistinctSlots(i, tail, cap); }
      slots[tail % cap] := Some(event);
      tail := tail + 1;
      log := log + [event];
    }

    /** A new receiver starts at the tail. */
    method Subscribe() returns (next: nat)
      requires Valid()
      modifies this`receivers
      ensures Valid() && receivers == old(receivers) + 1 && next == |log|
    {
      receivers := receivers + 1;
      next := tail;
    }

    /** Receive at position `next`: a slot already overwritten reports how many were missed and moves to
        the oldest one retained. */
    method TryRecv(next: nat) returns (r: Received<E>, next': nat)
      requires Valid() && next <= tail
      ensures r == Receive(log, cap, closed, next)
      ensures next' == next + (match r case Event(_) => 1 case Lagged(n) => n case _ => 0) <= tail
    {
      if next == tail { return if closed then Closed else Empty, next; }
      if tail - next > cap { return Lagged(tail - cap - next), tail - cap; }
      assert slots[next % cap] == Some(log[next]);
      return Event(slots[next % cap].value), next + 1;
    }
  }
}
