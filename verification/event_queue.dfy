/**
 The input event and the bounded ring buffer that holds events until the
 dispatch loop consumes them (UserInterface.h, `Event`, `null_event` and
 `EventQueue`).

 The buffer is a value: a fixed-length sequence of slots and three byte
 indices. `Contents` is its abstract view, the events in the order `get`
 will hand them out.
 */
module EventQueue {
  import opened Numeric

  /** Capacity of the ring buffer. */
  const SIZE: nat := 8

  /** One input event: a clock reading, a source channel and a payload byte. */
  datatype Event = Event(time: u32, source: byte, data: byte)

  /** The sentinel `get` returns when there is nothing to return. */
  const NullEvent: Event := Event(0, 0, 0)

  datatype Queue = Queue(slots: seq<Event>, front: byte, back: byte, count: byte)

  /** The ring-buffer invariant: the indices address slots, the occupancy
      never exceeds the capacity, and the back index is `count` slots past
      the front one. */
  predicate Valid(q: Queue)
  {
    && |q.slots| == SIZE
    && (q.front as int) < SIZE
    && (q.back as int) < SIZE
    && (q.count as int) <= SIZE
    && q.back as int == Index(q.front as int, q.count as int)
  }

  /** The slot `i` places past `front` on the ring: the source's
      `(front + i) % SIZE`, written without division. */
  function Index(front: int, i: int): (k: int)
    requires 0 <= front < SIZE && 0 <= i <= SIZE
    ensures 0 <= k < SIZE
  {
    if front + i < SIZE then front + i else front + i - SIZE
  }

  /** `Index` is the source's modular index arithmetic. */
  lemma IndexIsMod(front: int, i: int)
    requires 0 <= front < SIZE && 0 <= i <= SIZE
    ensures Index(front, i) == (front + i) % SIZE
  {
  }

  /** The events currently held, oldest first. */
  function Contents(q: Queue): (s: seq<Event>)
    requires Valid(q)
    ensures |s| == q.count as int
  {
    seq(q.count as int, i requires 0 <= i < q.count as int => q.slots[Index(q.front as int, i)])
  }

  /** A freshly constructed queue: all indices zero, holding nothing. */
  function Empty(): (q: Queue)
    ensures Valid(q)
    ensures Contents(q) == []
  {
    Queue(seq(SIZE, _ => NullEvent), 0, 0, 0)
  }

  /** `put`: stamp the event with the clock reading `now` and append it, or
      drop it silently when the buffer is full. */
  function Put(q: Queue, now: u32, source: byte, data: byte): (r: Queue)
    requires Valid(q)
    ensures Valid(r)
    ensures q.count as int < SIZE ==>
      && Contents(r) == Contents(q) + [Event(now, source, data)]
      && r.count == q.count + 1
      && r.front == q.front
      && r.slots[q.back] == Event(now, source, data)
      && forall i :: 0 <= i < SIZE && i != q.back as int ==> r.slots[i] == q.slots[i]
    ensures q.count as int == SIZE ==> r == q
  {
    if (q.count as int) < SIZE then
      var r := Queue(q.slots[q.back as int := Event(now, source, data)],
                     q.front, Index(q.back as int, 1) as byte, q.count + 1);
      assert Contents(r) == Contents(q) + [Event(now, source, data)];
      r
    else
      q
  }

  /** `get`: remove and return the oldest event, or return the sentinel and
      leave the queue as it is when there is none. The slots themselves are
      never touched by a removal. */
  function Get(q: Queue): (r: (Queue, Event))
    requires Valid(q)
    ensures Valid(r.0)
    ensures q.count > 0 ==>
      && r.1 == Contents(q)[0]
      && Contents(r.0) == Contents(q)[1..]
      && r.0.slots == q.slots
      && r.0.front as int == Index(q.front as int, 1)
      && r.0.back == q.back
    ensures q.count == 0 ==> r.0 == q && r.1 == NullEvent
  {
    if q.count > 0 then
      var r := Queue(q.slots, Index(q.front as int, 1) as byte, q.back, q.count - 1);
      assert Contents(r) == Contents(q)[1..];
      (r, q.slots[q.front])
    else
      (q, NullEvent)
  }

  /** `count`: the number of events held. */
  function Count(q: Queue): (n: byte)
    requires Valid(q)
    ensures n as int == |Contents(q)|
    ensures n as int <= SIZE
  {
    q.count
  }

  /** A client's call on the queue: `put` with its clock reading, or `get`. */
  datatype Op = PutOp(now: u32, source: byte, data: byte) | GetOp

  /** The outcome of a run of calls: the final queue, the events handed out
      by the `get`s that found the queue non-empty, and the events the
      `put`s accepted (those that found room). */
  datatype Trace = Trace(queue: Queue, delivered: seq<Event>, accepted: seq<Event>)

  /** Performs one call. */
  function Step(q: Queue, op: Op): (t: Trace)
    requires Valid(q)
    ensures Valid(t.queue)
    ensures t.delivered + Contents(t.queue) == Contents(q) + t.accepted
  {
    match op
    case PutOp(now, source, data) =>
      var kept := if (q.count as int) < SIZE then [Event(now, source, data)] else [];
      Trace(Put(q, now, source, data), [], kept)
    case GetOp =>
      var (q', e) := Get(q);
      var got := if q.count > 0 then [e] else [];
      assert q.count > 0 ==> Contents(q) == [e] + Contents(q');
      Trace(q', got, [])
  }

  /** Performs `ops` in order. */
  function Run(q: Queue, ops: seq<Op>): (t: Trace)
    requires Valid(q)
    ensures Valid(t.queue)
    decreases |ops|
  {
    if ops == [] then
      Trace(q, [], [])
    else
      var first := Step(q, ops[0]);
      var rest := Run(first.queue, ops[1..]);
      Trace(rest.queue, first.delivered + rest.delivered, first.accepted + rest.accepted)
  }

  /** FIFO: whatever the interleaving of `put` and `get`, the events handed
      out followed by the events still held are exactly the events held at
      the start followed by the events accepted, in order. Nothing is
      reordered, duplicated or lost except the puts dropped on a full queue. */
  lemma {:induction false} FifoOrder(q: Queue, ops: seq<Op>)
    requires Valid(q)
    ensures var t := Run(q, ops); t.delivered + Contents(t.queue) == Contents(q) + t.accepted
    decreases |ops|
  {
    if ops != [] {
      var first := Step(q, ops[0]);
      var rest := Run(first.queue, ops[1..]);
      FifoOrder(first.queue, ops[1..]);
      Splice(first.delivered, rest.delivered, Contents(q), Contents(first.queue),
             Contents(rest.queue), first.accepted, rest.accepted);
    }
  }

  /** Chaining two FIFO steps: if `d1 + mid == start + a1` and
      `d2 + end == mid + a2`, then `(d1 + d2) + end == start + (a1 + a2)`. */
  lemma Splice(d1: seq<Event>, d2: seq<Event>, start: seq<Event>, mid: seq<Event>,
               end: seq<Event>, a1: seq<Event>, a2: seq<Event>)
    requires d1 + mid == start + a1
    requires d2 + end == mid + a2
    ensures (d1 + d2) + end == start + (a1 + a2)
  {
    calc {
      (d1 + d2) + end;
      d1 + (d2 + end);
      d1 + (mid + a2);
      (d1 + mid) + a2;
      (start + a1) + a2;
    }
  }

  /** The events a run of puts offers, in order. */
  function PutEvents(ops: seq<Op>): seq<Event>
    requires forall k :: 0 <= k < |ops| ==> ops[k].PutOp?
    decreases |ops|
  {
    if ops == [] then []
    else [Event(ops[0].now, ops[0].source, ops[0].data)] + PutEvents(ops[1..])
  }

  /** Drop newest: a run of puts keeps exactly the first events that find
      room, and drops every later one. */
  lemma {:induction false} DropsOnlyWhenFull(q: Queue, ops: seq<Op>)
    requires Valid(q)
    requires forall k :: 0 <= k < |ops| ==> ops[k].PutOp?
    ensures |PutEvents(ops)| == |ops|
    ensures Run(q, ops).accepted == PutEvents(ops)[..Min(|ops|, SIZE - q.count as int)]
    decreases |ops|
  {
    if ops != [] {
      DropsOnlyWhenFull(Put(q, ops[0].now, ops[0].source, ops[0].data), ops[1..]);
    }
  }

  /** Puts `items` one after another (each with its own clock reading), then
      gets until the queue reports empty. The first `SIZE` items come back
      in order and the queue ends empty; any items beyond `SIZE` are dropped. */
  method FillThenDrain(items: seq<Event>) returns (got: seq<Event>, q: Queue)
    ensures Valid(q)
    ensures Contents(q) == []
    ensures got == items[..Min(|items|, SIZE)]
  {
    q := Empty();
    var k := 0;
    while k < |items|
      invariant 0 <= k <= |items|
      invariant Valid(q)
      invariant Contents(q) == items[..Min(k, SIZE)]
    {
      q := Put(q, items[k].time, items[k].source, items[k].data);
      k := k + 1;
    }
    got := [];
    while Count(q) > 0
      invariant Valid(q)
      invariant got + Contents(q) == items[..Min(|items|, SIZE)]
      decreases q.count
    {
      var before := q;
      var (next, e) := Get(q);
      q := next;
      assert Contents(before) == [e] + Contents(q);
      got := got + [e];
    }
  }
}
