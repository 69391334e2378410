/** The bounded queue between the flush loop and the sender: a ring that drops its oldest batch when full. */
module QueueSpec {

  // Adding to a queue of at most cap items drops the oldest one when it is full.
  function Added<B>(items: seq<B>, cap: nat, b: B): seq<B> {
    (if |items| == cap && items != [] then items[1..] else items) + [b]
  }

  datatype Dequeued<B> = Got(batch: B) | QueueClosed | Cancelled | Waits

  // What a caller of Dequeue gets: an item whenever there is one, whatever else has happened.
  function Taken<B>(items: seq<B>, closed: bool, cancelled: bool): Dequeued<B> {
    if items != [] then Got(items[0])
    else if closed then QueueClosed
    else if cancelled then Cancelled
    else Waits
  }

  // ---- The life of every accepted item ------------------------------------------------

  datatype Fate = Delivered | Evicted

  // The accepted items that were delivered, in order.
  ghost function Deliveries<B>(accepted: seq<B>, fates: seq<Fate>): seq<B>
    requires |fates| <= |accepted|
    decreases |fates|
  {
    if fates == [] then []
    else
      var k := |fates| - 1;
      Deliveries(accepted, fates[..k]) + if fates[k].Delivered? then [accepted[k]] else []
  }

  lemma {:induction false} DeliveriesGrow<B>(accepted: seq<B>, fates: seq<Fate>, b: B)
    requires |fates| <= |accepted|
    ensures Deliveries(accepted + [b], fates) == Deliveries(accepted, fates)
    decreases |fates|
  {
    if fates != [] {
      DeliveriesGrow(accepted, fates[..|fates| - 1], b);
    }
  }
}

module Queue {
  import opened Options
  import opened QueueSpec

  // The i-th slot counted from head around a ring.
  function Slot(head: nat, i: nat, cap: nat): int {
    if head + i < cap then head + i else head + i - cap
  }

  lemma AtLeast(d: int, cap: nat)
    requires d >= 1
    ensures d * cap >= cap
  {
  }

  lemma AtMost(d: int, cap: nat)
    requires d <= -1
    ensures d * cap + cap <= 0
  {
  }

  lemma Wrap(x: nat, cap: nat)
    requires cap > 0 && x < 2 * cap
    ensures x % cap == if x < cap then x else x - cap
  {
    var r := if x < cap then x else x - cap;
    var d := x / cap - if x < cap then 0 else 1;
    assert x == (x / cap) * cap + x % cap;
    assert d * cap == r - x % cap;
    if d >= 1 {
      AtLeast(d, cap);
    } else if d <= -1 {
      AtMost(d, cap);
    }
  }

  // One slot further on, the same slots follow, and the one left behind comes last.
  lemma Turn(head: nat, cap: nat)
    requires head < cap
    ensures var next := (head + 1) % cap;
            && 0 <= next < cap && Slot(head, 0, cap) == head && Slot(next, cap - 1, cap) == head
            && (forall i :: 0 <= i < cap - 1 ==> Slot(next, i, cap) == Slot(head, i + 1, cap))
            && (forall i :: 0 <= i < cap - 1 ==> 0 <= Slot(next, i, cap) < cap && Slot(next, i, cap) != head)
  {
    Wrap(head + 1, cap);
  }

  class Queue<T> {
    // Batches of samples; a vacated slot holds nothing.
    var buf: array<Option<seq<T>>>
    var head: nat
    var size: nat
    const cap: nat
    var closed: bool
    // The observer: samples dropped because the queue was full, and the last length reported.
    var droppedSamples: nat
    var length: nat
    // Every batch accepted since the queue was made, and what became of those that have left it.
    ghost var accepted: seq<seq<T>>
    ghost var fates: seq<Fate>
    ghost var evictedSamples: nat

    ghost predicate Valid()
      reads this, buf
    {
      && cap >= 1 && buf.Length == cap && head < cap && size <= cap
      && |fates| + size == |accepted|
      && droppedSamples == evictedSamples
      && (forall i :: 0 <= i < size ==> buf[Slot(head, i, cap)] == Some(accepted[|fates| + i]))
      && (forall i :: size <= i < cap ==> buf[Slot(head, i, cap)] == None)
    }

    // The batches in the queue, oldest first.
    ghost function Contents(): seq<seq<T>>
      requires |fates| <= |accepted|
      reads this
    {
      accepted[|fates|..]
    }

    constructor (capacity: int)
      ensures Valid() && fresh(buf) && !closed
      ensures cap == if capacity < 1 then 1 else capacity
      ensures accepted == [] && fates == [] && Contents() == []
    {
      var c := if capacity < 1 then 1 else capacity;
      cap := c;
      buf := new Option<seq<T>>[c](_ => None);
      head, size, closed, droppedSamples, length := 0, 0, false, 0, 0;
      accepted, fates, evictedSamples := [], [], 0;
    }

    // The oldest batch leaves the ring, and its slot is cleared.
    method RemoveOldest(ghost fate: Fate) returns (batch: seq<T>)
      requires Valid() && size > 0
      modifies this`head, this`size, this`fates, this`evictedSamples, this`droppedSamples, buf
      ensures Valid() && size == old(size) - 1
      ensures batch == accepted[|old(fates)|] && fates == old(fates) + [fate]
      ensures Contents() == old(Contents())[1..] && batch == old(Contents())[0]
      ensures droppedSamples == old(droppedSamples) && evictedSamples == old(evictedSamples)
    {
      hide Slot;
      Turn(head, cap);
      batch := buf[head].value;
      buf[head] := None;
      head := (head + 1) % cap;
      size := size - 1;
      fates := fates + [fate];
    }

    // A batch joins a ring that has room.
    method AddNewest(batch: seq<T>)
      requires Valid() && size < cap
      modifies this`size, this`accepted, buf
      ensures Valid() && size == old(size) + 1
      ensures accepted == old(accepted) + [batch] && Contents() == old(Contents()) + [batch]
      ensures Deliveries(accepted, fates) == Deliveries(old(accepted), fates)
    {
      Wrap(head + size, cap);
      var tail := (head + size) % cap;
      assert tail == Slot(head, size, cap);
      assert forall i :: 0 <= i < cap && i != size ==> Slot(head, i, cap) != tail;
      DeliveriesGrow(accepted, fates, batch);
      buf[tail] := Some(batch);
      size := size + 1;
      accepted := accepted + [batch];
    }

    /** Never blocks: a full queue drops its oldest batch first; a closed queue discards the new one. */
    method Enqueue(batch: seq<T>)
      requires Valid()
      modifies this, buf
      ensures Valid() && closed == old(closed) && buf == old(buf)
      ensures closed ==> accepted == old(accepted) && fates == old(fates) && evictedSamples == old(evictedSamples)
      ensures !closed ==> accepted == old(accepted) + [batch]
      ensures !closed ==> Contents() == Added(old(Contents()), cap, batch)
      ensures !closed ==> fates == old(fates) + if old(size) == cap then [Evicted] else []
      ensures !closed ==> evictedSamples == old(evictedSamples)
                                            + if old(size) == cap then |old(Contents())[0]| else 0
      ensures Deliveries(accepted, fates) == Deliveries(old(accepted), old(fates))
    {
      hide Slot;
      if closed {
        return;
      }
      var droppedSize := 0;
      if size == cap {
        var dropped := RemoveOldest(Evicted);
        droppedSize := |dropped|;
        assert fates[..|fates| - 1] == old(fates);
      }
      AddNewest(batch);
      length := size;
      evictedSamples := evictedSamples + droppedSize;
      if droppedSize > 0 {
        droppedSamples := droppedSamples + droppedSize;
      }
    }

    /** The oldest batch, or why there is none; cancellation does not lose a batch that is there. */
    method Dequeue(cancelled: bool) returns (r: Dequeued<seq<T>>)
      requires Valid()
      modifies this, buf
      ensures Valid() && closed == old(closed) && accepted == old(accepted) && buf == old(buf)
      ensures r == Taken(old(Contents()), closed, cancelled)
      ensures r.Got? ==> Contents() == old(Contents())[1..] && fates == old(fates) + [Delivered]
      ensures r.Got? ==> Deliveries(accepted, fates) == Deliveries(old(accepted), old(fates)) + [r.batch]
      ensures !r.Got? ==> fates == old(fates)
      ensures evictedSamples == old(evictedSamples)
    {
      if size == 0 {
        if closed {
          return QueueClosed;
        }
        return if cancelled then Cancelled else Waits;
      }
      var batch := RemoveOldest(Delivered);
      assert fates[..|fates| - 1] == old(fates);
      length := size;
      return Got(batch);
    }

    method Close()
      requires Valid()
      modifies this`closed
      ensures Valid() && closed && Contents() == old(Contents())
    {
      closed := true;
    }
  }
}
