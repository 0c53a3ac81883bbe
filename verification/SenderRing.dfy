/** The ring of slots between the prefill producer and its sender thread. Each function is one
    region the program runs under the sender's lock (its condition wait is the guard), except
    Fill, which the producer does outside the lock on the slot it acquired. */
module SenderRing {
  import opened PrefillPlan
  import opened Wrappers

  datatype Ring = Ring(slots: seq<Option<Work>>, head: nat, tail: nat, queued: nat, done: bool, stop: bool)
  {
    predicate CanAcquire() { stop || queued < |slots| }

    function Acquire(): Option<nat> { if stop then None else Some(tail) }

    function Fill(w: Work): Ring
      requires tail < |slots|
    {
      this.(slots := slots[tail := Some(w)])
    }

    function Publish(): Ring
      requires 0 < |slots|
    {
      if stop then this else this.(tail := (tail + 1) % |slots|, queued := queued + 1)
    }

    predicate CanTake() { stop || queued > 0 || done }

    function Take(): Option<nat> { if stop || queued == 0 then None else Some(head) }

    function Release(): Ring
      requires 0 < |slots| && 0 < queued
    {
      this.(head := (head + 1) % |slots|, queued := queued - 1)
    }

    function Finish(): Ring { this.(done := true) }

    function Cancel(): Ring { this.(done := true, stop := true) }

    function SendFailed(): Ring { this.(stop := true) }

    /** Shape that holds whenever the lock is free. */
    ghost predicate Ok() {
      head < |slots| && tail < |slots| && queued <= |slots| && tail == Wrap(head + queued, |slots|)
    }

    /** Slot holding the k-th queued frame. */
    ghost function SlotOf(k: nat): nat
      requires Ok() && k < queued
    {
      Wrap(head + k, |slots|)
    }

    /** The queued frames, oldest first. */
    ghost function Queue(): (q: seq<Option<Work>>)
      requires Ok()
      ensures |q| == queued
    {
      seq(queued, k requires 0 <= k < queued => slots[SlotOf(k)])
    }
  }

  function Empty(n: nat): Ring { Ring(seq(n, _ => None), 0, 0, 0, false, false) }

  /** Reduction modulo n of an index less than two turns ahead. */
  function Wrap(x: nat, n: nat): nat
    requires x < 2 * n
  {
    if x < n then x else x - n
  }

  lemma WrapIsMod(x: nat, n: nat)
    requires x < 2 * n
    ensures Wrap(x, n) == x % n
  {
    if x < n {
      ModSmall(x, n);
    } else {
      ModSmall(x - n, n);
      assert x == n + (x - n);
    }
  }

  lemma ModSmall(x: nat, n: nat)
    requires x < n
    ensures x % n == x && (x + n) % n == x
  {
    var q, r := (x + n) / n, (x + n) % n;
    assert q * n + r == x + n;
    assert q >= 2 ==> q * n >= 2 * n;
    assert q <= 0 ==> q * n <= 0;
  }

  /** While a frame is queued and the ring is not full, the slot the producer fills is none of
      the slots the sender may read, so filling leaves every queued frame as it was. */
  lemma FillIsExclusive(r: Ring, w: Work)
    requires r.Ok() && r.queued < |r.slots|
    ensures forall k :: 0 <= k < r.queued ==> r.SlotOf(k) != r.tail
    ensures r.Fill(w).Ok() && r.Fill(w).Queue() == r.Queue()
  {}

  lemma PublishAppends(r: Ring)
    requires r.Ok() && r.queued < |r.slots| && !r.stop
    ensures r.Publish().Ok() && r.Publish().Queue() == r.Queue() + [r.slots[r.tail]]
  {
    WrapIsMod(r.tail + 1, |r.slots|);
  }

  lemma ReleaseDropsOldest(r: Ring)
    requires r.Ok() && 0 < r.queued
    ensures r.Release().Ok() && r.Release().Queue() == r.Queue()[1..]
  {
    WrapIsMod(r.head + 1, |r.slots|);
  }

  /** Flags play no part in what is queued. */
  lemma SameQueue(r: Ring, r': Ring)
    requires r.Ok() && r' == r.(done := r'.done, stop := r'.stop)
    ensures r'.Ok() && r'.Queue() == r.Queue()
  {}

  /** The sender's slot holds the oldest queued frame. */
  lemma TakeIsOldest(r: Ring)
    requires r.Ok()
    ensures r.Take().Some? ==> r.Take().value < |r.slots| && r.queued > 0 && r.slots[r.Take().value] == r.Queue()[0]
  {}

  // The sender object ---------------------------------------------------------

  class PrefillSender {
    const slots: array<Option<Work>>
    var head: nat
    var tail: nat
    var queued: nat
    var producerDone: bool
    var stop: bool

    function Abs(): Ring
      reads this, slots
    {
      Ring(slots[..], head, tail, queued, producerDone, stop)
    }

    constructor (slotCount: nat)
      requires 0 < slotCount
      ensures Abs() == Empty(slotCount) && Abs().Ok() && fresh(slots)
    {
      slots := new Option<Work>[slotCount](_ => None);
      head, tail, queued, producerDone, stop := 0, 0, 0, false, false;
    }

    /** The producer's wait ended: either the sender stopped or a slot is free. */
    method AcquireSlot() returns (slot: Option<nat>)
      requires Abs().Ok() && Abs().CanAcquire()
      ensures slot == Abs().Acquire()
      ensures slot.Some? ==> slot.value < slots.Length && forall k :: 0 <= k < queued ==> Abs().SlotOf(k) != slot.value
    {
      if stop { return None; }
      FillIsExclusive(Abs(), Work(0, 0, [], 0, 0, false, false));
      return Some(tail);
    }

    method FillSlot(slot: nat, w: Work)
      requires Abs().Ok() && queued < slots.Length && slot == tail
      modifies slots
      ensures Abs() == old(Abs()).Fill(w) && Abs().Ok() && Abs().Queue() == old(Abs().Queue())
    {
      FillIsExclusive(Abs(), w);
      slots[slot] := Some(w);
    }

    method EnqueueSlot() returns (ok: bool)
      requires Abs().Ok() && queued < slots.Length
      modifies this`tail, this`queued
      ensures ok == !stop && Abs() == old(Abs()).Publish() && Abs().Ok()
      ensures ok ==> Abs().Queue() == old(Abs().Queue()) + [old(slots[tail])]
    {
      if stop { return false; }
      PublishAppends(Abs());
      tail := (tail + 1) % slots.Length;
      queued := queued + 1;
      ok := true;
    }

    /** The sender's wait ended; None tells it to exit. */
    method TakeSlot() returns (slot: Option<nat>)
      requires Abs().Ok() && Abs().CanTake()
      ensures slot == Abs().Take()
      ensures slot.Some? ==> queued > 0 && slot.value < slots.Length && slots[slot.value] == Abs().Queue()[0]
    {
      if stop || queued == 0 { return None; }
      TakeIsOldest(Abs());
      return Some(head);
    }

    method ReleaseSlot()
      requires Abs().Ok() && 0 < queued
      modifies this`head, this`queued
      ensures Abs() == old(Abs()).Release() && Abs().Ok() && Abs().Queue() == old(Abs().Queue())[1..]
    {
      ReleaseDropsOldest(Abs());
      head := (head + 1) % slots.Length;
      queued := queued - 1;
    }
  }
}
