/**
 The ring as one goroutine sees it when no other call is in flight: arrays of sequence numbers
 and items behind two cursors, proved to be a bounded queue under both backpressure policies.
 */
module Ringbuf {
  import opened Laps
  import opened RingSteps

  /** k items from position `head` on, read around the ring. */
  function Around<T>(d: seq<T>, head: nat, k: nat): (q: seq<T>)
    requires 0 < |d|
    ensures |q| == k && forall i | 0 <= i < k :: q[i] == d[(head + i) % |d|]
  {
    seq(k, i requires 0 <= i < k => d[(head + i) % |d|])
  }

  lemma AroundGrows<T>(d: seq<T>, head: nat, k: nat, x: T)
    requires k < |d|
    ensures Around(d[(head + k) % |d| := x], head, k + 1) == Around(d, head, k) + [x]
  {
    var n := |d|;
    var d' := d[(head + k) % n := x];
    var q, q' := Around(d, head, k), Around(d', head, k + 1);
    forall i | 0 <= i < k ensures q'[i] == q[i] {
      SlotsDiffer(n, head + i, head + k);
    }
  }

  lemma AroundShrinks<T>(d: seq<T>, head: nat, k: nat)
    requires 0 < k && 0 < |d|
    ensures Around(d, head + 1, k - 1) == Around(d, head, k)[1..]
  {
    var q, q' := Around(d, head, k), Around(d, head + 1, k - 1);
    forall i | 0 <= i < k - 1 ensures q'[i] == q[i + 1] {
      assert (head + 1) + i == head + (i + 1);
    }
  }

  class Ringbuf<T> {
    var head: nat
    var tail: nat
    var evicted: nat
    const seqs: array<nat>
    const data: array<T>

    ghost predicate Valid()
      reads this`head, this`tail, seqs
    {
      && seqs as object != data
      && 2 <= seqs.Length == data.Length
      && head <= tail <= head + seqs.Length
      && forall p: int :: SlotValid(p)
    }

    /** A queued position is published, every earlier one of the lap is recycled. */
    ghost predicate SlotValid(p: int)
      reads this`head, this`tail, seqs
    {
      0 < seqs.Length ==>
        tail - seqs.Length <= p < tail ==>
          seqs[p % seqs.Length] == (if p < head then p + seqs.Length else p + 1)
    }

    ghost function Contents(): (q: seq<T>)
      requires Valid()
      reads this`head, this`tail, seqs, data
      ensures |q| == tail - head
    {
      Around(data[..], head, tail - head)
    }

    /** newRingbuf; `zero` is the item type's zero value. Capacity one is accepted and not valid. */
    constructor (size: nat, zero: T)
      requires 0 < size
      ensures fresh(seqs) && fresh(data) && seqs.Length == data.Length == size
      ensures head == tail == evicted == 0 && forall i | 0 <= i < size :: seqs[i] == i
      ensures Valid() <==> 2 <= size
      ensures Valid() ==> Contents() == []
    {
      head, tail, evicted := 0, 0, 0;
      seqs := new nat[size](i => i);
      data := new T[size](i => zero);
      new;
      forall p: int ensures SlotValid(p) {
        if -(seqs.Length as int) <= p < 0 {
          BeforeZero(seqs.Length, p);
          assert seqs[p + seqs.Length] == p + seqs.Length;
        }
      }
    }

    /** A slot write for position `at` leaves the slots of the other live positions alone. */
    lemma OtherSlots(at: int)
      requires 0 < seqs.Length
      ensures forall p: int | p != at && at - seqs.Length < p < at + seqs.Length :: p % seqs.Length != at % seqs.Length
    {
      var n := seqs.Length;
      forall p: int | p != at && at - n < p < at + n ensures p % n != at % n {
        if p < at { SlotsDiffer(n, p, at); } else { SlotsDiffer(n, at, p); }
      }
    }

    /** The slot that the next push looks at carries the previous lap. */
    lemma TailSlot()
      requires Valid()
      ensures seqs[tail % seqs.Length] == if tail - head == seqs.Length then tail - seqs.Length + 1 else tail
    {
      assert SlotValid(tail - seqs.Length);
      SlotsAgree(seqs.Length, tail - seqs.Length);
    }

    /** The slot that the next pop looks at is published unless the queue is empty. */
    lemma HeadSlot()
      requires Valid()
      ensures seqs[head % seqs.Length] == if head < tail then head + 1 else head
    {
      if head < tail { assert SlotValid(head); } else { TailSlot(); }
    }

    /** The winning branch of push: claim, write, publish. */
    method Publish(item: T)
      requires Valid() && tail - head < seqs.Length
      modifies this`tail, seqs, data
      ensures Valid() && Contents() == old(Contents()) + [item] && tail == old(tail) + 1
    {
      var pos := tail;
      var idx := pos % seqs.Length;
      OtherSlots(pos);
      tail := pos + 1;
      data[idx] := item;
      seqs[idx] := pos + 1;
      forall p: int ensures SlotValid(p) { assert old(SlotValid(p)); }
      AroundGrows(old(data[..]), head, pos - head, item);
      assert data[..] == old(data[..])[(head + (pos - head)) % data.Length := item];
    }

    /** The winning branch of a pop or an eviction: take the head, then recycle its slot. */
    method Recycle() returns (item: T)
      requires Valid() && head < tail
      modifies this`head, seqs
      ensures Valid() && item == old(Contents())[0] && Contents() == old(Contents())[1..] && head == old(head) + 1
    {
      var pos := head;
      var idx := pos % seqs.Length;
      OtherSlots(pos);
      head := pos + 1;
      item := data[idx];
      seqs[idx] := pos + seqs.Length;
      forall p: int ensures SlotValid(p) { assert old(SlotValid(p)); }
      AroundShrinks(data[..], pos, tail - pos);
    }

    method EvictOldest()
      requires Valid()
      modifies this`head, this`evicted, seqs
      ensures Valid()
      ensures old(Contents()) == [] ==> Contents() == [] && evicted == old(evicted) && head == old(head)
      ensures old(Contents()) != [] ==> Contents() == old(Contents())[1..] && evicted == old(evicted) + 1 && head == old(head) + 1
    {
      HeadSlot();
      if seqs[head % seqs.Length] == head + 1 {
        var _ := Recycle();
        evicted := evicted + 1;
      }
    }

    /**
     push, alone: DropNewest refuses exactly when the queue is full; DropOldest always succeeds,
     evicting exactly the oldest item when the queue is full and nothing otherwise.
     */
    method Push(item: T, policy: Policy) returns (ok: bool)
      requires Valid()
      modifies this, seqs, data
      ensures Valid()
      ensures
        var q := old(Contents());
        if |q| < seqs.Length then
          ok && Contents() == q + [item] && head == old(head) && evicted == old(evicted)
        else if policy.DropNewest? then
          !ok && Contents() == q && head == old(head) && evicted == old(evicted)
        else
          ok && Contents() == q[1..] + [item] && head == old(head) + 1 && evicted == old(evicted) + 1
      ensures tail == old(tail) + (if ok then 1 else 0)
    {
      var evictAttempts := 0;
      while true
        invariant Valid() && tail == old(tail) && evictAttempts <= 1
        invariant evictAttempts == 0 ==>
                    Contents() == old(Contents()) && head == old(head) && evicted == old(evicted)
        invariant evictAttempts == 1 ==>
                    && policy.DropOldest? && |old(Contents())| == seqs.Length
                    && Contents() == old(Contents())[1..] && head == old(head) + 1 && evicted == old(evicted) + 1
        decreases 1 - evictAttempts
      {
        TailSlot();
        var diff := seqs[tail % seqs.Length] - tail;
        if diff == 0 {
          Publish(item);
          return true;
        }
        assert diff < 0;
        if policy.DropNewest? {
          return false;
        }
        evictAttempts := evictAttempts + 1;
        if evictAttempts > MAX_EVICT_RETRIES {
          assert false;
        }
        EvictOldest();
      }
    }

    /** pop, alone: it fails exactly on the empty queue and otherwise takes the oldest item. */
    method Pop() returns (item: Option<T>)
      requires Valid()
      modifies this`head, seqs
      ensures Valid()
      ensures old(Contents()) == [] ==> item == None && Contents() == [] && head == old(head)
      ensures old(Contents()) != [] ==>
                item == Some(old(Contents())[0]) && Contents() == old(Contents())[1..] && head == old(head) + 1
    {
      HeadSlot();
      var diff := seqs[head % seqs.Length] - (head + 1);
      if diff < 0 {
        return None;
      }
      var x := Recycle();
      return Some(x);
    }
  }
}
