/** The single-producer single-consumer ring, used from one thread at a time. */
module SpscQueue {
  import opened Bits
  import opened Options
  import opened Ring

  class SpscQueue<T(0)> {
    const capacity: nat
    const data: array<T>
    var head: nat
    var tail: nat

    ghost predicate Valid()
      reads this
    {
      && IsPowerOfTwo(capacity)
      && capacity <= TWO_64
      && data.Length == capacity
      && head < capacity
      && tail < capacity
    }

    /** The queued items, oldest first. */
    ghost function Contents(): (s: seq<T>)
      requires Valid()
      reads this, data
      ensures |s| <= capacity - 1
    {
      Slice(data[..], tail, Distance(tail, head, capacity))
    }

    constructor (capacity: nat)
      requires IsPowerOfTwo(capacity) && capacity <= TWO_64
      ensures Valid() && fresh(data) && this.capacity == capacity
      ensures Contents() == []
    {
      this.capacity := capacity;
      data := new T[capacity];
      head, tail := 0, 0;
    }

    /** Appends unless the ring already holds one item fewer than its capacity. */
    method Push(item: T) returns (ok: bool)
      requires Valid()
      modifies this, data
      ensures Valid()
      ensures ok == (|old(Contents())| < capacity - 1)
      ensures Contents() == if ok then old(Contents()) + [item] else old(Contents())
    {
      var next := Advance(head, capacity);
      AdvanceWraps(head, capacity);
      if next == tail {
        return false;
      }
      ghost var n := Distance(tail, head, capacity);
      SliceGrows(data[..], tail, n, item);
      ghost var was := data[..];
      data[head] := item;
      assert data[..] == was[Wrap(tail + n, capacity) := item];
      head := next;
      return true;
    }

    /** Removes the oldest item, or reports that there is none. */
    method Pop() returns (r: Option<T>)
      requires Valid()
      modifies this
      ensures Valid()
      ensures r == if old(Contents()) == [] then None else Some(old(Contents())[0])
      ensures Contents() == if r.None? then [] else old(Contents())[1..]
    {
      if tail == head {
        return None;
      }
      SliceShrinks(data[..], tail, Distance(tail, head, capacity));
      AdvanceWraps(tail, capacity);
      var item := data[tail];
      tail := Advance(tail, capacity);
      return Some(item);
    }

    method Empty() returns (e: bool)
      requires Valid()
      ensures e <==> Contents() == []
    {
      e := head == tail;
    }

    /** `(h - t) & mask_` in 64-bit arithmetic counts the queued items. */
    method Size() returns (n: nat)
      requires Valid()
      ensures n == |Contents()|
    {
      MaskedDifferenceIsDistance(head, tail, capacity);
      n := MaskedDifference(head, tail, capacity);
    }
  }
}
