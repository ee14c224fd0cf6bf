/**
  `LockFreeQueue` (include/utils/queue.h) called by one thread at a time: an array with
  two masked indices is a FIFO of at most `capacity - 1` items.
 */
module SequentialQueue {
  import opened Bits

  /** The slot `k` places behind the head. */
  function Slot(c: nat, head: nat, k: nat): (i: nat)
    requires c >= 1
    ensures i < c
  {
    (head + k) % c
  }

  /** How many items lie between two indices, around the ring. */
  function Length(c: uint64, head: uint64, tail: uint64): nat
    requires head < c && tail < c
  {
    if tail >= head then tail - head else tail - head + c
  }

  /** The items stored between head and tail, oldest first. */
  function Stored<T>(slots: seq<T>, c: uint64, head: uint64, tail: uint64): seq<T>
    requires |slots| == c && head < c && tail < c
  {
    seq(Length(c, head, tail), k requires 0 <= k => slots[Slot(c, head, k)])
  }

  class LockFreeQueue<T(0)> {
    const capacity: uint64
    const buffer: array<T>
    var head: uint64
    var tail: uint64

    /** What every call keeps once the constructor has run with capacity at least 1. */
    ghost predicate Valid()
      reads this
    {
      && IsPowerOfTwo(capacity)
      && buffer.Length == capacity
      && head < capacity
      && tail < capacity
    }

    ghost function Contents(): seq<T>
      reads this, buffer
      requires Valid()
    {
      Stored(buffer[..], capacity, head, tail)
    }

    /** The member initialisers and `buffer_.resize`, once the capacity test has passed. */
    constructor (capacity: uint64)
      ensures this.capacity == capacity && fresh(buffer) && buffer.Length == capacity
      ensures head == 0 && tail == 0
      ensures IsPowerOfTwo(capacity) ==> Valid() && Contents() == []
    {
      this.capacity := capacity;
      this.buffer := new T[capacity];
      this.head := 0;
      this.tail := 0;
    }

    /** Construction with the test; the `invalid_argument` exception is a null result. */
    static method Make(capacity: uint64) returns (q: LockFreeQueue?<T>)
      ensures q != null <==> capacity == 0 || IsPowerOfTwo(capacity)
      ensures q != null ==> fresh(q) && fresh(q.buffer) && q.capacity == capacity
      ensures q != null && capacity >= 1 ==> q.Valid() && q.Contents() == []
    {
      ConstructorTest(capacity);
      if BitAnd(capacity, Sub64(capacity, 1)) != 0 {
        return null;
      }
      q := new LockFreeQueue<T>(capacity);
    }

    method Enqueue(item: T) returns (ok: bool)
      requires Valid()
      modifies this`tail, buffer
      ensures Valid()
      ensures ok <==> old(|Contents()|) < capacity - 1
      ensures Contents() == if ok then old(Contents()) + [item] else old(Contents())
    {
      var tail := this.tail;
      var nextTail := NextIndex(capacity, tail);
      NextOfIndex(capacity, tail);
      if nextTail == head {
        return false;
      }
      StoreOne(buffer[..], capacity, head, tail, item);
      buffer[tail] := item;
      this.tail := nextTail;
      return true;
    }

    method Dequeue(placeholder: T) returns (ok: bool, item: T)
      requires Valid()
      modifies this`head
      ensures Valid()
      ensures ok <==> old(Contents()) != []
      ensures ok ==> old(Contents()) == [item] + Contents()
      ensures !ok ==> item == placeholder && Contents() == old(Contents())
    {
      var head := this.head;
      if head == tail {
        return false, placeholder;
      }
      NextOfIndex(capacity, head);
      TakeOne(buffer[..], capacity, head, tail);
      item := buffer[head];
      this.head := NextIndex(capacity, head);
      return true, item;
    }

    method Size() returns (n: uint64)
      requires Valid()
      ensures n == |Contents()| < capacity
    {
      IndexDistanceIsLength(capacity, head, tail);
      n := IndexDistance(capacity, head, tail);
    }
  }

  lemma NextOfIndex(c: uint64, i: uint64)
    requires IsPowerOfTwo(c) && i < c
    ensures NextIndex(c, i) == if i + 1 == c then 0 else i + 1
  {
    MaskedSuccessor(i, c);
    DivModUnique(i, c, 0, i);
    DivModUnique(i + 1, c, if i + 1 == c then 1 else 0, if i + 1 == c then 0 else i + 1);
  }

  /** A slot index without division. */
  lemma SlotIs(c: nat, head: nat, k: nat)
    requires head < c && k <= c
    ensures Slot(c, head, k) == if head + k < c then head + k else head + k - c
  {
    DivModUnique(head + k, c, if head + k < c then 0 else 1, if head + k < c then head + k else head + k - c);
  }

  /** Writing the tail slot and advancing the tail appends one item. */
  lemma StoreOne<T>(slots: seq<T>, c: uint64, head: uint64, tail: uint64, item: T)
    requires |slots| == c && IsPowerOfTwo(c) && head < c && tail < c
    requires NextIndex(c, tail) != head
    ensures NextIndex(c, tail) < c
    ensures Stored(slots[tail := item], c, head, NextIndex(c, tail)) == Stored(slots, c, head, tail) + [item]
  {
    NextOfIndex(c, tail);
    var was, now := Stored(slots, c, head, tail), Stored(slots[tail := item], c, head, NextIndex(c, tail));
    assert |now| == |was| + 1;
    forall k: nat | k <= |was|
      ensures now[k] == (was + [item])[k]
    {
      SlotIs(c, head, k);
    }
  }

  /** Advancing the head hands out the oldest item. */
  lemma TakeOne<T>(slots: seq<T>, c: uint64, head: uint64, tail: uint64)
    requires |slots| == c && IsPowerOfTwo(c) && head < c && tail < c && head != tail
    ensures NextIndex(c, head) < c
    ensures Stored(slots, c, head, tail) == [slots[head]] + Stored(slots, c, NextIndex(c, head), tail)
  {
    NextOfIndex(c, head);
    var was, now := Stored(slots, c, head, tail), Stored(slots, c, NextIndex(c, head), tail);
    assert |was| == |now| + 1;
    SlotIs(c, head, 0);
    forall k: nat | k < |now|
      ensures now[k] == was[k + 1]
    {
      SlotIs(c, head, k + 1);
      SlotIs(c, NextIndex(c, head), k);
    }
    assert was == [slots[head]] + now;
  }

  lemma IndexDistanceIsLength(c: uint64, head: uint64, tail: uint64)
    requires IsPowerOfTwo(c) && head < c && tail < c
    ensures IndexDistance(c, head, tail) == Length(c, head, tail)
  {
    var t := head + Length(c, head, tail);
    DivModUnique(head, c, 0, head);
    DivModUnique(t, c, if tail >= head then 0 else 1, tail);
    MaskedDistance(head, t, c);
  }
}
