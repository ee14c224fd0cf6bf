/** `Cache` (include/cache.h, src/cache.cpp): the watermark in front of the ring buffer. */
module Caches {
  import opened Bits
  import opened Messages
  import opened CacheSpec
  import opened SequentialQueue

  /** How `encache` ends: a returned value, or the exception of converting `U`. */
  datatype EncacheResult = Returned(ok: bool) | Threw

  class Cache {
    var watermark: uint64
    const queue: LockFreeQueue<Msg>

    ghost predicate Valid()
      reads this, queue
    {
      queue.Valid()
    }

    ghost function State(): CacheState
      reads this, queue, queue.buffer
      requires Valid()
    {
      CacheState(watermark, queue.Contents())
    }

    ghost predicate HasRoom()
      reads this, queue, queue.buffer
      requires Valid()
    {
      |State().queue| < queue.capacity - 1
    }

    constructor (queue: LockFreeQueue<Msg>, uninitialised: uint64)
      ensures this.queue == queue && watermark == uninitialised
    {
      this.queue := queue;
      this.watermark := uninitialised;
    }

    /** The constructor: null when the queue rejects the capacity. The watermark is never
        initialised, so it starts as any value. */
    static method Make(capacity: int, uninitialised: uint64) returns (c: Cache?)
      requires -0x8000_0000 <= capacity < 0x8000_0000
      ensures c != null <==> capacity == 0 || (capacity > 0 && IsPowerOfTwo(capacity))
      ensures c != null ==> fresh(c) && fresh(c.queue) && fresh(c.queue.buffer)
      ensures c != null && capacity != 0 ==>
        c.Valid() && c.queue.capacity == capacity && c.State() == CacheState(uninitialised, [])
    {
      var size: uint64 := capacity % TWO64;
      if capacity < 0 {
        NegativeCapacityRejected(capacity);
        ConstructorTest(size);
      } else {
        DivModUnique(capacity, TWO64, 0, capacity);
      }
      var q := LockFreeQueue<Msg>.Make(size);
      if q == null {
        return null;
      }
      c := new Cache(q, uninitialised);
    }

    /** True is returned exactly when the message is queued: there is room and a WebSocket message
        has a number above the watermark. The call throws exactly for a WebSocket message without
        a number. A WebSocket number above the watermark is the new one, queued or not. */
    method Encache(msg: LiveMsg) returns (r: EncacheResult)
      requires Valid()
      modifies this`watermark, queue`tail, queue.buffer
      ensures Valid()
      ensures r == Returned(true) <==>
        old(HasRoom()) && (msg.source == WebSocket ==>
                             msg.data.value.u.Some? && old(watermark) < msg.data.value.u.value)
      ensures r == Threw <==> msg.source == WebSocket && msg.data.value.u.None?
      ensures State().queue == if r == Returned(true) then old(State().queue) + [msg] else old(State().queue)
      ensures
        var u := msg.data.value.u;
        watermark == if msg.source == WebSocket && u.Some? && old(watermark) < u.value then u.value else old(watermark)
      ensures State() == CacheSpec.Encache(old(State()), msg, old(HasRoom())).0
      ensures r == Returned(true) <==> CacheSpec.Encache(old(State()), msg, old(HasRoom())).1 == Accepted
      ensures r == Threw <==> CacheSpec.Encache(old(State()), msg, old(HasRoom())).1 == Thrown
    {
      if msg.source == WebSocket {
        if msg.data.value.u.None? {
          return Threw;
        }
        var u := msg.data.value.u.value;
        if u <= watermark {
          return Returned(false);
        }
        watermark := u;
      }
      var ok := queue.Enqueue(msg);
      return Returned(ok);
    }

    method Decache(placeholder: Msg) returns (ok: bool, msg: Msg)
      requires Valid()
      modifies queue`head
      ensures Valid()
      ensures ok <==> old(State().queue) != []
      ensures State() == CacheSpec.Step(old(State()), Take(ok))
      ensures msg == if ok then old(State().queue)[0] else placeholder
    {
      ok, msg := queue.Dequeue(placeholder);
    }

    method Size() returns (n: uint64)
      requires Valid()
      ensures n == |State().queue|
    {
      n := queue.Size();
    }
  }
}
